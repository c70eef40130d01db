/** The IME object of `ime/main.cpp`: the translate-message buffer lent by
    `ImeToAsciiEx`, the routing of generated messages, the menu commands,
    the clamp of a window into the work area, and the greedy choice of
    clauses for a multi-clause conversion. */
module ImeMain {
  import opened Wrappers
  import opened Text
  import opened Hinshi
  import opened LatticeNodes
  import opened Candidates

  // ---- Messages -------------------------------------------------------------

  /** Message numbers of the Windows headers. */
  const WM_IME_CHAR: nat := 0x0286
  const WM_IME_NOTIFY: nat := 0x0282
  const IMN_PRIVATE: nat := 0x000E

  /** `TRANSMSG`. */
  datatype TransMsg = TransMsg(message: nat, wParam: nat, lParam: int)

  /** `TRANSMSGLIST`: the buffer the system lends for one key. `uMsgCount`
      is the number of slots the caller announces; `msgs` is the storage. */
  class TransMsgList {
    var uMsgCount: nat
    const msgs: array<TransMsg>

    ghost predicate Valid()
      reads this
    {
      uMsgCount <= msgs.Length
    }

    constructor(n: nat, blank: TransMsg)
      ensures Valid() && uMsgCount == n && msgs.Length == n && fresh(msgs)
      ensures forall i :: 0 <= i < n ==> msgs[i] == blank
    {
      uMsgCount := n;
      msgs := new TransMsg[n](_ => blank);
    }
  }

  /** The input modes (`INPUT_MODE`); `IMODE_DISABLED` stands for every
      other value `GetInputMode` may report. */
  datatype InputMode =
    | IMODE_FULL_HIRAGANA | IMODE_FULL_KATAKANA | IMODE_FULL_ASCII
    | IMODE_HALF_KANA | IMODE_HALF_ASCII | IMODE_DISABLED

  /** `MzIme` with the fields message generation uses. `imcMsgs` is the
      message buffer of the locked input context (`hMsgBuf`). */
  class MzIme {
    var curTransKey: TransMsgList?
    var numTransKey: nat
    var overflowKey: bool
    var imcMsgs: seq<TransMsg>

    /** `MzIme::MzIme`. */
    constructor()
      ensures curTransKey == null && numTransKey == 0 && !overflowKey && imcMsgs == []
    {
      curTransKey := null;
      numTransKey := 0;
      overflowKey := false;
      imcMsgs := [];
    }

    /** `MzIme::GenerateMessageToTransKey`: the count goes up on every
        call; a count that reaches `uMsgCount` flags the overflow and
        writes nothing, otherwise the message goes to slot count-1. */
    method GenerateMessageToTransKey(msg: TransMsg) returns (ok: bool)
      requires curTransKey != null && curTransKey.Valid()
      modifies this, curTransKey.msgs
      ensures curTransKey == old(curTransKey) && imcMsgs == old(imcMsgs)
      ensures numTransKey == old(numTransKey) + 1
      ensures ok <==> numTransKey < curTransKey.uMsgCount
      ensures !ok ==> overflowKey && curTransKey.msgs[..] == old(curTransKey.msgs[..])
      ensures ok ==> overflowKey == old(overflowKey)
      ensures ok ==> curTransKey.msgs[..] == old(curTransKey.msgs[..])[numTransKey - 1 := msg]
    {
      numTransKey := numTransKey + 1;
      if numTransKey >= curTransKey.uMsgCount {
        overflowKey := true;
        return false;
      }
      curTransKey.msgs[numTransKey - 1] := msg;
      return true;
    }

    /** `MzIme::GenerateMessage`: with a lent buffer the message goes
        there; otherwise it is appended to the input context's buffer when
        that context has a window and its buffer could be grown and locked
        (`imcReady`), and the result is what `ImmGenerateMessage` answers
        (`generated`). */
    method GenerateMessage(msg: TransMsg, imcReady: bool, generated: bool) returns (ok: bool)
      requires curTransKey != null ==> curTransKey.Valid()
      modifies this, if curTransKey != null then {curTransKey.msgs} else {}
      ensures curTransKey == old(curTransKey)
      ensures old(curTransKey) != null ==>
                numTransKey == old(numTransKey) + 1 && imcMsgs == old(imcMsgs)
                && (ok <==> numTransKey < curTransKey.uMsgCount)
                && (ok ==> curTransKey.msgs[..] == old(curTransKey.msgs[..])[numTransKey - 1 := msg])
                && (!ok ==> overflowKey && curTransKey.msgs[..] == old(curTransKey.msgs[..]))
      ensures old(curTransKey) == null ==>
                numTransKey == old(numTransKey) && overflowKey == old(overflowKey)
                && imcMsgs == old(imcMsgs) + (if imcReady then [msg] else [])
                && ok == (imcReady && generated)
    {
      if curTransKey != null {
        ok := GenerateMessageToTransKey(msg);
        return;
      }
      ok := false;
      if imcReady {
        imcMsgs := imcMsgs + [msg];
        ok := generated;
      }
    }

    /** `MzIme::DoCommand`: the notification items generate a private
        notify message here; the other effects are handed back. */
    method DoCommand(cmd: Command, imcReady: bool, generated: bool) returns (ok: bool, effect: Option<Effect>)
      requires curTransKey != null ==> curTransKey.Valid()
      modifies this, if curTransKey != null then {curTransKey.msgs} else {}
      ensures ok <==> !cmd.OtherCommand?
      ensures effect == CommandEffect(cmd)
      ensures curTransKey == old(curTransKey)
      ensures (effect.None? || !effect.value.Notify?) ==>
                numTransKey == old(numTransKey) && overflowKey == old(overflowKey)
                && imcMsgs == old(imcMsgs)
                && (old(curTransKey) != null ==> curTransKey.msgs[..] == old(curTransKey.msgs[..]))
      ensures effect.Some? && effect.value.Notify? && old(curTransKey) == null ==>
                imcMsgs == old(imcMsgs) + (if imcReady then [NotifyMessage(effect.value.lParam)] else [])
      ensures effect.Some? && effect.value.Notify? && old(curTransKey) != null ==>
                numTransKey == old(numTransKey) + 1
    {
      effect := CommandEffect(cmd);
      ok := effect.Some?;
      if effect.Some? && effect.value.Notify? {
        var _ := GenerateMessage(NotifyMessage(effect.value.lParam), imcReady, generated);
      }
    }
  }

  // ---- Menu commands -----------------------------------------------------------

  /** The menu command ids `DoCommand` knows; `OtherCommand` is any id
      outside its case list. */
  datatype Command =
    | IDM_RECONVERT | IDM_ABOUT | IDM_HIRAGANA | IDM_FULL_KATAKANA | IDM_FULL_ASCII
    | IDM_HALF_KATAKANA | IDM_HALF_ASCII | IDM_CANCEL | IDM_ROMAN_INPUT | IDM_KANA_INPUT
    | IDM_HIDE | IDM_PROPERTY | IDM_ADD_WORD | IDM_IME_PAD | IDM_IME_PROPERTY
    | OtherCommand(id: nat)

  /** What a command does: nothing, a private notification with the given
      `lParam`, an input-mode or Roman-mode change, or the configuration
      dialog. */
  datatype Effect = NoEffect | Notify(lParam: nat) | SetInputMode(mode: InputMode)
                  | SetRomanMode(roman: bool) | Configure

  /** `MAKELPARAM(0, hi)`. */
  function MakeLParam(lo: nat, hi: nat): nat
  {
    hi * 0x10000 + lo
  }

  function NotifyMessage(lParam: nat): TransMsg
  {
    TransMsg(WM_IME_NOTIFY, IMN_PRIVATE, lParam)
  }

  /** The menu item that selects each input mode. */
  function ModeCommand(m: InputMode): (c: Option<Command>)
    ensures c.None? <==> m == IMODE_DISABLED
  {
    match m
    case IMODE_FULL_HIRAGANA => Some(IDM_HIRAGANA)
    case IMODE_FULL_KATAKANA => Some(IDM_FULL_KATAKANA)
    case IMODE_FULL_ASCII => Some(IDM_FULL_ASCII)
    case IMODE_HALF_KANA => Some(IDM_HALF_KATAKANA)
    case IMODE_HALF_ASCII => Some(IDM_HALF_ASCII)
    case IMODE_DISABLED => None
  }

  /** The `switch` of `DoCommand`: `None` is its `default: return FALSE`. */
  function CommandEffect(cmd: Command): (r: Option<Effect>)
    ensures r.None? <==> cmd.OtherCommand?
    ensures r.Some? && r.value.SetInputMode? ==> ModeCommand(r.value.mode) == Some(cmd)
    ensures r.Some? && r.value.Notify? ==> r.value.lParam in {MakeLParam(0, 0xDEAD), MakeLParam(0, 0xFACE)}
  {
    match cmd
    case IDM_RECONVERT => Some(NoEffect)
    case IDM_ABOUT => Some(Notify(MakeLParam(0, 0xDEAD)))
    case IDM_HIRAGANA => Some(SetInputMode(IMODE_FULL_HIRAGANA))
    case IDM_FULL_KATAKANA => Some(SetInputMode(IMODE_FULL_KATAKANA))
    case IDM_FULL_ASCII => Some(SetInputMode(IMODE_FULL_ASCII))
    case IDM_HALF_KATAKANA => Some(SetInputMode(IMODE_HALF_KANA))
    case IDM_HALF_ASCII => Some(SetInputMode(IMODE_HALF_ASCII))
    case IDM_CANCEL => Some(NoEffect)
    case IDM_ROMAN_INPUT => Some(SetRomanMode(true))
    case IDM_KANA_INPUT => Some(SetRomanMode(false))
    case IDM_HIDE => Some(NoEffect)
    case IDM_PROPERTY => Some(NoEffect)
    case IDM_ADD_WORD => Some(NoEffect)
    case IDM_IME_PAD => Some(Notify(MakeLParam(0, 0xFACE)))
    case IDM_IME_PROPERTY => Some(Configure)
    case OtherCommand(_) => None
  }

  /** Every mode item sets its own mode. */
  lemma ModeCommandSetsMode(m: InputMode)
    requires m != IMODE_DISABLED
    ensures CommandEffect(ModeCommand(m).value) == Some(SetInputMode(m))
  {
  }

  // ---- Window placement ------------------------------------------------------

  datatype Rect = Rect(left: int, top: int, right: int, bottom: int)

  /** Where one side of a window of the given extent starts once clamped
      into [lo, hi]: first pulled back from beyond `hi`, then pushed forward
      from before `lo`. */
  function ClampStart(start: int, extent: int, lo: int, hi: int): (s: int)
    ensures s >= lo
    ensures extent <= hi - lo ==> s + extent <= hi
    ensures lo <= start && start + extent <= hi ==> s == start
  {
    var pulled := if start + extent > hi then hi - extent else start;
    if pulled < lo then lo else pulled
  }

  /** `RepositionWindow`: the rectangle `rc` of the window is moved into
      the work area `work`; the result is what `MoveWindow` receives. */
  method RepositionWindow(rc0: Rect, work: Rect) returns (left: int, top: int, cx: int, cy: int)
    ensures cx == rc0.right - rc0.left && cy == rc0.bottom - rc0.top
    ensures left == ClampStart(rc0.left, cx, work.left, work.right)
    ensures top == ClampStart(rc0.top, cy, work.top, work.bottom)
  {
    var rc := rc0;
    cx := rc.right - rc.left;
    cy := rc.bottom - rc.top;
    if rc.right > work.right {
      rc := rc.(right := work.right, left := work.right - cx);
    }
    if rc.left < work.left {
      rc := rc.(left := work.left, right := work.left + cx);
    }
    if rc.bottom > work.bottom {
      rc := rc.(bottom := work.bottom, top := work.bottom - cy);
    }
    if rc.top < work.top {
      rc := rc.(top := work.top, bottom := work.top + cy);
    }
    left, top := rc.left, rc.top;
  }

  /** A window no larger than the work area ends inside it, and one already
      inside stays where it is. */
  lemma RepositionedInside(rc0: Rect, work: Rect, left: int, top: int)
    requires left == ClampStart(rc0.left, rc0.right - rc0.left, work.left, work.right)
    requires top == ClampStart(rc0.top, rc0.bottom - rc0.top, work.top, work.bottom)
    requires rc0.right - rc0.left <= work.right - work.left
    requires rc0.bottom - rc0.top <= work.bottom - work.top
    ensures work.left <= left && left + (rc0.right - rc0.left) <= work.right
    ensures work.top <= top && top + (rc0.bottom - rc0.top) <= work.bottom
  {
  }

  // ---- Greedy multi-clause result ---------------------------------------------

  /** The nodes of a lattice by identity, as `branches` name them. */
  type Graph = map<nat, Node>

  /** Every branch names a node of the graph. */
  predicate Closed(g: Graph)
  {
    forall id, b :: id in g && b in g[id].branches ==> b in g
  }

  /** Branches lead to nodes of higher rank, so every walk along them ends. */
  ghost predicate Ranked(g: Graph, rank: map<nat, nat>, bound: nat)
  {
    Closed(g)
    && (forall id :: id in g ==> id in rank && rank[id] <= bound)
    && (forall id, b :: id in g && b in g[id].branches ==> b in rank && rank[b] > rank[id])
  }

  /** The word costs the walk lowers, by node identity: the source lowers
      `word_cost` on the shared nodes, which changes nothing else of them
      and nothing the walk reads. */
  type WordCosts = map<nat, int>

  /** The word costs of the nodes of `g` as the walk starts. */
  function WordCostsOf(g: Graph): (wc: WordCosts)
    ensures wc.Keys == g.Keys
  {
    map id | id in g :: g[id].wordCost
  }

  const TAG_SUUSHI: String := "[数詞]"
  const TAG_SUUTANI: String := "[数単位]"

  predicate VerbLike(n: Node)
  {
    IsDoushi(n.bunrui) || IsJodoushi(n.bunrui)
  }

  predicate Numeric(n: Node)
  {
    HasTag(n, TAG_SUUSHI) || HasTag(n, TAG_SUUTANI)
  }

  function Bit(b: bool): nat
  {
    if b then 1 else 0
  }

  /** The score of a branch `n2` of `n1` that has no branches itself: its
      length plus one for each of the three pairings the source favours. */
  function LeafLen(n1: Node, n2: Node): nat
  {
    |n2.pre|
    + Bit(VerbLike(n1) && IsJodoushi(n2.bunrui))
    + Bit(IsJodoushi(n1.bunrui) && n2.bunrui == HB_SHUU_JOSHI)
    + Bit(HasTag(n1, TAG_SUUSHI) && Numeric(n2))
  }

  /** How much the word cost of such a branch is lowered. */
  function LeafLowering(n1: Node, n2: Node): nat
  {
    80 * Bit(VerbLike(n1) && IsJodoushi(n2.bunrui))
    + 30 * Bit(IsJodoushi(n1.bunrui) && n2.bunrui == HB_SHUU_JOSHI)
    + 100 * Bit(HasTag(n1, TAG_SUUSHI) && Numeric(n2))
  }

  /** The score of the two clauses `n2`, `n3` after `n1`: each pairing is
      looked for between `n1` and `n2` first and otherwise between `n2` and
      `n3`. */
  function PairLen(n1: Node, n2: Node, n3: Node): nat
  {
    |n2.pre| + |n3.pre|
    + Bit((VerbLike(n1) && IsJodoushi(n2.bunrui)) || (VerbLike(n2) && IsJodoushi(n3.bunrui)))
    + Bit((IsJodoushi(n1.bunrui) && n2.bunrui == HB_SHUU_JOSHI)
          || (IsJodoushi(n2.bunrui) && n3.bunrui == HB_SHUU_JOSHI))
    + Bit(if HasTag(n1, TAG_SUUSHI) then Numeric(n2) else HasTag(n2, TAG_SUUSHI) && Numeric(n3))
  }

  function PairLowering(n1: Node, n2: Node, n3: Node): nat
  {
    80 * Bit((VerbLike(n1) && IsJodoushi(n2.bunrui)) || (VerbLike(n2) && IsJodoushi(n3.bunrui)))
    + 30 * Bit((IsJodoushi(n1.bunrui) && n2.bunrui == HB_SHUU_JOSHI)
               || (IsJodoushi(n2.bunrui) && n3.bunrui == HB_SHUU_JOSHI))
    + 100 * Bit(if HasTag(n1, TAG_SUUSHI) then Numeric(n2) else HasTag(n2, TAG_SUUSHI) && Numeric(n3))
  }

  function MaxOf(a: nat, b: nat): nat
  {
    if a < b then b else a
  }

  /** The largest of the scores `s`, or 0 when there is none. */
  function Max(s: seq<nat>): nat
  {
    if |s| == 0 then 0 else MaxOf(Max(s[..|s| - 1]), s[|s| - 1])
  }

  /** `Max` is one of the scores and no score is larger. */
  lemma {:induction false} MaxIsMax(s: seq<nat>)
    ensures forall k :: 0 <= k < |s| ==> s[k] <= Max(s)
    ensures |s| > 0 ==> exists k :: 0 <= k < |s| && s[k] == Max(s)
  {
    if |s| > 0 {
      var init := s[..|s| - 1];
      assert forall k :: 0 <= k < |init| ==> init[k] == s[k];
      MaxIsMax(init);
      if |init| > 0 && s[|s| - 1] < Max(init) {
        var k :| 0 <= k < |init| && init[k] == Max(init);
        assert s[k] == Max(s);
      } else {
        assert s[|s| - 1] == Max(s);
      }
    }
  }

  /** The pair scores of `n1`, `n2` and each branch `bs` of `n2`. */
  function PairScores(g: Graph, n1: Node, n2: Node, bs: seq<nat>): (r: seq<nat>)
    requires forall b :: b in bs ==> b in g
    ensures |r| == |bs| && forall k :: 0 <= k < |bs| ==> r[k] == PairLen(n1, n2, g[bs[k]])
  {
    seq(|bs|, k requires 0 <= k < |bs| => PairLen(n1, n2, g[bs[k]]))
  }

  /** The best pair score over the branches `bs` of `n2`. */
  function BestPairLen(g: Graph, n1: Node, n2: Node, bs: seq<nat>): nat
    requires forall b :: b in bs ==> b in g
  {
    Max(PairScores(g, n1, n2, bs))
  }

  /** The best pair score is the score of one of the pairs and no pair
      scores more. */
  lemma BestPairLenIsMax(g: Graph, n1: Node, n2: Node, bs: seq<nat>)
    requires forall b :: b in bs ==> b in g
    ensures forall k :: 0 <= k < |bs| ==> PairLen(n1, n2, g[bs[k]]) <= BestPairLen(g, n1, n2, bs)
    ensures |bs| > 0 ==> exists k :: 0 <= k < |bs| && PairLen(n1, n2, g[bs[k]]) == BestPairLen(g, n1, n2, bs)
  {
    MaxIsMax(PairScores(g, n1, n2, bs));
  }

  /** One more branch in the best pair score. */
  lemma BestPairLenSnoc(g: Graph, n1: Node, n2: Node, bs: seq<nat>, i: nat, len: nat)
    requires forall b :: b in bs ==> b in g
    requires i < |bs| && len == PairLen(n1, n2, g[bs[i]])
    ensures BestPairLen(g, n1, n2, bs[..i + 1]) == MaxOf(BestPairLen(g, n1, n2, bs[..i]), len)
  {
    var s := PairScores(g, n1, n2, bs[..i + 1]);
    assert s[..i] == PairScores(g, n1, n2, bs[..i]);
  }

  /** The score of taking branch `n2` after `n1`. */
  function BranchLen(g: Graph, n1: Node, n2: Node): nat
    requires forall b :: b in n2.branches ==> b in g
  {
    if |n2.branches| == 0 then LeafLen(n1, n2) else BestPairLen(g, n1, n2, n2.branches)
  }

  /** Branch `kb` of `n1` has the highest score of all its branches. */
  predicate Longest(g: Graph, n1: Node, kb: nat)
  {
    Closed(g) && (forall b :: b in n1.branches ==> b in g)
    && kb < |n1.branches|
    && forall j :: 0 <= j < |n1.branches| ==> BranchLen(g, n1, g[n1.branches[j]]) <= BranchLen(g, n1, g[n1.branches[kb]])
  }

  /** No later branch that itself branches ties with branch `kb` of `n1`
      and has a longer reading: on an equal score such a branch would have
      replaced it. */
  predicate TieBroken(g: Graph, n1: Node, kb: nat)
    requires Longest(g, n1, kb)
  {
    TiesNoLonger(g, n1, kb, |n1.branches|, BranchLen(g, n1, g[n1.branches[kb]]), |g[n1.branches[kb]].pre|)
  }

  /** Every branch of `n1` after `kb` and before `upTo` that branches and
      scores `score` reads at most `bound` characters. */
  predicate TiesNoLonger(g: Graph, n1: Node, kb: nat, upTo: nat, score: nat, bound: nat)
    requires Closed(g) && (forall b :: b in n1.branches ==> b in g) && upTo <= |n1.branches|
  {
    forall j :: kb < j < upTo ==>
      (|g[n1.branches[j]].branches| > 0 && BranchLen(g, n1, g[n1.branches[j]]) == score ==> |g[n1.branches[j]].pre| <= bound)
  }

  /** One more branch that is a leaf, scores otherwise or reads at most
      `bound` keeps `TiesNoLonger`. */
  lemma TiesNoLongerSnoc(g: Graph, n1: Node, kb: nat, upTo: nat, score: nat, bound: nat)
    requires Closed(g) && (forall b :: b in n1.branches ==> b in g) && upTo < |n1.branches|
    requires TiesNoLonger(g, n1, kb, upTo, score, bound)
    requires kb < upTo
    requires |g[n1.branches[upTo]].branches| > 0 && BranchLen(g, n1, g[n1.branches[upTo]]) == score
             ==> |g[n1.branches[upTo]].pre| <= bound
    ensures TiesNoLonger(g, n1, kb, upTo + 1, score, bound)
  {
  }

  /** A larger bound keeps `TiesNoLonger`. */
  lemma TiesNoLongerWeaken(g: Graph, n1: Node, kb: nat, upTo: nat, score: nat, bound: nat, bound2: nat)
    requires Closed(g) && (forall b :: b in n1.branches ==> b in g) && upTo <= |n1.branches|
    requires TiesNoLonger(g, n1, kb, upTo, score, bound) && bound <= bound2
    ensures TiesNoLonger(g, n1, kb, upTo, score, bound2)
  {
  }

  /** No branch of `n1` before `upTo` scores more than `score`. */
  predicate ScoresAtMost(g: Graph, n1: Node, upTo: nat, score: nat)
    requires Closed(g) && (forall b :: b in n1.branches ==> b in g) && upTo <= |n1.branches|
  {
    forall j :: 0 <= j < upTo ==> BranchLen(g, n1, g[n1.branches[j]]) <= score
  }

  /** One more branch scoring at most `score`, or a new best `score2`
      that every earlier branch stays under. */
  lemma ScoresAtMostSnoc(g: Graph, n1: Node, upTo: nat, score: nat, score2: nat)
    requires Closed(g) && (forall b :: b in n1.branches ==> b in g) && upTo < |n1.branches|
    requires ScoresAtMost(g, n1, upTo, score) && score <= score2
    requires BranchLen(g, n1, g[n1.branches[upTo]]) <= score2
    ensures ScoresAtMost(g, n1, upTo + 1, score2)
  {
    forall j | 0 <= j < upTo + 1
      ensures BranchLen(g, n1, g[n1.branches[j]]) <= score2
    {
      if j < upTo {
        assert BranchLen(g, n1, g[n1.branches[j]]) <= score;
      }
    }
  }

  /** Branch `kb` of `n1` is the one the branch loop picks: a best score,
      with ties broken as `TieBroken` says. */
  predicate Picked(g: Graph, n1: Node, kb: nat)
  {
    Longest(g, n1, kb) && TieBroken(g, n1, kb)
  }

  /** Lowers the word cost of node `id`. */
  function Lower(wc: WordCosts, id: nat, d: nat): (r: WordCosts)
    requires id in wc
    ensures r.Keys == wc.Keys && r[id] == wc[id] - d
    ensures forall other :: other in wc && other != id ==> r[other] == wc[other]
  {
    wc[id := wc[id] - d]
  }

  /** One pass of the inner loops of `MakeResultForMulti` over branch `ib1`
      (node `id2`) of `n1`. The scores read `g`: the word costs the loops
      lower, in `h`, take no part in them. */
  method ScanBranch(g: Graph, n1: Node, id2: nat, ib1: nat, h0: WordCosts, maxLen: nat, maxLen1: nat, kb1: nat)
    returns (h: WordCosts, newLen: nat, newLen1: nat, kb: nat)
    requires Closed(g) && id2 in g && h0.Keys == g.Keys
    requires kb1 == ib1 ==> maxLen == 0 && maxLen1 == 0
    ensures h.Keys == g.Keys
    ensures newLen == MaxOf(maxLen, BranchLen(g, n1, g[id2]))
    ensures kb == kb1 || kb == ib1
    ensures kb == ib1 ==> newLen == BranchLen(g, n1, g[id2]) && newLen1 <= |g[id2].pre|
    ensures kb != ib1 ==> newLen1 == maxLen1
    ensures BranchLen(g, n1, g[id2]) > maxLen ==> kb == ib1
    ensures kb != ib1 && |g[id2].branches| > 0 && BranchLen(g, n1, g[id2]) == maxLen ==> |g[id2].pre| <= maxLen1
  {
    var n2 := g[id2];
    h, newLen, newLen1, kb := h0, maxLen, maxLen1, kb1;
    if |n2.branches| == 0 {
      var len := LeafLen(n1, n2);
      h := Lower(h, id2, LeafLowering(n1, n2));
      if newLen < len {
        newLen1, newLen, kb := |n2.pre|, len, ib1;
      }
    } else {
      var ib2 := 0;
      while ib2 < |n2.branches|
        invariant 0 <= ib2 <= |n2.branches|
        invariant h.Keys == g.Keys
        invariant newLen == MaxOf(maxLen, BestPairLen(g, n1, n2, n2.branches[..ib2]))
        invariant kb == kb1 || kb == ib1
        invariant kb == ib1 ==> newLen == BestPairLen(g, n1, n2, n2.branches[..ib2])
        invariant BestPairLen(g, n1, n2, n2.branches[..ib2]) > maxLen ==> kb == ib1
        invariant kb == ib1 ==> newLen1 <= |n2.pre|
        invariant kb != ib1 ==> newLen1 == maxLen1
        invariant kb != ib1 && ib2 > 0 && BestPairLen(g, n1, n2, n2.branches[..ib2]) == maxLen ==> |n2.pre| <= maxLen1
      {
        var n3 := g[n2.branches[ib2]];
        var len := PairLen(n1, n2, n3);
        h := Lower(h, id2, PairLowering(n1, n2, n3));
        BestPairLenSnoc(g, n1, n2, n2.branches, ib2, len);
        if newLen < len {
          newLen1, newLen, kb := |n2.pre|, len, ib1;
        } else if newLen == len && newLen1 < |n2.pre| {
          newLen1, kb := |n2.pre|, ib1;
        }
        ib2 := ib2 + 1;
      }
      assert n2.branches[..ib2] == n2.branches;
    }
  }

  /** The branch loop of `MakeResultForMulti`: the index of a branch of
      `n1` with the best score, 0 when `n1` has no branches. On a tie a
      later branch wins only when it branches and reads longer. */
  method ChooseBranch(g: Graph, n1: Node, h0: WordCosts) returns (kb1: nat, h: WordCosts)
    requires Closed(g) && (forall b :: b in n1.branches ==> b in g) && h0.Keys == g.Keys
    ensures h.Keys == g.Keys
    ensures |n1.branches| == 0 ==> kb1 == 0
    ensures |n1.branches| > 0 ==> Picked(g, n1, kb1)
  {
    h := h0;
    var maxLen: nat, maxLen1: nat := 0, 0;
    kb1 := 0;
    var ib1 := 0;
    while ib1 < |n1.branches|
      invariant 0 <= ib1 <= |n1.branches|
      invariant ib1 == 0 ==> kb1 == 0 && maxLen == 0
      invariant ib1 > 0 ==> kb1 < ib1 && BranchLen(g, n1, g[n1.branches[kb1]]) == maxLen
      invariant ScoresAtMost(g, n1, ib1, maxLen)
      invariant ib1 == 0 ==> maxLen1 == 0
      invariant ib1 > 0 ==> maxLen1 <= |g[n1.branches[kb1]].pre|
      invariant TiesNoLonger(g, n1, kb1, ib1, maxLen, maxLen1)
      invariant h.Keys == g.Keys
    {
      ghost var before, before1, prev := maxLen, maxLen1, kb1;
      ghost var len := BranchLen(g, n1, g[n1.branches[ib1]]);
      h, maxLen, maxLen1, kb1 := ScanBranch(g, n1, n1.branches[ib1], ib1, h, maxLen, maxLen1, kb1);
      ScoresAtMostSnoc(g, n1, ib1, before, maxLen);
      if kb1 != ib1 {
        assert kb1 == prev && maxLen == before && maxLen1 == before1;
        TiesNoLongerSnoc(g, n1, kb1, ib1, maxLen, maxLen1);
      }
      ib1 := ib1 + 1;
    }
    if ib1 > 0 {
      TiesNoLongerWeaken(g, n1, kb1, ib1, maxLen, maxLen1, |g[n1.branches[kb1]].pre|);
    }
  }

  /** The clauses a walk adds: one clause holding the node's candidate
      for every node on it with a non-empty reading. */
  function ClausesAlong(g: Graph, ids: seq<nat>): seq<seq<Candidate>>
    requires forall k :: 0 <= k < |ids| ==> ids[k] in g
  {
    if |ids| == 0 then []
    else
      var n := g[ids[|ids| - 1]];
      ClausesAlong(g, ids[..|ids| - 1]) + (if |n.pre| > 0 then [[FromNode(n)]] else [])
  }

  /** Every clause of a walk holds exactly one candidate, and its reading
      is non-empty. */
  lemma {:induction false} ClausesAlongSingle(g: Graph, ids: seq<nat>, i: nat)
    requires forall k :: 0 <= k < |ids| ==> ids[k] in g
    requires i < |ClausesAlong(g, ids)|
    ensures |ClausesAlong(g, ids)[i]| == 1 && |ClausesAlong(g, ids)[i][0].hiragana| > 0
  {
    var init := ids[..|ids| - 1];
    assert forall k :: 0 <= k < |init| ==> init[k] == ids[k];
    if i < |ClausesAlong(g, init)| {
      ClausesAlongSingle(g, init, i);
    }
  }

  /** `path` is a walk from node to node of `g` in which step `k` leaves
      `path[k]`, which is not `tail`, by its branch `picks[k]`, one with the
      best score picked as `Picked` says. */
  ghost predicate GreedyWalk(g: Graph, tail: nat, path: seq<nat>, picks: seq<nat>)
  {
    Closed(g)
    && |path| == |picks| + 1
    && (forall k :: 0 <= k < |path| ==> path[k] in g)
    && forall k :: 0 <= k < |picks| ==>
         path[k] in g && path[k] != tail && Picked(g, g[path[k]], picks[k])
         && path[k + 1] == g[path[k]].branches[picks[k]]
  }

  /** One more greedy step extends a greedy walk. */
  lemma GreedyWalkSnoc(g: Graph, tail: nat, path: seq<nat>, picks: seq<nat>, kb: nat)
    requires GreedyWalk(g, tail, path, picks)
    requires path[|path| - 1] != tail && Picked(g, g[path[|path| - 1]], kb)
    ensures GreedyWalk(g, tail, path + [g[path[|path| - 1]].branches[kb]], picks + [kb])
  {
  }

  /** A walk one node longer adds that node's clause, if any. */
  lemma ClausesAlongSnoc(g: Graph, ids: seq<nat>, id: nat)
    requires (forall k :: 0 <= k < |ids| ==> ids[k] in g) && id in g
    ensures ClausesAlong(g, ids + [id]) == ClausesAlong(g, ids) + (if |g[id].pre| > 0 then [[FromNode(g[id])]] else [])
  {
    assert (ids + [id])[..|ids|] == ids;
  }

  /** One greedy step extends both the walk and its clauses. */
  lemma GreedyStep(g: Graph, tail: nat, path: seq<nat>, picks: seq<nat>, walked: seq<nat>, kb: nat)
    requires GreedyWalk(g, tail, path, picks) && walked == path[1..]
    requires path[|path| - 1] != tail && Picked(g, g[path[|path| - 1]], kb)
    ensures GreedyWalk(g, tail, path + [g[path[|path| - 1]].branches[kb]], picks + [kb])
    ensures (path + [g[path[|path| - 1]].branches[kb]])[1..] == walked + [g[path[|path| - 1]].branches[kb]]
    ensures ClausesAlong(g, walked + [g[path[|path| - 1]].branches[kb]])
            == ClausesAlong(g, walked) + (if |g[g[path[|path| - 1]].branches[kb]].pre| > 0
                                          then [[FromNode(g[g[path[|path| - 1]].branches[kb]])]] else [])
  {
    var next := g[path[|path| - 1]].branches[kb];
    GreedyWalkSnoc(g, tail, path, picks, kb);
    ClausesAlongSnoc(g, walked, next);
  }

  /** The greedy walk of `MakeResultForMulti` from `head`: at each node the
      branch with the best score is taken, a clause is added for it when
      its reading is non-empty, and the walk ends at `tail` or at a node
      without branches. `path` is the walk, `picks` the branch taken at
      each step. */
  method GreedyClauses(g: Graph, head: nat, tail: nat, ghost rank: map<nat, nat>, ghost bound: nat)
    returns (clauses: seq<seq<Candidate>>, h: WordCosts, ghost path: seq<nat>, ghost picks: seq<nat>)
    requires head in g && Ranked(g, rank, bound)
    ensures h.Keys == g.Keys
    ensures GreedyWalk(g, tail, path, picks) && path[0] == head
    ensures path[|path| - 1] == tail || |g[path[|path| - 1]].branches| == 0
    ensures clauses == ClausesAlong(g, path[1..])
  {
    h := WordCostsOf(g);
    clauses := [];
    var node1 := head;
    path, picks := [head], [];
    ghost var walked: seq<nat> := [];
    while node1 != tail
      invariant GreedyWalk(g, tail, path, picks)
      invariant node1 in g && path[0] == head && path[|path| - 1] == node1
      invariant walked == path[1..]
      invariant clauses == ClausesAlong(g, walked)
      invariant h.Keys == g.Keys
      decreases bound - rank[node1]
    {
      var n1 := g[node1];
      var kb1;
      kb1, h := ChooseBranch(g, n1, h);
      if kb1 >= |n1.branches| {
        break;
      }
      var next: nat := n1.branches[kb1];
      var n2 := g[next];
      GreedyStep(g, tail, path, picks, walked, kb1);
      if |n2.pre| > 0 {
        clauses := clauses + [[FromNode(n2)]];
      }
      path, picks, walked := path + [next], picks + [kb1], walked + [next];
      node1 := next;
    }
  }

  /** `MakeResultForMulti` of `ime/main.cpp`: the clauses of the greedy
      walk, then `MzConvResult::sort`. */
  method MakeResultForMulti(result: ConvResult, g: Graph, head: nat, tail: nat, ghost rank: map<nat, nat>, ghost bound: nat)
    returns (h: WordCosts, ghost path: seq<nat>, ghost picks: seq<nat>)
    requires head in g && Ranked(g, rank, bound)
    modifies result
    ensures h.Keys == g.Keys
    ensures GreedyWalk(g, tail, path, picks) && path[0] == head
    ensures path[|path| - 1] == tail || |g[path[|path| - 1]].branches| == 0
    ensures |result.clauses| == |ClausesAlong(g, path[1..])|
    ensures forall i :: 0 <= i < |result.clauses| ==>
              SortedByCost(result.clauses[i])
              && multiset(result.clauses[i]) == multiset(Raised(ClausesAlong(g, path[1..]))[i])
  {
    var clauses;
    clauses, h, path, picks := GreedyClauses(g, head, tail, rank, bound);
    result.clauses := clauses;
    result.Sort();
  }
}
