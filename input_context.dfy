/** The composition editing of the older input context
    (`input_context.cpp`): each operation reads the logical composition
    string, edits it and writes it back. The context is a class whose
    `comp` and `cand` fields stand for the two handles it re-creates. */
module InputCtx {
  import opened Text
  import opened CompStrLog
  import opened Wrappers
  import KeyChar

  // Conversion-mode bits.
  const IME_CMODE_KATAKANA: nat := 0x2
  const IME_CMODE_FULLSHAPE: nat := 0x8
  const IME_CMODE_ROMAN: nat := 0x10

  /** `conversion & flag` for a one-bit `flag`. */
  predicate HasFlag(conversion: nat, flag: nat)
    requires flag > 0
  {
    (conversion / flag) % 2 == 1
  }

  /** The candidate list: its strings and the selected one. */
  datatype LogCandInfo = LogCandInfo(candStrs: seq<String>, selection: nat)

  /** What `CandInfo::ReCreate` with no data leaves: no candidates. */
  const NO_CANDIDATES := LogCandInfo([], 0)

  /** The three strings `GetCands` installs into an empty list. */
  const DEFAULT_CANDIDATES: seq<String> := ["これは", "テスト", "です。"]

  /** `HasCandInfo`: the list holds at least one candidate. */
  predicate HasCands(info: LogCandInfo)
  {
    |info.candStrs| > 0
  }

  /** `GetCands`: the next candidate, wrapping to the first after the last;
      an empty list first receives the three default strings. The string
      returned is always the selected candidate. */
  function GetCands(info: LogCandInfo): (r: (LogCandInfo, String))
    ensures r.0.selection < |r.0.candStrs| && r.1 == r.0.candStrs[r.0.selection]
    ensures HasCands(info) ==> r.0.candStrs == info.candStrs
    ensures HasCands(info) ==> r.0.selection == (if info.selection + 1 < |info.candStrs| then info.selection + 1 else 0)
    ensures !HasCands(info) ==> r.0 == LogCandInfo(DEFAULT_CANDIDATES, 0)
  {
    var next :=
      if |info.candStrs| > 0 then
        info.(selection := if info.selection + 1 >= |info.candStrs| then 0 else info.selection + 1)
      else
        LogCandInfo(info.candStrs + DEFAULT_CANDIDATES, 0);
    (next, next.candStrs[next.selection])
  }

  /** `GetCands` applied `n` times. */
  function GetCandsTimes(info: LogCandInfo, n: nat): LogCandInfo
    decreases n
  {
    if n == 0 then info else GetCandsTimes(GetCands(info).0, n - 1)
  }

  /** Below the last candidate each call selects the next one. */
  lemma {:induction false} GetCandsClimb(info: LogCandInfo, k: nat)
    requires HasCands(info) && info.selection + k < |info.candStrs|
    ensures GetCandsTimes(info, k) == info.(selection := info.selection + k)
    decreases k
  {
    if k > 0 {
      GetCandsClimb(GetCands(info).0, k - 1);
    }
  }

  lemma {:induction false} GetCandsTimesAdd(info: LogCandInfo, a: nat, n: nat)
    requires a <= n
    ensures GetCandsTimes(info, n) == GetCandsTimes(GetCandsTimes(info, a), n - a)
    decreases a
  {
    if a > 0 {
      GetCandsTimesAdd(GetCands(info).0, a - 1, n - 1);
    }
  }

  /** After the last candidate the selection wraps to the first. */
  lemma GetCandsWraps(info: LogCandInfo)
    requires HasCands(info) && info.selection + 1 == |info.candStrs|
    ensures GetCandsTimes(info, 1) == info.(selection := 0)
  {
    assert GetCands(info).0 == info.(selection := 0);
  }

  /** From a valid selection, as many calls as there are candidates come
      back to the same list and selection: every candidate is offered once
      in turn. */
  lemma GetCandsCycles(info: LogCandInfo)
    requires HasCands(info) && info.selection < |info.candStrs|
    ensures GetCandsTimes(info, |info.candStrs|) == info
  {
    var c, sel := |info.candStrs|, info.selection;
    var up := c - 1 - sel;
    var top := info.(selection := c - 1);
    var bottom := info.(selection := 0);
    assert GetCandsTimes(info, up) == top by {
      GetCandsClimb(info, up);
    }
    assert GetCandsTimes(top, 1 + sel) == info by {
      GetCandsWraps(top);
      GetCandsTimesAdd(top, 1, 1 + sel);
      GetCandsClimb(bottom, sel);
    }
    GetCandsTimesAdd(info, up, c);
  }

  /** The "update info" step shared by typing and deleting: the composition
      becomes `s`, the reading string follows it, both attribute strings are
      resized to its length (new places marked as input) and both clause
      arrays become the single clause `[0, |s|]`, the end narrowed to a
      `char`. Cursor, delta start and result fields are untouched. */
  function WithText(log: LogCompStr, s: String): (r: LogCompStr)
    ensures r.compStr == s && r.compReadStr == s
    ensures |r.compAttr| == |s| && |r.compReadAttr| == |s|
    ensures forall k :: |log.compAttr| <= k < |s| ==> r.compAttr[k] == ATTR_INPUT
    ensures forall k :: 0 <= k < |s| && k < |log.compAttr| ==> r.compAttr[k] == log.compAttr[k]
    ensures r.compClause == [0, ToChar(|s|)] && r.compReadClause == [0, ToChar(|s|)]
    ensures r.cursorPos == log.cursorPos && r.deltaStart == log.deltaStart
    ensures r.resultReadClause == log.resultReadClause && r.resultReadStr == log.resultReadStr
    ensures r.resultClause == log.resultClause && r.resultStr == log.resultStr
  {
    log.(compStr := s, compReadStr := s,
         compReadAttr := Resized(log.compReadAttr, |s|, ATTR_INPUT),
         compAttr := Resized(log.compAttr, |s|, ATTR_INPUT),
         compReadClause := OneClause(log.compReadClause, |s|),
         compClause := OneClause(log.compClause, |s|))
  }

  /** A composition of more than 127 characters stores its clause end as a
      negative `char`, which a `DWORD` comparison reads as a value near 2^32. */
  lemma LongCompositionClauseEnd(log: LogCompStr, s: String)
    requires 0x80 <= |s| < 0x100
    ensures ToDword(WithText(log, s).compClause[1]) == |s| + DWORD_LIMIT - 0x100
  {
    ClauseOffsetReadBack(|s|);
  }

  /** The reading string, the attribute strings and the composition agree
      in length, as every editing operation leaves them. */
  predicate InStep(log: LogCompStr)
  {
    log.compReadStr == log.compStr
    && |log.compAttr| == |log.compStr| && |log.compReadAttr| == |log.compStr|
  }

  /** The first clause index at or after `from` whose boundary is at or
      after `cur` (compared as `DWORD`s); `|clause|` when there is none. */
  function FirstNotBelow(clause: seq<SChar>, cur: nat, from: nat): (i: nat)
    requires from <= |clause|
    ensures from <= i <= |clause|
    ensures forall k :: from <= k < i ==> ToDword(clause[k]) < cur
    ensures i < |clause| ==> cur <= ToDword(clause[i])
    decreases |clause| - from
  {
    if from == |clause| then from
    else if cur <= ToDword(clause[from]) then from
    else FirstNotBelow(clause, cur, from + 1)
  }

  /** The last clause index below `n` whose boundary is at or before `cur`. */
  function LastNotAbove(clause: seq<SChar>, cur: nat, n: nat): (r: Option<nat>)
    requires n <= |clause|
    ensures r.Some? ==> r.value < n && ToDword(clause[r.value]) <= cur
    ensures r.Some? ==> forall k :: r.value < k < n ==> cur < ToDword(clause[k])
    ensures r.None? ==> forall k :: 0 <= k < n ==> cur < ToDword(clause[k])
  {
    if n == 0 then None
    else if ToDword(clause[n - 1]) <= cur then Some(n - 1)
    else LastNotAbove(clause, cur, n - 1)
  }

  /** A clause array read one place past its end gives the string's
      terminating NUL. */
  function ClauseAt(clause: seq<SChar>, i: nat): SChar
  {
    if i < |clause| then clause[i] else 0
  }

  /** Where `MoveLeft` puts the cursor of a composition being converted:
      on the boundary before the first one not below the cursor, or on the
      start of the last clause when that is the first boundary; with no
      boundary at or after the cursor, on the NUL past the array, so 0. */
  function LeftStop(clause: seq<SChar>, cur: nat): nat
    requires |clause| > 1
  {
    var i := FirstNotBelow(clause, cur, 0);
    ToDword(ClauseAt(clause, if i == |clause| then i else if i == 0 then |clause| - 2 else i - 1))
  }

  /** Where `MoveRight` puts the cursor of a composition being converted:
      on the boundary after the last one not above the cursor, wrapping to
      the first boundary after the last. */
  function RightStop(clause: seq<SChar>, cur: nat): nat
    requires |clause| > 1
  {
    var k := match LastNotAbove(clause, cur, |clause|)
      case None => 0
      case Some(i) => if i + 1 < |clause| then i + 1 else 0;
    ToDword(clause[k])
  }

  /** The scan of `MoveLeft`. */
  method ScanLeft(clause: seq<SChar>, cur: nat) returns (pos: nat)
    requires |clause| > 1
    ensures pos == LeftStop(clause, cur)
  {
    var siz := |clause|;
    var i := 0;
    while i < siz
      invariant 0 <= i <= siz
      invariant FirstNotBelow(clause, cur, 0) == FirstNotBelow(clause, cur, i)
    {
      if cur <= ToDword(clause[i]) {
        if i == 0 {
          i := siz - 2;
        } else {
          i := i - 1;
        }
        return ToDword(clause[i]);
      }
      i := i + 1;
    }
    pos := ToDword(ClauseAt(clause, i));
  }

  /** The scan of `MoveRight`. */
  method ScanRight(clause: seq<SChar>, cur: nat) returns (pos: nat)
    requires |clause| > 1
    ensures pos == RightStop(clause, cur)
  {
    var siz := |clause|;
    var i, k := 0, 0;
    while i < siz
      invariant 0 <= i <= siz && k < siz
      invariant k == match LastNotAbove(clause, cur, i)
        case None => 0
        case Some(j) => if j + 1 < siz then j + 1 else 0
    {
      if ToDword(clause[i]) <= cur {
        if siz <= i + 1 {
          k := 0;
        } else {
          k := i + 1;
        }
      }
      i := i + 1;
    }
    pos := ToDword(clause[k]);
  }

  /** Well-formed clause boundaries: at least one clause, starting at 0
      and strictly increasing (so every boundary is below 128). */
  predicate Boundaries(clause: seq<SChar>)
  {
    |clause| > 1 && clause[0] == 0
    && forall i, j :: 0 <= i < j < |clause| ==> clause[i] < clause[j]
  }

  /** On well-formed boundaries with the cursor at or before the last one,
      `MoveLeft` goes to the nearest boundary before the cursor, and from the
      very start to the start of the last clause. */
  lemma LeftStopIsPreviousBoundary(clause: seq<SChar>, cur: nat)
    requires Boundaries(clause) && cur <= clause[|clause| - 1]
    ensures cur == 0 ==> LeftStop(clause, cur) == clause[|clause| - 2]
    ensures 0 < cur ==> LeftStop(clause, cur) in clause && LeftStop(clause, cur) < cur
    ensures 0 < cur ==> forall j :: 0 <= j < |clause| && clause[j] < cur ==> clause[j] <= LeftStop(clause, cur)
  {
    var i := FirstNotBelow(clause, cur, 0);
    assert i < |clause| by {
      assert ToDword(clause[|clause| - 1]) == clause[|clause| - 1];
    }
    assert ToDword(clause[i]) == clause[i];
    if 0 < cur {
      assert i > 0;
      assert ToDword(clause[i - 1]) == clause[i - 1];
      forall j | 0 <= j < |clause| && clause[j] < cur
        ensures clause[j] <= clause[i - 1]
      {
        if j < i - 1 {
          assert clause[j] < clause[i - 1];
        }
      }
    }
  }

  /** With the cursor beyond every boundary the scan of `MoveLeft` runs off
      the array and the cursor lands on 0. */
  lemma LeftStopPastEnd(clause: seq<SChar>, cur: nat)
    requires |clause| > 1
    requires forall k :: 0 <= k < |clause| ==> ToDword(clause[k]) < cur
    ensures LeftStop(clause, cur) == 0
  {
    var i := FirstNotBelow(clause, cur, 0);
  }

  /** On well-formed boundaries `MoveRight` goes to the nearest boundary
      after the cursor, and from the last boundary on back to 0. */
  lemma RightStopIsNextBoundary(clause: seq<SChar>, cur: nat)
    requires Boundaries(clause)
    ensures cur < clause[|clause| - 1] ==> RightStop(clause, cur) in clause && cur < RightStop(clause, cur)
    ensures cur < clause[|clause| - 1] ==> forall j :: 0 <= j < |clause| && cur < clause[j] ==> RightStop(clause, cur) <= clause[j]
    ensures clause[|clause| - 1] <= cur ==> RightStop(clause, cur) == 0
  {
    var n := |clause|;
    var last := LastNotAbove(clause, cur, n);
    assert ToDword(clause[0]) == 0;
    assert last.Some?;
    var i := last.value;
    if i + 1 < n {
      assert ToDword(clause[i + 1]) == clause[i + 1];
      assert ToDword(clause[n - 1]) == clause[n - 1];
      assert cur < clause[n - 1] by {
        if i + 1 < n - 1 {
          assert clause[i + 1] < clause[n - 1];
        }
      }
      forall j | 0 <= j < n && cur < clause[j]
        ensures clause[i + 1] <= clause[j]
      {
        assert ToDword(clause[j]) == clause[j];
        assert ToDword(clause[i]) == clause[i];
        if i + 1 < j {
          assert clause[i + 1] < clause[j];
        }
      }
    } else {
      assert ToDword(clause[n - 1]) == clause[n - 1];
    }
  }

  /** The composition after `AddChar` in conversion mode `conversion`. */
  method TypeChar(comp: LogCompStr, conversion: nat, ch: char, mapped: char, pastEnd: KeyChar.PastEnd)
    returns (r: LogCompStr)
    ensures var cur := if |comp.compStr| < comp.cursorPos then |comp.compStr| else comp.cursorPos;
      var s := comp.compStr;
      var typed :=
        if HasFlag(conversion, IME_CMODE_FULLSHAPE) then
          if HasFlag(conversion, IME_CMODE_ROMAN) then KeyChar.AddRomajiCharShadowed(s, ch, cur, pastEnd)
          else KeyChar.KanaInserted(s, ch, cur, HasFlag(conversion, IME_CMODE_KATAKANA), mapped)
        else KeyChar.Inserted(s, ch, cur);
      r == WithText(comp.(cursorPos := cur + 1), typed)
    ensures InStep(r)
  {
    var log := comp;
    if |log.compStr| < log.cursorPos {
      log := log.(cursorPos := |log.compStr|);
    }
    var s, cur := log.compStr, log.cursorPos;
    if HasFlag(conversion, IME_CMODE_FULLSHAPE) {
      if HasFlag(conversion, IME_CMODE_ROMAN) {
        s, cur := KeyChar.AddRomajiChar(s, ch, cur, pastEnd);
      } else {
        s := KeyChar.KanaInserted(s, ch, cur, HasFlag(conversion, IME_CMODE_KATAKANA), mapped);
        cur := cur + 1;
      }
    } else {
      s, cur := KeyChar.AddAsciiChar(s, ch, cur);
    }
    r := WithText(log.(cursorPos := cur), s);
  }

  /** An input context: its composition, its candidate list, its
      conversion mode and whether its composition is being converted (a
      state `comp_str.cpp` derives, which is not part of this model). */
  class InputContext {
    var comp: LogCompStr
    var cand: LogCandInfo
    var conversion: nat
    var converting: bool

    /** A fresh context in the given mode, with nothing typed. */
    constructor(mode: nat)
      ensures comp == NewLogCompStr() && cand == NO_CANDIDATES
      ensures conversion == mode && !converting
    {
      comp := NewLogCompStr();
      cand := NO_CANDIDATES;
      conversion := mode;
      converting := false;
    }

    /** The candidate list after closing it: emptied when it held any. */
    function Closed(): LogCandInfo
      reads this
    {
      if HasCands(cand) then NO_CANDIDATES else cand
    }

    /** `AddChar`: the cursor is first pulled back to the end of the
        composition; then, by the conversion mode, `ch` is typed as romaji,
        as kana (`mapped` standing for the locale mapping's output) or as
        it is, the cursor moves on by one, and the reading, attributes and
        clauses are brought in step. Romaji is typed as `add_romaji_char` is
        written, `pastEnd` standing for what it reads past a table's end. */
    method AddChar(ch: char, mapped: char, pastEnd: KeyChar.PastEnd)
      modifies this
      ensures var old_ := old(comp);
        var cur := if |old_.compStr| < old_.cursorPos then |old_.compStr| else old_.cursorPos;
        var s := old_.compStr;
        var typed :=
          if HasFlag(conversion, IME_CMODE_FULLSHAPE) then
            if HasFlag(conversion, IME_CMODE_ROMAN) then KeyChar.AddRomajiCharShadowed(s, ch, cur, pastEnd)
            else KeyChar.KanaInserted(s, ch, cur, HasFlag(conversion, IME_CMODE_KATAKANA), mapped)
          else KeyChar.Inserted(s, ch, cur);
        comp == WithText(old_.(cursorPos := cur + 1), typed)
      ensures InStep(comp)
      ensures cand == old(cand) && conversion == old(conversion) && converting == old(converting)
    {
      comp := TypeChar(comp, conversion, ch, mapped, pastEnd);
    }

    /** `MakeResult`: the composition and its reading move to the result
        fields, and the composition is cleared; the candidate list is closed. */
    method MakeResult()
      modifies this
      ensures CompCleared(comp) && InStep(comp)
      ensures comp.resultStr == old(comp.compStr) && comp.resultReadStr == old(comp.compReadStr)
      ensures comp.resultClause == old(comp.compClause) && comp.resultReadClause == old(comp.compReadClause)
      ensures cand == old(Closed())
      ensures conversion == old(conversion) && converting == old(converting)
    {
      cand := Closed();
      var log := comp;
      comp := NewLogCompStr().(
        resultReadClause := log.compReadClause, resultReadStr := log.compReadStr,
        resultClause := log.compClause, resultStr := log.compStr);
    }

    /** `CancelText`: the candidate list is closed and the whole
        composition string, results included, is re-created empty. */
    method CancelText()
      modifies this
      ensures comp == NewLogCompStr() && cand == old(Closed())
      ensures conversion == old(conversion) && converting == old(converting)
    {
      cand := Closed();
      comp := NewLogCompStr();
    }

    /** `RevertText`: the candidate list is closed; a non-empty composition
        goes back to its reading, as one clause of input with the cursor at
        its end. */
    method RevertText()
      modifies this
      ensures cand == old(Closed())
      ensures old(comp.compStr) == [] ==> comp == old(comp)
      ensures old(comp.compStr) != [] ==>
        comp == old(comp).(compStr := old(comp.compReadStr),
                          compClause := [0, ToChar(|old(comp.compReadStr)|)],
                          compAttr := seq(|old(comp.compReadStr)|, _ => ATTR_INPUT),
                          cursorPos := |old(comp.compReadStr)|, deltaStart := 0)
      ensures old(comp.compStr) != [] ==> comp.compStr == comp.compReadStr && comp.cursorPos == |comp.compStr|
      ensures old(InStep(comp)) ==> InStep(comp)
      ensures conversion == old(conversion) && converting == old(converting)
    {
      cand := Closed();
      if comp.compStr == [] {
        return;
      }
      var log := comp;
      var read := log.compReadStr;
      comp := log.(compStr := read, compClause := OneClause(log.compClause, |read|),
                   compAttr := seq(|read|, _ => ATTR_INPUT),
                   cursorPos := |read|, deltaStart := 0);
    }

    /** `DeleteChar`: backspace at the start, or delete at or past the end,
        changes nothing. Otherwise backspace moves the cursor back by one
        and cuts the composition there (a cursor past the end is only pulled
        back to it), and delete cuts the composition at the cursor and moves
        the cursor to the delta start; then the reading, attributes and
        clauses are brought in step, and an emptied composition closes the
        candidate list. */
    method DeleteChar(back: bool)
      modifies this
      ensures var c := old(comp.cursorPos); var s := old(comp.compStr);
        if (back && c == 0) || (!back && |s| <= c) then comp == old(comp) && cand == old(cand)
        else
          (if back && c <= |s| then comp == WithText(old(comp).(cursorPos := c - 1, deltaStart := c - 1), s[..c - 1])
           else if back then comp == WithText(old(comp).(cursorPos := |s|, deltaStart := |s|), s)
           else comp == WithText(old(comp).(cursorPos := old(comp.deltaStart)), s[..c]))
          && InStep(comp)
          && cand == (if comp.compStr == [] then old(Closed()) else old(cand))
      ensures |comp.compStr| <= |old(comp.compStr)|
      ensures conversion == old(conversion) && converting == old(converting)
    {
      var log := comp;
      var s := log.compStr;
      if back {
        if log.cursorPos == 0 {
          return;
        } else if log.cursorPos <= |s| {
          var c := log.cursorPos - 1;
          s := s[..c];
          log := log.(cursorPos := c, deltaStart := c);
        } else {
          log := log.(cursorPos := |s|, deltaStart := |s|);
        }
      } else {
        if |s| <= log.cursorPos {
          return;
        } else {
          s := s[..log.cursorPos];
          log := log.(cursorPos := log.deltaStart);
        }
      }
      comp := WithText(log, s);
      if s == [] {
        cand := Closed();
      }
    }

    /** `MoveLeft`: during conversion, to the clause boundary `LeftStop`
        picks (unchanged with fewer than two boundaries); otherwise back by
        one, and nothing at all at the start. */
    method MoveLeft()
      modifies this
      ensures var c := old(comp.cursorPos); var cl := old(comp.compClause);
        comp == old(comp).(cursorPos :=
          if converting then (if |cl| > 1 then LeftStop(cl, c) else c)
          else if c > 0 then c - 1 else c)
      ensures cand == old(cand) && conversion == old(conversion) && converting == old(converting)
    {
      var pos := comp.cursorPos;
      if converting {
        if |comp.compClause| > 1 {
          pos := ScanLeft(comp.compClause, pos);
        }
      } else {
        if comp.cursorPos > 0 {
          pos := pos - 1;
        } else {
          return;
        }
      }
      comp := comp.(cursorPos := pos);
    }

    /** `MoveRight`: during conversion, to the clause boundary `RightStop`
        picks (unchanged with fewer than two boundaries); otherwise on by
        one, and nothing at all at the end of the composition. */
    method MoveRight()
      modifies this
      ensures var c := old(comp.cursorPos); var cl := old(comp.compClause);
        comp == old(comp).(cursorPos :=
          if converting then (if |cl| > 1 then RightStop(cl, c) else c)
          else if c < |old(comp.compStr)| then c + 1 else c)
      ensures cand == old(cand) && conversion == old(conversion) && converting == old(converting)
    {
      var pos := comp.cursorPos;
      if converting {
        if |comp.compClause| > 1 {
          pos := ScanRight(comp.compClause, pos);
        }
      } else {
        if comp.cursorPos < |comp.compStr| {
          pos := pos + 1;
        } else {
          return;
        }
      }
      comp := comp.(cursorPos := pos);
    }

    /** `MoveToBeginning`: the cursor goes to 0. */
    method MoveToBeginning()
      modifies this
      ensures comp == old(comp).(cursorPos := 0)
      ensures cand == old(cand) && conversion == old(conversion) && converting == old(converting)
    {
      comp := comp.(cursorPos := 0);
    }

    /** `MoveToEnd`: the cursor goes to the end of the composition. */
    method MoveToEnd()
      modifies this
      ensures comp == old(comp).(cursorPos := |old(comp.compStr)|)
      ensures cand == old(cand) && conversion == old(conversion) && converting == old(converting)
    {
      comp := comp.(cursorPos := |comp.compStr|);
    }
  }
}
