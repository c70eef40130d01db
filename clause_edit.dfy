/** Clause editing of a converted composition: moving the boundary
    between the current clause and the next one (`StretchClauseLeft`,
    `StretchClauseRight`) and storing a conversion result into the
    composition (`StoreResult`). The composition here is the `LogCompStr`
    of the ime/ generation together with its `extra` part. */
module ClauseEdit {
  import opened Wrappers
  import opened Text
  import opened Candidates

  /** The strings of a list of clauses, joined. */
  function Concat(ss: seq<String>): String
  {
    if |ss| == 0 then [] else Concat(ss[..|ss| - 1]) + ss[|ss| - 1]
  }

  lemma {:induction false} ConcatAppend(a: seq<String>, b: seq<String>)
    ensures Concat(a + b) == Concat(a) + Concat(b)
    decreases |b|
  {
    if |b| == 0 {
      assert a + b == a;
    } else {
      assert (a + b)[..|a + b| - 1] == a + b[..|b| - 1];
      ConcatAppend(a, b[..|b| - 1]);
    }
  }

  /** The candidates of clause 0 of a successful `ConvertSingleClause`:
      at least one, since the first is read unconditionally. */
  type Converted = s: seq<String> | |s| > 0 witness [[]]

  /** `ConvertSingleClause(str, result)`, which builds and walks a
      lattice: `None` when it returns FALSE. */
  type Converter = String -> Option<Converted>

  /** `s` with the entries `i` and `i + 1` replaced by `a` and `b`, or
      with `b` added after the last entry `i`. */
  function Spliced<T>(s: seq<T>, i: nat, a: T, b: T): (r: seq<T>)
    requires i < |s|
    ensures |r| == if i + 1 < |s| then |s| else |s| + 1
  {
    s[..i] + [a, b] + (if i + 1 < |s| then s[i + 2..] else [])
  }

  /** `s` with the entries `i` and `i + 1` replaced by `a`. */
  function Joined<T>(s: seq<T>, i: nat, a: T): (r: seq<T>)
    requires i + 1 < |s|
    ensures |r| == |s| - 1
  {
    s[..i] + [a] + s[i + 2..]
  }

  /** The updates the stretch operations make, as splices: assigning two
      neighbours, inserting an empty entry after the last one and then
      assigning, or appending after assigning the last one. */
  lemma SplicedByUpdates<T>(s: seq<T>, i: nat, a: T, b: T, filler: T)
    requires i < |s|
    ensures i + 1 < |s| ==> s[i := a][i + 1 := b] == Spliced(s, i, a, b)
    ensures i + 1 == |s| ==> (s[..i + 1] + [filler] + s[i + 1..])[i := a][i + 1 := b] == Spliced(s, i, a, b)
    ensures i + 1 == |s| ==> s[i := a] + [b] == Spliced(s, i, a, b)
  {
  }

  /** Erasing entry `i + 1` and assigning entry `i` is a join. */
  lemma JoinedByErase<T>(s: seq<T>, i: nat, a: T)
    requires i + 1 < |s|
    ensures (s[..i + 1] + s[i + 2..])[i := a] == Joined(s, i, a)
  {
  }

  lemma ConcatPair(a: String, b: String)
    ensures Concat([a]) == a && Concat([a, b]) == a + b
  {
    assert [a][..0] == [];
    assert [a, b][..1] == [a];
  }

  /** The one or two clauses from `i` on, joined. */
  lemma ConcatSlice(s: seq<String>, i: nat, j: nat)
    requires i < j <= |s| && j <= i + 2
    ensures Concat(s[i..j]) == if j == i + 1 then s[i] else s[i] + s[i + 1]
  {
    if j == i + 1 {
      assert s[i..j] == [s[i]];
      ConcatPair(s[i], s[i]);
    } else {
      assert s[i..j] == [s[i], s[i + 1]];
      ConcatPair(s[i], s[i + 1]);
    }
  }

  lemma Split3(s: seq<String>, i: nat, j: nat)
    requires i <= j <= |s|
    ensures s == s[..i] + s[i..j] + s[j..]
  {
  }

  lemma ConcatAround(x: seq<String>, m: seq<String>, y: seq<String>)
    ensures Concat(x + m + y) == Concat(x) + Concat(m) + Concat(y)
  {
    ConcatAppend(x + m, y);
    ConcatAppend(x, m);
  }

  /** Moving text across the boundary of clauses `i` and `i + 1` keeps the
      whole text. */
  lemma SplicedKeepsText(clauses: seq<String>, i: nat, a: String, b: String)
    requires i < |clauses|
    requires a + b == clauses[i] + (if i + 1 < |clauses| then clauses[i + 1] else [])
    ensures Concat(Spliced(clauses, i, a, b)) == Concat(clauses)
  {
    var j := if i + 1 < |clauses| then i + 2 else i + 1;
    Split3(clauses, i, j);
    assert clauses[j..] == if i + 1 < |clauses| then clauses[i + 2..] else [];
    ConcatAround(clauses[..i], clauses[i..j], clauses[j..]);
    ConcatSlice(clauses, i, j);
    ConcatAround(clauses[..i], [a, b], clauses[j..]);
    ConcatPair(a, b);
  }

  /** Joining clauses `i` and `i + 1` into their concatenation keeps the
      whole text. */
  lemma JoinedKeepsText(clauses: seq<String>, i: nat, a: String)
    requires i + 1 < |clauses| && a == clauses[i] + clauses[i + 1]
    ensures Concat(Joined(clauses, i, a)) == Concat(clauses)
  {
    Split3(clauses, i, i + 2);
    ConcatAround(clauses[..i], clauses[i..i + 2], clauses[i + 2..]);
    ConcatSlice(clauses, i, i + 2);
    ConcatAround(clauses[..i], [a], clauses[i + 2..]);
    ConcatPair(a, a);
  }

  /** The two clause strings `StretchClauseLeft` converts: clause `i`
      without its last character, and that character in front of the next
      clause (alone, when `i` is the last clause). */
  function LeftStrings(clauses: seq<String>, i: nat): (r: Option<(String, String)>)
    requires i < |clauses|
    ensures r.None? <==> |clauses[i]| <= 1
    ensures r.Some? ==> |r.value.0| == |clauses[i]| - 1 && |r.value.0| > 0
    ensures r.Some? ==> r.value.0 + r.value.1 == clauses[i] + (if i + 1 < |clauses| then clauses[i + 1] else [])
  {
    var s := clauses[i];
    if |s| <= 1 then None
    else
      var ch := s[|s| - 1];
      assert s == s[..|s| - 1] + [ch];
      if i + 1 < |clauses| then Some((s[..|s| - 1], [ch] + clauses[i + 1]))
      else Some((s[..|s| - 1], [ch]))
  }

  /** The two clause strings `StretchClauseRight` makes: clause `i` with
      the first character of the next clause, and the rest of the next
      clause. There is none at the last clause or before an empty one. */
  function RightStrings(clauses: seq<String>, i: nat): (r: Option<(String, String)>)
    requires i < |clauses|
    ensures r.None? <==> i + 1 == |clauses| || |clauses[i + 1]| == 0
    ensures r.Some? ==> |r.value.0| == |clauses[i]| + 1 && |r.value.1| == |clauses[i + 1]| - 1
    ensures r.Some? ==> r.value.0 + r.value.1 == clauses[i] + clauses[i + 1]
  {
    if i + 1 == |clauses| || |clauses[i + 1]| == 0 then None
    else
      var s2 := clauses[i + 1];
      assert s2 == [s2[0]] + s2[1..];
      Some((clauses[i] + [s2[0]], s2[1..]))
  }

  /** `LogCandInfo`: one candidate list per clause and the current clause. */
  class CandInfo {
    var candLists: seq<seq<String>>
    var iClause: nat

    constructor()
      ensures candLists == [] && iClause == 0
    {
      candLists := [];
      iClause := 0;
    }
  }

  /** The parts of `LogCompStr` these operations write: the composition
      string, its clause offsets, cursor and delta start, and the `extra`
      clause lists with the current clause. */
  class Comp {
    var compStr: String
    var compClause: seq<nat>
    var cursorPos: nat
    var deltaStart: nat
    var hiraganaClauses: seq<String>
    var compStrClauses: seq<String>
    var typingClauses: seq<String>
    var iClause: nat

    constructor()
      ensures compStr == [] && compClause == [] && cursorPos == 0 && deltaStart == 0
      ensures hiraganaClauses == [] && compStrClauses == [] && typingClauses == [] && iClause == 0
    {
      compStr, compClause, cursorPos, deltaStart := [], [], 0, 0;
      hiraganaClauses, compStrClauses, typingClauses, iClause := [], [], [], 0;
    }

    /** The current clause exists, and the reading clauses, the converted
        clauses and the candidate lists are one per clause, as the
        stretch operations index them. */
    predicate Editable(cand: CandInfo)
      reads this, cand
    {
      iClause < |hiraganaClauses|
      && |compStrClauses| == |hiraganaClauses|
      && |cand.candLists| == |hiraganaClauses|
    }
  }

  /** `MzIme::StretchClauseLeft`: the current clause gives its last
      character to the next clause, or to a new clause after it; both are
      converted again. The composition string, its clause offsets, the
      typing clauses and the cursor are then rebuilt by `UpdateFromExtra`,
      which is not part of this model, so nothing is said of them. */
  method StretchClauseLeft(comp: Comp, cand: CandInfo, conv: Converter) returns (ok: bool)
    requires comp.Editable(cand)
    modifies comp, cand
    ensures ok <==> LeftStrings(old(comp.hiraganaClauses), old(comp.iClause)).Some?
                    && conv(LeftStrings(old(comp.hiraganaClauses), old(comp.iClause)).value.0).Some?
                    && conv(LeftStrings(old(comp.hiraganaClauses), old(comp.iClause)).value.1).Some?
    ensures !ok ==> unchanged(comp) && unchanged(cand)
    ensures ok ==>
      var i := old(comp.iClause);
      var (s1, s2) := LeftStrings(old(comp.hiraganaClauses), i).value;
      comp.hiraganaClauses == Spliced(old(comp.hiraganaClauses), i, s1, s2)
      && comp.compStrClauses == Spliced(old(comp.compStrClauses), i, conv(s1).value[0], conv(s2).value[0])
      && cand.candLists == Spliced(old(cand.candLists), i, conv(s1).value, conv(s2).value)
      && comp.iClause == i && cand.iClause == i
    ensures ok ==> comp.Editable(cand) && Concat(comp.hiraganaClauses) == Concat(old(comp.hiraganaClauses))
  {
    var i := comp.iClause;
    ghost var h0, c0, l0 := comp.hiraganaClauses, comp.compStrClauses, cand.candLists;
    var str1 := comp.hiraganaClauses[i];
    if |str1| <= 1 {
      return false;
    }
    var ch := str1[|str1| - 1];
    str1 := str1[..|str1| - 1];
    var str2: String;
    var splitted := false;
    if i + 1 < |comp.hiraganaClauses| {
      str2 := [ch] + comp.hiraganaClauses[i + 1];
    } else {
      str2 := [ch];
      splitted := true;
    }
    assert LeftStrings(h0, i) == Some((str1, str2));
    var r1 := conv(str1);
    if r1.None? {
      return false;
    }
    var r2 := conv(str2);
    if r2.None? {
      return false;
    }
    var hira, strs, lists := comp.hiraganaClauses, comp.compStrClauses, cand.candLists;
    if splitted {
      hira := hira[..i + 1] + [[]] + hira[i + 1..];
      strs := strs[..i + 1] + [[]] + strs[i + 1..];
    }
    hira := hira[i := str1][i + 1 := str2];
    strs := strs[i := r1.value[0]][i + 1 := r2.value[0]];
    lists := lists[i := r1.value];
    if splitted {
      lists := lists + [r2.value];
    } else {
      lists := lists[i + 1 := r2.value];
    }
    SplicedByUpdates(h0, i, str1, str2, []);
    SplicedByUpdates(c0, i, r1.value[0], r2.value[0], []);
    SplicedByUpdates(l0, i, r1.value, r2.value, []);
    SplicedKeepsText(h0, i, str1, str2);
    comp.hiraganaClauses, comp.compStrClauses, comp.iClause := hira, strs, i;
    cand.candLists, cand.iClause := lists, i;
    return true;
  }

  /** `MzIme::StretchClauseRight`: the current clause takes the first
      character of the next clause; the next clause is converted again,
      or deleted from the reading and converted clauses when that leaves
      it empty. The candidate list of a deleted clause stays. As on the
      left, what `UpdateFromExtra` rebuilds is not described. */
  method StretchClauseRight(comp: Comp, cand: CandInfo, conv: Converter) returns (ok: bool)
    requires comp.Editable(cand)
    modifies comp, cand
    ensures ok <==> RightStrings(old(comp.hiraganaClauses), old(comp.iClause)).Some?
                    && conv(RightStrings(old(comp.hiraganaClauses), old(comp.iClause)).value.0).Some?
                    && (RightStrings(old(comp.hiraganaClauses), old(comp.iClause)).value.1 == []
                        || conv(RightStrings(old(comp.hiraganaClauses), old(comp.iClause)).value.1).Some?)
    ensures !ok ==> unchanged(comp) && unchanged(cand)
    ensures ok ==>
      var i := old(comp.iClause);
      var (s1, s2) := RightStrings(old(comp.hiraganaClauses), i).value;
      (if s2 == [] then
         comp.hiraganaClauses == Joined(old(comp.hiraganaClauses), i, s1)
         && comp.compStrClauses == Joined(old(comp.compStrClauses), i, conv(s1).value[0])
         && cand.candLists == old(cand.candLists)[i := conv(s1).value]
       else
         comp.hiraganaClauses == Spliced(old(comp.hiraganaClauses), i, s1, s2)
         && comp.compStrClauses == Spliced(old(comp.compStrClauses), i, conv(s1).value[0], conv(s2).value[0])
         && cand.candLists == Spliced(old(cand.candLists), i, conv(s1).value, conv(s2).value))
      && comp.iClause == i && cand.iClause == i
    ensures ok ==> Concat(comp.hiraganaClauses) == Concat(old(comp.hiraganaClauses))
  {
    var i := comp.iClause;
    ghost var h0, c0, l0 := comp.hiraganaClauses, comp.compStrClauses, cand.candLists;
    var str1 := comp.hiraganaClauses[i];
    if i == |comp.hiraganaClauses| - 1 {
      return false;
    }
    var str2 := comp.hiraganaClauses[i + 1];
    if |str2| == 0 {
      return false;
    }
    var ch := str2[0];
    str1 := str1 + [ch];
    if |str2| == 1 {
      str2 := [];
    } else {
      str2 := str2[1..];
    }
    assert RightStrings(h0, i) == Some((str1, str2));
    var r1 := conv(str1);
    if r1.None? {
      return false;
    }
    var r2: Option<Converted> := None;
    if |str2| > 0 {
      r2 := conv(str2);
      if r2.None? {
        return false;
      }
    }
    if |str2| == 0 {
      comp.hiraganaClauses := comp.hiraganaClauses[..i + 1] + comp.hiraganaClauses[i + 2..];
      comp.compStrClauses := comp.compStrClauses[..i + 1] + comp.compStrClauses[i + 2..];
      comp.hiraganaClauses := comp.hiraganaClauses[i := str1];
      comp.compStrClauses := comp.compStrClauses[i := r1.value[0]];
      JoinedByErase(h0, i, str1);
      JoinedByErase(c0, i, r1.value[0]);
      JoinedKeepsText(h0, i, str1);
    } else {
      comp.hiraganaClauses := comp.hiraganaClauses[i := str1][i + 1 := str2];
      comp.compStrClauses := comp.compStrClauses[i := r1.value[0]][i + 1 := r2.value[0]];
      SplicedByUpdates(h0, i, str1, str2, []);
      SplicedByUpdates(c0, i, r1.value[0], r2.value[0], []);
      SplicedKeepsText(h0, i, str1, str2);
    }
    cand.candLists := cand.candLists[i := r1.value];
    if |str2| > 0 {
      cand.candLists := cand.candLists[i + 1 := r2.value];
      SplicedByUpdates(l0, i, r1.value, r2.value, []);
    }
    cand.iClause := i;
    comp.iClause := i;
    return true;
  }

  /** When `StretchClauseRight` joins clause `i + 1` into clause `i` of
      clauses with one candidate list each, it leaves one list more than
      clauses, and from the joined clause on each clause is shown the list
      of the clause that was before it: the new clauses and lists are the
      `Joined` reading clauses and the old lists with list `i` replaced,
      as its postcondition states. */
  lemma JoinMisalignsCandidateLists<L>(hira: seq<String>, lists: seq<L>, i: nat, s1: String, l1: L)
    requires |lists| == |hira| && i < |hira|
    requires RightStrings(hira, i).Some? && RightStrings(hira, i).value.1 == []
    ensures |lists[i := l1]| == |Joined(hira, i, s1)| + 1
    ensures forall k :: i < k < |Joined(hira, i, s1)| ==>
              Joined(hira, i, s1)[k] == hira[k + 1] && lists[i := l1][k] == lists[k]
    ensures lists[i := l1][|Joined(hira, i, s1)|] == lists[|hira| - 1]
  {
    var h := Joined(hira, i, s1);
    forall k | i < k < |h|
      ensures h[k] == hira[k + 1]
    {
      assert h[k] == hira[i + 2..][k - i - 1];
    }
  }

  /** `StretchClauseRight` with the candidate list of a joined clause
      erased as well, which keeps the clauses and their lists aligned. */
  method StretchClauseRightErasing(comp: Comp, cand: CandInfo, conv: Converter) returns (ok: bool)
    requires comp.Editable(cand)
    modifies comp, cand
    ensures ok <==> RightStrings(old(comp.hiraganaClauses), old(comp.iClause)).Some?
                    && conv(RightStrings(old(comp.hiraganaClauses), old(comp.iClause)).value.0).Some?
                    && (RightStrings(old(comp.hiraganaClauses), old(comp.iClause)).value.1 == []
                        || conv(RightStrings(old(comp.hiraganaClauses), old(comp.iClause)).value.1).Some?)
    ensures !ok ==> unchanged(comp) && unchanged(cand)
    ensures ok ==>
      var i := old(comp.iClause);
      var (s1, s2) := RightStrings(old(comp.hiraganaClauses), i).value;
      s2 == [] ==> cand.candLists == Joined(old(cand.candLists), i, conv(s1).value)
    ensures ok ==> comp.Editable(cand) && Concat(comp.hiraganaClauses) == Concat(old(comp.hiraganaClauses))
  {
    var i := comp.iClause;
    ghost var l0 := cand.candLists;
    var joined := i + 1 < |comp.hiraganaClauses| && |comp.hiraganaClauses[i + 1]| == 1;
    ok := StretchClauseRight(comp, cand, conv);
    if ok && joined {
      JoinedByErase(l0, i, cand.candLists[i]);
      cand.candLists := cand.candLists[..i + 1] + cand.candLists[i + 2..];
    }
  }

  // ---- StoreResult --------------------------------------------------------

  /** `f` applied to every entry of `s`. */
  function MapSeq<A, B>(s: seq<A>, f: A -> B): (r: seq<B>)
    ensures |r| == |s| && forall k :: 0 <= k < |s| ==> r[k] == f(s[k])
  {
    if |s| == 0 then [] else MapSeq(s[..|s| - 1], f) + [f(s[|s| - 1])]
  }

  lemma MapSeqSnoc<A, B>(s: seq<A>, x: A, f: A -> B)
    ensures MapSeq(s + [x], f) == MapSeq(s, f) + [f(x)]
  {
    assert (s + [x])[..|s|] == s;
  }

  function Reading(c: Candidate): String { c.hiragana }
  function Conversion(c: Candidate): String { c.converted }
  function Conversions(cs: seq<Candidate>): seq<String> { MapSeq(cs, Conversion) }

  /** The first candidate of every clause that has one. */
  function Firsts(result: seq<seq<Candidate>>): (r: seq<Candidate>)
    ensures |r| <= |result|
  {
    if |result| == 0 then []
    else Firsts(result[..|result| - 1]) + (if |result[|result| - 1]| > 0 then [result[|result| - 1][0]] else [])
  }

  /** The converted text of the first candidates, joined. */
  function FirstsText(result: seq<seq<Candidate>>): String
  {
    if |result| == 0 then []
    else FirstsText(result[..|result| - 1]) + (if |result[|result| - 1]| > 0 then result[|result| - 1][0].converted else [])
  }

  /** One clause more, as the recursive definitions take it. */
  lemma FirstsSnoc(result: seq<seq<Candidate>>, k: nat)
    requires k < |result|
    ensures Firsts(result[..k + 1]) == Firsts(result[..k]) + (if |result[k]| > 0 then [result[k][0]] else [])
    ensures FirstsText(result[..k + 1]) == FirstsText(result[..k]) + (if |result[k]| > 0 then result[k][0].converted else [])
  {
    assert result[..k + 1][..k] == result[..k];
  }

  /** The clause offsets `StoreResult` leaves: `comp_clause` resized to one
      more than the clause count (keeping what was there, zero past it),
      each clause that has a candidate set to the length of the text
      before it, and the last entry set to the whole length. */
  function ClauseOffsets(result: seq<seq<Candidate>>, old0: seq<nat>): (r: seq<nat>)
    ensures |r| == |result| + 1
    ensures r[|result|] == |FirstsText(result)|
    ensures forall k :: 0 <= k < |result| && |result[k]| > 0 ==> r[k] == |FirstsText(result[..k])|
    ensures forall k :: 0 <= k < |result| && |result[k]| == 0 ==> r[k] == if k < |old0| then old0[k] else 0
  {
    seq(|result| + 1, k requires 0 <= k <= |result| =>
      if k == |result| then |FirstsText(result)|
      else if |result[k]| > 0 then |FirstsText(result[..k])|
      else if k < |old0| then old0[k] else 0)
  }

  /** The text of a prefix of the clauses is a prefix of the whole text. */
  lemma {:induction false} FirstsTextPrefix(result: seq<seq<Candidate>>, k: nat)
    requires k <= |result|
    ensures |FirstsText(result[..k])| <= |FirstsText(result)|
    ensures FirstsText(result) == FirstsText(result[..k]) + FirstsText(result)[|FirstsText(result[..k])|..]
    decreases |result| - k
  {
    if k < |result| {
      FirstsTextPrefix(result, k + 1);
      assert result[..k + 1][..k] == result[..k];
    } else {
      assert result[..k] == result;
    }
  }

  /** With every clause holding a candidate, the offsets start at zero,
      and each clause's converted text lies between its offset and the
      next. */
  lemma OffsetsDelimitClauses(result: seq<seq<Candidate>>, old0: seq<nat>, k: nat)
    requires forall j :: 0 <= j < |result| ==> |result[j]| > 0
    requires k < |result|
    ensures ClauseOffsets(result, old0)[0] == 0
    ensures ClauseOffsets(result, old0)[k + 1] == ClauseOffsets(result, old0)[k] + |result[k][0].converted|
    ensures ClauseOffsets(result, old0)[k + 1] <= |FirstsText(result)|
    ensures result[k][0].converted ==
              FirstsText(result)[ClauseOffsets(result, old0)[k]..ClauseOffsets(result, old0)[k + 1]]
  {
    assert result[..0] == [];
    var r := ClauseOffsets(result, old0);
    FirstsTextPrefix(result, k + 1);
    assert result[..k + 1][..k] == result[..k];
    if k + 1 < |result| {
      assert r[k + 1] == |FirstsText(result[..k + 1])|;
    } else {
      assert result[..k + 1] == result;
    }
  }

  /** The offsets of the clauses before `k` once the loop of `StoreResult`
      has passed them, the untouched entries from `k` on. */
  function OffsetsSoFar(result: seq<seq<Candidate>>, old0: seq<nat>, k: nat): (r: seq<nat>)
    requires k <= |result|
    ensures |r| == |result| + 1
  {
    seq(|result| + 1, j requires 0 <= j <= |result| =>
      if j < k then ClauseOffsets(result, old0)[j]
      else if j < |old0| then old0[j] else 0)
  }

  /** One clause more in `OffsetsSoFar`: a clause with a candidate gets the
      length of the text before it. */
  lemma OffsetsStep(result: seq<seq<Candidate>>, old0: seq<nat>, k: nat)
    requires k < |result|
    ensures OffsetsSoFar(result, old0, k + 1) ==
              if |result[k]| > 0 then OffsetsSoFar(result, old0, k)[k := |FirstsText(result[..k])|]
              else OffsetsSoFar(result, old0, k)
  {
    var a := OffsetsSoFar(result, old0, k + 1);
    var b := OffsetsSoFar(result, old0, k);
    var c := if |result[k]| > 0 then b[k := |FirstsText(result[..k])|] else b;
    forall j | 0 <= j < |a|
      ensures a[j] == c[j]
    {
      if j == k {
        assert a[j] == ClauseOffsets(result, old0)[k];
      }
    }
  }

  /** The composition loop of `StoreResult`: for every clause with a
      candidate, its offset, its reading and typing, and its converted
      text appended to the composition string. */
  method ComposeClauses(result: seq<seq<Candidate>>, offsets0: seq<nat>, toTyping: String -> String)
    returns (text: String, offsets: seq<nat>, readings: seq<String>, typings: seq<String>)
    ensures text == FirstsText(result)
    ensures offsets == ClauseOffsets(result, offsets0)
    ensures readings == MapSeq(Firsts(result), Reading)
    ensures typings == MapSeq(readings, toTyping)
  {
    var n := |result|;
    offsets := offsets0;
    if |offsets| > n + 1 {
      offsets := offsets[..n + 1];
    } else {
      offsets := offsets + seq(n + 1 - |offsets|, _ => 0);
    }
    assert offsets == OffsetsSoFar(result, offsets0, 0);
    text, readings, typings := [], [], [];
    var k := 0;
    while k < n
      invariant 0 <= k <= n
      invariant ComposedUpTo(result, offsets0, toTyping, k, text, offsets, readings, typings)
    {
      text, offsets, readings, typings := ComposeClause(result, offsets0, toTyping, k, text, offsets, readings, typings);
      k := k + 1;
    }
    assert result[..n] == result;
    offsets := offsets[n := |text|];
  }

  /** What the composition loop has built after the first `k` clauses. */
  predicate ComposedUpTo(result: seq<seq<Candidate>>, offsets0: seq<nat>, toTyping: String -> String, k: nat,
                         text: String, offsets: seq<nat>, readings: seq<String>, typings: seq<String>)
  {
    k <= |result| &&
    text == FirstsText(result[..k]) &&
    readings == MapSeq(Firsts(result[..k]), Reading) &&
    typings == MapSeq(readings, toTyping) &&
    offsets == OffsetsSoFar(result, offsets0, k)
  }

  /** One pass of the composition loop, over clause `k`. */
  method ComposeClause(result: seq<seq<Candidate>>, offsets0: seq<nat>, toTyping: String -> String, k: nat,
                       text: String, offsets: seq<nat>, readings: seq<String>, typings: seq<String>)
    returns (text': String, offsets': seq<nat>, readings': seq<String>, typings': seq<String>)
    requires k < |result|
    requires ComposedUpTo(result, offsets0, toTyping, k, text, offsets, readings, typings)
    ensures ComposedUpTo(result, offsets0, toTyping, k + 1, text', offsets', readings', typings')
  {
    FirstsSnoc(result, k);
    OffsetsStep(result, offsets0, k);
    text', offsets', readings', typings' := text, offsets, readings, typings;
    if |result[k]| > 0 {
      var c := result[k][0];
      offsets' := offsets[k := |text|];
      MapSeqSnoc(Firsts(result[..k]), c, Reading);
      MapSeqSnoc(readings, c.hiragana, toTyping);
      readings' := readings + [c.hiragana];
      typings' := typings + [toTyping(c.hiragana)];
      text' := text + c.converted;
    }
  }

  /** The candidate-list loop of `StoreResult` over one clause. */
  method ConversionsOf(cs: seq<Candidate>) returns (list: seq<String>)
    ensures list == Conversions(cs)
  {
    list := [];
    var i := 0;
    while i < |cs|
      invariant 0 <= i <= |cs|
      invariant list == Conversions(cs[..i])
    {
      assert cs[..i + 1] == cs[..i] + [cs[i]];
      MapSeqSnoc(cs[..i], cs[i], Conversion);
      list := list + [cs[i].converted];
      i := i + 1;
    }
    assert cs[..i] == cs;
  }

  /** `MzIme::StoreResult`. The typing string of each clause comes from
      `hiragana_to_typing`, a parameter here; the attribute string and
      `SetClauseAttr` are not part of this model. The inner loop over a
      clause's candidates stops at the first, so it is the test for one. */
  method StoreResult(result: seq<seq<Candidate>>, comp: Comp, cand: CandInfo, toTyping: String -> String)
    modifies comp, cand
    ensures comp.compStr == FirstsText(result)
    ensures comp.compClause == ClauseOffsets(result, old(comp.compClause))
    ensures comp.hiraganaClauses == MapSeq(Firsts(result), Reading)
    ensures comp.typingClauses == MapSeq(comp.hiraganaClauses, toTyping)
    ensures comp.compStrClauses == [] && comp.iClause == 0
    ensures comp.cursorPos == |comp.compStr| && comp.deltaStart == 0
    ensures cand.candLists == MapSeq(result, Conversions) && cand.iClause == 0
  {
    var text, offsets, readings, typings := ComposeClauses(result, comp.compClause, toTyping);
    var lists := CandidateLists(result);
    comp.compStr, comp.compClause, comp.hiraganaClauses, comp.typingClauses := text, offsets, readings, typings;
    comp.compStrClauses, comp.iClause, comp.cursorPos, comp.deltaStart := [], 0, |text|, 0;
    cand.candLists, cand.iClause := lists, 0;
  }

  /** The candidate-list loop of `StoreResult` over the clauses. */
  method CandidateLists(result: seq<seq<Candidate>>) returns (lists: seq<seq<String>>)
    ensures lists == MapSeq(result, Conversions)
  {
    lists := [];
    var k := 0;
    while k < |result|
      invariant 0 <= k <= |result|
      invariant lists == MapSeq(result[..k], Conversions)
    {
      var list := ConversionsOf(result[k]);
      assert result[..k + 1] == result[..k] + [result[k]];
      MapSeqSnoc(result[..k], result[k], Conversions);
      lists := lists + [list];
      k := k + 1;
    }
    assert result[..k] == result;
  }
}
