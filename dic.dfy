/** The `[section]` dictionary of the older IME (`dic.cpp`): the text is
    cut into tokens at blanks; a token `[reading]` opens the section of that
    reading, and the tokens after it, each cut at its first '=', are the
    candidates, packed into a buffer as back-to-back NUL-terminated strings. */
module Dic {
  import opened Text
  import opened Wrappers

  const NUL: char := '\0'

  /** The separators handed to `wcstok`. */
  predicate IsSep(c: char)
  {
    c == ' ' || c == '\r' || c == '\n' || c == '\t'
  }

  type Token = t: String | |t| > 0 witness "x"

  /** Length of the run of non-separators that starts `s`. */
  function RunLength(s: String): (n: nat)
    ensures n <= |s|
    ensures forall k :: 0 <= k < n ==> !IsSep(s[k])
    ensures n < |s| ==> IsSep(s[n])
  {
    if s == [] || IsSep(s[0]) then 0 else 1 + RunLength(s[1..])
  }

  /** The tokens `wcstok` returns one after another: the maximal runs of
      non-separators, in order. */
  function Tokens(s: String): (ts: seq<Token>)
    ensures forall i :: 0 <= i < |ts| ==> forall k :: 0 <= k < |ts[i]| ==> !IsSep(ts[i][k])
    decreases |s|
  {
    if s == [] then []
    else if IsSep(s[0]) then Tokens(s[1..])
    else
      var n := RunLength(s);
      [s[..n]] + Tokens(s[n..])
  }

  /** Separator-free tokens written out with one blank between them are
      cut back into the same tokens. */
  lemma {:induction false} TokensOfJoined(ts: seq<Token>)
    requires forall i :: 0 <= i < |ts| ==> forall k :: 0 <= k < |ts[i]| ==> !IsSep(ts[i][k])
    ensures Tokens(Join(ts, ' ')) == ts
  {
    if |ts| == 1 {
      var t := ts[0];
      RunLengthOfToken(t, []);
      assert t + [] == t && t[|t|..] == [];
      assert Tokens(t) == [t[..|t|]] + Tokens(t[|t|..]);
    } else if |ts| > 1 {
      var t, rest := ts[0], Join(ts[1..], ' ');
      var s := t + [' '] + rest;
      RunLengthOfToken(t, [' '] + rest);
      assert s == t + ([' '] + rest);
      assert s[|t|..] == [' '] + rest;
      assert ([' '] + rest)[1..] == rest;
      TokensOfJoined(ts[1..]);
      assert Tokens(s[|t|..]) == Tokens(rest);
      assert [t] + ts[1..] == ts;
    }
  }

  lemma {:induction false} RunLengthOfToken(t: String, rest: String)
    requires forall k :: 0 <= k < |t| ==> !IsSep(t[k])
    requires rest == [] || IsSep(rest[0])
    ensures RunLength(t + rest) == |t| && (t + rest)[..|t|] == t
  {
    if |t| > 0 {
      assert (t + rest)[1..] == t[1..] + rest;
      RunLengthOfToken(t[1..], rest);
    }
  }

  /** The part of `s` before the first `c` (all of it without one): what
      is left of a token after `*wcschr(s, c) = 0`. */
  function CutAt(s: String, c: char): (r: String)
    ensures |r| <= |s| && r == s[..|r|] && c !in r
    ensures |r| < |s| ==> s[|r|] == c
  {
    match IndexOf(s, c)
    case Some(i) => s[..i]
    case None => s
  }

  predicate IsHeader(t: Token)
  {
    t[0] == '['
  }

  /** The reading a header names: after the '[', up to the first ']'. */
  function Section(t: Token): String
  {
    CutAt(t[1..], ']')
  }

  /** The first header at or after `from` that names `read`. */
  function FindHeader(ts: seq<Token>, read: String, from: nat): (r: Option<nat>)
    requires from <= |ts|
    ensures r.Some? ==> from <= r.value < |ts| && IsHeader(ts[r.value]) && Section(ts[r.value]) == read
    ensures r.Some? ==> forall j :: from <= j < r.value ==> !(IsHeader(ts[j]) && Section(ts[j]) == read)
    ensures r.None? ==> forall j :: from <= j < |ts| ==> !(IsHeader(ts[j]) && Section(ts[j]) == read)
    decreases |ts| - from
  {
    if from == |ts| then None
    else if IsHeader(ts[from]) && Section(ts[from]) == read then Some(from)
    else FindHeader(ts, read, from + 1)
  }

  /** The candidates from `from` on: every token up to the next header, each
      cut at its first '='. */
  function Group(ts: seq<Token>, from: nat): (g: seq<String>)
    requires from <= |ts|
    ensures |g| <= |ts| - from
    ensures from + |g| < |ts| ==> IsHeader(ts[from + |g|])
    decreases |ts| - from
  {
    if from == |ts| || IsHeader(ts[from]) then []
    else [CutAt(ts[from], '=')] + Group(ts, from + 1)
  }

  /** The candidates are exactly the tokens after `from` up to the next
      header (or the end), each cut at its first '='. */
  lemma {:induction false} GroupShape(ts: seq<Token>, from: nat)
    requires from <= |ts|
    ensures forall k :: from <= k < from + |Group(ts, from)| ==>
      !IsHeader(ts[k]) && Group(ts, from)[k - from] == CutAt(ts[k], '=')
    ensures from + |Group(ts, from)| < |ts| ==> IsHeader(ts[from + |Group(ts, from)|])
    decreases |ts| - from
  {
    if from < |ts| && !IsHeader(ts[from]) {
      GroupShape(ts, from + 1);
    }
  }

  /** The candidates of `read`'s section; none when no header names it or
      the matching header is the last token. */
  function Lookup(dic: String, read: String): Option<seq<String>>
  {
    var ts := Tokens(dic);
    match FindHeader(ts, read, 0)
    case None => None
    case Some(h) => if h + 1 < |ts| then Some(Group(ts, h + 1)) else None
  }

  /** Strings written back to back, each followed by a NUL. */
  function Packed(vals: seq<String>): (r: String)
    ensures |vals| > 0 ==> |r| > 0
  {
    if vals == [] then [] else vals[0] + [NUL] + Packed(vals[1..])
  }

  lemma {:induction false} PackedAppend(a: seq<String>, b: seq<String>)
    ensures Packed(a + b) == Packed(a) + Packed(b)
  {
    if a != [] {
      assert (a + b)[1..] == a[1..] + b;
      PackedAppend(a[1..], b);
    } else {
      assert a + b == b;
    }
  }

  /** How the conversion reads the buffer back: strings up to each NUL,
      until an empty one (or the end). */
  function Unpack(s: String): (r: seq<String>)
    decreases |s|
  {
    if s == [] || s[0] == NUL then []
    else match IndexOf(s, NUL)
      case None => [s]
      case Some(n) => [s[..n]] + Unpack(s[n + 1..])
  }

  /** Packing non-empty, NUL-free candidates with the closing NUL and
      reading them back gives the same candidates. */
  lemma {:induction false} UnpackPacked(vals: seq<String>, tail: String)
    requires forall k :: 0 <= k < |vals| ==> |vals[k]| > 0 && NUL !in vals[k]
    ensures Unpack(Packed(vals) + [NUL] + tail) == vals
  {
    var s := Packed(vals) + [NUL] + tail;
    if vals != [] {
      var v := vals[0];
      var rest := Packed(vals[1..]) + [NUL] + tail;
      assert Packed(vals) == v + [NUL] + Packed(vals[1..]);
      assert s == v + [NUL] + rest;
      UnpackStep(v, rest);
      UnpackPacked(vals[1..], tail);
      assert [v] + vals[1..] == vals;
    } else {
      assert s[0] == NUL;
    }
  }

  lemma UnpackStep(v: String, rest: String)
    requires |v| > 0 && NUL !in v
    ensures Unpack(v + [NUL] + rest) == [v] + Unpack(rest)
  {
    var s := v + [NUL] + rest;
    IndexOfAfter(v, rest);
    assert s[0] == v[0];
    assert s[..|v|] == v && s[|v| + 1..] == rest;
  }

  lemma IndexOfAfter(v: String, rest: String)
    requires |v| > 0 && NUL !in v
    ensures IndexOf(v + [NUL] + rest, NUL) == Some(|v|)
  {
    var s := v + [NUL] + rest;
    assert s[|v|] == NUL;
    assert s[..|v|] == v;
  }

  /** A candidate that is empty (its token began with '=') reads back as
      the end of the list, so the candidates after it are lost. */
  lemma EmptyCandidateEndsList()
    ensures Unpack(Packed(["a", "", "b"]) + [NUL]) == ["a"]
  {
    PackedCons("a", ["", "b"]);
    PackedCons("", ["b"]);
    PackedCons("b", []);
    assert ["a"] + ["", "b"] == ["a", "", "b"];
    assert [""] + ["b"] == ["", "b"];
    assert ["b"] + [] == ["b"];
    var rest := [NUL, 'b', NUL, NUL];
    assert Packed(["a", "", "b"]) + [NUL] == "a" + [NUL] + rest;
    UnpackStep("a", rest);
    assert Unpack(rest) == [];
  }

  /** `lstrcpyn(buf + at, v, n)`: at most `n - 1` characters of `v`, then a NUL. */
  method CopyN(buf: array<char>, at: nat, v: String, n: nat) returns (m: nat)
    requires n >= 1
    requires at + (if |v| < n - 1 then |v| else n - 1) < buf.Length
    modifies buf
    ensures m == (if |v| < n - 1 then |v| else n - 1)
    ensures buf[at..at + m] == v[..m] && buf[at + m] == NUL
    ensures forall k :: 0 <= k < buf.Length && !(at <= k <= at + m) ==> buf[k] == old(buf[k])
  {
    m := 0;
    while m < |v| && m < n - 1
      invariant m <= |v| && m <= n - 1
      invariant buf[at..at + m] == v[..m]
      invariant forall k :: 0 <= k < buf.Length && !(at <= k < at + m) ==> buf[k] == old(buf[k])
    {
      buf[at + m] := v[m];
      m := m + 1;
      assert buf[at..at + m] == buf[at..at + m - 1] + [v[m - 1]];
    }
    ghost var before := buf[..];
    buf[at + m] := NUL;
    assert buf[at..at + m] == before[at..at + m];
  }

  /** One round of the copy loop on an entry that fits: the entry and its
      NUL go in at `at`, and everything after them is untouched. */
  method Append(buf: array<char>, at: nat, v: String, bufLen: nat)
    requires bufLen <= buf.Length && at + |v| + 2 <= bufLen
    modifies buf
    ensures buf[..at + |v| + 1] == old(buf[..at]) + v + [NUL]
    ensures forall k :: at + |v| + 1 <= k < buf.Length ==> buf[k] == old(buf[k])
  {
    ghost var before := buf[..];
    var m := CopyN(buf, at, v, bufLen - at - 1);
    assert buf[..at] == before[..at];
    assert buf[..at + m + 1] == buf[..at] + buf[at..at + m] + [buf[at + m]];
  }

  /** The copy loop: the candidates from token `t` on are packed into the
      buffer from its start, followed by one more NUL; the count written
      includes that NUL. */
  method PackGroup(ts: seq<Token>, t0: nat, buf: array<char>, bufLen: nat) returns (written: nat)
    requires t0 <= |ts| && bufLen <= buf.Length
    requires |Packed(Group(ts, t0))| + 1 <= bufLen
    modifies buf
    ensures written == |Packed(Group(ts, t0))| + 1
    ensures buf[..written] == Packed(Group(ts, t0)) + [NUL]
    ensures forall k :: written <= k < buf.Length ==> buf[k] == old(buf[k])
  {
    var t := t0;
    ghost var done: seq<String> := [];
    written := 0;
    while t < |ts| && bufLen - written > 1 && !IsHeader(ts[t])
      invariant t <= |ts| && Group(ts, t0) == done + Group(ts, t)
      invariant written == |Packed(done)| && written + |Packed(Group(ts, t))| + 1 <= bufLen
      invariant buf[..written] == Packed(done)
      invariant forall k :: written <= k < buf.Length ==> buf[k] == old(buf[k])
      decreases |ts| - t
    {
      var v := CutAt(ts[t], '=');
      written := CopyCandidate(ts, t0, t, done, buf, written, bufLen);
      done := done + [v];
      t := t + 1;
    }
    PackGroupEnd(ts, t);
    assert done == Group(ts, t0);
    ghost var copied := buf[..written];
    buf[written] := NUL;
    assert buf[..written + 1] == copied + [NUL];
    written := written + 1;
  }

  /** One turn of the copy loop: candidate `t` and its NUL are written
      after the candidates `done` already copied. */
  method CopyCandidate(ts: seq<Token>, t0: nat, t: nat, ghost done: seq<String>, buf: array<char>, written: nat, bufLen: nat)
    returns (w: nat)
    requires t0 <= t < |ts| && !IsHeader(ts[t]) && bufLen <= buf.Length
    requires Group(ts, t0) == done + Group(ts, t)
    requires written == |Packed(done)| && written + |Packed(Group(ts, t))| + 1 <= bufLen
    requires buf[..written] == Packed(done)
    modifies buf
    ensures Group(ts, t0) == (done + [CutAt(ts[t], '=')]) + Group(ts, t + 1)
    ensures w == written + |CutAt(ts[t], '=')| + 1 == |Packed(done + [CutAt(ts[t], '=')])|
    ensures w + |Packed(Group(ts, t + 1))| + 1 <= bufLen
    ensures buf[..w] == Packed(done + [CutAt(ts[t], '=')])
    ensures forall k :: w <= k < buf.Length ==> buf[k] == old(buf[k])
  {
    var v := CutAt(ts[t], '=');
    PackGroupStep(ts, t0, t, done, v);
    ghost var copied := buf[..written];
    Append(buf, written, v, bufLen);
    assert buf[..written + |v| + 1] == copied + v + [NUL];
    w := written + |v| + 1;
  }

  /** One turn of the copy loop moves candidate `v` from the group still
      to copy to the part already copied. */
  lemma PackGroupStep(ts: seq<Token>, t0: nat, t: nat, done: seq<String>, v: String)
    requires t0 <= t < |ts| && !IsHeader(ts[t]) && v == CutAt(ts[t], '=')
    requires Group(ts, t0) == done + Group(ts, t)
    ensures Group(ts, t0) == (done + [v]) + Group(ts, t + 1)
    ensures |Packed(Group(ts, t))| == |v| + 1 + |Packed(Group(ts, t + 1))|
    ensures Packed(done + [v]) == Packed(done) + v + [NUL]
  {
    assert Group(ts, t) == [v] + Group(ts, t + 1);
    assert done + Group(ts, t) == (done + [v]) + Group(ts, t + 1);
    PackedCons(v, Group(ts, t + 1));
    PackedSnoc(done, v);
  }

  /** The copy loop stops with nothing left to copy: at the end, at a
      header, or with no room, which only an empty rest leaves. */
  lemma PackGroupEnd(ts: seq<Token>, t: nat)
    requires t <= |ts|
    requires t == |ts| || IsHeader(ts[t]) || |Packed(Group(ts, t))| == 0
    ensures Group(ts, t) == []
  {
  }

  lemma PackedCons(v: String, rest: seq<String>)
    ensures Packed([v] + rest) == v + [NUL] + Packed(rest)
  {
    assert ([v] + rest)[1..] == rest;
  }

  lemma PackedSnoc(done: seq<String>, v: String)
    ensures Packed(done + [v]) == Packed(done) + v + [NUL]
  {
    PackedAppend(done, [v]);
    PackedCons(v, []);
    assert [v] + [] == [v];
  }

  /** `CopyCandidateStringsFromDictionary`: with no section for `read`, or
      its header the last token, 0 and the buffer untouched; otherwise the
      section's candidates packed into the buffer with one more NUL after
      them, and the number of characters written. The caller's buffer
      must hold them all (`bufLen`, the length the copy is told about). */
  method CopyCandidateStringsFromDictionary(dic: String, read: String, buf: array<char>, bufLen: nat)
      returns (written: nat)
    requires bufLen <= buf.Length
    requires Lookup(dic, read).Some? ==> |Packed(Lookup(dic, read).value)| + 1 <= bufLen
    modifies buf
    ensures Lookup(dic, read).None? ==> written == 0 && buf[..] == old(buf[..])
    ensures Lookup(dic, read).Some? ==>
      written == |Packed(Lookup(dic, read).value)| + 1
      && buf[..written] == Packed(Lookup(dic, read).value) + [NUL]
      && buf[written..] == old(buf[written..])
  {
    var ts := Tokens(dic);
    var t := 0;
    var found := false;
    while t < |ts| && !found
      invariant t <= |ts|
      invariant !found ==> FindHeader(ts, read, 0) == FindHeader(ts, read, t)
      invariant found ==> t > 0 && FindHeader(ts, read, 0) == Some(t - 1)
    {
      found := IsHeader(ts[t]) && Section(ts[t]) == read;
      t := t + 1;
    }
    if t == |ts| {
      return 0;
    }
    written := PackGroup(ts, t, buf, bufLen);
  }

  /** A candidate list: its strings, the selection, the page start and the
      page size. */
  datatype CandList = CandList(strs: seq<String>, selection: nat, pageStart: nat, pageSize: nat)

  /** What `ConvKanji` works on: the composition string, whether it is
      already converted (its first attribute is non-zero), the cursor, and
      the candidate list. */
  datatype Conv = Conv(comp: String, converted: bool, cursor: nat, list: CandList)

  /** The composition set to `s` by the `set_compstr` step: cursor at 0 and
      every attribute marked converted. */
  function SetComp(st: Conv, s: String): (r: Conv)
    ensures r.comp == s && r.converted && r.cursor == 0 && r.list == st.list
  {
    st.(comp := s, converted := true, cursor := 0)
  }

  /** The first candidate that differs from `comp`. */
  function FirstOther(entries: seq<String>, comp: String): (r: Option<nat>)
    ensures r.Some? ==> r.value < |entries| && entries[r.value] != comp
    ensures r.Some? ==> forall k :: 0 <= k < r.value ==> entries[k] == comp
    ensures r.None? ==> forall k :: 0 <= k < |entries| ==> entries[k] == comp
  {
    if entries == [] then None
    else if entries[0] != comp then Some(0)
    else match FirstOther(entries[1..], comp)
      case None => None
      case Some(k) => Some(k + 1)
  }

  /** The paging step of a converted composition: the list takes the new
      candidates, its page size is their number capped at `pageMax`, and
      the selection moves on by one; reaching the end it wraps to 0 with the
      page start, and past the first page the page start moves on by one
      while a full page still follows. */
  function Paged(list: CandList, entries: seq<String>, pageMax: nat): (r: CandList)
    ensures r.strs == entries
    ensures r.pageSize == (if |entries| < pageMax then |entries| else pageMax)
    ensures list.selection + 1 == |entries| ==> r.selection == 0 && r.pageStart == 0
    ensures list.selection + 1 != |entries| ==> r.selection == list.selection + 1
    ensures list.selection + 1 != |entries| ==> r.pageStart == list.pageStart || r.pageStart == list.pageStart + 1
  {
    var size := if |entries| < pageMax then |entries| else pageMax;
    var sel := list.selection + 1;
    if sel == |entries| then CandList(entries, 0, 0, size)
    else if sel >= pageMax && list.pageStart + pageMax < |entries| then
      CandList(entries, sel, list.pageStart + 1, size)
    else CandList(entries, sel, list.pageStart, size)
  }

  /** `ConvKanji` after the dictionary lookup: `copied` is what the copy
      returned and `buffer` what it left. More than `maxNum` candidates
      fail with nothing changed; no section marks an unconverted
      composition converted and fails; an unconverted composition takes the
      first candidate that differs from it (failing if there is none); a
      converted one pages through the candidates and takes the selected one.
      A selection that the new list does not reach is not modelled. */
  function ConvKanji(st: Conv, copied: nat, buffer: String, maxNum: nat, pageMax: nat): (r: (bool, Conv))
    requires copied >= 1 && st.converted && |Unpack(buffer)| <= maxNum ==> st.list.selection < |Unpack(buffer)|
    ensures |Unpack(buffer)| > maxNum ==> r == (false, st)
    ensures |Unpack(buffer)| <= maxNum && copied < 1 ==> !r.0 && r.1 == st.(converted := true)
    ensures |Unpack(buffer)| <= maxNum && copied >= 1 && !st.converted ==>
      (r.0 <==> FirstOther(Unpack(buffer), st.comp).Some?)
      && (r.0 ==> r.1 == SetComp(st, Unpack(buffer)[FirstOther(Unpack(buffer), st.comp).value]))
      && (!r.0 ==> r.1 == st)
    ensures |Unpack(buffer)| <= maxNum && copied >= 1 && st.converted ==>
      r.0 && r.1.list == Paged(st.list, Unpack(buffer), pageMax)
      && r.1.list.selection < |Unpack(buffer)|
      && r.1 == SetComp(st, Unpack(buffer)[r.1.list.selection]).(list := r.1.list)
  {
    var entries := Unpack(buffer);
    if |entries| > maxNum then (false, st)
    else if copied < 1 then (false, st.(converted := true))
    else if !st.converted then
      match FirstOther(entries, st.comp)
      case None => (false, st)
      case Some(i) => (true, SetComp(st, entries[i]))
    else
      var list := Paged(st.list, entries, pageMax);
      (true, SetComp(st.(list := list), entries[list.selection]))
  }

  /** Paging through a list the size of the candidates keeps the selection
      inside it and steps it on cyclically. */
  lemma PagedCycles(list: CandList, entries: seq<String>, pageMax: nat)
    requires list.selection < |entries|
    ensures Paged(list, entries, pageMax).selection == (list.selection + 1) % |entries|
    ensures Paged(list, entries, pageMax).pageSize <= pageMax
  {
    var next := list.selection + 1;
    if next == |entries| {
      assert next % |entries| == 0;
    } else {
      assert next % |entries| == next;
    }
  }
}
