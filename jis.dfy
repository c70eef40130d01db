// Character-code input: the JIS X 0208 row/cell ("kuten") notation, the
// 7-bit JIS code and Shift_JIS as Annex 1 of JIS X 0208:1997 defines it,
// and `MzIme::ConvertCode`, which offers the characters a typed code may
// stand for.
module Jis {
  import opened Wrappers
  import opened Bytes
  import opened Text
  import opened Hinshi
  import opened LatticeNodes
  import opened Candidates

  /** `is_sjis_lead`: the first byte of a double-byte Shift_JIS character. */
  predicate IsSjisLead(b: Byte) { 0x81 <= b <= 0x9F || 0xE0 <= b <= 0xEF }

  /** `is_sjis_trail`: the second byte of a double-byte Shift_JIS character. */
  predicate IsSjisTrail(b: Byte) { 0x40 <= b <= 0x7E || 0x80 <= b <= 0xFC }

  /** `is_jis_byte`: a byte of a 7-bit JIS code, 0x21 to 0x7E. */
  predicate IsJisByte(b: Byte) { 0x21 <= b <= 0x7E }

  predicate IsJisCode(w: Word) { IsJisByte(HiByte(w)) && IsJisByte(LoByte(w)) }

  predicate IsSjisCode(w: Word) { IsSjisLead(HiByte(w)) && IsSjisTrail(LoByte(w)) }

  /** A sum or difference cut to a `BYTE`, as the `+=` and `-=` of
      `jis2sjis` on a `BYTE` leave it. */
  function Wrap8(x: int): (b: Byte)
    requires -0x100 <= x < 0x200
    ensures b == x % 0x100
  {
    if x < 0 then x + 0x100 else if x >= 0x100 then x - 0x100 else x
  }

  /** The second byte of `jis2sjis`, the same in both versions below: an
      odd row takes the trail bytes 0x40 to 0x9E, skipping 0x7F, an even
      row 0x9F to 0xFC. The sums wrap around as `BYTE` arithmetic does. */
  function SjisTrailOf(c0: Byte, c1: Byte): Byte
  {
    if c0 % 2 == 1 then
      (if c1 > 0x5F then Wrap8(c1 + 0x20) else Wrap8(c1 + 0x1F))
    else Wrap8(c1 + 0x7E)
  }

  /** `jis2sjis(c0, c1)` as written: for an even first byte the test on
      the halved byte is `< 0x2F`, as for an odd one. */
  function Jis2SjisAsWritten(c0: Byte, c1: Byte): Word
  {
    var h := c0 / 2;
    var lead := if c0 % 2 == 1 then (if h < 0x2F then h + 0x71 else Wrap8(h - 0x4F))
                else (if h < 0x2F then h + 0x70 else Wrap8(h - 0x50));
    MakeWord(lead, SjisTrailOf(c0, c1))
  }

  /** The first byte as Annex 1 of JIS X 0208 has it: rows 0x21 to 0x5E
      go to 0x81..0x9F and rows 0x5F to 0x7E to 0xE0..0xEF, two rows to a
      lead byte. */
  function SjisLeadOf(c0: Byte): Byte
  {
    var h := c0 / 2;
    if c0 % 2 == 1 then (if h < 0x2F then h + 0x71 else Wrap8(h - 0x4F))
    else (if h <= 0x2F then h + 0x70 else Wrap8(h - 0x50))
  }

  /** `jis2sjis`, with the even-row test corrected. */
  function Jis2Sjis(c0: Byte, c1: Byte): Word
  {
    MakeWord(SjisLeadOf(c0), SjisTrailOf(c0, c1))
  }

  /** `jis2sjis(WORD)`: the code split into its two bytes. */
  function Jis2SjisWord(w: Word): Word { Jis2Sjis(HiByte(w), LoByte(w)) }

  /** The low byte of `jis2sjis` on JIS bytes is always a trail byte. */
  lemma TrailOfJisIsSjisTrail(c0: Byte, c1: Byte)
    requires IsJisByte(c0) && IsJisByte(c1)
    ensures IsSjisTrail(LoByte(Jis2SjisAsWritten(c0, c1))) && IsSjisTrail(LoByte(Jis2Sjis(c0, c1)))
  {
  }

  /** As written, row 0x5E (row 62 of the kuten notation) gets the first
      byte 0xDF, which is no lead byte: `ConvertCode` drops every code of
      that row. */
  lemma Row5EAsWrittenIsNoSjis(c1: Byte)
    requires IsJisByte(c1)
    ensures HiByte(Jis2SjisAsWritten(0x5E, c1)) == 0xDF
    ensures !IsSjisCode(Jis2SjisAsWritten(0x5E, c1))
    ensures HiByte(Jis2Sjis(0x5E, c1)) == 0x9F && IsSjisCode(Jis2Sjis(0x5E, c1))
  {
  }

  /** Row 0x5E is the only place the two versions differ. */
  lemma AsWrittenDiffersOnlyOnRow5E(c0: Byte, c1: Byte)
    ensures Jis2SjisAsWritten(c0, c1) == Jis2Sjis(c0, c1) <==> c0 != 0x5E
  {
    if c0 == 0x5E {
      assert HiByte(Jis2SjisAsWritten(c0, c1)) != HiByte(Jis2Sjis(c0, c1));
    }
  }

  /** Shift_JIS back to JIS, the inverse Annex 1 describes. */
  function Sjis2Jis(s1: Byte, s2: Byte): (r: (Byte, Byte))
    requires IsSjisLead(s1) && IsSjisTrail(s2)
    ensures IsJisByte(r.0) && IsJisByte(r.1)
  {
    var row := if s1 <= 0x9F then s1 - 0x70 else s1 - 0xB0;
    if s2 >= 0x9F then (2 * row, s2 - 0x7E)
    else (2 * row - 1, if s2 >= 0x80 then s2 - 0x20 else s2 - 0x1F)
  }

  /** Every JIS code becomes a Shift_JIS code, and back. */
  lemma JisSjisRoundTrip(c0: Byte, c1: Byte)
    requires IsJisByte(c0) && IsJisByte(c1)
    ensures IsSjisCode(Jis2Sjis(c0, c1))
    ensures Sjis2Jis(HiByte(Jis2Sjis(c0, c1)), LoByte(Jis2Sjis(c0, c1))) == (c0, c1)
  {
  }

  /** Every Shift_JIS code of these lead bytes comes from a JIS code. */
  lemma SjisJisRoundTrip(s1: Byte, s2: Byte)
    requires IsSjisLead(s1) && IsSjisTrail(s2)
    ensures Jis2Sjis(Sjis2Jis(s1, s2).0, Sjis2Jis(s1, s2).1) == MakeWord(s1, s2)
  {
    var row := if s1 <= 0x9F then s1 - 0x70 else s1 - 0xB0;
    var j0 := Sjis2Jis(s1, s2).0;
    if s2 >= 0x9F {
      assert j0 == 2 * row && j0 % 2 == 0 && j0 / 2 == row;
    } else {
      assert j0 == 2 * row - 1 && j0 % 2 == 1 && j0 / 2 == row - 1;
    }
  }

  /** `kuten_to_jis`: a five-character string is a three-digit row and a
      two-digit cell, each read by `wcstoul` in base 10 and cut to a
      `WORD`; the JIS code adds 32 to both. Any other length gives 0. */
  function KutenToJis(s: String): (r: Word)
    ensures |s| != 5 ==> r == 0
  {
    if |s| != 5 then 0
    else
      var ku := ToWord(Wcstoul(s[..3], 10));
      var ten := ToWord(Wcstoul(s[3..], 10));
      ToWord((ku + 32) * 256 + ten + 32)
  }

  function DecimalDigit(d: nat): (c: char)
    requires d < 10
    ensures DigitIn(c, 10) == Some(d)
  {
    ('0' as int + d) as char
  }

  /** The five-digit kuten notation of a row and a cell. */
  function KutenString(ku: nat, ten: nat): (s: String)
    requires 1 <= ku <= 94 && 1 <= ten <= 94
    ensures |s| == 5
  {
    [DecimalDigit(ku / 100), DecimalDigit(ku / 10 % 10), DecimalDigit(ku % 10),
     DecimalDigit(ten / 10), DecimalDigit(ten % 10)]
  }

  /** `wcstoul` in base 10 reads a string of up to three digits as its
      value. */
  lemma WcstoulOfDigits(s: String)
    requires 0 < |s| <= 3 && AllDigits(s)
    ensures Wcstoul(s, 10) == DigitsValue(s, 10)
  {
    DigitRunOfDigits(s);
    assert s[..|s|] == s;
    assert !IsSpace(s[0]) && s[0] != '-' && s[0] != '+';
    assert SignAndRest(s) == (false, s);
    assert LeadingNumber(s, 10) == (|s|, DigitsValue(s, 10));
    DigitsBound(s);
  }

  lemma DigitsBound(s: String)
    requires |s| <= 3 && AllDigits(s)
    ensures DigitsValue(s, 10) < 1000
  {
    if |s| > 0 {
      var t := s[..|s| - 1];
      assert AllDigits(t) by {
        forall i | 0 <= i < |t|
          ensures DigitIn(t[i], 10).Some?
        {
          assert t[i] == s[i];
        }
      }
      if |t| > 0 {
        var u := t[..|t| - 1];
        assert u == s[..|s| - 2];
        if |u| > 0 {
          assert u[..|u| - 1] == [];
        }
      }
    }
  }

  /** A single digit has its own value. */
  lemma OneNumeral(c: char, x: nat)
    requires DigitIn(c, 10) == Some(x)
    ensures DigitsValue([c], 10) == x
  {
    assert [c][..0] == [];
  }

  /** A string of digits of known values has the value they spell. */
  lemma ValueOfNumerals(a: char, b: char, c: char, x: nat, y: nat, z: nat)
    requires x < 10 && y < 10 && z < 10
    requires DigitIn(a, 10) == Some(x) && DigitIn(b, 10) == Some(y) && DigitIn(c, 10) == Some(z)
    ensures AllDigits([b, c]) && DigitsValue([b, c], 10) == 10 * y + z
    ensures AllDigits([a, b, c]) && DigitsValue([a, b, c], 10) == 100 * x + 10 * y + z
  {
    OneNumeral(a, x);
    OneNumeral(b, y);
    assert [a, b][..1] == [a] && [b, c][..1] == [b];
    assert DigitsValue([a, b], 10) == DigitsValue([a], 10) * 10 + y;
    assert DigitsValue([b, c], 10) == DigitsValue([b], 10) * 10 + z;
    assert [a, b, c][..2] == [a, b];
    assert DigitsValue([a, b, c], 10) == DigitsValue([a, b], 10) * 10 + z;
  }

  /** The row and the cell of the kuten notation read back by `wcstoul`. */
  lemma KutenFields(ku: nat, ten: nat)
    requires 1 <= ku <= 94 && 1 <= ten <= 94
    ensures Wcstoul(KutenString(ku, ten)[..3], 10) == ku
    ensures Wcstoul(KutenString(ku, ten)[3..], 10) == ten
  {
    var s := KutenString(ku, ten);
    var a, b := s[..3], s[3..];
    assert a == [s[0], s[1], s[2]] && b == [s[3], s[4]];
    DigitsOf(ku, ten);
    ValueOfNumerals(s[0], s[1], s[2], ku / 100, ku / 10 % 10, ku % 10);
    ValueOfNumerals(s[2], s[3], s[4], ku % 10, ten / 10, ten % 10);
    WcstoulOfDigits(a);
    WcstoulOfDigits(b);
  }

  lemma DigitsOf(ku: nat, ten: nat)
    requires 1 <= ku <= 94 && 1 <= ten <= 94
    ensures 100 * (ku / 100) + 10 * (ku / 10 % 10) + ku % 10 == ku
    ensures 10 * (ten / 10) + ten % 10 == ten
  {
    assert ku / 100 == 0 && ku / 10 % 10 == ku / 10;
  }

  /** Reading the kuten notation back gives the row and the cell, and a
      JIS code from them. */
  lemma KutenRoundTrip(ku: nat, ten: nat)
    requires 1 <= ku <= 94 && 1 <= ten <= 94
    ensures KutenToJis(KutenString(ku, ten)) == MakeWord(ku + 32, ten + 32)
    ensures IsJisCode(KutenToJis(KutenString(ku, ten)))
  {
    KutenFields(ku, ten);
  }

  /** `jis2sjis(WORD)` as written: the code split into its two bytes. */
  function Jis2SjisWordAsWritten(w: Word): Word { Jis2SjisAsWritten(HiByte(w), LoByte(w)) }

  /** The texts the candidates of a list convert to. */
  function Texts(cs: seq<Candidate>): set<String>
  {
    set c | c in cs :: c.converted
  }

  /** The typed code read in base 16 and cut to a `WORD`. */
  function HexOf(typing: String): Word { ToWord(Wcstoul(typing, 16)) }

  /** The texts a typed code stands for, with `toSjis` turning a JIS code
      into Shift_JIS: the code read in base 16 as a UTF-16 unit; that value
      as a Shift_JIS code when it is one; that value as a JIS code when it
      is one and `toSjis` makes a Shift_JIS code of it; the typed string as
      kuten notation, on the same terms; and the typed string itself. */
  function CodeTexts(typing: String, unit: Word -> String, fromSjis: Word -> String, toSjis: Word -> Word): set<String>
  {
    TextsOf(typing, HexOf(typing), KutenToJis(typing), unit, fromSjis, toSjis(HexOf(typing)), toSjis(KutenToJis(typing)))
  }

  /** `CodeTexts` for a code `hex`, a kuten code `jis` and the Shift_JIS
      forms `toSjis` gives them. */
  function TextsOf(typing: String, hex: Word, jis: Word, unit: Word -> String, fromSjis: Word -> String,
                   sjisOfHex: Word, sjisOfJis: Word): set<String>
  {
    {unit(hex)}
    + (if IsSjisCode(hex) then {fromSjis(hex)} else {})
    + (if IsJisCode(hex) && IsSjisCode(sjisOfHex) then {fromSjis(sjisOfHex)} else {})
    + (if IsJisCode(jis) && IsSjisCode(sjisOfJis) then {fromSjis(sjisOfJis)} else {})
    + {typing}
  }

  /** `ConvertCode(strTyping, result)`: one clause, never repeating a text,
      of one to five candidates, all read as the typed string, whose texts
      are exactly those `CodeTexts` lists for `jis2sjis` as written: a JIS
      code of row 0x5E is therefore never offered. The candidates come at
      costs counting up from 0 and are added as `MzConvClause::add` adds.
      Turning a code unit or a Shift_JIS code into text is the parameter
      `unit` or `fromSjis` (`MultiByteToWideChar` with code page 932). */
  function ConvertCode(typing: String, unit: Word -> String, fromSjis: Word -> String): (r: seq<Candidate>)
    ensures ClauseOf(r, typing)
    ensures FindConverted(r, typing).Some?
    ensures 1 <= |r| <= 5
    ensures Texts(r) == CodeTexts(typing, unit, fromSjis, Jis2SjisWordAsWritten)
  {
    ConvertCodeWith(typing, unit, fromSjis, Jis2SjisWordAsWritten)
  }

  /** `ConvertCode` with the corrected `jis2sjis`: every JIS code, row
      0x5E included, is offered through its Shift_JIS form. */
  function ConvertCodeIntended(typing: String, unit: Word -> String, fromSjis: Word -> String): (r: seq<Candidate>)
    ensures ClauseOf(r, typing)
    ensures 1 <= |r| <= 5
    ensures Texts(r) == CodeTexts(typing, unit, fromSjis, Jis2SjisWord)
    ensures IsJisCode(HexOf(typing)) ==> fromSjis(Jis2SjisWord(HexOf(typing))) in Texts(r)
  {
    var hex := HexOf(typing);
    var r := ConvertCodeWith(typing, unit, fromSjis, Jis2SjisWord);
    if IsJisCode(hex) then
      JisSjisRoundTrip(HiByte(hex), LoByte(hex));
      r
    else r
  }

  /** The two versions differ only for codes of JIS row 0x5E. */
  lemma ConvertCodeDiffersOnlyOnRow5E(typing: String, unit: Word -> String, fromSjis: Word -> String)
    requires HiByte(HexOf(typing)) != 0x5E && HiByte(KutenToJis(typing)) != 0x5E
    ensures ConvertCode(typing, unit, fromSjis) == ConvertCodeIntended(typing, unit, fromSjis)
  {
    AsWrittenWordAgrees(HexOf(typing));
    AsWrittenWordAgrees(KutenToJis(typing));
    SameCodesSameCandidates(typing, unit, fromSjis, Jis2SjisWordAsWritten, Jis2SjisWord);
    ConvertCodeWithUnfold(typing, unit, fromSjis, Jis2SjisWordAsWritten);
    ConvertCodeWithUnfold(typing, unit, fromSjis, Jis2SjisWord);
  }

  /** `jis2sjis` on a whole code: as written and corrected agree outside
      row 0x5E. */
  lemma AsWrittenWordAgrees(w: Word)
    requires HiByte(w) != 0x5E
    ensures Jis2SjisWordAsWritten(w) == Jis2SjisWord(w)
  {
    AsWrittenDiffersOnlyOnRow5E(HiByte(w), LoByte(w));
  }

  /** Two `jis2sjis` functions that agree on the two codes read from the
      typed string give the same candidates. */
  lemma SameCodesSameCandidates(typing: String, unit: Word -> String, fromSjis: Word -> String,
                                f: Word -> Word, g: Word -> Word)
    requires f(HexOf(typing)) == g(HexOf(typing)) && f(KutenToJis(typing)) == g(KutenToJis(typing))
    ensures CodeCandidates(typing, unit, fromSjis, f) == CodeCandidates(typing, unit, fromSjis, g)
  {
  }

  /** The body of `ConvertCode` for a given `jis2sjis`. */
  function ConvertCodeWith(typing: String, unit: Word -> String, fromSjis: Word -> String, toSjis: Word -> Word): (r: seq<Candidate>)
    ensures ClauseOf(r, typing)
    ensures FindConverted(r, typing).Some?
    ensures 1 <= |r| <= 5
    ensures Texts(r) == CodeTexts(typing, unit, fromSjis, toSjis)
  {
    var c := CodeCandidates(typing, unit, fromSjis, toSjis);
    var last := LastNode(typing, c.1);
    CodeCandidatesShape(typing, unit, fromSjis, toSjis);
    AddStep(c.0, last);
    AddedHolds(c.0, last);
    AddedTexts(c.0, last);
    Added(c.0, last)
  }

  /** The typed string's own candidate, at the cost after the codes'. */
  function LastNode(typing: String, cost: int): (n: Node)
    ensures n.pre == n.post == typing
  {
    CodeNode(typing).(post := typing, cost := cost + 1)
  }

  /** `ConvertCode` adds the typed string after the code candidates. */
  lemma ConvertCodeWithUnfold(typing: String, unit: Word -> String, fromSjis: Word -> String, toSjis: Word -> Word)
    ensures var c := CodeCandidates(typing, unit, fromSjis, toSjis);
            ConvertCodeWith(typing, unit, fromSjis, toSjis) == Added(c.0, LastNode(typing, c.1))
  {
  }

  /** The node `ConvertCode` starts from: unknown class, cost 0, the
      typed string as reading. */
  function CodeNode(typing: String): (n: Node)
    ensures n.pre == typing
  {
    NewNode(HB_UNKNOWN, DAN_NO_GYOU, KATSUYOU_NONE, 0).(pre := typing)
  }

  /** The candidates `ConvertCode` has before the typed string's own, and
      the cost counter then. */
  function CodeCandidates(typing: String, unit: Word -> String, fromSjis: Word -> String, toSjis: Word -> Word): (r: (seq<Candidate>, int))
  {
    CandidatesOf(CodeNode(typing), HexOf(typing), KutenToJis(typing), unit, fromSjis,
                 toSjis(HexOf(typing)), toSjis(KutenToJis(typing)))
  }

  /** The steps of `ConvertCode` before the typed string's own candidate:
      the unit, then the Shift_JIS, JIS and kuten candidates each only
      when its code is valid. */
  function CandidatesOf(node: Node, hex: Word, jis: Word, unit: Word -> String, fromSjis: Word -> String,
                        sjisOfHex: Word, sjisOfJis: Word): (r: (seq<Candidate>, int))
  {
    var c1 := Added([], node.(post := unit(hex)));
    var r2 := AddCode(c1, node, 1, hex, fromSjis);
    var r3 := if IsJisCode(hex) then AddCode(r2.0, node, r2.1, sjisOfHex, fromSjis) else r2;
    if IsJisCode(jis) then AddCode(r3.0, node, r3.1, sjisOfJis, fromSjis) else r3
  }

  /** `add` adds the node's text to the texts of the list. */
  lemma AddedTexts(cs: seq<Candidate>, n: Node)
    ensures Texts(Added(cs, n)) == Texts(cs) + {n.post}
  {
    var r := Added(cs, n);
    match FindConverted(cs, n.post)
    case Some(j) =>
      assert r[j].converted == n.post;
      forall t | t in Texts(cs) ensures t in Texts(r) {
        var i :| 0 <= i < |cs| && cs[i].converted == t;
        assert r[i].converted == t;
      }
      forall t | t in Texts(r) ensures t in Texts(cs) + {n.post} {
        var i :| 0 <= i < |r| && r[i].converted == t;
        assert i != j ==> r[i] == cs[i];
      }
    case None =>
      assert r == cs + [FromNode(n)];
      forall t | t in Texts(cs) ensures t in Texts(r) {
        var i :| 0 <= i < |cs| && cs[i].converted == t;
        assert r[i].converted == t;
      }
      assert r[|cs|].converted == n.post;
  }

  /** One Shift_JIS candidate: added, one cost higher, only when `w` is a
      Shift_JIS code; the cost counter after it. */
  function AddCode(cs: seq<Candidate>, node: Node, cost: int, w: Word, fromSjis: Word -> String): (r: (seq<Candidate>, int))
    ensures r.1 == if IsSjisCode(w) then cost + 1 else cost
  {
    if IsSjisCode(w) then (Added(cs, node.(post := fromSjis(w), cost := cost + 1)), cost + 1)
    else (cs, cost)
  }

  /** Candidates of one reading, no two of the same text. */
  predicate ClauseOf(cs: seq<Candidate>, reading: String)
  {
    DistinctConverted(cs) && forall c :: c in cs ==> c.hiragana == reading
  }

  /** The code candidates share the typed reading, are at most four, and
      convert to the texts `CodeTexts` lists apart from the typed string. */
  lemma CodeCandidatesShape(typing: String, unit: Word -> String, fromSjis: Word -> String, toSjis: Word -> Word)
    ensures ClauseOf(CodeCandidates(typing, unit, fromSjis, toSjis).0, typing)
    ensures |CodeCandidates(typing, unit, fromSjis, toSjis).0| <= 4
    ensures Texts(CodeCandidates(typing, unit, fromSjis, toSjis).0) + {typing} == CodeTexts(typing, unit, fromSjis, toSjis)
  {
    CandidatesOfShape(CodeNode(typing), HexOf(typing), KutenToJis(typing), unit, fromSjis,
                      toSjis(HexOf(typing)), toSjis(KutenToJis(typing)));
  }

  lemma CandidatesOfShape(node: Node, hex: Word, jis: Word, unit: Word -> String, fromSjis: Word -> String,
                          sjisOfHex: Word, sjisOfJis: Word)
    ensures ClauseOf(CandidatesOf(node, hex, jis, unit, fromSjis, sjisOfHex, sjisOfJis).0, node.pre)
    ensures |CandidatesOf(node, hex, jis, unit, fromSjis, sjisOfHex, sjisOfJis).0| <= 4
    ensures Texts(CandidatesOf(node, hex, jis, unit, fromSjis, sjisOfHex, sjisOfJis).0) + {node.pre}
            == TextsOf(node.pre, hex, jis, unit, fromSjis, sjisOfHex, sjisOfJis)
  {
    var c1 := Added([], node.(post := unit(hex)));
    AddStep([], node.(post := unit(hex)));
    AddedTexts([], node.(post := unit(hex)));
    assert Texts(c1) == {unit(hex)};
    var r2 := AddCode(c1, node, 1, hex, fromSjis);
    AddCodeStep(c1, node, 1, hex, fromSjis);
    var t2 := {unit(hex)} + (if IsSjisCode(hex) then {fromSjis(hex)} else {});
    assert Texts(r2.0) == t2;
    var r3 := if IsJisCode(hex) then AddCode(r2.0, node, r2.1, sjisOfHex, fromSjis) else r2;
    var t3 := t2 + (if IsJisCode(hex) && IsSjisCode(sjisOfHex) then {fromSjis(sjisOfHex)} else {});
    if IsJisCode(hex) {
      AddCodeStep(r2.0, node, r2.1, sjisOfHex, fromSjis);
    }
    assert ClauseOf(r3.0, node.pre) && |r3.0| <= 3 && Texts(r3.0) == t3;
    var r4 := if IsJisCode(jis) then AddCode(r3.0, node, r3.1, sjisOfJis, fromSjis) else r3;
    var t4 := t3 + (if IsJisCode(jis) && IsSjisCode(sjisOfJis) then {fromSjis(sjisOfJis)} else {});
    if IsJisCode(jis) {
      AddCodeStep(r3.0, node, r3.1, sjisOfJis, fromSjis);
    }
    assert ClauseOf(r4.0, node.pre) && |r4.0| <= 4 && Texts(r4.0) == t4;
    assert CandidatesOf(node, hex, jis, unit, fromSjis, sjisOfHex, sjisOfJis) == r4;
  }

  /** One `add` of a node of reading `r`: distinctness and the readings
      are kept, and at most one candidate is added. */
  lemma AddStep(cs: seq<Candidate>, n: Node)
    requires ClauseOf(cs, n.pre)
    ensures ClauseOf(Added(cs, n), n.pre)
    ensures |cs| <= |Added(cs, n)| <= |cs| + 1
  {
    AddedKeepsDistinct(cs, n);
    AddedFrame(cs, n);
  }

  lemma AddCodeStep(cs: seq<Candidate>, node: Node, cost: int, w: Word, fromSjis: Word -> String)
    requires ClauseOf(cs, node.pre)
    ensures ClauseOf(AddCode(cs, node, cost, w, fromSjis).0, node.pre)
    ensures |cs| <= |AddCode(cs, node, cost, w, fromSjis).0| <= |cs| + 1
    ensures Texts(AddCode(cs, node, cost, w, fromSjis).0) == Texts(cs) + (if IsSjisCode(w) then {fromSjis(w)} else {})
  {
    if IsSjisCode(w) {
      AddStep(cs, node.(post := fromSjis(w), cost := cost + 1));
      AddedTexts(cs, node.(post := fromSjis(w), cost := cost + 1));
    }
  }
}
