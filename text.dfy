/** String primitives shared by the model: the C++ standard-library and C
    runtime behaviour that the source relies on, written out. */
module Text {
  import opened Wrappers

  /** Text as a sequence of Unicode scalar values. The source's
      `std::wstring` holds UTF-16 code units, which are the same sequence
      for text inside the Basic Multilingual Plane; `Utf16Length` counts
      the units where the two differ. */
  type String = seq<char>

  /** `std::wstring::size()` of the UTF-16 form of `s`: one unit per
      character, two (a surrogate pair) for one outside the Basic
      Multilingual Plane. */
  function Utf16Length(s: String): (n: nat)
    ensures |s| <= n <= 2 * |s|
  {
    if |s| == 0 then 0
    else Utf16Length(s[..|s| - 1]) + (if s[|s| - 1] as int >= 0x10000 then 2 else 1)
  }

  /** Every character lies in the Basic Multilingual Plane. */
  predicate InBmp(s: String)
  {
    forall i :: 0 <= i < |s| ==> (s[i] as int) < 0x10000
  }

  /** A text inside the Basic Multilingual Plane has one unit per character. */
  lemma {:induction false} Utf16LengthInBmp(s: String)
    requires InBmp(s)
    ensures Utf16Length(s) == |s|
  {
    if |s| > 0 {
      assert InBmp(s[..|s| - 1]);
      Utf16LengthInBmp(s[..|s| - 1]);
    }
  }

  /** A longer prefix takes more units: the unit offsets of the characters
      strictly increase. */
  lemma {:induction false} Utf16LengthPrefixes(s: String, i: nat, j: nat)
    requires i < j <= |s|
    ensures Utf16Length(s[..i]) < Utf16Length(s[..j])
    decreases j
  {
    assert s[..j][..j - 1] == s[..j - 1];
    if i < j - 1 {
      Utf16LengthPrefixes(s, i, j - 1);
    }
  }

  /** `std::basic_string::operator[]`: reading position `size()` yields the
      terminating NUL; every other position is a plain index. */
  function CharAt(s: String, i: nat): char
  {
    if i < |s| then s[i] else '\0'
  }

  /** The characters a C string holds: everything before the first NUL. */
  function CStr(s: String): (r: String)
    ensures '\0' !in r
    ensures |r| <= |s| && r == s[..|r|]
    ensures |r| < |s| ==> s[|r|] == '\0'
  {
    if |s| == 0 || s[0] == '\0' then [] else [s[0]] + CStr(s[1..])
  }

  predicate StartsWith(s: String, prefix: String)
  {
    |prefix| <= |s| && s[..|prefix|] == prefix
  }

  predicate EndsWith(s: String, suffix: String)
  {
    |suffix| <= |s| && s[|s| - |suffix|..] == suffix
  }

  /** `t` occurs in `s` starting at position `i`. */
  predicate OccursAt(s: String, t: String, i: int)
  {
    0 <= i && i + |t| <= |s| && s[i..i + |t|] == t
  }

  /** `s.find(t) != npos`: `t` occurs somewhere in `s`. */
  predicate Contains(s: String, t: String)
  {
    exists i :: 0 <= i <= |s| && OccursAt(s, t, i)
  }

  lemma OccursAtShift(s: String, t: String, i: int)
    requires |s| > 0 && 0 <= i
    ensures OccursAt(s, t, i + 1) <==> OccursAt(s[1..], t, i)
  {
    if 0 <= i && i + 1 + |t| <= |s| {
      assert s[i + 1..i + 1 + |t|] == s[1..][i..i + |t|];
    }
  }

  /** Leftmost position at which `t` occurs in `s`, as `std::wstring::find`. */
  function Find(s: String, t: String): (r: Option<nat>)
    ensures r.Some? ==> OccursAt(s, t, r.value)
    ensures r.Some? ==> forall j :: 0 <= j < r.value ==> !OccursAt(s, t, j)
    ensures r.None? <==> !Contains(s, t)
    decreases |s|
  {
    if |t| > |s| then None
    else if s[..|t|] == t then assert OccursAt(s, t, 0); Some(0)
    else
      assert !OccursAt(s, t, 0);
      match Find(s[1..], t)
      case None =>
        assert !Contains(s, t) by {
          forall i | OccursAt(s, t, i) ensures false {
            if i > 0 { OccursAtShift(s, t, i - 1); }
          }
        }
        None
      case Some(k) =>
        OccursAtShift(s, t, k);
        assert forall j :: 1 <= j < k + 1 ==> !OccursAt(s, t, j) by {
          forall j | 1 <= j < k + 1 ensures !OccursAt(s, t, j) { OccursAtShift(s, t, j - 1); }
        }
        Some(k + 1)
  }

  /** Position of the first occurrence of `c`, as `wcschr`/`strchr`. */
  function IndexOf(s: String, c: char): (r: Option<nat>)
    ensures r.Some? ==> r.value < |s| && s[r.value] == c && c !in s[..r.value]
    ensures r.None? <==> c !in s
  {
    if |s| == 0 then None
    else if s[0] == c then Some(0)
    else match IndexOf(s[1..], c)
      case None => None
      case Some(k) => assert s[..k + 1] == [s[0]] + s[1..][..k]; Some(k + 1)
  }

  /** The field splitter the loaders use: every separator starts a new field,
      empty fields are kept. */
  function Split(s: String, sep: char): (r: seq<String>)
    ensures |r| >= 1
    ensures forall i :: 0 <= i < |r| ==> sep !in r[i]
  {
    if |s| == 0 then [[]]
    else
      var rest := Split(s[1..], sep);
      if s[0] == sep then [[]] + rest else [[s[0]] + rest[0]] + rest[1..]
  }

  function Join(parts: seq<String>, sep: char): String
  {
    if |parts| == 0 then []
    else if |parts| == 1 then parts[0]
    else parts[0] + [sep] + Join(parts[1..], sep)
  }

  /** Splitting loses nothing: joining the fields back with the separator
      gives the original string. */
  lemma {:induction false} JoinSplit(s: String, sep: char)
    ensures Join(Split(s, sep), sep) == s
  {
    if |s| > 0 {
      JoinSplit(s[1..], sep);
      var rest := Split(s[1..], sep);
      if s[0] == sep {
        assert Split(s, sep) == [[]] + rest;
        assert Join([[]] + rest, sep) == [] + [sep] + Join(rest, sep);
      } else {
        assert Split(s, sep) == [[s[0]] + rest[0]] + rest[1..];
        if |rest| == 1 {
          assert Join(rest, sep) == rest[0];
        } else {
          assert Join(rest, sep) == rest[0] + [sep] + Join(rest[1..], sep);
          assert ([[s[0]] + rest[0]] + rest[1..])[1..] == rest[1..];
        }
      }
    }
  }

  /** Splitting a string without the separator gives it back whole. */
  lemma {:induction false} SplitNoSep(a: String, sep: char)
    requires sep !in a
    ensures Split(a, sep) == [a]
  {
    if |a| > 0 {
      SplitNoSep(a[1..], sep);
      assert a[0] in a;
      assert [a[0]] + a[1..] == a;
    }
  }

  /** Splitting stops at the first separator. */
  lemma {:induction false} SplitAtSep(a: String, sep: char, b: String)
    requires sep !in a
    ensures Split(a + [sep] + b, sep) == [a] + Split(b, sep)
  {
    if |a| == 0 {
      assert a + [sep] + b == [sep] + b;
      assert ([sep] + b)[1..] == b;
    } else {
      SplitAtSep(a[1..], sep, b);
      assert (a + [sep] + b)[1..] == a[1..] + [sep] + b;
      assert [a[0]] + a[1..] == a;
    }
  }

  /** Joining fields that hold no separator and splitting again gives the
      fields back. */
  lemma {:induction false} SplitJoin(parts: seq<String>, sep: char)
    requires |parts| >= 1
    requires forall i :: 0 <= i < |parts| ==> sep !in parts[i]
    ensures Split(Join(parts, sep), sep) == parts
  {
    if |parts| == 1 {
      SplitNoSep(parts[0], sep);
    } else {
      SplitJoin(parts[1..], sep);
      SplitAtSep(parts[0], sep, Join(parts[1..], sep));
      assert [parts[0]] + parts[1..] == parts;
    }
  }

  /** Removes trailing characters that belong to `drop`. */
  function TrimRight(s: String, drop: set<char>): (r: String)
    ensures |r| <= |s| && r == s[..|r|]
    ensures |r| > 0 ==> r[|r| - 1] !in drop
    ensures forall i :: |r| <= i < |s| ==> s[i] in drop
  {
    if |s| == 0 || s[|s| - 1] !in drop then s else TrimRight(s[..|s| - 1], drop)
  }

  /** No character of `s` is in `drop`. */
  predicate Avoids(s: String, drop: set<char>)
  {
    forall j :: 0 <= j < |s| ==> s[j] !in drop
  }

  /** Characters to be trimmed that follow the last kept one are all
      removed, and nothing before them. */
  lemma {:induction false} TrimRightOf(s: String, t: String, drop: set<char>)
    requires Avoids(s, drop)
    requires forall j :: 0 <= j < |t| ==> t[j] in drop
    ensures TrimRight(s + t, drop) == s
    decreases |t|
  {
    if |t| == 0 {
      assert s + t == s;
    } else {
      TrimRightOf(s, t[..|t| - 1], drop);
      assert (s + t)[..|s + t| - 1] == s + t[..|t| - 1];
    }
  }

  /** Joining parts that avoid `drop` with a separator outside `drop`
      gives a string that avoids `drop`. */
  lemma {:induction false} JoinAvoids(parts: seq<String>, sep: char, drop: set<char>)
    requires sep !in drop
    requires forall i, j :: 0 <= i < |parts| && 0 <= j < |parts[i]| ==> parts[i][j] !in drop
    ensures Avoids(Join(parts, sep), drop)
  {
    if |parts| > 1 {
      var tail := parts[1..];
      assert forall i :: 0 <= i < |tail| ==> tail[i] == parts[i + 1];
      JoinAvoids(tail, sep, drop);
      var joined := Join(parts, sep);
      var rest := Join(tail, sep);
      assert joined == parts[0] + [sep] + rest;
      forall j | 0 <= j < |joined|
        ensures joined[j] !in drop
      {
        if j > |parts[0]| {
          assert joined[j] == rest[j - |parts[0]| - 1];
        }
      }
    }
  }

  /** Removes leading characters that belong to `drop`. */
  function TrimLeft(s: String, drop: set<char>): (r: String)
    ensures |r| <= |s| && r == s[|s| - |r|..]
    ensures |r| > 0 ==> r[0] !in drop
    ensures forall i :: 0 <= i < |s| - |r| ==> s[i] in drop
  {
    if |s| == 0 || s[0] !in drop then s else TrimLeft(s[1..], drop)
  }

  /** `StrTrim`: both ends. */
  function Trim(s: String, drop: set<char>): (r: String)
    ensures |r| > 0 ==> r[0] !in drop && r[|r| - 1] !in drop
    ensures forall c :: c in r ==> c in s
    ensures |s| > 0 && s[0] !in drop && s[|s| - 1] !in drop ==> r == s
  {
    var t := TrimRight(s, drop);
    var r := TrimLeft(t, drop);
    assert |r| > 0 ==> r[|r| - 1] == t[|t| - 1];
    assert forall c :: c in r ==> c in t;
    r
  }

  /** `replace_all(s, from, to)`: every non-overlapping occurrence of `from`,
      scanning left to right and resuming after each replacement. */
  function ReplaceAll(s: String, from: String, to: String): String
    requires |from| > 0
    decreases |s|
  {
    if |s| < |from| then s
    else if s[..|from|] == from then to + ReplaceAll(s[|from|..], from, to)
    else [s[0]] + ReplaceAll(s[1..], from, to)
  }

  /** A string with no occurrence of `from` is left as it is. */
  lemma {:induction false} ReplaceAllAbsent(s: String, from: String, to: String)
    requires |from| > 0 && !Contains(s, from)
    ensures ReplaceAll(s, from, to) == s
    decreases |s|
  {
    if |s| >= |from| {
      assert !OccursAt(s, from, 0);
      assert !Contains(s[1..], from) by {
        forall i | OccursAt(s[1..], from, i) ensures false { OccursAtShift(s, from, i); }
      }
      ReplaceAllAbsent(s[1..], from, to);
    }
  }

  predicate IsDigit(c: char) { '0' <= c <= '9' }

  function DigitValue(c: char): nat requires IsDigit(c) { c as nat - '0' as nat }

  /** White space as `iswspace` sees it in the C locale. */
  predicate IsSpace(c: char)
  {
    c == ' ' || c == '\t' || c == '\n' || c == '\U{B}' || c == '\U{C}' || c == '\r'
  }

  function HexDigitValue(c: char): Option<nat>
  {
    if '0' <= c <= '9' then Some(c as nat - '0' as nat)
    else if 'a' <= c <= 'f' then Some(c as nat - 'a' as nat + 10)
    else if 'A' <= c <= 'F' then Some(c as nat - 'A' as nat + 10)
    else None
  }

  function DigitIn(c: char, base: nat): Option<nat>
  {
    match HexDigitValue(c)
    case Some(d) => if d < base then Some(d) else None
    case None => None
  }

  /** Number of leading characters of `s` that are digits in `base`. */
  function DigitRun(s: String, base: nat): (n: nat)
    ensures n <= |s|
    ensures forall i :: 0 <= i < n ==> DigitIn(s[i], base).Some?
    ensures n < |s| ==> DigitIn(s[n], base).None?
  {
    if |s| > 0 && DigitIn(s[0], base).Some? then 1 + DigitRun(s[1..], base) else 0
  }

  /** Value of a string of digits, most significant first. */
  function DigitsValue(s: String, base: nat): nat
    requires forall i :: 0 <= i < |s| ==> DigitIn(s[i], base).Some?
  {
    if |s| == 0 then 0
    else
      var init := s[..|s| - 1];
      assert forall i :: 0 <= i < |init| ==> init[i] == s[i];
      var high := DigitsValue(init, base);
      assert high * base >= 0;
      high * base + DigitIn(s[|s| - 1], base).value
  }

  /** Every character is a decimal digit. */
  predicate AllDigits(s: String)
  {
    forall i :: 0 <= i < |s| ==> DigitIn(s[i], 10).Some?
  }

  lemma {:induction false} DigitRunOfDigits(s: String)
    requires AllDigits(s)
    ensures DigitRun(s, 10) == |s|
  {
    if |s| > 0 {
      assert AllDigits(s[1..]) by {
        forall i | 0 <= i < |s| - 1
          ensures DigitIn(s[1..][i], 10).Some?
        {
          assert s[1..][i] == s[i + 1];
        }
      }
      DigitRunOfDigits(s[1..]);
    }
  }

  const ULONG_MAX: nat := 0xFFFF_FFFF

  function SkipSpaces(s: String): (r: String)
    ensures |r| <= |s| && r == s[|s| - |r|..]
  {
    if |s| > 0 && IsSpace(s[0]) then SkipSpaces(s[1..]) else s
  }

  /** Optional sign handling shared by `wcstoul` and `_wtoi`: whether a
      minus sign was seen, and what follows the sign. */
  function SignAndRest(s: String): (bool, String)
  {
    var t := SkipSpaces(s);
    if |t| > 0 && (t[0] == '-' || t[0] == '+') then (t[0] == '-', t[1..]) else (false, t)
  }

  /** Value of the longest leading run of `base` digits, and its length. */
  function LeadingNumber(w: String, base: nat): (nat, nat)
  {
    var n := DigitRun(w, base);
    (n, DigitsValue(w[..n], base))
  }

  function StripHexPrefix(u: String): String
  {
    if |u| >= 3 && u[0] == '0' && (u[1] == 'x' || u[1] == 'X') && DigitIn(u[2], 16).Some?
    then u[2..] else u
  }

  /** `wcstoul(s, NULL, base)` with a 32-bit `unsigned long` (base 10 or 16):
      leading white space, an optional sign, for base 16 an optional `0x`,
      then the longest run of digits; no digits gives 0, a value that does
      not fit gives ULONG_MAX, and a minus sign negates modulo 2^32. */
  function Wcstoul(s: String, base: nat): (r: nat)
    requires base == 10 || base == 16
    ensures r <= ULONG_MAX
  {
    var (neg, u) := SignAndRest(s);
    var w := if base == 16 then StripHexPrefix(u) else u;
    var (n, v) := LeadingNumber(w, base);
    if n == 0 then 0
    else if v > ULONG_MAX then ULONG_MAX
    else if neg then (0x1_0000_0000 - v) % 0x1_0000_0000
    else v
  }

  /** `_wtoi(s)`: leading white space, an optional sign, then decimal digits;
      the value saturates at the bounds of a 32-bit `int`. */
  function Wtoi(s: String): (r: int)
    ensures -0x8000_0000 <= r <= 0x7FFF_FFFF
  {
    var (neg, u) := SignAndRest(s);
    var (_, v) := LeadingNumber(u, 10);
    if neg then (if v > 0x8000_0000 then -0x8000_0000 else -(v as int))
    else (if v > 0x7FFF_FFFF then 0x7FFF_FFFF else v)
  }

  /** `_wtoi` reads a string of decimal digits as its value. */
  lemma WtoiOfDigits(s: String)
    requires |s| > 0 && AllDigits(s) && DigitsValue(s, 10) <= 0x7FFF_FFFF
    ensures Wtoi(s) == DigitsValue(s, 10)
  {
    DigitRunOfDigits(s);
    assert s[..|s|] == s;
    assert DigitIn(s[0], 10).Some?;
    assert !IsSpace(s[0]) && s[0] != '-' && s[0] != '+';
    assert SignAndRest(s) == (false, s);
  }

  /** Truncation of an integer to a 16-bit WORD. */
  function ToWord(x: int): (r: nat)
    ensures r < 0x1_0000
    ensures 0 <= x < 0x1_0000 ==> r == x
  {
    x % 0x1_0000
  }
}
