/** Postal-code conversion: normalising what the user typed into a
    seven-digit code, and looking the code up in the postal data file,
    one `code<TAB>address` line at a time. */
module Postal {
  import opened Wrappers
  import opened Text

  /** `mz_are_all_chars_numeric`, taken as: every character is an ASCII
      digit (the text has been mapped to half width first). */
  predicate AllNumeric(s: String)
  {
    forall i :: 0 <= i < |s| ==> IsDigit(s[i])
  }

  /** The code a half-width string stands for: a hyphen at index 3 of a
      string of at least five characters is dropped; what remains must be
      digits, and three or five of them are a shortened seven-digit code
      padded with zeros. Anything else stands for no code (""). */
  function PostalCodeOf(half: String, isHyphen: char -> bool): (r: String)
  {
    var t := if |half| >= 5 && isHyphen(half[3]) then half[..3] + half[4..] else half;
    if !AllNumeric(t) then []
    else if |t| == 3 then t + "0000"
    else if |t| == 5 then t + "00"
    else if |t| == 7 then t
    else []
  }

  /** `mz_normalize_postal_code`, with the half-width mapping `toHalf` and
      `mz_is_hyphen` as parameters: the hyphen is erased, the digits
      checked, a three-digit string padded to five and a five-digit one to
      seven, and anything not seven characters long then rejected. */
  method NormalizePostalCode(str: String, toHalf: String -> String, isHyphen: char -> bool)
    returns (ret: String)
    ensures ret == PostalCodeOf(toHalf(str), isHyphen)
    ensures ret == [] || (|ret| == 7 && AllNumeric(ret))
  {
    ret := toHalf(str);
    if |ret| >= 5 && isHyphen(ret[3]) {
      ret := ret[..3] + ret[4..];
    }
    if !AllNumeric(ret) {
      PostalCodeShape(toHalf(str), isHyphen);
      return [];
    }
    ghost var t := ret;
    if |ret| == 3 {
      ret := ret + "00";
    }
    if |ret| == 5 {
      ret := ret + "00";
    }
    if |ret| != 7 {
      PostalCodeShape(toHalf(str), isHyphen);
      return [];
    }
    assert |t| == 3 ==> ret == t + "0000";
    PostalCodeShape(toHalf(str), isHyphen);
  }

  /** A normalised code is absent or exactly seven digits. */
  lemma PostalCodeShape(half: String, isHyphen: char -> bool)
    ensures PostalCodeOf(half, isHyphen) == [] || (|PostalCodeOf(half, isHyphen)| == 7 && AllNumeric(PostalCodeOf(half, isHyphen)))
  {
    var t := if |half| >= 5 && isHyphen(half[3]) then half[..3] + half[4..] else half;
    if AllNumeric(t) && |t| in {3, 5} {
      var r := PostalCodeOf(half, isHyphen);
      forall i | 0 <= i < |r| ensures IsDigit(r[i]) {
        if i >= |t| {
          assert r[i] == '0';
        }
      }
    }
  }

  /** A hyphen is only removed from a string of five characters or more:
      a shorter string with a hyphen at index 3 is not numeric and gives
      no code. */
  lemma ShortHyphenRejected(half: String, isHyphen: char -> bool)
    requires |half| == 4 && isHyphen(half[3]) && !IsDigit(half[3])
    ensures PostalCodeOf(half, isHyphen) == []
  {
    assert !IsDigit(half[3]);
  }

  /** Any non-numeric remainder gives no code. */
  lemma NonNumericRejected(half: String, isHyphen: char -> bool, i: nat)
    requires i < |half| && i != 3 && !IsDigit(half[i])
    ensures PostalCodeOf(half, isHyphen) == []
  {
    var t := if |half| >= 5 && isHyphen(half[3]) then half[..3] + half[4..] else half;
    if i < 3 || t == half {
      assert t[i] == half[i];
    } else {
      assert t[i - 1] == half[i];
    }
  }

  /** A three-digit code is padded by both steps, to four zeros; a
      five-digit one gets two. */
  lemma ShortFormsPadded(d: String, isHyphen: char -> bool)
    requires AllNumeric(d) && (|d| == 3 || |d| == 5)
    requires forall c :: IsDigit(c) ==> !isHyphen(c)
    ensures PostalCodeOf(d, isHyphen) == d + (if |d| == 3 then "0000" else "00")
  {
    if |d| == 5 {
      assert IsDigit(d[3]);
    }
  }

  /** Normalising a normalised code gives it back: seven digits pass
      through unchanged, provided the half-width mapping leaves them alone
      and no digit counts as a hyphen. */
  lemma NormalizeIdempotent(half: String, toHalf: String -> String, isHyphen: char -> bool)
    requires PostalCodeOf(half, isHyphen) != []
    requires toHalf(PostalCodeOf(half, isHyphen)) == PostalCodeOf(half, isHyphen)
    requires forall c :: IsDigit(c) ==> !isHyphen(c)
    ensures PostalCodeOf(toHalf(PostalCodeOf(half, isHyphen)), isHyphen) == PostalCodeOf(half, isHyphen)
  {
    var r := PostalCodeOf(half, isHyphen);
    PostalCodeShape(half, isHyphen);
    assert IsDigit(r[3]);
  }

  // ---- The postal data file --------------------------------------------------

  /** The characters `StrTrimA(_, " \r\n")` removes, and those of
      `StrTrimA(_, " \t\r\n")`. */
  const LINE_BLANKS: set<char> := {' ', '\r', '\n'}
  const FIELD_BLANKS: set<char> := {' ', '\t', '\r', '\n'}

  /** A data line with its ends trimmed and anything from the first ';'
      on cut off and trimmed again. */
  function Uncommented(line: String): (s: String)
    ensures ';' !in s
  {
    var s1 := Trim(line, LINE_BLANKS);
    match IndexOf(s1, ';')
    case None => s1
    case Some(p) => Trim(s1[..p], LINE_BLANKS)
  }

  /** The address a data line gives for `key`: the line must hold a tab;
      the field before the first tab, trimmed, must equal `key`, and the
      field after it, trimmed, is the address, which must not be empty. */
  function LineValue(line: String, key: String): (r: Option<String>)
    ensures r.Some? ==> r.value != [] && ';' !in r.value
    ensures r.Some? ==> r.value[0] !in FIELD_BLANKS && r.value[|r.value| - 1] !in FIELD_BLANKS
    ensures r.Some? ==> '\t' in Uncommented(line)
  {
    FieldValue(Uncommented(line), key)
  }

  /** The address an uncommented line gives for `key`. */
  function FieldValue(s: String, key: String): (r: Option<String>)
    ensures r.Some? ==> r.value != [] && (forall c :: c in r.value ==> c in s) && '\t' in s
    ensures r.Some? ==> r.value[0] !in FIELD_BLANKS && r.value[|r.value| - 1] !in FIELD_BLANKS
  {
    match IndexOf(s, '\t')
    case None => None
    case Some(p) =>
      var k := Trim(s[..p], FIELD_BLANKS);
      var v := Trim(s[p + 1..], FIELD_BLANKS);
      if k != key || v == [] then None else Some(v)
  }

  /** A line matches only the one key it names. */
  lemma LineMatchesOneKey(line: String, key1: String, key2: String)
    requires LineValue(line, key1).Some? && LineValue(line, key2).Some?
    ensures key1 == key2
  {
  }

  /** The line the data file holds for an entry is read back: a key
      without blanks, ';' or tabs, then a tab, then an address without
      ';' and without blanks at its ends, optionally followed by a
      comment. */
  lemma EntryLineRead(key: String, value: String, comment: String)
    requires key != [] && value != []
    requires forall i :: 0 <= i < |key| ==> key[i] !in FIELD_BLANKS && key[i] != ';'
    requires ';' !in value && value[0] !in FIELD_BLANKS && value[|value| - 1] !in FIELD_BLANKS
    ensures LineValue((key + "\t" + value) + (";" + comment), key) == Some(value)
  {
    var entry := key + "\t" + value;
    assert key[0] in key;
    assert entry[0] == key[0] && entry[|entry| - 1] == value[|value| - 1];
    assert ';' !in entry by {
      forall i | 0 <= i < |entry| ensures entry[i] != ';' {
        if i < |key| { assert entry[i] == key[i]; }
        else if i > |key| { assert entry[i] == value[i - |key| - 1]; assert value[i - |key| - 1] in value; }
      }
    }
    UncommentedEntry(entry, comment);
    EntryFields(key, value);
  }

  /** A line that is an entry and a comment reads as the entry. */
  lemma UncommentedEntry(entry: String, comment: String)
    requires entry != [] && entry[0] !in FIELD_BLANKS && entry[|entry| - 1] !in FIELD_BLANKS && ';' !in entry
    ensures Uncommented(entry + (";" + comment)) == entry
  {
    var b := ";" + comment;
    assert b[0] == ';';
    TrimPrefix(entry, b, LINE_BLANKS);
    var s1 := Trim(entry + b, LINE_BLANKS);
    assert s1[..|entry| + 1] == entry + [';'];
    assert s1[..|entry|] == s1[..|entry| + 1][..|entry|];
    IndexOfAt(s1, ';', |entry|);
  }

  /** The first occurrence of `c` is where it occurs with none before. */
  lemma {:induction false} IndexOfAt(s: String, c: char, k: nat)
    requires k < |s| && s[k] == c && c !in s[..k]
    ensures IndexOf(s, c) == Some(k)
  {
    if k > 0 {
      assert s[0] == s[..k][0];
      assert s[1..][..k - 1] == s[1..k];
      assert forall x :: x in s[1..k] ==> x in s[..k];
      IndexOfAt(s[1..], c, k - 1);
    }
  }

  /** The fields of an entry are its key and its address. */
  lemma EntryFields(key: String, value: String)
    requires key != [] && value != []
    requires forall i :: 0 <= i < |key| ==> key[i] !in FIELD_BLANKS
    requires value[0] !in FIELD_BLANKS && value[|value| - 1] !in FIELD_BLANKS
    ensures FieldValue(key + "\t" + value, key) == Some(value)
  {
    var entry := key + "\t" + value;
    assert entry[..|key|] == key;
    assert entry[|key| + 1..] == value;
    assert '\t' !in key by {
      assert '\t' in FIELD_BLANKS;
    }
    IndexOfAt(entry, '\t', |key|);
    assert key[0] !in FIELD_BLANKS && key[|key| - 1] !in FIELD_BLANKS;
    assert Trim(key, FIELD_BLANKS) == key;
    assert Trim(value, FIELD_BLANKS) == value;
  }

  /** Trimming a string that starts with a non-blank and has a non-blank
      `a` part keeps the whole of `a` as its start. */
  lemma TrimPrefix(a: String, b: String, drop: set<char>)
    requires a != [] && a[0] !in drop && a[|a| - 1] !in drop && b != [] && b[0] !in drop
    ensures |Trim(a + b, drop)| > |a| && Trim(a + b, drop)[..|a| + 1] == a + [b[0]]
  {
    var s := a + b;
    var r := TrimRight(s, drop);
    assert s[|a|] == b[0] && b[0] !in drop;
    assert r[..|a| + 1] == s[..|a| + 1] == a + [b[0]];
    assert r[0] == a[0];
  }

  /** `r` is the first present value of `xs`, or None when none is. */
  predicate FirstPresent<T(==)>(xs: seq<Option<T>>, r: Option<T>)
  {
    (r.None? <==> forall i :: 0 <= i < |xs| ==> xs[i].None?)
    && (r.Some? ==> exists i :: 0 <= i < |xs| && xs[i] == r && forall j :: 0 <= j < i ==> xs[j].None?)
  }

  /** The first present value of a sequence. */
  function FirstSome<T(==)>(xs: seq<Option<T>>): (r: Option<T>)
    ensures FirstPresent(xs, r)
  {
    if |xs| == 0 then None
    else if xs[0].Some? then xs[0]
    else
      var r := FirstSome(xs[1..]);
      FirstPresentBehind(xs, r);
      r
  }

  /** An absent value in front of the others changes nothing. */
  lemma FirstPresentBehind<T>(xs: seq<Option<T>>, r: Option<T>)
    requires |xs| > 0 && xs[0].None? && FirstPresent(xs[1..], r)
    ensures FirstPresent(xs, r)
  {
    var rest := xs[1..];
    if r.None? {
      forall i | 0 <= i < |xs| ensures xs[i].None? {
        if i > 0 { assert xs[i] == rest[i - 1]; }
      }
    } else {
      var i :| 0 <= i < |rest| && rest[i] == r && forall j :: 0 <= j < i ==> rest[j].None?;
      assert xs[i + 1] == rest[i];
      forall j | 0 <= j < i + 1 ensures xs[j].None? {
        if j > 0 { assert xs[j] == rest[j - 1]; }
      }
    }
  }

  /** What each line of the data file gives for `key`. */
  function LineValues(lines: seq<String>, key: String): (vs: seq<Option<String>>)
    ensures |vs| == |lines| && forall i :: 0 <= i < |lines| ==> vs[i] == LineValue(lines[i], key)
  {
    seq(|lines|, i requires 0 <= i < |lines| => LineValue(lines[i], key))
  }

  /** `MAX_PATH`, the size of the line buffer. */
  const MAX_PATH: nat := 260

  /** How much one `fgets(szLine, MAX_PATH, fin)` reads from what is left
      of the file: through the first newline, but never more than
      `MAX_PATH - 1` characters. */
  function PieceLength(rest: String): (n: nat)
    requires |rest| > 0
    ensures 0 < n <= |rest| && n < MAX_PATH
    ensures '\n' !in rest[..n - 1]
    ensures n < |rest| && n < MAX_PATH - 1 ==> rest[n - 1] == '\n'
  {
    var cap := if |rest| < MAX_PATH - 1 then |rest| else MAX_PATH - 1;
    match IndexOf(rest[..cap], '\n')
    case Some(k) => assert rest[..cap][..k] == rest[..k]; k + 1
    case None => assert rest[..cap - 1] <= rest[..cap]; cap
  }

  /** The lines successive `fgets` calls read from the file's content, up
      to the end of the file. */
  function FgetsLines(content: String): (ls: seq<String>)
    ensures forall i :: 0 <= i < |ls| ==> 0 < |ls[i]| < MAX_PATH
    ensures Flatten(ls) == content
    decreases |content|
  {
    if |content| == 0 then []
    else
      var n := PieceLength(content);
      var ls := [content[..n]] + FgetsLines(content[n..]);
      assert ls[1..] == FgetsLines(content[n..]);
      ls
  }

  /** The lines joined again. */
  function Flatten(ls: seq<String>): String
  {
    if |ls| == 0 then [] else ls[0] + Flatten(ls[1..])
  }

  /** Each line followed by a newline. */
  function Terminated(ls: seq<String>): String
  {
    if |ls| == 0 then [] else ls[0] + "\n" + Terminated(ls[1..])
  }

  /** A file whose lines are all shorter than `MAX_PATH - 1` is read line
      by line, each with its newline. */
  lemma {:induction false} FgetsReadsShortLines(ls: seq<String>)
    requires forall i :: 0 <= i < |ls| ==> '\n' !in ls[i] && |ls[i]| < MAX_PATH - 1
    ensures |FgetsLines(Terminated(ls))| == |ls|
    ensures forall i :: 0 <= i < |ls| ==> FgetsLines(Terminated(ls))[i] == ls[i] + "\n"
  {
    if |ls| > 0 {
      var c := Terminated(ls);
      var l := ls[0] + "\n";
      assert c == l + Terminated(ls[1..]);
      var n := PieceLength(c);
      assert c[..|l|] == l && c[|l| - 1] == '\n';
      assert n == |l|;
      assert c[n..] == Terminated(ls[1..]);
      FgetsReadsShortLines(ls[1..]);
    }
  }

  /** A line of `MAX_PATH - 1` characters or more is split: its first
      `MAX_PATH - 1` characters are read as a line of their own, and the
      rest as the next. */
  lemma LongLineSplit(line: String, more: String)
    requires '\n' !in line && |line| >= MAX_PATH - 1
    ensures FgetsLines(line + "\n" + more)[0] == line[..MAX_PATH - 1]
    ensures |FgetsLines(line + "\n" + more)| >= 2
  {
    var c := line + "\n" + more;
    assert c[..MAX_PATH - 1] == line[..MAX_PATH - 1];
    assert '\n' !in c[..MAX_PATH - 1];
  }

  /** `mz_convert_postal_code`: nothing when the postal dictionary is
      disabled, has no configured path or does not open; otherwise the
      file is read with `fgets` into a `MAX_PATH` buffer until a line
      gives an address for the code, which `decode` turns from UTF-8 into
      text. The configuration values and the file's content are
      parameters. */
  method ConvertPostalCode(code: String, disabled: bool, path: Option<String>,
                           open: String -> Option<String>, decode: String -> String)
    returns (ret: String)
    requires |code| == 7 && AllNumeric(code)
    ensures disabled || path.None? || open(path.value).None? ==> ret == []
    ensures !disabled && path.Some? && open(path.value).Some? ==>
              ret == match FirstSome(LineValues(FgetsLines(open(path.value).value), code))
                     case None => []
                     case Some(v) => decode(v)
  {
    ret := [];
    if disabled || path.None? {
      return;
    }
    var file := open(path.value);
    if file.None? {
      return;
    }
    ghost var vs := LineValues(FgetsLines(file.value), code);
    var rest := file.value;
    while |rest| > 0
      invariant ret == []
      invariant FirstSome(vs) == FirstSome(LineValues(FgetsLines(rest), code))
      decreases |rest|
    {
      var n := PieceLength(rest);
      var line := rest[..n];
      var value := LineValue(line, code);
      ghost var ws := LineValues(FgetsLines(rest), code);
      assert ws[0] == value;
      if value.Some? {
        ret := decode(value.value);
        return;
      }
      assert ws[1..] == LineValues(FgetsLines(rest[n..]), code);
      rest := rest[n..];
    }
  }
}
