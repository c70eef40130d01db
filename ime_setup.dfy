/** The two decisions of the setup program (`ime_setup.cpp`): taking the IME
    out of the user's `Keyboard Layout\Preload` list on uninstall, and the
    command-line dispatch. The registry is a parameter: `values[j]` is the
    data of the value named `j + 1`, or `None` when reading it fails; names
    past the end of `values` cannot be read. */
module ImeSetup {
  import opened Text
  import opened Wrappers

  /** The size of the `ahKLs` array. */
  const PRELOAD_SLOTS: nat := 128

  /** A Preload value read into a 32-character buffer and parsed as hex. */
  function LayoutOf(data: String): nat
  {
    Wcstoul(CStr(if |data| < 32 then data else data[..31]), 16)
  }

  /** The data of the value for slot `j` (named `j + 1`). */
  function ValueAt(values: seq<Option<String>>, j: nat): Option<String>
  {
    if j < |values| then values[j] else None
  }

  /** The number of leading values that can be read. */
  function CountReadable(s: seq<Option<String>>): (n: nat)
    ensures n <= |s|
    ensures forall j :: 0 <= j < n ==> s[j].Some?
    ensures n < |s| ==> s[n].None?
  {
    if |s| == 0 || s[0].None? then 0 else CountReadable(s[1..]) + 1
  }

  /** How many values the read loop takes: it stops at the first value it
      cannot read, or when the array is full. */
  function ReadCount(values: seq<Option<String>>): (n: nat)
    ensures n <= PRELOAD_SLOTS
    ensures forall j :: 0 <= j < n ==> ValueAt(values, j).Some?
    ensures n < PRELOAD_SLOTS ==> ValueAt(values, n).None?
  {
    var s := if |values| <= PRELOAD_SLOTS then values else values[..PRELOAD_SLOTS];
    var n := CountReadable(s);
    assert forall j :: 0 <= j < n ==> ValueAt(values, j) == s[j];
    n
  }

  /** The read loop of `DoUnsetRegistry1`: a zeroed array of 128 layouts,
      filled from value "1" on until a value cannot be read, each value
      turned into a layout by `parse`. */
  method ReadPreload(values: seq<Option<String>>, parse: String -> nat) returns (a: array<nat>)
    ensures fresh(a) && a.Length == PRELOAD_SLOTS
    ensures forall j :: 0 <= j < a.Length ==>
      a[j] == if j < ReadCount(values) then parse(ValueAt(values, j).value) else 0
  {
    a := new nat[PRELOAD_SLOTS](_ => 0);
    var i := 0;
    while i < PRELOAD_SLOTS
      invariant 0 <= i <= ReadCount(values)
      invariant forall j :: 0 <= j < a.Length ==> a[j] == if j < i then parse(ValueAt(values, j).value) else 0
      decreases PRELOAD_SLOTS - i
    {
      var data := ValueAt(values, i);
      if data.None? {
        break;
      }
      a[i] := parse(data.value);
      i := i + 1;
    }
  }

  /** Position of the first zero: where the zero-terminated scans stop. */
  function FirstZero(s: seq<nat>): (n: nat)
    requires 0 in s
    ensures n < |s| && s[n] == 0
    ensures forall j :: 0 <= j < n ==> s[j] != 0
  {
    if s[0] == 0 then 0 else FirstZero(s[1..]) + 1
  }

  /** `s` with every entry equal to `h` removed, the rest in order. */
  function Without(s: seq<nat>, h: nat): (r: seq<nat>)
    ensures |r| <= |s|
    decreases |s|
  {
    if |s| == 0 then []
    else Without(s[..|s| - 1], h) + (if s[|s| - 1] == h then [] else [s[|s| - 1]])
  }

  /** Removal works piece by piece, so the surviving entries keep their
      relative order. */
  lemma {:induction false} WithoutAppend(a: seq<nat>, b: seq<nat>, h: nat)
    ensures Without(a + b, h) == Without(a, h) + Without(b, h)
    decreases |b|
  {
    if |b| == 0 {
      assert a + b == a;
    } else {
      var b' := b[..|b| - 1];
      assert (a + b)[..|a + b| - 1] == a + b';
      WithoutAppend(a, b', h);
    }
  }

  /** No entry equal to `h` is left, and every other entry is kept as many
      times as it occurred. */
  lemma {:induction false} WithoutCounts(s: seq<nat>, h: nat)
    ensures multiset(Without(s, h))[h] == 0
    ensures forall x :: x != h ==> multiset(Without(s, h))[x] == multiset(s)[x]
    decreases |s|
  {
    if |s| > 0 {
      var s', last := s[..|s| - 1], s[|s| - 1];
      WithoutCounts(s', h);
      assert s == s' + [last];
      assert multiset(s) == multiset(s') + multiset{last};
      if last == h {
        assert multiset(Without(s, h)) == multiset(Without(s', h));
      } else {
        assert multiset(Without(s, h)) == multiset(Without(s', h)) + multiset{last};
      }
    }
  }

  /** A list without `h` is left as it is. */
  lemma {:induction false} WithoutAbsent(s: seq<nat>, h: nat)
    requires h !in s
    ensures Without(s, h) == s
    decreases |s|
  {
    if |s| > 0 {
      var s' := s[..|s| - 1];
      assert forall x :: x in s' ==> x in s;
      WithoutAbsent(s', h);
    }
  }

  /** The two-index loop of `DoUnsetRegistry1` over the zero-terminated
      array: every entry equal to `hKL` is dropped, the others move down in
      order, and a zero is written at the new length. Nothing past the new
      terminator is written. */
  method RemoveLayout(a: array<nat>, hKL: nat) returns (k: nat)
    requires 0 in a[..]
    modifies a
    ensures k <= FirstZero(old(a[..])) && k < a.Length
    ensures a[..k] == Without(old(a[..])[..FirstZero(old(a[..]))], hKL)
    ensures a[k] == 0
    ensures forall p :: k < p < a.Length ==> a[p] == old(a[p])
  {
    ghost var s := a[..];
    ghost var n := FirstZero(s);
    k := 0;
    var i := 0;
    while a[i] != 0
      invariant 0 <= k <= i <= n
      invariant a[..k] == Without(s[..i], hKL)
      invariant forall p :: i <= p < a.Length ==> a[p] == s[p]
      invariant forall p :: k < p < a.Length ==> a[p] == s[p]
      decreases n - i
    {
      assert s[..i + 1] == s[..i] + [s[i]];
      a[k] := a[i];
      if a[i] != hKL {
        k := k + 1;
      }
      i := i + 1;
    }
    a[k] := 0;
  }

  /** The layouts the read loop collects, up to the first zero. */
  function ReadLayouts(values: seq<Option<String>>, parse: String -> nat): (r: seq<nat>)
    ensures |r| <= ReadCount(values)
    ensures forall j :: 0 <= j < |r| ==> r[j] == parse(ValueAt(values, j).value) && r[j] != 0
  {
    var all := seq(ReadCount(values), j requires 0 <= j < ReadCount(values) => parse(ValueAt(values, j).value));
    if 0 in all then all[..FirstZero(all)] else all
  }

  /** The Preload list `DoUnsetRegistry1` writes back: the layouts it read,
      without the IME's own. With all 128 values present the zero-terminated
      scans would run off the array, so fewer are required. */
  method UnsetPreload(values: seq<Option<String>>, hKL: nat) returns (written: seq<nat>)
    requires ReadCount(values) < PRELOAD_SLOTS
    ensures written == Without(ReadLayouts(values, LayoutOf), hKL)
  {
    written := Compact(values, LayoutOf, hKL);
  }

  /** The read and the compaction, for any way of parsing a value. */
  method Compact(values: seq<Option<String>>, parse: String -> nat, hKL: nat) returns (written: seq<nat>)
    requires ReadCount(values) < PRELOAD_SLOTS
    ensures written == Without(ReadLayouts(values, parse), hKL)
  {
    var a := ReadPreload(values, parse);
    ghost var all := seq(ReadCount(values), j requires 0 <= j < ReadCount(values) => parse(ValueAt(values, j).value));
    assert a[..ReadCount(values)] == all;
    assert a[ReadCount(values)] == 0;
    assert 0 in a[..];
    assert a[..FirstZero(a[..])] == ReadLayouts(values, parse) by {
      var n := FirstZero(a[..]);
      if 0 in all {
        var m := FirstZero(all);
        assert a[m] == 0;
        assert n == m;
      } else {
        assert n == ReadCount(values);
      }
    }
    var k := RemoveLayout(a, hKL);
    written := a[..k];
  }

  // ---- DoMain ------------------------------------------------------------------

  /** `lstrcmpiW(a, b) == 0` for the ASCII letters the options use. */
  function FoldCase(c: char): char
  {
    if 'A' <= c <= 'Z' then (c as int + 32) as char else c
  }

  predicate SameIgnoringCase(a: String, b: String)
  {
    |a| == |b| && forall i :: 0 <= i < |a| ==> FoldCase(a[i]) == FoldCase(b[i])
  }

  /** What the setup program does. */
  datatype Action = RunInstall | RunUninstall | DoNothing

  /** The button the setup dialog was closed with (`rad1`, `rad2`, or
      cancel). */
  datatype DialogChoice = InstallChosen | UninstallChosen | DialogCancelled

  /** `DoMain`: with exactly one argument, "/i" installs and "/u"
      uninstalls, returning that step's result, and any other argument does
      nothing and returns 0; with any other number of arguments the dialog
      decides, and the exit code is 0. `argv` includes the program name. */
  function DoMain(argv: seq<String>, dialog: DialogChoice, installResult: int, uninstallResult: int): (r: (Action, int))
    ensures r.0 == RunInstall <==>
      (|argv| == 2 && SameIgnoringCase(argv[1], "/i")) || (|argv| != 2 && dialog == InstallChosen)
    ensures r.0 == RunUninstall <==>
      (|argv| == 2 && !SameIgnoringCase(argv[1], "/i") && SameIgnoringCase(argv[1], "/u"))
      || (|argv| != 2 && dialog == UninstallChosen)
    ensures r.1 != 0 ==> |argv| == 2
    ensures |argv| == 2 && r.0 == RunInstall ==> r.1 == installResult
    ensures |argv| == 2 && r.0 == RunUninstall ==> r.1 == uninstallResult
  {
    if |argv| == 2 then
      if SameIgnoringCase(argv[1], "/i") then (RunInstall, installResult)
      else if SameIgnoringCase(argv[1], "/u") then (RunUninstall, uninstallResult)
      else (DoNothing, 0)
    else
      match dialog
      case InstallChosen => (RunInstall, 0)
      case UninstallChosen => (RunUninstall, 0)
      case DialogCancelled => (DoNothing, 0)
  }

  /** The options are case-insensitive: "/I" and "/U" work as well, and
      the two options never select the same step. */
  lemma OptionsIgnoreCase(dialog: DialogChoice, i: int, u: int)
    ensures DoMain(["setup", "/I"], dialog, i, u) == (RunInstall, i)
    ensures DoMain(["setup", "/U"], dialog, i, u) == (RunUninstall, u)
    ensures DoMain(["setup", "/x"], dialog, i, u) == (DoNothing, 0)
  {
    assert FoldCase('I') == 'i';
    assert FoldCase('U') == 'u';
    assert !SameIgnoringCase("/U", "/i") by {
      assert FoldCase("/U"[1]) != FoldCase("/i"[1]);
    }
    assert !SameIgnoringCase("/x", "/i") by {
      assert FoldCase("/x"[1]) != FoldCase("/i"[1]);
    }
    assert !SameIgnoringCase("/x", "/u") by {
      assert FoldCase("/x"[1]) != FoldCase("/u"[1]);
    }
  }
}
