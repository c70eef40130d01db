/** The logical composition string of `comp_str.h`. Its attribute and
    clause arrays are narrow strings, so every value stored in them is a
    signed `char`: a clause offset of 128 or more comes back negative, and
    sign-extended when it is read into a `DWORD`. */
module CompStrLog {
  import opened Text

  /** A `char` of the narrow strings (signed, as the compiler the source
      targets has it). */
  type SChar = x: int | -0x80 <= x < 0x80

  const DWORD_LIMIT: nat := 0x1_0000_0000

  /** `(char)n`: the low byte of `n`, read as signed. */
  function ToChar(n: nat): (c: SChar)
    ensures (n - c) % 0x100 == 0
    ensures n < 0x80 ==> c == n
  {
    var b := n % 0x100;
    if b < 0x80 then b else b - 0x100
  }

  /** A `char` read into a `DWORD`: sign-extended to 32 bits. */
  function ToDword(c: SChar): (d: nat)
    ensures d < DWORD_LIMIT && (d - c) % DWORD_LIMIT == 0
    ensures 0 <= c ==> d == c
  {
    if c < 0 then c + DWORD_LIMIT else c
  }

  /** An offset stored in a clause array reads back as itself only below
      128; from 128 to 255 it reads back as a value near 2^32. */
  lemma ClauseOffsetReadBack(n: nat)
    ensures n < 0x80 ==> ToDword(ToChar(n)) == n
    ensures 0x80 <= n < 0x100 ==> ToDword(ToChar(n)) == n + DWORD_LIMIT - 0x100
  {
  }

  /** `ATTR_INPUT`. */
  const ATTR_INPUT: SChar := 0
  /** `ATTR_TARGET_CONVERTED`. */
  const ATTR_TARGET_CONVERTED: SChar := 1

  /** `LogCompStr`. */
  datatype LogCompStr = LogCompStr(
    cursorPos: nat, deltaStart: nat,
    compReadAttr: seq<SChar>, compReadClause: seq<SChar>, compReadStr: String,
    compAttr: seq<SChar>, compClause: seq<SChar>, compStr: String,
    resultReadClause: seq<SChar>, resultReadStr: String,
    resultClause: seq<SChar>, resultStr: String)

  /** Every composition field is empty and the cursor and delta start are 0. */
  predicate CompCleared(log: LogCompStr)
  {
    log.cursorPos == 0 && log.deltaStart == 0
    && log.compReadAttr == [] && log.compReadClause == [] && log.compReadStr == []
    && log.compAttr == [] && log.compClause == [] && log.compStr == []
  }

  /** The `LogCompStr` constructor: the two numbers are zeroed and every
      string starts empty. */
  function NewLogCompStr(): (log: LogCompStr)
    ensures CompCleared(log)
    ensures log.resultReadClause == [] && log.resultReadStr == [] && log.resultClause == [] && log.resultStr == []
  {
    LogCompStr(0, 0, [], [], [], [], [], [], [], [], [], [])
  }

  /** `std::string::resize(n, fill)`. */
  function Resized(s: seq<SChar>, n: nat, fill: SChar): (r: seq<SChar>)
    ensures |r| == n
    ensures forall k :: 0 <= k < n && k < |s| ==> r[k] == s[k]
    ensures forall k :: |s| <= k < n ==> r[k] == fill
  {
    if n <= |s| then s[..n] else s + seq(n - |s|, _ => fill)
  }

  /** The single-clause array `[0, len]` after `resize(2)` and the two
      stores: whatever the array held before, it is two entries, the second
      one `len` narrowed to a `char`. */
  function OneClause(clause: seq<SChar>, len: nat): (r: seq<SChar>)
    ensures r == [0, ToChar(len)]
  {
    Resized(clause, 2, 0)[0 := 0][1 := ToChar(len)]
  }

  /** `SetClause`: writes 0 and `num` to the two `DWORD`s at `off`. */
  method SetClause(a: array<nat>, off: nat, num: nat)
    requires off + 1 < a.Length && num < DWORD_LIMIT
    modifies a
    ensures a[off] == 0 && a[off + 1] == num
    ensures forall k :: 0 <= k < a.Length && k != off && k != off + 1 ==> a[k] == old(a[k])
  {
    a[off] := 0;
    a[off + 1] := num;
  }
}
