// The C interface over the vibrato tokenizer: a tokenizer handle that the
// caller loads and frees, and token arrays whose strings are owned by the
// array and released with it. Pointers are allocation ids, 0 is the null
// pointer, and `Allocator.live` is every allocation the bridge has handed
// out and not yet taken back.
module VibratoBridge {
  import opened Wrappers
  import opened Bytes

  /** A loaded dictionary, as `Dictionary::read` returns it. */
  datatype Dict = Dict(id: nat)

  /** A token as the engine reports it: surface and feature bytes, and the
      character range (`range_char`) it covers in the text. */
  datatype EngineToken = EngineToken(surface: seq<Byte>, feature: seq<Byte>, start: nat, end: nat)

  /** The engine: the tokens of a text under a dictionary, in `token_iter`
      order. */
  type Segmenter = (Dict, seq<Byte>) -> seq<EngineToken>

  /** `VibratoToken`, laid out as in `vibrato.h`: two string pointers and
      the character range. */
  datatype TokenRecord = TokenRecord(surface: nat, feature: nat, start: nat, end: nat)

  /** What an allocation holds: a boxed tokenizer, a boxed token slice, or
      the bytes of a C string (without its terminator). */
  datatype Allocation =
    | TokenizerBox(dict: Dict)
    | TokenArray(records: seq<TokenRecord>)
    | CString(bytes: seq<Byte>)

  /** Well-formed UTF-8, as `str::from_utf8` accepts it: no overlong
      forms, no surrogates, nothing above U+10FFFF. */
  predicate IsUtf8(s: seq<Byte>)
    decreases |s|
  {
    if |s| == 0 then true
    else
      var n := Utf8Length(s);
      0 < n <= |s| && Utf8Sequence(s[..n]) && IsUtf8(s[n..])
  }

  /** The length of the encoded character a lead byte starts, or 0 for a
      byte no character starts with. */
  function Utf8Length(s: seq<Byte>): nat
    requires |s| > 0
  {
    var b := s[0];
    if b < 0x80 then 1
    else if 0xC2 <= b <= 0xDF then 2
    else if 0xE0 <= b <= 0xEF then 3
    else if 0xF0 <= b <= 0xF4 then 4
    else 0
  }

  predicate Continuation(b: Byte) { 0x80 <= b <= 0xBF }

  /** One encoded character, by the table of well-formed byte sequences in
      section 3.9 of the Unicode Standard. */
  predicate Utf8Sequence(s: seq<Byte>)
  {
    if |s| == 1 then s[0] < 0x80
    else if |s| == 2 then 0xC2 <= s[0] <= 0xDF && Continuation(s[1])
    else if |s| == 3 then
      (if s[0] == 0xE0 then 0xA0 <= s[1] <= 0xBF
       else if s[0] == 0xED then 0x80 <= s[1] <= 0x9F
       else 0xE1 <= s[0] <= 0xEF && Continuation(s[1]))
      && Continuation(s[2])
    else if |s| == 4 then
      (if s[0] == 0xF0 then 0x90 <= s[1] <= 0xBF
       else if s[0] == 0xF4 then 0x80 <= s[1] <= 0x8F
       else 0xF1 <= s[0] <= 0xF3 && Continuation(s[1]))
      && Continuation(s[2]) && Continuation(s[3])
    else false
  }

  /** `CString::new(bytes)` or, when the bytes hold a NUL, an empty string. */
  function CStringBytes(b: seq<Byte>): (r: seq<Byte>)
    ensures 0 !in r
    ensures 0 !in b ==> r == b
  {
    if 0 in b then [] else b
  }

  /** The allocations `vibrato_tokenize` makes for `toks`, starting at id
      `next`: the surface of token `k` at `next + 2k`, its feature at
      `next + 2k + 1`, the array after them. */
  function StringsOf(toks: seq<EngineToken>, next: nat): (m: map<nat, Allocation>)
    ensures forall id :: id in m <==> next <= id < next + 2 * |toks|
    ensures forall id :: id in m ==> m[id].CString?
    ensures forall k :: 0 <= k < |toks| ==>
              m[next + 2 * k] == CString(CStringBytes(toks[k].surface))
              && m[next + 2 * k + 1] == CString(CStringBytes(toks[k].feature))
  {
    if |toks| == 0 then map[]
    else
      var n := |toks| - 1;
      StringsOf(toks[..n], next)[next + 2 * n := CString(CStringBytes(toks[n].surface))]
                                [next + 2 * n + 1 := CString(CStringBytes(toks[n].feature))]
  }

  function RecordsOf(toks: seq<EngineToken>, next: nat): (r: seq<TokenRecord>)
    ensures |r| == |toks|
  {
    seq(|toks|, k requires 0 <= k < |toks| =>
      TokenRecord(next + 2 * k, next + 2 * k + 1, toks[k].start, toks[k].end))
  }

  /** The live allocations after `vibrato_tokenize` of `toks`. */
  function Marshalled(live: map<nat, Allocation>, next: nat, toks: seq<EngineToken>): map<nat, Allocation>
  {
    (live + StringsOf(toks, next))[next + 2 * |toks| := TokenArray(RecordsOf(toks, next))]
  }

  /** The pointers an array's records own: their non-null strings. */
  function OwnedStrings(records: seq<TokenRecord>): set<nat>
  {
    if |records| == 0 then {}
    else
      var r := records[|records| - 1];
      OwnedStrings(records[..|records| - 1]) + NonNull(r.surface) + NonNull(r.feature)
  }

  function NonNull(p: nat): set<nat> { if p == 0 then {} else {p} }

  /** The live allocations after `vibrato_tokens_free` of the array `arr`:
      the array and every string its records point to are gone. */
  function Released(live: map<nat, Allocation>, arr: nat, records: seq<TokenRecord>): map<nat, Allocation>
  {
    live - OwnedStrings(records) - {arr}
  }

  /** An array the caller may free with `vibrato_tokens_free`: a live
      token slice whose non-null strings are live C strings. */
  predicate FreeableArray(live: map<nat, Allocation>, arr: nat)
  {
    arr in live && live[arr].TokenArray?
    && forall p :: p in OwnedStrings(live[arr].records) ==> p != arr && p in live && live[p].CString?
  }

  /** A cell a pointer or a count is written through. */
  class Cell {
    var value: nat
    constructor (v: nat)
      ensures value == v
    {
      value := v;
    }
  }

  class Allocator {
    var live: map<nat, Allocation>
    var next: nat

    /** Allocation ids are positive (0 is null) and below `next`. */
    ghost predicate Valid()
      reads this
    {
      0 < next && forall id :: id in live ==> 0 < id < next
    }

    constructor ()
      ensures Valid() && live == map[]
    {
      live := map[];
      next := 1;
    }

    /** `vibrato_tokenizer_load`: null for a null path, a path that is not
        UTF-8, a file that does not open or a dictionary that does not
        read; otherwise a fresh handle owning the tokenizer. Opening and
        reading are the parameters `open` and `read`. */
    method Load<F>(path: Option<seq<Byte>>, open: seq<Byte> -> Option<F>, read: F -> Option<Dict>)
      returns (h: nat)
      requires Valid()
      modifies this
      ensures Valid()
      ensures h == 0 <==> path.None? || !IsUtf8(path.value) || open(path.value).None?
                          || read(open(path.value).value).None?
      ensures h == 0 ==> live == old(live)
      ensures h != 0 ==> h !in old(live) && live == old(live)[h := TokenizerBox(read(open(path.value).value).value)]
    {
      if path.None? {
        return 0;
      }
      if !IsUtf8(path.value) {
        return 0;
      }
      var file := open(path.value);
      if file.None? {
        return 0;
      }
      var dict := read(file.value);
      if dict.None? {
        return 0;
      }
      h := next;
      live := live[h := TokenizerBox(dict.value)];
      next := next + 1;
    }

    /** `vibrato_tokenizer_free`: nothing for null, otherwise the handle is
        released. */
    method FreeTokenizer(h: nat)
      requires Valid()
      requires h == 0 || (h in live && live[h].TokenizerBox?)
      modifies this
      ensures Valid() && next == old(next)
      ensures live == if h == 0 then old(live) else old(live) - {h}
    {
      if h != 0 {
        live := live - {h};
      }
    }

    /** `vibrato_tokenize`: -1, writing nothing, when a pointer is null or
        the text is not UTF-8; otherwise 0, with the count and a fresh
        array of fresh strings written out. A surface or feature holding a
        NUL becomes an empty string. */
    method Tokenize(h: nat, text: Option<seq<Byte>>, tokens: Cell?, count: Cell?, engine: Segmenter)
      returns (rc: int)
      requires Valid()
      requires h == 0 || (h in live && live[h].TokenizerBox?)
      requires tokens != count
      modifies this, tokens, count
      ensures Valid()
      ensures rc == -1 || rc == 0
      ensures rc == -1 <==> h == 0 || text.None? || tokens == null || count == null || !IsUtf8(text.value)
      ensures rc == -1 ==> live == old(live) && next == old(next)
      ensures rc == -1 && tokens != null ==> tokens.value == old(tokens.value)
      ensures rc == -1 && count != null ==> count.value == old(count.value)
      ensures rc == 0 ==>
        var toks := engine(old(live)[h].dict, text.value);
        count.value == |toks|
        && tokens.value == old(next) + 2 * |toks|
        && live == Marshalled(old(live), old(next), toks)
        && next == old(next) + 2 * |toks| + 1
    {
      if h == 0 || text.None? || tokens == null || count == null {
        return -1;
      }
      if !IsUtf8(text.value) {
        return -1;
      }
      var toks := engine(live[h].dict, text.value);
      var arr := next + 2 * |toks|;
      live := Marshalled(live, next, toks);
      count.value := |toks|;
      tokens.value := arr;
      next := arr + 1;
      rc := 0;
    }

    /** `vibrato_tokens_free`: nothing for null; otherwise every non-null
        string of the records, then the array, is released. */
    method FreeTokens(arr: nat, n: nat)
      requires Valid()
      requires arr == 0 || (FreeableArray(live, arr) && n == |live[arr].records|)
      modifies this
      ensures Valid() && next == old(next)
      ensures live == if arr == 0 then old(live) else Released(old(live), arr, old(live)[arr].records)
    {
      if arr == 0 {
        return;
      }
      var records := live[arr].records;
      ghost var live0 := live;
      var i := 0;
      while i < n
        invariant 0 <= i <= n && next == old(next)
        invariant live == live0 - OwnedStrings(records[..i])
      {
        var r := records[i];
        assert records[..i + 1][..i] == records[..i];
        if r.surface != 0 {
          live := live - {r.surface};
        }
        if r.feature != 0 {
          live := live - {r.feature};
        }
        i := i + 1;
      }
      assert records[..n] == records;
      live := live - {arr};
    }
  }

  /** The strings the records of `vibrato_tokenize` own are exactly the
      ids it allocated for them. */
  lemma {:induction false} RecordsOwn(toks: seq<EngineToken>, next: nat)
    requires 0 < next
    ensures forall p :: p in OwnedStrings(RecordsOf(toks, next)) <==> p in StringsOf(toks, next)
  {
    if |toks| > 0 {
      var n := |toks| - 1;
      RecordsOwn(toks[..n], next);
      assert RecordsOf(toks, next)[..n] == RecordsOf(toks[..n], next);
    }
  }

  /** The array `vibrato_tokenize` returns may be freed, and holds one
      record per engine token, in order, with its character range. */
  lemma MarshalledFreeable(live: map<nat, Allocation>, next: nat, toks: seq<EngineToken>)
    requires 0 < next && forall id :: id in live ==> 0 < id < next
    ensures FreeableArray(Marshalled(live, next, toks), next + 2 * |toks|)
    ensures Marshalled(live, next, toks)[next + 2 * |toks|].records == RecordsOf(toks, next)
  {
    RecordsOwn(toks, next);
  }

  /** The strings of token `k` hold the engine's bytes, or nothing when
      those bytes have a NUL. */
  lemma MarshalledStrings(live: map<nat, Allocation>, next: nat, toks: seq<EngineToken>, k: nat)
    requires k < |toks|
    ensures Marshalled(live, next, toks)[next + 2 * k] == CString(CStringBytes(toks[k].surface))
    ensures Marshalled(live, next, toks)[next + 2 * k + 1] == CString(CStringBytes(toks[k].feature))
  {
  }

  /** Freeing what `vibrato_tokenize` returned brings the live allocations
      back to what they were before the call. */
  lemma TokenizeThenFree(live: map<nat, Allocation>, next: nat, toks: seq<EngineToken>)
    requires 0 < next && forall id :: id in live ==> 0 < id < next
    ensures Released(Marshalled(live, next, toks), next + 2 * |toks|, RecordsOf(toks, next)) == live
  {
    RecordsOwn(toks, next);
    var r := Released(Marshalled(live, next, toks), next + 2 * |toks|, RecordsOf(toks, next));
    assert forall id :: id in r <==> id in live;
    assert forall id :: id in live ==> r[id] == live[id];
  }
}
