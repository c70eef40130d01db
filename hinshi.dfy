/** Parts of speech (`HinshiBunrui`), inflection forms, kana rows and the
    packing of a part of speech into an `ImeRegisterWord` style word. */
module Hinshi {
  import opened Wrappers

  /** The part-of-speech classes in declaration order (the order of
      `BunruiToString`, `HB_HEAD` first). */
  datatype HinshiBunrui =
    | HB_HEAD | HB_TAIL | HB_UNKNOWN | HB_MEISHI | HB_IKEIYOUSHI | HB_NAKEIYOUSHI
    | HB_RENTAISHI | HB_FUKUSHI | HB_SETSUZOKUSHI | HB_KANDOUSHI
    | HB_KAKU_JOSHI | HB_SETSUZOKU_JOSHI | HB_FUKU_JOSHI | HB_SHUU_JOSHI
    | HB_JODOUSHI | HB_MIZEN_JODOUSHI | HB_RENYOU_JODOUSHI | HB_SHUUSHI_JODOUSHI
    | HB_RENTAI_JODOUSHI | HB_KATEI_JODOUSHI | HB_MEIREI_JODOUSHI
    | HB_GODAN_DOUSHI | HB_ICHIDAN_DOUSHI | HB_KAHEN_DOUSHI | HB_SAHEN_DOUSHI
    | HB_KANGO | HB_SETTOUJI | HB_SETSUBIJI | HB_PERIOD | HB_COMMA | HB_SYMBOL

  /** Inflection form (`KatsuyouKei`); `KATSUYOU_NONE` also stands for the
      form of a node whose form the source never assigns. */
  datatype KatsuyouKei =
    MIZEN_KEI | RENYOU_KEI | SHUUSHI_KEI | RENTAI_KEI | KATEI_KEI | MEIREI_KEI | KATSUYOU_NONE

  /** Kana row (`Gyou`): a row index of the hiragana table, or the
      `DAN_NO_GYOU` marker the morphological analyser assigns. */
  datatype Gyou = Row(index: nat) | DAN_NO_GYOU

  const GYOU_A: nat := 0
  const GYOU_KA: nat := 1
  const GYOU_GA: nat := 2
  const GYOU_SA: nat := 3
  const GYOU_ZA: nat := 4
  const GYOU_TA: nat := 5
  const GYOU_DA: nat := 6
  const GYOU_NA: nat := 7
  const GYOU_HA: nat := 8
  const GYOU_BA: nat := 9
  const GYOU_PA: nat := 10
  const GYOU_MA: nat := 11
  const GYOU_YA: nat := 12
  const GYOU_RA: nat := 13
  const GYOU_WA: nat := 14
  const GYOU_NN: nat := 15
  const GYOU_COUNT: nat := 16

  /** Vowel column (`Dan`). */
  const DAN_A: nat := 0
  const DAN_I: nat := 1
  const DAN_U: nat := 2
  const DAN_E: nat := 3
  const DAN_O: nat := 4

  /** Numeric value of a class; `HB_HEAD` is 0. */
  function Ordinal(h: HinshiBunrui): (n: nat)
    ensures n <= HB_MAX
  {
    match h
    case HB_HEAD => 0 case HB_TAIL => 1 case HB_UNKNOWN => 2 case HB_MEISHI => 3
    case HB_IKEIYOUSHI => 4 case HB_NAKEIYOUSHI => 5 case HB_RENTAISHI => 6
    case HB_FUKUSHI => 7 case HB_SETSUZOKUSHI => 8 case HB_KANDOUSHI => 9
    case HB_KAKU_JOSHI => 10 case HB_SETSUZOKU_JOSHI => 11 case HB_FUKU_JOSHI => 12
    case HB_SHUU_JOSHI => 13 case HB_JODOUSHI => 14 case HB_MIZEN_JODOUSHI => 15
    case HB_RENYOU_JODOUSHI => 16 case HB_SHUUSHI_JODOUSHI => 17
    case HB_RENTAI_JODOUSHI => 18 case HB_KATEI_JODOUSHI => 19
    case HB_MEIREI_JODOUSHI => 20 case HB_GODAN_DOUSHI => 21
    case HB_ICHIDAN_DOUSHI => 22 case HB_KAHEN_DOUSHI => 23 case HB_SAHEN_DOUSHI => 24
    case HB_KANGO => 25 case HB_SETTOUJI => 26 case HB_SETSUBIJI => 27
    case HB_PERIOD => 28 case HB_COMMA => 29 case HB_SYMBOL => 30
  }

  /** `HB_MAX`, the last class. */
  const HB_MAX: nat := 30

  /** The class with a given numeric value; values past `HB_MAX` name no
      class. */
  function FromOrdinal(n: nat): (r: HinshiBunrui)
    requires n <= HB_MAX
    ensures Ordinal(r) == n
  {
    if n == 0 then HB_HEAD else if n == 1 then HB_TAIL else if n == 2 then HB_UNKNOWN
    else if n == 3 then HB_MEISHI else if n == 4 then HB_IKEIYOUSHI
    else if n == 5 then HB_NAKEIYOUSHI else if n == 6 then HB_RENTAISHI
    else if n == 7 then HB_FUKUSHI else if n == 8 then HB_SETSUZOKUSHI
    else if n == 9 then HB_KANDOUSHI else if n == 10 then HB_KAKU_JOSHI
    else if n == 11 then HB_SETSUZOKU_JOSHI else if n == 12 then HB_FUKU_JOSHI
    else if n == 13 then HB_SHUU_JOSHI else if n == 14 then HB_JODOUSHI
    else if n == 15 then HB_MIZEN_JODOUSHI else if n == 16 then HB_RENYOU_JODOUSHI
    else if n == 17 then HB_SHUUSHI_JODOUSHI else if n == 18 then HB_RENTAI_JODOUSHI
    else if n == 19 then HB_KATEI_JODOUSHI else if n == 20 then HB_MEIREI_JODOUSHI
    else if n == 21 then HB_GODAN_DOUSHI else if n == 22 then HB_ICHIDAN_DOUSHI
    else if n == 23 then HB_KAHEN_DOUSHI else if n == 24 then HB_SAHEN_DOUSHI
    else if n == 25 then HB_KANGO else if n == 26 then HB_SETTOUJI
    else if n == 27 then HB_SETSUBIJI else if n == 28 then HB_PERIOD
    else if n == 29 then HB_COMMA else HB_SYMBOL
  }

  /** Distinct classes have distinct values, so `FromOrdinal` inverts
      `Ordinal`. */
  lemma OrdinalInjective(h: HinshiBunrui)
    ensures FromOrdinal(Ordinal(h)) == h
  {
  }

  /** The byte value stored for a class in dictionary records: a class
      decodes only when the byte is at most `HB_MAX`. */
  function FromByte(b: nat): (r: Option<HinshiBunrui>)
    ensures r.Some? <==> b <= HB_MAX
    ensures r.Some? ==> Ordinal(r.value) == b
  {
    if b <= HB_MAX then Some(FromOrdinal(b)) else None
  }

  // ---- ImeRegisterWord style words ----------------------------------------
  //
  // A style word is a 32-bit DWORD. `MZIME_REGWORD_STYLE` is its two top
  // bits (`IME_REGWORD_STYLE_USER_FIRST`, 0x80000000, with 0x40000000), so
  // `w & ~MZIME_REGWORD_STYLE` is `w % 2^30` and `x | MZIME_REGWORD_STYLE`
  // is `x % 2^30 + 0xC0000000`; the model writes the bit operations that way.

  const MZIME_REGWORD_STYLE: nat := 0xC000_0000
  const LOW_BITS: nat := 0x4000_0000

  type Dword = x: nat | x < 0x1_0000_0000

  /** `(w & MZIME_REGWORD_STYLE) == MZIME_REGWORD_STYLE`. */
  predicate HasStyleBits(w: Dword)
  {
    w / LOW_BITS == 3
  }

  /** `x | MZIME_REGWORD_STYLE`. */
  function OrStyle(x: Dword): Dword
  {
    x % LOW_BITS + MZIME_REGWORD_STYLE
  }

  /** `HinshiToStyle`: the class's offset from `HB_MEISHI`, as an unsigned
      32-bit value (classes before `HB_MEISHI` wrap), with the style bits
      set. */
  function HinshiToStyle(h: HinshiBunrui): Dword
  {
    OrStyle((Ordinal(h) - Ordinal(HB_MEISHI)) % 0x1_0000_0000)
  }

  /** `StyleToHinshi` before the cast: the bits below the style bits plus
      `HB_MEISHI`. */
  function StyleToHinshiValue(w: Dword): nat
  {
    w % LOW_BITS + Ordinal(HB_MEISHI)
  }

  /** `StyleToHinshi`; a value past `HB_MAX`, which the debug assertion
      rejects, names no class. */
  function StyleToHinshi(w: Dword): Option<HinshiBunrui>
  {
    var v := StyleToHinshiValue(w);
    if v <= HB_MAX then Some(FromOrdinal(v)) else None
  }

  /** Every style word the IME produces carries the style bits. */
  lemma HinshiToStyleHasBits(h: HinshiBunrui)
    ensures HasStyleBits(HinshiToStyle(h))
  {
  }

  /** Packing a class that registered words may carry (`HB_MEISHI` to
      `HB_MAX`) and unpacking it gives the class back. */
  lemma StyleRoundTrip(h: HinshiBunrui)
    requires Ordinal(HB_MEISHI) <= Ordinal(h)
    ensures StyleToHinshi(HinshiToStyle(h)) == Some(h)
  {
    var n := Ordinal(h);
    StyleValueRoundTrip(n);
    assert StyleToHinshiValue(HinshiToStyle(h)) == n;
    OrdinalInjective(h);
  }

  /** The arithmetic of `StyleRoundTrip`, on the class's value. */
  lemma StyleValueRoundTrip(n: nat)
    requires 3 <= n <= HB_MAX
    ensures StyleToHinshiValue(OrStyle((n - 3) % 0x1_0000_0000)) == n
  {
    var d := n - 3;
    assert d % 0x1_0000_0000 == d;
    assert OrStyle(d) == d + 3 * LOW_BITS;
    assert (d + 3 * LOW_BITS) % LOW_BITS == d;
  }

  /** A style word with the style bits whose class is in range is
      reproduced by unpacking and repacking. */
  lemma StyleRoundTripBack(w: Dword)
    requires HasStyleBits(w)
    requires StyleToHinshi(w).Some?
    ensures HinshiToStyle(StyleToHinshi(w).value) == w
  {
  }

  /** The part-of-speech tests of `LatticeNode`. */
  predicate IsDoushi(h: HinshiBunrui)
  {
    h == HB_GODAN_DOUSHI || h == HB_ICHIDAN_DOUSHI || h == HB_KAHEN_DOUSHI || h == HB_SAHEN_DOUSHI
  }

  predicate IsJodoushi(h: HinshiBunrui)
  {
    h == HB_JODOUSHI || h == HB_MIZEN_JODOUSHI || h == HB_RENYOU_JODOUSHI
    || h == HB_SHUUSHI_JODOUSHI || h == HB_RENTAI_JODOUSHI || h == HB_KATEI_JODOUSHI
    || h == HB_MEIREI_JODOUSHI
  }
}
