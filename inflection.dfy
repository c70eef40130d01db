/** The inflection generators of the lattice (`Lattice::DoFields` and the
    `Lattice::Do*` helpers). Each generator is modelled as the sequence of
    nodes it appends, in order, to the chunk of its start index; the
    `Lattice` class applies that sequence and counts the references. */
module Inflection {
  import opened Wrappers
  import opened Bytes
  import opened Text
  import opened Hinshi
  import opened LatticeNodes
  import opened ConnectRules
  import opened KanaTable

  /** A dictionary record split into its fields: reading, part-of-speech
      word (its first unit), converted text and tags. */
  datatype Fields = Fields(pre: String, hinshi: String, post: String, tags: String)

  /** `fields[I_FIELD_HINSHI][0]` as a 16-bit word. */
  function HinshiWord(f: Fields): Word
  {
    (CharAt(f.hinshi, 0) as nat) % 0x1_0000
  }

  /** `MAKEWORD(lo, hi)` stored as a one-unit field. */
  function MakeWordField(lo: nat, hi: nat): (s: String)
    requires lo < 0x100 && hi < 0x10
    ensures HinshiWord(Fields([], s, [], [])) == lo + hi * 0x100
  {
    [(lo + hi * 0x100) as char]
  }

  // ---- Generator context -------------------------------------------------

  /** A generator call: the text being converted (`m_pre`), the start
      index, the record, and the prepared node the generator copies. */
  datatype Ctx = Ctx(text: String, index: nat, f: Fields, base: Node)

  /** The record's reading occurs in the text at the start index (the two
      checks every generator makes before it appends anything). */
  predicate StemMatches(text: String, index: nat, f: Fields)
  {
    OccursAt(text, f.pre, index)
  }

  predicate Ok(c: Ctx) { StemMatches(c.text, c.index, c.f) }

  /** `m_pre.substr(index + length)`. */
  function Tail(c: Ctx): String
    requires Ok(c)
  {
    c.text[c.index + |c.f.pre|..]
  }

  /** `tail[i]`, NUL at or past the end. */
  function T(c: Ctx, i: nat): char
    requires Ok(c)
  {
    CharAt(Tail(c), i)
  }

  predicate Starts(c: Ctx, s: String)
    requires Ok(c)
  {
    StartsWith(Tail(c), s)
  }

  /** Every node of `r` reads the text from the start index (its `pre`
      equals `m_pre.substr(index, pre.size())`) and extends the stem. */
  predicate Anchored(text: String, index: nat, stem: String, r: seq<Node>)
  {
    forall n :: n in r ==> OccursAt(text, n.pre, index) && |stem| <= |n.pre|
  }

  /** `r` holds a node reading `pre`, converted to `post`, of class `b`
      in form `k`. */
  predicate HasForm(r: seq<Node>, pre: String, post: String, b: HinshiBunrui, k: KatsuyouKei)
  {
    exists n :: n in r && n.pre == pre && n.post == post && n.bunrui == b && n.katsuyou == k
  }

  /** The node pushed for the reading extended by `suffix`. */
  function Ext(c: Ctx, suffix: String, postSuffix: String, k: KatsuyouKei): (n: Node)
    requires Ok(c) && Starts(c, suffix)
    ensures OccursAt(c.text, n.pre, c.index)
    ensures n.pre == c.f.pre + suffix && n.post == c.f.post + postSuffix && n.katsuyou == k
  {
    var n := c.base.(pre := c.f.pre + suffix, post := c.f.post + postSuffix, katsuyou := k);
    assert c.text[c.index..c.index + |n.pre|] == c.f.pre + suffix by {
      assert c.text[c.index..c.index + |n.pre|]
          == c.text[c.index..c.index + |c.f.pre|] + Tail(c)[..|suffix|];
    }
    n
  }

  /** `Ext` with the same suffix on both sides. */
  function Same(c: Ctx, suffix: String, k: KatsuyouKei): (n: Node)
    requires Ok(c) && Starts(c, suffix)
    ensures OccursAt(c.text, n.pre, c.index)
    ensures n.pre == c.f.pre + suffix && n.post == c.f.post + suffix && n.katsuyou == k
  {
    Ext(c, suffix, suffix, k)
  }

  /** The tail's first `m` characters, when they exist. */
  function Head(c: Ctx, m: nat): (s: String)
    requires Ok(c) && m <= |Tail(c)|
    ensures Starts(c, s) && |s| == m
  {
    Tail(c)[..m]
  }

  function Extend(f: Fields, pre: String, post: String): Fields
  {
    f.(pre := f.pre + pre, post := f.post + post)
  }

  /** The base node of a generator: class, tags and the word cost. */
  function Base(bunrui: HinshiBunrui, gyou: Gyou, f: Fields, delta: int): (n: Node)
    ensures n.bunrui == bunrui && n.tags == f.tags && n.deltaCost == 0 && n.linked == 0
  {
    var n := NewNode(bunrui, gyou, KATSUYOU_NONE, 0).(tags := f.tags);
    n.(cost := CalcCost(n) + delta)
  }

  /** Stand-in for the row of nodes whose row the source leaves
      uninitialised. */
  const UNSET_GYOU: Gyou := DAN_NO_GYOU

  /** Sentence punctuation after which a bare adjective stem is also read
      as a noun. */
  predicate IsStemStop(ch: char)
  {
    ch == '。' || ch == '、' || ch == '，' || ch == '．' || ch == '.' || ch == ','
  }

  predicate IsSentenceParticle(ch: char)
  {
    ch == 'よ' || ch == 'ね' || ch == 'な' || ch == 'ぞ'
  }

  predicate IsProlonger(ch: char)
  {
    ch == 'ー' || ch == 'あ' || ch == 'ぁ' || ch == 'え' || ch == 'ぇ' || ch == 'お' || ch == 'ぉ'
  }

  function Remaining(text: String, index: nat, f: Fields): nat
  {
    if index + |f.pre| <= |text| then |text| - (index + |f.pre|) else 0
  }

  /** The rank of `DoNakeiyoushi` for termination: it calls `DoMeishi` with
      the same record only when the tail does not start with な, and
      `DoMeishi` calls it back only when it does. */
  function NakeiRank(text: String, index: nat, f: Fields): nat
  {
    if CharAt(text, index + |f.pre|) == 'な' then 1 else 4
  }

  lemma TailStart(c: Ctx)
    requires Ok(c)
    ensures T(c, 0) == CharAt(c.text, c.index + |c.f.pre|)
  {
  }

  /** The node for the reading extended by `s`, when the tail starts with
      `s`. */
  function Form(c: Ctx, s: String, k: KatsuyouKei): (r: seq<Node>)
    requires Ok(c)
    ensures Anchored(c.text, c.index, c.f.pre, r)
    ensures |r| <= 1
  {
    if Starts(c, s) then [Same(c, s, k)] else []
  }

  /** `Form`, followed by the same form extended by a sentence-final
      particle (よ, ね, な or ぞ) when one comes next. */
  function FormThenParticle(c: Ctx, s: String, k: KatsuyouKei): (r: seq<Node>)
    requires Ok(c)
    ensures Anchored(c.text, c.index, c.f.pre, r)
  {
    if Starts(c, s) then
      [Same(c, s, k)]
      + (if IsSentenceParticle(T(c, |s|)) then [Same(c, Head(c, |s| + 1), k)] else [])
    else []
  }

  // ---- Lattice::DoIkeiyoushi ------------------------------------------------

  /** The continuative `s` (高かっ, 静かだっ), then the past form with
      た (高かった). */
  function PastForms(c: Ctx, s: String): (r: seq<Node>)
    requires Ok(c)
    ensures Anchored(c.text, c.index, c.f.pre, r)
  {
    if Starts(c, s) then
      [Same(c, s, RENYOU_KEI)]
      + (if T(c, |s|) == 'た' then [Same(c, Head(c, |s| + 1), SHUUSHI_KEI)] else [])
    else []
  }

  /** 高く and 高くて. These paths never set the form of the node, which
      the source leaves uninitialised; the model uses `KATSUYOU_NONE`. */
  function IkeiKu(c: Ctx): (r: seq<Node>)
    requires Ok(c)
    ensures Anchored(c.text, c.index, c.f.pre, r)
  {
    if Starts(c, "く") then
      [Same(c, "く", KATSUYOU_NONE)]
      + (if T(c, 1) == 'て' then [Same(c, Head(c, 2), KATSUYOU_NONE)] else [])
    else []
  }

  /** The 高く node as `DoIkeiyoushi` pushes it carries an inflection form
      nobody set, and whether it connects depends on that value: with the
      model's stand-in it connects to an auxiliary that has no
      imperfective-link tag, with the imperfective form it does not. */
  lemma KuFormLeftUnset(c: Ctx, aux: Node)
    requires Ok(c) && Starts(c, "く") && c.base.bunrui == HB_IKEIYOUSHI
    requires aux.bunrui == HB_JODOUSHI && !HasTag(aux, TAG_MIZEN_LINK)
    ensures |IkeiKu(c)| >= 1 && IkeiKu(c)[0].bunrui == HB_IKEIYOUSHI
    ensures IsNodeConnectable(IkeiKu(c)[0], aux)
    ensures !IsNodeConnectable(IkeiKu(c)[0].(katsuyou := MIZEN_KEI), aux)
  {
    var n := Same(c, "く", KATSUYOU_NONE);
    assert IkeiKu(c)[0] == n;
  }

  /** 高く and 高くて in the continuative form, which the ku form is. */
  function IkeiKuIntended(c: Ctx): (r: seq<Node>)
    requires Ok(c)
    ensures |r| == |IkeiKu(c)|
    ensures forall i :: 0 <= i < |r| ==> r[i] == IkeiKu(c)[i].(katsuyou := RENYOU_KEI)
  {
    seq(|IkeiKu(c)|, i requires 0 <= i < |IkeiKu(c)| => IkeiKu(c)[i].(katsuyou := RENYOU_KEI))
  }

  /** Each intended 高く node connects to an auxiliary exactly when the
      auxiliary carries the continuative-link tag, and to any other class
      the continuative form takes, whatever the memory held. */
  lemma IkeiKuIntendedConnects(c: Ctx, i: nat, n2: Node)
    requires Ok(c) && c.base.bunrui == HB_IKEIYOUSHI && i < |IkeiKuIntended(c)|
    requires !FreeJoint(HB_IKEIYOUSHI, n2.bunrui)
    ensures IkeiKuIntended(c)[i].bunrui == HB_IKEIYOUSHI
    ensures IsNodeConnectable(IkeiKuIntended(c)[i], n2) <==>
              if n2.bunrui == HB_JODOUSHI then HasTag(n2, TAG_RENYOU_LINK) else IsContentClass(n2.bunrui)
  {
    assert IkeiKu(c)[i].bunrui == HB_IKEIYOUSHI by {
      if T(c, 1) == 'て' && i == 1 {
        assert IkeiKu(c)[1] == Same(c, Head(c, 2), KATSUYOU_NONE);
      } else {
        assert IkeiKu(c)[0] == Same(c, "く", KATSUYOU_NONE);
      }
    }
  }

  /** The noun forms 高さ, 高み and 高め/高目, in the form the node was
      left in: the hypothetical form after けれ, the attributive form
      otherwise. */
  function IkeiNoun(c: Ctx): (r: seq<Node>)
    requires Ok(c)
    ensures Anchored(c.text, c.index, c.f.pre, r)
  {
    var k := if Starts(c, "けれ") then KATEI_KEI else RENTAI_KEI;
    var cn := c.(base := c.base.(bunrui := HB_MEISHI));
    Form(cn, "さ", k) + Form(cn, "み", k)
    + (if Starts(cn, "め") then [Same(cn, "め", k), Ext(cn, "め", "目", k)] else [])
  }

  /** The inflected forms of an i-adjective, in the order they are
      appended. */
  function IkeiForms(c: Ctx): (r: seq<Node>)
    requires Ok(c)
    ensures Anchored(c.text, c.index, c.f.pre, r)
  {
    Form(c, "かろ", MIZEN_KEI) + PastForms(c, "かっ") + IkeiKu(c)
    + Form(c, "う", KATSUYOU_NONE) + Form(c, "ゅう", KATSUYOU_NONE)
    + FormThenParticle(c, "い", SHUUSHI_KEI)
    + Form(c, "い", RENTAI_KEI) + Form(c, "き", RENTAI_KEI)
    + Form(c, "けれ", KATEI_KEI) + IkeiNoun(c)
  }

  /** `Lattice::DoIkeiyoushi`: the inflected forms, then the stem read as
      a na-adjective before そう, as an ichidan verb before すぎ (twice:
      kana and kanji spelling), and as a noun before the end of the text
      or punctuation. */
  function DoIkeiyoushi(text: String, index: nat, f: Fields, delta: int, kata: String -> String): (r: seq<Node>)
    ensures !StemMatches(text, index, f) ==> r == []
    ensures Anchored(text, index, f.pre, r)
    decreases Remaining(text, index, f), 5
  {
    if !StemMatches(text, index, f) then []
    else
      IkeiForms(Ctx(text, index, f, Base(HB_IKEIYOUSHI, UNSET_GYOU, f, delta)))
      + IkeiSou(text, index, f, delta, kata) + IkeiSugi(text, index, f, delta)
      + IkeiStem(text, index, f, delta, kata)
  }

  /** An i-adjective stem followed by い yields its conclusive form
      (かわいい). */
  lemma IkeiConclusive(text: String, index: nat, f: Fields, delta: int, kata: String -> String)
    requires StemMatches(text, index, f) && StartsWith(text[index + |f.pre|..], "い")
    ensures HasForm(DoIkeiyoushi(text, index, f, delta, kata), f.pre + "い", f.post + "い", HB_IKEIYOUSHI, SHUUSHI_KEI)
  {
    var c := Ctx(text, index, f, Base(HB_IKEIYOUSHI, UNSET_GYOU, f, delta));
    var n := Same(c, "い", SHUUSHI_KEI);
    assert n in FormThenParticle(c, "い", SHUUSHI_KEI);
    assert n in IkeiForms(c);
  }

  function IkeiSou(text: String, index: nat, f: Fields, delta: int, kata: String -> String): (r: seq<Node>)
    requires StemMatches(text, index, f)
    ensures Anchored(text, index, f.pre, r)
    decreases Remaining(text, index, f), 0
  {
    if StartsWith(text[index + |f.pre|..], "そう") then
      DoNakeiyoushi(text, index, Extend(f, "そう", "そう"), delta, kata)
    else []
  }

  function IkeiSugi(text: String, index: nat, f: Fields, delta: int): (r: seq<Node>)
    requires StemMatches(text, index, f)
    ensures Anchored(text, index, f.pre, r)
  {
    if StartsWith(text[index + |f.pre|..], "すぎ") then
      DoIchidanDoushi(text, index, Extend(f, "すぎ", "すぎ"), delta)
      + DoIchidanDoushi(text, index, Extend(f, "すぎ", "過ぎ"), delta)
    else []
  }

  function IkeiStem(text: String, index: nat, f: Fields, delta: int, kata: String -> String): (r: seq<Node>)
    requires StemMatches(text, index, f)
    ensures Anchored(text, index, f.pre, r)
    decreases Remaining(text, index, f), 4
  {
    if index + |f.pre| == |text| || IsStemStop(text[index + |f.pre|]) then
      DoMeishi(text, index, f, delta, kata)
    else []
  }

  // ---- Lattice::DoNakeiyoushi -----------------------------------------------

  /** The inflected forms of a na-adjective, in the order they are
      appended; the noun form 静かさ is left in the continuative form. */
  function NakeiForms(c: Ctx): (r: seq<Node>)
    requires Ok(c)
    ensures Anchored(c.text, c.index, c.f.pre, r)
  {
    Form(c, "だろ", MIZEN_KEI) + PastForms(c, "だっ")
    + Form(c, "で", RENYOU_KEI) + Form(c, "に", RENYOU_KEI)
    + FormThenParticle(c, "だ", SHUUSHI_KEI)
    + Form(c, "な", RENTAI_KEI) + Form(c, "なら", KATEI_KEI)
    + Form(c.(base := c.base.(bunrui := HB_MEISHI)), "さ", RENYOU_KEI)
  }

  function DoNakeiyoushi(text: String, index: nat, f: Fields, delta: int, kata: String -> String): (r: seq<Node>)
    ensures !StemMatches(text, index, f) ==> r == []
    ensures Anchored(text, index, f.pre, r)
    decreases Remaining(text, index, f), NakeiRank(text, index, f)
  {
    if !StemMatches(text, index, f) then []
    else
      var c := Ctx(text, index, f, Base(HB_NAKEIYOUSHI, UNSET_GYOU, f, delta));
      TailStart(c);
      NakeiForms(c)
      + (if |Tail(c)| == 0 || IsStemStop(T(c, 0)) then DoMeishi(text, index, f, delta, kata) else [])
  }

  /** A na-adjective stem followed by だ yields its conclusive form
      (巨大だ). */
  lemma NakeiConclusive(text: String, index: nat, f: Fields, delta: int, kata: String -> String)
    requires StemMatches(text, index, f) && StartsWith(text[index + |f.pre|..], "だ")
    ensures HasForm(DoNakeiyoushi(text, index, f, delta, kata), f.pre + "だ", f.post + "だ", HB_NAKEIYOUSHI, SHUUSHI_KEI)
  {
    var c := Ctx(text, index, f, Base(HB_NAKEIYOUSHI, UNSET_GYOU, f, delta));
    var n := Same(c, "だ", SHUUSHI_KEI);
    assert n in FormThenParticle(c, "だ", SHUUSHI_KEI);
    assert n in NakeiForms(c);
  }

  // ---- Lattice::DoGodanDoushi ---------------------------------------------

  /** The euphonic ending (onbin) of the row that holds `ch`. */
  function OnbinOf(gyou: nat): char
  {
    if gyou == GYOU_KA || gyou == GYOU_GA then 'い'
    else if gyou == GYOU_NA || gyou == GYOU_BA || gyou == GYOU_MA then 'ん'
    else if gyou == GYOU_A || gyou == GYOU_TA || gyou == GYOU_RA || gyou == GYOU_WA then 'っ'
    else '\0'
  }

  /** The euphonic ending is looked up through the row of the verb's
      continuative kana: a row with such a kana gets its own ending back,
      and a row without one (the や-, わ- and ん-rows) reads NUL, whose
      row is the ん-row, and so gets none. */
  lemma GodanOnbinRow(g: nat)
    requires g < GYOU_COUNT
    ensures HIRAGANA[g][DAN_I] != '\0' ==> OnbinOf(GyouOf(HIRAGANA[g][DAN_I])) == OnbinOf(g)
    ensures HIRAGANA[g][DAN_I] == '\0' ==> OnbinOf(GyouOf(HIRAGANA[g][DAN_I])) == '\0'
  {
    if HIRAGANA[g][DAN_I] != '\0' {
      ContinuativeKanaCell(g);
    } else {
      LiteralMapsOfNul();
    }
  }

  /** So the わ-row entry of the euphonic switch is never taken, and a
      わ-row verb has no euphonic forms. */
  lemma GodanWaRowHasNoOnbin(g: nat)
    requires g < GYOU_COUNT
    ensures GyouOf(HIRAGANA[g][DAN_I]) != GYOU_WA
    ensures OnbinOf(GyouOf(HIRAGANA[GYOU_WA][DAN_I])) == '\0'
  {
    HiraganaShape();
    if HIRAGANA[g][DAN_I] != '\0' {
      ContinuativeKanaCell(g);
    } else {
      LiteralMapsOfNul();
    }
    LiteralMapsOfNul();
  }

  /** The continuative forms built on the euphonic ending. Only the last,
      plain た, switches the node to the conclusive form. */
  function OnbinForms(c: Ctx, ch2: char): (r: seq<Node>)
    requires Ok(c)
    ensures Anchored(c.text, c.index, c.f.pre, r)
  {
    if ch2 != '\0' && |Tail(c)| >= 1 && T(c, 0) == ch2 then
      [Same(c, Head(c, 1), RENYOU_KEI)]
      + (if |Tail(c)| >= 3 && (T(c, 1) == 'て' || T(c, 1) == 'で') && T(c, 2) == 'も' then
           [Same(c, Head(c, 3), RENYOU_KEI)]
         else if |Tail(c)| >= 2 && (T(c, 1) == 'て' || T(c, 1) == 'で') then
           [Same(c, Head(c, 2), RENYOU_KEI)]
         else if |Tail(c)| >= 3 && (T(c, 1) == 'た' || T(c, 1) == 'だ') && T(c, 2) == 'り' then
           [Same(c, Head(c, 3), RENYOU_KEI)]
         else if |Tail(c)| >= 3 && T(c, 1) == 'た' then
           [Same(c, Head(c, 2), SHUUSHI_KEI)]
         else [])
    else []
  }

  function OnbinLeavesShuushi(c: Ctx, ch2: char): bool
    requires Ok(c)
  {
    ch2 != '\0' && |Tail(c)| >= 1 && T(c, 0) == ch2
    && !(|Tail(c)| >= 3 && (T(c, 1) == 'て' || T(c, 1) == 'で') && T(c, 2) == 'も')
    && !(|Tail(c)| >= 2 && (T(c, 1) == 'て' || T(c, 1) == 'で'))
    && !(|Tail(c)| >= 3 && (T(c, 1) == 'た' || T(c, 1) == 'だ') && T(c, 2) == 'り')
    && |Tail(c)| >= 3 && T(c, 1) == 'た'
  }

  /** The hypothetical/imperative forms on the e-column. */
  function GodanE(c: Ctx, ch: char): (r: seq<Node>)
    requires Ok(c)
    ensures Anchored(c.text, c.index, c.f.pre, r)
  {
    if |Tail(c)| > 0 && T(c, 0) == ch then
      [Same(c, Head(c, 1), KATEI_KEI), Same(c, Head(c, 1), MEIREI_KEI)]
      + (if |Tail(c)| >= 2 && (T(c, 1) == 'よ' || T(c, 1) == 'や') then [Same(c, Head(c, 2), MEIREI_KEI)] else [])
    else []
  }

  /** The volitional forms on the o-column followed by う. */
  function GodanO(c: Ctx, ch: char): (r: seq<Node>)
    requires Ok(c)
    ensures Anchored(c.text, c.index, c.f.pre, r)
  {
    if |Tail(c)| >= 2 && T(c, 0) == ch && T(c, 1) == 'う' then
      [Same(c, Head(c, 2), MEIREI_KEI)]
      + (if |Tail(c)| >= 3 && (T(c, 2) == 'よ' || T(c, 2) == 'や' || T(c, 2) == 'な' || T(c, 2) == 'ね') then
           [Same(c, Head(c, 3), MEIREI_KEI)]
         else [])
    else []
  }

  /** The noun forms on the i-column (動き, 動き方). */
  function GodanNoun(c: Ctx, ch: char, k: KatsuyouKei): (r: seq<Node>)
    requires Ok(c)
    ensures Anchored(c.text, c.index, c.f.pre, r)
  {
    if |Tail(c)| > 0 && T(c, 0) == ch then
      [Same(c, Head(c, 1), k)]
      + (if T(c, 1) == 'か' && T(c, 2) == 'た' then [Ext(c, Head(c, 3), [ch] + "方", k)] else [])
    else []
  }

  /** The verb forms of a godan verb of row `g`: imperfective (the あ-row
      takes わ), continuative, euphonic, conclusive/attributive,
      hypothetical/imperative and volitional. */
  function GodanVerbForms(c: Ctx, g: nat): (r: seq<Node>)
    requires Ok(c) && g < |HIRAGANA|
    ensures Anchored(c.text, c.index, c.f.pre, r)
  {
    HiraganaShape();
    var row := HIRAGANA[g];
    (if g == GYOU_A then Form(c, "わ", MIZEN_KEI) else Form(c, [row[DAN_A]], MIZEN_KEI))
    + Form(c, [row[DAN_I]], RENYOU_KEI)
    + OnbinForms(c, OnbinOf(GyouOf(row[DAN_I])))
    + ConclusiveForms(c, [row[DAN_U]]) + GodanE(c, row[DAN_E]) + GodanO(c, row[DAN_O])
  }

  /** The form the node is left in when the noun forms are appended: the
      form set by the last verb form that was appended. */
  function GodanNounForm(c: Ctx, g: nat): KatsuyouKei
    requires Ok(c) && g < |HIRAGANA|
  {
    HiraganaShape();
    var row := HIRAGANA[g];
    if |GodanO(c, row[DAN_O])| > 0 || |GodanE(c, row[DAN_E])| > 0 then MEIREI_KEI
    else if |ConclusiveForms(c, [row[DAN_U]])| == 3 then SHUUSHI_KEI
    else if |ConclusiveForms(c, [row[DAN_U]])| > 0 then RENTAI_KEI
    else if OnbinLeavesShuushi(c, OnbinOf(GyouOf(row[DAN_I]))) then SHUUSHI_KEI
    else RENYOU_KEI
  }

  /** `Lattice::DoGodanDoushi`. The row comes from the high byte of the
      part-of-speech word; a row past the table appends nothing here (the
      source would index past `s_hiragana_table`). A stem followed by the
      e-column kana is also read as an ichidan verb (potential form). */
  function DoGodanDoushi(text: String, index: nat, f: Fields, delta: int): (r: seq<Node>)
    ensures !StemMatches(text, index, f) ==> r == []
    ensures Anchored(text, index, f.pre, r)
  {
    var g := HiByte(HinshiWord(f));
    if !StemMatches(text, index, f) || g >= |HIRAGANA| then []
    else
      HiraganaShape();
      var e := HIRAGANA[g][DAN_E];
      var c := Ctx(text, index, f, Base(HB_GODAN_DOUSHI, Row(g), f, delta));
      GodanVerbForms(c, g)
      + GodanNoun(c.(base := c.base.(bunrui := HB_MEISHI)), HIRAGANA[g][DAN_I], GodanNounForm(c, g))
      + (if Starts(c, [e]) then DoIchidanDoushi(text, index, Extend(f, [e], [e]), delta) else [])
  }

  /** A godan stem of row `g` followed by that row's u-column kana yields
      its conclusive form (動く). */
  lemma GodanConclusive(text: String, index: nat, f: Fields, delta: int, g: nat)
    requires g == HiByte(HinshiWord(f)) && g < |HIRAGANA|
    requires StemMatches(text, index, f)
    requires |HIRAGANA[g]| == 5 && StartsWith(text[index + |f.pre|..], [HIRAGANA[g][DAN_U]])
    ensures HasForm(DoGodanDoushi(text, index, f, delta), f.pre + [HIRAGANA[g][DAN_U]], f.post + [HIRAGANA[g][DAN_U]],
                    HB_GODAN_DOUSHI, SHUUSHI_KEI)
  {
    HiraganaShape();
    var c := Ctx(text, index, f, Base(HB_GODAN_DOUSHI, Row(g), f, delta));
    var n := Same(c, [HIRAGANA[g][DAN_U]], SHUUSHI_KEI);
    assert n in ConclusiveForms(c, [HIRAGANA[g][DAN_U]]);
    assert n in GodanVerbForms(c, g);
  }

  // ---- Lattice::DoIchidanDoushi -------------------------------------------

  /** 見ていた, 見ていたよ, 見ていたよぉ. */
  function IchidanTeita(c: Ctx): (r: seq<Node>)
    requires Ok(c)
    ensures Anchored(c.text, c.index, c.f.pre, r)
  {
    if |Tail(c)| >= 3 && T(c, 0) == 'て' && T(c, 1) == 'い' && T(c, 2) == 'た' then
      [Same(c, Head(c, 3), SHUUSHI_KEI)]
      + (if |Tail(c)| >= 4 && (T(c, 3) == 'よ' || T(c, 3) == 'な' || T(c, 3) == 'ね') then
           [Same(c, Head(c, 4), SHUUSHI_KEI)]
           + (if |Tail(c)| >= 5 && IsProlonger(T(c, 4)) then [Same(c, Head(c, 5), SHUUSHI_KEI)] else [])
         else [])
    else []
  }

  /** 見てた, 見てたよ, 見てたよぉ. */
  function IchidanTeta(c: Ctx): (r: seq<Node>)
    requires Ok(c)
    ensures Anchored(c.text, c.index, c.f.pre, r)
  {
    if |Tail(c)| >= 2 && T(c, 0) == 'て' && T(c, 1) == 'た' then
      [Same(c, "てた", SHUUSHI_KEI)]
      + (if |Tail(c)| >= 3 && (T(c, 2) == 'よ' || T(c, 2) == 'な' || T(c, 2) == 'ね') then
           [Same(c, Head(c, 3), SHUUSHI_KEI)]
           + (if |Tail(c)| >= 4 && IsProlonger(T(c, 3)) then [Same(c, Head(c, 4), SHUUSHI_KEI)] else [])
         else [])
    else []
  }

  /** The attributive-and-conclusive pair of `s` (見る), then the
      conclusive form with a sentence-final particle (見るよ). */
  function ConclusiveForms(c: Ctx, s: String): (r: seq<Node>)
    requires Ok(c)
    ensures Anchored(c.text, c.index, c.f.pre, r)
  {
    if Starts(c, s) then
      [Same(c, s, SHUUSHI_KEI), Same(c, s, RENTAI_KEI)]
      + (if IsSentenceParticle(T(c, |s|)) then [Same(c, Head(c, |s| + 1), SHUUSHI_KEI)] else [])
    else []
  }

  /** 見て and the past forms built on it. */
  function IchidanTe(c: Ctx): (r: seq<Node>)
    requires Ok(c)
    ensures Anchored(c.text, c.index, c.f.pre, r)
  {
    if Starts(c, "て") then [Same(c, "て", RENYOU_KEI)] + IchidanTeita(c) + IchidanTeta(c)
    else []
  }

  /** 見よう and 見ようね. */
  function IchidanYou(c: Ctx): (r: seq<Node>)
    requires Ok(c)
    ensures Anchored(c.text, c.index, c.f.pre, r)
  {
    if Starts(c, "よう") then
      [Same(c, "よう", SHUUSHI_KEI)]
      + (if T(c, 2) == 'ね' || T(c, 2) == 'や' || T(c, 2) == 'な' || T(c, 2) == 'ぞ' then
           [Same(c, Head(c, 3), SHUUSHI_KEI)]
         else [])
    else []
  }

  /** 見ろ and 見ろよ. */
  function IchidanRo(c: Ctx): (r: seq<Node>)
    requires Ok(c)
    ensures Anchored(c.text, c.index, c.f.pre, r)
  {
    if Starts(c, "ろ") then
      [Same(c, "ろ", MEIREI_KEI)]
      + (if T(c, 1) == 'よ' || T(c, 1) == 'や' then [Same(c, Head(c, 2), MEIREI_KEI)] else [])
    else []
  }

  /** The noun 見 (left in the imperative form) and 見方. */
  function IchidanNoun(c: Ctx): (r: seq<Node>)
    requires Ok(c)
    ensures Anchored(c.text, c.index, c.f.pre, r)
    ensures |r| >= 1
  {
    var cn := c.(base := c.base.(bunrui := HB_MEISHI));
    [Same(cn, "", MEIREI_KEI)]
    + (if Starts(cn, "かた") then [Ext(cn, "かた", "方", MEIREI_KEI)] else [])
  }

  /** The forms of an ichidan verb, in the order they are appended. */
  function IchidanForms(c: Ctx): (r: seq<Node>)
    requires Ok(c)
    ensures Anchored(c.text, c.index, c.f.pre, r)
    ensures |r| >= 3
  {
    [Same(c, "", MIZEN_KEI), Same(c, "", RENYOU_KEI)]
    + IchidanTe(c) + IchidanYou(c) + ConclusiveForms(c, "る")
    + Form(c, "れ", KATEI_KEI) + IchidanRo(c) + Form(c, "よ", MEIREI_KEI)
    + IchidanNoun(c)
  }

  function DoIchidanDoushi(text: String, index: nat, f: Fields, delta: int): (r: seq<Node>)
    ensures !StemMatches(text, index, f) ==> r == []
    ensures Anchored(text, index, f.pre, r)
    ensures StemMatches(text, index, f) ==> |r| >= 3
  {
    if !StemMatches(text, index, f) then []
    else IchidanForms(Ctx(text, index, f, Base(HB_ICHIDAN_DOUSHI, UNSET_GYOU, f, delta)))
  }

  /** An ichidan stem followed by る yields its conclusive form (見る). */
  lemma IchidanConclusive(text: String, index: nat, f: Fields, delta: int)
    requires StemMatches(text, index, f) && StartsWith(text[index + |f.pre|..], "る")
    ensures HasForm(DoIchidanDoushi(text, index, f, delta), f.pre + "る", f.post + "る", HB_ICHIDAN_DOUSHI, SHUUSHI_KEI)
  {
    var c := Ctx(text, index, f, Base(HB_ICHIDAN_DOUSHI, UNSET_GYOU, f, delta));
    var n := Same(c, "る", SHUUSHI_KEI);
    assert n in ConclusiveForms(c, "る");
    assert n in IchidanForms(c);
  }

  // ---- Lattice::DoKahenDoushi ---------------------------------------------

  /** The forms of 来る whose reading is `kana`, spelt `kanji`: once as
      the reading extended by `kana` and once when the reading already is
      `kana`. */
  function KahenForm(c: Ctx, kana: String, kanji: String, k: KatsuyouKei): (r: seq<Node>)
    requires Ok(c)
    ensures Anchored(c.text, c.index, c.f.pre, r)
  {
    (if Starts(c, kana) then [Ext(c, kana, kanji, k)] else [])
    + (if c.f.pre == kana then [Same(c, "", k)] else [])
  }

  /** 来る (conclusive and attributive, then with a particle). */
  function KahenKuru(c: Ctx): (r: seq<Node>)
    requires Ok(c)
    ensures Anchored(c.text, c.index, c.f.pre, r)
  {
    (if Starts(c, "くる") then
       [Ext(c, "くる", "来る", SHUUSHI_KEI), Ext(c, "くる", "来る", RENTAI_KEI)]
       + (if IsSentenceParticle(T(c, 2)) then [Ext(c, Head(c, 3), "来る" + [T(c, 2)], SHUUSHI_KEI)] else [])
     else [])
    + (if c.f.pre == "くる" then ConclusiveForms(c, "") else [])
  }

  /** 来い (imperative, then with よ or や). */
  function KahenKoi(c: Ctx): (r: seq<Node>)
    requires Ok(c)
    ensures Anchored(c.text, c.index, c.f.pre, r)
  {
    (if Starts(c, "こい") then
       [Ext(c, "こい", "来い", MEIREI_KEI)]
       + (if T(c, 2) == 'よ' || T(c, 2) == 'や' then [Ext(c, Head(c, 3), "来い" + [T(c, 2)], MEIREI_KEI)] else [])
     else [])
    + (if c.f.pre == "こい" then
         [Same(c, "", MEIREI_KEI)]
         + (if T(c, 0) == 'よ' || T(c, 0) == 'や' then [Same(c, Head(c, 1), MEIREI_KEI)] else [])
       else [])
  }

  /** The forms of 来る, in the order they are appended. */
  function KahenForms(c: Ctx): (r: seq<Node>)
    requires Ok(c)
    ensures Anchored(c.text, c.index, c.f.pre, r)
  {
    KahenKuru(c) + KahenKoi(c)
    + KahenForm(c, "くれ", "来れ", KATEI_KEI) + KahenForm(c, "こ", "来", MIZEN_KEI)
    + KahenForm(c, "き", "来", RENYOU_KEI)
  }

  function DoKahenDoushi(text: String, index: nat, f: Fields, delta: int): (r: seq<Node>)
    ensures !StemMatches(text, index, f) ==> r == []
    ensures Anchored(text, index, f.pre, r)
  {
    if !StemMatches(text, index, f) then []
    else KahenForms(Ctx(text, index, f, Base(HB_KAHEN_DOUSHI, UNSET_GYOU, f, delta)))
  }

  /** A stem followed by くる yields the conclusive form written 来る. */
  lemma KahenConclusive(text: String, index: nat, f: Fields, delta: int)
    requires StemMatches(text, index, f) && StartsWith(text[index + |f.pre|..], "くる")
    ensures HasForm(DoKahenDoushi(text, index, f, delta), f.pre + "くる", f.post + "来る", HB_KAHEN_DOUSHI, SHUUSHI_KEI)
  {
    var c := Ctx(text, index, f, Base(HB_KAHEN_DOUSHI, UNSET_GYOU, f, delta));
    var n := Ext(c, "くる", "来る", SHUUSHI_KEI);
    assert n in KahenKuru(c);
    assert n in KahenForms(c);
  }

  // ---- Lattice::DoSahenDoushi ---------------------------------------------

  /** One form of a suru-verb: the za-row spelling for a za-row record,
      the sa-row spelling otherwise. */
  function SahenForm(c: Ctx, za: bool, zaSuffix: String, saSuffix: String, k: KatsuyouKei): (r: seq<Node>)
    requires Ok(c)
    ensures Anchored(c.text, c.index, c.f.pre, r)
  {
    Form(c, if za then zaSuffix else saSuffix, k)
  }

  function DoSahenDoushi(text: String, index: nat, f: Fields, delta: int): (r: seq<Node>)
    ensures !StemMatches(text, index, f) ==> r == []
    ensures Anchored(text, index, f.pre, r)
  {
    if !StemMatches(text, index, f) then []
    else
      var g := HiByte(HinshiWord(f));
      var za := g == GYOU_ZA;
      var c := Ctx(text, index, f, Base(HB_SAHEN_DOUSHI, Row(g), f, delta));
      SahenForm(c, za, "ざ", "さ", MIZEN_KEI)
      + SahenForm(c, za, "じ", "し", MIZEN_KEI)
      + SahenForm(c, za, "ぜ", "せ", MIZEN_KEI)
      + SahenForm(c, za, "じ", "し", RENYOU_KEI)
      + SahenForm(c, za, "ずる", "する", SHUUSHI_KEI)
      + SahenForm(c, za, "ずる", "する", RENYOU_KEI)
      + SahenForm(c, za, "ず", "す", SHUUSHI_KEI)
      + SahenForm(c, za, "ずれ", "すれ", KATEI_KEI)
      + SahenForm(c, za, "じろ", "しろ", MEIREI_KEI)
      + SahenForm(c, za, "ぜよ", "せよ", MEIREI_KEI)
  }

  /** A suru-verb stem followed by する (ずる for a ざ-row record) yields
      its conclusive form. */
  lemma SahenConclusive(text: String, index: nat, f: Fields, delta: int, ending: String)
    requires ending == if HiByte(HinshiWord(f)) == GYOU_ZA then "ずる" else "する"
    requires StemMatches(text, index, f) && StartsWith(text[index + |f.pre|..], ending)
    ensures HasForm(DoSahenDoushi(text, index, f, delta), f.pre + ending, f.post + ending, HB_SAHEN_DOUSHI, SHUUSHI_KEI)
  {
    var g := HiByte(HinshiWord(f));
    var c := Ctx(text, index, f, Base(HB_SAHEN_DOUSHI, Row(g), f, delta));
    var n := Same(c, ending, SHUUSHI_KEI);
    assert n in SahenForm(c, g == GYOU_ZA, "ずる", "する", SHUUSHI_KEI);
  }

  // ---- Lattice::DoMeishi --------------------------------------------------

  const TAG_DOUSHOKUBUTSU: String := "[動植物]"

  /** The noun readings: names of animals and plants may also be written
      in katakana (`kata` is `lcmap(.., LCMAP_KATAKANA | LCMAP_FULLWIDTH)`),
      and then the kanji spelling costs 30 more. */
  function MeishiForms(c: Ctx, kata: String -> String): (r: seq<Node>)
    requires Ok(c)
    ensures Anchored(c.text, c.index, c.f.pre, r)
    ensures 1 <= |r| <= 2 && r[0].pre == c.f.pre && r[0].bunrui == c.base.bunrui
    ensures !HasTag(c.base, TAG_DOUSHOKUBUTSU) ==> r[0].post == c.f.post
  {
    if HasTag(c.base, TAG_DOUSHOKUBUTSU) then
      var n := Same(c, "", KATSUYOU_NONE);
      [n.(post := kata(c.f.pre)), n.(cost := n.cost + 30)]
    else [Same(c, "", KATSUYOU_NONE)]
  }

  /** The suru-verb readings of a noun stem, before する, すれ, し or
      せよ: 10 cheaper than the noun. */
  function MeishiSahen(text: String, index: nat, f: Fields, delta: int): (r: seq<Node>)
    requires StemMatches(text, index, f)
    ensures Anchored(text, index, f.pre, r)
  {
    var c := Ctx(text, index, f, Base(HB_MEISHI, UNSET_GYOU, f, delta));
    var sahen := DoSahenDoushi(text, index, f, delta - 10);
    (if Starts(c, "する") || Starts(c, "すれ") then sahen else [])
    + (if Starts(c, "し") then sahen else [])
    + (if Starts(c, "せよ") then sahen else [])
  }

  /** The godan reading of the ら-row before たる or たれ (堂々たる). */
  function MeishiTaru(text: String, index: nat, f: Fields, delta: int): (r: seq<Node>)
    requires StemMatches(text, index, f)
    ensures Anchored(text, index, f.pre, r)
  {
    var c := Ctx(text, index, f, Base(HB_MEISHI, UNSET_GYOU, f, delta));
    if Starts(c, "たる") || Starts(c, "たれ") then
      DoGodanDoushi(text, index,
        Extend(f, "た", "た").(hinshi := MakeWordField(Ordinal(HB_GODAN_DOUSHI), GYOU_RA)), delta)
    else []
  }

  /** `Lattice::DoMeishi`: the noun itself, then the readings of the stem
      as an adjective (っぽい), a suru-verb, a na-adjective or a godan
      verb. */
  function DoMeishi(text: String, index: nat, f: Fields, delta: int, kata: String -> String): (r: seq<Node>)
    ensures !StemMatches(text, index, f) ==> r == []
    ensures Anchored(text, index, f.pre, r)
    ensures StemMatches(text, index, f) ==> |r| >= 1 && r[0].pre == f.pre && r[0].bunrui == HB_MEISHI
    ensures StemMatches(text, index, f) && !Contains(f.tags, TAG_DOUSHOKUBUTSU) ==> r[0].post == f.post
    decreases Remaining(text, index, f), 3
  {
    if !StemMatches(text, index, f) then []
    else
      var c := Ctx(text, index, f, Base(HB_MEISHI, UNSET_GYOU, f, delta));
      MeishiForms(c, kata) + MeishiPpoi(text, index, f, delta, kata) + MeishiSahen(text, index, f, delta)
      + MeishiNa(text, index, f, delta, kata) + MeishiTaru(text, index, f, delta)
  }

  /** The i-adjective reading before っぽ (子供っぽい). */
  function MeishiPpoi(text: String, index: nat, f: Fields, delta: int, kata: String -> String): (r: seq<Node>)
    requires StemMatches(text, index, f)
    ensures Anchored(text, index, f.pre, r)
    decreases Remaining(text, index, f), 0
  {
    if StartsWith(text[index + |f.pre|..], "っぽ") then
      DoIkeiyoushi(text, index, Extend(f, "っぽ", "っぽ"), delta, kata)
    else []
  }

  /** The na-adjective reading before な. */
  function MeishiNa(text: String, index: nat, f: Fields, delta: int, kata: String -> String): (r: seq<Node>)
    requires StemMatches(text, index, f)
    ensures Anchored(text, index, f.pre, r)
    decreases Remaining(text, index, f), 2
  {
    if CharAt(text, index + |f.pre|) == 'な' then DoNakeiyoushi(text, index, f, delta, kata) else []
  }

  // ---- Lattice::DoFukushi -------------------------------------------------

  function DoFukushi(text: String, index: nat, f: Fields, delta: int): (r: seq<Node>)
    ensures !StemMatches(text, index, f) ==> r == []
    ensures Anchored(text, index, f.pre, r)
  {
    if !StemMatches(text, index, f) then []
    else
      var c := Ctx(text, index, f, Base(HB_FUKUSHI, UNSET_GYOU, f, delta));
      [Same(c, "", KATSUYOU_NONE)]
      + (if |Tail(c)| >= 1 && (T(c, 0) == 'と' || T(c, 0) == 'に') then [Same(c, Head(c, 1), KATSUYOU_NONE)] else [])
      + (if |Tail(c)| >= 2 && T(c, 0) == 'っ' && (T(c, 1) == 'と' || T(c, 1) == 'て') then
           [Same(c, Head(c, 2), KATSUYOU_NONE)]
         else [])
  }

  /** An adverb does not inflect: its first node is the record itself,
      and a following と or に is also taken in (ゆっくりと). */
  lemma FukushiPlain(text: String, index: nat, f: Fields, delta: int)
    requires StemMatches(text, index, f)
    ensures var r := DoFukushi(text, index, f, delta);
      |r| >= 1 && r[0].pre == f.pre && r[0].post == f.post && r[0].bunrui == HB_FUKUSHI && r[0].katsuyou == KATSUYOU_NONE
    ensures forall p :: p in {"と", "に"} && StartsWith(text[index + |f.pre|..], p) ==>
      HasForm(DoFukushi(text, index, f, delta), f.pre + p, f.post + p, HB_FUKUSHI, KATSUYOU_NONE)
  {
    var c := Ctx(text, index, f, Base(HB_FUKUSHI, UNSET_GYOU, f, delta));
    assert Same(c, "", KATSUYOU_NONE).pre == f.pre;
    forall p | p in {"と", "に"} && StartsWith(text[index + |f.pre|..], p)
      ensures HasForm(DoFukushi(text, index, f, delta), f.pre + p, f.post + p, HB_FUKUSHI, KATSUYOU_NONE)
    {
      assert Head(c, 1) == p;
      assert Same(c, Head(c, 1), KATSUYOU_NONE) in DoFukushi(text, index, f, delta);
    }
  }

  // ---- Lattice::DoFields --------------------------------------------------

  /** The records whose class is pushed as it stands. */
  predicate IsPlainClass(b: HinshiBunrui)
  {
    b == HB_PERIOD || b == HB_COMMA || b == HB_SYMBOL || b == HB_RENTAISHI
    || b == HB_SETSUZOKUSHI || b == HB_KANDOUSHI || b == HB_KAKU_JOSHI
    || b == HB_SETSUZOKU_JOSHI || b == HB_FUKU_JOSHI || b == HB_SHUU_JOSHI
    || b == HB_KANGO || b == HB_SETTOUJI || b == HB_SETSUBIJI
  }

  /** The form a split auxiliary class stands for. */
  function JodoushiForm(b: HinshiBunrui): Option<KatsuyouKei>
  {
    match b
    case HB_MIZEN_JODOUSHI => Some(MIZEN_KEI)
    case HB_RENYOU_JODOUSHI => Some(RENYOU_KEI)
    case HB_SHUUSHI_JODOUSHI => Some(SHUUSHI_KEI)
    case HB_RENTAI_JODOUSHI => Some(RENTAI_KEI)
    case HB_KATEI_JODOUSHI => Some(KATEI_KEI)
    case HB_MEIREI_JODOUSHI => Some(MEIREI_KEI)
    case _ => None
  }

  /** The node of a record whose class is pushed without inflection:
      plain classes as they stand, the split auxiliary classes as
      `HB_JODOUSHI` in their form; the row is the high byte of the
      part-of-speech word. */
  function DirectNodes(text: String, index: nat, f: Fields, delta: int, b: HinshiBunrui): (r: seq<Node>)
    requires StemMatches(text, index, f)
    ensures Anchored(text, index, f.pre, r)
    ensures IsPlainClass(b) ==> |r| == 1 && r[0].pre == f.pre && r[0].post == f.post && r[0].bunrui == b
    ensures JodoushiForm(b).Some? ==>
              |r| == 1 && r[0].pre == f.pre && r[0].bunrui == HB_JODOUSHI
              && r[0].katsuyou == JodoushiForm(b).value
    ensures !IsPlainClass(b) && JodoushiForm(b).None? ==> r == []
  {
    var c := Ctx(text, index, f, Base(b, Row(HiByte(HinshiWord(f))), f, delta));
    if IsPlainClass(b) then
      PlainIsNotSplit(b);
      [Same(c, "", KATSUYOU_NONE)]
    else if JodoushiForm(b).Some? then [Same(c, "", JodoushiForm(b).value).(bunrui := HB_JODOUSHI)]
    else []
  }

  /** No plain class is a split auxiliary class. */
  lemma PlainIsNotSplit(b: HinshiBunrui)
    requires IsPlainClass(b)
    ensures JodoushiForm(b).None?
  {
  }

  /** The verb classes and their generators. */
  function VerbNodes(text: String, index: nat, f: Fields, delta: int, b: HinshiBunrui): (r: seq<Node>)
    requires IsVerbClass(b)
    ensures Anchored(text, index, f.pre, r)
  {
    match b
    case HB_GODAN_DOUSHI => DoGodanDoushi(text, index, f, delta)
    case HB_ICHIDAN_DOUSHI => DoIchidanDoushi(text, index, f, delta)
    case HB_KAHEN_DOUSHI => DoKahenDoushi(text, index, f, delta)
    case HB_SAHEN_DOUSHI => DoSahenDoushi(text, index, f, delta)
  }

  /** The noun, adverb and adjective classes and their generators. */
  function NominalNodes(text: String, index: nat, f: Fields, delta: int, kata: String -> String, b: HinshiBunrui): (r: seq<Node>)
    requires IsNominalClass(b)
    ensures Anchored(text, index, f.pre, r)
  {
    match b
    case HB_MEISHI => DoMeishi(text, index, f, delta, kata)
    case HB_FUKUSHI => DoFukushi(text, index, f, delta)
    case HB_IKEIYOUSHI => DoIkeiyoushi(text, index, f, delta, kata)
    case HB_NAKEIYOUSHI => DoNakeiyoushi(text, index, f, delta, kata)
  }

  predicate IsNominalClass(b: HinshiBunrui)
  {
    b == HB_MEISHI || b == HB_FUKUSHI || b == HB_IKEIYOUSHI || b == HB_NAKEIYOUSHI
  }

  /** `Lattice::DoFields`: the record's class byte decides which generator
      runs; plain classes and the split auxiliary classes are pushed
      directly, and an unknown class byte or a class without a case
      (`HB_HEAD`, `HB_TAIL`, `HB_UNKNOWN`, `HB_JODOUSHI`) appends
      nothing. */
  function DoFields(text: String, index: nat, f: Fields, delta: int, kata: String -> String): (r: seq<Node>)
    ensures !StemMatches(text, index, f) ==> r == []
    ensures Anchored(text, index, f.pre, r)
  {
    if !StemMatches(text, index, f) then []
    else
      match FromByte(LoByte(HinshiWord(f)))
      case None => []
      case Some(b) =>
        if IsNominalClass(b) then NominalNodes(text, index, f, delta, kata, b)
        else if IsVerbClass(b) then VerbNodes(text, index, f, delta, b)
        else DirectNodes(text, index, f, delta, b)
  }

  /** A record of a plain class or a split auxiliary class makes exactly
      the one direct node. */
  lemma DoFieldsDirect(text: String, index: nat, f: Fields, delta: int, kata: String -> String, b: HinshiBunrui)
    requires StemMatches(text, index, f) && FromByte(LoByte(HinshiWord(f))) == Some(b)
    requires IsPlainClass(b) || JodoushiForm(b).Some?
    ensures DoFields(text, index, f, delta, kata) == DirectNodes(text, index, f, delta, b)
  {
    assert !IsNominalClass(b) && !IsVerbClass(b);
  }

  /** A noun record runs the noun generator. */
  lemma DoFieldsNoun(text: String, index: nat, f: Fields, delta: int, kata: String -> String)
    requires StemMatches(text, index, f) && FromByte(LoByte(HinshiWord(f))) == Some(HB_MEISHI)
    ensures DoFields(text, index, f, delta, kata) == DoMeishi(text, index, f, delta, kata)
  {
  }

  /** A class byte past `HB_SYMBOL`, or a class the switch has no case
      for, appends nothing. */
  lemma DoFieldsIgnoresOtherClasses(text: String, index: nat, f: Fields, delta: int, kata: String -> String)
    requires FromByte(LoByte(HinshiWord(f))).None?
             || FromByte(LoByte(HinshiWord(f))).value in {HB_HEAD, HB_TAIL, HB_UNKNOWN, HB_JODOUSHI}
    ensures DoFields(text, index, f, delta, kata) == []
  {
    if StemMatches(text, index, f) && FromByte(LoByte(HinshiWord(f))).Some? {
      var b := FromByte(LoByte(HinshiWord(f))).value;
      assert !IsNominalClass(b) && !IsVerbClass(b) && !IsPlainClass(b) && JodoushiForm(b).None?;
    }
  }
}
