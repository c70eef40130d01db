/** Keys and characters of `keychar.cpp`: the kana-keyboard layout, the
    character classes, the table-driven romaji conversions and the
    insertion of a typed character at the cursor. */
module KeyChar {
  import opened Wrappers
  import opened Bytes
  import opened Text
  import opened RomajiTables

  // ---- The kana keyboard ---------------------------------------------------------

  /** `convert_key_to_kana`: the kana printed on each key of the Japanese
      keyboard, NUL for any other key. The letter and digit keys are their
      ASCII codes; the OEM keys are those of the Windows headers. */
  function ConvertKeyToKana(vk: Byte, shift: bool): (c: char)
  {
    match vk
    case 0x41 => 'ち'
    case 0x42 => 'こ'
    case 0x43 => 'そ'
    case 0x44 => 'し'
    case 0x45 => if shift then 'ぃ' else 'い'
    case 0x46 => 'は'
    case 0x47 => 'き'
    case 0x48 => 'く'
    case 0x49 => 'に'
    case 0x4A => 'ま'
    case 0x4B => 'の'
    case 0x4C => 'り'
    case 0x4D => 'も'
    case 0x4E => 'み'
    case 0x4F => 'ら'
    case 0x50 => 'せ'
    case 0x51 => 'た'
    case 0x52 => 'す'
    case 0x53 => 'と'
    case 0x54 => 'か'
    case 0x55 => 'な'
    case 0x56 => 'ひ'
    case 0x57 => 'て'
    case 0x58 => 'さ'
    case 0x59 => 'ん'
    case 0x5A => if shift then 'っ' else 'つ'
    case 0x30 => if shift then 'を' else 'わ'
    case 0x31 => 'ぬ'
    case 0x32 => 'ふ'
    case 0x33 => if shift then 'ぁ' else 'あ'
    case 0x34 => if shift then 'ぅ' else 'う'
    case 0x35 => if shift then 'ぇ' else 'え'
    case 0x36 => if shift then 'ぉ' else 'お'
    case 0x37 => if shift then 'ゃ' else 'や'
    case 0x38 => if shift then 'ゅ' else 'ゆ'
    case 0x39 => if shift then 'ょ' else 'よ'
    case 0xBB => 'れ'   // VK_OEM_PLUS
    case 0xE2 => 'ろ'   // VK_OEM_102
    case 0xBA => 'け'   // VK_OEM_1
    case 0xBF => if shift then '・' else 'め'   // VK_OEM_2
    case 0xC0 => '゛'   // VK_OEM_3
    case 0xDB => if shift then '「' else '゜'   // VK_OEM_4
    case 0xDC => 'ー'   // VK_OEM_5
    case 0xDD => if shift then '」' else 'む'   // VK_OEM_6
    case 0xDE => 'へ'   // VK_OEM_7
    case 0xBC => if shift then '、' else 'ね'   // VK_OEM_COMMA
    case 0xBE => if shift then '。' else 'る'   // VK_OEM_PERIOD
    case _ => '\0'
  }

  /** The keys with a kana: the letters, the digits and eleven OEM keys. */
  predicate KanaKey(vk: Byte)
  {
    0x41 <= vk <= 0x5A || 0x30 <= vk <= 0x39
    || vk in {0xBA, 0xBB, 0xBC, 0xBE, 0xBF, 0xC0, 0xDB, 0xDC, 0xDD, 0xDE, 0xE2}
  }

  /** The keys whose kana changes with Shift: E, Z, 0, 3-9, and the OEM
      keys of `/`, `[`, `]`, comma and period. */
  predicate ShiftedKey(vk: Byte)
  {
    vk in {0x45, 0x5A, 0x30, 0x33, 0x34, 0x35, 0x36, 0x37, 0x38, 0x39,
           0xBF, 0xDB, 0xDD, 0xBC, 0xBE}
  }

  /** Only the listed keys have a kana, and Shift matters on exactly the
      shifted ones. */
  lemma KanaKeyLayout(vk: Byte)
    ensures ConvertKeyToKana(vk, false) != '\0' <==> KanaKey(vk)
    ensures ConvertKeyToKana(vk, true) != '\0' <==> KanaKey(vk)
    ensures ConvertKeyToKana(vk, true) != ConvertKeyToKana(vk, false) <==> ShiftedKey(vk)
  {
  }

  // ---- Character classes -----------------------------------------------------------

  /** `is_hiragana`: the hiragana block, and the listed marks. */
  predicate IsHiragana(c: char)
  {
    (0x3040 <= c as int <= 0x309F)
    || c as int in {0x3095, 0x3096, 0x3099, 0x309A, 0x309B, 0x309C, 0x309D, 0x309E, 0x30FC}
  }

  /** `is_zenkaku_katakana`: the katakana block, and the listed marks. */
  predicate IsZenkakuKatakana(c: char)
  {
    (0x30A0 <= c as int <= 0x30FF)
    || c as int in {0x30FD, 0x30FE, 0x3099, 0x309A, 0x309B, 0x309C, 0x30FC}
  }

  /** `is_hankaku_katakana`. */
  predicate IsHankakuKatakana(c: char)
  {
    (0xFF65 <= c as int <= 0xFF9F) || c as int in {0xFF61, 0xFF62, 0xFF63, 0xFF64}
  }

  /** `is_kanji`: the unified and the compatibility ideographs. */
  predicate IsKanji(c: char)
  {
    (0x4E00 <= c as int <= 0x9FFF) || (0xF900 <= c as int <= 0xFAFF)
  }

  /** `is_fullwidth_ascii`: the whole half- and full-width forms block. */
  predicate IsFullwidthAscii(c: char)
  {
    0xFF00 <= c as int <= 0xFFEF
  }

  /** Most of the listed marks already lie in the blocks: each class is one
      block plus a single extra run. */
  lemma ClassesAsRanges(c: char)
    ensures IsHiragana(c) <==> 0x3040 <= c as int <= 0x309F || c as int == 0x30FC
    ensures IsZenkakuKatakana(c) <==> 0x30A0 <= c as int <= 0x30FF || 0x3099 <= c as int <= 0x309C
    ensures IsHankakuKatakana(c) <==> 0xFF61 <= c as int <= 0xFF9F
  {
  }

  /** The characters both kana classes claim: the voicing marks and the
      long-vowel mark. */
  lemma SharedKanaMarks(c: char)
    ensures IsHiragana(c) && IsZenkakuKatakana(c) <==> 0x3099 <= c as int <= 0x309C || c as int == 0x30FC
  {
  }

  /** Half-width katakana lies inside the full-width-ASCII range, so a
      caller testing `is_fullwidth_ascii` first never sees it as kana. */
  lemma HankakuInsideFullwidth(c: char)
    ensures IsHankakuKatakana(c) ==> IsFullwidthAscii(c)
    ensures IsKanji(c) ==> !IsHiragana(c) && !IsZenkakuKatakana(c) && !IsFullwidthAscii(c)
  {
  }

  // ---- Table-driven conversion ------------------------------------------------------

  /** A search string and its replacement. */
  type Rule = (Nonempty, Nonempty)

  /** Each entry read key to value. */
  function Forward(t: Table): (r: seq<Rule>)
    ensures |r| == |t| && forall i :: 0 <= i < |t| ==> r[i] == (t[i].key, t[i].value)
  {
    seq(|t|, i requires 0 <= i < |t| => (t[i].key, t[i].value))
  }

  /** Each entry read value to key. */
  function Backward(t: Table): (r: seq<Rule>)
    ensures |r| == |t| && forall i :: 0 <= i < |t| ==> r[i] == (t[i].value, t[i].key)
  {
    seq(|t|, i requires 0 <= i < |t| => (t[i].value, t[i].key))
  }

  /** `replace_all` with each rule in turn. */
  function Rewrite(s: String, rules: seq<Rule>): String
    decreases |rules|
  {
    if |rules| == 0 then s
    else ReplaceAll(Rewrite(s, rules[..|rules| - 1]), rules[|rules| - 1].0, rules[|rules| - 1].1)
  }

  /** Rewriting with two rule lists is rewriting with the first, then the
      second. */
  lemma {:induction false} RewriteAppend(s: String, p: seq<Rule>, q: seq<Rule>)
    ensures Rewrite(s, p + q) == Rewrite(Rewrite(s, p), q)
    decreases |q|
  {
    if |q| > 0 {
      var q' := q[..|q| - 1];
      assert (p + q)[..|p + q| - 1] == p + q';
      assert (p + q)[|p + q| - 1] == q[|q| - 1];
      RewriteAppend(s, p, q');
    } else {
      assert p + q == p;
    }
  }

  /** A string none of whose characters can start a search string passes
      every rule unchanged. */
  lemma {:induction false} RewriteAvoiding(s: String, rules: seq<Rule>, starts: set<char>)
    requires forall i :: 0 <= i < |rules| ==> rules[i].0[0] in starts
    requires forall k :: 0 <= k < |s| ==> s[k] !in starts
    ensures Rewrite(s, rules) == s
    decreases |rules|
  {
    if |rules| > 0 {
      var init := rules[..|rules| - 1];
      RewriteAvoiding(s, init, starts);
      var from := rules[|rules| - 1].0;
      assert !Contains(s, from) by {
        forall i | 0 <= i < |s| ensures !OccursAt(s, from, i) {
          assert s[i] !in starts;
        }
      }
      ReplaceAllAbsent(s, from, rules[|rules| - 1].1);
    }
  }

  /** Runs `replace_all` with each rule in turn, as the loops of the two
      converters do. */
  method ApplyRules(s: String, rules: seq<Rule>) returns (r: String)
    ensures r == Rewrite(s, rules)
  {
    r := s;
    for i := 0 to |rules|
      invariant r == Rewrite(s, rules[..i])
    {
      assert rules[..i + 1][..i] == rules[..i];
      r := ReplaceAll(r, rules[i].0, rules[i].1);
    }
    assert rules[..|rules|] == rules;
  }

  /** `romaji_to_hiragana`: the doubled-consonant rules, then the romaji
      rules, each key to value in table order. */
  method RomajiToHiragana(romaji: String) returns (hiragana: String)
    ensures hiragana == Rewrite(romaji, Forward(SOKUON_TABLE) + Forward(ROMAJI_TABLE))
  {
    hiragana := ApplyRules(romaji, Forward(SOKUON_TABLE));
    hiragana := ApplyRules(hiragana, Forward(ROMAJI_TABLE));
    RewriteAppend(romaji, Forward(SOKUON_TABLE), Forward(ROMAJI_TABLE));
  }

  /** `hiragana_to_romaji`: the doubled-consonant rules value to key, the
      reverse rules key to value, then the romaji rules value to key. */
  method HiraganaToRomaji(hiragana: String) returns (romaji: String)
    ensures romaji == Rewrite(hiragana, Backward(SOKUON_TABLE) + Forward(REVERSE_TABLE) + Backward(ROMAJI_TABLE))
  {
    romaji := ApplyRules(hiragana, Backward(SOKUON_TABLE));
    romaji := ApplyRules(romaji, Forward(REVERSE_TABLE));
    romaji := ApplyRules(romaji, Backward(ROMAJI_TABLE));
    RewriteAppend(hiragana, Backward(SOKUON_TABLE), Forward(REVERSE_TABLE));
    RewriteAppend(hiragana, Backward(SOKUON_TABLE) + Forward(REVERSE_TABLE), Backward(ROMAJI_TABLE));
  }

  // ---- Typing at the cursor -----------------------------------------------------------

  /** `s` with `c` inserted at `pos`. */
  function Inserted(s: String, c: char, pos: nat): (r: String)
    requires pos <= |s|
    ensures |r| == |s| + 1 && r[pos] == c
    ensures r[..pos] == s[..pos] && r[pos + 1..] == s[pos..]
  {
    s[..pos] + [c] + s[pos..]
  }

  /** `key` ends exactly at `cur` in `s`. */
  predicate EndsAt(s: String, cur: nat, key: String)
  {
    |key| <= cur <= |s| && s[cur - |key|..cur] == key
  }

  /** The first entry of `t`, from index `from` on, whose key ends at `cur`. */
  function KeyEndingAt(t: Table, s: String, cur: nat, from: nat): (r: Option<nat>)
    requires from <= |t|
    ensures r.Some? ==> from <= r.value < |t| && EndsAt(s, cur, t[r.value].key)
    ensures r.Some? ==> forall j :: from <= j < r.value ==> !EndsAt(s, cur, t[j].key)
    ensures r.None? ==> forall j :: from <= j < |t| ==> !EndsAt(s, cur, t[j].key)
    decreases |t| - from
  {
    if from == |t| then None
    else if EndsAt(s, cur, t[from].key) then Some(from)
    else KeyEndingAt(t, s, cur, from + 1)
  }

  /** The text after the first key of `t` ending at `cur` is replaced by its
      own value; `None` when no key ends there. */
  function ReplaceFirstKey(t: Table, s: String, cur: nat): (r: Option<String>)
  {
    match KeyEndingAt(t, s, cur, 0)
    case Some(i) => Some(s[..cur - |t[i].key|] + t[i].value + s[cur..])
    case None => None
  }

  /** What typing `ch` at `cursor` leaves, with each table entry replaced by
      its own value: the insertion, with the first doubled-consonant key and
      otherwise the first romaji key ending at the new cursor replaced. */
  function RomajiTyped(s: String, ch: char, cursor: nat): String
    requires cursor <= |s|
  {
    var t := Inserted(s, ch, cursor);
    match ReplaceFirstKey(SOKUON_TABLE, t, cursor + 1)
    case Some(r) => r
    case None =>
      match ReplaceFirstKey(ROMAJI_TABLE, t, cursor + 1)
      case Some(r) => r
      case None => t
  }

  /** The loop of `add_romaji_char` over one table, with the replacement
      text taken from the entry whose key matched. */
  method ReplaceKeyAt(t: Table, s: String, cur: nat) returns (found: bool, r: String)
    requires cur <= |s|
    ensures found <==> ReplaceFirstKey(t, s, cur).Some?
    ensures found ==> r == ReplaceFirstKey(t, s, cur).value
  {
    var i := 0;
    while i < |t|
      invariant 0 <= i <= |t|
      invariant KeyEndingAt(t, s, cur, 0) == KeyEndingAt(t, s, cur, i)
    {
      var key := t[i].key;
      if |key| <= cur {
        var p := cur - |key|;
        if s[p..p + |key|] == key {
          return true, s[..p] + t[i].value + s[cur..];
        }
      }
      i := i + 1;
    }
    return false, s;
  }

  /** `add_romaji_char` with the table index the code evidently meant: `ch`
      goes in at the cursor, the cursor moves on by one, and at most one
      key ending there is replaced by its own value. */
  method AddRomajiCharIntended(s: String, ch: char, cursor: nat) returns (r: String, newCursor: nat)
    requires cursor <= |s|
    ensures newCursor == cursor + 1
    ensures r == RomajiTyped(s, ch, cursor)
  {
    r := Inserted(s, ch, cursor);
    newCursor := cursor + 1;
    var found, replaced := ReplaceKeyAt(SOKUON_TABLE, r, newCursor);
    if !found {
      found, replaced := ReplaceKeyAt(ROMAJI_TABLE, r, newCursor);
    }
    if found {
      r := replaced;
    }
  }

  /** What reading entry `p` of table `t` yields when `p` lies past the end
      of the table: memory the table does not own, so a parameter here. */
  type PastEnd = (Table, nat) -> String

  /** The value of entry `p` of `t`, read past the end through `pastEnd`. */
  function ValueAt(t: Table, p: nat, pastEnd: PastEnd): String
  {
    if p < |t| then t[p].value else pastEnd(t, p)
  }

  /** The text after the first key of `t` ending at `cur` is replaced, as
      `add_romaji_char` is written, by the value of the entry whose index
      is the key's position in the text; `None` when no key ends there. */
  function ReplaceFirstKeyShadowed(t: Table, s: String, cur: nat, pastEnd: PastEnd): (r: Option<String>)
    ensures r.Some? <==> ReplaceFirstKey(t, s, cur).Some?
  {
    match KeyEndingAt(t, s, cur, 0)
    case Some(i) =>
      var p := cur - |t[i].key|;
      Some(s[..p] + ValueAt(t, p, pastEnd) + s[cur..])
    case None => None
  }

  /** `add_romaji_char` as written: the table index `i` is shadowed by the
      match position `i`, so the replacement text is read from the entry at
      that position, and from past the end of the table when the position
      exceeds it. */
  function AddRomajiCharShadowed(s: String, ch: char, cursor: nat, pastEnd: PastEnd): String
    requires cursor <= |s|
  {
    var t := Inserted(s, ch, cursor);
    match ReplaceFirstKeyShadowed(SOKUON_TABLE, t, cursor + 1, pastEnd)
    case Some(r) => r
    case None =>
      match ReplaceFirstKeyShadowed(ROMAJI_TABLE, t, cursor + 1, pastEnd)
      case Some(r) => r
      case None => t
  }

  /** One table pass of `add_romaji_char` as written: the key is found as
      intended, but the replacement is read at the key's position. */
  method ReplaceKeyAtShadowed(t: Table, s: String, cur: nat, pastEnd: PastEnd) returns (found: bool, r: String)
    requires cur <= |s|
    ensures found <==> ReplaceFirstKeyShadowed(t, s, cur, pastEnd).Some?
    ensures found ==> r == ReplaceFirstKeyShadowed(t, s, cur, pastEnd).value
  {
    var i := 0;
    while i < |t|
      invariant 0 <= i <= |t|
      invariant KeyEndingAt(t, s, cur, 0) == KeyEndingAt(t, s, cur, i)
    {
      var key := t[i].key;
      if |key| <= cur {
        var pos := cur - |key|;
        if s[pos..pos + |key|] == key {
          return true, s[..pos] + ValueAt(t, pos, pastEnd) + s[cur..];
        }
      }
      i := i + 1;
    }
    return false, s;
  }

  /** `add_romaji_char`: `ch` goes in at the cursor and the cursor moves on
      by one; the first doubled-consonant key, or else the first romaji
      key, ending at the new cursor is replaced by the value of the entry
      indexed by the key's position (the shadowed index). */
  method AddRomajiChar(s: String, ch: char, cursor: nat, pastEnd: PastEnd) returns (r: String, newCursor: nat)
    requires cursor <= |s|
    ensures newCursor == cursor + 1
    ensures r == AddRomajiCharShadowed(s, ch, cursor, pastEnd)
  {
    r := Inserted(s, ch, cursor);
    newCursor := cursor + 1;
    var found, replaced := ReplaceKeyAtShadowed(SOKUON_TABLE, r, newCursor, pastEnd);
    if !found {
      found, replaced := ReplaceKeyAtShadowed(ROMAJI_TABLE, r, newCursor, pastEnd);
    }
    if found {
      r := replaced;
    }
  }

  /** The code as written and as meant agree whenever the matched entry's
      index happens to equal its position in the text, and they keep the
      same text around the replacement in every case: only the inserted
      value can differ. */
  lemma ShadowedAgreesAtOwnIndex(t: Table, s: String, cur: nat, pastEnd: PastEnd)
    requires cur <= |s|
    ensures KeyEndingAt(t, s, cur, 0).Some? && KeyEndingAt(t, s, cur, 0).value == cur - |t[KeyEndingAt(t, s, cur, 0).value].key|
            ==> ReplaceFirstKeyShadowed(t, s, cur, pastEnd) == ReplaceFirstKey(t, s, cur)
    ensures ReplaceFirstKeyShadowed(t, s, cur, pastEnd).Some? ==>
            var i := KeyEndingAt(t, s, cur, 0).value;
            var p := cur - |t[i].key|;
            ReplaceFirstKey(t, s, cur).value == s[..p] + t[i].value + s[cur..]
            && ReplaceFirstKeyShadowed(t, s, cur, pastEnd).value == s[..p] + ValueAt(t, p, pastEnd) + s[cur..]
  {
  }

  /** Typing never touches the text after the cursor, and with no key
      ending at the new cursor it is the plain insertion. */
  lemma RomajiTypedShape(s: String, ch: char, cursor: nat)
    requires cursor <= |s|
    ensures KeyEndingAt(SOKUON_TABLE, Inserted(s, ch, cursor), cursor + 1, 0).None?
            && KeyEndingAt(ROMAJI_TABLE, Inserted(s, ch, cursor), cursor + 1, 0).None?
            ==> RomajiTyped(s, ch, cursor) == Inserted(s, ch, cursor)
    ensures EndsWith(RomajiTyped(s, ch, cursor), s[cursor..])
  {
    var t := Inserted(s, ch, cursor);
    assert t[cursor + 1..] == s[cursor..];
    KeepsTail(SOKUON_TABLE, t, cursor + 1);
    KeepsTail(ROMAJI_TABLE, t, cursor + 1);
  }

  /** A replacement keeps the text after `cur`. */
  lemma KeepsTail(t: Table, s: String, cur: nat)
    requires cur <= |s|
    ensures ReplaceFirstKey(t, s, cur).Some? ==> EndsWith(ReplaceFirstKey(t, s, cur).value, s[cur..])
  {
    if ReplaceFirstKey(t, s, cur).Some? {
      var i := KeyEndingAt(t, s, cur, 0).value;
      var r := ReplaceFirstKey(t, s, cur).value;
      assert r == s[..cur - |t[i].key|] + t[i].value + s[cur..];
      assert r[|r| - |s[cur..]|..] == s[cur..];
    }
  }

  /** The first two doubled-consonant entries. */
  lemma SokuonHead()
    ensures |SOKUON_TABLE| > 1
    ensures SOKUON_TABLE[0] == Entry("zzyu", "っじゅ", "") && SOKUON_TABLE[1] == Entry("zzyo", "っじょ", "")
  {
    assert SOKUON_0[0] == Entry("zzyu", "っじゅ", "") && SOKUON_0[1] == Entry("zzyo", "っじょ", "");
    assert |SOKUON_0| == 40;
  }

  /** In "azzyu" the first doubled-consonant key ending at 5 is entry 0. */
  lemma SokuonKeyOfAzzyu()
    ensures KeyEndingAt(SOKUON_TABLE, "azzyu", 5, 0) == Some(0)
  {
    SokuonHead();
    assert EndsAt("azzyu", 5, SOKUON_TABLE[0].key) by { assert "azzyu"[1..5] == "zzyu"; }
  }

  /** Typing `u` after "azzy" completes the key "zzyu" at position 1; the
      source then writes the value of entry 1 ("っじょ") where entry 0's
      value ("っじゅ") belongs. */
  lemma ShadowedIndexMisreplaces(pastEnd: PastEnd)
    ensures AddRomajiCharShadowed("azzy", 'u', 4, pastEnd) == "aっじょ"
    ensures RomajiTyped("azzy", 'u', 4) == "aっじゅ"
  {
    var t := Inserted("azzy", 'u', 4);
    assert t == "azzyu";
    SokuonHead();
    SokuonKeyOfAzzyu();
    assert t[..1] + SOKUON_TABLE[1].value + t[5..] == "aっじょ";
    assert t[..1] + SOKUON_TABLE[0].value + t[5..] == "aっじゅ";
  }

  /** `add_ascii_char`: `ch` goes in at the cursor, which moves on by one. */
  method AddAsciiChar(s: String, ch: char, cursor: nat) returns (r: String, newCursor: nat)
    requires cursor <= |s|
    ensures r == Inserted(s, ch, cursor) && newCursor == cursor + 1
  {
    r := s[..cursor] + [ch] + s[cursor..];
    newCursor := cursor + 1;
  }

  /** `add_hiragana_char` (`katakana` false) and `add_katakana_char`
      (`katakana` true): one character goes in at the cursor. It is `ch`
      itself unless `ch` is of the other kana kind, and then `mapped`, what
      the locale mapping call writes back; the string handed to that call is
      cleared to NUL before the call, so `mapped` does not depend on `ch`. */
  function KanaInserted(s: String, ch: char, cursor: nat, katakana: bool, mapped: char): (r: String)
    requires cursor <= |s|
    ensures |r| == |s| + 1 && r[..cursor] == s[..cursor] && r[cursor + 1..] == s[cursor..]
    ensures r[cursor] == ch || r[cursor] == mapped
    ensures (if katakana then !IsHiragana(ch) else !IsZenkakuKatakana(ch)) ==> r[cursor] == ch
  {
    var other := if katakana then IsHiragana(ch) else IsZenkakuKatakana(ch);
    Inserted(s, if other then mapped else ch, cursor)
  }
}
