/** The romaji tables of `keychar.cpp`: each entry is a key, the text
    that replaces it and an extra column no code reads, in the order of the
    source (descending by key). Each table is written in parts of at most
    40 entries. */
module RomajiTables {
  /** A table string: every key and value of the three tables is non-empty. */
  type Nonempty = s: string | |s| > 0 witness "-"

  datatype Entry = Entry(key: Nonempty, value: Nonempty, extra: string)

  type Table = seq<Entry>

  /** `reverse_table`: hiragana to romaji. */
  const REVERSE_TABLE: Table := REVERSE_0 + REVERSE_1 + REVERSE_2 + REVERSE_3 + REVERSE_4 + REVERSE_5

  const REVERSE_0: Table := [
    Entry("〜", "~", ""),
    Entry("ー", "-", ""),
    Entry("んお", "n'o", ""),
    Entry("んえ", "n'e", ""),
    Entry("んう", "n'u", ""),
    Entry("んい", "n'i", ""),
    Entry("んあ", "n'a", ""),
    Entry("ん", "n", ""),
    Entry("を", "wo", ""),
    Entry("ゑ", "we", ""),
    Entry("ゐ", "wi", ""),
    Entry("わ", "wa", ""),
    Entry("ゎ", "xwa", ""),
    Entry("ろ", "ro", ""),
    Entry("れ", "re", ""),
    Entry("る", "ru", ""),
    Entry("りょ", "ryo", ""),
    Entry("りゅ", "ryu", ""),
    Entry("りゃ", "rya", ""),
    Entry("りぇ", "rye", ""),
    Entry("りぃ", "ryi", ""),
    Entry("り", "ri", ""),
    Entry("ら", "ra", ""),
    Entry("よ", "yo", ""),
    Entry("ょ", "xyo", ""),
    Entry("ゆ", "yu", ""),
    Entry("ゅ", "xyu", ""),
    Entry("や", "ya", ""),
    Entry("ゃ", "xya", ""),
    Entry("も", "mo", ""),
    Entry("め", "me", ""),
    Entry("む", "mu", ""),
    Entry("みょ", "myo", ""),
    Entry("みゅ", "myu", ""),
    Entry("みゃ", "mya", ""),
    Entry("みぇ", "mye", ""),
    Entry("みぃ", "myi", ""),
    Entry("み", "mi", ""),
    Entry("ま", "ma", ""),
    Entry("ぽ", "po", "")
  ]

  const REVERSE_1: Table := [
    Entry("ぼ", "bo", ""),
    Entry("ほ", "ho", ""),
    Entry("ぺ", "pe", ""),
    Entry("べ", "be", ""),
    Entry("へ", "he", ""),
    Entry("ぷ", "pu", ""),
    Entry("ぶ", "bu", ""),
    Entry("ふ", "hu", ""),
    Entry("ぴょ", "pyo", ""),
    Entry("ぴゅ", "pyu", ""),
    Entry("ぴゃ", "pya", ""),
    Entry("ぴぇ", "pye", ""),
    Entry("ぴぃ", "pyi", ""),
    Entry("ぴ", "pi", ""),
    Entry("びょ", "byo", ""),
    Entry("びゅ", "byu", ""),
    Entry("びゃ", "bya", ""),
    Entry("びぇ", "bye", ""),
    Entry("びぃ", "byi", ""),
    Entry("び", "bi", ""),
    Entry("ひょ", "hyo", ""),
    Entry("ひゅ", "hyu", ""),
    Entry("ひゃ", "hya", ""),
    Entry("ひぇ", "hye", ""),
    Entry("ひぃ", "hyi", ""),
    Entry("ひ", "hi", ""),
    Entry("ぱ", "pa", ""),
    Entry("ば", "ba", ""),
    Entry("は", "ha", ""),
    Entry("の", "no", ""),
    Entry("ね", "ne", ""),
    Entry("ぬ", "nu", ""),
    Entry("にょ", "nyo", ""),
    Entry("にゅ", "nyu", ""),
    Entry("にゃ", "nya", ""),
    Entry("にぇ", "nye", ""),
    Entry("にぃ", "nyi", ""),
    Entry("に", "ni", ""),
    Entry("な", "na", ""),
    Entry("ど", "do", "")
  ]

  const REVERSE_2: Table := [
    Entry("と", "to", ""),
    Entry("でぃ", "dhi", ""),
    Entry("で", "de", ""),
    Entry("て", "te", ""),
    Entry("づ", "du", ""),
    Entry("つ", "tu", ""),
    Entry("っを", "wwo", ""),
    Entry("っゑ", "wwe", ""),
    Entry("っゐ", "wwi", ""),
    Entry("っわ", "wwa", ""),
    Entry("っゎ", "xxwa", ""),
    Entry("っろ", "rro", ""),
    Entry("っれ", "rre", ""),
    Entry("っる", "rru", ""),
    Entry("っり", "r", "り"),
    Entry("っら", "rra", ""),
    Entry("っよ", "yyo", ""),
    Entry("っょ", "xxyo", ""),
    Entry("っゆ", "yyu", ""),
    Entry("っゅ", "xxyu", ""),
    Entry("っや", "yya", ""),
    Entry("っゃ", "xxya", ""),
    Entry("っも", "mmo", ""),
    Entry("っめ", "mme", ""),
    Entry("っむ", "mmu", ""),
    Entry("っみ", "m", "み"),
    Entry("っま", "mma", ""),
    Entry("っぽ", "ppo", ""),
    Entry("っぼ", "bbo", ""),
    Entry("っほ", "hho", ""),
    Entry("っぺ", "ppe", ""),
    Entry("っべ", "bbe", ""),
    Entry("っへ", "hhe", ""),
    Entry("っぷ", "ppu", ""),
    Entry("っぶ", "bbu", ""),
    Entry("っふ", "hhu", ""),
    Entry("っぴ", "p", "ぴ"),
    Entry("っび", "b", "び"),
    Entry("っひ", "h", "ひ"),
    Entry("っぱ", "ppa", "")
  ]

  const REVERSE_3: Table := [
    Entry("っば", "bba", ""),
    Entry("っは", "hha", ""),
    Entry("っど", "ddo", ""),
    Entry("っと", "tto", ""),
    Entry("っで", "dde", ""),
    Entry("って", "tte", ""),
    Entry("っづ", "ddu", ""),
    Entry("っつ", "ttu", ""),
    Entry("っぢ", "d", "ぢ"),
    Entry("っち", "t", "ち"),
    Entry("っだ", "dda", ""),
    Entry("った", "tta", ""),
    Entry("っぞ", "zzo", ""),
    Entry("っそ", "sso", ""),
    Entry("っぜ", "zze", ""),
    Entry("っせ", "sse", ""),
    Entry("っず", "zzu", ""),
    Entry("っす", "ssu", ""),
    Entry("っじ", "z", "じ"),
    Entry("っし", "s", "し"),
    Entry("っざ", "zza", ""),
    Entry("っさ", "ssa", ""),
    Entry("っご", "ggo", ""),
    Entry("っこ", "kko", ""),
    Entry("っげ", "gge", ""),
    Entry("っけ", "kke", ""),
    Entry("っぐ", "ggu", ""),
    Entry("っく", "kku", ""),
    Entry("っぎ", "g", "ぎ"),
    Entry("っき", "k", "き"),
    Entry("っが", "gga", ""),
    Entry("っか", "kka", ""),
    Entry("っぉ", "xxo", ""),
    Entry("っぇ", "xxe", ""),
    Entry("っう゛", "v", "う゛"),
    Entry("っぅ", "xxu", ""),
    Entry("っぃ", "xxi", ""),
    Entry("っぁ", "xxa", ""),
    Entry("っ", "xtu", ""),
    Entry("ぢょ", "dyo", "")
  ]

  const REVERSE_4: Table := [
    Entry("ぢゅ", "dyu", ""),
    Entry("ぢゃ", "dya", ""),
    Entry("ぢぇ", "dye", ""),
    Entry("ぢぃ", "dyi", ""),
    Entry("ぢ", "di", ""),
    Entry("ちょ", "tyo", ""),
    Entry("ちゅ", "tyu", ""),
    Entry("ちゃ", "tya", ""),
    Entry("ちぇ", "tye", ""),
    Entry("ちぃ", "tyi", ""),
    Entry("ち", "ti", ""),
    Entry("だ", "da", ""),
    Entry("た", "ta", ""),
    Entry("ぞ", "zo", ""),
    Entry("そ", "so", ""),
    Entry("ぜ", "ze", ""),
    Entry("せ", "se", ""),
    Entry("ず", "zu", ""),
    Entry("す", "su", ""),
    Entry("じょ", "zyo", ""),
    Entry("じゅ", "zyu", ""),
    Entry("じゃ", "zya", ""),
    Entry("じぇ", "zye", ""),
    Entry("じぃ", "zyi", ""),
    Entry("じ", "zi", ""),
    Entry("しょ", "syo", ""),
    Entry("しゅ", "syu", ""),
    Entry("しゃ", "sya", ""),
    Entry("しぇ", "sye", ""),
    Entry("しぃ", "syi", ""),
    Entry("し", "si", ""),
    Entry("ざ", "za", ""),
    Entry("さ", "sa", ""),
    Entry("ご", "go", ""),
    Entry("こ", "ko", ""),
    Entry("げ", "ge", ""),
    Entry("け", "ke", ""),
    Entry("ぐ", "gu", ""),
    Entry("く", "ku", ""),
    Entry("ぎょ", "gyo", "")
  ]

  const REVERSE_5: Table := [
    Entry("ぎゅ", "gyu", ""),
    Entry("ぎゃ", "gya", ""),
    Entry("ぎぇ", "gye", ""),
    Entry("ぎぃ", "gyi", ""),
    Entry("ぎ", "gi", ""),
    Entry("きょ", "kyo", ""),
    Entry("きゅ", "kyu", ""),
    Entry("きゃ", "kya", ""),
    Entry("きぇ", "kye", ""),
    Entry("きぃ", "kyi", ""),
    Entry("き", "ki", ""),
    Entry("が", "ga", ""),
    Entry("か", "ka", ""),
    Entry("お", "o", ""),
    Entry("ぉ", "xo", ""),
    Entry("え", "e", ""),
    Entry("ぇ", "xe", ""),
    Entry("う゛ぉ", "vo", ""),
    Entry("う゛ぇ", "ve", ""),
    Entry("う゛ぃ", "vi", ""),
    Entry("う゛ぁ", "va", ""),
    Entry("う゛", "vu", ""),
    Entry("う", "u", ""),
    Entry("ぅ", "xu", ""),
    Entry("い", "i", ""),
    Entry("ぃ", "xi", ""),
    Entry("あ", "a", ""),
    Entry("ぁ", "xa", ""),
    Entry("」", "]", ""),
    Entry("「", "[", "")
  ]

  /** `romaji_table`: romaji to hiragana. */
  const ROMAJI_TABLE: Table := ROMAJI_0 + ROMAJI_1 + ROMAJI_2 + ROMAJI_3 + ROMAJI_4 + ROMAJI_5 + ROMAJI_6 + ROMAJI_7

  const ROMAJI_0: Table := [
    Entry("zyu", "じゅ", ""),
    Entry("zyo", "じょ", ""),
    Entry("zyi", "じぃ", ""),
    Entry("zye", "じぇ", ""),
    Entry("zya", "じゃ", ""),
    Entry("zu", "ず", ""),
    Entry("zo", "ぞ", ""),
    Entry("zi", "じ", ""),
    Entry("ze", "ぜ", ""),
    Entry("za", "ざ", ""),
    Entry("yu", "ゆ", ""),
    Entry("yo", "よ", ""),
    Entry("yi", "い", ""),
    Entry("ye", "いぇ", ""),
    Entry("ya", "や", ""),
    Entry("xyu", "ゅ", ""),
    Entry("xyo", "ょ", ""),
    Entry("xyi", "ぃ", ""),
    Entry("xye", "ぇ", ""),
    Entry("xya", "ゃ", ""),
    Entry("xwa", "ゎ", ""),
    Entry("xu", "ぅ", ""),
    Entry("xtu", "っ", ""),
    Entry("xo", "ぉ", ""),
    Entry("xn", "ん", ""),
    Entry("xke", "ヶ", ""),
    Entry("xka", "ヵ", ""),
    Entry("xi", "ぃ", ""),
    Entry("xe", "ぇ", ""),
    Entry("xa", "ぁ", ""),
    Entry("wu", "う", ""),
    Entry("wo", "を", ""),
    Entry("wi", "うぃ", ""),
    Entry("whu", "う", ""),
    Entry("who", "うぉ", ""),
    Entry("whi", "うぃ", ""),
    Entry("whe", "うぇ", ""),
    Entry("wha", "うぁ", ""),
    Entry("we", "うぇ", ""),
    Entry("wa", "わ", "")
  ]

  const ROMAJI_1: Table := [
    Entry("vyu", "ヴゅ", ""),
    Entry("vyo", "ヴょ", ""),
    Entry("vyi", "ヴぃ", ""),
    Entry("vye", "ヴぇ", ""),
    Entry("vya", "ヴゃ", ""),
    Entry("vu", "ヴ", ""),
    Entry("vo", "ヴぉ", ""),
    Entry("vi", "ヴぃ", ""),
    Entry("ve", "ヴぇ", ""),
    Entry("va", "ヴぁ", ""),
    Entry("u", "う", ""),
    Entry("tyu", "ちゅ", ""),
    Entry("tyo", "ちょ", ""),
    Entry("tyi", "ちぃ", ""),
    Entry("tye", "ちぇ", ""),
    Entry("tya", "ちゃ", ""),
    Entry("twu", "とぅ", ""),
    Entry("two", "とぉ", ""),
    Entry("twi", "とぃ", ""),
    Entry("twe", "とぇ", ""),
    Entry("twa", "とぁ", ""),
    Entry("tu", "つ", ""),
    Entry("tsu", "つ", ""),
    Entry("tso", "つぉ", ""),
    Entry("tsi", "つぃ", ""),
    Entry("tse", "つぇ", ""),
    Entry("tsa", "つぁ", ""),
    Entry("to", "と", ""),
    Entry("ti", "ち", ""),
    Entry("thu", "てゅ", ""),
    Entry("tho", "てょ", ""),
    Entry("thi", "てぃ", ""),
    Entry("the", "てぇ", ""),
    Entry("tha", "てゃ", ""),
    Entry("te", "て", ""),
    Entry("ta", "た", ""),
    Entry("syu", "しゅ", ""),
    Entry("syo", "しょ", ""),
    Entry("syi", "しぃ", ""),
    Entry("sye", "しぇ", "")
  ]

  const ROMAJI_2: Table := [
    Entry("sya", "しゃ", ""),
    Entry("swu", "すぅ", ""),
    Entry("swo", "すぉ", ""),
    Entry("swi", "すぃ", ""),
    Entry("swe", "すぇ", ""),
    Entry("swa", "すぁ", ""),
    Entry("su", "す", ""),
    Entry("so", "そ", ""),
    Entry("si", "し", ""),
    Entry("shu", "しゅ", ""),
    Entry("sho", "しょ", ""),
    Entry("shi", "し", ""),
    Entry("she", "しぇ", ""),
    Entry("sha", "しゃ", ""),
    Entry("se", "せ", ""),
    Entry("sa", "さ", ""),
    Entry("ryu", "りゅ", ""),
    Entry("ryo", "りょ", ""),
    Entry("ryi", "りぃ", ""),
    Entry("rye", "りぇ", ""),
    Entry("rya", "りゃ", ""),
    Entry("ru", "る", ""),
    Entry("ro", "ろ", ""),
    Entry("ri", "り", ""),
    Entry("re", "れ", ""),
    Entry("ra", "ら", ""),
    Entry("qyu", "くゅ", ""),
    Entry("qyo", "くょ", ""),
    Entry("qyi", "くぃ", ""),
    Entry("qye", "くぇ", ""),
    Entry("qya", "くゃ", ""),
    Entry("qwu", "くぅ", ""),
    Entry("qwo", "くぉ", ""),
    Entry("qwi", "くぃ", ""),
    Entry("qwe", "くぇ", ""),
    Entry("qwa", "くぁ", ""),
    Entry("qu", "く", ""),
    Entry("qo", "くぉ", ""),
    Entry("qi", "くぃ", ""),
    Entry("qe", "くぇ", "")
  ]

  const ROMAJI_3: Table := [
    Entry("qa", "くぁ", ""),
    Entry("pyu", "ぴゅ", ""),
    Entry("pyo", "ぴょ", ""),
    Entry("pyi", "ぴぃ", ""),
    Entry("pye", "ぴぇ", ""),
    Entry("pya", "ぴゃ", ""),
    Entry("pu", "ぷ", ""),
    Entry("po", "ぽ", ""),
    Entry("pi", "ぴ", ""),
    Entry("pe", "ぺ", ""),
    Entry("pa", "ぱ", ""),
    Entry("o", "お", ""),
    Entry("n’", "ん", ""),
    Entry("nz", "ん", "z"),
    Entry("nyu", "にゅ", ""),
    Entry("nyo", "にょ", ""),
    Entry("nyi", "にぃ", ""),
    Entry("nye", "にぇ", ""),
    Entry("nya", "にゃ", ""),
    Entry("nx", "ん", "x"),
    Entry("nw", "ん", "w"),
    Entry("nv", "ん", "v"),
    Entry("nu", "ぬ", ""),
    Entry("nt", "ん", "t"),
    Entry("ns", "ん", "s"),
    Entry("nr", "ん", "r"),
    Entry("nq", "ん", "q"),
    Entry("np", "ん", "p"),
    Entry("no", "の", ""),
    Entry("nn", "ん", ""),
    Entry("nm", "ん", "m"),
    Entry("nl", "ん", "l"),
    Entry("nk", "ん", "k"),
    Entry("nj", "ん", "j"),
    Entry("ni", "に", ""),
    Entry("nh", "ん", "h"),
    Entry("ng", "ん", "g"),
    Entry("nf", "ん", "f"),
    Entry("ne", "ね", ""),
    Entry("nd", "ん", "d")
  ]

  const ROMAJI_4: Table := [
    Entry("nc", "ん", "c"),
    Entry("nb", "ん", "b"),
    Entry("na", "な", ""),
    Entry("n@", "ん", "@"),
    Entry("n-", "ん", "-"),
    Entry("myu", "みゅ", ""),
    Entry("myo", "みょ", ""),
    Entry("myi", "みぃ", ""),
    Entry("mye", "みぇ", ""),
    Entry("mya", "みゃ", ""),
    Entry("mu", "む", ""),
    Entry("mo", "も", ""),
    Entry("mi", "み", ""),
    Entry("me", "め", ""),
    Entry("ma", "ま", ""),
    Entry("lyu", "ゅ", ""),
    Entry("lyo", "ょ", ""),
    Entry("lyi", "ぃ", ""),
    Entry("lye", "ぇ", ""),
    Entry("lya", "ゃ", ""),
    Entry("lwa", "ゎ", ""),
    Entry("lu", "ぅ", ""),
    Entry("ltu", "っ", ""),
    Entry("ltsu", "っ", ""),
    Entry("lo", "ぉ", ""),
    Entry("lke", "ヶ", ""),
    Entry("lka", "ヵ", ""),
    Entry("li", "ぃ", ""),
    Entry("le", "ぇ", ""),
    Entry("la", "ぁ", ""),
    Entry("kyu", "きゅ", ""),
    Entry("kyo", "きょ", ""),
    Entry("kyi", "きぃ", ""),
    Entry("kye", "きぇ", ""),
    Entry("kya", "きゃ", ""),
    Entry("kwu", "くぅ", ""),
    Entry("kwo", "くぉ", ""),
    Entry("kwi", "くぃ", ""),
    Entry("kwe", "くぇ", ""),
    Entry("kwa", "くぁ", "")
  ]

  const ROMAJI_5: Table := [
    Entry("ku", "く", ""),
    Entry("ko", "こ", ""),
    Entry("ki", "き", ""),
    Entry("ke", "け", ""),
    Entry("ka", "か", ""),
    Entry("jyu", "じゅ", ""),
    Entry("jyo", "じょ", ""),
    Entry("jyi", "じぃ", ""),
    Entry("jye", "じぇ", ""),
    Entry("jya", "じゃ", ""),
    Entry("ju", "じゅ", ""),
    Entry("jo", "じょ", ""),
    Entry("ji", "じ", ""),
    Entry("je", "じぇ", ""),
    Entry("ja", "じゃ", ""),
    Entry("i", "い", ""),
    Entry("hyu", "ひゅ", ""),
    Entry("hyo", "ひょ", ""),
    Entry("hyi", "ひぃ", ""),
    Entry("hye", "ひぇ", ""),
    Entry("hya", "ひゃ", ""),
    Entry("hu", "ふ", ""),
    Entry("ho", "ほ", ""),
    Entry("hi", "ひ", ""),
    Entry("he", "へ", ""),
    Entry("ha", "は", ""),
    Entry("gyu", "ぎゅ", ""),
    Entry("gyo", "ぎょ", ""),
    Entry("gyi", "ぎぃ", ""),
    Entry("gye", "ぎぇ", ""),
    Entry("gya", "ぎゃ", ""),
    Entry("gwu", "ぐぅ", ""),
    Entry("gwo", "ぐぉ", ""),
    Entry("gwi", "ぐぃ", ""),
    Entry("gwe", "ぐぇ", ""),
    Entry("gwa", "ぐぁ", ""),
    Entry("gu", "ぐ", ""),
    Entry("go", "ご", ""),
    Entry("gi", "ぎ", ""),
    Entry("ge", "げ", "")
  ]

  const ROMAJI_6: Table := [
    Entry("ga", "が", ""),
    Entry("fyu", "ふゅ", ""),
    Entry("fyo", "ふょ", ""),
    Entry("fyi", "ふぃ", ""),
    Entry("fye", "ふぇ", ""),
    Entry("fya", "ふゃ", ""),
    Entry("fwu", "ふぅ", ""),
    Entry("fwo", "ふぉ", ""),
    Entry("fwi", "ふぃ", ""),
    Entry("fwe", "ふぇ", ""),
    Entry("fwa", "ふぁ", ""),
    Entry("fu", "ふ", ""),
    Entry("fo", "ふぉ", ""),
    Entry("fi", "ふぃ", ""),
    Entry("fe", "ふぇ", ""),
    Entry("fa", "ふぁ", ""),
    Entry("e", "え", ""),
    Entry("dyu", "ぢゅ", ""),
    Entry("dyo", "ぢょ", ""),
    Entry("dyi", "ぢぃ", ""),
    Entry("dye", "ぢぇ", ""),
    Entry("dya", "ぢゃ", ""),
    Entry("dwu", "どぅ", ""),
    Entry("dwo", "どぉ", ""),
    Entry("dwi", "どぃ", ""),
    Entry("dwe", "どぇ", ""),
    Entry("dwa", "どぁ", ""),
    Entry("du", "づ", ""),
    Entry("do", "ど", ""),
    Entry("di", "ぢ", ""),
    Entry("dhu", "でゅ", ""),
    Entry("dho", "でょ", ""),
    Entry("dhi", "でぃ", ""),
    Entry("dhe", "でぇ", ""),
    Entry("dha", "でゃ", ""),
    Entry("de", "で", ""),
    Entry("da", "だ", ""),
    Entry("cyu", "ちゅ", ""),
    Entry("cyo", "ちょ", ""),
    Entry("cyi", "ちぃ", "")
  ]

  const ROMAJI_7: Table := [
    Entry("cye", "ちぇ", ""),
    Entry("cya", "ちゃ", ""),
    Entry("cu", "く", ""),
    Entry("co", "こ", ""),
    Entry("ci", "し", ""),
    Entry("chu", "ちゅ", ""),
    Entry("cho", "ちょ", ""),
    Entry("chi", "ち", ""),
    Entry("che", "ちぇ", ""),
    Entry("cha", "ちゃ", ""),
    Entry("ce", "せ", ""),
    Entry("ca", "か", ""),
    Entry("byu", "びゅ", ""),
    Entry("byo", "びょ", ""),
    Entry("byi", "びぃ", ""),
    Entry("bye", "びぇ", ""),
    Entry("bya", "びゃ", ""),
    Entry("bu", "ぶ", ""),
    Entry("bo", "ぼ", ""),
    Entry("bi", "び", ""),
    Entry("be", "べ", ""),
    Entry("ba", "ば", ""),
    Entry("a", "あ", "")
  ]

  /** `sokuon_table`: doubled consonants to a small っ and a kana. */
  const SOKUON_TABLE: Table := SOKUON_0 + SOKUON_1 + SOKUON_2 + SOKUON_3 + SOKUON_4 + SOKUON_5 + SOKUON_6

  const SOKUON_0: Table := [
    Entry("zzyu", "っじゅ", ""),
    Entry("zzyo", "っじょ", ""),
    Entry("zzyi", "っじぃ", ""),
    Entry("zzye", "っじぇ", ""),
    Entry("zzya", "っじゃ", ""),
    Entry("zzu", "っず", ""),
    Entry("zzo", "っぞ", ""),
    Entry("zzi", "っじ", ""),
    Entry("zze", "っぜ", ""),
    Entry("zza", "っざ", ""),
    Entry("yyu", "っゆ", ""),
    Entry("yyo", "っよ", ""),
    Entry("yyi", "っい", ""),
    Entry("yye", "っいぇ", ""),
    Entry("yya", "っや", ""),
    Entry("xxyu", "っゅ", ""),
    Entry("xxyo", "っょ", ""),
    Entry("xxyi", "っぃ", ""),
    Entry("xxye", "っぇ", ""),
    Entry("xxya", "っゃ", ""),
    Entry("xxwa", "っゎ", ""),
    Entry("xxu", "っぅ", ""),
    Entry("xxtu", "っっ", ""),
    Entry("xxo", "っぉ", ""),
    Entry("xxn", "っん", ""),
    Entry("xxke", "っヶ", ""),
    Entry("xxka", "っヵ", ""),
    Entry("xxi", "っぃ", ""),
    Entry("xxe", "っぇ", ""),
    Entry("xxa", "っぁ", ""),
    Entry("wwu", "っう", ""),
    Entry("wwo", "っを", ""),
    Entry("wwi", "っうぃ", ""),
    Entry("wwhu", "っう", ""),
    Entry("wwho", "っうぉ", ""),
    Entry("wwhi", "っうぃ", ""),
    Entry("wwhe", "っうぇ", ""),
    Entry("wwha", "っうぁ", ""),
    Entry("wwe", "っうぇ", ""),
    Entry("wwa", "っわ", "")
  ]

  const SOKUON_1: Table := [
    Entry("vvyu", "っヴゅ", ""),
    Entry("vvyo", "っヴょ", ""),
    Entry("vvyi", "っヴぃ", ""),
    Entry("vvye", "っヴぇ", ""),
    Entry("vvya", "っヴゃ", ""),
    Entry("vvu", "っヴ", ""),
    Entry("vvo", "っヴぉ", ""),
    Entry("vvi", "っヴぃ", ""),
    Entry("vve", "っヴぇ", ""),
    Entry("vva", "っヴぁ", ""),
    Entry("ttyu", "っちゅ", ""),
    Entry("ttyo", "っちょ", ""),
    Entry("ttyi", "っちぃ", ""),
    Entry("ttye", "っちぇ", ""),
    Entry("ttya", "っちゃ", ""),
    Entry("ttwu", "っとぅ", ""),
    Entry("ttwo", "っとぉ", ""),
    Entry("ttwi", "っとぃ", ""),
    Entry("ttwe", "っとぇ", ""),
    Entry("ttwa", "っとぁ", ""),
    Entry("ttu", "っつ", ""),
    Entry("ttsu", "っつ", ""),
    Entry("ttso", "っつぉ", ""),
    Entry("ttsi", "っつぃ", ""),
    Entry("ttse", "っつぇ", ""),
    Entry("ttsa", "っつぁ", ""),
    Entry("tto", "っと", ""),
    Entry("tti", "っち", ""),
    Entry("tthu", "ってゅ", ""),
    Entry("ttho", "ってょ", ""),
    Entry("tthi", "ってぃ", ""),
    Entry("tthe", "ってぇ", ""),
    Entry("ttha", "ってゃ", ""),
    Entry("tte", "って", ""),
    Entry("tta", "った", ""),
    Entry("ssyu", "っしゅ", ""),
    Entry("ssyo", "っしょ", ""),
    Entry("ssyi", "っしぃ", ""),
    Entry("ssye", "っしぇ", ""),
    Entry("ssya", "っしゃ", "")
  ]

  const SOKUON_2: Table := [
    Entry("sswu", "っすぅ", ""),
    Entry("sswo", "っすぉ", ""),
    Entry("sswi", "っすぃ", ""),
    Entry("sswe", "っすぇ", ""),
    Entry("sswa", "っすぁ", ""),
    Entry("ssu", "っす", ""),
    Entry("sso", "っそ", ""),
    Entry("ssi", "っし", ""),
    Entry("sshu", "っしゅ", ""),
    Entry("ssho", "っしょ", ""),
    Entry("sshi", "っし", ""),
    Entry("sshe", "っしぇ", ""),
    Entry("ssha", "っしゃ", ""),
    Entry("sse", "っせ", ""),
    Entry("ssa", "っさ", ""),
    Entry("rryu", "っりゅ", ""),
    Entry("rryo", "っりょ", ""),
    Entry("rryi", "っりぃ", ""),
    Entry("rrye", "っりぇ", ""),
    Entry("rrya", "っりゃ", ""),
    Entry("rru", "っる", ""),
    Entry("rro", "っろ", ""),
    Entry("rri", "っり", ""),
    Entry("rre", "っれ", ""),
    Entry("rra", "っら", ""),
    Entry("qqyu", "っくゅ", ""),
    Entry("qqyo", "っくょ", ""),
    Entry("qqyi", "っくぃ", ""),
    Entry("qqye", "っくぇ", ""),
    Entry("qqya", "っくゃ", ""),
    Entry("qqwu", "っくぅ", ""),
    Entry("qqwo", "っくぉ", ""),
    Entry("qqwi", "っくぃ", ""),
    Entry("qqwe", "っくぇ", ""),
    Entry("qqwa", "っくぁ", ""),
    Entry("qqu", "っく", ""),
    Entry("qqo", "っくぉ", ""),
    Entry("qqi", "っくぃ", ""),
    Entry("qqe", "っくぇ", ""),
    Entry("qqa", "っくぁ", "")
  ]

  const SOKUON_3: Table := [
    Entry("ppyu", "っぴゅ", ""),
    Entry("ppyo", "っぴょ", ""),
    Entry("ppyi", "っぴぃ", ""),
    Entry("ppye", "っぴぇ", ""),
    Entry("ppya", "っぴゃ", ""),
    Entry("ppu", "っぷ", ""),
    Entry("ppo", "っぽ", ""),
    Entry("ppi", "っぴ", ""),
    Entry("ppe", "っぺ", ""),
    Entry("ppa", "っぱ", ""),
    Entry("mmyu", "っみゅ", ""),
    Entry("mmyo", "っみょ", ""),
    Entry("mmyi", "っみぃ", ""),
    Entry("mmye", "っみぇ", ""),
    Entry("mmya", "っみゃ", ""),
    Entry("mmu", "っむ", ""),
    Entry("mmo", "っも", ""),
    Entry("mmi", "っみ", ""),
    Entry("mme", "っめ", ""),
    Entry("mma", "っま", ""),
    Entry("llyu", "っゅ", ""),
    Entry("llyo", "っょ", ""),
    Entry("llyi", "っぃ", ""),
    Entry("llye", "っぇ", ""),
    Entry("llya", "っゃ", ""),
    Entry("llwa", "っゎ", ""),
    Entry("llu", "っぅ", ""),
    Entry("lltu", "っっ", ""),
    Entry("lltsu", "っっ", ""),
    Entry("llo", "っぉ", ""),
    Entry("llke", "っヶ", ""),
    Entry("llka", "っヵ", ""),
    Entry("lli", "っぃ", ""),
    Entry("lle", "っぇ", ""),
    Entry("lla", "っぁ", ""),
    Entry("kkyu", "っきゅ", ""),
    Entry("kkyo", "っきょ", ""),
    Entry("kkyi", "っきぃ", ""),
    Entry("kkye", "っきぇ", ""),
    Entry("kkya", "っきゃ", "")
  ]

  const SOKUON_4: Table := [
    Entry("kkwu", "っくぅ", ""),
    Entry("kkwo", "っくぉ", ""),
    Entry("kkwi", "っくぃ", ""),
    Entry("kkwe", "っくぇ", ""),
    Entry("kkwa", "っくぁ", ""),
    Entry("kku", "っく", ""),
    Entry("kko", "っこ", ""),
    Entry("kki", "っき", ""),
    Entry("kke", "っけ", ""),
    Entry("kka", "っか", ""),
    Entry("jjyu", "っじゅ", ""),
    Entry("jjyo", "っじょ", ""),
    Entry("jjyi", "っじぃ", ""),
    Entry("jjye", "っじぇ", ""),
    Entry("jjya", "っじゃ", ""),
    Entry("jju", "っじゅ", ""),
    Entry("jjo", "っじょ", ""),
    Entry("jji", "っじ", ""),
    Entry("jje", "っじぇ", ""),
    Entry("jja", "っじゃ", ""),
    Entry("hhyu", "っひゅ", ""),
    Entry("hhyo", "っひょ", ""),
    Entry("hhyi", "っひぃ", ""),
    Entry("hhye", "っひぇ", ""),
    Entry("hhya", "っひゃ", ""),
    Entry("hhu", "っふ", ""),
    Entry("hho", "っほ", ""),
    Entry("hhi", "っひ", ""),
    Entry("hhe", "っへ", ""),
    Entry("hha", "っは", ""),
    Entry("ggyu", "っぎゅ", ""),
    Entry("ggyo", "っぎょ", ""),
    Entry("ggyi", "っぎぃ", ""),
    Entry("ggye", "っぎぇ", ""),
    Entry("ggya", "っぎゃ", ""),
    Entry("ggwu", "っぐぅ", ""),
    Entry("ggwo", "っぐぉ", ""),
    Entry("ggwi", "っぐぃ", ""),
    Entry("ggwe", "っぐぇ", ""),
    Entry("ggwa", "っぐぁ", "")
  ]

  const SOKUON_5: Table := [
    Entry("ggu", "っぐ", ""),
    Entry("ggo", "っご", ""),
    Entry("ggi", "っぎ", ""),
    Entry("gge", "っげ", ""),
    Entry("gga", "っが", ""),
    Entry("ffyu", "っふゅ", ""),
    Entry("ffyo", "っふょ", ""),
    Entry("ffyi", "っふぃ", ""),
    Entry("ffye", "っふぇ", ""),
    Entry("ffya", "っふゃ", ""),
    Entry("ffwu", "っふぅ", ""),
    Entry("ffwo", "っふぉ", ""),
    Entry("ffwi", "っふぃ", ""),
    Entry("ffwe", "っふぇ", ""),
    Entry("ffwa", "っふぁ", ""),
    Entry("ffu", "っふ", ""),
    Entry("ffo", "っふぉ", ""),
    Entry("ffi", "っふぃ", ""),
    Entry("ffe", "っふぇ", ""),
    Entry("ffa", "っふぁ", ""),
    Entry("ddyu", "っぢゅ", ""),
    Entry("ddyo", "っぢょ", ""),
    Entry("ddyi", "っぢぃ", ""),
    Entry("ddye", "っぢぇ", ""),
    Entry("ddya", "っぢゃ", ""),
    Entry("ddwu", "っどぅ", ""),
    Entry("ddwo", "っどぉ", ""),
    Entry("ddwi", "っどぃ", ""),
    Entry("ddwe", "っどぇ", ""),
    Entry("ddwa", "っどぁ", ""),
    Entry("ddu", "っづ", ""),
    Entry("ddo", "っど", ""),
    Entry("ddi", "っぢ", ""),
    Entry("ddhu", "っでゅ", ""),
    Entry("ddho", "っでょ", ""),
    Entry("ddhi", "っでぃ", ""),
    Entry("ddhe", "っでぇ", ""),
    Entry("ddha", "っでゃ", ""),
    Entry("dde", "っで", ""),
    Entry("dda", "っだ", "")
  ]

  const SOKUON_6: Table := [
    Entry("ccyu", "っちゅ", ""),
    Entry("ccyo", "っちょ", ""),
    Entry("ccyi", "っちぃ", ""),
    Entry("ccye", "っちぇ", ""),
    Entry("ccya", "っちゃ", ""),
    Entry("ccu", "っく", ""),
    Entry("cco", "っこ", ""),
    Entry("cci", "っし", ""),
    Entry("cchu", "っちゅ", ""),
    Entry("ccho", "っちょ", ""),
    Entry("cchi", "っち", ""),
    Entry("cche", "っちぇ", ""),
    Entry("ccha", "っちゃ", ""),
    Entry("cce", "っせ", ""),
    Entry("cca", "っか", ""),
    Entry("bbyu", "っびゅ", ""),
    Entry("bbyo", "っびょ", ""),
    Entry("bbyi", "っびぃ", ""),
    Entry("bbye", "っびぇ", ""),
    Entry("bbya", "っびゃ", ""),
    Entry("bbu", "っぶ", ""),
    Entry("bbo", "っぼ", ""),
    Entry("bbi", "っび", ""),
    Entry("bbe", "っべ", ""),
    Entry("bba", "っば", "")
  ]
}
