/** The consumer of the tokenizer bridge (`VibratoEngine`): the
    classification of MeCab-IPADIC feature strings into word classes, the
    conversion of a token into a lattice node, and the building of a
    lattice from the tokens of a text. */
module VibratoEngine {
  import opened Wrappers
  import opened Bytes
  import opened Text
  import opened Hinshi
  import opened LatticeNodes
  import opened Linking
  import opened LatticeGraph
  import opened VibratoBridge

  // ---- Part of speech --------------------------------------------------------

  /** The classes the classifier can give: never the head or tail marker,
      the inflected auxiliaries or the kango class. */
  predicate Produced(h: HinshiBunrui)
  {
    h in {HB_UNKNOWN, HB_MEISHI, HB_IKEIYOUSHI, HB_NAKEIYOUSHI, HB_RENTAISHI,
          HB_FUKUSHI, HB_SETSUZOKUSHI, HB_KANDOUSHI, HB_KAKU_JOSHI,
          HB_SETSUZOKU_JOSHI, HB_FUKU_JOSHI, HB_SHUU_JOSHI, HB_JODOUSHI,
          HB_GODAN_DOUSHI, HB_ICHIDAN_DOUSHI, HB_KAHEN_DOUSHI, HB_SAHEN_DOUSHI,
          HB_SETTOUJI, HB_SETSUBIJI, HB_PERIOD, HB_COMMA, HB_SYMBOL}
  }

  /** The first parts of speech the classifier recognises. */
  predicate KnownPos(pos: String)
  {
    pos in {"名詞", "動詞", "形容詞", "形容動詞", "連体詞", "副詞", "接続詞", "感動詞",
            "助詞", "助動詞", "接頭詞", "接尾", "記号"}
  }

  /** The verb class the conjugation type (field 4) names: the first of
      五段, 一段, カ変 or カ行変格, サ変 or サ行変格 it contains, and the
      五段 class when it contains none. */
  function VerbClass(conj: String): (h: HinshiBunrui)
    ensures h in {HB_GODAN_DOUSHI, HB_ICHIDAN_DOUSHI, HB_KAHEN_DOUSHI, HB_SAHEN_DOUSHI}
    ensures h == HB_ICHIDAN_DOUSHI <==> !Contains(conj, "五段") && Contains(conj, "一段")
    ensures h == HB_KAHEN_DOUSHI <==>
              !Contains(conj, "五段") && !Contains(conj, "一段")
              && (Contains(conj, "カ変") || Contains(conj, "カ行変格"))
    ensures h == HB_SAHEN_DOUSHI <==>
              !Contains(conj, "五段") && !Contains(conj, "一段")
              && !Contains(conj, "カ変") && !Contains(conj, "カ行変格")
              && (Contains(conj, "サ変") || Contains(conj, "サ行変格"))
  {
    if Find(conj, "五段").Some? then HB_GODAN_DOUSHI
    else if Find(conj, "一段").Some? then HB_ICHIDAN_DOUSHI
    else if Find(conj, "カ変").Some? || Find(conj, "カ行変格").Some? then HB_KAHEN_DOUSHI
    else if Find(conj, "サ変").Some? || Find(conj, "サ行変格").Some? then HB_SAHEN_DOUSHI
    else HB_GODAN_DOUSHI
  }

  /** `VibratoEngine::ConvertPartOfSpeech` on the comma-separated fields of
      a non-empty feature: the first field decides, a verb is refined by
      field 4, a particle by field 1 and a symbol by field 1. */
  function ClassOfFields(fields: seq<String>): (h: HinshiBunrui)
    requires |fields| >= 1
    ensures Produced(h)
    ensures h == HB_UNKNOWN <==> !KnownPos(fields[0])
    ensures h == HB_MEISHI <==> fields[0] == "名詞"
    ensures h == HB_IKEIYOUSHI <==> fields[0] == "形容詞"
    ensures h == HB_NAKEIYOUSHI <==> fields[0] == "形容動詞"
    ensures h == HB_RENTAISHI <==> fields[0] == "連体詞"
    ensures h == HB_FUKUSHI <==> fields[0] == "副詞"
    ensures h == HB_SETSUZOKUSHI <==> fields[0] == "接続詞"
    ensures h == HB_KANDOUSHI <==> fields[0] == "感動詞"
    ensures h == HB_JODOUSHI <==> fields[0] == "助動詞"
    ensures h == HB_SETTOUJI <==> fields[0] == "接頭詞"
    ensures h == HB_SETSUBIJI <==> fields[0] == "接尾"
    ensures (h in {HB_GODAN_DOUSHI, HB_ICHIDAN_DOUSHI, HB_KAHEN_DOUSHI, HB_SAHEN_DOUSHI})
              == (fields[0] == "動詞")
    ensures fields[0] == "動詞" ==> h == if |fields| >= 5 then VerbClass(fields[4]) else HB_GODAN_DOUSHI
    ensures (h in {HB_KAKU_JOSHI, HB_SETSUZOKU_JOSHI, HB_FUKU_JOSHI, HB_SHUU_JOSHI})
              == (fields[0] == "助詞")
    ensures fields[0] == "助詞" && h != HB_KAKU_JOSHI ==> |fields| >= 2
    ensures fields[0] == "助詞" && |fields| >= 2 ==>
              (h == HB_SETSUZOKU_JOSHI <==> fields[1] == "接続助詞")
              && (h == HB_FUKU_JOSHI <==> fields[1] in {"副助詞", "副助詞／並立助詞／終助詞"})
              && (h == HB_SHUU_JOSHI <==> fields[1] == "終助詞")
    ensures h in {HB_PERIOD, HB_COMMA, HB_SYMBOL} <==> fields[0] == "記号"
    ensures fields[0] == "記号" ==>
              (h == HB_PERIOD <==> |fields| >= 2 && fields[1] == "句点")
              && (h == HB_COMMA <==> |fields| >= 2 && fields[1] == "読点")
  {
    var pos := fields[0];
    if pos == "名詞" then HB_MEISHI
    else if pos == "動詞" then
      if |fields| >= 5 then VerbClass(fields[4]) else HB_GODAN_DOUSHI
    else if pos == "形容詞" then HB_IKEIYOUSHI
    else if pos == "形容動詞" then HB_NAKEIYOUSHI
    else if pos == "連体詞" then HB_RENTAISHI
    else if pos == "副詞" then HB_FUKUSHI
    else if pos == "接続詞" then HB_SETSUZOKUSHI
    else if pos == "感動詞" then HB_KANDOUSHI
    else if pos == "助詞" then
      if |fields| >= 2 then
        var sub := fields[1];
        if sub == "格助詞" then HB_KAKU_JOSHI
        else if sub == "接続助詞" then HB_SETSUZOKU_JOSHI
        else if sub == "副助詞" || sub == "副助詞／並立助詞／終助詞" then HB_FUKU_JOSHI
        else if sub == "終助詞" then HB_SHUU_JOSHI
        else HB_KAKU_JOSHI
      else HB_KAKU_JOSHI
    else if pos == "助動詞" then HB_JODOUSHI
    else if pos == "接頭詞" then HB_SETTOUJI
    else if pos == "接尾" then HB_SETSUBIJI
    else if pos == "記号" then
      if |fields| >= 2 && fields[1] == "句点" then HB_PERIOD
      else if |fields| >= 2 && fields[1] == "読点" then HB_COMMA
      else HB_SYMBOL
    else HB_UNKNOWN
  }

  /** `VibratoEngine::ConvertPartOfSpeech`: an empty feature is unknown;
      any other is classified by its comma-separated fields. */
  function ConvertPartOfSpeech(feature: String): (h: HinshiBunrui)
    ensures Produced(h)
    ensures feature == [] ==> h == HB_UNKNOWN
    ensures feature != [] ==> h == ClassOfFields(Split(feature, ','))
  {
    if feature == [] then HB_UNKNOWN else ClassOfFields(Split(feature, ','))
  }

  /** A feature string that stands for each class the classifier gives,
      as its fields. */
  function CanonicalFields(h: HinshiBunrui): (fs: seq<String>)
    requires Produced(h)
    ensures |fs| >= 1
    ensures forall i :: 0 <= i < |fs| ==> ',' !in fs[i]
  {
    match h
    case HB_MEISHI => ["名詞"]
    case HB_IKEIYOUSHI => ["形容詞"]
    case HB_NAKEIYOUSHI => ["形容動詞"]
    case HB_RENTAISHI => ["連体詞"]
    case HB_FUKUSHI => ["副詞"]
    case HB_SETSUZOKUSHI => ["接続詞"]
    case HB_KANDOUSHI => ["感動詞"]
    case HB_KAKU_JOSHI => ["助詞", "格助詞"]
    case HB_SETSUZOKU_JOSHI => ["助詞", "接続助詞"]
    case HB_FUKU_JOSHI => ["助詞", "副助詞"]
    case HB_SHUU_JOSHI => ["助詞", "終助詞"]
    case HB_JODOUSHI => ["助動詞"]
    case HB_GODAN_DOUSHI => ["動詞", "自立", "*", "*", "五段"]
    case HB_ICHIDAN_DOUSHI => ["動詞", "自立", "*", "*", "一段"]
    case HB_KAHEN_DOUSHI => ["動詞", "自立", "*", "*", "カ変"]
    case HB_SAHEN_DOUSHI => ["動詞", "自立", "*", "*", "サ変"]
    case HB_SETTOUJI => ["接頭詞"]
    case HB_SETSUBIJI => ["接尾"]
    case HB_PERIOD => ["記号", "句点"]
    case HB_COMMA => ["記号", "読点"]
    case HB_SYMBOL => ["記号"]
    case HB_UNKNOWN => ["その他"]
  }

  /** The feature string of `CanonicalFields(h)`. */
  function CanonicalFeature(h: HinshiBunrui): (f: String)
    requires Produced(h)
  {
    Join(CanonicalFields(h), ',')
  }

  /** The classifier is onto the classes it gives: each one has a feature
      string it classifies as that class. */
  lemma CanonicalFeatureClassifies(h: HinshiBunrui)
    requires Produced(h)
    ensures ConvertPartOfSpeech(CanonicalFeature(h)) == h
  {
    var fs := CanonicalFields(h);
    SplitJoin(fs, ',');
    assert CanonicalFeature(h) != [] by {
      assert |fs[0]| > 0;
      if |fs| == 1 {
        assert Join(fs, ',') == fs[0];
      } else {
        assert Join(fs, ',') == fs[0] + [','] + Join(fs[1..], ',');
      }
    }
    CanonicalFieldsClassify(h);
  }

  /** The fields of each class classify as that class. */
  lemma CanonicalFieldsClassify(h: HinshiBunrui)
    requires Produced(h)
    ensures ClassOfFields(CanonicalFields(h)) == h
  {
    match h
    case HB_GODAN_DOUSHI => VerbClassOfCanonical("五段");
    case HB_ICHIDAN_DOUSHI => VerbClassOfCanonical("一段");
    case HB_KAHEN_DOUSHI => VerbClassOfCanonical("カ変");
    case HB_SAHEN_DOUSHI => VerbClassOfCanonical("サ変");
    case _ =>
  }

  /** The conjugation types of the canonical verb features name their
      class and no earlier one. */
  lemma VerbClassOfCanonical(conj: String)
    requires conj in {"五段", "一段", "カ変", "サ変"}
    ensures VerbClass(conj) == if conj == "五段" then HB_GODAN_DOUSHI
                               else if conj == "一段" then HB_ICHIDAN_DOUSHI
                               else if conj == "カ変" then HB_KAHEN_DOUSHI
                               else HB_SAHEN_DOUSHI
  {
    assert OccursAt(conj, conj, 0);
    forall t | t in {"五段", "一段", "カ変", "サ変"} && t != conj
      ensures !Contains(conj, t)
    {
      NotContainsOther(conj, t);
    }
  }

  /** A string does not contain a different one of its own length. */
  lemma NotContainsOther(s: String, t: String)
    requires |s| == |t| && s != t
    ensures !Contains(s, t)
  {
    forall i | 0 <= i <= |s|
      ensures !OccursAt(s, t, i)
    {
      if i == 0 {
        assert s[0..|t|] == s;
      }
    }
  }

  // ---- Token to node ---------------------------------------------------------

  /** `VibratoEngine::VibratoTokenToLatticeNode`: a node reading and
      writing the surface, classified by the feature, with no cost delta,
      no tags, no row and no inflection. The fields the function leaves as
      `LatticeNode()` made them keep those values. */
  function TokenNode(surface: String, feature: String): (n: Node)
    ensures n.pre == surface && n.post == surface && n.tags == []
    ensures n.bunrui == ConvertPartOfSpeech(feature) && Produced(n.bunrui)
    ensures n.deltaCost == 0 && n.gyou == DAN_NO_GYOU && n.katsuyou == KATSUYOU_NONE
    ensures n.linked == 0 && n.branches == [] && n.marked == 0
  {
    NewNode(ConvertPartOfSpeech(feature), DAN_NO_GYOU, KATSUYOU_NONE, 0).(pre := surface, post := surface)
  }

  /** A token as the loop of `AnalyzeToLattice` sees it: where it starts,
      and its node, made from the surface and feature strings the bridge
      handed out, turned into text by `decode`. */
  function Entry(t: EngineToken, decode: seq<Byte> -> String): (e: (nat, Node))
    ensures e.0 == t.start
    ensures e.1 == TokenNode(decode(CStringBytes(t.surface)), decode(CStringBytes(t.feature)))
  {
    (t.start, TokenNode(decode(CStringBytes(t.surface)), decode(CStringBytes(t.feature))))
  }

  function Entries(toks: seq<EngineToken>, decode: seq<Byte> -> String): (es: seq<(nat, Node)>)
    ensures |es| == |toks|
    ensures forall k :: 0 <= k < |toks| ==> es[k] == Entry(toks[k], decode)
  {
    seq(|toks|, k requires 0 <= k < |toks| => Entry(toks[k], decode))
  }

  /** The nodes of the entries that start at `i`, in order. */
  function NodesAt(es: seq<(nat, Node)>, i: nat): (ns: seq<Node>)
    ensures |ns| <= |es|
  {
    if |es| == 0 then []
    else
      var last := es[|es| - 1];
      NodesAt(es[..|es| - 1], i) + (if last.0 == i then [last.1] else [])
  }

  /** A node is among those at `i` exactly when an entry starting at `i`
      carries it. */
  lemma {:induction false} NodesAtMembers(es: seq<(nat, Node)>, i: nat, n: Node)
    ensures n in NodesAt(es, i) <==> exists k :: 0 <= k < |es| && es[k] == (i, n)
  {
    if |es| > 0 {
      var m := |es| - 1;
      NodesAtMembers(es[..m], i, n);
      if n in NodesAt(es[..m], i) {
        var k :| 0 <= k < m && es[..m][k] == (i, n);
        assert es[k] == (i, n);
      }
      if exists k :: 0 <= k < |es| && es[k] == (i, n) {
        var k :| 0 <= k < |es| && es[k] == (i, n);
        if k < m {
          assert es[..m][k] == (i, n);
        }
      }
    }
  }

  /** The chunks the token loop builds for a text of `len` characters:
      chunk `i` holds the nodes of the tokens that start at `i`, in token
      order; a token that starts past the text is dropped. */
  function Chunks(len: nat, es: seq<(nat, Node)>): (cs: seq<seq<Node>>)
    ensures |cs| == len + 1
  {
    seq(len + 1, i requires 0 <= i <= len => NodesAt(es, i))
  }

  /** Where a token that starts at character `s` of `text` begins in the
      text's UTF-16 form: the units of the characters before it, counting
      each position past the end as one unit. */
  function Utf16Offset(text: String, s: nat): (u: nat)
    ensures s <= |text| ==> u == Utf16Length(text[..s]) && u <= Utf16Length(text)
    ensures s > |text| ==> u > Utf16Length(text)
  {
    if s <= |text| then
      assert text[..|text|] == text;
      if s < |text| then Utf16LengthPrefixes(text, s, |text|); Utf16Length(text[..s])
      else Utf16Length(text[..s])
    else Utf16Length(text) + (s - |text|)
  }

  /** The entries with their starts moved to UTF-16 offsets of `text`. */
  function Utf16Entries(text: String, es: seq<(nat, Node)>): (r: seq<(nat, Node)>)
    ensures |r| == |es|
    ensures forall k :: 0 <= k < |es| ==> r[k] == (Utf16Offset(text, es[k].0), es[k].1)
  {
    seq(|es|, k requires 0 <= k < |es| => (Utf16Offset(text, es[k].0), es[k].1))
  }

  /** The chunks `AnalyzeToLattice` evidently means to build: one per
      UTF-16 unit of the text and the tail, each token placed at the unit
      where its first character begins. */
  function ChunksIntended(text: String, es: seq<(nat, Node)>): (cs: seq<seq<Node>>)
    ensures |cs| == Utf16Length(text) + 1
  {
    Chunks(Utf16Length(text), Utf16Entries(text, es))
  }

  /** In the intended chunks a node sits at unit `i` exactly when a token
      starting at a character that begins at unit `i` carries it; tokens
      starting past the text are dropped. */
  lemma ChunksIntendedPlacesByUnits(text: String, es: seq<(nat, Node)>, i: nat, n: Node)
    requires i <= Utf16Length(text)
    ensures n in ChunksIntended(text, es)[i] <==>
              exists k :: 0 <= k < |es| && es[k].1 == n && es[k].0 <= |text| && Utf16Length(text[..es[k].0]) == i
  {
    var us := Utf16Entries(text, es);
    NodesAtMembers(us, i, n);
    if n in ChunksIntended(text, es)[i] {
      var k :| 0 <= k < |us| && us[k] == (i, n);
      assert es[k].1 == n && es[k].0 <= |text| && Utf16Length(text[..es[k].0]) == i;
    }
    if exists k :: 0 <= k < |es| && es[k].1 == n && es[k].0 <= |text| && Utf16Length(text[..es[k].0]) == i {
      var k :| 0 <= k < |es| && es[k].1 == n && es[k].0 <= |text| && Utf16Length(text[..es[k].0]) == i;
      assert us[k] == (i, n);
    }
  }

  /** For text inside the Basic Multilingual Plane the chunks as written
      are the intended ones. */
  lemma ChunksAgreeInBmp(text: String, es: seq<(nat, Node)>)
    requires InBmp(text)
    ensures Chunks(Utf16Length(text), es) == ChunksIntended(text, es)
  {
    Utf16LengthInBmp(text);
    var us := Utf16Entries(text, es);
    forall k | 0 <= k < |es|
      ensures us[k] == es[k]
    {
      if es[k].0 <= |text| {
        assert InBmp(text[..es[k].0]);
        Utf16LengthInBmp(text[..es[k].0]);
      }
    }
    assert us == es;
  }

  /** For "𠮷か" (a character outside the Basic Multilingual Plane, then
      か), tokenized as its two characters, the token loop puts か at
      chunk 1, the low surrogate of 𠮷, while it begins at unit 2. */
  lemma NonBmpTokenMisplaced(a: Node, b: Node)
    requires a != b
    ensures var text, es := "\U{20BB7}か", [(0, a), (1, b)];
            Utf16Length(text) == 3
            && Chunks(Utf16Length(text), es)[1] == [b]
            && Chunks(Utf16Length(text), es)[2] == []
            && ChunksIntended(text, es)[1] == []
            && ChunksIntended(text, es)[2] == [b]
  {
    var text: String, es: seq<(nat, Node)> := "\U{20BB7}か", [(0, a), (1, b)];
    assert text[..1] == "\U{20BB7}" && text[..0] == [];
    assert Utf16Length(text[..1]) == 2;
    assert Utf16Length(text) == 3;
    var us := Utf16Entries(text, es);
    assert us == [(0, a), (2, b)];
    assert es[..1] == [(0, a)] && us[..1] == [(0, a)];
    assert es[..1][..0] == [];
    assert us[..1][..0] == es[..1][..0];
    assert NodesAt(es[..1], 1) == [] && NodesAt(es[..1], 2) == [];
    assert NodesAt(es, 1) == [b] && NodesAt(es, 2) == [];
    assert NodesAt(us, 1) == [] && NodesAt(us, 2) == [b];
  }

  /** Tokens that each start inside the text, read a non-empty surface
      and end within the text give a lattice of the shape the rest of the
      converter relies on. */
  lemma ChunksShaped(len: nat, es: seq<(nat, Node)>)
    requires forall k :: 0 <= k < |es| ==> 0 < |es[k].1.pre| && es[k].0 + |es[k].1.pre| <= len
    ensures Shaped(len, Chunks(len, es))
  {
    var cs := Chunks(len, es);
    forall i | 0 <= i < len
      ensures ChunkFits(len, i, cs[i])
    {
      forall n: Node | n in cs[i]
        ensures 0 < |n.pre| && i + |n.pre| <= len
      {
        NodesAtMembers(es, i, n);
        var k :| 0 <= k < |es| && es[k] == (i, n);
      }
    }
  }

  /** The head node `AnalyzeToLattice` makes. */
  function TokenHead(): (n: Node)
    ensures n.bunrui == HB_HEAD && n.deltaCost == 0
  {
    NewNode(HB_HEAD, DAN_NO_GYOU, KATSUYOU_NONE, 0)
  }

  /** The tail node `AnalyzeToLattice` makes. */
  function TokenTail(): (n: Node)
    ensures n.bunrui == HB_TAIL && n.deltaCost == 0
  {
    NewNode(HB_TAIL, DAN_NO_GYOU, KATSUYOU_NONE, 0)
  }

  /** `vibrato_tokenizer_load` succeeds on these path bytes. */
  predicate LoadSucceeds<F>(path: seq<Byte>, open: seq<Byte> -> Option<F>, read: F -> Option<Dict>)
  {
    IsUtf8(path) && open(path).Some? && read(open(path).value).Some?
  }

  /** The records read the tokens: record `k` starts where token `k` does
      and points at live strings holding the token's surface and feature. */
  ghost predicate ReadsTokens(live: map<nat, Allocation>, records: seq<TokenRecord>, toks: seq<EngineToken>)
  {
    |records| == |toks|
    && forall k :: 0 <= k < |records| ==>
         records[k].start == toks[k].start
         && records[k].surface in live && live[records[k].surface] == CString(CStringBytes(toks[k].surface))
         && records[k].feature in live && live[records[k].feature] == CString(CStringBytes(toks[k].feature))
  }

  /** What `vibrato_tokenize` hands out reads the engine's tokens. */
  lemma MarshalledReadsTokens(live: map<nat, Allocation>, next: nat, toks: seq<EngineToken>)
    ensures ReadsTokens(Marshalled(live, next, toks), RecordsOf(toks, next), toks)
  {
    var m, rs := Marshalled(live, next, toks), RecordsOf(toks, next);
    forall k | 0 <= k < |toks|
      ensures rs[k].start == toks[k].start
      ensures rs[k].surface in m && m[rs[k].surface] == CString(CStringBytes(toks[k].surface))
      ensures rs[k].feature in m && m[rs[k].feature] == CString(CStringBytes(toks[k].feature))
    {
      MarshalledStrings(live, next, toks, k);
      assert rs[k] == TokenRecord(next + 2 * k, next + 2 * k + 1, toks[k].start, toks[k].end);
    }
  }

  /** Record `i` gives the entry of token `i`. */
  lemma EntryOfRecord(live: map<nat, Allocation>, records: seq<TokenRecord>, toks: seq<EngineToken>,
                      decode: seq<Byte> -> String, i: nat)
    requires ReadsTokens(live, records, toks) && i < |toks|
    ensures records[i].surface in live && records[i].feature in live
    ensures Entries(toks, decode)[i]
            == (records[i].start, TokenNode(decode(live[records[i].surface].bytes), decode(live[records[i].feature].bytes)))
  {
  }

  /** One more entry adds its node to the chunk where it starts. */
  lemma NodesAtSnoc(es: seq<(nat, Node)>, i: nat)
    requires i < |es|
    ensures forall j :: NodesAt(es[..i + 1], j) == NodesAt(es[..i], j) + (if es[i].0 == j then [es[i].1] else [])
  {
    assert es[..i + 1][..i] == es[..i];
  }

  /** One more entry appends its node to the chunk where it starts, when
      that lies within the text, and leaves the chunks alone otherwise. */
  lemma ChunksSnoc(len: nat, es: seq<(nat, Node)>, i: nat)
    requires i < |es|
    ensures var cs := Chunks(len, es[..i]);
            Chunks(len, es[..i + 1])
            == if es[i].0 <= len then cs[es[i].0 := cs[es[i].0] + [es[i].1]] else cs
  {
    NodesAtSnoc(es, i);
    var cs, ds := Chunks(len, es[..i]), Chunks(len, es[..i + 1]);
    var want := if es[i].0 <= len then cs[es[i].0 := cs[es[i].0] + [es[i].1]] else cs;
    forall j | 0 <= j <= len
      ensures ds[j] == want[j]
    {
      assert ds[j] == NodesAt(es[..i + 1], j) && cs[j] == NodesAt(es[..i], j);
    }
    assert |ds| == |want|;
  }

  /** The array `vibrato_tokenize` hands out may be freed, its records read
      the tokens, and freeing it gives the allocations back. */
  lemma TokenizedArray(live: map<nat, Allocation>, next: nat, toks: seq<EngineToken>)
    requires 0 < next && forall id :: id in live ==> 0 < id < next
    ensures FreeableArray(Marshalled(live, next, toks), next + 2 * |toks|)
    ensures Marshalled(live, next, toks)[next + 2 * |toks|].records == RecordsOf(toks, next)
    ensures ReadsTokens(Marshalled(live, next, toks), RecordsOf(toks, next), toks)
    ensures Released(Marshalled(live, next, toks), next + 2 * |toks|, RecordsOf(toks, next)) == live
  {
    MarshalledFreeable(live, next, toks);
    MarshalledReadsTokens(live, next, toks);
    TokenizeThenFree(live, next, toks);
  }

  /** The token loop of `AnalyzeToLattice`: for each record of the array,
      in order, the node made from its surface and feature strings is
      appended to the chunk where the token starts, unless that lies past
      the text. */
  method PlaceTokens(live: map<nat, Allocation>, records: seq<TokenRecord>, n: nat, len: nat,
                     decode: seq<Byte> -> String, ghost toks: seq<EngineToken>)
    returns (chunks: seq<seq<Node>>)
    requires ReadsTokens(live, records, toks) && n == |toks|
    ensures chunks == Chunks(len, Entries(toks, decode))
  {
    chunks := seq(len + 1, _ => []);
    ghost var es := Entries(toks, decode);
    assert chunks == Chunks(len, es[..0]);
    var i := 0;
    while i < n
      invariant 0 <= i <= n && chunks == Chunks(len, es[..i])
    {
      var r := records[i];
      var node := TokenNode(decode(live[r.surface].bytes), decode(live[r.feature].bytes));
      EntryOfRecord(live, records, toks, decode, i);
      ChunksSnoc(len, es, i);
      if r.start <= len {
        chunks := chunks[r.start := chunks[r.start] + [node]];
      }
      i := i + 1;
    }
    assert es[..n] == es;
  }

  /** The bridge calls of `AnalyzeToLattice`: tokenize the bytes with the
      handle, place the tokens into chunks for a text of `len` characters,
      and free the token array, so that the live allocations are what they
      were. Fails, allocating nothing, for a null handle or bytes that are
      not UTF-8. */
  method TokenizeIntoChunks(alloc: Allocator, h: nat, bytes: seq<Byte>, len: nat,
                            segment: Segmenter, decode: seq<Byte> -> String)
    returns (ok: bool, chunks: seq<seq<Node>>)
    requires alloc.Valid() && (h == 0 || (h in alloc.live && alloc.live[h].TokenizerBox?))
    modifies alloc
    ensures alloc.Valid() && alloc.live == old(alloc.live)
    ensures ok <==> h != 0 && IsUtf8(bytes)
    ensures ok ==> chunks == Chunks(len, Entries(segment(old(alloc.live)[h].dict, bytes), decode))
  {
    var tokens := new Cell(0);
    var count := new Cell(0);
    ghost var live0, next0 := alloc.live, alloc.next;
    var rc := alloc.Tokenize(h, Some(bytes), tokens, count, segment);
    if rc != 0 || tokens.value == 0 {
      return false, [];
    }
    ghost var toks := segment(live0[h].dict, bytes);
    chunks := PlaceAndFree(alloc, tokens.value, count.value, len, decode, live0, next0, toks);
    ok := true;
  }

  /** The second half of `TokenizeIntoChunks`: the tokens of the array
      `vibrato_tokenize` handed out are placed into chunks and the array
      is freed, giving the live allocations back. */
  method PlaceAndFree(alloc: Allocator, arr: nat, n: nat, len: nat, decode: seq<Byte> -> String,
                      ghost live0: map<nat, Allocation>, ghost next0: nat, ghost toks: seq<EngineToken>)
    returns (chunks: seq<seq<Node>>)
    requires alloc.Valid() && 0 < next0 && forall id :: id in live0 ==> 0 < id < next0
    requires alloc.live == Marshalled(live0, next0, toks) && arr == next0 + 2 * |toks| && n == |toks|
    modifies alloc
    ensures alloc.Valid() && alloc.live == live0
    ensures chunks == Chunks(len, Entries(toks, decode))
  {
    var live := alloc.live;
    TokenizedArray(live0, next0, toks);
    var records := live[arr].records;
    chunks := PlaceTokens(live, records, n, len, decode, toks);
    alloc.FreeTokens(arr, n);
  }

  // ---- The engine ------------------------------------------------------------

  /** `VibratoEngine`: whether it has been initialised and the tokenizer
      handle it holds (0 for null). The allocator stands for the bridge's
      heap. */
  class Engine {
    var initialized: bool
    var tokenizer: nat

    /** The handle is null or a live tokenizer. */
    ghost predicate Owns(alloc: Allocator)
      reads this, alloc
    {
      alloc.Valid() && (tokenizer == 0 || (tokenizer in alloc.live && alloc.live[tokenizer].TokenizerBox?))
    }

    constructor ()
      ensures !initialized && tokenizer == 0
    {
      initialized := false;
      tokenizer := 0;
    }

    /** `VibratoEngine::Initialize`: an empty path fails and changes
        nothing; otherwise the handle is replaced by what loading the
        path's UTF-8 bytes gives (null on failure), and the engine becomes
        initialised when that succeeds. A failed load leaves the flag as
        it was. */
    method Initialize<F>(path: String, alloc: Allocator, toUtf8: String -> seq<Byte>,
                         open: seq<Byte> -> Option<F>, read: F -> Option<Dict>)
      returns (ok: bool)
      requires Owns(alloc)
      modifies this, alloc
      ensures Owns(alloc)
      ensures ok <==> |path| > 0 && LoadSucceeds(toUtf8(path), open, read)
      ensures |path| == 0 ==> tokenizer == old(tokenizer) && alloc.live == old(alloc.live)
      ensures |path| > 0 ==> (tokenizer != 0 <==> ok)
      ensures initialized == (old(initialized) || ok)
      ensures ok ==> tokenizer !in old(alloc.live)
                     && alloc.live == old(alloc.live)[tokenizer := TokenizerBox(read(open(toUtf8(path)).value).value)]
      ensures !ok ==> alloc.live == old(alloc.live)
    {
      if |path| == 0 {
        return false;
      }
      var bytes := toUtf8(path);
      var h := alloc.Load(Some(bytes), open, read);
      tokenizer := h;
      if h == 0 {
        return false;
      }
      initialized := true;
      ok := true;
    }

    /** `VibratoEngine::AnalyzeToLattice`: FALSE, touching nothing, when
        the engine is not initialised or tokenizing fails; otherwise the
        lattice holds the text, a head and a tail node and, one per UTF-16
        unit of the text and the tail, the chunks the tokens give,
        and the token array is released again, so the bridge's live
        allocations are what they were. */
    method AnalyzeToLattice(text: String, lattice: Lattice, alloc: Allocator, segment: Segmenter,
                            toUtf8: String -> seq<Byte>, decode: seq<Byte> -> String)
      returns (ok: bool)
      requires Owns(alloc)
      modifies lattice, alloc
      ensures Owns(alloc) && alloc.live == old(alloc.live)
      ensures ok <==> initialized && tokenizer != 0 && IsUtf8(toUtf8(text))
      ensures !ok ==> unchanged(lattice)
      ensures ok ==>
                lattice.pre == text && lattice.head == Some(TokenHead()) && lattice.tail == Some(TokenTail())
                && lattice.chunks == Chunks(Utf16Length(text), Entries(segment(alloc.live[tokenizer].dict, toUtf8(text)), decode))
                && lattice.refs == old(lattice.refs) && lattice.nextId == old(lattice.nextId)
    {
      if !initialized {
        return false;
      }
      var tokenized, chunks := TokenizeIntoChunks(alloc, tokenizer, toUtf8(text), Utf16Length(text), segment, decode);
      if !tokenized {
        return false;
      }
      lattice.pre, lattice.chunks, lattice.head, lattice.tail := text, chunks, Some(TokenHead()), Some(TokenTail());
      ok := true;
    }

    /** `VibratoEngine::ConvertMultiClause` and `ConvertSingleClause` up to
        the making of the result: FALSE when not initialised or when the
        analysis fails; otherwise a fresh lattice analysed from the text,
        which the result maker receives. */
    method ConvertClauses(text: String, alloc: Allocator, segment: Segmenter,
                          toUtf8: String -> seq<Byte>, decode: seq<Byte> -> String)
      returns (ok: bool, lattice: Lattice)
      requires Owns(alloc)
      modifies alloc
      ensures fresh(lattice)
      ensures Owns(alloc) && alloc.live == old(alloc.live)
      ensures ok <==> initialized && tokenizer != 0 && IsUtf8(toUtf8(text))
      ensures ok ==>
                lattice.pre == text && lattice.head == Some(TokenHead()) && lattice.tail == Some(TokenTail())
                && lattice.chunks == Chunks(Utf16Length(text), Entries(segment(alloc.live[tokenizer].dict, toUtf8(text)), decode))
    {
      lattice := new Lattice([]);
      if !initialized {
        return false, lattice;
      }
      ok := AnalyzeToLattice(text, lattice, alloc, segment, toUtf8, decode);
    }
  }
}
