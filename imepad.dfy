/** The data side of the IME pad (`imepad.cpp`): the kanji and radical
    tables read from tab-separated data lines, the indexes built beside
    them, the radical table sorted by strokes, and the two list filters.
    The data files are given as their lines, already decoded from UTF-8. */
module ImePadData {
  import opened Text
  import opened Wrappers

  /** `KANJI_ENTRY`: the numeric fields are `WORD`s. */
  datatype KanjiEntry = KanjiEntry(kanjiId: nat, kanjiChar: char, radicalId2: nat, strokes: nat, readings: String)

  /** `RADICAL_ENTRY`. */
  datatype RadicalEntry = RadicalEntry(radicalId: nat, radicalId2: nat, strokes: nat, readings: String)

  // ---- line handling ---------------------------------------------------------------

  /** A line whose first character is `;` is a comment and is skipped. */
  predicate IsComment(line: String)
  {
    |line| > 0 && line[0] == ';'
  }

  /** The tab-separated fields of a line once the line break is trimmed. */
  function Fields(line: String): seq<String>
  {
    Split(TrimRight(line, {'\r', '\n'}), '\t')
  }

  /** Every data line has the five fields the loaders index. */
  predicate WellFormed(lines: seq<String>)
  {
    forall i :: 0 <= i < |lines| && !IsComment(lines[i]) ==> |Fields(lines[i])| >= 5
  }

  /** Field `i`, or the empty string past the end (never reached on a
      well-formed line). */
  function Field(vec: seq<String>, i: nat): String
  {
    if i < |vec| then vec[i] else []
  }

  /** The entry a kanji line gives: id, character, radical, strokes, readings. */
  function ParseKanji(line: String): KanjiEntry
  {
    var vec := Fields(line);
    KanjiEntry(ToWord(Wtoi(Field(vec, 0))), CharAt(Field(vec, 1), 0),
               ToWord(Wtoi(Field(vec, 2))), ToWord(Wtoi(Field(vec, 3))), Field(vec, 4))
  }

  /** The entry a radical line gives; the third field is not read. */
  function ParseRadical(line: String): RadicalEntry
  {
    var vec := Fields(line);
    RadicalEntry(ToWord(Wtoi(Field(vec, 0))), ToWord(Wtoi(Field(vec, 1))),
                 ToWord(Wtoi(Field(vec, 3))), Field(vec, 4))
  }

  /** A field as the data files write it: no tab and no line break. */
  predicate PlainField(s: String)
  {
    forall i :: 0 <= i < |s| ==> s[i] != '\t' && s[i] != '\r' && s[i] != '\n'
  }

  /** A numeric field: decimal digits whose value fits a `WORD`. */
  predicate WordNumeral(s: String)
  {
    |s| > 0 && AllDigits(s) && DigitsValue(s, 10) < 0x1_0000
  }

  /** A line the data files hold, the fields joined by tabs and the line
      ended by CR LF, splits back into its fields. */
  lemma LineFields(parts: seq<String>)
    requires |parts| >= 1
    requires forall i :: 0 <= i < |parts| ==> PlainField(parts[i])
    ensures Fields(Join(parts, '\t') + "\r\n") == parts
  {
    var line := Join(parts, '\t');
    JoinedPlain(parts);
    TrimRightOf(line, "\r\n", {'\r', '\n'});
    SplitJoin(parts, '\t');
  }

  /** Plain fields joined by tabs hold no line break, and none of them a
      tab. */
  lemma JoinedPlain(parts: seq<String>)
    requires forall i :: 0 <= i < |parts| ==> PlainField(parts[i])
    ensures Avoids(Join(parts, '\t'), {'\r', '\n'})
    ensures forall i :: 0 <= i < |parts| ==> '\t' !in parts[i]
  {
    forall i, j | 0 <= i < |parts| && 0 <= j < |parts[i]|
      ensures parts[i][j] !in {'\r', '\n'} && parts[i][j] != '\t'
    {
      assert PlainField(parts[i]);
    }
    JoinAvoids(parts, '\t', {'\r', '\n'});
  }

  /** A numeric field holds no tab or line break. */
  lemma NumeralPlain(s: String)
    requires AllDigits(s)
    ensures PlainField(s)
  {
    forall i | 0 <= i < |s|
      ensures s[i] != '\t' && s[i] != '\r' && s[i] != '\n'
    {
      assert DigitIn(s[i], 10).Some?;
    }
  }

  /** A numeric field reads as its value. */
  lemma NumeralValue(s: String)
    requires WordNumeral(s)
    ensures ToWord(Wtoi(s)) == DigitsValue(s, 10)
  {
    WtoiOfDigits(s);
  }

  /** A kanji data line reads back as its entry: the id, the kanji, the
      second radical id, the strokes and the readings. */
  lemma KanjiLineRead(id: String, kanji: char, radical2: String, strokes: String, readings: String)
    requires WordNumeral(id) && WordNumeral(radical2) && WordNumeral(strokes)
    requires PlainField([kanji]) && PlainField(readings)
    ensures ParseKanji(Join([id, [kanji], radical2, strokes, readings], '\t') + "\r\n")
            == KanjiEntry(DigitsValue(id, 10), kanji, DigitsValue(radical2, 10), DigitsValue(strokes, 10), readings)
  {
    var parts := [id, [kanji], radical2, strokes, readings];
    NumeralPlain(id);
    NumeralPlain(radical2);
    NumeralPlain(strokes);
    LineFields(parts);
    NumeralValue(id);
    NumeralValue(radical2);
    NumeralValue(strokes);
  }

  /** A radical data line reads back as its entry: the id, the second id,
      the strokes from the fourth field and the readings; the third field
      is ignored. */
  lemma RadicalLineRead(id: String, id2: String, third: String, strokes: String, readings: String)
    requires WordNumeral(id) && WordNumeral(id2) && WordNumeral(strokes)
    requires PlainField(third) && PlainField(readings)
    ensures ParseRadical(Join([id, id2, third, strokes, readings], '\t') + "\r\n")
            == RadicalEntry(DigitsValue(id, 10), DigitsValue(id2, 10), DigitsValue(strokes, 10), readings)
  {
    var parts := [id, id2, third, strokes, readings];
    NumeralPlain(id);
    NumeralPlain(id2);
    NumeralPlain(strokes);
    LineFields(parts);
    NumeralValue(id);
    NumeralValue(id2);
    NumeralValue(strokes);
  }

  /** The entries the data lines give, in line order. */
  function Rows<T>(lines: seq<String>, parse: String -> T): seq<T>
    decreases |lines|
  {
    if |lines| == 0 then []
    else
      var last := lines[|lines| - 1];
      Rows(lines[..|lines| - 1], parse) + (if IsComment(last) then [] else [parse(last)])
  }

  /** Reading two files' worth of lines gives the two tables one after the
      other; a comment line gives nothing and a data line exactly one entry. */
  lemma {:induction false} RowsAppend<T>(a: seq<String>, b: seq<String>, parse: String -> T)
    ensures Rows(a + b, parse) == Rows(a, parse) + Rows(b, parse)
    decreases |b|
  {
    if |b| > 0 {
      var b' := b[..|b| - 1];
      assert (a + b)[..|a + b| - 1] == a + b';
      RowsAppend(a, b', parse);
    } else {
      assert a + b == a;
    }
  }

  lemma RowOfOneLine<T>(line: String, parse: String -> T)
    ensures IsComment(line) ==> Rows([line], parse) == []
    ensures !IsComment(line) ==> Rows([line], parse) == [parse(line)]
  {
    assert [line][..0] == [];
  }

  /** One more line read. */
  lemma RowsStep<T>(lines: seq<String>, i: nat, parse: String -> T)
    requires i < |lines|
    ensures Rows(lines[..i + 1], parse) == Rows(lines[..i], parse) + (if IsComment(lines[i]) then [] else [parse(lines[i])])
  {
    assert lines[..i + 1][..i] == lines[..i];
  }

  // ---- indexes -----------------------------------------------------------------

  /** `map[k]`, with a missing key reading as an empty list (as
      `std::map::operator[]` inserts one). */
  function Get(m: map<nat, seq<nat>>, k: nat): seq<nat>
  {
    if k in m then m[k] else []
  }

  /** `map[k].push_back(v)`. */
  function Push(m: map<nat, seq<nat>>, k: nat, v: nat): map<nat, seq<nat>>
  {
    m[k := Get(m, k) + [v]]
  }

  /** The index after pushing `val(e)` onto `key(e)` for each entry in order. */
  function Index<T>(m: map<nat, seq<nat>>, es: seq<T>, key: T -> nat, val: T -> nat): map<nat, seq<nat>>
    decreases |es|
  {
    if |es| == 0 then m
    else
      var e := es[|es| - 1];
      Push(Index(m, es[..|es| - 1], key, val), key(e), val(e))
  }

  /** One more entry indexed. */
  lemma IndexSnoc<T>(m: map<nat, seq<nat>>, es: seq<T>, e: T, key: T -> nat, val: T -> nat)
    ensures Index(m, es + [e], key, val) == Push(Index(m, es, key, val), key(e), val(e))
  {
    assert (es + [e])[..|es|] == es;
  }

  /** The values of the entries whose key is `k`, in entry order. */
  function Matching<T>(es: seq<T>, key: T -> nat, val: T -> nat, k: nat): seq<nat>
    decreases |es|
  {
    if |es| == 0 then []
    else
      var e := es[|es| - 1];
      Matching(es[..|es| - 1], key, val, k) + (if key(e) == k then [val(e)] else [])
  }

  /** Each list of the index holds what it held before followed by the
      values of exactly the entries with that key, in table order. */
  lemma {:induction false} IndexLists<T>(m: map<nat, seq<nat>>, es: seq<T>, key: T -> nat, val: T -> nat, k: nat)
    ensures Get(Index(m, es, key, val), k) == Get(m, k) + Matching(es, key, val, k)
    decreases |es|
  {
    if |es| > 0 {
      IndexLists(m, es[..|es| - 1], key, val, k);
    }
  }

  /** The index gains a key exactly when some entry has it. */
  lemma {:induction false} IndexKeys<T>(m: map<nat, seq<nat>>, es: seq<T>, key: T -> nat, val: T -> nat, k: nat)
    ensures k in Index(m, es, key, val) <==> k in m || exists i :: 0 <= i < |es| && key(es[i]) == k
    decreases |es|
  {
    if |es| > 0 {
      var es' := es[..|es| - 1];
      IndexKeys(m, es', key, val, k);
      if exists i :: 0 <= i < |es'| && key(es'[i]) == k {
        var i :| 0 <= i < |es'| && key(es'[i]) == k;
        assert key(es[i]) == k;
      }
      if exists i :: 0 <= i < |es| && key(es[i]) == k {
        var i :| 0 <= i < |es| && key(es[i]) == k;
        if i < |es'| {
          assert key(es'[i]) == k;
        }
      }
    }
  }

  /** `m_radical_id_map[radical_id] = radical_id2` for each radical in order. */
  function IdMap(m: map<nat, nat>, es: seq<RadicalEntry>): map<nat, nat>
    decreases |es|
  {
    if |es| == 0 then m
    else
      var e := es[|es| - 1];
      IdMap(m, es[..|es| - 1])[e.radicalId := e.radicalId2]
  }

  /** One more radical maps its id to its second id. */
  lemma IdMapSnoc(m: map<nat, nat>, es: seq<RadicalEntry>, e: RadicalEntry)
    ensures IdMap(m, es + [e]) == IdMap(m, es)[e.radicalId := e.radicalId2]
  {
    assert (es + [e])[..|es|] == es;
  }

  /** The last radical with a given id decides what that id maps to. */
  lemma {:induction false} IdMapLastWins(m: map<nat, nat>, es: seq<RadicalEntry>, i: nat)
    requires i < |es|
    requires forall j :: i < j < |es| ==> es[j].radicalId != es[i].radicalId
    ensures es[i].radicalId in IdMap(m, es) && IdMap(m, es)[es[i].radicalId] == es[i].radicalId2
    decreases |es|
  {
    if i < |es| - 1 {
      var es' := es[..|es| - 1];
      assert es'[i] == es[i];
      assert es[|es| - 1].radicalId != es[i].radicalId;
      forall j | i < j < |es'| ensures es'[j].radicalId != es'[i].radicalId {
        assert es'[j] == es[j];
      }
      IdMapLastWins(m, es', i);
    }
  }

  /** An id no radical has keeps what it mapped to, or stays unmapped. */
  lemma {:induction false} IdMapKeepsOthers(m: map<nat, nat>, es: seq<RadicalEntry>, k: nat)
    requires forall i :: 0 <= i < |es| ==> es[i].radicalId != k
    ensures k in IdMap(m, es) <==> k in m
    ensures k in m ==> IdMap(m, es)[k] == m[k]
    decreases |es|
  {
    if |es| > 0 {
      var es' := es[..|es| - 1];
      assert es[|es| - 1].radicalId != k;
      forall i | 0 <= i < |es'| ensures es'[i].radicalId != k {
        assert es'[i] == es[i];
      }
      IdMapKeepsOthers(m, es', k);
    }
  }

  // The keys and values the three indexes use.
  function KanjiStrokes(e: KanjiEntry): nat { e.strokes }
  function KanjiId(e: KanjiEntry): nat { e.kanjiId }
  function KanjiRadical2(e: KanjiEntry): nat { e.radicalId2 }
  function RadicalStrokes(e: RadicalEntry): nat { e.strokes }
  function RadicalId(e: RadicalEntry): nat { e.radicalId }

  /** The fields of one kanji data line, read as the loader reads them. */
  method ReadKanjiLine(line: String) returns (entry: KanjiEntry)
    requires |Fields(line)| >= 5
    ensures entry == ParseKanji(line)
  {
    var vec := Fields(line);
    entry := KanjiEntry(ToWord(Wtoi(vec[0])), CharAt(vec[1], 0), ToWord(Wtoi(vec[2])),
                        ToWord(Wtoi(vec[3])), vec[4]);
  }

  /** The fields of one radical data line. */
  method ReadRadicalLine(line: String) returns (entry: RadicalEntry)
    requires |Fields(line)| >= 5
    ensures entry == ParseRadical(line)
  {
    var vec := Fields(line);
    entry := RadicalEntry(ToWord(Wtoi(vec[0])), ToWord(Wtoi(vec[1])), ToWord(Wtoi(vec[3])), vec[4]);
  }

  // ---- sorting by strokes ---------------------------------------------------------

  /** `radical_compare` never says a later entry comes first. */
  predicate SortedByStrokes(t: seq<RadicalEntry>)
  {
    forall i, j :: 0 <= i < j < |t| ==> t[i].strokes <= t[j].strokes
  }

  /** An entry no heavier than the head of a sorted table can go in front. */
  lemma ConsSorted(x: RadicalEntry, t: seq<RadicalEntry>)
    requires SortedByStrokes(t)
    requires |t| > 0 ==> x.strokes <= t[0].strokes
    ensures SortedByStrokes([x] + t)
  {
    var r := [x] + t;
    forall i, j | 0 <= i < j < |r| ensures r[i].strokes <= r[j].strokes {
      assert r[j] == t[j - 1];
      if i > 0 {
        assert r[i] == t[i - 1];
      } else if j > 1 {
        assert t[0].strokes <= t[j - 1].strokes;
      }
    }
  }

  function InsertByStrokes(e: RadicalEntry, t: seq<RadicalEntry>): (r: seq<RadicalEntry>)
    requires SortedByStrokes(t)
    ensures SortedByStrokes(r)
    ensures multiset(r) == multiset(t) + multiset{e}
    ensures |r| == |t| + 1 && (r[0] == e || (|t| > 0 && r[0] == t[0]))
    decreases |t|
  {
    if |t| == 0 || e.strokes <= t[0].strokes then
      ConsSorted(e, t);
      [e] + t
    else
      var rest := InsertByStrokes(e, t[1..]);
      assert t == [t[0]] + t[1..];
      ConsSorted(t[0], rest);
      [t[0]] + rest
  }

  /** The radical table after `std::sort` with `radical_compare`: ascending
      by strokes, the same entries. The sort is not stable, so the order of
      radicals with equal strokes is not promised; this is one such order. */
  function SortByStrokes(t: seq<RadicalEntry>): (r: seq<RadicalEntry>)
    ensures SortedByStrokes(r)
    ensures multiset(r) == multiset(t)
    decreases |t|
  {
    if |t| == 0 then []
    else
      assert t == [t[0]] + t[1..];
      InsertByStrokes(t[0], SortByStrokes(t[1..]))
  }

  // ---- the list view ----------------------------------------------------------------

  /** An item inserted into the list view: its position (also its image) and
      its text. */
  datatype ListItem = ListItem(index: nat, text: String)

  /** `items` are exactly the kanji of `table` whose `key` is `want`, each
      with its readings, in table order. */
  predicate ListsExactly(table: seq<KanjiEntry>, items: seq<ListItem>, key: KanjiEntry -> int, want: int)
  {
    (forall j :: 0 <= j < |items| ==>
       items[j].index < |table| && key(table[items[j].index]) == want
       && items[j].text == table[items[j].index].readings)
    && (forall j1, j2 :: 0 <= j1 < j2 < |items| ==> items[j1].index < items[j2].index)
    && (forall i :: 0 <= i < |table| && key(table[i]) == want ==>
          exists j :: 0 <= j < |items| && items[j].index == i)
  }

  function StrokesKey(e: KanjiEntry): int { e.strokes }
  function Radical2Key(e: KanjiEntry): int { e.radicalId2 }

  /** The filter loop both list-box handlers run. */
  method ListMatching(table: seq<KanjiEntry>, key: KanjiEntry -> int, want: int) returns (items: seq<ListItem>)
    ensures ListsExactly(table, items, key, want)
  {
    items := [];
    var i := 0;
    while i < |table|
      invariant 0 <= i <= |table|
      invariant forall j :: 0 <= j < |items| ==>
        items[j].index < i && key(table[items[j].index]) == want
        && items[j].text == table[items[j].index].readings
      invariant forall j1, j2 :: 0 <= j1 < j2 < |items| ==> items[j1].index < items[j2].index
      invariant forall i' :: 0 <= i' < i && key(table[i']) == want ==>
        exists j :: 0 <= j < |items| && items[j].index == i'
    {
      if key(table[i]) == want {
        var prev := items;
        items := items + [ListItem(i, table[i].readings)];
        forall i' | 0 <= i' < i && key(table[i']) == want
          ensures exists j :: 0 <= j < |items| && items[j].index == i'
        {
          var j :| 0 <= j < |prev| && prev[j].index == i';
          assert items[j] == prev[j];
        }
        assert items[|items| - 1].index == i;
      }
      i := i + 1;
    }
  }

  /** The list-box text of a stroke count, as `_ttoi` reads it from a
      32-character buffer. */
  function StrokesOfText(text: String): int
  {
    Wtoi(if |text| < 32 then text else text[..31])
  }

  /** The line loop of `LoadKanjiData`: each data line appends its kanji
      and pushes its id onto the list for its strokes. */
  method ReadKanjis(lines: seq<String>, strokes0: map<nat, seq<nat>>)
    returns (table: seq<KanjiEntry>, strokes: map<nat, seq<nat>>)
    requires WellFormed(lines)
    ensures table == Rows(lines, ParseKanji)
    ensures strokes == Index(strokes0, table, KanjiStrokes, KanjiId)
  {
    table, strokes := [], strokes0;
    var i := 0;
    while i < |lines|
      invariant 0 <= i <= |lines|
      invariant KanjisRead(lines, i, strokes0, table, strokes)
    {
      var line := lines[i];
      KanjiStep(lines, i, strokes0, table, strokes);
      if !IsComment(line) {
        assert |Fields(line)| >= 5;
        var entry := ReadKanjiLine(line);
        table := table + [entry];
        strokes := Push(strokes, entry.strokes, entry.kanjiId);
      }
      i := i + 1;
    }
    assert lines[..|lines|] == lines;
  }

  /** The kanji table and stroke index after the first `i` lines. */
  predicate KanjisRead(lines: seq<String>, i: nat, strokes0: map<nat, seq<nat>>,
                       table: seq<KanjiEntry>, strokes: map<nat, seq<nat>>)
    requires i <= |lines|
  {
    table == Rows(lines[..i], ParseKanji) && strokes == Index(strokes0, table, KanjiStrokes, KanjiId)
  }

  lemma KanjiStep(lines: seq<String>, i: nat, strokes0: map<nat, seq<nat>>,
                  table: seq<KanjiEntry>, strokes: map<nat, seq<nat>>)
    requires i < |lines| && KanjisRead(lines, i, strokes0, table, strokes)
    ensures IsComment(lines[i]) ==> KanjisRead(lines, i + 1, strokes0, table, strokes)
    ensures !IsComment(lines[i]) ==>
      var e := ParseKanji(lines[i]);
      KanjisRead(lines, i + 1, strokes0, table + [e], Push(strokes, e.strokes, e.kanjiId))
  {
    RowsStep(lines, i, ParseKanji);
    IndexSnoc(strokes0, table, ParseKanji(lines[i]), KanjiStrokes, KanjiId);
  }

  /** The kanji loop of `LoadKanjiAndRadical`: each kanji's id is pushed
      onto the list for its second radical id. */
  method IndexByRadical2(table: seq<KanjiEntry>, m0: map<nat, seq<nat>>) returns (m: map<nat, seq<nat>>)
    ensures m == Index(m0, table, KanjiRadical2, KanjiId)
  {
    m := m0;
    var i := 0;
    while i < |table|
      invariant 0 <= i <= |table|
      invariant m == Index(m0, table[..i], KanjiRadical2, KanjiId)
    {
      assert table[..i + 1][..i] == table[..i];
      var kanji := table[i];
      m := Push(m, kanji.radicalId2, kanji.kanjiId);
      i := i + 1;
    }
    assert table[..|table|] == table;
  }

  /** The line loop of `LoadRadicalData`: each data line appends its
      radical, pushes its id onto the list for its strokes and maps its id
      to its second id. */
  method ReadRadicals(lines: seq<String>, strokes0: map<nat, seq<nat>>, ids0: map<nat, nat>)
    returns (table: seq<RadicalEntry>, strokes: map<nat, seq<nat>>, ids: map<nat, nat>)
    requires WellFormed(lines)
    ensures table == Rows(lines, ParseRadical)
    ensures strokes == Index(strokes0, table, RadicalStrokes, RadicalId)
    ensures ids == IdMap(ids0, table)
  {
    table, strokes, ids := [], strokes0, ids0;
    var i := 0;
    while i < |lines|
      invariant 0 <= i <= |lines|
      invariant RadicalsRead(lines, i, strokes0, ids0, table, strokes, ids)
    {
      var line := lines[i];
      RadicalStep(lines, i, strokes0, ids0, table, strokes, ids);
      if !IsComment(line) {
        assert |Fields(line)| >= 5;
        var entry := ReadRadicalLine(line);
        table := table + [entry];
        strokes := Push(strokes, entry.strokes, entry.radicalId);
        ids := ids[entry.radicalId := entry.radicalId2];
      }
      i := i + 1;
    }
    assert lines[..|lines|] == lines;
  }

  /** The radical table, stroke index and id map after the first `i` lines. */
  predicate RadicalsRead(lines: seq<String>, i: nat, strokes0: map<nat, seq<nat>>, ids0: map<nat, nat>,
                         table: seq<RadicalEntry>, strokes: map<nat, seq<nat>>, ids: map<nat, nat>)
    requires i <= |lines|
  {
    table == Rows(lines[..i], ParseRadical) && strokes == Index(strokes0, table, RadicalStrokes, RadicalId)
    && ids == IdMap(ids0, table)
  }

  lemma RadicalStep(lines: seq<String>, i: nat, strokes0: map<nat, seq<nat>>, ids0: map<nat, nat>,
                    table: seq<RadicalEntry>, strokes: map<nat, seq<nat>>, ids: map<nat, nat>)
    requires i < |lines| && RadicalsRead(lines, i, strokes0, ids0, table, strokes, ids)
    ensures IsComment(lines[i]) ==> RadicalsRead(lines, i + 1, strokes0, ids0, table, strokes, ids)
    ensures !IsComment(lines[i]) ==>
      var e := ParseRadical(lines[i]);
      RadicalsRead(lines, i + 1, strokes0, ids0, table + [e], Push(strokes, e.strokes, e.radicalId),
                   ids[e.radicalId := e.radicalId2])
  {
    RowsStep(lines, i, ParseRadical);
    IndexSnoc(strokes0, table, ParseRadical(lines[i]), RadicalStrokes, RadicalId);
    IdMapSnoc(ids0, table, ParseRadical(lines[i]));
  }

  /** `ImePad`'s tables and indexes. */
  class ImePad {
    var kanjiTable: seq<KanjiEntry>
    var kanjiStrokeMap: map<nat, seq<nat>>
    var radicalTable: seq<RadicalEntry>
    var radicalStrokeMap: map<nat, seq<nat>>
    var radicalIdMap: map<nat, nat>
    var radical2ToKanjiMap: map<nat, seq<nat>>

    constructor()
      ensures kanjiTable == [] && kanjiStrokeMap == map[]
      ensures radicalTable == [] && radicalStrokeMap == map[] && radicalIdMap == map[]
      ensures radical2ToKanjiMap == map[]
    {
      kanjiTable := [];
      kanjiStrokeMap := map[];
      radicalTable := [];
      radicalStrokeMap := map[];
      radicalIdMap := map[];
      radical2ToKanjiMap := map[];
    }

    /** `LoadKanjiData`: `file` is the data file's lines, or `None` when
        neither path opens. A table that is already filled is kept as it is
        and the result is TRUE; otherwise each data line appends its entry
        and pushes the kanji id onto the list for its strokes. */
    method LoadKanjiData(file: Option<seq<String>>) returns (ok: bool)
      requires file.Some? ==> WellFormed(file.value)
      modifies this
      ensures ok <==> |old(kanjiTable)| > 0 || file.Some?
      ensures kanjiTable == if |old(kanjiTable)| > 0 || file.None? then old(kanjiTable) else Rows(file.value, ParseKanji)
      ensures kanjiStrokeMap == if |old(kanjiTable)| > 0 then old(kanjiStrokeMap)
                                else Index(old(kanjiStrokeMap), kanjiTable, KanjiStrokes, KanjiId)
      ensures radicalTable == old(radicalTable) && radicalStrokeMap == old(radicalStrokeMap)
      ensures radicalIdMap == old(radicalIdMap) && radical2ToKanjiMap == old(radical2ToKanjiMap)
    {
      if |kanjiTable| > 0 {
        return true;
      }
      if file.None? {
        return false;
      }
      kanjiTable, kanjiStrokeMap := ReadKanjis(file.value, kanjiStrokeMap);
      ok := true;
    }

    /** `LoadRadicalData`: as the kanji loader, and each radical also maps
        its id to its second id. */
    method LoadRadicalData(file: Option<seq<String>>) returns (ok: bool)
      requires file.Some? ==> WellFormed(file.value)
      modifies this
      ensures ok <==> |old(radicalTable)| > 0 || file.Some?
      ensures radicalTable == if |old(radicalTable)| > 0 || file.None? then old(radicalTable) else Rows(file.value, ParseRadical)
      ensures radicalStrokeMap == if |old(radicalTable)| > 0 then old(radicalStrokeMap)
                                  else Index(old(radicalStrokeMap), radicalTable, RadicalStrokes, RadicalId)
      ensures radicalIdMap == if |old(radicalTable)| > 0 then old(radicalIdMap) else IdMap(old(radicalIdMap), radicalTable)
      ensures kanjiTable == old(kanjiTable) && kanjiStrokeMap == old(kanjiStrokeMap)
      ensures radical2ToKanjiMap == old(radical2ToKanjiMap)
    {
      if |radicalTable| > 0 {
        return true;
      }
      if file.None? {
        return false;
      }
      var table, strokes, ids := ReadRadicals(file.value, radicalStrokeMap, radicalIdMap);
      radicalTable, radicalStrokeMap, radicalIdMap := table, strokes, ids;
      ok := true;
    }

    /** `LoadKanjiAndRadical`: loads the kanji, then (only if that worked)
        the radicals; the first time both are there it indexes the kanji by
        second radical id and sorts the radical table by strokes. */
    method LoadKanjiAndRadical(kanjiFile: Option<seq<String>>, radicalFile: Option<seq<String>>) returns (ok: bool)
      requires kanjiFile.Some? ==> WellFormed(kanjiFile.value)
      requires radicalFile.Some? ==> WellFormed(radicalFile.value)
      modifies this
      ensures kanjiTable == if |old(kanjiTable)| > 0 || kanjiFile.None? then old(kanjiTable) else Rows(kanjiFile.value, ParseKanji)
      ensures kanjiStrokeMap == if |old(kanjiTable)| > 0 then old(kanjiStrokeMap)
                                else Index(old(kanjiStrokeMap), kanjiTable, KanjiStrokes, KanjiId)
      ensures ok <==> (|old(kanjiTable)| > 0 || kanjiFile.Some?) && (|old(radicalTable)| > 0 || radicalFile.Some?)
      ensures !(|old(kanjiTable)| > 0 || kanjiFile.Some?) ==>
        radicalTable == old(radicalTable) && radicalStrokeMap == old(radicalStrokeMap) && radicalIdMap == old(radicalIdMap)
      ensures (|old(kanjiTable)| > 0 || kanjiFile.Some?) && |old(radicalTable)| == 0 ==>
        radicalStrokeMap == (if radicalFile.None? then old(radicalStrokeMap)
                             else Index(old(radicalStrokeMap), Rows(radicalFile.value, ParseRadical), RadicalStrokes, RadicalId))
        && radicalIdMap == (if radicalFile.None? then old(radicalIdMap)
                            else IdMap(old(radicalIdMap), Rows(radicalFile.value, ParseRadical)))
      ensures (|old(kanjiTable)| > 0 || kanjiFile.Some?) && |old(radicalTable)| > 0 ==>
        radicalStrokeMap == old(radicalStrokeMap) && radicalIdMap == old(radicalIdMap)
      ensures ok && |old(radical2ToKanjiMap)| == 0 ==>
        radical2ToKanjiMap == Index(old(radical2ToKanjiMap), kanjiTable, KanjiRadical2, KanjiId)
        && SortedByStrokes(radicalTable)
        && multiset(radicalTable) == multiset(if |old(radicalTable)| > 0 then old(radicalTable)
                                              else Rows(radicalFile.value, ParseRadical))
      ensures !(ok && |old(radical2ToKanjiMap)| == 0) ==> radical2ToKanjiMap == old(radical2ToKanjiMap)
      ensures ok && |old(radical2ToKanjiMap)| > 0 ==>
        radicalTable == if |old(radicalTable)| > 0 then old(radicalTable) else Rows(radicalFile.value, ParseRadical)
      ensures !ok && (|old(kanjiTable)| > 0 || kanjiFile.Some?) ==> radicalTable == old(radicalTable)
    {
      var kanjiOk := LoadKanjiData(kanjiFile);
      if !kanjiOk {
        return false;
      }
      var radicalOk := LoadRadicalData(radicalFile);
      if !radicalOk {
        return false;
      }
      if |radical2ToKanjiMap| > 0 {
        return true;
      }
      radical2ToKanjiMap := IndexByRadical2(kanjiTable, radical2ToKanjiMap);
      radicalTable := SortByStrokes(radicalTable);
      ok := true;
    }

    /** `OnLB1StrokesChanged`: with no selection (`LB_ERR`) the list view is
        left empty; otherwise it lists exactly the kanji whose strokes equal
        the selected number, in table order. */
    method OnLB1StrokesChanged(selectedText: Option<String>) returns (items: seq<ListItem>)
      ensures selectedText.None? ==> items == []
      ensures selectedText.Some? ==> ListsExactly(kanjiTable, items, StrokesKey, StrokesOfText(selectedText.value))
    {
      if selectedText.None? {
        return [];
      }
      var strokes := StrokesOfText(selectedText.value);
      items := ListMatching(kanjiTable, StrokesKey, strokes);
    }

    /** `OnLB2StrokesChanged`: the list box row is an index into the radical
        table; the list view gets exactly the kanji with that radical's
        second id, in table order. */
    method OnLB2StrokesChanged(selected: Option<nat>) returns (items: seq<ListItem>)
      requires selected.Some? ==> selected.value < |radicalTable|
      ensures selected.None? ==> items == []
      ensures selected.Some? ==>
        ListsExactly(kanjiTable, items, Radical2Key, radicalTable[selected.value].radicalId2)
    {
      if selected.None? {
        return [];
      }
      var radicalId2 := radicalTable[selected.value].radicalId2;
      items := ListMatching(kanjiTable, Radical2Key, radicalId2);
    }
  }
}
