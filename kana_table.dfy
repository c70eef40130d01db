/** The hiragana table of the inflection generators (`s_hiragana_table`)
    and the two literal maps built from it (`MakeLiteralMaps`), which give
    the row (`Gyou`) and the column (`Dan`) of a kana. */
module KanaTable {
  import opened Wrappers
  import opened Hinshi

  /** `s_hiragana_table`: one row per `Gyou`, one column per `Dan`; the
      empty cells hold NUL. */
  const HIRAGANA: seq<seq<char>> := [
    ['あ', 'い', 'う', 'え', 'お'],
    ['か', 'き', 'く', 'け', 'こ'],
    ['が', 'ぎ', 'ぐ', 'げ', 'ご'],
    ['さ', 'し', 'す', 'せ', 'そ'],
    ['ざ', 'じ', 'ず', 'ぜ', 'ぞ'],
    ['た', 'ち', 'つ', 'て', 'と'],
    ['だ', 'ぢ', 'づ', 'で', 'ど'],
    ['な', 'に', 'ぬ', 'ね', 'の'],
    ['は', 'ひ', 'ふ', 'へ', 'ほ'],
    ['ば', 'び', 'ぶ', 'べ', 'ぼ'],
    ['ぱ', 'ぴ', 'ぷ', 'ぺ', 'ぽ'],
    ['ま', 'み', 'む', 'め', 'も'],
    ['や', '\0', 'ゆ', '\0', 'よ'],
    ['ら', 'り', 'る', 'れ', 'ろ'],
    ['わ', '\0', '\0', '\0', 'を'],
    ['ん', '\0', '\0', '\0', '\0']]

  const DAN_COUNT: nat := 5
  const CELL_COUNT: nat := 80

  /** A table of `GYOU_COUNT` rows of `DAN_COUNT` cells. */
  predicate IsTable(t: seq<seq<char>>)
  {
    |t| == GYOU_COUNT && forall i :: 0 <= i < |t| ==> |t[i]| == DAN_COUNT
  }

  lemma HiraganaShape()
    ensures IsTable(HIRAGANA)
  {
  }

  /** The `p`-th cell in the order `MakeLiteralMaps` visits them (row by
      row, column by column). */
  function Cell(t: seq<seq<char>>, p: nat): char
    requires IsTable(t) && p < CELL_COUNT
  {
    t[p / DAN_COUNT][p % DAN_COUNT]
  }

  /** Row and column of the last of the first `p` cells that holds `ch`:
      the entry the maps hold for `ch` after `p` writes, since a later
      write to the same key replaces an earlier one. */
  function LastWrite(t: seq<seq<char>>, ch: char, p: nat): (r: Option<(nat, nat)>)
    requires IsTable(t) && p <= CELL_COUNT
    ensures r.Some? ==> r.value.0 < GYOU_COUNT && r.value.1 < DAN_COUNT
  {
    if p == 0 then None
    else if Cell(t, p - 1) == ch then Some(((p - 1) / DAN_COUNT, (p - 1) % DAN_COUNT))
    else LastWrite(t, ch, p - 1)
  }

  /** A key is written exactly when some visited cell holds it. */
  lemma {:induction false} LastWriteFound(t: seq<seq<char>>, ch: char, p: nat)
    requires IsTable(t) && p <= CELL_COUNT
    ensures LastWrite(t, ch, p).Some? <==> exists q :: 0 <= q < p && Cell(t, q) == ch
  {
    if p > 0 {
      LastWriteFound(t, ch, p - 1);
      if Cell(t, p - 1) == ch {
        assert 0 <= p - 1 < p && Cell(t, p - 1) == ch;
      }
    }
  }

  /** The last cell holding `ch` is the one the maps keep. */
  lemma {:induction false} LastWriteIs(t: seq<seq<char>>, ch: char, p: nat, q: nat)
    requires IsTable(t) && q < p <= CELL_COUNT && Cell(t, q) == ch
    requires forall j :: q < j < p ==> Cell(t, j) != ch
    ensures LastWrite(t, ch, p) == Some((q / DAN_COUNT, q % DAN_COUNT))
  {
    if p - 1 != q {
      LastWriteIs(t, ch, p - 1, q);
    }
  }

  /** A row map holding, for every key written by the first `p` cells,
      the row of the last such cell. */
  ghost predicate RowsWritten(t: seq<seq<char>>, m: map<char, nat>, p: nat)
    requires IsTable(t) && p <= CELL_COUNT
  {
    (forall ch :: ch in m <==> LastWrite(t, ch, p).Some?)
    && (forall ch :: ch in m ==> m[ch] == LastWrite(t, ch, p).value.0)
  }

  /** The same for the column map. */
  ghost predicate ColumnsWritten(t: seq<seq<char>>, m: map<char, nat>, p: nat)
    requires IsTable(t) && p <= CELL_COUNT
  {
    (forall ch :: ch in m <==> LastWrite(t, ch, p).Some?)
    && (forall ch :: ch in m ==> m[ch] == LastWrite(t, ch, p).value.1)
  }

  /** Writing cell `p` into the row map extends it by that cell. */
  lemma RowWrite(t: seq<seq<char>>, m: map<char, nat>, p: nat)
    requires IsTable(t) && p < CELL_COUNT && RowsWritten(t, m, p)
    ensures RowsWritten(t, m[Cell(t, p) := p / DAN_COUNT], p + 1)
  {
  }

  /** Writing cell `p` into the column map extends it by that cell. */
  lemma ColumnWrite(t: seq<seq<char>>, m: map<char, nat>, p: nat)
    requires IsTable(t) && p < CELL_COUNT && ColumnsWritten(t, m, p)
    ensures ColumnsWritten(t, m[Cell(t, p) := p % DAN_COUNT], p + 1)
  {
  }

  /** A kana held in cell (`g`, `d`), in no later cell of its row and in
      no later row, is last written there. */
  lemma CellIsLast(t: seq<seq<char>>, g: nat, d: nat)
    requires IsTable(t) && g < GYOU_COUNT && d < DAN_COUNT
    requires forall i :: g < i < GYOU_COUNT ==> t[g][d] !in t[i]
    requires forall k :: d < k < DAN_COUNT ==> t[g][k] != t[g][d]
    ensures LastWrite(t, t[g][d], CELL_COUNT) == Some((g, d))
  {
    var q := g * DAN_COUNT + d;
    assert Cell(t, q) == t[g][d];
    forall j | q < j < CELL_COUNT
      ensures Cell(t, j) != t[g][d]
    {
      var i, k := j / DAN_COUNT, j % DAN_COUNT;
      assert j == i * DAN_COUNT + k;
      if i == g {
        assert d < k;
      } else {
        assert g < i;
        assert Cell(t, j) in t[i];
      }
    }
    LastWriteIs(t, t[g][d], CELL_COUNT, q);
  }

  /** `g_hiragana_to_gyou[ch]`: a key the table does not hold reads as
      the default value of the map, `GYOU_A`. */
  function GyouOf(ch: char): (g: nat)
    ensures g < GYOU_COUNT
  {
    HiraganaShape();
    match LastWrite(HIRAGANA, ch, CELL_COUNT)
    case Some(rc) => rc.0
    case None => GYOU_A
  }

  /** `g_hiragana_to_dan[ch]`, with the default `DAN_A`. */
  function DanOf(ch: char): nat
  {
    HiraganaShape();
    match LastWrite(HIRAGANA, ch, CELL_COUNT)
    case Some(rc) => rc.1
    case None => DAN_A
  }

  /** The continuative (i-column) kana of a row appears in no later row. */
  lemma LaterRowsLackI(g: nat, i: nat)
    requires g < i < |HIRAGANA| && HIRAGANA[g][DAN_I] != '\0'
    ensures HIRAGANA[g][DAN_I] !in HIRAGANA[i]
  {
  }

  /** The conclusive (u-column) kana of a row appears in no later row. */
  lemma LaterRowsLackU(g: nat, i: nat)
    requires g < i < |HIRAGANA| && HIRAGANA[g][DAN_U] != '\0'
    ensures HIRAGANA[g][DAN_U] !in HIRAGANA[i]
  {
  }

  /** A kana in cell (`g`, `d`) of the table, in no later cell of its row
      and in no later row, reads back as that row and column. */
  lemma CellReadsBack(g: nat, d: nat)
    requires g < GYOU_COUNT && d < DAN_COUNT
    requires forall i :: g < i < GYOU_COUNT ==> HIRAGANA[g][d] !in HIRAGANA[i]
    requires forall k :: d < k < DAN_COUNT ==> HIRAGANA[g][k] != HIRAGANA[g][d]
    ensures GyouOf(HIRAGANA[g][d]) == g && DanOf(HIRAGANA[g][d]) == d
  {
    HiraganaShape();
    CellIsLast(HIRAGANA, g, d);
  }

  /** The maps invert the i-column: the continuative kana of row `g` (き
      of the か-row) reads back as row `g`, column `DAN_I`. */
  lemma ContinuativeKanaCell(g: nat)
    requires g < GYOU_COUNT && HIRAGANA[g][DAN_I] != '\0'
    ensures GyouOf(HIRAGANA[g][DAN_I]) == g && DanOf(HIRAGANA[g][DAN_I]) == DAN_I
  {
    HiraganaShape();
    forall i | g < i < GYOU_COUNT
      ensures HIRAGANA[g][DAN_I] !in HIRAGANA[i]
    {
      LaterRowsLackI(g, i);
    }
    CellReadsBack(g, DAN_I);
  }

  /** The maps invert the u-column: the conclusive kana of row `g` reads
      back as row `g`, column `DAN_U`. */
  lemma ConclusiveKanaCell(g: nat)
    requires g < GYOU_COUNT && HIRAGANA[g][DAN_U] != '\0'
    ensures GyouOf(HIRAGANA[g][DAN_U]) == g && DanOf(HIRAGANA[g][DAN_U]) == DAN_U
  {
    HiraganaShape();
    forall i | g < i < GYOU_COUNT
      ensures HIRAGANA[g][DAN_U] !in HIRAGANA[i]
    {
      LaterRowsLackU(g, i);
    }
    CellReadsBack(g, DAN_U);
  }

  /** NUL, the filler of the empty cells, is a key too: the last cell
      written, that of the ん-row and the お-column, wins. */
  lemma LiteralMapsOfNul()
    ensures GyouOf('\0') == GYOU_NN && DanOf('\0') == DAN_O
  {
    HiraganaShape();
    assert Cell(HIRAGANA, CELL_COUNT - 1) == '\0';
  }

  /** The two global maps `MakeLiteralMaps` fills. */
  class LiteralMaps {
    var toGyou: map<char, nat>
    var toDan: map<char, nat>

    /** The maps as the program starts them: empty. */
    constructor ()
      ensures toGyou == map[] && toDan == map[]
    {
      toGyou := map[];
      toDan := map[];
    }

    /** `MakeLiteralMaps`: when the row map is already filled nothing
        changes; otherwise both maps are built from the hiragana table. */
    method Make()
      modifies this
      ensures old(|toGyou|) > 0 ==> toGyou == old(toGyou) && toDan == old(toDan)
      ensures old(|toGyou|) == 0 ==>
                IsTable(HIRAGANA) && RowsWritten(HIRAGANA, toGyou, CELL_COUNT)
                && ColumnsWritten(HIRAGANA, toDan, CELL_COUNT)
    {
      if |toGyou| > 0 {
        return;
      }
      HiraganaShape();
      Fill(HIRAGANA);
    }

    /** The loops of `MakeLiteralMaps`: a row of the table at a time, first
        the row of each of its cells, then the column of each, so that
        every key of the table maps to the row and column of its last
        cell. */
    method Fill(t: seq<seq<char>>)
      requires IsTable(t)
      modifies this
      ensures RowsWritten(t, toGyou, CELL_COUNT) && ColumnsWritten(t, toDan, CELL_COUNT)
    {
      toGyou := map[];
      toDan := map[];
      var i := 0;
      while i < GYOU_COUNT
        invariant 0 <= i <= GYOU_COUNT
        invariant RowsWritten(t, toGyou, i * 5) && ColumnsWritten(t, toDan, i * 5)
      {
        WriteRows(t, i);
        WriteColumns(t, i);
        i := i + 1;
      }
    }

    /** The inner loop that writes the row of each cell of row `i`. */
    method WriteRows(t: seq<seq<char>>, i: nat)
      requires IsTable(t) && i < GYOU_COUNT && RowsWritten(t, toGyou, i * 5)
      modifies this
      ensures RowsWritten(t, toGyou, i * 5 + 5) && toDan == old(toDan)
    {
      var k := 0;
      while k < DAN_COUNT
        invariant 0 <= k <= DAN_COUNT
        invariant RowsWritten(t, toGyou, i * 5 + k) && toDan == old(toDan)
      {
        assert Cell(t, i * 5 + k) == t[i][k];
        RowWrite(t, toGyou, i * 5 + k);
        toGyou := toGyou[t[i][k] := i];
        k := k + 1;
      }
    }

    /** The inner loop that writes the column of each cell of row `i`. */
    method WriteColumns(t: seq<seq<char>>, i: nat)
      requires IsTable(t) && i < GYOU_COUNT && ColumnsWritten(t, toDan, i * 5)
      modifies this
      ensures ColumnsWritten(t, toDan, i * 5 + 5) && toGyou == old(toGyou)
    {
      var k := 0;
      while k < DAN_COUNT
        invariant 0 <= k <= DAN_COUNT
        invariant ColumnsWritten(t, toDan, i * 5 + k) && toGyou == old(toGyou)
      {
        assert Cell(t, i * 5 + k) == t[i][k];
        ColumnWrite(t, toDan, i * 5 + k);
        toDan := toDan[t[i][k] := k];
        k := k + 1;
      }
    }

    /** A filled map answers as `GyouOf` and `DanOf`, the lookups the
        generators use. */
    lemma FilledMapsAnswer(ch: char)
      requires IsTable(HIRAGANA) && RowsWritten(HIRAGANA, toGyou, CELL_COUNT) && ColumnsWritten(HIRAGANA, toDan, CELL_COUNT)
      ensures ch in toGyou ==> toGyou[ch] == GyouOf(ch) && toDan[ch] == DanOf(ch)
      ensures ch !in toGyou ==> GyouOf(ch) == GYOU_A && DanOf(ch) == DAN_A
    {
    }
  }
}
