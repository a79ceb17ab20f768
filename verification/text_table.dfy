/** `create_text_table`: renders rows of values as a fixed-width text table
    (header line, dashed separator line, one line per row). */
module TextTable {
  import opened Text

  /** One data row after `str()`: column key to rendered value. */
  type Row = map<string, string>

  /** One entry of the ordered `columns` mapping: the key looked up in each row
      and the title shown in the header. */
  datatype Column = Column(key: string, title: string)

  /** `str(row.get(key, ''))`: a missing key renders as the empty string. */
  function Cell(row: Row, key: string): (v: string)
    ensures key !in row ==> v == ""
    ensures key in row ==> v == row[key]
  {
    if key in row then row[key] else ""
  }

  /** Length of the longest value of column `key` over all rows, 0 without rows. */
  function LongestCell(rows: seq<Row>, key: string): (n: nat)
    ensures forall i :: 0 <= i < |rows| ==> |Cell(rows[i], key)| <= n
    ensures n == 0 || exists i :: 0 <= i < |rows| && n == |Cell(rows[i], key)|
    decreases |rows|
  {
    if |rows| == 0 then 0
    else
      var rest := LongestCell(rows[1..], key);
      var first := |Cell(rows[0], key)|;
      assert forall i :: 1 <= i < |rows| ==> rows[i] == rows[1..][i - 1];
      if first >= rest then first else rest
  }

  /** The width `create_text_table` gives a column: the longer of the column's
      KEY and its longest value, plus a margin of two. */
  function KeyWidth(rows: seq<Row>, c: Column): (w: nat)
    ensures w >= |c.key| + 2
    ensures forall i :: 0 <= i < |rows| ==> w >= |Cell(rows[i], c.key)| + 2
    ensures w == |c.key| + 2 || exists i :: 0 <= i < |rows| && w == |Cell(rows[i], c.key)| + 2
  {
    var n := LongestCell(rows, c.key);
    (if |c.key| >= n then |c.key| else n) + 2
  }

  /** A column width that also accounts for the column's TITLE. */
  function TitleWidth(rows: seq<Row>, c: Column): (w: nat)
    ensures w >= |c.title| + 2 && w >= KeyWidth(rows, c)
    ensures w == KeyWidth(rows, c) || w == |c.title| + 2
  {
    var k := KeyWidth(rows, c);
    if |c.title| + 2 > k then |c.title| + 2 else k
  }

  function KeyWidths(rows: seq<Row>, cols: seq<Column>): (ws: seq<nat>)
    ensures |ws| == |cols|
    ensures forall i :: 0 <= i < |cols| ==> ws[i] == KeyWidth(rows, cols[i])
  {
    seq(|cols|, i requires 0 <= i < |cols| => KeyWidth(rows, cols[i]))
  }

  function TitleWidths(rows: seq<Row>, cols: seq<Column>): (ws: seq<nat>)
    ensures |ws| == |cols|
    ensures forall i :: 0 <= i < |cols| ==> ws[i] == TitleWidth(rows, cols[i])
  {
    seq(|cols|, i requires 0 <= i < |cols| => TitleWidth(rows, cols[i]))
  }

  /** Header cells, one per column in column order: each title left-justified
      to its column's width. */
  function HeaderCells(cols: seq<Column>, ws: seq<nat>): (cells: seq<string>)
    requires |ws| == |cols|
    ensures |cells| == |cols|
    ensures forall i :: 0 <= i < |cols| ==>
      |cells[i]| >= ws[i] && |cells[i]| >= |cols[i].title|
      && cells[i][..|cols[i].title|] == cols[i].title
  {
    seq(|cols|, i requires 0 <= i < |cols| => LJust(cols[i].title, ws[i]))
  }

  /** Separator cells: exactly `width` dashes per column. */
  function SeparatorCells(ws: seq<nat>): (cells: seq<string>)
    ensures |cells| == |ws|
    ensures forall i :: 0 <= i < |ws| ==> |cells[i]| == ws[i]
    ensures forall i, k :: 0 <= i < |ws| && 0 <= k < |cells[i]| ==> cells[i][k] == '-'
  {
    seq(|ws|, i requires 0 <= i < |ws| => Repeat('-', ws[i]))
  }

  /** Data cells of one row, in column order: each value left-justified to its
      column's width. */
  function RowCells(row: Row, cols: seq<Column>, ws: seq<nat>): (cells: seq<string>)
    requires |ws| == |cols|
    ensures |cells| == |cols|
    ensures forall i :: 0 <= i < |cols| ==>
      |cells[i]| >= ws[i] && |cells[i]| >= |Cell(row, cols[i].key)|
      && cells[i][..|Cell(row, cols[i].key)|] == Cell(row, cols[i].key)
  {
    seq(|cols|, i requires 0 <= i < |cols| => LJust(Cell(row, cols[i].key), ws[i]))
  }

  /** The lines of the table before the final `strip()`: header, separator,
      then one line per row, cells joined by `" | "`. */
  function Lines(rows: seq<Row>, cols: seq<Column>, ws: seq<nat>): (ls: seq<string>)
    requires |ws| == |cols|
    ensures |ls| == 2 + |rows|
  {
    [Join(HeaderCells(cols, ws), " | "), Join(SeparatorCells(ws), " | ")]
      + seq(|rows|, r requires 0 <= r < |rows| => Join(RowCells(rows[r], cols, ws), " | "))
  }

  function Render(rows: seq<Row>, cols: seq<Column>, ws: seq<nat>): string
    requires |ws| == |cols|
  {
    Strip(Terminated(Lines(rows, cols, ws), "\n"))
  }

  /** `create_text_table(data_rows, columns)` as written. */
  function CreateTextTable(rows: seq<Row>, cols: seq<Column>): string {
    Render(rows, cols, KeyWidths(rows, cols))
  }

  /** The table with widths that also make room for each title. */
  function CreateTextTableTitled(rows: seq<Row>, cols: seq<Column>): string {
    Render(rows, cols, TitleWidths(rows, cols))
  }

  // ---------------------------------------------------------------------------
  // Properties

  /** Every data cell is exactly its column's width: the value, then at least
      the two margin spaces. */
  lemma DataCellsPadded(rows: seq<Row>, cols: seq<Column>, r: nat, i: nat)
    requires r < |rows| && i < |cols|
    ensures var cell := RowCells(rows[r], cols, KeyWidths(rows, cols))[i];
      var v := Cell(rows[r], cols[i].key);
      && |cell| == KeyWidth(rows, cols[i])
      && |cell| >= |v| + 2
      && cell[..|v|] == v
      && forall k :: |v| <= k < |cell| ==> cell[k] == ' '
  {
  }

  /** Sum of the cell widths plus one separator between each pair. */
  function JoinedWidth(ws: seq<nat>, sepLen: nat): nat
    decreases |ws|
  {
    if |ws| == 0 then 0
    else if |ws| == 1 then ws[0]
    else ws[0] + sepLen + JoinedWidth(ws[1..], sepLen)
  }

  lemma {:induction false} JoinLength(parts: seq<string>, sep: string, ws: seq<nat>)
    requires |parts| == |ws|
    requires forall i :: 0 <= i < |ws| ==> |parts[i]| == ws[i]
    ensures |Join(parts, sep)| == JoinedWidth(ws, |sep|)
    decreases |parts|
  {
    if |parts| > 1 {
      JoinLength(parts[1..], sep, ws[1..]);
    }
  }

  /** With the widths `create_text_table` computes, the separator line and every
      data line have the same length, so the `" | "` separators line up. */
  lemma BodyAligned(rows: seq<Row>, cols: seq<Column>)
    ensures var ls := Lines(rows, cols, KeyWidths(rows, cols));
      forall j :: 1 <= j < |ls| ==> |ls[j]| == |ls[1]|
  {
    var ws := KeyWidths(rows, cols);
    var ls := Lines(rows, cols, ws);
    JoinLength(SeparatorCells(ws), " | ", ws);
    forall j | 2 <= j < |ls|
      ensures |ls[j]| == |ls[1]|
    {
      var cells := RowCells(rows[j - 2], cols, ws);
      forall i | 0 <= i < |cols|
        ensures |cells[i]| == ws[i]
      {
        DataCellsPadded(rows, cols, j - 2, i);
      }
      JoinLength(cells, " | ", ws);
    }
  }

  /** A title longer than its column's key and values overflows the header:
      here the header line is longer than the separator line below it. */
  lemma LongTitleMisaligned()
    ensures var ls := Lines([], [Column("id", "Identifier")], KeyWidths([], [Column("id", "Identifier")]));
      |ls[0]| == 10 && |ls[1]| == 4
  {
    var cols := [Column("id", "Identifier")];
    var ws := KeyWidths([], cols);
    assert ws[0] == 4;
    assert HeaderCells(cols, ws)[0] == "Identifier";
  }

  /** A data line whose widths leave room for every value is exactly as wide
      as the widths and separators add up to. */
  lemma RowLineWidth(row: Row, cols: seq<Column>, ws: seq<nat>)
    requires |ws| == |cols|
    requires forall i :: 0 <= i < |cols| ==> ws[i] >= |Cell(row, cols[i].key)|
    ensures |Join(RowCells(row, cols, ws), " | ")| == JoinedWidth(ws, 3)
  {
    var cells := RowCells(row, cols, ws);
    assert forall i :: 0 <= i < |cols| ==> cells[i] == LJust(Cell(row, cols[i].key), ws[i]);
    JoinLength(cells, " | ", ws);
  }

  /** The same for the header line when the widths leave room for every title. */
  lemma HeaderLineWidth(cols: seq<Column>, ws: seq<nat>)
    requires |ws| == |cols|
    requires forall i :: 0 <= i < |cols| ==> ws[i] >= |cols[i].title|
    ensures |Join(HeaderCells(cols, ws), " | ")| == JoinedWidth(ws, 3)
  {
    var cells := HeaderCells(cols, ws);
    assert forall i :: 0 <= i < |cols| ==> cells[i] == LJust(cols[i].title, ws[i]);
    JoinLength(cells, " | ", ws);
  }

  /** With widths that account for the titles, every line of the table —
      header included — has the same length. */
  lemma TitledAligned(rows: seq<Row>, cols: seq<Column>)
    ensures var ls := Lines(rows, cols, TitleWidths(rows, cols));
      forall j :: 0 <= j < |ls| ==> |ls[j]| == |ls[1]|
  {
    var ws := TitleWidths(rows, cols);
    var ls := Lines(rows, cols, ws);
    JoinLength(SeparatorCells(ws), " | ", ws);
    HeaderLineWidth(cols, ws);
    forall j | 2 <= j < |ls|
      ensures |ls[j]| == |ls[1]|
    {
      forall i | 0 <= i < |cols|
        ensures ws[i] >= |Cell(rows[j - 2], cols[i].key)|
      {
        assert KeyWidth(rows, cols[i]) >= |Cell(rows[j - 2], cols[i].key)| + 2;
      }
      RowLineWidth(rows[j - 2], cols, ws);
    }
  }

  /** No column title and no rendered value contains a line break. */
  predicate SingleLineContent(rows: seq<Row>, cols: seq<Column>) {
    && (forall i :: 0 <= i < |cols| ==> '\n' !in cols[i].title)
    && (forall r, i :: 0 <= r < |rows| && 0 <= i < |cols| ==> '\n' !in Cell(rows[r], cols[i].key))
  }

  lemma PaddedAbsent(s: string, w: int)
    requires '\n' !in s
    ensures '\n' !in LJust(s, w)
  {
    var r := LJust(s, w);
    forall k | 0 <= k < |r|
      ensures r[k] != '\n'
    {
      if k < |s| {
        assert r[k] == r[..|s|][k];
      }
    }
  }

  lemma RowLineSingle(row: Row, cols: seq<Column>, ws: seq<nat>)
    requires |ws| == |cols|
    requires forall i :: 0 <= i < |cols| ==> '\n' !in Cell(row, cols[i].key)
    ensures '\n' !in Join(RowCells(row, cols, ws), " | ")
  {
    var cells := RowCells(row, cols, ws);
    forall i | 0 <= i < |cols|
      ensures '\n' !in cells[i]
    {
      PaddedAbsent(Cell(row, cols[i].key), ws[i]);
    }
    JoinAbsent(cells, " | ", '\n');
  }

  lemma LinesSingle(rows: seq<Row>, cols: seq<Column>, ws: seq<nat>)
    requires |ws| == |cols| && SingleLineContent(rows, cols)
    ensures var ls := Lines(rows, cols, ws);
      forall j :: 0 <= j < |ls| ==> '\n' !in ls[j]
  {
    var ls := Lines(rows, cols, ws);
    var header := HeaderCells(cols, ws);
    forall i | 0 <= i < |cols|
      ensures '\n' !in header[i]
    {
      PaddedAbsent(cols[i].title, ws[i]);
    }
    JoinAbsent(header, " | ", '\n');
    JoinAbsent(SeparatorCells(ws), " | ", '\n');
    forall j | 2 <= j < |ls|
      ensures '\n' !in ls[j]
    {
      RowLineSingle(rows[j - 2], cols, ws);
    }
  }

  /** For single-line content, a first title that starts with a visible
      character and a last line that is not blank, the table has exactly
      `2 + len(rows)` lines (one line break fewer than that). */
  lemma TableLineCount(rows: seq<Row>, cols: seq<Column>)
    requires SingleLineContent(rows, cols)
    requires |cols| > 0 && |cols[0].title| > 0 && !IsSpace(cols[0].title[0])
    requires !AllSpace(Lines(rows, cols, KeyWidths(rows, cols))[|rows| + 1])
    ensures Count(CreateTextTable(rows, cols), '\n') == |rows| + 1
  {
    var ws := KeyWidths(rows, cols);
    var ls := Lines(rows, cols, ws);
    LinesSingle(rows, cols, ws);
    JoinStartsWithFirst(HeaderCells(cols, ws), " | ");
    assert ls[0][0] == cols[0].title[0];
    StripTerminatedLineCount(ls);
  }

  /** With at least one column the separator line is never blank, so a table
      without rows always meets the last-line condition above. */
  lemma SeparatorVisible(rows: seq<Row>, cols: seq<Column>, ws: seq<nat>)
    requires |ws| == |cols| && |cols| > 0 && ws[0] > 0
    ensures !AllSpace(Lines(rows, cols, ws)[1])
  {
    var cells := SeparatorCells(ws);
    JoinStartsWithFirst(cells, " | ");
    assert Lines(rows, cols, ws)[1][0] == '-';
  }
}
