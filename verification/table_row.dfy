/**
 insertTableRow: the text inserted at the end of the current line when the
 table dialog asks for `cols` columns, with or without a header separator
 row, and whether the cursor is then moved up a line.

 A Markdown table row here is a run of empty cells separated by `|`; the
 header separator row is `---` cells separated by `|`. The cursor moves
 themselves happen in the editor widget and are not modelled; only the
 "move up" decision is.
 */
module TableRow {
  import opened Strings

  /** `n` separator cells. */
  function Dashes(n: nat): (cells: seq<string>)
    ensures |cells| == n && forall i :: 0 <= i < n ==> cells[i] == "---"
  {
    seq(n, _ => "---")
  }

  /** The empty data row for `cols` columns: `cols - 1` copies of `"  | "`. */
  function DataRow(cols: int): string {
    Repeat("  | ", cols - 1)
  }

  /** The header separator row: `cols` cells `---` joined by `|`. */
  function SeparatorRow(cols: int): string {
    Join(Dashes(if cols <= 0 then 0 else cols), '|')
  }

  /**
   The whole snippet: a leading line break on an empty line, the data row,
   then the optional separator row. Its length is one per leading line
   break, four per data-row cell boundary, and for a header one line break
   plus four characters per column less the missing final `|`.
   */
  function TableSnippet(cols: int, header: bool, lineEmpty: bool): (r: string)
    ensures |r| == (if lineEmpty then 1 else 0)
                 + (if cols <= 1 then 0 else 4 * (cols - 1))
                 + (if header then (if cols <= 0 then 1 else 4 * cols) else 0)
  {
    RepeatLength("  | ", cols - 1);
    SeparatorRowLength(cols);
    (if lineEmpty then "\n" else "") + DataRow(cols) + (if header then "\n" + SeparatorRow(cols) else "")
  }

  /** The inserted text and whether the cursor is then moved up one line. */
  datatype TableInsert = TableInsert(snippet: string, moveUp: bool)

  lemma SeparatorRowSnoc(k: nat)
    requires k >= 1
    ensures SeparatorRow(k + 1) == SeparatorRow(k) + "|" + "---"
  {
    assert Dashes(k + 1) == Dashes(k) + ["---"];
    JoinSnoc(Dashes(k), "---", '|');
  }

  /** The first loop of insertTableRow: `"  | "` appended for `i` from 0 while `i < cols - 1`. */
  method BuildDataRow(cols: int) returns (row: string)
    ensures row == DataRow(cols)
  {
    row := "";
    var i := 0;
    while i < cols - 1
      invariant 0 <= i && (i <= cols - 1 || i == 0)
      invariant row == Repeat("  | ", i)
    {
      RepeatSnoc("  | ", i);
      row := row + "  | ";
      i := i + 1;
    }
  }

  /** The second loop: `---` for each column, followed by `|` unless it is the last one. */
  method BuildSeparatorRow(cols: int) returns (row: string)
    ensures row == SeparatorRow(cols)
  {
    row := "";
    var k := 0;
    while k < cols
      invariant 0 <= k && (k <= cols || k == 0)
      invariant k == 0 ==> row == ""
      invariant 1 <= k < cols ==> row == SeparatorRow(k) + "|"
      invariant 1 <= k == cols ==> row == SeparatorRow(k)
    {
      if k >= 1 {
        SeparatorRowSnoc(k);
      }
      row := row + "---";
      if k < cols - 1 {
        row := row + "|";
      }
      k := k + 1;
    }
  }

  /**
   insertTableRow's text: the snippet is the reference TableSnippet, and
   the cursor moves up exactly when a header row was added.
   */
  method InsertTableRow(cols: int, isHeaderEnabled: bool, lineSelStart: int, lineSelEnd: int)
    returns (r: TableInsert)
    ensures r.snippet == TableSnippet(cols, isHeaderEnabled, lineSelStart != -1 && lineSelStart == lineSelEnd)
    ensures r.moveUp <==> isHeaderEnabled
  {
    var sb := "";
    if lineSelStart != -1 && lineSelStart == lineSelEnd {
      sb := sb + "\n";
    }
    var data := BuildDataRow(cols);
    sb := sb + data;
    if isHeaderEnabled {
      var separator := BuildSeparatorRow(cols);
      sb := sb + "\n" + separator;
    }
    r := TableInsert(sb, isHeaderEnabled);
  }

  /** `cols` cells of three dashes and `cols - 1` separators. */
  lemma {:induction false} SeparatorRowLength(cols: int)
    ensures |SeparatorRow(cols)| == if cols <= 0 then 0 else 4 * cols - 1
    decreases cols
  {
    if cols == 1 {
      assert SeparatorRow(1) == "---";
    } else if cols > 1 {
      SeparatorRowLength(cols - 1);
      SeparatorRowSnoc(cols - 1);
    }
  }

  /** Reading the separator row back as `|`-separated cells gives `cols` cells of `---`. */
  lemma SeparatorRowCells(cols: int)
    requires cols >= 1
    ensures Split(SeparatorRow(cols), '|') == Dashes(cols)
  {
    SplitJoin(Dashes(cols), '|');
  }

  /** The data row also reads back as `cols` cells, so the two rows line up. */
  lemma DataRowCells(cols: int)
    requires cols >= 1
    ensures |Split(DataRow(cols), '|')| == cols
  {
    SplitCount(DataRow(cols), '|');
    RepeatCount("  | ", cols - 1, '|');
  }

  lemma {:induction false} SeparatorRowCounts(cols: int)
    ensures CountChar(SeparatorRow(cols), '-') == if cols <= 0 then 0 else 3 * cols
    ensures CountChar(SeparatorRow(cols), '\n') == 0
    decreases cols
  {
    if cols == 1 {
      assert SeparatorRow(1) == "---";
    } else if cols > 1 {
      SeparatorRowCounts(cols - 1);
      SeparatorRowSnoc(cols - 1);
      CountCharConcat(SeparatorRow(cols - 1), "|", '-');
      CountCharConcat(SeparatorRow(cols - 1) + "|", "---", '-');
      CountCharConcat(SeparatorRow(cols - 1), "|", '\n');
      CountCharConcat(SeparatorRow(cols - 1) + "|", "---", '\n');
    }
  }

  lemma SeparatorRowPipes(cols: int)
    ensures CountChar(SeparatorRow(cols), '|') == if cols <= 0 then 0 else cols - 1
  {
    if cols >= 1 {
      SeparatorRowCells(cols);
      SplitCount(SeparatorRow(cols), '|');
    }
  }

  /** Character counts of the snippet add up over its three parts. */
  lemma TableSnippetCount(cols: int, header: bool, lineEmpty: bool, c: char)
    ensures CountChar(TableSnippet(cols, header, lineEmpty), c)
      == CountChar(if lineEmpty then "\n" else "", c) + CountChar(DataRow(cols), c)
         + (if header then CountChar("\n", c) + CountChar(SeparatorRow(cols), c) else 0)
  {
    var lead := if lineEmpty then "\n" else "";
    var tail := if header then "\n" + SeparatorRow(cols) else "";
    assert TableSnippet(cols, header, lineEmpty) == lead + (DataRow(cols) + tail);
    CountCharConcat(lead, DataRow(cols) + tail, c);
    CountCharConcat(DataRow(cols), tail, c);
    if header {
      CountCharConcat("\n", SeparatorRow(cols), c);
    }
  }

  /** One line break for an empty current line, plus one before the header row. */
  lemma TableSnippetLineBreaks(cols: int, header: bool, lineEmpty: bool)
    ensures CountChar(TableSnippet(cols, header, lineEmpty), '\n')
      == (if lineEmpty then 1 else 0) + (if header then 1 else 0)
  {
    assert CountChar("  | ", '\n') == 0;
    RepeatCount("  | ", cols - 1, '\n');
    assert CountChar(DataRow(cols), '\n') == 0;
    assert CountChar("\n", '\n') == 1;
    assert CountChar(if lineEmpty then "\n" else "", '\n') == if lineEmpty then 1 else 0;
    TableSnippetCount(cols, header, lineEmpty, '\n');
    if header {
      SeparatorRowCounts(cols);
    }
  }

  /** `cols - 1` pipes in the data row and as many again in the header row. */
  lemma TableSnippetPipes(cols: int, header: bool, lineEmpty: bool)
    ensures CountChar(TableSnippet(cols, header, lineEmpty), '|')
      == (if cols <= 1 then 0 else cols - 1) * (if header then 2 else 1)
  {
    var n := if cols <= 1 then 0 else cols - 1;
    assert CountChar("  | ", '|') == 1;
    RepeatCount("  | ", cols - 1, '|');
    assert CountChar(DataRow(cols), '|') == n;
    assert CountChar("\n", '|') == 0;
    assert CountChar(if lineEmpty then "\n" else "", '|') == 0;
    TableSnippetCount(cols, header, lineEmpty, '|');
    if header {
      SeparatorRowPipes(cols);
      assert CountChar(SeparatorRow(cols), '|') == n;
    }
  }

  /** Dashes appear only in the header row: `cols` groups of `---`, none without a header. */
  lemma TableSnippetDashes(cols: int, header: bool, lineEmpty: bool)
    ensures CountChar(TableSnippet(cols, header, lineEmpty), '-')
      == if header && cols > 0 then 3 * cols else 0
  {
    assert CountChar("  | ", '-') == 0;
    RepeatCount("  | ", cols - 1, '-');
    assert CountChar(DataRow(cols), '-') == 0;
    assert CountChar(if lineEmpty then "\n" else "", '-') == 0;
    assert CountChar("\n", '-') == 0;
    TableSnippetCount(cols, header, lineEmpty, '-');
    if header {
      SeparatorRowCounts(cols);
    }
  }

  /**
   The snippet opens with the leading line break for an empty line; on a
   non-empty line with two or more columns it opens with the first cell.
   With at most one column the data row is empty, so on a non-empty line
   the snippet is just the header part, which itself opens with a line break.
   */
  lemma TableSnippetStart(cols: int, header: bool, lineEmpty: bool)
    ensures lineEmpty ==> TableSnippet(cols, header, lineEmpty)[0] == '\n'
    ensures !lineEmpty && cols >= 2 ==> TableSnippet(cols, header, lineEmpty)[..4] == "  | "
    ensures !lineEmpty && cols <= 1 ==>
      TableSnippet(cols, header, lineEmpty) == (if header then "\n" + SeparatorRow(cols) else "")
  {
    if !lineEmpty && cols >= 2 {
      assert DataRow(cols) == "  | " + Repeat("  | ", cols - 2);
    }
  }

  /** Three columns with a header on a non-empty line. */
  lemma ThreeColumnsWithHeader()
    ensures TableSnippet(3, true, false) == "  |   | \n---|---|---"
  {
    assert DataRow(3) == "  |   | " by {
      assert Repeat("  | ", 0) == "";
    }
    assert SeparatorRow(3) == "---|---|---" by {
      SeparatorRowSnoc(1);
      SeparatorRowSnoc(2);
      assert SeparatorRow(1) == "---";
    }
  }
}
