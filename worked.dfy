/** Worked messages: concrete inputs to the segmentation engine
    (frontend/src/App.tsx) and the segments or rows it makes of them. */
module WorkedMessages {
  import opened Strings
  import opened TableRows
  import opened Segmentation

  // ---------------------------------------------------------------------------
  // Rows
  // ---------------------------------------------------------------------------

  /** A line whose outer pipes, once stripped, leave two pieces formats to
      those two pieces, trimmed. */
  lemma FormatTwo(line: String, cx: String, cy: String)
    requires Split(StripPipes(Trim(line)), '|') == [cx, cy]
    ensures FormatRow(line) == [Trim(cx), Trim(cy)]
  {
    var r := FormatRow(line);
    assert |r| == 2 && r[0] == Trim(cx) && r[1] == Trim(cy);
  }

  /** The pieces of `| x | y |` once its outer pipes are stripped. */
  lemma PaddedPieces(x: String, y: String)
    requires '|' !in x && '|' !in y
    ensures var line := "| " + x + " | " + y + " |";
      Split(StripPipes(line), '|') == [" " + x + " ", " " + y + " "]
  {
    var line := "| " + x + " | " + y + " |";
    var cx, cy := " " + x + " ", " " + y + " ";
    assert line == "|" + cx + "|" + cy + "|";
    assert line[1..] == cx + "|" + cy + "|";
    assert StripPipes(line) == cx + "|" + cy;
    SplitAfterPiece(cx, cy, '|');
    SplitWithoutSep(cy, '|');
  }

  /** A row of two trimmed cells written `| x | y |` formats to `[x, y]`. */
  lemma PaddedRow(x: String, y: String)
    requires '|' !in x && '|' !in y && IsTrimmed(x) && IsTrimmed(y)
    ensures FormatRow("| " + x + " | " + y + " |") == [x, y]
  {
    var line := "| " + x + " | " + y + " |";
    TrimOfTrimmed(line);
    PaddedPieces(x, y);
    FormatTwo(line, " " + x + " ", " " + y + " ");
    TrimOfPadded(" ", x, " ");
    TrimOfPadded(" ", y, " ");
  }

  /** `| a | b |` formats to the cells "a" and "b". */
  lemma RowOfTwoCells()
    ensures FormatRow("| a | b |") == ["a", "b"]
  {
    assert "| a | b |" == "| " + "a" + " | " + "b" + " |";
    PaddedRow("a", "b");
  }

  /** `| 1 | 2 |` formats to the cells "1" and "2". */
  lemma RowOfTwoDigits()
    ensures FormatRow("| 1 | 2 |") == ["1", "2"]
  {
    assert "| 1 | 2 |" == "| " + "1" + " | " + "2" + " |";
    PaddedRow("1", "2");
  }

  /** `| --- | :---: |` formats to the cells "---" and ":---:". */
  lemma DividerCells()
    ensures FormatRow("| --- | :---: |") == ["---", ":---:"]
  {
    assert "| --- | :---: |" == "| " + "---" + " | " + ":---:" + " |";
    PaddedRow("---", ":---:");
  }

  /** Three dashes alone are a divider cell. */
  lemma DashCell()
    ensures IsSeparatorCell("---")
  {
    RegexToSeparatorCell("---", 0, 0, 3, 3);
  }

  /** Two trimmed divider cells make a divider row. */
  lemma SeparatorPair(x: String, y: String)
    requires IsTrimmed(x) && IsTrimmed(y) && IsSeparatorCell(x) && IsSeparatorCell(y)
    ensures IsSeparatorRow([x, y])
  {
    TrimOfTrimmed(x);
    TrimOfTrimmed(y);
  }

  /** "---" and ":---:" make a divider row. */
  lemma DividerRow()
    ensures IsSeparatorRow(["---", ":---:"])
  {
    DashCell();
    SeparatorCellExamples();
    SeparatorPair("---", ":---:");
  }

  /** formatTableRows drops the divider row `| --- | :---: |`. */
  lemma DividerRowDropped()
    ensures FormatTableRows(["| --- | :---: |"]) == []
  {
    DividerCells();
    DividerRow();
    FormatTableRowsSingle("| --- | :---: |");
  }

  /** `| |` formats to one empty cell, a row without content. */
  lemma RowOfNothing()
    ensures FormatRow("| |") == [""]
    ensures FormatTableRows(["| |"]) == []
  {
    TrimOfTrimmed("| |");
    assert StripPipes("| |") == " ";
    SplitWithoutSep(" ", '|');
    TrimEmpty(" ");
    FormatTableRowsSingle("| |");
  }

  /** A one-character cell that is neither white space, a colon nor a dash is
      not a divider cell. */
  lemma PlainCell(c: String)
    requires |c| == 1 && !IsWs(c[0]) && c[0] != ':' && c[0] != '-'
    ensures Trim(c) == c && !IsSeparatorCell(c)
  {
    TrimOfTrimmed(c);
    assert c[0..1] == c;
  }

  /** A row whose first cell is such a character is kept. */
  lemma PlainRowKept(row: seq<String>)
    requires |row| > 0 && |row[0]| == 1
    requires !IsWs(row[0][0]) && row[0][0] != ':' && row[0][0] != '-'
    ensures IsKept(row)
  {
    PlainCell(row[0]);
  }

  /** A line whose row is kept gives that row alone. */
  lemma KeptSingle(line: String, row: seq<String>)
    requires FormatRow(line) == row && IsKept(row)
    ensures FormatTableRows([line]) == [row]
  {
    FormatTableRowsSingle(line);
  }

  lemma ExampleTableLines()
    ensures IsTableLine("| a | b |") && IsTableLine("| 1 | 2 |")
  {
    TrimOfTrimmed("| a | b |");
    TrimOfTrimmed("| 1 | 2 |");
  }

  lemma LetterRowKept()
    ensures FormatTableRows(["| a | b |"]) == [["a", "b"]]
  {
    RowOfTwoCells();
    PlainRowKept(["a", "b"]);
    KeptSingle("| a | b |", ["a", "b"]);
  }

  lemma DigitRowKept()
    ensures FormatTableRows(["| 1 | 2 |"]) == [["1", "2"]]
  {
    RowOfTwoDigits();
    PlainRowKept(["1", "2"]);
    KeptSingle("| 1 | 2 |", ["1", "2"]);
  }

  /** Two lines that each give one kept row give both rows, in order. */
  lemma KeptPair(l1: String, l2: String, r1: seq<String>, r2: seq<String>)
    requires FormatTableRows([l1]) == [r1] && FormatTableRows([l2]) == [r2]
    ensures FormatTableRows([l1, l2]) == [r1, r2]
  {
    FormatTableRowsAppend([l1], [l2]);
    assert [l1] + [l2] == [l1, l2];
    assert [r1] + [r2] == [r1, r2];
  }

  /** The table lines `| a | b |` and `| 1 | 2 |` give both their rows. */
  lemma TwoRowTable()
    ensures FormatTableRows(["| a | b |", "| 1 | 2 |"]) == [["a", "b"], ["1", "2"]]
  {
    LetterRowKept();
    DigitRowKept();
    KeptPair("| a | b |", "| 1 | 2 |", ["a", "b"], ["1", "2"]);
  }

  /** `| --- | --- |` formats to a divider row, which formatTableRows drops. */
  lemma DashDividerDropped()
    ensures FormatTableRows(["| --- | --- |"]) == []
  {
    assert "| --- | --- |" == "| " + "---" + " | " + "---" + " |";
    PaddedRow("---", "---");
    DashCell();
    SeparatorPair("---", "---");
    FormatTableRowsSingle("| --- | --- |");
  }

  /** A divider row between two kept rows is dropped; the kept rows stay in
      order. */
  lemma KeptAroundDivider(l1: String, l2: String, l3: String, r1: seq<String>, r3: seq<String>)
    requires FormatTableRows([l1]) == [r1] && FormatTableRows([l2]) == []
    requires FormatTableRows([l3]) == [r3]
    ensures FormatTableRows([l1, l2, l3]) == [r1, r3]
  {
    FormatTableRowsAppend([l1], [l2]);
    assert [l1] + [l2] == [l1, l2];
    FormatTableRowsAppend([l1, l2], [l3]);
    assert [l1, l2] + [l3] == [l1, l2, l3];
    assert [r1] + [] + [r3] == [r1, r3];
  }

  /** A header row, a divider row and a body row give the header and body
      rows. */
  lemma HeaderDividerBody()
    ensures FormatTableRows(["| a | b |", "| --- | --- |", "| 1 | 2 |"]) == [["a", "b"], ["1", "2"]]
  {
    LetterRowKept();
    DashDividerDropped();
    DigitRowKept();
    KeptAroundDivider("| a | b |", "| --- | --- |", "| 1 | 2 |", ["a", "b"], ["1", "2"]);
  }

  // ---------------------------------------------------------------------------
  // Messages
  // ---------------------------------------------------------------------------

  /** An empty message has no segments. */
  lemma EmptyMessage()
    ensures SegmentsOf("") == []
  {
    assert Split("", '\n') == [""];
    TrimEmpty("");
    SegmentsOfPlainText("");
  }

  /** A message that is only `| |` has no segments: its one table line has no
      content, so the table is not emitted. */
  lemma PipeSpaceMessage()
    ensures SegmentsOf("| |") == []
  {
    SplitWithoutSep("| |", '\n');
    TrimOfTrimmed("| |");
    assert IsTableLine("| |");
    RowOfNothing();
  }

  /** Two prose lines, each with no white space at its outer end, stay one
      text segment, with the newline between them. */
  lemma TwoPlainLines(x: String, y: String)
    requires '\n' !in x && '\n' !in y && x != [] && y != []
    requires !IsWs(x[0]) && !IsWs(y[|y| - 1])
    requires !IsTableLine(x) && !IsTableLine(y)
    ensures SegmentsOf(x + "\n" + y) == [Text(x + "\n" + y)]
  {
    var text := x + "\n" + y;
    SplitAfterPiece(x, y, '\n');
    SplitWithoutSep(y, '\n');
    assert Split(text, '\n') == [x, y];
    assert text[0] == x[0] && text[|text| - 1] == y[|y| - 1];
    TrimOfTrimmed(text);
    SegmentsOfPlainText(text);
  }

  /** "hello" and "world" on two lines make one text segment. */
  lemma TwoProseLines()
    ensures SegmentsOf("hello" + "\n" + "world") == [Text("hello" + "\n" + "world")]
  {
    TrimOfTrimmed("hello");
    TrimOfTrimmed("world");
    TwoPlainLines("hello", "world");
  }

  /** Five lines, the middle two given as one list, joined. */
  lemma JoinFive(a: String, b: String, c: String, d: String, e: String, sep: char)
    ensures Join([a] + [b, c] + [d] + [e], sep)
      == a + [sep] + b + [sep] + c + [sep] + d + [sep] + e
  {
    assert [a] + [b, c] + [d] + [e] == [a] + ([b] + ([c] + ([d] + [e])));
    assert Join([e], sep) == e;
    JoinCons(d, [e], sep);
    JoinCons(c, [d] + [e], sep);
    JoinCons(b, [c] + ([d] + [e]), sep);
    JoinCons(a, [b] + ([c] + ([d] + [e])), sep);
  }

  /** The message of five lines, joined with newlines. */
  lemma ExampleLines()
    ensures Join(["intro"] + ["| a | b |", "| 1 | 2 |"] + [""] + ["outro"], '\n')
      == "intro" + "\n" + "| a | b |" + "\n" + "| 1 | 2 |" + "\n" + "" + "\n" + "outro"
  {
    JoinFive("intro", "| a | b |", "| 1 | 2 |", "", "outro", '\n');
  }

  /** A message of prose, a two-row table, a blank line and prose again. */
  lemma ProseTableProseMessage()
    ensures SegmentsOf("intro" + "\n" + "| a | b |" + "\n" + "| 1 | 2 |" + "\n" + "" + "\n" + "outro")
      == [Text("intro"), Table([["a", "b"], ["1", "2"]]), Text("outro")]
  {
    var ts := ["| a | b |", "| 1 | 2 |"];
    ExampleLines();
    ExampleTableLines();
    TwoRowTable();
    TrimOfTrimmed("intro");
    TrimOfTrimmed("outro");
    TrimEmpty("");
    ProseTableProse("intro", ts, "", "outro");
  }

  /** Three lines joined with newlines. */
  lemma JoinThree(a: String, b: String, c: String, sep: char)
    ensures Join([a, b, c], sep) == a + [sep] + b + [sep] + c
  {
    assert [a, b, c] == [a] + [b, c];
    assert [b, c] == [b] + [c];
    assert Join([c], sep) == c;
    JoinCons(b, [c], sep);
    JoinCons(a, [b, c], sep);
  }

  /** The three lines of the table message are table lines without a
      newline. */
  lemma HeaderDividerBodyLines(ts: seq<String>)
    requires ts == ["| a | b |", "| --- | --- |", "| 1 | 2 |"]
    ensures forall k :: 0 <= k < |ts| ==> '\n' !in ts[k] && IsTableLine(ts[k])
  {
    ExampleTableLines();
    TrimOfTrimmed("| --- | --- |");
  }

  /** A message that is a whole table, header, divider and body, is one table
      segment of the header and body rows. */
  lemma TableMessage()
    ensures SegmentsOf("| a | b |" + "\n" + "| --- | --- |" + "\n" + "| 1 | 2 |")
      == [Table([["a", "b"], ["1", "2"]])]
  {
    var ts := ["| a | b |", "| --- | --- |", "| 1 | 2 |"];
    JoinThree("| a | b |", "| --- | --- |", "| 1 | 2 |", '\n');
    HeaderDividerBodyLines(ts);
    HeaderDividerBody();
    SegmentsOfTableOnly(ts);
  }
}
