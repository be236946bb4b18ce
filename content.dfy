/** Nothing is lost and nothing is reordered by splitContentSegments: reading
    the segments back as a list of items (non-blank prose lines, trimmed, and
    table rows) gives exactly what the message's lines give when each is read
    on its own. In this line-by-line reading only blank lines, contentless
    rows and divider rows vanish, and prose lines come back trimmed; the exact
    text value of a segment is stated in Runs. */
module Content {
  import opened Strings
  import opened TableRows
  import opened Seqs
  import opened Segmentation

  /** One unit of visible content. */
  datatype Item = TextLine(line: String) | Row(cells: seq<String>)

  /** What one line of the message contributes when read on its own: a table
      line its formatted row if formatTableRows keeps it, a blank line nothing,
      any other line itself, trimmed. */
  function LineItems(line: String): seq<Item> {
    if IsTableLine(line) then
      var row := FormatRow(line);
      if IsKept(row) then [Row(row)] else []
    else if IsBlank(line) then []
    else [TextLine(Trim(line))]
  }

  /** A non-blank line, trimmed; nothing for a blank line. */
  function NonBlankLine(line: String): seq<String> {
    if IsBlank(line) then [] else [Trim(line)]
  }

  function TextItem(line: String): seq<Item> {
    [TextLine(line)]
  }

  function RowItem(row: seq<String>): seq<Item> {
    [Row(row)]
  }

  /** What a segment shows: the non-blank lines of a text value, trimmed, or
      the rows of a table. */
  function SegmentItems(seg: Segment): seq<Item> {
    match seg
    case Text(value) => FlatMap(FlatMap(Split(value, '\n'), NonBlankLine), TextItem)
    case Table(rows) => FlatMap(rows, RowItem)
  }

  /** The lines still in the buffers, read as items. */
  function Pending(st: Scan): seq<Item> {
    FlatMap(st.textBuffer, LineItems) + FlatMap(st.tableBuffer, LineItems)
  }

  // ---------------------------------------------------------------------------
  // Trimming a text value does not change its non-blank lines
  // ---------------------------------------------------------------------------

  /** Leading white space (newlines included) adds only blank lines or white
      space at the start of a line. */
  lemma {:induction false} NonBlankDropWsPrefix(w: String, m: String)
    requires AllWs(w)
    ensures FlatMap(Split(w + m, '\n'), NonBlankLine) == FlatMap(Split(m, '\n'), NonBlankLine)
  {
    if w != [] {
      var c, rest := w[0], w[1..] + m;
      assert w + m == [c] + rest;
      assert ([c] + rest)[1..] == rest;
      NonBlankDropWsPrefix(w[1..], m);
      var parts := Split(rest, '\n');
      if c == '\n' {
        FlatMapAppend([[]], parts, NonBlankLine);
        FlatMapSingle([], NonBlankLine);
      } else {
        TrimWsCons(c, parts[0]);
        FlatMapAppend([[c] + parts[0]], parts[1..], NonBlankLine);
        FlatMapAppend([parts[0]], parts[1..], NonBlankLine);
        FlatMapSingle([c] + parts[0], NonBlankLine);
        FlatMapSingle(parts[0], NonBlankLine);
        HeadTail(parts);
      }
    } else {
      assert w + m == m;
    }
  }

  /** Trailing white space adds only blank lines or white space at the end of
      a line. */
  lemma {:induction false} NonBlankDropWsSuffix(m: String, w: String)
    requires AllWs(w)
    ensures FlatMap(Split(m + w, '\n'), NonBlankLine) == FlatMap(Split(m, '\n'), NonBlankLine)
  {
    if w != [] {
      var c, init := w[|w| - 1], m + w[..|w| - 1];
      assert m + w == init + [c];
      NonBlankDropWsSuffix(m, w[..|w| - 1]);
      var parts := Split(init, '\n');
      var n := |parts|;
      if c == '\n' {
        SplitSnocSep(init, '\n');
        FlatMapAppend(parts, [[]], NonBlankLine);
        FlatMapSingle([], NonBlankLine);
      } else {
        SplitSnocOther(init, c, '\n');
        TrimWsSnoc(parts[n - 1], c);
        FlatMapAppend(parts[..n - 1], [parts[n - 1] + [c]], NonBlankLine);
        FlatMapAppend(parts[..n - 1], [parts[n - 1]], NonBlankLine);
        FlatMapSingle(parts[n - 1] + [c], NonBlankLine);
        FlatMapSingle(parts[n - 1], NonBlankLine);
        InitLast(parts);
      }
    } else {
      assert m + w == m;
    }
  }

  /** Trimming a string does not change its non-blank lines, trimmed. */
  lemma NonBlankOfTrim(s: String)
    ensures FlatMap(Split(Trim(s), '\n'), NonBlankLine) == FlatMap(Split(s, '\n'), NonBlankLine)
  {
    var a, r := Lead(s), Trim(s);
    TrimShape(s);
    assert s == s[..a] + (r + s[a + |r|..]);
    NonBlankDropWsPrefix(s[..a], r + s[a + |r|..]);
    NonBlankDropWsSuffix(r, s[a + |r|..]);
  }

  // ---------------------------------------------------------------------------
  // A flushed buffer shows what its lines show
  // ---------------------------------------------------------------------------

  lemma {:induction false} TextBufferItems(buf: seq<String>)
    requires forall k :: 0 <= k < |buf| ==> !IsTableLine(buf[k])
    ensures FlatMap(buf, LineItems) == FlatMap(FlatMap(buf, NonBlankLine), TextItem)
  {
    if buf != [] {
      var init, last := buf[..|buf| - 1], buf[|buf| - 1];
      assert forall k :: 0 <= k < |init| ==> init[k] == buf[k];
      TextBufferItems(init);
      FlatMapAppend(FlatMap(init, NonBlankLine), NonBlankLine(last), TextItem);
      if !IsBlank(last) {
        FlatMapSingle(Trim(last), TextItem);
      }
    }
  }

  lemma {:induction false} TableBufferItems(buf: seq<String>)
    requires forall k :: 0 <= k < |buf| ==> IsTableLine(buf[k])
    ensures FlatMap(buf, LineItems) == FlatMap(FormatTableRows(buf), RowItem)
  {
    if buf != [] {
      var init, last := buf[..|buf| - 1], buf[|buf| - 1];
      assert forall k :: 0 <= k < |init| ==> init[k] == buf[k];
      TableBufferItems(init);
      InitLast(buf);
      FormatTableRowsAppend(init, [last]);
      FormatTableRowsSingle(last);
      FlatMapAppend(FormatTableRows(init), FormatTableRows([last]), RowItem);
      if IsKept(FormatRow(last)) {
        FlatMapSingle(FormatRow(last), RowItem);
      }
    }
  }

  /** A run of prose lines, joined and trimmed as flushText does, shows what
      the lines show one by one; a run that trims to nothing shows nothing. */
  lemma TextRunItems(buf: seq<String>)
    requires buf != []
    requires forall k :: 0 <= k < |buf| ==> !IsTableLine(buf[k]) && '\n' !in buf[k]
    ensures var value := Trim(Join(buf, '\n'));
      FlatMap(buf, LineItems) == if value != [] then SegmentItems(Text(value)) else []
  {
    var joined := Join(buf, '\n');
    var value := Trim(joined);
    SplitJoin(buf, '\n');
    NonBlankOfTrim(joined);
    TextBufferItems(buf);
    if value == [] {
      assert Split(value, '\n') == [[]];
      FlatMapSingle([], NonBlankLine);
    }
  }

  /** A run of table lines, formatted as flushTable does, shows what the lines
      show one by one. */
  lemma TableRunItems(buf: seq<String>)
    requires forall k :: 0 <= k < |buf| ==> IsTableLine(buf[k])
    ensures var rows := FormatTableRows(buf);
      FlatMap(buf, LineItems) == if |rows| > 0 then SegmentItems(Table(rows)) else []
  {
    TableBufferItems(buf);
  }

  /** Emitting a segment moves what it shows from the pending lines to the
      segments. */
  lemma EmitItems(segments: seq<Segment>, seg: Segment)
    ensures FlatMap(segments + [seg], SegmentItems) == FlatMap(segments, SegmentItems) + SegmentItems(seg)
  {
  }

  /** flushText moves the text buffer's items into the emitted segments. */
  lemma FlushTextItems(st: Scan)
    requires st.textBuffer == [] || st.tableBuffer == []
    requires forall k :: 0 <= k < |st.textBuffer| ==> !IsTableLine(st.textBuffer[k]) && '\n' !in st.textBuffer[k]
    ensures var r := AfterFlushText(st);
      FlatMap(r.segments, SegmentItems) + Pending(r) == FlatMap(st.segments, SegmentItems) + Pending(st)
  {
    var buf := st.textBuffer;
    if buf != [] {
      var value := Trim(Join(buf, '\n'));
      var segs, shown := FlatMap(st.segments, SegmentItems), FlatMap(buf, LineItems);
      var r := AfterFlushText(st);
      assert Pending(st) == shown by {
        assert FlatMap(st.tableBuffer, LineItems) == [];
      }
      assert Pending(r) == [] by {
        assert r.textBuffer == [] && r.tableBuffer == [];
      }
      assert FlatMap(r.segments, SegmentItems) == segs + shown by {
        TextRunItems(buf);
        if value != [] {
          assert r.segments == st.segments + [Text(value)];
          EmitItems(st.segments, Text(value));
        } else {
          assert r.segments == st.segments;
        }
      }
    }
  }

  /** flushTable moves the table buffer's items into the emitted segments. */
  lemma FlushTableItems(st: Scan)
    requires st.textBuffer == [] || st.tableBuffer == []
    requires forall k :: 0 <= k < |st.tableBuffer| ==> IsTableLine(st.tableBuffer[k])
    ensures var r := AfterFlushTable(st);
      FlatMap(r.segments, SegmentItems) + Pending(r) == FlatMap(st.segments, SegmentItems) + Pending(st)
  {
    var buf := st.tableBuffer;
    if buf != [] {
      var rows := FormatTableRows(buf);
      var segs, shown := FlatMap(st.segments, SegmentItems), FlatMap(buf, LineItems);
      var r := AfterFlushTable(st);
      assert Pending(st) == shown by {
        assert FlatMap(st.textBuffer, LineItems) == [];
      }
      assert Pending(r) == [] by {
        assert r.textBuffer == [] && r.tableBuffer == [];
      }
      assert FlatMap(r.segments, SegmentItems) == segs + shown by {
        TableRunItems(buf);
        if |rows| > 0 {
          assert r.segments == st.segments + [Table(rows)];
          EmitItems(st.segments, Table(rows));
        } else {
          assert r.segments == st.segments;
        }
      }
    }
  }

  /** Appending a line to a buffer appends its items to the pending ones. */
  lemma PushItems(buffer: seq<String>, line: String)
    ensures FlatMap(buffer + [line], LineItems) == FlatMap(buffer, LineItems) + LineItems(line)
  {
    FlatMapAppend(buffer, [line], LineItems);
    FlatMapSingle(line, LineItems);
  }

  lemma PushTableItems(s: Scan, line: String)
    requires s.textBuffer == []
    ensures Pending(s.(tableBuffer := s.tableBuffer + [line])) == Pending(s) + LineItems(line)
  {
    PushItems(s.tableBuffer, line);
    assert FlatMap(s.textBuffer, LineItems) == [];
  }

  lemma PushTextItems(s: Scan, line: String)
    requires s.tableBuffer == []
    ensures Pending(s.(textBuffer := s.textBuffer + [line])) == Pending(s) + LineItems(line)
  {
    PushItems(s.textBuffer, line);
    assert FlatMap(s.tableBuffer, LineItems) == [];
  }

  /** A table line: the text run is flushed and the line joins the table
      buffer. */
  lemma TableLineItems(st: Scan, line: String)
    requires st.textBuffer == [] || st.tableBuffer == []
    requires forall k :: 0 <= k < |st.textBuffer| ==> !IsTableLine(st.textBuffer[k]) && '\n' !in st.textBuffer[k]
    ensures var s := AfterFlushText(st);
      FlatMap(s.segments, SegmentItems) + Pending(s.(tableBuffer := s.tableBuffer + [line]))
        == FlatMap(st.segments, SegmentItems) + Pending(st) + LineItems(line)
  {
    var s := AfterFlushText(st);
    FlushTextItems(st);
    PushTableItems(s, line);
    AppendAssoc(FlatMap(s.segments, SegmentItems), Pending(s), LineItems(line));
  }

  /** Any other line: the table is flushed and the line joins the text
      buffer. */
  lemma TextLineItems(st: Scan, line: String)
    requires st.textBuffer == [] || st.tableBuffer == []
    requires forall k :: 0 <= k < |st.tableBuffer| ==> IsTableLine(st.tableBuffer[k])
    ensures var s := AfterFlushTable(st);
      FlatMap(s.segments, SegmentItems) + Pending(s.(textBuffer := s.textBuffer + [line]))
        == FlatMap(st.segments, SegmentItems) + Pending(st) + LineItems(line)
  {
    var s := AfterFlushTable(st);
    FlushTableItems(st);
    PushTextItems(s, line);
    AppendAssoc(FlatMap(s.segments, SegmentItems), Pending(s), LineItems(line));
  }

  /** One line adds exactly its own items, after what came before. */
  lemma AfterLineItems(st: Scan, line: String)
    requires Consistent(st)
    ensures var r := AfterLine(st, line);
      FlatMap(r.segments, SegmentItems) + Pending(r)
        == FlatMap(st.segments, SegmentItems) + Pending(st) + LineItems(line)
  {
    if IsTableLine(line) {
      TableLineItems(st, line);
    } else if IsBlank(line) && |st.tableBuffer| > 0 {
      FlushTableItems(st);
      assert LineItems(line) == [];
    } else {
      TextLineItems(st, line);
    }
  }

  lemma {:induction false} ScannedItems(lines: seq<String>)
    requires forall k :: 0 <= k < |lines| ==> '\n' !in lines[k]
    ensures var st := Scanned(lines);
      FlatMap(st.segments, SegmentItems) + Pending(st) == FlatMap(lines, LineItems)
  {
    if lines != [] {
      var init := lines[..|lines| - 1];
      assert forall k :: 0 <= k < |init| ==> init[k] == lines[k];
      ScannedItems(init);
      ScannedConsistent(init);
      AfterLineItems(Scanned(init), lines[|lines| - 1]);
    }
  }

  /** Order preservation: the segments, read back as prose lines and table
      rows, show exactly the message's lines read one by one, in order; in
      this line-by-line reading blank lines, contentless rows and divider
      rows are the only things dropped. */
  lemma SegmentsPreserveContent(text: String)
    ensures FlatMap(SegmentsOf(text), SegmentItems) == FlatMap(Split(text, '\n'), LineItems)
  {
    var lines := Split(text, '\n');
    SplitPieces(text, '\n');
    ScannedItems(lines);
    ScannedConsistent(lines);
    var st := Scanned(lines);
    FlushTableItems(st);
    FlushTextItems(AfterFlushTable(st));
    SegmentsAreGood(text);
  }
}
