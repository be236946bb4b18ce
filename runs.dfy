/** Where the segments of splitContentSegments (frontend/src/App.tsx) come
    from: a text segment is a contiguous run of the message's non-table lines,
    joined with newlines and trimmed as a whole (so inner blank lines and each
    inner line's own indentation survive), and a table segment is the kept
    rows of a maximal contiguous run of table lines. */
module Runs {
  import opened Strings
  import opened TableRows
  import opened Seqs
  import opened Segmentation

  /** Every line from `a` up to `b` is a table line. */
  predicate AllTableIn(lines: seq<String>, a: int, b: int)
    requires 0 <= a <= b <= |lines|
  {
    forall k :: a <= k < b ==> IsTableLine(lines[k])
  }

  /** No line from `a` up to `b` is a table line. */
  predicate NoTableIn(lines: seq<String>, a: int, b: int)
    requires 0 <= a <= b <= |lines|
  {
    forall k :: a <= k < b ==> !IsTableLine(lines[k])
  }

  /** `value` is the non-table lines `a` up to `b` joined with newlines and
      trimmed as a whole. */
  predicate IsTextRunAt(value: String, lines: seq<String>, a: int, b: int) {
    0 <= a <= b <= |lines| && NoTableIn(lines, a, b)
    && value == Trim(Join(lines[a..b], '\n'))
  }

  /** `rows` are the kept rows of the table lines `a` up to `b`, and the run
      cannot be extended: the line before it and the line after it, where
      there are such lines, are not table lines. */
  predicate IsTableRunAt(rows: seq<seq<String>>, lines: seq<String>, a: int, b: int) {
    0 <= a <= b <= |lines| && AllTableIn(lines, a, b)
    && (a == 0 || !IsTableLine(lines[a - 1]))
    && (b == |lines| || !IsTableLine(lines[b]))
    && rows == FormatTableRows(lines[a..b])
  }

  /** The segment is built from a run of `lines` of its own kind. */
  ghost predicate FromRun(seg: Segment, lines: seq<String>) {
    match seg
    case Text(value) => exists a, b :: IsTextRunAt(value, lines, a, b)
    case Table(rows) => exists a, b :: IsTableRunAt(rows, lines, a, b)
  }

  ghost predicate AllFromRuns(segments: seq<Segment>, lines: seq<String>) {
    forall k :: 0 <= k < |segments| ==> FromRun(segments[k], lines)
  }

  /** As FromRun, with a table run that a later line has already closed, so
      that it stays maximal whatever lines follow. */
  ghost predicate FromClosedRun(seg: Segment, lines: seq<String>) {
    match seg
    case Text(value) => exists a, b :: IsTextRunAt(value, lines, a, b)
    case Table(rows) => exists a, b :: b < |lines| && IsTableRunAt(rows, lines, a, b)
  }

  ghost predicate AllFromClosedRuns(segments: seq<Segment>, lines: seq<String>) {
    forall k :: 0 <= k < |segments| ==> FromClosedRun(segments[k], lines)
  }

  /** `buf` is the last `|buf|` of `lines`. */
  predicate EndsWith(buf: seq<String>, lines: seq<String>) {
    |buf| <= |lines| && buf == lines[|lines| - |buf|..]
  }

  /** The text buffer holds the latest lines, none of them a table line. */
  predicate TextTail(buf: seq<String>, lines: seq<String>) {
    EndsWith(buf, lines) && forall k :: 0 <= k < |buf| ==> !IsTableLine(buf[k])
  }

  /** The table buffer holds the latest lines, all of them table lines, and
      the line before them, if any, is not a table line: the buffer is the
      whole run of table lines at the end of `lines` (none when it is empty). */
  predicate TableTail(buf: seq<String>, lines: seq<String>) {
    EndsWith(buf, lines) && (forall k :: 0 <= k < |buf| ==> IsTableLine(buf[k]))
    && (|buf| == |lines| || !IsTableLine(lines[|lines| - |buf| - 1]))
  }

  /** What the scan keeps between lines, relative to the lines seen so far:
      at most one buffer is in use, each buffer is a tail of the lines of its
      own kind, and every emitted segment comes from a run of its own kind,
      every emitted table from a closed one. */
  ghost predicate Traced(st: Scan, lines: seq<String>) {
    (st.textBuffer == [] || st.tableBuffer == [])
    && TextTail(st.textBuffer, lines) && TableTail(st.tableBuffer, lines)
    && AllFromClosedRuns(st.segments, lines)
  }

  /** In lines that are all table lines, a non-empty table run is all of
      them: adjacent table lines are never split across two tables. */
  lemma TableRunIsWhole(rows: seq<seq<String>>, lines: seq<String>, a: int, b: int)
    requires forall k :: 0 <= k < |lines| ==> IsTableLine(lines[k])
    requires IsTableRunAt(rows, lines, a, b) && a < b
    ensures a == 0 && b == |lines|
  {
  }

  // ---------------------------------------------------------------------------
  // Runs under one more line
  // ---------------------------------------------------------------------------

  lemma TextRunExtend(value: String, lines: seq<String>, line: String, a: int, b: int)
    requires IsTextRunAt(value, lines, a, b)
    ensures IsTextRunAt(value, lines + [line], a, b)
  {
    var ext := lines + [line];
    assert ext[a..b] == lines[a..b];
    assert forall k :: a <= k < b ==> ext[k] == lines[k];
  }

  lemma TableRunExtend(rows: seq<seq<String>>, lines: seq<String>, line: String, a: int, b: int)
    requires b < |lines| && IsTableRunAt(rows, lines, a, b)
    ensures IsTableRunAt(rows, lines + [line], a, b)
  {
    var ext := lines + [line];
    assert ext[a..b] == lines[a..b];
    assert forall k :: 0 <= k < |lines| ==> ext[k] == lines[k];
  }

  /** A closed run of `lines` is still a closed run once another line follows. */
  lemma ClosedRunExtend(seg: Segment, lines: seq<String>, line: String)
    requires FromClosedRun(seg, lines)
    ensures FromClosedRun(seg, lines + [line])
  {
    match seg
    case Text(value) =>
      var a, b :| IsTextRunAt(value, lines, a, b);
      TextRunExtend(value, lines, line, a, b);
    case Table(rows) =>
      var a, b :| b < |lines| && IsTableRunAt(rows, lines, a, b);
      TableRunExtend(rows, lines, line, a, b);
  }

  lemma AllClosedRunsExtend(segments: seq<Segment>, lines: seq<String>, line: String)
    requires AllFromClosedRuns(segments, lines)
    ensures AllFromClosedRuns(segments, lines + [line])
  {
    forall k | 0 <= k < |segments| ensures FromClosedRun(segments[k], lines + [line]) {
      ClosedRunExtend(segments[k], lines, line);
    }
  }

  /** A closed run is a run. */
  lemma AllClosedAreRuns(segments: seq<Segment>, lines: seq<String>)
    requires AllFromClosedRuns(segments, lines)
    ensures AllFromRuns(segments, lines)
  {
    forall k | 0 <= k < |segments| ensures FromRun(segments[k], lines) {
      match segments[k]
      case Text(value) =>
      case Table(rows) =>
        var a, b :| b < |lines| && IsTableRunAt(rows, lines, a, b);
    }
  }

  lemma AllClosedSnoc(segments: seq<Segment>, seg: Segment, lines: seq<String>)
    requires AllFromClosedRuns(segments, lines) && FromClosedRun(seg, lines)
    ensures AllFromClosedRuns(segments + [seg], lines)
  {
    assert forall k :: 0 <= k < |segments| ==> (segments + [seg])[k] == segments[k];
  }

  lemma AllRunsSnoc(segments: seq<Segment>, seg: Segment, lines: seq<String>)
    requires AllFromRuns(segments, lines) && FromRun(seg, lines)
    ensures AllFromRuns(segments + [seg], lines)
  {
    assert forall k :: 0 <= k < |segments| ==> (segments + [seg])[k] == segments[k];
  }

  // ---------------------------------------------------------------------------
  // Buffers
  // ---------------------------------------------------------------------------

  lemma EndsWithSnoc(buf: seq<String>, lines: seq<String>, line: String)
    requires EndsWith(buf, lines)
    ensures EndsWith(buf + [line], lines + [line])
  {
    assert (lines + [line])[|lines| - |buf|..] == lines[|lines| - |buf|..] + [line];
  }

  lemma EndsWithEmpty(lines: seq<String>)
    ensures EndsWith([], lines)
  {
    assert lines[|lines|..] == [];
  }

  /** The tail position of a buffer that ends `lines`. */
  lemma EndsWithAt(buf: seq<String>, lines: seq<String>)
    requires EndsWith(buf, lines)
    ensures lines[|lines| - |buf|..|lines|] == buf
    ensures forall k :: |lines| - |buf| <= k < |lines| ==> lines[k] == buf[k - (|lines| - |buf|)]
  {
  }

  /** A non-empty text buffer is a text run of the latest lines. */
  lemma TextBufferRun(buf: seq<String>, lines: seq<String>)
    requires TextTail(buf, lines)
    ensures IsTextRunAt(Trim(Join(buf, '\n')), lines, |lines| - |buf|, |lines|)
  {
    EndsWithAt(buf, lines);
  }

  /** A table buffer is a run of table lines that the line before it closes
      on the left. */
  lemma TableBufferRun(buf: seq<String>, lines: seq<String>)
    requires TableTail(buf, lines)
    ensures var a := |lines| - |buf|;
      AllTableIn(lines, a, |lines|) && (a == 0 || !IsTableLine(lines[a - 1]))
      && lines[a..|lines|] == buf
  {
    EndsWithAt(buf, lines);
  }

  /** The text buffer receives a non-table line. */
  lemma TextTailSnoc(buf: seq<String>, lines: seq<String>, line: String)
    requires TextTail(buf, lines) && !IsTableLine(line)
    ensures TextTail(buf + [line], lines + [line])
  {
    EndsWithSnoc(buf, lines, line);
  }

  /** The table buffer receives a table line. */
  lemma TableTailSnoc(buf: seq<String>, lines: seq<String>, line: String)
    requires TableTail(buf, lines) && IsTableLine(line)
    ensures TableTail(buf + [line], lines + [line])
  {
    EndsWithSnoc(buf, lines, line);
    var ext := lines + [line];
    if |buf| < |lines| {
      assert ext[|ext| - |buf + [line]| - 1] == lines[|lines| - |buf| - 1];
    }
  }

  /** After a non-table line no table run is open. */
  lemma TableTailClosed(lines: seq<String>, line: String)
    requires !IsTableLine(line)
    ensures TableTail([], lines + [line])
  {
    EndsWithEmpty(lines + [line]);
  }

  // ---------------------------------------------------------------------------
  // The flushes and the loop body
  // ---------------------------------------------------------------------------

  /** flushText emits the text buffer, a run of the latest non-table lines. */
  lemma FlushTextTraced(st: Scan, lines: seq<String>)
    requires Traced(st, lines)
    ensures Traced(AfterFlushText(st), lines)
  {
    EndsWithEmpty(lines);
    var buf := st.textBuffer;
    if buf != [] {
      var value := Trim(Join(buf, '\n'));
      TextBufferRun(buf, lines);
      if value != [] {
        AllClosedSnoc(st.segments, Text(value), lines);
      }
    }
  }

  /** The table buffer's kept rows form a table run closed by `line`. */
  lemma ClosedTableRun(buf: seq<String>, lines: seq<String>, line: String)
    requires TableTail(buf, lines) && !IsTableLine(line)
    ensures FromClosedRun(Table(FormatTableRows(buf)), lines + [line])
  {
    var ext := lines + [line];
    var a := |lines| - |buf|;
    TableBufferRun(buf, lines);
    assert ext[a..|lines|] == lines[a..|lines|];
    assert forall k :: 0 <= k < |lines| ==> ext[k] == lines[k];
    assert ext[|lines|] == line;
    assert IsTableRunAt(FormatTableRows(buf), ext, a, |lines|);
  }

  /** flushTable on a non-table line: the emitted table comes from the run the
      line closes, and no table run is open afterwards. */
  lemma FlushTableClosing(st: Scan, lines: seq<String>, line: String)
    requires Traced(st, lines) && !IsTableLine(line)
    ensures AllFromClosedRuns(AfterFlushTable(st).segments, lines + [line])
  {
    AllClosedRunsExtend(st.segments, lines, line);
    var buf := st.tableBuffer;
    if buf != [] && FormatTableRows(buf) != [] {
      ClosedTableRun(buf, lines, line);
      AllClosedSnoc(st.segments, Table(FormatTableRows(buf)), lines + [line]);
    }
  }

  /** A table line: the text run is closed and the line joins the table run. */
  lemma TableLineTraced(st: Scan, lines: seq<String>, line: String)
    requires Traced(st, lines) && IsTableLine(line)
    ensures Traced(AfterLine(st, line), lines + [line])
  {
    var s := AfterFlushText(st);
    FlushTextTraced(st, lines);
    AllClosedRunsExtend(s.segments, lines, line);
    EndsWithEmpty(lines + [line]);
    TableTailSnoc(s.tableBuffer, lines, line);
  }

  /** A blank line while a table is open: the table is emitted and the line
      dropped. */
  lemma BlankLineTraced(st: Scan, lines: seq<String>, line: String)
    requires Traced(st, lines) && IsBlank(line) && |st.tableBuffer| > 0
    ensures Traced(AfterLine(st, line), lines + [line])
  {
    TrimEmpty(line);
    TableLineMatchesRegex(line);
    FlushTableClosing(st, lines, line);
    EndsWithEmpty(lines + [line]);
    TableTailClosed(lines, line);
  }

  /** Any other line: the table run is closed and the line joins the text. */
  lemma ProseLineTraced(st: Scan, lines: seq<String>, line: String)
    requires Traced(st, lines) && !IsTableLine(line)
    ensures Traced(AfterFlushTable(st).(textBuffer := st.textBuffer + [line]), lines + [line])
  {
    FlushTableClosing(st, lines, line);
    TextTailSnoc(st.textBuffer, lines, line);
    TableTailClosed(lines, line);
  }

  /** The loop body keeps the scan traced to the lines seen. */
  lemma AfterLineTraced(st: Scan, lines: seq<String>, line: String)
    requires Traced(st, lines)
    ensures Traced(AfterLine(st, line), lines + [line])
  {
    if IsTableLine(line) {
      TableLineTraced(st, lines, line);
    } else if IsBlank(line) && |st.tableBuffer| > 0 {
      BlankLineTraced(st, lines, line);
    } else {
      ProseLineTraced(st, lines, line);
    }
  }

  lemma {:induction false} ScannedTraced(lines: seq<String>)
    ensures Traced(Scanned(lines), lines)
  {
    if lines == [] {
      EndsWithEmpty(lines);
    } else {
      var init, last := lines[..|lines| - 1], lines[|lines| - 1];
      ScannedTraced(init);
      AfterLineTraced(Scanned(init), init, last);
      InitLast(lines);
      ScannedSnoc(init, last);
    }
  }

  // ---------------------------------------------------------------------------
  // The final flushes
  // ---------------------------------------------------------------------------

  /** The final flushTable emits the table run at the end of the lines, which
      the end of the message closes. */
  lemma FinalTableFlush(st: Scan, lines: seq<String>)
    requires Traced(st, lines)
    ensures AllFromRuns(AfterFlushTable(st).segments, lines)
  {
    AllClosedAreRuns(st.segments, lines);
    var buf := st.tableBuffer;
    if buf != [] && FormatTableRows(buf) != [] {
      TableBufferRun(buf, lines);
      assert IsTableRunAt(FormatTableRows(buf), lines, |lines| - |buf|, |lines|);
      AllRunsSnoc(st.segments, Table(FormatTableRows(buf)), lines);
    }
  }

  /** The final flushText emits the text run at the end of the lines. */
  lemma FinalTextFlush(st: Scan, lines: seq<String>)
    requires AllFromRuns(st.segments, lines) && TextTail(st.textBuffer, lines)
    ensures AllFromRuns(AfterFlushText(st).segments, lines)
  {
    var buf := st.textBuffer;
    if buf != [] && Trim(Join(buf, '\n')) != [] {
      TextBufferRun(buf, lines);
      AllRunsSnoc(st.segments, Text(Trim(Join(buf, '\n'))), lines);
    }
  }

  /** Every segment splitContentSegments returns comes from a contiguous run of
      the message's lines of its own kind: a text segment is a run of
      non-table lines joined with newlines and trimmed as a whole, a table
      segment the kept rows of a run of table lines that no table line
      precedes or follows, so adjacent table lines always share one table. */
  lemma SegmentsFromRuns(text: String)
    ensures AllFromRuns(SegmentsOf(text), Split(text, '\n'))
  {
    var lines := Split(text, '\n');
    var st := Scanned(lines);
    ScannedTraced(lines);
    FinalTableFlush(st, lines);
    FinalTextFlush(AfterFlushTable(st), lines);
  }
}
