/** splitContentSegments of frontend/src/App.tsx as a specification: the
    ContentSegment type, the state the scan threads through the lines (the
    emitted segments and the two line buffers), flushText, flushTable, the body
    of the per-line loop, and the whole scan as a left fold over the lines. */
module Segmentation {
  import opened Strings
  import opened TableRows
  import opened Seqs

  /** ContentSegment: a run of prose, or a table as rows of cell strings. */
  datatype Segment = Text(value: String) | Table(rows: seq<seq<String>>)

  /** What the scan has built so far: the segments emitted and the two buffers. */
  datatype Scan = Scan(segments: seq<Segment>, textBuffer: seq<String>, tableBuffer: seq<String>)

  /** The state before the first line: nothing emitted, both buffers empty. */
  const Start: Scan := Scan([], [], [])

  /** `!line.trim()`: the line is empty or all white space. */
  predicate IsBlank(line: String) {
    Trim(line) == []
  }

  /** What a consumer may rely on in an emitted segment: a text value is
      non-empty and trimmed; a table has at least one row, every row has
      content and is not a divider row, and every cell is trimmed and
      pipe-free. */
  predicate IsGoodSegment(seg: Segment) {
    match seg
    case Text(value) => value != [] && IsTrimmed(value)
    case Table(rows) =>
      |rows| > 0 && forall r :: 0 <= r < |rows| ==> IsKept(rows[r]) && IsCleanRow(rows[r])
  }

  predicate AllGood(segments: seq<Segment>) {
    forall k :: 0 <= k < |segments| ==> IsGoodSegment(segments[k])
  }

  /** flushText: an empty buffer is left alone and emits nothing; otherwise the
      buffered lines are joined with newlines and trimmed, a text segment is
      emitted if anything is left, and the buffer is cleared. At most one
      segment is emitted and the table buffer is untouched. */
  function AfterFlushText(st: Scan): (r: Scan)
    ensures r.textBuffer == [] && r.tableBuffer == st.tableBuffer
    ensures st.textBuffer == [] ==> r == st
    ensures st.segments <= r.segments && |r.segments| <= |st.segments| + 1
  {
    if |st.textBuffer| == 0 then st
    else
      var value := Trim(Join(st.textBuffer, '\n'));
      Scan(if value != [] then st.segments + [Text(value)] else st.segments, [], st.tableBuffer)
  }

  /** flushTable: an empty buffer is left alone and emits nothing; otherwise the
      buffered lines are formatted into rows, a table segment is emitted if any
      row survives, and the buffer is cleared. At most one segment is emitted
      and the text buffer is untouched. */
  function AfterFlushTable(st: Scan): (r: Scan)
    ensures r.tableBuffer == [] && r.textBuffer == st.textBuffer
    ensures st.tableBuffer == [] ==> r == st
    ensures st.segments <= r.segments && |r.segments| <= |st.segments| + 1
  {
    if |st.tableBuffer| == 0 then st
    else
      var rows := FormatTableRows(st.tableBuffer);
      Scan(if |rows| > 0 then st.segments + [Table(rows)] else st.segments, st.textBuffer, [])
  }

  /** The loop body for one line: a table line closes the text run and joins
      the table buffer; a blank line while a table is open closes the table and
      is itself dropped; any other line closes the table and joins the text
      buffer. */
  function AfterLine(st: Scan, line: String): Scan {
    if IsTableLine(line) then
      var s := AfterFlushText(st);
      s.(tableBuffer := s.tableBuffer + [line])
    else if IsBlank(line) && |st.tableBuffer| > 0 then
      AfterFlushTable(st)
    else
      var s := AfterFlushTable(st);
      s.(textBuffer := s.textBuffer + [line])
  }

  /** The state after the loop has seen `lines`, in order. */
  function Scanned(lines: seq<String>): Scan {
    if lines == [] then Start
    else AfterLine(Scanned(lines[..|lines| - 1]), lines[|lines| - 1])
  }

  /** The final `flushTable(); flushText()`. */
  function Finish(st: Scan): Scan {
    AfterFlushText(AfterFlushTable(st))
  }

  /** splitContentSegments as a function of the message text. */
  function SegmentsOf(text: String): seq<Segment> {
    Finish(Scanned(Split(text, '\n'))).segments
  }

  /** What holds between lines: at most one buffer holds lines, the table
      buffer holds only table lines and the text buffer none, no buffered line
      holds a newline, and every emitted segment is well formed. */
  predicate Consistent(st: Scan) {
    (st.textBuffer == [] || st.tableBuffer == [])
    && (forall k :: 0 <= k < |st.tableBuffer| ==> IsTableLine(st.tableBuffer[k]) && '\n' !in st.tableBuffer[k])
    && (forall k :: 0 <= k < |st.textBuffer| ==> !IsTableLine(st.textBuffer[k]) && '\n' !in st.textBuffer[k])
    && AllGood(st.segments)
  }

  /** flushText keeps every emitted segment well formed. */
  lemma FlushTextGood(st: Scan)
    requires AllGood(st.segments)
    ensures AllGood(AfterFlushText(st).segments)
  {
  }

  /** flushTable keeps every emitted segment well formed. */
  lemma FlushTableGood(st: Scan)
    requires AllGood(st.segments)
    ensures AllGood(AfterFlushTable(st).segments)
  {
    FormatTableRowsKept(st.tableBuffer);
  }

  lemma AfterLineConsistent(st: Scan, line: String)
    requires Consistent(st) && '\n' !in line
    ensures Consistent(AfterLine(st, line))
  {
    FlushTextGood(st);
    FlushTableGood(st);
  }

  /** Every prefix of the scan over newline-free lines is consistent. */
  lemma {:induction false} ScannedConsistent(lines: seq<String>)
    requires forall k :: 0 <= k < |lines| ==> '\n' !in lines[k]
    ensures Consistent(Scanned(lines))
  {
    if lines != [] {
      var init := lines[..|lines| - 1];
      assert forall k :: 0 <= k < |init| ==> init[k] == lines[k];
      ScannedConsistent(init);
      AfterLineConsistent(Scanned(init), lines[|lines| - 1]);
    }
  }

  /** After the final flushes both buffers are empty, and every segment the
      engine returns is well formed: no empty or untrimmed text, no table
      without rows, no divider or contentless row, no untrimmed cell. */
  lemma SegmentsAreGood(text: String)
    ensures Finish(Scanned(Split(text, '\n'))).textBuffer == []
    ensures Finish(Scanned(Split(text, '\n'))).tableBuffer == []
    ensures AllGood(SegmentsOf(text))
  {
    SplitPieces(text, '\n');
    var st := Scanned(Split(text, '\n'));
    ScannedConsistent(Split(text, '\n'));
    FlushTableGood(st);
    FlushTextGood(AfterFlushTable(st));
  }

  /** A line that is not a table line, while no table is open, only joins
      the text buffer. */
  lemma PlainLine(st: Scan, line: String)
    requires st.tableBuffer == [] && !IsTableLine(line)
    ensures AfterLine(st, line) == st.(textBuffer := st.textBuffer + [line])
  {
  }

  /** On lines none of which is a table line, the scan only buffers text. */
  lemma {:induction false} ScannedPlain(lines: seq<String>)
    requires forall k :: 0 <= k < |lines| ==> !IsTableLine(lines[k])
    ensures Scanned(lines) == Scan([], lines, [])
  {
    if lines != [] {
      var init, last := lines[..|lines| - 1], lines[|lines| - 1];
      assert forall k :: 0 <= k < |init| ==> init[k] == lines[k];
      ScannedPlain(init);
      PlainLine(Scan([], init, []), last);
      InitLast(lines);
    }
  }

  /** A message without table lines gives no segment when it trims to nothing
      (the empty message included) and otherwise exactly one text segment,
      the trimmed message. */
  lemma SegmentsOfPlainText(text: String)
    requires forall k :: 0 <= k < |Split(text, '\n')| ==> !IsTableLine(Split(text, '\n')[k])
    ensures SegmentsOf(text) == if Trim(text) == [] then [] else [Text(Trim(text))]
  {
    ScannedPlain(Split(text, '\n'));
    JoinSplit(text, '\n');
  }

  /** Re-segmenting the value of a text segment that holds no table line gives
      back that one segment. */
  lemma ResegmentText(value: String)
    requires value != [] && IsTrimmed(value)
    requires forall k :: 0 <= k < |Split(value, '\n')| ==> !IsTableLine(Split(value, '\n')[k])
    ensures SegmentsOf(value) == [Text(value)]
  {
    SegmentsOfPlainText(value);
    TrimOfTrimmed(value);
  }

  lemma ScannedSnoc(lines: seq<String>, line: String)
    ensures Scanned(lines + [line]) == AfterLine(Scanned(lines), line)
  {
  }

  /** A prose line while no table is open joins the text buffer. */
  lemma ProseStep(lines: seq<String>, segs: seq<Segment>, buf: seq<String>, p: String)
    requires Scanned(lines) == Scan(segs, buf, []) && !IsTableLine(p)
    ensures Scanned(lines + [p]) == Scan(segs, buf + [p], [])
  {
  }

  /** A table line after buffered prose that does not trim to nothing emits
      that prose as one text segment and opens the table buffer. */
  lemma TableStep(lines: seq<String>, segs: seq<Segment>, buf: seq<String>, t: String)
    requires Scanned(lines) == Scan(segs, buf, []) && IsTableLine(t)
    requires Trim(Join(buf, '\n')) != []
    ensures Scanned(lines + [t]) == Scan(segs + [Text(Trim(Join(buf, '\n')))], [], [t])
  {
    ScannedSnoc(lines, t);
  }

  /** A table line while a table is open joins the table buffer. */
  lemma TableRunStep(lines: seq<String>, segs: seq<Segment>, buf: seq<String>, t: String)
    requires Scanned(lines) == Scan(segs, [], buf) && IsTableLine(t)
    ensures Scanned(lines + [t]) == Scan(segs, [], buf + [t])
  {
    ScannedSnoc(lines, t);
  }

  /** A run of table lines while a table is open all join the table buffer,
      in order. */
  lemma {:induction false} ScannedTableRun(lines: seq<String>, segs: seq<Segment>, buf: seq<String>, ts: seq<String>)
    requires Scanned(lines) == Scan(segs, [], buf)
    requires forall k :: 0 <= k < |ts| ==> IsTableLine(ts[k])
    ensures Scanned(lines + ts) == Scan(segs, [], buf + ts)
  {
    if ts == [] {
      assert lines + ts == lines && buf + ts == buf;
    } else {
      var init, last := ts[..|ts| - 1], ts[|ts| - 1];
      ScannedTableRun(lines, segs, buf, init);
      TableRunStep(lines + init, segs, buf + init, last);
      InitLast(ts);
      AppendAssoc(lines, init, [last]);
      AppendAssoc(buf, init, [last]);
    }
  }

  /** A blank line while a table is open emits the table's kept rows as one
      table segment and is itself dropped. */
  lemma BlankStep(lines: seq<String>, segs: seq<Segment>, buf: seq<String>, b: String)
    requires Scanned(lines) == Scan(segs, [], buf) && IsBlank(b) && FormatTableRows(buf) != []
    ensures Scanned(lines + [b]) == Scan(segs + [Table(FormatTableRows(buf))], [], [])
  {
    ScannedSnoc(lines, b);
    TrimEmpty(b);
    TableLineMatchesRegex(b);
  }

  /** With no table open, the final flushes emit the buffered prose as one last
      text segment when it does not trim to nothing. */
  lemma FinishProse(segs: seq<Segment>, buf: seq<String>)
    requires Trim(Join(buf, '\n')) != []
    ensures Finish(Scan(segs, buf, [])) == Scan(segs + [Text(Trim(Join(buf, '\n')))], [], [])
  {
  }

  lemma ScannedProse(p: String)
    requires !IsTableLine(p)
    ensures Scanned([p]) == Scan([], [p], [])
  {
    ProseStep([], [], [], p);
    assert [] + [p] == [p];
  }

  /** Prose, then one table line. */
  lemma ScannedProseThenTable(p: String, t: String)
    requires !IsTableLine(p) && !IsBlank(p) && IsTableLine(t)
    ensures Scanned([p] + [t]) == Scan([Text(Trim(p))], [], [t])
  {
    ScannedProse(p);
    assert Join([p], '\n') == p;
    TableStep([p], [], [p], t);
  }

  /** Prose, then a run of table lines. */
  lemma {:induction false} ScannedProseTable(p: String, ts: seq<String>)
    requires !IsTableLine(p) && !IsBlank(p) && ts != []
    requires forall k :: 0 <= k < |ts| ==> IsTableLine(ts[k])
    ensures Scanned([p] + ts) == Scan([Text(Trim(p))], [], ts)
  {
    if |ts| == 1 {
      ScannedProseThenTable(p, ts[0]);
      assert ts == [ts[0]];
    } else {
      var init, last := ts[..|ts| - 1], ts[|ts| - 1];
      ScannedProseTable(p, init);
      TableRunStep([p] + init, [Text(Trim(p))], init, last);
      InitLast(ts);
      AppendAssoc([p], init, [last]);
    }
  }

  /** A blank line that closes a table after one segment leaves two. */
  lemma BlankAfterOne(lines: seq<String>, x: Segment, buf: seq<String>, b: String)
    requires Scanned(lines) == Scan([x], [], buf) && IsBlank(b) && FormatTableRows(buf) != []
    ensures Scanned(lines + [b]) == Scan([x, Table(FormatTableRows(buf))], [], [])
  {
    BlankStep(lines, [x], buf, b);
    assert [x] + [Table(FormatTableRows(buf))] == [x, Table(FormatTableRows(buf))];
  }

  /** Prose, a run of table lines, then a blank line. */
  lemma ScannedProseTableBlank(p: String, ts: seq<String>, b: String)
    requires !IsTableLine(p) && !IsBlank(p) && ts != []
    requires forall k :: 0 <= k < |ts| ==> IsTableLine(ts[k])
    requires FormatTableRows(ts) != [] && IsBlank(b)
    ensures Scanned([p] + ts + [b]) == Scan([Text(Trim(p)), Table(FormatTableRows(ts))], [], [])
  {
    ScannedProseTable(p, ts);
    BlankAfterOne([p] + ts, Text(Trim(p)), ts, b);
  }

  /** The scan of prose, a run of table lines, a blank line and prose again. */
  lemma ScannedProseTableProse(p: String, ts: seq<String>, b: String, q: String)
    requires !IsTableLine(p) && !IsBlank(p) && ts != []
    requires forall k :: 0 <= k < |ts| ==> IsTableLine(ts[k])
    requires FormatTableRows(ts) != [] && IsBlank(b) && !IsTableLine(q)
    ensures Scanned([p] + ts + [b] + [q]) == Scan([Text(Trim(p)), Table(FormatTableRows(ts))], [q], [])
  {
    ScannedProseTableBlank(p, ts, b);
    ProseStep([p] + ts + [b], [Text(Trim(p)), Table(FormatTableRows(ts))], [], q);
    assert [] + [q] == [q];
  }

  /** Joining newline-free lines and segmenting scans exactly those lines. */
  lemma SegmentsOfLines(lines: seq<String>)
    requires |lines| > 0 && forall k :: 0 <= k < |lines| ==> '\n' !in lines[k]
    ensures SegmentsOf(Join(lines, '\n')) == Finish(Scanned(lines)).segments
  {
    SplitJoin(lines, '\n');
  }

  /** A message made only of table lines, with at least one kept row, is one
      table segment holding all the kept rows, in order. */
  lemma SegmentsOfTableOnly(ts: seq<String>)
    requires ts != [] && FormatTableRows(ts) != []
    requires forall k :: 0 <= k < |ts| ==> '\n' !in ts[k] && IsTableLine(ts[k])
    ensures SegmentsOf(Join(ts, '\n')) == [Table(FormatTableRows(ts))]
  {
    SegmentsOfLines(ts);
    ScannedTableOnly(ts);
    FinishTableOnly(ts);
  }

  lemma ScannedTableOnly(ts: seq<String>)
    requires forall k :: 0 <= k < |ts| ==> IsTableLine(ts[k])
    ensures Scanned(ts) == Scan([], [], ts)
  {
    ScannedTableRun([], [], [], ts);
    assert [] + ts == ts;
  }

  lemma FinishTableOnly(buf: seq<String>)
    requires FormatTableRows(buf) != []
    ensures Finish(Scan([], [], buf)).segments == [Table(FormatTableRows(buf))]
  {
    assert [] + [Table(FormatTableRows(buf))] == [Table(FormatTableRows(buf))];
  }

  lemma ProseTableProseLines(p: String, ts: seq<String>, b: String, q: String)
    requires '\n' !in p && '\n' !in b && '\n' !in q
    requires forall k :: 0 <= k < |ts| ==> '\n' !in ts[k]
    ensures var lines := [p] + ts + [b] + [q];
      SegmentsOf(Join(lines, '\n')) == Finish(Scanned(lines)).segments
  {
    var lines := [p] + ts + [b] + [q];
    forall k | 0 <= k < |lines| ensures '\n' !in lines[k] {
      if 0 < k <= |ts| {
        assert lines[k] == ts[k - 1];
      }
    }
    SegmentsOfLines(lines);
  }

  /** Finishing a scan that holds two segments and one buffered prose line
      that is not blank adds that line, trimmed, as a third segment. */
  lemma FinishAfterTwo(lines: seq<String>, x: Segment, y: Segment, q: String)
    requires Scanned(lines) == Scan([x, y], [q], []) && !IsBlank(q)
    ensures Finish(Scanned(lines)).segments == [x, y, Text(Trim(q))]
  {
    assert Join([q], '\n') == q;
    FinishProse([x, y], [q]);
  }

  /** A message of prose, a run of table lines with at least one kept row, a
      blank line and prose again (such as "intro", "| a | b |", "| 1 | 2 |",
      "" and "outro") gives a text, a table and a text segment, in that order:
      the blank line closes the table and is itself dropped. */
  lemma ProseTableProse(p: String, ts: seq<String>, b: String, q: String)
    requires '\n' !in p && '\n' !in b && '\n' !in q
    requires forall k :: 0 <= k < |ts| ==> '\n' !in ts[k] && IsTableLine(ts[k])
    requires !IsTableLine(p) && !IsBlank(p)
    requires ts != [] && FormatTableRows(ts) != []
    requires IsBlank(b)
    requires !IsTableLine(q) && !IsBlank(q)
    ensures SegmentsOf(Join([p] + ts + [b] + [q], '\n'))
      == [Text(Trim(p)), Table(FormatTableRows(ts)), Text(Trim(q))]
  {
    var lines := [p] + ts + [b] + [q];
    ProseTableProseLines(p, ts, b, q);
    ScannedProseTableProse(p, ts, b, q);
    FinishAfterTwo(lines, Text(Trim(p)), Table(FormatTableRows(ts)), q);
  }
}
