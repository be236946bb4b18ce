/** splitContentSegments of frontend/src/App.tsx as the program runs it: the
    emitted segments and the two line buffers are state that flushText,
    flushTable and the loop over the lines update in place. Each step is
    proved to follow the specification in Segmentation, so the result is
    SegmentsOf(text) and inherits what is proved about it. */
module Scanner {
  import opened Strings
  import opened TableRows
  import opened Seqs
  import opened Segmentation
  import opened Content
  import opened Runs

  /** The mutable state of one call: `segments` and the two buffers that the
      flush closures share with the loop. */
  class Segmenter {
    var segments: seq<Segment>
    var textBuffer: seq<String>
    var tableBuffer: seq<String>

    /** The state as a value of the specification. */
    function State(): Scan
      reads this
    {
      Scan(segments, textBuffer, tableBuffer)
    }

    /** Nothing emitted, both buffers empty. */
    constructor()
      ensures State() == Start
    {
      segments := [];
      textBuffer := [];
      tableBuffer := [];
    }

    /** flushText: returns at once on an empty buffer; otherwise joins the
        buffered lines with newlines, trims, pushes a text segment when
        something is left, and empties the buffer. */
    method FlushText()
      modifies this
      ensures State() == AfterFlushText(old(State()))
    {
      if |textBuffer| == 0 {
        return;
      }
      var value := Trim(Join(textBuffer, '\n'));
      if value != [] {
        segments := segments + [Text(value)];
      }
      textBuffer := [];
    }

    /** flushTable: returns at once on an empty buffer; otherwise formats the
        buffered lines, pushes a table segment when some row survives, and
        empties the buffer. */
    method FlushTable()
      modifies this
      ensures State() == AfterFlushTable(old(State()))
    {
      if |tableBuffer| == 0 {
        return;
      }
      var rows := FormatTableRows(tableBuffer);
      if |rows| > 0 {
        segments := segments + [Table(rows)];
      }
      tableBuffer := [];
    }

    /** The forEach callback for one line: a table line flushes the text and
        joins the table buffer; a blank line while a table is open flushes
        the table and is dropped; any other line flushes the table and joins
        the text buffer. */
    method ProcessLine(line: String)
      modifies this
      ensures State() == AfterLine(old(State()), line)
    {
      if IsTableLine(line) {
        FlushText();
        tableBuffer := tableBuffer + [line];
      } else if IsBlank(line) && |tableBuffer| > 0 {
        FlushTable();
      } else {
        FlushTable();
        textBuffer := textBuffer + [line];
      }
    }
  }

  /** splitContentSegments: split the message on newlines, feed every line to
      the buffers in order, flush the table and then the text, and return the
      segments. The result is the specification's SegmentsOf(text); every
      segment is well formed and comes from a contiguous run of the
      message's lines; and reading the segments back gives the message's
      lines, read one by one, in order. */
  method SplitContentSegments(text: String) returns (segments: seq<Segment>)
    ensures segments == SegmentsOf(text)
    ensures AllGood(segments)
    ensures AllFromRuns(segments, Split(text, '\n'))
    ensures FlatMap(segments, SegmentItems) == FlatMap(Split(text, '\n'), LineItems)
  {
    var s := new Segmenter();
    var lines := Split(text, '\n');
    var i := 0;
    while i < |lines|
      invariant 0 <= i <= |lines|
      invariant s.State() == Scanned(lines[..i])
    {
      s.ProcessLine(lines[i]);
      ScannedSnoc(lines[..i], lines[i]);
      TakeSnoc(lines, i);
      i := i + 1;
    }
    assert lines[..i] == lines;
    s.FlushTable();
    s.FlushText();
    segments := s.segments;
    SegmentsAreGood(text);
    SegmentsFromRuns(text);
    SegmentsPreserveContent(text);
  }
}
