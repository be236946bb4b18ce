# Content segmentation of chat messages

A Dafny model of the segmentation engine of the chat front end
(`frontend/src/App.tsx`, lines 27-91). The engine takes the raw text of a
message and returns an ordered list of segments, each either a block of prose
or a table given as rows of cell strings. It is built from four parts:

- the line classifier `TABLE_LINE_REGEX`, which is applied to every trimmed
  line;
- the divider-row test `isSeparatorRow`;
- the row formatter `formatTableRows`, which drops outer pipes, splits cells,
  trims them, and drops contentless rows and divider rows;
- `splitContentSegments`, a single forward pass over the lines. It keeps a
  prose buffer and a table buffer, flushes them with `flushText` and
  `flushTable`, and ends with a final `flushTable(); flushText()`.

The project has eight modules:

- `Seqs` (`seqs.dfy`): `Array.prototype.map` and `filter`, plus a flat map
  used to state what the output shows.
- `Strings` (`strings.dfy`): JavaScript white space, `String.prototype.trim`,
  `split` and `join` on one character, and their algebra.
- `TableRows` (`table.dfy`): the two regular expressions and the row
  formatter. Each expression appears twice: once as a ghost predicate saying
  how the string decomposes, and once as a direct test on characters. The
  two are proved to agree.
- `Segmentation` (`segments.dfy`): the `ContentSegment` type, plus the scan as
  a pure specification, namely a left fold of the loop body over the lines
  followed by the final flushes. Its invariants and the well-formedness of
  every emitted segment are proved here.
- `Runs` (`runs.dfy`): provenance. Every text segment is a contiguous run
  of the message's non-table lines, joined with newlines and trimmed as a
  whole. Every table segment holds the kept rows of a maximal contiguous run
  of table lines, one that no table line precedes or follows.
- `Content` (`content.dfy`): order preservation. Read back as prose lines and
  table rows, the segments give exactly what the message's lines give when
  each line is read on its own.
- `Scanner` (`scanner.dfy`): the engine as the source runs it. A
  `Segmenter` object holds the mutable `segments`, `textBuffer` and
  `tableBuffer`. Its `FlushText`, `FlushTable` and `ProcessLine` methods
  update them in place, and `SplitContentSegments` runs a `while` loop over
  the lines. The loop is proved equal to the specification, so its result
  inherits every property proved about it.
- `WorkedMessages` (`worked.dfy`): concrete messages and rows, and the
  segments and cells the engine makes of them.

`TABLE_LINE_REGEX`'s `.` does not match a line terminator, so a trimmed line
with a carriage return, U+2028 or U+2029 between its outer pipes is not a
table line (`TableRows.IsTableLine`).

## Model

| member | source | states |
|---|---|---|
| Strings.IsWs | frontend/src/App.tsx:35 | the white space of `\s` and of `trim()`: ECMAScript's WhiteSpace and LineTerminator code points |
| Strings.Split | frontend/src/App.tsx:53 | `split` on one character, keeping empty pieces; it never returns an empty list |
| Strings.Join | frontend/src/App.tsx:59 | `join` with one separator character between consecutive parts |
| Strings.Trim | frontend/src/App.tsx:41 | `trim()` yields a string that is empty or starts and ends with non-white space |
| Strings.LeadSpec | frontend/src/App.tsx:41 | the leading white space `trim()` removes is the longest white-space prefix |
| Strings.TrailSpec | frontend/src/App.tsx:41 | the trailing white space `trim()` removes is the longest white-space suffix |
| Strings.TrimRange | frontend/src/App.tsx:41 | the trim is the middle part of the string, and everything before and after it is white space |
| Strings.TrimShape | frontend/src/App.tsx:41 | a string is its leading white space, its trim and its trailing white space, concatenated |
| Strings.TrimShapeIn | frontend/src/App.tsx:35 | the same decomposition for a slice, in positions of the whole string |
| Strings.TrimOfPadded | frontend/src/App.tsx:41 | white space around a trimmed string is exactly what `trim()` removes |
| Strings.TrimOfTrimmed | frontend/src/App.tsx:45 | a trimmed string is its own trim |
| Strings.TrimIdempotent | frontend/src/App.tsx:45 | trimming twice is trimming once |
| Strings.TrimEmpty | frontend/src/App.tsx:79 | `!line.trim()` holds exactly when the line is all white space |
| Strings.TrimWsCons | frontend/src/App.tsx:59 | one more leading white-space character does not change the trim |
| Strings.TrimWsSnoc | frontend/src/App.tsx:59 | one more trailing white-space character does not change the trim |
| Strings.TrimKeepsAbsent | frontend/src/App.tsx:44-45 | trimming never introduces a character, so a pipe-free piece trims to a pipe-free cell |
| Strings.SplitPieces | frontend/src/App.tsx:44 | `split` yields one piece more than there are separators, and no piece holds the separator |
| Strings.JoinSplit | frontend/src/App.tsx:53 | joining the pieces of `split('\n')` with newlines gives back the message |
| Strings.SplitJoin | frontend/src/App.tsx:59 | splitting a join of newline-free lines gives back the lines |
| Strings.SplitSnocSep | frontend/src/App.tsx:53 | a trailing separator opens one more, empty, last piece |
| Strings.SplitSnocOther | frontend/src/App.tsx:53 | any other trailing character extends the last piece |
| Seqs.Filter | frontend/src/App.tsx:47-48 | `filter` never returns more elements than it was given |
| Seqs.Map | frontend/src/App.tsx:39 | `map` returns one element per element given |
| Seqs.FilterSpec | frontend/src/App.tsx:47-48 | `filter` keeps exactly the elements that pass the test |
| Seqs.FilterAppend | frontend/src/App.tsx:47-48 | `filter` works element by element, preserving order across a concatenation |
| Seqs.MapAppend | frontend/src/App.tsx:39 | `map` works element by element, preserving order across a concatenation |
| TableRows.IsTableLine | frontend/src/App.tsx:31 | `TABLE_LINE_REGEX.test(line.trim())`, decided on the trimmed line: at least two characters, a pipe at each end, no line terminator between |
| TableRows.IsSeparatorCell | frontend/src/App.tsx:35 | one cell of `isSeparatorRow`: without its optional outer colons and inner white space, a non-empty run of dashes |
| TableRows.IsSeparatorRow | frontend/src/App.tsx:33-35 | `isSeparatorRow`: a non-empty row whose every trimmed cell is a divider cell |
| TableRows.StripPipes | frontend/src/App.tsx:42-43 | drops one leading pipe and then one trailing pipe, when present |
| TableRows.FormatRow | frontend/src/App.tsx:40-45 | the `map` step of `formatTableRows` for one line: trim, strip the outer pipes, split on pipes, trim every cell |
| TableRows.TableLineMatchesRegex | frontend/src/App.tsx:31 | a trimmed line matches `^\s*\|.*\|\s*$` exactly when it has at least two characters, a pipe at each end and no line terminator in between; an all-white-space line never matches |
| TableRows.TableLineExamples | frontend/src/App.tsx:76 | a lone pipe is not table-like, two pipes are, and prose ending in a pipe is not |
| TableRows.SeparatorCellMatchesRegex | frontend/src/App.tsx:35 | the direct divider-cell test agrees with `^:?\s*-+\s*:?$` in both directions |
| TableRows.RegexToSeparatorCell | frontend/src/App.tsx:35 | every decomposition the expression accepts passes the direct test |
| TableRows.SeparatorRowMatchesRegex | frontend/src/App.tsx:33-35 | `isSeparatorRow` holds exactly when the row is non-empty and every trimmed cell matches the expression; a row with an empty cell is never a divider row |
| TableRows.SeparatorCellExamples | frontend/src/App.tsx:35 | dashes with optional colons and inner spaces are divider cells |
| TableRows.SeparatorRowExamples | frontend/src/App.tsx:33-35 | the empty row, a row with an empty cell, a row of text and a lone colon are not divider rows |
| TableRows.FormatRowClean | frontend/src/App.tsx:40-45 | every cell of a formatted row is trimmed and pipe-free, and there is one cell more than there are inner pipes |
| TableRows.FormatRowCellCount | frontend/src/App.tsx:40-45 | a table line yields one cell fewer than its trimmed form has pipes; rows are not padded |
| TableRows.FormatTableRows | frontend/src/App.tsx:37-49 | `formatTableRows` never returns more rows than it was given lines |
| TableRows.FormatTableRowsKept | frontend/src/App.tsx:47-48 | every returned row has content, is not a divider row, and has clean cells |
| TableRows.FormatTableRowsAsKept | frontend/src/App.tsx:37-49 | `formatTableRows` removes exactly the contentless rows and the divider rows; every other row survives unchanged and in line order |
| TableRows.FormatTableRowsAppend | frontend/src/App.tsx:38-48 | the rows of a concatenation of line lists are the rows of the parts, in order |
| TableRows.FormatTableRowsSingle | frontend/src/App.tsx:47-48 | one line gives its row exactly when that row is kept |
| Segmentation.IsBlank | frontend/src/App.tsx:79 | `!line.trim()`: the line trims to nothing |
| Segmentation.AfterLine | frontend/src/App.tsx:75-85 | the `forEach` callback on the state: table line, blank line with a table open, anything else |
| Segmentation.Scanned | frontend/src/App.tsx:75-85 | the state after the loop has seen the lines, in order |
| Segmentation.Finish | frontend/src/App.tsx:87-88 | the final `flushTable()` followed by `flushText()` |
| Segmentation.SegmentsOf | frontend/src/App.tsx:51-91 | `splitContentSegments` as a function: split on newlines, scan, finish |
| Segmentation.AfterFlushText | frontend/src/App.tsx:57-64 | `flushText` empties the text buffer, leaves the table buffer alone, leaves everything alone when the buffer is empty, and appends at most one segment |
| Segmentation.AfterFlushTable | frontend/src/App.tsx:66-73 | `flushTable` empties the table buffer, leaves the text buffer alone, leaves everything alone when the buffer is empty, and appends at most one segment |
| Segmentation.FlushTextGood | frontend/src/App.tsx:59-62 | a text segment that is emitted is non-empty and trimmed |
| Segmentation.FlushTableGood | frontend/src/App.tsx:68-71 | a table segment that is emitted has at least one row, all kept and clean |
| Segmentation.AfterLineConsistent | frontend/src/App.tsx:75-85 | after each line at most one buffer is non-empty, the buffers hold only their kind of line, and every segment is well formed |
| Segmentation.ScannedConsistent | frontend/src/App.tsx:75-85 | that invariant holds after every prefix of the lines |
| Segmentation.SegmentsAreGood | frontend/src/App.tsx:87-90 | after the final flushes both buffers are empty and every returned segment is well formed |
| Segmentation.PlainLine | frontend/src/App.tsx:81-84 | with no table open, a non-table line only joins the text buffer |
| Segmentation.ScannedPlain | frontend/src/App.tsx:75-85 | lines without a table line are all buffered as text |
| Segmentation.SegmentsOfPlainText | frontend/src/App.tsx:51-91 | a message without table lines gives `[]` when it trims to nothing (`""` included) and otherwise exactly one text segment, the trimmed message |
| Segmentation.ResegmentText | frontend/src/App.tsx:57-63 | re-segmenting the value of such a text segment gives back that one segment |
| Segmentation.ScannedSnoc | frontend/src/App.tsx:75 | `forEach` handles the lines in order, one more line being one more loop step |
| Segmentation.ProseStep | frontend/src/App.tsx:81-84 | a prose line while no table is open joins whatever prose is buffered |
| Segmentation.TableStep | frontend/src/App.tsx:76-78 | a table line after any buffered prose that does not trim to nothing emits that prose, joined with newlines and trimmed, as one text segment and opens the table |
| Segmentation.TableRunStep | frontend/src/App.tsx:76-78 | a table line while a table is open joins the table buffer |
| Segmentation.ScannedTableRun | frontend/src/App.tsx:75-78 | a run of table lines while a table is open all join the table buffer, in order, and emit nothing |
| Segmentation.BlankStep | frontend/src/App.tsx:79-80 | a blank line while any table with a kept row is open emits all its kept rows as one table segment and is itself dropped |
| Segmentation.FinishProse | frontend/src/App.tsx:87-88 | with no table open, the final flushes emit any buffered prose that does not trim to nothing as one last text segment, joined with newlines and trimmed |
| Segmentation.ScannedProseTable | frontend/src/App.tsx:75-85 | prose followed by a run of table lines emits the prose and buffers the whole run |
| Segmentation.ScannedProseTableBlank | frontend/src/App.tsx:75-85 | a blank line after that emits the run's kept rows as one table |
| Segmentation.ScannedProseTableProse | frontend/src/App.tsx:75-85 | prose after that blank line starts a new text buffer |
| Segmentation.SegmentsOfLines | frontend/src/App.tsx:53 | segmenting a join of newline-free lines scans exactly those lines |
| Segmentation.SegmentsOfTableOnly | frontend/src/App.tsx:51-91 | a message of table lines only, with a kept row, is one table segment of all its kept rows |
| Segmentation.ProseTableProse | frontend/src/App.tsx:51-91 | prose, a run of table lines with a kept row, a blank line and prose give Text, Table (all the run's kept rows) and Text, in source order |
| Runs.TableRunIsWhole | frontend/src/App.tsx:76-78 | in lines that are all table lines, a non-empty table run spans all of them, so adjacent table lines never end up in two tables |
| Runs.FlushTextTraced | frontend/src/App.tsx:57-64 | `flushText` emits its buffer, the latest lines, all non-table lines, joined with newlines and trimmed as a whole |
| Runs.FlushTableClosing | frontend/src/App.tsx:66-73 | `flushTable` on a non-table line emits the kept rows of the whole run of table lines that the line closes |
| Runs.TableLineTraced | frontend/src/App.tsx:76-78 | a table line closes the text run and extends the run of table lines at the end |
| Runs.BlankLineTraced | frontend/src/App.tsx:79-80 | a blank line with a table open emits that table from its closed run and leaves both buffers empty |
| Runs.ProseLineTraced | frontend/src/App.tsx:81-84 | any other line emits the open table from its closed run and joins the text run |
| Runs.AfterLineTraced | frontend/src/App.tsx:75-85 | each loop step keeps at most one buffer in use, each buffer the run of its kind of line at the end of the lines seen, and every segment from a run of its kind |
| Runs.ScannedTraced | frontend/src/App.tsx:75-85 | that holds after every prefix of the lines |
| Runs.FinalTableFlush | frontend/src/App.tsx:87 | the final `flushTable()` emits the run of table lines that the end of the message closes |
| Runs.FinalTextFlush | frontend/src/App.tsx:88 | the final `flushText()` emits the text run at the end of the message |
| Runs.SegmentsFromRuns | frontend/src/App.tsx:51-91 | every text segment returned is a contiguous run of the message's non-table lines, joined with newlines and trimmed as a whole, so inner blank lines and inner indentation are kept; every table segment is the kept rows of a maximal contiguous run of table lines |
| WorkedMessages.RowOfTwoCells | frontend/src/App.tsx:40-45 | `\| a \| b \|` formats to the cells `a` and `b` |
| WorkedMessages.PaddedRow | frontend/src/App.tsx:40-45 | a row of two trimmed pipe-free cells written with single spaces inside its pipes formats to those two cells |
| WorkedMessages.DividerCells | frontend/src/App.tsx:40-45 | `\| --- \| :---: \|` formats to the cells `---` and `:---:` |
| WorkedMessages.DividerRow | frontend/src/App.tsx:33-35 | `---` and `:---:` make a divider row |
| WorkedMessages.DividerRowDropped | frontend/src/App.tsx:48 | `formatTableRows` drops the divider row `\| --- \| :---: \|` |
| WorkedMessages.DashDividerDropped | frontend/src/App.tsx:33-48 | `formatTableRows` drops the divider row `\| --- \| --- \|` |
| WorkedMessages.HeaderDividerBody | frontend/src/App.tsx:37-49 | a header row, a divider row and a body row give the header and body rows, in order |
| WorkedMessages.RowOfNothing | frontend/src/App.tsx:40-47 | `\| \|` formats to one empty cell, and `formatTableRows` drops it |
| WorkedMessages.TwoRowTable | frontend/src/App.tsx:37-49 | `\| a \| b \|` and `\| 1 \| 2 \|` give both their rows, in order |
| WorkedMessages.EmptyMessage | frontend/src/App.tsx:51-91 | the empty message has no segments |
| WorkedMessages.PipeSpaceMessage | frontend/src/App.tsx:51-91 | the message `\| \|` has no segments: its table has no row with content |
| WorkedMessages.TwoPlainLines | frontend/src/App.tsx:51-91 | two prose lines make one text segment holding both, with the newline between them |
| WorkedMessages.TwoProseLines | frontend/src/App.tsx:51-91 | `hello`, newline, `world` makes the one text segment `hello`, newline, `world` |
| WorkedMessages.TableMessage | frontend/src/App.tsx:51-91 | the message `\| a \| b \|`, `\| --- \| --- \|`, `\| 1 \| 2 \|` is one table segment of the rows `a`, `b` and `1`, `2` |
| WorkedMessages.ProseTableProseMessage | frontend/src/App.tsx:51-91 | the message `intro`, `\| a \| b \|`, `\| 1 \| 2 \|`, an empty line and `outro` gives the text `intro`, a two-row table and the text `outro` |
| Content.NonBlankOfTrim | frontend/src/App.tsx:59 | trimming the joined text does not change its non-blank lines |
| Content.TextBufferItems | frontend/src/App.tsx:59 | buffered prose lines show their non-blank lines, trimmed |
| Content.TableBufferItems | frontend/src/App.tsx:68 | buffered table lines show the rows `formatTableRows` keeps |
| Content.TextRunItems | frontend/src/App.tsx:57-63 | a flushed text run shows what its lines show, or nothing when it trims to nothing |
| Content.TableRunItems | frontend/src/App.tsx:66-72 | a flushed table run shows what its lines show |
| Content.FlushTextItems | frontend/src/App.tsx:57-64 | `flushText` moves the text buffer's content into the segments, losing and adding nothing |
| Content.FlushTableItems | frontend/src/App.tsx:66-73 | `flushTable` moves the table buffer's content into the segments, losing and adding nothing |
| Content.AfterLineItems | frontend/src/App.tsx:75-85 | each loop step adds exactly its line's content after what came before |
| Content.ScannedItems | frontend/src/App.tsx:75-85 | after any prefix of the lines, the segments and the buffers show the prefix's content in order |
| Content.SegmentsPreserveContent | frontend/src/App.tsx:51-91 | read back line by line, the returned segments show each non-blank prose line, trimmed, and every kept table row, in the message's order; nothing else is dropped or added |
| Scanner.Segmenter.constructor | frontend/src/App.tsx:52-55 | the call starts with no segments and two empty buffers |
| Scanner.Segmenter.FlushText | frontend/src/App.tsx:57-64 | the in-place `flushText` updates the state as the specification's flushText does |
| Scanner.Segmenter.FlushTable | frontend/src/App.tsx:66-73 | the in-place `flushTable` updates the state as the specification's flushTable does |
| Scanner.Segmenter.ProcessLine | frontend/src/App.tsx:75-85 | the `forEach` callback updates the state as one step of the specification's fold |
| Scanner.SplitContentSegments | frontend/src/App.tsx:51-91 | the loop returns the specification's segments, every segment is well formed and comes from a contiguous run of the lines, and the segments show the message's lines in order |

## Left out

- The React user interface in the same file is not modelled: the markdown
  components, the `App` component, its state and rendering, and the
  non-breaking-space placeholder for empty cells. It is presentation over
  external libraries.
- The `fetch` call to the back end, the clipboard and timers are not
  modelled. They are I/O.
- The static demo messages `initialMessages` are data, not logic.
- `backend/main.go` is not part of this model. It is an HTTP proxy with no
  segmentation logic.
- JavaScript's regular-expression engine is not modelled. The two
  expressions are stated as predicates on characters and proved equal to
  direct tests.
- JavaScript strings are sequences of UTF-16 code units, while a Dafny
  `char` is a Unicode scalar value. The model treats one `char` as one unit.
  All white-space and pipe characters are single code units, so trimming,
  splitting and the emptiness tests are unaffected.
- `Strings.IsWs` fixes the white-space set to ECMAScript's WhiteSpace and
  LineTerminator code points plus the Unicode Zs category. A JavaScript
  engine built on a different Unicode version could differ on Zs.
- Content.SegmentsPreserveContent reads a text segment back line by line,
  trimming each line and skipping blank ones, so it does not by itself fix
  the text value: inner blank lines and inner indentation are outside what
  it states. `Runs.SegmentsFromRuns` states the exact value, the run's lines
  joined with newlines and trimmed only at the outer ends.
