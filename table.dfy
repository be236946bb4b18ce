/** The table side of the segmentation engine (frontend/src/App.tsx): the line
    classifier TABLE_LINE_REGEX, the divider-row test isSeparatorRow and the
    row formatter formatTableRows. The two regular expressions are given twice:
    as the decomposition of the string that the expression describes (a ghost
    predicate) and as a direct test on characters, proved to agree. */
module TableRows {
  import opened Strings
  import opened Seqs

  // ---------------------------------------------------------------------------
  // Line classifier: /^\s*\|.*\|\s*$/ applied to line.trim()
  // ---------------------------------------------------------------------------

  /** `s` reads as `\s*` up to `i`, a pipe at `i`, anything but a line
      terminator (`.*`) strictly between, a pipe at `j`, then `\s*` to the end. */
  predicate TableLineSplit(s: String, i: int, j: int) {
    0 <= i < j < |s| && WsIn(s, 0, i) && s[i] == '|'
    && (forall k :: i < k < j ==> !IsLineTerminator(s[k]))
    && s[j] == '|' && WsIn(s, j + 1, |s|)
  }

  /** What the regular expression `^\s*\|.*\|\s*$` accepts (no flags: `^` and
      `$` are the ends of the string, `.` excludes line terminators). */
  ghost predicate MatchesTableLineRegex(s: String) {
    exists i, j :: TableLineSplit(s, i, j)
  }

  /** The engine's test `TABLE_LINE_REGEX.test(line.trim())`, decided on the
      trimmed line: at least two characters, a pipe at each end and no line
      terminator in between. */
  predicate IsTableLine(line: String) {
    var t := Trim(line);
    |t| >= 2 && t[0] == '|' && t[|t| - 1] == '|'
    && forall k :: 0 < k < |t| - 1 ==> !IsLineTerminator(t[k])
  }

  /** The direct test and the regular expression agree on every line. As a
      consequence an all-white-space line is never table-like (its trim is
      empty). */
  lemma TableLineMatchesRegex(line: String)
    ensures IsTableLine(line) <==> MatchesTableLineRegex(Trim(line))
    ensures AllWs(line) ==> !IsTableLine(line)
  {
    var t := Trim(line);
    TrimEmpty(line);
    if IsTableLine(line) {
      assert t[..0] == [] && t[|t|..] == [];
      assert TableLineSplit(t, 0, |t| - 1);
    }
    if MatchesTableLineRegex(t) {
      var i, j :| TableLineSplit(t, i, j);
      assert i == 0;
      assert j == |t| - 1;
    }
  }

  /** Worked cases: a lone pipe is not a table line, two pipes are, and a
      line must begin with its pipe. */
  lemma TableLineExamples()
    ensures !IsTableLine("|")
    ensures IsTableLine("||")
    ensures !IsTableLine("a | b |")
  {
  }

  // ---------------------------------------------------------------------------
  // Separator predicate: cells.length > 0 && every cell.trim() matches
  // /^:?\s*-+\s*:?$/
  // ---------------------------------------------------------------------------

  predicate OptColon(s: String) {
    s == [] || s == [':']
  }

  predicate AllDashes(s: String) {
    forall k :: 0 <= k < |s| ==> s[k] == '-'
  }

  /** `c` reads as `:?` up to `i`, `\s*` up to `j`, `-+` up to `k`, `\s*` up to
      `l` and `:?` to the end. */
  predicate SeparatorSplit(c: String, i: int, j: int, k: int, l: int) {
    0 <= i <= j < k <= l <= |c| && OptColon(c[..i]) && WsIn(c, i, j)
    && (forall t :: j <= t < k ==> c[t] == '-') && WsIn(c, k, l) && OptColon(c[l..])
  }

  /** What the regular expression `^:?\s*-+\s*:?$` accepts. */
  ghost predicate MatchesSeparatorRegex(c: String) {
    exists i, j, k, l :: SeparatorSplit(c, i, j, k, l)
  }

  /** Where the cell's text begins once an optional leading colon is skipped. */
  function ColonStart(c: String): (i: nat)
    ensures i <= |c|
  {
    if |c| > 0 && c[0] == ':' then 1 else 0
  }

  /** Where the cell's text ends once an optional trailing colon is skipped. */
  function ColonEnd(c: String): (l: nat)
    ensures ColonStart(c) <= l <= |c|
  {
    if |c| > ColonStart(c) && c[|c| - 1] == ':' then |c| - 1 else |c|
  }

  /** A divider cell, tested directly: without its optional colons and its
      inner white space, the cell is a non-empty run of dashes. */
  predicate IsSeparatorCell(c: String) {
    var core := Trim(c[ColonStart(c)..ColonEnd(c)]);
    |core| > 0 && AllDashes(core)
  }

  lemma SeparatorCellToRegex(c: String)
    requires IsSeparatorCell(c)
    ensures MatchesSeparatorRegex(c)
  {
    var a, e := ColonStart(c), ColonEnd(c);
    var core := Trim(c[a..e]);
    var j := a + Lead(c[a..e]);
    var k := j + |core|;
    TrimShapeIn(c, a, e);
    forall t | j <= t < k ensures c[t] == '-' {
      assert core[t - j] == c[t];
    }
    assert OptColon(c[..a]) by {
      assert a == 1 ==> c[..a] == [c[0]];
    }
    assert OptColon(c[e..]) by {
      assert e == |c| - 1 ==> c[e..] == [c[|c| - 1]];
    }
    assert SeparatorSplit(c, a, j, k, e);
  }

  /** In a divider split, the optional colons are exactly where ColonStart
      and ColonEnd put them. */
  lemma SplitColons(c: String, i: int, j: int, k: int, l: int)
    requires SeparatorSplit(c, i, j, k, l)
    ensures ColonStart(c) == i && ColonEnd(c) == l
  {
  }

  /** In a divider split, the text between the colons trims to the dashes. */
  lemma SplitCore(c: String, i: int, j: int, k: int, l: int)
    requires SeparatorSplit(c, i, j, k, l)
    ensures Trim(c[i..l]) == c[j..k]
  {
    var w1, m, w2 := c[i..j], c[j..k], c[k..l];
    assert AllWs(w1) && AllWs(w2);
    assert m[0] == c[j] && m[|m| - 1] == c[k - 1];
    SliceSplit(c, i, j, k, l);
    TrimOfPadded(w1, m, w2);
  }

  lemma RegexToSeparatorCell(c: String, i: int, j: int, k: int, l: int)
    requires SeparatorSplit(c, i, j, k, l)
    ensures IsSeparatorCell(c)
  {
    SplitColons(c, i, j, k, l);
    SplitCore(c, i, j, k, l);
    assert AllDashes(c[j..k]);
  }

  /** The direct test of a divider cell and the regular expression agree. */
  lemma SeparatorCellMatchesRegex(c: String)
    ensures IsSeparatorCell(c) <==> MatchesSeparatorRegex(c)
  {
    if IsSeparatorCell(c) {
      SeparatorCellToRegex(c);
    }
    if MatchesSeparatorRegex(c) {
      var i, j, k, l :| SeparatorSplit(c, i, j, k, l);
      RegexToSeparatorCell(c, i, j, k, l);
    }
  }

  /** isSeparatorRow: a non-empty row whose every trimmed cell is a divider cell. */
  predicate IsSeparatorRow(cells: seq<String>) {
    |cells| > 0 && forall k :: 0 <= k < |cells| ==> IsSeparatorCell(Trim(cells[k]))
  }

  /** isSeparatorRow agrees with its regular expression, and a row with an
      empty cell is never a divider row. */
  lemma SeparatorRowMatchesRegex(cells: seq<String>)
    ensures IsSeparatorRow(cells) <==>
      |cells| > 0 && forall k :: 0 <= k < |cells| ==> MatchesSeparatorRegex(Trim(cells[k]))
    ensures (exists k :: 0 <= k < |cells| && Trim(cells[k]) == []) ==> !IsSeparatorRow(cells)
  {
    forall k | 0 <= k < |cells| {
      SeparatorCellMatchesRegex(Trim(cells[k]));
    }
    assert ColonEnd([]) == 0;
  }

  /** Worked cases of divider cells: dashes with optional colons and inner
      spacing. */
  lemma SeparatorCellExamples()
    ensures IsSeparatorCell(":---:")
    ensures IsSeparatorCell(": - ")
  {
    RegexToSeparatorCell(":---:", 1, 1, 4, 4);
    RegexToSeparatorCell(": - ", 1, 2, 3, 4);
  }

  /** Worked cases of rows that are not divider rows: the empty row, a row with
      an empty cell, a row of text, a lone colon. */
  lemma SeparatorRowExamples()
    ensures !IsSeparatorRow([])
    ensures !IsSeparatorRow(["---", ""])
    ensures !IsSeparatorRow(["a"])
    ensures !IsSeparatorRow([":"])
  {
    assert ["---", ""][1] == "";
    assert ColonEnd("") == 0;
    assert ColonEnd("a") == 1;
    assert "a"[0..1] == "a";
    TrimOfTrimmed("a");
    assert ["a"][0] == "a";
    TrimOfTrimmed(":");
    assert [":"][0] == ":";
    assert ColonEnd(":") == 1;
    assert ":"[1..1] == [];
  }

  // ---------------------------------------------------------------------------
  // Row formatter
  // ---------------------------------------------------------------------------

  /** `.replace(/^\|/, '').replace(/\|$/, '')`: one leading pipe, then one
      trailing pipe of what is left, are dropped. */
  function StripPipes(t: String): String {
    var a := if |t| > 0 && t[0] == '|' then t[1..] else t;
    if |a| > 0 && a[|a| - 1] == '|' then a[..|a| - 1] else a
  }

  /** Every cell is trimmed and holds no pipe. */
  predicate IsCleanRow(row: seq<String>) {
    forall k :: 0 <= k < |row| ==> IsTrimmed(row[k]) && '|' !in row[k]
  }

  /** One table line as a row: trimmed, outer pipes dropped, split on every
      remaining pipe, each cell trimmed. */
  function FormatRow(line: String): seq<String> {
    var cells := Split(StripPipes(Trim(line)), '|');
    seq(|cells|, k requires 0 <= k < |cells| => Trim(cells[k]))
  }

  /** Every cell is trimmed and holds no pipe, and there is one cell more than
      there are inner pipes. */
  lemma FormatRowClean(line: String)
    ensures |FormatRow(line)| == Count(StripPipes(Trim(line)), '|') + 1
    ensures IsCleanRow(FormatRow(line))
  {
    var cells := Split(StripPipes(Trim(line)), '|');
    SplitPieces(StripPipes(Trim(line)), '|');
    var row := FormatRow(line);
    forall k | 0 <= k < |row| ensures IsTrimmed(row[k]) && '|' !in row[k] {
      TrimKeepsAbsent(cells[k], '|');
    }
  }

  /** A table line yields one cell fewer than its trimmed form has pipes;
      rows are not padded to a common width. */
  lemma FormatRowCellCount(line: String)
    requires IsTableLine(line)
    ensures |FormatRow(line)| == Count(Trim(line), '|') - 1
  {
    var t := Trim(line);
    FormatRowClean(line);
    var inner := t[1..|t| - 1];
    assert StripPipes(t) == inner;
    assert t == ['|'] + inner + ['|'];
    CountConcat(['|'] + inner, ['|'], '|');
    CountConcat(['|'], inner, '|');
  }

  /** `cells.some((cell) => cell.length)`. */
  predicate HasContent(row: seq<String>) {
    exists k :: 0 <= k < |row| && row[k] != []
  }

  predicate NotSeparator(row: seq<String>) {
    !IsSeparatorRow(row)
  }

  /** The rows formatTableRows keeps. */
  predicate IsKept(row: seq<String>) {
    HasContent(row) && !IsSeparatorRow(row)
  }

  /** The `map` step of formatTableRows: every line formatted, in order. */
  function FormatAll(lines: seq<String>): seq<seq<String>> {
    Map(lines, FormatRow)
  }

  /** formatTableRows: format every line, then drop the rows without content,
      then drop the divider rows. It never yields more rows than lines. */
  function FormatTableRows(lines: seq<String>): (rows: seq<seq<String>>)
    ensures |rows| <= |lines|
  {
    Filter(Filter(FormatAll(lines), HasContent), NotSeparator)
  }

  /** Every row formatTableRows returns has content, is not a divider, and
      has trimmed, pipe-free cells. */
  lemma FormatTableRowsKept(lines: seq<String>)
    ensures var rows := FormatTableRows(lines);
      forall r :: 0 <= r < |rows| ==> IsKept(rows[r]) && IsCleanRow(rows[r])
  {
    var formatted := FormatAll(lines);
    var withContent := Filter(formatted, HasContent);
    var rows := Filter(withContent, NotSeparator);
    FilterSpec(formatted, HasContent);
    FilterSpec(withContent, NotSeparator);
    forall r | 0 <= r < |rows| ensures IsKept(rows[r]) && IsCleanRow(rows[r]) {
      assert rows[r] in withContent;
      var w :| 0 <= w < |withContent| && withContent[w] == rows[r];
      assert withContent[w] in formatted;
      var i :| 0 <= i < |formatted| && formatted[i] == rows[r];
      FormatRowClean(lines[i]);
    }
  }

  /** formatTableRows treats each line on its own: the rows of a
      concatenation are the rows of the parts, in order. */
  lemma FormatTableRowsAppend(a: seq<String>, b: seq<String>)
    ensures FormatTableRows(a + b) == FormatTableRows(a) + FormatTableRows(b)
  {
    var fa, fb := FormatAll(a), FormatAll(b);
    MapAppend(a, b, FormatRow);
    FilterAppend(fa, fb, HasContent);
    FilterAppend(Filter(fa, HasContent), Filter(fb, HasContent), NotSeparator);
  }

  /** One line gives its formatted row exactly when that row has content and
      is not a divider row, and nothing otherwise. */
  lemma FormatTableRowsSingle(line: String)
    ensures FormatTableRows([line]) ==
      if IsKept(FormatRow(line)) then [FormatRow(line)] else []
  {
  }

  /** What formatTableRows keeps of one line: its row, or nothing. */
  function KeptRow(line: String): seq<seq<String>> {
    if IsKept(FormatRow(line)) then [FormatRow(line)] else []
  }

  /** formatTableRows removes exactly the contentless rows and the divider
      rows: every other row survives, unchanged and in the order of its line. */
  lemma {:induction false} FormatTableRowsAsKept(lines: seq<String>)
    ensures FormatTableRows(lines) == FlatMap(lines, KeptRow)
  {
    if lines != [] {
      var init, last := lines[..|lines| - 1], lines[|lines| - 1];
      FormatTableRowsAsKept(init);
      InitLast(lines);
      FormatTableRowsAppend(init, [last]);
      FormatTableRowsSingle(last);
    }
  }
}
