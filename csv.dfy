/** The delimited-text parser: it splits raw text into lines, infers the
    column delimiter, decodes fields, and fills a time-series container's
    labels, rows and columns. */
module Csv {
  import opened Cells
  import opened JsString
  import opened TimeSeries

  /* * * *  Options  * * * */

  /** An option read both for its truthiness and, when it is switched on, as
      a string: the value `true` reads as the text "true". */
  datatype Switch = Off | On(asText: string)

  /** The options the parser reads. The comment and blank-line patterns are
      always the defaults below. */
  datatype Options = Options(
    colSep: string,
    rowSep: string,
    customBars: Switch,
    customSep: string,          // declared with a default, never read
    errorBars: bool,
    fractions: bool,
    fractionSep: string,
    skipBlankLines: bool,
    removeCommentedText: bool)

  const DefaultOptions := Options(",", "\n", Off, ";", false, false, "/", true, true)

  /* * * *  Patterns  * * * */

  /** `s.replace(DASH_PATTERN, '/')`: every dash becomes a slash. */
  function ReplaceDashes(s: string): (r: string)
    ensures |r| == |s|
    ensures forall i :: 0 <= i < |s| ==> r[i] == (if s[i] == '-' then '/' else s[i])
  {
    if s == [] then [] else [if s[0] == '-' then '/' else s[0]] + ReplaceDashes(s[1..])
  }

  /** `BLANK_LINE_PATTERN.test(s)`: nothing but `\s` characters. */
  predicate IsBlank(s: string) {
    forall i :: 0 <= i < |s| ==> IsSpace(s[i])
  }

  /** `s.replace(STRIP_PATTERN, '')`: both alternatives of the pattern are
      anchored at the end, so only trailing whitespace goes. */
  function TrimEnd(s: string): (r: string)
    ensures |r| <= |s| && r == s[..|r|]
    ensures forall i :: |r| <= i < |s| ==> IsSpace(s[i])
    ensures |r| == 0 || !IsSpace(r[|r| - 1])
  {
    if |s| > 0 && IsSpace(s[|s| - 1]) then TrimEnd(s[..|s| - 1]) else s
  }

  /** The end of the whitespace run that starts at `p`. */
  function SkipSpaces(s: string, p: nat): (q: nat)
    requires p <= |s|
    ensures p <= q <= |s|
    ensures forall i :: p <= i < q ==> IsSpace(s[i])
    ensures q == |s| || !IsSpace(s[q])
    decreases |s| - p
  {
    if p < |s| && IsSpace(s[p]) then SkipSpaces(s, p + 1) else p
  }

  /** A comment marker, `#` or `//`, starts at `q`. */
  predicate MarkerAt(s: string, q: nat) {
    q < |s| && (s[q] == '#' || (s[q] == '/' && q + 1 < |s| && s[q + 1] == '/'))
  }

  predicate NoLineTerminator(s: string) {
    forall i :: 0 <= i < |s| ==> !IsLineTerminator(s[i])
  }

  /** `COMMENT_PATTERN` matches from `p` to the end of `s`: a whitespace run, a
      marker, then characters `.` matches up to the end of the input. */
  predicate CommentMatchAt(s: string, p: nat)
    requires p <= |s|
  {
    var q := SkipSpaces(s, p);
    MarkerAt(s, q) && NoLineTerminator(s[q..])
  }

  /** The leftmost position at or after `p` where the pattern matches. */
  function FindComment(s: string, p: nat): (r: Option<nat>)
    requires p <= |s|
    ensures r.Some? ==> p <= r.value < |s| && CommentMatchAt(s, r.value)
    ensures forall k :: p <= k < (if r.Some? then r.value else |s|) ==> !CommentMatchAt(s, k)
    decreases |s| - p
  {
    if p == |s| then None
    else if CommentMatchAt(s, p) then Some(p)
    else FindComment(s, p + 1)
  }

  /** `s.replace(COMMENT_PATTERN, '')`: the text before the leftmost match. */
  function StripComment(s: string): (r: string)
    ensures |r| <= |s| && r == s[..|r|]
  {
    match FindComment(s, 0)
    case Some(p) => s[..p]
    case None => s
  }

  lemma SkipSpacesBack(s: string, p: nat)
    requires 0 < p <= |s| && IsSpace(s[p - 1])
    ensures SkipSpaces(s, p - 1) == SkipSpaces(s, p)
  {
  }

  /** A match preceded by whitespace also matches one position earlier. */
  lemma SpaceBeforeMatch(s: string, p: nat)
    requires 0 < p <= |s| && IsSpace(s[p - 1]) && CommentMatchAt(s, p)
    ensures CommentMatchAt(s, p - 1)
  {
    SkipSpacesBack(s, p);
  }

  /** Stripping keeps a prefix; what it removes is a whitespace run, a marker
      and a rest without line terminators, together with all the whitespace
      before the marker. */
  lemma StripCommentCuts(s: string)
    ensures var r := StripComment(s);
      |r| <= |s| && r == s[..|r|]
    ensures var r := StripComment(s);
      r != s ==> CommentMatchAt(s, |r|) && (|r| == 0 || !IsSpace(r[|r| - 1]))
  {
    match FindComment(s, 0)
    case Some(p) =>
      if p > 0 && IsSpace(s[p - 1]) {
        SpaceBeforeMatch(s, p);
      }
    case None =>
  }

  /** `BLANK_LINE_PATTERN` matches exactly the lines the strip pattern
      trims to nothing. */
  lemma BlankIffTrimmedEmpty(s: string)
    ensures IsBlank(s) <==> TrimEnd(s) == []
  {
  }

  /** A line without a marker is left as it is. */
  lemma NoMarkerUnchanged(s: string)
    requires forall q: nat :: !MarkerAt(s, q)
    ensures StripComment(s) == s
  {
  }

  /** A blank line has no marker, so stripping comments keeps it blank. */
  lemma BlankHasNoComment(s: string)
    requires IsBlank(s)
    ensures StripComment(s) == s
  {
    forall q: nat ensures !MarkerAt(s, q) {
      if q < |s| {
        assert IsSpace(s[q]);
      }
    }
    NoMarkerUnchanged(s);
  }

  /** On a line without line terminators, the cut is at the first marker,
      together with the whitespace run just before it. */
  lemma FirstMarkerCut(s: string, m: nat)
    requires NoLineTerminator(s)
    requires MarkerAt(s, m)
    requires forall q: nat :: q < m ==> !MarkerAt(s, q)
    ensures StripComment(s) == TrimEnd(s[..m])
  {
    var t := TrimEnd(s[..m]);
    var p := |t|;
    assert SkipSpaces(s, p) == m by {
      SkipSpacesTo(s, p, m);
    }
    assert s[m..] == s[m..];
    assert NoLineTerminator(s[m..]);
    assert CommentMatchAt(s, p);
    match FindComment(s, 0)
    case Some(r) =>
      assert r == p;
    case None =>
  }

  lemma {:induction false} SkipSpacesTo(s: string, p: nat, m: nat)
    requires p <= m < |s| && !IsSpace(s[m])
    requires forall i :: p <= i < m ==> IsSpace(s[i])
    ensures SkipSpaces(s, p) == m
    decreases m - p
  {
    if p < m {
      SkipSpacesTo(s, p + 1, m);
    }
  }

  /* * * *  Field decoders  * * * */

  /** The per-field decoder `parseData` picks. */
  datatype Decoder = Number | HiLo(sep: string) | Fraction(sep: string)

  /** The decoder assignments run in source order, so the last one switched
      on wins: fractions before custom bars before plain numbers. Custom bars
      split on the text of the `customBars` option itself. */
  function SelectDecoder(o: Options): (d: Decoder)
    ensures o.fractions ==> d == Fraction(o.fractionSep)
    ensures !o.fractions && o.customBars.On? ==> d == HiLo(o.customBars.asText)
    ensures !o.fractions && o.customBars.Off? ==> d == Number
  {
    var parser := Number;
    var parser' := if o.customBars.On? then HiLo(o.customBars.asText) else parser;
    var parser'' := if o.fractions then Fraction(o.fractionSep) else parser';
    parser''
  }

  /** `parseNumber`: the whole field goes to `parseFloat`. */
  function ParseNumber(s: string): (c: Cell)
    ensures c.Float? && c.source == s
  {
    Float(s)
  }

  /** `parseHiLo` and `parseFraction`: the pieces of `s` between separators,
      each parsed as a number. */
  function SplitNumbers(s: string, sep: string): (c: Cell)
    ensures c.Group? && |c.items| == |Split(s, sep)|
  {
    var parts := Split(s, sep);
    Group(seq(|parts|, i requires 0 <= i < |parts| => ParseNumber(parts[i])))
  }

  /** `parser(s)`: a plain number keeps the whole field; a pair or fraction
      decoder gives numbers whose texts, joined with its separator, are the
      field again. */
  function Decode(d: Decoder, s: string): (c: Cell)
    ensures d.Number? ==> c.Float? && c.source == s
    ensures !d.Number? ==> c.Group? && (forall i :: 0 <= i < |c.items| ==> c.items[i].Float?)
    ensures !d.Number? ==> Join(Sources(c.items), d.sep) == s
  {
    assert !d.Number? ==> var c := SplitNumbers(s, d.sep);
      (forall i :: 0 <= i < |c.items| ==> c.items[i].Float?) && Join(Sources(c.items), d.sep) == s by {
      if !d.Number? {
        SplitNumbersSources(s, d.sep);
      }
    }
    match d
    case Number => ParseNumber(s)
    case HiLo(sep) => SplitNumbers(s, sep)
    case Fraction(sep) => SplitNumbers(s, sep)
  }

  function DecodeAll(d: Decoder, fields: seq<string>): (r: seq<Cell>)
    ensures |r| == |fields|
  {
    seq(|fields|, i requires 0 <= i < |fields| => Decode(d, fields[i]))
  }

  /** The texts a group of parsed numbers was parsed from. */
  function Sources(cells: seq<Cell>): seq<string>
    requires forall i :: 0 <= i < |cells| ==> cells[i].Float?
  {
    seq(|cells|, i requires 0 <= i < |cells| => cells[i].source)
  }

  /** A pair decoder loses no text: the parsed pieces, joined again with the
      separator, give back the field. */
  lemma SplitNumbersSources(s: string, sep: string)
    ensures forall i :: 0 <= i < |SplitNumbers(s, sep).items| ==> SplitNumbers(s, sep).items[i].Float?
    ensures Join(Sources(SplitNumbers(s, sep).items), sep) == s
  {
    assert Sources(SplitNumbers(s, sep).items) == Split(s, sep);
    SplitJoin(s, sep);
  }

  /** `parseDate`: dashes become slashes before host date parsing. */
  function ParseDate(s: string): (c: Cell)
    ensures c.Instant? && |c.source| == |s|
    ensures forall i :: 0 <= i < |s| ==> c.source[i] != '-'
    ensures forall i :: 0 <= i < |s| && s[i] != '-' ==> c.source[i] == s[i]
  {
    Instant(ReplaceDashes(s))
  }

  /* * * *  Error-bar groups  * * * */

  /** Consecutive groups of two cells, the last a group of one when the count
      is odd. */
  function Pairs(vs: seq<Cell>): (r: seq<Cell>)
    ensures |r| == (|vs| + 1) / 2
  {
    if |vs| == 0 then []
    else if |vs| <= 2 then [Group(vs)]
    else [Group(vs[..2])] + Pairs(vs[2..])
  }

  /** The cells of a sequence of groups, in order. */
  function Flatten(gs: seq<Cell>): seq<Cell> {
    if gs == [] then []
    else (if gs[0].Group? then gs[0].items else [gs[0]]) + Flatten(gs[1..])
  }

  /** Every group holds two cells but the last, which holds one when the
      count is odd. */
  lemma {:induction false} PairsShape(vs: seq<Cell>)
    ensures forall i :: 0 <= i < |Pairs(vs)| ==>
      Pairs(vs)[i].Group? && |Pairs(vs)[i].items| == (if i == |Pairs(vs)| - 1 && |vs| % 2 == 1 then 1 else 2)
    decreases |vs|
  {
    if |vs| > 2 {
      PairsShape(vs[2..]);
      assert Pairs(vs)[1..] == Pairs(vs[2..]);
    }
  }

  /** After an even, non-zero count the last group is full. */
  lemma PairsLastFull(vs: seq<Cell>)
    requires |vs| > 0 && |vs| % 2 == 0
    ensures Pairs(vs)[|Pairs(vs)| - 1].Group? && |Pairs(vs)[|Pairs(vs)| - 1].items| == 2
  {
    PairsShape(vs);
  }

  /** Flattening the groups gives back the cells. */
  lemma {:induction false} PairsFlatten(vs: seq<Cell>)
    ensures Flatten(Pairs(vs)) == vs
    decreases |vs|
  {
    if |vs| > 2 {
      PairsFlatten(vs[2..]);
      assert Pairs(vs)[1..] == Pairs(vs[2..]);
      assert vs == vs[..2] + vs[2..];
    } else if |vs| > 0 {
      assert Pairs(vs)[1..] == [];
    }
  }

  lemma {:induction false} PairsAppend(x: seq<Cell>, y: seq<Cell>)
    requires |x| % 2 == 0
    ensures Pairs(x + y) == Pairs(x) + Pairs(y)
    decreases |x|
  {
    if |x| > 0 {
      assert (x + y)[..2] == x[..2];
      assert (x + y)[2..] == x[2..] + y;
      PairsAppend(x[2..], y);
      if |x| == 2 {
        assert x[2..] == [];
        assert x[..2] == x;
        if y == [] {
          assert x + y == x;
        }
      }
    } else {
      assert x + y == y;
    }
  }

  /** After an even count, one more cell opens a new group. */
  lemma PairsSnocEven(vs: seq<Cell>, v: Cell)
    requires |vs| % 2 == 0
    ensures Pairs(vs + [v]) == Pairs(vs) + [Group([v])]
  {
    PairsAppend(vs, [v]);
  }

  /** After an odd count, the last group holds the last cell alone, and one
      more cell completes it. */
  lemma PairsSnocOdd(a: seq<Cell>, u: Cell, v: Cell)
    requires |a| % 2 == 0
    ensures Pairs(a + [u]) == Pairs(a) + [Group([u])]
    ensures Pairs(a + [u] + [v]) == Pairs(a) + [Group([u, v])]
  {
    PairsAppend(a, [u]);
    assert a + [u] + [v] == a + [u, v];
    PairsAppend(a, [u, v]);
  }

  /** One step of the `reduce`, stated with its own test on the last group. */
  lemma PairsStep(vs: seq<Cell>, v: Cell)
    ensures var acc := Pairs(vs);
      Pairs(vs + [v]) ==
        if |acc| > 0 && acc[|acc| - 1].Group? && |acc[|acc| - 1].items| < 2
        then acc[|acc| - 1 := Group(acc[|acc| - 1].items + [v])]
        else acc + [Group([v])]
  {
    if |vs| % 2 == 1 {
      var a, u := vs[..|vs| - 1], vs[|vs| - 1];
      assert vs == a + [u];
      PairsSnocOdd(a, u, v);
      assert [u] + [v] == [u, v];
      assert (Pairs(a) + [Group([u])])[|Pairs(a)| := Group([u, v])] == Pairs(a) + [Group([u, v])];
    } else {
      if |vs| > 0 {
        PairsLastFull(vs);
      }
      PairsSnocEven(vs, v);
    }
  }

  /** The `reduce` of `parseData` with errorBars: it opens a new group unless
      the last one holds fewer than two cells, and adds the cell to it. */
  method ErrorBarGroups(fields: seq<Cell>) returns (acc: seq<Cell>)
    ensures acc == Pairs(fields)
  {
    acc := [];
    for k := 0 to |fields|
      invariant acc == Pairs(fields[..k])
    {
      var v := fields[k];
      PairsStep(fields[..k], v);
      assert fields[..k + 1] == fields[..k] + [v];
      if |acc| > 0 && acc[|acc| - 1].Group? && |acc[|acc| - 1].items| < 2 {
        acc := acc[|acc| - 1 := Group(acc[|acc| - 1].items + [v])];
      } else {
        acc := acc + [Group([v])];
      }
    }
    assert fields[..|fields|] == fields;
  }

  /* * * *  Columns filled row by row  * * * */

  /** The columns after the cells of `row` are pushed onto them, a column
      created for each index not seen before. */
  function AddRow(columns: seq<Column>, row: Row): (r: seq<Column>)
    ensures |r| == if |columns| >= |row| then |columns| else |row|
  {
    seq(if |columns| >= |row| then |columns| else |row|, j requires 0 <= j =>
      (if j < |columns| then columns[j] else []) + (if j < |row| then [row[j]] else []))
  }

  /** The columns built from `rows`, one row at a time. */
  function ColumnsOf(rows: seq<Row>): seq<Column> {
    if rows == [] then [] else AddRow(ColumnsOf(rows[..|rows| - 1]), rows[|rows| - 1])
  }

  lemma ColumnsOfSnoc(rows: seq<Row>, row: Row)
    ensures ColumnsOf(rows + [row]) == AddRow(ColumnsOf(rows), row)
  {
    assert (rows + [row])[..|rows|] == rows;
  }

  /** Entry `j` of every row long enough to have one, in row order. */
  function Project(rows: seq<Row>, j: nat): Column {
    if rows == [] then []
    else (if j < |rows[0]| then [rows[0][j]] else []) + Project(rows[1..], j)
  }

  lemma {:induction false} ProjectSnoc(rows: seq<Row>, row: Row, j: nat)
    ensures Project(rows + [row], j) == Project(rows, j) + (if j < |row| then [row[j]] else [])
    decreases |rows|
  {
    if rows == [] {
      assert [row][1..] == [];
    } else {
      assert (rows + [row])[1..] == rows[1..] + [row];
      ProjectSnoc(rows[1..], row, j);
    }
  }

  lemma MaxLenSnoc(rows: seq<Row>, row: Row)
    ensures MaxLen(rows + [row]) == if MaxLen(rows) >= |row| then MaxLen(rows) else |row|
  {
    var m := MaxLen(rows + [row]);
    var e := if MaxLen(rows) >= |row| then MaxLen(rows) else |row|;
    assert (rows + [row])[|rows|] == row;
    forall j | 0 <= j < |rows| ensures |rows[j]| <= m {
      assert (rows + [row])[j] == rows[j];
    }
    if |rows| > 0 {
      var w :| 0 <= w < |rows| && |rows[w]| == MaxLen(rows);
      assert (rows + [row])[w] == rows[w];
    }
    var w' :| 0 <= w' < |rows| + 1 && |(rows + [row])[w']| == m;
    if w' < |rows| {
      assert (rows + [row])[w'] == rows[w'];
    }
  }

  /** Column `j` holds entry `j` of every row longer than `j`, in row order,
      and there are as many columns as the longest row has cells. */
  lemma {:induction false} ColumnsOfProjects(rows: seq<Row>)
    ensures |ColumnsOf(rows)| == MaxLen(rows)
    ensures forall j :: 0 <= j < |ColumnsOf(rows)| ==> ColumnsOf(rows)[j] == Project(rows, j)
    decreases |rows|
  {
    if rows != [] {
      var init := rows[..|rows| - 1];
      var last := rows[|rows| - 1];
      assert rows == init + [last];
      ColumnsOfProjects(init);
      MaxLenSnoc(init, last);
      forall j | 0 <= j < |ColumnsOf(rows)| ensures ColumnsOf(rows)[j] == Project(rows, j) {
        ProjectSnoc(init, last, j);
        if j >= |ColumnsOf(init)| {
          assert j >= MaxLen(init);
          ProjectBeyond(init, j);
        }
      }
    }
  }

  lemma {:induction false} ProjectBeyond(rows: seq<Row>, j: nat)
    requires j >= MaxLen(rows)
    ensures Project(rows, j) == []
    decreases |rows|
  {
    if rows != [] {
      assert |rows[0]| <= MaxLen(rows);
      assert MaxLen(rows[1..]) <= MaxLen(rows) by {
        forall k | 0 <= k < |rows[1..]| ensures |rows[1..][k]| <= MaxLen(rows) {
          assert rows[1..][k] == rows[k + 1];
        }
        if |rows[1..]| > 0 {
          var w :| 0 <= w < |rows[1..]| && |rows[1..][w]| == MaxLen(rows[1..]);
          assert rows[1..][w] == rows[w + 1];
        }
      }
      ProjectBeyond(rows[1..], j);
    }
  }

  lemma {:induction false} ProjectRectangular(rows: seq<Row>, width: nat, j: nat)
    requires Rectangular(rows, width) && j < width
    ensures Project(rows, j) == seq(|rows|, k requires 0 <= k < |rows| => rows[k][j])
    decreases |rows|
  {
    if rows != [] {
      ProjectRectangular(rows[1..], width, j);
    }
  }

  /** For rows of one length the columns are the transpose of the rows. */
  lemma ColumnsOfRectangular(rows: seq<Row>, width: nat)
    requires Rectangular(rows, width)
    ensures ColumnsOf(rows) == Zip(rows)
  {
    ColumnsOfProjects(rows);
    forall j | 0 <= j < |ColumnsOf(rows)| ensures ColumnsOf(rows)[j] == Zip(rows)[j] {
      if |rows| > 0 {
        assert MaxLen(rows) == width;
      }
      ProjectRectangular(rows, width, j);
    }
  }

  /** `fields.forEach(__fn2)`: pushes each cell of `row` onto its column,
      creating the column the first time an index is seen. */
  method PushRow(ts: TimeSeriesData, row: Row)
    modifies ts
    ensures ts.columns == AddRow(old(ts.columns), row)
    ensures ts.labels == old(ts.labels) && ts.rows == old(ts.rows)
    ensures ts.untransformedRows == old(ts.untransformedRows) && ts.transforms == old(ts.transforms)
    ensures ts.dateColumn == old(ts.dateColumn) && ts.dataColumns == old(ts.dataColumns)
  {
    ghost var start := ts.columns;
    assert AddRow(start, row[..0]) == start by {
      assert forall j :: 0 <= j < |start| ==> AddRow(start, row[..0])[j] == start[j];
    }
    for idx := 0 to |row|
      invariant ts.columns == AddRow(start, row[..idx])
      invariant ts.labels == old(ts.labels) && ts.rows == old(ts.rows)
      invariant ts.untransformedRows == old(ts.untransformedRows) && ts.transforms == old(ts.transforms)
      invariant ts.dateColumn == old(ts.dateColumn) && ts.dataColumns == old(ts.dataColumns)
    {
      if idx >= |ts.columns| {
        ts.columns := ts.columns + [[]];
      }
      ts.columns := ts.columns[idx := ts.columns[idx] + [row[idx]]];
      assert ts.columns == AddRow(start, row[..idx + 1]);
    }
    assert row[..|row|] == row;
  }

  /** `rows.push(fields)` followed by `fields.forEach(__fn2)`: the columns
      stay those built from the rows. */
  method AppendRow(ts: TimeSeriesData, row: Row)
    requires ts.columns == ColumnsOf(ts.rows)
    modifies ts
    ensures ts.rows == old(ts.rows) + [row]
    ensures ts.columns == ColumnsOf(ts.rows)
    ensures ts.labels == old(ts.labels)
    ensures ts.untransformedRows == old(ts.untransformedRows) && ts.transforms == old(ts.transforms)
    ensures ts.dateColumn == old(ts.dateColumn) && ts.dataColumns == old(ts.dataColumns)
  {
    ColumnsOfSnoc(ts.rows, row);
    ts.rows := ts.rows + [row];
    PushRow(ts, row);
  }

  /* * * *  Lines  * * * */

  /** `first.indexOf(colSep) === -1 && first.indexOf('\t') >= 0`: the text is
      taken as tab-separated exactly when its first line has no column
      separator but has a tab. */
  function Delimiter(first: string, colSep: string): (d: string)
    ensures d == if (forall k: nat :: !OccursAt(first, colSep, k)) && (exists k :: 0 <= k < |first| && first[k] == '\t')
                 then "\t" else colSep
  {
    assert (exists k :: 0 <= k < |first| && first[k] == '\t') <==> IndexOf(first, "\t") >= 0 by {
      if exists k :: 0 <= k < |first| && first[k] == '\t' {
        var k :| 0 <= k < |first| && first[k] == '\t';
        assert first[k..k + 1] == "\t";
        assert OccursAt(first, "\t", k);
      }
      if IndexOf(first, "\t") >= 0 {
        var k := IndexOf(first, "\t");
        assert first[k..k + 1] == "\t";
        assert first[k] == '\t';
      }
    }
    if IndexOf(first, colSep) == -1 && IndexOf(first, "\t") >= 0 then "\t" else colSep
  }

  /** What `parseData` fixes once before its loop. */
  datatype LineRules = LineRules(
    delim: string,
    decoder: Decoder,
    errorBars: bool,
    skipBlankLines: bool,
    removeCommentedText: bool)

  function Rules(o: Options, first: string): LineRules {
    LineRules(Delimiter(first, o.colSep), SelectDecoder(o), o.errorBars, o.skipBlankLines, o.removeCommentedText)
  }

  /** The line after comment removal. */
  function Clean(r: LineRules, line: string): string {
    if r.removeCommentedText then StripComment(line) else line
  }

  predicate SkipsLine(r: LineRules, line: string) {
    var l := Clean(r, line);
    r.skipBlankLines && (|l| == 0 || IsBlank(l))
  }

  function Fields(r: LineRules, line: string): seq<string> {
    Split(Clean(r, line), r.delim)
  }

  /** `cols.map(__fn)`: labels lose their trailing whitespace. */
  function TrimAll(fields: seq<string>): (r: seq<string>)
    ensures |r| == |fields|
  {
    seq(|fields|, i requires 0 <= i < |fields| => TrimEnd(fields[i]))
  }

  function Header(r: LineRules, line: string): seq<string> {
    TrimAll(Fields(r, line))
  }

  /** The cells after the date: decoded, then grouped in pairs for error bars. */
  function Values(r: LineRules, fields: seq<string>): seq<Cell>
    requires |fields| >= 1
  {
    var vs := DecodeAll(r.decoder, fields[1..]);
    if r.errorBars then Pairs(vs) else vs
  }

  /** The row of a data line: the parsed date, then the values. */
  function DecodeRow(r: LineRules, fields: seq<string>): Row
    requires |fields| >= 1
  {
    [ParseDate(fields[0])] + Values(r, fields)
  }

  /** `parseDate(cols.shift())`, `cols.map(parser)`, the optional error-bar
      `reduce` and `fields.unshift(date)`: the row of a data line. */
  method DecodeFields(r: LineRules, cols: seq<string>) returns (row: Row)
    requires |cols| > 1
    ensures row == DecodeRow(r, cols)
  {
    var date := ParseDate(cols[0]);
    var fields := DecodeAll(r.decoder, cols[1..]);
    if r.errorBars {
      fields := ErrorBarGroups(fields);
    }
    row := [date] + fields;
  }

  /** What the line loop keeps between lines. */
  datatype ParseState = ParseState(hasHeaders: bool, labels: seq<string>, rows: seq<Row>)

  /** One turn of the line loop. */
  function Step(r: LineRules, st: ParseState, line: string): ParseState {
    if SkipsLine(r, line) then st
    else if !st.hasHeaders then ParseState(true, Header(r, line), st.rows)
    else if |Fields(r, line)| <= 1 then st
    else st.(rows := st.rows + [DecodeRow(r, Fields(r, line))])
  }

  /** A turn adds at most one row, and none before the header is known; a
      known header stays, and a turn that leaves none changes nothing. */
  lemma StepGrows(r: LineRules, st: ParseState, line: string)
    ensures var st' := Step(r, st, line);
      st.rows <= st'.rows && |st'.rows| <= |st.rows| + 1
    ensures !st.hasHeaders ==> Step(r, st, line).rows == st.rows
    ensures var st' := Step(r, st, line);
      st.hasHeaders ==> st'.hasHeaders && st'.labels == st.labels
    ensures !Step(r, st, line).hasHeaders ==> Step(r, st, line) == st
  {
  }

  /** The line loop over `lines`. */
  function Run(r: LineRules, st: ParseState, lines: seq<string>): ParseState {
    if lines == [] then st else Step(r, Run(r, st, lines[..|lines| - 1]), lines[|lines| - 1])
  }

  /** The loop adds at most one row per line and keeps a known header; while
      no header has been found, nothing has changed. */
  lemma {:induction false} RunGrows(r: LineRules, st: ParseState, lines: seq<string>)
    ensures var st' := Run(r, st, lines);
      st.rows <= st'.rows && |st'.rows| <= |st.rows| + |lines|
    ensures var st' := Run(r, st, lines);
      st.hasHeaders ==> st'.hasHeaders && st'.labels == st.labels
    ensures var st' := Run(r, st, lines);
      !st'.hasHeaders ==> st' == st
    decreases |lines|
  {
    if lines != [] {
      RunGrows(r, st, lines[..|lines| - 1]);
      StepGrows(r, Run(r, st, lines[..|lines| - 1]), lines[|lines| - 1]);
    }
  }

  lemma RunPrefix(r: LineRules, st: ParseState, lines: seq<string>, i: nat)
    requires i < |lines|
    ensures Run(r, st, lines[..i + 1]) == Step(r, Run(r, st, lines[..i]), lines[i])
  {
    assert lines[..i + 1][..i] == lines[..i];
  }

  /** The whole of `parseData` on text that splits into at least one line. */
  function Parsed(o: Options, text: string, labels: seq<string>): (st: ParseState)
    requires |Split(text, o.rowSep)| > 0
    ensures |labels| != 0 ==> st.labels == labels
    ensures !st.hasHeaders ==> st.labels == labels && st.rows == []
    ensures |st.rows| <= |Split(text, o.rowSep)|
  {
    var lines := Split(text, o.rowSep);
    RunGrows(Rules(o, lines[0]), ParseState(|labels| != 0, labels, []), lines);
    Run(Rules(o, lines[0]), ParseState(|labels| != 0, labels, []), lines)
  }

  /* * * *  What the line loop computes  * * * */

  /** The row a line contributes once the header is known: none for a skipped
      line or a line of fewer than two fields. */
  function RowFrom(r: LineRules, line: string): seq<Row> {
    if SkipsLine(r, line) || |Fields(r, line)| <= 1 then []
    else [DecodeRow(r, Fields(r, line))]
  }

  /** The rows of the data lines, in line order. */
  function DataRows(r: LineRules, lines: seq<string>): seq<Row> {
    if lines == [] then [] else RowFrom(r, lines[0]) + DataRows(r, lines[1..])
  }

  lemma {:induction false} DataRowsSnoc(r: LineRules, lines: seq<string>, line: string)
    ensures DataRows(r, lines + [line]) == DataRows(r, lines) + RowFrom(r, line)
    decreases |lines|
  {
    if lines == [] {
      assert [line][1..] == [];
    } else {
      assert (lines + [line])[1..] == lines[1..] + [line];
      DataRowsSnoc(r, lines[1..], line);
    }
  }

  lemma {:induction false} RunAppend(r: LineRules, st: ParseState, a: seq<string>, b: seq<string>)
    ensures Run(r, st, a + b) == Run(r, Run(r, st, a), b)
    decreases |b|
  {
    if b == [] {
      assert a + b == a;
    } else {
      var init := b[..|b| - 1];
      assert (a + b)[..|a + b| - 1] == a + init;
      RunAppend(r, st, a, init);
    }
  }

  /** Once the header is known, labels stay as they are and every line adds
      its row, if any, in order. */
  lemma {:induction false} RunAfterHeader(r: LineRules, st: ParseState, lines: seq<string>)
    requires st.hasHeaders
    ensures Run(r, st, lines) == st.(rows := st.rows + DataRows(r, lines))
    decreases |lines|
  {
    if lines == [] {
      assert st.rows + [] == st.rows;
    } else {
      var init := lines[..|lines| - 1];
      var last := lines[|lines| - 1];
      assert lines == init + [last];
      RunAfterHeader(r, st, init);
      DataRowsSnoc(r, init, last);
    }
  }

  lemma {:induction false} RunSkipped(r: LineRules, st: ParseState, lines: seq<string>)
    requires forall k :: 0 <= k < |lines| ==> SkipsLine(r, lines[k])
    ensures Run(r, st, lines) == st
    decreases |lines|
  {
    if lines != [] {
      RunSkipped(r, st, lines[..|lines| - 1]);
    }
  }

  /** Without supplied labels, the first line not skipped becomes the header,
      whatever its fields, and only the lines after it give rows. */
  lemma RunCapturesHeader(r: LineRules, st: ParseState, lines: seq<string>, k: nat)
    requires !st.hasHeaders
    requires k < |lines| && !SkipsLine(r, lines[k])
    requires forall j :: 0 <= j < k ==> SkipsLine(r, lines[j])
    ensures Run(r, st, lines) == ParseState(true, Header(r, lines[k]), st.rows + DataRows(r, lines[k + 1..]))
  {
    assert lines == lines[..k] + [lines[k]] + lines[k + 1..];
    RunAppend(r, st, lines[..k] + [lines[k]], lines[k + 1..]);
    RunAppend(r, st, lines[..k], [lines[k]]);
    RunSkipped(r, st, lines[..k]);
    assert Run(r, st, [lines[k]]) == Step(r, Run(r, st, []), lines[k]) by {
      assert [lines[k]][..0] == [];
    }
    assert Run(r, st, lines[..k] + [lines[k]]) == ParseState(true, Header(r, lines[k]), st.rows) by {
      assert Run(r, Run(r, st, lines[..k]), [lines[k]]) == Step(r, st, lines[k]) by {
        assert [lines[k]][..0] == [];
      }
    }
    RunAfterHeader(r, ParseState(true, Header(r, lines[k]), st.rows), lines[k + 1..]);
  }

  /** A skipped line, blank once comments are gone, changes nothing. */
  lemma BlankLineSkipped(r: LineRules, st: ParseState, line: string)
    requires r.skipBlankLines && IsBlank(line)
    ensures Step(r, st, line) == st
  {
    if r.removeCommentedText {
      BlankHasNoComment(line);
    }
  }

  /** Every data row holds a date and at least one value; its first cell is
      the date field with dashes made slashes. */
  lemma {:induction false} DataRowsShape(r: LineRules, lines: seq<string>)
    ensures forall i :: 0 <= i < |DataRows(r, lines)| ==>
      |DataRows(r, lines)[i]| >= 2 && DataRows(r, lines)[i][0].Instant?
    ensures |DataRows(r, lines)| <= |lines|
    decreases |lines|
  {
    if lines != [] {
      DataRowsShape(r, lines[1..]);
      var head := RowFrom(r, lines[0]);
      if head != [] {
        var fields := Fields(r, lines[0]);
        assert |DecodeAll(r.decoder, fields[1..])| >= 1;
        assert |Values(r, fields)| >= 1;
      }
      assert DataRows(r, lines) == head + DataRows(r, lines[1..]);
    }
  }

  /** A data line with at least two fields gives exactly one row: the first
      field, dashes made slashes, as a date, then the other fields decoded in
      order, grouped in pairs when error bars are on. */
  lemma DataLineRow(r: LineRules, line: string)
    requires !SkipsLine(r, line) && |Fields(r, line)| >= 2
    ensures RowFrom(r, line) == [[ParseDate(Fields(r, line)[0])] + Values(r, Fields(r, line))]
    ensures var f := Fields(r, line); var row := RowFrom(r, line)[0];
      row[0] == Instant(ReplaceDashes(f[0]))
      && (!r.errorBars ==> row[1..] == DecodeAll(r.decoder, f[1..]))
      && (r.errorBars ==> Flatten(row[1..]) == DecodeAll(r.decoder, f[1..]))
  {
    var f := Fields(r, line);
    var row := RowFrom(r, line)[0];
    assert row[1..] == Values(r, f);
    if r.errorBars {
      PairsFlatten(DecodeAll(r.decoder, f[1..]));
    }
  }

  /* * * *  parseData  * * * */

  /** The raw data handed to `parseData`, a string or any other value. */
  datatype RawData = Text(text: string) | NotText

  /** What `parseData` returns: the instance, or, when the text splits into
      no line at all, an empty array. */
  datatype ParseReturn = This | EmptyArray

  /** One turn of `parseData`'s line loop, `continue` being a return. */
  method ReadLine(ts: TimeSeriesData, rules: LineRules, hasHeaders: bool, rawLine: string) returns (hasHeaders': bool)
    requires ts.columns == ColumnsOf(ts.rows)
    modifies ts
    ensures ParseState(hasHeaders', ts.labels, ts.rows) == Step(rules, ParseState(hasHeaders, old(ts.labels), old(ts.rows)), rawLine)
    ensures ts.columns == ColumnsOf(ts.rows)
    ensures ts.untransformedRows == old(ts.untransformedRows) && ts.transforms == old(ts.transforms)
    ensures ts.dateColumn == old(ts.dateColumn) && ts.dataColumns == old(ts.dataColumns)
  {
    hasHeaders' := hasHeaders;
    var line := rawLine;
    if rules.removeCommentedText {
      line := StripComment(line);
    }
    if rules.skipBlankLines && (|line| == 0 || IsBlank(line)) {
      return;
    }
    var cols := Split(line, rules.delim);
    if !hasHeaders' {
      hasHeaders' := true;
      ts.labels := TrimAll(cols);
      return;
    }
    if !(|cols| > 1) {
      return;
    }
    var row := DecodeFields(rules, cols);
    AppendRow(ts, row);
  }

  /** `parseData(rawData)`: fills labels, rows, columns and the rows snapshot
      of `ts` from the text. */
  method ParseData(ts: TimeSeriesData, o: Options, rawData: RawData) returns (result: ParseReturn)
    modifies ts
    ensures rawData.NotText? ==> result == This && unchanged(ts)
    ensures rawData.Text? && |Split(rawData.text, o.rowSep)| == 0 ==> result == EmptyArray && unchanged(ts)
    ensures rawData.Text? && |Split(rawData.text, o.rowSep)| > 0 ==>
      && result == This
      && var st := Parsed(o, rawData.text, old(ts.labels));
      && ts.labels == st.labels
      && ts.rows == st.rows
      && ts.columns == ColumnsOf(ts.rows)
      && ts.untransformedRows == ts.rows
    ensures ts.transforms == old(ts.transforms)
    ensures ts.dateColumn == old(ts.dateColumn) && ts.dataColumns == old(ts.dataColumns)
  {
    if !rawData.Text? {
      return This;
    }
    var lines := Split(rawData.text, o.rowSep);
    if |lines| == 0 {
      return EmptyArray;
    }
    var first := lines[0];
    var delim := o.colSep;
    if IndexOf(first, delim) == -1 && IndexOf(first, "\t") >= 0 {
      delim := "\t";
    }
    ts.rows := [];
    ts.columns := [];
    var parser := SelectDecoder(o);
    var rules := LineRules(delim, parser, o.errorBars, o.skipBlankLines, o.removeCommentedText);
    assert rules == Rules(o, first);
    ghost var init := ParseState(|old(ts.labels)| != 0, old(ts.labels), []);
    var hasHeaders := |ts.labels| != 0;
    for i := 0 to |lines|
      invariant ParseState(hasHeaders, ts.labels, ts.rows) == Run(rules, init, lines[..i])
      invariant ts.columns == ColumnsOf(ts.rows)
      invariant ts.transforms == old(ts.transforms)
      invariant ts.dateColumn == old(ts.dateColumn) && ts.dataColumns == old(ts.dataColumns)
    {
      RunPrefix(rules, init, lines, i);
      hasHeaders := ReadLine(ts, rules, hasHeaders, lines[i]);
    }
    assert lines[..|lines|] == lines;
    ts.untransformedRows := ts.rows;
    return This;
  }

  /** Constructing a container from text: `parseData` on the text, then
      `rebuildDerived`. An empty text is never parsed by the constructor. */
  method Load(text: string, o: Options, labels: seq<string>) returns (ts: TimeSeriesData)
    requires text != []
    ensures |Split(text, o.rowSep)| > 0
    ensures ts.labels == Parsed(o, text, labels).labels
    ensures ts.rows == Parsed(o, text, labels).rows
    ensures ts.columns == ColumnsOf(ts.rows)
    ensures ts.untransformedRows == ts.rows
    ensures ts.transforms == Repeat([], |ts.columns|)
    ensures ts.Valid()
  {
    ts := new TimeSeriesData(labels);
    var _ := ParseData(ts, o, Text(text));
    ts.RebuildDerived();
  }
}
