/** Concrete inputs and call sequences that illustrate the behaviour of the
    parser and of the container. */
module Scenarios {
  import opened Cells
  import opened JsString
  import opened TimeSeries
  import opened Csv

  /** A first line with tabs and no comma selects the tab; a comma anywhere
      in the first line keeps the comma, tabs or not. The example strings are
      parameters fixed by `requires`, here and below, so that the functions
      applied to them are unfolded only as far as each proof needs. */
  lemma TabDetection(tsv: string, csv: string)
    requires tsv == "date\tvalue" && csv == "date,value\tnote"
    ensures Delimiter(tsv, ",") == "\t"
    ensures Delimiter(csv, ",") == ","
  {
    assert OccursAt(csv, ",", 4);
    assert tsv[4] == '\t';
    forall k: nat ensures !OccursAt(tsv, ",", k) {
      if k < |tsv| {
        assert tsv[k..k + 1][0] == tsv[k];
      }
    }
  }

  /** A trailing comment goes together with the blank run before it. */
  lemma TrailingCommentRemoved(s: string, kept: string)
    requires s == "2020-01-01,1,2 # note" && kept == "2020-01-01,1,2"
    ensures StripComment(s) == kept
  {
    CommentExampleMarker(s);
    FirstMarkerCut(s, 15);
    CommentExampleTrim(s, kept);
  }

  lemma CommentExampleMarker(s: string)
    requires s == "2020-01-01,1,2 # note"
    ensures NoLineTerminator(s)
    ensures MarkerAt(s, 15)
    ensures forall q: nat :: q < 15 ==> !MarkerAt(s, q)
  {
    forall q: nat | q < 15 ensures !MarkerAt(s, q) {
      assert s[q] != '#' && s[q] != '/';
    }
  }

  lemma CommentExampleTrim(s: string, kept: string)
    requires s == "2020-01-01,1,2 # note" && kept == "2020-01-01,1,2"
    ensures TrimEnd(s[..15]) == kept
  {
    assert s[..15][..14] == kept;
    assert IsSpace(s[..15][14]);
  }

  /** `.` does not match a carriage return, so on a line that still ends in
      one (text with CRLF line ends split on "\n") no comment is removed. */
  lemma CarriageReturnKeepsComment(s: string)
    requires |s| > 0 && IsLineTerminator(s[|s| - 1])
    ensures StripComment(s) == s
  {
  }

  /** Labels lose their trailing whitespace only. */
  lemma LabelsTrimmed()
    ensures TrimAll([" date ", "value\t"]) == [" date", "value"]
  {
    assert TrimEnd(" date ") == TrimEnd(" date");
    assert TrimEnd("value\t") == TrimEnd("value");
  }

  /** Dates are handed to the host parser with slashes. */
  lemma DashesBecomeSlashes(s: string)
    requires s == "2020-01-31"
    ensures ParseDate(s) == Instant("2020/01/31")
  {
    assert ReplaceDashes(s) == "2020/01/31";
  }

  /** Five values make two pairs and a single. */
  lemma FiveValuesInErrorBars(a: Cell, b: Cell, c: Cell, d: Cell, e: Cell)
    ensures Pairs([a, b, c, d, e]) == [Group([a, b]), Group([c, d]), Group([e])]
  {
    assert [a, b, c, d, e][..2] == [a, b];
    assert [a, b, c, d, e][2..] == [c, d, e];
    assert [c, d, e][..2] == [c, d];
    assert [c, d, e][2..] == [e];
    assert Pairs([e]) == [Group([e])];
    assert Pairs([c, d, e]) == [Group([c, d])] + Pairs([e]);
    assert Pairs([a, b, c, d, e]) == [Group([a, b])] + Pairs([c, d, e]);
  }

  /** A hi-lo field under `customBars: true` is split on the text "true". */
  lemma CustomBarsSplitOnOptionText()
    ensures SelectDecoder(DefaultOptions.(customBars := On("true"))) == HiLo("true")
    ensures SelectDecoder(DefaultOptions.(customBars := On("true"), fractions := true)) == Fraction("/")
  {
  }

  /** With labels supplied, no line is taken as a header, so every data line
      of the text gives a row. */
  lemma SuppliedLabelsKept(r: LineRules, labels: seq<string>, lines: seq<string>)
    requires |labels| != 0
    ensures Run(r, ParseState(true, labels, []), lines).labels == labels
    ensures Run(r, ParseState(true, labels, []), lines).rows == DataRows(r, lines)
  {
    RunAfterHeader(r, ParseState(true, labels, []), lines);
  }

  /** Two registrations on the same column: the second re-applies the first,
      so the column shows `f` applied twice and then `g`. */
  method RegisterTwice(ts: TimeSeriesData, f: Transform, g: Transform)
    requires ts.Valid() && |ts.columns| > 0 && |ts.transforms[0]| == 0
    modifies ts
    ensures |ts.columns| == |old(ts.columns)|
    ensures ts.columns[0] == MapColumn(MapColumn(MapColumn(old(ts.columns)[0], f), f), g)
  {
    ghost var c0 := ts.columns[0];
    ghost var t0 := ts.transforms;
    ResolvedShapes(Single(0), |ts.columns|);
    NormalizeKeepsInRange(0, |ts.columns|);
    RegisteredSingle(t0, 0, f);
    ts.AddTransform(Single(0), f);
    assert ts.transforms[0] == [f];
    ghost var c1 := ts.columns[0];
    assert c1 == ApplyAll(c0, [f]);
    ghost var t1 := ts.transforms;
    ResolvedShapes(Single(0), |ts.columns|);
    RegisteredSingle(t1, 0, g);
    ts.AddTransform(Single(0), g);
    assert ts.transforms[0] == [f, g];
    assert ts.columns[0] == ApplyAll(c1, [f, g]);
    StackReappliesEarlierTransforms(c0, f, g);
  }

  /** A series of registrations followed by `clearTransforms` leaves the
      rows as they were parsed and the stack empty. That holds after any
      series, since `ClearTransforms` has no precondition and
      every mutator keeps `untransformedRows`; this is one such series. */
  method TransformThenClear(ts: TimeSeriesData, f: Transform, g: Transform)
    requires ts.Valid() && |ts.columns| > 0
    modifies ts
    ensures ts.rows == old(ts.untransformedRows) && ts.untransformedRows == old(ts.untransformedRows)
    ensures ts.columns == Zip(ts.rows)
    ensures forall c :: 0 <= c < |ts.transforms| ==> ts.transforms[c] == []
  {
    ts.AddTransform(AllColumns, f);
    ts.AddDataTransform(g);
    ts.AddTransform(Single(-1), f);
    ts.ClearTransforms();
  }

  /** For text whose lines all split into the same number of fields, loading
      gives columns that are the transpose of the rows. */
  method LoadRectangular(text: string, o: Options, labels: seq<string>, width: nat) returns (ts: TimeSeriesData)
    requires text != []
    requires Rectangular(Parsed(o, text, labels).rows, width)
    ensures ts.columns == Zip(ts.rows) && ts.Valid()
  {
    ts := Load(text, o, labels);
    ColumnsOfRectangular(ts.rows, width);
  }
}
