# timeseries.js container and CSV parser, in Dafny

This project models the core of `timeseries.js`, which has two parts.

**`TimeSeriesData`** (`lib/timeseries.js`) is a time-series container.
- It keeps the same data twice: row-major `rows` and column-major `columns`. Each is rebuilt from the other by transposition with `_.zip`.
- Each column has a stack of mapping functions (transforms). `applyTransforms` re-runs every stack on the current columns.
- `clearTransforms` restores the rows captured at parse time.

**`CSVData.parseData`** (`lib/csv.js`) fills the container from delimited text. It:
- splits the text into lines;
- picks the configured `colSep` or a tab as the column delimiter from the first line;
- chooses a field decoder;
- strips trailing comments and skips blank lines;
- reads a header line when no labels were supplied;
- decodes every other line into `[date, values…]`, grouping values in pairs when error bars are on;
- pushes each cell onto columns created on demand;
- keeps a copy of the rows.

The model has five modules:

- `Cells` (`cells.dfy`) holds the values. A parsed date or number is held as the text passed to the host parser: `Instant(source)` is `new Date(source)` and `Float(source)` is `parseFloat(source)`. `Group(items)` is an array stored in one cell. `Undefined` is the fill `_.zip` uses for short rows.
- `JsString` (`jsstring.dfy`) models `String.prototype.indexOf` and `split` for a string separator, plus the `\s` class of JavaScript regular expressions.
- `TimeSeries` (`timeseries.dfy`) models the container as a class whose methods reassign its fields.
  - `_.zip` is `Zip`. It pads short inputs with `Undefined` up to the longest one; zipping nothing gives nothing.
  - A transform is a Dafny function value called as `Array.prototype.map` calls it: value, index, column.
  - Every method is proved against specification functions: `Zip`, `Transformed`, `Registered`, `Resolved` and `Padded`. The properties the code promises are lemmas about those functions.
- `Csv` (`csv.dfy`) models the parser. The regular expressions become hand-written predicates and functions:
  - `ReplaceDashes` for the dash pattern;
  - `IsBlank` for the blank-line pattern;
  - `StripComment`, via `CommentMatchAt` and `FindComment`, for the comment pattern;
  - `TrimEnd` for the strip pattern.

  `ParseData` is a method with the source's line loop. Its loop invariant ties the container's state to `Run`, a fold of the per-line rule `Step` over the lines read so far. The lemmas about `Run` give the meaning:
  - the header is the first line not skipped;
  - later lines contribute `DataRows`, in order;
  - `columns` are the projections of the rows.
- `Scenarios` (`scenarios.dfy`) holds concrete inputs and call sequences.

Behaviour the model makes explicit:
- The early `return []` of `parseData` (`lib/csv.js:62-64`) can be reached when `parseData` is called directly: `"".split("")` is the empty array, so an empty text with an empty row separator returns it. `ParseReturn.EmptyArray` models it. Through the constructor (`lib/timeseries.js:31-33`) it cannot be reached: only truthy data is parsed, and a non-empty string always splits into at least one line (`Csv.Load`).
- The comment pattern's `.` does not match a carriage return, and `$` is the end of the input. So on a line that still ends in `\r` (CRLF text split on `"\n"`), nothing is stripped: see `Scenarios.CarriageReturnKeepsComment`.
- Registering a second transform re-applies the first one to columns it has already changed: see `TimeSeries.StackReappliesEarlierTransforms` and `Scenarios.RegisterTwice`.
- `parseHiLo` splits on the text of the `customBars` option itself. With `customBars: true` the separator is `"true"`.
- With ragged rows, `applyTransforms` rebuilds `rows` as `Zip` of the ragged columns, so later values move up into earlier rows. `clearTransforms` rebuilds `columns` as `Zip` of the restored rows, which is padded with `Undefined`. `ParseData` builds `columns` by projection instead (`ColumnsOfProjects`). The two agree for rows of one length (`ColumnsOfRectangular`).

## Model

| member | source | states |
|---|---|---|
| TimeSeries.Zip | lib/timeseries.js:79-90 | `_.zip`: as many rows as the longest input, each as long as the number of inputs |
| TimeSeries.ZipTransposes | lib/timeseries.js:79-90 | for a rectangular matrix, `Zip(m)[i][j] == m[j][i]`, with as many rows as `m` has columns |
| TimeSeries.ZipZipRectangular | lib/timeseries.js:79-90 | transposing a non-empty rectangular matrix twice gives it back |
| TimeSeries.ZipIdempotent | lib/timeseries.js:79-90 | after one transposition, two more change nothing, even for ragged input |
| TimeSeries.MapColumn | lib/timeseries.js:116 | `column.map(fn)` keeps the column's length |
| TimeSeries.ApplyAll | lib/timeseries.js:114-117 | mapping a column through its list keeps its length |
| TimeSeries.ApplyAllAppend | lib/timeseries.js:114-117 | running list `a + b` is running `a`, then `b`, on the result: registration order |
| TimeSeries.Transformed | lib/timeseries.js:112-118 | the column count and every column's length are preserved |
| TimeSeries.StackReappliesEarlierTransforms | lib/timeseries.js:110-120 | after registering `f` then `g`, the column is mapped through `f`, `f` again, then `g` |
| TimeSeries.Padded | lib/timeseries.js:94-97 | the `while` loop pushing empty lists until there is one per column; its meaning is `PaddedKeepsRegistered` |
| TimeSeries.PaddedKeepsRegistered | lib/timeseries.js:94-97 | padding reaches at least the column count, keeps every existing list, and adds only empty lists |
| TimeSeries.JsRemainder | lib/timeseries.js:157 | JavaScript `%`: the sign of the dividend, magnitude below the divisor, and the dividend minus the result is a multiple of the divisor |
| TimeSeries.Normalize | lib/timeseries.js:157-160 | the normalised index lies in `[0, n)` and equals the mathematical residue `i mod n` |
| TimeSeries.NormalizeKeepsInRange | lib/timeseries.js:157-160 | in-range indices are unchanged, and `-1` becomes `n - 1` |
| TimeSeries.Range | lib/timeseries.js:150 | `_.range(lo, hi)`: `hi - lo` consecutive integers from `lo` |
| TimeSeries.Requested | lib/timeseries.js:149-154 | the indices before normalisation: `_.range(num_cols)` when omitted, a list of one for a single index, the list itself otherwise; `ResolvedShapes` states the first two after normalisation |
| TimeSeries.Resolved | lib/timeseries.js:149-160 | one resolved index per requested index, each in `[0, n)` |
| TimeSeries.ResolvedShapes | lib/timeseries.js:149-154 | omitted indices mean every column in order; a single index is a one-element list |
| TimeSeries.Registered | lib/timeseries.js:155-162 | registration keeps the number of lists |
| TimeSeries.RegisteredAppends | lib/timeseries.js:155-162 | each list keeps its prefix and gains `fn` once per occurrence of its index; lists not targeted are unchanged |
| TimeSeries.RegisterAll | lib/timeseries.js:155-162 | the registration loop gives exactly `Registered` of the old stack on the resolved indices |
| TimeSeries.DataTargets | lib/timeseries.js:175-178 | registering on `_.range(1, n)` leaves list 0 unchanged and appends `fn` once to every other list |
| TimeSeries.DateView | lib/timeseries.js:98 | `columns[0]`: present exactly when there is a column, and then the first column |
| TimeSeries.DataView | lib/timeseries.js:99 | `columns.slice(1)`: every column after the first, in order, and nothing when there is no column |
| TimeSeries.TimeSeriesData.constructor | lib/timeseries.js:22-29 | the labels are set; all matrices and the stack are empty |
| TimeSeries.TimeSeriesData.RebuildDerived | lib/timeseries.js:94-101 | pads the stack to the column count keeping registered lists; `dateColumn` is column 0 and `dataColumns` the rest; nothing else changes |
| TimeSeries.TimeSeriesData.RebuildData | lib/timeseries.js:79-82 | `rows` becomes `Zip(columns)`, then the derived state is rebuilt |
| TimeSeries.TimeSeriesData.RebuildColumns | lib/timeseries.js:87-90 | `columns` becomes `Zip(rows)`, then the derived state is rebuilt |
| TimeSeries.TimeSeriesData.ApplyTransforms | lib/timeseries.js:110-120 | each column becomes its current value mapped through its list; `rows` is the transpose of the new columns; labels and snapshot are kept |
| TimeSeries.TimeSeriesData.ClearTransforms | lib/timeseries.js:125-129 | every list is empty (one per column); `rows` equals the snapshot, which is unchanged; `columns` is the transpose of `rows` |
| TimeSeries.TimeSeriesData.AddTransform | lib/timeseries.js:142-164 | the stack is the old one with `fn` registered on the normalised indices; the columns are the old columns through the new stack; `rows` is their transpose |
| TimeSeries.TimeSeriesData.AddDataTransform | lib/timeseries.js:175-178 | `addTransform` on columns `1..n-1`; column 0's list is never changed |
| Csv.ReplaceDashes | lib/csv.js:45-47 | every `-` becomes `/`, every other character is kept, and the length is kept |
| Csv.ParseDate | lib/csv.js:45-47 | the host date parser gets the field with no dash left and every other character in place |
| Csv.TrimEnd | lib/csv.js:108-110 | the strip pattern removes trailing whitespace only: a prefix, with only whitespace cut and no whitespace left at its end |
| Csv.IsBlank | lib/csv.js:85 | `BLANK_LINE_PATTERN.test` (the pattern of line 6): only `\s` characters; its partner is `BlankIffTrimmedEmpty` |
| Csv.BlankIffTrimmedEmpty | lib/csv.js:6-8 | a line is blank exactly when the strip pattern trims it to nothing |
| Csv.FindComment | lib/csv.js:7 | the leftmost position where the comment pattern matches through to the end of the line, or none |
| Csv.StripComment | lib/csv.js:83 | `line.replace(COMMENT_PATTERN, '')` keeps a prefix of the line; where it cuts is stated by `StripCommentCuts`, `NoMarkerUnchanged` and `FirstMarkerCut` |
| Csv.StripCommentCuts | lib/csv.js:82-84 | stripping keeps a prefix; any cut starts at a match; the kept text does not end in whitespace |
| Csv.NoMarkerUnchanged | lib/csv.js:82-84 | a line with no `#` or `//` is unchanged |
| Csv.FirstMarkerCut | lib/csv.js:82-84 | on a line without line terminators, the cut is at the first marker with the whitespace run before it |
| Csv.BlankHasNoComment | lib/csv.js:82-87 | a blank line stays blank once comments are stripped |
| Csv.SelectDecoder | lib/csv.js:72-78 | fractions win over custom bars, which win over plain numbers |
| Csv.ParseNumber | lib/csv.js:36-38 | `parseNumber` hands the whole field to `parseFloat` |
| Csv.Decode | lib/csv.js:98 | the chosen `parser` on one field: a plain number keeps the whole field; a hi-lo or fraction decoder gives numbers whose texts, joined with its separator, give back the field |
| Csv.SplitNumbers | lib/csv.js:39-44 | a hi-lo or fraction field is one group with a number per piece |
| Csv.SplitNumbersSources | lib/csv.js:39-44 | the pieces' texts, joined with the separator, give back the field |
| Csv.DecodeAll | lib/csv.js:98 | one decoded cell per field |
| Csv.Pairs | lib/csv.js:111-119 | `ceil(n/2)` groups |
| Csv.PairsShape | lib/csv.js:111-119 | each group holds two cells, except the last, which holds one when the count is odd |
| Csv.PairsFlatten | lib/csv.js:111-119 | flattening the groups gives back the cells |
| Csv.PairsStep | lib/csv.js:111-119 | one more cell completes the last group when it holds fewer than two, and otherwise opens a new group |
| Csv.ErrorBarGroups | lib/csv.js:99-101 | the error-bar `reduce` computes `Pairs` of the decoded fields |
| Csv.AddRow | lib/csv.js:120-125 | pushing a row gives as many columns as the longer of the two |
| Csv.DecodeFields | lib/csv.js:97-102 | a data line's fields become `[parseDate(field 0)] ++ decoded(rest)`, in pairs with error bars |
| Csv.AppendRow | lib/csv.js:103-104 | the row is appended, and the columns stay those built from the rows |
| Csv.PushRow | lib/csv.js:104 | the row's cells are pushed onto their columns, new columns created on demand; nothing else changes |
| Csv.ColumnsOf | lib/csv.js:120-125 | the columns `fields.forEach(__fn2)` (line 104) builds from the rows, one row at a time; their meaning is `ColumnsOfProjects` |
| Csv.ColumnsOfProjects | lib/csv.js:120-125 | column `j` is entry `j` of every row longer than `j`, in row order; the column count is the longest row's length |
| Csv.ColumnsOfRectangular | lib/csv.js:120-125 | for rows of one length, the columns are the transpose of the rows |
| JsString.IsSpace | lib/csv.js:6-8 | the `\s` class: the WhiteSpace and LineTerminator characters of ECMAScript |
| JsString.IndexOf | lib/csv.js:67 | `indexOf`: -1 exactly when there is no occurrence, otherwise the least index where one starts |
| JsString.Split | lib/csv.js:61 | `split` with a string separator, as on lines 40, 43, 61 and 88: at least one piece for a non-empty separator, one piece per character for an empty one |
| JsString.SplitJoin | lib/csv.js:61 | joining the pieces with the separator gives back the text |
| JsString.SplitPiecesFree | lib/csv.js:88 | with a non-empty separator no piece contains it |
| Csv.Delimiter | lib/csv.js:65-69 | the first line selects tab exactly when it has no column separator and has a tab; otherwise the column separator |
| Csv.TrimAll | lib/csv.js:89-93 | one label per header field |
| Csv.ReadLine | lib/csv.js:81-104 | one turn of the line loop moves labels, rows and the header flag exactly as `Step` says, and columns stay those of the rows |
| Csv.Step | lib/csv.js:81-104 | one turn of the line loop: skipped lines change nothing, the first kept line without labels becomes the header, a line of fewer than two fields is dropped, any other adds its row; its partner `StepGrows` |
| Csv.StepGrows | lib/csv.js:81-104 | a turn adds at most one row and none before the header is known; a known header stays; a turn that leaves no header changes nothing |
| Csv.Run | lib/csv.js:80-105 | the line loop as a fold of `Step` in line order; its meaning is `RunGrows`, `RunAfterHeader`, `RunSkipped` and `RunCapturesHeader` |
| Csv.RunGrows | lib/csv.js:80-105 | the loop adds at most one row per line, keeps a known header, and changes nothing while no header has been found |
| Csv.Parsed | lib/csv.js:60-105 | the line fold over the text's lines with the rules fixed from the first line; supplied labels are kept, there are no more rows than lines, and with no header found there are no rows |
| Csv.RunAfterHeader | lib/csv.js:80-105 | once the header is known, labels stay fixed and every line adds its row, if any, in line order |
| Csv.RunSkipped | lib/csv.js:85-87 | skipped lines change neither labels nor rows |
| Csv.RunCapturesHeader | lib/csv.js:89-93 | with no labels supplied, the first line not skipped becomes the header, whatever its field count, and only later lines give rows |
| Csv.BlankLineSkipped | lib/csv.js:82-87 | a blank line, with or without comment stripping, produces neither a label nor a row |
| Csv.DataRowsShape | lib/csv.js:94-103 | every row has a date cell and at least one value, and there are no more rows than lines |
| Csv.DataLineRow | lib/csv.js:94-103 | a data line with two or more fields gives one row: its first cell is the date of field 0 with dashes made slashes; the rest are the decoded remaining fields, or, with error bars, groups that flatten to them |
| Csv.ParseData | lib/csv.js:54-107 | non-string input and a text with no line leave the container untouched; otherwise the labels and rows are those of the line fold, `columns` is built from the rows, and the snapshot equals the rows |
| Csv.Load | lib/timeseries.js:22-34 | constructing from text gives the parsed labels and rows, their columns, the snapshot, one empty list per column, and the derived views |
| Scenarios.TabDetection | lib/csv.js:65-69 | a tab-separated first line selects tab; a comma anywhere in it keeps comma |
| Scenarios.TrailingCommentRemoved | lib/csv.js:82-84 | `2020-01-01,1,2 # note` becomes `2020-01-01,1,2` |
| Scenarios.CarriageReturnKeepsComment | lib/csv.js:7 | a line ending in a line terminator keeps its comment |
| Scenarios.LabelsTrimmed | lib/csv.js:108-110 | labels keep leading whitespace and lose trailing whitespace |
| Scenarios.DashesBecomeSlashes | lib/csv.js:45-47 | `2020-01-31` is parsed as `2020/01/31` |
| Scenarios.FiveValuesInErrorBars | lib/csv.js:111-119 | five values make two pairs and a single |
| Scenarios.CustomBarsSplitOnOptionText | lib/csv.js:72-78 | `customBars: true` splits on `"true"`; fractions override it |
| Scenarios.SuppliedLabelsKept | lib/csv.js:79-93 | supplied labels are never replaced, and every data line gives a row |
| Scenarios.RegisterTwice | lib/timeseries.js:110-120 | two registrations on one column apply `f`, `f`, `g` |
| Scenarios.TransformThenClear | lib/timeseries.js:125-129 | after registrations on every column, on the data columns and on column -1, clearing restores the parsed rows and empties the stack |
| Scenarios.LoadRectangular | lib/csv.js:120-125 | text whose data lines all have the same number of fields loads into columns that transpose its rows |

## Left out

- Host parsing: `parseFloat` and `new Date` are uninterpreted, so a cell records the text handed to the parser. Numeric and date values, `NaN` and invalid dates are not modelled.
- `_.zip`, `_.range`, `_n.merge`, `__import` and `__extend` are library code. `Zip` follows `_.zip` from underscore 1.5 on, where zipping nothing gives an empty array. The deep copies of `_n.merge` are free because sequences are values.
- TimeSeries.Range: follows `_.range` of underscore releases before 1.10, where `_.range(1, 0)` is empty. Later releases infer a step of -1 when the stop is below the start and give `[1]`, so `addDataTransform` on a container with no columns would throw there; that version is not modelled.
- TimeSeries.TimeSeriesData.constructor: models only the state before parsing. Argument shuffling, option merging (`lib/timeseries.js:22-27`) and `types` are not modelled. The prototype's `null` matrices are empty sequences, so the `null.length` crash of `rebuildDerived` without data (a falsy or non-string `data`) is not modelled. `Csv.Load` therefore requires a non-empty text.
- Csv.ParseData: the `this.rawData = rawData` assignment is not modelled. Nothing in the core reads it.
- Csv.ParseData: the options object is the `Options` datatype. `colSep` and `rowSep` are strings; regular-expression separators are not modelled. The comment and blank-line patterns are the built-in defaults; custom `commentPat` and `blankLinePat` are not modelled. A truthy `customBars` is `On(text)`, a falsy one `Off`; a regular-expression `customBars` is not modelled.
- The inert options `customSep`, `defaultType`, `replaceMissing*`, `replaceNaN*` and `padRows*` are never read. `customSep` is kept in `Options` but unused.
- TimeSeries.TimeSeriesData.AddTransform: indices are integers. Non-integer or non-numeric indices are not modelled. With no columns, an explicit index resolves to `NaN` and the registration throws, so the precondition excludes that call.
- TimeSeries.TimeSeriesData.AddTransform: the argument shift when `idx` is a function (`lib/timeseries.js:146-148`) tests a variable that is always undefined there, so it never runs and is not modelled.
- The `ctx` binding of transforms is not modelled. A transform is a pure function of value, index and column.
- The getters, `getData`/`toJSON` (they read `this.data`, which nothing assigns), `toString`, and the base class's `parseData` stub are not modelled.
- There is no Unicode normalisation.
- JsString.Split: a Dafny `char` is a Unicode scalar value, while a JavaScript string is a sequence of UTF-16 code units. On characters outside the Basic Multilingual Plane lengths differ (one `char` against two code units), and `split("")` with an empty `rowSep`, `colSep`, `fractionSep` or `customBars` text gives one piece per character where JavaScript gives one surrogate half per piece. Lone surrogates cannot be represented.
