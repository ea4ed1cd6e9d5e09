/** The time-series container: a row-major matrix `rows` and a column-major
    matrix `columns` kept in step by transposition, a per-column stack of
    transforms, and the date and data views of the columns. */
module TimeSeries {
  import opened Cells

  /* * * *  Transposition (`_.zip`)  * * * */

  /** The length of the longest line of `m` (0 for no lines). */
  function MaxLen<T>(m: seq<seq<T>>): (r: nat)
    ensures forall j :: 0 <= j < |m| ==> |m[j]| <= r
    ensures |m| > 0 ==> exists j :: 0 <= j < |m| && |m[j]| == r
    ensures |m| == 0 ==> r == 0
  {
    if |m| == 0 then 0
    else
      var rest := MaxLen(m[1..]);
      if |m[0]| >= rest then |m[0]| else rest
  }

  /** Every line of `m` has `width` entries. */
  ghost predicate Rectangular<T>(m: seq<seq<T>>, width: nat) {
    forall j :: 0 <= j < |m| ==> |m[j]| == width
  }

  /** `_.zip.apply(_, m)`: entry `i` collects entry `i` of every line of `m`,
      as many entries as the longest line has, and a line too short to have
      one contributes `undefined`. */
  function Zip(m: seq<seq<Cell>>): (z: seq<seq<Cell>>)
    ensures |z| == MaxLen(m)
    ensures Rectangular(z, |m|)
  {
    seq(MaxLen(m), i requires 0 <= i => seq(|m|, j requires 0 <= j < |m| => if i < |m[j]| then m[j][i] else Undefined))
  }

  /** On a rectangular matrix `Zip` is the transpose. */
  lemma ZipTransposes(m: seq<seq<Cell>>, width: nat)
    requires Rectangular(m, width) && |m| > 0
    ensures |Zip(m)| == width
    ensures forall i, j :: 0 <= i < width && 0 <= j < |m| ==> Zip(m)[i][j] == m[j][i]
  {
  }

  /** Transposing a non-degenerate rectangular matrix twice gives it back. */
  lemma ZipZipRectangular(m: seq<seq<Cell>>, width: nat)
    requires Rectangular(m, width) && |m| > 0 && width > 0
    ensures Zip(Zip(m)) == m
  {
    var z := Zip(m);
    assert |z| == width;
    assert MaxLen(z) == |m|;
    var zz := Zip(z);
    assert |zz| == |m|;
    forall j | 0 <= j < |m|
      ensures zz[j] == m[j]
    {
      assert |zz[j]| == width;
      forall i | 0 <= i < width
        ensures zz[j][i] == m[j][i]
      {
        assert zz[j][i] == z[i][j];
      }
    }
  }

  /** Transposing three times is transposing once, whatever the shape: the
      second transposition only pads ragged lines with `undefined`. */
  lemma ZipIdempotent(m: seq<seq<Cell>>)
    ensures Zip(Zip(Zip(m))) == Zip(m)
  {
    var z := Zip(m);
    if |z| == 0 {
      assert MaxLen(z) == 0;
      assert Zip(z) == [];
      assert MaxLen(Zip(z)) == 0;
    } else {
      assert |m| > 0;
      ZipZipRectangular(z, |m|);
    }
  }

  /* * * *  Transforms  * * * */

  /** A mapping function as `Array.prototype.map` calls it:
      `(value, index, column) -> new value`. */
  type Transform = (Cell, nat, Column) -> Cell

  /** `column.map(fn)`. */
  function MapColumn(column: Column, fn: Transform): (r: Column)
    ensures |r| == |column|
  {
    seq(|column|, i requires 0 <= i < |column| => fn(column[i], i, column))
  }

  /** A column mapped through `fns`, first registered first. */
  function ApplyAll(column: Column, fns: seq<Transform>): (r: Column)
    ensures |r| == |column|
  {
    if |fns| == 0 then column
    else MapColumn(ApplyAll(column, fns[..|fns| - 1]), fns[|fns| - 1])
  }

  /** Running the stack `a + b` is running `a`, then running `b` on the
      result: the functions apply in registration order. */
  lemma {:induction false} ApplyAllAppend(column: Column, a: seq<Transform>, b: seq<Transform>)
    ensures ApplyAll(column, a + b) == ApplyAll(ApplyAll(column, a), b)
    decreases |b|
  {
    if |b| == 0 {
      assert a + b == a;
    } else {
      assert (a + b)[..|a + b| - 1] == a + b[..|b| - 1];
      ApplyAllAppend(column, a, b[..|b| - 1]);
    }
  }

  /** The columns after every column has gone through its own stack. */
  function Transformed(columns: seq<Column>, stack: seq<seq<Transform>>): (r: seq<Column>)
    ensures |r| == |columns|
    ensures forall j :: 0 <= j < |r| ==> |r[j]| == |columns[j]|
  {
    seq(|columns|, j requires 0 <= j < |columns| =>
      if j < |stack| then ApplyAll(columns[j], stack[j]) else columns[j])
  }

  /** Registering a transform re-runs the whole stack on the columns as they
      already are, so the earlier transform is applied a second time. */
  lemma StackReappliesEarlierTransforms(column: Column, f: Transform, g: Transform)
    ensures ApplyAll(ApplyAll(column, [f]), [f, g]) == MapColumn(MapColumn(MapColumn(column, f), f), g)
  {
    var once := MapColumn(column, f);
    assert [f][..0] == [];
    assert ApplyAll(column, [f]) == MapColumn(ApplyAll(column, []), f) == once;
    assert [f, g][..1] == [f];
    assert ApplyAll(once, [f, g]) == MapColumn(ApplyAll(once, [f]), g);
    assert ApplyAll(once, [f]) == MapColumn(ApplyAll(once, []), f) == MapColumn(once, f);
  }

  /** `n` copies of `x`. */
  function Repeat<T>(x: T, n: nat): (r: seq<T>)
    ensures |r| == n
    ensures forall i :: 0 <= i < n ==> r[i] == x
  {
    if n == 0 then [] else Repeat(x, n - 1) + [x]
  }

  /** The stack after `rebuildDerived`: empty lists appended until there is
      one per column. */
  function Padded(stack: seq<seq<Transform>>, n: nat): seq<seq<Transform>>
  {
    if |stack| >= n then stack else stack + Repeat([], n - |stack|)
  }

  lemma PaddedKeepsRegistered(stack: seq<seq<Transform>>, n: nat)
    ensures |Padded(stack, n)| == if |stack| >= n then |stack| else n
    ensures Padded(stack, n)[..|stack|] == stack
    ensures forall k :: |stack| <= k < |Padded(stack, n)| ==> |Padded(stack, n)[k]| == 0
  {
  }

  /* * * *  Column indices  * * * */

  /** `a % n` in JavaScript: the remainder has the sign of `a`. */
  function JsRemainder(a: int, n: int): (r: int)
    requires n > 0
    ensures a >= 0 ==> 0 <= r < n
    ensures a < 0 ==> -n < r <= 0
    ensures (a - r) % n == 0
  {
    if a >= 0 then
      assert (a - a % n) % n == 0 by {
        EuclideanUnique(a - a % n, n, a / n, 0);
      }
      a % n
    else
      assert (a + (-a) % n) % n == 0 by {
        EuclideanUnique(a + (-a) % n, n, -((-a) / n), 0);
      }
      -((-a) % n)
  }

  lemma {:induction false} MulAtLeast(k: int, n: int)
    requires k >= 1 && n > 0
    ensures k * n >= n
    decreases k
  {
    if k > 1 {
      MulAtLeast(k - 1, n);
      assert k * n == (k - 1) * n + n;
    }
  }

  /** Quotient and remainder are unique. */
  lemma EuclideanUnique(a: int, n: int, q: int, m: int)
    requires n > 0 && 0 <= m < n && a == q * n + m
    ensures a % n == m
  {
    var q', m' := a / n, a % n;
    assert a == q' * n + m';
    if q' > q {
      MulAtLeast(q' - q, n);
    } else if q > q' {
      MulAtLeast(q - q', n);
    }
  }

  /** The index `addTransform` resolves `i` to among `n` columns: the
      JavaScript remainder, moved up by `n` when negative. It is the
      Euclidean remainder, so it always names a column. */
  function Normalize(i: int, n: int): (r: nat)
    requires n > 0
    ensures r < n
    ensures r == i % n
  {
    var rem := JsRemainder(i, n);
    var r := if rem < 0 then rem + n else rem;
    assert r == i % n by {
      if i < 0 {
        var m := (-i) % n;
        var q := (-i) / n;
        assert -i == q * n + m;
        if m == 0 {
          EuclideanUnique(i, n, -q, 0);
        } else {
          EuclideanUnique(i, n, -q - 1, n - m);
        }
      }
    }
    r
  }

  /** In-range indices are kept and -1 names the last column. */
  lemma NormalizeKeepsInRange(i: int, n: int)
    requires n > 0
    ensures 0 <= i < n ==> Normalize(i, n) == i
    ensures Normalize(-1, n) == n - 1
  {
    if 0 <= i < n {
      assert i == 0 * n + i;
      EuclideanUnique(i, n, 0, i);
    }
    assert -1 == (-1) * n + (n - 1);
    EuclideanUnique(-1, n, -1, n - 1);
  }

  /** The `indices` argument of `addTransform`: omitted, one index, or a list. */
  datatype Indices = AllColumns | Single(index: int) | List(indices: seq<int>)

  /** `_.range(lo, hi)`. */
  function Range(lo: int, hi: int): (r: seq<int>)
    ensures |r| == if hi > lo then hi - lo else 0
    ensures forall k :: 0 <= k < |r| ==> r[k] == lo + k
    decreases hi - lo
  {
    if hi <= lo then [] else Range(lo, hi - 1) + [hi - 1]
  }

  lemma {:induction false} RangeCount(lo: int, hi: int, c: int)
    ensures multiset(Range(lo, hi))[c] == if lo <= c < hi then 1 else 0
    decreases hi - lo
  {
    if hi > lo {
      RangeCount(lo, hi - 1, c);
    }
  }

  /** The indices asked for, before normalisation. */
  function Requested(indices: Indices, n: nat): seq<int>
  {
    match indices
    case AllColumns => Range(0, n)
    case Single(i) => [i]
    case List(l) => l
  }

  /** The columns `addTransform` registers on, one entry per requested index. */
  function Resolved(indices: Indices, n: nat): (r: seq<nat>)
    requires n > 0 || |Requested(indices, n)| == 0
    ensures |r| == |Requested(indices, n)|
    ensures forall k :: 0 <= k < |r| ==> r[k] < n
  {
    var req := Requested(indices, n);
    seq(|req|, k requires 0 <= k < |req| => Normalize(req[k], n))
  }

  /** Omitted indices stand for every column, a single index for a list of one. */
  lemma ResolvedShapes(indices: Indices, n: nat)
    requires n > 0
    ensures indices.AllColumns? ==> Resolved(indices, n) == Range(0, n)
    ensures indices.Single? ==> Resolved(indices, n) == [Normalize(indices.index, n)]
  {
    if indices.AllColumns? {
      forall k | 0 <= k < n ensures Resolved(indices, n)[k] == Range(0, n)[k] {
        NormalizeKeepsInRange(k, n);
      }
    }
  }

  /** The stack after `fn` is appended to the list of column `c` once per
      occurrence of `c` among `targets`. */
  function Registered(stack: seq<seq<Transform>>, targets: seq<nat>, fn: Transform): (r: seq<seq<Transform>>)
    ensures |r| == |stack|
  {
    seq(|stack|, c requires 0 <= c < |stack| => stack[c] + Repeat(fn, multiset(targets)[c]))
  }

  /** A single target gains `fn` at the end of its list; every other list
      stays as it was. */
  lemma RegisteredSingle(stack: seq<seq<Transform>>, t: nat, fn: Transform)
    requires t < |stack|
    ensures Registered(stack, [t], fn)[t] == stack[t] + [fn]
    ensures forall c :: 0 <= c < |stack| && c != t ==> Registered(stack, [t], fn)[c] == stack[c]
  {
    assert multiset([t])[t] == 1;
    assert Repeat(fn, 1) == [fn];
    forall c | 0 <= c < |stack| && c != t ensures Registered(stack, [t], fn)[c] == stack[c] {
      assert multiset([t])[c] == 0;
    }
  }

  /** A column that is not a target keeps its list; a target keeps its list as
      a prefix and gains `fn` once for each time it was named. */
  lemma RegisteredAppends(stack: seq<seq<Transform>>, targets: seq<nat>, fn: Transform, c: nat)
    requires c < |stack|
    ensures c !in targets ==> Registered(stack, targets, fn)[c] == stack[c]
    ensures Registered(stack, targets, fn)[c][..|stack[c]|] == stack[c]
    ensures |Registered(stack, targets, fn)[c]| == |stack[c]| + multiset(targets)[c]
  {
  }

  /** Registering on one more target appends `fn` to that target's list. */
  lemma RegisteredStep(stack: seq<seq<Transform>>, targets: seq<nat>, k: nat, fn: Transform)
    requires k < |targets| && targets[k] < |stack|
    ensures var before := Registered(stack, targets[..k], fn);
      Registered(stack, targets[..k + 1], fn) == before[targets[k] := before[targets[k]] + [fn]]
  {
    var t := targets[k];
    assert targets[..k + 1] == targets[..k] + [t];
    var before := Registered(stack, targets[..k], fn);
    var after := Registered(stack, targets[..k + 1], fn);
    forall c | 0 <= c < |stack|
      ensures after[c] == before[t := before[t] + [fn]][c]
    {
      var m := multiset(targets[..k])[c];
      if c == t {
        assert multiset(targets[..k + 1])[c] == m + 1;
        assert Repeat(fn, m + 1) == Repeat(fn, m) + [fn];
      } else {
        assert multiset(targets[..k + 1])[c] == m;
      }
    }
  }

  /** Registering only on the first `n` columns keeps the lists beyond them
      empty and adds no list. */
  lemma RegisteredFits(stack: seq<seq<Transform>>, targets: seq<nat>, n: nat, fn: Transform)
    requires |stack| >= n
    requires forall k :: 0 <= k < |targets| ==> targets[k] < n
    requires forall c :: n <= c < |stack| ==> |stack[c]| == 0
    ensures forall c :: n <= c < |stack| ==> |Registered(stack, targets, fn)[c]| == 0
    ensures Padded(Registered(stack, targets, fn), n) == Registered(stack, targets, fn)
  {
    forall c | n <= c < |stack| ensures |Registered(stack, targets, fn)[c]| == 0 {
      assert c !in targets;
    }
  }

  /** `addDataTransform` asks for columns 1 to n-1, which resolve to themselves. */
  lemma DataTargetsResolved(n: nat)
    ensures Resolved(List(Range(1, n)), n) == Range(1, n)
  {
    var targets := Resolved(List(Range(1, n)), n);
    forall k | 0 <= k < |targets| ensures targets[k] == Range(1, n)[k] {
      NormalizeKeepsInRange(Range(1, n)[k], n);
    }
  }

  /** `addDataTransform` leaves the date column's list alone and appends to
      every other column's list exactly once. */
  lemma DataTargets(stack: seq<seq<Transform>>, n: nat, fn: Transform)
    requires |stack| >= n
    ensures n > 0 ==> Registered(stack, Resolved(List(Range(1, n)), n), fn)[0] == stack[0]
    ensures forall c :: 1 <= c < n ==> Registered(stack, Resolved(List(Range(1, n)), n), fn)[c] == stack[c] + [fn]
  {
    DataTargetsResolved(n);
    var r := Registered(stack, Range(1, n), fn);
    if n > 0 {
      RangeCount(1, n, 0);
      assert r[0] == stack[0] + [];
    }
    forall c | 1 <= c < n
      ensures r[c] == stack[c] + [fn]
    {
      RangeCount(1, n, c);
      assert Repeat(fn, 1) == [fn];
    }
  }

  /* * * *  Views  * * * */

  /** `columns[0]`, which is `undefined` when there is no column. */
  function DateView(columns: seq<Column>): (r: Option<Column>)
    ensures r.Some? <==> |columns| > 0
    ensures r.Some? ==> r.value == columns[0]
  {
    if |columns| > 0 then Some(columns[0]) else None
  }

  /** `columns.slice(1)`: every column but the first, in order, and nothing
      for no columns. */
  function DataView(columns: seq<Column>): (r: seq<Column>)
    ensures |r| == if |columns| > 0 then |columns| - 1 else 0
    ensures forall k :: 0 <= k < |r| ==> r[k] == columns[k + 1]
  {
    if |columns| > 0 then columns[1..] else []
  }

  /* * * *  The container  * * * */

  /** The registration loop of `addTransform`: each index is reduced with
      JavaScript `%`, moved up by `n` when negative, and `fn` is pushed onto
      that column's list. */
  method RegisterAll(stack: seq<seq<Transform>>, indices: Indices, n: nat, fn: Transform)
    returns (r: seq<seq<Transform>>)
    requires |stack| >= n
    requires n > 0 || |Requested(indices, n)| == 0
    ensures r == Registered(stack, Resolved(indices, n), fn)
  {
    var targets := Requested(indices, n);
    ghost var resolved := Resolved(indices, n);
    r := stack;
    assert r == Registered(stack, resolved[..0], fn) by {
      forall c | 0 <= c < |r| ensures r[c] == r[c] + Repeat(fn, 0) { }
    }
    for k := 0 to |targets|
      invariant r == Registered(stack, resolved[..k], fn)
    {
      var idx := JsRemainder(targets[k], n);
      if idx < 0 {
        idx := idx + n;
      }
      assert idx == resolved[k];
      RegisteredStep(stack, resolved, k, fn);
      r := r[idx := r[idx] + [fn]];
    }
    assert resolved[..|targets|] == resolved;
  }

  class TimeSeriesData {
    var labels: seq<string>
    var rows: seq<Row>
    var columns: seq<Column>
    var untransformedRows: seq<Row>
    var transforms: seq<seq<Transform>>
    var dateColumn: Option<Column>
    var dataColumns: seq<Column>

    /** No transform is registered beyond the last column. */
    ghost predicate StackFits()
      reads this
    {
      forall k :: |columns| <= k < |transforms| ==> |transforms[k]| == 0
    }

    /** What `rebuildDerived` establishes: a transform list for every column,
        none registered beyond the last column, and current views. */
    ghost predicate Valid()
      reads this
    {
      && StackFits()
      && |transforms| >= |columns|
      && dateColumn == DateView(columns)
      && dataColumns == DataView(columns)
    }

    /** The state the constructor gives before any data is parsed; the
        prototype's `null` matrices are empty sequences here. */
    constructor (labels: seq<string>)
      ensures this.labels == labels
      ensures rows == [] && columns == [] && untransformedRows == [] && transforms == []
      ensures Valid()
    {
      this.labels := labels;
      rows, columns, untransformedRows := [], [], [];
      transforms := [];
      dateColumn, dataColumns := None, [];
    }

    /** `rebuildDerived`: pads the stack with empty lists and recomputes the
        date and data views. */
    method RebuildDerived()
      modifies this
      ensures transforms == Padded(old(transforms), |columns|)
      ensures dateColumn == DateView(columns) && dataColumns == DataView(columns)
      ensures labels == old(labels) && rows == old(rows) && columns == old(columns)
      ensures untransformedRows == old(untransformedRows)
      ensures old(StackFits()) ==> Valid()
    {
      while |transforms| < |columns|
        invariant labels == old(labels) && rows == old(rows) && columns == old(columns)
        invariant untransformedRows == old(untransformedRows)
        invariant |old(transforms)| <= |transforms|
        invariant |old(transforms)| < |columns| ==> |transforms| <= |columns|
        invariant |old(transforms)| >= |columns| ==> |transforms| == |old(transforms)|
        invariant transforms == old(transforms) + Repeat([], |transforms| - |old(transforms)|)
        decreases |columns| - |transforms|
      {
        transforms := transforms + [[]];
      }
      dateColumn := DateView(columns);
      dataColumns := DataView(columns);
    }

    /** `rebuildData`: rows from columns. */
    method RebuildData()
      modifies this
      ensures rows == Zip(columns) && columns == old(columns)
      ensures transforms == Padded(old(transforms), |columns|)
      ensures dateColumn == DateView(columns) && dataColumns == DataView(columns)
      ensures labels == old(labels) && untransformedRows == old(untransformedRows)
      ensures old(StackFits()) ==> Valid()
    {
      rows := Zip(columns);
      RebuildDerived();
    }

    /** `rebuildColumns`: columns from rows. */
    method RebuildColumns()
      modifies this
      ensures columns == Zip(rows) && rows == old(rows)
      ensures transforms == Padded(old(transforms), |columns|)
      ensures dateColumn == DateView(columns) && dataColumns == DataView(columns)
      ensures labels == old(labels) && untransformedRows == old(untransformedRows)
      ensures old(|transforms|) == 0 ==> Valid()
    {
      columns := Zip(rows);
      RebuildDerived();
    }

    /** `applyTransforms`: every column is mapped through its list of
        transforms in registration order, then the rows are rebuilt. */
    method ApplyTransforms()
      requires StackFits()
      modifies this
      ensures columns == Transformed(old(columns), old(transforms))
      ensures rows == Zip(columns)
      ensures transforms == Padded(old(transforms), |columns|)
      ensures labels == old(labels) && untransformedRows == old(untransformedRows)
      ensures Valid()
    {
      ghost var start := columns;
      var idx := 0;
      while idx < |transforms|
        invariant 0 <= idx <= |transforms|
        invariant transforms == old(transforms) && labels == old(labels)
        invariant untransformedRows == old(untransformedRows)
        invariant |columns| == |start|
        invariant forall j :: 0 <= j < |columns| ==>
          columns[j] == if j < idx then ApplyAll(start[j], transforms[j]) else start[j]
        invariant StackFits()
      {
        var fns := transforms[idx];
        var i := 0;
        while i < |fns|
          invariant 0 <= i <= |fns|
          invariant |fns| > 0 ==> idx < |columns|
          invariant transforms == old(transforms) && labels == old(labels)
          invariant untransformedRows == old(untransformedRows)
          invariant |columns| == |start|
          invariant idx < |columns| ==> columns[idx] == ApplyAll(start[idx], fns[..i])
          invariant forall j :: 0 <= j < |columns| && j != idx ==>
            columns[j] == if j < idx then ApplyAll(start[j], transforms[j]) else start[j]
        {
          assert fns[..i + 1][..i] == fns[..i];
          columns := columns[idx := MapColumn(columns[idx], fns[i])];
          i := i + 1;
        }
        assert fns[..|fns|] == fns;
        idx := idx + 1;
      }
      assert columns == Transformed(start, transforms);
      RebuildData();
    }

    /** `clearTransforms`: drops every transform and restores the rows
        snapshot taken at parse time. */
    method ClearTransforms()
      modifies this
      ensures transforms == Repeat([], |columns|)
      ensures rows == old(untransformedRows) && untransformedRows == old(untransformedRows)
      ensures columns == Zip(rows)
      ensures labels == old(labels)
      ensures Valid()
    {
      transforms := [];
      rows := untransformedRows;  // `_n.merge([], ...)`: sequences are values, the copy is free
      RebuildColumns();
    }

    /** `addTransform(indices, fn)`: registers `fn` on every resolved column,
        once per occurrence, then re-applies the whole stack. With no column an
        explicit index would be resolved to `NaN` and the registration throws. */
    method AddTransform(indices: Indices, fn: Transform)
      requires Valid()
      requires |columns| > 0 || |Requested(indices, |columns|)| == 0
      modifies this
      ensures transforms == Registered(old(transforms), Resolved(indices, |old(columns)|), fn)
      ensures columns == Transformed(old(columns), transforms)
      ensures rows == Zip(columns)
      ensures labels == old(labels) && untransformedRows == old(untransformedRows)
      ensures Valid()
    {
      transforms := RegisterAll(transforms, indices, |columns|, fn);
      RegisteredFits(old(transforms), Resolved(indices, |columns|), |columns|, fn);
      ApplyTransforms();
    }

    /** `addDataTransform(fn)`: `addTransform` on every column but the date
        column. */
    method AddDataTransform(fn: Transform)
      requires Valid()
      modifies this
      ensures transforms == Registered(old(transforms), Resolved(List(Range(1, |old(columns)|)), |old(columns)|), fn)
      ensures |old(columns)| > 0 ==> transforms[0] == old(transforms)[0]
      ensures columns == Transformed(old(columns), transforms)
      ensures rows == Zip(columns)
      ensures labels == old(labels) && untransformedRows == old(untransformedRows)
      ensures Valid()
    {
      ghost var n := |columns|;
      DataTargets(transforms, n, fn);
      AddTransform(List(Range(1, |columns|)), fn);
    }
  }
}
