/** Slices, diagonals, windows and triangles: the index formulas against the cells they stand for. */
module IndexFormulas {
  import opened Outcomes
  import opened Sums

  // ------------------------------------------------------------------- slices

  const MAXSIZE := 0x7FFF_FFFF_FFFF_FFFF

  /** A slice bound: negative counts from the end, then clamped to the size. */
  function PythonBound(i: int, size: nat): (b: nat)
    ensures b <= size
  {
    var j := if i < 0 then i + size else i;
    if j < 0 then 0 else if j > size then size else j
  }

  /** The positions below `n` that `lo:hi:step` selects, in order. */
  function Selected(n: nat, lo: int, hi: int, step: int): seq<int>
    requires step >= 1
  {
    if n == 0 then [] else
    Selected(n - 1, lo, hi, step) + (if lo <= n - 1 < hi && (n - 1 - lo) % step == 0 then [n - 1] else [])
  }

  /** The start, start + step, ... form. */
  function Progression(lo: int, count: nat, step: int): seq<int> { seq(count, k => lo + k * step) }

  function CeilDiv(a: int, step: int): int
    requires step >= 1
  { (a + step - 1) / step }

  lemma CeilOf(a: nat, q: nat, r: nat, step: int)
    requires r < step && a == q * step + r
    ensures CeilDiv(a, step) == if r == 0 then q else q + 1
  {
    if r == 0 {
      DivModUnique(a + step - 1, q, step - 1, step);
    } else {
      assert (q + 1) * step == q * step + step;
      DivModUnique(a + step - 1, q + 1, r - 1, step);
    }
  }
  lemma CeilStep(a: nat, step: int)
    requires step >= 1
    ensures CeilDiv(0, step) == 0
    ensures CeilDiv(a + 1, step) == CeilDiv(a, step) + (if a % step == 0 then 1 else 0)
    ensures a % step == 0 ==> a == CeilDiv(a, step) * step
    ensures CeilDiv(a, step) >= 0
  {
    hide CeilDiv;
    var q, r := a / step, a % step;
    assert a == q * step + r;
    assert (q + 1) * step == q * step + step;
    CeilOf(0, 0, 0, step);
    CeilOf(a, q, r, step);
    if r + 1 < step { CeilOf(a + 1, q, r + 1, step); } else { CeilOf(a + 1, q + 1, 0, step); }
  }

  lemma {:induction false} SelectedIsProgression(n: nat, lo: nat, hi: nat, step: int)
    requires step >= 1
    ensures var reach := if n <= hi then n else hi;
            CeilDiv(if lo <= reach then reach - lo else 0, step) >= 0
            && Selected(n, lo, hi, step) == Progression(lo, CeilDiv(if lo <= reach then reach - lo else 0, step), step)
  {
    CeilStep(0, step);
    if n > 0 {
      SelectedIsProgression(n - 1, lo, hi, step);
      if lo <= n - 1 < hi { CeilStep(n - 1 - lo, step); }
    }
  }

  /** `_traced_slice_bounds`, with the traced branches at their concrete truth values: it succeeds exactly when the
  traced length is the length of the slice, and its bounds step through exactly the selected positions. */
  method TracedSliceBounds(size: nat, startArg: Option<int>, endArg: Option<int>, step: int, tracedLength: int)
    returns (r: Result<(int, int)>)
    requires step >= 1 && size <= MAXSIZE
    ensures var lo := PythonBound(if startArg.Some? then startArg.value else 0, size);
            var hi := PythonBound(if endArg.Some? then endArg.value else MAXSIZE, size);
            && (r.Success? <==> tracedLength == |Selected(size, lo, hi, step)|)
            && (r.Failure? ==> r.error == NotImplemented)
            && (r.Success? ==> var (start, end) := r.value;
                  && 0 <= start <= end <= size
                  && (end - start + step - 1) / step == tracedLength
                  && Selected(size, lo, hi, step) == Progression(start, tracedLength, step))
  {
    var start := if startArg.Some? then startArg.value else 0;
    var end := if endArg.Some? then endArg.value else MAXSIZE;
    ghost var lo, hi := PythonBound(start, size), PythonBound(end, size);
    if start < 0 {
      start := start + size;
    }
    if end < 0 {
      end := end + size;
    }
    if start < 0 {
      start := 0;
    } else if start > size {
      start := size;
    }
    if end == MAXSIZE || end > size {
      end := size;
    } else if end < start {
      end := start;
    }
    assert start == lo && (end == hi || (hi < start && end == start));
    SelectedIsProgression(size, lo, hi, step);
    CeilStep(0, step);
    var length := (end - start + step - 1) / step;
    if length != tracedLength {
      return Failure(NotImplemented);
    }
    r := Success((start, end));
  }

  // ---------------------------------------------------------------- diagonals

  /** The flat positions `aten_diagonal` gathers from an `n1` by `n2` plane. */
  function FirstRow(offset: int): nat { if -offset > 0 then -offset else 0 }
  function DiagonalLength(n1: nat, n2: nat, offset: int): nat {
    var a, b := n1 - FirstRow(offset), n2 - FirstRow(offset) - offset;
    var least := if a < b then a else b;
    if least > 0 then least else 0
  }
  function DiagonalPositions(n1: nat, n2: nat, offset: int): seq<int> {
    seq(DiagonalLength(n1, n2, offset), i => (FirstRow(offset) + i) * (n2 + 1) + offset)
  }

  /** The in-range cells `(r, r + offset)` of the first `rows` rows, flattened row-major. */
  function DiagonalCells(rows: nat, n2: nat, offset: int): seq<int> {
    if rows == 0 then [] else
    DiagonalCells(rows - 1, n2, offset)
    + (if 0 <= rows - 1 + offset < n2 then [(rows - 1) * n2 + (rows - 1 + offset)] else [])
  }

  /** The formula lists exactly the diagonal's cells, in row-major order. */
  lemma {:induction false} DiagonalEnumerates(n1: nat, n2: nat, offset: int)
    ensures DiagonalPositions(n1, n2, offset) == DiagonalCells(n1, n2, offset)
  {
    if n1 > 0 {
      DiagonalEnumerates(n1 - 1, n2, offset);
      var r := n1 - 1;
      assert r * (n2 + 1) + offset == r * n2 + (r + offset);
    }
  }

  /** Each position is in the plane and splits into its row and column. */
  lemma DiagonalInRange(n1: nat, n2: nat, offset: int, i: nat)
    requires i < DiagonalLength(n1, n2, offset)
    ensures var p := DiagonalPositions(n1, n2, offset)[i];
            && 0 <= p < n1 * n2
            && p / n2 == FirstRow(offset) + i && p % n2 == FirstRow(offset) + i + offset
  {
    var r := FirstRow(offset) + i;
    assert r * (n2 + 1) + offset == r * n2 + (r + offset);
    FlatBound(r, r + offset, n1, n2);
    FlatIndex(r, r + offset, n2);
  }

  // ------------------------------------------------------------------ windows

  function WindowCount(n: nat, size: nat, step: int): int
    requires step >= 1
  { (n - size) / step + 1 }

  /** The (windows, size) index `aten_unfold` gathers with. */
  function WindowIndex(n: nat, size: nat, step: int): seq<seq<int>>
    requires step >= 1
  {
    seq(if WindowCount(n, size, step) > 0 then WindowCount(n, size, step) else 0, w => seq(size, k => w * step + k))
  }

  /** Row `w` exists exactly when the window starting at `w * step` is complete, and every index is in bounds. */
  lemma WindowsComplete(n: nat, size: nat, step: int, w: nat)
    requires step >= 1
    ensures w < |WindowIndex(n, size, step)| <==> w * step + size <= n
    ensures w < |WindowIndex(n, size, step)| ==>
              |WindowIndex(n, size, step)[w]| == size
              && forall k :: 0 <= k < size ==> 0 <= WindowIndex(n, size, step)[w][k] < n
                                               && WindowIndex(n, size, step)[w][k] == w * step + k
  {
    var q := (n - size) / step;
    assert (n - size) == q * step + (n - size) % step;
    MulMono(w, q, step);
    MulMono(q + 1, w, step);
    MulMono(0, w, step);
  }

  // ---------------------------------------------------------------- triangles

  predicate InTriangle(i: int, j: int, offset: int, upper: bool) { if upper then j - i >= offset else j - i <= offset }

  function RowCells(i: int, cols: nat, offset: int, upper: bool): seq<(int, int)> {
    if cols == 0 then [] else
    RowCells(i, cols - 1, offset, upper) + (if InTriangle(i, cols - 1, offset, upper) then [(i, cols - 1)] else [])
  }
  /** The triangle's cells in row-major order. */
  function Triangle(rows: nat, cols: nat, offset: int, upper: bool): seq<(int, int)> {
    if rows == 0 then [] else Triangle(rows - 1, cols, offset, upper) + RowCells(rows - 1, cols, offset, upper)
  }

  /** The range of columns the loop visits is exactly the row's part of the triangle. */
  function RangeCells(i: int, lo: int, hi: int): seq<(int, int)>
    requires lo <= hi
  { seq(hi - lo, k => (i, lo + k)) }

  lemma {:induction false} RowIsRange(i: nat, cols: nat, offset: int, upper: bool)
    ensures RowCells(i, cols, offset, upper)
         == if upper then
              var lo := if i + offset > 0 then i + offset else 0; if lo <= cols then RangeCells(i, lo, cols) else []
            else
              var hi := if cols < i + offset + 1 then cols else i + offset + 1; if hi >= 0 then RangeCells(i, 0, hi) else []
  {
    if cols > 0 { RowIsRange(i, cols - 1, offset, upper); }
  }

  function Zip(a: seq<int>, b: seq<int>): seq<(int, int)>
    requires |a| == |b|
  { seq(|a|, k requires 0 <= k < |a| => (a[k], b[k])) }

  lemma ZipStep(rows: seq<int>, cols: seq<int>, done: seq<(int, int)>, i: int, lo: int, j: int)
    requires |rows| == |cols| && lo <= j && Zip(rows, cols) == done + RangeCells(i, lo, j)
    ensures Zip(rows + [i], cols + [j]) == done + RangeCells(i, lo, j + 1)
  {
    assert Zip(rows + [i], cols + [j]) == Zip(rows, cols) + [(i, j)];
    assert RangeCells(i, lo, j + 1) == RangeCells(i, lo, j) + [(i, j)];
  }

  /** `_tri_indices_constant`: the two coordinate rows list the triangle's cells in row-major order. */
  method TriIndices(row: nat, col: nat, offset: int, upper: bool) returns (rows: seq<int>, cols: seq<int>)
    ensures |rows| == |cols| && Zip(rows, cols) == Triangle(row, col, offset, upper)
  {
    rows, cols := [], [];
    assert Zip(rows, cols) == [];
    for i := 0 to row
      invariant |rows| == |cols| && Zip(rows, cols) == Triangle(i, col, offset, upper)
    {
      hide Zip, RowCells;
      var lo, hi := 0, if col < i + offset + 1 then col else i + offset + 1;
      if upper {
        lo, hi := if 0 > i + offset then 0 else i + offset, col;
      }
      RowIsRange(i, col, offset, upper);
      var j := lo;
      ghost var done := Zip(rows, cols);
      assert RangeCells(i, lo, lo) == [];
      while j < hi
        invariant lo <= j && (if lo <= hi then j <= hi else j == lo)
        invariant |rows| == |cols| && Zip(rows, cols) == done + RangeCells(i, lo, j)
      {
        ZipStep(rows, cols, done, i, lo, j);
        rows := rows + [i];
        cols := cols + [j];
        j := j + 1;
      }
      assert RangeCells(i, lo, j) == RowCells(i, col, offset, upper);
    }
  }

  function Grid(rows: nat, cols: nat): seq<(int, int)> { seq(rows * cols, l => if cols == 0 then (0, 0) else (l / cols, l % cols)) }

  /** The lower triangle at `k` and the upper one at `k + 1` partition the grid. */
  lemma {:induction false} TrianglesPartition(rows: nat, cols: nat, k: int)
    ensures Partition(Triangle(rows, cols, k, false), Triangle(rows, cols, k + 1, true), Grid(rows, cols))
  {
    hide Grid, RowCells, RangeCells;
    if rows == 0 {
      GridEmpty(cols);
    } else {
      TrianglesPartition(rows - 1, cols, k);
      hide Partition;
      RowsPartition(rows - 1, cols, k);
      GridGrows(rows - 1, cols);
      assert Triangle(rows, cols, k, false) == Triangle(rows - 1, cols, k, false) + RowCells(rows - 1, cols, k, false);
      assert Triangle(rows, cols, k + 1, true) == Triangle(rows - 1, cols, k + 1, true) + RowCells(rows - 1, cols, k + 1, true);
      Regroup(Triangle(rows - 1, cols, k, false), RowCells(rows - 1, cols, k, false),
              Triangle(rows - 1, cols, k + 1, true), RowCells(rows - 1, cols, k + 1, true),
              Grid(rows - 1, cols), RangeCells(rows - 1, 0, cols));
    }
  }
  /** The last column's cell goes to exactly one of the two triangles. */
  lemma LastColumn(i: int, cols: nat, k: int)
    requires cols > 0
    ensures RangeCells(i, 0, cols) == RangeCells(i, 0, cols - 1) + [(i, cols - 1)]
    ensures RowCells(i, cols, k, false)
         == RowCells(i, cols - 1, k, false) + (if cols - 1 - i <= k then [(i, cols - 1)] else [])
    ensures RowCells(i, cols, k + 1, true)
         == RowCells(i, cols - 1, k + 1, true) + (if cols - 1 - i <= k then [] else [(i, cols - 1)])
  {}

  /** Two partitions side by side. */
  lemma Regroup<T>(a: seq<T>, a': seq<T>, b: seq<T>, b': seq<T>, whole: seq<T>, whole': seq<T>)
    requires Partition(a, b, whole) && Partition(a', b', whole')
    ensures Partition(a + a', b + b', whole + whole')
  {}

  ghost predicate Partition<T>(a: seq<T>, b: seq<T>, whole: seq<T>) {
    multiset(a) + multiset(b) == multiset(whole)
  }
  /** One more element on one side of a partition. */
  lemma Adjoin<T>(a: seq<T>, b: seq<T>, whole: seq<T>, x: T, toA: bool)
    requires Partition(a, b, whole)
    ensures Partition(a + if toA then [x] else [], b + if toA then [] else [x], whole + [x])
  {}

  lemma NoCells(i: int, k: int)
    ensures Partition(RowCells(i, 0, k, false), RowCells(i, 0, k + 1, true), RangeCells(i, 0, 0))
  {}

  lemma {:induction false} RowsPartition(i: int, cols: nat, k: int)
    ensures Partition(RowCells(i, cols, k, false), RowCells(i, cols, k + 1, true), RangeCells(i, 0, cols))
  {
    hide RangeCells, RowCells, Partition;
    if cols == 0 {
      NoCells(i, k);
    } else {
      RowsPartition(i, cols - 1, k);
      LastColumn(i, cols, k);
      Adjoin(RowCells(i, cols - 1, k, false), RowCells(i, cols - 1, k + 1, true), RangeCells(i, 0, cols - 1), (i, cols - 1),
             cols - 1 - i <= k);
    }
  }

  lemma GridEmpty(cols: nat)
    ensures Grid(0, cols) == []
  {}

  lemma GridGrows(rows: nat, cols: nat)
    ensures Grid(rows + 1, cols) == Grid(rows, cols) + RangeCells(rows, 0, cols)
  {
    assert (rows + 1) * cols == rows * cols + cols;
    var grid := Grid(rows + 1, cols);
    forall l | rows * cols <= l < (rows + 1) * cols ensures grid[l] == (rows as int, l - rows * cols) {
      FlatIndex(rows, l - rows * cols, cols);
    }
  }
}
