/** Order statistics along one row: the NaN-last order built from two stable selections, median,
nanmedian and the k-th smallest. */
module OrderStatistics {
  import opened Outcomes
  import opened Sorting

  datatype Float = NaN | Number(value: real) | Infinite(positive: bool)

  type Ordered = f: Float | !f.NaN? witness Infinite(true)

  /** The order of the non-NaN values. */
  predicate Less(a: Ordered, b: Ordered) {
    match (a, b)
    case (Number(x), Number(y)) => x < y
    case (Infinite(p), Infinite(q)) => !p && q
    case (Number(_), Infinite(q)) => q
    case (Infinite(p), Number(_)) => !p
  }

  /** The order of the whole row: numbers by value, every NaN after every number. */
  predicate RowLess(a: Float, b: Float) {
    if a.NaN? then false else if b.NaN? then true else Less(a, b)
  }

  predicate IntLess(a: int, b: int) { a < b }

  /** `aten_gather` along the selected axis, for one row. */
  function Take<T>(row: seq<T>, at: seq<nat>): seq<T>
    requires forall i :: 0 <= i < |at| ==> at[i] < |row|
  {
    seq(|at|, i requires 0 <= i < |at| => row[at[i]])
  }

  function IsNan(row: seq<Float>): seq<int> {
    seq(|row|, i requires 0 <= i < |row| => if row[i].NaN? then 1 else 0)
  }
  function Keyed(row: seq<Float>): seq<Ordered> {
    seq(|row|, i requires 0 <= i < |row| => if row[i].NaN? then Infinite(true) else row[i])
  }

  lemma LessIsWeakOrder()
    ensures StrictWeakOrder<Ordered>(Less)
  {}
  lemma RowLessIsWeakOrder()
    ensures StrictWeakOrder(RowLess)
  {}
  lemma IntLessIsWeakOrder()
    ensures StrictWeakOrder(IntLess)
  {}

  lemma OrderedIndices<K(!new)>(keys: seq<K>, less: (K, K) -> bool)
    requires StrictWeakOrder(less)
    ensures var p := StableOrder(keys, less);
            && |p| == |keys|
            && (forall i :: 0 <= i < |p| ==> p[i] < |keys|)
            && (forall i, j :: 0 <= i < j < |p| ==> p[i] != p[j])
  {
    StableOrderIsStable(keys, less);
    OrderIndices(StableOrder(keys, less), |keys|);
  }

  /** `_nan_last_order` of one row: a stable selection by value with NaN keyed +inf, then a stable
  selection of that order by is-NaN, composed through gathers. */
  function ByValue(row: seq<Float>): (p: seq<nat>)
    ensures |p| == |row| && forall i :: 0 <= i < |p| ==> p[i] < |row|
  {
    LessIsWeakOrder();
    OrderedIndices(Keyed(row), Less);
    StableOrder(Keyed(row), Less)
  }
  function ByNan(row: seq<Float>): (p: seq<nat>)
    ensures |p| == |row| && forall i :: 0 <= i < |p| ==> p[i] < |row|
  {
    IntLessIsWeakOrder();
    var nanInOrder := Take(IsNan(row), ByValue(row));
    OrderedIndices(nanInOrder, IntLess);
    StableOrder(nanInOrder, IntLess)
  }
  function NanLastIndices(row: seq<Float>): (p: seq<nat>)
    ensures |p| == |row| && forall i :: 0 <= i < |p| ==> p[i] < |row|
  {
    Take(ByValue(row), ByNan(row))
  }
  function NanLastValues(row: seq<Float>): seq<Float> { Take(row, NanLastIndices(row)) }

  lemma OneStep(row: seq<Float>, v: seq<nat>, a: nat, b: nat)
    requires |v| == |row| && forall i :: 0 <= i < |v| ==> v[i] < |row|
    requires Sorted(v, ByKey(Keyed(row), Less))
    requires a < |row| && b < |row| && a != b && ByKey(Take(IsNan(row), v), IntLess)(a, b)
    ensures ByKey(row, RowLess)(v[a], v[b])
  {
    var x, y := v[a], v[b];
    assert Take(IsNan(row), v)[a] == IsNan(row)[x] && Take(IsNan(row), v)[b] == IsNan(row)[y];
    var fx, fy := if row[x].NaN? then 1 else 0, if row[y].NaN? then 1 else 0;
    assert IntLess(fx, fy) || (!IntLess(fy, fx) && a <= b);
    if a < b {
      assert ByKey(Keyed(row), Less)(x, y);
      var kx, ky := Keyed(row)[x], Keyed(row)[y];
      assert Less(kx, ky) || (!Less(ky, kx) && x <= y);
    }
    assert RowLess(row[x], row[y]) || (!RowLess(row[y], row[x]) && x <= y);
  }

  /** The two passes compose to the one permutation ordered by (is-NaN, value, position). */
  lemma NanLastIsRowOrder(row: seq<Float>)
    ensures NanLastIndices(row) == StableOrder(row, RowLess)
  {
    var n, v, b, p := |row|, ByValue(row), ByNan(row), NanLastIndices(row);
    var flags := Take(IsNan(row), v);
    hide Sort;
    LessIsWeakOrder();
    IntLessIsWeakOrder();
    RowLessIsWeakOrder();
    OrderedIndices(Keyed(row), Less);
    OrderedIndices(flags, IntLess);
    DistinctCovers(p, n);
    StableOrderIsStable(Keyed(row), Less);
    StableOrderIsStable(flags, IntLess);
    forall i, j | 0 <= i < j < n ensures ByKey(row, RowLess)(p[i], p[j]) {
      assert ByKey(flags, IntLess)(b[i], b[j]);
      OneStep(row, v, b[i], b[j]);
    }
    StableOrderIsStable(row, RowLess);
    ByKeyTotal(row, RowLess);
    SortedUnique(p, StableOrder(row, RowLess), ByKey(row, RowLess));
  }

  // ------------------------------------------------------------------ ranks

  /** The positions ordered strictly before `i` by (key, position). */
  function Predecessors<K>(keys: seq<K>, less: (K, K) -> bool, i: nat): set<nat> {
    set a: nat | a < |keys| && a != i && ByKey(keys, less)(a, i)
  }
  /** The positions with a strictly smaller key. */
  function Smaller<K>(keys: seq<K>, less: (K, K) -> bool, i: nat): set<nat>
    requires i < |keys|
  {
    set a: nat | a < |keys| && less(keys[a], keys[i])
  }

  /** The `m`-th entry of the stable order is the position with exactly `m` predecessors. */
  lemma RankOfEntry<K(!new)>(keys: seq<K>, less: (K, K) -> bool, m: nat)
    requires StrictWeakOrder(less) && m < |keys|
    ensures m < |StableOrder(keys, less)| && StableOrder(keys, less)[m] < |keys|
    ensures |Predecessors(keys, less, StableOrder(keys, less)[m])| == m
  {
    var p := StableOrder(keys, less);
    StableOrderIsStable(keys, less);
    OrderIndices(p, |keys|);
    ByKeyTotal(keys, less);
    var first := p[..m];
    forall a: nat ensures a in Predecessors(keys, less, p[m]) <==> a in Elements(first) {
      if a in Predecessors(keys, less, p[m]) {
        assert a < |keys| && a in p;
        var j :| 0 <= j < |p| && p[j] == a;
        assert first[j] == a;
      }
      if a in Elements(first) {
        var j :| 0 <= j < |first| && first[j] == a;
        assert ByKey(keys, less)(p[j], p[m]);
      }
    }
    assert Predecessors(keys, less, p[m]) == Elements(first);
    DistinctCount(first);
  }

  /** Only one position has a given rank. */
  lemma RankUnique<K(!new)>(keys: seq<K>, less: (K, K) -> bool, i: nat, j: nat)
    requires StrictWeakOrder(less) && i < |keys| && j < |keys|
    requires |Predecessors(keys, less, i)| == |Predecessors(keys, less, j)|
    ensures i == j
  {
    ByKeyTotal(keys, less);
    var le := ByKey(keys, less);
    if i != j && le(i, j) { PredecessorsNest(keys, less, i, j); }
    if i != j && le(j, i) { PredecessorsNest(keys, less, j, i); }
  }
  lemma PredecessorsNest<K(!new)>(keys: seq<K>, less: (K, K) -> bool, i: nat, j: nat)
    requires StrictWeakOrder(less) && i < |keys| && j < |keys| && i != j && ByKey(keys, less)(i, j)
    ensures |Predecessors(keys, less, i)| < |Predecessors(keys, less, j)|
  {
    ByKeyTotal(keys, less);
    var below, above := Predecessors(keys, less, i), Predecessors(keys, less, j);
    assert below + {i} <= above;
    SizeAtMost(below + {i}, above);
  }
  lemma SizeAtMost(a: set<nat>, b: set<nat>)
    requires a <= b
    ensures |a| <= |b|
  {
    assert b == a + (b - a);
  }

  /** An entry of rank `m` is the lowest position of its value exactly when `m` keys are smaller. */
  lemma LowestOccurrence<K(!new)>(keys: seq<K>, less: (K, K) -> bool, i: nat)
    requires StrictWeakOrder(less) && i < |keys|
    ensures (forall a :: 0 <= a < i ==> less(keys[a], keys[i]) || less(keys[i], keys[a]))
       <==> |Smaller(keys, less, i)| == |Predecessors(keys, less, i)|
    ensures |Smaller(keys, less, i)| <= |Predecessors(keys, less, i)|
  {
    var small, before := Smaller(keys, less, i), Predecessors(keys, less, i);
    assert small <= before;
    SizeAtMost(small, before);
    if |small| == |before| {
      SubsetOfSameSize(small, before);
      forall a | 0 <= a < i ensures less(keys[a], keys[i]) || less(keys[i], keys[a]) {
        assert a in small || a !in before;
      }
    }
    if forall a :: 0 <= a < i ==> less(keys[a], keys[i]) || less(keys[i], keys[a]) {
      forall a | a in before ensures a in small {
      }
      assert small == before;
    }
  }

  /** Whether position `i` is the lowest one holding its key. */
  ghost predicate IsLowest<K(!new)>(keys: seq<K>, less: (K, K) -> bool, i: nat)
    requires i < |keys|
  {
    forall a :: 0 <= a < i ==> less(keys[a], keys[i]) || less(keys[i], keys[a])
  }
  /** Some key of the row has exactly `m` strictly smaller ones. */
  ghost predicate StartsAt<K>(keys: seq<K>, less: (K, K) -> bool, m: nat) {
    exists i: nat :: i < |keys| && |Smaller(keys, less, i)| == m
  }

  lemma {:induction false} LowestOfTies<K(!new)>(keys: seq<K>, less: (K, K) -> bool, i: nat) returns (j: nat)
    requires StrictWeakOrder(less) && i < |keys|
    ensures j < |keys| && IsLowest(keys, less, j) && Smaller(keys, less, j) == Smaller(keys, less, i)
    decreases i
  {
    if IsLowest(keys, less, i) {
      j := i;
    } else {
      var a :| 0 <= a < i && !less(keys[a], keys[i]) && !less(keys[i], keys[a]);
      assert Smaller(keys, less, a) == Smaller(keys, less, i);
      j := LowestOfTies(keys, less, a);
    }
  }

  /** The position of rank `m` is the lowest of its key exactly when some key of the row has `m` smaller ones. */
  lemma LowestExactly<K(!new)>(keys: seq<K>, less: (K, K) -> bool, index: nat)
    requires StrictWeakOrder(less) && index < |keys|
    ensures IsLowest(keys, less, index) <==> StartsAt(keys, less, |Predecessors(keys, less, index)|)
  {
    LowestOccurrence(keys, less, index);
    if i: nat :| i < |keys| && |Smaller(keys, less, i)| == |Predecessors(keys, less, index)| {
      var j := LowestOfTies(keys, less, i);
      LowestOccurrence(keys, less, j);
      RankUnique(keys, less, index, j);
    }
  }

  // ------------------------------------------------------------------ medians

  /** `_kth_smallest` of one row: the `k`-th entry, counting from one, of the stable order. */
  function KthSmallest(row: seq<int>, k: nat): (r: (int, nat))
    requires 1 <= k <= |row|
    ensures r.1 < |row| && r.0 == row[r.1]
    ensures |Predecessors(row, IntLess, r.1)| == k - 1
  {
    IntLessIsWeakOrder();
    RankOfEntry(row, IntLess, k - 1);
    var index := StableOrder(row, IntLess)[k - 1];
    (row[index], index)
  }

  /** The integer route of `_median_along`. */
  function MedianOfInts(row: seq<int>): Result<(int, nat)> {
    if |row| == 0 then Failure(IndexError) else Success(KthSmallest(row, (|row| + 1) / 2))
  }

  function CountNan(row: seq<Float>): (c: nat)
    ensures c <= |row|
  {
    if row == [] then 0 else (if row[0].NaN? then 1 else 0) + CountNan(row[1..])
  }

  /** The position in the NaN-last order that the float route reads. */
  function MedianPosition(size: nat, numNan: nat, ignoreNan: bool): int {
    if ignoreNan then (if size - 1 - numNan > 0 then size - 1 - numNan else 0) / 2
    else if numNan > 0 then size - numNan else (size - 1) / 2
  }

  /** The float route of `_median_along`: median (`ignoreNan` false) and nanmedian. */
  function MedianOfFloats(row: seq<Float>, ignoreNan: bool): Result<(Float, nat)> {
    if |row| == 0 then Failure(IndexError) else
    var at := MedianPosition(|row|, CountNan(row), ignoreNan);
    Success((NanLastValues(row)[at], NanLastIndices(row)[at]))
  }

  // ------------------------------------------------------------- what the medians are

  predicate HasNan(row: seq<Float>) { exists i :: 0 <= i < |row| && row[i].NaN? }

  /** The positions holding numbers. */
  function NumberPositions(row: seq<Float>): set<nat> {
    set a: nat | a < |row| && !row[a].NaN?
  }

  lemma {:induction false} NumbersAndNans(row: seq<Float>)
    ensures |NumberPositions(row)| + CountNan(row) == |row|
    ensures CountNan(row) > 0 <==> HasNan(row)
  {
    if row != [] {
      var rest := row[1..];
      NumbersAndNans(rest);
      hide CountNan, HasNan;
      PositionsShift(row);
      NanStep(row);
    }
  }
  lemma PositionsShift(row: seq<Float>)
    requires row != []
    ensures |NumberPositions(row)| == |NumberPositions(row[1..])| + (if row[0].NaN? then 0 else 1)
  {
    var rest := row[1..];
    var shifted := set a | a in NumberPositions(rest) :: a + 1;
    ShiftCount(NumberPositions(rest), shifted);
    forall a: nat ensures a in NumberPositions(row) <==> (a == 0 && !row[0].NaN?) || a in shifted {
      if 0 < a < |row| && !row[a].NaN? {
        assert a - 1 in NumberPositions(rest);
        assert (a - 1) + 1 in shifted;
      }
      if a in shifted { assert a - 1 in NumberPositions(rest); }
    }
    assert NumberPositions(row) == (if row[0].NaN? then {} else {0}) + shifted;
  }
  lemma NanStep(row: seq<Float>)
    requires row != []
    ensures HasNan(row) <==> row[0].NaN? || HasNan(row[1..])
    ensures CountNan(row) == CountNan(row[1..]) + (if row[0].NaN? then 1 else 0)
  {}

  lemma {:induction false} ShiftCount(s: set<nat>, t: set<nat>)
    requires t == set a | a in s :: a + 1
    ensures |s| == |t|
  {
    if s != {} {
      var x :| x in s;
      var smaller := set a | a in s - {x} :: a + 1;
      forall b ensures b in t <==> b in smaller + {x + 1} {
        if b in t { assert b == x + 1 || b - 1 in s - {x}; }
      }
      assert t == smaller + {x + 1};
      ShiftCount(s - {x}, smaller);
    }
  }

  /** Everything the float route returns has the rank the position asks for. */
  lemma RankInRow(row: seq<Float>, at: nat)
    requires at < |row|
    ensures |Predecessors(row, RowLess, NanLastIndices(row)[at])| == at
    ensures NanLastValues(row)[at] == row[NanLastIndices(row)[at]]
  {
    NanLastIsRowOrder(row);
    RowLessIsWeakOrder();
    RankOfEntry(row, RowLess, at);
  }

  lemma PredecessorsAreNumbers(row: seq<Float>, i: nat)
    requires i < |row| && !row[i].NaN?
    ensures Predecessors(row, RowLess, i) <= NumberPositions(row)
  {
    forall a | a in Predecessors(row, RowLess, i) ensures a in NumberPositions(row) {
      assert ByKey(row, RowLess)(a, i);
      assert RowLess(row[a], row[i]) || !RowLess(row[i], row[a]);
    }
  }

  /** A number's predecessors are numbers; a NaN's include every number. */
  lemma RankSplits(row: seq<Float>, i: nat)
    requires i < |row|
    ensures !row[i].NaN? ==> |Predecessors(row, RowLess, i)| < |NumberPositions(row)|
    ensures row[i].NaN? ==> |Predecessors(row, RowLess, i)| >= |NumberPositions(row)|
    ensures (row[i].NaN? && |Predecessors(row, RowLess, i)| == |NumberPositions(row)|)
              ==> forall a :: 0 <= a < i ==> !row[a].NaN?
  {
    var before, numbers := Predecessors(row, RowLess, i), NumberPositions(row);
    if row[i].NaN? {
      forall a | a in numbers ensures a in before { assert RowLess(row[a], row[i]); }
      SizeAtMost(numbers, before);
      if |before| == |numbers| {
        SubsetOfSameSize(numbers, before);
        forall a | 0 <= a < i ensures !row[a].NaN? {
          assert a in before;
        }
      }
    } else {
      PredecessorsAreNumbers(row, i);
      SizeAtMost(before + {i}, numbers);
      assert |before + {i}| == |before| + 1;
    }
  }

  /** median: a row with a NaN gives NaN at its first NaN; any other row gives the entry of rank
  `(size - 1) / 2` by (value, position). */
  lemma MedianMeaning(row: seq<Float>)
    requires |row| > 0
    ensures MedianOfFloats(row, false).Success? && MedianOfFloats(row, false).value.1 < |row|
    ensures var (value, index) := MedianOfFloats(row, false).value;
            && value == row[index]
            && (HasNan(row) ==> value.NaN? && forall a :: 0 <= a < index ==> !row[a].NaN?)
            && (!HasNan(row) ==> |Predecessors(row, RowLess, index)| == (|row| - 1) / 2)
  {
    NumbersAndNans(row);
    var at := MedianPosition(|row|, CountNan(row), false);
    RankInRow(row, at);
    RankSplits(row, NanLastIndices(row)[at]);
  }

  /** nanmedian: the entry of rank `(numbers - 1) / 2` among the numbers, or NaN at index 0 when there is none. */
  lemma NanMedianMeaning(row: seq<Float>)
    requires |row| > 0
    ensures MedianOfFloats(row, true).Success? && MedianOfFloats(row, true).value.1 < |row|
    ensures var (value, index) := MedianOfFloats(row, true).value;
            var numbers := |NumberPositions(row)|;
            && value == row[index]
            && (numbers == 0 ==> value.NaN? && index == 0)
            && (numbers > 0 ==> !value.NaN? && |Predecessors(row, RowLess, index)| == (numbers - 1) / 2
                                && Predecessors(row, RowLess, index) <= NumberPositions(row))
  {
    NumbersAndNans(row);
    var at := MedianPosition(|row|, CountNan(row), true);
    RankInRow(row, at);
    var index := NanLastIndices(row)[at];
    RankSplits(row, index);
    if |NumberPositions(row)| == 0 {
      assert 0 !in NumberPositions(row);
    } else {
      PredecessorsAreNumbers(row, index);
    }
  }

  /** The integer route picks the same rank as the float route. */
  lemma IntegerRouteSameRank(row: seq<int>)
    requires |row| > 0
    ensures MedianOfInts(row).Success? && MedianOfInts(row).value.1 < |row|
    ensures |Predecessors(row, IntLess, MedianOfInts(row).value.1)| == (|row| - 1) / 2
  {}

  /** The index returned for a tied median is not the lowest one holding the value in general, on any route ... */
  lemma TiedMedianIsNotLowest()
    ensures var row := [Number(5.0), Number(5.0), Number(5.0)];
            && MedianOfFloats(row, false) == Success((Number(5.0), 1))
            && MedianOfFloats(row, true) == Success((Number(5.0), 1))
    ensures MedianOfInts([5, 5, 5]) == Success((5, 1))
  {
    var row, ints := [Number(5.0), Number(5.0), Number(5.0)], [5, 5, 5];
    MedianMeaning(row);
    NanMedianMeaning(row);
    assert NumberPositions(row) == {0, 1, 2};
    RowLessIsWeakOrder();
    assert Predecessors(row, RowLess, 1) == {0};
    RankUnique(row, RowLess, MedianOfFloats(row, false).value.1, 1);
    RankUnique(row, RowLess, MedianOfFloats(row, true).value.1, 1);
    IntLessIsWeakOrder();
    assert Predecessors(ints, IntLess, 1) == {0};
    RankUnique(ints, IntLess, MedianOfInts(ints).value.1, 1);
  }

  /** The lower of the two middle values, with infinities at the ends and NaNs left out by nanmedian. */
  lemma MedianExamples()
    ensures MedianOfFloats([Number(3.0), Infinite(true), Number(1.0), Infinite(false)], false) == Success((Number(1.0), 2))
    ensures MedianOfInts([3, 1, 2, 4]) == Success((2, 2))
  {
    var row, ints := [Number(3.0), Infinite(true), Number(1.0), Infinite(false)], [3, 1, 2, 4];
    MedianMeaning(row);
    RowLessIsWeakOrder();
    assert Predecessors(row, RowLess, 2) == {3};
    RankUnique(row, RowLess, MedianOfFloats(row, false).value.1, 2);
    IntLessIsWeakOrder();
    assert Predecessors(ints, IntLess, 2) == {1};
    RankUnique(ints, IntLess, MedianOfInts(ints).value.1, 2);
  }

  lemma RowTies(row: seq<Float>, index: nat)
    requires index < |row|
    ensures IsLowest(row, RowLess, index) <==> forall a :: 0 <= a < index ==> row[a] != row[index]
  {
    forall a | 0 <= a < index
      ensures row[a] != row[index] <==> RowLess(row[a], row[index]) || RowLess(row[index], row[a])
    {}
  }

  /** ... but exactly when the row holds a NaN or some entry with `(size - 1) / 2` strictly smaller ones. */
  lemma MedianIndexLowestExactly(row: seq<Float>)
    requires |row| > 0
    ensures MedianOfFloats(row, false).Success? && MedianOfFloats(row, false).value.1 < |row|
    ensures var index := MedianOfFloats(row, false).value.1;
            (forall a :: 0 <= a < index ==> row[a] != row[index])
              <==> (HasNan(row) || exists i: nat :: i < |row| && |Smaller(row, RowLess, i)| == (|row| - 1) / 2)
  {
    MedianMeaning(row);
    RowLessIsWeakOrder();
    var index := MedianOfFloats(row, false).value.1;
    LowestExactly(row, RowLess, index);
    RowTies(row, index);
  }

  /** nanmedian: exactly when there is no number, or some number has `(numbers - 1) / 2` strictly smaller ones. */
  lemma NanMedianIndexLowestExactly(row: seq<Float>)
    requires |row| > 0
    ensures MedianOfFloats(row, true).Success? && MedianOfFloats(row, true).value.1 < |row|
    ensures var index, numbers := MedianOfFloats(row, true).value.1, |NumberPositions(row)|;
            (forall a :: 0 <= a < index ==> row[a] != row[index])
              <==> (numbers == 0
                    || exists i: nat :: i < |row| && !row[i].NaN? && |Smaller(row, RowLess, i)| == (numbers - 1) / 2)
  {
    NanMedianMeaning(row);
    RowLessIsWeakOrder();
    var index, numbers := MedianOfFloats(row, true).value.1, NumberPositions(row);
    LowestExactly(row, RowLess, index);
    RowTies(row, index);
    forall i: nat | i < |row| && row[i].NaN? ensures |Smaller(row, RowLess, i)| >= |numbers| {
      NumbersBelowNan(row, i);
    }
  }
  lemma NumbersBelowNan(row: seq<Float>, i: nat)
    requires i < |row| && row[i].NaN?
    ensures |Smaller(row, RowLess, i)| >= |NumberPositions(row)|
  {
    forall a | a in NumberPositions(row) ensures a in Smaller(row, RowLess, i) { assert RowLess(row[a], row[i]); }
    SizeAtMost(NumberPositions(row), Smaller(row, RowLess, i));
  }

  /** Integers: exactly when some entry has `(size - 1) / 2` strictly smaller ones. */
  lemma IntegerIndexLowestExactly(row: seq<int>)
    requires |row| > 0
    ensures MedianOfInts(row).Success? && MedianOfInts(row).value.1 < |row|
    ensures var index := MedianOfInts(row).value.1;
            (forall a :: 0 <= a < index ==> row[a] != row[index])
              <==> exists i: nat :: i < |row| && |Smaller(row, IntLess, i)| == (|row| - 1) / 2
  {
    IntLessIsWeakOrder();
    var index := MedianOfInts(row).value.1;
    LowestExactly(row, IntLess, index);
    forall a | 0 <= a < index
      ensures row[a] != row[index] <==> IntLess(row[a], row[index]) || IntLess(row[index], row[a])
    {}
  }
}
