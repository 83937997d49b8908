/** searchsorted/bucketize of one row as a masked count. */
module SearchSorted {
  import opened OrderStatistics

  /** IEEE comparisons: false whenever an operand is NaN. */
  predicate Greater(a: Float, b: Float) { !a.NaN? && !b.NaN? && Less(b, a) }
  predicate GreaterEqual(a: Float, b: Float) { !a.NaN? && !b.NaN? && !Less(a, b) }

  /** `not (boundary > value)` for the right side, `not (boundary >= value)` for the left. */
  predicate Advances(boundary: Float, value: Float, right: bool) {
    !(if right then Greater(boundary, value) else GreaterEqual(boundary, value))
  }

  predicate Numeric(b: Float) { !b.NaN? }
  function Counted(value: Float, right: bool): Float -> bool {
    (b: Float) => Advances(b, value, right) && !b.NaN?
  }

  function CountWhere(row: seq<Float>, p: Float -> bool): (c: nat)
    ensures c <= |row|
  {
    if row == [] then 0 else (if p(row[0]) then 1 else 0) + CountWhere(row[1..], p)
  }

  /** The mapping: numeric boundaries that advance are counted; a count that reaches every numeric boundary
  is replaced by the full length. */
  function Impl(bounds: seq<Float>, value: Float, right: bool): nat {
    if |bounds| == 0 then 0 else
    var counts := CountWhere(bounds, Counted(value, right));
    var numeric := CountWhere(bounds, Numeric);
    if counts == numeric then numeric + CountNan(bounds) else counts
  }

  ghost predicate Nondecreasing(row: seq<Float>) {
    && (forall i :: 0 <= i < |row| ==> !row[i].NaN?)
    && (forall i, j :: 0 <= i < j < |row| ==> !Less(row[j], row[i]))
  }

  /** `bounds` is a nondecreasing numeric prefix of length `m` followed by NaNs. */
  ghost predicate NanTailed(bounds: seq<Float>, m: nat) {
    && m <= |bounds| && Nondecreasing(bounds[..m])
    && forall i :: m <= i < |bounds| ==> bounds[i].NaN?
  }

  /** `p` splits the prefix: everything before it is below the value, nothing from it on is. */
  ghost predicate Splits(row: seq<Float>, value: Float, right: bool, p: nat) {
    && p <= |row|
    && (forall i :: 0 <= i < p ==> Advances(row[i], value, right))
    && (forall i :: p <= i < |row| ==> !Advances(row[i], value, right))
  }

  /** The insertion point by bisection, the textbook form. */
  function Bisect(row: seq<Float>, value: Float, right: bool, lo: nat, hi: nat): (r: nat)
    requires lo <= hi <= |row|
    ensures lo <= r <= hi
    decreases hi - lo
  {
    if lo == hi then lo else
    var mid := lo + (hi - lo) / 2;
    if Advances(row[mid], value, right) then Bisect(row, value, right, mid + 1, hi) else Bisect(row, value, right, lo, mid)
  }

  lemma AdvancesDownward(row: seq<Float>, value: Float, right: bool, i: nat, j: nat)
    requires Nondecreasing(row) && i <= j < |row| && Advances(row[j], value, right)
    ensures Advances(row[i], value, right)
  {}

  lemma {:induction false} BisectSplits(row: seq<Float>, value: Float, right: bool, lo: nat, hi: nat)
    requires Nondecreasing(row) && lo <= hi <= |row|
    requires forall i :: 0 <= i < lo ==> Advances(row[i], value, right)
    requires forall i :: hi <= i < |row| ==> !Advances(row[i], value, right)
    ensures Splits(row, value, right, Bisect(row, value, right, lo, hi))
    decreases hi - lo
  {
    hide Nondecreasing, Advances;
    if lo < hi {
      var mid := lo + (hi - lo) / 2;
      if Advances(row[mid], value, right) {
        forall i | 0 <= i < mid + 1 ensures Advances(row[i], value, right) { AdvancesDownward(row, value, right, i, mid); }
        BisectSplits(row, value, right, mid + 1, hi);
      } else {
        forall i | mid <= i < |row| ensures !Advances(row[i], value, right) {
          if Advances(row[i], value, right) { AdvancesDownward(row, value, right, mid, i); }
        }
        BisectSplits(row, value, right, lo, mid);
      }
    }
  }

  lemma {:induction false} CountPrefix(row: seq<Float>, p: Float -> bool, n: nat)
    requires n <= |row|
    requires forall i :: 0 <= i < n ==> p(row[i])
    requires forall i :: n <= i < |row| ==> !p(row[i])
    ensures CountWhere(row, p) == n
  {
    if row != [] {
      CountPrefix(row[1..], p, if n == 0 then 0 else n - 1);
    }
  }

  lemma {:induction false} NumericRest(row: seq<Float>)
    ensures CountWhere(row, Numeric) + CountNan(row) == |row|
  {
    if row != [] { NumericRest(row[1..]); }
  }

  /** Insertion points in the order of the values: on the left every earlier entry is smaller and no later one is;
  on the right no earlier entry is larger and every later one is. */
  ghost predicate InsertsLeft(row: seq<Float>, value: Float, p: nat)
    requires !value.NaN? && forall i :: 0 <= i < |row| ==> !row[i].NaN?
  {
    && p <= |row|
    && (forall i :: 0 <= i < p ==> Less(row[i], value))
    && (forall i :: p <= i < |row| ==> !Less(row[i], value))
  }
  ghost predicate InsertsRight(row: seq<Float>, value: Float, p: nat)
    requires !value.NaN? && forall i :: 0 <= i < |row| ==> !row[i].NaN?
  {
    && p <= |row|
    && (forall i :: 0 <= i < p ==> !Less(value, row[i]))
    && (forall i :: p <= i < |row| ==> Less(value, row[i]))
  }

  /** Bisection of a nondecreasing numeric row finds the insertion point of the side it is asked for. */
  lemma BisectInserts(row: seq<Float>, value: Float)
    requires Nondecreasing(row) && !value.NaN?
    ensures InsertsLeft(row, value, Bisect(row, value, false, 0, |row|))
    ensures InsertsRight(row, value, Bisect(row, value, true, 0, |row|))
  {
    BisectSplits(row, value, false, 0, |row|);
    BisectSplits(row, value, true, 0, |row|);
    hide Bisect, Less;
  }

  /** The mapping on a row with a NaN tail, in the order of the values. */
  lemma ImplInserts(bounds: seq<Float>, m: nat, value: Float)
    requires NanTailed(bounds, m) && !value.NaN?
    ensures exists p: nat :: InsertsLeft(bounds[..m], value, p) && Impl(bounds, value, false) == if p == m then |bounds| else p
    ensures exists p: nat :: InsertsRight(bounds[..m], value, p) && Impl(bounds, value, true) == if p == m then |bounds| else p
  {
    hide Impl, Bisect, Splits, Less, InsertsLeft, InsertsRight;
    BisectInserts(bounds[..m], value);
    NumberValue(bounds, m, value, false);
    NumberValue(bounds, m, value, true);
  }

  /** A row with ties tells the sides apart. */
  lemma TiesTellSides()
    ensures Impl([Number(1.0), Number(2.0), Number(2.0), Number(3.0)], Number(2.0), false) == 1
    ensures Impl([Number(1.0), Number(2.0), Number(2.0), Number(3.0)], Number(2.0), true) == 3
  {
    var row := [Number(1.0), Number(2.0), Number(2.0), Number(3.0)];
    assert row[..4] == row && NanTailed(row, 4);
    ImplInserts(row, 4, Number(2.0));
    var p: nat :| InsertsLeft(row[..4], Number(2.0), p) && Impl(row, Number(2.0), false) == if p == 4 then |row| else p;
    var q: nat :| InsertsRight(row[..4], Number(2.0), q) && Impl(row, Number(2.0), true) == if q == 4 then |row| else q;
    hide Impl;
    assert Less(row[0], Number(2.0)) && !Less(row[1], Number(2.0)) && !Less(Number(2.0), row[2]) && Less(Number(2.0), row[3]);
  }

  /** A number: the insertion point in the numeric prefix, or the full length exactly when that point is
  the end of the prefix. */
  lemma NumberValue(bounds: seq<Float>, m: nat, value: Float, right: bool)
    requires NanTailed(bounds, m) && !value.NaN?
    ensures var p := Bisect(bounds[..m], value, right, 0, m);
            && Splits(bounds[..m], value, right, p)
            && Impl(bounds, value, right) == (if p == m then |bounds| else p)
  {
    hide Nondecreasing, Advances, Less, Impl;
    var prefix := bounds[..m];
    BisectSplits(prefix, value, right, 0, m);
    CountsOfASplit(bounds, m, value, right, Bisect(prefix, value, right, 0, m));
  }

  lemma CountsOfASplit(bounds: seq<Float>, m: nat, value: Float, right: bool, p: nat)
    requires NanTailed(bounds, m) && Splits(bounds[..m], value, right, p)
    ensures Impl(bounds, value, right) == if p == m then |bounds| else p
  {
    hide Advances, Less, Bisect;
    var prefix := bounds[..m];
    forall i | 0 <= i < m ensures !bounds[i].NaN? && (Advances(bounds[i], value, right) <==> i < p) {
      assert prefix[i] == bounds[i];
    }
    CountPrefix(bounds, Numeric, m);
    NumericRest(bounds);
    CountPrefix(bounds, Counted(value, right), p);
  }

  /** The insertion point is unique, so the split determines the answer. */
  lemma SplitUnique(row: seq<Float>, value: Float, right: bool, p: nat, q: nat)
    requires Splits(row, value, right, p) && Splits(row, value, right, q)
    ensures p == q
  {
    CountPrefix(row, (b: Float) => Advances(b, value, right), p);
    CountPrefix(row, (b: Float) => Advances(b, value, right), q);
  }

  /** A NaN value always gets the full length, whatever the row holds. */
  lemma NanValue(bounds: seq<Float>, right: bool)
    ensures Impl(bounds, NaN, right) == |bounds|
  {
    CountSame(bounds, Counted(NaN, right), Numeric);
    NumericRest(bounds);
  }
  lemma {:induction false} CountSame(row: seq<Float>, p: Float -> bool, q: Float -> bool)
    requires forall i :: 0 <= i < |row| ==> (p(row[i]) <==> q(row[i]))
    ensures CountWhere(row, p) == CountWhere(row, q)
  {
    if row != [] { CountSame(row[1..], p, q); }
  }

  /** Where a bisection of `lo..hi` for a split at `p` first looks at or past `p`. */
  function FirstStop(lo: nat, hi: nat, p: nat): (mid: nat)
    requires lo <= p < hi
    ensures p <= mid < hi
    decreases hi - lo
  {
    var mid := lo + (hi - lo) / 2;
    if mid < p then FirstStop(mid + 1, hi, p) else mid
  }

  /** A bisection inside a stretch that splits at `p` finds `p`. */
  lemma {:induction false} BisectFinds(row: seq<Float>, value: Float, right: bool, lo: nat, hi: nat, p: nat)
    requires lo <= p <= hi <= |row|
    requires forall i :: lo <= i < p ==> Advances(row[i], value, right)
    requires forall i :: p <= i < hi ==> !Advances(row[i], value, right)
    ensures Bisect(row, value, right, lo, hi) == p
    decreases hi - lo
  {
    hide Advances;
    if lo < hi {
      var mid := lo + (hi - lo) / 2;
      if mid < p { BisectFinds(row, value, right, mid + 1, hi, p); } else { BisectFinds(row, value, right, lo, mid, p); }
    }
  }

  /** With an advancing tail from `m` on, the split is found exactly when the first look past it falls before the tail. */
  lemma {:induction false} BisectBeforeTail(row: seq<Float>, value: Float, right: bool, lo: nat, hi: nat, p: nat, m: nat)
    requires lo <= p < m <= hi <= |row|
    requires forall i :: lo <= i < p ==> Advances(row[i], value, right)
    requires forall i :: p <= i < m ==> !Advances(row[i], value, right)
    requires forall i :: m <= i < hi ==> Advances(row[i], value, right)
    ensures Bisect(row, value, right, lo, hi) == p <==> FirstStop(lo, hi, p) < m
    decreases hi - lo
  {
    hide Advances;
    var mid := lo + (hi - lo) / 2;
    if mid < p {
      BisectBeforeTail(row, value, right, mid + 1, hi, p, m);
    } else if mid < m {
      BisectFinds(row, value, right, lo, mid, p);
    }
  }

  lemma PrefixAdvances(bounds: seq<Float>, m: nat, value: Float, right: bool, p: nat)
    requires NanTailed(bounds, m) && Splits(bounds[..m], value, right, p)
    ensures forall i :: 0 <= i < p ==> Advances(bounds[i], value, right)
    ensures forall i :: p <= i < m ==> !Advances(bounds[i], value, right)
    ensures forall i :: m <= i < |bounds| ==> Advances(bounds[i], value, right)
  {
    forall i | 0 <= i < m ensures Advances(bounds[i], value, right) <==> i < p { assert bounds[..m][i] == bounds[i]; }
  }

  /** On a row with a NaN tail the count is the binary search of the whole row exactly when the insertion point
  is the end of the numbers or the search first looks past it before the tail. */
  lemma AgreeWithBinarySearch(bounds: seq<Float>, m: nat, value: Float, right: bool)
    requires NanTailed(bounds, m)
    ensures var p := Bisect(bounds[..m], value, right, 0, m);
            (Impl(bounds, value, right) == Bisect(bounds, value, right, 0, |bounds|))
              <==> (p == m || FirstStop(0, |bounds|, p) < m)
  {
    hide Impl, Advances, Nondecreasing;
    var p := Bisect(bounds[..m], value, right, 0, m);
    BisectSplits(bounds[..m], value, right, 0, m);
    PrefixAdvances(bounds, m, value, right, p);
    if p == m {
      BisectFinds(bounds, value, right, 0, |bounds|, |bounds|);
      if value.NaN? { NanValue(bounds, right); } else { NumberValue(bounds, m, value, right); }
    } else {
      if value.NaN? { NanAdvances(bounds[p], right); }
      NumberValue(bounds, m, value, right);
      BisectBeforeTail(bounds, value, right, 0, |bounds|, p, m);
    }
  }
  lemma NanAdvances(b: Float, right: bool)
    ensures Advances(b, NaN, right)
  {}

  /** Without NaN boundaries the count is the binary search, for every value, NaN included. */
  lemma CountIsBinarySearch(row: seq<Float>, value: Float, right: bool)
    requires Nondecreasing(row)
    ensures Impl(row, value, right) == Bisect(row, value, right, 0, |row|)
  {
    hide Impl, Bisect;
    assert row[..|row|] == row;
    AgreeWithBinarySearch(row, |row|, value, right);
  }

  /** A binary search over the whole row can enter the NaN tail where the count does not. */
  lemma NanTailSeparatesThem()
    ensures Impl([Number(1.0), NaN, NaN], Number(0.0), false) == 0
    ensures Bisect([Number(1.0), NaN, NaN], Number(0.0), false, 0, 3) == 3
  {}
}
