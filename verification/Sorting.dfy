/** Sorting by a total order, and stable ordering of positions by a key. */
module Sorting {

  ghost predicate TotalOrder<T(!new)>(le: (T, T) -> bool) {
    && (forall a, b :: le(a, b) || le(b, a))
    && (forall a, b :: le(a, b) && le(b, a) ==> a == b)
    && (forall a, b, c :: le(a, b) && le(b, c) ==> le(a, c))
  }

  ghost predicate Sorted<T>(s: seq<T>, le: (T, T) -> bool) {
    forall i, j :: 0 <= i < j < |s| ==> le(s[i], s[j])
  }

  /** Insertion behind every element that is not greater, which keeps equal keys in order. */
  function Insert<T>(x: T, s: seq<T>, le: (T, T) -> bool): seq<T> {
    if s == [] || le(s[|s| - 1], x) then s + [x] else Insert(x, s[..|s| - 1], le) + [s[|s| - 1]]
  }
  function Sort<T>(s: seq<T>, le: (T, T) -> bool): seq<T> {
    if s == [] then [] else Insert(s[|s| - 1], Sort(s[..|s| - 1], le), le)
  }

  lemma {:induction false} InsertPermutes<T>(x: T, s: seq<T>, le: (T, T) -> bool)
    ensures multiset(Insert(x, s, le)) == multiset(s) + multiset{x}
  {
    if s != [] && !le(s[|s| - 1], x) {
      InsertPermutes(x, s[..|s| - 1], le);
      assert s == s[..|s| - 1] + [s[|s| - 1]];
    }
  }

  lemma {:induction false} SortPermutes<T>(s: seq<T>, le: (T, T) -> bool)
    ensures multiset(Sort(s, le)) == multiset(s)
    ensures |Sort(s, le)| == |s|
  {
    if s != [] {
      SortPermutes(s[..|s| - 1], le);
      InsertPermutes(s[|s| - 1], Sort(s[..|s| - 1], le), le);
      assert s == s[..|s| - 1] + [s[|s| - 1]];
    }
    assert |multiset(Sort(s, le))| == |multiset(s)|;
  }

  lemma {:induction false} InsertSorted<T(!new)>(x: T, s: seq<T>, le: (T, T) -> bool)
    requires TotalOrder(le) && Sorted(s, le)
    ensures Sorted(Insert(x, s, le), le)
  {
    if s != [] && !le(s[|s| - 1], x) {
      var init, last := s[..|s| - 1], s[|s| - 1];
      InsertSorted(x, init, le);
      var r := Insert(x, init, le);
      forall i | 0 <= i < |r| ensures le(r[i], last) {
        InsertPermutes(x, init, le);
        assert r[i] in multiset(r);
        assert r[i] in multiset(init) || r[i] == x;
      }
    }
  }

  lemma {:induction false} SortSorts<T(!new)>(s: seq<T>, le: (T, T) -> bool)
    requires TotalOrder(le)
    ensures Sorted(Sort(s, le), le)
  {
    if s != [] {
      SortSorts(s[..|s| - 1], le);
      InsertSorted(s[|s| - 1], Sort(s[..|s| - 1], le), le);
    }
  }

  lemma SortedTail<T>(s: seq<T>, le: (T, T) -> bool)
    requires Sorted(s, le) && s != []
    ensures Sorted(s[1..], le)
    ensures multiset(s[1..]) == multiset(s) - multiset{s[0]}
  {
    assert s == [s[0]] + s[1..];
  }
  lemma HeadLeast<T(!new)>(s: seq<T>, x: T, le: (T, T) -> bool)
    requires TotalOrder(le) && Sorted(s, le) && x in multiset(s)
    ensures s != [] && le(s[0], x)
  {}
  lemma Antisymmetric<T(!new)>(x: T, y: T, le: (T, T) -> bool)
    requires TotalOrder(le) && le(x, y) && le(y, x)
    ensures x == y
  {}

  /** A multiset has only one sorted arrangement. */
  lemma {:induction false} SortedUnique<T(!new)>(a: seq<T>, b: seq<T>, le: (T, T) -> bool)
    requires TotalOrder(le) && Sorted(a, le) && Sorted(b, le) && multiset(a) == multiset(b)
    ensures a == b
  {
    hide TotalOrder, Sorted;
    assert |multiset(a)| == |a| && |multiset(b)| == |b|;
    if a != [] {
      HeadLeast(b, a[0], le);
      HeadLeast(a, b[0], le);
      Antisymmetric(a[0], b[0], le);
      SortedTail(a, le);
      SortedTail(b, le);
      SortedUnique(a[1..], b[1..], le);
      assert a == [a[0]] + a[1..] && b == [b[0]] + b[1..];
    }
  }

  // --------------------------------------------------- stable order of positions by key

  ghost predicate StrictWeakOrder<K(!new)>(less: (K, K) -> bool) {
    && (forall a :: !less(a, a))
    && (forall a, b, c :: less(a, b) && less(b, c) ==> less(a, c))
    && (forall a, b, c :: !less(a, b) && !less(b, c) ==> !less(a, c))
  }

  /** Position order: by key, then by position. */
  function ByKey<K>(keys: seq<K>, less: (K, K) -> bool): (nat, nat) -> bool {
    (a: nat, b: nat) => if a < |keys| && b < |keys| then
                less(keys[a], keys[b]) || (!less(keys[b], keys[a]) && a <= b)
              else a <= b
  }

  lemma ByKeyTotal<K(!new)>(keys: seq<K>, less: (K, K) -> bool)
    requires StrictWeakOrder(less)
    ensures TotalOrder(ByKey(keys, less))
  {}

  function Positions(n: nat): (s: seq<nat>)
    ensures |s| == n && forall i :: 0 <= i < n ==> s[i] == i
  {
    seq(n, i => i)
  }

  /** The stable ascending order: what a k-selection of the whole axis returns as indices. */
  function StableOrder<K>(keys: seq<K>, less: (K, K) -> bool): seq<nat> {
    Sort(Positions(|keys|), ByKey(keys, less))
  }

  ghost predicate IsOrderOf(p: seq<nat>, n: nat) { multiset(p) == multiset(Positions(n)) }

  lemma StableOrderIsStable<K(!new)>(keys: seq<K>, less: (K, K) -> bool)
    requires StrictWeakOrder(less)
    ensures IsOrderOf(StableOrder(keys, less), |keys|)
    ensures Sorted(StableOrder(keys, less), ByKey(keys, less))
  {
    ByKeyTotal(keys, less);
    SortPermutes(Positions(|keys|), ByKey(keys, less));
    SortSorts(Positions(|keys|), ByKey(keys, less));
  }

  lemma OrderIndices(p: seq<nat>, n: nat)
    requires IsOrderOf(p, n)
    ensures |p| == n
    ensures forall i :: 0 <= i < |p| ==> p[i] < n
    ensures forall i, j :: 0 <= i < j < |p| ==> p[i] != p[j]
    ensures forall a :: 0 <= a < n ==> a in p
  {
    assert |multiset(p)| == |p| && |multiset(Positions(n))| == n;
    forall i | 0 <= i < |p| ensures p[i] < n {
      assert p[i] in multiset(p);
      assert p[i] in Positions(n);
    }
    forall a: nat ensures multiset(Positions(n))[a] <= 1 { PositionsOnce(n, a); }
    forall i, j | 0 <= i < j < |p| ensures p[i] != p[j] {
      TwiceIn(p, i, j);
    }
    forall a: nat | a < n ensures a in p {
      assert Positions(n)[a] == a;
      assert a in multiset(Positions(n));
    }
  }

  lemma {:induction false} PositionsOnce(n: nat, a: nat)
    ensures multiset(Positions(n))[a] == if a < n then 1 else 0
  {
    if n > 0 {
      PositionsOnce(n - 1, a);
      assert Positions(n) == Positions(n - 1) + [n - 1];
    }
  }

  /** A list of distinct positions below `n` that misses none is an order of them. */
  lemma DistinctCovers(p: seq<nat>, n: nat)
    requires |p| == n
    requires forall i :: 0 <= i < |p| ==> p[i] < n
    requires forall i, j :: 0 <= i < j < |p| ==> p[i] != p[j]
    ensures IsOrderOf(p, n)
  {
    DistinctCount(p);
    DistinctCount(Positions(n));
    forall x | x in Elements(p) ensures x in Elements(Positions(n)) {
      assert Positions(n)[x] == x;
    }
    SubsetOfSameSize(Elements(p), Elements(Positions(n)));
    forall a: nat ensures multiset(p)[a] == multiset(Positions(n))[a] {
      PositionsOnce(n, a);
      assert a in Elements(p) <==> a in Elements(Positions(n));
    }
  }

  function Elements(p: seq<nat>): set<nat> { set i | i in p }

  lemma {:induction false} DistinctCount(p: seq<nat>)
    requires forall i, j :: 0 <= i < j < |p| ==> p[i] != p[j]
    ensures |Elements(p)| == |p|
    ensures forall a: nat :: multiset(p)[a] == if a in p then 1 else 0
  {
    if p != [] {
      DistinctCount(p[1..]);
      assert p == [p[0]] + p[1..];
      assert Elements(p) == Elements(p[1..]) + {p[0]};
    }
  }

  lemma SubsetOfSameSize(a: set<nat>, b: set<nat>)
    requires a <= b && |a| == |b|
    ensures a == b
  {
    assert b == a + (b - a);
    assert |b| == |a| + |b - a|;
  }

  // ------------------------------------------------------------------ strings

  /** Lexicographic order by code point. */
  predicate StringLe(a: string, b: string) {
    if a == [] then true else if b == [] then false
    else if a[0] != b[0] then a[0] < b[0] else StringLe(a[1..], b[1..])
  }
  lemma {:induction false} StringLeTotalAt(a: string, b: string)
    ensures StringLe(a, b) || StringLe(b, a)
    ensures StringLe(a, b) && StringLe(b, a) ==> a == b
  {
    if a != [] && b != [] && a[0] == b[0] {
      StringLeTotalAt(a[1..], b[1..]);
      assert a == [a[0]] + a[1..] && b == [b[0]] + b[1..];
    }
  }
  lemma {:induction false} StringLeTransitive(a: string, b: string, c: string)
    requires StringLe(a, b) && StringLe(b, c)
    ensures StringLe(a, c)
  {
    if a != [] && c != [] && a[0] == b[0] == c[0] { StringLeTransitive(a[1..], b[1..], c[1..]); }
  }
  lemma StringLeIsTotalOrder()
    ensures TotalOrder(StringLe)
  {
    forall a, b ensures (StringLe(a, b) || StringLe(b, a)) && (StringLe(a, b) && StringLe(b, a) ==> a == b) {
      StringLeTotalAt(a, b);
    }
    forall a, b, c | StringLe(a, b) && StringLe(b, c) ensures StringLe(a, c) { StringLeTransitive(a, b, c); }
  }

  ghost predicate Distinct<T>(s: seq<T>) { forall i, j :: 0 <= i < j < |s| ==> s[i] != s[j] }

  /** `sorted` of a set of names. */
  method SortedNames(names: set<string>) returns (r: seq<string>)
    ensures Sorted(r, StringLe) && Distinct(r)
    ensures forall n :: n in r <==> n in names
  {
    var rest, s := names, [];
    while rest != {}
      invariant rest <= names && Distinct(s)
      invariant forall n :: n in s <==> n in names && n !in rest
      decreases |rest|
    {
      var x :| x in rest;
      rest := rest - {x};
      s := s + [x];
    }
    StringLeIsTotalOrder();
    SortSorts(s, StringLe);
    SortPermutes(s, StringLe);
    r := Sort(s, StringLe);
    SameElements(r, s);
  }

  /** A rearrangement has the same elements and stays free of duplicates. */
  lemma SameElements<T>(a: seq<T>, b: seq<T>)
    requires multiset(a) == multiset(b)
    ensures forall x :: x in a <==> x in b
    ensures Distinct(b) ==> Distinct(a)
  {
    forall x ensures x in a <==> x in b { assert x in a <==> x in multiset(a); assert x in b <==> x in multiset(b); }
    if Distinct(b) {
      forall i, j | 0 <= i < j < |a| ensures a[i] != a[j] {
        OnceEach(b, a[i]);
        TwiceIn(a, i, j);
      }
    }
  }
  lemma {:induction false} OnceEach<T>(b: seq<T>, x: T)
    requires Distinct(b)
    ensures multiset(b)[x] <= 1
  {
    if b != [] {
      OnceEach(b[1..], x);
      assert b == [b[0]] + b[1..];
    }
  }
  lemma TwiceIn<T>(a: seq<T>, i: nat, j: nat)
    requires i < j < |a|
    ensures a[i] == a[j] ==> multiset(a)[a[i]] >= 2
  {
    assert a == a[..i] + [a[i]] + a[i + 1..j] + [a[j]] + a[j + 1..];
  }
}
