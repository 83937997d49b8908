/** Finite sums of reals, the arithmetic the convolution and gather/scatter proofs rest on.

Every lemma speaks of summands through pointwise hypotheses, so that a caller names the
summands it already has instead of re-stating them. */
module Sums {

  function Sum(n: nat, f: int -> real): real {
    if n == 0 then 0.0 else Sum(n - 1, f) + f(n - 1)
  }

  function Row(f: (int, int) -> real, i: int): int -> real { j => f(i, j) }
  function Col(f: (int, int) -> real, j: int): int -> real { i => f(i, j) }

  function Inner2(n: nat, f: (int, int) -> real): int -> real { i => Sum(n, Row(f, i)) }
  function Sum2(m: nat, n: nat, f: (int, int) -> real): real { Sum(m, Inner2(n, f)) }

  function Row3(f: (int, int, int) -> real, i: int): (int, int) -> real { (j, k) => f(i, j, k) }
  function Inner3(m: nat, n: nat, f: (int, int, int) -> real): int -> real { i => Sum2(m, n, Row3(f, i)) }
  function Sum3(l: nat, m: nat, n: nat, f: (int, int, int) -> real): real { Sum(l, Inner3(m, n, f)) }

  function Row4(f: (int, int, int, int) -> real, i: int): (int, int, int) -> real { (j, k, l) => f(i, j, k, l) }
  function Col4(f: (int, int, int, int) -> real, j: int, k: int, l: int): int -> real { i => f(i, j, k, l) }

  lemma {:induction false} SumEq(n: nat, f: int -> real, g: int -> real)
    requires forall i :: 0 <= i < n ==> f(i) == g(i)
    ensures Sum(n, f) == Sum(n, g)
  {
    if n > 0 { SumEq(n - 1, f, g); }
  }

  lemma {:induction false} SumAdd(n: nat, f: int -> real, g: int -> real, h: int -> real)
    requires forall i :: 0 <= i < n ==> h(i) == f(i) + g(i)
    ensures Sum(n, h) == Sum(n, f) + Sum(n, g)
  {
    if n > 0 { SumAdd(n - 1, f, g, h); }
  }

  lemma {:induction false} SumScale(n: nat, c: real, f: int -> real, h: int -> real)
    requires forall i :: 0 <= i < n ==> h(i) == c * f(i)
    ensures Sum(n, h) == c * Sum(n, f)
  {
    if n > 0 { SumScale(n - 1, c, f, h); }
  }

  /** A sum with at most one nonzero term. */
  lemma {:induction false} SumDelta(n: nat, k: int, h: int -> real)
    requires forall i :: 0 <= i < n && i != k ==> h(i) == 0.0
    ensures Sum(n, h) == if 0 <= k < n then h(k) else 0.0
  {
    if n > 0 { SumDelta(n - 1, k, h); }
  }

  lemma {:induction false} SumSplit(n: nat, m: nat, f: int -> real, g: int -> real)
    requires forall i :: 0 <= i < m ==> g(i) == f(n + i)
    ensures Sum(n + m, f) == Sum(n, f) + Sum(m, g)
  {
    if m > 0 { SumSplit(n, m - 1, f, g); }
  }

  /** Exchange of two finite sums. */
  lemma {:induction false} SumSwap(n: nat, m: nat, f: (int, int) -> real, rows: int -> real, cols: int -> real)
    requires forall i :: 0 <= i < n ==> rows(i) == Sum(m, Row(f, i))
    requires forall j :: 0 <= j < m ==> cols(j) == Sum(n, Col(f, j))
    ensures Sum(n, rows) == Sum(m, cols)
  {
    if n == 0 {
      SumDelta(m, -1, cols);
    } else {
      var shorter := j => Sum(n - 1, Col(f, j));
      SumSwap(n - 1, m, f, rows, shorter);
      SumAdd(m, shorter, Row(f, n - 1), cols);
    }
  }

  /** Row-major flattening of an index pair keeps the sum. */
  lemma {:induction false} SumReshape(a: nat, b: nat, f: (int, int) -> real, rows: int -> real, flat: int -> real)
    requires forall i :: 0 <= i < a ==> rows(i) == Sum(b, Row(f, i))
    requires forall i, j :: 0 <= i < a && 0 <= j < b ==> flat(i * b + j) == f(i, j)
    ensures Sum(a * b, flat) == Sum(a, rows)
  {
    if a > 0 {
      SumReshape(a - 1, b, f, rows, flat);
      assert a * b == (a - 1) * b + b;
      SumSplit((a - 1) * b, b, flat, Row(f, a - 1));
    }
  }

  lemma Sum2Eq(m: nat, n: nat, f: (int, int) -> real, g: (int, int) -> real)
    requires forall i, j :: 0 <= i < m && 0 <= j < n ==> f(i, j) == g(i, j)
    ensures Sum2(m, n, f) == Sum2(m, n, g)
  {
    forall i | 0 <= i < m ensures Inner2(n, f)(i) == Inner2(n, g)(i) {
      SumEq(n, Row(f, i), Row(g, i));
    }
    SumEq(m, Inner2(n, f), Inner2(n, g));
  }

  lemma Sum2Add(m: nat, n: nat, f: (int, int) -> real, g: (int, int) -> real, h: (int, int) -> real)
    requires forall i, j :: 0 <= i < m && 0 <= j < n ==> h(i, j) == f(i, j) + g(i, j)
    ensures Sum2(m, n, h) == Sum2(m, n, f) + Sum2(m, n, g)
  {
    forall i | 0 <= i < m ensures Inner2(n, h)(i) == Inner2(n, f)(i) + Inner2(n, g)(i) {
      SumAdd(n, Row(f, i), Row(g, i), Row(h, i));
    }
    SumAdd(m, Inner2(n, f), Inner2(n, g), Inner2(n, h));
  }

  lemma Sum2Scale(m: nat, n: nat, c: real, f: (int, int) -> real, h: (int, int) -> real)
    requires forall i, j :: 0 <= i < m && 0 <= j < n ==> h(i, j) == c * f(i, j)
    ensures Sum2(m, n, h) == c * Sum2(m, n, f)
  {
    forall i | 0 <= i < m ensures Inner2(n, h)(i) == c * Inner2(n, f)(i) {
      SumScale(n, c, Row(f, i), Row(h, i));
    }
    SumScale(m, c, Inner2(n, f), Inner2(n, h));
  }

  lemma Sum2Delta(m: nat, n: nat, a: int, b: int, h: (int, int) -> real)
    requires forall i, j :: 0 <= i < m && 0 <= j < n && !(i == a && j == b) ==> h(i, j) == 0.0
    ensures Sum2(m, n, h) == if 0 <= a < m && 0 <= b < n then h(a, b) else 0.0
  {
    forall i | 0 <= i < m
      ensures Inner2(n, h)(i) == if i == a && 0 <= b < n then h(a, b) else 0.0
    {
      SumDelta(n, if i == a then b else -1, Row(h, i));
    }
    SumDelta(m, a, Inner2(n, h));
  }

  lemma Sum3Eq(l: nat, m: nat, n: nat, f: (int, int, int) -> real, g: (int, int, int) -> real)
    requires forall i, j, k :: 0 <= i < l && 0 <= j < m && 0 <= k < n ==> f(i, j, k) == g(i, j, k)
    ensures Sum3(l, m, n, f) == Sum3(l, m, n, g)
  {
    forall i | 0 <= i < l ensures Inner3(m, n, f)(i) == Inner3(m, n, g)(i) {
      Sum2Eq(m, n, Row3(f, i), Row3(g, i));
    }
    SumEq(l, Inner3(m, n, f), Inner3(m, n, g));
  }

  lemma Sum3Delta(l: nat, m: nat, n: nat, a: int, b: int, c: int, h: (int, int, int) -> real)
    requires forall i, j, k :: 0 <= i < l && 0 <= j < m && 0 <= k < n && !(i == a && j == b && k == c) ==> h(i, j, k) == 0.0
    ensures Sum3(l, m, n, h) == if 0 <= a < l && 0 <= b < m && 0 <= c < n then h(a, b, c) else 0.0
  {
    forall i | 0 <= i < l
      ensures Inner3(m, n, h)(i) == if i == a && 0 <= b < m && 0 <= c < n then h(a, b, c) else 0.0
    {
      Sum2Delta(m, n, if i == a then b else -1, c, Row3(h, i));
    }
    SumDelta(l, a, Inner3(m, n, h));
  }

  lemma Sum3Add(l: nat, m: nat, n: nat, f: (int, int, int) -> real, g: (int, int, int) -> real,
                h: (int, int, int) -> real)
    requires forall i, j, k :: 0 <= i < l && 0 <= j < m && 0 <= k < n ==> h(i, j, k) == f(i, j, k) + g(i, j, k)
    ensures Sum3(l, m, n, h) == Sum3(l, m, n, f) + Sum3(l, m, n, g)
  {
    forall i | 0 <= i < l ensures Inner3(m, n, h)(i) == Inner3(m, n, f)(i) + Inner3(m, n, g)(i) {
      Sum2Add(m, n, Row3(f, i), Row3(g, i), Row3(h, i));
    }
    SumAdd(l, Inner3(m, n, f), Inner3(m, n, g), Inner3(m, n, h));
  }

  lemma Sum3Scale(l: nat, m: nat, n: nat, c: real, f: (int, int, int) -> real, h: (int, int, int) -> real)
    requires forall i, j, k :: 0 <= i < l && 0 <= j < m && 0 <= k < n ==> h(i, j, k) == c * f(i, j, k)
    ensures Sum3(l, m, n, h) == c * Sum3(l, m, n, f)
  {
    forall i | 0 <= i < l ensures Inner3(m, n, h)(i) == c * Inner3(m, n, f)(i) {
      Sum2Scale(m, n, c, Row3(f, i), Row3(h, i));
    }
    SumScale(l, c, Inner3(m, n, f), Inner3(m, n, h));
  }

  /** Exchange of a sum with a triple sum. */
  lemma {:induction false} SumSwap3(n: nat, a: nat, b: nat, c: nat, f: (int, int, int, int) -> real,
                                    outer: int -> real, inner: (int, int, int) -> real)
    requires forall i :: 0 <= i < n ==> outer(i) == Sum3(a, b, c, Row4(f, i))
    requires forall p, q, r :: 0 <= p < a && 0 <= q < b && 0 <= r < c ==> inner(p, q, r) == Sum(n, Col4(f, p, q, r))
    ensures Sum(n, outer) == Sum3(a, b, c, inner)
  {
    if n == 0 {
      Sum3Scale(a, b, c, 0.0, inner, inner);
    } else {
      var shorter := (p, q, r) => Sum(n - 1, Col4(f, p, q, r));
      SumSwap3(n - 1, a, b, c, f, outer, shorter);
      Sum3Add(a, b, c, shorter, Row4(f, n - 1), inner);
    }
  }

  function Across(t: (int, int, int) -> ((int, int, int) -> real), p: int, q: int, r: int): (int, int, int) -> real {
    (i, j, k) => t(i, j, k)(p, q, r)
  }

  /** Exchange of two triple sums. */
  lemma Sum3Swap3(a: nat, b: nat, c: nat, d: nat, e: nat, f: nat,
                  t: (int, int, int) -> ((int, int, int) -> real),
                  outer: (int, int, int) -> real, inner: (int, int, int) -> real)
    requires forall i, j, k :: 0 <= i < a && 0 <= j < b && 0 <= k < c ==> outer(i, j, k) == Sum3(d, e, f, t(i, j, k))
    requires forall p, q, r :: 0 <= p < d && 0 <= q < e && 0 <= r < f ==>
               inner(p, q, r) == Sum3(a, b, c, Across(t, p, q, r))
    ensures Sum3(a, b, c, outer) == Sum3(d, e, f, inner)
  {
    hide Sum;
    var planes := (i: int, p: int, q: int, r: int) => Sum2(b, c, Row3(Across(t, p, q, r), i));
    forall i | 0 <= i < a ensures Inner3(b, c, outer)(i) == Sum3(d, e, f, Row4(planes, i)) {
      Sum2Swap3(b, c, d, e, f, (j, k) => t(i, j, k), Row3(outer, i), Row4(planes, i), i, t);
    }
    forall p, q, r | 0 <= p < d && 0 <= q < e && 0 <= r < f
      ensures inner(p, q, r) == Sum(a, Col4(planes, p, q, r))
    {
      SumEq(a, Inner3(b, c, Across(t, p, q, r)), Col4(planes, p, q, r));
    }
    SumSwap3(a, d, e, f, planes, Inner3(b, c, outer), inner);
  }

  lemma Sum2Swap3(b: nat, c: nat, d: nat, e: nat, f: nat, t2: (int, int) -> ((int, int, int) -> real),
                  outer: (int, int) -> real, inner: (int, int, int) -> real,
                  i: int, t: (int, int, int) -> ((int, int, int) -> real))
    requires forall j, k :: t2(j, k) == t(i, j, k)
    requires forall j, k :: 0 <= j < b && 0 <= k < c ==> outer(j, k) == Sum3(d, e, f, t2(j, k))
    requires forall p, q, r :: 0 <= p < d && 0 <= q < e && 0 <= r < f ==>
               inner(p, q, r) == Sum2(b, c, Row3(Across(t, p, q, r), i))
    ensures Sum2(b, c, outer) == Sum3(d, e, f, inner)
  {
    hide Sum, Sum3;
    var lines := (j: int, p: int, q: int, r: int) => Sum(c, Row(Row3(Across(t, p, q, r), i), j));
    forall j | 0 <= j < b ensures Inner2(c, outer)(j) == Sum3(d, e, f, Row4(lines, j)) {
      var cells := (k: int, p: int, q: int, r: int) => t2(j, k)(p, q, r);
      forall k | 0 <= k < c ensures Row(outer, j)(k) == Sum3(d, e, f, Row4(cells, k)) {
        Sum3Eq(d, e, f, t2(j, k), Row4(cells, k));
      }
      forall p, q, r ensures Row4(lines, j)(p, q, r) == Sum(c, Col4(cells, p, q, r)) {
        SumEq(c, Row(Row3(Across(t, p, q, r), i), j), Col4(cells, p, q, r));
      }
      SumSwap3(c, d, e, f, cells, Row(outer, j), Row4(lines, j));
    }
    forall p, q, r | 0 <= p < d && 0 <= q < e && 0 <= r < f
      ensures inner(p, q, r) == Sum(b, Col4(lines, p, q, r))
    {
      SumEq(b, Inner2(c, Row3(Across(t, p, q, r), i)), Col4(lines, p, q, r));
    }
    SumSwap3(b, d, e, f, lines, Inner2(c, outer), inner);
  }

  function Line3(f: (int, int, int) -> real, i: int, j: int): int -> real { k => f(i, j, k) }

  /** A triple sum whose innermost sums are known. */
  lemma Sum3Inner(l: nat, m: nat, n: nat, f: (int, int, int) -> real, g: (int, int) -> real)
    requires forall i, j :: 0 <= i < l && 0 <= j < m ==> g(i, j) == Sum(n, Line3(f, i, j))
    ensures Sum3(l, m, n, f) == Sum2(l, m, g)
  {
    forall i | 0 <= i < l ensures Inner3(m, n, f)(i) == Inner2(m, g)(i) {
      forall j | 0 <= j < m ensures Inner2(n, Row3(f, i))(j) == Row(g, i)(j) {
        SumEq(n, Row(Row3(f, i), j), Line3(f, i, j));
      }
      SumEq(m, Inner2(n, Row3(f, i)), Row(g, i));
    }
    SumEq(l, Inner3(m, n, f), Inner2(m, g));
  }

  lemma Sum2Flat(m: nat, n: nat, f: (int, int) -> real, flat: int -> real)
    requires forall i, j :: 0 <= i < m && 0 <= j < n ==> flat(i * n + j) == f(i, j)
    ensures Sum(m * n, flat) == Sum2(m, n, f)
  {
    SumReshape(m, n, f, Inner2(n, f), flat);
  }

  /** The row-major position of `(i, j, k)` in a box whose last two extents are `m` and `n`. */
  function Flat3(i: int, j: int, k: int, m: int, n: int): int { (i * m + j) * n + k }

  lemma Plane3Flat(i: int, m: nat, n: nat, f: (int, int, int) -> real, flat: int -> real, plane: int -> real)
    requires forall j, k :: 0 <= j < m && 0 <= k < n ==> flat(Flat3(i, j, k, m, n)) == f(i, j, k)
    requires forall v :: plane(v) == flat(i * (m * n) + v)
    ensures Sum(m * n, plane) == Sum2(m, n, Row3(f, i))
  {
    forall j, k | 0 <= j < m && 0 <= k < n ensures plane(j * n + k) == Row3(f, i)(j, k) {
      FlatAssoc(i, j, k, m, n);
    }
    Sum2Flat(m, n, Row3(f, i), plane);
  }

  lemma Sum3Flat(l: nat, m: nat, n: nat, f: (int, int, int) -> real, flat: int -> real)
    requires forall i, j, k :: 0 <= i < l && 0 <= j < m && 0 <= k < n ==> flat(Flat3(i, j, k, m, n)) == f(i, j, k)
    ensures Sum(l * (m * n), flat) == Sum3(l, m, n, f)
  {
    var planes := (i: int, v: int) => flat(i * (m * n) + v);
    forall i | 0 <= i < l ensures Inner3(m, n, f)(i) == Sum(m * n, Row(planes, i)) {
      Plane3Flat(i, m, n, f, flat, Row(planes, i));
    }
    SumReshape(l, m * n, planes, Inner3(m, n, f), flat);
  }

  lemma MulMono(a: int, b: int, n: nat)
    ensures a <= b ==> a * n <= b * n
  {}

  /** Quotient and remainder are determined by `u == q * n + r` with `0 <= r < n`. */
  lemma DivModUnique(u: int, q: int, r: int, n: int)
    requires 0 <= r < n && u == q * n + r
    ensures u / n == q && u % n == r
  {
    var d, m := u / n, u % n;
    assert u == d * n + m;
    MulMono(q + 1, d, n);
    MulMono(d + 1, q, n);
  }

  lemma FlatAssoc(i: int, j: int, k: int, m: int, n: int)
    ensures i * (m * n) + (j * n + k) == (i * m + j) * n + k
  {}

  lemma FlatIndex(i: int, j: int, n: int)
    requires 0 <= j < n
    ensures (i * n + j) / n == i && (i * n + j) % n == j
  {
    DivModUnique(i * n + j, i, j, n);
  }

  lemma UnflatIndex(u: int, m: nat, n: nat)
    requires 0 <= u < m * n
    ensures n > 0 && 0 <= u / n < m && 0 <= u % n < n && u / n * n + u % n == u
  {}

  lemma FlatBound(i: int, j: int, m: int, n: int)
    requires 0 <= i < m && 0 <= j < n
    ensures 0 <= i * n + j < m * n
  {
    MulMono(i + 1, m, n);
    MulMono(0, i, n);
  }
}
