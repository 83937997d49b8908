/** Sums over finite sets, whatever the order they are taken in. */
module SetSums {

  ghost function SumOver<T(!new)>(s: set<T>, f: T -> real): real {
    if s == {} then 0.0 else var x :| x in s; SumOver(s - {x}, f) + f(x)
  }

  lemma {:induction false} SumRemove<T(!new)>(s: set<T>, x: T, f: T -> real)
    requires x in s
    ensures SumOver(s, f) == SumOver(s - {x}, f) + f(x)
  {
    var y :| y in s && SumOver(s, f) == SumOver(s - {y}, f) + f(y);
    if x != y {
      SumRemove(s - {y}, x, f);
      SumRemove(s - {x}, y, f);
      assert s - {x} - {y} == s - {y} - {x};
    }
  }

  lemma SumEmpty<T(!new)>(f: T -> real)
    ensures SumOver({}, f) == 0.0
  {}

  lemma SumAdd<T(!new)>(s: set<T>, x: T, f: T -> real)
    requires x !in s
    ensures SumOver(s + {x}, f) == SumOver(s, f) + f(x)
  {
    SumRemove(s + {x}, x, f);
    assert s + {x} - {x} == s;
  }

  lemma {:induction false} SumSame<T(!new)>(s: set<T>, f: T -> real, g: T -> real)
    requires forall x :: x in s ==> f(x) == g(x)
    ensures SumOver(s, f) == SumOver(s, g)
  {
    if s != {} {
      var x :| x in s;
      SumRemove(s, x, f);
      SumRemove(s, x, g);
      SumSame(s - {x}, f, g);
    }
  }

  /** Changing one term. */
  lemma SumChange<T(!new)>(s: set<T>, x: T, f: T -> real, g: T -> real)
    requires x in s && forall y :: y in s && y != x ==> f(y) == g(y)
    ensures SumOver(s, g) == SumOver(s, f) - f(x) + g(x)
  {
    SumRemove(s, x, f);
    SumRemove(s, x, g);
    SumSame(s - {x}, f, g);
  }

  lemma {:induction false} SumDisjoint<T(!new)>(a: set<T>, b: set<T>, f: T -> real)
    requires a !! b
    ensures SumOver(a + b, f) == SumOver(a, f) + SumOver(b, f)
  {
    if b == {} {
      assert a + b == a;
    } else {
      var x :| x in b;
      SumDisjoint(a, b - {x}, f);
      SumAdd(a + (b - {x}), x, f);
      SumRemove(b, x, f);
      assert a + b == a + (b - {x}) + {x};
    }
  }

  /** Overlapping sets: the common part is counted once in the union. */
  lemma SumUnion<T(!new)>(a: set<T>, b: set<T>, f: T -> real)
    ensures SumOver(a + b, f) + SumOver(a * b, f) == SumOver(a, f) + SumOver(b, f)
  {
    SumDisjoint(a, b - a, f);
    SumDisjoint(b - a, a * b, f);
    assert a + b == a + (b - a);
    assert b == (b - a) + a * b;
  }

  lemma {:induction false} SumNonNegative<T(!new)>(s: set<T>, f: T -> real)
    requires forall x :: x in s ==> f(x) >= 0.0
    ensures SumOver(s, f) >= 0.0
    ensures SumOver(s, f) == 0.0 <==> forall x :: x in s ==> f(x) == 0.0
  {
    if s != {} {
      var x :| x in s;
      SumRemove(s, x, f);
      SumNonNegative(s - {x}, f);
      forall y | y in s && SumOver(s, f) == 0.0 ensures f(y) == 0.0 {
        assert y == x || y in s - {x};
      }
    }
  }
}
