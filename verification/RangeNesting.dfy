/** `deepest_ranges`: recovering the nesting of profiler ranges from their timestamps with a stack. */
module RangeNesting {
  import opened Outcomes
  import opened Sorting

  const AUTOGRAD_PREFIX := "autograd::engine::evaluate_function"

  /** One CPU range of a thread. */
  datatype Range = Range(id: int, start: real, dur: real, name: string)
  {
    function End(): real { start + dur }
    predicate Autograd() { AUTOGRAD_PREFIX <= name }
  }

  predicate Contains(a: Range, b: Range) { a.start <= b.start && b.End() <= a.End() }
  predicate Apart(a: Range, b: Range) { a.End() < b.start || b.End() < a.start }

  /** Ranges of one thread: pairwise nested or strictly separated in time. */
  ghost predicate Laminar(s: seq<Range>) {
    && (forall i :: 0 <= i < |s| ==> s[i].dur >= 0.0)
    && (forall i, j :: 0 <= i < |s| && 0 <= j < |s| ==> Contains(s[i], s[j]) || Contains(s[j], s[i]) || Apart(s[i], s[j]))
  }

  /** The sweep's key: by start, and of two that start together the longer one comes first. */
  predicate Outer(a: Range, b: Range) { a.start < b.start || (a.start == b.start && a.dur > b.dur) }

  /** `a` encloses `b`; of two equal ranges the one listed first encloses the other. */
  ghost predicate Encloses(s: seq<Range>, a: nat, b: nat)
    requires a < |s| && b < |s|
  {
    a != b && Contains(s[a], s[b]) && (!Contains(s[b], s[a]) || a < b)
  }

  /** Opened by the autograd engine itself or inside something that was. */
  ghost predicate Backward(s: seq<Range>, b: nat)
    requires b < |s|
  {
    s[b].Autograd() || exists a :: 0 <= a < |s| && Encloses(s, a, b) && s[a].Autograd()
  }

  lemma OuterIsWeakOrder()
    ensures StrictWeakOrder(Outer)
  {}

  /** The thread's positions in sweep order. */
  function SweepOrder(s: seq<Range>): (p: seq<nat>)
    ensures |p| == |s| && forall i :: 0 <= i < |p| ==> p[i] < |s|
  {
    OuterIsWeakOrder();
    StableOrderIsStable(s, Outer);
    OrderIndices(StableOrder(s, Outer), |s|);
    StableOrder(s, Outer)
  }

  lemma SweepOrderFacts(s: seq<Range>)
    ensures IsOrderOf(SweepOrder(s), |s|)
    ensures forall i, j :: 0 <= i < j < |s| ==> SweepOrder(s)[i] != SweepOrder(s)[j]
    ensures forall a :: 0 <= a < |s| ==> a in SweepOrder(s)
    ensures forall i, j :: 0 <= i < j < |s| ==> ByKey(s, Outer)(SweepOrder(s)[i], SweepOrder(s)[j])
  {
    OuterIsWeakOrder();
    StableOrderIsStable(s, Outer);
    OrderIndices(StableOrder(s, Outer), |s|);
  }

  /** In sweep order an earlier range either encloses a later one or ended before it starts. */
  lemma EarlierEnclosesOrEnded(s: seq<Range>, i: nat, j: nat)
    requires Laminar(s) && i < j < |s|
    ensures var a, b := SweepOrder(s)[i], SweepOrder(s)[j];
            && s[a].start <= s[b].start
            && (Contains(s[a], s[b]) || s[a].End() < s[b].start)
            && (Encloses(s, a, b) <==> Contains(s[a], s[b]))
            && !Encloses(s, b, a)
  {
    SweepOrderFacts(s);
    var a, b := SweepOrder(s)[i], SweepOrder(s)[j];
    assert ByKey(s, Outer)(a, b);
    assert Contains(s[a], s[b]) || Contains(s[b], s[a]) || Apart(s[a], s[b]);
    assert Outer(s[a], s[b]) || (!Outer(s[b], s[a]) && a <= b);
  }

  // ------------------------------------------------------------------ the flags

  ghost predicate NonnegativeDurations(s: seq<Range>) { forall i :: 0 <= i < |s| ==> s[i].dur >= 0.0 }

  /** Sweep order, on the thread's own positions. */
  ghost predicate Precedes(s: seq<Range>, a: nat, b: nat)
    requires a < |s| && b < |s|
  {
    a != b && ByKey(s, Outer)(a, b)
  }
  /** `b` starts no later than `a` ends. */
  predicate StartsBy(b: Range, a: Range) { b.start <= a.End() }

  /** The last sweep position below `i` still open when `k` starts. */
  function Parent(s: seq<Range>, k: nat, i: nat): (r: Option<nat>)
    requires k < |s| && i <= k
    ensures r.Some? ==> r.value < i
  {
    if i == 0 then None
    else if StartsBy(s[SweepOrder(s)[k]], s[SweepOrder(s)[i - 1]]) then Some(i - 1)
    else Parent(s, k, i - 1)
  }
  lemma {:induction false} ParentIsLastOpen(s: seq<Range>, k: nat, i: nat)
    requires k < |s| && i <= k
    ensures Parent(s, k, i).Some? ==> StartsBy(s[SweepOrder(s)[k]], s[SweepOrder(s)[Parent(s, k, i).value]])
    ensures forall m :: 0 <= m < i && StartsBy(s[SweepOrder(s)[k]], s[SweepOrder(s)[m]])
              ==> Parent(s, k, i).Some? && m <= Parent(s, k, i).value
  {
    if i > 0 { ParentIsLastOpen(s, k, i - 1); }
  }

  /** The flag the sweep gives its `k`-th range: its own prefix, or its parent's flag. */
  ghost predicate Flagged(s: seq<Range>, k: nat)
    requires k < |s|
  {
    s[SweepOrder(s)[k]].Autograd() || (Parent(s, k, k).Some? && Flagged(s, Parent(s, k, k).value))
  }
  /** The same on the thread's own positions. */
  ghost predicate Marked(s: seq<Range>, b: nat) { exists j: nat :: j < |s| && SweepOrder(s)[j] == b && Flagged(s, j) }

  lemma MarkedAt(s: seq<Range>, j: nat)
    requires j < |s|
    ensures Marked(s, SweepOrder(s)[j]) <==> Flagged(s, j)
  {
    SweepOrderFacts(s);
  }

  lemma StartsInOrder(s: seq<Range>, i: nat, j: nat)
    requires i <= j < |s|
    ensures s[SweepOrder(s)[i]].start <= s[SweepOrder(s)[j]].start
  {
    SweepOrderFacts(s);
    if i < j {
      var a, b := SweepOrder(s)[i], SweepOrder(s)[j];
      assert ByKey(s, Outer)(a, b);
      assert Outer(s[a], s[b]) || (!Outer(s[b], s[a]) && a <= b);
    }
  }

  /** A flag reaches everything that starts before its range has ended, and at the very end. */
  lemma {:induction false} FlagSpreads(s: seq<Range>, a: nat, k: nat)
    requires a < k < |s| && Flagged(s, a) && StartsBy(s[SweepOrder(s)[k]], s[SweepOrder(s)[a]])
    ensures Flagged(s, k)
  {
    ParentIsLastOpen(s, k, k);
    var parent := Parent(s, k, k);
    if parent.value != a {
      StartsInOrder(s, parent.value, k);
      FlagSpreads(s, a, parent.value);
    }
  }

  lemma SweepPosition(s: seq<Range>, b: nat) returns (j: nat)
    requires b < |s|
    ensures j < |s| && SweepOrder(s)[j] == b
  {
    SweepOrderFacts(s);
    assert b in SweepOrder(s);
    j :| 0 <= j < |s| && SweepOrder(s)[j] == b;
  }

  lemma PrecedesIsEarlier(s: seq<Range>, i: nat, j: nat)
    requires i < |s| && j < |s| && Precedes(s, SweepOrder(s)[i], SweepOrder(s)[j])
    ensures i < j
  {
    NotBoth(s, SweepOrder(s)[i], SweepOrder(s)[j]);
    if j < i { EarlierPrecedes(s, j, i); }
  }
  lemma NotBoth(s: seq<Range>, a: nat, b: nat)
    requires a < |s| && b < |s| && Precedes(s, a, b)
    ensures !Precedes(s, b, a)
  {
    var x, y := s[a], s[b];
    assert Outer(x, y) || (!Outer(y, x) && a <= b);
    assert ByKey(s, Outer)(b, a) ==> Outer(y, x) || (!Outer(x, y) && b <= a);
  }
  lemma EarlierPrecedes(s: seq<Range>, i: nat, j: nat)
    requires i < j < |s|
    ensures Precedes(s, SweepOrder(s)[i], SweepOrder(s)[j])
  {
    SweepOrderFacts(s);
  }

  lemma EncloserPrecedes(s: seq<Range>, a: nat, b: nat)
    requires a < |s| && b < |s| && Encloses(s, a, b)
    ensures Precedes(s, a, b)
  {
    assert Outer(s[a], s[b]) || (!Outer(s[b], s[a]) && a <= b);
  }

  lemma EnclosedStartsBy(s: seq<Range>, a: nat, b: nat)
    requires NonnegativeDurations(s) && a < |s| && b < |s| && Contains(s[a], s[b])
    ensures StartsBy(s[b], s[a])
  {}

  /** Enclosure passes the backward pass on. */
  lemma BackwardInherits(s: seq<Range>, a: nat, b: nat)
    requires a < |s| && b < |s| && Encloses(s, a, b) && Backward(s, a)
    ensures Backward(s, b)
  {
    if !s[a].Autograd() {
      var c :| 0 <= c < |s| && Encloses(s, c, a) && s[c].Autograd();
      assert Encloses(s, c, b);
    }
  }

  /** Nothing in the backward pass goes unmarked. */
  lemma BackwardIsMarked(s: seq<Range>, b: nat)
    requires NonnegativeDurations(s) && b < |s| && Backward(s, b)
    ensures Marked(s, b)
  {
    hide SweepOrder, Precedes, Contains, Encloses, NonnegativeDurations, StartsBy;
    var j := SweepPosition(s, b);
    if !s[b].Autograd() {
      var a :| 0 <= a < |s| && Encloses(s, a, b) && s[a].Autograd();
      var i := SweepPosition(s, a);
      EncloserPrecedes(s, a, b);
      PrecedesIsEarlier(s, i, j);
      EncloserContains(s, a, b);
      EnclosedStartsBy(s, a, b);
      FlagSpreads(s, i, j);
    }
  }
  lemma EncloserContains(s: seq<Range>, a: nat, b: nat)
    requires a < |s| && b < |s| && Encloses(s, a, b)
    ensures Contains(s[a], s[b])
  {}

  /** Whatever starts before an earlier range of the backward pass has ended, or as it ends, is in that pass too. */
  ghost predicate NoneCaught(s: seq<Range>) {
    forall a, b :: 0 <= a < |s| && 0 <= b < |s| && Precedes(s, a, b) && StartsBy(s[b], s[a]) && Backward(s, a)
      ==> Backward(s, b)
  }

  lemma {:induction false} FlaggedIsBackward(s: seq<Range>, k: nat)
    requires k < |s| && NoneCaught(s) && Flagged(s, k)
    ensures Backward(s, SweepOrder(s)[k])
  {
    hide SweepOrder, Precedes, StartsBy;
    if !s[SweepOrder(s)[k]].Autograd() {
      ParentIsLastOpen(s, k, k);
      var parent := Parent(s, k, k).value;
      FlaggedIsBackward(s, parent);
      EarlierPrecedes(s, parent, k);
    }
  }

  /** On any thread: the marks are right exactly when no forward range is caught by an open backward one. */
  lemma MarksExactly(s: seq<Range>)
    requires NonnegativeDurations(s)
    ensures (forall b :: 0 <= b < |s| ==> (Marked(s, b) <==> Backward(s, b))) <==> NoneCaught(s)
  {
    hide SweepOrder, Precedes, StartsBy, Backward, NonnegativeDurations;
    if NoneCaught(s) {
      forall b | 0 <= b < |s| ensures Marked(s, b) <==> Backward(s, b) {
        if Backward(s, b) { BackwardIsMarked(s, b); }
        if Marked(s, b) {
          var j: nat :| j < |s| && SweepOrder(s)[j] == b && Flagged(s, j);
          FlaggedIsBackward(s, j);
        }
      }
    } else {
      var a, b :| 0 <= a < |s| && 0 <= b < |s| && Precedes(s, a, b) && StartsBy(s[b], s[a]) && Backward(s, a) && !Backward(s, b);
      BackwardIsMarked(s, a);
      CaughtIsMarked(s, a, b);
    }
  }
  lemma CaughtIsMarked(s: seq<Range>, a: nat, b: nat)
    requires a < |s| && b < |s| && Precedes(s, a, b) && StartsBy(s[b], s[a]) && Marked(s, a)
    ensures Marked(s, b)
  {
    hide SweepOrder, Precedes, StartsBy;
    var i: nat :| i < |s| && SweepOrder(s)[i] == a && Flagged(s, i);
    var j := SweepPosition(s, b);
    PrecedesIsEarlier(s, i, j);
    FlagSpreads(s, i, j);
  }

  /** Nested, or meeting in an endpoint at most. */
  ghost predicate Touching(s: seq<Range>) {
    forall i, j :: 0 <= i < |s| && 0 <= j < |s| ==>
      Contains(s[i], s[j]) || Contains(s[j], s[i]) || s[i].End() <= s[j].start || s[j].End() <= s[i].start
  }

  /** Whatever starts where a range of the backward pass that began earlier ends is in that pass too. */
  ghost predicate NoneCaughtAtEnd(s: seq<Range>) {
    forall a, b :: 0 <= a < |s| && 0 <= b < |s| && s[a].start < s[b].start == s[a].End() && Backward(s, a) ==> Backward(s, b)
  }

  lemma OpenMeansEncloses(s: seq<Range>, a: nat, b: nat)
    requires NonnegativeDurations(s) && Touching(s) && a < |s| && b < |s| && Precedes(s, a, b) && StartsBy(s[b], s[a])
    ensures Encloses(s, a, b) || s[a].start < s[b].start == s[a].End()
  {
    var x, y := s[a], s[b];
    assert Outer(x, y) || (!Outer(y, x) && a <= b);
    assert Contains(x, y) || Contains(y, x) || x.End() <= y.start || y.End() <= x.start;
  }

  /** Ranges that are nested or touch: the marks are right exactly when whatever starts where a backward range
  ended is itself in the backward pass. */
  lemma TouchingMarksExactly(s: seq<Range>)
    requires NonnegativeDurations(s) && Touching(s)
    ensures (forall b :: 0 <= b < |s| ==> (Marked(s, b) <==> Backward(s, b))) <==> NoneCaughtAtEnd(s)
  {
    MarksExactly(s);
    hide Marked, Backward, Encloses, Touching;
    if NoneCaughtAtEnd(s) {
      forall a, b | 0 <= a < |s| && 0 <= b < |s| && Precedes(s, a, b) && StartsBy(s[b], s[a]) && Backward(s, a)
        ensures Backward(s, b)
      {
        OpenMeansEncloses(s, a, b);
        if Encloses(s, a, b) { BackwardInherits(s, a, b); }
      }
    }
    forall a, b | 0 <= a < |s| && 0 <= b < |s| && s[a].start < s[b].start == s[a].End()
      ensures Precedes(s, a, b) && StartsBy(s[b], s[a])
    {
      assert Outer(s[a], s[b]);
    }
  }

  /** Strictly nested or separated ranges are always marked right. */
  lemma LaminarMarks(s: seq<Range>)
    requires Laminar(s)
    ensures forall b :: 0 <= b < |s| ==> (Marked(s, b) <==> Backward(s, b))
  {
    hide Marked, Backward;
    forall a, b | 0 <= a < |s| && 0 <= b < |s| && s[a].start < s[b].start == s[a].End() && Backward(s, a)
      ensures Backward(s, b)
    {
      assert Encloses(s, a, b);
      BackwardInherits(s, a, b);
    }
    TouchingMarksExactly(s);
  }

  /** Two siblings that touch: the second inherits a flag that is not its own. */
  lemma TouchingSiblingIsMarked()
    ensures var s := [Range(1, 0.0, 5.0, AUTOGRAD_PREFIX), Range(2, 5.0, 5.0, "aten::mm")];
            Touching(s) && Marked(s, 1) && !Backward(s, 1)
  {
    var s := [Range(1, 0.0, 5.0, AUTOGRAD_PREFIX), Range(2, 5.0, 5.0, "aten::mm")];
    assert |AUTOGRAD_PREFIX| > 8 && |"aten::mm"| == 8;
    assert s[0].Autograd() && !s[1].Autograd();
    assert Outer(s[0], s[1]);
    BackwardIsMarked(s, 0);
    CaughtIsMarked(s, 0, 1);
  }

  // ------------------------------------------------------------------ the stack

  /** The sweep positions up to `k` that are `k` or contain it, outermost first. */
  ghost predicate IsChain(s: seq<Range>, chain: seq<nat>, k: nat)
    requires k < |s|
  {
    var p := SweepOrder(s);
    && (forall t :: 0 <= t < |chain| ==> chain[t] <= k)
    && (forall t, u :: 0 <= t < u < |chain| ==> chain[t] < chain[u] && Contains(s[p[chain[t]]], s[p[chain[u]]]))
    && (forall i :: 0 <= i <= k ==> (i in chain <==> i == k || Contains(s[p[i]], s[p[k]])))
  }

  /** The stack entries are the ends and the flags of increasing sweep positions below `k`. */
  ghost predicate StackOf(s: seq<Range>, stack: seq<(real, bool)>, chain: seq<nat>, k: nat)
    requires k <= |s|
  {
    && |stack| == |chain|
    && (forall t :: 0 <= t < |chain| ==> chain[t] < k)
    && (forall t, u :: 0 <= t < u < |chain| ==> chain[t] < chain[u])
    && forall t :: 0 <= t < |chain| ==> stack[t].0 == s[SweepOrder(s)[chain[t]]].End() && (stack[t].1 <==> Flagged(s, chain[t]))
  }
  /** Every position below `k` not on the stack ended before `bound`. */
  ghost predicate OpenKept(s: seq<Range>, chain: seq<nat>, k: nat, bound: real)
    requires k <= |s|
  {
    forall i :: 0 <= i < k ==> i in chain || s[SweepOrder(s)[i]].End() < bound
  }

  /** What survives the pops for range `k`: the chain of `k - 1` that did not end before `k` starts. */
  ghost predicate Survivors(s: seq<Range>, chain: seq<nat>, k: nat)
    requires k < |s|
  {
    var p := SweepOrder(s);
    && (forall t :: 0 <= t < |chain| ==> chain[t] < k)
    && (forall t, u :: 0 <= t < u < |chain| ==> chain[t] < chain[u] && Contains(s[p[chain[t]]], s[p[chain[u]]]))
    && (forall i :: 0 <= i < k && Contains(s[p[i]], s[p[k]]) ==> i in chain)
  }

  /** Everything containing `k` was on the stack of `k - 1`. */
  lemma ChainSurvives(s: seq<Range>, chain: seq<nat>, k: nat)
    requires Laminar(s) && 1 <= k < |s| && IsChain(s, chain, k - 1)
    ensures Survivors(s, chain, k)
  {
    var p := SweepOrder(s);
    forall i | 0 <= i < k && Contains(s[p[i]], s[p[k]]) ensures i in chain {
      if i < k - 1 {
        EarlierEnclosesOrEnded(s, i, k - 1);
        EarlierEnclosesOrEnded(s, k - 1, k);
      }
    }
  }

  lemma PopSurvives(s: seq<Range>, chain: seq<nat>, k: nat)
    requires k < |s| && Survivors(s, chain, k)
    requires chain != [] && s[SweepOrder(s)[chain[|chain| - 1]]].End() < s[SweepOrder(s)[k]].start
    requires Laminar(s)
    ensures Survivors(s, chain[..|chain| - 1], k)
  {}

  /** Once the top reaches the start of `k`, pushing `k` gives exactly the chain of `k`. */
  lemma PushCompletes(s: seq<Range>, chain: seq<nat>, k: nat)
    requires Laminar(s) && k < |s| && Survivors(s, chain, k)
    requires chain != [] ==> s[SweepOrder(s)[chain[|chain| - 1]]].End() >= s[SweepOrder(s)[k]].start
    ensures IsChain(s, chain + [k], k)
  {
    var p, full := SweepOrder(s), chain + [k];
    forall t | 0 <= t < |chain| ensures Contains(s[p[chain[t]]], s[p[k]]) {
      EarlierEnclosesOrEnded(s, chain[t], k);
      if t < |chain| - 1 { assert Contains(s[p[chain[t]]], s[p[chain[|chain| - 1]]]); }
    }
    forall i | 0 <= i <= k ensures i in full <==> i == k || Contains(s[p[i]], s[p[k]]) {
      if i in chain { var t :| 0 <= t < |chain| && chain[t] == i; }
      if i < k && Contains(s[p[i]], s[p[k]]) { assert i in chain; }
      assert i == k ==> full[|chain|] == k;
    }
  }

  /** On nested ranges the flag says whether the chain holds an autograd range, and so whether `k` is in the
  backward pass. */
  lemma ChainFlag(s: seq<Range>, chain: seq<nat>, k: nat)
    requires Laminar(s) && k < |s| && IsChain(s, chain, k)
    ensures Flagged(s, k) <==> exists t :: 0 <= t < |chain| && s[SweepOrder(s)[chain[t]]].Autograd()
    ensures Flagged(s, k) <==> Backward(s, SweepOrder(s)[k])
  {
    hide Flagged, Marked;
    var p := SweepOrder(s);
    SweepOrderFacts(s);
    LaminarMarks(s);
    MarkedAt(s, k);
    if u :| 0 <= u < |chain| && s[p[chain[u]]].Autograd() {
      assert chain[u] in chain;
      if chain[u] != k { EarlierEnclosesOrEnded(s, chain[u], k); }
    }
    if Backward(s, p[k]) {
      if s[p[k]].Autograd() {
        assert k in chain;
        var t :| 0 <= t < |chain| && chain[t] == k;
      } else {
        var a :| 0 <= a < |s| && Encloses(s, a, p[k]) && s[a].Autograd();
        assert a in p;
        var i :| 0 <= i < |p| && p[i] == a;
        if i > k { EarlierEnclosesOrEnded(s, k, i); }
        assert i in chain;
        var t :| 0 <= t < |chain| && chain[t] == i;
      }
    }
  }

  // ------------------------------------------------------------------ the sweep

  type Owners = map<int, (string, bool)>

  function Ids(s: seq<Range>): set<int> { set r | r in s :: r.id }

  /** Every other range with this id encloses `b`. */
  ghost predicate Innermost(s: seq<Range>, b: nat)
    requires b < |s|
  {
    forall a :: 0 <= a < |s| && a != b && s[a].id == s[b].id ==> Encloses(s, a, b)
  }

  /** The entry written for each id is that of its last range among the first `k` of the sweep. */
  ghost predicate LastWritten(s: seq<Range>, k: nat, owners: Owners)
    requires k <= |s|
  {
    forall j :: 0 <= j < k ==> WrittenLast(s, j, k, owners)
  }
  ghost predicate WrittenLast(s: seq<Range>, j: nat, k: nat, owners: Owners)
    requires j < k <= |s|
  {
    var p := SweepOrder(s);
    NotRepeated(s, j, k) ==>
      s[p[j]].id in owners && owners[s[p[j]].id] == (s[p[j]].name, Flagged(s, j))
  }

  function IdAt(s: seq<Range>, i: nat): int
    requires i < |s|
  { s[SweepOrder(s)[i]].id }

  ghost predicate NotRepeated(s: seq<Range>, j: nat, k: nat)
    requires j < k <= |s|
  {
    forall i :: j < i < k ==> IdAt(s, i) != IdAt(s, j)
  }

  lemma WriteStep(s: seq<Range>, k: nat, owners: Owners, flag: bool)
    requires k < |s| && LastWritten(s, k, owners)
    requires flag <==> Flagged(s, k)
    ensures LastWritten(s, k + 1, owners[s[SweepOrder(s)[k]].id := (s[SweepOrder(s)[k]].name, flag)])
  {
    var p := SweepOrder(s);
    var r := s[p[k]];
    var after, n := owners[r.id := (r.name, flag)], k + 1;
    forall j | 0 <= j < n ensures WrittenLast(s, j, n, after) {
      if j < k {
        assert WrittenLast(s, j, k, owners);
        if NotRepeated(s, j, n) {
          assert IdAt(s, k) != IdAt(s, j);
          assert NotRepeated(s, j, k);
        }
      }
    }
  }

  /** The sweep state between ranges; on a thread of nested ranges the stack is exactly the enclosing chain. */
  ghost predicate SweepState(s: seq<Range>, k: nat, stack: seq<(real, bool)>, chain: seq<nat>, owners: Owners)
    requires k <= |s|
  {
    && (k > 0 ==> OpenKept(s, chain, k, s[SweepOrder(s)[k - 1]].start))
    && (k > 0 && Laminar(s) ==> IsChain(s, chain, k - 1))
    && StackOf(s, stack, chain, k)
    && LastWritten(s, k, owners)
  }

  ghost predicate Popping(s: seq<Range>, k: nat, stack: seq<(real, bool)>, chain: seq<nat>)
    requires k < |s|
  {
    && OpenKept(s, chain, k, s[SweepOrder(s)[k]].start)
    && (Laminar(s) ==> Survivors(s, chain, k))
    && StackOf(s, stack, chain, k)
  }

  lemma StartPopping(s: seq<Range>, k: nat, stack: seq<(real, bool)>, chain: seq<nat>, owners: Owners)
    requires k < |s| && SweepState(s, k, stack, chain, owners)
    ensures Popping(s, k, stack, chain) && LastWritten(s, k, owners)
  {
    hide LastWritten, Laminar, Flagged;
    if k > 0 {
      StartsInOrder(s, k - 1, k);
      if Laminar(s) { ChainSurvives(s, chain, k); }
    }
  }

  lemma PopOne(s: seq<Range>, k: nat, stack: seq<(real, bool)>, chain: seq<nat>)
    requires k < |s| && Popping(s, k, stack, chain)
    requires stack != [] && stack[|stack| - 1].0 < s[SweepOrder(s)[k]].start
    ensures Popping(s, k, stack[..|stack| - 1], chain[..|chain| - 1])
  {
    hide Laminar, Flagged, SweepOrder;
    if Laminar(s) { PopSurvives(s, chain, k); }
    assert chain == chain[..|chain| - 1] + [chain[|chain| - 1]];
  }

  /** After the pops the top of the stack is the parent. */
  lemma TopIsParent(s: seq<Range>, k: nat, stack: seq<(real, bool)>, chain: seq<nat>)
    requires k < |s| && Popping(s, k, stack, chain)
    requires stack != [] ==> stack[|stack| - 1].0 >= s[SweepOrder(s)[k]].start
    ensures Parent(s, k, k) == if chain == [] then None else Some(chain[|chain| - 1])
  {
    hide Laminar, Flagged, SweepOrder;
    ParentIsLastOpen(s, k, k);
    var parent := Parent(s, k, k);
    if parent.Some? {
      assert parent.value in chain;
      var t :| 0 <= t < |chain| && chain[t] == parent.value;
    }
    if chain != [] {
      var top := chain[|chain| - 1];
      assert StartsBy(s[SweepOrder(s)[k]], s[SweepOrder(s)[top]]);
    }
  }

  lemma PushOne(s: seq<Range>, k: nat, stack: seq<(real, bool)>, chain: seq<nat>, owners: Owners, flag: bool)
    requires k < |s| && Popping(s, k, stack, chain) && LastWritten(s, k, owners)
    requires stack != [] ==> stack[|stack| - 1].0 >= s[SweepOrder(s)[k]].start
    requires flag <==> (stack != [] && stack[|stack| - 1].1) || s[SweepOrder(s)[k]].Autograd()
    ensures var r := s[SweepOrder(s)[k]];
            SweepState(s, k + 1, stack + [(r.End(), flag)], chain + [k], owners[r.id := (r.name, flag)])
  {
    hide Laminar, IsChain, Survivors, LastWritten, SweepOrder;
    TopIsParent(s, k, stack, chain);
    if Laminar(s) { PushCompletes(s, chain, k); }
    WriteStep(s, k, owners, flag);
    hide Flagged, StackOf, OpenKept;
    PushStack(s, k, stack, chain, flag);
    PushKeeps(s, k, chain, s[SweepOrder(s)[k]].start);
  }
  lemma PushStack(s: seq<Range>, k: nat, stack: seq<(real, bool)>, chain: seq<nat>, flag: bool)
    requires k < |s| && StackOf(s, stack, chain, k) && (flag <==> Flagged(s, k))
    ensures StackOf(s, stack + [(s[SweepOrder(s)[k]].End(), flag)], chain + [k], k + 1)
  {
    hide Flagged, SweepOrder;
    var full, taller := chain + [k], stack + [(s[SweepOrder(s)[k]].End(), flag)];
    forall t | 0 <= t < |full|
      ensures full[t] < k + 1 && taller[t].0 == s[SweepOrder(s)[full[t]]].End() && (taller[t].1 <==> Flagged(s, full[t]))
    {
      if t < |chain| { assert full[t] == chain[t] && taller[t] == stack[t]; }
    }
  }
  lemma PushKeeps(s: seq<Range>, k: nat, chain: seq<nat>, bound: real)
    requires k < |s| && OpenKept(s, chain, k, bound)
    ensures OpenKept(s, chain + [k], k + 1, bound)
  {
    hide SweepOrder;
    assert (chain + [k])[|chain|] == k;
  }

  lemma StartSweep(s: seq<Range>, owners: Owners)
    ensures SweepState(s, 0, [], [], owners)
  {}

  lemma SweptAll(s: seq<Range>, stack: seq<(real, bool)>, chain: seq<nat>, owners: Owners)
    requires SweepState(s, |s|, stack, chain, owners)
    ensures LastWritten(s, |s|, owners)
  {}

  /** One thread: sort, then the stack sweep. */
  method SweepThread(s: seq<Range>, before: Owners) returns (owners: Owners)
    ensures owners.Keys == before.Keys + Ids(s)
    ensures forall id :: id in before && id !in Ids(s) ==> owners[id] == before[id]
    ensures LastWritten(s, |s|, owners)
  {
    hide SweepState, Popping, LastWritten, SweepOrder;
    owners := before;
    var p := SweepOrder(s);
    StartSweep(s, owners);
    var stack: seq<(real, bool)> := [];
    ghost var chain: seq<nat> := [];
    for k := 0 to |s|
      invariant |chain| == |stack|
      invariant SweepState(s, k, stack, chain, owners)
      invariant owners.Keys == before.Keys + set i | 0 <= i < k :: s[p[i]].id
      invariant forall id :: id in before && id !in Ids(s) ==> owners[id] == before[id]
    {
      var r := s[p[k]];
      StartPopping(s, k, stack, chain, owners);
      while stack != [] && stack[|stack| - 1].0 < r.start
        invariant |chain| == |stack|
        invariant Popping(s, k, stack, chain)
        decreases |stack|
      {
        PopOne(s, k, stack, chain);
        stack := stack[..|stack| - 1];
        chain := chain[..|chain| - 1];
      }
      var inherited := stack != [] && stack[|stack| - 1].1;
      var isBackward := inherited || r.Autograd();
      PushOne(s, k, stack, chain, owners, isBackward);
      stack := stack + [(r.End(), isBackward)];
      chain := chain + [k];
      owners := owners[r.id := (r.name, isBackward)];
      assert r in s;
    }
    AllSwept(s);
    SweptAll(s, stack, chain, owners);
  }

  lemma AllSwept(s: seq<Range>)
    ensures (set i | 0 <= i < |s| :: s[SweepOrder(s)[i]].id) == Ids(s)
  {
    SweepOrderFacts(s);
    var p := SweepOrder(s);
    forall id | id in Ids(s) ensures id in (set i | 0 <= i < |s| :: s[p[i]].id) {
      var r :| r in s && r.id == id;
      var a :| 0 <= a < |s| && s[a] == r;
      assert a in p;
      var i :| 0 <= i < |p| && p[i] == a;
      assert s[p[i]].id == id;
    }
  }

  /** The last range of the sweep with an id is the innermost one when those ranges form a nested chain. */
  lemma InnermostIsWritten(s: seq<Range>, owners: Owners, b: nat)
    requires LastWritten(s, |s|, owners) && b < |s| && Innermost(s, b)
    ensures s[b].id in owners && owners[s[b].id] == (s[b].name, Marked(s, b))
  {
    var j := SweepPosition(s, b);
    SweepOrderFacts(s);
    MarkedAt(s, j);
    var p := SweepOrder(s);
    forall i | j < i < |s| ensures s[p[i]].id != s[p[j]].id {
      if s[p[i]].id == s[p[j]].id {
        EncloserPrecedes(s, p[i], p[j]);
        PrecedesIsEarlier(s, i, j);
      }
    }
    assert WrittenLast(s, j, |s|, owners);
  }

  // ------------------------------------------------------------------ the whole trace

  /** A trace event; a missing duration reads as zero. */
  datatype Event = Event(cat: string, externalId: Option<int>, tid: int, ts: real, dur: real, name: string)
  {
    predicate IsRange() { (cat == "cpu_op" || cat == "user_annotation") && externalId.Some? }
    function AsRange(): Range
      requires IsRange()
    { Range(externalId.value, ts, dur, name) }
  }

  /** The ranges of one thread, in trace order. */
  function ThreadRanges(events: seq<Event>, tid: int): seq<Range> {
    if events == [] then [] else
    var rest, e := ThreadRanges(events[..|events| - 1], tid), events[|events| - 1];
    if e.IsRange() && e.tid == tid then rest + [e.AsRange()] else rest
  }

  /** The ranges of a thread are its CPU operations and annotations that carry an External id. */
  lemma {:induction false} ThreadRangesMean(events: seq<Event>, tid: int, r: Range)
    ensures r in ThreadRanges(events, tid) <==> exists i :: 0 <= i < |events| && IsEventOf(events[i], tid, r)
  {
    if events != [] {
      var init, e := events[..|events| - 1], events[|events| - 1];
      ThreadRangesMean(init, tid, r);
      assert e.IsRange() && e.tid == tid ==> (e.AsRange() == r <==> IsEventOf(e, tid, r));
      if i :| 0 <= i < |init| && IsEventOf(init[i], tid, r) { assert events[i] == init[i]; }
      if i :| 0 <= i < |events| && IsEventOf(events[i], tid, r) { assert i < |init| ==> init[i] == events[i]; }
    }
  }
  ghost predicate IsEventOf(e: Event, tid: int, r: Range) {
    && (e.cat == "cpu_op" || e.cat == "user_annotation") && e.externalId == Some(r.id) && e.tid == tid
    && r.start == e.ts && r.End() == e.ts + e.dur && r.name == e.name
  }

  /** A range is the engine's own exactly when its name begins with the engine's. */
  lemma AutogradMeans(r: Range)
    ensures r.Autograd() <==> exists rest: string :: r.name == "autograd::engine::evaluate_function" + rest
  {
    if r.Autograd() { assert r.name == AUTOGRAD_PREFIX + r.name[|AUTOGRAD_PREFIX|..]; }
  }

  ghost predicate UsesId(events: seq<Event>, id: int) { exists tid :: id in Ids(ThreadRanges(events, tid)) }

  /** The threads with ranges, in order of first appearance. */
  function Threads(events: seq<Event>): seq<int> {
    if events == [] then [] else
    var rest, e := Threads(events[..|events| - 1]), events[|events| - 1];
    if e.IsRange() && e.tid !in rest then rest + [e.tid] else rest
  }

  /** No thread that appears after `tid` uses the id. */
  ghost predicate LastUser(events: seq<Event>, tid: int, id: int) {
    forall m, n :: 0 <= m < n < |Threads(events)| && Threads(events)[m] == tid ==>
      id !in Ids(ThreadRanges(events, Threads(events)[n]))
  }

  /** What the result says about a thread: each id no later thread uses maps to the innermost range with that id
  and to that range's mark, which on nested ranges is whether it is in the backward pass. */
  ghost predicate Settled(events: seq<Event>, tid: int, owners: Owners) {
    var s := ThreadRanges(events, tid);
    forall b :: 0 <= b < |s| && Innermost(s, b) && LastUser(events, tid, s[b].id) ==>
      s[b].id in owners && owners[s[b].id] == (s[b].name, Marked(s, b))
      && (Laminar(s) ==> (Marked(s, b) <==> Backward(s, b)))
  }

  lemma SettledHere(events: seq<Event>, tid: int, owners: Owners)
    requires var s := ThreadRanges(events, tid); LastWritten(s, |s|, owners)
    ensures Settled(events, tid, owners)
  {
    hide LastWritten, Innermost, Marked, Backward, Laminar;
    var s := ThreadRanges(events, tid);
    if Laminar(s) { LaminarMarks(s); }
    forall b | 0 <= b < |s| && Innermost(s, b)
      ensures s[b].id in owners && owners[s[b].id] == (s[b].name, Marked(s, b))
    {
      InnermostIsWritten(s, owners, b);
    }
  }

  lemma SettledStays(events: seq<Event>, m: nat, n: nat, before: Owners, after: Owners)
    requires m < n < |Threads(events)| && Settled(events, Threads(events)[m], before)
    requires before.Keys <= after.Keys
    requires forall id :: id in before && id !in Ids(ThreadRanges(events, Threads(events)[n])) ==> after[id] == before[id]
    ensures Settled(events, Threads(events)[m], after)
  {}

  /** `order` lists the threads met, each once, and `byThread` holds their ranges in trace order. */
  ghost predicate Grouped(events: seq<Event>, order: seq<int>, byThread: map<int, seq<Range>>) {
    && order == Threads(events)
    && (forall t :: t in order <==> t in byThread)
    && (forall m, n :: 0 <= m < n < |order| ==> order[m] != order[n])
    && forall t :: ThreadRanges(events, t) == if t in byThread then byThread[t] else []
  }

  method GroupByThread(events: seq<Event>) returns (order: seq<int>, byThread: map<int, seq<Range>>)
    ensures Grouped(events, order, byThread)
  {
    order, byThread := [], map[];
    for i := 0 to |events|
      invariant Grouped(events[..i], order, byThread)
    {
      var e := events[i];
      assert events[..i + 1][..i] == events[..i];
      if e.IsRange() {
        if e.tid !in byThread {
          order := order + [e.tid];
          byThread := byThread[e.tid := []];
        }
        byThread := byThread[e.tid := byThread[e.tid] + [e.AsRange()]];
      }
    }
    assert events[..|events|] == events;
  }

  /** The ids used by the first `m` threads. */
  ghost function IdsOfFirst(events: seq<Event>, order: seq<int>, m: nat): set<int>
    requires m <= |order|
  {
    if m == 0 then {} else IdsOfFirst(events, order, m - 1) + Ids(ThreadRanges(events, order[m - 1]))
  }

  method DeepestRanges(events: seq<Event>) returns (owners: Owners)
    ensures forall tid :: Settled(events, tid, owners)
    ensures forall id :: id in owners <==> UsesId(events, id)
  {
    hide Settled, Laminar, Ids, LastWritten, Backward, Innermost, Threads, Marked;
    var order, byThread := GroupByThread(events);
    owners := map[];
    for m := 0 to |order|
      invariant forall n :: 0 <= n < m ==> Settled(events, order[n], owners)
      invariant owners.Keys == IdsOfFirst(events, order, m)
    {
      var t := order[m];
      assert t in order;
      var before := owners;
      owners := SweepThread(byThread[t], owners);
      SettledHere(events, t, owners);
      forall n | 0 <= n < m ensures Settled(events, order[n], owners) {
        SettledStays(events, n, m, before, owners);
      }
    }
    AllThreads(events, order, byThread, owners);
  }

  lemma AllThreads(events: seq<Event>, order: seq<int>, byThread: map<int, seq<Range>>, owners: Owners)
    requires Grouped(events, order, byThread)
    requires forall n :: 0 <= n < |order| ==> Settled(events, order[n], owners)
    requires owners.Keys == IdsOfFirst(events, order, |order|)
    ensures forall tid :: Settled(events, tid, owners)
    ensures forall id :: id in owners <==> UsesId(events, id)
  {
    hide Settled, Ids;
    forall tid ensures Settled(events, tid, owners) {
      if tid in order {
        var n :| 0 <= n < |order| && order[n] == tid;
      } else {
        IdleThreadSettled(events, tid, owners);
      }
    }
    forall id ensures id in owners <==> UsesId(events, id) {
      IdsOfFirstAre(events, order, |order|, id);
      if tid :| id in Ids(ThreadRanges(events, tid)) {
        NoIds();
        assert tid in order;
        var n :| 0 <= n < |order| && order[n] == tid;
        assert id in Ids(ThreadRanges(events, order[n]));
      }
    }
  }
  lemma IdleThreadSettled(events: seq<Event>, tid: int, owners: Owners)
    requires ThreadRanges(events, tid) == []
    ensures Settled(events, tid, owners)
  {}
  lemma NoIds()
    ensures Ids([]) == {}
  {}

  lemma {:induction false} IdsOfFirstAre(events: seq<Event>, order: seq<int>, m: nat, id: int)
    requires m <= |order|
    ensures id in IdsOfFirst(events, order, m) <==> exists n :: 0 <= n < m && id in Ids(ThreadRanges(events, order[n]))
  {
    if m > 0 {
      IdsOfFirstAre(events, order, m - 1, id);
      assert id in Ids(ThreadRanges(events, order[m - 1])) ==>
               exists n :: 0 <= n < m && id in Ids(ThreadRanges(events, order[n]));
    }
  }
}
