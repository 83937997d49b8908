/** `gpu_idle_stats`: the union of GPU activity intervals, its measure and its gaps. The same function is in
both profiling scripts. */
module IdleGaps {
  import opened Sorting

  datatype Interval = Interval(start: real, end: real)
  datatype Activity = Activity(range: Interval, onGpu: bool)

  /** Intervals as closed sets of points. */
  predicate Holds(iv: Interval, x: real) { iv.start <= x <= iv.end }
  ghost predicate In(x: real, s: seq<Interval>) { exists i :: 0 <= i < |s| && Holds(s[i], x) }
  ghost predicate SamePoints(a: seq<Interval>, b: seq<Interval>) { forall x :: In(x, a) <==> In(x, b) }

  predicate Proper(s: seq<Interval>) { forall i :: 0 <= i < |s| ==> s[i].start < s[i].end }
  predicate Separated(s: seq<Interval>) { forall i, j :: 0 <= i < j < |s| ==> s[i].end < s[j].start }

  /** The GPU activities of positive length. */
  function Kept(events: seq<Activity>): (s: seq<Interval>)
    ensures Proper(s)
  {
    if events == [] then [] else
    var rest := Kept(events[..|events| - 1]);
    var e := events[|events| - 1];
    if e.onGpu && e.range.end > e.range.start then rest + [e.range] else rest
  }

  /** Python's order on (start, end) pairs. */
  predicate Lexicographic(a: Interval, b: Interval) { a.start < b.start || (a.start == b.start && a.end <= b.end) }

  function TotalLength(s: seq<Interval>): real {
    if s == [] then 0.0 else TotalLength(s[..|s| - 1]) + (s[|s| - 1].end - s[|s| - 1].start)
  }
  /** The distances between neighbours. */
  function Gaps(s: seq<Interval>): seq<real> {
    if |s| <= 1 then [] else Gaps(s[..|s| - 1]) + [s[|s| - 1].start - s[|s| - 2].end]
  }
  function SumOf(s: seq<real>): real { if s == [] then 0.0 else SumOf(s[..|s| - 1]) + s[|s| - 1] }
  function CountOver(s: seq<real>, limit: real): nat {
    if s == [] then 0 else CountOver(s[..|s| - 1], limit) + (if s[|s| - 1] >= limit then 1 else 0)
  }
  ghost predicate IsMax(m: real, s: seq<real>) {
    if s == [] then m == 0.0 else m in s && forall x :: x in s ==> x <= m
  }

  /** The kept intervals are those of the GPU activities of positive length, as often as they occur. */
  ghost function KeptAt(events: seq<Activity>): set<nat> {
    set i: nat | i < |events| && events[i].onGpu && events[i].range.start < events[i].range.end
  }
  lemma {:induction false} KeptMeans(events: seq<Activity>)
    ensures |Kept(events)| == |KeptAt(events)|
    ensures forall iv :: iv in Kept(events) <==> exists i :: i in KeptAt(events) && events[i].range == iv
  {
    if events == [] {
      assert KeptAt(events) == {};
    } else {
      var n := |events| - 1;
      var init := events[..n];
      KeptMeans(init);
      LastKept(events);
      hide KeptAt;
      forall iv ensures iv in Kept(events) <==> exists i :: i in KeptAt(events) && events[i].range == iv {
        assert iv in Kept(init) <==> exists i :: i in KeptAt(init) && init[i].range == iv;
        if i :| i in KeptAt(init) && init[i].range == iv { assert i in KeptAt(events) && events[i].range == iv; }
        if i :| i in KeptAt(events) && events[i].range == iv && i != n { assert i in KeptAt(init) && init[i].range == iv; }
      }
    }
  }
  lemma LastKept(events: seq<Activity>)
    requires events != []
    ensures var n := |events| - 1;
            && KeptAt(events) == KeptAt(events[..n]) + (if events[n].onGpu && events[n].range.start < events[n].range.end then {n} else {})
            && n !in KeptAt(events[..n]) && forall i :: i in KeptAt(events[..n]) ==> i < n
  {}
  /** The entries of at least the limit. */
  lemma {:induction false} CountOverMeans(s: seq<real>, limit: real)
    ensures CountOver(s, limit) == |set i: nat | i < |s| && s[i] >= limit|
  {
    var now := set i: nat | i < |s| && s[i] >= limit;
    if s == [] {
      assert now == {};
    } else {
      var n := |s| - 1;
      var init := s[..n];
      CountOverMeans(init, limit);
      var before := set i: nat | i < |init| && init[i] >= limit;
      assert now == if s[n] >= limit then before + {n} else before;
    }
  }

  datatype Stats = Stats(activities: nat, span: real, busy: real, idle: real, idlePct: real,
                         gapCount: nat, gapsOver50: nat, maxGap: real)

  lemma {:induction false} BusyPlusGapsIsSpan(m: seq<Interval>)
    requires |m| > 0
    ensures TotalLength(m) + SumOf(Gaps(m)) == m[|m| - 1].end - m[0].start
    ensures |Gaps(m)| == |m| - 1
  {
    if |m| > 1 {
      BusyPlusGapsIsSpan(m[..|m| - 1]);
      var g := Gaps(m);
      assert g[..|g| - 1] == Gaps(m[..|m| - 1]);
    }
  }

  lemma {:induction false} GapsPositive(m: seq<Interval>)
    requires Separated(m)
    ensures forall x :: x in Gaps(m) ==> x > 0.0
    ensures SumOf(Gaps(m)) >= 0.0
  {
    if |m| > 1 {
      GapsPositive(m[..|m| - 1]);
      var g := Gaps(m);
      assert g[..|g| - 1] == Gaps(m[..|m| - 1]);
    }
  }

  /** What holds between iterations: the merged list with the open interval covers what was read. */
  ghost predicate MergeState(merged: seq<Interval>, current: Interval, gaps: seq<real>, done: seq<Interval>) {
    var all := merged + [current];
    && done != [] && Proper(all) && Separated(all) && SamePoints(all, done)
    && current.start <= done[|done| - 1].start && gaps == Gaps(all)
  }

  /** Only the end of the open interval moves, and outwards. */
  lemma WidenKeepsShape(merged: seq<Interval>, current: Interval, wide: Interval)
    requires Proper(merged + [current]) && Separated(merged + [current])
    requires wide.start == current.start && wide.end >= current.end
    ensures Proper(merged + [wide]) && Separated(merged + [wide])
  {
    var was, all := merged + [current], merged + [wide];
    assert was[|merged|] == current;
    forall i | 0 <= i < |all| ensures all[i].start < all[i].end { assert was[i].start < was[i].end; }
    forall i, j | 0 <= i < j < |all| ensures all[i].end < all[j].start { assert was[i].end < was[j].start; }
  }

  lemma AbsorbStep(merged: seq<Interval>, current: Interval, gaps: seq<real>, done: seq<Interval>, next: Interval)
    requires MergeState(merged, current, gaps, done) && next.start < next.end
    requires done[|done| - 1].start <= next.start <= current.end
    ensures MergeState(merged, current.(end := if current.end < next.end then next.end else current.end), gaps, done + [next])
  {
    hide SamePoints, Proper, Separated;
    var wide := current.(end := if current.end < next.end then next.end else current.end);
    AbsorbPoints(merged, current, done, next);
    GapsKeep(merged, current, wide);
    WidenKeepsShape(merged, current, wide);
  }

  lemma OpenStep(merged: seq<Interval>, current: Interval, gaps: seq<real>, done: seq<Interval>, next: Interval)
    requires MergeState(merged, current, gaps, done) && next.start < next.end && current.end < next.start
    ensures MergeState(merged + [current], next, gaps + [next.start - current.end], done + [next])
  {
    hide SamePoints, Holds;
    var all := merged + [current];
    AppendPoints(all, done, next);
    assert (all + [next])[..|all|] == all;
    forall i | 0 <= i < |all| ensures all[i].end < next.start {
      if i < |merged| { assert all[i].end < all[|merged|].start; }
    }
  }

  /** The merge loop of `gpu_idle_stats`. */
  method Merge(intervals: seq<Interval>) returns (merged: seq<Interval>, gaps: seq<real>)
    requires |intervals| > 0 && Proper(intervals) && Sorted(intervals, Lexicographic)
    ensures |merged| > 0 && Proper(merged) && Separated(merged) && SamePoints(merged, intervals)
    ensures gaps == Gaps(merged)
  {
    merged, gaps := [], [];
    var current := intervals[0];
    PointsReflexive(intervals[..1]);
    assert merged + [current] == intervals[..1];
    for k := 1 to |intervals|
      invariant MergeState(merged, current, gaps, intervals[..k])
    {
      hide MergeState;
      var next := intervals[k];
      assert Lexicographic(intervals[k - 1], next);
      assert intervals[..k + 1] == intervals[..k] + [next];
      if next.start <= current.end {
        AbsorbStep(merged, current, gaps, intervals[..k], next);
        current := current.(end := if current.end < next.end then next.end else current.end);
      } else {
        OpenStep(merged, current, gaps, intervals[..k], next);
        merged := merged + [current];
        gaps := gaps + [next.start - current.end];
        current := next;
      }
    }
    assert intervals[..|intervals|] == intervals;
    merged := merged + [current];
  }

  lemma PointsReflexive(s: seq<Interval>)
    ensures SamePoints(s, s)
  {}
  lemma PointsTransitive(a: seq<Interval>, b: seq<Interval>, c: seq<Interval>)
    requires SamePoints(a, b) && SamePoints(b, c)
    ensures SamePoints(a, c)
  {}
  lemma AppendPoints(a: seq<Interval>, b: seq<Interval>, next: Interval)
    requires SamePoints(a, b)
    ensures SamePoints(a + [next], b + [next])
  {
    forall x ensures In(x, a + [next]) <==> In(x, b + [next]) {
      InAppend(x, a, next);
      InAppend(x, b, next);
    }
  }
  lemma InAppend(x: real, s: seq<Interval>, next: Interval)
    ensures In(x, s + [next]) <==> In(x, s) || Holds(next, x)
  {
    if In(x, s) {
      var i :| 0 <= i < |s| && Holds(s[i], x);
      assert Holds((s + [next])[i], x);
    }
    if Holds(next, x) { assert Holds((s + [next])[|s|], x); }
  }
  lemma AbsorbPoints(merged: seq<Interval>, current: Interval, done: seq<Interval>, next: Interval)
    requires SamePoints(merged + [current], done)
    requires current.start <= next.start <= current.end && next.start < next.end
    ensures SamePoints(merged + [current.(end := if current.end < next.end then next.end else current.end)], done + [next])
  {
    var wide := current.(end := if current.end < next.end then next.end else current.end);
    forall x ensures In(x, merged + [wide]) <==> In(x, done + [next]) {
      InAppend(x, merged, wide);
      InAppend(x, merged, current);
      InAppend(x, done, next);
    }
  }
  lemma GapsKeep(merged: seq<Interval>, a: Interval, b: Interval)
    requires a.start == b.start
    ensures Gaps(merged + [a]) == Gaps(merged + [b])
  {}

  /** `gpu_idle_stats`. The merged intervals are returned as a ghost so the contract can speak of them. */
  method GpuIdleStats(events: seq<Activity>) returns (s: Stats, ghost merged: seq<Interval>)
    ensures s.activities == |Kept(events)|
    ensures Kept(events) == [] ==> merged == [] && s == Stats(0, 0.0, 0.0, 0.0, 0.0, 0, 0, 0.0)
    ensures Kept(events) != [] ==>
              && |merged| > 0 && Proper(merged) && Separated(merged) && SamePoints(merged, Kept(events))
              && s.span == merged[|merged| - 1].end - merged[0].start > 0.0
              && s.busy == TotalLength(merged)
              && s.idle == SumOf(Gaps(merged)) == s.span - s.busy
              && s.idlePct == 100.0 * s.idle / s.span
              && s.gapCount == |merged| - 1
              && s.gapsOver50 == CountOver(Gaps(merged), 50.0)
              && IsMax(s.maxGap, Gaps(merged))
  {
    hide SamePoints, Separated, Sort, Sorted, TotalOrder;
    var kept := Kept(events);
    var intervals := Sort(kept, Lexicographic);
    LexicographicTotal();
    SortSorts(kept, Lexicographic);
    SortPermutes(kept, Lexicographic);
    if |intervals| == 0 {
      return Stats(0, 0.0, 0.0, 0.0, 0.0, 0, 0, 0.0), [];
    }
    PermutedPoints(intervals, kept);
    var m, gaps := Merge(intervals);
    PointsTransitive(m, intervals, kept);
    merged := m;
    var span := m[|m| - 1].end - m[0].start;
    var busy := TotalLength(m);
    BusyPlusGapsIsSpan(m);
    GapsPositive(m);
    TotalPositive(m);
    var idle := if span - busy > 0.0 then span - busy else 0.0;
    var largest := MaxGap(gaps);
    s := Stats(|intervals|, span, busy, idle, if span != 0.0 then 100.0 * idle / span else 0.0,
               |gaps|, CountOver(gaps, 50.0), largest);
  }

  lemma LexicographicTotal()
    ensures TotalOrder(Lexicographic)
  {}

  lemma {:induction false} TotalPositive(m: seq<Interval>)
    requires Proper(m)
    ensures if m == [] then TotalLength(m) == 0.0 else TotalLength(m) > 0.0
  {
    if m != [] { TotalPositive(m[..|m| - 1]); }
  }

  lemma PermutedPoints(a: seq<Interval>, b: seq<Interval>)
    requires multiset(a) == multiset(b) && Proper(b)
    ensures Proper(a) && SamePoints(a, b)
  {
    forall i | 0 <= i < |a| ensures a[i] in b { assert a[i] in multiset(a); }
    forall i | 0 <= i < |b| ensures b[i] in a { assert b[i] in multiset(b); }
  }

  /** `max(gaps, default=0.0)`. */
  method MaxGap(gaps: seq<real>) returns (m: real)
    ensures IsMax(m, gaps)
  {
    if gaps == [] { return 0.0; }
    m := gaps[0];
    for k := 1 to |gaps|
      invariant m in gaps[..k] && forall x :: x in gaps[..k] ==> x <= m
    {
      assert gaps[..k + 1] == gaps[..k] + [gaps[k]];
      if gaps[k] > m { m := gaps[k]; }
    }
    assert gaps[..|gaps|] == gaps;
  }

  // ------------------------------------------------------------ what busy time means

  /** A segment between two neighbouring cuts is covered when one interval contains it. */
  ghost predicate Covered(s: seq<Interval>, a: real, b: real) {
    exists i :: 0 <= i < |s| && s[i].start <= a && b <= s[i].end
  }
  /** The measure of a union of intervals, read off any increasing list of cuts. */
  ghost function Measure(s: seq<Interval>, cuts: seq<real>): real {
    if |cuts| <= 1 then 0.0 else
    (if Covered(s, cuts[0], cuts[1]) then cuts[1] - cuts[0] else 0.0) + Measure(s, cuts[1..])
  }
  ghost predicate Increasing(cuts: seq<real>) { forall i, j :: 0 <= i < j < |cuts| ==> cuts[i] < cuts[j] }
  ghost predicate CutsAll(s: seq<Interval>, cuts: seq<real>) {
    forall i :: 0 <= i < |s| ==> s[i].start in cuts && s[i].end in cuts
  }
  /** No endpoint lies strictly inside the segment. */
  ghost predicate Uncut(s: seq<Interval>, a: real, b: real) {
    forall i :: 0 <= i < |s| ==> (s[i].start <= a || s[i].start >= b) && (s[i].end <= a || s[i].end >= b)
  }

  lemma NeighboursUncut(s: seq<Interval>, cuts: seq<real>, k: nat)
    requires Increasing(cuts) && CutsAll(s, cuts) && k + 1 < |cuts|
    ensures Uncut(s, cuts[k], cuts[k + 1])
  {}

  /** Coverage of an uncut segment depends on the points alone. */
  lemma CoveredByPoints(s: seq<Interval>, t: seq<Interval>, a: real, b: real)
    requires a < b && SamePoints(s, t) && Uncut(s, a, b) && Uncut(t, a, b)
    ensures Covered(s, a, b) <==> Covered(t, a, b)
  {
    CoveredIffMid(s, a, b);
    CoveredIffMid(t, a, b);
  }
  lemma CoveredIffMid(s: seq<Interval>, a: real, b: real)
    requires a < b && Uncut(s, a, b)
    ensures Covered(s, a, b) <==> In((a + b) / 2.0, s)
  {}

  lemma {:induction false} MeasureByPoints(s: seq<Interval>, t: seq<Interval>, cuts: seq<real>, k: nat)
    requires Increasing(cuts) && CutsAll(s, cuts) && CutsAll(t, cuts) && SamePoints(s, t) && k <= |cuts|
    ensures Measure(s, cuts[k..]) == Measure(t, cuts[k..])
    decreases |cuts| - k
  {
    if k + 1 < |cuts| {
      NeighboursUncut(s, cuts, k);
      NeighboursUncut(t, cuts, k);
      CoveredByPoints(s, t, cuts[k], cuts[k + 1]);
      MeasureByPoints(s, t, cuts, k + 1);
      assert cuts[k..][1..] == cuts[k + 1..];
    }
  }

  /** The part of an interval at or after `a`. */
  function From(iv: Interval, a: real): real {
    if iv.end <= a then 0.0 else if iv.start >= a then iv.end - iv.start else iv.end - a
  }
  function TotalFrom(s: seq<Interval>, a: real): real {
    if s == [] then 0.0 else TotalFrom(s[..|s| - 1], a) + From(s[|s| - 1], a)
  }

  /** Moving the start of the count across an uncut segment drops exactly its covered length. */
  lemma {:induction false} SegmentStep(m: seq<Interval>, a: real, b: real)
    requires a < b && Proper(m) && Separated(m) && Uncut(m, a, b)
    ensures TotalFrom(m, a) == TotalFrom(m, b) + (if Covered(m, a, b) then b - a else 0.0)
  {
    if m != [] {
      var init, last := m[..|m| - 1], m[|m| - 1];
      SegmentStep(init, a, b);
      CoverSplit(m, a, b);
    }
  }
  lemma CoverSplit(m: seq<Interval>, a: real, b: real)
    requires m != [] && a < b && Proper(m) && Separated(m)
    ensures var init, last := m[..|m| - 1], m[|m| - 1];
            && (Covered(m, a, b) <==> Covered(init, a, b) || (last.start <= a && b <= last.end))
            && !(Covered(init, a, b) && last.start <= a && b <= last.end)
  {}

  lemma {:induction false} MeasureFrom(m: seq<Interval>, cuts: seq<real>, k: nat)
    requires Proper(m) && Separated(m) && Increasing(cuts) && CutsAll(m, cuts) && k < |cuts|
    ensures Measure(m, cuts[k..]) == TotalFrom(m, cuts[k])
    decreases |cuts| - k
  {
    if k + 1 < |cuts| {
      NeighboursUncut(m, cuts, k);
      SegmentStep(m, cuts[k], cuts[k + 1]);
      MeasureFrom(m, cuts, k + 1);
      assert cuts[k..][1..] == cuts[k + 1..];
    } else {
      forall i | 0 <= i < |m| ensures m[i].end <= cuts[k] {
        var j :| 0 <= j < |cuts| && cuts[j] == m[i].end;
      }
      NothingFrom(m, cuts[k]);
    }
  }
  lemma {:induction false} NothingFrom(m: seq<Interval>, a: real)
    requires forall i :: 0 <= i < |m| ==> m[i].end <= a
    ensures TotalFrom(m, a) == 0.0
  {
    if m != [] { NothingFrom(m[..|m| - 1], a); }
  }
  lemma {:induction false} EverythingFrom(m: seq<Interval>, a: real)
    requires forall i :: 0 <= i < |m| ==> a <= m[i].start < m[i].end
    ensures TotalFrom(m, a) == TotalLength(m)
  {
    if m != [] { EverythingFrom(m[..|m| - 1], a); }
  }

  /** Busy time is the measure of the union of the kept activities, by any cuts through all endpoints. */
  lemma BusyIsMeasure(kept: seq<Interval>, merged: seq<Interval>, cuts: seq<real>)
    requires Proper(kept) && |merged| > 0 && Proper(merged) && Separated(merged) && SamePoints(merged, kept)
    requires Increasing(cuts) && CutsAll(kept, cuts)
    ensures TotalLength(merged) == Measure(kept, cuts)
  {
    forall i | 0 <= i < |merged| ensures merged[i].start in cuts && merged[i].end in cuts {
      MergedEndpoints(kept, merged, i);
    }
    assert cuts[0..] == cuts;
    assert merged[0].start in cuts;
    MeasureByPoints(merged, kept, cuts, 0);
    MeasureFrom(merged, cuts, 0);
    forall i | 0 <= i < |merged| ensures cuts[0] <= merged[i].start {
      var j :| 0 <= j < |cuts| && cuts[j] == merged[i].start;
    }
    EverythingFrom(merged, cuts[0]);
  }

  /** Merged endpoints are endpoints of the input, so cuts through the input suffice. */
  lemma MergedEndpoints(kept: seq<Interval>, merged: seq<Interval>, i: nat)
    requires Proper(kept) && Proper(merged) && Separated(merged) && SamePoints(merged, kept) && i < |merged|
    ensures (exists j :: 0 <= j < |kept| && kept[j].start == merged[i].start)
    ensures (exists j :: 0 <= j < |kept| && kept[j].end == merged[i].end)
  {
    var iv := merged[i];
    assert Holds(iv, iv.start) && Holds(iv, iv.end);
    assert In(iv.start, merged) && In(iv.end, merged);
    var j :| 0 <= j < |kept| && Holds(kept[j], iv.start);
    var k :| 0 <= k < |kept| && Holds(kept[k], iv.end);
    if kept[j].start < iv.start {
      var lo := if i > 0 then merged[i - 1].end else iv.start - 1.0;
      StrictlyBetween(kept, merged, i, j, if lo < kept[j].start then kept[j].start else (lo + iv.start) / 2.0);
    }
    if kept[k].end > iv.end {
      var hi := if i + 1 < |merged| then merged[i + 1].start else iv.end + 1.0;
      StrictlyBetween(kept, merged, i, k, if hi > kept[k].end then kept[k].end else (hi + iv.end) / 2.0);
    }
  }
  /** No input interval holds a point strictly between merged neighbours. */
  lemma StrictlyBetween(kept: seq<Interval>, merged: seq<Interval>, i: nat, j: nat, x: real)
    requires SamePoints(merged, kept) && Separated(merged) && Proper(merged) && i < |merged| && j < |kept|
    requires (merged[i].end < x && (i + 1 < |merged| ==> x < merged[i + 1].start))
          || (x < merged[i].start && (i > 0 ==> merged[i - 1].end < x))
    ensures !Holds(kept[j], x)
  {
    assert !In(x, merged) by {
      forall q | 0 <= q < |merged| ensures !Holds(merged[q], x) {
        if q < i { assert q == i - 1 || merged[q].end < merged[i - 1].start; }
        if q > i { assert q == i + 1 || merged[i + 1].end < merged[q].start; }
      }
    }
    assert !In(x, kept);
  }
}
