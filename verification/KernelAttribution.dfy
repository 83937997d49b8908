/** `attribute`: every GPU kernel's time goes to the range that owns it, and none is lost. */
module KernelAttribution {
  import opened RangeNesting
  import opened SetSums

  const BACKWARD_SUFFIX := "#backward"
  const UNATTRIBUTED := "<<unattributed>>"

  /** The value of one `RangeStats`. */
  datatype Stat = Stat(name: string, us: real, kernels: nat, kernelNames: map<string, real>)

  class RangeStats {
    const name: string
    var us: real
    var kernels: nat
    var kernelNames: map<string, real>

    constructor (name: string)
      ensures this.name == name && us == 0.0 && kernels == 0 && kernelNames == map[]
    {
      this.name := name;
      us, kernels, kernelNames := 0.0, 0, map[];
    }

    ghost function Value(): Stat
      reads this
    { Stat(name, us, kernels, kernelNames) }

    /** The field updates of one kernel. */
    method Add(duration: real, kernelName: string)
      modifies this
      ensures Value() == Charged(old(Value()), duration, kernelName)
    {
      us := us + duration;
      kernels := kernels + 1;
      kernelNames := kernelNames[kernelName := (if kernelName in kernelNames then kernelNames[kernelName] else 0.0) + duration];
    }
  }

  function Charged(s: Stat, duration: real, kernelName: string): Stat {
    Stat(s.name, s.us + duration, s.kernels + 1,
         s.kernelNames[kernelName := (if kernelName in s.kernelNames then s.kernelNames[kernelName] else 0.0) + duration])
  }

  predicate IsKernel(e: Event) { e.cat == "kernel" }

  /** The key of a range: its name, tagged when it belongs to the backward pass. */
  function Key(name: string, isBackward: bool): string { if isBackward then name + BACKWARD_SUFFIX else name }

  function OwnerOf(e: Event, owners: Owners): string {
    if e.externalId.Some? && e.externalId.value in owners
    then Key(owners[e.externalId.value].0, owners[e.externalId.value].1) else UNATTRIBUTED
  }

  // -------------------------------------------------------- what the totals should be

  function KernelTime(events: seq<Event>): real {
    if events == [] then 0.0 else
    KernelTime(events[..|events| - 1]) + (if IsKernel(events[|events| - 1]) then events[|events| - 1].dur else 0.0)
  }
  function KernelCount(events: seq<Event>): nat {
    if events == [] then 0 else
    KernelCount(events[..|events| - 1]) + (if IsKernel(events[|events| - 1]) then 1 else 0)
  }
  ghost function KernelsAt(events: seq<Event>): set<int> { set i | 0 <= i < |events| && events[i].cat == "kernel" }
  function Durations(events: seq<Event>): int -> real { i => if 0 <= i < |events| then events[i].dur else 0.0 }

  /** The totals are the sum and the number of the events of category kernel. */
  lemma {:induction false} KernelTotalsMean(events: seq<Event>)
    ensures KernelTime(events) == SumOver(KernelsAt(events), Durations(events))
    ensures KernelCount(events) == |KernelsAt(events)|
  {
    if events == [] {
      assert KernelsAt(events) == {};
      SumEmpty(Durations(events));
    } else {
      var n: int := |events| - 1;
      var init := events[..n];
      KernelTotalsMean(init);
      LastKernel(events);
      hide SumOver, KernelsAt;
      SumSame(KernelsAt(init), Durations(init), Durations(events));
      if events[n].cat == "kernel" { SumAdd(KernelsAt(init), n, Durations(events)); }
    }
  }
  lemma LastKernel(events: seq<Event>)
    requires events != []
    ensures var n: int := |events| - 1;
            && KernelsAt(events) == KernelsAt(events[..n]) + (if events[n].cat == "kernel" then {n} else {})
            && n !in KernelsAt(events[..n]) && forall i :: i in KernelsAt(events[..n]) ==> 0 <= i < n
  {}

  /** The kernels of one owner, in trace order. */
  function OwnedBy(events: seq<Event>, owners: Owners, owner: string): seq<Event> {
    if events == [] then [] else
    var rest, e := OwnedBy(events[..|events| - 1], owners, owner), events[|events| - 1];
    if IsKernel(e) && OwnerOf(e, owners) == owner then rest + [e] else rest
  }
  function Named(events: seq<Event>, kernelName: string): seq<Event> {
    if events == [] then [] else
    var rest, e := Named(events[..|events| - 1], kernelName), events[|events| - 1];
    if e.name == kernelName then rest + [e] else rest
  }

  /** `m` records exactly the kernels of `events`: keys, times, counts and per-kernel-name times. */
  ghost predicate Records(m: map<string, Stat>, events: seq<Event>, owners: Owners) {
    && (forall o :: o in m <==> OwnedBy(events, owners, o) != [])
    && forall o :: o in m ==> RecordsOwner(m[o], o, OwnedBy(events, owners, o))
  }
  ghost predicate RecordsOwner(s: Stat, o: string, mine: seq<Event>) {
    && s.name == o
    && s.us == KernelTime(mine)
    && s.kernels == KernelCount(mine)
    && (forall k :: k in s.kernelNames <==> Named(mine, k) != [])
    && (forall k :: k in s.kernelNames ==> s.kernelNames[k] == KernelTime(Named(mine, k)))
  }

  ghost function View(stats: map<string, RangeStats>): map<string, Stat>
    reads stats.Values
  {
    map o | o in stats :: stats[o].Value()
  }

  lemma NamedStep(mine: seq<Event>, e: Event, kernelName: string)
    ensures Named(mine + [e], kernelName) == if e.name == kernelName then Named(mine, kernelName) + [e] else Named(mine, kernelName)
  {
    assert (mine + [e])[..|mine|] == mine;
  }
  lemma ChargeRecords(s: Stat, o: string, mine: seq<Event>, e: Event)
    requires RecordsOwner(s, o, mine) && IsKernel(e)
    ensures RecordsOwner(Charged(s, e.dur, e.name), o, mine + [e])
  {
    hide KernelTime, KernelCount, Named;
    TraceStep(mine, e);
    NoTime();
    forall k ensures var after := Charged(s, e.dur, e.name);
                     && (k in after.kernelNames <==> Named(mine + [e], k) != [])
                     && (k in after.kernelNames ==> after.kernelNames[k] == KernelTime(Named(mine + [e], k)))
    {
      NamedStep(mine, e, k);
      TraceStep(Named(mine, k), e);
    }
  }
  lemma NoTime()
    ensures KernelTime([]) == 0.0
  {}

  lemma OwnedStep(events: seq<Event>, e: Event, owners: Owners, o: string)
    ensures OwnedBy(events + [e], owners, o)
         == if IsKernel(e) && OwnerOf(e, owners) == o then OwnedBy(events, owners, o) + [e] else OwnedBy(events, owners, o)
  {}

  /** The map after one event. */
  function Recorded(m: map<string, Stat>, e: Event, owners: Owners): map<string, Stat> {
    if IsKernel(e) then
      var o := OwnerOf(e, owners);
      m[o := Charged(if o in m then m[o] else Stat(o, 0.0, 0, map[]), e.dur, e.name)]
    else m
  }

  lemma RecordStep(m: map<string, Stat>, events: seq<Event>, e: Event, owners: Owners)
    requires Records(m, events, owners)
    ensures Records(Recorded(m, e, owners), events + [e], owners)
  {
    hide RecordsOwner, OwnedBy, Charged, OwnerOf;
    var after, target := Recorded(m, e, owners), OwnerOf(e, owners);
    if IsKernel(e) {
      var mine := OwnedBy(events, owners, target);
      if target !in m { FreshStat(target); }
      ChargeRecords(if target in m then m[target] else Stat(target, 0.0, 0, map[]), target, mine, e);
    }
    forall o ensures o in after <==> OwnedBy(events + [e], owners, o) != [] {
      OwnedStep(events, e, owners, o);
    }
    forall o | o in after ensures RecordsOwner(after[o], o, OwnedBy(events + [e], owners, o)) {
      OwnedStep(events, e, owners, o);
      if !(IsKernel(e) && o == target) { assert o in m && after[o] == m[o]; }
    }
  }
  lemma FreshStat(o: string)
    ensures RecordsOwner(Stat(o, 0.0, 0, map[]), o, [])
  {}

  /** `stats` holds one object per owner. */
  ghost predicate OneEach(stats: map<string, RangeStats>) {
    forall o, q :: o in stats && q in stats && o != q ==> stats[o] != stats[q]
  }

  /** `setdefault` and the updates of the entry. */
  method Charge(stats: map<string, RangeStats>, owner: string, duration: real, kernelName: string)
    returns (after: map<string, RangeStats>)
    requires OneEach(stats)
    modifies stats.Values
    ensures OneEach(after)
    ensures forall o :: o in after ==> (o in stats && after[o] == stats[o]) || fresh(after[o])
    ensures View(after) == old(View(stats))[owner :=
              Charged(old(if owner in stats then stats[owner].Value() else Stat(owner, 0.0, 0, map[])), duration, kernelName)]
  {
    after := stats;
    if owner !in after {
      var entry := new RangeStats(owner);
      after := after[owner := entry];
    }
    after[owner].Add(duration, kernelName);
  }

  /** `attribute`: one pass over the trace, updating the owner's statistics in place. */
  method Attribute(events: seq<Event>) returns (stats: map<string, RangeStats>, total: real, ghost owners: Owners)
    ensures forall tid :: Settled(events, tid, owners)
    ensures OneEach(stats) && forall o :: o in stats ==> fresh(stats[o])
    ensures Records(View(stats), events, owners)
    ensures total == KernelTime(events)
  {
    var ranges := DeepestRanges(events);
    owners := ranges;
    stats, total := map[], 0.0;
    hide Settled, KernelTime, OwnedBy;
    NothingYet(ranges);
    assert events[..0] == [];
    for i := 0 to |events|
      invariant OneEach(stats) && forall o :: o in stats ==> fresh(stats[o])
      invariant Records(View(stats), events[..i], ranges)
      invariant total == KernelTime(events[..i])
    {
      hide Records, OneEach, Charged, OwnerOf;
      var e := events[i];
      assert events[..i + 1] == events[..i] + [e];
      assert events[..i + 1][..i] == events[..i];
      RecordStep(View(stats), events[..i], e, ranges);
      TraceStep(events[..i], e);
      ghost var before := View(stats);
      if IsKernel(e) {
        total := total + e.dur;
        stats := Charge(stats, OwnerOf(e, ranges), e.dur, e.name);
      }
      assert View(stats) == Recorded(before, e, ranges);
    }
    assert events[..|events|] == events;
  }

  lemma NothingYet(owners: Owners)
    ensures Records(map[], [], owners) && KernelTime([]) == 0.0
  {}

  // ------------------------------------------------------------- nothing is lost

  function OwnerTime(events: seq<Event>, owners: Owners): string -> real { o => KernelTime(OwnedBy(events, owners, o)) }
  function OwnerCount(events: seq<Event>, owners: Owners): string -> real { o => KernelCount(OwnedBy(events, owners, o)) as real }

  lemma OwnerTotalsStep(init: seq<Event>, e: Event, owners: Owners, o: string)
    ensures OwnerTime(init + [e], owners)(o)
         == OwnerTime(init, owners)(o) + (if IsKernel(e) && OwnerOf(e, owners) == o then e.dur else 0.0)
    ensures OwnerCount(init + [e], owners)(o)
         == OwnerCount(init, owners)(o) + (if IsKernel(e) && OwnerOf(e, owners) == o then 1.0 else 0.0)
  {}

  lemma TraceStep(init: seq<Event>, e: Event)
    ensures KernelTime(init + [e]) == KernelTime(init) + (if IsKernel(e) then e.dur else 0.0)
    ensures KernelCount(init + [e]) == KernelCount(init) + (if IsKernel(e) then 1 else 0)
  {}

  /** Over any set holding every owner, the per-owner times and counts add up to the whole trace. */
  lemma {:induction false} OwnersPartition(events: seq<Event>, owners: Owners, keys: set<string>)
    requires forall i :: 0 <= i < |events| && IsKernel(events[i]) ==> OwnerOf(events[i], owners) in keys
    ensures SumOver(keys, OwnerTime(events, owners)) == KernelTime(events)
    ensures SumOver(keys, OwnerCount(events, owners)) == KernelCount(events) as real
  {
    if events == [] {
      SumNonNegative(keys, OwnerTime(events, owners));
      SumNonNegative(keys, OwnerCount(events, owners));
    } else {
      var init, e := events[..|events| - 1], events[|events| - 1];
      assert events == init + [e];
      OwnersPartition(init, owners, keys);
      TraceStep(init, e);
      assert IsKernel(e) ==> OwnerOf(e, owners) in keys;
      hide OwnerOf, OwnerTime, OwnerCount, KernelTime, KernelCount, SumOver;
      TimesStep(init, e, owners, keys);
      CountsStep(init, e, owners, keys);
    }
  }
  lemma TimesStep(init: seq<Event>, e: Event, owners: Owners, keys: set<string>)
    requires IsKernel(e) ==> OwnerOf(e, owners) in keys
    ensures SumOver(keys, OwnerTime(init + [e], owners)) == SumOver(keys, OwnerTime(init, owners)) + (if IsKernel(e) then e.dur else 0.0)
  {
    hide OwnerOf, OwnerTime, OwnerCount, SumOver;
    var before, after := OwnerTime(init, owners), OwnerTime(init + [e], owners);
    forall o ensures after(o) == before(o) + (if IsKernel(e) && OwnerOf(e, owners) == o then e.dur else 0.0) {
      OwnerTotalsStep(init, e, owners, o);
    }
    if IsKernel(e) { SumChange(keys, OwnerOf(e, owners), before, after); } else { SumSame(keys, before, after); }
  }
  lemma CountsStep(init: seq<Event>, e: Event, owners: Owners, keys: set<string>)
    requires IsKernel(e) ==> OwnerOf(e, owners) in keys
    ensures SumOver(keys, OwnerCount(init + [e], owners)) == SumOver(keys, OwnerCount(init, owners)) + (if IsKernel(e) then 1.0 else 0.0)
  {
    hide OwnerOf, OwnerTime, OwnerCount, SumOver;
    var before, after := OwnerCount(init, owners), OwnerCount(init + [e], owners);
    forall o ensures after(o) == before(o) + (if IsKernel(e) && OwnerOf(e, owners) == o then 1.0 else 0.0) {
      OwnerTotalsStep(init, e, owners, o);
    }
    if IsKernel(e) { SumChange(keys, OwnerOf(e, owners), before, after); } else { SumSame(keys, before, after); }
  }

  lemma {:induction false} KernelsHaveOwners(events: seq<Event>, owners: Owners, i: nat)
    requires i < |events| && IsKernel(events[i])
    ensures OwnedBy(events, owners, OwnerOf(events[i], owners)) != []
  {
    if i < |events| - 1 {
      KernelsHaveOwners(events[..|events| - 1], owners, i);
    }
  }

  function Time(m: map<string, Stat>): string -> real { o => if o in m then m[o].us else 0.0 }
  function Count(m: map<string, Stat>): string -> real { o => if o in m then m[o].kernels as real else 0.0 }

  /** The statistics `attribute` returns add up: time to the total, kernels to their number. */
  lemma AttributionConserves(m: map<string, Stat>, events: seq<Event>, owners: Owners)
    requires Records(m, events, owners)
    ensures SumOver(m.Keys, Time(m)) == KernelTime(events)
    ensures SumOver(m.Keys, Count(m)) == KernelCount(events) as real
  {
    forall i | 0 <= i < |events| && IsKernel(events[i]) ensures OwnerOf(events[i], owners) in m.Keys {
      KernelsHaveOwners(events, owners, i);
    }
    OwnersPartition(events, owners, m.Keys);
    SumSame(m.Keys, Time(m), OwnerTime(events, owners));
    SumSame(m.Keys, Count(m), OwnerCount(events, owners));
  }

  function NameTime(mine: seq<Event>): string -> real { k => KernelTime(Named(mine, k)) }
  function Split(s: Stat): string -> real { k => if k in s.kernelNames then s.kernelNames[k] else 0.0 }

  lemma {:induction false} NamesPartition(mine: seq<Event>, keys: set<string>)
    requires forall i :: 0 <= i < |mine| ==> mine[i].name in keys
    ensures SumOver(keys, NameTime(mine)) == KernelTime(mine)
  {
    if mine == [] {
      SumNonNegative(keys, NameTime(mine));
    } else {
      var init, e := mine[..|mine| - 1], mine[|mine| - 1];
      NamesPartition(init, keys);
      var same := Named(init, e.name);
      assert (same + [e])[..|same|] == same;
      SumChange(keys, e.name, NameTime(init), NameTime(mine));
    }
  }

  lemma {:induction false} NamesPresent(mine: seq<Event>, i: nat)
    requires i < |mine|
    ensures Named(mine, mine[i].name) != []
  {
    if i < |mine| - 1 { NamesPresent(mine[..|mine| - 1], i); }
  }

  /** Within one owner, the per-kernel-name times add up to the owner's time. */
  lemma NamesConserve(m: map<string, Stat>, events: seq<Event>, owners: Owners, o: string)
    requires Records(m, events, owners) && o in m
    ensures SumOver(m[o].kernelNames.Keys, Split(m[o])) == m[o].us
  {
    var mine := OwnedBy(events, owners, o);
    forall i | 0 <= i < |mine| ensures mine[i].name in m[o].kernelNames.Keys { NamesPresent(mine, i); }
    NamesPartition(mine, m[o].kernelNames.Keys);
    SumSame(m[o].kernelNames.Keys, Split(m[o]), NameTime(mine));
  }
}
