/** Pairing kernels across two builds: the numbering of same-named kernels and the changed / renamed / added /
removed accounting. */
module KernelDiff {
  import opened Outcomes
  import opened Sorting

  /** A sidecar after its name was stripped and its body masked. */
  datatype Sidecar = Sidecar(name: string, body: string)

  type Kernels = map<string, string>

  // --------------------------------------------------------------------- keys

  function Decimal(n: nat): (s: string)
    ensures |s| >= 1 && (n >= 10 ==> |s| >= 2) && (n < 10 ==> |s| == 1)
    ensures forall i :: 0 <= i < |s| ==> '0' <= s[i] <= '9'
  {
    var digit := '0' + (n % 10) as char;
    if n < 10 then [digit] else Decimal(n / 10) + [digit]
  }

  lemma {:induction false} DecimalInjective(a: nat, b: nat)
    requires Decimal(a) == Decimal(b)
    ensures a == b
  {
    assert Decimal(a)[|Decimal(a)| - 1] == '0' + (a % 10) as char;
    assert Decimal(b)[|Decimal(b)| - 1] == '0' + (b % 10) as char;
    if a >= 10 {
      assert Decimal(a)[..|Decimal(a)| - 1] == Decimal(a / 10);
      assert Decimal(b)[..|Decimal(b)| - 1] == Decimal(b / 10);
      DecimalInjective(a / 10, b / 10);
    }
  }

  predicate NoHash(name: string) { '#' !in name }

  /** The plain name, or the name numbered from one among its namesakes. */
  function Key(name: string, index: nat): string { if index == 0 then name else name + "#" + Decimal(index) }

  /** Everything after the last `#` of a numbered key is the number. */
  lemma {:induction false} CutAtLastHash(a: string, b: string, s: string, t: string)
    requires NoHash(s) && NoHash(t) && a + "#" + s == b + "#" + t
    ensures a == b && s == t
  {
    var whole := a + "#" + s;
    if s == [] || t == [] {
      var last, before := whole[|whole| - 1], whole[..|whole| - 1];
      assert (s == [] ==> last == '#' && before == a) && (t == [] ==> last == '#' && before == b);
      assert (s != [] ==> last in s) && (t != [] ==> last in t);
    } else {
      var s', t' := s[..|s| - 1], t[..|t| - 1];
      assert whole[|whole| - 1] == s[|s| - 1] == t[|t| - 1];
      assert whole[..|whole| - 1] == a + "#" + s' == b + "#" + t';
      CutAtLastHash(a, b, s', t');
      assert s == s' + [s[|s| - 1]] && t == t' + [t[|t| - 1]];
    }
  }

  /** Numbered keys are different. */
  lemma NumberedKeyInjective(a: string, i: nat, b: string, j: nat)
    requires i > 0 && j > 0 && Key(a, i) == Key(b, j)
    ensures a == b && i == j
  {
    CutAtLastHash(a, b, Decimal(i), Decimal(j));
    DecimalInjective(i, j);
  }

  // ------------------------------------------------------------------- bodies

  /** The bodies a map holds, with multiplicity. */
  ghost function Bodies(m: Kernels): multiset<string> {
    if m == map[] then multiset{} else var k :| k in m; Bodies(m - {k}) + multiset{m[k]}
  }

  lemma DropSize(m: Kernels, k: string)
    requires k in m
    ensures |m - {k}| == |m| - 1
  {}
  lemma DropTwice(m: Kernels, j: string, k: string)
    ensures m - {j} - {k} == m - {k} - {j}
  {}

  lemma {:induction false} BodiesRemove(m: Kernels, k: string)
    requires k in m
    ensures Bodies(m) == Bodies(m - {k}) + multiset{m[k]}
    decreases |m|
  {
    assert m != map[];
    var other :| other in m && Bodies(m) == Bodies(m - {other}) + multiset{m[other]};
    hide Bodies;
    if other != k {
      DropSize(m, other);
      DropSize(m, k);
      BodiesRemove(m - {other}, k);
      BodiesRemove(m - {k}, other);
      DropTwice(m, other, k);
    }
  }

  lemma NoBodies()
    ensures Bodies(map[]) == multiset{}
  {}

  lemma BodiesAdd(m: Kernels, k: string, body: string)
    requires k !in m
    ensures Bodies(m[k := body]) == Bodies(m) + multiset{body}
  {
    hide Bodies;
    BodiesRemove(m[k := body], k);
    assert m[k := body] - {k} == m;
  }

  lemma OutsideStep(m: Kernels, k: string, names: set<string>)
    requires k in m && k in names
    ensures m - names == (m - {k}) - names
    ensures k in m - (m.Keys - names)
    ensures m - (m.Keys - names) - {k} == (m - {k}) - ((m - {k}).Keys - names)
  {}
  lemma InsideStep(m: Kernels, k: string, names: set<string>)
    requires k in m && k !in names
    ensures m - (m.Keys - names) == (m - {k}) - ((m - {k}).Keys - names)
    ensures k in m - names && m - names - {k} == (m - {k}) - names
  {}

  /** Splitting a map by a set of names splits its bodies. */
  lemma {:induction false} BodiesSplit(m: Kernels, names: set<string>)
    ensures Bodies(m) == Bodies(m - names) + Bodies(m - (m.Keys - names))
    decreases |m|
  {
    hide Bodies;
    if m == map[] {
      NoBodies();
      assert m - names == map[] && m - (m.Keys - names) == map[];
    } else {
      var k :| k in m;
      DropSize(m, k);
      BodiesSplit(m - {k}, names);
      BodiesRemove(m, k);
      if k in names {
        OutsideStep(m, k, names);
        BodiesRemove(m - (m.Keys - names), k);
      } else {
        InsideStep(m, k, names);
        BodiesRemove(m - names, k);
      }
    }
  }

  // ------------------------------------------------------------------- pairing

  datatype Counts = Counts(kernels: nat, changed: nat, added: nat, removed: nat, renamed: nat)

  /** The bodies of a list of names. */
  function Lookup(m: Kernels, names: seq<string>): seq<string>
    requires forall n :: n in names ==> n in m
  { seq(|names|, i requires 0 <= i < |names| => m[names[i]]) }

  lemma {:induction false} LookupBodies(m: Kernels, names: seq<string>)
    requires Distinct(names) && forall n :: n in names <==> n in m
    ensures multiset(Lookup(m, names)) == Bodies(m)
  {
    hide Bodies;
    if names == [] {
      NoBodies();
      assert m == map[];
    } else {
      var init, last := names[..|names| - 1], names[|names| - 1];
      assert names == init + [last];
      var rest := m - {last};
      InitOf(m, names);
      LookupBodies(rest, init);
      BodiesRemove(m, last);
      assert Lookup(m, names) == Lookup(rest, init) + [m[last]];
    }
  }
  lemma InitOf(m: Kernels, names: seq<string>)
    requires names != [] && Distinct(names) && forall n :: n in names <==> n in m
    ensures var init, last := names[..|names| - 1], names[|names| - 1];
            last in m && Distinct(init) && forall n :: n in init <==> n in m - {last}
  {}

  /** How many twins of a body are still unpaired. */
  function Left(twins: map<string, seq<string>>, body: string): nat { if body in twins then |twins[body]| else 0 }

  lemma PairStep(done: multiset<string>, pool: multiset<string>, x: string)
    ensures (done + multiset{x}) * pool == if done[x] < pool[x] then done * pool + multiset{x} else done * pool
  {}

  /** `twins` holds, per body, the unpaired names of `after` with that body. */
  ghost predicate Unpaired(twins: map<string, seq<string>>, pool: multiset<string>) {
    forall b :: Left(twins, b) == pool[b]
  }

  /** Distinct kernels of `before` matched with distinct kernels of `after` of the same body. */
  ghost predicate Pairing(pairs: map<string, string>, before: Kernels, after: Kernels) {
    && (forall a :: a in pairs ==> a in before && pairs[a] in after && before[a] == after[pairs[a]])
    && (forall a, b :: a in pairs && b in pairs && a != b ==> pairs[a] != pairs[b])
  }

  /** Every twin is a name of its body, listed once and not used so far. */
  ghost predicate Unused(twins: map<string, seq<string>>, after: Kernels, names: seq<string>, used: set<string>) {
    && (forall b, j :: b in twins && 0 <= j < |twins[b]| ==> IsTwin(twins[b][j], b, after, names, used))
    && (forall b :: b in twins ==> Distinct(twins[b]))
  }
  ghost predicate IsTwin(name: string, body: string, after: Kernels, names: seq<string>, used: set<string>) {
    name in names && name in after && after[name] == body && name !in used
  }

  method GroupTwins(after: Kernels, onlyAfter: seq<string>) returns (twins: map<string, seq<string>>)
    requires Distinct(onlyAfter) && forall n :: n in onlyAfter ==> n in after
    ensures Unpaired(twins, multiset(Lookup(after, onlyAfter)))
    ensures Unused(twins, after, onlyAfter, {})
  {
    hide Unpaired, Unused, Lookup, Distinct;
    LookupShape(after, onlyAfter);
    twins := map[];
    ghost var pool := Lookup(after, onlyAfter);
    NoTwins(after);
    assert pool[..0] == [] && onlyAfter[..0] == [];
    for i := 0 to |onlyAfter|
      invariant Unpaired(twins, multiset(pool[..i]))
      invariant Unused(twins, after, onlyAfter[..i], {})
    {
      var name := onlyAfter[i];
      var body := after[name];
      assert pool[..i + 1] == pool[..i] + [body];
      assert onlyAfter[..i + 1] == onlyAfter[..i] + [name];
      NotAmong(onlyAfter, i);
      AddTwin(twins, after, onlyAfter[..i], name);
      CountTwin(twins, multiset(pool[..i]), body, name);
      twins := twins[body := (if body in twins then twins[body] else []) + [name]];
    }
    assert pool[..|onlyAfter|] == pool;
    assert onlyAfter[..|onlyAfter|] == onlyAfter;
  }
  lemma NoTwins(after: Kernels)
    ensures Unpaired(map[], multiset{}) && Unused(map[], after, [], {})
  {}
  lemma CountTwin(twins: map<string, seq<string>>, pool: multiset<string>, body: string, name: string)
    requires Unpaired(twins, pool)
    ensures Unpaired(twins[body := (if body in twins then twins[body] else []) + [name]], pool + multiset{body})
  {
    var more := twins[body := (if body in twins then twins[body] else []) + [name]];
    forall b ensures Left(more, b) == (pool + multiset{body})[b] { assert Left(twins, b) == pool[b]; }
  }

  lemma AddTwin(twins: map<string, seq<string>>, after: Kernels, names: seq<string>, name: string)
    requires Unused(twins, after, names, {}) && name in after && name !in names
    ensures Unused(twins[after[name] := (if after[name] in twins then twins[after[name]] else []) + [name]],
                   after, names + [name], {})
  {
    var old' := if after[name] in twins then twins[after[name]] else [];
    assert forall j :: 0 <= j < |old'| ==> IsTwin(old'[j], after[name], after, names, {});
  }

  /** Taking the last twin of a body uses its name. */
  lemma TakeTwin(twins: map<string, seq<string>>, after: Kernels, names: seq<string>, used: set<string>, body: string)
    requires Unused(twins, after, names, used) && body in twins && twins[body] != []
    ensures var left, name := twins[body][..|twins[body]| - 1], twins[body][|twins[body]| - 1];
            && IsTwin(name, body, after, names, used)
            && Unused(twins[body := left], after, names, used + {name})
  {
    var left, name := twins[body][..|twins[body]| - 1], twins[body][|twins[body]| - 1];
    assert IsTwin(name, body, after, names, used);
    var rest := twins[body := left];
    forall b, j | b in rest && 0 <= j < |rest[b]| ensures IsTwin(rest[b][j], b, after, names, used + {name}) {
      assert IsTwin(twins[b][j], b, after, names, used);
    }
  }

  lemma PopTwin(twins: map<string, seq<string>>, pool: multiset<string>, done: multiset<string>, x: string)
    requires Unpaired(twins, pool - done)
    ensures (x in twins && twins[x] != []) <==> done[x] < pool[x]
    ensures Unpaired(if x in twins && twins[x] != [] then twins[x := twins[x][..|twins[x]| - 1]] else twins,
                     pool - (done + multiset{x}))
    ensures |(done + multiset{x}) * pool| == |done * pool| + if x in twins && twins[x] != [] then 1 else 0
  {
    PairStep(done, pool, x);
    assert Left(twins, x) == (pool - done)[x];
    var after := if x in twins && twins[x] != [] then twins[x := twins[x][..|twins[x]| - 1]] else twins;
    forall b ensures Left(after, b) == (pool - (done + multiset{x}))[b] {
      assert Left(twins, b) == (pool - done)[b];
    }
  }

  lemma LookupShape(m: Kernels, names: seq<string>)
    requires forall n :: n in names ==> n in m
    ensures |Lookup(m, names)| == |names| && forall i :: 0 <= i < |names| ==> Lookup(m, names)[i] == m[names[i]]
  {}

  /** Pair leftovers by body: each name only in `before` takes one twin of its body from `after`. */
  method CountRenamed(before: Kernels, after: Kernels, onlyBefore: seq<string>, onlyAfter: seq<string>)
    returns (renamed: nat, ghost pairs: map<string, string>)
    requires Distinct(onlyBefore) && forall n :: n in onlyBefore ==> n in before
    requires Distinct(onlyAfter) && forall n :: n in onlyAfter ==> n in after
    ensures renamed == |multiset(Lookup(before, onlyBefore)) * multiset(Lookup(after, onlyAfter))|
    ensures renamed == |pairs| && Pairing(pairs, before, after)
    ensures forall a :: a in pairs ==> a in onlyBefore && pairs[a] in onlyAfter
  {
    hide Unpaired, Lookup, Unused, Distinct, Pairing, Paired;
    LookupShape(before, onlyBefore);
    var twins := GroupTwins(after, onlyAfter);
    ghost var pool, wanted := multiset(Lookup(after, onlyAfter)), Lookup(before, onlyBefore);
    renamed, pairs := 0, map[];
    NothingPaired(twins, before, after, onlyAfter);
    assert onlyBefore[..0] == [];
    assert pool - multiset(wanted[..0]) == pool;
    for i := 0 to |onlyBefore|
      invariant renamed == |multiset(wanted[..i]) * pool|
      invariant Unpaired(twins, pool - multiset(wanted[..i]))
      invariant renamed == |pairs| && Paired(pairs, twins, before, after, onlyBefore[..i], onlyAfter)
    {
      var name := onlyBefore[i];
      var body := before[name];
      assert wanted[..i + 1] == wanted[..i] + [body];
      assert onlyBefore[..i + 1] == onlyBefore[..i] + [name];
      PopTwin(twins, pool, multiset(wanted[..i]), body);
      if body in twins && twins[body] != [] {
        NotAmong(onlyBefore, i);
        PairOne(pairs, twins, before, after, onlyBefore[..i], onlyAfter, name);
        pairs := pairs[name := twins[body][|twins[body]| - 1]];
        twins := twins[body := twins[body][..|twins[body]| - 1]];
        renamed := renamed + 1;
      } else {
        PassOne(pairs, twins, before, after, onlyBefore[..i], onlyAfter, name);
      }
    }
    assert wanted[..|onlyBefore|] == wanted;
    assert onlyBefore[..|onlyBefore|] == onlyBefore;
    PairedMeans(pairs, twins, before, after, onlyBefore, onlyAfter);
  }

  /** The pairs made so far and the twins still free. */
  ghost predicate Paired(pairs: map<string, string>, twins: map<string, seq<string>>, before: Kernels, after: Kernels,
                         done: seq<string>, names: seq<string>) {
    && Pairing(pairs, before, after) && Unused(twins, after, names, pairs.Values)
    && forall a :: a in pairs ==> a in done && pairs[a] in names
  }
  lemma PairedMeans(pairs: map<string, string>, twins: map<string, seq<string>>, before: Kernels, after: Kernels,
                    done: seq<string>, names: seq<string>)
    requires Paired(pairs, twins, before, after, done, names)
    ensures Pairing(pairs, before, after) && forall a :: a in pairs ==> a in done && pairs[a] in names
  {}
  lemma NothingPaired(twins: map<string, seq<string>>, before: Kernels, after: Kernels, names: seq<string>)
    requires Unused(twins, after, names, {})
    ensures Paired(map[], twins, before, after, [], names)
  {
    var none: map<string, string> := map[];
    assert none.Values == {};
  }
  lemma PairOne(pairs: map<string, string>, twins: map<string, seq<string>>, before: Kernels, after: Kernels,
                done: seq<string>, names: seq<string>, name: string)
    requires Paired(pairs, twins, before, after, done, names)
    requires name in before && name !in done && before[name] in twins && twins[before[name]] != []
    ensures var list := twins[before[name]];
            var pairs' := pairs[name := list[|list| - 1]];
            && |pairs'| == |pairs| + 1
            && Paired(pairs', twins[before[name] := list[..|list| - 1]], before, after, done + [name], names)
  {
    hide Pairing, Unused;
    var list := twins[before[name]];
    TakeTwin(twins, after, names, pairs.Values, before[name]);
    AddPair(pairs, before, after, name, list[|list| - 1]);
  }
  lemma PassOne(pairs: map<string, string>, twins: map<string, seq<string>>, before: Kernels, after: Kernels,
                done: seq<string>, names: seq<string>, name: string)
    requires Paired(pairs, twins, before, after, done, names)
    ensures Paired(pairs, twins, before, after, done + [name], names)
  {}
  lemma NotAmong(names: seq<string>, i: nat)
    requires Distinct(names) && i < |names|
    ensures names[i] !in names[..i]
  {}
  lemma AddPair(pairs: map<string, string>, before: Kernels, after: Kernels, a: string, b: string)
    requires Pairing(pairs, before, after) && a !in pairs && b !in pairs.Values
    requires a in before && b in after && before[a] == after[b]
    ensures Pairing(pairs[a := b], before, after)
    ensures pairs[a := b].Values == pairs.Values + {b} && |pairs[a := b]| == |pairs| + 1
  {
    forall v | v in pairs.Values ensures v in pairs[a := b].Values {
      var k :| k in pairs && pairs[k] == v;
      assert pairs[a := b][k] == v;
    }
    assert pairs[a := b][a] == b;
    assert pairs[a := b] - {a} == pairs;
  }

  /** Names in both builds whose bodies differ. */
  function ChangedNames(before: Kernels, after: Kernels): set<string> {
    set n | n in before && n in after && before[n] != after[n]
  }

  /** A side without the module has no kernels. */
  function Side(s: Option<Kernels>): Kernels { if s.Some? then s.value else map[] }

  /** The accounting of one specialization; a missing side is a module added or removed. */
  method CompareVariant(beforeSide: Option<Kernels>, afterSide: Option<Kernels>)
    returns (c: Counts, ghost pairs: map<string, string>)
    ensures var before, after := Side(beforeSide), Side(afterSide);
            && c.kernels == |after|
            && (beforeSide.Some? && afterSide.Some? ==>
                  var gone, new' := before - after.Keys, after - before.Keys;
                  && c.changed == |set n | n in before && n in after && before[n] != after[n]|
                  && c.renamed == |Bodies(gone) * Bodies(new')|
                  && Pairing(pairs, gone, new') && |pairs| == c.renamed
                  && c.added == |new'| - c.renamed && c.removed == |gone| - c.renamed
                  && c.changed + c.added + c.removed == Reported(before, after))
            && (beforeSide.None? || afterSide.None? ==>
                  c.changed == 0 && c.renamed == 0 && c.added == |after| && c.removed == |before|)
  {
    var before, after := Side(beforeSide), Side(afterSide);
    pairs := map[];
    if beforeSide.None? || afterSide.None? {
      return Counts(|after|, 0, |after|, |before|, 0), pairs;
    }
    if before == map[] && after == map[] {
      assert before - after.Keys == map[] && after - before.Keys == map[] && ChangedNames(before, after) == {};
      return Counts(0, 0, 0, 0, 0), pairs;
    }
    var changed := |ChangedNames(before, after)|;
    var onlyBefore := SortedNames(before.Keys - after.Keys);
    var onlyAfter := SortedNames(after.Keys - before.Keys);
    var renamed;
    renamed, pairs := CountRenamed(before, after, onlyBefore, onlyAfter);
    LeftoverBodies(before, after, onlyBefore);
    LeftoverBodies(after, before, onlyAfter);
    hide Bodies, ChangedNames, Pairing;
    PairingOfLeftovers(pairs, before, after);
    IntersectionSize(Bodies(before - after.Keys), Bodies(after - before.Keys));
    c := Counts(|after|, changed, |after.Keys - before.Keys| - renamed, |before.Keys - after.Keys| - renamed, renamed);
  }

  lemma PairingOfLeftovers(pairs: map<string, string>, before: Kernels, after: Kernels)
    requires Pairing(pairs, before, after) && forall a :: a in pairs ==> a !in after && pairs[a] !in before
    ensures Pairing(pairs, before - after.Keys, after - before.Keys)
  {}
  lemma LeftoverBodies(mine: Kernels, theirs: Kernels, names: seq<string>)
    requires Distinct(names) && forall n :: n in names <==> n in mine.Keys - theirs.Keys
    ensures multiset(Lookup(mine, names)) == Bodies(mine - theirs.Keys)
    ensures |Bodies(mine - theirs.Keys)| == |mine - theirs.Keys| == |mine.Keys - theirs.Keys|
  {
    hide Bodies;
    var left := mine - theirs.Keys;
    assert left.Keys == mine.Keys - theirs.Keys;
    assert Lookup(mine, names) == Lookup(left, names);
    LookupBodies(left, names);
    BodiesSize(left);
  }

  lemma {:induction false} BodiesSize(m: Kernels)
    ensures |Bodies(m)| == |m|
    decreases |m|
  {
    if m != map[] {
      var k :| k in m;
      assert m.Keys == (m - {k}).Keys + {k};
      BodiesSize(m - {k});
      BodiesRemove(m, k);
    }
  }

  lemma SubSize(a: multiset<string>, b: multiset<string>)
    requires a <= b
    ensures |a| <= |b|
    ensures |a| == |b| ==> a == b
  {
    assert b == a + (b - a);
  }
  lemma IntersectionSize(a: multiset<string>, b: multiset<string>)
    ensures |a * b| <= |a| && |a * b| <= |b|
  {
    SubSize(a * b, a);
    SubSize(a * b, b);
  }

  /** No pairing of leftovers of equal body is larger than the one counted. */
  lemma {:induction false} RenamedIsMaximum(gone: Kernels, new': Kernels, pairs: map<string, string>)
    requires Pairing(pairs, gone, new')
    ensures |pairs| <= |Bodies(gone) * Bodies(new')|
    decreases |pairs|
  {
    if pairs != map[] {
      var a :| a in pairs;
      var b := pairs[a];
      assert |pairs - {a}| == |pairs| - 1;
      RenamedIsMaximum(gone - {a}, new' - {b}, pairs - {a});
      BodiesRemove(gone, a);
      BodiesRemove(new', b);
      hide Bodies;
      OneMoreCommon(Bodies(gone - {a}), Bodies(new' - {b}), gone[a]);
    }
  }
  lemma OneMoreCommon(a: multiset<string>, b: multiset<string>, x: string)
    ensures |(a + multiset{x}) * (b + multiset{x})| == |a * b| + 1
  {
    assert (a + multiset{x}) * (b + multiset{x}) == a * b + multiset{x};
  }

  /** The number of kernels the accounting reports as different. */
  ghost function Reported(before: Kernels, after: Kernels): int {
    var gone, new' := before - after.Keys, after - before.Keys;
    |ChangedNames(before, after)| + |new'| + |gone| - 2 * |Bodies(gone) * Bodies(new')|
  }

  /** Nothing is reported exactly when every shared name kept its body and the leftovers have equal multisets
  of bodies. */
  lemma NothingReported(before: Kernels, after: Kernels)
    ensures Reported(before, after) == 0
       <==> (forall n :: n in before && n in after ==> before[n] == after[n])
            && Bodies(before - after.Keys) == Bodies(after - before.Keys)
  {
    ChangedIsEmpty(before, after);
    hide Bodies, ChangedNames;
    var a, b := Bodies(before - after.Keys), Bodies(after - before.Keys);
    BodiesSize(before - after.Keys);
    BodiesSize(after - before.Keys);
    IntersectionSize(a, b);
    SubSize(a * b, a);
    SubSize(a * b, b);
    assert a == b ==> a * b == a;
  }
  lemma ChangedIsEmpty(before: Kernels, after: Kernels)
    ensures ChangedNames(before, after) == {} <==> forall n :: n in before && n in after ==> before[n] == after[n]
  {
    forall n | n in before && n in after && before[n] != after[n] ensures n in ChangedNames(before, after) {}
  }

  /** A build reports nothing against itself. */
  lemma SameBuildReportsNothing(m: Kernels)
    ensures Reported(m, m) == 0
  {
    NothingReported(m, m);
    assert m - m.Keys == map[];
  }

  /** The shared names are the changed ones and those that kept their body. */
  lemma SharedNamesSplit(before: Kernels, after: Kernels)
    ensures |ChangedNames(before, after)| + |set n | n in before && n in after && before[n] == after[n]|
         == |before.Keys * after.Keys|
  {
    var kept := set n | n in before && n in after && before[n] == after[n];
    assert ChangedNames(before, after) + kept == before.Keys * after.Keys;
  }

  /** The two builds then have equal multisets of bodies. */
  lemma NothingReportedSameBodies(before: Kernels, after: Kernels)
    requires Reported(before, after) == 0
    ensures Bodies(before) == Bodies(after)
  {
    NothingReported(before, after);
    hide Bodies, Reported;
    BodiesSplit(before, after.Keys);
    BodiesSplit(after, before.Keys);
    KeptAlike(before, after);
  }
  lemma KeptAlike(before: Kernels, after: Kernels)
    requires forall n :: n in before && n in after ==> before[n] == after[n]
    ensures before - (before.Keys - after.Keys) == after - (after.Keys - before.Keys)
  {
    var kept, kept' := before - (before.Keys - after.Keys), after - (after.Keys - before.Keys);
    forall n | n in kept ensures n in kept' && kept[n] == kept'[n] {}
  }

  // ------------------------------------------------------------------ whole builds

  /** One specialization: built on the sides its module exists on, or not built. */
  datatype Variant = Built(before: Option<Kernels>, after: Option<Kernels>) | Broken

  ghost function VariantReport(v: Variant): int {
    if v.Broken? then 0
    else if v.before.None? || v.after.None? then |Side(v.before)| + |Side(v.after)|
    else Reported(v.before.value, v.after.value)
  }
  ghost function PlanReport(variants: seq<Variant>): int {
    if variants == [] then 0 else PlanReport(variants[..|variants| - 1]) + VariantReport(variants[|variants| - 1])
  }
  ghost function TotalReport(plans: seq<seq<Variant>>): int {
    if plans == [] then 0 else TotalReport(plans[..|plans| - 1]) + PlanReport(plans[|plans| - 1])
  }

  /** The outer loops: per module, the counts of its built variants; over all modules, the total that decides
  the exit code. */
  method CompareBuilds(plans: seq<seq<Variant>>) returns (totalChanged: int)
    ensures totalChanged == TotalReport(plans)
  {
    hide Reported, Bodies, ChangedNames, Pairing;
    totalChanged := 0;
    for i := 0 to |plans|
      invariant totalChanged == TotalReport(plans[..i])
    {
      var changed, added, removed := 0, 0, 0;
      for j := 0 to |plans[i]|
        invariant changed + added + removed == PlanReport(plans[i][..j])
      {
        assert plans[i][..j + 1][..j] == plans[i][..j];
        if plans[i][j].Built? {
          var c, _ := CompareVariant(plans[i][j].before, plans[i][j].after);
          changed, added, removed := changed + c.changed, added + c.added, removed + c.removed;
        }
      }
      assert plans[i][..|plans[i]|] == plans[i];
      assert plans[..i + 1][..i] == plans[..i];
      totalChanged := totalChanged + changed + added + removed;
    }
    assert plans[..|plans|] == plans;
  }

  lemma ReportNonNegative(v: Variant)
    ensures VariantReport(v) >= 0
  {
    if v.Built? && v.before.Some? && v.after.Some? {
      var before, after := v.before.value, v.after.value;
      BodiesSize(before - after.Keys);
      BodiesSize(after - before.Keys);
      hide Bodies, ChangedNames;
      IntersectionSize(Bodies(before - after.Keys), Bodies(after - before.Keys));
    }
  }
  lemma {:induction false} PlanZero(variants: seq<Variant>)
    ensures PlanReport(variants) >= 0
    ensures PlanReport(variants) == 0 <==> forall v :: v in variants ==> VariantReport(v) == 0
  {
    hide VariantReport;
    if variants != [] {
      var init, last := variants[..|variants| - 1], variants[|variants| - 1];
      assert variants == init + [last];
      PlanZero(init);
      ReportNonNegative(last);
    }
  }
  lemma {:induction false} TotalZero(plans: seq<seq<Variant>>)
    ensures TotalReport(plans) >= 0
    ensures TotalReport(plans) == 0 <==> forall vs, v :: vs in plans && v in vs ==> VariantReport(v) == 0
  {
    hide VariantReport, PlanReport;
    if plans != [] {
      var init, last := plans[..|plans| - 1], plans[|plans| - 1];
      assert plans == init + [last];
      TotalZero(init);
      PlanZero(last);
    }
  }

  /** A total of zero is reported exactly when no variant of any module reports anything, and then every built
  variant, one-sided ones included, has equal multisets of bodies on its two sides. */
  lemma NothingReportedAnywhere(plans: seq<seq<Variant>>)
    ensures TotalReport(plans) == 0 <==> forall vs, v :: vs in plans && v in vs ==> VariantReport(v) == 0
    ensures TotalReport(plans) == 0 ==>
              forall vs, v :: vs in plans && v in vs && v.Built? ==> Bodies(Side(v.before)) == Bodies(Side(v.after))
  {
    hide TotalReport, Bodies;
    TotalZero(plans);
    if TotalReport(plans) == 0 {
      forall vs, v | vs in plans && v in vs && v.Built? ensures Bodies(Side(v.before)) == Bodies(Side(v.after)) {
        if v.before.Some? && v.after.Some? { NothingReportedSameBodies(v.before.value, v.after.value); }
      }
    }
  }

  /** The converse fails: two builds can hold the same bodies and still differ by name. */
  lemma SwappedBodiesAreReported()
    ensures var before: Kernels, after: Kernels := map["a" := "x", "b" := "y"], map["a" := "y", "b" := "x"];
            Bodies(before) == Bodies(after) && Reported(before, after) > 0
  {
    hide Bodies, Reported;
    var before: Kernels, after: Kernels := map["a" := "x", "b" := "y"], map["a" := "y", "b" := "x"];
    assert "a"[0] != "b"[0] && "x"[0] != "y"[0];
    NoBodies();
    BodiesAdd(map[], "a", "x");
    BodiesAdd(map["a" := "x"], "b", "y");
    BodiesAdd(map[], "a", "y");
    BodiesAdd(map["a" := "y"], "b", "x");
    assert map["a" := "x"]["b" := "y"] == before && map["a" := "y"]["b" := "x"] == after;
    assert "a" in ChangedNames(before, after);
    NothingReported(before, after);
    ReportNonNegative(Built(Some(before), Some(after)));
  }

  // ------------------------------------------------------------------ collecting

  /** The bodies filed under one name, in file order. */
  function Named(files: seq<Sidecar>, name: string): seq<string> {
    if files == [] then [] else
    var rest, f := Named(files[..|files| - 1], name), files[|files| - 1];
    if f.name == name then rest + [f.body] else rest
  }

  /** No lone kernel is named like a numbered one. */
  ghost predicate NamesApart(files: seq<Sidecar>) { forall a, i: nat :: NumberFree(files, a, i) }
  ghost predicate NumberFree(files: seq<Sidecar>, a: string, i: nat) {
    |Named(files, a)| >= 2 && i < |Named(files, a)| ==> |Named(files, Key(a, i + 1))| != 1
  }

  /** Names without `#` are enough. */
  lemma PlainNamesApart(files: seq<Sidecar>)
    requires forall i :: 0 <= i < |files| ==> NoHash(files[i].name)
    ensures NamesApart(files)
  {
    forall a, i: nat ensures NumberFree(files, a, i) {
      assert Key(a, i + 1)[|a|] == '#';
      if Named(files, Key(a, i + 1)) != [] { NamedHasNoHash(files, Key(a, i + 1)); }
    }
  }
  lemma {:induction false} NamedHasNoHash(files: seq<Sidecar>, name: string)
    requires (forall i :: 0 <= i < |files| ==> NoHash(files[i].name)) && Named(files, name) != []
    ensures NoHash(name)
  {
    if files[|files| - 1].name != name { NamedHasNoHash(files[..|files| - 1], name); }
  }

  /** The key and body of the `index`-th kernel of a name: a lone one keeps its name, namesakes are numbered
  from one in sorted-body order. */
  function SlotKey(name: string, bodies: seq<string>, i: nat): string { Key(name, if |bodies| == 1 then 0 else i + 1) }
  function SlotBody(bodies: seq<string>, i: nat): string
    requires i < |bodies|
  {
    SortPermutes(bodies, StringLe);
    Sort(bodies, StringLe)[i]
  }

  /** What `collect` returns for the files: exactly the numbered kernels of every name. */
  ghost predicate IsCollected(m: Kernels, files: seq<Sidecar>) {
    && (forall name, i :: 0 <= i < |Named(files, name)| ==>
          SlotKey(name, Named(files, name), i) in m && m[SlotKey(name, Named(files, name), i)] == SlotBody(Named(files, name), i))
    && (forall k :: k in m ==> exists name, i :: 0 <= i < |Named(files, name)| && k == SlotKey(name, Named(files, name), i))
  }

  lemma {:induction false} NamedPermutes(a: seq<Sidecar>, name: string)
    ensures multiset(Named(a, name)) == ByName(multiset(a), name)
  {
    if a == [] {
      NoneByName(name);
    } else {
      var init, f := a[..|a| - 1], a[|a| - 1];
      assert a == init + [f];
      NamedPermutes(init, name);
      OneMoreByName(multiset(init), f, name);
    }
  }

  /** The bodies of one name in a multiset of files. */
  ghost function ByName(files: multiset<Sidecar>, name: string): multiset<string> {
    if files == multiset{} then multiset{} else
    var f :| f in files;
    ByName(files - multiset{f}, name) + Filed(f, name)
  }
  function Filed(f: Sidecar, name: string): multiset<string> { if f.name == name then multiset{f.body} else multiset{} }
  lemma NoneByName(name: string)
    ensures ByName(multiset{}, name) == multiset{}
  {}
  lemma TakeTwo(files: multiset<Sidecar>, f: Sidecar, g: Sidecar)
    ensures files - multiset{g} - multiset{f} == files - multiset{f} - multiset{g}
  {}
  lemma {:induction false} ByNameRemove(files: multiset<Sidecar>, f: Sidecar, name: string)
    requires f in files
    ensures ByName(files, name) == ByName(files - multiset{f}, name) + Filed(f, name)
  {
    var other :| other in files && ByName(files, name) == ByName(files - multiset{other}, name) + Filed(other, name);
    hide ByName, Filed;
    if other != f {
      ByNameRemove(files - multiset{other}, f, name);
      ByNameRemove(files - multiset{f}, other, name);
      TakeTwo(files, f, other);
    }
  }
  lemma OneMoreByName(files: multiset<Sidecar>, f: Sidecar, name: string)
    ensures ByName(files + multiset{f}, name) == ByName(files, name) + Filed(f, name)
  {
    hide ByName;
    ByNameRemove(files + multiset{f}, f, name);
    assert files + multiset{f} - multiset{f} == files;
  }

  /** Numbering in sorted-body order does not depend on the order of the files. */
  lemma SortedBodiesAlike(a: seq<string>, b: seq<string>)
    requires multiset(a) == multiset(b)
    ensures Sort(a, StringLe) == Sort(b, StringLe) && |a| == |b|
  {
    StringLeIsTotalOrder();
    SortSorts(a, StringLe);
    SortSorts(b, StringLe);
    SortPermutes(a, StringLe);
    SortPermutes(b, StringLe);
    SortedUnique(Sort(a, StringLe), Sort(b, StringLe), StringLe);
  }

  lemma CollectedOrderFree(a: seq<Sidecar>, b: seq<Sidecar>, m: Kernels, n: Kernels)
    requires multiset(a) == multiset(b) && IsCollected(m, a) && IsCollected(n, b)
    ensures m == n
  {
    hide IsCollected;
    forall k | k in m ensures k in n && m[k] == n[k] { CollectedEntry(a, b, m, n, k); }
    forall k | k in n ensures k in m { CollectedEntry(b, a, n, m, k); }
  }
  lemma ApartOrderFree(a: seq<Sidecar>, b: seq<Sidecar>)
    requires multiset(a) == multiset(b) && NamesApart(a)
    ensures NamesApart(b)
  {
    forall name, i: nat ensures NumberFree(b, name, i) {
      assert NumberFree(a, name, i);
      SameCount(a, b, name);
      SameCount(a, b, Key(name, i + 1));
    }
  }
  lemma SameCount(a: seq<Sidecar>, b: seq<Sidecar>, name: string)
    requires multiset(a) == multiset(b)
    ensures |Named(a, name)| == |Named(b, name)|
  {
    NamedPermutes(a, name);
    NamedPermutes(b, name);
    assert |multiset(Named(a, name))| == |multiset(Named(b, name))|;
  }
  lemma CollectedEntry(a: seq<Sidecar>, b: seq<Sidecar>, m: Kernels, n: Kernels, k: string)
    requires multiset(a) == multiset(b) && IsCollected(m, a) && IsCollected(n, b) && k in m
    ensures k in n && m[k] == n[k]
  {
    var name, i :| 0 <= i < |Named(a, name)| && k == SlotKey(name, Named(a, name), i);
    NamedPermutes(a, name);
    NamedPermutes(b, name);
    SortedBodiesAlike(Named(a, name), Named(b, name));
    assert SlotKey(name, Named(b, name), i) in n;
  }

  // the grouping loop

  /** `order` lists the names met, each once, and `groups` their bodies in file order. */
  ghost predicate Grouped(files: seq<Sidecar>, order: seq<string>, groups: map<string, seq<string>>) {
    && Distinct(order)
    && (forall n :: n in order <==> n in groups)
    && (forall n :: Named(files, n) == if n in groups then groups[n] else [])
    && (forall n :: n in groups ==> groups[n] != [])
  }

  method GroupByName(files: seq<Sidecar>) returns (order: seq<string>, groups: map<string, seq<string>>)
    ensures Grouped(files, order, groups)
  {
    order, groups := [], map[];
    for i := 0 to |files|
      invariant Grouped(files[..i], order, groups)
    {
      var f := files[i];
      assert files[..i + 1][..i] == files[..i];
      if f.name !in groups {
        order := order + [f.name];
        groups := groups[f.name := []];
      }
      groups := groups[f.name := groups[f.name] + [f.body]];
    }
    assert files[..|files|] == files;
  }

  // the numbering loop

  ghost predicate IsSlot(k: string, files: seq<Sidecar>, name: string, upTo: nat) {
    exists i: nat :: i < |Named(files, name)| && i < upTo && k == SlotKey(name, Named(files, name), i)
  }

  ghost predicate SlotOfSome(k: string, files: seq<Sidecar>, names: seq<string>) {
    exists n :: n in names && FullSlot(k, files, n)
  }
  ghost predicate FullSlot(k: string, files: seq<Sidecar>, n: string) { IsSlot(k, files, n, |Named(files, n)|) }

  /** The map holds the slots of the finished names and the first `upTo` slots of `name`, and nothing else. */
  ghost predicate Filled(m: Kernels, files: seq<Sidecar>, finished: seq<string>, name: string, upTo: nat) {
    && (forall n, i: nat :: n in finished && i < |Named(files, n)| ==> Holds(m, files, n, i))
    && FirstSlots(m, files, name, upTo)
    && (forall k :: k in m ==> IsSlot(k, files, name, upTo) || SlotOfSome(k, files, finished))
  }
  ghost predicate FirstSlots(m: Kernels, files: seq<Sidecar>, name: string, upTo: nat) {
    forall i: nat :: i < upTo && i < |Named(files, name)| ==> Holds(m, files, name, i)
  }
  lemma NoSlots(m: Kernels, files: seq<Sidecar>, name: string)
    ensures FirstSlots(m, files, name, 0)
  {}
  ghost predicate Holds(m: Kernels, files: seq<Sidecar>, n: string, i: nat)
    requires i < |Named(files, n)|
  {
    SlotKey(n, Named(files, n), i) in m && m[SlotKey(n, Named(files, n), i)] == SlotBody(Named(files, n), i)
  }

  lemma SlotsApart(files: seq<Sidecar>, a: string, i: nat, b: string, j: nat)
    requires NamesApart(files) && i < |Named(files, a)| && j < |Named(files, b)|
    requires SlotKey(a, Named(files, a), i) == SlotKey(b, Named(files, b), j)
    ensures a == b && i == j
  {
    hide Named;
    assert NumberFree(files, a, i) && NumberFree(files, b, j);
    if |Named(files, a)| != 1 && |Named(files, b)| != 1 { NumberedKeyInjective(a, i + 1, b, j + 1); }
  }

  lemma FillSlot(m: Kernels, files: seq<Sidecar>, finished: seq<string>, name: string, i: nat)
    requires NamesApart(files) && name !in finished && i < |Named(files, name)| && Filled(m, files, finished, name, i)
    ensures SlotKey(name, Named(files, name), i) !in m
    ensures Filled(m[SlotKey(name, Named(files, name), i) := SlotBody(Named(files, name), i)], files, finished, name, i + 1)
  {
    hide SlotKey, SlotBody;
    var key := SlotKey(name, Named(files, name), i);
    var after := m[key := SlotBody(Named(files, name), i)];
    if key in m {
      if j: nat :| j < |Named(files, name)| && j < i && key == SlotKey(name, Named(files, name), j) {
        SlotsApart(files, name, i, name, j);
      } else {
        var n :| n in finished && FullSlot(key, files, n);
        var j: nat :| j < |Named(files, n)| && key == SlotKey(n, Named(files, n), j);
        SlotsApart(files, name, i, n, j);
      }
    }
    forall k | k in after
      ensures IsSlot(k, files, name, i + 1) || SlotOfSome(k, files, finished)
    {
      if k != key && IsSlot(k, files, name, i) {
        var j: nat :| j < |Named(files, name)| && j < i && k == SlotKey(name, Named(files, name), j);
      }
    }
    forall n, j: nat | n in finished && j < |Named(files, n)| ensures Holds(after, files, n, j) {
      assert Holds(m, files, n, j);
    }
    forall j: nat | j < i + 1 && j < |Named(files, name)| ensures Holds(after, files, name, j) {
      if j < i { assert Holds(m, files, name, j); }
    }
    assert FirstSlots(after, files, name, i + 1);
  }

  lemma CloseName(m: Kernels, files: seq<Sidecar>, finished: seq<string>, name: string, next: string)
    requires Filled(m, files, finished, name, |Named(files, name)|)
    ensures Filled(m, files, finished + [name], next, 0)
  {
    hide SlotKey, SlotBody;
    NoSlots(m, files, next);
    var longer := finished + [name];
    forall n, i: nat | n in longer && i < |Named(files, n)| ensures Holds(m, files, n, i) {
      if n !in finished { assert n == name; }
    }
    forall k | k in m ensures SlotOfSome(k, files, longer) {
      if IsSlot(k, files, name, |Named(files, name)|) {
        assert name in longer && FullSlot(k, files, name);
      } else {
        var n :| n in finished && FullSlot(k, files, n);
        assert n in longer;
      }
    }
    assert forall n, i: nat :: n in longer && i < |Named(files, n)| ==> Holds(m, files, n, i);
    assert (forall k :: k in m ==> IsSlot(k, files, next, 0) || SlotOfSome(k, files, longer));
  }

  /** The bodies of the listed names. */
  ghost function BodiesOf(files: seq<Sidecar>, names: seq<string>): multiset<string> {
    if names == [] then multiset{} else BodiesOf(files, names[..|names| - 1]) + multiset(Named(files, names[|names| - 1]))
  }
  function AllBodies(files: seq<Sidecar>): seq<string> { seq(|files|, i requires 0 <= i < |files| => files[i].body) }

  lemma {:induction false} BodiesOfStep(files: seq<Sidecar>, f: Sidecar, names: seq<string>)
    requires Distinct(names)
    ensures BodiesOf(files + [f], names) == BodiesOf(files, names) + (if f.name in names then multiset{f.body} else multiset{})
  {
    if names != [] {
      var init, last := names[..|names| - 1], names[|names| - 1];
      assert names == init + [last];
      BodiesOfStep(files, f, init);
      assert (files + [f])[..|files|] == files;
    }
  }
  lemma {:induction false} BodiesOfNothing(names: seq<string>)
    ensures BodiesOf([], names) == multiset{}
  {
    if names != [] { BodiesOfNothing(names[..|names| - 1]); }
  }
  lemma {:induction false} BodiesOfAll(files: seq<Sidecar>, names: seq<string>)
    requires Distinct(names) && forall i :: 0 <= i < |files| ==> files[i].name in names
    ensures BodiesOf(files, names) == multiset(AllBodies(files))
  {
    if files == [] {
      BodiesOfNothing(names);
    } else {
      var init, f := files[..|files| - 1], files[|files| - 1];
      assert files == init + [f];
      BodiesOfAll(init, names);
      BodiesOfStep(init, f, names);
      assert AllBodies(files) == AllBodies(init) + [f.body];
    }
  }

  lemma {:induction false} EveryNameFiled(files: seq<Sidecar>, i: nat)
    requires i < |files|
    ensures Named(files, files[i].name) != []
  {
    if i < |files| - 1 { EveryNameFiled(files[..|files| - 1], i); }
  }

  lemma SlotOf(bodies: seq<string>, name: string, i: nat)
    requires i < |bodies|
    ensures i < |Sort(bodies, StringLe)| && SlotBody(bodies, i) == Sort(bodies, StringLe)[i]
    ensures |bodies| == 1 ==> SlotKey(name, bodies, i) == name && SlotBody(bodies, i) == bodies[0]
    ensures |bodies| != 1 ==> SlotKey(name, bodies, i) == Key(name, i + 1)
  {
    SortPermutes(bodies, StringLe);
    if |bodies| == 1 {
      assert bodies == [bodies[0]];
      assert Sort(bodies, StringLe)[0] in multiset(bodies);
    }
  }

  /** One numbered kernel more. */
  lemma NumberStep(files: seq<Sidecar>, finished: seq<string>, name: string, kernels: Kernels, before: Kernels, i: nat)
    requires NamesApart(files) && name !in finished && i < |Named(files, name)| && i < |Sort(Named(files, name), StringLe)|
    requires Filled(kernels, files, finished, name, i)
    requires Bodies(kernels) == Bodies(before) + multiset(Sort(Named(files, name), StringLe)[..i])
    ensures var sorted := Sort(Named(files, name), StringLe);
            var after := kernels[SlotKey(name, Named(files, name), i) := sorted[i]];
            Filled(after, files, finished, name, i + 1) && Bodies(after) == Bodies(before) + multiset(sorted[..i + 1])
  {
    hide Filled, Bodies, Named, NamesApart, SlotKey, SlotBody, Sort;
    var sorted := Sort(Named(files, name), StringLe);
    FillSlot(kernels, files, finished, name, i);
    SlotOf(Named(files, name), name, i);
    BodiesAdd(kernels, SlotKey(name, Named(files, name), i), sorted[i]);
    assert sorted[..i + 1] == sorted[..i] + [sorted[i]];
  }

  /** The keys of one name, whatever else is filed. */
  function FirstKeys(name: string, bodies: seq<string>, n: nat): set<string> { set i: nat | i < n :: SlotKey(name, bodies, i) }
  function SlotKeys(name: string, bodies: seq<string>): set<string> { FirstKeys(name, bodies, |bodies|) }
  lemma LoneKey(name: string, bodies: seq<string>)
    requires |bodies| == 1
    ensures SlotKeys(name, bodies) == {name}
  {
    SlotOf(bodies, name, 0);
  }
  lemma NextKey(name: string, bodies: seq<string>, n: nat)
    ensures FirstKeys(name, bodies, n + 1) == FirstKeys(name, bodies, n) + {SlotKey(name, bodies, n)}
  {}
  lemma {:induction false} KeysAtMost(name: string, bodies: seq<string>, n: nat)
    ensures |FirstKeys(name, bodies, n)| <= n
  {
    if n > 0 {
      KeysAtMost(name, bodies, n - 1);
      NextKey(name, bodies, n - 1);
    } else {
      assert FirstKeys(name, bodies, 0) == {};
    }
  }
  ghost function KeysOf(files: seq<Sidecar>, names: seq<string>): set<string> {
    if names == [] then {} else
    KeysOf(files, names[..|names| - 1]) + SlotKeys(names[|names| - 1], Named(files, names[|names| - 1]))
  }
  lemma {:induction false} KeyListed(files: seq<Sidecar>, names: seq<string>, a: string, i: nat)
    requires a in names && i < |Named(files, a)|
    ensures SlotKey(a, Named(files, a), i) in KeysOf(files, names)
  {
    hide SlotKey, Named;
    if names[|names| - 1] != a { KeyListed(files, names[..|names| - 1], a, i); }
  }
  lemma Overlap(s: set<string>, t: set<string>, x: string)
    ensures |s + t| <= |s| + |t|
    ensures x in s && x in t ==> |s + t| < |s| + |t|
  {
    assert |s + t| + |s * t| == |s| + |t|;
    if x in s && x in t { assert x in s * t; }
  }
  /** A lone name that is also the key of a numbered namesake costs a kernel. */
  lemma {:induction false} KeysLost(files: seq<Sidecar>, names: seq<string>, a: string, i: nat)
    requires Distinct(names) && i < |Named(files, a)| && !NumberFree(files, a, i)
    ensures |KeysOf(files, names)| + (if a in names && Key(a, i + 1) in names then 1 else 0) <= |BodiesOf(files, names)|
  {
    hide Named, FirstKeys;
    var lone := Key(a, i + 1);
    if names != [] {
      var init, last := names[..|names| - 1], names[|names| - 1];
      assert names == init + [last];
      KeysLost(files, init, a, i);
      KeysAtMost(last, Named(files, last), |Named(files, last)|);
      LoneKey(lone, Named(files, lone));
      assert lone == SlotKey(a, Named(files, a), i);
      if a in init { KeyListed(files, init, a, i); }
      if lone in init { KeyListed(files, init, lone, 0); }
      KeyListed(files, [a], a, i);
      assert KeysOf(files, []) == {} && [a][..0] == [];
      Overlap(KeysOf(files, init), SlotKeys(last, Named(files, last)), lone);
    }
  }

  /** The numbering of one name, appended to `kernels`. */
  method NumberBodies(files: seq<Sidecar>, finished: seq<string>, name: string, bodies: seq<string>, before: Kernels)
    returns (kernels: Kernels)
    requires bodies == Named(files, name) != [] && name !in finished
    ensures kernels.Keys == before.Keys + SlotKeys(name, bodies)
    ensures NamesApart(files) && Filled(before, files, finished, name, 0) ==>
              Filled(kernels, files, finished, name, |bodies|) && Bodies(kernels) == Bodies(before) + multiset(bodies)
  {
    hide Filled, Bodies, Named, NamesApart, SlotKey, SlotBody, Sort;
    ghost var sound := NamesApart(files) && Filled(before, files, finished, name, 0);
    kernels := before;
    SortPermutes(bodies, StringLe);
    var sorted := Sort(bodies, StringLe);
    assert sorted[..0] == [] && sorted[..|sorted|] == sorted;
    if |bodies| == 1 {
      SlotOf(bodies, name, 0);
      if sound { NumberStep(files, finished, name, kernels, before, 0); }
      kernels := kernels[name := bodies[0]];
      LoneKey(name, bodies);
      return;
    }
    for index := 0 to |sorted|
      invariant kernels.Keys == before.Keys + FirstKeys(name, bodies, index)
      invariant sound ==> Filled(kernels, files, finished, name, index)
      invariant sound ==> Bodies(kernels) == Bodies(before) + multiset(sorted[..index])
    {
      SlotOf(bodies, name, index);
      if sound { NumberStep(files, finished, name, kernels, before, index); }
      kernels := kernels[Key(name, index + 1) := sorted[index]];
      NextKey(name, bodies, index);
    }
  }

  /** What the numbering loop keeps after the first `m` names. */
  ghost predicate Numbered(kernels: Kernels, files: seq<Sidecar>, finished: seq<string>) {
    Bodies(kernels) == BodiesOf(files, finished) && forall next :: Filled(kernels, files, finished, next, 0)
  }

  lemma NumberedStep(files: seq<Sidecar>, finished: seq<string>, name: string, before: Kernels, kernels: Kernels)
    requires Numbered(before, files, finished)
    requires Filled(kernels, files, finished, name, |Named(files, name)|)
    requires Bodies(kernels) == Bodies(before) + multiset(Named(files, name))
    ensures Numbered(kernels, files, finished + [name])
  {
    hide Filled, Bodies, Named;
    var longer := finished + [name];
    assert longer[..|longer| - 1] == finished;
    forall next ensures Filled(kernels, files, longer, next, 0) { CloseName(kernels, files, finished, name, next); }
  }

  lemma GroupFacts(files: seq<Sidecar>, order: seq<string>, groups: map<string, seq<string>>, m: nat)
    requires Grouped(files, order, groups) && m < |order|
    ensures order[m] in groups && groups[order[m]] == Named(files, order[m]) != [] && order[m] !in order[..m]
  {}

  lemma NothingNumbered(files: seq<Sidecar>)
    ensures Numbered(map[], files, [])
  {}

  /** `collect`: every file becomes one kernel, numbered canonically, exactly when no lone kernel is named like a
  numbered one; otherwise a kernel is lost. */
  method Collect(files: seq<Sidecar>) returns (kernels: Kernels)
    ensures NamesApart(files) ==> IsCollected(kernels, files) && Bodies(kernels) == multiset(AllBodies(files))
    ensures !NamesApart(files) ==> |kernels| < |files|
  {
    hide Filled, Bodies, Named, NamesApart, Grouped, Numbered, IsCollected, FirstKeys;
    var order, groups := GroupByName(files);
    kernels := map[];
    NothingNumbered(files);
    for m := 0 to |order|
      invariant kernels.Keys == KeysOf(files, order[..m])
      invariant NamesApart(files) ==> Numbered(kernels, files, order[..m])
    {
      GroupFacts(files, order, groups, m);
      var name, before := order[m], kernels;
      kernels := NumberBodies(files, order[..m], name, groups[name], before);
      assert order[..m + 1] == order[..m] + [name];
      if NamesApart(files) {
        StillFillable(before, files, order[..m], name);
        NumberedStep(files, order[..m], name, before, kernels);
      }
    }
    assert order[..|order|] == order;
    if NamesApart(files) { FinishCollect(kernels, files, order, groups); } else { LossCounted(kernels, files, order, groups); }
  }

  lemma AllListed(files: seq<Sidecar>, order: seq<string>, groups: map<string, seq<string>>)
    requires Grouped(files, order, groups)
    ensures Distinct(order) && BodiesOf(files, order) == multiset(AllBodies(files))
    ensures forall n :: Named(files, n) != [] ==> n in order
  {
    forall i | 0 <= i < |files| ensures files[i].name in order { EveryNameFiled(files, i); }
    BodiesOfAll(files, order);
  }
  lemma LossCounted(m: Kernels, files: seq<Sidecar>, order: seq<string>, groups: map<string, seq<string>>)
    requires Grouped(files, order, groups) && !NamesApart(files) && m.Keys == KeysOf(files, order)
    ensures |m| < |files|
  {
    var a, i: nat :| !NumberFree(files, a, i);
    hide KeysOf, BodiesOf;
    AllListed(files, order, groups);
    KeysLost(files, order, a, i);
    assert |m| == |m.Keys|;
  }

  lemma StillFillable(kernels: Kernels, files: seq<Sidecar>, finished: seq<string>, name: string)
    requires Numbered(kernels, files, finished)
    ensures Filled(kernels, files, finished, name, 0)
  {}

  lemma FinishCollect(m: Kernels, files: seq<Sidecar>, order: seq<string>, groups: map<string, seq<string>>)
    requires Grouped(files, order, groups) && Numbered(m, files, order)
    ensures IsCollected(m, files) && Bodies(m) == multiset(AllBodies(files))
  {
    hide Bodies, Named, SlotKey, SlotBody, BodiesOf;
    StillFillable(m, files, order, "");
    AllListed(files, order, groups);
    forall name, i | 0 <= i < |Named(files, name)|
      ensures SlotKey(name, Named(files, name), i) in m && m[SlotKey(name, Named(files, name), i)] == SlotBody(Named(files, name), i)
    {
      assert name in order;
      assert Holds(m, files, name, i);
    }
    forall k | k in m ensures exists name, i :: 0 <= i < |Named(files, name)| && k == SlotKey(name, Named(files, name), i) {
      assert !IsSlot(k, files, "", 0);
      var n :| n in order && FullSlot(k, files, n);
      var i: nat :| i < |Named(files, n)| && k == SlotKey(n, Named(files, n), i);
    }
  }

  /** Two kernels needing one key: no map holds them all. */
  lemma HashedNamesCollide(m: Kernels)
    ensures !IsCollected(m, [Sidecar("k", "x"), Sidecar("k", "y"), Sidecar("k#1", "z")])
  {
    hide Named, Sort, StringLe, SlotKey, SlotBody;
    var files := [Sidecar("k", "x"), Sidecar("k", "y"), Sidecar("k#1", "z")];
    assert |"k"| == 1 && |"k#1"| == 3;
    NamedOfThree(files[0], files[1], files[2]);
    SharedSlot();
    assert Named(files, "k") == ["x", "y"] && Named(files, "k#1") == ["z"];
  }
  lemma NamedOfThree(f: Sidecar, g: Sidecar, h: Sidecar)
    requires f.name == g.name != h.name
    ensures Named([f, g, h], f.name) == [f.body, g.body] && Named([f, g, h], h.name) == [h.body]
  {
    NamedOf([], f, f.name);
    NamedOf([f], g, f.name);
    NamedOf([f, g], h, f.name);
    NamedOf([], f, h.name);
    NamedOf([f], g, h.name);
    NamedOf([f, g], h, h.name);
    assert [] + [f] == [f] && [f] + [g] == [f, g] && [f, g] + [h] == [f, g, h];
  }
  lemma NamedOf(files: seq<Sidecar>, f: Sidecar, name: string)
    ensures Named(files + [f], name) == if f.name == name then Named(files, name) + [f.body] else Named(files, name)
  {}
  lemma SharedSlot()
    ensures SlotKey("k", ["x", "y"], 0) == SlotKey("k#1", ["z"], 0)
    ensures SlotBody(["x", "y"], 0) != SlotBody(["z"], 0)
  {}
}
