/** From a written archive to a written archive: patching the bytes of a file is rewriting the one reference in what
was written. The archive's meaning is stated on the written objects, apart from the reader and its searches. */
module PlistArchive {
  import opened Outcomes
  import opened Sums
  import opened PlistReader
  import opened PlistPatch
  import opened PlistFraming
  import opened PlistWriter

  // ------------------------------------------------------------------ what a file says

  /** Every written file is well formed. */
  lemma FileWellFormed(a: Archive)
    requires ArchiveFits(a)
    ensures WellFormed(Parsed(a))
  {
    var p := Parsed(a);
    FileParses(a);
    ParsedFields(a, p);
    FileEnds(a);
    hide *;
    forall i: nat | i < |p.offsets| ensures InBody(p, i) { ObjectInBody(a, p, i); }
    forall i: nat, j: nat | i < |p.offsets| && j < |p.offsets| && i != j ensures ExtentsApart(p, i, j) {
      ObjectsApart(a, p, i, j);
    }
    WellFormedOf(p);
  }
  lemma WellFormedOf(p: RawBPlist)
    requires Parse(p.data) == Success(p) && TableEnd(p) + 32 <= |p.data| && p.numObjects <= Pow256(p.refSize)
    requires forall i: nat :: i < |p.offsets| ==> InBody(p, i)
    requires forall i: nat, j: nat :: i < |p.offsets| && j < |p.offsets| && i != j ==> ExtentsApart(p, i, j)
    ensures WellFormed(p)
  {
    hide Parse, InBody, ExtentsApart, Pow256, TableEnd;
  }
  lemma FileEnds(a: Archive)
    requires ArchiveFits(a)
    ensures TableEnd(Parsed(a)) + 32 == |File(a)| && |a.nodes| <= Pow256(a.refSize)
  {
    FileParts(a);
    ParsedFields(a, Parsed(a));
    hide File, Body, Tail, At, Pow256, Parsed, OffsetsOf, Writable;
  }
  lemma Enclosed(a: Archive, p: RawBPlist, i: nat)
    requires ArchiveFits(a) && p == Parsed(a) && i < |a.nodes|
    ensures i < |p.offsets| && AllWritable(a.nodes, a.refSize)
    ensures 8 <= p.offsets[i] == OffsetOf(a.nodes, a.refSize, i) && End(p, i) <= OffsetOf(a.nodes, a.refSize, i + 1)
  {
    ParsedFields(a, p);
    FileObjects(a, i);
    hide ArchiveFits, Parsed, File, Body, ExtentEnd, ObjectInfo, Writable, OffsetOf;
  }
  lemma ObjectInBody(a: Archive, p: RawBPlist, i: nat)
    requires ArchiveFits(a) && p == Parsed(a) && i < |p.offsets|
    ensures InBody(p, i)
  {
    ParsedFields(a, p);
    FileEnds(a);
    hide ArchiveFits, Parsed, File, ExtentEnd, Writable, OffsetOf, AllWritable, Body;
    Enclosed(a, p, i);
    OffsetsGrow(a.nodes, a.refSize, i + 1, |a.nodes|);
    LastOffset(a.nodes, a.refSize);
  }
  lemma LastOffset(nodes: seq<Node>, refSize: nat)
    requires AllWritable(nodes, refSize)
    ensures OffsetOf(nodes, refSize, |nodes|) == 8 + |Body(nodes, refSize)|
  {
    assert nodes[..|nodes|] == nodes;
  }
  lemma ObjectsApart(a: Archive, p: RawBPlist, i: nat, j: nat)
    requires ArchiveFits(a) && p == Parsed(a) && i < |p.offsets| && j < |p.offsets| && i != j
    ensures ExtentsApart(p, i, j)
  {
    hide *;
    ParsedFields(a, p);
    Enclosed(a, p, i);
    Enclosed(a, p, j);
    if i < j { OffsetsGrow(a.nodes, a.refSize, i + 1, j); } else { OffsetsGrow(a.nodes, a.refSize, j + 1, i); }
    ApartOf(p, i, j);
  }
  lemma ApartOf(p: RawBPlist, i: nat, j: nat)
    requires i < |p.offsets| && j < |p.offsets| && (End(p, i) <= p.offsets[j] || End(p, j) <= p.offsets[i])
    ensures ExtentsApart(p, i, j)
  {
    hide End;
  }
  lemma OffsetStep(nodes: seq<Node>, refSize: nat, i: nat)
    requires AllWritable(nodes, refSize) && i < |nodes|
    ensures OffsetOf(nodes, refSize, i + 1) == OffsetOf(nodes, refSize, i) + |Written(nodes[i], refSize)|
  {
    hide Body, At, Written, Writable;
    BodyHolds(nodes, refSize, i);
  }
  lemma {:induction false} OffsetsGrow(nodes: seq<Node>, refSize: nat, i: nat, j: nat)
    requires AllWritable(nodes, refSize) && i <= j <= |nodes|
    ensures OffsetOf(nodes, refSize, i) <= OffsetOf(nodes, refSize, j)
    decreases j
  {
    hide OffsetOf, Written, Writable;
    if i < j {
      OffsetsGrow(nodes, refSize, i, j - 1);
      OffsetStep(nodes, refSize, j - 1);
    }
  }

  /** `p` reads every object of `nodes` as it was meant. */
  ghost predicate Reads(p: RawBPlist, nodes: seq<Node>) {
    && |p.offsets| == |nodes| == p.numObjects
    && forall i :: 0 <= i < |nodes| ==> ObjectInfo(p, i) == Success(Meant(nodes[i], p.offsets[i]))
  }
  lemma FileReads(a: Archive)
    requires ArchiveFits(a)
    ensures Reads(Parsed(a), a.nodes)
  {
    var p := Parsed(a);
    ParsedFields(a, p);
    hide ArchiveFits, Parsed, ObjectInfo, File, Body, Writable;
    forall i: nat | i < |a.nodes| ensures ObjectInfo(p, i) == Success(Meant(a.nodes[i], p.offsets[i])) {
      FileObjects(a, i);
    }
  }

  // ------------------------------------------------------- an archive's meaning, on its objects

  function ValueOfNode(n: Node): Option<Value> {
    match n
    case BoolNode(b) => Some(BoolValue(b))
    case IntNode(number, _) => Some(IntValue(number))
    case AsciiNode(chars, _) => Some(TextValue(chars))
    case Utf16Node(chars, _) => Some(TextValue(chars))
    case UidNode(slot, _) => Some(IntValue(slot))
    case _ => None
  }

  ghost predicate Inside(refs: seq<nat>, count: nat) { forall i :: 0 <= i < |refs| ==> refs[i] < count }
  /** Every reference names an object and every uid an entry of the objects array. */
  ghost predicate Closed(nodes: seq<Node>, list: seq<nat>) {
    && Inside(list, |nodes|)
    && forall i :: 0 <= i < |nodes| ==> NodeClosed(nodes[i], |nodes|, |list|)
  }
  ghost predicate NodeClosed(n: Node, count: nat, entries: nat) {
    && (n.ArrayNode? ==> Inside(n.refs, count))
    && (n.DictNode? ==> |n.keys| == |n.vals| && Inside(n.keys, count) && Inside(n.vals, count))
    && (n.UidNode? ==> n.slot < entries)
  }

  /** A uid stands for the entry of the objects array that it names. */
  function Hop(nodes: seq<Node>, list: seq<nat>, ref: nat): Node
    requires ref < |nodes|
  {
    if nodes[ref].UidNode? && nodes[ref].slot < |list| && list[nodes[ref].slot] < |nodes|
    then nodes[list[nodes[ref].slot]] else nodes[ref]
  }
  function Names(nodes: seq<Node>, refs: seq<nat>): seq<Option<Value>> {
    seq(|refs|, i requires 0 <= i < |refs| => if refs[i] < |nodes| then ValueOfNode(nodes[refs[i]]) else None)
  }
  function HopNames(nodes: seq<Node>, list: seq<nat>, refs: seq<nat>): seq<Option<Value>> {
    seq(|refs|, i requires 0 <= i < |refs| => if refs[i] < |nodes| then ValueOfNode(Hop(nodes, list, refs[i])) else None)
  }
  ghost predicate First<T(!new)>(s: seq<T>, x: T, i: nat) {
    i < |s| && s[i] == x && forall j :: 0 <= j < i ==> s[j] != x
  }

  /** A dictionary whose NS.keys array `keys` holds the setting's name first at `slot`, and whose NS.objects
  reference is `values`. */
  ghost predicate IsSettings(nodes: seq<Node>, list: seq<nat>, d: Node, keys: nat, values: nat, slot: nat) {
    && d.DictNode? && |d.keys| == |d.vals|
    && (exists i: nat :: First(Names(nodes, d.keys), Text("NS.keys"), i) && d.vals[i] == keys)
    && (exists j: nat :: First(Names(nodes, d.keys), Text("NS.objects"), j) && d.vals[j] == values)
    && keys < |nodes| && nodes[keys].ArrayNode?
    && First(HopNames(nodes, list, nodes[keys].refs), Text("gpuperformancestate"), slot)
  }
  ghost predicate NotSettings(nodes: seq<Node>, list: seq<nat>, d: Node) {
    forall keys: nat, values: nat, slot: nat :: !IsSettings(nodes, list, d, keys, values, slot)
  }

  /** Where things are: the objects array, the settings dictionary's entry in it, its two arrays and the slot, the
  logical entry of the target integer, and the uid object that wraps it. */
  datatype Layout = Layout(objects: nat, dict: nat, keys: nat, values: nat, slot: nat, logical: nat, wrapper: nat)

  predicate HoldsInt(n: Node, target: int) { n.IntNode? && n.number == target }
  predicate Wraps(n: Node, logical: nat) { n.UidNode? && n.slot == logical }

  ghost predicate Reached(a: Archive, objects: nat) {
    && a.top < |a.nodes| && a.nodes[a.top].DictNode? && |a.nodes[a.top].keys| == |a.nodes[a.top].vals|
    && (exists i: nat :: First(Names(a.nodes, a.nodes[a.top].keys), Text("$objects"), i) && a.nodes[a.top].vals[i] == objects)
    && objects < |a.nodes| && a.nodes[objects].ArrayNode?
  }
  ghost predicate IsLayout(a: Archive, target: int, l: Layout) {
    Reached(a, l.objects) && LaidOut(a.nodes, a.nodes[l.objects].refs, target, l)
  }
  ghost predicate LaidOut(nodes: seq<Node>, list: seq<nat>, target: int, l: Layout) {
    && Closed(nodes, list)
    && l.dict < |list| && IsSettings(nodes, list, nodes[list[l.dict]], l.keys, l.values, l.slot)
    && (forall e :: 0 <= e < l.dict ==> NotSettings(nodes, list, nodes[list[e]]))
    && l.values < |nodes| && nodes[l.values].ArrayNode? && l.slot < |nodes[l.values].refs| && l.keys != l.values
    && l.logical < |list| && HoldsInt(nodes[list[l.logical]], target)
    && (forall j :: 0 <= j < l.logical ==> !HoldsInt(nodes[list[j]], target))
    && l.wrapper < |nodes| && Wraps(nodes[l.wrapper], l.logical)
    && (forall j :: 0 <= j < l.wrapper ==> !Wraps(nodes[j], l.logical))
  }

  /** The archive with the one reference repointed. */
  function Repointed(a: Archive, l: Layout): Archive
    requires l.values < |a.nodes| && a.nodes[l.values].ArrayNode? && l.slot < |a.nodes[l.values].refs|
  {
    var held := a.nodes[l.values];
    a.(nodes := a.nodes[l.values := held.(refs := held.refs[l.slot := l.wrapper])])
  }

  // ----------------------------------------------------------------- the searches find it

  lemma ValueMeant(n: Node, offset: nat)
    ensures ValueOf(Meant(n, offset)) == ValueOfNode(n)
  {}
  lemma {:induction false} ValuesRead(p: RawBPlist, nodes: seq<Node>, refs: seq<nat>)
    requires Reads(p, nodes) && Inside(refs, |nodes|)
    ensures Values(p, refs) == Success(Names(nodes, refs))
  {
    hide ObjectInfo;
    if refs == [] {
      assert Names(nodes, refs) == [];
    } else {
      ValuesRead(p, nodes, refs[1..]);
      ValueMeant(nodes[refs[0]], p.offsets[refs[0]]);
      assert Names(nodes, refs) == [Names(nodes, refs)[0]] + Names(nodes, refs[1..]);
    }
  }
  lemma HopReads(p: RawBPlist, nodes: seq<Node>, objects: Info, list: seq<nat>, ref: nat)
    requires Reads(p, nodes) && Closed(nodes, list) && objects.Array? && objects.refs == list && ref < |nodes|
    ensures ResolvedValue(p, ref, objects) == Success(ValueOfNode(Hop(nodes, list, ref)))
  {
    hide ObjectInfo;
    assert NodeClosed(nodes[ref], |nodes|, |list|);
    ValueMeant(nodes[ref], p.offsets[ref]);
    if nodes[ref].UidNode? {
      var next := list[nodes[ref].slot];
      ValueMeant(nodes[next], p.offsets[next]);
    }
  }
  lemma {:induction false} HopsRead(p: RawBPlist, nodes: seq<Node>, objects: Info, list: seq<nat>, refs: seq<nat>)
    requires Reads(p, nodes) && Closed(nodes, list) && objects.Array? && objects.refs == list && Inside(refs, |nodes|)
    ensures ResolvedValues(p, refs, objects) == Success(HopNames(nodes, list, refs))
  {
    hide ObjectInfo, Reads, Closed, Hop, ValueOfNode, ResolvedValue;
    if refs == [] {
      assert HopNames(nodes, list, refs) == [];
    } else {
      HopsRead(p, nodes, objects, list, refs[1..]);
      HopReads(p, nodes, objects, list, refs[0]);
      assert HopNames(nodes, list, refs) == [HopNames(nodes, list, refs)[0]] + HopNames(nodes, list, refs[1..]);
    }
  }
  lemma {:induction false} IndexOfFirst<T(!new)>(s: seq<T>, x: T)
    requires x in s
    ensures First(s, x, IndexOf(s, x))
  {
    if s[0] != x {
      IndexOfFirst(s[1..], x);
      var i := IndexOf(s[1..], x);
      forall j | 0 <= j < i + 1 ensures s[j] != x { if j > 0 { assert s[1..][j - 1] == s[j]; } }
    }
  }
  lemma FirstUnique<T(!new)>(s: seq<T>, x: T, i: nat, j: nat)
    requires First(s, x, i) && First(s, x, j)
    ensures i == j && x in s
  {}
  lemma IndexIs<T(!new)>(s: seq<T>, x: T, i: nat)
    requires First(s, x, i)
    ensures x in s && IndexOf(s, x) == i
  {
    assert s[i] in s;
    IndexOfFirst(s, x);
    FirstUnique(s, x, i, IndexOf(s, x));
  }

  /** What one step of the dictionary search makes of a written object. */
  lemma TryReads(p: RawBPlist, nodes: seq<Node>, objects: Info, list: seq<nat>, raw: nat)
    requires Reads(p, nodes) && Closed(nodes, list) && objects.Array? && objects.refs == list && raw < |nodes|
    ensures TryDict(p, objects, TargetKey(), raw).Success?
    ensures NotSettings(nodes, list, nodes[raw]) ==> TryDict(p, objects, TargetKey(), raw) == Success(None)
    ensures forall keys: nat, values: nat, slot: nat :: IsSettings(nodes, list, nodes[raw], keys, values, slot) && values < |nodes| ==>
              TryDict(p, objects, TargetKey(), raw)
                == Success(Some(Found(keys, values, Meant(nodes[values], p.offsets[values]), slot)))
  {
    hide ObjectInfo, Text, Names, HopNames, ResolvedValues, Values, IndexOf;
    var d := nodes[raw];
    assert NodeClosed(d, |nodes|, |list|);
    if d.DictNode? {
      var names := Names(nodes, d.keys);
      ValuesRead(p, nodes, d.keys);
      forall x, i: nat | First(names, x, i) ensures x in names && IndexOf(names, x) == i { IndexIs(names, x, i); }
      if NsKeys() in names && NsObjects() in names {
        var keys, values := d.vals[IndexOf(names, NsKeys())], d.vals[IndexOf(names, NsObjects())];
        IndexOfFirst(names, NsKeys());
        IndexOfFirst(names, NsObjects());
        ArraysRead(p, nodes, objects, list, keys, values);
        var r := TryArrays(p, objects, TargetKey(), keys, values);
        assert r.value.Some? ==> IsSettings(nodes, list, d, keys, values, r.value.value.slot);
      }
    }
  }
  lemma ArraysRead(p: RawBPlist, nodes: seq<Node>, objects: Info, list: seq<nat>, keys: nat, values: nat)
    requires Reads(p, nodes) && Closed(nodes, list) && objects.Array? && objects.refs == list
    requires keys < |nodes| && values < |nodes|
    ensures var names := if nodes[keys].ArrayNode? then HopNames(nodes, list, nodes[keys].refs) else [];
            var r := TryArrays(p, objects, TargetKey(), keys, values);
            && r.Success?
            && (r.value.Some? ==> First(names, TargetKey(), r.value.value.slot))
            && (forall slot: nat :: First(names, TargetKey(), slot) ==>
                  r.value == Some(Found(keys, values, Meant(nodes[values], p.offsets[values]), slot)))
  {
    hide ObjectInfo, TargetKey, HopNames, ResolvedValues, IndexOf;
    if nodes[keys].ArrayNode? {
      var names := HopNames(nodes, list, nodes[keys].refs);
      assert NodeClosed(nodes[keys], |nodes|, |list|);
      HopsRead(p, nodes, objects, list, nodes[keys].refs);
      forall slot: nat | First(names, TargetKey(), slot) ensures TargetKey() in names && IndexOf(names, TargetKey()) == slot {
        IndexIs(names, TargetKey(), slot);
      }
      if TargetKey() in names { IndexOfFirst(names, TargetKey()); }
    }
  }

  lemma {:induction false} FindReads(p: RawBPlist, nodes: seq<Node>, objects: Info, list: seq<nat>, refs: seq<nat>,
                                     d: nat, keys: nat, values: nat, slot: nat)
    requires Reads(p, nodes) && Closed(nodes, list) && objects.Array? && objects.refs == list && Inside(refs, |nodes|)
    requires d < |refs| && values < |nodes| && IsSettings(nodes, list, nodes[refs[d]], keys, values, slot)
    requires forall e :: 0 <= e < d ==> NotSettings(nodes, list, nodes[refs[e]])
    ensures FindDict(p, objects, TargetKey(), refs)
         == Success(Some(Found(keys, values, Meant(nodes[values], p.offsets[values]), slot)))
  {
    hide TryDict, IsSettings, NotSettings, TargetKey, Reads, Closed;
    TryReads(p, nodes, objects, list, refs[0]);
    ReadsShape(p, nodes);
    if d > 0 {
      assert NotSettings(nodes, list, nodes[refs[0]]);
      forall e | 0 <= e < d - 1 ensures NotSettings(nodes, list, nodes[refs[1..][e]]) { assert refs[1..][e] == refs[e + 1]; }
      FindReads(p, nodes, objects, list, refs[1..], d - 1, keys, values, slot);
    }
  }
  lemma ReadsShape(p: RawBPlist, nodes: seq<Node>)
    requires Reads(p, nodes)
    ensures |p.offsets| == |nodes| == p.numObjects
  {}

  lemma {:induction false} FirstIntReads(p: RawBPlist, nodes: seq<Node>, refs: seq<nat>, target: int, k: nat, at: nat)
    requires Reads(p, nodes) && Inside(refs, |nodes|) && at < |refs| && HoldsInt(nodes[refs[at]], target)
    requires forall j :: 0 <= j < at ==> !HoldsInt(nodes[refs[j]], target)
    ensures FirstInt(p, refs, target, k) == Success(Some(k + at))
  {
    hide ObjectInfo;
    if at > 0 {
      assert !HoldsInt(nodes[refs[0]], target);
      forall j | 0 <= j < at - 1 ensures !HoldsInt(nodes[refs[1..][j]], target) { assert refs[1..][j] == refs[j + 1]; }
      FirstIntReads(p, nodes, refs[1..], target, k + 1, at - 1);
    }
  }
  lemma {:induction false} FirstUidReads(p: RawBPlist, nodes: seq<Node>, logical: nat, i: nat, at: nat)
    requires Reads(p, nodes) && i <= at < |nodes| && Wraps(nodes[at], logical)
    requires forall j :: i <= j < at ==> !Wraps(nodes[j], logical)
    ensures FirstUid(p, logical, i) == Success(Some(at))
    decreases at - i
  {
    hide ObjectInfo;
    if i < at { FirstUidReads(p, nodes, logical, i + 1, at); }
  }

  lemma ObjectsReached(a: Archive, p: RawBPlist, objects: nat)
    requires Reads(p, a.nodes) && p.topObject == a.top && Reached(a, objects)
    requires Inside(a.nodes[a.top].keys, |a.nodes|)
    ensures ObjectsRef(p) == Success(objects)
  {
    hide ObjectInfo, Names, Values, IndexOf;
    var top := a.nodes[a.top];
    var names := Names(a.nodes, top.keys);
    ValuesRead(p, a.nodes, top.keys);
    var i: nat :| First(names, Text("$objects"), i) && top.vals[i] == objects;
    IndexIs(names, Text("$objects"), i);
  }

  /** The site the patch finds in a written archive. */
  function SiteOf(a: Archive, l: Layout): Site
    requires ArchiveFits(a) && l.objects < |a.nodes| && l.values < |a.nodes|
  {
    var p := Parsed(a);
    Site(p, l.objects, Meant(a.nodes[l.objects], p.offsets[l.objects]),
         Found(l.keys, l.values, Meant(a.nodes[l.values], p.offsets[l.values]), l.slot), l.wrapper)
  }

  lemma Located(a: Archive, target: int, l: Layout)
    requires ArchiveFits(a) && IsLayout(a, target, l)
    ensures Locate(File(a), target) == Success(SiteOf(a, l))
  {
    var p, nodes, list := Parsed(a), a.nodes, a.nodes[l.objects].refs;
    FileParses(a);
    FileReads(a);
    ParsedFields(a, p);
    var objects := Meant(nodes[l.objects], p.offsets[l.objects]);
    assert NodeClosed(nodes[a.top], |nodes|, |list|);
    assert ObjectInfo(p, l.objects) == Success(objects);
    hide Parse, Parsed, File, Body, ArchiveFits, ObjectInfo, OffsetsOf, FindDict, FindWrapper, ObjectsRef, TargetKey, Reads,
         Closed, Reached, IsSettings, NotSettings, HoldsInt, Wraps, Writable;
    ObjectsReached(a, p, l.objects);
    FindReads(p, nodes, objects, list, list, l.dict, l.keys, l.values, l.slot);
    WrapperReads(p, nodes, objects, list, target, l);
  }
  lemma WrapperReads(p: RawBPlist, nodes: seq<Node>, objects: Info, list: seq<nat>, target: int, l: Layout)
    requires Reads(p, nodes) && LaidOut(nodes, list, target, l) && objects.Array? && objects.refs == list
    ensures FindWrapper(p, objects, target) == Success(Some(l.wrapper))
  {
    hide Reads, HoldsInt, Wraps, FirstInt, FirstUid, IsSettings, NotSettings;
    FirstIntReads(p, nodes, list, target, 0, l.logical);
    FirstUidReads(p, nodes, l.logical, 0, l.wrapper);
  }

  // -------------------------------------------------------------- the bytes are rewritten

  lemma SameAfter(a: Bytes, b: Bytes, more: Bytes, lo: nat, hi: nat)
    requires SameOutside(a, b, lo, hi)
    ensures SameOutside(a + more, b + more, lo, hi)
  {}
  lemma SameBefore(before: Bytes, a: Bytes, b: Bytes, lo: nat, hi: nat)
    requires SameOutside(a, b, lo, hi)
    ensures SameOutside(before + a, before + b, |before| + lo, |before| + hi)
  {}

  lemma {:induction false} RefsRewritten(refs: seq<nat>, size: nat, slot: nat, w: nat)
    requires slot < |refs|
    ensures SameOutside(Refs(refs, size), Refs(refs[slot := w], size), slot * size, slot * size + size)
    ensures At(Refs(refs[slot := w], size), slot * size, ToBytes(w, size))
  {
    var after := refs[slot := w];
    var init, init' := refs[..|refs| - 1], after[..|refs| - 1];
    hide ToBytes, At, SameOutside;
    if slot == |refs| - 1 {
      assert init == init';
      LastRewritten(Refs(init, size), ToBytes(refs[slot], size), ToBytes(w, size));
    } else {
      assert init' == init[slot := w];
      RefsRewritten(init, size, slot, w);
      SameAfter(Refs(init, size), Refs(init', size), ToBytes(refs[|refs| - 1], size), slot * size, slot * size + size);
      AtPrefix(Refs(init', size), ToBytes(refs[|refs| - 1], size), slot * size, ToBytes(w, size));
    }
  }
  lemma LastRewritten(before: Bytes, x: Bytes, y: Bytes)
    requires |x| == |y|
    ensures SameOutside(before + x, before + y, |before|, |before| + |x|) && At(before + y, |before|, y)
  {}

  /** Where the references of an array object start, from its own first byte. */
  function RefsStart(form: Form): nat { if form.Short? then 1 else 2 + Shift(form.k) }
  function RefAt(form: Form, slot: nat, refSize: nat): nat { RefsStart(form) + slot * refSize }

  lemma ArrayParts(n: Node, refSize: nat, refs: seq<nat>)
    requires n.ArrayNode? && Writable(n, refSize) && |refs| == |n.refs| && RefsFit(refs, refSize)
    ensures CountFits(|n.refs|, n.form) && Writable(n.(refs := refs), refSize)
    ensures Written(n.(refs := refs), refSize) == Head(10, |n.refs|, n.form) + Refs(refs, refSize)
    ensures |Head(10, |n.refs|, n.form)| == RefsStart(n.form)
  {
    hide Refs, ToBytes, Pow256, Shift, RefsFit;
  }
  lemma RefAtIs(form: Form, slot: nat, refSize: nat)
    ensures RefAt(form, slot, refSize) == RefsStart(form) + slot * refSize
  {
    hide RefsStart;
  }
  lemma ArrayFits(n: Node, refSize: nat)
    requires n.ArrayNode? && Writable(n, refSize)
    ensures RefsFit(n.refs, refSize)
  {
    hide RefsFit, CountFits;
  }
  lemma RefsStillFit(refs: seq<nat>, size: nat, slot: nat, w: nat)
    requires RefsFit(refs, size) && slot < |refs| && w < Pow256(size)
    ensures RefsFit(refs[slot := w], size)
  {
    hide Pow256;
  }

  /** One reference of an array object. */
  lemma ArrayRewritten(n: Node, refSize: nat, slot: nat, w: nat)
    requires n.ArrayNode? && Writable(n, refSize) && slot < |n.refs| && w < Pow256(refSize)
    ensures var n', lo := n.(refs := n.refs[slot := w]), RefAt(n.form, slot, refSize);
            && Writable(n', refSize)
            && SameOutside(Written(n, refSize), Written(n', refSize), lo, lo + refSize)
            && At(Written(n', refSize), lo, ToBytes(w, refSize))
  {
    hide *;
    RefAtIs(n.form, slot, refSize);
    ArrayFits(n, refSize);
    RefsStillFit(n.refs, refSize, slot, w);
    ArrayParts(n, refSize, n.refs);
    ArrayParts(n, refSize, n.refs[slot := w]);
    assert n.(refs := n.refs) == n;
    RefsRewritten(n.refs, refSize, slot, w);
    ConcatRewritten(Head(10, |n.refs|, n.form), Refs(n.refs, refSize), Refs(n.refs[slot := w], refSize), slot * refSize, refSize,
                    ToBytes(w, refSize));
  }
  lemma ConcatRewritten(head: Bytes, before: Bytes, after: Bytes, lo: nat, size: nat, bytes: Bytes)
    requires SameOutside(before, after, lo, lo + size) && At(after, lo, bytes)
    ensures SameOutside(head + before, head + after, |head| + lo, |head| + lo + size)
    ensures At(head + after, |head| + lo, bytes)
  {
    hide *;
    SameBefore(head, before, after, lo, lo + size);
    AtSuffix(head, after);
    AtWithin(head + after, |head|, after, lo, bytes);
  }

  lemma AllStillWritable(nodes: seq<Node>, refSize: nat, v: nat, n: Node)
    requires AllWritable(nodes, refSize) && v < |nodes| && Writable(n, refSize)
    ensures AllWritable(nodes[v := n], refSize)
  {
    hide Writable;
  }
  lemma PrefixWritable(nodes: seq<Node>, refSize: nat, i: nat)
    requires AllWritable(nodes, refSize) && i <= |nodes|
    ensures AllWritable(nodes[..i], refSize)
  {
    hide Writable;
  }

  lemma BodyGrows(nodes: seq<Node>, refSize: nat, i: nat)
    requires AllWritable(nodes, refSize) && i < |nodes|
    ensures AllWritable(nodes[..i], refSize) && AllWritable(nodes[..i + 1], refSize) && Writable(nodes[i], refSize)
    ensures Body(nodes[..i + 1], refSize) == Body(nodes[..i], refSize) + Written(nodes[i], refSize)
  {
    hide Written, Writable, At, Body;
    BodyHolds(nodes, refSize, i);
  }

  /** The bodies of two lists that differ in entry `v`. */
  ghost predicate DifferAt(nodes: seq<Node>, after: seq<Node>, v: nat) {
    v < |nodes| == |after| && nodes[..v] == after[..v] && forall j :: v < j < |nodes| ==> nodes[j] == after[j]
  }
  lemma {:induction false} PrefixRewritten(nodes: seq<Node>, after: seq<Node>, refSize: nat, v: nat, i: nat, lo: nat, hi: nat)
    requires AllWritable(nodes, refSize) && AllWritable(after, refSize) && DifferAt(nodes, after, v) && v < i <= |nodes|
    requires SameOutside(Written(nodes[v], refSize), Written(after[v], refSize), lo, hi)
    ensures AllWritable(nodes[..i], refSize) && AllWritable(after[..i], refSize) && AllWritable(nodes[..v], refSize)
    ensures var o := |Body(nodes[..v], refSize)|;
            SameOutside(Body(nodes[..i], refSize), Body(after[..i], refSize), o + lo, o + hi)
    decreases i
  {
    hide AllWritable, Body, Written, Writable, SameOutside;
    BodyGrows(nodes, refSize, i - 1);
    BodyGrows(after, refSize, i - 1);
    if i - 1 == v {
      SameBefore(Body(nodes[..v], refSize), Written(nodes[v], refSize), Written(after[v], refSize), lo, hi);
    } else {
      PrefixRewritten(nodes, after, refSize, v, i - 1, lo, hi);
      var o := |Body(nodes[..v], refSize)|;
      SameAfter(Body(nodes[..i - 1], refSize), Body(after[..i - 1], refSize), Written(nodes[i - 1], refSize), o + lo, o + hi);
    }
  }
  lemma BodyRewritten(nodes: seq<Node>, after: seq<Node>, refSize: nat, v: nat, lo: nat, hi: nat)
    requires AllWritable(nodes, refSize) && AllWritable(after, refSize) && DifferAt(nodes, after, v)
    requires SameOutside(Written(nodes[v], refSize), Written(after[v], refSize), lo, hi)
    ensures AllWritable(nodes[..v], refSize)
    ensures var o := |Body(nodes[..v], refSize)|;
            SameOutside(Body(nodes, refSize), Body(after, refSize), o + lo, o + hi)
  {
    hide AllWritable, Body, Written, Writable, SameOutside;
    PrefixRewritten(nodes, after, refSize, v, |nodes|, lo, hi);
    assert nodes[..|nodes|] == nodes && after[..|after|] == after;
  }

  /** An object of unchanged length leaves every offset alone. */
  lemma {:induction false} OffsetsKept(nodes: seq<Node>, refSize: nat, v: nat, n: Node, i: nat)
    requires AllWritable(nodes, refSize) && v < |nodes| && Writable(n, refSize) && i <= |nodes|
    requires |Written(nodes[v], refSize)| == |Written(n, refSize)|
    ensures AllWritable(nodes[v := n], refSize) && OffsetOf(nodes[v := n], refSize, i) == OffsetOf(nodes, refSize, i)
  {
    hide Written, Writable, OffsetOf;
    if i == 0 {
      FirstOffset(nodes, refSize);
      FirstOffset(nodes[v := n], refSize);
    } else {
      OffsetsKept(nodes, refSize, v, n, i - 1);
      OffsetStep(nodes, refSize, i - 1);
      OffsetStep(nodes[v := n], refSize, i - 1);
    }
  }
  lemma FirstOffset(nodes: seq<Node>, refSize: nat)
    requires AllWritable(nodes, refSize)
    ensures OffsetOf(nodes, refSize, 0) == 8
  {
    assert nodes[..0] == [];
  }

  lemma TailKept(a: Archive, b: Archive)
    requires ArchiveFits(a) && AllWritable(b.nodes, b.refSize) && b == a.(nodes := b.nodes) && |b.nodes| == |a.nodes|
    requires OffsetsOf(b.nodes, b.refSize) == OffsetsOf(a.nodes, a.refSize)
    requires |Body(b.nodes, b.refSize)| == |Body(a.nodes, a.refSize)|
    ensures ArchiveFits(b) && Tail(b) == Tail(a)
  {
    hide Body, OffsetsOf, AllWritable, Pow256, ToBytes, RefsFit;
  }

  lemma FitsEach(a: Archive, v: nat)
    requires ArchiveFits(a) && v < |a.nodes|
    ensures AllWritable(a.nodes, a.refSize) && Writable(a.nodes[v], a.refSize) && |a.nodes| <= Pow256(a.refSize)
    ensures |Parsed(a).offsets| == |a.nodes| && Parsed(a).offsets[v] == OffsetOf(a.nodes, a.refSize, v)
  {
    hide Body, File, Writable, Pow256, OffsetOf;
  }
  lemma OffsetsAllKept(nodes: seq<Node>, refSize: nat, v: nat, n: Node)
    requires AllWritable(nodes, refSize) && v < |nodes| && Writable(n, refSize)
    requires |Written(nodes[v], refSize)| == |Written(n, refSize)|
    ensures AllWritable(nodes[v := n], refSize) && OffsetsOf(nodes[v := n], refSize) == OffsetsOf(nodes, refSize)
  {
    hide Written, Writable, OffsetOf, AllWritable;
    AllStillWritable(nodes, refSize, v, n);
    forall i: nat | i < |nodes| ensures OffsetsOf(nodes[v := n], refSize)[i] == OffsetsOf(nodes, refSize)[i] {
      OffsetsKept(nodes, refSize, v, n, i);
    }
  }
  lemma SlotIs(a: Archive, l: Layout)
    requires ArchiveFits(a) && l.objects < |a.nodes| && l.values < |a.nodes| && a.nodes[l.values].ArrayNode?
    ensures AllWritable(a.nodes, a.refSize)
    ensures SiteOf(a, l).found.objects.Array? && SiteOf(a, l).p.refSize == a.refSize && SiteOf(a, l).wrapper == l.wrapper
    ensures SlotOffset(SiteOf(a, l)) == SlotAt(a, l)
  {
    hide Body, File, Writable, Pow256, OffsetOf, Shift;
  }

  /** Where in the file the reference stands. */
  function SlotAt(a: Archive, l: Layout): nat
    requires AllWritable(a.nodes, a.refSize) && l.values < |a.nodes| && a.nodes[l.values].ArrayNode?
  {
    OffsetOf(a.nodes, a.refSize, l.values) + RefAt(a.nodes[l.values].form, l.slot, a.refSize)
  }
  ghost predicate Rewrites(a: Archive, b: Archive, at: nat, w: nat) {
    && ArchiveFits(a) && ArchiveFits(b)
    && SameOutside(File(a), File(b), at, at + a.refSize) && At(File(b), at, ToBytes(w, a.refSize))
  }

  lemma RepointedNodes(a: Archive, b: Archive, l: Layout)
    requires l.values < |a.nodes| && a.nodes[l.values].ArrayNode? && l.slot < |a.nodes[l.values].refs| && b == Repointed(a, l)
    ensures b == a.(nodes := b.nodes) && |b.nodes| == |a.nodes| && DifferAt(a.nodes, b.nodes, l.values)
    ensures b.nodes == a.nodes[l.values := b.nodes[l.values]]
    ensures var n := a.nodes[l.values]; b.nodes[l.values] == n.(refs := n.refs[l.slot := l.wrapper])
  {}

  /** The repointed archive keeps every length, so its file differs in the one reference. */
  lemma RepointedRewrites(a: Archive, b: Archive, l: Layout)
    requires ArchiveFits(a) && AllWritable(a.nodes, a.refSize)
    requires l.values < |a.nodes| && a.nodes[l.values].ArrayNode? && l.slot < |a.nodes[l.values].refs|
    requires l.wrapper < |a.nodes| && b == Repointed(a, l)
    ensures Rewrites(a, b, SlotAt(a, l), l.wrapper)
  {
    hide *;
    RepointedNodes(a, b, l);
    var v, size := l.values, a.refSize;
    var n := a.nodes[v];
    FitsEach(a, v);
    ArrayRewritten(n, size, l.slot, l.wrapper);
    AllStillWritable(a.nodes, size, v, b.nodes[v]);
    LengthsKept(a, b, v, RefAt(n.form, l.slot, size), l.wrapper);
    SlotAtIs(a, l);
  }
  lemma SlotAtIs(a: Archive, l: Layout)
    requires AllWritable(a.nodes, a.refSize) && l.values < |a.nodes| && a.nodes[l.values].ArrayNode?
    ensures SlotAt(a, l) == OffsetOf(a.nodes, a.refSize, l.values) + RefAt(a.nodes[l.values].form, l.slot, a.refSize)
  {}
  lemma LengthsKept(a: Archive, b: Archive, v: nat, lo: nat, w: nat)
    requires ArchiveFits(a) && AllWritable(a.nodes, a.refSize) && AllWritable(b.nodes, a.refSize)
    requires b == a.(nodes := b.nodes) && DifferAt(a.nodes, b.nodes, v) && b.nodes == a.nodes[v := b.nodes[v]] && |b.nodes| == |a.nodes|
    requires v < |a.nodes| && Writable(a.nodes[v], a.refSize) && Writable(b.nodes[v], a.refSize)
    requires SameOutside(Written(a.nodes[v], a.refSize), Written(b.nodes[v], a.refSize), lo, lo + a.refSize)
    requires At(Written(b.nodes[v], a.refSize), lo, ToBytes(w, a.refSize))
    ensures Rewrites(a, b, OffsetOf(a.nodes, a.refSize, v) + lo, w)
  {
    hide *;
    var size := a.refSize;
    BodyRewritten(a.nodes, b.nodes, size, v, lo, lo + size);
    var o := |Body(a.nodes[..v], size)|;
    SameLength(Written(a.nodes[v], size), Written(b.nodes[v], size), lo, lo + size);
    SameLength(Body(a.nodes, size), Body(b.nodes, size), o + lo, o + lo + size);
    OffsetsAllKept(a.nodes, size, v, b.nodes[v]);
    TailKept(a, b);
    FilesDiffer(a, b, v, lo);
    NodeStands(b, v);
    OffsetsKept(a.nodes, size, v, b.nodes[v], v);
    AtWithin(File(b), OffsetOf(b.nodes, size, v), Written(b.nodes[v], size), lo, ToBytes(w, size));
    RewritesOf(a, b, OffsetOf(a.nodes, size, v) + lo, w);
  }
  lemma RewritesOf(a: Archive, b: Archive, at: nat, w: nat)
    requires ArchiveFits(a) && ArchiveFits(b)
    requires SameOutside(File(a), File(b), at, at + a.refSize) && At(File(b), at, ToBytes(w, a.refSize))
    ensures Rewrites(a, b, at, w)
  {
    hide ArchiveFits, File, SameOutside, At, ToBytes;
  }

  /** The file of the repointed archive is the file with the one reference overwritten. */
  lemma FileRewritten(a: Archive, l: Layout)
    requires ArchiveFits(a) && l.objects < |a.nodes| && l.values < |a.nodes| && a.nodes[l.values].ArrayNode?
    requires l.slot < |a.nodes[l.values].refs| && l.wrapper < |a.nodes|
    ensures ArchiveFits(Repointed(a, l)) && SiteOf(a, l).found.objects.Array?
    ensures Overwritten(File(a), SiteOf(a, l)) == File(Repointed(a, l))
  {
    hide ArchiveFits, File, SiteOf, SlotOffset, Repointed, Assign, OffsetOf, ToBytes, At, SameOutside, RefsStart, AllWritable, SlotAt;
    FitsEach(a, l.values);
    SlotIs(a, l);
    RepointedRewrites(a, Repointed(a, l), l);
    OverwriteIs(File(a), File(Repointed(a, l)), SlotAt(a, l), a.refSize, ToBytes(l.wrapper, a.refSize));
  }
  lemma FilesDiffer(a: Archive, b: Archive, v: nat, lo: nat)
    requires ArchiveFits(a) && ArchiveFits(b) && b == a.(nodes := b.nodes) && v < |a.nodes| == |b.nodes|
    requires AllWritable(a.nodes, a.refSize) && AllWritable(b.nodes, a.refSize) && AllWritable(a.nodes[..v], a.refSize)
    requires OffsetsOf(b.nodes, a.refSize) == OffsetsOf(a.nodes, a.refSize) && Tail(b) == Tail(a)
    requires var o := |Body(a.nodes[..v], a.refSize)|;
             SameOutside(Body(a.nodes, a.refSize), Body(b.nodes, a.refSize), o + lo, o + lo + a.refSize)
    ensures var o := OffsetOf(a.nodes, a.refSize, v);
            SameOutside(File(a), File(b), o + lo, o + lo + a.refSize)
  {
    hide ArchiveFits, Tail, Body, OffsetsOf, Refs, SameOutside, File, AllWritable;
    FileOf(a);
    FileOf(b);
    PrefixWritable(a.nodes, a.refSize, v);
    var o, size := |Body(a.nodes[..v], a.refSize)|, a.refSize;
    var x, y := Body(a.nodes, size), Body(b.nodes, size);
    var table := Refs(OffsetsOf(a.nodes, size), a.offsetSize);
    SameBefore(MAGIC, x, y, o + lo, o + lo + size);
    SameAfter(MAGIC + x, MAGIC + y, table, 8 + o + lo, 8 + o + lo + size);
    SameAfter(MAGIC + x + table, MAGIC + y + table, Tail(a), 8 + o + lo, 8 + o + lo + size);
  }
  lemma OverwriteIs(a: Bytes, b: Bytes, offset: nat, size: nat, bytes: Bytes)
    requires SameOutside(a, b, offset, offset + size) && At(b, offset, bytes) && |bytes| == size
    ensures Assign(a, offset, size, bytes) == b
  {
    AssignFrames(a, offset, size, bytes);
    var c := Assign(a, offset, size, bytes);
    forall k | 0 <= k < |b| ensures c[k] == b[k] {
      if offset <= k < offset + size {
        assert Slice(c, offset, offset + size)[k - offset] == c[k] && b[offset..offset + size][k - offset] == b[k];
      }
    }
  }

  /** Patching the file of a laid-out archive writes exactly the file of the repointed archive. */
  lemma PatchWrites(a: Archive, target: int, l: Layout)
    requires ArchiveFits(a) && IsLayout(a, target, l)
    ensures l.values < |a.nodes| && a.nodes[l.values].ArrayNode? && l.slot < |a.nodes[l.values].refs|
    ensures ArchiveFits(Repointed(a, l))
    ensures PatchResult(File(a), target) == Success(File(Repointed(a, l)))
  {
    LayoutBounds(a, target, l);
    Located(a, target, l);
    FileWellFormed(a);
    FileRewritten(a, l);
    SiteIsPaired(a, target, l);
    hide *;
    PatchFrames(File(a), target, SiteOf(a, l));
  }
  lemma LayoutBounds(a: Archive, target: int, l: Layout)
    requires IsLayout(a, target, l)
    ensures l.objects < |a.nodes| && l.values < |a.nodes| && a.nodes[l.values].ArrayNode?
    ensures l.slot < |a.nodes[l.values].refs| && l.wrapper < |a.nodes| && l.keys != l.values
  {
    hide IsSettings, NotSettings, Closed;
  }
  lemma SiteIsPaired(a: Archive, target: int, l: Layout)
    requires ArchiveFits(a) && IsLayout(a, target, l)
    ensures l.objects < |a.nodes| && l.values < |a.nodes| && SiteOf(a, l).p == Parsed(a) && Paired(SiteOf(a, l))
  {
    LayoutBounds(a, target, l);
    hide IsLayout, ArchiveFits, Parsed;
  }

  /** The wrapper now in the slot stands for the target. */
  lemma RepointedHoldsTarget(a: Archive, target: int, l: Layout)
    requires IsLayout(a, target, l) && l.objects != l.values
    ensures l.values < |a.nodes| && a.nodes[l.values].ArrayNode? && l.slot < |a.nodes[l.values].refs|
    ensures var b := Repointed(a, l);
            && b.nodes[l.objects] == a.nodes[l.objects]
            && HopNames(b.nodes, a.nodes[l.objects].refs, b.nodes[l.values].refs)[l.slot] == Some(IntValue(target))
  {
    LayoutBounds(a, target, l);
    assert NodeClosed(a.nodes[l.objects], |a.nodes|, |a.nodes[l.objects].refs|);
    assert Wraps(a.nodes[l.wrapper], l.logical) && HoldsInt(a.nodes[a.nodes[l.objects].refs[l.logical]], target);
  }
}
