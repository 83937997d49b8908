/** What the patch leaves alone: on a well-formed file exactly one reference changes, every other object reads as
before, and the verification after the write cannot fail. */
module PlistFraming {
  import opened Outcomes
  import opened Sums
  import opened PlistReader
  import opened PlistPatch

  // ------------------------------------------------------------ well-formed files

  function TableEnd(p: RawBPlist): nat { p.offsetTable + p.numObjects * p.offsetIntSize }
  function End(p: RawBPlist, i: nat): nat
    requires i < |p.offsets|
  { ExtentEnd(p.data, p.refSize, p.offsets[i]) }

  /** The object lies between header and trailer, clear of the offset table. */
  ghost predicate InBody(p: RawBPlist, i: nat)
    requires i < |p.offsets|
  {
    && 8 <= p.offsets[i] && End(p, i) + 32 <= |p.data|
    && (End(p, i) <= p.offsetTable || TableEnd(p) <= p.offsets[i])
  }
  ghost predicate ExtentsApart(p: RawBPlist, i: nat, j: nat)
    requires i < |p.offsets| && j < |p.offsets|
  {
    End(p, i) <= p.offsets[j] || End(p, j) <= p.offsets[i]
  }
  ghost predicate WellFormed(p: RawBPlist) {
    && Parse(p.data) == Success(p)
    && TableEnd(p) + 32 <= |p.data|
    && p.numObjects <= Pow256(p.refSize)
    && (forall i :: 0 <= i < |p.offsets| ==> InBody(p, i))
    && (forall i, j :: 0 <= i < |p.offsets| && 0 <= j < |p.offsets| && i != j ==> ExtentsApart(p, i, j))
  }

  // ----------------------------------------------------------------- one overwrite

  /** Equal outside `[lo, hi)`. */
  ghost predicate SameOutside(a: Bytes, b: Bytes, lo: nat, hi: nat) {
    |a| == |b| && forall x :: 0 <= x < |a| && !(lo <= x < hi) ==> a[x] == b[x]
  }

  lemma AssignFrames(a: Bytes, offset: nat, size: nat, bytes: Bytes)
    requires offset + size <= |a| && |bytes| == size
    ensures SameOutside(a, Assign(a, offset, size, bytes), offset, offset + size)
    ensures Slice(Assign(a, offset, size, bytes), offset, offset + size) == bytes
  {}

  lemma OutsideAgrees(a: Bytes, b: Bytes, lo: nat, hi: nat, from: nat, to: nat)
    requires SameOutside(a, b, lo, hi) && (to <= lo || hi <= from)
    ensures Agree(a, b, from, to)
  {}

  /** What the constructor reads. */
  function Trailer(data: Bytes): (nat, nat, nat, nat, nat)
    requires |data| >= 32
  {
    var t := |data| - 32;
    (data[t + 6], data[t + 7], ReadUint(data, t + 8, 8), ReadUint(data, t + 16, 8), ReadUint(data, t + 24, 8))
  }
  lemma ParseShape(data: Bytes)
    requires |data| >= 32 && Slice(data, 0, 8) == MAGIC
    ensures var (size, refSize, count, top, table) := Trailer(data);
            Parse(data) == Success(RawBPlist(data, size, refSize, count, top, table, TableOffsets(data, table, size, count)))
  {}
  lemma ParsedShape(p: RawBPlist)
    requires Parse(p.data) == Success(p)
    ensures |p.data| >= 32 && Slice(p.data, 0, 8) == MAGIC
    ensures Trailer(p.data) == (p.offsetIntSize, p.refSize, p.numObjects, p.topObject, p.offsetTable)
    ensures p.offsets == TableOffsets(p.data, p.offsetTable, p.offsetIntSize, p.numObjects)
    ensures |p.offsets| == p.numObjects
  {}

  /** Header, trailer and table read the same when the overwrite stays clear of them. */
  lemma SameTable(p: RawBPlist, data: Bytes, lo: nat, hi: nat)
    requires Parse(p.data) == Success(p) && SameOutside(p.data, data, lo, hi)
    requires 8 <= lo && hi + 32 <= |p.data| && (hi <= p.offsetTable || TableEnd(p) <= lo)
    ensures Parse(data) == Success(p.(data := data))
  {
    hide ReadUint, Slice, TableOffsets, Agree, SameOutside, Parse;
    ParsedShape(p);
    assert |data| == |p.data| by { SameLength(p.data, data, lo, hi); }
    var t := |p.data| - 32;
    OutsideAgrees(p.data, data, lo, hi, 0, 8);
    SliceAgrees(p.data, data, 0, 8);
    OutsideAgrees(p.data, data, lo, hi, t, t + 32);
    TrailerAgrees(p.data, data, t);
    OutsideAgrees(p.data, data, lo, hi, p.offsetTable, TableEnd(p));
    OffsetsAgree(p.data, data, p.offsetTable, p.offsetIntSize, p.numObjects);
    ParseShape(data);
  }
  lemma SameLength(a: Bytes, b: Bytes, lo: nat, hi: nat)
    requires SameOutside(a, b, lo, hi)
    ensures |a| == |b|
  {}
  lemma TrailerAgrees(a: Bytes, b: Bytes, t: nat)
    requires Agree(a, b, t, t + 32) && t + 32 <= |a|
    ensures |a| == |b| && a[t + 6] == b[t + 6] && a[t + 7] == b[t + 7]
    ensures ReadUint(a, t + 8, 8) == ReadUint(b, t + 8, 8)
    ensures ReadUint(a, t + 16, 8) == ReadUint(b, t + 16, 8)
    ensures ReadUint(a, t + 24, 8) == ReadUint(b, t + 24, 8)
  {
    hide ReadUint;
    UintAgrees(a, b, t + 8, 8);
    UintAgrees(a, b, t + 16, 8);
    UintAgrees(a, b, t + 24, 8);
  }
  lemma OffsetsAgree(a: Bytes, b: Bytes, table: nat, size: nat, count: nat)
    requires Agree(a, b, table, table + count * size)
    ensures TableOffsets(a, table, size, count) == TableOffsets(b, table, size, count)
  {
    hide ReadUint, Agree;
    forall i | 0 <= i < count ensures TableOffsets(a, table, size, count)[i] == TableOffsets(b, table, size, count)[i] {
      RefAgrees(a, b, table, i, count, size);
    }
  }

  // --------------------------------------------------------------------- arrays

  /** What a successful array read says about its bytes. */
  lemma ArrayShape(data: Bytes, refSize: nat, offset: nat)
    requires InfoAt(data, refSize, offset).Success? && InfoAt(data, refSize, offset).value.Array?
    ensures var info := InfoAt(data, refSize, offset).value;
            && offset < |data| && data[offset] / 16 == 10
            && offset < info.refsOffset
            && info.refs == ReadRefs(data, info.refsOffset, |info.refs|, refSize)
            && ReadLen(data, offset, data[offset] % 16) == Success((|info.refs|, info.refsOffset - offset))
            && ExtentEnd(data, refSize, offset) == info.refsOffset + |info.refs| * refSize
            && (data[offset] % 16 == 0xF ==> offset + 2 <= info.refsOffset)
  {}

  lemma SlotRegion(offset: nat, count: nat, slot: nat, i: nat, size: nat)
    requires slot < count && i < count
    ensures offset + slot * size + size <= offset + count * size
    ensures i < slot ==> offset + i * size + size <= offset + slot * size
    ensures i > slot ==> offset + slot * size + size <= offset + i * size
  {
    SlotInside(slot, count, size);
    MulMono(i + 1, slot, size);
    MulMono(slot + 1, i, size);
  }

  lemma SlotReads(a: Bytes, b: Bytes, lo: nat, size: nat, w: nat)
    requires lo + size <= |a| && w < Pow256(size) && b == Assign(a, lo, size, ToBytes(w, size))
    ensures ReadUint(b, lo, size) == w
  {
    hide Pow256, Slice, Assign;
    AssignFrames(a, lo, size, ToBytes(w, size));
    FromToBytes(w, size);
  }
  lemma OtherSlotReads(a: Bytes, b: Bytes, offset: nat, count: nat, size: nat, slot: nat, i: nat, lo: nat)
    requires slot < count && i < count && i != slot && lo == offset + slot * size && SameOutside(a, b, lo, lo + size)
    ensures ReadUint(b, offset + i * size, size) == ReadUint(a, offset + i * size, size)
  {
    hide ReadUint, SameOutside;
    SlotRegion(offset, count, slot, i, size);
    var at := offset + i * size;
    OutsideAgrees(a, b, lo, lo + size, at, at + size);
    UintAgrees(a, b, at, size);
  }

  /** Overwriting slot `slot` of an array of references changes that element and no other. */
  lemma RefsUpdated(a: Bytes, b: Bytes, offset: nat, count: nat, size: nat, slot: nat, w: nat, lo: nat)
    requires slot < count && lo == offset + slot * size && lo + size <= |a| && w < Pow256(size)
    requires b == Assign(a, lo, size, ToBytes(w, size))
    ensures ReadRefs(b, offset, count, size) == ReadRefs(a, offset, count, size)[slot := w]
  {
    hide ReadUint, Assign, ToBytes, Pow256, SameOutside, ReadRefs;
    AssignFrames(a, lo, size, ToBytes(w, size));
    SlotReads(a, b, lo, size, w);
    forall i | 0 <= i < count && i != slot
      ensures ReadUint(b, offset + i * size, size) == ReadUint(a, offset + i * size, size)
    {
      OtherSlotReads(a, b, offset, count, size, slot, i, lo);
    }
    RefsAt(a, b, offset, count, size, slot, w);
  }
  lemma RefsAt(a: Bytes, b: Bytes, offset: nat, count: nat, size: nat, slot: nat, w: nat)
    requires slot < count && ReadUint(b, offset + slot * size, size) == w
    requires forall i :: 0 <= i < count && i != slot ==>
               ReadUint(b, offset + i * size, size) == ReadUint(a, offset + i * size, size)
    ensures ReadRefs(b, offset, count, size) == ReadRefs(a, offset, count, size)[slot := w]
  {}

  /** The array object itself, after the overwrite. */
  lemma ArrayUpdated(a: Bytes, b: Bytes, refSize: nat, offset: nat, info: Info, slot: nat, w: nat, lo: nat)
    requires InfoAt(a, refSize, offset) == Success(info) && info.Array?
    requires slot < |info.refs| && w < Pow256(refSize) && ExtentEnd(a, refSize, offset) <= |a|
    requires lo == info.refsOffset + slot * refSize
    requires b == Assign(a, lo, refSize, ToBytes(w, refSize))
    ensures InfoAt(b, refSize, offset) == Success(Array(info.refsOffset, info.refs[slot := w]))
  {
    hide ReadLen, ReadRefs, Assign, Pow256, ToBytes, ExtentEnd, InfoAt, SameOutside, Agree;
    var count := |info.refs|;
    ArrayShape(a, refSize, offset);
    SlotRegion(info.refsOffset, count, slot, slot, refSize);
    SlotAfter(info.refsOffset, slot, refSize);
    AssignFrames(a, lo, refSize, ToBytes(w, refSize));
    RefsUpdated(a, b, info.refsOffset, count, refSize, slot, w, lo);
    OutsideAgrees(a, b, lo, lo + refSize, offset, info.refsOffset);
    SameByte(a, b, offset, info.refsOffset);
    LenAgrees(a, b, offset, a[offset] % 16, info.refsOffset);
    InfoOfSized(b, refSize, offset);
  }
  lemma SlotAfter(offset: nat, slot: nat, size: nat)
    ensures offset <= offset + slot * size
  {}
  lemma SameByte(a: Bytes, b: Bytes, lo: nat, hi: nat)
    requires Agree(a, b, lo, hi) && lo < hi && lo < |a|
    ensures lo < |b| && a[lo] == b[lo]
  {}

  // ------------------------------------------------------------- the patched table

  /** `q` reads like `p`, except that element `slot` of array object `m` is `w`. */
  ghost predicate Patched(p: RawBPlist, q: RawBPlist, m: nat, slot: nat, w: nat) {
    && q == p.(data := q.data)
    && (forall i: nat :: i != m ==> ObjectInfo(q, i) == ObjectInfo(p, i))
    && ObjectInfo(p, m).Success? && ObjectInfo(p, m).value.Array? && slot < |ObjectInfo(p, m).value.refs|
    && ObjectInfo(q, m) == Success(Array(ObjectInfo(p, m).value.refsOffset, ObjectInfo(p, m).value.refs[slot := w]))
  }

  lemma BodyInside(p: RawBPlist, i: nat)
    requires i < |p.offsets| && InBody(p, i)
    ensures p.offsets[i] < |p.data|
  {}

  lemma OtherObject(p: RawBPlist, data: Bytes, m: nat, i: nat, lo: nat, hi: nat)
    requires i < |p.offsets| && m < |p.offsets| && i != m && InBody(p, i) && ExtentsApart(p, i, m)
    requires SameOutside(p.data, data, lo, hi) && p.offsets[m] <= lo && hi <= End(p, m)
    ensures ObjectInfo(p.(data := data), i) == ObjectInfo(p, i)
  {
    BodyInside(p, i);
    hide InfoAt, SameOutside, Agree, ExtentEnd;
    OutsideAgrees(p.data, data, lo, hi, p.offsets[i], End(p, i));
    InfoReadsExtent(p.data, data, p.refSize, p.offsets[i]);
  }

  /** The overwrite of a slot of an array object yields the patched table. */
  lemma OverwritePatches(p: RawBPlist, m: nat, info: Info, slot: nat, w: nat, lo: nat, data: Bytes)
    requires WellFormed(p) && ObjectInfo(p, m) == Success(info) && info.Array? && slot < |info.refs|
    requires w < Pow256(p.refSize) && lo == info.refsOffset + slot * p.refSize
    requires data == Assign(p.data, lo, p.refSize, ToBytes(w, p.refSize))
    ensures Parse(data) == Success(p.(data := data))
    ensures SameOutside(p.data, data, lo, lo + p.refSize) && 8 <= lo && lo + p.refSize + 32 <= |p.data|
    ensures Patched(p, p.(data := data), m, slot, w)
  {
    hide Parse, InfoAt, Assign, ToBytes, Pow256, SameOutside, ExtentEnd;
    var offset := p.offsets[m];
    assert InBody(p, m);
    ArrayShape(p.data, p.refSize, offset);
    SlotRegion(info.refsOffset, |info.refs|, slot, slot, p.refSize);
    SlotAfter(info.refsOffset, slot, p.refSize);
    AssignFrames(p.data, lo, p.refSize, ToBytes(w, p.refSize));
    SameTable(p, data, lo, lo + p.refSize);
    ArrayUpdated(p.data, data, p.refSize, offset, info, slot, w, lo);
    var q := p.(data := data);
    forall i: nat | i != m ensures ObjectInfo(q, i) == ObjectInfo(p, i) {
      if i < |p.offsets| {
        assert InBody(p, i) && ExtentsApart(p, i, m);
        OtherObject(p, data, m, i, lo, lo + p.refSize);
      }
    }
  }

  // --------------------------------------------------- searches on the patched table

  lemma SameValue(p: RawBPlist, q: RawBPlist, m: nat, slot: nat, w: nat, ref: nat)
    requires Patched(p, q, m, slot, w)
    ensures InfoValue(q, ref) == InfoValue(p, ref)
  {}
  lemma {:induction false} SameValues(p: RawBPlist, q: RawBPlist, m: nat, slot: nat, w: nat, refs: seq<nat>)
    requires Patched(p, q, m, slot, w)
    ensures Values(q, refs) == Values(p, refs)
  {
    hide Patched, InfoValue;
    if refs != [] {
      SameValue(p, q, m, slot, w, refs[0]);
      SameValues(p, q, m, slot, w, refs[1..]);
    }
  }
  lemma SameResolved(p: RawBPlist, q: RawBPlist, m: nat, slot: nat, w: nat, ref: nat, objects: Info)
    requires Patched(p, q, m, slot, w)
    ensures ResolvedValue(q, ref, objects) == ResolvedValue(p, ref, objects)
  {}
  lemma {:induction false} SameResolvedValues(p: RawBPlist, q: RawBPlist, m: nat, slot: nat, w: nat, refs: seq<nat>, objects: Info)
    requires Patched(p, q, m, slot, w)
    ensures ResolvedValues(q, refs, objects) == ResolvedValues(p, refs, objects)
  {
    hide Patched, ResolvedValue;
    if refs != [] {
      SameResolved(p, q, m, slot, w, refs[0], objects);
      SameResolvedValues(p, q, m, slot, w, refs[1..], objects);
    }
  }
  /** Replacing one reference replaces one resolved value. */
  lemma {:induction false} ReplacedResolvedValues(p: RawBPlist, refs: seq<nat>, objects: Info, slot: nat, w: nat)
    requires slot < |refs| && ResolvedValues(p, refs, objects).Success? && ResolvedValue(p, w, objects).Success?
    ensures ResolvedValues(p, refs[slot := w], objects)
         == Success(ResolvedValues(p, refs, objects).value[slot := ResolvedValue(p, w, objects).value])
  {
    hide ResolvedValue;
    var changed := refs[slot := w];
    var tail := ResolvedValues(p, refs[1..], objects);
    assert tail.Success? && ResolvedValues(p, refs, objects).value == [ResolvedValue(p, refs[0], objects).value] + tail.value;
    if slot == 0 {
      assert changed[1..] == refs[1..];
      var v, head := ResolvedValue(p, w, objects).value, ResolvedValue(p, refs[0], objects).value;
      assert ResolvedValues(p, changed, objects) == Success([v] + tail.value);
      assert ([head] + tail.value)[0 := v] == [v] + tail.value;
    } else {
      ReplacedResolvedValues(p, refs[1..], objects, slot - 1, w);
      assert changed[1..] == refs[1..][slot - 1 := w] && changed[0] == refs[0];
      var v, head := ResolvedValue(p, w, objects).value, ResolvedValue(p, refs[0], objects).value;
      assert ResolvedValues(p, changed, objects) == Success([head] + tail.value[slot - 1 := v]);
      assert ([head] + tail.value)[slot := v] == [head] + tail.value[slot - 1 := v];
    }
  }

  lemma StillAbsent<T>(values: seq<T>, slot: nat, v: T, key: T)
    requires slot < |values| && key !in values && v != key
    ensures key !in values[slot := v]
  {}

  /** A dictionary passed over before the patch is passed over after it. */
  lemma StillNoMatch(p: RawBPlist, q: RawBPlist, m: nat, slot: nat, w: nat, objects: Info, key: Option<Value>, keysRef: nat, objectsRef: nat)
    requires Patched(p, q, m, slot, w)
    requires ResolvedValue(p, w, objects).Success? && ResolvedValue(p, w, objects).value != key
    requires TryArrays(p, objects, key, keysRef, objectsRef) == Success(None)
    ensures TryArrays(q, objects, key, keysRef, objectsRef) == Success(None)
  {
    hide ObjectInfo, ResolvedValue, ResolvedValues;
    var keys := ObjectInfo(p, keysRef).value;
    assert keysRef != m ==> ObjectInfo(q, keysRef) == ObjectInfo(p, keysRef);
    if keys.Array? {
      SameResolvedValues(p, q, m, slot, w, keys.refs, objects);
      if keysRef == m {
        ReplacedResolvedValues(p, keys.refs, objects, slot, w);
        SameResolvedValues(p, q, m, slot, w, keys.refs[slot := w], objects);
        StillAbsent(ResolvedValues(p, keys.refs, objects).value, slot, ResolvedValue(p, w, objects).value, key);
      }
    }
  }
  lemma DictStillNoMatch(p: RawBPlist, q: RawBPlist, m: nat, slot: nat, w: nat, objects: Info, key: Option<Value>, raw: nat)
    requires Patched(p, q, m, slot, w)
    requires ResolvedValue(p, w, objects).Success? && ResolvedValue(p, w, objects).value != key
    requires TryDict(p, objects, key, raw) == Success(None)
    ensures TryDict(q, objects, key, raw) == Success(None)
  {
    hide ObjectInfo, ResolvedValue, TryArrays, Values, NsKeys, NsObjects;
    var info := ObjectInfo(p, raw).value;
    if info.Dict? {
      SameValues(p, q, m, slot, w, info.keyRefs);
      var names := Values(p, info.keyRefs).value;
      if NsKeys() in names && NsObjects() in names {
        StillNoMatch(p, q, m, slot, w, objects, key, info.valRefs[IndexOf(names, NsKeys())],
                     info.valRefs[IndexOf(names, NsObjects())]);
      }
    }
  }

  /** The dictionary found before the patch is found after it, at the same slot. */
  lemma DictStillMatches(p: RawBPlist, q: RawBPlist, m: nat, slot: nat, w: nat, objects: Info, key: Option<Value>, raw: nat,
                         found: Found)
    requires Patched(p, q, m, slot, w)
    requires TryDict(p, objects, key, raw) == Success(Some(found)) && found.keysRef != m && found.objectsRef == m
    ensures TryDict(q, objects, key, raw) == Success(Some(found.(objects := ObjectInfo(q, m).value)))
  {
    hide ObjectInfo, ResolvedValues, Values, NsKeys, NsObjects;
    var info := ObjectInfo(p, raw).value;
    SameValues(p, q, m, slot, w, info.keyRefs);
    SameResolvedValues(p, q, m, slot, w, ObjectInfo(p, found.keysRef).value.refs, objects);
  }

  lemma {:induction false} SearchStillFinds(p: RawBPlist, q: RawBPlist, m: nat, slot: nat, w: nat, objects: Info,
                                            key: Option<Value>, refs: seq<nat>, found: Found)
    requires Patched(p, q, m, slot, w)
    requires ResolvedValue(p, w, objects).Success? && ResolvedValue(p, w, objects).value != key
    requires FindDict(p, objects, key, refs) == Success(Some(found)) && found.keysRef != m && found.objectsRef == m
    ensures FindDict(q, objects, key, refs) == Success(Some(found.(objects := ObjectInfo(q, m).value)))
  {
    hide Patched, ResolvedValue, TryDict, ObjectInfo;
    var here := TryDict(p, objects, key, refs[0]).value;
    if here.Some? {
      DictStillMatches(p, q, m, slot, w, objects, key, refs[0], found);
    } else {
      DictStillNoMatch(p, q, m, slot, w, objects, key, refs[0]);
      SearchStillFinds(p, q, m, slot, w, objects, key, refs[1..], found);
    }
  }

  // ------------------------------------------------------------------- the theorems

  lemma {:induction false} FirstIntIs(p: RawBPlist, refs: seq<nat>, target: int, k: nat, at: nat)
    requires FirstInt(p, refs, target, k) == Success(Some(at))
    ensures k <= at < k + |refs| && ObjectInfo(p, refs[at - k]) == Success(Int(target))
  {
    hide ObjectInfo;
    if ObjectInfo(p, refs[0]) != Success(Int(target)) { FirstIntIs(p, refs[1..], target, k + 1, at); }
  }
  lemma {:induction false} FirstUidIs(p: RawBPlist, logical: nat, i: nat, at: nat)
    requires FirstUid(p, logical, i) == Success(Some(at))
    ensures at < p.numObjects && ObjectInfo(p, at) == Success(Uid(logical))
    decreases p.numObjects - i
  {
    hide ObjectInfo;
    if ObjectInfo(p, i) != Success(Uid(logical)) { FirstUidIs(p, logical, i + 1, at); }
  }

  /** The wrapper resolves to the target, before the patch and after it. */
  lemma WrapperReadsTarget(p: RawBPlist, objects: Info, target: int, w: nat)
    requires FindWrapper(p, objects, target) == Success(Some(w))
    ensures w < p.numObjects && ResolvedValue(p, w, objects) == Success(Some(IntValue(target)))
  {
    hide ObjectInfo, FirstInt, FirstUid;
    var logical := FirstInt(p, objects.refs, target, 0).value.value;
    FirstIntIs(p, objects.refs, target, 0, logical);
    FirstUidIs(p, logical, 0, w);
  }

  /** The parts of the site, as the searches returned them. */
  lemma SiteFacts(source: Bytes, target: int, s: Site)
    requires Locate(source, target) == Success(s)
    ensures Parse(source) == Success(s.p) && s.p.data == source
    ensures ObjectsRef(s.p) == Success(s.objectsRef) && ObjectInfo(s.p, s.objectsRef) == Success(s.objects)
    ensures s.objects.Array? && FindDict(s.p, s.objects, TargetKey(), s.objects.refs) == Success(Some(s.found))
    ensures FindWrapper(s.p, s.objects, target) == Success(Some(s.wrapper))
    ensures s.found.objects.Array?
  {
    hide ObjectsRef, ObjectInfo, FindDict, FindWrapper, ReadUint, Slice, TableOffsets;
  }

  lemma {:induction false} FoundFacts(p: RawBPlist, objects: Info, key: Option<Value>, refs: seq<nat>, found: Found)
    requires FindDict(p, objects, key, refs) == Success(Some(found))
    ensures ObjectInfo(p, found.objectsRef) == Success(found.objects)
    ensures ObjectInfo(p, found.keysRef).Success? && ObjectInfo(p, found.keysRef).value.Array?
    ensures var keys := ObjectInfo(p, found.keysRef).value.refs;
            var values := ResolvedValues(p, keys, objects);
            found.slot < |keys| && values.Success? && values.value[found.slot] == key
  {
    hide ObjectInfo, ResolvedValues, Values, NsKeys, NsObjects;
    if !TryDict(p, objects, key, refs[0]).value.Some? { FoundFacts(p, objects, key, refs[1..], found); }
  }

  /** The archive a keyed archiver writes: distinct key and value arrays, a value for the key's slot. */
  ghost predicate Paired(s: Site) {
    s.found.keysRef != s.found.objectsRef && s.found.objects.Array? && s.found.slot < |s.found.objects.refs|
  }

  lemma TargetKeyIsText(n: int)
    ensures TargetKey() != Some(IntValue(n))
  {}

  /** On a well-formed file the lookups before the write decide everything: the patch succeeds, the length and every
  byte outside one reference stay, that one reference becomes the wrapper, and every other object reads as before. */
  lemma PatchFrames(source: Bytes, target: int, s: Site)
    requires Locate(source, target) == Success(s) && WellFormed(s.p) && Paired(s)
    ensures var data := Overwritten(source, s);
            var q := s.p.(data := data);
            && PatchResult(source, target) == Success(data)
            && |data| == |source|
            && SameOutside(source, data, SlotOffset(s), SlotOffset(s) + s.p.refSize)
            && Parse(data) == Success(q)
            && Patched(s.p, q, s.found.objectsRef, s.found.slot, s.wrapper)
  {
    hide ObjectsRef, ObjectInfo, FindDict, FindWrapper, Parse, Assign, ToBytes, ResolvedValue, TargetKey, SameOutside,
         WellFormed, Patched, EqualsInt;
    var m, w := s.found.objectsRef, s.wrapper;
    SiteFacts(source, target, s);
    FoundFacts(s.p, s.objects, TargetKey(), s.objects.refs, s.found);
    WrapperReadsTarget(s.p, s.objects, target, w);
    assert w < Pow256(s.p.refSize) by { WrapperFits(s.p, w); }
    var data := Overwritten(source, s);
    OverwritePatches(s.p, m, s.found.objects, s.found.slot, w, SlotOffset(s), data);
    var q := s.p.(data := data);
    assert |data| == |source| by { SameLength(source, data, SlotOffset(s), SlotOffset(s) + s.p.refSize); }
    TargetKeyIsText(target);
    SearchStillFinds(s.p, q, m, s.found.slot, w, s.objects, TargetKey(), s.objects.refs, s.found);
    SlotHoldsWrapper(s.p, q, m, s.found.slot, w);
    SameResolved(s.p, q, m, s.found.slot, w, w, s.objects);
    ReadsTarget(target);
  }
  lemma WrapperFits(p: RawBPlist, w: nat)
    requires WellFormed(p) && w < p.numObjects
    ensures w < Pow256(p.refSize)
  {}
  lemma SlotHoldsWrapper(p: RawBPlist, q: RawBPlist, m: nat, slot: nat, w: nat)
    requires Patched(p, q, m, slot, w)
    ensures ObjectInfo(q, m).Success? && ObjectInfo(q, m).value.Array? && slot < |ObjectInfo(q, m).value.refs|
    ensures ObjectInfo(q, m).value.refs[slot] == w
  {}
  lemma ReadsTarget(n: int)
    ensures EqualsInt(Some(IntValue(n)), n)
  {}

  /** The setting a reader finds starting from nothing but the bytes. */
  function ReadSetting(data: Bytes): Result<Option<Value>> {
    var p :- Parse(data);
    var ref :- ObjectsRef(p);
    var objects :- ObjectInfo(p, ref);
    ReadBack(data, objects)
  }

  /** When the archive's objects array is not the array written to, the patched file read from scratch has the
  same objects array and yields the target. */
  lemma PatchedFileReadsTarget(source: Bytes, target: int, s: Site)
    requires Locate(source, target) == Success(s) && WellFormed(s.p) && Paired(s)
    requires s.objectsRef != s.found.objectsRef
    ensures PatchResult(source, target).Success?
    ensures ReadSetting(PatchResult(source, target).value) == Success(Some(IntValue(target)))
  {
    hide ObjectsRef, ObjectInfo, FindDict, FindWrapper, Parse, Assign, ToBytes, ResolvedValue, TargetKey, SameOutside,
         WellFormed, EqualsInt, PatchResult;
    PatchFrames(source, target, s);
    SiteFacts(source, target, s);
    var data := Overwritten(source, s);
    var q, m, w := s.p.(data := data), s.found.objectsRef, s.wrapper;
    WrapperReadsTarget(s.p, s.objects, target, w);
    SameObjectsRef(s.p, q, m, s.found.slot, w);
    FoundFacts(s.p, s.objects, TargetKey(), s.objects.refs, s.found);
    TargetKeyIsText(target);
    SearchStillFinds(s.p, q, m, s.found.slot, w, s.objects, TargetKey(), s.objects.refs, s.found);
    SlotHoldsWrapper(s.p, q, m, s.found.slot, w);
    SameResolved(s.p, q, m, s.found.slot, w, w, s.objects);
  }
  lemma SameObjectsRef(p: RawBPlist, q: RawBPlist, m: nat, slot: nat, w: nat)
    requires Patched(p, q, m, slot, w) && ObjectsRef(p).Success?
    ensures ObjectsRef(q) == ObjectsRef(p)
  {
    hide ObjectInfo, ObjectsKey, Values;
    SameValues(p, q, m, slot, w, ObjectInfo(p, p.topObject).value.keyRefs);
  }
}
