/** The template patch: find the dictionary that holds the target key, find an object that wraps the target
integer, overwrite one reference, and re-parse to check. */
module PlistPatch {
  import opened Outcomes
  import opened PlistReader

  // --------------------------------------------------------------------- values

  /** What `.get("value")` can be, besides None. */
  datatype Value = BoolValue(flag: bool) | IntValue(number: int) | TextValue(chars: seq<int>)

  function ValueOf(info: Info): Option<Value> {
    match info
    case Bool(b) => Some(BoolValue(b))
    case Int(n) => Some(IntValue(n))
    case Uid(n) => Some(IntValue(n))
    case Str(c) => Some(TextValue(c))
    case _ => None
  }
  /** `got != target_int`, negated; Python's booleans compare as zero and one. */
  predicate EqualsInt(v: Option<Value>, n: int) {
    match v
    case Some(IntValue(m)) => m == n
    case Some(BoolValue(b)) => n == if b then 1 else 0
    case _ => false
  }

  function Text(s: string): Option<Value> { Some(TextValue(seq(|s|, i requires 0 <= i < |s| => s[i] as int))) }
  function NsKeys(): Option<Value> { Text("NS.keys") }
  function NsObjects(): Option<Value> { Text("NS.objects") }
  function ObjectsKey(): Option<Value> { Text("$objects") }
  function TargetKey(): Option<Value> { Text("gpuperformancestate") }

  function InfoValue(p: RawBPlist, ref: nat): Result<Option<Value>> {
    var info :- ObjectInfo(p, ref);
    Success(ValueOf(info))
  }
  /** `[bp.object_info(k).get("value") for k in refs]`. */
  function Values(p: RawBPlist, refs: seq<nat>): (r: Result<seq<Option<Value>>>)
    ensures r.Success? ==> |r.value| == |refs|
  {
    if refs == [] then Success([]) else
    var head :- InfoValue(p, refs[0]);
    var tail :- Values(p, refs[1..]);
    Success([head] + tail)
  }

  function RefsOf(info: Info): Result<seq<nat>> { if info.Array? then Success(info.refs) else Failure(KeyError) }

  /** `resolve`: one uid hop through the objects array, if there is one. */
  function Resolve(p: RawBPlist, ref: nat, objects: Info): Result<Info> {
    var info :- ObjectInfo(p, ref);
    if info.Uid? then
      var refs :- RefsOf(objects);
      if info.slot >= |refs| then Failure(IndexError) else ObjectInfo(p, refs[info.slot])
    else Success(info)
  }
  function ResolvedValue(p: RawBPlist, ref: nat, objects: Info): Result<Option<Value>> {
    var info :- Resolve(p, ref, objects);
    Success(ValueOf(info))
  }
  function ResolvedValues(p: RawBPlist, refs: seq<nat>, objects: Info): (r: Result<seq<Option<Value>>>)
    ensures r.Success? ==> |r.value| == |refs|
  {
    if refs == [] then Success([]) else
    var head :- ResolvedValue(p, refs[0], objects);
    var tail :- ResolvedValues(p, refs[1..], objects);
    Success([head] + tail)
  }

  function IndexOf<T(==)>(s: seq<T>, x: T): (i: nat)
    requires x in s
    ensures i < |s| && s[i] == x
  {
    if s[0] == x then 0 else 1 + IndexOf(s[1..], x)
  }

  // -------------------------------------------------------------------- searches

  /** The reference of the NS.keys array, that of the NS.objects entry with its info, and the slot. */
  datatype Found = Found(keysRef: nat, objectsRef: nat, objects: Info, slot: nat)

  /** One object of the search: the dictionary's two arrays, or None to go on. */
  function TryDict(p: RawBPlist, objects: Info, key: Option<Value>, raw: nat): Result<Option<Found>> {
    var info :- ObjectInfo(p, raw);
    if !info.Dict? then Success(None) else
    var names :- Values(p, info.keyRefs);
    if NsKeys() !in names || NsObjects() !in names then Success(None) else
    if |names| > |info.valRefs| then Failure(IndexError) else
    TryArrays(p, objects, key, info.valRefs[IndexOf(names, NsKeys())], info.valRefs[IndexOf(names, NsObjects())])
  }
  function TryArrays(p: RawBPlist, objects: Info, key: Option<Value>, keysRef: nat, objectsRef: nat): Result<Option<Found>> {
    var keys :- ObjectInfo(p, keysRef);
    if !keys.Array? then Success(None) else
    var values :- ResolvedValues(p, keys.refs, objects);
    if key !in values then Success(None) else
    var entries :- ObjectInfo(p, objectsRef);
    Success(Some(Found(keysRef, objectsRef, entries, IndexOf(values, key))))
  }
  function FindDict(p: RawBPlist, objects: Info, key: Option<Value>, refs: seq<nat>): Result<Option<Found>> {
    if refs == [] then Success(None) else
    var here :- TryDict(p, objects, key, refs[0]);
    if here.Some? then Success(here) else FindDict(p, objects, key, refs[1..])
  }

  /** The first logical object that is this int, and the first object that is a uid to it. */
  function FirstInt(p: RawBPlist, refs: seq<nat>, target: int, k: nat): Result<Option<nat>> {
    if refs == [] then Success(None) else
    var info :- ObjectInfo(p, refs[0]);
    if info == Int(target) then Success(Some(k)) else FirstInt(p, refs[1..], target, k + 1)
  }
  function FirstUid(p: RawBPlist, logical: nat, i: nat): Result<Option<nat>>
    decreases p.numObjects - i
  {
    if i >= p.numObjects then Success(None) else
    var info :- ObjectInfo(p, i);
    if info == Uid(logical) then Success(Some(i)) else FirstUid(p, logical, i + 1)
  }
  function FindWrapper(p: RawBPlist, objects: Info, target: int): Result<Option<nat>> {
    var refs :- RefsOf(objects);
    var logical :- FirstInt(p, refs, target, 0);
    if logical.None? then Success(None) else FirstUid(p, logical.value, 0)
  }

  /** `_find_dict_with_key`, an early-return scan. */
  method FindDictWithKey(p: RawBPlist, objects: Info, key: Option<Value>) returns (r: Result<Option<Found>>)
    ensures r == var refs := RefsOf(objects); if refs.Failure? then Failure(refs.error) else FindDict(p, objects, key, refs.value)
  {
    var refs :- RefsOf(objects);
    var i := 0;
    while i < |refs|
      invariant 0 <= i <= |refs| && FindDict(p, objects, key, refs) == FindDict(p, objects, key, refs[i..])
    {
      hide TryDict;
      var here :- TryDict(p, objects, key, refs[i]);
      if here.Some? {
        return Success(here);
      }
      i := i + 1;
    }
    r := Success(None);
  }

  /** `_find_uid_wrapper_for_int`, two scans with early exits. */
  method FindUidWrapperForInt(p: RawBPlist, objects: Info, target: int) returns (r: Result<Option<nat>>)
    ensures r == FindWrapper(p, objects, target)
  {
    var refs :- RefsOf(objects);
    var logical: Option<nat> := None;
    var k := 0;
    while k < |refs|
      invariant 0 <= k <= |refs| && logical.None?
      invariant FirstInt(p, refs, target, 0) == FirstInt(p, refs[k..], target, k)
    {
      hide ObjectInfo;
      var info :- ObjectInfo(p, refs[k]);
      if info == Int(target) {
        logical := Some(k);
        break;
      }
      k := k + 1;
    }
    if logical.None? {
      return Success(None);
    }
    var i := 0;
    while i < p.numObjects
      invariant 0 <= i <= p.numObjects
      invariant FirstUid(p, logical.value, 0) == FirstUid(p, logical.value, i)
    {
      hide ObjectInfo;
      var info :- ObjectInfo(p, i);
      if info == Uid(logical.value) {
        return Success(Some(i));
      }
      i := i + 1;
    }
    r := Success(None);
  }

  // ------------------------------------------------------------------- the patch

  /** The objects array of the archive, reached through the top object. */
  function ObjectsRef(p: RawBPlist): Result<nat> {
    var top :- ObjectInfo(p, p.topObject);
    if !top.Dict? then Failure(KeyError) else
    var keys :- Values(p, top.keyRefs);
    if ObjectsKey() !in keys then Failure(ValueError) else
    if |keys| > |top.valRefs| then Failure(IndexError) else Success(top.valRefs[IndexOf(keys, ObjectsKey())])
  }

  /** Everything looked up before the write. */
  datatype Site = Site(p: RawBPlist, objectsRef: nat, objects: Info, found: Found, wrapper: nat)

  function Locate(source: Bytes, target: int): Result<Site> {
    var p :- Parse(source);
    var objectsRef :- ObjectsRef(p);
    var objects :- ObjectInfo(p, objectsRef);
    var refs :- RefsOf(objects);
    var found :- FindDict(p, objects, TargetKey(), refs);
    if found.None? then Failure(ValueError) else
    var wrapper :- FindWrapper(p, objects, target);
    if wrapper.None? then Failure(ValueError) else
    if !found.value.objects.Array? then Failure(KeyError)
    else Success(Site(p, objectsRef, objects, found.value, wrapper.value))
  }

  /** `data[offset:offset + size] = bytes`. */
  function Assign(data: Bytes, offset: nat, size: nat, bytes: Bytes): Bytes {
    data[..Min(offset, |data|)] + bytes + data[Min(offset + size, |data|)..]
  }

  function SlotOffset(s: Site): nat
    requires s.found.objects.Array?
  { s.found.objects.refsOffset + s.found.slot * s.p.refSize }

  function Overwritten(source: Bytes, s: Site): Bytes
    requires s.found.objects.Array?
  { Assign(source, SlotOffset(s), s.p.refSize, ToBytes(s.wrapper, s.p.refSize)) }

  /** The re-parse: what the patched bytes read back at the slot, through the objects array parsed before. */
  function ReadBack(data: Bytes, objects: Info): Result<Option<Value>> {
    var check :- Parse(data);
    var refs :- RefsOf(objects);
    var found :- FindDict(check, objects, TargetKey(), refs);
    if found.None? then Failure(ValueError) else
    var entries :- RefsOf(found.value.objects);
    if found.value.slot >= |entries| then Failure(IndexError) else ResolvedValue(check, entries[found.value.slot], objects)
  }

  function PatchResult(source: Bytes, target: int): Result<Bytes> {
    var site :- Locate(source, target);
    if site.wrapper >= Pow256(site.p.refSize) then Failure(OverflowError) else
    if !site.found.objects.Array? then Failure(KeyError) else
    var data := Overwritten(source, site);
    var got :- ReadBack(data, site.objects);
    if EqualsInt(got, target) then Success(data) else Failure(ValueError)
  }

  /** `_patch`. */
  method Patch(source: Bytes, target: int) returns (r: Result<Bytes>)
    ensures r == PatchResult(source, target)
  {
    hide Parse, ObjectsRef, ObjectInfo, FindDict, FindWrapper, Assign, ToBytes, Pow256, Resolve, EqualsInt, ValueOf;
    var data := source;
    var bp :- Parse(data);
    var objectsRef :- ObjectsRef(bp);
    var objects :- ObjectInfo(bp, objectsRef);
    var found :- FindDictWithKey(bp, objects, TargetKey());
    if found.None? {
      return Failure(ValueError);
    }
    var entries := found.value.objects;
    var wrapper :- FindUidWrapperForInt(bp, objects, target);
    if wrapper.None? {
      return Failure(ValueError);
    }
    if !entries.Array? {
      return Failure(KeyError);
    }
    if wrapper.value >= Pow256(bp.refSize) {
      return Failure(OverflowError);
    }
    var offset := entries.refsOffset + found.value.slot * bp.refSize;
    data := Assign(data, offset, bp.refSize, ToBytes(wrapper.value, bp.refSize));
    var check :- Parse(data);
    var again :- FindDictWithKey(check, objects, TargetKey());
    if again.None? {
      return Failure(ValueError);
    }
    var refs :- RefsOf(again.value.objects);
    if again.value.slot >= |refs| {
      return Failure(IndexError);
    }
    var got :- Resolve(check, refs[again.value.slot], objects);
    if !EqualsInt(ValueOf(got), target) {
      return Failure(ValueError);
    }
    r := Success(data);
  }

  /** Equality with the target as the host language has it. */
  lemma EqualsIntMeans(v: Option<Value>, n: int)
    ensures EqualsInt(v, n)
       <==> v == Some(IntValue(n)) || (v == Some(BoolValue(true)) && n == 1) || (v == Some(BoolValue(false)) && n == 0)
  {}

  /** Whatever the bytes, a file that is returned reads back the target where the source held the setting. */
  lemma SuccessReadsTarget(source: Bytes, target: int)
    requires PatchResult(source, target).Success?
    ensures Locate(source, target).Success?
    ensures var got := ReadBack(PatchResult(source, target).value, Locate(source, target).value.objects);
            got.Success? && (got.value == Some(IntValue(target)) || (got.value == Some(BoolValue(true)) && target == 1)
                             || (got.value == Some(BoolValue(false)) && target == 0))
  {
    hide Locate, ReadBack;
    var s := Locate(source, target).value;
    EqualsIntMeans(ReadBack(Overwritten(source, s), s.objects).value, target);
  }
}
