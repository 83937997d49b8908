/** `_RawBPlist`: just enough of a binary property list reader to walk an object table.

Bytes are read with Python's slices, which stop silently at the end of the data; indexing past the end, an
undecodable string and an unknown marker raise. */
module PlistReader {
  import opened Outcomes

  type byte = b: int | 0 <= b < 256
  type Bytes = seq<byte>

  // --------------------------------------------------------------------- bytes

  function Min(a: nat, b: nat): nat { if a < b then a else b }

  /** `data[lo:hi]`. */
  function Slice(data: Bytes, lo: nat, hi: nat): Bytes {
    if Min(lo, |data|) <= Min(hi, |data|) then data[Min(lo, |data|)..Min(hi, |data|)] else []
  }
  /** `int.from_bytes(s, "big")`. */
  function FromBytes(s: Bytes): nat {
    if s == [] then 0 else FromBytes(s[..|s| - 1]) * 256 + s[|s| - 1]
  }
  function Pow256(n: nat): (r: nat)
    ensures r >= 1
  { if n == 0 then 1 else 256 * Pow256(n - 1) }
  /** `n.to_bytes(size, "big")` for a value that fits. */
  function ToBytes(n: nat, size: nat): (s: Bytes)
    ensures |s| == size
  {
    if size == 0 then [] else ToBytes(n / 256, size - 1) + [n % 256]
  }
  lemma {:induction false} FromToBytes(n: nat, size: nat)
    requires n < Pow256(size)
    ensures FromBytes(ToBytes(n, size)) == n
  {
    if size > 0 { FromToBytes(n / 256, size - 1); }
  }

  /** `int.from_bytes(s, "big", signed=True)`. */
  function FromSignedBytes(s: Bytes): int {
    if s != [] && s[0] >= 128 then FromBytes(s) - Pow256(|s|) else FromBytes(s)
  }
  function Shift(n: nat): (r: nat)
    ensures r >= 1
  { if n == 0 then 1 else 2 * Shift(n - 1) }

  function ReadUint(data: Bytes, offset: nat, size: nat): nat { FromBytes(Slice(data, offset, offset + size)) }

  // ------------------------------------------------------------------- decoding

  function DecodeAscii(s: Bytes): Result<seq<int>> {
    if exists i :: 0 <= i < |s| && s[i] >= 128 then Failure(DecodeError) else Success(s)
  }
  /** Strict UTF-16, big endian: surrogates must come in pairs. */
  function DecodeUtf16(s: Bytes): Result<seq<int>> {
    if s == [] then Success([])
    else if |s| == 1 then Failure(DecodeError)
    else
      var unit: int := (s[0] as int) * 256 + s[1] as int;
      if 0xDC00 <= unit < 0xE000 then Failure(DecodeError)
      else if 0xD800 <= unit < 0xDC00 then
        if |s| < 4 then Failure(DecodeError)
        else
          var low: int := (s[2] as int) * 256 + s[3] as int;
          if !(0xDC00 <= low < 0xE000) then Failure(DecodeError)
          else
            var rest :- DecodeUtf16(s[4..]);
            Success([0x1_0000 + (unit - 0xD800) * 0x400 + (low - 0xDC00)] + rest)
      else
        var rest :- DecodeUtf16(s[2..]);
        Success([unit] + rest)
  }

  // -------------------------------------------------------------------- the table

  datatype RawBPlist = RawBPlist(data: Bytes, offsetIntSize: nat, refSize: nat, numObjects: nat, topObject: nat,
                                 offsetTable: nat, offsets: seq<nat>)

  const MAGIC: Bytes := [0x62, 0x70, 0x6c, 0x69, 0x73, 0x74, 0x30, 0x30]

  function TableOffsets(data: Bytes, table: nat, size: nat, count: nat): seq<nat> {
    seq(count, i requires 0 <= i < count => ReadUint(data, table + i * size, size))
  }

  /** The constructor: header, 32-byte trailer, offset table. */
  function Parse(data: Bytes): Result<RawBPlist> {
    if Slice(data, 0, 8) != MAGIC then Failure(ValueError)
    else if |data| < 32 then Failure(StructError)
    else
      var t := |data| - 32;
      var size, refSize := data[t + 6], data[t + 7];
      var count, top, table := ReadUint(data, t + 8, 8), ReadUint(data, t + 16, 8), ReadUint(data, t + 24, 8);
      Success(RawBPlist(data, size, refSize, count, top, table, TableOffsets(data, table, size, count)))
  }

  // -------------------------------------------------------------------- objects

  datatype Info =
    | Null | Bool(flag: bool) | Int(number: int) | Opaque | Str(chars: seq<int>) | Uid(slot: nat)
    | Array(refsOffset: nat, refs: seq<nat>)
    | Dict(keyRefs: seq<nat>, valRefs: seq<nat>)

  /** `_read_len`: (count, header length). */
  function ReadLen(data: Bytes, offset: nat, nibble: nat): Result<(nat, nat)> {
    if nibble != 0xF then Success((nibble, 1))
    else if offset + 1 >= |data| then Failure(IndexError)
    else
      var width := Shift(data[offset + 1] % 16);
      Success((ReadUint(data, offset + 2, width), 2 + width))
  }

  function ReadRefs(data: Bytes, offset: nat, count: nat, refSize: nat): (r: seq<nat>)
    ensures |r| == count
  {
    seq(count, i requires 0 <= i < count => ReadUint(data, offset + i * refSize, refSize))
  }

  predicate HasLength(kind: nat) { kind == 5 || kind == 6 || kind == 10 || kind == 13 }

  /** The kinds with a count: strings, arrays and dicts, whose payload starts at `start`. */
  function SizedInfo(data: Bytes, kind: nat, start: nat, count: nat, refSize: nat): Result<Info>
    requires HasLength(kind)
  {
    if kind == 5 then
      var chars :- DecodeAscii(Slice(data, start, start + count));
      Success(Str(chars))
    else if kind == 6 then
      var chars :- DecodeUtf16(Slice(data, start, start + count * 2));
      Success(Str(chars))
    else if kind == 10 then Success(Array(start, ReadRefs(data, start, count, refSize)))
    else Success(Dict(ReadRefs(data, start, count, refSize), ReadRefs(data, start + count * refSize, count, refSize)))
  }

  function IntAt(data: Bytes, offset: nat, width: nat): int {
    var raw := Slice(data, offset, offset + width);
    if width >= 8 then FromSignedBytes(raw) else FromBytes(raw)
  }

  /** `object_info` on the object that starts at `offset`. */
  function InfoAt(data: Bytes, refSize: nat, offset: nat): Result<Info> {
    if offset >= |data| then Failure(IndexError) else
    var marker := data[offset];
    var kind, nibble := marker / 16, marker % 16;
    if kind == 0 then Success(if marker == 0x08 then Bool(false) else if marker == 0x09 then Bool(true) else Null)
    else if kind == 1 then Success(Int(IntAt(data, offset + 1, Shift(nibble))))
    else if kind == 2 || kind == 3 || kind == 4 then Success(Opaque)
    else if kind == 8 then Success(Uid(ReadUint(data, offset + 1, nibble + 1)))
    else if HasLength(kind) then
      var (count, header) :- ReadLen(data, offset, nibble);
      SizedInfo(data, kind, offset + header, count, refSize)
    else Failure(ValueError)
  }
  function ObjectInfo(p: RawBPlist, index: nat): Result<Info> {
    if index >= |p.offsets| then Failure(IndexError) else InfoAt(p.data, p.refSize, p.offsets[index])
  }

  /** When reading an object raises, short of an undecodable string. */
  lemma ObjectErrors(data: Bytes, refSize: nat, offset: nat)
    ensures offset >= |data| ==> InfoAt(data, refSize, offset) == Failure(IndexError)
    ensures offset < |data| && data[offset] / 16 in {7, 9, 11, 12, 14, 15} ==> InfoAt(data, refSize, offset) == Failure(ValueError)
    ensures offset < |data| && data[offset] in {0x5F, 0x6F, 0xAF, 0xDF} && offset + 1 >= |data| ==>
              InfoAt(data, refSize, offset) == Failure(IndexError)
    ensures offset < |data| && data[offset] / 16 in {0, 1, 2, 3, 4, 8} ==> InfoAt(data, refSize, offset).Success?
  {}

  /** What is not a property list at all. */
  lemma ParseErrors(data: Bytes)
    ensures !(MAGIC <= data) ==> Parse(data) == Failure(ValueError)
    ensures MAGIC <= data && |data| < 32 ==> Parse(data) == Failure(StructError)
    ensures MAGIC <= data && |data| >= 32 ==> Parse(data).Success?
  {}

  /** Bytes the payload of a length-prefixed kind takes. */
  function Payload(kind: nat, count: nat, refSize: nat): nat {
    if kind == 5 then count else if kind == 6 then count * 2 else if kind == 10 then count * refSize
    else count * refSize + count * refSize
  }

  /** One past the last byte `object_info` looks at. */
  function ExtentEnd(data: Bytes, refSize: nat, offset: nat): nat {
    if offset >= |data| then offset else
    var kind, nibble := data[offset] / 16, data[offset] % 16;
    if kind == 1 then offset + 1 + Shift(nibble)
    else if kind == 8 then offset + 1 + nibble + 1
    else if HasLength(kind) then
      match ReadLen(data, offset, nibble)
      case Success((count, header)) => offset + header + Payload(kind, count, refSize)
      case Failure(_) => offset + 2
    else offset + 1
  }

  // ---------------------------------------------------------------------- framing

  /** Same length, and the same bytes from `lo` up to `hi`. */
  ghost predicate Agree(a: Bytes, b: Bytes, lo: nat, hi: nat) {
    |a| == |b| && forall x :: lo <= x < hi && x < |a| ==> a[x] == b[x]
  }

  lemma SliceAgrees(a: Bytes, b: Bytes, lo: nat, hi: nat)
    requires Agree(a, b, lo, hi)
    ensures Slice(a, lo, hi) == Slice(b, lo, hi)
  {}
  lemma UintAgrees(a: Bytes, b: Bytes, offset: nat, size: nat)
    requires Agree(a, b, offset, offset + size)
    ensures ReadUint(a, offset, size) == ReadUint(b, offset, size)
  {
    SliceAgrees(a, b, offset, offset + size);
  }
  lemma RefAgrees(a: Bytes, b: Bytes, offset: nat, i: nat, count: nat, refSize: nat)
    requires i < count && Agree(a, b, offset, offset + count * refSize)
    ensures ReadUint(a, offset + i * refSize, refSize) == ReadUint(b, offset + i * refSize, refSize)
  {
    hide ReadUint;
    SlotInside(i, count, refSize);
    UintAgrees(a, b, offset + i * refSize, refSize);
  }
  lemma RefsAgree(a: Bytes, b: Bytes, offset: nat, count: nat, refSize: nat)
    requires Agree(a, b, offset, offset + count * refSize)
    ensures ReadRefs(a, offset, count, refSize) == ReadRefs(b, offset, count, refSize)
  {
    hide ReadUint, Agree;
    forall i | 0 <= i < count
      ensures ReadRefs(a, offset, count, refSize)[i] == ReadRefs(b, offset, count, refSize)[i]
    {
      RefAgrees(a, b, offset, i, count, refSize);
    }
  }
  lemma SlotInside(i: nat, count: nat, size: nat)
    requires i < count
    ensures i * size + size <= count * size
  {
    assert (count - i - 1) * size >= 0;
    assert count * size == i * size + size + (count - i - 1) * size;
  }

  lemma LenAgrees(a: Bytes, b: Bytes, offset: nat, nibble: nat, end: nat)
    requires Agree(a, b, offset, end) && nibble < 16
    requires nibble == 0xF ==> offset + 2 <= end
    requires ReadLen(a, offset, nibble).Success? ==> offset + ReadLen(a, offset, nibble).value.1 <= end
    ensures ReadLen(a, offset, nibble) == ReadLen(b, offset, nibble)
  {
    if nibble == 0xF && offset + 1 < |a| {
      var width := Shift(a[offset + 1] % 16);
      UintAgrees(a, b, offset + 2, width);
    }
  }

  lemma Narrow(a: Bytes, b: Bytes, lo: nat, hi: nat, from: nat, to: nat)
    requires Agree(a, b, lo, hi) && lo <= from && to <= hi
    ensures Agree(a, b, from, to)
  {}

  lemma ExtentOfSized(data: Bytes, refSize: nat, offset: nat)
    requires offset < |data| && HasLength(data[offset] / 16)
    ensures var length := ReadLen(data, offset, data[offset] % 16);
            && (length.Success? ==> ExtentEnd(data, refSize, offset)
                                    == offset + length.value.1 + Payload(data[offset] / 16, length.value.0, refSize))
            && (data[offset] % 16 == 0xF ==> ExtentEnd(data, refSize, offset) >= offset + 2)
  {}

  lemma SizedAgrees(a: Bytes, b: Bytes, kind: nat, start: nat, count: nat, refSize: nat)
    requires HasLength(kind) && Agree(a, b, start, start + Payload(kind, count, refSize))
    ensures SizedInfo(a, kind, start, count, refSize) == SizedInfo(b, kind, start, count, refSize)
  {
    hide Agree, Slice, ReadUint, ReadRefs, DecodeAscii, DecodeUtf16;
    var half := count * refSize;
    if kind == 5 { SliceAgrees(a, b, start, start + count); }
    if kind == 6 { SliceAgrees(a, b, start, start + count * 2); }
    if kind == 10 { RefsAgree(a, b, start, count, refSize); }
    if kind == 13 {
      Narrow(a, b, start, start + (half + half), start, start + half);
      Narrow(a, b, start, start + (half + half), start + half, start + half + half);
      RefsAgree(a, b, start, count, refSize);
      RefsAgree(a, b, start + half, count, refSize);
    }
  }

  lemma InfoOfSized(data: Bytes, refSize: nat, offset: nat)
    requires offset < |data| && HasLength(data[offset] / 16)
    ensures InfoAt(data, refSize, offset)
         == var length := ReadLen(data, offset, data[offset] % 16);
            if length.Failure? then Failure(length.error)
            else SizedInfo(data, data[offset] / 16, offset + length.value.1, length.value.0, refSize)
  {
    hide SizedInfo, ReadLen;
  }

  lemma SizedReadsExtent(a: Bytes, b: Bytes, refSize: nat, offset: nat, kind: nat, nibble: nat, end: nat)
    requires offset < |a| && offset < |b| && a[offset] == b[offset]
    requires kind == a[offset] / 16 && nibble == a[offset] % 16 && HasLength(kind)
    requires end == ExtentEnd(a, refSize, offset) && Agree(a, b, offset, end)
    ensures InfoAt(a, refSize, offset) == InfoAt(b, refSize, offset)
  {
    hide ExtentEnd, SizedInfo, Agree, ReadLen, Payload, InfoAt, HasLength;
    ExtentOfSized(a, refSize, offset);
    InfoOfSized(a, refSize, offset);
    InfoOfSized(b, refSize, offset);
    var length := ReadLen(a, offset, nibble);
    LenAgrees(a, b, offset, nibble, end);
    if length.Success? {
      var (count, header) := length.value;
      Narrow(a, b, offset, end, offset + header, end);
      SizedAgrees(a, b, kind, offset + header, count, refSize);
    }
  }

  /** `object_info` depends on nothing outside the object's extent. */
  lemma InfoReadsExtent(a: Bytes, b: Bytes, refSize: nat, offset: nat)
    requires offset < |a| && Agree(a, b, offset, ExtentEnd(a, refSize, offset))
    ensures InfoAt(a, refSize, offset) == InfoAt(b, refSize, offset)
  {
    SameMarker(a, b, refSize, offset);
    var kind, nibble := a[offset] / 16, a[offset] % 16;
    hide ReadLen, Payload, SizedInfo;
    if HasLength(kind) {
      SizedReadsExtent(a, b, refSize, offset, kind, nibble, ExtentEnd(a, refSize, offset));
    } else if kind == 1 {
      SliceAgrees(a, b, offset + 1, offset + 1 + Shift(nibble));
    } else if kind == 8 {
      UintAgrees(a, b, offset + 1, nibble + 1);
    }
  }
  lemma SameMarker(a: Bytes, b: Bytes, refSize: nat, offset: nat)
    requires offset < |a| && Agree(a, b, offset, ExtentEnd(a, refSize, offset))
    ensures ExtentEnd(a, refSize, offset) > offset && offset < |b| && a[offset] == b[offset]
  {}
}
