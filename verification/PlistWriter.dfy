/** A writer of binary property lists, stated apart from the reader, and the round trip through the reader: every
object, in every length form and reference size, and the whole file. */
module PlistWriter {
  import opened Outcomes
  import opened Sums
  import opened PlistReader

  // --------------------------------------------------------------------- objects

  /** How a count is written: in the marker, or as an integer object of 2^k bytes. */
  datatype Form = Short | Long(k: nat)

  datatype Node =
    | NullNode
    | BoolNode(flag: bool)
    | IntNode(number: int, k: nat)
    | OpaqueNode(marker: byte, body: Bytes)
    | AsciiNode(chars: seq<int>, form: Form)
    | Utf16Node(chars: seq<int>, form: Form)
    | UidNode(slot: nat, width: nat)
    | ArrayNode(refs: seq<nat>, form: Form)
    | DictNode(keys: seq<nat>, vals: seq<nat>, form: Form)

  predicate CountFits(count: nat, form: Form) {
    match form
    case Short => count < 15
    case Long(k) => k < 16 && count < Pow256(Shift(k))
  }
  function Head(kind: nat, count: nat, form: Form): (s: Bytes)
    requires kind < 16 && CountFits(count, form)
    ensures |s| >= 1
  {
    match form
    case Short => [kind * 16 + count]
    case Long(k) => [kind * 16 + 15, 0x10 + k] + ToBytes(count, Shift(k))
  }

  /** References and offsets, big endian, one after the other. */
  function Refs(refs: seq<nat>, size: nat): (s: Bytes)
    ensures |s| == |refs| * size
  {
    if refs == [] then [] else Refs(refs[..|refs| - 1], size) + ToBytes(refs[|refs| - 1], size)
  }
  predicate RefsFit(refs: seq<nat>, size: nat) { forall i :: 0 <= i < |refs| ==> refs[i] < Pow256(size) }

  predicate IsAscii(chars: seq<int>) { forall i :: 0 <= i < |chars| ==> 0 <= chars[i] < 128 }
  function AsciiBytes(chars: seq<int>): (s: Bytes)
    requires IsAscii(chars)
    ensures |s| == |chars|
  { seq(|chars|, i requires 0 <= i < |chars| => chars[i]) }

  /** Unicode scalar values. */
  predicate IsScalar(c: int) { 0 <= c < 0xD800 || 0xE000 <= c < 0x11_0000 }
  predicate AreScalars(chars: seq<int>) { forall i :: 0 <= i < |chars| ==> IsScalar(chars[i]) }
  function Utf16Char(c: int): Bytes
    requires IsScalar(c)
  {
    if c < 0x1_0000 then [c / 256, c % 256]
    else
      var high, low := 0xD800 + (c - 0x1_0000) / 0x400, 0xDC00 + (c - 0x1_0000) % 0x400;
      [high / 256, high % 256, low / 256, low % 256]
  }
  function Utf16Bytes(chars: seq<int>): Bytes
    requires AreScalars(chars)
  {
    if chars == [] then [] else Utf16Char(chars[0]) + Utf16Bytes(chars[1..])
  }

  /** Eight bytes and more hold two's complement, fewer hold unsigned numbers. */
  predicate IntFits(n: int, width: nat) {
    if width >= 8 then -(Pow256(width) as int) <= 2 * n < Pow256(width) else 0 <= n < Pow256(width)
  }

  predicate Writable(n: Node, refSize: nat) {
    match n
    case NullNode | BoolNode(_) => true
    case IntNode(number, k) => k < 16 && IntFits(number, Shift(k))
    case OpaqueNode(marker, _) => 2 <= marker / 16 <= 4
    case AsciiNode(chars, form) => IsAscii(chars) && CountFits(|chars|, form)
    case Utf16Node(chars, form) => AreScalars(chars) && CountFits(|Utf16Bytes(chars)| / 2, form)
    case UidNode(slot, width) => 1 <= width <= 16 && slot < Pow256(width)
    case ArrayNode(refs, form) => RefsFit(refs, refSize) && CountFits(|refs|, form)
    case DictNode(keys, vals, form) => |keys| == |vals| && RefsFit(keys, refSize) && RefsFit(vals, refSize) && CountFits(|keys|, form)
  }
  function Written(n: Node, refSize: nat): (s: Bytes)
    requires Writable(n, refSize)
    ensures |s| >= 1
  {
    match n
    case NullNode => [0]
    case BoolNode(flag) => [if flag then 9 else 8]
    case IntNode(number, k) => [0x10 + k] + ToBytes(if number < 0 then number + Pow256(Shift(k)) else number, Shift(k))
    case OpaqueNode(marker, body) => [marker] + body
    case AsciiNode(chars, form) => Head(5, |chars|, form) + AsciiBytes(chars)
    case Utf16Node(chars, form) => Head(6, |Utf16Bytes(chars)| / 2, form) + Utf16Bytes(chars)
    case UidNode(slot, width) => [0x80 + width - 1] + ToBytes(slot, width)
    case ArrayNode(refs, form) => Head(10, |refs|, form) + Refs(refs, refSize)
    case DictNode(keys, vals, form) => Head(13, |keys|, form) + Refs(keys, refSize) + Refs(vals, refSize)
  }

  /** What a reader should make of an object written at `offset`. */
  function Meant(n: Node, offset: nat): Info {
    match n
    case NullNode => Null
    case BoolNode(flag) => Bool(flag)
    case IntNode(number, _) => Int(number)
    case OpaqueNode(_, _) => Opaque
    case AsciiNode(chars, _) => Str(chars)
    case Utf16Node(chars, _) => Str(chars)
    case UidNode(slot, _) => Uid(slot)
    case ArrayNode(refs, form) => Array(offset + (if form.Short? then 1 else 2 + Shift(form.k)), refs)
    case DictNode(keys, vals, _) => Dict(keys, vals)
  }

  // ----------------------------------------------------------------- reading bytes back

  /** `s` stands in `data` at `offset`. */
  ghost predicate At(data: Bytes, offset: nat, s: Bytes) {
    offset + |s| <= |data| && data[offset..offset + |s|] == s
  }
  lemma AtParts(data: Bytes, offset: nat, s: Bytes, t: Bytes)
    requires At(data, offset, s + t)
    ensures At(data, offset, s) && At(data, offset + |s|, t)
  {
    assert (s + t)[..|s|] == s && (s + t)[|s|..] == t;
  }
  lemma AtSlice(data: Bytes, offset: nat, s: Bytes)
    requires At(data, offset, s)
    ensures Slice(data, offset, offset + |s|) == s
  {}
  lemma AtByte(data: Bytes, offset: nat, s: Bytes)
    requires At(data, offset, s) && |s| >= 1
    ensures offset < |data| && data[offset] == s[0]
  {}
  lemma NumberReads(data: Bytes, offset: nat, n: nat, size: nat)
    requires At(data, offset, ToBytes(n, size)) && n < Pow256(size)
    ensures ReadUint(data, offset, size) == n
  {
    AtSlice(data, offset, ToBytes(n, size));
    FromToBytes(n, size);
  }

  lemma {:induction false} RefReads(data: Bytes, offset: nat, refs: seq<nat>, size: nat, i: nat)
    requires At(data, offset, Refs(refs, size)) && RefsFit(refs, size) && i < |refs|
    ensures ReadUint(data, offset + i * size, size) == refs[i]
  {
    var init, last := refs[..|refs| - 1], refs[|refs| - 1];
    AtParts(data, offset, Refs(init, size), ToBytes(last, size));
    if i == |refs| - 1 {
      NumberReads(data, offset + i * size, last, size);
    } else {
      RefReads(data, offset, init, size, i);
    }
  }
  lemma RefsRead(data: Bytes, offset: nat, refs: seq<nat>, size: nat)
    requires At(data, offset, Refs(refs, size)) && RefsFit(refs, size)
    ensures ReadRefs(data, offset, |refs|, size) == refs
    ensures TableOffsets(data, offset, size, |refs|) == refs
  {
    hide ReadUint, At, RefsFit, Refs;
    forall i | 0 <= i < |refs|
      ensures ReadRefs(data, offset, |refs|, size)[i] == refs[i] && TableOffsets(data, offset, size, |refs|)[i] == refs[i]
    {
      RefReads(data, offset, refs, size, i);
    }
  }

  lemma HeadReads(data: Bytes, offset: nat, kind: nat, count: nat, form: Form)
    requires kind < 16 && CountFits(count, form) && At(data, offset, Head(kind, count, form))
    ensures offset < |data| && data[offset] / 16 == kind
    ensures |Head(kind, count, form)| == if form.Short? then 1 else 2 + Shift(form.k)
    ensures ReadLen(data, offset, data[offset] % 16) == Success((count, |Head(kind, count, form)|))
  {
    AtByte(data, offset, Head(kind, count, form));
    if form.Long? { LongHeadReads(data, offset, kind, count, form.k); }
  }
  lemma LongHeadReads(data: Bytes, offset: nat, kind: nat, count: nat, k: nat)
    requires kind < 16 && CountFits(count, Long(k)) && At(data, offset, Head(kind, count, Long(k)))
    ensures offset < |data| && data[offset] == kind * 16 + 15
    ensures ReadLen(data, offset, 15) == Success((count, 2 + Shift(k)))
  {
    hide Shift, Pow256, ToBytes, ReadUint, At;
    var head, tail: Bytes := [kind * 16 + 15, 0x10 + k], ToBytes(count, Shift(k));
    AtParts(data, offset, head, tail);
    HeadBytes(data, offset, head);
    NumberReads(data, offset + 2, count, Shift(k));
  }
  lemma HeadBytes(data: Bytes, offset: nat, head: Bytes)
    requires |head| == 2 && At(data, offset, head)
    ensures offset + 1 < |data| && data[offset] == head[0] && data[offset + 1] == head[1]
  {
    assert data[offset..offset + 2][1] == head[1];
  }

  // ------------------------------------------------------------------------ strings

  lemma AsciiReads(chars: seq<int>)
    requires IsAscii(chars)
    ensures DecodeAscii(AsciiBytes(chars)) == Success(chars)
  {
    var s: seq<int> := AsciiBytes(chars);
    assert s == chars;
  }
  lemma UnitReads(a: byte, b: byte, rest: Bytes, chars: seq<int>)
    requires var unit := (a as int) * 256 + b as int; !(0xD800 <= unit < 0xE000)
    requires DecodeUtf16(rest) == Success(chars)
    ensures DecodeUtf16([a, b] + rest) == Success([(a as int) * 256 + b as int] + chars)
  {
    hide DecodeUtf16;
    var s := [a, b] + rest;
    assert |s| >= 2 && s[2..] == rest && s[0] == a && s[1] == b;
    OneUnit(s);
  }
  lemma OneUnit(s: Bytes)
    requires |s| >= 2 && !(0xD800 <= (s[0] as int) * 256 + s[1] as int < 0xE000) && DecodeUtf16(s[2..]).Success?
    ensures DecodeUtf16(s) == Success([(s[0] as int) * 256 + s[1] as int] + DecodeUtf16(s[2..]).value)
  {}
  lemma PairReads(a: byte, b: byte, c: byte, d: byte, high: int, low: int, rest: Bytes, chars: seq<int>)
    requires high == (a as int) * 256 + b as int && low == (c as int) * 256 + d as int
    requires 0xD800 <= high < 0xDC00 && 0xDC00 <= low < 0xE000
    requires DecodeUtf16(rest) == Success(chars)
    ensures DecodeUtf16([a, b, c, d] + rest) == Success([0x1_0000 + (high - 0xD800) * 0x400 + (low - 0xDC00)] + chars)
  {
    var s := [a, b, c, d] + rest;
    assert s[4..] == rest && s[0] == a && s[1] == b && s[2] == c && s[3] == d;
  }
  lemma Utf16CharReads(c: int, rest: Bytes, chars: seq<int>)
    requires IsScalar(c) && DecodeUtf16(rest) == Success(chars)
    ensures DecodeUtf16(Utf16Char(c) + rest) == Success([c] + chars)
    ensures |Utf16Char(c)| % 2 == 0
  {
    hide DecodeUtf16;
    if c < 0x1_0000 {
      UnitReads(c / 256, c % 256, rest, chars);
    } else {
      var high, low := 0xD800 + (c - 0x1_0000) / 0x400, 0xDC00 + (c - 0x1_0000) % 0x400;
      PairReads(high / 256, high % 256, low / 256, low % 256, high, low, rest, chars);
    }
  }
  lemma {:induction false} Utf16Reads(chars: seq<int>)
    requires AreScalars(chars)
    ensures DecodeUtf16(Utf16Bytes(chars)) == Success(chars)
    ensures |Utf16Bytes(chars)| % 2 == 0
  {
    hide DecodeUtf16, Utf16Char, IsScalar, Utf16Bytes;
    if chars == [] {
      NoText();
    } else {
      TextStep(chars);
      Utf16Reads(chars[1..]);
      Utf16CharReads(chars[0], Utf16Bytes(chars[1..]), chars[1..]);
      assert [chars[0]] + chars[1..] == chars;
    }
  }
  lemma NoText()
    ensures AreScalars([]) && Utf16Bytes([]) == [] && DecodeUtf16([]) == Success([])
  {}
  lemma TextStep(chars: seq<int>)
    requires AreScalars(chars) && chars != []
    ensures AreScalars(chars[1..]) && IsScalar(chars[0])
    ensures Utf16Bytes(chars) == Utf16Char(chars[0]) + Utf16Bytes(chars[1..])
  {}

  /** Decoding succeeds exactly on what the writer writes. */
  lemma AsciiExactly(s: Bytes, chars: seq<int>)
    ensures DecodeAscii(s) == Success(chars) <==> IsAscii(chars) && AsciiBytes(chars) == s
  {
    if DecodeAscii(s).Success? {
      var same: seq<int> := s;
      assert IsAscii(same) && AsciiBytes(same) == s;
    }
    if IsAscii(chars) { AsciiReads(chars); }
  }
  lemma {:induction false} Utf16Exactly(s: Bytes, chars: seq<int>)
    requires DecodeUtf16(s) == Success(chars)
    ensures AreScalars(chars) && Utf16Bytes(chars) == s
    decreases |s|
  {
    if s != [] {
      var unit: int := (s[0] as int) * 256 + s[1] as int;
      var n := if 0xD800 <= unit < 0xDC00 then 4 else 2;
      UnitTaken(s, chars);
      Utf16Exactly(s[n..], chars[1..]);
      hide DecodeUtf16;
      assert s == s[..n] + s[n..];
    }
  }
  lemma UnitTaken(s: Bytes, chars: seq<int>)
    requires s != [] && DecodeUtf16(s) == Success(chars)
    ensures |s| >= 2 && chars != [] && IsScalar(chars[0])
    ensures var n := if 0xD800 <= (s[0] as int) * 256 + s[1] as int < 0xDC00 then 4 else 2;
            |s| >= n && s[..n] == Utf16Char(chars[0]) && DecodeUtf16(s[n..]) == Success(chars[1..])
  {
    hide Utf16Char, DecodeUtf16, IsScalar;
    FirstTaken(s, chars);
    var unit: int := (s[0] as int) * 256 + s[1] as int;
    if 0xD800 <= unit < 0xDC00 {
      CharOfPair(s[0], s[1], s[2], s[3]);
      assert s[..4] == [s[0], s[1], s[2], s[3]];
    } else {
      CharOfUnit(s[0], s[1]);
      assert s[..2] == [s[0], s[1]];
    }
  }
  /** What decoding takes off the front. */
  lemma FirstTaken(s: Bytes, chars: seq<int>)
    requires s != [] && DecodeUtf16(s) == Success(chars)
    ensures |s| >= 2 && chars != []
    ensures var unit: int := (s[0] as int) * 256 + s[1] as int;
            if 0xD800 <= unit < 0xDC00 then
              |s| >= 4 && DecodeUtf16(s[4..]) == Success(chars[1..])
              && var low: int := (s[2] as int) * 256 + s[3] as int;
                 0xDC00 <= low < 0xE000 && chars[0] == 0x1_0000 + (unit - 0xD800) * 0x400 + (low - 0xDC00)
            else !(0xDC00 <= unit < 0xE000) && chars[0] == unit && DecodeUtf16(s[2..]) == Success(chars[1..])
  {}
  lemma CharOfUnit(a: byte, b: byte)
    requires var unit: int := (a as int) * 256 + b as int; !(0xD800 <= unit < 0xE000)
    ensures IsScalar((a as int) * 256 + b as int) && Utf16Char((a as int) * 256 + b as int) == [a, b]
  {}
  lemma CharOfPair(a: byte, b: byte, c: byte, d: byte)
    requires var high: int := (a as int) * 256 + b as int; 0xD800 <= high < 0xDC00
    requires var low: int := (c as int) * 256 + d as int; 0xDC00 <= low < 0xE000
    ensures var high: int, low: int := (a as int) * 256 + b as int, (c as int) * 256 + d as int;
            var scalar := 0x1_0000 + (high - 0xD800) * 0x400 + (low - 0xDC00);
            IsScalar(scalar) && Utf16Char(scalar) == [a, b, c, d]
  {
    var high: int, low: int := (a as int) * 256 + b as int, (c as int) * 256 + d as int;
    var rest := (high - 0xD800) * 0x400 + (low - 0xDC00);
    assert rest / 0x400 == high - 0xD800 && rest % 0x400 == low - 0xDC00;
  }

  // ------------------------------------------------------------------------ integers

  lemma {:induction false} TopBit(n: nat, size: nat)
    requires size >= 1 && n < Pow256(size)
    ensures ToBytes(n, size)[0] >= 128 <==> 2 * n >= Pow256(size)
  {
    if size == 1 {
      assert ToBytes(n, 1) == [n % 256];
    } else {
      TopBit(n / 256, size - 1);
      PowerIsEven(size - 1);
      hide ToBytes;
      ToBytesFirst(n, size);
      HalfStep(n, Pow256(size - 1));
    }
  }
  lemma ToBytesFirst(n: nat, size: nat)
    requires size >= 2
    ensures ToBytes(n, size)[0] == ToBytes(n / 256, size - 1)[0]
  {}
  lemma PowerIsEven(n: nat)
    requires n >= 1
    ensures Pow256(n) % 2 == 0
  {}
  lemma HalfStep(n: nat, p: nat)
    requires p % 2 == 0
    ensures 2 * (n / 256) >= p <==> 2 * n >= 256 * p
  {}
  lemma IntReads(data: Bytes, offset: nat, number: int, width: nat)
    requires width >= 1 && IntFits(number, width)
    requires At(data, offset, ToBytes(if number < 0 then number + Pow256(width) else number, width))
    ensures IntAt(data, offset, width) == number
  {
    var raw := if number < 0 then number + Pow256(width) else number;
    hide ToBytes, FromBytes, Pow256, At, Slice;
    AtSlice(data, offset, ToBytes(raw, width));
    FromToBytes(raw, width);
    TopBit(raw, width);
  }

  // ------------------------------------------------------------------------- objects

  lemma SizedReads(data: Bytes, refSize: nat, offset: nat, kind: nat, count: nat, form: Form, payload: Bytes, info: Info)
    requires HasLength(kind) && CountFits(count, form) && |payload| == Payload(kind, count, refSize)
    requires At(data, offset, Head(kind, count, form) + payload)
    requires At(data, offset + |Head(kind, count, form)|, payload) ==>
               SizedInfo(data, kind, offset + |Head(kind, count, form)|, count, refSize) == Success(info)
    ensures InfoAt(data, refSize, offset) == Success(info)
    ensures ExtentEnd(data, refSize, offset) == offset + |Head(kind, count, form)| + |payload|
  {
    hide InfoAt, ExtentEnd, SizedInfo, Head, At, ReadLen, Payload, CountFits;
    AtParts(data, offset, Head(kind, count, form), payload);
    HeadReads(data, offset, kind, count, form);
    InfoOfSized(data, refSize, offset);
    ExtentOfSized(data, refSize, offset);
  }

  lemma TextReads(data: Bytes, refSize: nat, offset: nat, n: Node)
    requires n.AsciiNode? || n.Utf16Node?
    requires Writable(n, refSize) && At(data, offset, Written(n, refSize))
    ensures InfoAt(data, refSize, offset) == Success(Str(n.chars))
    ensures ExtentEnd(data, refSize, offset) == offset + |Written(n, refSize)|
  {
    hide InfoAt, ExtentEnd, Head, At, DecodeAscii, DecodeUtf16, Slice, CountFits, Utf16Bytes, AsciiBytes;
    if n.AsciiNode? {
      var payload := AsciiBytes(n.chars);
      AsciiReads(n.chars);
      var start := offset + |Head(5, |n.chars|, n.form)|;
      if At(data, start, payload) { AtSlice(data, start, payload); }
      SizedReads(data, refSize, offset, 5, |n.chars|, n.form, payload, Str(n.chars));
    } else {
      var payload := Utf16Bytes(n.chars);
      Utf16Reads(n.chars);
      var start := offset + |Head(6, |payload| / 2, n.form)|;
      if At(data, start, payload) { AtSlice(data, start, payload); }
      SizedReads(data, refSize, offset, 6, |payload| / 2, n.form, payload, Str(n.chars));
    }
  }

  lemma ArrayReads(data: Bytes, refSize: nat, offset: nat, n: Node)
    requires n.ArrayNode? && Writable(n, refSize) && At(data, offset, Written(n, refSize))
    ensures InfoAt(data, refSize, offset) == Success(Meant(n, offset))
    ensures ExtentEnd(data, refSize, offset) == offset + |Written(n, refSize)|
  {
    hide InfoAt, ExtentEnd, At, ReadRefs, RefsFit, Refs, CountFits, Shift, ToBytes;
    var payload := Refs(n.refs, refSize);
    var start := offset + |Head(10, |n.refs|, n.form)|;
    if At(data, start, payload) { RefsRead(data, start, n.refs, refSize); }
    SizedReads(data, refSize, offset, 10, |n.refs|, n.form, payload, Meant(n, offset));
  }

  lemma DictReads(data: Bytes, refSize: nat, offset: nat, n: Node)
    requires n.DictNode? && Writable(n, refSize) && At(data, offset, Written(n, refSize))
    ensures InfoAt(data, refSize, offset) == Success(Dict(n.keys, n.vals))
    ensures ExtentEnd(data, refSize, offset) == offset + |Written(n, refSize)|
  {
    hide InfoAt, ExtentEnd, Head, At, ReadRefs, RefsFit, Refs, CountFits;
    var keys, vals := Refs(n.keys, refSize), Refs(n.vals, refSize);
    var head := Head(13, |n.keys|, n.form);
    var start := offset + |head|;
    assert head + keys + vals == head + (keys + vals);
    if At(data, start, keys + vals) {
      AtParts(data, start, keys, vals);
      RefsRead(data, start, n.keys, refSize);
      RefsRead(data, start + |n.keys| * refSize, n.vals, refSize);
    }
    SizedReads(data, refSize, offset, 13, |n.keys|, n.form, keys + vals, Dict(n.keys, n.vals));
  }

  lemma PlainReads(data: Bytes, refSize: nat, offset: nat, n: Node)
    requires n.NullNode? || n.BoolNode? || n.OpaqueNode?
    requires Writable(n, refSize) && At(data, offset, Written(n, refSize))
    ensures InfoAt(data, refSize, offset) == Success(Meant(n, offset))
    ensures offset < ExtentEnd(data, refSize, offset) <= offset + |Written(n, refSize)|
  {
    AtByte(data, offset, Written(n, refSize));
  }
  lemma NumberObjectReads(data: Bytes, refSize: nat, offset: nat, n: Node)
    requires n.IntNode? && Writable(n, refSize) && At(data, offset, Written(n, refSize))
    ensures InfoAt(data, refSize, offset) == Success(Int(n.number))
    ensures ExtentEnd(data, refSize, offset) == offset + |Written(n, refSize)|
  {
    hide At, ToBytes, IntFits, Pow256, Shift, IntAt;
    IntIsWritable(n.number, Shift(n.k));
    var raw := if n.number < 0 then n.number + Pow256(Shift(n.k)) else n.number;
    var marker: Bytes := [0x10 + n.k];
    AtParts(data, offset, marker, ToBytes(raw, Shift(n.k)));
    AtByte(data, offset, marker);
    IntReads(data, offset + 1, n.number, Shift(n.k));
  }
  lemma UidReads(data: Bytes, refSize: nat, offset: nat, n: Node)
    requires n.UidNode? && Writable(n, refSize) && At(data, offset, Written(n, refSize))
    ensures InfoAt(data, refSize, offset) == Success(Uid(n.slot))
    ensures ExtentEnd(data, refSize, offset) == offset + |Written(n, refSize)|
  {
    hide At, ToBytes, Pow256, ReadUint;
    var marker: Bytes := [0x80 + n.width - 1];
    AtParts(data, offset, marker, ToBytes(n.slot, n.width));
    AtByte(data, offset, marker);
    NumberReads(data, offset + 1, n.slot, n.width);
  }
  lemma IntIsWritable(n: int, width: nat)
    requires IntFits(n, width)
    ensures n < 0 ==> n + Pow256(width) >= 0
  {}

  /** The reader makes of every written object, at any offset, exactly what was meant, and looks at no byte after it. */
  lemma ObjectReads(data: Bytes, refSize: nat, offset: nat, n: Node)
    requires Writable(n, refSize) && At(data, offset, Written(n, refSize))
    ensures InfoAt(data, refSize, offset) == Success(Meant(n, offset))
    ensures offset < ExtentEnd(data, refSize, offset) <= offset + |Written(n, refSize)|
  {
    hide InfoAt, ExtentEnd, Writable, Written, At;
    match n
    case AsciiNode(_, _) => TextReads(data, refSize, offset, n);
    case Utf16Node(_, _) => TextReads(data, refSize, offset, n);
    case ArrayNode(_, _) => ArrayReads(data, refSize, offset, n);
    case DictNode(_, _, _) => DictReads(data, refSize, offset, n);
    case IntNode(_, _) => NumberObjectReads(data, refSize, offset, n);
    case UidNode(_, _) => UidReads(data, refSize, offset, n);
    case _ => PlainReads(data, refSize, offset, n);
  }

  // ---------------------------------------------------------------------- whole files

  /** The objects of a file, the widths it uses and its top object. */
  datatype Archive = Archive(nodes: seq<Node>, refSize: nat, offsetSize: nat, top: nat)

  predicate AllWritable(nodes: seq<Node>, refSize: nat) { forall i :: 0 <= i < |nodes| ==> Writable(nodes[i], refSize) }

  function Body(nodes: seq<Node>, refSize: nat): Bytes
    requires AllWritable(nodes, refSize)
  {
    if nodes == [] then [] else Body(nodes[..|nodes| - 1], refSize) + Written(nodes[|nodes| - 1], refSize)
  }
  function OffsetOf(nodes: seq<Node>, refSize: nat, i: nat): nat
    requires AllWritable(nodes, refSize) && i <= |nodes|
  { 8 + |Body(nodes[..i], refSize)| }
  function OffsetsOf(nodes: seq<Node>, refSize: nat): seq<nat>
    requires AllWritable(nodes, refSize)
  { seq(|nodes|, i requires 0 <= i < |nodes| => OffsetOf(nodes, refSize, i)) }

  predicate ArchiveFits(a: Archive) {
    && AllWritable(a.nodes, a.refSize)
    && a.refSize < 256 && a.offsetSize < 256 && |a.nodes| <= Pow256(a.refSize)
    && RefsFit(OffsetsOf(a.nodes, a.refSize), a.offsetSize)
    && |a.nodes| < Pow256(8) && a.top < |a.nodes| && 8 + |Body(a.nodes, a.refSize)| < Pow256(8)
  }
  function Tail(a: Archive): (s: Bytes)
    requires ArchiveFits(a)
    ensures |s| == 32
  {
    [0, 0, 0, 0, 0, 0, a.offsetSize, a.refSize]
      + ToBytes(|a.nodes|, 8) + ToBytes(a.top, 8) + ToBytes(8 + |Body(a.nodes, a.refSize)|, 8)
  }
  /** Header, objects, offset table, trailer. */
  function File(a: Archive): Bytes
    requires ArchiveFits(a)
  {
    MAGIC + Body(a.nodes, a.refSize) + Refs(OffsetsOf(a.nodes, a.refSize), a.offsetSize) + Tail(a)
  }
  /** What the constructor should find. */
  function Parsed(a: Archive): RawBPlist
    requires ArchiveFits(a)
  {
    RawBPlist(File(a), a.offsetSize, a.refSize, |a.nodes|, a.top, 8 + |Body(a.nodes, a.refSize)|, OffsetsOf(a.nodes, a.refSize))
  }

  lemma {:induction false} BodyHolds(nodes: seq<Node>, refSize: nat, i: nat)
    requires AllWritable(nodes, refSize) && i < |nodes|
    ensures At(Body(nodes, refSize), |Body(nodes[..i], refSize)|, Written(nodes[i], refSize))
    ensures Body(nodes[..i + 1], refSize) == Body(nodes[..i], refSize) + Written(nodes[i], refSize)
  {
    hide At, Body, Written, Writable;
    var init, last := nodes[..|nodes| - 1], nodes[|nodes| - 1];
    BodyStep(nodes, refSize);
    if i < |nodes| - 1 {
      BodyHolds(init, refSize, i);
      assert init[..i] == nodes[..i] && init[..i + 1] == nodes[..i + 1];
      AtPrefix(Body(init, refSize), Written(last, refSize), |Body(nodes[..i], refSize)|, Written(nodes[i], refSize));
    } else {
      assert nodes[..i + 1] == nodes && init == nodes[..i];
      AtSuffix(Body(init, refSize), Written(last, refSize));
    }
  }
  lemma BodyStep(nodes: seq<Node>, refSize: nat)
    requires AllWritable(nodes, refSize) && nodes != []
    ensures Body(nodes, refSize) == Body(nodes[..|nodes| - 1], refSize) + Written(nodes[|nodes| - 1], refSize)
  {}
  lemma AtPrefix(data: Bytes, more: Bytes, offset: nat, s: Bytes)
    requires At(data, offset, s)
    ensures At(data + more, offset, s)
  {}
  lemma AtSuffix(data: Bytes, s: Bytes)
    ensures At(data + s, |data|, s)
  {}
  lemma AtWithin(data: Bytes, offset: nat, whole: Bytes, inner: nat, part: Bytes)
    requires At(data, offset, whole) && At(whole, inner, part)
    ensures At(data, offset + inner, part)
  {
    forall k | 0 <= k < |part| ensures data[offset + inner + k] == part[k] {
      assert data[offset..offset + |whole|][inner + k] == whole[inner..inner + |part|][k];
    }
  }

  lemma FileOf(a: Archive)
    requires ArchiveFits(a)
    ensures AllWritable(a.nodes, a.refSize)
    ensures |MAGIC| == 8 && |Tail(a)| == 32
    ensures File(a) == MAGIC + Body(a.nodes, a.refSize) + Refs(OffsetsOf(a.nodes, a.refSize), a.offsetSize) + Tail(a)
  {
    hide Body, Tail, Refs, Writable, OffsetsOf;
  }

  /** The parts of a file stand where they should. */
  lemma FileParts(a: Archive)
    requires ArchiveFits(a)
    ensures var body, table := Body(a.nodes, a.refSize), Refs(OffsetsOf(a.nodes, a.refSize), a.offsetSize);
            && |File(a)| == 8 + |body| + |table| + 32 && |MAGIC| == 8 && |Tail(a)| == 32
            && At(File(a), 0, MAGIC) && At(File(a), 8, body) && At(File(a), 8 + |body|, table)
            && At(File(a), |File(a)| - 32, Tail(a))
  {
    hide *;
    FileOf(a);
    InFour(File(a), MAGIC, Body(a.nodes, a.refSize), Refs(OffsetsOf(a.nodes, a.refSize), a.offsetSize), Tail(a));
  }
  lemma InFour(data: Bytes, a: Bytes, b: Bytes, c: Bytes, d: Bytes)
    requires data == a + b + c + d
    ensures At(data, 0, a) && At(data, |a|, b) && At(data, |a| + |b|, c) && At(data, |a| + |b| + |c|, d)
    ensures |data| == |a| + |b| + |c| + |d|
  {
    WholeIsAt(data);
    hide At;
    FourAt(data, 0, a, b, c, d);
  }
  lemma FourAt(data: Bytes, t: nat, a: Bytes, b: Bytes, c: Bytes, d: Bytes)
    requires At(data, t, a + b + c + d)
    ensures At(data, t, a) && At(data, t + |a|, b) && At(data, t + |a| + |b|, c) && At(data, t + |a| + |b| + |c|, d)
  {
    hide At;
    AtParts(data, t, a + b + c, d);
    AtParts(data, t, a + b, c);
    AtParts(data, t, a, b);
  }
  lemma WholeIsAt(data: Bytes)
    ensures At(data, 0, data)
  {}

  lemma TailReads(data: Bytes, t: nat, a: Archive)
    requires ArchiveFits(a) && At(data, t, Tail(a))
    ensures t + 32 <= |data| && data[t + 6] == a.offsetSize && data[t + 7] == a.refSize
    ensures ReadUint(data, t + 8, 8) == |a.nodes| && ReadUint(data, t + 16, 8) == a.top
    ensures ReadUint(data, t + 24, 8) == 8 + |Body(a.nodes, a.refSize)|
  {
    var sizes: Bytes := [0, 0, 0, 0, 0, 0, a.offsetSize, a.refSize];
    var table := 8 + |Body(a.nodes, a.refSize)|;
    assert |a.nodes| < Pow256(8) && a.top < Pow256(8) && table < Pow256(8);
    assert Tail(a) == sizes + ToBytes(|a.nodes|, 8) + ToBytes(a.top, 8) + ToBytes(table, 8);
    hide *;
    NumbersRead(data, t, sizes, |a.nodes|, a.top, table);
  }
  lemma NumbersRead(data: Bytes, t: nat, sizes: Bytes, count: nat, top: nat, table: nat)
    requires |sizes| == 8 && count < Pow256(8) && top < Pow256(8) && table < Pow256(8)
    requires At(data, t, sizes + ToBytes(count, 8) + ToBytes(top, 8) + ToBytes(table, 8))
    ensures t + 32 <= |data| && data[t + 6] == sizes[6] && data[t + 7] == sizes[7]
    ensures ReadUint(data, t + 8, 8) == count && ReadUint(data, t + 16, 8) == top && ReadUint(data, t + 24, 8) == table
  {
    hide *;
    FourAt(data, t, sizes, ToBytes(count, 8), ToBytes(top, 8), ToBytes(table, 8));
    NumberReads(data, t + 8, count, 8);
    NumberReads(data, t + 16, top, 8);
    NumberReads(data, t + 24, table, 8);
    SizeBytes(data, t, sizes);
    AtEnds(data, t + 24, ToBytes(table, 8));
  }
  lemma AtEnds(data: Bytes, t: nat, s: Bytes)
    requires At(data, t, s)
    ensures t + |s| <= |data|
  {}
  lemma SizeBytes(data: Bytes, t: nat, sizes: Bytes)
    requires |sizes| == 8 && At(data, t, sizes)
    ensures t + 8 <= |data| && data[t + 6] == sizes[6] && data[t + 7] == sizes[7]
  {
    assert data[t..t + 8][6] == sizes[6] && data[t..t + 8][7] == sizes[7];
  }

  /** The constructor finds what was written. */
  lemma FileParses(a: Archive)
    requires ArchiveFits(a)
    ensures Parse(File(a)) == Success(Parsed(a))
  {
    hide *;
    var p := Parsed(a);
    ParsedFields(a, p);
    FileParts(a);
    TailReads(p.data, |p.data| - 32, a);
    AtSlice(p.data, 0, MAGIC);
    RefsRead(p.data, p.offsetTable, p.offsets, a.offsetSize);
    ParseOf(p);
  }
  lemma ParsedFields(a: Archive, p: RawBPlist)
    requires ArchiveFits(a) && p == Parsed(a)
    ensures AllWritable(a.nodes, a.refSize) && p.data == File(a) && p.offsetIntSize == a.offsetSize && p.refSize == a.refSize
    ensures p.numObjects == |a.nodes| == |p.offsets| && p.topObject == a.top
    ensures p.offsetTable == 8 + |Body(a.nodes, a.refSize)| && p.offsets == OffsetsOf(a.nodes, a.refSize)
    ensures RefsFit(p.offsets, a.offsetSize)
  {
    hide File, Body, OffsetOf, RefsFit, Pow256, Writable, AllWritable;
  }
  lemma ParseOf(p: RawBPlist)
    requires |p.data| >= 32 && Slice(p.data, 0, 8) == MAGIC
    requires var t := |p.data| - 32;
             && p.data[t + 6] == p.offsetIntSize && p.data[t + 7] == p.refSize && ReadUint(p.data, t + 8, 8) == p.numObjects
             && ReadUint(p.data, t + 16, 8) == p.topObject && ReadUint(p.data, t + 24, 8) == p.offsetTable
    requires p.offsets == TableOffsets(p.data, p.offsetTable, p.offsetIntSize, p.numObjects)
    ensures Parse(p.data) == Success(p)
  {
    hide Slice, ReadUint, TableOffsets;
  }

  lemma NodeStands(a: Archive, i: nat)
    requires ArchiveFits(a) && i < |a.nodes|
    ensures AllWritable(a.nodes, a.refSize) && Writable(a.nodes[i], a.refSize)
    ensures At(File(a), OffsetOf(a.nodes, a.refSize, i), Written(a.nodes[i], a.refSize))
  {
    FileParts(a);
    BodyHolds(a.nodes, a.refSize, i);
    hide File, Tail, At, Body, Refs, Written, Writable;
    AtWithin(File(a), 8, Body(a.nodes, a.refSize), |Body(a.nodes[..i], a.refSize)|, Written(a.nodes[i], a.refSize));
  }

  /** Every object of a written file reads as it was meant. */
  lemma FileObjects(a: Archive, i: nat)
    requires ArchiveFits(a) && i < |a.nodes|
    ensures ObjectInfo(Parsed(a), i) == Success(Meant(a.nodes[i], OffsetOf(a.nodes, a.refSize, i)))
    ensures var offset := OffsetOf(a.nodes, a.refSize, i);
            8 <= offset < ExtentEnd(File(a), a.refSize, offset) <= OffsetOf(a.nodes, a.refSize, i + 1)
  {
    NodeStands(a, i);
    BodyHolds(a.nodes, a.refSize, i);
    hide File, Tail, At, Body, Refs, InfoAt, ExtentEnd, Written, Writable;
    ObjectReads(File(a), a.refSize, OffsetOf(a.nodes, a.refSize, i), a.nodes[i]);
  }
}
