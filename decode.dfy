/** What the readers of `IODataView` and of the type descriptors produce from a frame,
    stated as functions of the bytes and the cursor position. A failed DataView access
    (a JavaScript RangeError) is `Err(RangeError)`. */
module Decode {
  import opened Wire
  import opened Descriptors
  import opened Handles

  datatype Decoded = Decoded(value: Value, next: int)
  datatype Many = Many(items: seq<Value>, next: int)
  datatype Chunk = Chunk(bytes: seq<byte>, next: int)
  datatype Entries = Entries(entries: map<seq<byte>, Value>, next: int)

  /** A DataView access of `width` bytes at `off` stays inside the buffer. */
  predicate Fits(bs: seq<byte>, off: int, width: nat)
  {
    0 <= off && off + width <= |bs|
  }

  /** Bytes left after the cursor: the measure that the recursive readers decrease. */
  function Rem(bs: seq<byte>, off: int): nat
  {
    if 0 <= off <= |bs| then |bs| - off else 0
  }

  /** The cursor stayed put, or moved forward without passing the end of the buffer. */
  predicate Advanced(bs: seq<byte>, off: int, next: int)
  {
    next == off || (0 <= off < next <= |bs|)
  }

  /** `getUint8` at `off`. */
  function ByteAt(bs: seq<byte>, off: int): (r: Result<int>)
    ensures r.Ok? <==> Fits(bs, off, 1)
    ensures r.Ok? ==> r.value == bs[off] as int
  {
    if Fits(bs, off, 1) then Ok(bs[off] as int) else Err(RangeError)
  }

  /** The value of a little-endian Int32 held in four bytes: two's complement. */
  function Int32Of(raw: seq<byte>): (r: int)
    requires |raw| == 4
    ensures IsInt32(r)
    ensures LittleEndian(raw) < TWO_31 ==> r == LittleEndian(raw)
  {
    LittleEndianBound(raw);
    Pow2Word();
    assert 8 * |raw| == WORD_BITS;
    ToInt32(LittleEndian(raw))
  }

  /** `getInt32` at `off`. */
  function Int32Field(bs: seq<byte>, off: int): (r: Result<int>)
    ensures r.Ok? <==> Fits(bs, off, 4)
    ensures r.Ok? ==> IsInt32(r.value) && r.value == Int32Of(bs[off..off + 4])
  {
    if Fits(bs, off, 4) then Ok(Int32Of(bs[off..off + 4])) else Err(RangeError)
  }

  /** A fixed-width read whose number is left uninterpreted (floats, 64-bit integers). */
  function RawAt(bs: seq<byte>, off: int, kind: RawKind, width: nat): (r: Result<Decoded>)
    ensures r.Ok? <==> Fits(bs, off, width)
    ensures r.Ok? ==> r.value == Decoded(VRaw(kind, bs[off..off + width]), off + width)
  {
    if Fits(bs, off, width) then Ok(Decoded(VRaw(kind, bs[off..off + width]), off + width))
    else Err(RangeError)
  }

  /** `readUInt8() != 0`. */
  function BoolAt(bs: seq<byte>, off: int): (r: Result<Decoded>)
    ensures r.Ok? <==> Fits(bs, off, 1)
    ensures r.Ok? ==> r.value == Decoded(VBool(bs[off] != 0), off + 1)
  {
    var u :- ByteAt(bs, off);
    Ok(Decoded(VBool(u != 0), off + 1))
  }

  /** `readInt32()`. */
  function Int32At(bs: seq<byte>, off: int): (r: Result<Decoded>)
    ensures r.Ok? <==> Fits(bs, off, 4)
    ensures r.Ok? ==> r.value == Decoded(VNum(Int32Of(bs[off..off + 4])), off + 4)
  {
    var n :- Int32Field(bs, off);
    Ok(Decoded(VNum(n), off + 4))
  }

  /** `n` widths `w` laid end to end, by repeated addition. */
  function Span(n: nat, w: nat): nat
  {
    if n == 0 then 0 else w + Span(n - 1, w)
  }

  lemma {:induction false} SpanIsProduct(n: nat, w: nat)
    ensures Span(n, w) == n * w
  {
    if n > 0 {
      SpanIsProduct(n - 1, w);
    }
  }

  /** Element types of the typed-array readers `readArrayUInt8/UInt32/Int32/Float32`. */
  datatype Elem = U8 | U32 | I32 | F32

  function ElemWidth(k: Elem): (w: nat)
    ensures w == 1 || w == 4
  {
    if k == U8 then 1 else 4
  }

  function ElemValue(k: Elem, raw: seq<byte>): Value
    requires |raw| == ElemWidth(k)
  {
    match k
    case U8 => VNum(LittleEndian(raw))
    case U32 => VNum(LittleEndian(raw))
    case I32 => VNum(Int32Of(raw))
    case F32 => VRaw(Float32Bits, raw)
  }

  function ElemAt(bs: seq<byte>, off: int, k: Elem): (r: Result<Value>)
    ensures r.Ok? <==> Fits(bs, off, ElemWidth(k))
  {
    if Fits(bs, off, ElemWidth(k)) then Ok(ElemValue(k, bs[off..off + ElemWidth(k)]))
    else Err(RangeError)
  }

  /** `n` elements read one after the other, stopping at the first failed access, which
      is a RangeError. */
  function ArrayAt(bs: seq<byte>, off: int, n: nat, k: Elem): (r: Result<seq<Value>>)
    ensures r.Ok? ==> |r.value| == n
    ensures r.Err? ==> r.fault == RangeError
    decreases n
  {
    if n == 0 then Ok([])
    else
      var x :- ElemAt(bs, off, k);
      var rest :- ArrayAt(bs, off + ElemWidth(k), n - 1, k);
      Ok([x] + rest)
  }

  /** Reading a typed array of `n` elements fails exactly when the `n * width` bytes
      from `off` leave the buffer. */
  lemma {:induction false} ArrayAtSucceeds(bs: seq<byte>, off: int, n: nat, k: Elem)
    ensures ArrayAt(bs, off, n, k).Ok? <==> n == 0 || Fits(bs, off, Span(n, ElemWidth(k)))
    ensures ArrayAt(bs, off, n, k).Ok? ==> |ArrayAt(bs, off, n, k).value| == n
    decreases n
  {
    var w := ElemWidth(k);
    if n > 0 {
      ArrayAtSucceeds(bs, off + w, n - 1, k);
    }
  }

  /** Element `i` of a typed array is the element stored at `off + i * width`. */
  lemma {:induction false} ArrayAtItem(bs: seq<byte>, off: int, n: nat, k: Elem, i: nat)
    requires i < n && ArrayAt(bs, off, n, k).Ok?
    ensures 0 <= off + Span(i, ElemWidth(k)) && off + Span(i + 1, ElemWidth(k)) <= |bs|
    ensures |ArrayAt(bs, off, n, k).value| == n
    ensures ArrayAt(bs, off, n, k).value[i]
      == ElemValue(k, bs[off + Span(i, ElemWidth(k))..off + Span(i + 1, ElemWidth(k))])
    decreases n
  {
    var w := ElemWidth(k);
    ArrayAtSucceeds(bs, off, n, k);
    if i > 0 {
      ArrayAtItem(bs, off + w, n - 1, k, i - 1);
    }
  }

  /** The length prefix of `readString`, byte by byte: the seven low bits of each byte,
      in the order read. Reading goes on while bit 0x80 is set; the byte without it
      ends the prefix. Returns the groups and the position of the first payload byte. */
  function PrefixGroups(bs: seq<byte>, off: int): (r: Result<(seq<int>, int)>)
    ensures r.Ok? ==> 0 <= off < r.value.1 <= |bs| && |r.value.0| == r.value.1 - off
    ensures r.Err? ==> r.fault == RangeError
    decreases Rem(bs, off)
  {
    if !Fits(bs, off, 1) then Err(RangeError)
    else
      var g := bs[off] as int % 128;
      if bs[off] < 128 then Ok(([g], off + 1))
      else
        var rest :- PrefixGroups(bs, off + 1);
        Ok(([g] + rest.0, rest.1))
  }

  /** The loop's `size = size | (g << shift)` for each group in turn, on JavaScript 32-bit
      integers, with `shift` growing by 7 after each group. Once a group has been ORed
      in, the length is a 32-bit integer, whatever the groups were. */
  function Accumulate(groups: seq<int>, size: int, shift: nat): (r: int)
    ensures groups != [] || IsInt32(size) ==> IsInt32(r)
  {
    if groups == [] then size
    else Accumulate(groups[1..], Or32(size, Shl32(groups[0], shift)), shift + 7)
  }

  /** `readString`: the payload bytes after the length prefix (UTF-8 decoding is left to
      the caller). A negative length or one past the buffer end is a RangeError. */
  function StringAt(bs: seq<byte>, off: int): (r: Result<Chunk>)
    ensures r.Ok? ==> 0 <= off < r.value.next <= |bs|
  {
    var prefix :- PrefixGroups(bs, off);
    var size := Accumulate(prefix.0, 0, 0);
    var p := prefix.1;
    if size < 0 || !Fits(bs, p, size) then Err(RangeError)
    else Ok(Chunk(bs[p..p + size], p + size))
  }

  /** `new THREE.Matrix4(...readArrayFloat32(16))`: sixteen Float32s. */
  function MatrixAt(bs: seq<byte>, off: int): (r: Result<Decoded>)
    ensures r.Ok? <==> Fits(bs, off, 64)
    ensures r.Ok? ==> r.value.next == off + 64 && r.value.value.VObject? && |r.value.value.args| == 16
  {
    assert Span(16, ElemWidth(F32)) == 64 by {
      SpanIsProduct(16, 4);
    }
    ArrayAtSucceeds(bs, off, 16, F32);
    var items :- ArrayAt(bs, off, 16, F32);
    Ok(Decoded(VObject("Matrix4", items), off + 64))
  }

  /** `readString()` as a value. */
  function StrAt(bs: seq<byte>, off: int): (r: Result<Decoded>)
    ensures r.Ok? <==> StringAt(bs, off).Ok?
    ensures r.Ok? ==> r.value == Decoded(VStr(StringAt(bs, off).value.bytes), StringAt(bs, off).value.next)
  {
    var c :- StringAt(bs, off);
    Ok(Decoded(VStr(c.bytes), c.next))
  }

  /** A table slot as the value a handle reader returns (`undefined` for a hole). */
  function SlotValue(s: Slot): Value
  {
    match s
    case Empty => VUndefined
    case Holds(o) => VRef(o)
  }

  /** `readArrayX(readInt32())`: a typed array refuses a negative length (RangeError). */
  function CountedArrayAt(bs: seq<byte>, off: int, k: Elem): (r: Result<Decoded>)
    ensures r.Ok? ==> Fits(bs, off, 4) && Advanced(bs, off, r.value.next)
  {
    var n :- Int32Field(bs, off);
    if n < 0 then Err(RangeError)
    else
      ArrayAtSucceeds(bs, off + 4, n, k);
      var items :- ArrayAt(bs, off + 4, n, k);
      Ok(Decoded(VList(items), off + 4 + Span(n, ElemWidth(k))))
  }

  /** The `read` lambda of every primitive descriptor except the recursive `Dict` and
      `Any`. `None` reads nothing; `UntypedObject` calls a method that does not exist. */
  function PrimAt(p: Prim, bs: seq<byte>, off: int, h: Snapshot): (r: Result<Decoded>)
    requires p != Dict && p != Any
    ensures r.Ok? ==> Advanced(bs, off, r.value.next)
  {
    match p
    case None => Ok(Decoded(VUndefined, off))
    case Bool => BoolAt(bs, off)
    case Int64 => RawAt(bs, off, Int64Bits, 8)
    case Int32 => Int32At(bs, off)
    case Float64 => RawAt(bs, off, Float64Bits, 8)
    case Float32 => RawAt(bs, off, Float32Bits, 4)
    case Matrix4x4 => MatrixAt(bs, off)
    case ArrayFloat32 => CountedArrayAt(bs, off, F32)
    case ArrayInt32 => CountedArrayAt(bs, off, I32)
    case ArrayUInt32 => CountedArrayAt(bs, off, U32)
    case Str => StrAt(bs, off)
    case Id =>
      var n :- Int32Field(bs, off);
      Ok(Decoded(SlotValue(Lookup(h.meshes, n)), off + 4))
    case MatId =>
      var n :- Int32Field(bs, off);
      Ok(Decoded(SlotValue(MaterialLookup(h.materials, n)), off + 4))
    case GUIId =>
      var n :- Int32Field(bs, off);
      Ok(Decoded(SlotValue(Lookup(h.guis, n)), off + 4))
    case UntypedObject => Err(TypeError)
  }

  /** `readType`: a `[T]` marker reads an Int32 count (a negative count gives an empty
      array, as `Array.from` does) and then that many `T`s; a composite reads its
      sub-descriptors in order and combines them; a primitive runs its reader. */
  function ReadType(d: Desc, bs: seq<byte>, off: int, h: Snapshot): (r: Result<Decoded>)
    ensures r.Ok? ==> Advanced(bs, off, r.value.next)
    decreases Rem(bs, off), Rank(d), 1
  {
    match d
    case SeqOf(e) =>
      var n :- Int32Field(bs, off);
      var m :- ReadSeq(e, bs, off + 4, if n < 0 then 0 else n, h);
      Ok(Decoded(VList(m.items), m.next))
    case Composite(_, subs, c) =>
      var m :- ReadAll(subs, bs, off, h);
      Ok(Decoded(Combine(c, m.items), m.next))
    case Primitive(p) => ReadPrim(p, bs, off, h)
  }

  /** The `read` lambda of a primitive descriptor. */
  function ReadPrim(p: Prim, bs: seq<byte>, off: int, h: Snapshot): (r: Result<Decoded>)
    ensures r.Ok? ==> Advanced(bs, off, r.value.next)
    decreases Rem(bs, off), 1, 0
  {
    if p == Any then ReadAny(bs, off, h)
    else if p == Dict then ReadDict(bs, off, h)
    else PrimAt(p, bs, off, h)
  }

  /** `n` values of descriptor `e`, one after the other. */
  function ReadSeq(e: Desc, bs: seq<byte>, off: int, n: nat, h: Snapshot): (r: Result<Many>)
    ensures r.Ok? ==> Advanced(bs, off, r.value.next) && |r.value.items| == n
    decreases Rem(bs, off), Rank(e), n + 2
  {
    if n == 0 then Ok(Many([], off))
    else
      var x :- ReadType(e, bs, off, h);
      var rest :- ReadSeq(e, bs, x.next, n - 1, h);
      Ok(Many([x.value] + rest.items, rest.next))
  }

  /** `subtypes.map(st => io.readType(st))`: each sub-descriptor in declared order. */
  function ReadAll(ds: seq<Desc>, bs: seq<byte>, off: int, h: Snapshot): (r: Result<Many>)
    ensures r.Ok? ==> Advanced(bs, off, r.value.next) && |r.value.items| == |ds|
    decreases Rem(bs, off), RankAll(ds), 0
  {
    if ds == [] then Ok(Many([], off))
    else
      var x :- ReadType(ds[0], bs, off, h);
      var rest :- ReadAll(ds[1..], bs, x.next, h);
      Ok(Many([x.value] + rest.items, rest.next))
  }

  /** `readAny`: a tag byte, then the payload for that tag. An unknown tag is only
      logged: the result is `undefined` and just the tag byte is consumed. */
  function ReadAny(bs: seq<byte>, off: int, h: Snapshot): (r: Result<Decoded>)
    ensures r.Ok? ==> 0 <= off < r.value.next <= |bs|
    decreases Rem(bs, off), 0, 0
  {
    var code :- ByteAt(bs, off);
    var p := off + 1;
    if code == 0 then BoolAt(bs, p)
    else if code == 1 then
      var u :- ByteAt(bs, p);
      Ok(Decoded(VNum(u), p + 1))
    else if code == 2 then Int32At(bs, p)
    else if code == 3 then RawAt(bs, p, Int64Bits, 8)
    else if code == 4 then RawAt(bs, p, Float32Bits, 4)
    else if code == 5 then RawAt(bs, p, Float64Bits, 8)
    else if code == 6 then StrAt(bs, p)
    else if code == 7 || code == 8 then ReadType(RGB, bs, p, h)
    else if code == 9 then ReadDict(bs, p, h)
    else Ok(Decoded(VUndefined, p))
  }

  /** `readDict`: an Int32 count (the loop runs zero times for a negative count), then
      that many string keys each followed by an `Any` value. */
  function ReadDict(bs: seq<byte>, off: int, h: Snapshot): (r: Result<Decoded>)
    ensures r.Ok? ==> 0 <= off < r.value.next <= |bs|
    decreases Rem(bs, off), 0, 0
  {
    var keys :- Int32Field(bs, off);
    var m :- ReadEntries(bs, off + 4, if keys < 0 then 0 else keys, map[], h);
    Ok(Decoded(VDict(m.entries), m.next))
  }

  /** The remaining `n` iterations of the `readDict` loop; `obj[key] = val` lets a later
      key overwrite an earlier one. */
  function ReadEntries(bs: seq<byte>, off: int, n: nat, acc: map<seq<byte>, Value>, h: Snapshot)
    : (r: Result<Entries>)
    requires 0 <= off <= |bs|
    ensures r.Ok? ==> off <= r.value.next <= |bs|
    decreases Rem(bs, off), 0, n
  {
    if n == 0 then Ok(Entries(acc, off))
    else
      var key :- StringAt(bs, off);
      var val :- ReadAny(bs, key.next, h);
      ReadEntries(bs, val.next, n - 1, acc[key.bytes := val.value], h)
  }

  /** One more key/value pair read by the `readDict` loop. */
  lemma EntriesStep(bs: seq<byte>, off: int, m: nat, acc: map<seq<byte>, Value>, h: Snapshot,
                    key: seq<byte>, mid: int, val: Value, next: int)
    requires 0 <= off <= |bs| && m > 0
    requires StringAt(bs, off) == Ok(Chunk(key, mid)) && ReadAny(bs, mid, h) == Ok(Decoded(val, next))
    ensures 0 <= next <= |bs|
    ensures ReadEntries(bs, off, m, acc, h) == ReadEntries(bs, next, m - 1, acc[key := val], h)
  {
  }

  /** A failed key or value read ends the `readDict` loop with its fault. */
  lemma EntriesStop(bs: seq<byte>, off: int, m: nat, acc: map<seq<byte>, Value>, h: Snapshot, f: Fault)
    requires 0 <= off <= |bs| && m > 0
    requires StringAt(bs, off) == Err(f) ||
      (StringAt(bs, off).Ok? && ReadAny(bs, StringAt(bs, off).value.next, h) == Err(f))
    ensures ReadEntries(bs, off, m, acc, h) == Err(f)
  {
  }
}
