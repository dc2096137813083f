/** Properties of the writers: what `writeInt32` stores reads back (wrapped to 32 bits),
    sequences of Int32 and Bool values round-trip through `writeType`/`readType`, and a
    written handle resolves, through the table it was added to, to the written object. */
module EncodeProperties {
  import opened Wire
  import opened Descriptors
  import opened Handles
  import opened Decode
  import opened Encode

  /** `bs` holds `e` from position `off` on. */
  predicate At(bs: seq<byte>, off: int, e: seq<byte>)
  {
    0 <= off && off + |e| <= |bs| && forall i :: 0 <= i < |e| ==> bs[off + i] == e[i]
  }

  lemma AtSlice(bs: seq<byte>, off: int, e: seq<byte>)
    requires At(bs, off, e)
    ensures bs[off..off + |e|] == e
  {
    forall i | 0 <= i < |e|
      ensures bs[off..off + |e|][i] == e[i]
    {
      assert bs[off..off + |e|][i] == bs[off + i];
    }
  }

  lemma AtSplit(bs: seq<byte>, off: int, a: seq<byte>, b: seq<byte>)
    requires At(bs, off, a + b)
    ensures At(bs, off, a) && At(bs, off + |a|, b)
  {
    forall i | 0 <= i < |a|
      ensures bs[off + i] == a[i]
    {
      assert bs[off + i] == (a + b)[i];
    }
    forall i | 0 <= i < |b|
      ensures bs[off + |a| + i] == b[i]
    {
      assert bs[off + (|a| + i)] == (a + b)[|a| + i];
    }
  }

  lemma StoreAt(buf: seq<byte>, off: int, e: seq<byte>)
    requires 0 <= off && off + |e| <= |buf|
    ensures At(Store(buf, off, e), off, e)
  {
    var r := Store(buf, off, e);
    forall i | 0 <= i < |e|
      ensures r[off + i] == e[i]
    {
      assert r[off + i] == r[off..off + |e|][i];
    }
  }

  /** Two stores side by side are one store of the concatenation. */
  lemma StoreStore(buf: seq<byte>, off: int, a: seq<byte>, b: seq<byte>)
    requires 0 <= off && off + |a| + |b| <= |buf|
    ensures Store(Store(buf, off, a), off + |a|, b) == Store(buf, off, a + b)
  {
    var s := Store(buf, off, a);
    assert s[..off + |a|] == buf[..off] + a by {
      assert s[..off + |a|] == s[..off] + s[off..off + |a|];
    }
    assert s[off + |a| + |b|..] == buf[off + |a| + |b|..] by {
      assert s[off + |a| + |b|..] == s[off + |a|..][|b|..];
      assert buf[off + |a| + |b|..] == buf[off + |a|..][|b|..];
    }
  }

  /** The Int32 read back from what `setInt32` stored is the value wrapped to 32 bits. */
  lemma Int32BytesRead(n: int)
    ensures Int32Of(Int32Bytes(n)) == ToInt32(n)
  {
    var u := ToUint32(n);
    Pow2Word();
    assert 8 * 4 == WORD_BITS;
    LittleEndianRoundTrip(u, 4);
    assert ToInt32(u) == ToInt32(n);
  }

  /** `writeInt32(v)` then `readInt32()` at the same position returns `ToInt32(v)`:
      the value itself for a 32-bit integer, and it moves both cursors by four. */
  lemma Int32WriteRead(v: Value, buf: seq<byte>, off: int, h: Snapshot)
    requires Fits(buf, off, 4) && NumberOf(v).Ok?
    ensures var w := WriteType(Primitive(Int32), v, Out(buf, off, h));
      w.status.Ok? && w.out.off == off + 4 && w.out.tables == h &&
      ReadType(Primitive(Int32), w.out.buf, off, h) == Ok(Decoded(VNum(ToInt32(NumberOf(v).value)), off + 4))
  {
    var n := NumberOf(v).value;
    StoredInt32Reads(buf, off, n);
  }

  /** The Int32 field that `setInt32` stored at `off` reads back wrapped to 32 bits. */
  lemma StoredInt32Reads(buf: seq<byte>, off: int, n: int)
    requires Fits(buf, off, 4)
    ensures Int32Field(Store(buf, off, Int32Bytes(n)), off) == Ok(ToInt32(n))
  {
    StoreAt(buf, off, Int32Bytes(n));
    AtSlice(Store(buf, off, Int32Bytes(n)), off, Int32Bytes(n));
    Int32BytesRead(n);
  }

  /** The table a handle descriptor adds to and looks up in. */
  function TableOf(p: Prim, h: Snapshot): Table
  {
    if p == Id then h.meshes else if p == MatId then h.materials else h.guis
  }

  /** `writeInt32(addMesh(v))` (likewise for materials and GUI panels): the object is
      appended to its table, and reading the written id back against the updated tables
      gives the same object. Ids are the table length, so they stay below 2^31 here. */
  lemma HandleWriteRead(p: Prim, o: Obj, buf: seq<byte>, off: int, h: Snapshot)
    requires p == Id || p == MatId || p == GUIId
    requires Fits(buf, off, 4) && |TableOf(p, h)| < TWO_31
    ensures var w := WriteType(Primitive(p), VRef(o), Out(buf, off, h));
      w.status.Ok? && w.out.off == off + 4 &&
      TableOf(p, w.out.tables) == TableOf(p, h) + [Holds(o)] &&
      ReadType(Primitive(p), w.out.buf, off, w.out.tables) == Ok(Decoded(VRef(o), off + 4))
  {
    var id := |TableOf(p, h)|;
    StoredInt32Reads(buf, off, id);
  }

  /** The handle is added before `writeInt32` runs, so a write that throws for lack of
      room still leaves the object in its table, under an id nobody received. */
  lemma HandleKeptOnThrow(p: Prim, o: Obj, buf: seq<byte>, off: int, h: Snapshot)
    requires p == Id || p == MatId || p == GUIId
    requires !Fits(buf, off, 4)
    ensures var w := WriteType(Primitive(p), VRef(o), Out(buf, off, h));
      w.status == Err(RangeError) && w.out.buf == buf &&
      TableOf(p, w.out.tables) == TableOf(p, h) + [Holds(o)]
  {
  }

  /** The write lambdas that call `writeInt64`, `writeFloat64`, `writeFloat32`,
      `writeString`, `writeArrayInt32` or `writeArrayUInt32` throw a TypeError before
      touching the buffer, the cursor or the tables. */
  lemma MissingWriters(p: Prim, v: Value, o: Out)
    requires p in {Int64, Float64, Float32, Str, ArrayInt32, ArrayUInt32}
    ensures WriteType(Primitive(p), v, o) == Wrote(o, Err(TypeError))
  {
  }

  /** Composite descriptors and the primitives without a writer (`Dict`, `Any`,
      `UntypedObject`) only log: nothing is written and nothing throws. */
  lemma UnfinishedWriters(d: Desc, v: Value, o: Out)
    requires d.Composite? || d in {Primitive(Dict), Primitive(Any), Primitive(UntypedObject)}
    ensures WriteType(d, v, o) == Wrote(o, Ok(()))
  {
  }

  /** The surviving `writeArrayFloat32` never returns normally: `Matrix4x4` and
      `ArrayFloat32` writes always end in a RangeError (or a TypeError for `undefined`),
      after filling the rest of the buffer with the count. */
  lemma ArrayWritersThrow(p: Prim, v: Value, o: Out)
    requires p == Matrix4x4 || p == ArrayFloat32
    ensures WriteType(Primitive(p), v, o).status.Err?
    ensures p == Matrix4x4 || v.VList? ==> WriteType(Primitive(p), v, o).status == Err(RangeError)
  {
  }

  /** `FillInt32` leaves every byte before the cursor as it was. */
  lemma {:induction false} FillInt32Keeps(o: Out, n: int)
    requires 0 <= o.off <= |o.buf|
    ensures FillInt32(o, n).out.buf[..o.off] == o.buf[..o.off]
    decreases Rem(o.buf, o.off)
  {
    var w := PutInt32(o, n);
    if w.status.Ok? {
      FillInt32Keeps(w.out, n);
      var r := FillInt32(w.out, n).out.buf;
      assert r[..o.off] == r[..o.off + 4][..o.off];
      assert w.out.buf[..o.off] == w.out.buf[..o.off + 4][..o.off];
    }
  }

  /** `FillInt32` stores the count in every whole four-byte slot from the cursor to the
      end of the buffer. */
  lemma {:induction false} FillInt32Stores(o: Out, n: int, k: nat)
    requires 0 <= o.off && o.off + 4 * k + 4 <= |o.buf|
    ensures FillInt32(o, n).out.buf[o.off + 4 * k..o.off + 4 * k + 4] == Int32Bytes(n)
    decreases k
  {
    var w := PutInt32(o, n);
    var r := FillInt32(o, n).out.buf;
    assert r == FillInt32(w.out, n).out.buf;
    if k == 0 {
      FillInt32Keeps(w.out, n);
      assert r[o.off..o.off + 4] == r[..o.off + 4][o.off..];
      assert w.out.buf[o.off..o.off + 4] == w.out.buf[..o.off + 4][o.off..];
    } else {
      FillInt32Stores(w.out, n, k - 1);
    }
  }

  /** `None`'s writer stores one zero byte, but its reader consumes nothing: a `None`
      reply and a `None` argument do not have the same encoding. */
  lemma NoneAsymmetry(v: Value, buf: seq<byte>, off: int, h: Snapshot)
    requires Fits(buf, off, 1)
    ensures var w := WriteType(Primitive(None), v, Out(buf, off, h));
      w.status.Ok? && w.out.off == off + 1 && w.out.buf == Store(buf, off, [0]) &&
      ReadType(Primitive(None), w.out.buf, off, h) == Ok(Decoded(VUndefined, off))
  {
  }

  /** `writeUInt8(v ? 1 : 0)` then `readUInt8() != 0` gives the truthiness of `v`. */
  lemma BoolWriteRead(v: Value, buf: seq<byte>, off: int, h: Snapshot)
    requires Fits(buf, off, 1)
    ensures var w := WriteType(Primitive(Bool), v, Out(buf, off, h));
      w.status.Ok? && w.out.off == off + 1 && w.out.tables == h &&
      ReadType(Primitive(Bool), w.out.buf, off, h) == Ok(Decoded(VBool(Truthy(v)), off + 1))
  {
    var u: byte := if Truthy(v) then 1 else 0;
    StoreAt(buf, off, [u]);
  }

  /** Values whose descriptor has a working writer that `readType` inverts: Int32 numbers
      of 32 bits, booleans, and arrays of those under a `[T]` marker. */
  predicate Writable(d: Desc, v: Value)
    decreases d, 0
  {
    match d
    case Primitive(p) => (p == Int32 && v.VNum? && IsInt32(v.n)) || (p == Bool && v.VBool?)
    case SeqOf(e) =>
      v.VList? && |v.items| < TWO_31 && AllWritable(e, v.items)
    case Composite(_, _, _) => false
  }

  predicate AllWritable(e: Desc, items: seq<Value>)
    decreases e, |items|
  {
    items == [] || (Writable(e, items[0]) && AllWritable(e, items[1..]))
  }

  /** The bytes of a writable value, written out independently of the writer. */
  function Encoding(d: Desc, v: Value): seq<byte>
    requires Writable(d, v)
    decreases d, 0
  {
    match d
    case Primitive(p) => if p == Int32 then Int32Bytes(v.n) else [if v.b then 1 else 0]
    case SeqOf(e) => Int32Bytes(|v.items|) + EncodeAll(e, v.items)
  }

  function EncodeAll(e: Desc, items: seq<Value>): seq<byte>
    requires AllWritable(e, items)
    decreases e, |items| + 1
  {
    if items == [] then [] else Encoding(e, items[0]) + EncodeAll(e, items[1..])
  }

  /** `writeType` of a writable value stores exactly its encoding at the cursor, moves
      the cursor past it, leaves the rest of the buffer and the tables alone, and does
      not throw when the buffer has room. */
  lemma {:induction false} WriteTypeStores(d: Desc, v: Value, buf: seq<byte>, off: int, h: Snapshot)
    requires Writable(d, v) && 0 <= off && off + |Encoding(d, v)| <= |buf|
    ensures WriteType(d, v, Out(buf, off, h))
      == Wrote(Out(Store(buf, off, Encoding(d, v)), off + |Encoding(d, v)|, h), Ok(()))
    decreases d, 0
  {
    match d
    case Primitive(p) =>
    case SeqOf(e) =>
      var n := Int32Bytes(|v.items|);
      var rest := EncodeAll(e, v.items);
      WriteEachStores(e, v.items, Store(buf, off, n), off + 4, h);
      StoreStore(buf, off, n, rest);
  }

  lemma {:induction false} WriteEachStores(e: Desc, items: seq<Value>, buf: seq<byte>, off: int, h: Snapshot)
    requires AllWritable(e, items)
    requires 0 <= off && off + |EncodeAll(e, items)| <= |buf|
    ensures WriteEach(e, items, Out(buf, off, h))
      == Wrote(Out(Store(buf, off, EncodeAll(e, items)), off + |EncodeAll(e, items)|, h), Ok(()))
    decreases e, |items|, 1
  {
    if items == [] {
      assert Store(buf, off, []) == buf;
    } else {
      WriteEachCons(e, items[0], items[1..], Encoding(e, items[0]), EncodeAll(e, items[1..]), buf, off, h);
      assert [items[0]] + items[1..] == items;
    }
  }

  /** The inductive step of `WriteEachStores`: the first element's bytes, then the rest
      right after them, make one store of the concatenation. */
  lemma {:induction false} WriteEachCons(e: Desc, x: Value, rest: seq<Value>, a: seq<byte>, b: seq<byte>,
                                         buf: seq<byte>, off: int, h: Snapshot)
    requires Writable(e, x) && AllWritable(e, rest)
    requires a == Encoding(e, x) && b == EncodeAll(e, rest)
    requires 0 <= off && off + |a| + |b| <= |buf|
    ensures WriteEach(e, [x] + rest, Out(buf, off, h))
      == Wrote(Out(Store(buf, off, a + b), off + |a| + |b|, h), Ok(()))
    decreases e, |rest| + 1, 0
  {
    var o1 := Out(Store(buf, off, a), off + |a|, h);
    WriteTypeStores(e, x, buf, off, h);
    WriteEachStep(e, x, rest, Out(buf, off, h), o1);
    WriteEachStores(e, rest, Store(buf, off, a), off + |a|, h);
    StoreStore(buf, off, a, b);
  }

  /** One iteration of `forEach`: after an element is written without a throw, the rest
      are written from the state it left. */
  lemma WriteEachStep(e: Desc, x: Value, rest: seq<Value>, o: Out, o1: Out)
    requires WriteType(e, x, o) == Wrote(o1, Ok(()))
    ensures WriteEach(e, [x] + rest, o) == WriteEach(e, rest, o1)
  {
    var items := [x] + rest;
    assert items[0] == x && items[1..] == rest;
  }

  /** `readType` on the encoding of a writable value gives the value back and stops
      right after the encoding. */
  lemma {:induction false} ReadTypeDecodes(d: Desc, v: Value, bs: seq<byte>, off: int, h: Snapshot)
    requires Writable(d, v) && At(bs, off, Encoding(d, v))
    ensures ReadType(d, bs, off, h) == Ok(Decoded(v, off + |Encoding(d, v)|))
    decreases d, 0
  {
    match d
    case Primitive(p) =>
      if p == Int32 {
        Int32Decodes(v.n, bs, off, h);
      } else {
        BoolDecodes(v.b, bs, off, h);
      }
    case SeqOf(e) =>
      var n := Int32Bytes(|v.items|);
      AtSplit(bs, off, n, EncodeAll(e, v.items));
      AtSlice(bs, off, n);
      Int32BytesRead(|v.items|);
      ReadSeqDecodes(e, v.items, |v.items|, bs, off + 4, h);
      SeqOfStep(e, bs, off, h, |v.items|);
  }

  lemma Int32Decodes(n: int, bs: seq<byte>, off: int, h: Snapshot)
    requires IsInt32(n) && At(bs, off, Int32Bytes(n))
    ensures ReadType(Primitive(Int32), bs, off, h) == Ok(Decoded(VNum(n), off + 4))
  {
    AtSlice(bs, off, Int32Bytes(n));
    Int32BytesRead(n);
  }

  lemma BoolDecodes(b: bool, bs: seq<byte>, off: int, h: Snapshot)
    requires At(bs, off, [if b then 1 else 0])
    ensures ReadType(Primitive(Bool), bs, off, h) == Ok(Decoded(VBool(b), off + 1))
  {
    assert bs[off + 0] == [if b then 1 else 0 as byte][0];
  }

  /** A `[T]` marker whose count field holds `n >= 0` reads `n` elements. */
  lemma SeqOfStep(e: Desc, bs: seq<byte>, off: int, h: Snapshot, n: nat)
    requires Int32Field(bs, off) == Ok(n) && ReadSeq(e, bs, off + 4, n, h).Ok?
    ensures var m := ReadSeq(e, bs, off + 4, n, h).value;
      ReadType(SeqOf(e), bs, off, h) == Ok(Decoded(VList(m.items), m.next))
  {
  }

  lemma {:induction false} ReadSeqDecodes(e: Desc, items: seq<Value>, n: nat, bs: seq<byte>, off: int, h: Snapshot)
    requires n == |items| && AllWritable(e, items)
    requires At(bs, off, EncodeAll(e, items))
    ensures ReadSeq(e, bs, off, n, h) == Ok(Many(items, off + |EncodeAll(e, items)|))
    decreases e, n, 1
  {
    if n > 0 {
      var a := Encoding(e, items[0]);
      var b := EncodeAll(e, items[1..]);
      AtSplit(bs, off, a, b);
      ReadSeqCons(e, items[0], items[1..], a, b, bs, off, h);
      assert [items[0]] + items[1..] == items;
    }
  }

  /** The inductive step of `ReadSeqDecodes`, stated on the split encoding. */
  lemma {:induction false} ReadSeqCons(e: Desc, x: Value, rest: seq<Value>, a: seq<byte>, b: seq<byte>,
                                       bs: seq<byte>, off: int, h: Snapshot)
    requires Writable(e, x) && AllWritable(e, rest)
    requires a == Encoding(e, x) && b == EncodeAll(e, rest)
    requires At(bs, off, a) && At(bs, off + |a|, b)
    ensures ReadSeq(e, bs, off, |rest| + 1, h) == Ok(Many([x] + rest, off + |a| + |b|))
    decreases e, |rest| + 1, 0, 1
  {
    ReadHeadTail(e, x, rest, a, b, bs, off, h);
    ReadSeqStep(e, bs, off, |rest|, h, x, off + |a|, rest, off + |a| + |b|);
  }

  /** The first element and the rest of a sequence, each read from its own encoding. */
  lemma {:induction false} ReadHeadTail(e: Desc, x: Value, rest: seq<Value>, a: seq<byte>, b: seq<byte>,
                                        bs: seq<byte>, off: int, h: Snapshot)
    requires Writable(e, x) && AllWritable(e, rest)
    requires a == Encoding(e, x) && b == EncodeAll(e, rest)
    requires At(bs, off, a) && At(bs, off + |a|, b)
    ensures ReadType(e, bs, off, h) == Ok(Decoded(x, off + |a|))
    ensures ReadSeq(e, bs, off + |a|, |rest|, h) == Ok(Many(rest, off + |a| + |b|))
    decreases e, |rest| + 1, 0, 0
  {
    ReadTypeDecodes(e, x, bs, off, h);
    ReadSeqDecodes(e, rest, |rest|, bs, off + |a|, h);
  }

  /** One iteration of a sequence read: the first element, then the rest after it. */
  lemma ReadSeqStep(e: Desc, bs: seq<byte>, off: int, m: nat, h: Snapshot, x: Value, mid: int, rest: seq<Value>, end: int)
    requires ReadType(e, bs, off, h) == Ok(Decoded(x, mid)) && ReadSeq(e, bs, mid, m, h) == Ok(Many(rest, end))
    ensures ReadSeq(e, bs, off, m + 1, h) == Ok(Many([x] + rest, end))
  {
  }

  /** Round trip: what `writeType` stores for a writable value, `readType` reads back as
      the same value, consuming exactly the bytes written. */
  lemma WriteThenRead(d: Desc, v: Value, buf: seq<byte>, off: int, h: Snapshot)
    requires Writable(d, v) && 0 <= off && off + |Encoding(d, v)| <= |buf|
    ensures var w := WriteType(d, v, Out(buf, off, h));
      w.status.Ok? && ReadType(d, w.out.buf, off, h) == Ok(Decoded(v, w.out.off))
  {
    WriteTypeStores(d, v, buf, off, h);
    StoreAt(buf, off, Encoding(d, v));
    ReadTypeDecodes(d, v, Store(buf, off, Encoding(d, v)), off, h);
  }
}
