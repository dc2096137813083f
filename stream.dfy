/** The `IODataView` class: a cursor over a fixed-size byte buffer (a `DataView`). Every
    access first moves `offset` past the field and then reads or writes at the old
    position, so a field that leaves the buffer throws a RangeError after the move.
    Each method is proved to do what the matching function of `Decode` or `Encode`
    says. */
module Stream {
  import opened Wire
  import opened Descriptors
  import opened Handles
  import opened Decode
  import opened Encode

  /** The outcome of a reading method as the reading functions state it. */
  function Outcome(r: Result<Value>, next: int): Result<Decoded>
  {
    match r
    case Ok(v) => Ok(Decoded(v, next))
    case Err(f) => Err(f)
  }

  /** `items` in front of the values a loop has still to read. */
  function Then(items: seq<Value>, r: Result<Many>): Result<Many>
  {
    match r
    case Ok(m) => Ok(Many(items + m.items, m.next))
    case Err(f) => Err(f)
  }

  /** `items` in front of the elements a typed-array loop has still to read. */
  function ThenArray(items: seq<Value>, r: Result<seq<Value>>): Result<seq<Value>>
  {
    match r
    case Ok(rest) => Ok(items + rest)
    case Err(f) => Err(f)
  }

  /** The outcome of a loop that reads several values, as the reading functions state it. */
  function ManyOutcome(r: Result<seq<Value>>, next: int): Result<Many>
  {
    if r.Ok? then Ok(Many(r.value, next)) else Err(r.fault)
  }

  /** A sub-descriptor of a composite ranks below the composite. */
  lemma {:induction false} RankBelow(ds: seq<Desc>, i: int)
    requires 0 <= i < |ds|
    ensures Rank(ds[i]) < RankAll(ds)
    decreases |ds|
  {
    if i > 0 {
      RankBelow(ds[1..], i - 1);
    }
  }

  /** One more element read by a typed-array loop. */
  lemma ArrayStep(bs: seq<byte>, off: int, m: nat, k: Elem, before: seq<Value>, x: Value)
    requires m > 0 && ElemAt(bs, off, k) == Ok(x)
    ensures ThenArray(before, ArrayAt(bs, off, m, k))
         == ThenArray(before + [x], ArrayAt(bs, off + ElemWidth(k), m - 1, k))
  {
    var rest := ArrayAt(bs, off + ElemWidth(k), m - 1, k);
    if rest.Ok? {
      assert before + ([x] + rest.value) == before + [x] + rest.value;
    }
  }

  /** A failed element read ends a typed-array loop with its fault. */
  lemma ArrayStop(bs: seq<byte>, off: int, m: nat, k: Elem, before: seq<Value>, f: Fault)
    requires m > 0 && ElemAt(bs, off, k) == Err(f)
    ensures ThenArray(before, ArrayAt(bs, off, m, k)) == Err(f)
  {
  }

  /** The outcome of `readString` as `StringAt` states it. */
  function ChunkOutcome(r: Result<seq<byte>>, next: int): Result<Chunk>
  {
    match r
    case Ok(bytes) => Ok(Chunk(bytes, next))
    case Err(f) => Err(f)
  }

  /** What the rest of the length-prefix loop yields from `off`, with `size` and `shift`
      accumulated so far: the length and where the payload starts. */
  function LengthFrom(bs: seq<byte>, off: int, size: int, shift: nat): Result<(int, int)>
  {
    match PrefixGroups(bs, off)
    case Ok(prefix) => Ok((Accumulate(prefix.0, size, shift), prefix.1))
    case Err(f) => Err(f)
  }

  /** The outcome of the length-prefix loop as `LengthFrom` states it. */
  function LengthOutcome(r: Result<int>, next: int): Result<(int, int)>
  {
    match r
    case Ok(size) => Ok((size, next))
    case Err(f) => Err(f)
  }

  /** A length byte without bit 0x80 ends the prefix with its seven low bits. */
  lemma PrefixLast(bs: seq<byte>, off: int, size: int, shift: nat)
    requires Fits(bs, off, 1) && bs[off] < 128
    ensures LengthFrom(bs, off, size, shift) == Ok((Or32(size, Shl32(bs[off] as int % 128, shift)), off + 1))
  {
    var gs := [bs[off] as int % 128];
    assert PrefixGroups(bs, off) == Ok((gs, off + 1));
    assert gs[1..] == [];
    assert Accumulate(gs, size, shift) == Accumulate([], Or32(size, Shl32(gs[0], shift)), shift + 7);
  }

  /** A length byte with bit 0x80 set adds its seven low bits and reading goes on. */
  lemma PrefixMore(bs: seq<byte>, off: int, size: int, shift: nat)
    requires Fits(bs, off, 1) && bs[off] >= 128
    ensures LengthFrom(bs, off, size, shift)
         == LengthFrom(bs, off + 1, Or32(size, Shl32(bs[off] as int % 128, shift)), shift + 7)
  {
    var rest := PrefixGroups(bs, off + 1);
    if rest.Ok? {
      var gs := [bs[off] as int % 128] + rest.value.0;
      assert gs[1..] == rest.value.0;
    }
  }

  /** Past the buffer end the prefix is a RangeError. */
  lemma PrefixShort(bs: seq<byte>, off: int, size: int, shift: nat)
    requires !Fits(bs, off, 1)
    ensures LengthFrom(bs, off, size, shift) == Err(RangeError)
  {
  }

  /** Once the prefix is read, the payload is `size` bytes from where the prefix ends. */
  lemma StringFrom(bs: seq<byte>, off: int, p: int, size: int)
    requires LengthFrom(bs, off, 0, 0) == Ok((size, p))
    ensures StringAt(bs, off)
      == if size < 0 || !Fits(bs, p, size) then Err(RangeError) else Ok(Chunk(bs[p..p + size], p + size))
  {
  }

  /** One more value read by the loop of a `[T]` marker. */
  lemma SeqStep(e: Desc, bs: seq<byte>, off: int, m: nat, h: Snapshot, before: seq<Value>, x: Value, next: int)
    requires m > 0 && ReadType(e, bs, off, h) == Ok(Decoded(x, next))
    ensures Then(before, ReadSeq(e, bs, off, m, h)) == Then(before + [x], ReadSeq(e, bs, next, m - 1, h))
  {
    var rest := ReadSeq(e, bs, next, m - 1, h);
    if rest.Ok? {
      assert before + ([x] + rest.value.items) == before + [x] + rest.value.items;
    }
  }

  lemma SeqStop(e: Desc, bs: seq<byte>, off: int, m: nat, h: Snapshot, before: seq<Value>, f: Fault)
    requires m > 0 && ReadType(e, bs, off, h) == Err(f)
    ensures Then(before, ReadSeq(e, bs, off, m, h)) == Err(f)
  {
  }

  /** One more sub-descriptor read by `subtypes.map`. */
  lemma AllStep(ds: seq<Desc>, bs: seq<byte>, off: int, h: Snapshot, before: seq<Value>, x: Value, next: int)
    requires ds != [] && ReadType(ds[0], bs, off, h) == Ok(Decoded(x, next))
    ensures Then(before, ReadAll(ds, bs, off, h)) == Then(before + [x], ReadAll(ds[1..], bs, next, h))
  {
    var rest := ReadAll(ds[1..], bs, next, h);
    if rest.Ok? {
      assert before + ([x] + rest.value.items) == before + [x] + rest.value.items;
    }
  }

  lemma AllStop(ds: seq<Desc>, bs: seq<byte>, off: int, h: Snapshot, before: seq<Value>, f: Fault)
    requires ds != [] && ReadType(ds[0], bs, off, h) == Err(f)
    ensures Then(before, ReadAll(ds, bs, off, h)) == Err(f)
  {
  }

  /** One more element written by `v.forEach`. */
  lemma EachStep(e: Desc, items: seq<Value>, i: int, o: Out, w: Wrote)
    requires 0 <= i < |items| && w == Encode.WriteType(e, items[i], o)
    ensures w.status.Err? ==> WriteEach(e, items[i..], o) == w
    ensures w.status.Ok? ==> WriteEach(e, items[i..], o) == WriteEach(e, items[i + 1..], w.out)
  {
    assert items[i..][0] == items[i] && items[i..][1..] == items[i + 1..];
  }

  /** A loop that has read everything it was asked for. */
  lemma ThenDone(items: seq<Value>, next: int)
    ensures Then(items, Ok(Many([], next))) == Ok(Many(items, next))
  {
    assert items + [] == items;
  }

  /** A loop that has read nothing yet. */
  lemma ThenNothing(r: Result<Many>)
    ensures Then([], r) == r
  {
    if r.Ok? {
      assert [] + r.value.items == r.value.items;
    }
  }

  class IODataView {
    const view: array<byte>
    var offset: int

    constructor (view: array<byte>)
      ensures this.view == view && offset == 0
    {
      this.view := view;
      offset := 0;
    }

    /** `checkExhausted`: only logs; the result says whether it stays silent. */
    method CheckExhausted() returns (exhausted: bool)
      ensures exhausted <==> offset == view.Length
    {
      exhausted := offset == view.Length;
    }

    /** `readUInt8` (`dataSize.UInt8` is 1). */
    method ReadUInt8() returns (r: Result<int>)
      modifies this
      ensures offset == old(offset) + 1
      ensures r == ByteAt(view[..], old(offset))
    {
      offset := offset + 1;
      if 0 <= offset - 1 < view.Length {
        r := Ok(view[offset - 1] as int);
      } else {
        r := Err(RangeError);
      }
    }

    /** `readInt8` calls `getUint8`: the byte comes back unsigned. */
    method ReadInt8() returns (r: Result<int>)
      modifies this
      ensures offset == old(offset) + 1
      ensures r == ByteAt(view[..], old(offset))
      ensures r.Ok? ==> 0 <= r.value < 256
    {
      r := ReadUInt8();
    }

    /** An unsigned little-endian field of `width` bytes. */
    method ReadUInt(width: nat) returns (r: Result<int>)
      modifies this
      ensures offset == old(offset) + width
      ensures r.Ok? <==> Fits(view[..], old(offset), width)
      ensures r.Err? ==> r.fault == RangeError
      ensures r.Ok? ==> r.value == LittleEndian(view[old(offset)..old(offset) + width])
      ensures r.Ok? ==> 0 <= r.value < Pow2(8 * width)
    {
      offset := offset + width;
      if 0 <= offset - width && offset <= view.Length {
        LittleEndianBound(view[offset - width..offset]);
        r := Ok(LittleEndian(view[offset - width..offset]));
      } else {
        r := Err(RangeError);
      }
    }

    /** `readUInt16` (`dataSize.UInt16` is 2). */
    method ReadUInt16() returns (r: Result<int>)
      modifies this
      ensures offset == old(offset) + 2
      ensures r.Ok? <==> Fits(view[..], old(offset), 2)
      ensures r.Err? ==> r.fault == RangeError
      ensures r.Ok? ==> r.value == LittleEndian(view[old(offset)..old(offset) + 2])
    {
      r := ReadUInt(2);
    }

    /** `readUInt32` (`dataSize.UInt32` is 4). */
    method ReadUInt32() returns (r: Result<int>)
      modifies this
      ensures offset == old(offset) + 4
      ensures r.Ok? <==> Fits(view[..], old(offset), 4)
      ensures r.Err? ==> r.fault == RangeError
      ensures r.Ok? ==> r.value == LittleEndian(view[old(offset)..old(offset) + 4])
    {
      r := ReadUInt(4);
    }

    /** `readInt16` (`dataSize.Int16` is 2): two's complement of the 16-bit field. */
    method ReadInt16() returns (r: Result<int>)
      modifies this
      ensures offset == old(offset) + 2
      ensures r.Ok? <==> Fits(view[..], old(offset), 2)
      ensures r.Err? ==> r.fault == RangeError
      ensures r.Ok? ==> -0x8000 <= r.value < 0x8000
      ensures r.Ok? ==> (r.value - LittleEndian(view[old(offset)..old(offset) + 2])) % 0x1_0000 == 0
    {
      r := ReadUInt(2);
      if r.Ok? {
        assert Pow2(16) == 0x1_0000 by {
          Pow2Add(8, 8);
          Pow2Byte();
        }
        if r.value >= 0x8000 {
          r := Ok(r.value - 0x1_0000);
        }
      }
    }

    /** `readInt32` (`dataSize.Int32` is 4). */
    method ReadInt32() returns (r: Result<int>)
      modifies this
      ensures offset == old(offset) + 4
      ensures r == Int32Field(view[..], old(offset))
    {
      offset := offset + 4;
      if 0 <= offset - 4 && offset <= view.Length {
        r := Ok(Int32Of(view[offset - 4..offset]));
      } else {
        r := Err(RangeError);
      }
    }

    /** A fixed-width read whose numeric interpretation is not modelled. */
    method ReadRaw(kind: RawKind, width: nat) returns (r: Result<Value>)
      modifies this
      ensures offset == old(offset) + width
      ensures Outcome(r, offset) == RawAt(view[..], old(offset), kind, width)
    {
      offset := offset + width;
      if 0 <= offset - width && offset <= view.Length {
        r := Ok(VRaw(kind, view[offset - width..offset]));
      } else {
        r := Err(RangeError);
      }
    }

    /** `readInt64` (`dataSize.Int64` is 8). */
    method ReadInt64() returns (r: Result<Value>)
      modifies this
      ensures offset == old(offset) + 8
      ensures Outcome(r, offset) == RawAt(view[..], old(offset), Int64Bits, 8)
    {
      r := ReadRaw(Int64Bits, 8);
    }

    /** `readUInt64` (`dataSize.UInt64` is 8). */
    method ReadUInt64() returns (r: Result<Value>)
      modifies this
      ensures offset == old(offset) + 8
      ensures Outcome(r, offset) == RawAt(view[..], old(offset), UInt64Bits, 8)
    {
      r := ReadRaw(UInt64Bits, 8);
    }

    /** `readFloat64` (`dataSize.Float64` is 8). */
    method ReadFloat64() returns (r: Result<Value>)
      modifies this
      ensures offset == old(offset) + 8
      ensures Outcome(r, offset) == RawAt(view[..], old(offset), Float64Bits, 8)
    {
      r := ReadRaw(Float64Bits, 8);
    }

    /** `readFloat32` (`dataSize.Float32` is 4). */
    method ReadFloat32() returns (r: Result<Value>)
      modifies this
      ensures offset == old(offset) + 4
      ensures Outcome(r, offset) == RawAt(view[..], old(offset), Float32Bits, 4)
    {
      r := ReadRaw(Float32Bits, 4);
    }

    /** `readFloat16` (`dataSize.Float16` is 2). */
    method ReadFloat16() returns (r: Result<Value>)
      modifies this
      ensures offset == old(offset) + 2
      ensures Outcome(r, offset) == RawAt(view[..], old(offset), Float16Bits, 2)
    {
      r := ReadRaw(Float16Bits, 2);
    }

    /** `writeInt32` (`dataSize.Int32` is 4): `setInt32` stores `n` wrapped to 32 bits,
        low byte first, or throws leaving the buffer as it was. */
    method WriteInt32(n: int) returns (r: Result<()>)
      modifies this, view
      ensures offset == old(offset) + 4
      ensures r == (if Fits(old(view[..]), old(offset), 4) then Ok(()) else Err(RangeError))
      ensures r.Ok? ==> view[..] == Store(old(view[..]), old(offset), Int32Bytes(n))
      ensures r.Err? ==> view[..] == old(view[..])
    {
      offset := offset + 4;
      var o := offset - 4;
      if 0 <= o && offset <= view.Length {
        var bytes := Int32Bytes(n);
        view[o], view[o + 1], view[o + 2], view[o + 3] := bytes[0], bytes[1], bytes[2], bytes[3];
        assert view[..] == Store(old(view[..]), o, bytes) by {
          assert view[o..o + 4] == bytes;
          assert view[..o] == old(view[..])[..o];
          assert view[o + 4..] == old(view[..])[o + 4..];
          assert view[..] == view[..o] + view[o..o + 4] + view[o + 4..];
        }
        r := Ok(());
      } else {
        r := Err(RangeError);
      }
    }

    /** `writeUInt8` (`dataSize.UInt8` is 1). */
    method WriteUInt8(u: byte) returns (r: Result<()>)
      modifies this, view
      ensures offset == old(offset) + 1
      ensures r == (if Fits(old(view[..]), old(offset), 1) then Ok(()) else Err(RangeError))
      ensures r.Ok? ==> view[..] == Store(old(view[..]), old(offset), [u])
      ensures r.Err? ==> view[..] == old(view[..])
    {
      offset := offset + 1;
      var o := offset - 1;
      if 0 <= o < view.Length {
        view[o] := u;
        assert view[..] == Store(old(view[..]), o, [u]) by {
          assert view[..] == view[..o] + [view[o]] + view[o + 1..];
        }
        r := Ok(());
      } else {
        r := Err(RangeError);
      }
    }

    /** One element of a typed-array read. */
    method ReadElem(k: Elem) returns (r: Result<Value>)
      modifies this
      ensures offset == old(offset) + ElemWidth(k)
      ensures r == ElemAt(view[..], old(offset), k)
    {
      match k
      case U8 =>
        var u := ReadUInt8();
        r := if u.Ok? then Ok(VNum(u.value)) else Err(u.fault);
        if u.Ok? {
          var raw := view[old(offset)..old(offset) + 1];
          assert raw == [view[old(offset)]] && raw[1..] == [];
          assert LittleEndian(raw) == u.value;
        }
      case U32 =>
        var u := ReadUInt32();
        r := if u.Ok? then Ok(VNum(u.value)) else Err(u.fault);
      case I32 =>
        var n := ReadInt32();
        r := if n.Ok? then Ok(VNum(n.value)) else Err(n.fault);
      case F32 =>
        r := ReadFloat32();
    }

    /** `readArrayUInt8/UInt32/Int32/Float32(n)`: a typed array of length `n` (a negative
        length is a RangeError) filled element by element. */
    method ReadArray(n: int, k: Elem) returns (r: Result<seq<Value>>)
      modifies this
      ensures n < 0 ==> r == Err(RangeError)
      ensures n >= 0 ==> r == ArrayAt(view[..], old(offset), n, k)
      ensures n >= 0 && r.Ok? ==> offset == old(offset) + Span(n, ElemWidth(k))
    {
      if n < 0 {
        return Err(RangeError);
      }
      var arr := new Value[n](_ => VUndefined);
      ghost var bs := view[..];
      ghost var start := offset;
      var i := 0;
      ghost var m := n;
      ghost var all := ArrayAt(bs, start, m, k);
      assert arr[..0] == [];
      assert ThenArray([], all) == all by {
        if all.Ok? {
          assert [] + all.value == all.value;
        }
      }
      while i < n
        invariant 0 <= i <= n && m == n - i
        invariant offset == start + Span(i, ElemWidth(k))
        invariant all == ThenArray(arr[..i], ArrayAt(bs, offset, m, k))
      {
        ghost var prev := offset;
        var x := ReadElem(k);
        if x.Err? {
          ArrayStop(bs, prev, m, k, arr[..i], x.fault);
          return Err(x.fault);
        }
        ghost var before := arr[..i];
        arr[i] := x.value;
        assert arr[..i + 1] == before + [x.value];
        ArrayStep(bs, prev, m, k, before, x.value);
        i := i + 1;
        m := m - 1;
      }
      assert arr[..] == arr[..n] + [];
      r := Ok(arr[..]);
    }

    /** `readString`: the base-128 length prefix, then `size` payload bytes. */
    method ReadString() returns (r: Result<seq<byte>>)
      modifies this
      ensures ChunkOutcome(r, offset) == StringAt(view[..], old(offset))
    {
      ghost var bs := view[..];
      ghost var start := offset;
      var size := ReadLength();
      if size.Err? {
        return Err(size.fault);
      }
      StringFrom(bs, start, offset, size.value);
      offset := offset + size.value;
      if size.value < 0 || offset > view.Length {
        return Err(RangeError);
      }
      var payload := view[offset - size.value..offset];
      assert payload == bs[offset - size.value..offset];
      return Ok(payload);
    }

    /** The length-prefix loop of `readString`: groups of seven bits, low group first,
        accumulated on 32-bit integers (`b & 0x7f` is `b % 128`, `(b & 0x80) == 0` is
        `b < 128`). */
    method ReadLength() returns (r: Result<int>)
      modifies this
      ensures LengthOutcome(r, offset) == LengthFrom(view[..], old(offset), 0, 0)
    {
      ghost var bs := view[..];
      var size := 0;
      var shift := 0;
      ghost var all := LengthFrom(bs, offset, size, shift);
      while true
        invariant shift >= 0
        invariant all == LengthFrom(bs, offset, size, shift)
        decreases Rem(bs, offset)
      {
        ghost var before := offset;
        var b := ReadUInt8();
        if b.Err? {
          PrefixShort(bs, before, size, shift);
          return Err(b.fault);
        }
        var g := b.value % 128;
        if b.value < 128 {
          PrefixLast(bs, before, size, shift);
          size := Or32(size, Shl32(g, shift));
          return Ok(size);
        }
        PrefixMore(bs, before, size, shift);
        size := Or32(size, Shl32(g, shift));
        shift := shift + 7;
      }
    }

    /** The `read` lambda of every primitive descriptor except `Dict` and `Any`. */
    method PrimRead(p: Prim, tables: Tables) returns (r: Result<Value>)
      requires p != Dict && p != Any
      modifies this
      ensures Outcome(r, offset) == PrimAt(p, view[..], old(offset), tables.View())
    {
      match p
      case None =>
        // only logs "Can't read none"
        r := Ok(VUndefined);
      case Bool =>
        var u := ReadUInt8();
        r := if u.Ok? then Ok(VBool(u.value != 0)) else Err(u.fault);
      case Int64 =>
        r := ReadInt64();
      case Int32 =>
        var n := ReadInt32();
        r := if n.Ok? then Ok(VNum(n.value)) else Err(n.fault);
      case Float64 =>
        r := ReadFloat64();
      case Float32 =>
        r := ReadFloat32();
      case Matrix4x4 =>
        SpanIsProduct(16, 4);
        var a := ReadArray(16, F32);
        r := if a.Ok? then Ok(VObject("Matrix4", a.value)) else Err(a.fault);
      case ArrayFloat32 =>
        r := ReadCountedArray(F32);
      case ArrayInt32 =>
        r := ReadCountedArray(I32);
      case ArrayUInt32 =>
        r := ReadCountedArray(U32);
      case Str =>
        var c := ReadString();
        r := if c.Ok? then Ok(VStr(c.value)) else Err(c.fault);
      case Id =>
        var n := ReadInt32();
        r := if n.Ok? then Ok(SlotValue(tables.GetMesh(n.value))) else Err(n.fault);
      case MatId =>
        var n := ReadInt32();
        r := if n.Ok? then Ok(SlotValue(tables.GetMaterial(n.value))) else Err(n.fault);
      case GUIId =>
        var n := ReadInt32();
        r := if n.Ok? then Ok(SlotValue(tables.GetGUI(n.value))) else Err(n.fault);
      case UntypedObject =>
        // `io.readUntypedObject` is not a function
        r := Err(TypeError);
    }

    /** `readArrayX(readInt32())`. */
    method ReadCountedArray(k: Elem) returns (r: Result<Value>)
      modifies this
      ensures Outcome(r, offset) == CountedArrayAt(view[..], old(offset), k)
    {
      var n := ReadInt32();
      if n.Err? {
        return Err(n.fault);
      }
      var a := ReadArray(n.value, k);
      r := if a.Ok? then Ok(VList(a.value)) else Err(a.fault);
    }

    /** `readType`. */
    method ReadType(d: Desc, tables: Tables) returns (r: Result<Value>)
      modifies this
      ensures Outcome(r, offset) == Decode.ReadType(d, view[..], old(offset), tables.View())
      decreases Rem(view[..], offset), Rank(d), 1
    {
      match d
      case SeqOf(e) =>
        var count := ReadInt32();
        if count.Err? {
          return Err(count.fault);
        }
        var items := ReadItems(e, count.value, tables);
        r := if items.Ok? then Ok(VList(items.value)) else Err(items.fault);
      case Composite(_, subs, c) =>
        var parts := ReadParts(subs, tables);
        r := if parts.Ok? then Ok(Combine(c, parts.value)) else Err(parts.fault);
      case Primitive(p) =>
        r := ReadPrim(p, tables);
    }

    /** The loop of a `[T]` marker: `count` values of descriptor `e` (none for a
        negative count). */
    method ReadItems(e: Desc, count: int, tables: Tables) returns (r: Result<seq<Value>>)
      modifies this
      ensures ManyOutcome(r, offset)
        == ReadSeq(e, view[..], old(offset), if count < 0 then 0 else count, tables.View())
      decreases Rem(view[..], offset), Rank(e), (if count < 0 then 0 else count) + 2
    {
      ghost var bs := view[..];
      ghost var h := tables.View();
      ghost var n: nat := if count < 0 then 0 else count;
      ghost var start := offset;
      var items: seq<Value> := [];
      var i := 0;
      ghost var m: nat := n;
      ghost var all := ReadSeq(e, bs, start, m, h);
      ThenNothing(all);
      while i < count
        invariant 0 <= i <= n && m == n - i
        invariant Rem(bs, offset) <= Rem(bs, start)
        invariant all == Then(items, ReadSeq(e, bs, offset, m, h))
      {
        ghost var before := offset;
        var x := ReadType(e, tables);
        if x.Err? {
          SeqStop(e, bs, before, m, h, items, x.fault);
          return Err(x.fault);
        }
        SeqStep(e, bs, before, m, h, items, x.value, offset);
        items := items + [x.value];
        i := i + 1;
        m := m - 1;
      }
      ThenDone(items, offset);
      r := Ok(items);
    }

    /** `subtypes.map(st => io.readType(st))`. */
    method ReadParts(ds: seq<Desc>, tables: Tables) returns (r: Result<seq<Value>>)
      modifies this
      ensures ManyOutcome(r, offset) == ReadAll(ds, view[..], old(offset), tables.View())
      decreases Rem(view[..], offset), RankAll(ds), 0
    {
      ghost var bs := view[..];
      ghost var h := tables.View();
      ghost var start := offset;
      var parts: seq<Value> := [];
      var i := 0;
      ghost var all := ReadAll(ds, bs, start, h);
      assert ds[0..] == ds;
      ThenNothing(all);
      while i < |ds|
        invariant 0 <= i <= |ds|
        invariant Rem(bs, offset) <= Rem(bs, start)
        invariant all == Then(parts, ReadAll(ds[i..], bs, offset, h))
      {
        RankBelow(ds, i);
        ghost var before := offset;
        var x := ReadType(ds[i], tables);
        if x.Err? {
          AllStop(ds[i..], bs, before, h, parts, x.fault);
          return Err(x.fault);
        }
        AllStep(ds[i..], bs, before, h, parts, x.value, offset);
        assert ds[i..][1..] == ds[i + 1..];
        parts := parts + [x.value];
        i := i + 1;
      }
      assert ds[|ds|..] == [];
      ThenDone(parts, offset);
      r := Ok(parts);
    }

    /** The `read` lambda of a primitive descriptor. */
    method ReadPrim(p: Prim, tables: Tables) returns (r: Result<Value>)
      modifies this
      ensures Outcome(r, offset) == Decode.ReadPrim(p, view[..], old(offset), tables.View())
      decreases Rem(view[..], offset), 1, 0
    {
      if p == Any {
        r := ReadAny(tables);
      } else if p == Dict {
        r := ReadDict(tables);
      } else {
        r := PrimRead(p, tables);
      }
    }

    /** `readAny`: the tag byte selects the payload; an unknown tag is only logged. */
    method ReadAny(tables: Tables) returns (r: Result<Value>)
      modifies this
      ensures Outcome(r, offset) == Decode.ReadAny(view[..], old(offset), tables.View())
      decreases Rem(view[..], offset), 0, 0
    {
      var code := ReadUInt8();
      if code.Err? {
        return Err(code.fault);
      }
      if code.value == 0 {
        var u := ReadUInt8();
        r := if u.Ok? then Ok(VBool(u.value != 0)) else Err(u.fault);
      } else if code.value == 1 {
        var u := ReadUInt8();
        r := if u.Ok? then Ok(VNum(u.value)) else Err(u.fault);
      } else if code.value == 2 {
        var n := ReadInt32();
        r := if n.Ok? then Ok(VNum(n.value)) else Err(n.fault);
      } else if code.value == 3 {
        r := ReadInt64();
      } else if code.value == 4 {
        r := ReadFloat32();
      } else if code.value == 5 {
        r := ReadFloat64();
      } else if code.value == 6 {
        var c := ReadString();
        r := if c.Ok? then Ok(VStr(c.value)) else Err(c.fault);
      } else if code.value == 7 || code.value == 8 {
        r := ReadType(RGB, tables);
      } else if code.value == 9 {
        r := ReadDict(tables);
      } else {
        // only logs "Unknown object code"
        r := Ok(VUndefined);
      }
    }

    /** `readDict`: `keys` string/Any pairs; a later key overwrites an earlier one. */
    method ReadDict(tables: Tables) returns (r: Result<Value>)
      modifies this
      ensures Outcome(r, offset) == Decode.ReadDict(view[..], old(offset), tables.View())
      decreases Rem(view[..], offset), 0, 0
    {
      var keys := ReadInt32();
      if keys.Err? {
        return Err(keys.fault);
      }
      var obj := ReadPairs(keys.value, tables);
      r := if obj.Ok? then Ok(VDict(obj.value)) else Err(obj.fault);
    }

    /** The loop of `readDict`: `keys` iterations (none for a negative count). */
    method ReadPairs(keys: int, tables: Tables) returns (r: Result<map<seq<byte>, Value>>)
      requires 0 <= offset <= view.Length
      modifies this
      ensures r.Ok? ==>
        ReadEntries(view[..], old(offset), if keys < 0 then 0 else keys, map[], tables.View())
          == Ok(Entries(r.value, offset))
      ensures r.Err? ==>
        ReadEntries(view[..], old(offset), if keys < 0 then 0 else keys, map[], tables.View())
          == Err(r.fault)
      decreases Rem(view[..], offset), 0, if keys < 0 then 0 else keys
    {
      ghost var bs := view[..];
      ghost var h := tables.View();
      ghost var n: nat := if keys < 0 then 0 else keys;
      ghost var start := offset;
      var obj: map<seq<byte>, Value> := map[];
      ghost var all := ReadEntries(bs, start, n, obj, h);
      var i := 0;
      ghost var m: nat := n;
      while i < keys
        invariant 0 <= i <= n && m == n - i
        invariant start <= offset <= |bs|
        invariant all == ReadEntries(bs, offset, m, obj, h)
      {
        var next := ReadEntry(bs, h, m, obj, tables);
        if next.Err? {
          return Err(next.fault);
        }
        obj := next.value;
        i := i + 1;
        m := m - 1;
      }
      r := Ok(obj);
    }

    /** One iteration of the `readDict` loop: a key, then its `Any` value stored under it. */
    method ReadEntry(ghost bs: seq<byte>, ghost h: Snapshot, ghost m: nat, obj: map<seq<byte>, Value>,
                     tables: Tables)
      returns (r: Result<map<seq<byte>, Value>>)
      requires bs == view[..] && h == tables.View()
      requires 0 <= offset <= |bs| && m > 0
      modifies this
      ensures r.Err? ==> ReadEntries(bs, old(offset), m, obj, h) == Err(r.fault)
      ensures r.Ok? ==> 0 <= old(offset) < offset <= |bs|
      ensures r.Ok? ==> ReadEntries(bs, old(offset), m, obj, h) == ReadEntries(bs, offset, m - 1, r.value, h)
      decreases Rem(view[..], offset), 0, 0
    {
      ghost var before := offset;
      var key := ReadString();
      if key.Err? {
        EntriesStop(bs, before, m, obj, h, key.fault);
        return Err(key.fault);
      }
      ghost var mid := offset;
      var val := ReadAny(tables);
      if val.Err? {
        EntriesStop(bs, before, m, obj, h, val.fault);
        return Err(val.fault);
      }
      EntriesStep(bs, before, m, obj, h, key.value, mid, val.value, offset);
      r := Ok(obj[key.value := val.value]);
    }

    /** The surviving `writeArrayFloat32(n, v)`: writes `n`, then calls itself again. */
    method WriteArrayFloat32(n: int, ghost h: Snapshot) returns (r: Result<()>)
      modifies this, view
      ensures Wrote(Out(view[..], offset, h), r) == FillInt32(Out(old(view[..]), old(offset), h), n)
      decreases Rem(view[..], offset)
    {
      r := WriteInt32(n);
      if r.Ok? {
        r := WriteArrayFloat32(n, h);
      }
    }

    /** `writeInt32(addMesh(v))`, `writeInt32(addMaterial(v))`, `writeInt32(addGUI(v))`. */
    method HandleWrite(p: Prim, v: Value, tables: Tables) returns (r: Result<()>)
      requires p == Id || p == MatId || p == GUIId
      modifies this, view, tables
      ensures Wrote(Out(view[..], offset, tables.View()), r)
           == Encode.HandleWrite(p, v, Out(old(view[..]), old(offset), old(tables.View())))
    {
      if !v.VRef? {
        return Err(if p == Id then TypeError else Unmodelled);
      }
      var id;
      if p == Id {
        id := tables.AddMesh(v.obj);
      } else if p == MatId {
        id := tables.AddMaterial(v.obj);
      } else {
        id := tables.AddGUI(v.obj);
      }
      r := WriteInt32(id);
    }

    /** The `write` lambda of a primitive descriptor. */
    method PrimWrite(p: Prim, v: Value, tables: Tables) returns (r: Result<()>)
      modifies this, view, tables
      ensures Wrote(Out(view[..], offset, tables.View()), r)
           == Encode.PrimWrite(p, v, Out(old(view[..]), old(offset), old(tables.View())))
    {
      match p
      case None =>
        r := WriteUInt8(0);
      case Bool =>
        r := WriteUInt8(if Truthy(v) then 1 else 0);
      case Int32 =>
        var n := NumberOf(v);
        if n.Err? {
          return Err(n.fault);
        }
        r := WriteInt32(n.value);
      case Matrix4x4 =>
        r := WriteArrayFloat32(16, tables.View());
      case ArrayFloat32 =>
        var n := LengthOf(v);
        if n.Err? {
          return Err(n.fault);
        }
        r := WriteArrayFloat32(n.value, tables.View());
      case Id =>
        r := HandleWrite(p, v, tables);
      case MatId =>
        r := HandleWrite(p, v, tables);
      case GUIId =>
        r := HandleWrite(p, v, tables);
      case Dict =>
        r := Ok(());
      case Any =>
        r := Ok(());
      case UntypedObject =>
        r := Ok(());
      case _ =>
        // `writeInt64`, `writeFloat64`, `writeFloat32`, `writeString`, `writeArrayInt32`
        // and `writeArrayUInt32` are not methods of `IODataView`
        r := Err(TypeError);
    }

    /** `writeType`: a `[T]` marker writes `v.length` and then each element; a composite
        only logs; a primitive runs its `write` lambda. */
    method WriteType(d: Desc, v: Value, tables: Tables) returns (r: Result<()>)
      modifies this, view, tables
      ensures Wrote(Out(view[..], offset, tables.View()), r)
           == Encode.WriteType(d, v, Out(old(view[..]), old(offset), old(tables.View())))
      decreases Rank(d)
    {
      match d
      case SeqOf(e) =>
        var len := LengthOf(v);
        if len.Err? {
          return Err(len.fault);
        }
        r := WriteInt32(len.value);
        if r.Err? {
          return;
        }
        if !v.VList? {
          // `v.forEach` is not a function
          return Err(TypeError);
        }
        var items := v.items;
        ghost var o := Out(view[..], offset, tables.View());
        var i := 0;
        while i < |items|
          invariant 0 <= i <= |items|
          invariant WriteEach(e, items, o) == WriteEach(e, items[i..], Out(view[..], offset, tables.View()))
        {
          ghost var cur := Out(view[..], offset, tables.View());
          r := WriteType(e, items[i], tables);
          EachStep(e, items, i, cur, Wrote(Out(view[..], offset, tables.View()), r));
          if r.Err? {
            return;
          }
          i := i + 1;
        }
        assert items[|items|..] == [];
        r := Ok(());
      case Composite(_, _, _) =>
        // only logs "Finish this!"
        r := Ok(());
      case Primitive(p) =>
        r := PrimWrite(p, v, tables);
    }
  }
}
