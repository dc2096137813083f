/** Properties of the readers: how many bytes each descriptor consumes, the boundary
    cases of the string length prefix, and the shapes the `Any` tags decode to. */
module DecodeProperties {
  import opened Wire
  import opened Descriptors
  import opened Handles
  import opened Decode

  /** Descriptors whose reader consumes a fixed number of bytes: the primitives with a
      numeric `size` other than `None`, and composites built from them. */
  predicate FixedDesc(d: Desc)
  {
    match d
    case Primitive(p) => p in {Bool, Int64, Int32, Float64, Float32, Matrix4x4, Id, MatId, GUIId}
    case Composite(_, subs, _) => forall i :: 0 <= i < |subs| ==> FixedDesc(subs[i])
    case SeqOf(_) => false
  }

  function Width(d: Desc): nat
    requires FixedDesc(d)
  {
    match d
    case Primitive(p) => if PrimSize(p).Bytes? then PrimSize(p).n else 0
    case Composite(_, subs, _) => WidthAll(subs)
  }

  function WidthAll(ds: seq<Desc>): nat
    requires forall i :: 0 <= i < |ds| ==> FixedDesc(ds[i])
  {
    if ds == [] then 0 else Width(ds[0]) + WidthAll(ds[1..])
  }

  /** A fixed primitive's reader consumes exactly its declared `size`: it reads when
      that many bytes are left and then moves the cursor by that many. */
  lemma FixedPrimWidthIsSize(p: Prim, bs: seq<byte>, off: int, h: Snapshot)
    requires FixedDesc(Primitive(p)) && 0 <= off <= |bs|
    ensures PrimSize(p).Bytes?
    ensures ReadType(Primitive(p), bs, off, h).Ok? <==> Fits(bs, off, PrimSize(p).n)
    ensures ReadType(Primitive(p), bs, off, h).Ok? ==>
      ReadType(Primitive(p), bs, off, h).value.next == off + PrimSize(p).n
  {
    FixedReadWidth(Primitive(p), bs, off, h);
  }

  /** A fixed descriptor reads successfully exactly when its width fits in the buffer,
      and then advances the cursor by exactly that width. */
  lemma {:induction false} FixedReadWidth(d: Desc, bs: seq<byte>, off: int, h: Snapshot)
    requires FixedDesc(d) && 0 <= off <= |bs|
    ensures ReadType(d, bs, off, h).Ok? <==> Fits(bs, off, Width(d))
    ensures ReadType(d, bs, off, h).Ok? ==> ReadType(d, bs, off, h).value.next == off + Width(d)
    decreases Rank(d)
  {
    match d
    case Primitive(p) =>
      if p == Matrix4x4 {
        ArrayAtSucceeds(bs, off, 16, F32);
      }
    case Composite(_, subs, _) =>
      FixedReadAllWidth(subs, bs, off, h);
  }

  lemma {:induction false} FixedReadAllWidth(ds: seq<Desc>, bs: seq<byte>, off: int, h: Snapshot)
    requires forall i :: 0 <= i < |ds| ==> FixedDesc(ds[i])
    requires 0 <= off <= |bs|
    ensures ReadAll(ds, bs, off, h).Ok? <==> Fits(bs, off, WidthAll(ds))
    ensures ReadAll(ds, bs, off, h).Ok? ==> ReadAll(ds, bs, off, h).value.next == off + WidthAll(ds)
    decreases RankAll(ds)
  {
    if ds != [] {
      FixedReadWidth(ds[0], bs, off, h);
      var x := ReadType(ds[0], bs, off, h);
      if x.Ok? {
        FixedReadAllWidth(ds[1..], bs, x.value.next, h);
      }
    }
  }

  /** `None` declares a size of one byte but its reader consumes nothing. */
  lemma NoneReadsNothing(bs: seq<byte>, off: int, h: Snapshot)
    ensures ReadType(Primitive(None), bs, off, h) == Ok(Decoded(VUndefined, off))
    ensures PrimSize(None) == Bytes(1)
  {
  }

  /** A `[T]` marker with a negative count reads as an empty array after the count. */
  lemma SeqNegativeCountIsEmpty(e: Desc, bs: seq<byte>, off: int, h: Snapshot)
    requires Int32Field(bs, off).Ok? && Int32Field(bs, off).value < 0
    ensures ReadType(SeqOf(e), bs, off, h) == Ok(Decoded(VList([]), off + 4))
  {
  }

  /** A typed-array descriptor with a negative count is a RangeError. */
  lemma TypedArrayNegativeCountFails(p: Prim, bs: seq<byte>, off: int, h: Snapshot)
    requires p == ArrayFloat32 || p == ArrayInt32 || p == ArrayUInt32
    requires Int32Field(bs, off).Ok? && Int32Field(bs, off).value < 0
    ensures ReadType(Primitive(p), bs, off, h) == Err(RangeError)
  {
  }

  /** `[T]` for a fixed `T`: the Int32 count `n`, then exactly `n` values of `T` taking
      `n * width` bytes (see `SpanIsProduct`); the read fails exactly when those bytes leave the buffer. */
  lemma FixedSeqRead(e: Desc, bs: seq<byte>, off: int, h: Snapshot)
    requires FixedDesc(e) && Fits(bs, off, 4)
    requires Int32Field(bs, off).value >= 0
    ensures var n := Int32Field(bs, off).value;
      var r := ReadType(SeqOf(e), bs, off, h);
      (r.Ok? <==> Fits(bs, off + 4, Span(n, Width(e)))) &&
      (r.Ok? ==> r.value.next == off + 4 + Span(n, Width(e)) && r.value.value.VList?
                 && |r.value.value.items| == n)
  {
    var n := Int32Field(bs, off).value;
    FixedSeqReadMany(e, bs, off + 4, n, h);
  }

  lemma {:induction false} FixedSeqReadMany(e: Desc, bs: seq<byte>, off: int, n: nat, h: Snapshot)
    requires FixedDesc(e) && 0 <= off <= |bs|
    ensures ReadSeq(e, bs, off, n, h).Ok? <==> Fits(bs, off, Span(n, Width(e)))
    ensures ReadSeq(e, bs, off, n, h).Ok? ==> ReadSeq(e, bs, off, n, h).value.next == off + Span(n, Width(e))
    decreases n
  {
    if n > 0 {
      var w := Width(e);
      FixedReadWidth(e, bs, off, h);
      var x := ReadType(e, bs, off, h);
      if x.Ok? {
        FixedSeqReadMany(e, bs, off + w, n - 1, h);
      }
    }
  }

  // ----- the string length prefix -----

  const TWO_28: int := 0x1000_0000

  lemma Pow2Of28()
    ensures Pow2(28) == TWO_28
  {
    Pow2Byte();
    Pow2Add(8, 8);
    Pow2Add(16, 12);
    Pow2Add(8, 4);
    assert Pow2(4) == 16;
  }

  /** Reference base-128 encoding: 7 bits per byte, low group first, 0x80 on every
      byte except the last. */
  function EncodeVarint(n: nat): (r: seq<byte>)
    ensures 1 <= |r|
    decreases n
  {
    if n < 128 then [n as byte] else [(n % 128 + 128) as byte] + EncodeVarint(n / 128)
  }

  /** The seven-bit groups of `n`, low group first. */
  function Digits(n: nat): (r: seq<int>)
    ensures 1 <= |r|
    decreases n
  {
    if n < 128 then [n] else [n % 128] + Digits(n / 128)
  }

  /** A length below 2^28 (at most four prefix bytes) is read back as the base-128
      value: the 32-bit `|` and `<<` of the source agree with the reference encoding. */
  lemma StringAtBase128(bs: seq<byte>, off: int, n: nat)
    requires n < TWO_28 && 0 <= off
    requires off + |EncodeVarint(n)| + n <= |bs|
    requires bs[off..off + |EncodeVarint(n)|] == EncodeVarint(n)
    ensures StringAt(bs, off)
      == Ok(Chunk(bs[off + |EncodeVarint(n)|..off + |EncodeVarint(n)| + n], off + |EncodeVarint(n)| + n))
  {
    PrefixOfEncoding(bs, off, n);
    assert Accumulate(Digits(n), 0, 0) == n by {
      AccumulateBase128(0, 0, n);
    }
    StringAtFromPrefix(bs, off, Digits(n), n, off + |EncodeVarint(n)|);
  }

  /** `readString` once its prefix has been read: the payload is the next `size` bytes. */
  lemma StringAtFromPrefix(bs: seq<byte>, off: int, gs: seq<int>, size: nat, p: int)
    requires PrefixGroups(bs, off) == Ok((gs, p)) && Accumulate(gs, 0, 0) == size
    requires Fits(bs, p, size)
    ensures StringAt(bs, off) == Ok(Chunk(bs[p..p + size], p + size))
  {
  }

  /** The reference encoding of `m` is read back, byte for byte, as the groups of `m`. */
  lemma {:induction false} PrefixOfEncoding(bs: seq<byte>, p: int, m: nat)
    requires 0 <= p && p + |EncodeVarint(m)| <= |bs|
    requires bs[p..p + |EncodeVarint(m)|] == EncodeVarint(m)
    ensures PrefixGroups(bs, p) == Ok((Digits(m), p + |EncodeVarint(m)|))
    decreases m
  {
    var e := EncodeVarint(m);
    EncodeVarintHead(m);
    assert bs[p] == e[0];
    if m >= 128 {
      var e' := EncodeVarint(m / 128);
      SliceTail(bs, p, e[0], e');
      PrefixOfEncoding(bs, p + 1, m / 128);
    }
  }

  /** The first byte of the reference encoding carries the low group, with bit 0x80
      set exactly when more groups follow. */
  lemma EncodeVarintHead(m: nat)
    ensures EncodeVarint(m)[0] as int % 128 == m % 128
    ensures m < 128 <==> EncodeVarint(m)[0] < 128
    ensures m < 128 ==> EncodeVarint(m) == [m as byte]
    ensures m >= 128 ==> EncodeVarint(m) == [EncodeVarint(m)[0]] + EncodeVarint(m / 128)
  {
  }

  lemma SliceTail(bs: seq<byte>, p: int, x: byte, rest: seq<byte>)
    requires 0 <= p && p + 1 + |rest| <= |bs| && bs[p..p + 1 + |rest|] == [x] + rest
    ensures bs[p + 1..p + 1 + |rest|] == rest
  {
    assert bs[p + 1..p + 1 + |rest|] == bs[p..p + 1 + |rest|][1..];
  }

  /** Folding the groups of `m` into an accumulator that holds the groups below bit `s`
      gives `acc + (m << s)`, as long as the value stays below 2^28. */
  lemma {:induction false} AccumulateBase128(acc: nat, s: nat, m: nat)
    requires s < 28 && acc < Pow2(s) && acc + ShiftLeft(m, s) < TWO_28
    ensures Accumulate(Digits(m), acc, s) == acc + ShiftLeft(m, s)
    decreases m
  {
    var g := m % 128;
    var size' := acc + ShiftLeft(g, s);
    var d := Digits(m);
    assert Accumulate(d, acc, s) == Accumulate(d[1..], size', s + 7) by {
      assert d[0] == g;
      GroupShift(acc, g, s, m);
      AccumulateStep(d, acc, s, size');
    }
    if m < 128 {
      assert d[1..] == [];
    } else {
      var m' := m / 128;
      assert d[1..] == Digits(m');
      assert s + 7 < 28 && size' < Pow2(s + 7) && size' + ShiftLeft(m', s + 7) == acc + ShiftLeft(m, s) by {
        NextGroup(acc, g, s, m, m');
      }
      AccumulateBase128(size', s + 7, m');
    }
  }

  /** One iteration of the prefix loop, with the new accumulator named. */
  lemma AccumulateStep(gs: seq<int>, acc: int, s: nat, size': int)
    requires gs != [] && Or32(acc, Shl32(gs[0], s)) == size'
    ensures Accumulate(gs, acc, s) == Accumulate(gs[1..], size', s + 7)
  {
  }

  /** The 32-bit `acc | (g << s)` is plain addition while everything stays below 2^28. */
  lemma GroupShift(acc: nat, g: nat, s: nat, m: nat)
    requires s < 28 && acc < Pow2(s) && g <= m && g < 128 && acc + ShiftLeft(m, s) < TWO_28
    ensures Or32(acc, Shl32(g, s)) == acc + ShiftLeft(g, s)
  {
    var y := ShiftLeft(g, s);
    assert acc + y < TWO_31 by {
      ShiftLeftMonotone(g, m, s);
    }
    assert Shl32(g, s) == y by {
      assert s % 32 == s;
      assert ToUint32(g) == g;
    }
    assert Or32(acc, y) == acc + y by {
      Pow2Word();
      OrBitsDisjoint(acc, g, s, WORD_BITS);
      assert ToUint32(acc) == acc;
      assert ToUint32(y) == y;
    }
  }

  /** Moving to the next seven-bit group: the shift stays below 28 and the partial sum
      stays below the next group's weight. */
  lemma NextGroup(acc: nat, g: nat, s: nat, m: nat, m': nat)
    requires m == 128 * m' + g && m' >= 1 && g < 128
    requires acc < Pow2(s) && acc + ShiftLeft(m, s) < TWO_28
    ensures s + 7 < 28
    ensures acc + ShiftLeft(g, s) < Pow2(s + 7)
    ensures acc + ShiftLeft(g, s) + ShiftLeft(m', s + 7) == acc + ShiftLeft(m, s)
  {
    GroupSplit(g, s, m, m');
    assert ShiftLeft(1, s + 7) == Pow2(s + 7) by {
      ShiftLeftIsProduct(1, s + 7);
    }
    ShiftLeftMonotone(1, m', s + 7);
    if s + 7 >= 28 {
      Pow2Monotone(28, s + 7);
      Pow2Of28();
    }
    GroupBelowNextWeight(acc, g, s);
  }

  /** `m << s` is its low group `g << s` plus the remaining groups `m' << (s + 7)`. */
  lemma GroupSplit(g: nat, s: nat, m: nat, m': nat)
    requires m == 128 * m' + g
    ensures ShiftLeft(m, s) == ShiftLeft(g, s) + ShiftLeft(m', s + 7)
  {
    assert ShiftLeft(m', s + 7) == ShiftLeft(128 * m', s) by {
      ShiftLeftIsProduct(m', 7);
      assert Pow2(7) == 128;
      ShiftLeftCompose(m', 7, s);
    }
    ShiftLeftAdd(128 * m', g, s);
  }

  /** A partial sum below `2^s` plus a group `g < 128` at weight `2^s` stays below `2^(s+7)`. */
  lemma GroupBelowNextWeight(acc: nat, g: nat, s: nat)
    requires acc < Pow2(s) && g < 128
    ensures acc + ShiftLeft(g, s) < Pow2(s + 7)
  {
    assert ShiftLeft(128, s) == Pow2(s + 7) by {
      ShiftLeftIsProduct(1, 7);
      assert Pow2(7) == 128;
      ShiftLeftCompose(1, 7, s);
      ShiftLeftIsProduct(1, s + 7);
    }
    assert ShiftLeft(1, s) == Pow2(s) by {
      ShiftLeftIsProduct(1, s);
    }
    ShiftLeftAdd(g, 128 - g, s);
    ShiftLeftMonotone(1, 128 - g, s);
  }

  /** Length 0: one zero byte and no payload. */
  lemma EmptyString(bs: seq<byte>, off: int)
    requires Fits(bs, off, 1) && bs[off] == 0x00
    ensures StringAt(bs, off) == Ok(Chunk([], off + 1))
  {
    StringAtBase128(bs, off, bs[off] as int);
    assert bs[off + 1..off + 1] == [];
  }

  /** Length 127: the single prefix byte 0x7F, then 127 payload bytes. */
  lemma StringLength127(bs: seq<byte>, off: int)
    requires Fits(bs, off, 128) && bs[off] == 0x7F
    ensures StringAt(bs, off) == Ok(Chunk(bs[off + 1..off + 128], off + 128))
  {
    StringAtBase128(bs, off, bs[off] as int);
  }

  /** Length 128: the prefix bytes 0x80 0x01, then 128 payload bytes. */
  lemma StringLength128(bs: seq<byte>, off: int)
    requires Fits(bs, off, 130) && bs[off] == 0x80 && bs[off + 1] == 0x01
    ensures StringAt(bs, off) == Ok(Chunk(bs[off + 2..off + 130], off + 130))
  {
    assert EncodeVarint(128) == [0x80, 0x01];
    StringAtBase128(bs, off, 128);
  }

  /** A five-byte prefix whose base-128 value is 2^31 sets the sign bit of the 32-bit
      accumulator: the length comes out negative and the read is a RangeError, however
      many payload bytes follow. */
  lemma FiveBytePrefixWraps(bs: seq<byte>, off: int)
    requires Fits(bs, off, 5) && bs[off..off + 5] == [0x80, 0x80, 0x80, 0x80, 0x08]
    ensures StringAt(bs, off) == Err(RangeError)
  {
    assert bs[off] == 0x80 && bs[off + 1] == 0x80 && bs[off + 2] == 0x80;
    assert bs[off + 3] == 0x80 && bs[off + 4] == 0x08;
    var g4 := bs[off + 4] as int % 128;
    var g0 := bs[off] as int % 128;
    var gs := [g0, g0, g0, g0, g4];
    assert PrefixGroups(bs, off + 4) == Ok((gs[4..], off + 5));
    assert PrefixGroups(bs, off + 3) == Ok((gs[3..], off + 5)) by {
      assert gs[3..] == [g0] + gs[4..];
    }
    assert PrefixGroups(bs, off + 2) == Ok((gs[2..], off + 5)) by {
      assert gs[2..] == [g0] + gs[3..];
    }
    assert PrefixGroups(bs, off + 1) == Ok((gs[1..], off + 5)) by {
      assert gs[1..] == [g0] + gs[2..];
    }
    assert gs == [g0] + gs[1..];
    assert PrefixGroups(bs, off) == Ok((gs, off + 5));
    LeadingZeroGroups(gs, 0, 0, g0, g4);
  }

  /** Zero groups leave a zero accumulator at zero; a last group 8 landing at bit 28
      then sets bit 31. */
  lemma {:induction false} LeadingZeroGroups(gs: seq<int>, acc: int, s: nat, zero: int, eight: int)
    requires acc == 0 && zero == 0 && eight == 8
    requires 1 <= |gs| && s + 7 * (|gs| - 1) == 28 && gs[|gs| - 1] == eight
    requires forall i :: 0 <= i < |gs| - 1 ==> gs[i] == zero
    ensures Accumulate(gs, acc, s) == -TWO_31
    decreases |gs|
  {
    if |gs| == 1 {
      assert Or32(acc, Shl32(gs[0], s)) == -TWO_31 by {
        SignBitGroup(acc, gs[0]);
      }
      AccumulateStep(gs, acc, s, -TWO_31);
      assert gs[1..] == [];
    } else {
      assert Or32(acc, Shl32(gs[0], s)) == 0 by {
        ZeroGroup(acc, gs[0], s);
      }
      AccumulateStep(gs, acc, s, 0);
      LeadingZeroGroups(gs[1..], acc, s + 7, zero, eight);
    }
  }

  /** OR with zero leaves a 32-bit integer unchanged. */
  lemma Or32Zero(acc: int, x: int)
    requires acc == 0 && IsInt32(x)
    ensures Or32(acc, x) == x
  {
    var u := ToUint32(x);
    assert ToUint32(acc) == 0;
    assert OrBits(0, u, WORD_BITS) == u by {
      Pow2Word();
      OrBitsZero(u, WORD_BITS);
    }
    Int32RoundTrip(x);
  }

  /** A continuation byte 0x80 adds nothing to a zero accumulator. */
  lemma ZeroGroup(acc: int, g: int, s: nat)
    requires acc == 0 && g == 0
    ensures Or32(acc, Shl32(g, s)) == 0
  {
    ShiftLeftIsProduct(0, s % 32);
    Or32Zero(acc, 0);
  }

  /** The fifth group 0x08 shifted by 28 lands on bit 31, which ToInt32 makes negative. */
  lemma SignBitGroup(acc: int, g: int)
    requires acc == 0 && g == 8
    ensures Or32(acc, Shl32(g, 28)) == -TWO_31
  {
    assert ShiftLeft(8, 28) == TWO_31 by {
      Pow2Word();
      assert ShiftLeft(1, 3) == 8;
      ShiftLeftCompose(1, 3, 28);
      ShiftLeftIsProduct(1, 31);
    }
    assert Shl32(g, 28) == -TWO_31;
    Or32Zero(acc, -TWO_31);
  }

  // ----- the tagged Any value -----

  /** Payload width of the fixed-size `Any` tags (`Bool`, UInt8, Int32, Int64, Float32,
      Float64, and the two colour tags). */
  function TagWidth(tag: int): nat
  {
    if tag == 0 || tag == 1 then 1
    else if tag == 2 || tag == 4 then 4
    else if tag == 3 || tag == 5 then 8
    else if tag == 7 || tag == 8 then 12
    else 0
  }

  /** Every fixed-size tag consumes the tag byte plus exactly its payload width, and
      fails exactly when that payload leaves the buffer. */
  lemma AnyFixedTagWidth(bs: seq<byte>, off: int, h: Snapshot)
    requires Fits(bs, off, 1) && bs[off] as int in {0, 1, 2, 3, 4, 5, 7, 8}
    ensures ReadAny(bs, off, h).Ok? <==> Fits(bs, off + 1, TagWidth(bs[off] as int))
    ensures ReadAny(bs, off, h).Ok? ==>
      ReadAny(bs, off, h).value.next == off + 1 + TagWidth(bs[off] as int)
  {
    if bs[off] == 7 || bs[off] == 8 {
      FixedReadWidth(RGB, bs, off + 1, h);
    }
  }

  /** Tags 0 and 1: a boolean byte and an unsigned byte. */
  lemma AnyByteValues(bs: seq<byte>, off: int, h: Snapshot)
    requires Fits(bs, off, 2) && (bs[off] == 0 || bs[off] == 1)
    ensures bs[off] == 0 ==> ReadAny(bs, off, h) == Ok(Decoded(VBool(bs[off + 1] != 0), off + 2))
    ensures bs[off] == 1 ==> ReadAny(bs, off, h) == Ok(Decoded(VNum(bs[off + 1] as int), off + 2))
  {
    assert LittleEndian(bs[off + 1..off + 2]) == bs[off + 1] as int;
  }

  /** Tags 2 to 5: an Int32, and the raw bytes of an Int64, a Float32 and a Float64. */
  lemma AnyNumberValues(bs: seq<byte>, off: int, h: Snapshot)
    requires Fits(bs, off, 1) && 2 <= bs[off] <= 5 && ReadAny(bs, off, h).Ok?
    ensures var v := ReadAny(bs, off, h).value.value;
      (bs[off] == 2 ==> v == VNum(Int32Of(bs[off + 1..off + 5]))) &&
      (bs[off] == 3 ==> v == VRaw(Int64Bits, bs[off + 1..off + 9])) &&
      (bs[off] == 4 ==> v == VRaw(Float32Bits, bs[off + 1..off + 5])) &&
      (bs[off] == 5 ==> v == VRaw(Float64Bits, bs[off + 1..off + 9]))
  {
  }

  /** Tag 6 is a string and tag 9 a nested dictionary. */
  lemma AnyStringAndDict(bs: seq<byte>, off: int, h: Snapshot)
    requires Fits(bs, off, 1) && (bs[off] == 6 || bs[off] == 9)
    ensures bs[off] == 6 ==> ReadAny(bs, off, h) == StrAt(bs, off + 1)
    ensures bs[off] == 9 ==> ReadAny(bs, off, h) == ReadDict(bs, off + 1, h)
  {
  }

  /** The three Float32 components of the colour descriptor, read as `new Color(r, g, b)`. */
  lemma ReadRGB(bs: seq<byte>, p: int, h: Snapshot)
    requires 0 <= p <= |bs|
    ensures ReadType(RGB, bs, p, h) ==
      if Fits(bs, p, 12) then
        Ok(Decoded(VObject("Color", [VRaw(Float32Bits, bs[p..p + 4]),
          VRaw(Float32Bits, bs[p + 4..p + 8]), VRaw(Float32Bits, bs[p + 8..p + 12])]), p + 12))
      else Err(RangeError)
  {
    var f := Primitive(Float32);
    assert [f, f, f][1..] == [f, f] && [f, f][1..] == [f] && [f][1..] == [];
    FixedReadWidth(RGB, bs, p, h);
    if Fits(bs, p, 12) {
      var r1 := VRaw(Float32Bits, bs[p..p + 4]);
      var r2 := VRaw(Float32Bits, bs[p + 4..p + 8]);
      var r3 := VRaw(Float32Bits, bs[p + 8..p + 12]);
      assert ReadAll([f], bs, p + 8, h) == Ok(Many([r3], p + 12)) by {
        assert ReadType(f, bs, p + 8, h) == Ok(Decoded(r3, p + 12));
        assert ReadAll([], bs, p + 12, h) == Ok(Many([], p + 12));
        assert [r3] + [] == [r3];
      }
      assert ReadAll([f, f], bs, p + 4, h) == Ok(Many([r2, r3], p + 12)) by {
        assert ReadType(f, bs, p + 4, h) == Ok(Decoded(r2, p + 8));
        assert [r2] + [r3] == [r2, r3];
      }
      assert ReadAll([f, f, f], bs, p, h) == Ok(Many([r1, r2, r3], p + 12)) by {
        assert ReadType(f, bs, p, h) == Ok(Decoded(r1, p + 4));
        assert [r1] + [r2, r3] == [r1, r2, r3];
      }
    } else {
      assert !Fits(bs, p, 4) || !Fits(bs, p + 4, 4) || !Fits(bs, p + 8, 4);
      if !Fits(bs, p, 4) {
        assert ReadType(f, bs, p, h) == Err(RangeError);
      } else if !Fits(bs, p + 4, 4) {
        assert ReadType(f, bs, p, h) == Ok(Decoded(VRaw(Float32Bits, bs[p..p + 4]), p + 4));
        assert ReadType(f, bs, p + 4, h) == Err(RangeError);
        assert ReadAll([f, f], bs, p + 4, h) == Err(RangeError);
        assert ReadAll([f, f, f], bs, p, h) == Err(RangeError);
      } else {
        assert ReadType(f, bs, p, h) == Ok(Decoded(VRaw(Float32Bits, bs[p..p + 4]), p + 4));
        assert ReadType(f, bs, p + 4, h) == Ok(Decoded(VRaw(Float32Bits, bs[p + 4..p + 8]), p + 8));
        assert ReadType(f, bs, p + 8, h) == Err(RangeError);
        assert ReadAll([f], bs, p + 8, h) == Err(RangeError);
        assert ReadAll([f, f], bs, p + 4, h) == Err(RangeError);
        assert ReadAll([f, f, f], bs, p, h) == Err(RangeError);
      }
    }
  }

  /** Tags 7 and 8 both decode the colour descriptor: twelve bytes of three Float32s. */
  lemma AnyColorValue(bs: seq<byte>, off: int, h: Snapshot)
    requires Fits(bs, off, 1) && (bs[off] == 7 || bs[off] == 8)
    ensures ReadAny(bs, off, h) ==
      if Fits(bs, off + 1, 12) then
        Ok(Decoded(VObject("Color", [VRaw(Float32Bits, bs[off + 1..off + 5]),
          VRaw(Float32Bits, bs[off + 5..off + 9]), VRaw(Float32Bits, bs[off + 9..off + 13])]), off + 13))
      else Err(RangeError)
  {
    ReadRGB(bs, off + 1, h);
  }

  /** Tags 7 and 8 are aliases: the same payload decodes to the same colour. */
  lemma ColorTagsAlias(bs: seq<byte>, off: int, h: Snapshot)
    requires 0 <= off < |bs|
    ensures ReadAny(bs[off := 7], off, h) == ReadAny(bs[off := 8], off, h)
  {
    var b7, b8 := bs[off := 7], bs[off := 8];
    AnyColorValue(b7, off, h);
    AnyColorValue(b8, off, h);
    if off + 13 <= |bs| {
      assert b7[off + 1..off + 5] == b8[off + 1..off + 5];
      assert b7[off + 5..off + 9] == b8[off + 5..off + 9];
      assert b7[off + 9..off + 13] == b8[off + 9..off + 13];
    }
  }

  /** An unknown tag is only logged: the value is `undefined` and only the tag byte is
      consumed, so decoding carries on after it. */
  lemma AnyUnknownTag(bs: seq<byte>, off: int, h: Snapshot)
    requires Fits(bs, off, 1) && bs[off] > 9
    ensures ReadAny(bs, off, h) == Ok(Decoded(VUndefined, off + 1))
  {
  }

  // ----- Dict -----

  /** A dictionary with a negative key count is empty and consumes just the count. */
  lemma DictNegativeCount(bs: seq<byte>, off: int, h: Snapshot)
    requires Int32Field(bs, off).Ok? && Int32Field(bs, off).value < 0
    ensures ReadDict(bs, off, h) == Ok(Decoded(VDict(map[]), off + 4))
  {
  }

  /** The key/value pairs the `readDict` loop reads, in the order read, and where the
      last one ends. */
  function EntryPairs(bs: seq<byte>, off: int, n: nat, h: Snapshot): Result<(seq<(seq<byte>, Value)>, int)>
    requires 0 <= off <= |bs|
    decreases n
  {
    if n == 0 then Ok(([], off))
    else
      var key :- StringAt(bs, off);
      var val :- ReadAny(bs, key.next, h);
      var rest :- EntryPairs(bs, val.next, n - 1, h);
      Ok(([(key.bytes, val.value)] + rest.0, rest.1))
  }

  /** `obj[key] = val` for each pair in turn. */
  function Updated(acc: map<seq<byte>, Value>, ps: seq<(seq<byte>, Value)>): map<seq<byte>, Value>
    decreases |ps|
  {
    if ps == [] then acc else Updated(acc[ps[0].0 := ps[0].1], ps[1..])
  }

  /** The `readDict` loop reads the pairs of `EntryPairs` and stores them in order, and it
      fails exactly when one of those reads fails. */
  lemma {:induction false} EntriesArePairs(bs: seq<byte>, off: int, n: nat, acc: map<seq<byte>, Value>, h: Snapshot)
    requires 0 <= off <= |bs|
    ensures ReadEntries(bs, off, n, acc, h).Ok? <==> EntryPairs(bs, off, n, h).Ok?
    ensures EntryPairs(bs, off, n, h).Ok? ==>
      ReadEntries(bs, off, n, acc, h).value ==
        Entries(Updated(acc, EntryPairs(bs, off, n, h).value.0), EntryPairs(bs, off, n, h).value.1)
    decreases n
  {
    if n > 0 {
      var key := StringAt(bs, off);
      if key.Ok? {
        var val := ReadAny(bs, key.value.next, h);
        if val.Ok? {
          var ps := [(key.value.bytes, val.value.value)];
          EntriesArePairs(bs, val.value.next, n - 1, acc[key.value.bytes := val.value.value], h);
          var rest := EntryPairs(bs, val.value.next, n - 1, h);
          if rest.Ok? {
            assert (ps + rest.value.0)[1..] == rest.value.0;
          }
        }
      }
    }
  }

  /** The value stored under a key is the one of the last pair with that key. */
  lemma {:induction false} LastPairWins(acc: map<seq<byte>, Value>, ps: seq<(seq<byte>, Value)>, i: int)
    requires 0 <= i < |ps|
    requires forall j :: i < j < |ps| ==> ps[j].0 != ps[i].0
    ensures ps[i].0 in Updated(acc, ps) && Updated(acc, ps)[ps[i].0] == ps[i].1
    decreases |ps|
  {
    var acc' := acc[ps[0].0 := ps[0].1];
    if i == 0 {
      PairsKeep(acc', ps[1..], ps[0].0);
    } else {
      assert forall j :: i - 1 < j < |ps[1..]| ==> ps[1..][j].0 != ps[1..][i - 1].0 by {
        forall j | i - 1 < j < |ps[1..]|
          ensures ps[1..][j].0 != ps[1..][i - 1].0
        {
          assert ps[1..][j] == ps[j + 1];
        }
      }
      LastPairWins(acc', ps[1..], i - 1);
    }
  }

  /** A key no pair mentions keeps what it had, or its absence. */
  lemma {:induction false} PairsKeep(acc: map<seq<byte>, Value>, ps: seq<(seq<byte>, Value)>, k: seq<byte>)
    requires forall j :: 0 <= j < |ps| ==> ps[j].0 != k
    ensures k in Updated(acc, ps) <==> k in acc
    ensures k in acc ==> Updated(acc, ps)[k] == acc[k]
    decreases |ps|
  {
    if ps != [] {
      assert ps[0].0 != k;
      assert forall j :: 0 <= j < |ps[1..]| ==> ps[1..][j].0 != k by {
        forall j | 0 <= j < |ps[1..]|
          ensures ps[1..][j].0 != k
        {
          assert ps[1..][j] == ps[j + 1];
        }
      }
      PairsKeep(acc[ps[0].0 := ps[0].1], ps[1..], k);
    }
  }

  /** How often the `readDict` loop runs for a key count `n`. */
  function KeyCount(n: int): nat
  {
    if n < 0 then 0 else n
  }

  /** `readDict` keeps, for each key, the value of the last entry with that key: an entry
      that no later entry repeats the key of is what the dictionary holds. */
  lemma DictLaterKeyWins(bs: seq<byte>, off: int, h: Snapshot, i: int)
    requires Int32Field(bs, off).Ok?
    requires var ps := EntryPairs(bs, off + 4, KeyCount(Int32Field(bs, off).value), h);
      ps.Ok? && 0 <= i < |ps.value.0| && forall j :: i < j < |ps.value.0| ==> ps.value.0[j].0 != ps.value.0[i].0
    ensures ReadDict(bs, off, h).Ok? && ReadDict(bs, off, h).value.value.VDict?
    ensures var e := EntryPairs(bs, off + 4, KeyCount(Int32Field(bs, off).value), h).value.0[i];
      e.0 in ReadDict(bs, off, h).value.value.entries && ReadDict(bs, off, h).value.value.entries[e.0] == e.1
  {
    var m := KeyCount(Int32Field(bs, off).value);
    EntriesArePairs(bs, off + 4, m, map[], h);
    LastPairWins(map[], EntryPairs(bs, off + 4, m, h).value.0, i);
  }

  /** Two entries with the same key: a count of 2, then key "a" with `Any` Int32 1, then
      key "a" again with `Any` Int32 2. The later value overwrites the earlier one. */
  lemma DictDuplicateKeyExample(bs: seq<byte>, off: int, h: Snapshot)
    requires 0 <= off && off + 18 <= |bs| && bs[off..off + 4] == [2, 0, 0, 0]
    requires bs[off + 4..off + 11] == [1, 0x61, 2, 1, 0, 0, 0]
    requires bs[off + 11..off + 18] == [1, 0x61, 2, 2, 0, 0, 0]
    ensures ReadDict(bs, off, h) == Ok(Decoded(VDict(map[[0x61] := VNum(2)]), off + 18))
  {
    SmallInt32(bs, off, 2);
    DuplicateKeyEntries(bs, off + 4, h);
  }

  /** Key "a" := 1, then key "a" := 2, starting at `p`. */
  lemma DuplicateKeyEntries(bs: seq<byte>, p: int, h: Snapshot)
    requires 0 <= p && p + 14 <= |bs|
    requires bs[p..p + 7] == [1, 0x61, 2, 1, 0, 0, 0] && bs[p + 7..p + 14] == [1, 0x61, 2, 2, 0, 0, 0]
    ensures ReadEntries(bs, p, 2, map[], h) == Ok(Entries(map[[0x61] := VNum(2)], p + 14))
  {
    var a: seq<byte> := [0x61];
    KeyAThenInt32(bs, p, 2, map[], 1, h);
    assert map[][a := VNum(1)] == map[a := VNum(1)];
    KeyAThenInt32(bs, p + 7, 1, map[a := VNum(1)], 2, h);
    assert map[a := VNum(1)][a := VNum(2)] == map[a := VNum(2)];
  }

  /** One dictionary entry: key "a", then `Any` Int32 `v`, seven bytes in all. */
  lemma KeyAThenInt32(bs: seq<byte>, p: int, n: nat, acc: map<seq<byte>, Value>, v: byte, h: Snapshot)
    requires Fits(bs, p, 7) && n > 0
    requires bs[p..p + 7] == [1, 0x61, 2, v, 0, 0, 0]
    ensures ReadEntries(bs, p, n, acc, h) == ReadEntries(bs, p + 7, n - 1, acc[[0x61] := VNum(v as int)], h)
  {
    assert bs[p] == 1 && bs[p + 1] == 0x61 && bs[p + 2] == 2;
    assert bs[p + 3..p + 7] == bs[p..p + 7][3..7];
    KeyA(bs, p);
    AnyInt32(bs, p + 2, v, h);
    EntriesStep(bs, p, n, acc, h, [0x61], p + 2, VNum(v as int), p + 7);
  }

  /** The `Any` tag 2 followed by a small Int32. */
  lemma AnyInt32(bs: seq<byte>, off: int, a: byte, h: Snapshot)
    requires Fits(bs, off, 5) && bs[off] == 2 && bs[off + 1..off + 5] == [a, 0, 0, 0]
    ensures ReadAny(bs, off, h) == Ok(Decoded(VNum(a as int), off + 5))
  {
    SmallInt32(bs, off + 1, a);
    assert bs[off..off + 1] == [2];
    assert LittleEndian([2]) == 2 by {
      assert [2 as byte][1..] == [];
    }
  }

  /** A small non-negative Int32 stored little-endian as `a, 0, 0, 0`. */
  lemma SmallInt32(bs: seq<byte>, off: int, a: byte)
    requires Fits(bs, off, 4) && bs[off..off + 4] == [a, 0, 0, 0]
    ensures Int32Field(bs, off) == Ok(a as int)
  {
    var w := bs[off..off + 4];
    assert w[1..] == [0, 0, 0] && w[1..][1..] == [0, 0] && w[1..][1..][1..] == [0];
    assert w[1..][1..][1..][1..] == [];
    assert LittleEndian(w[1..][1..][1..]) == 0;
    assert LittleEndian(w[1..][1..]) == 0;
    assert LittleEndian(w[1..]) == 0;
    assert LittleEndian(w) == a as int;
    Pow2Word();
  }

  /** The one-byte key "a" with its one-byte length prefix. */
  lemma KeyA(bs: seq<byte>, off: int)
    requires Fits(bs, off, 2) && bs[off] == 1 && bs[off + 1] == 0x61
    ensures StringAt(bs, off) == Ok(Chunk([0x61], off + 2))
  {
    StringAtBase128(bs, off, 1);
    assert bs[off + 1..off + 2] == [0x61];
  }
}
