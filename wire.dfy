/** Bytes, little-endian integers and the JavaScript 32-bit integer operators
    (`ToInt32`, `ToUint32`, `|`, `<<`) that the byte-stream code relies on. */
module Wire {

  newtype byte = b: int | 0 <= b < 256

  /** What a JavaScript exception thrown while handling a frame is modelled as. */
  datatype Fault =
    | RangeError      // DataView access out of bounds, invalid buffer or typed-array length
    | TypeError       // a missing method or property was called or dereferenced
    | Unmodelled      // a JavaScript coercion the model does not follow (see README)

  datatype Result<+T> = Ok(value: T) | Err(fault: Fault) {
    predicate IsFailure() { Err? }

    function PropagateFailure<U>(): Result<U>
      requires Err?
    {
      Err(fault)
    }

    function Extract(): T
      requires Ok?
    {
      value
    }
  }

  function Pow2(n: nat): (r: nat)
    ensures r >= 1
  {
    if n == 0 then 1 else 2 * Pow2(n - 1)
  }

  lemma {:induction false} Pow2Add(a: nat, b: nat)
    ensures Pow2(a + b) == Pow2(a) * Pow2(b)
  {
    if a > 0 { Pow2Add(a - 1, b); }
  }

  lemma {:induction false} Pow2Monotone(a: nat, b: nat)
    requires a <= b
    ensures Pow2(a) <= Pow2(b)
  {
    if a < b { Pow2Monotone(a, b - 1); }
  }

  const TWO_32: int := 0x1_0000_0000
  const TWO_31: int := 0x8000_0000
  /** Width of the JavaScript bitwise operators. */
  const WORD_BITS: nat := 32

  lemma Pow2Byte()
    ensures Pow2(8) == 256
  {
    assert Pow2(2) == 4;
    Pow2Add(2, 2);
    Pow2Add(4, 4);
  }

  lemma Pow2Word()
    ensures Pow2(WORD_BITS) == TWO_32 && Pow2(WORD_BITS - 1) == TWO_31
  {
    var k := WORD_BITS / 4;
    assert Pow2(k) == 256 by {
      Pow2Byte();
    }
    Pow2Add(k, k);
    Pow2Add(2 * k, 2 * k);
    Pow2Add(1, 4 * k - 1);
  }

  /** Unsigned value of `bs`, least significant byte first. */
  function LittleEndian(bs: seq<byte>): (r: nat)
  {
    if bs == [] then 0 else bs[0] as int + 256 * LittleEndian(bs[1..])
  }

  /** The `width` low bytes of `u`, least significant first. */
  function EncodeLittleEndian(u: nat, width: nat): (r: seq<byte>)
    ensures |r| == width
  {
    if width == 0 then [] else [(u % 256) as byte] + EncodeLittleEndian(u / 256, width - 1)
  }

  lemma {:induction false} LittleEndianBound(bs: seq<byte>)
    ensures LittleEndian(bs) < Pow2(8 * |bs|)
  {
    if bs != [] {
      LittleEndianBound(bs[1..]);
      Pow2Add(8, 8 * (|bs| - 1));
      Pow2Byte();
    }
  }

  /** Decoding the little-endian encoding of any value that fits gives it back. */
  lemma {:induction false} LittleEndianRoundTrip(u: nat, width: nat)
    requires u < Pow2(8 * width)
    ensures LittleEndian(EncodeLittleEndian(u, width)) == u
  {
    if width > 0 {
      Pow2Add(8, 8 * (width - 1));
      Pow2Byte();
      LittleEndianRoundTrip(u / 256, width - 1);
      var e := EncodeLittleEndian(u, width);
      assert e[1..] == EncodeLittleEndian(u / 256, width - 1);
    }
  }

  /** JavaScript ToUint32 of an integral number. */
  function ToUint32(x: int): (r: nat)
    ensures r < TWO_32
    ensures 0 <= x < TWO_32 ==> r == x
  {
    x % TWO_32
  }

  /** JavaScript ToInt32 of an integral number: wraps into [-2^31, 2^31). */
  function ToInt32(x: int): (r: int)
    ensures -TWO_31 <= r < TWO_31
    ensures -TWO_31 <= x < TWO_31 ==> r == x
  {
    var u := x % TWO_32;
    if u < TWO_31 then u else u - TWO_32
  }

  predicate IsInt32(x: int) { -TWO_31 <= x < TWO_31 }

  /** A 32-bit integer survives the trip through its unsigned reading. */
  lemma Int32RoundTrip(x: int)
    requires IsInt32(x)
    ensures ToInt32(ToUint32(x)) == x
  {
    if x < 0 {
      assert ToUint32(x) == x + TWO_32;
    }
  }

  /** Bitwise OR of the low `n` bits of two naturals. */
  function OrBits(x: nat, y: nat, n: nat): (r: nat)
    ensures r < Pow2(n)
  {
    if n == 0 then 0
    else (if x % 2 == 1 || y % 2 == 1 then 1 else 0) + 2 * OrBits(x / 2, y / 2, n - 1)
  }

  /** JavaScript `a | b`. */
  function Or32(a: int, b: int): (r: int)
    ensures IsInt32(r)
  {
    ToInt32(OrBits(ToUint32(a), ToUint32(b), WORD_BITS))
  }

  /** `x` shifted left by `s` bits without wrap-around, i.e. `x * 2^s`. */
  function ShiftLeft(x: nat, s: nat): nat
  {
    if s == 0 then x else 2 * ShiftLeft(x, s - 1)
  }

  /** JavaScript `x << s`: the low five bits of the count, the operand's 32 bits, and the
      result reinterpreted as a signed 32-bit integer. */
  function Shl32(x: int, s: int): (r: int)
    ensures IsInt32(r)
  {
    ToInt32(ShiftLeft(ToUint32(x), s % 32))
  }

  lemma {:induction false} ShiftLeftIsProduct(x: nat, s: nat)
    ensures ShiftLeft(x, s) == x * Pow2(s)
  {
    if s > 0 { ShiftLeftIsProduct(x, s - 1); }
  }

  lemma {:induction false} ShiftLeftAdd(a: nat, b: nat, s: nat)
    ensures ShiftLeft(a + b, s) == ShiftLeft(a, s) + ShiftLeft(b, s)
  {
    if s > 0 { ShiftLeftAdd(a, b, s - 1); }
  }

  lemma {:induction false} ShiftLeftCompose(a: nat, t: nat, s: nat)
    ensures ShiftLeft(ShiftLeft(a, t), s) == ShiftLeft(a, t + s)
  {
    if s > 0 { ShiftLeftCompose(a, t, s - 1); }
  }

  lemma {:induction false} ShiftLeftMonotone(a: nat, b: nat, s: nat)
    requires a <= b
    ensures ShiftLeft(a, s) <= ShiftLeft(b, s)
  {
    if s > 0 { ShiftLeftMonotone(a, b, s - 1); }
  }

  /** OR of values whose set bits do not overlap is their sum. */
  lemma {:induction false} OrBitsDisjoint(x: nat, z: nat, k: nat, n: nat)
    requires k <= n && x < Pow2(k) && ShiftLeft(z, k) < Pow2(n)
    ensures OrBits(x, ShiftLeft(z, k), n) == x + ShiftLeft(z, k)
  {
    if k == 0 {
      OrBitsZero(z, n);
    } else {
      OrBitsDisjoint(x / 2, z, k - 1, n - 1);
    }
  }

  lemma {:induction false} OrBitsZero(y: nat, n: nat)
    requires y < Pow2(n)
    ensures OrBits(0, y, n) == y
  {
    if n > 0 {
      Pow2Add(1, n - 1);
      OrBitsZero(y / 2, n - 1);
    }
  }
}
