/** Decoded values and type descriptors (`PrimitiveType`, `CompositeType` and the
    one-element-array sequence marker) of the browser end of the RPC channel. */
module Descriptors {
  import opened Wire

  /** An object owned by an external collaborator: a three.js mesh, a material, a GUI
      panel, or the process-wide default material. Only its identity matters here. */
  datatype Obj = DefaultMaterial | External(serial: nat)

  /** Fixed-width reads whose numeric interpretation is not modelled. */
  datatype RawKind = Int64Bits | UInt64Bits | Float16Bits | Float32Bits | Float64Bits

  /** A JavaScript value as produced by a reader or returned by a handler. Strings are
      their raw UTF-8 bytes, dictionaries are keyed by those bytes. */
  datatype Value =
    | VUndefined
    | VBool(b: bool)
    | VNum(n: int)
    | VRaw(kind: RawKind, bits: seq<byte>)
    | VStr(utf8: seq<byte>)
    | VList(items: seq<Value>)
    | VObject(cls: string, args: seq<Value>)
    | VDict(entries: map<seq<byte>, Value>)
    | VRef(obj: Obj)

  /** The `PrimitiveType` constants. `Matrix4x4Y` is the same object as `Matrix4x4`. */
  datatype Prim =
    | None | Bool | Int64 | Int32 | Float64 | Float32 | Matrix4x4
    | ArrayFloat32 | ArrayInt32 | ArrayUInt32 | Str | Id | MatId | GUIId
    | Dict | Any | UntypedObject

  /** What a `CompositeType` does with the values of its sub-descriptors: `args => args`,
      or a three.js constructor applied to them. */
  datatype Combiner = Identity | Construct(cls: string)

  datatype Desc =
    | Primitive(prim: Prim)
    | Composite(name: string, subtypes: seq<Desc>, combiner: Combiner)
    | SeqOf(elem: Desc)   // the JavaScript one-element array `[T]`

  /** The `size` property: a byte count, `Infinity`, or absent (`undefined`). */
  datatype Size = Bytes(n: nat) | Infinite | Undefined

  /** The `size` argument of each `PrimitiveType`: every primitive declares one, a byte
      count of 1, 4, 8 or 64 for the fixed-width ones and `Infinity` for arrays,
      strings, `Dict`, `Any` and `UntypedObject`. */
  function PrimSize(p: Prim): (r: Size)
    ensures !r.Undefined?
    ensures r.Bytes? ==> r.n == 1 || r.n == 4 || r.n == 8 || r.n == 64
    ensures r.Infinite? <==>
      p in {ArrayFloat32, ArrayInt32, ArrayUInt32, Str, Dict, Any, UntypedObject}
  {
    match p
    case None => Bytes(1)
    case Bool => Bytes(1)
    case Int64 => Bytes(8)
    case Int32 => Bytes(4)
    case Float64 => Bytes(8)
    case Float32 => Bytes(4)
    case Matrix4x4 => Bytes(16 * 4)
    case Id => Bytes(4)
    case MatId => Bytes(4)
    case GUIId => Bytes(4)
    case _ => Infinite
  }

  /** `type.size`: composites and `[T]` markers have no such property. */
  function SizeOf(d: Desc): (r: Size)
    ensures r.Undefined? <==> !d.Primitive?
  {
    match d
    case Primitive(p) => PrimSize(p)
    case _ => Undefined
  }

  /** `combiner(values)` of a composite: the parts, in declared order and unchanged,
      either as the array itself or as the constructor's arguments. */
  function Combine(c: Combiner, parts: seq<Value>): (r: Value)
    ensures r.VList? <==> c.Identity?
    ensures r.VList? ==> r.items == parts
    ensures !r.VList? ==> r.VObject? && r.cls == c.cls && r.args == parts
  {
    match c
    case Identity => VList(parts)
    case Construct(cls) => VObject(cls, parts)
  }

  const Float3: Desc :=
    Composite("FLoat3", [Primitive(Float32), Primitive(Float32), Primitive(Float32)], Identity)
  const Vector3d: Desc :=
    Composite("Vector3d", [Primitive(Float32), Primitive(Float32), Primitive(Float32)], Construct("Vector3"))
  const Point3d: Desc :=
    Composite("Point3d", [Primitive(Float32), Primitive(Float32), Primitive(Float32)], Construct("Vector3"))
  const Point2d: Desc :=
    Composite("Point2d", [Primitive(Float32), Primitive(Float32)], Construct("Vector2"))
  const RGB: Desc :=
    Composite("FLoat3", [Primitive(Float32), Primitive(Float32), Primitive(Float32)], Construct("Color"))

  /** A measure on descriptors that the mutually recursive readers decrease. */
  function Rank(d: Desc): (r: nat)
    ensures r >= 1
  {
    match d
    case Primitive(_) => 1
    case SeqOf(e) => Rank(e) + 1
    case Composite(_, subs, _) => RankAll(subs) + 1
  }

  function RankAll(ds: seq<Desc>): (r: nat)
    ensures ds != [] ==> r > Rank(ds[0]) && r > RankAll(ds[1..])
  {
    if ds == [] then 0 else Rank(ds[0]) + 1 + RankAll(ds[1..])
  }

  /** JavaScript truthiness, used by the `Bool` writer (`v ? 1 : 0`): every array,
      object, dictionary and reference is truthy, even an empty one; `undefined` and a
      number whose bytes are all zero are falsy. */
  predicate Truthy(v: Value)
    ensures v.VList? || v.VObject? || v.VDict? || v.VRef? ==> Truthy(v)
    ensures v.VUndefined? ==> !Truthy(v)
    ensures v.VRaw? && (forall i :: 0 <= i < |v.bits| ==> v.bits[i] == 0) ==> !Truthy(v)
  {
    match v
    case VUndefined => false
    case VBool(b) => b
    case VNum(n) => n != 0
    case VRaw(kind, bits) => !RawFalsy(kind, bits)
    case VStr(s) => s != []
    case _ => true
  }

  /** A raw number is falsy when it is zero (either sign) or NaN; an all-zero bit
      pattern is +0 in every format. */
  predicate RawFalsy(kind: RawKind, bits: seq<byte>)
    ensures (forall i :: 0 <= i < |bits| ==> bits[i] == 0) ==> RawFalsy(kind, bits)
  {
    ZeroBits(bits);
    var u := LittleEndian(bits);
    match kind
    case Int64Bits => u == 0
    case UInt64Bits => u == 0
    case Float16Bits => FloatFalsy(u, 5, 10)
    case Float32Bits => FloatFalsy(u, 8, 23)
    case Float64Bits => FloatFalsy(u, 11, 52)
  }

  /** An IEEE 754 bit pattern with `e` exponent and `m` mantissa bits is +0, -0 or NaN.
      Below the exponent field (a subnormal or zero, sign clear) only 0 itself is
      falsy. */
  predicate FloatFalsy(u: nat, e: nat, m: nat)
    ensures u == 0 ==> FloatFalsy(u, e, m)
    ensures e > 0 && u < Pow2(m) ==> (FloatFalsy(u, e, m) <==> u == 0)
  {
    var exponent := (u / Pow2(m)) % Pow2(e);
    var mantissa := u % Pow2(m);
    (exponent == 0 && mantissa == 0) || (exponent == Pow2(e) - 1 && mantissa != 0)
  }

  /** Bytes that are all zero are the number 0. */
  lemma {:induction false} ZeroBits(bits: seq<byte>)
    ensures (forall i :: 0 <= i < |bits| ==> bits[i] == 0) ==> LittleEndian(bits) == 0
  {
    if bits != [] {
      ZeroBits(bits[1..]);
      if forall i :: 0 <= i < |bits| ==> bits[i] == 0 {
        assert forall i :: 0 <= i < |bits[1..]| ==> bits[1..][i] == bits[i + 1];
      }
    }
  }
}
