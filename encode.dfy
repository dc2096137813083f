/** What `IODataView.writeType` and the `write` lambdas of the descriptors do to a
    fixed-size reply buffer, the cursor and the handle tables. A write lambda that
    calls a method `IODataView` does not define fails with a TypeError. */
module Encode {
  import opened Wire
  import opened Descriptors
  import opened Handles
  import opened Decode

  /** The writer's state: the reply buffer (its length is fixed when it is allocated),
      the cursor, and the handle tables, which the handle writers append to. */
  datatype Out = Out(buf: seq<byte>, off: int, tables: Snapshot)

  /** The state after a write and whether it threw. A throwing write keeps what it did
      before the throw: bytes already stored, the moved cursor, the appended handles. */
  datatype Wrote = Wrote(out: Out, status: Result<()>)

  /** `buf` with the bytes from `off` replaced by `bytes`. */
  function Store(buf: seq<byte>, off: int, bytes: seq<byte>): (r: seq<byte>)
    requires 0 <= off && off + |bytes| <= |buf|
    ensures |r| == |buf|
    ensures r[..off] == buf[..off] && r[off..off + |bytes|] == bytes
    ensures r[off + |bytes|..] == buf[off + |bytes|..]
  {
    buf[..off] + bytes + buf[off + |bytes|..]
  }

  /** The four bytes `setInt32(_, n, true)` stores: `n` wrapped to 32 bits, low byte
      first. */
  function Int32Bytes(n: int): (r: seq<byte>)
    ensures |r| == 4
  {
    EncodeLittleEndian(ToUint32(n), 4)
  }

  /** JavaScript ToNumber of a value, where the model knows it: `undefined` and objects
      without a numeric `valueOf` give NaN, which ToInt32 turns into 0. On booleans and
      numbers it agrees with truthiness: the number is non-zero exactly when the value
      is truthy. */
  function NumberOf(v: Value): (r: Result<int>)
    ensures v.VBool? || v.VNum? ==> r.Ok? && (r.value != 0 <==> Truthy(v))
    ensures v.VUndefined? || v.VRef? || v.VObject? || v.VDict? ==> r == Ok(0)
  {
    match v
    case VNum(n) => Ok(n)
    case VBool(b) => Ok(if b then 1 else 0)
    case VUndefined => Ok(0)
    case VRef(_) => Ok(0)
    case VObject(_, _) => Ok(0)
    case VDict(_) => Ok(0)
    case _ => Err(Unmodelled)
  }

  /** `v.length` as `writeInt32` stores it: the item count of an array; a missing
      property (`undefined`, then NaN) becomes 0; reading a property of `undefined`
      throws. A string's length counts UTF-16 units, which the model does not keep. */
  function LengthOf(v: Value): (r: Result<int>)
    ensures v.VList? ==> r == Ok(|v.items|)
    ensures r.Err? <==> v.VUndefined? || v.VStr?
  {
    match v
    case VList(items) => Ok(|items|)
    case VUndefined => Err(TypeError)
    case VStr(_) => Err(Unmodelled)
    case _ => Ok(0)
  }

  /** `writeInt32(n)`: the cursor moves first, then `setInt32` stores at the old
      position or throws a RangeError when the four bytes leave the buffer. */
  function PutInt32(o: Out, n: int): (r: Wrote)
    ensures r.out.off == o.off + 4 && r.out.tables == o.tables && |r.out.buf| == |o.buf|
    ensures r.status.Ok? <==> Fits(o.buf, o.off, 4)
    ensures r.status.Ok? ==> r.out.buf == Store(o.buf, o.off, Int32Bytes(n))
    ensures r.status.Err? ==> r.status.fault == RangeError && r.out.buf == o.buf
  {
    if Fits(o.buf, o.off, 4) then
      Wrote(o.(buf := Store(o.buf, o.off, Int32Bytes(n)), off := o.off + 4), Ok(()))
    else Wrote(o.(off := o.off + 4), Err(RangeError))
  }

  /** `writeUInt8(u)` for `u` in 0..255. */
  function PutUInt8(o: Out, u: byte): (r: Wrote)
    ensures r.out.off == o.off + 1 && r.out.tables == o.tables && |r.out.buf| == |o.buf|
    ensures r.status.Ok? <==> Fits(o.buf, o.off, 1)
    ensures r.status.Ok? ==> r.out.buf == Store(o.buf, o.off, [u])
    ensures r.status.Err? ==> r.status.fault == RangeError && r.out.buf == o.buf
  {
    if Fits(o.buf, o.off, 1) then
      Wrote(o.(buf := Store(o.buf, o.off, [u]), off := o.off + 1), Ok(()))
    else Wrote(o.(off := o.off + 1), Err(RangeError))
  }

  /** The surviving `writeArrayFloat32(n, v)`: it writes the Int32 `n` and calls itself
      with the same arguments, so it stores `n` at every following four-byte position
      until `setInt32` throws a RangeError at the end of the buffer (or the call stack
      overflows, which is a RangeError as well). */
  function FillInt32(o: Out, n: int): (r: Wrote)
    ensures r.status == Err(RangeError)
    ensures r.out.tables == o.tables && |r.out.buf| == |o.buf|
    decreases Rem(o.buf, o.off)
  {
    var w := PutInt32(o, n);
    if w.status.Err? then w else FillInt32(w.out, n)
  }

  /** `addMesh`/`addMaterial`/`addGUI` of the value a handler returned. Only a three.js
      object (a reference) is modelled; `addMesh` of anything else throws on
      `obj.geometry.computeVertexNormals()`, and the other two store arbitrary values,
      which a table of objects does not represent. */
  function AddHandle(p: Prim, v: Value, h: Snapshot): (r: Result<(Snapshot, int)>)
    requires p == Id || p == MatId || p == GUIId
    ensures r.Ok? <==> v.VRef?
  {
    if !v.VRef? then Err(if p == Id then TypeError else Unmodelled)
    else if p == Id then Ok((h.(meshes := h.meshes + [Holds(v.obj)]), |h.meshes|))
    else if p == MatId then Ok((h.(materials := h.materials + [Holds(v.obj)]), |h.materials|))
    else Ok((h.(guis := h.guis + [Holds(v.obj)]), |h.guis|))
  }

  /** The `write` lambda of a primitive descriptor. */
  function PrimWrite(p: Prim, v: Value, o: Out): (r: Wrote)
    ensures |r.out.buf| == |o.buf|
  {
    match p
    case None => PutUInt8(o, 0)
    case Bool => PutUInt8(o, if Truthy(v) then 1 else 0)
    case Int32 =>
      (match NumberOf(v)
       case Ok(n) => PutInt32(o, n)
       case Err(f) => Wrote(o, Err(f)))
    case Matrix4x4 => FillInt32(o, 16)
    case ArrayFloat32 =>
      (match LengthOf(v)
       case Ok(n) => FillInt32(o, n)
       case Err(f) => Wrote(o, Err(f)))
    case Id => HandleWrite(p, v, o)
    case MatId => HandleWrite(p, v, o)
    case GUIId => HandleWrite(p, v, o)
    // the default writer of `Dict`, `Any` and `UntypedObject` only logs
    case Dict => Wrote(o, Ok(()))
    case Any => Wrote(o, Ok(()))
    case UntypedObject => Wrote(o, Ok(()))
    // `writeInt64`, `writeFloat64`, `writeFloat32`, `writeString`, `writeArrayInt32`
    // and `writeArrayUInt32` are not methods of `IODataView`
    case _ => Wrote(o, Err(TypeError))
  }

  /** `writeInt32(addX(v))`: the handle is added before the write, and stays added when
      the write throws. */
  function HandleWrite(p: Prim, v: Value, o: Out): (r: Wrote)
    requires p == Id || p == MatId || p == GUIId
    ensures |r.out.buf| == |o.buf|
  {
    match AddHandle(p, v, o.tables)
    case Err(f) => Wrote(o, Err(f))
    case Ok((h, id)) => PutInt32(o.(tables := h), id)
  }

  /** `writeType`: for a `[T]` marker the Int32 `v.length`, then each element in order
      (a value that is not an array has no `forEach`);
      a composite only logs ("Finish this!"); a primitive runs its `write` lambda. */
  function WriteType(d: Desc, v: Value, o: Out): (r: Wrote)
    ensures |r.out.buf| == |o.buf|
    decreases Rank(d), 0
  {
    match d
    case SeqOf(e) =>
      (match LengthOf(v)
       case Err(f) => Wrote(o, Err(f))
       case Ok(n) =>
         var w := PutInt32(o, n);
         if w.status.Err? then w
         else if v.VList? then WriteEach(e, v.items, w.out)
         else Wrote(w.out, Err(TypeError)))   // `v.forEach` is not a function
    case Composite(_, _, _) => Wrote(o, Ok(()))
    case Primitive(p) => PrimWrite(p, v, o)
  }

  /** `v.forEach(e => this.writeType(type[0], e))`: stops at the first throw. */
  function WriteEach(e: Desc, items: seq<Value>, o: Out): (r: Wrote)
    ensures |r.out.buf| == |o.buf|
    decreases Rank(e), |items| + 1
  {
    if items == [] then Wrote(o, Ok(()))
    else
      var w := WriteType(e, items[0], o);
      if w.status.Err? then w else WriteEach(e, items[1..], w.out)
  }
}
