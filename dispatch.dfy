/** `Viewer.handleMessage`: one binary frame is an Int32 opcode followed by the
    operation's arguments; the reply is the handler's result written into a fresh
    buffer of exactly `retType.size` bytes and sent back. Handlers other than
    `getOperationNamed` are external: a function of the operation and its arguments. */
module Dispatch {
  import opened Wire
  import opened Descriptors
  import opened Handles
  import opened Decode
  import opened Encode
  import opened Registry
  import opened Stream

  /** A WebSocket message: a binary frame (`ArrayBuffer`) or a text frame. */
  datatype Message = Binary(data: seq<byte>) | Text(text: string)

  /** A handler other than `getOperationNamed`, called with its id and arguments; it may
      throw. */
  type Extern = (nat, seq<Value>) -> Result<Value>

  /** What one binary frame did: whether `checkExhausted` complained, the reply frame
      sent (or the fault that ended the handling), and the handle tables afterwards. */
  datatype Handled = Handled(warned: bool, reply: Result<seq<byte>>, tables: Snapshot)

  /** `new ArrayBuffer(size)`: `Infinity` is a RangeError, a missing `size` gives an empty
      buffer. */
  function ReplyLength(d: Desc): (r: Result<nat>)
    ensures SizeOf(d).Bytes? ==> r == Ok(SizeOf(d).n)
    ensures SizeOf(d).Infinite? ==> r == Err(RangeError)
    ensures SizeOf(d).Undefined? ==> r == Ok(0)
  {
    match SizeOf(d)
    case Bytes(n) => Ok(n)
    case Infinite => Err(RangeError)
    case Undefined => Ok(0)
  }

  /** A zero-filled buffer of `n` bytes. */
  function Zeros(n: nat): (r: seq<byte>)
    ensures |r| == n && forall i :: 0 <= i < n ==> r[i] == 0
  {
    seq(n, _ => 0)
  }

  /** `func(...args)`: the arguments are the items of the `ArgTypes` list. The
      `getOperationNamed` lambda looks its first argument up by name; a missing argument
      looks up `undefined`, which is not a registered name. */
  function Invoke(ops: Ops, handler: Handler, args: Value, ext: Extern): (r: Result<Value>)
    ensures handler.LookupByName? && args == VList([]) ==> r == Ok(VNum(-1))
    ensures handler.LookupByName? && args.VList? && args.items != [] && args.items[0].VStr? ==>
      r == Ok(VNum(IndexNamed(ops, args.items[0].utf8)))
  {
    if !args.VList? then Err(TypeError)   // spreading a value that is not iterable
    else match handler
      case External(id) => ext(id, args.items)
      case LookupByName =>
        if args.items == [] then Ok(VNum(-1))
        else if args.items[0].VStr? then Ok(VNum(IndexNamed(ops, args.items[0].utf8)))
        else Err(Unmodelled)
  }

  /** The reply: the result written from the start of a zero-filled buffer of
      `retType.size` bytes. */
  function Reply(op: Operation, res: Value, h: Snapshot): (r: Handled)
    ensures r.reply.Ok? ==> ReplyLength(op.retType).Ok? && |r.reply.value| == ReplyLength(op.retType).value
  {
    match ReplyLength(op.retType)
    case Err(f) => Handled(false, Err(f), h)
    case Ok(n) =>
      var w := WriteType(op.retType, res, Out(Zeros(n), 0, h));
      Handled(false, if w.status.Ok? then Ok(w.out.buf) else Err(w.status.fault), w.out.tables)
  }

  /** One binary frame, start to end: the opcode, the operation it names, its arguments
      from byte 4, the `checkExhausted` test, the call and the reply. A frame too short
      for an opcode, or an opcode that names no operation, fails before anything is
      read, called or changed; a reply is only sent after the arguments were read and
      the handler returned, and it is that result written as the operation's `retType`
      says; the warning is given exactly when the arguments end before the frame does. */
  function Handle(ops: Ops, data: seq<byte>, h: Snapshot, ext: Extern): (r: Handled)
    ensures |data| < 4 ==> r.reply.Err? && !r.warned && r.tables == h
    ensures Int32Field(data, 0).Ok? && OperationAt(ops, Int32Field(data, 0).value).Missing? ==>
      r == Handled(false, Err(TypeError), h)
    ensures r.reply.Ok? || r.warned ==>
      Int32Field(data, 0).Ok? && OperationAt(ops, Int32Field(data, 0).value).Found? &&
      var args := ReadType(OperationAt(ops, Int32Field(data, 0).value).op.argType, data, 4, h);
      args.Ok? && (r.warned <==> args.value.next != |data|)
    ensures r.reply.Ok? ==>
      Int32Field(data, 0).Ok? && OperationAt(ops, Int32Field(data, 0).value).Found? &&
      var op := OperationAt(ops, Int32Field(data, 0).value).op;
      ReadType(op.argType, data, 4, h).Ok? &&
      var res := Invoke(ops, op.handler, ReadType(op.argType, data, 4, h).value.value, ext);
      res.Ok? && r == Reply(op, res.value, h).(warned := r.warned)
  {
    match Int32Field(data, 0)
    case Err(f) => Handled(false, Err(f), h)
    case Ok(idx) =>
      match OperationAt(ops, idx)
      case Missing => Handled(false, Err(TypeError), h)   // `func.argType` of `undefined`
      case Found(op) =>
        match ReadType(op.argType, data, 4, h)
        case Err(f) => Handled(false, Err(f), h)
        case Ok(args) =>
          var warned := args.next != |data|;
          match Invoke(ops, op.handler, args.value, ext)
          case Err(f) => Handled(warned, Err(f), h)
          case Ok(res) => Reply(op, res, h).(warned := warned)
  }

  /** An opcode outside the registry ends the frame with a TypeError before anything is
      read, called or sent. */
  lemma UnknownOpcode(ops: Ops, data: seq<byte>, h: Snapshot, ext: Extern)
    requires Int32Field(data, 0).Ok?
    requires var idx := Int32Field(data, 0).value; idx < 0 || idx >= |ops.list|
    ensures Handle(ops, data, h, ext) == Handled(false, Err(TypeError), h)
  {
  }

  /** The reply always has exactly `retType.size` bytes (none when the descriptor has no
      `size`). */
  lemma ReplyHasRetSize(ops: Ops, data: seq<byte>, h: Snapshot, ext: Extern)
    requires Handle(ops, data, h, ext).reply.Ok?
    ensures Int32Field(data, 0).Ok? && OperationAt(ops, Int32Field(data, 0).value).Found?
    ensures var op := OperationAt(ops, Int32Field(data, 0).value).op;
      var n := |Handle(ops, data, h, ext).reply.value|;
      SizeOf(op.retType) == Bytes(n) || (SizeOf(op.retType) == Undefined && n == 0)
  {
    var idx := Int32Field(data, 0).value;
    var op := OperationAt(ops, idx).op;
    var args := ReadType(op.argType, data, 4, h).value;
    var res := Invoke(ops, op.handler, args.value, ext).value;
    assert Handle(ops, data, h, ext).reply == Reply(op, res, h).reply;
  }

  /** A handler whose return type is `None` always gets the one-byte reply [0], whatever
      it returned. */
  lemma NoneReply(op: Operation, res: Value, h: Snapshot)
    requires op.retType == Primitive(None)
    ensures Reply(op, res, h) == Handled(false, Ok([0]), h)
  {
    assert Store(Zeros(1), 0, [0]) == [0];
  }

  /** The arguments are the sub-descriptors of the `ArgTypes` composite read in declared
      order from byte 4, one right after the other, and come out as the list the
      handler is spread over. */
  lemma {:induction false} ArgsInOrder(argTypes: seq<Desc>, bs: seq<byte>, off: int, h: Snapshot)
    ensures ReadType(ArgTypes(argTypes), bs, off, h).Ok? <==> ReadAll(argTypes, bs, off, h).Ok?
    ensures ReadType(ArgTypes(argTypes), bs, off, h).Ok? ==>
      ReadType(ArgTypes(argTypes), bs, off, h).value ==
        Decoded(VList(ReadAll(argTypes, bs, off, h).value.items), ReadAll(argTypes, bs, off, h).value.next)
  {
  }

  /** `checkExhausted` complains exactly when the arguments do not end at the end of the
      frame; the handler is called either way. */
  lemma ExhaustedWarning(ops: Ops, data: seq<byte>, h: Snapshot, ext: Extern, g: Registration, args: Many)
    requires Int32Field(data, 0).Ok? && OperationAt(ops, Int32Field(data, 0).value) == Found(Registered(g))
    requires ReadAll(g.argTypes, data, 4, h) == Ok(args)
    requires Invoke(ops, g.handler, VList(args.items), ext).Ok?
    ensures Handle(ops, data, h, ext).warned <==> args.next != |data|
  {
    ArgsInOrder(g.argTypes, data, 4, h);
  }

  /** A string read from byte 4 as the only argument. */
  lemma NameRead(sub: seq<Desc>, data: seq<byte>, h: Snapshot, s: seq<byte>)
    requires |sub| == 1 && sub[0] == Primitive(Str)
    requires ReadType(Primitive(Str), data, 4, h) == Ok(Decoded(VStr(s), |data|))
    ensures ReadAll(sub, data, 4, h) == Ok(Many([VStr(s)], |data|))
  {
    assert ReadType(sub[0], data, 4, h) == Ok(Decoded(VStr(s), |data|));
    assert sub[1..] == [];
    assert ReadAll(sub[1..], data, |data|, h) == Ok(Many([], |data|));
    assert [VStr(s)] + [] == [VStr(s)];
  }

  /** The `[Str]` arguments of `getOperationNamed`: one string, read from byte 4. */
  lemma NameArgs(data: seq<byte>, h: Snapshot, s: seq<byte>)
    requires ReadType(Primitive(Str), data, 4, h) == Ok(Decoded(VStr(s), |data|))
    ensures ReadType(ArgTypes([Primitive(Str)]), data, 4, h) == Ok(Decoded(VList([VStr(s)]), |data|))
  {
    NameRead([Primitive(Str)], data, h, s);
    ArgsInOrder([Primitive(Str)], data, 4, h);
  }

  /** An `Int32` result is answered with its four bytes. */
  lemma Int32Reply(op: Operation, n: int, h: Snapshot)
    requires op.retType == Primitive(Int32)
    ensures Reply(op, VNum(n), h) == Handled(false, Ok(Int32Bytes(n)), h)
  {
    assert Store(Zeros(4), 0, Int32Bytes(n)) == Int32Bytes(n);
  }

  /** A `getOperationNamed` frame for name bytes `s` is answered with the four bytes of
      the index `getOperationNamed` finds, and the tables stay as they were. */
  lemma LookupFrame(ops: Ops, data: seq<byte>, h: Snapshot, ext: Extern, s: seq<byte>)
    requires Int32Field(data, 0) == Ok(0) && OperationAt(ops, 0) == Found(Registered(SELF))
    requires ReadType(Primitive(Str), data, 4, h) == Ok(Decoded(VStr(s), |data|))
    ensures Handle(ops, data, h, ext) == Handled(false, Ok(Int32Bytes(IndexNamed(ops, s))), h)
  {
    var op := Registered(SELF);
    NameArgs(data, h, s);
    assert Invoke(ops, op.handler, VList([VStr(s)]), ext) == Ok(VNum(IndexNamed(ops, s)));
    Int32Reply(op, IndexNamed(ops, s), h);
  }

  /** The browser end of the connection. */
  class Viewer {
    const operations: Operations
    const tables: Tables
    /** The frames passed to `this.connection.send`, oldest first. */
    var sent: seq<seq<byte>>

    constructor (operations: Operations, tables: Tables)
      ensures this.operations == operations && this.tables == tables && sent == []
    {
      this.operations := operations;
      this.tables := tables;
      sent := [];
    }

    /** `handleMessage`: a text frame is only logged; a binary frame is decoded, handled
        and answered as `Handle` says, and a frame that throws sends nothing. */
    method HandleMessage(msg: Message, ext: Extern) returns (r: Result<()>, warned: bool)
      modifies this, tables
      ensures msg.Text? ==> r == Ok(()) && !warned && sent == old(sent) && tables.View() == old(tables.View())
      ensures msg.Binary? ==>
        var hd := Handle(operations.View(), msg.data, old(tables.View()), ext);
        warned == hd.warned && tables.View() == hd.tables &&
        (hd.reply.Ok? ==> r == Ok(()) && sent == old(sent) + [hd.reply.value]) &&
        (hd.reply.Err? ==> r == Err(hd.reply.fault) && sent == old(sent))
    {
      warned := false;
      if msg.Text? {
        return Ok(()), false;
      }
      ghost var ops := operations.View();
      ghost var h := tables.View();
      var frame := new byte[|msg.data|](i requires 0 <= i < |msg.data| => msg.data[i]);
      assert frame[..] == msg.data;
      var io := new IODataView(frame);
      var funcIdx := io.ReadInt32();
      if funcIdx.Err? {
        return Err(funcIdx.fault), false;
      }
      var func := operations.GetOperation(funcIdx.value);
      if func.Missing? {
        return Err(TypeError), false;
      }
      var args := io.ReadType(func.op.argType, tables);
      if args.Err? {
        return Err(args.fault), false;
      }
      var exhausted := io.CheckExhausted();
      warned := !exhausted;
      var res := Invoke(operations.View(), func.op.handler, args.value, ext);
      if res.Err? {
        return Err(res.fault), warned;
      }
      var size := ReplyLength(func.op.retType);
      if size.Err? {
        return Err(size.fault), warned;
      }
      var buf := new byte[size.value](_ => 0);
      assert buf[..] == Zeros(size.value);
      var out := new IODataView(buf);
      r := out.WriteType(func.op.retType, res.value, tables);
      if r.Err? {
        return;
      }
      sent := sent + [buf[..]];
    }
  }
}
