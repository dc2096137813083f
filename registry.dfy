/** The operation registry: the module-level array `operations`, which holds the
    registered handlers in registration order and, as named properties of the same
    array, the index of each name. `typedFunction` registers, `getOperation` looks up
    by index, and `getOperationNamed` (itself the first registered operation) looks up
    by name. */
module Registry {
  import opened Wire
  import opened Descriptors

  /** The JavaScript function a registration attaches `argType` and `retType` to: the
      `getOperationNamed` lambda, or any other handler, known by identity only. */
  datatype Handler = LookupByName | External(id: nat)

  /** A registered handler with the descriptors `typedFunction` attached to it. */
  datatype Operation = Operation(argType: Desc, retType: Desc, handler: Handler)

  /** One call `typedFunction(name, argTypes, retType, f)`. Names are kept as the UTF-8
      bytes a `Str` argument decodes from. */
  datatype Registration = Registration(name: seq<byte>, argTypes: seq<Desc>, retType: Desc, handler: Handler)

  /** `new CompositeType("ArgTypes", argTypes, args => args)`. */
  function ArgTypes(argTypes: seq<Desc>): (d: Desc)
    ensures d.Composite? && d.subtypes == argTypes && d.combiner == Identity
  {
    Composite("ArgTypes", argTypes, Identity)
  }

  function Registered(g: Registration): Operation
  {
    Operation(ArgTypes(g.argTypes), g.retType, g.handler)
  }

  /** The bytes of the name "getOperationNamed". */
  const SELF_NAME: seq<byte> :=
    [0x67, 0x65, 0x74, 0x4F, 0x70, 0x65, 0x72, 0x61, 0x74, 0x69, 0x6F, 0x6E, 0x4E, 0x61, 0x6D, 0x65, 0x64]

  /** The registration the module performs first. */
  const SELF: Registration := Registration(SELF_NAME, [Primitive(Str)], Primitive(Int32), LookupByName)

  /** The array's contents and its named properties, as values. */
  datatype Ops = Ops(list: seq<Operation>, index: map<seq<byte>, int>)

  /** Every recorded index is a position of the array. */
  predicate Indexed(s: Ops)
  {
    forall name :: name in s.index ==> 0 <= s.index[name] < |s.list|
  }

  /** `operations[name] = operations.push(f) - 1`. */
  function Register(s: Ops, g: Registration): (r: Ops)
    ensures Indexed(s) ==> Indexed(r)
  {
    Ops(s.list + [Registered(g)], s.index[g.name := |s.list|])
  }

  /** Registrations one after the other: the array grows by one per registration, a
      name once recorded stays recorded, and every recorded index stays a position of
      the array. */
  function RegisterAll(s: Ops, gs: seq<Registration>): (r: Ops)
    ensures |r.list| == |s.list| + |gs|
    ensures forall name :: name in s.index ==> name in r.index
    ensures Indexed(s) ==> Indexed(r)
    decreases |gs|
  {
    if gs == [] then s else RegisterAll(Register(s, gs[0]), gs[1..])
  }

  /** What `operations[idx]` holds: a handler, or `undefined`. */
  datatype Slot = Found(op: Operation) | Missing

  /** `getOperation(idx)`: `undefined` outside the array. */
  function OperationAt(s: Ops, idx: int): (r: Slot)
    ensures r.Found? <==> 0 <= idx < |s.list|
    ensures r.Found? ==> r.op == s.list[idx]
  {
    if 0 <= idx < |s.list| then Found(s.list[idx]) else Missing
  }

  /** `getOperationNamed(name)`: the recorded index when it is truthy, otherwise -1 after
      logging; index 0 is falsy, so the first registered operation is never found. */
  function IndexNamed(s: Ops, name: seq<byte>): (r: int)
    ensures r == -1 <==> name !in s.index || s.index[name] == 0 || s.index[name] == -1
    ensures r != -1 ==> r == s.index[name]
  {
    if name in s.index && s.index[name] != 0 then s.index[name] else -1
  }

  /** Registrations get the positions |list|, |list|+1, ... in order, after the
      operations already there. */
  lemma {:induction false} RegisterAllList(s: Ops, gs: seq<Registration>)
    ensures |RegisterAll(s, gs).list| == |s.list| + |gs|
    ensures RegisterAll(s, gs).list[..|s.list|] == s.list
    ensures forall i :: 0 <= i < |gs| ==> RegisterAll(s, gs).list[|s.list| + i] == Registered(gs[i])
    decreases |gs|
  {
    if gs != [] {
      var s' := Register(s, gs[0]);
      var rest := gs[1..];
      RegisterAllList(s', rest);
      var r := RegisterAll(s', rest);
      assert r.list[..|s.list|] == r.list[..|s'.list|][..|s.list|];
      forall i | 0 <= i < |gs|
        ensures r.list[|s.list| + i] == Registered(gs[i])
      {
        if i == 0 {
          assert r.list[|s.list|] == r.list[..|s'.list|][|s.list|];
        } else {
          assert gs[i] == rest[i - 1];
        }
      }
    }
  }

  /** A name resolves to the last registration under it. */
  lemma {:induction false} RegisterAllLast(s: Ops, gs: seq<Registration>, i: int)
    requires 0 <= i < |gs|
    requires forall j :: i < j < |gs| ==> gs[j].name != gs[i].name
    ensures gs[i].name in RegisterAll(s, gs).index
    ensures RegisterAll(s, gs).index[gs[i].name] == |s.list| + i
    decreases |gs|
  {
    var s' := Register(s, gs[0]);
    var rest := gs[1..];
    if i == 0 {
      forall j | 0 <= j < |rest|
        ensures rest[j].name != gs[0].name
      {
        assert rest[j] == gs[j + 1];
      }
      RegisterAllOthers(s', rest, gs[0].name);
    } else {
      forall j | i - 1 < j < |rest|
        ensures rest[j].name != rest[i - 1].name
      {
        assert rest[j] == gs[j + 1];
      }
      RegisterAllLast(s', rest, i - 1);
    }
  }

  /** A name that is not registered again keeps its index, or its absence. */
  lemma {:induction false} RegisterAllOthers(s: Ops, gs: seq<Registration>, name: seq<byte>)
    requires forall j :: 0 <= j < |gs| ==> gs[j].name != name
    ensures name in RegisterAll(s, gs).index <==> name in s.index
    ensures name in s.index ==> RegisterAll(s, gs).index[name] == s.index[name]
    decreases |gs|
  {
    if gs != [] {
      var rest := gs[1..];
      assert gs[0].name != name;
      forall j | 0 <= j < |rest|
        ensures rest[j].name != name
      {
        assert rest[j] == gs[j + 1];
      }
      RegisterAllOthers(Register(s, gs[0]), rest, name);
    }
  }

  /** The module-level `operations` array. */
  class Operations {
    var list: seq<Operation>
    var index: map<seq<byte>, int>

    function View(): (s: Ops)
      reads this
      ensures s.list == list && s.index == index
    {
      Ops(list, index)
    }

    /** Module initialisation: the registry starts with `getOperationNamed` at index 0. */
    constructor ()
      ensures View() == Register(Ops([], map[]), SELF)
      ensures list == [Registered(SELF)] && index == map[SELF_NAME := 0]
    {
      list := [];
      index := map[];
      new;
      var _ := TypedFunction(SELF.name, SELF.argTypes, SELF.retType, SELF.handler);
    }

    /** `typedFunction`: the handler's index is the number of operations registered
        before it, and the name now resolves to it. */
    method TypedFunction(name: seq<byte>, argTypes: seq<Desc>, retType: Desc, handler: Handler)
      returns (idx: int)
      modifies this
      ensures View() == Register(old(View()), Registration(name, argTypes, retType, handler))
      ensures idx == |old(list)| && list[idx] == Operation(ArgTypes(argTypes), retType, handler)
      ensures name in index && index[name] == idx
    {
      list := list + [Operation(ArgTypes(argTypes), retType, handler)];
      idx := |list| - 1;
      index := index[name := idx];
    }

    /** `getOperation`. */
    function GetOperation(idx: int): (r: Slot)
      reads this
      ensures r == OperationAt(View(), idx)
    {
      if 0 <= idx < |list| then Found(list[idx]) else Missing
    }

    /** The `getOperationNamed` handler. */
    function GetOperationNamed(name: seq<byte>): (r: int)
      reads this
      ensures r == IndexNamed(View(), name)
    {
      if name in index && index[name] != 0 then index[name] else -1
    }
  }

  /** Asking for `getOperationNamed` by name always gives -1: it holds index 0, which is
      falsy, and stays so whatever else is registered under other names. */
  lemma {:induction false} SelfNeverFound(gs: seq<Registration>)
    requires forall j :: 0 <= j < |gs| ==> gs[j].name != SELF_NAME
    ensures IndexNamed(RegisterAll(Register(Ops([], map[]), SELF), gs), SELF_NAME) == -1
    ensures OperationAt(RegisterAll(Register(Ops([], map[]), SELF), gs), 0) == Found(Registered(SELF))
  {
    var s := Register(Ops([], map[]), SELF);
    RegisterAllList(s, gs);
    RegisterAllOthers(s, gs, SELF_NAME);
    var r := RegisterAll(s, gs);
    assert r.list[..1][0] == r.list[0];
  }

  /** A name registered after module initialisation, and not again since, is found at
      its own index, and that index holds its handler. */
  lemma {:induction false} RegisteredNameFound(gs: seq<Registration>, i: int)
    requires 0 <= i < |gs|
    requires forall j :: i < j < |gs| ==> gs[j].name != gs[i].name
    ensures var r := RegisterAll(Register(Ops([], map[]), SELF), gs);
      IndexNamed(r, gs[i].name) == i + 1 && OperationAt(r, i + 1) == Found(Registered(gs[i]))
  {
    var s := Register(Ops([], map[]), SELF);
    RegisterAllList(s, gs);
    RegisterAllLast(s, gs, i);
  }

  /** A positive index `getOperationNamed` answers always names a registered operation,
      so the opcode it returns dispatches to a handler. */
  lemma {:induction false} NamedIndexDispatches(gs: seq<Registration>, name: seq<byte>)
    ensures var r := RegisterAll(Register(Ops([], map[]), SELF), gs);
      IndexNamed(r, name) != -1 ==> 0 < IndexNamed(r, name) && OperationAt(r, IndexNamed(r, name)).Found?
  {
    var s := Register(Ops([], map[]), SELF);
    assert Indexed(s);
  }
}
