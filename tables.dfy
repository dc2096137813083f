/** The handle tables: module-level JavaScript arrays `meshes`, `materials` and `guis`
    whose indices are the integer ids sent over the wire. Adding pushes, deleting leaves a
    hole (a tombstone), deleting everything truncates the array. */
module Handles {
  import opened Wire
  import opened Descriptors

  /** One array slot: a hole (or past the end) reads as `undefined`. */
  datatype Slot = Empty | Holds(obj: Obj)

  type Table = seq<Slot>

  /** The three tables as values, for the readers and writers of handle descriptors. */
  datatype Snapshot = Snapshot(meshes: Table, materials: Table, guis: Table)

  /** What `delMesh` returns: the id, or `undefined` after logging an error. */
  datatype Deletion = Deleted(id: int) | NoId

  /** JavaScript `table[idx]` for an integer `idx`. */
  function Lookup(t: Table, idx: int): (r: Slot)
    ensures r.Holds? <==> 0 <= idx < |t| && t[idx].Holds?
    ensures r.Holds? ==> r == t[idx]
  {
    if 0 <= idx < |t| then t[idx] else Empty
  }

  /** `getMaterial`: id -1 is the default material, any other id indexes the table. */
  function MaterialLookup(t: Table, idx: int): (r: Slot)
    ensures idx == -1 ==> r == Holds(DefaultMaterial)
    ensures idx != -1 ==> r == Lookup(t, idx)
  {
    if idx == -1 then Holds(DefaultMaterial) else Lookup(t, idx)
  }

  /** JavaScript `delete table[idx]`: only that slot becomes a hole, the length stays. */
  function Vacated(t: Table, idx: int): (r: Table)
    ensures |r| == |t|
    ensures Lookup(r, idx) == Empty
    ensures forall j :: j != idx ==> Lookup(r, j) == Lookup(t, j)
  {
    if 0 <= idx < |t| then t[idx := Empty] else t
  }

  /** Pushing objects one after the other, as successive `add` calls do. */
  function AddAll(t: Table, os: seq<Obj>): (r: Table)
    decreases |os|
  {
    if os == [] then t else AddAll(t + [Holds(os[0])], os[1..])
  }

  /** Successive adds hand out the ids |t|, |t|+1, ... in call order, each resolving to
      its object, and leave every earlier id alone; from an empty table the ids are 0, 1, 2. */
  lemma {:induction false} AddAllIds(t: Table, os: seq<Obj>)
    ensures |AddAll(t, os)| == |t| + |os|
    ensures forall i :: 0 <= i < |os| ==> Lookup(AddAll(t, os), |t| + i) == Holds(os[i])
    ensures forall j :: j < |t| ==> Lookup(AddAll(t, os), j) == Lookup(t, j)
    decreases |os|
  {
    if os != [] {
      var t' := t + [Holds(os[0])];
      AddAllIds(t', os[1..]);
      forall i | 0 <= i < |os|
        ensures Lookup(AddAll(t, os), |t| + i) == Holds(os[i])
      {
        if i > 0 {
          assert Lookup(AddAll(t', os[1..]), |t'| + (i - 1)) == Holds(os[1..][i - 1]);
        }
      }
    }
  }

  /** One call on a table, for stating what sequences of calls do. */
  datatype TableCall = Add(o: Obj) | Delete(idx: int) | DeleteAll

  /** An add appends one live slot after the others, a delete keeps the length and
      clears its slot, and a truncation leaves no live slot. */
  function Apply(t: Table, c: TableCall): (r: Table)
    ensures c.Add? ==> |r| == |t| + 1 && Lookup(r, |t|) == Holds(c.o)
    ensures c.Add? ==> forall j :: j < |t| ==> Lookup(r, j) == Lookup(t, j)
    ensures c.Delete? ==> |r| == |t| && Lookup(r, c.idx) == Empty
    ensures c.DeleteAll? ==> forall j :: Lookup(r, j) == Empty
  {
    match c
    case Add(o) => t + [Holds(o)]
    case Delete(idx) => Vacated(t, idx)
    case DeleteAll => []
  }

  /** Calls one after the other. Each call adds at most one slot, and without a
      truncation the table never shrinks. */
  function Run(t: Table, cs: seq<TableCall>): (r: Table)
    ensures |r| <= |t| + |cs|
    ensures (forall k :: 0 <= k < |cs| ==> !cs[k].DeleteAll?) ==> |r| >= |t|
    decreases |cs|
  {
    if cs == [] then t else Run(Apply(t, cs[0]), cs[1..])
  }

  /** A deleted id never resolves again, whatever objects are added afterwards, unless
      the whole table is truncated in between (after which ids restart at 0). */
  lemma {:induction false} TombstoneNeverResolves(t: Table, idx: int, cs: seq<TableCall>)
    requires Lookup(t, idx) == Empty && 0 <= idx < |t|
    requires forall k :: 0 <= k < |cs| ==> !cs[k].DeleteAll?
    ensures Lookup(Run(t, cs), idx) == Empty && idx < |Run(t, cs)|
    decreases |cs|
  {
    if cs != [] {
      TombstoneNeverResolves(Apply(t, cs[0]), idx, cs[1..]);
    }
  }

  /** After truncation the next add hands out id 0 again. */
  lemma TruncationRestartsIds(t: Table, o: Obj)
    ensures Lookup(Run(t, [DeleteAll, Add(o)]), 0) == Holds(o)
    ensures |Run(t, [DeleteAll, Add(o)])| == 1
  {
    var cs := [DeleteAll, Add(o)];
    assert cs[1..] == [Add(o)] && cs[1..][1..] == [];
    assert Run(t, cs) == Run([], [Add(o)]) == Run([Holds(o)], []);
  }

  /** The module-level arrays, updated in place by the functions of the source. */
  class Tables {
    var meshes: Table
    var materials: Table
    var guis: Table

    constructor ()
      ensures meshes == [] && materials == [] && guis == []
    {
      meshes, materials, guis := [], [], [];
    }

    function View(): (s: Snapshot)
      reads this
      ensures s.meshes == meshes && s.materials == materials && s.guis == guis
    {
      Snapshot(meshes, materials, guis)
    }

    /** `addMesh`: the id is the length before the push. */
    method AddMesh(o: Obj) returns (id: int)
      modifies this`meshes
      ensures id == |old(meshes)| && meshes == old(meshes) + [Holds(o)]
      ensures Lookup(meshes, id) == Holds(o)
    {
      meshes := meshes + [Holds(o)];
      id := |meshes| - 1;
    }

    function GetMesh(idx: int): (r: Slot)
      reads this
      ensures r.Holds? <==> 0 <= idx < |meshes| && meshes[idx].Holds?
      ensures r.Holds? ==> r == meshes[idx]
    {
      Lookup(meshes, idx)
    }

    /** `delMesh`: a live id is cleared and returned; anything else changes nothing. */
    method DelMesh(idx: int) returns (r: Deletion)
      modifies this`meshes
      ensures r == (if Lookup(old(meshes), idx).Holds? then Deleted(idx) else NoId)
      ensures r.Deleted? ==> meshes == Vacated(old(meshes), idx)
      ensures r.NoId? ==> meshes == old(meshes)
    {
      if Lookup(meshes, idx).Holds? {
        meshes := meshes[idx := Empty];
        r := Deleted(idx);
      } else {
        r := NoId;
      }
    }

    /** `delAllMeshes`: returns the prior length, holes included, and empties the array. */
    method DelAllMeshes() returns (n: nat)
      modifies this`meshes
      ensures n == |old(meshes)| && meshes == []
    {
      n := |meshes|;
      meshes := [];
    }

    method AddMaterial(o: Obj) returns (id: int)
      modifies this`materials
      ensures id == |old(materials)| && materials == old(materials) + [Holds(o)]
    {
      materials := materials + [Holds(o)];
      id := |materials| - 1;
    }

    function GetMaterial(idx: int): (r: Slot)
      reads this
      ensures idx == -1 ==> r == Holds(DefaultMaterial)
      ensures idx != -1 ==> (r.Holds? <==> 0 <= idx < |materials| && materials[idx].Holds?)
      ensures idx != -1 && r.Holds? ==> r == materials[idx]
    {
      MaterialLookup(materials, idx)
    }

    /** `delMaterial`: unconditional `delete`, no check and no result. */
    method DelMaterial(idx: int)
      modifies this`materials
      ensures materials == Vacated(old(materials), idx)
    {
      materials := Vacated(materials, idx);
    }

    method DelAllMaterials()
      modifies this`materials
      ensures materials == []
    {
      materials := [];
    }

    method AddGUI(o: Obj) returns (id: int)
      modifies this`guis
      ensures id == |old(guis)| && guis == old(guis) + [Holds(o)]
    {
      guis := guis + [Holds(o)];
      id := |guis| - 1;
    }

    function GetGUI(idx: int): (r: Slot)
      reads this
      ensures r.Holds? <==> 0 <= idx < |guis| && guis[idx].Holds?
      ensures r.Holds? ==> r == guis[idx]
    {
      Lookup(guis, idx)
    }

    /** `delGUI`: `guis[idx].destroy()` throws a TypeError on a hole or a missing id,
        before the slot is deleted. */
    method DelGUI(idx: int) returns (r: Result<()>)
      modifies this`guis
      ensures r.Ok? <==> Lookup(old(guis), idx).Holds?
      ensures r.Err? ==> r.fault == TypeError && guis == old(guis)
      ensures r.Ok? ==> guis == Vacated(old(guis), idx)
    {
      if Lookup(guis, idx).Holds? {
        guis := Vacated(guis, idx);
        r := Ok(());
      } else {
        r := Err(TypeError);
      }
    }
  }
}
