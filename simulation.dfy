/**
 * A simulated replica: a keyed datastore of CRDT managers plus the
 * append-only list of ids from which an object is picked at random.
 */
module Simulation {
  import opened Wrappers
  import opened Lww
  import opened Crdt

  /** A 128-bit UUID, as its two 64-bit halves. */
  datatype UUID = UUID(mostSigBits: bv64, leastSigBits: bv64)

  /** Why a pick fails: drawing a random index below a bound of zero. */
  datatype NodeError = IllegalArgument

  /**
   * A CRDT manager that knows the id of the object it manages.  The
   * subclass relation is modelled as a manager held by the id.
   */
  class SimCRDTManager {
    const objectId: UUID
    const manager: CRDTManager

    constructor (objectId: UUID, manager: CRDTManager)
      ensures this.objectId == objectId && this.manager == manager
    {
      this.objectId := objectId;
      this.manager := manager;
    }
  }

  class AbstractNode {
    /** The node's own id, fixed at construction. */
    const id: UUID
    /** The ids passed to AddCRDT, in order, or None until first needed. */
    var crdtIds: Option<seq<UUID>>
    /** The object id to manager map, or None until first needed. */
    var datastore: Option<map<UUID, SimCRDTManager>>

    /** The id list, an absent list reading as empty. */
    function Ids(): seq<UUID>
      reads this
    {
      if crdtIds.Some? then crdtIds.value else []
    }

    /** The datastore, an absent map reading as empty. */
    function Store(): map<UUID, SimCRDTManager>
      reads this
    {
      if datastore.Some? then datastore.value else map[]
    }

    /** Every id in the datastore has been recorded in the id list. */
    ghost predicate Valid()
      reads this
    {
      forall k :: k in Store() ==> k in Ids()
    }

    /** The managers of the datastore and the logs they hold: what clearing the node may change. */
    ghost function Footprint(): set<object>
      reads this, set k | k in Store() :: Store()[k].manager
    {
      (set k | k in Store() :: Store()[k].manager as object) +
      (set k | k in Store() && Store()[k].manager.crdt != null :: Store()[k].manager.crdt as object)
    }

    /** A node with the given id; its list and datastore are not yet created. */
    constructor (id: UUID)
      ensures this.id == id && crdtIds == None && datastore == None
      ensures Valid()
    {
      this.id := id;
      crdtIds := None;
      datastore := None;
    }

    /** Returns the datastore, creating an empty one only on first use. */
    method GetDatastore() returns (d: map<UUID, SimCRDTManager>)
      modifies this
      ensures old(datastore).Some? ==> datastore == old(datastore)
      ensures old(datastore).None? ==> datastore == Some(map[])
      ensures datastore == Some(d) && d == old(Store())
      ensures crdtIds == old(crdtIds)
    {
      if datastore.None? {
        datastore := Some(map[]);
      }
      d := datastore.value;
    }

    /** Returns the id list, creating an empty one only on first use. */
    method GetCrdtIds() returns (ids: seq<UUID>)
      modifies this
      ensures old(crdtIds).Some? ==> crdtIds == old(crdtIds)
      ensures old(crdtIds).None? ==> crdtIds == Some([])
      ensures crdtIds == Some(ids) && ids == old(Ids())
      ensures datastore == old(datastore)
    {
      if crdtIds.None? {
        crdtIds := Some([]);
      }
      ids := crdtIds.value;
    }

    /**
     * Registers `m` under its own object id (replacing any manager already
     * there) and appends that id to the id list, even if it is already in it.
     */
    method AddCRDT(m: SimCRDTManager)
      requires Valid()
      modifies this
      ensures Valid()
      ensures datastore == Some(old(Store())[m.objectId := m])
      ensures crdtIds == Some(old(Ids()) + [m.objectId])
      ensures m.objectId in old(Store()) ==> |Store()| == |old(Store())|
      ensures forall k :: k in old(Store()) && k != m.objectId ==> k in Store() && Store()[k] == old(Store())[k]
    {
      var d := GetDatastore();
      datastore := Some(d[m.objectId := m]);
      var ids := GetCrdtIds();
      crdtIds := Some(ids + [m.objectId]);
      if m.objectId in d {
        assert Store().Keys == d.Keys;
      }
    }

    /**
     * Clears the log of every manager in the datastore, then empties the
     * datastore.  The id list is left as it was.
     */
    method Clear()
      requires Valid()
      modifies this, Footprint()
      ensures Valid()
      ensures datastore == Some(map[])
      ensures crdtIds == old(crdtIds)
      ensures forall k :: k in old(Store()) ==> old(Store())[k].manager.Log() == Empty
    {
      var store := GetDatastore();
      var keys := store.Keys;
      while keys != {}
        invariant keys <= store.Keys
        invariant store == old(Store())
        invariant datastore == Some(store) && crdtIds == old(crdtIds)
        invariant forall k :: k in store && old(store[k].manager.crdt) != null ==>
                    store[k].manager.crdt == old(store[k].manager.crdt)
        invariant forall k :: k in store && store[k].manager.crdt != old(store[k].manager.crdt) ==>
                    fresh(store[k].manager.crdt)
        invariant forall k :: k in store && k !in keys ==> store[k].manager.Log() == Empty
        decreases keys
      {
        var k :| k in keys;
        store[k].manager.Clear();
        keys := keys - {k};
      }
      datastore := Some(map[]);
    }

    /**
     * Picks the id at position `index` of the id list; `index` stands for
     * the random draw below the list's length.  An empty list makes the
     * draw throw.
     */
    method PickCrdtId(index: int) returns (r: Result<UUID, NodeError>)
      requires Valid()
      requires Ids() != [] ==> 0 <= index < |Ids()|
      modifies this
      ensures Valid()
      ensures crdtIds == Some(old(Ids())) && datastore == old(datastore)
      ensures old(Ids()) == [] ==> r == Failure(IllegalArgument)
      ensures old(Ids()) != [] ==> r == Success(old(Ids())[index])
      ensures r.Success? ==> r.value in Ids()
    {
      var ids := GetCrdtIds();
      if |ids| == 0 {
        r := Failure(IllegalArgument);
      } else {
        r := Success(ids[index]);
      }
    }

    /**
     * Looks up the manager of a picked id; null when the id is no longer in
     * the datastore.  The datastore is fetched before the id is drawn.
     */
    method PickCRDT(index: int) returns (r: Result<SimCRDTManager?, NodeError>)
      requires Valid()
      requires Ids() != [] ==> 0 <= index < |Ids()|
      modifies this
      ensures Valid()
      ensures crdtIds == Some(old(Ids())) && datastore == Some(old(Store()))
      ensures old(Ids()) == [] ==> r == Failure(IllegalArgument)
      ensures old(Ids()) != [] ==> r.Success?
      ensures r.Success? && old(Ids())[index] in Store() ==> r.value == Store()[old(Ids())[index]]
      ensures r.Success? && old(Ids())[index] !in Store() ==> r.value == null
    {
      var d := GetDatastore();
      var picked := PickCrdtId(index);
      match picked
      case Failure(e) =>
        r := Failure(e);
      case Success(k) =>
        r := Success(if k in d then d[k] else null);
    }
  }

  /**
   * After a clear, picking from a node that had ids yields null: the id list
   * still names objects the emptied datastore no longer holds.
   */
  method PickAfterClear(node: AbstractNode, index: int) returns (r: Result<SimCRDTManager?, NodeError>)
    requires node.Valid()
    requires node.Ids() != [] && 0 <= index < |node.Ids()|
    modifies node, node.Footprint()
    ensures r == Success(null)
  {
    node.Clear();
    r := node.PickCRDT(index);
  }
}
