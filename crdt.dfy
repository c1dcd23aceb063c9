/**
 * The CRDT manager: the admission gate that routes each wrapped operation
 * into its last-write-wins log by status, the operation factories, the
 * status predicates, and the convergence properties of admission.
 */
module Crdt {
  import opened Wrappers
  import opened Operations
  import opened Lww

  /**
   * The effect of one push on a log's value: APPROVED and PENDING add the
   * operation, REJECTED tombstones it, any other status leaves the log alone.
   */
  function Admit(log: LogState, om: OperationManager): (r: LogState)
    ensures log.adds <= r.adds && log.rems <= r.rems
    ensures r.adds <= log.adds + {om.operation} && r.rems <= log.rems + {om.operation}
    ensures om.operation in r.adds <==> om.operation in log.adds || Delivers(om.status)
    ensures om.operation in r.rems <==> om.operation in log.rems || om.status == REJECTED
  {
    match om.status
    case APPROVED => LogState(log.adds + {om.operation}, log.rems)
    case PENDING => LogState(log.adds + {om.operation}, log.rems)
    case REJECTED => LogState(log.adds, log.rems + {om.operation})
    case Other => log
  }

  /** Pushes a batch of envelopes one after the other, in delivery order. */
  function AdmitAll(log: LogState, batch: seq<OperationManager>): LogState
    decreases |batch|
  {
    if batch == [] then log else AdmitAll(Admit(log, batch[0]), batch[1..])
  }

  /** The operations of a batch that are delivered into the add-set. */
  function Delivered(batch: seq<OperationManager>): set<Operation>
  {
    set om | om in batch && Delivers(om.status) :: om.operation
  }

  /** The operations of a batch that are tombstoned. */
  function Rejected(batch: seq<OperationManager>): set<Operation>
  {
    set om | om in batch && om.status == REJECTED :: om.operation
  }

  /** Each status is routed to the right set, and only there. */
  lemma AdmitRouting(log: LogState, om: OperationManager)
    ensures Delivers(om.status) ==> Admit(log, om) == LogState(log.adds + {om.operation}, log.rems)
    ensures om.status == REJECTED ==> Admit(log, om) == LogState(log.adds, log.rems + {om.operation})
    ensures om.status == Other ==> Admit(log, om) == log
  {
  }

  /** Pushing the same envelope twice is the same as pushing it once. */
  lemma AdmitIdempotent(log: LogState, om: OperationManager)
    ensures Admit(Admit(log, om), om) == Admit(log, om)
  {
  }

  /** Two pushes give the same log in either order. */
  lemma AdmitCommutes(log: LogState, a: OperationManager, b: OperationManager)
    ensures Admit(Admit(log, a), b) == Admit(Admit(log, b), a)
  {
  }

  /** A tombstone excludes its operation whether it arrives before or after the add. */
  lemma TombstoneEitherOrder(log: LogState, op: Operation, s: Status)
    requires Delivers(s)
    ensures op !in Effective(Admit(Admit(log, OperationManager(s, op)), OperationManager(REJECTED, op)))
    ensures op !in Effective(Admit(Admit(log, OperationManager(REJECTED, op)), OperationManager(s, op)))
  {
  }

  /**
   * A whole batch, whatever its order and duplicates, adds exactly its
   * delivered operations and tombstones exactly its rejected ones.
   */
  lemma {:induction false} AdmitAllCollects(log: LogState, batch: seq<OperationManager>)
    ensures AdmitAll(log, batch) == LogState(log.adds + Delivered(batch), log.rems + Rejected(batch))
    decreases |batch|
  {
    if batch != [] {
      var om, rest := batch[0], batch[1..];
      AdmitAllCollects(Admit(log, om), rest);
      assert batch == [om] + rest;
      assert Delivered(batch) == (if Delivers(om.status) then {om.operation} else {}) + Delivered(rest) by {
        forall o | o in Delivered(batch)
          ensures o in (if Delivers(om.status) then {om.operation} else {}) + Delivered(rest)
        {
          var w :| w in batch && Delivers(w.status) && w.operation == o;
          if w != om {
            assert w in rest;
          }
        }
      }
      assert Rejected(batch) == (if om.status == REJECTED then {om.operation} else {}) + Rejected(rest) by {
        forall o | o in Rejected(batch)
          ensures o in (if om.status == REJECTED then {om.operation} else {}) + Rejected(rest)
        {
          var w :| w in batch && w.status == REJECTED && w.operation == o;
          if w != om {
            assert w in rest;
          }
        }
      }
    }
  }

  /**
   * Convergence: replicas that start from the same log and receive the same
   * envelopes, in any order and with any repetition, end with equal logs.
   */
  lemma DeliveryOrderIrrelevant(log: LogState, b1: seq<OperationManager>, b2: seq<OperationManager>)
    requires forall om :: om in b1 <==> om in b2
    ensures AdmitAll(log, b1) == AdmitAll(log, b2)
  {
    AdmitAllCollects(log, b1);
    AdmitAllCollects(log, b2);
    assert Delivered(b1) == Delivered(b2);
    assert Rejected(b1) == Rejected(b2);
  }

  /** Once its rejection is in a batch, an operation is not effective, wherever its add sits. */
  lemma TombstoneWins(log: LogState, batch: seq<OperationManager>, op: Operation)
    requires OperationManager(REJECTED, op) in batch
    ensures op !in Effective(AdmitAll(log, batch))
  {
    AdmitAllCollects(log, batch);
    assert op in Rejected(batch);
  }

  /** After delivering an operation, its type is included exactly when it was, or the operation is not tombstoned. */
  lemma DeliverIncludes(log: LogState, om: OperationManager, kind: OperationType)
    requires Delivers(om.status)
    ensures Includes(Admit(log, om), kind) <==>
            Includes(log, kind) || (om.operation.kind == kind && om.operation !in log.rems)
  {
    if om.operation.kind == kind && om.operation !in log.rems {
      assert om.operation in Admit(log, om).adds;
    }
  }

  /** After a rejection, a type is included exactly when some other effective operation has it. */
  lemma RejectIncludes(log: LogState, op: Operation, kind: OperationType)
    ensures Includes(Admit(log, OperationManager(REJECTED, op)), kind) <==>
            exists o :: o in Effective(log) && o != op && o.kind == kind
  {
  }

  class CRDTManager {
    /** The managed log, or null until first needed. */
    var crdt: LastWriteWins?

    /** The value of the managed log; a manager with no log yet behaves as an empty one. */
    function Log(): LogState
      reads this, crdt
    {
      if crdt == null then Empty else crdt.Log()
    }

    /** The default constructor installs no log. */
    constructor ()
      ensures crdt == null
    {
      crdt := null;
    }

    /** Manages a copy of `source`: equal to it, but a distinct object. */
    constructor FromCrdt(source: LastWriteWins)
      ensures crdt != null && fresh(crdt)
      ensures Log() == source.Log()
    {
      crdt := new LastWriteWins.Copy(source);
    }

    /** Returns the managed log, installing an empty one on first use. */
    method GetCrdt() returns (c: LastWriteWins)
      modifies this
      ensures crdt == c
      ensures old(crdt) != null ==> c == old(crdt)
      ensures old(crdt) == null ==> fresh(c) && c.Log() == Empty
      ensures Log() == old(Log())
    {
      if crdt == null {
        crdt := new LastWriteWins();
      }
      c := crdt;
    }

    /** True iff the effective set includes a CREATE operation. */
    predicate IsCreated()
      reads this, crdt
      ensures IsCreated() <==> exists o :: o in Effective(Log()) && o.kind == CREATE
    {
      crdt != null && crdt.IsCreated()
    }

    /** True iff the effective set includes a READ operation. */
    predicate IsRead()
      reads this, crdt
      ensures IsRead() <==> exists o :: o in Effective(Log()) && o.kind == READ
    {
      crdt != null && crdt.IsRead()
    }

    /** True iff the effective set includes an UPDATE operation. */
    predicate IsUpdated()
      reads this, crdt
      ensures IsUpdated() <==> exists o :: o in Effective(Log()) && o.kind == UPDATE
    {
      crdt != null && crdt.IsUpdated()
    }

    /** True iff the effective set includes a DELETE operation. */
    predicate IsDeleted()
      reads this, crdt
      ensures IsDeleted() <==> exists o :: o in Effective(Log()) && o.kind == DELETE
    {
      crdt != null && crdt.IsDeleted()
    }

    /** Empties the managed log (installing it first if there was none). */
    method Clear()
      modifies this, crdt
      ensures crdt != null
      ensures old(crdt) != null ==> crdt == old(crdt)
      ensures old(crdt) == null ==> fresh(crdt)
      ensures Log() == Empty
      ensures !IsCreated() && !IsRead() && !IsUpdated() && !IsDeleted()
    {
      var c := GetCrdt();
      c.Clear();
      EmptyIncludesNothing(CREATE);
      EmptyIncludesNothing(READ);
      EmptyIncludesNothing(UPDATE);
      EmptyIncludesNothing(DELETE);
    }

    /** Delivers `op` into the add-set of the managed log. */
    method PushAdd(op: Operation)
      modifies this, crdt
      ensures crdt != null
      ensures old(crdt) != null ==> crdt == old(crdt)
      ensures old(crdt) == null ==> fresh(crdt)
      ensures Log() == LogState(old(Log()).adds + {op}, old(Log()).rems)
    {
      var c := GetCrdt();
      c.AddOperation(op);
    }

    /** Tombstones `op` in the remove-set of the managed log, whether or not it was added. */
    method PushRemove(op: Operation)
      modifies this, crdt
      ensures crdt != null
      ensures old(crdt) != null ==> crdt == old(crdt)
      ensures old(crdt) == null ==> fresh(crdt)
      ensures Log() == LogState(old(Log()).adds, old(Log()).rems + {op})
    {
      var c := GetCrdt();
      c.RemOperation(op);
    }

    /**
     * Routes the wrapped operation by its status.  An unrecognised status
     * touches nothing, not even the lazily created log.
     */
    method Push(om: OperationManager)
      modifies this, crdt
      ensures om.status == Other ==> crdt == old(crdt)
      ensures om.status != Other ==> crdt != null
      ensures old(crdt) != null ==> crdt == old(crdt)
      ensures crdt != old(crdt) ==> fresh(crdt)
      ensures Log() == Admit(old(Log()), om)
    {
      match om.status
      case APPROVED => PushAdd(om.operation);
      case PENDING => PushAdd(om.operation);
      case REJECTED => PushRemove(om.operation);
      case Other =>
    }

    /**
     * Manager equality as written: `this == obj` answers true; otherwise
     * `obj` must be non-null and pass the superclass's `equals` before the
     * logs are compared.
     */
    method Equals(other: CRDTManager?) returns (r: bool)
      ensures r <==> other == this
    {
      if this == other {
        r := true;
      } else if other == null || !ObjectEquals(other) {
        r := false;
      } else {
        r := LogEquals(other);
      }
    }

    /** `Object.equals`, the superclass's equality: reference identity. */
    predicate ObjectEquals(o: CRDTManager?)
    {
      o == this
    }

    /**
     * Manager equality as evidently intended: delegate to the managed logs.
     * Two logs are taken to be equal when both their sets are.
     */
    predicate LogEquals(other: CRDTManager?)
      reads this, crdt, other, if other != null then {other.crdt} else {}
      ensures other == this ==> LogEquals(other)
      ensures LogEquals(other) ==> other != null && Effective(Log()) == Effective(other.Log())
      ensures LogEquals(other) ==> IsCreated() == other.IsCreated() && IsRead() == other.IsRead() &&
                                   IsUpdated() == other.IsUpdated() && IsDeleted() == other.IsDeleted()
    {
      other != null && Log() == other.Log()
    }

    /** A CREATE operation: no patch, the given timestamp. */
    static function GenerateCreate(timestamp: Long): (op: Operation)
      ensures op.kind == CREATE && op.timestamp == timestamp && WellFormed(op)
    {
      Operation(CREATE, timestamp, None)
    }

    /** A READ operation: no patch, the given timestamp. */
    static function GenerateRead(timestamp: Long): (op: Operation)
      ensures op.kind == READ && op.timestamp == timestamp && WellFormed(op)
    {
      Operation(READ, timestamp, None)
    }

    /**
     * An UPDATE operation whose patch is the JSON diff taking `source` to
     * `target`; `diff` stands for the external diff library.
     */
    static function GenerateUpdate(diff: (JsonNode, JsonNode) -> JsonNode, source: JsonNode, target: JsonNode,
                                   timestamp: Long): (op: Operation)
      ensures op.kind == UPDATE && op.timestamp == timestamp && WellFormed(op)
      ensures op.patch == Some(diff(source, target))
    {
      Operation(UPDATE, timestamp, Some(diff(source, target)))
    }

    /** A DELETE operation: no patch, the given timestamp. */
    static function GenerateDelete(timestamp: Long): (op: Operation)
      ensures op.kind == DELETE && op.timestamp == timestamp && WellFormed(op)
    {
      Operation(DELETE, timestamp, None)
    }
  }

  /**
   * Two distinct managers built by the default constructor, with no
   * operation pushed, hold identical (empty) logs, yet `Equals` is false.
   */
  method DistinctManagersUnequal() returns (equal: bool, logEqual: bool)
    ensures !equal && logEqual
  {
    var a := new CRDTManager();
    var b := new CRDTManager();
    equal := a.Equals(b);
    logEqual := a.LogEquals(b);
  }

  /**
   * With equality delegated to the logs, two managers that started empty
   * and received the same envelopes, in any order, are equal.
   */
  lemma ConvergedManagersEqual(a: CRDTManager, b: CRDTManager, ba: seq<OperationManager>, bb: seq<OperationManager>)
    requires a.Log() == AdmitAll(Empty, ba) && b.Log() == AdmitAll(Empty, bb)
    requires forall om :: om in ba <==> om in bb
    ensures a.LogEquals(b)
  {
    DeliveryOrderIrrelevant(Empty, ba, bb);
  }
}
