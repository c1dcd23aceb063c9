/**
 * The last-write-wins operation log, reduced to what the manager relies on:
 * an add-set and a remove-set of operations, the effective set (added and
 * not removed) and the four "includes an operation of this type" flags.
 * Replay of UPDATE patches in timestamp order is not part of this model.
 */
module Lww {
  import opened Operations

  /** The abstract value of a log: its two sets. */
  datatype LogState = LogState(adds: set<Operation>, rems: set<Operation>)

  /** A freshly created or cleared log. */
  const Empty: LogState := LogState({}, {})

  /** The operations that take effect: added and not tombstoned. */
  function Effective(log: LogState): set<Operation>
  {
    log.adds - log.rems
  }

  /** Whether the effective set holds an operation of the given type. */
  predicate Includes(log: LogState, kind: OperationType)
  {
    exists o :: o in Effective(log) && o.kind == kind
  }

  /** A log that has never received an operation includes no type at all. */
  lemma EmptyIncludesNothing(kind: OperationType)
    ensures !Includes(Empty, kind)
  {
  }

  class LastWriteWins {
    var addOperations: set<Operation>
    var remOperations: set<Operation>

    /** The abstract value of this log. */
    function Log(): LogState
      reads this
    {
      LogState(addOperations, remOperations)
    }

    /** An empty log. */
    constructor ()
      ensures Log() == Empty
    {
      addOperations, remOperations := {}, {};
    }

    /** A new log holding the same operations as `other`. */
    constructor Copy(other: LastWriteWins)
      ensures Log() == other.Log()
    {
      addOperations, remOperations := other.addOperations, other.remOperations;
    }

    /** Inserts `op` into the add-set; inserting an operation already there changes nothing. */
    method AddOperation(op: Operation)
      modifies this
      ensures addOperations == old(addOperations) + {op}
      ensures remOperations == old(remOperations)
    {
      addOperations := addOperations + {op};
    }

    /** Inserts `op` into the remove-set, whether or not it was ever added. */
    method RemOperation(op: Operation)
      modifies this
      ensures remOperations == old(remOperations) + {op}
      ensures addOperations == old(addOperations)
    {
      remOperations := remOperations + {op};
    }

    /** Empties both sets. */
    method Clear()
      modifies this
      ensures Log() == Empty
    {
      addOperations, remOperations := {}, {};
    }

    predicate IsCreated()
      reads this
    {
      Includes(Log(), CREATE)
    }

    predicate IsRead()
      reads this
    {
      Includes(Log(), READ)
    }

    predicate IsUpdated()
      reads this
    {
      Includes(Log(), UPDATE)
    }

    predicate IsDeleted()
      reads this
    {
      Includes(Log(), DELETE)
    }
  }
}
