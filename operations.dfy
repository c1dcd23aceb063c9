/**
 * Operations and their admission envelopes: the values that flow into a
 * CRDT manager.  An operation is an immutable record of one intended
 * document mutation; an operation manager pairs it with the admission
 * status decided outside the CRDT.
 */
module Operations {
  import opened Wrappers

  /** The four kinds of document operation. */
  datatype OperationType = CREATE | READ | UPDATE | DELETE

  /** Java's 64-bit signed `long`, the type of every timestamp. */
  type Long = t: int | -0x8000_0000_0000_0000 <= t < 0x8000_0000_0000_0000

  /**
   * A JSON value.  Patches are JSON documents too; the core never looks
   * inside them, it only stores them.
   */
  datatype JsonNode =
    | JNull
    | JBool(b: bool)
    | JNumber(n: int)
    | JString(s: string)
    | JArray(items: seq<JsonNode>)
    | JObject(fields: seq<(string, JsonNode)>)

  /**
   * An operation: its type, its effective timestamp and, for an UPDATE,
   * the JSON patch it carries.  Equality is structural, which is the
   * identity the log's sets use.
   */
  datatype Operation = Operation(kind: OperationType, timestamp: Long, patch: Option<JsonNode>)

  /** Only an UPDATE carries a patch, and an UPDATE always carries one. */
  predicate WellFormed(op: Operation)
  {
    op.patch.Some? <==> op.kind == UPDATE
  }

  /**
   * The admission status of a wrapped operation.  `Other` stands for any
   * status value besides the three the manager recognises (the `default`
   * branch of its switch).
   */
  datatype Status = APPROVED | PENDING | REJECTED | Other

  /** APPROVED and PENDING operations are delivered into the add-set. */
  predicate Delivers(s: Status)
  {
    s == APPROVED || s == PENDING
  }

  /** The envelope consumed by a push: a status and the operation it governs. */
  datatype OperationManager = OperationManager(status: Status, operation: Operation)
}
