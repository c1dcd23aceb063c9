# json-crdt admission gate and simulation node, in Dafny

This project models two parts of a last-write-wins (LWW) JSON CRDT library.

The first is the **CRDT manager**. A manager wraps one LWW operation log. Its `push` routes each wrapped
operation by admission status:

- APPROVED and PENDING put the operation into the log's add-set.
- REJECTED puts it into the remove-set, a tombstone.
- Any other status does nothing.

Around `push` sit the factories for CREATE, READ, UPDATE and DELETE operations, the four
"includes an operation of this type" predicates, `clear`, the lazily created log, the copy
constructor and `equals`.

The log (`LastWriteWins`) is modelled as two finite sets of operations. Its effective set is the
add-set minus the remove-set. On top of this, the model proves the convergence laws of admission:

- pushes are idempotent;
- pushes commute;
- a tombstone wins whether it arrives before or after the add;
- replicas that receive the same envelopes, in any order and with any repetition, end with equal logs.

The second part is the **simulation node**. A node holds a datastore mapping object ids to managers,
plus an append-only list of ids used to pick an object at random. Both are created lazily. The node
is a class whose methods update these fields in place. The random draw is an explicit index argument.

Files:

- `wrappers.dfy`: Option and Result.
- `operations.dfy`: operations, statuses and envelopes.
- `lww.dfy`: the log's value and the `LastWriteWins` class.
- `crdt.dfy`: the admission functions, the `CRDTManager` class and the convergence lemmas.
- `simulation.dfy`: `SimCRDTManager` and `AbstractNode`.

Modelling choices:

- Timestamps are Java `long`s, the subset type `Long` of `int`.
- A patch is a `JsonNode` value. The diff library is the function argument `diff` of `GenerateUpdate`.
- The status datatype has a fourth value, `Other`. It stands for every status the switch's `default` branch receives.
- The `LastWriteWins` class and `Operation` class are not part of this model's sources. The four type
  predicates are read over the effective set. Operation identity is structural equality of type,
  timestamp and patch.
- `LastWriteWins.equals`, which `CRDTManager.equals` delegates to, is not part of this model's sources.
  `LogEquals` assumes it compares both raw sets. The coarser alternative compares only the effective sets.
  Under it, replicas with different tombstone histories would compare equal. `LogEquals` is proved to
  imply equal effective sets, so it is the finer of the two.
- `SimCRDTManager` is not part of this model's sources. The model assumes it is a `CRDTManager` that also
  carries an object id, and that its `clear` is the one inherited from `CRDTManager`. `AbstractNode.Clear`'s
  contract (every stored log ends empty) rests on that assumption. Dafny has no class inheritance here, so
  it is modelled as an object id held together with a `CRDTManager`.

Where the design and the code disagree, the model follows the code:

- Manager equality is reference identity, not a comparison of logs (see Findings).
- A push with an unrecognised status does not even create the lazy log.

## Model

| member | source | states |
|---|---|---|
| `Crdt.Admit` | src/main/java/com/cyberfront/crdt/CRDTManager.java:171-183 | each of the two sets only grows, and by at most the wrapped operation; the operation is in the add-set afterwards iff it was or the status is APPROVED/PENDING, and in the remove-set iff it was or the status is REJECTED |
| `Crdt.AdmitRouting` | src/main/java/com/cyberfront/crdt/CRDTManager.java:171-183 | APPROVED/PENDING adds exactly the operation and leaves the remove-set; REJECTED adds exactly it to the remove-set and leaves the add-set; any other status leaves both sets |
| `Crdt.AdmitIdempotent` | src/main/java/com/cyberfront/crdt/CRDTManager.java:155-165 | pushing the same envelope twice gives the same log as pushing it once |
| `Crdt.AdmitCommutes` | src/main/java/com/cyberfront/crdt/CRDTManager.java:155-165 | two pushes give the same log in either order |
| `Crdt.TombstoneEitherOrder` | src/main/java/com/cyberfront/crdt/CRDTManager.java:159-165 | an operation rejected after, or before, its APPROVED/PENDING push is not effective |
| `Crdt.AdmitAllCollects` | src/main/java/com/cyberfront/crdt/CRDTManager.java:171-183 | pushing a batch adds exactly its delivered operations and tombstones exactly its rejected ones, whatever the order |
| `Crdt.DeliveryOrderIrrelevant` | src/main/java/com/cyberfront/crdt/CRDTManager.java:151-165 | two replicas given the same envelopes, in any order and with any repetition, reach equal logs |
| `Crdt.TombstoneWins` | src/main/java/com/cyberfront/crdt/CRDTManager.java:159-165 | once a batch holds an operation's REJECTED envelope, that operation is not effective, wherever its add sits, and even if it was never added |
| `Crdt.DeliverIncludes` | src/main/java/com/cyberfront/crdt/CRDTManager.java:104-142 | after an APPROVED/PENDING push, a type is included iff it was, or it is the pushed operation's type and that operation is not tombstoned |
| `Crdt.RejectIncludes` | src/main/java/com/cyberfront/crdt/CRDTManager.java:104-142 | after a REJECTED push, a type is included iff some other effective operation has that type |
| `Lww.EmptyIncludesNothing` | src/main/java/com/cyberfront/crdt/CRDTManager.java:144-149 | an empty log includes no operation type |
| `Lww.LastWriteWins.constructor` | src/main/java/com/cyberfront/crdt/CRDTManager.java:91 | a new log has both sets empty |
| `Lww.LastWriteWins.Copy` | src/main/java/com/cyberfront/crdt/CRDTManager.java:81 | the copy holds the same add-set and remove-set as its argument |
| `Lww.LastWriteWins.AddOperation` | src/main/java/com/cyberfront/crdt/CRDTManager.java:155-157 | the add-set gains the operation, a set insertion; the remove-set is unchanged |
| `Lww.LastWriteWins.RemOperation` | src/main/java/com/cyberfront/crdt/CRDTManager.java:159-165 | the remove-set gains the operation, whether or not it was added; the add-set is unchanged |
| `Lww.LastWriteWins.Clear` | src/main/java/com/cyberfront/crdt/CRDTManager.java:144-149 | both sets become empty |
| `Crdt.CRDTManager.constructor` | src/main/java/com/cyberfront/crdt/CRDTManager.java:71-74 | the default constructor installs no log |
| `Crdt.CRDTManager.FromCrdt` | src/main/java/com/cyberfront/crdt/CRDTManager.java:76-82 | the manager holds a freshly allocated log, distinct from the argument, with the same sets |
| `Crdt.CRDTManager.GetCrdt` | src/main/java/com/cyberfront/crdt/CRDTManager.java:84-94 | with no log, installs and returns a fresh empty one; otherwise returns the installed log, unchanged; the log's value never changes |
| `Crdt.CRDTManager.IsCreated` | src/main/java/com/cyberfront/crdt/CRDTManager.java:104-112 | true iff the effective set holds a CREATE operation |
| `Crdt.CRDTManager.IsRead` | src/main/java/com/cyberfront/crdt/CRDTManager.java:114-122 | true iff the effective set holds a READ operation |
| `Crdt.CRDTManager.IsUpdated` | src/main/java/com/cyberfront/crdt/CRDTManager.java:124-132 | true iff the effective set holds an UPDATE operation |
| `Crdt.CRDTManager.IsDeleted` | src/main/java/com/cyberfront/crdt/CRDTManager.java:134-142 | true iff the effective set holds a DELETE operation |
| `Crdt.CRDTManager.Clear` | src/main/java/com/cyberfront/crdt/CRDTManager.java:144-149 | the log, installed if missing, becomes empty, and all four type predicates are false |
| `Crdt.CRDTManager.PushAdd` | src/main/java/com/cyberfront/crdt/CRDTManager.java:151-157 | the operation joins the add-set of the (lazily installed) log; the remove-set is unchanged |
| `Crdt.CRDTManager.PushRemove` | src/main/java/com/cyberfront/crdt/CRDTManager.java:159-165 | the operation joins the remove-set of the (lazily installed) log; the add-set is unchanged |
| `Crdt.CRDTManager.Push` | src/main/java/com/cyberfront/crdt/CRDTManager.java:167-183 | the log becomes `Admit` of the old log and the envelope; an unrecognised status does not even install a log |
| `Crdt.CRDTManager.Equals` | src/main/java/com/cyberfront/crdt/CRDTManager.java:226-237 | following the source's condition chain (identity, then null and `Object.equals`, then the logs), the result is true iff the other manager is this very object, so the log comparison never decides it |
| `Crdt.CRDTManager.LogEquals` | src/main/java/com/cyberfront/crdt/CRDTManager.java:234-236 | a manager is log-equal to itself; log-equal managers have equal effective sets and agree on all four type predicates; null is never log-equal |
| `Crdt.DistinctManagersUnequal` | src/main/java/com/cyberfront/crdt/CRDTManager.java:227-236 | two fresh default-constructed managers, with identical empty logs, are not `Equals` but are `LogEquals` |
| `Crdt.ConvergedManagersEqual` | src/main/java/com/cyberfront/crdt/CRDTManager.java:234-236 | managers that started empty and received the same envelopes, in any order, are `LogEquals` |
| `Crdt.CRDTManager.GenerateCreate` | src/main/java/com/cyberfront/crdt/CRDTManager.java:185-192 | a well-formed CREATE (no patch) with the given timestamp |
| `Crdt.CRDTManager.GenerateRead` | src/main/java/com/cyberfront/crdt/CRDTManager.java:194-201 | a well-formed READ (no patch) with the given timestamp |
| `Crdt.CRDTManager.GenerateUpdate` | src/main/java/com/cyberfront/crdt/CRDTManager.java:203-212 | a well-formed UPDATE with the given timestamp whose patch is the diff of source and target |
| `Crdt.CRDTManager.GenerateDelete` | src/main/java/com/cyberfront/crdt/CRDTManager.java:214-221 | a well-formed DELETE (no patch) with the given timestamp |
| `Simulation.SimCRDTManager.constructor` | src/main/java/com/cyberfront/crdt/sample/simlation/AbstractNode.java:49 | a manager carrying the given object id |
| `Simulation.AbstractNode.constructor` | src/main/java/com/cyberfront/crdt/sample/simlation/AbstractNode.java:51-58 | the node has the given id; the id list and the datastore are not created yet |
| `Simulation.AbstractNode.GetDatastore` | src/main/java/com/cyberfront/crdt/sample/simlation/AbstractNode.java:69-80 | creates an empty map only on first use; later calls return the same map, unchanged; the id list is untouched |
| `Simulation.AbstractNode.GetCrdtIds` | src/main/java/com/cyberfront/crdt/sample/simlation/AbstractNode.java:93-104 | creates an empty list only on first use; later calls return the same list, unchanged; the datastore is untouched |
| `Simulation.AbstractNode.AddCRDT` | src/main/java/com/cyberfront/crdt/sample/simlation/AbstractNode.java:106-114 | the manager is mapped under its object id, replacing any previous entry, and the id is appended to the list even if already there; other entries are unchanged; a repeated id leaves the map size unchanged; every mapped id stays in the list |
| `Simulation.AbstractNode.Clear` | src/main/java/com/cyberfront/crdt/sample/simlation/AbstractNode.java:82-91 | every manager that was in the datastore has an empty log, and the datastore is empty; the id list is unchanged |
| `Simulation.AbstractNode.PickCrdtId` | src/main/java/com/cyberfront/crdt/sample/simlation/AbstractNode.java:116-124 | with an empty list the draw fails with an illegal argument; otherwise the result is the id at the drawn index, an id once passed to `AddCRDT` |
| `Simulation.AbstractNode.PickCRDT` | src/main/java/com/cyberfront/crdt/sample/simlation/AbstractNode.java:126-133 | the datastore is created first; the result is the manager mapped under the picked id, or null when that id is no longer mapped |
| `Simulation.PickAfterClear` | src/main/java/com/cyberfront/crdt/sample/simlation/AbstractNode.java:131-133 | after `Clear` on a node with ids, a pick yields null, because the id list was not reset |

## Left out

- Replay of UPDATE patches in timestamp order, tie-breaking and the reconstructed document: the `LastWriteWins` class is not part of this model's sources. Only its two sets, its effective set and its type predicates are modelled.
- Merging two logs by union: it belongs to `LastWriteWins`, which is not part of this model. Convergence is stated as `DeliveryOrderIrrelevant` over batches of pushes instead.
- JSON diff computation and JSON patch application: these come from an external library. A patch is an uninspected `JsonNode`, and the diff is the caller-supplied function `diff`.
- Crdt.CRDTManager.IsCreated, IsRead, IsUpdated, IsDeleted: in Java these call `getCrdt`, which installs an empty log when none exists. The model reads a missing log as empty and does not record that installation. The installation is invisible to every other modelled operation.
- `hashCode`, `toString`, `getSegment`, `datastoreToString` and the static `ObjectMapper`: these are identity hashing, text rendering and serialisation plumbing.
- Jackson annotations and polymorphic subtype dispatch: these are serialisation only.
- Logging: it has no effect on state.
- Randomness: `Support.getRandom().nextInt(n)` is replaced by an index argument, which the caller guarantees is in range when `n > 0`.
- Null arguments: Java's null paths are not modelled. The model's types exclude each of them, and each would throw `NullPointerException` in Java:
  - a null status in `push` (CRDTManager.java:172) throws from the `switch`, so it never reaches `default`;
  - a null log passed to the copy constructor (CRDTManager.java:80-81), which the JSON creator can do;
  - a null manager passed to `addCRDT` (AbstractNode.java:112).
- Simulation.AbstractNode.GetDatastore: Java returns the live `TreeMap`. A caller can then put or remove entries directly, without touching the id list, and such changes are visible to the node. The model returns the map as a value, so this aliasing is not captured. `Valid()` (every mapped id is in the id list) holds only for changes made through `AddCRDT` and `Clear`.
- Simulation.AbstractNode.GetCrdtIds: the id list is likewise a value, not a shared `ArrayList`. The method is private in Java, so no caller outside the node can alias it.
- Thread safety: the source is single-threaded per instance, so the model is sequential.
- The map's ordering (a `TreeMap`) and the iteration order of `clear`: the model's `Clear` visits the keys in an arbitrary order. Its result does not depend on that order.

## Findings

| source | as written | input that shows it | evidently intended | confidence | as-written member | corrected member |
|---|---|---|---|---|---|---|
| src/main/java/com/cyberfront/crdt/CRDTManager.java:230 | `!super.equals(obj)` rejects every object but `this`, because the superclass is `Object` and `Object.equals` is reference identity. The log comparison at line 236 therefore only runs when `this == obj`, which line 228 has already answered. | two distinct managers built with `new CRDTManager()` and no operations pushed: they have identical (empty) logs and `equals` returns false (`Crdt.DistinctManagersUnequal`) | equality delegated to the managed logs, so that replicas that received the same operations compare equal | medium, not executed | `Crdt.CRDTManager.Equals` | `Crdt.CRDTManager.LogEquals` |
