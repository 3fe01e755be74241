# VeriSimDB: a verified model of the engine's stateful core

VeriSimDB keeps one entity, an octad, in eight modalities and repairs them when they drift apart.
This project models the parts of the engine whose correctness spans several operations, and
proves what they keep over every run.

- **Graph stores** (`GraphModel`, `ByteOrder`, `RedbGraphStore`, `SimpleGraphStore`,
  `Neighborhoods`, `StoreAgreement`, `SimpleStoreInterleaving`, `SearchInterleaving`). Two stores of triples, one on
  ordered byte keys and one on hash maps, both with a subject and an object index. Both refine one
  abstract state; the byte-key scan, the breadth-first search and the lock-by-lock interleavings
  are proved against it.
- **Conflicts** (`ConflictResolver`, `ConflictInterleaving`). Resolution policies, and the movement
  of a conflict from the active list to the bounded history while other calls run in between.
- **Transactions** (`TransactionManager`), **Groove sessions** (`Groove`) and **normalizer counters**
  (`NormalizerCounters`). Lock-protected tables as classes; their runs as state machines.
- **Rate limiter** (`RateLimiter`) and **base64url** (`Base64Url`, sections 4 and 5 of RFC 4648).
- **Drift and regeneration** (`VectorMath`, `DriftCalculator`, `TextEmbedding`, `Keywords`,
  `StorageRegenerator`). Cosine similarity, trigram embeddings, keyword extraction, and the drift
  measured after a modality was regenerated.
- **Query text** (`QueryText`, `VclTokenizer`, `FallbackParser`, `FallbackPrinter`,
  `FallbackRoundTrip`). The quote-tracking tokenizer, the fallback parser with its cursor, and a
  printer that the parser inverts.

Objects that the engine updates in place are classes; each method is proved against a function or
predicate of the old and the new state, and the theorems about runs are proved about those. Where
calls interleave, each lock region is one step.

`dafny verify dfyconfig.toml` checks everything.

## What does not hold

Each entry names a theorem that says exactly when the code does what is intended, and where the
failure needs a run, a lemma with one.

- A literal `x` and a node `literal::x` share a triple key, though the source says that this encoding
  tells nodes and literals apart. `incoming` is right after a run if and only if no literal was last
  stored over a node of that IRI (`RunIncomingExactIff`, `IncomingReportsALiteral`); the index itself
  stays exact under `StepKeepsIndexExactIff`, and neighbourhoods are distance under
  `BallsAreDistanceIff` (`PhantomBreaksDistance`).
- The code takes the absence of NUL bytes for granted: a triple shares its byte key with another one
  if and only if it has a NUL (`KeyCollidesIff`).
- `SimpleGraphStore` takes its locks one after another. A stored edge is missing from an index if and
  only if an insert wrote its key last in the edge map and not in the index (`HiddenIff`). It can stay so
  after all calls have returned only if a delete overtook an insert (`HiddenForGoodWasOvertaken`), and
  whenever a delete can overtake, it can happen (`OvertakingHides`, `OvertakingHidesNode`,
  `RacingDeleteHidesAnEdge`).
- The rate limiter reads the clock before it locks. The limit holds for all calls with given readings
  if and only if, of two readings that fit in one window, the first is never pruned by a call between
  them (`LimitHoldsIff`, `LateClockReadBreaksTheLimit`).
- The base64url decoder takes padding, `+`, `/` and nonzero spare bits, so several texts decode alike
  (`ReencodesIffCanonical`, `SpareBitIsLost`).
- `unquote` slices out of range exactly on a lone quote (`UnquoteFailsIff`), and a statement reaches it
  (`LoneQuoteIsReached`). A quoted id is found if and only if no white space in it is outside quotes
  (`DeleteStatementFindsIff`).
- Measuring vector drift stops the program exactly for a document with a stored embedding of length
  zero (`MeasuringStopsIff`).
- Keyword extraction cuts at ten in hash-map order, and drift measured at once is sure to be 0 if and
  only if there is no tie at the cut (`RegeneratedSemanticHasNoDriftIff`, `RegeneratedSemanticMayDrift`).
- An embedding is regenerated with 384 components, so a store configured for another length refuses it
  (`Regenerator.RegenerateVector`).
- The WHERE clause of the fallback parser takes in a following GROUP BY, HAVING or ORDER BY
  (`RoundTripIff`, `WhereSwallows`, `GroupedIsNotReadBack`).
- A comma right after DESC makes the ordering ascending, and one right after the parenthesis of an
  aggregate loses `COUNT (*)` or enters the field name; all other commas in lists are harmless
  (`RoundTripIff`, `AsReadIff`, `CommasAreReadOrLost`). The last part of `graph.x.y` is dropped
  (`ThirdPartIsDropped`).
- The comments of the fallback parser promise `COUNT(*)`; written without a space an aggregate is
  always dropped silently (`GluedAggregateIsLost`). The modality of an aggregate keeps the case of its
  first letter, where other clauses capitalize it (`AggregateKeepsCaseIff`, `LowerCaseAggregate`).
- The transaction timeout is documented as an automatic rollback; cleanup removes an expired active
  transaction outright, so that later calls on it answer NotFound (`CleanupForgetsIff`,
  `ExpiryIsNoRollback`).
- Groove documents that a degraded session is removed when it misses another timeout; the next late
  poll removes it, however soon it comes (`LivesIff`, `RemovedWithoutAnotherTimeout`).

## Model

| member | source | states |
|---|---|---|
| StoreAgreement.StoresAgree | verisimdb/rust-core/verisim-graph/src/redb_backend.rs:212-396 | After any list of inserts and deletes on NUL-free IRIs the persistent and the in-memory store give the same `exists`, `outgoing`, `incoming` and `neighborhood` answers (each edge equally often). `exists` and `outgoing` are what the last operation on each triple, that is on the same subject, predicate and object, says. `incoming` is so if and only if no literal covers a node of that IRI. The neighbourhood is the IRIs within that many undirected hops if phantoms are harmless, as they are when no literal covers a node |
| StoreAgreement.OutgoingListsStored | verisimdb/rust-core/verisim-graph/src/redb_backend.rs:268-276 | A listing by subject holds an edge if and only if the last operation on its subject, predicate and object stored it and it has that subject |
| StoreAgreement.IncomingListsStored | verisimdb/rust-core/verisim-graph/src/redb_backend.rs:279-287 | A listing by object holds an edge if and only if the last operation on its triple stored it and it points at that node, or is a literal whose value after `literal::` is that IRI and which was stored over a node |
| StoreAgreement.IncomingIsStoredIff | verisimdb/rust-core/verisim-graph/src/redb_backend.rs:279-287 | It holds exactly the stored edges that point at the node if and only if no literal covers a node of that IRI |
| StoreAgreement.AskRedb | verisimdb/rust-core/verisim-graph/src/redb_backend.rs:212-396 | A fresh persistent store driven through the operations answers from the abstract state the operations lead to |
| StoreAgreement.AskSimple | verisimdb/rust-core/verisim-graph/src/lib.rs:178-303 | The same for a fresh in-memory store, without any condition on IRIs |
| RedbGraphStore.SplitAtSeparator | verisimdb/rust-core/verisim-graph/src/redb_backend.rs:49-50 | Two texts joined by a NUL separator determine both parts when the first has no NUL |
| RedbGraphStore.EncodeInjective | verisimdb/rust-core/verisim-graph/src/redb_backend.rs:103-121 | Different triple keys have different byte keys when subject and predicate have no NUL, whatever bytes a literal holds |
| RedbGraphStore.KeyCollidesIff | verisimdb/rust-core/verisim-graph/src/redb_backend.rs:103-121 | A triple shares its byte key with another triple if and only if its subject, predicate or object key has a NUL |
| RedbGraphStore.NulGivesAnother | verisimdb/rust-core/verisim-graph/src/redb_backend.rs:103-121 | The other triple is found by reading that NUL as a separator |
| RedbGraphStore.PrefixSelectsIri | verisimdb/rust-core/verisim-graph/src/redb_backend.rs:124-147 | The prefix of an IRI matches an index key if and only if that key was filed under this IRI, and what follows it is the triple key |
| RedbGraphStore.StripKeepsOrder | verisimdb/rust-core/verisim-graph/src/redb_backend.rs:163-207 | Taking off a common prefix keeps the byte order in both directions |
| RedbGraphStore.SeparatedOrder | verisimdb/rust-core/verisim-graph/src/redb_backend.rs:49-50 | As the separator is the least byte, joined keys are ordered by their first parts and then by the rest |
| RedbGraphStore.EncodeKeepsOrder | verisimdb/rust-core/verisim-graph/src/redb_backend.rs:103-121 | The byte keys of triples are ordered by subject, then predicate, then object |
| RedbGraphStore.ScanIndexForEdges | verisimdb/rust-core/verisim-graph/src/redb_backend.rs:163-207 | The range scan that stops at the first key without the prefix yields every triple filed under the IRI and present in the triple table, each once, in key order, and nothing else, whatever the tables hold |
| RedbGraphStore.SubjectIndexFiles | verisimdb/rust-core/verisim-graph/src/redb_backend.rs:124-130 | In tables that represent a state, the subject index files under an IRI exactly the stored triples with that subject |
| RedbGraphStore.ObjectIndexFiles | verisimdb/rust-core/verisim-graph/src/redb_backend.rs:133-139 | The object index files under an IRI exactly the keys the abstract lookup finds |
| RedbGraphStore.ScanLists | verisimdb/rust-core/verisim-graph/src/redb_backend.rs:163-207 | The scan result, decoded, is a listing of the wanted edges, each exactly once, by subject, predicate and object |
| RedbGraphStore.InsertKeepsTriples | verisimdb/rust-core/verisim-graph/src/redb_backend.rs:212-239 | Writing one byte key changes exactly one triple, as keys do not collide |
| RedbGraphStore.InsertRepresents | verisimdb/rust-core/verisim-graph/src/redb_backend.rs:212-265 | The three table writes of an insert lead to tables that represent the state after the abstract insert |
| RedbGraphStore.DeleteKeepsTriples | verisimdb/rust-core/verisim-graph/src/redb_backend.rs:314-340 | Removing one byte key removes exactly one triple |
| RedbGraphStore.DeleteEntries | verisimdb/rust-core/verisim-graph/src/redb_backend.rs:335-358 | The index keys removed belong to the deleted triple and to no other |
| RedbGraphStore.DeleteRepresents | verisimdb/rust-core/verisim-graph/src/redb_backend.rs:314-366 | The three removals of a delete lead to tables that represent the state after the abstract delete |
| RedbGraphStore.Store.Insert | verisimdb/rust-core/verisim-graph/src/redb_backend.rs:212-265 | Insert refines the abstract insert and keeps the tables and both indexes in agreement |
| RedbGraphStore.Store.Delete | verisimdb/rust-core/verisim-graph/src/redb_backend.rs:314-366 | Delete refines the abstract delete and keeps the tables and both indexes in agreement |
| RedbGraphStore.Store.Exists | verisimdb/rust-core/verisim-graph/src/redb_backend.rs:290-311 | True if and only if the key of the edge is stored |
| RedbGraphStore.Store.Outgoing | verisimdb/rust-core/verisim-graph/src/redb_backend.rs:268-276 | A listing of the stored edges with that subject, each once, by predicate and then object |
| RedbGraphStore.Store.Incoming | verisimdb/rust-core/verisim-graph/src/redb_backend.rs:279-287 | A listing of the stored edges the object index files under that IRI, each once, by subject and then predicate |
| RedbGraphStore.Store.Neighborhood | verisimdb/rust-core/verisim-graph/src/redb_backend.rs:369-396 | The search returns the ball of that many rounds; after each round the frontier is the sphere of that round |
| RedbGraphStore.Store.BallIsNulFree | verisimdb/rust-core/verisim-graph/src/redb_backend.rs:369-396 | Every IRI the search reaches can be looked up again: it has no NUL |
| ByteOrder.LexTotal | verisimdb/rust-core/verisim-graph/src/redb_backend.rs:163-207 | Byte order is total |
| ByteOrder.LexAntisymmetric | verisimdb/rust-core/verisim-graph/src/redb_backend.rs:163-207 | Keys that are each at most the other are equal |
| ByteOrder.LexTransitive | verisimdb/rust-core/verisim-graph/src/redb_backend.rs:163-207 | Byte order is transitive |
| ByteOrder.PrefixIsLeq | verisimdb/rust-core/verisim-graph/src/redb_backend.rs:168-172 | Every key with the prefix is at or after the start of the range |
| ByteOrder.PrefixedKeysAreContiguous | verisimdb/rust-core/verisim-graph/src/redb_backend.rs:175-190 | Once a key without the prefix comes after the start of the range, no later key has the prefix |
| ByteOrder.FirstExists | verisimdb/rust-core/verisim-graph/src/redb_backend.rs:163-207 | A non-empty set of keys has a least key, the next one the iterator yields |
| GraphModel.InsertKeepsSound | verisimdb/rust-core/verisim-graph/src/lib.rs:178-206 | Every edge stays under its own key and every node edge stays listed in the object index |
| GraphModel.SameKeyIff | verisimdb/rust-core/verisim-graph/src/lib.rs:128-136 | Two edges share a key if and only if they have the same subject IRI, the same predicate IRI and the same object: nodes of one IRI, literals of one value, or a literal and the node named `literal::` and its value |
| GraphModel.LiteralIri | verisimdb/rust-core/verisim-graph/src/lib.rs:128-136 | A key part is the prefix and a value if and only if it has the bytes of `literal::` and then those of the value |
| GraphModel.LastOnIsLastWrite | verisimdb/rust-core/verisim-graph/src/lib.rs:178-276 | The last operation on a key is the last one on that subject, predicate and object |
| GraphModel.ListingLength | verisimdb/rust-core/verisim-graph/src/lib.rs:208-236 | A listing has as many entries as keys: nothing twice, nothing missing |
| GraphModel.ListingsAgree | verisimdb/rust-core/verisim-graph/src/lib.rs:208-236 | Two listings of the same keys contain the same edges, equally many |
| GraphModel.RunHoldsLastWrites | verisimdb/rust-core/verisim-graph/src/lib.rs:178-206 | A key is stored after a run if and only if the last operation on it was an insert, and then with that edge |
| GraphModel.RunIsSound | verisimdb/rust-core/verisim-graph/src/lib.rs:178-276 | The state after every run is sound |
| GraphModel.IndexExactGivesIncomingExact | verisimdb/rust-core/verisim-graph/src/lib.rs:223-236 | With an exact object index the lookup finds exactly the node edges that point at the IRI |
| GraphModel.StepKeepsIndexExactIff | verisimdb/rust-core/verisim-graph/src/lib.rs:128-136 | An operation keeps the object index exact if and only if it is not a literal written or deleted where a node edge with the same key is stored |
| GraphModel.RunIsIndexExact | verisimdb/rust-core/verisim-graph/src/lib.rs:128-136 | With no node object IRI starting with `literal::` the object index is exact after every run |
| GraphModel.RunAnswers | verisimdb/rust-core/verisim-graph/src/lib.rs:208-236 | Both lookups after any run, read off the last operations on each key: `outgoing` finds what was last stored, `incoming` finds that and each literal that covers a node |
| GraphModel.RunListsLastNodes | verisimdb/rust-core/verisim-graph/src/lib.rs:178-276 | The object index lists a key after a run if and only if the last operation with a node object on it was an insert |
| GraphModel.RunIncomingExactIff | verisimdb/rust-core/verisim-graph/src/lib.rs:223-236 | After a run `incoming` answers exactly the node edges that point at an IRI if and only if no key of that IRI was last stored as a literal over a node that was never deleted as a node |
| GraphModel.NodeIrisAreNotCovered | verisimdb/rust-core/verisim-graph/src/lib.rs:128-136 | That never happens when no node object IRI starts with `literal::` |
| GraphModel.IncomingReportsALiteral | verisimdb/rust-core/verisim-graph/src/lib.rs:130-133 | A run after which `incoming` reports a literal edge |
| Neighborhoods.AdjacentIsLinked | verisimdb/rust-core/verisim-graph/src/lib.rs:284-299 | What the two lookups of one node give is exactly the nodes joined to it by a stored edge in either direction |
| Neighborhoods.AdjacentIsLinkedOrPhantom | verisimdb/rust-core/verisim-graph/src/lib.rs:284-299 | In any sound state the two lookups of a node give its linked nodes and the subjects of literals the object index lists for it, and nothing else |
| Neighborhoods.WalkExtends | verisimdb/rust-core/verisim-graph/src/lib.rs:278-303 | A walk of at most h edges followed by an edge is a walk of at most h + 1 |
| Neighborhoods.BallGrowsFromSphere | verisimdb/rust-core/verisim-graph/src/lib.rs:282-301 | Expanding only the frontier finds as much as expanding everything visited |
| Neighborhoods.BallIsWithinHops | verisimdb/rust-core/verisim-graph/src/lib.rs:278-303 | If phantoms are harmless the visited set after h rounds is exactly the IRIs reached by a walk of at most h undirected edges, cycles included |
| Neighborhoods.BallsAreDistanceIff | verisimdb/rust-core/verisim-graph/src/lib.rs:278-303 | Every visited set is graph distance if and only if phantoms are harmless: each literal listed in the object index joins two IRIs that are equal or joined by a node edge anyway |
| Neighborhoods.PhantomBreaksDistance | verisimdb/rust-core/verisim-graph/src/lib.rs:278-303 | A run of two inserts after which the ball of radius one is not graph distance |
| Neighborhoods.SphereIsExactDistance | verisimdb/rust-core/verisim-graph/src/lib.rs:282-301 | The frontier of round h is exactly the IRIs at distance h |
| Neighborhoods.BallIsReached | verisimdb/rust-core/verisim-graph/src/lib.rs:278-303 | Everything visited is reached by such a walk |
| Neighborhoods.WalkStaysInBall | verisimdb/rust-core/verisim-graph/src/lib.rs:278-303 | Every such walk ends in the visited set |
| Neighborhoods.Expand | verisimdb/rust-core/verisim-graph/src/lib.rs:284-299 | The two inner loops add exactly the unvisited neighbours to the visited set and, each once, to the next frontier |
| Neighborhoods.LookupsFindNeighbours | verisimdb/rust-core/verisim-graph/src/lib.rs:284-299 | The answers of `outgoing` and `incoming` name exactly the neighbours |
| Neighborhoods.RoundGrowsBall | verisimdb/rust-core/verisim-graph/src/lib.rs:282-301 | A round over the whole frontier turns the ball of i rounds into that of i + 1, and the next frontier is its sphere |
| SimpleGraphStore.Store.Insert | verisimdb/rust-core/verisim-graph/src/lib.rs:178-206 | Insert refines the abstract insert; both hash indexes hold exactly the keys they should |
| SimpleGraphStore.Store.Delete | verisimdb/rust-core/verisim-graph/src/lib.rs:244-276 | Delete refines the abstract delete and drops index entries that become empty |
| SimpleGraphStore.Store.Exists | verisimdb/rust-core/verisim-graph/src/lib.rs:238-242 | True if and only if the key of the edge is stored |
| SimpleGraphStore.Store.Collect | verisimdb/rust-core/verisim-graph/src/lib.rs:211-220 | Collecting through a set of keys in any order lists exactly the stored edges among them, each once |
| SimpleGraphStore.Store.Outgoing | verisimdb/rust-core/verisim-graph/src/lib.rs:208-221 | A listing of the stored edges with that subject, each once |
| SimpleGraphStore.Store.Incoming | verisimdb/rust-core/verisim-graph/src/lib.rs:223-236 | A listing of the stored edges the object index holds under that IRI, each once |
| SimpleGraphStore.Store.Neighborhood | verisimdb/rust-core/verisim-graph/src/lib.rs:278-303 | The same ball as the persistent store computes |
| SimpleStoreInterleaving.TablesHoldLastWrites | verisimdb/rust-core/verisim-graph/src/lib.rs:178-276 | In every interleaving each of the three tables holds, for each key, what the last call to write it under that lock left |
| SimpleStoreInterleaving.HiddenIff | verisimdb/rust-core/verisim-graph/src/lib.rs:178-276 | In every interleaving a stored edge is missing from an index if and only if the last writer of its key in the edge map is an insert and the last one in that index is not; a literal is listed in the object index exactly in the opposite case |
| SimpleStoreInterleaving.OutgoingIsExactIff | verisimdb/rust-core/verisim-graph/src/lib.rs:208-221 | In every interleaving `outgoing` answers exactly the matching edges present when it locks the edge map if and only if the last writer in the subject index of each stored matching key is an insert |
| SimpleStoreInterleaving.IncomingIsExactIff | verisimdb/rust-core/verisim-graph/src/lib.rs:223-236 | The same for `incoming`, the node edges that point at the IRI, and the object index: an insert there last, exactly for the keys of node edges |
| SimpleStoreInterleaving.StepKeepsThread | verisimdb/rust-core/verisim-graph/src/lib.rs:178-276 | A lock region in which no delete overtakes an insert leaves every running call as far as its program counter says |
| SimpleStoreInterleaving.StepKeepsIndexed | verisimdb/rust-core/verisim-graph/src/lib.rs:178-276 | Such a region keeps each stored key in its indexes except while a delete of that key is under way |
| SimpleStoreInterleaving.RunsAreIndexed | verisimdb/rust-core/verisim-graph/src/lib.rs:178-276 | So it is in every interleaving without overtaking: no delete writes an index between the writes of an insert of the same key to that index and to the edge map |
| SimpleStoreInterleaving.HiddenForGoodWasOvertaken | verisimdb/rust-core/verisim-graph/src/lib.rs:178-276 | An edge still missing from an index when every call has returned was overtaken |
| SimpleStoreInterleaving.OvertakingHides | verisimdb/rust-core/verisim-graph/src/lib.rs:178-276 | Whenever an insert has indexed a key and a delete of it has yet to start its writes, the run can go on so that both return and the edge is stored but not in the subject index |
| SimpleStoreInterleaving.OvertakingHidesNode | verisimdb/rust-core/verisim-graph/src/lib.rs:178-276 | The same for the object index: an insert that has listed a node edge there, and a delete of it that has yet to take that lock |
| SimpleStoreInterleaving.RacingDeleteHidesAnEdge | verisimdb/rust-core/verisim-graph/src/lib.rs:178-276 | A run that ends so |
| SimpleStoreInterleaving.IndexedKeysAreNotLiterals | verisimdb/rust-core/verisim-graph/src/lib.rs:178-276 | With no node object IRI starting with `literal::` no such key enters the object index, deletes or not |
| SimpleStoreInterleaving.OutgoingIsExact | verisimdb/rust-core/verisim-graph/src/lib.rs:208-221 | Without overtaking, `outgoing` is exact whenever no delete of a matching key is under way |
| SimpleStoreInterleaving.IncomingIsExact | verisimdb/rust-core/verisim-graph/src/lib.rs:223-236 | The same for `incoming`, with no node object IRI starting with `literal::` |
| SimpleStoreInterleaving.InsertRunsAreIndexed | verisimdb/rust-core/verisim-graph/src/lib.rs:178-206 | Without deletes nothing is overtaken, and in every interleaving each stored key is in its indexes |
| SimpleStoreInterleaving.ReturnedInsertIsSeen | verisimdb/rust-core/verisim-graph/src/lib.rs:178-221 | An insert that has returned is in every later answer for its subject, in every interleaving with calls that do not delete its key |
| SearchInterleaving.KeysTell | verisimdb/rust-core/verisim-graph/src/lib.rs:178-206 | Without deletes, each stored edge is a node edge or a literal according to its key, which the object IRI condition keeps apart |
| SearchInterleaving.LinksGrow | verisimdb/rust-core/verisim-graph/src/lib.rs:178-206 | Without deletes, what is joined by a node edge stays joined |
| SearchInterleaving.EndsAreLinked | verisimdb/rust-core/verisim-graph/src/lib.rs:284-299 | What the two answers for a node lead to is joined to it at the end of the search |
| SearchInterleaving.LinkedAreEnds | verisimdb/rust-core/verisim-graph/src/lib.rs:284-299 | What is joined to a node when the search starts is among the ends of its answers, whenever these are given |
| SearchInterleaving.VisitedIsWithin | verisimdb/rust-core/verisim-graph/src/lib.rs:278-303 | Whatever the search has visited after h rounds is within h hops at its end |
| SearchInterleaving.WalkIsVisited | verisimdb/rust-core/verisim-graph/src/lib.rs:278-303 | Every walk of at most h edges stored when it starts ends in what it has visited |
| SearchInterleaving.SearchIsBetween | verisimdb/rust-core/verisim-graph/src/lib.rs:278-303 | While other calls insert at every interleaving of locks, a search visits all nodes within its hops at its start and none beyond its hops at its end |
| SearchInterleaving.QuietSearchIsBall | verisimdb/rust-core/verisim-graph/src/lib.rs:278-303 | If the stored graph is the same at its start and its end it visits the ball |
| ConflictResolver.SelectionIsUnique | verisimdb/rust-core/verisim-normalizer/src/conflict.rs:657-683 | The first override in pair order, else the default, is a unique policy |
| ConflictResolver.SelectPolicy | verisimdb/rust-core/verisim-normalizer/src/conflict.rs:657-683 | The nested loops return that policy, with each pair looked up in either order |
| ConflictResolver.PairPolicyFinds | verisimdb/rust-core/verisim-normalizer/src/conflict.rs:664-673 | A pair is looked up as given, then the other way round; a reversed entry serves both orders |
| ConflictResolver.Rank | verisimdb/rust-core/verisim-normalizer/src/conflict.rs:702-702 | The first position in a priority order |
| ConflictResolver.ChoiceIsUnique | verisimdb/rust-core/verisim-normalizer/src/conflict.rs:690-741 | Each policy allows one winner only |
| ConflictResolver.LastIsChosen | verisimdb/rust-core/verisim-normalizer/src/conflict.rs:692-696 | LastWriterWins chooses the last modality of the conflict |
| ConflictResolver.FirstInOrderIsChosen | verisimdb/rust-core/verisim-normalizer/src/conflict.rs:697-711 | A priority order chooses its first member that is in the conflict |
| ConflictResolver.FirstIsChosenWithoutOrder | verisimdb/rust-core/verisim-normalizer/src/conflict.rs:712-715 | With no member in it, it chooses the first modality of the conflict |
| ConflictResolver.ApplyPolicy | verisimdb/rust-core/verisim-normalizer/src/conflict.rs:690-741 | The winner is the last modality, the conflicting modality of least rank (the first one if none is ranked), or none, as the policy says |
| ConflictResolver.Find | verisimdb/rust-core/verisim-normalizer/src/conflict.rs:401-404 | The first active conflict with the id, or proof that there is none |
| ConflictResolver.WithoutCutsOne | verisimdb/rust-core/verisim-normalizer/src/conflict.rs:749-752 | The conflict with the id is cut out and all others keep their order |
| ConflictResolver.Reversed | verisimdb/rust-core/verisim-normalizer/src/conflict.rs:610-624 | Entry i is entry n - 1 - i of the original |
| ConflictResolver.ManualIsRecorded | verisimdb/rust-core/verisim-normalizer/src/conflict.rs:493-537 | A manual resolution succeeds exactly for an open conflict and one of its modalities; then the conflict is Resolved by ManualResolve with exactly the winner, resolver and notes given, and its other fields as before |
| ConflictResolver.DismissalIsRecorded | verisimdb/rust-core/verisim-normalizer/src/conflict.rs:557-588 | A dismissal succeeds exactly for an open conflict; then it is Dismissed without a winner, with the reason in its notes |
| ConflictResolver.ResolutionIsRecorded | verisimdb/rust-core/verisim-normalizer/src/conflict.rs:394-464 | A `resolve` succeeds exactly for an open conflict that is not escalated; then the policy recorded is the one requested, or else the one selected, and the winner is what that policy chooses. An escalated conflict is left in progress |
| ConflictResolver.UnknownIsRefused | verisimdb/rust-core/verisim-normalizer/src/conflict.rs:401-404 | An id that is not active is NotFound for all three calls, and nothing changes |
| ConflictResolver.Resolver.DetectConflict | verisimdb/rust-core/verisim-normalizer/src/conflict.rs:342-370 | Appends one open conflict and nothing else |
| ConflictResolver.Resolver.MarkResolved | verisimdb/rust-core/verisim-normalizer/src/conflict.rs:394-464 | The locked part of `resolve`: every error case, the escalation to in-progress, and the closing |
| ConflictResolver.Resolver.MarkManual | verisimdb/rust-core/verisim-normalizer/src/conflict.rs:493-537 | The locked part of `resolve_manual` with its three guards |
| ConflictResolver.Resolver.MarkDismissed | verisimdb/rust-core/verisim-normalizer/src/conflict.rs:557-588 | The locked part of `dismiss` |
| ConflictResolver.Resolver.Resolve | verisimdb/rust-core/verisim-normalizer/src/conflict.rs:394-472 | Run alone: the locked part, then on success the conflict leaves the active list and enters the trimmed history; a requested policy that is not refused is the one recorded there |
| ConflictResolver.Resolver.ResolveManual | verisimdb/rust-core/verisim-normalizer/src/conflict.rs:493-545 | The same for a manual resolution: answer and history entry hold the winner, resolver and notes given |
| ConflictResolver.Resolver.Dismiss | verisimdb/rust-core/verisim-normalizer/src/conflict.rs:557-596 | The same for a dismissal: answer and history entry hold the reason given |
| ConflictResolver.Resolver.MoveToHistory | verisimdb/rust-core/verisim-normalizer/src/conflict.rs:747-766 | Removal by id and an append trimmed to the newest entries |
| ConflictResolver.Resolver.History | verisimdb/rust-core/verisim-normalizer/src/conflict.rs:610-624 | Newest first, limited unless the limit is 0 |
| ConflictInterleaving.RegionShape | verisimdb/rust-core/verisim-normalizer/src/conflict.rs:394-588 | A locked part changes at most one open conflict, closes it exactly on success, and then with a justified resolution |
| ConflictInterleaving.LogIdsAreElsewhere | verisimdb/rust-core/verisim-normalizer/src/conflict.rs:747-766 | A completed conflict is neither active nor carried by any call |
| ConflictInterleaving.NobodyMovesOpen | verisimdb/rust-core/verisim-normalizer/src/conflict.rs:407-412 | An open conflict has no call moving it and nothing was accepted for it |
| ConflictInterleaving.BeginOkKeeps | verisimdb/rust-core/verisim-normalizer/src/conflict.rs:394-468 | Closing a conflict keeps the invariant in every interleaving |
| ConflictInterleaving.RemoveKeeps | verisimdb/rust-core/verisim-normalizer/src/conflict.rs:749-752 | Removing it from the active list keeps the invariant |
| ConflictInterleaving.PushKeeps | verisimdb/rust-core/verisim-normalizer/src/conflict.rs:755-765 | Appending it to the history keeps the invariant |
| ConflictInterleaving.LastNAppends | verisimdb/rust-core/verisim-normalizer/src/conflict.rs:757-764 | Trimming after every append keeps the same entries as trimming once at the end |
| ConflictInterleaving.RunsKeepInv | verisimdb/rust-core/verisim-normalizer/src/conflict.rs:394-766 | The invariant holds in every state of every interleaving |
| ConflictInterleaving.EachConflictIsInOnePlace | verisimdb/rust-core/verisim-normalizer/src/conflict.rs:394-766 | Each detected conflict is in exactly one place: live, marked, in flight, in the history, or evicted |
| ConflictInterleaving.PlacesHoldConflictsOnce | verisimdb/rust-core/verisim-normalizer/src/conflict.rs:394-766 | Nothing is in two entries of a list nor carried by two calls |
| ConflictInterleaving.AtMostOneSuccess | verisimdb/rust-core/verisim-normalizer/src/conflict.rs:394-596 | At most one resolution or dismissal ever succeeds for a conflict |
| ConflictInterleaving.AcceptedGrows | verisimdb/rust-core/verisim-normalizer/src/conflict.rs:394-596 | What was accepted stays accepted |
| ConflictInterleaving.HistoryIsLogSuffix | verisimdb/rust-core/verisim-normalizer/src/conflict.rs:610-624 | The history is the last entries of the log of completed conflicts, and `history(limit)` its reversed suffix |
| ConflictInterleaving.HistoryIsJustified | verisimdb/rust-core/verisim-normalizer/src/conflict.rs:412-470 | A resolved entry not decided by hand had drift below `require_manual_above`, and its winner is the one its policy chooses |
| ConflictInterleaving.EntriesComeFromCalls | verisimdb/rust-core/verisim-normalizer/src/conflict.rs:394-766 | Every completed or carried conflict was accepted for some earlier call of the run |
| ConflictInterleaving.RegionRecords | verisimdb/rust-core/verisim-normalizer/src/conflict.rs:394-588 | What a call leaves behind records its own arguments |
| ConflictInterleaving.HistoryHoldsCalls | verisimdb/rust-core/verisim-normalizer/src/conflict.rs:394-766 | In every interleaving each history entry is the result of one earlier accepted call and records its arguments: the policy requested, the winner, resolver and notes, or the reason |
| RateLimiter.RateLimiter.Check | verisimdb/rust-core/verisim-api/src/auth.rs:170-188 | Accepts everything when there is no limit, else exactly below the limit, and stores the pruned window, with the new time if accepted |
| RateLimiter.RateLimiter.Remaining | verisimdb/rust-core/verisim-api/src/auth.rs:191-202 | Answers the quota left, the largest u32 when there is no limit, and stores the pruned window |
| RateLimiter.NoLimitAcceptsAll | verisimdb/rust-core/verisim-api/src/auth.rs:170-173 | With a limit of zero every check of every client is accepted, over every run |
| RateLimiter.FirstCheckIsAccepted | verisimdb/rust-core/verisim-api/src/auth.rs:170-188 | A client without a window is accepted, and a check under a limit leaves the recent times and, if accepted, its own |
| RateLimiter.WindowIsOneMinute | verisimdb/rust-core/verisim-api/src/auth.rs:160-188 | A request counts until exactly 60 seconds after it |
| RateLimiter.RecentTwice | verisimdb/rust-core/verisim-api/src/auth.rs:180-180 | A pruning loses nothing a later one would keep if it keeps all that is fresh later |
| RateLimiter.WindowsHoldRecentAccepted | verisimdb/rust-core/verisim-api/src/auth.rs:170-202 | A stored window has lost no accepted request that counts now, if no reading prunes an earlier one that is fresh now |
| RateLimiter.WindowsHoldIff | verisimdb/rust-core/verisim-api/src/auth.rs:170-202 | For the readings of a client this holds whatever its calls and its limit if and only if no reading prunes an earlier one that is fresh now |
| RateLimiter.RefusedExactlyAtTheLimit | verisimdb/rust-core/verisim-api/src/auth.rs:170-188 | Then a request is refused exactly when the limit of accepted requests lies in the trailing window |
| RateLimiter.RemainingIsTheRest | verisimdb/rust-core/verisim-api/src/auth.rs:191-202 | And what `remaining` answers and the requests accepted in the trailing window add up to the limit, over every run |
| RateLimiter.WindowsStayUnderLimit | verisimdb/rust-core/verisim-api/src/auth.rs:182-187 | No stored window exceeds the limit |
| RateLimiter.WithinIsRecent | verisimdb/rust-core/verisim-api/src/auth.rs:180-180 | Times in an interval of one window length are recent at each of its moments |
| RateLimiter.NoWindowOverTheLimit | verisimdb/rust-core/verisim-api/src/auth.rs:170-188 | No half-open interval of one window length holds more accepted requests of a client than the limit, unless of two readings that fit in one window the first is pruned by a call between them |
| RateLimiter.LimitHoldsIff | verisimdb/rust-core/verisim-api/src/auth.rs:175-188 | For the clock readings of a client, in lock order, the limit holds whatever its calls, its limit and the interval if and only if no such three readings exist |
| RateLimiter.OvertakenBreaksTheLimit | verisimdb/rust-core/verisim-api/src/auth.rs:175-188 | With such readings a limit of one is exceeded |
| RateLimiter.AscendingIsSafe | verisimdb/rust-core/verisim-api/src/auth.rs:175-176 | Ascending readings are never overtaken and forget nothing that counts |
| RateLimiter.LateClockReadBreaksTheLimit | verisimdb/rust-core/verisim-api/src/auth.rs:160-188 | Readings of a client at which a limit of one request a minute accepts two within a minute |
| RateLimiter.ClientsAreIndependent | verisimdb/rust-core/verisim-api/src/auth.rs:177-177 | What a client is granted does not depend on the calls of the others |
| Base64Url.SymbolIsCharset | verisimdb/rust-core/verisim-api/src/auth.rs:517-517 | The alphabet of the model is the 64-character table, in order |
| Base64Url.SymbolHasItsValue | verisimdb/rust-core/verisim-api/src/auth.rs:517-528 | Each symbol has its own position, and lookup and table are inverse |
| Base64Url.Base64UrlEncode | verisimdb/rust-core/verisim-api/src/auth.rs:752-777 | The loop computes the encoding of the whole text |
| Base64Url.Base64Decode | verisimdb/rust-core/verisim-api/src/auth.rs:516-553 | The loop computes the decoding of the whole text, or the first error |
| Base64Url.Base64UrlDecode | verisimdb/rust-core/verisim-api/src/auth.rs:499-513 | Padding by length, character replacement and decoding, with the length error |
| Base64Url.GroupRoundTrip | verisimdb/rust-core/verisim-api/src/auth.rs:537-550 | Decoding inverts encoding on groups of one, two and three bytes, with bits shifted out of a byte lost |
| Base64Url.SymbolsWriteBytes | verisimdb/rust-core/verisim-api/src/auth.rs:752-774 | Three bytes and their four symbols write the same 24 bits, first byte first (section 4 of RFC 4648) |
| Base64Url.PaddingDropsBytes | verisimdb/rust-core/verisim-api/src/auth.rs:530-550 | Padding anywhere in a group is read as the letter A; in the third place it drops the second byte, in the fourth the third byte |
| Base64Url.EncodedRoundTrip | verisimdb/rust-core/verisim-api/src/auth.rs:516-553 | The standard-alphabet encoding, padded, decodes to the bytes |
| Base64Url.UrlRoundTrip | verisimdb/rust-core/verisim-api/src/auth.rs:499-553 | `base64url_decode(base64url_encode(b))` is `b` for every byte string |
| Base64Url.AcceptsIff | verisimdb/rust-core/verisim-api/src/auth.rs:499-552 | A text is accepted if and only if its length is not 1 modulo 4 and each byte is in one of the alphabets or the padding sign; the length error is given exactly for a length of 1 modulo 4, and the character error otherwise |
| Base64Url.CanonicalTextsAreEncodings | verisimdb/rust-core/verisim-api/src/auth.rs:516-553 | A text with zero spare bits is what its decoding encodes to |
| Base64Url.EncodingsAreCanonical | verisimdb/rust-core/verisim-api/src/auth.rs:752-774 | Every encoding uses only the alphabet and leaves spare bits zero |
| Base64Url.ReencodesIffCanonical | verisimdb/rust-core/verisim-api/src/auth.rs:499-553 | A text is given back by decoding and encoding if and only if it is canonical: the decoder is lenient about padding, + and /, and spare bits |
| Base64Url.SpareBitIsLost | verisimdb/rust-core/verisim-api/src/auth.rs:499-553 | A text that decodes and is not given back |
| Base64Url.UrlCharacters | verisimdb/rust-core/verisim-api/src/auth.rs:775-776 | Encodings never hold + or /, and - and _ decode as 62 and 63 (section 5 of RFC 4648) |
| Base64Url.PaddedStandardIsRead | verisimdb/rust-core/verisim-api/src/auth.rs:499-553 | Standard base64 with its padding is read too |
| VectorMath.GapExpands | verisimdb/rust-core/verisim-drift/src/calculator.rs:504-518 | The squared length of x a - y b in terms of three dot products |
| VectorMath.CauchySchwarz | verisimdb/rust-core/verisim-drift/src/calculator.rs:504-518 | A dot product is between minus and plus the product of the norms, for every length |
| VectorMath.CosineInRange | verisimdb/rust-core/verisim-drift/src/calculator.rs:504-518 | The cosine similarity of any two vectors is between -1 and 1 |
| VectorMath.CosineValue | verisimdb/rust-core/verisim-drift/src/calculator.rs:504-518 | The similarity times the norms is the dot product; it is 0 for different lengths, for empty vectors and for a zero norm |
| VectorMath.ZeroGapIsParallel | verisimdb/rust-core/verisim-drift/src/calculator.rs:504-518 | A zero gap means the vectors are proportional in every component |
| VectorMath.CosineIsOneIff | verisimdb/rust-core/verisim-drift/src/calculator.rs:504-518 | The similarity is 1 if and only if one vector is a positive multiple of the other, non-zero one |
| DriftCalculator.SemanticVectorDrift | verisimdb/rust-core/verisim-drift/src/calculator.rs:34-66 | The loop computes one minus the average similarity over the relevant embeddings, in [0, 1], and the lower clamp never acts |
| DriftCalculator.TotalInRange | verisimdb/rust-core/verisim-drift/src/calculator.rs:49-60 | A sum of n similarities is between -n and n, and is n if and only if every embedding is a positive multiple |
| DriftCalculator.AverageInRange | verisimdb/rust-core/verisim-drift/src/calculator.rs:60-65 | The average similarity is between -1 and 1 |
| DriftCalculator.NoDriftIff | verisimdb/rust-core/verisim-drift/src/calculator.rs:34-66 | The drift is 0 if and only if every matching type embedding is a positive multiple of a non-zero embedding |
| DriftCalculator.RelevantCounts | verisimdb/rust-core/verisim-drift/src/calculator.rs:45-49 | Each embedding of one of the types is taken as often as it is stored, and no other |
| DriftCalculator.OneTypeDrift | verisimdb/rust-core/verisim-drift/src/calculator.rs:56-65 | Against one type embedding, one minus the drift times the norms is the dot product, or the drift is 1 if that is negative |
| DriftCalculator.OppositeVectorsNeedTheClamp | verisimdb/rust-core/verisim-drift/src/calculator.rs:65-65 | The upper clamp is needed: opposite vectors would score 2 |
| TextEmbedding.HashWindow | verisimdb/rust-core/verisim-normalizer/src/storage_regenerator.rs:85-92 | The hash loop computes FNV-1a with wrapping multiplication |
| TextEmbedding.FnvVectors | verisimdb/rust-core/verisim-normalizer/src/storage_regenerator.rs:85-92 | The published FNV-1a hashes of the empty text, of a and of foobar |
| TextEmbedding.TextToEmbedding | verisimdb/rust-core/verisim-normalizer/src/storage_regenerator.rs:76-105 | The array filled and scaled in place is the scaled vector of window counts |
| TextEmbedding.DivideInPlace | verisimdb/rust-core/verisim-normalizer/src/storage_regenerator.rs:97-103 | Every component is divided by the norm, once |
| TextEmbedding.CountsSumToWindows | verisimdb/rust-core/verisim-normalizer/src/storage_regenerator.rs:82-94 | The raw counts are non-negative and sum to max(1, len - 2) |
| TextEmbedding.BucketIff | verisimdb/rust-core/verisim-normalizer/src/storage_regenerator.rs:86-94 | A window of at most three bytes is counted in the component that its hash leaves when divided by the number of components |
| TextEmbedding.BucketsCountWindows | verisimdb/rust-core/verisim-normalizer/src/storage_regenerator.rs:82-94 | Each component is the number of windows of three bytes whose hash leaves it |
| TextEmbedding.NonEmptyTextHasPositiveNorm | verisimdb/rust-core/verisim-normalizer/src/storage_regenerator.rs:97-99 | A non-empty text never has a zero norm |
| TextEmbedding.EmbeddingIsUnit | verisimdb/rust-core/verisim-normalizer/src/storage_regenerator.rs:76-105 | The embedding of a non-empty text has unit length |
| TextEmbedding.EmbeddingMatchesItself | verisimdb/rust-core/verisim-normalizer/src/storage_regenerator.rs:142-153 | Its similarity with itself is 1 |
| Keywords.CountWords | verisimdb/rust-core/verisim-normalizer/src/storage_regenerator.rs:111-121 | The map holds exactly the words longer than three bytes, each with its number of occurrences |
| Keywords.OccurrencesAreCounted | verisimdb/rust-core/verisim-normalizer/src/storage_regenerator.rs:111-121 | The number of occurrences of a word is its number in the list |
| Keywords.ExtractKeywords | verisimdb/rust-core/verisim-normalizer/src/storage_regenerator.rs:111-126 | At most `max` distinct words longer than three bytes, most frequent first, and no omitted word more frequent than a returned one |
| Keywords.RepeatableIff | verisimdb/rust-core/verisim-normalizer/src/storage_regenerator.rs:122-126 | Every order the hash map may yield gives the same words if and only if there is no tie at the cut, a condition on the words and their number alone |
| Keywords.CutSplitsTieIff | verisimdb/rust-core/verisim-normalizer/src/storage_regenerator.rs:122-126 | A cut separates two equally frequent words, whichever were taken, if and only if there is a tie at the cut |
| Keywords.TieGivesAnother | verisimdb/rust-core/verisim-normalizer/src/storage_regenerator.rs:122-126 | When it does, another extraction with different words exists |
| Keywords.NoTieGivesSame | verisimdb/rust-core/verisim-normalizer/src/storage_regenerator.rs:122-126 | When it does not, any two extractions have the same words |
| Keywords.NoSemanticDriftIff | verisimdb/rust-core/verisim-normalizer/src/storage_regenerator.rs:520-537 | The Jaccard drift is 0 if and only if the two type sets are equal |
| Keywords.SemanticDriftValue | verisimdb/rust-core/verisim-normalizer/src/storage_regenerator.rs:520-537 | The drift is the share of the union that is outside the intersection |
| Keywords.SameTypesIff | verisimdb/rust-core/verisim-normalizer/src/storage_regenerator.rs:129-139 | Prefixed types are equal sets if and only if the words are |
| Keywords.TypesAreKeywords | verisimdb/rust-core/verisim-normalizer/src/storage_regenerator.rs:129-139 | The types are the keywords after `keyword:`, and nothing else |
| StorageRegenerator.MeasureSemanticDrift | verisimdb/rust-core/verisim-normalizer/src/storage_regenerator.rs:513-541 | 0.5 if a side is missing, else the Jaccard drift against some extraction |
| StorageRegenerator.MeasuringStopsIff | verisimdb/rust-core/verisim-normalizer/src/storage_regenerator.rs:499-512 | Measuring vector drift stops the program if and only if there is a document and a stored embedding of length zero |
| StorageRegenerator.Regenerator.WriteBack | verisimdb/rust-core/verisim-normalizer/src/storage_regenerator.rs:156-167 | Overwrites exactly the supplied modalities of a stored octad, or fails and changes nothing: for an unknown octad, and for an embedding whose length is not the configured dimension |
| StorageRegenerator.Regenerator.RegenerateVector | verisimdb/rust-core/verisim-normalizer/src/storage_regenerator.rs:184-203 | With a configured dimension of 384 it changes only the embedding, and vector drift measured afterwards is 0; with any other dimension, or a missing document or octad, it fails and changes nothing |
| StorageRegenerator.Regenerator.RegenerateSemantic | verisimdb/rust-core/verisim-normalizer/src/storage_regenerator.rs:204-222 | Changes only the types: the prefixed ten most frequent words |
| StorageRegenerator.Regenerator.RegenerateGraph | verisimdb/rust-core/verisim-normalizer/src/storage_regenerator.rs:223-242 | Changes only the relationships: one mention for each of the five most frequent words |
| StorageRegenerator.RegeneratedVectorHasNoDrift | verisimdb/rust-core/verisim-normalizer/src/storage_regenerator.rs:186-203 | An octad storing the embedding of its own document has vector drift 0, for every document, the empty one included |
| StorageRegenerator.DriftTellsIff | verisimdb/rust-core/verisim-normalizer/src/storage_regenerator.rs:499-507 | For any document and stored vector the drift is 0 if and only if the vector is a positive multiple of the embedding of title, space and body in that many components; one minus the drift times the norms is their dot product, and the drift is 1 if a norm is 0 |
| StorageRegenerator.MissingIsHalf | verisimdb/rust-core/verisim-normalizer/src/storage_regenerator.rs:508-512 | Without a document or an embedding the drift is 0.5 |
| StorageRegenerator.RegeneratedSemanticHasNoDriftIff | verisimdb/rust-core/verisim-normalizer/src/storage_regenerator.rs:204-222 | The semantic drift after regeneration is 0 in every hash order if and only if there is no tie at the cut: no word with fewer than ten words above its frequency and more than ten at or above it |
| StorageRegenerator.RegeneratedSemanticMayDrift | verisimdb/rust-core/verisim-normalizer/src/storage_regenerator.rs:204-222 | Under any rules that treat ASCII as usual, a document of the eleven words aaaa to kkkk for which it need not be 0 |
| StorageRegenerator.PunctuatedCapitalIsBareWord | verisimdb/rust-core/verisim-normalizer/src/storage_regenerator.rs:114-119 | A word with a capital and a punctuation mark counts as the bare word in lower case |
| StorageRegenerator.MentionsAreKeywords | verisimdb/rust-core/verisim-normalizer/src/storage_regenerator.rs:223-242 | Relationships mention the keywords, in their order |
| VclTokenizer.Tokenize | verisimdb/rust-core/verisim-api/src/vcl.rs:214-245 | The loop with its two quote flags computes the token list |
| VclTokenizer.TokensKeepText | verisimdb/rust-core/verisim-api/src/vcl.rs:214-245 | The tokens put together are the text with exactly its out-of-quote spaces, tabs and newlines removed |
| VclTokenizer.JoinedTokensRead | verisimdb/rust-core/verisim-api/src/vcl.rs:214-245 | A well tokenized list is read back from its join |
| VclTokenizer.TokenizeIsStable | verisimdb/rust-core/verisim-api/src/vcl.rs:214-245 | Tokenizing the joined tokens of any text gives the tokens again, unbalanced quotes included |
| VclTokenizer.TokenListsIff | verisimdb/rust-core/verisim-api/src/vcl.rs:214-245 | A list of texts is the token list of some text if and only if it is well tokenized |
| VclTokenizer.SeparatorsSeparate | verisimdb/rust-core/verisim-api/src/vcl.rs:230-234 | A space, a tab and a newline each end a plain word and are otherwise skipped; no other character outside quotes does |
| VclTokenizer.UnquoteFailsIff | verisimdb/rust-core/verisim-api/src/vcl.rs:248-254 | Unquoting slices out of range exactly on a lone quote character |
| VclTokenizer.LoneQuoteIsReached | verisimdb/rust-core/verisim-api/src/vcl.rs:339-353 | A DELETE statement that ends in a lone quote reaches that slice |
| VclTokenizer.FirstIdIsFound | verisimdb/rust-core/verisim-api/src/vcl.rs:339-353 | The search gives the value at the first WHERE id = with a value after it, and nothing if and only if there is none |
| VclTokenizer.CaseDoesNotMatter | verisimdb/rust-core/verisim-api/src/vcl.rs:339-353 | WHERE and id are found in any letter case, after any tokens that are no WHERE |
| VclTokenizer.DeleteStatementFindsId | verisimdb/rust-core/verisim-api/src/vcl.rs:339-353 | `DELETE FROM octads WHERE id = '<id>'` gives back every id without that quote, white space and other quotes included |
| VclTokenizer.DeleteStatementFindsIff | verisimdb/rust-core/verisim-api/src/vcl.rs:339-353 | The statement gives back a quoted id if and only if no space, tab or newline in it is outside quotes, whatever quotes it holds |
| TransactionManager.Manager.Begin | verisimdb/rust-core/verisim-api/src/transaction.rs:196-220 | Refuses exactly at the limit of active transactions, else adds an active one |
| TransactionManager.Manager.BufferOperation | verisimdb/rust-core/verisim-api/src/transaction.rs:223-245 | Appends to an active transaction, else the error of its state |
| TransactionManager.Manager.Commit | verisimdb/rust-core/verisim-api/src/transaction.rs:251-275 | Answers the operations of an active transaction and closes it, else the error of its state |
| TransactionManager.Manager.Rollback | verisimdb/rust-core/verisim-api/src/transaction.rs:278-303 | Discards and counts the operations of an active transaction, else the error of its state |
| TransactionManager.Manager.CleanupExpired | verisimdb/rust-core/verisim-api/src/transaction.rs:318-351 | Removes exactly the expired transactions, and answers how many |
| TransactionManager.ActiveStaysUnderLimit | verisimdb/rust-core/verisim-api/src/transaction.rs:196-212 | In every run the active transactions never exceed the limit |
| TransactionManager.CleanupForgetsIff | verisimdb/rust-core/verisim-api/src/transaction.rs:318-351 | After cleanup calls on a stored transaction find it unknown if and only if it had expired, while a rollback would be reported as one |
| TransactionManager.CleanupRemovesIff | verisimdb/rust-core/verisim-api/src/transaction.rs:318-351 | Cleanup removes an active transaction begun longer ago than the timeout, an ended one ended longer ago, and no other |
| TransactionManager.SurvivorCommits | verisimdb/rust-core/verisim-api/src/transaction.rs:251-351 | An active transaction within the timeout survives cleanup and can still be committed |
| TransactionManager.ExpiryIsNoRollback | verisimdb/rust-core/verisim-api/src/transaction.rs:318-351 | A run in which the two answers differ for an active transaction |
| TransactionManager.HoldsBufferedOps | verisimdb/rust-core/verisim-api/src/transaction.rs:223-245 | A transaction not rolled back holds exactly its successfully buffered operations, in order |
| TransactionManager.CommitReturnsBuffered | verisimdb/rust-core/verisim-api/src/transaction.rs:251-275 | A successful commit answers exactly those |
| TransactionManager.BeginAndCommitRecord | verisimdb/rust-core/verisim-api/src/transaction.rs:196-275 | A begun transaction is active, empty and dated; a committed one answers AlreadyCommitted; an ended one without a date is never cleaned up |
| TransactionManager.BufferAppends | verisimdb/rust-core/verisim-api/src/transaction.rs:223-245 | Buffering adds the operation at the end and changes nothing else |
| TransactionManager.RollbackLeavesNothing | verisimdb/rust-core/verisim-api/src/transaction.rs:278-303 | A rolled back transaction holds no operations and is dated |
| TransactionManager.UnknownBeforeBegin | verisimdb/rust-core/verisim-api/src/transaction.rs:223-275 | An id that was not begun is not stored |
| TransactionManager.EndedStaysEnded | verisimdb/rust-core/verisim-api/src/transaction.rs:251-351 | Once ended or removed, a transaction is never active again |
| TransactionManager.NoCommitAfterEnd | verisimdb/rust-core/verisim-api/src/transaction.rs:251-351 | After a commit, a rollback or a removal by cleanup no commit of that transaction succeeds |
| TransactionManager.EndedIsFrozen | verisimdb/rust-core/verisim-api/src/transaction.rs:251-303 | A committed or rolled back transaction keeps its whole record until it is removed |
| Groove.Server.Connect | verisimdb/rust-core/verisim-api/src/groove.rs:256-323 | Rejects exactly a peer that asks for something and for nothing offered; else stores a connected session with the matching capabilities |
| Groove.Server.Disconnect | verisimdb/rust-core/verisim-api/src/groove.rs:328-351 | Removes the session, and says whether it was there |
| Groove.Server.Heartbeat | verisimdb/rust-core/verisim-api/src/groove.rs:356-378 | Refreshes the session and makes a connected or degraded one active |
| Groove.Server.Status | verisimdb/rust-core/verisim-api/src/groove.rs:385-420 | Late sessions are degraded, late and degraded ones removed, the others unchanged |
| Groove.LateIff | verisimdb/rust-core/verisim-api/src/groove.rs:389-394 | A session is late from 15.001 seconds after its last sign of life |
| Groove.CompatibleIff | verisimdb/rust-core/verisim-api/src/groove.rs:256-275 | A peer is accepted if and only if it asks for nothing or for one of the six capabilities |
| Groove.OfferedAre | verisimdb/rust-core/verisim-api/src/groove.rs:262-268 | The capabilities matched are those asked for that are offered, each as often as asked for |
| Groove.SessionRecords | verisimdb/rust-core/verisim-api/src/groove.rs:256-378 | A session records its peer, its start and its capabilities for good, and its last sign of life by both clocks |
| Groove.StateTellsLatePolls | verisimdb/rust-core/verisim-api/src/groove.rs:385-420 | A live session is degraded if and only if a poll came too late after its last sign of life, else connected or active by what that sign was |
| Groove.LivesIff | verisimdb/rust-core/verisim-api/src/groove.rs:328-420 | A session is live if and only if it has not disconnected and no two late polls followed one sign of life without a heartbeat before the second |
| Groove.OnlyThreeStates | verisimdb/rust-core/verisim-api/src/groove.rs:288-420 | A live session is connected, active or degraded |
| Groove.SilentIsGoneAfterTwoPolls | verisimdb/rust-core/verisim-api/src/groove.rs:385-420 | With a clock that does not go back, a poll after a late poll with no heartbeat between leaves the session gone for good |
| Groove.RemovedWithoutAnotherTimeout | verisimdb/rust-core/verisim-api/src/groove.rs:385-420 | A session may be degraded and removed at the same instant by two polls, without another timeout in between |
| Groove.PunctualStays | verisimdb/rust-core/verisim-api/src/groove.rs:356-420 | A session whose every poll is within the timeout after some sign of life stays until it disconnects |
| NormalizerCounters.Normalizer.Find | verisimdb/rust-core/verisim-normalizer/src/lib.rs:222-226 | The first registered strategy that applies, or none applies |
| NormalizerCounters.Normalizer.HandleDrift | verisimdb/rust-core/verisim-normalizer/src/lib.rs:212-269 | Skips and changes nothing exactly below the minimum score or without a strategy; else counts one completion or failure, and a failed send does not change that |
| NormalizerCounters.FindsOnce | verisimdb/rust-core/verisim-normalizer/src/lib.rs:222-226 | That strategy is unique |
| NormalizerCounters.EarlierStrategyWins | verisimdb/rust-core/verisim-normalizer/src/lib.rs:207-226 | A strategy registered later is found only where no earlier one applies |
| NormalizerCounters.SkippedIff | verisimdb/rust-core/verisim-normalizer/src/lib.rs:216-229 | A call is skipped exactly when its score is below the threshold or no registered strategy applies |
| NormalizerCounters.AnswersTell | verisimdb/rust-core/verisim-normalizer/src/lib.rs:240-269 | A failed strategy and a result that a channel does not take are reported as such |
| NormalizerCounters.StepKeepsCounts | verisimdb/rust-core/verisim-normalizer/src/lib.rs:231-257 | Every step of every call keeps each counter equal to the number of calls in its phase |
| NormalizerCounters.RunsCount | verisimdb/rust-core/verisim-normalizer/src/lib.rs:212-269 | So it is in every state of every interleaving |
| NormalizerCounters.StartedIsActivePlusEnded | verisimdb/rust-core/verisim-normalizer/src/lib.rs:231-257 | The calls started are always the sum of the three counters |
| NormalizerCounters.DecrementIsSafe | verisimdb/rust-core/verisim-normalizer/src/lib.rs:243-245 | The active counter is positive whenever a call takes it down |
| NormalizerCounters.QuietCounters | verisimdb/rust-core/verisim-normalizer/src/lib.rs:212-269 | With no call under way nothing is active, and the other two counters are exactly the calls answered with a result, sent or not, and with a failure |
| NormalizerCounters.OnlyRegionsCount | verisimdb/rust-core/verisim-normalizer/src/lib.rs:216-229 | Only the two lock regions change the status; the second one moves a call to the completed or the failed ones, and only a completion sets the time |
| NormalizerCounters.StrategyStaysCurrent | verisimdb/rust-core/verisim-normalizer/src/lib.rs:221-238 | As a call holds the list lock, the strategy it runs stays the first applicable one until it returns |
| FallbackParser.Cursor.ParseSelection | verisimdb/vcl-bridge/vcl_parser_port.js:75-126 | The selection loop, with its aggregate, projection and bare cases, takes and adds what the clause specification says |
| FallbackParser.Cursor.ParseSource | verisimdb/vcl-bridge/vcl_parser_port.js:128-148 | HEXAD, FEDERATION with an optional drift policy, STORE, or the two errors |
| FallbackParser.Cursor.TakeUntil | verisimdb/vcl-bridge/vcl_parser_port.js:155-157 | Takes exactly the tokens before the first stop word |
| FallbackParser.Cursor.ParseGroup | verisimdb/vcl-bridge/vcl_parser_port.js:161-177 | Field references up to a stop word, tokens without a dot dropped |
| FallbackParser.Cursor.ParseProof | verisimdb/vcl-bridge/vcl_parser_port.js:190-207 | Pairs of type and contract joined by AND |
| FallbackParser.Cursor.ParseOrder | verisimdb/vcl-bridge/vcl_parser_port.js:209-231 | Field references with an optional direction |
| FallbackParser.Cursor.Parse | verisimdb/vcl-bridge/vcl_parser_port.js:53-260 | The whole cursor parser, which ends on every input, and the tokens it leaves |
| FallbackParser.FallbackParse | verisimdb/vcl-bridge/vcl_parser_port.js:53-260 | The same from the text of a query |
| FallbackParser.Until | verisimdb/vcl-bridge/vcl_parser_port.js:155-187 | The longest prefix without a stop word: none is in it, and one or the end follows |
| FallbackParser.AggregateKeepsCaseIff | verisimdb/vcl-bridge/vcl_parser_port.js:92-99 | An aggregate names its modality as the other clauses do if and only if the first letter as written is its own upper case |
| FallbackPrinter.SelectionReads | verisimdb/vcl-bridge/vcl_parser_port.js:75-126 | Printed modalities, projections and aggregates, each with an optional comma glued to it or standing alone after it, are read up to FROM, and back but for aggregates with a glued comma |
| FallbackPrinter.AggregateReads | verisimdb/vcl-bridge/vcl_parser_port.js:79-103 | `COUNT (*)` and `FUNC (Modality.field)` are read as that aggregate |
| FallbackPrinter.ProjectionReads | verisimdb/vcl-bridge/vcl_parser_port.js:105-118 | `Modality.field` is read as that projection |
| FallbackPrinter.SourceReads | verisimdb/vcl-bridge/vcl_parser_port.js:128-148 | A printed source is read back |
| FallbackPrinter.RawReads | verisimdb/vcl-bridge/vcl_parser_port.js:150-159 | Raw text is read back when a stop word follows it |
| FallbackPrinter.GroupReads | verisimdb/vcl-bridge/vcl_parser_port.js:161-177 | A printed GROUP BY clause is read back, with or without commas |
| FallbackPrinter.ProofSpecsRead | verisimdb/vcl-bridge/vcl_parser_port.js:193-205 | A printed chain of proof specifications is read back |
| FallbackPrinter.OrderItemsRead | verisimdb/vcl-bridge/vcl_parser_port.js:215-230 | A printed list of orderings, with or without commas, is read back, except that a comma glued to DESC makes it ascending |
| FallbackPrinter.NoDirectionIsAscending | verisimdb/vcl-bridge/vcl_parser_port.js:221-223 | An ordering without a direction is ascending |
| FallbackPrinter.AsReadIff | verisimdb/vcl-bridge/vcl_parser_port.js:53-260 | A printed query is read as it was printed if and only if no comma is glued to an aggregate or to DESC |
| FallbackPrinter.NumberReads | verisimdb/vcl-bridge/vcl_parser_port.js:233-245 | A printed LIMIT or OFFSET is read back |
| FallbackRoundTrip.PrintedTokensRead | verisimdb/vcl-bridge/vcl_parser_port.js:53-260 | The tokens of a printed query are consumed to the last one and give the query but for glued commas, whatever the letter case of its keywords, the commas in its lists and the ASC left out |
| FallbackRoundTrip.RoundTripIff | verisimdb/vcl-bridge/vcl_parser_port.js:53-260 | From its text with single spaces a printable query, with any commas in its lists, is parsed back if and only if its WHERE clause is not followed directly by GROUP BY, HAVING or ORDER BY, and no comma is glued to an aggregate or to DESC |
| FallbackRoundTrip.TextIsReadAs | verisimdb/vcl-bridge/vcl_parser_port.js:53-260 | If its WHERE clause ends, it is parsed to the query with each aggregate with a glued comma changed or lost and each ordering with one ascending |
| FallbackRoundTrip.CommasAreReadOrLost | verisimdb/vcl-bridge/vcl_parser_port.js:75-230 | With commas two ascending orderings are read back, two descending ones are read as ascending, and `COUNT (*),` is lost |
| FallbackRoundTrip.GroupedIsNotReadBack | verisimdb/vcl-bridge/vcl_parser_port.js:53-260 | SELECT * FROM HEXAD x WHERE a GROUP BY Graph.name can be printed and is not read back |
| FallbackRoundTrip.WhereSwallows | verisimdb/vcl-bridge/vcl_parser_port.js:155-157 | Otherwise the WHERE clause read is strictly longer than the one printed |
| FallbackRoundTrip.SelectionIsCovered | verisimdb/vcl-bridge/vcl_parser_port.js:97-124 | On every input the modalities listed include those of all projections and aggregates |
| FallbackRoundTrip.GluedAggregateIsLost | verisimdb/vcl-bridge/vcl_parser_port.js:79-82 | An aggregate written without a space, as in `COUNT(*)`, is skipped |
| FallbackRoundTrip.AggregateNamesModality | verisimdb/vcl-bridge/vcl_parser_port.js:92-99 | An aggregate over any field lists the modality with its first letter as written |
| FallbackRoundTrip.ProjectionNamesModality | verisimdb/vcl-bridge/vcl_parser_port.js:106-115 | A projection of any field lists the modality by its title |
| FallbackRoundTrip.LowerCaseAggregate | verisimdb/vcl-bridge/vcl_parser_port.js:92-115 | In lower case `count (graph.x)` lists graph, and `graph.x` lists Graph |
| FallbackRoundTrip.SpacedParensRead | verisimdb/vcl-bridge/vcl_parser_port.js:81-87 | Parentheses as tokens of their own are read like glued ones |
| FallbackRoundTrip.SelectIsExpected | verisimdb/vcl-bridge/vcl_parser_port.js:60-69 | A query that does not start with SELECT is refused, naming what stands there |
| FallbackRoundTrip.SourceFailsIff | verisimdb/vcl-bridge/vcl_parser_port.js:128-148 | A source is refused exactly if it is of no known kind or WITH is not followed by DRIFT |
| FallbackRoundTrip.ByIsExpected | verisimdb/vcl-bridge/vcl_parser_port.js:161-214 | GROUP and ORDER are refused exactly if BY does not follow, naming what stands there |
| FallbackRoundTrip.PolicyIsUpper | verisimdb/vcl-bridge/vcl_parser_port.js:136-141 | A drift policy is read in upper case |
| FallbackRoundTrip.ClausesCapitalize | verisimdb/vcl-bridge/vcl_parser_port.js:166-229 | GROUP BY and ORDER BY capitalize modalities |
| FallbackRoundTrip.StopWords | verisimdb/vcl-bridge/vcl_parser_port.js:155-213 | The words at which each clause stops |
| FallbackRoundTrip.DotlessIsDropped | verisimdb/vcl-bridge/vcl_parser_port.js:168-229 | A token without a dot is no grouping field and no ordering |
| FallbackRoundTrip.OthersAreSkipped | verisimdb/vcl-bridge/vcl_parser_port.js:76-125 | The selection skips every token that names no aggregate, no modality and no field of one |
| FallbackRoundTrip.NameIsAddedOnce | verisimdb/vcl-bridge/vcl_parser_port.js:98-115 | A modality is added at the end, and only if it is not listed |
| FallbackRoundTrip.ProofMayLackContract | verisimdb/vcl-bridge/vcl_parser_port.js:194-198 | A proof type with nothing after it has an empty contract |
| QueryText.WordsOfJoin | verisimdb/vcl-bridge/vcl_parser_port.js:54-54 | Words joined by single spaces are the words of the joined text |
| QueryText.WordsSeparate | verisimdb/vcl-bridge/vcl_parser_port.js:54-54 | Any run of white space separates words |
| QueryText.WithoutIsFilter | verisimdb/vcl-bridge/vcl_parser_port.js:76-76 | Dropping characters keeps exactly the others, in order |
| QueryText.DecimalReads | verisimdb/vcl-bridge/vcl_parser_port.js:237-237 | An integer written in decimal is read back |
| QueryText.NumberEnds | verisimdb/vcl-bridge/vcl_parser_port.js:237-237 | What follows the digits of a number is ignored |
| QueryText.NoDigitNoNumber | verisimdb/vcl-bridge/vcl_parser_port.js:237-237 | A text that does not start with a digit, after an optional sign, is no number |
| QueryText.SplitDotted | verisimdb/vcl-bridge/vcl_parser_port.js:107-107 | A dotted name is split into its two parts |
| QueryText.ThirdPartIsDropped | verisimdb/vcl-bridge/vcl_parser_port.js:107-107 | Of a name with two dots the last part is dropped |

## Left out

- HTTP, GraphQL and gRPC handlers, federation, mesh probing, the feedback store, clients and user interfaces: input and output only.
- The internals of redb, Tantivy, Oxigraph and the spatial index: a redb table is a finite map with byte-ordered keys, and a write transaction is one step.
- The JSON form of stored edges, and its failures: the triple table holds edges themselves.
- `GraphNode::new` and the local names it derives: `neighborhood` is modelled by the IRIs it returns, which determine them.
- Datatypes of literals: they are stored but are not part of any key.
- Floating-point rounding, NaN and infinities: numbers are reals, and a square root is a value whose square is given.
- The Unicode tables for letter case, white space and letters in keyword extraction and in the fallback parser: they are parameters, assumed only to agree with ASCII where a statement needs it.
- The sort in keyword extraction is modelled as taking the most frequent remaining word repeatedly, with ties in any order.
- SHA-256, HMAC, token claims, API keys, UUIDs and session ids: opaque, and generated ids are fresh.
- Texts of errors and log messages: an error is its kind and the value it names.
- Clock formats: instants and timestamps are numbers; milliseconds elapsed are not reduced modulo 2 to the power 64.
- Panics while a lock is held, and the lock poisoning they cause.
- `status` and `by_entity` queries that only copy a record.
- `merge_into` and the regeneration of modalities from anything but a document.
- `OctadStore::update` is a trait in the source; it is taken to fail on unknown octads and on embeddings of the wrong length, and otherwise to overwrite exactly the supplied modalities.
- Calls dropped at an await point: a `resolve` dropped after its mark leaves a closed conflict in the active list, and a `handle_drift` dropped while its strategy runs leaves the active count too high. Calls are modelled to run to their end.
- `fallbackParseMutation`: its INSERT loop does not end on an unclosed parenthesis.
- `parse_insert_values`, `parse_limit` and the execution of statements.
- Rounding of LIMIT and OFFSET values above 2 to the power 53 in the fallback parser, and the position number in its error messages.
- The automatic-resolution threshold of the conflict configuration, which is documented and never read, and the normalizer's `max_concurrent`, likewise.
- Access control, planner settings, quality scores and the printing of reports: they would add only simple members.
- FallbackRoundTrip.RoundTripIff: is stated for modalities and functions known by name, and for names without white space, commas, dots and parentheses; a query with an unreadable LIMIT cannot be printed.
- Keywords.ExtractKeywords: states which words may be returned, not which of several tied ones, because the hash map's order decides.
- StorageRegenerator.Regenerator.RegenerateVector: states zero drift when the octad given is the one stored, because measuring reads the stored document.
