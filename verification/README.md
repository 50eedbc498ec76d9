# OrchidDB verification model

A Dafny 4.11 model of the parts of OrchidDB whose guarantees hold over whole runs or for every
input, with machine-checked proofs. `dafny verify dfyconfig.toml` checks everything.

OrchidDB compiles graph queries to relational plans, splits them across engines and keeps
transactional graph stores. The model covers:

- **Federation.** `Plans`, `ExchangeNames`, `Routing`, `RouterState` and `TransferOrder`: the router
  that cuts a plan into single-owner islands and routes the inputs of dependent operations.
  `RouteCuts` and `RouteSuccess`: which subtrees it cuts, and exactly when it succeeds.
  `RouteExecution`, `FreeWorld` and `RouteExactness`: what happens when the transfers are run, and
  the exact condition for the result to be the relation of the plan. `RouteSafety`, `RouteChecks`
  and `RoutingFailures`: what can be checked before the call, exactly, and plans that break it.
  `Binding` and `SharedInputs`: the head-first bind loop of the clients and the binding of several
  inputs with identical inputs shared. `Scheduler`, `ScheduleLog` and `Streams`: the streaming
  executor, one-shot and replayable sources.
- **Managed graph engine.** `GraphRecords` and `ManagedEngine`: several engine objects with cached
  graphs over one database under snapshot isolation with first-updater-wins on the revision row.
  Every storage call may fail, at any point of any run.
- **JVM bridge store.** `BridgeGraph`, `BridgeHandles`, `BridgeMemory` and `BridgeStore`: committed
  and working view, nested atomic blocks that a failure poisons, generation-stamped handles, and what
  a read can see after each step.
- **Plan and payload rewriters.** `PolicyViews`, `PolicyDecisions` and `PolicyJobs` (policy
  enforcement), `JsonPointers` and `RequestBinding` (typed requests), `Retrieval`, `Recognition`,
  `RuleMeaning` and `RetrievalFailures` (vector retrieval rules).
- **Declarations, types, permissions, catalog.** `CycleCheck`, `TypeNames` and `TypeNameStability`
  with `JsonPairs` and `JsonTokens`, `PermissionFilter`, `Catalog`.
- **Self-contained algorithms.** `ResultMatching` (results up to row order and blank-node names)
  and `BoltDate` (epoch days to dates).

`Text` and `Indices` hold shared facts about decimal text and index sets.

## How things are modelled

- Plans are trees with named scan leaves, an arbitrary evaluator for operators (`Plans.World`) and
  arbitrary predicates for what a dialect can print and an adapter can lower. Expressions that refer
  to an outer row are covered: a plan denotes one relation per outer row.
- Code that updates fields in place is a class with a `Valid()` invariant (router, streams, engine,
  store, catalog, cycle visitor, term mapping); loops are methods proved equal to, or against,
  specification functions; pure recursion is functions and lemmas.
- Storage failures, session answers, which texts an SQL engine casts, JSON codecs, clocks and
  network are parameters, universally quantified in every theorem.

## Findings

Properties that fail for some inputs, each with a concrete witness and the condition under which the
code does meet the property.

- **Routing.** Routing preserves the relation of a plan in every lawful world if and only if every
  scan of the transfers and of the routed plan reads what was meant by it, inputs of operations do
  not depend on outer rows, and operations answered by SQL lose no visible qualifier
  (`RouteExactness.RoutingExact`). For plans without dependent operations, or if no declared or
  scanned table has a name that looks generated, the first part can be checked before the call: the
  dotted name of every scanned table must be declared for the table's own engine
  (`RouteChecks.CheckedExactly`, also an equivalence). The condition fails when
  tables `"a.b"` and `a.b` share an owner entry (`RoutingFailures.SharedJoinMisroutes`), when an
  adapter declares a table with the name of an operation's exchange relation, which is then read by
  a closed request (`RoutingFailures.ClosedRequestMisroutes`), when a nested route takes the name of
  a table of the enclosing plan (`RoutingFailures.NestedRouteMisroutes`), for an input that looks at
  an outer row (`RoutingFailures.OuterInputChanges`) and for a qualified column of an SQL operation
  (`RoutingFailures.QualifierChanges`).
- **Begin after a double fault.** If the refresh of `begin` fails and the `ROLLBACK` that should undo
  the transaction fails as well, the engine is left in a transaction that is not marked failed
  (`ManagedEngine.GraphEngine.Begin` says exactly when), and with an outdated cache its reads answer
  an outdated graph (`ManagedEngine.LostReadsStaleGraph`). In any run, an engine of which no two
  storage calls fail in succession stays coherent and all its reads are right
  (`ManagedEngine.QuietEngineIsRight`), and the first command at which that breaks is one that begins
  a transaction in exactly this situation (`ManagedEngine.LostIsIncoherent`). If a lost engine also
  writes and commits, it is coherent again, outside the transaction too, exactly when the outdated
  graph agreed with the committed one on everything that the statement did not touch
  (`ManagedEngine.LostWrite`); a commit of any transaction leaves the engine coherent exactly when
  its cache was sound (`ManagedEngine.GraphEngine.Commit`). A checkpoint inside such a transaction
  publishes the outdated graph (`ManagedEngine.GraphEngine.Checkpoint`).
- **Aliases that disagree.** Every run is free of overlapping statements on an exclusive connection
  if and only if the session aliases of each connection agree about concurrent statements
  (`Scheduler.SafeExactly`); any two that disagree collide in some plan
  (`Scheduler.InconsistentAliasesCollide`).
- **Pointers with a bare tilde.** Validation compares pointer texts, so `/~` and `/~0` name one slot
  twice (`RequestBinding.BareTildeCollides`). Binding honours every pointer, whatever the arguments,
  if and only if bindings with overlapping decoded paths bind the same thing to the same slot
  (`RequestBinding.HonouredExactly`), which holds for all pointers that follow section 3 of RFC 6901
  (`RequestBinding.WellFormedCompatible`).
- **Hidden names in retrieval rules.** The recogniser keeps one scope for the whole rule. It
  misranks when RETURN gives a name that ORDER BY uses another meaning
  (`RetrievalFailures.HiddenOrderMisranks`) and misreads when the source node is read after WITH has
  bound the name `source` (`RetrievalFailures.HiddenSourceMisreads`).
- **Integral floats in retrieval rules.** A float literal such as `2.0` is printed as `2` and read
  back as an integer, so `t.n / 2.0 > 0.4` drops a row that Cypher keeps
  (`RetrievalFailures.IntegralFloatMisfilters`). Where such a literal reaches neither arithmetic nor
  the result, and no used name is hidden, every rule that Cypher accepts keeps its answers
  (`RuleMeaning.RetrievalMeaning`); both conditions can be read off the rule.
- **Checks that are needed.** Without the canonical-text condition the typed permission filter admits
  too much (`PermissionFilter.CanonicalCheckNeeded`); without the predicate test, ranking NULL scores
  last changes the answer (`RetrievalFailures.UnguardedOrderDiffers`).

## Model

| member | source | states |
|---|---|---|
| ExchangeNames.PickFresh | src/federation.rs:381-384 | the padding loop ends with the first underscore-padded form of the name that is not reserved |
| ExchangeNames.FreshIsFirst | src/federation.rs:381-384 | every shorter padded form of the name is reserved |
| ExchangeNames.NamesLook | src/federation.rs:381-384 | the exact text of the three kinds of generated names |
| ExchangeNames.StampOfFresh | src/federation.rs:540-543 | padding never changes which routing call a generated name belongs to |
| ExchangeNames.DifferentCallsDiffer | src/federation.rs:243-244 | names generated by different routing calls differ, whatever padding they carry |
| Plans.EvalAgrees | src/federation.rs:444-623 | a plan depends on where it is evaluated only through the host engine and the rows at its leaves |
| Plans.SelfContainedAgrees | src/federation.rs:446-485 | a subtree without outer references or engine-native functions gives the same relation on any engine and for any outer row |
| Routing.IslandSource | src/federation.rs:446-486 | an island is a closed subtree all of whose leaves the owner map, keyed by dotted names, gives to one engine other than the target; otherwise there is none |
| Routing.SqlReplacementMeaning | src/federation.rs:545-580 | reading an exchange relation back restores exactly the columns, qualifiers and rows of the replaced subtree |
| Routing.CutMeaning | src/federation.rs:486-600 | replacing one island by its exchange relation keeps the subtree's relation for every outer row, if the exchange name means what its transfer is meant to deliver |
| Routing.DependentMeaning | src/federation.rs:378-439 | replacing a dependent operation by its transfer keeps its relation, up to qualifiers that nothing sees, given that its routed input has the rows of the input |
| Routing.OperationsMeaning | src/federation.rs:246-443 | the first pass over all dependent operations, with nested routes, keeps the plan's relation up to qualifiers that nothing sees; both hypotheses are necessary by RouteExactness.RoutingExact |
| Routing.RouteMeaning | src/federation.rs:203-624 | if every exchange name means what its transfer is meant to deliver, the routed plan on the target means what the plan means; both hypotheses are necessary by RouteExactness.RoutingExact |
| RouterState.Router.Publish | src/federation.rs:381-384 | the name handed out belongs to this call and to no table, alias or earlier transfer, and the book of names and transfers stays distinct, ordered and in scope |
| RouterState.Router.Cut | src/federation.rs:486-600 | the in-place step agrees with the functional cut, including the name that is used up when the columns have several qualifiers; RouteCuts.CutExactly says when that cuts, and what |
| RouterState.Router.CutIslands | src/federation.rs:444-606 | the in-place top-down rewrite gives the plan, transfers and reserved names of the functional router; RouteCuts.IslandsCut says which subtrees that cuts |
| RouteCuts.SourceExactly | src/federation.rs:446-486 | a subtree is an island of an engine if and only if that is not the target, the subtree has a leaf, every leaf is declared for that engine, and no part refers to an outer row, calls a function of an engine or is a dependent operation |
| RouteCuts.CutExactly | src/federation.rs:486-600 | a subtree is cut exactly when it is an island and its adapter lowers it, or it prints over columns that can be exchanged and have one qualifier; then one transfer asks its owner for exactly the subtree, under a new name that is read in its place |
| RouteCuts.CutsAreTopmost | src/federation.rs:444-606 | a way is in the list of cuts if and only if the subtree there can be sent and none above it can |
| RouteCuts.CutsLeftToRight | src/federation.rs:444-606 | the cuts are listed from left to right |
| RouteCuts.IslandsCut | src/federation.rs:444-606 | the second pass makes one transfer for each cut, in order; each asks for the subtree at its place, and the result reads its relation there under the same columns |
| RouteCuts.RestIsKept | src/federation.rs:444-606 | every operator above all cuts stays where and what it is |
| RouteCuts.NothingLeft | src/federation.rs:444-606 | after the second pass no subtree can be cut any more, unless a declared table has a name that the pass made |
| RouteSuccess.OperationsExactly | src/federation.rs:246-443 | the first pass succeeds exactly when the inputs of the outermost operations can be routed one after the other and the target prints each routed input |
| RouteSuccess.IslandsExactly | src/federation.rs:444-624 | the second pass leaves no relation of another engine exactly when each was in a subtree that could be cut and no name it made belongs to another engine |
| RouteSuccess.RouteExactly | src/federation.rs:203-624 | if no declared table has a name that looks generated, routing succeeds if and only if every relation of another engine is in a subtree that can be sent or in the input of an operation, and the inputs of the operations can be routed |
| RouteSuccess.RouteExactlyAny | src/federation.rs:203-624 | whatever the declared names: routing succeeds if and only if its first pass does, every relation of another engine that this leaves is in a subtree that can be sent, and no name that the second pass makes is declared for another engine |
| RouteSuccess.RoutedCuts | src/federation.rs:203-624 | a routed plan has the transfers of the first pass and then one for each topmost subtree that could be sent, from left to right, and no subtree of it can be cut any more |
| TransferOrder.RouteOrderly | src/federation.rs:377-440 | exchange names are pairwise distinct, each exchange relation that is read was made by an earlier transfer, only tables of the plan are scanned, and no name is that of a table its routing call has seen |
| TransferOrder.RouteRead | src/federation.rs:377-440 | every exchange relation that is made is read by the routed plan or by a transfer |
| FreeWorld.LeavesReadAlike | src/federation.rs:203-624 | in the free lawful world, equal results mean that every leaf was read alike |
| RouteExecution.FaithfulResult | src/federation.rs:1139-1177 | if every scan reads what was meant by it, running the transfers one by one and then the routed plan gives the result as meant |
| RouteExecution.RoutePreservesMeaning | src/federation.rs:203-624 | for a faithful route, running the transfers in order, closed requests without bound relations included, and then the routed plan on the target gives the relation of the original plan |
| RouteExactness.RoutingExact | src/federation.rs:203-624 | for every plan that routing accepts: its relation is preserved in every lawful world if and only if the route is faithful, inputs of operations do not depend on outer rows and no visible qualifier is lost |
| RouteSafety.RouteHoused | src/federation.rs:444-623 | every transfer runs where the owner map puts all that it reads, and no table of another engine is left in the routed plan |
| RouteSafety.NeverConfused | src/federation.rs:218-244 | a route is faithful if the dotted name of every scanned table is declared for the table's own engine, and the plan is free of dependent operations or no declared or scanned table has a name that looks generated |
| RouteChecks.RouteKeepsScans | src/federation.rs:203-624 | every table that the plan scans is scanned by the routed plan or by a transfer |
| RouteChecks.FaithfulIsWellOwned | src/federation.rs:218-227 | whatever names are, a faithful route has taken every scanned table to live where it was declared |
| RouteChecks.CheckedExactly | src/federation.rs:203-624 | with ordinary names, or without dependent operations: meaning is preserved in every lawful world if and only if every scanned table is owned under its dotted name by its own engine, inputs of operations do not depend on outer rows and no visible qualifier is lost |
| RoutingFailures.SharedJoinMisroutes | src/federation.rs:164-227 | tables "a.b" and a.b, both accepted, share an owner entry, and a scan of the first gives another relation |
| RoutingFailures.ClosedRequestMisroutes | src/federation.rs:444-457 | a declared table that is never scanned can make an exchange relation the subject of a closed request, and the routed plan gives another relation, although every scanned table is ordinary and owned by its own engine |
| RoutingFailures.NestedRouteMisroutes | src/federation.rs:377-384 | a nested route can take the name of a table of the enclosing plan, and the routed plan gives another relation |
| RoutingFailures.OuterInputChanges | src/federation.rs:377-440 | an operation over an input that looks at the outer row gives another relation once routed |
| RoutingFailures.QualifierChanges | src/federation.rs:397-418 | an operation answered by SQL with a qualified column loses the qualifier |
| Binding.BindEach | src/federation.rs:1162-1175 | the loop binds the relation into every remaining transfer's statement or fails as a whole |
| Binding.BindPlanBatches | src/federation.rs:1139-1177 | fails exactly when no such transfer is pending or a statement has the name bound already; otherwise exactly that transfer is gone and its rows are in scope of the final and of every remaining statement, closed requests excepted |
| Binding.HeadReady | src/federation.rs:1139-1177 | the head of the list can be bound everywhere |
| Binding.FederateStep | clients/go/federation.go:109-193 | binding the rows of the head goes from k bound transfers to k + 1 |
| Binding.Federate | clients/go/federation.go:109-197 | for every plan that routing accepts the client loop ends with every exchange name bound; the final statement gives the relation of the original plan whenever the route is faithful, and that is sure if names are ordinary |
| SharedInputs.SharingAgrees | src/federation.rs:868-961 | an input with the types and batches of an earlier one can be bound on its own exactly when its NULL check passes, and then to the same relation |
| SharedInputs.SeparateExactly | src/federation.rs:868-961 | an input can be bound on its own if and only if it has columns, its batches are as wide, and every cell converts to the type of its column with NULL only where allowed; it gets exactly the converted rows, in order |
| SharedInputs.FindShared | src/federation.rs:898-916 | finds an earlier input with the same types and batches, or none exists |
| SharedInputs.BindInput | src/federation.rs:868-961 | an aliased or converted input is bound to the relation it would get on its own |
| SharedInputs.BindRegion | src/federation.rs:868-961 | all inputs are bound as each would be on its own; refused exactly when a name repeats or some input could not be bound on its own |
| Scheduler.OpenInputs | src/federation.rs:1589-1606 | a statement opens each completed relation it names once |
| Scheduler.ReusedLater | src/federation.rs:1479-1486 | true exactly when the connection, under any alias, is needed by the target or a later transfer |
| Scheduler.TransferKeepsExclusive | src/federation.rs:1487-1551 | running one transfer, spooling included, starts no statement on a busy exclusive connection and leaves every connection that is needed later free |
| ScheduleLog.Execute | src/federation.rs:1462-1564 | the loop completes exactly when relation names are distinct; its log is the one that the plan prescribes statement by statement, and whether it completes or stops, no two statements overlap on an exclusive connection and no one-shot input is opened twice |
| ScheduleLog.LogExactly | src/federation.rs:1462-1564 | every completed run opens the completed relations that each statement names, in order and just before it starts, starts each statement on its connection, and drains a stream exactly when it is spooled or its connection is needed again |
| ScheduleLog.OpenedExactly | src/federation.rs:1543-1606 | the number of times a relation is opened is exactly the number of statements, closed requests excepted, that name it after it was made |
| Scheduler.NeverTwoActiveStatements | src/federation.rs:1479-1551 | in every run, completed or stopped after any transfer, a statement starts on a connection without concurrent statements only when no earlier SQL stream on it is open, aliases included |
| Scheduler.OneShotOpenedOnce | src/federation.rs:1543-1551 | every input that is not spooled is opened at most once in a run, completed or stopped |
| Scheduler.InconsistentAliasesCollide | src/federation.rs:1473-1476 | any two aliases of one connection with different concurrency flags put two statements on it in some plan |
| Scheduler.SafeExactly | src/federation.rs:1473-1551 | every run of every plan is free of overlapping statements if and only if aliases of one connection agree |
| Streams.BatchStream.Next | src/execution/stream.rs:66-105 | yields a batch exactly when it has the declared schema and no NULL in a non-nullable column, else one error; afterwards the producer is dropped and nothing follows |
| Streams.BatchStream.CollectBatches | src/execution/stream.rs:56-63 | succeeds exactly when the stream has no error and returns all its batches |
| Streams.BatchSource.Open | src/execution/stream.rs:164-173 | a one-shot stream is handed out at most once; a replayable source gives what its factory gives on that call, its errors included; a stream of another schema is refused |
| Streams.Spool | src/execution/stream.rs:177-233 | succeeds exactly when the stream has no error, its row count fits 64 bits and no file operation fails; every call of the new source is then a reading of exactly those batches, with the row count as estimate |
| Streams.ReplayTwice | src/execution/stream.rs:177-233 | succeeds exactly when the stream can be stored; each reading gives all batches exactly when the file can be read to its end that time |
| Streams.YieldOfItems | src/execution/stream.rs:164-173 | replaying stored batches of the declared schema yields them unchanged |
| Streams.ReadingYields | src/execution/stream.rs:164-233 | a reading yields the stored batches up to the first that cannot be read, then an error |
| GraphRecords.PersistedState | src/engine.rs:535-579 | overriding the touched entries of the stored checkpoint and records gives exactly the new graph |
| GraphRecords.OverlaidState | src/engine.rs:535-579 | records of the touched entries override exactly those entries of any stored state |
| GraphRecords.OverriddenExactly | src/engine.rs:535-579 | the overridden state is the new graph exactly when the stored state agreed with it on everything that was not touched |
| GraphRecords.UpsertedOverlay | src/engine.rs:535-579 | upserting accurate records, in any order and with repetitions, is the overlay of the touched keys |
| GraphRecords.IncrementalRecords | src/engine.rs:535-579 | the records written describe exactly the touched elements and metadata |
| GraphRecords.TouchedExactly | src/engine.rs:535-579 | an entry is touched exactly when its element is pending or it is the metadata of a pending element's label or type |
| ManagedEngine.Undisturbed | src/engine.rs:470-533 | a step of one engine leaves every other engine's transaction and cache valid |
| ManagedEngine.GraphEngine.RefreshSnapshot | src/engine.rs:470-526 | the cached graph becomes checkpoint plus records of the snapshot, or nothing changes |
| ManagedEngine.GraphEngine.Refresh | src/engine.rs:446-468 | one snapshot supplies revision, checkpoint and records, outside a transaction too; coherence is kept on every failure |
| ManagedEngine.GraphEngine.Begin | src/engine.rs:392-406 | starts a fresh transaction exactly when none is open and every storage call answers; stays open after exactly the double faults: BEGIN answers, the refresh fails at one of its calls and the rollback fails; it is then fresh exactly when the cached revision is current |
| ManagedEngine.GraphEngine.Commit | src/engine.rs:408-420 | publishes the transaction's view as the committed version, or leaves the committed state alone and marks the transaction failed; after success the engine is coherent exactly when its cache was sound |
| ManagedEngine.GraphEngine.Rollback | src/engine.rs:422-436 | success gives the committed graph with a matching revision; the committed state never changes |
| ManagedEngine.GraphEngine.AdvanceRevision | src/engine.rs:528-533 | first updater wins: fails when another engine holds the revision row or has committed since |
| ManagedEngine.GraphEngine.UpsertBatches | src/engine.rs:535-579 | upserting in batches of 256 equals one upsert of all records |
| ManagedEngine.GraphEngine.Persist | src/engine.rs:535-579 | after success the view is its old state with the touched entries overridden, under the next revision, and the cache is that view exactly when it agreed with the old state on everything else; after failure the cache is as before and the transaction is unchanged or marked failed |
| ManagedEngine.GraphEngine.PersistCheckpointPayload | src/engine.rs:586-613 | replaces checkpoint and records by one payload that denotes the cached graph, whatever the view was |
| ManagedEngine.GraphEngine.Checkpoint | src/engine.rs:615-635 | compaction empties the records; a coherent engine leaves the visible graph unchanged, and inside a transaction the view becomes the cached graph |
| ManagedEngine.GraphEngine.ReplaceGraph | src/engine.rs:637-666 | an import commits exactly the given graph; a failed one leaves the committed state, and inside a transaction the cached graph, unchanged |
| ManagedEngine.GraphEngine.BeginStatement | src/engine.rs:742-748 | a mutating statement starts from the graph of its transaction's view |
| ManagedEngine.GraphEngine.FinishStatement | src/engine.rs:748-764 | an automatic statement commits, and an explicit one leaves as the transaction's view, the old state with exactly what it touched overridden, under the next revision; the cache stays sound exactly when it agreed with the view on the rest; a failed statement leaves the committed state, and inside a transaction the cached graph, unchanged |
| ManagedEngine.GraphEngine.PersistResult | src/engine.rs:748-760 | installs and persists a statement's graph: the view is the old one with the touched entries overridden, and right exactly when the cache agreed on the rest |
| ManagedEngine.GraphEngine.Undo | src/engine.rs:109-125 | the cleanup of a failed, dropped or cancelled statement brings back the graph before it, or rolls the automatic transaction back or marks it failed; coherence is kept |
| ManagedEngine.GraphEngine.Read | src/engine.rs:765-773 | succeeds exactly outside failed transactions when the refresh answers; a coherent engine sees the committed graph, or the view of its own transaction; outside a transaction a cache of another revision is reloaded and right again |
| ManagedEngine.Step | src/engine.rs:720-820 | any command of any engine: it succeeds only if it is permitted and meets no conflict, does succeed then if every storage call answers, and has its effect on what can be seen; a fresh engine stays fresh exactly when the command does not begin in a double fault with an outdated cache; a sound cache stays sound unless a lost engine writes; a coherent engine reads what it should see |
| ManagedEngine.StepAmong | src/engine.rs:720-820 | a step of one engine keeps the state and the soundness of every other engine and publishes at most one new version |
| ManagedEngine.FreshUntilLost | src/engine.rs:392-406 | over any run, an engine stays fresh as long as none of its commands begins in a double fault with an outdated cache |
| ManagedEngine.SoundUntilWritten | src/engine.rs:392-420 | over any run, an engine that never wrote while lost has a sound cache and is coherent again once its transaction is over |
| ManagedEngine.LostIsIncoherent | src/engine.rs:392-406 | over any run, the next command of an engine that has not lost its way leaves it coherent if and only if it does not begin in a double fault with an outdated cache |
| ManagedEngine.LostTakesTwoFailures | src/engine.rs:392-406 | over any run, losing the way takes two storage calls in succession that fail |
| ManagedEngine.QuietEngineIsRight | src/engine.rs:392-611 | over any run, an engine of which no two storage calls in succession fail is coherent at every moment and everything it reads is the committed graph or its own view |
| ManagedEngine.Run | src/engine.rs:422-611 | any engines, commands and failures: the moments of the run lead from the state before to the state after, each by the specified move and reply; a committed revision number names one graph forever; engines without two failures in succession end coherent and read right |
| ManagedEngine.LostReadsStaleGraph | src/engine.rs:392-406 | for every engine with an outdated cache: when BEGIN answers and neither the refresh nor the rollback works, a read in the open transaction answers the outdated graph |
| ManagedEngine.LostWrite | src/engine.rs:392-420 | a lost engine that writes and commits is coherent again, and its next read right, exactly when the outdated graph agreed with the committed one on everything that the statement did not touch |
| BridgeGraph.SameIdentity | src/storage.rs:5-8 | an address allocated in an ancestor graph and present in a descendant is the same created element |
| BridgeGraph.ActDescends | src/storage.rs:5-8 | every mutation continues the lineage: counters never go down and no allocated address is created again |
| BridgeHandles.Issue | src/jvm_bridge.rs:542-566 | the handle of an element names its address and is current |
| BridgeHandles.IssueKeepsSafe | src/jvm_bridge.rs:542-566 | issuing a handle, with those of its owners, never reuses a generation and keeps all earlier handles genuine |
| BridgeHandles.MutationKeepsSafe | src/jvm_bridge.rs:542-648 | replacing the working graph by a continuation keeps handle safety |
| BridgeHandles.SaveKeepsSafe | src/jvm_bridge.rs:270-280 | opening a block keeps handle safety |
| BridgeHandles.DropKeepsSafe | src/jvm_bridge.rs:281-293 | releasing a block keeps handle safety |
| BridgeHandles.RestoreKeepsSafe | src/jvm_bridge.rs:568-593 | going back to an earlier view and pruning keeps handle safety, although freed numbers may be allocated again |
| BridgeHandles.CommitKeepsSafe | src/jvm_bridge.rs:255-262 | committing and pruning keeps handle safety |
| BridgeHandles.PruneKeepsResolving | src/jvm_bridge.rs:568-593 | pruning keeps exactly the handles that resolve in the working or the committed view |
| BridgeHandles.ResolvedHandleIsGenuine | src/jvm_bridge.rs:595-648 | a handle that resolves denotes the element it was issued for |
| BridgeHandles.IssueResolves | src/jvm_bridge.rs:542-648 | the handle that is issued for a live element resolves |
| BridgeHandles.ResolvedIsUnique | src/jvm_bridge.rs:595-648 | only one handle of an element resolves |
| BridgeMemory.SeenThrough | src/jvm_bridge.rs:711-727 | through any handle that resolves, a read shows the runtime value if there is one and the stored value otherwise |
| BridgeMemory.SeenInExtension | src/jvm_bridge.rs:542-566 | issuing handles changes nothing that a read can see |
| BridgeMemory.SteppedShows | src/jvm_bridge.rs:318-474 | each step goes through exactly when what it needs can be seen, and then a read shows exactly what the step is for: a runtime value set or dropped, a value stored, one new element, an element removed with its edges and properties, and everything else as before |
| BridgeMemory.PlayedShows | src/jvm_bridge.rs:186-217 | a script that succeeds shows its steps one after the other; it fails exactly at a step that is not allowed after those before it |
| BridgeStore.BlockUndone | src/jvm_bridge.rs:281-293 | whatever happens inside a block, failures and nested blocks included, rolling back to it restores the state at its start |
| BridgeStore.Store.PruneHandles | src/jvm_bridge.rs:568-593 | the two-stage removal keeps exactly the addresses that resolve in either view |
| BridgeStore.Store.DoMutate | src/jvm_bridge.rs:186-217 | a mutation has exactly the effect of its whole script on graph, handles and runtime values, told by BridgeMemory.PlayedShows, or fails; outside a block a failure has no effect, inside a block it poisons the block |
| BridgeStore.Store.DoLook | src/jvm_bridge.rs:303-317 | a read shows each slot that can be seen in the state of the last surviving successful mutation, with its runtime or stored value, and nothing else |
| BridgeStore.Store.DoLookCommitted | src/jvm_bridge.rs:220-233 | a committed read shows what can be seen in the last commit, disturbs neither view and cannot poison a block |
| BridgeStore.Store.DoBeginBlock | src/jvm_bridge.rs:270-280 | opens a block over a copy of the working state |
| BridgeStore.Store.DoRelease | src/jvm_bridge.rs:281-293 | leaves the innermost block without restoring; any other id is refused |
| BridgeStore.Store.DoRollbackTo | src/jvm_bridge.rs:281-293 | restores the state of the innermost block and clears its failure |
| BridgeStore.Store.DoCommit | src/jvm_bridge.rs:244-262 | publishes the working state, only outside blocks |
| BridgeStore.Store.DoRollback | src/jvm_bridge.rs:244-269 | restores the committed state, only outside blocks |
| BridgeStore.Store.DoClose | src/jvm_bridge.rs:294-302 | keeps only the committed state, forgets all handles and refuses every later request |
| BridgeStore.Store.Process | src/jvm_bridge.rs:163-302 | each request is accepted exactly when it may be; a successful mutation shows its steps one after the other, a read answers what can be seen in the right view, blocks save, release and restore the data, a commit publishes them; a failure leaves committed data and saved blocks alone, outside blocks all data, and inside one it poisons |
| BridgeStore.Store.Genuine | src/jvm_bridge.rs:542-648 | at any moment of any run, in both views, a resolving handle denotes the element it was issued for |
| BridgeStore.RunFollowsSpec | src/jvm_bridge.rs:163-302 | at every moment of a run the visible state is the specification run over the requests, their success and what mutations left |
| BridgeStore.RunIsRight | src/jvm_bridge.rs:163-302 | over any run, successful reads show what can be seen of the last surviving successful mutation or the last commit, and successful mutations show their steps on the state callers relied on |
| BridgeStore.RuntimeValueIsRead | src/jvm_bridge.rs:405-440 | over any run, a runtime value that a mutation set last is what the next read of the element answers |
| BridgeStore.Serve | src/jvm_bridge.rs:163-302 | over any sequence of requests the moments lead from the state before to the state after, every request is accepted exactly when it may be, reads and mutations are right against the specification run, and every issued handle stays on record |
| PolicyViews.SecureScan | src/opa.rs:480-551 | fails exactly when a filter or a mask of the scanned table does not bind; otherwise the new plan returns over the raw table, for every outer row, what the scan returns over the policy view |
| PolicyViews.SecuredScanMeaning | src/opa.rs:491-550 | the secured scan over the raw table returns what the scan, with its filters, projection and fetch, returns over the filtered and masked view, for every outer row |
| PolicyViews.ApplyMeaning | src/opa.rs:474-556 | the rewritten plan over raw tables equals the original plan over the policy views, whose rows are given cell by cell: those for which every bound filter is true, with the cast value of the mask where there is one and the raw cell elsewhere; correlated subqueries included |
| PolicyViews.RefusedExactly | src/opa.rs:474-556 | rewriting fails exactly when some restricted scan has a filter or mask that does not bind |
| PolicyViews.BindableExactly | src/opa.rs:491-522 | the filters and masks of a table are bound exactly when each text binds; each field then has the cast of its mask's text, or its raw column |
| PolicyViews.RowsAreView | src/opa.rs:491-522 | the rows of the secured table are, in order, the raw rows for which every filter is true, each cell masked or raw as its name says |
| PolicyViews.WithViewsIsPolicyWorld | src/opa.rs:474-556 | the views are what the policy prescribes, in every world, and nothing else is |
| PolicyDecisions.BatchAcceptedExactly | src/opa.rs:345-355 | a batch answer is accepted exactly when every index below the batch length is listed once and nothing else is |
| PolicyDecisions.InsertMasks | src/opa.rs:376-393 | the loop over a chunk's masks inserts exactly its masks, and fails exactly on an illegal mask, an index out of range or a repeated index |
| PolicyDecisions.Gather | src/opa.rs:338-396 | gathering succeeds exactly when every access answer is the value true, every batch answer allows each index once, every row answer is a list of texts, and every mask and chunk answer is legal; the result has exactly their rows and masks |
| PolicyDecisions.AcceptableExactly | src/opa.rs:338-403 | which answers of each kind are accepted, in plain terms |
| PolicyDecisions.OrderIndependent | src/opa.rs:330-396 | every arrival order gives the same success or failure and the same restrictions |
| PolicyDecisions.ChunkAgrees | src/opa.rs:364-393 | a chunk leaves each of its columns the mask that asking for the column alone would have left |
| PolicyJobs.BuildJobs | src/opa.rs:299-329 | the jobs ask for access to every table once, and once for every configured row filter and column mask |
| PolicyJobs.AnswersSeparate | src/opa.rs:299-329 | answers to the built jobs never fill the same slot |
| PolicyJobs.ArrivalOrderIrrelevant | src/opa.rs:294-396 | however the answers to the built jobs arrive, success and restrictions are the same |
| PolicyJobs.Decide | src/opa.rs:294-403 | from jobs to restrictions: success means that the policy allowed every table, and the restrictions are exactly its row filters and masks |
| JsonPointers.EncodeDecode | src/operations.rs:83-88 | section 4 decoding of RFC 6901 is undone by escaping, so different well-formed tokens name different members |
| JsonPointers.OverlapExactly | src/operations.rs:89-103 | on pointers well formed under section 3 of RFC 6901, textual overlap coincides with overlap of decoded token paths |
| JsonPointers.LookupPut | src/operations.rs:60-69 | a written slot holds the written value |
| JsonPointers.LookupPutElsewhere | src/operations.rs:60-69 | writing a slot leaves every disjoint location unchanged |
| JsonPointers.PutCommutes | src/operations.rs:60-69 | writes to disjoint locations commute |
| RequestBinding.Validate | src/operations.rs:74-108 | accepts exactly the templates with an adapter, parameters in range, existing slots and no overlapping pointers |
| RequestBinding.Bind | src/operations.rs:48-72 | fails only on a wrong parameter count, an invalid template, a parameter without payload or, with bindings that are not compatible, a slot removed by an earlier write; every location disjoint from the pointers is unchanged, and with compatible bindings each pointer holds its argument's payload, or the flag that it is NULL where the binding asks for that |
| RequestBinding.HonouredExactly | src/operations.rs:48-108 | for a valid template, binding succeeds and honours every pointer, whatever the arguments, if and only if overlapping bindings bind the same thing to the same slot |
| RequestBinding.WellFormedCompatible | src/operations.rs:89-103 | valid templates whose pointers follow section 3 of RFC 6901 have compatible bindings |
| RequestBinding.BareTildeCollides | src/operations.rs:89-103 | a template that validation accepts although two of its pointers name one slot |
| RequestBinding.AnyOrder | src/operations.rs:59-71 | any order of writes that are disjoint or equal gives the same document |
| RequestBinding.BindingOrderIrrelevant | src/operations.rs:59-71 | listing compatible bindings in another order binds to the same document |
| Retrieval.CollectAliases | src/catalog/retrieval.rs:207-221 | the loop over WITH items gives the sequential aliases, or rejects the rule |
| RuleMeaning.SqlMeaning | src/catalog/retrieval.rs:11-88 | translation keeps the value of every expression in every scope that the aliases describe: up to the kind of numbers of one value, and exactly where no integral float reaches arithmetic or the result |
| RuleMeaning.RejectsNullSound | src/catalog/retrieval.rs:92-127 | a predicate accepted by the test is not true of a row with a NULL score, under three-valued logic and alias expansion |
| RuleMeaning.AliasesMeaning | src/catalog/retrieval.rs:207-221 | each alias term has the value that the WITH clause, evaluating its items in the scope before it, gives the variable, exactly or up to the kind of numbers |
| RuleMeaning.TargetIsNotSource | src/catalog/retrieval.rs:296-300 | a rule that matches the source variable again is never recognised |
| RuleMeaning.OrderMeaning | src/language/cypher/planner/lowering/project.rs:255-320 | names that RETURN does not give another meaning mean the same to ORDER BY |
| Retrieval.CollectProperties | src/catalog/retrieval.rs:249-275 | the loop over RETURN items gives the declared properties, or rejects the rule |
| RuleMeaning.NullNeverSurvives | src/catalog/retrieval.rs:305-312 | when NULL scores are put last in descending order, no row with a NULL score survives the filters |
| RuleMeaning.RetrievalMeaning | src/catalog/retrieval.rs:156-312 | for every recognised rule that Cypher accepts, in which no used name is hidden and no integral float reaches arithmetic or the result, and for all rows and engines, filtering, ranking and cutting with the chosen null order gives exactly the answers of the Cypher rule with its own scopes and floats |
| RuleMeaning.Recognise | src/catalog/retrieval.rs:156-312 | the recogniser gives a retrieval with exactly the answers of such a rule on all rows and engines, or rejects the rule |
| Recognition.SqlExactly | src/catalog/retrieval.rs:11-88 | an expression is translated exactly when it is built of literals, properties of the two sides, known names, operators, plain vector functions and lists |
| Recognition.RejectsNullExactly | src/catalog/retrieval.rs:92-127 | the test accepts a predicate exactly when each way in which it can be true has a comparison with the score or a test that it is not NULL |
| Recognition.RecognisedExactly | src/catalog/retrieval.rs:156-312 | a rule is recognised exactly when its clauses can be read item by item and its score is a returned vector call over a target column that an index serves; NULLs go last exactly in ascending order or when some predicate rejects them |
| RetrievalFailures.HiddenOrderMisranks | src/catalog/retrieval.rs:272-278 | a recognised rule that Cypher accepts, in which RETURN rebinds a name of ORDER BY, with other answers |
| RetrievalFailures.HiddenSourceMisreads | src/catalog/retrieval.rs:14-27 | a recognised rule that Cypher accepts, which reads the source node after WITH has bound its name, with other answers |
| RetrievalFailures.IntegralFloatMisfilters | src/catalog/retrieval.rs:28-30 | a recognised rule that Cypher accepts and that hides no name, but divides by 2.0, drops a row that the Cypher rule keeps |
| RetrievalFailures.UnguardedOrderDiffers | src/catalog/retrieval.rs:305-312 | without the test, putting NULL scores last changes the limited result |
| CycleCheck.Collect | src/catalog/lowering.rs:92-125 | collects exactly the declared names a query uses, through UNION branches, with untyped patterns using all |
| CycleCheck.UsesExactly | src/catalog/lowering.rs:92-125 | a query uses a name exactly when some clause, of it or of a query joined by UNION at any depth, has an untyped pattern, a pattern of that type or a call of it |
| CycleCheck.Visitor.Visit | src/catalog/lowering.rs:65-85 | terminates; fails only on a cycle; otherwise settles the name and restores `active` |
| CycleCheck.Acyclic | src/catalog/lowering.rs:65-90 | succeeds exactly when the dependency relation has no cycle, with `done` shared across roots and `active` fresh per root |
| CycleCheck.Install | src/catalog/lowering.rs:55-91 | fails exactly when declared relationships use each other in a round, self-use included |
| TypeNames.NameReads | src/federation.rs:799-855 | the name of a readable type reads back as its normal form |
| TypeNames.RoundTripExactly | src/compiler.rs:339-441 | decoding a type's name gives the type back if and only if the type is readable and in normal form, nested lists, ordered structs, domains and decimals included |
| TypeNames.NormalName | src/federation.rs:799-855 | a type and its normal form have the same name |
| TypeNames.NamedExactly | src/federation.rs:799-855 | exactly which types have no name |
| TypeNameStability.SuffixStable | src/compiler.rs:339-441 | text that ends in a colon and a written name reads, if at all, as a type of that very name |
| TypeNameStability.NameIsStable | src/compiler.rs:339-441 | for every type whose name decodes, domain names with colons included, encoding the decoded type gives the same name |
| TypeNames.DecimalTypeReads | src/compiler.rs:419-434 | a printed precision and scale read back exactly when they are supported |
| TypeNames.DomainReads | src/compiler.rs:371-382 | a domain name is cut at its first colon: names without one are kept, names with one never are |
| JsonPairs.CompactIsLawful | src/federation.rs:843-851 | a concrete JSON codec with white space and all escapes, surrogates included, with the array form and the older object form, meets the reading hypotheses of the type-name theorems |
| JsonTokens.AcceptedLexed | src/compiler.rs:388-417 | both readers accept only text that closes every string and holds nothing but marks and white space outside |
| JsonTokens.CompactIsApart | src/compiler.rs:388-417 | no reader accepts a written type name, or text that ends in a colon and one |
| JsonTokens.CompactNames | src/compiler.rs:339-441 | with these readers and no hypothesis on the codec: the exact round trip and the stability of names, for every type |
| PermissionFilter.Build | src/compiler.rs:1149-1216 | uses the cast form exactly for signed integers on DuckDB; for every table of grants, identifier and cast it admits exactly the nodes that a grant names |
| PermissionFilter.FilterExact | src/compiler.rs:1149-1216 | both forms admit exactly the nodes that a grant names, for every table, identifier of its width and lenient cast |
| PermissionFilter.TypedEqualsText | src/compiler.rs:1190-1216 | the TRY_CAST form with its canonical-text check admits exactly the nodes of the VARCHAR membership form |
| PermissionFilter.LenientInvertsPrinting | src/compiler.rs:1201-1207 | a cast that accepts signs and leading zeros meets the hypothesis on casts |
| PermissionFilter.CanonicalCheckNeeded | src/compiler.rs:1201-1207 | without the canonical-text check a grant on "007" would admit node 7 |
| Catalog.Retain | src/catalog.rs:136-145 | removes exactly the entries of the name, in order, and says whether there was one |
| Catalog.EditedExactly | src/catalog.rs:80-160 | an edit is accepted if and only if its entry is named and valid, its name free or taken as it must be and the result valid; the result differs by exactly the entry that is added at the end of the list of its kind and those of the name, all other entries staying in order |
| Catalog.EditedNames | src/catalog.rs:80-160 | what a registration, removal or replacement does to the names of the three lists |
| Catalog.EditKeepsUnique | src/catalog.rs:91-109 | an accepted edit keeps names unique across the three lists |
| Catalog.RegisterThenRemove | src/catalog.rs:80-112 | removing what was just registered gives the schema back |
| Catalog.InMemoryCatalog.Replace | src/catalog.rs:63-79 | replaces exactly on the expected revision and gives the next one, unless it would overflow |
| Catalog.InMemoryCatalog.Propose | src/catalog.rs:80-160 | the edited schema, or refusal, which Catalog.EditedExactly tells |
| Catalog.InMemoryCatalog.Step | src/catalog.rs:57-160 | an event succeeds exactly when the revision is the one it expects and can go up; a success gives the next revision, installs its own change of the expected revision's schema and records it; anything else leaves schema and revision alone |
| Catalog.RevisionNamesSchema | src/catalog.rs:57-160 | over any run the schema changes only together with the revision, which never goes down |
| Catalog.NoUpdateLost | src/catalog.rs:57-160 | over any interleaving, every success applies its own edit, the one of the Begin of its call, to the latest schema at the revision before its answer, although it was worked out from an earlier reading |
| Catalog.RunIsLinear | src/catalog.rs:57-160 | successes are exactly those that expect the current revision, each made its own change, answers increase, and every revision was answered to the event that made it |
| Catalog.Run | src/catalog.rs:37-160 | from any initial revision and under every interleaving: the moments lead from the initial to the final catalog, the run is linear, the recorded change of every answered revision is that event's own, and names stay unique if they start unique and whole replacements keep them so |
| ResultMatching.MatchCellExact | conformance/upstream/sparql.py:39-46 | the mapping grows just enough: it extends to every injective renaming that matches |
| ResultMatching.Mapping.MatchTerm | conformance/upstream/sparql.py:39-46 | succeeds, and enters a new pair, exactly as the specified cell match; a failure leaves the mapping alone |
| ResultMatching.Mapping.MatchRow | conformance/upstream/sparql.py:66-67 | a row matches exactly when some injective extension of the mapping matches it, and the new mapping is the least one |
| ResultMatching.Visit | conformance/upstream/sparql.py:61-69 | the search succeeds exactly when the rest can be matched with remaining rows |
| ResultMatching.RowsEqual | conformance/upstream/sparql.py:47-70 | true exactly when one permutation of rows and one injective blank-node renaming, global to all rows, match every term; the identity permutation when ordered |
| ResultMatching.IsomorphicExactly | conformance/upstream/sparql.py:47-70 | results are equal exactly when some order of the rows and some injective renaming of blank nodes turn one into the other, cell by cell, with numbers in stored form |
| ResultMatching.NumbersByNormalForm | conformance/upstream/rdf_result_terms.py:17-29 | terms are the same or numerically the same exactly when their stored forms are equal |
| ResultMatching.Reflexive | conformance/upstream/sparql.py:47-70 | a result equals itself |
| ResultMatching.Symmetric | conformance/upstream/sparql.py:47-70 | result equality is symmetric |
| ResultMatching.Transitive | conformance/upstream/sparql.py:47-70 | result equality is transitive |
| BoltDate.DecodeCounts | conformance/upstream/cypher_driver.py:4-14 | every day count decodes to a valid proleptic Gregorian date that counts back to it |
| BoltDate.DecodeInverts | conformance/upstream/cypher_driver.py:4-14 | every valid date is decoded from its count of days from 1970-01-01 |
| BoltDate.DecodeSteps | conformance/upstream/cypher_driver.py:4-14 | day n + 1 decodes to the calendar successor of day n |
| BoltDate.DecodeEpoch | conformance/upstream/cypher_driver.py:4-14 | day 0 is 1970-01-01 |
| BoltDate.NextCounts | conformance/upstream/cypher_driver.py:4-14 | the reference day count steps by one with the calendar |
| BoltDate.BoltTextLossless | conformance/upstream/cypher_driver.py:15-16 | the text determines the day, for negative and wide years too |

## Left out

- SQL text, parsing and printing, Arrow arrays and IPC files, HTTP, Kafka, FFI and query optimisers: they are foreign code; plans, terms, rows and arbitrary predicates stand for them.
- Rewrite lowerings inside the router (an operation that lowers to another plan on its own engine) and the continuation of request plans: a dependent operation is modelled as it is after lowering.
- RouteChecks.CheckedExactly: with dependent operations it asks for ordinary names, since a table with a generated-looking name may happen not to be met; RouteExactness.RoutingExact is the exact statement for all names.
- RouteSuccess.RouteExactly: asks for ordinary declared names; RouteSuccess.RouteExactlyAny is the exact statement for all names.
- Binding.Federate: models sessions as a function of the transfer and its bound relations; the client's checks of version and dialect are left out.
- Scheduler: request (non-SQL) streams hold no connection in the model, and sessions are assumed to open each input they are given once.
- Streams: names, directory and deletion of temporary files, and the cost accounting of streams.
- ManagedEngine: mapped-table mode, leases and registered procedures across refresh.
- ManagedEngine.Step: each command other than a mutating statement is one step, while a statement's start and finish are separate steps with other engines in between; inside a command every storage call may fail, which is also how a conflicting commit of another engine shows.
- ManagedEngine: which changes a query tracks as pending is a hypothesis on the statement's result (`GraphRecords.Tracked`).
- BridgeStore: survival of handles of elements that live only in an outer block's saved graph; safety is proved, survival is not claimed. Individual graph operations are abstract scripts of creations, updates and removals; reading materialises no property records.
- PolicyViews: which tables a plan reads and how policy expressions are parsed; binding an expression to a schema is an arbitrary partial function into expressions without outer references. Tables are known by their dotted names.
- RequestBinding: numbers and strings of a payload are opaque values.
- Retrieval: SQL text is a term, equal text being equal terms; the choice of index, metric and retrieval mode is one predicate on the score.
- RuleMeaning.RetrievalMeaning: the conditions on hidden names and integral floats are sufficient; a rule that breaks one can still have the same answers, for instance when both meanings have equal values or the predicates keep no row, which no test on the rule's text decides. Engines are assumed to read text with a point as the float that prints so and to treat numbers of one value alike in vector functions (and, for the wider condition, in comparisons); apart from that, operators applied to the same operands are taken to give the same result in Cypher and in SQL, and a property that a node lacks is NULL in both.
- CycleCheck: duplicate names, unknown labels and the rest of a declaration's validation; patterns of one MATCH are one list of relationship patterns.
- TypeNames: field metadata; limits on the nesting of JSON text.
- PermissionFilter: SQL text and quoting; the two forms are compared as filters, where only true admits.
- Catalog: absent and empty declaration lists are the same list; a name is the label of a stored edge or the name of a computed one.
- ResultMatching: the lax option that first removes duplicate rows.
- The tolerance-based matcher of the Cypher conformance adapter, release scripts, report pages, conformance adapters, the catalog HTTP client and token cache, and extension glue: input and output plumbing with easy properties.
