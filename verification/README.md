# kr0ki in Dafny

A model of the parts of kr0ki whose correctness is decided by code, and proofs of what they promise.
`dafny verify dfyconfig.toml` checks it.

| part | files |
|---|---|
| containment cycles, IR validation and normalization | `Graph`, `Containment`, `Forest`, `BehaviorIr`, `SourceText`, `IrValidation`, `Normalize` |
| state machines: validation and runtime; attribute escaping | `MachineValidation`, `MachineRuntime`, `XmlEscape` |
| propose and commit on a model server | `SyncEngine`, `ModelServer`, `Reconcile`, `ChangeProtocol`, `ChangeSafety`, `ChangeCalls`, `ChangeLimits` |
| the audit log and its timestamps | `AuditLog`, `Rfc3339` |
| the SysML declaration scanner | `Scanner`, `ScannerExact` |
| ReqIF export, comparison and round trip | `Requirements`, `ReqifExport`, `ReqifDecode`, `ReqifCompare`, `ReqifMeaning`, `ReqifRoundTrip` |
| stored requirement baselines | `StoredBaseline`, `StoredRoundTrip`, `StoredOnServer` |
| the render cache | `RenderCache` |
| shared: Rust's orders and sorts, text, results | `Ordering`, `Text`, `Wrappers` |

The loops of the source are loops here, its mutable objects are classes, and each method is tied to a
function or a declarative condition about which the lemmas are proved. The commit protocol is a state
machine: lookup, lock, recheck, head read, backend commit, second head read, removal and unlock are
separate atomic steps of any number of callers, interleaved with proposals, outside writers, injected
conflicts, lost replies and writes that reach the server after their caller timed out. The server keeps
commit chains; which chain a project and an optional branch name is a parameter, so that a branch may be
known by its id and as the default one.

SHA-256, JSON serialization, Unicode lower case, the profile vocabularies, guards, effects and the render
backend are function parameters. Where a theorem needs it, the absence of collisions is a hypothesis about
the strings in play only, and a serialized record is assumed to be one nonblank line that parses back to
itself. File-system and network failures are parameters of the calls.

## Where the code and its documentation differ

- The audit log's documentation says an edited, deleted or reordered record breaks the chain. Every
  reordering does. An edit of the last record need not, and cutting off any number of last records does not
  (`AuditLog.EditUndetectedExactly`, `AuditLog.RearrangedExactly`, `AuditLog.RemovalUndetectedExactly`).
- The audit log recovers from failed writes exactly when none of them stopped inside a line
  (`AuditLog.TornExactly`). A write that fails after the line but before its line feed leaves a log that reopens,
  takes one more record, reports it as written, and breaks there (`AuditLog.TornWriteBreaks`).
- Sorting a transition table is said never to change behaviour. It can change which of two errors a step
  reports, exactly when a guard fails while two other transitions are enabled
  (`MachineRuntime.OrderMatters`); `normalize` does so exactly under the condition of
  `Normalize.NormalizeShowsExactly`, for instance in `Normalize.NormalizeCanShow`.
- The scanner passes over a declaration whose quoted name is a declaration keyword or `def`
  (`ScannerExact.ScanComplete`, `ScannerExact.QuotedKeywordDropped`).
- The text order of timestamps is the order of time up to the end of year 9999 and no further
  (`Rfc3339.OrderExactlyTo9999`).
- The render cache is transparent exactly when key and output determine format and source
  (`RenderCache.TransparentExactly`). The snapshot route breaks this: its `view` parameter selects what is drawn
  and is not part of the key (`RenderCache.SnapshotViewsShareAnswer`). A view kind containing the unit separator
  would too (`RenderCache.SeparatorInViewKind`); the callers pass a fixed one.
- A baseline stored again without an import digest reads back the earlier one, exactly when an element already
  stored for one of its requirements holds one (`StoredOnServer.DigestReturnsExactly`,
  `StoredOnServer.OldDigestReturns`).
- The documented limit of the change service names other writers only. It is safe on every run precisely when
  the server checks `previousCommit`, or there are no other writers, no write lands after its caller gave up on
  it, and all names of a branch share one lock (`ChangeLimits.SafeExactlyWhenGuarded`). `lock_for` keys the lock
  by the name, so a branch named by its id and as the default has two (`ChangeLimits.TwoNamesUnsafe`). A commit
  that times out frees the lock while the server may still apply it (`ChangeLimits.LateLandingUnsafe`).

## Model

| member | source | states |
|---|---|---|
| Containment.ContainmentCycles | crates/kr0ki-behavior/src/validation.rs:47-109 | for every containment relation, self-loops, repeated edges and disconnected parts included: returns exactly the vertices on some nonempty directed cycle, each once |
| Containment.BuildAdjacency | crates/kr0ki-behavior/src/validation.rs:48-63 | the forward vectors hold exactly the containment edges over the sorted ids, and the reverse vectors are their mirror |
| Containment.BuildIndex | crates/kr0ki-behavior/src/validation.rs:48-63 | the index is the inverse of the sorted id list |
| Containment.FinishOrder | crates/kr0ki-behavior/src/validation.rs:64-84 | first pass: the finishing order is a permutation of the vertices, whoever reaches a vertex has a vertex of its own component finishing no earlier, and the inner loop body runs exactly V+E times |
| Containment.Explore | crates/kr0ki-behavior/src/validation.rs:66-83 | the inner loop empties the stack, unvisits nothing, keeps the shape and reachability of the finishing order, and takes one step per vertex and edge it finishes |
| Containment.SourceComponentFinishesLater | crates/kr0ki-behavior/src/validation.rs:64-84 | if `u` reaches `v` but `v` does not reach `u`, some vertex of `u`'s component finished after every vertex of `v`'s |
| Containment.ReachingIsConnected | crates/kr0ki-behavior/src/validation.rs:86-106 | an uncollected vertex that reaches the latest uncollected finisher is in its component |
| Containment.CollectComponent | crates/kr0ki-behavior/src/validation.rs:86-106 | second pass: each component gathered is exactly one strongly connected component |
| Containment.ComponentCyclic | crates/kr0ki-behavior/src/validation.rs:101-106 | the size-or-self-loop test: a component carries cycles exactly when it has two vertices or a self-loop, and then every vertex of it is on one |
| Containment.CyclicVertices | crates/kr0ki-behavior/src/validation.rs:86-108 | both loops of the second pass: exactly the vertices on cycles, each once |
| Graph.CycleByEdge | crates/kr0ki-behavior/src/validation.rs:47-109 | being on a cycle is having an edge whose head reaches back |
| Forest.ForestIff | crates/kr0ki-behavior/src/validation.rs:306-410 | a containment relation is a rooted forest (one parent at most, every climb ends at a root within as many vertices as there are nodes) if and only if no vertex has two parents and none is on a cycle |
| Forest.ClimbToRoot | crates/kr0ki-behavior/src/validation.rs:306-410 | without cycles, climbing parents from any node ends at a root within the bound |
| Forest.CycleNeverEnds | crates/kr0ki-behavior/src/validation.rs:306-410 | on a cycle with single parents, climbing never ends |
| IrValidation.Validate | crates/kr0ki-behavior/src/validation.rs:159-497 | an error is reported exactly when the document violates the declarative validity condition; below error level the findings are exactly the extractor's own, the edges between declared nodes that are not resolved, the loops without exit, the dispatches without target and the unreachable states; sorted, without repetitions |
| IrValidation.EnsureValid | crates/kr0ki-behavior/src/validation.rs:144-155 | accepts exactly the valid documents |
| IrValidation.AcceptedIsForest | crates/kr0ki-behavior/src/validation.rs:144-155 | the containment edges of an accepted document form a rooted forest over its nodes, with climbs bounded by the number of nodes |
| IrValidation.ForestDecides | crates/kr0ki-behavior/src/validation.rs:306-410 | given every other check, being accepted is equivalent to containment being a rooted forest: the ownership and cycle checks reject nothing more |
| IrValidation.CheckEdges | crates/kr0ki-behavior/src/validation.rs:306-401 | the edge loop with its id and owner maps: an error exactly when an edge is bad, repeated, or gives a child a second owner; the collected containment map is exact |
| IrValidation.ReportCycles | crates/kr0ki-behavior/src/validation.rs:402-410 | an error exactly when containment is cyclic |
| IrValidation.CheckSources | crates/kr0ki-behavior/src/validation.rs:200-229 | an error exactly when a source is malformed, repeated or has the wrong digest; the path map is exact |
| SourceText.RelativePathExactly | crates/kr0ki-behavior/src/validation.rs:34-39 | a path is accepted exactly when it is nonempty, has no backslash, colon or control character, and no stretch between its slashes, by positions in the path, is empty, one dot or two |
| IrValidation.CheckAnchor | crates/kr0ki-behavior/src/validation.rs:110-141 | an error exactly when the anchor is not a span of a known source |
| IrValidation.CheckDiagnostics | crates/kr0ki-behavior/src/validation.rs:230-243 | an error exactly when an extractor diagnostic is an error or malformed |
| IrValidation.CheckAnnotation | crates/kr0ki-behavior/src/validation.rs:275-303 | an error exactly when the anchor, path or text of the annotation is not what the source holds |
| SourceText.BoundaryExactly | crates/kr0ki-behavior/src/validation.rs:125-139 | the character boundaries are the end of the UTF-8 bytes of the text and the bytes that do not continue a character (section 3 of RFC 3629) |
| SourceText.SpanExactly | crates/kr0ki-behavior/src/validation.rs:284-303 | an annotation's text is what the source holds exactly when its span lies between boundaries and has the bytes of the text |
| IrValidation.CheckNodes | crates/kr0ki-behavior/src/validation.rs:244-305 | an error exactly when a node is malformed, unanchored or repeated; the node map is exact |
| IrValidation.LintNodes | crates/kr0ki-behavior/src/validation.rs:411-443 | adds exactly the warnings about loops without an exit edge and dispatches without a call edge, and no error |
| IrValidation.CheckMachines | crates/kr0ki-behavior/src/validation.rs:444-497 | an error exactly when a machine is repeated, structurally invalid, or badly anchored |
| MachineValidation.Validate | crates/kr0ki-behavior/src/validation.rs:502-624 | an error exactly when the machine is not valid, an unreachable-state warning exactly for the states no transition path reaches, findings sorted |
| MachineValidation.EnsureValid | crates/kr0ki-behavior/src/validation.rs:626-638 | accepts exactly the valid machines |
| MachineValidation.ReachableStates | crates/kr0ki-behavior/src/validation.rs:596-607 | the worklist computes exactly the states reachable by transitions from `initial` |
| MachineValidation.CheckStates | crates/kr0ki-behavior/src/validation.rs:513-524 | an error exactly when a state id is empty or repeated; the map keeps the last entry per id |
| MachineValidation.CheckTransitions | crates/kr0ki-behavior/src/validation.rs:534-595 | an error exactly when a transition is repeated, dangling, leaves a terminal state, or is an ambiguous unguarded duplicate |
| MachineValidation.WarnUnreachable | crates/kr0ki-behavior/src/validation.rs:608-621 | warns exactly about the states no transition path reaches and never adds an error |
| MachineRuntime.StateMachineRuntime.Step | crates/kr0ki-behavior/src/machine.rs:72-125 | the new state, trace, application state and result are those of the step function, on every path; what that function does is stated by the next three rows |
| MachineRuntime.StepSucceedsExactly | crates/kr0ki-behavior/src/machine.rs:72-125 | a step succeeds exactly when the state is not terminal, the selection picks a transition, and its effect, if it has one, goes through; it then moves to the target, adds exactly the entry of that transition to the trace, and leaves the application state as the effect made it |
| MachineRuntime.StepFailsExactly | crates/kr0ki-behavior/src/machine.rs:72-125 | a failed step stays where it is, changes the application state only by the effect that failed, and reports an error that is true, about this state, event, guard or effect |
| MachineRuntime.RunAppliesEffects | crates/kr0ki-behavior/src/machine.rs:72-125 | after any run the application state is that of the effects of the transitions attempted, applied in order to the initial one, and the state is where those that went through led |
| MachineRuntime.NewRuntime | crates/kr0ki-behavior/src/machine.rs:48-55 | a runtime is given exactly for valid machines, at `initial` with an empty trace |
| MachineRuntime.SelectMeaning | crates/kr0ki-behavior/src/machine.rs:80-104 | a transition is chosen exactly when no matching guard fails and exactly one matching transition is enabled, and it is that one |
| MachineRuntime.SelectPermuted | crates/kr0ki-behavior/src/machine.rs:80-104 | reordering the table never changes the transition chosen, and changes the error kind only when a guard fails beside two enabled transitions |
| MachineRuntime.OrderMatters | crates/kr0ki-behavior/src/machine.rs:80-104 | the error kind depends on the order of the table if and only if a guard fails while two transitions are enabled |
| MachineRuntime.OrderCanShow | crates/kr0ki-behavior/src/machine.rs:80-104 | in that situation one order reports the failing guard and another the ambiguity |
| MachineRuntime.AmbiguousExactly | crates/kr0ki-behavior/src/machine.rs:80-104 | a table in a given order reports an ambiguity if and only if two enabled transitions stand before the first one whose guard fails |
| MachineRuntime.StepReordered | crates/kr0ki-behavior/src/machine.rs:72-125 | one step is the same for every order of the table, errors up to their kind |
| MachineRuntime.RunReordered | crates/kr0ki-behavior/src/machine.rs:72-125 | every event sequence gives the same successes, states, traces and application state for every order of the table, and the same error kinds when no guard fails |
| MachineRuntime.StepTakes | crates/kr0ki-behavior/src/machine.rs:72-125 | a successful step takes a declared transition for the event out of a non-terminal state |
| MachineRuntime.StepCoherent | crates/kr0ki-behavior/src/machine.rs:72-125 | a step keeps the trace a path of declared transitions from `initial` to the current state; a failed step changes neither state nor trace |
| MachineRuntime.RunCoherent | crates/kr0ki-behavior/src/machine.rs:72-125 | over every run: the trace is such a path, only its last entry can be terminal, and the state is one the validation worklist calls reachable |
| MachineRuntime.StartCoherent | crates/kr0ki-behavior/src/machine.rs:48-55 | a new runtime satisfies that invariant |
| Normalize.Document.Normalize | crates/kr0ki-behavior/src/lib.rs:216-231 | the in-place sorts and dedups give the normal form |
| Normalize.NormalizedAscends | crates/kr0ki-behavior/src/lib.rs:216-231 | the normal form lists sources by path and nodes, edges, machines, states and transitions by id, in the character order of strings |
| Normalize.NormalizedLists | crates/kr0ki-behavior/src/lib.rs:216-231 | annotations and diagnostics come in the derived field-by-field orders, each once |
| BehaviorIr.DiagnosticOrder | crates/kr0ki-behavior/src/lib.rs:135-150 | the sort key of a diagnostic gives the derived order: code, then severity, message and anchor, an absent anchor first |
| Ordering.SortStable | crates/kr0ki-behavior/src/lib.rs:216-231 | elements with the same key keep their order |
| Normalize.NormalizeKeepsContent | crates/kr0ki-behavior/src/lib.rs:214-231 | the normal form is a reordering of its input (up to repeated annotations and diagnostics), for every document |
| Normalize.NormalizeIdempotent | crates/kr0ki-behavior/src/lib.rs:214-231 | normalizing twice is normalizing once, for every document |
| Normalize.VerdictKept | crates/kr0ki-behavior/src/validation.rs:144-497 | reorderings of a document get the same verdict |
| Normalize.NormalizeKeepsVerdict | crates/kr0ki-behavior/src/validation.rs:144-497 | `normalize` never changes the verdict of `ensure_valid` |
| Normalize.NormalFormIff | crates/kr0ki-behavior/src/lib.rs:207-231 | for a valid document, another has the same normal form if and only if it is a reordering of it |
| Normalize.NormalMachineRuns | crates/kr0ki-behavior/src/lib.rs:214-231 | sorting a machine as `normalize` does preserves every run of it: the same states, trace and application state, the same success or failure of every step, and the same kind of error when no guard can fail |
| Normalize.NormalizeShowsExactly | crates/kr0ki-behavior/src/lib.rs:214-231 | on a valid machine, `normalize`'s own order changes the kind of a step's selection if and only if two enabled transitions stand before the first failing guard in the table but not by id, or the other way round |
| Normalize.NormalizeCanShow | crates/kr0ki-behavior/src/lib.rs:214-231 | an input: a valid machine that reports the failing guard as declared reports an ambiguity once normalized |
| XmlEscape.EscapeOnePass | crates/kr0ki-behavior/src/machine.rs:128-138 | eight successive whole-string replacements equal one pass over the characters |
| XmlEscape.EscapedPlain | crates/kr0ki-behavior/src/machine.rs:128-138 | the output has no raw quote, apostrophe, angle bracket, tab, carriage return or line feed |
| XmlEscape.EscapeRoundTrip | crates/kr0ki-behavior/src/machine.rs:128-156 | line-end handling, attribute-value normalization and reference decoding (sections 2.11, 3.3.3, 4.1 and 4.6 of XML 1.0) give back the original, for exactly the strings of XML characters, which is the guard `to_scxml` applies |
| XmlEscape.ReadReference | crates/kr0ki-behavior/src/machine.rs:128-138 | an entity or character reference is read as the character it denotes |
| SyncEngine.DiffManaged | crates/kr0ki-core/src/sync_engine.rs:100-160 | the loops compute the diff, or every repeated identifier in order; `Reconcile.DiffInOrder` says what the changes are and in which order, and `Reconcile.CommitLeaves` what they do to every field |
| Reconcile.DiffInOrder | crates/kr0ki-core/src/sync_engine.rs:125-158 | the changes are one for each desired element not yet as desired, in the order of the desired set (a create with its whole payload if no element has its identifier, else a replacement of that element), followed by one delete for each element no longer wanted, in the order of identifiers |
| Reconcile.CommitLeaves | crates/kr0ki-core/src/sync_engine.rs:125-158 | the elements after a commit, field by field, for any desired set: those outside the prefix as they were; a wanted one untouched if every owned field is as desired, else with the owned fields as desired, every other field with its old value, its type, and nothing more; one created element for each desired one that was not there, with its type, identifier, alias and owned fields and nothing else; and no others |
| SyncEngine.IdentifierExactly | crates/kr0ki-core/src/sync_engine.rs:55-67 | an element is known by the string in its `identifier` field, and by the first string among its `aliasIds` only without one |
| SyncEngine.IndexExisting | crates/kr0ki-core/src/sync_engine.rs:104-112 | the index holds the last element per identifier, the duplicates are exact |
| SyncEngine.NoDuplicates | crates/kr0ki-core/src/sync_engine.rs:104-124 | duplicates are reported exactly when an identifier repeats on either side |
| Reconcile.DiffContract | crates/kr0ki-core/src/sync_engine.rs:100-160 | changes name only elements passed in; a create names none, and nothing is without both identity and payload |
| Reconcile.CommitReconciles | crates/kr0ki-core/src/sync_engine.rs:90-160 | for a desired set that suits (inside the prefix, owning no field the engine writes unless as the engine writes it): applying the diff makes the managed elements exactly the desired ones, leaves every other element as it was, and adds only managed elements |
| Reconcile.CommitReconcilesExactly | crates/kr0ki-core/src/sync_engine.rs:90-160 | for any desired set inside the prefix, on elements known by their `identifier` field: the managed part becomes the desired set if and only if the set suits |
| Reconcile.MatchesMeansNoChange | crates/kr0ki-core/src/sync_engine.rs:90-160 | a managed part that already matches a desired set inside the prefix gives an empty diff |
| Reconcile.SecondDiffEmpty | crates/kr0ki-core/src/sync_engine.rs:90-160 | for a desired set that suits, diffing again after the commit finds nothing to do |
| Reconcile.SecondDiffEmptyExactly | crates/kr0ki-core/src/sync_engine.rs:90-160 | for any desired set, on elements known by their `identifier` field: the second diff is empty if and only if the set suits |
| Reconcile.OutsideCreatedAgain | crates/kr0ki-core/src/change_service.rs:275-283 | a desired element outside the prefix is created by every proposal, whatever the server holds |
| Reconcile.ReservedNeverSettles | crates/kr0ki-core/src/sync_engine.rs:125-153 | an owned `@id` or `@type`, or an owned identifier that is another element's, is written again by every diff |
| Reconcile.ReconcilesExactly | crates/kr0ki-core/src/change_service.rs:588-605 | a changeset leaves everything else alone and reaches the desired set if and only if no id its creates are issued is in use |
| Reconcile.CollisionLoses | crates/kr0ki-core/src/change_service.rs:588-605 | a create issued an id in use loses its own element, the managed one it replaced, or an unmanaged one |
| Reconcile.CommitElements | crates/kr0ki-core/src/sync_engine.rs:90-160 | each managed element afterwards is a created one or an old one brought up to date, and each old one with a wanted identifier is there, brought up to date |
| Reconcile.PlanApplied | crates/kr0ki-core/src/sync_engine.rs:125-153 | the creates and updates, applied to the server, keep every untargeted element and add one element for each new identifier |
| Reconcile.DeletesApplied | crates/kr0ki-core/src/sync_engine.rs:154-158 | the deletes remove exactly the managed elements no longer wanted |
| Reconcile.FreshId | crates/kr0ki-core/src/change_service.rs:596-601 | an id the counter has not issued is not in use |
| ModelServer.InMemoryServer.Commit | crates/kr0ki-core/src/change_service.rs:581-614 | refused once after an injected conflict, refused on a stale `previous` when enforcing, otherwise one revision appended with the changes applied in order |
| ModelServer.InMemoryServer.ElementsAt | crates/kr0ki-core/src/change_service.rs:564-579 | the elements of the first commit with the id, or an error |
| ModelServer.InMemoryServer.Head | crates/kr0ki-core/src/change_service.rs:507-514 | the last commit's id |
| ModelServer.InMemoryServer.InjectConflictOnce | crates/kr0ki-core/src/change_service.rs:503-505 | sets the flag on which `Commit` refuses once, and changes nothing else |
| ModelServer.CommitIdInjective | crates/kr0ki-core/src/change_service.rs:610-612 | commit ids are never reused along a chain |
| ChangeProtocol.InitialInv | crates/kr0ki-core/src/change_service.rs:227-240 | the invariant holds of a new service over an empty server |
| ChangeProtocol.StepKeeps | crates/kr0ki-core/src/change_service.rs:247-435 | every atomic step of any caller, outside writer or fault keeps the invariant, if the server enforces `previousCommit`, or every writer uses the service, no write lands after its caller gave up on it, and all names of a branch share one lock |
| ChangeProtocol.RunKeeps | crates/kr0ki-core/src/change_service.rs:247-435 | hence every interleaving of any number of callers does |
| ChangeProtocol.HolderAlone | crates/kr0ki-core/src/change_service.rs:247-255 | no two callers hold the lock of one branch name |
| ChangeProtocol.WriteMoved | crates/kr0ki-core/src/change_service.rs:395-411 | a write that is appended lands on the head the proposal names as its base |
| ChangeProtocol.LandKeeps | crates/kr0ki-sysmlv2-client/src/lib.rs:82-86 | a write that reaches the server after its caller timed out keeps the invariant on a server that enforces `previousCommit` |
| ChangeProtocol.HeadPosition | crates/kr0ki-core/src/change_service.rs:395-402 | a head value determines its position in the chain |
| ChangeProtocol.ComputedAtHead | crates/kr0ki-core/src/change_service.rs:266-283 | a proposal whose base is the head was computed from the elements at the head |
| ChangeSafety.SuccessOnBase | crates/kr0ki-core/src/change_service.rs:361-435 | in every reachable state, every reported success was written on a head equal to its proposal's base and carries the proposed changes |
| ChangeSafety.OneSuccessPerBase | crates/kr0ki-core/src/change_service.rs:361-435 | at most one call succeeds on each base revision of a commit chain, by whatever names the callers know it |
| ChangeSafety.ChangeCommitsOnce | crates/kr0ki-core/src/change_service.rs:361-435 | no change id is committed twice, whoever proposes it again, if the hash of the change ids in play has no collision |
| ChangeSafety.FailureWroteNothing | crates/kr0ki-core/src/change_service.rs:361-435 | a caller told StaleBase, ProposalMismatch, UnknownChange, NoChanges or a sync error, and every proposer, wrote no revision on any chain |
| ChangeSafety.OneRevisionEach | crates/kr0ki-core/src/change_service.rs:361-435 | whatever it was told, a caller wrote at most one revision |
| ChangeSafety.EveryServiceRevision | crates/kr0ki-core/src/change_service.rs:361-435 | every revision the service wrote is an issued proposal on its own base, also when the reply was lost |
| ChangeSafety.HistoryGrows | crates/kr0ki-core/src/change_service.rs:581-614 | no step rewrites the history of a chain, under any configuration |
| ChangeSafety.RevisionReconciledExactly | crates/kr0ki-core/src/change_service.rs:266-342 | in every run, outside writers and late writes included: a revision realizing a proposal whose desired set suits leaves everything else alone and reaches that set if and only if no id its creates were issued was in use before it |
| ChangeSafety.SuccessReconciles | crates/kr0ki-core/src/change_service.rs:266-342 | while outside updates name existing elements, a successful commit leaves the base's elements with exactly the proposed changes: elements outside the managed prefix unchanged, added elements under ids no earlier revision used, the desired set reached, and nothing left to propose |
| ChangeLimits.ReconciledExactlyWithin | crates/kr0ki-core/src/change_service.rs:361-435 | every success of every run is reconciled in that sense if and only if there are no outside writers, and the server checks `previousCommit`, or no write lands late and all names of a branch share one lock |
| ChangeLimits.PlantingUnreconciled | crates/kr0ki-core/src/change_service.rs:596-606 | the run that shows it: an outside update of an absent element plants an id, a caller proposes and commits undisturbed, and its created element replaces the planted one |
| ChangeLimits.SafeExactlyWhenGuarded | crates/kr0ki-core/src/change_service.rs:19-30 | every run is safe if and only if the server checks `previousCommit`, or there are no outside writers, no write lands after its caller gave up on it, and any two names of one branch have the same lock |
| ChangeLimits.IntrusionUnsafe | crates/kr0ki-core/src/change_service.rs:19-30 | an outside write between head check and commit: the success reported next is not on its base |
| ChangeLimits.TwoNamesUnsafe | crates/kr0ki-core/src/change_service.rs:247-255 | two callers of one service naming one branch in ways with different locks, such as its id and no id: both pass the head check, and the second success is not on its base |
| ChangeLimits.LateLandingUnsafe | crates/kr0ki-core/src/change_service.rs:127-137 | a caller times out on its commit and frees the lock; its write lands between the next caller's head check and write, whose success is not on its base |
| ChangeCalls.CommitRefines | crates/kr0ki-core/src/change_service.rs:361-435 | a commit call nobody interferes with runs the protocol's steps to the outcome, server and proposals of the sequential commit |
| ChangeCalls.ProposeRefines | crates/kr0ki-core/src/change_service.rs:266-342 | the same for a propose call |
| ChangeCalls.SucceedsExactly | crates/kr0ki-core/src/change_service.rs:361-435 | a lone commit succeeds exactly when the change is known, the expected revision is its base and the head, and no conflict is injected |
| ChangeCalls.AnswersExactly | crates/kr0ki-core/src/change_service.rs:361-435 | each answer of a lone commit is given exactly when it is due, with the base, head or commit id it is about |
| ChangeCalls.CommitEffect | crates/kr0ki-core/src/change_service.rs:395-420 | a success adds the one revision it reports and uses up exactly its proposal, so that a repeated call is told the change is unknown; a failure changes neither chain nor proposals |
| ChangeCalls.ProposeEffect | crates/kr0ki-core/src/change_service.rs:266-342 | a lone propose keeps a proposal exactly when the diff of the desired set with what is at the head is not empty, on that head, with those changes, and leaves every other proposal alone; its errors are those of the diff |
| ChangeCalls.ProposeCommitPropose | crates/kr0ki-core/src/change_service.rs:259-435 | proposing and committing on the proposal's base succeeds, and proposing the same again then finds no changes, on the revision just written, if and only if the desired set suits |
| ChangeCalls.LoserIsTold | crates/kr0ki-core/src/change_service.rs:378-392 | of two callers that both looked up a proposal before the lock, the second to take it is told that the change is unknown, and writes nothing |
| ChangeCalls.ChangeService.Propose | crates/kr0ki-core/src/change_service.rs:266-342 | the method computes the sequential propose and the solo run of its steps; the server is only read |
| ChangeCalls.ChangeService.Validate | crates/kr0ki-core/src/change_service.rs:344-358 | an unknown change is an error; otherwise both revisions are reported, and the proposal is called current exactly when a commit on its base would go through |
| ChangeCalls.ChangeService.Commit | crates/kr0ki-core/src/change_service.rs:361-435 | the method computes the sequential commit and the solo run of its steps |
| Rfc3339.DateIsRight | crates/kr0ki-core/src/audit_log.rs:324-339 | for every number of seconds the date is a valid Gregorian date whose day count from 1970-01-01, counted year by year and month by month, is exactly `secs / 86400` |
| Rfc3339.TextReadsBack | crates/kr0ki-core/src/audit_log.rs:324-345 | for every number of seconds the text reads as year, month, day, hour, minute and second, which are in range and make up the seconds again |
| Rfc3339.ConsecutiveDays | crates/kr0ki-core/src/audit_log.rs:324-339 | consecutive days get consecutive dates under the leap-year rule |
| Rfc3339.CalendarWalk | crates/kr0ki-core/src/audit_log.rs:324-339 | the closed formula gives the date reached by walking the calendar day by day from 1970-01-01 |
| Rfc3339.LaterDateCountsMore | crates/kr0ki-core/src/audit_log.rs:324-339 | counting days preserves the order of dates, so the date is the only one with its day number |
| Rfc3339.NextDayCounts | crates/kr0ki-core/src/audit_log.rs:324-339 | the day after has the next day number |
| Rfc3339.EraSplit | crates/kr0ki-core/src/audit_log.rs:327-333 | the year-of-era formula and the day of that year are right for every day of the 400-year era |
| Rfc3339.NoOverflow | crates/kr0ki-core/src/audit_log.rs:324-339 | for every `u64`, no intermediate value leaves `i64` |
| Rfc3339.OrderExactlyTo9999 | crates/kr0ki-core/src/audit_log.rs:340-345 | timestamps below a bound sort as their seconds do if and only if the bound is within year 9999 (sections 5.1 and 5.6 of RFC 3339) |
| Rfc3339.TextOrder | crates/kr0ki-core/src/audit_log.rs:340-345 | up to year 9999 the text has 20 characters and earlier times sort first |
| Rfc3339.Year10000SortsBefore9999 | crates/kr0ki-core/src/audit_log.rs:340-345 | the last second of 9999 does not sort before the first of 10000 |
| AuditLog.AuditLog.Open | crates/kr0ki-core/src/audit_log.rs:143-172 | resumes after the last line of the file, or reports it malformed |
| AuditLog.AuditLog.Append | crates/kr0ki-core/src/audit_log.rs:180-221 | one line appended and the tail moved on, or an error; the record returned has this draft, this time, the next number and the hash of the line before; a failed write may have left nothing, part of the line, or all of it, and every append after it is refused |
| AuditLog.LinesSayWhatWasAppended | crates/kr0ki-core/src/audit_log.rs:180-221 | after any run in which no write stops inside its line, the lines read back as records numbered by their place, carrying in order the draft and time of the appends whose line was written; the records returned carry those of the appends reported as written |
| AuditLog.AuditLog.VerifyFile | crates/kr0ki-core/src/audit_log.rs:253-289 | the verdict on the lines of the file |
| AuditLog.Verify | crates/kr0ki-core/src/audit_log.rs:255-289 | returns the count of a chained log, or the first line that breaks the chain and why |
| AuditLog.OneVerdict | crates/kr0ki-core/src/audit_log.rs:255-289 | a log has only one such verdict |
| AuditLog.BreakIsTrue | crates/kr0ki-core/src/audit_log.rs:255-289 | a reported break is true: every line before it is a record in its place holding the hash before it, and this one is not a record, or has the number found instead of the one expected, or does not hold that hash |
| AuditLog.ReadLinesExactly | crates/kr0ki-core/src/audit_log.rs:292-311 | the lines read are exactly the stretches between line feeds that are not blank, in order, each without the carriage return before its line feed |
| AuditLog.LineAppended | crates/kr0ki-core/src/audit_log.rs:292-311 | appending a record's line adds exactly that line to what is read back |
| AuditLog.EveryRunVerifies | crates/kr0ki-core/src/audit_log.rs:143-289 | after any run of appends and reopenings in which no write on a healthy log stops inside its line: verification accepts; the lines are those of the records kept, in order; the reported ones among them are exactly the records the appends returned, in order; and no more are kept than were tried |
| AuditLog.TornExactly | crates/kr0ki-core/src/audit_log.rs:143-289 | every continuation of a run without torn writes is accepted if and only if no write of the run stopped inside its line on a healthy log |
| AuditLog.RuinedForGood | crates/kr0ki-core/src/audit_log.rs:143-289 | a log broken in a complete line, or at a last line that cannot be resumed from, stays broken there whatever is written later |
| AuditLog.TornWriteBreaks | crates/kr0ki-core/src/audit_log.rs:202-217 | after a write that stops inside its line, a reopening and an append, the log breaks at that line whatever follows; when only the line feed is lost, that append is reported as a success although its record cannot be read |
| AuditLog.BreakPersists | crates/kr0ki-core/src/audit_log.rs:180-289 | appending never repairs a broken log: it keeps breaking at the same place |
| AuditLog.LastLineFixesAll | crates/kr0ki-core/src/audit_log.rs:255-289 | two accepted logs ending in the same line are identical, when their lines have no hash collision |
| AuditLog.ChangedLineBreaks | crates/kr0ki-core/src/audit_log.rs:255-289 | a log that first differs from an accepted one at `i` and keeps line `i + 1` breaks at line `i + 1` or `i + 2`, and which of the two |
| AuditLog.EditUndetectedExactly | crates/kr0ki-core/src/audit_log.rs:8-13 | an edit goes unnoticed if and only if it is of the last line and is itself the right record for that place |
| AuditLog.LastRecordEditable | crates/kr0ki-core/src/audit_log.rs:8-13 | every nonempty log has such an edit |
| AuditLog.RearrangedExactly | crates/kr0ki-core/src/audit_log.rs:8-13 | lines taken from an accepted log in any order and number are accepted if and only if they are its first lines; otherwise the break is at the first line out of place and names where it came from |
| AuditLog.RemovalUndetectedExactly | crates/kr0ki-core/src/audit_log.rs:8-13 | removing any set of lines goes unnoticed if and only if only last lines are removed; otherwise the first gap is reported |
| AuditLog.ReorderingDetected | crates/kr0ki-core/src/audit_log.rs:8-13 | every reordering other than none is reported, at the first line out of place |
| AuditLog.SingleMoves | crates/kr0ki-core/src/audit_log.rs:8-13 | exchanging two records, taking out one that is not the last, and moving one to the front are reported at the first place they change |
| Scanner.Tokenise | crates/kr0ki-core/src/assurance_trace.rs:139-202 | the tokenizer loops compute the token sequence of any text, unterminated comments, strings and names included |
| Scanner.ScanDeclarations | crates/kr0ki-core/src/assurance_trace.rs:204-244 | the scope-stack loop computes the qualified names of any token sequence |
| ScannerExact.LayoutTokens | crates/kr0ki-core/src/assurance_trace.rs:139-202 | any layout of lexemes, with white space and terminated comments between them, tokenizes to exactly those lexemes |
| ScannerExact.DeclNames | crates/kr0ki-core/src/assurance_trace.rs:204-244 | scanning the tokens of declarations gives their names in preorder and leaves nothing pending |
| ScannerExact.ScanIsExact | crates/kr0ki-core/src/assurance_trace.rs:129-244 | scanning any layout of any tree of plain declarations gives each name under its parent's qualified name and `::`, in preorder, anonymous levels adding no segment |
| ScannerExact.ScanComplete | crates/kr0ki-core/src/assurance_trace.rs:129-244 | no declared name is missed if and only if none is a declaration keyword or `def` |
| Scanner.QualifiedInside | crates/kr0ki-core/src/assurance_trace.rs:208-212 | a name in an inner scope is the qualified name of that scope, `::` and the name; an anonymous scope adds nothing |
| ScannerExact.StringLiteral | crates/kr0ki-core/src/assurance_trace.rs:158-167 | a string literal, whatever is escaped in it, is one token that names nothing; an unclosed one takes the rest of the text |
| ScannerExact.QuotedKeywordDropped | crates/kr0ki-core/src/assurance_trace.rs:129-244 | the text `part 'part';` declares a name and yields none |
| ScannerExact.GapsIrrelevant | crates/kr0ki-core/src/assurance_trace.rs:139-161 | white space and terminated comments between tokens change nothing |
| ReqifExport.BuildLayer | crates/kr0ki-core/src/reqif_export.rs:291-391 | the loops declare exactly the exportable keys that occur, as enumerations when every value is in the vocabulary and as strings otherwise |
| ReqifDecode.DeclaredExactly | crates/kr0ki-core/src/reqif_export.rs:293-366 | a key is declared exactly when it occurs and can be exported, under its own name; as an enumeration of exactly its vocabulary, in order, when all its values are in it, and as a string otherwise |
| ReqifExport.ValuesByKey | crates/kr0ki-core/src/reqif_export.rs:293-300 | which exportable keys occur, and with exactly which values |
| ReqifExport.ToSpecObject | crates/kr0ki-core/src/reqif_export.rs:393-435 | the values written for a requirement |
| ReqifExport.ExportBundle | crates/kr0ki-core/src/reqif_export.rs:75-148 | the whole bundle: every requirement as an object, exactly the asserted requirement-to-requirement relations |
| ReqifDecode.EveryAttributeOnce | crates/kr0ki-core/src/reqif_export.rs:393-435 | each exportable attribute is written exactly once, in key order, and decodes through its declared definition to the same key and value; the statement comes first |
| ReqifDecode.AttributeDecodes | crates/kr0ki-core/src/reqif_export.rs:291-425 | one value is written per declared attribute and the enumeration lookup never misses |
| ReqifDecode.IdsNeverClash | crates/kr0ki-core/src/reqif_export.rs:302-366 | no two attribute definitions, and no two data types, share an identifier |
| ReqifDecode.EnumValuesNeverClash | crates/kr0ki-core/src/reqif_export.rs:311-333 | no two values of any two enumerations share an identifier |
| ReqifExport.EnumValueIdInjective | crates/kr0ki-core/src/reqif_export.rs:311-315 | an enumeration value id determines its key and value, because exportable keys have no dash |
| ReqifCompare.Compare | crates/kr0ki-core/src/reqif_roundtrip.rs:170-378 | the reported differences are exactly the ways the reimported graph departs from what the export carries; the unsupported and normalised lists are exactly the noted ids, sorted and without repetitions; the counters are exact |
| ReqifMeaning.DifferencesExactly | crates/kr0ki-core/src/reqif_roundtrip.rs:170-378 | a difference is listed exactly when what it says is so: which requirement or relation is missing, extra, lost or added, and which field or attribute had which value before and which after |
| ReqifMeaning.NotesExactly | crates/kr0ki-core/src/reqif_roundtrip.rs:209-319 | an id is noted as unsupported, under each kind, exactly when the original has such content |
| ReqifMeaning.AdditionsExactly | crates/kr0ki-core/src/reqif_roundtrip.rs:221-240 | an importer addition is listed exactly for the requirements that show it |
| ReqifMeaning.FoundExactly | crates/kr0ki-core/src/reqif_roundtrip.rs:186-193 | the requirements counted as compared are those with a counterpart |
| ReqifMeaning.AttributesCounted | crates/kr0ki-core/src/reqif_roundtrip.rs:209-242 | the attributes counted are each exportable one of each requirement with a counterpart |
| ReqifMeaning.CarriedCounted | crates/kr0ki-core/src/reqif_roundtrip.rs:296-313 | the relations counted are those carried |
| ReqifCompare.CompareRequirement | crates/kr0ki-core/src/reqif_roundtrip.rs:186-275 | the part of one requirement |
| ReqifCompare.CompareRelations | crates/kr0ki-core/src/reqif_roundtrip.rs:290-340 | the part of the relations |
| ReqifCompare.SortDedup | crates/kr0ki-core/src/reqif_roundtrip.rs:350-376 | sorting and deduplicating a list of ids gives its set in order |
| ReqifRoundTrip.LosslessExactly | crates/kr0ki-core/src/reqif_roundtrip.rs:121-134 | with unique ids, no difference is reported if and only if the graphs agree on requirement ids, titles, texts, exportable attributes (but for the two importer additions) and carried relations |
| ReqifRoundTrip.NoDiffMeansAgree | crates/kr0ki-core/src/reqif_roundtrip.rs:194-262 | the same for one requirement |
| ReqifRoundTrip.RelationsClassified | crates/kr0ki-core/src/reqif_roundtrip.rs:296-313 | every original relation is in exactly one of compared, not asserted, or leaving the requirements |
| ReqifRoundTrip.RoundTripIsLossless | crates/kr0ki-core/src/reqif_roundtrip.rs:151-168 | exporting any graph with unique ids and reading it back succeeds, gives no difference, and compares every requirement |
| ReqifRoundTrip.RequirementReadsBack | crates/kr0ki-core/src/reqif_export.rs:393-435 | a requirement reads back with its id, title, text and exportable attributes |
| ReqifRoundTrip.RelationsReadBack | crates/kr0ki-core/src/reqif_export.rs:437-458 | the carried relations read back with their ids, kinds and endpoints |
| StoredBaseline.UnescapeEscape | crates/kr0ki-core/src/flexo_reqif_sync.rs:39-45 | unescaping undoes escaping for every string |
| StoredBaseline.PrefixIsOwn | crates/kr0ki-core/src/flexo_reqif_sync.rs:47-55 | a baseline's prefix matches an identifier exactly when it is one of its own |
| StoredBaseline.IdentifierInjective | crates/kr0ki-core/src/flexo_reqif_sync.rs:52-55 | different requirements of a baseline have different identifiers |
| StoredBaseline.Rebuild | crates/kr0ki-core/src/flexo_reqif_sync.rs:209-287 | the loop rebuilds the graph or stops at the first malformed element |
| StoredBaseline.ReadExactly | crates/kr0ki-core/src/flexo_reqif_sync.rs:232-277 | an element is read exactly when its provenance, name and text decode and its attributes, evidence and relations decode or are absent; each comes back from its own field, and what is absent comes back empty |
| StoredBaseline.TextExactly | crates/kr0ki-core/src/flexo_reqif_sync.rs:167-189 | a stored text is a string as it is, or a list of strings and nothing else, put together as lines |
| StoredBaseline.LinesBack | crates/kr0ki-core/src/flexo_reqif_sync.rs:167-189 | lines put together are the lines again when split at line feeds |
| StoredBaseline.DroppedRefused | crates/kr0ki-core/src/flexo_reqif_sync.rs:239-246 | fetching fails when an element of the baseline kept neither its `identifier` nor its provenance |
| StoredRoundTrip.RequirementReadsBack | crates/kr0ki-core/src/flexo_reqif_sync.rs:232-277 | a stored requirement is read back with every field, and its relations with its own provenance |
| StoredRoundTrip.BaselineRoundTrip | crates/kr0ki-core/src/flexo_reqif_sync.rs:209-287 | from any elements that hold the baseline, in any order and among any others: the requirements sorted by id, exactly the asserted relations whose source is a requirement, and the baseline with the first import digest held |
| StoredRoundTrip.CreatedStores | crates/kr0ki-core/src/flexo_reqif_sync.rs:67-121 | the element created for a requirement holds all its fields |
| StoredRoundTrip.OtherBaselinesIgnored | crates/kr0ki-core/src/flexo_reqif_sync.rs:214-219 | elements of other baselines are never read |
| StoredOnServer.DigestReturnsExactly | crates/kr0ki-core/src/flexo_reqif_sync.rs:97-121 | the baseline comes back with the graph's own import digest if and only if it has one, or no element already stored for one of its requirements holds one |
| StoredOnServer.OldDigestReturns | crates/kr0ki-core/src/flexo_reqif_sync.rs:97-121 | a graph with an import digest is stored, then one of the same baseline without, sharing a requirement: what is fetched is the second graph with the digest of the first |
| StoredOnServer.StoreThenFetch | crates/kr0ki-core/src/flexo_reqif_sync.rs:123-142 | committing the managed diff for a graph to the model server and rebuilding gives the graph back, whatever else the project holds and whatever was stored before |
| RenderCache.RenderService.RenderText | crates/kr0ki-core/src/lib.rs:149-180 | answer and files are those of one cached request |
| RenderCache.RenderService.RenderModel | crates/kr0ki-core/src/lib.rs:182-220 | the same for a model request |
| RenderCache.RenderService.RenderWithFallback | crates/kr0ki-core/src/lib.rs:87-102 | the backend's own bytes; or, exactly when it refuses PNG as a bad source, the rasterized bytes of its SVG; or the error of the call that failed |
| RenderCache.RenderBytesExactly | crates/kr0ki-core/src/lib.rs:87-102 | the same as two equivalences in terms of the backend's calls only: which bytes are drawn, and which error is given |
| RenderCache.EveryAnswerIsDrawn | crates/kr0ki-core/src/lib.rs:149-220 | in any sequence of requests from an empty cache, every answer has bytes the backend draws for some request of the sequence with the same key and output, and every error is that of a call made for this request |
| RenderCache.EveryAnswerIsItsOwn | crates/kr0ki-core/src/lib.rs:149-220 | where key and output determine format and source, an answer's bytes are what the backend draws for the very request, hit or miss |
| RenderCache.FsCache.GetRaw | crates/kr0ki-core/src/cache.rs:158-166 | the stored bytes, a miss, or an I/O error |
| RenderCache.FsCache.PutRaw | crates/kr0ki-core/src/cache.rs:168-180 | one entry replaced, or nothing |
| RenderCache.PathInjective | crates/kr0ki-core/src/cache.rs:149-152 | a cache path determines its key and extension |
| RenderCache.TextAndModelApart | crates/kr0ki-core/src/cache.rs:58-113 | with plain fields, a text key and a model key are never hashes of the same bytes |
| RenderCache.PreimageDetermines | crates/kr0ki-core/src/cache.rs:58-113 | two requests with plain fields hash the same bytes if and only if all fields of their keys agree |
| RenderCache.SeparatorInViewKind | crates/kr0ki-core/src/cache.rs:76-80 | a view kind with a separator in it: a model request is answered with a text request's diagram, right only when both draw the same |
| RenderCache.ServeTransparent | crates/kr0ki-core/src/lib.rs:149-220 | among requests whose key and output determine format and source: an answer is the uncached render's, the cache stays faithful, and nothing is stored on failure |
| RenderCache.TransparentExactly | crates/kr0ki-core/src/lib.rs:149-220 | for any set of requests: every sequence over it is answered as without the cache, by every backend, if and only if any two with the same key and output have the same format and source |
| RenderCache.TransparentByPreimage | crates/kr0ki-core/src/lib.rs:149-220 | the same in terms of the bytes hashed, where these do not collide |
| RenderCache.CacheIsTransparent | crates/kr0ki-core/src/lib.rs:149-220 | in particular, starting from an empty cache, for requests with plain fields whose source is a function of the fields of the key |
| RenderCache.SnapshotViewsShareAnswer | crates/kr0ki-server/src/app.rs:647-720 | two views of one snapshot: the second request is answered with the first view's diagram, right only when both draw the same |

## Left out

- HTTP clients and servers, Kroki rendering, SVG rasterizing, retrying syncs and model fetching: I/O and foreign libraries.
- The document structure of `to_scxml`: only its escaping of attribute values and its character guard are modelled.
- `canonical_json`, `digest` and `stable_id`: JSON text and SHA-256; `normalize`, which decides the canonical form, is modelled.
- Change summaries and `open_changes`: read-only views of the stored proposals.
- The `u32` wrap-around of the in-memory server's element counter, and its panic on an element whose `@type` is not a string.
- Lock fairness: a caller may wait forever, and no liveness is claimed beyond `ChangeCalls.SucceedsExactly`. A cancelled call, or one cut off by a restart, is a call that ends without reaching the server, or whose write is lost, applied or late; a restart also forgets proposals, which refuses more.
- A default branch that changes while the service runs, replicas that answer with an old head, and requests that the network delivers twice.
- ChangeSafety.SuccessReconciles: assumes outside writers update only elements that exist; `ChangeLimits.ReconciledExactlyWithin` says for which configurations that can fail, and `ChangeSafety.RevisionReconciledExactly` needs no such assumption.
- `resolve_head` on a server that reports no default branch, where the newest commit of the whole project counts as the head: a name stands for one chain here.
- Reconcile.CommitReconciles: for desired sets that suit; `Reconcile.CommitReconcilesExactly` shows that others inside the prefix fail.
- Reconcile.MatchesMeansNoChange: for desired sets inside the prefix; `Reconcile.OutsideCreatedAgain` shows that others never give an empty diff.
- Reconcile.SecondDiffEmpty: for desired sets that suit; `Reconcile.SecondDiffEmptyExactly` has the condition.
- Reconcile.SecondDiffEmptyExactly: assumes that managed elements are known by a string `identifier` field and that an owned `identifier` is a string; elements known by their aliases only, or given an identifier that is no string, are left out.
- Reconcile.CommitReconcilesExactly: the same assumptions.
- ChangeCalls.ProposeCommitPropose: assumes what `Reconcile.SecondDiffEmptyExactly` assumes, and element ids the counter has issued.
- ChangeCalls.LoserIsTold: follows the two calls one after the other; `ChangeSafety` covers every interleaving.
- ChangeSafety.ChangeCommitsOnce: assumes no hash collision among the proposals issued.
- Concurrent writers of one audit file, and writes that stop inside a multi-byte character; `query` and `read_all` are filters over the same lines.
- AuditLog.EveryRunVerifies: starts from an empty file; for writes that stop inside a line see `AuditLog.TornExactly`; sequence numbers are unbounded, where the source has `u64`.
- AuditLog.TornExactly: assumes that no proper beginning of a serialized record, and no record followed by a beginning of another, parses as a record, as with JSON objects; so does `AuditLog.TornWriteBreaks`.
- Byte offsets inside multi-byte characters in the scanner: characters stand for bytes, and bytes outside ASCII only separate tokens.
- `resolve_links` and the other consumers of scanned names: lookups over sets.
- Declarations with specialization, redefinition or values: the scanner makes no promise of exactness for them.
- ReqIF XML text, namespaces and the real importer, which is not part of this model: `ReqifRoundTrip` reads each value under the normalized name of its definition and adds `text` and, when absent, `subtypes`.
- ReqifRoundTrip.RoundTripIsLossless: assumes that lower-casing `Text` and `subtypes` gives `text` and `subtypes`.
- ReqifCompare.Compare: states which differences are reported, not the order of the list.
- The wording of notes, findings and error messages: findings keep the data the messages are built from.
- StoredOnServer.StoreThenFetch: assumes a server that keeps the extension fields; `StoredBaseline.DroppedRefused` says what happens on one that drops them.
- RenderCache.CacheIsTransparent: assumes plain fields and a source that is a function of the fields of the key, which the snapshot route does not give; `RenderCache.TransparentExactly` has the exact condition.
- RenderCache.TransparentExactly: a backend is a function of its inputs; one that changes over time is not modelled.
- Temporary files, eviction and concurrent renders of one key: an entry is replaced in one step.
- The KubeDiagrams cache key: a third key of the same shape under another domain prefix.
- Kubernetes, b00t, RDF and Rust lifting, rule evaluation, schema and tool tables: per-field extraction or finite data.
