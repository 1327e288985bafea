# LinkRPC: a verified model of its schemas, codecs and daemon state machines

This Dafny project models the parts of LinkRPC that carry the most state and branching, and proves
what they are for. `dafny verify dfyconfig.toml` checks everything.

- **Schemas and errors (Rust).** `Validator` is the recursive reading of JSON-Schema validation:
  issues in order, references cut off by the set of names active at a node. `ValidatorMachine` is the
  explicit-stack loop with its work stack, results stack and active set; it terminates on every input
  and returns exactly those issues. `SchemaMeaning` proves that the loop check decides the least
  meaning of `$ref`, and `SchemaKeywords` spells that meaning out keyword by keyword
  (`JsonEquality` says what equal values are, `ContractExamples` takes the schemas of the repository's own test cases);
  `SchemaParts` says which positions of a schema are schemas. `NodePointers`
  and `IssuePaths` prove that issue paths are true JSON Pointers (sections 3 and 4 of RFC 6901) and
  that what is reported there is true, and `IssuesComplete` that everything that is wrong is
  reported. `Scoping` proves that prefixing component names keeps
  validation, and `ScopingExact` when not.
  `ErrorCodec`, `ErrorRoundTrip` and `ErrorDerive` are the application-error codec (the error object
  is that of section 5.1 of JSON-RPC 2.0), its round trips, and the declaration checks of the derive
  that establish what they need; `ErrorExactness` says exactly what is encoded and decoded and which
  issues there are otherwise, and `ScopedErrors` that a scoped contract does the same.
- **Suggestions (TypeScript).** `Levenshtein` proves that the single overwritten row computes the
  length of a shortest edit script; `Ranking` that the ranking is a stable, thresholded top-k.
- **Configuration and reconciliation (TypeScript).** `StableKeys` proves the canonical serializer
  injective up to member order; `ServiceConfig` says what a change classification means;
  `Reconcile` which supervisors survive a configuration, and when it shows.
- **State machines between awaits (TypeScript).** `Supervision` and `SupervisionCalls` (with the class
  in `ConnectionSupervisors`), `Endpoints`, `EndpointSafety`, `EndpointOutcomes` and `EndpointRestore`
  (class in `ManagedEndpoints`) and
  `LinkSetup` (class in `PeerLinks`): an `await` is an interleaving point, what may happen next is an
  event, and the theorems are about all runs. Each class has the source's fields and runs the code
  between two awaits; its `React` method is proved to be one step of the machine.
- **Explaining and logs (TypeScript).** `Explaining`, `ExplainingExact`, `ExplainingComplete`,
  `ExplainingPaths`, `ExplainingEnds`, `ExplainValidation` and `Lowering`: the path-reporting walker finds nothing exactly
  in values that match and else everything that is wrong, it ends unless references loop at one place, its paths lead to what is wrong,
  and a lowered value is matched only by itself. `LogLines` and `LogBuffers`: the bounded buffer and
  when chunking does not matter.

Some properties that one might expect hold of the code only under a condition, which is proved in both
directions: scoping changes the meaning of an unresolved reference that is named like a component
after scoping (`CaptureChangesMeaning`, `ContractKeepsMeaning`); a terminated line
longer than the limit depends on chunking (`LongLineShows`, `ChunkIndependence`); a persistent endpoint
that was saved but did not start, or whose replacement could not be made, stays in the saved file
(`UndoneCreateStaysSaved`, `UnmadeReplacementStaysSaved`, `FileFollows`). While a `dispose` of a
supervisor is unfinished, a sync, or an update that enables, that meets status `stopped` or `failed`
leaves an attempt behind; every other overlap is harmless (`OverlapsExactly`, `OverlapLeavesAnAttempt`,
`NothingLeaks`). A configured service whose supervisor cannot be made, such as one with an endpoint of a
kind that cannot be connected to, makes an apply reject: a new one is then missing, and a changed one
leaves its disposed supervisor in the map, which going back does not repair (`AppliesExactly`,
`DeadExactly`, `GoingBackStaysDead`).

Where documentation and code disagree, the code is followed: `LogBuffer.lines(0)` returns every held
line, since `slice(-0)` does; `additionalProperties`, `items` and the other keywords of a schema with
`$ref` are ignored.

## Model

| member | source | states |
|---|---|---|
| `Pointers.EscapeRoundTrip` | rust/crates/linkrpc/src/application_error.rs:414-416 | decoding an escaped key gives the key back, and an escaped key has no separator |
| `Pointers.ComponentRefRoundTrip` | rust/crates/linkrpc/src/schema/interface_schema.rs:32-53 | the name of a component reference is read back from it, for every name |
| `Pointers.UnescapeExactly` | rust/crates/linkrpc/src/schema/interface_schema.rs:34-47 | the decoder accepts exactly the encodings of a key: `~` as `~0`, and `/` as it is or as `~1` |
| `Pointers.ComponentRefNameExactly` | rust/crates/linkrpc/src/schema/interface_schema.rs:32-48 | a reference names a component exactly if it is the literal prefix and an encoding of the name |
| `JsonEquality.EqualIsAlike` | rust/crates/linkrpc/src/application_error.rs:493-502 | two values are equal exactly if they show the same at every node: scalars, array lengths, objects, or nothing; the order of members does not count |
| `Validator.GoalsSmaller` | rust/crates/linkrpc/src/application_error.rs:503-624 | everything a node hands on is a smaller task: a child of the value, or the same value with a smaller schema |
| `ValidatorMachine.Validate` | rust/crates/linkrpc/src/application_error.rs:418-633 | the loop ends on every value, schema and component map, never splits off more results than there are, leaves one, and that one is the issue list of the recursive validator, in order |
| `ValidatorMachine.RunCheck` | rust/crates/linkrpc/src/application_error.rs:459-630 | one check keeps the invariant (the active set is the set of references still to be left, each once; the stack still computes the root's issues) and shrinks the work left |
| `ValidatorMachine.Combine` | rust/crates/linkrpc/src/application_error.rs:439-457 | a merge or union finds the results it takes, keeps the invariant and shrinks the work left |
| `ValidatorMachine.Enter` | rust/crates/linkrpc/src/application_error.rs:470-482 | entering a component adds one active key, keeps the invariant and shrinks the work left |
| `ValidatorMachine.Leave` | rust/crates/linkrpc/src/application_error.rs:435-438 | leaving a component removes exactly its key and keeps the invariant |
| `ValidatorMachine.HandOn` | rust/crates/linkrpc/src/application_error.rs:628-630 | pushing a merge and the children computes the node's own issues, then the children's from last to first |
| `SchemaMeaning.NodeMeaning` | rust/crates/linkrpc/src/application_error.rs:493-624 | a node has no own issues and its goals hold exactly if every keyword of the schema accepts the value, each keyword read declaratively |
| `SchemaMeaning.LeastFuel` | rust/crates/linkrpc/src/application_error.rs:466-491 | an accepted value has a derivation of least height |
| `SchemaMeaning.CleanAccepts` | rust/crates/linkrpc/src/application_error.rs:466-491 | no issues means that a bounded number of reference unfoldings accepts the value |
| `SchemaMeaning.AcceptsClean` | rust/crates/linkrpc/src/application_error.rs:466-491 | if unfolding accepts the value at a height below every active reference, the validator reports nothing |
| `SchemaMeaning.ValidationIsExact` | rust/crates/linkrpc/src/application_error.rs:466-491 | for every value, schema and component map, cyclic or not: no issues if and only if finitely many reference unfoldings accept the value; and then a bound known in advance suffices |
| `SchemaMeaning.ExactWithin` | rust/crates/linkrpc/src/application_error.rs:466-491 | the same within a failing validation: as long as the components being unfolded do not fit the value, a part has issues exactly if it does not fit |
| `SchemaKeywords.TypeTable` | rust/crates/linkrpc/src/application_error.rs:519-534 | the type names of each kind of value; whole floats are integers too |
| `SchemaKeywords.FitsKeywords` | rust/crates/linkrpc/src/application_error.rs:493-624 | a value fits a schema without a reference if and only if it meets each keyword, all of them spelled out by name over the fit of the parts |
| `SchemaKeywords.FitsReference` | rust/crates/linkrpc/src/application_error.rs:466-491 | a value fits a reference if and only if that names a component that it fits; nothing beside the reference counts |
| `ContractExamples.NumberOrInteger` | rust/crates/linkrpc/src/application_error.rs:699-712 | the test case's union behind an escaped name accepts exactly the numbers, also those that fit both branches |
| `ContractExamples.ChainFits` | rust/crates/linkrpc/src/application_error.rs:714-743 | the test case's recursive schema accepts chains of every depth |
| `ContractExamples.ReferenceCycle` | rust/crates/linkrpc/src/application_error.rs:745-758 | two components that are references to each other accept no value |
| `SchemaParts.NodeFrom` | rust/crates/linkrpc/src/application_error.rs:503-624 | everything a node hands on is at a schema position of its schema, and a union hands on all branches of its keyword |
| `NodePointers.PointerReaches` | rust/crates/linkrpc/src/application_error.rs:414-416 | the pointer built on the way to a node evaluates to that node |
| `NodePointers.PointerMisses` | rust/crates/linkrpc/src/application_error.rs:585-596 | the pointer of an absent member of an object evaluates to nothing |
| `NodePointers.DistinctPointers` | rust/crates/linkrpc/src/application_error.rs:414-416 | two nodes of a value with the same pointer are the same node |
| `IssuePaths.PathsAreTrue` | rust/crates/linkrpc/src/application_error.rs:550-622 | every issue's path, evaluated on the root, reaches a value that part of the schema or of a component rejects for the reason given (under a union no branch fits; an unguarded reference is to a component that does not fit); a member's path is that of a required member absent from an object that is there, or of one present where the part allows no others |
| `IssuesComplete.IssuesExactly` | rust/crates/linkrpc/src/application_error.rs:418-633 | an issue is in the list if and only if some part of the contract that the validation gets to, through references, goals and the branches of unions that no branch fits, rejects its value in that way at that path: what is wrong is reported, and nothing else |
| `IssuesComplete.UnionExact` | rust/crates/linkrpc/src/application_error.rs:442-457 | the issues of a failed union are its own and all those of every branch |
| `Scoping.GoalsRewritten` | rust/crates/linkrpc/src/application_error.rs:661-692 | the rewriter visits exactly the schema positions the validator descends into |
| `Scoping.IssuesScoped` | rust/crates/linkrpc/src/application_error.rs:637-692 | at every point of a validation the scoped contract reports the same issues, references renamed |
| `Scoping.ScopingPreservesValidation` | rust/crates/linkrpc/src/application_error.rs:637-692 | for contracts without captured references a value gets the same issues at the same paths before and after scoping |
| `ScopingExact.ContractKeepsMeaning` | rust/crates/linkrpc/src/application_error.rs:637-692 | all parts of a contract's schemas and components keep their issues and paths on all values if and only if no reference in the contract is captured |
| `ScopingExact.CaptureChangesMeaning` | rust/crates/linkrpc/src/application_error.rs:661-673 | a concrete contract whose unresolved reference starts to accept values once scoped |
| `Scoping.RewriteTwice` | rust/crates/linkrpc/src/application_error.rs:661-692 | rewriting for an inner and then an outer scope is rewriting once for the joined scope if and only if no reference is captured |
| `Scoping.ComponentsTwice` | rust/crates/linkrpc/src/application_error.rs:637-659 | scoping a component map twice is scoping it once by the joined prefix if and only if no reference in it is captured |
| `Scoping.ScopeComponents` | rust/crates/linkrpc/src/application_error.rs:638-649 | the loop over the components builds exactly the scoped map |
| `Scoping.ScopeErrorContract` | rust/crates/linkrpc/src/application_error.rs:637-659 | without components nothing changes; otherwise every error's schemas are rewritten in place and the scoped map returned |
| `ContractExamples.OnlySchemaPositions` | rust/crates/linkrpc/src/application_error.rs:760-791 | a schema under `properties` is rewritten and a constant is not, whatever it looks like |
| `ContractExamples.ScopedExample` | rust/crates/linkrpc/src/application_error.rs:781-786 | the test case's reference is renamed with the prefix, a dot and the old name |
| `ScopedErrors.EncodeScoped` | rust/crates/linkrpc/src/application_error.rs:637-659 | without captured references, encoding under a scoped contract sends the same errors and rejects the same values |
| `ScopedErrors.DecodeScoped` | rust/crates/linkrpc/src/application_error.rs:637-659 | decoding under a scoped contract yields the same candidates and the same issues |
| `ErrorCodec.DecodeCandidates` | rust/crates/linkrpc/src/application_error.rs:230-294 | the two passes over the declarations collect the candidates of tagged declarations first, or all issues if there is none |
| `ErrorRoundTrip.DecodeClaimed` | rust/crates/linkrpc/src/application_error.rs:230-294 | in a built contract the variant that claims an error alone decides what is decoded |
| `ErrorRoundTrip.NamedEnvelope` | rust/crates/linkrpc/src/application_error.rs:333-383 | an envelope has no issues exactly if it is the variant's tagged object with no other keys and a payload where one is declared |
| `ErrorRoundTrip.RawRoundTrip` | rust/crates/linkrpc/src/application_error.rs:164-186 | a raw error that was encoded carries its payload's message and data and is claimed by its variant |
| `ErrorRoundTrip.NamedRoundTrip` | rust/crates/linkrpc/src/application_error.rs:187-215 | a named error that was encoded carries the tagged value and decodes to its payload |
| `ErrorRoundTrip.DecodeInvertsEncode` | rust/crates/linkrpc/src/application_error.rs:157-294 | whenever encoding a variant's tagged value succeeds, decoding the wire error yields exactly that one value |
| `ErrorRoundTrip.EncodeInvertsDecode` | rust/crates/linkrpc/src/application_error.rs:157-294 | a decoded candidate is the only one, and if its payload fits its schema, encoding it gives back code and data, and for raw errors the message |
| `ErrorExactness.EncodesExactly` | rust/crates/linkrpc/src/application_error.rs:157-215 | encoding succeeds if and only if the tagged value is one of a variant of that code whose payload is there just where declared and fits its schema (for raw errors: a body of a string message and at most data that fits); then the wire error is the one of that variant, and else it is an internal error (-32603) without data |
| `ErrorExactness.DecodesExactly` | rust/crates/linkrpc/src/application_error.rs:230-294 | decoding succeeds if and only if the wire error is that of a variant: a raw one by its code, a named one by its tagged object with no other keys and a payload just where declared |
| `ErrorExactness.FailsExactly` | rust/crates/linkrpc/src/application_error.rs:230-383 | a failed decoding reports every fault of every variant of the code, with its path, and nothing else |
| `ErrorExactness.FirstBinding` | rust/crates/linkrpc/src/application_error.rs:252-276 | the binding of a declaration is the first that its kind allows |
| `ErrorExactness.TaggedComesFirst` | rust/crates/linkrpc/src/application_error.rs:238-242 | candidates of tagged declarations come before others, and else the order of the contract holds |
| `ErrorExactness.LegacyEncodes` | rust/crates/linkrpc/src/application_error.rs:192-215 | a lone legacy declaration sends a fitting payload as data, and rejects everything else |
| `ErrorExactness.LegacyDecodes` | rust/crates/linkrpc/src/application_error.rs:265-276 | a lone legacy declaration decodes exactly under its code and message, with data just where declared |
| `ErrorExactness.LegacyFaults` | rust/crates/linkrpc/src/application_error.rs:366-383 | what is reported of an error that it does not decode |
| `ErrorDerive.FreshTag` | rust/crates/linkrpc-macros/src/lib.rs:195-202 | renaming a raw tag ends with the first name in the sequence that is free |
| `ErrorDerive.CheckOne` | rust/crates/linkrpc-macros/src/lib.rs:203-241 | one declaration is refused exactly if it is improper or its name is taken, with the first fault in the order of the checks |
| `ErrorDerive.Expand` | rust/crates/linkrpc-macros/src/lib.rs:156-223 | the declarations are accepted if and only if each is proper and each two are compatible, and else the first fault of the first faulty one is reported; what is accepted has distinct tags, raw codes with one owner and the declared codes (1 by default), names, messages and payloads |
| `ErrorDerive.DeclarableExactly` | rust/crates/linkrpc-macros/src/lib.rs:172-292 | what is declarable is exactly what has none of the faults, each spelled out with the reserved codes |
| `Levenshtein.NextRow` | typescript/packages/linkrpc-cli/src/suggest.ts:484-492 | overwriting the row in place turns the distances of one prefix into those of the next |
| `Levenshtein.Lev` | typescript/packages/linkrpc-cli/src/suggest.ts:478-494 | the method returns the distance |
| `Levenshtein.DistanceIsShortest` | typescript/packages/linkrpc-cli/src/suggest.ts:477-494 | a script of insertions, deletions and substitutions of that length exists, and none is shorter |
| `Levenshtein.DistanceIsMetric` | typescript/packages/linkrpc-cli/src/suggest.ts:477-494 | zero exactly on equal strings, symmetric, triangle inequality |
| `Ranking.ThresholdIsThird` | typescript/packages/linkrpc-cli/src/suggest.ts:473-475 | the threshold is the least positive number that is at least a third of the length |
| `Ranking.QualifyingIsWithin` | typescript/packages/linkrpc-cli/src/suggest.ts:507-513 | exactly the items within the threshold qualify |
| `Ranking.SortedPrefixIsTopK` | typescript/packages/linkrpc-cli/src/suggest.ts:514-519 | the prefix of the sorted items is sorted, as long as it can be, and nothing left out comes before any of it |
| `Ranking.SortIsStable` | typescript/packages/linkrpc-cli/src/suggest.ts:514-518 | items that tie keep their order |
| `Ranking.SortedMeans` | typescript/packages/linkrpc-cli/src/suggest.ts:514-518 | sorted means nearer first, of those the more boosted, and of those by name |
| `Ranking.TiesMean` | typescript/packages/linkrpc-cli/src/suggest.ts:514-518 | items tie exactly with the same distance and boost and names that the locale does not tell apart |
| `Ranking.Rank` | typescript/packages/linkrpc-cli/src/suggest.ts:498-520 | the result is a top-k of the qualifying items by distance, boost descending and name |
| `StableKeys.PrintPrefix` | typescript/packages/linkrpc-hub-daemon/src/config.ts:163-172 | the printer is injective, also within a longer text: what is printed and where it ends determine the value |
| `StableKeys.CanonMembers` | typescript/packages/linkrpc-hub-daemon/src/config.ts:164-171 | canonical members are sorted and hold the canonical values of the defined members |
| `StableKeys.StableKeyIsCanonical` | typescript/packages/linkrpc-hub-daemon/src/config.ts:162-172 | two values have the same key if and only if they are equal up to member order and undefined members, at every depth |
| `StableKeys.WrittenAsJson` | typescript/packages/linkrpc-hub-daemon/src/config.ts:163-172 | scalars, arrays and objects are written as JSON |
| `ServiceConfig.ClassifyMeaning` | typescript/packages/linkrpc-hub-daemon/src/config.ts:155-160 | no change exactly for equal definitions, a restart exactly if a member other than description, enabled, restart and the two timeouts differs |
| `ServiceConfig.DistinctServices` | typescript/packages/linkrpc-hub-daemon/src/config.ts:138-148 | services load if and only if their ids are distinct, each with its own or its default id; otherwise the first clash and both its names are reported |
| `ServiceConfig.ServiceIdMeans` | typescript/packages/linkrpc-hub-daemon/src/config.ts:141-141 | a service claims the ID it declares, or else that of the hub, a slash and its name |
| `ServiceConfig.LoadedMembers` | typescript/packages/linkrpc-hub-daemon/src/config.ts:147-147 | a loaded service is what was configured, with the ID that it claims |
| `Reconcile.Daemon.RemoveService` | typescript/packages/linkrpc-hub-daemon/src/daemon.ts:300-306 | one service leaves the map and its supervisor is disposed |
| `Reconcile.Daemon.ApplyService` | typescript/packages/linkrpc-hub-daemon/src/daemon.ts:278-298 | one service is kept, updated in place or replaced by a new supervisor; if that cannot be made it fails, after the old one was disposed, which then stays in the map under its old definition; the others are left alone |
| `Reconcile.Daemon.DisposeAllServices` | typescript/packages/linkrpc-hub-daemon/src/daemon.ts:308-313 | every supervisor of the map is disposed and the map emptied |
| `Reconcile.Daemon.RemoveServices` | typescript/packages/linkrpc-hub-daemon/src/daemon.ts:269-272 | exactly the services no longer configured are gone and disposed |
| `Reconcile.Daemon.ApplyServices` | typescript/packages/linkrpc-hub-daemon/src/daemon.ts:275-275 | all configured services are treated like this, also if some fail, and it succeeds exactly if none does |
| `Reconcile.AppliesExactly` | typescript/packages/linkrpc-hub-daemon/src/daemon.ts:219-276 | after an apply the map shows exactly the configuration, with live supervisors only, if and only if each configured service that is new, needs a restart or follows a hub restart can be made, and each other one was live |
| `Reconcile.ShowsExactly` | typescript/packages/linkrpc-hub-daemon/src/daemon.ts:219-276 | the configuration shows, whether its supervisors are live or not, if and only if the apply does not reject |
| `Reconcile.DeadExactly` | typescript/packages/linkrpc-hub-daemon/src/daemon.ts:278-298 | a disposed supervisor is in the map exactly under a name whose change could not be made, or that already had one and was kept |
| `Reconcile.StartsAnew` | typescript/packages/linkrpc-hub-daemon/src/daemon.ts:219-276 | with other hub settings, or without a running hub, an apply holds exactly what can be made, all new; otherwise an unchanged service stays as it is |
| `Reconcile.HubAfter` | typescript/packages/linkrpc-hub-daemon/src/daemon.ts:222-243 | after an apply the hub runs if it ran with these settings or was started, and the settings are recorded |
| `Reconcile.GoingBackStaysDead` | typescript/packages/linkrpc-hub-daemon/src/daemon.ts:278-298 | after a change that could not be made, applying the old definition, or any other that needs no restart, keeps the disposed supervisor |
| `Reconcile.EndpointHistoryMatters` | typescript/packages/linkrpc-hub-daemon/src/daemon.ts:278-298 | a concrete history: an endpoint, one that cannot be connected to, and the first again show the first configuration with a disposed supervisor |
| `Reconcile.Daemon.Apply` | typescript/packages/linkrpc-hub-daemon/src/daemon.ts:219-276 | the daemon then shows what the view predicts, and the apply rejects exactly if a supervisor that has to be made cannot be; a live supervisor survives if and only if the hub settings are unchanged and its service is still configured and needs no restart; none is lost |
| `Reconcile.Daemon.Reload` | typescript/packages/linkrpc-hub-daemon/src/daemon.ts:198-217 | an unchanged file does nothing unless forced, an invalid one keeps the running configuration, a valid one is applied; its revision is seen either way, and counts as applied unless the apply rejects |
| `Reconcile.LastShows` | typescript/packages/linkrpc-hub-daemon/src/daemon.ts:219-298 | whatever was applied before, only the last configuration shows, with live supervisors, if and only if the daemon was ready for it |
| `Reconcile.MadeHistoryShows` | typescript/packages/linkrpc-hub-daemon/src/daemon.ts:219-298 | if all supervisors of a history can be made, only its last configuration shows, with live supervisors |
| `Reconcile.Daemon.ApplyEach` | typescript/packages/linkrpc-hub-daemon/src/daemon.ts:219-298 | applying a sequence of configurations leaves what that history predicts, and so the last one exactly if the daemon was ready for it |
| `Reconcile.ServicesInstance` | typescript/packages/linkrpc-hub-daemon/src/daemon.ts:278-287 | with real definitions, shows means equal up to member order, and a service is kept exactly if only fields applied in place differ |
| `Handles.EachOnceMeans` | typescript/packages/linkrpc-hub-daemon/src/connectionSupervisor.ts:133-137 | the log of disposals has every handle opened exactly once and no other |
| `Supervision.StepShape` | typescript/packages/linkrpc-hub-daemon/src/connectionSupervisor.ts:66-137 | every event that starts no attempt during a dispose keeps: one attempt at most, one timer at most, and the status tells which handles are held |
| `Supervision.StepLedger` | typescript/packages/linkrpc-hub-daemon/src/connectionSupervisor.ts:91-137 | every event keeps: each handle opened is in one field or was disposed once |
| `Supervision.NothingLeaks` | typescript/packages/linkrpc-hub-daemon/src/connectionSupervisor.ts:66-137 | in every run in which no call starts an attempt while a dispose is unfinished, lifecycle calls overlapping in any other way, at most one attempt is in flight and one timer armed; when a dispose resolves the supervisor is stopped, nothing is armed, and every handle ever opened was disposed exactly once |
| `Supervision.StatusChanges` | typescript/packages/linkrpc-hub-daemon/src/connectionSupervisor.ts:91-132 | failed and backoff are entered exactly by a failure of the present generation, as the restart policy says; running exactly by a granted claim; restarts count the retries |
| `SupervisionCalls.StatusExactly` | typescript/packages/linkrpc-hub-daemon/src/connectionSupervisor.ts:66-147 | the status after every event: failed or backoff after a failure, running after a claim, stopped after a dispose, starting after a retry or a call that starts, and else unchanged |
| `SupervisionCalls.EndsReleases` | typescript/packages/linkrpc-hub-daemon/src/connectionSupervisor.ts:66-91 | disposing, syncing a disabled supervisor and disabling one dispose target, local transport and socket in this order, clear the timer, end the generation and wait for the attempt started last |
| `SupervisionCalls.DisabledHoldsNothing` | typescript/packages/linkrpc-hub-daemon/src/connectionSupervisor.ts:66-91 | in every run without overlapping starts a disabled supervisor holds no handle, has no timer armed and no current attempt, and is stopped once no dispose is unfinished |
| `SupervisionCalls.StaleEnds` | typescript/packages/linkrpc-hub-daemon/src/connectionSupervisor.ts:85-91 | a dispose waits for one event of the attempt in flight at most |
| `SupervisionCalls.LateOpen` | typescript/packages/linkrpc-hub-daemon/src/connectionSupervisor.ts:96-106 | an open that comes too late disposes its handle, at the later awaits also what the fields hold |
| `SupervisionCalls.StartsOneAttempt` | typescript/packages/linkrpc-hub-daemon/src/connectionSupervisor.ts:66-77 | a sync of an enabled supervisor that is stopped or failed, and enabling one, start exactly one attempt of a new generation |
| `SupervisionCalls.CallsElseNothing` | typescript/packages/linkrpc-hub-daemon/src/connectionSupervisor.ts:66-77 | every other sync or update leaves the connection alone |
| `SupervisionCalls.ComesUp` | typescript/packages/linkrpc-hub-daemon/src/connectionSupervisor.ts:92-117 | from a current attempt a run leads to `running`, with the three handles it opened and a watch |
| `SupervisionCalls.RunningIsReached` | typescript/packages/linkrpc-hub-daemon/src/connectionSupervisor.ts:66-118 | a sync of a new enabled supervisor reaches `running` |
| `SupervisionCalls.FailureRetries` | typescript/packages/linkrpc-hub-daemon/src/connectionSupervisor.ts:118-137 | a failure disposes the three handles in order and arms one timer of the present generation, or none under policy `never`; its delay doubles from half a second up to thirty |
| `Supervision.RetryFollows` | typescript/packages/linkrpc-hub-daemon/src/connectionSupervisor.ts:124-131 | while a supervisor backs off a timer is armed, and it starts an attempt of the present generation |
| `Supervision.OverlapsExactly` | typescript/packages/linkrpc-hub-daemon/src/connectionSupervisor.ts:66-91 | a call keeps what every run keeps if and only if it is not a sync, or an update that enables, in status stopped or failed while a dispose is unfinished |
| `Supervision.OverlapIsReached` | typescript/packages/linkrpc-hub-daemon/src/connectionSupervisor.ts:66-91 | such a call is reached from the start: a dispose, and a sync before it resolves |
| `Supervision.OverlapLeavesAnAttempt` | typescript/packages/linkrpc-hub-daemon/src/connectionSupervisor.ts:66-91 | from every such call a run leads to a dispose that resolves, in status stopped, with an attempt of the present generation in flight |
| `ConnectionSupervisors.ConnectionSupervisor.Cleanup` | typescript/packages/linkrpc-hub-daemon/src/connectionSupervisor.ts:133-137 | target, local and socket are disposed in this order and cleared |
| `ConnectionSupervisors.ConnectionSupervisor.Failed` | typescript/packages/linkrpc-hub-daemon/src/connectionSupervisor.ts:117-132 | a failure cleans up and either ends in failed or arms one timer of its generation |
| `ConnectionSupervisors.ConnectionSupervisor.Dispose` | typescript/packages/linkrpc-hub-daemon/src/connectionSupervisor.ts:84-90 | a dispose outdates the generation, disarms the timer, cleans up and waits for the pending attempt |
| `ConnectionSupervisors.ConnectionSupervisor.Sync` | typescript/packages/linkrpc-hub-daemon/src/connectionSupervisor.ts:66-71 | a sync disposes a disabled supervisor and starts an attempt of a new generation if none is under way |
| `ConnectionSupervisors.ConnectionSupervisor.Update` | typescript/packages/linkrpc-hub-daemon/src/connectionSupervisor.ts:72-77 | an update syncs exactly if the service was enabled or disabled |
| `ConnectionSupervisors.ConnectionSupervisor.React` | typescript/packages/linkrpc-hub-daemon/src/connectionSupervisor.ts:66-137 | whatever happens next, the object takes the step of the machine, and stays sound if and only if it is not such an overlapping call |
| `Endpoints.KeyInjective` | typescript/packages/linkrpc-hub-daemon/src/managedEndpoints.ts:324-324 | two addresses have the same key exactly if they are equal |
| `Endpoints.StepKeeps` | typescript/packages/linkrpc-hub-daemon/src/managedEndpoints.ts:81-322 | every segment and every callback keeps the registry's invariant, moves no instance, revives none and lists none again |
| `EndpointSafety.RegistrySafety` | typescript/packages/linkrpc-hub-daemon/src/managedEndpoints.ts:54-308 | in every run each address lists at most one entry, a live one of that address; a live entry off the map is being removed or was stranded; no owned endpoint is in the snapshot or the saved file |
| `EndpointSafety.RemovedNeverReturns` | typescript/packages/linkrpc-hub-daemon/src/managedEndpoints.ts:279-285 | a removed entry stays removed, and one once off the map is never listed again |
| `EndpointSafety.LeavesExactly` | typescript/packages/linkrpc-hub-daemon/src/managedEndpoints.ts:104-285 | exactly which steps take a given entry off the map |
| `EndpointSafety.CleanUpSparesReplacements` | typescript/packages/linkrpc-hub-daemon/src/managedEndpoints.ts:163-173 | the end of an owned run removes its own instance and leaves every other entry and the file as they were |
| `EndpointSafety.StrandsExactly` | typescript/packages/linkrpc-hub-daemon/src/managedEndpoints.ts:111-187 | a live entry is stranded exactly by a failed dispose within a remove, or by having been restored where an entry was being replaced |
| `EndpointSafety.FileFollows` | typescript/packages/linkrpc-hub-daemon/src/managedEndpoints.ts:176-197 | a file that lists exactly the persistent entries keeps doing so in a step if and only if the step does not drift: a create of a persistent endpoint whose write fails, the undoing of one, a replacement that is not made or not written and leaves another record due, or a restored persistent entry |
| `EndpointSafety.UndoneCreateStaysSaved` | typescript/packages/linkrpc-hub-daemon/src/managedEndpoints.ts:187-196 | a persistent endpoint that was saved but did not start is removed, and stays in the file |
| `EndpointSafety.UnmadeReplacementStaysSaved` | typescript/packages/linkrpc-hub-daemon/src/managedEndpoints.ts:180-187 | a persistent endpoint whose replacement cannot be made is removed, and stays in the file |
| `EndpointSafety.UndoingIsReached` | typescript/packages/linkrpc-hub-daemon/src/managedEndpoints.ts:176-197 | a run from the empty registry to a saved create that is being undone |
| `EndpointSafety.ReplacingIsReached` | typescript/packages/linkrpc-hub-daemon/src/managedEndpoints.ts:176-187 | a run from the empty registry to a saved persistent endpoint that is being replaced |
| `EndpointSafety.WriteCatchesUp` | typescript/packages/linkrpc-hub-daemon/src/managedEndpoints.ts:305-308 | however far the file was behind, a successful write makes it list exactly the persistent entries again |
| `EndpointSafety.OperationIsSaved` | typescript/packages/linkrpc-hub-daemon/src/managedEndpoints.ts:97-133 | once a start, stop, remove or configure has begun, the file holds for its address exactly the intended record, or none |
| `EndpointSafety.FailedWriteChangesNothing` | typescript/packages/linkrpc-hub-daemon/src/managedEndpoints.ts:97-133 | a failed write or a refused operation leaves entries, map and file as they were, and is answered with its error |
| `EndpointSafety.EveryCallAnswered` | typescript/packages/linkrpc-hub-daemon/src/managedEndpoints.ts:316-321 | every accepted call is waiting, running or answered, and answered once |
| `EndpointOutcomes.AnswersExactly` | typescript/packages/linkrpc-hub-daemon/src/managedEndpoints.ts:81-321 | the reply of every step, for every operation and every way it ends; calls are taken in their order |
| `EndpointOutcomes.RefusedExactly` | typescript/packages/linkrpc-hub-daemon/src/managedEndpoints.ts:153-317 | a call is refused exactly while closing, or for an owned endpoint that is to be persistent |
| `EndpointOutcomes.CreateCompletes` | typescript/packages/linkrpc-hub-daemon/src/managedEndpoints.ts:176-198 | a create at a free address lists a live endpoint that is to run, writes it to the file if it is persistent, and is answered when it has started |
| `EndpointOutcomes.ReplaceCompletes` | typescript/packages/linkrpc-hub-daemon/src/managedEndpoints.ts:181-198 | a replacement takes the place of the old instance, which is removed; no other address changes |
| `EndpointOutcomes.CreateUndone` | typescript/packages/linkrpc-hub-daemon/src/managedEndpoints.ts:193-196 | a create that fails after its entry was made removes that entry |
| `EndpointOutcomes.StartCompletes` | typescript/packages/linkrpc-hub-daemon/src/managedEndpoints.ts:97-103 | a start sets the desired state, then enables and syncs |
| `EndpointOutcomes.StopCompletes` | typescript/packages/linkrpc-hub-daemon/src/managedEndpoints.ts:104-110 | a stop clears the desired state; then a persistent endpoint stays and any other is gone |
| `EndpointOutcomes.RemoveCompletes` | typescript/packages/linkrpc-hub-daemon/src/managedEndpoints.ts:111-118 | a removed endpoint is off the map at once and marked when it has stopped |
| `EndpointOutcomes.ConfigureCompletes` | typescript/packages/linkrpc-hub-daemon/src/managedEndpoints.ts:119-133 | just the given fields change; a finished endpoint that is not persistent is then gone |
| `EndpointOutcomes.FinishedIsGone` | typescript/packages/linkrpc-hub-daemon/src/managedEndpoints.ts:272-277 | an endpoint that finishes is gone unless it is persistent or the registry closes |
| `EndpointRestore.SnapshotExactly` | typescript/packages/linkrpc-hub-daemon/src/managedEndpoints.ts:54-57 | the snapshot holds exactly the listed endpoints that are not owned, with definition and desired state |
| `EndpointRestore.SnapshotSurvives` | typescript/packages/linkrpc-hub-daemon/src/managedEndpoints.ts:54-79 | a successor that restores the snapshot lists exactly those endpoints, live, with the same definition and desired state, and has the same snapshot |
| `EndpointRestore.FileSurvives` | typescript/packages/linkrpc-hub-daemon/src/managedEndpoints.ts:63-79 | while the file follows, a restart from it lists exactly the persistent endpoints; they are to run as before, except those that are never restarted |
| `EndpointSafety.ShutdownIsFinal` | typescript/packages/linkrpc-hub-daemon/src/managedEndpoints.ts:142-147 | once shutdown has waited for the operations nothing changes any more, and the listed supervisors are all live ones but the stranded |
| `ManagedEndpoints.Registry.SetDesired` | typescript/packages/linkrpc-hub-daemon/src/managedEndpoints.ts:310-314 | a failed write restores the previous value |
| `ManagedEndpoints.Registry.Remove` | typescript/packages/linkrpc-hub-daemon/src/managedEndpoints.ts:111-118 | a failed write puts the entry back, a successful one waits for the supervisor |
| `ManagedEndpoints.Registry.Configure` | typescript/packages/linkrpc-hub-daemon/src/managedEndpoints.ts:119-133 | an owned endpoint cannot become persistent, and a failed write restores the definition |
| `ManagedEndpoints.Registry.RemoveEntry` | typescript/packages/linkrpc-hub-daemon/src/managedEndpoints.ts:279-285 | only this instance leaves the map, and only once |
| `ManagedEndpoints.Registry.Snapshot` | typescript/packages/linkrpc-hub-daemon/src/managedEndpoints.ts:54-57 | the snapshot has every listed entry that is not owned, persistent or not, and no address of an owned one |
| `ManagedEndpoints.Registry.Restore` | typescript/packages/linkrpc-hub-daemon/src/managedEndpoints.ts:59-79 | the loop restores the records one by one up to the first whose address is taken, and succeeds exactly if there is none; the registry stays sound |
| `ManagedEndpoints.Registry.React` | typescript/packages/linkrpc-hub-daemon/src/managedEndpoints.ts:81-322 | whatever happens next, the object takes the step of the machine and stays sound |
| `LinkSetup.StepSequential` | typescript/packages/linkrpc-devtunnel/src/mesh.ts:205-232 | every event keeps: earlier steps have yielded their resources, later ones were not started, and the await agrees with its promise |
| `LinkSetup.NothingLeaks` | typescript/packages/linkrpc-devtunnel/src/mesh.ts:205-248 | until the setup is over nothing is disposed and an established link holds all resources; once it is over every resource any step ever yields is disposed exactly once |
| `LinkSetup.DisposedInOrder` | typescript/packages/linkrpc-devtunnel/src/mesh.ts:212-248 | what had arrived at the teardown is disposed in reverse order of arrival, what comes later as it comes |
| `LinkSetup.AbortEndsSetup` | typescript/packages/linkrpc-devtunnel/src/mesh.ts:205-276 | after the deadline or a stop the setup ends without any promise having to settle, unless it was just established |
| `LinkSetup.OverExactly` | typescript/packages/linkrpc-devtunnel/src/mesh.ts:205-232 | a step ends a setup exactly if its await failed or starting a later step throws, and an established link exactly when it ends |
| `LinkSetup.ConnectedExactly` | typescript/packages/linkrpc-devtunnel/src/mesh.ts:218-223 | the link is established exactly when the last of the four steps was fulfilled |
| `LinkSetup.OverHasReason` | typescript/packages/linkrpc-devtunnel/src/mesh.ts:205-232 | in every run a setup that is over was aborted, had a step that rejected or threw, or its established link ended |
| `LinkSetup.LinkIsEstablished` | typescript/packages/linkrpc-devtunnel/src/mesh.ts:205-223 | four steps that resolve establish the link, which then holds all four resources |
| `LinkSetup.ReversedAt` | typescript/packages/linkrpc-devtunnel/src/mesh.ts:244-247 | reversing puts the last first |
| `PeerLinks.DisposableStore.Add` | typescript/packages/linkrpc-devtunnel/src/mesh.ts:239-242 | a disposal is kept, or run at once if the store was disposed |
| `PeerLinks.DisposableStore.Dispose` | typescript/packages/linkrpc-devtunnel/src/mesh.ts:244-247 | the kept disposals run in reverse order and the store is empty |
| `PeerLinks.LinkAttempt.React` | typescript/packages/linkrpc-devtunnel/src/mesh.ts:205-232 | whatever happens next, the object takes the step of the machine and stays sound |
| `ExplainingExact.WalkExact` | typescript/packages/linkrpc-cli/src/validation.ts:92-246 | a walk that ends finds no issue if and only if the value matches the schema, read declaratively |
| `ExplainingExact.FewestReported` | typescript/packages/linkrpc-cli/src/validation.ts:130-144 | of a union's branches that do not match, the issues of one with the fewest are reported |
| `ExplainingComplete.WalkFinds` | typescript/packages/linkrpc-cli/src/validation.ts:92-246 | the issues of a walk that ends are exactly what the value and its parts get wrong, each at its path; of a union, what the reported branch finds |
| `ExplainingComplete.EarliestReported` | typescript/packages/linkrpc-cli/src/validation.ts:130-144 | a union that does not match reports the first of the branches with the fewest issues |
| `ExplainingComplete.ResolvesExactly` | typescript/packages/linkrpc-cli/src/validation.ts:379-386 | a reference is resolved exactly if it is the prefix and the name of a component other than `false` |
| `ExplainingComplete.TypesTold` | typescript/packages/linkrpc-cli/src/validation.ts:147-170 | the types of each kind of value |
| `ExplainingExact.MoreFuel` | typescript/packages/linkrpc-cli/src/validation.ts:104-112 | the limit on references followed does not matter to a walk that ends |
| `ExplainingEnds.GuardedEnds` | typescript/packages/linkrpc-cli/src/validation.ts:104-112 | if no component is reached again from itself through references and branches alone, the walk ends for every value and schema, with a bound known from the value |
| `ExplainingEnds.BareLoopNeverEnds` | typescript/packages/linkrpc-cli/src/validation.ts:104-112 | a reference into a loop of bare references, or to itself, never ends |
| `ExplainingPaths.PathsAreDistinct` | typescript/packages/linkrpc-cli/src/validation.ts:392-395 | different places have different paths, whatever their keys, and none is the name of the root |
| `ExplainingComplete.PathsRead` | typescript/packages/linkrpc-cli/src/validation.ts:392-395 | a path goes on after a dot with a name, and in brackets with a position or a quoted key |
| `ExplainingComplete.Identifiers` | typescript/packages/linkrpc-cli/src/validation.ts:392-395 | which keys are names |
| `ExplainingPaths.IssuesPinpoint` | typescript/packages/linkrpc-cli/src/validation.ts:92-246 | every issue's path is that of a place in the value that is not what the reason demands (the constant, one of the options, the type, the tuple length, a known name, an element before the end), or of a required member absent from an object that is there; the other reasons come from schemas that nothing matches |
| `ExplainValidation.Walks` | typescript/packages/linkrpc-cli/src/validation.ts:92-182 | the walker pushes exactly those issues, in order, behind what the list held |
| `ExplainValidation.Explain` | typescript/packages/linkrpc-cli/src/validation.ts:82-90 | no issue is found if and only if the value matches |
| `ExplainValidation.ValueToConstSchema` | typescript/packages/linkrpc-cli/src/validation.ts:37-55 | the loops build the lowered schema |
| `Lowering.MatchesOnlyItself` | typescript/packages/linkrpc-cli/src/validation.ts:27-55 | a JSON value matches a lowered one if and only if they are equal as values with unordered members |
| `Lowering.LoweringIsSingleton` | typescript/packages/linkrpc-cli/src/validation.ts:37-246 | the walk of a lowered schema always ends and finds nothing if and only if the values are equal, under any components |
| `Lowering.UndefinedIsEmptyObject` | typescript/packages/linkrpc-cli/src/validation.ts:33-40 | of JSON values only the empty object matches no parameters given |
| `LogLines.SplitRejoins` | typescript/packages/linkrpc-hub-daemon/src/logBuffer.ts:15-16 | the lines are those between the newlines, in order, and nothing is lost |
| `LogLines.LineEnds` | typescript/packages/linkrpc-hub-daemon/src/logBuffer.ts:15-15 | a line ends with a newline, or with a carriage return and a newline |
| `LogLines.CutsRejoin` | typescript/packages/linkrpc-hub-daemon/src/logBuffer.ts:17-20 | a long rest is cut into pieces of 8192 characters, nothing of it is lost, and at most that much is left |
| `LogLines.ShortChunks` | typescript/packages/linkrpc-hub-daemon/src/logBuffer.ts:14-24 | if no terminated line is too long, any chunks of a text complete the lines that splitting the whole yields |
| `LogLines.LongLineShows` | typescript/packages/linkrpc-hub-daemon/src/logBuffer.ts:17-20 | cut off before its newline, a line over the limit comes out as several |
| `LogLines.ChunkIndependence` | typescript/packages/linkrpc-hub-daemon/src/logBuffer.ts:14-24 | all chunkings of a text complete the same lines if and only if no terminated line, with its carriage return, is longer than the limit |
| `LogBuffers.LogBuffer.Cut` | typescript/packages/linkrpc-hub-daemon/src/logBuffer.ts:15-20 | the loop cuts a long rest into full lines and leaves at most one |
| `LogBuffers.LogBuffer.Push` | typescript/packages/linkrpc-hub-daemon/src/logBuffer.ts:30-33 | the buffer holds exactly the last lines ever pushed, up to its capacity |
| `LogBuffers.LogBuffer.Append` | typescript/packages/linkrpc-hub-daemon/src/logBuffer.ts:14-24 | the completed lines are returned and pushed, and each stream's lines stay those its own chunks complete |
| `LogBuffers.LogBuffer.Newest` | typescript/packages/linkrpc-hub-daemon/src/logBuffer.ts:26-28 | a positive limit returns the newest lines, zero all that are held, a negative one all but the oldest |
| `LogBuffers.PushedLines` | typescript/packages/linkrpc-hub-daemon/src/logBuffer.ts:14-33 | the lines pushed for a stream with short lines are those of its whole text, however its chunks came and whatever came between |

## Left out

- Sockets, child processes, pseudoterminals, WebSockets, the Dev Tunnels SDK, file locks and durable writes: handles are numbers, and whether an open, a write or a hub start succeeds is a parameter or an event.
- Wording of issues and errors, log texts, status notifications and timestamps (a log line's time is a parameter).
- Rounding of numbers: in the Rust model a number is an integer or a real, in the TypeScript models its canonical numeral, which `IsIntegral` reads. Error codes are unbounded integers rather than 32 and 64 bits wide, no operation does arithmetic on them.
- Text is a sequence of characters: lone surrogates, UTF-16 lengths and UTF-16 order beyond the basic plane, Unicode case folding and the locale's collation are not modelled; lower-casing and the collation are parameters of `Ranking.Rank`.
- JavaScript prototype effects, such as `__proto__` as a key or inherited names under `in`.
- Validator: a node's identity is its path from the root instead of its address; with a type mismatch the branches are built after the type test, as those built before it are discarded.
- ErrorRoundTrip.DecodeInvertsEncode: covers named and raw errors, since legacy untyped declarations can be ambiguous by code and message; `ErrorExactness` covers contracts of a single one.
- Serde derivation, token streams and the generated types of the derive; `ErrorDerive` starts at the parsed declarations and takes whether a body's fields are allowed as given.
- Reconcile.Daemon.Apply: whether a supervisor can be made for a definition is a parameter (`Judge.makes`), and supervisors are numbered values instead of heap objects. The services of one configuration are applied one after the other, so states in the middle of `Promise.all` are not seen; they concern different names. An apply is looked at once everything it started has settled: `Promise.all` rejects early, so the rest of a rejected apply can overlap the next one.
- Reconcile: `dispose`, `update` and `sync` of a supervisor are taken not to reject, a disposed supervisor counts as disposed also after an in-place update or a restart call reached it, and a reload while the daemon stops is not modelled.
- Supervision: transports, claims and relayed messages are not modelled, and a dispose callback never throws. `restart` is a dispose followed by a sync.
- `ServiceSupervisor`, whose process handling is separate: for the reconciliation and the registry a supervisor is something that is synced, updated, disposed and reports its status.
- Endpoints.EMPTY: a file that a predecessor left on disk is not looked at until the first write, so nothing is said about following it.
- Endpoints.Step: a restore that throws is no step (`ManagedEndpoints.Registry.Restore` says when an address is taken; that an entry cannot be made is left out), and what the daemon does about it is not modelled; entries are values in a sequence indexed by instance, the order of the entries in the file and the snapshot is not modelled, and listeners, consoles and `watch` streams are left out.
- Whether a supervisor that a `start` syncs after its endpoint was removed is stopped: the supervisors' own states are not part of the registry's model.
- LinkSetup.NothingLeaks: a disposal never throws (one that does would end the loop of `DisposableStore.dispose` and leave the rest undisposed); the retry loop around one attempt, the mesh's discovery and hosting; the stream opened within the second step is counted once it has become a connection.
- Explaining.Walk: following references is bounded by `fuel`, as the source has no bound; a walk that would not end within it has no result, `GuardedEnds` says when there is a sufficient bound and `BareLoopNeverEnds` when there is none, and between the two, unions that match before they loop, neither does. Schemas of objects always have `additionalProperties`, which their type demands.
- `describeSchema`, `describeObjectParams` and `validateValueAgainstSchema`, and agreement between the Rust and TypeScript validators, whose tuple, `allOf` and constant rules differ.
- The command line, rendering, prompts, capability signing, interop fixtures, evaluation and examples.
