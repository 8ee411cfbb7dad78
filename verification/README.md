# PhenoCompose, verified

A Dafny model of the parts of PhenoCompose where a mistake would be hard to see
by reading one function, and proofs about them:

- the **composition engine** of the `phenocompose` command: the dependency order,
  lifecycle plans and their rollback, teardown, manifest validation and
  canonical digests, GPU bindings, and the persisted state machine of runs and
  evaluation jobs;
- the **file-backed secret store**, as a single-threaded class and as a protocol
  of threads, critical sections, file-system steps, failures and crashes;
- the **OCI reference** parser and printer;
- the chunked **memory routines** and the **bounded capture** of process output.

## How it is built

One module per component, one file per module. Code that updates state step by
step is a class or a method with loops, proved equal to a specification function
or predicate; the lemmas are about those functions. The outside world is abstract:

| in the program | in the model |
|---|---|
| state directory | `RunStore`: two maps, one for run files and one for job records; any save may fail |
| Podman | `Engine`: a map from container id to status; any call may fail, and a stop may take effect and still be reported as failed |
| NanoVMS | an arbitrary function from call number and request to reply, so one request may be answered differently each time |
| SHA-256, JSON and YAML text | function parameters; where needed, `Faithful` says that decoding inverts encoding and `PrintsHex` that digests are 64 hex digits |
| clock, image store, paths | parameters (`Host`, `Surroundings`) |
| secrets file | a main and a temporary file whose unsynced bytes a crash may replace by anything |

What a guard demands is a list of checks in their order, each with the error it
answers with (module `Checks`), and the guard is proved to answer with the first
that fails. What a command sends, stores or stops is stated field by field, in
terms of the manifest and the engine's own statuses.

`BTreeMap` iteration is the sorted list of keys, `Result` and `?` are `Result`
and `:-`. Errors the model raises carry their stable kind and code; message texts
are kept only for cycles and for errors that clients report.

## Where the code differs from what is written about it

The model follows the code.

- The manifest documentation promises a lexicographic tie-break
  (`docs/composition-manifest-v0.md:20-22`): among the services whose dependencies
  are listed, the least comes next. Dependency lists are walked in declared order
  instead. With a depending on z, and b on nothing, the order is z, a, b where the
  promise is b, z, a (`TieBreakCanBreak`); `TieBreakKeptIff` gives the exact
  condition on the graph, `EdgesKeepTieBreak` a check on single edges.
- The OCI parser documents a missing repository as an error
  (`crates/port-types/src/oci.rs:137-139`); only an empty name is refused.
  `:latest` parses (`LatestParses`); `MissingRepositoryParsesIff` lists exactly what
  slips through.
- The secret file adapter documents optimistic concurrency by version
  (`crates/secret-file-adapter/src/lib.rs:23-31`): a `put` whose version does not
  match the stored one, and is not the zero that overwrites, is rejected. `put`
  ignores the incoming version: version 1 overwrites version 2
  (`StaleVersionIsAccepted`). `PutIsDocumentedIff` says when the two agree; where
  nothing is stored yet the documentation rejects nothing.
- A `put` or `delete` whose flush fails reports an error but stays in memory and
  reaches disk with the next flush (`SecretFile.FileSecretStore.PutSecret`).
- `apply` returns a clock error without rolling back (`ApplyIsAllOrNothing`).
- `apply` does not check the run id it derives, so some runs can never be
  addressed again, that of a valid manifest named `_x` for one
  (`UnderscoreRunIsStranded`; the exact condition is `AppliedRunIsAddressableIff`).
- An explicit `teardown.order` need not name every service nor respect
  dependencies: a valid manifest can stop a service under its dependent and leave
  that one running (`ValidTeardownCanBreak`; the exact conditions are
  `SafeTeardownIff` and `DownStopsEverythingIff`). And nothing checks
  that a lifecycle result reports distinct containers: a shared one can be stopped
  under a service that depends on it, in the default order too
  (`SharedContainerBreaksTeardown`; the exact condition is `DefaultTeardownSafeIff`).
- A client failure without an error code is stored as a failed record with an
  empty code (`SuccessIffNoErrorCode`).
- The scalar memory comparison indexes the second slice by the first one's length
  and overruns exactly when the second is a proper prefix of the first
  (`SimdCompareScalar`).

## Model

| member | source | states |
|---|---|---|
| DependencyOrder.OrderWalk.VisitService | crates/phenocompose-cli/src/model.rs:332-355 | the recursive walk over the shared `visiting`, `visited` and `output` terminates on every graph and does what the functional walk does, error included |
| DependencyOrder.ServiceOrder | crates/phenocompose-cli/src/model.rs:357-363 | the walk from every key in order computes `Order` |
| DependencyOrderTheory.VisitGood | crates/phenocompose-cli/src/model.rs:332-355 | a successful walk keeps the output duplicate-free, dependency-first and equal to the visited set, only extends it, and visits its root |
| DependencyOrderTheory.VisitBlame | crates/phenocompose-cli/src/model.rs:338-344 | with `visiting` a path down to the current service, a failing walk names a service that lies on a cycle and is reachable from the bottom of that path |
| DependencyOrderTheory.DependencyFirstIsAcyclic | crates/phenocompose-cli/src/model.rs:331-364 | no member of a dependency-first list lies on a cycle |
| DependencyOrderTheory.OrderIsExact | crates/phenocompose-cli/src/model.rs:331-364 | `dependency_cycle` is reported exactly on cyclic graphs and blames a service on a cycle; otherwise the order is a duplicate-free, dependency-first permutation of the services |
| DependencyOrderTheory.OrderIsLexicographicIff | crates/phenocompose-cli/src/model.rs:357-363 | the order is the plain sorted list of names if and only if every dependency sorts before its dependents |
| TieBreak.TieBreakExists | docs/composition-manifest-v0.md:20-22 | on every acyclic graph there is a topological order that keeps the documented tie-break: each position holds the least service whose dependencies are listed |
| TieBreak.TieBreakIsLeast | docs/composition-manifest-v0.md:20-22 | there is only one such order, the least topological one |
| TieBreak.VisitAllPlaces | crates/phenocompose-cli/src/model.rs:332-363 | a walk over a list of names puts the end of a route right after what was visited before, what the dependency lists along the route name earlier, and what the end needs |
| TieBreak.RoutePlaced | crates/phenocompose-cli/src/model.rs:331-364 | in the order, exactly the services passed by the route to a service, or needed by it, precede that service |
| TieBreak.RouteExists | crates/phenocompose-cli/src/model.rs:331-364 | every service has such a route: the sorted names, then always the first dependency listed that leads there |
| TieBreak.TieBreakKeptIff | crates/phenocompose-cli/src/model.rs:331-364 | on every acyclic graph the order keeps the documented tie-break if and only if no route crosses over a smaller service that is ready before its end |
| TieBreak.EdgesKeepTieBreak | crates/phenocompose-cli/src/model.rs:331-364 | it is kept if whatever sorts between the ends of an edge to a greater name depends on its far end |
| TieBreak.TieBreakCanBreak | crates/phenocompose-cli/src/model.rs:331-364 | for any three ascending names, a graph with its order and the different order that the documentation promises |
| DependencyClosure.ClosureWalk.CollectService | crates/phenocompose-cli/src/lib.rs:533-541 | the one-set walk terminates on every graph, cyclic ones too, and does what the functional walk does |
| DependencyClosure.CollectClosure | crates/phenocompose-cli/src/lib.rs:542-544 | the closure of an action's service is `Closure` |
| DependencyClosure.ClosureIsReachableSet | crates/phenocompose-cli/src/lib.rs:533-544 | on every graph the closure lists exactly the services the root reaches, each once |
| DependencyClosure.WalksAgree | crates/phenocompose-cli/src/lib.rs:533-544 | wherever the two-set walk succeeds, the one-set walk from the merged sets makes the same appends and ends in the merged sets |
| DependencyClosure.RootedWalkIsExact | crates/phenocompose-cli/src/model.rs:332-355 | the two-set walk from one root fails exactly when the root reaches a cycle |
| DependencyClosure.ClosureAgreesWithOrder | crates/phenocompose-cli/src/lib.rs:533-544 | the closure is dependency-first if and only if the root reaches no cycle, and then equals the two-set walk's list element for element |
| DependencyClosure.ValidatedClosure | crates/phenocompose-cli/src/lib.rs:542-545 | for a manifest whose order exists, every action sees a dependency-first closure that ends in its own service |
| LifecyclePlan.PlanLifecycle | crates/phenocompose-cli/src/service_graph.rs:72-98 | a plan exists exactly for acyclic manifests, its order is topological, and its intents are the creation of each service from its image and its start under its health check, in that order; the error is that of the cycle |
| LifecyclePlan.EmitIntents | crates/phenocompose-cli/src/service_graph.rs:74-91 | pushing two intents per service yields the closed form `Intents` |
| LifecyclePlan.PlanFollowsEdges | crates/phenocompose-cli/src/service_graph.rs:72-98 | along every edge s to d, Create(d), Start(d) and Create(s) come in this order, and no step occurs twice |
| LifecyclePlan.PlanIsExecutable | crates/phenocompose-cli/src/service_graph.rs:72-98 | after every prefix of a plan, created services have all dependencies started and started services were created |
| LifecyclePlan.RequestPreservesPlan | crates/phenocompose-cli/src/lib.rs:1072-1121 | the NanoVMS request keeps the plan's order and steps, so all its prefixes are executable, and defines exactly the ordered services, with their dependencies and as `AsksToLaunch` says |
| LifecyclePlan.RequestAsksToLaunch | crates/phenocompose-cli/src/lib.rs:1072-1121 | field by field: each service is defined by its own image, dependencies, command, environment, CPU, memory and GPU selectors; creations carry the image and starts none; digest, run id, distribution, pipe and versions are those of plan and manifest |
| RuntimePort.NoopRuntime.Spawn | crates/port-runtime/src/lib.rs:160-169 | an empty image or a refusal of the schedule (which the no-op runtime itself never makes) has no effect; otherwise the next id is handed out and appended, and ids stay unique |
| RuntimePort.NoopRuntime.Stop | crates/port-runtime/src/lib.rs:171-181 | `swap_remove` of the first match: the last id takes its place; or not-found without effect; a stopped id is gone |
| RuntimePort.NoopRuntime.Status | crates/port-runtime/src/lib.rs:183-190 | Running exactly for alive ids |
| RuntimePort.NoopIdInjective | crates/port-runtime/src/lib.rs:165-166 | two counters never print the same id, as the port demands of `spawn` |
| RuntimePort.DecimalReads | crates/port-runtime/src/lib.rs:165-166 | the printed counter is decimal, without leading zeros, and reads back as the counter |
| RuntimePort.UndoMultiset | crates/phenocompose-cli/src/service_graph.rs:65-69 | stopping spawned ids in reverse restores the alive list as a multiset, whatever was alive before and despite `swap_remove` |
| RuntimePort.UndoFinds | crates/phenocompose-cli/src/service_graph.rs:65-69 | no stop of that undo misses its container |
| RuntimePort.UndoExact | crates/phenocompose-cli/src/service_graph.rs:65-69 | among distinct ids the reverse undo restores the very list, order included |
| Rollback.RollbackContract.Undo | crates/phenocompose-cli/src/service_graph.rs:65-69 | stops exactly the recorded containers, last first, ignoring errors |
| Rollback.ExecuteLifecyclePlan | crates/phenocompose-cli/src/service_graph.rs:139-168 | for any plan, at success or at the first spawn that fails, the contract holds exactly the services created so far, in plan order, with their ids, the runtime gained exactly those, spawns were asked for with the services' own images, and the error is that spawn's |
| Rollback.RecordedAreAlive | crates/phenocompose-cli/src/service_graph.rs:157-160 | each service is recorded with the very container that was spawned for it |
| Rollback.AsMapHolds | crates/phenocompose-cli/src/service_graph.rs:160 | in the returned map a service has the last container recorded for it |
| Rollback.UndoRestoresTheWorld | crates/phenocompose-cli/src/service_graph.rs:56-70 | execution up to any failure followed by rollback gives back what was alive (as a multiset; the same list on a runtime that holds only its own ids), and every stop finds its container |
| Rollback.ExecuteOrRollBack | crates/phenocompose-cli/src/service_graph.rs:139-168 | the two steps together on the runtime: a failure leaves the alive list as it was |
| Rollback.EveryFailurePointOccurs | crates/phenocompose-cli/src/service_graph.rs:139-168 | for a plan without empty images, as every validated one is, each creation can be the one that fails |
| Rollback.CreatesFollowOrder | crates/phenocompose-cli/src/service_graph.rs:145-166 | the creations in the first 2k intents of a plan are the first k services of its order |
| Rollback.ContractIsDependencyClosed | crates/phenocompose-cli/src/service_graph.rs:56-70 | at failure and at every step of the undo, the services still recorded contain all their dependencies |
| ContainerEngine.RollbackContainersFromMap | crates/phenocompose-cli/src/lib.rs:1065-1070 | issues a stop for every reported container, last key first, whatever fails, and changes nothing else |
| ContainerEngine.RollbackIsLastKeyFirst | crates/phenocompose-cli/src/lib.rs:1065-1070 | those stops come in descending order of service names |
| Teardown.StopIfActive | crates/phenocompose-cli/src/lib.rs:369-374 | one turn of the loop stops a running or paused container and leaves any other alone; it fails only if a call to the engine does, and may then have asked for the stop, and that may have happened |
| Teardown.StopServices | crates/phenocompose-cli/src/lib.rs:368-375 | success leaves every recorded container of the list exited or missing, has asked exactly for the stops of those that were running or paused, once each and in the order of the services, and changes no other; it fails only if a call to the engine does, has then done just that for the services before some service, and at most touched the container of that one |
| Teardown.SettleAllActive | crates/phenocompose-cli/src/lib.rs:368-375 | exactly the active containers outside the list stay active |
| Teardown.RetryFinishesTheJob | crates/phenocompose-cli/src/lib.rs:351-388 | after a failure at any point a retry ends where one undisturbed run would have, stops nothing twice and nothing that the failed run had settled |
| Teardown.SafeTeardownIff | crates/phenocompose-cli/src/lib.rs:360-375 | from every safe start, every intermediate state keeps dependencies of active services active, if and only if the list ranks each dependent's container no later than its dependency's |
| Teardown.DefaultTeardownIsSafe | crates/phenocompose-cli/src/lib.rs:361-363 | the reversed order is safe throughout when services have distinct containers |
| Teardown.DefaultTeardownSafeIff | crates/phenocompose-cli/src/lib.rs:361-375 | for any reported containers, the reversed `service_order` is safe throughout if and only if no service sharing a dependency's container comes after all services sharing the dependent's |
| Teardown.SharedContainerBreaksTeardown | crates/phenocompose-cli/src/lib.rs:1123-1159 | no check demands distinct containers: a graph, its computed order and a reported map for which the default teardown is not safe |
| Teardown.DownStopsEverythingIff | crates/phenocompose-cli/src/lib.rs:360-375 | a completed teardown leaves no recorded container active, whatever ran, if and only if its list names every one of them |
| Teardown.DefaultTeardownStopsDeclared | crates/phenocompose-cli/src/lib.rs:361-375 | the default order leaves no declared service active |
| DownSafety.SafeOrderIsSafe | crates/phenocompose-cli/src/lib.rs:360-375 | the order `down` decides on, default or explicit, is safe throughout exactly under the condition for its kind |
| DownSafety.TakeDownOnce | crates/phenocompose-cli/src/lib.rs:351-388 | `down`, however far it came, settled a prefix of its list and asked at most for that and the next stop, kept a safe state safe if the order is, and stores Down only when all is settled; it fails only if an engine call or its save does |
| DownSafety.TakeDownAgain | crates/phenocompose-cli/src/lib.rs:351-388 | run again after a failure, a successful `down` ends where one undisturbed run would have, with nothing listed active and the run stored as Down; it stops only what was active and the first run had not settled, each once |
| DownSafety.ValidTeardownCanBreak | crates/phenocompose-cli/src/model.rs:306-313 | a valid manifest whose explicit teardown order stops a service under its dependent, and completes with the dependent active |
| Evidence.BoundedString | crates/phenocompose-cli/src/lib.rs:792-803 | the loop finds the greatest boundary, and `truncated` is set exactly when it was set or the limit was exceeded |
| Evidence.CutAtBoundaryIsValid | crates/phenocompose-cli/src/lib.rs:796-801 | cutting valid UTF-8 at a character boundary leaves valid UTF-8 |
| Evidence.BoundaryNearby | crates/phenocompose-cli/src/lib.rs:796-801 | in valid UTF-8 a boundary lies at most three bytes below any position |
| Evidence.BoundedIsLongestText | crates/phenocompose-cli/src/lib.rs:792-803 | bounding keeps the longest prefix of whole characters within the limit, at most three bytes short of it |
| Evidence.TrustworthyFailureLifecycle | crates/phenocompose-cli/src/lib.rs:780-790 | bounds both streams and replaces hashes that do not match what is kept |
| Evidence.HashChecked | crates/phenocompose-cli/src/lib.rs:763-778 | a claimed hash passes if and only if it is 64 hex digits that match the digest up to case, with the code of the first that fails |
| Evidence.TrustedIs | crates/phenocompose-cli/src/lib.rs:783-788 | a claimed hash is kept if it passes and replaced by the digest otherwise |
| Evidence.LocalFailureIsTrustworthy | crates/phenocompose-cli/src/nvms.rs:159-171 | the evidence of a local failure needs no correction |
| Utf8.ValidIffEncoded | crates/phenocompose-cli/src/lib.rs:792-803 | the byte test for valid UTF-8 accepts exactly the encodings of scalar values of section 3 of RFC 3629 |
| Utf8.BoundaryIff | crates/phenocompose-cli/src/lib.rs:796-801 | the byte test for a boundary finds exactly the positions between encoded characters |
| Utf8.BoundedKeepsCharacters | crates/phenocompose-cli/src/lib.rs:792-803 | bounding keeps as many of the first characters as fit |
| Evidence.LifecycleBecomesTrustworthy | crates/phenocompose-cli/src/lib.rs:763-790 | any evidence becomes bounded with matching hashes; it is changed exactly when it was not so already, keeps exit code, duration and time-out, and `truncated` is set exactly when it was or something was cut |
| GpuUuid.CanonicalIsFixedPoint | crates/phenocompose-cli/src/model.rs:389-406 | canonical selectors are fixed points, and the fixed points are exactly `GPU-` and a lower-case UUID |
| GpuUuid.CanonicalDecidesSameGpu | crates/phenocompose-cli/src/model.rs:389-406 | two accepted selectors agree canonically if and only if they differ in prefix and hex case only |
| GpuUuid.CanonicalIff | crates/phenocompose-cli/src/model.rs:389-406 | a selector is accepted if and only if it spells a UUID in the 8-4-4-4-12 form, in any case, with prefix `GPU-`, `gpu-` or none; its canonical form is that UUID in lower case behind `GPU-` |
| GpuBindings.CanonicalUuids | crates/phenocompose-cli/src/lib.rs:569-577 | adds exactly the canonical forms, or fails exactly when some selector has none |
| GpuBindings.SelectUuids | crates/phenocompose-cli/src/lib.rs:545-578 | the set of all GPUs the closure selects, or the refusal of its first refused service |
| GpuBindings.ActionGpuBindings | crates/phenocompose-cli/src/lib.rs:532-594 | the bindings are exactly the GPUs of the closure, canonical, sorted, each once, each with the manifest's toolkit version and the CDI name of its own UUID; failures are the first refusal or an empty selection |
| GpuBindings.RefusalChecked | crates/phenocompose-cli/src/lib.rs:547-577 | a service of the closure is refused for the first of: a vendor other than NVIDIA, no CUDA toolkit with a version, a selector that is no UUID |
| GpuBindings.AttestedIffPermutation | crates/phenocompose-cli/src/lib.rs:726-733 | the set-plus-length comparison accepts exactly the permutations of the requested UUIDs |
| CanonicalJson.CanonicalizePreservesLookups | crates/phenocompose-cli/src/model.rs:410-417 | every key of an object keeps its canonicalised value and no key appears or vanishes |
| CanonicalJson.CanonicalDecides | crates/phenocompose-cli/src/model.rs:408-420 | two documents canonicalise alike if and only if they say the same up to key order, at every depth |
| CanonicalJson.CanonicalizeIsCanonical | crates/phenocompose-cli/src/model.rs:408-420 | the canonical form keeps the meaning, is sorted at every level and is idempotent |
| Validation.CheckService | crates/phenocompose-cli/src/model.rs:251-284 | the code of the first check that the service fails, in order; passes exactly the valid ones |
| Validation.CheckHeader | crates/phenocompose-cli/src/model.rs:235-250 | the checks on version, name and services, in order |
| Validation.CheckAction | crates/phenocompose-cli/src/model.rs:286-305 | the checks on one action in order, passing exactly the valid ones |
| Validation.CheckServices | crates/phenocompose-cli/src/model.rs:251-284 | passes exactly when all services are fine, and otherwise reports the first faulty service in key order |
| Validation.CheckActions | crates/phenocompose-cli/src/model.rs:286-305 | the same for actions |
| Validation.Validate | crates/phenocompose-cli/src/model.rs:235-315 | accepts exactly the valid manifests, acyclicity included; an error explains the first fault in checking order, everything checked before being fine |
| Validation.ValidManifestsExist | crates/phenocompose-cli/src/model.rs:235-315 | any single service with an image, without dependencies, GPUs, actions or teardown order, makes a valid manifest |
| Planning.NormalizeUuids | crates/phenocompose-cli/src/model.rs:373-381 | the in-place rewrite replaces every selector by its canonical form, or fails exactly when one has none |
| Planning.NormalizeGpuUuids | crates/phenocompose-cli/src/model.rs:366-386 | rewrites every service so, or fails exactly when some selector has no canonical form |
| Planning.NormalizedIsRespelled | crates/phenocompose-cli/src/model.rs:366-386 | normalising puts every GPU selector in canonical spelling and changes no other field |
| Planning.MakePlan | crates/phenocompose-cli/src/model.rs:317-329 | plans exactly the normalisable manifests: the canonical JSON of the normalised manifest is decoded again and hashed |
| Planning.PlanIsRespelled | crates/phenocompose-cli/src/model.rs:317-329 | a plan carries the respelled manifest, and the digest of the canonical JSON of that |
| Planning.NormalizationKeepsValidity | crates/phenocompose-cli/src/model.rs:235-315 | a valid manifest is normalisable and stays valid |
| Planning.PlanningIsIdempotent | crates/phenocompose-cli/src/model.rs:317-329 | a valid manifest always plans, and its normalised form is valid and plans to the same digest and to itself |
| Planning.NormalizationDecidesSpelling | crates/phenocompose-cli/src/model.rs:366-386 | two manifests normalise alike if and only if only the spelling of GPU selectors differs |
| Planning.DocumentDecidesSpelling | crates/phenocompose-cli/src/model.rs:317-329 | the documents that are hashed are equal if and only if the manifests differ in the spelling of GPU selectors only |
| Planning.DigestDecidesSpelling | crates/phenocompose-cli/src/model.rs:317-329 | respelling never changes a plan, and two digests are equal if and only if the manifests differ in spelling only or their own two documents collide |
| Evaluation.StoredEvidenceIsTrustworthy | crates/phenocompose-cli/src/lib.rs:454-507 | for an arbitrary client, on every path, the stored record has bounded output with matching hashes and its own identity |
| Evaluation.RequestChecked | crates/phenocompose-cli/src/lib.rs:616-645 | a request is made if and only if the action has a command and an output root and the paths resolve; otherwise the error of the first of these |
| Evaluation.RequestAsksToRun | crates/phenocompose-cli/src/lib.rs:616-682 | field by field: the action's command, the service's variables over the manifest's, the resolved output root, the reservation path, the distribution, the run's digest, the bound GPUs and their toolkit |
| Evaluation.ReplyChecked | crates/phenocompose-cli/src/lib.rs:684-761 | a reply is accepted if and only if it meets every demand; otherwise the error is that of the first it does not meet |
| Evaluation.OutcomeTold | crates/phenocompose-cli/src/lib.rs:466-509 | the record holds what the client reported, each field where it belongs, success exactly for an accepted reply that claims it, and otherwise the code and message of the failure, the reply or the check |
| Evaluation.SuccessIffNoErrorCode | crates/phenocompose-cli/src/lib.rs:466-509 | a record says success exactly when the caller is told so, and success coincides with an empty error code if and only if no client failed without naming one |
| Evaluation.SuccessIsAttested | crates/phenocompose-cli/src/lib.rs:684-761 | a stored success was attested in full: version, digest, route, pipe, job directory, a permutation of the GPUs, a clean exit in time, evidence stored unchanged |
| Evaluation.StoredOutputIsText | crates/phenocompose-cli/src/lib.rs:780-803 | stored output is the longest whole-character prefix of what the client reported within the limit, marked when cut |
| Launch.AppliedRunIsAddressableIff | crates/phenocompose-cli/src/lib.rs:250-254 | a derived run id passes `validate_slug` if and only if the manifest name starts with an ASCII letter or digit and has at most 115 characters |
| Launch.SlugIff | crates/phenocompose-cli/src/lib.rs:878-893 | a slug is 1 to 128 ASCII letters, digits, hyphens and underscores, the first a letter or digit |
| Launch.RunIdSpells | crates/phenocompose-cli/src/lib.rs:250-254 | a run id is the name with letters in lower case and hyphens for punctuation, a hyphen, and the first twelve digits of the digest |
| Launch.RunIdsCollideIff | crates/phenocompose-cli/src/lib.rs:250-254 | two manifests share a run id if and only if their names differ in case and punctuation only and the digests begin alike |
| Launch.FoundProvider | crates/phenocompose-cli/src/service_graph.rs:110-114 | the search finds the lifecycle provider whose name comes first in key order, or there is none |
| Launch.CapabilitiesChecked | crates/phenocompose-cli/src/lib.rs:969-1042 | the capability checks in order, each with its code |
| Launch.LifecycleChecked | crates/phenocompose-cli/src/service_graph.rs:109-137 | the checks on the first lifecycle provider, each with its code |
| Launch.CapabilitiesGuardLaunch | crates/phenocompose-cli/src/lib.rs:267-268 | both pass if and only if the manifest is supported: Podman, the first lifecycle provider and every other provider available, NVIDIA only, no health checks, artifacts or volume removal |
| Launch.LaterProviderIsIgnored | crates/phenocompose-cli/src/service_graph.rs:110-114 | an available lifecycle provider behind an unavailable one in key order does not help |
| Launch.ResultChecked | crates/phenocompose-cli/src/lib.rs:1123-1159 | a launch result is accepted if and only if it meets every check; otherwise the error is that of the first it fails |
| Runs.RunStore.SaveState | crates/phenocompose-cli/src/lib.rs:1186-1193 | replaces one run file or fails and changes nothing |
| Runs.RunStore.SaveJob | crates/phenocompose-cli/src/lib.rs:817-843 | replaces one job record or fails and changes nothing |
| Runs.Publish | crates/phenocompose-cli/src/lib.rs:280-291 | succeeds exactly when every service's image is in the local store |
| Runs.PrepareApply | crates/phenocompose-cli/src/lib.rs:248-291 | everything `apply` decides before it asks NanoVMS, without touching any state |
| Runs.LaunchChecked | crates/phenocompose-cli/src/lib.rs:267-291 | a launch is refused for the first check that fails: capabilities, lifecycle provider, unused run id, probe, images |
| Runs.ApplyDecided | crates/phenocompose-cli/src/lib.rs:248-291 | `apply` answers with the first check that fails; without one it reports the plan of the manifest and its run id, or launches that |
| Runs.LaunchIsPlanned | crates/phenocompose-cli/src/lib.rs:248-293 | NanoVMS is only asked for a supported, normalisable, acyclic manifest, with its topological plan, digest and an unused run id, and never in a dry run |
| Runs.LaunchRun | crates/phenocompose-cli/src/lib.rs:293-329 | exactly one client call, and then what `Launched` allows |
| Runs.Apply | crates/phenocompose-cli/src/lib.rs:242-330 | a refusal or dry run changes nothing and calls nobody; a launch makes one call, which asks for the manifest's services along the plan |
| Runs.ApplyIsAllOrNothing | crates/phenocompose-cli/src/lib.rs:293-329 | Ok means a stored Running state whose containers cover every service; any error leaves the run files as they were, and every reported container is stopped if and only if the error is not the clock's (or nothing was reported) |
| Runs.LaunchAnswers | crates/phenocompose-cli/src/lib.rs:293-329 | a launched run is stored with the time and the reported containers and the caller is told so; an error is the client's, that of the first check its result fails, the clock's or the save's |
| Runs.TakeDown | crates/phenocompose-cli/src/lib.rs:351-388 | refusals stop nothing; success leaves the recorded containers of its order exited or missing and stores Down; a failure leaves the stored run Running, with the teardown interrupted at a service or its save failed |
| Runs.DownDecided | crates/phenocompose-cli/src/lib.rs:351-367 | `down` is refused for the first check that fails, and otherwise works through the manifest's own teardown order, or through the reversed dependency order, which exists unless there is a cycle |
| Runs.LoadChecked | crates/phenocompose-cli/src/lib.rs:1173-1184 | a run is loaded if its id is a slug and its file is there |
| Runs.ReportChecked | crates/phenocompose-cli/src/lib.rs:1052-1063 | and worked on if Podman is its provider |
| Runs.CollectStatuses | crates/phenocompose-cli/src/lib.rs:336-343 | the status of every recorded container, one call each, without changing any; fails exactly when a call fails |
| Runs.Status | crates/phenocompose-cli/src/lib.rs:332-349 | the refusals first; then the stored lifecycle and the engine's status of each service by its name, failing exactly when an engine call fails |
| Runs.LoadJobs | crates/phenocompose-cli/src/lib.rs:853-876 | exactly the stored records of the run |
| Runs.ExportProvenance | crates/phenocompose-cli/src/lib.rs:511-530 | on a well-kept store an export that was requested always succeeds and holds exactly the run and its records |
| Runs.DraftJob | crates/phenocompose-cli/src/lib.rs:405-464 | a record is drafted exactly when run, action, job id and GPU closure admit it; otherwise the error is that of the first check to fail |
| Runs.ActionChecked | crates/phenocompose-cli/src/lib.rs:413-427 | an action is refused for the first check that fails: ids, run, lifecycle, Podman route, action |
| Runs.PersistJobFailure | crates/phenocompose-cli/src/lib.rs:805-815 | one save attempt of the failed record; the caller gets the action's error, or the save's if that failed |
| Runs.ConductJob | crates/phenocompose-cli/src/lib.rs:466-509 | exactly one save attempt and at most one client call on every path |
| Runs.RunAction | crates/phenocompose-cli/src/lib.rs:405-509 | what is not admitted has no effect and is answered by the first check to fail; what is admitted makes one save attempt and stores the outcome's record; a client is asked once if the request can be made, for the action's command and the GPUs of its closure, and not at all otherwise |
| Runs.ConductedTells | crates/phenocompose-cli/src/lib.rs:466-509 | the stored record belongs to the action and tells what the client reported, and the caller gets the same verdict; or the save failed and the caller gets its error |
| RunSafety.EvolvesTransitive | crates/phenocompose-cli/src/lib.rs:242-530 | the safety relation between stored states composes over runs of commands |
| RunSafety.SoundRuns | crates/phenocompose-cli/src/lib.rs:305-316 | every run of a sound store has a valid, supported manifest, the digest of its normalised form, the id derived from both, and a container for every service |
| RunSafety.SoundRecords | crates/phenocompose-cli/src/lib.rs:428-458 | every record of a sound store belongs to an action of its run, with the run's digest, the closure of the action's service and exactly the GPUs that selects; its evidence is trustworthy, and its error code tells success, in both directions when clients name their failures |
| RunSafety.EmptyIsSound | crates/phenocompose-cli/src/lib.rs:242-530 | an empty state directory is sound |
| RunSafety.ApplyEvolves | crates/phenocompose-cli/src/lib.rs:269-316 | an apply of a valid manifest can only add, under an unused id, a run that is sound |
| RunSafety.TakingDownEvolves | crates/phenocompose-cli/src/lib.rs:376-377 | storing Down keeps the rest of the run, its jobs and every other run |
| RunSafety.ConcludedRecordIsStorable | crates/phenocompose-cli/src/lib.rs:405-509 | whatever the client answers, the record fits its run: action, digest, closure, bindings, evidence, and success told by the error code |
| RunSafety.ActionEvolves | crates/phenocompose-cli/src/lib.rs:405-509 | an action can only add a sound record under an unused key of a Running run |
| RunSafety.LoadManifest | crates/phenocompose-cli/src/lib.rs:229-232 | a read or parse error is passed on; what is loaded is valid, and names every service and action service the commands index by; another error explains the first fault |
| RunSafety.ApplyLoaded | crates/phenocompose-cli/src/main.rs:65-68 | the `apply` command on any manifest, valid or not, only adds a run under an unused id or leaves the store alone |
| RunSafety.Perform | crates/phenocompose-cli/src/main.rs:60-90 | every command keeps the safety relation and the soundness of the store |
| RunSafety.PerformAll | crates/phenocompose-cli/src/main.rs:60-90 | over all command sequences, with clients that may answer every call differently, failures and faults: the store stays sound, runs never vanish, keep manifest, digest and containers, and go from Running to Down only; job records are write-once and never added to a run that is down |
| RunSafety.UnderscoreRunIsStranded | crates/phenocompose-cli/src/lib.rs:878-893 | the run of a valid manifest named `_x` cannot be loaded by any command, whatever is stored |
| Oci.ToString | crates/port-types/src/oci.rs:99-115 | appending the parts builds `Print` |
| Oci.WithTag | crates/port-types/src/oci.rs:231-241 | prints like the reference with that tag |
| Oci.WithDigest | crates/port-types/src/oci.rs:246-256 | prints like the reference with that digest |
| Oci.ParseThenPrint | crates/port-types/src/oci.rs:140-213 | whatever parses prints as the trimmed input and parses again to the same reference |
| Oci.PrintThenParseIff | crates/port-types/src/oci.rs:140-213 | printing and parsing gives a reference back if and only if it is well-formed, including ports, tag with digest, and hand-built strings |
| Oci.PathDecidesRegistry | crates/port-types/src/oci.rs:205-213 | what precedes the first slash is the registry if and only if it has a dot or a colon; otherwise the whole path is the repository |
| Oci.HostAndPortParse | crates/port-types/src/oci.rs:130-133 | `host:port/repository:tag` parses into these parts, with a digest or without, for all hosts, ports, repositories and tags |
| Oci.LocalhostParses | crates/port-types/src/oci.rs:205-213 | `localhost:5000/app:v1` has registry `localhost:5000` and repository `app` |
| Oci.ParseFailsIff | crates/port-types/src/oci.rs:140-187 | `parse` fails exactly on blank input, an empty digest, a digest without an algorithm, and a digest alone, each with its own error |
| Oci.MissingRepositoryParsesIff | crates/port-types/src/oci.rs:184-213 | a reference without a repository parses if and only if its name is a bare tag, or a host-like registry with nothing or a tag behind it |
| Oci.LatestParses | crates/port-types/src/oci.rs:137-213 | `:latest` parses, with an empty repository |
| Secrets.LocatorIsInjectiveOnSlashFreeNames | crates/port-types/src/secret.rs:53-59 | slash-free names have distinct keys; in general a reference shares its key with another if and only if it has a namespace or a slash past its name's first character |
| Secrets.PutIsDocumentedIff | crates/secret-file-adapter/src/lib.rs:23-31 | `put` does what is documented if and only if the name is empty, nothing is stored, the version is zero, or it is the stored one |
| Secrets.StaleVersionIsAccepted | crates/secret-file-adapter/src/lib.rs:23-31 | version 1 overwrites a stored version 2, which the documentation rejects |
| Secrets.KeysCountWrites | crates/port-secret/src/lib.rs:135-157 | after any history from empty, whichever references share keys, a key holds what was last put under it, versioned by the puts since its last delete, and nothing after a delete |
| Secrets.VersionsCountWrites | crates/port-secret/src/lib.rs:135-157 | the same by reference, where names have no slash |
| Secrets.ReplayKeepsKeys | crates/port-secret/src/lib.rs:135-157 | every entry stays under its own locator |
| Secrets.ListNamespace | crates/port-secret/src/lib.rs:159-169 | exactly the references of the namespace, in locator order |
| Secrets.InMemorySecretStore.PutSecret | crates/port-secret/src/lib.rs:135-150 | one step of the history, returning what is now stored; an empty name is refused without effect; the documented outcome exactly when the version matches |
| Secrets.InMemorySecretStore.DeleteSecret | crates/port-secret/src/lib.rs:152-157 | removes the reference whether or not it is there |
| SecretFile.FileSecretStore.Flush | crates/secret-file-adapter/src/file.rs:85-101 | success leaves the memory's encoding, synced, in the main file; failure at any step leaves the main file alone |
| SecretFile.FileSecretStore.PutSecret | crates/secret-file-adapter/src/file.rs:118-151 | the write always reaches memory; Ok says it reached disk, an error that the main file is unchanged; without a failure the documented outcome exactly when the version matches |
| SecretFile.FileSecretStore.DeleteSecret | crates/secret-file-adapter/src/file.rs:153-166 | the same for deletions |
| SecretFile.FlushedReadsBack | crates/secret-file-adapter/src/file.rs:43-66 | opening after a completed flush finds what was in memory |
| SecretFile.ReadBackIs | crates/secret-file-adapter/src/file.rs:43-60 | an absent or empty file stands for no secrets, any other for what its bytes decode to, and nothing else is ever read |
| SecretFile.SyncIsNeeded | crates/secret-file-adapter/src/file.rs:85-101 | without the sync before the rename, a crash could leave an empty store in place of any other |
| SecretFile.Open | crates/secret-file-adapter/src/file.rs:43-66 | opens with what the main file decodes to (nothing if absent or empty) and flushes at once; fails exactly when the read, the parse or that flush fails, with the error of the first |
| SecretProtocol.StepKeepsDurable | crates/secret-file-adapter/src/file.rs:85-166 | every step of any thread, every failure and every crash keeps memory the replay of the log and disk the replay of a committed prefix that holds all acknowledged writes |
| SecretProtocol.StepKeepsThreads | crates/secret-file-adapter/src/file.rs:85-166 | one holder of the lock at most, whose temporary file is what its stage says |
| SecretProtocol.StepRemembers | crates/secret-file-adapter/src/file.rs:85-166 | the committed history only grows and acknowledgements are never taken back |
| SecretProtocol.EveryRunIsDurable | crates/secret-file-adapter/src/file.rs:85-166 | all of this over every run of any number of threads |
| SecretProtocol.AcknowledgedWritesSurvive | crates/secret-file-adapter/src/file.rs:118-166 | a write that returned Ok is replayed by every later reopening, whatever happened since |
| SecretProtocol.ReopenedVersions | crates/secret-file-adapter/src/file.rs:43-66 | a reopened store holds, for every reference, the last committed value with the version that counts its writes |
| SecretProtocol.OpenedStoreIsDurable | crates/secret-file-adapter/src/file.rs:43-166 | from the moment `open` returned, after any run the invariant holds, and what was acknowledged by then is replayed by a reopening after any further run |
| SecretProtocol.NewStoreKeys | crates/secret-file-adapter/src/file.rs:43-166 | a store opened on no file reopens, after any run, to what was last committed under each key, with the count of its writes |
| SecretProtocol.NewStoreVersions | crates/secret-file-adapter/src/file.rs:43-166 | the same by reference, where names have no slash |
| SecretProtocol.CrashIsAtomic | crates/secret-file-adapter/src/file.rs:85-101 | a crash between any two steps of a flush leaves the old contents or the new ones; only the rename moves from one to the other |
| SecretProtocol.CrashIsRecoverable | crates/secret-file-adapter/src/file.rs:43-66 | after a crash at any point the file can be opened |
| SecretProtocol.DiskCatchesUp | crates/secret-file-adapter/src/file.rs:143-149 | once the latest write is acknowledged, disk equals memory, failed writes included |
| SecretProtocol.RenameSettles | crates/secret-file-adapter/src/file.rs:85-101 | any flush that got to its rename makes disk and memory equal, failed writes included, and they stay equal through returns, further flushes, failures and crashes until the next write |
| SecretProtocol.QuietDiskIsMemory | crates/secret-file-adapter/src/file.rs:85-166 | in a run without failures and crashes, once all threads have returned, disk equals memory |
| SecretProtocol.FlushSeesOneMemory | crates/secret-file-adapter/src/file.rs:86-99 | nothing changes memory or another thread while a flush holds the lock |
| SecretProtocol.FailLeaves | crates/secret-file-adapter/src/file.rs:85-101 | a flush can fail at any stage; that leaves memory, disk and history alone, frees the lock and acknowledges nothing |
| SecretProtocol.CrashRestarts | crates/secret-file-adapter/src/file.rs:43-66 | a crash can come at any point; what follows starts from what the file stands for |
| SecretProtocol.FlushCompletes | crates/secret-file-adapter/src/file.rs:85-101 | whenever the lock is free, an undisturbed flush runs to its end and commits the whole log |
| SecretProtocol.UndisturbedWrite | crates/secret-file-adapter/src/file.rs:118-166 | the protocol with one undisturbed thread does what the store's `put` and `delete` promise |
| Memory.SimdCopyNeon | bindings/zig/memory.zig:143-159 | writes exactly the source bytes to the front of the destination, for every length, also when both are the same |
| Memory.SimdSetNeon | bindings/zig/memory.zig:171-187 | sets every byte, for every length |
| Memory.SimdCompareNeon | bindings/zig/memory.zig:202-228 | the chunked comparison computes the first difference |
| Memory.SimdCompareScalar | bindings/zig/memory.zig:195-200 | the scalar loop indexes past the second slice exactly when that is a proper prefix of the first, and otherwise computes the first difference |
| Memory.SkipEqual | bindings/zig/memory.zig:206-220 | skipping equal chunks does not move the first difference |
| Memory.DifferenceIsLeast | bindings/zig/memory.zig:202-228 | the first difference is the least differing index below both lengths, or there is none |
| Memory.ChunkedMissesOverrun | bindings/zig/memory.zig:202-228 | where the scalar form overruns, the chunked one reports no difference |
| BoundedRead.ReadBounded | crates/phenocompose-cli/src/nvms.rs:333-347 | whatever the sizes of the reads, the first `limit` bytes, truncated exactly when there was more, the stream drained; fails exactly when a read fails |

## Left out

- Rollback.ExecuteLifecyclePlan: services share one runtime, which may refuse any spawn; a runtime chosen per service is not modelled.
- RuntimePort.NoopRuntime.Spawn: the counter and the list are updated without interleaving; the atomic and the mutex are not modelled.
- Memory.SimdCopyNeon: source and destination are whole arrays, the same or different; slices that overlap in part are not modelled.
- Runs.RunStore.SaveState: writing the temporary file and renaming it are one step that happens or fails; what a failed save leaves in the temporary file is not modelled.
- Runs.RunStore.SaveJob: as for `SaveState`; the exclusive creation of the temporary file is one more way to fail.
- SecretProtocol.EveryRunIsDurable: rename is atomic and durable (the directory is not synced by the code), and threads that only read are not modelled.
- Runs.Apply: what NanoVMS itself does to containers is not modelled; the engine changes only through the stops of this program.
- Runs.ExportProvenance: I/O errors while reading back stored files are not modelled; stored files read back as they were saved.
- Two processes on one secrets file: they share one temporary path, and nothing is promised.
- Error message texts other than those of cycles and clients.
- Paths: output roots, the reservation path and the job-directory check are functions of `Surroundings`; Windows prefixes are not modelled.
- Processes, pipes, timeouts, Podman and WSL command lines.
- Serialisation formats, SHA-256 and the lossy decoding of captured bytes: parameters.
- Fields with a single possible value (`kind`, the provenance format), and the optional `lifecycle` of a job record, which this program always fills in.
- Overflow of ids, versions, sizes and times: natural numbers.
- Job records are read back by listing a directory in the program and by key in the model; the order of the listing does not matter for a map.
- The Zig copy and set fallbacks, which are single built-in calls, and the allocators.
- The other ports and adapters, the plugin registry, dependency injection, the shells and the release scripts.
