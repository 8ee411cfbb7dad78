/** Persisted runs and job records, and the commands that read and change them. */
module Runs {
  import opened Prelude
  import opened Text
  import opened Checks
  import opened Model
  import opened Evidence
  import opened GpuBindings
  import opened Evaluation
  import opened DependencyOrder
  import opened DependencyOrderTheory
  import opened DependencyClosure
  import opened LifecyclePlan
  import opened Launch
  import opened ContainerEngine
  import opened Teardown
  import RuntimePort
  import Planning

  datatype RunLifecycle = Running | Down

  datatype RunState = RunState(
    stateVersion: string,
    runId: string,
    manifestSha256: string,
    provider: string,
    createdUnixSeconds: nat,
    lifecycle: RunLifecycle,
    containers: map<string, string>,
    manifest: Manifest)

  /** Run id and job id: the path of a job record. */
  type JobKey = (string, string)

  datatype Snapshot = Snapshot(runs: map<string, RunState>, jobs: map<JobKey, Job>)

  /** Everything the code indexes by name is there; `validate` checks it. */
  predicate Indexable(m: Manifest) {
    Closed(Dependencies(m)) && forall a :: a in m.actions ==> m.actions[a].service in m.services
  }

  /** Run files and job files carry the names they are stored under. */
  ghost predicate WellKept(s: Snapshot) {
    && (forall id :: id in s.runs ==> s.runs[id].runId == id && Indexable(s.runs[id].manifest))
    && (forall k :: k in s.jobs ==> s.jobs[k].runId == k.0 && s.jobs[k].jobId == k.1 && k.0 in s.runs)
  }

  function Loaded(runs: map<string, RunState>, runId: string): Result<RunState, CliError> {
    if !IsSlug(runId) then
      Err(Raise(Validation, "run_id_invalid"))
    else if runId !in runs then
      Err(Raise(ErrorKind.NotFound, "run_not_found"))
    else
      Ok(runs[runId])
  }

  function MustHold(holds: bool, kind: ErrorKind, code: string): Check {
    Check(holds, Raise(kind, code))
  }

  /** What a command demands of the run it is given. */
  ghost function LoadChecks(runs: map<string, RunState>, runId: string): seq<Check> {
    [ MustHold(IsSlug(runId), Validation, "run_id_invalid"),
      MustHold(runId in runs, ErrorKind.NotFound, "run_not_found") ]
  }

  lemma LoadChecked(runs: map<string, RunState>, runId: string)
    ensures Decides(LoadChecks(runs, runId), FaultOf(Loaded(runs, runId)))
    ensures Loaded(runs, runId).Ok? ==> runId in runs && Loaded(runs, runId).value == runs[runId]
  {
    var checks := LoadChecks(runs, runId);
    if !IsSlug(runId) {
      assert FailsAt(checks, 0);
    } else if runId !in runs {
      assert FailsAt(checks, 1);
    }
  }

  /** The state directory. A save replaces one file in a single rename, or fails
      and leaves the committed files as they were. */
  class RunStore {
    var runs: map<string, RunState>
    var jobs: map<JobKey, Job>
    /** Saves tried so far. */
    var attempts: nat
    const saveFault: nat -> Option<CliError>

    constructor (saveFault: nat -> Option<CliError>)
      ensures Now() == Snapshot(map[], map[]) && WellKept(Now())
    {
      runs, jobs, attempts := map[], map[], 0;
      this.saveFault := saveFault;
    }

    function Now(): Snapshot
      reads this
    {
      Snapshot(runs, jobs)
    }

    method SaveState(state: RunState) returns (r: Result<Unit, CliError>)
      modifies this
      ensures jobs == old(jobs) && attempts == old(attempts) + 1
      ensures saveFault(old(attempts)).None? ==> r == Ok(Unit) && runs == old(runs)[state.runId := state]
      ensures saveFault(old(attempts)).Some? ==> r == Err(saveFault(old(attempts)).value) && runs == old(runs)
    {
      var fault := saveFault(attempts);
      attempts := attempts + 1;
      if fault.Some? {
        return Err(fault.value);
      }
      runs := runs[state.runId := state];
      return Ok(Unit);
    }

    method SaveJob(job: Job) returns (r: Result<Unit, CliError>)
      modifies this
      ensures runs == old(runs) && attempts == old(attempts) + 1
      ensures saveFault(old(attempts)).None? ==> r == Ok(Unit) && jobs == old(jobs)[(job.runId, job.jobId) := job]
      ensures saveFault(old(attempts)).Some? ==> r == Err(saveFault(old(attempts)).value) && jobs == old(jobs)
    {
      var fault := saveFault(attempts);
      attempts := attempts + 1;
      if fault.Some? {
        return Err(fault.value);
      }
      jobs := jobs[(job.runId, job.jobId) := job];
      return Ok(Unit);
    }
  }

  // ----- apply -----

  /** NanoVMS: every call may be answered differently, even for one request. */
  class LaunchClient {
    var calls: seq<LifecycleRequest>
    const reply: (nat, LifecycleRequest) -> LaunchReply

    constructor (reply: (nat, LifecycleRequest) -> LaunchReply)
      ensures calls == []
    {
      calls := [];
      this.reply := reply;
    }

    method Execute(request: LifecycleRequest) returns (r: LaunchReply)
      modifies this
      ensures calls == old(calls) + [request] && r == reply(|old(calls)|, request)
    {
      r := reply(|calls|, request);
      calls := calls + [request];
    }
  }

  /** The host: the Podman probe, its image store and the clock. */
  datatype Host = Host(probe: Option<CliError>, imageExists: string -> bool, clock: Option<nat>)

  datatype ApplyOutput = ApplyOutput(
    runId: string,
    manifestSha256: string,
    provider: string,
    dryRun: bool,
    mutation: bool,
    lifecycle: Plan,
    containers: map<string, string>)

  datatype Verdict = Rejected(error: CliError) | DryRun(output: ApplyOutput) | Launching(plan: Plan, runId: string)

  function ProviderName(p: RuntimeProvider): string {
    match p
    case Podman => "podman"
    case Nvms => "nvms"
    case Stub => "placeholder"
  }

  function LaunchRefusal(m: Manifest, runId: string, runs: map<string, RunState>, host: Host): Option<CliError> {
    if EnsureApplyCapabilities(m).Err? then
      Some(EnsureApplyCapabilities(m).error)
    else if EnsureServiceLifecycle(m).Err? then
      Some(EnsureServiceLifecycle(m).error)
    else
      HostRefusal(m, runId, runs, host)
  }

  function HostRefusal(m: Manifest, runId: string, runs: map<string, RunState>, host: Host): Option<CliError> {
    if runId in runs then
      Some(Raise(Conflict, "run_exists"))
    else if host.probe.Some? then
      host.probe
    else if exists n :: n in m.services && !host.imageExists(m.services[n].image) then
      Some(Raise(Backend, "publish_failed"))
    else
      None
  }

  /** The plan `apply` works with. */
  function PlanToLaunch(m: Manifest, c: Planning.Codec): Plan
    requires Closed(Dependencies(m)) && Order(Dependencies(m)).Ok?
  {
    var order := Order(Dependencies(m)).value;
    OrderIsExact(Dependencies(m));
    TopologicalNames(m, order);
    Plan(LIFECYCLE_SCHEMA_VERSION, Planning.Digested(c, Planning.Normalized(m)), order, Intents(order, m.services))
  }

  /** What `apply` decides before it asks NanoVMS for anything. */
  function Decide(m: Manifest, c: Planning.Codec, dryRun: bool, runs: map<string, RunState>, host: Host): Verdict
    requires Closed(Dependencies(m)) && |Planning.Digested(c, Planning.Normalized(m))| == 64
  {
    if !Planning.Normalizable(m) then
      Rejected(Raise(Validation, "gpu_selector_invalid"))
    else if Order(Dependencies(m)).Err? then
      Rejected(Order(Dependencies(m)).error)
    else
      DecidePlanned(m, PlanToLaunch(m, c), dryRun, runs, host)
  }

  function DecidePlanned(m: Manifest, plan: Plan, dryRun: bool, runs: map<string, RunState>, host: Host): Verdict
    requires |plan.manifestSha256| >= 12
  {
    var runId := RunIdOf(m, plan.manifestSha256);
    if dryRun then
      DryRun(ApplyOutput(runId, plan.manifestSha256, ProviderName(m.runtime.provider), true, false, plan, map[]))
    else if LaunchRefusal(m, runId, runs, host).Some? then
      Rejected(LaunchRefusal(m, runId, runs, host).value)
    else
      Launching(plan, runId)
  }

  lemma TopologicalNames(m: Manifest, order: seq<string>)
    requires Topological(Dependencies(m), order)
    ensures forall n :: n in order <==> n in m.services
  {
    assert forall n :: n in order <==> n in Elements(order);
  }

  datatype Conclusion = Abandoned(error: CliError, containers: map<string, string>) | NoClock | Persist(state: RunState)

  /** What the reply of NanoVMS leads to. */
  function Conclude(m: Manifest, plan: Plan, runId: string, reply: LaunchReply, clock: Option<nat>): Conclusion {
    match reply
    case Err(failure) => Abandoned(failure.error, failure.result.containers)
    case Ok(result) =>
      match ValidateLifecycleResult(BuildLifecycleRequest(m, plan, runId, plan.manifestSha256), result)
      case Err(e) => Abandoned(e, result.containers)
      case Ok(_) =>
        match clock
        case None => NoClock
        case Some(now) =>
          Persist(RunState("phenocompose.run/v0", runId, plan.manifestSha256, "podman", now, Running, result.containers,
            m))
  }

  const CLOCK_ERROR := Raise(Backend, "clock")

  method Publish(m: Manifest, plan: Plan, host: Host) returns (r: Result<Unit, CliError>)
    requires (forall n :: n in plan.order <==> n in m.services) && plan.intents == Intents(plan.order, m.services)
    ensures r.Ok? <==> forall n :: n in m.services ==> host.imageExists(m.services[n].image)
    ensures r.Err? ==> r.error == Raise(Backend, "publish_failed")
  {
    for i := 0 to |plan.intents|
      invariant forall j :: 0 <= j < i && plan.intents[j].phase == Create ==>
                  host.imageExists(m.services[plan.intents[j].service].image)
    {
      var intent := plan.intents[i];
      assert intent.service in plan.order;
      if intent.phase == Create {
        if !host.imageExists(m.services[intent.service].image) {
          return Err(Raise(Backend, "publish_failed"));
        }
      }
    }
    forall n | n in m.services
      ensures host.imageExists(m.services[n].image)
    {
      var i :| 0 <= i < |plan.order| && plan.order[i] == n;
      assert plan.intents[2 * i] == CreateIntent(n, m.services[n]);
    }
    return Ok(Unit);
  }

  /** The part of `apply` that only looks: planning and every refusal. */
  method PrepareApply(store: RunStore, m: Manifest, c: Planning.Codec, dryRun: bool, host: Host) returns (v: Verdict)
    requires Indexable(m) && Planning.Faithful(c) && PrintsHex(c.digest)
    ensures |Planning.Digested(c, Planning.Normalized(m))| == 64
    ensures v == Decide(m, c, dryRun, store.runs, host)
  {
    Planning.DigestedIsHex(c, Planning.Normalized(m));
    var planned := Planning.MakePlan(m, c);
    if planned.Err? {
      return Rejected(planned.error);
    }
    OrderIsExact(Dependencies(m));
    var planning := PlanLifecycle(m, planned.value.manifestSha256);
    if planning.Err? {
      return Rejected(planning.error);
    }
    var plan := planning.value;
    TopologicalNames(m, plan.order);
    var runId := RunIdOf(m, planned.value.manifestSha256);
    if dryRun {
      return DryRun(ApplyOutput(runId, plan.manifestSha256, ProviderName(m.runtime.provider), true, false, plan,
        map[]));
    }
    var refusal := CheckLaunch(m, plan, runId, store.runs, host);
    return if refusal.Some? then Rejected(refusal.value) else Launching(plan, runId);
  }

  method CheckLaunch(m: Manifest, plan: Plan, runId: string, runs: map<string, RunState>, host: Host)
    returns (refusal: Option<CliError>)
    requires (forall n :: n in plan.order <==> n in m.services) && plan.intents == Intents(plan.order, m.services)
    ensures refusal == LaunchRefusal(m, runId, runs, host)
  {
    var capable := EnsureApplyCapabilities(m);
    if capable.Err? {
      return Some(capable.error);
    }
    var lifecycle := EnsureServiceLifecycle(m);
    if lifecycle.Err? {
      return Some(lifecycle.error);
    }
    if runId in runs {
      return Some(Raise(Conflict, "run_exists"));
    }
    if host.probe.Some? {
      return host.probe;
    }
    var published := Publish(m, plan, host);
    return if published.Err? then Some(published.error) else None;
  }

  /** A run as `apply` stores it: every service of its manifest has a container. */
  ghost predicate NewRun(m: Manifest, plan: Plan, runId: string, state: RunState) {
    && state.runId == runId && state.manifest == m && state.manifestSha256 == plan.manifestSha256
    && state.provider == "podman" && state.lifecycle == Running
    && forall s :: s in m.services ==> s in state.containers
  }

  /** No run file changed, except that a new one for `runId` may have been written. */
  ghost predicate AddsAtMost(
    m: Manifest, plan: Plan, runId: string, before: map<string, RunState>, after: map<string, RunState>)
  {
    || after == before
    || exists state :: NewRun(m, plan, runId, state) && after == before[runId := state]
  }

  /** What a launch did: to the run files, how many saves it tried, which stops it
      asked for, and its result. */
  datatype Effect = Effect(
    before: map<string, RunState>,
    after: map<string, RunState>,
    saves: int,
    stops: seq<string>,
    stopsAfter: seq<string>,
    result: Result<ApplyOutput, CliError>)
  {
    predicate RolledBack(containers: map<string, string>) {
      after == before && stopsAfter == stops + RuntimePort.Reversed(ValuesInKeyOrder(containers))
    }

    predicate NothingStopped() {
      stopsAfter == stops
    }
  }

  /** The part of `apply` that acts: one call to NanoVMS, then a save or a rollback. */
  method LaunchRun(store: RunStore, engine: Engine, client: LaunchClient, m: Manifest, plan: Plan, runId: string,
    host: Host)
    returns (r: Result<ApplyOutput, CliError>)
    modifies store, engine, client
    ensures var request := BuildLifecycleRequest(m, plan, runId, plan.manifestSha256);
            var effect := Effect(old(store.runs), store.runs, store.attempts - old(store.attempts),
                                 old(engine.stops), engine.stops, r);
            Launched(m, plan, runId, client.reply(|old(client.calls)|, request), host.clock,
                     store.saveFault(old(store.attempts)), effect)
    ensures store.jobs == old(store.jobs)
    ensures client.calls == old(client.calls) + [BuildLifecycleRequest(m, plan, runId, plan.manifestSha256)]
  {
    var request := BuildLifecycleRequest(m, plan, runId, plan.manifestSha256);
    var reply := client.Execute(request);
    if reply.Err? {
      RollbackContainersFromMap(engine, reply.error.result.containers);
      return Err(reply.error.error);
    }
    var valid := ValidateLifecycleResult(request, reply.value);
    if valid.Err? {
      RollbackContainersFromMap(engine, reply.value.containers);
      return Err(valid.error);
    }
    var containers := reply.value.containers;
    if host.clock.None? {
      return Err(CLOCK_ERROR);
    }
    var state :=
      RunState("phenocompose.run/v0", runId, plan.manifestSha256, "podman", host.clock.value, Running, containers, m);
    r := SaveOrRollBack(store, engine, state,
                        ApplyOutput(runId, plan.manifestSha256, "podman", false, true, plan, containers));
  }

  /** The end of `apply`: the state is saved, or its containers are stopped again. */
  method SaveOrRollBack(store: RunStore, engine: Engine, state: RunState, output: ApplyOutput)
    returns (r: Result<ApplyOutput, CliError>)
    modifies store, engine
    ensures store.jobs == old(store.jobs) && store.attempts == old(store.attempts) + 1
    ensures match store.saveFault(old(store.attempts))
            case None =>
              && r == Ok(output) && store.runs == old(store.runs)[state.runId := state]
              && engine.stops == old(engine.stops)
            case Some(error) =>
              && r == Err(error) && store.runs == old(store.runs)
              && engine.stops == old(engine.stops) + RuntimePort.Reversed(ValuesInKeyOrder(state.containers))
  {
    var saved := store.SaveState(state);
    if saved.Err? {
      RollbackContainersFromMap(engine, state.containers);
      return Err(saved.error);
    }
    return Ok(output);
  }

  /** What a launch leaves behind, for every reply, clock and save outcome. */
  ghost predicate Launched(
    m: Manifest, plan: Plan, runId: string, reply: LaunchReply, clock: Option<nat>, fault: Option<CliError>,
    e: Effect)
  {
    match Conclude(m, plan, runId, reply, clock)
    case Abandoned(error, containers) =>
      e.result == Err(error) && e.saves == 0 && e.RolledBack(containers)
    case NoClock =>
      e.result == Err(CLOCK_ERROR) && e.saves == 0 && e.after == e.before && e.NothingStopped()
    case Persist(state) =>
      && e.saves == 1
      && match fault
         case None =>
           && e.result == Ok(ApplyOutput(runId, plan.manifestSha256, "podman", false, true, plan, state.containers))
           && e.after == e.before[runId := state] && e.NothingStopped()
         case Some(error) =>
           e.result == Err(error) && e.RolledBack(state.containers)
  }

  lemma LaunchedAddsAtMost(
    m: Manifest, plan: Plan, runId: string, reply: LaunchReply, clock: Option<nat>, fault: Option<CliError>,
    e: Effect)
    requires Topological(Dependencies(m), plan.order) && Launched(m, plan, runId, reply, clock, fault, e)
    ensures AddsAtMost(m, plan, runId, e.before, e.after)
  {
    var conclusion := Conclude(m, plan, runId, reply, clock);
    if conclusion.Persist? {
      AcceptedReplyCoversServices(m, plan, runId, plan.manifestSha256, reply.value);
      assert NewRun(m, plan, runId, conclusion.state);
    }
  }

  method Apply(store: RunStore, engine: Engine, client: LaunchClient, m: Manifest, c: Planning.Codec, dryRun: bool,
    host: Host)
    returns (r: Result<ApplyOutput, CliError>)
    requires Indexable(m) && Planning.Faithful(c) && PrintsHex(c.digest)
    modifies store, engine, client
    ensures store.jobs == old(store.jobs)
    ensures |Planning.Digested(c, Planning.Normalized(m))| == 64
    ensures store.runs == old(store.runs) || AddsDecided(m, c, dryRun, host, old(store.runs), store.runs)
    ensures match Decide(m, c, dryRun, old(store.runs), host)
            case Launching(plan, runId) =>
              var request := BuildLifecycleRequest(m, plan, runId, plan.manifestSha256);
              && client.calls == old(client.calls) + [request]
              && AsksToLaunch(m, plan.order, plan.manifestSha256, runId, request)
              && var effect := Effect(old(store.runs), store.runs, store.attempts - old(store.attempts),
                                      old(engine.stops), engine.stops, r);
              Launched(m, plan, runId, client.reply(|old(client.calls)|, request), host.clock,
                       store.saveFault(old(store.attempts)), effect)
            case Rejected(e) =>
              r == Err(e) && store.runs == old(store.runs) && store.attempts == old(store.attempts)
              && engine.stops == old(engine.stops) && client.calls == old(client.calls)
            case DryRun(output) =>
              r == Ok(output) && store.runs == old(store.runs) && store.attempts == old(store.attempts)
              && engine.stops == old(engine.stops) && client.calls == old(client.calls)
  {
    var verdict := PrepareApply(store, m, c, dryRun, host);
    match verdict {
      case Rejected(e) => r := Err(e);
      case DryRun(output) => r := Ok(output);
      case Launching(plan, runId) =>
        ghost var request := BuildLifecycleRequest(m, plan, runId, plan.manifestSha256);
        ghost var reply, fault := client.reply(|client.calls|, request), store.saveFault(store.attempts);
        r := LaunchRun(store, engine, client, m, plan, runId, host);
        ghost var effect := Effect(old(store.runs), store.runs, store.attempts - old(store.attempts),
                                   old(engine.stops), engine.stops, r);
        LaunchIsPlanned(m, c, dryRun, old(store.runs), host);
        RequestAsksToLaunch(m, plan, runId, plan.manifestSha256);
        DecidedLaunchAdds(m, c, dryRun, host, reply, fault, effect);
    }
  }

  /** One run was added, the one `apply` decided to launch. */
  ghost predicate AddsDecided(
    m: Manifest, c: Planning.Codec, dryRun: bool, host: Host,
    before: map<string, RunState>, after: map<string, RunState>)
    requires Closed(Dependencies(m)) && |Planning.Digested(c, Planning.Normalized(m))| == 64
  {
    match Decide(m, c, dryRun, before, host)
    case Launching(plan, runId) => AddsAtMost(m, plan, runId, before, after)
    case _ => false
  }

  lemma DecidedLaunchAdds(
    m: Manifest, c: Planning.Codec, dryRun: bool, host: Host, reply: LaunchReply, fault: Option<CliError>, e: Effect)
    requires Closed(Dependencies(m)) && |Planning.Digested(c, Planning.Normalized(m))| == 64
    requires Decide(m, c, dryRun, e.before, host).Launching?
    requires var Launching(plan, runId) := Decide(m, c, dryRun, e.before, host);
             Launched(m, plan, runId, reply, host.clock, fault, e)
    ensures AddsDecided(m, c, dryRun, host, e.before, e.after)
  {
    LaunchIsPlanned(m, c, dryRun, e.before, host);
    var Launching(plan, runId) := Decide(m, c, dryRun, e.before, host);
    LaunchedAddsAtMost(m, plan, runId, reply, host.clock, fault, e);
  }

  // ----- What apply checks, in its order -----

  ghost function PlanChecks(m: Manifest): seq<Check>
    requires Closed(Dependencies(m))
  {
    var g := Dependencies(m);
    [ MustHold(Planning.Normalizable(m), Validation, "gpu_selector_invalid"),
      Check(!Cyclic(g), if Order(g).Err? then Order(g).error else Raise(Validation, "dependency_cycle")) ]
  }

  /** What has to be in place on the host. */
  ghost function HostChecks(m: Manifest, runId: string, runs: map<string, RunState>, host: Host): seq<Check> {
    [ MustHold(runId !in runs, Conflict, "run_exists"),
      Check(host.probe.None?, if host.probe.Some? then host.probe.value else Raise(Backend, "publish_failed")),
      MustHold(
        forall n :: n in m.services ==> host.imageExists(m.services[n].image), Backend, "publish_failed") ]
  }

  ghost function LaunchChecks(m: Manifest, runId: string, runs: map<string, RunState>, host: Host): seq<Check> {
    CapabilityChecks(m) + (LifecycleChecks(m) + HostChecks(m, runId, runs, host))
  }

  /** The checks between planning and launching run in this order. */
  lemma LaunchChecked(m: Manifest, runId: string, runs: map<string, RunState>, host: Host)
    ensures Decides(LaunchChecks(m, runId, runs, host), LaunchRefusal(m, runId, runs, host))
  {
    var refusal := LaunchRefusal(m, runId, runs, host);
    var capabilities, lifecycle := CapabilityChecks(m), LifecycleChecks(m);
    var rest := lifecycle + HostChecks(m, runId, runs, host);
    CapabilitiesChecked(m);
    if EnsureApplyCapabilities(m).Ok? {
      LifecycleChecked(m);
      if EnsureServiceLifecycle(m).Ok? {
        HostChecked(m, runId, runs, host);
      }
      DecidesBoth(lifecycle, HostChecks(m, runId, runs, host), refusal);
    }
    DecidesBoth(capabilities, rest, refusal);
  }

  lemma HostChecked(m: Manifest, runId: string, runs: map<string, RunState>, host: Host)
    ensures Decides(HostChecks(m, runId, runs, host), HostRefusal(m, runId, runs, host))
  {
    var checks := HostChecks(m, runId, runs, host);
    if HostRefusal(m, runId, runs, host).Some? {
      var i := if runId in runs then 0 else if host.probe.Some? then 1 else 2;
      assert FailsAt(checks, i);
    }
  }

  lemma UnrefusedIsSupported(m: Manifest, runId: string, runs: map<string, RunState>, host: Host)
    requires LaunchRefusal(m, runId, runs, host).None?
    ensures runId !in runs && Supported(m)
  {
    CapabilitiesGuardLaunch(m);
  }

  ghost predicate NamesProvider(name: string, p: RuntimeProvider) {
    && (name == "podman" <==> p == Podman) && (name == "nvms" <==> p == Nvms) && (name == "placeholder" <==> p == Stub)
  }

  /** The output of a dry run: what a launch would be, and that nothing was done. */
  ghost predicate ReportsDryRun(m: Manifest, plan: Plan, runId: string, output: ApplyOutput) {
    && output.runId == runId && output.manifestSha256 == plan.manifestSha256 && output.lifecycle == plan
    && NamesProvider(output.provider, m.runtime.provider)
    && output.dryRun && !output.mutation && output.containers == map[]
  }

  /** The plan of a manifest: its steps, along the dependency order. */
  ghost predicate PlanOfManifest(m: Manifest, c: Planning.Codec, plan: Plan) {
    && plan.schemaVersion == "phenocompose.lifecycle/v0"
    && plan.manifestSha256 == Planning.PlanOf(c, m).manifestSha256
    && Topological(Dependencies(m), plan.order) && PlansSteps(plan.order, m.services, plan.intents)
  }

  /** With a plan in hand, `apply` reports it, refuses for the first check that
      fails, or launches under the id derived from it. */
  ghost predicate AnswersPlan(m: Manifest, plan: Plan, dryRun: bool, runs: map<string, RunState>, host: Host,
    v: Verdict)
  {
    && |plan.manifestSha256| >= 12
    && var runId := RunIdOf(m, plan.manifestSha256);
    match v
    case Rejected(e) => !dryRun && FirstFailure(LaunchChecks(m, runId, runs, host), e)
    case DryRun(output) => dryRun && ReportsDryRun(m, plan, runId, output)
    case Launching(p, id) => !dryRun && AllHold(LaunchChecks(m, runId, runs, host)) && p == plan && id == runId
  }

  /** `apply` answers with the error of the first check that fails; with none it
      launches, or only reports what it would launch. */
  lemma ApplyDecided(m: Manifest, c: Planning.Codec, dryRun: bool, runs: map<string, RunState>, host: Host)
    requires Closed(Dependencies(m)) && |Planning.Digested(c, Planning.Normalized(m))| == 64
    ensures var v := Decide(m, c, dryRun, runs, host);
            if AllHold(PlanChecks(m)) then
              exists plan :: PlanOfManifest(m, c, plan) && AnswersPlan(m, plan, dryRun, runs, host, v)
            else
              v.Rejected? && FirstFailure(PlanChecks(m), v.error)
  {
    PlanChecked(m);
    if Planning.Normalizable(m) && Order(Dependencies(m)).Ok? {
      PlanIsOfManifest(m, c);
      PlannedDecided(m, PlanToLaunch(m, c), dryRun, runs, host);
    }
  }

  lemma PlanChecked(m: Manifest)
    requires Closed(Dependencies(m))
    ensures AllHold(PlanChecks(m)) <==> Planning.Normalizable(m) && Order(Dependencies(m)).Ok?
    ensures !Planning.Normalizable(m) ==> FirstFailure(PlanChecks(m), Raise(Validation, "gpu_selector_invalid"))
    ensures Planning.Normalizable(m) && Order(Dependencies(m)).Err? ==>
              FirstFailure(PlanChecks(m), Order(Dependencies(m)).error)
  {
    OrderIsExact(Dependencies(m));
    var checks := PlanChecks(m);
    assert checks[0].holds == Planning.Normalizable(m) && checks[1].holds == !Cyclic(Dependencies(m));
    if !Planning.Normalizable(m) {
      assert FailsAt(checks, 0);
    } else if Order(Dependencies(m)).Err? {
      assert FailsAt(checks, 1);
    }
  }

  lemma PlanIsOfManifest(m: Manifest, c: Planning.Codec)
    requires Closed(Dependencies(m)) && Order(Dependencies(m)).Ok?
    ensures PlanOfManifest(m, c, PlanToLaunch(m, c)) && !Cyclic(Dependencies(m))
  {
    OrderIsExact(Dependencies(m));
    var order := Order(Dependencies(m)).value;
    TopologicalNames(m, order);
    IntentsPlanSteps(order, m.services);
  }

  lemma PlannedDecided(m: Manifest, plan: Plan, dryRun: bool, runs: map<string, RunState>, host: Host)
    requires |plan.manifestSha256| >= 12
    ensures AnswersPlan(m, plan, dryRun, runs, host, DecidePlanned(m, plan, dryRun, runs, host))
  {
    LaunchChecked(m, RunIdOf(m, plan.manifestSha256), runs, host);
  }

  /** NanoVMS is only asked to launch a plannable acyclic manifest that passed
      every check, under a run id that is not taken. */
  lemma LaunchIsPlanned(m: Manifest, c: Planning.Codec, dryRun: bool, runs: map<string, RunState>, host: Host)
    requires Closed(Dependencies(m)) && |Planning.Digested(c, Planning.Normalized(m))| == 64
    requires Decide(m, c, dryRun, runs, host).Launching?
    ensures !dryRun
    ensures var Launching(plan, runId) := Decide(m, c, dryRun, runs, host);
            && Planning.Normalizable(m) && !Cyclic(Dependencies(m)) && PlanOfManifest(m, c, plan)
            && runId == RunIdOf(m, plan.manifestSha256) && runId !in runs && Supported(m)
  {
    PlanIsOfManifest(m, c);
    PlannedLaunch(m, PlanToLaunch(m, c), dryRun, runs, host);
  }

  lemma PlannedLaunch(m: Manifest, plan: Plan, dryRun: bool, runs: map<string, RunState>, host: Host)
    requires |plan.manifestSha256| >= 12 && DecidePlanned(m, plan, dryRun, runs, host).Launching?
    ensures !dryRun && DecidePlanned(m, plan, dryRun, runs, host) == Launching(plan, RunIdOf(m, plan.manifestSha256))
    ensures RunIdOf(m, plan.manifestSha256) !in runs && Supported(m)
  {
    UnrefusedIsSupported(m, RunIdOf(m, plan.manifestSha256), runs, host);
  }

  /** Every way out after NanoVMS answered: either a Running state covering every
      service of the manifest is saved, or whatever containers were reported are
      handed to the rollback. The one way past both is a clock that fails after a
      reply has been accepted: then no state is saved and no stop is issued. */
  lemma ApplyIsAllOrNothing(
    m: Manifest, plan: Plan, runId: string, reply: LaunchReply, clock: Option<nat>, fault: Option<CliError>,
    e: Effect)
    requires Topological(Dependencies(m), plan.order) && runId !in e.before
    requires Launched(m, plan, runId, reply, clock, fault, e)
    ensures e.result.Ok? ==>
              && runId in e.after && e.after == e.before[runId := e.after[runId]] && e.NothingStopped()
              && NewRun(m, plan, runId, e.after[runId])
              && e.after[runId].containers == ReportedContainers(reply)
    ensures e.result.Err? ==> e.after == e.before
    ensures e.result.Err? ==>
              (e.RolledBack(ReportedContainers(reply))
               <==> !Conclude(m, plan, runId, reply, clock).NoClock? || ReportedContainers(reply) == map[])
    ensures e.result.Err? && !Conclude(m, plan, runId, reply, clock).NoClock? ==>
              e.stops <= e.stopsAfter && LastKeyFirst(ReportedContainers(reply), e.stopsAfter[|e.stops|..])
    ensures Conclude(m, plan, runId, reply, clock).NoClock? <==> clock.None? && Accepted(m, plan, runId, reply)
  {
    RollbackIsLastKeyFirst(ReportedContainers(reply));
    if Accepted(m, plan, runId, reply) {
      AcceptedReplyCoversServices(m, plan, runId, plan.manifestSha256, reply.value);
    }
    assert |RuntimePort.Reversed(ValuesInKeyOrder(ReportedContainers(reply)))| == |ReportedContainers(reply)|;
  }

  /** A run that was launched is stored with the time and what NanoVMS reported,
      and the caller is told so; an error is that of the first step to fail. */
  lemma LaunchAnswers(
    m: Manifest, plan: Plan, runId: string, reply: LaunchReply, clock: Option<nat>, fault: Option<CliError>,
    e: Effect)
    requires Launched(m, plan, runId, reply, clock, fault, e)
    ensures match e.result
            case Ok(output) =>
              && output == ApplyOutput(runId, plan.manifestSha256, "podman", false, true, plan,
                             ReportedContainers(reply))
              && clock.Some?
              && e.after == e.before[runId := RunState("phenocompose.run/v0", runId, plan.manifestSha256, "podman",
                                                clock.value, Running, ReportedContainers(reply), m)]
            case Err(error) =>
              match reply
              case Err(failure) => error == failure.error
              case Ok(result) =>
                var checks := ResultChecks(BuildLifecycleRequest(m, plan, runId, plan.manifestSha256), result);
                if !AllHold(checks) then FirstFailure(checks, error)
                else if clock.None? then error == Raise(Backend, "clock")
                else fault == Some(error)
  {
    if reply.Ok? {
      ResultChecked(BuildLifecycleRequest(m, plan, runId, plan.manifestSha256), reply.value);
    }
  }

  /** NanoVMS answered with a result that passes every check. */
  predicate Accepted(m: Manifest, plan: Plan, runId: string, reply: LaunchReply) {
    && reply.Ok?
    && ValidateLifecycleResult(BuildLifecycleRequest(m, plan, runId, plan.manifestSha256), reply.value).Ok?
  }

  // ----- down -----

  datatype StatusOutput = StatusOutput(runId: string, lifecycle: RunLifecycle, services: map<string, string>)

  function EnsurePersistedProvider(state: RunState): Result<Unit, CliError> {
    if state.provider == "podman" then Ok(Unit) else Err(Raise(ErrorKind.Unsupported, "persisted_provider_unsupported"))
  }

  function TeardownOrder(m: Manifest): Result<seq<string>, CliError>
    requires Closed(Dependencies(m))
  {
    if m.teardown.order == [] then
      var order :- Order(Dependencies(m));
      Ok(RuntimePort.Reversed(order))
    else
      Ok(m.teardown.order)
  }

  /** What `down` decides before it stops anything: the order, or an error. */
  function DownDecision(runs: map<string, RunState>, runId: string): Result<seq<string>, CliError>
    requires runId in runs ==> Indexable(runs[runId].manifest)
  {
    var state :- Loaded(runs, runId);
    var _ :- EnsurePersistedProvider(state);
    if state.lifecycle == Down then
      Err(Raise(Conflict, "run_already_down"))
    else
      TeardownOrder(state.manifest)
  }

  /** What `down` demands of a run, besides a teardown order. */
  ghost function DownChecks(runs: map<string, RunState>, runId: string): seq<Check> {
    ReportChecks(runs, runId)
    + [ MustHold(runId in runs ==> runs[runId].lifecycle != Down, Conflict, "run_already_down") ]
  }

  ghost function ReportChecks(runs: map<string, RunState>, runId: string): seq<Check> {
    LoadChecks(runs, runId)
    + [ MustHold(runId in runs ==> runs[runId].provider == "podman", ErrorKind.Unsupported,
          "persisted_provider_unsupported") ]
  }

  lemma ReportChecked(runs: map<string, RunState>, runId: string)
    ensures Decides(ReportChecks(runs, runId), FaultOf(Reportable(runs, runId)))
    ensures Reportable(runs, runId).Ok? ==> runId in runs && Reportable(runs, runId).value == runs[runId]
  {
    LoadChecked(runs, runId);
    var first, r := LoadChecks(runs, runId), Reportable(runs, runId);
    var second := [MustHold(runId in runs ==> runs[runId].provider == "podman", ErrorKind.Unsupported,
                     "persisted_provider_unsupported")];
    if Loaded(runs, runId).Ok? && r.Err? {
      assert FailsAt(second, 0);
    }
    DecidesBoth(first, second, FaultOf(r));
  }

  /** The order `down` works through: the manifest's own, or else the reversed
      dependency order, which exists unless there is a cycle. */
  ghost predicate TeardownDecided(m: Manifest, r: Result<seq<string>, CliError>) {
    if m.teardown.order != [] then
      r == Ok(m.teardown.order)
    else
      && Closed(Dependencies(m))
      && (r.Err? <==> Cyclic(Dependencies(m))) && (r.Err? ==> BlamesCycle(Dependencies(m), r.error))
      && (r.Ok? ==> exists order ::
            Order(Dependencies(m)) == Ok(order) && Topological(Dependencies(m), order) && IsReversal(order, r.value))
  }

  /** `down` refuses a run for the first check that fails, and works through that
      order otherwise. */
  lemma DownDecided(runs: map<string, RunState>, runId: string)
    requires runId in runs ==> Indexable(runs[runId].manifest)
    ensures if AllHold(DownChecks(runs, runId)) then
              runId in runs && TeardownDecided(runs[runId].manifest, DownDecision(runs, runId))
            else
              DownDecision(runs, runId).Err? && FirstFailure(DownChecks(runs, runId), DownDecision(runs, runId).error)
  {
    ReportChecked(runs, runId);
    var first, r := ReportChecks(runs, runId), DownDecision(runs, runId);
    var second := [MustHold(runId in runs ==> runs[runId].lifecycle != Down, Conflict, "run_already_down")];
    if Reportable(runs, runId).Err? {
      DecidesBoth(first, second, FaultOf(r));
    } else if runs[runId].lifecycle == Down {
      assert FailsAt(second, 0);
      DecidesBoth(first, second, FaultOf(r));
    } else {
      assert AllHold(second);
      DecidesBoth(first, second, None);
      TeardownOrderDecided(runs[runId].manifest);
    }
  }

  lemma TeardownOrderDecided(m: Manifest)
    requires Closed(Dependencies(m))
    ensures TeardownDecided(m, TeardownOrder(m))
  {
    var g, r := Dependencies(m), TeardownOrder(m);
    if m.teardown.order == [] {
      OrderIsExact(g);
      if r.Ok? {
        var order := Order(g).value;
        assert r.value == RuntimePort.Reversed(order) && IsReversal(order, r.value);
      }
    }
  }

  method TakeDown(store: RunStore, engine: Engine, runId: string) returns (r: Result<StatusOutput, CliError>)
    requires WellKept(store.Now())
    modifies store, engine
    ensures store.jobs == old(store.jobs)
    ensures var decision := DownDecision(old(store.runs), runId);
            match decision
            case Err(e) =>
              r == Err(e) && store.runs == old(store.runs) && store.attempts == old(store.attempts)
              && engine.world == old(engine.world) && engine.stops == old(engine.stops)
            case Ok(order) =>
              var state := old(store.runs)[runId];
              var ids := RecordedContainers(order, state.containers);
              if r.Ok? then
                && store.runs == old(store.runs)[runId := state.(lifecycle := Down)]
                && r.value == StatusOutput(runId, Down, map s | s in state.containers :: "down")
                && Completed(old(engine.world), old(engine.stops), ids, engine.world, engine.stops)
                && TornDown(order, state.containers, old(engine.world), old(engine.stops), engine.world, engine.stops)
                && store.saveFault(old(store.attempts)).None? && store.attempts == old(store.attempts) + 1
              else
                && store.runs == old(store.runs)
                && ((Interrupted(old(engine.world), old(engine.stops), ids, engine.world, engine.stops)
                     && FailedDuring(order, state.containers, old(engine.world), old(engine.stops), engine.world,
                          engine.stops)
                     && Faulted(engine.statusFails, engine.stopFault, old(engine.calls), engine.calls)
                     && r.error == ENGINE_FAILURE && store.attempts == old(store.attempts))
                    || (Completed(old(engine.world), old(engine.stops), ids, engine.world, engine.stops)
                        && TornDown(order, state.containers, old(engine.world), old(engine.stops), engine.world,
                             engine.stops)
                        && store.saveFault(old(store.attempts)) == Some(r.error)
                           && store.attempts == old(store.attempts) + 1))
  {
    var loaded := Loaded(store.runs, runId);
    if loaded.Err? {
      return Err(loaded.error);
    }
    var state := loaded.value;
    var provider := EnsurePersistedProvider(state);
    if provider.Err? {
      return Err(provider.error);
    }
    if state.lifecycle == Down {
      return Err(Raise(Conflict, "run_already_down"));
    }
    var order := state.manifest.teardown.order;
    if order == [] {
      var services := ServiceOrder(Dependencies(state.manifest));
      if services.Err? {
        return Err(services.error);
      }
      order := RuntimePort.Reversed(services.value);
    }
    var stopped := StopServices(engine, order, state.containers);
    if stopped.Err? {
      return Err(stopped.error);
    }
    state := state.(lifecycle := Down);
    var saved := store.SaveState(state);
    if saved.Err? {
      return Err(saved.error);
    }
    return Ok(StatusOutput(state.runId, state.lifecycle, map s | s in state.containers :: "down"));
  }

  // ----- status and export-provenance -----

  function StatusName(s: RuntimePort.ContainerStatus): string {
    match s
    case Running => "running"
    case Exited => "exited"
    case Paused => "paused"
    case NotFound => "not_found"
  }

  /** The run `status` and `down` work on, if they do. */
  function Reportable(runs: map<string, RunState>, runId: string): Result<RunState, CliError> {
    var state :- Loaded(runs, runId);
    var _ :- EnsurePersistedProvider(state);
    Ok(state)
  }

  method Status(store: RunStore, engine: Engine, runId: string) returns (r: Result<StatusOutput, CliError>)
    modifies engine
    ensures engine.world == old(engine.world) && engine.stops == old(engine.stops)
    ensures match Reportable(store.runs, runId)
            case Err(e) => r == Err(e) && engine.calls == old(engine.calls)
            case Ok(state) =>
              && (r.Ok? <==> Answered(engine.statusFails, old(engine.calls), engine.calls))
              && (r.Err? ==> r.error == ENGINE_FAILURE)
              && (r.Ok? ==>
                    && r.value.runId == state.runId && r.value.lifecycle == state.lifecycle
                    && engine.calls == old(engine.calls) + |state.containers|
                    && StatusesOf(engine.world, state.containers, state.containers.Keys, r.value.services))
  {
    var loaded := Loaded(store.runs, runId);
    if loaded.Err? {
      return Err(loaded.error);
    }
    var state := loaded.value;
    var provider := EnsurePersistedProvider(state);
    if provider.Err? {
      return Err(provider.error);
    }
    var services := CollectStatuses(engine, state.containers);
    if services.Err? {
      return Err(services.error);
    }
    return Ok(StatusOutput(state.runId, state.lifecycle, services.value));
  }

  /** A name tells the status of a container. */
  ghost predicate Tells(name: string, w: World, id: string) {
    && (name == "running" <==> id in w && w[id] == RuntimePort.Running)
    && (name == "exited" <==> id in w && w[id] == RuntimePort.Exited)
    && (name == "paused" <==> id in w && w[id] == RuntimePort.Paused)
    && (name == "not_found" <==> id !in w || w[id] == RuntimePort.ContainerStatus.NotFound)
  }

  /** The status names of the services in `done`. */
  ghost predicate StatusesOf(w: World, containers: map<string, string>, done: set<string>,
    services: map<string, string>)
    requires done <= containers.Keys
  {
    services.Keys == done && forall n :: n in services ==> Tells(services[n], w, containers[n])
  }

  lemma StatusNameTells(w: World, id: string)
    ensures Tells(StatusName(StatusOf(w, id)), w, id)
  {
  }

  method CollectStatuses(engine: Engine, containers: map<string, string>)
    returns (r: Result<map<string, string>, CliError>)
    modifies engine
    ensures engine.world == old(engine.world) && engine.stops == old(engine.stops)
    ensures r.Ok? ==>
              StatusesOf(engine.world, containers, containers.Keys, r.value)
                && engine.calls == old(engine.calls) + |containers|
    ensures r.Err? ==> r.error == ENGINE_FAILURE
    ensures r.Ok? <==> Answered(engine.statusFails, old(engine.calls), engine.calls)
  {
    var names := KeysInOrder(containers.Keys);
    var services: map<string, string> := map[];
    for i := 0 to |names|
      invariant engine.world == old(engine.world) && engine.stops == old(engine.stops)
      invariant engine.calls == old(engine.calls) + i
      invariant Answered(engine.statusFails, old(engine.calls), engine.calls)
      invariant Elements(names[..i]) <= containers.Keys
      invariant StatusesOf(engine.world, containers, Elements(names[..i]), services)
    {
      var name := names[i];
      TakeNextElements(names, i);
      ghost var asked := engine.calls;
      var status := engine.Status(containers[name]);
      AnsweredNext(engine.statusFails, old(engine.calls), asked);
      if status.Err? {
        return Err(status.error);
      }
      StatusesGrow(engine.world, containers, Elements(names[..i]), services, name);
      services := services[name := StatusName(status.value)];
    }
    TakeAll(names);
    assert Elements(names) == containers.Keys;
    return Ok(services);
  }

  lemma StatusesGrow(w: World, containers: map<string, string>, done: set<string>, services: map<string, string>,
    name: string)
    requires done <= containers.Keys && name in containers && StatusesOf(w, containers, done, services)
    ensures StatusesOf(w, containers, done + {name}, services[name := StatusName(StatusOf(w, containers[name]))])
  {
    StatusNameTells(w, containers[name]);
  }

  /** The records stored for one run, by job id. */
  method LoadJobs(store: RunStore, runId: string) returns (r: Result<map<string, Job>, CliError>)
    ensures WellKept(store.Now()) ==> r.Ok?
    ensures r.Ok? ==> (forall j :: j in r.value <==> (runId, j) in store.jobs) && forall j :: j in r.value ==>
              r.value[j] == store.jobs[(runId, j)]
  {
    var rest := set k | k in store.jobs && k.0 == runId;
    var jobs: map<string, Job> := map[];
    while rest != {}
      invariant forall k :: k in rest ==> k in store.jobs && k.0 == runId
      invariant forall j :: (runId, j) in store.jobs <==> (runId, j) in rest || j in jobs
      invariant forall j :: j in jobs ==> jobs[j] == store.jobs[(runId, j)]
    {
      var key :| key in rest;
      var job := store.jobs[key];
      if job.runId != runId || job.jobId != key.1 {
        return Err(Raise(Validation, "job_identity_mismatch"));
      }
      jobs := jobs[job.jobId := job];
      rest := rest - {key};
    }
    return Ok(jobs);
  }

  datatype Provenance = Provenance(
    runId: string,
    manifestSha256: string,
    effectiveEngine: string,
    createdUnixSeconds: nat,
    containers: map<string, string>,
    jobs: map<string, Job>)

  /** On a well-kept store an export that is allowed always succeeds and holds
      exactly the run's stored records. */
  method ExportProvenance(store: RunStore, runId: string) returns (r: Result<Provenance, CliError>)
    ensures Loaded(store.runs, runId).Err? ==> r == Err(Loaded(store.runs, runId).error)
    ensures Loaded(store.runs, runId).Ok? && !store.runs[runId].manifest.provenance.required ==>
              r == Err(Raise(ErrorKind.Unsupported, "provenance_not_requested"))
    ensures WellKept(store.Now()) && Loaded(store.runs, runId).Ok? && store.runs[runId].manifest.provenance.required ==>
              r.Ok?
    ensures r.Ok? ==>
              && r.value.runId == store.runs[runId].runId && r.value.manifestSha256 == store.runs[runId].manifestSha256
              && r.value.containers == store.runs[runId].containers
                 && r.value.effectiveEngine == store.runs[runId].provider
              && r.value.createdUnixSeconds == store.runs[runId].createdUnixSeconds
              && (forall j :: j in r.value.jobs <==> (runId, j) in store.jobs) && forall j :: j in r.value.jobs ==>
                   r.value.jobs[j] == store.jobs[(runId, j)]
  {
    var loaded := Loaded(store.runs, runId);
    if loaded.Err? {
      return Err(loaded.error);
    }
    var state := loaded.value;
    if !state.manifest.provenance.required {
      return Err(Raise(ErrorKind.Unsupported, "provenance_not_requested"));
    }
    var jobs := LoadJobs(store, runId);
    if jobs.Err? {
      return Err(jobs.error);
    }
    return Ok(Provenance(state.runId, state.manifestSha256, state.provider, state.createdUnixSeconds, state.containers,
      jobs.value));
  }

  // ----- run-action -----

  /** The replies of an evaluation client, by call number. */
  type Answers = (nat, Request) -> Result<Reply, Failure>

  /** The client as it answers its call number `n`. */
  function AnsweringAs(answers: Answers, n: nat): Client {
    request => answers(n, request)
  }

  class ActionClient {
    var calls: seq<Request>
    const answers: Answers

    constructor (answers: Answers)
      ensures calls == []
    {
      calls := [];
      this.answers := answers;
    }

    method Execute(request: Request) returns (r: Result<Reply, Failure>)
      modifies this
      ensures calls == old(calls) + [request] && r == AnsweringAs(answers, |old(calls)|)(request)
    {
      r := answers(|calls|, request);
      calls := calls + [request];
    }
  }

  function EnsureActionRoute(state: RunState): Result<Unit, CliError> {
    if state.provider == "podman" && state.manifest.runtime.provider == Podman
       && state.manifest.runtime.portage == Some(PortageCompatibility(DockerToken, PodmanEngine)) then
      Ok(Unit)
    else
      Err(Raise(ErrorKind.Unsupported, "action_route_rejected"))
  }

  /** The checks before the service closure is looked at. */
  function ActionDecision(runs: map<string, RunState>, runId: string, action: string, jobId: string)
    : Result<RunState, CliError>
  {
    if !IsSlug(runId) then
      Err(Raise(Validation, "run_id_invalid"))
    else if !IsSlug(jobId) then
      Err(Raise(Validation, "job_id_invalid"))
    else
      var state :- Loaded(runs, runId);
      if state.lifecycle != Running then
        Err(Raise(Conflict, "run_not_running"))
      else
        var _ :- EnsureActionRoute(state);
        if action !in state.manifest.actions then Err(Raise(ErrorKind.NotFound, "action_not_found")) else Ok(state)
  }

  /** What is demanded of the run, the job id and the action, in this order. */
  ghost function ActionChecks(runs: map<string, RunState>, runId: string, action: string, jobId: string): seq<Check> {
    [ MustHold(IsSlug(runId), Validation, "run_id_invalid"),
      MustHold(IsSlug(jobId), Validation, "job_id_invalid"),
      MustHold(runId in runs, ErrorKind.NotFound, "run_not_found"),
      MustHold(runId in runs ==> runs[runId].lifecycle == Running, Conflict, "run_not_running"),
      MustHold(runId in runs ==> OnPodmanRoute(runs[runId]), ErrorKind.Unsupported, "action_route_rejected"),
      MustHold(
        runId in runs ==> action in runs[runId].manifest.actions, ErrorKind.NotFound, "action_not_found") ]
  }

  /** Podman throughout, under the token it goes by for Portage. */
  ghost predicate OnPodmanRoute(state: RunState) {
    && state.provider == "podman" && state.manifest.runtime.provider == Podman
    && match state.manifest.runtime.portage
       case None => false
       case Some(compatibility) =>
         compatibility.token == DockerToken && compatibility.engine == EffectiveEngine.PodmanEngine
  }

  lemma ActionChecked(runs: map<string, RunState>, runId: string, action: string, jobId: string)
    ensures Decides(ActionChecks(runs, runId, action, jobId), FaultOf(ActionDecision(runs, runId, action, jobId)))
  {
    var checks := ActionChecks(runs, runId, action, jobId);
    if ActionDecision(runs, runId, action, jobId).Err? {
      var i :=
        if !IsSlug(runId) then 0
        else if !IsSlug(jobId) then 1
        else if runId !in runs then 2
        else if runs[runId].lifecycle != Running then 3
        else if EnsureActionRoute(runs[runId]).Err? then 4
        else 5;
      assert FailsAt(checks, i);
    }
  }

  lemma DecidedRun(runs: map<string, RunState>, runId: string, action: string, jobId: string)
    requires ActionDecision(runs, runId, action, jobId).Ok?
    ensures runId in runs && ActionDecision(runs, runId, action, jobId).value == runs[runId]
    ensures runs[runId].lifecycle == Running && action in runs[runId].manifest.actions
  {
    assert Loaded(runs, runId) == Ok(runs[runId]);
    if runs[runId].lifecycle == Running {
      assert EnsureActionRoute(runs[runId]).Ok?;
    }
  }

  /** The closure of the action's service selects some GPU and nothing refused. */
  ghost predicate ClosureBindable(m: Manifest, root: string)
    requires Closed(Dependencies(m)) && root in m.services
  {
    var closure := Closure(Dependencies(m), root);
    && (forall n :: n in closure ==> n in m.services)
    && NoneRefused(m, closure) && !GpusOf(m, closure, {})
  }

  /** Everything `run_action` checks before it commits to storing a record. */
  ghost predicate Admitted(s: Snapshot, runId: string, action: string, jobId: string)
    requires WellKept(s)
  {
    && ActionDecision(s.runs, runId, action, jobId).Ok?
    && (var m := s.runs[runId].manifest; ClosureBindable(m, m.actions[action].service))
    && (runId, jobId) !in s.jobs
  }

  /** Why an action that is not admitted is refused: the checks in their order. */
  ghost predicate RefusedWith(s: Snapshot, runId: string, action: string, jobId: string, error: CliError)
    requires WellKept(s)
  {
    match ActionDecision(s.runs, runId, action, jobId)
    case Err(e) => error == e
    case Ok(state) =>
      var root := state.manifest.actions[action].service;
      var closure := Closure(Dependencies(state.manifest), root);
      && (forall n :: n in closure ==> n in state.manifest.services)
      && if ClosureBindable(state.manifest, root) then
           (runId, jobId) in s.jobs && error == Raise(Conflict, "job_exists")
         else
           RefusedBy(state.manifest, closure, error)
           || (NoneRefused(state.manifest, closure) && error == Raise(Validation, "gpu_binding_missing"))
  }

  /** A record of one of the run's actions: its digest, the closure of the action's
      service, and exactly the GPUs that closure selects. */
  ghost predicate JobFits(state: RunState, job: Job) {
    var m := state.manifest;
    && Indexable(m) && job.action in m.actions
    && var root := m.actions[job.action].service;
    && job.runId == state.runId && job.manifestSha256 == state.manifestSha256
    && job.provenanceVersion == "phenocompose.job-provenance/v1"
    && job.effectiveEngine == job.resolvedProvider == "podman" && job.executionPlane == "nanovms"
    && job.service == root && job.command == m.actions[job.action].command && job.image == m.services[root].image
    && job.dependencyServices == Closure(Dependencies(m), root)
    && (forall n :: n in job.dependencyServices ==> n in m.services)
    && BindsExactly(m, job.dependencyServices, job.gpuBindings)
    && job.timeoutMillis == TIMEOUT_MILLIS && job.maxOutputBytes == MAX_OUTPUT_BYTES
  }

  /** The record as it stands before anything is asked of the client. */
  ghost predicate Drafted(world: Surroundings, s: Snapshot, runId: string, action: string, jobId: string, job: Job)
    requires WellKept(s)
  {
    && ActionDecision(s.runs, runId, action, jobId).Ok? && JobFits(s.runs[runId], job)
    && job.jobId == jobId && job.action == action && Untouched(world, job)
  }

  /** A request of one of the run's actions: its command, and the GPUs that the
      closure of its service selects. */
  ghost predicate RequestFits(world: Surroundings, state: RunState, action: string, r: Request) {
    var m := state.manifest;
    && Indexable(m) && action in m.actions
    && var declared := m.actions[action];
    var names := Closure(Dependencies(m), declared.service);
    && (forall n :: n in names ==> n in m.services) && BindsExactly(m, names, r.gpuBindings)
    && AsksToRun(world, m, declared, m.services[declared.service], state.manifestSha256, r.gpuBindings, r)
  }

  /** A client is asked once, if the request can be made. */
  ghost predicate AsksAtMostOnce(world: Surroundings, state: RunState, action: string, calls: seq<Request>,
    callsAfter: seq<Request>)
  {
    && action in state.manifest.actions
    && if AllHold(RequestChecks(world, state.manifest.actions[action])) then
         exists request :: callsAfter == calls + [request] && RequestFits(world, state, action, request)
       else
         callsAfter == calls
  }

  lemma DraftIsJobOf(state: RunState, draft: Job)
    requires JobFits(state, draft)
    ensures JobOf(state.manifest, state.manifest.actions[draft.action], draft)
  {
  }

  lemma CallsAreOfAction(
    world: Surroundings, state: RunState, draft: Job, calls: seq<Request>, callsAfter: seq<Request>)
    requires JobFits(state, draft) && callsAfter == calls + CallsFor(world, state.manifest, draft)
    ensures AsksAtMostOnce(world, state, draft.action, calls, callsAfter)
  {
    var m := state.manifest;
    var action, service := m.actions[draft.action], m.services[draft.service];
    DraftIsJobOf(state, draft);
    RequestChecked(world, m, draft, service, action);
    var built := BuildRequest(world, m, draft, service);
    if built.Ok? {
      RequestAsksToRun(world, m, draft, service, action);
      assert RequestFits(world, state, draft.action, built.value);
    } else {
      FailureIsExclusive(RequestChecks(world, action), built.error);
    }
  }

  /** The record a draft ends up as, and what the caller is told. */
  function Outcome(world: Surroundings, client: Client, m: Manifest, draft: Job): (Job, Result<Unit, CliError>)
    requires draft.gpuBindings != [] && draft.service in m.services
  {
    Concluded(world, client, draft, Built(world, m, draft))
  }

  /** The client calls a draft leads to: one, or none if the request is refused. */
  function CallsFor(world: Surroundings, m: Manifest, draft: Job): seq<Request>
    requires draft.gpuBindings != [] && draft.service in m.services
  {
    if Built(world, m, draft).Ok? then [Built(world, m, draft).value] else []
  }

  /** What conducting a draft did: one save attempt of the outcome's record, and the
      calls that led to it. */
  ghost predicate Ran(
    world: Surroundings, client: Client, m: Manifest, draft: Job, fault: Option<CliError>,
    calls: seq<Request>, callsAfter: seq<Request>, jobs: map<JobKey, Job>, jobsAfter: map<JobKey, Job>,
    r: Result<Job, CliError>)
  {
    && draft.gpuBindings != [] && draft.service in m.services
    && callsAfter == calls + CallsFor(world, m, draft)
    && var (record, told) := Outcome(world, client, m, draft);
    match fault
    case None =>
      && jobsAfter == jobs[(draft.runId, draft.jobId) := record]
      && r == if told.Ok? then Ok(record) else Err(told.error)
    case Some(error) => jobsAfter == jobs && r == Err(error)
  }

  /** Some draft of the action was conducted. */
  ghost predicate Conducted(
    world: Surroundings, client: Client, s: Snapshot, runId: string, action: string, jobId: string,
    fault: Option<CliError>, calls: seq<Request>, callsAfter: seq<Request>, jobsAfter: map<JobKey, Job>,
    r: Result<Job, CliError>)
    requires WellKept(s) && runId in s.runs
  {
    exists draft ::
      && Drafted(world, s, runId, action, jobId, draft)
      && Ran(world, client, s.runs[runId].manifest, draft, fault, calls, callsAfter, s.jobs, jobsAfter, r)
  }

  /** The record of an admitted action: of the action, and telling what came of it. */
  ghost predicate RecordsAction(
    world: Surroundings, client: Client, state: RunState, action: string, jobId: string, record: Job,
    told: Result<Unit, CliError>)
  {
    && JobFits(state, record) && record.jobId == jobId && record.action == action
    && exists draft ::
         && JobFits(state, draft) && Untouched(world, draft) && SameIdentity(draft, record)
         && TellsOutcome(world, client, draft, Built(world, state.manifest, draft), record, told)
  }

  /** The request of a draft, or why there is none. */
  function Built(world: Surroundings, m: Manifest, draft: Job): Result<Request, CliError>
    requires draft.gpuBindings != [] && draft.service in m.services
  {
    BuildRequest(world, m, draft, m.services[draft.service])
  }

  lemma IdentityKeepsFit(state: RunState, draft: Job, record: Job)
    requires JobFits(state, draft) && SameIdentity(draft, record)
    ensures JobFits(state, record) && record.jobId == draft.jobId && record.action == draft.action
  {
    assert Identity(draft) == Identity(record);
    SameFields(draft, record);
  }

  lemma SameFields(a: Job, b: Job)
    requires SameIdentity(a, b)
    ensures a.provenanceVersion == b.provenanceVersion && a.runId == b.runId && a.jobId == b.jobId
    ensures a.manifestSha256 == b.manifestSha256 && a.effectiveEngine == b.effectiveEngine
    ensures a.resolvedProvider == b.resolvedProvider && a.executionPlane == b.executionPlane
    ensures a.action == b.action && a.service == b.service && a.command == b.command && a.image == b.image
    ensures a.dependencyServices == b.dependencyServices && a.gpuBindings == b.gpuBindings
    ensures a.timeoutMillis == b.timeoutMillis && a.maxOutputBytes == b.maxOutputBytes
  {
    assert Identity(a) == Identity(b);
  }

  /** One record was stored, telling what came of the action, and the caller got the
      same verdict; or the save failed and the caller got its error. */
  ghost predicate StoresTelling(
    world: Surroundings, client: Client, state: RunState, action: string, jobId: string, fault: Option<CliError>,
    jobs: map<JobKey, Job>, jobsAfter: map<JobKey, Job>, r: Result<Job, CliError>)
  {
    match fault
    case Some(error) => jobsAfter == jobs && r == Err(error)
    case None => exists record, told ::
      && RecordsAction(world, client, state, action, jobId, record, told)
      && jobsAfter == jobs[(state.runId, jobId) := record]
      && r == if told.Ok? then Ok(record) else Err(told.error)
  }

  lemma SomeDraft(
    world: Surroundings, client: Client, s: Snapshot, runId: string, action: string, jobId: string,
    fault: Option<CliError>, calls: seq<Request>, callsAfter: seq<Request>, jobsAfter: map<JobKey, Job>,
    r: Result<Job, CliError>)
    returns (draft: Job)
    requires WellKept(s) && runId in s.runs
    requires Conducted(world, client, s, runId, action, jobId, fault, calls, callsAfter, jobsAfter, r)
    ensures JobFits(s.runs[runId], draft) && draft.action == action && draft.jobId == jobId && Untouched(world, draft)
    ensures Ran(world, client, s.runs[runId].manifest, draft, fault, calls, callsAfter, s.jobs, jobsAfter, r)
  {
    draft :|
      && Drafted(world, s, runId, action, jobId, draft)
      && Ran(world, client, s.runs[runId].manifest, draft, fault, calls, callsAfter, s.jobs, jobsAfter, r);
  }

  /** What `run_action` stores and answers. */
  lemma ConductedTells(
    world: Surroundings, client: Client, s: Snapshot, runId: string, action: string, jobId: string,
    fault: Option<CliError>, calls: seq<Request>, callsAfter: seq<Request>, jobsAfter: map<JobKey, Job>,
    r: Result<Job, CliError>)
    requires WellKept(s) && runId in s.runs && PrintsHex(world.digest)
    requires Conducted(world, client, s, runId, action, jobId, fault, calls, callsAfter, jobsAfter, r)
    ensures StoresTelling(world, client, s.runs[runId], action, jobId, fault, s.jobs, jobsAfter, r)
  {
    var draft := SomeDraft(world, client, s, runId, action, jobId, fault, calls, callsAfter, jobsAfter, r);
    RanTells(world, client, s.runs[runId], draft, fault, calls, callsAfter, s.jobs, jobsAfter, r);
  }

  lemma RanTells(
    world: Surroundings, client: Client, state: RunState, draft: Job, fault: Option<CliError>, calls: seq<Request>,
    callsAfter: seq<Request>, jobs: map<JobKey, Job>, jobsAfter: map<JobKey, Job>, r: Result<Job, CliError>)
    requires JobFits(state, draft) && Untouched(world, draft) && PrintsHex(world.digest)
    requires Ran(world, client, state.manifest, draft, fault, calls, callsAfter, jobs, jobsAfter, r)
    ensures StoresTelling(world, client, state, draft.action, draft.jobId, fault, jobs, jobsAfter, r)
  {
    DraftTells(world, client, state, draft);
    if fault.None? {
      var (record, told) := Outcome(world, client, state.manifest, draft);
      assert jobsAfter == jobs[(state.runId, draft.jobId) := record];
      assert RecordsAction(world, client, state, draft.action, draft.jobId, record, told);
    }
  }

  lemma DraftTells(world: Surroundings, client: Client, state: RunState, draft: Job)
    requires JobFits(state, draft) && Untouched(world, draft) && PrintsHex(world.digest)
    ensures var (record, told) := Outcome(world, client, state.manifest, draft);
            RecordsAction(world, client, state, draft.action, draft.jobId, record, told)
  {
    var built := Built(world, state.manifest, draft);
    var (record, told) := Concluded(world, client, draft, built);
    OutcomeTold(world, client, draft, built);
    ConcludedKeepsIdentity(world, client, draft, built);
    IdentityKeepsFit(state, draft, record);
  }

  method DraftJob(world: Surroundings, store: RunStore, runId: string, action: string, jobId: string)
    returns (r: Result<Job, CliError>)
    requires WellKept(store.Now())
    ensures r.Ok? <==> Admitted(store.Now(), runId, action, jobId)
    ensures r.Ok? ==> Drafted(world, store.Now(), runId, action, jobId, r.value)
    ensures r.Err? ==> RefusedWith(store.Now(), runId, action, jobId, r.error)
  {
    var decision := ActionDecision(store.runs, runId, action, jobId);
    if decision.Err? {
      return Err(decision.error);
    }
    var state := decision.value;
    var declared := state.manifest.actions[action];
    var bound := ActionGpuBindings(state.manifest, declared.service);
    if bound.Err? {
      RefusedIsNotBindable(state.manifest, declared.service, bound.error);
      return Err(bound.error);
    }
    BoundIsBindable(state.manifest, declared.service, bound.value.1);
    var job := Job(
      "phenocompose.job-provenance/v1", runId, jobId, state.manifestSha256, "podman", "podman", "nanovms",
      action, declared.service, declared.command, state.manifest.services[declared.service].image,
      bound.value.0, bound.value.1, TIMEOUT_MILLIS, MAX_OUTPUT_BYTES, "", false, None, None, None, None,
      LocalFailure(world.digest, world.lossy, [], []), false, "", "");
    if (runId, jobId) in store.jobs {
      return Err(Raise(Conflict, "job_exists"));
    }
    return Ok(job);
  }

  lemma RefusedIsNotBindable(m: Manifest, root: string, error: CliError)
    requires Closed(Dependencies(m)) && root in m.services
    requires forall n :: n in Closure(Dependencies(m), root) ==> n in m.services
    requires RefusedBy(m, Closure(Dependencies(m), root), error) || GpusOf(m, Closure(Dependencies(m), root), {})
    ensures !ClosureBindable(m, root)
  {
    var closure := Closure(Dependencies(m), root);
    if RefusedBy(m, closure, error) {
      var i :| 0 <= i < |closure| && Refusal(m, m.services[closure[i]]) == Some(error);
      assert closure[i] in closure;
    }
  }

  lemma BoundIsBindable(m: Manifest, root: string, bindings: seq<GpuBinding>)
    requires Closed(Dependencies(m)) && root in m.services
    requires forall n :: n in Closure(Dependencies(m), root) ==> n in m.services
    requires NoneRefused(m, Closure(Dependencies(m), root)) && BindsExactly(m, Closure(Dependencies(m), root), bindings)
    ensures ClosureBindable(m, root)
  {
    var closure := Closure(Dependencies(m), root);
    var uuids := Elements(Uuids(bindings));
    assert Uuids(bindings)[0] in uuids;
    if GpusOf(m, closure, {}) {
      GpusAreDetermined(m, closure, uuids, {});
    }
  }

  method PersistJobFailure(store: RunStore, job: Job, error: CliError) returns (r: Result<Job, CliError>)
    modifies store
    ensures store.runs == old(store.runs) && store.attempts == old(store.attempts) + 1
    ensures match store.saveFault(old(store.attempts))
            case None => r == Err(error) && store.jobs == old(store.jobs)[(job.runId, job.jobId) := Failed(job, error)]
            case Some(fault) => r == Err(fault) && store.jobs == old(store.jobs)
  {
    var failed := job.(success := false);
    if failed.errorCode == "" {
      failed := failed.(errorCode := error.code);
    }
    if failed.errorMessage == "" {
      failed := failed.(errorMessage := error.message);
    }
    var saved := store.SaveJob(failed);
    return Err(if saved.Err? then saved.error else error);
  }

  /** From the request on: one client call at most, and one save whatever happens. */
  method ConductJob(world: Surroundings, store: RunStore, client: ActionClient, draft: Job, m: Manifest)
    returns (r: Result<Job, CliError>)
    requires draft.gpuBindings != [] && draft.service in m.services
    modifies store, client
    ensures store.runs == old(store.runs) && store.attempts == old(store.attempts) + 1
    ensures Ran(world, AnsweringAs(client.answers, |old(client.calls)|), m, draft, store.saveFault(old(store.attempts)),
                old(client.calls), client.calls, old(store.jobs), store.jobs, r)
  {
    var job := draft;
    var built := BuildRequest(world, m, job, m.services[job.service]);
    if built.Err? {
      r := PersistJobFailure(store, job, built.error);
      return;
    }
    var request := built.value;
    job := job.(outputRoot := request.outputRoot);
    var answer := client.Execute(request);
    if answer.Err? {
      var lifecycle := TrustworthyFailureLifecycle(answer.error.lifecycle, request.maxOutputBytes, world.digest);
      job := job.(lifecycle := lifecycle);
      r := PersistJobFailure(store, job, answer.error.error);
      return;
    }
    r := RecordReply(world, store, request, job, answer.value);
  }

  /** From the reply on: copy what it reports, check it, save. */
  method RecordReply(world: Surroundings, store: RunStore, request: Request, asked: Job, reply: Reply)
    returns (r: Result<Job, CliError>)
    modifies store
    ensures store.runs == old(store.runs) && store.attempts == old(store.attempts) + 1
    ensures var (record, told) := RecordAfter(world, request, asked, reply);
            match store.saveFault(old(store.attempts))
            case None =>
              && store.jobs == old(store.jobs)[(asked.runId, asked.jobId) := record]
              && r == if told.Ok? then Ok(record) else Err(told.error)
            case Some(error) => store.jobs == old(store.jobs) && r == Err(error)
  {
    var job := asked;
    job := job.(outputRootCreated := reply.provenance.outputRootCreated);
    job := job.(outputRootAvailableBytes := reply.provenance.outputRootAvailableBytes);
    job := job.(toolkitVersion := reply.provenance.toolkitVersion);
    job := job.(toolkitRoot := reply.provenance.toolkitRoot);
    job := job.(toolkitExecutable := reply.provenance.toolkitExecutable);
    var lifecycle := TrustworthyFailureLifecycle(reply.lifecycle, request.maxOutputBytes, world.digest);
    job := job.(lifecycle := lifecycle);
    job := job.(errorCode := reply.errorCode);
    job := job.(errorMessage := reply.errorMessage);
    var valid := ValidateReply(world, request, reply);
    if valid.Err? {
      r := PersistJobFailure(store, job, valid.error);
      return;
    }
    if !reply.success {
      r := PersistJobFailure(store, job, ActionFailure(reply));
      return;
    }
    job := job.(success := true);
    var saved := store.SaveJob(job);
    r := if saved.Ok? then Ok(job) else Err(saved.error);
  }

  method RunAction(world: Surroundings, store: RunStore, client: ActionClient, runId: string, action: string,
    jobId: string)
    returns (r: Result<Job, CliError>)
    requires WellKept(store.Now())
    modifies store, client
    ensures store.runs == old(store.runs)
    ensures !Admitted(old(store.Now()), runId, action, jobId) ==>
              r.Err? && RefusedWith(old(store.Now()), runId, action, jobId, r.error)
              && store.jobs == old(store.jobs) && store.attempts == old(store.attempts)
                 && client.calls == old(client.calls)
    ensures Admitted(old(store.Now()), runId, action, jobId) ==>
              AsksAtMostOnce(world, old(store.runs)[runId], action, old(client.calls), client.calls)
    ensures Admitted(old(store.Now()), runId, action, jobId) ==>
              && store.attempts == old(store.attempts) + 1
              && Conducted(world, AnsweringAs(client.answers, |old(client.calls)|), old(store.Now()), runId, action,
                   jobId, store.saveFault(old(store.attempts)), old(client.calls), client.calls, store.jobs, r)
  {
    var draft := DraftJob(world, store, runId, action, jobId);
    if draft.Err? {
      return Err(draft.error);
    }
    ghost var state, calls := store.runs[runId], client.calls;
    r := ConductJob(world, store, client, draft.value, store.runs[runId].manifest);
    CallsAreOfAction(world, state, draft.value, calls, client.calls);
  }
}
