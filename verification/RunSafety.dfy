/** What no sequence of commands can do to the persisted runs and jobs. */
module RunSafety {
  import opened Prelude
  import opened Text
  import opened Model
  import opened Evidence
  import opened Evaluation
  import opened ContainerEngine
  import opened DependencyOrder
  import opened Launch
  import opened Runs
  import Planning
  import Validation

  // ----- What changes -----

  predicate SameRun(a: RunState, b: RunState) {
    a.(lifecycle := Running) == b.(lifecycle := Running)
  }

  ghost predicate RunsRemain(runs: map<string, RunState>, runs': map<string, RunState>) {
    forall id :: id in runs ==>
      && id in runs' && SameRun(runs[id], runs'[id])
      && (runs[id].lifecycle == Down ==> runs'[id].lifecycle == Down)
  }

  /** Runs never disappear and change only from Running to Down; job records are
      write-once; a run that is down gets no new ones. */
  ghost predicate Evolves(s: Snapshot, s': Snapshot) {
    && RunsRemain(s.runs, s'.runs)
    && (forall k :: k in s.jobs ==> k in s'.jobs && s'.jobs[k] == s.jobs[k])
    && (forall k :: k in s'.jobs && k !in s.jobs && k.0 in s.runs ==> s.runs[k.0].lifecycle == Running)
  }

  lemma EvolvesTransitive(a: Snapshot, b: Snapshot, c: Snapshot)
    requires Evolves(a, b) && Evolves(b, c)
    ensures Evolves(a, c)
  {
    forall id | id in a.runs
      ensures id in c.runs && SameRun(a.runs[id], c.runs[id])
      ensures a.runs[id].lifecycle == Down ==> c.runs[id].lifecycle == Down
    {
      assert id in b.runs && SameRun(a.runs[id], b.runs[id]) && SameRun(b.runs[id], c.runs[id]);
    }
    forall k | k in c.jobs && k !in a.jobs && k.0 in a.runs
      ensures a.runs[k.0].lifecycle == Running
    {
      if k !in b.jobs {
        assert k.0 in b.runs && b.runs[k.0].lifecycle == Running;
      }
    }
  }

  // ----- What holds throughout -----

  /** The digest is that of the normalised manifest, and the id derives from it. */
  ghost predicate PlannedAs(c: Planning.Codec, state: RunState) {
    && state.manifestSha256 == Planning.PlanOf(c, state.manifest).manifestSha256
    && IsSha256Hex(state.manifestSha256) && state.runId == RunIdOf(state.manifest, state.manifestSha256)
  }

  /** A stored run: valid, supported and planned, with a container for every service. */
  ghost predicate RunFits(c: Planning.Codec, state: RunState) {
    && Validation.ValidManifest(state.manifest) && Supported(state.manifest) && PlannedAs(c, state)
    && state.provider == "podman"
    && forall s :: s in state.manifest.services ==> s in state.containers
  }

  /** A record that tells success from failure: by its error code, in both
      directions once every client names a code for its failures. */
  predicate TellsSuccess(named: bool, job: Job) {
    (job.success ==> job.errorCode == "") && (named && job.errorCode == "" ==> job.success)
  }

  /** A stored record: of an action of its run, with trustworthy evidence. */
  ghost predicate RecordFits(digest: Digest, named: bool, state: RunState, job: Job) {
    JobFits(state, job) && IsTrustworthy(job.lifecycle, MAX_OUTPUT_BYTES, digest) && TellsSuccess(named, job)
  }

  /** The store is well kept, `p` holds of every run, and `q` of every record with
      its run. */
  ghost predicate Keeps(p: RunState -> bool, q: (RunState, Job) -> bool, s: Snapshot) {
    && WellKept(s)
    && (forall id :: id in s.runs ==> p(s.runs[id]))
    && (forall k :: k in s.jobs ==> k.0 in s.runs && q(s.runs[k.0], s.jobs[k]))
  }

  ghost function Fitting(c: Planning.Codec): RunState -> bool {
    state => RunFits(c, state)
  }

  ghost function Recording(digest: Digest, named: bool): (RunState, Job) -> bool {
    (state, job) => RecordFits(digest, named, state, job)
  }

  ghost predicate Sound(digest: Digest, c: Planning.Codec, named: bool, s: Snapshot) {
    Keeps(Fitting(c), Recording(digest, named), s)
  }

  /** Every run of a sound store fits, and so does every record. */
  lemma SoundRuns(digest: Digest, c: Planning.Codec, named: bool, s: Snapshot, id: string)
    requires Sound(digest, c, named, s) && id in s.runs
    ensures RunFits(c, s.runs[id])
  {
    assert Fitting(c)(s.runs[id]);
  }

  lemma SoundRecords(digest: Digest, c: Planning.Codec, named: bool, s: Snapshot, k: JobKey)
    requires Sound(digest, c, named, s) && k in s.jobs
    ensures k.0 in s.runs && RecordFits(digest, named, s.runs[k.0], s.jobs[k])
  {
    assert Recording(digest, named)(s.runs[k.0], s.jobs[k]);
  }

  /** Evaluation clients and path handling name a code for every failure. */
  ghost predicate NamesCodes(world: Surroundings, answers: Answers) {
    && (forall n, request :: answers(n, request).Err? ==> answers(n, request).error.error.code != "")
    && (forall p :: world.resolveOutputRoot(p).Err? ==> world.resolveOutputRoot(p).error.code != "")
    && (world.reservationPath.Err? ==> world.reservationPath.error.code != "")
  }

  // ----- Single commands -----

  lemma AddingRunEvolves(p: RunState -> bool, q: (RunState, Job) -> bool, s: Snapshot, state: RunState)
    requires Keeps(p, q, s) && state.runId !in s.runs && Indexable(state.manifest) && p(state)
    ensures var s' := Snapshot(s.runs[state.runId := state], s.jobs);
            Evolves(s, s') && Keeps(p, q, s')
  {
  }

  lemma TakingDownEvolves(p: RunState -> bool, q: (RunState, Job) -> bool, s: Snapshot, id: string)
    requires Keeps(p, q, s) && id in s.runs
    requires forall state: RunState :: p(state) ==> p(state.(lifecycle := Down))
    requires forall state: RunState, job :: q(state, job) ==> q(state.(lifecycle := Down), job)
    ensures var s' := Snapshot(s.runs[id := s.runs[id].(lifecycle := Down)], s.jobs);
            Evolves(s, s') && Keeps(p, q, s')
  {
  }

  lemma AddingJobEvolves(p: RunState -> bool, q: (RunState, Job) -> bool, s: Snapshot, job: Job)
    requires Keeps(p, q, s) && (job.runId, job.jobId) !in s.jobs
    requires job.runId in s.runs && s.runs[job.runId].lifecycle == Running && q(s.runs[job.runId], job)
    ensures var s' := Snapshot(s.runs, s.jobs[(job.runId, job.jobId) := job]);
            Evolves(s, s') && Keeps(p, q, s')
  {
  }

  /** What is demanded of runs and records does not depend on the lifecycle. */
  lemma FitsWhenDown(digest: Digest, c: Planning.Codec, named: bool)
    ensures forall state: RunState :: Fitting(c)(state) ==> Fitting(c)(state.(lifecycle := Down))
    ensures forall state: RunState, job ::
              Recording(digest, named)(state, job) ==> Recording(digest, named)(state.(lifecycle := Down), job)
  {
    forall state: RunState | Fitting(c)(state)
      ensures Fitting(c)(state.(lifecycle := Down))
    {
      RunFitsWhenDown(c, state);
    }
    forall state: RunState, job | Recording(digest, named)(state, job)
      ensures Recording(digest, named)(state.(lifecycle := Down), job)
    {
      RecordFitsWhenDown(state, job);
    }
  }

  lemma RunFitsWhenDown(c: Planning.Codec, state: RunState)
    requires RunFits(c, state)
    ensures RunFits(c, state.(lifecycle := Down))
  {
  }

  lemma RecordFitsWhenDown(state: RunState, job: Job)
    requires JobFits(state, job)
    ensures JobFits(state.(lifecycle := Down), job)
  {
  }

  lemma RequestNamesCodes(world: Surroundings, answers: Answers, m: Manifest, job: Job, service: Service)
    requires NamesCodes(world, answers) && job.gpuBindings != []
    ensures var built := BuildRequest(world, m, job, service);
            built.Err? ==> built.error.code != ""
  {
    var built := BuildRequest(world, m, job, service);
    assert built.Err? && world.reservationPath.Err? && built == Err(world.reservationPath.error) ==>
        built.error.code != "";
  }

  /** The record a draft ends up as when the client is at its call number `n`. */
  function RecordOf(world: Surroundings, answers: Answers, n: nat, m: Manifest, draft: Job): Job {
    if draft.gpuBindings != [] && draft.service in m.services then
      Outcome(world, AnsweringAs(answers, n), m, draft).0
    else
      draft
  }

  /** Whatever the client answers, the record is one the store may hold. */
  lemma ConcludedRecordIsStorable(
    world: Surroundings, answers: Answers, n: nat, named: bool, state: RunState, draft: Job)
    requires FaithfulSurroundings(world) && JobFits(state, draft) && Untouched(world, draft)
    requires named ==> NamesCodes(world, answers)
    ensures var record := RecordOf(world, answers, n, state.manifest, draft);
            && record.runId == state.runId && record.jobId == draft.jobId
            && RecordFits(world.digest, named, state, record)
  {
    var m, client := state.manifest, AnsweringAs(answers, n);
    var service := m.services[draft.service];
    var built := BuildRequest(world, m, draft, service);
    StoredEvidenceIsTrustworthy(world, client, draft, m, service);
    IdentityKeepsFit(state, draft, Concluded(world, client, draft, built).0);
    RecordTellsSuccess(world, answers, n, named, m, draft, service);
  }

  lemma RecordTellsSuccess(
    world: Surroundings, answers: Answers, n: nat, named: bool, m: Manifest, draft: Job, service: Service)
    requires Untouched(world, draft) && draft.gpuBindings != [] && (named ==> NamesCodes(world, answers))
    ensures var built := BuildRequest(world, m, draft, service);
            TellsSuccess(named, Concluded(world, AnsweringAs(answers, n), draft, built).0)
  {
    var client, built := AnsweringAs(answers, n), BuildRequest(world, m, draft, service);
    SuccessIffNoErrorCode(world, client, draft, built);
    SuccessHasNoCode(world, client, draft, built);
    if named {
      RequestNamesCodes(world, answers, m, draft, service);
      assert !AnonymousFailure(client, built);
    }
  }

  lemma SuccessHasNoCode(world: Surroundings, client: Client, job: Job, built: Result<Request, CliError>)
    requires !job.success && job.errorCode == ""
    ensures var record := Concluded(world, client, job, built).0;
            record.success ==> record.errorCode == ""
  {
    if built.Ok? && client(built.value).Ok? {
      ReplyVerdict(world, client, job, built.value);
    }
  }

  // ----- Any sequence of commands -----

  lemma ApplyEvolves(
    digest: Digest, c: Planning.Codec, named: bool, s: Snapshot, m: Manifest, dryRun: bool, host: Host, s': Snapshot)
    requires Sound(digest, c, named, s) && Validation.ValidManifest(m) && Indexable(m) && PrintsHex(c.digest)
    requires |Planning.Digested(c, Planning.Normalized(m))| == 64
    requires s'.jobs == s.jobs && (s'.runs == s.runs || AddsDecided(m, c, dryRun, host, s.runs, s'.runs))
    ensures Evolves(s, s') && Sound(digest, c, named, s')
  {
    if s'.runs != s.runs {
      LaunchIsPlanned(m, c, dryRun, s.runs, host);
      var Launching(plan, runId) := Decide(m, c, dryRun, s.runs, host);
      var state :| NewRun(m, plan, runId, state) && s'.runs == s.runs[runId := state];
      Planning.DigestedIsHex(c, Planning.Normalized(m));
      assert RunFits(c, state);
      AddingRunEvolves(Fitting(c), Recording(digest, named), s, state);
    }
  }

  lemma ActionEvolves(
    world: Surroundings, c: Planning.Codec, named: bool, answers: Answers, n: nat, s: Snapshot, runId: string,
    draft: Job)
    requires FaithfulSurroundings(world) && Sound(world.digest, c, named, s) && (named ==> NamesCodes(world, answers))
    requires runId in s.runs && s.runs[runId].lifecycle == Running && (runId, draft.jobId) !in s.jobs
    requires JobFits(s.runs[runId], draft) && Untouched(world, draft)
    ensures var record := RecordOf(world, answers, n, s.runs[runId].manifest, draft);
            var s' := Snapshot(s.runs, s.jobs[(runId, draft.jobId) := record]);
            Evolves(s, s') && Sound(world.digest, c, named, s')
  {
    ConcludedRecordIsStorable(world, answers, n, named, s.runs[runId], draft);
    var record := RecordOf(world, answers, n, s.runs[runId].manifest, draft);
    AddingJobEvolves(Fitting(c), Recording(world.digest, named), s, record);
  }

  datatype Command =
    | ApplyManifest(parsed: Result<Manifest, CliError>, dryRun: bool, host: Host)
    | ShowStatus(runId: string)
    | DownRun(runId: string)
    | ActOn(runId: string, action: string, jobId: string)
    | Export(runId: string)

  /** What `load_manifest` lets through is what the commands can work with. The
      file is read and parsed into a manifest or an error. */
  method LoadManifest(parsed: Result<Manifest, CliError>) returns (r: Result<Manifest, CliError>)
    ensures r.Ok? <==> parsed.Ok? && Validation.ValidManifest(parsed.value)
    ensures r.Ok? ==> r == parsed && Indexable(r.value)
    ensures r.Err? ==> if parsed.Err? then r.error == parsed.error else Validation.Explains(parsed.value, r.error)
  {
    var m :- parsed;
    var _ :- Validation.Validate(m);
    Validation.ValidIsClosed(m);
    assert forall a :: a in m.actions ==> Validation.ValidAction(m, m.actions[a]);
    return Ok(m);
  }

  /** The `apply` command: `load_manifest` validates, then `apply` runs. */
  method ApplyLoaded(
    ghost digest: Digest, ghost named: bool, c: Planning.Codec, store: RunStore, engine: Engine, launcher: LaunchClient,
    parsed: Result<Manifest, CliError>, dryRun: bool, host: Host)
    requires Planning.Faithful(c) && PrintsHex(c.digest) && Sound(digest, c, named, store.Now())
    modifies store, engine, launcher
    ensures Evolves(old(store.Now()), store.Now()) && Sound(digest, c, named, store.Now())
  {
    ghost var s := store.Now();
    var loaded := LoadManifest(parsed);
    if loaded.Ok? {
      var m := loaded.value;
      var _ := Apply(store, engine, launcher, m, c, dryRun, host);
      ApplyEvolves(digest, c, named, s, m, dryRun, host, store.Now());
    }
  }

  method TakeDownSafely(
    ghost digest: Digest, ghost c: Planning.Codec, ghost named: bool, store: RunStore, engine: Engine, runId: string)
    requires Sound(digest, c, named, store.Now())
    modifies store, engine
    ensures Evolves(old(store.Now()), store.Now()) && Sound(digest, c, named, store.Now())
  {
    ghost var s := store.Now();
    var _ := TakeDown(store, engine, runId);
    if store.Now() != s {
      FitsWhenDown(digest, c, named);
      TakingDownEvolves(Fitting(c), Recording(digest, named), s, runId);
    }
  }

  method Act(
    world: Surroundings, ghost c: Planning.Codec, ghost named: bool, store: RunStore, evaluator: ActionClient,
    runId: string, action: string, jobId: string)
    requires FaithfulSurroundings(world) && Sound(world.digest, c, named, store.Now())
    requires named ==> NamesCodes(world, evaluator.answers)
    modifies store, evaluator
    ensures Evolves(old(store.Now()), store.Now()) && Sound(world.digest, c, named, store.Now())
  {
    ghost var s, n, calls, attempts := store.Now(), |evaluator.calls|, evaluator.calls, store.attempts;
    var r := RunAction(world, store, evaluator, runId, action, jobId);
    if Admitted(s, runId, action, jobId) {
      DecidedRun(s.runs, runId, action, jobId);
      ConductedEvolves(world, c, named, evaluator.answers, n, s, runId, action, jobId, store.saveFault(attempts), calls,
        evaluator.calls, store.jobs, r);
    }
  }

  lemma ConductedEvolves(
    world: Surroundings, c: Planning.Codec, named: bool, answers: Answers, n: nat, s: Snapshot, runId: string,
    action: string, jobId: string, fault: Option<CliError>, calls: seq<Request>, callsAfter: seq<Request>,
    jobsAfter: map<JobKey, Job>, r: Result<Job, CliError>)
    requires FaithfulSurroundings(world) && Sound(world.digest, c, named, s) && (named ==> NamesCodes(world, answers))
    requires Admitted(s, runId, action, jobId) && runId in s.runs && s.runs[runId].lifecycle == Running
    requires Conducted(world, AnsweringAs(answers, n), s, runId, action, jobId, fault, calls, callsAfter, jobsAfter, r)
    ensures Evolves(s, Snapshot(s.runs, jobsAfter)) && Sound(world.digest, c, named, Snapshot(s.runs, jobsAfter))
  {
    var client := AnsweringAs(answers, n);
    var draft := SomeDraft(world, client, s, runId, action, jobId, fault, calls, callsAfter, jobsAfter, r);
    RanStores(world, answers, n, s.runs[runId].manifest, draft, fault, calls, callsAfter, s.jobs, jobsAfter, r);
    if jobsAfter != s.jobs {
      ActionEvolves(world, c, named, answers, n, s, runId, draft);
    }
  }

  /** Conducting a draft stores its record, or nothing. */
  lemma RanStores(
    world: Surroundings, answers: Answers, n: nat, m: Manifest, draft: Job, fault: Option<CliError>,
    calls: seq<Request>, callsAfter: seq<Request>, jobs: map<JobKey, Job>, jobsAfter: map<JobKey, Job>,
    r: Result<Job, CliError>)
    requires Ran(world, AnsweringAs(answers, n), m, draft, fault, calls, callsAfter, jobs, jobsAfter, r)
    ensures jobsAfter == jobs
            || jobsAfter == jobs[(draft.runId, draft.jobId) := RecordOf(world, answers, n, m, draft)]
  {
  }

  /** `named` says whether the clients of this run of commands name a code for every
      failure; if they do, success and an empty code coincide throughout. */
  method Perform(
    world: Surroundings, c: Planning.Codec, ghost named: bool, store: RunStore, engine: Engine, launcher: LaunchClient,
    evaluator: ActionClient, command: Command)
    requires FaithfulSurroundings(world) && Planning.Faithful(c) && PrintsHex(c.digest)
    requires Sound(world.digest, c, named, store.Now()) && (named ==> NamesCodes(world, evaluator.answers))
    modifies store, engine, launcher, evaluator
    ensures Evolves(old(store.Now()), store.Now()) && Sound(world.digest, c, named, store.Now())
  {
    match command {
      case ApplyManifest(parsed, dryRun, host) =>
        ApplyLoaded(world.digest, named, c, store, engine, launcher, parsed, dryRun, host);
      case ShowStatus(runId) =>
        var _ := Status(store, engine, runId);
      case DownRun(runId) =>
        TakeDownSafely(world.digest, c, named, store, engine, runId);
      case ActOn(runId, action, jobId) =>
        Act(world, c, named, store, evaluator, runId, action, jobId);
      case Export(runId) =>
        var _ := ExportProvenance(store, runId);
    }
  }

  /** Whatever commands run in whatever order, with whatever answers, failures
      and faults along the way. */
  method PerformAll(
    world: Surroundings, c: Planning.Codec, ghost named: bool, store: RunStore, engine: Engine, launcher: LaunchClient,
    evaluator: ActionClient, commands: seq<Command>)
    requires FaithfulSurroundings(world) && Planning.Faithful(c) && PrintsHex(c.digest)
    requires Sound(world.digest, c, named, store.Now()) && (named ==> NamesCodes(world, evaluator.answers))
    modifies store, engine, launcher, evaluator
    ensures Evolves(old(store.Now()), store.Now()) && Sound(world.digest, c, named, store.Now())
  {
    for i := 0 to |commands|
      invariant Evolves(old(store.Now()), store.Now()) && Sound(world.digest, c, named, store.Now())
    {
      ghost var before := store.Now();
      Perform(world, c, named, store, engine, launcher, evaluator, commands[i]);
      EvolvesTransitive(old(store.Now()), before, store.Now());
    }
  }

  /** From an empty state directory nothing has to be assumed of the store. */
  lemma EmptyIsSound(digest: Digest, c: Planning.Codec, named: bool)
    ensures Sound(digest, c, named, Snapshot(map[], map[]))
  {
  }

  /** A manifest named "_x" can be valid and applied, but the run id derived from it
      is refused by every later command, whatever is stored. */
  lemma UnderscoreRunIsStranded(m: Manifest, name: string, service: Service, sha: string, runs: map<string, RunState>)
    requires m.apiVersion == API_VERSION && m.name == "_x" && m.teardown.order == [] && m.actions == map[]
    requires m.services == map[name := service] && !Validation.Blank(name) && !Validation.Blank(service.image)
    requires service.dependsOn == [] && service.resources.None? && IsSha256Hex(sha)
    ensures Validation.ValidManifest(m)
    ensures Loaded(runs, RunIdOf(m, sha)) == Err(Raise(Validation, "run_id_invalid"))
  {
    TrimIsTrimmed("_x");
    Validation.ValidManifestsExist(m, name, service);
    AppliedRunIsAddressableIff(m, sha);
  }
}
