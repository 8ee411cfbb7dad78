/** One evaluation action: the request, the checks on the client's reply, and
    the job record that is stored whatever the client answers. */
module Evaluation {
  import opened Prelude
  import opened Text
  import opened Checks
  import opened Model
  import opened Evidence
  import opened GpuBindings

  const ACTION_VERSION := "nanovms.io/evaluation-action/v1"
  const RESOURCE_VERSION := "nanovms.io/resources/v1"
  const TIMEOUT_MILLIS := 300_000
  const MAX_OUTPUT_BYTES := 1_048_576

  datatype Job = Job(
    provenanceVersion: string,
    runId: string,
    jobId: string,
    manifestSha256: string,
    effectiveEngine: string,
    resolvedProvider: string,
    executionPlane: string,
    action: string,
    service: string,
    command: seq<string>,
    image: string,
    dependencyServices: seq<string>,
    gpuBindings: seq<GpuBinding>,
    timeoutMillis: int,
    maxOutputBytes: nat,
    outputRoot: string,
    outputRootCreated: bool,
    outputRootAvailableBytes: Option<nat>,
    toolkitVersion: Option<string>,
    toolkitRoot: Option<string>,
    toolkitExecutable: Option<string>,
    lifecycle: Lifecycle,
    success: bool,
    errorCode: string,
    errorMessage: string)

  datatype Request = Request(
    version: string,
    backend: string,
    fallbackBackends: seq<string>,
    manifestSha256: string,
    executable: string,
    argv: seq<string>,
    environment: map<string, string>,
    externalEngineToken: string,
    podmanPipe: string,
    wslDistribution: string,
    outputRoot: string,
    reservationPath: string,
    lockInvocation: seq<string>,
    resourceVersion: string,
    resourceUuids: seq<string>,
    cudaToolkit: string,
    compiledKernels: bool,
    gpuBindings: seq<GpuBinding>,
    timeoutMillis: int,
    maxOutputBytes: nat)

  datatype Attestation = Attestation(
    manifestSha256: string,
    effectiveEngine: string,
    resolvedProvider: string,
    executionPlane: string,
    podmanPipe: string,
    gpuUuids: seq<string>,
    jobDirectory: string,
    outputRootCreated: bool,
    outputRootAvailableBytes: Option<nat>,
    toolkitVersion: Option<string>,
    toolkitRoot: Option<string>,
    toolkitExecutable: Option<string>)

  datatype Reply = Reply(
    version: string,
    success: bool,
    errorCode: string,
    errorMessage: string,
    lifecycle: Lifecycle,
    provenance: Attestation,
    released: bool)

  datatype Failure = Failure(error: CliError, lifecycle: Lifecycle)

  /** The surroundings of an action: path handling and SHA-256. */
  datatype Surroundings = Surroundings(
    resolveOutputRoot: string -> Result<string, CliError>,
    reservationPath: Result<string, CliError>,
    isChildOf: (string, string) -> bool,
    digest: Digest,
    lossy: seq<Byte> -> seq<Byte>)

  // ----- The request -----

  function BuildRequest(world: Surroundings, m: Manifest, job: Job, service: Service): Result<Request, CliError>
    requires job.gpuBindings != []
  {
    if job.command == [] then
      Err(Raise(Validation, "action_command_empty"))
    else if job.action !in m.actions || m.actions[job.action].outputRoot.None? then
      Err(Raise(Validation, "action_output_root_missing"))
    else
      var outputRoot :- world.resolveOutputRoot(m.actions[job.action].outputRoot.value);
      var reservation :- world.reservationPath;
      Ok(Request(
           ACTION_VERSION,
           "podman",
           [],
           job.manifestSha256,
           job.command[0],
           job.command[1..],
           m.environment.variables + service.environment,
           "docker",
           DEFAULT_PODMAN_PIPE,
           if m.runtime.wslDistribution.Some? then m.runtime.wslDistribution.value else "",
           outputRoot,
           reservation,
           job.command,
           RESOURCE_VERSION,
           Uuids(job.gpuBindings),
           job.gpuBindings[0].cudaToolkit,
           true,
           job.gpuBindings,
           job.timeoutMillis,
           job.maxOutputBytes))
  }

  /** Variables of the service on top of those of the environment. */
  ghost predicate Layered(base: map<string, string>, over: map<string, string>, all: map<string, string>) {
    && (forall k :: k in all <==> k in base || k in over)
    && (forall k :: k in over ==> all[k] == over[k])
    && (forall k :: k in base && k !in over ==> all[k] == base[k])
  }

  /** What is asked of a client for an action: the action's command on the service's
      image environment, its output root, and the GPUs bound to it. */
  ghost predicate AsksToRun(world: Surroundings, m: Manifest, action: Action, service: Service, sha: string,
    bindings: seq<GpuBinding>, r: Request)
  {
    && r.version == "nanovms.io/evaluation-action/v1" && r.resourceVersion == "nanovms.io/resources/v1"
    && r.backend == "podman" && r.fallbackBackends == [] && r.externalEngineToken == "docker"
    && r.podmanPipe == "npipe:////./pipe/podman-machine-default"
    && (match m.runtime.wslDistribution
        case None => r.wslDistribution == ""
        case Some(distribution) => r.wslDistribution == distribution)
    && r.manifestSha256 == sha
    && [r.executable] + r.argv == action.command && r.lockInvocation == action.command
    && Layered(m.environment.variables, service.environment, r.environment)
    && action.outputRoot.Some? && world.resolveOutputRoot(action.outputRoot.value) == Ok(r.outputRoot)
    && world.reservationPath == Ok(r.reservationPath)
    && AsksForGpus(m, bindings, r)
    && r.timeoutMillis == 300_000 && r.maxOutputBytes == 1_048_576
  }

  ghost predicate AsksForGpus(m: Manifest, bindings: seq<GpuBinding>, r: Request) {
    && r.gpuBindings == bindings && r.cudaToolkit == m.environment.toolkit.version && r.compiledKernels
    && |r.resourceUuids| == |bindings| && forall i :: 0 <= i < |bindings| ==> r.resourceUuids[i] == bindings[i].uuid
  }

  /** What is demanded before a client is asked, in this order. */
  ghost function RequestChecks(world: Surroundings, action: Action): seq<Check> {
    [ Check(action.command != [], Raise(Validation, "action_command_empty")),
      Check(action.outputRoot.Some?, Raise(Validation, "action_output_root_missing")),
      Succeeds(if action.outputRoot.Some? then world.resolveOutputRoot(action.outputRoot.value) else Ok("")),
      Succeeds(world.reservationPath) ]
  }

  function Succeeds<T>(r: Result<T, CliError>): Check {
    Check(r.Ok?, if r.Err? then r.error else Raise(Validation, ""))
  }

  /** The job is one of this action, as it was drafted. */
  ghost predicate JobOf(m: Manifest, action: Action, job: Job) {
    && job.action in m.actions && action == m.actions[job.action] && job.command == action.command
    && job.gpuBindings != [] && job.timeoutMillis == 300_000 && job.maxOutputBytes == 1_048_576
    && forall i :: 0 <= i < |job.gpuBindings| ==> job.gpuBindings[i].cudaToolkit == m.environment.toolkit.version
  }

  lemma RequestChecked(world: Surroundings, m: Manifest, job: Job, service: Service, action: Action)
    requires JobOf(m, action, job)
    ensures Decides(RequestChecks(world, action), FaultOf(BuildRequest(world, m, job, service)))
  {
    var checks, built := RequestChecks(world, action), BuildRequest(world, m, job, service);
    if built.Err? {
      var i :=
        if action.command == [] then 0
        else if action.outputRoot.None? then 1
        else if world.resolveOutputRoot(action.outputRoot.value).Err? then 2
        else 3;
      assert FailsAt(checks, i);
    }
  }

  /** Whatever is sent to a client, field by field. */
  lemma RequestAsksToRun(world: Surroundings, m: Manifest, job: Job, service: Service, action: Action)
    requires JobOf(m, action, job) && BuildRequest(world, m, job, service).Ok?
    ensures AsksToRun(world, m, action, service, job.manifestSha256, job.gpuBindings,
                      BuildRequest(world, m, job, service).value)
  {
    var request := BuildRequest(world, m, job, service).value;
    assert action.command == [action.command[0]] + action.command[1..];
  }

  // ----- Checking the reply -----

  function ValidateReply(world: Surroundings, request: Request, reply: Reply): Result<Unit, CliError> {
    var p := reply.provenance;
    var l := reply.lifecycle;
    if reply.version != ACTION_VERSION then
      Err(Raise(Backend, "nvms_version_mismatch"))
    else if Lower(p.manifestSha256) != Lower(request.manifestSha256) then
      Err(Raise(Backend, "nvms_manifest_mismatch"))
    else if p.effectiveEngine != "podman" || p.resolvedProvider != "podman" || p.executionPlane != "nanovms" then
      Err(Raise(Backend, "nvms_route_mismatch"))
    else if p.podmanPipe != request.podmanPipe then
      Err(Raise(Backend, "nvms_pipe_mismatch"))
    else if p.jobDirectory != "" && !world.isChildOf(request.outputRoot, p.jobDirectory) then
      Err(Raise(Backend, "nvms_output_root_mismatch"))
    else if !Attested(request.gpuBindings, p.gpuUuids) then
      Err(Raise(Backend, "nvms_gpu_binding_mismatch"))
    else if l.durationMs < 0 || l.durationMs > request.timeoutMillis || |l.stdout| > request.maxOutputBytes
      || |l.stderr| > request.maxOutputBytes then
      Err(Raise(Backend, "nvms_lifecycle_limits"))
    else
      var _ :- ValidateEvidenceHash(world.digest, l.stdout, l.stdoutSha256);
      var _ :- ValidateEvidenceHash(world.digest, l.stderr, l.stderrSha256);
      if reply.success
        && (!reply.released || l.exitCode != 0 || l.timedOut || l.truncated || reply.errorCode != ""
           || reply.errorMessage != "") then
        Err(Raise(Backend, "nvms_success_inconsistent"))
      else
        Ok(Unit)
  }

  /** What a reply has to meet, in this order. */
  ghost function ReplyChecks(world: Surroundings, request: Request, reply: Reply): seq<Check> {
    AttestationChecks(world, request, reply) + EvidenceChecks(world, request, reply)
  }

  function Demand(holds: bool, code: string): Check {
    Check(holds, Raise(Backend, code))
  }

  ghost function AttestationChecks(world: Surroundings, request: Request, reply: Reply): seq<Check> {
    var p := reply.provenance;
    [ Demand(reply.version == "nanovms.io/evaluation-action/v1", "nvms_version_mismatch"),
      Demand(UpToCase(p.manifestSha256, request.manifestSha256), "nvms_manifest_mismatch"),
      Demand(
        p.effectiveEngine == "podman" && p.resolvedProvider == "podman" && p.executionPlane == "nanovms",
        "nvms_route_mismatch"),
      Demand(p.podmanPipe == request.podmanPipe, "nvms_pipe_mismatch"),
      Demand(
        p.jobDirectory != "" ==> world.isChildOf(request.outputRoot, p.jobDirectory),
        "nvms_output_root_mismatch"),
      Demand(Attested(request.gpuBindings, p.gpuUuids), "nvms_gpu_binding_mismatch") ]
  }

  ghost function EvidenceChecks(world: Surroundings, request: Request, reply: Reply): seq<Check> {
    var l := reply.lifecycle;
    [ Demand(
        && 0 <= l.durationMs <= request.timeoutMillis
        && |l.stdout| <= request.maxOutputBytes && |l.stderr| <= request.maxOutputBytes,
        "nvms_lifecycle_limits"),
      Demand(IsSha256Hex(l.stdoutSha256), "nvms_evidence_hash_invalid"),
      Demand(UpToCase(world.digest(l.stdout), l.stdoutSha256), "nvms_evidence_hash_mismatch"),
      Demand(IsSha256Hex(l.stderrSha256), "nvms_evidence_hash_invalid"),
      Demand(UpToCase(world.digest(l.stderr), l.stderrSha256), "nvms_evidence_hash_mismatch"),
      Demand(
        reply.success ==> && reply.released && l.exitCode == 0 && !l.timedOut && !l.truncated
                          && reply.errorCode == "" && reply.errorMessage == "",
        "nvms_success_inconsistent") ]
  }

  lemma AttestationChecked(world: Surroundings, request: Request, reply: Reply)
    ensures var fault := FaultOf(ValidateReply(world, request, reply));
            AllHold(AttestationChecks(world, request, reply))
            || (fault.Some? && Decides(AttestationChecks(world, request, reply), fault))
  {
    var p, checks := reply.provenance, AttestationChecks(world, request, reply);
    LowerDecidesCase(p.manifestSha256, request.manifestSha256);
    if !AllHold(checks) {
      var i :=
        if reply.version != ACTION_VERSION then 0
        else if Lower(p.manifestSha256) != Lower(request.manifestSha256) then 1
        else if p.effectiveEngine != "podman" || p.resolvedProvider != "podman" || p.executionPlane != "nanovms" then 2
        else if p.podmanPipe != request.podmanPipe then 3
        else if p.jobDirectory != "" && !world.isChildOf(request.outputRoot, p.jobDirectory) then 4
        else 5;
      assert FailsAt(checks, i);
    }
  }

  lemma EvidenceChecked(world: Surroundings, request: Request, reply: Reply)
    requires AllHold(AttestationChecks(world, request, reply))
    ensures Decides(EvidenceChecks(world, request, reply), FaultOf(ValidateReply(world, request, reply)))
  {
    AttestationPasses(world, request, reply);
    var l, checks := reply.lifecycle, EvidenceChecks(world, request, reply);
    LowerDecidesCase(world.digest(l.stdout), l.stdoutSha256);
    LowerDecidesCase(world.digest(l.stderr), l.stderrSha256);
    if ValidateReply(world, request, reply).Err? {
      var i :=
        if !checks[0].holds then 0
        else if !checks[1].holds then 1
        else if !checks[2].holds then 2
        else if !checks[3].holds then 3
        else if !checks[4].holds then 4
        else 5;
      assert FailsAt(checks, i);
    }
  }

  lemma AttestationPasses(world: Surroundings, request: Request, reply: Reply)
    requires AllHold(AttestationChecks(world, request, reply))
    ensures var p := reply.provenance;
            && reply.version == ACTION_VERSION && Lower(p.manifestSha256) == Lower(request.manifestSha256)
            && p.effectiveEngine == p.resolvedProvider == "podman" && p.executionPlane == "nanovms"
            && p.podmanPipe == request.podmanPipe && Attested(request.gpuBindings, p.gpuUuids)
            && (p.jobDirectory != "" ==> world.isChildOf(request.outputRoot, p.jobDirectory))
  {
    var p, checks := reply.provenance, AttestationChecks(world, request, reply);
    assert checks[0].holds && checks[1].holds && checks[2].holds && checks[3].holds && checks[4].holds
      && checks[5].holds;
    LowerDecidesCase(p.manifestSha256, request.manifestSha256);
  }

  /** A reply is accepted exactly when all of this holds; otherwise the error is that
      of the first demand it does not meet. */
  lemma ReplyChecked(world: Surroundings, request: Request, reply: Reply)
    ensures Decides(ReplyChecks(world, request, reply), FaultOf(ValidateReply(world, request, reply)))
  {
    AttestationChecked(world, request, reply);
    var first, second := AttestationChecks(world, request, reply), EvidenceChecks(world, request, reply);
    if AllHold(first) {
      EvidenceChecked(world, request, reply);
    }
    DecidesBoth(first, second, FaultOf(ValidateReply(world, request, reply)));
  }

  // ----- The record -----

  /** A record without what its conclusion may fill in: the fields that tie it to
      its run and request. */
  function Identity(job: Job): Job {
    job.(
      outputRoot := "",
      outputRootCreated := false,
      outputRootAvailableBytes := None,
      toolkitVersion := None,
      toolkitRoot := None,
      toolkitExecutable := None,
      lifecycle := Lifecycle(0, 0, false, false, [], [], "", ""),
      success := false,
      errorCode := "",
      errorMessage := "")
  }

  predicate SameIdentity(job: Job, job': Job) {
    Identity(job) == Identity(job')
  }

  /** `persist_job_failure`, up to the saving. */
  function Failed(job: Job, error: CliError): Job {
    job.(
      success := false,
      errorCode := if job.errorCode == "" then error.code else job.errorCode,
      errorMessage := if job.errorMessage == "" then error.message else job.errorMessage)
  }

  /** What a client that answered put into the record before it was checked. */
  function Reported(world: Surroundings, request: Request, job: Job, reply: Reply): Job {
    job.(
      outputRootCreated := reply.provenance.outputRootCreated,
      outputRootAvailableBytes := reply.provenance.outputRootAvailableBytes,
      toolkitVersion := reply.provenance.toolkitVersion,
      toolkitRoot := reply.provenance.toolkitRoot,
      toolkitExecutable := reply.provenance.toolkitExecutable,
      lifecycle := Trustworthy(reply.lifecycle, request.maxOutputBytes, world.digest),
      errorCode := reply.errorCode,
      errorMessage := reply.errorMessage)
  }

  function ActionFailure(reply: Reply): CliError {
    CliError(
      Backend,
      if reply.errorCode == "" then "nvms_action_failed" else reply.errorCode,
      if reply.errorMessage == "" then "NanoVMS rejected the evaluation action" else reply.errorMessage)
  }

  type Client = Request -> Result<Reply, Failure>

  /** What a reply makes of the record, and the error to report with it. */
  function RecordAfter(world: Surroundings, request: Request, asked: Job, reply: Reply): (Job, Result<Unit, CliError>) {
    var told := Reported(world, request, asked, reply);
    match ValidateReply(world, request, reply)
    case Err(e) => (Failed(told, e), Err(e))
    case Ok(_) =>
      if reply.success then
        (told.(success := true), Ok(Unit))
      else
        (Failed(told, ActionFailure(reply)), Err(ActionFailure(reply)))
  }

  /** The record to store for a job, and the error to report with it. */
  function Concluded(world: Surroundings, client: Client, job: Job, built: Result<Request, CliError>)
    : (Job, Result<Unit, CliError>)
  {
    match built
    case Err(e) => (Failed(job, e), Err(e))
    case Ok(request) =>
      var asked := job.(outputRoot := request.outputRoot);
      match client(request)
      case Err(f) =>
        (Failed(asked.(lifecycle := Trustworthy(f.lifecycle, request.maxOutputBytes, world.digest)), f.error),
          Err(f.error))
      case Ok(reply) => RecordAfter(world, request, asked, reply)
  }

  // ----- What every record guarantees -----

  /** A record before anything was asked of a client. */
  ghost predicate Untouched(world: Surroundings, job: Job) {
    && job.errorCode == "" && job.errorMessage == "" && !job.success
    && job.lifecycle == Lifecycle(-1, 0, false, false, world.lossy([]), world.lossy([]), world.digest([]),
                          world.digest([]))
    && job.outputRoot == "" && !job.outputRootCreated && job.outputRootAvailableBytes.None?
    && job.toolkitVersion.None? && job.toolkitRoot.None? && job.toolkitExecutable.None?
  }

  ghost predicate FaithfulSurroundings(world: Surroundings) {
    PrintsHex(world.digest) && world.lossy([]) == []
  }

  lemma EmptyEvidenceIsTrustworthy(world: Surroundings, limit: nat)
    requires FaithfulSurroundings(world)
    ensures IsTrustworthy(LocalFailure(world.digest, world.lossy, [], []), limit, world.digest)
  {
    assert IsSha256Hex(world.digest([]));
  }

  /** The output a client reported, in success or failure. */
  function OutputOf(client: Client, request: Request): Lifecycle {
    match client(request)
    case Ok(reply) => reply.lifecycle
    case Err(f) => f.lifecycle
  }

  lemma StoredLifecycle(world: Surroundings, client: Client, job: Job, request: Request)
    ensures Concluded(world, client, job, Ok(request)).0.lifecycle
            == Trustworthy(OutputOf(client, request), request.maxOutputBytes, world.digest)
  {
  }

  lemma RequestKeepsLimit(world: Surroundings, m: Manifest, job: Job, service: Service)
    requires job.gpuBindings != []
    ensures BuildRequest(world, m, job, service).Ok? ==>
              BuildRequest(world, m, job, service).value.maxOutputBytes == job.maxOutputBytes
  {
  }

  lemma FailedKeepsIdentity(job: Job, error: CliError)
    ensures SameIdentity(job, Failed(job, error))
  {
  }

  lemma ReportedKeepsIdentity(world: Surroundings, request: Request, job: Job, reply: Reply)
    ensures SameIdentity(job, Reported(world, request, job, reply))
  {
  }

  lemma ConcludedKeepsIdentity(world: Surroundings, client: Client, job: Job, built: Result<Request, CliError>)
    ensures SameIdentity(job, Concluded(world, client, job, built).0)
  {
    match built {
      case Err(e) => FailedKeepsIdentity(job, e);
      case Ok(request) => AskedKeepsIdentity(world, client, job, request);
    }
  }

  lemma AskedKeepsIdentity(world: Surroundings, client: Client, job: Job, request: Request)
    ensures SameIdentity(job, Concluded(world, client, job, Ok(request)).0)
  {
    var asked := job.(outputRoot := request.outputRoot);
    assert SameIdentity(job, asked);
    match client(request) {
      case Err(f) =>
        var heard := asked.(lifecycle := Trustworthy(f.lifecycle, request.maxOutputBytes, world.digest));
        assert SameIdentity(job, heard);
        FailedKeepsIdentity(heard, f.error);
      case Ok(reply) =>
        var told := Reported(world, request, asked, reply);
        ReportedKeepsIdentity(world, request, asked, reply);
        match ValidateReply(world, request, reply) {
          case Err(e) => FailedKeepsIdentity(told, e);
          case Ok(_) =>
            assert SameIdentity(told, told.(success := true));
            FailedKeepsIdentity(told, ActionFailure(reply));
        }
    }
  }

  /** Every record that is stored carries trustworthy evidence and its own
      identity, for an arbitrary client. */
  lemma StoredEvidenceIsTrustworthy(world: Surroundings, client: Client, job: Job, m: Manifest, service: Service)
    requires FaithfulSurroundings(world) && Untouched(world, job) && job.gpuBindings != []
    ensures var stored := Concluded(world, client, job, BuildRequest(world, m, job, service)).0;
            IsTrustworthy(stored.lifecycle, job.maxOutputBytes, world.digest) && SameIdentity(job, stored)
  {
    var built := BuildRequest(world, m, job, service);
    ConcludedKeepsIdentity(world, client, job, built);
    if built.Ok? {
      var request := built.value;
      StoredLifecycle(world, client, job, request);
      LifecycleBecomesTrustworthy(OutputOf(client, request), request.maxOutputBytes, world.digest);
      RequestKeepsLimit(world, m, job, service);
    } else {
      EmptyEvidenceIsTrustworthy(world, job.maxOutputBytes);
    }
  }

  /** A client that failed without naming a code. */
  predicate AnonymousFailure(client: Client, built: Result<Request, CliError>) {
    match built
    case Ok(request) => client(request).Err? && client(request).error.error.code == ""
    case Err(e) => e.code == ""
  }

  /** The verdict a record carries: success or not, and the error code. */
  function VerdictOf(job: Job): (bool, string) {
    (job.success, job.errorCode)
  }

  lemma FailedVerdict(job: Job, error: CliError)
    ensures VerdictOf(Failed(job, error)) == (false, if job.errorCode == "" then error.code else job.errorCode)
  {
  }

  lemma RefusalNamesCode(world: Surroundings, request: Request, reply: Reply)
    ensures ValidateReply(world, request, reply).Err? ==> ValidateReply(world, request, reply).error.code != ""
    ensures ValidateReply(world, request, reply).Ok? && reply.success ==> reply.errorCode == ""
  {
    var checked := ValidateReply(world, request, reply);
    assert checked.Err? ==> checked.error.message == checked.error.code;
  }

  /** What a reply makes of the record and of the caller's answer. */
  lemma ReplyVerdict(world: Surroundings, client: Client, job: Job, request: Request)
    requires client(request).Ok?
    ensures var reply := client(request).value;
            var (stored, told) := Concluded(world, client, job, Ok(request));
            var accepted := ValidateReply(world, request, reply).Ok? && reply.success;
            && told.Ok? == accepted && stored.success == accepted && (stored.errorCode == "" <==> accepted)
  {
    var reply := client(request).value;
    var told := Reported(world, request, job.(outputRoot := request.outputRoot), reply);
    assert told.errorCode == reply.errorCode;
    RefusalNamesCode(world, request, reply);
    match ValidateReply(world, request, reply) {
      case Err(e) => FailedVerdict(told, e);
      case Ok(_) => FailedVerdict(told, ActionFailure(reply));
    }
  }

  /** A record says success exactly when it names no error, and the caller is told
      the same; the one exception is an error that came without a code. */
  lemma SuccessIffNoErrorCode(world: Surroundings, client: Client, job: Job, built: Result<Request, CliError>)
    requires job.errorCode == "" && !job.success
    ensures var (stored, told) := Concluded(world, client, job, built);
            && (stored.success <==> told.Ok?)
            && ((stored.success <==> stored.errorCode == "") <==> !AnonymousFailure(client, built))
  {
    match built {
      case Err(e) => FailedVerdict(job, e);
      case Ok(request) =>
        if client(request).Ok? {
          ReplyVerdict(world, client, job, request);
        } else {
          var f := client(request).error;
          var heard := Trustworthy(f.lifecycle, request.maxOutputBytes, world.digest);
          FailedVerdict(job.(outputRoot := request.outputRoot).(lifecycle := heard), f.error);
        }
    }
  }

  /** A stored success was attested in full: the requested digest, route, pipe and
      a permutation of the GPUs, a clean released exit, evidence stored unchanged. */
  lemma SuccessIsAttested(world: Surroundings, client: Client, job: Job, built: Result<Request, CliError>)
    requires !job.success && Concluded(world, client, job, built).0.success
    requires PrintsHex(world.digest)
    requires built.Ok? ==> StrictlySorted(Uuids(built.value.gpuBindings))
    ensures built.Ok? && client(built.value).Ok?
    ensures var request := built.value;
            var reply := client(request).value;
            var stored := Concluded(world, client, job, built).0;
            && reply.version == ACTION_VERSION && reply.success && reply.released
            && Lower(reply.provenance.manifestSha256) == Lower(request.manifestSha256)
            && reply.provenance.effectiveEngine == reply.provenance.resolvedProvider == "podman"
            && reply.provenance.executionPlane == "nanovms" && reply.provenance.podmanPipe == request.podmanPipe
            && (reply.provenance.jobDirectory == ""
               || world.isChildOf(request.outputRoot, reply.provenance.jobDirectory))
            && multiset(reply.provenance.gpuUuids) == multiset(Uuids(request.gpuBindings))
            && reply.lifecycle.exitCode == 0 && !reply.lifecycle.timedOut && !reply.lifecycle.truncated
            && 0 <= reply.lifecycle.durationMs <= request.timeoutMillis
            && stored.lifecycle == reply.lifecycle && stored.errorCode == "" && stored.errorMessage == ""
  {
    var request := built.value;
    var reply := client(request).value;
    AttestedIffPermutation(request.gpuBindings, reply.provenance.gpuUuids);
    LifecycleBecomesTrustworthy(reply.lifecycle, request.maxOutputBytes, world.digest);
  }

  /** What a record tells besides its identity. */
  datatype Story = Story(
    outputRoot: string,
    outputRootCreated: bool,
    outputRootAvailableBytes: Option<nat>,
    toolkitVersion: Option<string>,
    toolkitRoot: Option<string>,
    toolkitExecutable: Option<string>,
    success: bool,
    errorCode: string,
    errorMessage: string)

  function StoryOf(job: Job): Story {
    Story(job.outputRoot, job.outputRootCreated, job.outputRootAvailableBytes, job.toolkitVersion, job.toolkitRoot,
      job.toolkitExecutable, job.success, job.errorCode, job.errorMessage)
  }

  /** A client that failed: the record says so in the client's words. */
  ghost predicate TellsFailure(request: Request, f: Failure, record: Job, told: Result<Unit, CliError>) {
    && StoryOf(record) == Story(request.outputRoot, false, None, None, None, None, false, f.error.code, f.error.message)
    && KeepsReport(f.lifecycle, request.maxOutputBytes, record.lifecycle) && told == Err(f.error)
  }

  /** A client that answered: the record tells what it reported, and success if the
      reply meets every demand and claims it. A reply that does not, or that reports
      a failure, is recorded under its own code and message, or failing these under
      those of the first demand it does not meet, or under fixed ones. */
  ghost predicate TellsReply(world: Surroundings, request: Request, reply: Reply, record: Job,
    told: Result<Unit, CliError>)
  {
    var p, checks := reply.provenance, ReplyChecks(world, request, reply);
    && KeepsReport(reply.lifecycle, request.maxOutputBytes, record.lifecycle)
    && (told.Ok? <==> AllHold(checks) && reply.success)
    && (told.Err? ==> if AllHold(checks) then told.error == RejectionOf(reply) else FirstFailure(checks, told.error))
    && var code := if told.Ok? then "" else if reply.errorCode != "" then reply.errorCode else told.error.code;
       var message :=
         if told.Ok? then "" else if reply.errorMessage != "" then reply.errorMessage else told.error.message;
       StoryOf(record) == Story(request.outputRoot, p.outputRootCreated, p.outputRootAvailableBytes, p.toolkitVersion,
                            p.toolkitRoot, p.toolkitExecutable, told.Ok?, code, message)
  }

  ghost function RejectionOf(reply: Reply): CliError {
    CliError(Backend, if reply.errorCode != "" then reply.errorCode else "nvms_action_failed",
      if reply.errorMessage != "" then reply.errorMessage else "NanoVMS rejected the evaluation action")
  }

  /** The record of a job, whatever the client answers: a refused request leaves the
      draft with that error; a failure or a reply is told as it came. */
  ghost predicate TellsOutcome(world: Surroundings, client: Client, draft: Job, built: Result<Request, CliError>,
    record: Job, told: Result<Unit, CliError>)
  {
    match built
    case Err(e) =>
      record == draft.(errorCode := e.code, errorMessage := e.message) && told == Err(e)
    case Ok(request) =>
      match client(request)
      case Err(f) => TellsFailure(request, f, record, told)
      case Ok(reply) => TellsReply(world, request, reply, record, told)
  }

  lemma FailureTold(world: Surroundings, draft: Job, request: Request, f: Failure)
    requires Untouched(world, draft) && PrintsHex(world.digest)
    ensures var heard := draft.(outputRoot := request.outputRoot).(
                         lifecycle := Trustworthy(f.lifecycle, request.maxOutputBytes, world.digest));
            TellsFailure(request, f, Failed(heard, f.error), Err(f.error))
  {
    LifecycleBecomesTrustworthy(f.lifecycle, request.maxOutputBytes, world.digest);
  }

  lemma ReplyTold(world: Surroundings, draft: Job, request: Request, reply: Reply)
    requires Untouched(world, draft) && PrintsHex(world.digest)
    ensures var (record, told) := RecordAfter(world, request, draft.(outputRoot := request.outputRoot), reply);
            TellsReply(world, request, reply, record, told)
  {
    LifecycleBecomesTrustworthy(reply.lifecycle, request.maxOutputBytes, world.digest);
    ReplyChecked(world, request, reply);
    if ValidateReply(world, request, reply).Ok? && reply.success {
      AcceptedSuccessIsClean(world, request, reply);
    }
    if ValidateReply(world, request, reply).Err? {
      FailureIsExclusive(ReplyChecks(world, request, reply), ValidateReply(world, request, reply).error);
    }
  }

  lemma AcceptedSuccessIsClean(world: Surroundings, request: Request, reply: Reply)
    requires ValidateReply(world, request, reply).Ok? && reply.success
    ensures reply.errorCode == "" && reply.errorMessage == ""
  {
  }

  lemma OutcomeTold(world: Surroundings, client: Client, draft: Job, built: Result<Request, CliError>)
    requires Untouched(world, draft) && PrintsHex(world.digest)
    ensures var (record, told) := Concluded(world, client, draft, built);
            TellsOutcome(world, client, draft, built, record, told)
  {
    if built.Ok? {
      match client(built.value) {
        case Err(f) => FailureTold(world, draft, built.value, f);
        case Ok(reply) => ReplyTold(world, draft, built.value, reply);
      }
    }
  }

  /** `kept` is the longest prefix of whole characters within the limit. */
  ghost predicate LongestText(text: seq<Byte>, limit: nat, kept: seq<Byte>) {
    && kept <= text && |kept| <= limit && ValidUtf8(kept)
    && forall n :: |kept| < n <= limit && n <= |text| ==> !IsCharBoundary(text, n)
  }

  /** Text stays text: what is stored of a client's output is its longest prefix
      of whole characters within the limit, marked when cut and then at most three
      bytes short of the limit. */
  lemma StoredOutputIsText(world: Surroundings, client: Client, job: Job, request: Request)
    requires ValidUtf8(OutputOf(client, request).stdout) && ValidUtf8(OutputOf(client, request).stderr)
    ensures var output := OutputOf(client, request);
            var stored := Concluded(world, client, job, Ok(request)).0.lifecycle;
            var limit := request.maxOutputBytes;
            && LongestText(output.stdout, limit, stored.stdout) && LongestText(output.stderr, limit, stored.stderr)
            && (stored.stdout != output.stdout ==> stored.truncated && |stored.stdout| + 3 >= limit)
            && (stored.stderr != output.stderr ==> stored.truncated && |stored.stderr| + 3 >= limit)
  {
    StoredLifecycle(world, client, job, request);
    BoundedIsLongestText(OutputOf(client, request).stdout, request.maxOutputBytes);
    BoundedIsLongestText(OutputOf(client, request).stderr, request.maxOutputBytes);
  }
}
