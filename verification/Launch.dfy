/** The decisions of `apply`: what is refused before NanoVMS is asked to launch,
    and what its answer leads to. */
module Launch {
  import opened Prelude
  import opened Text
  import opened Checks
  import opened Model
  import opened Evidence
  import opened DependencyOrderTheory
  import opened LifecyclePlan

  const SERVICE_LIFECYCLE_CAPABILITY := "runtime.service_lifecycle"

  // ----- Run ids -----

  function SanitizeChar(c: char): char {
    if IsAlphanumeric(c) || c == '-' then LowerChar(c) else '-'
  }

  function SanitizeName(name: string): (r: string)
    ensures |r| == |name| && forall i :: 0 <= i < |r| ==> r[i] == SanitizeChar(name[i])
  {
    seq(|name|, i requires 0 <= i < |name| => SanitizeChar(name[i]))
  }

  function RunIdOf(m: Manifest, sha: string): string
    requires |sha| >= 12
  {
    SanitizeName(m.name) + "-" + sha[..12]
  }

  /** What a character of a name becomes in a run id: a letter its lower case, a
      digit or a hyphen itself, anything else a hyphen. */
  predicate Sanitized(c: char, d: char) {
    if 'a' <= c <= 'z' || 'A' <= c <= 'Z' || '0' <= c <= '9' || c == '-' then
      SameLetter(c, d) && !('A' <= d <= 'Z')
    else
      d == '-'
  }

  /** A run id is the sanitised name, a hyphen and the first twelve digits. */
  lemma RunIdSpells(m: Manifest, sha: string)
    requires |sha| >= 12
    ensures var id, n := RunIdOf(m, sha), |m.name|;
            && |id| == n + 13 && id[n] == '-' && id[n + 1..] == sha[..12]
            && forall i :: 0 <= i < n ==> Sanitized(m.name[i], id[i])
  {
    var id, n := RunIdOf(m, sha), |m.name|;
    forall i | 0 <= i < n
      ensures Sanitized(m.name[i], id[i])
    {
      assert id[i] == SanitizeChar(m.name[i]);
    }
  }

  /** Neither a letter nor a digit. */
  predicate Punctuation(c: char) {
    !('a' <= c <= 'z' || 'A' <= c <= 'Z' || '0' <= c <= '9')
  }

  /** Names that differ in case and punctuation only. */
  predicate SoundAlike(a: string, b: string) {
    |a| == |b| && forall i :: 0 <= i < |a| ==> SameLetter(a[i], b[i]) || (Punctuation(a[i]) && Punctuation(b[i]))
  }

  /** Two manifests compete for one run id exactly when their names differ in case
      and punctuation only and their digests begin alike. */
  lemma RunIdsCollideIff(m: Manifest, sha: string, m': Manifest, sha': string)
    requires |sha| >= 12 && |sha'| >= 12
    ensures RunIdOf(m, sha) == RunIdOf(m', sha') <==> SoundAlike(m.name, m'.name) && sha[..12] == sha'[..12]
  {
    RunIdSpells(m, sha);
    RunIdSpells(m', sha');
    var id, id', n := RunIdOf(m, sha), RunIdOf(m', sha'), |m.name|;
    if id == id' {
      assert forall i :: 0 <= i < n ==> Sanitized(m.name[i], id[i]) && Sanitized(m'.name[i], id[i]);
    }
    if SoundAlike(m.name, m'.name) && sha[..12] == sha'[..12] {
      assert forall i :: 0 <= i < n ==> id[i] == id'[i];
      assert id == id[..n] + [id[n]] + id[n + 1..] && id' == id'[..n] + [id'[n]] + id'[n + 1..];
    }
  }

  predicate SlugChar(c: char) {
    IsAlphanumeric(c) || c == '-' || c == '_'
  }

  /** `validate_slug` */
  predicate IsSlug(value: string) {
    value != "" && |value| <= 128 && IsAlphanumeric(value[0]) && forall c :: c in value ==> SlugChar(c)
  }

  /** A slug starts with a letter or digit, goes on with these, hyphens and
      underscores, and has at most 128 characters. */
  lemma SlugIff(value: string)
    ensures IsSlug(value)
            <==> && 1 <= |value| <= 128 && !Punctuation(value[0])
                 && forall c :: c in value ==> !Punctuation(c) || c == '-' || c == '_'
  {
  }

  /** `apply` does not check the run id it derives: a run can be loaded again, by
      `status`, `down`, `run_action` or `export`, exactly when the manifest name
      starts with an ASCII letter or digit and is at most 115 characters long. */
  lemma AppliedRunIsAddressableIff(m: Manifest, sha: string)
    requires IsSha256Hex(sha)
    ensures IsSlug(RunIdOf(m, sha)) <==> m.name != "" && IsAlphanumeric(m.name[0]) && |m.name| <= 115
  {
    var id := RunIdOf(m, sha);
    var clean := SanitizeName(m.name);
    assert |id| == |m.name| + 13;
    forall c | c in id
      ensures SlugChar(c)
    {
      var i :| 0 <= i < |id| && id[i] == c;
      if i < |clean| {
        assert c == SanitizeChar(m.name[i]);
      } else if i > |clean| {
        assert c == sha[i - |clean| - 1] && IsHexDigit(sha[i - |clean| - 1]);
      }
    }
    if m.name != "" {
      assert id[0] == SanitizeChar(m.name[0]);
    }
  }

  // ----- Capability checks -----

  /** `find` over the provider values in key order. */
  function FindLifecycleProvider(names: seq<string>, providers: map<string, ProviderDeclaration>)
    : Option<ProviderDeclaration>
    requires forall n :: n in names ==> n in providers
  {
    if names == [] then
      None
    else if providers[names[0]].capability == SERVICE_LIFECYCLE_CAPABILITY then
      Some(providers[names[0]])
    else
      FindLifecycleProvider(names[1..], providers)
  }

  /** Some provider of the lifecycle capability is available. */
  predicate OffersLifecycle(m: Manifest) {
    exists p :: p in m.providers.Values && p.capability == SERVICE_LIFECYCLE_CAPABILITY && p.status == Available
  }

  /** A provider may be unavailable only if it is one of lifecycles. */
  predicate SupportedProvider(p: ProviderDeclaration) {
    p.status == Available || p.capability == SERVICE_LIFECYCLE_CAPABILITY
  }

  predicate ProvidersSupported(m: Manifest) {
    forall p :: p in m.providers.Values ==> SupportedProvider(p)
  }

  predicate NoHealthChecks(m: Manifest) {
    forall n :: n in m.services ==> m.services[n].healthCheck.None?
  }

  predicate NvidiaOnly(m: Manifest) {
    forall n :: n in m.services && m.services[n].GpuOf().Some? ==> m.services[n].GpuOf().value.vendor == Nvidia
  }

  function LifecycleProvider(m: Manifest): Option<ProviderDeclaration> {
    SortedMembers(m.providers.Keys);
    FindLifecycleProvider(SortedKeys(m.providers.Keys), m.providers)
  }

  function LifecycleVerdict(found: Option<ProviderDeclaration>): Result<Unit, CliError> {
    match found
    case None => Err(Raise(ErrorKind.Unsupported, "service_lifecycle_undeclared"))
    case Some(declaration) =>
      match declaration.status
      case Available => Ok(Unit)
      case Placeholder => Err(Raise(ErrorKind.Unsupported, "service_lifecycle_placeholder"))
      case NotSupported => Err(Raise(ErrorKind.Unsupported, "service_lifecycle_unsupported"))
  }

  function EnsureServiceLifecycle(m: Manifest): Result<Unit, CliError> {
    LifecycleVerdict(LifecycleProvider(m))
  }

  function EnsureApplyCapabilities(m: Manifest): Result<Unit, CliError> {
    if m.runtime.provider == Nvms then
      Err(Raise(ErrorKind.Unsupported, "nvms_persistence_unsupported"))
    else if m.runtime.provider == Stub then
      Err(Raise(ErrorKind.Unsupported, "runtime_provider_placeholder"))
    else if !ProvidersSupported(m) then
      Err(Raise(ErrorKind.Unsupported, "provider_unavailable"))
    else if OffersLifecycle(m) && !NoHealthChecks(m) then
      Err(Raise(ErrorKind.Unsupported, "health_check_unsupported"))
    else if m.artifacts != [] then
      Err(Raise(ErrorKind.Unsupported, "artifact_publication_unsupported"))
    else if m.teardown.removeVolumes then
      Err(Raise(ErrorKind.Unsupported, "volume_teardown_unsupported"))
    else if !NvidiaOnly(m) then
      Err(Raise(ErrorKind.Unsupported, "gpu_vendor_unsupported"))
    else
      Ok(Unit)
  }

  /** The first declaration of the lifecycle capability, in key order. */
  predicate OffersFirst(providers: map<string, ProviderDeclaration>, key: string) {
    && key in providers && providers[key].capability == "runtime.service_lifecycle"
    && forall k :: k in providers && providers[k].capability == "runtime.service_lifecycle" ==> LexLessEq(key, k)
  }

  lemma {:induction false} FoundAt(names: seq<string>, providers: map<string, ProviderDeclaration>)
    requires forall n :: n in names ==> n in providers
    ensures match FindLifecycleProvider(names, providers)
            case None => forall n :: n in names ==> providers[n].capability != "runtime.service_lifecycle"
            case Some(p) => exists i :: FirstOffer(names, providers, i) && providers[names[i]] == p
  {
    if names != [] && providers[names[0]].capability == "runtime.service_lifecycle" {
      assert FirstOffer(names, providers, 0);
    } else if names != [] {
      var rest := names[1..];
      FoundAt(rest, providers);
      assert names == [names[0]] + rest;
      if FindLifecycleProvider(rest, providers).Some? {
        var i :| FirstOffer(rest, providers, i) && providers[rest[i]] == FindLifecycleProvider(rest, providers).value;
        assert FirstOffer(names, providers, i + 1);
      }
    }
  }

  predicate FirstOffer(names: seq<string>, providers: map<string, ProviderDeclaration>, i: int)
    requires forall n :: n in names ==> n in providers
  {
    && 0 <= i < |names| && providers[names[i]].capability == "runtime.service_lifecycle"
    && forall j :: 0 <= j < i ==> providers[names[j]].capability != "runtime.service_lifecycle"
  }

  /** The search takes the first provider of the capability, in key order. */
  lemma FoundProvider(m: Manifest)
    ensures match LifecycleProvider(m)
            case None => !LifecycleDeclared(m)
            case Some(p) => exists k :: OffersFirst(m.providers, k) && m.providers[k] == p
  {
    var names := SortedKeys(m.providers.Keys);
    SortedMembers(m.providers.Keys);
    FoundAt(names, m.providers);
    var found := LifecycleProvider(m);
    if found.Some? {
      var i :| FirstOffer(names, m.providers, i) && m.providers[names[i]] == found.value;
      forall k | k in m.providers && m.providers[k].capability == "runtime.service_lifecycle"
        ensures LexLessEq(names[i], k)
      {
        EarlierKeys(names, i, k);
        LexTotal(names[i], k);
      }
      assert OffersFirst(m.providers, names[i]);
    }
  }

  lemma OnlyOneOffersFirst(providers: map<string, ProviderDeclaration>, a: string, b: string)
    requires OffersFirst(providers, a) && OffersFirst(providers, b)
    ensures a == b
  {
    if a != b {
      LexAsymmetric(a, b);
    }
  }

  // ----- What can be launched -----

  function Refuse(holds: bool, code: string): Check {
    Check(holds, Raise(ErrorKind.Unsupported, code))
  }

  /** A lifecycle provider need not be available for the other checks to go on. */
  ghost predicate OthersAvailable(m: Manifest) {
    forall k :: k in m.providers ==>
      m.providers[k].status == Available || m.providers[k].capability == "runtime.service_lifecycle"
  }

  ghost predicate SomeLifecycle(m: Manifest) {
    exists k :: k in m.providers && m.providers[k].capability == "runtime.service_lifecycle"
                && m.providers[k].status == Available
  }

  ghost predicate LifecycleDeclared(m: Manifest) {
    exists k :: k in m.providers && m.providers[k].capability == "runtime.service_lifecycle"
  }

  ghost predicate FirstLifecycleIs(m: Manifest, status: ProviderStatus) {
    exists k :: OffersFirst(m.providers, k) && m.providers[k].status == status
  }

  ghost predicate OnlyNvidia(m: Manifest) {
    forall n :: n in m.services && m.services[n].resources.Some? ==>
      match m.services[n].resources.value.gpu case None => true case Some(gpu) => gpu.vendor == Nvidia
  }

  ghost function CapabilityChecks(m: Manifest): seq<Check> {
    [ Refuse(m.runtime.provider != Nvms, "nvms_persistence_unsupported"),
      Refuse(m.runtime.provider != Stub, "runtime_provider_placeholder"),
      Refuse(OthersAvailable(m), "provider_unavailable"),
      Refuse(SomeLifecycle(m) ==> NoHealthChecks(m), "health_check_unsupported"),
      Refuse(m.artifacts == [], "artifact_publication_unsupported"),
      Refuse(!m.teardown.removeVolumes, "volume_teardown_unsupported"),
      Refuse(OnlyNvidia(m), "gpu_vendor_unsupported") ]
  }

  ghost function LifecycleChecks(m: Manifest): seq<Check> {
    StatusChecks(
      LifecycleDeclared(m), FirstLifecycleIs(m, Placeholder), FirstLifecycleIs(m, ProviderStatus.NotSupported))
  }

  function StatusChecks(declared: bool, placeholder: bool, notSupported: bool): seq<Check> {
    [ Refuse(declared, "service_lifecycle_undeclared"),
      Refuse(!placeholder, "service_lifecycle_placeholder"),
      Refuse(!notSupported, "service_lifecycle_unsupported") ]
  }

  lemma PropertiesAgree(m: Manifest)
    ensures ProvidersSupported(m) <==> OthersAvailable(m)
    ensures OffersLifecycle(m) <==> SomeLifecycle(m)
    ensures NvidiaOnly(m) <==> OnlyNvidia(m)
  {
    forall k | k in m.providers
      ensures m.providers[k] in m.providers.Values
    {
    }
  }

  /** The checks on the manifest run in this order. */
  lemma CapabilitiesChecked(m: Manifest)
    ensures Decides(CapabilityChecks(m), FaultOf(EnsureApplyCapabilities(m)))
  {
    PropertiesAgree(m);
    var checks, r := CapabilityChecks(m), EnsureApplyCapabilities(m);
    if r.Err? {
      var i :=
        if m.runtime.provider == Nvms then 0
        else if m.runtime.provider == Stub then 1
        else if !ProvidersSupported(m) then 2
        else if OffersLifecycle(m) && !NoHealthChecks(m) then 3
        else if m.artifacts != [] then 4
        else if m.teardown.removeVolumes then 5
        else 6;
      assert FailsAt(checks, i);
    }
  }

  /** What the search finds is what the first declaration says. */
  lemma FoundStatus(m: Manifest)
    ensures LifecycleProvider(m).Some? <==> LifecycleDeclared(m)
    ensures forall status ::
              FirstLifecycleIs(m, status) <==> LifecycleProvider(m).Some? && LifecycleProvider(m).value.status == status
  {
    FoundProvider(m);
    var found := LifecycleProvider(m);
    if found.Some? {
      var first :| OffersFirst(m.providers, first) && m.providers[first] == found.value;
      forall k | OffersFirst(m.providers, k)
        ensures k == first
      {
        OnlyOneOffersFirst(m.providers, k, first);
      }
    }
  }

  lemma StatusChecked(found: Option<ProviderDeclaration>)
    ensures Decides(
              StatusChecks(found.Some?, found.Some? && found.value.status == Placeholder,
                found.Some? && found.value.status == ProviderStatus.NotSupported),
              FaultOf(LifecycleVerdict(found)))
  {
    var checks := StatusChecks(found.Some?, found.Some? && found.value.status == Placeholder,
      found.Some? && found.value.status == ProviderStatus.NotSupported);
    if found.None? {
      assert FailsAt(checks, 0);
    } else if found.value.status == Placeholder {
      assert FailsAt(checks, 1);
    } else if found.value.status == ProviderStatus.NotSupported {
      assert FailsAt(checks, 2);
    }
  }

  lemma LifecycleChecked(m: Manifest)
    ensures Decides(LifecycleChecks(m), FaultOf(EnsureServiceLifecycle(m)))
  {
    FoundStatus(m);
    StatusChecked(LifecycleProvider(m));
  }

  /** What NanoVMS is asked to launch: on Podman, with the first lifecycle provider
      and every other provider available, without health checks, artifacts or
      volume removal, and on NVIDIA GPUs only. */
  ghost predicate Supported(m: Manifest) {
    && m.runtime.provider == Podman && m.artifacts == [] && !m.teardown.removeVolumes
    && FirstLifecycleIs(m, Available) && OthersAvailable(m) && NoHealthChecks(m) && OnlyNvidia(m)
  }

  /** The two capability checks of `apply` pass exactly the supported manifests. */
  lemma CapabilitiesGuardLaunch(m: Manifest)
    ensures EnsureApplyCapabilities(m).Ok? && EnsureServiceLifecycle(m).Ok? <==> Supported(m)
  {
    CapableIff(m);
    LifecycleIsFirst(m);
  }

  predicate OnPodman(m: Manifest) {
    m.runtime.provider == Podman
  }

  lemma CapableIff(m: Manifest)
    ensures EnsureApplyCapabilities(m).Ok?
            <==> && OnPodman(m) && OthersAvailable(m) && (SomeLifecycle(m) ==> NoHealthChecks(m))
                 && m.artifacts == [] && !m.teardown.removeVolumes && OnlyNvidia(m)
  {
    PropertiesAgree(m);
    OneProvider(m.runtime.provider);
  }

  lemma OneProvider(p: RuntimeProvider)
    ensures p == Podman <==> p != Nvms && p != Stub
  {
  }

  lemma LifecycleIsFirst(m: Manifest)
    ensures EnsureServiceLifecycle(m).Ok? <==> FirstLifecycleIs(m, Available)
    ensures FirstLifecycleIs(m, Available) ==> SomeLifecycle(m)
  {
    FoundStatus(m);
  }

  /** An available lifecycle provider is not enough: the first one has to be. */
  lemma LaterProviderIsIgnored(m: Manifest, a: string, b: string)
    requires LexLess(a, b) && m.providers.Keys == {a, b}
    requires m.providers[a].capability == m.providers[b].capability == "runtime.service_lifecycle"
    requires m.providers[a].status == Placeholder && m.providers[b].status == Available
    ensures SomeLifecycle(m)
    ensures EnsureServiceLifecycle(m) == Err(Raise(ErrorKind.Unsupported, "service_lifecycle_placeholder"))
  {
    FoundStatus(m);
    assert OffersFirst(m.providers, a);
    assert FirstLifecycleIs(m, Placeholder);
  }

  // ----- The answer -----

  datatype LifecycleResult = LifecycleResult(
    version: string,
    success: bool,
    errorCode: string,
    errorMessage: string,
    containers: map<string, string>,
    effectiveEngine: string,
    resolvedProvider: string,
    podmanPipe: string)

  datatype LifecycleFailure = LifecycleFailure(error: CliError, result: LifecycleResult)

  type LaunchReply = Result<LifecycleResult, LifecycleFailure>

  function ValidateLifecycleResult(request: LifecycleRequest, result: LifecycleResult): Result<Unit, CliError> {
    if result.version != SERVICE_LIFECYCLE_VERSION then
      Err(Raise(Backend, "nvms_version_mismatch"))
    else if !result.success then
      var code := if result.errorCode == "" then "nvms_lifecycle_failed" else result.errorCode;
      Err(CliError(Backend, code, result.errorMessage))
    else if result.effectiveEngine != "podman" || result.resolvedProvider != "podman" then
      Err(Raise(Backend, "nvms_route_mismatch"))
    else if result.podmanPipe != request.podmanPipe then
      Err(Raise(Backend, "nvms_pipe_mismatch"))
    else if exists s :: s in request.order && s !in result.containers then
      Err(Raise(Backend, "nvms_container_missing"))
    else
      Ok(Unit)
  }

  ghost function ResultChecks(request: LifecycleRequest, result: LifecycleResult): seq<Check> {
    [ Check(result.version == "nanovms.io/service-lifecycle/v1", Raise(Backend, "nvms_version_mismatch")),
      Check(
        result.success,
        CliError(Backend, if result.errorCode != "" then result.errorCode else "nvms_lifecycle_failed",
          result.errorMessage)),
      Check(
        result.effectiveEngine == "podman" && result.resolvedProvider == "podman",
        Raise(Backend, "nvms_route_mismatch")),
      Check(result.podmanPipe == request.podmanPipe, Raise(Backend, "nvms_pipe_mismatch")),
      Check(forall s :: s in request.order ==> s in result.containers, Raise(Backend, "nvms_container_missing")) ]
  }

  /** A result is accepted exactly when all of these hold. */
  lemma ResultChecked(request: LifecycleRequest, result: LifecycleResult)
    ensures Decides(ResultChecks(request, result), FaultOf(ValidateLifecycleResult(request, result)))
  {
    var checks, r := ResultChecks(request, result), ValidateLifecycleResult(request, result);
    if r.Err? {
      var i :=
        if result.version != SERVICE_LIFECYCLE_VERSION then 0
        else if !result.success then 1
        else if result.effectiveEngine != "podman" || result.resolvedProvider != "podman" then 2
        else if result.podmanPipe != request.podmanPipe then 3
        else 4;
      assert FailsAt(checks, i);
    }
  }

  function ReportedContainers(reply: LaunchReply): map<string, string> {
    match reply
    case Ok(result) => result.containers
    case Err(failure) => failure.result.containers
  }

  /** A reply `apply` accepts covers every service it was asked to start. */
  lemma AcceptedReplyCoversServices(m: Manifest, plan: Plan, runId: string, sha: string, result: LifecycleResult)
    requires Topological(Dependencies(m), plan.order)
    requires ValidateLifecycleResult(BuildLifecycleRequest(m, plan, runId, sha), result).Ok?
    ensures forall s :: s in m.services ==> s in result.containers
    ensures result.success && result.effectiveEngine == "podman" && result.podmanPipe == DEFAULT_PODMAN_PIPE
  {
    forall s | s in m.services
      ensures s in plan.order
    {
      assert s in Elements(plan.order);
    }
  }
}
