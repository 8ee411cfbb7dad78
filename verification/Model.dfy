/** The composition manifest and the records derived from it. */
module Model {
  import opened Prelude
  import DependencyOrder

  const DEFAULT_PODMAN_PIPE := "npipe:////./pipe/podman-machine-default"
  const API_VERSION := "phenocompose.dev/v0"

  datatype Platform = Linux | WindowsWsl

  datatype Toolkit = Toolkit(name: string, version: string)

  datatype Environment = Environment(platform: Platform, toolkit: Toolkit, variables: map<string, string>)

  datatype RuntimeProvider = Podman | Nvms | Stub

  datatype ExternalEngineToken = DockerToken

  datatype EffectiveEngine = PodmanEngine

  datatype PortageCompatibility = PortageCompatibility(token: ExternalEngineToken, engine: EffectiveEngine)

  datatype RuntimeSpec = RuntimeSpec(
    provider: RuntimeProvider,
    capability: string,
    wslDistribution: Option<string>,
    portage: Option<PortageCompatibility>)

  datatype ProviderStatus = Available | Placeholder | NotSupported

  datatype ProviderDeclaration = ProviderDeclaration(
    capability: string,
    status: ProviderStatus,
    implementation: Option<string>)

  datatype GpuVendor = Nvidia | Amd

  datatype Gpu = Gpu(vendor: GpuVendor, uuids: seq<string>)

  datatype Resources = Resources(cpuMillis: Option<nat>, memoryBytes: Option<nat>, gpu: Option<Gpu>)

  datatype HealthCheck = HealthCheck(command: seq<string>, intervalSeconds: nat, timeoutSeconds: nat, retries: nat)

  datatype Service = Service(
    image: string,
    dependsOn: seq<string>,
    command: seq<string>,
    environment: map<string, string>,
    resources: Option<Resources>,
    healthCheck: Option<HealthCheck>)
  {
    function GpuOf(): (gpu: Option<Gpu>)
      ensures gpu.Some? <==> resources.Some? && resources.value.gpu.Some?
      ensures gpu.Some? ==> gpu == resources.value.gpu
    {
      if resources.Some? then resources.value.gpu else None
    }
  }

  datatype Action = Action(service: string, command: seq<string>, outputRoot: Option<string>)

  datatype ArtifactKind = OciImage | File | Directory

  datatype Artifact = Artifact(name: string, kind: ArtifactKind, source: string, publisher: string)

  datatype Teardown = Teardown(order: seq<string>, removeVolumes: bool)

  datatype ProvenanceRequirements = ProvenanceRequirements(required: bool, includes: set<string>)

  datatype Manifest = Manifest(
    apiVersion: string,
    name: string,
    labels: map<string, string>,
    environment: Environment,
    runtime: RuntimeSpec,
    providers: map<string, ProviderDeclaration>,
    services: map<string, Service>,
    actions: map<string, Action>,
    artifacts: seq<Artifact>,
    teardown: Teardown,
    provenance: ProvenanceRequirements)

  /** The dependency graph `service_order` walks. */
  function Dependencies(m: Manifest): DependencyOrder.Graph {
    map n | n in m.services :: m.services[n].dependsOn
  }
}
