/** Lifecycle planning: the ordered Create and Start intents, and the NanoVMS
    request built from them. */
module LifecyclePlan {
  import opened Prelude
  import opened Text
  import opened Model
  import opened DependencyOrder
  import opened DependencyOrderTheory

  const LIFECYCLE_SCHEMA_VERSION := "phenocompose.lifecycle/v0"
  const SERVICE_LIFECYCLE_VERSION := "nanovms.io/service-lifecycle/v1"

  datatype Phase = Create | Start

  datatype Intent = Intent(
    phase: Phase,
    service: string,
    image: Option<string>,
    dependsOn: seq<string>,
    healthCheck: Option<HealthCheck>)

  datatype Plan = Plan(schemaVersion: string, manifestSha256: string, order: seq<string>, intents: seq<Intent>)

  function CreateIntent(name: string, service: Service): Intent {
    Intent(Create, name, Some(service.image), service.dependsOn, None)
  }

  function StartIntent(name: string, service: Service): Intent {
    Intent(Start, name, None, service.dependsOn, service.healthCheck)
  }

  /** Two intents per service, side by side. */
  function Intents(order: seq<string>, services: map<string, Service>): (r: seq<Intent>)
    requires forall n :: n in order ==> n in services
  {
    seq(2 * |order|, k requires 0 <= k < 2 * |order| =>
      var name := order[k / 2];
      if k % 2 == 0 then CreateIntent(name, services[name]) else StartIntent(name, services[name]))
  }

  lemma PairAt(order: seq<string>, services: map<string, Service>, k: nat)
    requires (forall n :: n in order ==> n in services) && k < |order|
    ensures var all := Intents(order, services);
            && 2 * k + 1 < |all|
            && all[2 * k] == CreateIntent(order[k], services[order[k]])
            && all[2 * k + 1] == StartIntent(order[k], services[order[k]])
  {
  }

  /** The steps of a plan, two by two: a service is created from its image, then
      started under its health check; both wait for what it depends on. */
  ghost predicate PlansSteps(order: seq<string>, services: map<string, Service>, intents: seq<Intent>) {
    && |intents| == 2 * |order|
    && forall i :: 0 <= i < |order| ==>
         && order[i] in services
         && var service := services[order[i]];
         && intents[2 * i] == Intent(Create, order[i], Some(service.image), service.dependsOn, None)
         && intents[2 * i + 1] == Intent(Start, order[i], None, service.dependsOn, service.healthCheck)
  }

  lemma IntentsPlanSteps(order: seq<string>, services: map<string, Service>)
    requires forall n :: n in order ==> n in services
    ensures PlansSteps(order, services, Intents(order, services))
  {
    var all := Intents(order, services);
    forall i | 0 <= i < |order|
      ensures var service := services[order[i]];
              && all[2 * i] == Intent(Create, order[i], Some(service.image), service.dependsOn, None)
              && all[2 * i + 1] == Intent(Start, order[i], None, service.dependsOn, service.healthCheck)
    {
      PairAt(order, services, i);
    }
  }

  lemma IntentsGrow(order: seq<string>, services: map<string, Service>, i: nat)
    requires (forall n :: n in order ==> n in services) && i < |order|
    ensures var all := Intents(order, services);
            all[..2 * (i + 1)]
              == all[..2 * i] + [CreateIntent(order[i], services[order[i]])]
                + [StartIntent(order[i], services[order[i]])]
  {
    var all := Intents(order, services);
    assert all[2 * i] == CreateIntent(order[i], services[order[i]]);
    assert all[2 * i + 1] == StartIntent(order[i], services[order[i]]);
    assert all[..2 * (i + 1)] == all[..2 * i] + [all[2 * i]] + [all[2 * i + 1]];
  }

  method PlanLifecycle(m: Manifest, manifestSha256: string) returns (r: Result<Plan, CliError>)
    requires Closed(Dependencies(m))
    ensures r.Err? <==> Cyclic(Dependencies(m))
    ensures r.Err? ==> Order(Dependencies(m)) == Err(r.error)
    ensures r.Ok? ==> Topological(Dependencies(m), r.value.order) && Order(Dependencies(m)) == Ok(r.value.order)
    ensures r.Ok? ==>
              r.value == Plan(LIFECYCLE_SCHEMA_VERSION, manifestSha256, r.value.order,
                Intents(r.value.order, m.services))
    ensures r.Ok? ==> PlansSteps(r.value.order, m.services, r.value.intents)
    ensures r.Err? ==> BlamesCycle(Dependencies(m), r.error)
  {
    OrderIsExact(Dependencies(m));
    var order :- ServiceOrder(Dependencies(m));
    assert forall n :: n in order ==> n in Elements(order);
    var intents := EmitIntents(order, m.services);
    IntentsPlanSteps(order, m.services);
    return Ok(Plan(LIFECYCLE_SCHEMA_VERSION, manifestSha256, order, intents));
  }

  method EmitIntents(order: seq<string>, services: map<string, Service>) returns (intents: seq<Intent>)
    requires forall n :: n in order ==> n in services
    ensures intents == Intents(order, services)
  {
    intents := [];
    for i := 0 to |order|
      invariant intents == Intents(order, services)[..2 * i]
    {
      var name := order[i];
      IntentsGrow(order, services, i);
      intents := intents + [CreateIntent(name, services[name])];
      intents := intents + [StartIntent(name, services[name])];
    }
    TakeAll(Intents(order, services));
  }

  // ----- Every prefix of a plan is executable -----

  /** What an intent does, whichever representation carries it. */
  datatype Mark = Mark(phase: Phase, service: string)

  function Marks(intents: seq<Intent>): (r: seq<Mark>)
    ensures |r| == |intents|
    ensures forall i :: 0 <= i < |r| ==> r[i] == Mark(intents[i].phase, intents[i].service)
  {
    seq(|intents|, i requires 0 <= i < |intents| => Mark(intents[i].phase, intents[i].service))
  }

  /** Stopping after any number of intents leaves a consistent world: a created
      service has all its dependencies started, a started one was created. */
  ghost predicate EveryPrefixExecutable(g: Graph, marks: seq<Mark>) {
    forall k :: 0 <= k <= |marks| ==> Consistent(g, marks[..k])
  }

  ghost predicate Consistent(g: Graph, done: seq<Mark>) {
    && (forall s, d :: Mark(Create, s) in done && Edge(g, s, d) ==> Mark(Start, d) in done)
    && (forall s :: Mark(Start, s) in done ==> Mark(Create, s) in done)
  }

  lemma IntentPositions(order: seq<string>, services: map<string, Service>, i: nat)
    requires (forall n :: n in order ==> n in services) && i < |order|
    ensures Marks(Intents(order, services))[2 * i] == Mark(Create, order[i])
    ensures Marks(Intents(order, services))[2 * i + 1] == Mark(Start, order[i])
  {
  }

  /** Along every edge s -> d the plan creates d, starts d, and only then
      creates s; each of the two steps of a service occurs once. */
  lemma PlanFollowsEdges(g: Graph, order: seq<string>, services: map<string, Service>)
    requires Topological(g, order) && (forall n :: n in order ==> n in services)
    ensures NoDuplicates(Marks(Intents(order, services)))
    ensures forall s, d :: Edge(g, s, d) ==>
              exists i, j :: 0 <= i < j < |order| && order[i] == d && order[j] == s
                             && var marks := Marks(Intents(order, services));
                             marks[2 * i] == Mark(Create, d) && marks[2 * i + 1] == Mark(Start, d)
                               && marks[2 * j] == Mark(Create, s)
  {
    var marks := Marks(Intents(order, services));
    forall k, l | 0 <= k < l < |marks|
      ensures marks[k] != marks[l]
    {
      assert marks[k].service == order[k / 2] && marks[l].service == order[l / 2];
      if k / 2 == l / 2 {
        assert k % 2 == 0 && l % 2 == 1;
      }
    }
    forall s, d | Edge(g, s, d)
      ensures exists i, j :: 0 <= i < j < |order| && order[i] == d && order[j] == s
                             && marks[2 * i] == Mark(Create, d) && marks[2 * i + 1] == Mark(Start, d)
                                && marks[2 * j] == Mark(Create, s)
    {
      assert s in Elements(order);
      var j :| 0 <= j < |order| && order[j] == s;
      assert d in order[..j];
      var i :| 0 <= i < j && order[i] == d;
      IntentPositions(order, services, i);
      IntentPositions(order, services, j);
    }
  }

  lemma CreatedHaveDependencies(g: Graph, order: seq<string>, services: map<string, Service>, k: nat, s: string,
    d: string)
    requires Topological(g, order) && (forall n :: n in order ==> n in services) && k <= 2 * |order|
    requires Mark(Create, s) in Marks(Intents(order, services))[..k] && Edge(g, s, d)
    ensures Mark(Start, d) in Marks(Intents(order, services))[..k]
  {
    var marks := Marks(Intents(order, services));
    var l :| 0 <= l < k && marks[..k][l] == Mark(Create, s);
    var j := l / 2;
    assert order[j] == s && d in order[..j];
    var i :| 0 <= i < j && order[i] == d;
    IntentPositions(order, services, i);
    assert marks[..k][2 * i + 1] == Mark(Start, d);
  }

  lemma StartedWereCreated(order: seq<string>, services: map<string, Service>, k: nat, s: string)
    requires (forall n :: n in order ==> n in services) && k <= 2 * |order|
    requires Mark(Start, s) in Marks(Intents(order, services))[..k]
    ensures Mark(Create, s) in Marks(Intents(order, services))[..k]
  {
    var marks := Marks(Intents(order, services));
    var l :| 0 <= l < k && marks[..k][l] == Mark(Start, s);
    var j := l / 2;
    IntentPositions(order, services, j);
    assert l == 2 * j + 1 && marks[..k][2 * j] == Mark(Create, s);
  }

  lemma PlanPrefixConsistent(g: Graph, order: seq<string>, services: map<string, Service>, k: nat)
    requires Topological(g, order) && (forall n :: n in order ==> n in services)
    requires k <= 2 * |order|
    ensures Consistent(g, Marks(Intents(order, services))[..k])
  {
    var done := Marks(Intents(order, services))[..k];
    forall s, d | Mark(Create, s) in done && Edge(g, s, d)
      ensures Mark(Start, d) in done
    {
      CreatedHaveDependencies(g, order, services, k, s, d);
    }
    forall s | Mark(Start, s) in done
      ensures Mark(Create, s) in done
    {
      StartedWereCreated(order, services, k, s);
    }
  }

  lemma PlanIsExecutable(g: Graph, order: seq<string>, services: map<string, Service>)
    requires Topological(g, order) && (forall n :: n in order ==> n in services)
    ensures EveryPrefixExecutable(g, Marks(Intents(order, services)))
  {
    forall k | 0 <= k <= |Marks(Intents(order, services))|
      ensures Consistent(g, Marks(Intents(order, services))[..k])
    {
      PlanPrefixConsistent(g, order, services, k);
    }
  }

  // ----- The request sent to NanoVMS -----

  datatype WireIntent = WireIntent(phase: string, service: string, image: Option<string>, dependsOn: seq<string>)

  datatype ServiceDefinition = ServiceDefinition(
    image: string,
    dependsOn: seq<string>,
    command: seq<string>,
    environment: map<string, string>,
    cpuMillis: Option<nat>,
    memoryBytes: Option<nat>,
    gpuUuids: seq<string>)

  datatype LifecycleRequest = LifecycleRequest(
    version: string,
    schemaVersion: string,
    manifestSha256: string,
    runId: string,
    wslDistribution: string,
    podmanPipe: string,
    order: seq<string>,
    intents: seq<WireIntent>,
    services: map<string, ServiceDefinition>)

  function PhaseName(phase: Phase): string {
    match phase
    case Create => "create"
    case Start => "start"
  }

  function Wire(intent: Intent): WireIntent {
    WireIntent(PhaseName(intent.phase), intent.service, intent.image, intent.dependsOn)
  }

  function Define(service: Service): ServiceDefinition {
    ServiceDefinition(
      service.image,
      service.dependsOn,
      service.command,
      service.environment,
      if service.resources.Some? then service.resources.value.cpuMillis else None,
      if service.resources.Some? then service.resources.value.memoryBytes else None,
      if service.GpuOf().Some? then service.GpuOf().value.uuids else [])
  }

  function BuildLifecycleRequest(m: Manifest, plan: Plan, runId: string, manifestSha256: string): LifecycleRequest {
    LifecycleRequest(
      SERVICE_LIFECYCLE_VERSION,
      LIFECYCLE_SCHEMA_VERSION,
      manifestSha256,
      runId,
      if m.runtime.wslDistribution.Some? then m.runtime.wslDistribution.value else "",
      DEFAULT_PODMAN_PIPE,
      plan.order,
      seq(|plan.intents|, i requires 0 <= i < |plan.intents| => Wire(plan.intents[i])),
      map n | n in m.services :: Define(m.services[n]))
  }

  /** What NanoVMS is told about one service. */
  ghost predicate Defines(service: Service, d: ServiceDefinition) {
    && d.image == service.image && d.dependsOn == service.dependsOn
    && d.command == service.command && d.environment == service.environment
    && match service.resources
       case None => d.cpuMillis.None? && d.memoryBytes.None? && d.gpuUuids == []
       case Some(r) =>
         && d.cpuMillis == r.cpuMillis && d.memoryBytes == r.memoryBytes
         && d.gpuUuids == match r.gpu case None => [] case Some(gpu) => gpu.uuids
  }

  /** Each service of the order is created from its image and then started. */
  ghost predicate WiresSteps(order: seq<string>, services: map<string, Service>, intents: seq<WireIntent>) {
    && |intents| == 2 * |order|
    && forall i :: 0 <= i < |order| ==>
         && order[i] in services
         && var service := services[order[i]];
         && intents[2 * i] == WireIntent("create", order[i], Some(service.image), service.dependsOn)
         && intents[2 * i + 1] == WireIntent("start", order[i], None, service.dependsOn)
  }

  /** The request to launch a manifest under a run id, along an order. */
  ghost predicate AsksToLaunch(m: Manifest, order: seq<string>, sha: string, runId: string, r: LifecycleRequest) {
    && r.version == "nanovms.io/service-lifecycle/v1" && r.schemaVersion == "phenocompose.lifecycle/v0"
    && r.manifestSha256 == sha && r.runId == runId && r.order == order
    && r.podmanPipe == "npipe:////./pipe/podman-machine-default"
    && (match m.runtime.wslDistribution
        case None => r.wslDistribution == ""
        case Some(distribution) => r.wslDistribution == distribution)
    && WiresSteps(order, m.services, r.intents)
    && r.services.Keys == m.services.Keys
    && forall n :: n in m.services ==> Defines(m.services[n], r.services[n])
  }

  lemma WiredSteps(m: Manifest, plan: Plan, runId: string, sha: string)
    requires PlansSteps(plan.order, m.services, plan.intents)
    ensures WiresSteps(plan.order, m.services, BuildLifecycleRequest(m, plan, runId, sha).intents)
  {
    var intents := BuildLifecycleRequest(m, plan, runId, sha).intents;
    forall i | 0 <= i < |plan.order|
      ensures plan.order[i] in m.services
      ensures var service := m.services[plan.order[i]];
              && intents[2 * i] == WireIntent("create", plan.order[i], Some(service.image), service.dependsOn)
              && intents[2 * i + 1] == WireIntent("start", plan.order[i], None, service.dependsOn)
    {
      assert intents[2 * i] == Wire(plan.intents[2 * i]);
      assert intents[2 * i + 1] == Wire(plan.intents[2 * i + 1]);
    }
  }

  /** What is sent to NanoVMS, field by field. */
  lemma RequestAsksToLaunch(m: Manifest, plan: Plan, runId: string, sha: string)
    requires PlansSteps(plan.order, m.services, plan.intents)
    ensures AsksToLaunch(m, plan.order, sha, runId, BuildLifecycleRequest(m, plan, runId, sha))
  {
    WiredSteps(m, plan, runId, sha);
    var request := BuildLifecycleRequest(m, plan, runId, sha);
    forall n | n in m.services
      ensures Defines(m.services[n], request.services[n])
    {
      assert request.services[n] == Define(m.services[n]);
    }
  }

  /** How NanoVMS reads the phases back. */
  function WireMarks(intents: seq<WireIntent>): (r: seq<Mark>)
    ensures |r| == |intents|
  {
    seq(|intents|, i requires 0 <= i < |intents| =>
      Mark(if intents[i].phase == "create" then Create else Start, intents[i].service))
  }

  /** The request carries the plan over the wire intact: reading its phases back
      gives the plan's steps, so every prefix of the request is executable too,
      and it defines exactly the services it orders. */
  lemma RequestPreservesPlan(m: Manifest, plan: Plan, runId: string, sha: string)
    requires Closed(Dependencies(m)) && Topological(Dependencies(m), plan.order)
    requires plan.intents == Intents(plan.order, m.services)
    ensures var request := BuildLifecycleRequest(m, plan, runId, sha);
            && request.order == plan.order
            && WireMarks(request.intents) == Marks(plan.intents)
            && EveryPrefixExecutable(Dependencies(m), WireMarks(request.intents))
            && AsksToLaunch(m, plan.order, sha, runId, request)
            && request.services.Keys == Elements(request.order)
            && forall n :: n in request.services ==> request.services[n].dependsOn == Dependencies(m)[n]
  {
    assert forall n :: n in plan.order ==> n in Elements(plan.order);
    PlanIsExecutable(Dependencies(m), plan.order, m.services);
    IntentsPlanSteps(plan.order, m.services);
    RequestAsksToLaunch(m, plan, runId, sha);
    MarksAreWired(m, plan, runId, sha);
  }

  lemma MarksAreWired(m: Manifest, plan: Plan, runId: string, sha: string)
    ensures WireMarks(BuildLifecycleRequest(m, plan, runId, sha).intents) == Marks(plan.intents)
  {
    var request := BuildLifecycleRequest(m, plan, runId, sha);
    forall i | 0 <= i < |request.intents|
      ensures WireMarks(request.intents)[i] == Marks(plan.intents)[i]
    {
      assert request.intents[i] == Wire(plan.intents[i]);
    }
  }
}
