/** Executing a lifecycle plan with a rollback contract. */
module Rollback {
  import opened Prelude
  import opened Text
  import opened Model
  import opened RuntimePort
  import opened DependencyOrder
  import opened DependencyOrderTheory
  import opened LifecyclePlan

  // ----- What an execution does -----

  /** The services a plan creates, in plan order. */
  function Creates(intents: seq<Intent>): seq<string> {
    if intents == [] then
      []
    else
      var front := Creates(intents[..|intents| - 1]);
      var last := intents[|intents| - 1];
      if last.phase == Create then front + [last.service] else front
  }

  /** The spawn of this creation succeeds. */
  predicate Spawns(creates: seq<string>, services: map<string, Service>, refuses: nat -> bool, asked: nat, i: nat)
    requires i < |creates| && creates[i] in services
  {
    services[creates[i]].image != "" && !refuses(asked + i)
  }

  /** The first `k` creations succeed, and no more. */
  ghost predicate FirstFails(creates: seq<string>, services: map<string, Service>, refuses: nat -> bool, asked: nat,
    k: nat)
  {
    && (forall n :: n in creates ==> n in services) && k <= |creates|
    && (forall i :: 0 <= i < k ==> Spawns(creates, services, refuses, asked, i))
    && (k < |creates| ==> !Spawns(creates, services, refuses, asked, k))
  }

  /** How many creations succeed: up to the first empty image or refused spawn. */
  function Spawnable(creates: seq<string>, services: map<string, Service>, refuses: nat -> bool, asked: nat): (k: nat)
    requires forall n :: n in creates ==> n in services
    ensures k <= |creates|
    ensures forall i :: 0 <= i < k ==> Spawns(creates, services, refuses, asked, i)
    ensures k < |creates| ==> !Spawns(creates, services, refuses, asked, k)
    decreases |creates|
  {
    if creates == [] || !Spawns(creates, services, refuses, asked, 0) then
      0
    else
      var k := Spawnable(creates[1..], services, refuses, asked + 1);
      assert forall i :: 0 < i < |creates| ==>
          (Spawns(creates, services, refuses, asked, i) <==> Spawns(creates[1..], services, refuses, asked + 1, i - 1));
      1 + k
  }

  /** The containers recorded when `creates` got the ids from `first` on. */
  function Recorded(creates: seq<string>, first: nat): (r: seq<(string, string)>)
    ensures |r| == |creates|
  {
    seq(|creates|, i requires 0 <= i < |creates| => (creates[i], NoopId(first + i)))
  }

  /** Collecting the same records in a map. */
  function AsMap(records: seq<(string, string)>): map<string, string> {
    if records == [] then
      map[]
    else
      AsMap(records[..|records| - 1])[records[|records| - 1].0 := records[|records| - 1].1]
  }

  function RecordedIds(records: seq<(string, string)>): (r: seq<string>)
    ensures |r| == |records| && forall i :: 0 <= i < |r| ==> r[i] == records[i].1
  {
    seq(|records|, i requires 0 <= i < |records| => records[i].1)
  }

  class RollbackContract {
    var created: seq<(string, string)>

    constructor ()
      ensures created == []
    {
      created := [];
    }

    method RecordCreate(service: string, id: string)
      modifies this
      ensures created == old(created) + [(service, id)]
    {
      created := created + [(service, id)];
    }

    /** Stops what was recorded, last first, ignoring errors. */
    method Undo(runtime: NoopRuntime)
      modifies runtime
      ensures runtime.nextId == old(runtime.nextId)
      ensures runtime.alive == StopAll(old(runtime.alive), Reversed(RecordedIds(created)))
    {
      ghost var ids := RecordedIds(created);
      var i := |created|;
      assert created[..i] == created;
      while i > 0
        invariant 0 <= i <= |created|
        invariant runtime.nextId == old(runtime.nextId)
        invariant StopAll(old(runtime.alive), Reversed(ids))
                  == StopAll(runtime.alive, Reversed(RecordedIds(created[..i])))
      {
        i := i - 1;
        UndoNext(created, i, runtime.alive);
        var _ := runtime.Stop(created[i].1);
      }
    }
  }

  lemma UndoNext(created: seq<(string, string)>, i: nat, alive: seq<string>)
    requires i < |created|
    ensures StopAll(alive, Reversed(RecordedIds(created[..i + 1])))
            == StopAll(Removed(alive, created[i].1), Reversed(RecordedIds(created[..i])))
  {
    var ids := RecordedIds(created[..i + 1]);
    assert ids[..i] == RecordedIds(created[..i]);
    assert Reversed(ids) == [created[i].1] + Reversed(ids[..i]);
    assert Reversed(ids)[1..] == Reversed(ids[..i]);
  }

  /** What an execution leaves when its first `k` creations succeeded. */
  ghost predicate LeavesBehind(
    creates: seq<string>, k: nat, first: nat, before: seq<string>,
    nextId: nat, alive: seq<string>, created: seq<(string, string)>)
  {
    && k <= |creates| && nextId == first + k
    && alive == before + Ids(first, k)
    && created == Recorded(creates[..k], first)
  }

  /** Each service is recorded with the container that was spawned for it. */
  lemma RecordedAreAlive(
    creates: seq<string>, k: nat, first: nat, before: seq<string>,
    nextId: nat, alive: seq<string>, created: seq<(string, string)>)
    requires LeavesBehind(creates, k, first, before, nextId, alive, created)
    ensures |created| == k && |alive| == |before| + k && alive[..|before|] == before
    ensures forall i :: 0 <= i < k ==> created[i] == (creates[i], alive[|before| + i])
  {
  }

  /** One Create intent: spawn, then record. */
  method CreateService(
    runtime: NoopRuntime, contract: RollbackContract, service: string, services: map<string, Service>,
    ghost start: RuntimeState, ghost done: seq<string>)
    returns (r: Result<string, CliError>)
    requires service in services
    requires UnderWay(done, services, runtime.refuses, start, Now(runtime), contract.created)
    modifies runtime, contract
    ensures runtime.images == old(runtime.images) + [services[service].image]
    ensures r.Ok? ==>
              && UnderWay(done + [service], services, runtime.refuses, start, Now(runtime), contract.created)
              && AsMap(contract.created) == AsMap(old(contract.created))[service := r.value]
    ensures r.Err? ==>
              && runtime.nextId == old(runtime.nextId) && runtime.alive == old(runtime.alive)
              && contract.created == old(contract.created) && r.error == SpawnError(services[service].image)
              && (services[service].image == "" || runtime.refuses(|start.images| + |done|))
  {
    ghost var before, created := Now(runtime), contract.created;
    UnderWayCounts(done, services, runtime.refuses, start, before, created);
    var spawned := runtime.Spawn(services[service].image);
    if spawned.Err? {
      return Err(MapRuntimeError(spawned.error));
    }
    contract.RecordCreate(service, spawned.value);
    OneMore(done, service, services, runtime.refuses, start, before, Now(runtime), created);
    return Ok(spawned.value);
  }

  method ExecuteLifecyclePlan(plan: Plan, services: map<string, Service>, runtime: NoopRuntime)
    returns (r: Result<map<string, string>, CliError>, contract: RollbackContract)
    requires forall n :: n in Creates(plan.intents) ==> n in services
    modifies runtime
    ensures fresh(contract)
    ensures Executed(Creates(plan.intents), services, runtime.refuses, old(Now(runtime)), Now(runtime),
                     contract.created, if r.Err? then Some(r.error) else None)
    ensures r.Ok? ==> r.value == AsMap(contract.created)
  {
    contract := new RollbackContract();
    var containers: map<string, string> := map[];
    ghost var start := Now(runtime);
    for i := 0 to |plan.intents|
      invariant fresh(contract) && containers == AsMap(contract.created)
      invariant UnderWay(Creates(plan.intents[..i]), services, runtime.refuses, start, Now(runtime), contract.created)
    {
      var next := ExecuteIntent(plan, i, services, runtime, contract, containers, start);
      if next.Err? {
        return Err(next.error), contract;
      }
      containers := next.value;
    }
    TakeAll(plan.intents);
    EndsDone(Creates(plan.intents), services, runtime.refuses, start, Now(runtime), contract.created);
    return Ok(containers), contract;
  }

  /** One turn of the loop over the intents. */
  method ExecuteIntent(
    plan: Plan, i: nat, services: map<string, Service>, runtime: NoopRuntime, contract: RollbackContract,
    containers: map<string, string>, ghost start: RuntimeState)
    returns (r: Result<map<string, string>, CliError>)
    requires i < |plan.intents| && forall n :: n in Creates(plan.intents) ==> n in services
    requires UnderWay(Creates(plan.intents[..i]), services, runtime.refuses, start, Now(runtime), contract.created)
    requires containers == AsMap(contract.created)
    modifies runtime, contract
    ensures r.Ok? ==>
              && UnderWay(Creates(plan.intents[..i + 1]), services, runtime.refuses, start, Now(runtime),
                   contract.created)
              && r.value == AsMap(contract.created)
    ensures r.Err? ==>
              Executed(Creates(plan.intents), services, runtime.refuses, start, Now(runtime), contract.created,
                Some(r.error))
  {
    var intent := plan.intents[i];
    ghost var done, before := Creates(plan.intents[..i]), Now(runtime);
    CreatesStep(plan.intents, i);
    if intent.phase != Create {
      AppendNothing(done);
      return Ok(containers);
    }
    CreatesPrefix(plan.intents, i);
    var spawned := CreateService(runtime, contract, intent.service, services, start, done);
    if spawned.Err? {
      RefusedAt(plan.intents, done, services, runtime.refuses, |start.images|, i);
      EndsAt(Creates(plan.intents), done, intent.service, services, runtime.refuses, start, before, Now(runtime),
        contract.created);
      return Err(spawned.error);
    }
    return Ok(containers[intent.service := spawned.value]);
  }

  /** The runtime's state, as far as an execution sees it. */
  datatype RuntimeState = RuntimeState(nextId: nat, alive: seq<string>, images: seq<string>)

  function Now(runtime: NoopRuntime): RuntimeState
    reads runtime
  {
    RuntimeState(runtime.nextId, runtime.alive, runtime.images)
  }

  /** An execution ends with the creations before the first spawn that fails. These
      are recorded and alive, spawns were asked for up to that one, and its failure
      is the error. */
  ghost predicate Executed(
    creates: seq<string>, services: map<string, Service>, refuses: nat -> bool, start: RuntimeState,
    now: RuntimeState, created: seq<(string, string)>, error: Option<CliError>)
  {
    exists k ::
      && FirstFails(creates, services, refuses, |start.images|, k)
      && EndedAfter(creates, services, k, start, now, created, error)
  }

  ghost predicate EndedAfter(
    creates: seq<string>, services: map<string, Service>, k: nat, start: RuntimeState, now: RuntimeState,
    created: seq<(string, string)>, error: Option<CliError>)
    requires (forall n :: n in creates ==> n in services) && k <= |creates|
  {
    && LeavesBehind(creates, k, start.nextId, start.alive, now.nextId, now.alive, created)
    && AskedFor(creates[..Attempts(creates, k)], services, start.images, now.images)
    && error == if k == |creates| then None else Some(SpawnError(services[creates[k]].image))
  }

  /** The state once the services in `done` have been created. */
  ghost predicate UnderWay(
    done: seq<string>, services: map<string, Service>, refuses: nat -> bool, start: RuntimeState, now: RuntimeState,
    created: seq<(string, string)>)
  {
    && AllSpawn(done, services, refuses, |start.images|)
    && AskedFor(done, services, start.images, now.images)
    && created == Recorded(done, start.nextId)
    && now.nextId == start.nextId + |done| && now.alive == start.alive + Ids(start.nextId, |done|)
  }

  lemma UnderWayCounts(
    done: seq<string>, services: map<string, Service>, refuses: nat -> bool, start: RuntimeState, now: RuntimeState,
    created: seq<(string, string)>)
    requires UnderWay(done, services, refuses, start, now, created)
    ensures |now.images| == |start.images| + |done| && now.nextId == start.nextId + |done|
  {
  }

  lemma OneMore(
    done: seq<string>, service: string, services: map<string, Service>, refuses: nat -> bool, start: RuntimeState,
    before: RuntimeState, now: RuntimeState, created: seq<(string, string)>)
    requires UnderWay(done, services, refuses, start, before, created) && service in services
    requires services[service].image != "" && !refuses(|before.images|)
    requires now.nextId == before.nextId + 1 && now.alive == before.alive + [NoopId(before.nextId)]
    requires now.images == before.images + [services[service].image]
    ensures UnderWay(done + [service], services, refuses, start, now, created + [(service, NoopId(before.nextId))])
    ensures AsMap(created + [(service, NoopId(before.nextId))]) == AsMap(created)[service := NoopId(before.nextId)]
  {
    AskedForNext(done, service, services, start.images, before.images);
    AllSpawnNext(done, service, services, refuses, |start.images|);
    RecordsGrow(done, service, start.nextId);
    var more := created + [(service, NoopId(before.nextId))];
    assert more[..|more| - 1] == created;
  }

  lemma EndsAt(
    creates: seq<string>, done: seq<string>, next: string, services: map<string, Service>, refuses: nat -> bool,
    start: RuntimeState, before: RuntimeState, now: RuntimeState, created: seq<(string, string)>)
    requires |done| < |creates| && done == creates[..|done|]
    requires FirstFails(creates, services, refuses, |start.images|, |done|)
    requires UnderWay(done, services, refuses, start, before, created)
    requires now.nextId == before.nextId && now.alive == before.alive
    requires next == creates[|done|] && now.images == before.images + [services[next].image]
    ensures Executed(creates, services, refuses, start, now, created, Some(SpawnError(services[next].image)))
  {
    TakeNext(creates, |done|);
    AskedForNext(done, next, services, start.images, before.images);
  }

  lemma EndsDone(
    done: seq<string>, services: map<string, Service>, refuses: nat -> bool, start: RuntimeState, now: RuntimeState,
    created: seq<(string, string)>)
    requires UnderWay(done, services, refuses, start, now, created)
    ensures Executed(done, services, refuses, start, now, created, None)
  {
    TakeAll(done);
    assert FirstFails(done, services, refuses, |start.images|, |done|);
  }

  /** The error of a spawn that fails: for want of an image, or in the backend. */
  function SpawnError(image: string): CliError {
    if image == "" then Raise(Validation, "runtime_validation") else Raise(Backend, "runtime_backend")
  }

  /** The images of some services, one by one. */
  function ImagesOf(names: seq<string>, services: map<string, Service>): (r: seq<string>)
    requires forall n :: n in names ==> n in services
    ensures |r| == |names| && forall i :: 0 <= i < |r| ==> r[i] == services[names[i]].image
  {
    seq(|names|, i requires 0 <= i < |names| => services[names[i]].image)
  }

  /** How many spawns were asked for when `k` succeeded. */
  function Attempts(creates: seq<string>, k: nat): (n: nat)
    requires k <= |creates|
    ensures n <= |creates|
  {
    if k < |creates| then k + 1 else k
  }

  /** The spawns asked for were those of these services, with their own images. */
  ghost predicate AskedFor(names: seq<string>, services: map<string, Service>, before: seq<string>,
    images: seq<string>)
  {
    (forall n :: n in names ==> n in services) && images == before + ImagesOf(names, services)
  }

  lemma AskedForNext(names: seq<string>, name: string, services: map<string, Service>, before: seq<string>,
    images: seq<string>)
    requires AskedFor(names, services, before, images) && name in services
    ensures AskedFor(names + [name], services, before, images + [services[name].image])
    ensures |images| == |before| + |names|
  {
    assert ImagesOf(names + [name], services) == ImagesOf(names, services) + [services[name].image];
  }

  /** Every creation in the list succeeds. */
  ghost predicate AllSpawn(creates: seq<string>, services: map<string, Service>, refuses: nat -> bool, asked: nat) {
    && (forall n :: n in creates ==> n in services)
    && forall i :: 0 <= i < |creates| ==> Spawns(creates, services, refuses, asked, i)
  }

  lemma AllSpawnNext(done: seq<string>, service: string, services: map<string, Service>, refuses: nat -> bool,
    asked: nat)
    requires AllSpawn(done, services, refuses, asked)
    requires service in services && services[service].image != "" && !refuses(asked + |done|)
    ensures AllSpawn(done + [service], services, refuses, asked)
  {
    forall i | 0 <= i < |done + [service]|
      ensures Spawns(done + [service], services, refuses, asked, i)
    {
      assert i < |done| ==> Spawns(done, services, refuses, asked, i);
    }
  }

  /** The map of a successful execution: each service with the last container that
      was recorded for it. */
  lemma {:induction false} AsMapHolds(records: seq<(string, string)>, i: nat)
    requires i < |records| && forall j :: i < j < |records| ==> records[j].0 != records[i].0
    ensures records[i].0 in AsMap(records) && AsMap(records)[records[i].0] == records[i].1
    decreases |records|
  {
    if i < |records| - 1 {
      AsMapHolds(records[..|records| - 1], i);
    }
  }

  lemma {:induction false} AsMapServices(records: seq<(string, string)>, name: string)
    ensures name in AsMap(records) <==> exists i :: 0 <= i < |records| && records[i].0 == name
    decreases |records|
  {
    if records != [] {
      AsMapServices(records[..|records| - 1], name);
    }
  }

  lemma CreatesStep(intents: seq<Intent>, i: nat)
    requires i < |intents|
    ensures Creates(intents[..i + 1])
            == Creates(intents[..i]) + if intents[i].phase == Create then [intents[i].service] else []
  {
    assert intents[..i + 1][..i] == intents[..i];
  }

  /** When the next spawn fails, exactly the creations so far succeeded. */
  lemma RefusedAt(
    intents: seq<Intent>, done: seq<string>, services: map<string, Service>, refuses: nat -> bool, asked: nat, i: nat)
    requires i < |intents| && intents[i].phase == Create && (forall n :: n in Creates(intents) ==> n in services)
    requires intents[i].service in services
    requires done == Creates(intents[..i]) && AllSpawn(done, services, refuses, asked)
    requires services[intents[i].service].image == "" || refuses(asked + |done|)
    ensures FirstFails(Creates(intents), services, refuses, asked, |done|) && |done| < |Creates(intents)|
    ensures Creates(intents)[..|done|] == done && Creates(intents)[|done|] == intents[i].service
  {
    CreatesPrefix(intents, i);
    forall j | 0 <= j < |done|
      ensures Spawns(Creates(intents), services, refuses, asked, j)
    {
      assert Creates(intents)[j] == done[j] && Spawns(done, services, refuses, asked, j);
    }
  }

  function MapRuntimeError(e: RuntimeError): CliError {
    match e
    case NotFoundError => Raise(ErrorKind.NotFound, "runtime_not_found")
    case ValidationError => Raise(Validation, "runtime_validation")
    case BackendError => Raise(Backend, "runtime_backend")
  }

  lemma {:induction false} CreatesPrefix(intents: seq<Intent>, i: nat)
    requires i <= |intents|
    ensures Creates(intents[..i]) <= Creates(intents)
    ensures i < |intents| && intents[i].phase == Create ==>
              var n := |Creates(intents[..i])|;
              n < |Creates(intents)| && Creates(intents)[n] == intents[i].service
    decreases |intents|
  {
    if i == |intents| {
      assert intents[..i] == intents;
    } else {
      var front := intents[..|intents| - 1];
      assert front[..i] == intents[..i];
      CreatesPrefix(front, i);
    }
  }

  lemma SpawnableIs(creates: seq<string>, services: map<string, Service>, refuses: nat -> bool, asked: nat, k: nat)
    requires FirstFails(creates, services, refuses, asked, k)
    ensures (forall n :: n in creates ==> n in services) && Spawnable(creates, services, refuses, asked) == k
  {
  }

  lemma RecordsGrow(done: seq<string>, service: string, first: nat)
    ensures Recorded(done + [service], first) == Recorded(done, first) + [(service, NoopId(first + |done|))]
    ensures Ids(first, |done| + 1) == Ids(first, |done|) + [NoopId(first + |done|)]
    ensures AsMap(Recorded(done + [service], first)) == AsMap(Recorded(done, first))[service := NoopId(first + |done|)]
  {
    var more := Recorded(done, first) + [(service, NoopId(first + |done|))];
    assert Recorded(done + [service], first) == more;
    assert more[..|more| - 1] == Recorded(done, first);
  }

  // ----- Undo restores the world -----

  lemma {:induction false} CreatesFollowOrder(order: seq<string>, services: map<string, Service>, k: nat)
    requires (forall n :: n in order ==> n in services) && k <= |order|
    ensures Creates(Intents(order, services)[..2 * k]) == order[..k]
  {
    if k > 0 {
      CreatesFollowOrder(order, services, k - 1);
      CreatesOneMore(order, services, k - 1);
    }
  }

  lemma CreatesOneMore(order: seq<string>, services: map<string, Service>, k: nat)
    requires (forall n :: n in order ==> n in services) && k < |order|
    requires Creates(Intents(order, services)[..2 * k]) == order[..k]
    ensures Creates(Intents(order, services)[..2 * (k + 1)]) == order[..k + 1]
  {
    PairAt(order, services, k);
    PairCreatesOne(Intents(order, services), 2 * k, order[k]);
    TakeNext(order, k);
  }

  lemma PairCreatesOne(intents: seq<Intent>, j: nat, name: string)
    requires j + 1 < |intents| && intents[j].phase == Create && intents[j].service == name
    requires intents[j + 1].phase == Start
    ensures Creates(intents[..j + 2]) == Creates(intents[..j]) + [name]
  {
    CreatesStep(intents, j);
    CreatesStep(intents, j + 1);
  }

  /** Executing any plan on a runtime, stopping at whichever spawn fails, and
      undoing it gives back the containers that were alive before; if the runtime
      only holds ids of its own, the very same list. */
  lemma UndoRestoresTheWorld(
    intents: seq<Intent>, services: map<string, Service>, refuses: nat -> bool, asked: nat,
    alive: seq<string>, nextId: nat)
    requires forall n :: n in Creates(intents) ==> n in services
    ensures var k := Spawnable(Creates(intents), services, refuses, asked);
            var after := alive + Ids(nextId, k);
            var stops := Reversed(RecordedIds(Recorded(Creates(intents)[..k], nextId)));
            && multiset(StopAll(after, stops)) == multiset(alive)
            && (forall j :: 0 <= j < |stops| ==> stops[j] in StopAll(after, stops[..j]))
            && (OwnIds(alive, nextId) ==> StopAll(after, stops) == alive)
  {
    var k := Spawnable(Creates(intents), services, refuses, asked);
    var ids := Ids(nextId, k);
    assert RecordedIds(Recorded(Creates(intents)[..k], nextId)) == ids;
    UndoMultiset(alive, alive + ids, ids);
    forall j | 0 <= j < |ids|
      ensures Reversed(ids)[j] in StopAll(alive + ids, Reversed(ids)[..j])
    {
      UndoFinds(alive, alive + ids, ids, j);
    }
    if OwnIds(alive, nextId) {
      OwnIdsAfter(alive, nextId, k);
      UndoExact(alive, ids);
    }
  }

  /** The contract of a topological plan holds the first services of the order,
      and undoing it step by step never leaves one without its dependencies. */
  lemma ContractIsDependencyClosed(
    g: Graph, order: seq<string>, services: map<string, Service>, refuses: nat -> bool, asked: nat, left: nat)
    requires Topological(g, order) && (forall n :: n in order ==> n in services)
    requires left <= Spawnable(order, services, refuses, asked)
    ensures Creates(Intents(order, services)) == order
    ensures DependencyFirst(g, order[..left])
    ensures forall s, d :: s in order[..left] && Edge(g, s, d) ==> d in order[..left]
  {
    CreatesAreOrder(order, services);
    TakeIsDependencyFirst(g, order, left);
  }

  lemma CreatesAreOrder(order: seq<string>, services: map<string, Service>)
    requires forall n :: n in order ==> n in services
    ensures Creates(Intents(order, services)) == order
  {
    CreatesFollowOrder(order, services, |order|);
    TakeAll(Intents(order, services));
    TakeAll(order);
  }

  lemma TakeIsDependencyFirst(g: Graph, order: seq<string>, left: nat)
    requires DependencyFirst(g, order) && left <= |order|
    ensures DependencyFirst(g, order[..left])
    ensures forall s, d :: s in order[..left] && Edge(g, s, d) ==> d in order[..left]
  {
    var kept := order[..left];
    forall i | 0 <= i < |kept|
      ensures kept[..i] == order[..i]
    {
    }
    forall s, d | s in kept && Edge(g, s, d)
      ensures d in kept
    {
      var i :| 0 <= i < |kept| && kept[i] == s;
      assert d in order[..i];
    }
  }

  /** The two steps together: a failed execution that is rolled back leaves the
      containers that were alive before, in their order on a runtime that holds
      only its own. */
  method ExecuteOrRollBack(plan: Plan, services: map<string, Service>, runtime: NoopRuntime)
    returns (r: Result<map<string, string>, CliError>)
    requires forall n :: n in Creates(plan.intents) ==> n in services
    modifies runtime
    ensures var k := Spawnable(Creates(plan.intents), services, runtime.refuses, |old(runtime.images)|);
            && (r.Ok? <==> k == |Creates(plan.intents)|)
            && (r.Ok? ==> r.value == AsMap(Recorded(Creates(plan.intents)[..k], old(runtime.nextId)))
                          && runtime.alive == old(runtime.alive) + Ids(old(runtime.nextId), k))
            && (r.Err? ==> multiset(runtime.alive) == multiset(old(runtime.alive)))
            && (r.Err? && old(runtime.Valid()) ==> runtime.alive == old(runtime.alive))
  {
    UndoRestoresTheWorld(plan.intents, services, runtime.refuses, |runtime.images|, runtime.alive, runtime.nextId);
    var contract;
    ghost var start := Now(runtime);
    r, contract := ExecuteLifecyclePlan(plan, services, runtime);
    ExecutedIs(Creates(plan.intents), services, runtime.refuses, start, Now(runtime), contract.created,
      if r.Err? then Some(r.error) else None);
    if r.Err? {
      contract.Undo(runtime);
    }
  }

  lemma ExecutedIs(
    creates: seq<string>, services: map<string, Service>, refuses: nat -> bool, start: RuntimeState,
    now: RuntimeState, created: seq<(string, string)>, error: Option<CliError>)
    requires Executed(creates, services, refuses, start, now, created, error)
    ensures forall n :: n in creates ==> n in services
    ensures EndedAfter(creates, services, Spawnable(creates, services, refuses, |start.images|), start, now, created,
              error)
  {
    var k: nat :| FirstFails(creates, services, refuses, |start.images|, k)
      && EndedAfter(creates, services, k, start, now, created, error);
    SpawnableIs(creates, services, refuses, |start.images|, k);
  }

  /** A validated plan has no empty image, but every point of it can be the one
      where a spawn is refused. */
  lemma EveryFailurePointOccurs(order: seq<string>, services: map<string, Service>, asked: nat, k: nat)
    requires (forall n :: n in order ==> n in services && services[n].image != "") && k <= |order|
    ensures Creates(Intents(order, services)) == order
    ensures Spawnable(order, services, n => n == asked + k, asked) == k
  {
    CreatesAreOrder(order, services);
    SpawnableIs(order, services, n => n == asked + k, asked, k);
  }
}
