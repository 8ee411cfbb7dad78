/** `down` and its retry, from the engine's point of view: what is left running. */
module DownSafety {
  import opened Prelude
  import opened Text
  import opened Model
  import opened ContainerEngine
  import opened DependencyOrder
  import opened DependencyOrderTheory
  import opened Teardown
  import opened Runs
  import opened Validation

  /** A failed teardown got through `k` containers, and asked for their stops and
      at most for the next one's. */
  ghost predicate CutShort(w: World, asked: seq<string>, ids: seq<string>, k: nat, w': World, stops: seq<string>) {
    && k <= |ids| && w' == SettleAll(w, ids[..k])
    && (stops == asked + Issued(w, ids[..k]) || (k < |ids| && stops == asked + Issued(w, ids[..k + 1])))
  }

  /** However far a teardown came, it left a state of its own list. */
  lemma TeardownStopsBetween(w: World, asked: seq<string>, ids: seq<string>, w': World, stops: seq<string>)
    returns (k: nat)
    requires Completed(w, asked, ids, w', stops) || Interrupted(w, asked, ids, w', stops)
    ensures CutShort(w, asked, ids, k, w', stops)
  {
    if Completed(w, asked, ids, w', stops) {
      k := |ids|;
      TakeAll(ids);
    } else {
      var j: nat :| FailedAt(w, asked, ids, j, w', stops);
      k := if w' == SettleAll(w, ids[..j]) then j else j + 1;
    }
  }

  /** The containers `down` would stop, in its order. */
  function TeardownList(runs: map<string, RunState>, runId: string): seq<string>
    requires runId in runs ==> Indexable(runs[runId].manifest)
    requires DownDecision(runs, runId).Ok?
  {
    RecordedContainers(DownDecision(runs, runId).value, runs[runId].containers)
  }

  ghost predicate SafeRun(state: RunState, w: World) {
    Safe(Dependencies(state.manifest), state.containers, w)
  }

  /** What decides whether a teardown is safe at every step: for an explicit order
      its list of containers, for the default one how services share containers. */
  ghost predicate SafeOrder(state: RunState, ids: seq<string>)
    requires Indexable(state.manifest)
  {
    var g := Dependencies(state.manifest);
    if state.manifest.teardown.order == [] then
      Order(g).Ok? && SharingRespectsEdges(g, Order(g).value, state.containers)
    else
      RespectsEdges(g, state.containers, ids)
  }

  lemma SafeOrderIsSafe(runs: map<string, RunState>, runId: string)
    requires runId in runs ==> Indexable(runs[runId].manifest)
    requires DownDecision(runs, runId).Ok?
    ensures var state, ids := runs[runId], TeardownList(runs, runId);
            SafeOrder(state, ids) <==> SafeThroughout(Dependencies(state.manifest), state.containers, ids)
  {
    DecidedOrder(runs, runId);
    SafeListIff(runs[runId], DownDecision(runs, runId).value);
  }

  lemma DecidedOrder(runs: map<string, RunState>, runId: string)
    requires runId in runs ==> Indexable(runs[runId].manifest)
    requires DownDecision(runs, runId).Ok?
    ensures runId in runs && TeardownOrder(runs[runId].manifest) == DownDecision(runs, runId)
  {
  }

  lemma SafeListIff(state: RunState, order: seq<string>)
    requires Indexable(state.manifest) && TeardownOrder(state.manifest) == Ok(order)
    ensures var ids := RecordedContainers(order, state.containers);
            SafeOrder(state, ids) <==> SafeThroughout(Dependencies(state.manifest), state.containers, ids)
  {
    var g := Dependencies(state.manifest);
    if state.manifest.teardown.order == [] {
      DefaultTeardownSafeIff(g, state.containers);
    } else {
      SafeTeardownIff(g, state.containers, RecordedContainers(order, state.containers));
    }
  }

  /** `down`, whatever fails on the way, keeps every active service on active
      dependencies if the order is safe; success leaves none of the listed
      containers active, and a failure leaves the stored run Running. */
  method TakeDownOnce(store: RunStore, engine: Engine, runId: string)
    returns (r: Result<StatusOutput, CliError>, ghost k: nat)
    requires WellKept(store.Now()) && DownDecision(store.runs, runId).Ok?
    modifies store, engine
    ensures var state, ids := old(store.runs)[runId], TeardownList(old(store.runs), runId);
            && k <= |ids| && engine.world == SettleAll(old(engine.world), ids[..k])
            && (r.Ok? ==> k == |ids| && store.runs == old(store.runs)[runId := state.(lifecycle := Down)])
            && (r.Err? ==> store.runs == old(store.runs))
            && (r.Err? ==> || Faulted(engine.statusFails, engine.stopFault, old(engine.calls), engine.calls)
                           || store.saveFault(old(store.attempts)).Some?)
            && (r.Ok? ==> engine.stops == old(engine.stops) + Issued(old(engine.world), ids))
            && (r.Ok? ==> TornDown(DownDecision(old(store.runs), runId).value, state.containers, old(engine.world),
                                   old(engine.stops), engine.world, engine.stops))
            && (r.Err? ==> CutShort(old(engine.world), old(engine.stops), ids, k, engine.world, engine.stops))
            && (SafeOrder(state, ids) && SafeRun(state, old(engine.world)) ==> SafeRun(state, engine.world))
    ensures store.jobs == old(store.jobs)
  {
    ghost var state, ids := store.runs[runId], TeardownList(store.runs, runId);
    ghost var w, asked := engine.world, engine.stops;
    SafeOrderIsSafe(store.runs, runId);
    r := TakeDown(store, engine, runId);
    if r.Ok? {
      k := |ids|;
      TakeAll(ids);
    } else {
      k := TeardownStopsBetween(w, asked, ids, engine.world, engine.stops);
    }
  }

  /** A failed `down` that is run again: if that succeeds, the containers are where
      one undisturbed run would have left them, and the run is stored as Down. The
      second run stops each container at most once, and only such as were active at
      the start and that the first one, which got through `k`, had not settled. */
  method TakeDownAgain(store: RunStore, engine: Engine, runId: string)
    returns (r: Result<StatusOutput, CliError>, ghost k: nat, ghost between: seq<string>)
    requires WellKept(store.Now()) && DownDecision(store.runs, runId).Ok?
    modifies store, engine
    ensures k <= |TeardownList(old(store.runs), runId)|
    ensures var state, ids := old(store.runs)[runId], TeardownList(old(store.runs), runId);
            var w, mid := old(engine.world), SettleAll(old(engine.world), ids[..k]);
            && CutShort(w, old(engine.stops), ids, k, mid, between)
            && (r.Ok? ==> && engine.world == SettleAll(w, ids)
                          && store.runs == old(store.runs)[runId := state.(lifecycle := Down)]
                          && Stopped(DownDecision(old(store.runs), runId).value, state.containers, w, engine.world)
                          && (forall id :: id in ids ==> !Active(engine.world, id))
                          && engine.stops == between + Issued(mid, ids)
                          && NoDuplicates(Issued(mid, ids))
                          && forall id :: id in Issued(mid, ids) ==> id in ids[k..] && id !in ids[..k] && Active(w, id))
            && (r.Err? ==> store.runs == old(store.runs))
            && (SafeOrder(state, ids) && SafeRun(state, w) ==> SafeRun(state, engine.world))
  {
    ghost var w, asked, ids := engine.world, engine.stops, TeardownList(store.runs, runId);
    k, between := 0, asked;
    NothingCut(w, asked, ids);
    ghost var reached;
    r, reached := TakeDownOnce(store, engine, runId);
    if r.Err? {
      k, between := reached, engine.stops;
      r, reached := TakeDownOnce(store, engine, runId);
    }
    RetryFinishesTheJob(w, ids, k);
    TakeAll(ids);
    AllSettled(w, ids);
    SettledIsStopped(DownDecision(old(store.runs), runId).value, old(store.runs)[runId].containers, w);
  }

  lemma NothingCut(w: World, asked: seq<string>, ids: seq<string>)
    ensures CutShort(w, asked, ids, 0, w, asked)
  {
    NothingSettled(w, asked, ids);
  }

  lemma AllSettled(w: World, ids: seq<string>)
    ensures forall id :: id in ids ==> !Active(SettleAll(w, ids), id)
  {
    forall id | id in ids
      ensures !Active(SettleAll(w, ids), id)
    {
      SettleAllActive(w, ids, id);
    }
  }

  // ----- An explicit order that breaks an edge -----

  /** `b` depends on `a`, and the manifest asks for `a` alone to be torn down. */
  ghost predicate TearsDownOnly(m: Manifest, a: string, b: string) {
    && m.apiVersion == API_VERSION && !Blank(m.name) && a != b && !Blank(a) && !Blank(b)
    && m.services.Keys == {a, b} && m.actions == map[] && m.teardown.order == [a]
    && m.services[a].dependsOn == [] && m.services[b].dependsOn == [a]
    && (forall n :: n in m.services ==> !Blank(m.services[n].image) && m.services[n].resources.None?)
  }

  lemma OnlyIsValid(m: Manifest, a: string, b: string)
    requires TearsDownOnly(m, a, b)
    ensures ValidManifest(m)
  {
    var g, order := Dependencies(m), [a, b];
    assert Elements(order) == {a, b} && order[..1] == [a];
    assert g[a] == [] && g[b] == [a];
    TopologicalIsAcyclic(g, order);
    forall n | n in m.services
      ensures ValidService(m, n)
    {
      assert n == a || n == b;
    }
  }

  /** Such a manifest is valid, but its teardown stops `a` under `b`, and completes
      with `b` still active. */
  lemma ValidTeardownCanBreak(m: Manifest, a: string, b: string, containers: map<string, string>)
    requires TearsDownOnly(m, a, b)
    requires a in containers && b in containers && containers[a] != containers[b]
    ensures ValidManifest(m)
    ensures !SafeThroughout(Dependencies(m), containers, RecordedContainers([a], containers))
    ensures exists w :: !AllDown(containers, SettleAll(w, RecordedContainers([a], containers)))
  {
    OnlyIsValid(m, a, b);
    var ids := [containers[a]];
    RecordedAlone(a, containers);
    assert Edge(Dependencies(m), b, a);
    RankOfOnly(containers[a], containers[b]);
    ViolationIsReachable(Dependencies(m), containers, ids, b, a);
    DownStopsEverythingIff(containers, ids);
  }

  lemma RecordedAlone(s: string, containers: map<string, string>)
    requires s in containers
    ensures RecordedContainers([s], containers) == [containers[s]]
  {
    assert [s][1..] == [];
    assert RecordedContainers([], containers) == [];
  }

  lemma RankOfOnly(id: string, other: string)
    requires id != other
    ensures Rank([id], id) == 0 && Rank([id], other) == 1
  {
    assert [id][1..] == [];
  }
}
