/** The stopping loop of `down`, and when it respects service dependencies. */
module Teardown {
  import opened Prelude
  import opened Text
  import opened RuntimePort
  import opened ContainerEngine
  import opened DependencyOrder
  import opened DependencyOrderTheory

  /** The recorded containers of the services in `order`. */
  function RecordedContainers(order: seq<string>, containers: map<string, string>): seq<string> {
    if order == [] then
      []
    else
      (if order[0] in containers then [containers[order[0]]] else []) + RecordedContainers(order[1..], containers)
  }

  /** One turn of the loop: an active container is stopped, any other skipped. */
  function Settle(w: World, id: string): World {
    if Active(w, id) then w[id := Exited] else w
  }

  function SettleAll(w: World, ids: seq<string>): World {
    if ids == [] then w else SettleAll(Settle(w, ids[0]), ids[1..])
  }

  function IssuedFor(w: World, id: string): seq<string> {
    if Active(w, id) then [id] else []
  }

  /** The stop requests an undisturbed loop issues. */
  function Issued(w: World, ids: seq<string>): seq<string> {
    if ids == [] then [] else IssuedFor(w, ids[0]) + Issued(Settle(w, ids[0]), ids[1..])
  }

  /** The loop has settled the first `k` containers. */
  ghost predicate Settled(w: World, asked: seq<string>, ids: seq<string>, k: nat, w': World, stops: seq<string>) {
    k <= |ids| && w' == SettleAll(w, ids[..k]) && stops == asked + Issued(w, ids[..k])
  }

  /** The loop got through `k` containers and then failed on the next one, whose
      stop may have been asked for and, if it was, may have taken effect. */
  ghost predicate FailedAt(w: World, asked: seq<string>, ids: seq<string>, k: nat, w': World, stops: seq<string>) {
    && k < |ids|
    && (Settled(w, asked, ids, k, w', stops)
        || Settled(w, asked, ids, k + 1, w', stops)
        || (w' == SettleAll(w, ids[..k]) && stops == asked + Issued(w, ids[..k + 1])))
  }

  /** The loop settled every container. */
  ghost predicate Completed(w: World, asked: seq<string>, ids: seq<string>, w': World, stops: seq<string>) {
    w' == SettleAll(w, ids) && stops == asked + Issued(w, ids)
  }

  ghost predicate Interrupted(w: World, asked: seq<string>, ids: seq<string>, w': World, stops: seq<string>) {
    exists k :: FailedAt(w, asked, ids, k, w', stops)
  }

  /** The container is recorded for one of the services in `names`. */
  ghost predicate RecordedAmong(names: seq<string>, containers: map<string, string>, id: string) {
    exists s :: s in names && s in containers && containers[s] == id
  }

  lemma {:induction false} RecordedMembers(order: seq<string>, containers: map<string, string>)
    ensures forall id :: id in RecordedContainers(order, containers) <==> RecordedAmong(order, containers, id)
    decreases |order|
  {
    if order != [] {
      RecordedMembers(order[1..], containers);
      assert order == [order[0]] + order[1..];
    }
  }

  // ----- What a teardown does, container by container -----

  /** The containers a teardown of `order` stops: those recorded for its services
      that are running or paused. Exited and missing ones are left alone. */
  ghost predicate ToStop(order: seq<string>, containers: map<string, string>, w: World, id: string) {
    RecordedAmong(order, containers, id) && id in w && (w[id] == Running || w[id] == Paused)
  }

  /** Those containers exited and no other changed. */
  ghost predicate Stopped(order: seq<string>, containers: map<string, string>, w: World, w': World) {
    && w'.Keys == w.Keys
    && forall id :: id in w ==> w'[id] == if ToStop(order, containers, w, id) then Exited else w[id]
  }

  /** `id` is recorded for a service that comes before any service with `other`. */
  ghost predicate NamedBefore(order: seq<string>, containers: map<string, string>, id: string, other: string) {
    exists n :: 0 <= n <= |order| && RecordedAmong(order[..n], containers, id)
                && !RecordedAmong(order[..n], containers, other)
  }

  /** Their stops were asked for, once each, as the services come. */
  ghost predicate AskedToStop(order: seq<string>, containers: map<string, string>, w: World, issued: seq<string>) {
    && (forall id :: id in issued <==> ToStop(order, containers, w, id))
    && (forall i, j :: 0 <= i < j < |issued| ==> NamedBefore(order, containers, issued[i], issued[j]))
  }

  /** A teardown of `order` that was carried out in full: none of its containers is
      left but as exited or missing. */
  ghost predicate TornDown(order: seq<string>, containers: map<string, string>, w: World, asked: seq<string>,
    w': World, stops: seq<string>)
  {
    && Stopped(order, containers, w, w')
    && (forall id :: RecordedAmong(order, containers, id) && id in w' ==>
          w'[id] == Exited || w'[id] == ContainerStatus.NotFound)
    && asked <= stops && AskedToStop(order, containers, w, stops[|asked|..])
  }

  /** A teardown that failed at one of the services: everything before that one was
      torn down, and its container may have been asked to stop and have exited. */
  ghost predicate FailedDuring(order: seq<string>, containers: map<string, string>, w: World, asked: seq<string>,
    w': World, stops: seq<string>)
  {
    exists n :: 0 <= n < |order| && order[n] in containers
      && (Stopped(order[..n], containers, w, w') || Stopped(order[..n + 1], containers, w, w'))
      && asked <= stops
      && (AskedToStop(order[..n], containers, w, stops[|asked|..])
          || AskedToStop(order[..n + 1], containers, w, stops[|asked|..]))
  }

  lemma SettleStops(order: seq<string>, containers: map<string, string>, w: World, id: string)
    ensures var ids := RecordedContainers(order, containers);
            && SettleAll(w, ids).Keys == w.Keys
            && (id in w ==> SettleAll(w, ids)[id] == if ToStop(order, containers, w, id) then Exited else w[id])
  {
    var ids := RecordedContainers(order, containers);
    SettledStatus(w, ids, id);
    RecordedMembers(order, containers);
  }

  lemma {:induction false} SettledStatus(w: World, ids: seq<string>, id: string)
    ensures SettleAll(w, ids).Keys == w.Keys
    ensures id in w ==>
              SettleAll(w, ids)[id] == if id in ids && (w[id] == Running || w[id] == Paused) then Exited else w[id]
    decreases |ids|
  {
    if ids != [] {
      SettledStatus(Settle(w, ids[0]), ids[1..], id);
    }
  }

  lemma {:induction false} IssuedIs(w: World, ids: seq<string>, id: string)
    ensures id in Issued(w, ids) <==> id in ids && id in w && (w[id] == Running || w[id] == Paused)
    decreases |ids|
  {
    if ids != [] {
      IssuedIs(Settle(w, ids[0]), ids[1..], id);
    }
  }

  /** The stops follow the list: a container is named before those stopped later. */
  lemma {:induction false} IssuedInOrder(w: World, ids: seq<string>, i: nat, j: nat) returns (k: nat)
    requires i < j < |Issued(w, ids)|
    ensures k <= |ids| && Issued(w, ids)[i] in ids[..k] && Issued(w, ids)[j] !in ids[..k]
    decreases |ids|
  {
    var front, last := ids[..|ids| - 1], ids[|ids| - 1];
    assert ids == front + [last];
    SettleAppend(w, front, last);
    if j < |Issued(w, front)| {
      k := IssuedInOrder(w, front, i, j);
      assert ids[..k] == front[..k];
    } else {
      k := |front|;
      IssuedAreActive(w, front);
      SettleAllActive(w, front, last);
    }
  }

  lemma RecordedSnoc(order: seq<string>, containers: map<string, string>)
    requires order != []
    ensures var last := order[|order| - 1];
            RecordedContainers(order, containers)
            == RecordedContainers(order[..|order| - 1], containers)
               + if last in containers then [containers[last]] else []
  {
    var front, last := order[..|order| - 1], order[|order| - 1];
    assert order == front + [last];
    RecordedConcat(front, [last], containers);
    assert [last][1..] == [] && RecordedContainers([], containers) == [];
  }

  /** The list of recorded containers, cut anywhere, is that of some services. */
  lemma {:induction false} CutOfRecorded(order: seq<string>, containers: map<string, string>, k: nat) returns (n: nat)
    requires k <= |RecordedContainers(order, containers)|
    ensures n <= |order| && RecordedContainers(order[..n], containers) == RecordedContainers(order, containers)[..k]
    ensures k < |RecordedContainers(order, containers)| ==>
              n < |order| && order[n] in containers
              && RecordedContainers(order[..n + 1], containers) == RecordedContainers(order, containers)[..k + 1]
    decreases |order|
  {
    var ids := RecordedContainers(order, containers);
    TakeAll(order);
    if k == |ids| {
      n := |order|;
    } else {
      var front := order[..|order| - 1];
      RecordedSnoc(order, containers);
      if k < |RecordedContainers(front, containers)| {
        n := CutOfRecorded(front, containers, k);
        assert order[..n] == front[..n] && order[..n + 1] == front[..n + 1];
      } else {
        n := |front|;
        assert ids[..k + 1] == ids;
      }
    }
  }

  lemma SettledIsStopped(order: seq<string>, containers: map<string, string>, w: World)
    ensures Stopped(order, containers, w, SettleAll(w, RecordedContainers(order, containers)))
  {
    SettleStops(order, containers, w, "");
    forall id | id in w
      ensures SettleAll(w, RecordedContainers(order, containers))[id]
              == if ToStop(order, containers, w, id) then Exited else w[id]
    {
      SettleStops(order, containers, w, id);
    }
  }

  lemma IssuedIsAsked(order: seq<string>, containers: map<string, string>, w: World)
    ensures AskedToStop(order, containers, w, Issued(w, RecordedContainers(order, containers)))
  {
    var ids := RecordedContainers(order, containers);
    var issued := Issued(w, ids);
    RecordedMembers(order, containers);
    forall id
      ensures id in issued <==> ToStop(order, containers, w, id)
    {
      IssuedIs(w, ids, id);
    }
    forall i, j | 0 <= i < j < |issued|
      ensures NamedBefore(order, containers, issued[i], issued[j])
    {
      var k := IssuedInOrder(w, ids, i, j);
      var n := CutOfRecorded(order, containers, k);
      RecordedMembers(order[..n], containers);
    }
  }

  lemma AskedAfter(asked: seq<string>, issued: seq<string>)
    ensures asked <= asked + issued && (asked + issued)[|asked|..] == issued
  {
  }

  lemma CompletedIsTornDown(order: seq<string>, containers: map<string, string>, w: World, asked: seq<string>,
    w': World, stops: seq<string>)
    requires Completed(w, asked, RecordedContainers(order, containers), w', stops)
    ensures TornDown(order, containers, w, asked, w', stops)
  {
    SettledIsStopped(order, containers, w);
    IssuedIsAsked(order, containers, w);
    AskedAfter(asked, Issued(w, RecordedContainers(order, containers)));
  }

  lemma InterruptedFailsDuring(order: seq<string>, containers: map<string, string>, w: World, asked: seq<string>,
    w': World, stops: seq<string>)
    requires Interrupted(w, asked, RecordedContainers(order, containers), w', stops)
    ensures FailedDuring(order, containers, w, asked, w', stops)
  {
    var ids := RecordedContainers(order, containers);
    var k: nat :| FailedAt(w, asked, ids, k, w', stops);
    var n := CutOfRecorded(order, containers, k);
    SettledIsStopped(order[..n], containers, w);
    SettledIsStopped(order[..n + 1], containers, w);
    IssuedIsAsked(order[..n], containers, w);
    IssuedIsAsked(order[..n + 1], containers, w);
    AskedAfter(asked, Issued(w, ids[..k]));
    AskedAfter(asked, Issued(w, ids[..k + 1]));
  }

  // ----- The loop -----

  method StopServices(engine: Engine, order: seq<string>, containers: map<string, string>)
    returns (r: Result<Unit, CliError>)
    modifies engine
    ensures r == Ok(Unit) || r == Err(ENGINE_FAILURE)
    ensures r.Ok? ==>
              Completed(old(engine.world), old(engine.stops), RecordedContainers(order, containers), engine.world,
                engine.stops)
    ensures r.Err? ==>
              Interrupted(old(engine.world), old(engine.stops), RecordedContainers(order, containers), engine.world,
                engine.stops)
    ensures r.Ok? ==>
              TornDown(order, containers, old(engine.world), old(engine.stops), engine.world, engine.stops)
    ensures r.Err? ==>
              FailedDuring(order, containers, old(engine.world), old(engine.stops), engine.world, engine.stops)
    ensures old(engine.calls) <= engine.calls
    ensures r.Err? ==> Faulted(engine.statusFails, engine.stopFault, old(engine.calls), engine.calls)
  {
    ghost var ids := RecordedContainers(order, containers);
    ghost var was, asked := engine.world, engine.stops;
    ghost var k := 0;
    var i := 0;
    NothingSettled(was, asked, ids);
    while i < |order|
      invariant 0 <= i <= |order|
      invariant k <= |ids| && ids[k..] == RecordedContainers(order[i..], containers)
      invariant Settled(was, asked, ids, k, engine.world, engine.stops)
      invariant old(engine.calls) <= engine.calls
    {
      var service := order[i];
      RecordedNext(order, i, containers);
      if service in containers {
        var id := containers[service];
        SplitHead(ids, k, id, RecordedContainers(order[i + 1..], containers));
        ghost var before, issued, calls := engine.world, engine.stops, engine.calls;
        var stopped := StopIfActive(engine, id);
        OneMore(was, asked, ids, k, before, issued, engine.world, engine.stops);
        if stopped.Err? {
          FaultedEarlier(engine.statusFails, engine.stopFault, old(engine.calls), calls, engine.calls);
          InterruptedFailsDuring(order, containers, was, asked, engine.world, engine.stops);
          return stopped;
        }
        k := k + 1;
      }
      i := i + 1;
    }
    TakeAll(ids);
    CompletedIsTornDown(order, containers, was, asked, engine.world, engine.stops);
    return Ok(Unit);
  }

  /** A running or paused container was stopped, any other left alone. */
  ghost predicate Turned(w: World, asked: seq<string>, id: string, w': World, stops: seq<string>) {
    if id in w && (w[id] == Running || w[id] == Paused) then
      w' == w[id := Exited] && stops == asked + [id]
    else
      w' == w && stops == asked
  }

  /** One turn of the loop: ask for the status, stop what is running or paused. It
      fails only with a call to the engine; its stop may then have been asked for,
      and may have happened. */
  method StopIfActive(engine: Engine, id: string) returns (r: Result<Unit, CliError>)
    modifies engine
    ensures r == Ok(Unit) || r == Err(ENGINE_FAILURE)
    ensures r.Ok? ==> Turned(old(engine.world), old(engine.stops), id, engine.world, engine.stops)
    ensures r.Err? ==>
              || Turned(old(engine.world), old(engine.stops), id, engine.world, engine.stops)
              || (engine.world == old(engine.world)
                  && (engine.stops == old(engine.stops)
                      || (id in engine.world && (engine.world[id] == Running || engine.world[id] == Paused)
                          && engine.stops == old(engine.stops) + [id])))
    ensures old(engine.calls) <= engine.calls
    ensures r.Err? ==> Faulted(engine.statusFails, engine.stopFault, old(engine.calls), engine.calls)
  {
    ghost var asked := engine.calls;
    var status := engine.Status(id);
    if status.Err? {
      assert engine.statusFails(asked);
      return Err(status.error);
    }
    match status.value {
      case NotFound => return Ok(Unit);
      case Exited => return Ok(Unit);
      case _ => r := engine.Stop(id);
    }
    assert r.Err? ==> engine.stopFault(asked + 1) != NoFault;
  }

  lemma RecordedNext(order: seq<string>, i: nat, containers: map<string, string>)
    requires i < |order|
    ensures RecordedContainers(order[i..], containers)
            == (if order[i] in containers then [containers[order[i]]] else [])
              + RecordedContainers(order[i + 1..], containers)
  {
    assert order[i..][0] == order[i] && order[i..][1..] == order[i + 1..];
  }

  lemma SettleAppend(w: World, ids: seq<string>, id: string)
    ensures SettleAll(w, ids + [id]) == Settle(SettleAll(w, ids), id)
    ensures Issued(w, ids + [id]) == Issued(w, ids) + IssuedFor(SettleAll(w, ids), id)
    decreases |ids|
  {
    if ids == [] {
      assert [] + [id] == [id];
    } else {
      assert (ids + [id])[1..] == ids[1..] + [id];
      SettleAppend(Settle(w, ids[0]), ids[1..], id);
    }
  }

  lemma SplitHead(ids: seq<string>, k: nat, id: string, rest: seq<string>)
    requires k <= |ids| && ids[k..] == [id] + rest
    ensures k < |ids| && ids[k] == id && ids[k + 1..] == rest
  {
    assert ids[k..][0] == ids[k] && ids[k..][1..] == ids[k + 1..];
  }

  lemma NothingSettled(w: World, asked: seq<string>, ids: seq<string>)
    ensures Settled(w, asked, ids, 0, w, asked)
    ensures ids[0..] == ids
  {
    AppendNothing(asked);
  }

  lemma SettleNext(w: World, asked: seq<string>, ids: seq<string>, k: nat, w1: World, s1: seq<string>)
    requires k < |ids| && Settled(w, asked, ids, k, w1, s1)
    ensures Settled(w, asked, ids, k + 1, Settle(w1, ids[k]), s1 + IssuedFor(w1, ids[k]))
  {
    TakeNext(ids, k);
    SettleAppend(w, ids[..k], ids[k]);
  }

  /** What each outcome of one turn makes of the loop's progress. */
  lemma OneMore(w: World, asked: seq<string>, ids: seq<string>, k: nat, w1: World, s1: seq<string>, w2: World,
    s2: seq<string>)
    requires k < |ids| && Settled(w, asked, ids, k, w1, s1)
    ensures Turned(w1, s1, ids[k], w2, s2) ==>
              Settled(w, asked, ids, k + 1, w2, s2) && FailedAt(w, asked, ids, k, w2, s2)
    ensures w2 == w1 && (s2 == s1 || s2 == s1 + IssuedFor(w1, ids[k])) ==> FailedAt(w, asked, ids, k, w2, s2)
  {
    SettleNext(w, asked, ids, k, w1, s1);
  }

  /** Exactly the containers of the list stop being active. */
  lemma {:induction false} SettleAllActive(w: World, ids: seq<string>, id: string)
    ensures Active(SettleAll(w, ids), id) <==> Active(w, id) && id !in ids
    decreases |ids|
  {
    if ids != [] {
      SettleAllActive(Settle(w, ids[0]), ids[1..], id);
    }
  }

  // ----- Retrying after a failure -----

  lemma {:induction false} IssuedAreActive(w: World, ids: seq<string>)
    ensures forall id :: id in Issued(w, ids) ==> id in ids && Active(w, id)
    ensures NoDuplicates(Issued(w, ids))
    decreases |ids|
  {
    if ids != [] {
      IssuedAreActive(Settle(w, ids[0]), ids[1..]);
      assert !Active(Settle(w, ids[0]), ids[0]);
    }
  }

  lemma {:induction false} SettleIdle(w: World, ids: seq<string>)
    requires forall id :: id in ids ==> !Active(w, id)
    ensures SettleAll(w, ids) == w
    decreases |ids|
  {
    if ids != [] {
      SettleIdle(w, ids[1..]);
    }
  }

  lemma {:induction false} SettleConcat(w: World, a: seq<string>, b: seq<string>)
    ensures SettleAll(w, a + b) == SettleAll(SettleAll(w, a), b)
    decreases |a|
  {
    if a == [] {
      assert a + b == b;
    } else {
      assert (a + b)[1..] == a[1..] + b;
      SettleConcat(Settle(w, a[0]), a[1..], b);
    }
  }

  /** Whatever a failed `down` left behind, an undisturbed retry ends where one
      undisturbed run would have ended, stops no container twice, and asks
      nothing of a container the failed run had already settled. */
  lemma RetryFinishesTheJob(w: World, ids: seq<string>, k: nat)
    requires k <= |ids|
    ensures SettleAll(SettleAll(w, ids[..k]), ids) == SettleAll(w, ids)
    ensures NoDuplicates(Issued(SettleAll(w, ids[..k]), ids))
    ensures forall id :: id in Issued(SettleAll(w, ids[..k]), ids) ==>
              id in ids[k..] && id !in ids[..k] && Active(w, id)
  {
    var mid := SettleAll(w, ids[..k]);
    assert ids == ids[..k] + ids[k..];
    SettleConcat(mid, ids[..k], ids[k..]);
    SettleConcat(w, ids[..k], ids[k..]);
    forall id | id in ids[..k]
      ensures !Active(mid, id)
    {
      SettleAllActive(w, ids[..k], id);
    }
    SettleIdle(mid, ids[..k]);
    IssuedAreActive(mid, ids);
    forall id | id in Issued(mid, ids)
      ensures id in ids[k..] && id !in ids[..k] && Active(w, id)
    {
      SettleAllActive(w, ids[..k], id);
    }
  }

  // ----- Which orders are safe -----

  /** No active service has a dependency that is not active. */
  ghost predicate Safe(g: Graph, containers: map<string, string>, w: World) {
    forall s, d :: Edge(g, s, d) && s in containers && d in containers && Active(w, containers[s]) ==>
        Active(w, containers[d])
  }

  /** Where a container is stopped first, or the end of the list. */
  function Rank(ids: seq<string>, id: string): (r: nat)
    ensures r <= |ids|
    ensures id !in ids[..r]
    ensures r < |ids| ==> ids[r] == id
  {
    if ids == [] || ids[0] == id then 0 else 1 + Rank(ids[1..], id)
  }

  lemma {:induction false} RankBelow(ids: seq<string>, id: string, k: nat)
    requires k <= |ids|
    ensures id in ids[..k] <==> Rank(ids, id) < k
  {
    if k > 0 && ids[0] != id {
      assert ids[..k] == [ids[0]] + ids[1..][..k - 1];
      RankBelow(ids[1..], id, k - 1);
    }
  }

  /** A dependent's container comes no later than its dependency's. The persisted
      run decides this before anything is stopped. */
  ghost predicate RespectsEdges(g: Graph, containers: map<string, string>, ids: seq<string>) {
    forall s, d :: Edge(g, s, d) && s in containers && d in containers ==>
        Rank(ids, containers[s]) <= Rank(ids, containers[d])
  }

  ghost predicate SafeThroughout(g: Graph, containers: map<string, string>, ids: seq<string>) {
    forall w, k :: Safe(g, containers, w) && 0 <= k <= |ids| ==> Safe(g, containers, SettleAll(w, ids[..k]))
  }

  lemma PrefixStaysSafe(g: Graph, containers: map<string, string>, ids: seq<string>, w: World, k: nat)
    requires RespectsEdges(g, containers, ids) && Safe(g, containers, w) && k <= |ids|
    ensures Safe(g, containers, SettleAll(w, ids[..k]))
  {
    forall s, d | Edge(g, s, d) && s in containers && d in containers && Active(SettleAll(w, ids[..k]), containers[s])
      ensures Active(SettleAll(w, ids[..k]), containers[d])
    {
      SettleAllActive(w, ids[..k], containers[s]);
      SettleAllActive(w, ids[..k], containers[d]);
      RankBelow(ids, containers[s], k);
      RankBelow(ids, containers[d], k);
    }
  }

  lemma ViolationIsReachable(g: Graph, containers: map<string, string>, ids: seq<string>, s: string, d: string)
    requires Edge(g, s, d) && s in containers && d in containers
    requires Rank(ids, containers[s]) > Rank(ids, containers[d])
    ensures !SafeThroughout(g, containers, ids)
  {
    var w: World := map id | id in containers.Values :: Running;
    assert Safe(g, containers, w);
    var k := Rank(ids, containers[d]) + 1;
    assert containers[s] in containers.Values;
    SettleAllActive(w, ids[..k], containers[s]);
    SettleAllActive(w, ids[..k], containers[d]);
    RankBelow(ids, containers[s], k);
    RankBelow(ids, containers[d], k);
    assert !Safe(g, containers, SettleAll(w, ids[..k]));
  }

  /** A teardown list keeps every intermediate state free of active services on
      stopped dependencies, from every safe starting state and up to any
      failure, exactly when it respects the edges container by container. */
  lemma SafeTeardownIff(g: Graph, containers: map<string, string>, ids: seq<string>)
    ensures SafeThroughout(g, containers, ids) <==> RespectsEdges(g, containers, ids)
  {
    if RespectsEdges(g, containers, ids) {
      forall w, k | Safe(g, containers, w) && 0 <= k <= |ids|
        ensures Safe(g, containers, SettleAll(w, ids[..k]))
      {
        PrefixStaysSafe(g, containers, ids, w, k);
      }
    } else {
      var s, d :| Edge(g, s, d) && s in containers && d in containers
        && Rank(ids, containers[s]) > Rank(ids, containers[d]);
      ViolationIsReachable(g, containers, ids, s, d);
    }
  }

  // ----- The default order -----

  ghost predicate DistinctContainers(containers: map<string, string>) {
    forall s, t :: s in containers && t in containers && s != t ==> containers[s] != containers[t]
  }

  lemma {:induction false} RecordedConcat(a: seq<string>, b: seq<string>, containers: map<string, string>)
    ensures RecordedContainers(a + b, containers)
            == RecordedContainers(a, containers) + RecordedContainers(b, containers)
    decreases |a|
  {
    if a == [] {
      assert a + b == b;
    } else {
      assert (a + b)[1..] == a[1..] + b;
      RecordedConcat(a[1..], b, containers);
    }
  }

  lemma RankWithin(a: seq<string>, id: string, b: seq<string>, other: string)
    requires other !in a && other != id
    ensures Rank(a + [id] + b, id) <= |a| < Rank(a + [id] + b, other)
  {
    var all := a + [id] + b;
    assert all[..|a| + 1] == a + [id];
    RankBelow(all, id, |a| + 1);
    RankBelow(all, other, |a| + 1);
  }

  lemma ReversedMembers(a: seq<string>, x: string)
    requires x in Reversed(a)
    ensures x in a
  {
    var i :| 0 <= i < |a| && Reversed(a)[i] == x;
    assert a[|a| - 1 - i] == x;
  }

  ghost predicate IsReversal(s: seq<string>, r: seq<string>) {
    |r| == |s| && forall i :: 0 <= i < |s| ==> r[i] == s[|s| - 1 - i]
  }

  lemma ReversalIsUnique(s: seq<string>, r: seq<string>, t: seq<string>)
    requires IsReversal(s, r) && IsReversal(s, t)
    ensures r == t
  {
  }

  lemma HalvesAreReversals(s: seq<string>, r: seq<string>, n: nat)
    requires IsReversal(s, r) && n <= |s|
    ensures IsReversal(s[|s| - n..], r[..n]) && IsReversal(s[..|s| - n], r[n..])
  {
  }

  lemma ReversedHalves(order: seq<string>, n: nat)
    requires n <= |order|
    ensures Reversed(order)[..n] == Reversed(order[|order| - n..])
    ensures Reversed(order)[n..] == Reversed(order[..|order| - n])
  {
    HalvesAreReversals(order, Reversed(order), n);
    ReversalIsUnique(order[|order| - n..], Reversed(order)[..n], Reversed(order[|order| - n..]));
    ReversalIsUnique(order[..|order| - n], Reversed(order)[n..], Reversed(order[..|order| - n]));
  }

  lemma ReversedSplits(order: seq<string>, j: nat)
    requires j < |order|
    ensures Reversed(order) == Reversed(order[j + 1..]) + [order[j]] + Reversed(order[..j])
  {
    var n := |order| - 1 - j;
    ReversedHalves(order, n);
    ReversedHalves(order, n + 1);
    SplitAt(Reversed(order), n);
  }

  lemma DependentRanksFirst(before: seq<string>, s: string, after: seq<string>, d: string,
    containers: map<string, string>)
    requires DistinctContainers(containers) && s in containers && d in containers
    requires d !in before && d != s
    ensures var ids := RecordedContainers(before + [s] + after, containers);
            Rank(ids, containers[s]) <= Rank(ids, containers[d])
  {
    RecordedConcat(before + [s], after, containers);
    RecordedConcat(before, [s], containers);
    assert [s][1..] == [];
    assert RecordedContainers([s], containers) == [containers[s]];
    RecordedMembers(before, containers);
    RankWithin(RecordedContainers(before, containers), containers[s], RecordedContainers(after, containers),
      containers[d]);
  }

  lemma NotAfter(order: seq<string>, j: nat, d: string)
    requires j < |order| && NoDuplicates(order) && d in order[..j]
    ensures d !in Reversed(order[j + 1..]) && d != order[j]
  {
    var rest := Reversed(order[j + 1..]);
    forall x | x in rest
      ensures x != d
    {
      ReversedMembers(order[j + 1..], x);
    }
  }

  /** `down` without an explicit order, on a run whose services have distinct
      containers, is safe throughout. */
  lemma DefaultTeardownIsSafe(g: Graph, order: seq<string>, containers: map<string, string>)
    requires Topological(g, order) && DistinctContainers(containers)
    ensures SafeThroughout(g, containers, RecordedContainers(Reversed(order), containers))
  {
    var rev := Reversed(order);
    var ids := RecordedContainers(rev, containers);
    forall s, d | Edge(g, s, d) && s in containers && d in containers
      ensures Rank(ids, containers[s]) <= Rank(ids, containers[d])
    {
      assert s in Elements(order);
      var j :| 0 <= j < |order| && order[j] == s;
      assert d in order[..j];
      ReversedSplits(order, j);
      NotAfter(order, j, d);
      DependentRanksFirst(Reversed(order[j + 1..]), s, Reversed(order[..j]), d, containers);
    }
    SafeTeardownIff(g, containers, ids);
  }

  // ----- Shared containers -----

  /** For every dependency, no service sharing its container comes later in the
      order than all services sharing the dependent's container. */
  ghost predicate SharingRespectsEdges(g: Graph, order: seq<string>, containers: map<string, string>) {
    forall s, d, j :: Edge(g, s, d) && s in containers && d in containers && 0 <= j <= |order|
                      && RecordedAmong(order[j..], containers, containers[d]) ==>
      RecordedAmong(order[j..], containers, containers[s])
  }

  lemma RecordedPrefix(names: seq<string>, containers: map<string, string>, k: nat)
    requires k <= |names|
    ensures var head, ids := RecordedContainers(names[..k], containers), RecordedContainers(names, containers);
            |head| <= |ids| && ids[..|head|] == head
  {
    RecordedConcat(names[..k], names[k..], containers);
    TakeDrop(names, k);
  }

  /** The shortest part of the list that records an id up to its rank. */
  lemma {:induction false} RankIsReached(names: seq<string>, containers: map<string, string>, r: nat) returns (k: nat)
    requires r <= |RecordedContainers(names, containers)|
    ensures k <= |names| && |RecordedContainers(names[..k], containers)| == r
    decreases |names|
  {
    if r == |RecordedContainers(names, containers)| {
      k := |names|;
      TakeAll(names);
    } else {
      var front := names[..|names| - 1];
      RecordedConcat(front, [names[|names| - 1]], containers);
      TakeNext(names, |names| - 1);
      TakeAll(names);
      assert |RecordedContainers([names[|names| - 1]], containers)| <= 1;
      k := RankIsReached(front, containers, r);
      assert front[..k] == names[..k];
    }
  }

  /** Ranks compare as the lists do: whatever part of the list records `b` also
      records `a`. */
  lemma RanksCompare(names: seq<string>, containers: map<string, string>, a: string, b: string)
    ensures var ids := RecordedContainers(names, containers);
            Rank(ids, a) <= Rank(ids, b)
            <==> forall k :: 0 <= k <= |names| && RecordedAmong(names[..k], containers, b) ==>
                RecordedAmong(names[..k], containers, a)
  {
    var ids := RecordedContainers(names, containers);
    forall k | 0 <= k <= |names|
      ensures RecordedAmong(names[..k], containers, a) <==> Rank(ids, a) < |RecordedContainers(names[..k], containers)|
      ensures RecordedAmong(names[..k], containers, b) <==> Rank(ids, b) < |RecordedContainers(names[..k], containers)|
    {
      RankAmong(names, containers, k, a);
      RankAmong(names, containers, k, b);
    }
    if Rank(ids, b) < Rank(ids, a) {
      var k := RankIsReached(names, containers, Rank(ids, b) + 1);
      assert RecordedAmong(names[..k], containers, b) && !RecordedAmong(names[..k], containers, a);
    }
  }

  lemma RankAmong(names: seq<string>, containers: map<string, string>, k: nat, id: string)
    requires k <= |names|
    ensures RecordedAmong(names[..k], containers, id)
            <==> Rank(RecordedContainers(names, containers), id) < |RecordedContainers(names[..k], containers)|
  {
    RecordedPrefix(names, containers, k);
    RecordedMembers(names[..k], containers);
    RankBelow(RecordedContainers(names, containers), id, |RecordedContainers(names[..k], containers)|);
  }

  lemma ReversedSameMembers(names: seq<string>)
    ensures forall s :: s in Reversed(names) <==> s in names
  {
    var rev := Reversed(names);
    forall s | s in rev
      ensures s in names
    {
      ReversedMembers(names, s);
    }
    forall s | s in names
      ensures s in rev
    {
      var i :| 0 <= i < |names| && names[i] == s;
      assert rev[|names| - 1 - i] == s;
    }
  }

  lemma ReversedTakesTail(order: seq<string>, containers: map<string, string>, k: nat, id: string)
    requires k <= |order|
    ensures RecordedAmong(Reversed(order)[..k], containers, id) <==> RecordedAmong(order[|order| - k..], containers, id)
  {
    ReversedHalves(order, k);
    ReversedSameMembers(order[|order| - k..]);
  }

  /** A dependent's rank in the reversed order, read off the order itself. */
  lemma ReversedRanks(order: seq<string>, containers: map<string, string>, a: string, b: string)
    ensures var ids := RecordedContainers(Reversed(order), containers);
            Rank(ids, a) <= Rank(ids, b)
            <==> forall j :: 0 <= j <= |order| && RecordedAmong(order[j..], containers, b) ==>
                RecordedAmong(order[j..], containers, a)
  {
    var n := |order|;
    RanksCompare(Reversed(order), containers, a, b);
    forall k | 0 <= k <= n
      ensures RecordedAmong(Reversed(order)[..k], containers, a) <==> RecordedAmong(order[n - k..], containers, a)
      ensures RecordedAmong(Reversed(order)[..k], containers, b) <==> RecordedAmong(order[n - k..], containers, b)
    {
      ReversedTakesTail(order, containers, k, a);
      ReversedTakesTail(order, containers, k, b);
    }
    if forall k :: 0 <= k <= n && RecordedAmong(Reversed(order)[..k], containers, b) ==>
        RecordedAmong(Reversed(order)[..k], containers, a) {
      forall j | 0 <= j <= n && RecordedAmong(order[j..], containers, b)
        ensures RecordedAmong(order[j..], containers, a)
      {
        assert RecordedAmong(Reversed(order)[..n - j], containers, b);
      }
    }
  }

  /** Whatever containers the lifecycle result reports, `down` in the order of
      `service_order`, reversed, is safe throughout exactly when sharing respects
      the dependencies. */
  lemma DefaultTeardownSafeIff(g: Graph, containers: map<string, string>)
    requires Closed(g) && Order(g).Ok?
    ensures SafeThroughout(g, containers, RecordedContainers(Reversed(Order(g).value), containers))
            <==> SharingRespectsEdges(g, Order(g).value, containers)
  {
    var order := Order(g).value;
    var ids := RecordedContainers(Reversed(order), containers);
    SafeTeardownIff(g, containers, ids);
    forall s, d | Edge(g, s, d) && s in containers && d in containers
      ensures Rank(ids, containers[s]) <= Rank(ids, containers[d])
              <==> forall j :: 0 <= j <= |order| && RecordedAmong(order[j..], containers, containers[d]) ==>
                     RecordedAmong(order[j..], containers, containers[s])
    {
      ReversedRanks(order, containers, containers[s], containers[d]);
    }
  }

  /** `b` depends on `a`; `c` depends on nothing. */
  function Bystander(a: string, b: string, c: string): Graph {
    map[a := [], b := [a], c := []]
  }

  lemma BystanderEdges(a: string, b: string, c: string)
    requires a != b && b != c && a != c
    ensures Closed(Bystander(a, b, c)) && Bystander(a, b, c).Keys == {a, b, c}
    ensures forall n, d :: Edge(Bystander(a, b, c), n, d) <==> n == b && d == a
  {
    var g := Bystander(a, b, c);
    assert g[a] == [] && g[b] == [a] && g[c] == [];
  }

  lemma BystanderOrder(a: string, b: string, c: string)
    requires LexLess(a, b) && LexLess(b, c)
    ensures a != b && b != c && a != c
    ensures Closed(Bystander(a, b, c)) && Order(Bystander(a, b, c)) == Ok([a, b, c])
  {
    SortedTriple(a, b, c);
    BystanderEdges(a, b, c);
    OrderIsLexicographicIff(Bystander(a, b, c));
  }

  /** Nothing in the lifecycle result checks that containers are distinct. When
      `c` is reported in the container of `a`, the default order c, b, a stops
      that container first, under `b`, which depends on `a`. */
  lemma SharedContainerBreaksTeardown(a: string, b: string, c: string, shared: string, own: string)
    requires LexLess(a, b) && LexLess(b, c) && shared != own
    ensures var g := Bystander(a, b, c);
            var containers := map[a := shared, b := own, c := shared];
            && Closed(g) && Order(g) == Ok([a, b, c])
            && !SafeThroughout(g, containers, RecordedContainers(Reversed(Order(g).value), containers))
  {
    BystanderOrder(a, b, c);
    var g := Bystander(a, b, c);
    var order := [a, b, c];
    var containers := map[a := shared, b := own, c := shared];
    DefaultTeardownSafeIff(g, containers);
    assert order[2..] == [c];
    assert c in order[2..];
    assert Edge(g, b, a);
    assert RecordedAmong(order[2..], containers, containers[a]);
    assert !RecordedAmong(order[2..], containers, containers[b]);
  }

  // ----- What a completed teardown has stopped -----

  ghost predicate AllDown(containers: map<string, string>, w: World) {
    forall s :: s in containers ==> !Active(w, containers[s])
  }

  /** A completed `down` has stopped every recorded container, whatever was
      active, exactly when the teardown list names each of them. */
  lemma DownStopsEverythingIff(containers: map<string, string>, ids: seq<string>)
    ensures (forall w :: AllDown(containers, SettleAll(w, ids)))
            <==> forall s :: s in containers ==> containers[s] in ids
  {
    if forall s :: s in containers ==> containers[s] in ids {
      forall w
        ensures AllDown(containers, SettleAll(w, ids))
      {
        forall s | s in containers
          ensures !Active(SettleAll(w, ids), containers[s])
        {
          SettleAllActive(w, ids, containers[s]);
        }
      }
    } else {
      var s :| s in containers && containers[s] !in ids;
      var w: World := map[containers[s] := Running];
      SettleAllActive(w, ids, containers[s]);
      assert !AllDown(containers, SettleAll(w, ids));
    }
  }

  /** The default order reaches every declared service; containers the client
      reported for undeclared names are left alone. */
  lemma DefaultTeardownStopsDeclared(g: Graph, order: seq<string>, containers: map<string, string>, w: World)
    requires Topological(g, order)
    ensures forall s :: s in g && s in containers ==>
              !Active(SettleAll(w, RecordedContainers(Reversed(order), containers)), containers[s])
  {
    var rev := Reversed(order);
    var ids := RecordedContainers(rev, containers);
    RecordedMembers(rev, containers);
    forall s | s in g && s in containers
      ensures !Active(SettleAll(w, ids), containers[s])
    {
      assert s in Elements(order);
      var j :| 0 <= j < |order| && order[j] == s;
      assert rev[|order| - 1 - j] == s;
      SettleAllActive(w, ids, containers[s]);
    }
  }
}
