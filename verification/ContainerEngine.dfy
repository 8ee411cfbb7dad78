/** The container engine behind `PodmanRuntime`: a map from container id to
    status, reached through calls that may fail at any time. */
module ContainerEngine {
  import opened Prelude
  import opened Text
  import opened RuntimePort

  type World = map<string, ContainerStatus>

  function StatusOf(w: World, id: string): ContainerStatus {
    if id in w then w[id] else ContainerStatus.NotFound
  }

  predicate Active(w: World, id: string) {
    StatusOf(w, id) == Running || StatusOf(w, id) == Paused
  }

  /** A stop request may be carried out, fail, or be carried out and still be
      reported as failed. */
  datatype StopFault = NoFault | Refused | CarriedOut

  const ENGINE_FAILURE := Raise(Backend, "runtime_backend")

  /** None of the calls from one to another failed. */
  ghost predicate Answered(fails: nat -> bool, from: nat, to: nat) {
    forall n :: from <= n < to ==> !fails(n)
  }

  lemma AnsweredNext(fails: nat -> bool, from: nat, to: nat)
    requires from <= to
    ensures Answered(fails, from, to + 1) <==> Answered(fails, from, to) && !fails(to)
  {
  }

  /** Some call from one to another failed, as a query or as a stop. */
  ghost predicate Faulted(statusFails: nat -> bool, stopFault: nat -> StopFault, from: nat, to: nat) {
    exists n :: from <= n < to && (statusFails(n) || stopFault(n) != NoFault)
  }

  lemma FaultedEarlier(statusFails: nat -> bool, stopFault: nat -> StopFault, start: nat, from: nat, to: nat)
    requires start <= from && Faulted(statusFails, stopFault, from, to)
    ensures Faulted(statusFails, stopFault, start, to)
  {
  }

  class Engine {
    var world: World
    /** Every stop request issued, in order. */
    var stops: seq<string>
    var calls: nat
    const statusFails: nat -> bool
    const stopFault: nat -> StopFault

    constructor (world: World, statusFails: nat -> bool, stopFault: nat -> StopFault)
      ensures this.world == world && stops == []
    {
      this.world, stops, calls := world, [], 0;
      this.statusFails, this.stopFault := statusFails, stopFault;
    }

    method Status(id: string) returns (r: Result<ContainerStatus, CliError>)
      modifies this
      ensures world == old(world) && stops == old(stops)
      ensures calls == old(calls) + 1
      ensures r == if statusFails(old(calls)) then Err(ENGINE_FAILURE) else Ok(StatusOf(world, id))
    {
      var n := calls;
      calls := calls + 1;
      if statusFails(n) {
        return Err(ENGINE_FAILURE);
      }
      return Ok(StatusOf(world, id));
    }

    method Stop(id: string) returns (r: Result<Unit, CliError>)
      modifies this
      ensures stops == old(stops) + [id] && calls == old(calls) + 1
      ensures r == Ok(Unit) || r == Err(ENGINE_FAILURE)
      ensures r.Ok? <==> id in old(world) && stopFault(old(calls)) == NoFault
      ensures r.Ok? ==> id in old(world) && world == old(world)[id := Exited]
      ensures r.Err? ==> world == old(world) || (id in old(world) && world == old(world)[id := Exited])
    {
      var n := calls;
      calls := calls + 1;
      stops := stops + [id];
      if id !in world || stopFault(n) == Refused {
        return Err(ENGINE_FAILURE);
      }
      world := world[id := Exited];
      return if stopFault(n) == NoFault then Ok(Unit) else Err(ENGINE_FAILURE);
    }
  }

  /** The values of a `BTreeMap` in key order. */
  function ValuesInKeyOrder(m: map<string, string>): (r: seq<string>)
    ensures |r| == |m|
    ensures forall v :: v in r <==> v in m.Values
  {
    var keys := SortedKeys(m.Keys);
    assert forall k :: k in keys <==> k in Elements(keys);
    var r := seq(|keys|, i requires 0 <= i < |keys| => m[keys[i]]);
    assert forall v :: v in m.Values ==> v in r by {
      forall v | v in m.Values
        ensures v in r
      {
        var k :| k in m && m[k] == v;
        assert k in keys;
        var i :| 0 <= i < |keys| && keys[i] == k;
        assert r[i] == v;
      }
    }
    r
  }

  /** Some containers among `ids` went to Exited and nothing else changed. */
  ghost predicate OnlyStopped(w: World, ids: set<string>, w': World) {
    w'.Keys == w.Keys && forall id :: id in w ==> w'[id] == w[id] || (id in ids && w'[id] == Exited)
  }

  lemma OnlyStoppedStep(w: World, ids: set<string>, mid: World, id: string, w': World)
    requires OnlyStopped(w, ids, mid) && id in ids
    requires w' == mid || (id in mid && w' == mid[id := Exited])
    ensures OnlyStopped(w, ids, w')
  {
  }

  lemma ReversedStep(done: seq<string>, ids: seq<string>, i: nat, target: seq<string>)
    requires i < |ids| && done + Reversed(ids[..i + 1]) == target
    ensures (done + [ids[i]]) + Reversed(ids[..i]) == target
  {
    assert ids[..i + 1][..i] == ids[..i];
    assert Reversed(ids[..i + 1]) == [ids[i]] + Reversed(ids[..i]);
  }

  /** One stop for every reported container, those of later keys first. */
  ghost predicate LastKeyFirst(containers: map<string, string>, issued: seq<string>) {
    exists keys :: StrictlySorted(keys) && Elements(keys) == containers.Keys && InReverse(containers, keys, issued)
  }

  ghost predicate InReverse(containers: map<string, string>, keys: seq<string>, issued: seq<string>) {
    && |issued| == |keys|
    && forall i :: 0 <= i < |keys| ==> keys[i] in containers && issued[|keys| - 1 - i] == containers[keys[i]]
  }

  /** The stops of a rollback come in this order. */
  lemma RollbackIsLastKeyFirst(containers: map<string, string>)
    ensures LastKeyFirst(containers, Reversed(ValuesInKeyOrder(containers)))
  {
    var keys := SortedKeys(containers.Keys);
    var values := ValuesInKeyOrder(containers);
    SortedMembers(containers.Keys);
    forall i | 0 <= i < |keys|
      ensures keys[i] in containers && Reversed(values)[|keys| - 1 - i] == containers[keys[i]]
    {
      assert keys[i] in keys;
      assert Reversed(values)[|keys| - 1 - i] == values[i];
    }
    assert InReverse(containers, keys, Reversed(values));
  }

  /** `rollback_containers_from_map`: asks for every reported container to be
      stopped, last key first, ignoring the answers. */
  method RollbackContainersFromMap(engine: Engine, containers: map<string, string>)
    modifies engine
    ensures engine.stops == old(engine.stops) + Reversed(ValuesInKeyOrder(containers))
    ensures OnlyStopped(old(engine.world), containers.Values, engine.world)
  {
    var ids := ValuesInKeyOrder(containers);
    ghost var target := engine.stops + Reversed(ids);
    var i := |ids|;
    assert ids[..i] == ids;
    while i > 0
      invariant 0 <= i <= |ids|
      invariant engine.stops + Reversed(ids[..i]) == target
      invariant OnlyStopped(old(engine.world), containers.Values, engine.world)
    {
      i := i - 1;
      ReversedStep(engine.stops, ids, i, target);
      ghost var mid := engine.world;
      var id := ids[i];
      assert id in ids;
      var _ := engine.Stop(id);
      OnlyStoppedStep(old(engine.world), containers.Values, mid, id, engine.world);
    }
    assert Reversed(ids[..0]) == [];
  }
}
