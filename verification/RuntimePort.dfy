/** The in-memory container runtime that rollback is proved against. */
module RuntimePort {
  import opened Prelude
  import opened Text

  datatype RuntimeError = ValidationError | BackendError | NotFoundError

  datatype ContainerStatus = Running | Exited | Paused | NotFound

  // ----- Container ids -----

  function Digit(n: nat): char
    requires n < 10
  {
    "0123456789"[n]
  }

  function Decimal(n: nat): (r: string)
    ensures r != []
  {
    if n < 10 then [Digit(n)] else Decimal(n / 10) + [Digit(n % 10)]
  }

  /** `format!("noop-{}", n)` */
  function NoopId(n: nat): string {
    "noop-" + Decimal(n)
  }

  /** The number that a string of decimal digits stands for. */
  function Value(s: string): (n: int) {
    if s == [] then 0 else 10 * Value(s[..|s| - 1]) + (s[|s| - 1] as int - '0' as int)
  }

  /** Decimal notation: digits only, none of them a leading zero, standing for `n`. */
  lemma {:induction false} DecimalReads(n: nat)
    ensures Value(Decimal(n)) == n && (n > 0 ==> Decimal(n)[0] != '0')
    ensures forall c :: c in Decimal(n) ==> '0' <= c <= '9'
  {
    if n >= 10 {
      DecimalReads(n / 10);
      assert Decimal(n)[..|Decimal(n)| - 1] == Decimal(n / 10);
    }
  }

  lemma {:induction false} DecimalInjective(m: nat, n: nat)
    requires Decimal(m) == Decimal(n)
    ensures m == n
  {
    var s := Decimal(m);
    assert s[|s| - 1] == Digit(m % 10) && s[|s| - 1] == Digit(n % 10);
    if m >= 10 && n >= 10 {
      assert s[..|s| - 1] == Decimal(m / 10) && s[..|s| - 1] == Decimal(n / 10);
      DecimalInjective(m / 10, n / 10);
    }
  }

  /** Two spawns never share an id, which the Runtime port demands. */
  lemma NoopIdInjective(m: nat, n: nat)
    ensures NoopId(m) == NoopId(n) ==> m == n
  {
    if NoopId(m) == NoopId(n) {
      assert NoopId(m)[5..] == Decimal(m) && NoopId(n)[5..] == Decimal(n);
      DecimalInjective(m, n);
    }
  }

  // ----- The alive list -----

  /** `Vec::swap_remove`: the last element takes the place of the removed one. */
  function SwapRemove(s: seq<string>, i: nat): seq<string>
    requires i < |s|
  {
    s[i := s[|s| - 1]][..|s| - 1]
  }

  function Removed(alive: seq<string>, id: string): seq<string> {
    if id in alive then SwapRemove(alive, FirstIndexOf(alive, id)) else alive
  }

  /** Stopping a list of containers one after the other. */
  function StopAll(alive: seq<string>, ids: seq<string>): seq<string>
    decreases |ids|
  {
    if ids == [] then alive else StopAll(Removed(alive, ids[0]), ids[1..])
  }

  /** Only ids given out before `next` are alive, each once. */
  ghost predicate OwnIds(alive: seq<string>, next: nat) {
    NoDuplicates(alive) && forall id :: id in alive ==> exists n: nat :: n < next && id == NoopId(n)
  }

  /** `id` was first at `i` and is gone; the last of the list took its place. */
  ghost predicate SwappedOut(alive: seq<string>, id: string, i: int, left: seq<string>) {
    && 0 <= i < |alive| && alive[i] == id && id !in alive[..i]
    && |left| == |alive| - 1
    && forall j :: 0 <= j < |left| ==> left[j] == if j == i then alive[|alive| - 1] else alive[j]
  }

  lemma RemovedIsSwappedOut(alive: seq<string>, id: string)
    requires id in alive
    ensures SwappedOut(alive, id, FirstIndexOf(alive, id), Removed(alive, id))
  {
  }

  /** The in-memory runtime. A runtime of the port may also refuse any spawn: the
      schedule says which. `NoopRuntime` itself is the one that refuses none. */
  class NoopRuntime {
    var nextId: nat
    var alive: seq<string>
    /** The images it was asked to spawn so far. */
    var images: seq<string>
    const refuses: nat -> bool

    constructor (refuses: nat -> bool)
      ensures nextId == 0 && alive == [] && images == [] && this.refuses == refuses
      ensures Valid()
    {
      nextId, alive, images := 0, [], [];
      this.refuses := refuses;
    }

    ghost predicate Valid()
      reads this
    {
      OwnIds(alive, nextId)
    }

    method Spawn(image: string) returns (r: Result<string, RuntimeError>)
      modifies this
      ensures images == old(images) + [image]
      ensures match r
              case Ok(id) => image != "" && !refuses(|old(images)|) && id == NoopId(old(nextId))
              case Err(e) => if image == "" then e == ValidationError else refuses(|old(images)|) && e == BackendError
      ensures r.Err? ==> nextId == old(nextId) && alive == old(alive)
      ensures r.Ok? ==> nextId == old(nextId) + 1 && alive == old(alive) + [r.value]
      ensures old(Valid()) ==> Valid()
    {
      images := images + [image];
      if image == "" {
        return Err(ValidationError);
      }
      if refuses(|images| - 1) {
        return Err(BackendError);
      }
      var n := nextId;
      nextId := nextId + 1;
      alive := alive + [NoopId(n)];
      OwnIdsGrow(old(alive), n);
      return Ok(NoopId(n));
    }

    method Stop(id: string) returns (r: Result<Unit, RuntimeError>)
      modifies this
      ensures nextId == old(nextId) && images == old(images) && alive == Removed(old(alive), id)
      ensures if id in old(alive) then exists i :: SwappedOut(old(alive), id, i, alive) else alive == old(alive)
      ensures r == if id in old(alive) then Ok(Unit) else Err(NotFoundError)
      ensures old(Valid()) ==> Valid() && id !in alive
    {
      RemovedKeepsOwnIds(alive, id);
      if id in alive {
        RemovedIsSwappedOut(alive, id);
      }
      var i := 0;
      while i < |alive|
        invariant 0 <= i <= |alive|
        invariant id !in alive[..i]
      {
        if alive[i] == id {
          FirstIndexIs(alive, id, i);
          alive := alive[i := alive[|alive| - 1]];
          alive := alive[..|alive| - 1];
          return Ok(Unit);
        }
        i := i + 1;
      }
      assert alive[..i] == alive;
      return Err(NotFoundError);
    }

    method Status(id: string) returns (r: ContainerStatus)
      ensures r == if id in alive then Running else ContainerStatus.NotFound
    {
      r := ContainerStatus.NotFound;
      var i := 0;
      while i < |alive|
        invariant 0 <= i <= |alive|
        invariant r == if id in alive[..i] then Running else ContainerStatus.NotFound
      {
        if alive[i] == id {
          r := Running;
        }
        i := i + 1;
      }
      assert alive[..i] == alive;
    }
  }

  lemma OwnIdsGrow(alive: seq<string>, next: nat)
    ensures OwnIds(alive, next) ==> OwnIds(alive + [NoopId(next)], next + 1)
  {
    if OwnIds(alive, next) && NoopId(next) in alive {
      var k: nat :| k < next && NoopId(next) == NoopId(k);
      NoopIdInjective(next, k);
    }
  }

  lemma RemovedKeepsOwnIds(alive: seq<string>, id: string)
    ensures forall x :: x in Removed(alive, id) ==> x in alive
    ensures NoDuplicates(alive) ==> NoDuplicates(Removed(alive, id)) && id !in Removed(alive, id)
  {
  }

  // ----- Undoing a list of spawns -----

  function Reversed<T>(s: seq<T>): (r: seq<T>)
    ensures |r| == |s| && forall i :: 0 <= i < |s| ==> r[i] == s[|s| - 1 - i]
  {
    if s == [] then [] else [s[|s| - 1]] + Reversed(s[..|s| - 1])
  }

  function Ids(first: nat, k: nat): (r: seq<string>)
    ensures |r| == k
  {
    seq(k, i requires 0 <= i < k => NoopId(first + i))
  }

  lemma {:induction false} OwnIdsAfter(alive: seq<string>, next: nat, k: nat)
    requires OwnIds(alive, next)
    ensures OwnIds(alive + Ids(next, k), next + k)
  {
    if k == 0 {
      assert alive + Ids(next, 0) == alive;
    } else {
      OwnIdsAfter(alive, next, k - 1);
      OwnIdsGrow(alive + Ids(next, k - 1), next + k - 1);
      assert alive + Ids(next, k) == alive + Ids(next, k - 1) + [NoopId(next + k - 1)];
    }
  }

  lemma LastInMultiset(s: seq<string>)
    requires s != []
    ensures multiset(s) == multiset(s[..|s| - 1]) + multiset{s[|s| - 1]}
  {
    assert s == s[..|s| - 1] + [s[|s| - 1]];
  }

  lemma ReplaceInMultiset(s: seq<string>, i: nat, x: string)
    requires i < |s|
    ensures multiset(s[i := x]) + multiset{s[i]} == multiset(s) + multiset{x}
  {
  }

  lemma CancelOne(a: multiset<string>, b: multiset<string>, x: string, id: string)
    requires a + multiset{x} + multiset{id} == b + multiset{x}
    ensures a == b - multiset{id}
  {
    forall y
      ensures a[y] == (b - multiset{id})[y]
    {
      assert (a + multiset{x} + multiset{id})[y] == (b + multiset{x})[y];
    }
  }

  lemma RemovedMultiset(alive: seq<string>, id: string)
    requires id in alive
    ensures multiset(Removed(alive, id)) == multiset(alive) - multiset{id}
  {
    var i := FirstIndexOf(alive, id);
    var last := alive[|alive| - 1];
    ReplaceInMultiset(alive, i, last);
    LastInMultiset(alive[i := last]);
    CancelOne(multiset(Removed(alive, id)), multiset(alive), last, id);
  }

  /** Stopping what was spawned, in reverse, removes exactly that, whatever ids
      were alive before. */
  lemma {:induction false} UndoMultiset(alive: seq<string>, world: seq<string>, ids: seq<string>)
    requires multiset(world) == multiset(alive) + multiset(ids)
    ensures multiset(StopAll(world, Reversed(ids))) == multiset(alive)
    decreases |ids|
  {
    if ids != [] {
      UndoOne(alive, world, ids);
      UndoMultiset(alive, Removed(world, ids[|ids| - 1]), ids[..|ids| - 1]);
    }
  }

  lemma UndoOne(alive: seq<string>, world: seq<string>, ids: seq<string>)
    requires multiset(world) == multiset(alive) + multiset(ids) && ids != []
    ensures ids[|ids| - 1] in world
    ensures multiset(Removed(world, ids[|ids| - 1])) == multiset(alive) + multiset(ids[..|ids| - 1])
    ensures Reversed(ids) == [ids[|ids| - 1]] + Reversed(ids[..|ids| - 1])
    ensures Reversed(ids)[1..] == Reversed(ids[..|ids| - 1])
  {
    LastInMultiset(ids);
    assert ids[|ids| - 1] in multiset(world);
    RemovedMultiset(world, ids[|ids| - 1]);
  }

  /** Every stop of the undo finds its container. */
  lemma {:induction false} UndoFinds(alive: seq<string>, world: seq<string>, ids: seq<string>, j: nat)
    requires multiset(world) == multiset(alive) + multiset(ids) && j < |ids|
    ensures Reversed(ids)[j] in StopAll(world, Reversed(ids)[..j])
    decreases |ids|
  {
    var stops := Reversed(ids);
    UndoOne(alive, world, ids);
    if j == 0 {
      assert stops[..0] == [];
    } else {
      var front := ids[..|ids| - 1];
      UndoFinds(alive, Removed(world, stops[0]), front, j - 1);
      assert stops[..j] == [stops[0]] + Reversed(front)[..j - 1];
      assert stops[..j][1..] == Reversed(front)[..j - 1];
    }
  }

  /** With fresh ids the list itself is restored, order included. */
  lemma {:induction false} UndoExact(alive: seq<string>, ids: seq<string>)
    requires NoDuplicates(alive + ids)
    decreases |ids|
    ensures StopAll(alive + ids, Reversed(ids)) == alive
  {
    if ids == [] {
      assert alive + ids == alive;
    } else {
      var front := ids[..|ids| - 1];
      TakeNext(ids, |ids| - 1);
      TakeAll(ids);
      LastIsRemoved(alive, front, ids[|ids| - 1]);
      assert Reversed(ids)[1..] == Reversed(front);
      UndoExact(alive, front);
    }
  }

  /** Removing the last of distinct ids swaps nothing. */
  lemma LastIsRemoved(alive: seq<string>, front: seq<string>, id: string)
    requires NoDuplicates(alive + (front + [id]))
    ensures NoDuplicates(alive + front)
    ensures Removed(alive + (front + [id]), id) == alive + front
  {
    var world, rest := alive + (front + [id]), alive + front;
    assert world == rest + [id];
    forall i, j | 0 <= i < j < |rest|
      ensures rest[i] != rest[j]
    {
      assert world[i] == rest[i] && world[j] == rest[j];
    }
    assert world[|rest|] == id;
    FirstIndexIs(world, id, |rest|);
  }
}
