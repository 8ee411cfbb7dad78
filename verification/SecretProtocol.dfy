/** The file-backed store under concurrency and crashes: any number of threads,
    each mutating memory in one critical section and flushing in another, with
    failures and crashes between any two file-system steps. */
module SecretProtocol {
  import opened Prelude
  import opened Secrets
  import opened SecretFile

  type Thread = nat

  /** How far the holder of the lock has got with its flush. */
  datatype Stage = Locked | Created(written: nat) | Synced | Renamed

  /** What a thread is doing. A write is identified by its place in the log; a
      bare `flush` call has none. */
  datatype Activity = Idle | Mutated(write: nat) | Flushing(pending: Option<nat>, stage: Stage)

  datatype System = System(
    start: Contents,
    memory: Contents,
    log: seq<Write>,
    committed: nat,
    acknowledged: set<nat>,
    disk: Disk,
    lock: Option<Thread>,
    threads: map<Thread, Activity>)
  {
    function Doing(t: Thread): Activity {
      if t in threads then threads[t] else Idle
    }
  }

  datatype Action =
    | Mutate(t: Thread, write: Write)
    | BeginFlush(t: Thread)
    | CreateFile(t: Thread)
    | WriteSome(t: Thread, count: nat)
    | SyncFile(t: Thread)
    | RenameFile(t: Thread)
    | Return(t: Thread)
    | Fail(t: Thread)
    | Crash(left: Disk)

  predicate InStage(s: System, t: Thread) {
    s.Doing(t).Flushing?
  }

  ghost predicate Enabled(c: Codec, s: System, a: Action) {
    match a
    case Mutate(t, write) => s.lock.None? && s.Doing(t).Idle? && write.address.name != ""
    case BeginFlush(t) => s.lock.None? && !s.Doing(t).Flushing?
    case CreateFile(t) => InStage(s, t) && s.Doing(t).stage == Locked
    case WriteSome(t, count) =>
      InStage(s, t) && s.Doing(t).stage.Created? && s.Doing(t).stage.written <= count <= |c.encode(s.memory)|
    case SyncFile(t) => InStage(s, t) && s.Doing(t).stage == Created(|c.encode(s.memory)|)
    case RenameFile(t) => InStage(s, t) && s.Doing(t).stage == Synced
    case Return(t) => InStage(s, t) && s.Doing(t).stage == Renamed
    case Fail(t) => InStage(s, t)
    case Crash(left) => SurvivesCrash(s.disk, left) && ReadBack(c, left).Ok?
  }

  function Advance(s: System, t: Thread, stage: Stage, disk: Disk): System
    requires s.Doing(t).Flushing?
  {
    s.(threads := s.threads[t := Flushing(s.Doing(t).pending, stage)], disk := disk)
  }

  ghost function Next(c: Codec, s: System, a: Action): System
    requires Enabled(c, s, a)
  {
    match a
    case Mutate(t, write) =>
      s.(memory := Step(s.memory, write), log := s.log + [write], threads := s.threads[t := Mutated(|s.log|)])
    case BeginFlush(t) =>
      var write := if s.Doing(t).Mutated? then Some(s.Doing(t).write) else None;
      s.(lock := Some(t), threads := s.threads[t := Flushing(write, Locked)])
    case CreateFile(t) => Advance(s, t, Created(0), CreateTmp(s.disk))
    case WriteSome(t, count) => Advance(s, t, Created(count), WriteTmp(s.disk, c.encode(s.memory)[..count]))
    case SyncFile(t) => if s.disk.tmp.Some? then Advance(s, t, Synced, SyncTmp(s.disk)) else s
    case RenameFile(t) => Advance(s, t, Renamed, RenameTmp(s.disk)).(committed := |s.log|)
    case Return(t) =>
      var write := s.Doing(t).pending;
      s.(lock := None, threads := s.threads[t := Idle], acknowledged :=
        s.acknowledged + (if write.Some? then {write.value} else {}))
    case Fail(t) => s.(lock := None, threads := s.threads[t := Idle])
    case Crash(left) =>
      s.(memory := ReadBack(c, left).value, log := s.log[..if s.committed <= |s.log| then s.committed else |s.log|],
         disk := left, lock := None, threads := map[])
  }

  ghost predicate Started(c: Codec, s: System) {
    && s.memory == s.start && s.log == [] && s.committed == 0 && s.acknowledged == {}
    && s.lock.None? && s.threads == map[]
    && ReadBack(c, s.disk) == Ok(s.start) && (s.disk.main.Some? ==> s.disk.main.value.synced)
  }

  // ----- The invariant -----

  /** The temporary file of a flush in progress. */
  predicate TmpReady(c: Codec, s: System, stage: Stage) {
    match stage
    case Locked => true
    case Created(n) => n <= |c.encode(s.memory)| && s.disk.tmp == Some(FileData(c.encode(s.memory)[..n], false))
    case Synced => s.disk.tmp == Some(FileData(c.encode(s.memory), true))
    case Renamed => s.committed == |s.log|
  }

  ghost predicate ThreadsConsistent(c: Codec, s: System) {
    && (forall t: Thread :: s.Doing(t).Flushing? <==> s.lock == Some(t))
    && (forall t: Thread :: s.Doing(t).Mutated? ==> s.Doing(t).write < |s.log|)
    && (forall t: Thread :: s.Doing(t).Flushing? ==>
          (s.Doing(t).pending.Some? ==> s.Doing(t).pending.value < |s.log|) && TmpReady(c, s, s.Doing(t).stage))
  }

  /** Memory is the replay of the log, disk the replay of its committed prefix,
      and every acknowledged write lies in that prefix. */
  ghost predicate Durable(c: Codec, s: System) {
    && s.memory == Replay(s.start, s.log)
    && s.committed <= |s.log|
    && ReadBack(c, s.disk) == Ok(Replay(s.start, s.log[..s.committed]))
    && (s.disk.main.Some? ==> s.disk.main.value.synced)
    && (forall i :: i in s.acknowledged ==> i < s.committed)
  }

  ghost predicate Invariant(c: Codec, s: System) {
    Durable(c, s) && ThreadsConsistent(c, s)
  }

  /** A store as `open` leaves it: loaded, flushed, and nothing going on. */
  function Opened(c: Codec, contents: Contents): System {
    System(contents, contents, [], 0, {}, Flushed(c, contents), None, map[])
  }

  lemma StartedIsInvariant(c: Codec, s: System)
    requires Started(c, s)
    ensures Invariant(c, s)
  {
  }

  lemma OpenedIsStarted(c: Codec, contents: Contents)
    requires Faithful(c)
    ensures Started(c, Opened(c, contents))
  {
    FlushedReadsBack(c, contents);
  }

  lemma StepKeepsDurable(c: Codec, s: System, a: Action)
    requires Faithful(c) && Invariant(c, s) && Enabled(c, s, a)
    ensures Durable(c, Next(c, s, a))
  {
    match a {
      case Mutate(t, write) =>
        ReplayNext(s.start, s.log, write);
        assert (s.log + [write])[..s.committed] == s.log[..s.committed];
      case RenameFile(t) =>
        assert s.log[..|s.log|] == s.log;
        FlushedReadsBack(c, s.memory);
      case Crash(left) =>
        assert s.log[..s.committed][..s.committed] == s.log[..s.committed];
      case _ =>
    }
  }

  lemma StepKeepsThreads(c: Codec, s: System, a: Action)
    requires Faithful(c) && Invariant(c, s) && Enabled(c, s, a)
    ensures ThreadsConsistent(c, Next(c, s, a))
  {
    var s' := Next(c, s, a);
    if a.SyncFile? {
      assert c.encode(s.memory)[..|c.encode(s.memory)|] == c.encode(s.memory);
    }
    if !a.Crash? {
      forall t: Thread | t != a.t
        ensures s'.Doing(t) == s.Doing(t)
      {
      }
    }
  }

  // ----- Histories -----

  /** What later states may not take back: the committed history only grows, and
      acknowledged writes stay acknowledged, where they were. */
  ghost predicate Remembers(s: System, s': System) {
    && s'.start == s.start
    && s.committed <= s'.committed && s.committed <= |s.log| && s'.committed <= |s'.log|
    && s.log[..s.committed] == s'.log[..s.committed]
    && s.acknowledged <= s'.acknowledged
  }

  lemma StepRemembers(c: Codec, s: System, a: Action)
    requires Faithful(c) && Invariant(c, s) && Enabled(c, s, a)
    ensures Remembers(s, Next(c, s, a))
  {
    var s' := Next(c, s, a);
    if a.Mutate? {
      assert (s.log + [a.write])[..s.committed] == s.log[..s.committed];
    } else if a.Crash? {
      assert s.log[..s.committed][..s.committed] == s.log[..s.committed];
    }
  }

  ghost predicate Runs(c: Codec, s: System, actions: seq<Action>)
    decreases |actions|
  {
    actions == [] || (Enabled(c, s, actions[0]) && Runs(c, Next(c, s, actions[0]), actions[1..]))
  }

  ghost function After(c: Codec, s: System, actions: seq<Action>): System
    requires Runs(c, s, actions)
    decreases |actions|
  {
    if actions == [] then s else After(c, Next(c, s, actions[0]), actions[1..])
  }

  lemma RemembersTransitive(a: System, b: System, d: System)
    requires Remembers(a, b) && Remembers(b, d)
    ensures Remembers(a, d)
  {
    assert a.log[..a.committed] == b.log[..b.committed][..a.committed];
    assert d.log[..a.committed] == d.log[..b.committed][..a.committed];
  }

  /** For any number of threads, any interleaving of their critical sections, any
      failures and any crashes: the invariant holds at every point, and nothing
      committed or acknowledged is ever lost. */
  lemma {:induction false} EveryRunIsDurable(c: Codec, s: System, actions: seq<Action>)
    requires Faithful(c) && Invariant(c, s) && Runs(c, s, actions)
    ensures Invariant(c, After(c, s, actions)) && Remembers(s, After(c, s, actions))
    decreases |actions|
  {
    if actions != [] {
      var next := Next(c, s, actions[0]);
      StepKeepsDurable(c, s, actions[0]);
      StepKeepsThreads(c, s, actions[0]);
      StepRemembers(c, s, actions[0]);
      EveryRunIsDurable(c, next, actions[1..]);
      RemembersTransitive(s, next, After(c, s, actions));
    }
  }

  /** An acknowledged write survives: from the moment `put` or `delete` returned
      Ok, after whatever follows, reopening the file replays that very write. */
  lemma AcknowledgedWritesSurvive(c: Codec, s: System, actions: seq<Action>, left: Disk, i: nat)
    requires Faithful(c) && Invariant(c, s) && Runs(c, s, actions) && i in s.acknowledged
    requires SurvivesCrash(After(c, s, actions).disk, left)
    ensures var later := After(c, s, actions);
            && i < later.committed <= |later.log| && later.log[i] == s.log[i]
            && ReadBack(c, left) == Ok(Replay(s.start, later.log[..later.committed]))
  {
    EveryRunIsDurable(c, s, actions);
    var later := After(c, s, actions);
    assert s.log[..s.committed][i] == later.log[..s.committed][i];
  }

  /** What a reader finds after reopening a store that began empty: for every
      reference the last committed value, versioned by the writes since its last
      deletion. */
  lemma ReopenedVersions(c: Codec, s: System, actions: seq<Action>, left: Disk, r: SecretRef)
    requires Faithful(c) && Invariant(c, s) && Runs(c, s, actions) && s.start == map[]
    requires SurvivesCrash(After(c, s, actions).disk, left)
    requires SlashFree(After(c, s, actions).log) && '/' !in r.name
    ensures var later := After(c, s, actions);
            var kept := later.log[..if later.committed <= |later.log| then later.committed else 0];
            && ReadBack(c, left).Ok?
            && (Locator(r) in ReadBack(c, left).value <==> PutsSinceDelete(kept, r) > 0)
            && (Locator(r) in ReadBack(c, left).value ==>
                  LastValue(kept, r).Some?
                  && ReadBack(c, left).value[Locator(r)]
                     == Secret(r, LastValue(kept, r).value, PutsSinceDelete(kept, r)))
  {
    EveryRunIsDurable(c, s, actions);
    var later := After(c, s, actions);
    VersionsCountWrites(later.log[..later.committed], r);
  }

  /** From the moment `open` returned: after any run the invariant holds, and
      whatever was acknowledged by then is replayed by a reopening after any
      further run, crashes included. */
  lemma OpenedStoreIsDurable(c: Codec, contents: Contents, actions: seq<Action>, further: seq<Action>, left: Disk)
    requires Faithful(c) && Runs(c, Opened(c, contents), actions)
    requires Runs(c, After(c, Opened(c, contents), actions), further)
    requires SurvivesCrash(After(c, After(c, Opened(c, contents), actions), further).disk, left)
    ensures var now := After(c, Opened(c, contents), actions);
            var later := After(c, now, further);
            && Invariant(c, now) && now.memory == Replay(contents, now.log)
            && later.committed <= |later.log|
            && ReadBack(c, left) == Ok(Replay(contents, later.log[..later.committed]))
            && forall i :: i in now.acknowledged ==> i < later.committed && i < |now.log| && later.log[i] == now.log[i]
  {
    var s := Opened(c, contents);
    OpenedIsStarted(c, contents);
    StartedIsInvariant(c, s);
    EveryRunIsDurable(c, s, actions);
    var now := After(c, s, actions);
    EveryRunIsDurable(c, now, further);
    var later := After(c, now, further);
    forall i | i in now.acknowledged
      ensures i < later.committed && i < |now.log| && later.log[i] == now.log[i]
    {
      AcknowledgedWritesSurvive(c, now, further, left, i);
    }
  }

  /** For a store that was opened on no file, key by key: a reader finds what was
      last committed under the key, with the count of its writes. */
  lemma NewStoreKeys(c: Codec, actions: seq<Action>, left: Disk, key: string)
    requires Faithful(c) && Runs(c, Opened(c, map[]), actions)
    requires SurvivesCrash(After(c, Opened(c, map[]), actions).disk, left)
    ensures var later := After(c, Opened(c, map[]), actions);
            && later.committed <= |later.log| && ReadBack(c, left).Ok?
            && var kept, found := later.log[..later.committed], ReadBack(c, left).value;
            && (key in found <==> PutsUnder(kept, key) > 0)
            && (key in found ==>
                  && LastUnder(kept, key).Some?
                  && found[key]
                     == Secret(LastUnder(kept, key).value.0, LastUnder(kept, key).value.1, PutsUnder(kept, key)))
  {
    var s := Opened(c, map[]);
    OpenedIsStarted(c, map[]);
    StartedIsInvariant(c, s);
    EveryRunIsDurable(c, s, actions);
    var later := After(c, s, actions);
    KeysCountWrites(later.log[..later.committed], key);
  }

  /** The same in terms of references, where names have no slash. */
  lemma NewStoreVersions(c: Codec, actions: seq<Action>, left: Disk, r: SecretRef)
    requires Faithful(c) && Runs(c, Opened(c, map[]), actions)
    requires SurvivesCrash(After(c, Opened(c, map[]), actions).disk, left)
    requires SlashFree(After(c, Opened(c, map[]), actions).log) && '/' !in r.name
    ensures var later := After(c, Opened(c, map[]), actions);
            && later.committed <= |later.log| && ReadBack(c, left).Ok?
            && var kept, found := later.log[..later.committed], ReadBack(c, left).value;
            && (Locator(r) in found <==> PutsSinceDelete(kept, r) > 0)
            && (Locator(r) in found ==>
                  LastValue(kept, r).Some?
                    && found[Locator(r)] == Secret(r, LastValue(kept, r).value, PutsSinceDelete(kept, r)))
  {
    var s := Opened(c, map[]);
    OpenedIsStarted(c, map[]);
    StartedIsInvariant(c, s);
    EveryRunIsDurable(c, s, actions);
    ReopenedVersions(c, s, actions, left, r);
  }

  /** A crash at any point of a flush leaves the contents committed before it or
      the contents in memory, and never anything else: only the rename moves from
      one to the other. */
  lemma CrashIsAtomic(c: Codec, s: System, a: Action, left: Disk)
    requires Faithful(c) && Invariant(c, s) && Enabled(c, s, a) && !a.Crash?
    requires SurvivesCrash(Next(c, s, a).disk, left)
    ensures ReadBack(c, left) == if a.RenameFile? then Ok(s.memory) else ReadBack(c, s.disk)
  {
    StepKeepsDurable(c, s, a);
    assert s.log[..|s.log|] == s.log;
    if a.Mutate? {
      assert (s.log + [a.write])[..s.committed] == s.log[..s.committed];
    }
  }

  /** Once the latest write is acknowledged, disk and memory agree, whatever
      happened to the writes before it; a completed flush has the same effect. */
  lemma DiskCatchesUp(c: Codec, s: System)
    requires Faithful(c) && Invariant(c, s)
    requires || s.log == [] || |s.log| - 1 in s.acknowledged
             || exists t: Thread :: s.Doing(t).Flushing? && s.Doing(t).stage == Renamed
    ensures ReadBack(c, s.disk) == Ok(s.memory)
  {
    assert s.log[..|s.log|] == s.log;
  }

  // ----- When disk and memory agree -----

  ghost predicate Agree(c: Codec, s: System) {
    ReadBack(c, s.disk) == Ok(s.memory)
  }

  predicate Writes(actions: seq<Action>) {
    exists a :: a in actions && a.Mutate?
  }

  predicate Disturbed(actions: seq<Action>) {
    exists a :: a in actions && (a.Fail? || a.Crash?)
  }

  /** Everything written is committed. */
  predicate CaughtUp(s: System) {
    s.committed == |s.log|
  }

  lemma CaughtUpAgrees(c: Codec, s: System)
    requires Invariant(c, s) && CaughtUp(s)
    ensures Agree(c, s)
  {
    assert s.log[..|s.log|] == s.log;
  }

  lemma StepStaysCaughtUp(c: Codec, s: System, a: Action)
    requires Faithful(c) && Invariant(c, s) && Enabled(c, s, a)
    ensures a.RenameFile? || (CaughtUp(s) && !a.Mutate?) ==> CaughtUp(Next(c, s, a))
  {
  }

  lemma {:induction false} StaysCaughtUp(c: Codec, s: System, actions: seq<Action>)
    requires Faithful(c) && Invariant(c, s) && Runs(c, s, actions)
    requires CaughtUp(s) && !Writes(actions)
    ensures CaughtUp(After(c, s, actions))
    decreases |actions|
  {
    if actions != [] {
      StepStaysCaughtUp(c, s, actions[0]);
      StepKeepsDurable(c, s, actions[0]);
      StepKeepsThreads(c, s, actions[0]);
      StaysCaughtUp(c, Next(c, s, actions[0]), actions[1..]);
    }
  }

  /** Any flush that got as far as its rename makes disk and memory agree, failed
      earlier writes included, and they stay so through returns, other flushes,
      failures and crashes until the next write. */
  lemma RenameSettles(c: Codec, s: System, t: Thread, further: seq<Action>)
    requires Faithful(c) && Invariant(c, s) && Enabled(c, s, RenameFile(t))
    requires Runs(c, Next(c, s, RenameFile(t)), further) && !Writes(further)
    ensures Agree(c, After(c, Next(c, s, RenameFile(t)), further))
  {
    var renamed := Next(c, s, RenameFile(t));
    StepStaysCaughtUp(c, s, RenameFile(t));
    StepKeepsDurable(c, s, RenameFile(t));
    StepKeepsThreads(c, s, RenameFile(t));
    StaysCaughtUp(c, renamed, further);
    EveryRunIsDurable(c, renamed, further);
    CaughtUpAgrees(c, After(c, renamed, further));
  }

  /** A thread still has to acknowledge the write. */
  predicate Pending(s: System, t: Thread, i: nat) {
    s.Doing(t) == Mutated(i) || (s.Doing(t).Flushing? && s.Doing(t).pending == Some(i))
  }

  /** Every write was acknowledged or is on its way. */
  ghost predicate AllAccounted(s: System) {
    forall i: nat :: i < |s.log| ==> i in s.acknowledged || exists t: Thread :: Pending(s, t, i)
  }

  lemma StepAccounts(c: Codec, s: System, a: Action)
    requires Invariant(c, s) && Enabled(c, s, a) && !a.Fail? && !a.Crash? && AllAccounted(s)
    ensures AllAccounted(Next(c, s, a))
  {
    var s' := Next(c, s, a);
    forall i: nat | i < |s'.log|
      ensures i in s'.acknowledged || exists t: Thread :: Pending(s', t, i)
    {
      if i == |s.log| {
        assert Pending(s', a.t, i);
      } else if i !in s.acknowledged {
        var t: Thread :| Pending(s, t, i);
        WriteStaysAccounted(c, s, a, t, i);
      }
    }
  }

  lemma WriteStaysAccounted(c: Codec, s: System, a: Action, t: Thread, i: nat)
    requires Enabled(c, s, a) && !a.Fail? && !a.Crash? && Pending(s, t, i)
    ensures var s' := Next(c, s, a);
            Pending(s', t, i) || i in s'.acknowledged
  {
  }

  lemma {:induction false} RunAccounts(c: Codec, s: System, actions: seq<Action>)
    requires Faithful(c) && Invariant(c, s) && Runs(c, s, actions) && !Disturbed(actions) && AllAccounted(s)
    ensures AllAccounted(After(c, s, actions))
    decreases |actions|
  {
    if actions != [] {
      assert actions[0] in actions;
      StepAccounts(c, s, actions[0]);
      StepKeepsDurable(c, s, actions[0]);
      StepKeepsThreads(c, s, actions[0]);
      RunAccounts(c, Next(c, s, actions[0]), actions[1..]);
    }
  }

  /** When every flush of a run succeeds and all threads have returned, disk and
      memory agree, however the threads were interleaved. */
  lemma QuietDiskIsMemory(c: Codec, contents: Contents, actions: seq<Action>)
    requires Faithful(c) && Runs(c, Opened(c, contents), actions) && !Disturbed(actions)
    requires forall t: Thread :: After(c, Opened(c, contents), actions).Doing(t).Idle?
    ensures Agree(c, After(c, Opened(c, contents), actions))
  {
    var s := Opened(c, contents);
    OpenedIsStarted(c, contents);
    StartedIsInvariant(c, s);
    EveryRunIsDurable(c, s, actions);
    RunAccounts(c, s, actions);
    var quiet := After(c, s, actions);
    assert forall t: Thread, i: nat :: !Pending(quiet, t, i);
    DiskCatchesUp(c, quiet);
  }

  /** A crash never finds the file unreadable, so reopening always works. */
  lemma CrashIsRecoverable(c: Codec, s: System, left: Disk)
    requires Faithful(c) && Invariant(c, s) && SurvivesCrash(s.disk, left)
    ensures ReadBack(c, left).Ok? && Enabled(c, s, Crash(left))
  {
  }

  // ----- Locking -----

  /** While a thread flushes nobody writes memory, so it commits exactly the
      contents it serialised when it took the lock. */
  lemma FlushSeesOneMemory(c: Codec, s: System, a: Action, t: Thread)
    requires Faithful(c) && Invariant(c, s) && Enabled(c, s, a)
    requires s.Doing(t).Flushing? && Next(c, s, a).Doing(t).Flushing?
    ensures Next(c, s, a).memory == s.memory && Next(c, s, a).log == s.log
    ensures forall u: Thread :: u != t ==> Next(c, s, a).Doing(u) == s.Doing(u)
  {
  }

  /** A flush can fail at any stage. It leaves memory, disk and history alone, frees
      the lock, and acknowledges nothing. */
  lemma FailLeaves(c: Codec, s: System, t: Thread)
    requires s.Doing(t).Flushing?
    ensures Enabled(c, s, Fail(t))
    ensures var s' := Next(c, s, Fail(t));
            && s'.memory == s.memory && s'.disk == s.disk && s'.log == s.log && s'.committed == s.committed
            && s'.acknowledged == s.acknowledged && s'.lock.None? && s'.Doing(t).Idle?
            && forall u: Thread :: u != t ==> s'.Doing(u) == s.Doing(u)
  {
  }

  /** A crash loses memory, threads and whatever was not committed, and what follows
      starts from the file. */
  lemma CrashRestarts(c: Codec, s: System, left: Disk)
    requires Faithful(c) && Invariant(c, s) && SurvivesCrash(s.disk, left)
    ensures Enabled(c, s, Crash(left))
    ensures var s' := Next(c, s, Crash(left));
            && StandsFor(c, left, s'.memory) && s'.disk == left && s'.lock.None?
            && s'.log == s.log[..s.committed] && s'.acknowledged == s.acknowledged
            && forall t: Thread :: s'.Doing(t).Idle?
  {
    ReadBackIs(c, left);
  }

  // ----- One thread, undisturbed -----

  function FlushScript(c: Codec, contents: Contents, t: Thread): seq<Action> {
    [BeginFlush(t)]
      + ([CreateFile(t)] + ([WriteSome(t, |c.encode(contents)|)] + ([SyncFile(t)] + ([RenameFile(t)] + [Return(t)]))))
  }

  lemma RunsOn(c: Codec, s: System, a: Action, rest: seq<Action>)
    requires Enabled(c, s, a) && Runs(c, Next(c, s, a), rest)
    ensures Runs(c, s, [a] + rest) && After(c, s, [a] + rest) == After(c, Next(c, s, a), rest)
  {
    assert ([a] + rest)[1..] == rest;
  }

  lemma RenamingCompletes(c: Codec, s: System, t: Thread)
    requires s.Doing(t).Flushing? && s.Doing(t).stage == Synced
    requires s.disk.tmp == Some(FileData(c.encode(s.memory), true))
    ensures Runs(c, s, [RenameFile(t)] + [Return(t)])
    ensures var s' := After(c, s, [RenameFile(t)] + [Return(t)]);
            && s'.memory == s.memory && s'.disk == Flushed(c, s.memory) && s'.log == s.log && s'.committed == |s.log|
            && s'.acknowledged == s.acknowledged + (if s.Doing(t).pending.Some? then {s.Doing(t).pending.value} else {})
  {
    var renamed := Next(c, s, RenameFile(t));
    var returned := Next(c, renamed, Return(t));
    assert Runs(c, returned, []);
    assert [Return(t)] == [Return(t)] + [];
    RunsOn(c, renamed, Return(t), []);
    RunsOn(c, s, RenameFile(t), [Return(t)]);
  }

  lemma FlushCompletes(c: Codec, s: System, t: Thread)
    requires s.lock.None? && !s.Doing(t).Flushing?
    ensures Runs(c, s, FlushScript(c, s.memory, t))
    ensures var s' := After(c, s, FlushScript(c, s.memory, t));
            && s'.memory == s.memory && s'.disk == Flushed(c, s.memory) && s'.log == s.log && s'.committed == |s.log|
            && s'.acknowledged == s.acknowledged + (if s.Doing(t).Mutated? then {s.Doing(t).write} else {})
  {
    var n := |c.encode(s.memory)|;
    assert c.encode(s.memory)[..n] == c.encode(s.memory);
    var begun := Next(c, s, BeginFlush(t));
    var created := Next(c, begun, CreateFile(t));
    var written := Next(c, created, WriteSome(t, n));
    var synced := Next(c, written, SyncFile(t));
    var renaming := [RenameFile(t)] + [Return(t)];
    RenamingCompletes(c, synced, t);
    RunsOn(c, written, SyncFile(t), renaming);
    RunsOn(c, created, WriteSome(t, n), [SyncFile(t)] + renaming);
    RunsOn(c, begun, CreateFile(t), [WriteSome(t, n)] + ([SyncFile(t)] + renaming));
    RunsOn(c, s, BeginFlush(t), [CreateFile(t)] + ([WriteSome(t, n)] + ([SyncFile(t)] + renaming)));
  }

  /** The single-threaded store is the protocol with one thread: an undisturbed
      write runs its steps, leaves memory and disk as `PutSecret` and
      `DeleteSecret` promise, and is acknowledged. */
  lemma UndisturbedWrite(c: Codec, s: System, t: Thread, write: Write)
    requires s.lock.None? && s.Doing(t).Idle? && write.address.name != ""
    ensures var script := [Mutate(t, write)] + FlushScript(c, Step(s.memory, write), t);
            && Runs(c, s, script)
            && After(c, s, script).memory == Step(s.memory, write)
            && After(c, s, script).disk == Flushed(c, Step(s.memory, write))
            && After(c, s, script).log == s.log + [write]
            && |s.log| in After(c, s, script).acknowledged
  {
    var mutated := Next(c, s, Mutate(t, write));
    FlushCompletes(c, mutated, t);
    RunsOn(c, s, Mutate(t, write), FlushScript(c, mutated.memory, t));
  }
}
