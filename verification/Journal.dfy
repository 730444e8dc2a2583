/** The launch journal: concurrent launchers, one exclusive lock file, one growing list of numbers. */
module Journal {
  import opened Wrappers

  type Pid = nat

  datatype Entry = Entry(number: int, profileDigest: string, startedAt: int)

  /** Where a launcher stands. A dead one stopped somewhere on the way. */
  datatype Stage =
    | Outside
    | Locked
    | Counted(number: int)
    | Running(number: int)
    | Dead

  /** The two files, and the launchers that share them. */
  datatype World = World(lock: Option<Pid>, journal: seq<Entry>, stages: map<Pid, Stage>)

  function StageOf(w: World, p: Pid): Stage {
    if p in w.stages then w.stages[p] else Outside
  }

  function NextNumber(journal: seq<Entry>): int {
    if journal == [] then 1 else journal[|journal| - 1].number + 1
  }

  datatype Action =
    | TakeLock(p: Pid)
    | ReadNumber(p: Pid)
    | AppendEntry(p: Pid, profileDigest: string, startedAt: int)
    | Release(p: Pid)
    | Die(p: Pid)
    | ClearLock

  /** Inside the launch, and alive. */
  predicate Inside(stage: Stage) {
    stage.Locked? || stage.Counted? || stage.Running?
  }

  /** The operator clears a lock only after the launcher that holds it is dead. */
  predicate HolderIsDead(w: World) {
    w.lock.Some? && StageOf(w, w.lock.value).Dead?
  }

  predicate Enabled(w: World, a: Action) {
    match a
    case TakeLock(p) => StageOf(w, p).Outside? && w.lock.None?
    case ReadNumber(p) => StageOf(w, p).Locked?
    case AppendEntry(p, _, _) => StageOf(w, p).Counted?
    case Release(p) => Inside(StageOf(w, p))
    case Die(p) => !StageOf(w, p).Dead?
    case ClearLock => HolderIsDead(w)
  }

  /** One atomic step: an exclusive creation, a reading, an append, a deletion. */
  function Apply(w: World, a: Action): World {
    match a
    case TakeLock(p) => World(Some(p), w.journal, w.stages[p := Locked])
    case ReadNumber(p) => w.(stages := w.stages[p := Counted(NextNumber(w.journal))])
    case AppendEntry(p, digest, at) =>
      var number := if StageOf(w, p).Counted? then StageOf(w, p).number else 0;
      World(w.lock, w.journal + [Entry(number, digest, at)], w.stages[p := Running(number)])
    case Release(p) => World(None, w.journal, w.stages[p := Outside])
    case Die(p) => w.(stages := w.stages[p := Dead])
    case ClearLock => w.(lock := None)
  }

  const START := World(None, [], map[])

  /** Any interleaving of any launchers, deaths included. */
  predicate IsRun(worlds: seq<World>, actions: seq<Action>) {
    && |worlds| == |actions| + 1
    && worlds[0] == START
    && forall i :: 0 <= i < |actions| ==>
        Enabled(worlds[i], actions[i]) && worlds[i + 1] == Apply(worlds[i], actions[i])
  }

  // --- what every step keeps ---------------------------------------------------------

  predicate NumbersInOrder(journal: seq<Entry>) {
    forall i :: 0 <= i < |journal| ==> journal[i].number == i + 1
  }

  /** The lock names whoever is inside, and what he counted is still true. */
  ghost predicate Safe(w: World) {
    && NumbersInOrder(w.journal)
    && (forall p: Pid :: Inside(StageOf(w, p)) ==> w.lock == Some(p))
    && (forall p: Pid :: StageOf(w, p).Counted? ==> StageOf(w, p).number == |w.journal| + 1)
    && (forall p: Pid :: StageOf(w, p).Running? ==> StageOf(w, p).number == |w.journal|)
  }

  lemma StepKeepsSafe(w: World, a: Action)
    requires Safe(w) && Enabled(w, a)
    ensures Safe(Apply(w, a))
  {
    var v := Apply(w, a);
    forall p: Pid
      ensures StageOf(v, p) == if !a.ClearLock? && a.p == p then StageOf(v, p) else StageOf(w, p)
    {
    }
  }

  lemma {:induction false} RunsAreSafe(worlds: seq<World>, actions: seq<Action>, i: nat)
    requires IsRun(worlds, actions) && i < |worlds|
    ensures Safe(worlds[i])
  {
    hide Safe, Enabled, Apply;
    if i == 0 {
      StartIsSafe();
    } else {
      RunsAreSafe(worlds, actions, i - 1);
      assert worlds[i - 1 + 1] == Apply(worlds[i - 1], actions[i - 1]);
      StepKeepsSafe(worlds[i - 1], actions[i - 1]);
    }
  }

  lemma StartIsSafe()
    ensures Safe(START)
  {
  }

  /** Mutual exclusion: at most one launcher is ever inside a launch. */
  lemma OneLaunchAtATime(worlds: seq<World>, actions: seq<Action>, i: nat, p: Pid, q: Pid)
    requires IsRun(worlds, actions) && i < |worlds|
    requires Inside(StageOf(worlds[i], p)) && Inside(StageOf(worlds[i], q))
    ensures p == q
  {
    RunsAreSafe(worlds, actions, i);
  }

  /** The journal is exactly 1, 2, 3 ... in the order of the launches. */
  lemma NumbersAreOneToN(worlds: seq<World>, actions: seq<Action>, i: nat, k: nat)
    requires IsRun(worlds, actions) && i < |worlds| && k < |worlds[i].journal|
    ensures worlds[i].journal[k].number == k + 1
  {
    RunsAreSafe(worlds, actions, i);
  }

  /** What was written stays: a launch consumes its number for good, a crashed one included. */
  lemma {:induction false} JournalOnlyGrows(worlds: seq<World>, actions: seq<Action>, i: nat, j: nat)
    requires IsRun(worlds, actions) && i <= j < |worlds|
    ensures worlds[i].journal <= worlds[j].journal
    decreases j
  {
    if i < j {
      JournalOnlyGrows(worlds, actions, i, j - 1);
      assert worlds[j - 1 + 1] == Apply(worlds[j - 1], actions[j - 1]);
    }
  }

  /** How many launches began in the steps i .. j-1. */
  function Launches(actions: seq<Action>, i: nat, j: nat): nat
    requires i <= j <= |actions|
    decreases j - i
  {
    if i == j then 0 else Launches(actions, i, j - 1) + if actions[j - 1].AppendEntry? then 1 else 0
  }

  lemma {:induction false} NumbersCountLaunches(worlds: seq<World>, actions: seq<Action>, i: nat, j: nat)
    requires IsRun(worlds, actions) && i <= j <= |actions|
    ensures |worlds[j].journal| == |worlds[i].journal| + Launches(actions, i, j)
    decreases j
  {
    if i < j {
      NumbersCountLaunches(worlds, actions, i, j - 1);
      assert worlds[j - 1 + 1] == Apply(worlds[j - 1], actions[j - 1]);
    }
  }

  /** Two launches carry neighbouring numbers exactly when no launch began between them; and the
      second began only after the first was over. */
  lemma NeighboursHaveNothingBetween(worlds: seq<World>, actions: seq<Action>, i: nat, j: nat)
    requires IsRun(worlds, actions) && i < j < |actions| && actions[i].AppendEntry? && actions[j].AppendEntry?
    ensures var first, second := worlds[i + 1].journal[|worlds[i].journal|], worlds[j + 1].journal[|worlds[j].journal|];
            first.number + 1 == second.number <==> Launches(actions, i + 1, j) == 0
    ensures StageOf(worlds[i], actions[i].p).Counted? && StageOf(worlds[i + 1], actions[i].p).Running?
    ensures !(StageOf(worlds[j], actions[i].p).Running?)
  {
    hide Safe;
    RunsAreSafe(worlds, actions, i + 1);
    RunsAreSafe(worlds, actions, j + 1);
    NumbersCountLaunches(worlds, actions, i, i + 1);
    NumbersCountLaunches(worlds, actions, i + 1, j);
    SafeNumbers(worlds[i + 1], |worlds[i].journal|);
    SafeNumbers(worlds[j + 1], |worlds[j].journal|);
    assert StageOf(worlds[j], actions[j].p).Counted?;
    if StageOf(worlds[j], actions[i].p).Running? {
      OneLaunchAtATime(worlds, actions, j, actions[i].p, actions[j].p);
    }
  }

  lemma SafeNumbers(w: World, k: nat)
    requires Safe(w) && k < |w.journal|
    ensures w.journal[k].number == k + 1
  {
  }

  // --- why the lock is never taken from a live launcher ----------------------------------

  /** What follows when a lock is cleared under a launcher that has counted and is still alive:
      another one takes the lock, counts and writes, and then the first one writes too. */
  function AfterTheft(w: World, p: Pid, q: Pid): World {
    var counted := Apply(Apply(Apply(w, ClearLock), TakeLock(q)), ReadNumber(q));
    Apply(Apply(counted, AppendEntry(q, "", 0)), AppendEntry(p, "", 0))
  }

  /** Clearing the lock of a live launcher is all it takes to give one number out twice, wherever
      it happens: every other step is one that its launcher was free to take. */
  lemma StolenLockRepeatsANumber(w: World, p: Pid, q: Pid)
    requires Safe(w) && StageOf(w, p).Counted? && StageOf(w, q).Outside?
    ensures !Enabled(w, ClearLock)
    ensures var cleared := Apply(w, ClearLock);
            var taken := Apply(cleared, TakeLock(q));
            var counted := Apply(taken, ReadNumber(q));
            && Enabled(cleared, TakeLock(q)) && Enabled(taken, ReadNumber(q))
            && Enabled(counted, AppendEntry(q, "", 0))
            && Enabled(Apply(counted, AppendEntry(q, "", 0)), AppendEntry(p, "", 0))
    ensures var journal := AfterTheft(w, p, q).journal;
            |journal| == |w.journal| + 2 && journal[|w.journal|].number == journal[|w.journal| + 1].number
  {
    var cleared := Apply(w, ClearLock);
    var taken := Apply(cleared, TakeLock(q));
    var counted := Apply(taken, ReadNumber(q));
    assert StageOf(taken, p) == StageOf(w, p) && taken.journal == w.journal;
    assert StageOf(counted, q) == Counted(|w.journal| + 1) && StageOf(counted, p) == StageOf(w, p);
    assert StageOf(Apply(counted, AppendEntry(q, "", 0)), p) == StageOf(w, p);
  }

  // --- the code, step by step -------------------------------------------------------------

  /** One launcher's view: every method is one access to the shared files. */
  class LaunchJournal {
    var world: World

    constructor ()
      ensures world == START
    {
      world := START;
    }

    /** Creation that fails when the file is there already. */
    method Take(p: Pid) returns (ok: bool)
      requires StageOf(world, p).Outside?
      modifies this
      ensures ok <==> old(world).lock.None?
      ensures ok ==> Enabled(old(world), TakeLock(p)) && world == Apply(old(world), TakeLock(p))
      ensures !ok ==> world == old(world)
    {
      if world.lock.Some? {
        return false;
      }
      world := World(Some(p), world.journal, world.stages[p := Locked]);
      return true;
    }

    /** The number is read under the lock. */
    method Count(p: Pid) returns (number: int)
      requires StageOf(world, p).Locked?
      modifies this
      ensures Enabled(old(world), ReadNumber(p)) && world == Apply(old(world), ReadNumber(p))
      ensures StageOf(world, p) == Counted(number)
    {
      number := if world.journal == [] then 1 else world.journal[|world.journal| - 1].number + 1;
      world := world.(stages := world.stages[p := Counted(number)]);
    }

    /** The entry is written when the run starts. */
    method Append(p: Pid, number: int, profileDigest: string, startedAt: int) returns (entry: Entry)
      requires StageOf(world, p) == Counted(number)
      modifies this
      ensures entry == Entry(number, profileDigest, startedAt)
      ensures Enabled(old(world), AppendEntry(p, profileDigest, startedAt))
      ensures world == Apply(old(world), AppendEntry(p, profileDigest, startedAt))
    {
      entry := Entry(number, profileDigest, startedAt);
      world := World(world.lock, world.journal + [entry], world.stages[p := Running(number)]);
    }

    method Leave(p: Pid)
      requires Inside(StageOf(world, p))
      modifies this
      ensures Enabled(old(world), Release(p)) && world == Apply(old(world), Release(p))
    {
      world := World(None, world.journal, world.stages[p := Outside]);
    }

    /** A whole launch with nobody else about: the lock is free again at the end, whether the run
        succeeded or not, and its number is the next one. */
    method Launch(p: Pid, profileDigest: string, startedAt: int) returns (r: Result<Entry, ()>)
      requires Safe(world) && StageOf(world, p).Outside?
      modifies this
      ensures Safe(world)
      ensures r.Err? <==> old(world).lock.Some?
      ensures r.Err? ==> world == old(world)
      ensures r.Ok? ==> world.lock.None? && r.value.number == |old(world).journal| + 1
      ensures r.Ok? ==>
                world.journal == old(world).journal + [Entry(|old(world).journal| + 1, profileDigest, startedAt)]
    {
      hide Apply, Safe;
      var taken := Take(p);
      if !taken {
        return Err(());
      }
      StepKeepsSafe(old(world), TakeLock(p));
      LockedStage(old(world), p);
      ghost var locked := world;
      var number := Count(p);
      StepKeepsSafe(locked, ReadNumber(p));
      CountedStage(locked, p);
      ghost var counted := world;
      var entry := Append(p, number, profileDigest, startedAt);
      StepKeepsSafe(counted, AppendEntry(p, profileDigest, startedAt));
      RunningStage(counted, p, profileDigest, startedAt);
      ghost var running := world;
      Leave(p);
      StepKeepsSafe(running, Release(p));
      ReleasedStage(running, p);
      return Ok(entry);
    }
  }

  lemma LockedStage(w: World, p: Pid)
    ensures var v := Apply(w, TakeLock(p)); StageOf(v, p).Locked? && v.journal == w.journal
  {
  }

  lemma CountedStage(w: World, p: Pid)
    requires Safe(w)
    ensures var v := Apply(w, ReadNumber(p)); StageOf(v, p) == Counted(|w.journal| + 1) && v.journal == w.journal
  {
  }

  lemma RunningStage(w: World, p: Pid, digest: string, at: int)
    requires StageOf(w, p).Counted?
    ensures var v := Apply(w, AppendEntry(p, digest, at));
            StageOf(v, p).Running? && v.journal == w.journal + [Entry(StageOf(w, p).number, digest, at)]
  {
  }

  lemma ReleasedStage(w: World, p: Pid)
    ensures var v := Apply(w, Release(p)); v.lock.None? && v.journal == w.journal
  {
  }
}
