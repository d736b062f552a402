/**
 Get-or-create of groups by any number of threads over the spinlock: look up under a shared
 hold, create, give the hold up, take the lock exclusively, insert if still absent.
 The lock takes its own steps; the table is read and written only between them.
 */
module GroupRegistry {
  import opened SharedSpinlock

  type Name = string
  type Group = nat

  /** Where a thread is inside `get`. */
  datatype Stage =
    | Outside
    | Entering(id: Name)
    | Missing(id: Name)
    | Created(id: Name, g: Group)
    | Upgrading(id: Name, g: Group)
    | Found(id: Name, g: Group)
    | Stored(id: Name, g: Group)

  /** `made` records every group ever created and its identifier. A stage holds what the thread
      has in hand: Found and Stored what it is about to return. */
  datatype Registry = Registry(
    lock: Lock,
    stages: seq<Stage>,
    instances: map<Name, Group>,
    made: seq<Name>)

  datatype Event = Call(id: Name) | LockStep(spurious: bool) | Find | Create | Upgrade | Insert | Leave

  function Init(n: nat): Registry {
    Registry(SharedSpinlock.Init(n), seq(n, i => Outside), map[], [])
  }

  function Next(s: Registry, i: nat, e: Event): Registry {
    if i >= |s.stages| || i >= |s.lock.threads| then s
    else
      var stage, pt := s.stages[i], s.lock.threads[i];
      match e
      case Call(id) =>
        if stage.Outside? then
          s.(lock := SharedSpinlock.Next(s.lock, i, CallLockShared), stages := s.stages[i := Entering(id)])
        else s
      case LockStep(spurious) => s.(lock := SharedSpinlock.Next(s.lock, i, Go(spurious)))
      case Find =>
        if stage.Entering? && pt.HoldsShared? then
          s.(stages := s.stages[i := if stage.id in s.instances then Found(stage.id, s.instances[stage.id])
                                     else Missing(stage.id)])
        else s
      case Create =>
        if stage.Missing? then
          s.(stages := s.stages[i := Created(stage.id, |s.made|)], made := s.made + [stage.id])
        else s
      case Upgrade =>
        if stage.Created? then
          s.(lock := SharedSpinlock.Next(s.lock, i, UnlockUpgradeAndLock),
             stages := s.stages[i := Upgrading(stage.id, stage.g)])
        else s
      case Insert =>
        if stage.Upgrading? && pt.HoldsExcl? then
          if stage.id in s.instances then s.(stages := s.stages[i := Stored(stage.id, s.instances[stage.id])])
          else s.(stages := s.stages[i := Stored(stage.id, stage.g)], instances := s.instances[stage.id := stage.g])
        else s
      case Leave =>
        if stage.Found? then
          s.(lock := SharedSpinlock.Next(s.lock, i, UnlockShared), stages := s.stages[i := Outside])
        else if stage.Stored? then
          s.(lock := SharedSpinlock.Next(s.lock, i, Unlock), stages := s.stages[i := Outside])
        else s
  }

  function Run(n: nat, events: seq<(nat, Event)>): Registry {
    if events == [] then Init(n)
    else
      var last := events[|events| - 1];
      Next(Run(n, events[..|events| - 1]), last.0, last.1)
  }

  // ---------------------------------------------------------------- the invariant

  /** Which hold each stage has on the lock. */
  predicate StageHold(stage: Stage, pt: Point) {
    match stage
    case Outside => pt.Idle?
    case Entering(_) => pt.HoldsShared? || ((pt.SharedLoad? || pt.Shared?) && !pt.once)
    case Upgrading(_, _) => pt.HoldsExcl? || ((pt.ExclLoad? || pt.Excl?) && !pt.once)
    case Stored(_, _) => pt.HoldsExcl?
    case _ => pt.HoldsShared?
  }

  predicate StageData(s: Registry, stage: Stage) {
    match stage
    case Created(id, g) => g < |s.made| && s.made[g] == id
    case Upgrading(id, g) => g < |s.made| && s.made[g] == id
    case Found(id, g) => id in s.instances && s.instances[id] == g
    case Stored(id, g) => id in s.instances && s.instances[id] == g
    case _ => true
  }

  ghost predicate Inv(s: Registry) {
    && SharedSpinlock.Inv(s.lock)
    && |s.stages| == |s.lock.threads|
    && (forall i :: 0 <= i < |s.stages| ==> StageHold(s.stages[i], s.lock.threads[i]))
    && (forall i :: 0 <= i < |s.stages| ==> StageData(s, s.stages[i]))
    && (forall id :: id in s.instances ==> s.instances[id] < |s.made| && s.made[s.instances[id]] == id)
  }

  /** Which request an event makes of the lock; a request that changes nothing if none. */
  function Request(s: Registry, i: nat, e: Event): Action
    requires i < |s.stages|
  {
    match e
    case Call(_) => if s.stages[i].Outside? then CallLockShared else UnlockShared
    case LockStep(spurious) => Go(spurious)
    case Upgrade => UnlockUpgradeAndLock
    case Leave => if s.stages[i].Found? then UnlockShared else Unlock
    case _ => Unlock
  }

  lemma LockKept(s: Registry, i: nat, e: Event)
    requires Inv(s)
    ensures var s' := Next(s, i, e);
            SharedSpinlock.Inv(s'.lock) && |s'.stages| == |s'.lock.threads|
  {
    if i < |s.stages| && Next(s, i, e).lock != s.lock {
      SharedSpinlock.NextKeepsInv(s.lock, i, Request(s, i, e));
      NextIsLocal(s.lock, i, Request(s, i, e));
      assert Next(s, i, e).lock == SharedSpinlock.Next(s.lock, i, Request(s, i, e));
    }
  }

  lemma HoldKept(s: Registry, i: nat, e: Event, j: nat)
    requires |s.stages| == |s.lock.threads| && i < |s.stages| && j < |s.stages|
    requires StageHold(s.stages[i], s.lock.threads[i]) && StageHold(s.stages[j], s.lock.threads[j])
    ensures var s' := Next(s, i, e);
            |s'.stages| == |s'.lock.threads| == |s.stages| && StageHold(s'.stages[j], s'.lock.threads[j])
  {
    match e
    case Call(_) =>
    case LockStep(_) =>
    case Find =>
    case Create =>
    case Upgrade =>
    case Insert =>
    case Leave =>
  }

  lemma StageDataKept(s: Registry, i: nat, e: Event, j: nat)
    requires j < |s.stages| && StageData(s, s.stages[j]) && (i < |s.stages| ==> StageData(s, s.stages[i]))
    ensures var s' := Next(s, i, e);
            |s'.stages| == |s.stages| && StageData(s', s'.stages[j])
  {
    match e
    case Call(_) =>
    case LockStep(_) =>
    case Find =>
    case Create =>
    case Upgrade =>
    case Insert =>
    case Leave =>
  }

  lemma TableKept(s: Registry, i: nat, e: Event)
    requires Inv(s)
    ensures var s' := Next(s, i, e);
            forall id :: id in s'.instances ==> s'.instances[id] < |s'.made| && s'.made[s'.instances[id]] == id
  {
    if i < |s.stages| {
      assert StageData(s, s.stages[i]);
    }
  }

  lemma NextKeepsInv(s: Registry, i: nat, e: Event)
    requires Inv(s)
    ensures Inv(Next(s, i, e))
  {
    LockKept(s, i, e);
    TableKept(s, i, e);
    forall j | 0 <= j < |s.stages|
      ensures |Next(s, i, e).stages| == |s.stages| && StageData(Next(s, i, e), Next(s, i, e).stages[j])
    {
      StageDataKept(s, i, e, j);
    }
    if i < |s.stages| {
      forall j | 0 <= j < |s.stages|
        ensures |Next(s, i, e).stages| == |Next(s, i, e).lock.threads| == |s.stages|
        ensures StageHold(Next(s, i, e).stages[j], Next(s, i, e).lock.threads[j])
      {
        HoldKept(s, i, e, j);
      }
      HoldKept(s, i, e, i);
    }
  }

  lemma NextGrows(s: Registry, i: nat, e: Event)
    ensures forall id :: id in s.instances ==> id in Next(s, i, e).instances && Next(s, i, e).instances[id] == s.instances[id]
  {
  }

  lemma {:induction false} RunKeepsInv(n: nat, events: seq<(nat, Event)>)
    ensures Inv(Run(n, events))
  {
    if events == [] {
      SharedSpinlock.FlagCountsHolders(n, []);
    } else {
      var last := events[|events| - 1];
      RunKeepsInv(n, events[..|events| - 1]);
      NextKeepsInv(Run(n, events[..|events| - 1]), last.0, last.1);
    }
  }

  // ---------------------------------------------------------------- the theorems

  /** Whatever was stored or returned by a point of a run is still the group of its identifier
      at every later point: nothing stored is ever replaced. */
  lemma {:induction false} StoredForever(n: nat, events: seq<(nat, Event)>, k: nat, id: Name)
    requires k <= |events| && id in Run(n, events[..k]).instances
    ensures var early, late := Run(n, events[..k]), Run(n, events);
            id in late.instances && late.instances[id] == early.instances[id]
    decreases |events|
  {
    if k == |events| {
      assert events[..k] == events;
    } else {
      var before := events[..|events| - 1];
      assert before[..k] == events[..k];
      StoredForever(n, before, k, id);
      NextGrows(Run(n, before), events[|events| - 1].0, events[|events| - 1].1);
    }
  }

  /** The identifier of thread i's last call: a thread calls when it is outside. */
  function LastCall(n: nat, events: seq<(nat, Event)>, i: nat): Name {
    if events == [] then ""
    else
      var before, (j, e) := events[..|events| - 1], events[|events| - 1];
      var s := Run(n, before);
      if j == i && e.Call? && i < |s.stages| && s.stages[i].Outside? then e.id else LastCall(n, before, i)
  }

  /** Whatever a thread does inside get is about the identifier it was called with. */
  lemma {:induction false} StageIsAboutCall(n: nat, events: seq<(nat, Event)>, i: nat)
    requires i < n
    ensures var s := Run(n, events);
            |s.stages| == |s.lock.threads| == n && (s.stages[i].Outside? || s.stages[i].id == LastCall(n, events, i))
  {
    if events != [] {
      var last := events[|events| - 1];
      StageIsAboutCall(n, events[..|events| - 1], i);
      NextKeepsName(Run(n, events[..|events| - 1]), last.0, last.1, i);
    }
  }

  lemma NextKeepsName(s: Registry, j: nat, e: Event, i: nat)
    requires i < |s.stages| == |s.lock.threads|
    ensures var s' := Next(s, j, e);
            && |s'.stages| == |s'.lock.threads| == |s.stages|
            && (s'.stages[i].Outside?
                || (if s.stages[i].Outside? then j == i && e == Call(s'.stages[i].id)
                    else s'.stages[i].id == s.stages[i].id))
  {
    if j < |s.stages| {
      NextIsLocal(s.lock, j, Request(s, j, e));
      match e
      case Call(_) =>
      case LockStep(_) =>
        NextIsLocal(s.lock, j, Go(e.spurious));
      case Find =>
      case Create =>
      case Upgrade =>
      case Insert =>
      case Leave =>
    }
  }

  /** Event k is thread i returning group g. */
  predicate Returns(n: nat, events: seq<(nat, Event)>, k: nat, i: nat, g: Group) {
    k < |events| && i < n && events[k] == (i, Leave)
    && var s := Run(n, events[..k]);
       i < |s.stages| && (s.stages[i].Found? || s.stages[i].Stored?) && s.stages[i].g == g
  }

  /** A group returned is, at the end of the run, the stored group of the name called for. */
  lemma ReturnedIsStored(n: nat, events: seq<(nat, Event)>, k: nat, i: nat, g: Group)
    requires Returns(n, events, k, i, g)
    ensures var (id, s) := (LastCall(n, events[..k], i), Run(n, events));
            id in s.instances && s.instances[id] == g
  {
    var s := Run(n, events[..k]);
    StageIsAboutCall(n, events[..k], i);
    RunKeepsInv(n, events[..k]);
    assert StageData(s, s.stages[i]);
    StoredForever(n, events, k, s.stages[i].id);
  }

  /** All calls with one identifier return one group, and calls with different identifiers
      return different groups, in every interleaving. */
  lemma OneGroupPerName(n: nat, events: seq<(nat, Event)>, k: nat, i: nat, g: Group, k': nat, i': nat, g': Group)
    requires Returns(n, events, k, i, g) && Returns(n, events, k', i', g')
    ensures LastCall(n, events[..k], i) == LastCall(n, events[..k'], i') <==> g == g'
  {
    ReturnedIsStored(n, events, k, i, g);
    ReturnedIsStored(n, events, k', i', g');
    RunKeepsInv(n, events);
  }

  /** The table is written only by a thread that is alone: no other thread is inside any
      section in which it reads or writes the table. */
  lemma InsertIsAlone(n: nat, events: seq<(nat, Event)>, i: nat, j: nat)
    requires var s := Run(n, events);
             && i < |s.stages| && j < |s.stages| && i != j
             && |s.stages| == |s.lock.threads| && s.stages[i].Upgrading? && s.lock.threads[i].HoldsExcl?
    ensures var s := Run(n, events);
            && !s.lock.threads[j].HoldsShared? && !s.lock.threads[j].HoldsExcl?
            && (s.stages[j].Outside? || s.stages[j].Entering? || s.stages[j].Upgrading?)
  {
    RunKeepsInv(n, events);
    WriterIsAlone(Run(n, events).lock, i, j);
  }

  // ---------------------------------------------------------------- a call that is not disturbed

  /** Steps of one thread. */
  function Play(s: Registry, i: nat, steps: seq<Event>): Registry
    decreases |steps|
  {
    if steps == [] then s else Play(Next(s, i, steps[0]), i, steps[1..])
  }

  lemma {:induction false} PlayAppend(s: Registry, i: nat, a: seq<Event>, b: seq<Event>)
    ensures Play(s, i, a + b) == Play(Play(s, i, a), i, b)
    decreases |a|
  {
    if a == [] {
      assert a + b == b;
    } else {
      assert (a + b)[1..] == a[1..] + b;
      PlayAppend(Next(s, i, a[0]), i, a[1..], b);
    }
  }

  const LOOK_UP: seq<Event> := [LockStep(false), LockStep(false), Find]
  const STORE: seq<Event> := [Create, Upgrade, LockStep(false), LockStep(false), Insert]

  lemma ThreePlays(s: Registry, i: nat, a: Event, b: Event, c: Event)
    ensures Play(s, i, [a, b, c]) == Next(Next(Next(s, i, a), i, b), i, c)
  {
    var s1 := Next(s, i, a);
    var s2 := Next(s1, i, b);
    assert [a, b, c][1..] == [b, c] && [b, c][1..] == [c] && [c][1..] == [];
    assert Play(s1, i, [b, c]) == Play(s2, i, [c]);
    assert Play(s2, i, [c]) == Play(Next(s2, i, c), i, []);
  }

  /** Calling and looking up: the thread then holds the lock shared and knows the answer. */
  lemma LooksUp(s: Registry, i: nat, id: Name)
    requires i < |s.stages| == |s.lock.threads| && s.stages[i] == Outside && s.lock.threads[i] == Idle && s.lock.flag >= 0
    ensures Play(Next(s, i, Call(id)), i, LOOK_UP) ==
            s.(lock := Move(s.lock, i, s.lock.flag + 1, HoldsShared),
               stages := s.stages[i := if id in s.instances then Found(id, s.instances[id]) else Missing(id)])
  {
    var s1 := Next(s, i, Call(id));
    ThreePlays(s1, i, LockStep(false), LockStep(false), Find);
    LockAlone(s.lock, i, 0);
    var s3 := Next(Next(s1, i, LockStep(false)), i, LockStep(false));
    assert s3.lock == Alone(s.lock, i, CallLockShared, 0);
    assert s3 == s.(lock := Move(s.lock, i, s.lock.flag + 1, HoldsShared), stages := s.stages[i := Entering(id)]);
    assert s.stages[i := Entering(id)][i := Found(id, 0)] == s.stages[i := Found(id, 0)];
  }

  /** Creating, upgrading and inserting. */
  lemma Stores(s: Registry, i: nat, id: Name)
    requires i < |s.stages| == |s.lock.threads| && s.stages[i] == Missing(id) && id !in s.instances
    requires s.lock.threads[i] == HoldsShared && s.lock.flag == 1
    ensures Play(s, i, STORE) ==
            Registry(Move(s.lock, i, MIN_LONG, HoldsExcl), s.stages[i := Stored(id, |s.made|)],
                     s.instances[id := |s.made|], s.made + [id])
  {
    var g := |s.made|;
    var s1 := Next(s, i, Create);
    assert s1 == s.(stages := s.stages[i := Created(id, g)], made := s.made + [id]);
    assert STORE[1..] == [Upgrade, LockStep(false), LockStep(false)] + [Insert];
    PlayAppend(s1, i, [Upgrade, LockStep(false), LockStep(false)], [Insert]);
    var s4 := Play(s1, i, [Upgrade, LockStep(false), LockStep(false)]);
    UpgradesAlone(s1, i, id, g);
    assert s1.stages[i := Upgrading(id, g)] == s.stages[i := Upgrading(id, g)];
    assert [Insert][1..] == [] && Play(s4, i, [Insert]) == Play(Next(s4, i, Insert), i, []);
    assert s4.stages[i := Stored(id, g)] == s.stages[i := Stored(id, g)];
  }

  lemma UpgradesAlone(s: Registry, i: nat, id: Name, g: Group)
    requires i < |s.stages| == |s.lock.threads| && s.stages[i] == Created(id, g)
    requires s.lock.threads[i] == HoldsShared && s.lock.flag == 1
    ensures Play(s, i, [Upgrade, LockStep(false), LockStep(false)]) ==
            s.(lock := Move(s.lock, i, MIN_LONG, HoldsExcl), stages := s.stages[i := Upgrading(id, g)])
  {
    ThreePlays(s, i, Upgrade, LockStep(false), LockStep(false));
    ChangeOfHold(s.lock, i, 0);
    var s3 := Next(Next(Next(s, i, Upgrade), i, LockStep(false)), i, LockStep(false));
    assert s3.lock == Alone(s.lock, i, UnlockUpgradeAndLock, 0);
  }

  /** What a call for id has in hand at its end, and what it leaves behind. */
  function GroupFor(s: Registry, id: Name): Group {
    if id in s.instances then s.instances[id] else |s.made|
  }

  function WithGroup(s: Registry, id: Name): Registry {
    if id in s.instances then s
    else s.(instances := s.instances[id := |s.made|], made := s.made + [id])
  }

  function GetSteps(s: Registry, id: Name): seq<Event> {
    if id in s.instances then LOOK_UP else LOOK_UP + STORE
  }

  /** Thread i is outside. */
  predicate Ready(s: Registry, i: nat) {
    i < |s.stages| == |s.lock.threads| && s.stages[i] == Outside && s.lock.threads[i] == Idle
  }

  predicate Ends(s: Registry, t: Registry, i: nat, id: Name) {
    && i < |t.stages| && (t.stages[i].Found? || t.stages[i].Stored?)
    && t.stages[i].id == id && t.stages[i].g == GroupFor(s, id)
    && Next(t, i, Leave) == WithGroup(s, id)
  }

  lemma GetFinds(s: Registry, i: nat, id: Name)
    requires Ready(s, i) && s.lock.flag >= 0 && id in s.instances
    ensures Ends(s, Play(Next(s, i, Call(id)), i, LOOK_UP), i, id)
  {
    LooksUp(s, i, id);
    UnlockRestores(s.lock, i);
    assert s.stages[i := Found(id, s.instances[id])][i := Outside] == s.stages;
  }

  lemma GetCreates(s: Registry, i: nat, id: Name)
    requires Ready(s, i) && s.lock.flag == 0 && id !in s.instances
    ensures Ends(s, Play(Next(s, i, Call(id)), i, LOOK_UP + STORE), i, id)
  {
    var g, s1 := |s.made|, Next(s, i, Call(id));
    var s4 := Play(s1, i, LOOK_UP);
    PlayAppend(s1, i, LOOK_UP, STORE);
    LooksUp(s, i, id);
    Stores(s4, i, id);
    MoveTwice(s.lock, i, 1, HoldsShared, MIN_LONG, HoldsExcl);
    assert s4.stages[i := Stored(id, g)] == s.stages[i := Stored(id, g)];
    Leaves(s, i, id, g);
  }

  lemma Leaves(s: Registry, i: nat, id: Name, g: Group)
    requires Ready(s, i) && s.lock.flag == 0 && id !in s.instances && g == |s.made|
    ensures Next(Registry(Move(s.lock, i, MIN_LONG, HoldsExcl), s.stages[i := Stored(id, g)],
                          s.instances[id := g], s.made + [id]), i, Leave) == WithGroup(s, id)
  {
    UnlockRestores(s.lock, i);
    assert s.stages[i := Stored(id, g)][i := Outside] == s.stages;
  }

  /** From every state of every run: a call by a thread that is outside, not disturbed and not
      kept out by a holder of the lock, comes to its end. It returns the stored group of its
      identifier, or a new one that is then stored, and leaves everything else as it was. */
  lemma GetCompletes(n: nat, events: seq<(nat, Event)>, i: nat, id: Name)
    requires i < |Run(n, events).stages| && Run(n, events).stages[i] == Outside
    requires Run(n, events).lock.flag == 0 || (Run(n, events).lock.flag > 0 && id in Run(n, events).instances)
    ensures var s := Run(n, events);
            Ends(s, Play(Next(s, i, Call(id)), i, GetSteps(s, id)), i, id)
  {
    RunKeepsInv(n, events);
    var s := Run(n, events);
    assert StageHold(s.stages[i], s.lock.threads[i]);
    if id in s.instances {
      GetFinds(s, i, id);
    } else {
      GetCreates(s, i, id);
    }
  }
}
