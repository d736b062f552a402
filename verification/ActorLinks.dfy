/**
 Links between actors. Linking and unlinking change the lists of two actors, each under its
 own mutex: the operation keeps the mutex of its own actor while it takes the other one.
 A step is one section under a mutex, or taking one.
 */
module ActorLinks {
  import opened Attachables

  datatype Item = Link(who: nat) | Other(id: nat)

  /** How far an operation towards actor b has come. */
  datatype Stage =
    | LinkBegin(b: nat)
    | LinkBack(b: nat)   // own actor is alive; wants the mutex of b
    | LinkBoth(b: nat)   // has both mutexes
    | LinkOwn(b: nat)    // b has its entry and is free again
    | UnlinkBegin(b: nat)
    | UnlinkBack(b: nat) // own entry is gone; wants the mutex of b
    | UnlinkBoth(b: nat) // has both mutexes

  /** A mutex is free, held by an operation of its own actor, or lent to one of another actor. */
  datatype Mutex = Free | Own(stage: Stage) | Lent(to: nat)

  datatype Actor = Actor(exit: nat, list: seq<Item>, mutex: Mutex)

  type System = seq<Actor>

  datatype Event =
    | StartLink(a: nat, b: nat)
    | StartUnlink(a: nat, b: nat)
    | Step(a: nat)
    | Exit(a: nat, reason: nat)
    | AttachOther(a: nat, id: nat)

  function IsLink(b: nat): Item -> bool {
    (x: Item) => x == Link(b)
  }

  predicate Linked(list: seq<Item>, b: nat) {
    Hits(IsLink(b), list) > 0
  }

  function Init(actors: nat): System {
    seq(actors, i => Actor(NOT_EXITED, [], Free))
  }

  /** The next step of the operation of actor a, whose own record is x and whose partner's
      record is y. Waiting for a mutex changes nothing. */
  function Advance(a: nat, x: Actor, y: Actor): (Actor, Actor)
    requires x.mutex.Own?
  {
    match x.mutex.stage
    case LinkBegin(b) =>
      if x.exit != NOT_EXITED then (x.(mutex := Free), y) else (x.(mutex := Own(LinkBack(b))), y)
    case LinkBack(b) =>
      if y.mutex.Free? then (x.(mutex := Own(LinkBoth(b))), y.(mutex := Lent(a))) else (x, y)
    case LinkBoth(b) =>
      if y.exit != NOT_EXITED || Linked(y.list, a) then (x.(mutex := Free), y.(mutex := Free))
      else (x.(mutex := Own(LinkOwn(b))), y.(mutex := Free, list := [Link(a)] + y.list))
    case LinkOwn(b) =>
      (x.(mutex := Free, list := [Link(b)] + x.list), y)
    case UnlinkBegin(b) =>
      if Linked(x.list, b) then (x.(mutex := Own(UnlinkBack(b)), list := WithoutFirst(IsLink(b), x.list)), y)
      else (x.(mutex := Free), y)
    case UnlinkBack(b) =>
      if y.mutex.Free? then (x.(mutex := Own(UnlinkBoth(b))), y.(mutex := Lent(a))) else (x, y)
    case UnlinkBoth(b) =>
      (x.(mutex := Free), y.(mutex := Free, list := WithoutFirst(IsLink(a), y.list)))
  }

  predicate CanStart(s: System, a: nat, b: nat) {
    a < |s| && b < |s| && a != b && s[a].mutex.Free?
  }

  function Next(s: System, e: Event): System {
    match e
    case StartLink(a, b) => if CanStart(s, a, b) then s[a := s[a].(mutex := Own(LinkBegin(b)))] else s
    case StartUnlink(a, b) => if CanStart(s, a, b) then s[a := s[a].(mutex := Own(UnlinkBegin(b)))] else s
    case Step(a) =>
      if a < |s| && s[a].mutex.Own? && s[a].mutex.stage.b < |s| then
        var b := s[a].mutex.stage.b;
        var (x, y) := Advance(a, s[a], s[b]);
        s[b := y][a := x]
      else s
    case Exit(a, reason) =>
      if a < |s| && s[a].mutex.Free? && s[a].exit == NOT_EXITED && reason != NOT_EXITED then
        s[a := Actor(reason, [], Free)]
      else s
    case AttachOther(a, id) =>
      if a < |s| && s[a].mutex.Free? && s[a].exit == NOT_EXITED then
        s[a := s[a].(list := [Other(id)] + s[a].list)]
      else s
  }

  function Run(actors: nat, events: seq<Event>): System {
    if events == [] then Init(actors)
    else Next(Run(actors, events[..|events| - 1]), events[|events| - 1])
  }

  // ---------------------------------------------------------------- the invariant

  function Entries(x: Actor, b: nat): nat {
    multiset(x.list)[Link(b)]
  }

  /** x is about to get an entry for b, which already has one for it. */
  predicate Adding(x: Actor, b: nat) {
    x.mutex == Own(LinkOwn(b))
  }

  /** x has dropped its entry for b, which is about to drop its own. */
  predicate Dropping(x: Actor, b: nat) {
    x.mutex == Own(UnlinkBack(b)) || x.mutex == Own(UnlinkBoth(b))
  }

  /** Does the partner's mutex belong to this actor's operation? */
  predicate HasBoth(x: Actor, b: nat) {
    x.mutex == Own(LinkBoth(b)) || x.mutex == Own(UnlinkBoth(b))
  }

  /** The entries of x for b once the operations between the two are through. */
  function Settled(a: nat, x: Actor, b: nat, y: Actor): int {
    Entries(x, b) + (if Adding(x, b) then 1 else 0) - if Dropping(y, a) then 1 else 0
  }

  /** What one actor keeps towards b on its own. */
  predicate SideInv(a: nat, x: Actor, b: nat) {
    && Entries(x, b) <= (if a == b || x.exit != NOT_EXITED then 0 else 1)
    && (Adding(x, b) || Dropping(x, b) ==> Entries(x, b) == 0)
    && (x.mutex == Own(LinkBack(b)) || x.mutex == Own(LinkBoth(b)) || Adding(x, b) ==> x.exit == NOT_EXITED)
  }

  predicate PairInv(a: nat, x: Actor, b: nat, y: Actor) {
    && SideInv(a, x, b) && SideInv(b, y, a)
    && (y.mutex == Lent(a) <==> HasBoth(x, b))
    && (x.mutex == Lent(b) <==> HasBoth(y, a))
    && (x.exit == NOT_EXITED && y.exit == NOT_EXITED ==> Settled(a, x, b, y) == Settled(b, y, a, x))
  }

  predicate ActorInv(n: nat, a: nat, x: Actor) {
    && Entries(x, a) == 0
    && (x.mutex.Own? ==> x.mutex.stage.b < n && x.mutex.stage.b != a)
    && (x.mutex.Lent? ==> x.mutex.to < n && x.mutex.to != a)
  }

  ghost predicate Inv(s: System) {
    && (forall a :: 0 <= a < |s| ==> ActorInv(|s|, a, s[a]))
    && (forall a, b :: 0 <= a < |s| && 0 <= b < |s| && a != b ==> PairInv(a, s[a], b, s[b]))
  }

  // ---------------------------------------------------------------- lists and counts

  lemma HeadCount(x: Item, list: seq<Item>, b: nat)
    ensures multiset([x] + list)[Link(b)] == multiset(list)[Link(b)] + if x == Link(b) then 1 else 0
  {
  }

  lemma {:induction false} LinkedMeaning(list: seq<Item>, b: nat)
    ensures Linked(list, b) <==> multiset(list)[Link(b)] > 0
  {
    if list != [] {
      LinkedMeaning(list[1..], b);
      assert list == [list[0]] + list[1..];
      HeadCount(list[0], list[1..], b);
    }
  }

  lemma {:induction false} RemovalCount(list: seq<Item>, b: nat, c: nat)
    requires multiset(list)[Link(b)] > 0
    ensures multiset(WithoutFirst(IsLink(b), list))[Link(c)] == multiset(list)[Link(c)] - if b == c then 1 else 0
  {
    assert list != [];
    assert list == [list[0]] + list[1..];
    HeadCount(list[0], list[1..], b);
    HeadCount(list[0], list[1..], c);
    if list[0] != Link(b) {
      RemovalCount(list[1..], b, c);
      HeadCount(list[0], WithoutFirst(IsLink(b), list[1..]), c);
    }
  }

  /** Removing an entry that is not there changes nothing. */
  lemma {:induction false} RemovalOfNone(list: seq<Item>, b: nat)
    requires multiset(list)[Link(b)] == 0
    ensures WithoutFirst(IsLink(b), list) == list
  {
    if list != [] {
      assert list == [list[0]] + list[1..];
      HeadCount(list[0], list[1..], b);
      RemovalOfNone(list[1..], b);
    }
  }

  lemma AdvanceCounts(a: nat, x: Actor, y: Actor, c: nat)
    requires x.mutex.Own?
    ensures var (b, g, (x', y')) := (x.mutex.stage.b, x.mutex.stage, Advance(a, x, y));
            && x'.exit == x.exit && y'.exit == y.exit
            && Entries(x', c) == Entries(x, c) + (if g.LinkOwn? && c == b then 1 else 0)
                 - (if g.UnlinkBegin? && c == b && Entries(x, b) > 0 then 1 else 0)
            && Entries(y', c) == Entries(y, c)
                 + (if g.LinkBoth? && y.exit == NOT_EXITED && Entries(y, a) == 0 && c == a then 1 else 0)
                 - (if g.UnlinkBoth? && c == a && Entries(y, a) > 0 then 1 else 0)
  {
    OwnCounts(a, x, y, c);
    OtherCounts(a, x, y, c);
  }

  lemma OwnCounts(a: nat, x: Actor, y: Actor, c: nat)
    requires x.mutex.Own?
    ensures var (b, g, x') := (x.mutex.stage.b, x.mutex.stage, Advance(a, x, y).0);
            && x'.exit == x.exit
            && Entries(x', c) == Entries(x, c) + (if g.LinkOwn? && c == b then 1 else 0)
                 - (if g.UnlinkBegin? && c == b && Entries(x, b) > 0 then 1 else 0)
  {
    var b, x' := x.mutex.stage.b, Advance(a, x, y).0;
    match x.mutex.stage
    case LinkOwn(_) => AddedEntries(x, x', b, c);
    case UnlinkBegin(_) =>
      LinkedMeaning(x.list, b);
      if Linked(x.list, b) {
        RemovedEntries(x, x', b, c);
      }
    case _ =>
  }

  lemma OtherCounts(a: nat, x: Actor, y: Actor, c: nat)
    requires x.mutex.Own?
    ensures var (g, y') := (x.mutex.stage, Advance(a, x, y).1);
            && y'.exit == y.exit
            && Entries(y', c) == Entries(y, c)
                 + (if g.LinkBoth? && y.exit == NOT_EXITED && Entries(y, a) == 0 && c == a then 1 else 0)
                 - (if g.UnlinkBoth? && c == a && Entries(y, a) > 0 then 1 else 0)
  {
    var y' := Advance(a, x, y).1;
    match x.mutex.stage
    case LinkBoth(_) =>
      LinkedMeaning(y.list, a);
      if y.exit == NOT_EXITED && !Linked(y.list, a) {
        AddedEntries(y, y', a, c);
      }
    case UnlinkBoth(_) => RemovedEntries(y, y', a, c);
    case _ =>
  }

  lemma AddedEntries(x: Actor, x': Actor, b: nat, c: nat)
    requires x'.list == [Link(b)] + x.list
    ensures Entries(x', c) == Entries(x, c) + if c == b then 1 else 0
  {
    HeadCount(Link(b), x.list, c);
  }

  lemma RemovedEntries(x: Actor, x': Actor, b: nat, c: nat)
    requires x'.list == WithoutFirst(IsLink(b), x.list)
    ensures Entries(x', c) == Entries(x, c) - if c == b && Entries(x, b) > 0 then 1 else 0
  {
    if Entries(x, b) > 0 {
      RemovalCount(x.list, b, c);
    } else {
      RemovalOfNone(x.list, b);
    }
  }

  // ---------------------------------------------------------------- one step keeps the invariant

  lemma LinkKeepsPair(a: nat, x: Actor, b: nat, y: Actor)
    requires x.mutex == Own(LinkBegin(b)) || x.mutex == Own(LinkBack(b)) || x.mutex == Own(LinkOwn(b))
    requires a != b && PairInv(a, x, b, y)
    ensures var (x', y') := Advance(a, x, y); PairInv(a, x', b, y')
  {
    AdvanceCounts(a, x, y, a);
    AdvanceCounts(a, x, y, b);
  }

  lemma LinkBothKeepsPair(a: nat, x: Actor, b: nat, y: Actor)
    requires x.mutex == Own(LinkBoth(b)) && a != b && PairInv(a, x, b, y)
    ensures var (x', y') := Advance(a, x, y); PairInv(a, x', b, y')
  {
    AdvanceCounts(a, x, y, a);
    AdvanceCounts(a, x, y, b);
    LinkedMeaning(y.list, a);
  }

  lemma UnlinkKeepsPair(a: nat, x: Actor, b: nat, y: Actor)
    requires x.mutex == Own(UnlinkBegin(b)) || x.mutex == Own(UnlinkBack(b))
    requires a != b && PairInv(a, x, b, y)
    ensures var (x', y') := Advance(a, x, y); PairInv(a, x', b, y')
  {
    AdvanceCounts(a, x, y, a);
    AdvanceCounts(a, x, y, b);
    LinkedMeaning(x.list, b);
  }

  lemma UnlinkBothKeepsPair(a: nat, x: Actor, b: nat, y: Actor)
    requires x.mutex == Own(UnlinkBoth(b)) && a != b && PairInv(a, x, b, y)
    ensures var (x', y') := Advance(a, x, y); PairInv(a, x', b, y')
  {
    AdvanceCounts(a, x, y, a);
    AdvanceCounts(a, x, y, b);
  }

  lemma AdvanceKeepsPair(a: nat, x: Actor, b: nat, y: Actor)
    requires x.mutex.Own? && x.mutex.stage.b == b && a != b && PairInv(a, x, b, y)
    ensures var (x', y') := Advance(a, x, y); PairInv(a, x', b, y')
  {
    match x.mutex.stage
    case LinkBoth(_) => LinkBothKeepsPair(a, x, b, y);
    case UnlinkBegin(_) => UnlinkKeepsPair(a, x, b, y);
    case UnlinkBack(_) => UnlinkKeepsPair(a, x, b, y);
    case UnlinkBoth(_) => UnlinkBothKeepsPair(a, x, b, y);
    case _ => LinkKeepsPair(a, x, b, y);
  }

  lemma AdvanceKeepsThird(a: nat, x: Actor, b: nat, y: Actor, c: nat, z: Actor)
    requires x.mutex.Own? && x.mutex.stage.b == b && a != b && c != a && c != b
    requires PairInv(a, x, c, z) && PairInv(b, y, c, z) && PairInv(a, x, b, y)
    ensures var (x', y') := Advance(a, x, y); PairInv(a, x', c, z) && PairInv(b, y', c, z)
  {
    AdvanceKeepsThirdOwn(a, x, b, y, c, z);
    AdvanceKeepsThirdOther(a, x, b, y, c, z);
  }

  lemma AdvanceKeepsThirdOwn(a: nat, x: Actor, b: nat, y: Actor, c: nat, z: Actor)
    requires x.mutex.Own? && x.mutex.stage.b == b && c != b && PairInv(a, x, c, z)
    ensures PairInv(a, Advance(a, x, y).0, c, z)
  {
    AdvanceCounts(a, x, y, c);
    var x' := Advance(a, x, y).0;
    assert x'.mutex.Free? || (x'.mutex.Own? && x'.mutex.stage.b == b);
    StillNeutral(a, x, x', b, c, z);
  }

  /** Towards c nothing changes while the operation is about b. */
  lemma StillNeutral(a: nat, x: Actor, x': Actor, b: nat, c: nat, z: Actor)
    requires x.mutex.Own? && x.mutex.stage.b == b && c != b && PairInv(a, x, c, z)
    requires x'.mutex.Free? || (x'.mutex.Own? && x'.mutex.stage.b == b)
    requires x'.exit == x.exit && Entries(x', c) == Entries(x, c)
    ensures PairInv(a, x', c, z)
  {
  }

  lemma AdvanceKeepsThirdOther(a: nat, x: Actor, b: nat, y: Actor, c: nat, z: Actor)
    requires x.mutex.Own? && x.mutex.stage.b == b && c != a && PairInv(b, y, c, z) && PairInv(a, x, b, y)
    ensures PairInv(b, Advance(a, x, y).1, c, z)
  {
    AdvanceCounts(a, x, y, c);
  }

  lemma PairSymmetric(a: nat, x: Actor, b: nat, y: Actor)
    requires PairInv(a, x, b, y)
    ensures PairInv(b, y, a, x)
  {
  }

  /** A step changes the two records and no other. */
  lemma StepSets(s: System, a: nat, b: nat, c: nat)
    requires a < |s| && s[a].mutex.Own? && s[a].mutex.stage.b == b < |s| && c < |s| && a != b
    ensures var (x, y) := Advance(a, s[a], s[b]);
            var s' := Next(s, Step(a));
            |s'| == |s| && s'[c] == if c == a then x else if c == b then y else s[c]
  {
  }

  lemma StepKeepsPair(s: System, a: nat, c: nat, d: nat)
    requires Inv(s) && a < |s| && s[a].mutex.Own? && c < |s| && d < |s| && c != d
    ensures var s' := Next(s, Step(a)); |s'| == |s| && PairInv(c, s'[c], d, s'[d])
  {
    var b := s[a].mutex.stage.b;
    assert ActorInv(|s|, a, s[a]) && PairInv(a, s[a], b, s[b]) && PairInv(c, s[c], d, s[d]);
    StepSets(s, a, b, c);
    StepSets(s, a, b, d);
    var (x, y) := Advance(a, s[a], s[b]);
    if c != a && c != b {
      if d == a || d == b {
        AdvanceKeepsThird(a, s[a], b, s[b], c, s[c]);
        PairSymmetric(a, x, c, s[c]);
        PairSymmetric(b, y, c, s[c]);
      }
    } else if d != a && d != b {
      AdvanceKeepsThird(a, s[a], b, s[b], d, s[d]);
    } else {
      AdvanceKeepsPair(a, s[a], b, s[b]);
      PairSymmetric(a, x, b, y);
    }
  }

  lemma AdvanceKeepsActor(n: nat, a: nat, x: Actor, b: nat, y: Actor)
    requires x.mutex.Own? && x.mutex.stage.b == b && a < n
    requires ActorInv(n, a, x) && ActorInv(n, b, y)
    ensures var (x', y') := Advance(a, x, y); ActorInv(n, a, x') && ActorInv(n, b, y')
  {
    AdvanceCounts(a, x, y, a);
    AdvanceCounts(a, x, y, b);
  }

  lemma StepKeepsActor(s: System, a: nat, c: nat)
    requires Inv(s) && a < |s| && s[a].mutex.Own? && c < |s|
    ensures var s' := Next(s, Step(a)); |s'| == |s| && ActorInv(|s|, c, s'[c])
  {
    var b := s[a].mutex.stage.b;
    assert ActorInv(|s|, a, s[a]) && ActorInv(|s|, b, s[b]) && ActorInv(|s|, c, s[c]);
    StepSets(s, a, b, c);
    AdvanceKeepsActor(|s|, a, s[a], b, s[b]);
  }

  // ---------------------------------------------------------------- events that change one actor

  /** Record x of actor a while its mutex is free, after event e of this actor. */
  function Changed(x: Actor, e: Event): Actor {
    match e
    case StartLink(_, b) => x.(mutex := Own(LinkBegin(b)))
    case StartUnlink(_, b) => x.(mutex := Own(UnlinkBegin(b)))
    case Exit(_, reason) => Actor(reason, [], Free)
    case AttachOther(_, id) => x.(list := [Other(id)] + x.list)
    case Step(_) => x
  }

  lemma ChangeKeepsPair(a: nat, x: Actor, b: nat, y: Actor, e: Event)
    requires PairInv(a, x, b, y) && x.mutex.Free? && (e.Exit? ==> e.reason != NOT_EXITED)
    ensures PairInv(a, Changed(x, e), b, y)
  {
    if e.AttachOther? {
      HeadCount(Other(e.id), x.list, b);
    }
  }

  lemma ChangeKeepsActor(n: nat, a: nat, x: Actor, e: Event)
    requires ActorInv(n, a, x) && (e.StartLink? || e.StartUnlink? ==> e.b < n && e.b != a)
    ensures ActorInv(n, a, Changed(x, e))
  {
    if e.AttachOther? {
      HeadCount(Other(e.id), x.list, a);
    }
  }

  lemma ChangeKeepsInv(s: System, e: Event)
    requires Inv(s) && !e.Step?
    ensures Inv(Next(s, e))
  {
    if Next(s, e) == s {
      return;
    }
    var a, s' := e.a, Next(s, e);
    assert s' == s[a := Changed(s[a], e)];
    forall c | 0 <= c < |s|
      ensures ActorInv(|s|, c, s'[c])
    {
      ChangeKeepsActor(|s|, a, s[a], e);
    }
    forall c, d | 0 <= c < |s| && 0 <= d < |s| && c != d
      ensures PairInv(c, s'[c], d, s'[d])
    {
      assert PairInv(c, s[c], d, s[d]);
      ChangeKeepsPairOf(s, e, c, d);
    }
  }

  lemma ChangeKeepsPairOf(s: System, e: Event, c: nat, d: nat)
    requires e.a < |s| && c < |s| && d < |s| && c != d && PairInv(c, s[c], d, s[d])
    requires s[e.a].mutex.Free? && (e.Exit? ==> e.reason != NOT_EXITED)
    ensures var s' := s[e.a := Changed(s[e.a], e)]; PairInv(c, s'[c], d, s'[d])
  {
    if c == e.a {
      ChangeKeepsPair(c, s[c], d, s[d], e);
    } else if d == e.a {
      PairSymmetric(c, s[c], d, s[d]);
      ChangeKeepsPair(d, s[d], c, s[c], e);
      PairSymmetric(d, Changed(s[d], e), c, s[c]);
    }
  }

  lemma NextKeepsInv(s: System, e: Event)
    requires Inv(s)
    ensures Inv(Next(s, e))
  {
    if e.Step? && e.a < |s| && s[e.a].mutex.Own? {
      forall c | 0 <= c < |s|
        ensures |Next(s, e)| == |s| && ActorInv(|s|, c, Next(s, e)[c])
      {
        StepKeepsActor(s, e.a, c);
      }
      forall c, d | 0 <= c < |s| && 0 <= d < |s| && c != d
        ensures |Next(s, e)| == |s| && PairInv(c, Next(s, e)[c], d, Next(s, e)[d])
      {
        StepKeepsPair(s, e.a, c, d);
      }
    } else if !e.Step? {
      ChangeKeepsInv(s, e);
    }
  }

  lemma {:induction false} RunKeepsInv(actors: nat, events: seq<Event>)
    ensures Inv(Run(actors, events))
  {
    if events != [] {
      RunKeepsInv(actors, events[..|events| - 1]);
      NextKeepsInv(Run(actors, events[..|events| - 1]), events[|events| - 1]);
    }
  }

  /** In every run, two live actors whose mutexes are free are linked to each other or not at
      all, with at most one entry each. */
  lemma LinksAreSymmetric(actors: nat, events: seq<Event>, a: nat, b: nat)
    requires var s := Run(actors, events);
             && a < |s| && b < |s| && a != b
             && s[a].exit == NOT_EXITED && s[b].exit == NOT_EXITED && s[a].mutex.Free? && s[b].mutex.Free?
    ensures var s := Run(actors, events);
            Entries(s[a], b) == Entries(s[b], a) <= 1
  {
    RunKeepsInv(actors, events);
    var s := Run(actors, events);
    assert PairInv(a, s[a], b, s[b]);
  }

  /** In every run, whatever the mutexes: at most one entry per pair, none for oneself. */
  lemma AtMostOneEntry(actors: nat, events: seq<Event>, a: nat, b: nat)
    requires a < |Run(actors, events)| && b < |Run(actors, events)|
    ensures Entries(Run(actors, events)[a], b) <= if a == b then 0 else 1
  {
    RunKeepsInv(actors, events);
    var s := Run(actors, events);
    if a == b {
      assert ActorInv(|s|, a, s[a]);
    } else {
      assert PairInv(a, s[a], b, s[b]);
    }
  }
}
