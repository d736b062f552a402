/**
 What linking and unlinking achieve: an operation that runs without interference comes through
 all its sections, with exactly the entries it is for.
 */
module LinkProgress {
  import Attachables
  import opened ActorLinks

  /** k steps of the operation of actor a. */
  function Steps(s: System, a: nat, k: nat): System {
    if k == 0 then s else Next(Steps(s, a, k - 1), Step(a))
  }

  /** s with other records for a and b. */
  function With(s: System, a: nat, x: Actor, b: nat, y: Actor): System
    requires a < |s| && b < |s|
  {
    s[b := y][a := x]
  }

  predicate Pair(s: System, a: nat, b: nat) {
    a < |s| && b < |s| && a != b && s[a].mutex.Free? && s[b].mutex.Free?
  }

  lemma StepWith(s: System, a: nat, x: Actor, b: nat, y: Actor)
    requires a < |s| && b < |s| && a != b && x.mutex.Own? && x.mutex.stage.b == b
    ensures Next(With(s, a, x, b, y), Step(a)) ==
            With(s, a, Advance(a, x, y).0, b, Advance(a, x, y).1)
  {
    var t := With(s, a, x, b, y);
    assert t[a] == x && t[b] == y;
  }

  /** A step of an actor that has no operation changes nothing. */
  lemma StepIdle(s: System, a: nat, x: Actor, b: nat, y: Actor)
    requires a < |s| && b < |s| && a != b && x.mutex.Free?
    ensures Next(With(s, a, x, b, y), Step(a)) == With(s, a, x, b, y)
  {
    assert With(s, a, x, b, y)[a] == x;
  }

  lemma Begins(s: System, a: nat, b: nat)
    requires Pair(s, a, b)
    ensures Next(s, StartLink(a, b)) == With(s, a, s[a].(mutex := Own(LinkBegin(b))), b, s[b])
    ensures Next(s, StartUnlink(a, b)) == With(s, a, s[a].(mutex := Own(UnlinkBegin(b))), b, s[b])
    ensures With(s, a, s[a], b, s[b]) == s
  {
  }

  // ---------------------------------------------------------------- linking

  function LinkAlone(s: System, a: nat, b: nat): System {
    Steps(Next(s, StartLink(a, b)), a, 4)
  }

  /** The first two sections: alive, and holding both mutexes. */
  lemma LinkReachesBoth(s: System, a: nat, b: nat)
    requires Pair(s, a, b) && s[a].exit == Attachables.NOT_EXITED
    ensures Steps(Next(s, StartLink(a, b)), a, 2) ==
            With(s, a, s[a].(mutex := Own(LinkBoth(b))), b, s[b].(mutex := Lent(a)))
  {
    var x, y := s[a], s[b];
    Begins(s, a, b);
    StepWith(s, a, x.(mutex := Own(LinkBegin(b))), b, y);
    StepWith(s, a, x.(mutex := Own(LinkBack(b))), b, y);
    assert Steps(Next(s, StartLink(a, b)), a, 1) == With(s, a, x.(mutex := Own(LinkBack(b))), b, y);
  }

  lemma LastSteps(s: System, a: nat, b: nat, t: System)
    ensures Steps(Next(s, StartLink(a, b)), a, 2) == t ==>
            LinkAlone(s, a, b) == Next(Next(t, Step(a)), Step(a))
  {
    assert Steps(Next(s, StartLink(a, b)), a, 3) ==
           Next(Steps(Next(s, StartLink(a, b)), a, 2), Step(a));
  }

  /** Two live actors: each gets an entry for the other, or keeps the one it has. */
  lemma LinkResult(s: System, a: nat, b: nat)
    requires Pair(s, a, b) && s[a].exit == s[b].exit == Attachables.NOT_EXITED
    ensures LinkAlone(s, a, b) ==
            if Linked(s[b].list, a) then s
            else With(s, a, s[a].(list := [Link(b)] + s[a].list), b, s[b].(list := [Link(a)] + s[b].list))
  {
    var x, y := s[a].(mutex := Own(LinkBoth(b))), s[b].(mutex := Lent(a));
    LinkReachesBoth(s, a, b);
    LastSteps(s, a, b, With(s, a, x, b, y));
    StepWith(s, a, x, b, y);
    Begins(s, a, b);
    if Linked(s[b].list, a) {
      StepIdle(s, a, s[a], b, s[b]);
    } else {
      StepWith(s, a, s[a].(mutex := Own(LinkOwn(b))), b, s[b].(list := [Link(a)] + s[b].list));
    }
  }

  /** From every state of every run: linking two live actors that nobody else is working on
      leaves one entry on each side, both mutexes free, and everybody else as before. */
  lemma LinkCompletes(actors: nat, events: seq<Event>, a: nat, b: nat)
    requires var s := Run(actors, events); Pair(s, a, b) && s[a].exit == s[b].exit == Attachables.NOT_EXITED
    ensures var (s, s') := (Run(actors, events), LinkAlone(Run(actors, events), a, b));
            && |s'| == |s| && s'[a].mutex.Free? && s'[b].mutex.Free?
            && Entries(s'[a], b) == 1 && Entries(s'[b], a) == 1
            && forall c :: 0 <= c < |s| && c != a && c != b ==> s'[c] == s[c]
  {
    var s := Run(actors, events);
    LinksAreSymmetric(actors, events, a, b);
    LinkResult(s, a, b);
    LinkedMeaning(s[b].list, a);
    if !Linked(s[b].list, a) {
      HeadCount(Link(b), s[a].list, b);
      HeadCount(Link(a), s[b].list, a);
    }
  }

  /** A link begun by an exited actor, or towards one, changes nothing. */
  lemma LinkToExited(s: System, a: nat, b: nat)
    requires Pair(s, a, b) && (s[a].exit != Attachables.NOT_EXITED || s[b].exit != Attachables.NOT_EXITED)
    ensures LinkAlone(s, a, b) == s
  {
    Begins(s, a, b);
    StepIdle(s, a, s[a], b, s[b]);
    if s[a].exit != Attachables.NOT_EXITED {
      StepWith(s, a, s[a].(mutex := Own(LinkBegin(b))), b, s[b]);
      assert Steps(Next(s, StartLink(a, b)), a, 1) == s;
      assert Steps(Next(s, StartLink(a, b)), a, 2) == s;
      LastSteps(s, a, b, s);
    } else {
      var x, y := s[a].(mutex := Own(LinkBoth(b))), s[b].(mutex := Lent(a));
      LinkReachesBoth(s, a, b);
      LastSteps(s, a, b, With(s, a, x, b, y));
      StepWith(s, a, x, b, y);
    }
  }

  // ---------------------------------------------------------------- unlinking

  function UnlinkAlone(s: System, a: nat, b: nat): System {
    Steps(Next(s, StartUnlink(a, b)), a, 3)
  }

  lemma UnlinkResult(s: System, a: nat, b: nat)
    requires Pair(s, a, b)
    ensures UnlinkAlone(s, a, b) ==
            if !Linked(s[a].list, b) then s
            else With(s, a, s[a].(list := Attachables.WithoutFirst(IsLink(b), s[a].list)),
                      b, s[b].(list := Attachables.WithoutFirst(IsLink(a), s[b].list)))
  {
    var s0 := Next(s, StartUnlink(a, b));
    Begins(s, a, b);
    StepWith(s, a, s[a].(mutex := Own(UnlinkBegin(b))), b, s[b]);
    assert Steps(s0, a, 1) == Next(s0, Step(a));
    if !Linked(s[a].list, b) {
      StepIdle(s, a, s[a], b, s[b]);
      assert Steps(s0, a, 2) == s;
    } else {
      var x := s[a].(list := Attachables.WithoutFirst(IsLink(b), s[a].list));
      StepWith(s, a, x.(mutex := Own(UnlinkBack(b))), b, s[b]);
      assert Steps(s0, a, 2) == With(s, a, x.(mutex := Own(UnlinkBoth(b))), b, s[b].(mutex := Lent(a)));
      StepWith(s, a, x.(mutex := Own(UnlinkBoth(b))), b, s[b].(mutex := Lent(a)));
    }
  }

  /** From every state of every run: unlinking by a live actor leaves no entry on either side,
      both mutexes free, and everybody else as before. */
  lemma UnlinkCompletes(actors: nat, events: seq<Event>, a: nat, b: nat)
    requires var s := Run(actors, events); Pair(s, a, b) && s[a].exit == Attachables.NOT_EXITED
    ensures var (s, s') := (Run(actors, events), UnlinkAlone(Run(actors, events), a, b));
            && |s'| == |s| && s'[a].mutex.Free? && s'[b].mutex.Free?
            && Entries(s'[a], b) == 0 && Entries(s'[b], a) == 0
            && forall c :: 0 <= c < |s| && c != a && c != b ==> s'[c] == s[c]
  {
    var s := Run(actors, events);
    RunKeepsInv(actors, events);
    assert PairInv(a, s[a], b, s[b]);
    UnlinkResult(s, a, b);
    LinkedMeaning(s[a].list, b);
    var s' := UnlinkAlone(s, a, b);
    if Linked(s[a].list, b) {
      RemovedEntries(s[a], s'[a], b, b);
      RemovedEntries(s[b], s'[b], a, a);
    }
  }

  // ---------------------------------------------------------------- exiting

  /** An actor that exits has its reason and no entry; the others keep theirs. */
  lemma ExitDropsLinks(s: System, a: nat, reason: nat, b: nat)
    requires a < |s| && s[a].mutex.Free? && s[a].exit == Attachables.NOT_EXITED && reason != Attachables.NOT_EXITED
    ensures var s' := Next(s, Exit(a, reason));
            && |s'| == |s| && s'[a].exit == reason && Entries(s'[a], b) == 0
            && forall c :: 0 <= c < |s| && c != a ==> s'[c] == s[c]
  {
  }

  /** Attaching something else leaves all links alone. */
  lemma AttachKeepsLinks(s: System, a: nat, id: nat, b: nat)
    requires a < |s| && s[a].mutex.Free? && s[a].exit == Attachables.NOT_EXITED
    ensures var s' := Next(s, AttachOther(a, id));
            && |s'| == |s| && Entries(s'[a], b) == Entries(s[a], b)
            && multiset(s'[a].list)[Other(id)] == multiset(s[a].list)[Other(id)] + 1
            && forall c :: 0 <= c < |s| && c != a ==> s'[c] == s[c]
  {
    HeadCount(Other(id), s[a].list, b);
  }

  // ---------------------------------------------------------------- operations that cross

  /** Has its own mutex and wants the one of its partner. */
  predicate Waits(x: Actor) {
    x.mutex.Own? && (x.mutex.stage.LinkBack? || x.mutex.stage.UnlinkBack?)
  }

  /** Each of these actors waits for the mutex of another of them. */
  ghost predicate Deadlock(s: System, d: set<nat>) {
    forall a :: a in d ==> a < |s| && Waits(s[a]) && s[a].mutex.stage.b in d
  }

  function UnderWay(s: System): set<nat> {
    set a: nat | 0 <= a < |s| && s[a].mutex.Own?
  }

  /** No step of another actor touches the mutex of one that waits, and its own step does nothing
      as long as its partner's mutex is not free. */
  lemma StepKeepsWaiter(s: System, a: nat, w: nat)
    requires Inv(s) && a < |s| && w < |s| && Waits(s[w])
    requires s[w].mutex.stage.b < |s| && !s[s[w].mutex.stage.b].mutex.Free?
    ensures |Next(s, Step(a))| == |s| && Next(s, Step(a))[w].mutex == s[w].mutex
  {
    if s[a].mutex.Own? {
      var b := s[a].mutex.stage.b;
      assert ActorInv(|s|, a, s[a]);
      StepSets(s, a, b, w);
      if w == b {
        assert PairInv(a, s[a], w, s[w]);
      }
    }
  }

  /** A deadlock is for good: whatever happens, none of its mutexes changes. */
  lemma DeadlockStays(s: System, d: set<nat>, e: Event)
    requires Inv(s) && Deadlock(s, d)
    ensures Deadlock(Next(s, e), d) && forall a :: a in d ==> Next(s, e)[a].mutex == s[a].mutex
  {
    forall a | a in d
      ensures |Next(s, e)| == |s| && Next(s, e)[a].mutex == s[a].mutex
    {
      assert s[a].mutex.stage.b in d;
      NextKeepsWaiter(s, e, a);
    }
  }

  lemma NextKeepsWaiter(s: System, e: Event, w: nat)
    requires Inv(s) && w < |s| && Waits(s[w])
    requires s[w].mutex.stage.b < |s| && !s[s[w].mutex.stage.b].mutex.Free?
    ensures |Next(s, e)| == |s| && Next(s, e)[w].mutex == s[w].mutex
  {
    if e.Step? {
      if e.a < |s| {
        StepKeepsWaiter(s, e.a, w);
      }
    } else {
      OthersKeepHeld(s, e, w);
    }
  }

  lemma OthersKeepHeld(s: System, e: Event, w: nat)
    requires !e.Step? && w < |s| && !s[w].mutex.Free?
    ensures |Next(s, e)| == |s| && Next(s, e)[w].mutex == s[w].mutex
  {
  }

  /** What a step that changes nothing waits for. */
  lemma IdleStepWaits(s: System, a: nat)
    requires Inv(s) && a < |s| && s[a].mutex.Own?
    ensures s[a].mutex.stage.b < |s|
    ensures Next(s, Step(a)) == s <==> Waits(s[a]) && !s[s[a].mutex.stage.b].mutex.Free?
  {
    var b := s[a].mutex.stage.b;
    assert ActorInv(|s|, a, s[a]);
    StepSets(s, a, b, a);
    if Waits(s[a]) && !s[b].mutex.Free? {
      assert s[b := s[b]][a := s[a]] == s;
    }
  }

  /** A mutex that is lent belongs to an operation that can go on. */
  lemma LentGoesOn(s: System, b: nat)
    requires Inv(s) && b < |s| && s[b].mutex.Lent?
    ensures s[b].mutex.to < |s| && Next(s, Step(s[b].mutex.to)) != s
  {
    var c := s[b].mutex.to;
    assert ActorInv(|s|, b, s[b]) && PairInv(c, s[c], b, s[b]);
    IdleStepWaits(s, c);
  }

  /** In every run: no step of any operation can do anything if and only if those under way all wait
      for each other's mutexes. */
  lemma StuckIff(actors: nat, events: seq<Event>)
    ensures var s := Run(actors, events);
            (forall a: nat :: a < |s| ==> Next(s, Step(a)) == s) <==> Deadlock(s, UnderWay(s))
  {
    var s := Run(actors, events);
    RunKeepsInv(actors, events);
    if Deadlock(s, UnderWay(s)) {
      forall a: nat | a < |s|
        ensures Next(s, Step(a)) == s
      {
        if s[a].mutex.Own? {
          assert a in UnderWay(s) && s[a].mutex.stage.b in UnderWay(s);
          IdleStepWaits(s, a);
        }
      }
    }
    if forall a: nat :: a < |s| ==> Next(s, Step(a)) == s {
      forall a | a in UnderWay(s)
        ensures Waits(s[a]) && s[a].mutex.stage.b in UnderWay(s)
      {
        IdleStepWaits(s, a);
        var b := s[a].mutex.stage.b;
        if s[b].mutex.Lent? {
          LentGoesOn(s, b);
        }
      }
    }
  }

  /** Two live actors that link each other at the same time get there. */
  lemma CrossingLinksDeadlock(s: System, a: nat, b: nat)
    requires Pair(s, a, b) && s[a].exit == s[b].exit == Attachables.NOT_EXITED
    ensures Deadlock(Next(Next(Next(Next(s, StartLink(a, b)), Step(a)), StartLink(b, a)), Step(b)), {a, b})
  {
    var s2 := Next(Next(s, StartLink(a, b)), Step(a));
    assert s2 == s[a := s[a].(mutex := Own(LinkBack(b)))];
    var s4 := Next(Next(s2, StartLink(b, a)), Step(b));
    assert s4 == s2[b := s[b].(mutex := Own(LinkBack(a)))];
  }
}
