/**
 The list of attachables of an actor and its exit reason: attach, detach and cleanup, and
 every interleaving of them with the callbacks, which run outside the lock.
 */
module Attachables {
  import opened Common

  /** 0 is exit_reason::not_exited. */
  const NOT_EXITED: nat := 0

  // ---------------------------------------------------------------- detaching

  /** The entries that `what` does not select, in order. */
  function Kept<T>(what: T -> bool, list: seq<T>): seq<T> {
    if list == [] then []
    else (if what(list[0]) then [] else [list[0]]) + Kept(what, list[1..])
  }

  function Hits<T>(what: T -> bool, list: seq<T>): nat {
    if list == [] then 0 else (if what(list[0]) then 1 else 0) + Hits(what, list[1..])
  }

  /** The list without the first entry that `what` selects. */
  function WithoutFirst<T>(what: T -> bool, list: seq<T>): seq<T> {
    if list == [] then []
    else if what(list[0]) then list[1..]
    else [list[0]] + WithoutFirst(what, list[1..])
  }

  /** What detaching leaves of a list. */
  function Left<T>(what: T -> bool, list: seq<T>, stopOnHit: bool, dryRun: bool): seq<T> {
    if dryRun then list else if stopOnHit then WithoutFirst(what, list) else Kept(what, list)
  }

  /** What it reports. */
  function Reported<T>(what: T -> bool, list: seq<T>, stopOnHit: bool): nat {
    if stopOnHit && Hits(what, list) > 0 then 1 else Hits(what, list)
  }

  /** The first hit goes, everything before and after it stays; no hit, no change. */
  lemma {:induction false} WithoutFirstMeaning<T>(what: T -> bool, list: seq<T>) returns (i: nat)
    ensures i <= |list| && (forall j :: 0 <= j < i ==> !what(list[j])) && (i == |list| <==> Hits(what, list) == 0)
    ensures if i == |list| then WithoutFirst(what, list) == list
            else what(list[i]) && WithoutFirst(what, list) == list[..i] + list[i + 1..]
  {
    if list == [] || what(list[0]) {
      i := 0;
    } else {
      var k := WithoutFirstMeaning(what, list[1..]);
      i := k + 1;
      var rest := list[1..];
      if k == |rest| {
        assert [list[0]] + rest == list;
      } else {
        assert rest[k] == list[i];
        CutShifts(list, k);
      }
      assert forall j :: 0 < j < |list| ==> list[j] == rest[j - 1];
    }
  }

  lemma CutShifts<T>(list: seq<T>, k: nat)
    requires k + 1 < |list|
    ensures [list[0]] + (list[1..][..k] + list[1..][k + 1..]) == list[..k + 1] + list[k + 2..]
  {
    assert list[..k + 1] == [list[0]] + list[1..][..k];
  }

  /** Nothing selected stays, nothing else goes, and what goes is counted. */
  lemma {:induction false} KeptMeaning<T>(what: T -> bool, list: seq<T>)
    ensures |Kept(what, list)| + Hits(what, list) == |list|
    ensures forall x :: x in Kept(what, list) <==> x in list && !what(x)
    ensures forall x :: !what(x) ==> multiset(Kept(what, list))[x] == multiset(list)[x]
  {
    if list != [] {
      var x, rest := list[0], list[1..];
      KeptMeaning(what, rest);
      assert list == [x] + rest;
      if what(x) {
        assert Kept(what, list) == [] + Kept(what, rest) == Kept(what, rest);
      } else {
        OneMore(x, rest, Kept(what, rest));
      }
    }
  }

  /** An entry in front of both lists. */
  lemma OneMore<T>(x: T, list: seq<T>, kept: seq<T>)
    ensures forall y :: y in [x] + list <==> y == x || y in list
    ensures forall y :: y in [x] + kept <==> y == x || y in kept
    ensures forall y :: multiset(kept)[y] == multiset(list)[y] ==> multiset([x] + kept)[y] == multiset([x] + list)[y]
  {
  }

  class ActorBase<T(==)> {
    var exitReason: nat
    var attachables: seq<T>

    constructor ()
      ensures exitReason == NOT_EXITED && attachables == []
    {
      exitReason, attachables := NOT_EXITED, [];
    }

    /** A new attachable goes to the head of the list; an exited actor calls it at once. */
    method Attach(x: T) returns (callNow: bool)
      modifies this
      ensures exitReason == old(exitReason)
      ensures callNow == (exitReason != NOT_EXITED)
      ensures attachables == if callNow then old(attachables) else [x] + old(attachables)
    {
      callNow := exitReason != NOT_EXITED;
      if !callNow {
        attachables := [x] + attachables;
      }
    }

    /** `at` is the place in the list the source's pointer reference stands for. A dry run that
        does not stop ends only if there is no hit: on a hit the source calls itself forever. */
    method DetachImpl(what: T -> bool, at: nat, stopOnHit: bool, dryRun: bool) returns (removed: nat)
      requires at <= |attachables|
      requires dryRun && !stopOnHit ==> Hits(what, attachables[at..]) == 0
      modifies this
      ensures exitReason == old(exitReason)
      ensures attachables == old(attachables)[..at] + Left(what, old(attachables)[at..], stopOnHit, dryRun)
      ensures removed == Reported(what, old(attachables)[at..], stopOnHit)
      decreases |attachables| - at
    {
      ghost var front, rest := attachables[..at], attachables[at..];
      assert attachables == front + rest;
      if at == |attachables| {
        return 0;
      }
      if what(attachables[at]) {
        if !dryRun {
          attachables := attachables[..at] + attachables[at + 1..];
          assert attachables[at..] == rest[1..] && attachables[..at] == front;
        }
        if stopOnHit {
          return 1;
        }
        var more := DetachImpl(what, at, stopOnHit, dryRun);
        return 1 + more;
      }
      assert attachables[at + 1..] == rest[1..] && attachables[..at + 1] == front + [rest[0]];
      LeftOver(what, rest, stopOnHit, dryRun);
      removed := DetachImpl(what, at + 1, stopOnHit, dryRun);
    }

    method Detach(what: T -> bool) returns (removed: nat)
      modifies this
      ensures exitReason == old(exitReason)
      ensures attachables == Kept(what, old(attachables)) && removed == Hits(what, old(attachables))
    {
      assert attachables[..0] == [] && attachables[0..] == attachables;
      removed := DetachImpl(what, 0, false, false);
    }

    /** The first cleanup sets the reason and hands over the list; a later one does nothing. */
    method Cleanup(reason: nat) returns (toCall: seq<T>)
      requires reason != NOT_EXITED
      modifies this
      ensures if old(exitReason) != NOT_EXITED then
                exitReason == old(exitReason) && attachables == old(attachables) && toCall == []
              else exitReason == reason && attachables == [] && toCall == old(attachables)
    {
      if exitReason != NOT_EXITED {
        return [];
      }
      exitReason := reason;
      toCall, attachables := attachables, [];
    }
  }

  lemma LeftOver<T>(what: T -> bool, list: seq<T>, stopOnHit: bool, dryRun: bool)
    requires list != [] && !what(list[0])
    ensures Left(what, list, stopOnHit, dryRun) == [list[0]] + Left(what, list[1..], stopOnHit, dryRun)
    ensures Reported(what, list, stopOnHit) == Reported(what, list[1..], stopOnHit)
  {
  }

  // ---------------------------------------------------------------- runs

  /** An attachable object: attached at most once, recognised by detach through its kind. */
  datatype Entry = Entry(id: nat, kind: nat)

  /** `due` are callbacks taken out of the list, or refused by attach, and not yet run. */
  datatype State = State(
    exit: nat, list: seq<Entry>, due: multiset<(nat, nat)>, ran: multiset<(nat, nat)>,
    attached: set<nat>, detached: set<nat>)

  datatype Event = Attach(entry: Entry) | Detach(kind: nat) | Cleanup(reason: nat) | Call(id: nat, reason: nat)

  function OfKind(kind: nat): Entry -> bool {
    (e: Entry) => e.kind == kind
  }

  function Ids(list: seq<Entry>): set<nat> {
    set e | e in list :: e.id
  }

  function Due(list: seq<Entry>, reason: nat): multiset<(nat, nat)> {
    if list == [] then multiset{} else multiset{(list[0].id, reason)} + Due(list[1..], reason)
  }

  function Next(s: State, e: Event): State {
    match e
    case Attach(x) =>
      if x.id in s.attached then s
      else if s.exit == NOT_EXITED then s.(list := [x] + s.list, attached := s.attached + {x.id})
      else s.(due := s.due + multiset{(x.id, s.exit)}, attached := s.attached + {x.id})
    case Detach(kind) =>
      s.(list := Kept(OfKind(kind), s.list), detached := s.detached + (Ids(s.list) - Ids(Kept(OfKind(kind), s.list))))
    case Cleanup(reason) =>
      if reason == NOT_EXITED || s.exit != NOT_EXITED then s
      else s.(exit := reason, list := [], due := s.due + Due(s.list, reason))
    case Call(id, reason) =>
      if (id, reason) in s.due then
        s.(due := s.due - multiset{(id, reason)}, ran := s.ran + multiset{(id, reason)})
      else s
  }

  function Run(events: seq<Event>): State {
    if events == [] then State(NOT_EXITED, [], multiset{}, multiset{}, {}, {})
    else Next(Run(events[..|events| - 1]), events[|events| - 1])
  }

  /** The reason of the first cleanup. */
  function FirstReason(events: seq<Event>): nat {
    if events == [] then NOT_EXITED
    else if events[0].Cleanup? && events[0].reason != NOT_EXITED then events[0].reason
    else FirstReason(events[1..])
  }

  function InList(list: seq<Entry>, id: nat): nat {
    if list == [] then 0 else (if list[0].id == id then 1 else 0) + InList(list[1..], id)
  }

  /** Each attachable is in exactly one place: in the list, due, run, or detached. */
  predicate OnePlace(s: State, id: nat) {
    InList(s.list, id) + s.due[(id, s.exit)] + s.ran[(id, s.exit)] + (if id in s.detached then 1 else 0)
    == if id in s.attached then 1 else 0
  }

  /** A callback taken out carries the exit reason. */
  predicate ReasonOk(s: State, c: (nat, nat)) {
    c in s.due || c in s.ran ==> c.1 == s.exit && s.exit != NOT_EXITED
  }

  ghost predicate Inv(s: State) {
    && (forall id :: OnePlace(s, id))
    && (forall c :: ReasonOk(s, c))
    && (s.exit != NOT_EXITED ==> s.list == [])
  }

  lemma {:induction false} InListMeaning(list: seq<Entry>, id: nat)
    ensures InList(list, id) > 0 <==> id in Ids(list)
  {
    if list != [] {
      InListMeaning(list[1..], id);
      assert list == [list[0]] + list[1..];
      assert Ids(list) == {list[0].id} + Ids(list[1..]);
    }
  }

  lemma {:induction false} InListKept(list: seq<Entry>, what: Entry -> bool, id: nat)
    ensures InList(Kept(what, list), id) <= InList(list, id)
  {
    if list != [] {
      InListKept(list[1..], what, id);
      var head, rest := [list[0]], Kept(what, list[1..]);
      if what(list[0]) {
        assert [] + rest == rest;
      } else {
        assert (head + rest)[1..] == rest;
      }
    }
  }

  lemma {:induction false} DueCount(list: seq<Entry>, reason: nat, c: (nat, nat))
    ensures Due(list, reason)[c] == if c.1 == reason then InList(list, c.0) else 0
  {
    if list != [] {
      DueCount(list[1..], reason, c);
    }
  }

  lemma DetachKeepsPlace(s: State, kind: nat, id: nat)
    requires OnePlace(s, id)
    ensures OnePlace(Next(s, Detach(kind)), id)
  {
    var kept := Kept(OfKind(kind), s.list);
    InListMeaning(s.list, id);
    InListMeaning(kept, id);
    InListKept(s.list, OfKind(kind), id);
  }

  lemma CleanupKeepsPlace(s: State, reason: nat, id: nat)
    requires Inv(s) && reason != NOT_EXITED && s.exit == NOT_EXITED
    ensures OnePlace(Next(s, Cleanup(reason)), id)
  {
    DueCount(s.list, reason, (id, reason));
    assert OnePlace(s, id) && ReasonOk(s, (id, reason)) && ReasonOk(s, (id, NOT_EXITED));
  }

  lemma AttachKeepsPlace(s: State, x: Entry, id: nat)
    requires OnePlace(s, id)
    ensures OnePlace(Next(s, Attach(x)), id)
  {
    assert ([x] + s.list)[1..] == s.list;
  }

  lemma NextKeepsPlace(s: State, e: Event, id: nat)
    requires Inv(s)
    ensures OnePlace(Next(s, e), id)
  {
    assert OnePlace(s, id);
    match e
    case Attach(x) => AttachKeepsPlace(s, x, id);
    case Detach(kind) => DetachKeepsPlace(s, kind, id);
    case Cleanup(reason) =>
      if reason != NOT_EXITED && s.exit == NOT_EXITED {
        CleanupKeepsPlace(s, reason, id);
      }
    case Call(_, _) =>
  }

  lemma NextKeepsReason(s: State, e: Event, c: (nat, nat))
    requires ReasonOk(s, c)
    ensures ReasonOk(Next(s, e), c)
  {
    match e
    case Attach(_) =>
    case Detach(_) =>
    case Cleanup(reason) => DueCount(s.list, reason, c);
    case Call(_, _) =>
  }

  lemma NextKeepsInv(s: State, e: Event)
    requires Inv(s)
    ensures Inv(Next(s, e))
  {
    var s' := Next(s, e);
    forall id
      ensures OnePlace(s', id)
    {
      NextKeepsPlace(s, e, id);
    }
    forall c
      ensures ReasonOk(s', c)
    {
      NextKeepsReason(s, e, c);
    }
  }

  lemma {:induction false} RunKeepsInv(events: seq<Event>)
    ensures Inv(Run(events))
  {
    if events != [] {
      RunKeepsInv(events[..|events| - 1]);
      NextKeepsInv(Run(events[..|events| - 1]), events[|events| - 1]);
    }
  }

  lemma {:induction false} FirstReasonAppend(events: seq<Event>, e: Event)
    ensures FirstReason(events + [e]) ==
            if FirstReason(events) != NOT_EXITED then FirstReason(events)
            else if e.Cleanup? then e.reason else NOT_EXITED
  {
    if events == [] {
      assert [] + [e] == [e] && [e][1..] == [];
    } else {
      assert (events + [e])[1..] == events[1..] + [e];
      FirstReasonAppend(events[1..], e);
    }
  }

  lemma NextExit(s: State, e: Event)
    ensures Next(s, e).exit ==
            if s.exit != NOT_EXITED then s.exit else if e.Cleanup? then e.reason else NOT_EXITED
  {
  }

  lemma {:induction false} ExitIsFirstReason(events: seq<Event>)
    ensures Run(events).exit == FirstReason(events)
  {
    if events != [] {
      var before, e := events[..|events| - 1], events[|events| - 1];
      ExitIsFirstReason(before);
      NextExit(Run(before), e);
      assert FirstReason(events) == FirstReason(before + [e]) by {
        assert events == before + [e];
      }
      FirstReasonAppend(before, e);
    }
  }

  // ---------------------------------------------------------------- what was attached and detached

  /** The kind under which an id was first attached; an id is attached once. */
  function AttachedAs(events: seq<Event>, id: nat): Option<nat> {
    if events == [] then None
    else
      var before, e := events[..|events| - 1], events[|events| - 1];
      if AttachedAs(before, id).Some? then AttachedAs(before, id)
      else if e.Attach? && e.entry.id == id then Some(e.entry.kind)
      else None
  }

  /** It was detached: some detach asked for its kind after it was attached and before the
      first cleanup. */
  predicate DetachedIn(events: seq<Event>, id: nat) {
    events != []
    && var before, e := events[..|events| - 1], events[|events| - 1];
       DetachedIn(before, id)
       || (e.Detach? && FirstReason(before) == NOT_EXITED && AttachedAs(before, id) == Some(e.kind))
  }

  /** The state knows exactly that, and the list keeps the kinds. */
  ghost predicate Remembers(s: State, events: seq<Event>, id: nat) {
    && (id in s.attached <==> AttachedAs(events, id).Some?)
    && (id in s.detached <==> DetachedIn(events, id))
    && forall x :: x in s.list && x.id == id ==> AttachedAs(events, id) == Some(x.kind)
  }

  lemma {:induction false} OnlyOne(list: seq<Entry>, id: nat)
    ensures InList(list, id) == 0 <==> forall x :: x in list ==> x.id != id
  {
    if list != [] {
      OnlyOne(list[1..], id);
      assert list == [list[0]] + list[1..];
    }
  }

  lemma DetachRemembers(s: State, events: seq<Event>, kind: nat, id: nat)
    requires Inv(s) && Remembers(s, events, id) && s.exit == FirstReason(events)
    ensures Remembers(Next(s, Detach(kind)), events + [Detach(kind)], id)
  {
    var kept := Kept(OfKind(kind), s.list);
    assert (events + [Detach(kind)])[..|events|] == events;
    KeptMeaning(OfKind(kind), s.list);
    OnlyOne(s.list, id);
    assert OnePlace(s, id) && ReasonOk(s, (id, NOT_EXITED));
    IdsMeaning(s.list, id);
    IdsMeaning(kept, id);
  }

  lemma IdsMeaning(list: seq<Entry>, id: nat)
    ensures id in Ids(list) <==> exists x :: x in list && x.id == id
  {
  }

  lemma StepRemembers(s: State, events: seq<Event>, e: Event, id: nat)
    requires Inv(s) && Remembers(s, events, id) && s.exit == FirstReason(events)
    ensures Remembers(Next(s, e), events + [e], id)
  {
    if e.Detach? {
      DetachRemembers(s, events, e.kind, id);
    } else {
      assert (events + [e])[..|events|] == events;
      OnlyOne(s.list, id);
      assert OnePlace(s, id);
    }
  }

  lemma {:induction false} RunRemembers(events: seq<Event>, id: nat)
    ensures Remembers(Run(events), events, id)
  {
    if events != [] {
      var before, e := events[..|events| - 1], events[|events| - 1];
      RunRemembers(before, id);
      RunKeepsInv(before);
      ExitIsFirstReason(before);
      StepRemembers(Run(before), before, e, id);
      assert events == before + [e];
    }
  }

  // ---------------------------------------------------------------- the theorems

  /** Attached and never detached. */
  predicate Stays(events: seq<Event>, id: nat) {
    AttachedAs(events, id).Some? && !DetachedIn(events, id)
  }

  /** In every interleaving, once the actor has exited and no callback is outstanding, each
      callback attached and never detached has run exactly once, with the reason of the first
      cleanup, and no other callback has run. */
  lemma EachCallbackOnce(events: seq<Event>, id: nat, reason: nat)
    requires FirstReason(events) != NOT_EXITED && Run(events).due == multiset{}
    ensures Run(events).ran[(id, reason)] == if Stays(events, id) && reason == FirstReason(events) then 1 else 0
  {
    RunKeepsInv(events);
    ExitIsFirstReason(events);
    RunRemembers(events, id);
    assert OnePlace(Run(events), id) && ReasonOk(Run(events), (id, reason));
  }

  /** Before that, too: never twice, never after being detached, never with another reason. */
  lemma NeverTwice(events: seq<Event>, id: nat, reason: nat)
    ensures var s := Run(events);
            s.ran[(id, reason)] <= if Stays(events, id) && reason == FirstReason(events) then 1 else 0
  {
    RunKeepsInv(events);
    ExitIsFirstReason(events);
    RunRemembers(events, id);
    assert OnePlace(Run(events), id) && ReasonOk(Run(events), (id, reason));
  }

  predicate CallsOnly(events: seq<Event>) {
    forall e :: e in events ==> e.Call?
  }

  /** More events, first to last. */
  function Play(s: State, events: seq<Event>): State
    decreases |events|
  {
    if events == [] then s else Play(Next(s, events[0]), events[1..])
  }

  lemma {:induction false} RunPlays(events: seq<Event>, more: seq<Event>)
    ensures Run(events + more) == Play(Run(events), more)
    decreases |more|
  {
    if more == [] {
      assert events + more == events;
    } else {
      var e, rest := more[0], more[1..];
      RunPlays(events + [e], rest);
      Regroup(events, e, rest);
      assert more == [e] + rest;
      RunAppend(events, e);
      PlayFirst(Run(events), e, rest);
    }
  }

  lemma Regroup(a: seq<Event>, e: Event, b: seq<Event>)
    ensures a + [e] + b == a + ([e] + b)
  {
  }

  lemma PlayFirst(s: State, e: Event, rest: seq<Event>)
    ensures Play(s, [e] + rest) == Play(Next(s, e), rest)
  {
    assert ([e] + rest)[1..] == rest;
  }

  lemma RunAppend(events: seq<Event>, e: Event)
    ensures Run(events + [e]) == Next(Run(events), e)
  {
    assert (events + [e])[..|events|] == events;
  }

  /** A callback that is due runs. */
  lemma CallRuns(s: State, id: nat, reason: nat)
    requires (id, reason) in s.due
    ensures var s' := Next(s, Call(id, reason));
            |s'.due| == |s.due| - 1 && s'.exit == s.exit && s'.ran == s.ran + multiset{(id, reason)}
  {
  }

  lemma {:induction false} CallsDrain(s: State) returns (calls: seq<Event>)
    ensures CallsOnly(calls) && Play(s, calls).due == multiset{} && Play(s, calls).exit == s.exit
    decreases |s.due|
  {
    if s.due == multiset{} {
      calls := [];
    } else {
      var c :| c in s.due;
      CallRuns(s, c.0, c.1);
      var rest := CallsDrain(Next(s, Call(c.0, c.1)));
      calls := [Call(c.0, c.1)] + rest;
      assert calls[1..] == rest;
    }
  }

  /** From every point of every run the callbacks that are due can run. Once the actor has exited, each
      callback attached and never detached has then run exactly once. */
  lemma CallsCanRun(events: seq<Event>) returns (calls: seq<Event>)
    ensures CallsOnly(calls) && Run(events + calls).due == multiset{}
    ensures FirstReason(events + calls) == FirstReason(events)
  {
    calls := CallsDrain(Run(events));
    RunPlays(events, calls);
    ExitIsFirstReason(events);
    ExitIsFirstReason(events + calls);
  }
}
