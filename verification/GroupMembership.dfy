/**
 A group at its home node and its proxies on other nodes. A proxy sends JOIN to the home
 broker when its node gets a first subscriber and LEAVE when it loses the last one; the
 broker keeps the set of proxies it forwards to.
 */
module GroupMembership {

  type Actor = nat

  /** The invalid address. */
  const NOBODY: Actor := 0

  datatype Control = Join | Leave

  // ---------------------------------------------------------------- subscribing in place

  class LocalGroup {
    var subscribers: set<Actor>

    constructor ()
      ensures subscribers == {}
    {
      subscribers := {};
    }

    method AddSubscriber(who: Actor) returns (added: bool, size: nat)
      modifies this
      ensures subscribers == old(subscribers) + (if who == NOBODY then {} else {who})
      ensures added <==> subscribers != old(subscribers)
      ensures size == |subscribers|
    {
      added := who != NOBODY && who !in subscribers;
      if added {
        subscribers := subscribers + {who};
      }
      size := |subscribers|;
    }

    method EraseSubscriber(who: Actor) returns (removed: bool, size: nat)
      modifies this
      ensures subscribers == old(subscribers) - {who}
      ensures removed <==> subscribers != old(subscribers)
      ensures size == |subscribers|
    {
      removed := who in subscribers;
      subscribers := subscribers - {who};
      size := |subscribers|;
    }

    /** The proxy's subscribe: JOIN exactly when the node had no subscriber and now has one. */
    method Subscribe(who: Actor) returns (out: seq<Control>)
      modifies this
      ensures subscribers == old(subscribers) + (if who == NOBODY then {} else {who})
      ensures out == if old(subscribers) == {} && who != NOBODY then [Join] else []
      ensures out == Announce(old(subscribers), subscribers)
    {
      var added, size := AddSubscriber(who);
      out := if added && size == 1 then [Join] else [];
      assert old(subscribers) == {} && added ==> subscribers == {who};
    }

    /** The proxy's unsubscribe: LEAVE exactly when the last subscriber went. */
    method Unsubscribe(who: Actor) returns (out: seq<Control>)
      modifies this
      ensures subscribers == old(subscribers) - {who}
      ensures out == if old(subscribers) == {who} then [Leave] else []
      ensures out == Announce(old(subscribers), subscribers)
    {
      var removed, size := EraseSubscriber(who);
      out := if removed && size == 0 then [Leave] else [];
    }

    /** Every subscriber is sent the message once. */
    method SendAllSubscribers() returns (reached: multiset<Actor>)
      ensures forall a :: reached[a] == if a in subscribers then 1 else 0
    {
      reached := multiset{};
      var todo := subscribers;
      while todo != {}
        invariant todo <= subscribers
        invariant forall a :: reached[a] == if a in subscribers && a !in todo then 1 else 0
        decreases todo
      {
        var a :| a in todo;
        todo, reached := todo - {a}, reached + multiset{a};
      }
    }
  }

  /** What a proxy tells the home broker when its subscribers change. */
  function Announce(before: set<Actor>, after: set<Actor>): seq<Control> {
    if before == {} && after != {} then [Join]
    else if before != {} && after == {} then [Leave]
    else []
  }

  // ---------------------------------------------------------------- membership over a run

  /** A proxy decides what to announce while it holds its lock and sends it after letting go, so
      another thread may come between. `unsent[p]` is what proxy p has decided on and not yet
      sent, `queues[p]` what it has sent and the broker has not yet handled, in order. */
  datatype Net = Net(
    subs: seq<set<Actor>>,
    unsent: seq<seq<Control>>,
    queues: seq<seq<Control>>,
    acquaintances: set<nat>)

  datatype Event = Sub(p: nat, who: Actor) | Unsub(p: nat, who: Actor) | Send(p: nat, i: nat) | Handle(p: nat)

  function Init(nodes: nat): Net {
    Net(seq(nodes, i => {}), seq(nodes, i => []), seq(nodes, i => []), {})
  }

  predicate Shape(s: Net) {
    |s.subs| == |s.unsent| == |s.queues|
  }

  /** p's subscribers after an event. */
  function SubsAfter(s: Net, e: Event, p: nat): set<Actor>
    requires p < |s.subs|
  {
    if e.p != p then s.subs[p]
    else
      match e
      case Sub(_, who) => s.subs[p] + if who == NOBODY then {} else {who}
      case Unsub(_, who) => s.subs[p] - {who}
      case _ => s.subs[p]
  }

  function Change(s: Net, p: nat, after: set<Actor>): Net
    requires Shape(s) && p < |s.subs|
  {
    s.(subs := s.subs[p := after], unsent := s.unsent[p := s.unsent[p] + Announce(s.subs[p], after)])
  }

  function Next(s: Net, e: Event): Net {
    if !Shape(s) || e.p >= |s.subs| then s
    else
      var p := e.p;
      match e
      case Send(_, i) =>
        if i >= |s.unsent[p]| then s
        else s.(unsent := s.unsent[p := s.unsent[p][..i] + s.unsent[p][i + 1..]],
                queues := s.queues[p := s.queues[p] + [s.unsent[p][i]]])
      case Handle(_) =>
        if s.queues[p] == [] then s
        else s.(queues := s.queues[p := s.queues[p][1..]],
                acquaintances := if s.queues[p][0] == Join then s.acquaintances + {p} else s.acquaintances - {p})
      case _ => Change(s, p, SubsAfter(s, e, p))
  }

  function Run(nodes: nat, events: seq<Event>): Net {
    if events == [] then Init(nodes) else Next(Run(nodes, events[..|events| - 1]), events[|events| - 1])
  }

  /** Membership once the queued messages are handled. */
  function Settled(member: bool, queue: seq<Control>): bool
    decreases queue
  {
    if queue == [] then member else Settled(queue[0] == Join, queue[1..])
  }

  lemma {:induction false} SettledAppend(member: bool, queue: seq<Control>, c: Control)
    ensures Settled(member, queue + [c]) == (c == Join)
    decreases queue
  {
    if queue == [] {
      assert [] + [c] == [c] && [c][1..] == [];
    } else {
      assert (queue + [c])[1..] == queue[1..] + [c];
      SettledAppend(queue[0] == Join, queue[1..], c);
    }
  }

  lemma {:induction false} RunShape(nodes: nat, events: seq<Event>)
    ensures Shape(Run(nodes, events)) && |Run(nodes, events).subs| == nodes
    ensures forall p :: p in Run(nodes, events).acquaintances ==> p < nodes
  {
    if events != [] {
      RunShape(nodes, events[..|events| - 1]);
    }
  }

  // When every announcement is sent in the order of the decisions.

  /** Only the oldest decision of a proxy is ever sent. */
  ghost predicate SentInOrder(events: seq<Event>) {
    forall e :: e in events && e.Send? ==> e.i == 0
  }

  ghost predicate Settles(s: Net, p: nat)
    requires Shape(s) && p < |s.subs|
  {
    Settled(p in s.acquaintances, s.queues[p] + s.unsent[p]) == (s.subs[p] != {})
  }

  lemma NextSettles(s: Net, e: Event, p: nat)
    requires Shape(s) && p < |s.subs| && Settles(s, p) && (e.Send? ==> e.i == 0)
    ensures Shape(Next(s, e)) && |Next(s, e).subs| == |s.subs| && Settles(Next(s, e), p)
  {
    if e.p == p {
      var all := s.queues[p] + s.unsent[p];
      match e
      case Send(_, i) =>
        if s.unsent[p] != [] {
          assert Next(s, e).queues[p] + Next(s, e).unsent[p] == all;
        }
      case Handle(_) =>
        if s.queues[p] != [] {
          assert Next(s, e).queues[p] + Next(s, e).unsent[p] == all[1..];
        }
      case _ =>
        ChangeSettles(s, p, SubsAfter(s, e, p));
    }
  }

  lemma ChangeSettles(s: Net, p: nat, after: set<Actor>)
    requires Shape(s) && p < |s.subs| && Settles(s, p)
    ensures Settles(Change(s, p, after), p)
  {
    var all, more := s.queues[p] + s.unsent[p], Announce(s.subs[p], after);
    assert s.queues[p] + (s.unsent[p] + more) == all + more;
    if more == [] {
      assert all + more == all;
    } else {
      SettledAppend(p in s.acquaintances, all, more[0]);
    }
  }

  /** In every run that sends in order: handling all that is under way would leave exactly the
      proxies whose node has a subscriber. */
  lemma {:induction false} MembershipSettles(nodes: nat, events: seq<Event>, p: nat)
    requires SentInOrder(events) && p < nodes
    ensures Shape(Run(nodes, events)) && |Run(nodes, events).subs| == nodes
    ensures Settles(Run(nodes, events), p)
  {
    if events != [] {
      var before, e := events[..|events| - 1], events[|events| - 1];
      assert e in events && forall x :: x in before ==> x in events;
      MembershipSettles(nodes, before, p);
      NextSettles(Run(nodes, before), e, p);
    }
  }

  // Whatever the order.

  /** The last control message proxy p sent; at the start the broker acts as if it had left. */
  function LastSent(nodes: nat, events: seq<Event>, p: nat): Control {
    if events == [] then Leave
    else
      var before, e := events[..|events| - 1], events[|events| - 1];
      var s := Run(nodes, before);
      if e.Send? && e.p == p && p < |s.unsent| && e.i < |s.unsent[p]| then s.unsent[p][e.i]
      else LastSent(nodes, before, p)
  }

  /** The last one it decided to send. */
  function LastDecided(nodes: nat, events: seq<Event>, p: nat): Control {
    if events == [] then Leave
    else
      var before, e := events[..|events| - 1], events[|events| - 1];
      var s := Run(nodes, before);
      if p >= |s.subs| || Announce(s.subs[p], SubsAfter(s, e, p)) == [] then LastDecided(nodes, before, p)
      else Announce(s.subs[p], SubsAfter(s, e, p))[0]
  }

  /** The broker will know what was sent last, the subscribers are what was decided last. */
  lemma {:induction false} LastMeaning(nodes: nat, events: seq<Event>, p: nat)
    requires p < nodes
    ensures Shape(Run(nodes, events)) && |Run(nodes, events).subs| == nodes
    ensures var s := Run(nodes, events);
            && Settled(p in s.acquaintances, s.queues[p]) == (LastSent(nodes, events, p) == Join)
            && (s.subs[p] != {}) == (LastDecided(nodes, events, p) == Join)
  {
    if events != [] {
      var before, e := events[..|events| - 1], events[|events| - 1];
      var s := Run(nodes, before);
      LastMeaning(nodes, before, p);
      if e.Send? && e.p == p && e.i < |s.unsent[p]| {
        SettledAppend(p in s.acquaintances, s.queues[p], s.unsent[p][e.i]);
      }
    }
  }

  /** In every run: what the broker will make of the messages sent is right for p if and only if
      the last one p sent is the kind it decided on last. */
  lemma SettlesIff(nodes: nat, events: seq<Event>, p: nat)
    requires p < nodes
    ensures Shape(Run(nodes, events)) && |Run(nodes, events).subs| == nodes
    ensures var s := Run(nodes, events);
            Settled(p in s.acquaintances, s.queues[p]) == (s.subs[p] != {})
            <==> LastSent(nodes, events, p) == LastDecided(nodes, events, p)
  {
    LastMeaning(nodes, events, p);
  }

  /** The broker forwards to exactly the nodes that have subscribers. */
  ghost predicate Exact(s: Net) {
    forall p: nat :: ExactFor(s, p)
  }

  /** The message last sent is of the kind last decided on. */
  predicate InStep(nodes: nat, events: seq<Event>, p: nat) {
    LastSent(nodes, events, p) == LastDecided(nodes, events, p)
  }

  predicate ExactFor(s: Net, p: nat) {
    p in s.acquaintances <==> p < |s.subs| && s.subs[p] != {}
  }

  lemma QuietFor(nodes: nat, events: seq<Event>, p: nat)
    requires forall q :: q in Run(nodes, events).queues ==> q == []
    ensures ExactFor(Run(nodes, events), p) <==> p >= nodes || InStep(nodes, events, p)
  {
    RunShape(nodes, events);
    if p < nodes {
      var s := Run(nodes, events);
      SettlesIff(nodes, events, p);
      assert s.queues[p] in s.queues;
    }
  }

  /** With no message at the broker it forwards to exactly the nodes that have subscribers, if
      and only if every proxy sent last what it decided last. */
  lemma QuietMeansExactIff(nodes: nat, events: seq<Event>)
    requires forall q :: q in Run(nodes, events).queues ==> q == []
    ensures Exact(Run(nodes, events)) <==> forall p: nat :: p < nodes ==> InStep(nodes, events, p)
  {
    forall p: nat
      ensures ExactFor(Run(nodes, events), p) <==> p >= nodes || InStep(nodes, events, p)
    {
      QuietFor(nodes, events, p);
    }
  }

  /** Sending in order is enough: with nothing under way membership is exact. */
  lemma QuietMeansExact(nodes: nat, events: seq<Event>)
    requires SentInOrder(events)
    requires forall q :: q in Run(nodes, events).queues || q in Run(nodes, events).unsent ==> q == []
    ensures Exact(Run(nodes, events))
  {
    RunShape(nodes, events);
    var s := Run(nodes, events);
    forall p: nat
      ensures ExactFor(s, p)
    {
      if p < nodes {
        MembershipSettles(nodes, events, p);
        assert s.queues[p] in s.queues && s.unsent[p] in s.unsent;
        assert s.queues[p] + s.unsent[p] == [];
      }
    }
  }

  ghost predicate Reachable(nodes: nat, s: Net) {
    exists events :: Run(nodes, events) == s
  }

  lemma ReachNext(nodes: nat, s: Net, e: Event)
    requires Reachable(nodes, s)
    ensures Reachable(nodes, Next(s, e))
  {
    var events :| Run(nodes, events) == s;
    assert (events + [e])[..|events|] == events;
    assert Run(nodes, events + [e]) == Next(s, e);
  }

  /** A net with one node. */
  function One(subs: set<Actor>, unsent: seq<Control>, queue: seq<Control>, acquaintances: set<nat>): Net {
    Net([subs], [unsent], [queue], acquaintances)
  }

  lemma ReachSub(subs: set<Actor>, unsent: seq<Control>, e: Event, subs': set<Actor>, unsent': seq<Control>)
    requires Reachable(1, One(subs, unsent, [], {})) && e.p == 0 && (e.Sub? || e.Unsub?)
    requires subs' == SubsAfter(One(subs, unsent, [], {}), e, 0) && unsent' == unsent + Announce(subs, subs')
    ensures Reachable(1, One(subs', unsent', [], {}))
  {
    var s := One(subs, unsent, [], {});
    ReachNext(1, s, e);
    assert Next(s, e) == One(subs', unsent', [], {});
  }

  lemma ReachSend(subs: set<Actor>, unsent: seq<Control>, queue: seq<Control>, i: nat, unsent': seq<Control>, queue': seq<Control>)
    requires Reachable(1, One(subs, unsent, queue, {})) && i < |unsent|
    requires unsent' == unsent[..i] + unsent[i + 1..] && queue' == queue + [unsent[i]]
    ensures Reachable(1, One(subs, unsent', queue', {}))
  {
    var s := One(subs, unsent, queue, {});
    ReachNext(1, s, Send(0, i));
    assert Next(s, Send(0, i)) == One(subs, unsent', queue', {});
  }

  lemma ReachHandle(subs: set<Actor>, c: Control, queue: seq<Control>, known: set<nat>, known': set<nat>)
    requires Reachable(1, One(subs, [], [c] + queue, known))
    requires known' == if c == Join then known + {0} else known - {0}
    ensures Reachable(1, One(subs, [], queue, known'))
  {
    var s := One(subs, [], [c] + queue, known);
    ReachNext(1, s, Handle(0));
    assert ([c] + queue)[1..] == queue;
    assert Next(s, Handle(0)) == One(subs, [], queue, known');
  }

  /** Out of order it goes wrong. On one node 5 subscribes and unsubscribes, 6 subscribes, and
      the LEAVE is sent last: nothing is under way, 6 is subscribed, and the broker does not
      forward to its node. */
  lemma LeaveOvertaken()
    ensures Reachable(1, Net([{6}], [[]], [[]], {})) && !Exact(Net([{6}], [[]], [[]], {}))
  {
    OvertakenDecided();
    OvertakenSent();
    OvertakenHandled();
    assert !ExactFor(One({6}, [], [], {}), 0);
  }

  lemma OvertakenDecided()
    ensures Reachable(1, One({6}, [Join, Leave, Join], [], {}))
  {
    assert Run(1, []) == One({}, [], [], {});
    ReachSub({}, [], Sub(0, 5), {5}, [Join]);
    ReachSub({5}, [Join], Unsub(0, 5), {}, [Join, Leave]);
    ReachSub({}, [Join, Leave], Sub(0, 6), {6}, [Join, Leave, Join]);
  }

  lemma OvertakenSent()
    requires Reachable(1, One({6}, [Join, Leave, Join], [], {}))
    ensures Reachable(1, One({6}, [], [Join] + ([Join] + ([Leave] + [])), {}))
  {
    ReachSend({6}, [Join, Leave, Join], [], 0, [Leave, Join], [Join]);
    ReachSend({6}, [Leave, Join], [Join], 1, [Leave], [Join, Join]);
    ReachSend({6}, [Leave], [Join, Join], 0, [], [Join] + ([Join] + ([Leave] + [])));
  }

  lemma OvertakenHandled()
    requires Reachable(1, One({6}, [], [Join] + ([Join] + ([Leave] + [])), {}))
    ensures Reachable(1, One({6}, [], [], {}))
  {
    ReachHandle({6}, Join, [Join] + ([Leave] + []), {}, {0});
    ReachHandle({6}, Join, [Leave] + [], {0}, {0});
    ReachHandle({6}, Leave, [], {0}, {});
  }

  // ---------------------------------------------------------------- what happened, and what can happen

  /** The last word on who at node p: subscribed, and not unsubscribed since. */
  predicate LastWord(events: seq<Event>, p: nat, who: Actor) {
    events != []
    && (events[|events| - 1] == Sub(p, who)
        || (events[|events| - 1] != Unsub(p, who) && LastWord(events[..|events| - 1], p, who)))
  }

  /** The subscribers are those who subscribed last. */
  lemma {:induction false} SubsMeaning(nodes: nat, events: seq<Event>, p: nat, who: Actor)
    requires p < nodes
    ensures Shape(Run(nodes, events)) && |Run(nodes, events).subs| == nodes
    ensures who in Run(nodes, events).subs[p] <==> who != NOBODY && LastWord(events, p, who)
  {
    if events != [] {
      SubsMeaning(nodes, events[..|events| - 1], p, who);
    }
  }

  lemma RunAppend(nodes: nat, events: seq<Event>, e: Event)
    ensures Run(nodes, events + [e]) == Next(Run(nodes, events), e)
  {
    assert (events + [e])[..|events|] == events;
  }

  predicate Quiet(s: Net, p: nat) {
    p < |s.unsent| && p < |s.queues| && s.unsent[p] == [] && s.queues[p] == []
  }

  /** Sending p's oldest decision, or handling p's oldest message. */
  lemma MoveOn(s: Net, p: nat) returns (e: Event)
    requires Shape(s) && p < |s.subs| && !Quiet(s, p)
    ensures e == Send(p, 0) || e == Handle(p)
    ensures var s' := Next(s, e);
            && Shape(s') && s'.subs == s.subs
            && 2 * |s'.unsent[p]| + |s'.queues[p]| < 2 * |s.unsent[p]| + |s.queues[p]|
            && forall q :: 0 <= q < |s.subs| && q != p && Quiet(s, q) ==> Quiet(s', q)
  {
    e := if s.queues[p] != [] then Handle(p) else Send(p, 0);
  }

  ghost predicate SendsAndHandles(events: seq<Event>) {
    forall e :: e in events ==> e.Handle? || (e.Send? && e.i == 0)
  }

  lemma {:induction false} DrainOne(nodes: nat, events: seq<Event>, p: nat) returns (more: seq<Event>)
    requires p < nodes
    ensures SendsAndHandles(more) && Quiet(Run(nodes, events + more), p)
    ensures Run(nodes, events + more).subs == Run(nodes, events).subs
    ensures forall q :: 0 <= q < nodes && q != p && Quiet(Run(nodes, events), q) ==> Quiet(Run(nodes, events + more), q)
    decreases var s := Run(nodes, events);
              if Shape(s) && p < |s.subs| then 2 * |s.unsent[p]| + |s.queues[p]| else 0
  {
    RunShape(nodes, events);
    if Quiet(Run(nodes, events), p) {
      more := [];
      assert events + [] == events;
    } else {
      var e := MoveOn(Run(nodes, events), p);
      RunAppend(nodes, events, e);
      var rest := DrainOne(nodes, events + [e], p);
      more := [e] + rest;
      assert events + [e] + rest == events + more;
    }
  }

  lemma {:induction false} DrainAll(nodes: nat, events: seq<Event>, k: nat) returns (more: seq<Event>)
    requires k <= nodes
    ensures SendsAndHandles(more) && Run(nodes, events + more).subs == Run(nodes, events).subs
    ensures forall p :: 0 <= p < k ==> Quiet(Run(nodes, events + more), p)
  {
    if k == 0 {
      more := [];
      assert events + [] == events;
    } else {
      var first := DrainAll(nodes, events, k - 1);
      var second := DrainOne(nodes, events + first, k - 1);
      more := first + second;
      assert events + first + second == events + more;
    }
  }

  /** From every state of every run that sends in order, sending and handling what is there
      leads to a broker that forwards to exactly the nodes with subscribers. */
  lemma MembershipCanSettle(nodes: nat, events: seq<Event>) returns (more: seq<Event>)
    requires SentInOrder(events)
    ensures SendsAndHandles(more) && Run(nodes, events + more).subs == Run(nodes, events).subs
    ensures Exact(Run(nodes, events + more)) && forall p :: 0 <= p < nodes ==> Quiet(Run(nodes, events + more), p)
  {
    more := DrainAll(nodes, events, nodes);
    var s := Run(nodes, events + more);
    RunShape(nodes, events + more);
    forall q | q in s.queues || q in s.unsent
      ensures q == []
    {
      var p :| 0 <= p < nodes && (s.queues[p] == q || s.unsent[p] == q);
      assert Quiet(s, p);
    }
    QuietMeansExact(nodes, events + more);
  }
}
