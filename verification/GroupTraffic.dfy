/**
 The fan-out of group messages while membership changes: one run holds the subscribers at home
 and on the other nodes, their JOIN and LEAVE messages, and the messages posted to the group.
 */
module GroupTraffic {
  import opened GroupMembership

  /** An ordinary message at the broker: posted at home, or wrapped by a proxy. */
  datatype BrokerMail = Posted(id: nat) | Forward(id: nat)

  datatype Place = Home | Node(p: nat)

  /** What is at the broker and at the proxies, and who was sent what. */
  datatype Fan = Fan(
    broker: multiset<BrokerMail>,
    proxies: multiset<(nat, nat)>,
    delivered: multiset<(Place, Actor, nat)>,
    posted: set<nat>)

  datatype World = World(net: Net, home: set<Actor>, fan: Fan)

  datatype Happening =
    | Membership(e: Event)
    | HomeSub(who: Actor)
    | HomeUnsub(who: Actor)
    | PostHome(id: nat)
    | PostProxy(id: nat)
    | BrokerTakes(m: BrokerMail)
    | ProxyTakes(p: nat, id: nat)

  function ToAll(who: set<Actor>, at: Place, id: nat): multiset<(Place, Actor, nat)> {
    multiset(set a | a in who :: (at, a, id))
  }

  function ToProxies(acquaintances: set<nat>, id: nat): multiset<(nat, nat)> {
    multiset(set p | p in acquaintances :: (p, id))
  }

  /** Messages move on to whoever is subscribed or known at that moment. Every message has an id
      of its own. */
  function FanNext(w: World, h: Happening): Fan {
    var s := w.fan;
    match h
    case PostHome(id) =>
      if id in s.posted then s
      else s.(delivered := s.delivered + ToAll(w.home, Home, id), broker := s.broker + multiset{Posted(id)},
              posted := s.posted + {id})
    case PostProxy(id) =>
      if id in s.posted then s
      else s.(broker := s.broker + multiset{Forward(id)}, posted := s.posted + {id})
    case BrokerTakes(m) =>
      if m !in s.broker then s
      else
        s.(broker := s.broker - multiset{m},
           proxies := s.proxies + ToProxies(w.net.acquaintances, m.id),
           delivered := s.delivered + if m.Forward? then ToAll(w.home, Home, m.id) else multiset{})
    case ProxyTakes(p, id) =>
      if (p, id) !in s.proxies || p >= |w.net.subs| then s
      else s.(proxies := s.proxies - multiset{(p, id)}, delivered := s.delivered + ToAll(w.net.subs[p], Node(p), id))
    case _ => s
  }

  function WorldNext(w: World, h: Happening): World {
    match h
    case Membership(e) => w.(net := Next(w.net, e))
    case HomeSub(who) => w.(home := w.home + if who == NOBODY then {} else {who})
    case HomeUnsub(who) => w.(home := w.home - {who})
    case _ => w.(fan := FanNext(w, h))
  }

  function Start(nodes: nat): World {
    World(Init(nodes), {}, Fan(multiset{}, multiset{}, multiset{}, {}))
  }

  function WorldRun(w: World, run: seq<Happening>): World
    decreases |run|
  {
    if run == [] then w else WorldRun(WorldNext(w, run[0]), run[1..])
  }

  predicate Subscribed(w: World, at: Place, a: Actor) {
    match at
    case Home => a in w.home
    case Node(p) => p < |w.net.subs| && a in w.net.subs[p]
  }

  // ---------------------------------------------------------------- what happened

  ghost predicate PostedIn(run: seq<Happening>, id: nat) {
    PostHome(id) in run || PostProxy(id) in run
  }

  predicate Posts(h: Happening, id: nat) {
    (h.PostHome? || h.PostProxy?) && h.id == id
  }

  /** The last word of an actor at a place: subscribed, and not unsubscribed since. */
  predicate LastWordAt(run: seq<Happening>, at: Place, a: Actor) {
    run != []
    && (run[|run| - 1] == Joining(at, a) || (run[|run| - 1] != Parting(at, a) && LastWordAt(run[..|run| - 1], at, a)))
  }

  function Joining(at: Place, a: Actor): Happening {
    match at
    case Home => HomeSub(a)
    case Node(p) => Membership(Sub(p, a))
  }

  function Parting(at: Place, a: Actor): Happening {
    match at
    case Home => HomeUnsub(a)
    case Node(p) => Membership(Unsub(p, a))
  }

  lemma {:induction false} WorldRunLast(w: World, run: seq<Happening>, h: Happening)
    ensures WorldRun(w, run + [h]) == WorldNext(WorldRun(w, run), h)
    decreases |run|
  {
    if run == [] {
      assert [] + [h] == [h] && [h][1..] == [];
      assert WorldRun(w, [h]) == WorldRun(WorldNext(w, h), []);
    } else {
      assert (run + [h])[1..] == run[1..] + [h];
      WorldRunLast(WorldNext(w, run[0]), run[1..], h);
    }
  }

  lemma {:induction false} WorldShape(w: World, run: seq<Happening>)
    requires Shape(w.net)
    ensures Shape(WorldRun(w, run).net) && |WorldRun(w, run).net.subs| == |w.net.subs|
    decreases |run|
  {
    if run != [] {
      WorldShape(WorldNext(w, run[0]), run[1..]);
    }
  }

  lemma SubscribedNext(w: World, h: Happening, at: Place, a: Actor)
    requires Shape(w.net) && a != NOBODY && (at.Node? ==> at.p < |w.net.subs|)
    ensures Subscribed(WorldNext(w, h), at, a) <==>
            h == Joining(at, a) || (h != Parting(at, a) && Subscribed(w, at, a))
  {
  }

  /** In every run the subscribers of a place are those who subscribed there last. */
  lemma {:induction false} SubscribedMeaning(nodes: nat, run: seq<Happening>, at: Place, a: Actor)
    requires a != NOBODY && (at.Node? ==> at.p < nodes)
    ensures Subscribed(WorldRun(Start(nodes), run), at, a) <==> LastWordAt(run, at, a)
  {
    if run != [] {
      var before, h := run[..|run| - 1], run[|run| - 1];
      SubscribedMeaning(nodes, before, at, a);
      WorldShape(Start(nodes), before);
      assert run == before + [h];
      WorldRunLast(Start(nodes), before, h);
      SubscribedNext(WorldRun(Start(nodes), before), h, at, a);
    }
  }

  /** And the messages posted are those of the posts. */
  lemma {:induction false} PostedMeaning(w: World, run: seq<Happening>, id: nat)
    ensures id in WorldRun(w, run).fan.posted <==> id in w.fan.posted || PostedIn(run, id)
    decreases |run|
  {
    if run != [] {
      var h, rest := run[0], run[1..];
      assert run == [h] + rest;
      PostedMeaning(WorldNext(w, h), rest, id);
      PostedNext(w, h, id);
      assert PostedIn(run, id) <==> Posts(h, id) || PostedIn(rest, id);
    }
  }

  lemma PostedNext(w: World, h: Happening, id: nat)
    ensures id in WorldNext(w, h).fan.posted <==> id in w.fan.posted || Posts(h, id)
  {
    if h.PostHome? || h.PostProxy? {
      PostGrows(w, h);
    } else {
      OthersPostNothing(w, h);
    }
  }

  lemma PostGrows(w: World, h: Happening)
    requires h.PostHome? || h.PostProxy?
    ensures WorldNext(w, h).fan.posted == w.fan.posted + {h.id}
  {
  }

  lemma OthersPostNothing(w: World, h: Happening)
    requires !h.PostHome? && !h.PostProxy?
    ensures WorldNext(w, h).fan.posted == w.fan.posted
  {
  }

  // ---------------------------------------------------------------- never twice

  /** Copies of message id on their way to a place. */
  function Pending(s: Fan, at: Place, id: nat): nat {
    match at
    case Home => s.broker[Forward(id)]
    case Node(p) => s.broker[Forward(id)] + s.broker[Posted(id)] + s.proxies[(p, id)]
  }

  /** Copies that an actor has been sent or may still be sent. */
  function Copies(s: Fan, at: Place, a: Actor, id: nat): nat {
    s.delivered[(at, a, id)] + Pending(s, at, id)
  }

  function PostedOnce(s: Fan, id: nat): nat {
    if id in s.posted then 1 else 0
  }

  predicate AtMost(s: Fan, at: Place, a: Actor, id: nat) {
    Copies(s, at, a, id) <= PostedOnce(s, id)
  }

  lemma ToAllCount(who: set<Actor>, at: Place, id: nat, x: (Place, Actor, nat))
    ensures ToAll(who, at, id)[x] == if x.0 == at && x.1 in who && x.2 == id then 1 else 0
  {
  }

  lemma ToProxiesCount(acquaintances: set<nat>, id: nat, x: (nat, nat))
    ensures ToProxies(acquaintances, id)[x] == if x.0 in acquaintances && x.1 == id then 1 else 0
  {
  }

  /** What one step does to the copies for an actor: there are never more than one, one is lost
      only where the actor is not subscribed or its node not known, and one is sent only to a
      subscriber. */
  predicate Follows(w: World, s': Fan, at: Place, a: Actor, id: nat) {
    && AtMost(s', at, a, id)
    && (Subscribed(w, at, a) && (at.Node? ==> at.p in w.net.acquaintances)
        && Copies(w.fan, at, a, id) == PostedOnce(w.fan, id)
        ==> Copies(s', at, a, id) == PostedOnce(s', id))
    && (s'.delivered[(at, a, id)] > w.fan.delivered[(at, a, id)] ==> Subscribed(w, at, a) && id in s'.posted)
  }

  lemma CopiesNext(w: World, h: Happening, at: Place, a: Actor, id: nat)
    requires AtMost(w.fan, at, a, id)
    ensures Follows(w, FanNext(w, h), at, a, id)
  {
    match h
    case PostHome(i) => ToAllCount(w.home, Home, i, (at, a, id));
    case BrokerTakes(m) => BrokerCopies(w, m, at, a, id);
    case ProxyTakes(p, i) => ProxyCopies(w, p, i, at, a, id);
    case _ =>
  }

  lemma BrokerCopies(w: World, m: BrokerMail, at: Place, a: Actor, id: nat)
    requires AtMost(w.fan, at, a, id)
    ensures Follows(w, FanNext(w, BrokerTakes(m)), at, a, id)
  {
    if m in w.fan.broker {
      BrokerCounts(w, m, at, a, id);
    }
  }

  lemma BrokerCounts(w: World, m: BrokerMail, at: Place, a: Actor, id: nat)
    requires m in w.fan.broker
    ensures var (s, s') := (w.fan, FanNext(w, BrokerTakes(m)));
            && s'.posted == s.posted
            && s'.broker[Forward(id)] == s.broker[Forward(id)] - (if m == Forward(id) then 1 else 0)
            && s'.broker[Posted(id)] == s.broker[Posted(id)] - (if m == Posted(id) then 1 else 0)
            && s'.delivered[(at, a, id)] == s.delivered[(at, a, id)]
                 + (if at == Home && m == Forward(id) && a in w.home then 1 else 0)
    ensures var (s, s') := (w.fan, FanNext(w, BrokerTakes(m)));
            at.Node? ==>
              s'.proxies[(at.p, id)] == s.proxies[(at.p, id)] + if m.id == id && at.p in w.net.acquaintances then 1 else 0
  {
    ToAllCount(w.home, Home, m.id, (at, a, id));
    if at.Node? {
      ToProxiesCount(w.net.acquaintances, m.id, (at.p, id));
    }
  }

  lemma ProxyCopies(w: World, p: nat, i: nat, at: Place, a: Actor, id: nat)
    requires AtMost(w.fan, at, a, id)
    ensures Follows(w, FanNext(w, ProxyTakes(p, i)), at, a, id)
  {
    if p < |w.net.subs| {
      ToAllCount(w.net.subs[p], Node(p), i, (at, a, id));
    }
  }

  lemma {:induction false} AtMostKept(w: World, run: seq<Happening>, at: Place, a: Actor, id: nat)
    requires AtMost(w.fan, at, a, id)
    ensures AtMost(WorldRun(w, run).fan, at, a, id)
    decreases |run|
  {
    if run != [] {
      CopiesNext(w, run[0], at, a, id);
      AtMostKept(WorldNext(w, run[0]), run[1..], at, a, id);
    }
  }

  /** In every run, whatever subscribes, unsubscribes, joins and leaves meanwhile and in whatever
      order announcements are sent: nobody is sent a message twice at a place, counting the
      copies still under way, and nobody is sent one that was not posted. */
  lemma AtMostOnce(nodes: nat, run: seq<Happening>, at: Place, a: Actor, id: nat)
    ensures var s := WorldRun(Start(nodes), run).fan;
            s.delivered[(at, a, id)] + Pending(s, at, id) <= if PostedIn(run, id) then 1 else 0
  {
    AtMostKept(Start(nodes), run, at, a, id);
    PostedMeaning(Start(nodes), run, id);
  }

  // ---------------------------------------------------------------- nobody else

  /** Whoever is sent a message in a run was subscribed at that place at a step by which it
      was posted. */
  lemma {:induction false} OnlySubscribers(nodes: nat, run: seq<Happening>, at: Place, a: Actor, id: nat) returns (k: nat)
    requires a != NOBODY && (at.Node? ==> at.p < nodes)
    requires (at, a, id) in WorldRun(Start(nodes), run).fan.delivered
    ensures k < |run| && LastWordAt(run[..k], at, a) && PostedIn(run[..k + 1], id)
  {
    var before, h := run[..|run| - 1], run[|run| - 1];
    assert run == before + [h];
    WorldRunLast(Start(nodes), before, h);
    var w := WorldRun(Start(nodes), before);
    if (at, a, id) in w.fan.delivered {
      k := OnlySubscribers(nodes, before, at, a, id);
    } else {
      k := |before|;
      SentMeansMeant(nodes, before, h, at, a, id);
    }
    assert before[..k] == run[..k];
    assert if k < |before| then before[..k + 1] == run[..k + 1] else run[..k + 1] == run;
  }

  lemma SentMeansMeant(nodes: nat, before: seq<Happening>, h: Happening, at: Place, a: Actor, id: nat)
    requires a != NOBODY && (at.Node? ==> at.p < nodes)
    requires (at, a, id) !in WorldRun(Start(nodes), before).fan.delivered
    requires (at, a, id) in WorldRun(Start(nodes), before + [h]).fan.delivered
    ensures LastWordAt(before, at, a) && PostedIn(before + [h], id)
  {
    WorldRunLast(Start(nodes), before, h);
    AtMostKept(Start(nodes), before, at, a, id);
    CopiesNext(WorldRun(Start(nodes), before), h, at, a, id);
    SubscribedMeaning(nodes, before, at, a);
    PostedMeaning(Start(nodes), before + [h], id);
  }

  // ---------------------------------------------------------------- exactly once

  /** Subscribed, and the broker knows the node and will not hear otherwise. */
  predicate Steady(w: World, at: Place, a: Actor) {
    && Subscribed(w, at, a)
    && (at.Node? ==>
          && Shape(w.net) && at.p in w.net.acquaintances
          && w.net.queues[at.p] == [] && w.net.unsent[at.p] == [])
  }

  predicate StaysSubscribed(w: World, run: seq<Happening>, at: Place, a: Actor)
    decreases |run|
  {
    Subscribed(w, at, a) && (run != [] ==> StaysSubscribed(WorldNext(w, run[0]), run[1..], at, a))
  }

  /** As long as one actor stays, its proxy has nothing to announce. */
  lemma SteadyKept(w: World, h: Happening, at: Place, a: Actor)
    requires Steady(w, at, a) && Subscribed(WorldNext(w, h), at, a)
    ensures Steady(WorldNext(w, h), at, a)
  {
  }

  lemma {:induction false} ExactlyOnceKept(w: World, run: seq<Happening>, at: Place, a: Actor, id: nat)
    requires Steady(w, at, a) && StaysSubscribed(w, run, at, a)
    requires Copies(w.fan, at, a, id) == PostedOnce(w.fan, id)
    ensures Copies(WorldRun(w, run).fan, at, a, id) == PostedOnce(WorldRun(w, run).fan, id)
    decreases |run|
  {
    if run != [] {
      CopiesNext(w, run[0], at, a, id);
      SteadyKept(w, run[0], at, a);
      ExactlyOnceKept(WorldNext(w, run[0]), run[1..], at, a, id);
    }
  }

  /** An actor that is subscribed, with its node's JOIN handled and nothing else of that proxy
      under way, before a message is posted, and that stays subscribed: at every later point it has
      been sent the message or has it under way, once in all, whatever all other actors and nodes do. */
  lemma ExactlyOnce(nodes: nat, before: seq<Happening>, after: seq<Happening>, at: Place, a: Actor, id: nat)
    requires var w := WorldRun(Start(nodes), before);
             !PostedIn(before, id) && Steady(w, at, a) && StaysSubscribed(w, after, at, a)
    ensures var s := WorldRun(WorldRun(Start(nodes), before), after).fan;
            s.delivered[(at, a, id)] + Pending(s, at, id) == if PostedIn(after, id) then 1 else 0
  {
    var w := WorldRun(Start(nodes), before);
    AtMostOnce(nodes, before, at, a, id);
    PostedMeaning(Start(nodes), before, id);
    PostedMeaning(w, after, id);
    ExactlyOnceKept(w, after, at, a, id);
  }

  // ---------------------------------------------------------------- and it arrives

  predicate IsTake(h: Happening) {
    h.BrokerTakes? || h.ProxyTakes?
  }

  ghost predicate TakesOnly(run: seq<Happening>) {
    forall h :: h in run ==> IsTake(h)
  }

  ghost predicate ProxiesExist(w: World) {
    && (forall x :: x in w.fan.proxies ==> x.0 < |w.net.subs|)
    && (forall p :: p in w.net.acquaintances ==> p < |w.net.subs|)
  }

  lemma {:induction false} ProxiesExistKept(w: World, run: seq<Happening>)
    requires ProxiesExist(w) && Shape(w.net)
    ensures ProxiesExist(WorldRun(w, run))
    decreases |run|
  {
    if run != [] {
      match run[0] {
        case Membership(e) => MembershipKeepsProxies(w, e);
        case BrokerTakes(m) =>
          if m in w.fan.broker {
            BrokerHandles(w, m);
          }
        case _ =>
      }
      ProxiesExistKept(WorldNext(w, run[0]), run[1..]);
    }
  }

  lemma MembershipKeepsProxies(w: World, e: Event)
    requires ProxiesExist(w) && Shape(w.net)
    ensures ProxiesExist(WorldNext(w, Membership(e))) && Shape(Next(w.net, e))
  {
  }

  lemma BrokerHandles(w: World, m: BrokerMail)
    requires ProxiesExist(w) && m in w.fan.broker
    ensures var w' := WorldNext(w, BrokerTakes(m));
            ProxiesExist(w') && |w'.fan.broker| < |w.fan.broker| && w'.net == w.net && w'.home == w.home
  {
  }

  lemma ProxyHandles(w: World, p: nat, id: nat)
    requires ProxiesExist(w) && (p, id) in w.fan.proxies
    ensures var w' := WorldNext(w, ProxyTakes(p, id));
            && ProxiesExist(w') && w'.fan.broker == w.fan.broker && |w'.fan.proxies| < |w.fan.proxies|
            && w'.net == w.net && w'.home == w.home
  {
  }

  /** Everything under way can be taken. */
  lemma {:induction false} CanDrain(w: World) returns (run: seq<Happening>)
    requires ProxiesExist(w)
    ensures TakesOnly(run)
    ensures WorldRun(w, run).fan.broker == multiset{} && WorldRun(w, run).fan.proxies == multiset{}
    decreases |w.fan.broker|, |w.fan.proxies|
  {
    if w.fan.broker != multiset{} {
      var m :| m in w.fan.broker;
      BrokerHandles(w, m);
      var rest := CanDrain(WorldNext(w, BrokerTakes(m)));
      run := [BrokerTakes(m)] + rest;
      assert run[1..] == rest;
    } else if w.fan.proxies != multiset{} {
      var x :| x in w.fan.proxies;
      ProxyHandles(w, x.0, x.1);
      var rest := CanDrain(WorldNext(w, ProxyTakes(x.0, x.1)));
      run := [ProxyTakes(x.0, x.1)] + rest;
      assert run[1..] == rest;
    } else {
      run := [];
    }
  }

  lemma {:induction false} TakesKeepSubscribers(w: World, run: seq<Happening>, at: Place, a: Actor)
    requires TakesOnly(run) && Subscribed(w, at, a)
    ensures StaysSubscribed(w, run, at, a)
    decreases |run|
  {
    if run != [] {
      assert run[0] in run && forall h :: h in run[1..] ==> h in run;
      TakesKeepSubscribers(WorldNext(w, run[0]), run[1..], at, a);
    }
  }

  /** From every state of every run: a message posted while an actor is subscribed and known, at
      home or at a proxy, can be carried to its end, and then has been sent to the actor
      exactly once. */
  lemma DeliveredExactlyOnce(nodes: nat, before: seq<Happening>, h: Happening, at: Place, a: Actor, id: nat)
    returns (more: seq<Happening>)
    requires !PostedIn(before, id) && Posts(h, id) && Steady(WorldRun(Start(nodes), before), at, a)
    ensures TakesOnly(more)
    ensures var s := WorldRun(WorldRun(Start(nodes), before), [h] + more).fan;
            s.broker == multiset{} && s.proxies == multiset{} && s.delivered[(at, a, id)] == 1
  {
    var w := WorldRun(Start(nodes), before);
    var w' := WorldNext(w, h);
    ProxiesExistKept(Start(nodes), before);
    more := CanDrain(w');
    TakesKeepSubscribers(w', more, at, a);
    var after := [h] + more;
    assert after[0] == h && after[1..] == more;
    assert StaysSubscribed(w, after, at, a);
    ExactlyOnce(nodes, before, after, at, a, id);
    assert h in after;
  }
}
