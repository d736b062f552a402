/**
 The dining philosophers as actors: n chopsticks and n philosophers in a ring, talking by
 asynchronous messages that arrive in any order. A message its receiver does not accept
 stays in the mailbox.
 */
module DiningPhilosophers {

  datatype Msg =
    | Take(c: nat, p: nat)
    | Put(c: nat, p: nat)
    | Taken(p: nat, c: nat)
    | Busy(p: nat, c: nat)
    | Eat(p: nat)
    | Think(p: nat)

  datatype Chop = Free | TakenBy(p: nat)

  datatype Phil = Starting | Thinking | Hungry | Denied | Eating | WaitingFor(c: nat)

  datatype Reaction<S> = Rejected | Accepted(next: S, out: multiset<Msg>)

  function Left(p: nat): nat {
    p
  }

  function Right(p: nat, n: nat): nat {
    if p + 1 == n then 0 else p + 1
  }

  // ---------------------------------------------------------------- the two behaviours

  function ChopReacts(s: Chop, m: Msg): Reaction<Chop> {
    match m
    case Take(c, p) =>
      if s.Free? then Accepted(TakenBy(p), multiset{Taken(p, c)}) else Accepted(s, multiset{Busy(p, c)})
    case Put(c, p) =>
      if s == TakenBy(p) then Accepted(Free, multiset{}) else Rejected
    case _ => Rejected
  }

  function PhilReacts(s: Phil, p: nat, left: nat, right: nat, m: Msg): Reaction<Phil> {
    match s
    case Starting =>
      if m == Think(p) then Accepted(Thinking, multiset{Eat(p)}) else Rejected
    case Thinking =>
      if m == Eat(p) then Accepted(Hungry, multiset{Take(left, p), Take(right, p)}) else Rejected
    case Hungry =>
      if m == Taken(p, left) then Accepted(WaitingFor(right), multiset{})
      else if m == Taken(p, right) then Accepted(WaitingFor(left), multiset{})
      else if m.Busy? then Accepted(Denied, multiset{})
      else Rejected
    case Denied =>
      if m.Taken? then Accepted(Thinking, multiset{Put(m.c, p), Eat(p)})
      else if m.Busy? then Accepted(Thinking, multiset{Eat(p)})
      else Rejected
    case Eating =>
      if m == Think(p) then Accepted(Thinking, multiset{Put(left, p), Put(right, p), Eat(p)}) else Rejected
    case WaitingFor(what) =>
      if m == Taken(p, what) then Accepted(Eating, multiset{Think(p)})
      else if m == Busy(p, what) then
        Accepted(Thinking, multiset{Put(if what == left then right else left, p), Eat(p)})
      else Rejected
  }

  /** The actors themselves: a behaviour that each accepted message replaces. */
  class ChopstickActor {
    var behaviour: Chop

    constructor ()
      ensures behaviour == Free
    {
      behaviour := Free;
    }

    method Receive(m: Msg) returns (accepted: bool, out: multiset<Msg>)
      modifies this
      ensures var r := ChopReacts(old(behaviour), m);
              if r.Accepted? then accepted && behaviour == r.next && out == r.out
              else !accepted && behaviour == old(behaviour) && out == multiset{}
    {
      accepted, out := false, multiset{};
      if m.Take? && behaviour.Free? {
        accepted, out := true, multiset{Taken(m.p, m.c)};
        behaviour := TakenBy(m.p);
      } else if m.Take? {
        accepted, out := true, multiset{Busy(m.p, m.c)};
      } else if m.Put? && behaviour == TakenBy(m.p) {
        accepted := true;
        behaviour := Free;
      }
    }
  }

  class PhilosopherActor {
    const id: nat
    const left: nat
    const right: nat
    var behaviour: Phil

    constructor (id: nat, left: nat, right: nat)
      ensures this.id == id && this.left == left && this.right == right && behaviour == Starting
    {
      this.id, this.left, this.right, behaviour := id, left, right, Starting;
    }

    method Receive(m: Msg) returns (accepted: bool, out: multiset<Msg>)
      modifies this
      ensures var r := PhilReacts(old(behaviour), id, left, right, m);
              if r.Accepted? then accepted && behaviour == r.next && out == r.out
              else !accepted && behaviour == old(behaviour) && out == multiset{}
    {
      accepted, out := true, multiset{};
      if behaviour == Starting && m == Think(id) {
        out, behaviour := multiset{Eat(id)}, Thinking;
      } else if behaviour == Thinking && m == Eat(id) {
        out, behaviour := multiset{Take(left, id), Take(right, id)}, Hungry;
      } else if behaviour == Hungry && m == Taken(id, left) {
        behaviour := WaitingFor(right);
      } else if behaviour == Hungry && m == Taken(id, right) {
        behaviour := WaitingFor(left);
      } else if behaviour == Hungry && m.Busy? {
        behaviour := Denied;
      } else if behaviour == Denied && m.Taken? {
        out, behaviour := multiset{Put(m.c, id), Eat(id)}, Thinking;
      } else if behaviour == Denied && m.Busy? {
        out, behaviour := multiset{Eat(id)}, Thinking;
      } else if behaviour == Eating && m == Think(id) {
        out, behaviour := multiset{Put(left, id), Put(right, id), Eat(id)}, Thinking;
      } else if behaviour.WaitingFor? && m == Taken(id, behaviour.c) {
        out, behaviour := multiset{Think(id)}, Eating;
      } else if behaviour.WaitingFor? && m == Busy(id, behaviour.c) {
        out, behaviour := multiset{Put(if behaviour.c == left then right else left, id), Eat(id)}, Thinking;
      } else {
        accepted := false;
      }
    }
  }

  // ---------------------------------------------------------------- the whole table

  datatype Table = Table(chops: seq<Chop>, phils: seq<Phil>, bag: multiset<Msg>)

  function FirstThinks(n: nat): multiset<Msg> {
    if n == 0 then multiset{} else FirstThinks(n - 1) + multiset{Think(n - 1)}
  }

  function Init(n: nat): Table {
    Table(seq(n, i => Free), seq(n, i => Starting), FirstThinks(n))
  }

  /** Messages to a chopstick against messages to a philosopher. */
  predicate ToChop(m: Msg) {
    m.Take? || m.Put?
  }

  predicate HasReceiver(t: Table, m: Msg) {
    if ToChop(m) then m.c < |t.chops| else m.p < |t.phils|
  }

  predicate Accepts(t: Table, m: Msg)
    requires HasReceiver(t, m)
  {
    if ToChop(m) then ChopReacts(t.chops[m.c], m).Accepted?
    else PhilReacts(t.phils[m.p], m.p, Left(m.p), Right(m.p, |t.phils|), m).Accepted?
  }

  /** Delivering m: nothing happens if it is not under way or not accepted. */
  function Deliver(t: Table, m: Msg): Table {
    if m !in t.bag || !HasReceiver(t, m) || !Accepts(t, m) then t
    else if ToChop(m) then
      var r := ChopReacts(t.chops[m.c], m);
      t.(chops := t.chops[m.c := r.next], bag := t.bag - multiset{m} + r.out)
    else
      var r := PhilReacts(t.phils[m.p], m.p, Left(m.p), Right(m.p, |t.phils|), m);
      t.(phils := t.phils[m.p := r.next], bag := t.bag - multiset{m} + r.out)
  }

  /** A run is any choice of deliveries. */
  function Run(n: nat, order: seq<Msg>): Table {
    if order == [] then Init(n)
    else Deliver(Run(n, order[..|order| - 1]), order[|order| - 1])
  }

  // ---------------------------------------------------------------- the invariant

  /** p's unanswered requests to c: a take under way, or its answer under way. */
  function Asked(t: Table, p: nat, c: nat): nat {
    t.bag[Take(c, p)] + t.bag[Taken(p, c)] + t.bag[Busy(p, c)]
  }

  predicate Holds(t: Table, p: nat, c: nat)
    requires p < |t.phils|
  {
    var l, r := Left(p), Right(p, |t.phils|);
    match t.phils[p]
    case Eating => c == l || c == r
    case WaitingFor(w) => (c == l || c == r) && c != w
    case _ => false
  }

  /** The ways in which p can have a grip on c: told so, holding it, or handing it back. */
  function Grip(t: Table, p: nat, c: nat): nat
    requires p < |t.phils|
  {
    t.bag[Taken(p, c)] + t.bag[Put(c, p)] + if Holds(t, p, c) then 1 else 0
  }

  predicate Addressed(n: nat, m: Msg) {
    && m.p < n
    && (m.Eat? || m.Think? || m.c == Left(m.p) || m.c == Right(m.p, n))
  }

  predicate PhilInv(t: Table, p: nat)
    requires p < |t.phils|
  {
    var l, r := Left(p), Right(p, |t.phils|);
    var eat, think, al, ar := t.bag[Eat(p)], t.bag[Think(p)], Asked(t, p, l), Asked(t, p, r);
    match t.phils[p]
    case Starting => eat == 0 && think == 1 && al == 0 && ar == 0
    case Thinking => eat == 1 && think == 0 && al == 0 && ar == 0
    case Hungry => eat == 0 && think == 0 && al == 1 && ar == 1
    case Denied => eat == 0 && think == 0 && al + ar == 1
    case Eating => eat == 0 && think == 1 && al == 0 && ar == 0
    case WaitingFor(c) =>
      eat == 0 && think == 0 && ((c == l && al == 1 && ar == 0) || (c == r && al == 0 && ar == 1))
  }

  predicate GripInv(t: Table, p: nat, c: nat)
    requires p < |t.phils| && c < |t.chops|
  {
    Grip(t, p, c) == if t.chops[c] == TakenBy(p) then 1 else 0
  }

  ghost predicate Inv(t: Table, n: nat) {
    && |t.chops| == |t.phils| == n
    && (forall m :: m in t.bag ==> Addressed(n, m))
    && (forall c :: 0 <= c < n && t.chops[c].TakenBy? ==> t.chops[c].p < n)
    && (forall p :: 0 <= p < n ==> PhilInv(t, p))
    && (forall p, c :: 0 <= p < n && 0 <= c < n ==> GripInv(t, p, c))
  }

  lemma {:induction false} FirstThinksCount(n: nat)
    ensures forall m :: FirstThinks(n)[m] == if m.Think? && m.p < n then 1 else 0
  {
    if n > 0 {
      FirstThinksCount(n - 1);
    }
  }

  lemma InitInv(n: nat)
    ensures Inv(Init(n), n)
  {
    FirstThinksCount(n);
  }

  /** Inv for one message, one philosopher and one chopstick, without quantifiers. */
  predicate LocalInv(t: Table, n: nat, m: Msg, p: nat, c: nat) {
    && |t.chops| == |t.phils| == n && n >= 2 && p < n && c < n
    && m in t.bag && Addressed(n, m)
    && PhilInv(t, p) && GripInv(t, p, c) && PhilInv(t, m.p)
    && (ToChop(m) ==> GripInv(t, m.p, m.c) && GripInv(t, p, m.c))
  }

  lemma MessageAccepted(t: Table, n: nat, m: Msg)
    requires LocalInv(t, n, m, m.p, if ToChop(m) then m.c else 0)
    ensures HasReceiver(t, m) && Accepts(t, m)
  {
  }

  function Swap(bag: multiset<Msg>, m: Msg, out: multiset<Msg>): multiset<Msg> {
    bag - multiset{m} + out
  }

  // A chopstick's step.

  lemma ChopKeepsAsked(t: Table, n: nat, m: Msg, p: nat, c: nat)
    requires m in t.bag && ToChop(m) && HasReceiver(t, m) && Accepts(t, m)
    ensures var t' := Deliver(t, m);
            && Asked(t', p, c) == Asked(t, p, c) && t'.phils == t.phils
            && t'.bag[Eat(p)] == t.bag[Eat(p)] && t'.bag[Think(p)] == t.bag[Think(p)]
  {
    var r := ChopReacts(t.chops[m.c], m);
    assert Deliver(t, m).bag == Swap(t.bag, m, r.out);
    if m.Put? {
      assert r.out == multiset{};
    } else if t.chops[m.c].Free? {
      assert r.out == multiset{Taken(m.p, m.c)};
    } else {
      assert r.out == multiset{Busy(m.p, m.c)};
    }
  }

  lemma ChopKeepsGrip(t: Table, n: nat, m: Msg, p: nat, c: nat)
    requires LocalInv(t, n, m, p, c) && ToChop(m) && HasReceiver(t, m) && Accepts(t, m)
    ensures GripInv(Deliver(t, m), p, c)
  {
    assert Holds(Deliver(t, m), p, c) == Holds(t, p, c);
  }

  // A philosopher's step.

  predicate Stepped(t: Table, t': Table, m: Msg, next: Phil, out: multiset<Msg>) {
    && m in t.bag && m.p < |t.phils|
    && t' == Table(t.chops, t.phils[m.p := next], Swap(t.bag, m, out))
  }

  /** Philosopher p sends only messages about himself and his two chopsticks. */
  lemma OutIsOwn(s: Phil, p: nat, left: nat, right: nat, m: Msg, x: Msg)
    requires m.p == p && PhilReacts(s, p, left, right, m).Accepted? && x in PhilReacts(s, p, left, right, m).out
    requires m.Eat? || m.Think? || m.c == left || m.c == right
    ensures x.p == p && (x.Eat? || x.Think? || x.c == left || x.c == right)
  {
  }

  lemma OtherKept(t: Table, n: nat, m: Msg, p: nat, c: nat)
    requires LocalInv(t, n, m, p, c) && !ToChop(m) && HasReceiver(t, m) && Accepts(t, m) && p != m.p
    ensures PhilInv(Deliver(t, m), p) && GripInv(Deliver(t, m), p, c)
  {
    var t', r := Deliver(t, m), PhilReacts(t.phils[m.p], m.p, Left(m.p), Right(m.p, n), m);
    forall x | x in r.out
      ensures x.p != p
    {
      OutIsOwn(t.phils[m.p], m.p, Left(m.p), Right(m.p, n), m, x);
    }
    OtherCounts(t, t', m, r.next, r.out, p, c);
    OtherCounts(t, t', m, r.next, r.out, p, Left(p));
    OtherCounts(t, t', m, r.next, r.out, p, Right(p, n));
  }

  lemma OtherCounts(t: Table, t': Table, m: Msg, next: Phil, out: multiset<Msg>, p: nat, c: nat)
    requires Stepped(t, t', m, next, out) && p != m.p && p < |t.phils|
    requires forall x :: x in out ==> x.p != p
    ensures t'.phils[p] == t.phils[p] && Asked(t', p, c) == Asked(t, p, c) && Grip(t', p, c) == Grip(t, p, c)
    ensures t'.bag[Eat(p)] == t.bag[Eat(p)] && t'.bag[Think(p)] == t.bag[Think(p)]
  {
  }

  predicate Ready(t: Table, n: nat, m: Msg, p: nat, c: nat) {
    && |t.chops| == |t.phils| == n && n >= 2 && p < n && c < n
    && Addressed(n, m) && PhilInv(t, p) && GripInv(t, p, c)
  }

  lemma StartKept(t: Table, t': Table, n: nat, p: nat, c: nat)
    requires Ready(t, n, Think(p), p, c) && t.phils[p] == Starting
    requires Stepped(t, t', Think(p), Thinking, multiset{Eat(p)})
    ensures PhilInv(t', p) && GripInv(t', p, c)
  {
  }

  lemma EatKept(t: Table, t': Table, n: nat, p: nat, c: nat)
    requires Ready(t, n, Eat(p), p, c) && t.phils[p] == Thinking
    requires Stepped(t, t', Eat(p), Hungry, multiset{Take(Left(p), p), Take(Right(p, n), p)})
    ensures PhilInv(t', p) && GripInv(t', p, c)
  {
  }

  lemma FirstKept(t: Table, t': Table, n: nat, p: nat, which: nat, c: nat)
    requires Ready(t, n, Taken(p, which), p, c) && t.phils[p] == Hungry
    requires Stepped(t, t', Taken(p, which), WaitingFor(if which == Left(p) then Right(p, n) else Left(p)), multiset{})
    ensures PhilInv(t', p) && GripInv(t', p, c)
  {
  }

  lemma FirstDenied(t: Table, t': Table, n: nat, p: nat, which: nat, c: nat)
    requires Ready(t, n, Busy(p, which), p, c) && t.phils[p] == Hungry
    requires Stepped(t, t', Busy(p, which), Denied, multiset{})
    ensures PhilInv(t', p) && GripInv(t', p, c)
  {
  }

  lemma DeniedTakenKept(t: Table, t': Table, n: nat, p: nat, which: nat, c: nat)
    requires Ready(t, n, Taken(p, which), p, c) && t.phils[p] == Denied
    requires Stepped(t, t', Taken(p, which), Thinking, multiset{Put(which, p), Eat(p)})
    ensures PhilInv(t', p) && GripInv(t', p, c)
  {
  }

  lemma DeniedBusyKept(t: Table, t': Table, n: nat, p: nat, which: nat, c: nat)
    requires Ready(t, n, Busy(p, which), p, c) && t.phils[p] == Denied
    requires Stepped(t, t', Busy(p, which), Thinking, multiset{Eat(p)})
    ensures PhilInv(t', p) && GripInv(t', p, c)
  {
  }

  lemma ThinkKept(t: Table, t': Table, n: nat, p: nat, c: nat)
    requires Ready(t, n, Think(p), p, c) && t.phils[p] == Eating
    requires Stepped(t, t', Think(p), Thinking, multiset{Put(Left(p), p), Put(Right(p, n), p), Eat(p)})
    ensures PhilInv(t', p) && GripInv(t', p, c)
  {
  }

  lemma SecondKept(t: Table, t': Table, n: nat, p: nat, which: nat, c: nat)
    requires Ready(t, n, Taken(p, which), p, c) && t.phils[p] == WaitingFor(which)
    requires Stepped(t, t', Taken(p, which), Eating, multiset{Think(p)})
    ensures PhilInv(t', p) && GripInv(t', p, c)
  {
  }

  lemma SecondDenied(t: Table, t': Table, n: nat, p: nat, which: nat, c: nat)
    requires Ready(t, n, Busy(p, which), p, c) && t.phils[p] == WaitingFor(which)
    requires Stepped(t, t', Busy(p, which), Thinking, multiset{Put(if which == Left(p) then Right(p, n) else Left(p), p), Eat(p)})
    ensures PhilInv(t', p) && GripInv(t', p, c)
  {
  }

  lemma DeliverIsStep(t: Table, m: Msg)
    requires m in t.bag && !ToChop(m) && HasReceiver(t, m) && Accepts(t, m)
    ensures var r := PhilReacts(t.phils[m.p], m.p, Left(m.p), Right(m.p, |t.phils|), m);
            Stepped(t, Deliver(t, m), m, r.next, r.out)
  {
  }

  predicate OwnStep(t: Table, t': Table, n: nat, m: Msg, c: nat) {
    && Ready(t, n, m, m.p, c) && !ToChop(m)
    && var r := PhilReacts(t.phils[m.p], m.p, Left(m.p), Right(m.p, n), m);
       r.Accepted? && Stepped(t, t', m, r.next, r.out)
  }

  lemma CalmKept(t: Table, t': Table, n: nat, m: Msg, c: nat)
    requires OwnStep(t, t', n, m, c) && (t.phils[m.p].Starting? || t.phils[m.p].Thinking? || t.phils[m.p].Eating?)
    ensures PhilInv(t', m.p) && GripInv(t', m.p, c)
  {
    match t.phils[m.p]
    case Starting => StartKept(t, t', n, m.p, c);
    case Thinking => EatKept(t, t', n, m.p, c);
    case Eating => ThinkKept(t, t', n, m.p, c);
  }

  lemma TakenKept(t: Table, t': Table, n: nat, m: Msg, c: nat)
    requires OwnStep(t, t', n, m, c) && m.Taken?
    ensures PhilInv(t', m.p) && GripInv(t', m.p, c)
  {
    match t.phils[m.p]
    case Hungry => FirstKept(t, t', n, m.p, m.c, c);
    case Denied => DeniedTakenKept(t, t', n, m.p, m.c, c);
    case WaitingFor(_) => SecondKept(t, t', n, m.p, m.c, c);
  }

  lemma BusyKept(t: Table, t': Table, n: nat, m: Msg, c: nat)
    requires OwnStep(t, t', n, m, c) && m.Busy?
    ensures PhilInv(t', m.p) && GripInv(t', m.p, c)
  {
    match t.phils[m.p]
    case Hungry => FirstDenied(t, t', n, m.p, m.c, c);
    case Denied => DeniedBusyKept(t, t', n, m.p, m.c, c);
    case WaitingFor(_) => SecondDenied(t, t', n, m.p, m.c, c);
  }

  lemma SelfKept(t: Table, n: nat, m: Msg, c: nat)
    requires LocalInv(t, n, m, m.p, c) && !ToChop(m) && HasReceiver(t, m) && Accepts(t, m)
    ensures PhilInv(Deliver(t, m), m.p) && GripInv(Deliver(t, m), m.p, c)
  {
    DeliverIsStep(t, m);
    if m.Taken? {
      TakenKept(t, Deliver(t, m), n, m, c);
    } else if m.Busy? {
      BusyKept(t, Deliver(t, m), n, m, c);
    } else {
      CalmKept(t, Deliver(t, m), n, m, c);
    }
  }

  lemma DeliverKeepsLocal(t: Table, n: nat, m: Msg, p: nat, c: nat)
    requires LocalInv(t, n, m, p, c) && HasReceiver(t, m) && Accepts(t, m)
    ensures PhilInv(Deliver(t, m), p) && GripInv(Deliver(t, m), p, c)
  {
    if ToChop(m) {
      ChopKeepsAsked(t, n, m, p, Left(p));
      ChopKeepsAsked(t, n, m, p, Right(p, n));
      ChopKeepsGrip(t, n, m, p, c);
    } else if p == m.p {
      SelfKept(t, n, m, c);
    } else {
      OtherKept(t, n, m, p, c);
    }
  }

  lemma AddressesKept(t: Table, n: nat, m: Msg, x: Msg)
    requires |t.chops| == |t.phils| == n && Addressed(n, m) && m in t.bag && HasReceiver(t, m) && Accepts(t, m)
    requires x in Deliver(t, m).bag && x !in t.bag
    ensures Addressed(n, x)
  {
    if !ToChop(m) {
      OutIsOwn(t.phils[m.p], m.p, Left(m.p), Right(m.p, n), m, x);
    }
  }

  lemma InvIsLocal(t: Table, n: nat, m: Msg, p: nat, c: nat)
    requires n >= 2 && Inv(t, n) && m in t.bag && p < n && c < n
    ensures LocalInv(t, n, m, p, c)
  {
  }

  lemma InvAccepts(t: Table, n: nat, m: Msg)
    requires n >= 2 && Inv(t, n) && m in t.bag
    ensures HasReceiver(t, m) && Accepts(t, m)
  {
    InvIsLocal(t, n, m, m.p, if ToChop(m) then m.c else 0);
    MessageAccepted(t, n, m);
  }

  lemma DeliverKeepsShape(t: Table, n: nat, m: Msg)
    requires n >= 2 && Inv(t, n) && m in t.bag && HasReceiver(t, m) && Accepts(t, m)
    ensures var t' := Deliver(t, m);
            && |t'.chops| == |t'.phils| == n
            && (forall x :: x in t'.bag ==> Addressed(n, x))
            && (forall c :: 0 <= c < n && t'.chops[c].TakenBy? ==> t'.chops[c].p < n)
  {
    forall x | x in Deliver(t, m).bag
      ensures Addressed(n, x)
    {
      if x !in t.bag {
        AddressesKept(t, n, m, x);
      }
    }
  }

  lemma DeliverKeepsBoth(t: Table, n: nat, m: Msg, p: nat, c: nat)
    requires n >= 2 && Inv(t, n) && m in t.bag && p < n && c < n && HasReceiver(t, m) && Accepts(t, m)
    ensures PhilInv(Deliver(t, m), p) && GripInv(Deliver(t, m), p, c)
  {
    InvIsLocal(t, n, m, p, c);
    DeliverKeepsLocal(t, n, m, p, c);
  }

  lemma DeliverKeepsInv(t: Table, n: nat, m: Msg)
    requires n >= 2 && Inv(t, n) && m in t.bag
    ensures Inv(Deliver(t, m), n)
  {
    InvAccepts(t, n, m);
    var t' := Deliver(t, m);
    DeliverKeepsShape(t, n, m);
    forall p | 0 <= p < n
      ensures PhilInv(t', p)
    {
      DeliverKeepsBoth(t, n, m, p, 0);
    }
    forall p, c | 0 <= p < n && 0 <= c < n
      ensures GripInv(t', p, c)
    {
      DeliverKeepsBoth(t, n, m, p, c);
    }
  }

  lemma {:induction false} RunKeepsInv(n: nat, order: seq<Msg>)
    requires n >= 2
    ensures Inv(Run(n, order), n)
  {
    if order == [] {
      InitInv(n);
    } else {
      var t, m := Run(n, order[..|order| - 1]), order[|order| - 1];
      RunKeepsInv(n, order[..|order| - 1]);
      if m in t.bag {
        DeliverKeepsInv(t, n, m);
      }
    }
  }

  // ---------------------------------------------------------------- the two theorems

  /** In every run neighbours never eat together. */
  lemma NeighboursNeverEatTogether(n: nat, order: seq<Msg>, p: nat)
    requires n >= 2 && p < n
    ensures var t := Run(n, order);
            |t.phils| == n && !(t.phils[p] == Eating && t.phils[Right(p, n)] == Eating)
  {
    RunKeepsInv(n, order);
    var t, c := Run(n, order), Right(p, n);
    assert GripInv(t, p, c) && GripInv(t, c, c);
  }

  ghost predicate InOnePlace(t: Table, c: nat)
    requires c < |t.chops|
  {
    match t.chops[c]
    case Free => forall p :: 0 <= p < |t.phils| ==> Grip(t, p, c) == 0
    case TakenBy(q) =>
      && q < |t.phils| && Grip(t, q, c) == 1
      && forall p :: 0 <= p < |t.phils| && p != q ==> Grip(t, p, c) == 0
  }

  lemma OnePlace(t: Table, n: nat, c: nat)
    requires Inv(t, n) && c < n
    ensures InOnePlace(t, c)
  {
    forall p | 0 <= p < n
      ensures Grip(t, p, c) == if t.chops[c] == TakenBy(p) then 1 else 0
    {
      assert GripInv(t, p, c);
    }
  }

  /** In every run each chopstick is in exactly one place: free with no message about it and
      nobody holding it, or taken by one philosopher, who has exactly one grip on it. */
  lemma ChopstickInOnePlace(n: nat, order: seq<Msg>, c: nat)
    requires n >= 2 && c < n
    ensures var t := Run(n, order);
            |t.chops| == |t.phils| == n && InOnePlace(t, c)
  {
    RunKeepsInv(n, order);
    OnePlace(Run(n, order), n, c);
  }

  /** In every run every message under way is accepted whenever it arrives, and every
      philosopher has one under way: no run gets stuck. */
  lemma NeverStuck(n: nat, order: seq<Msg>)
    requires n >= 2
    ensures var t := Run(n, order);
            && (forall m :: m in t.bag ==> HasReceiver(t, m) && Accepts(t, m))
            && |t.phils| == n
            && forall p :: 0 <= p < n ==>
                 t.bag[Eat(p)] + t.bag[Think(p)] + Asked(t, p, Left(p)) + Asked(t, p, Right(p, n)) >= 1
  {
    RunKeepsInv(n, order);
    var t := Run(n, order);
    forall m | m in t.bag
      ensures HasReceiver(t, m) && Accepts(t, m)
    {
      InvAccepts(t, n, m);
    }
    forall p | 0 <= p < n
      ensures t.bag[Eat(p)] + t.bag[Think(p)] + Asked(t, p, Left(p)) + Asked(t, p, Right(p, n)) >= 1
    {
      assert PhilInv(t, p);
    }
  }

  /** In every run a philosopher has at most one request open with each chopstick, and none at
      all unless he is waiting for answers: no answer is left over from an earlier round. */
  lemma NoLeftoverAnswers(n: nat, order: seq<Msg>, p: nat)
    requires n >= 2 && p < n
    ensures var t := Run(n, order);
            && |t.phils| == n
            && Asked(t, p, Left(p)) <= 1 && Asked(t, p, Right(p, n)) <= 1
            && (t.phils[p].Starting? || t.phils[p].Thinking? || t.phils[p].Eating? ==>
                  Asked(t, p, Left(p)) == 0 && Asked(t, p, Right(p, n)) == 0)
  {
    RunKeepsInv(n, order);
    assert PhilInv(Run(n, order), p);
  }
}
