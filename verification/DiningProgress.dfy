/**
 What the dining philosophers can do: how a chopstick answers, and that from every state of
 every run every philosopher can still get to eat.
 */
module DiningProgress {
  import opened DiningPhilosophers

  /** More deliveries, first to last. */
  function Play(t: Table, order: seq<Msg>): Table
    decreases |order|
  {
    if order == [] then t else Play(Deliver(t, order[0]), order[1..])
  }

  lemma {:induction false} RunPlays(n: nat, order: seq<Msg>, more: seq<Msg>)
    ensures Run(n, order + more) == Play(Run(n, order), more)
    decreases |more|
  {
    if more == [] {
      assert order + more == order;
    } else {
      var m := more[0];
      assert (order + [m])[..|order|] == order;
      assert order + more == (order + [m]) + more[1..];
      RunPlays(n, order + [m], more[1..]);
    }
  }

  lemma {:induction false} PlayAppend(t: Table, a: seq<Msg>, b: seq<Msg>)
    ensures Play(t, a + b) == Play(Play(t, a), b)
    decreases |a|
  {
    if a == [] {
      assert a + b == b;
    } else {
      assert (a + b)[1..] == a[1..] + b;
      PlayAppend(Deliver(t, a[0]), a[1..], b);
    }
  }

  // ---------------------------------------------------------------- the answer to a take

  ghost predicate Untouched(t: Table, c: nat) {
    forall q :: 0 <= q < |t.phils| ==> Grip(t, q, c) == 0
  }

  lemma UntouchedIsFree(t: Table, n: nat, c: nat)
    requires Inv(t, n) && c < n
    ensures Untouched(t, c) <==> t.chops[c] == Free
  {
    OnePlace(t, n, c);
  }

  /** In every run a take is answered with taken exactly if nobody has a grip on the chopstick,
      and with busy otherwise. */
  lemma TakeAnswered(n: nat, order: seq<Msg>, p: nat, c: nat)
    requires n >= 2 && Take(c, p) in Run(n, order).bag
    ensures var (t, t') := (Run(n, order), Run(n, order + [Take(c, p)]));
            t'.bag == t.bag - multiset{Take(c, p)} + multiset{if Untouched(t, c) then Taken(p, c) else Busy(p, c)}
  {
    var t := Run(n, order);
    RunKeepsInv(n, order);
    InvAccepts(t, n, Take(c, p));
    UntouchedIsFree(t, n, c);
    assert (order + [Take(c, p)])[..|order|] == order;
  }

  // ---------------------------------------------------------------- a free table lets one eat

  lemma EatDelivered(t: Table, n: nat, p: nat)
    requires n >= 2 && Inv(t, n) && p < n && t.phils[p] == Thinking
    ensures var t' := Deliver(t, Eat(p));
            && Inv(t', n) && t'.chops == t.chops && t'.phils[p] == Hungry
            && Take(Left(p), p) in t'.bag && Take(Right(p, n), p) in t'.bag
  {
    assert PhilInv(t, p);
    DeliverKeepsInv(t, n, Eat(p));
  }

  lemma TakeDelivered(t: Table, n: nat, p: nat, c: nat)
    requires n >= 2 && Inv(t, n) && Take(c, p) in t.bag && c < n && t.chops[c] == Free
    ensures var t' := Deliver(t, Take(c, p));
            && Inv(t', n) && t'.phils == t.phils && Taken(p, c) in t'.bag
            && (forall d :: 0 <= d < n && d != c ==> t'.chops[d] == t.chops[d])
            && forall x :: x in t.bag && x != Take(c, p) ==> x in t'.bag
  {
    DeliverKeepsInv(t, n, Take(c, p));
  }

  lemma TakenDelivered(t: Table, n: nat, p: nat, c: nat, next: Phil)
    requires n >= 2 && Inv(t, n) && p < n && Taken(p, c) in t.bag && (c == Left(p) || c == Right(p, n))
    requires (t.phils[p] == Hungry && next == WaitingFor(if c == Left(p) then Right(p, n) else Left(p)))
             || (t.phils[p] == WaitingFor(c) && next == Eating)
    ensures var t' := Deliver(t, Taken(p, c));
            Inv(t', n) && t'.phils[p] == next && forall x :: x in t.bag && x != Taken(p, c) ==> x in t'.bag
  {
    var m := Taken(p, c);
    DeliverKeepsInv(t, n, m);
    InvAccepts(t, n, m);
    DeliverIsStep(t, m);
    SwapCounts(t.bag, m, PhilReacts(t.phils[p], p, Left(p), Right(p, n), m).out);
  }

  function EatingOrder(n: nat, p: nat): seq<Msg> {
    var l, r := Left(p), Right(p, n);
    [Eat(p), Take(l, p), Take(r, p), Taken(p, l), Taken(p, r)]
  }

  /** A thinking philosopher whose two chopsticks nobody has a grip on eats after five deliveries. */
  lemma EatsWhenFree(t: Table, n: nat, p: nat)
    requires n >= 2 && Inv(t, n) && p < n && t.phils[p] == Thinking
    requires Untouched(t, Left(p)) && Untouched(t, Right(p, n))
    ensures |Play(t, EatingOrder(n, p)).phils| == n && Play(t, EatingOrder(n, p)).phils[p] == Eating
  {
    var l, r := Left(p), Right(p, n);
    UntouchedIsFree(t, n, l);
    UntouchedIsFree(t, n, r);
    EatDelivered(t, n, p);
    var t1 := Deliver(t, Eat(p));
    BothTaken(t1, n, p, l, r);
    BothTold(Deliver(Deliver(t1, Take(l, p)), Take(r, p)), n, p, l, r);
    FivePlays(t, EatingOrder(n, p));
  }

  lemma BothTaken(t: Table, n: nat, p: nat, l: nat, r: nat)
    requires n >= 2 && Inv(t, n) && p < n && l == Left(p) && r == Right(p, n) && t.chops[l] == t.chops[r] == Free
    requires Take(l, p) in t.bag && Take(r, p) in t.bag
    ensures var t' := Deliver(Deliver(t, Take(l, p)), Take(r, p));
            Inv(t', n) && t'.phils == t.phils && Taken(p, l) in t'.bag && Taken(p, r) in t'.bag
  {
    TakeDelivered(t, n, p, l);
    TakeDelivered(Deliver(t, Take(l, p)), n, p, r);
  }

  lemma BothTold(t: Table, n: nat, p: nat, l: nat, r: nat)
    requires n >= 2 && Inv(t, n) && p < n && l == Left(p) && r == Right(p, n) && t.phils[p] == Hungry
    requires Taken(p, l) in t.bag && Taken(p, r) in t.bag
    ensures var t' := Deliver(Deliver(t, Taken(p, l)), Taken(p, r));
            Inv(t', n) && t'.phils[p] == Eating
  {
    TakenDelivered(t, n, p, l, WaitingFor(r));
    TakenDelivered(Deliver(t, Taken(p, l)), n, p, r, Eating);
  }

  lemma FivePlays(t: Table, o: seq<Msg>)
    requires |o| == 5
    ensures Play(t, o) == Deliver(Deliver(Deliver(Deliver(Deliver(t, o[0]), o[1]), o[2]), o[3]), o[4])
  {
    var o1 := o[1..];
    var o2 := o1[1..];
    var o3 := o2[1..];
    var o4 := o3[1..];
    var t1 := Deliver(t, o[0]);
    var t2 := Deliver(t1, o1[0]);
    var t3 := Deliver(t2, o2[0]);
    var t4 := Deliver(t3, o3[0]);
    assert Play(t, o) == Play(t1, o1) == Play(t2, o2) == Play(t3, o3) == Play(t4, o4);
    assert o4 == [o[4]] && Play(t4, o4) == Play(Deliver(t4, o[4]), []);
  }

  // ---------------------------------------------------------------- back to thinking

  /** Thinking, with every chopstick handed back. */
  predicate Calm(t: Table, q: nat)
    requires q < |t.phils|
  {
    t.phils[q] == Thinking && t.bag[Put(Left(q), q)] == 0 && t.bag[Put(Right(q, |t.phils|), q)] == 0
  }

  function Rank(s: Phil): nat {
    match s
    case Thinking => 0
    case Starting => 1
    case Eating => 1
    case Denied => 2
    case WaitingFor(_) => 2
    case Hungry => 3
  }

  /** How far q is from being calm. */
  function Unrest(t: Table, q: nat): nat
    requires q < |t.phils|
  {
    var l, r := Left(q), Right(q, |t.phils|);
    10 * Rank(t.phils[q]) + t.bag[Take(l, q)] + t.bag[Take(r, q)] + t.bag[Put(l, q)] + t.bag[Put(r, q)]
  }

  lemma ChopCalms(t: Table, n: nat, m: Msg)
    requires n >= 2 && Inv(t, n) && m in t.bag && ToChop(m)
    ensures m.p < n && Inv(Deliver(t, m), n) && Unrest(Deliver(t, m), m.p) < Unrest(t, m.p)
  {
    InvAccepts(t, n, m);
    DeliverKeepsInv(t, n, m);
    assert Addressed(n, m);
    ChopUnrest(t, n, m);
  }

  lemma ChopUnrest(t: Table, n: nat, m: Msg)
    requires |t.phils| == n >= 2 && Addressed(n, m) && m in t.bag && ToChop(m) && HasReceiver(t, m) && Accepts(t, m)
    ensures |Deliver(t, m).phils| == n && Unrest(Deliver(t, m), m.p) < Unrest(t, m.p)
  {
    var p := m.p;
    var l, r := Left(p), Right(p, n);
    assert l != r && Deliver(t, m).phils == t.phils;
    ChopTakesOne(t, m, Take(l, p));
    ChopTakesOne(t, m, Take(r, p));
    ChopTakesOne(t, m, Put(l, p));
    ChopTakesOne(t, m, Put(r, p));
  }

  /** A chopstick's step takes one message to chopsticks away and adds none. */
  lemma ChopTakesOne(t: Table, m: Msg, x: Msg)
    requires m in t.bag && ToChop(m) && HasReceiver(t, m) && Accepts(t, m) && ToChop(x)
    ensures Deliver(t, m).bag[x] == t.bag[x] - if x == m then 1 else 0
  {
  }

  lemma SwapCounts(bag: multiset<Msg>, m: Msg, out: multiset<Msg>)
    requires m in bag
    ensures forall x :: Swap(bag, m, out)[x] == bag[x] + out[x] - if x == m then 1 else 0
  {
  }

  lemma PhilCalms(t: Table, n: nat, m: Msg)
    requires n >= 2 && Inv(t, n) && m in t.bag && !ToChop(m) && !m.Eat?
    ensures m.p < n && Inv(Deliver(t, m), n) && Unrest(Deliver(t, m), m.p) < Unrest(t, m.p)
  {
    InvAccepts(t, n, m);
    DeliverKeepsInv(t, n, m);
    DeliverIsStep(t, m);
    var q := m.p;
    var r := PhilReacts(t.phils[q], q, Left(q), Right(q, n), m);
    RankFalls(t.phils[q], q, Left(q), Right(q, n), m);
    SwapCounts(t.bag, m, r.out);
    PhilPuts(t.phils[q], q, Left(q), Right(q, n), m);
  }

  lemma RankFalls(s: Phil, q: nat, l: nat, r: nat, m: Msg)
    requires !m.Eat? && PhilReacts(s, q, l, r, m).Accepted?
    ensures Rank(PhilReacts(s, q, l, r, m).next) < Rank(s)
  {
  }

  /** What a philosopher sends when he is not thinking: at most two messages to chopsticks. */
  lemma PhilPuts(s: Phil, q: nat, l: nat, r: nat, m: Msg)
    requires !m.Eat? && l != r && PhilReacts(s, q, l, r, m).Accepted?
    ensures var out := PhilReacts(s, q, l, r, m).out;
            out[Put(l, q)] <= 1 && out[Put(r, q)] <= 1 && out[Take(l, q)] == 0 && out[Take(r, q)] == 0
  {
  }

  /** Somebody who is not calm has a message under way that brings him nearer. */
  lemma CalmingMessage(t: Table, n: nat, q: nat) returns (m: Msg)
    requires n >= 2 && Inv(t, n) && q < n && !Calm(t, q)
    ensures m in t.bag && m.p == q && !m.Eat?
  {
    var l, r := Left(q), Right(q, n);
    assert PhilInv(t, q);
    if t.bag[Put(l, q)] > 0 {
      m := Put(l, q);
    } else if t.bag[Put(r, q)] > 0 {
      m := Put(r, q);
    } else if t.phils[q].Starting? || t.phils[q].Eating? {
      m := Think(q);
    } else {
      m := OpenRequest(t, q, if Asked(t, q, l) > 0 then l else r);
    }
  }

  lemma OpenRequest(t: Table, q: nat, c: nat) returns (m: Msg)
    requires Asked(t, q, c) > 0
    ensures m in t.bag && m.p == q && !m.Eat?
  {
    m := if t.bag[Take(c, q)] > 0 then Take(c, q) else if t.bag[Taken(q, c)] > 0 then Taken(q, c) else Busy(q, c);
  }

  /** Deliveries of one philosopher's messages do not stir another one. */
  lemma OthersStayCalm(t: Table, n: nat, m: Msg, p: nat)
    requires n >= 2 && Inv(t, n) && m in t.bag && p < n && p != m.p && Calm(t, p)
    ensures |Deliver(t, m).phils| == n && Calm(Deliver(t, m), p)
  {
    InvAccepts(t, n, m);
    if ToChop(m) {
      var r := ChopReacts(t.chops[m.c], m);
      assert Deliver(t, m).bag == Swap(t.bag, m, r.out);
      assert forall x :: x in r.out ==> x.Taken? || x.Busy?;
    } else {
      var r := PhilReacts(t.phils[m.p], m.p, Left(m.p), Right(m.p, n), m);
      DeliverIsStep(t, m);
      forall x | x in r.out
        ensures x.p != p
      {
        OutIsOwn(t.phils[m.p], m.p, Left(m.p), Right(m.p, n), m, x);
      }
    }
  }

  lemma {:induction false} CalmOne(t: Table, n: nat, q: nat) returns (order: seq<Msg>)
    requires n >= 2 && Inv(t, n) && q < n
    ensures Inv(Play(t, order), n) && Calm(Play(t, order), q)
    ensures forall p :: 0 <= p < n && p != q && Calm(t, p) ==> Calm(Play(t, order), p)
    decreases Unrest(t, q)
  {
    if Calm(t, q) {
      order := [];
    } else {
      var m := CalmingMessage(t, n, q);
      if ToChop(m) {
        ChopCalms(t, n, m);
      } else {
        PhilCalms(t, n, m);
      }
      var t' := Deliver(t, m);
      forall p | 0 <= p < n && p != q && Calm(t, p)
        ensures Calm(t', p)
      {
        OthersStayCalm(t, n, m, p);
      }
      var rest := CalmOne(t', n, q);
      order := [m] + rest;
      assert order[1..] == rest;
    }
  }

  lemma {:induction false} CalmAll(t: Table, n: nat, k: nat) returns (order: seq<Msg>)
    requires n >= 2 && Inv(t, n) && k <= n
    ensures Inv(Play(t, order), n) && forall q :: 0 <= q < k ==> Calm(Play(t, order), q)
  {
    if k == 0 {
      order := [];
    } else {
      var first := CalmAll(t, n, k - 1);
      var t1 := Play(t, first);
      var second := CalmOne(t1, n, k - 1);
      order := first + second;
      PlayAppend(t, first, second);
      assert forall q :: 0 <= q < k - 1 ==> Calm(t1, q);
    }
  }

  lemma CalmHasNoGrip(t: Table, n: nat, q: nat, c: nat)
    requires n >= 2 && Inv(t, n) && q < n && Calm(t, q) && c < n
    ensures Grip(t, q, c) == 0
  {
    assert PhilInv(t, q);
    assert t.bag[Put(c, q)] > 0 ==> Addressed(n, Put(c, q));
    assert t.bag[Taken(q, c)] > 0 ==> Addressed(n, Taken(q, c));
  }

  /** From every state of every run of every ring, every philosopher can get to eat. */
  lemma EveryoneCanEat(n: nat, order: seq<Msg>, p: nat) returns (more: seq<Msg>)
    requires n >= 2 && p < n
    ensures |Run(n, order + more).phils| == n && Run(n, order + more).phils[p] == Eating
  {
    RunKeepsInv(n, order);
    var t := Run(n, order);
    var calming := CalmAll(t, n, n);
    var t1 := Play(t, calming);
    forall c, q | 0 <= c < n && 0 <= q < n
      ensures Grip(t1, q, c) == 0
    {
      CalmHasNoGrip(t1, n, q, c);
    }
    assert Calm(t1, p);
    EatsWhenFree(t1, n, p);
    more := calming + EatingOrder(n, p);
    PlayAppend(t, calming, EatingOrder(n, p));
    RunPlays(n, order, more);
  }
}
