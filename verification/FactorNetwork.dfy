/**
 Whole runs of the factoriser: one client, any number of managers and workers. `sent` holds
 every message sent so far; delivering one does not remove it, so messages may be delayed,
 reordered, repeated or never delivered.
 */
module FactorNetwork {
  import opened NumberTheory
  import opened RhoBurst
  import opened Factoriser

  /** The client and the managers listen to the server group, managers and workers to the
      worker group, and each worker to itself. */
  datatype Channel = ServerGroup | WorkerGroup | SelfOf(w: nat)

  datatype Msg =
    | Calculate(to: Channel, n: nat)
    | Continue(w: nat, n: nat, a: nat, cycles: nat, state: nat)
    | FactorMsg(to: Channel, p: nat, cycles: nat)
    | NoFactorMsg(to: Channel)

  /** `divided` lists what each change of the client's number divided it by. */
  datatype System = System(n: nat, divided: seq<nat>, ids: seq<nat>, sent: set<Msg>)

  datatype Event =
    | WorkerTakes(w: nat, m: Msg, draw: nat, isPrime: bool)
    | ManagerTakes(m: Msg)
    | ClientTakes(m: Msg)

  function Init(start: nat, workers: nat): System {
    System(start, [], seq(workers, i => 0), {Calculate(ServerGroup, start)})
  }

  function Address(w: nat, s: Send): Msg {
    match s
    case SelfCalculate(n) => Calculate(SelfOf(w), n)
    case SelfContinue(n, a, c, st) => Continue(w, n, a, c, st)
    case GroupFactor(p, c) => FactorMsg(WorkerGroup, p, c)
    case GroupNoFactor => NoFactorMsg(WorkerGroup)
  }

  function AddressAll(w: nat, out: seq<Send>): set<Msg> {
    set s | s in out :: Address(w, s)
  }

  function WorkerStep(s: System, w: nat, m: Msg, draw: nat, isPrime: bool): System
    requires w < |s.ids|
  {
    match m
    case Calculate(to, n) =>
      if n > 0 && (to == WorkerGroup || to == SelfOf(w)) then
        s.(ids := s.ids[w := s.ids[w] + 1], sent := s.sent + {Address(w, OnCalculate(s.ids[w], n, draw))})
      else s
    case Continue(w', n, a, c, st) =>
      if n > 0 && w' == w then
        s.(sent := s.sent + AddressAll(w, OnContinue(s.ids[w], n, a, c, st, draw, Answer(isPrime))))
      else s
    case _ => s
  }

  /** A manager hears both groups, its own forwarded messages included. */
  function ManagerStep(s: System, m: Msg): System {
    match m
    case Calculate(to, n) => if to.SelfOf? then s else s.(sent := s.sent + {Calculate(WorkerGroup, n)})
    case FactorMsg(to, p, c) => if to.SelfOf? then s else s.(sent := s.sent + {FactorMsg(ServerGroup, p, c)})
    case NoFactorMsg(to) => if to.SelfOf? then s else s.(sent := s.sent + {NoFactorMsg(ServerGroup)})
    case _ => s
  }

  function ClientStep(s: System, m: Msg): System {
    match m
    case FactorMsg(ServerGroup, p, _) =>
      if p < 2 || s.n == 0 || !AsksAgain(s.n, p) then s
      else
        var r := OnFactor(s.n, p);
        System(r,
               if r == s.n || r == 0 then s.divided else s.divided + [Removed(s.n, p)],
               s.ids,
               s.sent + {Calculate(ServerGroup, r)})
    case _ => s
  }

  /** Only messages that were sent are delivered; anything else changes nothing. */
  function Next(s: System, e: Event): System {
    if e.m !in s.sent then s
    else
      match e
      case WorkerTakes(w, m, draw, isPrime) => if w < |s.ids| then WorkerStep(s, w, m, draw, isPrime) else s
      case ManagerTakes(m) => ManagerStep(s, m)
      case ClientTakes(m) => ClientStep(s, m)
  }

  function Run(start: nat, workers: nat, events: seq<Event>): System {
    if events == [] then Init(start, workers)
    else Next(Run(start, workers, events[..|events| - 1]), events[|events| - 1])
  }

  /** How often the client's number changed in a run. */
  function Changes(start: nat, workers: nat, events: seq<Event>): nat {
    if events == [] then 0
    else
      var before := events[..|events| - 1];
      Changes(start, workers, before)
      + if Run(start, workers, before).n == Run(start, workers, events).n then 0 else 1
  }

  // ---------------------------------------------------------------- the invariant

  predicate MsgOk(m: Msg, start: nat) {
    match m
    case Calculate(_, n) => n > 0 && Divides(n, start)
    case Continue(_, n, a, _, _) => n > 0 && Divides(n, start) && 1 <= a <= n
    case FactorMsg(_, p, _) => p >= 2 && Divides(p, start)
    case NoFactorMsg(_) => true
  }

  ghost predicate Inv(s: System, start: nat) {
    && s.n > 0
    && start == s.n * Product(s.divided)
    && (forall d :: d in s.divided ==> d >= 2)
    && (forall m :: m in s.sent ==> MsgOk(m, start))
  }

  lemma ContinueSendsOk(start: nat, w: nat, id: nat, n: nat, a: nat, c: nat, st: nat, draw: nat, prime: nat -> bool)
    requires MsgOk(Continue(w, n, a, c, st), start)
    ensures forall m :: m in AddressAll(w, OnContinue(id, n, a, c, st, draw, prime)) ==> MsgOk(m, start)
  {
    var x := FromDraw(draw, n);
    OutcomeMeaning(0, n, a, c, x, prime);
    match Rounds(0, n, a, c, x, prime)
    case Factor(p, _) => DividesTransitive(p, n, start);
    case _ =>
  }

  lemma ClientKeepsInv(s: System, m: Msg, start: nat)
    requires Inv(s, start) && MsgOk(m, start)
    ensures Inv(ClientStep(s, m), start)
  {
    var s' := ClientStep(s, m);
    if s' != s {
      DivideOutMeaning(s.n, m.p);
      if s'.n != s.n {
        DividedProduct(s.n, s'.n, Removed(s.n, m.p), s.divided);
      }
      FactorDivides(s'.n, Product(s'.divided), start);
    }
  }

  lemma DividedProduct(n: nat, r: nat, k: nat, divided: seq<nat>)
    requires n == r * k
    ensures n * Product(divided) == r * Product(divided + [k])
  {
    ProductAppend(divided, k);
    Associative(r, k, Product(divided));
  }

  lemma FactorDivides(r: nat, k: nat, n: nat)
    requires r > 0 && n == r * k
    ensures Divides(r, n)
  {
    MultipleDivides(r, k);
  }

  lemma NextKeepsInv(s: System, e: Event, start: nat)
    requires Inv(s, start)
    ensures Inv(Next(s, e), start)
  {
    if e.m in s.sent {
      match e
      case WorkerTakes(w, m, draw, isPrime) =>
        if w < |s.ids| && m.Continue? && m.w == w {
          ContinueSendsOk(start, w, s.ids[w], m.n, m.a, m.cycles, m.state, draw, Answer(isPrime));
        }
      case ManagerTakes(m) =>
      case ClientTakes(m) => ClientKeepsInv(s, m, start);
    }
  }

  /** In every run: every number asked for divides the start, every factor under way is at least
      2 and divides it, and the client's number times all that was divided out is the start. */
  lemma {:induction false} NumbersDivideStart(start: nat, workers: nat, events: seq<Event>)
    requires start > 0
    ensures Inv(Run(start, workers, events), start)
  {
    if events == [] {
      MultipleDivides(start, 1);
    } else {
      NumbersDivideStart(start, workers, events[..|events| - 1]);
      NextKeepsInv(Run(start, workers, events[..|events| - 1]), events[|events| - 1], start);
    }
  }

  // ---------------------------------------------------------------- how often the number changes

  lemma {:induction false} ProductOfTwos(s: seq<nat>)
    requires forall d :: d in s ==> d >= 2
    ensures Pow2(|s|) <= Product(s)
  {
    if s != [] {
      assert forall d :: d in s[1..] ==> d in s;
      ProductOfTwos(s[1..]);
      assert s[0] in s;
      MultiplyBound(2, s[0], Product(s[1..]));
    }
  }

  lemma NextChanges(s: System, e: Event, start: nat)
    requires Inv(s, start)
    ensures |Next(s, e).divided| == |s.divided| + if Next(s, e).n == s.n then 0 else 1
  {
    NextKeepsInv(s, e, start);
  }

  /** In every run the client's number changes at most log2(start) times. */
  lemma ChangesBounded(start: nat, workers: nat, events: seq<Event>)
    requires start > 0
    ensures Pow2(Changes(start, workers, events)) * Run(start, workers, events).n <= start
  {
    var s := Run(start, workers, events);
    NumbersDivideStart(start, workers, events);
    ChangesCounted(start, workers, events);
    ProductOfTwos(s.divided);
    MultiplyBound(Pow2(|s.divided|), Product(s.divided), s.n);
  }

  lemma MultiplyBound(x: nat, y: nat, n: nat)
    requires x <= y
    ensures x * n <= n * y
  {
  }

  lemma {:induction false} ChangesCounted(start: nat, workers: nat, events: seq<Event>)
    requires start > 0
    ensures |Run(start, workers, events).divided| == Changes(start, workers, events)
  {
    if events != [] {
      var before := events[..|events| - 1];
      NumbersDivideStart(start, workers, before);
      NextChanges(Run(start, workers, before), events[|events| - 1], start);
      ChangesCounted(start, workers, before);
    }
  }

  // ---------------------------------------------------------------- from the client to a factor and back

  /** A manager passes numbers on to the workers, factors and failures on to the client. */
  lemma ManagerForwards(s: System, m: Msg)
    requires m in s.sent && !m.Continue? && !m.to.SelfOf?
    ensures var s' := Next(s, ManagerTakes(m));
            && s.sent <= s'.sent && s'.n == s.n && s'.ids == s.ids
            && match m
               case Calculate(_, n) => Calculate(WorkerGroup, n) in s'.sent
               case FactorMsg(_, p, c) => FactorMsg(ServerGroup, p, c) in s'.sent
               case NoFactorMsg(_) => NoFactorMsg(ServerGroup) in s'.sent
  {
  }

  lemma NextAsks(s: System, e: Event)
    requires Calculate(ServerGroup, s.n) in s.sent
    ensures Calculate(ServerGroup, Next(s, e).n) in Next(s, e).sent && |Next(s, e).ids| == |s.ids|
  {
    if e.ClientTakes? && e.m in s.sent && e.m.FactorMsg? && e.m.to == ServerGroup && e.m.p >= 2 {
      var s' := ClientStep(s, e.m);
      assert s' != s ==> Calculate(ServerGroup, s'.n) in s'.sent;
    }
  }

  /** In every run the client has asked for its current number. */
  lemma {:induction false} ClientHasAsked(start: nat, workers: nat, events: seq<Event>)
    ensures var s := Run(start, workers, events);
            Calculate(ServerGroup, s.n) in s.sent && |s.ids| == workers
  {
    if events != [] {
      ClientHasAsked(start, workers, events[..|events| - 1]);
      NextAsks(Run(start, workers, events[..|events| - 1]), events[|events| - 1]);
    }
  }

  lemma RunAppend(start: nat, workers: nat, events: seq<Event>, e: Event)
    ensures Run(start, workers, events + [e]) == Next(Run(start, workers, events), e)
  {
    assert (events + [e])[..|events|] == events;
  }

  /** A worker asked for n gives itself a continuation it will accept. */
  lemma WorkerBegins(s: System, w: nat, n: nat, draw: nat)
    requires w < |s.ids| && n > 0 && Calculate(WorkerGroup, n) in s.sent
    ensures var s' := Next(s, WorkerTakes(w, Calculate(WorkerGroup, n), draw, true));
            && s'.n == s.n && |s'.ids| == |s.ids|
            && Continue(w, n, FromDraw(draw, n), 0, s'.ids[w]) in s'.sent
  {
  }

  /** A current continuation of a number with a small divisor, if a gcd of n is taken for prime. */
  lemma WorkerFinds(s: System, w: nat, n: nat, a: nat, draw: nat, q: nat) returns (p: nat, c: nat)
    requires w < |s.ids| && n > 0 && a <= n && Continue(w, n, a, 0, s.ids[w]) in s.sent
    requires 1 < q <= MAX_ITERATIONS && Divides(q, n) && (n < TWO_256 || n % 2 == 0)
    ensures var s' := Next(s, WorkerTakes(w, Continue(w, n, a, 0, s.ids[w]), draw, true));
            && s'.n == s.n && 2 <= p <= n && Divides(p, n) && FactorMsg(WorkerGroup, p, c) in s'.sent
  {
    BurstFindsSmallDivisor(n, a, 0, draw, q, Answer(true));
    OutcomeMeaning(0, n, a, 0, FromDraw(draw, n), Answer(true));
    var o := Rounds(0, n, a, 0, FromDraw(draw, n), Answer(true));
    p, c := o.p, o.cycles;
    var out := OnContinue(s.ids[w], n, a, 0, s.ids[w], draw, Answer(true));
    assert out[0] == GroupFactor(p, c) && Address(w, out[0]) in AddressAll(w, out);
  }

  /** A current continuation over the limit that finds nothing in its first round tells the
      managers and gives its worker the number again. */
  lemma WorkerGivesUp(s: System, w: nat, n: nat, a: nat, cycles: nat, draw: nat, isPrime: bool)
    requires w < |s.ids| && n > 0 && Continue(w, n, a, cycles, s.ids[w]) in s.sent
    requires cycles > LIMIT
    ensures RoundGcd(1, FromDraw(draw, n), a, n) == 1 ==>
            Next(s, WorkerTakes(w, Continue(w, n, a, cycles, s.ids[w]), draw, isPrime)) ==
            s.(sent := s.sent + {NoFactorMsg(WorkerGroup), Calculate(SelfOf(w), n)})
  {
    ContinueGivesUp(n, a, cycles, s.ids[w], draw, Answer(isPrime));
    if RoundGcd(1, FromDraw(draw, n), a, n) == 1 {
      var out := OnContinue(s.ids[w], n, a, cycles, s.ids[w], draw, Answer(isPrime));
      assert out[0] in out && out[1] in out;
      assert AddressAll(w, out) == {NoFactorMsg(WorkerGroup), Calculate(SelfOf(w), n)};
    }
  }

  /** From every state of every run with a worker, if the client's number has a divisor up to
      1000 and is below 2^256 or even, five more deliveries bring the client a factor p of it:
      through a manager to a worker and back. The client then does what it does on p. */
  lemma FactorCanArrive(start: nat, workers: nat, events: seq<Event>, q: nat, a: nat, draw: nat)
    returns (more: seq<Event>, p: nat)
    requires start > 0 && workers > 0
    requires var n := Run(start, workers, events).n;
             n > 0 && 1 < q <= MAX_ITERATIONS && Divides(q, n) && (n < TWO_256 || n % 2 == 0)
    ensures |more| == 5
    ensures var n := Run(start, workers, events).n;
            2 <= p <= n && Divides(p, n) && Run(start, workers, events + more).n == OnFactor(n, p)
  {
    var s := Run(start, workers, events);
    ClientHasAsked(start, workers, events);
    var e1 := ManagerTakes(Calculate(ServerGroup, s.n));
    var s1 := Next(s, e1);
    ManagerForwards(s, e1.m);
    var e2 := WorkerTakes(0, Calculate(WorkerGroup, s.n), a, true);
    var s2 := Next(s1, e2);
    WorkerBegins(s1, 0, s.n, a);
    var e3 := WorkerTakes(0, Continue(0, s.n, FromDraw(a, s.n), 0, s2.ids[0]), draw, true);
    var s3, c := Next(s2, e3), 0;
    p, c := WorkerFinds(s2, 0, s.n, FromDraw(a, s.n), draw, q);
    var e4 := ManagerTakes(FactorMsg(WorkerGroup, p, c));
    ManagerForwards(s3, e4.m);
    var e5 := ClientTakes(FactorMsg(ServerGroup, p, c));
    more := [e1, e2, e3, e4, e5];
    FiveEvents(start, workers, events, e1, e2, e3, e4, e5);
  }

  lemma FiveEvents(start: nat, workers: nat, events: seq<Event>, e1: Event, e2: Event, e3: Event, e4: Event, e5: Event)
    ensures Run(start, workers, events + [e1, e2, e3, e4, e5]) ==
            Next(Next(Next(Next(Next(Run(start, workers, events), e1), e2), e3), e4), e5)
  {
    var s := Run(start, workers, events);
    RunPlays(start, workers, events, [e1, e2, e3, e4, e5]);
    PlayFirst(s, e1, [e2, e3, e4, e5]);
    PlayFirst(Next(s, e1), e2, [e3, e4, e5]);
    PlayFirst(Next(Next(s, e1), e2), e3, [e4, e5]);
    PlayFirst(Next(Next(Next(s, e1), e2), e3), e4, [e5]);
    PlayFirst(Next(Next(Next(Next(s, e1), e2), e3), e4), e5, []);
    assert [e1, e2, e3, e4, e5] == [e1] + [e2, e3, e4, e5] && [e2, e3, e4, e5] == [e2] + [e3, e4, e5];
    assert [e3, e4, e5] == [e3] + [e4, e5] && [e4, e5] == [e4] + [e5] && [e5] == [e5] + [];
  }

  /** More events, first to last. */
  function Play(s: System, more: seq<Event>): System
    decreases |more|
  {
    if more == [] then s else Play(Next(s, more[0]), more[1..])
  }

  lemma PlayFirst(s: System, e: Event, more: seq<Event>)
    ensures Play(s, [e] + more) == Play(Next(s, e), more)
  {
    assert ([e] + more)[1..] == more;
  }

  lemma {:induction false} RunPlays(start: nat, workers: nat, events: seq<Event>, more: seq<Event>)
    ensures Run(start, workers, events + more) == Play(Run(start, workers, events), more)
    decreases |more|
  {
    if more == [] {
      assert events + more == events;
    } else {
      RunAppend(start, workers, events, more[0]);
      assert events + more == (events + [more[0]]) + more[1..];
      RunPlays(start, workers, events + [more[0]], more[1..]);
    }
  }
}
