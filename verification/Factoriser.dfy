/**
 The message handlers of the factoriser: what a worker and the client do with one message.
 The functions say what is sent and what the next behaviour is; the classes run the
 handlers in place.
 */
module Factoriser {
  import opened NumberTheory
  import opened RhoBurst

  /** What a worker sends: to its own mailbox, or to its group. */
  datatype Send =
    | SelfCalculate(n: nat)
    | SelfContinue(n: nat, a: nat, cycles: nat, state: nat)
    | GroupFactor(p: nat, cycles: nat)
    | GroupNoFactor

  function OnCalculate(id: nat, n: nat, draw: nat): Send
    requires n > 0
  {
    SelfContinue(n, FromDraw(draw, n), 0, id + 1)
  }

  function OnContinue(id: nat, n: nat, a: nat, cycles: nat, state: nat, draw: nat, prime: nat -> bool): seq<Send>
    requires n > 0
  {
    if state != id then [] else Report(Rounds(0, n, a, cycles, FromDraw(draw, n), prime), n, a, state)
  }

  function Report(o: Outcome, n: nat, a: nat, state: nat): seq<Send> {
    match o
    case Factor(p, c) => [GroupFactor(p, c)]
    case Restart(c) => [SelfContinue(n, a, c, state)]
    case NoFactor => [GroupNoFactor, SelfCalculate(n)]
    case Exhausted(c) => [SelfContinue(n, a, c, state)]
  }

  /** Round k is the first one of a burst from x with a gcd other than 1. */
  ghost predicate FirstHit(k: nat, x: nat, a: nat, n: nat)
    requires n > 0
  {
    1 <= k <= MAX_ITERATIONS && RoundGcd(k, x, a, n) != 1 && forall j :: 1 <= j < k ==> RoundGcd(j, x, a, n) == 1
  }

  /** What a current continuation sends if round k is the first with a gcd other than 1: this gcd
      as a factor, or itself with the same numbers if the gcd is n and n is not found prime. */
  lemma ContinueHits(n: nat, a: nat, cycles: nat, state: nat, draw: nat, prime: nat -> bool, k: nat)
    requires n > 0
    ensures var p := RoundGcd(k, FromDraw(draw, n), a, n);
            FirstHit(k, FromDraw(draw, n), a, n) && (cycles <= LIMIT || k == 1) ==>
            OnContinue(state, n, a, cycles, state, draw, prime) ==
            [if p == n && !prime(n) then SelfContinue(n, a, cycles + k - 1, state) else GroupFactor(p, cycles + k - 1)]
  {
    RoundsHit(n, a, cycles, FromDraw(draw, n), prime, k);
  }

  /** One over the limit that finds nothing in its first round says so and begins again. */
  lemma ContinueGivesUp(n: nat, a: nat, cycles: nat, state: nat, draw: nat, prime: nat -> bool)
    requires n > 0 && cycles > LIMIT
    ensures RoundGcd(1, FromDraw(draw, n), a, n) == 1 ==>
            OnContinue(state, n, a, cycles, state, draw, prime) == [GroupNoFactor, SelfCalculate(n)]
  {
    RoundsMiss(n, a, cycles, FromDraw(draw, n), prime);
  }

  /** One within the limit that finds nothing in any round goes on. */
  lemma ContinueRunsOn(n: nat, a: nat, cycles: nat, state: nat, draw: nat, prime: nat -> bool)
    requires n > 0 && cycles <= LIMIT
    ensures (forall j :: 1 <= j <= MAX_ITERATIONS ==> RoundGcd(j, FromDraw(draw, n), a, n) == 1) ==>
            OnContinue(state, n, a, cycles, state, draw, prime) == [SelfContinue(n, a, cycles + MAX_ITERATIONS, state)]
  {
    RoundsMiss(n, a, cycles, FromDraw(draw, n), prime);
  }

  /** An obsolete one sends nothing. */
  lemma ContinueObsolete(id: nat, n: nat, a: nat, cycles: nat, state: nat, draw: nat, prime: nat -> bool)
    requires n > 0 && state != id
    ensures OnContinue(id, n, a, cycles, state, draw, prime) == []
  {
  }

  /** A current one has no other case: a round with a gcd other than 1 makes some round the first. */
  lemma {:induction false} SomeFirstHit(j: nat, x: nat, a: nat, n: nat) returns (k: nat)
    requires n > 0 && 1 <= j <= MAX_ITERATIONS
    ensures RoundGcd(j, x, a, n) != 1 ==> k <= j && FirstHit(k, x, a, n)
  {
    if i :| 1 <= i < j && RoundGcd(i, x, a, n) != 1 {
      k := SomeFirstHit(i, x, a, n);
    } else {
      k := j;
    }
  }

  lemma RoundsHit(n: nat, a: nat, cycles: nat, x: nat, prime: nat -> bool, k: nat)
    requires n > 0
    ensures FirstHit(k, x, a, n) && (cycles <= LIMIT || k == 1) ==>
            Rounds(0, n, a, cycles, x, prime) ==
            if RoundGcd(k, x, a, n) == n && !prime(n) then Restart(cycles + k - 1)
            else Factor(RoundGcd(k, x, a, n), cycles + k - 1)
  {
    if FirstHit(k, x, a, n) && (cycles <= LIMIT || k == 1) {
      RoundDecides(k - 1, n, a, cycles, x, prime, RoundGcd(k, x, a, n));
    }
  }

  lemma RoundsMiss(n: nat, a: nat, cycles: nat, x: nat, prime: nat -> bool)
    requires n > 0
    ensures cycles > LIMIT && RoundGcd(1, x, a, n) == 1 ==> Rounds(0, n, a, cycles, x, prime) == NoFactor
    ensures cycles <= LIMIT && (forall j :: 1 <= j <= MAX_ITERATIONS ==> RoundGcd(j, x, a, n) == 1) ==>
            Rounds(0, n, a, cycles, x, prime) == Exhausted(cycles + MAX_ITERATIONS)
  {
    if cycles > LIMIT && RoundGcd(1, x, a, n) == 1 {
      RoundDecides(0, n, a, cycles, x, prime, 1);
    } else if cycles <= LIMIT && (forall j :: 1 <= j <= MAX_ITERATIONS ==> RoundGcd(j, x, a, n) == 1) {
      SkipUndecided(0, MAX_ITERATIONS, n, a, cycles, x, prime);
    }
  }

  /** A calculation starts under the next id with no cycles, and can draw every constant. */
  lemma CalculateMeaning(id: nat, n: nat, a: nat)
    requires 1 <= a <= n
    ensures OnCalculate(id, n, a - 1) == SelfContinue(n, a, 0, id + 1)
  {
    UniqueQuotient(n, a - 1, 0, a - 1);
  }

  class Worker {
    var stateId: nat

    constructor ()
      ensures stateId == 0
    {
      stateId := 0;
    }

    method Calculate(n: nat, draw: nat) returns (out: Send)
      requires n > 0
      modifies this
      ensures out == OnCalculate(old(stateId), n, draw)
      ensures stateId == old(stateId) + 1
    {
      var a := draw % n + 1;
      out := SelfContinue(n, a, 0, stateId + 1);
      stateId := stateId + 1;
    }

    method Continue(n: nat, a: nat, cycles: nat, state: nat, draw: nat, prime: nat -> bool) returns (out: seq<Send>)
      requires 0 < n < TWO_512
      ensures out == OnContinue(stateId, n, a, cycles, state, draw, prime)
    {
      if state != stateId {
        return [];
      }
      var o := Burst(n, a, cycles, draw, prime);
      match o {
        case Factor(p, c) => out := [GroupFactor(p, c)];
        case Restart(c) => out := [SelfContinue(n, a, c, state)];
        case NoFactor => out := [GroupNoFactor, SelfCalculate(n)];
        case Exhausted(c) => out := [SelfContinue(n, a, c, state)];
      }
    }
  }

  /** n with every factor p divided out. A p below 2 never reaches the client; the loop
      it would run forever is cut here. */
  function DivideOut(n: nat, p: nat): nat
    decreases n
  {
    if n > 0 && p >= 2 && n % p == 0 then
      QuotientSmaller(n, p);
      DivideOut(n / p, p)
    else n
  }

  /** The client's next number. It keeps the old one when it believes itself finished. */
  function OnFactor(n: nat, p: nat): nat
    requires p >= 2
  {
    if DivideOut(n, p) / p == 1 then n else DivideOut(n, p)
  }

  predicate AsksAgain(n: nat, p: nat)
    requires p >= 2
  {
    DivideOut(n, p) / p != 1
  }

  /** The power of p that goes. */
  function Removed(n: nat, p: nat): nat
    decreases n
  {
    if n > 0 && p >= 2 && n % p == 0 then
      QuotientSmaller(n, p);
      p * Removed(n / p, p)
    else 1
  }

  /** No factor is lost, all of p goes, and a number that changes is at least halved. */
  lemma {:induction false} DivideOutMeaning(n: nat, p: nat)
    requires n > 0 && p >= 2
    ensures n == DivideOut(n, p) * Removed(n, p)
    ensures DivideOut(n, p) > 0 && !Divides(p, DivideOut(n, p))
    ensures Removed(n, p) >= if DivideOut(n, p) == n then 1 else 2
  {
    if n % p == 0 {
      var m := n / p;
      QuotientSmaller(n, p);
      ExactQuotient(n, p);
      DivideOutMeaning(m, p);
      Associative(p, DivideOut(m, p), Removed(m, p));
      MultipleIsLarger(p, Removed(m, p));
    }
  }

  /** Dividing out is what is left of n when n is a power of p times a number p does not divide. */
  lemma {:induction false} DivideOutUnique(n: nat, p: nat, m: nat, k: nat)
    requires p >= 2 && m > 0 && !Divides(p, m) && n == m * Power(p, k)
    ensures DivideOut(n, p) == m && Removed(n, p) == Power(p, k)
  {
    if k == 0 {
      assert n == m;
    } else {
      var rest := m * Power(p, k - 1);
      DivideOutUnique(rest, p, m, k - 1);
      assert n == p * rest && rest > 0 by {
        Associative(m, p, Power(p, k - 1));
        PowerPositive(p, k - 1);
        MultipleIsLarger(m, Power(p, k - 1));
      }
      DivideOnce(rest, p);
    }
  }

  lemma DivideOnce(rest: nat, p: nat)
    requires p >= 2 && rest > 0
    ensures DivideOut(p * rest, p) == DivideOut(rest, p) && Removed(p * rest, p) == p * Removed(rest, p)
  {
    MultipleIsLarger(p, rest);
    MultipleDivides(p, rest);
  }

  lemma {:induction false} PowerPositive(p: nat, k: nat)
    requires p > 0
    ensures Power(p, k) >= 1
  {
    if k > 0 {
      PowerPositive(p, k - 1);
      MultipleIsLarger(p, Power(p, k - 1));
    }
  }

  /** The client goes on with the rest m of n, unless m lies between p and 2p: then it believes
      itself finished and keeps n. */
  lemma ClientGoesOnIff(n: nat, p: nat, m: nat, k: nat)
    requires p >= 2 && m > 0 && !Divides(p, m) && n == m * Power(p, k)
    ensures AsksAgain(n, p) <==> !(p < m < 2 * p)
    ensures OnFactor(n, p) == if p < m < 2 * p then n else m
  {
    DivideOutUnique(n, p, m, k);
    QuotientIsOne(m, p);
  }

  lemma QuotientIsOne(m: nat, p: nat)
    requires p >= 2 && !Divides(p, m)
    ensures m / p == 1 <==> p < m < 2 * p
  {
    assert m == p * (m / p) + m % p;
    if p <= m < 2 * p {
      UniqueQuotient(p, m, 1, m - p);
    }
  }

  class Client {
    var n: nat
    var cycles: nat
    var cpuTime: int

    constructor (start: nat)
      ensures n == start && cycles == 0 && cpuTime == 0
    {
      n, cycles, cpuTime := start, 0, 0;
    }

    /** Divides p out of the number in place, printing p as it goes; says whether a new calculate
        is sent. When it believes itself finished, nothing of its state changes. The printed
        numbers are one p too many: their product is p times what was divided out. */
    method Factor(p: nat, newCycles: nat, newCpuTime: int) returns (again: bool, printed: seq<nat>)
      requires n > 0 && p >= 2
      modifies this
      ensures n == OnFactor(old(n), p)
      ensures again == AsksAgain(old(n), p)
      ensures cycles == old(cycles) + if again then newCycles else 0
      ensures cpuTime == old(cpuTime) + if again then newCpuTime else 0
      ensures (forall x :: x in printed ==> x == p) && Product(printed) == p * Removed(old(n), p)
    {
      DivideOutMeaning(n, p);
      var tmp := n;
      printed := [p];
      assert Product(printed) == p by {
        ProductAppend([], p);
        assert [] + [p] == [p];
      }
      while tmp % p == 0
        invariant n == old(n) && cycles == old(cycles) && cpuTime == old(cpuTime)
        invariant tmp > 0 && DivideOut(tmp, p) == DivideOut(n, p)
        invariant forall x :: x in printed ==> x == p
        invariant Product(printed) * Removed(tmp, p) == p * Removed(n, p)
        decreases tmp
      {
        QuotientSmaller(tmp, p);
        ProductAppend(printed, p);
        Associative(Product(printed), p, Removed(tmp / p, p));
        tmp := tmp / p;
        printed := printed + [p];
      }
      if tmp / p == 1 {
        again := false;
      } else {
        again := true;
        n, cycles, cpuTime := tmp, cycles + newCycles, cpuTime + newCpuTime;
      }
    }

    method NoFactor(newCpuTime: int)
      modifies this
      ensures n == old(n) && cycles == old(cycles) && cpuTime == old(cpuTime) + newCpuTime
    {
      cpuTime := cpuTime + newCpuTime;
    }
  }
}

/** One worker and its mailbox, whatever order messages are taken in. */
module WorkerMailbox {
  import opened RhoBurst
  import opened Factoriser

  datatype Mail = Calc(n: nat) | Cont(n: nat, a: nat, cycles: nat, state: nat)

  /** `current` is the n of the calculate message processed last. */
  datatype State = State(id: nat, current: nat, mailbox: seq<Mail>)

  datatype Event = Arrive(n: nat) | Take(i: nat, draw: nat, isPrime: bool)

  function Init(): State {
    State(0, 0, [])
  }

  function Remove(s: seq<Mail>, i: nat): seq<Mail>
    requires i < |s|
  {
    s[..i] + s[i + 1..]
  }

  function SelfMail(out: seq<Send>): seq<Mail> {
    if out == [] then []
    else
      (match out[0]
       case SelfCalculate(n) => [Calc(n)]
       case SelfContinue(n, a, c, st) => [Cont(n, a, c, st)]
       case _ => [])
      + SelfMail(out[1..])
  }

  /** A message that cannot be taken leaves the state as it is; n is never 0. */
  function Next(s: State, e: Event): State {
    match e
    case Arrive(n) => s.(mailbox := s.mailbox + [Calc(n)])
    case Take(i, draw, isPrime) =>
      if i >= |s.mailbox| || s.mailbox[i].n == 0 then s
      else
        var rest := Remove(s.mailbox, i);
        match s.mailbox[i]
        case Calc(n) => State(s.id + 1, n, rest + SelfMail([OnCalculate(s.id, n, draw)]))
        case Cont(n, a, c, st) =>
          s.(mailbox := rest + SelfMail(OnContinue(s.id, n, a, c, st, draw, Answer(isPrime))))
  }

  function Run(events: seq<Event>): State {
    if events == [] then Init()
    else Next(Run(events[..|events| - 1]), events[|events| - 1])
  }

  predicate Live(s: State, m: Mail) {
    m.Cont? && m.state == s.id
  }

  ghost predicate Inv(s: State) {
    && (forall m :: m in s.mailbox && m.Cont? ==> 0 < m.state <= s.id)
    && (forall m :: m in s.mailbox && Live(s, m) ==> m.n == s.current)
    && (forall i, j :: 0 <= i < j < |s.mailbox| && Live(s, s.mailbox[i]) ==> !Live(s, s.mailbox[j]))
  }

  /** Taking a message out keeps the invariant; taking the live one leaves none. */
  lemma RemoveKeepsInv(s: State, i: nat)
    requires Inv(s) && i < |s.mailbox|
    ensures var rest := Remove(s.mailbox, i);
            && Inv(s.(mailbox := rest))
            && (Live(s, s.mailbox[i]) ==> forall m :: m in rest ==> !Live(s, m))
  {
    var rest := Remove(s.mailbox, i);
    forall k | 0 <= k < |rest|
      ensures rest[k] == s.mailbox[if k < i then k else k + 1]
    {
    }
  }

  lemma AppendKeepsInv(s: State, m: Mail)
    requires Inv(s)
    requires m.Cont? ==> 0 < m.state <= s.id
    requires Live(s, m) ==> m.n == s.current && forall k :: k in s.mailbox ==> !Live(s, k)
    ensures Inv(s.(mailbox := s.mailbox + [m]))
  {
    var s' := s.(mailbox := s.mailbox + [m]);
    forall i, j | 0 <= i < j < |s'.mailbox| && Live(s', s'.mailbox[i])
      ensures !Live(s', s'.mailbox[j])
    {
      assert s'.mailbox[i] == s.mailbox[i] && s.mailbox[i] in s.mailbox;
    }
  }

  lemma NextKeepsInv(s: State, e: Event)
    requires Inv(s)
    ensures Inv(Next(s, e))
  {
    match e
    case Arrive(n) => AppendKeepsInv(s, Calc(n));
    case Take(i, draw, isPrime) =>
      if i < |s.mailbox| && s.mailbox[i].n != 0 {
        RemoveKeepsInv(s, i);
        var s1 := s.(mailbox := Remove(s.mailbox, i));
        match s.mailbox[i]
        case Calc(n) =>
          var out := [OnCalculate(s.id, n, draw)];
          var mail := Cont(n, FromDraw(draw, n), 0, s.id + 1);
          assert SelfMail(out) == [mail] by {
            assert out[1..] == [];
          }
          AppendKeepsInv(State(s.id + 1, n, s1.mailbox), mail);
        case Cont(n, a, c, st) =>
          ContinueMail(s.id, n, a, c, st, draw, Answer(isPrime));
          var mail := SelfMail(OnContinue(s.id, n, a, c, st, draw, Answer(isPrime)));
          if mail == [] {
            assert s1.mailbox + mail == s1.mailbox;
          } else {
            assert mail == [mail[0]];
            AppendKeepsInv(s1, mail[0]);
          }
      }
  }

  /** A continuation puts at most one message back, and only a current one does. */
  lemma ContinueMail(id: nat, n: nat, a: nat, c: nat, st: nat, draw: nat, prime: nat -> bool)
    requires n > 0
    ensures var mail := SelfMail(OnContinue(id, n, a, c, st, draw, prime));
            && |mail| <= 1
            && (mail != [] ==> st == id && mail[0].n == n && (mail[0].Cont? ==> mail[0].state == id))
  {
    var out := OnContinue(id, n, a, c, st, draw, prime);
    if |out| == 1 {
      assert out[1..] == [];
    } else if |out| == 2 {
      assert out[1..][1..] == [];
      assert SelfMail(out[1..]) == [Calc(n)];
    }
  }

  /** In every run of a worker: no continuation from the future, at most one with the current
      id, and that one is about the number asked for last. */
  lemma {:induction false} AtMostOneCurrentContinuation(events: seq<Event>)
    ensures Inv(Run(events))
  {
    if events != [] {
      AtMostOneCurrentContinuation(events[..|events| - 1]);
      NextKeepsInv(Run(events[..|events| - 1]), events[|events| - 1]);
    }
  }

  // ---------------------------------------------------------------- a worker is never idle

  /** The work on the current id ended with a factor sent. */
  predicate Reported(events: seq<Event>) {
    if events == [] then false
    else
      var before, e := events[..|events| - 1], events[|events| - 1];
      var s := Run(before);
      match e
      case Arrive(_) => Reported(before)
      case Take(i, draw, isPrime) =>
        if i >= |s.mailbox| || s.mailbox[i].n == 0 then Reported(before)
        else
          match s.mailbox[i]
          case Calc(_) => false
          case Cont(n, a, c, st) =>
            if st != s.id then Reported(before)
            else Rounds(0, n, a, c, FromDraw(draw, n), Answer(isPrime)).Factor?
  }

  predicate IsWork(s: State, m: Mail) {
    m.n > 0 && (m.Calc? || Live(s, m))
  }

  ghost predicate Working(s: State) {
    exists i :: 0 <= i < |s.mailbox| && IsWork(s, s.mailbox[i])
  }

  lemma TakeKeepsWorking(s: State, i: nat, draw: nat, isPrime: bool)
    requires i < |s.mailbox| && s.mailbox[i].n > 0
    requires IsWork(s, s.mailbox[i]) || Working(s)
    ensures var m := s.mailbox[i];
            || Working(Next(s, Take(i, draw, isPrime)))
            || (Live(s, m) && Rounds(0, m.n, m.a, m.cycles, FromDraw(draw, m.n), Answer(isPrime)).Factor?)
  {
    var m, s' := s.mailbox[i], Next(s, Take(i, draw, isPrime));
    var rest := Remove(s.mailbox, i);
    match m
    case Calc(n) =>
      var out := [OnCalculate(s.id, n, draw)];
      assert out[1..] == [] && SelfMail(out) == [Cont(n, FromDraw(draw, n), 0, s.id + 1)];
      assert IsWork(s', s'.mailbox[|rest|]);
    case Cont(n, a, c, st) =>
      if st == s.id {
        CurrentGoesOn(s.id, n, a, c, draw, Answer(isPrime));
        var mail := SelfMail(OnContinue(s.id, n, a, c, st, draw, Answer(isPrime)));
        if mail != [] {
          assert s'.mailbox[|rest|] == mail[0] && IsWork(s', mail[0]);
        }
      } else {
        var j :| 0 <= j < |s.mailbox| && IsWork(s, s.mailbox[j]);
        var j' := if j < i then j else j - 1;
        assert rest[j'] == s.mailbox[j] && s'.mailbox[j'] == rest[j'];
      }
  }

  /** A current continuation sends a factor or puts work on the same number back. */
  lemma CurrentGoesOn(id: nat, n: nat, a: nat, c: nat, draw: nat, prime: nat -> bool)
    requires n > 0
    ensures var (o, mail) := (Rounds(0, n, a, c, FromDraw(draw, n), prime), SelfMail(OnContinue(id, n, a, c, id, draw, prime)));
            o.Factor? || (|mail| == 1 && mail[0].n == n && (mail[0].Calc? || mail[0].state == id))
  {
    var out := OnContinue(id, n, a, c, id, draw, prime);
    if |out| == 1 {
      assert out[1..] == [];
    } else if |out| == 2 {
      assert out[1..][1..] == [];
      assert SelfMail(out[1..]) == [Calc(n)];
    }
  }

  /** In every run a worker that was ever asked for a number has work in its mailbox, or has sent a factor for
      the number it last began with. */
  lemma {:induction false} NeverIdle(events: seq<Event>, n: nat)
    requires n > 0 && Arrive(n) in events
    ensures Working(Run(events)) || Reported(events)
  {
    var before, e := events[..|events| - 1], events[|events| - 1];
    var s := Run(before);
    match e
    case Arrive(n') =>
      var s' := Run(events);
      if n' > 0 {
        assert IsWork(s', s'.mailbox[|s.mailbox|]);
      } else {
        assert Arrive(n) in before;
        NeverIdle(before, n);
        if Working(s) {
          var j :| 0 <= j < |s.mailbox| && IsWork(s, s.mailbox[j]);
          assert IsWork(s', s'.mailbox[j]);
        }
      }
    case Take(i, draw, isPrime) =>
      assert Arrive(n) in before;
      NeverIdle(before, n);
      if i < |s.mailbox| && s.mailbox[i].n > 0 && (IsWork(s, s.mailbox[i]) || Working(s)) {
        TakeKeepsWorking(s, i, draw, isPrime);
      }
  }
}
