/**
 The timer actor: messages wait in a multimap ordered by deadline and are delivered by
 sweeps. Clock readings come with the events.
 */
module TimerLoop {
  import opened Common

  /** A delayed message; `id` counts insertions. */
  datatype Delayed = Delayed(deadline: int, id: nat)

  datatype Mail = Delay(d: nat) | ExitMsg | Unexpected

  /** The loop sweeps at a clock reading, or handles a message that it got. */
  datatype Event = SweepAt(now: int) | Handle(now: int, mail: Mail)

  // ---------------------------------------------------------------- the multimap

  /** Insertion behind every entry with the same or an earlier deadline. */
  function Insert(queue: seq<Delayed>, m: Delayed): seq<Delayed> {
    if queue == [] then [m]
    else if m.deadline < queue[0].deadline then [m] + queue
    else [queue[0]] + Insert(queue[1..], m)
  }

  /** The entries at the front that are due. */
  function DueNow(queue: seq<Delayed>, now: int): (due: seq<Delayed>)
    ensures forall x :: x in due ==> x.deadline <= now
  {
    if queue == [] || queue[0].deadline > now then [] else [queue[0]] + DueNow(queue[1..], now)
  }

  /** The entries behind them. */
  function Waiting(queue: seq<Delayed>, now: int): (rest: seq<Delayed>)
    ensures rest != [] ==> rest[0].deadline > now
  {
    if queue == [] || queue[0].deadline > now then queue else Waiting(queue[1..], now)
  }

  /** The two parts make up the queue; of a queue in order, the first is exactly what is due. */
  lemma {:induction false} DueMeaning(queue: seq<Delayed>, now: int)
    requires Ordered(queue)
    ensures DueNow(queue, now) + Waiting(queue, now) == queue
    ensures forall x :: x in Waiting(queue, now) ==> x.deadline > now
  {
    if queue != [] && queue[0].deadline <= now {
      DueMeaning(queue[1..], now);
    }
  }

  // ---------------------------------------------------------------- reference: stable sorting

  /** All messages of a run sorted by deadline, equal deadlines in the order of insertion. */
  function StableSort(inserted: seq<Delayed>): seq<Delayed> {
    if inserted == [] then []
    else Insert(StableSort(inserted[..|inserted| - 1]), inserted[|inserted| - 1])
  }

  predicate Before(x: Delayed, y: Delayed) {
    x.deadline < y.deadline || (x.deadline == y.deadline && x.id < y.id)
  }

  ghost predicate Ordered(s: seq<Delayed>) {
    forall i, j :: 0 <= i < j < |s| ==> Before(s[i], s[j])
  }

  /** A message with a new id goes to its one place. */
  lemma {:induction false} InsertMeaning(queue: seq<Delayed>, m: Delayed)
    requires Ordered(queue) && forall x :: x in queue ==> x.id < m.id
    ensures Ordered(Insert(queue, m)) && multiset(Insert(queue, m)) == multiset(queue) + multiset{m}
  {
    if queue != [] && m.deadline >= queue[0].deadline {
      var head, rest := queue[0], queue[1..];
      assert queue == [head] + rest;
      InsertMeaning(rest, m);
      forall x | x in Insert(rest, m)
        ensures Before(head, x)
      {
        assert x in multiset(Insert(rest, m));
      }
      PrependOrdered(head, Insert(rest, m));
    } else if queue != [] {
      forall x | x in queue
        ensures Before(m, x)
      {
      }
      PrependOrdered(m, queue);
    }
  }

  lemma PrependOrdered(x: Delayed, s: seq<Delayed>)
    requires Ordered(s) && forall y :: y in s ==> Before(x, y)
    ensures Ordered([x] + s) && multiset([x] + s) == multiset{x} + multiset(s)
  {
  }

  ghost predicate Numbered(inserted: seq<Delayed>) {
    forall i :: 0 <= i < |inserted| ==> inserted[i].id == i
  }

  /** The reference is what it says: ordered by deadline, then insertion, and a permutation. */
  lemma {:induction false} StableSortMeaning(inserted: seq<Delayed>)
    requires Numbered(inserted)
    ensures Ordered(StableSort(inserted)) && multiset(StableSort(inserted)) == multiset(inserted)
  {
    if inserted != [] {
      var before, m := inserted[..|inserted| - 1], inserted[|inserted| - 1];
      StableSortMeaning(before);
      assert inserted == before + [m];
      forall x | x in StableSort(before)
        ensures x.id < m.id
      {
        assert x in multiset(StableSort(before));
        assert x in before;
      }
      InsertMeaning(StableSort(before), m);
    }
  }

  /** Inserting behind a part that is not later than the new message leaves that part alone. */
  lemma {:induction false} InsertBehind(done: seq<Delayed>, queue: seq<Delayed>, m: Delayed)
    requires forall x :: x in done ==> x.deadline <= m.deadline
    ensures Insert(done + queue, m) == done + Insert(queue, m)
  {
    if done == [] {
      assert done + queue == queue && done + Insert(queue, m) == Insert(queue, m);
    } else {
      assert done[0] in done && forall x :: x in done[1..] ==> x in done;
      InsertBehind(done[1..], queue, m);
      assert (done + queue)[1..] == done[1..] + queue;
    }
  }

  lemma SortedParts(a: seq<Delayed>, b: seq<Delayed>)
    requires Ordered(a + b)
    ensures Ordered(a) && Ordered(b) && multiset(a + b) == multiset(a) + multiset(b)
  {
    forall i, j | 0 <= i < j < |a|
      ensures Before(a[i], a[j])
    {
      assert (a + b)[i] == a[i] && (a + b)[j] == a[j];
    }
    forall i, j | 0 <= i < j < |b|
      ensures Before(b[i], b[j])
    {
      assert (a + b)[|a| + i] == b[i] && (a + b)[|a| + j] == b[j];
    }
  }

  // ---------------------------------------------------------------- what a run does

  /** A message handed to its receiver, and when. */
  datatype Delivery = Delivery(m: Delayed, at: int)

  datatype Timer = Timer(pending: seq<Delayed>, delivered: seq<Delivery>, count: nat, done: bool)

  const START: Timer := Timer([], [], 0, false)

  function Deliver(due: seq<Delayed>, now: int): (out: seq<Delivery>)
    ensures |out| == |due|
  {
    if due == [] then [] else [Delivery(due[0], now)] + Deliver(due[1..], now)
  }

  function Messages(delivered: seq<Delivery>): seq<Delayed> {
    if delivered == [] then [] else [delivered[0].m] + Messages(delivered[1..])
  }

  /** After an exit message nothing more happens. */
  function Next(t: Timer, e: Event): Timer {
    if t.done then t
    else
      match e
      case SweepAt(now) =>
        t.(pending := Waiting(t.pending, now), delivered := t.delivered + Deliver(DueNow(t.pending, now), now))
      case Handle(now, Delay(d)) =>
        t.(pending := Insert(t.pending, Delayed(now + d, t.count)), count := t.count + 1)
      case Handle(_, ExitMsg) => t.(done := true)
      case Handle(_, Unexpected) => t
  }

  function Run(t: Timer, events: seq<Event>): Timer
    decreases |events|
  {
    if events == [] then t else Run(Next(t, events[0]), events[1..])
  }

  predicate IsExit(e: Event) {
    e.Handle? && e.mail.ExitMsg?
  }

  predicate IsDelay(e: Event) {
    e.Handle? && e.mail.Delay?
  }

  /** What the events up to the first exit ask to be delayed, numbered from `count`. */
  function InsertedBy(events: seq<Event>, count: nat): seq<Delayed>
    decreases |events|
  {
    if events == [] || IsExit(events[0]) then []
    else if IsDelay(events[0]) then
      [Delayed(events[0].now + events[0].mail.d, count)] + InsertedBy(events[1..], count + 1)
    else InsertedBy(events[1..], count)
  }

  /** When a message with this deadline leaves, if these events follow its insertion: at the
      first sweep at or after the deadline, unless an exit comes first. */
  function DeliveryTime(events: seq<Event>, deadline: int): Option<int>
    decreases |events|
  {
    if events == [] || IsExit(events[0]) then None
    else if events[0].SweepAt? && events[0].now >= deadline then Some(events[0].now)
    else DeliveryTime(events[1..], deadline)
  }

  /** Clock readings never go back. */
  predicate Monotone(events: seq<Event>, clock: int)
    decreases |events|
  {
    events == [] || (clock <= events[0].now && Monotone(events[1..], events[0].now))
  }

  // ---------------------------------------------------------------- order, completeness, never early

  /** Delivered and pending are, in this order, all that was inserted, sorted; and nothing was
      delivered before its deadline or after the clock. */
  ghost predicate Good(t: Timer, inserted: seq<Delayed>, clock: int) {
    && Numbered(inserted) && t.count == |inserted|
    && Messages(t.delivered) + t.pending == StableSort(inserted)
    && forall x :: x in t.delivered ==> x.m.deadline <= x.at <= clock
  }

  lemma {:induction false} MessagesAppend(a: seq<Delivery>, due: seq<Delayed>, now: int)
    ensures Messages(a + Deliver(due, now)) == Messages(a) + due
  {
    if a == [] {
      assert [] + Deliver(due, now) == Deliver(due, now);
      MessagesOf(due, now);
      assert [] + due == due;
    } else {
      assert (a + Deliver(due, now))[1..] == a[1..] + Deliver(due, now);
      MessagesAppend(a[1..], due, now);
    }
  }

  lemma {:induction false} MessagesOf(due: seq<Delayed>, now: int)
    ensures Messages(Deliver(due, now)) == due
  {
    if due != [] {
      assert Deliver(due, now)[1..] == Deliver(due[1..], now);
      MessagesOf(due[1..], now);
    }
  }

  lemma {:induction false} DeliverMeaning(due: seq<Delayed>, now: int)
    ensures forall x :: x in Deliver(due, now) <==> x.at == now && x.m in due
  {
    if due != [] {
      DeliverMeaning(due[1..], now);
      assert due == [due[0]] + due[1..];
    }
  }

  lemma {:induction false} MessagesMeaning(delivered: seq<Delivery>)
    ensures |Messages(delivered)| == |delivered|
    ensures forall i :: 0 <= i < |delivered| ==> Messages(delivered)[i] == delivered[i].m
  {
    if delivered != [] {
      MessagesMeaning(delivered[1..]);
    }
  }

  lemma GoodIsOrdered(t: Timer, inserted: seq<Delayed>, clock: int)
    requires Good(t, inserted, clock)
    ensures Ordered(t.pending) && Ordered(Messages(t.delivered))
    ensures multiset(Messages(t.delivered)) + multiset(t.pending) == multiset(inserted)
  {
    StableSortMeaning(inserted);
    SortedParts(Messages(t.delivered), t.pending);
  }

  lemma SweepKeepsGood(t: Timer, inserted: seq<Delayed>, clock: int, now: int)
    requires Good(t, inserted, clock) && clock <= now && !t.done
    ensures Good(Next(t, SweepAt(now)), inserted, now)
  {
    GoodIsOrdered(t, inserted, clock);
    DueMeaning(t.pending, now);
    var due := DueNow(t.pending, now);
    MessagesAppend(t.delivered, due, now);
    DeliverMeaning(due, now);
    Associative(Messages(t.delivered), due, Waiting(t.pending, now));
  }

  lemma Associative(a: seq<Delayed>, b: seq<Delayed>, c: seq<Delayed>)
    ensures (a + b) + c == a + (b + c)
  {
  }

  lemma DelayKeepsGood(t: Timer, inserted: seq<Delayed>, clock: int, now: int, d: nat)
    requires Good(t, inserted, clock) && clock <= now && !t.done
    ensures Good(Next(t, Handle(now, Delay(d))), inserted + [Delayed(now + d, t.count)], now)
  {
    var m := Delayed(now + d, t.count);
    var all, gone := inserted + [m], Messages(t.delivered);
    assert all[..|all| - 1] == inserted;
    MessagesMeaning(t.delivered);
    forall x | x in gone
      ensures x.deadline <= m.deadline
    {
      var i :| 0 <= i < |gone| && gone[i] == x;
      assert t.delivered[i] in t.delivered;
    }
    InsertBehind(gone, t.pending, m);
  }

  /** The last clock reading. */
  function EndClock(events: seq<Event>, clock: int): int
    decreases |events|
  {
    if events == [] then clock else EndClock(events[1..], events[0].now)
  }

  lemma {:induction false} DoneStays(t: Timer, events: seq<Event>)
    requires t.done
    ensures Run(t, events) == t
    decreases |events|
  {
    if events != [] {
      DoneStays(t, events[1..]);
    }
  }

  lemma {:induction false} EndClockLater(events: seq<Event>, clock: int)
    requires Monotone(events, clock)
    ensures clock <= EndClock(events, clock)
    decreases |events|
  {
    if events != [] {
      EndClockLater(events[1..], events[0].now);
    }
  }

  lemma {:induction false} RunKeepsGood(t: Timer, inserted: seq<Delayed>, clock: int, events: seq<Event>)
    requires Good(t, inserted, clock) && !t.done && Monotone(events, clock)
    ensures Good(Run(t, events), inserted + InsertedBy(events, t.count), EndClock(events, clock))
    decreases |events|
  {
    if events == [] {
      assert inserted + [] == inserted;
    } else {
      var e, rest := events[0], events[1..];
      if IsExit(e) {
        DoneStays(Next(t, e), rest);
        EndClockLater(rest, e.now);
        assert inserted + [] == inserted;
      } else if IsDelay(e) {
        var m, more := Delayed(e.now + e.mail.d, t.count), InsertedBy(rest, t.count + 1);
        DelayKeepsGood(t, inserted, clock, e.now, e.mail.d);
        RunKeepsGood(Next(t, e), inserted + [m], e.now, rest);
        assert InsertedBy(events, t.count) == [m] + more;
        Associative(inserted, [m], more);
      } else {
        if e.SweepAt? {
          SweepKeepsGood(t, inserted, clock, e.now);
        }
        RunKeepsGood(Next(t, e), inserted, e.now, rest);
      }
    }
  }

  /** A whole run with a clock that never goes back. What the events asked for is exactly what
      was delivered and is pending; deliveries are in order of deadline, equal deadlines in order
      of insertion, across all sweeps; none came before its deadline. No message is there twice,
      since each has its own id. */
  lemma RunInOrder(events: seq<Event>, clock: int)
    requires Monotone(events, clock)
    ensures var t, inserted := Run(START, events), InsertedBy(events, 0);
            && Messages(t.delivered) + t.pending == StableSort(inserted)
            && Ordered(Messages(t.delivered)) && Numbered(inserted)
            && multiset(Messages(t.delivered)) + multiset(t.pending) == multiset(inserted)
            && forall x :: x in t.delivered ==> x.m.deadline <= x.at
  {
    RunKeepsGood(START, [], clock, events);
    assert [] + InsertedBy(events, 0) == InsertedBy(events, 0);
    GoodIsOrdered(Run(START, events), InsertedBy(events, 0), EndClock(events, clock));
  }

  // ---------------------------------------------------------------- when each message leaves

  lemma {:induction false} DeliveredStays(t: Timer, events: seq<Event>, x: Delivery)
    requires x in t.delivered
    ensures x in Run(t, events).delivered
    decreases |events|
  {
    if events != [] {
      DeliveredStays(Next(t, events[0]), events[1..], x);
    }
  }

  lemma {:induction false} InsertKeeps(queue: seq<Delayed>, m: Delayed, x: Delayed)
    ensures x in Insert(queue, m) <==> x == m || x in queue
  {
    if queue != [] && m.deadline >= queue[0].deadline {
      InsertKeeps(queue[1..], m, x);
      assert queue == [queue[0]] + queue[1..];
    }
  }

  /** Where a message is at the end. */
  ghost predicate Fate(t: Timer, m: Delayed, when: Option<int>) {
    match when
    case None => m in t.pending
    case Some(at) => Delivery(m, at) in t.delivered
  }

  lemma {:induction false} PendingFate(t: Timer, inserted: seq<Delayed>, clock: int, events: seq<Event>, m: Delayed)
    requires Good(t, inserted, clock) && !t.done && Monotone(events, clock) && m in t.pending
    ensures Fate(Run(t, events), m, DeliveryTime(events, m.deadline))
    decreases |events|
  {
    if events != [] {
      var e, rest := events[0], events[1..];
      if IsExit(e) {
        DoneStays(Next(t, e), rest);
      } else if IsDelay(e) {
        InsertKeeps(t.pending, Delayed(e.now + e.mail.d, t.count), m);
        DelayKeepsGood(t, inserted, clock, e.now, e.mail.d);
        PendingFate(Next(t, e), inserted + [Delayed(e.now + e.mail.d, t.count)], e.now, rest, m);
      } else if e.SweepAt? {
        SweptFate(t, inserted, clock, e.now, m);
        if m.deadline <= e.now {
          DeliveredStays(Next(t, e), rest, Delivery(m, e.now));
        } else {
          SweepKeepsGood(t, inserted, clock, e.now);
          PendingFate(Next(t, e), inserted, e.now, rest, m);
        }
      } else {
        PendingFate(t, inserted, e.now, rest, m);
      }
    }
  }

  lemma SweptFate(t: Timer, inserted: seq<Delayed>, clock: int, now: int, m: Delayed)
    requires Good(t, inserted, clock) && !t.done && m in t.pending
    ensures var t' := Next(t, SweepAt(now));
            if m.deadline <= now then Delivery(m, now) in t'.delivered else m in t'.pending
  {
    GoodIsOrdered(t, inserted, clock);
    DueMeaning(t.pending, now);
    DeliverMeaning(DueNow(t.pending, now), now);
  }

  lemma {:induction false} RunSplits(t: Timer, a: seq<Event>, b: seq<Event>)
    ensures Run(t, a + b) == Run(Run(t, a), b)
    decreases |a|
  {
    if a == [] {
      assert a + b == b;
    } else {
      assert (a + b)[1..] == a[1..] + b;
      RunSplits(Next(t, a[0]), a[1..], b);
    }
  }

  lemma {:induction false} MonotoneSplits(a: seq<Event>, b: seq<Event>, clock: int)
    requires Monotone(a + b, clock)
    ensures Monotone(a, clock) && Monotone(b, EndClock(a, clock))
    decreases |a|
  {
    if a == [] {
      assert a + b == b;
    } else {
      assert (a + b)[1..] == a[1..] + b;
      MonotoneSplits(a[1..], b, a[0].now);
    }
  }

  lemma {:induction false} NotDone(t: Timer, events: seq<Event>)
    requires !t.done && forall e :: e in events ==> !IsExit(e)
    ensures !Run(t, events).done
    decreases |events|
  {
    if events != [] {
      assert events[0] in events && forall e :: e in events[1..] ==> e in events;
      NotDone(Next(t, events[0]), events[1..]);
    }
  }

  /** Each delayed message, whatever came before and comes after it: it is delivered at the first
      sweep at or after its deadline that comes before an exit, and if there is none it is
      pending at the end. */
  lemma EachMessageLeavesOnTime(before: seq<Event>, now: int, d: nat, after: seq<Event>, clock: int)
    requires Monotone(before + ([Handle(now, Delay(d))] + after), clock)
    requires forall e :: e in before ==> !IsExit(e)
    ensures var m := Delayed(now + d, |InsertedBy(before, 0)|);
            Fate(Run(START, before + ([Handle(now, Delay(d))] + after)), m, DeliveryTime(after, now + d))
  {
    var e := Handle(now, Delay(d));
    MonotoneSplits(before, [e] + after, clock);
    RunKeepsGood(START, [], clock, before);
    NotDone(START, before);
    RunSplits(START, before, [e] + after);
    DelayedFate(Run(START, before), [] + InsertedBy(before, 0), EndClock(before, clock), now, d, after);
  }

  lemma DelayedFate(t: Timer, inserted: seq<Delayed>, clock: int, now: int, d: nat, after: seq<Event>)
    requires Good(t, inserted, clock) && !t.done && Monotone([Handle(now, Delay(d))] + after, clock)
    ensures Fate(Run(t, [Handle(now, Delay(d))] + after), Delayed(now + d, t.count), DeliveryTime(after, now + d))
  {
    var e, m := Handle(now, Delay(d)), Delayed(now + d, t.count);
    assert ([e] + after)[1..] == after;
    DelayKeepsGood(t, inserted, clock, now, d);
    InsertKeeps(t.pending, m, m);
    PendingFate(Next(t, e), inserted + [m], now, after, m);
  }

  // ---------------------------------------------------------------- the actor

  class TimerActor {
    var messages: seq<Delayed>
    var count: nat
    var done: bool
    // every call of deliver, with the clock reading of its sweep
    var delivered: seq<Delivery>

    ghost function View(): Timer
      reads this
    {
      Timer(messages, delivered, count, done)
    }

    constructor ()
      ensures View() == START
    {
      messages, count, done, delivered := [], 0, false, [];
    }

    method InsertDmsg(now: int, d: nat)
      requires !done
      modifies this
      ensures View() == Next(old(View()), Handle(now, Delay(d)))
    {
      messages, count := Insert(messages, Delayed(now + d, count)), count + 1;
    }

    /** Takes from the front as long as the front is due. */
    method Sweep(now: int)
      requires !done
      modifies this
      ensures View() == Next(old(View()), SweepAt(now))
    {
      while messages != [] && messages[0].deadline <= now
        invariant !done && count == old(count)
        invariant Waiting(messages, now) == Waiting(old(messages), now)
        invariant delivered + Deliver(DueNow(messages, now), now)
                  == old(delivered) + Deliver(DueNow(old(messages), now), now)
        decreases |messages|
      {
        MoveOne(delivered, messages, now);
        delivered := delivered + [Delivery(messages[0], now)];
        messages := messages[1..];
      }
      assert delivered + [] == delivered;
    }

    /** The loop of the actor, from any state: it ends where the run of the events ends. */
    method Act(events: seq<Event>)
      modifies this
      ensures View() == Run(old(View()), events)
    {
      var i := 0;
      assert events[0..] == events;
      while i < |events| && !done
        invariant i <= |events| && Run(View(), events[i..]) == Run(old(View()), events)
      {
        assert events[i..][0] == events[i] && events[i..][1..] == events[i + 1..];
        match events[i] {
          case SweepAt(now) => Sweep(now);
          case Handle(now, mail) =>
            match mail {
              case Delay(d) => InsertDmsg(now, d);
              case ExitMsg => done := true;
              case Unexpected =>
            }
        }
        i := i + 1;
      }
      if done {
        DoneStays(View(), events[i..]);
      }
    }
  }

  lemma MoveOne(a: seq<Delivery>, queue: seq<Delayed>, now: int)
    requires queue != [] && queue[0].deadline <= now
    ensures a + Deliver(DueNow(queue, now), now)
            == a + [Delivery(queue[0], now)] + Deliver(DueNow(queue[1..], now), now)
  {
    var due := DueNow(queue, now);
    assert due[0] == queue[0] && due[1..] == DueNow(queue[1..], now);
  }
}
