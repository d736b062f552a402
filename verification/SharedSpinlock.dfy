/**
 The reader/writer spinlock, one atomic operation per step: loads, weak compare-exchange
 (which may fail for no reason), stores and fetch_sub, by any number of threads.
 */
module SharedSpinlock {

  const MAX_LONG: int := 0x7FFF_FFFF_FFFF_FFFF
  const MIN_LONG: int := -0x8000_0000_0000_0000

  /** Where a thread is. The value loaded last is part of the point: `Excl(v)` has v and is
      about to test it, `ExclLoad` is about to load. `once` marks the try forms. */
  datatype Point =
    | Idle
    | ExclLoad(once: bool)
    | Excl(v: int, once: bool)
    | SharedLoad(once: bool)
    | Shared(v: int, once: bool)
    | HoldsExcl
    | HoldsShared

  datatype Lock = Lock(flag: int, threads: seq<Point>)

  /** What a thread may be told to do next. `Go` continues inside the operation under way;
      `spurious` lets a weak compare-exchange fail although the values agree. */
  datatype Action =
    | CallLock
    | CallTryLock
    | CallLockShared
    | CallTryLockShared
    | Go(spurious: bool)
    | Unlock
    | UnlockShared
    | UnlockUpgradeAndLock
    | UnlockAndLockUpgrade

  function Init(n: nat): Lock {
    Lock(0, seq(n, i => Idle))
  }

  function Move(l: Lock, i: nat, flag: int, pt: Point): Lock
    requires i < |l.threads|
  {
    Lock(flag, l.threads[i := pt])
  }

  /** One atomic operation of a thread inside lock, try_lock, lock_shared or try_lock_shared. */
  function Proceed(l: Lock, i: nat, spurious: bool): Lock
    requires i < |l.threads|
  {
    match l.threads[i]
    case ExclLoad(once) => Move(l, i, l.flag, Excl(l.flag, once))
    case Excl(v, once) =>
      if v != 0 then Move(l, i, l.flag, if once then Idle else ExclLoad(false))
      else if l.flag == v && !spurious then Move(l, i, MIN_LONG, HoldsExcl)
      else Move(l, i, l.flag, if once then Idle else Excl(l.flag, false))
    case SharedLoad(once) => Move(l, i, l.flag, Shared(l.flag, once))
    case Shared(v, once) =>
      if v < 0 then Move(l, i, l.flag, if once then Idle else SharedLoad(false))
      else if l.flag == v && !spurious then Move(l, i, v + 1, HoldsShared)
      else Move(l, i, l.flag, if once then Idle else Shared(l.flag, false))
    case _ => l
  }

  /** Unlocking is only for a holder, as callers must see to; other requests change nothing. */
  function Next(l: Lock, i: nat, a: Action): Lock {
    if i >= |l.threads| then l
    else
      var pt := l.threads[i];
      match a
      case CallLock => if pt.Idle? then Move(l, i, l.flag, ExclLoad(false)) else l
      case CallTryLock => if pt.Idle? then Move(l, i, l.flag, ExclLoad(true)) else l
      case CallLockShared => if pt.Idle? then Move(l, i, l.flag, SharedLoad(false)) else l
      case CallTryLockShared => if pt.Idle? then Move(l, i, l.flag, SharedLoad(true)) else l
      case Go(spurious) => Proceed(l, i, spurious)
      case Unlock => if pt.HoldsExcl? then Move(l, i, 0, Idle) else l
      case UnlockShared => if pt.HoldsShared? then Move(l, i, l.flag - 1, Idle) else l
      case UnlockUpgradeAndLock => if pt.HoldsShared? then Move(l, i, l.flag - 1, ExclLoad(false)) else l
      case UnlockAndLockUpgrade => if pt.HoldsExcl? then Move(l, i, 0, SharedLoad(false)) else l
  }

  function Run(n: nat, actions: seq<(nat, Action)>): Lock {
    if actions == [] then Init(n)
    else
      var last := actions[|actions| - 1];
      Next(Run(n, actions[..|actions| - 1]), last.0, last.1)
  }

  // ---------------------------------------------------------------- the invariant

  function Count(threads: seq<Point>, pt: Point): nat {
    if threads == [] then 0
    else (if threads[0] == pt then 1 else 0) + Count(threads[1..], pt)
  }

  function Readers(l: Lock): nat {
    Count(l.threads, HoldsShared)
  }

  function Writers(l: Lock): nat {
    Count(l.threads, HoldsExcl)
  }

  /** A loaded value is one the flag can have had. */
  predicate Loaded(n: nat, pt: Point) {
    match pt
    case Excl(v, _) => v == MIN_LONG || 0 <= v <= n
    case Shared(v, _) => v == MIN_LONG || 0 <= v <= n
    case _ => true
  }

  ghost predicate Inv(l: Lock) {
    && (if Writers(l) == 0 then l.flag == Readers(l) else Writers(l) == 1 && Readers(l) == 0 && l.flag == MIN_LONG)
    && forall i :: 0 <= i < |l.threads| ==> Loaded(|l.threads|, l.threads[i])
  }

  lemma {:induction false} CountUpdate(threads: seq<Point>, i: nat, pt: Point, x: Point)
    requires i < |threads|
    ensures Count(threads[i := pt], x) ==
            Count(threads, x) - (if threads[i] == x then 1 else 0) + (if pt == x then 1 else 0)
  {
    if i == 0 {
      assert threads[i := pt][1..] == threads[1..];
    } else {
      assert threads[i := pt][1..] == threads[1..][i - 1 := pt];
      CountUpdate(threads[1..], i - 1, pt, x);
    }
  }

  lemma {:induction false} CountMember(threads: seq<Point>, i: nat)
    requires i < |threads|
    ensures Count(threads, threads[i]) >= 1
  {
    if i > 0 {
      CountMember(threads[1..], i - 1);
    }
  }

  lemma {:induction false} CountBound(threads: seq<Point>, x: Point)
    ensures Count(threads, x) <= |threads|
  {
    if threads != [] {
      CountBound(threads[1..], x);
    }
  }

  lemma MoveKeepsInv(l: Lock, i: nat, flag: int, pt: Point)
    requires Inv(l) && i < |l.threads|
    requires Loaded(|l.threads|, pt)
    requires var was := l.threads[i];
             || (flag == l.flag && !was.HoldsExcl? && !was.HoldsShared? && !pt.HoldsExcl? && !pt.HoldsShared?)
             || (l.flag == 0 && flag == MIN_LONG && !was.HoldsExcl? && !was.HoldsShared? && pt.HoldsExcl?)
             || (l.flag >= 0 && flag == l.flag + 1 && !was.HoldsExcl? && !was.HoldsShared? && pt.HoldsShared?)
             || (flag == 0 && was.HoldsExcl? && !pt.HoldsExcl? && !pt.HoldsShared?)
             || (flag == l.flag - 1 && was.HoldsShared? && !pt.HoldsExcl? && !pt.HoldsShared?)
    ensures Inv(Move(l, i, flag, pt))
  {
    CountUpdate(l.threads, i, pt, HoldsExcl);
    CountUpdate(l.threads, i, pt, HoldsShared);
    CountMember(l.threads, i);
  }

  lemma NextKeepsInv(l: Lock, i: nat, a: Action)
    requires Inv(l)
    ensures Inv(Next(l, i, a))
  {
    if i < |l.threads| && Next(l, i, a) != l {
      if a.Go? {
        ProceedKeepsInv(l, i, a.spurious);
      } else {
        var l' := Next(l, i, a);
        MoveKeepsInv(l, i, l'.flag, l'.threads[i]);
      }
    }
  }

  lemma ProceedKeepsInv(l: Lock, i: nat, spurious: bool)
    requires Inv(l) && i < |l.threads|
    ensures Inv(Proceed(l, i, spurious))
  {
    FlagRange(l);
    match l.threads[i]
    case ExclLoad(once) => MoveKeepsInv(l, i, l.flag, Excl(l.flag, once));
    case SharedLoad(once) => MoveKeepsInv(l, i, l.flag, Shared(l.flag, once));
    case Excl(v, once) =>
      if v != 0 {
        MoveKeepsInv(l, i, l.flag, if once then Idle else ExclLoad(false));
      } else if l.flag == v && !spurious {
        MoveKeepsInv(l, i, MIN_LONG, HoldsExcl);
      } else {
        MoveKeepsInv(l, i, l.flag, if once then Idle else Excl(l.flag, false));
      }
    case Shared(v, once) =>
      if v < 0 {
        MoveKeepsInv(l, i, l.flag, if once then Idle else SharedLoad(false));
      } else if l.flag == v && !spurious {
        MoveKeepsInv(l, i, v + 1, HoldsShared);
      } else {
        MoveKeepsInv(l, i, l.flag, if once then Idle else Shared(l.flag, false));
      }
    case _ =>
  }

  /** What a thread loads now is in range. */
  lemma FlagRange(l: Lock)
    requires Inv(l)
    ensures l.flag == MIN_LONG || 0 <= l.flag <= |l.threads|
  {
    CountBound(l.threads, HoldsShared);
  }

  /** A thread moves only itself. */
  lemma NextIsLocal(l: Lock, i: nat, a: Action)
    ensures |Next(l, i, a).threads| == |l.threads|
    ensures forall j :: 0 <= j < |l.threads| && j != i ==> Next(l, i, a).threads[j] == l.threads[j]
  {
  }

  lemma {:induction false} InitCounts(n: nat, pt: Point)
    requires !pt.Idle?
    ensures Count(seq(n, i => Idle), pt) == 0
  {
    if n > 0 {
      var rest: seq<Point> := seq(n - 1, i => Idle);
      assert seq(n, i => Idle)[1..] == rest;
      InitCounts(n - 1, pt);
    }
  }

  /** In every interleaving the flag is the number of shared holders while nobody holds
      exclusively, and the minimum long while exactly one thread does, with no shared holder. */
  lemma {:induction false} FlagCountsHolders(n: nat, actions: seq<(nat, Action)>)
    ensures Inv(Run(n, actions)) && |Run(n, actions).threads| == n
  {
    if actions == [] {
      InitCounts(n, HoldsExcl);
      InitCounts(n, HoldsShared);
    } else {
      var last := actions[|actions| - 1];
      FlagCountsHolders(n, actions[..|actions| - 1]);
      NextKeepsInv(Run(n, actions[..|actions| - 1]), last.0, last.1);
    }
  }

  /** So a writer is alone. */
  lemma WriterIsAlone(l: Lock, i: nat, j: nat)
    requires Inv(l) && i < |l.threads| && j < |l.threads| && i != j && l.threads[i].HoldsExcl?
    ensures !l.threads[j].HoldsExcl? && !l.threads[j].HoldsShared?
  {
    CountMember(l.threads, j);
    CountUpdate(l.threads, i, Idle, HoldsExcl);
    CountMember(l.threads[i := Idle], j);
  }

  /** No arithmetic leaves the range of long: neither a flag nor the v + 1 of an exchange. */
  lemma NoOverflow(n: nat, actions: seq<(nat, Action)>)
    requires n < MAX_LONG
    ensures var l := Run(n, actions);
            && MIN_LONG <= l.flag <= MAX_LONG
            && forall i :: 0 <= i < |l.threads| && l.threads[i].Shared? && l.threads[i].v >= 0 ==>
                 l.threads[i].v + 1 <= MAX_LONG
  {
    FlagCountsHolders(n, actions);
    CountBound(Run(n, actions).threads, HoldsShared);
  }

  // ---------------------------------------------------------------- a thread that is not disturbed

  /** An operation of thread i on its own: the call, the load, some exchanges that fail for no
      reason, and one that does not. */
  function Alone(l: Lock, i: nat, call: Action, failures: nat): Lock {
    Next(Failures(Next(Next(l, i, call), i, Go(false)), i, failures), i, Go(false))
  }

  function Failures(l: Lock, i: nat, k: nat): Lock {
    if k == 0 then l else Next(Failures(l, i, k - 1), i, Go(true))
  }

  /** A failed exchange of a blocking form loads again, which gives the same value. */
  lemma {:induction false} FailuresHarmless(l: Lock, i: nat, k: nat)
    requires i < |l.threads|
    requires (l.threads[i] == Excl(0, false) && l.flag == 0) || (l.threads[i] == Shared(l.flag, false) && l.flag >= 0)
    ensures Failures(l, i, k) == l
  {
    if k > 0 {
      FailuresHarmless(l, i, k - 1);
      assert l.threads[i := l.threads[i]] == l.threads;
    }
  }

  /** Two moves of one thread are the second one. */
  lemma MoveTwice(l: Lock, i: nat, f: int, pt: Point, f': int, pt': Point)
    requires i < |l.threads|
    ensures Move(Move(l, i, f, pt), i, f', pt') == Move(l, i, f', pt')
    ensures Move(l, i, l.flag, l.threads[i]) == l
  {
  }

  /** lock and lock_shared get a lock that is free for them, however often the exchange fails. */
  lemma LockAlone(l: Lock, i: nat, failures: nat)
    requires i < |l.threads| && l.threads[i] == Idle
    ensures l.flag == 0 ==> Alone(l, i, CallLock, failures) == Move(l, i, MIN_LONG, HoldsExcl)
    ensures l.flag >= 0 ==> Alone(l, i, CallLockShared, failures) == Move(l, i, l.flag + 1, HoldsShared)
  {
    if l.flag == 0 {
      FailuresHarmless(Move(l, i, l.flag, Excl(l.flag, false)), i, failures);
      MoveTwice(l, i, l.flag, ExclLoad(false), l.flag, Excl(l.flag, false));
      MoveTwice(l, i, l.flag, Excl(l.flag, false), MIN_LONG, HoldsExcl);
    }
    if l.flag >= 0 {
      FailuresHarmless(Move(l, i, l.flag, Shared(l.flag, false)), i, failures);
      MoveTwice(l, i, l.flag, SharedLoad(false), l.flag, Shared(l.flag, false));
      MoveTwice(l, i, l.flag, Shared(l.flag, false), l.flag + 1, HoldsShared);
    }
  }

  /** An undisturbed try_lock succeeds if and only if nobody holds the lock, an undisturbed
      try_lock_shared if and only if nobody holds it exclusively; a failure changes nothing. */
  lemma TryIff(l: Lock, i: nat)
    requires i < |l.threads| && l.threads[i] == Idle
    ensures Alone(l, i, CallTryLock, 0) == if l.flag == 0 then Move(l, i, MIN_LONG, HoldsExcl) else l
    ensures Alone(l, i, CallTryLockShared, 0) == if l.flag >= 0 then Move(l, i, l.flag + 1, HoldsShared) else l
  {
    MoveTwice(l, i, l.flag, ExclLoad(true), l.flag, Excl(l.flag, true));
    MoveTwice(l, i, l.flag, Excl(l.flag, true), MIN_LONG, HoldsExcl);
    MoveTwice(l, i, l.flag, Excl(l.flag, true), l.flag, Idle);
    MoveTwice(l, i, l.flag, SharedLoad(true), l.flag, Shared(l.flag, true));
    MoveTwice(l, i, l.flag, Shared(l.flag, true), l.flag + 1, HoldsShared);
    MoveTwice(l, i, l.flag, Shared(l.flag, true), l.flag, Idle);
  }

  /** Unlocking undoes locking. */
  lemma UnlockRestores(l: Lock, i: nat)
    requires i < |l.threads| && l.threads[i] == Idle
    ensures l.flag == 0 ==> Next(Move(l, i, MIN_LONG, HoldsExcl), i, Unlock) == l
    ensures Next(Move(l, i, l.flag + 1, HoldsShared), i, UnlockShared) == l
  {
    MoveTwice(l, i, MIN_LONG, HoldsExcl, 0, Idle);
    MoveTwice(l, i, l.flag + 1, HoldsShared, l.flag, Idle);
  }

  /** The only shared holder upgrades, and an exclusive holder downgrades, without failing. */
  lemma ChangeOfHold(l: Lock, i: nat, failures: nat)
    requires i < |l.threads|
    ensures l.flag == 1 && l.threads[i] == HoldsShared ==>
              Alone(l, i, UnlockUpgradeAndLock, failures) == Move(l, i, MIN_LONG, HoldsExcl)
    ensures l.threads[i] == HoldsExcl ==>
              Alone(l, i, UnlockAndLockUpgrade, failures) == Move(l, i, 1, HoldsShared)
  {
    if l.flag == 1 && l.threads[i] == HoldsShared {
      MoveTwice(l, i, 0, ExclLoad(false), 0, Excl(0, false));
      FailuresHarmless(Move(l, i, 0, Excl(0, false)), i, failures);
      MoveTwice(l, i, 0, Excl(0, false), MIN_LONG, HoldsExcl);
    }
    if l.threads[i] == HoldsExcl {
      MoveTwice(l, i, 0, SharedLoad(false), 0, Shared(0, false));
      FailuresHarmless(Move(l, i, 0, Shared(0, false)), i, failures);
      MoveTwice(l, i, 0, Shared(0, false), 1, HoldsShared);
    }
  }
}
