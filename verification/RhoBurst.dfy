/**
 One burst of a worker: Pollard's rho with Floyd's cycle search, at most 1000 rounds
 of a tortoise (one step) and a hare (two steps), and a gcd after each round.

 Numbers are 512 bits wide, as the source's integer type is; `Wrap` is its overflow.
 */
module RhoBurst {
  import opened NumberTheory

  const MAX_ITERATIONS: nat := 1000

  /** pow(n, 1/4) with an integer exponent: 1/4 is 0, so the limit is 1 for every n. */
  const LIMIT: nat := 1

  const TWO_256: nat := 0x1_0000000000000000_0000000000000000_0000000000000000_0000000000000000
  const TWO_512: nat := TWO_256 * TWO_256

  function Wrap(v: nat): (r: nat)
    ensures r < TWO_512 && (v < TWO_512 ==> r == v)
  {
    v % TWO_512
  }

  /** x -> x * x + a modulo n, each intermediate value cut to 512 bits. */
  function StepMap(x: nat, a: nat, n: nat): (r: nat)
    requires n > 0
    ensures r < n
  {
    Wrap(Wrap(x * x) + a) % n
  }

  function Iterate(k: nat, x: nat, a: nat, n: nat): nat
    requires n > 0
  {
    if k == 0 then x else StepMap(Iterate(k - 1, x, a, n), a, n)
  }

  function Abs(v: int): nat {
    if v < 0 then -v else v
  }

  /** What round k (counted from 1) hands to the gcd, and the gcd. */
  function Distance(k: nat, x: nat, a: nat, n: nat): nat
    requires n > 0
  {
    Abs(Iterate(2 * k, x, a, n) - Iterate(k, x, a, n)) % n
  }

  function RoundGcd(k: nat, x: nat, a: nat, n: nat): nat
    requires n > 0
  {
    Gcd(Distance(k, x, a, n), n)
  }

  /** How a burst ends: a factor message, a continuation with the same a (after a gcd of n
      or after all rounds), or a nofactor message together with a fresh calculate. */
  datatype Outcome =
    | Factor(p: nat, cycles: nat)
    | Restart(cycles: nat)
    | NoFactor
    | Exhausted(cycles: nat)

  /** The burst from round i on; round i + 1 decides. */
  function Rounds(i: nat, n: nat, a: nat, cycles: nat, x: nat, prime: nat -> bool): Outcome
    requires n > 0
    decreases MAX_ITERATIONS - i
  {
    if i >= MAX_ITERATIONS then Exhausted(cycles + MAX_ITERATIONS)
    else
      var p := RoundGcd(i + 1, x, a, n);
      if p != 1 then
        if p != n || prime(p) then Factor(p, cycles + i) else Restart(cycles + i)
      else if cycles > LIMIT then NoFactor
      else Rounds(i + 1, n, a, cycles, x, prime)
  }

  /** A prime test with this answer. */
  function Answer(isPrime: bool): nat -> bool {
    (p: nat) => isPrime
  }

  /** A burst asks the prime test at most once, about n: its answer may differ from burst to burst. */
  lemma {:induction false} PrimeTestAskedOnce(i: nat, n: nat, a: nat, cycles: nat, x: nat, prime: nat -> bool)
    requires n > 0 && i <= MAX_ITERATIONS
    ensures Rounds(i, n, a, cycles, x, prime) == Rounds(i, n, a, cycles, x, Answer(prime(n)))
    decreases MAX_ITERATIONS - i
  {
    if i < MAX_ITERATIONS {
      PrimeTestAskedOnce(i + 1, n, a, cycles, x, prime);
    }
  }

  /** A random draw becomes a start value (and likewise the constant a) in 1..n. */
  function FromDraw(draw: nat, n: nat): (x: nat)
    requires n > 0
    ensures 1 <= x <= n
  {
    draw % n + 1
  }

  /** One round moves the tortoise by one step and the hare by two. */
  lemma RoundMoves(i: nat, start: nat, a: nat, n: nat)
    requires n > 0
    ensures Iterate(i + 1, start, a, n) == StepMap(Iterate(i, start, a, n), a, n)
    ensures Iterate(2 * (i + 1), start, a, n) == StepMap(StepMap(Iterate(2 * i, start, a, n), a, n), a, n)
  {
    assert Iterate(2 * i + 1, start, a, n) == StepMap(Iterate(2 * i, start, a, n), a, n);
  }

  lemma RoundGcdOf(k: nat, start: nat, a: nat, n: nat, x: nat, y: nat)
    requires n > 0
    ensures x == Iterate(k, start, a, n) && y == Iterate(2 * k, start, a, n) ==>
            RoundGcd(k, start, a, n) == Gcd(Abs(y - x) % n, n)
  {
  }

  /** The body of the loop up to the gcd. */
  method Round(tortoise: nat, hare: nat, a: nat, n: nat) returns (x: nat, y: nat, p: nat)
    requires n > 0
    ensures x == StepMap(tortoise, a, n) && y == StepMap(StepMap(hare, a, n), a, n)
    ensures p == Gcd(Abs(y - x) % n, n)
  {
    x := Wrap(Wrap(tortoise * tortoise) + a) % n;
    y := Wrap(Wrap(hare * hare) + a) % n;
    y := Wrap(Wrap(y * y) + a) % n;
    var d := if y - x > 0 then (y - x) % n else -(y - x) % n;
    p := EuclidGcd(d, n);
  }

  /** The rounds from `from` to i were not decisive. */
  ghost predicate Undecided(from: nat, i: nat, n: nat, a: nat, cycles: nat, x: nat)
    requires n > 0
  {
    && (from < i ==> cycles <= LIMIT)
    && forall k :: from < k <= i ==> RoundGcd(k, x, a, n) == 1
  }

  lemma {:induction false} SkipUndecided(from: nat, i: nat, n: nat, a: nat, cycles: nat, x: nat, prime: nat -> bool)
    requires n > 0 && from <= i <= MAX_ITERATIONS && Undecided(from, i, n, a, cycles, x)
    ensures Rounds(from, n, a, cycles, x, prime) == Rounds(i, n, a, cycles, x, prime)
    decreases i - from
  {
    if from < i {
      assert RoundGcd(from + 1, x, a, n) == 1;
      SkipUndecided(from + 1, i, n, a, cycles, x, prime);
    }
  }

  /** How the burst ends if round i + 1 is the first that decides. */
  lemma RoundDecides(i: nat, n: nat, a: nat, cycles: nat, x: nat, prime: nat -> bool, p: nat)
    requires n > 0 && i < MAX_ITERATIONS && Undecided(0, i, n, a, cycles, x)
    ensures var o := Rounds(0, n, a, cycles, x, prime);
            p == RoundGcd(i + 1, x, a, n) ==>
            if p != 1 then o == if p != n || prime(p) then Factor(p, cycles + i) else Restart(cycles + i)
            else if cycles > LIMIT then o == NoFactor
            else Undecided(0, i + 1, n, a, cycles, x)
  {
    SkipUndecided(0, i, n, a, cycles, x, prime);
  }

  method Burst(n: nat, a: nat, cycles: nat, draw: nat, prime: nat -> bool) returns (o: Outcome)
    requires 0 < n < TWO_512
    ensures o == Rounds(0, n, a, cycles, FromDraw(draw, n), prime)
  {
    var x := draw % n + 1;
    if x == 0 {
      x := x + 1;
    }
    ghost var start := x;
    var y := x;
    for i := 0 to MAX_ITERATIONS
      invariant x == Iterate(i, start, a, n) && y == Iterate(2 * i, start, a, n)
      invariant Undecided(0, i, n, a, cycles, start)
    {
      RoundMoves(i, start, a, n);
      var p;
      x, y, p := Round(x, y, a, n);
      assert x == Iterate(i + 1, start, a, n) && y == Iterate(2 * (i + 1), start, a, n);
      RoundGcdOf(i + 1, start, a, n, x, y);
      assert p == RoundGcd(i + 1, start, a, n);
      RoundDecides(i, n, a, cycles, start, prime, p);
      if p != 1 {
        if p != n || prime(p) {
          return Factor(p, cycles + i);
        } else {
          return Restart(cycles + i);
        }
      } else {
        if cycles > LIMIT {
          return NoFactor;
        }
      }
    }
    SkipUndecided(0, MAX_ITERATIONS, n, a, cycles, start, prime);
    return Exhausted(cycles + MAX_ITERATIONS);
  }

  // ---------------------------------------------------------------- what an outcome means

  /** A factor divides n and is at least 2; it is n itself only if the prime test said so.
      Each other outcome says which rounds had gcd 1. */
  lemma {:induction false} OutcomeMeaning(i: nat, n: nat, a: nat, cycles: nat, x: nat, prime: nat -> bool)
    requires n > 0 && i <= MAX_ITERATIONS
    ensures match Rounds(i, n, a, cycles, x, prime)
            case Factor(p, c) =>
              && cycles + i <= c < cycles + MAX_ITERATIONS && p == RoundGcd(c - cycles + 1, x, a, n)
              && 2 <= p <= n && Divides(p, n) && (p == n ==> prime(p))
              && forall k :: i < k <= c - cycles ==> RoundGcd(k, x, a, n) == 1
            case Restart(c) =>
              && cycles + i <= c < cycles + MAX_ITERATIONS && RoundGcd(c - cycles + 1, x, a, n) == n
              && n >= 2 && !prime(n)
              && forall k :: i < k <= c - cycles ==> RoundGcd(k, x, a, n) == 1
            case NoFactor => cycles > LIMIT && i < MAX_ITERATIONS && RoundGcd(i + 1, x, a, n) == 1
            case Exhausted(c) =>
              && c == cycles + MAX_ITERATIONS
              && forall k :: i < k <= MAX_ITERATIONS ==> RoundGcd(k, x, a, n) == 1
    decreases MAX_ITERATIONS - i
  {
    if i < MAX_ITERATIONS {
      GcdDividesBoth(Distance(i + 1, x, a, n), n);
      DividesBound(RoundGcd(i + 1, x, a, n), n);
      OutcomeMeaning(i + 1, n, a, cycles, x, prime);
    }
  }

  // ---------------------------------------------------------------- 512 bits suffice below 2^256

  predicate NoOverflow(x: nat, a: nat) {
    x * x < TWO_512 && x * x + a < TWO_512
  }

  /** Every draw is safe exactly when n is below 2^256. */
  lemma ArithmeticExactIff(n: nat)
    requires n > 0
    ensures (forall x, a :: 1 <= x <= n && 1 <= a <= n ==> NoOverflow(x, a)) <==> n < TWO_256
  {
    if n < TWO_256 {
      forall x, a | 1 <= x <= n && 1 <= a <= n
        ensures NoOverflow(x, a)
      {
        SquareBound(x, TWO_256 - 1);
      }
    } else {
      SquareBound(TWO_256, n);
      assert !NoOverflow(n, n);
    }
  }

  lemma SquareBound(x: nat, m: nat)
    requires x <= m
    ensures x * x <= m * m
  {
  }

  lemma ExactStep(x: nat, a: nat, n: nat)
    requires 0 < n < TWO_256 && x <= n && a <= n
    ensures NoOverflow(x, a) && StepMap(x, a, n) == (x * x + a) % n
  {
    SquareBound(x, TWO_256 - 1);
  }

  /** The walk without any width limit. */
  function PlainIterate(k: nat, x: nat, a: nat, n: nat): nat
    requires n > 0
  {
    if k == 0 then x else var v := PlainIterate(k - 1, x, a, n); (v * v + a) % n
  }

  /** Below 2^256 every value of a burst is the exact iterate, and no operation overflows. */
  lemma {:induction false} IteratesAreExact(k: nat, x: nat, a: nat, n: nat)
    requires 0 < n < TWO_256 && x <= n && a <= n
    ensures Iterate(k, x, a, n) == PlainIterate(k, x, a, n) <= n
    ensures NoOverflow(Iterate(k, x, a, n), a)
  {
    if k > 0 {
      IteratesAreExact(k - 1, x, a, n);
      ExactStep(Iterate(k - 1, x, a, n), a, n);
    }
    ExactStep(Iterate(k, x, a, n), a, n);
  }

  // ---------------------------------------------------------------- Floyd and the pigeonhole

  /** The same walk modulo q alone. */
  function Residue(k: nat, x: nat, a: nat, q: nat): (r: nat)
    requires q > 0
    ensures r < q
  {
    if k == 0 then x % q
    else var r := Residue(k - 1, x, a, q); (r * r + a) % q
  }

  /** The arithmetic respects remainders modulo q: it never overflows, or overflow drops
      multiples of q. */
  predicate Faithful(n: nat, q: nat) {
    n < TWO_256 || Divides(q, TWO_512)
  }

  lemma StepResidue(v: nat, a: nat, n: nat, q: nat)
    requires n > 0 && v <= n && a <= n && Divides(q, n) && Faithful(n, q)
    ensures StepMap(v, a, n) % q == (v * v + a) % q
  {
    if n < TWO_256 {
      ExactStep(v, a, n);
      ModOfMultiple(v * v + a, n, q);
    } else {
      var w := v * v;
      ModOfMultiple(w, TWO_512, q);
      ModOfMultiple(Wrap(w) + a, TWO_512, q);
      ModOfMultiple(Wrap(Wrap(w) + a), n, q);
      SameAfterAdding(w, Wrap(w), a, q);
    }
  }

  lemma SameAfterAdding(x: nat, y: nat, a: nat, q: nat)
    requires q > 0 && x % q == y % q
    ensures (x + a) % q == (y + a) % q
  {
    var r := x % q + a;
    assert x == q * (x / q) + x % q && y == q * (y / q) + y % q;
    assert q * (x / q) + q * (r / q) == q * (x / q + r / q);
    assert q * (y / q) + q * (r / q) == q * (y / q + r / q);
    UniqueQuotient(q, x + a, x / q + r / q, r % q);
    UniqueQuotient(q, y + a, y / q + r / q, r % q);
  }

  lemma {:induction false} IterateResidue(k: nat, x: nat, a: nat, n: nat, q: nat)
    requires n > 0 && x <= n && a <= n && Divides(q, n) && Faithful(n, q)
    ensures Iterate(k, x, a, n) <= n
    ensures Iterate(k, x, a, n) % q == Residue(k, x, a, q)
  {
    if k > 0 {
      IterateResidue(k - 1, x, a, n, q);
      var v := Iterate(k - 1, x, a, n);
      StepResidue(v, a, n, q);
      SquareCongruent(v, a, q);
    }
  }

  /** Once two residues agree, the walk repeats with that period. */
  lemma {:induction false} ResiduePeriod(j: nat, period: nat, m: nat, x: nat, a: nat, q: nat)
    requires q > 0 && j <= m
    requires Residue(j, x, a, q) == Residue(j + period, x, a, q)
    ensures Residue(m, x, a, q) == Residue(m + period, x, a, q)
  {
    if m > j {
      ResiduePeriod(j, period, m - 1, x, a, q);
    }
  }

  /** t laps around the cycle. */
  function Laps(t: nat, period: nat): nat {
    if t == 0 then 0 else Laps(t - 1, period) + period
  }

  lemma {:induction false} ResidueLaps(j: nat, period: nat, t: nat, m: nat, x: nat, a: nat, q: nat)
    requires q > 0 && j <= m
    requires Residue(j, x, a, q) == Residue(j + period, x, a, q)
    ensures Residue(m, x, a, q) == Residue(m + Laps(t, period), x, a, q)
  {
    if t > 0 {
      ResidueLaps(j, period, t - 1, m, x, a, q);
      ResiduePeriod(j, period, m + Laps(t - 1, period), x, a, q);
    }
  }

  /** Tortoise and hare agree modulo q within q rounds: at the first whole number of laps
      that leaves the tail behind. */
  lemma FloydMeets(x: nat, a: nat, q: nat) returns (i: nat)
    requires q > 0
    ensures 1 <= i <= q && Residue(i, x, a, q) == Residue(2 * i, x, a, q)
  {
    var f := (k: nat) => Residue(k, x, a, q);
    var j, k := Pigeonhole(f, q);
    assert f(j) == Residue(j, x, a, q) && f(k) == Residue(k, x, a, q);
    var period, t := k - j, 1;
    i := period;
    while i < j
      invariant i == Laps(t, period) && period <= i <= k
    {
      i, t := i + period, t + 1;
    }
    ResidueLaps(j, period, t, i, x, a, q);
  }

  lemma DifferenceDivides(u: nat, v: nat, n: nat, q: nat)
    requires n > 0 && Divides(q, n) && u % q == v % q
    ensures Divides(q, Abs(u - v) % n)
  {
    CongruentDifference(v, u, q);
    CongruentDifference(u, v, q);
    ModOfMultiple(Abs(u - v), n, q);
  }

  /** For every divisor q of n some round up to q has a gcd that q divides. */
  lemma RoundWithDivisor(n: nat, a: nat, x: nat, q: nat) returns (i: nat)
    requires n > 0 && x <= n && a <= n && Divides(q, n) && Faithful(n, q)
    ensures 1 <= i <= q && Divides(q, RoundGcd(i, x, a, n))
  {
    i := FloydMeets(x, a, q);
    IterateResidue(i, x, a, n, q);
    IterateResidue(2 * i, x, a, n, q);
    var u, v := Iterate(i, x, a, n), Iterate(2 * i, x, a, n);
    DifferenceDivides(v, u, n, q);
    GcdGreatest(q, Distance(i, x, a, n), n);
  }

  lemma {:induction false} StopsByRound(i: nat, k: nat, n: nat, a: nat, cycles: nat, x: nat, prime: nat -> bool)
    requires n > 0 && cycles <= LIMIT && i < k <= MAX_ITERATIONS
    ensures var o := Rounds(i, n, a, cycles, x, prime);
            RoundGcd(k, x, a, n) != 1 ==> (o.Factor? || o.Restart?) && cycles + i <= o.cycles < cycles + k
    decreases k - i
  {
    if RoundGcd(i + 1, x, a, n) == 1 && i + 1 < k {
      StopsByRound(i + 1, k, n, a, cycles, x, prime);
    }
  }

  /** A burst begun with cycles 0 (any value up to the limit) on a number with a divisor
      1 < q <= 1000 stops within q rounds, with a factor or a restart, unless n is odd and
      large enough to overflow. */
  lemma BurstFindsSmallDivisor(n: nat, a: nat, cycles: nat, draw: nat, q: nat, prime: nat -> bool)
    requires n > 0 && a <= n && cycles <= LIMIT && 1 < q <= MAX_ITERATIONS && Divides(q, n)
    requires n < TWO_256 || n % 2 == 0
    ensures var o := Rounds(0, n, a, cycles, FromDraw(draw, n), prime);
            (o.Factor? || o.Restart?) && o.cycles < cycles + q
  {
    var x := FromDraw(draw, n);
    // an even n may overflow: the divisor 2 survives that, and stops the burst no later than q
    var k := RoundWithDivisor(n, a, x, if n < TWO_256 then q else 2);
    assert RoundGcd(k, x, a, n) != 1;
    StopsByRound(0, k, n, a, cycles, x, prime);
  }
}
