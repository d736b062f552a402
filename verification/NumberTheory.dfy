/** Divisibility, Euclid's gcd and the pigeonhole principle, as the factoriser needs them. */
module NumberTheory {

  predicate Divides(d: nat, n: int) {
    d > 0 && n % d == 0
  }

  lemma MultipleIsLarger(d: nat, m: int)
    ensures m >= 1 ==> d * m >= d
  {
  }

  /** Division with remainder is unique; every divisibility fact below is one use of it. */
  lemma SameRemainder(d: nat, k: int, r: int, q: int, s: int)
    requires 0 <= r < d && 0 <= s < d && d * k + r == d * q + s
    ensures k == q && r == s
  {
    assert d * (k - q) == s - r;
    assert d * (q - k) == r - s;
    MultipleIsLarger(d, k - q);
    MultipleIsLarger(d, q - k);
  }

  lemma UniqueQuotient(d: nat, n: int, k: int, r: int)
    requires 0 <= r < d && n == d * k + r
    ensures n / d == k && n % d == r
  {
    SameRemainder(d, k, r, n / d, n % d);
  }

  lemma MultipleDivides(d: nat, k: int)
    requires d > 0
    ensures Divides(d, d * k) && Divides(d, k * d) && (d * k) / d == k && (k * d) / d == k
  {
    UniqueQuotient(d, d * k, k, 0);
    assert d * k == k * d;
  }

  lemma DividesCombination(d: nat, x: int, y: int, c: int)
    requires Divides(d, x) && Divides(d, y)
    ensures Divides(d, x + c * y)
  {
    var kx, ky := x / d, y / d;
    assert x + c * y == d * (kx + c * ky) by {
      assert x == d * kx && y == d * ky;
      assert c * (d * ky) == d * (c * ky);
    }
    MultipleDivides(d, kx + c * ky);
  }

  lemma DividesTransitive(d: nat, e: nat, n: int)
    requires Divides(d, e) && Divides(e, n)
    ensures Divides(d, n)
  {
    var k, j := e / d, n / e;
    assert n == d * (k * j) by {
      assert e == d * k && n == e * j;
      Associative(d, k, j);
    }
    MultipleDivides(d, k * j);
  }

  lemma DividesBound(d: nat, n: nat)
    requires Divides(d, n) && n > 0
    ensures 1 <= d <= n
  {
    if d > n {
      UniqueQuotient(d, n, 0, n);
    }
  }

  lemma ExactQuotient(n: nat, p: nat)
    requires Divides(p, n)
    ensures n == p * (n / p)
  {
  }

  lemma Associative(x: int, y: int, z: int)
    ensures x * (y * z) == (x * y) * z == y * (x * z)
  {
  }

  lemma QuotientSmaller(n: nat, p: nat)
    requires n > 0 && p >= 2
    ensures n / p < n && (Divides(p, n) ==> n / p > 0)
  {
    var m := n / p;
    assert n == p * m + n % p;
    MultipleIsLarger(m, p - 1);
    assert p * m == m * (p - 1) + m;
  }

  /** Taking a remainder modulo a multiple of `d` does not change the remainder modulo `d`. */
  lemma ModOfMultiple(x: int, n: nat, d: nat)
    requires n > 0 && Divides(d, n)
    ensures (x % n) % d == x % d
  {
    var r := x % n;
    assert x == n * (x / n) + r;
    assert n == d * (n / d);
    assert n * (x / n) == d * ((n / d) * (x / n));
    UniqueQuotient(d, x, (n / d) * (x / n) + r / d, r % d) by {
      assert r == d * (r / d) + r % d;
      assert d * ((n / d) * (x / n) + r / d) == d * ((n / d) * (x / n)) + d * (r / d);
    }
  }

  lemma CongruentDifference(x: int, y: int, d: nat)
    requires d > 0 && x % d == y % d
    ensures Divides(d, x - y)
  {
    assert x == d * (x / d) + x % d && y == d * (y / d) + y % d;
    assert x - y == d * (x / d - y / d);
    MultipleDivides(d, x / d - y / d);
  }

  /** Squaring and adding respects congruence. */
  lemma SquareCongruent(x: int, a: int, d: nat)
    requires d > 0
    ensures (x * x + a) % d == ((x % d) * (x % d) + a) % d
  {
    var k, r := x / d, x % d;
    assert x == d * k + r;
    var m := d * k * k + 2 * k * r;
    assert x * x == d * m + r * r by {
      assert x * x == (d * k) * (d * k) + 2 * (d * k) * r + r * r;
      assert (d * k) * (d * k) == d * (d * k * k);
      assert 2 * (d * k) * r == d * (2 * k * r);
    }
    var t := r * r + a;
    assert x * x + a == d * m + t;
    assert t == d * (t / d) + t % d;
    assert d * m + d * (t / d) == d * (m + t / d);
    UniqueQuotient(d, x * x + a, m + t / d, t % d);
  }

  /** Euclid's algorithm. */
  function Gcd(a: nat, b: nat): nat
    decreases b
  {
    if b == 0 then a else Gcd(b, a % b)
  }

  lemma {:induction false} GcdDividesBoth(a: nat, b: nat)
    requires a > 0 || b > 0
    ensures Gcd(a, b) > 0 && Divides(Gcd(a, b), a) && Divides(Gcd(a, b), b)
    decreases b
  {
    if b == 0 {
      MultipleDivides(a, 1);
    } else {
      var q, r := a / b, a % b;
      assert a == r + q * b;
      GcdDividesBoth(b, r);
      DividesCombination(Gcd(b, r), r, b, q);
    }
  }

  /** Every common divisor divides the gcd, so it is the greatest one. */
  lemma {:induction false} GcdGreatest(d: nat, a: nat, b: nat)
    requires Divides(d, a) && Divides(d, b)
    ensures Divides(d, Gcd(a, b))
    decreases b
  {
    if b != 0 {
      var q, r := a / b, a % b;
      assert r == a + (-q) * b;
      DividesCombination(d, a, b, -q);
      GcdGreatest(d, b, r);
    }
  }

  method EuclidGcd(a: nat, b: nat) returns (g: nat)
    ensures g == Gcd(a, b)
  {
    var r: nat;
    g, r := a, b;
    while r != 0
      invariant Gcd(g, r) == Gcd(a, b)
      decreases r
    {
      g, r := r, g % r;
    }
  }

  function Pow2(k: nat): (r: nat)
    ensures r > 0
  {
    if k == 0 then 1 else 2 * Pow2(k - 1)
  }

  function Power(p: nat, k: nat): nat {
    if k == 0 then 1 else p * Power(p, k - 1)
  }

  function Product(s: seq<nat>): nat {
    if s == [] then 1 else s[0] * Product(s[1..])
  }

  lemma {:induction false} ProductAppend(s: seq<nat>, x: nat)
    ensures Product(s + [x]) == Product(s) * x
  {
    if s == [] {
      assert [] + [x] == [x] && [x][1..] == [];
      assert Product([x]) == x * Product([]);
    } else {
      assert (s + [x])[1..] == s[1..] + [x];
      ProductAppend(s[1..], x);
      assert s[0] * (Product(s[1..]) * x) == s[0] * Product(s[1..]) * x;
    }
  }

  /** q + 1 numbers below q are not all different. */
  lemma Pigeonhole(f: nat -> nat, q: nat) returns (j: nat, k: nat)
    requires forall i :: 0 <= i <= q ==> f(i) < q
    ensures j < k <= q && f(j) == f(k)
  {
    if forall i, m :: 0 <= i < m <= q ==> f(i) != f(m) {
      InjectiveImage(f, q + 1);
      var image := set i | 0 <= i < q + 1 :: f(i);
      BelowFacts(q);
      SubsetSize(image, Below(q));
      assert false;
    } else {
      j, k :| 0 <= j < k <= q && f(j) == f(k);
    }
  }

  lemma {:induction false} InjectiveImage(f: nat -> nat, n: nat)
    requires forall i, m :: 0 <= i < m < n ==> f(i) != f(m)
    ensures |set i | 0 <= i < n :: f(i)| == n
  {
    if n > 0 {
      InjectiveImage(f, n - 1);
      var smaller := set i | 0 <= i < n - 1 :: f(i);
      assert f(n - 1) !in smaller;
      assert (set i | 0 <= i < n :: f(i)) == smaller + {f(n - 1)};
    }
  }

  ghost function Below(q: nat): set<nat> {
    if q == 0 then {} else Below(q - 1) + {q - 1}
  }

  lemma {:induction false} BelowFacts(q: nat)
    ensures |Below(q)| == q
    ensures forall i: nat :: i in Below(q) <==> i < q
  {
    if q > 0 {
      BelowFacts(q - 1);
    }
  }

  lemma {:induction false} SubsetSize<T>(small: set<T>, large: set<T>)
    requires small <= large
    ensures |small| <= |large|
  {
    if small != {} {
      var x :| x in small;
      SubsetSize(small - {x}, large - {x});
    }
  }
}
