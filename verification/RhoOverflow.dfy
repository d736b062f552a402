/**
 Where the 512-bit arithmetic of a burst overflows, remainders modulo a divisor are lost: a
 concrete number with the divisor 3 on which a burst does not stop within 3 rounds.
 */
module RhoOverflow {
  import opened NumberTheory
  import opened RhoBurst

  lemma CombinationIsOne(d: nat, n: nat, u: int, v: int)
    requires n > 0 && u * d + v * n == 1
    ensures Gcd(d, n) == 1
  {
    var g := Gcd(d, n);
    GcdDividesBoth(d, n);
    DividesCombination(g, 0, d, u);
    DividesCombination(g, u * d, n, v);
    DividesBound(g, 1);
  }

  const MISSED: nat := 0x2_0000000000000000_0000000000000000_0000000000000000_0000000000000007

  const X1: nat := 0x1ffffffffffffffffffffffffffffffffffffffffffffffffffffffffffffffd8
  const X2: nat := 0x8000000000000000000000000000000000000000000000000000000000000880
  const X3: nat := 0x12000000000000000000000000000000000000000000000000000000000482249
  const X4: nat := 0x1520000000000000000000000000000000000000000000000000014534b6f6adc
  const X5: nat := 0x5612000000000000000000000000000000000000019d1ee3692b67e8ec332f7f
  const X6: nat := 0x19c93a7920000000000029aacad7b6cb720139e2f421051685058dc473d554228

  /** One step from its quotients: x * x is k times 2^512 and w, and w + 2 is m times n and r. */
  lemma StepFrom(x: nat, k: nat, w: nat, m: nat, r: nat)
    ensures x * x == TWO_512 * k + w && w + 2 < TWO_512 && w + 2 == MISSED * m + r && r < MISSED
            ==> StepMap(x, 2, MISSED) == r
  {
    if x * x == TWO_512 * k + w && w + 2 < TWO_512 && w + 2 == MISSED * m + r && r < MISSED {
      UniqueQuotient(TWO_512, x * x, k, w);
      UniqueQuotient(MISSED, w + 2, m, r);
    }
  }

  lemma Step1()
    ensures StepMap(MISSED, 2, MISSED) == X1
  {
    StepFrom(MISSED, 0x4,
             0x1c0000000000000000000000000000000000000000000000000000000000000031,
             0xd, X1);
  }

  lemma Step2()
    ensures StepMap(X1, 2, MISSED) == X2
  {
    StepFrom(X1, 0x3,
             0xffffffffffffffffffffffffffffffffffffffffffffffffffffffffffffff600000000000000000000000000000000000000000000000000000000000000640,
             0x7fffffffffffffffffffffffffffffffffffffffffffffffffffffffffffffae, X2);
  }

  lemma Step3()
    ensures StepMap(X2, 2, MISSED) == X3
  {
    StepFrom(X2, 0x0,
             0x40000000000000000000000000000000000000000000000000000000000008800000000000000000000000000000000000000000000000000000000000484000,
             0x200000000000000000000000000000000000000000000000000000000000043f, X3);
  }

  lemma Step4()
    ensures StepMap(X3, 2, MISSED) == X4
  {
    StepFrom(X3, 0x1,
             0x4400000000000000000000000000000000000000000000000000000000a24d24400000000000000000000000000000000000000000000000000014534da778d1,
             0x2200000000000000000000000000000000000000000000000000000000512691, X4);
  }

  lemma Step5()
    ensures StepMap(X4, 2, MISSED) == X5
  {
    StepFrom(X4, 0x1,
             0xbe4400000000000000000000000000000000000000000000000035abf332362cf000000000000000000000000000000000000000019d1ee3692c23c2bf62ed10,
             0x5f220000000000000000000000000000000000000000000000001ad5f9991b15, X5);
  }

  lemma Step6()
    ensures StepMap(X5, 2, MISSED) == X6
  {
    StepFrom(X5, 0x0,
             0x1cf01944000000000000000000000000000000000115cad922a3f3eb1b739b1c01dc00000000000000029aacad7b6cb720139e2f45dc97604996b1fe1d69e101,
             0xe780ca200000000000000000000000000000000008ae56c9151f9f58db9cd8d, X6);
  }

  lemma MissedIterates()
    ensures Iterate(1, MISSED, 2, MISSED) == X1 && Iterate(2, MISSED, 2, MISSED) == X2
    ensures Iterate(3, MISSED, 2, MISSED) == X3 && Iterate(4, MISSED, 2, MISSED) == X4
    ensures Iterate(6, MISSED, 2, MISSED) == X6
  {
    Step1();
    Step2();
    Step3();
    Step4();
    Step5();
    Step6();
    assert Iterate(1, MISSED, 2, MISSED) == StepMap(MISSED, 2, MISSED);
    assert Iterate(2, MISSED, 2, MISSED) == StepMap(X1, 2, MISSED);
    assert Iterate(3, MISSED, 2, MISSED) == StepMap(X2, 2, MISSED);
    assert Iterate(4, MISSED, 2, MISSED) == StepMap(X3, 2, MISSED);
    assert Iterate(5, MISSED, 2, MISSED) == StepMap(X4, 2, MISSED);
  }

  lemma Gcd1()
    ensures Gcd(X1 - X2, MISSED) == 1
  {
    CombinationIsOne(X1 - X2, MISSED,
                     -0xfe11ce627b42a4c01f591e0d32386a42c9a16fe11ce627b42a4c01f591e0d327,
                     0xbe8d5ac9dc71fb901782d689e5aa4fb2173913e8d5ac9dc71fb901782d689a0f);
  }

  lemma Gcd2()
    ensures Gcd(X4 - X2, MISSED) == 1
  {
    CombinationIsOne(X4 - X2, MISSED,
                     -0x71e1b9714cd484154716c2cb6c6e480a1f6c7795a11dbcabcd08f5c797cb525a,
                     0x2eb5950f78832a2cba2855e56f793b8c26e37d0c5f1532627718b154355fb89f);
  }

  lemma Gcd3()
    ensures Gcd(X6 - X3, MISSED) == 1
  {
    CombinationIsOne(X6 - X3, MISSED,
                     0x75496a8d0ce6917a2f7f5386191f756d77293a46bd690661cab49cacbec2f8cf,
                     -0x1c899ac524cf6f5c3e48e8569623bd1d188f1eaa1a291a22bfa77dbd3fa3d430);
  }

  lemma DistanceIs(k: nat, u: nat, v: nat)
    requires u < MISSED && v < MISSED
    ensures Iterate(k, MISSED, 2, MISSED) == u && Iterate(2 * k, MISSED, 2, MISSED) == v ==>
            RoundGcd(k, MISSED, 2, MISSED) == Gcd(Abs(v - u), MISSED)
  {
    UniqueQuotient(MISSED, Abs(v - u), 0, Abs(v - u));
  }

  /** n = 2^257 + 7 is divisible by 3, but its squares overflow: a burst from x = n with a = 2
      still has gcd 1 in rounds 1 to 3, where BurstFindsSmallDivisor would have it stop. */
  lemma OverflowMissesDivisor()
    ensures Divides(3, MISSED) && MISSED >= TWO_256 && MISSED % 2 == 1 && FromDraw(MISSED - 1, MISSED) == MISSED
    ensures forall k :: 1 <= k <= 3 ==> RoundGcd(k, MISSED, 2, MISSED) == 1
  {
    MissedStart();
    MissedRound1();
    MissedRound2();
    MissedRound3();
  }

  lemma MissedStart()
    ensures Divides(3, MISSED) && FromDraw(MISSED - 1, MISSED) == MISSED
  {
    UniqueQuotient(MISSED, MISSED - 1, 0, MISSED - 1);
  }

  lemma MissedRound1()
    ensures RoundGcd(1, MISSED, 2, MISSED) == 1
  {
    MissedIterates();
    DistanceIs(1, X1, X2);
    Gcd1();
  }

  lemma MissedRound2()
    ensures RoundGcd(2, MISSED, 2, MISSED) == 1
  {
    MissedIterates();
    DistanceIs(2, X2, X4);
    Gcd2();
  }

  lemma MissedRound3()
    ensures RoundGcd(3, MISSED, 2, MISSED) == 1
  {
    MissedIterates();
    DistanceIs(3, X3, X6);
    Gcd3();
  }
}
