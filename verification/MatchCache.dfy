/**
 A match expression: a list of cases tried in order, with a small ring buffer that remembers,
 for the type token of a message, which cases can match at all.
 */
module MatchCache {
  import opened Common
  import opened NumberTheory
  import opened Bits

  /** Token 0 is the null pointer of an unused slot. */
  datatype Message = Message(token: nat, dynamicallyTyped: bool, payload: int)

  /** The type test of a case, and its function; None is a result that counts as no match. */
  datatype Case<!R> = Case(matches: Message -> bool, run: Message -> Option<R>)

  const CACHE_SIZE: nat := 10
  const ALL_CASES: nat := 0xFFFF_FFFF_FFFF_FFFF

  /** The case masks are shifts of an int, so there are at most 31 cases. */
  const MAX_CASES: nat := 31

  // ---------------------------------------------------------------- trying the cases

  /** The cases in order, without any mask: the first that matches and has a result. */
  function FirstResult<R>(cases: seq<Case<R>>, i: nat, m: Message): Option<R>
    decreases |cases| - i
  {
    if i >= |cases| then None
    else if cases[i].matches(m) && cases[i].run(m).Some? then cases[i].run(m)
    else FirstResult(cases, i + 1, m)
  }

  /** The recursion of the source over the first n cases: earlier ones first, masked ones skipped. */
  function Unroll<R>(cases: seq<Case<R>>, mask: nat, n: nat, m: Message): Option<R>
    requires n <= |cases|
  {
    if n == 0 then None
    else
      var r := Unroll(cases, mask, n - 1, m);
      if r.Some? then r
      else if Bitwise(AND, mask, Pow2(n - 1)) == 0 then None
      else if cases[n - 1].matches(m) then cases[n - 1].run(m)
      else None
  }

  function CalcBitmask<R>(cases: seq<Case<R>>, n: nat, m: Message): nat
    requires n <= |cases|
  {
    if n == 0 then 0
    else Bitwise(OR, if cases[n - 1].matches(m) then Pow2(n - 1) else 0, CalcBitmask(cases, n - 1, m))
  }

  ghost predicate MaskCovers<R>(cases: seq<Case<R>>, mask: nat, n: nat, m: Message)
    requires n <= |cases|
  {
    forall k :: 0 <= k < n && cases[k].matches(m) ==> Bit(mask, k)
  }

  lemma {:induction false} OneAt(k: nat)
    ensures Shl(1, k) == Pow2(k)
  {
    if k > 0 {
      OneAt(k - 1);
    }
  }

  lemma {:induction false} ZeroHasNoBit(k: nat)
    ensures !Bit(0, k) && Shl(0, k) == 0
  {
    if k > 0 {
      ZeroHasNoBit(k - 1);
    }
  }

  /** Bit k of the mask is set exactly if case k matches. */
  lemma {:induction false} BitmaskMeaning<R>(cases: seq<Case<R>>, n: nat, m: Message)
    requires n <= |cases|
    ensures CalcBitmask(cases, n, m) < Pow2(n)
    ensures forall k :: 0 <= k < n ==> Bit(CalcBitmask(cases, n, m), k) == cases[k].matches(m)
  {
    if n > 0 {
      var low, hit := CalcBitmask(cases, n - 1, m), cases[n - 1].matches(m);
      BitmaskMeaning(cases, n - 1, m);
      SetTopBit(low, n - 1, hit);
      forall k | 0 <= k < n
        ensures Bit(CalcBitmask(cases, n, m), k) == cases[k].matches(m)
      {
        TopBitBits(low, n - 1, hit, k);
      }
    }
  }

  lemma SetTopBit(low: nat, n: nat, hit: bool)
    requires low < Pow2(n)
    ensures Bitwise(OR, if hit then Pow2(n) else 0, low) == low + (if hit then Pow2(n) else 0)
  {
    OneAt(n);
    ZeroHasNoBit(n);
    DisjointIsSum(OR, low, if hit then 1 else 0, n);
  }

  lemma TopBitBits(low: nat, n: nat, hit: bool, k: nat)
    requires low < Pow2(n) && k <= n
    ensures Bit(low + (if hit then Pow2(n) else 0), k) == if k == n then hit else Bit(low, k)
  {
    OneAt(n);
    ZeroHasNoBit(n);
    BitOfSum(low, if hit then 1 else 0, n, k);
  }

  lemma {:induction false} AllOnes(n: nat, k: nat)
    requires k < n
    ensures Bit(Pow2(n) - 1, k)
  {
    if k > 0 {
      assert (Pow2(n) - 1) / 2 == Pow2(n - 1) - 1;
      AllOnes(n - 1, k - 1);
    }
  }

  lemma AllCasesBits(k: nat)
    requires k < 64
    ensures Bit(ALL_CASES, k)
  {
    EightPlaces(0, 0);
    EightPlaces(0, 8);
    EightPlaces(0, 16);
    EightPlaces(0, 24);
    EightPlaces(0, 32);
    EightPlaces(0, 40);
    EightPlaces(0, 48);
    EightPlaces(0, 56);
    AllOnes(64, k);
  }

  /** A mask that drops only cases that cannot match changes nothing. */
  lemma {:induction false} UnrollIsInOrder<R>(cases: seq<Case<R>>, mask: nat, n: nat, m: Message)
    requires n <= |cases| && MaskCovers(cases, mask, n, m)
    ensures Unroll(cases, mask, n, m) == FirstResult(cases[..n], 0, m)
  {
    if n > 0 {
      UnrollIsInOrder(cases, mask, n - 1, m);
      MaskTestsBit(mask, n - 1);
      FirstResultAppend(cases[..n - 1], cases[n - 1], 0, m);
      assert cases[..n] == cases[..n - 1] + [cases[n - 1]];
    }
  }

  lemma {:induction false} FirstResultAppend<R>(cases: seq<Case<R>>, c: Case<R>, i: nat, m: Message)
    requires i <= |cases|
    ensures FirstResult(cases + [c], i, m) ==
            if FirstResult(cases, i, m).Some? then FirstResult(cases, i, m)
            else if c.matches(m) then c.run(m) else None
    decreases |cases| - i
  {
    if i < |cases| {
      FirstResultAppend(cases, c, i + 1, m);
    } else {
      assert FirstResult(cases + [c], i + 1, m) == None;
    }
  }

  /** For statically typed messages the type test depends on the token alone. */
  ghost predicate TokenDecides<R>(cases: seq<Case<R>>) {
    forall c, m: Message, m': Message :: c in cases && !m.dynamicallyTyped && !m'.dynamicallyTyped && m.token == m'.token ==>
      c.matches(m) == c.matches(m')
  }

  lemma {:induction false} SameTokenSameMask<R>(cases: seq<Case<R>>, n: nat, m: Message, m': Message)
    requires TokenDecides(cases) && n <= |cases|
    requires !m.dynamicallyTyped && !m'.dynamicallyTyped && m.token == m'.token
    ensures CalcBitmask(cases, n, m) == CalcBitmask(cases, n, m')
  {
    if n > 0 {
      assert cases[n - 1] in cases;
      SameTokenSameMask(cases, n - 1, m, m');
    }
  }

  // ---------------------------------------------------------------- the cache

  datatype Slot = Slot(token: nat, mask: nat)

  ghost predicate HasToken(live: seq<Slot>, token: nat) {
    exists k :: 0 <= k < |live| && live[k].token == token
  }

  /** One look-up: a known token changes nothing; a new one is added, and a full buffer of
      nine loses the oldest. */
  ghost function Touch(live: seq<Slot>, slot: Slot): seq<Slot> {
    if HasToken(live, slot.token) then live
    else (if |live| == CACHE_SIZE - 1 then live[1..] else live) + [slot]
  }

  ghost predicate Distinct(live: seq<Slot>) {
    forall i, j :: 0 <= i < j < |live| ==> live[i].token != live[j].token
  }

  lemma TouchKeepsDistinct(live: seq<Slot>, slot: Slot)
    requires Distinct(live) && |live| < CACHE_SIZE
    ensures Distinct(Touch(live, slot)) && |Touch(live, slot)| < CACHE_SIZE
    ensures HasToken(Touch(live, slot), slot.token)
  {
    var after := Touch(live, slot);
    if !HasToken(live, slot.token) {
      assert after[|after| - 1] == slot;
    }
  }

  /** The used slots of a ring buffer, oldest first. */
  ghost function LiveSlots(slots: seq<Slot>, begin: nat, end: nat): seq<Slot>
    requires begin <= |slots| && end <= |slots|
  {
    if begin <= end then slots[begin..end] else slots[begin..] + slots[..end]
  }

  function Advance(i: nat): nat {
    (i + 1) % CACHE_SIZE
  }

  ghost predicate InsertsLast(slots: seq<Slot>, begin: nat, end: nat, slot: Slot)
    requires |slots| == CACHE_SIZE && begin < CACHE_SIZE && end < CACHE_SIZE
  {
    var live, end' := LiveSlots(slots, begin, end), Advance(end);
    LiveSlots(slots[end := slot], if end' == begin then Advance(begin) else begin, end')
    == (if |live| == CACHE_SIZE - 1 then live[1..] else live) + [slot]
  }

  lemma InsertStraight(slots: seq<Slot>, begin: nat, end: nat, slot: Slot)
    requires |slots| == CACHE_SIZE && begin <= end < CACHE_SIZE - 1
    ensures InsertsLast(slots, begin, end, slot)
  {
    assert slots[end := slot][begin..end + 1] == slots[begin..end] + [slot];
  }

  lemma InsertAtTop(slots: seq<Slot>, begin: nat, slot: Slot)
    requires |slots| == CACHE_SIZE && begin < CACHE_SIZE
    ensures InsertsLast(slots, begin, CACHE_SIZE - 1, slot)
  {
    var end := CACHE_SIZE - 1;
    var slots' := slots[end := slot];
    if begin == 0 {
      assert slots'[1..] + slots'[..0] == slots[0..end][1..] + [slot];
    } else {
      assert slots'[begin..] + slots'[..0] == slots[begin..end] + [slot];
    }
  }

  lemma InsertWrapped(slots: seq<Slot>, begin: nat, end: nat, slot: Slot)
    requires |slots| == CACHE_SIZE && end < begin < CACHE_SIZE
    ensures InsertsLast(slots, begin, end, slot)
  {
    var live, slots' := slots[begin..] + slots[..end], slots[end := slot];
    assert slots'[begin..] == slots[begin..] && slots'[..end + 1] == slots[..end] + [slot];
    if end + 1 == begin {
      assert live[1..] == slots[begin + 1..] + slots[..end];
      if begin == CACHE_SIZE - 1 {
        assert slots'[0..begin] == slots'[..end + 1];
      } else {
        assert slots'[begin + 1..] == slots[begin + 1..];
      }
    }
  }

  lemma InsertedLive(slots: seq<Slot>, begin: nat, end: nat, slot: Slot)
    requires |slots| == CACHE_SIZE && begin < CACHE_SIZE && end < CACHE_SIZE
    ensures InsertsLast(slots, begin, end, slot)
  {
    if end < begin {
      InsertWrapped(slots, begin, end, slot);
    } else if end < CACHE_SIZE - 1 {
      InsertStraight(slots, begin, end, slot);
    } else {
      InsertAtTop(slots, begin, slot);
    }
  }

  class MatchExpr<!R> {
    const cases: seq<Case<R>>
    var cache: array<Slot>
    var begin: nat
    var end: nat

    constructor (cases: seq<Case<R>>)
      requires |cases| <= MAX_CASES && TokenDecides(cases)
      ensures Valid() && fresh(cache) && this.cases == cases && Live() == []
    {
      this.cases := cases;
      cache := new Slot[CACHE_SIZE](i => Slot(0, 0));
      begin, end := 0, 0;
    }

    ghost function Live(): seq<Slot>
      reads this, cache
      requires begin <= cache.Length && end <= cache.Length
    {
      LiveSlots(cache[..], begin, end)
    }

    ghost predicate MaskOk(slot: Slot) {
      forall m: Message :: !m.dynamicallyTyped && m.token == slot.token ==>
        slot.mask == CalcBitmask(cases, |cases|, m)
    }

    ghost predicate Valid()
      reads this, cache
    {
      && |cases| <= MAX_CASES && TokenDecides(cases)
      && cache.Length == CACHE_SIZE && begin < CACHE_SIZE && end < CACHE_SIZE
      && Distinct(Live())
      && forall k :: 0 <= k < |Live()| ==> MaskOk(Live()[k])
    }

    /** The position of a token, or `end`. */
    method FindTokenPos(token: nat) returns (i: nat)
      requires Valid()
      ensures i < CACHE_SIZE && (i == end <==> !HasToken(Live(), token))
      ensures i != end ==> cache[i].token == token && cache[i] in Live()
    {
      i := begin;
      ghost var k := 0;
      while i != end
        invariant i < CACHE_SIZE && k <= |Live()|
        invariant i == if begin + k < CACHE_SIZE then begin + k else begin + k - CACHE_SIZE
        invariant forall j :: 0 <= j < k ==> Live()[j].token != token
        decreases |Live()| - k
      {
        assert Live()[k] == cache[i];
        if cache[i].token == token {
          return;
        }
        i := Advance(i);
        k := k + 1;
      }
    }

    method GetCacheEntry(m: Message) returns (mask: nat)
      requires Valid() && m.token != 0
      modifies this, cache
      ensures Valid() && cache == old(cache)
      ensures mask == if m.dynamicallyTyped then ALL_CASES else CalcBitmask(cases, |cases|, m)
      ensures Live() == if m.dynamicallyTyped then old(Live())
                        else Touch(old(Live()), Slot(m.token, CalcBitmask(cases, |cases|, m)))
    {
      if m.dynamicallyTyped {
        return ALL_CASES;
      }
      var i := FindTokenPos(m.token);
      if i == end {
        ghost var before := Live();
        var slot := Slot(m.token, CalcBitmask(cases, |cases|, m));
        Insert(slot);
        SlotMaskOk(slot, m);
        TouchKeepsDistinct(before, slot);
        forall k | 0 <= k < |Live()|
          ensures MaskOk(Live()[k])
        {
          assert Live()[k] == slot || Live()[k] in before;
        }
      }
      mask := cache[i].mask;
    }

    lemma SlotMaskOk(slot: Slot, m: Message)
      requires |cases| <= MAX_CASES && TokenDecides(cases) && !m.dynamicallyTyped
      requires slot == Slot(m.token, CalcBitmask(cases, |cases|, m))
      ensures MaskOk(slot)
    {
      forall m': Message | !m'.dynamicallyTyped && m'.token == slot.token
        ensures slot.mask == CalcBitmask(cases, |cases|, m')
      {
        SameTokenSameMask(cases, |cases|, m, m');
      }
    }

    /** Writes a new slot at the end, over the oldest one if the buffer is full. */
    method Insert(slot: Slot)
      requires cache.Length == CACHE_SIZE && begin < CACHE_SIZE && end < CACHE_SIZE
      requires !HasToken(Live(), slot.token)
      modifies this, cache
      ensures cache == old(cache) && begin < CACHE_SIZE && end < CACHE_SIZE
      ensures Live() == Touch(old(Live()), slot) && cache[old(end)] == slot
    {
      InsertedLive(cache[..], begin, end, slot);
      ghost var slots := cache[..];
      var i := end;
      end := Advance(end);
      if end == begin {
        begin := Advance(begin);
      }
      cache[i] := slot;
      assert cache[..] == slots[i := slot];
    }

    /** Through the cache or not, the result is that of trying the cases in order. */
    method Apply(m: Message) returns (r: Option<R>)
      requires Valid() && m.token != 0
      modifies this, cache
      ensures Valid() && cache == old(cache)
      ensures r == FirstResult(cases, 0, m)
    {
      var mask := GetCacheEntry(m);
      MaskIsEnough(mask, m);
      assert cases[..|cases|] == cases;
      UnrollIsInOrder(cases, mask, |cases|, m);
      r := Unroll(cases, mask, |cases|, m);
    }

    lemma MaskIsEnough(mask: nat, m: Message)
      requires |cases| <= MAX_CASES
      requires mask == if m.dynamicallyTyped then ALL_CASES else CalcBitmask(cases, |cases|, m)
      ensures MaskCovers(cases, mask, |cases|, m)
    {
      BitmaskMeaning(cases, |cases|, m);
      forall k | 0 <= k < |cases|
        ensures Bit(ALL_CASES, k)
      {
        AllCasesBits(k);
      }
    }

    /** For every sequence of messages. */
    method ApplyAll(ms: seq<Message>) returns (rs: seq<Option<R>>)
      requires Valid() && forall m :: m in ms ==> m.token != 0
      modifies this, cache
      ensures Valid() && |rs| == |ms|
      ensures forall k :: 0 <= k < |ms| ==> rs[k] == FirstResult(cases, 0, ms[k])
    {
      rs := [];
      for i := 0 to |ms|
        invariant Valid() && cache == old(cache) && |rs| == i
        invariant forall k :: 0 <= k < i ==> rs[k] == FirstResult(cases, 0, ms[k])
      {
        var r := Apply(ms[i]);
        rs := rs + [r];
      }
    }
  }
}
