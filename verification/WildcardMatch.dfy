/**
 Matching the types of a message against a pattern with wildcards, by backtracking.
 All wildcards share one slot that remembers how far the mapping was when the last of
 them was reached.
 */
module WildcardMatch {
  import opened Common

  datatype Entry = Wild | Typ(t: nat)

  // ---------------------------------------------------------------- what it means to fit

  /** pat[pi..] fits ts[lo..hi], its non-wildcard entries at the positions m, in order. */
  ghost predicate Fit(ts: seq<nat>, hi: nat, pat: seq<Entry>, lo: nat, pi: nat, m: seq<nat>)
    requires lo <= hi <= |ts| && pi <= |pat|
    decreases |pat| - pi, 0
  {
    if pi == |pat| then lo == hi && m == []
    else if pat[pi] == Wild then FitSomewhere(ts, hi, pat, lo, pi + 1, m)
    else lo < hi && pat[pi].t == ts[lo] && m != [] && m[0] == lo && Fit(ts, hi, pat, lo + 1, pi + 1, m[1..])
  }

  ghost predicate FitSomewhere(ts: seq<nat>, hi: nat, pat: seq<Entry>, lo: nat, pi: nat, m: seq<nat>)
    requires lo <= hi <= |ts| && pi <= |pat|
    decreases |pat| - pi, 1
  {
    exists k :: lo <= k <= hi && Fit(ts, hi, pat, k, pi, m)
  }

  function LiteralTypes(pat: seq<Entry>, pi: nat): seq<nat>
    requires pi <= |pat|
    decreases |pat| - pi
  {
    if pi == |pat| then []
    else (if pat[pi].Typ? then [pat[pi].t] else []) + LiteralTypes(pat, pi + 1)
  }

  /** One position in ts[lo..hi] per type, of that type, in strictly increasing order. */
  ghost predicate Locates(ts: seq<nat>, lo: nat, hi: nat, types: seq<nat>, m: seq<nat>)
    requires hi <= |ts|
  {
    && |m| == |types|
    && (forall j :: 0 <= j < |m| ==> lo <= m[j] < hi && ts[m[j]] == types[j])
    && forall i, j :: 0 <= i < j < |m| ==> m[i] < m[j]
  }

  lemma LocatesOneMore(ts: seq<nat>, lo: nat, hi: nat, types: seq<nat>, m: seq<nat>)
    requires lo < hi <= |ts| && Locates(ts, lo + 1, hi, types, m)
    ensures Locates(ts, lo, hi, [ts[lo]] + types, [lo] + m)
  {
  }

  /** The mapping of a fit locates the types of the pattern. */
  lemma {:induction false} FitMeaning(ts: seq<nat>, hi: nat, pat: seq<Entry>, lo: nat, pi: nat, m: seq<nat>)
    requires lo <= hi <= |ts| && pi <= |pat| && Fit(ts, hi, pat, lo, pi, m)
    ensures Locates(ts, lo, hi, LiteralTypes(pat, pi), m)
    decreases |pat| - pi
  {
    if pi < |pat| {
      if pat[pi] == Wild {
        var k :| lo <= k <= hi && Fit(ts, hi, pat, k, pi + 1, m);
        FitMeaning(ts, hi, pat, k, pi + 1, m);
        assert LiteralTypes(pat, pi) == [] + LiteralTypes(pat, pi + 1) == LiteralTypes(pat, pi + 1);
      } else {
        FitMeaning(ts, hi, pat, lo + 1, pi + 1, m[1..]);
        LocatesOneMore(ts, lo, hi, LiteralTypes(pat, pi + 1), m[1..]);
        assert m == [lo] + m[1..];
      }
    }
  }

  // ---------------------------------------------------------------- what the algorithm answers

  predicate Accept(ts: seq<nat>, pat: seq<Entry>, ti: nat, pi: nat)
    requires ti <= |ts| && pi <= |pat|
    decreases |pat| - pi, 0
  {
    if pi == |pat| then ti == |ts|
    else if pat[pi] == Wild then pi + 1 == |pat| || AcceptFrom(ts, pat, ti, pi + 1)
    else ti < |ts| && ts[ti] == pat[pi].t && Accept(ts, pat, ti + 1, pi + 1)
  }

  /** Some start at or after ti, short of the end, is accepted. */
  predicate AcceptFrom(ts: seq<nat>, pat: seq<Entry>, ti: nat, pi: nat)
    requires ti <= |ts| && pi <= |pat|
    decreases |pat| - pi, 1 + |ts| - ti
  {
    ti < |ts| && (Accept(ts, pat, ti, pi) || AcceptFrom(ts, pat, ti + 1, pi))
  }

  function Mapping(ts: seq<nat>, pat: seq<Entry>, ti: nat, pi: nat): seq<nat>
    requires ti <= |ts| && pi <= |pat| && Accept(ts, pat, ti, pi)
    decreases |pat| - pi, 0
  {
    if pi == |pat| || (pat[pi] == Wild && pi + 1 == |pat|) then []
    else if pat[pi] == Wild then MappingFrom(ts, pat, ti, pi + 1)
    else [ti] + Mapping(ts, pat, ti + 1, pi + 1)
  }

  function MappingFrom(ts: seq<nat>, pat: seq<Entry>, ti: nat, pi: nat): seq<nat>
    requires ti <= |ts| && pi <= |pat| && AcceptFrom(ts, pat, ti, pi)
    decreases |pat| - pi, 1 + |ts| - ti
  {
    if Accept(ts, pat, ti, pi) then Mapping(ts, pat, ti, pi) else MappingFrom(ts, pat, ti + 1, pi)
  }

  lemma {:induction false} AcceptFromEarlier(ts: seq<nat>, pat: seq<Entry>, i: nat, j: nat, pi: nat)
    requires i <= j <= |ts| && pi <= |pat| && AcceptFrom(ts, pat, j, pi)
    ensures AcceptFrom(ts, pat, i, pi)
    decreases j - i
  {
    if i < j {
      AcceptFromEarlier(ts, pat, i + 1, j, pi);
    }
  }

  lemma {:induction false} AcceptFromThere(ts: seq<nat>, pat: seq<Entry>, i: nat, k: nat, pi: nat)
    requires i <= k < |ts| && pi <= |pat| && Accept(ts, pat, k, pi)
    ensures AcceptFrom(ts, pat, i, pi)
  {
    AcceptFromEarlier(ts, pat, i, k, pi);
  }

  // ---------------------------------------------------------------- the matcher

  class Matcher {
    const ts: seq<nat>
    const pat: seq<Entry>
    var mapping: seq<nat>
    var committed: nat

    constructor (ts: seq<nat>, pat: seq<Entry>)
      ensures this.ts == ts && this.pat == pat && mapping == [] && committed == 0
    {
      this.ts, this.pat, mapping, committed := ts, pat, [], 0;
    }

    method Push(position: nat)
      modifies this
      ensures mapping == old(mapping) + [position] && committed == old(committed)
    {
      mapping := mapping + [position];
    }

    method Commit()
      modifies this
      ensures committed == |mapping| && mapping == old(mapping)
    {
      committed := |mapping|;
    }

    /** vector::resize: cuts, or fills up with zeros. */
    method Rollback()
      modifies this
      ensures |mapping| == committed == old(committed)
      ensures old(committed) <= |old(mapping)| ==> mapping == old(mapping)[..committed]
    {
      mapping := if committed <= |mapping| then mapping[..committed]
                 else mapping + seq(committed - |mapping|, i => 0);
    }

    /** No start from ti on is accepted. */
    ghost predicate Hopeless(ti: nat, pi: nat)
      requires pi <= |pat|
    {
      forall j: nat :: ti <= j <= |ts| ==> !Accept(ts, pat, j, pi)
    }

    /** The answer does not depend on the mapping; a success appends exactly its mapping.
        A failure either left the committed size alone and only added to the mapping, so that
        rolling back restores it, or it passed a wildcard and then no later start can succeed. */
    method DynamicMatch(tbegin: nat, pbegin: nat) returns (ok: bool)
      requires tbegin <= |ts| && pbegin <= |pat| && committed <= |mapping|
      modifies this
      ensures committed <= |mapping|
      ensures ok == Accept(ts, pat, tbegin, pbegin)
      ensures ok ==> mapping == old(mapping) + Mapping(ts, pat, tbegin, pbegin)
      ensures !ok ==> (committed == old(committed) && old(mapping) <= mapping) || Hopeless(tbegin, pbegin)
      decreases |pat| - pbegin, 0
    {
      var t, p := tbegin, pbegin;
      while !(p == |pat| && t == |ts|)
        invariant tbegin <= t <= |ts| && pbegin <= p <= |pat| && t - tbegin == p - pbegin
        invariant committed == old(committed) <= |mapping| && old(mapping) <= mapping
        invariant Accept(ts, pat, tbegin, pbegin) == Accept(ts, pat, t, p)
        invariant Accept(ts, pat, t, p) ==>
                    mapping + Mapping(ts, pat, t, p) == old(mapping) + Mapping(ts, pat, tbegin, pbegin)
        invariant forall j: nat :: tbegin <= j <= |ts| && Accept(ts, pat, j, pbegin) ==>
                    j + (t - tbegin) <= |ts| && Accept(ts, pat, j + (t - tbegin), p)
        decreases |pat| - p
      {
        if p == |pat| {
          return false;
        } else if pat[p] == Wild {
          p := p + 1;
          if p == |pat| {
            return true;
          }
          Commit();
          ok := MatchRest(t, p);
          if !ok {
            forall j: nat | tbegin <= j <= |ts|
              ensures !Accept(ts, pat, j, pbegin)
            {
              if Accept(ts, pat, j, pbegin) {
                AcceptFromEarlier(ts, pat, t, j + (t - tbegin), p);
              }
            }
          }
          return ok;
        } else if t < |ts| && ts[t] == pat[p].t {
          Push(t);
        } else {
          return false;
        }
        t, p := t + 1, p + 1;
      }
      return true;
    }

    /** The loop over the remaining values after a wildcard. */
    method MatchRest(tbegin: nat, pbegin: nat) returns (ok: bool)
      requires tbegin <= |ts| && pbegin <= |pat| && committed == |mapping|
      modifies this
      ensures committed <= |mapping|
      ensures ok == AcceptFrom(ts, pat, tbegin, pbegin)
      ensures ok ==> mapping == old(mapping) + MappingFrom(ts, pat, tbegin, pbegin)
      decreases |pat| - pbegin, 1
    {
      var t := tbegin;
      while t != |ts|
        invariant tbegin <= t <= |ts| && committed == |mapping|
        invariant mapping == old(mapping) || Hopeless(t, pbegin)
        invariant AcceptFrom(ts, pat, tbegin, pbegin) == AcceptFrom(ts, pat, t, pbegin)
        invariant AcceptFrom(ts, pat, t, pbegin) ==>
                    MappingFrom(ts, pat, tbegin, pbegin) == MappingFrom(ts, pat, t, pbegin)
        decreases |ts| - t
      {
        ok := DynamicMatch(t, pbegin);
        if ok {
          return true;
        }
        Rollback();
        t := t + 1;
      }
      return false;
    }
  }

  // ---------------------------------------------------------------- exactly when it succeeds

  predicate EndsInTwoWildcards(pat: seq<Entry>, pi: nat) {
    pi + 2 <= |pat| && pat[|pat| - 1] == Wild && pat[|pat| - 2] == Wild
  }

  /** How many values must remain beyond the last literal: one if the pattern ends in two wildcards. */
  function Slack(pat: seq<Entry>, pi: nat): nat {
    if EndsInTwoWildcards(pat, pi) then 1 else 0
  }

  lemma {:induction false} MappingFits(ts: seq<nat>, pat: seq<Entry>, ti: nat, pi: nat)
    requires ti <= |ts| && pi <= |pat| && Accept(ts, pat, ti, pi)
    ensures ti + Slack(pat, pi) <= |ts|
    ensures Fit(ts, |ts| - Slack(pat, pi), pat, ti, pi, Mapping(ts, pat, ti, pi))
    decreases |pat| - pi, 0
  {
    if pi < |pat| {
      var hi := |ts| - Slack(pat, pi);
      if pat[pi] != Wild {
        MappingFits(ts, pat, ti + 1, pi + 1);
        assert Mapping(ts, pat, ti, pi)[1..] == Mapping(ts, pat, ti + 1, pi + 1);
      } else if pi + 1 == |pat| {
        assert Fit(ts, hi, pat, hi, pi + 1, []);
      } else {
        var k := FromFits(ts, pat, ti, pi + 1);
        WildcardFits(ts, pat, ti, pi, k, Mapping(ts, pat, ti, pi));
      }
    }
  }

  /** A wildcard before a fitting rest; of two last wildcards the first leaves a value over. */
  lemma WildcardFits(ts: seq<nat>, pat: seq<Entry>, ti: nat, pi: nat, k: nat, m: seq<nat>)
    requires pi + 1 < |pat| && pat[pi] == Wild && ti <= k < |ts| && k + Slack(pat, pi + 1) <= |ts|
    requires Fit(ts, |ts| - Slack(pat, pi + 1), pat, k, pi + 1, m)
    ensures ti + Slack(pat, pi) <= |ts| && Fit(ts, |ts| - Slack(pat, pi), pat, ti, pi, m)
  {
    var hi := |ts| - Slack(pat, pi);
    if pi + 2 == |pat| && Slack(pat, pi) == 1 {
      var j :| k <= j <= |ts| && Fit(ts, |ts|, pat, j, pi + 2, m);
      assert Fit(ts, hi, pat, hi, pi + 2, m);
    }
    assert Fit(ts, hi, pat, k, pi + 1, m);
  }

  lemma {:induction false} FromFits(ts: seq<nat>, pat: seq<Entry>, ti: nat, pi: nat) returns (k: nat)
    requires ti <= |ts| && pi <= |pat| && AcceptFrom(ts, pat, ti, pi)
    ensures ti <= k < |ts| && k + Slack(pat, pi) <= |ts| && Accept(ts, pat, k, pi)
    ensures Mapping(ts, pat, k, pi) == MappingFrom(ts, pat, ti, pi)
    ensures Fit(ts, |ts| - Slack(pat, pi), pat, k, pi, MappingFrom(ts, pat, ti, pi))
    decreases |pat| - pi, 1 + |ts| - ti
  {
    if Accept(ts, pat, ti, pi) {
      k := ti;
      MappingFits(ts, pat, ti, pi);
    } else {
      k := FromFits(ts, pat, ti + 1, pi);
    }
  }

  /** A pattern with a non-wildcard entry needs a value. */
  lemma {:induction false} LiteralNeedsValue(ts: seq<nat>, hi: nat, pat: seq<Entry>, lo: nat, pi: nat, m: seq<nat>, l: nat)
    requires lo <= hi <= |ts| && pi <= l < |pat| && pat[l].Typ? && Fit(ts, hi, pat, lo, pi, m)
    ensures lo < hi
    decreases |pat| - pi
  {
    if pat[pi] == Wild {
      var k :| lo <= k <= hi && Fit(ts, hi, pat, k, pi + 1, m);
      LiteralNeedsValue(ts, hi, pat, k, pi + 1, m, l);
    }
  }

  lemma {:induction false} FitIsAccepted(ts: seq<nat>, pat: seq<Entry>, lo: nat, pi: nat, m: seq<nat>)
    requires pi <= |pat| && lo + Slack(pat, pi) <= |ts|
    requires Fit(ts, |ts| - Slack(pat, pi), pat, lo, pi, m)
    ensures Accept(ts, pat, lo, pi)
    decreases |pat| - pi
  {
    if pi < |pat| {
      var hi := |ts| - Slack(pat, pi);
      if pat[pi] != Wild {
        FitIsAccepted(ts, pat, lo + 1, pi + 1, m[1..]);
      } else if pi + 1 < |pat| {
        if pi + 2 == |pat| && Slack(pat, pi) == 1 {
          AcceptFromThere(ts, pat, lo, lo, pi + 1);
        } else {
          var k :| lo <= k <= hi && Fit(ts, hi, pat, k, pi + 1, m);
          if Slack(pat, pi) == 0 {
            var l := if pat[|pat| - 1].Typ? then |pat| - 1 else |pat| - 2;
            LiteralNeedsValue(ts, hi, pat, k, pi + 1, m, l);
          }
          FitIsAccepted(ts, pat, k, pi + 1, m);
          AcceptFromThere(ts, pat, lo, k, pi + 1);
        }
      }
    }
  }

  ghost predicate Fits(ts: seq<nat>, hi: nat, pat: seq<Entry>)
    requires hi <= |ts|
  {
    exists m :: Fit(ts, hi, pat, 0, 0, m)
  }

  /** The answer, exactly: the types fit the pattern, and if the pattern ends in two wildcards
      they still fit without the last value. */
  lemma AcceptIff(ts: seq<nat>, pat: seq<Entry>)
    ensures Accept(ts, pat, 0, 0) <==>
            if EndsInTwoWildcards(pat, 0) then |ts| > 0 && Fits(ts, |ts| - 1, pat) else Fits(ts, |ts|, pat)
  {
    if Accept(ts, pat, 0, 0) {
      MappingFits(ts, pat, 0, 0);
    }
    if Slack(pat, 0) <= |ts| && Fits(ts, |ts| - Slack(pat, 0), pat) {
      var m :| Fit(ts, |ts| - Slack(pat, 0), pat, 0, 0, m);
      FitIsAccepted(ts, pat, 0, 0, m);
    }
  }

  /** A trailing wildcard takes one more value. */
  lemma {:induction false} FitWidens(ts: seq<nat>, hi: nat, pat: seq<Entry>, lo: nat, pi: nat, m: seq<nat>)
    requires lo <= hi < |ts| && pi < |pat| && pat[|pat| - 1] == Wild && Fit(ts, hi, pat, lo, pi, m)
    ensures Fit(ts, hi + 1, pat, lo, pi, m)
    decreases |pat| - pi
  {
    if pat[pi] != Wild {
      FitWidens(ts, hi, pat, lo + 1, pi + 1, m[1..]);
    } else {
      var k :| lo <= k <= hi && Fit(ts, hi, pat, k, pi + 1, m);
      if pi + 1 == |pat| {
        assert Fit(ts, hi + 1, pat, hi + 1, pi + 1, m);
      } else {
        FitWidens(ts, hi, pat, k, pi + 1, m);
      }
    }
  }

  /** Whatever is accepted fits, with the returned mapping. */
  lemma AcceptedFits(ts: seq<nat>, pat: seq<Entry>)
    requires Accept(ts, pat, 0, 0)
    ensures Fit(ts, |ts|, pat, 0, 0, Mapping(ts, pat, 0, 0))
  {
    MappingFits(ts, pat, 0, 0);
    if EndsInTwoWildcards(pat, 0) {
      FitWidens(ts, |ts| - 1, pat, 0, 0, Mapping(ts, pat, 0, 0));
    }
  }

  /** Two adjacent wildcards at the end: a message that fits with nothing left for them is refused. */
  lemma AdjacentWildcardsMiss()
    ensures Fits([7], 1, [Typ(7), Wild, Wild]) && !Accept([7], [Typ(7), Wild, Wild], 0, 0)
  {
    var ts, pat := [7], [Typ(7), Wild, Wild];
    assert Fit(ts, 1, pat, 1, 3, []);
    assert Fit(ts, 1, pat, 1, 2, []);
    assert Fit(ts, 1, pat, 1, 1, []);
    assert [0][1..] == [];
    assert Fit(ts, 1, pat, 0, 0, [0]);
    assert !AcceptFrom(ts, pat, 1, 2);
  }

  lemma {:induction false} IncreasingIsShort(m: seq<nat>, n: nat)
    requires forall j :: 0 <= j < |m| ==> m[j] < n
    requires forall i, j :: 0 <= i < j < |m| ==> m[i] < m[j]
    ensures |m| <= n
  {
    if m != [] {
      IncreasingIsShort(m[..|m| - 1], m[|m| - 1]);
    }
  }

  /** What fits has a value for every non-wildcard entry. */
  lemma LiteralsFitIn(ts: seq<nat>, pat: seq<Entry>, m: seq<nat>)
    requires Fit(ts, |ts|, pat, 0, 0, m)
    ensures |LiteralTypes(pat, 0)| <= |ts|
  {
    FitMeaning(ts, |ts|, pat, 0, 0, m);
    IncreasingIsShort(m, |ts|);
  }

  // ---------------------------------------------------------------- the whole cast

  datatype Position = Nil | Leading | Trailing | InBetween | Multiple

  function WildcardCount(pat: seq<Entry>): nat {
    if pat == [] then 0 else (if pat[0] == Wild then 1 else 0) + WildcardCount(pat[1..])
  }

  function WildcardPosition(pat: seq<Entry>): Position {
    if WildcardCount(pat) > 1 then Multiple
    else if WildcardCount(pat) == 0 then Nil
    else if pat[0] == Wild then Leading
    else if pat[|pat| - 1] == Wild then Trailing
    else InBetween
  }

  /** No match, a mapping, or a read that the language does not define: through the null data
      pointer of a message without data, or behind the array of pattern types. */
  datatype Cast = NoMatch | Match(mapping: seq<nat>) | Undefined

  function Positions(lo: nat, n: nat): (s: seq<nat>)
    ensures |s| == n && forall i :: 0 <= i < n ==> s[i] == lo + i
  {
    seq(n, i => lo + i)
  }

  /** std::equal over the values of a message and the types of a pattern: it stops at the first
      difference, and goes on as long as there are values. */
  method EqualTypes(sub: seq<nat>, types: seq<nat>, lo: nat) returns (r: Cast)
    ensures sub <= types <==> r.Match?
    ensures types < sub <==> r.Undefined?
    ensures r.Match? ==> r.mapping == Positions(lo, |sub|)
  {
    for i := 0 to |sub|
      invariant i <= |types| && sub[..i] == types[..i]
    {
      if i == |types| {
        return Undefined;
      }
      if sub[i] != types[i] {
        return NoMatch;
      }
    }
    return Match(Positions(lo, |sub|));
  }

  /** A short message is compared with the front of the pattern only. */
  predicate ShortPrefix(ts: seq<nat>, pat: seq<Entry>) {
    |ts| < |LiteralTypes(pat, 0)| && ts <= LiteralTypes(pat, 0)
  }

  ghost predicate SearchFits(ts: seq<nat>, pat: seq<Entry>) {
    if EndsInTwoWildcards(pat, 0) then |ts| > 0 && Fits(ts, |ts| - 1, pat) else Fits(ts, |ts|, pat)
  }

  predicate Searches(pat: seq<Entry>) {
    WildcardPosition(pat) == InBetween || WildcardPosition(pat) == Multiple
  }

  /** A message too short for a searched pattern, one without data, or one that goes on behind
      all the types of a pattern without wildcards. A default-constructed message has no data; an
      empty one from a builder does. */
  predicate CastUndefined(ts: seq<nat>, hasData: bool, pat: seq<Entry>) {
    if Searches(pat) then |ts| < |LiteralTypes(pat, 0)|
    else !hasData || (WildcardPosition(pat) == Nil && LiteralTypes(pat, 0) < ts)
  }

  ghost predicate CastMatches(ts: seq<nat>, hasData: bool, pat: seq<Entry>) {
    if Searches(pat) then SearchFits(ts, pat) else hasData && (Fits(ts, |ts|, pat) || ShortPrefix(ts, pat))
  }

  /** The cast of a message to a pattern with at least one type, exactly. A pattern with a
      wildcard in between or several is searched; the others are compared element by element. */
  method TupleCast(ts: seq<nat>, hasData: bool, pat: seq<Entry>) returns (r: Cast)
    requires LiteralTypes(pat, 0) != [] && (ts != [] ==> hasData)
    ensures r.Undefined? <==> CastUndefined(ts, hasData, pat)
    ensures r.Match? <==> CastMatches(ts, hasData, pat)
    ensures r.Match? && |ts| >= |LiteralTypes(pat, 0)| ==> Fit(ts, |ts|, pat, 0, 0, r.mapping)
    ensures r.Match? && |ts| < |LiteralTypes(pat, 0)| ==> r.mapping == Positions(0, |ts|)
  {
    if Searches(pat) {
      r := SearchedCast(ts, pat);
    } else if !hasData {
      return Undefined;
    } else {
      r := PlainCast(ts, pat);
    }
  }

  /** A search; but a message too short for it leaves an empty one to be compared. */
  method SearchedCast(ts: seq<nat>, pat: seq<Entry>) returns (r: Cast)
    requires Searches(pat)
    ensures r.Undefined? <==> |ts| < |LiteralTypes(pat, 0)|
    ensures r.Match? <==> SearchFits(ts, pat)
    ensures r.Match? ==> |ts| >= |LiteralTypes(pat, 0)| && Fit(ts, |ts|, pat, 0, 0, r.mapping)
  {
    SearchMeaning(ts, pat);
    if |ts| < |LiteralTypes(pat, 0)| {
      return Undefined;
    }
    var matcher := new Matcher(ts, pat);
    var ok := matcher.DynamicMatch(0, 0);
    if ok {
      assert matcher.mapping == Mapping(ts, pat, 0, 0);
      return Match(matcher.mapping);
    }
    return NoMatch;
  }

  lemma SearchMeaning(ts: seq<nat>, pat: seq<Entry>)
    ensures Accept(ts, pat, 0, 0) <==> SearchFits(ts, pat)
    ensures Accept(ts, pat, 0, 0) ==>
            |ts| >= |LiteralTypes(pat, 0)| && Fit(ts, |ts|, pat, 0, 0, Mapping(ts, pat, 0, 0))
  {
    AcceptIff(ts, pat);
    if Accept(ts, pat, 0, 0) {
      AcceptedFits(ts, pat);
      LiteralsFitIn(ts, pat, Mapping(ts, pat, 0, 0));
    }
  }

  /** A comparison of the whole message, its front or its end with the types. */
  method PlainCast(ts: seq<nat>, pat: seq<Entry>) returns (r: Cast)
    requires !Searches(pat) && LiteralTypes(pat, 0) != []
    ensures r.Undefined? <==> WildcardPosition(pat) == Nil && LiteralTypes(pat, 0) < ts
    ensures r.Match? <==> Fits(ts, |ts|, pat) || ShortPrefix(ts, pat)
    ensures r.Match? && |ts| >= |LiteralTypes(pat, 0)| ==> Fit(ts, |ts|, pat, 0, 0, r.mapping)
    ensures r.Match? && |ts| < |LiteralTypes(pat, 0)| ==> r.mapping == Positions(0, |ts|)
  {
    PlainFits(ts, pat);
    var types := LiteralTypes(pat, 0);
    if WildcardPosition(pat) == Trailing {
      r := EqualTypes(if |types| >= |ts| then ts else ts[..|types|], types, 0);
    } else if WildcardPosition(pat) == Leading {
      var lo := if |types| >= |ts| then 0 else |ts| - |types|;
      r := EqualTypes(ts[lo..], types, lo);
    } else {
      r := EqualTypes(ts, types, 0);
    }
  }

  /** Short messages: a searched pattern reads through a null pointer, and a plain one accepts
      messages that do not fit, an empty one from a builder among them. */
  lemma ShortMessagesGoWrong()
    ensures CastUndefined([7], true, [Typ(7), Wild, Typ(7)])
    ensures CastMatches([7], true, [Typ(7), Typ(8)]) && !Fits([7], 1, [Typ(7), Typ(8)])
    ensures CastMatches([], true, [Typ(7), Typ(8)]) && CastUndefined([], false, [Typ(7), Typ(8)])
    ensures !Fits([], 0, [Typ(7), Typ(8)])
  {
    var searched, plain := [Typ(7), Wild, Typ(7)], [Typ(7), Typ(8)];
    assert LiteralTypes(searched, 2) == [7] && LiteralTypes(searched, 1) == [7] && LiteralTypes(searched, 0) == [7, 7];
    assert searched[1..][1..][1..] == [] && WildcardCount(searched[1..][1..]) == 0;
    assert WildcardCount(searched[1..]) == 1;
    assert plain[1..][1..] == [] && WildcardCount(plain[1..]) == 0;
    assert LiteralTypes(plain, 1) == [8] && LiteralTypes(plain, 0) == [7, 8];
    forall m
      ensures !Fit([7], 1, plain, 0, 0, m)
    {
      if Fit([7], 1, plain, 0, 0, m) {
        LiteralsFitIn([7], plain, m);
      }
    }
  }

  // ---------------------------------------------------------------- patterns that are not searched

  lemma {:induction false} NoWildcards(pat: seq<Entry>)
    ensures WildcardCount(pat) == 0 <==> forall i :: 0 <= i < |pat| ==> pat[i].Typ?
  {
    if pat != [] {
      NoWildcards(pat[1..]);
      assert pat == [pat[0]] + pat[1..];
    }
  }

  /** A stretch of types up to the end of the pattern, or up to a last wildcard. */
  predicate Stretch(pat: seq<Entry>, pi: nat, end: nat) {
    && pi <= end <= |pat| <= end + 1 && (end < |pat| ==> pat[end] == Wild)
    && forall i :: pi <= i < end ==> pat[i].Typ?
  }

  /** The types pat[pi..end] stand at ti. */
  predicate TypesAt(ts: seq<nat>, pat: seq<Entry>, ti: nat, pi: nat, end: nat)
    requires ti <= |ts| && Stretch(pat, pi, end)
    decreases end - pi
  {
    pi == end || (ti < |ts| && ts[ti] == pat[pi].t && TypesAt(ts, pat, ti + 1, pi + 1, end))
  }

  lemma {:induction false} StretchTypes(pat: seq<Entry>, pi: nat, end: nat)
    requires Stretch(pat, pi, end)
    ensures |LiteralTypes(pat, pi)| == end - pi
    decreases |pat| - pi
  {
    if pi < end {
      StretchTypes(pat, pi + 1, end);
    } else if end < |pat| {
      assert LiteralTypes(pat, pi) == [] + LiteralTypes(pat, pi + 1) == [];
    }
  }

  lemma {:induction false} StretchAccepts(ts: seq<nat>, pat: seq<Entry>, ti: nat, pi: nat, end: nat)
    requires ti <= |ts| && Stretch(pat, pi, end)
    ensures Accept(ts, pat, ti, pi) <==>
            TypesAt(ts, pat, ti, pi, end) && (end == |pat| ==> ti + (end - pi) == |ts|)
    ensures Accept(ts, pat, ti, pi) ==> Mapping(ts, pat, ti, pi) == Positions(ti, end - pi)
    decreases |pat| - pi
  {
    if pi < end && ti < |ts| {
      StretchAccepts(ts, pat, ti + 1, pi + 1, end);
      if Accept(ts, pat, ti, pi) {
        assert [ti] + Positions(ti + 1, end - (pi + 1)) == Positions(ti, end - pi);
      }
    }
  }

  /** The same as an equation between sequences. */
  lemma {:induction false} TypesAtSlice(ts: seq<nat>, pat: seq<Entry>, ti: nat, pi: nat, end: nat)
    requires ti <= |ts| && Stretch(pat, pi, end)
    ensures var types := LiteralTypes(pat, pi);
            TypesAt(ts, pat, ti, pi, end) <==> |types| <= |ts| - ti && ts[ti..ti + |types|] == types
    decreases |pat| - pi
  {
    StretchTypes(pat, pi, end);
    if pi < end && ti < |ts| {
      TypesAtSlice(ts, pat, ti + 1, pi + 1, end);
      SliceStep(ts, ti, pat[pi].t, LiteralTypes(pat, pi + 1));
    }
  }

  lemma SliceStep(ts: seq<nat>, ti: nat, t: nat, types: seq<nat>)
    requires ti < |ts|
    ensures ti + 1 + |types| <= |ts| ==>
            (ts[ti..ti + 1 + |types|] == [t] + types <==> ts[ti] == t && ts[ti + 1..ti + 1 + |types|] == types)
  {
    if ti + 1 + |types| <= |ts| {
      assert ts[ti..ti + 1 + |types|] == [ts[ti]] + ts[ti + 1..ti + 1 + |types|];
      if [ts[ti]] + ts[ti + 1..ti + 1 + |types|] == [t] + types {
        assert ([t] + types)[0] == t && ([t] + types)[1..] == types;
      }
    }
  }

  /** Where the values that are compared begin. */
  function CompareFrom(ts: seq<nat>, pat: seq<Entry>): nat {
    var n := |LiteralTypes(pat, 0)|;
    if WildcardPosition(pat) == Leading && n < |ts| then |ts| - n else 0
  }

  /** A pattern with no wildcard, or one at an end, fits exactly where its types stand. */
  predicate StandsThere(ts: seq<nat>, pat: seq<Entry>) {
    var types, lo := LiteralTypes(pat, 0), CompareFrom(ts, pat);
    lo + |types| <= |ts| && ts[lo..lo + |types|] == types && (WildcardPosition(pat) == Nil ==> |ts| == |types|)
  }

  lemma PlainFits(ts: seq<nat>, pat: seq<Entry>)
    requires !Searches(pat) && LiteralTypes(pat, 0) != []
    ensures Fits(ts, |ts|, pat) <==> StandsThere(ts, pat)
    ensures StandsThere(ts, pat) ==>
            Fit(ts, |ts|, pat, 0, 0, Positions(CompareFrom(ts, pat), |LiteralTypes(pat, 0)|))
  {
    PlainPatternAccepts(ts, pat);
    SearchMeaning(ts, pat);
  }

  lemma PlainPatternAccepts(ts: seq<nat>, pat: seq<Entry>)
    requires !Searches(pat) && LiteralTypes(pat, 0) != []
    ensures !EndsInTwoWildcards(pat, 0)
    ensures Accept(ts, pat, 0, 0) <==> StandsThere(ts, pat)
    ensures Accept(ts, pat, 0, 0) ==>
            Mapping(ts, pat, 0, 0) == Positions(CompareFrom(ts, pat), |LiteralTypes(pat, 0)|)
  {
    PlainPatternShape(pat);
    if WildcardPosition(pat) == Leading {
      LeadingAccepts(ts, pat);
    } else {
      var end := if WildcardPosition(pat) == Nil then |pat| else |pat| - 1;
      StretchTypes(pat, 0, end);
      StretchAccepts(ts, pat, 0, 0, end);
      TypesAtSlice(ts, pat, 0, 0, end);
    }
  }

  lemma {:induction false} OneWildcard(pat: seq<Entry>, w: nat)
    requires w < |pat| && pat[w] == Wild && WildcardCount(pat) == 1
    ensures forall i :: 0 <= i < |pat| && i != w ==> pat[i].Typ?
  {
    assert pat == [pat[0]] + pat[1..];
    if w == 0 {
      NoWildcards(pat[1..]);
      assert forall i :: 0 < i < |pat| ==> pat[i] == pat[1..][i - 1];
    } else {
      assert pat[1..][w - 1] == Wild;
      NoWildcards(pat[1..]);
      OneWildcard(pat[1..], w - 1);
      assert forall i :: 0 < i < |pat| ==> pat[i] == pat[1..][i - 1];
    }
  }

  lemma PlainPatternShape(pat: seq<Entry>)
    requires !Searches(pat) && pat != []
    ensures match WildcardPosition(pat)
            case Nil => Stretch(pat, 0, |pat|)
            case Trailing => Stretch(pat, 0, |pat| - 1)
            case Leading => pat[0] == Wild && Stretch(pat, 1, |pat|)
            case _ => false
    ensures !EndsInTwoWildcards(pat, 0)
  {
    NoWildcards(pat);
    match WildcardPosition(pat)
    case Nil =>
    case Trailing => OneWildcard(pat, |pat| - 1);
    case Leading => OneWildcard(pat, 0);
  }

  lemma LeadingAccepts(ts: seq<nat>, pat: seq<Entry>)
    requires WildcardPosition(pat) == Leading && pat != [] && pat[0] == Wild && Stretch(pat, 1, |pat|)
    requires LiteralTypes(pat, 0) != []
    ensures Accept(ts, pat, 0, 0) <==> StandsThere(ts, pat)
    ensures Accept(ts, pat, 0, 0) ==>
            Mapping(ts, pat, 0, 0) == Positions(CompareFrom(ts, pat), |LiteralTypes(pat, 0)|)
  {
    var types := LiteralTypes(pat, 1);
    assert LiteralTypes(pat, 0) == [] + types == types;
    StretchTypes(pat, 1, |pat|);
    if Accept(ts, pat, 0, 0) {
      LeadingStands(ts, pat);
      assert CompareFrom(ts, pat) == |ts| - |types|;
      assert ts[|ts| - |types|..|ts|] == ts[|ts| - |types|..];
    }
    if StandsThere(ts, pat) {
      var lo := CompareFrom(ts, pat);
      TypesAtSlice(ts, pat, lo, 1, |pat|);
      StretchAccepts(ts, pat, lo, 1, |pat|);
      AcceptFromThere(ts, pat, 0, lo, 1);
    }
  }

  lemma LeadingStands(ts: seq<nat>, pat: seq<Entry>)
    requires pat != [] && pat[0] == Wild && Stretch(pat, 1, |pat|) && LiteralTypes(pat, 1) != []
    requires Accept(ts, pat, 0, 0)
    ensures var n := |LiteralTypes(pat, 1)|;
            && n <= |ts| && ts[|ts| - n..] == LiteralTypes(pat, 1)
            && Mapping(ts, pat, 0, 0) == Positions(|ts| - n, n)
  {
    StretchTypes(pat, 1, |pat|);
    var k := FromFits(ts, pat, 0, 1);
    StretchAccepts(ts, pat, k, 1, |pat|);
    TypesAtSlice(ts, pat, k, 1, |pat|);
  }
}
