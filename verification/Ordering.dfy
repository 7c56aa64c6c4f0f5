/** What the candidate order guarantees, for every pool, strategy, cursor and time. */
module Ordering {
  import opened Common
  import opened Capacity
  import opened Scheduler

  lemma {:induction false} TiersSplit(s: seq<Account>, ts: set<Tier>, us: set<Tier>, now: real)
    requires ts !! us
    ensures multiset(OfTiers(s, ts + us, now)) == multiset(OfTiers(s, ts, now)) + multiset(OfTiers(s, us, now))
  {
    hide TierOf;
    if s != [] {
      var p, a := s[..|s| - 1], s[|s| - 1];
      TiersSplit(p, ts, us, now);
      assert s == p + [a];
      OfTiersStep(p, a, ts, now);
      OfTiersStep(p, a, us, now);
      OfTiersStep(p, a, ts + us, now);
      hide OfTiers;
    }
  }

  lemma {:induction false} EveryTier(s: seq<Account>, now: real)
    ensures OfTiers(s, {Healthy, Reserve, Depleted, Cooldown}, now) == s
  {
    hide TierOf;
    if s != [] {
      EveryTier(s[..|s| - 1], now);
      var t := TierOf(s[|s| - 1], now);
      assert t.Healthy? || t.Reserve? || t.Depleted? || t.Cooldown?;
      assert s == s[..|s| - 1] + [s[|s| - 1]];
    }
  }

  lemma {:induction false} OfTiersMembers(s: seq<Account>, ts: set<Tier>, now: real, a: Account)
    ensures a in OfTiers(s, ts, now) <==> a in s && TierOf(a, now) in ts
  {
    hide TierOf;
    if s != [] {
      OfTiersMembers(s[..|s| - 1], ts, now, a);
      assert s == s[..|s| - 1] + [s[|s| - 1]];
    }
  }

  predicate DefaultsToMaxQuota(strategy: string) {
    strategy != STRATEGY_LEAST_USED && strategy != STRATEGY_ROUND_ROBIN
  }

  lemma OrderEligiblePermutes(s: seq<Account>, strategy: string, cursor: Option<string>, now: real)
    ensures multiset(OrderEligible(s, strategy, cursor, now)) == multiset(Eligible(s, now))
  {
    hide StableSort, OfTiers;
    if strategy == STRATEGY_LEAST_USED {
      LeastUsedIsStrictWeak(now);
      StableSortIsOne(Eligible(s, now), ByLeastUsed(now));
    } else if strategy == STRATEGY_ROUND_ROBIN {
      var e := Eligible(s, now);
      var k := StartAfter(e, cursor);
      assert e == e[..k] + e[k..];
    } else {
      MaxQuotaIsStrictWeak(now);
      StableSortIsOne(OfTiers(s, {Healthy}, now), ByMaxQuota(now));
      StableSortIsOne(OfTiers(s, {Reserve}, now), ByMaxQuota(now));
      TiersSplit(s, {Healthy}, {Reserve}, now);
      assert {Healthy} + {Reserve} == {Healthy, Reserve};
    }
  }

  /** The result is a permutation of the non-nil, unrestricted candidates. */
  lemma OrderIsPermutation(cs: seq<Option<Account>>, strategy: string, cursor: Option<string>, now: real)
    ensures multiset(Order(cs, strategy, cursor, now)) == multiset(Present(cs))
  {
    hide StableSort, OfTiers, Present, OrderEligible;
    var s := Present(cs);
    OrderEligiblePermutes(s, strategy, cursor, now);
    DepletedIsStrictWeak(now);
    StableSortIsOne(OfTiers(s, {Depleted}, now), ByDepleted(now));
    TiersSplit(s, {Healthy, Reserve}, {Depleted}, now);
    TiersSplit(s, {Healthy, Reserve, Depleted}, {Cooldown}, now);
    EveryTier(s, now);
    assert {Healthy, Reserve} + {Depleted} == {Healthy, Reserve, Depleted};
    assert {Healthy, Reserve, Depleted} + {Cooldown} == {Healthy, Reserve, Depleted, Cooldown};
  }

  /** How early a tier comes; only max_quota tells healthy from reserve. */
  function Rank(t: Tier, strategy: string): int {
    match t
    case Healthy => 0
    case Reserve => if DefaultsToMaxQuota(strategy) then 1 else 0
    case Depleted => 2
    case Cooldown => 3
  }

  ghost predicate AllInTiers(s: seq<Account>, ts: set<Tier>, now: real) {
    forall a :: a in s ==> TierOf(a, now) in ts
  }

  lemma PermutationKeepsTiers(s: seq<Account>, r: seq<Account>, ts: set<Tier>, now: real)
    requires multiset(r) == multiset(OfTiers(s, ts, now))
    ensures AllInTiers(r, ts, now)
  {
    forall a | a in r
      ensures TierOf(a, now) in ts
    {
      assert a in multiset(r);
      OfTiersMembers(s, ts, now, a);
    }
  }

  lemma SortedPart(s: seq<Account>, ts: set<Tier>, before: Before, now: real)
    requires StrictWeakOrder(before)
    ensures AllInTiers(StableSort(OfTiers(s, ts, now), before), ts, now)
    ensures Sorted(StableSort(OfTiers(s, ts, now), before), before)
  {
    StableSortIsOne(OfTiers(s, ts, now), before);
    PermutationKeepsTiers(s, StableSort(OfTiers(s, ts, now), before), ts, now);
  }

  ghost predicate RanksAscend(r: seq<Account>, strategy: string, now: real) {
    forall i, j :: 0 <= i < j < |r| ==> Rank(TierOf(r[i], now), strategy) <= Rank(TierOf(r[j], now), strategy)
  }

  lemma AppendLater(a: seq<Account>, b: seq<Account>, strategy: string, now: real, n: int)
    requires RanksAscend(a, strategy, now) && RanksAscend(b, strategy, now)
    requires forall x :: x in a ==> Rank(TierOf(x, now), strategy) <= n
    requires forall x :: x in b ==> Rank(TierOf(x, now), strategy) >= n
    ensures RanksAscend(a + b, strategy, now)
  {
    hide Rank, TierOf;
    forall i, j | 0 <= i < j < |a + b|
      ensures Rank(TierOf((a + b)[i], now), strategy) <= Rank(TierOf((a + b)[j], now), strategy)
    {
      if i < |a| <= j { assert a[i] in a && b[j - |a|] in b; }
    }
  }

  lemma OneTierAscends(s: seq<Account>, ts: set<Tier>, strategy: string, now: real, n: int)
    requires AllInTiers(s, ts, now) && forall t :: t in ts ==> Rank(t, strategy) == n
    ensures RanksAscend(s, strategy, now) && forall x :: x in s ==> Rank(TierOf(x, now), strategy) == n
  {
    hide Rank, TierOf;
    forall i | 0 <= i < |s|
      ensures Rank(TierOf(s[i], now), strategy) == n
    {
      assert s[i] in s;
    }
  }

  lemma EligibleAscends(s: seq<Account>, strategy: string, cursor: Option<string>, now: real)
    ensures RanksAscend(OrderEligible(s, strategy, cursor, now), strategy, now)
    ensures forall x :: x in OrderEligible(s, strategy, cursor, now) ==> Rank(TierOf(x, now), strategy) <= 1
  {
    hide StableSort, OfTiers, TierOf;
    var e := OrderEligible(s, strategy, cursor, now);
    if DefaultsToMaxQuota(strategy) {
      MaxQuotaIsStrictWeak(now);
      var healthy, reserve :=
        StableSort(OfTiers(s, {Healthy}, now), ByMaxQuota(now)),
          StableSort(OfTiers(s, {Reserve}, now), ByMaxQuota(now));
      SortedPart(s, {Healthy}, ByMaxQuota(now), now);
      SortedPart(s, {Reserve}, ByMaxQuota(now), now);
      OneTierAscends(healthy, {Healthy}, strategy, now, 0);
      OneTierAscends(reserve, {Reserve}, strategy, now, 1);
      AppendLater(healthy, reserve, strategy, now, 1);
    } else {
      OrderEligiblePermutes(s, strategy, cursor, now);
      PermutationKeepsTiers(s, e, {Healthy, Reserve}, now);
      OneTierAscends(e, {Healthy, Reserve}, strategy, now, 0);
    }
  }

  /** Eligible accounts come before depleted ones and those before cooling ones;
      under max_quota every healthy account precedes every reserve one. */
  lemma OrderRespectsTiers(cs: seq<Option<Account>>, strategy: string, cursor: Option<string>, now: real)
    ensures RanksAscend(Order(cs, strategy, cursor, now), strategy, now)
  {
    hide StableSort, OfTiers, TierOf, Present, OrderEligible, RanksAscend;
    var s := Present(cs);
    var e, d, c :=
      OrderEligible(s, strategy, cursor, now), StableSort(OfTiers(s, {Depleted}, now), ByDepleted(now)),
        OfTiers(s, {Cooldown}, now);
    EligibleAscends(s, strategy, cursor, now);
    DepletedIsStrictWeak(now);
    SortedPart(s, {Depleted}, ByDepleted(now), now);
    OneTierAscends(d, {Depleted}, strategy, now, 2);
    PermutationKeepsTiers(s, c, {Cooldown}, now);
    OneTierAscends(c, {Cooldown}, strategy, now, 3);
    AppendLater(e, d, strategy, now, 2);
    AppendLater(e + d, c, strategy, now, 3);
  }

  /** Under max_quota the healthy and the reserve part are each the one stable sort
      of the accounts of that tier. */
  lemma MaxQuotaPartsAreSorted(cs: seq<Option<Account>>, strategy: string, cursor: Option<string>, now: real)
    requires DefaultsToMaxQuota(strategy)
    ensures var s, r := Present(cs), Order(cs, strategy, cursor, now);
            var h, n := |OfTiers(s, {Healthy}, now)|, |Eligible(s, now)|;
            && h <= n <= |r|
            && IsStableSort(OfTiers(s, {Healthy}, now), r[..h], ByMaxQuota(now))
            && IsStableSort(OfTiers(s, {Reserve}, now), r[h..n], ByMaxQuota(now))
  {
    hide StableSort, OfTiers, Present, IsStableSort;
    var s := Present(cs);
    MaxQuotaIsStrictWeak(now);
    var healthy, reserve :=
      StableSort(OfTiers(s, {Healthy}, now), ByMaxQuota(now)), StableSort(OfTiers(s, {Reserve}, now), ByMaxQuota(now));
    StableSortIsOne(OfTiers(s, {Healthy}, now), ByMaxQuota(now));
    StableSortIsOne(OfTiers(s, {Reserve}, now), ByMaxQuota(now));
    SameLength(OfTiers(s, {Healthy}, now), healthy, ByMaxQuota(now));
    SameLength(OfTiers(s, {Reserve}, now), reserve, ByMaxQuota(now));
    TiersSplit(s, {Healthy}, {Reserve}, now);
    assert {Healthy} + {Reserve} == {Healthy, Reserve};
    assert |multiset(Eligible(s, now))| == |multiset(OfTiers(s, {Healthy}, now))|
      + |multiset(OfTiers(s, {Reserve}, now))|;
    var r, rest :=
      Order(cs, strategy, cursor, now),
        StableSort(OfTiers(s, {Depleted}, now), ByDepleted(now)) + OfTiers(s, {Cooldown}, now);
    assert r == healthy + reserve + rest;
    assert r[..|healthy|] == healthy && r[|healthy|..|healthy| + |reserve|] == reserve;
  }

  /** Under least_used the eligible part is the one stable sort of the eligible accounts. */
  lemma LeastUsedPartIsSorted(cs: seq<Option<Account>>, cursor: Option<string>, now: real)
    ensures var s, r := Present(cs), Order(cs, STRATEGY_LEAST_USED, cursor, now);
            var n := |Eligible(s, now)|;
            n <= |r| && IsStableSort(Eligible(s, now), r[..n], ByLeastUsed(now))
  {
    hide IsStableSort, OfTiers, StableSort, Present, Eligible;
    var s, r := Present(cs), Order(cs, STRATEGY_LEAST_USED, cursor, now);
    LeastUsedIsStrictWeak(now);
    StableSortIsOne(Eligible(s, now), ByLeastUsed(now));
    SameLength(Eligible(s, now), StableSort(Eligible(s, now), ByLeastUsed(now)), ByLeastUsed(now));
    assert r[..|Eligible(s, now)|] == StableSort(Eligible(s, now), ByLeastUsed(now));
  }

  /** Whatever the strategy, the depleted part is the one stable sort of the depleted accounts
      and the cooling part keeps the input order. */
  lemma LaterPartsAreSorted(cs: seq<Option<Account>>, strategy: string, cursor: Option<string>, now: real)
    ensures var s, r := Present(cs), Order(cs, strategy, cursor, now);
            var n, d := |Eligible(s, now)|, |OfTiers(s, {Depleted}, now)|;
            && n + d <= |r|
            && IsStableSort(OfTiers(s, {Depleted}, now), r[n..n + d], ByDepleted(now))
            && r[n + d..] == OfTiers(s, {Cooldown}, now)
  {
    hide IsStableSort, OfTiers, StableSort, Present, Eligible, OrderEligible;
    var s, r := Present(cs), Order(cs, strategy, cursor, now);
    var first, second :=
      OrderEligible(s, strategy, cursor, now), StableSort(OfTiers(s, {Depleted}, now), ByDepleted(now));
    OrderEligiblePermutes(s, strategy, cursor, now);
    assert |multiset(first)| == |multiset(Eligible(s, now))|;
    DepletedIsStrictWeak(now);
    StableSortIsOne(OfTiers(s, {Depleted}, now), ByDepleted(now));
    SameLength(OfTiers(s, {Depleted}, now), second, ByDepleted(now));
    var n, d := |first|, |second|;
    assert r[n..n + d] == second && r[n + d..] == OfTiers(s, {Cooldown}, now);
  }

  lemma SameLength(s: seq<Account>, r: seq<Account>, before: Before)
    requires IsStableSort(s, r, before)
    ensures |s| == |r|
  {
    assert |multiset(s)| == |multiset(r)|;
  }

  // ---------- least_used does not depend on the input order ----------

  ghost predicate DistinctIds(s: seq<Account>) {
    forall i, j :: 0 <= i < j < |s| ==> s[i].id != s[j].id
  }

  lemma SamePermutationHead(t: seq<Account>, u: seq<Account>, before: Before)
    requires t != [] && Sorted(t, before) && Sorted(u, before) && multiset(t) == multiset(u)
    requires forall a, b :: a in t && b in t && a != b ==> before(a, b) || before(b, a)
    ensures u != [] && t[0] == u[0]
  {
    var a := t[0];
    assert a in multiset(t) && a in multiset(u);
    assert a in u;
    var b := u[0];
    assert b in multiset(u) && b in multiset(t);
    assert b in t;
  }

  lemma SameTailMultiset(t: seq<Account>, u: seq<Account>)
    requires t != [] && u != [] && t[0] == u[0] && multiset(t) == multiset(u)
    ensures multiset(t[1..]) == multiset(u[1..])
  {
    assert t == [t[0]] + t[1..] && u == [t[0]] + u[1..];
    assert multiset(t[1..]) == multiset(t) - multiset{t[0]};
    assert multiset(u[1..]) == multiset(u) - multiset{t[0]};
  }

  lemma {:induction false} SortedPermutationsAgree(t: seq<Account>, u: seq<Account>, before: Before)
    requires Sorted(t, before) && Sorted(u, before) && multiset(t) == multiset(u)
    requires forall a, b :: a in t && b in t && a != b ==> before(a, b) || before(b, a)
    ensures t == u
  {
    if t == [] {
      assert |multiset(u)| == |multiset(t)|;
    } else {
      SamePermutationHead(t, u, before);
      SameTailMultiset(t, u);
      SortedPermutationsAgree(t[1..], u[1..], before);
    }
  }

  lemma TierRemainder(s: seq<Account>, t: seq<Account>, ts: set<Tier>, now: real)
    requires multiset(s) == multiset(t)
    ensures multiset(OfTiers(s, ts, now)) == multiset(OfTiers(t, ts, now))
  {
    forall a
      ensures multiset(OfTiers(s, ts, now))[a] == multiset(OfTiers(t, ts, now))[a]
    {
      TierCount(s, ts, now, a);
      TierCount(t, ts, now, a);
    }
  }

  lemma {:induction false} TierCount(s: seq<Account>, ts: set<Tier>, now: real, a: Account)
    ensures multiset(OfTiers(s, ts, now))[a] == if TierOf(a, now) in ts then multiset(s)[a] else 0
  {
    hide TierOf;
    if s != [] {
      TierCount(s[..|s| - 1], ts, now, a);
      assert s == s[..|s| - 1] + [s[|s| - 1]];
    }
  }

  /** With distinct IDs the eligible part under least_used is the same for every
      order of the input. */
  lemma LeastUsedIgnoresInputOrder(cs: seq<Option<Account>>, ds: seq<Option<Account>>,
                                   c: Option<string>, d: Option<string>, now: real)
    requires multiset(Present(cs)) == multiset(Present(ds)) && DistinctIds(Present(cs))
    ensures OrderEligible(Present(cs), STRATEGY_LEAST_USED, c, now) ==
            OrderEligible(Present(ds), STRATEGY_LEAST_USED, d, now)
  {
    hide StableSort, OfTiers, Present, LeastUsedBefore;
    var s, t := Present(cs), Present(ds);
    LeastUsedIsStrictWeak(now);
    StableSortIsOne(Eligible(s, now), ByLeastUsed(now));
    StableSortIsOne(Eligible(t, now), ByLeastUsed(now));
    TierRemainder(s, t, {Healthy, Reserve}, now);
    var x, y := StableSort(Eligible(s, now), ByLeastUsed(now)), StableSort(Eligible(t, now), ByLeastUsed(now));
    forall a, b | a in x && b in x && a != b
      ensures ByLeastUsed(now)(a, b) || ByLeastUsed(now)(b, a)
    {
      assert a in multiset(x) && b in multiset(x);
      OfTiersMembers(s, {Healthy, Reserve}, now, a);
      OfTiersMembers(s, {Healthy, Reserve}, now, b);
      assert a.id != b.id;
      assert LeastUsedBefore(a, b, now) || LeastUsedBefore(b, a, now);
    }
    SortedPermutationsAgree(x, y, ByLeastUsed(now));
  }
}
