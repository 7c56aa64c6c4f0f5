/** Candidate ordering: tiers, stable sorts under lexicographic comparators, and
    the round-robin rotation. */
module Scheduler {
  import opened Common
  import opened Capacity

  // ---------- Stable sorting ----------

  type Before = (Account, Account) -> bool

  function Insert(x: Account, s: seq<Account>, before: Before): seq<Account> {
    if s == [] || !before(s[0], x) then [x] + s else [s[0]] + Insert(x, s[1..], before)
  }

  /** sort.SliceStable. */
  function StableSort(s: seq<Account>, before: Before): seq<Account> {
    if s == [] then [] else Insert(s[0], StableSort(s[1..], before), before)
  }

  ghost predicate StrictWeakOrder(before: Before) {
    && (forall a :: !before(a, a))
    && (forall a, b, c :: before(a, b) && before(b, c) ==> before(a, c))
    && (forall a, b, c :: before(a, c) ==> before(a, b) || before(b, c))
  }

  ghost predicate Sorted(s: seq<Account>, before: Before) {
    forall i, j :: 0 <= i < j < |s| ==> !before(s[j], s[i])
  }

  predicate Equivalent(a: Account, b: Account, before: Before) { !before(a, b) && !before(b, a) }

  /** The elements of `s` that rank like `x`, in their order. */
  function Peers(s: seq<Account>, x: Account, before: Before): seq<Account> {
    if s == [] then [] else
      var rest := Peers(s[1..], x, before);
      if Equivalent(s[0], x, before) then [s[0]] + rest else rest
  }

  lemma NotBeforeTransitive(a: Account, b: Account, c: Account, before: Before)
    requires StrictWeakOrder(before) && !before(a, b) && !before(b, c)
    ensures !before(a, c)
  {}

  lemma {:induction false} InsertSorts(x: Account, s: seq<Account>, before: Before)
    requires StrictWeakOrder(before) && Sorted(s, before)
    ensures Sorted(Insert(x, s, before), before) && multiset(Insert(x, s, before)) == multiset(s) + multiset{x}
    ensures forall y :: y in Insert(x, s, before) <==> y == x || y in s
  {
    if s != [] && before(s[0], x) {
      InsertSorts(x, s[1..], before);
      assert s == [s[0]] + s[1..];
      var r := Insert(x, s[1..], before);
      assert forall y :: y in r ==> !before(y, s[0]);
    } else if s != [] {
      forall j | 0 <= j < |s|
        ensures !before(s[j], x)
      {
        NotBeforeTransitive(s[j], s[0], x, before);
      }
    }
  }

  lemma {:induction false} InsertKeepsPeers(x: Account, s: seq<Account>, z: Account, before: Before)
    requires StrictWeakOrder(before) && Sorted(s, before)
    ensures Peers(Insert(x, s, before), z, before) == Peers([x] + s, z, before)
  {
    assert ([x] + s)[1..] == s;
    if s != [] && before(s[0], x) {
      InsertKeepsPeers(x, s[1..], z, before);
      assert ([x] + s[1..])[1..] == s[1..];
      assert ([s[0]] + Insert(x, s[1..], before))[1..] == Insert(x, s[1..], before);
      assert !(Equivalent(s[0], z, before) && Equivalent(x, z, before));
    }
  }

  /** A stable sort: sorted, a permutation, and equals keep their order. */
  ghost predicate IsStableSort(s: seq<Account>, r: seq<Account>, before: Before) {
    Sorted(r, before) && multiset(r) == multiset(s) && forall z :: Peers(r, z, before) == Peers(s, z, before)
  }

  lemma {:induction false} StableSortIsOne(s: seq<Account>, before: Before)
    requires StrictWeakOrder(before)
    ensures IsStableSort(s, StableSort(s, before), before)
  {
    if s != [] {
      StableSortIsOne(s[1..], before);
      var t := StableSort(s[1..], before);
      InsertSorts(s[0], t, before);
      assert s == [s[0]] + s[1..];
      forall z
        ensures Peers(StableSort(s, before), z, before) == Peers(s, z, before)
      {
        InsertKeepsPeers(s[0], t, z, before);
        assert ([s[0]] + t)[1..] == t;
      }
    }
  }

  lemma {:induction false} PeersMembers(s: seq<Account>, z: Account, before: Before)
    ensures forall y :: y in Peers(s, z, before) <==> y in s && Equivalent(y, z, before)
  {
    if s != [] {
      PeersMembers(s[1..], z, before);
      assert s == [s[0]] + s[1..];
    }
  }

  lemma HeadHasPeers(s: seq<Account>, before: Before)
    requires StrictWeakOrder(before) && s != []
    ensures Peers(s, s[0], before) != []
  {}

  /** There is only one stable sort, whatever algorithm computes it. */
  lemma {:induction false} StableSortIsUnique(t: seq<Account>, u: seq<Account>, before: Before)
    requires StrictWeakOrder(before) && Sorted(t, before) && Sorted(u, before)
    requires forall z :: Peers(t, z, before) == Peers(u, z, before)
    ensures t == u
  {
    if t == [] {
      if u != [] { HeadHasPeers(u, before); }
    } else {
      var a := t[0];
      PeersMembers(t, a, before);
      PeersMembers(u, a, before);
      assert a in u;
      var b := u[0];
      PeersMembers(t, b, before);
      PeersMembers(u, b, before);
      assert b in t;
      assert Equivalent(b, a, before);
      assert Peers(t, a, before)[0] == a && Peers(u, a, before)[0] == b;
      forall z
        ensures Peers(t[1..], z, before) == Peers(u[1..], z, before)
      {
        assert Peers(t, z, before) == Peers(u, z, before);
        if Equivalent(a, z, before) {
          assert Peers(t[1..], z, before) == Peers(t, z, before)[1..];
          assert Peers(u[1..], z, before) == Peers(u, z, before)[1..];
        }
      }
      StableSortIsUnique(t[1..], u[1..], before);
    }
  }

  // ---------- Comparators ----------

  /** The capacity part shared by the comparators: more known windows, fresher,
      then larger worst pace, total pace and floor; zero when all are equal. */
  function CompareCapacity(a: Account, b: Account, now: real): int {
    var x, y := ComputeCapacity(a, now), ComputeCapacity(b, now);
    var rankA, rankB := FreshnessRank(a, now), FreshnessRank(b, now);
    if x.knownWindowCount != y.knownWindowCount then if x.knownWindowCount > y.knownWindowCount then -1 else 1
    else if rankA != rankB then if rankA > rankB then -1 else 1
    else if x.worstPace != y.worstPace then if PaceAbove(x.worstPace, y.worstPace) then -1 else 1
    else if x.totalPace != y.totalPace then if PaceAbove(x.totalPace, y.totalPace) then -1 else 1
    else if x.rawFloor != y.rawFloor then if x.rawFloor > y.rawFloor then -1 else 1
    else 0
  }

  predicate LeastUsedBefore(a: Account, b: Account, now: real) {
    if Hits(a) != Hits(b) then Hits(a) < Hits(b)
    else var c := CompareCapacity(a, b, now); if c != 0 then c < 0 else Less(a.id, b.id)
  }

  predicate MaxQuotaBefore(a: Account, b: Account, now: real) {
    var c := CompareCapacity(a, b, now); if c != 0 then c < 0 else Hits(a) < Hits(b)
  }

  predicate DepletedBefore(a: Account, b: Account, now: real) {
    var x, y := ComputeCapacity(a, now), ComputeCapacity(b, now);
    if x.rawFloor != y.rawFloor then x.rawFloor > y.rawFloor else Hits(a) < Hits(b)
  }

  function ByLeastUsed(now: real): Before { (a, b) => LeastUsedBefore(a, b, now) }
  function ByMaxQuota(now: real): Before { (a, b) => MaxQuotaBefore(a, b, now) }
  function ByDepleted(now: real): Before { (a, b) => DepletedBefore(a, b, now) }

  lemma CompareCapacityOrders(a: Account, b: Account, c: Account, now: real)
    ensures CompareCapacity(a, a, now) == 0
    ensures CompareCapacity(a, b, now) == -CompareCapacity(b, a, now)
    ensures CompareCapacity(a, b, now) <= 0 && CompareCapacity(b, c, now) <= 0 ==>
              CompareCapacity(a, c, now) <= 0 &&
              (CompareCapacity(a, c, now) == 0 <==> CompareCapacity(a, b, now) == 0 && CompareCapacity(b, c, now) == 0)
  {
    hide ComputeCapacity, FreshnessRank;
  }

  /** The max_quota comparator is a strict weak order, unknown paces included. */
  lemma MaxQuotaIsStrictWeak(now: real)
    ensures StrictWeakOrder(ByMaxQuota(now))
  {
    hide CompareCapacity, Hits;
    forall a: Account, b: Account, c: Account
      ensures !MaxQuotaBefore(a, a, now)
      ensures MaxQuotaBefore(a, b, now) && MaxQuotaBefore(b, c, now) ==> MaxQuotaBefore(a, c, now)
      ensures MaxQuotaBefore(a, c, now) ==> MaxQuotaBefore(a, b, now) || MaxQuotaBefore(b, c, now)
    {
      CompareCapacityOrders(a, b, c, now);
      CompareCapacityOrders(c, b, a, now);
      CompareCapacityOrders(b, a, c, now);
    }
  }

  /** The least_used comparator is a strict weak order that ties only equal IDs. */
  lemma LeastUsedIsStrictWeak(now: real)
    ensures StrictWeakOrder(ByLeastUsed(now))
    ensures forall a: Account, b: Account :: a.id != b.id ==> LeastUsedBefore(a, b, now) || LeastUsedBefore(b, a, now)
  {
    hide CompareCapacity, Hits, Less;
    forall a: Account, b: Account, c: Account
      ensures !LeastUsedBefore(a, a, now)
      ensures a.id != b.id ==> LeastUsedBefore(a, b, now) || LeastUsedBefore(b, a, now)
      ensures LeastUsedBefore(a, b, now) && LeastUsedBefore(b, c, now) ==> LeastUsedBefore(a, c, now)
      ensures LeastUsedBefore(a, c, now) ==> LeastUsedBefore(a, b, now) || LeastUsedBefore(b, c, now)
    {
      CompareCapacityOrders(a, b, c, now);
      CompareCapacityOrders(c, b, a, now);
      CompareCapacityOrders(b, a, c, now);
      IdsOrder(a.id, b.id, c.id);
    }
  }

  lemma IdsOrder(a: string, b: string, c: string)
    ensures !Less(a, a) && (a == b || Less(a, b) || Less(b, a))
    ensures Less(a, b) && Less(b, c) ==> Less(a, c)
    ensures Less(a, c) ==> Less(a, b) || Less(b, c)
  {
    LessIrreflexive(a);
    LessTotal(a, b);
    if Less(a, b) && Less(b, c) { LessTransitive(a, b, c); }
    if Less(a, c) && Less(b, a) { LessTransitive(b, a, c); }
  }

  lemma DepletedIsStrictWeak(now: real)
    ensures StrictWeakOrder(ByDepleted(now))
  {
    hide ComputeCapacity, Hits;
  }

  // ---------- Tiers ----------

  datatype Tier = Healthy | Reserve | Depleted | Cooldown

  /** Where OrderCandidates puts an unrestricted account. */
  function TierOf(a: Account, now: real): Tier {
    if InCooldown(a, now) then Cooldown
    else if ComputeCapacity(a, now).isDepleted then Depleted
    else if IsReserve(a, now) then Reserve
    else Healthy
  }

  predicate IsEligible(t: Tier) { t == Healthy || t == Reserve }

  /** The non-nil, unrestricted accounts. */
  function Present(cs: seq<Option<Account>>): seq<Account> {
    if cs == [] then [] else
      var c, rest := cs[|cs| - 1], Present(cs[..|cs| - 1]);
      if c.Some? && !IsRestricted(c.value) then rest + [c.value] else rest
  }

  function OfTiers(s: seq<Account>, ts: set<Tier>, now: real): seq<Account> {
    if s == [] then [] else
      var a, rest := s[|s| - 1], OfTiers(s[..|s| - 1], ts, now);
      if TierOf(a, now) in ts then rest + [a] else rest
  }

  const STRATEGY_LEAST_USED := "least_used"
  const STRATEGY_ROUND_ROBIN := "round_robin"
  const STRATEGY_MAX_QUOTA := "max_quota"

  function Eligible(s: seq<Account>, now: real): seq<Account> { OfTiers(s, {Healthy, Reserve}, now) }

  /** The position after the first account with the cursor's ID, zero without one. */
  function StartAfter(s: seq<Account>, cursor: Option<string>): (k: nat)
    ensures k <= |s|
    ensures k == 0 <==> cursor.None? || forall a :: a in s ==> a.id != cursor.value
    ensures k > 0 ==> s[k - 1].id == cursor.value && forall j :: 0 <= j < k - 1 ==> s[j].id != cursor.value
  {
    if cursor.None? || s == [] then 0
    else if s[0].id == cursor.value then 1
    else var k := StartAfter(s[1..], cursor); if k == 0 then 0 else k + 1
  }

  function Rotate(s: seq<Account>, cursor: Option<string>): seq<Account> {
    var k := StartAfter(s, cursor); s[k..] + s[..k]
  }

  function OrderEligible(s: seq<Account>, strategy: string, cursor: Option<string>, now: real): seq<Account> {
    if strategy == STRATEGY_LEAST_USED then StableSort(Eligible(s, now), ByLeastUsed(now))
    else if strategy == STRATEGY_ROUND_ROBIN then Rotate(Eligible(s, now), cursor)
    else StableSort(OfTiers(s, {Healthy}, now), ByMaxQuota(now)) +
         StableSort(OfTiers(s, {Reserve}, now), ByMaxQuota(now))
  }

  /** The order of the candidates: eligible, depleted, cooling down. */
  function Order(cs: seq<Option<Account>>, strategy: string, cursor: Option<string>, now: real): seq<Account> {
    var s := Present(cs);
    OrderEligible(s, strategy, cursor, now) +
    StableSort(OfTiers(s, {Depleted}, now), ByDepleted(now)) +
    OfTiers(s, {Cooldown}, now)
  }

  lemma NothingPresent(now: real)
    ensures Present([]) == [] && forall ts :: OfTiers([], ts, now) == []
  {}

  lemma PresentStep(cs: seq<Option<Account>>, i: nat)
    requires i < |cs|
    ensures Present(cs[..i + 1]) ==
            if cs[i].Some? && !IsRestricted(cs[i].value) then Present(cs[..i]) + [cs[i].value] else Present(cs[..i])
  {
    assert cs[..i + 1][..i] == cs[..i];
  }

  lemma OfTiersStep(s: seq<Account>, a: Account, ts: set<Tier>, now: real)
    ensures OfTiers(s + [a], ts, now) == if TierOf(a, now) in ts then OfTiers(s, ts, now) + [a] else OfTiers(s, ts, now)
  {
    assert (s + [a])[..|s|] == s;
  }

  /** The first pass of OrderCandidates. */
  method SplitTiers(cs: seq<Option<Account>>, now: real)
    returns (eligible: seq<Account>, depleted: seq<Account>, cooldown: seq<Account>)
    ensures eligible == Eligible(Present(cs), now)
    ensures depleted == OfTiers(Present(cs), {Depleted}, now) && cooldown == OfTiers(Present(cs), {Cooldown}, now)
  {
    hide ComputeCapacity, IsRestricted, IsReserve, InCooldown, OfTiers, Present;
    NothingPresent(now);
    eligible, depleted, cooldown := [], [], [];
    for i := 0 to |cs|
      invariant eligible == Eligible(Present(cs[..i]), now)
      invariant depleted == OfTiers(Present(cs[..i]), {Depleted}, now)
      invariant cooldown == OfTiers(Present(cs[..i]), {Cooldown}, now)
    {
      PresentStep(cs, i);
      if cs[i].None? || IsRestricted(cs[i].value) { continue; }
      var acc := cs[i].value;
      OfTiersStep(Present(cs[..i]), acc, {Healthy, Reserve}, now);
      OfTiersStep(Present(cs[..i]), acc, {Depleted}, now);
      OfTiersStep(Present(cs[..i]), acc, {Cooldown}, now);
      if InCooldown(acc, now) {
        cooldown := cooldown + [acc];
      } else if ComputeCapacity(acc, now).isDepleted {
        depleted := depleted + [acc];
      } else {
        eligible := eligible + [acc];
      }
    }
    assert cs[..|cs|] == cs;
  }

  /** OrderCandidates: one pass into tier slices, then per-strategy ordering. */
  method OrderCandidates(cs: seq<Option<Account>>, strategy: string, cursor: Option<string>, now: real)
    returns (r: seq<Account>)
    ensures r == Order(cs, strategy, cursor, now)
  {
    hide StableSort, OfTiers, Present;
    if cs == [] {
      NothingToOrder(strategy, cursor, now);
      return [];
    }
    var eligible, depleted, cooldown := SplitTiers(cs, now);
    if strategy == STRATEGY_LEAST_USED {
      eligible := StableSort(eligible, ByLeastUsed(now));
    } else if strategy == STRATEGY_ROUND_ROBIN {
      var found := StartAfter(eligible, cursor);
      if found > 0 {
        eligible := eligible[found..] + eligible[..found];
      } else {
        assert eligible[0..] + eligible[..0] == eligible;
      }
    } else {
      var healthy, reserve := SplitReserve(Present(cs), eligible, now);
      eligible := StableSort(healthy, ByMaxQuota(now)) + StableSort(reserve, ByMaxQuota(now));
    }
    depleted := StableSort(depleted, ByDepleted(now));
    r := eligible + depleted + cooldown;
  }

  lemma NothingToOrder(strategy: string, cursor: Option<string>, now: real)
    ensures Order([], strategy, cursor, now) == []
  {}

  /** The healthy and reserve slices of the max_quota strategy. */
  method SplitReserve(ghost all: seq<Account>, eligible: seq<Account>, now: real)
    returns (healthy: seq<Account>, reserve: seq<Account>)
    requires eligible == Eligible(all, now)
    ensures healthy == OfTiers(all, {Healthy}, now) && reserve == OfTiers(all, {Reserve}, now)
  {
    hide IsReserve, ComputeCapacity, InCooldown;
    EligibleTiers(all, now);
    healthy, reserve := [], [];
    for i := 0 to |eligible|
      invariant healthy == OfTiers(eligible[..i], {Healthy}, now) && reserve == OfTiers(eligible[..i], {Reserve}, now)
    {
      assert eligible[..i + 1][..i] == eligible[..i];
      assert IsEligible(TierOf(eligible[i], now));
      if IsReserve(eligible[i], now) {
        reserve := reserve + [eligible[i]];
      } else {
        healthy := healthy + [eligible[i]];
      }
    }
    assert eligible[..|eligible|] == eligible;
  }

  lemma {:induction false} EligibleTiers(s: seq<Account>, now: real)
    ensures forall a :: a in Eligible(s, now) ==> IsEligible(TierOf(a, now))
    ensures OfTiers(Eligible(s, now), {Healthy}, now) == OfTiers(s, {Healthy}, now)
    ensures OfTiers(Eligible(s, now), {Reserve}, now) == OfTiers(s, {Reserve}, now)
  {
    hide TierOf;
    if s != [] {
      EligibleTiers(s[..|s| - 1], now);
      var p := Eligible(s[..|s| - 1], now);
      assert (p + [s[|s| - 1]])[..|p|] == p;
    }
  }
}
