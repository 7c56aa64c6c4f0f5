/** Which of two accounts is earlier in the candidate order, said in terms of the
    accounts' own data. */
module Positions {
  import opened Common
  import opened Capacity
  import opened Scheduler
  import opened Ordering

  // ---------- What the capacity state is read from ----------

  ghost predicate ClampsTo(f: real, x: real) {
    0.0 <= x <= 1.0 && (0.0 <= f <= 1.0 ==> x == f) && (f < 0.0 ==> x == 0.0) && (f > 1.0 ==> x == 1.0)
  }

  ghost predicate ReadsAs(f: Option<real>, x: Option<real>) {
    (f.None? <==> x.None?) && (f.Some? && x.Some? ==> ClampsTo(f.value, x.value))
  }

  ghost predicate HasWindows(acc: Account) {
    acc.lastQuota.Some? && (acc.lastQuota.value.fiveHour.Some? || acc.lastQuota.value.weekly.Some?)
  }

  /** A single fraction that stands for both windows: the remaining one, else the quota. */
  ghost predicate HasLegacy(acc: Account, f: real) {
    && !HasWindows(acc)
    && (if acc.lastQuota.Some? && acc.lastQuota.value.remaining.Some? then acc.lastQuota.value.remaining == Some(f)
        else acc.quota == Some(f))
  }

  /** The fraction and the reset time a window's explicit record gives. */
  ghost predicate WindowReads(w: Option<Window>, q: Option<real>) {
    if w.Some? then ReadsAs(w.value.fraction, q) else q == None
  }

  ghost predicate PercentReads(p: Option<real>, q: Option<real>) {
    (p.None? <==> q.None?) && (p.Some? && q.Some? ==> ClampsTo(p.value / 100.0, q.value))
  }

  lemma FractionsMeaning(acc: Account, now: real, f: real)
    ensures var c := ComputeCapacity(acc, now);
            && (HasWindows(acc) ==>
                  && WindowReads(acc.lastQuota.value.fiveHour, c.q5) && WindowReads(acc.lastQuota.value.weekly, c.q7)
                  && c.q5Known == c.q5.Some? && c.q7Known == c.q7.Some?)
            && (HasLegacy(acc, f) ==>
                  && c.q5 == c.q7 && ReadsAs(Some(f), c.q5)
                  && !c.q5Known && !c.q7Known && c.knownWindowCount == 1)
            && (!HasWindows(acc) && acc.quota.None? && (acc.lastQuota.None? || acc.lastQuota.value.remaining.None?) ==>
                  && PercentReads(acc.fiveHourPct, c.q5) && PercentReads(acc.weeklyPct, c.q7)
                  && c.q5Known == c.q5.Some? && c.q7Known == c.q7.Some?)
            && (c.q5Known || c.q7Known ==>
                  c.knownWindowCount == (if c.q5.Some? then 1 else 0) + if c.q7.Some? then 1 else 0)
  {
    hide ResetsOf, ResetRatio, SumOf, MinOf;
  }

  // ---------- Paces ----------

  /** The time left in a window: the counted seconds, else up to its reset time. */
  ghost predicate HasLeft(seconds: Option<real>, reset: Option<real>, now: real, left: real) {
    seconds == Some(left) || (seconds.None? && reset.Some? && left == reset.value - now)
  }

  /** The share of the window that is left; all of it when that is unknown or past. */
  ghost predicate IsRatio(seconds: Option<real>, reset: Option<real>, now: real, window: real, r: real) {
    && (forall left :: HasLeft(seconds, reset, now, left) && 0.0 < left <= window ==> r * window == left)
    && ((forall left :: HasLeft(seconds, reset, now, left) ==> left <= 0.0 || left > window) ==> r == 1.0)
  }

  lemma RatioMeaning(seconds: Option<real>, reset: Option<real>, now: real, window: real)
    requires window > 0.0
    ensures IsRatio(seconds, reset, now, window, ResetRatio(seconds, reset, now, window))
  {
    var r := ResetRatio(seconds, reset, now, window);
    var rem := if seconds.Some? then seconds.value else if reset.Some? then reset.value - now else 0.0;
    if 0.0 < rem {
      assert HasLeft(seconds, reset, now, rem);
      ShareWithin(rem, window);
    }
  }

  lemma ShareWithin(left: real, window: real)
    requires 0.0 < left && window > 0.0
    ensures left / window > 1.0 <==> left > window
    ensures (left / window) * window == left
  {
    var share := left / window;
    assert share * window == left;
    assert (share - 1.0) * window == left - window;
    if share > 1.0 {
      assert (share - 1.0) * window > 0.0;
    } else {
      assert (1.0 - share) * window >= 0.0;
    }
  }

  /** The reset times that belong to the fractions. */
  ghost predicate ResetsBelong(acc: Account, five: Option<real>, week: Option<real>) {
    if HasWindows(acc) then
      && five == (if acc.lastQuota.value.fiveHour.Some? then acc.lastQuota.value.fiveHour.value.resetTime else None)
      && week == (if acc.lastQuota.value.weekly.Some? then acc.lastQuota.value.weekly.value.resetTime else None)
    else if acc.lastQuota.Some? && (acc.lastQuota.value.remaining.Some? || acc.quota.Some?) then
      five == week == acc.lastQuota.value.resetTime
    else five == acc.fiveHourReset && week == acc.weeklyReset
  }

  /** The paces and the floor are taken over the windows whose fraction is known, each
      window's pace being its fraction less the share of its time that is left. */
  ghost predicate IsPaced(c: CapacityState, five: real, week: real) {
    match (c.q5, c.q7)
    case (None, None) => c.worstPace == NegInf && c.totalPace == NegInf && c.rawFloor == 0.0
    case (Some(x), None) => c.worstPace == c.totalPace == Fin(x - five) && c.rawFloor == x
    case (None, Some(y)) => c.worstPace == c.totalPace == Fin(y - week) && c.rawFloor == y
    case (Some(x), Some(y)) =>
      && c.worstPace == Fin(if x - five <= y - week then x - five else y - week)
      && c.totalPace == Fin(x - five + (y - week))
      && c.rawFloor == (if x <= y then x else y)
  }

  ghost predicate HasPaces(acc: Account, now: real, c: CapacityState, resets: (Option<real>, Option<real>),
                           five: real, week: real) {
    && ResetsBelong(acc, resets.0, resets.1)
    && IsRatio(acc.fiveHourResetSec, resets.0, now, 18000.0, five)
    && IsRatio(acc.weeklyResetSec, resets.1, now, 604800.0, week)
    && IsPaced(c, five, week)
  }

  /** The five-hour window has 18000 seconds, the weekly one 604800. */
  lemma PacesMeaning(acc: Account, now: real) returns (resets: (Option<real>, Option<real>), five: real, week: real)
    ensures HasPaces(acc, now, ComputeCapacity(acc, now), resets, five, week)
  {
    var f := FractionsOf(acc);
    resets := ResetsOf(acc);
    five := ResetRatio(acc.fiveHourResetSec, resets.0, now, WINDOW_5H_SECS);
    week := ResetRatio(acc.weeklyResetSec, resets.1, now, WINDOW_7D_SECS);
    ResetsMeaning(acc);
    RatioMeaning(acc.fiveHourResetSec, resets.0, now, WINDOW_5H_SECS);
    RatioMeaning(acc.weeklyResetSec, resets.1, now, WINDOW_7D_SECS);
    hide IsRatio, ResetRatio, SumOf, MinOf, FractionsOf, ResetsOf, ResetsBelong;
    var p5, p7 := PaceOf(f.q5, five), PaceOf(f.q7, week);
    if f.q5.Some? || f.q7.Some? {
      MinOfKnown(f.q5, f.q7);
      MinOfKnown(p5, p7);
      SumOfKnown(p5, p7);
    }
  }

  lemma ResetsMeaning(acc: Account)
    ensures ResetsBelong(acc, ResetsOf(acc).0, ResetsOf(acc).1)
  {}

  /** Zero without an update time, one when a window has been reset since or the
      data is older than five minutes, otherwise two. */
  lemma FreshnessMeaning(acc: Account, now: real)
    ensures var lq, r := acc.lastQuota, FreshnessRank(acc, now);
            && (r == 0 <==> lq.None? || lq.value.updatedAt.None? || lq.value.updatedAt.value <= 0)
            && (r == 1 <==> r != 0 && (now - lq.value.updatedAt.value as real > 300.0
                                       || HasPassed(lq.value.fiveHour, now) || HasPassed(lq.value.weekly, now)))
            && 0 <= r <= 2
  {}

  ghost predicate HasPassed(w: Option<Window>, now: real) {
    exists t :: w.Some? && w.value.resetTime == Some(t) && t <= now
  }

  /** The tier of an account, from its fractions and its cooldown. */
  lemma TierMeaning(acc: Account, now: real)
    ensures var t, c := TierOf(acc, now), ComputeCapacity(acc, now);
            var cooling := exists u :: acc.rateLimitedUntil == Some(u) && u > now;
            var depleted := exists q :: (c.q5 == Some(q) || c.q7 == Some(q)) && q <= 0.005;
            var short := exists q :: (c.q5Known && c.q5 == Some(q) && q <= 0.15)
                                     || (c.q7Known && c.q7 == Some(q) && q <= 0.10);
            && (t == Cooldown <==> cooling)
            && (t == Depleted <==> !cooling && depleted)
            && (t == Reserve <==> !cooling && !depleted && short)
            && (t == Healthy <==> !cooling && !depleted && !short)
  {
    CapacityMeaning(acc, now);
    hide ComputeCapacity;
    var c := ComputeCapacity(acc, now);
    if c.q5.Some? { assert c.q5 == Some(c.q5.value); }
    if c.q7.Some? { assert c.q7 == Some(c.q7.value); }
  }

  // ---------- Who comes first ----------

  ghost predicate PaceOver(p: Pace, q: Pace) { p.Fin? && (q.NegInf? || p.value > q.value) }

  /** The first difference decides: more known windows, fresher data, larger worst pace,
      larger total pace, larger floor. */
  ghost predicate HasMore(a: Account, b: Account, now: real) {
    var x, y := ComputeCapacity(a, now), ComputeCapacity(b, now);
    || x.knownWindowCount > y.knownWindowCount
    || (x.knownWindowCount == y.knownWindowCount
        && (|| FreshnessRank(a, now) > FreshnessRank(b, now)
            || (FreshnessRank(a, now) == FreshnessRank(b, now)
                && (|| PaceOver(x.worstPace, y.worstPace)
                    || (x.worstPace == y.worstPace
                        && (|| PaceOver(x.totalPace, y.totalPace)
                            || (x.totalPace == y.totalPace && x.rawFloor > y.rawFloor)))))))
  }

  ghost predicate HasEqual(a: Account, b: Account, now: real) {
    var x, y := ComputeCapacity(a, now), ComputeCapacity(b, now);
    && x.knownWindowCount == y.knownWindowCount && FreshnessRank(a, now) == FreshnessRank(b, now)
    && x.worstPace == y.worstPace && x.totalPace == y.totalPace && x.rawFloor == y.rawFloor
  }

  /** The requests an account has served: its generations when they are counted. */
  ghost predicate HasServed(a: Account, hits: int) {
    if a.genCount.Some? then a.genCount == Some(hits) else a.requestCount == hits
  }

  ghost predicate ServedFewer(a: Account, b: Account) {
    exists m, n :: HasServed(a, m) && HasServed(b, n) && m < n
  }

  ghost predicate ServedEqually(a: Account, b: Account) {
    exists m :: HasServed(a, m) && HasServed(b, m)
  }

  lemma ComparisonMeaning(a: Account, b: Account, now: real)
    ensures CompareCapacity(a, b, now) < 0 <==> HasMore(a, b, now)
    ensures CompareCapacity(a, b, now) == 0 <==> HasEqual(a, b, now)
    ensures Hits(a) < Hits(b) <==> ServedFewer(a, b)
    ensures Hits(a) == Hits(b) <==> ServedEqually(a, b)
  {
    hide ComputeCapacity, FreshnessRank;
    assert HasServed(a, Hits(a)) && HasServed(b, Hits(b));
  }

  ghost predicate Beats(a: Account, b: Account, strategy: string, now: real) {
    if strategy == "least_used" then
      || ServedFewer(a, b)
      || (ServedEqually(a, b) && (HasMore(a, b, now) || (HasEqual(a, b, now) && Less(a.id, b.id))))
    else HasMore(a, b, now) || (HasEqual(a, b, now) && ServedFewer(a, b))
  }

  ghost predicate BeatsDepleted(a: Account, b: Account, now: real) {
    var x, y := ComputeCapacity(a, now).rawFloor, ComputeCapacity(b, now).rawFloor;
    x > y || (x == y && ServedFewer(a, b))
  }

  lemma ComparatorsMeaning(a: Account, b: Account, now: real)
    ensures LeastUsedBefore(a, b, now) <==> Beats(a, b, "least_used", now)
    ensures MaxQuotaBefore(a, b, now) <==> Beats(a, b, "max_quota", now)
    ensures DepletedBefore(a, b, now) <==> BeatsDepleted(a, b, now)
  {
    ComparisonMeaning(a, b, now);
    hide CompareCapacity, Hits, ServedFewer, ServedEqually, HasMore, HasEqual, ComputeCapacity;
  }

  /** An account that beats another of its tier is earlier, and so are two that beat
      neither when the input has them that way round. */
  ghost predicate OrderedIn(ts: set<Tier>, r: seq<Account>, now: real, beats: (Account, Account) -> bool) {
    forall i, j :: 0 <= i < j < |r| && TierOf(r[i], now) in ts && TierOf(r[j], now) in ts ==> !beats(r[j], r[i])
  }

  lemma SortedPartIsOrdered(front: seq<Account>, part: seq<Account>, back: seq<Account>, ts: set<Tier>, now: real,
                            before: Before)
    requires Sorted(part, before)
    requires forall a :: a in front || a in back ==> TierOf(a, now) !in ts
    ensures OrderedIn(ts, front + part + back, now, before)
  {
    hide TierOf;
    var r := front + part + back;
    forall i | 0 <= i < |r|
      ensures TierOf(r[i], now) in ts ==> |front| <= i < |front| + |part|
    {
      if i < |front| { assert r[i] in front; }
      if |front| + |part| <= i { assert r[i] in back; }
    }
  }

  /** Under max_quota the better account comes first among the healthy, and likewise
      among the reserve accounts. */
  lemma MaxQuotaPositions(cs: seq<Option<Account>>, strategy: string, cursor: Option<string>, now: real, i: int, j: int)
    requires strategy != "least_used" && strategy != "round_robin"
    requires var r := Order(cs, strategy, cursor, now);
             0 <= i < j < |r| && TierOf(r[i], now) == TierOf(r[j], now) && IsEligible(TierOf(r[i], now))
    ensures var r := Order(cs, strategy, cursor, now);
            !Beats(r[j], r[i], "max_quota", now)
  {
    hide OfTiers, StableSort, Present, TierOf, OrderEligible;
    var s, r := Present(cs), Order(cs, strategy, cursor, now);
    var healthy, reserve, later := MaxQuotaParts(cs, strategy, cursor, now);
    SortedPartIsOrdered([], healthy, reserve + later, {Healthy}, now, ByMaxQuota(now));
    SortedPartIsOrdered(healthy, reserve, later, {Reserve}, now, ByMaxQuota(now));
    assert r == [] + healthy + (reserve + later) && r == healthy + reserve + later;
    assert !ByMaxQuota(now)(r[j], r[i]);
    ComparatorsMeaning(r[j], r[i], now);
  }

  lemma MaxQuotaParts(cs: seq<Option<Account>>, strategy: string, cursor: Option<string>, now: real)
    returns (healthy: seq<Account>, reserve: seq<Account>, later: seq<Account>)
    requires DefaultsToMaxQuota(strategy)
    ensures Order(cs, strategy, cursor, now) == healthy + reserve + later
    ensures Sorted(healthy, ByMaxQuota(now)) && AllInTiers(healthy, {Healthy}, now)
    ensures Sorted(reserve, ByMaxQuota(now)) && AllInTiers(reserve, {Reserve}, now)
    ensures AllInTiers(later, {Depleted, Cooldown}, now)
  {
    hide OfTiers, StableSort, Present, TierOf, StrictWeakOrder, Sorted;
    var s := Present(cs);
    healthy := StableSort(OfTiers(s, {Healthy}, now), ByMaxQuota(now));
    reserve := StableSort(OfTiers(s, {Reserve}, now), ByMaxQuota(now));
    var depleted, cooling := StableSort(OfTiers(s, {Depleted}, now), ByDepleted(now)), OfTiers(s, {Cooldown}, now);
    later := depleted + cooling;
    MaxQuotaIsStrictWeak(now);
    DepletedIsStrictWeak(now);
    SortedPart(s, {Healthy}, ByMaxQuota(now), now);
    SortedPart(s, {Reserve}, ByMaxQuota(now), now);
    SortedPart(s, {Depleted}, ByDepleted(now), now);
    assert multiset(cooling) == multiset(OfTiers(s, {Cooldown}, now));
    PermutationKeepsTiers(s, cooling, {Cooldown}, now);
    assert Order(cs, strategy, cursor, now) == healthy + reserve + later;
  }

  /** Under least_used the better account comes first among the eligible ones. */
  lemma LeastUsedPositions(cs: seq<Option<Account>>, cursor: Option<string>, now: real, i: int, j: int)
    requires var r := Order(cs, "least_used", cursor, now);
             0 <= i < j < |r| && IsEligible(TierOf(r[i], now)) && IsEligible(TierOf(r[j], now))
    ensures var r := Order(cs, "least_used", cursor, now);
            !Beats(r[j], r[i], "least_used", now)
  {
    hide OfTiers, StableSort, Present, TierOf;
    var s, r := Present(cs), Order(cs, "least_used", cursor, now);
    var first := StableSort(Eligible(s, now), ByLeastUsed(now));
    var depleted, cooling := StableSort(OfTiers(s, {Depleted}, now), ByDepleted(now)), OfTiers(s, {Cooldown}, now);
    LeastUsedIsStrictWeak(now);
    DepletedIsStrictWeak(now);
    SortedPart(s, {Healthy, Reserve}, ByLeastUsed(now), now);
    SortedPart(s, {Depleted}, ByDepleted(now), now);
    PermutationKeepsTiers(s, cooling, {Cooldown}, now);
    SortedPartIsOrdered([], first, depleted + cooling, {Healthy, Reserve}, now, ByLeastUsed(now));
    assert r == [] + first + (depleted + cooling);
    assert !ByLeastUsed(now)(r[j], r[i]);
    ComparatorsMeaning(r[j], r[i], now);
  }

  /** Whatever the strategy, the depleted account with more left comes first. */
  lemma DepletedPositions(cs: seq<Option<Account>>, strategy: string, cursor: Option<string>, now: real, i: int, j: int)
    requires var r := Order(cs, strategy, cursor, now);
             0 <= i < j < |r| && TierOf(r[i], now) == TierOf(r[j], now) == Depleted
    ensures var r := Order(cs, strategy, cursor, now);
            !BeatsDepleted(r[j], r[i], now)
  {
    hide OfTiers, StableSort, Present, TierOf, OrderEligible;
    var s, r := Present(cs), Order(cs, strategy, cursor, now);
    var first := OrderEligible(s, strategy, cursor, now);
    var depleted, cooling := StableSort(OfTiers(s, {Depleted}, now), ByDepleted(now)), OfTiers(s, {Cooldown}, now);
    DepletedIsStrictWeak(now);
    OrderEligiblePermutes(s, strategy, cursor, now);
    PermutationKeepsTiers(s, first, {Healthy, Reserve}, now);
    SortedPart(s, {Depleted}, ByDepleted(now), now);
    PermutationKeepsTiers(s, cooling, {Cooldown}, now);
    SortedPartIsOrdered(first, depleted, cooling, {Depleted}, now, ByDepleted(now));
    assert r == first + depleted + cooling;
    assert !ByDepleted(now)(r[j], r[i]);
    ComparatorsMeaning(r[j], r[i], now);
  }

  // ---------- The input order ----------

  /** Tiers and selection keep the input's order: what is picked from a list is what is picked from its
      front followed by what is picked from its back, and a single account is picked or not. */
  lemma {:induction false} TiersKeepOrder(s: seq<Account>, t: seq<Account>, ts: set<Tier>, now: real)
    ensures OfTiers(s + t, ts, now) == OfTiers(s, ts, now) + OfTiers(t, ts, now)
    ensures |t| == 1 ==> OfTiers(t, ts, now) == if TierOf(t[0], now) in ts then t else []
    decreases |t|
  {
    hide TierOf;
    if t == [] {
      assert s + t == s;
    } else {
      var n := |t| - 1;
      assert (s + t)[..|s + t| - 1] == s + t[..n];
      TiersKeepOrder(s, t[..n], ts, now);
      if n == 0 { assert t == [t[0]] && t[..0] == []; }
    }
  }

  lemma {:induction false} SelectionKeepsOrder(cs: seq<Option<Account>>, ds: seq<Option<Account>>)
    ensures Present(cs + ds) == Present(cs) + Present(ds)
    ensures ds == [None] ==> Present(ds) == []
    ensures |ds| == 1 && ds[0].Some? ==>
              Present(ds) ==
                if ds[0].value.status == "validation_required" || ds[0].value.status == "auth_error" then []
                else [ds[0].value]
    decreases |ds|
  {
    if ds == [] {
      assert cs + ds == cs;
    } else {
      var n := |ds| - 1;
      assert (cs + ds)[..|cs + ds| - 1] == cs + ds[..n];
      SelectionKeepsOrder(cs, ds[..n]);
      if n == 0 { assert ds[..0] == []; }
    }
  }
}
