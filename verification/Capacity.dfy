/** Reset-aware capacity of an account. Fractions are reals, an unknown pace is
    minus infinity. */
module Capacity {
  import opened Common

  const WINDOW_5H_SECS := 18000.0
  const WINDOW_7D_SECS := 604800.0
  const QUOTA_AGING_MAX_AGE := 300.0
  const DEPLETED_THRESHOLD := 0.005
  const FIVE_HOUR_RESERVE_FLOOR := 0.15
  const WEEKLY_RESERVE_FLOOR := 0.10

  /** A quota window; `resetTime` is the parsed timestamp, None when it has none. */
  datatype Window = Window(fraction: Option<real>, resetTime: Option<real>)

  datatype LastQuota = LastQuota(
    fiveHour: Option<Window>, weekly: Option<Window>,
    remaining: Option<real>, resetTime: Option<real>, updatedAt: Option<int>)

  datatype Account = Account(
    id: string, name: string, status: string, rateLimitedUntil: Option<real>,
    requestCount: int, genCount: Option<int>,
    lastQuota: Option<LastQuota>, quota: Option<real>,
    fiveHourPct: Option<real>, weeklyPct: Option<real>,
    fiveHourReset: Option<real>, weeklyReset: Option<real>,
    fiveHourResetSec: Option<real>, weeklyResetSec: Option<real>)

  /** A pace, or the minus infinity of an account without known windows. */
  datatype Pace = NegInf | Fin(value: real)

  predicate PaceAbove(a: Pace, b: Pace) {
    a.Fin? && (b.NegInf? || a.value > b.value)
  }

  datatype CapacityState = CapacityState(
    q5: Option<real>, q7: Option<real>, worstPace: Pace, totalPace: Pace, rawFloor: real,
    q5Known: bool, q7Known: bool, knownWindowCount: nat, legacyFractionKnown: bool, isDepleted: bool)

  /** ParseQuotaFraction on a number: clamped to the unit interval. */
  function Clamp(f: real): real { if f < 0.0 then 0.0 else if f > 1.0 then 1.0 else f }

  function ClampOption(f: Option<real>): Option<real> { if f.Some? then Some(Clamp(f.value)) else None }

  function WindowFraction(w: Option<Window>): Option<real> { if w.Some? then ClampOption(w.value.fraction) else None }

  function WindowReset(w: Option<Window>): Option<real> { if w.Some? then w.value.resetTime else None }

  function Percent(p: Option<real>): Option<real> { if p.Some? then Some(Clamp(p.value / 100.0)) else None }

  /** How much of the window is left before its reset, at most 1; 1 when unknown or past. */
  function ResetRatio(seconds: Option<real>, reset: Option<real>, now: real, window: real): (r: real)
    requires window > 0.0
    ensures 0.0 < r <= 1.0
    ensures (if seconds.Some? then seconds.value <= 0.0 else reset.None? || reset.value <= now) ==> r == 1.0
  {
    var rem := if seconds.Some? then seconds.value else if reset.Some? then reset.value - now else 0.0;
    if rem <= 0.0 then 1.0 else if rem / window > 1.0 then 1.0 else rem / window
  }

  /** Where the fractions come from: explicit windows first, then a legacy fraction
      that stands for both windows, then legacy percentages. */
  datatype Fractions = Fractions(q5: Option<real>, q7: Option<real>, legacy: bool)

  function FractionsOf(acc: Account): Fractions {
    var lq := acc.lastQuota;
    if lq.Some? && (lq.value.fiveHour.Some? || lq.value.weekly.Some?) then
      Fractions(WindowFraction(lq.value.fiveHour), WindowFraction(lq.value.weekly), false)
    else
      var remaining := if lq.Some? then ClampOption(lq.value.remaining) else None;
      var legacy := if remaining.Some? then remaining else ClampOption(acc.quota);
      if legacy.Some? then Fractions(legacy, legacy, true)
      else Fractions(Percent(acc.fiveHourPct), Percent(acc.weeklyPct), false)
  }

  /** The reset times that go with those fractions. */
  function ResetsOf(acc: Account): (Option<real>, Option<real>) {
    var lq := acc.lastQuota;
    var explicit := lq.Some? && (lq.value.fiveHour.Some? || lq.value.weekly.Some?);
    if FractionsOf(acc).legacy && lq.Some? then (lq.value.resetTime, lq.value.resetTime)
    else if !explicit then (acc.fiveHourReset, acc.weeklyReset)
    else (WindowReset(lq.value.fiveHour), WindowReset(lq.value.weekly))
  }

  function Known(a: Option<real>, b: Option<real>): seq<real> {
    (if a.Some? then [a.value] else []) + (if b.Some? then [b.value] else [])
  }

  function MinOf(s: seq<real>): real
    requires s != []
  {
    if |s| == 1 then s[0] else
      var m := MinOf(s[..|s| - 1]);
      if s[|s| - 1] < m then s[|s| - 1] else m
  }

  lemma MinOfKnown(a: Option<real>, b: Option<real>)
    requires a.Some? || b.Some?
    ensures var m := MinOf(Known(a, b));
            && (a.Some? ==> m <= a.value) && (b.Some? ==> m <= b.value)
            && ((a.Some? && m == a.value) || (b.Some? && m == b.value))
  {
    if a.Some? && b.Some? { assert [a.value, b.value][..1] == [a.value]; }
  }

  function SumOf(s: seq<real>): real {
    if s == [] then 0.0 else SumOf(s[..|s| - 1]) + s[|s| - 1]
  }

  lemma SumOfKnown(a: Option<real>, b: Option<real>)
    ensures SumOf(Known(a, b)) == (if a.Some? then a.value else 0.0) + if b.Some? then b.value else 0.0
  {
    assert SumOf([]) == 0.0;
    var s := Known(a, b);
    if a.Some? && b.Some? {
      assert s[..1] == [a.value] && [a.value][..0] == [];
      assert SumOf([a.value]) == a.value;
    } else if s != [] {
      assert s[..0] == [];
    }
  }

  function PaceOf(q: Option<real>, ratio: real): Option<real> { if q.Some? then Some(q.value - ratio) else None }

  function ComputeCapacity(acc: Account, now: real): CapacityState {
    var f, resets := FractionsOf(acc), ResetsOf(acc);
    var p5 := PaceOf(f.q5, ResetRatio(acc.fiveHourResetSec, resets.0, now, WINDOW_5H_SECS));
    var p7 := PaceOf(f.q7, ResetRatio(acc.weeklyResetSec, resets.1, now, WINDOW_7D_SECS));
    var paces, fractions := Known(p5, p7), Known(f.q5, f.q7);
    var floor := if fractions == [] then 0.0 else MinOf(fractions);
    CapacityState(
      f.q5, f.q7,
      if paces == [] then NegInf else Fin(MinOf(paces)), if paces == [] then NegInf else Fin(SumOf(paces)), floor,
      !f.legacy && f.q5.Some?, !f.legacy && f.q7.Some?,
      if f.legacy then 1 else |fractions|, f.legacy,
      fractions != [] && floor <= DEPLETED_THRESHOLD)
  }

  /** The loops of ComputeCapacityState over the known windows. */
  method MinAndSum(s: seq<real>) returns (min: real, sum: real)
    requires s != []
    ensures min == MinOf(s) && sum == SumOf(s)
  {
    min, sum := s[0], 0.0;
    for i := 0 to |s|
      invariant sum == SumOf(s[..i]) && min == if i == 0 then s[0] else MinOf(s[..i])
    {
      assert s[..i + 1][..i] == s[..i];
      if s[i] < min { min := s[i]; }
      sum := sum + s[i];
    }
    assert s[..|s|] == s;
  }

  /** Missing fractions are never taken for full quota: without any the account has
      no windows, both paces are minus infinity and it is not depleted; otherwise it
      is depleted exactly when a known fraction is at or below the threshold. */
  lemma CapacityMeaning(acc: Account, now: real)
    ensures var c := ComputeCapacity(acc, now);
            && (c.knownWindowCount == 0 <==> c.q5.None? && c.q7.None?)
            && (c.worstPace.NegInf? <==> c.knownWindowCount == 0) && (c.totalPace.NegInf? <==> c.knownWindowCount == 0)
            && (c.isDepleted <==>
              (c.q5.Some? && c.q5.value <= DEPLETED_THRESHOLD) || (c.q7.Some? && c.q7.value <= DEPLETED_THRESHOLD))
            && 0.0 <= c.rawFloor <= 1.0
            && (c.worstPace.Fin? ==> -1.0 <= c.worstPace.value < 1.0 && -2.0 <= c.totalPace.value < 2.0)
  {
    var f := FractionsOf(acc);
    var resets := ResetsOf(acc);
    var p5 := PaceOf(f.q5, ResetRatio(acc.fiveHourResetSec, resets.0, now, WINDOW_5H_SECS));
    var p7 := PaceOf(f.q7, ResetRatio(acc.weeklyResetSec, resets.1, now, WINDOW_7D_SECS));
    assert (f.q5.Some? ==> 0.0 <= f.q5.value <= 1.0) && (f.q7.Some? ==> 0.0 <= f.q7.value <= 1.0)
      && (f.legacy ==> f.q5.Some? && f.q7.Some?);
    hide FractionsOf, ResetsOf, SumOf, ResetRatio, MinOf;
    if f.q5.Some? || f.q7.Some? {
      MinOfKnown(f.q5, f.q7);
      MinOfKnown(p5, p7);
      SumOfKnown(p5, p7);
    }
  }

  // ---------- Freshness ----------

  predicate ResetPassed(w: Option<Window>, now: real) {
    w.Some? && w.value.resetTime.Some? && w.value.resetTime.value <= now
  }

  /** FreshnessRank: fresh and aging 2, stale 1, unknown 0. */
  function FreshnessRank(acc: Account, now: real): int {
    if acc.lastQuota.None? || acc.lastQuota.value.updatedAt.None? || acc.lastQuota.value.updatedAt.value <= 0 then 0
    else
      var lq := acc.lastQuota.value;
      var age := if now - lq.updatedAt.value as real < 0.0 then 0.0 else now - lq.updatedAt.value as real;
      if ResetPassed(lq.fiveHour, now) || ResetPassed(lq.weekly, now) || age > QUOTA_AGING_MAX_AGE then 1 else 2
  }

  // ---------- Tiers ----------

  predicate IsReserveCapacity(c: CapacityState) {
    && !c.isDepleted
    && ((c.q5Known && c.q5.Some? && c.q5.value <= FIVE_HOUR_RESERVE_FLOOR)
        || (c.q7Known && c.q7.Some? && c.q7.value <= WEEKLY_RESERVE_FLOOR))
  }

  predicate IsReserve(acc: Account, now: real) { IsReserveCapacity(ComputeCapacity(acc, now)) }

  predicate IsRestricted(acc: Account) { acc.status == "validation_required" || acc.status == "auth_error" }

  predicate InCooldown(acc: Account, now: real) { acc.rateLimitedUntil.Some? && acc.rateLimitedUntil.value > now }

  function Hits(acc: Account): int { if acc.genCount.Some? then acc.genCount.value else acc.requestCount }
}
