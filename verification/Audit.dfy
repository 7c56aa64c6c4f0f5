/** The routing auditor as a second specification of the candidate order. */
module Audit {
  import opened Common
  import opened Capacity
  import opened Scheduler
  import opened Ordering

  // ---------- The frozen event ----------

  datatype Class = ClassHealthy | ClassReserve | ClassDepleted | ClassUnknown

  /** The classification frozen with a dispatch; a cooldown plays no part in it. */
  function Classify(a: Account, now: real): Class {
    var c := ComputeCapacity(a, now);
    if c.isDepleted then ClassDepleted
    else if IsReserveCapacity(c) then ClassReserve
    else if c.knownWindowCount > 0 || c.legacyFractionKnown then ClassHealthy
    else ClassUnknown
  }

  datatype RoutingEvent = RoutingEvent(
    strategy: string, account: string, classification: Class,
    healthyCount: nat, healthyCandidates: seq<string>, reserveCount: nat, reserveCandidates: seq<string>)

  type Display = Account -> string

  /** Whether the selection context lists the account, and under which class. */
  predicate Listed(c: Option<Account>, class_: Class, now: real) {
    c.Some? && !IsRestricted(c.value) && !InCooldown(c.value, now) && Classify(c.value, now) == class_
  }

  function Names(cs: seq<Option<Account>>, class_: Class, now: real, display: Display): seq<string> {
    if cs == [] then [] else
      var c, rest := cs[|cs| - 1], Names(cs[..|cs| - 1], class_, now, display);
      if Listed(c, class_, now) then rest + [display(c.value)] else rest
  }

  /** The selection context HandleProxy builds before the first dispatch. */
  method BuildContext(cs: seq<Option<Account>>, now: real, display: Display)
    returns (healthy: seq<string>, reserve: seq<string>)
    ensures healthy == Names(cs, ClassHealthy, now, display) && reserve == Names(cs, ClassReserve, now, display)
  {
    hide ComputeCapacity, IsReserveCapacity;
    healthy, reserve := [], [];
    for i := 0 to |cs|
      invariant healthy == Names(cs[..i], ClassHealthy, now, display)
                && reserve == Names(cs[..i], ClassReserve, now, display)
    {
      assert cs[..i + 1][..i] == cs[..i];
      if cs[i].None? { continue; }
      var a := cs[i].value;
      if a.status == "validation_required" || a.status == "auth_error" { continue; }
      if InCooldown(a, now) { continue; }
      var c := ComputeCapacity(a, now);
      if c.isDepleted { continue; }
      if IsReserveCapacity(c) { reserve := reserve + [display(a)]; }
      else if c.knownWindowCount > 0 || c.legacyFractionKnown { healthy := healthy + [display(a)]; }
    }
    assert cs[..|cs|] == cs;
  }

  function Freeze(cs: seq<Option<Account>>, strategy: string, a: Account, now: real, display: Display): RoutingEvent {
    var healthy, reserve := Names(cs, ClassHealthy, now, display), Names(cs, ClassReserve, now, display);
    RoutingEvent(strategy, display(a), Classify(a, now), |healthy|, healthy, |reserve|, reserve)
  }

  // ---------- The verdict ----------

  datatype Verdict = Pass | Warning | Violation

  predicate EqualFold(a: string, b: string) { Lower(a) == Lower(b) }

  predicate UsesMaxQuota(ev: RoutingEvent) { ev.strategy == "" || ev.strategy == STRATEGY_MAX_QUOTA }

  predicate ReportsHealthy(ev: RoutingEvent) { ev.healthyCount > 0 || ev.healthyCandidates != [] }

  predicate ReportsReserve(ev: RoutingEvent) { ev.reserveCount > 0 || ev.reserveCandidates != [] }

  /** A reserve account is blamed for any reported healthy one, a depleted account
      for any reported healthy or reserve one. */
  predicate IsViolation(ev: RoutingEvent) {
    && UsesMaxQuota(ev)
    && ((ev.classification == ClassReserve && ReportsHealthy(ev)) ||
        (ev.classification == ClassDepleted && (ReportsHealthy(ev) || ReportsReserve(ev))))
  }

  /** EvaluateFrozenRoutingEvent. */
  method Evaluate(ev: RoutingEvent) returns (v: Verdict)
    ensures v == Violation <==> IsViolation(ev)
    ensures v == Warning <==> UsesMaxQuota(ev) && ev.classification == ClassUnknown
  {
    var strategy := if ev.strategy == "" then STRATEGY_MAX_QUOTA else ev.strategy;
    var healthyCount, reserveCount := ev.healthyCount, ev.reserveCount;
    if healthyCount == 0 && |ev.healthyCandidates| > 0 { healthyCount := |ev.healthyCandidates|; }
    if reserveCount == 0 && |ev.reserveCandidates| > 0 { reserveCount := |ev.reserveCandidates|; }
    if strategy != STRATEGY_MAX_QUOTA { return Pass; }
    match ev.classification
    case ClassHealthy => return Pass;
    case ClassReserve =>
      var hasOtherHealthy := false;
      for i := 0 to |ev.healthyCandidates|
        invariant hasOtherHealthy ==> i > 0
      {
        if !EqualFold(ev.healthyCandidates[i], ev.account) {
          hasOtherHealthy := true;
          break;
        }
      }
      if !hasOtherHealthy && healthyCount > 0 { hasOtherHealthy := true; }
      return if hasOtherHealthy then Violation else Pass;
    case ClassDepleted =>
      return if healthyCount > 0 || |ev.healthyCandidates| > 0 || reserveCount > 0
        || |ev.reserveCandidates| > 0 then Violation else Pass;
    case ClassUnknown => return Warning;
  }

  // ---------- Scheduler against auditor ----------

  lemma {:induction false} NamesMeaning(cs: seq<Option<Account>>, class_: Class, now: real, display: Display)
    ensures Names(cs, class_, now, display) != [] <==> exists c :: c in cs && Listed(c, class_, now)
  {
    hide Listed;
    if cs != [] {
      NamesMeaning(cs[..|cs| - 1], class_, now, display);
      assert cs == cs[..|cs| - 1] + [cs[|cs| - 1]];
    }
  }

  lemma {:induction false} PresentMembers(cs: seq<Option<Account>>, a: Account)
    ensures a in Present(cs) <==> Some(a) in cs && !IsRestricted(a)
  {
    hide IsRestricted;
    if cs != [] {
      PresentMembers(cs[..|cs| - 1], a);
      assert cs == cs[..|cs| - 1] + [cs[|cs| - 1]];
    }
  }

  lemma ClassesAndTiers(a: Account, now: real)
    ensures Classify(a, now) == ClassDepleted <==> ComputeCapacity(a, now).isDepleted
    ensures !InCooldown(a, now) && Classify(a, now) == ClassHealthy ==> TierOf(a, now) == Healthy
    ensures !InCooldown(a, now) ==> (Classify(a, now) == ClassReserve <==> TierOf(a, now) == Reserve)
    ensures !InCooldown(a, now) ==> (Classify(a, now) == ClassDepleted <==> TierOf(a, now) == Depleted)
    ensures InCooldown(a, now) <==> TierOf(a, now) == Cooldown
  {
    hide ComputeCapacity;
  }

  /** The candidates that come first and are of a class the auditor prefers. */
  predicate Better(a: Account, than: Class, now: real) {
    && !InCooldown(a, now)
    && match than
       case ClassReserve => Classify(a, now) == ClassHealthy
       case ClassDepleted => Classify(a, now) == ClassHealthy || Classify(a, now) == ClassReserve
       case _ => false
  }

  /** Attempt k is judged a violation exactly when max_quota is in force and an
      attempt before it went to a better account: only failover can cause one. */
  lemma ViolationMeansFailover(cs: seq<Option<Account>>, strategy: string, cursor: Option<string>, now: real,
                               display: Display, k: nat)
    requires k < |Order(cs, strategy, cursor, now)|
    ensures var r := Order(cs, strategy, cursor, now);
            IsViolation(Freeze(cs, strategy, r[k], now, display)) <==>
              (strategy == "" || strategy == STRATEGY_MAX_QUOTA) &&
              exists j :: 0 <= j < k && Better(r[j], Classify(r[k], now), now)
  {
    hide Order, Freeze, Better;
    var r := Order(cs, strategy, cursor, now);
    if IsViolation(Freeze(cs, strategy, r[k], now, display)) {
      BetterIsEarlier(cs, strategy, cursor, now, display, k);
    }
    if (strategy == "" || strategy == STRATEGY_MAX_QUOTA) &&
       exists j :: 0 <= j < k && Better(r[j], Classify(r[k], now), now) {
      var j :| 0 <= j < k && Better(r[j], Classify(r[k], now), now);
      BetterIsBlamed(cs, strategy, cursor, now, display, j, k);
    }
  }

  lemma BetterIsEarlier(cs: seq<Option<Account>>, strategy: string, cursor: Option<string>, now: real, display: Display,
                        k: nat)
    requires k < |Order(cs, strategy, cursor, now)|
    requires IsViolation(Freeze(cs, strategy, Order(cs, strategy, cursor, now)[k], now, display))
    ensures strategy == "" || strategy == STRATEGY_MAX_QUOTA
    ensures var r := Order(cs, strategy, cursor, now);
            exists j :: 0 <= j < k && Better(r[j], Classify(r[k], now), now)
  {
    hide Order, Classify, Present, IsRestricted;
    var r := Order(cs, strategy, cursor, now);
    var class_ := Classify(r[k], now);
    OrderIsPermutation(cs, strategy, cursor, now);
    OrderRespectsTiers(cs, strategy, cursor, now);
    NamesMeaning(cs, ClassHealthy, now, display);
    NamesMeaning(cs, ClassReserve, now, display);
    ClassesAndTiers(r[k], now);
    var c :| c in cs && (Listed(c, ClassHealthy, now) || (class_ == ClassDepleted && Listed(c, ClassReserve, now)));
    var j := IndexOfListed(cs, r, c, now);
    ClassesAndTiers(r[j], now);
    hide TierOf, InCooldown, Names;
    assert Better(r[j], class_, now);
    assert j > k ==> Rank(TierOf(r[k], now), strategy) <= Rank(TierOf(r[j], now), strategy);
  }

  lemma BetterIsBlamed(cs: seq<Option<Account>>, strategy: string, cursor: Option<string>, now: real, display: Display,
                       j: nat, k: nat)
    requires j < k < |Order(cs, strategy, cursor, now)| && (strategy == "" || strategy == STRATEGY_MAX_QUOTA)
    requires Better(Order(cs, strategy, cursor, now)[j], Classify(Order(cs, strategy, cursor, now)[k], now), now)
    ensures IsViolation(Freeze(cs, strategy, Order(cs, strategy, cursor, now)[k], now, display))
  {
    hide Order, Classify, Present, IsRestricted, InCooldown;
    var r := Order(cs, strategy, cursor, now);
    OrderIsPermutation(cs, strategy, cursor, now);
    NamesMeaning(cs, ClassHealthy, now, display);
    NamesMeaning(cs, ClassReserve, now, display);
    hide Names;
    assert r[j] in multiset(r);
    PresentMembers(cs, r[j]);
    assert Listed(Some(r[j]), Classify(r[j], now), now);
  }

  lemma IndexOfListed(cs: seq<Option<Account>>, r: seq<Account>, c: Option<Account>, now: real) returns (j: nat)
    requires multiset(r) == multiset(Present(cs)) && c in cs && c.Some? && !IsRestricted(c.value)
    ensures j < |r| && r[j] == c.value
  {
    PresentMembers(cs, c.value);
    assert c.value in multiset(Present(cs));
    assert c.value in r;
    j :| 0 <= j < |r| && r[j] == c.value;
  }

  /** The event frozen for the first dispatch of a generation is never a violation. */
  lemma FirstAttemptIsNeverViolation(cs: seq<Option<Account>>, strategy: string, cursor: Option<string>, now: real,
                                     display: Display)
    requires Order(cs, strategy, cursor, now) != []
    ensures !IsViolation(Freeze(cs, strategy, Order(cs, strategy, cursor, now)[0], now, display))
  {
    ViolationMeansFailover(cs, strategy, cursor, now, display, 0);
  }

  // ---------- A violation ----------

  /** An account whose five-hour window has the given fraction left. */
  function Sample(id: string, fraction: real): Account {
    var window := Window(Some(fraction), None);
    Account(id, id, "", None, 0, None, Some(LastQuota(Some(window), None, None, None, None)), None, None, None, None,
      None, None, None)
  }

  lemma SampleTiers(now: real)
    ensures Classify(Sample("h", 1.0), now) == ClassHealthy && TierOf(Sample("h", 1.0), now) == Healthy
    ensures Classify(Sample("d", 0.0), now) == ClassDepleted && TierOf(Sample("d", 0.0), now) == Depleted
  {
    var h, d := Sample("h", 1.0), Sample("d", 0.0);
    CapacityMeaning(h, now);
    CapacityMeaning(d, now);
    assert FractionsOf(h) == Fractions(Some(1.0), None, false) && FractionsOf(d) == Fractions(Some(0.0), None, false);
  }

  lemma PresentPair(a: Account, b: Account)
    requires !IsRestricted(a) && !IsRestricted(b)
    ensures Present([Some(a), Some(b)]) == [a, b]
  {
    hide IsRestricted;
    assert [Some(a), Some(b)][..1] == [Some(a)] && [Some(a)][..0] == [];
    assert Present([Some(a)]) == [a];
  }

  lemma HealthyBeforeDepleted(h: Account, d: Account, cursor: Option<string>, now: real)
    requires !IsRestricted(h) && !IsRestricted(d) && h != d && TierOf(h, now) == Healthy && TierOf(d, now) == Depleted
    ensures Order([Some(d), Some(h)], STRATEGY_MAX_QUOTA, cursor, now) == [h, d]
  {
    hide Order, TierOf, Present, IsRestricted;
    var cs := [Some(d), Some(h)];
    PresentPair(d, h);
    OrderIsPermutation(cs, STRATEGY_MAX_QUOTA, cursor, now);
    OrderRespectsTiers(cs, STRATEGY_MAX_QUOTA, cursor, now);
    var r := Order(cs, STRATEGY_MAX_QUOTA, cursor, now);
    TwoOf(r, d, h);
    assert Rank(TierOf(r[0], now), STRATEGY_MAX_QUOTA) <= Rank(TierOf(r[1], now), STRATEGY_MAX_QUOTA);
  }

  lemma NotCooling(id: string, fraction: real, now: real)
    ensures !InCooldown(Sample(id, fraction), now) && !IsRestricted(Sample(id, fraction))
  {}

  /** Two accounts, one of them depleted: when the first attempt fails over, the second is
      judged a violation although the scheduler kept its own order. */
  lemma FailoverCanBeViolation(cursor: Option<string>, now: real, display: Display)
    ensures exists cs :: |cs| == 2 && |Order(cs, STRATEGY_MAX_QUOTA, cursor, now)| == 2 &&
                         IsViolation(Freeze(cs, STRATEGY_MAX_QUOTA, Order(cs, STRATEGY_MAX_QUOTA, cursor, now)[1], now,
                           display))
  {
    hide Order, Freeze, Classify, TierOf, IsViolation, Sample, InCooldown, IsRestricted;
    var h, d := Sample("h", 1.0), Sample("d", 0.0);
    var cs := [Some(d), Some(h)];
    SampleTiers(now);
    NotCooling("h", 1.0, now);
    NotCooling("d", 0.0, now);
    HealthyBeforeDepleted(h, d, cursor, now);
    assert Better(h, Classify(d, now), now);
    BetterIsBlamed(cs, STRATEGY_MAX_QUOTA, cursor, now, display, 0, 1);
  }

  lemma TwoOf(r: seq<Account>, a: Account, b: Account)
    requires multiset(r) == multiset([a, b]) && a != b
    ensures r == [a, b] || r == [b, a]
  {
    assert |r| == |multiset(r)| == 2;
    assert r == [r[0], r[1]];
    assert r[0] in multiset(r) && r[1] in multiset(r);
    assert multiset([a, b])[a] == 1 && multiset([a, b])[b] == 1;
  }

  // ---------- Classes and names, from the accounts alone ----------

  /** The frozen class: depleted at half a percent, reserve at 15 percent of the five-hour or 10 of
      the weekly window, unknown without any fraction, healthy otherwise. */
  lemma ClassesExactly(a: Account, now: real)
    ensures var t, c := Classify(a, now), ComputeCapacity(a, now);
            var depleted := exists q :: (c.q5 == Some(q) || c.q7 == Some(q)) && q <= 0.005;
            var short := exists q :: ((c.q5Known && c.q5 == Some(q) && q <= 0.15)
                                      || (c.q7Known && c.q7 == Some(q) && q <= 0.10));
            && (t == ClassDepleted <==> depleted)
            && (t == ClassReserve <==> !depleted && short)
            && (t == ClassUnknown <==> c.q5 == None && c.q7 == None)
            && (t == ClassHealthy <==> !depleted && !short && (c.q5 != None || c.q7 != None))
  {
    CapacityMeaning(a, now);
    LegacyIsKnown(a, now);
    hide ComputeCapacity;
    var c := ComputeCapacity(a, now);
    if c.q5.Some? { assert c.q5 == Some(c.q5.value); }
    if c.q7.Some? { assert c.q7 == Some(c.q7.value); }
  }

  lemma LegacyIsKnown(a: Account, now: real)
    ensures var c := ComputeCapacity(a, now);
            (c.legacyFractionKnown ==> c.q5.Some?) && (c.q5Known ==> c.q5.Some?) && (c.q7Known ==> c.q7.Some?)
  {
    hide ResetRatio, SumOf, MinOf;
  }

  /** The place of a candidate the context lists: neither restricted nor cooling down. */
  ghost predicate StandsAt(cs: seq<Option<Account>>, class_: Class, now: real, i: int) {
    && 0 <= i < |cs| && cs[i].Some?
    && cs[i].value.status != "validation_required" && cs[i].value.status != "auth_error"
    && (cs[i].value.rateLimitedUntil.Some? ==> cs[i].value.rateLimitedUntil.value <= now)
    && Classify(cs[i].value, now) == class_
  }

  /** The context names every such candidate once, in the order of the candidates. */
  lemma {:induction false} NamesExactly(cs: seq<Option<Account>>, class_: Class, now: real, display: Display)
    returns (places: seq<nat>)
    ensures forall i :: i in places <==> StandsAt(cs, class_, now, i)
    ensures forall k, l :: 0 <= k < l < |places| ==> places[k] < places[l]
    ensures |places| == |Names(cs, class_, now, display)|
    ensures forall k :: 0 <= k < |places| ==>
              StandsAt(cs, class_, now, places[k]) && Names(cs, class_, now, display)[k] == display(cs[places[k]].value)
  {
    places := [];
    if cs != [] {
      var n := |cs| - 1;
      places := NamesExactly(cs[..n], class_, now, display);
      var before := places;
      assert Listed(cs[n], class_, now) <==> StandsAt(cs, class_, now, n);
      assert forall i :: i < n ==> StandsAt(cs, class_, now, i) == StandsAt(cs[..n], class_, now, i);
      assert forall k :: 0 <= k < |before| ==> before[k] in before && before[k] < n;
      hide StandsAt, Listed, Classify;
      if Listed(cs[n], class_, now) { places := before + [n]; }
      forall i
        ensures i in places <==> StandsAt(cs, class_, now, i)
      {
        if i >= n { PlaceInside(cs, class_, now, i); }
        assert i in before <==> StandsAt(cs[..n], class_, now, i);
        if i in before { PlaceInside(cs[..n], class_, now, i); }
      }
    }
  }

  lemma PlaceInside(cs: seq<Option<Account>>, class_: Class, now: real, i: int)
    ensures StandsAt(cs, class_, now, i) ==> 0 <= i < |cs| && cs[i].Some?
  {}
}
