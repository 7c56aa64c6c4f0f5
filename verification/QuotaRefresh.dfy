/** Scheduling of background quota refreshes: one in flight per account, with
    backoff after failures, in every interleaving of schedulers and workers. */
module QuotaRefresh {
  import opened Common

  const BACKOFF := [30, 60, 120, 240, 300]

  /** NextBackoffDelay in seconds. */
  function NextBackoffDelay(attempt: int): int {
    var a := if attempt < 0 then 0 else attempt;
    if a >= |BACKOFF| then BACKOFF[|BACKOFF| - 1] else BACKOFF[a]
  }

  /** The waiting time after the k-th failure in a row. */
  function Wait(k: nat): int
    requires k > 0
  {
    BACKOFF[Min(k - 1, 4)]
  }

  lemma WaitsGrowToACap(j: nat, k: nat)
    requires 0 < j <= k
    ensures 30 <= Wait(j) <= Wait(k) <= 300 && Wait(k) == NextBackoffDelay(k - 1)
    ensures k >= 5 ==> Wait(k) == 300
    ensures Wait(1) == 30 && Wait(2) == 60 && Wait(3) == 120 && Wait(4) == 240
  {
    assert BACKOFF[0] == 30 && BACKOFF[1] == 60 && BACKOFF[2] == 120 && BACKOFF[3] == 240 && BACKOFF[4] == 300;
  }

  datatype Retry = Retry(attempt: nat, nextAt: int)

  /** A worker runs its query, then has recorded its result, then is gone. */
  datatype Worker = Worker(key: string, recorded: bool)

  datatype State = State(inFlight: set<string>, retry: map<string, Retry>, workers: map<nat, Worker>)

  const INITIAL := State({}, map[], map[])

  /** Each event is one critical section under refreshMu. */
  datatype Event =
    | Schedule(key: string, now: int, id: nat)
    | Record(id: nat, key: string, ok: bool, clock: int)
    | Release(id: nat)

  predicate Enabled(s: State, e: Event) {
    match e
    case Schedule(key, _, id) => key != "" && id !in s.workers
    case Record(id, key, _, _) => id in s.workers && s.workers[id].key == key && !s.workers[id].recorded
    case Release(id) => id in s.workers && s.workers[id].recorded
  }

  /** Whether ScheduleQuotaRefresh starts a worker. */
  predicate Starts(s: State, key: string, now: int) {
    key !in s.inFlight && !(key in s.retry && s.retry[key].nextAt > now)
  }

  function Apply(s: State, e: Event): State
    requires Enabled(s, e)
  {
    match e
    case Schedule(key, now, id) =>
      if Starts(s, key, now) then s.(inFlight := s.inFlight + {key}, workers := s.workers[id := Worker(key, false)])
        else s
    case Record(id, key, ok, clock) =>
      var attempt := if key in s.retry then s.retry[key].attempt else 0;
      s.(workers := s.workers[id := Worker(key, true)],
         retry := if ok then s.retry - {key} else s.retry[key := Retry(attempt + 1, clock + NextBackoffDelay(attempt))])
    case Release(id) => s.(inFlight := s.inFlight - {s.workers[id].key}, workers := s.workers - {id})
  }

  ghost predicate IsRun(states: seq<State>, events: seq<Event>) {
    && |states| == |events| + 1 && states[0] == INITIAL
    && forall i :: 0 <= i < |events| ==> Enabled(states[i], events[i]) && states[i + 1] == Apply(states[i], events[i])
  }

  // ---------- History ----------

  predicate Reports(e: Event, key: string) { e.Record? && e.key == key }

  /** Failures in a row at the end of the history of a key. */
  function Streak(events: seq<Event>, key: string): nat {
    if events == [] then 0 else
      var e, before := events[|events| - 1], Streak(events[..|events| - 1], key);
      if !Reports(e, key) then before else if e.ok then 0 else before + 1
  }

  /** The clock at the last recorded result of a key. */
  function LastClock(events: seq<Event>, key: string): int {
    if events == [] then 0 else
      var e := events[|events| - 1];
      if Reports(e, key) then e.clock else LastClock(events[..|events| - 1], key)
  }

  // ---------- The invariant ----------

  ghost predicate OneWorkerPerKey(s: State) {
    && (forall a, b :: a in s.workers && b in s.workers && a != b ==> s.workers[a].key != s.workers[b].key)
    && (forall a :: a in s.workers ==> s.workers[a].key in s.inFlight)
    && (forall key :: key in s.inFlight ==> exists a :: a in s.workers && s.workers[a].key == key)
  }

  /** The retry table says exactly what the history of every key says. */
  ghost predicate TableTellsHistory(s: State, events: seq<Event>) {
    forall key ::
      var k := Streak(events, key);
      && (key in s.retry <==> k > 0)
      && (k > 0 ==> s.retry[key] == Retry(k, LastClock(events, key) + Wait(k)))
  }

  lemma StepKeepsOneWorker(s: State, e: Event)
    requires OneWorkerPerKey(s) && Enabled(s, e)
    ensures OneWorkerPerKey(Apply(s, e))
  {
    var t := Apply(s, e);
    match e
    case Schedule(key, now, id) =>
      if Starts(s, key, now) {
        forall k | k in t.inFlight
          ensures exists a :: a in t.workers && t.workers[a].key == k
        {
          if k == key { assert t.workers[id].key == k; } else {
            var a :| a in s.workers && s.workers[a].key == k;
            assert t.workers[a].key == k;
          }
        }
      }
    case Record(id, key, ok, clock) =>
      forall k | k in t.inFlight
        ensures exists a :: a in t.workers && t.workers[a].key == k
      {
        var a :| a in s.workers && s.workers[a].key == k;
        assert t.workers[a].key == k;
      }
    case Release(id) =>
      forall k | k in t.inFlight
        ensures exists a :: a in t.workers && t.workers[a].key == k
      {
        var a :| a in s.workers && s.workers[a].key == k;
        assert t.workers[a].key == k;
      }
  }

  lemma StepKeepsTable(s: State, e: Event, events: seq<Event>)
    requires TableTellsHistory(s, events) && Enabled(s, e)
    ensures TableTellsHistory(Apply(s, e), events + [e])
  {
    assert (events + [e])[..|events|] == events;
    forall key
      ensures var k := Streak(events + [e], key);
              && (key in Apply(s, e).retry <==> k > 0)
              && (k > 0 ==> Apply(s, e).retry[key] == Retry(k, LastClock(events + [e], key) + Wait(k)))
    {
      var k := Streak(events, key);
      WaitsGrowToACap(k + 1, k + 1);
      hide Wait, NextBackoffDelay;
    }
  }

  lemma {:induction false} RunInvariant(states: seq<State>, events: seq<Event>, i: nat)
    requires IsRun(states, events) && i < |states|
    ensures OneWorkerPerKey(states[i]) && TableTellsHistory(states[i], events[..i])
  {
    if i > 0 {
      RunInvariant(states, events, i - 1);
      StepKeepsOneWorker(states[i - 1], events[i - 1]);
      StepKeepsTable(states[i - 1], events[i - 1], events[..i - 1]);
      assert events[..i] == events[..i - 1] + [events[i - 1]];
    }
  }

  // ---------- Main results ----------

  /** At most one worker per key is ever running, and a new one starts only when the
      previous one has recorded its result and gone. */
  lemma SingleFlight(states: seq<State>, events: seq<Event>, i: nat, a: nat, b: nat)
    requires IsRun(states, events) && i < |states|
    requires a in states[i].workers && b in states[i].workers && states[i].workers[a].key == states[i].workers[b].key
    ensures a == b
    ensures i < |events| && events[i].Schedule? && events[i].key == states[i].workers[a].key ==>
              !Starts(states[i], events[i].key, events[i].now)
  {
    RunInvariant(states, events, i);
  }

  /** A worker starts exactly when none is in flight for its key and the waiting time
      after the k-th failure in a row, counted from when that was recorded, is over;
      after a success there is nothing to wait for. */
  lemma StartsObeyBackoff(states: seq<State>, events: seq<Event>, i: nat)
    requires IsRun(states, events) && i < |events| && events[i].Schedule?
    ensures var key, now := events[i].key, events[i].now;
            var k := Streak(events[..i], key);
            Starts(states[i], key, now) <==>
              (forall a :: a in states[i].workers ==> states[i].workers[a].key != key) &&
              (k > 0 ==> now >= LastClock(events[..i], key) + Wait(k))
  {
    RunInvariant(states, events, i);
    hide Wait, Streak, LastClock;
  }

  // ---------- The waiting time, from the history alone ----------

  ghost predicate FailsAt(events: seq<Event>, key: string, i: int) {
    0 <= i < |events| && events[i].Record? && events[i].key == key && !events[i].ok
  }

  ghost predicate SucceedsAt(events: seq<Event>, key: string, i: int) {
    0 <= i < |events| && events[i].Record? && events[i].key == key && events[i].ok
  }

  /** The failures of a key since its last success. */
  ghost function OpenFailures(events: seq<Event>, key: string): set<int> {
    set i | 0 <= i < |events| && FailsAt(events, key, i) && forall j :: i < j ==> !SucceedsAt(events, key, j)
  }

  lemma OpenFailuresSnoc(events: seq<Event>, e: Event, key: string)
    ensures OpenFailures(events + [e], key) ==
            if SucceedsAt([e], key, 0) then {}
            else OpenFailures(events, key) + if FailsAt([e], key, 0) then {|events|} else {}
  {
    var all := events + [e];
    assert all[|events|] == e;
    forall i: int
      ensures i < |events| ==> FailsAt(all, key, i) == FailsAt(events, key, i)
      ensures i < |events| ==> SucceedsAt(all, key, i) == SucceedsAt(events, key, i)
    {}
    assert SucceedsAt(all, key, |events|) == SucceedsAt([e], key, 0);
    assert FailsAt(all, key, |events|) == FailsAt([e], key, 0);
    assert forall i :: i < |events| ==> (i in OpenFailures(all, key) <==>
                                           i in OpenFailures(events, key) && !SucceedsAt([e], key, 0)) by {
      hide FailsAt;
    }
  }

  lemma {:induction false} StreakCountsFailures(events: seq<Event>, key: string)
    ensures Streak(events, key) == |OpenFailures(events, key)|
  {
    if events == [] {
      assert OpenFailures(events, key) == {};
    } else {
      var front, e := events[..|events| - 1], events[|events| - 1];
      assert events == front + [e];
      StreakCountsFailures(front, key);
      OpenFailuresSnoc(front, e, key);
      assert |front| !in OpenFailures(front, key);
    }
  }

  lemma {:induction false} LastClockIsLast(events: seq<Event>, key: string, i: nat)
    requires FailsAt(events, key, i) && forall j :: i < j ==> !FailsAt(events, key, j) && !SucceedsAt(events, key, j)
    ensures LastClock(events, key) == events[i].clock
  {
    var front, e := events[..|events| - 1], events[|events| - 1];
    if i < |front| {
      assert !FailsAt(events, key, |front|) && !SucceedsAt(events, key, |front|);
      assert forall j :: i < j ==> (FailsAt(front, key, j) ==> FailsAt(events, key, j));
      assert forall j :: i < j ==> (SucceedsAt(front, key, j) ==> SucceedsAt(events, key, j));
      LastClockIsLast(front, key, i);
    }
  }

  /** The last of k failures in a row, which was recorded in step `i`, is younger than 30,
      60, 120, 240 or, from the fifth on, 300 seconds. */
  ghost predicate IsBackingOff(events: seq<Event>, key: string, now: int, i: int) {
    && FailsAt(events, key, i) && (forall j :: i < j ==> !FailsAt(events, key, j) && !SucceedsAt(events, key, j))
    && var k := |OpenFailures(events, key)|;
       now < events[i].clock + (if k == 1 then 30 else if k == 2 then 60 else if k == 3 then 120
                                else if k == 4 then 240 else 300)
  }

  lemma LastFailure(events: seq<Event>, key: string) returns (i: int)
    requires OpenFailures(events, key) != {}
    ensures FailsAt(events, key, i) && forall j :: i < j ==> !FailsAt(events, key, j) && !SucceedsAt(events, key, j)
  {
    i :| i in OpenFailures(events, key);
    i := LatestReport(events, key, |events|, i);
  }

  lemma {:induction false} LatestReport(events: seq<Event>, key: string, n: nat, i: int) returns (l: int)
    requires n <= |events| && i < n && i in OpenFailures(events, key)
    requires forall j :: n <= j ==> !FailsAt(events, key, j) && !SucceedsAt(events, key, j)
    ensures FailsAt(events, key, l) && forall j :: l < j ==> !FailsAt(events, key, j) && !SucceedsAt(events, key, j)
  {
    l := n - 1;
    if i < n - 1 && !FailsAt(events, key, n - 1) {
      assert !SucceedsAt(events, key, n - 1);
      l := LatestReport(events, key, n - 1, i);
    }
  }

  /** A worker starts exactly when no other works for its key and the key is not backing off. */
  lemma StartsExactly(states: seq<State>, events: seq<Event>, i: nat)
    requires IsRun(states, events) && i < |events| && events[i].Schedule? && events[i].id !in states[i].workers
    ensures var key, now := events[i].key, events[i].now;
            var idle := forall a :: a in states[i].workers ==> states[i].workers[a].key != key;
            events[i].id in states[i + 1].workers <==> idle && forall l :: !IsBackingOff(events[..i], key, now, l)
  {
    var key, now, history := events[i].key, events[i].now, events[..i];
    StartsObeyBackoff(states, events, i);
    StreakCountsFailures(history, key);
    var k := Streak(history, key);
    hide IsRun, OneWorkerPerKey, FailsAt, SucceedsAt, Streak, LastClock, OpenFailures;
    if k > 0 {
      WaitsGrowToACap(k, k);
      var l := LastFailure(history, key);
      FailurePlace(history, key, l);
      LastClockIsLast(history, key, l);
      assert now < LastClock(history, key) + Wait(k) <==> IsBackingOff(history, key, now, l);
    }
    BackingOffMeansFailures(history, key, now);
  }

  lemma FailurePlace(events: seq<Event>, key: string, i: int)
    requires FailsAt(events, key, i)
    ensures 0 <= i < |events|
  {}

  lemma BackingOffMeansFailures(events: seq<Event>, key: string, now: int)
    ensures forall l, m :: IsBackingOff(events, key, now, l) && IsBackingOff(events, key, now, m) ==> l == m
    ensures forall l :: IsBackingOff(events, key, now, l) ==> OpenFailures(events, key) != {}
  {
    forall l | IsBackingOff(events, key, now, l)
      ensures OpenFailures(events, key) != {}
    {
      assert l in OpenFailures(events, key);
    }
  }
}
