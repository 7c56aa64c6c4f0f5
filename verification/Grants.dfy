/** What a refresh decides and what a granted refresh leaves in the store, step by step
    and over runs, in terms of the accounts and the answers alone. */
module Grants {
  import opened Common
  import opened TokenRefresh

  // ---------- What the steps decide ----------

  /** The first account stored under the ID or, failing that, under the email. */
  ghost predicate IsFirstMatch(pool: seq<Account>, who: Account, k: int) {
    && 0 <= k < |pool| && IsSame(pool[k], who)
    && forall i :: 0 <= i < k ==> !IsSame(pool[i], who)
  }

  predicate IsSame(a: Account, b: Account) { (b.id != "" && a.id == b.id) || (b.email != "" && a.email == b.email) }

  /** A token with more than two minutes to go. */
  predicate IsFresh(a: Account, now: int) {
    a.accessToken != "" && a.tokenExpiry.Some? && a.tokenExpiry.value > now + 120
  }

  lemma FirstMatchIsFound(pool: seq<Account>, who: Account)
    ensures forall k :: IsFirstMatch(pool, who, k) <==> FindIndex(pool, who) == Some(k)
    ensures FindIndex(pool, who).None? <==> forall a :: a in pool ==> !IsSame(a, who)
  {
    var r := FindIndex(pool, who);
    assert forall a :: Matches(a, who) <==> IsSame(a, who);
    hide FindIndex, Matches, IsSame;
    if r.Some? { assert IsFirstMatch(pool, who, r.value) && pool[r.value] in pool; }
  }

  /** `copy` with what the store knows better. */
  ghost predicate IsUpdatedFrom(copy: Account, stored: Account, a: Account) {
    && a.id == copy.id && a.email == copy.email
    && a.accessToken == (if stored.accessToken == "" then copy.accessToken else stored.accessToken)
    && a.refreshToken == (if stored.refreshToken == "" then copy.refreshToken else stored.refreshToken)
    && a.tokenExpiry == (if stored.tokenExpiry == None then copy.tokenExpiry else stored.tokenExpiry)
  }

  /** A call returns a fresh copy's token at once, fails without a refresh token and otherwise waits. */
  lemma StartExactly(s: State, w: nat, a: Account, now: int)
    requires Enabled(s, Start(w, a, now))
    ensures var t := Apply(s, Start(w, a, now));
            && t.pool == s.pool && t.locks == s.locks && w in t.workers && t.workers[w].account == a
            && t.workers[w].phase == (if IsFresh(a, now) then Done(Some(a.accessToken))
                                      else if a.refreshToken == "" then Done(None) else Waiting)
  {}

  /** The re-read under the lock: a fresh stored token is the answer, and only an account that
      is stored, has a refresh token and no fresh access token is refreshed. */
  lemma RereadExactly(s: State, w: nat, loads: bool, now: int, k: int, a: Account)
    requires Enabled(s, Reread(w, loads, now))
    ensures var t, worker := Apply(s, Reread(w, loads, now)), s.workers[w];
            && t.pool == s.pool && w in t.workers
            && (!loads || (forall x :: x in s.pool ==> !IsSame(x, worker.account)) ==>
                  t.workers[w].phase == Done(None) && t.workers[w].account == worker.account)
            && (loads && IsFirstMatch(s.pool, worker.account, k) && IsUpdatedFrom(worker.account, s.pool[k], a) ==>
                  && t.workers[w].account == a
                  && t.workers[w].phase == (if IsFresh(a, now) then Done(Some(a.accessToken))
                                            else if a.refreshToken == "" then Done(None)
                                            else Calling(a.refreshToken, a.accessToken, now)))
  {
    FirstMatchIsFound(s.pool, s.workers[w].account);
    hide FindIndex, IsFirstMatch, IsSame;
  }

  // ---------- What a grant stores ----------

  /** The account as the grant leaves it: rotated when the answer brings a new refresh token,
      valid for an hour when it brings no life time. */
  ghost predicate HoldsGrant(stored: Account, before: Account, used: string, g: Grant, now: int) {
    && stored.id == before.id && stored.email == before.email
    && stored.accessToken == g.accessToken
    && stored.refreshToken == (if g.refreshToken == "" then used else g.refreshToken)
    && stored.tokenExpiry == Some(if g.expiresIn > 0 then now + g.expiresIn else now + 3600)
  }

  /** The worker's request: made at the re-read in step `r` with this refresh and access token. */
  ghost predicate RequestedAt(states: seq<State>, events: seq<Event>, r: int, w: nat, used: string, expected: string,
                              now: int)
  {
    && 0 <= r < |events| && |states| == |events| + 1 && events[r] == Reread(w, true, now) && w in states[r].workers
    && exists k :: IsFirstMatch(states[r].pool, states[r].workers[w].account, k)
                   && var stored, copy := states[r].pool[k], states[r].workers[w].account;
                      && used == (if stored.refreshToken == "" then copy.refreshToken else stored.refreshToken)
                      && expected == (if stored.accessToken == "" then copy.accessToken else stored.accessToken)
  }

  /** The worker's answer: the grant arrived in step `a`. */
  ghost predicate AnsweredAt(events: seq<Event>, a: int, w: nat, g: Grant) {
    0 <= a < |events| && events[a] == Answer(w, Some(g)) && g.accessToken != ""
  }

  /** What a worker that stores a grant carries. */
  ghost predicate CarriesGrant(worker: Worker, used: string, expected: string, g: Grant, now: int) {
    && worker.phase.Persisting? && worker.phase.rf == used && worker.phase.expected == expected
    && HoldsGrant(worker.account, worker.phase.previous, used, g, now)
  }

  lemma StepOfOther(s: State, e: Event, w: nat)
    requires Enabled(s, e) && w in Apply(s, e).workers
    requires Apply(s, e).workers[w].phase.Calling? ==> !(e.Reread? && e.w == w)
    requires Apply(s, e).workers[w].phase.Persisting? ==> !(e.Answer? && e.w == w)
    requires Apply(s, e).workers[w].phase.Calling? || Apply(s, e).workers[w].phase.Persisting?
    ensures w in s.workers && s.workers[w] == Apply(s, e).workers[w]
  {
    hide FindIndex, StillValid, LockKey;
  }

  lemma RequestStep(states: seq<State>, events: seq<Event>, r: nat, w: nat)
    requires IsRun(states, events) && r < |events| && events[r].Reread? && events[r].w == w
    requires w in states[r + 1].workers && states[r + 1].workers[w].phase.Calling?
    ensures var c := states[r + 1].workers[w];
            && c.phase.rf == c.account.refreshToken
            && RequestedAt(states, events, r, w, c.phase.rf, c.phase.expected, c.phase.now)
  {
    FirstMatchIsFound(states[r].pool, states[r].workers[w].account);
    hide FindIndex, StillValid, IsFirstMatch, IsSame;
    var k := SlotOf(states[r], w).value;
    assert IsFirstMatch(states[r].pool, states[r].workers[w].account, k);
  }

  /** Every call that is out was made at a re-read, with the tokens the worker remembers. */
  lemma {:induction false} CallComesFrom(states: seq<State>, events: seq<Event>, i: nat, w: nat) returns (r: nat)
    requires IsRun(states, events) && i < |states| && w in states[i].workers && states[i].workers[w].phase.Calling?
    ensures r < i && states[i].workers[w].phase.rf == states[i].workers[w].account.refreshToken
    ensures var c := states[i].workers[w].phase; RequestedAt(states, events, r, w, c.rf, c.expected, c.now)
  {
    var e := events[i - 1];
    if e.Reread? && e.w == w {
      r := i - 1;
      RequestStep(states, events, r, w);
    } else {
      StepOfOther(states[i - 1], e, w);
      hide Apply, RequestedAt;
      r := CallComesFrom(states, events, i - 1, w);
    }
  }

  lemma AnswerStep(s: State, w: nat, g: Option<Grant>)
    requires Enabled(s, Answer(w, g)) && Apply(s, Answer(w, g)).workers[w].phase.Persisting?
    requires s.workers[w].phase.rf == s.workers[w].account.refreshToken
    ensures g.Some? && g.value.accessToken != ""
    ensures var c := s.workers[w].phase;
            CarriesGrant(Apply(s, Answer(w, g)).workers[w], c.rf, c.expected, g.value, c.now)
  {}

  /** Every worker about to store carries the grant its own request was answered with. */
  lemma {:induction false} GrantComesFrom(states: seq<State>, events: seq<Event>, i: nat, w: nat)
    returns (r: nat, a: nat, g: Grant, now: int)
    requires IsRun(states, events) && i < |states| && w in states[i].workers && states[i].workers[w].phase.Persisting?
    ensures r < a < i && AnsweredAt(events, a, w, g)
    ensures var p := states[i].workers[w].phase;
            && RequestedAt(states, events, r, w, p.rf, p.expected, now)
            && CarriesGrant(states[i].workers[w], p.rf, p.expected, g, now)
  {
    var e := events[i - 1];
    hide RequestedAt;
    if e.Answer? && e.w == w {
      a := i - 1;
      now := states[a].workers[w].phase.now;
      hide Apply;
      r := CallComesFrom(states, events, a, w);
      AnswerStep(states[a], w, e.grant);
      g := e.grant.value;
    } else {
      StepOfOther(states[i - 1], e, w);
      hide Apply;
      r, a, g, now := GrantComesFrom(states, events, i - 1, w);
    }
  }

  /** The store accepts a worker's tokens exactly when the transaction commits and the first
      account that matches still has the pair the request was made with. */
  lemma PersistExactly(s: State, w: nat, commits: bool)
    requires Enabled(s, Persist(w, commits))
    ensures var t, p, who := Apply(s, Persist(w, commits)), s.workers[w].phase, s.workers[w].account;
            var stays := exists k :: (IsFirstMatch(s.pool, who, k)
                                      && s.pool[k].refreshToken == p.rf && s.pool[k].accessToken == p.expected);
            var accepted := commits && stays;
            && w in t.workers
            && t.workers[w].phase == Done(if accepted then Some(who.accessToken) else None)
            && t.workers[w].account == (if accepted then who else p.previous)
            && (!accepted ==> t.pool == s.pool)
            && (accepted ==> forall k :: IsFirstMatch(s.pool, who, k) ==>
                  && |t.pool| == |s.pool| && (forall i :: 0 <= i < |s.pool| && i != k ==> t.pool[i] == s.pool[i])
                  && t.pool[k].id == s.pool[k].id && t.pool[k].email == s.pool[k].email
                  && t.pool[k].accessToken == who.accessToken && t.pool[k].refreshToken == who.refreshToken
                  && t.pool[k].tokenExpiry == who.tokenExpiry)
  {
    FirstMatchIsFound(s.pool, s.workers[w].account);
    hide FindIndex, IsFirstMatch, IsSame;
    var r := SlotOf(s, w);
    if r.Some? { assert IsFirstMatch(s.pool, s.workers[w].account, r.value); }
  }

  /** Over any run a refresh that succeeds stores exactly what its own request was answered:
      the granted access token, the granted refresh token or else the one that was used, and
      an expiry counted from the re-read. Nothing else in the store changes. */
  lemma GrantIsStored(states: seq<State>, events: seq<Event>, p: nat, w: nat, commits: bool, token: string)
    returns (r: nat, a: nat, g: Grant, k: nat, used: string, expected: string, now: int)
    requires IsRun(states, events) && p < |events| && events[p] == Persist(w, commits)
    requires w in states[p + 1].workers && states[p + 1].workers[w].phase == Done(Some(token))
    ensures r < a < p && token == g.accessToken
    ensures RequestedAt(states, events, r, w, used, expected, now) && AnsweredAt(events, a, w, g)
    ensures var before, after := states[p].pool, states[p + 1].pool;
            && k < |before| && after == before[k := after[k]]
            && before[k].refreshToken == used && before[k].accessToken == expected
            && HoldsGrant(after[k], before[k], used, g, now)
  {
    r, a, g, now := GrantComesFrom(states, events, p, w);
    var s := states[p];
    used, expected := s.workers[w].phase.rf, s.workers[w].phase.expected;
    PersistExactly(s, w, commits);
    var i :| IsFirstMatch(s.pool, s.workers[w].account, i) && s.pool[i].refreshToken == used
             && s.pool[i].accessToken == expected;
    k := i;
    hide Apply, RequestedAt, AnsweredAt, IsFirstMatch;
  }

  // ---------- Locks ----------

  /** A worker's lock is named after its account: the ID, or the email without one. */
  ghost predicate NamedLocks(s: State) {
    forall w :: w in s.workers ==>
      var a, key := s.workers[w].account, s.workers[w].key;
      (a.id != "" ==> key == a.id) && (a.id == "" && a.email != "" ==> key == a.email)
  }

  lemma StepKeepsNames(s: State, e: Event)
    requires NamedLocks(s) && Enabled(s, e) && Consistent(s)
    ensures NamedLocks(Apply(s, e))
  {
    hide FindIndex, StillValid;
  }

  lemma {:induction false} RunKeepsNames(states: seq<State>, events: seq<Event>, i: nat)
    requires IsRun(states, events) && i < |states|
    ensures NamedLocks(states[i])
  {
    hide Apply, Enabled;
    if i > 0 {
      RunKeepsNames(states, events, i - 1);
      RunKeepsConsistent(states, events, i - 1);
      hide NamedLocks, Consistent;
      StepKeepsNames(states[i - 1], events[i - 1]);
    }
  }

  predicate IsUnderWay(p: Phase) { !p.Waiting? && !p.Done? }

  /** No two refreshes of one account are ever past their lock together. */
  lemma OneRefreshPerAccount(states: seq<State>, events: seq<Event>, i: nat, v: nat, w: nat)
    requires IsRun(states, events) && i < |states| && v != w && v in states[i].workers && w in states[i].workers
    requires IsUnderWay(states[i].workers[v].phase) && IsUnderWay(states[i].workers[w].phase)
    ensures var a, b := states[i].workers[v].account, states[i].workers[w].account;
            && !(a.id != "" && a.id == b.id)
            && !(a.id == "" && b.id == "" && a.email != "" && a.email == b.email)
  {
    RunKeepsNames(states, events, i);
    RunKeepsConsistent(states, events, i);
    OthersKeepLocks(states[i], w);
  }

  // ---------- Locks are given back ----------

  /** Every lock that is taken is held by a call under way that waited for it. */
  ghost predicate LocksAreHeld(s: State) {
    forall key :: key in s.locks ==>
      && s.locks[key] in s.workers && s.workers[s.locks[key]].key == key
      && IsUnderWay(s.workers[s.locks[key]].phase)
  }

  lemma StepKeepsHeld(s: State, e: Event)
    requires LocksAreHeld(s) && Consistent(s) && Enabled(s, e)
    ensures LocksAreHeld(Apply(s, e))
  {
    hide FindIndex, StillValid, LockKey;
  }

  lemma {:induction false} RunKeepsHeld(states: seq<State>, events: seq<Event>, i: nat)
    requires IsRun(states, events) && i < |states|
    ensures LocksAreHeld(states[i])
  {
    hide Apply, Enabled;
    if i > 0 {
      RunKeepsHeld(states, events, i - 1);
      RunKeepsConsistent(states, events, i - 1);
      hide LocksAreHeld, Consistent;
      StepKeepsHeld(states[i - 1], events[i - 1]);
    }
  }

  /** In every run a waiting call can take its lock exactly when no other call under way has its key:
      every ending, a failed one too, gives the lock back. */
  lemma LocksAreGivenBack(states: seq<State>, events: seq<Event>, i: nat, w: nat)
    requires IsRun(states, events) && i < |states| && w in states[i].workers && states[i].workers[w].phase.Waiting?
    ensures Enabled(states[i], Acquire(w)) <==>
              forall v :: v in states[i].workers && IsUnderWay(states[i].workers[v].phase) ==>
                states[i].workers[v].key != states[i].workers[w].key
  {
    RunKeepsHeld(states, events, i);
    RunKeepsConsistent(states, events, i);
  }
}
