/** Token refresh under any interleaving: workers that lock, re-read, call upstream
    and persist by compare-and-swap, beside logins, removals and other writers. */
module TokenRefresh {
  import opened Common

  const MARGIN := 120

  datatype Account = Account(id: string, email: string, accessToken: string, refreshToken: string,
                             tokenExpiry: Option<int>)

  /** A usable token answer: `expiresIn` as sent, `refreshToken` possibly empty. */
  datatype Grant = Grant(accessToken: string, refreshToken: string, expiresIn: int)

  /** Where a RefreshToken call is. `Calling` and `Persisting` remember the token pair
      the request was made with; `Persisting` also the copy to fall back to. */
  datatype Phase =
    | Waiting
    | Locked
    | Calling(rf: string, expected: string, now: int)
    | Persisting(rf: string, expected: string, previous: Account)
    | Done(token: Option<string>)

  /** One call: the caller's copy of the account, its lock key and its phase. */
  datatype Worker = Worker(account: Account, key: string, phase: Phase)

  datatype State = State(pool: seq<Account>, locks: map<string, nat>, workers: map<nat, Worker>)

  // ---------- Pieces of RefreshToken ----------

  predicate Matches(stored: Account, account: Account) {
    (account.id != "" && stored.id == account.id) || (account.email != "" && stored.email == account.email)
  }

  /** storage.FindAccount: the first match by ID or email. */
  function FindIndex(pool: seq<Account>, account: Account): (r: Option<nat>)
    ensures r.Some? ==> r.value < |pool| && Matches(pool[r.value], account)
    ensures forall k :: 0 <= k < (if r.Some? then r.value else |pool|) ==> !Matches(pool[k], account)
  {
    if pool == [] then None
    else if Matches(pool[0], account) then Some(0)
    else var r := FindIndex(pool[1..], account); if r.None? then None else Some(r.value + 1)
  }

  function LockKey(a: Account): string {
    if a.id != "" then a.id else if a.email != "" then a.email else a.refreshToken
  }

  predicate StillValid(a: Account, now: int) {
    a.accessToken != "" && a.tokenExpiry.Some? && a.tokenExpiry.value - now > MARGIN
  }

  /** What the caller's copy takes over from the store under the lock. */
  function TakeOver(a: Account, stored: Account): Account {
    a.(accessToken := if stored.accessToken != "" then stored.accessToken else a.accessToken,
       refreshToken := if stored.refreshToken != "" then stored.refreshToken else a.refreshToken,
       tokenExpiry := if stored.tokenExpiry.Some? then stored.tokenExpiry else a.tokenExpiry)
  }

  function Granted(a: Account, g: Grant, now: int): Account {
    a.(accessToken := g.accessToken,
       refreshToken := if g.refreshToken != "" then g.refreshToken else a.refreshToken,
       tokenExpiry := Some(now + if g.expiresIn <= 0 then 3600 else g.expiresIn))
  }

  function Finish(s: State, w: nat, account: Account, token: Option<string>): State
    requires w in s.workers
  {
    s.(locks := s.locks - {s.workers[w].key},
      workers := s.workers[w := s.workers[w].(account := account, phase := Done(token))])
  }

  // ---------- Steps ----------

  datatype Event =
    | Start(w: nat, account: Account, now: int)
    | Acquire(w: nat)
    | Reread(w: nat, loads: bool, now: int)
    | Answer(w: nat, grant: Option<Grant>)
    | Persist(w: nat, commits: bool)
    | Outside(pool: seq<Account>)

  predicate Enabled(s: State, e: Event) {
    match e
    case Start(w, _, _) => w !in s.workers
    case Acquire(w) => w in s.workers && s.workers[w].phase.Waiting? && s.workers[w].key !in s.locks
    case Reread(w, _, _) => w in s.workers && s.workers[w].phase.Locked?
    case Answer(w, g) => w in s.workers && s.workers[w].phase.Calling? && (g.Some? ==> g.value.accessToken != "")
    case Persist(w, _) => w in s.workers && s.workers[w].phase.Persisting?
    case Outside(_) => true
  }

  /** The slot a worker's account resolves to. */
  function SlotOf(s: State, w: nat): Option<nat>
    requires w in s.workers
  {
    FindIndex(s.pool, s.workers[w].account)
  }

  /** Whether the compare-and-swap inside the transaction succeeds. */
  predicate Swaps(s: State, w: nat, commits: bool)
    requires w in s.workers && s.workers[w].phase.Persisting?
  {
    var slot, p := SlotOf(s, w), s.workers[w].phase;
    commits && slot.Some? && s.pool[slot.value].refreshToken == p.rf && s.pool[slot.value].accessToken == p.expected
  }

  /** Whether the re-read leads to an upstream call. */
  predicate Calls(s: State, w: nat, loads: bool, now: int)
    requires w in s.workers
  {
    var slot := SlotOf(s, w);
    loads && slot.Some? &&
    var a := TakeOver(s.workers[w].account, s.pool[slot.value]);
    !StillValid(a, now) && a.refreshToken != ""
  }

  function Apply(s: State, e: Event): State
    requires Enabled(s, e)
  {
    match e
    case Start(w, a, now) =>
      s.(workers := s.workers[w := Worker(a, LockKey(a),
        if StillValid(a, now) then Done(Some(a.accessToken)) else if a.refreshToken == "" then Done(None)
          else Waiting)])
    case Acquire(w) => s.(locks := s.locks[s.workers[w].key := w],
      workers := s.workers[w := s.workers[w].(phase := Locked)])
    case Reread(w, loads, now) =>
      var worker, slot := s.workers[w], SlotOf(s, w);
      if !loads || slot.None? then Finish(s, w, worker.account, None) else
        var a := TakeOver(worker.account, s.pool[slot.value]);
        if StillValid(a, now) then Finish(s, w, a, Some(a.accessToken))
        else if a.refreshToken == "" then Finish(s, w, a, None)
        else s.(workers := s.workers[w := worker.(account := a, phase := Calling(a.refreshToken, a.accessToken, now))])
    case Answer(w, g) =>
      var worker := s.workers[w];
      if g.None? then Finish(s, w, worker.account, None)
      else s.(workers := s.workers[w := worker.(
        account := Granted(worker.account, g.value, worker.phase.now),
        phase := Persisting(worker.phase.rf, worker.phase.expected, worker.account))])
    case Persist(w, commits) =>
      var worker := s.workers[w];
      if Swaps(s, w, commits) then
        var i := SlotOf(s, w).value;
        var a := worker.account;
        var stored := s.pool[i].(
          accessToken := a.accessToken, refreshToken := a.refreshToken, tokenExpiry := a.tokenExpiry);
        Finish(s, w, a, Some(a.accessToken)).(pool := s.pool[i := stored])
      else Finish(s, w, worker.phase.previous, None)
    case Outside(pool) => s.(pool := pool)
  }

  ghost predicate IsRun(states: seq<State>, events: seq<Event>) {
    && |states| == |events| + 1
    && states[0].locks == map[] && states[0].workers == map[]
    && forall i :: 0 <= i < |events| ==> Enabled(states[i], events[i]) && states[i + 1] == Apply(states[i], events[i])
  }

  // ---------- What every step keeps ----------

  predicate HoldsLock(p: Phase) { p.Locked? || p.Calling? || p.Persisting? }

  /** The lock excludes, and a request in flight was made with the copy's own pair. */
  ghost predicate Consistent(s: State) {
    forall w :: w in s.workers ==>
      var worker := s.workers[w];
      && (HoldsLock(worker.phase) ==> worker.key in s.locks && s.locks[worker.key] == w)
      && (worker.phase.Calling? ==>
        worker.phase.rf == worker.account.refreshToken && worker.phase.expected == worker.account.accessToken)
      && (worker.phase.Persisting? ==>
            && worker.phase.rf == worker.phase.previous.refreshToken
              && worker.phase.expected == worker.phase.previous.accessToken
            && worker.account.id == worker.phase.previous.id && worker.account.email == worker.phase.previous.email
            && worker.account.accessToken != "" && worker.account.tokenExpiry.Some?)
  }

  lemma StepKeepsConsistent(s: State, e: Event)
    requires Consistent(s) && Enabled(s, e)
    ensures Consistent(Apply(s, e))
  {
    hide FindIndex, StillValid, LockKey;
    match e
    case Start(w, a, now) =>
    case Acquire(w) =>
    case Reread(w, loads, now) => OthersKeepLocks(s, w);
    case Answer(w, g) => OthersKeepLocks(s, w);
    case Persist(w, commits) => OthersKeepLocks(s, w);
    case Outside(pool) =>
  }

  lemma OthersKeepLocks(s: State, w: nat)
    requires Consistent(s) && w in s.workers && HoldsLock(s.workers[w].phase)
    ensures forall v :: v in s.workers && v != w && HoldsLock(s.workers[v].phase) ==>
              s.workers[v].key != s.workers[w].key
  {}

  lemma {:induction false} RunKeepsConsistent(states: seq<State>, events: seq<Event>, i: nat)
    requires IsRun(states, events) && i < |states|
    ensures Consistent(states[i])
  {
    if i > 0 {
      RunKeepsConsistent(states, events, i - 1);
      StepKeepsConsistent(states[i - 1], events[i - 1]);
    }
  }

  // ---------- Main results ----------

  function Identities(pool: seq<Account>): seq<(string, string)> {
    seq(|pool|, i requires 0 <= i < |pool| => (pool[i].id, pool[i].email))
  }

  /** No step of a refresh adds, removes or renames an account; only a successful
      compare-and-swap changes anything, and only the tokens of one account whose
      stored pair still is the pair the request was made with. */
  lemma RefreshOnlySwapsTokens(states: seq<State>, events: seq<Event>, i: nat)
    requires IsRun(states, events) && i < |events| && !events[i].Outside?
    ensures var s, t := states[i], states[i + 1];
            && Identities(t.pool) == Identities(s.pool)
            && (t.pool != s.pool ==>
                  && events[i].Persist? && events[i].w in s.workers && s.workers[events[i].w].phase.Persisting?
                  && var previous := s.workers[events[i].w].phase.previous;
                     exists k :: 0 <= k < |s.pool|
                       && s.pool[k].accessToken == previous.accessToken
                         && s.pool[k].refreshToken == previous.refreshToken
                       && t.pool == s.pool[k := t.pool[k]])
  {
    RunKeepsConsistent(states, events, i);
    hide FindIndex, StillValid, LockKey, Matches;
  }

  /** One step of a refresh whose request went out. */
  lemma RefreshStepRemembers(s: State, e: Event)
    requires Enabled(s, e) && (e.Answer? || e.Persist?)
    ensures var w, t := e.w, Apply(s, e);
            && w in s.workers && w in t.workers && (s.workers[w].phase.Calling? || s.workers[w].phase.Persisting?)
            && (t.workers[w].phase == Done(None) ==>
                  t.workers[w].account == if s.workers[w].phase.Calling? then s.workers[w].account
                    else s.workers[w].phase.previous)
            && (t.workers[w].phase.Persisting? ==> t.workers[w].phase.previous == s.workers[w].account)
            && (t.workers[w].phase.Done? && t.workers[w].phase.token.Some? ==>
                  && t.workers[w].account == s.workers[w].account
                    && t.workers[w].phase.token.value == s.workers[w].account.accessToken
                  && exists k :: 0 <= k < |t.pool| && t.pool[k].accessToken == t.workers[w].phase.token.value)
  {
    hide FindIndex, StillValid, LockKey;
    var w, t := e.w, Apply(s, e);
    if e.Persist? && Swaps(s, w, e.commits) {
      assert t.pool[SlotOf(s, w).value].accessToken == t.workers[w].phase.token.value;
    }
  }

  /** From its request on a worker remembers the copy the request was made with: it is
      the worker's copy while the call is out and again once the refresh has failed. */
  ghost predicate Remembers(worker: Worker, copy: Account) {
    match worker.phase
    case Calling(rf, expected, _) => worker.account == copy && rf == copy.refreshToken && expected == copy.accessToken
    case Persisting(rf, expected, previous) =>
      previous == copy && rf == copy.refreshToken && expected == copy.accessToken && SameIdentity(worker.account, copy)
    case Done(token) =>
      if token.None? then worker.account == copy
      else worker.account.accessToken == token.value && SameIdentity(worker.account, copy)
    case _ => false
  }

  predicate SameIdentity(a: Account, b: Account) { a.id == b.id && a.email == b.email }

  lemma StepRemembers(s: State, e: Event, w: nat, copy: Account)
    requires Enabled(s, e) && w in s.workers && Remembers(s.workers[w], copy)
    ensures w in Apply(s, e).workers && Remembers(Apply(s, e).workers[w], copy)
  {
    hide FindIndex, StillValid, LockKey;
  }

  /** Over any run: whatever happens after the request went out, a refresh that fails
      leaves the caller with exactly the copy the request was made with. */
  lemma {:induction false} FailureRestoresCopy(states: seq<State>, events: seq<Event>, r: nat, i: nat)
    requires IsRun(states, events) && r < |events| && r < i < |states|
    requires events[r].Reread? && Calls(states[r], events[r].w, events[r].loads, events[r].now)
    ensures var w := events[r].w;
            && w in states[r + 1].workers && states[r + 1].workers[w].phase.Calling? && w in states[i].workers
            && Remembers(states[i].workers[w], states[r + 1].workers[w].account)
  {
    hide Apply, Remembers, FindIndex, Calls;
    var w := events[r].w;
    RequestGoesOut(states[r], w, events[r].loads, events[r].now);
    if i > r + 1 {
      FailureRestoresCopy(states, events, r, i - 1);
      StepRemembers(states[i - 1], events[i - 1], w, states[r + 1].workers[w].account);
    }
  }

  lemma RequestGoesOut(s: State, w: nat, loads: bool, now: int)
    requires Enabled(s, Reread(w, loads, now))
    ensures var t := Apply(s, Reread(w, loads, now));
            && w in t.workers && (Calls(s, w, loads, now) <==> t.workers[w].phase.Calling?)
            && (Calls(s, w, loads, now) ==>
              Remembers(t.workers[w], t.workers[w].account) && !StillValid(t.workers[w].account, now))
  {
    hide FindIndex;
  }

  /** Every request that is out was made at a re-read that found the account stored, with
      a refresh token and without an access token beyond the margin. */
  lemma {:induction false} RequestsAreJustified(states: seq<State>, events: seq<Event>, i: nat, w: nat)
    requires IsRun(states, events) && i < |states| && w in states[i].workers && states[i].workers[w].phase.Calling?
    ensures exists r :: 0 <= r < i && events[r].Reread? && events[r].w == w
                        && Calls(states[r], w, events[r].loads, events[r].now)
                        && states[r + 1].workers[w] == states[i].workers[w]
                        && !StillValid(states[i].workers[w].account, events[r].now)
  {
    hide Apply, FindIndex, Calls, StillValid, Remembers;
    var s, e := states[i - 1], events[i - 1];
    if e.Reread? && e.w == w {
      RequestGoesOut(s, w, e.loads, e.now);
    } else {
      CallingBegins(s, e, w);
      RequestsAreJustified(states, events, i - 1, w);
    }
  }

  lemma CallingBegins(s: State, e: Event, w: nat)
    requires Enabled(s, e) && w in Apply(s, e).workers && Apply(s, e).workers[w].phase.Calling?
    requires !(e.Reread? && e.w == w)
    ensures w in s.workers && s.workers[w] == Apply(s, e).workers[w]
  {
    hide FindIndex, StillValid, LockKey;
  }

  // ---------- No call inside the margin ----------

  /** The access token and expiry stored for an account, however the pool is arranged. */
  function StoredToken(pool: seq<Account>, who: Account): Option<(string, Option<int>)> {
    var x := FindIndex(pool, who);
    if x.None? then None else Some((pool[x.value].accessToken, pool[x.value].tokenExpiry))
  }

  /** A worker that refreshes this account under this lock. */
  predicate Refreshes(s: State, w: nat, who: Account, key: string) {
    w in s.workers && s.workers[w].key == key && SameIdentity(s.workers[w].account, who)
  }

  /** The account has a token that expires at `expiry`, and no worker that refreshes it
      under the lock has a request out. */
  ghost predicate Settled(s: State, who: Account, key: string, expiry: int) {
    && StoredToken(s.pool, who).Some? && StoredToken(s.pool, who).value.0 != ""
      && StoredToken(s.pool, who).value.1 == Some(expiry)
    && forall w :: Refreshes(s, w, who, key) ==> !s.workers[w].phase.Calling? && !s.workers[w].phase.Persisting?
  }

  /** Something else rewrites the account's token or removes the account. Writes that leave
      it alone do not count: other accounts may come, go and change. */
  predicate Interferes(s: State, e: Event, who: Account, key: string)
    requires Enabled(s, e)
  {
    && (e.Outside? || (e.Persist? && !Refreshes(s, e.w, who, key)))
    && StoredToken(Apply(s, e).pool, who) != StoredToken(s.pool, who)
  }

  lemma {:induction false} FindIgnoresTokens(pool: seq<Account>, other: seq<Account>, a: Account, b: Account)
    requires Identities(pool) == Identities(other) && SameIdentity(a, b)
    ensures FindIndex(pool, a) == FindIndex(other, b)
  {
    assert |pool| == |Identities(pool)| == |other|;
    if pool != [] {
      assert Identities(pool)[0] == Identities(other)[0];
      assert Identities(pool)[1..] == Identities(pool[1..]) && Identities(other)[1..] == Identities(other[1..]);
      FindIgnoresTokens(pool[1..], other[1..], a, b);
    }
  }

  lemma SwapSettles(s: State, w: nat, commits: bool)
    requires Consistent(s) && w in s.workers && s.workers[w].phase.Persisting? && Swaps(s, w, commits)
    ensures Settled(Apply(s, Persist(w, commits)), s.workers[w].account, s.workers[w].key,
            s.workers[w].account.tokenExpiry.value)
  {
    hide FindIndex;
    OthersKeepLocks(s, w);
    var t := Apply(s, Persist(w, commits));
    assert Identities(t.pool) == Identities(s.pool);
    FindIgnoresTokens(s.pool, t.pool, s.workers[w].account, s.workers[w].account);
  }

  /** Within the margin at every re-read of the account under the lock. */
  predicate InsideMargin(s: State, e: Event, who: Account, key: string, expiry: int) {
    e.Reread? && Refreshes(s, e.w, who, key) ==> expiry - e.now > MARGIN
  }

  lemma SameAccountSameSlot(s: State, w: nat, who: Account)
    requires w in s.workers && SameIdentity(s.workers[w].account, who)
    ensures SlotOf(s, w) == FindIndex(s.pool, who)
  {
    FindIgnoresTokens(s.pool, s.pool, s.workers[w].account, who);
  }

  /** A holder that finds a token beyond the margin does not call. */
  lemma FindingTokenIsEnough(s: State, w: nat, who: Account, loads: bool, now: int)
    requires w in s.workers && SlotOf(s, w) == FindIndex(s.pool, who)
    requires StoredToken(s.pool, who).Some? && StoredToken(s.pool, who).value.0 != ""
             && StoredToken(s.pool, who).value.1.Some?
    requires StoredToken(s.pool, who).value.1.value - now > MARGIN
    ensures !Calls(s, w, loads, now)
  {
    hide FindIndex;
  }

  /** Only the workers' own steps and the writes that count as interference touch the token. */
  lemma TokenStays(s: State, e: Event, who: Account, key: string, expiry: int)
    requires Enabled(s, e) && Settled(s, who, key, expiry) && !Interferes(s, e, who, key)
    ensures StoredToken(Apply(s, e).pool, who) == StoredToken(s.pool, who)
  {
    hide StoredToken, FindIndex, LockKey, StillValid, SameIdentity;
  }

  /** How a worker comes to have a request out or an answer to store. */
  lemma WorkerStep(s: State, e: Event, v: nat)
    requires Consistent(s) && Enabled(s, e) && v in Apply(s, e).workers
    ensures var t := Apply(s, e).workers[v];
            && (v !in s.workers ==> !t.phase.Calling? && !t.phase.Persisting?)
            && (v in s.workers ==>
                  && t.key == s.workers[v].key && SameIdentity(t.account, s.workers[v].account)
                  && (t.phase.Persisting? ==> s.workers[v].phase.Calling? || s.workers[v].phase.Persisting?)
                  && (t.phase.Calling? ==>
                    s.workers[v].phase.Calling? || (e.Reread? && e.w == v && Calls(s, v, e.loads, e.now))))
  {
    hide FindIndex, StillValid, LockKey;
  }

  lemma StepStaysSettled(s: State, e: Event, who: Account, key: string, expiry: int)
    requires Consistent(s) && Enabled(s, e) && Settled(s, who, key, expiry)
    requires !Interferes(s, e, who, key) && InsideMargin(s, e, who, key, expiry)
    ensures Settled(Apply(s, e), who, key, expiry)
  {
    TokenStays(s, e, who, key, expiry);
    var t := Apply(s, e);
    hide Apply, Calls, Consistent, Interferes, FindIndex, LockKey, StoredToken, SlotOf;
    forall v | Refreshes(t, v, who, key)
      ensures !t.workers[v].phase.Calling? && !t.workers[v].phase.Persisting?
    {
      WorkerStep(s, e, v);
      if v in s.workers && e.Reread? && e.w == v {
        SameAccountSameSlot(s, v, who);
        FindingTokenIsEnough(s, v, who, e.loads, e.now);
      }
    }
  }

  lemma {:induction false} RunStaysSettled(states: seq<State>, events: seq<Event>, i: nat, j: nat, who: Account,
                                           key: string, expiry: int)
    requires IsRun(states, events) && i <= j < |states| && Settled(states[i], who, key, expiry)
    requires forall k :: i <= k < j ==> !Interferes(states[k], events[k], who, key)
    requires forall k :: i <= k < j ==> InsideMargin(states[k], events[k], who, key, expiry)
    ensures Settled(states[j], who, key, expiry)
    decreases j - i
  {
    hide Apply, Settled, Interferes, InsideMargin, Consistent;
    if i < j {
      RunStaysSettled(states, events, i, j - 1, who, key, expiry);
      RunKeepsConsistent(states, events, j - 1);
      StepStaysSettled(states[j - 1], events[j - 1], who, key, expiry);
    }
  }

  /** Once a refresh stored a token, no lock holder that resolves to that account calls
      upstream while more than the margin is left, unless something else rewrote this
      account's token or removed the account in between. */
  lemma NoCallInsideMargin(states: seq<State>, events: seq<Event>, i: nat, j: nat)
    requires IsRun(states, events) && i < j < |events|
    requires events[i].Persist? && Swaps(states[i], events[i].w, events[i].commits)
    requires events[j].Reread?
             && SlotOf(states[j], events[j].w) == FindIndex(states[j].pool, states[i].workers[events[i].w].account)
    requires var worker := states[i].workers[events[i].w];
             forall k :: i < k < j ==>
               && !Interferes(states[k], events[k], worker.account, worker.key)
               && (worker.account.tokenExpiry.Some? ==>
                     InsideMargin(states[k], events[k], worker.account, worker.key, worker.account.tokenExpiry.value))
    ensures var worker := states[i].workers[events[i].w];
            && worker.account.tokenExpiry.Some?
            && (worker.account.tokenExpiry.value - events[j].now > MARGIN ==>
              !Calls(states[j], events[j].w, events[j].loads, events[j].now))
  {
    var w := events[i].w;
    var worker := states[i].workers[w];
    RunKeepsConsistent(states, events, i);
    SwapSettles(states[i], w, events[i].commits);
    var expiry := worker.account.tokenExpiry.value;
    hide Apply, FindIndex, Consistent, Interferes, InsideMargin, Calls, StoredToken;
    RunStaysSettled(states, events, i + 1, j, worker.account, worker.key, expiry);
    if expiry - events[j].now > MARGIN {
      FindingTokenIsEnough(states[j], events[j].w, worker.account, events[j].loads, events[j].now);
    }
  }

  /** Logins, removals and updates of other accounts, and updates of anything but the token
      of this one, are no interference. */
  lemma OtherAccountsMayChange(s: State, who: Account, key: string, before: seq<Account>, x: Account,
                               after: seq<Account>,
                               newBefore: seq<Account>, y: Account, newAfter: seq<Account>)
    requires s.pool == before + [x] + after && Matches(x, who) && Matches(y, who)
    requires forall a :: a in before || a in newBefore ==> !Matches(a, who)
    requires x.accessToken == y.accessToken && x.tokenExpiry == y.tokenExpiry
    ensures !Interferes(s, Outside(newBefore + [y] + newAfter), who, key)
  {
    hide Matches;
    FirstMatch(before, x, after, who);
    FirstMatch(newBefore, y, newAfter, who);
  }

  lemma FirstMatch(before: seq<Account>, x: Account, after: seq<Account>, who: Account)
    requires Matches(x, who) && forall a :: a in before ==> !Matches(a, who)
    ensures FindIndex(before + [x] + after, who) == Some(|before|)
  {
    hide FindIndex, Matches;
    var pool := before + [x] + after;
    assert pool[|before|] == x && forall k :: 0 <= k < |before| ==> pool[k] in before;
  }
}
