/** The active account lives in the pool database and in the native token file; the
    operations that change both, with failures injected at every step. */
module TwoStore {
  import opened Common

  datatype Account = Account(id: string, email: string, name: string)

  // ---------- FindAccountByTarget ----------

  /** unicode.IsSpace */
  predicate IsSpace(c: char) {
    var n := c as int;
    || 9 <= n <= 13 || n == 0x20 || n == 0x85 || n == 0xA0 || n == 0x1680 || 0x2000 <= n <= 0x200A
    || n == 0x2028 || n == 0x2029 || n == 0x202F || n == 0x205F || n == 0x3000
  }

  /** strings.TrimSpace */
  function Trim(s: string): string
    decreases |s|
  {
    if s == [] then []
    else if IsSpace(s[0]) then Trim(s[1..])
    else if IsSpace(s[|s| - 1]) then Trim(s[..|s| - 1])
    else s
  }

  predicate IsDigits(s: string) { s != [] && forall i :: 0 <= i < |s| ==> '0' <= s[i] <= '9' }

  function DigitsValue(s: string): nat
    requires forall i :: 0 <= i < |s| ==> '0' <= s[i] <= '9'
  {
    if s == [] then 0 else DigitsValue(s[..|s| - 1]) * 10 + (s[|s| - 1] as int - '0' as int)
  }

  /** The text is a number that fits an int; it is read as a one-based position. */
  predicate IsPosition(text: string) { IsDigits(text) && DigitsValue(text) < TWO_64 / 2 }

  function FindNamed(accounts: seq<Account>, target: string): Option<Account> {
    if accounts == [] then None
    else if accounts[0].id == target || accounts[0].email == target || accounts[0].name == target then Some(accounts[0])
    else FindNamed(accounts[1..], target)
  }

  /** A one-based position, or the first account with that ID, email or name. */
  function FindAccountByTarget(accounts: seq<Account>, target: string): Option<Account> {
    var t := Trim(target);
    if t == "" then None
    else if IsPosition(t) then
      var i := DigitsValue(t) - 1;
      if 0 <= i < |accounts| then Some(accounts[i]) else None
    else FindNamed(accounts, t)
  }

  function FindId(accounts: seq<Account>, id: string): Option<Account> {
    if accounts == [] then None else if accounts[0].id == id then Some(accounts[0]) else FindId(accounts[1..], id)
  }

  function RemoveId(accounts: seq<Account>, id: string): seq<Account> {
    if accounts == [] then [] else
      var rest := RemoveId(accounts[1..], id);
      if accounts[0].id != id then [accounts[0]] + rest else rest
  }

  // ---------- The two stores ----------

  /** `file` is the ID of the account whose credentials the token file holds. */
  datatype Stores = Stores(accounts: seq<Account>, active: Option<string>, file: Option<string>)

  /** The identities agree. */
  predicate InSync(s: Stores) { s.active.Some? ==> s.file == s.active }

  /** IDs are usable as selectors: none is blank, padded or all digits, and none is
      also another account's ID, email or name. */
  ghost predicate WellFormed(accounts: seq<Account>) {
    && (forall i :: 0 <= i < |accounts| ==>
      accounts[i].id != "" && Trim(accounts[i].id) == accounts[i].id && !IsDigits(accounts[i].id))
    && (forall i, j :: 0 <= i < |accounts| && 0 <= j < |accounts| && i != j ==>
          accounts[i].id != accounts[j].id && accounts[i].id != accounts[j].email && accounts[i].id != accounts[j].name)
  }

  ghost predicate Valid(s: Stores) {
    WellFormed(s.accounts) && (s.active.Some? ==> exists a :: a in s.accounts && a.id == s.active.value)
  }

  /** Where failures strike: the refresh or the write of a synchronization, the pool
      transaction, and the synchronization that rolls back. */
  datatype Faults = Faults(sync: bool, tx: bool, rollback: bool)

  /** `pick` is the position that scoring prefers; it matters to an automatic switch only. */
  datatype Operation =
    | Switch(target: string, pick: nat)
    | Remove(target: string)
    | Sync

  datatype Outcome = Succeeded | Failed | RollbackFailed

  predicate IsAuto(target: string) { target == "" || target == "auto" }

  function SelectFor(s: Stores, op: Operation): Option<Account> {
    match op
    case Switch(target, pick) =>
      if !IsAuto(target) then FindAccountByTarget(s.accounts, target)
      else if pick < |s.accounts| then Some(s.accounts[pick]) else None
    case Remove(target) => FindAccountByTarget(s.accounts, target)
    case Sync => if s.active.Some? then FindId(s.accounts, s.active.value) else None
  }

  class AccountManager {
    var accounts: seq<Account>
    var active: Option<string>
    var file: Option<string>

    ghost function State(): Stores
      reads this
    {
      Stores(accounts, active, file)
    }

    constructor (s: Stores)
      ensures State() == s
    {
      accounts, active, file := s.accounts, s.active, s.file;
    }

    /** syncAccountToAgy: refresh if needed, then write the file atomically. */
    method SyncAccountToAgy(a: Account, fails: bool) returns (ok: bool)
      modifies this`file
      ensures ok <==> !fails
      ensures file == if ok then Some(a.id) else old(file)
    {
      if fails { return false; }
      file := Some(a.id);
      ok := true;
    }

    /** switchAccountLocked. `selected` is the resolved or automatically chosen account. */
    method SwitchAccount(op: Operation, f: Faults) returns (r: Outcome)
      requires op.Switch?
      modifies this
      ensures (State(), r) == Perform(old(State()), op, f)
    {
      var selected := SelectFor(Stores(accounts, active, file), op);
      if selected.None? { return Failed; }
      var previous := if active.Some? then FindAccountByTarget(accounts, active.value) else None;
      var ok := SyncAccountToAgy(selected.value, f.sync);
      if !ok { return Failed; }
      var current := FindAccountByTarget(accounts, selected.value.id);
      if !f.tx && current.Some? {
        active := Some(current.value.id);
        return Succeeded;
      }
      if previous.Some? {
        ok := SyncAccountToAgy(previous.value, f.rollback);
        if !ok { return RollbackFailed; }
      }
      r := Failed;
    }

    /** removeAccountLocked: a replacement is put into the file before the active
        account leaves the pool. */
    method RemoveAccount(target: string, f: Faults) returns (r: Outcome)
      modifies this
      ensures (State(), r) == Perform(old(State()), Remove(target), f)
    {
      var found := FindAccountByTarget(accounts, target);
      if found.None? { return Failed; }
      var wasActive := active == Some(found.value.id);
      var replacement := None;
      if wasActive {
        replacement := FirstOther(accounts, found.value.id);
        if replacement.Some? {
          var ok := SyncAccountToAgy(replacement.value, f.sync);
          if !ok { return Failed; }
        }
      }
      if f.tx {
        if wasActive && replacement.Some? {
          var ok := SyncAccountToAgy(found.value, f.rollback);
          if !ok { return RollbackFailed; }
        }
        return Failed;
      }
      accounts := RemoveId(accounts, found.value.id);
      if wasActive {
        active := if |accounts| > 0 then Some(accounts[0].id) else None;
      }
      r := Succeeded;
    }

    /** SyncActiveAgyTokenFile, whatever pool each attempt finds: writers that bypass the
        lock may change it at any time. At most three attempts are made. */
    method SyncActive(attempts: seq<Attempt>) returns (r: Outcome)
      requires |attempts| == 3
      modifies this`file
      ensures r == Succeeded ==>
                exists k :: 0 <= k < 3 && Writes(attempts[k]) && file == attempts[k].reread.value.active
                            && forall j :: 0 <= j < k ==> Retries(attempts[j])
      ensures (exists k :: 0 <= k < 3 && Writes(attempts[k]) && forall j :: 0 <= j < k ==> Retries(attempts[j])) ==>
                r == Succeeded
      ensures r != Succeeded ==> r == Failed && file == old(file)
      ensures Quiet(attempts, Pool(accounts, active)) ==>
                (State(), r) ==
                  Perform(old(State()), Sync, Faults(attempts[0].refreshFails || attempts[0].writeFails, false, false))
    {
      for i := 0 to 3
        invariant file == old(file) && forall j :: 0 <= j < i ==> Retries(attempts[j])
      {
        var a := attempts[i];
        if a.seen.None? || a.seen.value.active.None? { return Failed; }
        var account := FindId(a.seen.value.accounts, a.seen.value.active.value);
        if account.None? || a.refreshFails || a.reread.None? { return Failed; }
        if a.reread.value.active == a.seen.value.active {
          if a.writeFails { return Failed; }
          FindIdIsMember(a.seen.value.accounts, a.seen.value.active.value);
          file := Some(account.value.id);
          return Succeeded;
        }
      }
      r := Failed;
    }
  }

  datatype Pool = Pool(accounts: seq<Account>, active: Option<string>)

  /** What one attempt of a synchronization meets; None is a pool that cannot be loaded. */
  datatype Attempt = Attempt(seen: Option<Pool>, refreshFails: bool, reread: Option<Pool>, writeFails: bool)

  /** The attempt finds the active account and can refresh it. */
  predicate Prepares(a: Attempt) {
    a.seen.Some? && a.seen.value.active.Some? && FindId(a.seen.value.accounts, a.seen.value.active.value).Some?
      && !a.refreshFails
    && a.reread.Some?
  }

  /** The active account changed during the refresh. */
  predicate Retries(a: Attempt) { Prepares(a) && a.reread.value.active != a.seen.value.active }

  predicate Writes(a: Attempt) { Prepares(a) && a.reread.value.active == a.seen.value.active && !a.writeFails }

  predicate Quiet(attempts: seq<Attempt>, pool: Pool) {
    forall a :: a in attempts ==> a.seen == Some(pool) && a.reread == Some(pool)
  }

  function FirstOther(accounts: seq<Account>, id: string): Option<Account> {
    if accounts == [] then None else if accounts[0].id != id then Some(accounts[0]) else FirstOther(accounts[1..], id)
  }

  /** The operations as state changes. `Failed` with nothing done also stands for the
      quiet return of a synchronization without an active account. */
  function Perform(s: Stores, op: Operation, f: Faults): (Stores, Outcome) {
    var selected := SelectFor(s, op);
    if selected.None? then (s, Failed) else
      var a := selected.value;
      match op
      case Remove(_) =>
        var wasActive := s.active == Some(a.id);
        var replacement := if wasActive then FirstOther(s.accounts, a.id) else None;
        if replacement.Some? && f.sync then (s, Failed)
        else if f.tx then
          if replacement.None? then (s, Failed)
          else if f.rollback then (s.(file := Some(replacement.value.id)), RollbackFailed)
          else (s.(file := Some(a.id)), Failed)
        else
          var rest := RemoveId(s.accounts, a.id);
          (Stores(rest,
                  if !wasActive then s.active else if rest == [] then None else Some(rest[0].id),
                  if replacement.Some? then Some(replacement.value.id) else s.file), Succeeded)
      case Sync => if f.sync then (s, Failed) else (s.(file := Some(a.id)), Succeeded)
      case _ =>
        var previous := if s.active.Some? then FindAccountByTarget(s.accounts, s.active.value) else None;
        var current := FindAccountByTarget(s.accounts, a.id);
        if f.sync then (s, Failed)
        else if !f.tx && current.Some? then (s.(active := Some(current.value.id), file := Some(a.id)), Succeeded)
        else if previous.None? then (s.(file := Some(a.id)), Failed)
        else if f.rollback then (s.(file := Some(a.id)), RollbackFailed)
        else (s.(file := Some(previous.value.id)), Failed)
  }

  // ---------- Selectors ----------

  lemma {:induction false} FindNamedOwn(accounts: seq<Account>, k: nat)
    requires WellFormed(accounts) && k < |accounts|
    ensures FindNamed(accounts, accounts[k].id) == Some(accounts[k])
  {
    hide Trim, IsDigits;
    if k > 0 {
      FindNamedOwn(accounts[1..], k - 1);
    }
  }

  /** In a well-formed pool an ID selects its own account. */
  lemma IdSelectsItself(accounts: seq<Account>, a: Account)
    requires WellFormed(accounts) && a in accounts
    ensures FindAccountByTarget(accounts, a.id) == Some(a)
  {
    var k :| 0 <= k < |accounts| && accounts[k] == a;
    FindNamedOwn(accounts, k);
    hide FindNamed, Trim;
  }

  lemma {:induction false} FindNamedIsMember(accounts: seq<Account>, target: string)
    ensures FindNamed(accounts, target).Some? ==> FindNamed(accounts, target).value in accounts
  {
    if accounts != [] { FindNamedIsMember(accounts[1..], target); }
  }

  lemma {:induction false} FindIdIsMember(accounts: seq<Account>, id: string)
    ensures FindId(accounts, id).Some? ==> FindId(accounts, id).value in accounts && FindId(accounts, id).value.id == id
    ensures (exists a :: a in accounts && a.id == id) ==> FindId(accounts, id).Some?
  {
    if accounts != [] {
      FindIdIsMember(accounts[1..], id);
      assert accounts == [accounts[0]] + accounts[1..];
    }
  }

  lemma SelectedIsMember(s: Stores, op: Operation)
    ensures SelectFor(s, op).Some? ==> SelectFor(s, op).value in s.accounts
  {
    match op
    case Switch(target, pick) => FindNamedIsMember(s.accounts, Trim(target));
    case Remove(target) => FindNamedIsMember(s.accounts, Trim(target));
    case Sync => if s.active.Some? { FindIdIsMember(s.accounts, s.active.value); }
  }

  lemma {:induction false} RemoveIdMeaning(accounts: seq<Account>, id: string)
    ensures forall a :: a in RemoveId(accounts, id) <==> a in accounts && a.id != id
    ensures WellFormed(accounts) ==> WellFormed(RemoveId(accounts, id))
    ensures FirstOther(accounts, id) == if RemoveId(accounts, id) == [] then None else Some(RemoveId(accounts, id)[0])
  {
    hide Trim, IsDigits;
    if accounts != [] {
      RemoveIdMeaning(accounts[1..], id);
      assert accounts == [accounts[0]] + accounts[1..];
      if WellFormed(accounts) { WellFormedTail(accounts, RemoveId(accounts[1..], id)); }
    }
  }

  lemma WellFormedTail(accounts: seq<Account>, rest: seq<Account>)
    requires accounts != [] && WellFormed(accounts) && forall a :: a in rest ==> a in accounts[1..]
    requires WellFormed(accounts[1..]) ==> WellFormed(rest)
    ensures WellFormed(rest) && WellFormed([accounts[0]] + rest)
  {
    hide Trim, IsDigits;
    assert WellFormed(accounts[1..]) by {
      assert forall i :: 0 <= i < |accounts| - 1 ==> accounts[1..][i] == accounts[i + 1];
    }
    var all := [accounts[0]] + rest;
    forall j | 0 <= j < |rest|
      ensures accounts[0].id != rest[j].id && accounts[0].id != rest[j].email && accounts[0].id != rest[j].name
      ensures rest[j].id != accounts[0].email && rest[j].id != accounts[0].name
    {
      assert rest[j] in accounts[1..];
      var k :| 0 <= k < |accounts[1..]| && accounts[1..][k] == rest[j];
      assert accounts[k + 1] == rest[j];
    }
  }

  // ---------- Main results ----------

  /** Every operation keeps the pool valid. Unless its rollback reports failure it
      keeps the identities in agreement, and a successful switch or synchronization
      brings them into agreement whatever the file held before. */
  lemma OperationKeepsIdentity(s: Stores, op: Operation, f: Faults)
    requires Valid(s)
    ensures var (t, r) := Perform(s, op, f);
            && Valid(t)
            && (r != RollbackFailed && InSync(s) ==> InSync(t))
            && (r == Succeeded && !op.Remove? ==> InSync(t) && t.active.Some?)
  {
    SelectedIsMember(s, op);
    var selected := SelectFor(s, op);
    if selected.None? { return; }
    var a := selected.value;
    IdSelectsItself(s.accounts, a);
    if s.active.Some? {
      var b :| b in s.accounts && b.id == s.active.value;
      IdSelectsItself(s.accounts, b);
    }
    if op.Sync? { FindIdIsMember(s.accounts, s.active.value); }
    if op.Remove? { RemovalKeepsIdentity(s, op, f, a); }
    hide FindAccountByTarget, WellFormed, SelectFor, FindId;
  }

  lemma RemovalKeepsIdentity(s: Stores, op: Operation, f: Faults, a: Account)
    requires Valid(s) && op.Remove? && SelectFor(s, op) == Some(a)
    ensures var (t, r) := Perform(s, op, f);
            Valid(t) && (r != RollbackFailed && InSync(s) ==> InSync(t))
  {
    RemoveIdMeaning(s.accounts, a.id);
    var rest := RemoveId(s.accounts, a.id);
    hide FindAccountByTarget, WellFormed, SelectFor, RemoveId, FirstOther;
    if s.active.Some? && s.active != Some(a.id) {
      var b :| b in s.accounts && b.id == s.active.value;
      assert b in rest;
    }
    if rest != [] { assert rest[0] in rest; }
  }

  datatype Call = Call(op: Operation, faults: Faults)

  ghost predicate IsRun(states: seq<Stores>, calls: seq<Call>) {
    && |states| == |calls| + 1 && Valid(states[0])
    && forall i :: 0 <= i < |calls| ==> states[i + 1] == Perform(states[i], calls[i].op, calls[i].faults).0
  }

  function OutcomeAt(states: seq<Stores>, calls: seq<Call>, i: nat): Outcome
    requires i < |calls| && |states| == |calls| + 1
  {
    Perform(states[i], calls[i].op, calls[i].faults).1
  }

  lemma {:induction false} RunIsValid(states: seq<Stores>, calls: seq<Call>, i: nat)
    requires IsRun(states, calls) && i < |states|
    ensures Valid(states[i])
  {
    hide Perform, Valid;
    if i > 0 {
      RunIsValid(states, calls, i - 1);
      OperationKeepsIdentity(states[i - 1], calls[i - 1].op, calls[i - 1].faults);
    }
  }

  /** Over every sequence of calls: if the identities agreed at some point, or a
      switch or synchronization succeeded just before it, and no rollback reported
      failure since, then an active account is the one the token file holds. */
  lemma {:induction false} IdentityHoldsOverRuns(states: seq<Stores>, calls: seq<Call>, i: nat, j: nat)
    requires IsRun(states, calls) && i <= j < |states|
    requires InSync(states[i]) || (i > 0 && OutcomeAt(states, calls, i - 1) == Succeeded && !calls[i - 1].op.Remove?)
    requires forall k :: i <= k < j ==> OutcomeAt(states, calls, k) != RollbackFailed
    ensures states[j].active.Some? ==> states[j].file == states[j].active
    decreases j - i
  {
    hide Perform, Valid;
    if j > i {
      IdentityHoldsOverRuns(states, calls, i, j - 1);
      RunIsValid(states, calls, j - 1);
      assert OutcomeAt(states, calls, j - 1) != RollbackFailed;
      OperationKeepsIdentity(states[j - 1], calls[j - 1].op, calls[j - 1].faults);
    } else if i > 0 {
      RunIsValid(states, calls, i - 1);
      OperationKeepsIdentity(states[i - 1], calls[i - 1].op, calls[i - 1].faults);
    }
  }

  // ---------- Any pool at all ----------

  predicate Carries(a: Account, text: string) { a.id == text || a.email == text || a.name == text }

  ghost predicate FirstCarrier(accounts: seq<Account>, text: string, k: int) {
    0 <= k < |accounts| && Carries(accounts[k], text) && forall j :: 0 <= j < k ==> !Carries(accounts[j], text)
  }

  /** The ID, trimmed, leads back to an account with that ID: as the position of one when
      it is a number, and otherwise as the first ID, email or name of that text. */
  ghost predicate ReadsBack(accounts: seq<Account>, id: string) {
    var t := Trim(id);
    && t != ""
    && if IsPosition(t) then 1 <= DigitsValue(t) <= |accounts| && accounts[DigitsValue(t) - 1].id == id
       else exists k :: FirstCarrier(accounts, t, k) && accounts[k].id == id
  }

  /** The ID, trimmed, is blank, a number outside the list, or carried by no account. */
  ghost predicate ReadsNothing(accounts: seq<Account>, id: string) {
    var t := Trim(id);
    t == "" || if IsPosition(t) then !(1 <= DigitsValue(t) <= |accounts|) else forall a :: a in accounts ==>
      !Carries(a, t)
  }

  lemma {:induction false} FindNamedIsFirst(accounts: seq<Account>, text: string) returns (k: int)
    ensures FindNamed(accounts, text).None? ==> forall a :: a in accounts ==> !Carries(a, text)
    ensures FindNamed(accounts, text).Some? ==>
              FirstCarrier(accounts, text, k) && accounts[k] == FindNamed(accounts, text).value
  {
    k := 0;
    if accounts != [] && !Carries(accounts[0], text) {
      k := FindNamedIsFirst(accounts[1..], text);
      if FindNamed(accounts[1..], text).Some? {
        LaterCarrier(accounts, text, k);
      } else {
        assert accounts == [accounts[0]] + accounts[1..];
      }
      k := k + 1;
    }
  }

  lemma LaterCarrier(accounts: seq<Account>, text: string, k: int)
    requires accounts != [] && !Carries(accounts[0], text) && FirstCarrier(accounts[1..], text, k)
    ensures FirstCarrier(accounts, text, k + 1)
  {
    hide Carries;
    forall j | 0 <= j < k + 1
      ensures !Carries(accounts[j], text)
    {
      if j > 0 { assert accounts[j] == accounts[1..][j - 1]; }
    }
  }

  lemma FirstIsOne(accounts: seq<Account>, text: string, k: int, l: int)
    requires FirstCarrier(accounts, text, k) && FirstCarrier(accounts, text, l)
    ensures k == l
  {}

  lemma FoundByName(accounts: seq<Account>, text: string, id: string)
    ensures (forall a :: a in accounts ==> !Carries(a, text)) <==> FindNamed(accounts, text).None?
    ensures (exists k :: FirstCarrier(accounts, text, k) && accounts[k].id == id) <==>
            FindNamed(accounts, text).Some? && FindNamed(accounts, text).value.id == id
  {
    hide FindNamed, Carries;
    var k := FindNamedIsFirst(accounts, text);
    if FindNamed(accounts, text).Some? {
      assert FirstCarrier(accounts, text, k) && accounts[k] in accounts && Carries(accounts[k], text);
      forall l | FirstCarrier(accounts, text, l)
        ensures l == k
      {
        FirstIsOne(accounts, text, k, l);
      }
    }
  }

  lemma ReadingIsFinding(accounts: seq<Account>, id: string)
    ensures ReadsNothing(accounts, id) <==> FindAccountByTarget(accounts, id).None?
    ensures ReadsBack(accounts, id) <==>
              FindAccountByTarget(accounts, id).Some? && FindAccountByTarget(accounts, id).value.id == id
  {
    FoundByName(accounts, Trim(id), id);
    hide Trim, FindNamed, Carries, FirstCarrier;
  }

  /** Whether the stores agree after a call: when it wrote nothing, as before; after a
      successful switch, when the selected account's ID reads back; after one that was
      rolled back, when the active ID does. */
  ghost predicate AgreesAfter(s: Stores, op: Operation, f: Faults) {
    var selected := SelectFor(s, op);
    if selected.None? then InSync(s) else
      var a := selected.value;
      match op
      case Sync => InSync(s) || !f.sync
      case Remove(_) =>
        var others := exists b :: b in s.accounts && b.id != a.id;
        InSync(s) || (s.active == Some(a.id) && if others then !f.sync else !f.tx)
      case _ =>
        if f.sync then InSync(s)
        else if !f.tx && !ReadsNothing(s.accounts, a.id) then ReadsBack(s.accounts, a.id)
        else if s.active.None? then true
        else if ReadsNothing(s.accounts, s.active.value) then s.active.value == a.id
        else ReadsBack(s.accounts, s.active.value)
  }

  /** For any pool at all and every failure but that of a rollback: exactly when the active
      account is the one the token file holds after a call. */
  lemma AgreementExactly(s: Stores, op: Operation, f: Faults)
    requires Perform(s, op, f).1 != RollbackFailed
    ensures InSync(Perform(s, op, f).0) <==> AgreesAfter(s, op, f)
  {
    var selected := SelectFor(s, op);
    if selected.None? { return; }
    var a := selected.value;
    match op
    case Sync => FindIdIsMember(s.accounts, s.active.value);
    case Remove(_) => RemovalAgreesExactly(s, op, f, a);
    case _ =>
      ReadingIsFinding(s.accounts, a.id);
      if s.active.Some? { ReadingIsFinding(s.accounts, s.active.value); }
      hide ReadsBack, ReadsNothing, FindAccountByTarget, SelectFor;
  }

  lemma RemovalAgreesExactly(s: Stores, op: Operation, f: Faults, a: Account)
    requires op.Remove? && SelectFor(s, op) == Some(a) && Perform(s, op, f).1 != RollbackFailed
    ensures InSync(Perform(s, op, f).0) <==> AgreesAfter(s, op, f)
  {
    RemoveIdMeaning(s.accounts, a.id);
    var rest := RemoveId(s.accounts, a.id);
    hide SelectFor, FindAccountByTarget, RemoveId, FirstOther, WellFormed;
    assert rest != [] ==> rest[0] in rest;
    if b :| b in s.accounts && b.id != a.id { assert b in rest; }
  }

  /** After a successful switch the stores agree exactly when the selected account's ID,
      trimmed, is the number of its place or the first ID, email or name of that text. */
  lemma SwitchAgreesExactly(s: Stores, op: Operation, f: Faults)
    requires op.Switch? && Perform(s, op, f).1 == Succeeded
    ensures InSync(Perform(s, op, f).0) <==> ReadsBack(s.accounts, SelectFor(s, op).value.id)
  {
    ReadingIsFinding(s.accounts, SelectFor(s, op).value.id);
    hide FindAccountByTarget, SelectFor, ReadsBack;
  }

  /** An ID made of digits is read as a position, and the stores part. */
  lemma DigitsIdBreaksIdentity()
    ensures exists s, op: Operation, f ::
              op.Switch? && InSync(s) && Perform(s, op, f).1 == Succeeded && !InSync(Perform(s, op, f).0)
  {
    var a, b := Account("2", "a@x", "a"), Account("b", "b@x", "b");
    var s := Stores([a, b], None, None);
    assert Trim("2") == "2" && IsDigits("2") && "2"[..0] == "";
    assert DigitsValue("2") == 2 by { assert DigitsValue("") == 0; }
    assert FindAccountByTarget(s.accounts, "2") == Some(b);
    var r := Perform(s, Switch("auto", 0), Faults(false, false, false));
    assert r.0 == Stores([a, b], Some("b"), Some("2"));
    assert InSync(s) && r.1 == Succeeded && !InSync(r.0);
  }

  /** An active ID made of digits: a failed switch whose rollback succeeds parts the stores,
      although the selected ID reads back. */
  lemma RollbackCanPart()
    ensures exists s, op: Operation, f ::
              && op.Switch? && InSync(s) && SelectFor(s, op).Some? && ReadsBack(s.accounts, SelectFor(s, op).value.id)
              && Perform(s, op, f).1 == Failed && !InSync(Perform(s, op, f).0)
  {
    var a, b, c := Account("2", "a@x", "a"), Account("b", "b@x", "b"), Account("c", "c@x", "c");
    var s, op, f := Stores([a, b, c], Some("2"), Some("2")), Switch("c", 0), Faults(false, true, false);
    assert Trim("2") == "2" && Trim("c") == "c" && IsDigits("2") && !IsDigits("c") && "2"[..0] == "";
    assert DigitsValue("2") == 2 by { assert DigitsValue("") == 0; }
    assert FindAccountByTarget(s.accounts, "2") == Some(b);
    assert FindNamed([a, b, c], "c") == FindNamed([b, c], "c") == FindNamed([c], "c") by {
      assert [a, b, c][1..] == [b, c] && [b, c][1..] == [c];
    }
    assert FindAccountByTarget(s.accounts, "c") == Some(c);
    ReadingIsFinding(s.accounts, "c");
    hide FindAccountByTarget, ReadsBack;
    var r := Perform(s, op, f);
    assert r == (s.(file := Some("b")), Failed);
  }
}
