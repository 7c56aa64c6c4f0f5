/** Account ID allocation and the import of a backup into the pool. */
module Import {
  import opened Common

  datatype Account = Account(
    id: string, email: string, name: string, refreshToken: string, accessToken: string,
    tokenExpiry: Option<int>, status: string, rateLimitedUntil: Option<int>)

  // ---------- NextAccountID ----------

  function IdNumber(n: nat): string { "acc_" + Decimal(n) }

  predicate Used(accounts: seq<Account>, id: string) { exists a :: a in accounts && a.id == id }

  ghost function UsedIds(accounts: seq<Account>): set<string> { set a | a in accounts :: a.id }

  ghost function FirstIds(k: nat): set<string> { if k == 0 then {} else FirstIds(k - 1) + {IdNumber(k)} }

  lemma {:induction false} FirstIdsAreNumbered(k: nat, id: string)
    requires id in FirstIds(k)
    ensures exists i :: 1 <= i <= k && id == IdNumber(i)
  {
    hide IdNumber;
    if id != IdNumber(k) { FirstIdsAreNumbered(k - 1, id); }
  }

  lemma {:induction false} FirstIdsCount(k: nat)
    ensures |FirstIds(k)| == k
  {
    hide IdNumber;
    if k > 0 {
      FirstIdsCount(k - 1);
      if IdNumber(k) in FirstIds(k - 1) {
        FirstIdsAreNumbered(k - 1, IdNumber(k));
        var i :| 1 <= i <= k - 1 && IdNumber(k) == IdNumber(i);
        IdNumbersDiffer(k, i);
      }
    }
  }

  lemma {:induction false} UsedIdsCount(accounts: seq<Account>)
    ensures |UsedIds(accounts)| <= |accounts|
  {
    if accounts != [] {
      UsedIdsCount(accounts[1..]);
      assert accounts == [accounts[0]] + accounts[1..];
      assert UsedIds(accounts) == {accounts[0].id} + UsedIds(accounts[1..]);
    }
  }

  lemma {:induction false} FirstIdsUsed(accounts: seq<Account>, k: nat)
    requires forall i :: 1 <= i <= k ==> Used(accounts, IdNumber(i))
    ensures FirstIds(k) <= UsedIds(accounts)
  {
    if k > 0 {
      FirstIdsUsed(accounts, k - 1);
      assert Used(accounts, IdNumber(k));
    }
  }

  lemma SubsetCount(a: set<string>, b: set<string>)
    requires a <= b
    ensures |a| <= |b|
  {
    assert b == a + (b - a);
  }

  /** More numbers cannot be taken than there are accounts. */
  lemma Pigeonhole(accounts: seq<Account>, k: nat)
    requires forall i :: 1 <= i <= k ==> Used(accounts, IdNumber(i))
    ensures k <= |accounts|
  {
    FirstIdsCount(k);
    FirstIdsUsed(accounts, k);
    UsedIdsCount(accounts);
    SubsetCount(FirstIds(k), UsedIds(accounts));
  }

  /** The least unused number from `n` on. */
  function FirstFree(accounts: seq<Account>, n: nat): (r: nat)
    requires n >= 1 && forall i :: 1 <= i < n ==> Used(accounts, IdNumber(i))
    ensures n <= r <= |accounts| + 1 && !Used(accounts, IdNumber(r))
    ensures forall i :: 1 <= i < r ==> Used(accounts, IdNumber(i))
    decreases |accounts| + 1 - n
  {
    Pigeonhole(accounts, n - 1);
    if Used(accounts, IdNumber(n)) then
      Pigeonhole(accounts, n);
      FirstFree(accounts, n + 1)
    else n
  }

  function NextId(accounts: seq<Account>): string { IdNumber(FirstFree(accounts, 1)) }

  /** NextAccountID: the counting loop ends with the least unused positive number. */
  method NextAccountID(accounts: seq<Account>) returns (id: string)
    ensures id == NextId(accounts) && !Used(accounts, id)
    ensures exists n :: 1 <= n <= |accounts| + 1 && id == IdNumber(n) && forall i :: 1 <= i < n ==>
              Used(accounts, IdNumber(i))
  {
    hide IdNumber;
    var used: set<string> := {};
    for i := 0 to |accounts|
      invariant forall x :: x in used <==> x != "" && Used(accounts[..i], x)
    {
      assert accounts[..i + 1] == accounts[..i] + [accounts[i]];
      if accounts[i].id != "" { used := used + {accounts[i].id}; }
      assert forall x :: Used(accounts[..i + 1], x) <==> x == accounts[i].id || Used(accounts[..i], x);
    }
    assert accounts[..|accounts|] == accounts;
    var number := 1;
    while IdNumber(number) in used
      invariant 1 <= number && forall i :: 1 <= i < number ==> Used(accounts, IdNumber(i))
      invariant FirstFree(accounts, 1) == FirstFree(accounts, number)
      decreases |accounts| + 1 - number
    {
      Pigeonhole(accounts, number);
      number := number + 1;
    }
    IdIsNotBlank(number);
    id := IdNumber(number);
  }

  lemma IdIsNotBlank(n: nat)
    ensures IdNumber(n) != ""
  {}

  // ---------- Backup items ----------

  /** An element of the accounts list; missing strings are empty. */
  datatype Item = NotAnObject | Item(email: string, refreshToken: string, name: string, accessToken: string,
                                     tokenExpiry: Option<int>)

  predicate IsValid(item: Item) { item.Item? && item.email != "" && item.refreshToken != "" }

  function ValidCount(items: seq<Item>): nat {
    if items == [] then 0 else ValidCount(items[..|items| - 1]) + if IsValid(items[|items| - 1]) then 1 else 0
  }

  function NewAccount(id: string, item: Item): Account
    requires IsValid(item)
  {
    Account(id, item.email, item.name, item.refreshToken, item.accessToken, item.tokenExpiry, "", None)
  }

  /** What an import overwrites in an account that exists. */
  function Refreshed(a: Account, item: Item): Account
    requires IsValid(item)
  {
    var takes := item.accessToken != "";
    a.(refreshToken := item.refreshToken,
       accessToken := if takes then item.accessToken else a.accessToken,
       tokenExpiry := if takes && item.tokenExpiry.Some? then item.tokenExpiry else a.tokenExpiry,
       name := if item.name != "" && a.name == "" then item.name else a.name,
       status := "", rateLimitedUntil := None)
  }

  // ---------- Merge ----------

  datatype Merge = Merge(accounts: seq<Account>, added: nat, updated: nat, skipped: nat)

  /** emailMap: the last account with an email. */
  function LastWithEmail(accounts: seq<Account>, email: string): (k: Option<nat>)
    ensures k.Some? ==> k.value < |accounts| && accounts[k.value].email == email
    ensures k.None? ==> forall a :: a in accounts ==> a.email != email
  {
    if accounts == [] then None
    else if accounts[|accounts| - 1].email == email then Some(|accounts| - 1)
    else
      assert accounts == accounts[..|accounts| - 1] + [accounts[|accounts| - 1]];
      LastWithEmail(accounts[..|accounts| - 1], email)
  }

  function MergeItem(m: Merge, item: Item, skipExisting: bool): Merge {
    if !IsValid(item) then m else
      var k := LastWithEmail(m.accounts, item.email);
      if k.None? then m.(accounts := m.accounts + [NewAccount(NextId(m.accounts), item)], added := m.added + 1)
      else if skipExisting then m.(skipped := m.skipped + 1)
      else m.(accounts := m.accounts[k.value := Refreshed(m.accounts[k.value], item)], updated := m.updated + 1)
  }

  function MergeAll(accounts: seq<Account>, items: seq<Item>, skipExisting: bool): Merge {
    if items == [] then Merge(accounts, 0, 0, 0)
    else MergeItem(MergeAll(accounts, items[..|items| - 1], skipExisting), items[|items| - 1], skipExisting)
  }

  // ---------- Replace ----------

  function ReplaceAll(items: seq<Item>): seq<Account> {
    if items == [] then [] else
      var n, rest := |items|, ReplaceAll(items[..|items| - 1]);
      if IsValid(items[n - 1]) then rest + [NewAccount(IdNumber(n), items[n - 1])] else rest
  }

  function FirstWithEmail(accounts: seq<Account>, email: string): Option<Account> {
    if accounts == [] then None else if accounts[0].email == email then Some(accounts[0])
      else FirstWithEmail(accounts[1..], email)
  }

  function ActiveAfterReplace(accounts: seq<Account>, activeEmail: string): Option<string> {
    var named := if activeEmail != "" then FirstWithEmail(accounts, activeEmail) else None;
    if named.Some? then Some(named.value.id) else if accounts != [] then Some(accounts[0].id) else None
  }

  // ---------- ImportPool ----------

  datatype ImportResult = ImportResult(added: nat, updated: nat, skipped: nat, total: nat)

  class Pool {
    var accounts: seq<Account>
    var active: Option<string>
    var roundRobinLast: Option<string>
    var strategy: string

    constructor (accounts: seq<Account>, active: Option<string>, roundRobinLast: Option<string>, strategy: string)
      ensures this.accounts == accounts && this.active == active && this.roundRobinLast == roundRobinLast
              && this.strategy == strategy
    {
      this.accounts, this.active, this.roundRobinLast, this.strategy := accounts, active, roundRobinLast, strategy;
    }

    /** The replace branch. */
    method ReplaceAccounts(items: seq<Item>, importedStrategy: string, activeEmail: string) returns (r: ImportResult)
      modifies this
      ensures accounts == ReplaceAll(items) && active == ActiveAfterReplace(accounts, activeEmail)
      ensures roundRobinLast == None && strategy == if importedStrategy != "" then importedStrategy else old(strategy)
      ensures r == ImportResult(|accounts|, 0, 0, |accounts|)
    {
      var newList: seq<Account> := [];
      for i := 0 to |items|
        modifies {}
        invariant newList == ReplaceAll(items[..i])
      {
        assert items[..i + 1][..i] == items[..i];
        if !IsValid(items[i]) { continue; }
        newList := newList + [NewAccount(IdNumber(i + 1), items[i])];
      }
      assert items[..|items|] == items;
      accounts := newList;
      if importedStrategy != "" { strategy := importedStrategy; }
      var named := if activeEmail != "" then FirstWithEmail(newList, activeEmail) else None;
      if named.None? && |newList| > 0 { named := Some(newList[0]); }
      active := if named.Some? then Some(named.value.id) else None;
      roundRobinLast := None;
      r := ImportResult(|newList|, 0, 0, |newList|);
    }

    /** The merge branch, with emailMap as positions in the list. */
    method MergeAccounts(items: seq<Item>, skipExisting: bool) returns (r: ImportResult)
      modifies this`accounts
      ensures var m := MergeAll(old(accounts), items, skipExisting);
              accounts == m.accounts && r == ImportResult(m.added, m.updated, m.skipped, |m.accounts|)
    {
      hide NextId, LastWithEmail;
      var emailMap: map<string, nat> := map[];
      for i := 0 to |accounts|
        invariant accounts == old(accounts)
        invariant forall e :: e != "" ==> Tells(emailMap, accounts[..i], e)
      {
        assert accounts[..i + 1] == accounts[..i] + [accounts[i]];
        ghost var before := emailMap;
        if accounts[i].email != "" { emailMap := emailMap[accounts[i].email := i]; }
        ghost var read := accounts[..i + 1];
        forall e | e != ""
          ensures Tells(emailMap, read, e)
        {
          assert Tells(before, accounts[..i], e);
          LastWithEmailSnoc(accounts[..i], accounts[i], e);
        }
      }
      assert accounts[..|accounts|] == accounts;
      var added, updated, skipped := 0, 0, 0;
      for i := 0 to |items|
        invariant Merge(accounts, added, updated, skipped) == MergeAll(old(accounts), items[..i], skipExisting)
        invariant forall e :: e != "" ==> Tells(emailMap, accounts, e)
      {
        assert items[..i + 1][..i] == items[..i];
        var item := items[i];
        if !IsValid(item) { continue; }
        assert Tells(emailMap, accounts, item.email);
        ghost var before := accounts;
        if item.email in emailMap {
          if skipExisting { skipped := skipped + 1; continue; }
          var k := emailMap[item.email];
          accounts := accounts[k := Refreshed(accounts[k], item)];
          forall e | e != ""
            ensures Tells(emailMap, accounts, e)
          {
            assert Tells(emailMap, before, e);
            SameEmailsSameLast(before, accounts, e);
          }
          updated := updated + 1;
        } else {
          var nextID := NextAccountID(accounts);
          ghost var beforeMap := emailMap;
          emailMap := emailMap[item.email := |accounts|];
          accounts := accounts + [NewAccount(nextID, item)];
          forall e | e != ""
            ensures Tells(emailMap, accounts, e)
          {
            assert Tells(beforeMap, before, e);
            LastWithEmailSnoc(before, NewAccount(nextID, item), e);
          }
          added := added + 1;
        }
      }
      assert items[..|items|] == items;
      r := ImportResult(added, updated, skipped, |accounts|);
    }

    /** ImportPool after the backup is read; an empty list changes nothing. */
    method ImportPool(items: seq<Item>, replace: bool, skipExisting: bool, importedStrategy: string,
                      activeEmail: string) returns (r: ImportResult)
      modifies this
      ensures items == [] ==> unchanged(this) && r == ImportResult(0, 0, 0, |accounts|)
      ensures items != [] && replace ==>
                && accounts == ReplaceAll(items) && active == ActiveAfterReplace(accounts, activeEmail)
                  && roundRobinLast == None
                && strategy == (if importedStrategy != "" then importedStrategy else old(strategy))
                && r.added == |accounts|
      ensures items != [] && !replace ==>
                var m := MergeAll(old(accounts), items, skipExisting);
                && accounts == m.accounts && r == ImportResult(m.added, m.updated, m.skipped, |m.accounts|)
                && active == old(active) && roundRobinLast == old(roundRobinLast) && strategy == old(strategy)
      ensures r.total == |accounts|
      ensures r.added + r.updated + r.skipped == ValidCount(items)
    {
      if |items| == 0 { return ImportResult(0, 0, 0, |accounts|); }
      if replace {
        ReplaceCounts(items);
        r := ReplaceAccounts(items, importedStrategy, activeEmail);
      } else {
        MergeCounts(accounts, items, skipExisting);
        r := MergeAccounts(items, skipExisting);
      }
    }
  }

  /** The map entry of an email is its last position. */
  predicate Tells(emailMap: map<string, nat>, accounts: seq<Account>, email: string) {
    LastWithEmail(accounts, email) == if email in emailMap then Some(emailMap[email]) else None
  }

  lemma LastWithEmailSnoc(s: seq<Account>, a: Account, email: string)
    ensures LastWithEmail(s + [a], email) == if a.email == email then Some(|s|) else LastWithEmail(s, email)
  {
    assert (s + [a])[..|s|] == s;
  }

  lemma {:induction false} SameEmailsSameLast(a: seq<Account>, b: seq<Account>, email: string)
    requires |a| == |b| && forall i :: 0 <= i < |a| ==> a[i].email == b[i].email
    ensures LastWithEmail(a, email) == LastWithEmail(b, email)
  {
    if a != [] { SameEmailsSameLast(a[..|a| - 1], b[..|b| - 1], email); }
  }

  // ---------- Main results ----------

  ghost predicate DistinctIds(accounts: seq<Account>) {
    forall i, j :: 0 <= i < j < |accounts| ==> accounts[i].id != accounts[j].id
  }

  ghost predicate DistinctEmails(accounts: seq<Account>) {
    forall i, j :: 0 <= i < j < |accounts| && accounts[i].email != "" ==> accounts[i].email != accounts[j].email
  }

  /** Every valid item is added, updated or skipped, and only additions grow the list. */
  lemma {:induction false} MergeCounts(accounts: seq<Account>, items: seq<Item>, skipExisting: bool)
    ensures var m := MergeAll(accounts, items, skipExisting);
            m.added + m.updated + m.skipped == ValidCount(items) && |m.accounts| == |accounts| + m.added
            && (skipExisting ==> m.updated == 0) && (!skipExisting ==> m.skipped == 0)
  {
    hide NextId, LastWithEmail;
    if items != [] { MergeCounts(accounts, items[..|items| - 1], skipExisting); }
  }

  lemma FreshId(accounts: seq<Account>)
    ensures forall a :: a in accounts ==> a.id != NextId(accounts)
  {
    var n := FirstFree(accounts, 1);
    assert !Used(accounts, IdNumber(n));
  }

  lemma MergeItemKeepsIdentities(m: Merge, item: Item, skipExisting: bool)
    ensures var r, accounts := MergeItem(m, item, skipExisting).accounts, m.accounts;
            && |r| >= |accounts|
            && (forall i :: 0 <= i < |accounts| ==> r[i].id == accounts[i].id && r[i].email == accounts[i].email)
            && (DistinctIds(accounts) ==> DistinctIds(r))
            && (DistinctEmails(accounts) ==> DistinctEmails(r))
            && (skipExisting ==> accounts <= r)
  {
    hide NextId, LastWithEmail;
    FreshId(m.accounts);
  }

  /** A merge keeps distinct IDs distinct and distinct emails distinct, and leaves the
      accounts that were there in place under their IDs and emails. */
  lemma {:induction false} MergeKeepsIdentities(accounts: seq<Account>, items: seq<Item>, skipExisting: bool)
    ensures var r := MergeAll(accounts, items, skipExisting).accounts;
            && |r| >= |accounts|
            && (forall i :: 0 <= i < |accounts| ==> r[i].id == accounts[i].id && r[i].email == accounts[i].email)
            && (DistinctIds(accounts) ==> DistinctIds(r))
            && (DistinctEmails(accounts) ==> DistinctEmails(r))
            && (skipExisting ==> accounts <= r)
  {
    hide NextId, LastWithEmail;
    if items != [] {
      MergeKeepsIdentities(accounts, items[..|items| - 1], skipExisting);
      var m := MergeAll(accounts, items[..|items| - 1], skipExisting);
      MergeItemKeepsIdentities(m, items[|items| - 1], skipExisting);
    }
  }

  /** A merge leaves an account alone when the backup has no valid item for its email. */
  lemma {:induction false} MergeLeavesOthersAlone(accounts: seq<Account>, items: seq<Item>, skipExisting: bool, i: nat)
    requires i < |accounts| && forall item :: item in items && IsValid(item) ==> item.email != accounts[i].email
    ensures var r := MergeAll(accounts, items, skipExisting).accounts; i < |r| && r[i] == accounts[i]
  {
    hide NextId, LastWithEmail;
    if items != [] {
      MergeLeavesOthersAlone(accounts, items[..|items| - 1], skipExisting, i);
      assert items[|items| - 1] in items;
    }
  }

  /** The refresh token a backup brings for an email: that of its last valid item. */
  function LastToken(items: seq<Item>, email: string): Option<string> {
    if items == [] then None
    else if IsValid(items[|items| - 1]) && items[|items| - 1].email == email then Some(items[|items| - 1].refreshToken)
    else LastToken(items[..|items| - 1], email)
  }

  /** After a merge every email of a valid item has an account, and unless existing
      accounts are skipped it carries the last refresh token the backup has for it. */
  lemma {:induction false} MergeBringsTokens(accounts: seq<Account>, items: seq<Item>, skipExisting: bool,
                                             email: string)
    requires LastToken(items, email).Some?
    ensures var r := MergeAll(accounts, items, skipExisting).accounts;
            var k := LastWithEmail(r, email);
            k.Some? && (!skipExisting ==> r[k.value].refreshToken == LastToken(items, email).value)
  {
    hide NextId;
    var item, before := items[|items| - 1], MergeAll(accounts, items[..|items| - 1], skipExisting).accounts;
    var r := MergeAll(accounts, items, skipExisting).accounts;
    if IsValid(item) && item.email == email {
      var k := LastWithEmail(before, email);
      if k.Some? { SameEmailsSameLast(before, r, email); }
    } else {
      MergeBringsTokens(accounts, items[..|items| - 1], skipExisting, email);
      if |r| == |before| { SameEmailsSameLast(before, r, email); } else { assert r[..|r| - 1] == before; }
    }
  }

  lemma {:induction false} ReplaceCounts(items: seq<Item>)
    ensures |ReplaceAll(items)| == ValidCount(items)
  {
    if items != [] { ReplaceCounts(items[..|items| - 1]); }
  }

  lemma {:induction false} ReplaceNumbers(items: seq<Item>)
    ensures forall a :: a in ReplaceAll(items) ==> exists n :: 1 <= n <= |items| && a.id == IdNumber(n)
    ensures DistinctIds(ReplaceAll(items))
  {
    if items != [] {
      var p := ReplaceAll(items[..|items| - 1]);
      ReplaceNumbers(items[..|items| - 1]);
      forall a | a in p
        ensures a.id != IdNumber(|items|)
      {
        var n :| 1 <= n <= |items| - 1 && a.id == IdNumber(n);
        IdNumbersDiffer(n, |items|);
      }
    }
  }

  lemma IdNumbersDiffer(m: nat, n: nat)
    requires m != n
    ensures IdNumber(m) != IdNumber(n)
  {
    assert IdNumber(m)[4..] == Decimal(m) && IdNumber(n)[4..] == Decimal(n);
    if Decimal(m) == Decimal(n) { DecimalInjective(m, n); }
  }

  /** A replacement numbers the valid items by their place in the backup, so IDs are
      distinct, and the active ID is one of them, or unset when there is none. */
  lemma ReplaceIsConsistent(items: seq<Item>, activeEmail: string)
    ensures var r := ReplaceAll(items);
            && DistinctIds(r) && |r| == ValidCount(items)
            && (r == [] ==> ActiveAfterReplace(r, activeEmail) == None)
            && (r != [] ==> exists a :: a in r && ActiveAfterReplace(r, activeEmail) == Some(a.id) &&
                              ((exists b :: b in r && b.email == activeEmail && activeEmail != "") ==>
                                a.email == activeEmail))
  {
    ReplaceNumbers(items);
    ReplaceCounts(items);
    var r := ReplaceAll(items);
    FirstWithEmailMeaning(r, activeEmail);
    if r != [] {
      var named := FirstWithEmail(r, activeEmail);
      var a := if activeEmail != "" && named.Some? then named.value else r[0];
      assert a in r && ActiveAfterReplace(r, activeEmail) == Some(a.id);
    }
  }

  lemma {:induction false} FirstWithEmailMeaning(accounts: seq<Account>, email: string)
    ensures FirstWithEmail(accounts, email).Some? <==> exists a :: a in accounts && a.email == email
    ensures FirstWithEmail(accounts, email).Some? ==>
              FirstWithEmail(accounts, email).value in accounts && FirstWithEmail(accounts, email).value.email == email
  {
    if accounts != [] {
      FirstWithEmailMeaning(accounts[1..], email);
      assert accounts == [accounts[0]] + accounts[1..];
    }
  }
}
