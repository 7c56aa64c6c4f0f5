/** What an account holds after an import, field by field, from the backup's items alone. */
module ImportedFields {
  import opened Common
  import opened Import

  // ---------- What the items bring ----------

  /** The item brings credentials for the email. */
  predicate Brings(item: Item, email: string) {
    item.Item? && item.email == email && email != "" && item.refreshToken != ""
  }

  function Token(item: Item): Option<string> { if item.Item? then Some(item.refreshToken) else None }

  function Access(item: Item): Option<string> {
    if item.Item? && item.accessToken != "" then Some(item.accessToken) else None
  }

  /** An expiry counts only beside an access token. */
  function Expiry(item: Item): Option<int> { if Access(item).Some? then item.tokenExpiry else None }

  function Name(item: Item): Option<string> { if item.Item? && item.name != "" then Some(item.name) else None }

  /** The last thing of one kind the items bring for an email. */
  ghost function Last<T>(items: seq<Item>, email: string, kind: Item -> Option<T>): Option<T> {
    if items == [] then None else
      var item := items[|items| - 1];
      if Brings(item, email) && kind(item).Some? then kind(item) else Last(items[..|items| - 1], email, kind)
  }

  /** The first thing of one kind the items bring for an email. */
  ghost function First<T>(items: seq<Item>, email: string, kind: Item -> Option<T>): Option<T> {
    if items == [] then None
    else if First(items[..|items| - 1], email, kind).Some? then First(items[..|items| - 1], email, kind)
    else if Brings(items[|items| - 1], email) then kind(items[|items| - 1]) else None
  }

  function OrElse<T>(x: Option<T>, y: T): T { if x.Some? then x.value else y }

  /** The account keeps its identity and takes the last refresh token, the last access token and
      expiry there are, and a name when it has none; a restriction is lifted. */
  ghost predicate TakesFields(before: Account, items: seq<Item>, after: Account) {
    var e := before.email;
    && after.id == before.id && after.email == e
    && after.refreshToken == OrElse(Last(items, e, Token), before.refreshToken)
    && after.accessToken == OrElse(Last(items, e, Access), before.accessToken)
    && (if Last(items, e, Expiry).Some? then after.tokenExpiry == Last(items, e, Expiry)
        else after.tokenExpiry == before.tokenExpiry)
    && after.name == (if before.name != "" then before.name else OrElse(First(items, e, Name), ""))
    && (if Last(items, e, Token).Some? then after.status == "" && after.rateLimitedUntil == None
        else after.status == before.status && after.rateLimitedUntil == before.rateLimitedUntil)
  }

  lemma TakesNothing(a: Account)
    ensures TakesFields(a, [], a)
  {}

  lemma {:induction false} NamesAreTexts(items: seq<Item>, email: string)
    ensures First(items, email, Name) != Some("")
  {
    if items != [] { NamesAreTexts(items[..|items| - 1], email); }
  }

  lemma TakesOneMore(before: Account, items: seq<Item>, a: Account, item: Item)
    requires TakesFields(before, items, a)
    ensures Brings(item, before.email) ==> IsValid(item) && TakesFields(before, items + [item], Refreshed(a, item))
    ensures !Brings(item, before.email) ==> TakesFields(before, items + [item], a)
  {
    assert (items + [item])[..|items|] == items;
    NamesAreTexts(items, before.email);
  }

  // ---------- Accounts that were there ----------

  /** The account in place `k` is the last one with its email. */
  ghost predicate IsLastOf(accounts: seq<Account>, k: int, email: string) {
    0 <= k < |accounts| && accounts[k].email == email && forall j :: k < j < |accounts| ==> accounts[j].email != email
  }

  lemma {:induction false} LastIsFound(accounts: seq<Account>, k: int, email: string)
    requires IsLastOf(accounts, k, email)
    ensures LastWithEmail(accounts, email) == Some(k)
  {
    if k < |accounts| - 1 { LastIsFound(accounts[..|accounts| - 1], k, email); }
  }

  lemma NotFound(accounts: seq<Account>, email: string)
    requires forall a :: a in accounts ==> a.email != email
    ensures LastWithEmail(accounts, email) == None
  {}

  lemma FoundIsLast(accounts: seq<Account>, email: string)
    ensures LastWithEmail(accounts, email).Some? ==> IsLastOf(accounts, LastWithEmail(accounts, email).value, email)
  {
    if exists a :: a in accounts && a.email == email {
      var k := LastPlace(accounts, email);
      LastIsFound(accounts, k, email);
    } else {
      NotFound(accounts, email);
    }
  }

  lemma {:induction false} LastPlace(accounts: seq<Account>, email: string) returns (k: int)
    requires exists a :: a in accounts && a.email == email
    ensures IsLastOf(accounts, k, email)
  {
    k := |accounts| - 1;
    if accounts[k].email != email {
      assert accounts == accounts[..k] + [accounts[k]];
      k := LastPlace(accounts[..k], email);
    }
  }

  lemma MergeItemMeaning(m: Merge, item: Item, e: string, k: int)
    requires IsLastOf(m.accounts, k, e)
    ensures var r := MergeItem(m, item, false).accounts;
            && IsLastOf(r, k, e)
            && r[k] == if Brings(item, e) && IsValid(item) then Refreshed(m.accounts[k], item) else m.accounts[k]
  {
    LastIsFound(m.accounts, k, e);
    if IsValid(item) { FoundIsLast(m.accounts, item.email); }
    hide LastWithEmail, NextId;
  }

  /** A merge refreshes an account that was there with everything the backup brings for its
      email; of several accounts with one email, the last. */
  lemma {:induction false} ExistingAccounts(accounts: seq<Account>, items: seq<Item>, k: int)
    requires 0 <= k < |accounts| && IsLastOf(accounts, k, accounts[k].email)
    ensures var r := MergeAll(accounts, items, false).accounts;
            IsLastOf(r, k, accounts[k].email) && TakesFields(accounts[k], items, r[k])
  {
    if items == [] {
      TakesNothing(accounts[k]);
    } else {
      var n := |items| - 1;
      var m := MergeAll(accounts, items[..n], false);
      ExistingAccounts(accounts, items[..n], k);
      assert items == items[..n] + [items[n]];
      hide MergeItem, TakesFields, IsLastOf, Refreshed;
      TakesOneMore(accounts[k], items[..n], m.accounts[k], items[n]);
      MergeItemMeaning(m, items[n], accounts[k].email, k);
    }
  }

  // ---------- Accounts the backup adds ----------

  ghost predicate NoneBrings(items: seq<Item>, email: string) { forall item :: item in items ==> !Brings(item, email) }

  lemma {:induction false} NothingBrought<T>(items: seq<Item>, email: string, kind: Item -> Option<T>)
    requires NoneBrings(items, email)
    ensures Last(items, email, kind) == None && First(items, email, kind) == None
  {
    if items != [] {
      assert items == items[..|items| - 1] + [items[|items| - 1]];
      NothingBrought(items[..|items| - 1], email, kind);
    }
  }

  /** The account an item begins, before anything else is taken into it. */
  function Begun(id: string, item: Item): Account
    requires item.Item?
  {
    Account(id, item.email, "", "", "", item.tokenExpiry, "", None)
  }

  lemma BegunTakesItem(id: string, items: seq<Item>, item: Item)
    requires IsValid(item) && NoneBrings(items, item.email)
    ensures Brings(item, item.email) && TakesFields(Begun(id, item), items + [item], NewAccount(id, item))
  {
    assert (items + [item])[..|items|] == items;
    NothingBrought(items, item.email, Token);
    NothingBrought(items, item.email, Access);
    NothingBrought(items, item.email, Expiry);
    NothingBrought(items, item.email, Name);
  }

  lemma {:induction false} Untouched(accounts: seq<Account>, items: seq<Item>, skip: bool, email: string)
    requires NoneBrings(items, email) && email != "" && forall a :: a in accounts ==> a.email != email
    ensures forall a :: a in MergeAll(accounts, items, skip).accounts ==> a.email != email
  {
    hide LastWithEmail, NextId;
    if items != [] {
      assert items == items[..|items| - 1] + [items[|items| - 1]];
      Untouched(accounts, items[..|items| - 1], skip, email);
      StaysUntouched(MergeAll(accounts, items[..|items| - 1], skip), items[|items| - 1], skip, email);
    }
  }

  lemma StaysUntouched(m: Merge, item: Item, skip: bool, email: string)
    requires !Brings(item, email) && email != "" && forall a :: a in m.accounts ==> a.email != email
    ensures forall a :: a in MergeItem(m, item, skip).accounts ==> a.email != email
  {
    hide LastWithEmail, NextId;
    var r := MergeItem(m, item, skip).accounts;
    forall k | 0 <= k < |r|
      ensures r[k].email != email
    {
      if k < |m.accounts| { assert m.accounts[k] in m.accounts; }
    }
  }

  lemma AddsAccount(m: Merge, item: Item, skip: bool)
    requires IsValid(item) && forall a :: a in m.accounts ==> a.email != item.email
    ensures MergeItem(m, item, skip).accounts == m.accounts + [NewAccount(NextId(m.accounts), item)]
  {
    hide NextId;
  }

  /** The first item for an email no account has adds one with a fresh numbered ID. */
  lemma AddedAccount(accounts: seq<Account>, items: seq<Item>, item: Item, skip: bool) returns (id: string, k: int)
    requires item.Item? && Brings(item, item.email) && NoneBrings(items, item.email)
    requires forall a :: a in accounts ==> a.email != item.email
    ensures var before := MergeAll(accounts, items, skip).accounts;
            var r := MergeAll(accounts, items + [item], skip).accounts;
            && k == |before| && |r| == k + 1 && r[..k] == before && (forall a :: a in before ==> a.id != id)
            && IsLastOf(r, k, item.email) && (exists n: nat :: id == "acc_" + Decimal(n))
            && r[k] == Account(id, item.email, item.name, item.refreshToken, item.accessToken, item.tokenExpiry, "",
                               None)
            && TakesFields(Begun(id, item), items + [item], r[k])
  {
    var m := MergeAll(accounts, items, skip);
    assert (items + [item])[..|items|] == items;
    Untouched(accounts, items, skip, item.email);
    AddsAccount(m, item, skip);
    FreshId(m.accounts);
    id, k := NextId(m.accounts), |m.accounts|;
    BegunTakesItem(id, items, item);
    hide MergeAll, MergeItem, LastWithEmail, FirstFree, TakesFields;
  }

  /** ... and the items after it, unless existing accounts are skipped, refresh it like any other. */
  lemma {:induction false} AddedAccounts(accounts: seq<Account>, items: seq<Item>, item: Item, later: seq<Item>)
    returns (id: string, k: int)
    requires item.Item? && Brings(item, item.email) && NoneBrings(items, item.email)
    requires forall a :: a in accounts ==> a.email != item.email
    ensures var r := MergeAll(accounts, items + [item] + later, false).accounts;
            && k == |MergeAll(accounts, items, false).accounts| && IsLastOf(r, k, item.email)
            && TakesFields(Begun(id, item), items + [item] + later, r[k])
    decreases |later|
  {
    if later == [] {
      id, k := AddedAccount(accounts, items, item, false);
      assert items + [item] + later == items + [item];
    } else {
      var n := |later| - 1;
      var front := items + [item] + later[..n];
      assert items + [item] + later == front + [later[n]] && (front + [later[n]])[..|front|] == front;
      id, k := AddedAccounts(accounts, items, item, later[..n]);
      var m := MergeAll(accounts, front, false);
      hide MergeItem, TakesFields, IsLastOf, Refreshed;
      TakesOneMore(Begun(id, item), front, m.accounts[k], later[n]);
      MergeItemMeaning(m, later[n], item.email, k);
    }
  }

  // ---------- Replacement ----------

  /** A replacement holds one account for every item that brings credentials, in order, with
      the item's fields and an ID that tells the item's place. */
  ghost predicate ReplacedBy(items: seq<Item>, places: seq<nat>, r: seq<Account>) {
    && |places| == |r|
    && (forall k, l :: 0 <= k < l < |places| ==> places[k] < places[l])
    && (forall p :: p in places <==> IsAccount(items, p))
    && (forall k :: 0 <= k < |r| ==> IsAccount(items, places[k]) && r[k] == AccountAt(items, places[k]))
  }

  /** The item in that place brings credentials for its own email. */
  predicate IsAccount(items: seq<Item>, p: int) {
    0 <= p < |items| && items[p].Item? && items[p].email != "" && items[p].refreshToken != ""
  }

  function AccountAt(items: seq<Item>, p: nat): Account
    requires IsAccount(items, p)
  {
    var item := items[p];
    Account("acc_" + Decimal(p + 1), item.email, item.name, item.refreshToken, item.accessToken, item.tokenExpiry, "",
            None)
  }

  lemma SamePlace(items: seq<Item>, item: Item, p: int)
    ensures p < |items| ==> IsAccount(items + [item], p) == IsAccount(items, p)
    ensures 0 <= p && IsAccount(items, p) ==> AccountAt(items + [item], p) == AccountAt(items, p)
  {}

  lemma ReplacedOneMore(items: seq<Item>, places: seq<nat>, r: seq<Account>, item: Item)
    requires ReplacedBy(items, places, r)
    ensures IsValid(item) ==>
              ReplacedBy(items + [item], places + [|items|], r + [NewAccount(IdNumber(|items| + 1), item)])
    ensures !IsValid(item) ==> ReplacedBy(items + [item], places, r)
  {
    var all := items + [item];
    assert all[|items|] == item;
    assert IsValid(item) <==> IsAccount(all, |items|);
    assert IsValid(item) ==> NewAccount(IdNumber(|items| + 1), item) == AccountAt(all, |items|);
    assert forall p :: IsAccount(items, p) ==> p < |items|;
    assert forall p :: IsAccount(all, p) ==> p <= |items|;
    forall p
      ensures p < |items| ==> IsAccount(all, p) == IsAccount(items, p)
      ensures 0 <= p && IsAccount(items, p) ==> AccountAt(all, p) == AccountAt(items, p)
    {
      SamePlace(items, item, p);
    }
    hide IsAccount, AccountAt, IsValid;
    assert forall k :: 0 <= k < |places| ==> places[k] in places;
  }

  lemma {:induction false} ReplacementHolds(items: seq<Item>) returns (places: seq<nat>)
    ensures ReplacedBy(items, places, ReplaceAll(items))
  {
    places := [];
    if items != [] {
      var n := |items| - 1;
      places := ReplacementHolds(items[..n]);
      assert items == items[..n] + [items[n]];
      ReplacedOneMore(items[..n], places, ReplaceAll(items[..n]), items[n]);
      if IsValid(items[n]) { places := places + [n]; }
      hide ReplacedBy;
    }
  }

  /** After a replacement the first account with the backup's active email is active, otherwise
      the first account there is. */
  lemma {:induction false} ActiveExactly(accounts: seq<Account>, email: string, k: int)
    requires 0 <= k < |accounts|
    ensures email != "" && accounts[k].email == email && (forall j :: 0 <= j < k ==> accounts[j].email != email) ==>
              ActiveAfterReplace(accounts, email) == Some(accounts[k].id)
    ensures email == "" || (forall a :: a in accounts ==> a.email != email) ==>
              ActiveAfterReplace(accounts, email) == Some(accounts[0].id)
    ensures ActiveAfterReplace([], email) == None
  {
    FirstWithEmailMeaning(accounts, email);
    if accounts[k].email == email && (forall j :: 0 <= j < k ==> accounts[j].email != email) {
      FirstIsFound(accounts, email, k);
    }
  }

  lemma {:induction false} FirstIsFound(accounts: seq<Account>, email: string, k: int)
    requires 0 <= k < |accounts| && accounts[k].email == email && forall j :: 0 <= j < k ==> accounts[j].email != email
    ensures FirstWithEmail(accounts, email) == Some(accounts[k])
  {
    if k > 0 { FirstIsFound(accounts[1..], email, k - 1); }
  }
}
