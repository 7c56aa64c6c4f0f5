/** What a target text selects, and what switching to or removing an account by its ID does. */
module Selections {
  import opened Common
  import opened TwoStore

  // ---------- Texts ----------

  /** `t` is `s` without the white space at its two ends. */
  ghost predicate IsTrimmed(s: string, t: string, i: int, j: int) {
    && 0 <= i <= j <= |s| && t == s[i..j]
    && (forall k :: 0 <= k < i ==> IsSpace(s[k])) && (forall k :: j <= k < |s| ==> IsSpace(s[k]))
    && (t != "" ==> !IsSpace(t[0]) && !IsSpace(t[|t| - 1]))
  }

  lemma {:induction false} TrimMeaning(s: string) returns (i: nat, j: nat)
    ensures IsTrimmed(s, Trim(s), i, j)
    decreases |s|
  {
    hide IsSpace;
    i, j := 0, |s|;
    if s != "" && IsSpace(s[0]) {
      i, j := TrimMeaning(s[1..]);
      assert forall k :: 1 <= k < |s| ==> s[k] == s[1..][k - 1];
      assert s[1..][i..j] == s[i + 1..j + 1];
      i, j := i + 1, j + 1;
    } else if s != "" && IsSpace(s[|s| - 1]) {
      i, j := TrimMeaning(s[..|s| - 1]);
      assert s[..|s| - 1][i..j] == s[i..j];
    } else {
      assert s[0..|s|] == s;
    }
  }

  lemma {:induction false} DecimalIsRead(n: nat)
    ensures IsDigits(Decimal(n)) && DigitsValue(Decimal(n)) == n
  {
    var s := Decimal(n);
    if n < 10 {
      assert s[..0] == "" && DigitsValue("") == 0;
    } else {
      DecimalIsRead(n / 10);
      assert s[..|s| - 1] == Decimal(n / 10);
    }
  }

  lemma DigitsAreNotTrimmed(s: string)
    requires IsDigits(s)
    ensures Trim(s) == s
  {
    assert !IsSpace(s[0]) && !IsSpace(s[|s| - 1]);
  }

  /** A number selects the account in that place, counted from one, and nothing outside the list. */
  lemma PositionsSelect(accounts: seq<Account>, n: nat)
    requires n < TWO_64 / 2
    ensures FindAccountByTarget(accounts, Decimal(n)) ==
            if 1 <= n <= |accounts| then Some(accounts[n - 1]) else None
  {
    DecimalIsRead(n);
    DigitsAreNotTrimmed(Decimal(n));
    hide Trim, DigitsValue, IsDigits, FindNamed;
  }

  /** Every other text selects the first account that has it as its ID, email or name. */
  lemma NamesSelect(accounts: seq<Account>, text: string, k: int)
    requires text != "" && Trim(text) == text && !IsPosition(text)
    ensures (forall a :: a in accounts ==> a.id != text && a.email != text && a.name != text) ==>
              FindAccountByTarget(accounts, text) == None
    ensures 0 <= k < |accounts| && (accounts[k].id == text || accounts[k].email == text || accounts[k].name == text)
            && (forall j :: 0 <= j < k ==>
                  accounts[j].id != text && accounts[j].email != text && accounts[j].name != text) ==>
              FindAccountByTarget(accounts, text) == Some(accounts[k])
  {
    var l := FindNamedIsFirst(accounts, text);
    hide FindNamed, Trim, IsPosition;
    if FindNamed(accounts, text).Some? {
      assert accounts[l] in accounts && Carries(accounts[l], text);
      if FirstCarrier(accounts, text, k) { FirstIsOne(accounts, text, k, l); }
    } else if 0 <= k < |accounts| {
      assert accounts[k] in accounts;
    }
  }

  // ---------- Main results ----------

  /** Switching to an ID makes that account the active one in both stores, unless the
      synchronization or the transaction fails. */
  lemma SwitchActivates(s: Stores, a: Account, pick: nat, f: Faults)
    requires Valid(s) && a in s.accounts && a.id != "auto"
    ensures var (t, r) := Perform(s, Switch(a.id, pick), f);
            && (r == Succeeded <==> !f.sync && !f.tx)
            && (r == Succeeded ==> t == Stores(s.accounts, Some(a.id), Some(a.id)))
            && (r != Succeeded ==> t.accounts == s.accounts && t.active == s.active)
            && (f.sync ==> t == s)
  {
    IdSelectsItself(s.accounts, a);
    var k :| 0 <= k < |s.accounts| && s.accounts[k] == a;
    hide FindAccountByTarget;
  }

  lemma {:induction false} RemoveFromMiddle(before: seq<Account>, a: Account, after: seq<Account>)
    requires forall b :: b in before || b in after ==> b.id != a.id
    ensures RemoveId(before + [a] + after, a.id) == before + after
    ensures FirstOther(before + [a] + after, a.id) == if before + after == [] then None else Some((before + after)[0])
  {
    var all := before + [a] + after;
    if before == [] {
      assert all[1..] == after && before + after == after;
      RemoveNothing(after, a.id);
    } else {
      RemoveFromMiddle(before[1..], a, after);
      assert all[1..] == before[1..] + [a] + after;
      assert before + after == [before[0]] + (before[1..] + after);
      assert before[0] in before;
    }
  }

  lemma {:induction false} RemoveNothing(accounts: seq<Account>, id: string)
    requires forall b :: b in accounts ==> b.id != id
    ensures RemoveId(accounts, id) == accounts
    ensures FirstOther(accounts, id) == if accounts == [] then None else Some(accounts[0])
  {
    if accounts != [] {
      assert accounts[0] in accounts;
      RemoveNothing(accounts[1..], id);
    }
  }

  /** Removing an ID takes out that account and no other. When it was the active one the first
      of the others becomes active, in both stores. */
  lemma RemovalTakesOut(s: Stores, before: seq<Account>, a: Account, after: seq<Account>, f: Faults)
    requires Valid(s) && s.accounts == before + [a] + after
    ensures var (t, r) := Perform(s, Remove(a.id), f);
            var rest, active := before + after, s.active == Some(a.id);
            && (r == Succeeded <==> !f.tx && !(active && rest != [] && f.sync))
            && (r != Succeeded ==> t.accounts == s.accounts && t.active == s.active)
            && (r == Succeeded ==> t.accounts == rest)
            && (r == Succeeded && !active ==> t.active == s.active && t.file == s.file)
            && (r == Succeeded && active && rest != [] ==> t.active == Some(rest[0].id) && t.file == t.active)
            && (r == Succeeded && active && rest == [] ==> t.active == None && t.file == s.file)
  {
    assert s.accounts[|before|] == a && a in s.accounts;
    IdSelectsItself(s.accounts, a);
    OthersDiffer(before, a, after);
    RemoveFromMiddle(before, a, after);
    hide FindAccountByTarget, RemoveId, FirstOther, WellFormed;
  }

  lemma OthersDiffer(before: seq<Account>, a: Account, after: seq<Account>)
    requires WellFormed(before + [a] + after)
    ensures forall b :: b in before || b in after ==> b.id != a.id
  {
    var all := before + [a] + after;
    hide Trim, IsDigits;
    assert all[|before|] == a;
    forall b | b in before || b in after
      ensures b.id != a.id
    {
      if b in before {
        var k :| 0 <= k < |before| && before[k] == b;
        assert all[k] == b;
      } else {
        var k :| 0 <= k < |after| && after[k] == b;
        assert all[|before| + 1 + k] == b;
      }
    }
  }
}
