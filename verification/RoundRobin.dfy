/** The persisted round-robin cursor and its fairness. */
module RoundRobin {
  import opened Common
  import opened Capacity
  import opened Scheduler

  function Wrap(s: seq<Account>): seq<Option<Account>> { seq(|s|, i requires 0 <= i < |s| => Some(s[i])) }

  function Reservation(accounts: seq<Account>, cursor: Option<string>, now: real): seq<Account> {
    Order(Wrap(accounts), STRATEGY_ROUND_ROBIN, cursor, now)
  }

  /** The cursor moves to the account put first. */
  function NextCursor(r: seq<Account>, cursor: Option<string>): Option<string> {
    if r != [] && r[0].id != "" then Some(r[0].id) else cursor
  }

  class StateDB {
    var accounts: seq<Account>
    var cursor: Option<string>

    constructor (accounts: seq<Account>, cursor: Option<string>)
      ensures this.accounts == accounts && this.cursor == cursor
    {
      this.accounts, this.cursor := accounts, cursor;
    }

    /** Orders the candidates and advances the cursor in one transaction; None is a
        transaction that failed and left the cursor alone. */
    method ReserveRoundRobinCandidates(now: real, txFails: bool) returns (r: Option<seq<Account>>)
      modifies this`cursor
      ensures txFails ==> r == None && cursor == old(cursor)
      ensures !txFails ==>
                r == Some(Reservation(accounts, old(cursor), now)) && cursor == NextCursor(r.value, old(cursor))
    {
      if txFails { return None; }
      if |accounts| == 0 {
        NothingToOrder(STRATEGY_ROUND_ROBIN, cursor, now);
        assert Wrap(accounts) == [];
        return Some([]);
      }
      var ordered := OrderCandidates(Wrap(accounts), STRATEGY_ROUND_ROBIN, cursor, now);
      if |ordered| > 0 && ordered[0].id != "" { cursor := Some(ordered[0].id); }
      r := Some(ordered);
    }
  }

  // ---------- Fairness ----------

  function IdsOf(s: seq<Account>): seq<string> { seq(|s|, i requires 0 <= i < |s| => s[i].id) }

  function EligibleIds(accounts: seq<Account>, now: real): seq<string> { IdsOf(Eligible(Present(Wrap(accounts)), now)) }

  ghost predicate Distinct(ids: seq<string>) {
    && (forall i, j :: 0 <= i < j < |ids| ==> ids[i] != ids[j])
    && (forall i :: 0 <= i < |ids| ==> ids[i] != "")
  }

  /** The pool, the time and the cursor each reservation finds. Between reservations
      anything may happen to the accounts as long as the same ones stay eligible. */
  datatype Moment = Moment(accounts: seq<Account>, now: real, cursor: Option<string>)

  function FirstId(m: Moment): string
    requires Reservation(m.accounts, m.cursor, m.now) != []
  {
    Reservation(m.accounts, m.cursor, m.now)[0].id
  }

  ghost predicate Reservations(ms: seq<Moment>, ids: seq<string>) {
    && (forall k :: 0 <= k < |ms| ==> EligibleIds(ms[k].accounts, ms[k].now) == ids)
    && (forall k :: 0 <= k < |ms| - 1 ==>
          ms[k + 1].cursor == NextCursor(Reservation(ms[k].accounts, ms[k].cursor, ms[k].now), ms[k].cursor))
  }

  /** Where in `ids` the reservation starts. */
  function StartIndex(ids: seq<string>, cursor: Option<string>): nat {
    if cursor.None? || ids == [] then 0
    else if ids[0] == cursor.value then 1
    else var k := StartIndex(ids[1..], cursor); if k == 0 then 0 else k + 1
  }

  lemma {:induction false} StartByIds(s: seq<Account>, cursor: Option<string>)
    ensures StartAfter(s, cursor) == StartIndex(IdsOf(s), cursor) <= |s|
  {
    if s != [] {
      assert IdsOf(s)[1..] == IdsOf(s[1..]);
      StartByIds(s[1..], cursor);
    }
  }

  lemma {:induction false} StartAtId(ids: seq<string>, i: nat)
    requires Distinct(ids) && i < |ids|
    ensures StartIndex(ids, Some(ids[i])) == i + 1
  {
    if i > 0 { StartAtId(ids[1..], i - 1); }
  }

  lemma ReservationHead(m: Moment)
    requires Eligible(Present(Wrap(m.accounts)), m.now) != []
    ensures Reservation(m.accounts, m.cursor, m.now) != []
    ensures Reservation(m.accounts, m.cursor, m.now)[0] ==
            Rotate(Eligible(Present(Wrap(m.accounts)), m.now), m.cursor)[0]
  {
    hide OfTiers, Present, StableSort, StartAfter, Wrap;
  }

  /** The starting position: after the cursor's account, wrapping around. */
  function Start(ids: seq<string>, cursor: Option<string>): nat {
    var k := StartIndex(ids, cursor); if k < |ids| then k else 0
  }

  function Wrapped(i: nat, n: nat): int { if i < n then i else i - n }

  lemma FirstOfReservation(m: Moment, ids: seq<string>)
    requires EligibleIds(m.accounts, m.now) == ids && Distinct(ids) && ids != []
    ensures Reservation(m.accounts, m.cursor, m.now) != [] && Start(ids, m.cursor) < |ids|
    ensures FirstId(m) == ids[Start(ids, m.cursor)]
    ensures NextCursor(Reservation(m.accounts, m.cursor, m.now), m.cursor) == Some(FirstId(m))
  {
    hide OfTiers, Present, Reservation, StartAfter, StartIndex, Wrap;
    var e := Eligible(Present(Wrap(m.accounts)), m.now);
    assert |e| == |ids|;
    StartByIds(e, m.cursor);
    ReservationHead(m);
    var k := StartAfter(e, m.cursor);
    assert Rotate(e, m.cursor)[0] == e[Start(ids, m.cursor)];
    assert IdsOf(e)[Start(ids, m.cursor)] == e[Start(ids, m.cursor)].id;
  }

  lemma {:induction false} Rotates(ms: seq<Moment>, ids: seq<string>, k: nat)
    requires Reservations(ms, ids) && Distinct(ids) && k < |ms| <= |ids|
    ensures Reservation(ms[k].accounts, ms[k].cursor, ms[k].now) != [] && Start(ids, ms[0].cursor) < |ids|
    ensures FirstId(ms[k]) == ids[Wrapped(Start(ids, ms[0].cursor) + k, |ids|)]
  {
    hide Reservation, StartIndex, EligibleIds, NextCursor;
    FirstOfReservation(ms[k], ids);
    if k > 0 {
      Rotates(ms, ids, k - 1);
      FirstOfReservation(ms[k - 1], ids);
      assert ms[k - 1 + 1].cursor ==
        NextCursor(Reservation(ms[k - 1].accounts, ms[k - 1].cursor, ms[k - 1].now), ms[k - 1].cursor);
      StartAtId(ids, Wrapped(Start(ids, ms[0].cursor) + (k - 1), |ids|));
    }
  }

  /** Any n consecutive reservations over n eligible accounts, from any cursor, a
      stale or absent one included, put every eligible account first exactly once. */
  lemma RoundRobinIsFair(ms: seq<Moment>, ids: seq<string>, i: nat)
    requires Reservations(ms, ids) && Distinct(ids) && |ms| == |ids| && i < |ids|
    ensures forall k :: 0 <= k < |ms| ==> Reservation(ms[k].accounts, ms[k].cursor, ms[k].now) != []
    ensures exists k :: 0 <= k < |ms| && FirstId(ms[k]) == ids[i]
    ensures forall k, l :: 0 <= k < l < |ms| ==> FirstId(ms[k]) != FirstId(ms[l])
  {
    hide Reservation, EligibleIds, Reservations, Start, FirstId;
    var n, s := |ids|, Start(ids, ms[0].cursor);
    forall k | 0 <= k < n
      ensures Reservation(ms[k].accounts, ms[k].cursor, ms[k].now) != [] && s < n
      ensures FirstId(ms[k]) == ids[Wrapped(s + k, n)]
    {
      Rotates(ms, ids, k);
    }
    assert s < n by { Rotates(ms, ids, 0); }
    var k := if i >= s then i - s else i + n - s;
    assert FirstId(ms[k]) == ids[i];
  }

  /** The turn after an account's goes to the one that follows it in the pool's order, and
      after the last one's to the first. */
  lemma NextInTurn(ms: seq<Moment>, ids: seq<string>, k: nat, i: nat)
    requires Reservations(ms, ids) && Distinct(ids) && k + 1 < |ms| && i < |ids|
    ensures Reservation(ms[k].accounts, ms[k].cursor, ms[k].now) != []
    ensures Reservation(ms[k + 1].accounts, ms[k + 1].cursor, ms[k + 1].now) != []
    ensures FirstId(ms[k]) == ids[i] ==> FirstId(ms[k + 1]) == ids[if i + 1 < |ids| then i + 1 else 0]
  {
    hide Reservation, EligibleIds, NextCursor, StartIndex;
    FirstOfReservation(ms[k], ids);
    FirstOfReservation(ms[k + 1], ids);
    StartAtId(ids, i);
  }

  /** The whole order: from the account after the cursor's to the end, then from the head to the
      cursor's; without such an account the pool's own order. */
  lemma ReservationExactly(accounts: seq<Account>, cursor: Option<string>, now: real, i: nat)
    ensures var e, r := Eligible(Present(Wrap(accounts)), now), Order(Wrap(accounts), "round_robin", cursor, now);
            && |e| <= |r|
            && (i < |e| && cursor == Some(e[i].id) && (forall j :: 0 <= j < i ==> e[j].id != e[i].id) ==>
                  r[..|e|] == e[i + 1..] + e[..i + 1])
            && (cursor == None || (forall a :: a in e ==> cursor != Some(a.id)) ==> r[..|e|] == e)
  {
    var e := Eligible(Present(Wrap(accounts)), now);
    var k := StartAfter(e, cursor);
    EligibleComesFirst(accounts, cursor, now);
    hide Reservation, Order, Eligible, Wrap, Present, OfTiers;
    if i < |e| && cursor == Some(e[i].id) && (forall j :: 0 <= j < i ==> e[j].id != e[i].id) {
      assert e[i] in e;
    }
    assert e[0..] + e[..0] == e;
  }

  lemma EligibleComesFirst(accounts: seq<Account>, cursor: Option<string>, now: real)
    ensures var e := Eligible(Present(Wrap(accounts)), now);
            && Reservation(accounts, cursor, now) == Order(Wrap(accounts), "round_robin", cursor, now)
            && |e| <= |Reservation(accounts, cursor, now)|
            && Reservation(accounts, cursor, now)[..|e|] == Rotate(e, cursor)
  {
    hide OfTiers, Present, StableSort, StartAfter, Wrap;
  }
}
