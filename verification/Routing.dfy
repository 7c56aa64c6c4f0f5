/** Generation requests from the scheduler's order to the auditor's verdict. */
module Routing {
  import opened Common
  import opened Capacity
  import opened Scheduler
  import opened Ordering
  import opened Audit
  import Proxy

  /** The accounts as the request handler walks them. */
  function Candidates(accounts: seq<Account>): seq<Proxy.Candidate> {
    seq(|accounts|, i requires 0 <= i < |accounts| => Proxy.Candidate(accounts[i].id, accounts[i].status))
  }

  lemma OrderedAreUnrestricted(cs: seq<Option<Account>>, strategy: string, cursor: Option<string>, now: real)
    ensures forall a :: a in Order(cs, strategy, cursor, now) ==> !IsRestricted(a) && Some(a) in cs
  {
    hide Order, Present, IsRestricted;
    OrderIsPermutation(cs, strategy, cursor, now);
    forall a | a in Order(cs, strategy, cursor, now)
      ensures !IsRestricted(a) && Some(a) in cs
    {
      assert a in multiset(Present(cs));
      PresentMembers(cs, a);
    }
  }

  lemma {:induction false} AllAllowed(candidates: seq<Proxy.Candidate>)
    requires forall c :: c in candidates ==> !Proxy.IsRestricted(c)
    ensures Proxy.Allowed(candidates, true) == candidates
  {
    hide Proxy.IsRestricted;
    if candidates != [] {
      AllAllowed(candidates[1..]);
      assert candidates == [candidates[0]] + candidates[1..];
    }
  }

  /** The handler passes over none of the candidates the scheduler gives it. */
  lemma DispatchFollowsOrder(cs: seq<Option<Account>>, strategy: string, cursor: Option<string>, now: real)
    ensures Proxy.Allowed(Candidates(Order(cs, strategy, cursor, now)), true) ==
            Candidates(Order(cs, strategy, cursor, now))
  {
    hide Order;
    var r := Order(cs, strategy, cursor, now);
    OrderedAreUnrestricted(cs, strategy, cursor, now);
    forall c | c in Candidates(r)
      ensures !Proxy.IsRestricted(c)
    {
      var i :| 0 <= i < |r| && Candidates(r)[i] == c;
      assert r[i] in r;
    }
    AllAllowed(Candidates(r));
  }

  /** A whole generation request: attempt k goes to the k-th account of the scheduler's order,
      and its event is judged a violation if and only if max_quota is in force and an earlier
      attempt, whose answer made the handler fail over, went to a better account. */
  lemma AttemptsAreJudgedByFailover(cs: seq<Option<Account>>, strategy: string, cursor: Option<string>, now: real,
                                    display: Display,
                                    world: seq<Proxy.Upstream>, attempts: seq<Proxy.Attempt>, k: nat)
    requires var candidates := Candidates(Order(cs, strategy, cursor, now));
             && |world| == |Proxy.Allowed(candidates, true)| && k < |attempts| == Proxy.AttemptsMade(world) <= |world|
             && forall i :: 0 <= i < |attempts| ==>
               attempts[i] == Proxy.Attempt(Proxy.Allowed(candidates, true)[i], world[i])
    ensures var r := Order(cs, strategy, cursor, now);
            && k < |r| && attempts[k].account == Proxy.Candidate(r[k].id, r[k].status)
            && (IsViolation(Freeze(cs, strategy, r[k], now, display)) <==>
                  (strategy == "" || strategy == STRATEGY_MAX_QUOTA) &&
                  exists j :: 0 <= j < k && Better(r[j], Classify(r[k], now), now)
                    && Proxy.Replayable(attempts[j].answer))
  {
    hide Order, Freeze, Better, Classify, IsViolation, Proxy.Replayable, Proxy.Allowed;
    DispatchFollowsOrder(cs, strategy, cursor, now);
    ViolationMeansFailover(cs, strategy, cursor, now, display, k);
    Proxy.AttemptsMadeMeaning(world);
    hide Proxy.AttemptsMade;
    assert forall j :: 0 <= j < k ==> attempts[j].answer == world[j] && Proxy.Replayable(world[j]);
  }
}
