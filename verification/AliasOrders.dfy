/** Exactly when the order of linking matters: which sets of usages have an order that
    fails, and which have one that succeeds. */
module AliasOrders {
  import opened Common
  import opened Wire
  import opened Aliases

  ghost predicate SomeOrderFails(s: set<Usage>) { exists us :: Members(us) == s && LinkAll(map[], us).None? }

  ghost predicate SomeOrderSucceeds(s: set<Usage>) { exists us :: Members(us) == s && LinkAll(map[], us).Some? }

  /** The usages without a response ID. */
  ghost function Bare(s: set<Usage>): set<Usage> { set u | u in s && u.responseID == "" }

  ghost predicate TwoResponses(s: set<Usage>) {
    exists a, b :: a != b && IsResponse(a) && IsResponse(b) && Connected(s, a, b)
  }

  /** Two provider IDs that usages without response IDs connect. */
  ghost predicate TwoBareProviders(s: set<Usage>) {
    exists a, b :: a != b && IsProvider(a) && IsProvider(b) && Connected(Bare(s), a, b)
  }

  ghost predicate HasResponse(s: set<Usage>, id: string) { exists r :: IsResponse(r) && Connected(s, r, id) }

  /** Two connected provider IDs that no response ID is connected to. */
  ghost predicate TwoProvidersAlone(s: set<Usage>) {
    exists a, b :: a != b && IsProvider(a) && IsProvider(b) && Connected(s, a, b) && !HasResponse(s, a)
  }

  // ---------- Sequences over a set ----------

  lemma {:induction false} Listing(s: set<Usage>) returns (us: seq<Usage>)
    ensures Members(us) == s
    decreases |s|
  {
    if s == {} {
      us := [];
    } else {
      var u :| u in s;
      var rest := Listing(s - {u});
      us := [u] + rest;
      assert Members(us) == {u} + Members(rest);
    }
  }

  lemma MembersConcat(us: seq<Usage>, vs: seq<Usage>)
    ensures Members(us + vs) == Members(us) + Members(vs)
  {
    forall u
      ensures u in us + vs <==> u in us || u in vs
    {}
  }

  lemma LinkedSnoc(m: Partition, us: seq<Usage>, u: Usage)
    requires Linked(m, us) && LinkUsage(m, u).Some?
    ensures Linked(LinkUsage(m, u).value, us + [u]) && Members(us + [u]) == Members(us) + {u}
  {
    hide LinkUsage;
    LinkAllConcat(map[], us, [u]);
    assert LinkAll(m, [u]) == LinkUsage(m, u) by { assert [u][1..] == []; }
  }

  /** A failing order has a first usage that fails. */
  lemma {:induction false} FirstFailure(m: Partition, done: seq<Usage>, us: seq<Usage>)
    returns (n: Partition, p: seq<Usage>, u: Usage)
    requires Linked(m, done) && LinkAll(m, us).None?
    ensures Linked(n, p) && LinkUsage(n, u).None? && u in us && Members(p) <= Members(done) + Members(us)
    decreases |us|
  {
    hide LinkUsage, Linked;
    if LinkUsage(m, us[0]).None? {
      n, p, u := m, done, us[0];
    } else {
      LinkedSnoc(m, done, us[0]);
      n, p, u := FirstFailure(LinkUsage(m, us[0]).value, done + [us[0]], us[1..]);
      assert us == [us[0]] + us[1..];
    }
  }

  // ---------- Orders that fail ----------

  lemma PathPrefix(s: set<Usage>, p: seq<string>, i: nat)
    requires IsPath(s, p) && i < |p|
    ensures Connected(s, p[0], p[i])
  {
    var q := p[..i + 1];
    forall k | 0 <= k < |q| - 1
      ensures Shares(s, q[k], q[k + 1])
    {
      assert Shares(s, p[k], p[k + 1]);
    }
    assert PathFromTo(s, q, p[0], p[i]);
  }

  lemma OwnResponse(u: Usage, id: string)
    requires id in Ids(u) && IsResponse(id)
    ensures u.responseID != ""
  {
    assert id[0] == 'r';
  }

  /** Under a root that is no response only usages without response IDs were joined. */
  lemma BareConnection(m: Partition, us: seq<Usage>, k: string)
    requires Linked(m, us) && !IsResponse(Find(m, k))
    ensures Connected(Bare(Members(us)), k, Find(m, k))
  {
    hide IsResponse;
    var s := Members(us);
    LinkedKeeps(m, us);
    FindIsConnected(m, s, k);
    var p :| PathFromTo(s, p, k, Find(m, k));
    forall i | 0 <= i < |p| - 1
      ensures Shares(Bare(s), p[i], p[i + 1])
    {
      assert Shares(s, p[i], p[i + 1]);
      var u :| u in s && p[i] in Ids(u) && p[i + 1] in Ids(u);
      if u.responseID != "" {
        var r := Ids(u)[0];
        PathPrefix(s, p, i);
        ConnectedBySharing(s, p[i], r);
        ConnectedTransitive(s, k, p[i], r);
        RootsAreComponents(m, us, k, r);
        assert IsResponse(r) by { FirstIsResponse(u); }
        ResponseIsItsRoot(m, s, r);
      }
    }
    assert PathFromTo(Bare(s), p, k, Find(m, k));
  }

  lemma FirstIsResponse(u: Usage)
    requires u.responseID != ""
    ensures Ids(u) != [] && IsResponse(Ids(u)[0])
  {}

  /** What makes the first failing usage fail. */
  lemma FailureNeedsClash(m: Partition, us: seq<Usage>, u: Usage)
    requires Linked(m, us) && LinkUsage(m, u).None?
    ensures TwoResponses(Members(us) + {u}) || TwoBareProviders(Members(us) + {u})
  {
    var s := Members(us) + {u};
    LinkedKeeps(m, us);
    if u.responseID != "" {
      LinkUsageFailure(m, Members(us), u);
      FirstIsResponse(u);
      var a, b :| AmbiguousAt(s, Ids(u)[0], a, b);
      ResponseIsNotProvider(a);
    } else {
      BareFailure(m, us, u);
    }
  }

  lemma BareFailure(m: Partition, us: seq<Usage>, u: Usage)
    requires Linked(m, us) && LinkUsage(m, u).None? && u.responseID == ""
    ensures TwoResponses(Members(us) + {u}) || TwoBareProviders(Members(us) + {u})
  {
    var s, ids := Members(us) + {u}, Ids(u);
    LinkedKeeps(m, us);
    BareIdsClash(m, u);
    var x, y := Find(m, ids[0]), Find(m, ids[1]);
    assert u in Bare(s) && ids[0] in ids && ids[1] in ids;
    ConnectedBySharing(s, ids[0], ids[1]);
    ConnectedBySharing(Bare(s), ids[0], ids[1]);
    hide IsResponse, IsProvider, Ids, Find, Linked, Connected;
    ResponseIsNotProvider(x);
    if IsResponse(x) {
      SoundMonotone(m, Members(us), s);
      Bridge(m, s, ids[0], ids[1]);
    } else {
      ResponseIsNotProvider(y);
      BareConnection(m, us, ids[0]);
      BareConnection(m, us, ids[1]);
      ConnectedMonotone(Bare(Members(us)), Bare(s), ids[0], x);
      ConnectedMonotone(Bare(Members(us)), Bare(s), ids[1], y);
      ConnectedSymmetric(Bare(s), ids[0], x);
      ConnectedTransitive(Bare(s), x, ids[0], ids[1]);
      ConnectedTransitive(Bare(s), x, ids[1], y);
    }
  }

  lemma Bridge(m: Partition, s: set<Usage>, x: string, y: string)
    requires Sound(m, s) && Connected(s, x, y)
    ensures Connected(s, Find(m, x), Find(m, y))
  {
    hide Connected, Sound;
    FindIsConnected(m, s, x);
    FindIsConnected(m, s, y);
    ConnectedTransitive(s, Find(m, x), x, y);
    ConnectedTransitive(s, Find(m, x), y, Find(m, y));
  }

  lemma BareIdsClash(m: Partition, u: Usage)
    requires LinkUsage(m, u).None? && u.responseID == ""
    ensures |Ids(u)| == 2 && Clash(Find(m, Ids(u)[0]), Find(m, Ids(u)[1]))
  {
    hide Clash, Union, Find;
    var ids := Ids(u);
    assert |ids| <= 2;
    if |ids| == 2 {
      assert ids[1..] == [ids[1]] && [ids[1]][1..] == [];
      assert LinkIds(Union(m, ids[0], ids[1]), ids[0], []).Some?;
    }
  }

  lemma ConnectedInMore(s: set<Usage>, t: set<Usage>)
    requires s <= t
    ensures TwoResponses(s) ==> TwoResponses(t)
    ensures TwoBareProviders(s) ==> TwoBareProviders(t)
  {
    hide IsResponse, IsProvider, Connected;
    if TwoResponses(s) {
      var a, b :| a != b && IsResponse(a) && IsResponse(b) && Connected(s, a, b);
      ConnectedMonotone(s, t, a, b);
    }
    if TwoBareProviders(s) {
      var a, b :| a != b && IsProvider(a) && IsProvider(b) && Connected(Bare(s), a, b);
      ConnectedMonotone(Bare(s), Bare(t), a, b);
    }
  }

  /** Usages without response IDs do not reach a response. */
  lemma NoResponseAmongBare(s: set<Usage>, a: string, r: string)
    requires Connected(Bare(s), a, r) && IsResponse(r)
    ensures a == r
  {
    var p :| PathFromTo(Bare(s), p, a, r);
    if |p| > 1 {
      assert Shares(Bare(s), p[|p| - 2], p[|p| - 1]);
      var u :| u in Bare(s) && p[|p| - 2] in Ids(u) && p[|p| - 1] in Ids(u);
      OwnResponse(u, r);
    }
  }

  /** Linking the usages without response IDs first fails on two bare providers. */
  lemma BareFirstFails(s: set<Usage>, us: seq<Usage>)
    requires TwoBareProviders(s) && Members(us) == Bare(s)
    ensures LinkAll(map[], us).None?
  {
    var a, b :| a != b && IsProvider(a) && IsProvider(b) && Connected(Bare(s), a, b);
    if LinkAll(map[], us).Some? {
      var m := LinkAll(map[], us).value;
      LinkedKeeps(m, us);
      NoAmbiguousComponent(m, us, a, b);
      FindIsConnected(m, Bare(s), a);
      NoResponseAmongBare(s, a, Find(m, a));
      ResponseIsNotProvider(a);
      assert false;
    }
  }

  /** Some order of the usages fails if and only if two response IDs are connected, or two
      provider IDs are connected by usages without response IDs. */
  lemma SomeOrderFailsExactly(s: set<Usage>)
    ensures SomeOrderFails(s) <==> TwoResponses(s) || TwoBareProviders(s)
  {
    hide LinkAll, TwoResponses, TwoBareProviders;
    if SomeOrderFails(s) {
      var us :| Members(us) == s && LinkAll(map[], us).None?;
      NothingLinked();
      var n, p, u := FirstFailure(map[], [], us);
      FailureNeedsClash(n, p, u);
      ConnectedInMore(Members(p) + {u}, s);
    }
    var all := Listing(s);
    if TwoResponses(s) { ResponsesAlwaysFail(s, all); }
    if TwoBareProviders(s) {
      var bare := Listing(Bare(s));
      BareFirstFails(s, bare);
      LinkAllConcat(map[], bare, all);
      MembersConcat(bare, all);
      assert Bare(s) + s == s;
    }
  }

  lemma NothingLinked()
    ensures Linked(map[], [])
  {}

  lemma ResponsesAlwaysFail(s: set<Usage>, us: seq<Usage>)
    requires TwoResponses(s) && Members(us) == s
    ensures LinkAll(map[], us).None?
  {
    hide LinkAll, Connected;
    var a, b :| a != b && IsResponse(a) && IsResponse(b) && Connected(s, a, b);
    assert Ambiguous(Members(us), a, b);
    FailureMeansAmbiguity(us);
  }

  // ---------- Orders that succeed ----------

  /** Every identity joined so far is under a response. */
  ghost predicate UnderResponses(m: Partition) { forall k :: k in m ==> IsResponse(m[k]) }

  ghost predicate Reached(m: Partition, id: string) { IsResponse(Find(m, id)) }

  lemma JoinReached(m: Partition, s: set<Usage>, x: string, y: string)
    requires Ranked(m) && Sound(m, s) && UnderResponses(m) && !TwoResponses(s)
    requires IsIdentity(x) && IsIdentity(y) && Shares(s, x, y) && (Reached(m, x) || Reached(m, y))
    ensures !Clash(Find(m, x), Find(m, y))
    ensures var n := Union(m, x, y); Ranked(n) && Sound(n, s) && UnderResponses(n) && Reached(n, x)
  {
    var a, b := Find(m, x), Find(m, y);
    assert !Clash(a, b) by {
      hide Connected, Sound, IsResponse;
      ResponseIsNotProvider(a);
      ResponseIsNotProvider(b);
      ConnectedBySharing(s, x, y);
      Bridge(m, s, x, y);
    }
    UnionIsRanked(m, x, y);
    UnionIsSound(m, s, x, y);
    UnionStaysUnderResponses(m, x, y);
  }

  lemma UnionStaysUnderResponses(m: Partition, x: string, y: string)
    requires Ranked(m) && UnderResponses(m) && IsIdentity(x) && IsIdentity(y) && (Reached(m, x) || Reached(m, y))
    ensures UnderResponses(Union(m, x, y)) && Reached(Union(m, x, y), x)
  {
    var a, b := Find(m, x), Find(m, y);
    LessTotal(a, b);
    if Less(a, b) { PrefixesAreOrdered(a, b); }
    if Less(b, a) { PrefixesAreOrdered(b, a); }
    hide IsResponse, IsIdentity, Less;
  }

  lemma {:induction false} LinkIdsReached(m: Partition, s: set<Usage>, first: string, rest: seq<string>)
    requires Ranked(m) && Sound(m, s) && UnderResponses(m) && !TwoResponses(s)
    requires IsIdentity(first) && forall i :: 0 <= i < |rest| ==> IsIdentity(rest[i]) && Shares(s, first, rest[i])
    requires rest != [] ==> Reached(m, first) || Reached(m, rest[0])
    ensures LinkIds(m, first, rest).Some? && UnderResponses(LinkIds(m, first, rest).value)
    decreases |rest|
  {
    hide Ranked, Sound, UnderResponses, TwoResponses, Reached, Shares, IsIdentity, Clash, Union;
    if rest != [] {
      JoinReached(m, s, first, rest[0]);
      LinkIdsReached(Union(m, first, rest[0]), s, first, rest[1..]);
    }
  }

  /** A usage that shares an identity with a response's component links. */
  lemma LinkReached(m: Partition, us: seq<Usage>, s: set<Usage>, u: Usage, id: string)
    requires Linked(m, us) && Members(us) <= s && u in s && UnderResponses(m) && !TwoResponses(s)
    requires id in Ids(u) && Reached(m, id)
    ensures LinkUsage(m, u).Some? && UnderResponses(LinkUsage(m, u).value)
  {
    var ids := Ids(u);
    LinkedKeeps(m, us);
    SoundMonotone(m, Members(us), s);
    forall i | 0 <= i < |ids|
      ensures Shares(s, ids[0], ids[i])
    {
      assert u in s && ids[0] in Ids(u) && ids[i] in Ids(u);
    }
    if u.responseID != "" {
      FirstIsResponse(u);
      ResponseIsItsRoot(m, s, ids[0]);
    } else {
      assert |ids| <= 2;
    }
    hide Ranked, Sound, UnderResponses, TwoResponses, Shares, IsResponse;
    LinkIdsReached(m, s, ids[0], ids[1..]);
  }

  /** The first step of a path that leaves what a response has reached. */
  lemma {:induction false} LeavesReached(m: Partition, p: seq<string>, k: nat) returns (i: nat)
    requires k < |p| && Reached(m, p[0]) && !Reached(m, p[k])
    ensures i < k && Reached(m, p[i]) && !Reached(m, p[i + 1])
  {
    if Reached(m, p[k - 1]) { i := k - 1; } else { i := LeavesReached(m, p, k - 1); }
  }

  lemma NotLinkedYet(m: Partition, s: set<Usage>, v: Usage, a: string, b: string)
    requires Complete(m, s) && a in Ids(v) && b in Ids(v) && Find(m, a) != Find(m, b)
    ensures v !in s
  {
    assert !Joined(m, Ids(v));
  }

  /** While a usage of a response's component is left, one of those left is within reach. */
  lemma NextReached(m: Partition, us: seq<Usage>, s: set<Usage>, u: Usage, id: string) returns (v: Usage, k: string)
    requires Linked(m, us) && Members(us) <= s && u in s - Members(us) && id in Ids(u) && HasResponse(s, id)
    ensures v in s - Members(us) && k in Ids(v) && Reached(m, k)
  {
    LinkedKeeps(m, us);
    var r :| IsResponse(r) && Connected(s, r, id);
    ResponseIsItsRoot(m, Members(us), r);
    var p :| PathFromTo(s, p, r, id);
    if Reached(m, id) {
      v, k := u, id;
    } else {
      var i := LeavesReached(m, p, |p| - 1);
      assert Shares(s, p[i], p[i + 1]);
      v :| v in s && p[i] in Ids(v) && p[i + 1] in Ids(v);
      k := p[i];
      NotLinkedYet(m, Members(us), v, p[i], p[i + 1]);
    }
  }

  /** The components with a response, linked outwards from it. */
  lemma {:induction false} LinkResponses(m: Partition, us: seq<Usage>, s: set<Usage>)
    returns (n: Partition, vs: seq<Usage>)
    requires Linked(m, us) && Members(us) <= s && UnderResponses(m) && !TwoResponses(s)
    ensures Linked(n, vs) && Members(vs) <= s
    ensures forall u, id :: u in s - Members(vs) && id in Ids(u) ==> !HasResponse(s, id)
    decreases s - Members(us)
  {
    hide Linked, LinkUsage, UnderResponses, TwoResponses, Ids, HasResponse, Reached;
    if u, id :| u in s - Members(us) && id in Ids(u) && HasResponse(s, id) {
      var v, k := NextReached(m, us, s, u, id);
      LinkReached(m, us, s, v, k);
      LinkedSnoc(m, us, v);
      n, vs := LinkResponses(LinkUsage(m, v).value, us + [v], s);
    } else {
      n, vs := m, us;
    }
  }

  /** Elsewhere only two providers can clash. */
  lemma LeftoversLink(m: Partition, us: seq<Usage>, s: set<Usage>, rest: seq<Usage>)
    requires Linked(m, us) && Members(us) <= s && Members(rest) <= s && !TwoResponses(s) && !TwoProvidersAlone(s)
    requires forall u, id :: u in rest && id in Ids(u) ==> !HasResponse(s, id)
    ensures LinkAll(m, rest).Some?
  {
    hide LinkAll, LinkUsage, IsResponse, IsProvider, Connected, Sound, Ranked, Ids;
    if LinkAll(m, rest).None? {
      var n, p, u := FirstFailure(m, us, rest);
      LinkedKeeps(n, p);
      LinkUsageFailure(n, Members(p), u);
      var t, first := Members(p) + {u}, Ids(u)[0];
      var a, b :| AmbiguousAt(t, first, a, b);
      ConnectedMonotone(t, s, first, a);
      ConnectedMonotone(t, s, a, b);
      ConnectedSymmetric(s, first, a);
      assert first in Ids(u) && !HasResponse(s, first);
      if HasResponse(s, a) {
        var r :| IsResponse(r) && Connected(s, r, a);
        ConnectedTransitive(s, r, a, first);
      }
      ConnectedReflexive(s, a);
      assert false;
    }
  }

  /** Some order succeeds if and only if no two response IDs are connected, and two connected
      provider IDs always have a response ID in their component. */
  lemma SomeOrderSucceedsExactly(s: set<Usage>)
    ensures SomeOrderSucceeds(s) <==> !TwoResponses(s) && !TwoProvidersAlone(s)
  {
    hide LinkAll, TwoResponses, TwoProvidersAlone;
    if SomeOrderSucceeds(s) {
      var us :| Members(us) == s && LinkAll(map[], us).Some?;
      if TwoResponses(s) { ResponsesAlwaysFail(s, us); }
      SuccessLeavesNoneAlone(s, us);
    }
    if !TwoResponses(s) && !TwoProvidersAlone(s) {
      NothingLinked();
      var m, us := LinkResponses(map[], [], s);
      var rest := Listing(s - Members(us));
      LeftoversLink(m, us, s, rest);
      LinkAllConcat(map[], us, rest);
      MembersConcat(us, rest);
      assert Members(us) + (s - Members(us)) == s;
    }
  }

  lemma SuccessLeavesNoneAlone(s: set<Usage>, us: seq<Usage>)
    requires Members(us) == s && LinkAll(map[], us).Some?
    ensures !TwoProvidersAlone(s)
  {
    var m := LinkAll(map[], us).value;
    LinkedKeeps(m, us);
    hide LinkAll, Connected, IsResponse, IsProvider, Find;
    forall a, b | a != b && IsProvider(a) && IsProvider(b) && Connected(s, a, b)
      ensures HasResponse(s, a)
    {
      NoAmbiguousComponent(m, us, a, b);
      FindIsConnected(m, s, a);
    }
  }

  /** The outcome depends on the order if and only if usages without response IDs connect two
      providers, each such pair has a response ID somewhere in its component, and no two
      response IDs are connected. */
  lemma OrderMattersExactly(s: set<Usage>)
    ensures SomeOrderFails(s) && SomeOrderSucceeds(s) <==>
            TwoBareProviders(s) && !TwoProvidersAlone(s) && !TwoResponses(s)
  {
    hide *;
    SomeOrderFailsExactly(s);
    SomeOrderSucceedsExactly(s);
  }
}
