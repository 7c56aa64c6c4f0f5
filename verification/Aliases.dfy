/** Generation identities and the partition that linking usages induces on them,
    stated without any union-find machinery. */
module Aliases {
  import opened Common
  import opened Wire

  // ---------- Identities ----------

  const RESPONSE := "response:"
  const PROVIDER := "provider:"
  const MESSAGE := "message:"

  predicate IsResponse(id: string) { HasPrefix(id, RESPONSE) }
  predicate IsProvider(id: string) { HasPrefix(id, PROVIDER) }
  predicate IsMessage(id: string) { HasPrefix(id, MESSAGE) }
  predicate IsIdentity(id: string) { IsResponse(id) || IsProvider(id) || IsMessage(id) }

  /** The aliases one usage carries, strongest first. */
  function Ids(u: Usage): (ids: seq<string>)
    ensures |ids| <= 3
    ensures forall i :: 0 <= i < |ids| ==> IsIdentity(ids[i])
  {
    (if u.responseID != "" then [RESPONSE + u.responseID] else []) +
    (if u.providerAssignedMessageID != "" then [PROVIDER + u.providerAssignedMessageID] else []) +
    (if u.messageID != "" then [MESSAGE + u.messageID] else [])
  }

  /** primaryIdentity, empty when the usage has no alias. */
  function PrimaryIdentity(u: Usage): string {
    if u.responseID != "" then RESPONSE + u.responseID
    else if u.providerAssignedMessageID != "" then PROVIDER + u.providerAssignedMessageID
    else if u.messageID != "" then MESSAGE + u.messageID
    else ""
  }

  /** Two roots that may not be joined. */
  predicate Clash(a: string, b: string) {
    a != b && ((IsResponse(a) && IsResponse(b)) || (IsProvider(a) && IsProvider(b)))
  }

  lemma ResponseIsNotProvider(id: string)
    ensures !(IsResponse(id) && IsProvider(id))
  {
    if IsResponse(id) { assert id[0] == 'r'; }
  }

  lemma PrefixesAreOrdered(a: string, b: string)
    requires IsIdentity(a) && IsIdentity(b) && Less(a, b)
    ensures IsResponse(a) ==> IsResponse(b)
    ensures IsProvider(a) ==> IsResponse(b) || IsProvider(b)
  {
    assert IsResponse(a) ==> a[0] == 'r';
    assert IsProvider(a) ==> a[0] == 'p';
    assert IsMessage(b) ==> b[0] == 'm';
    assert IsProvider(b) ==> b[0] == 'p';
  }

  // ---------- Connectivity ----------

  ghost predicate Shares(s: set<Usage>, a: string, b: string) {
    exists u :: u in s && a in Ids(u) && b in Ids(u)
  }

  ghost predicate IsPath(s: set<Usage>, p: seq<string>) {
    p != [] && forall i :: 0 <= i < |p| - 1 ==> Shares(s, p[i], p[i + 1])
  }

  ghost predicate PathFromTo(s: set<Usage>, p: seq<string>, a: string, b: string) {
    IsPath(s, p) && p[0] == a && p[|p| - 1] == b
  }

  /** Two identities belong together when a chain of shared usages leads from one to the other. */
  ghost predicate Connected(s: set<Usage>, a: string, b: string) {
    exists p :: PathFromTo(s, p, a, b)
  }

  lemma ConnectedReflexive(s: set<Usage>, a: string)
    ensures Connected(s, a, a)
  {
    assert PathFromTo(s, [a], a, a);
  }

  lemma ConnectedBySharing(s: set<Usage>, a: string, b: string)
    requires Shares(s, a, b)
    ensures Connected(s, a, b)
  {
    assert PathFromTo(s, [a, b], a, b);
  }

  lemma ConnectedTransitive(s: set<Usage>, a: string, b: string, c: string)
    requires Connected(s, a, b) && Connected(s, b, c)
    ensures Connected(s, a, c)
  {
    var p :| PathFromTo(s, p, a, b);
    var q :| PathFromTo(s, q, b, c);
    var r := p + q[1..];
    forall i | 0 <= i < |r| - 1
      ensures Shares(s, r[i], r[i + 1])
    {
      if i < |p| - 1 {
        assert Shares(s, p[i], p[i + 1]);
      } else {
        assert r[i] == q[i - |p| + 1] && Shares(s, q[i - |p| + 1], q[i - |p| + 2]);
      }
    }
    assert PathFromTo(s, r, a, c);
  }

  lemma ConnectedSymmetric(s: set<Usage>, a: string, b: string)
    requires Connected(s, a, b)
    ensures Connected(s, b, a)
  {
    var p :| PathFromTo(s, p, a, b);
    var r := seq(|p|, i requires 0 <= i < |p| => p[|p| - 1 - i]);
    forall i | 0 <= i < |r| - 1
      ensures Shares(s, r[i], r[i + 1])
    {
      assert Shares(s, p[|p| - 2 - i], p[|p| - 1 - i]);
    }
    assert PathFromTo(s, r, b, a);
  }

  lemma ConnectedMonotone(s: set<Usage>, t: set<Usage>, a: string, b: string)
    requires s <= t && Connected(s, a, b)
    ensures Connected(t, a, b)
  {
    var p :| PathFromTo(s, p, a, b);
    forall i | 0 <= i < |p| - 1
      ensures Shares(t, p[i], p[i + 1])
    {
      assert Shares(s, p[i], p[i + 1]);
    }
    assert PathFromTo(t, p, a, b);
  }

  // ---------- The partition ----------

  /** Known identities mapped straight to the representative of their class. */
  type Partition = map<string, string>

  function Find(m: Partition, id: string): string { if id in m then m[id] else id }

  /** Joins two classes; the lexically greater representative wins. */
  function Union(m: Partition, x: string, y: string): Partition {
    var a, b := Find(m, x), Find(m, y);
    var hi, lo := if Less(a, b) then b else a, if Less(a, b) then a else b;
    map k | k in m.Keys + {x, y} :: if Find(m, k) == lo then hi else Find(m, k)
  }

  function LinkIds(m: Partition, first: string, rest: seq<string>): Option<Partition>
    decreases |rest|
  {
    if rest == [] then Some(m)
    else if Clash(Find(m, first), Find(m, rest[0])) then None
    else LinkIds(Union(m, first, rest[0]), first, rest[1..])
  }

  /** What linking one usage does; None is the ambiguous-alias error. */
  function LinkUsage(m: Partition, u: Usage): Option<Partition> {
    var ids := Ids(u);
    if ids == [] then Some(m) else LinkIds(m, ids[0], ids[1..])
  }

  function LinkAll(m: Partition, us: seq<Usage>): Option<Partition>
    decreases |us|
  {
    if us == [] then Some(m) else
      var next := LinkUsage(m, us[0]);
      if next.None? then None else LinkAll(next.value, us[1..])
  }

  ghost function Members(us: seq<Usage>): set<Usage> { set u | u in us }

  lemma {:induction false} LinkAllConcat(m: Partition, us: seq<Usage>, vs: seq<Usage>)
    ensures LinkAll(m, us + vs) ==
            var n := LinkAll(m, us); if n.None? then None else LinkAll(n.value, vs)
    decreases |us|
  {
    hide LinkUsage;
    if us == [] {
      assert us + vs == vs;
    } else {
      assert (us + vs)[1..] == us[1..] + vs;
      if LinkUsage(m, us[0]).Some? { LinkAllConcat(LinkUsage(m, us[0]).value, us[1..], vs); }
    }
  }

  // ---------- What every successful link keeps ----------

  ghost predicate Ranked(m: Partition) {
    forall k :: k in m ==>
      && IsIdentity(k) && m[k] in m && m[m[k]] == m[k]
      && (m[k] == k || Less(k, m[k]))
  }

  /** Representatives are reachable, and a response, or a provider under a
      provider, is never absorbed. */
  ghost predicate Sound(m: Partition, s: set<Usage>) {
    && (forall k :: k in m ==> Connected(s, k, m[k]))
    && (forall k :: k in m && IsResponse(k) ==> m[k] == k)
    && (forall k :: k in m && IsProvider(k) && IsProvider(m[k]) ==> m[k] == k)
  }

  ghost predicate Joined(m: Partition, ids: seq<string>) {
    forall i, j :: 0 <= i < |ids| && 0 <= j < |ids| ==> Find(m, ids[i]) == Find(m, ids[j])
  }

  ghost predicate Complete(m: Partition, s: set<Usage>) {
    forall u :: u in s ==> Joined(m, Ids(u))
  }

  /** The second partition joins at least what the first one joins. */
  ghost predicate Coarser(m: Partition, n: Partition) {
    forall a, b :: Find(m, a) == Find(m, b) ==> Find(n, a) == Find(n, b)
  }

  lemma UnionIsRanked(m: Partition, x: string, y: string)
    requires Ranked(m) && IsIdentity(x) && IsIdentity(y)
    ensures Ranked(Union(m, x, y))
  {
    var a, b := Find(m, x), Find(m, y);
    var hi, lo := if Less(a, b) then b else a, if Less(a, b) then a else b;
    LessTotal(a, b);
    var n := Union(m, x, y);
    forall k | k in n
      ensures IsIdentity(k) && n[k] in n && n[n[k]] == n[k] && (n[k] == k || Less(k, n[k]))
    {
      if Find(m, k) == lo && lo != hi && k != lo { LessTransitive(k, lo, hi); }
    }
  }

  lemma UnionJoins(m: Partition, x: string, y: string)
    requires Ranked(m)
    ensures Find(Union(m, x, y), x) == Find(Union(m, x, y), y)
    ensures Coarser(m, Union(m, x, y))
  {
    var n := Union(m, x, y);
    var a, b := Find(m, x), Find(m, y);
    var hi, lo := if Less(a, b) then b else a, if Less(a, b) then a else b;
    forall k
      ensures Find(n, k) == if Find(m, k) == lo then hi else Find(m, k)
    {
      if k !in n && k == lo { assert false; }
    }
  }

  lemma FindIsConnected(m: Partition, s: set<Usage>, id: string)
    requires Sound(m, s)
    ensures Connected(s, id, Find(m, id)) && Connected(s, Find(m, id), id)
  {
    ConnectedReflexive(s, id);
    ConnectedSymmetric(s, id, Find(m, id));
  }

  lemma UnionIsSound(m: Partition, s: set<Usage>, x: string, y: string)
    requires Ranked(m) && Sound(m, s) && Shares(s, x, y)
    requires IsIdentity(x) && IsIdentity(y) && !Clash(Find(m, x), Find(m, y))
    ensures Sound(Union(m, x, y), s)
  {
    hide Shares, Connected, IsResponse, IsProvider, IsMessage;
    var a, b := Find(m, x), Find(m, y);
    var hi, lo := if Less(a, b) then b else a, if Less(a, b) then a else b;
    LessTotal(a, b);
    assert Connected(s, lo, hi) && Connected(s, hi, lo) by {
      FindIsConnected(m, s, x);
      FindIsConnected(m, s, y);
      ConnectedBySharing(s, x, y);
      ConnectedTransitive(s, a, x, y);
      ConnectedTransitive(s, a, y, b);
      ConnectedSymmetric(s, a, b);
    }
    var n := Union(m, x, y);
    forall k | k in n
      ensures Connected(s, k, n[k])
      ensures IsResponse(k) ==> n[k] == k
      ensures IsProvider(k) && IsProvider(n[k]) ==> n[k] == k
    {
      FindIsConnected(m, s, k);
      if Find(m, k) == lo && lo != hi {
        ConnectedTransitive(s, k, lo, hi);
        PrefixesAreOrdered(lo, hi);
        if k != lo { PrefixesAreOrdered(k, lo); }
      }
    }
  }

  lemma CoarserTransitive(m: Partition, n: Partition, o: Partition)
    requires Coarser(m, n) && Coarser(n, o)
    ensures Coarser(m, o)
  {}

  lemma {:induction false} LinkIdsKeeps(m: Partition, s: set<Usage>, first: string, rest: seq<string>)
    requires Ranked(m) && Sound(m, s) && LinkIds(m, first, rest).Some?
    requires IsIdentity(first) && forall i :: 0 <= i < |rest| ==> IsIdentity(rest[i]) && Shares(s, first, rest[i])
    ensures var n := LinkIds(m, first, rest).value;
            Ranked(n) && Sound(n, s) && Coarser(m, n) && Joined(n, [first] + rest)
    decreases |rest|
  {
    hide Shares, Connected, Clash, Union, IsIdentity, Sound, Ranked;
    if rest != [] {
      var step := Union(m, first, rest[0]);
      UnionIsRanked(m, first, rest[0]);
      UnionIsSound(m, s, first, rest[0]);
      UnionJoins(m, first, rest[0]);
      LinkIdsKeeps(step, s, first, rest[1..]);
      var n := LinkIds(m, first, rest).value;
      CoarserTransitive(m, step, n);
      var ids, tail := [first] + rest, [first] + rest[1..];
      forall i | 0 <= i < |ids|
        ensures Find(n, ids[i]) == Find(n, first)
      {
        if i >= 2 { assert ids[i] == tail[i - 1] && tail[0] == first; }
      }
    }
  }

  lemma LinkUsageKeeps(m: Partition, s: set<Usage>, u: Usage)
    requires Ranked(m) && Sound(m, s) && Complete(m, s) && LinkUsage(m, u).Some?
    ensures var n := LinkUsage(m, u).value;
            Ranked(n) && Sound(n, s + {u}) && Complete(n, s + {u})
  {
    var t, ids := s + {u}, Ids(u);
    SoundMonotone(m, s, t);
    hide Sound, Ranked;
    if ids != [] {
      forall i | 0 <= i < |ids|
        ensures Shares(t, ids[0], ids[i])
      {
        assert u in t && ids[0] in Ids(u) && ids[i] in Ids(u);
      }
      LinkIdsKeeps(m, t, ids[0], ids[1..]);
      assert [ids[0]] + ids[1..] == ids;
    }
    var n := LinkUsage(m, u).value;
    forall v | v in s
      ensures Joined(n, Ids(v))
    {
      assert Joined(m, Ids(v));
    }
  }

  lemma SoundMonotone(m: Partition, s: set<Usage>, t: set<Usage>)
    requires Sound(m, s) && s <= t
    ensures Sound(m, t)
  {
    forall k | k in m
      ensures Connected(t, k, m[k])
    {
      ConnectedMonotone(s, t, k, m[k]);
    }
  }

  lemma {:induction false} LinkAllKeeps(m: Partition, s: set<Usage>, us: seq<Usage>)
    requires Ranked(m) && Sound(m, s) && Complete(m, s) && LinkAll(m, us).Some?
    ensures var n := LinkAll(m, us).value;
            Ranked(n) && Sound(n, s + Members(us)) && Complete(n, s + Members(us))
    decreases |us|
  {
    hide Ranked, Sound, Complete, LinkUsage;
    if us == [] {
      assert s + Members(us) == s;
    } else {
      LinkUsageKeeps(m, s, us[0]);
      LinkAllKeeps(LinkUsage(m, us[0]).value, s + {us[0]}, us[1..]);
      assert us == [us[0]] + us[1..];
      assert s + {us[0]} + Members(us[1..]) == s + Members(us);
    }
  }

  /** The partition left by a successful linking of `us`. */
  ghost predicate Linked(m: Partition, us: seq<Usage>) {
    LinkAll(map[], us) == Some(m)
  }

  lemma LinkedKeeps(m: Partition, us: seq<Usage>)
    requires Linked(m, us)
    ensures Ranked(m) && Sound(m, Members(us)) && Complete(m, Members(us))
  {
    LinkAllKeeps(map[], {}, us);
    assert {} + Members(us) == Members(us);
  }

  lemma {:induction false} SameFindAlongPath(m: Partition, s: set<Usage>, p: seq<string>)
    requires Complete(m, s) && IsPath(s, p)
    ensures Find(m, p[0]) == Find(m, p[|p| - 1])
    decreases |p|
  {
    if |p| > 1 {
      assert Shares(s, p[0], p[1]);
      var u :| u in s && p[0] in Ids(u) && p[1] in Ids(u);
      assert Joined(m, Ids(u));
      forall i | 0 <= i < |p[1..]| - 1
        ensures Shares(s, p[1..][i], p[1..][i + 1])
      {
        assert Shares(s, p[i + 1], p[i + 2]);
      }
      SameFindAlongPath(m, s, p[1..]);
    }
  }

  // ---------- Main results ----------

  /** After a successful linking two identities share a root exactly when they
      are connected through shared usages. */
  lemma RootsAreComponents(m: Partition, us: seq<Usage>, a: string, b: string)
    requires Linked(m, us)
    ensures Find(m, a) == Find(m, b) <==> Connected(Members(us), a, b)
  {
    var s := Members(us);
    LinkedKeeps(m, us);
    if Find(m, a) == Find(m, b) {
      FindIsConnected(m, s, a);
      FindIsConnected(m, s, b);
      ConnectedTransitive(s, a, Find(m, a), b);
    }
    if Connected(s, a, b) {
      var p :| PathFromTo(s, p, a, b);
      SameFindAlongPath(m, s, p);
    }
  }

  /** The root is the lexically greatest identity of its component. */
  lemma RootIsGreatest(m: Partition, us: seq<Usage>, a: string, b: string)
    requires Linked(m, us) && Connected(Members(us), a, b)
    ensures Connected(Members(us), a, Find(m, a))
    ensures b == Find(m, a) || Less(b, Find(m, a))
  {
    LinkedKeeps(m, us);
    FindIsConnected(m, Members(us), a);
    RootsAreComponents(m, us, a, b);
  }

  /** Every two event orders that succeed, repetitions included, agree on every root. */
  lemma RootsIgnoreOrder(m: Partition, us: seq<Usage>, n: Partition, vs: seq<Usage>, id: string)
    requires Linked(m, us) && Linked(n, vs) && Members(us) == Members(vs)
    ensures Find(m, id) == Find(n, id)
  {
    var x, y := Find(m, id), Find(n, id);
    ConnectedReflexive(Members(us), id);
    RootIsGreatest(m, us, id, id);
    RootIsGreatest(n, vs, id, id);
    RootIsGreatest(m, us, id, y);
    RootIsGreatest(n, vs, id, x);
    if Less(x, y) && Less(y, x) {
      LessTransitive(x, y, x);
      LessIrreflexive(x);
    }
  }

  /** A linked component never holds two response IDs, nor, without a response,
      two provider IDs. */
  lemma NoAmbiguousComponent(m: Partition, us: seq<Usage>, a: string, b: string)
    requires Linked(m, us) && Connected(Members(us), a, b) && a != b
    ensures !(IsResponse(a) && IsResponse(b))
    ensures IsProvider(a) && IsProvider(b) ==> IsResponse(Find(m, a))
  {
    LinkedKeeps(m, us);
    RootsAreComponents(m, us, a, b);
    var r := Find(m, a);
    assert a in m || r == a;
    assert b in m || r == b;
    if IsProvider(a) && IsProvider(b) {
      if r != a { PrefixesAreOrdered(a, r); } else { PrefixesAreOrdered(b, r); }
    }
  }

  // ---------- When linking fails ----------

  /** Two different identities of one kind that `s` connects. */
  ghost predicate Ambiguous(s: set<Usage>, a: string, b: string) {
    Clash(a, b) && Connected(s, a, b)
  }

  /** An ambiguity on the component of `first`, among responses when `first` is one. */
  ghost predicate AmbiguousAt(s: set<Usage>, first: string, a: string, b: string) {
    Ambiguous(s, a, b) && Connected(s, first, a) && (IsResponse(first) ==> IsResponse(a))
  }

  lemma ResponseIsItsRoot(m: Partition, s: set<Usage>, id: string)
    requires Sound(m, s) && IsResponse(id)
    ensures Find(m, id) == id
  {}

  lemma {:induction false} LinkIdsFailure(m: Partition, s: set<Usage>, first: string, rest: seq<string>)
    requires Ranked(m) && Sound(m, s) && LinkIds(m, first, rest).None?
    requires IsIdentity(first) && forall i :: 0 <= i < |rest| ==> IsIdentity(rest[i]) && Shares(s, first, rest[i])
    ensures exists a, b :: AmbiguousAt(s, first, a, b)
    decreases |rest|
  {
    if IsResponse(first) { ResponseIsItsRoot(m, s, first); }
    hide Shares, Connected, Union, IsIdentity, IsResponse, Sound, Ranked, Clash;
    var x, y := Find(m, first), Find(m, rest[0]);
    if Clash(x, y) {
      FindIsConnected(m, s, first);
      FindIsConnected(m, s, rest[0]);
      ConnectedBySharing(s, first, rest[0]);
      ConnectedTransitive(s, x, first, rest[0]);
      ConnectedTransitive(s, x, rest[0], y);
      assert AmbiguousAt(s, first, x, y);
    } else {
      UnionIsRanked(m, first, rest[0]);
      UnionIsSound(m, s, first, rest[0]);
      LinkIdsFailure(Union(m, first, rest[0]), s, first, rest[1..]);
    }
  }

  lemma LinkUsageFailure(m: Partition, s: set<Usage>, u: Usage)
    requires Ranked(m) && Sound(m, s) && LinkUsage(m, u).None?
    ensures Ids(u) != [] && exists a, b :: AmbiguousAt(s + {u}, Ids(u)[0], a, b)
  {
    var t, ids := s + {u}, Ids(u);
    SoundMonotone(m, s, t);
    forall i | 0 <= i < |ids|
      ensures Shares(t, ids[0], ids[i])
    {
      assert u in t && ids[0] in Ids(u) && ids[i] in Ids(u);
    }
    hide Ranked, Sound, Shares;
    LinkIdsFailure(m, t, ids[0], ids[1..]);
  }

  lemma AmbiguousMonotone(s: set<Usage>, t: set<Usage>)
    requires s <= t && exists a, b :: Ambiguous(s, a, b)
    ensures exists a, b :: Ambiguous(t, a, b)
  {
    var a, b :| Ambiguous(s, a, b);
    ConnectedMonotone(s, t, a, b);
    assert Ambiguous(t, a, b);
  }

  lemma {:induction false} LinkAllFailure(m: Partition, s: set<Usage>, us: seq<Usage>)
    requires Ranked(m) && Sound(m, s) && Complete(m, s) && LinkAll(m, us).None?
    ensures exists a, b :: Ambiguous(s + Members(us), a, b)
    decreases |us|
  {
    hide Ranked, Sound, Complete, LinkUsage, Ambiguous;
    assert us == [us[0]] + us[1..];
    var all := s + Members(us);
    assert s + {us[0]} + Members(us[1..]) == all;
    if LinkUsage(m, us[0]).None? {
      LinkUsageFailure(m, s, us[0]);
      assert exists a, b :: Ambiguous(s + {us[0]}, a, b);
      AmbiguousMonotone(s + {us[0]}, all);
    } else {
      LinkUsageKeeps(m, s, us[0]);
      LinkAllFailure(LinkUsage(m, us[0]).value, s + {us[0]}, us[1..]);
    }
  }

  /** Failure is never spurious, and two connected response IDs fail in every order. */
  lemma FailureMeansAmbiguity(us: seq<Usage>)
    ensures LinkAll(map[], us).None? ==> exists a, b :: Ambiguous(Members(us), a, b)
    ensures (exists a, b :: Ambiguous(Members(us), a, b) && IsResponse(a)) ==> LinkAll(map[], us).None?
  {
    assert {} + Members(us) == Members(us);
    if LinkAll(map[], us).None? {
      LinkAllFailure(map[], {}, us);
    } else if exists a, b :: Ambiguous(Members(us), a, b) && IsResponse(a) {
      var a, b :| Ambiguous(Members(us), a, b) && IsResponse(a);
      ResponseIsNotProvider(a);
      NoAmbiguousComponent(LinkAll(map[], us).value, us, a, b);
      assert false;
    }
  }

  function AliasOnly(response: string, provider: string, message: string): Usage {
    Usage(0, 0, 0, 0, 0, 0, message, 0, 0, response, provider)
  }

  lemma LinkPair(m: Partition, u: Usage, a: string, b: string)
    requires Ids(u) == [a, b]
    ensures LinkUsage(m, u) == if Clash(Find(m, a), Find(m, b)) then None else Some(Union(m, a, b))
  {
    assert [a, b][1..] == [b] && [b][1..] == [];
    assert LinkIds(Union(m, a, b), a, []) == Some(Union(m, a, b));
  }

  lemma LinkAllStep(m: Partition, u: Usage, us: seq<Usage>)
    ensures LinkAll(m, [u] + us) == var n := LinkUsage(m, u); if n.None? then None else LinkAll(n.value, us)
  {
    assert ([u] + us)[1..] == us;
  }

  lemma UnionOfNew(m: Partition, hi: string, lo: string)
    requires m == map[] && Less(lo, hi) && !Less(hi, lo)
    ensures Union(m, hi, lo) == m[hi := hi][lo := hi]
  {}

  lemma UnionWithNew(m: Partition, x: string, y: string)
    requires x in m && y !in m && y !in m.Values && Less(y, m[x]) && !Less(m[x], y)
    ensures Union(m, x, y) == m[y := m[x]]
  {}

  lemma OrderExample(x: Usage, y: Usage, z: Usage, r: string, p: string, q: string, m: string)
    requires Ids(x) == [r, p] && Ids(y) == [p, m] && Ids(z) == [q, m]
    requires Less(p, r) && Less(m, p) && Less(m, r) && Less(q, r) && !Less(r, p) && !Less(p, m) && !Less(r, m)
             && !Less(r, q)
    requires r != p && p != m && r != m && q != p && q != r && q != m
    requires !Clash(r, p) && !Clash(p, m) && !Clash(r, m) && !Clash(q, r) && Clash(q, p)
    ensures LinkAll(map[], [x] + ([y] + ([z] + []))).Some? && LinkAll(map[], [y] + ([z] + [x])).None?
  {
    hide Ids, Less, Clash, LinkUsage, LinkIds, LinkAll;
    var e, m1, m2, n1 := map[], map[r := r, p := r], map[r := r, p := r, m := r], map[p := p, m := p];
    UnionOfNew(e, r, p);
    UnionOfNew(e, p, m);
    assert e[r := r][p := r] == m1 && e[p := p][m := p] == n1;
    UnionWithNew(m1, p, m);
    hide Union;
    LinkPair(e, x, r, p);
    LinkPair(e, y, p, m);
    LinkPair(m1, y, p, m);
    LinkPair(m2, z, q, m);
    LinkPair(n1, z, q, m);
    LinkAllStep(e, x, [y] + ([z] + []));
    LinkAllStep(m1, y, [z] + []);
    LinkAllStep(m2, z, []);
    LinkAllStep(e, y, [z] + [x]);
    LinkAllStep(n1, z, [x]);
    LinkNothing(Union(m2, q, m));
  }

  lemma LinkNothing(m: Partition)
    ensures LinkAll(m, []) == Some(m)
  {}

  /** Which provider clash is noticed does depend on the order: the same three
      usages link in one order and fail in another. */
  lemma FailureDependsOnOrder()
    ensures exists us, vs :: Members(us) == Members(vs) && LinkAll(map[], us).Some? && LinkAll(map[], vs).None?
  {
    hide LinkAll;
    var x, y, z := AliasOnly("r", "p", ""), AliasOnly("", "p", "m"), AliasOnly("", "q", "m");
    var r, p, q, m := RESPONSE + "r", PROVIDER + "p", PROVIDER + "q", MESSAGE + "m";
    assert r[0] == 'r' && p[0] == 'p' && q[0] == 'p' && m[0] == 'm';
    assert p[9] != q[9];
    OrderExample(x, y, z, r, p, q, m);
    SameThreeMembers(x, y, z);
  }

  lemma SameThreeMembers(x: Usage, y: Usage, z: Usage)
    ensures Members([x] + ([y] + ([z] + []))) == Members([y] + ([z] + [x]))
  {
    assert [x] + ([y] + ([z] + [])) == [x, y, z] && [y] + ([z] + [x]) == [y, z, x];
  }
}
