/** Which usages share a record, said in terms of the decoded rows alone. */
module Generations {
  import opened Common
  import opened Wire
  import opened Aliases
  import opened Reader
  import opened Merge

  // ---------- Usages of a conversation ----------

  ghost predicate Occurs(es: seq<Event>, u: Usage) {
    exists e :: e in es && (e.usage == Some(u) || u in e.retries)
  }

  /** A usage with the index and timestamp of the row that carries it. */
  ghost predicate Arises(es: seq<Event>, c: Contribution) {
    exists e :: e in es && (e.usage == Some(c.usage) || c.usage in e.retries)
                && c.index == e.index && c.timestamp == e.timestamp
  }

  ghost predicate HasTokens(u: Usage) { exists w: Counter :: Count(u, w) > 0 }

  predicate HasIdentity(u: Usage) { u.responseID != "" || u.providerAssignedMessageID != "" || u.messageID != "" }

  /** Two usages carry the same response, provider or message ID. */
  predicate SharesId(u: Usage, v: Usage) {
    || (u.responseID != "" && u.responseID == v.responseID)
    || (u.providerAssignedMessageID != "" && u.providerAssignedMessageID == v.providerAssignedMessageID)
    || (u.messageID != "" && u.messageID == v.messageID)
  }

  ghost predicate IsChain(es: seq<Event>, p: seq<Usage>) {
    && p != [] && (forall i :: 0 <= i < |p| ==> Occurs(es, p[i]))
    && forall i :: 0 <= i < |p| - 1 ==> SharesId(p[i], p[i + 1])
  }

  /** A chain of the conversation's usages, each sharing an ID with the next. */
  ghost predicate Chained(es: seq<Event>, u: Usage, v: Usage) {
    exists p :: ChainFromTo(es, p, u, v)
  }

  ghost predicate ChainFromTo(es: seq<Event>, p: seq<Usage>, u: Usage, v: Usage) {
    IsChain(es, p) && p[0] == u && p[|p| - 1] == v
  }

  /** Two usages belong to one generation when such a chain joins them, or, without any ID,
      when they belong to one step. */
  ghost predicate SameGeneration(es: seq<Event>, c: Contribution, d: Contribution) {
    if HasIdentity(c.usage) then HasIdentity(d.usage) && Chained(es, c.usage, d.usage)
    else !HasIdentity(d.usage) && c.index == d.index
  }

  // ---------- From the rows to the reader's terms ----------

  lemma {:induction false} ContributionsAreRows(es: seq<Event>, c: Contribution)
    ensures c in Contributions(es) <==> Arises(es, c)
  {
    if es != [] {
      ContributionsAreRows(es[1..], c);
      assert es == [es[0]] + es[1..];
      RowContributions(es[0], c);
      hide EventContributions;
    }
  }

  /** The usages are read row by row, each row's retries after its usage. */
  lemma ReadingOrder(es: seq<Event>, e: Event) returns (retries: seq<Contribution>)
    ensures |retries| == |e.retries|
    ensures forall j :: 0 <= j < |retries| ==> retries[j] == Contribution(e.retries[j], e.index, e.timestamp)
    ensures Contributions([]) == []
    ensures Contributions(es + [e]) ==
            if e.usage.Some? then Contributions(es) + [Contribution(e.usage.value, e.index, e.timestamp)] + retries
            else Contributions(es) + retries
  {
    retries := RetryContributions(e);
    ContributionsConcat(es, [e]);
    ContributionsStep([e]);
    assert [e][1..] == [] && retries + [] == retries;
    assert e.usage.Some? ==> Contributions([e]) == [Contribution(e.usage.value, e.index, e.timestamp)] + retries;
  }

  lemma RowContributions(e: Event, c: Contribution)
    ensures c in EventContributions(e) <==>
            (e.usage == Some(c.usage) || c.usage in e.retries) && c.index == e.index && c.timestamp == e.timestamp
  {
    if c.usage in e.retries && c.index == e.index && c.timestamp == e.timestamp {
      var i :| 0 <= i < |e.retries| && e.retries[i] == c.usage;
      assert RetryContributions(e)[i] == c;
    }
  }

  lemma OccursIsMember(es: seq<Event>, u: Usage)
    ensures Occurs(es, u) <==> u in Members(Usages(Contributions(es)))
  {
    UsagesMembers(Contributions(es), u);
    hide Contributions, Usages;
    if Occurs(es, u) {
      var e :| e in es && (e.usage == Some(u) || u in e.retries);
      ContributionsAreRows(es, Contribution(u, e.index, e.timestamp));
    }
    if u in Usages(Contributions(es)) {
      var c :| c in Contributions(es) && c.usage == u;
      ContributionsAreRows(es, c);
    }
  }

  lemma TokensAreBearing(u: Usage)
    ensures HasTokens(u) <==> UsageIsBearing(u)
  {
    assert Count(u, Input) > 0 ==> HasTokens(u);
    assert Count(u, CacheRead) > 0 ==> HasTokens(u);
    assert Count(u, CacheCreation) > 0 ==> HasTokens(u);
    assert Count(u, Visible) > 0 ==> HasTokens(u);
    assert Count(u, Reasoning) > 0 ==> HasTokens(u);
    assert Count(u, TotalOutput) > 0 ==> HasTokens(u);
  }

  // ---------- Sharing an ID is sharing an identity ----------

  lemma IdsMeaning(u: Usage, id: string)
    ensures id in Ids(u) <==>
            || (u.responseID != "" && id == "response:" + u.responseID)
            || (u.providerAssignedMessageID != "" && id == "provider:" + u.providerAssignedMessageID)
            || (u.messageID != "" && id == "message:" + u.messageID)
  {}

  lemma PrefixedDiffer(a: string, b: string)
    ensures "response:" + a != "provider:" + b && "response:" + a != "message:" + b && "provider:" + a != "message:" + b
    ensures "response:" + a == "response:" + b ==> a == b
    ensures "provider:" + a == "provider:" + b ==> a == b
    ensures "message:" + a == "message:" + b ==> a == b
  {
    assert ("response:" + a)[0] == 'r' && ("provider:" + a)[0] == 'p' && ("provider:" + b)[0] == 'p';
    assert ("message:" + b)[0] == 'm';
    assert ("response:" + a)[9..] == a && ("response:" + b)[9..] == b;
    assert ("provider:" + a)[9..] == a && ("provider:" + b)[9..] == b;
    assert ("message:" + a)[8..] == a && ("message:" + b)[8..] == b;
  }

  lemma SharingIsCommonId(u: Usage, v: Usage)
    ensures SharesId(u, v) <==> exists id :: id in Ids(u) && id in Ids(v)
  {
    hide Ids;
    if SharesId(u, v) {
      var id := if u.responseID != "" && u.responseID == v.responseID then "response:" + u.responseID
                else if u.providerAssignedMessageID != "" && u.providerAssignedMessageID == v.providerAssignedMessageID
                then "provider:" + u.providerAssignedMessageID else "message:" + u.messageID;
      IdsMeaning(u, id);
      IdsMeaning(v, id);
    }
    if exists id :: id in Ids(u) && id in Ids(v) {
      var id :| id in Ids(u) && id in Ids(v);
      IdsMeaning(u, id);
      IdsMeaning(v, id);
      PrefixedDiffer(u.responseID, v.responseID);
      PrefixedDiffer(u.responseID, v.providerAssignedMessageID);
      PrefixedDiffer(v.responseID, u.providerAssignedMessageID);
      PrefixedDiffer(u.responseID, v.messageID);
      PrefixedDiffer(v.responseID, u.messageID);
      PrefixedDiffer(u.providerAssignedMessageID, v.providerAssignedMessageID);
      PrefixedDiffer(u.providerAssignedMessageID, v.messageID);
      PrefixedDiffer(v.providerAssignedMessageID, u.messageID);
      PrefixedDiffer(u.messageID, v.messageID);
    }
  }

  lemma PrimaryIsFirst(u: Usage)
    ensures HasIdentity(u) <==> Ids(u) != []
    ensures HasIdentity(u) <==> PrimaryIdentity(u) != ""
    ensures HasIdentity(u) ==> PrimaryIdentity(u) in Ids(u)
  {}

  lemma Joint(s: set<Usage>, u: Usage, a: string, b: string)
    requires u in s && a in Ids(u) && b in Ids(u)
    ensures Connected(s, a, b)
  {
    ConnectedBySharing(s, a, b);
  }

  lemma {:induction false} ChainConnects(es: seq<Event>, s: set<Usage>, p: seq<Usage>, a: string, b: string)
    requires IsChain(es, p) && (forall u :: Occurs(es, u) ==> u in s)
    requires a in Ids(p[0]) && b in Ids(p[|p| - 1])
    ensures Connected(s, a, b)
    decreases |p|
  {
    hide Ids, Connected, SharesId;
    if |p| == 1 {
      Joint(s, p[0], a, b);
    } else {
      assert SharesId(p[0], p[1]);
      SharingIsCommonId(p[0], p[1]);
      var id :| id in Ids(p[0]) && id in Ids(p[1]);
      var q := p[1..];
      forall i | 0 <= i < |q| - 1
        ensures SharesId(q[i], q[i + 1])
      {
        assert SharesId(p[i + 1], p[i + 2]);
      }
      Joint(s, p[0], a, id);
      ChainConnects(es, s, q, id, b);
      ConnectedTransitive(s, a, id, b);
    }
  }

  /** Along a path of identities the usages that link them are a chain. */
  lemma {:induction false} PathIsChain(es: seq<Event>, s: set<Usage>, p: seq<string>, u: Usage, v: Usage)
    returns (q: seq<Usage>)
    requires IsPath(s, p) && (forall x :: x in s ==> Occurs(es, x)) && u in s && v in s
    requires p[0] in Ids(u) && p[|p| - 1] in Ids(v)
    ensures ChainFromTo(es, q, u, v)
    decreases |p|
  {
    hide Ids, SharesId, Occurs;
    if |p| == 1 {
      q := [u, v];
      SharingIsCommonId(u, v);
    } else {
      assert Shares(s, p[0], p[1]);
      var x :| x in s && p[0] in Ids(x) && p[1] in Ids(x);
      var rest := p[1..];
      forall i | 0 <= i < |rest| - 1
        ensures Shares(s, rest[i], rest[i + 1])
      {
        assert Shares(s, p[i + 1], p[i + 2]);
      }
      var r := PathIsChain(es, s, rest, x, v);
      SharingIsCommonId(u, x);
      q := [u] + r;
      forall i | 0 <= i < |q| - 1
        ensures SharesId(q[i], q[i + 1])
      {
        if i > 0 { assert SharesId(r[i - 1], r[i]); }
      }
    }
  }

  lemma ConnectedIsChained(es: seq<Event>, u: Usage, v: Usage)
    requires Occurs(es, u) && Occurs(es, v) && HasIdentity(u) && HasIdentity(v)
    ensures Connected(Members(Usages(Contributions(es))), PrimaryIdentity(u), PrimaryIdentity(v)) <==> Chained(es, u, v)
  {
    var s := Members(Usages(Contributions(es)));
    forall x { OccursIsMember(es, x); }
    PrimaryIsFirst(u);
    PrimaryIsFirst(v);
    hide Ids, Occurs, PrimaryIdentity, HasIdentity, IsPath, Members;
    if Connected(s, PrimaryIdentity(u), PrimaryIdentity(v)) {
      var p :| PathFromTo(s, p, PrimaryIdentity(u), PrimaryIdentity(v));
      var q := PathIsChain(es, s, p, u, v);
    }
    if Chained(es, u, v) {
      var p :| ChainFromTo(es, p, u, v);
      ChainConnects(es, s, p, PrimaryIdentity(u), PrimaryIdentity(v));
    }
  }

  // ---------- Keys are generations ----------

  lemma {:induction false} DecimalHasDigits(n: nat)
    ensures forall i :: 0 <= i < |Decimal(n)| ==> '0' <= Decimal(n)[i] <= '9'
  {
    if n >= 10 { DecimalHasDigits(n / 10); }
  }

  lemma SignedDecimalInjective(m: int, n: int)
    ensures Decimal64(m) == Decimal64(n) ==> m == n
  {
    if m < 0 && n < 0 {
      assert Decimal64(m)[1..] == Decimal(-m) && Decimal64(n)[1..] == Decimal(-n);
      if Decimal(-m) == Decimal(-n) { DecimalInjective(-m, -n); }
    } else if m >= 0 && n >= 0 {
      if Decimal(m) == Decimal(n) { DecimalInjective(m, n); }
    } else {
      var neg, pos := if m < 0 then m else n, if m < 0 then n else m;
      DecimalHasDigits(pos);
      assert Decimal64(neg)[0] == '-' && Decimal64(pos)[0] != '-';
    }
  }

  lemma StepKeys(cid: string, m: int, n: int)
    requires "step:" + cid + ":" + Decimal64(m) == "step:" + cid + ":" + Decimal64(n)
    ensures m == n
  {
    var front := "step:" + cid + ":";
    assert (front + Decimal64(m))[|front|..] == Decimal64(m) && (front + Decimal64(n))[|front|..] == Decimal64(n);
    SignedDecimalInjective(m, n);
  }

  lemma RootsAreIdentities(m: Partition, us: seq<Usage>, id: string)
    requires Linked(m, us) && IsIdentity(id)
    ensures IsIdentity(Find(m, id)) && Find(m, id)[0] in {'r', 'p', 'm'}
  {
    LinkedKeeps(m, us);
    hide Linked, Sound, Complete;
  }

  lemma KeysAreGenerations(es: seq<Event>, cid: string, m: Partition, c: Contribution, d: Contribution)
    requires Linked(m, Usages(Contributions(es))) && Arises(es, c) && Arises(es, d)
    ensures Key(cid, m, c) == Key(cid, m, d) <==> SameGeneration(es, c, d)
  {
    var us := Usages(Contributions(es));
    hide Linked, Chained, Contributions, Usages, Find, Decimal64, Ids;
    PrimaryIsFirst(c.usage);
    PrimaryIsFirst(d.usage);
    var a, b := PrimaryIdentity(c.usage), PrimaryIdentity(d.usage);
    if HasIdentity(c.usage) { RootsAreIdentities(m, us, a); }
    if HasIdentity(d.usage) { RootsAreIdentities(m, us, b); }
    assert ("step:" + cid + ":" + Decimal64(c.index))[0] == 's' && ("step:" + cid + ":" + Decimal64(d.index))[0] == 's';
    if HasIdentity(c.usage) && HasIdentity(d.usage) {
      RootsAreComponents(m, us, a, b);
      ConnectedIsChained(es, c.usage, d.usage);
    } else if !HasIdentity(c.usage) && !HasIdentity(d.usage) && Key(cid, m, c) == Key(cid, m, d) {
      StepKeys(cid, c.index, d.index);
    }
  }

  // ---------- Main results ----------

  /** The ID of a record: the greatest identity, as a string, that a chain joins to the
      usage, or the conversation and step of a usage without one. */
  ghost predicate NamesGeneration(es: seq<Event>, cid: string, c: Contribution, id: string) {
    if !HasIdentity(c.usage) then id == "step:" + cid + ":" + Decimal64(c.index)
    else
      && (exists v :: Occurs(es, v) && Chained(es, c.usage, v) && id in Ids(v))
      && (forall v, other :: Occurs(es, v) && Chained(es, c.usage, v) && other in Ids(v) ==>
            other == id || Less(other, id))
  }

  ghost function ClassOf(f: map<Contribution, nat>, i: nat): set<Contribution> { set c | c in f && f[c] == i }

  /** Every token-bearing usage of the conversation has its record, and no other usage has one;
      two share a record if and only if they belong to one generation; and every record sums
      up exactly the usages that have it and is named after their generation. */
  ghost predicate Assigns(info: Info, es: seq<Event>, rs: seq<Record>, f: map<Contribution, nat>) {
    && (forall c :: c in f <==> Arises(es, c) && HasTokens(c.usage))
    && (forall c, d :: c in f && d in f ==> (f[c] == f[d] <==> SameGeneration(es, c, d)))
    && (forall c :: c in f ==> f[c] < |rs| && NamesGeneration(es, info.cid, c, rs[f[c]].generationId))
    && (forall i :: 0 <= i < |rs| ==>
          ClassOf(f, i) != {} && SumsUp(info, ClassOf(f, i), rs[i].generationId, rs[i]))
  }

  /** The record a key belongs to. */
  lemma RecordOfKey(info: Info, m: Partition, cs: set<Contribution>, rs: seq<Record>, k: string) returns (i: nat)
    requires OnePerGeneration(info, m, cs, rs) && k in Keys(info.cid, m, cs)
    ensures i < |rs| && rs[i].generationId == k
  {
    hide SumsUp, Keys, RecordIsBearing;
    assert k in GenerationIds(rs);
    var r :| r in rs && r.generationId == k;
    i :| 0 <= i < |rs| && rs[i] == r;
  }

  ghost function IndexOf(rs: seq<Record>, k: string): nat {
    if exists i :: 0 <= i < |rs| && rs[i].generationId == k then
      var i :| 0 <= i < |rs| && rs[i].generationId == k; i
    else 0
  }

  ghost function Assignment(info: Info, m: Partition, cs: set<Contribution>, rs: seq<Record>): map<Contribution, nat> {
    map c | c in cs && UsageIsBearing(c.usage) :: IndexOf(rs, Key(info.cid, m, c))
  }

  lemma AssignmentByKeys(info: Info, m: Partition, cs: set<Contribution>, rs: seq<Record>)
    requires OnePerGeneration(info, m, cs, rs)
    ensures var f := Assignment(info, m, cs, rs);
            && (forall c :: c in f ==> f[c] < |rs| && rs[f[c]].generationId == Key(info.cid, m, c))
            && (forall i :: 0 <= i < |rs| ==>
                  ClassOf(f, i) != {} && ClassOf(f, i) == Group(info.cid, m, cs, rs[i].generationId))
  {
    hide SumsUp, RecordIsBearing, UsageIsBearing, Key;
    var f := Assignment(info, m, cs, rs);
    forall c | c in f
      ensures f[c] < |rs| && rs[f[c]].generationId == Key(info.cid, m, c)
    {
      assert Key(info.cid, m, c) in Keys(info.cid, m, cs);
      var i := RecordOfKey(info, m, cs, rs, Key(info.cid, m, c));
    }
    forall i | 0 <= i < |rs|
      ensures ClassOf(f, i) != {}
      ensures ClassOf(f, i) == Group(info.cid, m, cs, rs[i].generationId)
    {
      assert rs[i] in rs && rs[i].generationId in GenerationIds(rs);
      assert rs[i].generationId in Keys(info.cid, m, cs);
      var c :| c in cs && UsageIsBearing(c.usage) && Key(info.cid, m, c) == rs[i].generationId;
      assert c in f && rs[f[c]].generationId == rs[i].generationId;
      assert c in ClassOf(f, i);
    }
  }

  lemma KeyNames(es: seq<Event>, info: Info, m: Partition, c: Contribution)
    requires Linked(m, Usages(Contributions(es))) && Arises(es, c)
    ensures NamesGeneration(es, info.cid, c, Key(info.cid, m, c))
  {
    PrimaryIsFirst(c.usage);
    if HasIdentity(c.usage) {
      RootNames(es, m, c.usage);
    }
    hide Linked, NamesIdentity;
  }

  ghost predicate NamesIdentity(es: seq<Event>, u: Usage, id: string) {
    && (exists v :: Occurs(es, v) && Chained(es, u, v) && id in Ids(v))
    && (forall v, other :: Occurs(es, v) && Chained(es, u, v) && other in Ids(v) ==> other == id || Less(other, id))
  }

  /** The root of a usage's identity is the greatest identity joined to it. */
  lemma RootNames(es: seq<Event>, m: Partition, u: Usage)
    requires Linked(m, Usages(Contributions(es))) && Occurs(es, u) && HasIdentity(u)
    ensures NamesIdentity(es, u, Find(m, PrimaryIdentity(u)))
  {
    var us, a := Usages(Contributions(es)), PrimaryIdentity(u);
    var s, r := Members(us), Find(m, PrimaryIdentity(u));
    PrimaryIsFirst(u);
    forall x { OccursIsMember(es, x); }
    hide Linked, Contributions, Usages, Members, Ids, HasIdentity, PrimaryIdentity, Occurs, Find;
    ConnectedReflexive(s, a);
    RootIsGreatest(m, us, a, a);
    var p :| PathFromTo(s, p, a, r);
    var v := Carrier(s, u, p);
    var q := PathIsChain(es, s, p, u, v);
    assert Chained(es, u, v);
    forall w, other | Occurs(es, w) && Chained(es, u, w) && other in Ids(w)
      ensures other == r || Less(other, r)
    {
      var chain :| ChainFromTo(es, chain, u, w);
      ChainConnects(es, s, chain, a, other);
      RootIsGreatest(m, us, a, other);
    }
  }

  lemma Carrier(s: set<Usage>, u: Usage, p: seq<string>) returns (v: Usage)
    requires IsPath(s, p) && u in s && p[0] in Ids(u)
    ensures v in s && p[|p| - 1] in Ids(v)
  {
    v := u;
    if |p| > 1 {
      assert Shares(s, p[|p| - 2], p[|p| - 1]);
      v :| v in s && p[|p| - 2] in Ids(v) && p[|p| - 1] in Ids(v);
    }
  }

  lemma AssignmentCovers(info: Info, es: seq<Event>, m: Partition, rs: seq<Record>)
    ensures var f := Assignment(info, m, ToSet(Contributions(es)), rs);
            forall c :: c in f <==> Arises(es, c) && HasTokens(c.usage)
  {
    hide Contributions, UsageIsBearing, HasTokens, Arises, IndexOf, Key;
    var f := Assignment(info, m, ToSet(Contributions(es)), rs);
    forall c
      ensures c in f <==> Arises(es, c) && HasTokens(c.usage)
    {
      ContributionsAreRows(es, c);
      TokensAreBearing(c.usage);
    }
  }

  /** What ReadConversation returns, whatever keys it uses inside: one record for every
      generation, and every record the sum of exactly its usages. */
  lemma RecordsAreGenerations(info: Info, es: seq<Event>, rs: seq<Record>) returns (f: map<Contribution, nat>)
    requires Extract(info, es) == Some(rs)
    ensures Assigns(info, es, rs, f)
  {
    var m := LinkAll(map[], Usages(Contributions(es))).value;
    var cs := ToSet(Contributions(es));
    assert ReadFrom(info, es, m, rs) && Linked(m, Usages(Contributions(es)));
    OneRecordPerGeneration(info, es, m, rs);
    f := Assignment(info, m, cs, rs);
    AssignmentByKeys(info, m, cs, rs);
    AssignmentCovers(info, es, m, rs);
    hide *;
    AssignmentHolds(info, es, m, cs, rs, f);
  }

  lemma AssignmentHolds(info: Info, es: seq<Event>, m: Partition, cs: set<Contribution>, rs: seq<Record>,
                        f: map<Contribution, nat>)
    requires Linked(m, Usages(Contributions(es))) && OnePerGeneration(info, m, cs, rs)
    requires forall c :: c in f <==> Arises(es, c) && HasTokens(c.usage)
    requires forall c :: c in f ==> f[c] < |rs| && rs[f[c]].generationId == Key(info.cid, m, c)
    requires forall i :: 0 <= i < |rs| ==>
               ClassOf(f, i) != {} && ClassOf(f, i) == Group(info.cid, m, cs, rs[i].generationId)
    ensures Assigns(info, es, rs, f)
  {
    hide Linked, Contributions, Usages, Key, SumsUp, Group, NamesGeneration, HasTokens, Arises, SameGeneration,
      ClassOf, GenerationIds, Keys, RecordIsBearing;
    forall c, d | c in f && d in f
      ensures f[c] == f[d] <==> SameGeneration(es, c, d)
    {
      KeysAreGenerations(es, info.cid, m, c, d);
    }
    forall c | c in f
      ensures NamesGeneration(es, info.cid, c, rs[f[c]].generationId)
    {
      KeyNames(es, info, m, c);
    }
    forall i | 0 <= i < |rs|
      ensures SumsUp(info, ClassOf(f, i), rs[i].generationId, rs[i])
    {
      assert rs[i] in rs;
    }
  }

  // ---------- The order of the records ----------

  ghost predicate FirstWith(cid: string, m: Partition, cs: seq<Contribution>, k: string, p: int) {
    && 0 <= p < |cs| && UsageIsBearing(cs[p].usage) && Key(cid, m, cs[p]) == k
    && forall q :: 0 <= q < p && UsageIsBearing(cs[q].usage) ==> Key(cid, m, cs[q]) != k
  }

  /** After `cs` the keys stand in order of first appearance, each record with the step
      index of the usage that began it. */
  ghost predicate Listed(cid: string, m: Partition, cs: seq<Contribution>, st: Collected) {
    && (forall k :: k in st.keys <==> k in st.records)
    && Covered(cid, m, cs, st.keys) && AllBegan(cid, m, cs, st) && InOrder(cid, m, cs, st.keys)
  }

  ghost predicate Covered(cid: string, m: Partition, cs: seq<Contribution>, keys: seq<string>) {
    forall p :: 0 <= p < |cs| && UsageIsBearing(cs[p].usage) ==> Key(cid, m, cs[p]) in keys
  }

  ghost predicate AllBegan(cid: string, m: Partition, cs: seq<Contribution>, st: Collected) {
    forall k :: k in st.keys ==> Began(cid, m, cs, st, k)
  }

  ghost predicate InOrder(cid: string, m: Partition, cs: seq<Contribution>, keys: seq<string>) {
    forall i, j, p, q ::
      0 <= i < j < |keys| && FirstWith(cid, m, cs, keys[i], p) && FirstWith(cid, m, cs, keys[j], q) ==> p < q
  }

  ghost predicate Began(cid: string, m: Partition, cs: seq<Contribution>, st: Collected, k: string) {
    k in st.records && exists p :: FirstWith(cid, m, cs, k, p) && st.records[k].stepIndex == cs[p].index
  }

  lemma FirstWithSnoc(cid: string, m: Partition, cs: seq<Contribution>, c: Contribution, k: string, p: int)
    requires exists q :: FirstWith(cid, m, cs, k, q)
    ensures FirstWith(cid, m, cs + [c], k, p) <==> FirstWith(cid, m, cs, k, p)
  {
    hide Key, UsageIsBearing;
    var q :| FirstWith(cid, m, cs, k, q);
    assert (cs + [c])[q] == cs[q];
    if FirstWith(cid, m, cs, k, p) {
      assert forall i :: 0 <= i < p ==> (cs + [c])[i] == cs[i];
    }
    if FirstWith(cid, m, cs + [c], k, p) {
      assert p <= q;
      assert forall i :: 0 <= i < p ==> (cs + [c])[i] == cs[i];
    }
  }

  lemma UpsertKeepsStep(info: Info, m: Partition, st: Collected, c: Contribution)
    ensures var next, k := UpsertOne(info, m, st, c), Key(info.cid, m, c);
            if !UsageIsBearing(c.usage) then next == st
            else
              && next.keys == (if k in st.records then st.keys else st.keys + [k])
              && next.records.Keys == st.records.Keys + {k}
              && (forall j :: j in st.records ==> next.records[j].stepIndex == st.records[j].stepIndex)
              && (k !in st.records ==> next.records[k].stepIndex == c.index)
  {
    hide Key, UsageIsBearing;
  }

  lemma BeganSnoc(cid: string, m: Partition, cs: seq<Contribution>, st: Collected, c: Contribution, next: Collected,
                  k: string)
    requires Began(cid, m, cs, st, k)
    requires k in next.records && next.records[k].stepIndex == st.records[k].stepIndex
    ensures Began(cid, m, cs + [c], next, k)
    ensures exists p :: FirstWith(cid, m, cs, k, p)
  {
    var p :| FirstWith(cid, m, cs, k, p) && st.records[k].stepIndex == cs[p].index;
    FirstWithSnoc(cid, m, cs, c, k, p);
    assert (cs + [c])[p] == cs[p];
  }

  lemma OrderSnoc(cid: string, m: Partition, cs: seq<Contribution>, c: Contribution, keys: seq<string>)
    requires InOrder(cid, m, cs, keys) && forall k :: k in keys ==> exists q :: FirstWith(cid, m, cs, k, q)
    ensures InOrder(cid, m, cs + [c], keys)
    ensures forall k, p :: k in keys && FirstWith(cid, m, cs + [c], k, p) ==> p < |cs|
  {
    forall k, p | k in keys
      ensures FirstWith(cid, m, cs + [c], k, p) <==> FirstWith(cid, m, cs, k, p)
    {
      FirstWithSnoc(cid, m, cs, c, k, p);
    }
    assert forall k, p :: FirstWith(cid, m, cs, k, p) ==> p < |cs|;
    hide FirstWith;
  }

  lemma OrderNew(cid: string, m: Partition, cs: seq<Contribution>, keys: seq<string>, k: string)
    requires InOrder(cid, m, cs, keys)
    requires forall j, p, q :: j in keys && FirstWith(cid, m, cs, j, p) && FirstWith(cid, m, cs, k, q) ==> p < q
    ensures InOrder(cid, m, cs, keys + [k])
  {
    hide FirstWith;
    assert forall i :: 0 <= i < |keys| ==> (keys + [k])[i] in keys;
  }

  /** What one more usage does to the keys and to the step indices. */
  ghost predicate Extends(cid: string, m: Partition, st: Collected, c: Contribution, next: Collected) {
    && (next.keys == st.keys || next.keys == st.keys + [Key(cid, m, c)])
    && (forall k :: k in next.keys <==> k in next.records)
    && (forall k :: k in st.keys ==>
          k in st.records && k in next.records && next.records[k].stepIndex == st.records[k].stepIndex)
    && (UsageIsBearing(c.usage) ==> Key(cid, m, c) in next.keys)
    && (next.keys != st.keys ==>
          && UsageIsBearing(c.usage) && Key(cid, m, c) !in st.keys && Key(cid, m, c) in next.records
          && next.records[Key(cid, m, c)].stepIndex == c.index)
  }

  lemma UpsertExtends(info: Info, m: Partition, cs: seq<Contribution>, st: Collected, c: Contribution)
    requires forall k :: k in st.keys <==> k in st.records
    ensures Extends(info.cid, m, st, c, UpsertOne(info, m, st, c))
  {
    UpsertKeepsStep(info, m, st, c);
    hide UpsertOne, Key, UsageIsBearing;
  }

  lemma BeganStep(cid: string, m: Partition, cs: seq<Contribution>, st: Collected, c: Contribution, next: Collected)
    requires AllBegan(cid, m, cs, st) && Covered(cid, m, cs, st.keys) && Extends(cid, m, st, c, next)
    ensures AllBegan(cid, m, cs + [c], next)
    ensures forall k :: k in st.keys ==> exists p :: FirstWith(cid, m, cs, k, p)
  {
    hide Key, UsageIsBearing, FirstWith, Began;
    forall k | k in st.keys
      ensures Began(cid, m, cs + [c], next, k) && exists p :: FirstWith(cid, m, cs, k, p)
    {
      BeganSnoc(cid, m, cs, st, c, next, k);
    }
    if next.keys != st.keys { BeganNew(cid, m, cs, c, next); }
  }

  lemma BeganNew(cid: string, m: Partition, cs: seq<Contribution>, c: Contribution, next: Collected)
    requires UsageIsBearing(c.usage) && Key(cid, m, c) in next.records
    requires next.records[Key(cid, m, c)].stepIndex == c.index
    requires forall p :: 0 <= p < |cs| && UsageIsBearing(cs[p].usage) ==> Key(cid, m, cs[p]) != Key(cid, m, c)
    ensures Began(cid, m, cs + [c], next, Key(cid, m, c))
  {
    NewComesLast(cid, m, cs, c);
    hide Key, FirstWith, UsageIsBearing;
    assert (cs + [c])[|cs|] == c && FirstWith(cid, m, cs + [c], Key(cid, m, c), |cs|);
  }

  lemma OrderStep(cid: string, m: Partition, cs: seq<Contribution>, st: Collected, c: Contribution, next: Collected)
    requires InOrder(cid, m, cs, st.keys) && Covered(cid, m, cs, st.keys) && Extends(cid, m, st, c, next)
    requires forall k :: k in st.keys ==> exists p :: FirstWith(cid, m, cs, k, p)
    ensures InOrder(cid, m, cs + [c], next.keys)
  {
    hide Key, UsageIsBearing, FirstWith, InOrder;
    OrderSnoc(cid, m, cs, c, st.keys);
    if next.keys != st.keys {
      NewComesLast(cid, m, cs, c);
      OrderNew(cid, m, cs + [c], st.keys, Key(cid, m, c));
    }
  }

  lemma CoverStep(cid: string, m: Partition, cs: seq<Contribution>, st: Collected, c: Contribution, next: Collected)
    requires Covered(cid, m, cs, st.keys) && Extends(cid, m, st, c, next)
    ensures Covered(cid, m, cs + [c], next.keys)
  {
    hide Key, UsageIsBearing;
  }

  lemma UpsertKeepsListed(info: Info, m: Partition, cs: seq<Contribution>, st: Collected, c: Contribution)
    requires Listed(info.cid, m, cs, st)
    ensures Listed(info.cid, m, cs + [c], UpsertOne(info, m, st, c))
  {
    var next := UpsertOne(info, m, st, c);
    UpsertExtends(info, m, cs, st, c);
    assert forall k :: k in next.keys <==> k in next.records;
    hide UpsertOne, Extends, Covered, AllBegan, InOrder, FirstWith;
    CoverStep(info.cid, m, cs, st, c, next);
    BeganStep(info.cid, m, cs, st, c, next);
    OrderStep(info.cid, m, cs, st, c, next);
  }

  lemma NewComesLast(cid: string, m: Partition, cs: seq<Contribution>, c: Contribution)
    requires UsageIsBearing(c.usage)
    requires forall p :: 0 <= p < |cs| && UsageIsBearing(cs[p].usage) ==> Key(cid, m, cs[p]) != Key(cid, m, c)
    ensures forall p :: FirstWith(cid, m, cs + [c], Key(cid, m, c), p) <==> p == |cs|
  {
    hide Key, UsageIsBearing;
    var all := cs + [c];
    assert all[|cs|] == c;
    assert forall p :: 0 <= p < |cs| ==> all[p] == cs[p];
  }

  lemma {:induction false} UpsertAllIsListed(info: Info, m: Partition, cs: seq<Contribution>)
    ensures Listed(info.cid, m, cs, UpsertAll(info, m, NOTHING, cs))
  {
    if cs != [] {
      var front, c := cs[..|cs| - 1], cs[|cs| - 1];
      assert cs == front + [c];
      UpsertAllIsListed(info, m, front);
      UpsertAllConcat(info, m, NOTHING, front, [c]);
      UpsertAllOne(info, m, UpsertAll(info, m, NOTHING, front), c);
      hide Listed, UpsertOne, UpsertAll;
      UpsertKeepsListed(info, m, front, UpsertAll(info, m, NOTHING, front), c);
    }
  }

  lemma UpsertAllOne(info: Info, m: Partition, st: Collected, c: Contribution)
    ensures UpsertAll(info, m, st, [c]) == UpsertOne(info, m, st, c)
  {
    hide UpsertOne;
  }

  /** The usage that begins record `i` in reading order. */
  ghost predicate Begins(es: seq<Event>, f: map<Contribution, nat>, i: int, p: int) {
    var cs := Contributions(es);
    && 0 <= p < |cs| && cs[p] in f && f[cs[p]] == i
    && forall q :: 0 <= q < p && cs[q] in f ==> f[cs[q]] != i
  }

  /** The record has the step index of the usage that begins it. */
  ghost predicate HasFirstStep(es: seq<Event>, f: map<Contribution, nat>, i: int, r: Record) {
    exists p :: Begins(es, f, i, p) && r.stepIndex == Contributions(es)[p].index
  }

  /** The records stand in the order in which their generations first appear, and each
      has the step index of the usage that began it. */
  lemma RecordsInOrder(info: Info, es: seq<Event>, rs: seq<Record>, f: map<Contribution, nat>)
    requires Extract(info, es) == Some(rs) && Assigns(info, es, rs, f)
    ensures forall i :: 0 <= i < |rs| ==> HasFirstStep(es, f, i, rs[i])
    ensures forall i, j, p, q :: i < j && Begins(es, f, i, p) && Begins(es, f, j, q) ==> p < q
  {
    var cs := Contributions(es);
    var m := LinkAll(map[], Usages(cs)).value;
    var st := UpsertAll(info, m, NOTHING, cs);
    assert rs == BearingRecords(st, st.keys) && Linked(m, Usages(cs));
    UpsertAllIsListed(info, m, cs);
    RecordsAreListed(info, m, cs);
    OneRecordPerGeneration(info, es, m, rs);
    hide Extract, Linked, Contributions, Usages, UpsertAll, BearingRecords, Listed, OnePerGeneration;
    FirstsAreKeys(info, es, m, rs, f);
    OrderByKeys(info, m, cs, st, rs);
    hide *;
    forall i | 0 <= i < |rs|
      ensures HasFirstStep(es, f, i, rs[i])
    {
      BeganIsFirst(info.cid, m, es, f, i, rs[i]);
    }
  }

  lemma BeganIsFirst(cid: string, m: Partition, es: seq<Event>, f: map<Contribution, nat>, i: int, r: Record)
    requires BeganRecord(cid, m, Contributions(es), r)
    requires forall p :: Begins(es, f, i, p) <==> FirstWith(cid, m, Contributions(es), r.generationId, p)
    ensures HasFirstStep(es, f, i, r)
  {
    var cs := Contributions(es);
    var p :| FirstWith(cid, m, cs, r.generationId, p) && r.stepIndex == cs[p].index;
    hide Contributions, FirstWith;
    assert Begins(es, f, i, p);
  }

  /** The final filter drops nothing, so the records stand as their keys do. */
  lemma RecordsAreListed(info: Info, m: Partition, cs: seq<Contribution>)
    ensures var st := UpsertAll(info, m, NOTHING, cs);
            var rs := BearingRecords(st, st.keys);
            |rs| == |st.keys| && forall i :: 0 <= i < |rs| ==>
              st.keys[i] in st.records && rs[i] == st.records[st.keys[i]] && rs[i].generationId == st.keys[i]
  {
    var st := UpsertAll(info, m, NOTHING, cs);
    NothingIsFaithful(info, m);
    UpsertAllIsFaithful(info, m, {}, NOTHING, cs);
    hide UpsertAll, Faithful, BearingRecords, RecordIsBearing, SumsUp;
    forall k | k in st.keys
      ensures k in st.records && st.records[k].generationId == k && RecordIsBearing(st.records[k])
    {
      FaithfulRecords(info, m, {} + ToSet(cs), st, k);
    }
    FilterKeepsAll(st, st.keys);
  }

  lemma NameIsUnique(es: seq<Event>, cid: string, c: Contribution, x: string, y: string)
    requires NamesGeneration(es, cid, c, x) && NamesGeneration(es, cid, c, y)
    ensures x == y
  {
    hide Occurs, Chained, Ids, Less, HasIdentity;
    if Less(x, y) && Less(y, x) {
      LessTransitive(x, y, x);
      LessIrreflexive(x);
    }
  }

  lemma FirstsAreKeys(info: Info, es: seq<Event>, m: Partition, rs: seq<Record>, f: map<Contribution, nat>)
    requires Linked(m, Usages(Contributions(es))) && Assigns(info, es, rs, f)
    requires OnePerGeneration(info, m, ToSet(Contributions(es)), rs)
    ensures forall i, p :: 0 <= i < |rs| ==>
              (Begins(es, f, i, p) <==> FirstWith(info.cid, m, Contributions(es), rs[i].generationId, p))
    ensures forall i, p :: Begins(es, f, i, p) ==> 0 <= i < |rs|
  {
    var cs := Contributions(es);
    forall p | 0 <= p < |cs|
      ensures cs[p] in f <==> UsageIsBearing(cs[p].usage)
      ensures cs[p] in f ==> f[cs[p]] < |rs| && rs[f[cs[p]]].generationId == Key(info.cid, m, cs[p])
    {
      KeyOfAssigned(info, es, m, rs, f, cs[p]);
    }
    DistinctIds(info, m, ToSet(cs), rs);
    hide *;
    forall i, p | 0 <= i < |rs|
      ensures Begins(es, f, i, p) <==> FirstWith(info.cid, m, cs, rs[i].generationId, p)
    {
      FirstIsFirst(info.cid, m, es, rs, f, i, p);
    }
    forall i, p
      ensures Begins(es, f, i, p) ==> 0 <= i < |rs|
    {
      BeginsInside(es, f, i, p);
    }
  }

  lemma BeginsInside(es: seq<Event>, f: map<Contribution, nat>, i: int, p: int)
    ensures Begins(es, f, i, p) ==>
              0 <= p < |Contributions(es)| && Contributions(es)[p] in f && f[Contributions(es)[p]] == i
  {}

  lemma FirstIsFirst(cid: string, m: Partition, es: seq<Event>, rs: seq<Record>, f: map<Contribution, nat>, i: int,
                     p: int)
    requires var cs := Contributions(es);
             forall q :: 0 <= q < |cs| ==>
               && (cs[q] in f <==> UsageIsBearing(cs[q].usage))
               && (cs[q] in f ==> f[cs[q]] < |rs| && rs[f[cs[q]]].generationId == Key(cid, m, cs[q]))
    requires forall j, k :: 0 <= j < |rs| && 0 <= k < |rs| && rs[j].generationId == rs[k].generationId ==> j == k
    requires 0 <= i < |rs|
    ensures Begins(es, f, i, p) <==> FirstWith(cid, m, Contributions(es), rs[i].generationId, p)
  {
    hide Contributions, UsageIsBearing, Key;
    var cs := Contributions(es);
    forall q | 0 <= q < |cs| && cs[q] in f
      ensures f[cs[q]] == i <==> Key(cid, m, cs[q]) == rs[i].generationId
    {
      assert rs[f[cs[q]]].generationId == Key(cid, m, cs[q]);
    }
  }

  lemma DistinctIds(info: Info, m: Partition, cs: set<Contribution>, rs: seq<Record>)
    requires OnePerGeneration(info, m, cs, rs)
    ensures forall i, j :: 0 <= i < |rs| && 0 <= j < |rs| && rs[i].generationId == rs[j].generationId ==> i == j
  {}

  lemma KeyOfAssigned(info: Info, es: seq<Event>, m: Partition, rs: seq<Record>, f: map<Contribution, nat>,
                      c: Contribution)
    requires Linked(m, Usages(Contributions(es))) && Assigns(info, es, rs, f) && c in Contributions(es)
    ensures c in f <==> UsageIsBearing(c.usage)
    ensures c in f ==> f[c] < |rs| && rs[f[c]].generationId == Key(info.cid, m, c)
  {
    hide Linked, Contributions, Usages, NamesGeneration, UsageIsBearing, Key, Arises, HasTokens, SumsUp,
      SameGeneration, ClassOf;
    ContributionsAreRows(es, c);
    TokensAreBearing(c.usage);
    if c in f {
      KeyNames(es, info, m, c);
      NameIsUnique(es, info.cid, c, rs[f[c]].generationId, Key(info.cid, m, c));
    }
  }

  ghost predicate BeganRecord(cid: string, m: Partition, cs: seq<Contribution>, r: Record) {
    exists p :: FirstWith(cid, m, cs, r.generationId, p) && r.stepIndex == cs[p].index
  }

  lemma OrderByKeys(info: Info, m: Partition, cs: seq<Contribution>, st: Collected, rs: seq<Record>)
    requires Listed(info.cid, m, cs, st) && |rs| == |st.keys|
    requires forall i :: 0 <= i < |rs| ==>
      st.keys[i] in st.records && rs[i] == st.records[st.keys[i]] && rs[i].generationId == st.keys[i]
    ensures forall i :: 0 <= i < |rs| ==> BeganRecord(info.cid, m, cs, rs[i])
    ensures forall i, j, p, q ::
      (0 <= i < j < |rs| && FirstWith(info.cid, m, cs, rs[i].generationId, p)
       && FirstWith(info.cid, m, cs, rs[j].generationId, q)) ==> p < q
  {
    hide FirstWith;
    forall i | 0 <= i < |rs|
      ensures BeganRecord(info.cid, m, cs, rs[i])
    {
      assert st.keys[i] in st.keys;
      RecordBegan(info.cid, m, cs, st, st.keys[i], rs[i]);
    }
  }

  lemma RecordBegan(cid: string, m: Partition, cs: seq<Contribution>, st: Collected, k: string, r: Record)
    requires Began(cid, m, cs, st, k) && r == st.records[k] && r.generationId == k
    ensures BeganRecord(cid, m, cs, r)
  {
    hide Key, UsageIsBearing;
  }

  // ---------- When a conversation cannot be read ----------

  predicate ResponsesDiffer(u: Usage, v: Usage) {
    u.responseID != "" && v.responseID != "" && u.responseID != v.responseID
  }

  predicate ProvidersDiffer(u: Usage, v: Usage) {
    && u.providerAssignedMessageID != "" && v.providerAssignedMessageID != ""
    && u.providerAssignedMessageID != v.providerAssignedMessageID
  }

  lemma ClashingIds(u: Usage, v: Usage, a: string, b: string)
    requires a in Ids(u) && b in Ids(v) && Clash(a, b)
    ensures ResponsesDiffer(u, v) || ProvidersDiffer(u, v)
  {
    IdsMeaning(u, a);
    IdsMeaning(v, b);
    hide Ids;
    KindIsFirstLetter(a);
    KindIsFirstLetter(b);
  }

  lemma KindIsFirstLetter(a: string)
    ensures IsResponse(a) ==> |a| > 0 && a[0] == 'r'
    ensures IsProvider(a) ==> |a| > 0 && a[0] == 'p'
  {}

  /** Two identities on one path are carried by two usages of one chain. */
  lemma PathCarriers(es: seq<Event>, s: set<Usage>, p: seq<string>) returns (u: Usage, v: Usage)
    requires IsPath(s, p) && |p| > 1 && forall x :: x in s ==> Occurs(es, x)
    ensures u in s && v in s && p[0] in Ids(u) && p[|p| - 1] in Ids(v) && Chained(es, u, v)
  {
    assert Shares(s, p[0], p[1]);
    u :| u in s && p[0] in Ids(u) && p[1] in Ids(u);
    v := Carrier(s, u, p);
    hide Ids, Occurs;
    var q := PathIsChain(es, s, p, u, v);
  }

  /** A conversation is refused only if a chain joins two usages with different response IDs or with
      different provider IDs, and always if it joins two with different response IDs. When a clash of
      provider IDs alone is noticed depends on the order of the rows. */
  lemma RefusalMeansAmbiguity(info: Info, es: seq<Event>)
    ensures Extract(info, es).None? ==>
              exists u, v :: Chained(es, u, v) && (ResponsesDiffer(u, v) || ProvidersDiffer(u, v))
    ensures (exists u, v :: Chained(es, u, v) && ResponsesDiffer(u, v)) ==> Extract(info, es).None?
  {
    var us := Usages(Contributions(es));
    var s := Members(us);
    FailureMeansAmbiguity(us);
    forall x { OccursIsMember(es, x); }
    assert Extract(info, es).None? <==> LinkAll(map[], us).None?;
    hide Extract, LinkAll, Contributions, Usages, Members, Occurs, ResponsesDiffer, ProvidersDiffer, Ids, IsPath,
      IsChain;
    if Extract(info, es).None? {
      var a, b :| Ambiguous(s, a, b);
      var p :| PathFromTo(s, p, a, b);
      PathHasSteps(s, p, a, b);
      var u, v := PathCarriers(es, s, p);
      ClashingIds(u, v, a, b);
    }
    if exists u, v :: Chained(es, u, v) && ResponsesDiffer(u, v) {
      var u, v :| Chained(es, u, v) && ResponsesDiffer(u, v);
      var a, b := DifferentResponses(es, s, u, v);
      assert Ambiguous(s, a, b) && IsResponse(a);
    }
  }

  lemma PathHasSteps(s: set<Usage>, p: seq<string>, a: string, b: string)
    requires PathFromTo(s, p, a, b) && a != b
    ensures IsPath(s, p) && |p| > 1 && p[0] == a && p[|p| - 1] == b
  {}

  lemma DifferentResponses(es: seq<Event>, s: set<Usage>, u: Usage, v: Usage) returns (a: string, b: string)
    requires Chained(es, u, v) && ResponsesDiffer(u, v) && forall x :: Occurs(es, x) ==> x in s
    ensures Connected(s, a, b) && Clash(a, b) && IsResponse(a)
  {
    a, b := "response:" + u.responseID, "response:" + v.responseID;
    PrefixedDiffer(u.responseID, v.responseID);
    IdsMeaning(u, a);
    IdsMeaning(v, b);
    hide Ids, Occurs;
    var p :| ChainFromTo(es, p, u, v);
    ChainConnects(es, s, p, a, b);
    assert a[..9] == RESPONSE && b[..9] == RESPONSE;
  }
}
