/** What the deduplicated records say about the usages they were built from. */
module Merge {
  import opened Common
  import opened Wire
  import opened Aliases
  import opened Reader

  // ---------- Maxima over a set of usages ----------

  datatype Counter = Input | CacheRead | CacheCreation | Visible | Reasoning | TotalOutput

  function Count(u: Usage, w: Counter): u64 {
    match w
    case Input => u.inputTokens
    case CacheRead => u.cacheReadTokens
    case CacheCreation => u.cacheCreationTokens
    case Visible => u.visibleOutputTokens
    case Reasoning => u.reasoningTokens
    case TotalOutput => u.totalOutputTokens
  }

  function Value(r: Record, w: Counter): u64 {
    match w
    case Input => r.inputTokens
    case CacheRead => r.cacheReadTokens
    case CacheCreation => r.cacheCreationTokens
    case Visible => r.visibleOutputTokens
    case Reasoning => r.reasoningTokens
    case TotalOutput => r.totalOutputTokens
  }

  ghost predicate IsLargest(g: set<Contribution>, w: Counter, v: u64) {
    && (exists c :: c in g && Count(c.usage, w) == v)
    && (forall c :: c in g ==> Count(c.usage, w) <= v)
  }

  ghost function Largest(g: set<Contribution>, w: Counter): (v: u64)
    requires g != {}
    ensures IsLargest(g, w, v)
  {
    var c :| c in g;
    if g == {c} then Count(c.usage, w) else
      var v := Largest(g - {c}, w);
      if Count(c.usage, w) > v then Count(c.usage, w) else v
  }

  /** A usage happened at its own time, or at the conversation's when it has none. */
  ghost predicate HappenedAt(base: Option<int>, c: Contribution, t: int) {
    c.timestamp == Some(t) || (c.timestamp == None && base == Some(t))
  }

  /** The earliest known time of a group, None when no usage has one. */
  ghost predicate IsEarliest(g: set<Contribution>, base: Option<int>, t: Option<int>) {
    match t
    case None => forall c, x :: c in g ==> !HappenedAt(base, c, x)
    case Some(v) =>
      && (exists c :: c in g && HappenedAt(base, c, v))
      && (forall c, x :: c in g && HappenedAt(base, c, x) ==> v <= x)
  }

  lemma StampIsTime(base: Option<int>, c: Contribution, t: int)
    ensures HappenedAt(base, c, t) <==> Stamp(base, c) == Some(t)
  {}

  /** The token-bearing usages that count for generation `k`. */
  ghost function Group(cid: string, m: Partition, cs: set<Contribution>, k: string): set<Contribution> {
    set c | c in cs && UsageIsBearing(c.usage) && Key(cid, m, c) == k
  }

  ghost function Keys(cid: string, m: Partition, cs: set<Contribution>): set<string> {
    set c | c in cs && UsageIsBearing(c.usage) :: Key(cid, m, c)
  }

  /** The largest reported total, or visible plus reasoning when that is more. */
  ghost function OutputOf(g: set<Contribution>): nat
    requires g != {}
  {
    Max(Largest(g, TotalOutput), Largest(g, Visible) + Largest(g, Reasoning))
  }

  ghost function TotalOf(g: set<Contribution>): nat
    requires g != {}
  {
    Largest(g, Input) + Largest(g, CacheRead) + OutputOf(g)
  }

  /** How one record sums up its group of usages. */
  ghost predicate SumsUp(info: Info, g: set<Contribution>, k: string, r: Record) {
    && g != {}
    && r.conversationId == info.cid && r.generationId == k
    && r.workspace == info.workspace && r.project == info.project
    && (forall w :: w != TotalOutput ==> Value(r, w) == Largest(g, w))
    && Largest(g, TotalOutput) <= r.totalOutputTokens
    && (r.visibleOutputTokens + r.reasoningTokens < TWO_64 ==> r.totalOutputTokens == OutputOf(g))
    && Normalize(r) == r
    && IsEarliest(g, info.base, r.timestamp)
  }

  lemma LargestIsUnique(g: set<Contribution>, w: Counter, v: u64)
    requires g != {} && IsLargest(g, w, v)
    ensures Largest(g, w) == v
  {
    var c :| c in g && Count(c.usage, w) == v;
    var d :| d in g && Count(d.usage, w) == Largest(g, w);
  }

  lemma LargestOfOne(c: Contribution, w: Counter)
    ensures Largest({c}, w) == Count(c.usage, w)
  {
    assert c in {c};
    LargestIsUnique({c}, w, Count(c.usage, w));
  }

  lemma LargestAdd(g: set<Contribution>, c: Contribution, w: Counter)
    requires g != {}
    ensures Largest(g + {c}, w) == MaxU64(Largest(g, w), Count(c.usage, w))
  {
    var v := MaxU64(Largest(g, w), Count(c.usage, w));
    assert IsLargest(g, w, Largest(g, w));
    var d :| d in g && Count(d.usage, w) == Largest(g, w);
    assert d in g + {c} && c in g + {c};
    LargestIsUnique(g + {c}, w, v);
  }

  lemma EarliestAdd(g: set<Contribution>, base: Option<int>, t: Option<int>, c: Contribution)
    requires IsEarliest(g, base, t)
    ensures IsEarliest(g + {c}, base, EarlierStamp(t, Stamp(base, c)))
  {
    assert c in g + {c};
    forall d, x { StampIsTime(base, d, x); }
    hide HappenedAt;
    if t.Some? {
      var d :| d in g && HappenedAt(base, d, t.value);
      assert d in g + {c};
    }
    if Stamp(base, c).Some? { assert HappenedAt(base, c, Stamp(base, c).value); }
  }

  lemma EarliestIsUnique(g: set<Contribution>, base: Option<int>, s: Option<int>, t: Option<int>)
    requires IsEarliest(g, base, s) && IsEarliest(g, base, t)
    ensures s == t
  {
    hide HappenedAt;
    if s.Some? { var c :| c in g && HappenedAt(base, c, s.value); }
    if t.Some? { var d :| d in g && HappenedAt(base, d, t.value); }
  }

  // ---------- Upsert keeps the summaries ----------

  lemma NewSumsUp(info: Info, m: Partition, c: Contribution)
    ensures SumsUp(info, {c}, Key(info.cid, m, c), NewRecord(info, m, c))
  {
    forall w { LargestOfOne(c, w); }
    var r := NewRecord(info, m, c);
    var u := c.usage;
    hide Key, UsageIsBearing, Add64;
    var raw := Record(info.cid, Key(info.cid, m, c), c.index, Stamp(info.base, c), info.workspace, info.project,
                      u.inputTokens, u.cacheReadTokens, u.cacheCreationTokens, u.visibleOutputTokens,
                      u.reasoningTokens, u.totalOutputTokens, 0);
    OutputIsExact(raw);
    assert c in {c};
  }

  lemma MergeSumsUp(info: Info, g: set<Contribution>, k: string, r: Record, c: Contribution)
    requires SumsUp(info, g, k, r)
    ensures SumsUp(info, g + {c}, k, MergeInto(info, r, c))
  {
    hide Add64, Stamp, Key, Largest, IsEarliest, EarlierStamp;
    var u := c.usage;
    forall w { LargestAdd(g, c, w); }
    EarliestAdd(g, info.base, r.timestamp, c);
    var raw := r.(
      inputTokens := MaxU64(r.inputTokens, u.inputTokens),
      cacheReadTokens := MaxU64(r.cacheReadTokens, u.cacheReadTokens),
      cacheCreationTokens := MaxU64(r.cacheCreationTokens, u.cacheCreationTokens),
      visibleOutputTokens := MaxU64(r.visibleOutputTokens, u.visibleOutputTokens),
      reasoningTokens := MaxU64(r.reasoningTokens, u.reasoningTokens),
      totalOutputTokens := MaxU64(r.totalOutputTokens, u.totalOutputTokens),
      timestamp := EarlierStamp(r.timestamp, Stamp(info.base, c)));
    OutputIsExact(raw);
    assert MergeInto(info, r, c) == Normalize(raw);
    forall w | w != TotalOutput
      ensures Value(Normalize(raw), w) == Largest(g + {c}, w)
    {
      assert Value(r, w) == Largest(g, w);
    }
    assert Value(r, Visible) == Largest(g, Visible) && Value(r, Reasoning) == Largest(g, Reasoning);
  }

  ghost predicate NoDuplicates(keys: seq<string>) {
    forall i, j :: 0 <= i < j < |keys| ==> keys[i] != keys[j]
  }

  ghost function ToSet<T>(s: seq<T>): set<T> { set x | x in s }

  /** The collector's invariant: after the contributions `cs` there is exactly one
      record per generation, listed once, and it sums up its group. */
  ghost predicate Faithful(info: Info, m: Partition, cs: set<Contribution>, st: Collected) {
    && NoDuplicates(st.keys)
    && ToSet(st.keys) == st.records.Keys == Keys(info.cid, m, cs)
    && forall k :: k in st.records ==> SumsUp(info, Group(info.cid, m, cs, k), k, st.records[k])
  }

  lemma UpsertIsFaithful(info: Info, m: Partition, cs: set<Contribution>, st: Collected, c: Contribution)
    requires Faithful(info, m, cs, st)
    ensures Faithful(info, m, cs + {c}, UpsertOne(info, m, st, c))
  {
    hide SumsUp, Key, MergeInto, NewRecord, UsageIsBearing;
    var k, next := Key(info.cid, m, c), UpsertOne(info, m, st, c);
    var before, all := Group(info.cid, m, cs, k), cs + {c};
    forall j | j != k || !UsageIsBearing(c.usage)
      ensures Group(info.cid, m, all, j) == Group(info.cid, m, cs, j)
    {}
    if UsageIsBearing(c.usage) {
      assert Group(info.cid, m, all, k) == before + {c};
      assert Keys(info.cid, m, all) == Keys(info.cid, m, cs) + {k};
      if k in st.records {
        MergeSumsUp(info, before, k, st.records[k], c);
      } else {
        assert k !in Keys(info.cid, m, cs);
        assert before == {};
        assert before + {c} == {c};
        NewSumsUp(info, m, c);
        assert ToSet(next.keys) == ToSet(st.keys) + {k};
      }
    } else {
      assert Keys(info.cid, m, all) == Keys(info.cid, m, cs);
    }
  }

  lemma {:induction false} UpsertAllIsFaithful(info: Info, m: Partition, seen: set<Contribution>, st: Collected,
                                               cs: seq<Contribution>)
    requires Faithful(info, m, seen, st)
    ensures Faithful(info, m, seen + ToSet(cs), UpsertAll(info, m, st, cs))
    decreases |cs|
  {
    hide Faithful, UpsertOne;
    if cs == [] {
      assert seen + ToSet(cs) == seen;
    } else {
      UpsertIsFaithful(info, m, seen, st, cs[0]);
      UpsertAllIsFaithful(info, m, seen + {cs[0]}, UpsertOne(info, m, st, cs[0]), cs[1..]);
      assert cs == [cs[0]] + cs[1..];
      assert seen + {cs[0]} + ToSet(cs[1..]) == seen + ToSet(cs);
    }
  }

  lemma SummaryIsBearing(info: Info, g: set<Contribution>, k: string, r: Record)
    requires SumsUp(info, g, k, r) && forall c :: c in g ==> UsageIsBearing(c.usage)
    ensures RecordIsBearing(r)
  {
    var c :| c in g;
    var w := if c.usage.inputTokens > 0 then Input else if c.usage.cacheReadTokens > 0 then CacheRead
             else if c.usage.cacheCreationTokens > 0 then CacheCreation else if c.usage.visibleOutputTokens > 0 then
               Visible
             else if c.usage.reasoningTokens > 0 then Reasoning else TotalOutput;
    assert 0 < Count(c.usage, w) <= Largest(g, w) <= Value(r, w);
  }

  lemma {:induction false} FilterKeepsAll(st: Collected, keys: seq<string>)
    requires forall k :: k in keys ==> k in st.records && RecordIsBearing(st.records[k])
    ensures |BearingRecords(st, keys)| == |keys|
    ensures forall i :: 0 <= i < |keys| ==> BearingRecords(st, keys)[i] == st.records[keys[i]]
  {
    if keys != [] { FilterKeepsAll(st, keys[..|keys| - 1]); }
  }

  // ---------- Main results ----------

  /** The records are read off the partition that linking leaves. */
  ghost predicate ReadFrom(info: Info, es: seq<Event>, m: Partition, rs: seq<Record>) {
    Linked(m, Usages(Contributions(es))) && Extract(info, es) == Some(rs)
  }

  lemma FaithfulRecords(info: Info, m: Partition, cs: set<Contribution>, st: Collected, k: string)
    requires Faithful(info, m, cs, st) && k in st.keys
    ensures k in st.records && st.records[k].generationId == k
    ensures RecordIsBearing(st.records[k]) && SumsUp(info, Group(info.cid, m, cs, k), k, st.records[k])
  {
    hide SumsUp, RecordIsBearing, UsageIsBearing;
    assert k in ToSet(st.keys);
    SummaryIsBearing(info, Group(info.cid, m, cs, k), k, st.records[k]);
    IdOfSummary(info, Group(info.cid, m, cs, k), k, st.records[k]);
  }

  /** The records of a faithful collection, in order of first appearance. */
  lemma RecordsOfFaithful(info: Info, m: Partition, cs: set<Contribution>, st: Collected)
    requires Faithful(info, m, cs, st)
    ensures OnePerGeneration(info, m, cs, BearingRecords(st, st.keys))
  {
    hide SumsUp, RecordIsBearing, UsageIsBearing, Group, Keys;
    forall k | k in st.keys
      ensures k in st.records && st.records[k].generationId == k
      ensures RecordIsBearing(st.records[k]) && SumsUp(info, Group(info.cid, m, cs, k), k, st.records[k])
    {
      FaithfulRecords(info, m, cs, st, k);
    }
    FilterKeepsAll(st, st.keys);
    IdsOfListed(BearingRecords(st, st.keys), st.keys);
    hide BearingRecords;
  }

  lemma IdsOfListed(rs: seq<Record>, keys: seq<string>)
    requires |rs| == |keys| && forall i :: 0 <= i < |rs| ==> rs[i].generationId == keys[i]
    ensures GenerationIds(rs) == ToSet(keys)
  {
    forall k | k in keys
      ensures k in GenerationIds(rs)
    {
      var i :| 0 <= i < |keys| && keys[i] == k;
      assert rs[i] in rs;
    }
  }

  ghost function GenerationIds(rs: seq<Record>): set<string> { set r | r in rs :: r.generationId }

  /** Distinct generation IDs, one for every key of a token-bearing usage, each
      record token-bearing and summing up its group. */
  ghost predicate OnePerGeneration(info: Info, m: Partition, cs: set<Contribution>, rs: seq<Record>) {
    && (forall i, j :: 0 <= i < j < |rs| ==> rs[i].generationId != rs[j].generationId)
    && GenerationIds(rs) == Keys(info.cid, m, cs)
    && forall r :: r in rs ==>
      RecordIsBearing(r) && SumsUp(info, Group(info.cid, m, cs, r.generationId), r.generationId, r)
  }

  /** Exactly one record per generation with token-bearing usages, each summing up
      all of them; the final filter drops none. */
  lemma OneRecordPerGeneration(info: Info, es: seq<Event>, m: Partition, rs: seq<Record>)
    requires ReadFrom(info, es, m, rs)
    ensures OnePerGeneration(info, m, ToSet(Contributions(es)), rs)
  {
    var cs := Contributions(es);
    var st := UpsertAll(info, m, NOTHING, cs);
    assert rs == BearingRecords(st, st.keys);
    hide Contributions, OnePerGeneration, UpsertAll, BearingRecords, Extract, Linked;
    NothingIsFaithful(info, m);
    UpsertAllIsFaithful(info, m, {}, NOTHING, cs);
    assert {} + ToSet(cs) == ToSet(cs);
    RecordsOfFaithful(info, m, ToSet(cs), st);
  }

  lemma NothingIsFaithful(info: Info, m: Partition)
    ensures Faithful(info, m, {}, NOTHING)
  {}

  lemma IdOfSummary(info: Info, g: set<Contribution>, k: string, r: Record)
    requires SumsUp(info, g, k, r)
    ensures r.generationId == k && r.conversationId == info.cid && Normalize(r) == r
  {}

  /** The totals are the documented sums of maxima exactly when those fit in 64 bits. */
  lemma TotalsAreExactUnlessWrapping(info: Info, g: set<Contribution>, k: string, r: Record)
    requires SumsUp(info, g, k, r)
    ensures r.totalOutputTokens == OutputOf(g) && r.totalTokens == TotalOf(g) <==> TotalOf(g) < TWO_64
    ensures r.totalTokens == (r.inputTokens + r.cacheReadTokens + r.totalOutputTokens) % TWO_64
  {
    assert Value(r, Input) == Largest(g, Input) && Value(r, CacheRead) == Largest(g, CacheRead);
    assert Value(r, Visible) == Largest(g, Visible) && Value(r, Reasoning) == Largest(g, Reasoning);
    AddThree(r.inputTokens, r.cacheReadTokens, r.totalOutputTokens);
    OutputIsExact(r);
    hide Largest, Add64, IsEarliest;
  }

  /** Two readings of the same usages, in any order and with any repetitions, give
      the same generations, timestamps and component maxima, and the same totals
      when those fit in 64 bits. */
  lemma ReadingIgnoresOrder(info: Info, es: seq<Event>, m: Partition, rs: seq<Record>,
                            fs: seq<Event>, n: Partition, ss: seq<Record>, r: Record)
    requires ReadFrom(info, es, m, rs) && ReadFrom(info, fs, n, ss)
    requires ToSet(Contributions(es)) == ToSet(Contributions(fs))
    requires r in rs
    ensures exists s :: s in ss && SameUsage(info, Group(info.cid, m, ToSet(Contributions(es)), r.generationId), r, s)
  {
    OneRecordPerGeneration(info, es, m, rs);
    OneRecordPerGeneration(info, fs, n, ss);
    SameMembers(Contributions(es), Contributions(fs));
    forall id { RootsIgnoreOrder(m, Usages(Contributions(es)), n, Usages(Contributions(fs)), id); }
    hide *;
    MatchingRecord(info, m, n, ToSet(Contributions(es)), rs, ss, r);
  }

  lemma MatchingRecord(info: Info, m: Partition, n: Partition,
                       cs: set<Contribution>, rs: seq<Record>, ss: seq<Record>, r: Record)
    requires OnePerGeneration(info, m, cs, rs) && OnePerGeneration(info, n, cs, ss) && r in rs
    requires forall id :: Find(m, id) == Find(n, id)
    ensures exists s :: s in ss && SameUsage(info, Group(info.cid, m, cs, r.generationId), r, s)
  {
    hide Key, SumsUp, RecordIsBearing, UsageIsBearing, Find, SameUsage;
    forall c { SameKey(info.cid, m, n, c); }
    assert Keys(info.cid, m, cs) == Keys(info.cid, n, cs);
    assert r.generationId in GenerationIds(rs);
    assert r.generationId in GenerationIds(ss);
    var s :| s in ss && s.generationId == r.generationId;
    assert Group(info.cid, m, cs, r.generationId) == Group(info.cid, n, cs, r.generationId);
    SummariesAgree(info, Group(info.cid, m, cs, r.generationId), r, s);
  }

  ghost predicate SameUsage(info: Info, g: set<Contribution>, r: Record, s: Record) {
    && r.generationId == s.generationId && r.timestamp == s.timestamp
    && (forall w :: w != TotalOutput ==> Value(r, w) == Value(s, w))
    && (g != {} && TotalOf(g) < TWO_64 ==> r.totalOutputTokens == s.totalOutputTokens && r.totalTokens == s.totalTokens)
  }

  lemma SummariesAgree(info: Info, g: set<Contribution>, r: Record, s: Record)
    requires r.generationId == s.generationId
    requires SumsUp(info, g, r.generationId, r) && SumsUp(info, g, r.generationId, s)
    ensures SameUsage(info, g, r, s)
  {
    EarliestIsUnique(g, info.base, r.timestamp, s.timestamp);
    TotalsAreExactUnlessWrapping(info, g, r.generationId, r);
    TotalsAreExactUnlessWrapping(info, g, r.generationId, s);
    hide Normalize, IsEarliest, OutputOf, TotalOf;
  }

  lemma SameKey(cid: string, m: Partition, n: Partition, c: Contribution)
    requires forall id :: Find(m, id) == Find(n, id)
    ensures Key(cid, m, c) == Key(cid, n, c)
  {}

  lemma {:induction false} UsagesMembers(cs: seq<Contribution>, u: Usage)
    ensures u in Usages(cs) <==> exists c :: c in cs && c.usage == u
  {
    if cs != [] {
      UsagesMembers(cs[1..], u);
      assert cs == [cs[0]] + cs[1..];
    }
  }

  lemma SameMembers(a: seq<Contribution>, b: seq<Contribution>)
    requires ToSet(a) == ToSet(b)
    ensures Members(Usages(a)) == Members(Usages(b))
  {
    assert forall c :: c in a <==> c in ToSet(a);
    assert forall c :: c in b <==> c in ToSet(b);
    forall u
      ensures u in Usages(a) <==> u in Usages(b)
    {
      UsagesMembers(a, u);
      UsagesMembers(b, u);
    }
  }
}
