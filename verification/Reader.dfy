/** Deduplication of usage events into one record per generation. */
module Reader {
  import opened Common
  import opened Wire
  import opened Aliases
  import opened AliasTables

  // ---------- Events and records ----------

  /** A decoded row of the steps or gen_metadata table. */
  datatype Event = Event(index: int, timestamp: Option<int>, usage: Option<Usage>, retries: seq<Usage>)

  /** What is fixed for a whole conversation. `base` is the fallback timestamp. */
  datatype Info = Info(cid: string, base: Option<int>, workspace: string, project: string)

  datatype Record = Record(
    conversationId: string,
    generationId: string,
    stepIndex: int,
    timestamp: Option<int>,
    workspace: string,
    project: string,
    inputTokens: u64,
    cacheReadTokens: u64,
    cacheCreationTokens: u64,
    visibleOutputTokens: u64,
    reasoningTokens: u64,
    totalOutputTokens: u64,
    totalTokens: u64)

  /** One usage as upsert sees it. */
  datatype Contribution = Contribution(usage: Usage, index: int, timestamp: Option<int>)

  predicate UsageIsBearing(u: Usage) {
    || u.inputTokens > 0 || u.totalOutputTokens > 0 || u.cacheCreationTokens > 0
    || u.cacheReadTokens > 0 || u.reasoningTokens > 0 || u.visibleOutputTokens > 0
  }

  predicate RecordIsBearing(r: Record) {
    || r.inputTokens > 0 || r.totalOutputTokens > 0 || r.cacheReadTokens > 0
    || r.cacheCreationTokens > 0 || r.reasoningTokens > 0 || r.visibleOutputTokens > 0
  }

  function MaxU64(a: u64, b: u64): u64 { if b > a then b else a }

  /** UsageRecord.Normalize, in uint64 arithmetic. */
  function Normalize(r: Record): Record {
    var out := MaxU64(r.totalOutputTokens, Add64(r.visibleOutputTokens, r.reasoningTokens));
    r.(totalOutputTokens := out, totalTokens := Add64(Add64(r.inputTokens, r.cacheReadTokens), out))
  }

  /** The record's sums are the sums over the integers. */
  predicate SumsHold(r: Record) {
    && r.totalOutputTokens >= r.visibleOutputTokens + r.reasoningTokens
    && r.totalTokens == r.inputTokens + r.cacheReadTokens + r.totalOutputTokens
  }

  /** The counters stay within 64 bits when added. */
  predicate FitsIn64(r: Record) {
    r.inputTokens + r.cacheReadTokens + Max(r.totalOutputTokens, r.visibleOutputTokens + r.reasoningTokens) < TWO_64
  }

  /** Normalizing meets the documented sums exactly when nothing wraps. */
  lemma NormalizeIsExact(r: Record)
    ensures SumsHold(Normalize(r)) <==> FitsIn64(r)
    ensures FitsIn64(Normalize(r)) <==> FitsIn64(r)
    ensures Normalize(Normalize(r)) == Normalize(r)
  {
    var out := Normalize(r).totalOutputTokens;
    AddThree(r.inputTokens, r.cacheReadTokens, out);
    hide Add64;
    OutputIsExact(r);
  }

  lemma AddThree(a: u64, b: u64, c: u64)
    ensures Add64(Add64(a, b), c) == (a + b + c) % TWO_64
    ensures Add64(Add64(a, b), c) == a + b + c <==> a + b + c < TWO_64
  {}

  lemma OutputIsExact(r: Record)
    ensures Normalize(r).totalOutputTokens >= r.visibleOutputTokens + r.reasoningTokens
            <==> r.visibleOutputTokens + r.reasoningTokens < TWO_64
    ensures r.visibleOutputTokens + r.reasoningTokens < TWO_64 ==>
            Normalize(r).totalOutputTokens == Max(r.totalOutputTokens, r.visibleOutputTokens + r.reasoningTokens)
    ensures r.totalOutputTokens <= Normalize(r).totalOutputTokens
    ensures Normalize(Normalize(r)) == Normalize(r)
  {}

  // ---------- The functional reading ----------

  function RetryContributions(e: Event): seq<Contribution> {
    seq(|e.retries|, i requires 0 <= i < |e.retries| => Contribution(e.retries[i], e.index, e.timestamp))
  }

  function EventContributions(e: Event): seq<Contribution> {
    (if e.usage.Some? then [Contribution(e.usage.value, e.index, e.timestamp)] else []) + RetryContributions(e)
  }

  function Contributions(es: seq<Event>): seq<Contribution> {
    if es == [] then [] else EventContributions(es[0]) + Contributions(es[1..])
  }

  function Usages(cs: seq<Contribution>): seq<Usage> {
    if cs == [] then [] else [cs[0].usage] + Usages(cs[1..])
  }

  /** The generation a usage counts for: its root alias, or its step when it has none. */
  function Key(cid: string, m: Partition, c: Contribution): string {
    var id := PrimaryIdentity(c.usage);
    if id == "" then "step:" + cid + ":" + Decimal64(c.index) else Find(m, id)
  }

  function Stamp(base: Option<int>, c: Contribution): Option<int> {
    if c.timestamp.None? then base else c.timestamp
  }

  function NewRecord(info: Info, m: Partition, c: Contribution): Record {
    var u := c.usage;
    Normalize(Record(info.cid, Key(info.cid, m, c), c.index, Stamp(info.base, c), info.workspace, info.project,
                     u.inputTokens, u.cacheReadTokens, u.cacheCreationTokens, u.visibleOutputTokens,
                     u.reasoningTokens, u.totalOutputTokens, 0))
  }

  function EarlierStamp(existing: Option<int>, ts: Option<int>): Option<int> {
    if existing.None? || (ts.Some? && ts.value < existing.value) then ts else existing
  }

  function MergeInto(info: Info, r: Record, c: Contribution): Record {
    var u := c.usage;
    Normalize(r.(
      inputTokens := MaxU64(r.inputTokens, u.inputTokens),
      cacheReadTokens := MaxU64(r.cacheReadTokens, u.cacheReadTokens),
      cacheCreationTokens := MaxU64(r.cacheCreationTokens, u.cacheCreationTokens),
      visibleOutputTokens := MaxU64(r.visibleOutputTokens, u.visibleOutputTokens),
      reasoningTokens := MaxU64(r.reasoningTokens, u.reasoningTokens),
      totalOutputTokens := MaxU64(r.totalOutputTokens, u.totalOutputTokens),
      timestamp := EarlierStamp(r.timestamp, Stamp(info.base, c))))
  }

  /** recordMap and orderedKeys. */
  datatype Collected = Collected(records: map<string, Record>, keys: seq<string>)

  function UpsertOne(info: Info, m: Partition, st: Collected, c: Contribution): Collected {
    if !UsageIsBearing(c.usage) then st else
      var k := Key(info.cid, m, c);
      if k in st.records then st.(records := st.records[k := MergeInto(info, st.records[k], c)])
      else Collected(st.records[k := NewRecord(info, m, c)], st.keys + [k])
  }

  function UpsertAll(info: Info, m: Partition, st: Collected, cs: seq<Contribution>): Collected
    decreases |cs|
  {
    if cs == [] then st else UpsertAll(info, m, UpsertOne(info, m, st, cs[0]), cs[1..])
  }

  function BearingRecords(st: Collected, keys: seq<string>): seq<Record> {
    if keys == [] then [] else
      var rest := BearingRecords(st, keys[..|keys| - 1]);
      var k := keys[|keys| - 1];
      if k in st.records && RecordIsBearing(st.records[k]) then rest + [st.records[k]] else rest
  }

  const NOTHING := Collected(map[], [])

  /** The records of a conversation; None is the ambiguous-alias error. */
  function Extract(info: Info, es: seq<Event>): Option<seq<Record>> {
    var cs := Contributions(es);
    var m := LinkAll(map[], Usages(cs));
    if m.None? then None else
      var st := UpsertAll(info, m.value, NOTHING, cs);
      Some(BearingRecords(st, st.keys))
  }

  // ---------- The imperative reader ----------

  lemma {:induction false} UsagesConcat(a: seq<Contribution>, b: seq<Contribution>)
    ensures Usages(a + b) == Usages(a) + Usages(b)
  {
    if a == [] {
      assert a + b == b;
    } else {
      assert (a + b)[1..] == a[1..] + b;
      UsagesConcat(a[1..], b);
    }
  }

  lemma {:induction false} UsagesOfRetries(e: Event, cs: seq<Contribution>, j: nat)
    requires j <= |e.retries| && cs == RetryContributions(e)[j..]
    ensures Usages(cs) == e.retries[j..]
    decreases |e.retries| - j
  {
    if j < |e.retries| {
      UsagesOfRetries(e, cs[1..], j + 1);
      assert e.retries[j..] == [e.retries[j]] + e.retries[j + 1..];
    }
  }

  lemma UsagesCons(c: Contribution, cs: seq<Contribution>)
    ensures Usages([c] + cs) == [c.usage] + Usages(cs)
  {
    assert ([c] + cs)[1..] == cs;
  }

  lemma EventUsages(es: seq<Event>)
    requires es != []
    ensures Usages(Contributions(es)) ==
            (if es[0].usage.Some? then [es[0].usage.value] else []) + (es[0].retries + Usages(Contributions(es[1..])))
  {
    hide Usages;
    var e, rest := es[0], Contributions(es[1..]);
    ContributionsStep(es);
    hide Contributions;
    UsagesConcat(RetryContributions(e), rest);
    UsagesOfRetries(e, RetryContributions(e), 0);
    assert RetryContributions(e)[0..] == RetryContributions(e) && e.retries[0..] == e.retries;
    if e.usage.Some? {
      UsagesCons(Contribution(e.usage.value, e.index, e.timestamp), RetryContributions(e) + rest);
    } else {
      assert [] + (e.retries + Usages(rest)) == e.retries + Usages(rest);
    }
  }

  lemma ContributionsStep(es: seq<Event>)
    requires es != []
    ensures Contributions(es) ==
            if es[0].usage.Some?
            then [Contribution(es[0].usage.value, es[0].index, es[0].timestamp)]
              + (RetryContributions(es[0]) + Contributions(es[1..]))
            else RetryContributions(es[0]) + Contributions(es[1..])
  {}

  lemma {:induction false} ContributionsConcat(a: seq<Event>, b: seq<Event>)
    ensures Contributions(a + b) == Contributions(a) + Contributions(b)
  {
    if a == [] {
      assert a + b == b;
    } else {
      assert (a + b)[1..] == a[1..] + b;
      ContributionsConcat(a[1..], b);
    }
  }

  lemma UpsertAllStep(info: Info, m: Partition, st: Collected, c: Contribution, cs: seq<Contribution>)
    ensures UpsertAll(info, m, st, [c] + cs) == UpsertAll(info, m, UpsertOne(info, m, st, c), cs)
  {
    assert ([c] + cs)[1..] == cs;
  }

  lemma UpsertNothing(info: Info, m: Partition, st: Collected)
    ensures UpsertAll(info, m, st, Contributions([])) == st
  {}

  lemma {:induction false} UpsertAllConcat(info: Info, m: Partition, st: Collected,
                                           a: seq<Contribution>, b: seq<Contribution>)
    ensures UpsertAll(info, m, st, a + b) == UpsertAll(info, m, UpsertAll(info, m, st, a), b)
    decreases |a|
  {
    hide UpsertOne;
    if a == [] {
      assert a + b == b;
    } else {
      assert (a + b)[1..] == a[1..] + b;
      UpsertAllConcat(info, m, UpsertOne(info, m, st, a[0]), a[1..], b);
    }
  }

  lemma NoUsages()
    ensures Usages(Contributions([])) == []
  {}

  /** The merge branch of upsert. */
  method TakeMaxima(existing: Record, u: Usage, ts: Option<int>) returns (r: Record)
    ensures r == Normalize(existing.(
      inputTokens := MaxU64(existing.inputTokens, u.inputTokens),
      cacheReadTokens := MaxU64(existing.cacheReadTokens, u.cacheReadTokens),
      cacheCreationTokens := MaxU64(existing.cacheCreationTokens, u.cacheCreationTokens),
      visibleOutputTokens := MaxU64(existing.visibleOutputTokens, u.visibleOutputTokens),
      reasoningTokens := MaxU64(existing.reasoningTokens, u.reasoningTokens),
      totalOutputTokens := MaxU64(existing.totalOutputTokens, u.totalOutputTokens),
      timestamp := EarlierStamp(existing.timestamp, ts)))
  {
    hide Normalize;
    r := existing;
    if u.inputTokens > r.inputTokens { r := r.(inputTokens := u.inputTokens); }
    if u.cacheReadTokens > r.cacheReadTokens { r := r.(cacheReadTokens := u.cacheReadTokens); }
    if u.cacheCreationTokens > r.cacheCreationTokens { r := r.(cacheCreationTokens := u.cacheCreationTokens); }
    if u.visibleOutputTokens > r.visibleOutputTokens { r := r.(visibleOutputTokens := u.visibleOutputTokens); }
    if u.reasoningTokens > r.reasoningTokens { r := r.(reasoningTokens := u.reasoningTokens); }
    if u.totalOutputTokens > r.totalOutputTokens { r := r.(totalOutputTokens := u.totalOutputTokens); }
    if r.timestamp.None? || (ts.Some? && ts.value < r.timestamp.value) {
      r := r.(timestamp := ts);
    }
    r := Normalize(r);
  }

  class Collector {
    const info: Info
    const aliases: AliasTable
    var recordMap: map<string, Record>
    var orderedKeys: seq<string>

    ghost predicate Valid()
      reads this, aliases
    {
      aliases.Valid() && (forall k :: k in orderedKeys ==> k in recordMap)
    }

    ghost function State(): Collected
      reads this
    {
      Collected(recordMap, orderedKeys)
    }

    constructor (info: Info)
      ensures Valid() && fresh(this) && fresh(aliases)
      ensures this.info == info && State() == NOTHING && aliases.model == map[]
    {
      this.info := info;
      aliases := new AliasTable();
      recordMap, orderedKeys := map[], [];
    }

    /** Links every usage of a table, stopping at the first ambiguity. */
    method LinkEvents(es: seq<Event>) returns (ok: bool)
      requires Valid()
      modifies aliases
      ensures Valid()
      ensures LinkAll(old(aliases.model), Usages(Contributions(es))) == if ok then Some(aliases.model) else None
    {
      hide LinkUsage, LinkAll, Represents, Usages, Contributions;
      ghost var all := LinkAll(aliases.model, Usages(Contributions(es)));
      assert es[0..] == es;
      for i := 0 to |es|
        invariant Valid() && all == LinkAll(aliases.model, Usages(Contributions(es[i..])))
      {
        var ev := es[i];
        ghost var m, later := aliases.model, Usages(Contributions(es[i + 1..]));
        EventUsages(es[i..]);
        assert es[i..][1..] == es[i + 1..] && [] + (ev.retries + later) == ev.retries + later;
        if ev.usage.Some? { LinkAllStep(m, ev.usage.value, ev.retries + later); }
        var linked := aliases.Link(ev.usage);
        if !linked { return false; }
        assert ev.retries[0..] == ev.retries;
        for j := 0 to |ev.retries|
          invariant Valid() && all == LinkAll(aliases.model, ev.retries[j..] + later)
        {
          assert ev.retries[j..] + later == [ev.retries[j]] + (ev.retries[j + 1..] + later);
          LinkAllStep(aliases.model, ev.retries[j], ev.retries[j + 1..] + later);
          linked := aliases.Link(Some(ev.retries[j]));
          if !linked { return false; }
        }
        assert ev.retries[|ev.retries|..] + later == later;
      }
      assert es[|es|..] == [];
      NoUsages();
      LinkNothing(aliases.model);
      ok := true;
    }

    /** upsert: a new record for an unseen generation, otherwise the larger of every counter. */
    method Upsert(u: Usage, index: int, timestamp: Option<int>)
      requires Valid()
      modifies this, aliases
      ensures Valid() && aliases.model == old(aliases.model)
      ensures State() == UpsertOne(info, aliases.model, old(State()), Contribution(u, index, timestamp))
    {
      if !UsageIsBearing(u) { return; }
      hide Normalize, PrimaryIdentity, Find, Represents, Decimal64, UsageIsBearing, MaxU64, EarlierStamp;
      var id := PrimaryIdentity(u);
      if id != "" {
        RootIsNonEmpty(aliases.parents, aliases.model, id);
        id := aliases.Root(id);
      }
      if id == "" { id := "step:" + info.cid + ":" + Decimal64(index); }
      var ts := timestamp;
      if ts.None? { ts := info.base; }
      if id !in recordMap {
        var rec := Normalize(Record(info.cid, id, index, ts, info.workspace, info.project,
                                    u.inputTokens, u.cacheReadTokens, u.cacheCreationTokens, u.visibleOutputTokens,
                                    u.reasoningTokens, u.totalOutputTokens, 0));
        recordMap := recordMap[id := rec];
        orderedKeys := orderedKeys + [id];
        return;
      }
      var existing := recordMap[id];
      existing := TakeMaxima(existing, u, ts);
      recordMap := recordMap[id := existing];
    }

    /** Upserts every usage of a table in row order, each row's retries after its usage. */
    method UpsertEvents(es: seq<Event>)
      requires Valid()
      modifies this, aliases
      ensures Valid() && aliases.model == old(aliases.model)
      ensures State() == UpsertAll(info, aliases.model, old(State()), Contributions(es))
    {
      hide UpsertOne, UpsertAll, Represents, Contributions;
      ghost var m := aliases.model;
      ghost var all := UpsertAll(info, m, State(), Contributions(es));
      assert es[0..] == es;
      for i := 0 to |es|
        invariant Valid() && aliases.model == m && all == UpsertAll(info, m, State(), Contributions(es[i..]))
      {
        var ev := es[i];
        ghost var later, retries := Contributions(es[i + 1..]), RetryContributions(ev);
        ContributionsStep(es[i..]);
        assert es[i..][1..] == es[i + 1..];
        if ev.usage.Some? {
          UpsertAllStep(info, m, State(), Contribution(ev.usage.value, ev.index, ev.timestamp), retries + later);
          Upsert(ev.usage.value, ev.index, ev.timestamp);
        }
        assert retries[0..] == retries;
        for j := 0 to |ev.retries|
          invariant Valid() && aliases.model == m && all == UpsertAll(info, m, State(), retries[j..] + later)
        {
          assert retries[j..] + later == [retries[j]] + (retries[j + 1..] + later);
          UpsertAllStep(info, m, State(), retries[j], retries[j + 1..] + later);
          Upsert(ev.retries[j], ev.index, ev.timestamp);
        }
        assert retries[|ev.retries|..] + later == later;
      }
      assert es[|es|..] == [];
      UpsertNothing(info, m, State());
    }

    /** The final filter over orderedKeys. */
    method Records() returns (rs: seq<Record>)
      requires Valid()
      ensures rs == BearingRecords(State(), orderedKeys)
    {
      rs := [];
      for i := 0 to |orderedKeys|
        invariant rs == BearingRecords(State(), orderedKeys[..i])
      {
        assert orderedKeys[..i + 1][..i] == orderedKeys[..i];
        var r := recordMap[orderedKeys[i]];
        if RecordIsBearing(r) { rs := rs + [r]; }
      }
      assert orderedKeys[..|orderedKeys|] == orderedKeys;
    }
  }

  /** ReadConversation from the decoded rows on: all links first, then the steps
      table, then gen_metadata. */
  method ReadConversation(info: Info, steps: seq<Event>, gens: seq<Event>) returns (r: Option<seq<Record>>)
    ensures r == Extract(info, steps + gens)
  {
    hide LinkAll, UpsertAll, Usages, Contributions;
    var c := new Collector(info);
    ContributionsConcat(steps, gens);
    UsagesConcat(Contributions(steps), Contributions(gens));
    LinkAllConcat(map[], Usages(Contributions(steps)), Usages(Contributions(gens)));
    var linked := c.LinkEvents(steps);
    if !linked { return None; }
    linked := c.LinkEvents(gens);
    if !linked { return None; }
    UpsertAllConcat(info, c.aliases.model, NOTHING, Contributions(steps), Contributions(gens));
    c.UpsertEvents(steps);
    c.UpsertEvents(gens);
    var rs := c.Records();
    r := Some(rs);
  }
}
