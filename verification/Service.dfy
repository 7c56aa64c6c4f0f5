/** Incremental ingestion, and why skipping an unchanged conversation loses nothing. */
module Service {
  import opened Common
  import opened Wire
  import opened Aliases
  import opened Reader
  import opened UsageLedger
  import opened LedgerRuns

  // ---------- Sources ----------

  /** The readable content of a conversation database. */
  datatype Content = Undecodable | Decoded(base: Option<int>, events: seq<Event>, highestStep: int, highestGen: int)

  /** One database as Ingest meets it: the scan's own stat and WAL check, then what
      reading it sees before, during and after. `readFails` is a read that fails although the
      content is readable; the last flags are database errors. */
  datatype Source = Source(
    cid: string, path: string,
    statOk: bool, size: int, mtime: int, activeWal: bool,
    content: Content, readFails: bool,
    sizeBefore: int, mtimeBefore: int, sizeAfter: int, mtimeAfter: int, walAfter: bool,
    txFails: bool, noteFails: bool, message: string)

  predicate ReadIsComplete(s: Source) {
    s.sizeAfter == s.sizeBefore && s.mtimeAfter == s.mtimeBefore && !s.walAfter
  }

  function SnapshotOf(s: Source): Snapshot
    requires s.content.Decoded?
  {
    Snapshot(s.path, s.sizeAfter, s.mtimeAfter, s.content.highestStep, s.content.highestGen, ReadIsComplete(s))
  }

  function InfoOf(s: Source, catalog: map<string, ConversationMeta>): Info
    requires s.content.Decoded?
  {
    if s.cid in catalog then Info(s.cid, s.content.base, catalog[s.cid].workspace, ProjectOf(catalog[s.cid]))
    else Info(s.cid, s.content.base, "", "unknown")
  }

  /** The cheap incremental skip check. */
  predicate UpToDate(manifests: map<string, Manifest>, s: Source) {
    && s.cid in manifests
    && var m := manifests[s.cid];
       && m.source.isComplete && m.parserVersion == PARSER_VERSION && !s.activeWal
       && m.lastScanStatus != Failed && m.source.size == s.size && m.source.mtime == s.mtime
  }

  /** One turn of Ingest's loop. `seen` holds the manifests loaded before the loop. */
  ghost predicate Turn(t: Tables, force: bool,
                       seen: map<string, Manifest>, catalog: map<string, ConversationMeta>, s: Source, u: Tables) {
    if !s.statOk then IsNote(t, u, s.cid, s.path, s.message, s.noteFails)
    else if !force && UpToDate(seen, s) then u == t
    else if s.readFails || s.content.Undecodable? then IsNote(t, u, s.cid, s.path, s.message, s.noteFails)
    else Step(t, Ingest(InfoOf(s, catalog), SnapshotOf(s), s.content.events, s.txFails, s.message, s.noteFails), u)
  }

  ghost predicate Scan(states: seq<Tables>, force: bool, catalog: map<string, ConversationMeta>, ss: seq<Source>) {
    && |states| == |ss| + 1
    && forall i :: 0 <= i < |ss| ==> Turn(states[i], force, states[0].manifests, catalog, ss[i], states[i + 1])
  }

  // ---------- Ingest ----------

  /** Reading this database ends in a commit. */
  ghost predicate Commits(t: Tables, catalog: map<string, ConversationMeta>, s: Source) {
    && s.statOk && !s.readFails && s.content.Decoded? && !s.txFails
    && var rs := Extract(InfoOf(s, catalog), s.content.events);
       rs.Some? && Committable(t, s.cid, rs.value)
  }

  predicate Skips(force: bool, seen: map<string, Manifest>, s: Source) { s.statOk && !force && UpToDate(seen, s) }

  datatype Stats = Stats(discovered: nat, upToDate: nat, ingested: nat, completed: nat, active: nat, failed: nat)

  method IngestOne(ledger: Ledger, s: Source, catalog: map<string, ConversationMeta>, stats: Stats)
    returns (next: Stats)
    requires s.statOk
    modifies ledger
    ensures Turn(old(ledger.State()), true, map[], catalog, s, ledger.State())
    ensures next.discovered == stats.discovered && next.upToDate == stats.upToDate
    ensures var committed := Commits(old(ledger.State()), catalog, s);
            && next.ingested == stats.ingested + (if committed then 1 else 0)
            && next.failed == stats.failed + (if committed then 0 else 1)
            && next.completed == stats.completed + (if committed && ReadIsComplete(s) then 1 else 0)
            && next.active == stats.active + (if committed && !ReadIsComplete(s) then 1 else 0)
  {
    hide Extract, IsCommit, Committable, NoteFailure;
    next := stats;
    if s.readFails || s.content.Undecodable? {
      next := next.(failed := next.failed + 1);
      ledger.RecordScanFailure(s.cid, s.path, s.message, s.noteFails);
      return;
    }
    var rs := ReadConversation(InfoOf(s, catalog), s.content.events, []);
    assert s.content.events + [] == s.content.events;
    if rs.None? {
      next := next.(failed := next.failed + 1);
      ledger.RecordScanFailure(s.cid, s.path, s.message, s.noteFails);
      return;
    }
    var src := SnapshotOf(s);
    var committed := ledger.CommitIngest(s.cid, src, StatusOf(src), rs.value, s.txFails);
    if !committed {
      next := next.(failed := next.failed + 1);
      ledger.RecordScanFailure(s.cid, s.path, s.message, s.noteFails);
      return;
    }
    next := next.(ingested := next.ingested + 1);
    if src.isComplete {
      next := next.(completed := next.completed + 1);
    } else {
      next := next.(active := next.active + 1);
    }
  }

  /** The loop of Ingest: every database ends up skipped, ingested or failed. */
  method IngestAll(ledger: Ledger, force: bool, ss: seq<Source>, catalog: map<string, ConversationMeta>)
    returns (stats: Stats, ghost states: seq<Tables>)
    modifies ledger
    ensures Scan(states, force, catalog, ss) && states[0] == old(ledger.State()) && states[|ss|] == ledger.State()
    ensures stats.discovered == |ss| == stats.upToDate + stats.ingested + stats.failed
    ensures stats.ingested == stats.completed + stats.active
    ensures Tallies(stats, states, force, catalog, ss)
  {
    hide Step, IsNote, UpToDate, Commits, Tallies;
    var manifests := ledger.manifests;
    stats := Stats(|ss|, 0, 0, 0, 0, 0);
    states := [ledger.State()];
    NothingTallied(states, force, catalog, |ss|);
    for i := 0 to |ss|
      invariant stats.discovered == |ss| && i == stats.upToDate + stats.ingested + stats.failed
      invariant stats.ingested == stats.completed + stats.active
      invariant manifests == old(ledger.manifests) && Tallies(stats, states, force, catalog, ss[..i])
      invariant Scan(states, force, catalog, ss[..i]) && states[0] == old(ledger.State()) && states[i] == ledger.State()
    {
      var s := ss[i];
      assert ss[..i + 1] == ss[..i] + [s];
      ghost var before := stats;
      UnreadNeverCommits(ledger.State(), catalog, s);
      if !s.statOk {
        stats := stats.(failed := stats.failed + 1);
        ledger.RecordScanFailure(s.cid, s.path, s.message, s.noteFails);
        assert IsNote(states[i], ledger.State(), s.cid, s.path, s.message, s.noteFails) by {
          NoteIsNote(states[i], s.cid, s.path, s.message, s.noteFails);
        }
      } else if !force && UpToDate(manifests, s) {
        stats := stats.(upToDate := stats.upToDate + 1);
      } else {
        stats := IngestOne(ledger, s, catalog, stats);
      }
      TallyOneMore(before, stats, states, force, catalog, ss[..i], s, ledger.State());
      states := states + [ledger.State()];
    }
    assert ss[..|ss|] == ss;
  }

  /** The places of the databases that a scan skips, and of those it commits. */
  ghost function Skipped(states: seq<Tables>, force: bool, ss: seq<Source>): set<int>
    requires states != []
  {
    set i | 0 <= i < |ss| && Skips(force, states[0].manifests, ss[i])
  }

  ghost function Committed(states: seq<Tables>, force: bool, catalog: map<string, ConversationMeta>, ss: seq<Source>,
                           complete: bool): set<int>
    requires |states| > |ss|
  {
    set i | 0 <= i < |ss| && !Skips(force, states[0].manifests, ss[i]) && Commits(states[i], catalog, ss[i])
            && ReadIsComplete(ss[i]) == complete
  }

  /** The counters say how many databases the scan skipped, committed as complete and committed
      as active. */
  ghost predicate Tallies(stats: Stats, states: seq<Tables>, force: bool, catalog: map<string, ConversationMeta>,
                          ss: seq<Source>) {
    && |states| > |ss|
    && stats.upToDate == |Skipped(states, force, ss)|
    && stats.completed == |Committed(states, force, catalog, ss, true)|
    && stats.active == |Committed(states, force, catalog, ss, false)|
  }

  lemma NothingTallied(states: seq<Tables>, force: bool, catalog: map<string, ConversationMeta>, n: nat)
    requires states != []
    ensures Tallies(Stats(n, 0, 0, 0, 0, 0), states, force, catalog, [])
  {
    assert Skipped(states, force, []) == {};
    assert forall b :: Committed(states, force, catalog, [], b) == {};
  }

  lemma TallyOneMore(before: Stats, after: Stats, states: seq<Tables>, force: bool,
                     catalog: map<string, ConversationMeta>, ss: seq<Source>, s: Source, next: Tables)
    requires |states| == |ss| + 1 && Tallies(before, states, force, catalog, ss)
    requires var skips, commits := Skips(force, states[0].manifests, s), Commits(states[|ss|], catalog, s);
             && after.upToDate == before.upToDate + (if skips then 1 else 0)
             && after.completed == before.completed + (if !skips && commits && ReadIsComplete(s) then 1 else 0)
             && after.active == before.active + (if !skips && commits && !ReadIsComplete(s) then 1 else 0)
    ensures Tallies(after, states + [next], force, catalog, ss + [s])
  {
    SkippedOneMore(states, force, ss, s, next);
    CommittedOneMore(states, force, catalog, ss, s, next, true);
    CommittedOneMore(states, force, catalog, ss, s, next, false);
    hide Skips, Commits, ReadIsComplete, Skipped, Committed;
  }

  lemma SkippedOneMore(states: seq<Tables>, force: bool, ss: seq<Source>, s: Source, next: Tables)
    requires |states| == |ss| + 1
    ensures |Skipped(states + [next], force, ss + [s])| ==
            |Skipped(states, force, ss)| + if Skips(force, states[0].manifests, s) then 1 else 0
  {
    hide Skips;
    var n, more, all := |ss|, states + [next], ss + [s];
    assert all[n] == s && more[0] == states[0] && forall i :: 0 <= i < n ==> all[i] == ss[i];
    assert Skipped(more, force, all) ==
           Skipped(states, force, ss) + if Skips(force, states[0].manifests, s) then {n} else {};
  }

  lemma CommittedOneMore(states: seq<Tables>, force: bool, catalog: map<string, ConversationMeta>, ss: seq<Source>,
                         s: Source, next: Tables, complete: bool)
    requires |states| == |ss| + 1
    ensures |Committed(states + [next], force, catalog, ss + [s], complete)| ==
            |Committed(states, force, catalog, ss, complete)|
            + if !Skips(force, states[0].manifests, s) && Commits(states[|ss|], catalog, s)
                 && ReadIsComplete(s) == complete then 1 else 0
  {
    hide Skips, Commits, ReadIsComplete;
    var n, more, all := |ss|, states + [next], ss + [s];
    assert all[n] == s && forall i :: 0 <= i < n ==> all[i] == ss[i];
    assert forall i :: 0 <= i <= n ==> more[i] == states[i];
    assert Committed(more, force, catalog, all, complete) ==
           Committed(states, force, catalog, ss, complete) +
           if !Skips(force, states[0].manifests, s) && Commits(states[n], catalog, s) && ReadIsComplete(s) == complete
           then {n} else {};
  }

  lemma UnreadNeverCommits(t: Tables, catalog: map<string, ConversationMeta>, s: Source)
    ensures !s.statOk ==> !Commits(t, catalog, s)
  {}

  lemma NoteIsNote(t: Tables, cid: string, path: string, message: string, noteFails: bool)
    ensures IsNote(t, if noteFails then t else NoteFailure(t, cid, path, message), cid, path, message, noteFails)
  {}

  // ---------- Token data, apart from catalog labels ----------

  function Unlabel(r: Record): Record { r.(workspace := "", project := "") }

  function Unlabelled(rows: seq<Record>): seq<Record> { seq(|rows|, i requires 0 <= i < |rows| => Unlabel(rows[i])) }

  /** Everything stored for a conversation but its workspace and project. */
  function Tokens(t: Tables, cid: string): seq<Record> { Unlabelled(RowsOf(t.records, cid)) }

  ghost predicate SameTokens(t: Tables, u: Tables) {
    forall cid :: Tokens(t, cid) == Tokens(u, cid)
  }

  function PlainInfo(cid: string, base: Option<int>): Info { Info(cid, base, "", "") }

  ghost predicate SameButLabels(a: Collected, b: Collected) {
    && a.keys == b.keys && a.records.Keys == b.records.Keys
    && forall k :: k in a.records ==> Unlabel(a.records[k]) == b.records[k]
  }

  lemma UpsertIgnoresLabels(info: Info, m: Partition, a: Collected, b: Collected, c: Contribution)
    requires SameButLabels(a, b)
    ensures SameButLabels(UpsertOne(info, m, a, c), UpsertOne(PlainInfo(info.cid, info.base), m, b, c))
  {
    hide UsageIsBearing, Key, Add64, EarlierStamp, Stamp, MaxU64;
  }

  lemma {:induction false} UpsertAllIgnoresLabels(info: Info, m: Partition, a: Collected, b: Collected,
                                                  cs: seq<Contribution>)
    requires SameButLabels(a, b)
    ensures SameButLabels(UpsertAll(info, m, a, cs), UpsertAll(PlainInfo(info.cid, info.base), m, b, cs))
    decreases |cs|
  {
    hide UpsertOne, SameButLabels;
    if cs != [] {
      var plain := PlainInfo(info.cid, info.base);
      UpsertIgnoresLabels(info, m, a, b, cs[0]);
      UpsertAllIgnoresLabels(info, m, UpsertOne(info, m, a, cs[0]), UpsertOne(plain, m, b, cs[0]), cs[1..]);
    }
  }

  lemma {:induction false} BearingIgnoresLabels(a: Collected, b: Collected, keys: seq<string>)
    requires SameButLabels(a, b)
    ensures Unlabelled(BearingRecords(a, keys)) == BearingRecords(b, keys)
  {
    if keys != [] {
      BearingIgnoresLabels(a, b, keys[..|keys| - 1]);
    }
  }

  /** Catalog labels do not influence which records are read or what they count. */
  lemma ExtractIgnoresLabels(info: Info, es: seq<Event>)
    ensures var plain := Extract(PlainInfo(info.cid, info.base), es);
            var rs := Extract(info, es);
            rs.Some? == plain.Some? && (rs.Some? ==> Unlabelled(rs.value) == plain.value)
  {
    hide UpsertAll, BearingRecords, Contributions, Usages, LinkAll;
    var cs := Contributions(es);
    var m := LinkAll(map[], Usages(cs));
    if m.Some? {
      UpsertAllIgnoresLabels(info, m.value, NOTHING, NOTHING, cs);
      var a, b :=
        UpsertAll(info, m.value, NOTHING, cs), UpsertAll(PlainInfo(info.cid, info.base), m.value, NOTHING, cs);
      BearingIgnoresLabels(a, b, a.keys);
    }
  }

  // ---------- The incremental invariant ----------

  /** The content that a size and an mtime of a database stand for. */
  type ContentAt = (string, int, int) -> Content

  /** A read that finds size and mtime unchanged and no WAL sees what they stand for. */
  ghost predicate StableRead(stamp: ContentAt, s: Source) {
    s.content.Decoded? && ReadIsComplete(s) ==> s.content == stamp(s.cid, s.sizeAfter, s.mtimeAfter)
  }

  /** The premise on the file system. Beyond stable reads it speaks only of a conversation
      that the manifests seen by the scan allow to skip: what a read would find is what the
      size and mtime of the scan's stat stand for. Any other may change at any time. */
  ghost predicate Honest(stamp: ContentAt, seen: map<string, Manifest>, s: Source) {
    && StableRead(stamp, s)
    && (s.statOk && UpToDate(seen, s) ==> s.content == stamp(s.cid, s.size, s.mtime))
  }

  /** What a manifest that allows skipping promises: the stored tokens are those of
      the content its size and mtime stand for. */
  ghost predicate Current(t: Tables, stamp: ContentAt, cid: string)
    requires cid in t.manifests
  {
    var m := t.manifests[cid];
    var content := stamp(cid, m.source.size, m.source.mtime);
    && content.Decoded?
    && Extract(PlainInfo(cid, content.base), content.events) == Some(Tokens(t, cid))
  }

  ghost predicate Skippable(t: Tables, cid: string)
    requires cid in t.manifests
  {
    t.manifests[cid].source.isComplete && t.manifests[cid].parserVersion == PARSER_VERSION
  }

  ghost predicate Incremental(t: Tables, stamp: ContentAt) {
    LedgerOk(t) && forall cid :: cid in t.manifests && Skippable(t, cid) ==> Current(t, stamp, cid)
  }

  lemma NoteKeepsIncremental(t: Tables, u: Tables, stamp: ContentAt, s: Source)
    requires Incremental(t, stamp) && IsNote(t, u, s.cid, s.path, s.message, s.noteFails)
    ensures Incremental(u, stamp) && u.records == t.records
  {
    NoteKeepsLedgerOk(t, u, s.cid, s.path, s.message, s.noteFails);
    hide LedgerOk, Extract, RowsOf;
    forall cid | cid in u.manifests && Skippable(u, cid)
      ensures Current(u, stamp, cid)
    {
      assert cid in t.manifests && Skippable(t, cid);
      assert Current(t, stamp, cid);
    }
  }

  lemma CommitKeepsIncremental(t: Tables, u: Tables, stamp: ContentAt, s: Source,
                               catalog: map<string, ConversationMeta>, rs: seq<Record>)
    requires Incremental(t, stamp) && s.content.Decoded? && StableRead(stamp, s)
    requires Extract(InfoOf(s, catalog), s.content.events) == Some(rs) && Committable(t, s.cid, rs)
    requires IsCommit(t, u, s.cid, SnapshotOf(s), StatusOf(SnapshotOf(s)), rs)
    ensures Incremental(u, stamp)
    ensures forall k :: Tokens(u, k) == if k == s.cid then Unlabelled(rs) else Tokens(t, k)
  {
    var info := InfoOf(s, catalog);
    CommitKeepsLedgerOk(t, u, info, SnapshotOf(s), s.content.events, rs);
    ExtractIgnoresLabels(info, s.content.events);
    hide LedgerOk, Extract, RowsOf, Committable, Unlabel;
    forall cid | cid in u.manifests && Skippable(u, cid)
      ensures Current(u, stamp, cid)
    {
      if cid != s.cid {
        assert cid in t.manifests && Skippable(t, cid);
        assert Current(t, stamp, cid);
      }
    }
  }

  // ---------- One turn, incremental against forced ----------

  lemma IdsOfTokens(t: Tables, u: Tables, k: string, r: Record)
    requires Tokens(t, k) == Tokens(u, k) && r in RowsOf(t.records, k)
    ensures exists s :: s in RowsOf(u.records, k) && s.generationId == r.generationId
  {
    var i :| 0 <= i < |RowsOf(t.records, k)| && RowsOf(t.records, k)[i] == r;
    assert Tokens(t, k)[i] == Unlabel(r) && Tokens(u, k)[i] == Unlabel(RowsOf(u.records, k)[i]);
    assert RowsOf(u.records, k)[i] in RowsOf(u.records, k);
  }

  lemma {:induction false} WithoutMembers(rows: seq<Record>, cid: string, r: Record)
    ensures r in Without(rows, cid) <==> r in rows && r.conversationId != cid
    ensures r in RowsOf(rows, cid) <==> r in rows && r.conversationId == cid
  {
    if rows != [] {
      WithoutMembers(rows[..|rows| - 1], cid, r);
      assert rows == rows[..|rows| - 1] + [rows[|rows| - 1]];
    }
  }

  lemma ApartTransfers(t: Tables, u: Tables, cid: string, rs: seq<Record>, ss: seq<Record>)
    requires SameTokens(t, u) && Unlabelled(rs) == Unlabelled(ss)
    requires Apart(rs, Without(t.records, cid))
    ensures Apart(ss, Without(u.records, cid))
  {
    hide RowsOf, Without, Tokens;
    forall y, x | y in ss && x in Without(u.records, cid)
      ensures y.generationId != x.generationId
    {
      var i :| 0 <= i < |ss| && ss[i] == y;
      assert Unlabelled(rs)[i] == Unlabelled(ss)[i];
      WithoutMembers(u.records, cid, x);
      WithoutMembers(u.records, x.conversationId, x);
      assert Tokens(u, x.conversationId) == Tokens(t, x.conversationId);
      IdsOfTokens(u, t, x.conversationId, x);
      var z :| z in RowsOf(t.records, x.conversationId) && z.generationId == x.generationId;
      WithoutMembers(t.records, x.conversationId, z);
      WithoutMembers(t.records, cid, z);
      assert rs[i] in rs;
    }
  }

  /** Two ledgers with the same tokens accept the same reading. */
  lemma CommittableTransfers(t: Tables, u: Tables, info: Info, other: Info,
                             es: seq<Event>, rs: seq<Record>, ss: seq<Record>)
    requires SameTokens(t, u) && info.cid == other.cid && info.base == other.base
    requires Extract(info, es) == Some(rs) && Extract(other, es) == Some(ss)
    ensures Unlabelled(rs) == Unlabelled(ss)
    ensures Committable(t, info.cid, rs) ==> Committable(u, other.cid, ss)
  {
    ExtractIgnoresLabels(info, es);
    ExtractIgnoresLabels(other, es);
    ReaderRecordsAreStored(info, es, rs);
    ReaderRecordsAreStored(other, es, ss);
    hide Extract, Unlabelled, SameTokens, Insertable;
    if Committable(t, info.cid, rs) { ApartTransfers(t, u, info.cid, rs, ss); }
  }

  lemma SameTokensSymmetric(t: Tables, u: Tables)
    requires SameTokens(t, u)
    ensures SameTokens(u, t)
  {}

  lemma SameRecordsSameTokens(t: Tables, u: Tables)
    requires t.records == u.records
    ensures forall k :: Tokens(t, k) == Tokens(u, k)
  {}

  /** A conversation both ledgers read. */
  lemma ReadTurnAgrees(t: Tables, t': Tables, u: Tables, u': Tables, stamp: ContentAt, s: Source,
                       catalog: map<string, ConversationMeta>, other: map<string, ConversationMeta>)
    requires Incremental(t, stamp) && Incremental(u, stamp) && SameTokens(t, u) && StableRead(stamp, s)
    requires s.statOk && Turn(t, true, map[], catalog, s, t') && Turn(u, true, map[], other, s, u')
    ensures Incremental(t', stamp) && Incremental(u', stamp) && SameTokens(t', u')
  {
    hide Incremental, SameTokens, Extract, StableRead, IsCommit, IsNote, Committable, Tokens;
    if s.readFails || s.content.Undecodable? {
      BothNote(t, t', u, u', stamp, s);
      return;
    }
    var info, info' := InfoOf(s, catalog), InfoOf(s, other);
    ExtractIgnoresLabels(info, s.content.events);
    ExtractIgnoresLabels(info', s.content.events);
    var rs, ss := Extract(info, s.content.events), Extract(info', s.content.events);
    if rs.None? {
      BothNote(t, t', u, u', stamp, s);
      return;
    }
    CommittableTransfers(t, u, info, info', s.content.events, rs.value, ss.value);
    SameTokensSymmetric(t, u);
    CommittableTransfers(u, t, info', info, s.content.events, ss.value, rs.value);
    if !s.txFails && Committable(t, s.cid, rs.value) {
      CommitKeepsIncremental(t, t', stamp, s, catalog, rs.value);
      CommitKeepsIncremental(u, u', stamp, s, other, ss.value);
      TokensAfterCommits(t, t', u, u', s.cid, rs.value, ss.value);
    } else {
      BothNote(t, t', u, u', stamp, s);
    }
  }

  lemma TokensAfterCommits(t: Tables, t': Tables, u: Tables, u': Tables, cid: string, rs: seq<Record>, ss: seq<Record>)
    requires SameTokens(t, u) && Unlabelled(rs) == Unlabelled(ss)
    requires forall k :: Tokens(t', k) == if k == cid then Unlabelled(rs) else Tokens(t, k)
    requires forall k :: Tokens(u', k) == if k == cid then Unlabelled(ss) else Tokens(u, k)
    ensures SameTokens(t', u')
  {
    hide Tokens, Unlabelled;
  }

  lemma BothNote(t: Tables, t': Tables, u: Tables, u': Tables, stamp: ContentAt, s: Source)
    requires Incremental(t, stamp) && Incremental(u, stamp) && SameTokens(t, u)
    requires IsNote(t, t', s.cid, s.path, s.message, s.noteFails)
             && IsNote(u, u', s.cid, s.path, s.message, s.noteFails)
    ensures Incremental(t', stamp) && Incremental(u', stamp) && SameTokens(t', u')
  {
    NoteKeepsIncremental(t, t', stamp, s);
    NoteKeepsIncremental(u, u', stamp, s);
    SameRecordsSameTokens(t, t');
    SameRecordsSameTokens(u, u');
    hide Tokens, Incremental, IsNote;
  }

  /** A conversation the incremental scan skips: re-reading and recommitting it
      stores the same tokens, and nothing stands in the way of that commit. */
  lemma SkippedTurnAgrees(t: Tables, u: Tables, u': Tables, stamp: ContentAt, s: Source,
                          other: map<string, ConversationMeta>)
    requires Incremental(t, stamp) && Incremental(u, stamp) && SameTokens(t, u) && Honest(stamp, t.manifests, s)
    requires s.statOk && UpToDate(t.manifests, s) && Turn(u, true, map[], other, s, u')
    ensures Incremental(u', stamp) && SameTokens(t, u')
    ensures s.content.Decoded? && Extract(InfoOf(s, other), s.content.events).Some?
    ensures Committable(u, s.cid, Extract(InfoOf(s, other), s.content.events).value)
  {
    assert Skippable(t, s.cid) && Current(t, stamp, s.cid);
    var info := InfoOf(s, other);
    ExtractIgnoresLabels(info, s.content.events);
    var rs := Extract(info, s.content.events).value;
    assert Tokens(u, s.cid) == Tokens(t, s.cid) == Unlabelled(rs);
    hide Extract, Tokens, UpToDate, Current, Skippable, IsCommit;
    StoredIsCommittable(u, info, s.content.events, rs);
    if s.txFails || s.readFails {
      NoteKeepsIncremental(u, u', stamp, s);
      SameRecordsSameTokens(u, u');
    } else {
      CommitKeepsIncremental(u, u', stamp, s, other, rs);
    }
  }

  lemma StoredIdsAreOwn(rows: seq<Record>, cid: string, x: Record, z: Record)
    requires UniqueIds(rows) && x in Without(rows, cid) && z in RowsOf(rows, cid)
    ensures x.generationId != z.generationId
  {
    WithoutMembers(rows, cid, x);
    WithoutMembers(rows, cid, z);
    hide RowsOf, Without;
    var a :| 0 <= a < |rows| && rows[a] == x;
    var b :| 0 <= b < |rows| && rows[b] == z;
    assert a < b || b < a;
  }

  lemma StoredIsCommittable(u: Tables, info: Info, es: seq<Event>, rs: seq<Record>)
    requires LedgerOk(u) && Extract(info, es) == Some(rs) && Tokens(u, info.cid) == Unlabelled(rs)
    ensures Committable(u, info.cid, rs)
  {
    ReaderRecordsAreStored(info, es, rs);
    hide Extract, RowsOf, Without, Insertable, UniqueIds, Normalize, RecordIsBearing;
    forall r, x | r in rs && x in Without(u.records, info.cid)
      ensures r.generationId != x.generationId
    {
      var i :| 0 <= i < |rs| && rs[i] == r;
      var z := RowsOf(u.records, info.cid)[i];
      assert Tokens(u, info.cid)[i] == Unlabel(z) && Unlabelled(rs)[i] == Unlabel(r);
      StoredIdsAreOwn(u.records, info.cid, x, z);
    }
  }

  // ---------- Whole scans and histories ----------

  ghost predicate DistinctSources(ss: seq<Source>) {
    forall i, j :: 0 <= i < j < |ss| ==> ss[i].cid != ss[j].cid
  }

  ghost predicate AllHonest(stamp: ContentAt, seen: map<string, Manifest>, ss: seq<Source>) {
    forall i :: 0 <= i < |ss| ==> Honest(stamp, seen, ss[i])
  }

  lemma TurnTouchesOwnManifest(t: Tables, force: bool,
                               seen: map<string, Manifest>, catalog: map<string, ConversationMeta>, s: Source,
                                 u: Tables, k: string)
    requires Turn(t, force, seen, catalog, s, u) && k != s.cid
    ensures k in t.manifests <==> k in u.manifests
    ensures k in t.manifests ==> u.manifests[k] == t.manifests[k]
  {
    hide Extract, Committable, UpToDate;
  }

  lemma {:induction false} ManifestUntouched(states: seq<Tables>, force: bool,
                                             catalog: map<string, ConversationMeta>, ss: seq<Source>, i: nat)
    requires Scan(states, force, catalog, ss) && DistinctSources(ss) && i < |ss|
    ensures forall j :: 0 <= j <= i ==> SameManifest(states[0], states[j], ss[i].cid)
  {
    hide Turn;
    var j := 0;
    while j < i
      invariant 0 <= j <= i
      invariant forall l :: 0 <= l <= j ==> SameManifest(states[0], states[l], ss[i].cid)
    {
      assert Turn(states[j], force, states[0].manifests, catalog, ss[j], states[j + 1]);
      TurnTouchesOwnManifest(states[j], force, states[0].manifests, catalog, ss[j], states[j + 1], ss[i].cid);
      j := j + 1;
    }
  }

  ghost predicate SameManifest(t: Tables, u: Tables, k: string) {
    (k in t.manifests <==> k in u.manifests) && (k in t.manifests ==> u.manifests[k] == t.manifests[k])
  }

  lemma TurnAgrees(t: Tables, t': Tables, u: Tables, u': Tables, stamp: ContentAt, s: Source,
                   seen: map<string, Manifest>, any: map<string, Manifest>,
                   catalog: map<string, ConversationMeta>, other: map<string, ConversationMeta>)
    requires Incremental(t, stamp) && Incremental(u, stamp) && SameTokens(t, u) && Honest(stamp, seen, s)
    requires UpToDate(seen, s) <==> UpToDate(t.manifests, s)
    requires Turn(t, false, seen, catalog, s, t') && Turn(u, true, any, other, s, u')
    ensures Incremental(t', stamp) && Incremental(u', stamp) && SameTokens(t', u')
  {
    hide Incremental, SameTokens, UpToDate, StableRead, IsNote, Step;
    if !s.statOk {
      BothNote(t, t', u, u', stamp, s);
    } else if UpToDate(seen, s) {
      SkippedTurnAgrees(t, u, u', stamp, s, other);
    } else {
      ReadTurnAgrees(t, t', u, u', stamp, s, catalog, other);
    }
  }

  lemma {:induction false} ScansAgree(ts: seq<Tables>, us: seq<Tables>, stamp: ContentAt, ss: seq<Source>,
                                      catalog: map<string, ConversationMeta>, other: map<string, ConversationMeta>,
                                      i: nat)
    requires Scan(ts, false, catalog, ss) && Scan(us, true, other, ss)
    requires Incremental(ts[0], stamp) && Incremental(us[0], stamp) && SameTokens(ts[0], us[0])
    requires DistinctSources(ss) && AllHonest(stamp, ts[0].manifests, ss) && i <= |ss|
    ensures Incremental(ts[i], stamp) && Incremental(us[i], stamp) && SameTokens(ts[i], us[i])
  {
    hide Incremental, SameTokens, Turn, Honest, DistinctSources;
    if i > 0 {
      ScansAgree(ts, us, stamp, ss, catalog, other, i - 1);
      ManifestUntouched(ts, false, catalog, ss, i - 1);
      assert SameManifest(ts[0], ts[i - 1], ss[i - 1].cid);
      assert Honest(stamp, ts[0].manifests, ss[i - 1]);
      assert Turn(ts[i - 1], false, ts[0].manifests, catalog, ss[i - 1], ts[i]);
      assert Turn(us[i - 1], true, us[0].manifests, other, ss[i - 1], us[i]);
      TurnAgrees(ts[i - 1], ts[i], us[i - 1], us[i], stamp, ss[i - 1], ts[0].manifests, us[0].manifests, catalog,
        other);
    }
  }

  /** A catalog change, or none, followed by a scan. */
  datatype Round = Round(sync: Option<(map<string, ConversationMeta>, SyncState)>,
                         labels: map<string, ConversationMeta>, sources: seq<Source>)

  function Synced(t: Tables, r: Round): Tables {
    if r.sync.None? then t else SyncTables(t, r.sync.value.0, r.sync.value.1)
  }

  ghost predicate PlayRound(t: Tables, force: bool, r: Round, u: Tables) {
    exists states :: Scan(states, force, r.labels, r.sources) && states[0] == Synced(t, r) && states[|r.sources|] == u
  }

  ghost predicate History(ts: seq<Tables>, force: bool, rounds: seq<Round>) {
    && |ts| == |rounds| + 1 && ts[0] == EMPTY
    && forall i :: 0 <= i < |rounds| ==> PlayRound(ts[i], force, rounds[i], ts[i + 1])
  }

  /** Both histories see the same files; catalog contents may differ. */
  ghost predicate SameFiles(a: seq<Round>, b: seq<Round>) {
    |a| == |b| && forall i :: 0 <= i < |a| ==> a[i].sources == b[i].sources
  }

  /** The premise on every round of an incremental history. */
  ghost predicate GoodRounds(stamp: ContentAt, ts: seq<Tables>, rounds: seq<Round>)
    requires |ts| > |rounds|
  {
    forall i :: 0 <= i < |rounds| ==>
      DistinctSources(rounds[i].sources) && AllHonest(stamp, ts[i].manifests, rounds[i].sources)
  }

  lemma UnlabelRelabelled(rows: seq<Record>, catalog: map<string, ConversationMeta>)
    ensures Unlabelled(Relabel(rows, catalog)) == Unlabelled(rows)
  {}

  lemma SyncKeepsTokens(t: Tables, r: Round, stamp: ContentAt)
    requires Incremental(t, stamp)
    ensures Incremental(Synced(t, r), stamp)
    ensures forall k :: Tokens(Synced(t, r), k) == Tokens(t, k)
  {
    if r.sync.Some? {
      SyncKeepsLedgerOk(t, r.sync.value.0, r.sync.value.1);
      hide LedgerOk, RowsOf, Extract, Unlabelled, Relabel;
      forall k
        ensures Tokens(Synced(t, r), k) == Tokens(t, k)
      {
        RowsOfRelabelled(t.records, r.sync.value.0, k);
        UnlabelRelabelled(RowsOf(t.records, k), r.sync.value.0);
      }
      var u := Synced(t, r);
      forall cid | cid in u.manifests && Skippable(u, cid)
        ensures Current(u, stamp, cid)
      {
        assert Skippable(t, cid) && Current(t, stamp, cid);
      }
    }
  }

  lemma RoundsAgree(t: Tables, t': Tables, u: Tables, u': Tables, stamp: ContentAt, a: Round, b: Round)
    requires Incremental(t, stamp) && Incremental(u, stamp) && SameTokens(t, u)
    requires PlayRound(t, false, a, t') && PlayRound(u, true, b, u') && a.sources == b.sources
    requires DistinctSources(a.sources) && AllHonest(stamp, t.manifests, a.sources)
    ensures Incremental(t', stamp) && Incremental(u', stamp) && SameTokens(t', u')
  {
    assert Synced(t, a).manifests == t.manifests;
    hide Incremental, Turn, Honest, DistinctSources, Tokens, Synced;
    var ts :| Scan(ts, false, a.labels, a.sources) && ts[0] == Synced(t, a) && ts[|a.sources|] == t';
    var us :| Scan(us, true, b.labels, b.sources) && us[0] == Synced(u, b) && us[|b.sources|] == u';
    SyncKeepsTokens(t, a, stamp);
    SyncKeepsTokens(u, b, stamp);
    assert SameTokens(ts[0], us[0]);
    hide SameTokens;
    ScansAgree(ts, us, stamp, a.sources, a.labels, b.labels, |a.sources|);
  }

  /** Over every history, with any database errors, scanning incrementally stores
      the same generations and token counters as re-reading everything each time. */
  lemma {:induction false} IncrementalAgreesWithForced(ts: seq<Tables>, us: seq<Tables>, stamp: ContentAt,
                                                       rounds: seq<Round>, others: seq<Round>, i: nat)
    requires History(ts, false, rounds) && History(us, true, others) && SameFiles(rounds, others)
    requires GoodRounds(stamp, ts, rounds) && i < |ts|
    ensures Incremental(ts[i], stamp) && Incremental(us[i], stamp) && SameTokens(ts[i], us[i])
  {
    if i == 0 {
      assert Incremental(EMPTY, stamp);
    } else {
      hide Incremental, SameTokens, PlayRound, DistinctSources, AllHonest;
      IncrementalAgreesWithForced(ts, us, stamp, rounds, others, i - 1);
      assert PlayRound(ts[i - 1], false, rounds[i - 1], ts[i]) && PlayRound(us[i - 1], true, others[i - 1], us[i]);
      assert DistinctSources(rounds[i - 1].sources) && AllHonest(stamp, ts[i - 1].manifests, rounds[i - 1].sources);
      RoundsAgree(ts[i - 1], ts[i], us[i - 1], us[i], stamp, rounds[i - 1], others[i - 1]);
    }
  }

  /** The stat fails, or a conversation that is not skipped cannot be read, is ambiguous,
      meets a database error or collides with generation IDs of other conversations. */
  ghost predicate TurnFails(t: Tables, force: bool,
                            seen: map<string, Manifest>, catalog: map<string, ConversationMeta>, s: Source) {
    || !s.statOk
    || ((force || !UpToDate(seen, s)) &&
        (s.readFails || s.content.Undecodable? || s.txFails ||
         var rs := Extract(InfoOf(s, catalog), s.content.events); rs.None? || !Committable(t, s.cid, rs.value)))
  }

  predicate SameGoodState(m: Manifest, n: Manifest) {
    m == n.(lastScanStatus := m.lastScanStatus, lastScanError := m.lastScanError)
  }

  /** A failed stat, read or commit leaves all rows and metadata, and of every manifest the
      last good status, counts and source; a turn that does not fail skips or commits. */
  lemma FailureKeepsLastGoodState(t: Tables, force: bool,
                                  seen: map<string, Manifest>, catalog: map<string, ConversationMeta>, s: Source,
                                    u: Tables)
    requires Turn(t, force, seen, catalog, s, u)
    ensures TurnFails(t, force, seen, catalog, s) ==>
              && u.records == t.records && u.metadata == t.metadata && u.sync == t.sync
                && t.manifests.Keys <= u.manifests.Keys
              && forall k :: k in t.manifests ==> SameGoodState(t.manifests[k], u.manifests[k])
    ensures !TurnFails(t, force, seen, catalog, s) ==>
              u == t || (s.content.Decoded? && Extract(InfoOf(s, catalog), s.content.events).Some? &&
                         IsCommit(t, u, s.cid, SnapshotOf(s), StatusOf(SnapshotOf(s)),
                           Extract(InfoOf(s, catalog), s.content.events).value))
  {
    hide Extract, Committable, IsCommit, UpToDate;
  }

  lemma TurnTouchesOwnRows(t: Tables, force: bool, seen: map<string, Manifest>, catalog: map<string, ConversationMeta>,
                           s: Source, u: Tables, k: string)
    requires Turn(t, force, seen, catalog, s, u) && k != s.cid
    ensures RowsOf(u.records, k) == RowsOf(t.records, k)
  {
    FailureKeepsLastGoodState(t, force, seen, catalog, s, u);
    if u.records != t.records {
      var rs := Extract(InfoOf(s, catalog), s.content.events).value;
      hide Turn, Extract, Insertable, RowsOf, Without, UniqueIds, Apart;
      InsertableKeepsConversation(rs, s.cid);
      ReplacedRows(t.records, s.cid, Insertable(rs));
    }
  }

  /** The turns of other conversations leave a conversation's rows and manifest alone. */
  lemma {:induction false} OtherTurnsKeep(states: seq<Tables>, force: bool, catalog: map<string, ConversationMeta>,
                                          ss: seq<Source>, i: nat, a: nat, b: nat)
    requires Scan(states, force, catalog, ss) && DistinctSources(ss) && i < |ss| && a <= b <= |ss| && !(a <= i < b)
    ensures SameManifest(states[a], states[b], ss[i].cid)
    ensures RowsOf(states[b].records, ss[i].cid) == RowsOf(states[a].records, ss[i].cid)
    decreases b - a
  {
    hide Turn, RowsOf;
    if a < b {
      OtherTurnsKeep(states, force, catalog, ss, i, a, b - 1);
      var k, seen := ss[i].cid, states[0].manifests;
      assert Turn(states[b - 1], force, seen, catalog, ss[b - 1], states[b - 1 + 1]);
      TurnTouchesOwnManifest(states[b - 1], force, seen, catalog, ss[b - 1], states[b], k);
      TurnTouchesOwnRows(states[b - 1], force, seen, catalog, ss[b - 1], states[b], k);
    }
  }

  /** Over a whole scan: a conversation whose turn fails, for whatever reason, has the same
      rows and last good manifest afterwards as before, whatever the other turns did. */
  lemma FailedConversationIsKept(states: seq<Tables>, force: bool, catalog: map<string, ConversationMeta>,
                                 ss: seq<Source>, i: nat)
    requires Scan(states, force, catalog, ss) && DistinctSources(ss) && i < |ss|
    requires TurnFails(states[i], force, states[0].manifests, catalog, ss[i])
    ensures var cid, before, after := ss[i].cid, states[0], states[|ss|];
            && RowsOf(after.records, cid) == RowsOf(before.records, cid)
            && (cid in before.manifests ==>
                  cid in after.manifests && SameGoodState(before.manifests[cid], after.manifests[cid]))
  {
    OtherTurnsKeep(states, force, catalog, ss, i, 0, i);
    OtherTurnsKeep(states, force, catalog, ss, i, i + 1, |ss|);
    hide TurnFails, RowsOf, DistinctSources;
    assert Turn(states[i], force, states[0].manifests, catalog, ss[i], states[i + 1]);
    hide Turn;
    FailureKeepsLastGoodState(states[i], force, states[0].manifests, catalog, ss[i], states[i + 1]);
  }
}
