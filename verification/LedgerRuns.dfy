/** Every ledger state the service can reach passes Verify's logical checks. */
module LedgerRuns {
  import opened Common
  import Wire
  import opened Aliases
  import opened Reader
  import opened Merge
  import opened UsageLedger

  // ---------- Verify ----------

  datatype Report = Report(discrepantOutput: nat, discrepantTotal: nat, duplicates: nat, mismatched: nat)

  predicate OutputDiscrepant(r: Record) { r.totalOutputTokens < r.visibleOutputTokens + r.reasoningTokens }

  predicate TotalDiscrepant(r: Record) { r.totalTokens != r.inputTokens + r.cacheReadTokens + r.totalOutputTokens }

  predicate Mismatched(t: Tables, cid: string)
    requires cid in t.manifests
  {
    t.manifests[cid].status == Completed && t.manifests[cid].generationCount != |RowsOf(t.records, cid)|
  }

  function DuplicateIds(rows: seq<Record>): set<string> {
    set i, j | 0 <= i < j < |rows| && rows[i].generationId == rows[j].generationId :: rows[i].generationId
  }

  /** The four counting queries of Verify. */
  function Verify(t: Tables): Report {
    Report(
      |set i | 0 <= i < |t.records| && OutputDiscrepant(t.records[i])|,
      |set i | 0 <= i < |t.records| && TotalDiscrepant(t.records[i])|,
      |DuplicateIds(t.records)|,
      |set cid | cid in t.manifests && Mismatched(t, cid)|)
  }

  // ---------- Runs ----------

  function StatusOf(src: Snapshot): Status { if src.isComplete then Completed else Active }

  /** One call the service makes on the ledger, with what the world answers. */
  datatype Operation =
    | Ingest(info: Info, src: Snapshot, events: seq<Event>, txFails: bool, message: string, noteFails: bool)
    | Unreadable(cid: string, path: string, message: string, noteFails: bool)
    | Sync(catalog: map<string, ConversationMeta>, state: SyncState, txFails: bool)

  ghost predicate IsNote(t: Tables, u: Tables, cid: string, path: string, message: string, noteFails: bool) {
    u == if noteFails then t else NoteFailure(t, cid, path, message)
  }

  ghost predicate Step(t: Tables, op: Operation, u: Tables) {
    match op
    case Ingest(info, src, events, txFails, message, noteFails) =>
      var rs := Extract(info, events);
      if rs.Some? && !txFails && Committable(t, info.cid, rs.value)
      then IsCommit(t, u, info.cid, src, StatusOf(src), rs.value)
      else IsNote(t, u, info.cid, src.path, message, noteFails)
    case Unreadable(cid, path, message, noteFails) => IsNote(t, u, cid, path, message, noteFails)
    case Sync(catalog, state, txFails) => u == if txFails then t else SyncTables(t, catalog, state)
  }

  ghost predicate IsRun(states: seq<Tables>, ops: seq<Operation>) {
    && |states| == |ops| + 1 && states[0] == EMPTY
    && forall i :: 0 <= i < |ops| ==> Step(states[i], ops[i], states[i + 1])
  }

  // ---------- The invariant ----------

  ghost predicate AllNormalized(rows: seq<Record>) { forall r :: r in rows ==> Normalize(r) == r }

  ghost predicate CountsMatch(t: Tables) {
    forall cid :: cid in t.manifests && t.manifests[cid].status != Failed ==>
      t.manifests[cid].generationCount == |RowsOf(t.records, cid)|
  }

  ghost predicate LedgerOk(t: Tables) {
    AllNormalized(t.records) && UniqueIds(t.records) && CountsMatch(t)
  }

  lemma {:induction false} RowsOfWithout(rows: seq<Record>, cid: string, k: string)
    ensures RowsOf(Without(rows, cid), k) == if k == cid then [] else RowsOf(rows, k)
  {
    if rows != [] {
      var p, r := rows[..|rows| - 1], rows[|rows| - 1];
      RowsOfWithout(p, cid, k);
      if r.conversationId != cid {
        assert (Without(p, cid) + [r])[..|Without(p, cid)|] == Without(p, cid);
      } else {
        assert Without(p, cid) + [] == Without(p, cid);
      }
    }
  }

  lemma {:induction false} RowsOfConcat(a: seq<Record>, b: seq<Record>, k: string)
    ensures RowsOf(a + b, k) == RowsOf(a, k) + RowsOf(b, k)
    decreases |b|
  {
    if b == [] {
      assert a + b == a;
    } else {
      assert (a + b)[..|a + b| - 1] == a + b[..|b| - 1];
      RowsOfConcat(a, b[..|b| - 1], k);
    }
  }

  lemma {:induction false} RowsOfOwn(rows: seq<Record>, cid: string, k: string)
    requires forall r :: r in rows ==> r.conversationId == cid
    ensures RowsOf(rows, k) == if k == cid then rows else []
  {
    if rows != [] {
      RowsOfOwn(rows[..|rows| - 1], cid, k);
    }
  }

  lemma {:induction false} WithoutIsPart(rows: seq<Record>, cid: string)
    ensures forall r :: r in Without(rows, cid) ==> r in rows
    ensures UniqueIds(rows) ==> UniqueIds(Without(rows, cid))
  {
    if rows != [] {
      var p, r := rows[..|rows| - 1], rows[|rows| - 1];
      WithoutIsPart(p, cid);
      assert Without(rows, cid) == Without(p, cid) + if r.conversationId == cid then [] else [r];
      if UniqueIds(rows) {
        assert forall i :: 0 <= i < |p| ==> p[i] == rows[i];
        assert forall q :: q in Without(p, cid) ==> q in p && q.generationId != r.generationId;
      }
    }
  }

  lemma {:induction false} InsertableIsAll(rs: seq<Record>)
    requires forall r :: r in rs ==> Normalize(r) == r && RecordIsBearing(r)
    ensures Insertable(rs) == rs
  {
    hide Normalize, RecordIsBearing;
    if rs != [] { InsertableIsAll(rs[..|rs| - 1]); }
  }

  /** The reader's records are all stored, as they are. */
  lemma ReaderRecordsAreStored(info: Info, es: seq<Event>, rs: seq<Record>)
    requires Extract(info, es) == Some(rs)
    ensures Insertable(rs) == rs && UniqueIds(rs)
    ensures forall r :: r in rs ==> r.conversationId == info.cid && Normalize(r) == r && RecordIsBearing(r)
  {
    var m := LinkAll(map[], Wires(es)).value;
    assert Linked(m, Usages(Contributions(es)));
    OneRecordPerGeneration(info, es, m, rs);
    hide Contributions, Linked, Extract, Normalize, RecordIsBearing;
    forall r | r in rs
      ensures r.conversationId == info.cid && Normalize(r) == r && RecordIsBearing(r)
    {
      hide SumsUp;
      IdOfSummary(info, Group(info.cid, m, ToSet(Contributions(es)), r.generationId), r.generationId, r);
    }
    InsertableIsAll(rs);
  }

  function Wires(es: seq<Event>): seq<Wire.Usage> { Usages(Contributions(es)) }

  lemma UniqueTogether(a: seq<Record>, b: seq<Record>)
    requires UniqueIds(a) && UniqueIds(b) && Apart(b, a)
    ensures UniqueIds(a + b)
  {
    forall i, j | 0 <= i < j < |a + b|
      ensures (a + b)[i].generationId != (a + b)[j].generationId
    {
      if i < |a| <= j { assert b[j - |a|] in b && a[i] in a; }
    }
  }

  /** A commit of what the reader returns keeps the invariant, and stores exactly it. */
  lemma CommitKeepsLedgerOk(t: Tables, u: Tables, info: Info, src: Snapshot, es: seq<Event>, rs: seq<Record>)
    requires LedgerOk(t) && Extract(info, es) == Some(rs) && Committable(t, info.cid, rs)
    requires IsCommit(t, u, info.cid, src, StatusOf(src), rs)
    ensures LedgerOk(u)
    ensures forall k :: RowsOf(u.records, k) == if k == info.cid then rs else RowsOf(t.records, k)
  {
    ReaderRecordsAreStored(info, es, rs);
    hide Extract, Normalize, RecordIsBearing, Insertable, Without, RowsOf, UniqueIds;
    WithoutIsPart(t.records, info.cid);
    UniqueTogether(Without(t.records, info.cid), rs);
    ReplacedRows(t.records, info.cid, rs);
    assert u.records == Without(t.records, info.cid) + rs;
    hide Apart;
  }

  lemma ReplacedRows(rows: seq<Record>, cid: string, rs: seq<Record>)
    requires forall r :: r in rs ==> r.conversationId == cid
    ensures forall k :: RowsOf(Without(rows, cid) + rs, k) == if k == cid then rs else RowsOf(rows, k)
  {
    hide Without, RowsOf;
    forall k
      ensures RowsOf(Without(rows, cid) + rs, k) == if k == cid then rs else RowsOf(rows, k)
    {
      RowsOfConcat(Without(rows, cid), rs, k);
      RowsOfWithout(rows, cid, k);
      RowsOfOwn(rs, cid, k);
    }
  }

  lemma NoteKeepsLedgerOk(t: Tables, u: Tables, cid: string, path: string, message: string, noteFails: bool)
    requires LedgerOk(t) && IsNote(t, u, cid, path, message, noteFails)
    ensures LedgerOk(u) && u.records == t.records
  {
    hide RowsOf, UniqueIds, AllNormalized;
  }

  lemma {:induction false} RowsOfRelabelled(rows: seq<Record>, catalog: map<string, ConversationMeta>, k: string)
    ensures RowsOf(Relabel(rows, catalog), k) == Relabel(RowsOf(rows, k), catalog)
  {
    if rows != [] {
      var p, r := rows[..|rows| - 1], rows[|rows| - 1];
      assert Relabel(rows, catalog)[..|rows| - 1] == Relabel(p, catalog);
      RowsOfRelabelled(p, catalog, k);
    }
  }

  lemma SyncKeepsLedgerOk(t: Tables, catalog: map<string, ConversationMeta>, s: SyncState)
    requires LedgerOk(t)
    ensures LedgerOk(SyncTables(t, catalog, s))
  {
    forall k { RowsOfRelabelled(t.records, catalog, k); }
    forall i | 0 <= i < |t.records|
      ensures Normalize(Relabel(t.records, catalog)[i]) == Relabel(t.records, catalog)[i]
    {
      assert t.records[i] in t.records;
    }
  }

  lemma StepKeepsLedgerOk(t: Tables, op: Operation, u: Tables)
    requires LedgerOk(t) && Step(t, op, u)
    ensures LedgerOk(u)
  {
    hide LedgerOk, IsCommit, Committable, Extract, IsNote;
    match op
    case Ingest(info, src, events, txFails, message, noteFails) =>
      var rs := Extract(info, events);
      if rs.Some? && !txFails && Committable(t, info.cid, rs.value) {
        CommitKeepsLedgerOk(t, u, info, src, events, rs.value);
      } else {
        NoteKeepsLedgerOk(t, u, info.cid, src.path, message, noteFails);
      }
    case Unreadable(cid, path, message, noteFails) => NoteKeepsLedgerOk(t, u, cid, path, message, noteFails);
    case Sync(catalog, state, txFails) => SyncKeepsLedgerOk(t, catalog, state);
  }

  lemma {:induction false} RunKeepsLedgerOk(states: seq<Tables>, ops: seq<Operation>, i: nat)
    requires IsRun(states, ops) && i < |states|
    ensures LedgerOk(states[i])
  {
    if i > 0 {
      RunKeepsLedgerOk(states, ops, i - 1);
      StepKeepsLedgerOk(states[i - 1], ops[i - 1], states[i]);
    }
  }

  lemma EmptySet<T>(s: set<T>)
    ensures |s| == 0 <==> forall x :: x !in s
  {
    if |s| != 0 { var x :| x in s; }
  }

  /** In every reachable state generation IDs are unique and every completed
      manifest counts its rows; both sums hold exactly when no stored row wraps. */
  lemma ReachableLedgersVerify(states: seq<Tables>, ops: seq<Operation>, i: nat)
    requires IsRun(states, ops) && i < |states|
    ensures var rep := Verify(states[i]);
            && rep.duplicates == 0 && rep.mismatched == 0
            && (rep.discrepantOutput == 0 && rep.discrepantTotal == 0 <==>
                forall r :: r in states[i].records ==> FitsIn64(r))
  {
    var t := states[i];
    RunKeepsLedgerOk(states, ops, i);
    EmptySet(DuplicateIds(t.records));
    EmptySet(set cid | cid in t.manifests && Mismatched(t, cid));
    DiscrepanciesAreWraps(t);
  }

  lemma DiscrepanciesAreWraps(t: Tables)
    requires AllNormalized(t.records)
    ensures Verify(t).discrepantOutput == 0 && Verify(t).discrepantTotal == 0 <==>
              forall r :: r in t.records ==> FitsIn64(r)
  {
    hide Normalize;
    var out := set i | 0 <= i < |t.records| && OutputDiscrepant(t.records[i]);
    var tot := set i | 0 <= i < |t.records| && TotalDiscrepant(t.records[i]);
    EmptySet(out);
    EmptySet(tot);
    forall i | 0 <= i < |t.records|
      ensures FitsIn64(t.records[i]) <==> i !in out && i !in tot
    {
      assert t.records[i] in t.records;
      NormalizeIsExact(t.records[i]);
    }
  }

  lemma MismatchIsCounted(t: Tables, cid: string)
    requires cid in t.manifests && Mismatched(t, cid)
    ensures Verify(t).mismatched > 0
  {
    var s := set k | k in t.manifests && Mismatched(t, k);
    assert cid in s;
    assert Verify(t).mismatched == |s|;
  }

  lemma {:induction false} NoneIsSkippedExactly(rs: seq<Record>)
    ensures |Insertable(rs)| <= |rs|
    ensures |Insertable(rs)| == |rs| <==> forall r :: r in rs ==> RecordIsBearing(Normalize(r))
  {
    hide Normalize, RecordIsBearing;
    if rs != [] {
      NoneIsSkippedExactly(rs[..|rs| - 1]);
      assert rs == rs[..|rs| - 1] + [rs[|rs| - 1]];
    }
  }

  lemma {:induction false} InsertableKeepsConversation(rs: seq<Record>, cid: string)
    requires forall r :: r in rs ==> r.conversationId == cid
    ensures forall r :: r in Insertable(rs) ==> r.conversationId == cid
  {
    if rs != [] { InsertableKeepsConversation(rs[..|rs| - 1], cid); }
  }

  /** The count check relies on the reader's filter: a completed commit leaves a manifest
      that Verify reports if and only if it holds a record without tokens, and it changes
      the verdict on no other conversation. */
  lemma CommitMiscountsExactly(t: Tables, u: Tables, cid: string, src: Snapshot, rs: seq<Record>)
    requires Committable(t, cid, rs) && IsCommit(t, u, cid, src, Completed, rs)
    ensures Mismatched(u, cid) <==> exists r :: r in rs && !RecordIsBearing(Normalize(r))
    ensures forall k :: k in t.manifests && k != cid ==> (Mismatched(u, k) <==> Mismatched(t, k))
  {
    hide Normalize, RecordIsBearing, Insertable, Without, RowsOf, UniqueIds, Apart;
    InsertableKeepsConversation(rs, cid);
    ReplacedRows(t.records, cid, Insertable(rs));
    NoneIsSkippedExactly(rs);
  }

  /** Such a commit exists: the ledger alone does not keep Verify's count check. */
  lemma CommitAloneMiscounts(src: Snapshot)
    ensures exists u, rs :: MiscountedCommit(src, u, rs)
  {
    var r := Record("c", "g", 0, None, "", "", 0, 0, 0, 0, 0, 0, 0);
    var rs := [r];
    assert rs[..0] == [];
    assert Insertable(rs) == [];
    var m := Manifest(src, 1, None, None, PARSER_VERSION, Completed, Completed, "");
    var u := EMPTY.(manifests := map["c" := m]);
    assert Without([], "c") == [] && RowsOf([], "c") == [];
    assert IsCommit(EMPTY, u, "c", src, Completed, rs);
    MismatchIsCounted(u, "c");
    assert MiscountedCommit(src, u, rs);
  }

  ghost predicate MiscountedCommit(src: Snapshot, u: Tables, rs: seq<Record>) {
    Committable(EMPTY, "c", rs) && IsCommit(EMPTY, u, "c", src, Completed, rs) && Verify(u).mismatched > 0
  }

  // ---------- A sum that wraps ----------

  /** The largest counter the database driver accepts. */
  const LARGEST_COLUMN: u64 := 0x7FFF_FFFF_FFFF_FFFF

  /** A usage with a response ID, the largest input and cache counters, and output 2. */
  const WIDE := Wire.Usage(0, LARGEST_COLUMN, 2, 0, LARGEST_COLUMN, 0, "", 0, 0, "r", "")

  function WideRecord(info: Info): Record {
    Record(info.cid, RESPONSE + "r", 0, info.base, info.workspace, info.project, LARGEST_COLUMN, LARGEST_COLUMN, 0, 0,
      0, 2, 0)
  }

  lemma WideIsExtracted(info: Info)
    ensures Extract(info, [Event(0, None, Some(WIDE), [])]) == Some([WideRecord(info)])
  {
    var c := Contribution(WIDE, 0, None);
    var e := Event(0, None, Some(WIDE), []);
    assert EventContributions(e) == [c] && [e][1..] == [];
    assert Contributions([e]) == [c];
    assert [c][1..] == [] && Usages([c]) == [WIDE];
    WideLinks();
    var k := RESPONSE + "r";
    assert Key(info.cid, map[], c) == k;
    assert NewRecord(info, map[], c) == WideRecord(info);
    var st := Collected(map[k := WideRecord(info)], [k]);
    assert NOTHING.keys + [k] == [k];
    assert UpsertOne(info, map[], NOTHING, c) == st;
    assert UpsertAll(info, map[], st, []) == st;
    assert UpsertAll(info, map[], NOTHING, [c]) == st;
    assert [k][..0] == [] && BearingRecords(st, []) == [];
    assert BearingRecords(st, [k]) == [WideRecord(info)];
  }

  lemma WideLinks()
    ensures LinkAll(map[], [WIDE]) == Some(map[])
  {
    var ids := Ids(WIDE);
    assert ids == [RESPONSE + "r"] && ids[1..] == [];
    assert LinkIds(map[], ids[0], []) == Some(map[]);
    assert [WIDE][1..] == [];
  }

  function WideLedger(info: Info, src: Snapshot): Tables {
    var m := Manifest(src, 1, Some(info.base), Some(info.base), PARSER_VERSION, StatusOf(src), StatusOf(src), "");
    Tables([WideRecord(info)], map[info.cid := m], map[], None)
  }

  lemma WideCommit(info: Info, src: Snapshot)
    ensures Committable(EMPTY, info.cid, [WideRecord(info)])
    ensures IsCommit(EMPTY, WideLedger(info, src), info.cid, src, StatusOf(src), [WideRecord(info)])
  {
    var r := WideRecord(info);
    InsertableIsAll([r]);
    assert Without([], info.cid) == [] && r in [r];
    hide Insertable, Without;
  }

  lemma DiscrepancyIsCounted(t: Tables, i: nat)
    requires i < |t.records| && TotalDiscrepant(t.records[i])
    ensures Verify(t).discrepantTotal > 0
  {
    var s := set k | 0 <= k < |t.records| && TotalDiscrepant(t.records[k]);
    assert i in s;
    assert Verify(t).discrepantTotal == |s|;
  }

  lemma WideStep(info: Info, src: Snapshot)
    ensures Step(EMPTY, Ingest(info, src, [Event(0, None, Some(WIDE), [])], false, "", false), WideLedger(info, src))
  {
    WideIsExtracted(info);
    WideCommit(info, src);
    hide Extract, IsCommit, Committable, WideRecord, WideLedger;
  }

  lemma OneStepRun(op: Operation, u: Tables)
    requires Step(EMPTY, op, u)
    ensures IsRun([EMPTY, u], [op])
  {
    hide Step;
  }

  lemma WideIsReported(info: Info, src: Snapshot)
    ensures Verify(WideLedger(info, src)).discrepantTotal > 0
  {
    DiscrepancyIsCounted(WideLedger(info, src), 0);
  }

  ghost predicate ReportedIngest(states: seq<Tables>, ops: seq<Operation>) {
    IsRun(states, ops) && |ops| == 1 && ops[0].Ingest? && Verify(states[1]).discrepantTotal > 0
  }

  /** One ingest is enough for Verify to report a sum: the reader's total wraps to zero. */
  lemma WrappedTotalIsReported(info: Info, src: Snapshot)
    ensures exists states: seq<Tables>, ops: seq<Operation> :: ReportedIngest(states, ops)
  {
    var op := Ingest(info, src, [Event(0, None, Some(WIDE), [])], false, "", false);
    var u := WideLedger(info, src);
    hide Step, IsRun, Verify, WideLedger;
    WideIsReported(info, src);
    WideStep(info, src);
    OneStepRun(op, u);
    assert ReportedIngest([EMPTY, u], [op]);
  }
}
