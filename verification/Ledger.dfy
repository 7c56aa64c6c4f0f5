/** The usage ledger: three tables changed in transactions, and the checks Verify
    makes on them. */
module UsageLedger {
  import opened Common
  import opened Reader

  // ---------- Tables ----------

  const PARSER_VERSION := "1.1.0"

  datatype Status = Completed | Active | Failed

  /** What a conversation read reports about its source file. */
  datatype Snapshot = Snapshot(path: string, size: int, mtime: int, highestStep: int, highestGen: int, isComplete: bool)

  datatype Manifest = Manifest(
    source: Snapshot,
    generationCount: nat,
    firstUsage: Option<Option<int>>,
    lastUsage: Option<Option<int>>,
    parserVersion: string,
    status: Status,
    lastScanStatus: Status,
    lastScanError: string)

  datatype ConversationMeta = ConversationMeta(workspace: string, project: string)

  datatype SyncState = SyncState(path: string, size: int, mtime: int, conversations: nat)

  /** usage_records, ingest_manifests, conversation_metadata and catalog_sync_state. */
  datatype Tables = Tables(
    records: seq<Record>,
    manifests: map<string, Manifest>,
    metadata: map<string, ConversationMeta>,
    sync: Option<SyncState>)

  const EMPTY := Tables([], map[], map[], None)

  // ---------- Row selections ----------

  function RowsOf(rows: seq<Record>, cid: string): seq<Record> {
    if rows == [] then [] else
      var r := rows[|rows| - 1];
      RowsOf(rows[..|rows| - 1], cid) + if r.conversationId == cid then [r] else []
  }

  function Without(rows: seq<Record>, cid: string): seq<Record> {
    if rows == [] then [] else
      var r := rows[|rows| - 1];
      Without(rows[..|rows| - 1], cid) + if r.conversationId == cid then [] else [r]
  }

  /** The rows CommitIngest inserts: normalized, the empty ones skipped. */
  function Insertable(rs: seq<Record>): seq<Record> {
    if rs == [] then [] else
      var r := Normalize(rs[|rs| - 1]);
      Insertable(rs[..|rs| - 1]) + if RecordIsBearing(r) then [r] else []
  }

  ghost predicate UniqueIds(rows: seq<Record>) {
    forall i, j :: 0 <= i < j < |rows| ==> rows[i].generationId != rows[j].generationId
  }

  ghost predicate Apart(rows: seq<Record>, others: seq<Record>) {
    forall r, s :: r in rows && s in others ==> r.generationId != s.generationId
  }

  /** The UNIQUE constraint on generation_id. */
  predicate IdTaken(rows: seq<Record>, r: Record) {
    exists s :: s in rows && s.generationId == r.generationId
  }

  // ---------- CommitIngest ----------

  /** time.Time's Before, with None for the zero time. */
  predicate Before(a: Option<int>, b: Option<int>) {
    b.Some? && (a.None? || a.value < b.value)
  }

  ghost predicate IsFirst(rows: seq<Record>, t: Option<Option<int>>) {
    match t
    case None => rows == []
    case Some(v) => (exists r :: r in rows && r.timestamp == v) && (forall r :: r in rows ==> !Before(r.timestamp, v))
  }

  ghost predicate IsLast(rows: seq<Record>, t: Option<Option<int>>) {
    match t
    case None => rows == []
    case Some(v) => (exists r :: r in rows && r.timestamp == v) && (forall r :: r in rows ==> !Before(v, r.timestamp))
  }

  /** Whether the inserts of a commit are accepted: every record belongs to the
      conversation and no generation ID is taken. */
  ghost predicate Committable(t: Tables, cid: string, rs: seq<Record>) {
    && (forall r :: r in rs ==> r.conversationId == cid)
    && UniqueIds(Insertable(rs)) && Apart(Insertable(rs), Without(t.records, cid))
  }

  ghost predicate IsCommit(before: Tables, after: Tables, cid: string, src: Snapshot, status: Status, rs: seq<Record>) {
    && after.records == Without(before.records, cid) + Insertable(rs)
    && after.metadata == before.metadata && after.sync == before.sync
    && after.manifests.Keys == before.manifests.Keys + {cid}
    && (forall k :: k in before.manifests && k != cid ==> after.manifests[k] == before.manifests[k])
    && var m := after.manifests[cid];
       var had := cid in before.manifests;
       && m.source == src.(
            highestStep := if had then Max(before.manifests[cid].source.highestStep, src.highestStep)
              else src.highestStep,
            highestGen := if had then Max(before.manifests[cid].source.highestGen, src.highestGen) else src.highestGen)
       && m.generationCount == |rs| && m.parserVersion == PARSER_VERSION
       && m.status == status && m.lastScanStatus == status && m.lastScanError == ""
       && IsFirst(Insertable(rs), m.firstUsage) && IsLast(Insertable(rs), m.lastUsage)
  }

  /** RecordScanFailure keeps the last good state and only notes the failed scan. */
  function NoteFailure(t: Tables, cid: string, path: string, message: string): Tables {
    if cid in t.manifests then
      t.(manifests := t.manifests[cid := t.manifests[cid].(lastScanStatus := Failed, lastScanError := message)])
    else
      t.(manifests := t.manifests[cid := Manifest(Snapshot(path, 0, 0, 0, 0, false), 0, None, None, PARSER_VERSION,
        Failed, Failed, message)])
  }

  function ProjectOf(meta: ConversationMeta): string { if meta.project == "" then "unknown" else meta.project }

  function Relabel(rows: seq<Record>, catalog: map<string, ConversationMeta>): (r: seq<Record>)
    ensures |r| == |rows|
  {
    seq(|rows|, i requires 0 <= i < |rows| =>
      if rows[i].conversationId in catalog
      then rows[i].(project := ProjectOf(catalog[rows[i].conversationId]),
        workspace := catalog[rows[i].conversationId].workspace)
      else rows[i])
  }

  function SyncTables(t: Tables, catalog: map<string, ConversationMeta>, s: SyncState): Tables {
    t.(records := Relabel(t.records, catalog), metadata := t.metadata + catalog, sync := Some(s))
  }

  ghost predicate Inserting(kept: seq<Record>, rows: seq<Record>,
                            first: Option<Option<int>>, last: Option<Option<int>>) {
    UniqueIds(rows) && Apart(rows, kept) && IsFirst(rows, first) && IsLast(rows, last)
  }

  class Ledger {
    var usageRecords: seq<Record>
    var manifests: map<string, Manifest>
    var metadata: map<string, ConversationMeta>
    var catalogSync: Option<SyncState>

    ghost function State(): Tables
      reads this
    {
      Tables(usageRecords, manifests, metadata, catalogSync)
    }

    constructor ()
      ensures State() == EMPTY
    {
      usageRecords, manifests, metadata, catalogSync := [], map[], map[], None;
    }

    /** CommitIngest. `txFails` is a database error anywhere in the transaction,
        which rolls everything back. */
    method CommitIngest(cid: string, src: Snapshot, status: Status, rs: seq<Record>, txFails: bool) returns (ok: bool)
      modifies this
      ensures ok <==> !txFails && Committable(old(State()), cid, rs)
      ensures if ok then IsCommit(old(State()), State(), cid, src, status, rs) else State() == old(State())
    {
      hide Normalize, RecordIsBearing, Insertable, Without, IdTaken, Before, UniqueIds, Apart, IsFirst, IsLast;
      InsertableNothing();
      var kept := Without(usageRecords, cid);
      var rows: seq<Record> := [];
      var firstTS, lastTS: Option<Option<int>> := None, None;
      for i := 0 to |rs|
        invariant rows == Insertable(rs[..i])
        invariant forall r :: r in rs[..i] ==> r.conversationId == cid
        invariant Inserting(kept, rows, firstTS, lastTS)
        modifies {}
      {
        assert rs[..i + 1] == rs[..i] + [rs[i]];
        InsertableStep(rs, i);
        InsertablePrefix(rs, i + 1);
        if rs[i].conversationId != cid {
          assert rs[i] in rs;
          return false;
        }
        var r := Normalize(rs[i]);
        if !RecordIsBearing(r) { continue; }
        if IdTaken(kept, r) || IdTaken(rows, r) {
          RejectRow(kept, rows, r, Insertable(rs));
          return false;
        }
        InsertRow(kept, rows, firstTS, lastTS, r);
        if firstTS.None? || Before(r.timestamp, firstTS.value) { firstTS := Some(r.timestamp); }
        if lastTS.None? || Before(lastTS.value, r.timestamp) { lastTS := Some(r.timestamp); }
        rows := rows + [r];
      }
      assert rs[..|rs|] == rs;
      if txFails { return false; }
      var m := Manifest(src, |rs|, firstTS, lastTS, PARSER_VERSION, status, status, "");
      if cid in manifests {
        var existing := manifests[cid].source;
        m := m.(source := src.(highestStep := Max(existing.highestStep, src.highestStep),
          highestGen := Max(existing.highestGen, src.highestGen)));
      }
      usageRecords, manifests := kept + rows, manifests[cid := m];
      ok := true;
    }

    /** RecordScanFailure; `dbFails` when the note itself cannot be written. */
    method RecordScanFailure(cid: string, path: string, message: string, dbFails: bool)
      modifies this
      ensures State() == if dbFails then old(State()) else NoteFailure(old(State()), cid, path, message)
    {
      if dbFails { return; }
      if cid !in manifests {
        manifests :=
          manifests[cid := Manifest(Snapshot(path, 0, 0, 0, 0, false), 0, None, None, PARSER_VERSION, Failed, Failed,
            message)];
        return;
      }
      manifests := manifests[cid := manifests[cid].(lastScanStatus := Failed, lastScanError := message)];
    }

    /** SyncCatalog: one metadata upsert and one label update per conversation, in
        whatever order the catalog is walked. */
    method SyncCatalog(catalog: map<string, ConversationMeta>, s: SyncState, txFails: bool) returns (ok: bool)
      modifies this
      ensures ok <==> !txFails
      ensures State() == if ok then SyncTables(old(State()), catalog, s) else old(State())
    {
      if txFails { return false; }
      var rows, meta, todo := usageRecords, metadata, catalog.Keys;
      while todo != {}
        modifies {}
        invariant todo <= catalog.Keys
        invariant meta == metadata + (map k | k in catalog && k !in todo :: catalog[k])
        invariant rows == Relabel(usageRecords, map k | k in catalog && k !in todo :: catalog[k])
        decreases todo
      {
        var cid :| cid in todo;
        var one := catalog[cid];
        meta := meta[cid := one];
        rows := seq(|rows|, i requires 0 <= i < |rows| =>
          if rows[i].conversationId == cid && (rows[i].project != ProjectOf(one) || rows[i].workspace != one.workspace)
          then rows[i].(project := ProjectOf(one), workspace := one.workspace) else rows[i]);
        todo := todo - {cid};
      }
      assert (map k | k in catalog && k !in todo :: catalog[k]) == catalog;
      usageRecords, metadata, catalogSync := rows, meta, Some(s);
      ok := true;
    }
  }

  lemma InsertableNothing()
    ensures Insertable([]) == []
    ensures forall kept :: Inserting(kept, [], None, None)
  {}

  lemma InsertableStep(rs: seq<Record>, i: nat)
    requires i < |rs|
    ensures Insertable(rs[..i + 1]) == Insertable(rs[..i]) + if RecordIsBearing(Normalize(rs[i])) then
            [Normalize(rs[i])] else []
  {
    assert rs[..i + 1][..i] == rs[..i];
  }

  lemma {:induction false} InsertablePrefix(rs: seq<Record>, i: nat)
    requires i <= |rs|
    ensures Insertable(rs[..i]) <= Insertable(rs)
    decreases |rs| - i
  {
    hide Insertable, Normalize, RecordIsBearing;
    if i == |rs| {
      assert rs[..i] == rs;
    } else {
      InsertableStep(rs, i);
      InsertablePrefix(rs, i + 1);
    }
  }

  lemma InsertRow(kept: seq<Record>, rows: seq<Record>,
                  first: Option<Option<int>>, last: Option<Option<int>>, r: Record)
    requires Inserting(kept, rows, first, last) && !IdTaken(kept, r) && !IdTaken(rows, r)
    ensures Inserting(kept, rows + [r],
              if first.None? || Before(r.timestamp, first.value) then Some(r.timestamp) else first,
              if last.None? || Before(last.value, r.timestamp) then Some(r.timestamp) else last)
  {
    assert r in rows + [r];
    assert forall s :: s in rows ==> s in rows + [r];
  }

  lemma RejectRow(kept: seq<Record>, rows: seq<Record>, r: Record, all: seq<Record>)
    requires rows + [r] <= all && (IdTaken(kept, r) || IdTaken(rows, r))
    ensures !UniqueIds(all) || !Apart(all, kept)
  {
    assert all[|rows|] == r && r in all;
    if IdTaken(rows, r) {
      var s :| s in rows && s.generationId == r.generationId;
      var i :| 0 <= i < |rows| && rows[i] == s;
      assert all[i] == s;
    }
  }
}
