/** Which conversations an incremental scan skips and which it reads again. */
module Skipping {
  import opened Common
  import Aliases
  import Merge
  import opened Reader
  import opened UsageLedger
  import opened LedgerRuns
  import opened Service

  /** The database has the size and time a read had seen, and nothing waits in a WAL. */
  predicate IsUnchanged(s: Source, src: Snapshot) { s.size == src.size && s.mtime == src.mtime && !s.activeWal }

  /** After a commit the conversation is skipped if and only if it was read completely and is
      unchanged, and its status tells whether it was. */
  lemma CommittedIsSkipped(t: Tables, u: Tables, src: Snapshot, rs: seq<Record>, s: Source)
    requires IsCommit(t, u, s.cid, src, StatusOf(src), rs)
    ensures UpToDate(u.manifests, s) <==> src.isComplete && IsUnchanged(s, src)
    ensures u.manifests[s.cid].status == u.manifests[s.cid].lastScanStatus
            == (if src.isComplete then Completed else Active)
  {
    hide Insertable, Without, IsFirst, IsLast;
  }

  /** After a failed scan that could be noted the conversation is read again, however it looks. */
  lemma FailedIsRetried(t: Tables, u: Tables, s: Source, path: string, message: string)
    requires IsNote(t, u, s.cid, path, message, false)
    ensures !UpToDate(u.manifests, s)
    ensures u.manifests[s.cid].lastScanError == message && u.records == t.records
    ensures s.cid in t.manifests ==> u.manifests[s.cid].status == t.manifests[s.cid].status
                                     && u.manifests[s.cid].source == t.manifests[s.cid].source
    ensures s.cid !in t.manifests ==>
              u.manifests[s.cid].status == Failed && u.manifests[s.cid].source == Snapshot(path, 0, 0, 0, 0, false)
              && u.manifests[s.cid].generationCount == 0
  {}

  /** A conversation no scan has met, or one another parser version read, is read. */
  lemma UnknownIsRead(manifests: map<string, Manifest>, s: Source)
    requires s.cid !in manifests || manifests[s.cid].parserVersion != "1.1.0"
    ensures !UpToDate(manifests, s)
  {}

  /** What other operations do to this conversation's manifest: nothing. */
  lemma OthersKeepSkipping(t: Tables, op: Operation, u: Tables, s: Source)
    requires Step(t, op, u) && !(op.Ingest? && op.info.cid == s.cid) && !(op.Unreadable? && op.cid == s.cid)
    ensures UpToDate(u.manifests, s) == UpToDate(t.manifests, s)
  {
    hide Extract, Committable, Insertable, Without, IsFirst, IsLast;
  }

  ghost predicate TouchesOthers(op: Operation, cid: string) {
    match op
    case Ingest(info, _, _, _, _, _) => info.cid != cid
    case Unreadable(c, _, _, _) => c != cid
    case Sync(_, _, _) => true
  }

  lemma {:induction false} SkippingLasts(states: seq<Tables>, ops: seq<Operation>, i: nat, j: nat, s: Source)
    requires IsRun(states, ops) && i <= j < |states| && forall k :: i <= k < j ==> TouchesOthers(ops[k], s.cid)
    ensures UpToDate(states[j].manifests, s) == UpToDate(states[i].manifests, s)
    decreases j - i
  {
    hide Step, UpToDate;
    if i < j {
      SkippingLasts(states, ops, i, j - 1, s);
      OthersKeepSkipping(states[j - 1], ops[j - 1], states[j], s);
    }
  }

  /** Over every run of the ledger: after the last operation on a conversation an incremental scan
      skips it if and only if that was a successful commit of a complete read and the database
      is unchanged since; a noted failure is always followed by another read. */
  lemma LastOperationDecides(states: seq<Tables>, ops: seq<Operation>, i: nat, j: nat, s: Source)
    requires IsRun(states, ops) && i < j < |states| && forall k :: i < k < j ==> TouchesOthers(ops[k], s.cid)
    requires ops[i].Ingest? && ops[i].info.cid == s.cid
    ensures var op, rs := ops[i], Extract(ops[i].info, ops[i].events);
            var committed := rs.Some? && !op.txFails && Committable(states[i], s.cid, rs.value);
            && (committed ==> (UpToDate(states[j].manifests, s) <==> op.src.isComplete && IsUnchanged(s, op.src)))
            && (!committed && !op.noteFails ==> !UpToDate(states[j].manifests, s))
  {
    var op, rs := ops[i], Extract(ops[i].info, ops[i].events);
    assert Step(states[i], op, states[i + 1]);
    if rs.Some? && !op.txFails && Committable(states[i], s.cid, rs.value) {
      CommittedIsSkipped(states[i], states[i + 1], op.src, rs.value, s);
    } else if !op.noteFails {
      FailedIsRetried(states[i], states[i + 1], s, op.src.path, op.message);
    }
    hide Extract, Committable, IsCommit, UpToDate, Step;
    SkippingLasts(states, ops, i + 1, j, s);
  }

  /** Skipping changes nothing, and only a conversation that allows it is ever skipped: any
      other is read, and the outcome of reading is committed or noted. */
  lemma TurnSkipsExactly(t: Tables, seen: map<string, Manifest>, catalog: map<string, ConversationMeta>, s: Source,
                         u: Tables)
    requires s.statOk && Turn(t, false, seen, catalog, s, u)
    ensures UpToDate(seen, s) ==> u == t
    ensures !UpToDate(seen, s) ==> Turn(t, true, map[], catalog, s, u)
  {
    hide Step, IsNote;
  }

  /** A read is complete when size and time did not move and no WAL was left. */
  lemma SnapshotTells(s: Source)
    requires s.content.Decoded?
    ensures var src := SnapshotOf(s);
            && (src.isComplete <==> s.sizeBefore == s.sizeAfter && s.mtimeBefore == s.mtimeAfter && !s.walAfter)
            && src.size == s.sizeAfter && src.mtime == s.mtimeAfter && src.path == s.path
            && src.highestStep == s.content.highestStep && src.highestGen == s.content.highestGen
  {}

  /** The reader labels every record as the catalog does, and as unknown without an entry. */
  lemma RecordsAreLabelled(s: Source, catalog: map<string, ConversationMeta>, rs: seq<Record>, r: Record)
    requires s.content.Decoded? && Extract(InfoOf(s, catalog), s.content.events) == Some(rs) && r in rs
    ensures s.cid !in catalog ==> r.workspace == "" && r.project == "unknown"
    ensures s.cid in catalog ==>
              && r.workspace == catalog[s.cid].workspace
              && r.project == (if catalog[s.cid].project == "" then "unknown" else catalog[s.cid].project)
    ensures r.conversationId == s.cid
  {
    var info := InfoOf(s, catalog);
    RecordLabels(info, s.content.events, rs, r);
    hide Extract;
  }

  lemma RecordLabels(info: Info, es: seq<Event>, rs: seq<Record>, r: Record)
    requires Extract(info, es) == Some(rs) && r in rs
    ensures r.conversationId == info.cid && r.workspace == info.workspace && r.project == info.project
  {
    var m := Aliases.LinkAll(map[], Usages(Contributions(es))).value;
    Merge.OneRecordPerGeneration(info, es, m, rs);
    hide Extract, Contributions, Usages;
  }

  /** What a turn of a scan comes to: a skipped conversation changes nothing, one that can be committed
      is, and every other is noted as failed, if the ledger can be written, and keeps its rows. */
  lemma TurnEndsExactly(t: Tables, force: bool, seen: map<string, Manifest>, catalog: map<string, ConversationMeta>,
                        s: Source, u: Tables)
    requires Turn(t, force, seen, catalog, s, u)
    ensures Skips(force, seen, s) ==> u == t
    ensures !Skips(force, seen, s) && Commits(t, catalog, s) ==>
              var src := SnapshotOf(s);
              IsCommit(t, u, s.cid, src, if src.isComplete then Completed else Active,
                Extract(InfoOf(s, catalog), s.content.events).value)
    ensures !Skips(force, seen, s) && !Commits(t, catalog, s) ==>
              if s.noteFails then u == t
              else
                && u.records == t.records && s.cid in u.manifests && !UpToDate(u.manifests, s)
                && u.manifests[s.cid].lastScanStatus == Failed && u.manifests[s.cid].lastScanError == s.message
                && forall k :: k in t.manifests && k != s.cid ==> k in u.manifests && u.manifests[k] == t.manifests[k]
  {
    hide Extract, Committable, IsCommit;
  }
}
