/** What the ledger's checks count and what its operations leave in the tables, row by row. */
module LedgerContents {
  import opened Common
  import opened Reader
  import opened UsageLedger
  import opened LedgerRuns

  // ---------- What Verify counts ----------

  /** The places of a conversation's rows. */
  function Places(rows: seq<Record>, cid: string): set<int> {
    set i | 0 <= i < |rows| && rows[i].conversationId == cid
  }

  lemma {:induction false} RowsArePlaces(rows: seq<Record>, cid: string)
    ensures |RowsOf(rows, cid)| == |Places(rows, cid)|
  {
    if rows == [] {
      assert Places(rows, cid) == {};
    } else {
      var n := |rows| - 1;
      RowsArePlaces(rows[..n], cid);
      assert Places(rows, cid) == Places(rows[..n], cid) + if rows[n].conversationId == cid then {n} else {};
    }
  }

  /** Each of the four counts of Verify is zero exactly when its rule holds of the tables:
      the two sums, one row per generation, and as many rows as a completed manifest says. */
  lemma VerifyExactly(t: Tables)
    ensures var v := Verify(t);
            && (v.discrepantOutput == 0 <==>
                forall r :: r in t.records ==> r.totalOutputTokens >= r.visibleOutputTokens + r.reasoningTokens)
            && (v.discrepantTotal == 0 <==>
                forall r :: r in t.records ==> r.totalTokens == r.inputTokens + r.cacheReadTokens + r.totalOutputTokens)
            && (v.duplicates == 0 <==>
                forall i, j :: 0 <= i < j < |t.records| ==> t.records[i].generationId != t.records[j].generationId)
            && (v.mismatched == 0 <==>
                forall cid :: cid in t.manifests && t.manifests[cid].status == Completed ==>
                  t.manifests[cid].generationCount == |Places(t.records, cid)|)
  {
    var out := set i | 0 <= i < |t.records| && OutputDiscrepant(t.records[i]);
    var tot := set i | 0 <= i < |t.records| && TotalDiscrepant(t.records[i]);
    EmptySet(out);
    EmptySet(tot);
    MismatchesExactly(t);
    forall i | 0 <= i < |t.records|
      ensures t.records[i] in t.records && (i in out <==> OutputDiscrepant(t.records[i]))
      ensures i in tot <==> TotalDiscrepant(t.records[i])
    {}
    DuplicatesExactly(t.records);
    hide DuplicateIds;
  }

  lemma MismatchesExactly(t: Tables)
    ensures Verify(t).mismatched == 0 <==>
              forall cid :: cid in t.manifests && t.manifests[cid].status == Completed ==>
                t.manifests[cid].generationCount == |Places(t.records, cid)|
  {
    var s := set cid | cid in t.manifests && Mismatched(t, cid);
    EmptySet(s);
    hide RowsOf, Places, OutputDiscrepant, TotalDiscrepant, DuplicateIds;
    forall cid | cid in t.manifests
      ensures cid in s <==> t.manifests[cid].status == Completed
                            && t.manifests[cid].generationCount != |Places(t.records, cid)|
    {
      RowsArePlaces(t.records, cid);
    }
  }

  lemma DuplicatesExactly(rows: seq<Record>)
    ensures |DuplicateIds(rows)| == 0 <==>
              forall i, j :: 0 <= i < j < |rows| ==> rows[i].generationId != rows[j].generationId
  {
    EmptySet(DuplicateIds(rows));
    forall i, j | 0 <= i < j < |rows|
      ensures rows[i].generationId == rows[j].generationId ==> rows[i].generationId in DuplicateIds(rows)
    {}
  }

  // ---------- Labels ----------

  /** A stored row under its conversation's catalog entry. */
  ghost predicate Carries(r: Record, before: Record, meta: ConversationMeta) {
    && r.workspace == meta.workspace
    && r.project == (if meta.project != "" then meta.project else "unknown")
    && r == before.(workspace := r.workspace, project := r.project)
  }

  /** A catalog synchronization labels every stored row of a catalogued conversation,
      touches no other row and no manifest, and replaces just the catalogued metadata. */
  lemma SyncLabels(t: Tables, catalog: map<string, ConversationMeta>, s: SyncState)
    ensures var u := SyncTables(t, catalog, s);
            && |u.records| == |t.records| && u.manifests == t.manifests && u.sync == Some(s)
            && (forall i :: 0 <= i < |t.records| ==>
                  if t.records[i].conversationId in catalog
                  then Carries(u.records[i], t.records[i], catalog[t.records[i].conversationId])
                  else u.records[i] == t.records[i])
            && (forall cid :: cid in u.metadata <==> cid in t.metadata || cid in catalog)
            && (forall cid :: cid in u.metadata ==>
                  u.metadata[cid] == if cid in catalog then catalog[cid] else t.metadata[cid])
  {}

  // ---------- High-water marks ----------

  ghost predicate HasReached(t: Tables, cid: string, step: int, gen: int) {
    cid in t.manifests && t.manifests[cid].source.highestStep >= step && t.manifests[cid].source.highestGen >= gen
  }

  lemma StepReaches(t: Tables, op: Operation, u: Tables, cid: string, step: int, gen: int)
    requires Step(t, op, u) && HasReached(t, cid, step, gen)
    ensures HasReached(u, cid, step, gen)
  {
    hide Extract, Committable, Insertable, Without, IsFirst, IsLast;
  }

  /** A conversation's highest step and generation are never lost, whatever is scanned later. */
  lemma {:induction false} HighestNeverFalls(states: seq<Tables>, ops: seq<Operation>, i: nat, j: nat, cid: string,
                                             step: int, gen: int)
    requires IsRun(states, ops) && i <= j < |states| && HasReached(states[i], cid, step, gen)
    ensures HasReached(states[j], cid, step, gen)
    decreases j - i
  {
    hide Step, HasReached;
    if i < j {
      HighestNeverFalls(states, ops, i, j - 1, cid, step, gen);
      StepReaches(states[j - 1], ops[j - 1], states[j], cid, step, gen);
    }
  }

  /** After a commit the marks are those of the source or the earlier ones, whichever is higher,
      and everything else the manifest says of the source is what was committed. */
  lemma CommittedSource(t: Tables, u: Tables, cid: string, src: Snapshot, status: Status, rs: seq<Record>)
    requires IsCommit(t, u, cid, src, status, rs)
    ensures var s := u.manifests[cid].source;
            && HasReached(u, cid, src.highestStep, src.highestGen)
            && (s.highestStep == src.highestStep
                || (cid in t.manifests && s.highestStep == t.manifests[cid].source.highestStep))
            && (s.highestGen == src.highestGen
                || (cid in t.manifests && s.highestGen == t.manifests[cid].source.highestGen))
            && s == src.(highestStep := s.highestStep, highestGen := s.highestGen)
            && u.manifests[cid].parserVersion == "1.1.0"
  {
    hide Insertable, Without, IsFirst, IsLast;
  }

  // ---------- What a commit accepts and stores ----------

  predicate HasTokens(r: Record) {
    r.inputTokens + r.cacheReadTokens + r.cacheCreationTokens + r.visibleOutputTokens + r.reasoningTokens
    + r.totalOutputTokens > 0
  }

  /** The row stored for a record: the output is at least its parts, and both sums are made anew. */
  ghost predicate IsRowOf(row: Record, r: Record) {
    && row.totalOutputTokens == Max(r.totalOutputTokens, (r.visibleOutputTokens + r.reasoningTokens) % TWO_64)
    && row.totalTokens == (r.inputTokens + r.cacheReadTokens + row.totalOutputTokens) % TWO_64
    && row == r.(totalOutputTokens := row.totalOutputTokens, totalTokens := row.totalTokens)
  }

  lemma RowIsNormalized(r: Record)
    ensures IsRowOf(Normalize(r), r) && (RecordIsBearing(Normalize(r)) <==> HasTokens(r))
    ensures Normalize(r).generationId == r.generationId && Normalize(r).conversationId == r.conversationId
  {
    AddThree(r.inputTokens, r.cacheReadTokens, Normalize(r).totalOutputTokens);
  }

  /** The records with tokens are the stored rows, in order. */
  ghost predicate StoredAs(rs: seq<Record>, places: seq<nat>, rows: seq<Record>) {
    && |places| == |rows|
    && (forall k, l :: 0 <= k < l < |places| ==> places[k] < places[l])
    && (forall p :: p in places <==> 0 <= p < |rs| && HasTokens(rs[p]))
    && (forall k :: 0 <= k < |rows| ==> places[k] < |rs| && IsRowOf(rows[k], rs[places[k]]))
  }

  lemma {:induction false} InsertableExactly(rs: seq<Record>) returns (places: seq<nat>)
    ensures StoredAs(rs, places, Insertable(rs))
  {
    places := [];
    if rs != [] {
      var n := |rs| - 1;
      places := InsertableExactly(rs[..n]);
      RowIsNormalized(rs[n]);
      hide Normalize, RecordIsBearing, IsRowOf, HasTokens;
      StoredOneMore(rs[..n], places, Insertable(rs[..n]), rs[n], Normalize(rs[n]));
      assert rs == rs[..n] + [rs[n]];
      if HasTokens(rs[n]) { places := places + [n]; }
      hide StoredAs;
    }
  }

  lemma StoredOneMore(rs: seq<Record>, places: seq<nat>, rows: seq<Record>, r: Record, row: Record)
    requires StoredAs(rs, places, rows) && IsRowOf(row, r)
    ensures if HasTokens(r) then StoredAs(rs + [r], places + [|rs|], rows + [row])
            else StoredAs(rs + [r], places, rows + [])
  {
    hide HasTokens, IsRowOf;
    var all := rs + [r];
    assert all[|rs|] == r && forall p :: 0 <= p < |rs| ==> all[p] == rs[p];
    assert rows + [] == rows;
    assert forall k :: 0 <= k < |places| ==> places[k] in places;
  }

  /** A commit is acceptable exactly when every record is the conversation's own, no two records with
      tokens have one generation ID, and no row of another conversation has it. */
  lemma CommittableExactly(t: Tables, cid: string, rs: seq<Record>)
    ensures Committable(t, cid, rs) <==>
              && (forall r :: r in rs ==> r.conversationId == cid)
              && (forall i, j :: 0 <= i < j < |rs| && HasTokens(rs[i]) && HasTokens(rs[j]) ==>
                    rs[i].generationId != rs[j].generationId)
              && (forall r, s :: r in rs && HasTokens(r) && s in t.records && s.conversationId != cid ==>
                    r.generationId != s.generationId)
  {
    var places := InsertableExactly(rs);
    var rows := Insertable(rs);
    hide Insertable, HasTokens;
    OthersExactly(t.records, cid);
    UniqueExactly(rs, places, rows);
    ApartExactly(rs, places, rows, Without(t.records, cid));
    hide StoredAs, UniqueIds, Apart;
  }

  lemma {:induction false} OthersExactly(rows: seq<Record>, cid: string)
    ensures forall r :: r in Without(rows, cid) <==> r in rows && r.conversationId != cid
  {
    if rows != [] {
      OthersExactly(rows[..|rows| - 1], cid);
      assert rows == rows[..|rows| - 1] + [rows[|rows| - 1]];
    }
  }

  lemma UniqueExactly(rs: seq<Record>, places: seq<nat>, rows: seq<Record>)
    requires StoredAs(rs, places, rows)
    ensures UniqueIds(rows) <==> forall i, j :: 0 <= i < j < |rs| && HasTokens(rs[i]) && HasTokens(rs[j]) ==>
                                   rs[i].generationId != rs[j].generationId
  {
    hide HasTokens;
    assert forall k :: 0 <= k < |places| ==> places[k] in places;
    if UniqueIds(rows) {
      forall i, j | 0 <= i < j < |rs| && HasTokens(rs[i]) && HasTokens(rs[j])
        ensures rs[i].generationId != rs[j].generationId
      {
        assert i in places && j in places;
        var k :| 0 <= k < |places| && places[k] == i;
        var l :| 0 <= l < |places| && places[l] == j;
        assert k < l;
      }
    }
  }

  lemma ApartExactly(rs: seq<Record>, places: seq<nat>, rows: seq<Record>, others: seq<Record>)
    requires StoredAs(rs, places, rows)
    ensures Apart(rows, others) <==>
              forall r, s :: r in rs && HasTokens(r) && s in others ==> r.generationId != s.generationId
  {
    hide HasTokens;
    assert forall k :: 0 <= k < |places| ==> places[k] in places;
    if Apart(rows, others) {
      forall r, s | r in rs && HasTokens(r) && s in others
        ensures r.generationId != s.generationId
      {
        var p :| 0 <= p < |rs| && rs[p] == r;
        assert p in places;
        var k :| 0 <= k < |places| && places[k] == p;
        assert rows[k] in rows;
      }
    } else {
      var x, s :| x in rows && s in others && x.generationId == s.generationId;
      var k :| 0 <= k < |rows| && rows[k] == x;
      assert rs[places[k]] in rs;
    }
  }

  /** After a commit the ledger holds the other conversations' rows, untouched, and for this one just
      the rows of the records with tokens. */
  lemma CommitStoresExactly(t: Tables, u: Tables, cid: string, src: Snapshot, status: Status, rs: seq<Record>)
    returns (places: seq<nat>)
    requires Committable(t, cid, rs) && IsCommit(t, u, cid, src, status, rs)
    ensures StoredAs(rs, places, RowsOf(u.records, cid))
    ensures forall k :: k != cid ==> RowsOf(u.records, k) == RowsOf(t.records, k)
    ensures u.manifests[cid].generationCount == |rs|
  {
    places := InsertableExactly(rs);
    InsertableKeepsConversation(rs, cid);
    ReplacedRows(t.records, cid, Insertable(rs));
    hide Insertable, Without, RowsOf, StoredAs;
  }

  // ---------- The span of a commit ----------

  ghost predicate HasTime(rows: seq<Record>, t: Option<int>) { exists r :: r in rows && r.timestamp == t }

  /** The first and the last time of a commit are those of its stored rows; a missing time counts as
      earlier than any other. */
  lemma CommitSpansUsage(t: Tables, u: Tables, cid: string, src: Snapshot, status: Status, rs: seq<Record>)
    requires Committable(t, cid, rs) && IsCommit(t, u, cid, src, status, rs)
    ensures var rows, m := RowsOf(u.records, cid), u.manifests[cid];
            && (rows == [] ==> m.firstUsage == None && m.lastUsage == None)
            && (rows != [] ==> m.firstUsage.Some? && m.lastUsage.Some?
                               && HasTime(rows, m.firstUsage.value) && HasTime(rows, m.lastUsage.value))
            && (m.firstUsage.Some? && m.firstUsage.value.Some? ==>
                  forall r :: r in rows ==> r.timestamp.Some? && r.timestamp.value >= m.firstUsage.value.value)
            && (m.lastUsage.Some? ==>
                  forall r :: r in rows && r.timestamp.Some? ==>
                    m.lastUsage.value.Some? && r.timestamp.value <= m.lastUsage.value.value)
  {
    InsertableKeepsConversation(rs, cid);
    ReplacedRows(t.records, cid, Insertable(rs));
    hide Insertable, Without, RowsOf;
  }
}
