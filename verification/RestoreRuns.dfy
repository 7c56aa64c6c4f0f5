/** What holds after every restore, whatever others do meanwhile. */
module RestoreRuns {
  import opened Common
  import opened BrainTree
  import opened Restore

  // ---------- How far a run got ----------

  /** Steps about the brain are taken only when the manifest has one. */
  predicate OnRoute(w: World, m: Moment) {
    9 <= Rank(m) <= 11 || 16 <= Rank(m) <= 19 ==> Now(w).brainPresent
  }

  function Position(at: Option<Moment>): nat { if at.Some? then Rank(at.value) else 21 }

  ghost predicate Recorded(w: World, events: seq<Event>, m: Moment) {
    exists e :: e in events && e.moment == m && e.ok && Perform(w, m, e.before) == (e.after, true)
  }

  ghost predicate AllRecorded(w: World, events: seq<Event>, position: nat) {
    forall m :: OnRoute(w, m) && Rank(m) < position ==> Recorded(w, events, m)
  }

  function PublishedBy(w: World, position: nat): seq<Role> {
    (if position > 14 then [ConversationDb] else []) + if position > 18 && Now(w).brainPresent then [Brain] else []
  }

  /** Where a run ended: after the last step, or at the step that failed. */
  function End(p: Progress): nat { if Stopped(p) then Rank(p.events[|p.events| - 1].moment) else 21 }

  lemma RankIsInjective(m: Moment, n: Moment)
    requires Rank(m) == Rank(n)
    ensures m == n
  {}

  lemma NextIsAdjacent(w: World, m: Moment, n: Moment)
    requires OnRoute(w, m) && OnRoute(w, n)
    ensures Next(w, m).Some? ==> OnRoute(w, Next(w, m).value)
    ensures Rank(n) < Position(Next(w, m)) ==> Rank(n) <= Rank(m)
  {}

  lemma StepRecords(w: World, p: Progress, m: Moment)
    requires OnRoute(w, m) && AllRecorded(w, p.events, Rank(m)) && !Stopped(p)
    ensures var q := TakeStep(w, p, m);
            AllRecorded(w, q.events, if Stopped(q) then Rank(m) else Position(Next(w, m)))
  {
    hide Perform, Rank, Next, OnRoute, Position;
    var q := TakeStep(w, p, m);
    var e := q.events[|q.events| - 1];
    assert e in q.events && e.moment == m && Perform(w, m, e.before) == (e.after, e.ok);
    forall n | OnRoute(w, n) && Rank(n) < if Stopped(q) then Rank(m) else Position(Next(w, m))
      ensures Recorded(w, q.events, n)
    {
      NextIsAdjacent(w, m, n);
      if Rank(n) == Rank(m) {
        RankIsInjective(m, n);
      } else {
        var f :| f in p.events && f.moment == n && f.ok && Perform(w, n, f.before) == (f.after, true);
        assert f in q.events;
      }
    }
  }

  lemma StepPublishes(w: World, p: Progress, m: Moment)
    requires OnRoute(w, m) && Published(p.events) == PublishedBy(w, Rank(m)) && !Stopped(p)
    ensures var q := TakeStep(w, p, m);
            Published(q.events) == PublishedBy(w, if Stopped(q) then Rank(m) else Position(Next(w, m)))
  {
    hide Perform;
    var q := TakeStep(w, p, m);
    assert q.events[..|q.events| - 1] == p.events;
  }

  lemma {:induction false} RunProgress(w: World, p: Progress, at: Option<Moment>)
    requires !Stopped(p) && AllRecorded(w, p.events, Position(at))
             && Published(p.events) == PublishedBy(w, Position(at))
    requires at.Some? ==> OnRoute(w, at.value)
    ensures var q := Continue(w, p, at);
            AllRecorded(w, q.events, End(q)) && Published(q.events) == PublishedBy(w, End(q))
    decreases 21 - Position(at)
  {
    hide Perform, Rank, Next, OnRoute, AllRecorded, Published, PublishedBy, TakeStep;
    if at.Some? {
      StepRecords(w, p, at.value);
      StepPublishes(w, p, at.value);
      NextIsAdjacent(w, at.value, at.value);
      var q := TakeStep(w, p, at.value);
      if !Stopped(q) { RunProgress(w, q, Next(w, at.value)); }
    }
  }

  lemma RunGot(w: World, start: Disk)
    ensures var q := Run(w, start);
            AllRecorded(w, q.events, End(q)) && Published(q.events) == PublishedBy(w, End(q))
  {
    hide Continue, Perform, TakeStep;
    RunProgress(w, Progress(start, []), Some(OpenConversations));
  }

  // ---------- Published objects and statuses ----------

  /** Published is a prefix of database, brain, and the status tells whether it is empty. */
  lemma PublishedMatchesStatus(w: World, start: Disk)
    ensures var p := Run(w, start);
            && Published(p.events) <= [ConversationDb, Brain]
            && (Brain in Published(p.events) ==> Now(w).brainPresent)
            && (Outcome(w, p).0 in {Restored, PartialPublish} <==> Published(p.events) != [])
            && (Outcome(w, p).0 != RegistryFailed)
  {
    hide Continue, Perform, TakeStep, Run, AllRecorded, Published;
    var p := Run(w, start);
    RunGot(w, start);
    PublishedMatchesFailure(w, p);
  }

  lemma PublishedMatchesFailure(w: World, p: Progress)
    ensures Outcome(w, p).0 in {Restored, PartialPublish} <==> PublishedBy(w, End(p)) != []
    ensures Outcome(w, p).0 != RegistryFailed
  {}

  /** What the caller is told, when the restore reached the registry. */
  lemma ReportIsHonest(w: World, start: Disk)
    ensures var p := Run(w, start);
            var r := Finish(Published(p.events), Outcome(w, p), w.recordsRestore);
            && r.published == Published(p.events)
            && (r.published != [] ==>
              r.status in {Restored, PartialPublish, RegistryFailed} && (r.guided <==> r.status != Restored))
            && (r.status == RegistryFailed <==> r.published != [] && !w.recordsRestore)
            && (r.status == RegistryFailed ==> r.fileStatus == Some(Outcome(w, p).0))
            && (r.status == Restored ==> w.recordsRestore)
  {
    hide Continue, Perform, TakeStep, Run, Published, Outcome;
    PublishedMatchesStatus(w, start);
  }

  /** A file outcome of restored means that the database, and the brain exactly when the
      manifest has one, were published and then passed verification where they lie. */
  lemma RestoredIsVerified(w: World, start: Disk)
    requires Outcome(w, Run(w, start)).0 == Restored
    ensures var p, m := Run(w, start), Now(w);
            && Published(p.events) == [ConversationDb] + (if m.brainPresent then [Brain] else [])
            && (exists e :: e in p.events && e.moment == VerifyPublishedDb && e.ok
                            && DbMatches(e.before.conversations, DbName(w), m))
            && (m.brainPresent ==>
              exists e :: e in p.events && e.moment == VerifyPublishedBrain && e.ok
                && BrainMatches(At(e.before.brains, BrainName(w)), m))
            && (exists e :: e in p.events && e.moment == CheckRootsLast && e.ok)
  {
    hide Continue, TakeStep, Run, DbMatches, BrainMatches, Published;
    RunGot(w, start);
    var p := Run(w, start);
    assert Recorded(w, p.events, VerifyPublishedDb) && Recorded(w, p.events, CheckRootsLast);
    if Now(w).brainPresent { assert Recorded(w, p.events, VerifyPublishedBrain); }
  }

  // ---------- Nothing is replaced ----------

  function PreviousDisk(start: Disk, events: seq<Event>, i: nat): Disk
    requires i <= |events|
  {
    if i == 0 then start else events[i - 1].after
  }

  ghost predicate Follows(w: World, previous: Disk, e: Event) {
    e.before == w.others(e.moment, previous) && Perform(w, e.moment, e.before) == (e.after, e.ok)
  }

  /** Every step works on the disk the previous step left, as others changed it since. */
  ghost predicate IsHistory(w: World, start: Disk, p: Progress) {
    && (forall i :: 0 <= i < |p.events| ==> Follows(w, PreviousDisk(start, p.events, i), p.events[i]))
    && p.disk == PreviousDisk(start, p.events, |p.events|)
  }

  lemma StepKeepsHistory(w: World, start: Disk, p: Progress, m: Moment)
    requires IsHistory(w, start, p)
    ensures IsHistory(w, start, TakeStep(w, p, m))
  {
    hide Perform, Follows;
    var q, n := TakeStep(w, p, m), |p.events|;
    assert Follows(w, p.disk, q.events[n]) by { TakenStepFollows(w, p, m); }
    forall i | 0 <= i <= n
      ensures Follows(w, PreviousDisk(start, q.events, i), q.events[i])
    {
      assert PreviousDisk(start, q.events, i) == PreviousDisk(start, p.events, i);
      if i < n { assert Follows(w, PreviousDisk(start, p.events, i), p.events[i]); }
    }
  }

  lemma TakenStepFollows(w: World, p: Progress, m: Moment)
    ensures Follows(w, p.disk, TakeStep(w, p, m).events[|p.events|])
  {
    hide Perform;
  }

  lemma {:induction false} ContinueKeepsHistory(w: World, start: Disk, p: Progress, at: Option<Moment>)
    requires IsHistory(w, start, p)
    ensures IsHistory(w, start, Continue(w, p, at))
    decreases 21 - Position(at)
  {
    hide Perform, Rank, Next, IsHistory, TakeStep;
    if at.Some? && !Stopped(p) {
      StepKeepsHistory(w, start, p, at.value);
      ContinueKeepsHistory(w, start, TakeStep(w, p, at.value), Next(w, at.value));
    }
  }

  /** Every entry of either root is still there, unchanged, and only the two targets may be new. */
  ghost predicate OnlyAdds(w: World, d: Disk, e: Disk) {
    && (forall n :: n in d.conversations ==> n in e.conversations && e.conversations[n] == d.conversations[n])
    && (forall n :: n in d.brains ==> n in e.brains && e.brains[n] == d.brains[n])
    && e.conversations.Keys <= d.conversations.Keys + {DbName(w)} && e.brains.Keys <= d.brains.Keys + {BrainName(w)}
  }

  lemma PerformOnlyAdds(w: World, m: Moment, d: Disk)
    ensures OnlyAdds(w, d, Perform(w, m, d).0)
  {
    hide DbMatches, BrainMatches, SidecarsAbsent;
  }

  /** No step of a restore replaces or removes anything in the destination roots. */
  lemma NothingIsReplaced(w: World, start: Disk)
    ensures var p := Run(w, start);
            IsHistory(w, start, p) && forall i :: 0 <= i < |p.events| ==>
              OnlyAdds(w, p.events[i].before, p.events[i].after)
  {
    hide Perform, Continue, OnlyAdds, PreviousDisk;
    assert IsHistory(w, start, Progress(start, [])) by { EmptyHistory(w, start); }
    ContinueKeepsHistory(w, start, Progress(start, []), Some(OpenConversations));
    var p := Run(w, start);
    forall i | 0 <= i < |p.events|
      ensures OnlyAdds(w, p.events[i].before, p.events[i].after)
    {
      assert Follows(w, PreviousDisk(start, p.events, i), p.events[i]);
      PerformOnlyAdds(w, p.events[i].moment, p.events[i].before);
    }
  }

  lemma EmptyHistory(w: World, start: Disk)
    ensures IsHistory(w, start, Progress(start, []))
  {}

  ghost predicate Holds(d: Disk, name: string, db: Db) { name in d.conversations && d.conversations[name] == db }

  ghost predicate HoldsBrain(d: Disk, name: string, t: Tree) { name in d.brains && d.brains[name] == t }

  ghost predicate OthersKeep(w: World, name: string, db: Db) {
    forall m, d :: Holds(d, name, db) ==> Holds(w.others(m, d), name, db)
  }

  ghost predicate OthersKeepBrain(w: World, name: string, t: Tree) {
    forall m, d :: HoldsBrain(d, name, t) ==> HoldsBrain(w.others(m, d), name, t)
  }

  lemma StepSurvives(w: World, previous: Disk, e: Event)
    requires Follows(w, previous, e) && OnlyAdds(w, e.before, e.after)
    ensures forall name, db :: OthersKeep(w, name, db) && Holds(previous, name, db) ==>
              Holds(e.before, name, db) && Holds(e.after, name, db)
    ensures forall name, t :: OthersKeepBrain(w, name, t) && HoldsBrain(previous, name, t) ==>
              HoldsBrain(e.before, name, t) && HoldsBrain(e.after, name, t)
  {
    hide Perform;
  }

  /** What others leave alone, a restore leaves alone: a file of the conversation root that
      nobody else touches is the same before and after every step. */
  lemma {:induction false} FilesSurvive(w: World, start: Disk, name: string, db: Db, i: nat)
    requires Holds(start, name, db) && OthersKeep(w, name, db) && i <= |Run(w, start).events|
    ensures Holds(PreviousDisk(start, Run(w, start).events, i), name, db)
    ensures i < |Run(w, start).events| ==> Holds(Run(w, start).events[i].before, name, db)
  {
    hide Run, Holds, OthersKeep, OthersKeepBrain, Follows, OnlyAdds;
    NothingIsReplaced(w, start);
    var events := Run(w, start).events;
    if i > 0 {
      FilesSurvive(w, start, name, db, i - 1);
      StepSurvives(w, PreviousDisk(start, events, i - 1), events[i - 1]);
    }
    if i < |events| { StepSurvives(w, PreviousDisk(start, events, i), events[i]); }
  }

  /** The same for the brain root. */
  lemma {:induction false} BrainsSurvive(w: World, start: Disk, name: string, t: Tree, i: nat)
    requires HoldsBrain(start, name, t) && OthersKeepBrain(w, name, t) && i <= |Run(w, start).events|
    ensures HoldsBrain(PreviousDisk(start, Run(w, start).events, i), name, t)
    ensures i < |Run(w, start).events| ==> HoldsBrain(Run(w, start).events[i].before, name, t)
  {
    hide Run, HoldsBrain, OthersKeep, OthersKeepBrain, Follows, OnlyAdds;
    NothingIsReplaced(w, start);
    var events := Run(w, start).events;
    if i > 0 {
      BrainsSurvive(w, start, name, t, i - 1);
      StepSurvives(w, PreviousDisk(start, events, i - 1), events[i - 1]);
    }
    if i < |events| { StepSurvives(w, PreviousDisk(start, events, i), events[i]); }
  }

  /** The names that must be free for a database: its own and those of its sidecars. */
  predicate IsTarget(w: World, name: string) {
    var id := w.first.conversationId;
    name == id + ".db" || name == id + ".db-wal" || name == id + ".db-shm" || name == id + ".db-journal"
  }

  /** A file that exists under a target name and stays there is never replaced, not even by an
      equal one: nothing is published. */
  lemma ExistingDatabaseConflicts(w: World, start: Disk, name: string, db: Db)
    requires IsTarget(w, name) && Holds(start, name, db) && OthersKeep(w, name, db)
    ensures Published(Run(w, start).events) == [] && Holds(Run(w, start).disk, name, db)
    ensures Outcome(w, Run(w, start)).0 in {UnsafeDestination, Conflict}
  {
    hide Run, Published, Outcome, Perform, AllRecorded, PublishedBy, End, OthersKeep, Holds, IsHistory, OnlyAdds;
    var p := Run(w, start);
    FilesSurvive(w, start, name, db, |p.events|);
    NothingIsReplaced(w, start);
    HistoryEnds(w, start, p);
    RunGot(w, start);
    if End(p) > 3 {
      var i := FirstLook(w, p.events, End(p));
      FilesSurvive(w, start, name, db, i);
      LookingFindsIt(w, p.events[i].before, name, db);
    }
    StoppedEarly(w, p);
  }

  lemma HistoryEnds(w: World, start: Disk, p: Progress)
    requires IsHistory(w, start, p)
    ensures p.disk == PreviousDisk(start, p.events, |p.events|)
  {}

  lemma FirstLook(w: World, events: seq<Event>, position: nat) returns (i: nat)
    requires AllRecorded(w, events, position) && position > 3
    ensures i < |events| && Perform(w, LookForDb, events[i].before).1
  {
    hide Perform;
    assert Recorded(w, events, LookForDb);
    var e :| e in events && e.moment == LookForDb && e.ok && Perform(w, LookForDb, e.before) == (e.after, true);
    i :| 0 <= i < |events| && events[i] == e;
  }

  lemma LookingFindsIt(w: World, d: Disk, name: string, db: Db)
    requires IsTarget(w, name) && Holds(d, name, db)
    ensures !Perform(w, LookForDb, d).1
  {
    var id := w.first.conversationId;
    assert id + ".db" + "-wal" == id + ".db-wal" && id + ".db" + "-shm" == id + ".db-shm";
    assert id + ".db" + "-journal" == id + ".db-journal";
  }

  /** The same for a brain: one that exists under the conversation ID first read and stays
      there is kept, and nothing is published, not even the database. */
  lemma ExistingBrainConflicts(w: World, start: Disk, t: Tree)
    requires HoldsBrain(start, w.first.conversationId, t) && OthersKeepBrain(w, w.first.conversationId, t)
    ensures Published(Run(w, start).events) == [] && HoldsBrain(Run(w, start).disk, w.first.conversationId, t)
    ensures Outcome(w, Run(w, start)).0 in {UnsafeDestination, Conflict}
  {
    hide Run, Published, Outcome, Perform, AllRecorded, PublishedBy, End, OthersKeepBrain, HoldsBrain, IsHistory,
      OnlyAdds;
    var p, id := Run(w, start), w.first.conversationId;
    BrainsSurvive(w, start, id, t, |p.events|);
    NothingIsReplaced(w, start);
    HistoryEnds(w, start, p);
    RunGot(w, start);
    if End(p) > 4 {
      var i := FirstBrainLook(w, p.events, End(p));
      BrainsSurvive(w, start, id, t, i);
      LookingFindsBrain(w, p.events[i].before, t);
    }
    StoppedEarly(w, p);
  }

  lemma FirstBrainLook(w: World, events: seq<Event>, position: nat) returns (i: nat)
    requires AllRecorded(w, events, position) && position > 4
    ensures i < |events| && Perform(w, LookForBrain, events[i].before).1
  {
    hide Perform;
    assert Recorded(w, events, LookForBrain);
    var e :| e in events && e.moment == LookForBrain && e.ok
             && Perform(w, LookForBrain, e.before) == (e.after, true);
    i :| 0 <= i < |events| && events[i] == e;
  }

  lemma LookingFindsBrain(w: World, d: Disk, t: Tree)
    requires HoldsBrain(d, w.first.conversationId, t)
    ensures !Perform(w, LookForBrain, d).1
  {}

  lemma StoppedEarly(w: World, p: Progress)
    requires End(p) <= 4
    ensures Outcome(w, p).0 in {UnsafeDestination, Conflict} && PublishedBy(w, End(p)) == []
  {}

  // ---------- Only verified content is published ----------

  ghost predicate StagesAreOurs(w: World) {
    forall m, d :: w.others(m, d).dbStage == d.dbStage && w.others(m, d).brainStage == d.brainStage
  }

  ghost predicate StagesVerified(w: World, d: Disk, position: nat) {
    && (8 < position <= 14 ==> DbMatches(d.dbStage, "main.db", Now(w)))
    && (11 < position <= 18 && Now(w).brainPresent ==> BrainMatches(d.brainStage, Now(w)))
  }

  ghost predicate PublishesVerified(w: World, e: Event) {
    && (e.moment == PublishDb && e.ok ==>
      DbMatches(e.before.dbStage, "main.db", Now(w)) && Holds(e.after, DbName(w), e.before.dbStage["main.db"]))
    && (e.moment == PublishBrain && e.ok ==>
      BrainMatches(e.before.brainStage, Now(w)) && HoldsBrain(e.after, BrainName(w), e.before.brainStage.value))
  }

  lemma StepVerifies(w: World, m: Moment, d: Disk)
    requires StagesAreOurs(w) && OnRoute(w, m) && StagesVerified(w, d, Rank(m))
    ensures var before := w.others(m, d);
            var (after, ok) := Perform(w, m, before);
            PublishesVerified(w, Event(m, before, after, ok)) && (ok ==> StagesVerified(w, after, Position(Next(w, m))))
  {
    hide DbMatches, BrainMatches, SidecarsAbsent;
    var before := w.others(m, d);
    assert before.dbStage == d.dbStage && before.brainStage == d.brainStage;
    assert m == PublishDb ==> (DbMatches(d.dbStage, "main.db", Now(w)) ==> "main.db" in d.dbStage) by {
      StagedDbIsThere(d.dbStage, Now(w));
    }
  }

  lemma StagedDbIsThere(dir: map<string, Db>, m: Manifest)
    ensures DbMatches(dir, "main.db", m) ==> "main.db" in dir
  {}

  lemma {:induction false} ContinuePublishesVerified(w: World, p: Progress, at: Option<Moment>)
    requires StagesAreOurs(w) && !Stopped(p) && StagesVerified(w, p.disk, Position(at))
             && (at.Some? ==> OnRoute(w, at.value))
    requires forall e :: e in p.events ==> PublishesVerified(w, e)
    ensures forall e :: e in Continue(w, p, at).events ==> PublishesVerified(w, e)
    decreases 21 - Position(at)
  {
    hide Perform, Rank, Next, OnRoute, StagesVerified, PublishesVerified, StagesAreOurs;
    if at.Some? {
      StepVerifies(w, at.value, p.disk);
      NextIsAdjacent(w, at.value, at.value);
      var q := TakeStep(w, p, at.value);
      if !Stopped(q) { ContinuePublishesVerified(w, q, Next(w, at.value)); }
    }
  }

  /** As long as nobody else writes into the staging directories, only content that passed
      verification is ever published. */
  lemma OnlyVerifiedIsPublished(w: World, start: Disk)
    requires StagesAreOurs(w)
    ensures forall e :: e in Run(w, start).events ==> PublishesVerified(w, e)
  {
    hide Perform, Continue, PublishesVerified;
    ContinuePublishesVerified(w, Progress(start, []), Some(OpenConversations));
  }

  // ---------- A restore nobody disturbs ----------

  ghost predicate Quiet(w: World) {
    && (forall m :: w.works(m))
    && (forall m, d :: w.others(m, d) == d)
    && (forall k, t :: w.meanwhile(k, t) == t)
  }

  /** The targets are free and the archive is the one that was verified. */
  predicate CanBegin(w: World, start: Disk) {
    && DbName(w) !in start.conversations && SidecarsAbsent(start.conversations, DbName(w))
      && w.first.conversationId !in start.brains
    && w.pinned.Some? && w.pinned.value.archiveId == w.first.archiveId
      && w.pinned.value.snapshotHash == w.first.snapshotHash
  }

  function StagedDb(w: World): Db
    requires MainFile(Now(w)).Some?
  {
    Db(File(PRIVATE_FILE, MainFile(Now(w)).value.size, MainFile(Now(w)).value.hash), w.schema)
  }

  predicate DbIsSound(w: World) {
    MainFile(Now(w)).Some? && MainFile(Now(w)).value.hash == Now(w).snapshotHash
      && w.schema == Some((Now(w).schema, Now(w).schemaVersion))
  }

  /** The brain files of the manifest can lie side by side, and no other target is taken. */
  ghost predicate BrainIsSound(w: World, start: Disk) {
    Now(w).brainPresent ==> Separate(BrainFiles(Now(w).files)) && BrainName(w) !in start.brains
  }

  /** What a restore leaves when it succeeds. */
  function RestoredDisk(w: World, start: Disk): Disk
    requires DbIsSound(w) && (Now(w).brainPresent ==> StageAll(BrainFiles(Now(w).files)).Some?)
  {
    var d := start.(conversations := start.conversations[DbName(w) := StagedDb(w)], dbStage := map[]);
    if !Now(w).brainPresent then d else
      d.(brains := d.brains[BrainName(w) := Tree(Folder(PRIVATE_FOLDER), StageAll(BrainFiles(Now(w).files)).value)],
        brainStage := None)
  }

  lemma Forward(w: World, p: Progress, m: Moment) returns (q: Progress)
    requires Quiet(w) && !Stopped(p)
    ensures q.disk == Perform(w, m, p.disk).0 && Stopped(q) == !Perform(w, m, p.disk).1
    ensures Continue(w, p, Some(m)) == if Stopped(q) then q else Continue(w, q, Next(w, m))
  {
    hide Perform, Next, Rank;
    q := TakeStep(w, p, m);
  }

  lemma QuietPreflight(w: World, start: Disk) returns (p: Progress)
    requires Quiet(w)
    ensures !Stopped(p) ==> CanBegin(w, start) && p.disk == start && Run(w, start) == Continue(w, p, Some(MakeDbStage))
    ensures Stopped(p) ==> !CanBegin(w, start) && Run(w, start) == p
  {
    hide Continue, TakeStep, Stopped, Rank, Run, SidecarsAbsent;
    p := Progress(start, []);
    BeginsHere(w, start);
    p := Forward(w, p, OpenConversations);
    p := Forward(w, p, OpenBrains);
    p := Forward(w, p, CheckOverlap);
    p := Forward(w, p, LookForDb);
    if Stopped(p) { return; }
    p := Forward(w, p, LookForBrain);
    if Stopped(p) { return; }
    p := Forward(w, p, ReopenArchive);
  }

  lemma QuietDbStage(w: World, before: Progress) returns (p: Progress)
    requires Quiet(w) && !Stopped(before)
    ensures !Stopped(p) ==> DbIsSound(w) && p.disk == before.disk.(dbStage := map["main.db" := StagedDb(w)])
    ensures !Stopped(p) ==> Continue(w, before, Some(MakeDbStage)) == Continue(w, p, Next(w, VerifyStagedDb))
    ensures Stopped(p) ==> !DbIsSound(w) && Continue(w, before, Some(MakeDbStage)) == p
  {
    hide Continue, TakeStep, Stopped, Rank, MainFile;
    p := Forward(w, before, MakeDbStage);
    p := Forward(w, p, CopyDb);
    if Stopped(p) { return; }
    p := Forward(w, p, VerifyStagedDb);
  }

  lemma QuietBrainStage(w: World, before: Progress) returns (p: Progress)
    requires Quiet(w) && !Stopped(before) && forall f :: f in BrainFiles(Now(w).files) ==> InBrain(f)
    ensures var files := BrainFiles(Now(w).files);
            && (!Stopped(p) ==>
                  && StageAll(files).Some? && Separate(files) && BrainMatches(p.disk.brainStage, Now(w))
                  && p.disk == before.disk.(brainStage := Some(Tree(Folder(PRIVATE_FOLDER), StageAll(files).value)))
                  && Continue(w, before, Some(MakeBrainStage)) == Continue(w, p, Some(CheckRoots)))
            && (Stopped(p) ==> !Separate(files) && Continue(w, before, Some(MakeBrainStage)) == p)
  {
    NothingStaged(w.meanwhile);
    hide Continue, TakeStep, Stopped, Rank, TreeMatches, StageAll, StageBetween, Separate, BrainFiles;
    var files := BrainFiles(Now(w).files);
    StagingSucceedsExactly(files);
    UndisturbedStaging(files, w.meanwhile);
    p := Forward(w, before, MakeBrainStage);
    p := Forward(w, p, CopyBrain);
    if Stopped(p) { return; }
    StagedBrainVerifies(files);
    p := Forward(w, p, VerifyStagedBrain);
  }

  lemma NothingStaged(others: Meanwhile)
    ensures StageAll([]) == Some(map[]) && StageBetween([], map[], others) == Some(map[])
  {}

  lemma QuietDbPublication(w: World, before: Progress) returns (p: Progress)
    requires Quiet(w) && !Stopped(before) && DbIsSound(w)
    requires before.disk.dbStage == map["main.db" := StagedDb(w)]
    requires DbName(w) !in before.disk.conversations && SidecarsAbsent(before.disk.conversations, DbName(w))
    ensures !Stopped(p) && Continue(w, before, Some(CheckRoots)) == Continue(w, p, Next(w, VerifyPublishedDb))
    ensures p.disk ==
            before.disk.(conversations := before.disk.conversations[DbName(w) := StagedDb(w)], dbStage := map[])
  {
    hide Continue, TakeStep, Stopped, Rank, MainFile;
    p := Forward(w, before, CheckRoots);
    p := Forward(w, p, OpenDbStage);
    p := Forward(w, p, PublishDb);
    assert p.disk.dbStage == map[];
    p := Forward(w, p, VerifyPublishedDb);
  }

  lemma QuietBrainPublication(w: World, before: Progress) returns (p: Progress)
    requires Quiet(w) && !Stopped(before) && BrainMatches(before.disk.brainStage, Now(w))
    ensures Stopped(p) <==> BrainName(w) in before.disk.brains
    ensures Continue(w, before, Some(CheckRootsAgain)) == if Stopped(p) then p else Continue(w, p, Some(CheckRootsLast))
    ensures !Stopped(p) ==>
              p.disk == before.disk.(brains := before.disk.brains[BrainName(w) := before.disk.brainStage.value],
                brainStage := None)
  {
    hide Continue, TakeStep, Stopped, Rank, TreeMatches;
    p := Forward(w, before, CheckRootsAgain);
    p := Forward(w, p, OpenBrainStage);
    p := Forward(w, p, PublishBrain);
    if Stopped(p) { return; }
    p := Forward(w, p, VerifyPublishedBrain);
  }

  /** Left alone, a restore succeeds exactly when the targets are free and the archive is
      sound, and then the disk holds the database and the brain of the manifest besides
      what was there. */
  lemma UndisturbedRestore(w: World, start: Disk)
    requires Quiet(w) && forall f :: f in BrainFiles(Now(w).files) ==> InBrain(f)
    ensures !Stopped(Run(w, start)) <==> CanBegin(w, start) && DbIsSound(w) && BrainIsSound(w, start)
    ensures !Stopped(Run(w, start)) ==>
              && (Now(w).brainPresent ==> StageAll(BrainFiles(Now(w).files)).Some?)
              && Run(w, start).disk == RestoredDisk(w, start)
  {
    hide Continue, TakeStep, Stopped, Rank, Run, Perform, CanBegin, DbIsSound, TreeMatches, BrainFiles, StageAll,
      Separate, StagedDb, BrainName, Quiet, InBrain;
    var p := QuietPreflight(w, start);
    if Stopped(p) { return; }
    p := QuietDbStage(w, p);
    if Stopped(p) { return; }
    if Now(w).brainPresent {
      p := QuietBrainStage(w, p);
      if Stopped(p) { return; }
    }
    TargetsAreFree(w, start);
    p := QuietDbPublication(w, p);
    if Now(w).brainPresent {
      p := QuietBrainPublication(w, p);
      if Stopped(p) { return; }
    }
    p := QuietEnd(w, p);
  }

  lemma TargetsAreFree(w: World, start: Disk)
    requires CanBegin(w, start)
    ensures DbName(w) !in start.conversations && SidecarsAbsent(start.conversations, DbName(w))
  {}

  lemma QuietEnd(w: World, before: Progress) returns (p: Progress)
    requires Quiet(w) && !Stopped(before)
    ensures !Stopped(p) && p.disk == before.disk && Continue(w, before, Some(CheckRootsLast)) == p
  {
    p := Forward(w, before, CheckRootsLast);
  }

  // ---------- Two readings of the manifest ----------

  ghost predicate PublishedDbAs(events: seq<Event>, name: string) {
    exists e :: e in events && e.moment == PublishDb && e.ok && name !in e.before.conversations
      && name in e.after.conversations
  }

  ghost predicate PublishedBrainAs(events: seq<Event>, name: string) {
    exists e :: e in events && e.moment == PublishBrain && e.ok && name !in e.before.brains && name in e.after.brains
  }

  lemma PublicationNames(w: World, e: Event)
    requires Perform(w, e.moment, e.before) == (e.after, e.ok)
    ensures e.moment == PublishDb && e.ok ==>
              forall n :: n !in e.before.conversations && n in e.after.conversations <==> n == DbName(w)
    ensures e.moment == PublishBrain && e.ok ==> forall n :: n !in e.before.brains && n in e.after.brains <==>
              n == BrainName(w)
  {
    hide DbMatches, BrainMatches, SidecarsAbsent, DbName, BrainName;
  }

  /** The names a restored run publishes under: the database's comes from the first reading
      of the manifest, the brain's from the second. */
  lemma PublishedNames(w: World, start: Disk)
    requires Outcome(w, Run(w, start)).0 == Restored
    ensures forall n :: PublishedDbAs(Run(w, start).events, n) <==> n == DbName(w)
    ensures Now(w).brainPresent ==> forall n :: PublishedBrainAs(Run(w, start).events, n) <==> n == BrainName(w)
  {
    hide Run, Perform, DbName, BrainName, OnlyAdds, IsHistory, Outcome, Follows;
    var events := Run(w, start).events;
    RestoredRecords(w, start);
    NothingIsReplaced(w, start);
    forall e | e in events
      ensures e.moment == PublishDb && e.ok ==>
                forall n :: n !in e.before.conversations && n in e.after.conversations <==> n == DbName(w)
      ensures e.moment == PublishBrain && e.ok ==> forall n :: n !in e.before.brains && n in e.after.brains <==>
                n == BrainName(w)
    {
      EventPerforms(w, start, e);
      PublicationNames(w, e);
    }
  }

  lemma EventPerforms(w: World, start: Disk, e: Event)
    requires IsHistory(w, start, Run(w, start)) && e in Run(w, start).events
    ensures Perform(w, e.moment, e.before) == (e.after, e.ok)
  {
    hide Run, Perform;
    var events := Run(w, start).events;
    var i :| 0 <= i < |events| && events[i] == e;
    assert Follows(w, PreviousDisk(start, events, i), events[i]);
  }

  lemma RestoredRecords(w: World, start: Disk)
    requires Outcome(w, Run(w, start)).0 == Restored
    ensures exists e :: e in Run(w, start).events && e.moment == PublishDb && e.ok
    ensures Now(w).brainPresent ==> exists e :: e in Run(w, start).events && e.moment == PublishBrain && e.ok
  {
    hide Run, Perform;
    RunGot(w, start);
    assert Recorded(w, Run(w, start).events, PublishDb);
    if Now(w).brainPresent { assert Recorded(w, Run(w, start).events, PublishBrain); }
  }

  /** The database and the brain are meant for one conversation, but the second reading of
      the manifest is only compared by archive ID and snapshot hash: a restored run with a
      brain puts them under one conversation ID if and only if both readings give the same. */
  lemma TargetsAgreeExactly(w: World, start: Disk)
    requires Outcome(w, Run(w, start)).0 == Restored && Now(w).brainPresent
    ensures (exists id ::
               PublishedDbAs(Run(w, start).events, id + ".db") && PublishedBrainAs(Run(w, start).events, id)) <==>
            w.first.conversationId == Now(w).conversationId
  {
    PublishedNames(w, start);
    hide Run, PublishedDbAs, PublishedBrainAs, Outcome;
    forall id
      ensures id + ".db" == DbName(w) <==> id == w.first.conversationId
    {
      assert (id + ".db")[..|id|] == id && DbName(w)[..|w.first.conversationId|] == w.first.conversationId;
    }
    var id := w.first.conversationId;
    assert PublishedDbAs(Run(w, start).events, id + ".db");
    assert PublishedBrainAs(Run(w, start).events, BrainName(w));
  }

  lemma SecondReading(w: World, start: Disk)
    requires Outcome(w, Run(w, start)).0 == Restored
    ensures w.pinned.Some? && w.pinned.value.archiveId == w.first.archiveId
            && w.pinned.value.snapshotHash == w.first.snapshotHash
  {
    hide Run;
    RunGot(w, start);
    assert Recorded(w, Run(w, start).events, ReopenArchive);
  }

  // ---------- Such a restore can succeed ----------

  predicate IsLowerHex(s: string, n: nat) {
    |s| == n && forall c :: c in s ==> '0' <= c <= '9' || 'a' <= c <= 'f'
  }

  predicate IsConversationId(s: string) {
    0 < |s| <= 128 && forall c :: c in s ==>
      'a' <= c <= 'z' || 'A' <= c <= 'Z' || '0' <= c <= '9' || c == '-' || c == '_'
  }

  /** What the verification of an archive demands of the parts of its manifest used here. */
  predicate Accepted(m: Manifest) {
    && IsLowerHex(m.archiveId, 32) && IsConversationId(m.conversationId) && IsLowerHex(m.snapshotHash, 64)
    && (forall f :: f in m.files ==> IsLowerHex(f.hash, 64) && (f.role == "brain" ==> InBrain(f) && m.brainPresent))
    && (forall i, j :: 0 <= i < j < |m.files| ==> m.files[i].path != m.files[j].path)
    && MainFile(m).Some? && MainFile(m).value.hash == m.snapshotHash
  }

  /** The only schemas, with their versions, that the inspection of a snapshot accepts. */
  predicate Recognised(schema: (string, int)) {
    schema == ("tokei_fixture_v1", 0) || schema == ("agy_production_v1", 1)
  }

  lemma {:induction false} BrainFilesAre(files: seq<ArchiveFile>)
    ensures forall f :: f in BrainFiles(files) ==> f in files && f.role == "brain"
  {
    if files != [] {
      BrainFilesAre(files[1..]);
      assert files == [files[0]] + files[1..];
    }
  }

  /** The brain files of an accepted manifest all lie below brain/. */
  lemma AcceptedBrain(m: Manifest)
    requires Accepted(m)
    ensures forall f :: f in BrainFiles(m.files) ==> InBrain(f)
  {
    hide InBrain, MainFile;
    BrainFilesAre(m.files);
  }

  function Repeat(c: char, n: nat): string { seq(n, i => c) }

  function SampleFiles(): seq<ArchiveFile> {
    [ArchiveFile(["conversation", "main.db"], 4096, Repeat('a', 64), "sqlite_snapshot"),
     ArchiveFile(["brain", "notes.md"], 1, Repeat('b', 64), "brain")]
  }

  function SampleManifest(conversationId: string): Manifest {
    Manifest(Repeat('0', 32), conversationId, Repeat('a', 64), "agy_production_v1", 1, true, SampleFiles())
  }

  lemma SampleIsAccepted(id: string)
    requires IsConversationId(id)
    ensures var m := SampleManifest(id);
            && Accepted(m) && BrainFiles(m.files) == [m.files[1]] && Separate(BrainFiles(m.files))
            && MainFile(m) == Some(m.files[0])
  {
    var files := SampleFiles();
    assert files[1..] == [files[1]] && [files[1]][1..] == [];
    assert "brain" != "conversation";
    assert files[0].path[0] != files[1].path[0];
  }

  function SampleWorld(): World {
    World(true, SampleManifest("a"), true, true, true, Some(SampleManifest("b")), Some(("agy_production_v1", 1)),
      m => true,
      (m, d) => d, (k, t) => t)
  }

  const NOTHING_THERE := Disk(map[], map[], map[], None)

  lemma SampleIsReady(w: World)
    requires w.first == SampleManifest("a") && w.pinned == Some(SampleManifest("b"))
             && w.schema == Some(("agy_production_v1", 1))
    ensures CanBegin(w, NOTHING_THERE) && DbIsSound(w) && BrainIsSound(w, NOTHING_THERE)
  {
    SampleIsAccepted("b");
    hide SampleFiles, MainFile, BrainFiles, Accepted;
  }

  lemma SampleIsRestored(w: World)
    requires w == SampleWorld()
    ensures Outcome(w, Run(w, NOTHING_THERE)).0 == Restored
  {
    SampleIsAccepted("b");
    AcceptedBrain(SampleManifest("b"));
    SampleIsReady(w);
    hide Run, Perform, Continue, Accepted, BrainFiles, SampleManifest, CanBegin, DbIsSound, BrainIsSound;
    UndisturbedRestore(w, NOTHING_THERE);
  }

  /** Two accepted manifests of one archive ID and snapshot under different conversation IDs,
      each with a brain file: the restore succeeds and the targets part. */
  lemma TargetsMayDisagree()
    ensures exists w: World, start: Disk ::
              && Accepted(w.first) && w.pinned.Some? && Accepted(w.pinned.value)
              && BrainFiles(w.pinned.value.files) != [] && w.schema.Some? && Recognised(w.schema.value)
              && Outcome(w, Run(w, start)).0 == Restored
              && !exists id ::
                   PublishedDbAs(Run(w, start).events, id + ".db") && PublishedBrainAs(Run(w, start).events, id)
  {
    var w := SampleWorld();
    SampleIsAccepted("a");
    SampleIsAccepted("b");
    SampleIsRestored(w);
    hide Run, Outcome, Accepted, BrainFiles, PublishedDbAs, PublishedBrainAs, SampleFiles;
    TargetsAgreeExactly(w, NOTHING_THERE);
    assert Outcome(w, Run(w, NOTHING_THERE)).0 == Restored;
  }
}
