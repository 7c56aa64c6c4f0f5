/** What a restore's status and reason tell of the step that failed, and what verification
    accepts, in terms of the manifest's files and the entries on disk. */
module RestoreVerdicts {
  import opened Common
  import opened BrainTree
  import opened Restore

  // ---------- Statuses ----------

  /** The publication met a database that had come to stand under the target name. */
  predicate MetTarget(w: World, e: Event) {
    && e.moment == PublishDb && w.works(PublishDb)
    && "main.db" in e.before.dbStage && w.first.conversationId + ".db" in e.before.conversations
  }

  /** The status of a run that stopped tells what kind of step failed, and what it had left. */
  ghost predicate StatusTells(w: World, e: Event, status: Status) {
    && (status == UnsafeDestination <==> e.moment in {OpenConversations, OpenBrains, CheckOverlap, CheckRoots})
    && (status == Conflict <==> e.moment in {LookForDb, LookForBrain} || MetTarget(w, e))
    && (status == InvalidArchive <==> e.moment == ReopenArchive)
    && (status == VerificationFailed <==> e.moment in {VerifyStagedDb, VerifyStagedBrain})
    && (status == StagingFailed <==>
          || e.moment in {MakeDbStage, CopyDb, MakeBrainStage, CopyBrain, OpenDbStage}
          || (e.moment == PublishDb && !MetTarget(w, e)))
    && (status == PartialPublish <==>
          e.moment in {VerifyPublishedDb, CheckRootsAgain, OpenBrainStage, PublishBrain, VerifyPublishedBrain,
                       CheckRootsLast})
  }

  /** ... and its reason names the object and the step. */
  ghost predicate ReasonTells(w: World, e: Event, reason: string) {
    TellsBefore(e, reason) && TellsAfter(w, e, reason)
  }

  ghost predicate TellsBefore(e: Event, reason: string) {
    && (e.moment == OpenConversations ==> reason == "conversation_destination_unsafe")
    && (e.moment == OpenBrains ==> reason == "brain_destination_unsafe")
    && (e.moment == CheckOverlap ==> reason == "destination_overlaps_archive")
    && (e.moment == LookForDb ==> reason == "conversation_destination_exists")
    && (e.moment == LookForBrain ==> reason == "brain_destination_exists")
    && (e.moment == ReopenArchive ==> reason == "archive_changed_after_verification")
    && (e.moment in {MakeDbStage, CopyDb} ==> reason == "conversation_staging_failed")
    && (e.moment == VerifyStagedDb ==> reason == "staged_conversation_verification_failed")
    && (e.moment in {MakeBrainStage, CopyBrain} ==> reason == "brain_staging_failed")
    && (e.moment == VerifyStagedBrain ==> reason == "staged_brain_verification_failed")
  }

  ghost predicate TellsAfter(w: World, e: Event, reason: string) {
    && (MetTarget(w, e) ==> reason == "conversation_destination_exists")
    && (e.moment in {CheckRoots, CheckRootsAgain, CheckRootsLast} ==> reason == "destination_root_changed")
    && (e.moment == OpenDbStage || (e.moment == PublishDb && !MetTarget(w, e)) ==>
          reason == "conversation_publish_failed")
    && (e.moment == VerifyPublishedDb ==> reason == "published_conversation_verification_failed")
    && (e.moment in {OpenBrainStage, PublishBrain} ==> reason == "brain_publish_failed")
    && (e.moment == VerifyPublishedBrain ==> reason == "published_brain_verification_failed")
  }

  lemma FailureStatus(w: World, e: Event)
    ensures StatusTells(w, e, Failure(w, e.moment, e.before).0)
  {}

  lemma ReasonBefore(w: World, e: Event)
    ensures TellsBefore(e, Failure(w, e.moment, e.before).1)
  {}

  lemma ReasonAfter(w: World, e: Event)
    ensures TellsAfter(w, e, Failure(w, e.moment, e.before).1)
  {}

  /** Over any run: without a failed step the archive is restored, and otherwise status and
      reason are those of the step that failed. */
  lemma VerdictTells(w: World, start: Disk)
    ensures var p := Run(w, start);
            var (status, reason) := Outcome(w, p);
            if p.events != [] && !p.events[|p.events| - 1].ok then
              StatusTells(w, p.events[|p.events| - 1], status) && ReasonTells(w, p.events[|p.events| - 1], reason)
            else status == Restored && reason == ""
  {
    hide Run, StatusTells, TellsBefore, TellsAfter, Failure;
    var p := Run(w, start);
    if Stopped(p) {
      FailureStatus(w, p.events[|p.events| - 1]);
      ReasonBefore(w, p.events[|p.events| - 1]);
      ReasonAfter(w, p.events[|p.events| - 1]);
    }
  }

  // ---------- What verification accepts ----------

  /** The manifest's entry for the database. */
  ghost predicate IsMain(m: Manifest, f: ArchiveFile, i: int) {
    && 0 <= i < |m.files| && m.files[i] == f && f.path == ["conversation", "main.db"] && f.role == "sqlite_snapshot"
    && forall j :: 0 <= j < i ==> !(m.files[j].path == f.path && m.files[j].role == f.role)
  }

  lemma {:induction false} FirstFile(files: seq<ArchiveFile>, path: Path, role: string) returns (i: int)
    ensures FindFile(files, path, role).None? ==> forall f :: f in files ==> !(f.path == path && f.role == role)
    ensures FindFile(files, path, role).Some? ==>
              && 0 <= i < |files| && files[i] == FindFile(files, path, role).value
              && files[i].path == path && files[i].role == role
              && forall j :: 0 <= j < i ==> !(files[j].path == path && files[j].role == role)
  {
    i := 0;
    if files != [] && !(files[0].path == path && files[0].role == role) {
      i := FirstFile(files[1..], path, role);
      assert files == [files[0]] + files[1..];
      i := i + 1;
    }
  }

  /** A private file of the listed size and hash, which is the snapshot's, holding a sound database
      of the archive's schema, with no sidecar beside it. */
  lemma DatabaseExactly(dir: map<string, Db>, name: string, m: Manifest)
    ensures DbMatches(dir, name, m) <==>
              && (exists f, i :: IsMain(m, f, i) && f.hash == m.snapshotHash
                                 && name in dir && dir[name].file == File(384, f.size, f.hash))
              && dir[name].schema == Some((m.schema, m.schemaVersion))
              && name + "-wal" !in dir && name + "-shm" !in dir && name + "-journal" !in dir
  {
    var i := FirstFile(m.files, ["conversation", "main.db"], "sqlite_snapshot");
    hide FindFile;
    if MainFile(m).Some? { assert IsMain(m, MainFile(m).value, i); }
    forall f, k | IsMain(m, f, k)
      ensures MainFile(m) == Some(f)
    {
      assert m.files[k] in m.files;
      MainIsOne(m, f, k, m.files[i], i);
    }
  }

  lemma MainIsOne(m: Manifest, f: ArchiveFile, k: int, g: ArchiveFile, i: int)
    requires IsMain(m, f, k) && IsMain(m, g, i)
    ensures k == i && f == g
  {}

  /** The file of the manifest that stands last under that path below brain/. */
  ghost predicate LastUnder(files: seq<ArchiveFile>, p: Path, f: ArchiveFile, i: int) {
    0 <= i < |files| && files[i] == f && Below(f) == p && forall j :: i < j < |files| ==> Below(files[j]) != p
  }

  /** The path without its first component, which is brain for an accepted file. */
  function Below(f: ArchiveFile): Path { if |f.path| >= 2 && f.path[0] == "brain" then f.path[1..] else f.path }

  lemma {:induction false} WantedIsLast(files: seq<ArchiveFile>, p: Path) returns (i: int)
    ensures p in Wanted(files) <==> exists f :: f in files && Below(f) == p
    ensures p in Wanted(files) ==> LastUnder(files, p, Wanted(files)[p], i)
  {
    i := |files| - 1;
    if files != [] {
      assert files == files[..i] + [files[i]];
      if Below(files[i]) != p {
        i := WantedIsLast(files[..i], p);
      }
    }
  }

  ghost predicate MayStand(files: seq<ArchiveFile>, p: Path, e: Entry) {
    match e
    case Folder(mode) => mode == 448 && exists f :: f in files && 0 < |p| < |Below(f)| && p == Below(f)[..|p|]
    case File(mode, size, hash) =>
      mode == 384 && exists f, i :: LastUnder(files, p, f, i) && f.size == size && f.hash == hash
    case Unsafe => false
  }

  /** An accepted brain: a private folder that holds exactly the listed files, each private and of the
      listed size and hash, in private folders of which none is without a listed file. */
  ghost predicate HoldsFiles(t: Tree, files: seq<ArchiveFile>) {
    && t.root == Folder(448)
    && (forall f :: f in files ==> |f.path| >= 2 && f.path[0] == "brain")
    && (forall p :: p in t.entries ==> MayStand(files, p, t.entries[p]))
    && (forall f :: f in files ==> Below(f) in t.entries && t.entries[Below(f)].File?)
  }

  lemma EntryExactly(files: seq<ArchiveFile>, p: Path, e: Entry)
    ensures EntryMatches(files, p, e) <==> MayStand(files, p, e)
  {
    var i := WantedIsLast(files, p);
    hide Wanted;
    match e
    case Folder(mode) =>
      if MayStand(files, p, e) {
        var f :| f in files && 0 < |p| < |Below(f)| && p == Below(f)[..|p|];
        assert IsParent(p, Rel(f));
      }
      if Allowed(files, p) {
        var f :| f in files && IsParent(p, Rel(f));
        assert p == Below(f)[..|p|];
      }
    case File(mode, size, hash) =>
      if p in Wanted(files) { assert LastUnder(files, p, Wanted(files)[p], i); }
      forall f, k | LastUnder(files, p, f, k)
        ensures p in Wanted(files) && f == Wanted(files)[p]
      {
        assert files[k] in files;
        LastIsOne(files, p, f, k, files[i], i);
      }
    case Unsafe =>
  }

  lemma LastIsOne(files: seq<ArchiveFile>, p: Path, f: ArchiveFile, k: int, g: ArchiveFile, i: int)
    requires LastUnder(files, p, f, k) && LastUnder(files, p, g, i)
    ensures k == i && f == g
  {}

  lemma BrainExactly(t: Tree, files: seq<ArchiveFile>)
    ensures TreeMatches(t, files) <==> HoldsFiles(t, files)
  {
    forall p | p in t.entries
      ensures EntryMatches(files, p, t.entries[p]) <==> MayStand(files, p, t.entries[p])
    {
      EntryExactly(files, p, t.entries[p]);
    }
    hide EntryMatches, MayStand;
    FilesStand(t, files);
    hide Wanted;
  }

  lemma FilesStand(t: Tree, files: seq<ArchiveFile>)
    ensures (forall p :: p in Wanted(files) ==> p in t.entries && t.entries[p].File?) <==>
            forall f :: f in files ==> Below(f) in t.entries && t.entries[Below(f)].File?
  {
    forall p { WantedKeys(files, p); }
    hide Wanted;
    forall f | f in files
      ensures Below(f) in Wanted(files)
    {}
  }

  lemma {:induction false} BrainFilesExactly(files: seq<ArchiveFile>, f: ArchiveFile)
    ensures f in BrainFiles(files) <==> f in files && f.role == "brain"
  {
    if files != [] {
      BrainFilesExactly(files[1..], f);
      assert files == [files[0]] + files[1..];
    }
  }
}
