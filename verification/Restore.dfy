/** Restoring an archived conversation: staged, verified, and published without replacing.
    Other programs may change the directories before every step, and every call may fail. */
module Restore {
  import opened Common
  import opened BrainTree

  datatype Manifest = Manifest(
    archiveId: string, conversationId: string, snapshotHash: string, schema: string, schemaVersion: int,
    brainPresent: bool, files: seq<ArchiveFile>)

  datatype Status =
    | Restored | Conflict | InvalidArchive | UnsafeDestination
    | StagingFailed | VerificationFailed | PartialPublish | RegistryFailed

  datatype Role = ConversationDb | Brain

  datatype RestoreResult = RestoreResult(
    status: Status, fileStatus: Option<Status>, reason: string, published: seq<Role>, guided: bool)

  /** A file beside a conversation database, with the schema it holds when it is a sound database. */
  datatype Db = Db(file: Entry, schema: Option<(string, int)>)

  /** The two destination roots, and apart from them the private staging directories that
      are made inside them and removed afterwards. */
  datatype Disk = Disk(
    conversations: map<string, Db>, brains: map<string, Tree>, dbStage: map<string, Db>, brainStage: Option<Tree>)

  datatype Moment =
    | OpenConversations | OpenBrains | CheckOverlap | LookForDb | LookForBrain | ReopenArchive
    | MakeDbStage | CopyDb | VerifyStagedDb | MakeBrainStage | CopyBrain | VerifyStagedBrain
    | CheckRoots | OpenDbStage | PublishDb | VerifyPublishedDb
    | CheckRootsAgain | OpenBrainStage | PublishBrain | VerifyPublishedBrain | CheckRootsLast

  /** What one restore meets: the manifest as first verified and as read again through the
      pinned directory, the schema inside the archived database, which calls work, and
      what others do to the disk just before each step and to the staged brain just before
      each file is copied. */
  datatype World = World(
    valid: bool, first: Manifest, registry: bool, recordsVerification: bool, recordsRestore: bool,
    pinned: Option<Manifest>, schema: Option<(string, int)>,
    works: Moment -> bool, others: (Moment, Disk) -> Disk, meanwhile: Meanwhile)

  function Now(w: World): Manifest { if w.pinned.Some? then w.pinned.value else w.first }

  /** The database is named by the first reading of the manifest, the brain by the second. */
  function DbName(w: World): string { w.first.conversationId + ".db" }

  function BrainName(w: World): string { Now(w).conversationId }

  function FindFile(files: seq<ArchiveFile>, path: Path, role: string): Option<ArchiveFile> {
    if files == [] then None
    else if files[0].path == path && files[0].role == role then Some(files[0])
    else FindFile(files[1..], path, role)
  }

  function MainFile(m: Manifest): Option<ArchiveFile> {
    FindFile(m.files, ["conversation", "main.db"], "sqlite_snapshot")
  }

  function BrainFiles(files: seq<ArchiveFile>): seq<ArchiveFile> {
    if files == [] then [] else (if files[0].role == "brain" then [files[0]] else []) + BrainFiles(files[1..])
  }

  predicate SidecarsAbsent(dir: map<string, Db>, name: string) {
    name + "-wal" !in dir && name + "-shm" !in dir && name + "-journal" !in dir
  }

  /** verifyStagedDB */
  predicate DbMatches(dir: map<string, Db>, name: string, m: Manifest) {
    var main := MainFile(m);
    && main.Some? && name in dir && SidecarsAbsent(dir, name)
    && dir[name] == Db(File(PRIVATE_FILE, main.value.size, main.value.hash), Some((m.schema, m.schemaVersion)))
    && main.value.hash == m.snapshotHash
  }

  predicate BrainMatches(t: Option<Tree>, m: Manifest) { t.Some? && TreeMatches(t.value, BrainFiles(m.files)) }

  function At(brains: map<string, Tree>, name: string): Option<Tree> {
    if name in brains then Some(brains[name]) else None
  }

  // ---------- One step ----------

  /** What a step does to the disk and whether it succeeds. The two renames refuse a
      target that exists. */
  function Perform(w: World, m: Moment, d: Disk): (Disk, bool) {
    if !w.works(m) then (d, false) else
      match m
      case LookForDb => (d, DbName(w) !in d.conversations && SidecarsAbsent(d.conversations, DbName(w)))
      case LookForBrain => (d, w.first.conversationId !in d.brains)
      case ReopenArchive =>
        (d, w.pinned.Some? && w.pinned.value.archiveId == w.first.archiveId
          && w.pinned.value.snapshotHash == w.first.snapshotHash)
      case MakeDbStage => (d.(dbStage := map[]), true)
      case CopyDb =>
        var main := MainFile(Now(w));
        if main.None? || "main.db" in d.dbStage then (d, false)
        else (d.(dbStage := d.dbStage["main.db" := Db(File(PRIVATE_FILE, main.value.size, main.value.hash), w.schema)]),
          true)
      case VerifyStagedDb => (d, DbMatches(d.dbStage, "main.db", Now(w)))
      case MakeBrainStage => (d.(brainStage := Some(Tree(Folder(PRIVATE_FOLDER), map[]))), true)
      case CopyBrain =>
        var files := BrainFiles(Now(w).files);
        var t := if d.brainStage.Some? then d.brainStage.value else Tree(Folder(PRIVATE_FOLDER), map[]);
        var staged := if t.root.Folder? then StageBetween(files, t.entries, w.meanwhile) else None;
        if files == [] then (d, true)
        else if staged.None? then (d, false)
        else (d.(brainStage := Some(t.(entries := staged.value))), true)
      case VerifyStagedBrain => (d, BrainMatches(d.brainStage, Now(w)))
      case PublishDb =>
        if "main.db" !in d.dbStage || DbName(w) in d.conversations then (d, false)
        else (d.(conversations := d.conversations[DbName(w) := d.dbStage["main.db"]],
          dbStage := d.dbStage - {"main.db"}), true)
      case VerifyPublishedDb => (d, DbMatches(d.conversations, DbName(w), Now(w)))
      case PublishBrain =>
        if d.brainStage.None? || BrainName(w) in d.brains then (d, false)
        else (d.(brains := d.brains[BrainName(w) := d.brainStage.value], brainStage := None), true)
      case VerifyPublishedBrain => (d, BrainMatches(At(d.brains, BrainName(w)), Now(w)))
      case _ => (d, true)
  }

  datatype Event = Event(moment: Moment, before: Disk, after: Disk, ok: bool)

  datatype Progress = Progress(disk: Disk, events: seq<Event>)

  predicate Stopped(p: Progress) { p.events != [] && !p.events[|p.events| - 1].ok }

  function TakeStep(w: World, p: Progress, m: Moment): (q: Progress)
    ensures q.events == p.events + [Event(m, w.others(m, p.disk), q.disk, Perform(w, m, w.others(m, p.disk)).1)]
  {
    var before := w.others(m, p.disk);
    var (after, ok) := Perform(w, m, before);
    Progress(after, p.events + [Event(m, before, after, ok)])
  }

  // ---------- The order of the steps ----------

  function Rank(m: Moment): (r: nat)
    ensures r < 21
  {
    match m
    case OpenConversations => 0 case OpenBrains => 1 case CheckOverlap => 2 case LookForDb => 3 case LookForBrain => 4
    case ReopenArchive => 5 case MakeDbStage => 6 case CopyDb => 7 case VerifyStagedDb => 8 case MakeBrainStage => 9
    case CopyBrain => 10 case VerifyStagedBrain => 11 case CheckRoots => 12 case OpenDbStage => 13 case PublishDb => 14
    case VerifyPublishedDb => 15 case CheckRootsAgain => 16 case OpenBrainStage => 17 case PublishBrain => 18
    case VerifyPublishedBrain => 19 case CheckRootsLast => 20
  }

  function Next(w: World, m: Moment): (n: Option<Moment>)
    ensures n.Some? ==> Rank(m) < Rank(n.value)
  {
    match m
    case OpenConversations => Some(OpenBrains)
    case OpenBrains => Some(CheckOverlap)
    case CheckOverlap => Some(LookForDb)
    case LookForDb => Some(LookForBrain)
    case LookForBrain => Some(ReopenArchive)
    case ReopenArchive => Some(MakeDbStage)
    case MakeDbStage => Some(CopyDb)
    case CopyDb => Some(VerifyStagedDb)
    case VerifyStagedDb => Some(if Now(w).brainPresent then MakeBrainStage else CheckRoots)
    case MakeBrainStage => Some(CopyBrain)
    case CopyBrain => Some(VerifyStagedBrain)
    case VerifyStagedBrain => Some(CheckRoots)
    case CheckRoots => Some(OpenDbStage)
    case OpenDbStage => Some(PublishDb)
    case PublishDb => Some(VerifyPublishedDb)
    case VerifyPublishedDb => Some(if Now(w).brainPresent then CheckRootsAgain else CheckRootsLast)
    case CheckRootsAgain => Some(OpenBrainStage)
    case OpenBrainStage => Some(PublishBrain)
    case PublishBrain => Some(VerifyPublishedBrain)
    case VerifyPublishedBrain => Some(CheckRootsLast)
    case CheckRootsLast => None
  }

  /** Steps are taken in order until one fails. */
  function Continue(w: World, p: Progress, at: Option<Moment>): Progress
    decreases if at.Some? then 21 - Rank(at.value) else 0
  {
    if at.None? || Stopped(p) then p else Continue(w, TakeStep(w, p, at.value), Next(w, at.value))
  }

  function Run(w: World, start: Disk): Progress { Continue(w, Progress(start, []), Some(OpenConversations)) }

  function Published(events: seq<Event>): seq<Role> {
    if events == [] then [] else
      var e := events[|events| - 1];
      Published(events[..|events| - 1]) + if e.ok then RoleOf(e.moment) else []
  }

  function RoleOf(m: Moment): seq<Role> {
    if m == PublishDb then [ConversationDb] else if m == PublishBrain then [Brain] else []
  }

  /** The status and the reason of a run that stopped at a step. */
  function Failure(w: World, m: Moment, seen: Disk): (Status, string) {
    match m
    case OpenConversations => (UnsafeDestination, "conversation_destination_unsafe")
    case OpenBrains => (UnsafeDestination, "brain_destination_unsafe")
    case CheckOverlap => (UnsafeDestination, "destination_overlaps_archive")
    case LookForDb => (Conflict, "conversation_destination_exists")
    case LookForBrain => (Conflict, "brain_destination_exists")
    case ReopenArchive => (InvalidArchive, "archive_changed_after_verification")
    case MakeDbStage => (StagingFailed, "conversation_staging_failed")
    case CopyDb => (StagingFailed, "conversation_staging_failed")
    case VerifyStagedDb => (VerificationFailed, "staged_conversation_verification_failed")
    case MakeBrainStage => (StagingFailed, "brain_staging_failed")
    case CopyBrain => (StagingFailed, "brain_staging_failed")
    case VerifyStagedBrain => (VerificationFailed, "staged_brain_verification_failed")
    case CheckRoots => (UnsafeDestination, "destination_root_changed")
    case OpenDbStage => (StagingFailed, "conversation_publish_failed")
    case PublishDb =>
      if w.works(PublishDb) && "main.db" in seen.dbStage
        && DbName(w) in seen.conversations then (Conflict, "conversation_destination_exists")
      else (StagingFailed, "conversation_publish_failed")
    case VerifyPublishedDb => (PartialPublish, "published_conversation_verification_failed")
    case CheckRootsAgain => (PartialPublish, "destination_root_changed")
    case OpenBrainStage => (PartialPublish, "brain_publish_failed")
    case PublishBrain => (PartialPublish, "brain_publish_failed")
    case VerifyPublishedBrain => (PartialPublish, "published_brain_verification_failed")
    case CheckRootsLast => (PartialPublish, "destination_root_changed")
  }

  function Outcome(w: World, p: Progress): (Status, string) {
    if Stopped(p) then Failure(w, p.events[|p.events| - 1].moment, p.events[|p.events| - 1].before) else (Restored, "")
  }

  /** The finish closure: a registry that cannot record the outcome takes over the status
      only when there is something on disk to reconcile. */
  function Finish(published: seq<Role>, outcome: (Status, string), recorded: bool): RestoreResult {
    var (status, reason) := outcome;
    if !recorded && (|published| > 0 || status == Restored) then
      RestoreResult(RegistryFailed, Some(status), "restore_registry_update_failed", published, true)
    else RestoreResult(status, None, reason, published, status == PartialPublish)
  }

  // ---------- Restore ----------

  method Attempt(w: World, m: Moment, p: Progress) returns (q: Progress, ok: bool)
    requires !Stopped(p)
    ensures ok == !Stopped(q)
    ensures Continue(w, p, Some(m)) == if ok then Continue(w, q, Next(w, m)) else q
    ensures Published(q.events) == Published(p.events) + if ok then RoleOf(m) else []
    ensures !ok ==> Outcome(w, q) == Failure(w, m, w.others(m, p.disk))
  {
    hide Perform, Next, Rank, RoleOf, Failure;
    q := TakeStep(w, p, m);
    ok := !Stopped(q);
    assert q.events[..|q.events| - 1] == p.events;
  }

  lemma BeginsHere(w: World, start: Disk)
    ensures var p := Progress(start, []);
            !Stopped(p) && Published(p.events) == [] && Run(w, start) == Continue(w, p, Some(OpenConversations))
  {
    hide Continue;
  }

  /** Everything before the first staging directory. */
  method Preflight(w: World, start: Disk) returns (p: Progress, failure: Option<(Status, string)>)
    ensures Run(w, start) == if failure.None? then Continue(w, p, Some(MakeDbStage)) else p
    ensures failure.Some? == Stopped(p) && (failure.Some? ==> failure.value == Outcome(w, p))
            && Published(p.events) == []
  {
    hide Perform, TakeStep, Continue, Rank, Outcome, Published, Stopped, Run;
    var ok;
    p := Progress(start, []);
    BeginsHere(w, start);
    p, ok := Attempt(w, OpenConversations, p);
    if !ok { return p, Some((UnsafeDestination, "conversation_destination_unsafe")); }
    p, ok := Attempt(w, OpenBrains, p);
    if !ok { return p, Some((UnsafeDestination, "brain_destination_unsafe")); }
    p, ok := Attempt(w, CheckOverlap, p);
    if !ok { return p, Some((UnsafeDestination, "destination_overlaps_archive")); }
    p, ok := Attempt(w, LookForDb, p);
    if !ok { return p, Some((Conflict, "conversation_destination_exists")); }
    p, ok := Attempt(w, LookForBrain, p);
    if !ok { return p, Some((Conflict, "brain_destination_exists")); }
    p, ok := Attempt(w, ReopenArchive, p);
    if !ok { return p, Some((InvalidArchive, "archive_changed_after_verification")); }
    failure := None;
  }

  /** Copying into the staging directories and verifying the copies. */
  method Stage(w: World, before: Progress) returns (p: Progress, failure: Option<(Status, string)>)
    requires !Stopped(before)
    ensures Continue(w, before, Some(MakeDbStage)) == if failure.None? then Continue(w, p, Some(CheckRoots)) else p
    ensures failure.Some? == Stopped(p) && (failure.Some? ==> failure.value == Outcome(w, p))
            && Published(p.events) == Published(before.events)
  {
    hide Perform, TakeStep, Continue, Rank, Outcome, Published, Stopped, Now;
    var ok;
    p, ok := Attempt(w, MakeDbStage, before);
    if !ok { return p, Some((StagingFailed, "conversation_staging_failed")); }
    p, ok := Attempt(w, CopyDb, p);
    if !ok { return p, Some((StagingFailed, "conversation_staging_failed")); }
    p, ok := Attempt(w, VerifyStagedDb, p);
    if !ok { return p, Some((VerificationFailed, "staged_conversation_verification_failed")); }
    if Now(w).brainPresent {
      p, ok := Attempt(w, MakeBrainStage, p);
      if !ok { return p, Some((StagingFailed, "brain_staging_failed")); }
      p, ok := Attempt(w, CopyBrain, p);
      if !ok { return p, Some((StagingFailed, "brain_staging_failed")); }
      p, ok := Attempt(w, VerifyStagedBrain, p);
      if !ok { return p, Some((VerificationFailed, "staged_brain_verification_failed")); }
    }
    failure := None;
  }

  /** Publishing the database. */
  method PublishDatabase(w: World, before: Progress)
    returns (p: Progress, published: seq<Role>, failure: Option<(Status, string)>)
    requires !Stopped(before) && Published(before.events) == []
    ensures Continue(w, before, Some(CheckRoots)) ==
              if failure.None? then
                Continue(w, p, Some(if Now(w).brainPresent then CheckRootsAgain else CheckRootsLast)) else p
    ensures failure.Some? == Stopped(p) && (failure.Some? ==> failure.value == Outcome(w, p))
            && published == Published(p.events)
  {
    hide Perform, TakeStep, Continue, Rank, Outcome, Published, Stopped, Now;
    var ok;
    published := [];
    p, ok := Attempt(w, CheckRoots, before);
    if !ok { return p, published, Some((UnsafeDestination, "destination_root_changed")); }
    p, ok := Attempt(w, OpenDbStage, p);
    if !ok { return p, published, Some((StagingFailed, "conversation_publish_failed")); }
    var seen := w.others(PublishDb, p.disk);
    p, ok := Attempt(w, PublishDb, p);
    if !ok {
      if w.works(PublishDb) && "main.db" in seen.dbStage && DbName(w) in seen.conversations {
        return p, published, Some((Conflict, "conversation_destination_exists"));
      }
      return p, published, Some((StagingFailed, "conversation_publish_failed"));
    }
    published := published + [ConversationDb];
    p, ok := Attempt(w, VerifyPublishedDb, p);
    if !ok { return p, published, Some((PartialPublish, "published_conversation_verification_failed")); }
    failure := None;
  }

  /** Publishing the brain. */
  method PublishBrainTree(w: World, before: Progress, publishedBefore: seq<Role>)
    returns (p: Progress, published: seq<Role>, failure: Option<(Status, string)>)
    requires !Stopped(before) && publishedBefore == Published(before.events)
    ensures Continue(w, before, Some(CheckRootsAgain)) == if failure.None? then Continue(w, p, Some(CheckRootsLast))
            else p
    ensures failure.Some? == Stopped(p) && (failure.Some? ==> failure.value == Outcome(w, p))
            && published == Published(p.events)
  {
    hide Perform, TakeStep, Continue, Rank, Outcome, Published, Stopped, Now;
    var ok;
    published := publishedBefore;
    p, ok := Attempt(w, CheckRootsAgain, before);
    if !ok { return p, published, Some((PartialPublish, "destination_root_changed")); }
    p, ok := Attempt(w, OpenBrainStage, p);
    if !ok { return p, published, Some((PartialPublish, "brain_publish_failed")); }
    p, ok := Attempt(w, PublishBrain, p);
    if !ok { return p, published, Some((PartialPublish, "brain_publish_failed")); }
    published := published + [Brain];
    p, ok := Attempt(w, VerifyPublishedBrain, p);
    if !ok { return p, published, Some((PartialPublish, "published_brain_verification_failed")); }
    failure := None;
  }

  /** The last look at the roots. */
  method Conclude(w: World, before: Progress) returns (p: Progress, outcome: (Status, string))
    requires !Stopped(before)
    ensures p == Continue(w, before, Some(CheckRootsLast)) && outcome == Outcome(w, p)
            && Published(p.events) == Published(before.events)
  {
    hide Perform, TakeStep, Continue, Rank, Outcome, Published, Stopped, Now;
    var ok;
    p, ok := Attempt(w, CheckRootsLast, before);
    if !ok { return p, (PartialPublish, "destination_root_changed"); }
    EndsHere(w, p);
    outcome := (Restored, "");
  }

  lemma EndsHere(w: World, p: Progress)
    requires !Stopped(p)
    ensures Continue(w, p, None) == p && Outcome(w, p) == (Restored, "")
  {}

  /** Restore: the result, the disk it leaves, and the steps it took. */
  method Restore(w: World, start: Disk) returns (r: RestoreResult, disk: Disk, events: seq<Event>)
    ensures !w.valid ==> r.status == InvalidArchive && r.published == [] && disk == start && events == []
    ensures w.valid && !(w.registry && w.recordsVerification) ==>
              r.status == RegistryFailed && r.published == [] && disk == start && events == []
    ensures w.valid && w.registry && w.recordsVerification ==>
              var p := Run(w, start);
              disk == p.disk && events == p.events && r == Finish(Published(events), Outcome(w, p), w.recordsRestore)
  {
    hide *;
    if !w.valid { return RestoreResult(InvalidArchive, None, "archive_verification", [], false), start, []; }
    if !w.registry { return RestoreResult(RegistryFailed, None, "restore_registry_unavailable", [], false), start, []; }
    if !w.recordsVerification {
      return RestoreResult(RegistryFailed, None, "restore_registry_update_failed", [], false), start, [];
    }
    var published, outcome := [], (Restored, "");
    var p, failure := Preflight(w, start);
    if failure.None? { p, failure := Stage(w, p); }
    if failure.None? { p, published, failure := PublishDatabase(w, p); }
    if failure.None? && Now(w).brainPresent { p, published, failure := PublishBrainTree(w, p, published); }
    if failure.None? {
      p, outcome := Conclude(w, p);
    } else {
      outcome := failure.value;
    }
    r, disk, events := Finish(published, outcome, w.recordsRestore), p.disk, p.events;
  }
}
