/** The brain directory of an archive: staging it file by file, and verifying a
    directory tree against the files of a manifest. */
module BrainTree {
  import opened Common

  /** The components of a clean relative path. */
  type Path = seq<string>

  const PRIVATE_FILE: nat := 384   // 0600
  const PRIVATE_FOLDER: nat := 448 // 0700

  /** Unsafe stands for links, special files and files that cannot be read undisturbed. */
  datatype Entry = Folder(mode: nat) | File(mode: nat, size: nat, hash: string) | Unsafe

  datatype Tree = Tree(root: Entry, entries: map<Path, Entry>)

  datatype ArchiveFile = ArchiveFile(path: Path, size: nat, hash: string, role: string)

  predicate InBrain(f: ArchiveFile) { |f.path| >= 2 && f.path[0] == "brain" }

  /** The path without its leading brain/, or the path itself when it has none. */
  function Rel(f: ArchiveFile): Path { if InBrain(f) then f.path[1..] else f.path }

  predicate IsParent(dir: Path, path: Path) { 0 < |dir| < |path| && dir <= path }

  function Parents(path: Path): set<Path> { set k | 0 < k < |path| :: path[..k] }

  // ---------- What the manifest asks for ----------

  function Wanted(files: seq<ArchiveFile>): map<Path, ArchiveFile> {
    if files == [] then map[] else Wanted(files[..|files| - 1])[Rel(files[|files| - 1]) := files[|files| - 1]]
  }

  predicate Allowed(files: seq<ArchiveFile>, dir: Path) { exists f :: f in files && IsParent(dir, Rel(f)) }

  predicate EntryMatches(files: seq<ArchiveFile>, path: Path, e: Entry) {
    match e
    case Folder(mode) => mode == PRIVATE_FOLDER && Allowed(files, path)
    case File(mode, size, hash) =>
      var want := Wanted(files);
      path in want && mode == PRIVATE_FILE && size == want[path].size && hash == want[path].hash
    case Unsafe => false
  }

  /** The tree holds the files of the manifest, the folders they need, and nothing else. */
  predicate TreeMatches(t: Tree, files: seq<ArchiveFile>) {
    && (forall f :: f in files ==> InBrain(f))
    && t.root == Folder(PRIVATE_FOLDER)
    && (forall p :: p in t.entries ==> EntryMatches(files, p, t.entries[p]))
    && (forall p :: p in Wanted(files) ==> p in t.entries && t.entries[p].File?)
  }

  /** Every parent of an entry is a folder of the tree. */
  ghost predicate IsTree(t: map<Path, Entry>) {
    forall p, d :: p in t && IsParent(d, p) ==> d in t && t[d].Folder?
  }

  // ---------- Verification of a tree ----------

  lemma {:induction false} WantedKeys(files: seq<ArchiveFile>, p: Path)
    ensures p in Wanted(files) <==> exists f :: f in files && Rel(f) == p
  {
    if files != [] {
      WantedKeys(files[..|files| - 1], p);
      assert files == files[..|files| - 1] + [files[|files| - 1]];
    }
  }

  ghost function ParentsFrom(path: Path, n: nat): set<Path> { set k | n < k < |path| :: path[..k] }

  /** The folders above a path, from the nearest up. */
  method AddParents(path: Path, dirs: set<Path>) returns (all: set<Path>)
    requires path != []
    ensures all == dirs + Parents(path)
  {
    all := dirs;
    var dir := path[..|path| - 1];
    while dir != []
      invariant |dir| < |path| && dir == path[..|dir|]
      invariant all == dirs + ParentsFrom(path, |dir|)
      decreases |dir|
    {
      assert ParentsFrom(path, |dir| - 1) == ParentsFrom(path, |dir|) + {dir};
      all := all + {dir};
      dir := dir[..|dir| - 1];
    }
    assert ParentsFrom(path, 0) == Parents(path);
  }

  lemma AllowedSnoc(files: seq<ArchiveFile>, f: ArchiveFile, dir: Path)
    ensures Allowed(files + [f], dir) <==> Allowed(files, dir) || dir in Parents(Rel(f))
  {
    hide Rel, Parents, IsParent;
    ParentsMeaning(Rel(f), dir);
    if Allowed(files, dir) {
      var g :| g in files && IsParent(dir, Rel(g));
      assert g in files + [f];
    }
    if dir in Parents(Rel(f)) { assert f in files + [f]; }
  }

  /** The wanted files and the folders they may need. */
  method Expect(files: seq<ArchiveFile>) returns (ok: bool, want: map<Path, ArchiveFile>, allowed: set<Path>)
    ensures ok <==> forall f :: f in files ==> InBrain(f)
    ensures ok ==> want == Wanted(files) && forall d :: d in allowed <==> Allowed(files, d)
  {
    hide Allowed, Parents, IsParent;
    want, allowed := map[], {};
    NothingAllowed();
    for i := 0 to |files|
      invariant forall f :: f in files[..i] ==> InBrain(f)
      invariant want == Wanted(files[..i])
      invariant forall d :: d in allowed <==> Allowed(files[..i], d)
    {
      assert files[..i + 1] == files[..i] + [files[i]];
      if !InBrain(files[i]) { return false, map[], {}; }
      WantedSnoc(files[..i], files[i]);
      want := want[Rel(files[i]) := files[i]];
      forall d { AllowedSnoc(files[..i], files[i], d); }
      allowed := AddParents(Rel(files[i]), allowed);
    }
    assert files[..|files|] == files;
    ok := true;
  }

  lemma NothingAllowed()
    ensures forall d :: !Allowed([], d)
  {}

  ghost predicate WalkMatches(root: Entry, walk: seq<(Path, Entry)>, files: seq<ArchiveFile>) {
    && (forall f :: f in files ==> InBrain(f))
    && root == Folder(PRIVATE_FOLDER)
    && (forall j :: 0 <= j < |walk| ==> EntryMatches(files, walk[j].0, walk[j].1))
    && (forall i, j :: 0 <= i < j < |walk| && walk[i].1.File? && walk[j].1.File? ==> walk[i].0 != walk[j].0)
    && (forall p :: p in Wanted(files) ==> p in FilesOf(walk))
  }

  ghost function FilesOf(walk: seq<(Path, Entry)>): set<Path> { set e | e in walk && e.1.File? :: e.0 }

  lemma SubsetOfEqualSize<T>(a: set<T>, b: set<T>)
    requires a <= b
    ensures |a| == |b| <==> a == b
  {
    assert b == a + (b - a);
  }

  /** verifyRestoredBrain: the walk visits every entry below the root. */
  method VerifyRestoredBrain(root: Entry, walk: seq<(Path, Entry)>, expected: seq<ArchiveFile>) returns (ok: bool)
    ensures ok <==> WalkMatches(root, walk, expected)
  {
    hide Wanted, Allowed, FilesOf;
    var valid, want, allowed := Expect(expected);
    if !valid || root != Folder(PRIVATE_FOLDER) { return false; }
    var seen: set<Path> := {};
    NoFilesYet(walk);
    for i := 0 to |walk|
      invariant forall j :: 0 <= j < i ==> EntryMatches(expected, walk[j].0, walk[j].1)
      invariant forall j, k :: 0 <= j < k < i && walk[j].1.File? && walk[k].1.File? ==> walk[j].0 != walk[k].0
      invariant seen == FilesOf(walk[..i]) && seen <= want.Keys
    {
      var (path, entry) := walk[i];
      NextEntry(walk, i);
      match entry {
        case Folder(mode) =>
          if path !in allowed || mode != PRIVATE_FOLDER { return false; }
        case Unsafe =>
          return false;
        case File(mode, size, hash) =>
          if path !in want || path in seen { return false; }
          seen := seen + {path};
          if mode != PRIVATE_FILE || size != want[path].size || hash != want[path].hash { return false; }
      }
    }
    assert walk[..|walk|] == walk;
    SubsetOfEqualSize(seen, want.Keys);
    ok := |seen| == |want|;
  }

  lemma NoFilesYet(walk: seq<(Path, Entry)>)
    ensures FilesOf(walk[..0]) == {}
  {}

  lemma NextEntry(walk: seq<(Path, Entry)>, i: nat)
    requires i < |walk|
    ensures FilesOf(walk[..i + 1]) == FilesOf(walk[..i]) + if walk[i].1.File? then {walk[i].0} else {}
    ensures walk[i].0 in FilesOf(walk[..i]) ==> exists j :: 0 <= j < i && walk[j].1.File? && walk[j].0 == walk[i].0
    ensures forall j :: 0 <= j < i && walk[j].1.File? ==> walk[j].0 in FilesOf(walk[..i])
  {
    assert walk[..i + 1] == walk[..i] + [walk[i]];
    forall j | 0 <= j < i && walk[j].1.File?
      ensures walk[j].0 in FilesOf(walk[..i])
    {
      assert walk[..i][j] in walk[..i];
    }
    if walk[i].0 in FilesOf(walk[..i]) {
      var e :| e in walk[..i] && e.1.File? && e.0 == walk[i].0;
    }
  }

  /** A walk that visits each entry of a tree once. */
  ghost predicate Lists(walk: seq<(Path, Entry)>, t: map<Path, Entry>) {
    && (forall j :: 0 <= j < |walk| ==> walk[j].0 in t && t[walk[j].0] == walk[j].1)
    && (forall p :: p in t ==> (p, t[p]) in walk)
    && (forall i, j :: 0 <= i < j < |walk| ==> walk[i].0 != walk[j].0)
  }

  /** The verdict is about the tree, whatever the order of the walk. */
  lemma WalkMatchesTree(t: Tree, walk: seq<(Path, Entry)>, files: seq<ArchiveFile>)
    requires Lists(walk, t.entries)
    ensures WalkMatches(t.root, walk, files) <==> TreeMatches(t, files)
  {
    hide Wanted, Allowed;
    forall p
      ensures p in FilesOf(walk) <==> p in t.entries && t.entries[p].File?
    {
      if p in t.entries { assert (p, t.entries[p]) in walk; }
    }
    if WalkMatches(t.root, walk, files) {
      forall p | p in t.entries
        ensures EntryMatches(files, p, t.entries[p])
      {
        var j :| 0 <= j < |walk| && walk[j] == (p, t.entries[p]);
      }
    }
  }

  /** Two trees that pass against one manifest are the same tree. */
  lemma TreeIsDetermined(s: Tree, t: Tree, files: seq<ArchiveFile>)
    requires IsTree(s.entries) && IsTree(t.entries)
    requires TreeMatches(s, files) && TreeMatches(t, files)
    ensures s == t
  {
    hide TreeMatches, IsTree;
    forall p
      ensures p in s.entries ==> p in t.entries && s.entries[p] == t.entries[p]
      ensures p in t.entries ==> p in s.entries && s.entries[p] == t.entries[p]
    {
      if p in s.entries { EntryIsDetermined(s, t, files, p); }
      if p in t.entries { EntryIsDetermined(t, s, files, p); }
    }
    RootIsDetermined(s, t, files);
  }

  lemma RootIsDetermined(s: Tree, t: Tree, files: seq<ArchiveFile>)
    requires TreeMatches(s, files) && TreeMatches(t, files)
    ensures s.root == t.root
  {}

  lemma EntryIsDetermined(s: Tree, t: Tree, files: seq<ArchiveFile>, p: Path)
    requires IsTree(t.entries) && TreeMatches(s, files) && TreeMatches(t, files) && p in s.entries
    ensures p in t.entries && s.entries[p] == t.entries[p]
  {
    hide Wanted;
    assert EntryMatches(files, p, s.entries[p]);
    if s.entries[p].Folder? {
      var f :| f in files && IsParent(p, Rel(f));
      WantedKeys(files, Rel(f));
      assert Rel(f) in t.entries;
    }
    assert EntryMatches(files, p, t.entries[p]);
  }

  // ---------- Staging a tree ----------

  /** MkdirAll of the parent, then a file created exclusively. */
  function StageFile(t: map<Path, Entry>, f: ArchiveFile): Option<map<Path, Entry>> {
    var rel := Rel(f);
    if rel in t || exists d :: d in t && IsParent(d, rel) && !t[d].Folder? then None
    else Some((map d | d in Parents(rel) :: Folder(PRIVATE_FOLDER)) + t
      + map[rel := File(PRIVATE_FILE, f.size, f.hash)])
  }

  /** The entries that staging all files from nothing leaves. */
  function StageAll(files: seq<ArchiveFile>): Option<map<Path, Entry>> {
    if files == [] then Some(map[]) else
      var before := StageAll(files[..|files| - 1]);
      if before.None? then None else StageFile(before.value, files[|files| - 1])
  }

  /** What others do to the staged entries just before the k-th file is copied. */
  type Meanwhile = (nat, map<Path, Entry>) -> map<Path, Entry>

  /** Staging on top of entries that are there, with others at work between the copies. */
  function StageBetween(files: seq<ArchiveFile>, t: map<Path, Entry>, others: Meanwhile): Option<map<Path, Entry>> {
    if files == [] then Some(t) else
      var n, before := |files| - 1, StageBetween(files[..|files| - 1], t, others);
      if before.None? then None else StageFile(others(n, before.value), files[n])
  }

  /** The copying loop of a restore. */
  method StageBrain(files: seq<ArchiveFile>, start: map<Path, Entry>, others: Meanwhile)
    returns (t: Option<map<Path, Entry>>)
    ensures t == StageBetween(files, start, others)
  {
    t := Some(start);
    for i := 0 to |files|
      invariant t == StageBetween(files[..i], start, others) && t.Some?
    {
      assert files[..i + 1][..i] == files[..i];
      t := StageFile(others(i, t.value), files[i]);
      if t.None? {
        StageStops(files, start, others, i + 1);
        return;
      }
    }
    assert files[..|files|] == files;
  }

  lemma {:induction false} StageStops(files: seq<ArchiveFile>, start: map<Path, Entry>, others: Meanwhile, k: nat)
    requires k <= |files| && StageBetween(files[..k], start, others).None?
    ensures StageBetween(files, start, others).None?
  {
    if k == |files| {
      assert files[..k] == files;
    } else {
      assert files[..|files| - 1][..k] == files[..k];
      StageStops(files[..|files| - 1], start, others, k);
    }
  }

  /** Left alone, the loop stages exactly the files. */
  lemma {:induction false} UndisturbedStaging(files: seq<ArchiveFile>, others: Meanwhile)
    requires forall k, t :: others(k, t) == t
    ensures StageBetween(files, map[], others) == StageAll(files)
  {
    hide StageFile;
    if files != [] { UndisturbedStaging(files[..|files| - 1], others); }
  }

  lemma ParentsMeaning(path: Path, d: Path)
    ensures d in Parents(path) <==> IsParent(d, path)
  {
    if IsParent(d, path) { assert path[..|d|] == d; }
  }

  lemma ParentOfParent(a: Path, b: Path, c: Path)
    requires IsParent(a, b) && IsParent(b, c)
    ensures IsParent(a, c)
  {}

  lemma StageFileKeepsTree(t: map<Path, Entry>, f: ArchiveFile)
    requires IsTree(t) && StageFile(t, f).Some?
    ensures IsTree(StageFile(t, f).value)
  {
    hide IsParent, Parents;
    var u, rel := StageFile(t, f).value, Rel(f);
    forall p, d | p in u && IsParent(d, p)
      ensures d in u && u[d].Folder?
    {
      ParentsMeaning(rel, p);
      ParentsMeaning(rel, d);
      assert d != rel by { if d == rel { NotUnderNewFile(t, rel, p); } }
      if p !in t && p != rel { ParentOfParent(d, p, rel); }
    }
  }

  lemma NotUnderNewFile(t: map<Path, Entry>, rel: Path, p: Path)
    requires IsTree(t) && rel !in t && IsParent(rel, p)
    ensures p !in t && p !in Parents(rel) && p != rel
  {
    ParentsMeaning(rel, p);
  }

  lemma StageFileKeepsMatch(t: map<Path, Entry>, files: seq<ArchiveFile>, f: ArchiveFile)
    requires TreeMatches(Tree(Folder(PRIVATE_FOLDER), t), files) && InBrain(f) && StageFile(t, f).Some?
    ensures TreeMatches(Tree(Folder(PRIVATE_FOLDER), StageFile(t, f).value), files + [f])
  {
    hide IsParent, Parents, Wanted, Rel;
    var u, rel, all := StageFile(t, f).value, Rel(f), files + [f];
    WantedSnoc(files, f);
    forall p | p in u
      ensures EntryMatches(all, p, u[p])
    {
      ParentsMeaning(rel, p);
      if p in t {
        assert EntryMatches(files, p, t[p]);
        if t[p].Folder? {
          var g :| g in files && IsParent(p, Rel(g));
          assert g in all;
        }
      } else if p != rel {
        assert f in all && IsParent(p, Rel(f));
      }
    }
  }

  lemma WantedSnoc(files: seq<ArchiveFile>, f: ArchiveFile)
    ensures Wanted(files + [f]) == Wanted(files)[Rel(f) := f]
  {
    assert (files + [f])[..|files|] == files;
  }

  lemma EmptyTreeMatches()
    ensures IsTree(map[]) && TreeMatches(Tree(Folder(PRIVATE_FOLDER), map[]), [])
  {}

  /** A brain staged file by file and left alone passes the verification. */
  lemma {:induction false} StagedBrainVerifies(files: seq<ArchiveFile>)
    requires forall f :: f in files ==> InBrain(f)
    requires StageAll(files).Some?
    ensures IsTree(StageAll(files).value) && TreeMatches(Tree(Folder(PRIVATE_FOLDER), StageAll(files).value), files)
  {
    hide StageFile, TreeMatches, IsTree;
    if files == [] {
      EmptyTreeMatches();
    } else {
      var before, f := files[..|files| - 1], files[|files| - 1];
      StagedBrainVerifies(before);
      StageFileKeepsTree(StageAll(before).value, f);
      StageFileKeepsMatch(StageAll(before).value, before, f);
      assert files == before + [f];
    }
  }

  /** No file's path is another's path or runs through it. */
  ghost predicate Separate(files: seq<ArchiveFile>) {
    forall i, j :: 0 <= i < j < |files| ==> Apart(Rel(files[i]), Rel(files[j]))
  }

  predicate Apart(p: Path, q: Path) { p != q && !IsParent(p, q) && !IsParent(q, p) }

  lemma StageFileSucceeds(t: map<Path, Entry>, files: seq<ArchiveFile>, f: ArchiveFile)
    requires IsTree(t) && TreeMatches(Tree(Folder(PRIVATE_FOLDER), t), files)
    ensures StageFile(t, f).Some? <==> forall g :: g in files ==> Apart(Rel(g), Rel(f))
  {
    hide IsParent, Parents, Wanted, Rel;
    var rel := Rel(f);
    forall g | g in files
      ensures Rel(g) in t && t[Rel(g)].File?
    {
      WantedKeys(files, Rel(g));
    }
    forall p | p in t
      ensures EntryMatches(files, p, t[p]) && (t[p].File? ==> exists g :: g in files && Rel(g) == p)
    {
      WantedKeys(files, p);
    }
    if g :| g in files && IsParent(rel, Rel(g)) { assert rel in t; }
  }

  /** Staging fails exactly when two files of the manifest cannot exist side by side. */
  lemma {:induction false} StagingSucceedsExactly(files: seq<ArchiveFile>)
    requires forall f :: f in files ==> InBrain(f)
    ensures StageAll(files).Some? <==> Separate(files)
  {
    hide StageFile, TreeMatches, IsTree, Rel, Apart;
    if files != [] {
      var before, f := files[..|files| - 1], files[|files| - 1];
      StagingSucceedsExactly(before);
      assert files == before + [f];
      assert Separate(files) ==> Separate(before);
      if StageAll(before).Some? {
        StagedBrainVerifies(before);
        StageFileSucceeds(StageAll(before).value, before, f);
      }
    }
  }
}
