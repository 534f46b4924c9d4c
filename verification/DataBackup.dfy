/** Backup, drill and restore of `scripts/backup_data.py`. A folder is a map from paths to
    contents. SHA-256 is taken to be free of collisions: a digest is its content, wrapped. */
module DataBackup {
  import opened Sequences

  /** A relative path, component by component. */
  type Path = seq<string>

  function Name(p: Path): string { if p == [] then "" else p[|p| - 1] }

  const MANIFEST := "MANIFEST.json"
  const FORMAT := 1
  const SKIP_SUFFIXES: seq<string> := ["-wal", "-shm", "-journal"]
  const SKIP_NAMES: seq<string> := [".heavy-job.lock"]

  /** What a file holds: a manifest, a SQLite database, or anything else. A database may hold
      writes in its journal, fail its integrity check, or hold a derived index. */
  datatype Content =
    | Plain(bytes: string)
    | Database(tables: map<string, nat>, inJournal: bool, sound: bool, derived: bool)
    | ManifestFile(manifest: Manifest)

  datatype Digest = Sha256(of: Content)

  datatype FileEntry = FileEntry(path: Path, digest: Digest)

  datatype Manifest = Manifest(format: int, files: seq<FileEntry>, databases: map<Path, map<string, nat>>,
                               notBackedUp: seq<Path>)

  type Tree = map<Path, Content>

  predicate EndsWith(s: string, suffix: string) {
    |suffix| <= |s| && s[|s| - |suffix|..] == suffix
  }

  predicate Skipped(p: Path) {
    Name(p) in SKIP_NAMES || exists i :: 0 <= i < |SKIP_SUFFIXES| && EndsWith(Name(p), SKIP_SUFFIXES[i])
  }

  /** Row counts per table, if the database passes its integrity check (`_tables`). */
  function Tables(c: Content): Option<map<string, nat>> {
    if c.Database? && c.sound then Some(c.tables) else None
  }

  predicate HasTables(c: Content) { c.Database? && c.tables != map[] }

  /** What `_copy_sqlite` writes: a snapshot with the journal folded in; a database without
      tables is copied as it is. */
  function Snapshot(c: Content): Content {
    if HasTables(c) then c.(inJournal := false) else c
  }

  /** The source's files that a backup holds. */
  predicate Wanted(source: Tree, p: Path) {
    p in source && !Skipped(p) && !(source[p].Database? && source[p].derived)
  }

  function Recorded(source: Tree): Tree {
    map p | p in source && Wanted(source, p) :: Snapshot(source[p])
  }

  /** The file belongs to a running database or to the lock of a running job, by its name. */
  ghost predicate Transient(p: Path) {
    || Name(p) == ".heavy-job.lock"
    || exists stem :: Name(p) == stem + "-wal" || Name(p) == stem + "-shm" || Name(p) == stem + "-journal"
  }

  lemma EndsWithMeans(s: string, suffix: string)
    ensures EndsWith(s, suffix) <==> exists stem :: s == stem + suffix
  {
    if EndsWith(s, suffix) { assert s == s[..|s| - |suffix|] + suffix; }
  }

  lemma SkippedMeans(p: Path)
    ensures Skipped(p) <==> Transient(p)
  {
    var name := Name(p);
    EndsWithMeans(name, SKIP_SUFFIXES[0]);
    EndsWithMeans(name, SKIP_SUFFIXES[1]);
    EndsWithMeans(name, SKIP_SUFFIXES[2]);
    assert SKIP_SUFFIXES[0] == "-wal" && SKIP_SUFFIXES[1] == "-shm" && SKIP_SUFFIXES[2] == "-journal";
    assert |SKIP_SUFFIXES| == 3;
  }

  /** A backup holds every file that is neither transient nor a derived index: a database with its rows
      and nothing left in a journal, except that one without tables stays as it is, and any other file
      as it is. */
  lemma RecordedMeans(source: Tree, p: Path)
    ensures p in Recorded(source)
       <==> p in source && !Transient(p) && (source[p].Database? ==> !source[p].derived)
    ensures p in Recorded(source) ==>
              var was, kept := source[p], Recorded(source)[p];
              if was.Database? && was.tables != map[]
              then kept == Database(was.tables, false, was.sound, was.derived)
              else kept == was
  {
    SkippedMeans(p);
  }

  // ------------------------------------------------------------ drill

  datatype Failure =
    | NoFiles | NoManifest | Unverifiable(path: Path)
    | Missing(path: Path) | Changed(path: Path) | NotInManifest(path: Path) | RowsDiffer(path: Path)
    | LiveFolder | NotEmpty | SameDevice | Exists | NoSource | NoRoot | InsideItself

  datatype Result<T> = Ok(value: T) | Err(failure: Failure)

  datatype Counts = Counts(files: nat, databases: nat)

  predicate Named(m: Manifest, p: Path) {
    exists i :: 0 <= i < |m.files| && m.files[i].path == p
  }

  predicate FileHolds(tree: Tree, f: FileEntry) {
    f.path in tree && Sha256(tree[f.path]) == f.digest
  }

  predicate RowsHold(tree: Tree, m: Manifest, p: Path)
    requires p in m.databases
  {
    p in tree && Tables(tree[p]) == Some(m.databases[p])
  }

  /** Every listed file with its hash, nothing else but files named as the manifest, and every
      listed database with its row counts. */
  predicate Passes(tree: Tree, m: Manifest) {
    && (forall i :: 0 <= i < |m.files| ==> FileHolds(tree, m.files[i]))
    && (forall p :: p in tree && Name(p) != MANIFEST ==> Named(m, p))
    && (forall p :: p in m.databases ==> RowsHold(tree, m, p))
  }

  /** `drill`: it passes exactly when `Passes` holds, and otherwise names a difference that is
      really there. */
  method Drill(tree: Tree, m: Manifest) returns (r: Result<Counts>)
    ensures r.Ok? <==> Passes(tree, m)
    ensures r.Ok? ==> r.value == Counts(|m.files|, |m.databases|)
    ensures r.Err? ==> match r.failure
              case Missing(p) => Named(m, p) && p !in tree
              case Changed(p) => p in tree && exists f :: f in m.files && f.path == p && f.digest != Sha256(tree[p])
              case NotInManifest(p) => p in tree && !Named(m, p) && Name(p) != MANIFEST
              case RowsDiffer(p) => p in m.databases && p in tree && Tables(tree[p]) != Some(m.databases[p])
              case Unverifiable(p) => p in m.databases && (p !in tree || Tables(tree[p]) == None)
              case _ => false
  {
    for i := 0 to |m.files|
      invariant forall k :: 0 <= k < i ==> FileHolds(tree, m.files[k])
    {
      var f := m.files[i];
      if f.path !in tree { return Err(Missing(f.path)); }
      if Sha256(tree[f.path]) != f.digest { return Err(Changed(f.path)); }
    }
    var todo := tree.Keys;
    while todo != {}
      invariant forall p :: p in tree && p !in todo && Name(p) != MANIFEST ==> Named(m, p)
      decreases todo
    {
      var p :| p in todo;
      todo := todo - {p};
      if p in tree && Name(p) != MANIFEST && !Named(m, p) { return Err(NotInManifest(p)); }
    }
    var left := m.databases.Keys;
    while left != {}
      invariant left <= m.databases.Keys
      invariant forall p :: p in m.databases && p !in left ==> RowsHold(tree, m, p)
      decreases left
    {
      var p :| p in left;
      left := left - {p};
      if p !in tree || Tables(tree[p]) == None { return Err(Unverifiable(p)); }
      if Tables(tree[p]) != Some(m.databases[p]) { return Err(RowsDiffer(p)); }
    }
    r := Ok(Counts(|m.files|, |m.databases|));
  }

  // ------------------------------------------------------------ backup

  /** The manifest describes exactly the tree `kept`: each file once with its digest, and each
      database's row counts. */
  ghost predicate Describes(m: Manifest, kept: Tree) {
    && m.format == FORMAT
    && (forall p :: p in kept <==> Named(m, p))
    && (forall i :: 0 <= i < |m.files| ==>
          m.files[i].path in kept && m.files[i].digest == Sha256(kept[m.files[i].path]))
    && (forall p :: p in m.databases <==> p in kept && kept[p].Database?)
    && (forall p :: p in m.databases ==> Tables(kept[p]) == Some(m.databases[p]))
  }

  predicate AllSound(source: Tree) {
    forall p :: p in source && Wanted(source, p) && source[p].Database? ==> source[p].sound
  }

  function ReadManifest(tree: Tree): Option<Manifest> {
    if [MANIFEST] in tree && tree[[MANIFEST]].ManifestFile? && tree[[MANIFEST]].manifest.format == FORMAT
    then Some(tree[[MANIFEST]].manifest) else None
  }

  /** A manifest is read from its own place, and only in the format of this version. */
  lemma ReadManifestIff(tree: Tree, m: Manifest)
    ensures ReadManifest(tree) == Some(m)
       <==> ["MANIFEST.json"] in tree && tree[["MANIFEST.json"]] == ManifestFile(m) && m.format == 1
  {
  }

  lemma DescribesOneMore(m: Manifest, kept: Tree, p: Path, c: Content)
    requires Describes(m, kept) && p !in kept
    ensures var files := m.files + [FileEntry(p, Sha256(c))];
            && (!c.Database? ==> Describes(m.(files := files), kept[p := c]))
            && (c.Database? && c.sound
                ==> Describes(m.(databases := m.databases[p := c.tables], files := files), kept[p := c]))
  {
    var files := m.files + [FileEntry(p, Sha256(c))];
    assert files[|m.files|].path == p && forall i :: 0 <= i < |m.files| ==> files[i] == m.files[i];
  }

  lemma NoFilesNoTree(m: Manifest, kept: Tree)
    requires Describes(m, kept)
    ensures m.files == [] <==> kept == map[]
  {
    if kept != map[] {
      var p :| p in kept;
      assert Named(m, p);
    }
    if m.files != [] { assert m.files[0].path in kept; }
  }

  /** The loop of `backup`: copy every wanted file and record it. `dest` is what has been written. */
  method CopyAll(source: Tree) returns (r: Result<Manifest>, dest: Tree)
    ensures r.Ok? <==> AllSound(source)
    ensures r.Ok? ==> dest == Recorded(source) && Describes(r.value, Recorded(source))
    ensures r.Ok? ==> (r.value.files == [] <==> Recorded(source) == map[])
    ensures r.Ok? ==> forall p :: p in r.value.notBackedUp
                                  <==> p in source && !Transient(p) && source[p].Database? && source[p].derived
    ensures r.Err? ==> r.failure.Unverifiable? && Wanted(source, r.failure.path)
                       && forall p :: p in dest ==> Wanted(source, p) && dest[p] == Snapshot(source[p])
  {
    dest := map[];
    var m := Manifest(FORMAT, [], map[], []);
    var todo := source.Keys;
    while todo != {}
      invariant todo <= source.Keys
      invariant forall p :: p in dest <==> p !in todo && Wanted(source, p)
      invariant forall p :: p in dest ==> dest[p] == Snapshot(source[p])
      invariant forall p :: p in dest && source[p].Database? ==> source[p].sound
      invariant Describes(m, dest)
      invariant forall p :: p in m.notBackedUp
                            <==> p in source && p !in todo && !Transient(p) && source[p].Database? && source[p].derived
      decreases todo
    {
      var p :| p in todo;
      todo := todo - {p};
      SkippedMeans(p);
      if Skipped(p) {
      } else if source[p].Database? && source[p].derived {
        m := m.(notBackedUp := m.notBackedUp + [p]);
      } else {
        var target := Snapshot(source[p]);
        DescribesOneMore(m, dest, p, target);
        dest := dest[p := target];
        if source[p].Database? {
          if Tables(target) == None { return Err(Unverifiable(p)), dest; }
          m := m.(databases := m.databases[p := Tables(target).value]);
        }
        m := m.(files := m.files + [FileEntry(p, Sha256(target))]);
      }
    }
    assert dest == Recorded(source);
    NoFilesNoTree(m, dest);
    r := Ok(m);
  }

  /** What `backup` asks of the two folders before it makes the new one. */
  datatype Place = Place(sourceThere: bool, rootThere: bool, nested: bool, taken: bool) {
    predicate Fits() { sourceThere && rootThere && !nested && !taken }
  }

  /** What a backup needs of its source. */
  predicate Holdable(source: Tree) {
    AllSound(source) && Recorded(source) != map[] && !Wanted(source, [MANIFEST])
  }

  /** `backup`. It succeeds exactly when the folders fit, there is a file to back up, every database
      passes its check, and no wanted file sits where the manifest goes. `made` is the new folder as
      it is left: it is removed only when there was nothing to back up, and stays behind when the
      check of a database or the drill fails. */
  method Backup(source: Tree, place: Place) returns (r: Result<Tree>, made: Option<Tree>)
    ensures r.Ok? <==> place.Fits() && Holdable(source)
    ensures r.Ok? ==> made == Some(r.value) && exists m :: IsBackup(source, m, r.value)
    ensures !place.sourceThere ==> r == Err(NoSource)
    ensures place.sourceThere && !place.rootThere ==> r == Err(NoRoot)
    ensures place.sourceThere && place.rootThere && place.nested ==> r == Err(InsideItself)
    ensures place.sourceThere && place.rootThere && !place.nested && place.taken ==> r == Err(Exists)
    ensures place.Fits() && AllSound(source) && Recorded(source) == map[] ==> r == Err(NoFiles)
    ensures !place.Fits() || (AllSound(source) && Recorded(source) == map[]) ==> made == None
    ensures place.Fits() && !AllSound(source) ==>
              r.Err? && r.failure.Unverifiable? && made.Some? && r.failure.path in source
    ensures place.Fits() && AllSound(source) && Wanted(source, [MANIFEST]) ==>
              made.Some? && exists m :: IsBackup(source, m, made.value)
  {
    if !place.sourceThere { return Err(NoSource), None; }
    if !place.rootThere { return Err(NoRoot), None; }
    if place.nested { return Err(InsideItself), None; }
    if place.taken { return Err(Exists), None; }
    var copied, dest := CopyAll(source);
    if copied.Err? { return Err(copied.failure), Some(dest); }
    var m := copied.value;
    assert Wanted(source, [MANIFEST]) ==> [MANIFEST] in Recorded(source);
    if m.files == [] { return Err(NoFiles), None; }
    dest := dest[[MANIFEST] := ManifestFile(m)];
    BackupPasses(source, m);
    made := Some(dest);
    assert IsBackup(source, m, made.value);
    var drilled := Drill(dest, m);
    if drilled.Err? { return Err(drilled.failure), made; }
    r := Ok(dest);
  }

  /** `made` is what was recorded of the source, with the manifest that describes it. */
  ghost predicate IsBackup(source: Tree, m: Manifest, made: Tree) {
    Describes(m, Recorded(source)) && made == Recorded(source)[[MANIFEST] := ManifestFile(m)]
  }

  /** The manifest would have to hold its own digest to pass. */
  lemma BackupPasses(source: Tree, m: Manifest)
    requires Describes(m, Recorded(source))
    ensures Passes(Recorded(source)[[MANIFEST] := ManifestFile(m)], m) <==> !Wanted(source, [MANIFEST])
  {
    var kept := Recorded(source);
    var dest := kept[[MANIFEST] := ManifestFile(m)];
    if Wanted(source, [MANIFEST]) {
      assert [MANIFEST] in kept;
      var i :| 0 <= i < |m.files| && m.files[i].path == [MANIFEST];
      if FileHolds(dest, m.files[i]) {
        assert m.files[i].digest.of == ManifestFile(m);
        OwnDigest(m, i);
      }
    } else {
      forall i | 0 <= i < |m.files| ensures FileHolds(dest, m.files[i]) {
        assert m.files[i].path in kept;
      }
      forall p | p in m.databases ensures RowsHold(dest, m, p) {}
    }
  }

  lemma OwnDigest(m: Manifest, i: nat)
    requires i < |m.files|
    ensures m.files[i].digest.of != ManifestFile(m)
  {
    assert m.files[i] < m;
  }

  // ------------------------------------------------------------ what the drill catches

  /** Against the manifest of a backup, a folder passes the drill exactly when it holds every
      recorded file unchanged and no other file, apart from files named as the manifest. */
  lemma DrillCatches(tree: Tree, kept: Tree, m: Manifest)
    requires Describes(m, kept)
    ensures Passes(tree, m) <==>
              && (forall p :: p in kept ==> p in tree && tree[p] == kept[p])
              && (forall p :: p in tree && p !in kept ==> Name(p) == MANIFEST)
  {
    if Passes(tree, m) {
      forall p | p in kept ensures p in tree && tree[p] == kept[p] {
        var i :| 0 <= i < |m.files| && m.files[i].path == p;
        assert FileHolds(tree, m.files[i]);
      }
    }
  }

  // ------------------------------------------------------------ restore and off-disk copy

  predicate IsLive(target: Path) {
    |target| >= 2 && target[|target| - 1] == "data" && target[|target| - 2] == "backend"
  }

  /** The path of a folder `data` in a folder `backend`, wherever that is. */
  lemma LiveMeans(target: Path)
    ensures IsLive(target) <==> exists parent :: target == parent + ["backend", "data"]
  {
    if IsLive(target) { assert target == target[..|target| - 2] + ["backend", "data"]; }
  }

  class Folder {
    var files: Tree

    constructor ()
      ensures files == map[]
    {
      files := map[];
    }

    /** `restore` of a backup into this folder, whose resolved path is `at`. */
    method Restore(backup: Tree, at: Path) returns (r: Result<Counts>)
      modifies this
      ensures r.Ok? <==> && ReadManifest(backup).Some? && !IsLive(at) && old(files) == map[]
                         && (forall i :: 0 <= i < |ReadManifest(backup).value.files|
                                         ==> ReadManifest(backup).value.files[i].path in backup)
                         && Passes(Listed(backup, ReadManifest(backup).value), ReadManifest(backup).value)
      ensures r.Ok? ==> files == Listed(backup, ReadManifest(backup).value)
      ensures ReadManifest(backup).None? ==> r == Err(NoManifest)
      ensures ReadManifest(backup).Some? && IsLive(at) ==> r == Err(LiveFolder)
      ensures ReadManifest(backup).Some? && !IsLive(at) && old(files) != map[] ==> r == Err(NotEmpty)
      ensures ReadManifest(backup).Some? && !IsLive(at) && old(files) == map[]
              && (exists f :: f in ReadManifest(backup).value.files && f.path !in backup)
              ==> r.Err? && r.failure.Missing?
      ensures r.Err? && r.failure.Missing?
              ==> r.failure.path !in backup && Named(ReadManifest(backup).value, r.failure.path)
      ensures ReadManifest(backup).None? || IsLive(at) || old(files) != map[] ==> files == old(files)
      ensures old(files) == map[] ==> forall p :: p in files ==>
                ReadManifest(backup).Some? && Named(ReadManifest(backup).value, p)
                && p in backup && files[p] == backup[p]
    {
      var read := ReadManifest(backup);
      if read.None? { return Err(NoManifest); }
      if IsLive(at) { return Err(LiveFolder); }
      if files != map[] { return Err(NotEmpty); }
      var m := read.value;
      for i := 0 to |m.files|
        invariant forall k :: 0 <= k < i ==> m.files[k].path in backup
        invariant forall p :: p in files <==> exists k :: 0 <= k < i && m.files[k].path == p
        invariant forall p :: p in files ==> p in backup && files[p] == backup[p]
      {
        var path := m.files[i].path;
        if path !in backup { return Err(Missing(path)); }
        files := files[path := backup[path]];
      }
      assert files == Listed(backup, m);
      r := Drill(files, m);
    }

    /** `offdisk`: the whole folder copied to a new folder on another device, and drilled there. */
    method OffDisk(device: int, otherDevice: int, taken: bool) returns (r: Result<Folder>)
      ensures r.Ok? <==> && ReadManifest(files).Some? && device != otherDevice && !taken
                         && Passes(files, ReadManifest(files).value)
      ensures r.Ok? ==> fresh(r.value) && r.value.files == files
      ensures ReadManifest(files).None? ==> r == Err(NoManifest)
      ensures ReadManifest(files).Some? && device == otherDevice ==> r == Err(SameDevice)
      ensures ReadManifest(files).Some? && device != otherDevice && taken ==> r == Err(Exists)
    {
      var read := ReadManifest(files);
      if read.None? { return Err(NoManifest); }
      if device == otherDevice { return Err(SameDevice); }
      if taken { return Err(Exists); }
      var copy := new Folder();
      copy.files := files;
      var drilled := Drill(copy.files, read.value);
      if drilled.Err? { return Err(drilled.failure); }
      r := Ok(copy);
    }
  }

  /** The files of a tree that the manifest lists. */
  function Listed(tree: Tree, m: Manifest): Tree {
    map p | p in tree && Named(m, p) :: tree[p]
  }

  /** Round trip: a backup that succeeded restores, into any empty folder that is not the live
      one, exactly the source's wanted files with the contents the backup recorded. */
  lemma RestoreGivesBack(source: Tree, m: Manifest)
    requires Describes(m, Recorded(source)) && !Wanted(source, [MANIFEST])
    ensures var made := Recorded(source)[[MANIFEST] := ManifestFile(m)];
            && ReadManifest(made) == Some(m)
            && (forall i :: 0 <= i < |m.files| ==> m.files[i].path in made)
            && Listed(made, m) == Recorded(source)
            && Passes(Listed(made, m), m)
  {
    assert [MANIFEST] !in Recorded(source);
    DrillCatches(Recorded(source), Recorded(source), m);
  }

  /** Backup and restore together: into a new folder that is not the live one, whatever can be backed
      up comes back as the source's wanted files with the contents recorded, and nothing else. */
  method BackUpAndRestore(source: Tree, place: Place, at: Path) returns (r: Result<Folder>)
    ensures r.Ok? <==> place.Fits() && Holdable(source) && !IsLive(at)
    ensures r.Ok? ==> fresh(r.value) && r.value.files == Recorded(source)
    ensures r.Ok? ==> forall p :: p in r.value.files && HasTables(r.value.files[p]) ==> !r.value.files[p].inJournal
  {
    var backup, made := Backup(source, place);
    if backup.Err? { return Err(backup.failure); }
    ghost var m :| IsBackup(source, m, backup.value);
    RestoreGivesBack(source, m);
    var folder := new Folder();
    var restored := folder.Restore(backup.value, at);
    if restored.Err? { return Err(restored.failure); }
    r := Ok(folder);
  }
}
