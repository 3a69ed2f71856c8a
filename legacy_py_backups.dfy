/** The backup side of the legacy Python implementation (main.py): `zip_with_progress`,
    `backup_instance` and `rollback_instance`, over the decoded `cfg.json` dictionaries of
    `LegacyPy`. */
module LegacyPyBackups {
  import opened Text
  import opened Configs
  import opened FileSystem
  import opened Archive
  import opened Backups
  import opened LegacyPy

  // ---------------------------------------------------------------------------------------
  // `zip_with_progress`

  /** `zipf.write(full, rel)`: the entry is named by the path relative to the source, its
      segments joined by '/'; unlike the Kotlin version no '\\' is translated. */
  function PyEntryFor(d: Disk, src: Path, q: Path): ZipEntry
    requires IsPlainFile(d, q) && IsUnder(q, src)
  {
    ZipEntry(Join(q[|src|..], "/"), d.tree[q].content)
  }

  function PyEntries(d: Disk, src: Path, files: seq<Path>): (es: seq<ZipEntry>)
    requires forall q :: q in files ==> IsPlainFile(d, q) && IsUnder(q, src)
    ensures |es| == |files|
    ensures forall i :: 0 <= i < |files| ==> es[i] == PyEntryFor(d, src, files[i])
  {
    seq(|files|, i requires 0 <= i < |files| => PyEntryFor(d, src, files[i]))
  }

  /** The files `os.walk(src)` lists, in walk order; a source that is not a directory
      yields nothing (the walk reports no error). */
  function PyFiles(d: Disk, src: Path, walkOrder: seq<Path>): (files: seq<Path>)
    requires Enumerates(walkOrder, Walk(d, src))
    ensures forall q :: q in files ==> IsPlainFile(d, q) && IsUnder(q, src)
  {
    if IsDirectory(d, src) then RegularFiles(d, walkOrder) else []
  }

  /** What `zip_with_progress(src, dest)` leaves and returns: False and no archive when there
      is no file; an error (`open` fails) when the target's folder is missing or the target is a
      directory; otherwise `<dest>.zip` holds one entry per file, in walk order, and True. */
  function PyZip(d: Disk, src: Path, dest: Path, walkOrder: seq<Path>): (Disk, Outcome<bool>)
    requires |dest| > 0 && Enumerates(walkOrder, Walk(d, src))
  {
    var files := PyFiles(d, src, walkOrder);
    if files == [] then (d, Returned(false))
    else
      var target := ZipTarget(dest);
      if !IsDirectory(d, target[..|target| - 1]) || IsDirectory(d, target) then (d, Threw(IoError))
      else (WriteArchive(d, target, PyEntries(d, src, files)), Returned(true))
  }

  /** `zip_with_progress(source_path, destination_path)`: the walk collects the files, then
      each is written to the archive in turn. */
  method ZipWithProgressPy(d: Disk, src: Path, dest: Path, walkOrder: seq<Path>) returns (r: Disk, result: Outcome<bool>)
    requires |dest| > 0 && Enumerates(walkOrder, Walk(d, src))
    ensures (r, result) == PyZip(d, src, dest, walkOrder)
  {
    var files: seq<Path> := [];
    if IsDirectory(d, src) {
      files := CollectRegularFiles(d, walkOrder);
    }
    if |files| == 0 {
      return d, Returned(false);
    }
    var target := ZipTarget(dest);
    if !IsDirectory(d, target[..|target| - 1]) || IsDirectory(d, target) {
      return d, Threw(IoError);
    }
    var es := PyEntryLoop(d, src, files);
    return WriteArchive(d, target, es), Returned(true);
  }

  /** The writing loop of `zip_with_progress`: one entry per collected file, in order. */
  method PyEntryLoop(d: Disk, src: Path, files: seq<Path>) returns (es: seq<ZipEntry>)
    requires forall q :: q in files ==> IsPlainFile(d, q) && IsUnder(q, src)
    ensures es == PyEntries(d, src, files)
  {
    es := [];
    for i := 0 to |files|
      invariant es == PyEntries(d, src, files[..i])
    {
      assert files[i] in files;
      es := es + [PyEntryFor(d, src, files[i])];
    }
    assert files[..|files|] == files;
  }

  /** A tree without a single file is never archived: the result is False and the disk is
      unchanged. */
  lemma PyZipOfNoFiles(d: Disk, src: Path, dest: Path, walkOrder: seq<Path>)
    requires |dest| > 0 && Enumerates(walkOrder, Walk(d, src))
    requires forall q :: IsUnder(q, src) ==> !IsPlainFile(d, q)
    ensures PyZip(d, src, dest, walkOrder) == (d, Returned(false))
  {
    NoFilesListed(d, walkOrder);
  }

  lemma {:induction false} NoFilesListed(d: Disk, order: seq<Path>)
    requires forall q :: q in order ==> !IsPlainFile(d, q)
    ensures RegularFiles(d, order) == []
  {
    if order != [] {
      assert order[|order| - 1] in order;
      NoFilesListed(d, order[..|order| - 1]);
    }
  }

  /** When the archive is written, it holds exactly the entries of the plain files below the
      source, and the disk changes nowhere else. */
  lemma PyZipContents(d: Disk, src: Path, dest: Path, walkOrder: seq<Path>)
    requires |dest| > 0 && Enumerates(walkOrder, Walk(d, src))
    requires PyZip(d, src, dest, walkOrder).1 == Returned(true)
    ensures var r := PyZip(d, src, dest, walkOrder).0;
      var t := ZipTarget(dest);
      && t in r.archives && r == WriteArchive(d, t, r.archives[t])
      && (forall q :: IsPlainFile(d, q) && IsUnder(q, src) ==> PyEntryFor(d, src, q) in r.archives[t])
      && (forall e :: e in r.archives[t] ==> exists q :: IsPlainFile(d, q) && IsUnder(q, src) && e == PyEntryFor(d, src, q))
  {
    var files := PyFiles(d, src, walkOrder);
    var es := PyEntries(d, src, files);
    var t := ZipTarget(dest);
    assert PyZip(d, src, dest, walkOrder).0 == WriteArchive(d, t, es);
    assert IsDirectory(d, src);
    forall q | IsPlainFile(d, q) && IsUnder(q, src) ensures PyEntryFor(d, src, q) in es {
      assert q in Walk(d, src);
      assert q in files;
      var i :| 0 <= i < |files| && files[i] == q;
      assert es[i] == PyEntryFor(d, src, q);
    }
    forall e | e in es ensures exists q :: IsPlainFile(d, q) && IsUnder(q, src) && e == PyEntryFor(d, src, q) {
      var i :| 0 <= i < |es| && es[i] == e;
      assert files[i] in files;
    }
  }

  // ---------------------------------------------------------------------------------------
  // `backup_instance`

  /** The instance's filled configuration loads and its `backups` value is an object. */
  predicate PyLoaded(s: PyDisk, cfg: Config, name: string) {
    PyInstance(s, cfg, name).Some? && PyInstance(s, cfg, name).value["backups"].PDict?
  }

  /** The `backups` object of the instance, or the empty one when it does not load. */
  function PyLedger(s: PyDisk, cfg: Config, name: string): Dict {
    if PyLoaded(s, cfg, name) then PyInstance(s, cfg, name).value["backups"].entries else map[]
  }

  /** `EMPTY_BACKUP_CFG` filled for a new backup. */
  function BackupRecord(version: PyValue, timestamp: string, desc: string): PyValue {
    PDict(map["version" := version, "datetime" := PStr(timestamp), "desc" := PStr(desc)])
  }

  /** The arguments of `edit_instance(name, backups=...)`. */
  function BackupsOnly(ledger: Dict): PyEditArgs {
    PyEditArgs(None, None, None, None, None, Some(ledger))
  }

  /** An edit that passes only `backups` replaces that one key. */
  lemma BackupsOnlyEdit(conf: Dict, ledger: Dict, cwd: Path)
    ensures Patched(conf, BackupsOnly(ledger), "", cwd) == conf["backups" := PDict(ledger)]
  {
    var c := Patched(conf, BackupsOnly(ledger), "", cwd);
    var want := conf["backups" := PDict(ledger)];
    forall k ensures Lookup(c, k) == Lookup(want, k) {
    }
    LookupExtensional(c, want);
  }

  /** Besides the new archive, a backup changes on disk at most the missing directories up
      to `backups` (its `cfg.json` is the dictionary in `json`). */
  ghost predicate PyBackupFrame(d: Disk, cfg: Config, name: string, timestamp: string, r: Disk) {
    ChangedOnly(d, r, {ArchivePath(cfg, name, timestamp)}, BackupsDir(cfg, name))
  }

  /** Creating `backups` first keeps a backup within its frame. */
  lemma PyBackupFrameChain(d: Disk, d2: Disk, r: Disk, cfg: Config, name: string, timestamp: string)
    requires ChangedOnly(d, d2, {}, BackupsDir(cfg, name))
    requires r == d2 || PyBackupFrame(d2, cfg, name, timestamp, r)
    ensures PyBackupFrame(d, cfg, name, timestamp, r)
  {
    var written := {ArchivePath(cfg, name, timestamp)};
    if r == d2 {
      assert ChangedOnly(d2, r, written, BackupsDir(cfg, name));
    }
    ChangedOnlyChain(d, d2, r, {}, BackupsDir(cfg, name), written, BackupsDir(cfg, name), written, BackupsDir(cfg, name));
  }

  /** What `backup_instance` promises about the state `r` it leaves, its `result` and the id
      it drew. */
  ghost predicate PyBackupOutcome(s: PyDisk, cfg: Config, name: string, desc: string, timestamp: string,
                                  walkOrder: seq<Path>, r: PyDisk, result: Outcome<bool>, id: string)
    requires Enumerates(walkOrder, Walk(s.disk, WorldDir(cfg, name)))
  {
    && (PyUnreadable(s, CfgJsonPath(cfg, name)) ==>
        r == s && result == Threw(PyReadError(s, CfgJsonPath(cfg, name))))
    && (!PyUnreadable(s, CfgJsonPath(cfg, name)) && !PyLoaded(s, cfg, name) ==>
        r == s && result == Threw(TypeMismatch))
    && (PyLoaded(s, cfg, name) && !IsDirectory(s.disk, InstanceDir(cfg, name)) ==>
        r == s && result == Returned(false))
    && (PyLoaded(s, cfg, name) && IsDirectory(s.disk, InstanceDir(cfg, name))
        && CreateDirectories(s.disk, BackupsDir(cfg, name)).Threw? ==>
        r == s && result == Threw(CreateDirectories(s.disk, BackupsDir(cfg, name)).error))
    && (PyLoaded(s, cfg, name) && IsDirectory(s.disk, InstanceDir(cfg, name))
        && CreateDirectories(s.disk, BackupsDir(cfg, name)).Returned? ==>
        && result.Returned?
        && (!IsDirectory(s.disk, WorldDir(cfg, name)) ==>
              r == PyDisk(CreateDirectories(s.disk, BackupsDir(cfg, name)).value, s.json) && !result.value))
    && UnchangedUnder(s.disk, r.disk, WorldDir(cfg, name))
    && ArchivesKeptBut(s.disk, r.disk, ArchivePath(cfg, name, timestamp))
    && PyBackupFrame(s.disk, cfg, name, timestamp, r.disk)
    && (result != Returned(true) ==> r.json == s.json)
    && (result == Returned(true) ==>
        && PyLoaded(s, cfg, name)
        && IsHex(id, 2) && id !in PyLedger(s, cfg, name)
        && r.json == s.json[CfgJsonPath(cfg, name) := s.json[CfgJsonPath(cfg, name)]["backups" :=
             PDict(PyLedger(s, cfg, name)[id := BackupRecord(PyInstance(s, cfg, name).value["version"], timestamp, desc)])]]
        && PyFiles(s.disk, WorldDir(cfg, name), walkOrder) != []
        && ArchivePath(cfg, name, timestamp) in r.disk.archives
        && r.disk.archives[ArchivePath(cfg, name, timestamp)]
           == PyEntries(s.disk, WorldDir(cfg, name), PyFiles(s.disk, WorldDir(cfg, name), walkOrder)))
  }

  /** `backup_instance(name, desc)`: an instance that does not load (a `cfg.json` that
      cannot be read, None, or `backups` not an object) raises before anything is touched;
      an id is drawn until it is not in the
      ledger; a missing instance folder or `world` folder gives False; `backups` is created
      (an error there escapes); then the world is zipped and, when that succeeds, the ledger
      gains the new record under the id and True is returned. Any exception in the last
      step gives False. */
  method BackupInstancePy(s: PyDisk, cfg: Config, name: string, desc: string, timestamp: string,
                          draws: seq<string>, walkOrder: seq<Path>)
    returns (r: PyDisk, result: Outcome<bool>, id: string)
    requires Enumerates(walkOrder, Walk(s.disk, WorldDir(cfg, name)))
    requires forall i :: 0 <= i < |draws| ==> IsHex(draws[i], 2)
    requires PyLoaded(s, cfg, name) ==> exists i :: 0 <= i < |draws| && draws[i] !in PyLedger(s, cfg, name)
    ensures PyBackupOutcome(s, cfg, name, desc, timestamp, walkOrder, r, result, id)
  {
    id := "";
    var loaded := GetInstancePy(s, cfg, name);
    if loaded.Threw? {
      return s, Threw(loaded.error), id;
    }
    var inst := loaded.value;
    if inst.None? || !inst.value["backups"].PDict? {
      // `None['version']`, or `in` / item assignment on a value that is not an object
      return s, Threw(TypeMismatch), id;
    }
    var ledger := inst.value["backups"].entries;
    var tries;
    id, tries := GenerateUniqueHex(ledger.Keys, 1, draws);
    if !IsDirectory(s.disk, InstanceDir(cfg, name)) {
      return s, Returned(false), id;
    }
    var made := CreateDirectories(s.disk, BackupsDir(cfg, name));
    if made.Threw? {
      return s, Threw(made.error), id;
    }
    var d2 := made.value;
    BackupsDirCreated(s.disk, cfg, name, walkOrder);
    CreateDirectoriesChangedOnly(s.disk, BackupsDir(cfg, name));
    assert At(s.disk, WorldDir(cfg, name)) == At(d2, WorldDir(cfg, name));
    PyBackupFrameChain(s.disk, d2, d2, cfg, name, timestamp);
    if !IsDirectory(d2, WorldDir(cfg, name)) {
      return PyDisk(d2, s.json), Returned(false), id;
    }
    var s2 := PyDisk(d2, s.json);
    r, result := ArchiveWorldPy(s2, cfg, name, inst.value["version"], ledger, id, desc, timestamp, walkOrder);
    UnchangedUnderTransitive(s.disk, d2, r.disk, WorldDir(cfg, name));
    PyBackupFrameChain(s.disk, d2, r.disk, cfg, name, timestamp);
    PyFilesUnchanged(s.disk, d2, WorldDir(cfg, name), walkOrder);
  }

  /** The `try` block of `backup_instance`, once `backups` exists and `world` is a directory. */
  method ArchiveWorldPy(s2: PyDisk, cfg: Config, name: string, version: PyValue, ledger: Dict, id: string,
                        desc: string, timestamp: string, walkOrder: seq<Path>)
    returns (r: PyDisk, result: Outcome<bool>)
    requires Enumerates(walkOrder, Walk(s2.disk, WorldDir(cfg, name)))
    requires CfgJsonPath(cfg, name) in s2.json
    ensures result.Returned?
    ensures UnchangedUnder(s2.disk, r.disk, WorldDir(cfg, name))
    ensures ArchivesKeptBut(s2.disk, r.disk, ArchivePath(cfg, name, timestamp))
    ensures PyBackupFrame(s2.disk, cfg, name, timestamp, r.disk)
    ensures result != Returned(true) ==> r.json == s2.json
    ensures result == Returned(true) ==>
      && r.json == s2.json[CfgJsonPath(cfg, name) := s2.json[CfgJsonPath(cfg, name)]["backups" :=
           PDict(ledger[id := BackupRecord(version, timestamp, desc)])]]
      && PyFiles(s2.disk, WorldDir(cfg, name), walkOrder) != []
      && ArchivePath(cfg, name, timestamp) in r.disk.archives
      && r.disk.archives[ArchivePath(cfg, name, timestamp)]
         == PyEntries(s2.disk, WorldDir(cfg, name), PyFiles(s2.disk, WorldDir(cfg, name), walkOrder))
  {
    var dest := BackupsDir(cfg, name) + [ArchiveBase(timestamp)];
    var d3, zipped := ZipWithProgressPy(s2.disk, WorldDir(cfg, name), dest, walkOrder);
    PyArchiveWritten(s2.disk, cfg, name, ArchiveBase(timestamp), walkOrder);
    ZipTargetIsArchivePath(cfg, name, timestamp);
    if zipped != Returned(true) {
      return PyDisk(d3, s2.json), Returned(false);
    }
    var newLedger := ledger[id := BackupRecord(version, timestamp, desc)];
    var edited, _ := EditInstancePy(PyDisk(d3, s2.json), cfg, name, BackupsOnly(newLedger), map[], []);
    BackupsOnlyEdit(s2.json[CfgJsonPath(cfg, name)], newLedger, []);
    return edited, Returned(true);
  }

  /** Zipping the world into `backups` writes nothing but the new archive. */
  lemma PyArchiveWritten(d2: Disk, cfg: Config, name: string, base: string, walkOrder: seq<Path>)
    requires Enumerates(walkOrder, Walk(d2, WorldDir(cfg, name)))
    ensures var d3 := PyZip(d2, WorldDir(cfg, name), BackupsDir(cfg, name) + [base], walkOrder).0;
      && UnchangedUnder(d2, d3, WorldDir(cfg, name))
      && ArchivesKeptBut(d2, d3, ZipTarget(BackupsDir(cfg, name) + [base]))
      && ChangedOnly(d2, d3, {ZipTarget(BackupsDir(cfg, name) + [base])}, BackupsDir(cfg, name))
  {
    var dest := BackupsDir(cfg, name) + [base];
    var t := ZipTarget(dest);
    var files := PyFiles(d2, WorldDir(cfg, name), walkOrder);
    if PyZip(d2, WorldDir(cfg, name), dest, walkOrder).0 != d2 {
      assert t == BackupsDir(cfg, name) + [base + ".zip"];
      WriteArchiveElsewhere(d2, cfg, name, t, PyEntries(d2, WorldDir(cfg, name), files));
      WriteArchiveChangedOnly(d2, t, PyEntries(d2, WorldDir(cfg, name), files), BackupsDir(cfg, name));
    }
  }

  /** The files of a walk, and their entries, depend only on what lies below its start. */
  lemma PyFilesUnchanged(d: Disk, r: Disk, src: Path, order: seq<Path>)
    requires UnchangedUnder(d, r, src) && Enumerates(order, Walk(d, src))
    ensures Enumerates(order, Walk(r, src))
    ensures PyFiles(d, src, order) == PyFiles(r, src, order)
    ensures PyEntries(d, src, PyFiles(d, src, order)) == PyEntries(r, src, PyFiles(r, src, order))
  {
    WalkUnchanged(d, r, src);
    assert At(d, src) == At(r, src);
    RegularFilesUnchanged(d, r, src, order);
    var files := PyFiles(d, src, order);
    forall i | 0 <= i < |files| ensures PyEntryFor(d, src, files[i]) == PyEntryFor(r, src, files[i]) {
      assert files[i] in files;
    }
  }

  // ---------------------------------------------------------------------------------------
  // `rollback_instance`

  /** `backup_info['datetime']` after `backup_info['version']` has been looked up too: a
      record that is not an object cannot be indexed by a string, a missing key raises
      `KeyError`, and a stamp that is not a string has no `replace`. */
  function RecordTimestamp(v: PyValue): (r: Outcome<string>)
    ensures r.Returned? <==> v.PDict? && "version" in v.entries && "datetime" in v.entries && v.entries["datetime"].PStr?
    ensures r.Returned? ==> r.value == v.entries["datetime"].s
    ensures r.Threw? ==> r.error in {TypeMismatch, MissingKey}
  {
    if !v.PDict? then Threw(TypeMismatch)
    else if "datetime" !in v.entries || "version" !in v.entries then Threw(MissingKey)
    else if !v.entries["datetime"].PStr? then Threw(TypeMismatch)
    else Returned(v.entries["datetime"].s)
  }

  /** The archive that backup `id` names, when its record can be read. */
  function PyArchiveOf(s: PyDisk, cfg: Config, name: string, id: string): Option<Path> {
    if id in PyLedger(s, cfg, name) && RecordTimestamp(PyLedger(s, cfg, name)[id]).Returned? then
      Some(ArchivePath(cfg, name, RecordTimestamp(PyLedger(s, cfg, name)[id]).value))
    else None
  }

  /** How far `shutil.rmtree` gets through `order`, the order it removes a tree in: the
      index of the first path it cannot remove (it raises there), or the length of `order`
      when it removes them all. */
  function RmtreeStop(order: seq<Path>, locked: set<Path>): (k: nat)
    ensures k <= |order|
    ensures forall i :: 0 <= i < k ==> order[i] !in locked
    ensures k < |order| ==> order[k] in locked
  {
    if order == [] || order[0] in locked then 0 else 1 + RmtreeStop(order[1..], locked)
  }

  /** The disk `rmtree` leaves: the paths of `order` before the first one it cannot remove
      are gone, everything else is in place. */
  function PyRmtree(d: Disk, order: seq<Path>, locked: set<Path>): Disk {
    var gone := set i | 0 <= i < RmtreeStop(order, locked) :: order[i];
    Disk(d.tree - gone, d.archives - gone, d.configs - gone)
  }

  /** Nothing at or below `world` is locked. */
  predicate RmtreeClears(d: Disk, world: Path, locked: set<Path>) {
    forall l :: l in locked ==> l !in Walk(d, world)
  }

  /** `rmtree` gets through its whole walk of `world` exactly when nothing there is locked,
      and then it removes exactly the subtree. */
  lemma PyRmtreeClears(d: Disk, world: Path, order: seq<Path>, locked: set<Path>)
    requires Enumerates(order, Walk(d, world))
    ensures RmtreeStop(order, locked) == |order| <==> RmtreeClears(d, world, locked)
    ensures RmtreeClears(d, world, locked) ==> PyRmtree(d, order, locked) == RemoveSubtree(d, world)
  {
    var k := RmtreeStop(order, locked);
    if k == |order| {
      forall l | l in locked ensures l !in Walk(d, world) {
        assert l !in order;
      }
      var gone := set i | 0 <= i < k :: order[i];
      forall q ensures q in gone <==> q in Walk(d, world) {
        if q in Walk(d, world) {
          assert q in order;
        }
      }
      var r := PyRmtree(d, order, locked);
      var c := RemoveSubtree(d, world);
      assert r.tree == c.tree && r.archives == c.archives && r.configs == c.configs;
    } else {
      assert order[k] in Walk(d, world);
    }
  }

  /** A failing `rmtree` removes only unlocked paths at or below `world`, and the path it
      stopped at is still there. */
  lemma PyRmtreeStops(d: Disk, world: Path, order: seq<Path>, locked: set<Path>)
    requires Enumerates(order, Walk(d, world))
    ensures forall q :: At(PyRmtree(d, order, locked), q) != At(d, q) ==>
      IsUnder(q, world) && q !in locked && !Stored(PyRmtree(d, order, locked), q)
    ensures RmtreeStop(order, locked) < |order| ==>
      Stored(PyRmtree(d, order, locked), order[RmtreeStop(order, locked)])
  {
    var k := RmtreeStop(order, locked);
    var r := PyRmtree(d, order, locked);
    forall q | At(r, q) != At(d, q) ensures IsUnder(q, world) && q !in locked && !Stored(r, q) {
      var i :| 0 <= i < k && order[i] == q;
      assert order[i] in Walk(d, world);
    }
    if k < |order| {
      assert order[k] in Walk(d, world);
      assert forall i :: 0 <= i < k ==> order[i] != order[k];
    }
  }

  /** `world` once `rmtree` has removed it, when it exists. */
  function PyCleared(d: Disk, world: Path): Disk {
    if Exists(d, world) then RemoveSubtree(d, world) else d
  }

  /** The end of the rollback succeeds from `beforeDelete`: `world` is absent or a directory
      `rmtree` can remove completely, it can be recreated, and every entry of the archive
      extracts. */
  predicate PyExtracts(beforeDelete: Disk, world: Path, zip: Path, locked: set<Path>) {
    && (!Exists(beforeDelete, world) || (IsDirectory(beforeDelete, world) && RmtreeClears(beforeDelete, world, locked)))
    && var d3 := CreateDirectories(PyCleared(beforeDelete, world), world);
    && d3.Returned? && zip in d3.value.archives
    && ExtractAll(d3.value, world, d3.value.archives[zip]).Returned?
  }

  /** The rollback ends the way it ends from `beforeDelete`: `world` removed when it exists,
      recreated, and every entry of the archive extracted into it. */
  predicate PyRestored(beforeDelete: Disk, world: Path, zip: Path, locked: set<Path>, r: Disk) {
    && PyExtracts(beforeDelete, world, zip, locked)
    && var d3 := CreateDirectories(PyCleared(beforeDelete, world), world).value;
    && ExtractAll(d3, world, d3.archives[zip]) == Returned(r)
  }

  /** The inputs of the automatic backup fit the disk, and one of its draws is free (it
      draws as soon as the instance loads). */
  predicate PySafetyReady(s: PyDisk, cfg: Config, name: string, safety: SafetyBackup) {
    && Enumerates(safety.walkOrder, Walk(s.disk, WorldDir(cfg, name)))
    && (forall i :: 0 <= i < |safety.draws| ==> IsHex(safety.draws[i], 2))
    && (exists i :: 0 <= i < |safety.draws| && safety.draws[i] !in PyLedger(s, cfg, name))
  }

  /** `rollback_instance(name, id)`: an instance that does not load raises (the read error
      of an unreadable `cfg.json`, a type error otherwise); an unknown id or
      a missing archive gives False with nothing changed; with `backup_on_rollback` the
      automatic backup runs, and when it raises or returns False the rollback stops there,
      before `world` is touched; then `world` is removed (`rmtree` on a file, or on a tree
      holding a path it cannot remove, fails: False), recreated and filled from the archive,
      and True means every entry was extracted. `beforeDelete` is the disk once the
      automatic backup is done; `deleteOrder` and `locked` are as for `ReplaceWorldPy`. */
  method RollbackInstancePy(s: PyDisk, cfg: Config, name: string, id: string, safety: SafetyBackup,
                            deleteOrder: seq<Path>, locked: set<Path>)
    returns (r: PyDisk, result: Outcome<bool>, safetyOutcome: Option<Outcome<bool>>, beforeDelete: Disk)
    requires Enumerates(deleteOrder, Walk(s.disk, WorldDir(cfg, name))) && BottomUp(deleteOrder)
    requires (cfg.backupOnRollback && PyLoaded(s, cfg, name) && PyArchiveOf(s, cfg, name, id).Some?
              && Exists(s.disk, PyArchiveOf(s, cfg, name, id).value)) ==> PySafetyReady(s, cfg, name, safety)
    ensures PyUnreadable(s, CfgJsonPath(cfg, name)) ==>
      r == s && result == Threw(PyReadError(s, CfgJsonPath(cfg, name)))
    ensures !PyUnreadable(s, CfgJsonPath(cfg, name)) && !PyLoaded(s, cfg, name) ==>
      r == s && result == Threw(TypeMismatch)
    ensures PyLoaded(s, cfg, name) && id !in PyLedger(s, cfg, name) ==> r == s && result == Returned(false)
    ensures PyLoaded(s, cfg, name) && id in PyLedger(s, cfg, name) && RecordTimestamp(PyLedger(s, cfg, name)[id]).Threw? ==>
      r == s && result == Threw(RecordTimestamp(PyLedger(s, cfg, name)[id]).error)
    ensures PyLoaded(s, cfg, name) && PyArchiveOf(s, cfg, name, id).Some? && !Exists(s.disk, PyArchiveOf(s, cfg, name, id).value) ==>
      r == s && result == Returned(false)
    // the automatic backup runs once the checks pass, exactly when it is configured
    ensures safetyOutcome.Some? <==>
      (cfg.backupOnRollback && PyLoaded(s, cfg, name) && PyArchiveOf(s, cfg, name, id).Some?
       && Exists(s.disk, PyArchiveOf(s, cfg, name, id).value))
    ensures safetyOutcome.Some? ==>
      exists sid :: PyBackupOutcome(s, cfg, name, LegacyRollbackDesc(id), safety.timestamp, safety.walkOrder,
                                    PyDisk(beforeDelete, r.json), safetyOutcome.value, sid)
    ensures safetyOutcome.None? ==> beforeDelete == s.disk
    ensures safetyOutcome.Some? && safetyOutcome.value != Returned(true) ==>
      && r.disk == beforeDelete
      && UnchangedUnder(s.disk, r.disk, WorldDir(cfg, name))
      && result == (if safetyOutcome.value.Threw? then safetyOutcome.value else Returned(false))
    // past the checks and the automatic backup: True exactly when the archive extracts
    ensures (PyLoaded(s, cfg, name) && PyArchiveOf(s, cfg, name, id).Some?
             && Exists(s.disk, PyArchiveOf(s, cfg, name, id).value)
             && (safetyOutcome.None? || safetyOutcome == Some(Returned(true)))) ==>
      var world := WorldDir(cfg, name);
      var zip := PyArchiveOf(s, cfg, name, id).value;
      && result.Returned?
      && (result.value <==> PyExtracts(beforeDelete, world, zip, locked))
      && (Exists(beforeDelete, world) && !IsDirectory(beforeDelete, world) ==> r.disk == beforeDelete)
      && (IsDirectory(beforeDelete, world) && !RmtreeClears(beforeDelete, world, locked) ==>
            r.disk == PyRmtree(beforeDelete, deleteOrder, locked))
      && ((!Exists(beforeDelete, world) || (IsDirectory(beforeDelete, world) && RmtreeClears(beforeDelete, world, locked))) ==>
            ExtractedAsFarAs(PyCleared(beforeDelete, world), world, zip, r.disk))
    ensures result == Returned(true) ==>
      && PyLoaded(s, cfg, name) && PyArchiveOf(s, cfg, name, id).Some?
      && Exists(s.disk, PyArchiveOf(s, cfg, name, id).value)
      && (cfg.backupOnRollback <==> safetyOutcome == Some(Returned(true)))
      && UnchangedUnder(s.disk, beforeDelete, WorldDir(cfg, name))
      && PyRestored(beforeDelete, WorldDir(cfg, name), PyArchiveOf(s, cfg, name, id).value, locked, r.disk)
  {
    safetyOutcome := None;
    beforeDelete := s.disk;
    var loaded := GetInstancePy(s, cfg, name);
    if loaded.Threw? {
      return s, Threw(loaded.error), safetyOutcome, beforeDelete;
    }
    var inst := loaded.value;
    if inst.None? || !inst.value["backups"].PDict? {
      // `None.get(...)`, or a `backups` value that cannot be searched by key
      return s, Threw(TypeMismatch), safetyOutcome, beforeDelete;
    }
    var ledger := inst.value["backups"].entries;
    if id !in ledger {
      return s, Returned(false), safetyOutcome, beforeDelete;
    }
    var stamp := RecordTimestamp(ledger[id]);
    if stamp.Threw? {
      return s, Threw(stamp.error), safetyOutcome, beforeDelete;
    }
    var zip := ArchivePath(cfg, name, stamp.value);
    if !Exists(s.disk, zip) {
      return s, Returned(false), safetyOutcome, beforeDelete;
    }
    var s1 := s;
    if cfg.backupOnRollback {
      var outcome, safetyId;
      s1, outcome, safetyId := BackupInstancePy(s, cfg, name, LegacyRollbackDesc(id), safety.timestamp, safety.draws, safety.walkOrder);
      safetyOutcome := Some(outcome);
      if outcome != Returned(true) {
        return s1, (if outcome.Threw? then outcome else Returned(false)), safetyOutcome, s1.disk;
      }
    }
    beforeDelete := s1.disk;
    WalkUnchanged(s.disk, s1.disk, WorldDir(cfg, name));
    var d, ok := ReplaceWorldPy(s1.disk, WorldDir(cfg, name), zip, deleteOrder, locked);
    r := PyDisk(d, s1.json);
    result := Returned(ok);
  }

  /** The end of `rollback_instance`: `rmtree(world)` when it exists, then the extraction.
      `deleteOrder` is the order `rmtree` removes the tree in, each entry before its
      directory; `locked` are the paths the system refuses to remove. An error in `rmtree`
      gives False and leaves the removal as far as it got. */
  method ReplaceWorldPy(d1: Disk, world: Path, zip: Path, deleteOrder: seq<Path>, locked: set<Path>)
    returns (r: Disk, ok: bool)
    requires Enumerates(deleteOrder, Walk(d1, world)) && BottomUp(deleteOrder)
    ensures Exists(d1, world) && !IsDirectory(d1, world) ==> r == d1 && !ok
    ensures IsDirectory(d1, world) && !RmtreeClears(d1, world, locked) ==>
      r == PyRmtree(d1, deleteOrder, locked) && !ok
    ensures ok <==> PyExtracts(d1, world, zip, locked)
    ensures ok ==> PyRestored(d1, world, zip, locked, r)
    ensures (!Exists(d1, world) || (IsDirectory(d1, world) && RmtreeClears(d1, world, locked))) ==>
      ExtractedAsFarAs(PyCleared(d1, world), world, zip, r)
  {
    var d2 := d1;
    if Exists(d1, world) {
      if !IsDirectory(d1, world) {
        // `rmtree` refuses a path that is not a directory
        return d1, false;
      }
      PyRmtreeClears(d1, world, deleteOrder, locked);
      d2 := PyRmtree(d1, deleteOrder, locked);
      if RmtreeStop(deleteOrder, locked) < |deleteOrder| {
        // `rmtree` raised at a path it could not remove
        return d2, false;
      }
    }
    r, ok := ExtractBackup(d2, world, zip);
  }
}
