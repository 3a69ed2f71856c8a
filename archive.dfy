/** The archiving helpers the backup engine is built on: recursive deletion
    (util/plugIns/deleteRecursivelyWithProgress.kt and Kotlin's `File.deleteRecursively`),
    zipping a folder (util/zipWithProgress.kt) and extracting an archive into a folder
    (the extraction loops of both `rollbackInstance` files). */
module Archive {
  import opened Text
  import opened Configs
  import opened FileSystem
  import opened Progress

  // ---------------------------------------------------------------------------------------
  // Deletion

  /** A walk order that lists children before their parent directory (`walkBottomUp`). */
  predicate BottomUp(order: seq<Path>) {
    forall i, j :: 0 <= i < j < |order| ==> !IsUnder(order[j], order[i])
  }

  /** `File.delete()`: fails (and changes nothing) on a path that cannot be removed
      (`locked`) or on a directory that still has something below it. */
  function DeleteOne(d: Disk, q: Path, locked: set<Path>): Disk {
    if q in locked || HasStoredBelow(d, q) then d else RemovePath(d, q)
  }

  /** A path below `p` survives a bottom-up deletion iff it is, or lies above, a path below
      `p` that cannot be removed. */
  predicate Kept(d: Disk, p: Path, locked: set<Path>, q: Path) {
    exists l :: l in locked && l in Walk(d, p) && IsUnder(l, q)
  }

  /** The outcome of deleting everything at or below `p`, stated without any order:
      the survivors are exactly what lies outside `p` or above an undeletable path. */
  function Pruned(d: Disk, p: Path, locked: set<Path>): Disk {
    Disk(
      map q | q in d.tree && (!IsUnder(q, p) || Kept(d, p, locked, q)) :: d.tree[q],
      map q | q in d.archives && (!IsUnder(q, p) || Kept(d, p, locked, q)) :: d.archives[q],
      map q | q in d.configs && (!IsUnder(q, p) || Kept(d, p, locked, q)) :: d.configs[q])
  }

  /** With nothing locked below `p`, the whole subtree goes. */
  lemma PrunedWithoutLocks(d: Disk, p: Path, locked: set<Path>)
    requires forall l :: l in locked ==> l !in Walk(d, p)
    ensures Pruned(d, p, locked) == RemoveSubtree(d, p)
  {
  }

  /** A locked path below `p` survives, and so does every directory above it up to `p`. */
  lemma LockedPathSurvives(d: Disk, p: Path, locked: set<Path>, l: Path, q: Path)
    requires l in locked && l in d.tree && IsUnder(l, q) && IsUnder(q, p) && q in d.tree
    ensures l in Pruned(d, p, locked).tree && q in Pruned(d, p, locked).tree
  {
    assert Kept(d, p, locked, l) && Kept(d, p, locked, q);
  }

  /** `r` is `d` with some stored paths taken away and nothing else changed. */
  predicate Shrunk(r: Disk, d: Disk) {
    && (forall q :: q in r.tree ==> q in d.tree && r.tree[q] == d.tree[q])
    && (forall q :: q in r.archives ==> q in d.archives && r.archives[q] == d.archives[q])
    && (forall q :: q in r.configs ==> q in d.configs && r.configs[q] == d.configs[q])
    && (forall q :: q in d.tree && Stored(r, q) ==> q in r.tree)
    && (forall q :: q in d.archives && Stored(r, q) ==> q in r.archives)
    && (forall q :: q in d.configs && Stored(r, q) ==> q in r.configs)
  }

  lemma ShrunkIsPruned(r: Disk, d: Disk, p: Path, locked: set<Path>)
    requires Shrunk(r, d)
    requires forall q :: Stored(r, q) <==> Stored(d, q) && (!IsUnder(q, p) || Kept(d, p, locked, q))
    ensures r == Pruned(d, p, locked)
  {
    var e := Pruned(d, p, locked);
    assert r.tree == e.tree;
    assert r.archives == e.archives;
    assert r.configs == e.configs;
  }

  /** The bookkeeping of one bottom-up deletion step: with every path below `q` already
      visited, `q` is removed exactly when it is not kept. */
  lemma {:induction false} DeleteStep(d: Disk, p: Path, locked: set<Path>, order: seq<Path>, i: nat, r: Disk)
    requires Enumerates(order, Walk(d, p)) && BottomUp(order) && i < |order|
    requires Shrunk(r, d)
    requires forall q :: Stored(r, q) <==> Stored(d, q) && (!IsUnder(q, p) || q in order[i..] || Kept(d, p, locked, q))
    ensures Shrunk(DeleteOne(r, order[i], locked), d)
    ensures forall q :: Stored(DeleteOne(r, order[i], locked), q) <==>
      Stored(d, q) && (!IsUnder(q, p) || q in order[i + 1..] || Kept(d, p, locked, q))
  {
    var q := order[i];
    assert q in Walk(d, p);
    assert order[i..] == [q] + order[i + 1..];
    VisitedBelow(d, p, order, i);
    KeptDecided(d, p, locked, order, i, r);
    if !(q in locked || HasStoredBelow(r, q)) {
      RemoveKeepsShrunk(r, d, q);
    }
  }

  /** Removing one more path keeps `r` a shrunk copy of `d`. */
  lemma RemoveKeepsShrunk(r: Disk, d: Disk, q: Path)
    requires Shrunk(r, d)
    ensures Shrunk(RemovePath(r, q), d)
  {
  }

  /** In a bottom-up walk, `order[i]` comes once, and every stored path strictly below it
      comes before it. */
  lemma VisitedBelow(d: Disk, p: Path, order: seq<Path>, i: nat)
    requires Enumerates(order, Walk(d, p)) && BottomUp(order) && i < |order|
    ensures order[i] !in order[i + 1..]
    ensures forall q' :: Stored(d, q') && IsStrictlyUnder(q', order[i]) ==> q' !in order[i..]
  {
    var q := order[i];
    assert q !in order[i + 1..] by {
      forall j | i + 1 <= j < |order| ensures order[j] != q { }
    }
    forall q' | Stored(d, q') && IsStrictlyUnder(q', q)
      ensures q' !in order[i..]
    {
      forall j | i <= j < |order| ensures order[j] != q' {
        if j > i {
          assert !IsUnder(order[j], order[i]);
        }
      }
    }
  }

  /** With everything below `order[i]` visited, its delete fails exactly when it is kept. */
  lemma KeptDecided(d: Disk, p: Path, locked: set<Path>, order: seq<Path>, i: nat, r: Disk)
    requires Enumerates(order, Walk(d, p)) && i < |order|
    requires Shrunk(r, d)
    requires forall q :: Stored(r, q) <==> Stored(d, q) && (!IsUnder(q, p) || q in order[i..] || Kept(d, p, locked, q))
    requires forall q' :: Stored(d, q') && IsStrictlyUnder(q', order[i]) ==> q' !in order[i..]
    ensures (order[i] in locked || HasStoredBelow(r, order[i])) <==> Kept(d, p, locked, order[i])
  {
    var q := order[i];
    assert q in Walk(d, p);
    if q in locked {
      assert Kept(d, p, locked, q);
    } else if HasStoredBelow(r, q) {
      var q' :| Stored(r, q') && IsStrictlyUnder(q', q);
      UnderTransitive(q', q, p);
      var l :| l in locked && l in Walk(d, p) && IsUnder(l, q');
      UnderTransitive(l, q', q);
      assert Kept(d, p, locked, q);
    } else {
      forall l | l in locked && l in Walk(d, p)
        ensures !IsUnder(l, q)
      {
        assert Kept(d, p, locked, l);
        assert Stored(r, l) && !IsStrictlyUnder(l, q);
        if |l| == |q| {
          assert l[..|q|] == l;
        }
      }
      assert !Kept(d, p, locked, q);
    }
  }

  /** `File.deleteRecursively()`: every walked path is deleted bottom-up; a failed delete is
      skipped. The result tells whether nothing was left behind. */
  method DeleteRecursively(d: Disk, p: Path, walkOrder: seq<Path>, locked: set<Path>) returns (r: Disk, ok: bool)
    requires Enumerates(walkOrder, Walk(d, p)) && BottomUp(walkOrder)
    ensures r == Pruned(d, p, locked)
    ensures ok <==> forall q :: q in walkOrder ==> !Stored(r, q)
  {
    r := d;
    ok := true;
    var i := 0;
    while i < |walkOrder|
      invariant 0 <= i <= |walkOrder|
      invariant Shrunk(r, d)
      invariant forall q :: Stored(r, q) <==> Stored(d, q) && (!IsUnder(q, p) || q in walkOrder[i..] || Kept(d, p, locked, q))
      invariant ok <==> forall j :: 0 <= j < i ==> !Stored(r, walkOrder[j])
    {
      DeleteStep(d, p, locked, walkOrder, i, r);
      var q := walkOrder[i];
      r := DeleteOne(r, q, locked);
      ok := !Stored(r, q) && ok;
      i := i + 1;
    }
    ShrunkIsPruned(r, d, p, locked);
  }

  function Min(a: int, b: int): int {
    if a < b then a else b
  }

  /** `File.deleteRecursivelyWithProgress(label)`: the same bottom-up deletion with failures
      ignored, and a progress bar started at the number of walked paths and stepped once
      per path. Its message window is the smaller of that number and `logMaxLines`. */
  method DeleteRecursivelyWithProgress(d: Disk, cfg: Config, p: Path, title: string,
                                       walkOrder: seq<Path>, locked: set<Path>)
    returns (r: Disk, bar: ProgressBar)
    requires Enumerates(walkOrder, Walk(d, p)) && BottomUp(walkOrder)
    ensures r == Pruned(d, p, locked)
    ensures bar.title == title && bar.useMessages == cfg.showFullProgress
    ensures bar.maxMessageLines == Min(|walkOrder|, cfg.logMaxLines)
    ensures bar.started && bar.total == |walkOrder| && bar.current == |walkOrder|
    ensures bar.messages == []
  {
    bar := new ProgressBar(title, 30, cfg.showFullProgress, Min(|walkOrder|, cfg.logMaxLines));
    bar.Start(|walkOrder|);
    r := d;
    var i := 0;
    while i < |walkOrder|
      invariant 0 <= i <= |walkOrder|
      invariant Shrunk(r, d)
      invariant forall q :: Stored(r, q) <==> Stored(d, q) && (!IsUnder(q, p) || q in walkOrder[i..] || Kept(d, p, locked, q))
      invariant bar.Valid() && bar.started && bar.total == |walkOrder| && bar.current == i
      invariant bar.title == title && bar.useMessages == cfg.showFullProgress
      invariant bar.maxMessageLines == Min(|walkOrder|, cfg.logMaxLines) && bar.messages == []
    {
      DeleteStep(d, p, locked, walkOrder, i, r);
      r := DeleteOne(r, walkOrder[i], locked);
      bar.Step(1, None);
      i := i + 1;
    }
    ShrunkIsPruned(r, d, p, locked);
  }

  // ---------------------------------------------------------------------------------------
  // Zipping

  /** The entry name of the file at `rel` below the archived folder: the relative path
      with '/' between segments and every '\\' turned into '/'. */
  function EntryName(rel: Path): string {
    ReplaceChar(Join(rel, "/"), '\\', '/')
  }

  /** `destination.resolveSibling("<file name>.zip")`. */
  function ZipTarget(dest: Path): (t: Path)
    requires |dest| > 0
    ensures |t| == |dest| && t[..|t| - 1] == dest[..|dest| - 1]
  {
    dest[..|dest| - 1] + [dest[|dest| - 1] + ".zip"]
  }

  /** The walk filtered to regular files, in walk order. */
  function RegularFiles(d: Disk, order: seq<Path>): (r: seq<Path>)
    ensures forall q :: q in r <==> q in order && IsPlainFile(d, q)
    ensures (forall i, j :: 0 <= i < j < |order| ==> order[i] != order[j]) ==>
      forall i, j :: 0 <= i < j < |r| ==> r[i] != r[j]
  {
    if order == [] then []
    else
      var last := order[|order| - 1];
      var init := order[..|order| - 1];
      assert forall q :: q in order <==> q in init || q == last;
      RegularFiles(d, init) + (if IsPlainFile(d, last) then [last] else [])
  }

  /** The archive entry for the plain file `q` below `src`. */
  function EntryFor(d: Disk, src: Path, q: Path): ZipEntry
    requires IsPlainFile(d, q) && IsUnder(q, src)
  {
    ZipEntry(EntryName(q[|src|..]), d.tree[q].content)
  }

  function EntriesFor(d: Disk, src: Path, files: seq<Path>): (es: seq<ZipEntry>)
    requires forall q :: q in files ==> IsPlainFile(d, q) && IsUnder(q, src)
    ensures |es| == |files|
  {
    seq(|files|, i requires 0 <= i < |files| => EntryFor(d, src, files[i]))
  }

  predicate UniqueNames(es: seq<ZipEntry>) {
    forall i, j :: 0 <= i < j < |es| ==> es[i].name != es[j].name
  }

  /** The first entry, at `k` or later, whose name repeats the name of an earlier entry:
      where `ZipOutputStream.putNextEntry` throws. */
  function FirstRepeat(es: seq<ZipEntry>, k: nat): (r: Option<nat>)
    ensures r.Some? ==> k <= r.value < |es|
    decreases |es| - k
  {
    if k >= |es| then None
    else if exists i :: 0 <= i < k && es[i].name == es[k].name then Some(k)
    else FirstRepeat(es, k + 1)
  }

  /** The search finds a repeat exactly when there is one: `Some(k)` names an entry that
      repeats an earlier name with no repeat before it, and `None` means all names differ. */
  lemma {:induction false} FirstRepeatCorrect(es: seq<ZipEntry>, k: nat)
    requires k <= |es|
    ensures var r := FirstRepeat(es, k);
      && (r.Some? ==> k <= r.value < |es| && exists i :: 0 <= i < r.value && es[i].name == es[r.value].name)
      && (r.Some? ==> forall j, i :: k <= j < r.value && 0 <= i < j ==> es[i].name != es[j].name)
      && (r.None? ==> forall j, i :: k <= j < |es| && 0 <= i < j ==> es[i].name != es[j].name)
    decreases |es| - k
  {
    if k < |es| && !exists i :: 0 <= i < k && es[i].name == es[k].name {
      FirstRepeatCorrect(es, k + 1);
    }
  }

  /** `zipWithProgress(source, destination)`: the disk afterwards and the call's outcome.
      A source that does not exist makes the walk throw; a walk without regular files
      returns false and writes nothing; otherwise the archive `<destination>.zip` is
      written entry by entry, and a repeated entry name throws after the earlier entries
      were written (closing the stream finishes the partial archive). */
  function Zip(d: Disk, src: Path, dest: Path, walkOrder: seq<Path>): (Disk, Outcome<bool>)
    requires |dest| > 0
    requires Enumerates(walkOrder, Walk(d, src))
  {
    if !Exists(d, src) then (d, Threw(IoError))
    else
      var files := RegularFiles(d, walkOrder);
      if files == [] then (d, Returned(false))
      else
        var target := ZipTarget(dest);
        if !IsDirectory(d, target[..|target| - 1]) || IsDirectory(d, target) then (d, Threw(IoError))
        else
          WriteEntries(d, target, EntriesFor(d, src, files))
  }

  /** The `ZipOutputStream` block: entries are written in order until a name repeats. */
  function WriteEntries(d: Disk, target: Path, es: seq<ZipEntry>): (Disk, Outcome<bool>) {
    match FirstRepeat(es, 0)
    case None => (WriteArchive(d, target, es), Returned(true))
    case Some(k) => (WriteArchive(d, target, es[..k]), Threw(DuplicateZipEntry))
  }

  /** The two loops of `zipWithProgress`: collect the regular files of the walk, then write
      one entry per file. */
  method ZipWithProgress(d: Disk, src: Path, dest: Path, walkOrder: seq<Path>)
    returns (r: Disk, result: Outcome<bool>)
    requires |dest| > 0
    requires Enumerates(walkOrder, Walk(d, src))
    ensures (r, result) == Zip(d, src, dest, walkOrder)
  {
    if !Exists(d, src) {
      return d, Threw(IoError);
    }
    var files := CollectRegularFiles(d, walkOrder);
    if files == [] {
      return d, Returned(false);
    }
    var target := ZipTarget(dest);
    if !IsDirectory(d, target[..|target| - 1]) || IsDirectory(d, target) {
      return d, Threw(IoError);
    }
    r, result := WriteEntryLoop(d, src, target, files);
  }

  /** The first loop of `zipWithProgress`: the regular files of the walk, in walk order. */
  method CollectRegularFiles(d: Disk, walkOrder: seq<Path>) returns (files: seq<Path>)
    ensures files == RegularFiles(d, walkOrder)
  {
    files := [];
    var i := 0;
    while i < |walkOrder|
      invariant 0 <= i <= |walkOrder|
      invariant files == RegularFiles(d, walkOrder[..i])
    {
      assert walkOrder[..i + 1][..i] == walkOrder[..i];
      if IsPlainFile(d, walkOrder[i]) {
        files := files + [walkOrder[i]];
      }
      i := i + 1;
    }
    assert walkOrder[..i] == walkOrder;
  }

  /** The second loop of `zipWithProgress`: one entry per collected file. */
  method WriteEntryLoop(d: Disk, src: Path, target: Path, files: seq<Path>) returns (r: Disk, result: Outcome<bool>)
    requires forall q :: q in files ==> IsPlainFile(d, q) && IsUnder(q, src)
    ensures (r, result) == WriteEntries(d, target, EntriesFor(d, src, files))
  {
    ghost var all := EntriesFor(d, src, files);
    var entries: seq<ZipEntry> := [];
    var names: set<string> := {};
    var j := 0;
    while j < |files|
      invariant 0 <= j <= |files|
      invariant entries == all[..j]
      invariant names == NamesOf(entries)
      invariant FirstRepeat(all, 0) == FirstRepeat(all, j)
    {
      assert files[j] in files;
      var e := EntryFor(d, src, files[j]);
      RepeatAt(all, j);
      if e.name in names {
        return WriteArchive(d, target, entries), Threw(DuplicateZipEntry);
      }
      EntriesForStep(d, src, files, j);
      entries := entries + [e];
      names := names + {e.name};
      j := j + 1;
    }
    assert entries == all;
    return WriteArchive(d, target, entries), Returned(true);
  }

  lemma EntriesForStep(d: Disk, src: Path, files: seq<Path>, j: nat)
    requires forall q :: q in files ==> IsPlainFile(d, q) && IsUnder(q, src)
    requires j < |files|
    ensures files[j] in files
    ensures EntriesFor(d, src, files)[..j + 1] == EntriesFor(d, src, files)[..j] + [EntryFor(d, src, files[j])]
  {
  }

  /** The names of a list of entries. */
  function NamesOf(es: seq<ZipEntry>): (r: set<string>)
    ensures forall x :: x in r <==> exists i :: 0 <= i < |es| && es[i].name == x
  {
    if es == [] then {} else NamesOf(es[..|es| - 1]) + {es[|es| - 1].name}
  }

  /** One step of the search for a repeated name. */
  lemma RepeatAt(es: seq<ZipEntry>, j: nat)
    requires j < |es|
    ensures es[j].name in NamesOf(es[..j]) ==> FirstRepeat(es, j) == Some(j)
    ensures es[j].name !in NamesOf(es[..j]) ==> FirstRepeat(es, j) == FirstRepeat(es, j + 1)
  {
  }

  /** With no regular file below an existing source, nothing is archived and the call
      returns false. */
  lemma ZipOfNoFiles(d: Disk, src: Path, dest: Path, walkOrder: seq<Path>)
    requires |dest| > 0 && Enumerates(walkOrder, Walk(d, src))
    requires Exists(d, src) && forall q :: IsUnder(q, src) ==> !IsPlainFile(d, q)
    ensures Zip(d, src, dest, walkOrder) == (d, Returned(false))
  {
    var files := RegularFiles(d, walkOrder);
    DistinctCount(files, {});
  }

  /** A successful zip writes only `<destination>.zip`, with exactly one entry per regular
      file below the source, named by its relative path and holding its content. */
  lemma ZipArchiveContents(d: Disk, src: Path, dest: Path, walkOrder: seq<Path>)
    requires |dest| > 0 && Enumerates(walkOrder, Walk(d, src))
    requires Zip(d, src, dest, walkOrder).1 == Returned(true)
    ensures var r := Zip(d, src, dest, walkOrder).0; var t := ZipTarget(dest);
      && t in r.archives
      && r == WriteArchive(d, t, r.archives[t])
      && UniqueNames(r.archives[t])
      && (forall q :: IsPlainFile(d, q) && IsUnder(q, src) ==> EntryFor(d, src, q) in r.archives[t])
      && (forall e :: e in r.archives[t] ==> exists q :: IsPlainFile(d, q) && IsUnder(q, src) && e == EntryFor(d, src, q))
      && |r.archives[t]| == |set q | q in Walk(d, src) && IsPlainFile(d, q)|
  {
    var files := RegularFiles(d, walkOrder);
    var es := EntriesFor(d, src, files);
    assert FirstRepeat(es, 0) == None;
    FirstRepeatCorrect(es, 0);
    EntriesCoverFiles(d, src, walkOrder);
    DistinctCount(files, set q | q in Walk(d, src) && IsPlainFile(d, q));
  }

  /** The entries of a walk's regular files are exactly the entries of the plain files
      below the source. */
  lemma EntriesCoverFiles(d: Disk, src: Path, walkOrder: seq<Path>)
    requires Enumerates(walkOrder, Walk(d, src))
    ensures var es := EntriesFor(d, src, RegularFiles(d, walkOrder));
      && (forall q :: IsPlainFile(d, q) && IsUnder(q, src) ==> EntryFor(d, src, q) in es)
      && (forall e :: e in es ==> exists q :: IsPlainFile(d, q) && IsUnder(q, src) && e == EntryFor(d, src, q))
  {
    var files := RegularFiles(d, walkOrder);
    var es := EntriesFor(d, src, files);
    forall q | IsPlainFile(d, q) && IsUnder(q, src)
      ensures EntryFor(d, src, q) in es
    {
      assert q in Walk(d, src);
      var i :| 0 <= i < |files| && files[i] == q;
      assert es[i] == EntryFor(d, src, q);
    }
    forall e | e in es
      ensures exists q :: IsPlainFile(d, q) && IsUnder(q, src) && e == EntryFor(d, src, q)
    {
      var i :| 0 <= i < |es| && es[i] == e;
      assert files[i] in walkOrder;
    }
  }

  /** A sequence without repeats that lists exactly the members of `s` has `|s|` elements. */
  lemma {:induction false} DistinctCount<T>(xs: seq<T>, s: set<T>)
    requires forall i, j :: 0 <= i < j < |xs| ==> xs[i] != xs[j]
    requires forall x :: x in xs <==> x in s
    ensures |xs| == |s|
  {
    if xs != [] {
      var last := xs[|xs| - 1];
      var init := xs[..|xs| - 1];
      assert forall x :: x in init <==> x in s - {last} by {
        forall x ensures x in init <==> x in s - {last} {
          if x in init {
            var i :| 0 <= i < |init| && init[i] == x;
            assert xs[i] != xs[|xs| - 1];
          }
          if x in s - {last} {
            var i :| 0 <= i < |xs| && xs[i] == x;
            assert i != |xs| - 1;
            assert init[i] == x;
          }
        }
      }
      DistinctCount(init, s - {last});
    }
  }

  // ---------------------------------------------------------------------------------------
  // Extraction

  /** `folder.resolve(name)`: the name's non-empty '/'-separated segments below the folder;
      a name starting with '/' is absolute and replaces the folder. */
  function Resolve(dir: Path, name: string): Path {
    if StartsWith(name, "/") then ParsePath(name) else dir + ParsePath(name)
  }

  /** One entry of the extraction loop: a directory entry becomes a directory; a file entry
      gets its parent directories and is copied over whatever file is there
      (`REPLACE_EXISTING`, which still refuses a non-empty directory). */
  function ExtractEntry(d: Disk, dir: Path, e: ZipEntry): Outcome<Disk> {
    var out := Resolve(dir, e.name);
    if IsDirectoryEntry(e) then CreateDirectories(d, out)
    else if out == [] then Threw(NullPointer)   // the root has no parent
    else
      match CreateDirectories(d, out[..|out| - 1])
      case Threw(x) => Threw(x)
      case Returned(d1) =>
        if IsDirectory(d1, out) && HasStoredBelow(d1, out) then Threw(DirectoryNotEmpty)
        else Returned(WriteFile(d1, out, e.data))
  }

  /** The entries extracted in archive order; the first exception ends the extraction. */
  function ExtractAll(d: Disk, dir: Path, es: seq<ZipEntry>): Outcome<Disk>
    decreases |es|
  {
    if es == [] then Returned(d)
    else
      match ExtractAll(d, dir, es[..|es| - 1])
      case Threw(x) => Threw(x)
      case Returned(d1) => ExtractEntry(d1, dir, es[|es| - 1])
  }

  /** The `forEach` over the archive's entries in both `rollbackInstance` files. */
  method ExtractEntries(d: Disk, dir: Path, es: seq<ZipEntry>) returns (r: Outcome<Disk>, reached: Disk)
    ensures r == ExtractAll(d, dir, es)
    ensures r.Returned? ==> reached == r.value
    // `reached` is the disk as the last entry that went through left it
    ensures exists i :: 0 <= i <= |es| && ExtractAll(d, dir, es[..i]) == Returned(reached)
  {
    var cur := d;
    var i := 0;
    while i < |es|
      invariant 0 <= i <= |es|
      invariant ExtractAll(d, dir, es[..i]) == Returned(cur)
    {
      ExtractOneMore(d, dir, es, i, cur);
      var step := ExtractEntry(cur, dir, es[i]);
      if step.Threw? {
        ThrowPersists(d, dir, es, i + 1);
        return step, cur;
      }
      cur := step.value;
      i := i + 1;
    }
    assert es[..i] == es;
    return Returned(cur), cur;
  }

  lemma ExtractOneMore(d: Disk, dir: Path, es: seq<ZipEntry>, i: nat, cur: Disk)
    requires i < |es| && ExtractAll(d, dir, es[..i]) == Returned(cur)
    ensures ExtractAll(d, dir, es[..i + 1]) == ExtractEntry(cur, dir, es[i])
  {
    assert es[..i + 1][..i] == es[..i];
  }

  /** Once an entry throws, the whole extraction has thrown that exception. */
  lemma {:induction false} ThrowPersists(d: Disk, dir: Path, es: seq<ZipEntry>, n: nat)
    requires n <= |es| && ExtractAll(d, dir, es[..n]).Threw?
    ensures ExtractAll(d, dir, es) == ExtractAll(d, dir, es[..n])
    decreases |es| - n
  {
    if n < |es| {
      assert es[..n + 1][..n] == es[..n];
      ThrowPersists(d, dir, es, n + 1);
    } else {
      assert es[..n] == es;
    }
  }

  // ---------------------------------------------------------------------------------------
  // Restoring what was archived

  /** The path a file below `src` takes when restored below `dir`. */
  function Moved(dir: Path, src: Path, f: Path): Path
    requires IsUnder(f, src)
  {
    dir + f[|src|..]
  }

  /** A plain file is never the directory it was found in, so it lies strictly below it. */
  lemma FileStrictlyBelow(d: Disk, src: Path, f: Path)
    requires WellFormed(d) && IsDirectory(d, src) && IsPlainFile(d, f) && IsUnder(f, src)
    ensures |f| > |src|
  {
    assert f != src;
    assert f[..|src|] == src;
  }

  /** Two plain files: the relative path of one is never a proper prefix of the relative
      path of the other, because every proper ancestor of a file is a directory. */
  lemma RelativeNotPrefix(d: Disk, src: Path, f: Path, g: Path, m: nat)
    requires WellFormed(d) && IsPlainFile(d, f) && IsPlainFile(d, g)
    requires IsUnder(f, src) && IsUnder(g, src) && m < |f| - |src|
    ensures g[|src|..] != f[|src|..][..m]
  {
    AncestorsAreDirectories(d, f);
    var a := f[..|src| + m];
    assert IsDirectory(d, a);
    assert a == src + f[|src|..][..m];
    assert g == src + g[|src|..];
  }

  /** The name of a restored file resolves back to its relative path. */
  lemma EntryNameResolves(dir: Path, rel: Path)
    requires |rel| >= 1 && PortableSegments(rel)
    ensures Resolve(dir, EntryName(rel)) == dir + rel
    ensures !EndsWith(EntryName(rel), "/")
  {
    var j := Join(rel, "/");
    forall i | 0 <= i < |j| ensures EntryName(rel)[i] == j[i] {
      assert j[i] in j;
      JoinChars(rel, "/", j[i]);
    }
    assert EntryName(rel) == j;
    JoinFirst(rel, "/");
    JoinLast(rel, "/");
    assert rel[0][0] in rel[0];
    assert rel[|rel| - 1][|rel[|rel| - 1]| - 1] in rel[|rel| - 1];
    ParseJoinedPath(rel);
  }

  /** What a restoration needs of the archived disk `d` and of the disk `d1` it is
      restored into. */
  ghost predicate RestoreSetting(d: Disk, src: Path, files: seq<Path>, d1: Disk, dir: Path) {
    && WellFormed(d) && IsDirectory(d, src)
    && (forall f :: f in files ==> IsPlainFile(d, f) && IsUnder(f, src) && PortableSegments(f[|src|..]))
    && (forall i, j :: 0 <= i < j < |files| ==> files[i] != files[j])
    && WellFormed(d1) && IsDirectory(d1, dir) && !HasStoredBelow(d1, dir)
  }

  /** The state after restoring the first `n` files: outside `dir` nothing changed; each
      restored file holds its content; everything else below `dir` is a directory on the
      way to a restored file. */
  ghost predicate Restored(dk: Disk, d: Disk, src: Path, files: seq<Path>, n: nat, d1: Disk, dir: Path)
    requires n <= |files|
    requires forall f :: f in files ==> IsUnder(f, src) && f in d.tree
  {
    && SameOutside(dk, d1, dir)
    && Placed(dk, d, src, files, n, dir)
    && OnlyPlaced(dk, src, files, n, dir)
  }

  /** Apart from the tree strictly below `dir`, `dk` is `d1`. */
  ghost predicate SameOutside(dk: Disk, d1: Disk, dir: Path) {
    && dk.archives == d1.archives && dk.configs == d1.configs
    && (forall q :: !IsStrictlyUnder(q, dir) ==> (q in dk.tree <==> q in d1.tree))
    && (forall q :: !IsStrictlyUnder(q, dir) && q in dk.tree ==> dk.tree[q] == d1.tree[q])
  }

  /** The first `n` files sit at their new places with their old content. */
  ghost predicate Placed(dk: Disk, d: Disk, src: Path, files: seq<Path>, n: nat, dir: Path)
    requires n <= |files|
    requires forall f :: f in files ==> IsUnder(f, src) && f in d.tree
  {
    forall i :: 0 <= i < n ==> Moved(dir, src, files[i]) in dk.tree && dk.tree[Moved(dir, src, files[i])] == d.tree[files[i]]
  }

  /** Below `dir` there is nothing but the first `n` restored files and directories above them. */
  ghost predicate OnlyPlaced(dk: Disk, src: Path, files: seq<Path>, n: nat, dir: Path)
    requires n <= |files|
    requires forall f :: f in files ==> IsUnder(f, src)
  {
    forall q :: q in dk.tree && IsStrictlyUnder(q, dir) ==>
      (exists i :: 0 <= i < n && q == Moved(dir, src, files[i]))
      || (dk.tree[q] == Dir && exists i :: 0 <= i < n && IsStrictlyUnder(Moved(dir, src, files[i]), q))
  }

  lemma PrefixOfExtension(parent: Path, dir: Path, q: Path)
    requires IsUnder(parent, dir) && IsUnder(parent, q)
    ensures IsUnder(dir, q) || IsStrictlyUnder(q, dir)
  {
    if |q| > |dir| {
      assert q[..|dir|] == parent[..|q|][..|dir|];
    } else {
      assert dir[..|q|] == parent[..|dir|][..|q|];
    }
  }

  /** `Files.createDirectories(parent)` succeeds when everything on the way is a directory
      or missing. */
  lemma CreateParentSucceeds(dk: Disk, dir: Path, parent: Path)
    requires IsUnder(parent, dir)
    requires forall k :: 0 <= k <= |dir| ==> IsDirectory(dk, dir[..k])
    requires forall k :: |dir| < k <= |parent| ==>
      (parent[..k] in dk.tree ==> dk.tree[parent[..k]] == Dir) && parent[..k] !in dk.archives && parent[..k] !in dk.configs
    ensures CreateDirectories(dk, parent).Returned?
  {
    forall k | 0 <= k <= |parent| ensures !Exists(dk, parent[..k]) || IsDirectory(dk, parent[..k]) {
      if k <= |dir| {
        assert parent[..k] == dir[..k];
      }
    }
  }

  /** The ancestors of `dir` are untouched directories while files are restored below it. */
  lemma DirectoryChainIntact(dk: Disk, d: Disk, src: Path, files: seq<Path>, n: nat, d1: Disk, dir: Path)
    requires RestoreSetting(d, src, files, d1, dir) && n <= |files|
    requires Restored(dk, d, src, files, n, d1, dir)
    ensures forall k :: 0 <= k <= |dir| ==> IsDirectory(dk, dir[..k])
  {
    AncestorsAreDirectories(d1, dir);
    forall k | 0 <= k <= |dir| ensures IsDirectory(dk, dir[..k]) {
      assert !IsStrictlyUnder(dir[..k], dir);
    }
  }

  /** Where file `n` goes, no earlier restored file lies on the way or at the spot itself. */
  lemma {:induction false} NoClash(d: Disk, src: Path, files: seq<Path>, d1: Disk, dir: Path, n: nat)
    requires RestoreSetting(d, src, files, d1, dir) && n < |files|
    ensures files[n] in files
    ensures var out := Moved(dir, src, files[n]);
      && (forall i, k :: 0 <= i < n && |dir| < k < |out| ==> out[..k] != Moved(dir, src, files[i]))
      && (forall i :: 0 <= i < n ==> out != Moved(dir, src, files[i]) && !IsStrictlyUnder(Moved(dir, src, files[i]), out))
  {
    var f := files[n];
    assert f in files;
    var rel := f[|src|..];
    var out := dir + rel;
    forall i, k | 0 <= i < n && |dir| < k < |out|
      ensures out[..k] != Moved(dir, src, files[i])
    {
      assert files[i] in files;
      RelativeNotPrefix(d, src, f, files[i], k - |dir|);
      assert out[..k] == dir + rel[..k - |dir|];
      assert Moved(dir, src, files[i])[|dir|..] == files[i][|src|..];
    }
    forall i | 0 <= i < n
      ensures out != Moved(dir, src, files[i]) && !IsStrictlyUnder(Moved(dir, src, files[i]), out)
    {
      var g := files[i];
      assert g in files;
      assert g == src + g[|src|..] && f == src + rel;
      assert Moved(dir, src, g)[|dir|..] == g[|src|..];
      if |g| > |f| {
        RelativeNotPrefix(d, src, g, f, |rel|);
        assert Moved(dir, src, g)[..|out|][|dir|..] == g[|src|..][..|rel|];
      }
    }
  }

  /** What creating the parents of file `n`'s new place did to the disk. */
  ghost predicate ParentsCreated(dk: Disk, d2: Disk, dir: Path, out: Path) {
    && IsStrictlyUnder(out, dir) && out !in d2.tree
    && d2.archives == dk.archives && d2.configs == dk.configs
    && (forall q :: q in dk.tree ==> q in d2.tree && d2.tree[q] == dk.tree[q])
    && (forall q :: q in d2.tree && q !in dk.tree ==> d2.tree[q] == Dir && IsStrictlyUnder(q, dir) && IsStrictlyUnder(out, q))
  }

  lemma SameOutsideAfterWrite(dk: Disk, d1: Disk, dir: Path, d2: Disk, out: Path, c: string)
    requires SameOutside(dk, d1, dir) && ParentsCreated(dk, d2, dir, out)
    requires out !in d1.archives && out !in d1.configs
    ensures SameOutside(WriteFile(d2, out, c), d1, dir)
  {
  }

  lemma PlacedAfterWrite(dk: Disk, d: Disk, src: Path, files: seq<Path>, n: nat, dir: Path, d2: Disk)
    requires n < |files|
    requires forall f :: f in files ==> IsUnder(f, src) && f in d.tree
    requires d.tree[files[n]].File?
    requires Placed(dk, d, src, files, n, dir)
    requires ParentsCreated(dk, d2, dir, Moved(dir, src, files[n]))
    requires forall i :: 0 <= i < n ==> Moved(dir, src, files[n]) != Moved(dir, src, files[i])
    ensures Placed(WriteFile(d2, Moved(dir, src, files[n]), d.tree[files[n]].content), d, src, files, n + 1, dir)
  {
  }

  lemma OnlyPlacedAfterWrite(dk: Disk, src: Path, files: seq<Path>, n: nat, dir: Path, d2: Disk, c: string)
    requires n < |files|
    requires forall f :: f in files ==> IsUnder(f, src)
    requires OnlyPlaced(dk, src, files, n, dir)
    requires ParentsCreated(dk, d2, dir, Moved(dir, src, files[n]))
    ensures OnlyPlaced(WriteFile(d2, Moved(dir, src, files[n]), c), src, files, n + 1, dir)
  {
    var out := Moved(dir, src, files[n]);
    var dk' := WriteFile(d2, out, c);
    forall q | q in dk'.tree && IsStrictlyUnder(q, dir)
      ensures (exists i :: 0 <= i < n + 1 && q == Moved(dir, src, files[i]))
        || (dk'.tree[q] == Dir && exists i :: 0 <= i < n + 1 && IsStrictlyUnder(Moved(dir, src, files[i]), q))
    {
      if q == out {
      } else if q in dk.tree {
      } else {
        assert IsStrictlyUnder(Moved(dir, src, files[n]), q);
      }
    }
  }

  /** A file entry whose parents can be created and whose target is free is written there. */
  lemma ExtractFileEntry(dk: Disk, dir: Path, e: ZipEntry)
    requires !IsDirectoryEntry(e) && Resolve(dir, e.name) != []
    requires var out := Resolve(dir, e.name);
      && CreateDirectories(dk, out[..|out| - 1]).Returned?
      && out !in CreateDirectories(dk, out[..|out| - 1]).value.tree
    ensures var out := Resolve(dir, e.name);
      ExtractEntry(dk, dir, e) == Returned(WriteFile(CreateDirectories(dk, out[..|out| - 1]).value, out, e.data))
  {
  }

  /** On the way from `dir` to a new place there are only directories, and the place is free. */
  lemma WayBelowIsFree(dk: Disk, d: Disk, src: Path, files: seq<Path>, n: nat, d1: Disk, dir: Path, out: Path, parent: Path)
    requires n < |files| && (forall f :: f in files ==> IsUnder(f, src) && f in d.tree)
    requires SameOutside(dk, d1, dir) && OnlyPlaced(dk, src, files, n, dir)
    requires !HasStoredBelow(d1, dir) && IsStrictlyUnder(out, dir)
    requires forall i, k :: 0 <= i < n && |dir| < k < |out| ==> out[..k] != Moved(dir, src, files[i])
    requires forall i :: 0 <= i < n ==> out != Moved(dir, src, files[i]) && !IsStrictlyUnder(Moved(dir, src, files[i]), out)
    requires parent == out[..|out| - 1]
    ensures out !in dk.tree
    ensures forall k :: |dir| < k <= |parent| ==>
      (parent[..k] in dk.tree ==> dk.tree[parent[..k]] == Dir) && parent[..k] !in dk.archives && parent[..k] !in dk.configs
  {
    forall k | |dir| < k <= |parent|
      ensures (parent[..k] in dk.tree ==> dk.tree[parent[..k]] == Dir)
        && parent[..k] !in dk.archives && parent[..k] !in dk.configs
    {
      assert parent[..k] == out[..k];
      assert IsStrictlyUnder(out[..k], dir);
    }
  }

  /** The directories created for a new place lie below `dir` and above the place. */
  lemma NewParentsBelow(dk: Disk, dir: Path, out: Path, d2: Disk)
    requires IsStrictlyUnder(out, dir) && out !in dk.tree
    requires forall k :: 0 <= k <= |dir| ==> IsDirectory(dk, dir[..k])
    requires CreateDirectories(dk, out[..|out| - 1]).Returned? && d2 == CreateDirectories(dk, out[..|out| - 1]).value
    ensures out !in d2.tree && ParentsCreated(dk, d2, dir, out)
  {
    forall q | q in d2.tree && q !in dk.tree
      ensures IsStrictlyUnder(q, dir) && IsStrictlyUnder(out, q)
    {
      NewDirectoryBelow(dk, dir, out, q);
    }
  }

  /** A missing directory on the way to a new place below `dir` lies below `dir`. */
  lemma NewDirectoryBelow(dk: Disk, dir: Path, out: Path, q: Path)
    requires IsStrictlyUnder(out, dir)
    requires forall k :: 0 <= k <= |dir| ==> IsDirectory(dk, dir[..k])
    requires IsUnder(out[..|out| - 1], q) && !Exists(dk, q)
    ensures IsStrictlyUnder(q, dir) && IsStrictlyUnder(out, q)
  {
    var parent := out[..|out| - 1];
    assert parent[..|dir|] == out[..|dir|];
    PrefixOfExtension(parent, dir, q);
    if IsUnder(dir, q) {
      assert dir[..|q|] == q;
      assert IsDirectory(dk, dir[..|q|]);
    }
    UnderTransitive(out, parent, q);
  }

  /** Nothing is stored strictly below a directory with nothing below it. */
  lemma NothingStoredAt(d1: Disk, dir: Path, out: Path)
    requires !HasStoredBelow(d1, dir) && IsStrictlyUnder(out, dir)
    ensures out !in d1.archives && out !in d1.configs
  {
  }

  /** Extracting the entry of file `n` creates its parents and writes it at its new place. */
  lemma PlaceFile(d: Disk, src: Path, files: seq<Path>, d1: Disk, dir: Path, n: nat, dk: Disk)
    requires RestoreSetting(d, src, files, d1, dir) && n < |files|
    requires Restored(dk, d, src, files, n, d1, dir)
    ensures files[n] in files
    ensures var out := Moved(dir, src, files[n]);
      && |out| > 0 && CreateDirectories(dk, out[..|out| - 1]).Returned?
      && ParentsCreated(dk, CreateDirectories(dk, out[..|out| - 1]).value, dir, out)
      && ExtractEntry(dk, dir, EntryFor(d, src, files[n]))
         == Returned(WriteFile(CreateDirectories(dk, out[..|out| - 1]).value, out, d.tree[files[n]].content))
  {
    ParentsReady(d, src, files, d1, dir, n, dk);
    EntryLandsAtMoved(d, src, files, d1, dir, n);
    ExtractFileEntry(dk, dir, EntryFor(d, src, files[n]));
  }

  /** The parents of file `n`'s new place can be created, and only they are. */
  lemma ParentsReady(d: Disk, src: Path, files: seq<Path>, d1: Disk, dir: Path, n: nat, dk: Disk)
    requires RestoreSetting(d, src, files, d1, dir) && n < |files|
    requires Restored(dk, d, src, files, n, d1, dir)
    ensures files[n] in files
    ensures var out := Moved(dir, src, files[n]);
      && |out| > 0 && CreateDirectories(dk, out[..|out| - 1]).Returned?
      && ParentsCreated(dk, CreateDirectories(dk, out[..|out| - 1]).value, dir, out)
  {
    var f := files[n];
    NoClash(d, src, files, d1, dir, n);
    var out := Moved(dir, src, f);
    FileStrictlyBelow(d, src, f);
    var parent := out[..|out| - 1];
    DirectoryChainIntact(dk, d, src, files, n, d1, dir);
    WayBelowIsFree(dk, d, src, files, n, d1, dir, out, parent);
    CreateParentSucceeds(dk, dir, parent);
    NewParentsBelow(dk, dir, out, CreateDirectories(dk, parent).value);
  }

  /** The entry of file `n` names a file, and it resolves to the file's new place. */
  lemma EntryLandsAtMoved(d: Disk, src: Path, files: seq<Path>, d1: Disk, dir: Path, n: nat)
    requires RestoreSetting(d, src, files, d1, dir) && n < |files|
    ensures files[n] in files
    ensures var e := EntryFor(d, src, files[n]);
      Resolve(dir, e.name) == Moved(dir, src, files[n]) && !IsDirectoryEntry(e)
  {
    var f := files[n];
    assert f in files;
    FileStrictlyBelow(d, src, f);
    EntryNameResolves(dir, f[|src|..]);
  }

  /** One more file restored. */
  lemma {:induction false} RestoreStep(d: Disk, src: Path, files: seq<Path>, d1: Disk, dir: Path, n: nat, dk: Disk)
    requires RestoreSetting(d, src, files, d1, dir) && n < |files|
    requires Restored(dk, d, src, files, n, d1, dir)
    ensures var x := ExtractEntry(dk, dir, EntryFor(d, src, files[n]));
      x.Returned? && Restored(x.value, d, src, files, n + 1, d1, dir)
  {
    PlaceFile(d, src, files, d1, dir, n, dk);
    NoClash(d, src, files, d1, dir, n);
    var out := Moved(dir, src, files[n]);
    var d2 := CreateDirectories(dk, out[..|out| - 1]).value;
    var c := d.tree[files[n]].content;
    NothingStoredAt(d1, dir, out);
    SameOutsideAfterWrite(dk, d1, dir, d2, out, c);
    PlacedAfterWrite(dk, d, src, files, n, dir, d2);
    OnlyPlacedAfterWrite(dk, src, files, n, dir, d2, c);
  }

  /** Extracting the entries of the first `n` files restores exactly those files. */
  lemma {:induction false} RestorePrefix(d: Disk, src: Path, files: seq<Path>, d1: Disk, dir: Path, n: nat)
    requires RestoreSetting(d, src, files, d1, dir) && n <= |files|
    ensures var x := ExtractAll(d1, dir, EntriesFor(d, src, files)[..n]);
      x.Returned? && Restored(x.value, d, src, files, n, d1, dir)
    decreases n
  {
    var es := EntriesFor(d, src, files);
    if n == 0 {
      assert es[..0] == [];
    } else {
      RestorePrefix(d, src, files, d1, dir, n - 1);
      var dk := ExtractAll(d1, dir, es[..n - 1]).value;
      ExtractOneMore(d1, dir, es, n - 1, dk);
      assert files[n - 1] in files;
      RestoreStep(d, src, files, d1, dir, n - 1, dk);
    }
  }

  /** The archive `Zip` writes holds the entries of the regular files of the walk, in walk order. */
  lemma ZipEntries(d: Disk, src: Path, dest: Path, walkOrder: seq<Path>)
    requires |dest| > 0 && Enumerates(walkOrder, Walk(d, src))
    requires Zip(d, src, dest, walkOrder).1 == Returned(true)
    ensures forall q :: q in RegularFiles(d, walkOrder) ==> IsPlainFile(d, q) && IsUnder(q, src)
    ensures ZipTarget(dest) in Zip(d, src, dest, walkOrder).0.archives
    ensures Zip(d, src, dest, walkOrder).0.archives[ZipTarget(dest)]
      == EntriesFor(d, src, RegularFiles(d, walkOrder))
  {
  }

  /** Extracting the entries of all files restores exactly those files. */
  lemma RestoreAll(d: Disk, src: Path, files: seq<Path>, d1: Disk, dir: Path)
    requires RestoreSetting(d, src, files, d1, dir)
    ensures var x := ExtractAll(d1, dir, EntriesFor(d, src, files));
      x.Returned? && Restored(x.value, d, src, files, |files|, d1, dir)
  {
    RestorePrefix(d, src, files, d1, dir, |files|);
    assert EntriesFor(d, src, files)[..|files|] == EntriesFor(d, src, files);
  }

  /** Extracting into an empty directory `dir` the entries of the regular files a walk of
      `src` found puts every plain file of `src` at the same relative place below `dir` with
      the same content, puts no other file there, and leaves everything outside `dir` as it
      was. */
  lemma ExtractWalkedFiles(d: Disk, src: Path, walkOrder: seq<Path>, d1: Disk, dir: Path)
    requires Enumerates(walkOrder, Walk(d, src))
    requires WellFormed(d) && IsDirectory(d, src)
    requires forall q :: IsPlainFile(d, q) && IsUnder(q, src) ==> PortableSegments(q[|src|..])
    requires WellFormed(d1) && IsDirectory(d1, dir) && !HasStoredBelow(d1, dir)
    ensures var x := ExtractAll(d1, dir, EntriesFor(d, src, RegularFiles(d, walkOrder)));
      && x.Returned?
      && SameOutside(x.value, d1, dir)
      && (forall f :: IsPlainFile(d, f) && IsUnder(f, src) ==>
            Moved(dir, src, f) in x.value.tree && x.value.tree[Moved(dir, src, f)] == d.tree[f])
      && (forall q :: q in x.value.tree && IsStrictlyUnder(q, dir) && x.value.tree[q].File? ==>
            exists f :: IsPlainFile(d, f) && IsUnder(f, src) && q == Moved(dir, src, f))
  {
    var files := RegularFiles(d, walkOrder);
    assert RestoreSetting(d, src, files, d1, dir);
    RestoreAll(d, src, files, d1, dir);
    var x := ExtractAll(d1, dir, EntriesFor(d, src, files)).value;
    EveryFilePlaced(d, src, walkOrder, files, d1, dir, x);
    OnlyFilesPlaced(d, src, files, d1, dir, x);
  }

  lemma EveryFilePlaced(d: Disk, src: Path, walkOrder: seq<Path>, files: seq<Path>, d1: Disk, dir: Path, x: Disk)
    requires Enumerates(walkOrder, Walk(d, src)) && files == RegularFiles(d, walkOrder)
    requires RestoreSetting(d, src, files, d1, dir) && Restored(x, d, src, files, |files|, d1, dir)
    ensures forall f :: IsPlainFile(d, f) && IsUnder(f, src) ==>
      Moved(dir, src, f) in x.tree && x.tree[Moved(dir, src, f)] == d.tree[f]
  {
    forall f | IsPlainFile(d, f) && IsUnder(f, src)
      ensures Moved(dir, src, f) in x.tree && x.tree[Moved(dir, src, f)] == d.tree[f]
    {
      assert f in Walk(d, src);
      var i :| 0 <= i < |files| && files[i] == f;
    }
  }

  lemma OnlyFilesPlaced(d: Disk, src: Path, files: seq<Path>, d1: Disk, dir: Path, x: Disk)
    requires RestoreSetting(d, src, files, d1, dir) && Restored(x, d, src, files, |files|, d1, dir)
    ensures forall q :: q in x.tree && IsStrictlyUnder(q, dir) && x.tree[q].File? ==>
      exists f :: IsPlainFile(d, f) && IsUnder(f, src) && q == Moved(dir, src, f)
  {
    forall q | q in x.tree && IsStrictlyUnder(q, dir) && x.tree[q].File?
      ensures exists f :: IsPlainFile(d, f) && IsUnder(f, src) && q == Moved(dir, src, f)
    {
      var i :| 0 <= i < |files| && q == Moved(dir, src, files[i]);
      assert files[i] in files;
    }
  }

  /** Restoring a backup: extracting into an empty directory `dir` the archive that `Zip`
      made of `src` restores the plain files of `src` below `dir` and nothing else (see
      `ExtractWalkedFiles`). File names must be portable: a name holding a backslash comes
      back at a different place. */
  lemma ZipThenExtract(d: Disk, src: Path, dest: Path, walkOrder: seq<Path>, d1: Disk, dir: Path)
    requires |dest| > 0 && Enumerates(walkOrder, Walk(d, src))
    requires WellFormed(d) && IsDirectory(d, src)
    requires forall q :: IsPlainFile(d, q) && IsUnder(q, src) ==> PortableSegments(q[|src|..])
    requires Zip(d, src, dest, walkOrder).1 == Returned(true)
    requires WellFormed(d1) && IsDirectory(d1, dir) && !HasStoredBelow(d1, dir)
    ensures ZipTarget(dest) in Zip(d, src, dest, walkOrder).0.archives
    ensures var x := ExtractAll(d1, dir, Zip(d, src, dest, walkOrder).0.archives[ZipTarget(dest)]);
      && x.Returned?
      && SameOutside(x.value, d1, dir)
      && (forall f :: IsPlainFile(d, f) && IsUnder(f, src) ==>
            Moved(dir, src, f) in x.value.tree && x.value.tree[Moved(dir, src, f)] == d.tree[f])
      && (forall q :: q in x.value.tree && IsStrictlyUnder(q, dir) && x.value.tree[q].File? ==>
            exists f :: IsPlainFile(d, f) && IsUnder(f, src) && q == Moved(dir, src, f))
  {
    ZipEntries(d, src, dest, walkOrder);
    ExtractWalkedFiles(d, src, walkOrder, d1, dir);
  }
}
