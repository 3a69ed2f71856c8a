/** The part of the filesystem the launcher touches, as a value.
    Directories and plain files live in `tree`; ZIP archives and instance `cfg.json`
    files live in maps of their own, because their byte encodings (PKWARE ZIP, JSON)
    are kept abstract: an archive is its list of entries, a `cfg.json` its decoded
    configuration or the fact that it does not decode. */
module FileSystem {
  import opened Text
  import opened Configs

  /** An absolute path as its list of segments ("/a/b" is ["a", "b"]); [] is the root. */
  type Path = seq<string>

  datatype Node = Dir | File(content: string)

  /** An entry of a ZIP archive. As in java.util.zip, an entry whose name ends in '/'
      is a directory entry. */
  datatype ZipEntry = ZipEntry(name: string, data: string)

  predicate IsDirectoryEntry(e: ZipEntry) {
    EndsWith(e.name, "/")
  }

  /** The content of a `cfg.json`: a configuration, or text that does not decode. */
  datatype CfgDoc = Decoded(cfg: InstanceConfig) | Undecodable

  datatype Disk = Disk(
    tree: map<Path, Node>,
    archives: map<Path, seq<ZipEntry>>,
    configs: map<Path, CfgDoc>)

  /** The exceptions the modelled code can raise. */
  datatype Exception =
    | NullPointer          // `!!` on a missing instance
    | FileNotFound
    | Serialization        // a body or file that does not decode
    | FileAlreadyExists    // a directory is needed where a file is
    | DirectoryNotEmpty    // a file is written where a non-empty directory is
    | DuplicateZipEntry    // two archive entries with the same name
    | VersionNotFound
    | HttpStatus(code: int)
    | Connection
    | IllegalArgument
    | IllegalState        // SHA-1 mismatch after a download
    | IoError             // any other I/O failure (missing parent, writing over a directory)
    | TypeMismatch        // Python: None or a value of the wrong type used (TypeError, AttributeError)
    | MissingKey          // Python: a dict lookup of an absent key (KeyError)

  /** The result of a call that may throw. */
  datatype Outcome<+T> = Returned(value: T) | Threw(error: Exception)

  /** `Path.of(s)` for an absolute path string: the non-empty segments between '/'. */
  function ParsePath(s: string): (p: Path)
    ensures forall i :: 0 <= i < |p| ==> p[i] != "" && '/' !in p[i]
  {
    NonEmpty(Split(s, '/'))
  }

  function NonEmpty(parts: seq<string>): (r: seq<string>)
    requires forall i :: 0 <= i < |parts| ==> '/' !in parts[i]
    ensures forall i :: 0 <= i < |r| ==> r[i] != "" && '/' !in r[i]
  {
    if parts == [] then []
    else (if parts[0] == "" then [] else [parts[0]]) + NonEmpty(parts[1..])
  }

  /** `q` is `p` or lies below it. */
  predicate IsUnder(q: Path, p: Path) {
    |p| <= |q| && q[..|p|] == p
  }

  /** `q` lies strictly below `p`. */
  predicate IsStrictlyUnder(q: Path, p: Path) {
    |p| < |q| && q[..|p|] == p
  }

  lemma UnderTransitive(a: Path, b: Path, c: Path)
    requires IsUnder(a, b) && IsUnder(b, c)
    ensures IsUnder(a, c)
  {
    assert a[..|c|] == a[..|b|][..|c|];
  }

  /** An order in which a directory walk visits the set `s`: every member exactly once. */
  predicate Enumerates(order: seq<Path>, s: set<Path>) {
    && (forall i :: 0 <= i < |order| ==> order[i] in s)
    && (forall q :: q in s ==> q in order)
    && (forall i, j :: 0 <= i < j < |order| ==> order[i] != order[j])
  }

  /** A file, archive or configuration document is stored at `p` (the root is not stored). */
  predicate Stored(d: Disk, p: Path) {
    p in d.tree || p in d.archives || p in d.configs
  }

  /** Something is stored strictly below `p`: a directory that `File.delete` refuses. */
  predicate HasStoredBelow(d: Disk, p: Path) {
    || (exists q :: q in d.tree && IsStrictlyUnder(q, p))
    || (exists q :: q in d.archives && IsStrictlyUnder(q, p))
    || (exists q :: q in d.configs && IsStrictlyUnder(q, p))
  }

  /** The disk without whatever was stored at `p`. */
  function RemovePath(d: Disk, p: Path): (r: Disk)
    ensures !Stored(r, p)
    ensures forall q :: q != p ==> (Stored(r, q) <==> Stored(d, q))
  {
    Disk(d.tree - {p}, d.archives - {p}, d.configs - {p})
  }

  /** `p` now holds a plain file with `content`, replacing whatever file was there. */
  function WriteFile(d: Disk, p: Path, content: string): (r: Disk)
    ensures r.tree == d.tree[p := File(content)]
    ensures r.archives == d.archives - {p} && r.configs == d.configs - {p}
  {
    Disk(d.tree[p := File(content)], d.archives - {p}, d.configs - {p})
  }

  /** `p` now holds an archive with `entries`, replacing whatever file was there. */
  function WriteArchive(d: Disk, p: Path, entries: seq<ZipEntry>): (r: Disk)
    ensures r.archives == d.archives[p := entries]
    ensures r.tree == d.tree - {p} && r.configs == d.configs - {p}
  {
    Disk(d.tree - {p}, d.archives[p := entries], d.configs - {p})
  }

  /** Anything at all is stored at `p`. The root always exists. */
  predicate Exists(d: Disk, p: Path) {
    p == [] || p in d.tree || p in d.archives || p in d.configs
  }

  predicate IsDirectory(d: Disk, p: Path) {
    p == [] || (p in d.tree && d.tree[p].Dir?)
  }

  /** A plain file (not an archive, not a configuration file). */
  predicate IsPlainFile(d: Disk, p: Path) {
    p in d.tree && d.tree[p].File?
  }

  /** Every stored path has its parent directory, and nothing is stored twice. */
  predicate WellFormed(d: Disk) {
    && ([] in d.tree ==> d.tree[[]] == Dir)
    && (forall p {:trigger ParentIsDirectory(d, p)} :: p in d.tree && p != [] ==> ParentIsDirectory(d, p))
    && (forall p {:trigger ParentIsDirectory(d, p)} :: p in d.archives ==> p != [] && ParentIsDirectory(d, p) && p !in d.tree)
    && (forall p {:trigger ParentIsDirectory(d, p)} :: p in d.configs ==> p != [] && ParentIsDirectory(d, p) && p !in d.tree && p !in d.archives)
  }

  /** The directory holding `p` exists. */
  predicate ParentIsDirectory(d: Disk, p: Path) {
    p != [] && IsDirectory(d, p[..|p| - 1])
  }

  /** In a well-formed disk every proper ancestor of a stored path is a directory. */
  lemma {:induction false} AncestorsAreDirectories(d: Disk, p: Path)
    requires WellFormed(d) && (Stored(d, p) || IsDirectory(d, p))
    ensures forall k :: 0 <= k < |p| ==> IsDirectory(d, p[..k])
    ensures IsDirectory(d, p) ==> forall k :: 0 <= k <= |p| ==> IsDirectory(d, p[..k])
    decreases |p|
  {
    if |p| > 0 {
      var parent := p[..|p| - 1];
      assert ParentIsDirectory(d, p);
      AncestorsAreDirectories(d, parent);
      assert forall k :: 0 <= k < |p| ==> p[..k] == parent[..k];
    }
    assert p[..|p|] == p;
  }

  /** A path segment that survives a round trip through a '/'-joined name unchanged. */
  predicate PortableSegments(rel: Path) {
    forall k :: 0 <= k < |rel| ==> rel[k] != "" && '/' !in rel[k] && '\\' !in rel[k]
  }

  lemma {:induction false} NonEmptyKeepsSegments(parts: seq<string>)
    requires forall i :: 0 <= i < |parts| ==> parts[i] != "" && '/' !in parts[i]
    ensures NonEmpty(parts) == parts
  {
    if parts != [] {
      NonEmptyKeepsSegments(parts[1..]);
      assert [parts[0]] + parts[1..] == parts;
    }
  }

  /** Parsing the '/'-joined segments gives the segments back. */
  lemma ParseJoinedPath(rel: Path)
    requires |rel| >= 1 && PortableSegments(rel)
    ensures ParsePath(Join(rel, "/")) == rel
  {
    SplitJoin(rel, '/');
    NonEmptyKeepsSegments(rel);
  }

  /** Everything stored at or below `p`: what `walk` / `walkBottomUp` visit. */
  function Walk(d: Disk, p: Path): (s: set<Path>)
    ensures forall q :: q in s <==> IsUnder(q, p) && (q in d.tree || q in d.archives || q in d.configs)
  {
    (set q | q in d.tree && IsUnder(q, p)) + (set q | q in d.archives && IsUnder(q, p))
      + (set q | q in d.configs && IsUnder(q, p))
  }

  /** The disk with everything at or below `p` removed. */
  function RemoveSubtree(d: Disk, p: Path): (r: Disk)
    ensures forall q :: q in r.tree <==> q in d.tree && !IsUnder(q, p)
    ensures forall q :: q in r.archives <==> q in d.archives && !IsUnder(q, p)
    ensures forall q :: q in r.configs <==> q in d.configs && !IsUnder(q, p)
    ensures forall q :: q in r.tree ==> r.tree[q] == d.tree[q]
    ensures forall q :: q in r.archives ==> r.archives[q] == d.archives[q]
    ensures forall q :: q in r.configs ==> r.configs[q] == d.configs[q]
  {
    Disk(
      map q | q in d.tree && !IsUnder(q, p) :: d.tree[q],
      map q | q in d.archives && !IsUnder(q, p) :: d.archives[q],
      map q | q in d.configs && !IsUnder(q, p) :: d.configs[q])
  }

  /** `Files.createDirectories(p)`: every missing ancestor and `p` itself become directories;
      an ancestor that exists but is not a directory raises `FileAlreadyExistsException`. */
  function CreateDirectories(d: Disk, p: Path): (r: Outcome<Disk>)
    ensures r.Returned? ==> forall k :: 0 <= k <= |p| ==> IsDirectory(r.value, p[..k])
    ensures r.Returned? ==> r.value.archives == d.archives && r.value.configs == d.configs
    ensures r.Returned? ==> forall q :: q in d.tree ==> q in r.value.tree && r.value.tree[q] == d.tree[q]
    ensures r.Returned? ==> forall q :: q in r.value.tree && q !in d.tree ==> r.value.tree[q] == Dir && IsUnder(p, q) && !Exists(d, q)
    ensures r.Threw? <==> exists k :: 0 <= k <= |p| && Exists(d, p[..k]) && !IsDirectory(d, p[..k])
    ensures r.Threw? ==> r.error == FileAlreadyExists
    decreases |p|
  {
    if p == [] then Returned(d)
    else
      var parent := p[..|p| - 1];
      assert forall k :: 0 <= k <= |parent| ==> parent[..k] == p[..k];
      match CreateDirectories(d, parent)
      case Threw(e) => Threw(e)
      case Returned(d1) =>
        if IsDirectory(d1, p) then
          assert forall k :: 0 <= k <= |p| ==> IsDirectory(d1, p[..k]) by {
            forall k | 0 <= k <= |p| ensures IsDirectory(d1, p[..k]) {
              if k == |p| { assert p[..k] == p; }
            }
          }
          Returned(d1)
        else if Exists(d1, p) then
          assert p[..|p|] == p;
          Threw(FileAlreadyExists)
        else
          var d2 := d1.(tree := d1.tree[p := Dir]);
          assert forall k :: 0 <= k <= |p| ==> IsDirectory(d2, p[..k]) by {
            forall k | 0 <= k <= |p| ensures IsDirectory(d2, p[..k]) {
              if k == |p| { assert p[..k] == p; }
            }
          }
          assert p in d2.tree && p !in d.tree;
          Returned(d2)
  }

  /** Where instance `name` lives: `Path.of(instancesFolder, name)`. */
  function InstanceDir(cfg: Config, name: string): Path {
    ParsePath(cfg.instancesFolder + "/" + name)
  }

  function CfgJsonPath(cfg: Config, name: string): Path {
    InstanceDir(cfg, name) + ["cfg.json"]
  }

  function WorldDir(cfg: Config, name: string): Path {
    InstanceDir(cfg, name) + ["world"]
  }

  function BackupsDir(cfg: Config, name: string): Path {
    InstanceDir(cfg, name) + ["backups"]
  }

  /** `getInstance`: nothing at `cfg.json` gives null; otherwise the file is read and
      decoded, so a directory there (which `readText` cannot read) or a file that does not
      decode throws. */
  function GetInstance(d: Disk, cfg: Config, name: string): (r: Outcome<Option<InstanceConfig>>)
    ensures r == Returned(None) <==> !Exists(d, CfgJsonPath(cfg, name))
    ensures r.Returned? && r.value.Some? <==>
      CfgJsonPath(cfg, name) in d.configs && d.configs[CfgJsonPath(cfg, name)].Decoded?
    ensures r.Returned? && r.value.Some? ==> r.value.value == d.configs[CfgJsonPath(cfg, name)].cfg
    ensures r.Threw? ==>
      r.error == if CfgJsonPath(cfg, name) !in d.configs && IsDirectory(d, CfgJsonPath(cfg, name))
                 then IoError else Serialization
  {
    var p := CfgJsonPath(cfg, name);
    if !Exists(d, p) then Returned(None)
    else if p !in d.configs then Threw(if p in d.tree && d.tree[p].Dir? then IoError else Serialization)
    else match d.configs[p]
      case Undecodable => Threw(Serialization)
      case Decoded(c) => Returned(Some(c))
  }

  /** `getInstance(name)!!`: a missing instance is a `NullPointerException`. */
  function GetInstanceOrThrow(d: Disk, cfg: Config, name: string): (r: Outcome<InstanceConfig>)
    ensures r.Returned? <==> GetInstance(d, cfg, name).Returned? && GetInstance(d, cfg, name).value.Some?
    ensures r.Returned? ==> Some(r.value) == GetInstance(d, cfg, name).value
  {
    match GetInstance(d, cfg, name)
    case Threw(e) => Threw(e)
    case Returned(None) => Threw(NullPointer)
    case Returned(Some(c)) => Returned(c)
  }

  /** `checkInstance`: the instance directory exists and holds a `cfg.json`. */
  predicate CheckInstance(d: Disk, cfg: Config, name: string) {
    IsDirectory(d, InstanceDir(cfg, name)) && CfgJsonPath(cfg, name) in d.configs
  }

  /** The disk with `cfg.json` of instance `name` replaced by `c`. */
  function WriteInstanceConfig(d: Disk, cfg: Config, name: string, c: InstanceConfig): Disk {
    d.(configs := d.configs[CfgJsonPath(cfg, name) := Decoded(c)])
  }

  /** Everything the disk holds at `q`. */
  datatype Slot = Slot(node: Option<Node>, archive: Option<seq<ZipEntry>>, doc: Option<CfgDoc>)

  function At(d: Disk, q: Path): (s: Slot)
    ensures Stored(d, q) <==> s != Slot(None, None, None)
  {
    Slot(if q in d.tree then Some(d.tree[q]) else None,
         if q in d.archives then Some(d.archives[q]) else None,
         if q in d.configs then Some(d.configs[q]) else None)
  }

  /** Nothing at or below `p` differs between `d` and `r`. */
  ghost predicate UnchangedUnder(d: Disk, r: Disk, p: Path) {
    forall q :: IsUnder(q, p) ==> At(d, q) == At(r, q)
  }

  lemma UnchangedUnderTransitive(a: Disk, b: Disk, c: Disk, p: Path)
    requires UnchangedUnder(a, b, p) && UnchangedUnder(b, c, p)
    ensures UnchangedUnder(a, c, p)
  {
  }

  /** Outside the paths of `written`, `r` holds what `d` held, except that a path on the
      way to `made` where nothing was stored may now be a directory. */
  ghost predicate ChangedOnly(d: Disk, r: Disk, written: set<Path>, made: Path) {
    forall q :: q !in written && At(r, q) != At(d, q) ==>
      IsUnder(made, q) && !Stored(d, q) && At(r, q) == Slot(Some(Dir), None, None)
  }

  /** Two steps that each change only what they may change, change together only what
      either may. */
  lemma ChangedOnlyChain(a: Disk, b: Disk, c: Disk, w1: set<Path>, m1: Path, w2: set<Path>, m2: Path,
                         w: set<Path>, m: Path)
    requires ChangedOnly(a, b, w1, m1) && ChangedOnly(b, c, w2, m2)
    requires w1 <= w && w2 <= w && IsUnder(m, m1) && IsUnder(m, m2)
    ensures ChangedOnly(a, c, w, m)
  {
    forall q | q !in w && At(c, q) != At(a, q)
      ensures IsUnder(m, q) && !Stored(a, q) && At(c, q) == Slot(Some(Dir), None, None)
    {
      if At(b, q) != At(a, q) {
        UnderTransitive(m, m1, q);
      } else {
        UnderTransitive(m, m2, q);
      }
    }
  }

  /** Writing an archive at `t` changes nothing else. */
  lemma WriteArchiveChangedOnly(d: Disk, t: Path, es: seq<ZipEntry>, m: Path)
    ensures ChangedOnly(d, WriteArchive(d, t, es), {t}, m)
  {
    var r := WriteArchive(d, t, es);
    forall q | q != t ensures At(r, q) == At(d, q) {
    }
  }

  /** `createDirectories(p)` only adds the missing directories on the way to `p`. */
  lemma CreateDirectoriesChangedOnly(d: Disk, p: Path)
    requires CreateDirectories(d, p).Returned?
    ensures ChangedOnly(d, CreateDirectories(d, p).value, {}, p)
  {
    var r := CreateDirectories(d, p).value;
    forall q | At(r, q) != At(d, q) ensures IsUnder(p, q) && !Stored(d, q) && At(r, q) == Slot(Some(Dir), None, None) {
      assert q in r.tree && q !in d.tree;
    }
  }

  /** A walk sees the same paths on disks that agree below its start. */
  lemma WalkUnchanged(d: Disk, r: Disk, p: Path)
    requires UnchangedUnder(d, r, p)
    ensures Walk(d, p) == Walk(r, p)
  {
    forall q ensures q in Walk(d, p) <==> q in Walk(r, p) {
      if IsUnder(q, p) {
        assert At(d, q) == At(r, q);
      }
    }
  }

  /** Creating the directories of a path none of whose prefixes lies below `w` leaves
      everything below `w` alone. */
  lemma CreateDirectoriesElsewhere(d: Disk, p: Path, w: Path)
    requires forall k :: 0 <= k <= |p| ==> !IsUnder(p[..k], w)
    requires CreateDirectories(d, p).Returned?
    ensures UnchangedUnder(d, CreateDirectories(d, p).value, w)
  {
    var r := CreateDirectories(d, p).value;
    forall q | IsUnder(q, w) ensures At(d, q) == At(r, q) {
      assert q in r.tree && q !in d.tree ==> IsUnder(p, q);
    }
  }

  /** No prefix of `base + [a]` lies below its sibling `base + [b]`. */
  lemma SiblingPrefixes(base: Path, a: string, b: string)
    requires a != b
    ensures forall k :: 0 <= k <= |base + [a]| ==> !IsUnder((base + [a])[..k], base + [b])
  {
    forall k | 0 <= k <= |base + [a]| ensures !IsUnder((base + [a])[..k], base + [b]) {
      if k == |base| + 1 {
        assert (base + [a])[..k][|base|] == a;
        assert (base + [b])[|base|] == b;
      }
    }
  }

  /** A path below `base + [a]` is not below its sibling `base + [b]`. */
  lemma SiblingsDisjoint(base: Path, a: string, b: string, q: Path)
    requires a != b && IsUnder(q, base + [a])
    ensures !IsUnder(q, base + [b])
  {
    assert q[|base|] == (base + [a])[|base|];
  }

  /** Removing a subtree (other than the whole disk) keeps a disk well formed. */
  lemma WellFormedRemoveSubtree(d: Disk, p: Path)
    requires WellFormed(d) && p != []
    ensures WellFormed(RemoveSubtree(d, p))
  {
    var r := RemoveSubtree(d, p);
    forall q | Stored(r, q) && q != [] ensures ParentIsDirectory(r, q) {
      assert ParentIsDirectory(d, q);
      var parent := q[..|q| - 1];
      assert IsUnder(parent, p) ==> IsUnder(q, p);
    }
    forall q | q in r.archives ensures q != [] && q !in r.tree {
      assert ParentIsDirectory(d, q);
    }
    forall q | q in r.configs ensures q != [] && q !in r.tree && q !in r.archives {
      assert ParentIsDirectory(d, q);
    }
  }

  /** `createDirectories` keeps a disk well formed. */
  lemma WellFormedCreateDirectories(d: Disk, p: Path)
    requires WellFormed(d) && CreateDirectories(d, p).Returned?
    ensures WellFormed(CreateDirectories(d, p).value)
  {
    var r := CreateDirectories(d, p).value;
    forall q | Stored(r, q) && q != [] ensures ParentIsDirectory(r, q) {
      if q in d.tree || q in d.archives || q in d.configs {
        assert ParentIsDirectory(d, q);
      } else {
        assert IsUnder(p, q);
        assert q[..|q| - 1] == p[..|q| - 1];
      }
    }
    forall q | q in r.archives ensures q != [] && q !in r.tree {
      assert ParentIsDirectory(d, q);
    }
    forall q | q in r.configs ensures q != [] && q !in r.tree && q !in r.archives {
      assert ParentIsDirectory(d, q);
    }
  }
}
