/** `listInstances` and `getVersionNameDownload` (util/instance/listInstances.kt): which
    instance directories are listed, with which configuration, and how their version is
    labelled in the table. */
module Listing {
  import opened Text
  import opened Configs
  import opened FileSystem
  import opened Versions

  /** Everything stored directly inside `folder`: what `listFiles()` returns. */
  function Children(d: Disk, folder: Path): set<Path> {
    (set q | q in d.tree && |q| == |folder| + 1 && IsUnder(q, folder))
      + (set q | q in d.archives && |q| == |folder| + 1 && IsUnder(q, folder))
      + (set q | q in d.configs && |q| == |folder| + 1 && IsUnder(q, folder))
  }

  function ChildPaths(folder: Path, names: seq<string>): (ps: seq<Path>)
    ensures |ps| == |names|
    ensures forall i :: 0 <= i < |names| ==> ps[i] == folder + [names[i]]
  {
    seq(|names|, i requires 0 <= i < |names| => folder + [names[i]])
  }

  /** An entry is listed when it is a directory holding a `cfg.json` that loads; a
      configuration that throws on loading is reported and skipped. */
  predicate Listed(d: Disk, cfg: Config, name: string) {
    && IsDirectory(d, InstanceDir(cfg, name))
    && Exists(d, CfgJsonPath(cfg, name))
    && GetInstance(d, cfg, name).Returned?
    && GetInstance(d, cfg, name).value.Some?
  }

  /** The instances found among the entries `names`, in listing order, each paired with
      its directory name. */
  function Found(d: Disk, cfg: Config, names: seq<string>): seq<(string, InstanceConfig)> {
    if names == [] then []
    else
      var rest := Found(d, cfg, names[..|names| - 1]);
      var n := names[|names| - 1];
      if Listed(d, cfg, n) then rest + [(n, GetInstance(d, cfg, n).value.value)] else rest
  }

  /** A pair is found exactly when its name is an entry that is listed, and the
      configuration paired with it is the one `getInstance` loads for that directory name
      (whatever its own `name` field says). */
  lemma {:induction false} FoundMembers(d: Disk, cfg: Config, names: seq<string>, n: string, c: InstanceConfig)
    ensures (n, c) in Found(d, cfg, names)
        <==> n in names && Listed(d, cfg, n) && GetInstance(d, cfg, n) == Returned(Some(c))
  {
    if names != [] {
      var init := names[..|names| - 1];
      FoundMembers(d, cfg, init, n, c);
      assert names == init + [names[|names| - 1]];
    }
  }

  /** Listing more entries keeps what was found before, in the same order. */
  lemma {:induction false} FoundKeepsOrder(d: Disk, cfg: Config, names: seq<string>, more: seq<string>)
    ensures Found(d, cfg, names) <= Found(d, cfg, names + more)
    decreases |more|
  {
    if more != [] {
      var init := more[..|more| - 1];
      FoundKeepsOrder(d, cfg, names, init);
      assert (names + more)[..|names + more| - 1] == names + init;
    } else {
      assert names + more == names;
    }
  }

  lemma FoundStep(d: Disk, cfg: Config, names: seq<string>, i: nat)
    requires i < |names|
    ensures Found(d, cfg, names[..i + 1])
         == Found(d, cfg, names[..i]) + if Listed(d, cfg, names[i]) then [(names[i], GetInstance(d, cfg, names[i]).value.value)] else []
  {
    assert names[..i + 1][..i] == names[..i];
  }

  /** `getVersionNameDownload`: the tokens that `getVersion` treats as aliases get a
      readable label; any other version is shown as it is. */
  function VersionLabel(ver: string): (shown: string)
    ensures IsLatestAlias(ver) ==> shown == "latest version"
    ensures IsSnapshotAlias(ver) ==> shown == "latest snapshot"
    ensures !IsLatestAlias(ver) && !IsSnapshotAlias(ver) ==> shown == ver
  {
    if IsLatestAlias(ver) then "latest version"
    else if IsSnapshotAlias(ver) then "latest snapshot"
    else ver
  }

  /** A label differs from the stored version only for a token that resolves to one of
      the manifest's latest entries. */
  lemma RelabelledOnlyAliases(m: Manifest, ver: string)
    ensures VersionLabel(ver) != ver ==> ResolveToken(m, ver) in {m.release, m.snapshot}
    ensures VersionLabel(ver) == ver && ver != "latest version" && ver != "latest snapshot"
      ==> ResolveToken(m, ver) == ver
  {
  }

  /** The values of one table row. */
  function RowValues(entry: (string, InstanceConfig)): (vs: seq<string>)
    ensures |vs| == 4 && vs[0] == entry.0 && vs[1] == entry.1.version.loader.kind
    ensures vs[2] == VersionLabel(entry.1.version.minecraft) && vs[3] == entry.1.memory
  {
    [entry.0, entry.1.version.loader.kind, VersionLabel(entry.1.version.minecraft), entry.1.memory]
  }

  /** `listInstances(apiMode)`: the instances folder is created (a failure is ignored,
      as `mkdirs` only returns false), then every entry of the folder is looked at in
      listing order. The result does not depend on `apiMode`, which only suppresses the
      table; with no instance found a message is printed instead (`rows` is then empty
      too). */
  method ListInstances(d: Disk, cfg: Config, apiMode: bool, names: seq<string>)
    returns (r: Disk, found: seq<(string, InstanceConfig)>, rows: seq<seq<string>>)
    requires Enumerates(ChildPaths(ParsePath(cfg.instancesFolder), names), Children(d, ParsePath(cfg.instancesFolder)))
    ensures CreateDirectories(d, ParsePath(cfg.instancesFolder)).Returned? ==>
      r == CreateDirectories(d, ParsePath(cfg.instancesFolder)).value
    ensures CreateDirectories(d, ParsePath(cfg.instancesFolder)).Threw? ==> r == d
    ensures found == Found(r, cfg, names)
    ensures apiMode || found == [] ==> rows == []
    ensures !apiMode ==> |rows| == |found| && forall i :: 0 <= i < |found| ==> rows[i] == RowValues(found[i])
  {
    r := d;
    match CreateDirectories(d, ParsePath(cfg.instancesFolder)) {
      case Returned(d1) => r := d1;
      case Threw(_) =>
    }
    found := FindInstances(r, cfg, names);
    rows := [];
    if found != [] && !apiMode {
      rows := TableRows(found);
    }
  }

  /** The `forEach` over the folder's entries. */
  method FindInstances(d: Disk, cfg: Config, names: seq<string>) returns (found: seq<(string, InstanceConfig)>)
    ensures found == Found(d, cfg, names)
  {
    found := [];
    for i := 0 to |names|
      invariant found == Found(d, cfg, names[..i])
    {
      FoundStep(d, cfg, names, i);
      var n := names[i];
      if IsDirectory(d, InstanceDir(cfg, n)) && Exists(d, CfgJsonPath(cfg, n)) {
        match GetInstance(d, cfg, n) {
          case Threw(_) =>
          case Returned(None) =>
          case Returned(Some(c)) => found := found + [(n, c)];
        }
      }
    }
    assert names[..|names|] == names;
  }

  /** The rows handed to `printRow`, one per instance found, in order. */
  method TableRows(found: seq<(string, InstanceConfig)>) returns (rows: seq<seq<string>>)
    ensures |rows| == |found| && forall i :: 0 <= i < |found| ==> rows[i] == RowValues(found[i])
  {
    rows := [];
    for i := 0 to |found|
      invariant |rows| == i
      invariant forall k :: 0 <= k < i ==> rows[k] == RowValues(found[k])
    {
      rows := rows + [RowValues(found[i])];
    }
  }
}
