/** The legacy Python implementation (main.py): the same instance rules written over
    decoded JSON dictionaries. The Python code reads `config['instances_folder']` and
    `config['backup_on_rollback']`; here they are `cfg.instancesFolder` and
    `cfg.backupOnRollback`. Each instance's `cfg.json` is kept as its decoded dictionary,
    beside the rest of the disk. */
module LegacyPy {
  import opened Text
  import opened Configs
  import opened FileSystem
  import opened Versions
  import opened Archive
  import opened Backups
  import opened Properties
  import opened ResourcePack

  /** A value as `json.load` returns it. */
  datatype PyValue =
    | PStr(s: string)
    | PBool(b: bool)
    | PInt(i: int)
    | PNull
    | PList(items: seq<PyValue>)
    | PDict(entries: map<string, PyValue>)

  type Dict = map<string, PyValue>

  /** What the Python functions see: the disk, and the decoded `cfg.json` documents by path. */
  datatype PyDisk = PyDisk(disk: Disk, json: map<Path, Dict>)

  function Lookup(d: Dict, k: string): Option<PyValue> {
    if k in d then Some(d[k]) else None
  }

  // ---------------------------------------------------------------------------------------
  // Defaults and `read_config` / `get_instance`

  /** `EMPTY_CONFIG` for the home directory `home`. */
  function EmptyConfig(home: string): Dict {
    map[
      "instances_folder" := PStr(home + "/.minecraft/server_instances"),
      "rp_ip" := PStr("0.0.0.0"),
      "api" := PStr(""),
      "api_login" := PStr(""),
      "api_password" := PStr(""),
      "backup_on_rollback" := PBool(true)]
  }

  /** The keys of `EMPTY_CONFIG` in the order of the dict literal. */
  const EMPTY_CONFIG_ORDER: seq<string> :=
    ["instances_folder", "rp_ip", "api", "api_login", "api_password", "backup_on_rollback"]

  /** `EMPTY_INSTANCE_CFG`. */
  function EmptyInstance(): Dict {
    map[
      "version" := PStr(""),
      "name" := PStr(""),
      "memory" := PStr("2048M"),
      "auto_backup" := PBool(false),
      "host_resourcepack" := PBool(false),
      "resourcepack" := PStr(""),
      "resourcepack_port" := PInt(2548),
      "backups" := PDict(map[])]
  }

  const EMPTY_INSTANCE_ORDER: seq<string> :=
    ["version", "name", "memory", "auto_backup", "host_resourcepack", "resourcepack",
     "resourcepack_port", "backups"]

  /** The defaults whose keys are among `keys`. */
  function Restrict(defaults: Dict, keys: seq<string>): Dict {
    map k | k in defaults && k in keys :: defaults[k]
  }

  /** The loop `for key, value in defaults.items(): if key not in d: d[key] = value`:
      every key already present keeps its value, every missing key gets its default, and
      `added` tells whether any key was missing. */
  method FillMissing(d: Dict, defaults: Dict, order: seq<string>) returns (r: Dict, added: bool)
    requires forall k :: k in defaults <==> k in order
    ensures r == defaults + d
    ensures added <==> exists k :: k in defaults && k !in d
  {
    r := d;
    added := false;
    for i := 0 to |order|
      invariant r == Restrict(defaults, order[..i]) + d
      invariant added <==> exists k :: k in order[..i] && k !in d
    {
      var key := order[i];
      assert order[..i + 1] == order[..i] + [key];
      RestrictStep(d, defaults, order[..i], key);
      if key !in r {
        r := r[key := defaults[key]];
        added := true;
      }
    }
    assert order[..|order|] == order;
    RestrictAll(defaults, order);
  }

  /** One more key of the loop: present keys stay, a missing one gets its default. */
  lemma RestrictStep(d: Dict, defaults: Dict, done: seq<string>, key: string)
    requires key in defaults
    ensures var r := Restrict(defaults, done) + d;
      Restrict(defaults, done + [key]) + d == if key in r then r else r[key := defaults[key]]
  {
    var r := Restrict(defaults, done) + d;
    var r' := Restrict(defaults, done + [key]) + d;
    assert r'.Keys == r.Keys + {key};
  }

  /** Restricting to every key of the defaults keeps all of them. */
  lemma RestrictAll(defaults: Dict, order: seq<string>)
    requires forall k :: k in defaults <==> k in order
    ensures Restrict(defaults, order) == defaults
  {
  }

  /** `read_config()`: `stored` is the decoded `config.json`, None when there is no such
      file. Returns the configuration, and the document written back, if one is. */
  method ReadConfig(stored: Option<Dict>, home: string) returns (cfg: Dict, written: Option<Dict>)
    ensures cfg == EmptyConfig(home) + (if stored.Some? then stored.value else map[])
    ensures written.Some? <==> exists k :: k in EmptyConfig(home) && (stored.None? || k !in stored.value)
    ensures written.Some? ==> written.value == cfg
  {
    var current := if stored.Some? then stored.value else map[];
    var added;
    cfg, added := FillMissing(current, EmptyConfig(home), EMPTY_CONFIG_ORDER);
    written := if added then Some(cfg) else None;
  }

  /** Filling a configuration that was already filled changes nothing and adds no key, so
      reading back what `read_config` wrote writes nothing again. */
  lemma FillingTwiceAddsNothing(d: Dict, defaults: Dict)
    ensures defaults + (defaults + d) == defaults + d
    ensures forall k :: k in defaults ==> k in defaults + d
  {
  }

  /** The filled configuration of instance `name`, when its `cfg.json` holds a JSON object. */
  function PyInstance(s: PyDisk, cfg: Config, name: string): Option<Dict> {
    var p := CfgJsonPath(cfg, name);
    if p in s.json then Some(EmptyInstance() + s.json[p]) else None
  }

  /** Something stands at `p` that is not a JSON object `json.load` can read: a directory
      (`open` raises `IsADirectoryError`) or a file that does not decode. */
  predicate PyUnreadable(s: PyDisk, p: Path) {
    p !in s.json && Exists(s.disk, p)
  }

  /** The exception `open(p)` followed by `json.load` raises for an unreadable `p`. */
  function PyReadError(s: PyDisk, p: Path): Exception {
    if IsDirectory(s.disk, p) then IoError else Serialization
  }

  /** `get_instance(name)`: None when nothing exists at `cfg.json`; a `cfg.json` that cannot
      be opened or decoded raises; otherwise its dictionary with every missing key of
      `EMPTY_INSTANCE_CFG` filled in, and the present ones kept. */
  method GetInstancePy(s: PyDisk, cfg: Config, name: string) returns (inst: Outcome<Option<Dict>>)
    ensures inst == Returned(None) <==> CfgJsonPath(cfg, name) !in s.json && !Exists(s.disk, CfgJsonPath(cfg, name))
    ensures inst.Threw? <==> PyUnreadable(s, CfgJsonPath(cfg, name))
    ensures inst.Threw? ==> inst.error == PyReadError(s, CfgJsonPath(cfg, name))
    ensures inst.Returned? && inst.value.Some? ==> forall k :: k in s.json[CfgJsonPath(cfg, name)] ==>
      k in inst.value.value && inst.value.value[k] == s.json[CfgJsonPath(cfg, name)][k]
    ensures inst.Returned? && inst.value.Some? ==>
      forall k :: k in inst.value.value <==> k in EmptyInstance() || k in s.json[CfgJsonPath(cfg, name)]
    ensures inst.Returned? && inst.value.Some? ==>
      forall k :: k in EmptyInstance() && k !in s.json[CfgJsonPath(cfg, name)] ==>
        inst.value.value[k] == EmptyInstance()[k]
    ensures inst.Returned? ==> inst.value == PyInstance(s, cfg, name)
  {
    var p := CfgJsonPath(cfg, name);
    if p !in s.json {
      if Exists(s.disk, p) {
        return Threw(PyReadError(s, p));
      }
      return Returned(None);
    }
    var filled, _ := FillMissing(s.json[p], EmptyInstance(), EMPTY_INSTANCE_ORDER);
    inst := Returned(Some(filled));
  }

  // ---------------------------------------------------------------------------------------
  // `random_hex_number`

  /** `random_hex_number(size)`: `picks` are the positions in '0123456789abcdef' that
      `random.choices` draws, two per round. */
  method RandomHexNumber(size: nat, picks: seq<nat>) returns (res: string)
    requires |picks| == 2 * size && forall i :: 0 <= i < |picks| ==> picks[i] < 16
    ensures IsHex(res, 2 * size)
    ensures forall i :: 0 <= i < |res| ==> res[i] == HEX_DIGITS[picks[i]]
  {
    res := "";
    for round := 0 to size
      invariant |res| == 2 * round
      invariant forall i :: 0 <= i < |res| ==> res[i] == HEX_DIGITS[picks[i]]
    {
      res := res + [HEX_DIGITS[picks[2 * round]], HEX_DIGITS[picks[2 * round + 1]]];
    }
  }

  // ---------------------------------------------------------------------------------------
  // `get_versions` / `get_version`

  /** `get_versions()`: `raise_for_status` rejects only answers of status 400 and above. */
  function PyGetVersions(net: Net): (r: Outcome<Manifest>)
    ensures r.Returned? <==> (MANIFEST_URL in net && net[MANIFEST_URL].status < 400
      && net[MANIFEST_URL].doc.ManifestDoc?)
    ensures r.Returned? ==> r.value == net[MANIFEST_URL].doc.manifest
  {
    match Get(net, MANIFEST_URL)
    case Threw(e) => Threw(e)
    case Returned(resp) =>
      if resp.status >= 400 then Threw(HttpStatus(resp.status))
      else if !resp.doc.ManifestDoc? then Threw(Serialization)
      else Returned(resp.doc.manifest)
  }

  /** The alias test of `get_version` and `edit_instance`: exact and case-sensitive. */
  function PyResolveToken(m: Manifest, ver: string): (id: string)
    ensures ver in {"latest", "l"} ==> id == m.release
    ensures ver in {"snapshot", "s"} ==> id == m.snapshot
    ensures ver !in {"latest", "l", "snapshot", "s"} ==> id == ver
  {
    if ver == "latest" || ver == "l" then m.release
    else if ver == "snapshot" || ver == "s" then m.snapshot
    else ver
  }

  /** `get_version(ver_id)`: the package of the first manifest entry whose id is the
      resolved token; no such entry raises `ValueError`. */
  function GetVersionPy(net: Net, ver: string): (r: Outcome<Package>)
    ensures r.Returned? ==> PyGetVersions(net).Returned?
    ensures r.Returned? ==>
      var m := PyGetVersions(net).value;
      var k := FindVersion(m.versions, PyResolveToken(m, ver));
      && k.Some?
      && m.versions[k.value].url in net
      && net[m.versions[k.value].url].status < 400
      && net[m.versions[k.value].url].doc == PackageDoc(r.value)
    ensures PyGetVersions(net).Returned?
      && FindVersion(PyGetVersions(net).value.versions, PyResolveToken(PyGetVersions(net).value, ver)).None?
      ==> r == Threw(VersionNotFound)
  {
    match PyGetVersions(net)
    case Threw(e) => Threw(e)
    case Returned(m) =>
      match FindVersion(m.versions, PyResolveToken(m, ver))
      case None => Threw(VersionNotFound)
      case Some(k) =>
        match Get(net, m.versions[k].url)
        case Threw(e) => Threw(e)
        case Returned(resp) =>
          if resp.status >= 400 then Threw(HttpStatus(resp.status))
          else if !resp.doc.PackageDoc? then Threw(Serialization)
          else Returned(resp.doc.pkg)
  }

  /** Unlike the Kotlin lookup, the Python one does not treat "LATEST" as an alias, and it
      accepts every manifest the Kotlin one accepts. */
  lemma PythonAliasesAreCaseSensitive(m: Manifest, net: Net)
    requires m.release != "LATEST"
    ensures PyResolveToken(m, "LATEST") == "LATEST" && ResolveToken(m, "LATEST") == m.release
    ensures GetVersions(net).Returned? ==> PyGetVersions(net) == GetVersions(net)
  {
    assert Lower("LATEST") == "latest";
  }

  // ---------------------------------------------------------------------------------------
  // `edit_instance`

  /** The keyword arguments of `edit_instance`; None is an argument left out. */
  datatype PyEditArgs = PyEditArgs(
    version: Option<string>,
    memory: Option<string>,
    autoBackup: Option<bool>,
    resourcepack: Option<string>,
    resourcepackPort: Option<int>,
    backups: Option<Dict>)

  /** Python truth of a string argument: given and not empty. */
  predicate Given(v: Option<string>) {
    v.Some? && v.value != ""
  }

  /** The keys an edit may set. */
  const EDITED_KEYS: set<string> := {"version", "memory", "auto_backup", "resourcepack", "resourcepack_port", "backups"}

  /** The stored form of a resource-pack argument: a URL verbatim, "" as "", anything else
      as its absolute path. */
  function PyStoredPack(cwd: Path, rp: string): (stored: string)
    ensures IsUrl(rp) ==> stored == rp
    ensures rp == "" ==> stored == ""
    ensures !IsUrl(rp) && rp != "" ==> stored == PathString(AbsolutePath(cwd, rp))
  {
    if rp == "" then "" else StoredReference(cwd, rp)
  }

  /** Two dictionaries that agree on every key are equal. */
  lemma LookupExtensional(a: Dict, b: Dict)
    requires forall k :: Lookup(a, k) == Lookup(b, k)
    ensures a == b
  {
    assert forall k :: k in a <==> Lookup(a, k).Some?;
    assert forall k :: k in b <==> Lookup(b, k).Some?;
  }

  /** The value an edit stores under key `k`, if it stores one. */
  function EditValue(args: PyEditArgs, resolved: string, cwd: Path, k: string): (v: Option<PyValue>)
    ensures v.Some? ==> k in EDITED_KEYS
  {
    if k == "version" then (if Given(args.version) then Some(PStr(resolved)) else None)
    else if k == "memory" then (if Given(args.memory) then Some(PStr(args.memory.value)) else None)
    else if k == "auto_backup" then (if args.autoBackup.Some? then Some(PBool(args.autoBackup.value)) else None)
    else if k == "resourcepack" then
      (if args.resourcepack.Some? then Some(PStr(PyStoredPack(cwd, args.resourcepack.value))) else None)
    else if k == "resourcepack_port" then
      (if args.resourcepackPort.Some? then Some(PInt(args.resourcepackPort.value)) else None)
    else if k == "backups" then (if args.backups.Some? then Some(PDict(args.backups.value)) else None)
    else None
  }

  /** The dictionary after the patch of `edit_instance`, `resolved` being what a given
      version resolves to. */
  function Patched(conf: Dict, args: PyEditArgs, resolved: string, cwd: Path): (c: Dict)
    ensures forall k :: Lookup(c, k) == if EditValue(args, resolved, cwd, k).Some? then EditValue(args, resolved, cwd, k) else Lookup(conf, k)
  {
    map k | k in conf.Keys + EDITED_KEYS && (k in conf || EditValue(args, resolved, cwd, k).Some?) ::
      if EditValue(args, resolved, cwd, k).Some? then EditValue(args, resolved, cwd, k).value else conf[k]
  }

  /** Each key is replaced only when its argument is given (a string argument also has to
      be non-empty), with the value that argument stands for, and no other key changes. */
  lemma PatchedFields(conf: Dict, args: PyEditArgs, resolved: string, cwd: Path)
    ensures var c := Patched(conf, args, resolved, cwd);
      && (forall k :: k !in EDITED_KEYS ==> Lookup(c, k) == Lookup(conf, k))
      && Lookup(c, "version") == (if Given(args.version) then Some(PStr(resolved)) else Lookup(conf, "version"))
      && Lookup(c, "memory") == (if Given(args.memory) then Some(PStr(args.memory.value)) else Lookup(conf, "memory"))
      && Lookup(c, "auto_backup") ==
        (if args.autoBackup.Some? then Some(PBool(args.autoBackup.value)) else Lookup(conf, "auto_backup"))
      && Lookup(c, "resourcepack") ==
        (if args.resourcepack.Some? then Some(PStr(PyStoredPack(cwd, args.resourcepack.value))) else Lookup(conf, "resourcepack"))
      && Lookup(c, "resourcepack_port") ==
        (if args.resourcepackPort.Some? then Some(PInt(args.resourcepackPort.value)) else Lookup(conf, "resourcepack_port"))
      && Lookup(c, "backups") ==
        (if args.backups.Some? then Some(PDict(args.backups.value)) else Lookup(conf, "backups"))
  {
  }

  /** The same edit applied twice leaves what it left the first time. */
  lemma PatchIdempotent(conf: Dict, args: PyEditArgs, resolved: string, cwd: Path)
    ensures Patched(Patched(conf, args, resolved, cwd), args, resolved, cwd) == Patched(conf, args, resolved, cwd)
  {
    var once := Patched(conf, args, resolved, cwd);
    var twice := Patched(once, args, resolved, cwd);
    forall k ensures Lookup(twice, k) == Lookup(once, k) {
    }
    LookupExtensional(twice, once);
  }

  /** What a given version argument resolves to: "latest"/"l" and "snapshot"/"s" through
      the manifest (whose download may raise), anything else as it is. */
  function ResolveArgument(net: Net, ver: string): (r: Outcome<string>)
    ensures ver !in {"latest", "l", "snapshot", "s"} ==> r == Returned(ver)
    ensures ver in {"latest", "l", "snapshot", "s"} ==>
      (r.Returned? <==> PyGetVersions(net).Returned?)
      && (r.Returned? ==> r.value == PyResolveToken(PyGetVersions(net).value, ver))
  {
    if ver in {"latest", "l", "snapshot", "s"} then
      match PyGetVersions(net)
      case Threw(e) => Threw(e)
      case Returned(m) => Returned(PyResolveToken(m, ver))
    else Returned(ver)
  }

  /** `edit_instance(name, ...)`: without a `cfg.json` it raises `FileNotFoundError`, and
      one that cannot be opened or decoded raises from `json.load`; a version alias whose manifest cannot be fetched raises too, before anything is written;
      otherwise `cfg.json` is rewritten with the patched dictionary (the dictionary as
      stored, not filled with defaults) and nothing else changes. */
  method EditInstancePy(s: PyDisk, cfg: Config, name: string, args: PyEditArgs, net: Net, cwd: Path)
    returns (r: PyDisk, result: Outcome<()>)
    ensures CfgJsonPath(cfg, name) !in s.json && !Exists(s.disk, CfgJsonPath(cfg, name)) ==>
      r == s && result == Threw(FileNotFound)
    ensures PyUnreadable(s, CfgJsonPath(cfg, name)) ==>
      r == s && result == Threw(PyReadError(s, CfgJsonPath(cfg, name)))
    ensures CfgJsonPath(cfg, name) in s.json && Given(args.version) && ResolveArgument(net, args.version.value).Threw? ==>
      r == s && result == Threw(ResolveArgument(net, args.version.value).error)
    ensures CfgJsonPath(cfg, name) in s.json && (Given(args.version) ==> ResolveArgument(net, args.version.value).Returned?) ==>
      && result == Returned(())
      && r.disk == s.disk
      && r.json == s.json[CfgJsonPath(cfg, name) := Patched(s.json[CfgJsonPath(cfg, name)], args,
           if Given(args.version) then ResolveArgument(net, args.version.value).value else "", cwd)]
  {
    var p := CfgJsonPath(cfg, name);
    if p !in s.json {
      if Exists(s.disk, p) {
        return s, Threw(PyReadError(s, p));
      }
      return s, Threw(FileNotFound);
    }
    var resolved := "";
    if Given(args.version) {
      var v := ResolveArgument(net, args.version.value);
      if v.Threw? {
        return s, Threw(v.error);
      }
      resolved := v.value;
    }
    var conf := PatchConf(s.json[p], args, resolved, cwd);
    r := PyDisk(s.disk, s.json[p := conf]);
    result := Returned(());
  }

  /** `conf` is `conf0` with the assignments for the keys in `done` made. */
  ghost predicate PatchedSoFar(conf: Dict, conf0: Dict, args: PyEditArgs, resolved: string, cwd: Path, done: set<string>) {
    forall k :: Lookup(conf, k) ==
      if k in done && EditValue(args, resolved, cwd, k).Some? then EditValue(args, resolved, cwd, k) else Lookup(conf0, k)
  }

  /** The keys `edit_instance` assigns, in the order of its `if` statements. */
  const EDITED_ORDER: seq<string> := ["version", "memory", "auto_backup", "resourcepack", "resourcepack_port", "backups"]

  /** The `if` statements of `edit_instance`, one argument after the other: each assigns
      its key when its argument is given. */
  method PatchConf(conf0: Dict, args: PyEditArgs, resolved: string, cwd: Path) returns (conf: Dict)
    ensures conf == Patched(conf0, args, resolved, cwd)
  {
    conf := conf0;
    ghost var done: set<string> := {};
    for i := 0 to |EDITED_ORDER|
      invariant done == set j | 0 <= j < i :: EDITED_ORDER[j]
      invariant PatchedSoFar(conf, conf0, args, resolved, cwd, done)
    {
      var key := EDITED_ORDER[i];
      var v := EditValue(args, resolved, cwd, key);
      PatchStep(conf, conf0, args, resolved, cwd, done, key);
      if v.Some? {
        conf := conf[key := v.value];
      }
      done := done + {key};
    }
    PatchDone(conf, conf0, args, resolved, cwd, done);
  }

  /** One `if` of `edit_instance` extends the keys assigned so far by its own. */
  lemma PatchStep(conf: Dict, conf0: Dict, args: PyEditArgs, resolved: string, cwd: Path, done: set<string>, key: string)
    requires PatchedSoFar(conf, conf0, args, resolved, cwd, done)
    ensures var v := EditValue(args, resolved, cwd, key);
      PatchedSoFar(if v.Some? then conf[key := v.value] else conf, conf0, args, resolved, cwd, done + {key})
  {
  }

  /** Once every edited key has had its turn, the dictionary is the patched one. */
  lemma PatchDone(conf: Dict, conf0: Dict, args: PyEditArgs, resolved: string, cwd: Path, done: set<string>)
    requires done == set j | 0 <= j < |EDITED_ORDER| :: EDITED_ORDER[j]
    requires PatchedSoFar(conf, conf0, args, resolved, cwd, done)
    ensures conf == Patched(conf0, args, resolved, cwd)
  {
    assert EDITED_KEYS <= done by {
      assert EDITED_ORDER[0] in done && EDITED_ORDER[1] in done && EDITED_ORDER[2] in done;
      assert EDITED_ORDER[3] in done && EDITED_ORDER[4] in done && EDITED_ORDER[5] in done;
    }
    LookupExtensional(conf, Patched(conf0, args, resolved, cwd));
  }

  // ---------------------------------------------------------------------------------------
  // `update_server_properties`

  /** The length of the first line of `s`, its '\n' included when it has one. */
  function LineEnd(s: string): (k: nat)
    requires s != []
    ensures 0 < k <= |s|
    ensures '\n' !in s[..k - 1]
    ensures s[k - 1] == '\n' || k == |s|
  {
    if s[0] == '\n' || |s| == 1 then 1
    else
      var k := LineEnd(s[1..]);
      assert s[..k] == [s[0]] + s[1..][..k - 1];
      k + 1
  }

  /** The lines `for line in f` yields: each keeps its '\n', and the last one may lack it. */
  function PyLines(s: string): (ls: seq<string>)
    ensures forall i :: 0 <= i < |ls| ==> ls[i] != ""
    decreases |s|
  {
    if s == [] then [] else [s[..LineEnd(s)]] + PyLines(s[LineEnd(s)..])
  }

  function Concat(ls: seq<string>): string {
    if ls == [] then "" else ls[0] + Concat(ls[1..])
  }

  /** Splitting into lines loses nothing: writing the lines back gives the text read. */
  lemma {:induction false} ConcatPyLines(s: string)
    ensures Concat(PyLines(s)) == s
    decreases |s|
  {
    if s != [] {
      var k := LineEnd(s);
      ConcatPyLines(s[k..]);
      assert PyLines(s)[1..] == PyLines(s[k..]);
      assert s[..k] + s[k..] == s;
    }
  }

  /** The rewrite loop: a line that, stripped, starts with "<key>=" and is not a comment is
      replaced by "<key>=<value>\n"; every other line is kept as it was read. */
  function RewritePy(lines: seq<string>, key: string, value: string): (r: seq<string>)
    ensures |r| == |lines|
    ensures forall i :: 0 <= i < |lines| ==>
      r[i] == if Targets(lines[i], key) then key + "=" + value + "\n" else lines[i]
  {
    seq(|lines|, i requires 0 <= i < |lines| => if Targets(lines[i], key) then key + "=" + value + "\n" else lines[i])
  }

  /** When no line is targeted the rewrite writes back exactly the text it read. */
  lemma UntargetedFileUnchanged(s: string, key: string, value: string)
    requires forall i :: 0 <= i < |PyLines(s)| ==> !Targets(PyLines(s)[i], key)
    ensures Concat(RewritePy(PyLines(s), key, value)) == s
  {
    assert RewritePy(PyLines(s), key, value) == PyLines(s);
    ConcatPyLines(s);
  }

  /** `update_server_properties(name, key, value)`: a missing file gives False; a file that
      is not plain text (a directory) raises; a key no property line declares gives False
      and writes nothing, not even an appended line; otherwise the targeted lines are
      rewritten, every other line is written back unchanged, and the result is True. */
  method UpdateServerPropertiesPy(d: Disk, cfg: Config, name: string, key: string, value: string)
    returns (r: Disk, result: Outcome<bool>)
    ensures !Exists(d, PropertiesPath(cfg, name)) ==> r == d && result == Returned(false)
    ensures Exists(d, PropertiesPath(cfg, name)) && !IsPlainFile(d, PropertiesPath(cfg, name)) ==>
      r == d && result == Threw(IoError)
    ensures IsPlainFile(d, PropertiesPath(cfg, name)) ==>
      var lines := PyLines(d.tree[PropertiesPath(cfg, name)].content);
      && (!(exists i :: 0 <= i < |lines| && Declares(lines[i], key)) ==> r == d && result == Returned(false))
      && ((exists i :: 0 <= i < |lines| && Declares(lines[i], key)) ==>
            r == WriteFile(d, PropertiesPath(cfg, name), Concat(RewritePy(lines, key, value)))
            && result == Returned(true))
  {
    var path := PropertiesPath(cfg, name);
    if !Exists(d, path) {
      return d, Returned(false);
    }
    if !IsPlainFile(d, path) {
      return d, Threw(IoError);
    }
    var lines := PyLines(d.tree[path].content);
    // the parsing loop is the one of the Kotlin versions
    var properties := ParseProperties(lines);
    KnownKeys(lines, key);
    if key !in properties {
      return d, Returned(false);
    }
    var newLines := RewriteLines(lines, key, value);
    return WriteFile(d, path, Concat(newLines)), Returned(true);
  }

  /** The loop building `new_lines`. */
  method RewriteLines(lines: seq<string>, key: string, value: string) returns (newLines: seq<string>)
    ensures newLines == RewritePy(lines, key, value)
  {
    newLines := [];
    for i := 0 to |lines|
      invariant |newLines| == i
      invariant forall j :: 0 <= j < i ==> newLines[j] == if Targets(lines[j], key) then key + "=" + value + "\n" else lines[j]
    {
      if Targets(lines[i], key) {
        newLines := newLines + [key + "=" + value + "\n"];
      } else {
        newLines := newLines + [lines[i]];
      }
    }
  }
}
