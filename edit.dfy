/** Patch-style editing of an instance's `cfg.json` (util/instance/editInstance.kt). */
module Edit {
  import opened Text
  import opened Configs
  import opened FileSystem

  /** The optional arguments of `editInstance`; `None` is Kotlin's `null`. */
  datatype EditArgs = EditArgs(
    version: Option<string>,
    memory: Option<string>,
    autoBackup: Option<bool>,
    resourcepack: Option<string>,
    resourcepackPort: Option<int>,
    backups: Option<map<string, Backup>>,
    loaderType: Option<string>,
    loaderVersion: Option<string>,
    isInternal: bool)

  /** A call that passes nothing but the instance name. */
  function NoEdits(): EditArgs {
    EditArgs(None, None, None, None, None, None, None, None, false)
  }

  /** `editInstance(name, backups = b)`. */
  function BackupsEdit(b: map<string, Backup>): EditArgs {
    NoEdits().(backups := Some(b))
  }

  /** Kotlin's `x ?: fallback`. */
  function OrElse<T>(x: Option<T>, fallback: T): T {
    if x.Some? then x.value else fallback
  }

  /** The edited configuration: the `copy(... ?: ...)` expression, then the resource pack,
      which only an internal call may set. */
  function Patched(c: InstanceConfig, a: EditArgs): InstanceConfig {
    var copied := c.(
      memory := OrElse(a.memory, c.memory),
      autoBackup := OrElse(a.autoBackup, c.autoBackup),
      backups := OrElse(a.backups, c.backups),
      version := Version(
        OrElse(a.version, c.version.minecraft),
        Loader(OrElse(a.loaderType, c.version.loader.kind), OrElse(a.loaderVersion, c.version.loader.version))),
      resourcepackPort := OrElse(a.resourcepackPort, c.resourcepackPort));
    if a.resourcepack.Some? && a.isInternal then copied.(resourcepack := a.resourcepack.value) else copied
  }

  /** Field by field: an absent argument keeps the field, a present one replaces it; the
      loader kind and version are patched independently; `name`, `cfgVersion` and
      `modrinth` never change; the resource pack changes only on an internal call. */
  lemma PatchedFieldwise(c: InstanceConfig, a: EditArgs)
    ensures var r := Patched(c, a);
      && r.name == c.name && r.cfgVersion == c.cfgVersion && r.modrinth == c.modrinth
      && (a.memory.None? ==> r.memory == c.memory) && (a.memory.Some? ==> r.memory == a.memory.value)
      && (a.autoBackup.None? ==> r.autoBackup == c.autoBackup)
      && (a.autoBackup.Some? ==> r.autoBackup == a.autoBackup.value)
      && (a.backups.None? ==> r.backups == c.backups) && (a.backups.Some? ==> r.backups == a.backups.value)
      && (a.version.None? ==> r.version.minecraft == c.version.minecraft)
      && (a.version.Some? ==> r.version.minecraft == a.version.value)
      && (a.loaderType.None? ==> r.version.loader.kind == c.version.loader.kind)
      && (a.loaderType.Some? ==> r.version.loader.kind == a.loaderType.value)
      && (a.loaderVersion.None? ==> r.version.loader.version == c.version.loader.version)
      && (a.loaderVersion.Some? ==> r.version.loader.version == a.loaderVersion.value)
      && (a.resourcepackPort.None? ==> r.resourcepackPort == c.resourcepackPort)
      && (a.resourcepackPort.Some? ==> r.resourcepackPort == a.resourcepackPort.value)
      && (a.resourcepack.Some? && a.isInternal ==> r.resourcepack == a.resourcepack.value)
      && (a.resourcepack.None? || !a.isInternal ==> r.resourcepack == c.resourcepack)
  {
  }

  /** An edit with no arguments changes nothing. */
  lemma NoEditsKeepConfig(c: InstanceConfig)
    ensures Patched(c, NoEdits()) == c
  {
  }

  /** Applying the same edit twice is applying it once. */
  lemma PatchedIdempotent(c: InstanceConfig, a: EditArgs)
    ensures Patched(Patched(c, a), a) == Patched(c, a)
  {
  }

  /** `Files.createDirectories` on a path whose every prefix is a directory changes nothing. */
  lemma {:induction false} CreateExistingDirectories(d: Disk, p: Path)
    requires forall k :: 0 <= k <= |p| ==> IsDirectory(d, p[..k])
    ensures CreateDirectories(d, p) == Returned(d)
    decreases |p|
  {
    if p != [] {
      var parent := p[..|p| - 1];
      forall k | 0 <= k <= |parent| ensures IsDirectory(d, parent[..k]) {
        assert parent[..k] == p[..k];
      }
      CreateExistingDirectories(d, parent);
      assert p[..|p|] == p;
    }
  }

  /** `editInstance`: a missing `cfg.json` is a `FileNotFoundException`; a file that does not
      decode throws; otherwise the instance directory is (re)created and the whole file is
      rewritten with the patched configuration. */
  function EditInstance(d: Disk, cfg: Config, name: string, a: EditArgs): (r: Outcome<Disk>)
    ensures r == Threw(FileNotFound) <==> !Exists(d, CfgJsonPath(cfg, name))
    ensures r.Returned? <==> (GetInstance(d, cfg, name).Returned? && GetInstance(d, cfg, name).value.Some?
      && CreateDirectories(d, InstanceDir(cfg, name)).Returned?)
    ensures r.Returned? ==>
      r.value == WriteInstanceConfig(CreateDirectories(d, InstanceDir(cfg, name)).value, cfg, name,
                                     Patched(GetInstance(d, cfg, name).value.value, a))
  {
    var p := CfgJsonPath(cfg, name);
    if !Exists(d, p) then Threw(FileNotFound)
    else if p !in d.configs then
      if p in d.tree && d.tree[p].Dir? then Threw(IoError) else Threw(Serialization)
    else if d.configs[p].Undecodable? then Threw(Serialization)
    else
      match CreateDirectories(d, InstanceDir(cfg, name))
      case Threw(e) => Threw(e)
      case Returned(d1) => Returned(WriteInstanceConfig(d1, cfg, name, Patched(d.configs[p].cfg, a)))
  }

  /** On a well-formed disk an instance whose `cfg.json` decodes is edited in place: only
      its `cfg.json` changes, and it now holds the patched configuration. */
  lemma EditInPlace(d: Disk, cfg: Config, name: string, a: EditArgs)
    requires WellFormed(d)
    requires GetInstance(d, cfg, name).Returned? && GetInstance(d, cfg, name).value.Some?
    ensures var r := EditInstance(d, cfg, name, a);
      && r == Returned(WriteInstanceConfig(d, cfg, name, Patched(GetInstance(d, cfg, name).value.value, a)))
      && GetInstance(r.value, cfg, name) == Returned(Some(Patched(GetInstance(d, cfg, name).value.value, a)))
  {
    var p := CfgJsonPath(cfg, name);
    AncestorsAreDirectories(d, p);
    forall k | 0 <= k <= |InstanceDir(cfg, name)| ensures IsDirectory(d, InstanceDir(cfg, name)[..k]) {
      assert InstanceDir(cfg, name)[..k] == p[..k];
    }
    CreateExistingDirectories(d, InstanceDir(cfg, name));
  }
}
