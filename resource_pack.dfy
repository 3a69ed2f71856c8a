/** Wiring an instance's resource pack into its configuration and its `server.properties`:
    `setResourcePack` and `attachResourcePack`, in their current form
    (util/instance/configsApi/) and their older form (util/instance/). */
module ResourcePack {
  import opened Text
  import opened Configs
  import opened FileSystem
  import opened Properties
  import opened Edit
  import opened Versions
  import opened Hashing

  /** A reference counts as a URL exactly when it starts with one of the two schemes. */
  predicate IsUrl(s: string) {
    StartsWith(s, "http://") || StartsWith(s, "https://")
  }

  /** `Path.of(s).toFile()` seen from the working directory `cwd`. */
  function AbsolutePath(cwd: Path, s: string): Path {
    if StartsWith(s, "/") then ParsePath(s) else cwd + ParsePath(s)
  }

  /** `File.absolutePath` of a path. */
  function PathString(p: Path): string {
    "/" + Join(p, "/")
  }

  /** `File.name`: the last segment. */
  function FileName(p: Path): string {
    if p == [] then "" else p[|p| - 1]
  }

  /** `File.isFile`: something other than a directory is stored there. */
  predicate IsFile(d: Disk, p: Path) {
    Exists(d, p) && !IsDirectory(d, p)
  }

  /** One `updateServerProperties(name, key, value)` call. */
  datatype Setting = Setting(key: string, value: string)

  /** The settings that switch a resource pack off. */
  function ClearedSettings(): seq<Setting> {
    [Setting("require-resource-pack", "false"), Setting("resource-pack", ""), Setting("resource-pack-sha1", "")]
  }

  /** The settings that announce a pack at `url` with digest `sha`. */
  function PackSettings(url: string, sha: string): seq<Setting> {
    [Setting("resource-pack", url), Setting("resource-pack-sha1", sha)]
  }

  /** Successive `updateServerProperties` calls, whose boolean results are ignored; the
      first exception ends the sequence and is the second component. */
  function ApplyUpdates(d: Disk, cfg: Config, name: string, settings: seq<Setting>, internal: bool)
    : (u: (Disk, Option<Exception>))
    ensures u.1.Some? <==> (settings != [] && Exists(d, PropertiesPath(cfg, name))
      && !IsPlainFile(d, PropertiesPath(cfg, name)))
    ensures u.1.Some? ==> u.0 == d
    ensures !Exists(d, PropertiesPath(cfg, name)) ==> u.0 == d
    decreases |settings|
  {
    if settings == [] then (d, None)
    else
      var first := Update(d, cfg, name, settings[0].key, settings[0].value, internal);
      if first.1.Threw? then (first.0, Some(first.1.error))
      else ApplyUpdates(first.0, cfg, name, settings[1..], internal)
  }

  /** The call's own result once its updates are done: true, or the exception. */
  function Finished(u: (Disk, Option<Exception>)): (r: Outcome<bool>)
    ensures r.Threw? <==> u.1.Some?
  {
    if u.1.Some? then Threw(u.1.value) else Returned(true)
  }

  /** The updates change `server.properties` and nothing else. */
  lemma {:induction false} ApplyTouchesOnlyProperties(d: Disk, cfg: Config, name: string, settings: seq<Setting>,
                                                      internal: bool, q: Path)
    requires q != PropertiesPath(cfg, name)
    ensures At(ApplyUpdates(d, cfg, name, settings, internal).0, q) == At(d, q)
    decreases |settings|
  {
    if settings != [] {
      var first := Update(d, cfg, name, settings[0].key, settings[0].value, internal);
      UpdateTouchesOnlyProperties(d, cfg, name, settings[0].key, settings[0].value, internal, q);
      if first.1.Returned? {
        ApplyTouchesOnlyProperties(first.0, cfg, name, settings[1..], internal, q);
      }
    }
  }

  /** The settings other than "resource-pack". */
  function WithoutPack(settings: seq<Setting>): (r: seq<Setting>)
    ensures |r| <= |settings|
    ensures forall i :: 0 <= i < |r| ==> r[i].key != "resource-pack" && r[i] in settings
  {
    if settings == [] then []
    else if settings[0].key == "resource-pack" then WithoutPack(settings[1..])
    else [settings[0]] + WithoutPack(settings[1..])
  }

  /** Outside an internal call a "resource-pack" update never writes, so the disk ends as
      if those updates had not been made. */
  lemma {:induction false} NonInternalSkipsPack(d: Disk, cfg: Config, name: string, settings: seq<Setting>)
    ensures ApplyUpdates(d, cfg, name, settings, false).0 == ApplyUpdates(d, cfg, name, WithoutPack(settings), false).0
    decreases |settings|
  {
    if settings != [] {
      var first := Update(d, cfg, name, settings[0].key, settings[0].value, false);
      if settings[0].key == "resource-pack" {
        assert first.0 == d;
        if first.1.Returned? {
          NonInternalSkipsPack(d, cfg, name, settings[1..]);
        } else {
          var rest := ApplyUpdates(d, cfg, name, WithoutPack(settings[1..]), false);
          assert rest.1.Some? || rest.0 == d by {
            if WithoutPack(settings[1..]) == [] {
              assert rest.0 == d;
            }
          }
        }
      } else {
        assert WithoutPack(settings) == [settings[0]] + WithoutPack(settings[1..]);
        assert (WithoutPack(settings))[1..] == WithoutPack(settings[1..]);
        if first.1.Returned? {
          NonInternalSkipsPack(first.0, cfg, name, settings[1..]);
        }
      }
    }
  }

  lemma ClearedWithoutPack()
    ensures WithoutPack(ClearedSettings()) == [Setting("require-resource-pack", "false"), Setting("resource-pack-sha1", "")]
  {
    var s := ClearedSettings();
    assert s[1..][1..][1..] == [];
    assert s[1..][1..] == [s[2]];
    assert s[0].key != "resource-pack" && s[2].key != "resource-pack";
  }

  lemma PackWithoutPack(url: string, sha: string)
    ensures WithoutPack(PackSettings(url, sha)) == [Setting("resource-pack-sha1", sha)]
  {
    var s := PackSettings(url, sha);
    assert s[1..][1..] == [];
    assert s[1].key != "resource-pack";
  }

  /** `setResourcePack` (configsApi/setResourcePack.kt): a missing instance gives false; an
      empty reference switches the pack off; a URL with a digest is written with internal
      updates; an unhashable URL or a non-URL gives false and changes nothing. */
  method SetResourcePack(d: Disk, cfg: Config, name: string, net: Net, sha1: string -> string)
    returns (r: Disk, result: Outcome<bool>)
    ensures result == Returned(false) ==> r == d
    ensures forall q :: q != PropertiesPath(cfg, name) ==> At(r, q) == At(d, q)
    ensures GetInstance(d, cfg, name).Threw? ==> r == d && result == Threw(GetInstance(d, cfg, name).error)
    ensures GetInstance(d, cfg, name) == Returned(None) ==> r == d && result == Returned(false)
    ensures GetInstance(d, cfg, name).Returned? && GetInstance(d, cfg, name).value.Some? ==>
      var rp := GetInstance(d, cfg, name).value.value.resourcepack;
      && (rp == "" ==> var u := ApplyUpdates(d, cfg, name, ClearedSettings(), true);
                       r == u.0 && result == Finished(u))
      && (rp != "" && !IsUrl(rp) ==> r == d && result == Returned(false))
      && (rp != "" && IsUrl(rp) && RemoteSha1(net, rp, sha1).None? ==> r == d && result == Returned(false))
      && (rp != "" && IsUrl(rp) && RemoteSha1(net, rp, sha1).Some? ==>
            var u := ApplyUpdates(d, cfg, name, PackSettings(rp, RemoteSha1(net, rp, sha1).value), true);
            r == u.0 && result == Finished(u))
  {
    var instance := GetInstance(d, cfg, name);
    if instance.Threw? {
      return d, Threw(instance.error);
    }
    if instance.value.None? {
      return d, Returned(false);
    }
    var rp := instance.value.value.resourcepack;
    var settings: seq<Setting>;
    if rp == "" {
      settings := ClearedSettings();
    } else if !IsUrl(rp) {
      return d, Returned(false);
    } else {
      var sha := RemoteSha1(net, rp, sha1);
      if sha.None? {
        return d, Returned(false);
      }
      settings := PackSettings(rp, sha.value);
    }
    var u := ApplyUpdates(d, cfg, name, settings, true);
    forall q | q != PropertiesPath(cfg, name) ensures At(u.0, q) == At(d, q) {
      ApplyTouchesOnlyProperties(d, cfg, name, settings, true, q);
    }
    r, result := u.0, Finished(u);
  }

  /** The URL and digest the older `setResourcePack` settles on for a non-empty reference,
      or none when it gives up: a URL is hashed remotely; anything else must be a file,
      hashed locally and announced at `http://0.0.0.0:<port>/<file name>`. */
  function LegacySource(d: Disk, cwd: Path, rp: string, port: int, net: Net, sha1: string -> string)
    : (s: Option<(string, string)>)
    ensures IsUrl(rp) ==> (s.Some? <==> rp in net) && (s.Some? ==> s.value.0 == rp)
    ensures !IsUrl(rp) ==> (s.Some? <==> IsFile(d, AbsolutePath(cwd, rp)) && IsPlainFile(d, AbsolutePath(cwd, rp)))
    ensures !IsUrl(rp) && s.Some? ==>
      && s.value.0 == "http://0.0.0.0:" + IntToString(port) + "/" + FileName(AbsolutePath(cwd, rp))
      && s.value.1 == sha1(d.tree[AbsolutePath(cwd, rp)].content)
  {
    if IsUrl(rp) then
      match RemoteSha1(net, rp, sha1)
      case None => None
      case Some(h) => Some((rp, h))
    else
      var path := AbsolutePath(cwd, rp);
      if !IsFile(d, path) then None
      else match FileSha1(d, path, sha1)
        case None => None
        case Some(h) => Some(("http://0.0.0.0:" + IntToString(port) + "/" + FileName(path), h))
  }

  /** When `setResourcePack` throws: the instance does not load, or the settings it writes
      (the cleared ones without a pack, the pack's URL and digest when the pack is found)
      fail against `server.properties`. */
  predicate LegacyPackThrows(d: Disk, cfg: Config, name: string, cwd: Path, net: Net, sha1: string -> string) {
    match GetInstance(d, cfg, name)
    case Threw(_) => true
    case Returned(None) => false
    case Returned(Some(c)) =>
      if c.resourcepack == "" then ApplyUpdates(d, cfg, name, ClearedSettings(), false).1.Some?
      else
        var src := LegacySource(d, cwd, c.resourcepack, c.resourcepackPort, net, sha1);
        src.Some? && ApplyUpdates(d, cfg, name, PackSettings(src.value.0, src.value.1), false).1.Some?
  }

  /** The older `setResourcePack` (instance/setResourcePack.kt). Its updates are not
      internal, so "resource-pack" itself is never written: switching the pack off only
      sets "require-resource-pack" and clears the digest, and attaching a pack only writes
      its digest. Starting the local HTTP server cannot make the call fail. */
  method LegacySetResourcePack(d: Disk, cfg: Config, name: string, cwd: Path, net: Net, sha1: string -> string)
    returns (r: Disk, result: Outcome<bool>)
    ensures result == Returned(false) ==> r == d
    ensures result.Threw? <==> LegacyPackThrows(d, cfg, name, cwd, net, sha1)
    ensures forall q :: q != PropertiesPath(cfg, name) ==> At(r, q) == At(d, q)
    ensures GetInstance(d, cfg, name).Threw? ==> r == d && result == Threw(GetInstance(d, cfg, name).error)
    ensures GetInstance(d, cfg, name) == Returned(None) ==> r == d && result == Returned(false)
    ensures GetInstance(d, cfg, name).Returned? && GetInstance(d, cfg, name).value.Some? ==>
      var c := GetInstance(d, cfg, name).value.value;
      var src := LegacySource(d, cwd, c.resourcepack, c.resourcepackPort, net, sha1);
      && (c.resourcepack == "" ==>
            && r == ApplyUpdates(d, cfg, name, [Setting("require-resource-pack", "false"),
                                                Setting("resource-pack-sha1", "")], false).0
            && result == Finished(ApplyUpdates(d, cfg, name, ClearedSettings(), false)))
      && (c.resourcepack != "" && src.None? ==> r == d && result == Returned(false))
      && (c.resourcepack != "" && src.Some? ==>
            && r == ApplyUpdates(d, cfg, name, [Setting("resource-pack-sha1", src.value.1)], false).0
            && result == Finished(ApplyUpdates(d, cfg, name, PackSettings(src.value.0, src.value.1), false)))
  {
    var instance := GetInstance(d, cfg, name);
    if instance.Threw? {
      return d, Threw(instance.error);
    }
    if instance.value.None? {
      return d, Returned(false);
    }
    var c := instance.value.value;
    var settings := LegacySettings(d, cwd, c, net, sha1);
    if settings.None? {
      return d, Returned(false);
    }
    var u := ApplyUpdates(d, cfg, name, settings.value, false);
    NonInternalSkipsPack(d, cfg, name, settings.value);
    if c.resourcepack == "" {
      ClearedWithoutPack();
    } else {
      PackWithoutPack(settings.value[0].value, settings.value[1].value);
    }
    forall q | q != PropertiesPath(cfg, name) ensures At(u.0, q) == At(d, q) {
      ApplyTouchesOnlyProperties(d, cfg, name, settings.value, false, q);
    }
    r, result := u.0, Finished(u);
  }

  /** The settings the older `setResourcePack` applies: an empty pack clears them; otherwise
      the pack's URL and digest, or none when the digest cannot be had. */
  method LegacySettings(d: Disk, cwd: Path, c: InstanceConfig, net: Net, sha1: string -> string)
    returns (settings: Option<seq<Setting>>)
    ensures c.resourcepack == "" ==> settings == Some(ClearedSettings())
    ensures c.resourcepack != "" ==>
      var src := LegacySource(d, cwd, c.resourcepack, c.resourcepackPort, net, sha1);
      && (src.None? ==> settings.None?)
      && (src.Some? ==> settings == Some(PackSettings(src.value.0, src.value.1)))
  {
    var rp := c.resourcepack;
    if rp == "" {
      return Some(ClearedSettings());
    }
    var url: string;
    var sha: string;
    if IsUrl(rp) {
      url := rp;
      var h := RemoteSha1(net, rp, sha1);
      if h.None? {
        return None;
      }
      sha := h.value;
    } else {
      var path := AbsolutePath(cwd, rp);
      if !IsFile(d, path) {
        return None;
      }
      var h := FileSha1(d, path, sha1);
      if h.None? {
        return None;
      }
      sha := h.value;
      url := "http://0.0.0.0:" + IntToString(c.resourcepackPort) + "/" + FileName(path);
    }
    settings := Some(PackSettings(url, sha));
  }

  /** What is stored for a reference: a URL verbatim, anything else as its absolute path. */
  function StoredReference(cwd: Path, value: string): (s: string)
    ensures IsUrl(value) ==> s == value
    ensures !IsUrl(value) ==> StartsWith(s, "/")
  {
    if IsUrl(value) then value else PathString(AbsolutePath(cwd, value))
  }

  /** The `editInstance` arguments of an attach: the pack and the port. */
  function AttachArgs(reference: string, port: Option<int>, internal: bool): EditArgs {
    NoEdits().(resourcepack := Some(reference), resourcepackPort := port, isInternal := internal)
  }

  /** `attachResourcePack` (configsApi/attachResourcePack.kt): a missing instance is a
      `NullPointerException`; a non-URL that is not a file gives false; otherwise the
      reference is stored by an internal edit, together with the port. The port
      parameter defaults to 2548 in the source, so a caller that names no port stores 2548;
      only an explicit null (`None` here) keeps the instance's current port. */
  method AttachResourcePack(d: Disk, cfg: Config, name: string, cwd: Path, value: string, port: Option<int>)
    returns (r: Disk, result: Outcome<bool>)
    ensures result != Returned(true) ==> r == d
    ensures GetInstanceOrThrow(d, cfg, name).Threw? ==> result == Threw(GetInstanceOrThrow(d, cfg, name).error)
    ensures GetInstanceOrThrow(d, cfg, name).Returned? ==>
      && (!IsUrl(value) && !IsFile(d, AbsolutePath(cwd, value)) <==> result == Returned(false))
      && (result.Returned? ==> !result.value || EditInstance(d, cfg, name, AttachArgs(StoredReference(cwd, value), port, true)).Returned?)
    ensures result == Returned(true) ==>
      var c := GetInstanceOrThrow(d, cfg, name).value;
      && GetInstanceOrThrow(d, cfg, name).Returned?
      && EditInstance(d, cfg, name, AttachArgs(StoredReference(cwd, value), port, true)).Returned?
      && r == EditInstance(d, cfg, name, AttachArgs(StoredReference(cwd, value), port, true)).value
      && GetInstance(r, cfg, name) == Returned(Some(c.(resourcepack := StoredReference(cwd, value),
                                                       resourcepackPort := OrElse(port, c.resourcepackPort))))
  {
    var instance := GetInstanceOrThrow(d, cfg, name);
    if instance.Threw? {
      return d, Threw(instance.error);
    }
    var rpValue := value;
    if !IsUrl(rpValue) {
      var path := AbsolutePath(cwd, rpValue);
      if !IsFile(d, path) {
        return d, Returned(false);
      }
      rpValue := PathString(path);
    }
    var edited := EditInstance(d, cfg, name, AttachArgs(rpValue, port, true));
    if edited.Threw? {
      return d, Threw(edited.error);
    }
    r, result := edited.value, Returned(true);
  }

  /** The older `attachResourcePack` (instance/attachResourcePack.kt): a missing instance
      gives false; the port defaults to 2548 and only an explicit null keeps the current
      one. The edit is not internal, so the stored reference stays what it was although
      true is returned. */
  method LegacyAttachResourcePack(d: Disk, cfg: Config, name: string, cwd: Path, value: string, port: Option<int>)
    returns (r: Disk, result: Outcome<bool>)
    ensures result != Returned(true) ==> r == d
    ensures GetInstance(d, cfg, name).Threw? ==> result == Threw(GetInstance(d, cfg, name).error)
    ensures GetInstance(d, cfg, name) == Returned(None) ==> result == Returned(false)
    ensures (GetInstance(d, cfg, name).Returned? && GetInstance(d, cfg, name).value.Some?
      && !IsUrl(value) && !IsFile(d, AbsolutePath(cwd, value))) ==> result == Returned(false)
    ensures result == Returned(true) ==>
      var c := GetInstance(d, cfg, name).value.value;
      && GetInstance(d, cfg, name).Returned? && GetInstance(d, cfg, name).value.Some?
      && EditInstance(d, cfg, name,
                      AttachArgs(StoredReference(cwd, value), Some(OrElse(port, c.resourcepackPort)), false)).Returned?
      && r == EditInstance(d, cfg, name,
                           AttachArgs(StoredReference(cwd, value), Some(OrElse(port, c.resourcepackPort)), false)).value
      && GetInstance(r, cfg, name) == Returned(Some(c.(resourcepackPort := OrElse(port, c.resourcepackPort))))
  {
    var instance := GetInstance(d, cfg, name);
    if instance.Threw? {
      return d, Threw(instance.error);
    }
    if instance.value.None? {
      return d, Returned(false);
    }
    var c := instance.value.value;
    var rpValue := value;
    if !IsUrl(rpValue) {
      var path := AbsolutePath(cwd, rpValue);
      if !IsFile(d, path) {
        return d, Returned(false);
      }
      rpValue := PathString(path);
    }
    var edited := EditInstance(d, cfg, name, AttachArgs(rpValue, Some(OrElse(port, c.resourcepackPort)), false));
    if edited.Threw? {
      return d, Threw(edited.error);
    }
    r, result := edited.value, Returned(true);
  }
}
