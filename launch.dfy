/** The decisions `launchServer` makes before the server process starts
    (util/instance/launchServer.kt) and `downloadServer` (util/api/downloadServer.kt):
    which jar to run, whether to download it, the command line and how the process is
    attached to the console. */
module Launch {
  import opened Text
  import opened Configs
  import opened FileSystem
  import opened Versions
  import opened Hashing
  import opened Properties
  import opened ResourcePack
  import opened Backups

  /** Why a launch stops without starting anything. */
  datatype Abort =
    | FabricUnavailable          // `getFabric` found no loader or installer
    | FabricShaUnavailable       // the Fabric jar could not be hashed
    | UnsupportedLoader(kind: string)
    | MissingDownloadInfo        // an empty URL or digest

  /** `inheritIO()` and wait for the process, or discard its output and pipe its input. */
  datatype IoMode = InheritAndWait | DiscardAndPipe

  /** The process `launchServer` starts: its command line, working directory and IO. */
  datatype Process = Process(command: seq<string>, directory: Path, mode: IoMode)

  datatype LaunchResult =
    | NoInstance
    | Aborted(why: Abort)
    | Caught(error: Exception)   // an exception inside the `try`, reported and swallowed
    | Started(process: Process)

  /** Where the server jar comes from: a URL and the digest it must have. */
  datatype Source = Source(url: string, sha: string) | NoSource(why: Abort)

  function ServerJarPath(cfg: Config, name: string): Path {
    InstanceDir(cfg, name) + ["server.jar"]
  }

  /** `equals(other, ignoreCase = true)` on hexadecimal digests. */
  predicate SameDigest(a: string, b: string) {
    Lower(a) == Lower(b)
  }

  /** `getVersion`, then the loader dispatch: a vanilla instance takes the jar and digest
      of the version package; a Fabric instance takes the `getFabric` URL (with the
      instance's loader version and the latest installer) and the digest of whatever that
      URL serves; any other loader is refused. */
  function ServerSource(net: Net, c: InstanceConfig, sha1: string -> string): (s: Outcome<Source>)
    ensures GetVersion(net, c.version.minecraft).Threw? ==> s == Threw(GetVersion(net, c.version.minecraft).error)
    ensures s.Returned? && s.value.Source? ==> c.version.loader.kind in {"vanilla", "fabric"}
    ensures s.Returned? && c.version.loader.kind == "vanilla" ==>
      s.value == Source(GetVersion(net, c.version.minecraft).value.server.url,
                        GetVersion(net, c.version.minecraft).value.server.sha1)
    ensures s.Returned? && s.value.Source? && c.version.loader.kind == "fabric" ==>
      && GetFabric(net, c.version.minecraft, c.version.loader.version, "l") == Returned(Some(s.value.url))
      && RemoteSha1(net, s.value.url, sha1) == Some(s.value.sha)
    ensures s.Returned? && c.version.loader.kind !in {"vanilla", "fabric"} ==>
      s.value == NoSource(UnsupportedLoader(c.version.loader.kind))
  {
    match GetVersion(net, c.version.minecraft)
    case Threw(e) => Threw(e)
    case Returned(ver) =>
      if c.version.loader.kind == "vanilla" then Returned(Source(ver.server.url, ver.server.sha1))
      else if c.version.loader.kind == "fabric" then
        match GetFabric(net, c.version.minecraft, c.version.loader.version, "l")
        case Threw(e) => Threw(e)
        case Returned(None) => Returned(NoSource(FabricUnavailable))
        case Returned(Some(url)) =>
          match RemoteSha1(net, url, sha1)
          case None => Returned(NoSource(FabricShaUnavailable))
          case Some(h) => Returned(Source(url, h))
      else Returned(NoSource(UnsupportedLoader(c.version.loader.kind)))
  }

  /** `downloadServer(url, expectedSha, destination)`: the body is written to the
      destination whatever the response status, then its digest is compared with the
      expected one; a mismatch throws after the file has been replaced. An unreachable
      URL or a destination that cannot be opened for writing throws before anything is
      written. */
  function DownloadServer(d: Disk, net: Net, url: string, expected: string, jar: Path, sha1: string -> string)
    : (u: (Disk, Outcome<bool>))
    ensures u.1.Returned? ==> u.1.value
    ensures u.1 == Returned(true) <==> (url in net && ParentIsDirectory(d, jar) && !IsDirectory(d, jar)
                                       && SameDigest(sha1(net[url].bytes), expected))
    ensures u.0 != d ==> url in net && u.0 == WriteFile(d, jar, net[url].bytes)
    ensures u.1 == Returned(true) ==> IsPlainFile(u.0, jar) && SameDigest(sha1(u.0.tree[jar].content), expected)
    ensures u.1.Threw? && u.0 != d ==> u.1.error == IllegalState
  {
    match Get(net, url)
    case Threw(e) => (d, Threw(e))
    case Returned(resp) =>
      if !ParentIsDirectory(d, jar) || IsDirectory(d, jar) then (d, Threw(FileNotFound))
      else
        var written := WriteFile(d, jar, resp.bytes);
        if SameDigest(sha1(resp.bytes), expected) then (written, Returned(true))
        else (written, Threw(IllegalState))
  }

  /** The disk and outcome of the jar check: the jar on disk is kept when it exists and has
      the expected digest; otherwise it is downloaded. */
  function PreparedJar(d: Disk, jar: Path, net: Net, url: string, expected: string, sha1: string -> string)
    : (Disk, Outcome<bool>)
  {
    if !Exists(d, jar) || FileSha1(d, jar, sha1) != Some(expected) then DownloadServer(d, net, url, expected, jar, sha1)
    else (d, Returned(true))
  }

  /** The jar on disk is kept when it exists and has the expected digest; otherwise it is
      downloaded. On success the jar's digest matches. */
  method PrepareServerJar(d: Disk, jar: Path, net: Net, url: string, expected: string, sha1: string -> string)
    returns (r: Disk, result: Outcome<bool>, downloaded: bool)
    ensures downloaded <==> (!Exists(d, jar) || FileSha1(d, jar, sha1) != Some(expected))
    ensures !downloaded ==> r == d && result == Returned(true)
    ensures downloaded ==> (r, result) == DownloadServer(d, net, url, expected, jar, sha1)
    ensures (r, result) == PreparedJar(d, jar, net, url, expected, sha1)
    ensures result == Returned(true) ==> IsPlainFile(r, jar) && SameDigest(sha1(r.tree[jar].content), expected)
  {
    var current: Option<string> := None;
    if Exists(d, jar) {
      current := FileSha1(d, jar, sha1);
    }
    downloaded := !Exists(d, jar) || current != Some(expected);
    if downloaded {
      var u := DownloadServer(d, net, url, expected, jar, sha1);
      r, result := u.0, u.1;
    } else {
      r, result := d, Returned(true);
    }
  }

  /** `instance.memory.ifEmpty { "2048M" }`: only an empty setting falls back. */
  function Memory(c: InstanceConfig): (m: string)
    ensures m != ""
    ensures c.memory != "" ==> m == c.memory
  {
    if c.memory == "" then DEFAULT_MEMORY else c.memory
  }

  /** `java -Xmx<m> -Xms<m> -jar <absolute path of server.jar>`. */
  function CommandLine(c: InstanceConfig, jar: Path): (cmd: seq<string>)
    ensures |cmd| == 5 && cmd[0] == "java" && cmd[3] == "-jar" && cmd[4] == PathString(jar)
    ensures cmd[1] == "-Xmx" + Memory(c) && cmd[2] == "-Xms" + Memory(c)
  {
    ["java", "-Xmx" + Memory(c), "-Xms" + Memory(c), "-jar", PathString(jar)]
  }

  /** A resource pack that is set and is not a URL must be served locally. */
  predicate NeedsHosting(rp: string) {
    rp != "" && !IsUrl(rp)
  }

  /** The process: without a GUI, or with a pack to host, "nogui" is appended and the
      console is inherited and waited on; otherwise output is discarded and input piped. */
  function ProcessFor(c: InstanceConfig, jar: Path, dir: Path, gui: bool): (p: Process)
    ensures p.mode == InheritAndWait <==> (NeedsHosting(c.resourcepack) || !gui)
    ensures p.mode == InheritAndWait ==> p.command == CommandLine(c, jar) + ["nogui"]
    ensures p.mode == DiscardAndPipe ==> p.command == CommandLine(c, jar)
    ensures p.directory == dir
  {
    if NeedsHosting(c.resourcepack) || !gui then Process(CommandLine(c, jar) + ["nogui"], dir, InheritAndWait)
    else Process(CommandLine(c, jar), dir, DiscardAndPipe)
  }

  /** The end of the `try` starts a process from `d`: the jar check does not throw, and
      neither does `setResourcePack` on the disk it leaves. */
  predicate StartsFrom(d: Disk, cfg: Config, name: string, cwd: Path, net: Net, sha1: string -> string,
                       url: string, expected: string)
  {
    var prepared := PreparedJar(d, ServerJarPath(cfg, name), net, url, expected, sha1);
    prepared.1.Returned? && !LegacyPackThrows(prepared.0, cfg, name, cwd, net, sha1)
  }

  /** The GUI is only kept when there is nothing to host and it was asked for. */
  lemma NoGuiWhenHosting(c: InstanceConfig, jar: Path, dir: Path, gui: bool)
    requires NeedsHosting(c.resourcepack)
    ensures "nogui" in ProcessFor(c, jar, dir, gui).command
  {
    var p := ProcessFor(c, jar, dir, gui);
    assert p.command[5] == "nogui";
  }

  /** `launchServer(name, gui)`. `hosting` says whether the resource-pack HTTP server runs
      when the call starts, `hostingAfter` whether it runs afterwards: the `finally` stops
      it on every path through the `try`, but a missing instance returns before the `try`.
      The auto-backup takes `timestamp`, `draws` and `walkOrder` as `backupInstance` does;
      `backup` is its outcome (`None` when it is off) and `afterBackup` the disk it leaves.
      An exception from it is caught; a false result does not stop the launch, which goes on
      from `afterBackup` exactly as it would without the backup. */
  method LaunchServer(d: Disk, cfg: Config, name: string, cwd: Path, net: Net, sha1: string -> string,
                      gui: bool, hosting: bool, timestamp: string, draws: seq<string>, walkOrder: seq<Path>)
    returns (r: Disk, result: Outcome<LaunchResult>, hostingAfter: bool,
             ghost afterBackup: Disk, ghost backup: Option<Outcome<bool>>)
    requires Enumerates(walkOrder, Walk(d, WorldDir(cfg, name)))
    requires forall i :: 0 <= i < |draws| ==> IsHex(draws[i], 2)
    requires GetInstanceOrThrow(d, cfg, name).Returned? && GetInstanceOrThrow(d, cfg, name).value.autoBackup ==>
      DrawEnds(d, cfg, name, draws)
    ensures GetInstance(d, cfg, name).Threw? ==>
      r == d && result == Threw(GetInstance(d, cfg, name).error) && hostingAfter == hosting
    ensures GetInstance(d, cfg, name) == Returned(None) ==>
      r == d && result == Returned(NoInstance) && hostingAfter == hosting
    ensures GetInstance(d, cfg, name).Returned? && GetInstance(d, cfg, name).value.Some? ==>
      var c := GetInstance(d, cfg, name).value.value;
      && result.Returned? && result.value != NoInstance && !hostingAfter
      && (result.value.Started? ==>
            && ServerSource(net, c, sha1).Returned? && ServerSource(net, c, sha1).value.Source?
            && ServerSource(net, c, sha1).value.url != "" && ServerSource(net, c, sha1).value.sha != ""
            && result.value.process == ProcessFor(c, ServerJarPath(cfg, name), InstanceDir(cfg, name), gui)
            && IsPlainFile(r, ServerJarPath(cfg, name))
            && SameDigest(sha1(r.tree[ServerJarPath(cfg, name)].content), ServerSource(net, c, sha1).value.sha))
      && (result.value.Aborted? ==>
            ServerSource(net, c, sha1) == Returned(NoSource(result.value.why))
            || (result.value.why == MissingDownloadInfo && ServerSource(net, c, sha1).Returned?
                && ServerSource(net, c, sha1).value.Source?
                && (ServerSource(net, c, sha1).value.url == "" || ServerSource(net, c, sha1).value.sha == "")))
      && (!c.autoBackup && ServerSource(net, c, sha1).Returned? && ServerSource(net, c, sha1).value.NoSource? ==>
            r == d && result.value == Aborted(ServerSource(net, c, sha1).value.why))
      && (!c.autoBackup && ServerSource(net, c, sha1).Threw? ==>
            r == d && result.value == Caught(ServerSource(net, c, sha1).error))
    // the auto-backup is `backupInstance`, run exactly when the instance asks for it
    ensures GetInstance(d, cfg, name).Returned? && GetInstance(d, cfg, name).value.Some? ==>
      var c := GetInstance(d, cfg, name).value.value;
      && (backup.Some? <==> c.autoBackup)
      && (backup.None? ==> afterBackup == d)
      && (backup.Some? ==> exists id :: BackupOutcome(d, cfg, name, "Auto-backup", timestamp, walkOrder,
                                                      afterBackup, backup.value, id))
      && (backup.Some? && backup.value.Threw? ==> r == afterBackup && result == Returned(Caught(backup.value.error)))
    // whatever the auto-backup returned, the launch goes on from the disk it left
    ensures GetInstance(d, cfg, name).Returned? && GetInstance(d, cfg, name).value.Some?
            && (backup.None? || backup.value.Returned?) ==>
      var c := GetInstance(d, cfg, name).value.value;
      var src := ServerSource(net, c, sha1);
      && (src.Threw? ==> r == afterBackup && result == Returned(Caught(src.error)))
      && (src.Returned? && src.value.NoSource? ==> r == afterBackup && result == Returned(Aborted(src.value.why)))
      && (src.Returned? && src.value.Source? && (src.value.url == "" || src.value.sha == "") ==>
            r == afterBackup && result == Returned(Aborted(MissingDownloadInfo)))
      && (src.Returned? && src.value.Source? && src.value.url != "" && src.value.sha != "" ==>
            (result.value.Started? <==> StartsFrom(afterBackup, cfg, name, cwd, net, sha1, src.value.url, src.value.sha)))
  {
    afterBackup, backup := d, None;
    var instance := GetInstance(d, cfg, name);
    if instance.Threw? {
      return d, Threw(instance.error), hosting, afterBackup, backup;
    }
    if instance.value.None? {
      return d, Returned(NoInstance), hosting, afterBackup, backup;
    }
    var c := instance.value.value;
    var jar := ServerJarPath(cfg, name);
    hostingAfter := false;
    r := d;
    if c.autoBackup {
      var backedUpDisk, backedUp, _ := BackupInstance(d, cfg, name, "Auto-backup", timestamp, draws, walkOrder);
      r := backedUpDisk;
      afterBackup, backup := backedUpDisk, Some(backedUp);
      if backedUp.Threw? {
        return r, Returned(Caught(backedUp.error)), hostingAfter, afterBackup, backup;
      }
    }
    var source := ServerSource(net, c, sha1);
    if source.Threw? {
      return r, Returned(Caught(source.error)), hostingAfter, afterBackup, backup;
    }
    if source.value.NoSource? {
      return r, Returned(Aborted(source.value.why)), hostingAfter, afterBackup, backup;
    }
    var url, expected := source.value.url, source.value.sha;
    if url == "" || expected == "" {
      return r, Returned(Aborted(MissingDownloadInfo)), hostingAfter, afterBackup, backup;
    }
    var started: LaunchResult;
    r, started := StartServer(r, cfg, name, cwd, net, sha1, c, gui, url, expected);
    result := Returned(started);
  }

  /** The end of the `try` once the download information is known: the jar is prepared,
      the resource pack attached, and the process built; an exception on the way is
      caught. It is caught exactly when the jar check or `setResourcePack` throws, and
      afterwards only `server.properties` differs from the disk the jar check left. */
  method StartServer(d: Disk, cfg: Config, name: string, cwd: Path, net: Net, sha1: string -> string,
                     c: InstanceConfig, gui: bool, url: string, expected: string)
    returns (r: Disk, result: LaunchResult)
    ensures result.Started? || result.Caught?
    ensures result.Started? ==>
      && result.process == ProcessFor(c, ServerJarPath(cfg, name), InstanceDir(cfg, name), gui)
      && IsPlainFile(r, ServerJarPath(cfg, name))
      && SameDigest(sha1(r.tree[ServerJarPath(cfg, name)].content), expected)
    ensures result.Started? <==> StartsFrom(d, cfg, name, cwd, net, sha1, url, expected)
    ensures var prepared := PreparedJar(d, ServerJarPath(cfg, name), net, url, expected, sha1);
      && (prepared.1.Threw? ==> r == prepared.0 && result == Caught(prepared.1.error))
      && forall q :: q != PropertiesPath(cfg, name) ==> At(r, q) == At(prepared.0, q)
  {
    var jar := ServerJarPath(cfg, name);
    var prepared, downloadResult, _ := PrepareServerJar(d, jar, net, url, expected, sha1);
    r := prepared;
    if downloadResult.Threw? {
      return r, Caught(downloadResult.error);
    }
    var withPack, packResult := LegacySetResourcePack(r, cfg, name, cwd, net, sha1);
    assert jar != PropertiesPath(cfg, name) by {
      assert jar[|InstanceDir(cfg, name)|] != PropertiesPath(cfg, name)[|InstanceDir(cfg, name)|];
    }
    assert At(withPack, jar) == At(r, jar);
    r := withPack;
    if packResult.Threw? {
      return r, Caught(packResult.error);
    }
    result := Started(ProcessFor(c, jar, InstanceDir(cfg, name), gui));
  }
}
