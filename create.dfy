/** Creating an instance (util/instance/createInstance.kt): the directory, the checks, the
    new `cfg.json`, an empty `server.properties` and an accepted `eula.txt`. */
module Create {
  import opened Text
  import opened Configs
  import opened FileSystem
  import opened TextFiles
  import opened Properties
  import opened Versions

  const EULA_TRUE := "eula=true"
  const EULA_FALSE := "eula=false"

  function EulaPath(cfg: Config, name: string): Path {
    InstanceDir(cfg, name) + ["eula.txt"]
  }

  /** The lines accept the licence: one of them reads "eula=true" once trimmed and none
      reads "eula=false". */
  predicate EulaAccepted(lines: seq<string>) {
    (exists j :: 0 <= j < |lines| && Trim(lines[j]) == EULA_TRUE)
    && (forall j :: 0 <= j < |lines| ==> Trim(lines[j]) != EULA_FALSE)
  }

  /** A line that says something about the licence. */
  predicate MentionsEula(line: string) {
    Trim(line) == EULA_TRUE || Trim(line) == EULA_FALSE
  }

  /** Each line reading "eula=false" becomes "eula=true"; "eula=true" is appended when no
      line mentions the licence at all. */
  function EulaRewrite(lines: seq<string>): seq<string> {
    var replaced := seq(|lines|, j requires 0 <= j < |lines| =>
                          if Trim(lines[j]) == EULA_FALSE then EULA_TRUE else lines[j]);
    if forall j :: 0 <= j < |lines| ==> !MentionsEula(lines[j]) then replaced + [EULA_TRUE] else replaced
  }

  lemma TrimEulaTrue()
    ensures Trim(EULA_TRUE) == EULA_TRUE
  {
    TrimUntouched(EULA_TRUE);
  }

  /** The rewrite accepts the licence, changes only the lines reading "eula=false", and
      appends one line exactly when no line mentions the licence. */
  lemma EulaRewriteAccepts(lines: seq<string>)
    ensures var out := EulaRewrite(lines);
      && EulaAccepted(out)
      && |lines| <= |out| <= |lines| + 1
      && (|out| == |lines| + 1 <==> (forall j :: 0 <= j < |lines| ==> !MentionsEula(lines[j])))
      && (forall j :: 0 <= j < |lines| && Trim(lines[j]) != EULA_FALSE ==> out[j] == lines[j])
      && (forall j :: 0 <= j < |lines| && Trim(lines[j]) == EULA_FALSE ==> out[j] == EULA_TRUE)
  {
    TrimEulaTrue();
    var out := EulaRewrite(lines);
    if forall j :: 0 <= j < |lines| ==> !MentionsEula(lines[j]) {
      assert Trim(out[|lines|]) == EULA_TRUE;
    } else {
      var j :| 0 <= j < |lines| && MentionsEula(lines[j]);
      assert Trim(out[j]) == EULA_TRUE;
    }
  }

  /** Accepting an accepted file changes nothing. */
  lemma EulaRewriteIdempotent(lines: seq<string>)
    ensures EulaRewrite(EulaRewrite(lines)) == EulaRewrite(lines)
  {
    var out := EulaRewrite(lines);
    EulaRewriteAccepts(lines);
    var j :| 0 <= j < |out| && Trim(out[j]) == EULA_TRUE;
    assert MentionsEula(out[j]);
    assert EulaRewrite(out) == out;
  }

  /** The rewritten lines hold no line feed when the input lines hold none. */
  lemma EulaRewriteLines(lines: seq<string>)
    requires forall j :: 0 <= j < |lines| ==> '\n' !in lines[j]
    ensures var out := EulaRewrite(lines); |out| >= 1 && forall j :: 0 <= j < |out| ==> '\n' !in out[j]
  {
    EulaRewriteAccepts(lines);
  }

  /** The loop over `eula.txt`'s lines, then the append. */
  method AcceptEula(lines: seq<string>) returns (out: seq<string>)
    ensures out == EulaRewrite(lines)
  {
    out := lines;
    var updated := false;
    for i := 0 to |out|
      invariant |out| == |lines|
      invariant forall j :: 0 <= j < i ==> out[j] == (if Trim(lines[j]) == EULA_FALSE then EULA_TRUE else lines[j])
      invariant forall j :: i <= j < |out| ==> out[j] == lines[j]
      invariant updated <==> exists j :: 0 <= j < i && Trim(lines[j]) == EULA_FALSE
    {
      if Trim(out[i]) == EULA_FALSE {
        out := out[i := EULA_TRUE];
        updated := true;
      }
    }
    var append := !updated && forall j :: 0 <= j < |out| ==> Trim(out[j]) != EULA_TRUE;
    EulaLoopDone(lines, out, updated, append);
    if append {
      out := out + [EULA_TRUE];
    }
  }

  /** After the loop, appending exactly when nothing was replaced and no line accepts yet
      completes the rewrite. */
  lemma EulaLoopDone(lines: seq<string>, out: seq<string>, updated: bool, append: bool)
    requires |out| == |lines|
    requires forall j :: 0 <= j < |lines| ==> out[j] == (if Trim(lines[j]) == EULA_FALSE then EULA_TRUE else lines[j])
    requires updated <==> exists j :: 0 <= j < |lines| && Trim(lines[j]) == EULA_FALSE
    requires append <==> !updated && forall j :: 0 <= j < |out| ==> Trim(out[j]) != EULA_TRUE
    ensures (if append then out + [EULA_TRUE] else out) == EulaRewrite(lines)
  {
    var replaced := seq(|lines|, j requires 0 <= j < |lines| =>
                          if Trim(lines[j]) == EULA_FALSE then EULA_TRUE else lines[j]);
    assert out == replaced;
    EulaSilentCases(lines, out, updated);
  }

  /** No line mentions the licence exactly when nothing was replaced and no line of the
      result accepts it. */
  lemma EulaSilentCases(lines: seq<string>, out: seq<string>, updated: bool)
    requires |out| == |lines|
    requires forall j :: 0 <= j < |lines| ==> out[j] == (if Trim(lines[j]) == EULA_FALSE then EULA_TRUE else lines[j])
    requires updated <==> exists j :: 0 <= j < |lines| && Trim(lines[j]) == EULA_FALSE
    ensures (forall j :: 0 <= j < |lines| ==> !MentionsEula(lines[j]))
            <==> (!updated && forall j :: 0 <= j < |out| ==> Trim(out[j]) != EULA_TRUE)
  {
    if updated {
      var j :| 0 <= j < |lines| && Trim(lines[j]) == EULA_FALSE;
      assert MentionsEula(lines[j]);
    } else if exists j :: 0 <= j < |out| && Trim(out[j]) == EULA_TRUE {
      var j :| 0 <= j < |out| && Trim(out[j]) == EULA_TRUE;
      assert out[j] == lines[j];
      assert MentionsEula(lines[j]);
    } else {
      forall j | 0 <= j < |lines| ensures !MentionsEula(lines[j]) {
        assert Trim(out[j]) != EULA_TRUE;
      }
    }
  }

  /** The loaders an instance may be created with. */
  predicate ValidLoader(loader: string) {
    loader == "vanilla" || loader == "fabric"
  }

  /** The configuration a new instance gets: the arguments as given, the version token
      verbatim, and port 2054 whatever port was asked for. */
  function CreatedConfig(name: string, version: string, memory: string, autoBackup: bool, resourcePack: string,
                         loader: string, loaderVersion: string): InstanceConfig {
    DefaultInstanceConfig().(name := name, memory := memory, autoBackup := autoBackup,
                             resourcepack := resourcePack, resourcepackPort := 2054,
                             version := Version(version, Loader(loader, loaderVersion)))
  }

  /** Writing a fresh `cfg.json` at `p` over whatever file was there; a directory in its
      place is a `FileNotFoundException`. */
  function WriteCfgJson(d: Disk, cfg: Config, name: string, c: InstanceConfig): (r: Outcome<Disk>)
    ensures r.Returned? <==> !IsDirectory(d, CfgJsonPath(cfg, name))
    ensures r.Returned? ==> GetInstance(r.value, cfg, name) == Returned(Some(c))
  {
    var p := CfgJsonPath(cfg, name);
    if IsDirectory(d, p) then Threw(FileNotFound)
    else Returned(WriteInstanceConfig(RemovePath(d, p), cfg, name, c))
  }

  /** `Files.createDirectories` changes nothing but the path and its ancestors. */
  lemma CreateDirectoriesOnlyAncestors(d: Disk, p: Path)
    requires CreateDirectories(d, p).Returned?
    ensures forall q :: !IsUnder(p, q) ==> At(CreateDirectories(d, p).value, q) == At(d, q)
  {
  }

  /** Nothing but the paths in `changed` differs between `d` and `r`. */
  ghost predicate OnlyChanged(d: Disk, r: Disk, changed: set<Path>) {
    forall q :: q !in changed ==> At(r, q) == At(d, q)
  }

  /** `server.properties` at `p` is kept when it exists and created empty otherwise. */
  predicate PropertiesEnsured(d: Disk, r: Disk, p: Path) {
    && (Exists(d, p) ==> At(r, p) == At(d, p))
    && (!Exists(d, p) ==> IsPlainFile(r, p) && r.tree[p].content == "")
  }

  /** `eula.txt` at `p` is a plain file accepting the licence: "eula=true\n" when there
      was no file, the rewrite of the old lines when there was one. */
  predicate EulaEnsured(d: Disk, r: Disk, p: Path) {
    && IsPlainFile(r, p)
    && EulaAccepted(Lines(r.tree[p].content))
    && (!Exists(d, p) ==> r.tree[p].content == "eula=true\n")
    && (IsPlainFile(d, p) ==> Lines(r.tree[p].content) == EulaRewrite(Lines(d.tree[p].content)))
  }

  /** Both guarantees speak of `d` only through what it holds at `p`. */
  lemma EnsuredDependsOnPath(d: Disk, d1: Disk, r: Disk, p: Path)
    requires At(d1, p) == At(d, p)
    ensures PropertiesEnsured(d1, r, p) ==> PropertiesEnsured(d, r, p)
    ensures EulaEnsured(d1, r, p) ==> EulaEnsured(d, r, p)
  {
    assert IsPlainFile(d, p) ==> d.tree[p] == d1.tree[p];
  }

  /** What `createInstance` writes once the checks have passed, into an existing instance
      directory: `cfg.json`, `server.properties` when missing, and `eula.txt`. */
  method WriteInstanceFiles(d: Disk, cfg: Config, name: string, c: InstanceConfig)
    returns (r: Disk, result: Outcome<bool>)
    requires IsDirectory(d, InstanceDir(cfg, name))
    ensures result.Returned? <==> (!IsDirectory(d, CfgJsonPath(cfg, name))
                                   && (Exists(d, EulaPath(cfg, name)) ==> IsPlainFile(d, EulaPath(cfg, name))))
    ensures result.Returned? ==>
      && result.value && IsDirectory(r, InstanceDir(cfg, name))
      && OnlyChanged(d, r, {CfgJsonPath(cfg, name), PropertiesPath(cfg, name), EulaPath(cfg, name)})
      && GetInstance(r, cfg, name) == Returned(Some(c))
      && PropertiesEnsured(d, r, PropertiesPath(cfg, name))
      && EulaEnsured(d, r, EulaPath(cfg, name))
  {
    var dir := InstanceDir(cfg, name);
    var eulaPath := EulaPath(cfg, name);
    var cfgPath := CfgJsonPath(cfg, name);
    var spPath := PropertiesPath(cfg, name);
    assert eulaPath[|dir|] != cfgPath[|dir|] && eulaPath[|dir|] != spPath[|dir|];
    var d1, written := WriteConfigFiles(d, cfg, name, c);
    if written.Threw? {
      return d1, written;
    }
    assert At(d1, eulaPath) == At(d, eulaPath);
    assert ParentIsDirectory(d1, eulaPath) by {
      assert eulaPath[..|eulaPath| - 1] == dir;
    }
    r, result := WriteEula(d1, eulaPath);
    if result.Returned? {
      EulaAfterConfigFiles(d, d1, r, cfg, name, c);
    }
  }

  /** Writing `eula.txt` after the configuration files keeps what they established. */
  lemma EulaAfterConfigFiles(d: Disk, d1: Disk, r: Disk, cfg: Config, name: string, c: InstanceConfig)
    requires IsDirectory(d1, InstanceDir(cfg, name))
    requires OnlyChanged(d, d1, {CfgJsonPath(cfg, name), PropertiesPath(cfg, name)})
    requires GetInstance(d1, cfg, name) == Returned(Some(c))
    requires PropertiesEnsured(d, d1, PropertiesPath(cfg, name))
    requires OnlyChanged(d1, r, {EulaPath(cfg, name)}) && EulaEnsured(d1, r, EulaPath(cfg, name))
    ensures IsDirectory(r, InstanceDir(cfg, name))
    ensures OnlyChanged(d, r, {CfgJsonPath(cfg, name), PropertiesPath(cfg, name), EulaPath(cfg, name)})
    ensures GetInstance(r, cfg, name) == Returned(Some(c))
    ensures PropertiesEnsured(d, r, PropertiesPath(cfg, name))
    ensures EulaEnsured(d, r, EulaPath(cfg, name))
  {
    var dir := InstanceDir(cfg, name);
    var eulaPath := EulaPath(cfg, name);
    var cfgPath := CfgJsonPath(cfg, name);
    var spPath := PropertiesPath(cfg, name);
    assert eulaPath[|dir|] != cfgPath[|dir|] && eulaPath[|dir|] != spPath[|dir|];
    assert At(r, spPath) == At(d1, spPath) && At(r, cfgPath) == At(d1, cfgPath) && At(r, dir) == At(d1, dir);
    assert At(d1, eulaPath) == At(d, eulaPath);
    EnsuredDependsOnPath(d, d1, r, eulaPath);
  }

  /** The new `cfg.json` over whatever file was there, then an empty `server.properties`
      unless one exists. */
  method WriteConfigFiles(d: Disk, cfg: Config, name: string, c: InstanceConfig)
    returns (r: Disk, result: Outcome<bool>)
    requires IsDirectory(d, InstanceDir(cfg, name))
    ensures result.Returned? <==> !IsDirectory(d, CfgJsonPath(cfg, name))
    ensures result.Threw? ==> r == d
    ensures result.Returned? ==>
      && result.value && IsDirectory(r, InstanceDir(cfg, name))
      && OnlyChanged(d, r, {CfgJsonPath(cfg, name), PropertiesPath(cfg, name)})
      && GetInstance(r, cfg, name) == Returned(Some(c))
      && PropertiesEnsured(d, r, PropertiesPath(cfg, name))
  {
    var dir := InstanceDir(cfg, name);
    var cfgPath := CfgJsonPath(cfg, name);
    var spPath := PropertiesPath(cfg, name);
    assert spPath[|dir|] != cfgPath[|dir|];
    assert dir != cfgPath && dir != spPath;
    var written := WriteCfgJson(d, cfg, name, c);
    if written.Threw? {
      return d, Threw(written.error);
    }
    r := written.value;
    if !Exists(r, spPath) {
      r := WriteFile(r, spPath, "");
    }
    result := Returned(true);
  }

  /** The `eula.txt` step: a missing file is written as "eula=true\n"; a file that exists
      is read, rewritten to accept the licence and written back. */
  method WriteEula(d: Disk, p: Path) returns (r: Disk, result: Outcome<bool>)
    requires ParentIsDirectory(d, p)
    ensures result.Returned? <==> (Exists(d, p) ==> IsPlainFile(d, p))
    ensures result.Threw? ==> r == d
    ensures result.Returned? ==> result.value && OnlyChanged(d, r, {p}) && EulaEnsured(d, r, p)
  {
    var lines: seq<string>;
    if !Exists(d, p) {
      lines := [EULA_TRUE];
      TrimEulaTrue();
    } else {
      var read := ReadLines(d, p);
      if read.Threw? {
        return d, Threw(read.error);
      }
      lines := AcceptEula(read.value);
      EulaRewriteLines(read.value);
      EulaRewriteAccepts(read.value);
    }
    r := WriteFile(d, p, Contents(lines));
    EulaWritten(d, p, lines);
    result := Returned(true);
  }

  /** Writing accepting lines back to `eula.txt` touches nothing else and reads back as
      those lines. */
  lemma EulaWritten(d: Disk, p: Path, lines: seq<string>)
    requires |lines| >= 1 && forall j :: 0 <= j < |lines| ==> '\n' !in lines[j]
    requires EulaAccepted(lines)
    requires !Exists(d, p) ==> lines == [EULA_TRUE]
    requires IsPlainFile(d, p) ==> lines == EulaRewrite(Lines(d.tree[p].content))
    ensures var r := WriteFile(d, p, Contents(lines)); OnlyChanged(d, r, {p}) && EulaEnsured(d, r, p)
  {
    LinesOfContents(lines);
  }

  /** Creating the directories and then writing the three files changes nothing else. */
  lemma CreationFrame(d: Disk, r: Disk, cfg: Config, name: string)
    requires CreateDirectories(d, InstanceDir(cfg, name)).Returned?
    requires OnlyChanged(CreateDirectories(d, InstanceDir(cfg, name)).value, r,
                         {CfgJsonPath(cfg, name), PropertiesPath(cfg, name), EulaPath(cfg, name)})
    ensures forall q :: (!IsUnder(InstanceDir(cfg, name), q) && q != CfgJsonPath(cfg, name)
       && q != PropertiesPath(cfg, name) && q != EulaPath(cfg, name)) ==> At(r, q) == At(d, q)
  {
    CreateDirectoriesOnlyAncestors(d, InstanceDir(cfg, name));
  }

  /** Creating the instance directory leaves the three files it will hold as they were. */
  lemma CreatedKeepsFiles(d: Disk, cfg: Config, name: string)
    requires CreateDirectories(d, InstanceDir(cfg, name)).Returned?
    ensures var d1 := CreateDirectories(d, InstanceDir(cfg, name)).value;
      && IsDirectory(d1, InstanceDir(cfg, name))
      && At(d1, CfgJsonPath(cfg, name)) == At(d, CfgJsonPath(cfg, name))
      && At(d1, PropertiesPath(cfg, name)) == At(d, PropertiesPath(cfg, name))
      && At(d1, EulaPath(cfg, name)) == At(d, EulaPath(cfg, name))
  {
    var dir := InstanceDir(cfg, name);
    assert dir[..|dir|] == dir;
    assert !IsUnder(dir, CfgJsonPath(cfg, name)) && !IsUnder(dir, PropertiesPath(cfg, name))
      && !IsUnder(dir, EulaPath(cfg, name));
  }

  /** `createInstance`. The instance directory is created first, so a rejected loader or
      version leaves it behind; nothing else is written then. On success the instance
      loads as the new configuration, `server.properties` exists (created empty when it
      was missing) and `eula.txt` reads back as accepting the licence; nothing outside
      the instance directory and its ancestors changes. Launching after creation is not
      part of this method. */
  method CreateInstance(d: Disk, cfg: Config, net: Net, name: string, version: string, memory: string,
                        autoBackup: bool, resourcePack: string, resourcePackPort: int,
                        loader: string, loaderVersion: string)
    returns (r: Disk, result: Outcome<bool>)
    ensures CreateDirectories(d, InstanceDir(cfg, name)).Threw? ==> r == d && result == Threw(FileAlreadyExists)
    ensures (CreateDirectories(d, InstanceDir(cfg, name)).Returned?
      && (!ValidLoader(loader) || !CheckMinecraftVersion(net, version))) ==>
        r == CreateDirectories(d, InstanceDir(cfg, name)).value && result == Returned(false)
    ensures result == Returned(false) ==> !ValidLoader(loader) || !CheckMinecraftVersion(net, version)
    ensures result.Returned? ==> IsDirectory(r, InstanceDir(cfg, name))
    ensures result.Returned? ==> forall q ::
      (!IsUnder(InstanceDir(cfg, name), q) && q != CfgJsonPath(cfg, name)
       && q != PropertiesPath(cfg, name) && q != EulaPath(cfg, name)) ==> At(r, q) == At(d, q)
    ensures result == Returned(true) ==>
      && GetInstance(r, cfg, name)
         == Returned(Some(CreatedConfig(name, version, memory, autoBackup, resourcePack, loader, loaderVersion)))
      && PropertiesEnsured(d, r, PropertiesPath(cfg, name))
      && EulaEnsured(d, r, EulaPath(cfg, name))
    ensures (CreateDirectories(d, InstanceDir(cfg, name)).Returned? && ValidLoader(loader)
      && CheckMinecraftVersion(net, version)) ==>
        (result == Returned(true) <==> (!IsDirectory(d, CfgJsonPath(cfg, name))
                                        && (Exists(d, EulaPath(cfg, name)) ==> IsPlainFile(d, EulaPath(cfg, name)))))
  {
    var dir := InstanceDir(cfg, name);
    var created := CreateDirectories(d, dir);
    if created.Threw? {
      return d, Threw(created.error);
    }
    var d1 := created.value;
    assert dir[..|dir|] == dir;
    if !ValidLoader(loader) {
      return d1, Returned(false);
    }
    if !CheckMinecraftVersion(net, version) {
      return d1, Returned(false);
    }
    CreatedKeepsFiles(d, cfg, name);
    var c := CreatedConfig(name, version, memory, autoBackup, resourcePack, loader, loaderVersion);
    r, result := WriteInstanceFiles(d1, cfg, name, c);
    if result.Returned? {
      CreatedFilesEnsured(d, r, cfg, name);
    }
  }

  /** What the files written into the created directory guarantee holds of the disk as it
      was before the directory was created. */
  lemma CreatedFilesEnsured(d: Disk, r: Disk, cfg: Config, name: string)
    requires CreateDirectories(d, InstanceDir(cfg, name)).Returned?
    requires var d1 := CreateDirectories(d, InstanceDir(cfg, name)).value;
      && OnlyChanged(d1, r, {CfgJsonPath(cfg, name), PropertiesPath(cfg, name), EulaPath(cfg, name)})
      && PropertiesEnsured(d1, r, PropertiesPath(cfg, name))
      && EulaEnsured(d1, r, EulaPath(cfg, name))
    ensures forall q :: (!IsUnder(InstanceDir(cfg, name), q) && q != CfgJsonPath(cfg, name)
       && q != PropertiesPath(cfg, name) && q != EulaPath(cfg, name)) ==> At(r, q) == At(d, q)
    ensures PropertiesEnsured(d, r, PropertiesPath(cfg, name))
    ensures EulaEnsured(d, r, EulaPath(cfg, name))
  {
    var d1 := CreateDirectories(d, InstanceDir(cfg, name)).value;
    CreatedKeepsFiles(d, cfg, name);
    EnsuredDependsOnPath(d, d1, r, PropertiesPath(cfg, name));
    EnsuredDependsOnPath(d, d1, r, EulaPath(cfg, name));
    CreationFrame(d, r, cfg, name);
  }
}
