/** Resolving game versions against Mojang's version manifest and building Fabric server
    URLs (util/api/Mojang.kt, util/api/Fabric.kt, util/api/checkMinecraftVersion.kt).
    The network is an input: what each URL answers. */
module Versions {
  import opened Text
  import opened FileSystem

  datatype ManifestVersion = ManifestVersion(id: string, url: string)

  /** `Manifest`: the latest release and snapshot ids and every known version. */
  datatype Manifest = Manifest(release: string, snapshot: string, versions: seq<ManifestVersion>)

  /** `downloads.server` of a version package. */
  datatype ServerDownload = ServerDownload(url: string, sha1: string)

  /** `Package`: the version id and its server download. */
  datatype Package = Package(id: string, server: ServerDownload)

  datatype FabricLoaderVersion = FabricLoaderVersion(version: string, stable: bool)

  /** What a response body decodes to. An installer is its "version" field, if any. */
  datatype Document =
    | ManifestDoc(manifest: Manifest)
    | PackageDoc(pkg: Package)
    | LoaderList(loaders: seq<FabricLoaderVersion>)
    | InstallerList(installers: seq<Option<string>>)
    | Opaque

  /** An HTTP response: its status, its raw bytes and what they decode to. */
  datatype Response = Response(status: int, bytes: string, doc: Document)

  /** The answers of the network by URL; a URL without an answer cannot be reached. */
  type Net = map<string, Response>

  const MANIFEST_URL := "https://piston-meta.mojang.com/mc/game/version_manifest_v2.json"
  const FABRIC_LOADERS_URL := "https://meta.fabricmc.net/v2/versions/loader"
  const FABRIC_INSTALLERS_URL := "https://meta.fabricmc.net/v2/versions/installer"

  /** `network.get(url)`: the response, whatever its status; no answer is a connection error. */
  function Get(net: Net, url: string): (r: Outcome<Response>)
    ensures r.Returned? <==> url in net
  {
    if url in net then Returned(net[url]) else Threw(Connection)
  }

  /** ktor's `isSuccess()`. */
  predicate IsSuccess(status: int) {
    200 <= status <= 299
  }

  /** `getVersions`: the manifest, when the answer is 200 OK and decodes. */
  function GetVersions(net: Net): (r: Outcome<Manifest>)
    ensures r.Returned? <==> (MANIFEST_URL in net && net[MANIFEST_URL].status == 200
      && net[MANIFEST_URL].doc.ManifestDoc?)
    ensures r.Returned? ==> r.value == net[MANIFEST_URL].doc.manifest
  {
    match Get(net, MANIFEST_URL)
    case Threw(e) => Threw(e)
    case Returned(resp) =>
      if resp.status != 200 then Threw(HttpStatus(resp.status))
      else if !resp.doc.ManifestDoc? then Threw(Serialization)
      else Returned(resp.doc.manifest)
  }

  predicate IsLatestAlias(token: string) {
    Lower(token) == "latest" || Lower(token) == "l"
  }

  predicate IsSnapshotAlias(token: string) {
    Lower(token) == "snapshot" || Lower(token) == "s"
  }

  /** The `when (versionId.lowercase())` of `getVersion`. */
  function ResolveToken(m: Manifest, token: string): string {
    if IsLatestAlias(token) then m.release
    else if IsSnapshotAlias(token) then m.snapshot
    else token
  }

  /** The aliases are matched in any letter case; any other token is used as it is,
      letter case included. */
  lemma ResolveTokenCases(m: Manifest, token: string)
    ensures Lower(token) in {"latest", "l"} ==> ResolveToken(m, token) == m.release
    ensures Lower(token) in {"snapshot", "s"} ==> ResolveToken(m, token) == m.snapshot
    ensures Lower(token) !in {"latest", "l", "snapshot", "s"} ==> ResolveToken(m, token) == token
    ensures ResolveToken(m, "LATEST") == m.release && ResolveToken(m, "S") == m.snapshot
  {
    assert Lower("LATEST") == "latest";
    assert Lower("S") == "s";
  }

  /** `firstOrNull { it.id == id }` as a position. */
  function FindVersion(vs: seq<ManifestVersion>, id: string): (r: Option<nat>)
    ensures r.Some? ==> r.value < |vs| && vs[r.value].id == id
    ensures r.Some? ==> forall j :: 0 <= j < r.value ==> vs[j].id != id
    ensures r.None? ==> forall j :: 0 <= j < |vs| ==> vs[j].id != id
  {
    if vs == [] then None
    else if vs[0].id == id then Some(0)
    else
      match FindVersion(vs[1..], id)
      case None => None
      case Some(k) => Some(k + 1)
  }

  /** `getVersion(versionId)`: the package of the first manifest entry whose id is the
      resolved token, fetched from that entry's URL. */
  function GetVersion(net: Net, token: string): (r: Outcome<Package>)
    ensures r.Returned? ==> GetVersions(net).Returned?
    ensures r.Returned? ==>
      var m := GetVersions(net).value;
      var k := FindVersion(m.versions, ResolveToken(m, token));
      && k.Some?
      && m.versions[k.value].url in net
      && net[m.versions[k.value].url].status == 200
      && net[m.versions[k.value].url].doc == PackageDoc(r.value)
    ensures GetVersions(net).Returned?
      && FindVersion(GetVersions(net).value.versions, ResolveToken(GetVersions(net).value, token)).None?
      ==> r == Threw(VersionNotFound)
  {
    match GetVersions(net)
    case Threw(e) => Threw(e)
    case Returned(m) =>
      match FindVersion(m.versions, ResolveToken(m, token))
      case None => Threw(VersionNotFound)
      case Some(k) =>
        match Get(net, m.versions[k].url)
        case Threw(e) => Threw(e)
        case Returned(resp) =>
          if resp.status != 200 then Threw(HttpStatus(resp.status))
          else if !resp.doc.PackageDoc? then Threw(Serialization)
          else Returned(resp.doc.pkg)
  }

  /** `checkMinecraftVersion`: the aliases are accepted outright; any other token is
      accepted exactly when `getVersion` completes, its exceptions becoming false. */
  function CheckMinecraftVersion(net: Net, token: string): (ok: bool)
    ensures ok <==> (Lower(token) in {"latest", "l", "snapshot", "s"} || GetVersion(net, token).Returned?)
  {
    match Lower(token)
    case "latest" => true
    case "l" => true
    case "snapshot" => true
    case "s" => true
    case _ => GetVersion(net, token).Returned?
  }

  /** The aliases do not depend on the network at all. */
  lemma AliasesNeedNoLookup(net1: Net, net2: Net, token: string)
    requires Lower(token) in {"latest", "l", "snapshot", "s"}
    ensures CheckMinecraftVersion(net1, token) && CheckMinecraftVersion(net2, token)
  {
  }

  /** A token naming a version the manifest lacks is rejected. */
  lemma UnknownVersionRejected(net: Net, token: string)
    requires Lower(token) !in {"latest", "l", "snapshot", "s"}
    requires GetVersions(net).Returned?
    requires forall v :: v in GetVersions(net).value.versions ==> v.id != token
    ensures !CheckMinecraftVersion(net, token)
  {
    var m := GetVersions(net).value;
    ResolveTokenCases(m, token);
    var k := FindVersion(m.versions, token);
  }

  /** `getFabricLoaderVersions`: a non-success answer throws. */
  function GetFabricLoaders(net: Net): (r: Outcome<seq<FabricLoaderVersion>>)
    ensures r.Returned? <==> (FABRIC_LOADERS_URL in net && IsSuccess(net[FABRIC_LOADERS_URL].status)
      && net[FABRIC_LOADERS_URL].doc.LoaderList?)
  {
    match Get(net, FABRIC_LOADERS_URL)
    case Threw(e) => Threw(e)
    case Returned(resp) =>
      if !IsSuccess(resp.status) then Threw(HttpStatus(resp.status))
      else if !resp.doc.LoaderList? then Threw(Serialization)
      else Returned(resp.doc.loaders)
  }

  /** `firstOrNull { it.version == v }` as a position. */
  function FindLoader(ls: seq<FabricLoaderVersion>, v: string): (r: Option<nat>)
    ensures r.Some? ==> r.value < |ls| && ls[r.value].version == v
    ensures r.Some? ==> forall j :: 0 <= j < r.value ==> ls[j].version != v
    ensures r.None? ==> forall j :: 0 <= j < |ls| ==> ls[j].version != v
  {
    if ls == [] then None
    else if ls[0].version == v then Some(0)
    else
      match FindLoader(ls[1..], v)
      case None => None
      case Some(k) => Some(k + 1)
  }

  /** The loader `getFabric` picks: the first listed for "latest"/"l" (stable or not),
      otherwise the first whose version equals the token exactly. */
  function SelectLoader(ls: seq<FabricLoaderVersion>, loader: string): Option<FabricLoaderVersion> {
    if IsLatestAlias(loader) then (if ls == [] then None else Some(ls[0]))
    else match FindLoader(ls, loader)
      case None => None
      case Some(k) => Some(ls[k])
  }

  /** The installer version: the first installer's for "latest"/"l", otherwise the token
      itself, unchecked. */
  function SelectInstaller(installers: seq<Option<string>>, installer: string): Option<string> {
    if IsLatestAlias(installer) then (if installers == [] then None else installers[0])
    else Some(installer)
  }

  function FabricServerUrl(mc: string, loader: string, installer: string): string {
    "https://meta.fabricmc.net/v2/versions/loader/" + mc + "/" + loader + "/" + installer + "/server/jar"
  }

  /** `getFabric(version, loader, installer)`: the server jar URL, or null when the installer
      list cannot be fetched or no loader or installer is found; the loader list, a
      malformed installer list and `getVersion` can throw. */
  function GetFabric(net: Net, version: string, loader: string, installer: string): (r: Outcome<Option<string>>)
    ensures r.Returned? ==> GetFabricLoaders(net).Returned?
    ensures r.Returned? && r.value.Some? ==>
      FABRIC_INSTALLERS_URL in net && net[FABRIC_INSTALLERS_URL].doc.InstallerList?
    ensures r.Returned? && r.value.Some? ==>
      var loaders := GetFabricLoaders(net).value;
      var installers := net[FABRIC_INSTALLERS_URL].doc.installers;
      && SelectLoader(loaders, loader).Some?
      && SelectInstaller(installers, installer).Some?
      && GetVersion(net, version).Returned?
      && r.value.value == FabricServerUrl(GetVersion(net, version).value.id,
           SelectLoader(loaders, loader).value.version, SelectInstaller(installers, installer).value)
    // and conversely, step by step: which failures throw, which give null, and when the URL is built
    ensures GetFabricLoaders(net).Threw? ==> r == Threw(GetFabricLoaders(net).error)
    ensures GetFabricLoaders(net).Returned? && FABRIC_INSTALLERS_URL !in net ==> r == Threw(Connection)
    ensures GetFabricLoaders(net).Returned? && FABRIC_INSTALLERS_URL in net ==>
      var resp := net[FABRIC_INSTALLERS_URL];
      var lv := SelectLoader(GetFabricLoaders(net).value, loader);
      && (!IsSuccess(resp.status) ==> r == Returned(None))
      && (IsSuccess(resp.status) && !resp.doc.InstallerList? ==> r == Threw(IllegalArgument))
      && (IsSuccess(resp.status) && resp.doc.InstallerList? ==>
            var iv := SelectInstaller(resp.doc.installers, installer);
            && (lv.None? || iv.None? ==> r == Returned(None))
            && (lv.Some? && iv.Some? && GetVersion(net, version).Threw? ==> r == Threw(GetVersion(net, version).error))
            && (lv.Some? && iv.Some? && GetVersion(net, version).Returned? ==>
                  r == Returned(Some(FabricServerUrl(GetVersion(net, version).value.id, lv.value.version, iv.value)))))
  {
    match GetFabricLoaders(net)
    case Threw(e) => Threw(e)
    case Returned(loaders) =>
      match Get(net, FABRIC_INSTALLERS_URL)
      case Threw(e) => Threw(e)
      case Returned(resp) =>
        if !IsSuccess(resp.status) then Returned(None)
        else if !resp.doc.InstallerList? then Threw(IllegalArgument)
        else
          match SelectLoader(loaders, loader)
          case None => Returned(None)
          case Some(lv) =>
            match SelectInstaller(resp.doc.installers, installer)
            case None => Returned(None)
            case Some(iv) =>
              match GetVersion(net, version)
              case Threw(e) => Threw(e)
              case Returned(pkg) => Returned(Some(FabricServerUrl(pkg.id, lv.version, iv)))
  }

  /** "latest" takes the head of the loader list even when it is not a stable build, and an
      explicit loader version is the first exact match. */
  lemma SelectLoaderCases(ls: seq<FabricLoaderVersion>, loader: string)
    ensures IsLatestAlias(loader) && ls != [] ==> SelectLoader(ls, loader) == Some(ls[0])
    ensures !IsLatestAlias(loader) ==>
      (SelectLoader(ls, loader).Some? <==> exists j :: 0 <= j < |ls| && ls[j].version == loader)
    ensures !IsLatestAlias(loader) && SelectLoader(ls, loader).Some? ==> SelectLoader(ls, loader).value.version == loader
  {
    if !IsLatestAlias(loader) && exists j :: 0 <= j < |ls| && ls[j].version == loader {
      var j :| 0 <= j < |ls| && ls[j].version == loader;
      assert FindLoader(ls, loader).Some?;
    }
  }

  /** A non-success installer list answer gives null, not an exception. */
  lemma InstallerListFailureIsNull(net: Net, version: string, loader: string, installer: string)
    requires GetFabricLoaders(net).Returned?
    requires FABRIC_INSTALLERS_URL in net && !IsSuccess(net[FABRIC_INSTALLERS_URL].status)
    ensures GetFabric(net, version, loader, installer) == Returned(None)
  {
  }

  /** The two null answers beyond a failed installer fetch: an explicit loader version that
      no listed loader has exactly, and "latest" over an empty installer list. */
  lemma FabricNotFoundIsNull(net: Net, version: string, loader: string, installer: string)
    requires GetFabricLoaders(net).Returned?
    requires FABRIC_INSTALLERS_URL in net && IsSuccess(net[FABRIC_INSTALLERS_URL].status)
    requires net[FABRIC_INSTALLERS_URL].doc.InstallerList?
    requires (!IsLatestAlias(loader) && forall j :: 0 <= j < |GetFabricLoaders(net).value| ==>
                GetFabricLoaders(net).value[j].version != loader)
          || (IsLatestAlias(installer) && net[FABRIC_INSTALLERS_URL].doc.installers == [])
    ensures GetFabric(net, version, loader, installer) == Returned(None)
  {
  }

  /** The URL ends in "/server/jar" and starts with the Fabric meta endpoint. */
  lemma FabricUrlShape(mc: string, loader: string, installer: string)
    ensures var u := FabricServerUrl(mc, loader, installer);
      StartsWith(u, "https://meta.fabricmc.net/v2/versions/loader/") && EndsWith(u, "/server/jar")
  {
  }
}
