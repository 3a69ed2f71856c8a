/** The persisted configuration records of the launcher and their default values
    (data/configs/INSTANCE_CONFIG.kt and data/configs/CONFIG.kt). */
module Configs {
  import opened Text

  /** A mod loader: its kind ("vanilla", "fabric") and a loader version token. */
  datatype Loader = Loader(kind: string, version: string)

  /** The game version token of an instance (e.g. "latest", "1.21") and its loader. */
  datatype Version = Version(minecraft: string, loader: Loader)

  /** One ledger entry: the instance's game version, the formatted timestamp and a description. */
  datatype Backup = Backup(version: string, dateTime: string, desc: string)

  /** The per-instance `cfg.json`. */
  datatype InstanceConfig = InstanceConfig(
    cfgVersion: int,
    version: Version,
    name: string,
    memory: string,
    autoBackup: bool,
    resourcepack: string,
    resourcepackPort: int,
    backups: map<string, Backup>,
    modrinth: map<string, string>)

  const DEFAULT_MEMORY := "2048M"
  const DEFAULT_RESOURCEPACK_PORT := 2548

  function DefaultLoader(): Loader {
    Loader("vanilla", "latest")
  }

  function DefaultVersion(): Version {
    Version("latest", DefaultLoader())
  }

  function DefaultBackup(): Backup {
    Backup("", "", "")
  }

  /** `INSTANCE_CONFIG()`. */
  function DefaultInstanceConfig(): InstanceConfig {
    InstanceConfig(2, DefaultVersion(), "", DEFAULT_MEMORY, false, "", DEFAULT_RESOURCEPACK_PORT, map[], map[])
  }

  /** The documented default values of an instance configuration. */
  lemma InstanceDefaults()
    ensures var c := DefaultInstanceConfig();
      && c.cfgVersion == 2 && c.name == "" && c.memory == "2048M" && !c.autoBackup
      && c.resourcepack == "" && c.resourcepackPort == 2548
      && c.backups == map[] && c.modrinth == map[]
      && c.version.minecraft == "latest"
      && c.version.loader.kind == "vanilla" && c.version.loader.version == "latest"
    ensures DefaultBackup().version == "" && DefaultBackup().dateTime == "" && DefaultBackup().desc == ""
  {
  }

  /** One entry of the global `launched` list. */
  datatype Launched = Launched(instance: string, pid: int, launchedAt: string)

  /** The global configuration file. */
  datatype Config = Config(
    instancesFolder: string,
    api: string,
    apiLogin: string,
    apiPassword: string,
    backupOnRollback: bool,
    launched: seq<Launched>,
    defaultEditor: string,
    showFullProgress: bool,
    lang: string,
    checkUpdateInterval: int,
    logMaxLines: int,
    exec: string)

  /** `<home>/.minecraft/server_instances`; `home` is the user's absolute home directory. */
  function DefaultInstancesFolder(home: string): (r: string)
    ensures EndsWith(r, "/.minecraft/server_instances")
  {
    home + "/.minecraft/server_instances"
  }

  /** `CONFIG()` for a user whose home directory is `home`. */
  function DefaultConfig(home: string): Config {
    Config(DefaultInstancesFolder(home), "", "", "", true, [], "", true, "en", 3600000, 4, "java")
  }

  lemma GlobalDefaults(home: string)
    ensures var c := DefaultConfig(home);
      && c.instancesFolder == home + "/.minecraft/server_instances"
      && c.api == "" && c.apiLogin == "" && c.apiPassword == "" && c.defaultEditor == ""
      && c.backupOnRollback && c.showFullProgress
      && c.lang == "en" && c.checkUpdateInterval == 3600000 && c.logMaxLines == 4 && c.exec == "java"
      && c.launched == []
  {
  }

  /** The cached result of the last update check. */
  datatype CacheGithubRelease = CacheGithubRelease(version: string, lastChecked: int)

  /** The application cache file. */
  datatype AppCache = AppCache(update: CacheGithubRelease)

  function DefaultAppCache(): AppCache {
    AppCache(CacheGithubRelease("", 0))
  }

  lemma AppCacheDefaults()
    ensures DefaultAppCache().update.version == "" && DefaultAppCache().update.lastChecked == 0
  {
  }
}
