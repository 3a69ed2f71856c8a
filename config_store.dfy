/** Reading and writing the global configuration file (util/configs/Config.kt). */
module ConfigStore {
  import opened Text
  import opened Configs

  /** `mergeWithDefaults`: blank strings and an empty `launched` list fall back to the
      defaults; booleans, numbers, `lang` and `exec` are copied as they are. */
  function MergeWithDefaults(home: string, cfg: Config): Config {
    var d := DefaultConfig(home);
    Config(
      IfBlank(cfg.instancesFolder, d.instancesFolder),
      IfBlank(cfg.api, d.api),
      IfBlank(cfg.apiLogin, d.apiLogin),
      IfBlank(cfg.apiPassword, d.apiPassword),
      cfg.backupOnRollback,
      if cfg.launched == [] then d.launched else cfg.launched,
      IfBlank(cfg.defaultEditor, d.defaultEditor),
      cfg.showFullProgress,
      cfg.lang,
      cfg.checkUpdateInterval,
      cfg.logMaxLines,
      cfg.exec)
  }

  /** Field by field: a non-blank string survives the merge, a blank one becomes its default;
      the other fields are never touched. */
  lemma MergeFieldwise(home: string, cfg: Config)
    ensures var m := MergeWithDefaults(home, cfg); var d := DefaultConfig(home);
      && (IsBlank(cfg.instancesFolder) ==> m.instancesFolder == d.instancesFolder)
      && (!IsBlank(cfg.instancesFolder) ==> m.instancesFolder == cfg.instancesFolder)
      && (IsBlank(cfg.api) ==> m.api == "") && (!IsBlank(cfg.api) ==> m.api == cfg.api)
      && (IsBlank(cfg.apiLogin) ==> m.apiLogin == "") && (!IsBlank(cfg.apiLogin) ==> m.apiLogin == cfg.apiLogin)
      && (IsBlank(cfg.apiPassword) ==> m.apiPassword == "") && (!IsBlank(cfg.apiPassword) ==> m.apiPassword == cfg.apiPassword)
      && (IsBlank(cfg.defaultEditor) ==> m.defaultEditor == "") && (!IsBlank(cfg.defaultEditor) ==> m.defaultEditor == cfg.defaultEditor)
      && (cfg.launched == [] ==> m.launched == d.launched) && (cfg.launched != [] ==> m.launched == cfg.launched)
      && m.backupOnRollback == cfg.backupOnRollback && m.showFullProgress == cfg.showFullProgress
      && m.lang == cfg.lang && m.checkUpdateInterval == cfg.checkUpdateInterval
      && m.logMaxLines == cfg.logMaxLines && m.exec == cfg.exec
  {
  }

  /** The default instances folder is never blank, so it survives a second merge. */
  lemma DefaultFolderNotBlank(home: string)
    ensures !IsBlank(DefaultInstancesFolder(home))
  {
    var f := DefaultInstancesFolder(home);
    assert f[|f| - 1] == 's';
  }

  /** Merging is idempotent. */
  lemma {:induction false} MergeIdempotent(home: string, cfg: Config)
    ensures MergeWithDefaults(home, MergeWithDefaults(home, cfg)) == MergeWithDefaults(home, cfg)
  {
    DefaultFolderNotBlank(home);
  }

  /** The defaults are a fixed point of the merge. */
  lemma {:induction false} MergeOfDefaults(home: string)
    ensures MergeWithDefaults(home, DefaultConfig(home)) == DefaultConfig(home)
  {
    DefaultFolderNotBlank(home);
  }

  /** What a configuration file holds: a decodable configuration or text that fails to decode. */
  datatype Stored = Parsed(cfg: Config) | Corrupt

  /** The two files `readConfig` looks at: the legacy `config.json` and the current
      configuration file, both in the directory of the current one. */
  class ConfigFiles {
    var legacy: Option<Stored>
    var current: Option<Stored>
    const home: string

    constructor (home: string, legacy: Option<Stored>, current: Option<Stored>)
      ensures this.home == home && this.legacy == legacy && this.current == current
    {
      this.home := home;
      this.legacy := legacy;
      this.current := current;
    }

    /** `writeConfig`: the whole file is replaced by the encoding of `cfg`. */
    method WriteConfig(cfg: Config)
      modifies this
      ensures current == Some(Parsed(cfg)) && legacy == old(legacy)
    {
      current := Some(Parsed(cfg));
    }

    /** `readConfig`: migrate a legacy file, fall back to defaults on a missing or corrupt
        file, merge with defaults, and always write the result back. */
    method ReadConfig() returns (cfg: Config)
      modifies this
      ensures legacy == None
      ensures current == Some(Parsed(cfg))
      ensures var file := if old(legacy).Some? then old(legacy) else old(current);
        cfg == match file
          case None => DefaultConfig(home)
          case Some(Corrupt) => DefaultConfig(home)
          case Some(Parsed(c)) => MergeWithDefaults(home, c)
      // what was written back reads back unchanged
      ensures MergeWithDefaults(home, cfg) == cfg
    {
      MergeOfDefaults(home);
      if legacy.Some? {
        current := legacy;
        legacy := None;
      }
      if current.Some? {
        var loaded := match current.value
          case Corrupt => DefaultConfig(home)
          case Parsed(c) => c;
        var merged := MergeWithDefaults(home, loaded);
        MergeIdempotent(home, loaded);
        WriteConfig(merged);
        cfg := merged;
      } else {
        WriteConfig(DefaultConfig(home));
        cfg := DefaultConfig(home);
      }
    }
  }
}
