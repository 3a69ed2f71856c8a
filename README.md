# MServerLauncher instance lifecycle, modelled in Dafny

MServerLauncher is a command-line launcher for Minecraft servers. It creates server
instances, edits their `cfg.json`, rewrites `server.properties`, wires resource packs,
resolves Minecraft and Fabric versions, launches the server jar, and makes, lists, removes
and restores zip backups of an instance's `world` folder. This project models the logic
of those operations. It covers the Kotlin sources and the older Python program `main.py`.
It proves what each operation promises about the files it leaves behind and the value it
returns.

The outside world is abstract:
- The filesystem is a value `Disk`. It maps paths below the instances folder to files and
  directories. It also holds zip archives, as lists of entries, and JSON configuration
  documents, as records.
- The network is a map from URL to response; a URL that is absent failed to connect.
- SHA-1 digests, clock readings, random draws, the order in which a directory listing or a
  walk returns paths, and the answers typed at a prompt are all parameters.
- An exception is a value: `Outcome<T>` is either `Returned(value)` or `Threw(exception)`.

Modules, one per area of the program:
- `FileSystem` (filesystem.dfy): paths, the disk, and the disk operations the program
  calls.
- `Text` (text.dfy) and `TextFiles` (textfile.dfy): the string functions of the Kotlin
  standard library the program relies on, and files read as lines.
- `Configs` (configs.dfy): `INSTANCE_CONFIG`, `CONFIG` and their defaults.
- `ConfigStore` (config_store.dfy): `readConfig`, `writeConfig`, `mergeWithDefaults`.
- `Progress` (progress.dfy): the `ProgressBar` class.
- `Archive` (archive.dfy): recursive deletion, `zipWithProgress`, and the extraction loop
  of a rollback.
- `Backups` (backups.dfy): the backup ledger, covering backup, list, remove and rollback,
  in both the current `backupApi` files and the older ones.
- `Edit` (edit.dfy) and `Create` (create.dfy): `editInstance` and `createInstance`.
- `Properties` (properties.dfy): the `server.properties` rewriter.
- `ResourcePack` (resource_pack.dfy): `setResourcePack` and `attachResourcePack`, current
  and older.
- `Versions` (versions.dfy): Mojang manifest lookup, Fabric loader and installer
  selection, and `checkMinecraftVersion`.
- `Hashing` (hashing.dfy): local and remote SHA-1 as parameters.
- `Launch` (launch.dfy): the pre-launch plan of `launchServer`.
- `Listing` (listing.dfy): `listInstances` and version labels.
- `Tables` (table.dfy): `Table`'s width, row, wrap and centre logic.
- `I18n` (i18n.dfy): nested-key lookup, placeholder filling and locale choice.
- `Updates` (updates.dfy): `checkUpdates`.
- `Prompt` (prompt.dfy): normalisation of a prompt's answer.
- `LegacyPy` (legacy_py.dfy) and `LegacyPyBackups` (legacy_py_backups.dfy): the
  dictionary-based versions of the same rules in `main.py`.

Code that changes state step by step is modelled with methods and loops, each proved
against a function that states its result. Examples are the zip and delete loops, the
ledger loops, the eula rewrite and the line rewrite. `ProgressBar` and the `I18n` object
are classes whose methods update their fields. Pure selection rules are modelled as
functions, with lemmas stating their properties.

## Model

| member | source | states |
|---|---|---|
| Archive.DeleteRecursively | src/main/kotlin/util/instance/rollbackInstance.kt:45-54 | `deleteRecursively` of the world folder visits the walk bottom-up and skips failed deletes. The disk it leaves equals `Pruned`: what lies outside the folder, plus every path at or above an undeletable one. The result is true iff no walked path is left. |
| Archive.DeleteRecursivelyWithProgress | src/main/kotlin/util/plugIns/deleteRecursivelyWithProgress.kt:8-19 | Every walked entry, the folder included, is targeted, children before their parent. Failed deletes are ignored and the disk left is `Pruned`. The bar is started at the number of walked entries and stepped once per entry. Its message window is min(entries, `logMaxLines`). |
| Archive.PrunedWithoutLocks | src/main/kotlin/util/plugIns/deleteRecursivelyWithProgress.kt:9-19 | When every delete can succeed, the whole subtree is gone and nothing else changes. |
| Archive.LockedPathSurvives | src/main/kotlin/util/plugIns/deleteRecursivelyWithProgress.kt:16-19 | A path whose delete fails survives, and so does every directory above it up to the deleted folder. |
| Archive.DeleteStep | src/main/kotlin/util/plugIns/deleteRecursivelyWithProgress.kt:16-19 | One iteration of the bottom-up loop: once everything below `q` has been visited, `q` is removed exactly when nothing locked lies below it. |
| Archive.ZipTarget | src/main/kotlin/util/zipWithProgress.kt:25 | The archive is the sibling `<destination>.zip`: it has the same parent as the destination. |
| Archive.RegularFiles | src/main/kotlin/util/zipWithProgress.kt:12-17 | Only regular files of the walk are collected, all of them, and without repeats when the walk has none. |
| Archive.CollectRegularFiles | src/main/kotlin/util/zipWithProgress.kt:11-17 | The collecting loop returns exactly `RegularFiles` of the walk, in walk order. |
| Archive.EntriesFor | src/main/kotlin/util/zipWithProgress.kt:28-37 | There is exactly one entry per collected file. |
| Archive.FirstRepeatCorrect | src/main/kotlin/util/zipWithProgress.kt:31 | The search for the entry where `putNextEntry` throws finds the first repeated entry name, and finds none exactly when all names differ. |
| Archive.ZipWithProgress | src/main/kotlin/util/zipWithProgress.kt:10-42 | The disk and the outcome of the two loops equal those of `Zip`. `Zip` throws on a missing source, returns false on an empty file list, and writes `<destination>.zip` entry by entry. |
| Archive.WriteEntryLoop | src/main/kotlin/util/zipWithProgress.kt:29-37 | The entry loop writes the entries in file order. A repeated name throws after the earlier entries have been written. |
| Archive.ZipOfNoFiles | src/main/kotlin/util/zipWithProgress.kt:19-23 | When there are no regular files below the source, the call returns false and the disk is unchanged. |
| Archive.ZipArchiveContents | src/main/kotlin/util/zipWithProgress.kt:25-41 | A successful zip writes only `<destination>.zip`. It holds one entry per regular file below the source, named by the file's relative path and holding its content, and nothing else; the names are unique. |
| Archive.ZipEntries | src/main/kotlin/util/zipWithProgress.kt:28-37 | After a successful zip, the archive is the list of entries of the walk's regular files, in walk order. |
| Archive.ExtractEntries | src/main/kotlin/util/instance/backupApi/rollbackInstance.kt:64-75 | The extraction loop gives `ExtractAll`. A directory entry becomes a directory. A file entry gets its parents and is copied over an existing file. The first exception ends the loop, and the disk it reached is that of a prefix of the entries. |
| Archive.ThrowPersists | src/main/kotlin/util/instance/backupApi/rollbackInstance.kt:56-83 | Once an entry throws, the whole extraction has thrown that exception. |
| Archive.RestoreAll | src/main/kotlin/util/instance/backupApi/rollbackInstance.kt:64-75 | Extracting the entries of distinct plain files into an empty directory succeeds, and leaves every one of them restored. |
| Archive.ExtractWalkedFiles | src/main/kotlin/util/instance/rollbackInstance.kt:56-72 | Extracting into an empty `world` the entries of a walk's regular files succeeds. It puts every plain file of the source at the same relative place with the same content, and no other file. It changes nothing outside `world`. |
| Archive.ZipThenExtract | src/main/kotlin/util/instance/rollbackInstance.kt:45-75 | The round trip of a backup: extracting the archive `zipWithProgress` made of a folder restores that folder's plain files below an empty directory and nothing else, provided no file name holds a backslash. |
| Backups.GenerateUniqueHex | src/main/kotlin/util/instance/backupApi/backupInstance.kt:60-68 | The do-while loop returns the first drawn id that is not taken. That id has 2·size lowercase hexadecimal digits, and every earlier draw was taken. |
| Backups.FreshIdAvailable | src/main/kotlin/util/instance/backupApi/backupInstance.kt:60-66 | With fewer than 256 backups a free one-byte id exists, so the retry loop can end. |
| Backups.ArchiveBaseOfFormatted | src/main/kotlin/util/instance/backupApi/backupInstance.kt:32-34 | The archive base of a `yyyy.MM.dd-HH:mm:ss` stamp is `yyyyMMdd-HHmmss-world-backup`: every '.' and ':' is removed. |
| Backups.ArchiveNamesDistinct | src/main/kotlin/util/instance/backupApi/backupInstance.kt:32-35 | Backups stamped at different seconds get different archive names. |
| Backups.ZipTargetIsArchivePath | src/main/kotlin/util/instance/backupApi/backupInstance.kt:35-46 | The archive `zipWithProgress` writes is the file the ledger operations later look for. |
| Backups.ZipWritesOnlyTarget | src/main/kotlin/util/zipWithProgress.kt:19-37 | `zipWithProgress` changes nothing on disk but its target archive. |
| Backups.BackupInstance | src/main/kotlin/util/instance/backupApi/backupInstance.kt:13-58 | A missing instance throws. A missing instance folder returns false with nothing changed. A missing `world` returns false with only `backups` created. Past that point every exception becomes false. The world is never touched and no other archive is changed. Nothing else on disk changes except the missing directories up to `backups`, the new archive and, only on success, `cfg.json`. On success `cfg.json` holds the configuration read with only its ledger replaced. The ledger changes only on success, and then by exactly one fresh id mapped to the instance's version, the stamp and the description. The new archive holds the world's regular files. A free draw is required only when the backup reaches the id loop: the instance loads, `backups` can be created and the world is a directory. |
| Backups.ArchiveWorld | src/main/kotlin/util/instance/backupApi/backupInstance.kt:32-57 | The `try` block never throws. It zips the world, and only when the zip returns true does it record exactly one new entry under a fresh id, with the other entries unchanged. It writes nothing but the new archive, `cfg.json` (only on success, and then only its ledger) and the missing directories up to the instance. |
| Backups.ScanLedger | src/main/kotlin/util/instance/backupApi/listBackups.kt:33-47 | The loop prints one row per entry whose archive exists, in ledger order without sorting, and collects the ids of the others. |
| Backups.MissingMembers | src/main/kotlin/util/instance/backupApi/listBackups.kt:35-44 | An id is collected as missing iff its `<stamp>-world-backup.zip` is absent. |
| Backups.RowsMembers | src/main/kotlin/util/instance/backupApi/listBackups.kt:40-46 | The printed rows are exactly those of the entries whose archive exists. |
| Backups.RowsAndMissingCount | src/main/kotlin/util/instance/backupApi/listBackups.kt:35-47 | Each ledger id is either printed or collected, never both and never neither. |
| Backups.DropMissing | src/main/kotlin/util/instance/backupApi/listBackups.kt:49-52 | Removing the collected ids from the ledger leaves exactly the entries whose archive exists. With nothing collected, the ledger stays as it was. |
| Backups.PruneIdempotent | src/main/kotlin/util/instance/backupApi/listBackups.kt:35-52 | After pruning, every entry has its archive, and pruning again changes nothing. |
| Backups.ListLedger | src/main/kotlin/util/instance/backupApi/listBackups.kt:18-54 | An empty ledger writes nothing. Otherwise the rows and the missing ids are reported. The stored ledger becomes the pruned one, rewritten only when something was missing, and no archive changes. |
| Backups.ListBackups | src/main/kotlin/util/instance/backupApi/listBackups.kt:11-55 | A missing instance throws (`!!`) with nothing changed. Otherwise the ledger left is the pruned ledger and it is consistent with the disk. |
| Backups.LegacyListBackups | src/main/kotlin/util/instance/listBackups.kt:7-50 | A missing instance prints a notice and writes nothing. Otherwise the behaviour is that of `ListLedger`: missing entries are dropped and the others are kept unchanged. |
| Backups.FirstUnknown | src/main/kotlin/util/instance/backupApi/removeBackups.kt:22-26 | The loop stops at the first id that is not in the ledger. Every id before it is in the ledger. |
| Backups.DeleteArchivesOnlyRemoves | src/main/kotlin/util/instance/backupApi/removeBackups.kt:35-41 | Deleting the archives of the given ids only removes things, and only the archives of those ids. |
| Backups.RemovedArchivesGone | src/main/kotlin/util/instance/backupApi/removeBackups.kt:35-43 | The archive of every processed id is gone afterwards unless its delete could not succeed. An archive that was already missing is simply skipped. |
| Backups.RemoveBackups | src/main/kotlin/util/instance/backupApi/removeBackups.kt:11-50 | An unknown id returns false at once. The archives deleted for earlier ids stay deleted and the ledger is not rewritten. After a full pass, the new ledger is the old one minus exactly the processed ids, whether their archive existed or not. |
| Backups.RemoveAllBackups | src/main/kotlin/util/instance/backupApi/removeBackups.kt:52-64 | The answer "n" returns false with nothing changed. Any other answer removes every ledger id, leaves an empty ledger and returns true. |
| Backups.AllIdsRemoved | src/main/kotlin/util/instance/backupApi/removeBackups.kt:59-61 | Removing all the ledger's keys empties it. |
| Backups.SafetyBackupStep | src/main/kotlin/util/instance/backupApi/rollbackInstance.kt:36-42 | The automatic backup runs exactly when `backupOnRollback` is set. It is then a call of `backupInstance` with the given description: the returned disk and outcome satisfy that function's whole contract. Without it the disk is unchanged. Either way the world and every other archive are untouched, and nothing else changes beyond `backupInstance`'s frame: the new archive, the directories up to `backups`, and `cfg.json` only when the backup succeeds, with only its ledger changed. |
| Backups.ExtractBackup | src/main/kotlin/util/instance/backupApi/rollbackInstance.kt:56-83 | The `try` block creates `world`, then extracts the archive. The result is true iff the extraction goes through, and the world then holds what it wrote. Any exception gives false. The disk is then unchanged if `world` could not be created, has only `world` created if the archive cannot be opened, and otherwise holds a prefix of the entries extracted. |
| Backups.ReplaceWorld | src/main/kotlin/util/instance/backupApi/rollbackInstance.kt:46-83 | An existing world is deleted before extraction. The call succeeds iff the archive extracts completely into the re-created world. On failure the disk is the cleared world with the extraction as far as it got. |
| Backups.RollbackInstance | src/main/kotlin/util/instance/backupApi/rollbackInstance.kt:14-84 | A missing instance throws. An unknown id or a missing archive returns false with nothing changed. The safety backup is `backupInstance` when configured, described by the translation of `command.backup.subs.autobackupRollbackDesc` with the id in place of `[id]`. If it throws, the exception escapes. If it returns false, the rollback returns false and the world is untouched. The disk before the deletion (`beforeDelete`) differs from the original at most within `backupInstance`'s frame: the new archive, the directories up to `backups`, and the ledger in `cfg.json`. Otherwise the rollback returns true iff the chosen archive extracts completely into the cleared world. The disk then holds that extraction, or the extraction as far as it got. |
| Backups.LegacyRollbackInstance | src/main/kotlin/util/instance/rollbackInstance.kt:9-80 | A missing instance, an unknown id or a missing archive returns false, with the world untouched. Otherwise it behaves as `RollbackInstance`, with the safety backup described as "Auto-backup before rollback to " followed by the id, and deleting with `deleteRecursively`: a failed safety backup returns false, and past it true means the archive extracted completely. The safety backup changes the disk only within `backupInstance`'s frame. |
| Backups.RollbackLoaded | src/main/kotlin/util/instance/backupApi/rollbackInstance.kt:18-83 | The common body: the checks come first and change nothing. Then comes the safety backup, which stops the rollback when it throws or returns false and changes the disk only within `backupInstance`'s frame. Then come the deletion and the extraction, whose complete success is exactly a true result. |
| Backups.FreshWorld | src/main/kotlin/util/instance/backupApi/rollbackInstance.kt:46-58 | After the deletion, `createDirectories(world)` leaves `world` an empty directory and keeps every archive outside it. |
| Backups.RollbackRestoresBackup | src/main/kotlin/util/instance/rollbackInstance.kt:45-75 | When the chosen archive is what a successful backup of a world recorded, the extraction that ends the rollback succeeds. It changes nothing outside the world and leaves in it exactly the old world's plain files with their old content. |
| Configs.InstanceDefaults | src/main/kotlin/data/configs/INSTANCE_CONFIG.kt:6-36 | `INSTANCE_CONFIG()` has `cfgVersion` 2, name "", memory "2048M", `autoBackup` false, resource pack "" on port 2548, and empty backups and modrinth maps. Its version is minecraft "latest" with loader "vanilla"/"latest". Every `Backup` field defaults to "". |
| Configs.DefaultInstancesFolder | src/main/kotlin/data/configs/CONFIG.kt:17 | The default instances folder is `.minecraft/server_instances` below the home directory. |
| Configs.GlobalDefaults | src/main/kotlin/data/configs/CONFIG.kt:16-28 | `CONFIG()` has api, login, password and editor "", `backupOnRollback` and `showFullProgress` true, lang "en", `checkUpdateInterval` 3600000, `logMaxLines` 4, exec "java", and an empty `launched` list. |
| Configs.AppCacheDefaults | src/main/kotlin/data/configs/CONFIG.kt:43-61 | `AppCache()` caches version "" with `lastChecked` 0. |
| ConfigStore.MergeFieldwise | src/main/kotlin/util/configs/Config.kt:47-62 | Each blank string field, and an empty `launched`, falls back to its default, and a non-blank one survives. Booleans, numbers, lang and exec are copied as they are, even when blank. |
| ConfigStore.MergeIdempotent | src/main/kotlin/util/configs/Config.kt:47-62 | Merging twice is merging once. |
| ConfigStore.MergeOfDefaults | src/main/kotlin/util/configs/Config.kt:47-62 | The defaults are a fixed point of the merge. |
| ConfigStore.ConfigFiles.WriteConfig | src/main/kotlin/util/configs/Config.kt:14-17 | The whole file is replaced by `cfg`; the legacy file is untouched. |
| ConfigStore.ConfigFiles.ReadConfig | src/main/kotlin/util/configs/Config.kt:19-45 | A legacy `config.json` is first moved over the current file. A missing file or a parse failure yields the defaults; otherwise the result is the merge of the loaded configuration. The result is always written back, and merging it again changes nothing. |
| Create.EulaRewriteAccepts | src/main/kotlin/util/instance/createInstance.kt:70-80 | After the rewrite the lines accept the licence. Every line that trims to "eula=false" becomes "eula=true" and every other line is kept. One "eula=true" is appended exactly when no line mentions the licence. |
| Create.EulaRewriteIdempotent | src/main/kotlin/util/instance/createInstance.kt:70-81 | Rewriting an already rewritten file changes nothing. |
| Create.AcceptEula | src/main/kotlin/util/instance/createInstance.kt:70-80 | The loop with its `updated` flag, followed by the conditional append, computes `EulaRewrite`. |
| Create.EulaLoopDone | src/main/kotlin/util/instance/createInstance.kt:78-80 | Appending only when nothing was replaced and no line reads "eula=true" completes the rewrite. |
| Create.WriteCfgJson | src/main/kotlin/util/instance/createInstance.kt:58-59 | Writing `cfg.json` fails only when a directory stands in its place. Afterwards the instance loads as the written configuration. |
| Create.WriteEula | src/main/kotlin/util/instance/createInstance.kt:67-82 | A missing `eula.txt` becomes "eula=true\n". An existing file is read as lines, rewritten and written back with a final line feed. Nothing else changes, and the file reads back as accepting the licence. |
| Create.EulaWritten | src/main/kotlin/util/instance/createInstance.kt:81 | Lines joined by "\n" plus a final "\n" read back as the same lines, and only `eula.txt` changes. |
| Create.WriteConfigFiles | src/main/kotlin/util/instance/createInstance.kt:58-65 | `cfg.json` is written. An empty `server.properties` is created only if absent; an existing one is kept. |
| Create.WriteInstanceFiles | src/main/kotlin/util/instance/createInstance.kt:58-82 | The three files are written. Success happens exactly when neither `cfg.json` nor `eula.txt` is blocked by a directory. Only those three paths change. |
| Create.CreatedKeepsFiles | src/main/kotlin/util/instance/createInstance.kt:33 | Creating the instance directory leaves the files it will hold as they were. |
| Create.CreateInstance | src/main/kotlin/util/instance/createInstance.kt:19-104 | The directory is created first. A loader other than "vanilla"/"fabric", or a version `checkMinecraftVersion` rejects, returns false with only the directory left behind. On success the instance loads as the given arguments with the version token verbatim and port 2054, whatever port was asked. `server.properties` exists, `eula.txt` accepts the licence, and nothing else changes. |
| Create.CreatedFilesEnsured | src/main/kotlin/util/instance/createInstance.kt:33-82 | What the file writes guarantee about the disk after the directory was created also holds of the disk as it was before. |
| Backups.BackupsEditPatched | src/main/kotlin/util/instance/backupApi/backupInstance.kt:48-51 | `editInstance(name, backups = b)` replaces the ledger and keeps every other field of the configuration. |
| Backups.LedgerWritten | src/main/kotlin/util/instance/backupApi/backupInstance.kt:51 | Recording the backup leaves the world and every archive alone and stores the new ledger, with the rest of the configuration as read. Besides `cfg.json`, at most the missing directories up to the instance appear. |
| Backups.ArchiveWritten | src/main/kotlin/util/instance/backupApi/backupInstance.kt:44 | Zipping the world leaves the world, `cfg.json` and every other archive alone. It writes nothing but the new archive. |
| Backups.BackupsDirCreated | src/main/kotlin/util/instance/backupApi/backupInstance.kt:23-24 | Creating `backups` leaves the world, its walk and the instance's configuration alone. |
| FileSystem.CreateDirectoriesChangedOnly | src/main/kotlin/util/instance/backupApi/backupInstance.kt:24 | `Files.createDirectories` only adds directories where nothing was stored, on the way to its path. |
| Edit.PatchedFieldwise | src/main/kotlin/util/instance/editInstance.kt:34-53 | Every null argument keeps its field and every non-null one replaces it. Loader type and loader version are patched independently. `name`, `cfgVersion` and `modrinth` never change. The resource pack changes only on an internal call. |
| Edit.NoEditsKeepConfig | src/main/kotlin/util/instance/editInstance.kt:34-46 | An edit that passes nothing leaves the configuration as it was. |
| Edit.PatchedIdempotent | src/main/kotlin/util/instance/editInstance.kt:34-53 | Applying the same edit twice is applying it once. |
| Edit.EditInstance | src/main/kotlin/util/instance/editInstance.kt:12-59 | A missing `cfg.json` throws `FileNotFoundException` and nothing is written. Otherwise, once the file decodes, the whole file is rewritten with the patched configuration. |
| Edit.EditInPlace | src/main/kotlin/util/instance/editInstance.kt:55-56 | On a well-formed disk only `cfg.json` changes, and it then loads as the patched configuration. |
| FileSystem.GetInstance | src/main/kotlin/util/instance/getInstance.kt:9-19 | `getInstance` returns null exactly when nothing exists at `cfg.json`. It returns a configuration exactly when the file there decodes, and that configuration is the stored one. Anything else that exists there throws: a directory, which `readText` cannot read, with an I/O error, and any other file with a serialization error. |
| FileSystem.GetInstanceOrThrow | src/main/kotlin/util/instance/backupApi/backupInstance.kt:16 | `getInstance(name)!!` returns a configuration exactly when `getInstance` does, and throws otherwise. |
| FileSystem.CreateDirectories | src/main/kotlin/util/instance/backupApi/backupInstance.kt:24 | `Files.createDirectories` throws `FileAlreadyExistsException` exactly when some prefix exists but is not a directory. Otherwise every prefix is a directory afterwards, nothing that existed changes, and only missing prefixes are added. |
| FileSystem.Walk | src/main/kotlin/util/plugIns/deleteRecursivelyWithProgress.kt:9 | The walk visits exactly what is stored at or below its start. |
| FileSystem.RemoveSubtree | src/main/kotlin/util/instance/rollbackInstance.kt:49 | Removing a folder with everything below it drops exactly the paths at or below it, and keeps the rest unchanged. |
| FileSystem.ParseJoinedPath | src/main/kotlin/util/zipWithProgress.kt:31 | A '/'-joined relative path resolves back to its segments. |
| FileSystem.WellFormedCreateDirectories | src/main/kotlin/util/instance/backupApi/rollbackInstance.kt:58 | `createDirectories` keeps every stored path under an existing parent directory. |
| FileSystem.WellFormedRemoveSubtree | src/main/kotlin/util/instance/backupApi/rollbackInstance.kt:49 | Deleting a subtree keeps every stored path under an existing parent directory. |
| Hashing.FileSha1 | src/main/kotlin/util/api/calculateSHA.kt:11-32 | A local digest exists exactly for a plain file, and it is the SHA-1 of its content. A missing file or a directory gives null. |
| Hashing.RemoteSha1 | src/main/kotlin/util/api/calculateSHA.kt:34-57 | A remote digest exists exactly when the URL answers, and it is the SHA-1 of the body. |
| Hashing.ErrorPagesAreHashed | src/main/kotlin/util/api/calculateSHA.kt:39-52 | The status is not checked, so a 404 page is hashed like a real download. |
| I18n.ResolveNested | src/main/kotlin/util/I18n.kt:100-111 | The loop computes `Resolve`. It steps into the current object for each dot-separated segment and gives null as soon as a segment is missing or the current element is not an object. A primitive resolves to its content, an object or array to its JSON text. |
| I18n.FlatKey | src/main/kotlin/util/I18n.kt:100-111 | A key without dots is looked up directly in the document. |
| I18n.NestedKey | src/main/kotlin/util/I18n.kt:102-104 | "a.rest" resolves as "rest" inside the object under "a". It resolves to null when "a" is missing or not an object. |
| I18n.ReplaceVars | src/main/kotlin/util/I18n.kt:124-130 | The loop computes `Substituted`: each variable in turn replaces the first remaining "%s", and null renders as "null". |
| I18n.NoPlaceholderUnchanged | src/main/kotlin/util/I18n.kt:126-128 | A text without "%s" is unchanged, however many variables are given. |
| I18n.FillsPlaceholders | src/main/kotlin/util/I18n.kt:124-130 | For a template and values without '%', the i-th value lands in the i-th "%s". Values beyond the placeholders change nothing. |
| I18n.Translated | src/main/kotlin/util/I18n.kt:116-119 | The text comes from the requested or current locale. Failing that it comes from `DEFAULT_LANGUAGE`, and failing that it is the key itself. |
| I18n.EmptyDocumentResolvesNothing | src/main/kotlin/util/I18n.kt:117-118 | A locale that was never loaded counts as an empty document and resolves no key. |
| I18n.Translator.SetLocale | src/main/kotlin/util/I18n.kt:25-35 | A loaded locale is set. A missing one is downloaded first; when the download fails, `DEFAULT_LANGUAGE` is set instead. |
| I18n.Translator.Tr | src/main/kotlin/util/I18n.kt:115-122 | `tr` returns the translated text with the variables substituted. |
| I18n.Translator.constructor | src/main/kotlin/util/I18n.kt:20-22 | The translator starts on the default language, with the locales it was given. |
| Launch.ServerSource | src/main/kotlin/util/instance/launchServer.kt:37-64 | A failed `getVersion` throws. "vanilla" takes the package's server url and sha1. "fabric" takes the `getFabric` URL and the remote SHA-1 of what it serves, and aborts when either is null. Any other loader aborts. |
| Launch.DownloadServer | src/main/kotlin/util/api/downloadServer.kt:15-68 | The body is written to the jar whatever the status. The call returns true exactly when the URL answers, the jar can be written and the digest matches, ignoring case. A mismatch throws after the file was replaced. |
| Launch.PrepareServerJar | src/main/kotlin/util/instance/launchServer.kt:71-81 | A download happens exactly when `server.jar` is missing or its SHA-1 differs from the expected one. Its disk and outcome are then those of `downloadServer`, and otherwise nothing changes. On success the jar's digest matches. |
| Launch.Memory | src/main/kotlin/util/instance/launchServer.kt:86 | An empty memory setting becomes "2048M"; any other is kept. |
| Launch.CommandLine | src/main/kotlin/util/instance/launchServer.kt:88-94 | The command is `java -Xmx<mem> -Xms<mem> -jar <absolute path of server.jar>`. |
| Launch.ProcessFor | src/main/kotlin/util/instance/launchServer.kt:96-127 | When the pack needs hosting (set and not a URL) or `gui` is false, "nogui" is appended and the console is inherited and waited on. Otherwise output is discarded and input piped. The process runs in the instance directory. |
| Launch.NoGuiWhenHosting | src/main/kotlin/util/instance/launchServer.kt:97-106 | A pack that needs hosting always forces "nogui". |
| Launch.LaunchServer | src/main/kotlin/util/instance/launchServer.kt:14-138 | A missing instance returns without a launch, with the pack server state untouched. Otherwise the resource-pack server is stopped on every path. The auto-backup runs exactly when the instance asks for it, and is `backupInstance`; a free draw is required only then. An exception from it is caught. A false result does not stop the launch, which goes on from the disk the backup left. A failed version lookup is caught, and a missing source or empty download information aborts. With a source, the server starts iff the jar check and `setResourcePack` do not throw. A started process has a jar whose digest matches and the planned command and mode. |
| Launch.StartServer | src/main/kotlin/util/instance/launchServer.kt:71-134 | Once the download information is known, the call ends Started or Caught. It ends Caught iff the jar check or `setResourcePack` throws. A throwing jar check leaves the disk it produced. Otherwise only `server.properties` differs from the checked disk. Started means the jar matches the expected digest and the process is the planned one. |
| LegacyPy.FillMissing | main.py:63-66 | Every key already in the dictionary keeps its value, every missing default key gets its default, and the "updated" flag is true exactly when some default key was missing. |
| LegacyPy.ReadConfig | main.py:54-70 | The configuration is `EMPTY_CONFIG` overlaid with the stored document (or with nothing when there is none). It is written back exactly when some default key was missing, and what is written is the returned configuration. |
| LegacyPy.FillingTwiceAddsNothing | main.py:63-68 | Filling an already-filled dictionary changes nothing and finds no missing key, so a second `read_config` writes nothing. |
| LegacyPy.GetInstancePy | main.py:246-257 | None exactly when nothing exists at `cfg.json`. Something there that does not parse raises: a directory an I/O error, anything else a decode error. Otherwise every stored key keeps its value, the key set is the stored keys plus those of `EMPTY_INSTANCE_CFG`, and each missing key holds its default. |
| LegacyPy.RandomHexNumber | main.py:259-263 | The result has `2*size` lowercase hex digits, and digit i is the i-th draw from '0123456789abcdef'. |
| LegacyPy.PyGetVersions | main.py:119-122 | The manifest is returned exactly when the URL answers with a status below 400 and a manifest body, and then it is that body. |
| LegacyPy.PyResolveToken | main.py:127-130 | "latest"/"l" give the release id, "snapshot"/"s" the snapshot id, and any other string is kept. The test is exact, so it is case-sensitive. |
| LegacyPy.GetVersionPy | main.py:124-139 | A returned package is the body of the first manifest entry whose id is the resolved token, fetched with a status below 400. A manifest without such an entry raises `ValueError`. |
| LegacyPy.PythonAliasesAreCaseSensitive | main.py:127-130 | Unlike the Kotlin lookup, "LATEST" is not an alias here. Both implementations accept the same manifests. |
| LegacyPy.PyStoredPack | main.py:232-237 | An http(s) URL is stored verbatim, "" stays "", and anything else is stored as its absolute path. |
| LegacyPy.Patched | main.py:220-241 | Each key holds the edit's value when the edit sets it, and its old value otherwise. |
| LegacyPy.PatchedFields | main.py:220-241 | `version` and `memory` change only for a non-empty argument. `auto_backup`, `resourcepack`, `resourcepack_port` and `backups` change whenever their argument is given. Each changed key takes the value its argument stands for, and every other key is untouched. |
| LegacyPy.PatchIdempotent | main.py:220-241 | Applying the same edit twice gives the result of applying it once. |
| LegacyPy.ResolveArgument | main.py:220-226 | A non-alias version is kept as given. An alias resolves through the manifest, and fails exactly when the manifest download fails. |
| LegacyPy.EditInstancePy | main.py:209-244 | A missing `cfg.json` raises `FileNotFoundError`. An unreadable one raises the read error with nothing changed. A failed alias lookup raises before anything is written. Otherwise only `cfg.json` is rewritten, holding the stored dictionary patched (not filled with defaults). |
| LegacyPy.PatchConf | main.py:220-241 | The sequence of `if` statements produces exactly the patched dictionary. |
| LegacyPy.PyLines | main.py:465-471 | Every line `for line in f` yields is non-empty, and it keeps its '\n'. |
| LegacyPy.ConcatPyLines | main.py:465-471 | Joining the lines read gives back the file's text. |
| LegacyPy.RewritePy | main.py:477-483 | The same number of lines comes out. A line that, stripped, starts with "key=" and is not a comment becomes "key=value\n", and every other line is kept verbatim. |
| LegacyPy.UntargetedFileUnchanged | main.py:477-486 | When no line is targeted, the file is written back byte for byte. |
| LegacyPy.UpdateServerPropertiesPy | main.py:454-489 | A missing file gives False. A directory raises. A key that no property line declares gives False with nothing written. Otherwise the file is rewritten with the targeted lines replaced and the rest kept, and the result is True. |
| LegacyPy.RewriteLines | main.py:477-483 | The loop builds exactly the rewritten line list. |
| LegacyPyBackups.PyEntries | main.py:278-282 | One entry per file, in order, each named by its path relative to the source with '/' separators. |
| LegacyPyBackups.PyFiles | main.py:267-271 | The walk lists only plain files below the source. |
| LegacyPyBackups.ZipWithProgressPy | main.py:265-284 | The function leaves the disk and the result that `zip_with_progress` specifies: False with no archive when there are no files; otherwise the archive of the walked files and True. |
| LegacyPyBackups.PyEntryLoop | main.py:278-282 | The write loop produces one entry per collected file, in order. |
| LegacyPyBackups.PyZipOfNoFiles | main.py:273-276 | A tree with no file returns False and leaves the disk unchanged. |
| LegacyPyBackups.PyZipContents | main.py:265-284 | When True is returned, the archive holds exactly the entries of the plain files below the source, and nothing else on disk changes. |
| LegacyPyBackups.BackupsOnlyEdit | main.py:323-324 | `edit_instance(name, backups=...)` replaces only the `backups` key. |
| LegacyPyBackups.BackupInstancePy | main.py:286-328 | An instance that does not load raises before anything changes. A free draw is required only for an instance that loads. A missing instance folder gives False. A `backups` folder that cannot be created raises. A missing world gives False with only that folder created. The world and every other archive are untouched. On disk nothing else changes but the missing directories up to `backups` and the new archive, and the stored `cfg.json` changes only on success. True means the ledger gained a fresh two-digit hex id recording the version, timestamp and description, and the archive holds the world's files. |
| LegacyPyBackups.ArchiveWorldPy | main.py:317-328 | The `try` block never raises. The `cfg.json` changes only when True is returned, and then only by the new ledger entry, whose archive holds the world's files. On disk it writes nothing but the new archive. |
| LegacyPyBackups.PyArchiveWritten | main.py:319 | Zipping the world writes nothing but the new archive: the world and every other archive are left alone. |
| LegacyPyBackups.PyFilesUnchanged | main.py:267-271 | The files and entries of a walk depend only on what lies below its start. |
| LegacyPyBackups.RecordTimestamp | main.py:340-344 | The timestamp is read exactly when the record is an object with `version` and a string `datetime`. Otherwise a type or key error is raised. |
| LegacyPyBackups.RollbackInstancePy | main.py:330-377 | An instance that does not load raises. An unknown id or a missing archive gives False with nothing changed. The automatic backup runs, once the checks pass, exactly when it is configured, and it is then `backup_instance` with its whole contract, described as "Auto-backup before rollback to " followed by the id. If it raises or returns False, the rollback stops with the world untouched. Otherwise the result is True iff the world is absent, or is a directory with nothing in it that cannot be removed, and it can be recreated and every entry extracts. When `rmtree` stops at a path it cannot remove, the result is False and the disk holds the removal as far as it got. Otherwise, on failure, the disk holds the extraction as far as it got. |
| LegacyPyBackups.ReplaceWorldPy | main.py:359-377 | A world that is a plain file makes `rmtree` fail with nothing changed. A world holding a path that cannot be removed makes `rmtree` fail part-way: False, with the paths before that one in removal order gone. Otherwise the result is True iff the world can be recreated and every entry extracts. The world is then rebuilt from the archive; on failure the extraction is as far as it got. |
| LegacyPyBackups.RmtreeStop | main.py:362-366 | `rmtree` stops at the first path in its removal order that cannot be removed. Every path before it can be removed. |
| LegacyPyBackups.PyRmtreeClears | main.py:362-366 | `rmtree` gets through the whole tree exactly when nothing in it is locked, and then it removes exactly the subtree. |
| LegacyPyBackups.PyRmtreeStops | main.py:362-366 | `rmtree` removes only unlocked paths at or below the world. When it fails, the path it stopped at is still on disk. |
| Listing.ChildPaths | src/main/kotlin/util/instance/listInstances.kt:16 | Each listed name becomes the path of that entry inside the instances folder, in listing order. |
| Listing.FoundMembers | src/main/kotlin/util/instance/listInstances.kt:16-30 | A (name, configuration) pair is found exactly when the name is an entry that is a directory holding a `cfg.json` that loads, and the configuration is the one `getInstance` loads under that directory name. Entries whose configuration throws are skipped. |
| Listing.FoundKeepsOrder | src/main/kotlin/util/instance/listInstances.kt:16-30 | Looking at more entries keeps what was already found, in the same order. |
| Listing.VersionLabel | src/main/kotlin/util/instance/listInstances.kt:62-68 | The aliases l/latest and s/snapshot, in any case, are shown as "latest version" and "latest snapshot". Any other version is shown as stored. |
| Listing.RelabelledOnlyAliases | src/main/kotlin/util/instance/listInstances.kt:62-68 | A version is relabelled only when it is a token that the version lookup resolves to the manifest's latest release or snapshot. |
| Listing.RowValues | src/main/kotlin/util/instance/listInstances.kt:44-51 | A row holds four values: the directory name, the loader type, the version label and the memory. |
| Listing.ListInstances | src/main/kotlin/util/instance/listInstances.kt:9-60 | The instances folder is created when that succeeds. The result is exactly the instances found among the folder's entries, whatever `apiMode` is. Rows are printed only outside API mode and only when something was found, one per instance in order. |
| Listing.FindInstances | src/main/kotlin/util/instance/listInstances.kt:16-30 | The `forEach` loop collects exactly the found instances. |
| Listing.TableRows | src/main/kotlin/util/instance/listInstances.kt:43-52 | One row per found instance, in order. |
| Progress.TruncDiv | src/main/kotlin/util/ProgressBar.kt:51-52 | Kotlin integer division agrees with Euclidean division on non-negative operands. |
| Progress.Percent | src/main/kotlin/util/ProgressBar.kt:51 | The percentage is always in 0..100. For a positive total and a count within it, it is the exact floor of current*100/total, not the truncated `Double` product. A count at or past the total gives 100. |
| Progress.Share | src/main/kotlin/util/ProgressBar.kt:51 | For a positive total the percentage is in 0..100 and is the floor of the ratio, clamped at 100. |
| Progress.PercentDivision | src/main/kotlin/util/ProgressBar.kt:51 | The integer quotient current*100/total brackets the exact ratio, and it is at most 100 exactly when the count does not pass the total. |
| Progress.DivAtMost | src/main/kotlin/util/ProgressBar.kt:51-52 | Integer division is bounded above by any k with a <= k*b. |
| Progress.DivAtLeast | src/main/kotlin/util/ProgressBar.kt:51-52 | Integer division is bounded below by any k with a >= k*b. |
| Progress.Filled | src/main/kotlin/util/ProgressBar.kt:52 | The filled length never exceeds the bar, and it is the whole bar at 100%. |
| Progress.Bar | src/main/kotlin/util/ProgressBar.kt:53 | The bar is `barLength` long once something is filled, and one longer when nothing is. It holds only '=', the spinner glyph and '-', with the glyph at the last filled position and '=' before it. |
| Progress.PushMessage | src/main/kotlin/util/ProgressBar.kt:29-35 | The message window never grows past `maxMessageLines`, and it ends with the new message. Below the limit the message is appended; at the limit the oldest one is dropped. |
| Progress.ProgressBar.constructor | src/main/kotlin/util/ProgressBar.kt:3-13 | A new bar holds its settings, has count and total 0, is not started and has no messages. |
| Progress.ProgressBar.Start | src/main/kotlin/util/ProgressBar.kt:15-24 | The total is set, the count is reset, the bar is started, and messages are cleared when they are on. The window bound is kept. |
| Progress.ProgressBar.Step | src/main/kotlin/util/ProgressBar.kt:26-39 | Before `start` nothing changes. Afterwards the count grows by exactly the step, and a non-null message enters the window when messages are on. The total and the started flag stay, and so does the window bound. |
| Progress.ProgressBar.Line | src/main/kotlin/util/ProgressBar.kt:41-62 | Nothing is drawn before `start`; afterwards a line is always drawn. |
| Prompt.PromptAnswer | src/main/kotlin/util/prompt.kt:15-25 | A missing or blank line gives the default in lower case. Any other line gives its trimmed, lower-cased text, which is never empty. The timeout message is printed exactly when nothing was read and a message was given. |
| Prompt.TrimmedBlank | src/main/kotlin/util/prompt.kt:15-18 | A line is blank after trimming exactly when it was blank before. |
| Prompt.LowerIdempotent | src/main/kotlin/util/prompt.kt:24 | Lower-casing twice is lower-casing once. |
| Prompt.AnswerIsStable | src/main/kotlin/util/prompt.kt:15-25 | Feeding a normalised answer back to the prompt gives the same answer. |
| Properties.FirstIndex | src/main/kotlin/util/instance/configsApi/updateServerProperties.kt:22 | The index is the position of the first '=' of the line. |
| Properties.ParseProperties | src/main/kotlin/util/instance/configsApi/updateServerProperties.kt:19-25 | The parsing loop builds exactly the map in which each property line, in turn, sets its trimmed key to its trimmed value. |
| Properties.KnownKeys | src/main/kotlin/util/instance/configsApi/updateServerProperties.kt:19-30 | A key is known exactly when some line declares it: trimmed, the line is non-empty, holds '=', is not a comment, and its trimmed part before the first '=' is the key. |
| Properties.LastDeclarationWins | src/main/kotlin/util/instance/configsApi/updateServerProperties.kt:19-25 | When a key is declared more than once, the last declaration decides its value. |
| Properties.Rewrite | src/main/kotlin/util/instance/configsApi/updateServerProperties.kt:37-44 | The same number of lines comes out. Each line that, trimmed, starts with "key=" and is not a comment becomes "key=value", and every other line is kept. |
| Properties.KnownKeyIsPlain | src/main/kotlin/util/instance/configsApi/updateServerProperties.kt:19-25 | A key the parser finds has no '=' and no line feed, does not start with '#', and has no whitespace at either end. |
| Properties.WrittenLineTargeted | src/main/kotlin/util/instance/configsApi/updateServerProperties.kt:37-44 | The line written for a key is rewritten again by a second update of that key. |
| Properties.WrittenLineDeclares | src/main/kotlin/util/instance/configsApi/updateServerProperties.kt:37-44 | The line written for a key declares that key. |
| Properties.RewriteIdempotent | src/main/kotlin/util/instance/configsApi/updateServerProperties.kt:37-44 | Rewriting twice with the same key and value is the same as rewriting once. |
| Properties.KeyStillKnown | src/main/kotlin/util/instance/configsApi/updateServerProperties.kt:19-46 | A key known before the rewrite is still known after it. |
| Properties.Update | src/main/kotlin/util/instance/configsApi/updateServerProperties.kt:7-49 | False exactly for a missing file or an unknown key, and an exception exactly when the path is not a readable file. The disk changes only on a true result outside the non-internal "resource-pack" case. Then the key was known and the file becomes the rewritten lines joined by "\n" with a final "\n". |
| Properties.UpdateServerProperties | src/main/kotlin/util/instance/configsApi/updateServerProperties.kt:7-49 | The method's disk and result are those of the update function. |
| Properties.UpdateTouchesOnlyProperties | src/main/kotlin/util/instance/configsApi/updateServerProperties.kt:46 | Nothing but `server.properties` changes. |
| Properties.UpdateReadsBack | src/main/kotlin/util/instance/configsApi/updateServerProperties.kt:37-46 | After a write, the file reads back as the old lines with exactly the targeted lines replaced, and the key is still declared. |
| Properties.UpdateOfReadableFile | src/main/kotlin/util/instance/configsApi/updateServerProperties.kt:27-46 | For a readable file that declares the key, outside the non-internal "resource-pack" case, the update writes the rewrite and returns true. |
| Properties.UpdateIdempotent | src/main/kotlin/util/instance/updateServerProperties.kt:6-49 | Updating twice with the same arguments leaves the disk and result of updating once. |
| Properties.SpacedKeyLeftAlone | src/main/kotlin/util/instance/configsApi/updateServerProperties.kt:21-44 | A key declared as "key = value" is known, so the update reports success. Yet no line starts with "key=", so the file is written back unchanged. |
| Properties.SpacedLineDeclares | src/main/kotlin/util/instance/configsApi/updateServerProperties.kt:21-23 | "key = value" declares "key", because the key is trimmed. |
| ResourcePack.ApplyUpdates | src/main/kotlin/util/instance/configsApi/setResourcePack.kt:12-18 | A sequence of property updates fails exactly when it is non-empty and the properties path exists but is not a plain file, and then nothing changes. A missing file means nothing is written. |
| ResourcePack.ApplyTouchesOnlyProperties | src/main/kotlin/util/instance/configsApi/setResourcePack.kt:14-16 | The updates change `server.properties` and nothing else. |
| ResourcePack.WithoutPack | src/main/kotlin/util/instance/setResourcePack.kt:17-19 | The settings kept are a subsequence without "resource-pack". |
| ResourcePack.NonInternalSkipsPack | src/main/kotlin/util/instance/setResourcePack.kt:17-19 | Outside an internal call, a "resource-pack" update never writes, so the disk ends as if it had not been made. |
| ResourcePack.SetResourcePack | src/main/kotlin/util/instance/configsApi/setResourcePack.kt:8-40 | A missing instance gives false and an exception propagates, with nothing changed in either case. An empty pack clears the three settings. A URL whose digest is found writes "resource-pack" and its SHA-1. A URL with no digest, or a non-URL, gives false with nothing changed. Only `server.properties` can change. |
| ResourcePack.LegacySource | src/main/kotlin/util/instance/setResourcePack.kt:23-51 | A URL keeps its address and is hashed remotely. A non-URL must be a plain file: it is hashed locally and announced at `http://0.0.0.0:<port>/<file name>`. |
| ResourcePack.LegacySetResourcePack | src/main/kotlin/util/instance/setResourcePack.kt:10-68 | Without internal updates, "resource-pack" itself is never written. Clearing sets only "require-resource-pack" and the digest, and attaching writes only the digest. A missing instance, an unhashable URL or a missing file gives false with nothing changed. It throws exactly when the instance does not load or the settings fail against `server.properties`. |
| ResourcePack.LegacySettings | src/main/kotlin/util/instance/setResourcePack.kt:15-51 | An empty pack yields the clearing settings. Otherwise the URL and digest are yielded, or nothing when no digest can be had. |
| ResourcePack.StoredReference | src/main/kotlin/util/instance/configsApi/attachResourcePack.kt:17-26 | A URL is stored verbatim, and anything else as an absolute path. |
| ResourcePack.AttachResourcePack | src/main/kotlin/util/instance/configsApi/attachResourcePack.kt:8-36 | A missing instance throws a `NullPointerException`. A non-URL that is not a file gives false with nothing changed. Otherwise an internal edit stores the reference, a null port keeps the current one, and the reloaded configuration differs only in those two fields. |
| ResourcePack.LegacyAttachResourcePack | src/main/kotlin/util/instance/attachResourcePack.kt:5-35 | A missing instance, or a non-URL that is not a file, gives false. The edit is not internal, so only the port changes (falling back to the current one), although true is returned. |
| Tables.JoinLength | src/main/kotlin/util/Table.kt:31-32 | A joined line is as long as its pieces plus one separator between each pair of neighbours. |
| Tables.SeparatorSpansTotalWidth | src/main/kotlin/util/Table.kt:13-18 | The dashed rule printed by the header and the closing line is exactly `calculateTotalWidth` wide: the column widths plus one space between neighbours, and 0 for no columns. |
| Tables.Cells | src/main/kotlin/util/Table.kt:41-43 | Each cell is its value padded with spaces to its column's width. |
| Tables.RowLine | src/main/kotlin/util/Table.kt:35-45 | A row is printed exactly when it has as many values as there are columns. Otherwise only the error message is printed. |
| Tables.RowLayout | src/main/kotlin/util/Table.kt:41-44 | A row whose values all fit is exactly as wide as the table. Each value starts at its column's offset and is followed by spaces up to the column's end. |
| Tables.RowWidth | src/main/kotlin/util/Table.kt:41-44 | A row whose values all fit is exactly `totalWidth` wide. |
| Tables.CellAtOffset | src/main/kotlin/util/Table.kt:41-44 | Column i's cell sits at the column's offset in the printed row. |
| Tables.Center | src/main/kotlin/util/Table.kt:117-123 | A string at least as wide as the width is kept. Otherwise the result is exactly the width, with the string in the middle and spaces around it; the left margin is the smaller half of the padding. |
| Tables.Render | src/main/kotlin/util/Table.kt:81-85 | Null and a map without a non-null "username" show "N/A". A map shows its username, a list its elements joined by ", ", and any other value its own text. |
| Tables.WrapText | src/main/kotlin/util/Table.kt:97-115 | The loop's lines are exactly the greedy wrap `Wrapped`: one empty line for the empty text, otherwise every piece between single spaces placed in turn, with the last line kept when it is not empty. |
| Tables.GreedyStep | src/main/kotlin/util/Table.kt:103-112 | One pass of the loop body places the next piece as the greedy wrap does, so the loop stays on the wrap's path. |
| Tables.PlaceKeeps | src/main/kotlin/util/Table.kt:103-112 | Placing a piece without spaces keeps the lines packed and adds exactly the piece's characters and words. |
| Tables.WrapFromKeeps | src/main/kotlin/util/Table.kt:103-114 | Placing the remaining pieces and closing the last line ends with packed lines that hold exactly all pieces' characters and non-empty pieces. |
| Tables.WrappedGreedy | src/main/kotlin/util/Table.kt:97-115 | An empty text gives one empty line. The lines hold the text's words in order, none split or merged. Every line starts with a word and no line that could be split is wider than the limit. A line is closed only when the next word would not fit on it. No non-space character is lost or added. The result is empty exactly when the text holds only spaces. |
| Tables.WrappedBlank | src/main/kotlin/util/Table.kt:98-115 | The wrap is empty exactly for a non-empty text made only of spaces. |
| Tables.VerticalEntry | src/main/kotlin/util/Table.kt:80-91 | As written, the entry is exactly the padded key before the first line of the greedy wrap of the rendered value, and every further wrapped line indented by `wrapKeys + 1` spaces. It throws exactly when the wrap is empty, that is for a rendered value that is non-empty but made only of spaces. |
| Tables.EntryLines | src/main/kotlin/util/Table.kt:88-91 | The printed lines are the padded key with the first wrapped line, then the indented remaining lines. |
| Tables.SpacesOnlyValueThrows | src/main/kotlin/util/Table.kt:87-88 | A value of three spaces wraps to no line at all, so `wrapped.first()` throws. |
| Tables.VerticalEntryFixed | src/main/kotlin/util/Table.kt:80-91 | The entry is the same layout of the greedy wrap, with an empty wrap shown as one empty line. Every entry prints at least its key line, and an all-space value prints the key alone. |
| Updates.RemoveLeadingV | src/main/kotlin/util/checkUpdates.kt:37 | A single leading 'v' is dropped, and a tag without one is kept. |
| Updates.CheckUpdates | src/main/kotlin/util/checkUpdates.kt:21-59 | When no check is due or the fetch fails, the cached version is returned, the cache is left alone and no banner is shown. Otherwise the tag without its 'v' is returned and recorded with the time of saving. A banner is shown exactly when not `justChecking`, and it announces a new version exactly when the tag differs from the running version. |
| Updates.RecheckUsesCache | src/main/kotlin/util/checkUpdates.kt:21-58 | After a successful check, a check within the interval of the saving time reports the same version from the cache, whatever a fetch would return. |
| Updates.QuietCheckReportsTheSame | src/main/kotlin/util/checkUpdates.kt:39-53 | `justChecking` changes only the banner, never the reported version or the cache. |
| Updates.OneLeadingVRemoved | src/main/kotlin/util/checkUpdates.kt:37 | Only one 'v' is removed: "vv1.0" reports "v1.0". |
| Versions.Get | src/main/kotlin/util/Network.kt:34-41 | A request answers exactly when the network knows the URL. |
| Versions.GetVersions | src/main/kotlin/util/api/Mojang.kt:18-28 | The manifest is returned exactly when the answer is 200 OK and decodes as a manifest, and it is that manifest. |
| Versions.ResolveTokenCases | src/main/kotlin/util/api/Mojang.kt:33-37 | "latest"/"l" and "snapshot"/"s" in any letter case resolve to the latest release and snapshot. Any other token is used as it is. |
| Versions.FindVersion | src/main/kotlin/util/api/Mojang.kt:39-40 | The position found is that of the first entry with the id, and none means no entry has it. |
| Versions.GetVersion | src/main/kotlin/util/api/Mojang.kt:29-49 | A returned package is the 200 OK body at the URL of the first manifest entry whose id is the resolved token. A token with no such entry throws `VersionNotFoundException`. |
| Versions.CheckMinecraftVersion | src/main/kotlin/util/api/checkMinecraftVersion.kt:6-22 | True exactly for an alias in any letter case, or for a token that `getVersion` completes for. |
| Versions.AliasesNeedNoLookup | src/main/kotlin/util/api/checkMinecraftVersion.kt:7-8 | The aliases are accepted whatever the network answers. |
| Versions.UnknownVersionRejected | src/main/kotlin/util/api/checkMinecraftVersion.kt:10-19 | A token that no manifest entry names is rejected. |
| Versions.GetFabricLoaders | src/main/kotlin/util/api/Fabric.kt:55-62 | The loader list is returned exactly when the answer is a success and decodes as one. |
| Versions.FindLoader | src/main/kotlin/util/api/Fabric.kt:31 | The position found is that of the first loader with the version, and none means no loader has it. |
| Versions.GetFabric | src/main/kotlin/util/api/Fabric.kt:14-54 | A failed loader list throws, and so does an unreachable installer list. A non-success installer answer gives null, and a malformed one throws. A loader or installer that is not found gives null. Otherwise a failed `getVersion` throws, and a completed one gives the URL built from the game version id, the loader version and the installer version. Conversely, a URL is returned only when every step succeeded. |
| Versions.SelectLoaderCases | src/main/kotlin/util/api/Fabric.kt:29-36 | "latest" takes the head of the loader list even when it is not stable. An explicit loader is found exactly when some loader has that version, and it is the one chosen. |
| Versions.InstallerListFailureIsNull | src/main/kotlin/util/api/Fabric.kt:22-26 | A failed installer-list request gives null, not an exception. |
| Versions.FabricNotFoundIsNull | src/main/kotlin/util/api/Fabric.kt:29-46 | An explicit loader version that no listed loader has exactly gives null, and so does "latest" over an empty installer list. |
| Versions.FabricUrlShape | src/main/kotlin/util/api/Fabric.kt:52 | The URL starts with the Fabric meta loader endpoint and ends in "/server/jar". |
| TextFiles.Lines | src/main/kotlin/util/instance/configsApi/updateServerProperties.kt:16 | The lines `readLines` yields hold no line feed, and a non-empty text has at least one. |
| TextFiles.ReadLines | src/main/kotlin/util/instance/configsApi/updateServerProperties.kt:16 | Lines are read exactly when a plain file is stored at the path, and they are the lines of its content. |
| TextFiles.WriteText | src/main/kotlin/util/instance/configsApi/updateServerProperties.kt:46 | A write succeeds exactly when the parent is a directory and the path is not one. Then the file holds the content and nothing else changes. |
| TextFiles.LinesOfContents | src/main/kotlin/util/instance/configsApi/updateServerProperties.kt:16-46 | Lines written with "\n" between them and a final "\n" read back as the same lines, as long as there is at least one and none holds a line feed. |
| TextFiles.NoLinesReadBackBlank | src/main/kotlin/util/instance/configsApi/updateServerProperties.kt:46 | An empty line list is written as one line feed, which reads back as one blank line. |
| Text.TrimEmptyIffBlank | src/main/kotlin/util/prompt.kt:15-18 | A string trims to nothing exactly when it is all whitespace. |
| Text.JoinSplit | src/main/kotlin/util/Table.kt:99 | Joining the pieces of a split with the separator gives back the text. |

## Left out

- Printing: every console message, the translated message texts and the ANSI colours are left out. Only which message (or banner) a path reaches is modelled, where it matters.
- Line endings: only '\n' separates lines. The '\r' and "\r\n" endings that `readLines()` and Python's universal newlines also accept are not modelled.
- Encodings: JSON, UTF-8 and the zip format are abstract. A `cfg.json` or configuration file is a decoded record or marked undecodable, and an archive is a list of entries.
- `main.py` `read_config`: the path of `config.json` in the home folder and the write-back itself are outside the model. `LegacyPy.ReadConfig` returns the document that would be written.
- LegacyPyBackups.BackupInstancePy, LegacyPyBackups.RollbackInstancePy: a `backups` value in `cfg.json` that is not an object (a string or a list) is treated as a type error as soon as the instance loads. Python would fail only at the first use that a string or list cannot serve.
- LegacyPyBackups.RollbackInstancePy: `extractall` is modelled by the same entry-by-entry extraction as the Kotlin rollback. Python's own path sanitising of entry names (dropping "..", absolute prefixes) is not modelled, because the entries the backup writes never contain those.
- LegacyPyBackups.ReplaceWorldPy: `shutil.rmtree` is library code. The order it removes the tree in (`deleteOrder`, each entry before its directory) and the paths the system refuses to remove (`locked`) are parameters. Symbolic links are not modelled.
- `mkdir(exist_ok=True)` in `main.py` is modelled by `FileSystem.CreateDirectories`. The two agree here because the instance folder is checked to be a directory before each call.
- Path segments "." and ".." are not interpreted: a path is a sequence of plain names.
- Archives and `cfg.json` documents stored inside a world folder are not zipped by a backup. Only plain files are walked.
- Randomness: the hex draws of `generateUniqueHex`, `random_hex_number` and the progress-bar glyph are parameters.
- Backups.GenerateUniqueHex: requires that some draw is a free id. When all 256 two-digit ids are taken, a backup that reaches the id loop never ends, and the model does not represent that non-termination. The callers require a free draw only on the paths that reach the loop (`DrawEnds`); paths that stop or throw earlier need none.
- Clocks: the timestamps of backups and update checks are parameters.
- Integer width: Kotlin `Int`/`Long` overflow (in ports, memory sizes, progress counts and epoch milliseconds) is not modelled; the numbers are unbounded.
- Progress.Percent: the source computes `((current.toDouble() / total) * 100).toInt()` in floating point. The model uses the exact floor of current*100/total instead, with the NaN and infinity cases of a zero total written out. The two differ even for small counts, because the `Double` product can fall just below an integer before truncation: 29 of 100 gives 28 in the source and 29 in the model, and 57 of 100 gives 56 and 57.
- Text.IsWhitespace: is Kotlin's `Char.isWhitespace`. `LegacyPy.RewritePy` uses the same set for Python's `str.strip`, which also strips U+0085 (next line). A line whose only difference is a U+0085 around the key is therefore not targeted in the model, though Python targets it.
- Text.Lower: folds only the ASCII letters A to Z. Kotlin `lowercase()` and Python `lower()` fold every Unicode letter; the model leaves non-ASCII letters as they are.
- Progress.ProgressBar.Line: states only when a line is drawn. The drawn text is built from `Percent`, `Filled` and `Bar`, whose contracts state what the bar shows. The cursor movements of the message window are not modelled.
- `prompt`: the reader thread and the timeout are modelled only by their result (the line read, or none).
- Launch: spawning the server process, redirecting its I/O and waiting on it are modelled as the planned command and mode. `ResourcePackServer` (its sockets and coroutine) is modelled only by whether it is running.
- Launch.DownloadServer: the source wraps every failure in a plain `Exception` with a translated message (downloadServer.kt:65-66). The model keeps the underlying cause instead, which changes only the message shown.
- Hashing: SHA-1 is an uninterpreted function parameter, and remote digests come from the network map.
- Listing: the order of `listFiles()` is a parameter.
- LegacyPy.GetInstancePy: the state keeps the decoded `cfg.json` dictionaries beside the disk, and nothing ties each dictionary to a plain file at its path. On a state where a dictionary has no file behind it, `GetInstancePy` still returns the dictionary, where Python would find no file.
- Tables.VerticalEntry, Tables.EntryLines: `wrapKeys` is a `nat`. A negative `wrapKeys` makes `padEnd` and `repeat` throw `IllegalArgumentException` in the source; that case is not modelled. The one caller, `outputInstance.kt`, uses the default of 20.
- TextFiles.ReadLines: reading lines from an archive or a `cfg.json` gives an I/O error, because such files have no text content in the model. The JVM would read their bytes as text.
- Backups.RollbackInstance: the `catch` around deleting the old world cannot be reached in the model, because `File.delete` reports failure by its result and does not throw.
- Backups.RollbackInstance: a safety backup taken in the same second as the chosen backup has the same archive name and overwrites it. The model states this (`ArchivesKeptBut`) rather than excluding it.
- Create.CreateInstance: the prompt after creation and the launch it may trigger (createInstance.kt:84-101) are not modelled.
- Tables: `printRowWrapped` (Table.kt:47-69) is not modelled. Its parts are: the wrap (`WrapText`) and the padding (`Cells`).
- `Lanterna.kt`, `Main.kt`, `Test.kt`, `Upload.kt`, `ResourcePackServer.kt`, `editGlobalConfig.kt`, `Configurable.kt`, the modrinth client, `openInstanceFolder.kt`, `openInDefaultEditor.kt`, `deleteInstance.kt`, `resetWorld.kt`, `cleanUp.kt`, `checkInstance.kt` and `outputInstance.kt` are not part of this model. They are user interface, HTTP clients, reflection, or thin wrappers of a single file operation.
- The Python `table.py` and the modrinth script are not part of this model: the former only prints through `textwrap`, and the latter is an HTTP client.

## Findings

| source | as written | input that shows it | evidently intended | confidence | as-written member | corrected member |
|---|---|---|---|---|---|---|
| src/main/kotlin/util/Table.kt:87-88 | `printVertical` calls `wrapped.first()`, but `wrapText` returns no line for a non-empty value made only of spaces, so `first()` throws `NoSuchElementException` | a value of "   " (three spaces) | the entry is printed with an empty value, as it is for the empty string | not executed | Tables.VerticalEntry, Tables.SpacesOnlyValueThrows | Tables.VerticalEntryFixed |
