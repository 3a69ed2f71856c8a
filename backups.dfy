/** The backup ledger engine (util/instance/backupApi/): creating, listing, removing and
    rolling back world backups of an instance. The ledger is the `backups` map of the
    instance's `cfg.json`; each backup is the archive `backups/<stamp>-world-backup.zip`
    next to the instance's `world` directory. */
module Backups {
  import opened Text
  import opened Configs
  import opened FileSystem
  import opened Archive
  import opened Edit
  import opened I18n

  // ---------------------------------------------------------------------------------------
  // Backup ids

  const HEX_DIGITS := "0123456789abcdef"

  /** `len` characters, each a lowercase hexadecimal digit. */
  predicate IsHex(s: string, len: nat) {
    |s| == len && forall i :: 0 <= i < |s| ==> s[i] in HEX_DIGITS
  }

  /** `generateUniqueHex(existing, size)`: `draws` are the ids the random generator produces
      in turn (each `size` pairs of hexadecimal digits); the do-while loop keeps drawing until
      it meets one that is not taken. */
  method GenerateUniqueHex(existing: set<string>, size: nat, draws: seq<string>) returns (hex: string, tries: nat)
    requires forall i :: 0 <= i < |draws| ==> IsHex(draws[i], 2 * size)
    requires exists i :: 0 <= i < |draws| && draws[i] !in existing
    ensures 1 <= tries <= |draws| && hex == draws[tries - 1]
    ensures hex !in existing && IsHex(hex, 2 * size)
    ensures forall i :: 0 <= i < tries - 1 ==> draws[i] in existing
  {
    hex := draws[0];
    tries := 1;
    while hex in existing
      invariant 1 <= tries <= |draws| && hex == draws[tries - 1]
      invariant forall i :: 0 <= i < tries - 1 ==> draws[i] in existing
      invariant exists i :: tries - 1 <= i < |draws| && draws[i] !in existing
      decreases |draws| - tries
    {
      hex := draws[tries];
      tries := tries + 1;
    }
  }

  function HexValue(c: char): int {
    if '0' <= c <= '9' then c as int - '0' as int
    else if 'a' <= c <= 'f' then c as int - 'a' as int + 10
    else -1
  }

  lemma HexDigitValues()
    ensures |HEX_DIGITS| == 16
    ensures forall a :: 0 <= a < 16 ==> HexValue(HEX_DIGITS[a]) == a
  {
  }

  /** The `i`-th two-digit id. */
  function HexPair(i: nat): (s: string)
    requires i < 256
    ensures IsHex(s, 2)
  {
    [HEX_DIGITS[i / 16], HEX_DIGITS[i % 16]]
  }

  lemma HexPairsDistinct(i: nat, j: nat)
    requires i < 256 && j < 256 && i != j
    ensures HexPair(i) != HexPair(j)
  {
    HexDigitValues();
    assert HexValue(HexPair(i)[0]) == i / 16 && HexValue(HexPair(i)[1]) == i % 16;
    assert HexValue(HexPair(j)[0]) == j / 16 && HexValue(HexPair(j)[1]) == j % 16;
  }

  function AllHexPairs(): (r: seq<string>)
    ensures |r| == 256 && forall i :: 0 <= i < 256 ==> r[i] == HexPair(i)
  {
    seq(256, i requires 0 <= i < 256 => HexPair(i))
  }

  function HexPairSet(): set<string> {
    set i | 0 <= i < 256 :: HexPair(i)
  }

  /** There are 256 two-digit ids. */
  lemma HexPairCount()
    ensures |HexPairSet()| == 256
  {
    var all := AllHexPairs();
    var s := HexPairSet();
    forall i, j | 0 <= i < j < |all| ensures all[i] != all[j] {
      HexPairsDistinct(i, j);
    }
    forall x ensures x in all <==> x in s {
      if x in s {
        var i :| 0 <= i < 256 && x == HexPair(i);
        assert all[i] == x;
      }
    }
    DistinctCount(all, s);
  }

  lemma SubsetCard<T>(a: set<T>, b: set<T>)
    requires a <= b
    ensures |a| <= |b|
  {
    assert b == a + (b - a);
  }

  /** With fewer than 256 backups a fresh one-byte id exists, so the retry loop of
      `generateUniqueHex` can end. */
  lemma FreshIdAvailable(existing: set<string>)
    requires |existing| < 256
    ensures exists h :: IsHex(h, 2) && h !in existing
  {
    var s := HexPairSet();
    HexPairCount();
    SubsetCard(s * existing, existing);
    assert s == (s - existing) + (s * existing);
    assert (s - existing) * (s * existing) == {};
    assert |s - existing| > 0;
    var h :| h in s - existing;
    var i :| 0 <= i < 256 && h == HexPair(i);
  }

  // ---------------------------------------------------------------------------------------
  // Archive names

  /** `timestamp.replace(".", "").replace(":", "")`. */
  function Strip(s: string): string {
    RemoveChar(RemoveChar(s, '.'), ':')
  }

  /** `Strip(timestamp) + "-world-backup"`, the file name (before `.zip`) of a backup. */
  function ArchiveBase(timestamp: string): string {
    Strip(timestamp) + "-world-backup"
  }

  lemma StripAppend(a: string, b: string)
    ensures Strip(a + b) == Strip(a) + Strip(b)
  {
    RemoveCharAppend(a, b, '.');
    RemoveCharAppend(RemoveChar(a, '.'), RemoveChar(b, '.'), ':');
  }

  /** Stripping `s[i..]` keeps its separator-free head `s[i..j]`. */
  lemma StripPlainHead(s: string, i: nat, j: nat)
    requires i <= j <= |s|
    requires '.' !in s[i..j] && ':' !in s[i..j]
    ensures Strip(s[i..]) == s[i..j] + Strip(s[j..])
  {
    assert s[i..] == s[i..j] + s[j..];
    StripAppend(s[i..j], s[j..]);
    RemoveCharAbsent(s[i..j], '.');
    RemoveCharAbsent(s[i..j], ':');
  }

  /** Stripping `s[i..]` drops a leading separator. */
  lemma StripSeparatorHead(s: string, i: nat)
    requires i < |s| && (s[i] == '.' || s[i] == ':')
    ensures Strip(s[i..]) == Strip(s[i + 1..])
  {
    assert s[i..] == [s[i]] + s[i + 1..];
    StripAppend([s[i]], s[i + 1..]);
  }

  predicate IsDigits(s: string) {
    forall k :: 0 <= k < |s| ==> '0' <= s[k] <= '9'
  }

  /** The shape of `yyyy.MM.dd-HH:mm:ss`, the pattern backups are stamped with. */
  predicate FormattedTimestamp(ts: string) {
    && |ts| == 19
    && IsDigits(ts[..4]) && ts[4] == '.' && IsDigits(ts[5..7]) && ts[7] == '.'
    && IsDigits(ts[8..10]) && ts[10] == '-' && IsDigits(ts[11..13]) && ts[13] == ':'
    && IsDigits(ts[14..16]) && ts[16] == ':' && IsDigits(ts[17..])
  }

  /** The timestamp without its separators, `yyyyMMdd-HHmmss`. */
  function Compact(ts: string): string
    requires |ts| == 19
  {
    ts[..4] + ts[5..7] + ts[8..13] + ts[14..16] + ts[17..]
  }

  lemma DigitsPlain(s: string)
    requires IsDigits(s)
    ensures '.' !in s && ':' !in s
  {
  }

  /** For a formatted timestamp the archive base is `yyyyMMdd-HHmmss-world-backup`. */
  lemma ArchiveBaseOfFormatted(ts: string)
    requires FormattedTimestamp(ts)
    ensures ArchiveBase(ts) == Compact(ts) + "-world-backup"
  {
    StripTime(ts);
    StripDate(ts);
    DigitsPlain(ts[..4]);
    assert ts[0..4] == ts[..4];
    StripPlainHead(ts, 0, 4);
    assert ts[0..] == ts;
  }

  /** `-HH:mm:ss` loses its colons. */
  lemma StripTime(ts: string)
    requires FormattedTimestamp(ts)
    ensures Strip(ts[13..]) == ts[14..16] + ts[17..]
  {
    DigitsPlain(ts[17..]);
    assert ts[17..19] == ts[17..];
    StripPlainHead(ts, 17, 19);
    assert ts[19..] == [];
    StripSeparatorHead(ts, 16);
    DigitsPlain(ts[14..16]);
    StripPlainHead(ts, 14, 16);
    StripSeparatorHead(ts, 13);
  }

  /** `.MM.dd-HH` loses its dots. */
  lemma StripDate(ts: string)
    requires FormattedTimestamp(ts)
    ensures Strip(ts[4..]) == ts[5..7] + ts[8..13] + Strip(ts[13..])
  {
    DigitsPlain(ts[8..10]);
    DigitsPlain(ts[11..13]);
    assert ts[8..13] == ts[8..10] + [ts[10]] + ts[11..13];
    StripPlainHead(ts, 8, 13);
    StripSeparatorHead(ts, 7);
    DigitsPlain(ts[5..7]);
    StripPlainHead(ts, 5, 7);
    StripSeparatorHead(ts, 4);
  }

  /** Backups stamped at different seconds go to different archives. */
  lemma ArchiveNamesDistinct(t1: string, t2: string)
    requires FormattedTimestamp(t1) && FormattedTimestamp(t2) && t1 != t2
    ensures ArchiveBase(t1) != ArchiveBase(t2)
  {
    ArchiveBaseOfFormatted(t1);
    ArchiveBaseOfFormatted(t2);
    var i :| 0 <= i < 19 && t1[i] != t2[i];
    var j := if i < 4 then i else if i < 7 then i - 1 else if i < 13 then i - 2 else if i < 16 then i - 3 else i - 4;
    assert Compact(t1)[j] == t1[i] && Compact(t2)[j] == t2[i];
    assert ArchiveBase(t1)[j] != ArchiveBase(t2)[j];
  }

  /** `instancePath/backups/<base>.zip`, the archive of a backup stamped `timestamp`. */
  function ArchivePath(cfg: Config, name: string, timestamp: string): Path {
    BackupsDir(cfg, name) + [ArchiveBase(timestamp) + ".zip"]
  }

  /** `zipWithProgress` writes `<destination>.zip`: the very file the ledger operations look for. */
  lemma ZipTargetIsArchivePath(cfg: Config, name: string, timestamp: string)
    ensures ZipTarget(BackupsDir(cfg, name) + [ArchiveBase(timestamp)]) == ArchivePath(cfg, name, timestamp)
  {
  }

  /** The ledger of the instance, or the empty map when its `cfg.json` does not load. */
  function Ledger(d: Disk, cfg: Config, name: string): map<string, Backup> {
    match GetInstance(d, cfg, name)
    case Returned(Some(c)) => c.backups
    case _ => map[]
  }

  // ---------------------------------------------------------------------------------------
  // What the steps of a backup leave alone

  /** A backup writes below `backups` and to `cfg.json`, both beside `world`. */
  lemma InstancePathsApart(cfg: Config, name: string)
    ensures forall k :: 0 <= k <= |BackupsDir(cfg, name)| ==> !IsUnder(BackupsDir(cfg, name)[..k], WorldDir(cfg, name))
    ensures forall k :: 0 <= k <= |InstanceDir(cfg, name)| ==> !IsUnder(InstanceDir(cfg, name)[..k], WorldDir(cfg, name))
    ensures !IsUnder(CfgJsonPath(cfg, name), WorldDir(cfg, name))
    ensures forall t :: !IsUnder(BackupsDir(cfg, name) + [t], WorldDir(cfg, name))
    ensures forall t :: BackupsDir(cfg, name) + [t] != CfgJsonPath(cfg, name)
  {
    var i := InstanceDir(cfg, name);
    SiblingPrefixes(i, "backups", "world");
    SiblingPrefixes(i, "cfg.json", "world");
    assert CfgJsonPath(cfg, name) == (i + ["cfg.json"])[..|i| + 1];
    forall t ensures !IsUnder(BackupsDir(cfg, name) + [t], WorldDir(cfg, name)) {
      assert (BackupsDir(cfg, name) + [t])[|i|] == "backups";
    }
  }

  /** Writing an archive into `backups` leaves the world, `cfg.json` and every other archive
      alone. */
  lemma WriteArchiveElsewhere(d: Disk, cfg: Config, name: string, t: Path, es: seq<ZipEntry>)
    requires exists b :: t == BackupsDir(cfg, name) + [b]
    ensures UnchangedUnder(d, WriteArchive(d, t, es), WorldDir(cfg, name))
    ensures GetInstance(WriteArchive(d, t, es), cfg, name) == GetInstance(d, cfg, name)
  {
    InstancePathsApart(cfg, name);
  }

  /** Every archive other than the one at `t` is still there, unchanged. */
  predicate ArchivesKeptBut(d: Disk, r: Disk, t: Path) {
    forall q :: q in d.archives && q != t ==> q in r.archives && r.archives[q] == d.archives[q]
  }

  /** `zipWithProgress` changes nothing but its target archive. */
  lemma ZipWritesOnlyTarget(d: Disk, src: Path, dest: Path, walkOrder: seq<Path>)
    requires |dest| > 0 && Enumerates(walkOrder, Walk(d, src))
    ensures var r := Zip(d, src, dest, walkOrder).0;
      r == d || exists es :: r == WriteArchive(d, ZipTarget(dest), es)
  {
  }

  /** The regular files of a walk, and their entries, depend only on what lies below the
      walk's start. */
  lemma {:induction false} RegularFilesUnchanged(d: Disk, r: Disk, src: Path, order: seq<Path>)
    requires UnchangedUnder(d, r, src) && forall q :: q in order ==> IsUnder(q, src)
    ensures RegularFiles(d, order) == RegularFiles(r, order)
    ensures forall q :: q in RegularFiles(d, order) ==> d.tree[q] == r.tree[q]
  {
    if order != [] {
      var last := order[|order| - 1];
      assert last in order;
      assert At(d, last) == At(r, last);
      RegularFilesUnchanged(d, r, src, order[..|order| - 1]);
    }
  }

  lemma EntriesUnchanged(d: Disk, r: Disk, src: Path, order: seq<Path>)
    requires UnchangedUnder(d, r, src) && Enumerates(order, Walk(d, src))
    ensures forall q :: q in RegularFiles(d, order) ==> IsPlainFile(d, q) && IsUnder(q, src)
    ensures EntriesFor(d, src, RegularFiles(d, order)) == EntriesFor(r, src, RegularFiles(r, order))
  {
    RegularFilesUnchanged(d, r, src, order);
    var files := RegularFiles(d, order);
    forall i | 0 <= i < |files| ensures EntryFor(d, src, files[i]) == EntryFor(r, src, files[i]) {
      assert files[i] in files;
    }
  }

  /** Whether the step before zipping created the `backups` directory, and what it left. */
  lemma BackupsDirCreated(d: Disk, cfg: Config, name: string, walkOrder: seq<Path>)
    requires Enumerates(walkOrder, Walk(d, WorldDir(cfg, name)))
    requires CreateDirectories(d, BackupsDir(cfg, name)).Returned?
    ensures var d2 := CreateDirectories(d, BackupsDir(cfg, name)).value;
      && UnchangedUnder(d, d2, WorldDir(cfg, name))
      && Enumerates(walkOrder, Walk(d2, WorldDir(cfg, name)))
      && GetInstance(d2, cfg, name) == GetInstance(d, cfg, name)
  {
    InstancePathsApart(cfg, name);
    CreateDirectoriesElsewhere(d, BackupsDir(cfg, name), WorldDir(cfg, name));
    WalkUnchanged(d, CreateDirectories(d, BackupsDir(cfg, name)).value, WorldDir(cfg, name));
    BackupsDirKeepsConfig(d, cfg, name);
  }

  /** Creating `backups` leaves the instance's `cfg.json` alone. */
  lemma BackupsDirKeepsConfig(d: Disk, cfg: Config, name: string)
    requires CreateDirectories(d, BackupsDir(cfg, name)).Returned?
    ensures GetInstance(CreateDirectories(d, BackupsDir(cfg, name)).value, cfg, name) == GetInstance(d, cfg, name)
  {
    var b := BackupsDir(cfg, name);
    var c := CfgJsonPath(cfg, name);
    forall k | 0 <= k <= |b| ensures b[..k] != c {
      if k == |b| {
        assert b[|b| - 1] != c[|c| - 1];
      }
    }
    CreateDirectoriesChangedOnly(d, b);
    var d2 := CreateDirectories(d, b).value;
    assert At(d2, c) == At(d, c);
  }

  /** Zipping the world into `backups` writes nothing but the new archive: the world and the
      instance's `cfg.json` are left alone. */
  lemma ArchiveWritten(d2: Disk, cfg: Config, name: string, timestamp: string, walkOrder: seq<Path>)
    requires Enumerates(walkOrder, Walk(d2, WorldDir(cfg, name)))
    ensures var d3 := Zip(d2, WorldDir(cfg, name), BackupsDir(cfg, name) + [ArchiveBase(timestamp)], walkOrder).0;
      && UnchangedUnder(d2, d3, WorldDir(cfg, name))
      && GetInstance(d3, cfg, name) == GetInstance(d2, cfg, name)
      && ArchivesKeptBut(d2, d3, ArchivePath(cfg, name, timestamp))
      && BackupFrame(d2, cfg, name, timestamp, d3, false)
  {
    var dest := BackupsDir(cfg, name) + [ArchiveBase(timestamp)];
    ZipWritesOnlyTarget(d2, WorldDir(cfg, name), dest, walkOrder);
    ZipTargetIsArchivePath(cfg, name, timestamp);
    var d3 := Zip(d2, WorldDir(cfg, name), dest, walkOrder).0;
    if d3 != d2 {
      var es :| d3 == WriteArchive(d2, ZipTarget(dest), es);
      WriteArchiveElsewhere(d2, cfg, name, ZipTarget(dest), es);
      ArchiveInFrame(d2, cfg, name, timestamp, es);
    }
  }

  /** Writing the new archive stays within the frame of a backup that has not succeeded. */
  lemma ArchiveInFrame(d2: Disk, cfg: Config, name: string, timestamp: string, es: seq<ZipEntry>)
    ensures BackupFrame(d2, cfg, name, timestamp, WriteArchive(d2, ArchivePath(cfg, name, timestamp), es), false)
  {
    WriteArchiveChangedOnly(d2, ArchivePath(cfg, name, timestamp), es, BackupsDir(cfg, name));
    InstancePathsApart(cfg, name);
  }

  /** Recording the backup after the archive is written stays within the frame of a
      successful backup. */
  lemma RecordedInFrame(d2: Disk, d3: Disk, r: Disk, cfg: Config, name: string, timestamp: string)
    requires BackupFrame(d2, cfg, name, timestamp, d3, false)
    requires ChangedOnly(d3, r, {CfgJsonPath(cfg, name)}, InstanceDir(cfg, name))
    ensures BackupFrame(d2, cfg, name, timestamp, r, true)
  {
    ChangedOnlyChain(d2, d3, r, {CfgJsonPath(cfg, name), ArchivePath(cfg, name, timestamp)}, BackupsDir(cfg, name),
                     {CfgJsonPath(cfg, name)}, InstanceDir(cfg, name),
                     {CfgJsonPath(cfg, name), ArchivePath(cfg, name, timestamp)}, BackupsDir(cfg, name));
  }

  /** Recording the backup in `cfg.json` leaves the world alone and stores the new ledger;
      the configuration is otherwise the one read, and besides `cfg.json` at most the
      instance directory is created. */
  lemma LedgerWritten(d3: Disk, cfg: Config, name: string, c: InstanceConfig, ledger: map<string, Backup>)
    requires GetInstance(d3, cfg, name) == Returned(Some(c))
    requires EditInstance(d3, cfg, name, BackupsEdit(ledger)).Returned?
    ensures var r := EditInstance(d3, cfg, name, BackupsEdit(ledger)).value;
      && UnchangedUnder(d3, r, WorldDir(cfg, name))
      && Ledger(r, cfg, name) == ledger
      && r.archives == d3.archives
      && GetInstance(r, cfg, name) == Returned(Some(c.(backups := ledger)))
      && ChangedOnly(d3, r, {CfgJsonPath(cfg, name)}, InstanceDir(cfg, name))
  {
    InstancePathsApart(cfg, name);
    CreateDirectoriesElsewhere(d3, InstanceDir(cfg, name), WorldDir(cfg, name));
    ConfigWrittenOnly(d3, cfg, name, Patched(c, BackupsEdit(ledger)));
    BackupsEditPatched(c, ledger);
  }

  /** `editInstance(name, backups = b)` replaces the ledger and nothing else. */
  lemma BackupsEditPatched(c: InstanceConfig, b: map<string, Backup>)
    ensures Patched(c, BackupsEdit(b)) == c.(backups := b)
  {
    PatchedFieldwise(c, BackupsEdit(b));
  }

  /** Rewriting `cfg.json` after `createDirectories(instance)` changes only `cfg.json` and the
      missing directories up to the instance. */
  lemma ConfigWrittenOnly(d3: Disk, cfg: Config, name: string, c: InstanceConfig)
    requires CreateDirectories(d3, InstanceDir(cfg, name)).Returned?
    ensures ChangedOnly(d3, WriteInstanceConfig(CreateDirectories(d3, InstanceDir(cfg, name)).value, cfg, name, c),
                        {CfgJsonPath(cfg, name)}, InstanceDir(cfg, name))
  {
    var d4 := CreateDirectories(d3, InstanceDir(cfg, name)).value;
    var r := WriteInstanceConfig(d4, cfg, name, c);
    CreateDirectoriesChangedOnly(d3, InstanceDir(cfg, name));
    forall q | q != CfgJsonPath(cfg, name) ensures At(r, q) == At(d4, q) {
    }
    ChangedOnlyChain(d3, d4, r, {}, InstanceDir(cfg, name), {CfgJsonPath(cfg, name)}, InstanceDir(cfg, name),
                     {CfgJsonPath(cfg, name)}, InstanceDir(cfg, name));
  }

  // ---------------------------------------------------------------------------------------
  // backupInstance

  /** Besides the new archive, a backup changes on disk at most the missing directories up
      to `backups`, and `cfg.json` only when it succeeds. */
  ghost predicate BackupFrame(d: Disk, cfg: Config, name: string, timestamp: string, r: Disk, succeeded: bool) {
    && ChangedOnly(d, r, {CfgJsonPath(cfg, name), ArchivePath(cfg, name, timestamp)}, BackupsDir(cfg, name))
    && (!succeeded ==> At(r, CfgJsonPath(cfg, name)) == At(d, CfgJsonPath(cfg, name)))
  }

  /** Creating `backups` first keeps a backup within its frame. */
  lemma BackupFrameChain(d: Disk, d2: Disk, r: Disk, cfg: Config, name: string, timestamp: string, succeeded: bool)
    requires ChangedOnly(d, d2, {}, BackupsDir(cfg, name)) && Stored(d, CfgJsonPath(cfg, name))
    requires BackupFrame(d2, cfg, name, timestamp, r, succeeded)
    ensures BackupFrame(d, cfg, name, timestamp, r, succeeded)
  {
    var written := {CfgJsonPath(cfg, name), ArchivePath(cfg, name, timestamp)};
    ChangedOnlyChain(d, d2, r, {}, BackupsDir(cfg, name), written, BackupsDir(cfg, name), written, BackupsDir(cfg, name));
    assert At(d2, CfgJsonPath(cfg, name)) == At(d, CfgJsonPath(cfg, name));
  }

  /** The instance's `cfg.json` loads and its directory exists. */
  predicate InstanceReady(d: Disk, cfg: Config, name: string) {
    GetInstanceOrThrow(d, cfg, name).Returned? && IsDirectory(d, InstanceDir(cfg, name))
  }

  /** `backupInstance` gets as far as drawing an id: the instance loads, its directory
      exists, `backups` can be created and `world` is a directory. */
  predicate ReachesDraw(d: Disk, cfg: Config, name: string) {
    && InstanceReady(d, cfg, name)
    && CreateDirectories(d, BackupsDir(cfg, name)).Returned?
    && IsDirectory(CreateDirectories(d, BackupsDir(cfg, name)).value, WorldDir(cfg, name))
  }

  /** Whenever `backupInstance` draws at all, one of the ids the generator would draw is
      free. With every id taken its do-while loop never ends; on the paths that return
      before the draw nothing is asked of `draws`. */
  predicate DrawEnds(d: Disk, cfg: Config, name: string, draws: seq<string>) {
    ReachesDraw(d, cfg, name) ==> exists i :: 0 <= i < |draws| && draws[i] !in Ledger(d, cfg, name)
  }

  /** What `backupInstance` promises about the disk `r` it leaves, its `result` and the id it
      drew. */
  ghost predicate BackupOutcome(d: Disk, cfg: Config, name: string, desc: string, timestamp: string,
                                walkOrder: seq<Path>, r: Disk, result: Outcome<bool>, id: string)
    requires Enumerates(walkOrder, Walk(d, WorldDir(cfg, name)))
  {
    // a missing or unreadable instance escapes as an exception (`getInstance(name)!!`)
    && (GetInstanceOrThrow(d, cfg, name).Threw? ==>
        r == d && result == Threw(GetInstanceOrThrow(d, cfg, name).error))
    && (GetInstanceOrThrow(d, cfg, name).Returned? && !IsDirectory(d, InstanceDir(cfg, name)) ==>
        r == d && result == Returned(false))
    && (InstanceReady(d, cfg, name) && CreateDirectories(d, BackupsDir(cfg, name)).Threw? ==>
        r == d && result == Threw(CreateDirectories(d, BackupsDir(cfg, name)).error))
    // a missing world: false, with the backups directory already created
    && (InstanceReady(d, cfg, name) && CreateDirectories(d, BackupsDir(cfg, name)).Returned?
        && !IsDirectory(CreateDirectories(d, BackupsDir(cfg, name)).value, WorldDir(cfg, name)) ==>
        r == CreateDirectories(d, BackupsDir(cfg, name)).value && result == Returned(false))
    // past that point every exception becomes false
    && (InstanceReady(d, cfg, name) && CreateDirectories(d, BackupsDir(cfg, name)).Returned? ==>
        result.Returned?)
    // the world itself is never touched
    && UnchangedUnder(d, r, WorldDir(cfg, name))
    // the only archive it may write is the new one
    && ArchivesKeptBut(d, r, ArchivePath(cfg, name, timestamp))
    // nothing else changes but `cfg.json`, on success, and the directories up to `backups`
    && BackupFrame(d, cfg, name, timestamp, r, result == Returned(true))
    // the ledger changes only on success, and then by exactly one fresh entry
    && (result != Returned(true) ==> Ledger(r, cfg, name) == Ledger(d, cfg, name))
    && (result == Returned(true) ==>
        && GetInstance(r, cfg, name)
           == Returned(Some(GetInstanceOrThrow(d, cfg, name).value.(backups := Ledger(r, cfg, name))))
        && IsHex(id, 2) && id !in Ledger(d, cfg, name)
        && Ledger(r, cfg, name) == Ledger(d, cfg, name)[id := Backup(GetInstanceOrThrow(d, cfg, name).value.version.minecraft, timestamp, desc)]
        && ArchivePath(cfg, name, timestamp) in r.archives
        && r.archives[ArchivePath(cfg, name, timestamp)]
           == EntriesFor(d, WorldDir(cfg, name), RegularFiles(d, walkOrder))
        && RegularFiles(d, walkOrder) != [])
  }

  /** `backupInstance(name, desc)`. `timestamp` is the formatted time of the call, `draws`
      the random ids `generateUniqueHex` would draw, `walkOrder` the order `Files.walk`
      visits the world in. Returns the new disk, the outcome and the id it drew. */
  method BackupInstance(d: Disk, cfg: Config, name: string, desc: string, timestamp: string,
                        draws: seq<string>, walkOrder: seq<Path>)
    returns (r: Disk, result: Outcome<bool>, id: string)
    requires Enumerates(walkOrder, Walk(d, WorldDir(cfg, name)))
    requires forall i :: 0 <= i < |draws| ==> IsHex(draws[i], 2)
    requires DrawEnds(d, cfg, name, draws)
    ensures BackupOutcome(d, cfg, name, desc, timestamp, walkOrder, r, result, id)
  {
    id := "";
    var inst := GetInstanceOrThrow(d, cfg, name);
    if inst.Threw? {
      return d, Threw(inst.error), id;
    }
    if !IsDirectory(d, InstanceDir(cfg, name)) {
      return d, Returned(false), id;
    }
    var made := CreateDirectories(d, BackupsDir(cfg, name));
    if made.Threw? {
      return d, Threw(made.error), id;
    }
    var d2 := made.value;
    BackupsDirCreated(d, cfg, name, walkOrder);
    CreateDirectoriesChangedOnly(d, BackupsDir(cfg, name));
    if !IsDirectory(d2, WorldDir(cfg, name)) {
      return d2, Returned(false), id;
    }
    r, result, id := ArchiveWorld(d2, cfg, name, inst.value, desc, timestamp, draws, walkOrder);
    UnchangedUnderTransitive(d, d2, r, WorldDir(cfg, name));
    BackupFrameChain(d, d2, r, cfg, name, timestamp, result == Returned(true));
    EntriesUnchanged(d, d2, WorldDir(cfg, name), walkOrder);
  }

  /** The `try` block of `backupInstance`, once `backups` exists and `world` is a directory:
      draw a fresh id, zip the world to `backups/<base>.zip`, then record the backup in the
      ledger. Any exception on the way is reported as `false`. */
  method ArchiveWorld(d2: Disk, cfg: Config, name: string, c: InstanceConfig, desc: string, timestamp: string,
                      draws: seq<string>, walkOrder: seq<Path>)
    returns (r: Disk, result: Outcome<bool>, id: string)
    requires Enumerates(walkOrder, Walk(d2, WorldDir(cfg, name)))
    requires GetInstance(d2, cfg, name) == Returned(Some(c))
    requires forall i :: 0 <= i < |draws| ==> IsHex(draws[i], 2)
    requires exists i :: 0 <= i < |draws| && draws[i] !in c.backups
    ensures result.Returned?
    ensures UnchangedUnder(d2, r, WorldDir(cfg, name))
    ensures ArchivesKeptBut(d2, r, ArchivePath(cfg, name, timestamp))
    ensures BackupFrame(d2, cfg, name, timestamp, r, result == Returned(true))
    ensures result != Returned(true) ==> Ledger(r, cfg, name) == c.backups
    ensures result == Returned(true) ==>
      && GetInstance(r, cfg, name) == Returned(Some(c.(backups := Ledger(r, cfg, name))))
      && IsHex(id, 2) && id !in c.backups
      && Ledger(r, cfg, name) == c.backups[id := Backup(c.version.minecraft, timestamp, desc)]
      && ArchivePath(cfg, name, timestamp) in r.archives
      && r.archives[ArchivePath(cfg, name, timestamp)]
         == EntriesFor(d2, WorldDir(cfg, name), RegularFiles(d2, walkOrder))
      && RegularFiles(d2, walkOrder) != []
  {
    var tries;
    id, tries := GenerateUniqueHex(c.backups.Keys, 1, draws);
    var dest := BackupsDir(cfg, name) + [ArchiveBase(timestamp)];
    var d3, zipped := ZipWithProgress(d2, WorldDir(cfg, name), dest, walkOrder);
    ArchiveWritten(d2, cfg, name, timestamp, walkOrder);
    ZipTargetIsArchivePath(cfg, name, timestamp);
    if zipped != Returned(true) {
      return d3, Returned(false), id;
    }
    var ledger := c.backups[id := Backup(c.version.minecraft, timestamp, desc)];
    var edited := EditInstance(d3, cfg, name, BackupsEdit(ledger));
    if edited.Threw? {
      return d3, Returned(false), id;
    }
    LedgerWritten(d3, cfg, name, c, ledger);
    UnchangedUnderTransitive(d2, d3, edited.value, WorldDir(cfg, name));
    RecordedInFrame(d2, d3, edited.value, cfg, name, timestamp);
    return edited.value, Returned(true), id;
  }

  // ---------------------------------------------------------------------------------------
  // listBackups

  /** `order` lists every id of `ledger` once: the map's iteration order. */
  predicate IdOrder(order: seq<string>, ledger: map<string, Backup>) {
    && (forall i :: 0 <= i < |order| ==> order[i] in ledger)
    && (forall id :: id in ledger ==> id in order)
    && (forall i, j :: 0 <= i < j < |order| ==> order[i] != order[j])
  }

  /** `backupFile.exists()` for the archive of ledger entry `b`. */
  predicate ArchivePresent(d: Disk, cfg: Config, name: string, b: Backup) {
    Exists(d, ArchivePath(cfg, name, b.dateTime))
  }

  /** The ledger without the entries whose archive is gone. */
  function LedgerPruned(d: Disk, cfg: Config, name: string, ledger: map<string, Backup>): map<string, Backup> {
    map id | id in ledger && ArchivePresent(d, cfg, name, ledger[id]) :: ledger[id]
  }

  /** Every entry of the ledger has its archive on disk. */
  predicate Consistent(d: Disk, cfg: Config, name: string) {
    forall id :: id in Ledger(d, cfg, name) ==> ArchivePresent(d, cfg, name, Ledger(d, cfg, name)[id])
  }

  /** One table row: id, date and time, game version, description. */
  function Row(id: string, b: Backup): seq<string> {
    [id, b.dateTime, b.version, b.desc]
  }

  /** The rows printed for the ids of `order`: entries whose archive is gone are skipped. */
  function Rows(d: Disk, cfg: Config, name: string, ledger: map<string, Backup>, order: seq<string>): seq<seq<string>>
    requires forall i :: 0 <= i < |order| ==> order[i] in ledger
  {
    if order == [] then []
    else
      var id := order[|order| - 1];
      Rows(d, cfg, name, ledger, order[..|order| - 1])
        + (if ArchivePresent(d, cfg, name, ledger[id]) then [Row(id, ledger[id])] else [])
  }

  /** The ids of `order` whose archive is gone, in order. */
  function Missing(d: Disk, cfg: Config, name: string, ledger: map<string, Backup>, order: seq<string>): seq<string>
    requires forall i :: 0 <= i < |order| ==> order[i] in ledger
  {
    if order == [] then []
    else
      var id := order[|order| - 1];
      Missing(d, cfg, name, ledger, order[..|order| - 1])
        + (if ArchivePresent(d, cfg, name, ledger[id]) then [] else [id])
  }

  /** The entry `id` of `ledger` has its archive on disk. */
  predicate Listed(d: Disk, cfg: Config, name: string, ledger: map<string, Backup>, id: string) {
    id in ledger && ArchivePresent(d, cfg, name, ledger[id])
  }

  /** The missing ids are exactly the ids of `order` whose archive is gone. */
  lemma {:induction false} MissingMembers(d: Disk, cfg: Config, name: string, ledger: map<string, Backup>, order: seq<string>)
    requires forall i :: 0 <= i < |order| ==> order[i] in ledger
    ensures forall id :: id in Missing(d, cfg, name, ledger, order) <==> id in order && !Listed(d, cfg, name, ledger, id)
  {
    if order != [] {
      var init, last := order[..|order| - 1], order[|order| - 1];
      MissingMembers(d, cfg, name, ledger, init);
      assert order == init + [last];
    }
  }

  /** Each row shows an entry of `order` whose archive is there, and every such entry has its
      row. */
  lemma {:induction false} RowsMembers(d: Disk, cfg: Config, name: string, ledger: map<string, Backup>, order: seq<string>)
    requires forall i :: 0 <= i < |order| ==> order[i] in ledger
    ensures forall row :: row in Rows(d, cfg, name, ledger, order) ==>
      exists id :: id in order && Listed(d, cfg, name, ledger, id) && row == Row(id, ledger[id])
    ensures forall id :: id in order && Listed(d, cfg, name, ledger, id) ==>
      Row(id, ledger[id]) in Rows(d, cfg, name, ledger, order)
  {
    if order != [] {
      var init, last := order[..|order| - 1], order[|order| - 1];
      RowsMembers(d, cfg, name, ledger, init);
      assert order == init + [last];
    }
  }

  /** Every id of `order` is listed once, as a row or as missing. */
  lemma {:induction false} RowsAndMissingCount(d: Disk, cfg: Config, name: string, ledger: map<string, Backup>, order: seq<string>)
    requires forall i :: 0 <= i < |order| ==> order[i] in ledger
    ensures |Rows(d, cfg, name, ledger, order)| + |Missing(d, cfg, name, ledger, order)| == |order|
  {
    if order != [] {
      RowsAndMissingCount(d, cfg, name, ledger, order[..|order| - 1]);
    }
  }

  /** The loop over the ledger: print a row per entry with an archive, collect the others. */
  method ScanLedger(d: Disk, cfg: Config, name: string, ledger: map<string, Backup>, order: seq<string>)
    returns (rows: seq<seq<string>>, removed: seq<string>)
    requires forall i :: 0 <= i < |order| ==> order[i] in ledger
    ensures rows == Rows(d, cfg, name, ledger, order)
    ensures removed == Missing(d, cfg, name, ledger, order)
  {
    rows, removed := [], [];
    var i := 0;
    while i < |order|
      invariant 0 <= i <= |order|
      invariant rows == Rows(d, cfg, name, ledger, order[..i])
      invariant removed == Missing(d, cfg, name, ledger, order[..i])
    {
      var id := order[i];
      assert order[..i + 1][..i] == order[..i];
      if !ArchivePresent(d, cfg, name, ledger[id]) {
        removed := removed + [id];
      } else {
        rows := rows + [Row(id, ledger[id])];
      }
      i := i + 1;
    }
    assert order[..i] == order;
  }

  /** Dropping the missing ids from the ledger is pruning it. */
  lemma DropMissing(d: Disk, cfg: Config, name: string, ledger: map<string, Backup>, order: seq<string>)
    requires IdOrder(order, ledger)
    ensures ledger - (set id | id in Missing(d, cfg, name, ledger, order)) == LedgerPruned(d, cfg, name, ledger)
    ensures Missing(d, cfg, name, ledger, order) == [] ==> LedgerPruned(d, cfg, name, ledger) == ledger
  {
    var missing := Missing(d, cfg, name, ledger, order);
    var gone := set id | id in missing;
    var pruned := LedgerPruned(d, cfg, name, ledger);
    MissingMembers(d, cfg, name, ledger, order);
    forall id | id in ledger ensures id in pruned <==> id !in gone {
      assert id in order;
    }
    KeepOutsideRemoved(ledger, gone, pruned);
  }

  /** A sub-map that keeps the same values and drops exactly `gone` is `ledger - gone`. */
  lemma KeepOutsideRemoved(ledger: map<string, Backup>, gone: set<string>, pruned: map<string, Backup>)
    requires pruned.Keys <= ledger.Keys && forall id :: id in pruned ==> pruned[id] == ledger[id]
    requires forall id :: id in ledger ==> (id in pruned <==> id !in gone)
    ensures ledger - gone == pruned
  {
  }

  /** A pruned ledger is consistent with the disk it was pruned against, and pruning it again
      changes nothing. */
  lemma PruneIdempotent(d: Disk, cfg: Config, name: string, ledger: map<string, Backup>)
    ensures var m := LedgerPruned(d, cfg, name, ledger);
      && (forall id :: id in m ==> ArchivePresent(d, cfg, name, m[id]))
      && LedgerPruned(d, cfg, name, m) == m
      && m.Keys <= ledger.Keys
  {
  }

  /** What a listing shows. */
  datatype Listing = InstanceMissing | NoBackups | Table(rows: seq<seq<string>>, missing: seq<string>)

  /** Writing a new ledger changes no archive. */
  lemma LedgerEditKeepsArchives(d: Disk, cfg: Config, name: string, ledger: map<string, Backup>)
    requires EditInstance(d, cfg, name, BackupsEdit(ledger)).Returned?
    ensures var r := EditInstance(d, cfg, name, BackupsEdit(ledger)).value;
      && r.archives == d.archives
      && (forall p :: Exists(d, p) ==> Exists(r, p))
      && Ledger(r, cfg, name) == ledger
  {
  }

  /** The body both `listBackups` share once the instance is loaded: an empty ledger prints a
      notice; otherwise the table is printed and, when some archives are gone, the ledger is
      rewritten without them (an exception from `editInstance` escapes). */
  method ListLedger(d: Disk, cfg: Config, name: string, c: InstanceConfig, order: seq<string>)
    returns (r: Disk, result: Outcome<Listing>)
    requires GetInstance(d, cfg, name) == Returned(Some(c))
    requires IdOrder(order, c.backups)
    ensures c.backups == map[] ==> r == d && result == Returned(NoBackups)
    ensures c.backups != map[] && result.Returned? ==>
      result.value == Table(Rows(d, cfg, name, c.backups, order), Missing(d, cfg, name, c.backups, order))
    ensures result.Returned? ==> Ledger(r, cfg, name) == LedgerPruned(d, cfg, name, c.backups)
    ensures result.Returned? ==> r.archives == d.archives && Consistent(r, cfg, name)
    ensures result.Threw? ==>
      && r == d && Missing(d, cfg, name, c.backups, order) != []
      && EditInstance(d, cfg, name, BackupsEdit(LedgerPruned(d, cfg, name, c.backups))).Threw?
      && result.error == EditInstance(d, cfg, name, BackupsEdit(LedgerPruned(d, cfg, name, c.backups))).error
  {
    if c.backups == map[] {
      assert LedgerPruned(d, cfg, name, c.backups) == map[];
      return d, Returned(NoBackups);
    }
    var rows, removed := ScanLedger(d, cfg, name, c.backups, order);
    DropMissing(d, cfg, name, c.backups, order);
    PruneIdempotent(d, cfg, name, c.backups);
    if removed == [] {
      return d, Returned(Table(rows, removed));
    }
    var kept := c.backups - (set id | id in removed);
    var edited := EditInstance(d, cfg, name, BackupsEdit(kept));
    if edited.Threw? {
      return d, Threw(edited.error);
    }
    LedgerEditKeepsArchives(d, cfg, name, kept);
    return edited.value, Returned(Table(rows, removed));
  }

  /** `backupApi/listBackups`: a missing instance escapes as an exception. */
  method ListBackups(d: Disk, cfg: Config, name: string, order: seq<string>)
    returns (r: Disk, result: Outcome<Listing>)
    requires IdOrder(order, Ledger(d, cfg, name))
    ensures GetInstanceOrThrow(d, cfg, name).Threw? ==>
      r == d && result == Threw(GetInstanceOrThrow(d, cfg, name).error)
    ensures result != Returned(InstanceMissing)
    ensures result.Returned? ==> Ledger(r, cfg, name) == LedgerPruned(d, cfg, name, Ledger(d, cfg, name))
    ensures result.Returned? ==> r.archives == d.archives && Consistent(r, cfg, name)
    ensures result.Returned? && result.value.Table? ==>
      result.value == Table(Rows(d, cfg, name, Ledger(d, cfg, name), order),
                            Missing(d, cfg, name, Ledger(d, cfg, name), order))
  {
    var inst := GetInstanceOrThrow(d, cfg, name);
    if inst.Threw? {
      return d, Threw(inst.error);
    }
    r, result := ListLedger(d, cfg, name, inst.value, order);
  }

  /** The older `instance/listBackups`: a missing instance prints a notice instead. */
  method LegacyListBackups(d: Disk, cfg: Config, name: string, order: seq<string>)
    returns (r: Disk, result: Outcome<Listing>)
    requires IdOrder(order, Ledger(d, cfg, name))
    ensures GetInstance(d, cfg, name) == Returned(None) ==> r == d && result == Returned(InstanceMissing)
    ensures GetInstance(d, cfg, name).Threw? ==> r == d && result == Threw(GetInstance(d, cfg, name).error)
    ensures result.Returned? ==> Ledger(r, cfg, name) == LedgerPruned(d, cfg, name, Ledger(d, cfg, name))
    ensures result.Returned? ==> r.archives == d.archives && Consistent(r, cfg, name)
    ensures result.Returned? && result.value.Table? ==>
      result.value == Table(Rows(d, cfg, name, Ledger(d, cfg, name), order),
                            Missing(d, cfg, name, Ledger(d, cfg, name), order))
  {
    var inst := GetInstance(d, cfg, name);
    if inst.Threw? {
      return d, Threw(inst.error);
    }
    if inst.value.None? {
      assert LedgerPruned(d, cfg, name, Ledger(d, cfg, name)) == map[];
      return d, Returned(InstanceMissing);
    }
    r, result := ListLedger(d, cfg, name, inst.value.value, order);
  }

  // ---------------------------------------------------------------------------------------
  // removeBackups

  /** `backupZipPath.toFile().delete()` for the archive of entry `b`, skipped when the
      archive is already gone. */
  function DeleteArchive(d: Disk, cfg: Config, name: string, b: Backup, locked: set<Path>): Disk {
    var p := ArchivePath(cfg, name, b.dateTime);
    if Exists(d, p) then DeleteOne(d, p, locked) else d
  }

  /** The archives of `ids` deleted one after another. */
  function DeleteArchives(d: Disk, cfg: Config, name: string, ledger: map<string, Backup>, ids: seq<string>,
                          locked: set<Path>): Disk
    requires forall i :: 0 <= i < |ids| ==> ids[i] in ledger
  {
    if ids == [] then d
    else DeleteArchive(DeleteArchives(d, cfg, name, ledger, ids[..|ids| - 1], locked), cfg, name, ledger[ids[|ids| - 1]], locked)
  }

  /** One more id deletes one more archive. */
  lemma DeleteArchivesStep(d: Disk, cfg: Config, name: string, ledger: map<string, Backup>, ids: seq<string>, i: nat,
                           locked: set<Path>)
    requires i < |ids| && forall j :: 0 <= j <= i ==> ids[j] in ledger
    ensures DeleteArchives(d, cfg, name, ledger, ids[..i + 1], locked)
         == DeleteArchive(DeleteArchives(d, cfg, name, ledger, ids[..i], locked), cfg, name, ledger[ids[i]], locked)
  {
    assert ids[..i + 1][..i] == ids[..i];
  }

  /** Where the loop stops: the first id that is not in the ledger, or `|ids|`. */
  function FirstUnknown(ids: seq<string>, ledger: map<string, Backup>): (k: nat)
    ensures k <= |ids|
    ensures forall i :: 0 <= i < k ==> ids[i] in ledger
    ensures k < |ids| ==> ids[k] !in ledger
  {
    if ids == [] || ids[0] !in ledger then 0 else 1 + FirstUnknown(ids[1..], ledger)
  }

  /** The archives of the entries `ids` name. */
  function ArchivePaths(cfg: Config, name: string, ledger: map<string, Backup>, ids: seq<string>): set<Path> {
    set id | id in ids && id in ledger :: ArchivePath(cfg, name, ledger[id].dateTime)
  }

  /** Deleting archives only removes, and only removes archives of `ids`. */
  lemma {:induction false} DeleteArchivesOnlyRemoves(d: Disk, cfg: Config, name: string, ledger: map<string, Backup>,
                                                     ids: seq<string>, locked: set<Path>)
    requires forall i :: 0 <= i < |ids| ==> ids[i] in ledger
    ensures var r := DeleteArchives(d, cfg, name, ledger, ids, locked);
      && (forall q :: Stored(r, q) ==> Stored(d, q))
      && (forall q :: q !in ArchivePaths(cfg, name, ledger, ids) ==> At(r, q) == At(d, q))
  {
    if ids != [] {
      var init := ids[..|ids| - 1];
      DeleteArchivesOnlyRemoves(d, cfg, name, ledger, init, locked);
      assert ids == init + [ids[|ids| - 1]];
      assert ArchivePaths(cfg, name, ledger, init) <= ArchivePaths(cfg, name, ledger, ids);
    }
  }

  /** Something stored below `p` after deletions was stored there before. */
  lemma StoredBelowShrinks(d: Disk, r: Disk, p: Path)
    requires forall q :: Stored(r, q) ==> Stored(d, q)
    requires HasStoredBelow(r, p)
    ensures HasStoredBelow(d, p)
  {
    var q :| Stored(r, q) && IsStrictlyUnder(q, p);
    assert Stored(d, q);
  }

  /** The archive of every removed entry is gone, unless it could not be deleted: locked, or
      a directory with something in it. */
  lemma {:induction false} RemovedArchivesGone(d: Disk, cfg: Config, name: string, ledger: map<string, Backup>,
                                               ids: seq<string>, locked: set<Path>)
    requires forall i :: 0 <= i < |ids| ==> ids[i] in ledger
    ensures forall id :: id in ids ==>
      var p := ArchivePath(cfg, name, ledger[id].dateTime);
      p !in locked && !HasStoredBelow(d, p) ==> !Stored(DeleteArchives(d, cfg, name, ledger, ids, locked), p)
  {
    if ids != [] {
      var init, last := ids[..|ids| - 1], ids[|ids| - 1];
      var cur := DeleteArchives(d, cfg, name, ledger, init, locked);
      RemovedArchivesGone(d, cfg, name, ledger, init, locked);
      DeleteArchivesOnlyRemoves(d, cfg, name, ledger, init, locked);
      var r := DeleteArchive(cur, cfg, name, ledger[last], locked);
      var lp := ArchivePath(cfg, name, ledger[last].dateTime);
      assert forall q :: Stored(r, q) ==> Stored(cur, q);
      if lp !in locked && !HasStoredBelow(d, lp) && HasStoredBelow(cur, lp) {
        StoredBelowShrinks(d, cur, lp);
      }
      assert ids == init + [last];
    }
  }

  /** `removeBackups(name, ids)`: deletes the archives of `ids` in order, then rewrites the
      ledger without them. An id that is not in the ledger stops the loop with `false`,
      leaving the earlier deletions done and the ledger as it was. */
  method RemoveBackups(d: Disk, cfg: Config, name: string, ids: seq<string>, locked: set<Path>)
    returns (r: Disk, result: Outcome<bool>)
    ensures GetInstanceOrThrow(d, cfg, name).Threw? ==>
      r == d && result == Threw(GetInstanceOrThrow(d, cfg, name).error)
    ensures GetInstanceOrThrow(d, cfg, name).Returned? && FirstUnknown(ids, Ledger(d, cfg, name)) < |ids| ==>
      && result == Returned(false)
      && r == DeleteArchives(d, cfg, name, Ledger(d, cfg, name), ids[..FirstUnknown(ids, Ledger(d, cfg, name))], locked)
    ensures GetInstanceOrThrow(d, cfg, name).Returned? && FirstUnknown(ids, Ledger(d, cfg, name)) == |ids| ==>
      var swept := DeleteArchives(d, cfg, name, Ledger(d, cfg, name), ids, locked);
      var edited := EditInstance(swept, cfg, name, BackupsEdit(Ledger(d, cfg, name) - (set id | id in ids)));
      && (edited.Threw? ==> r == swept && result == Threw(edited.error))
      && (edited.Returned? ==> r == edited.value && result == Returned(true))
    ensures result == Returned(true) ==> Ledger(r, cfg, name) == Ledger(d, cfg, name) - (set id | id in ids)
  {
    var inst := GetInstanceOrThrow(d, cfg, name);
    if inst.Threw? {
      return d, Threw(inst.error);
    }
    var ledger := inst.value.backups;
    var removed: seq<string> := [];
    r := d;
    var i := 0;
    while i < |ids|
      invariant 0 <= i <= |ids|
      invariant forall j :: 0 <= j < i ==> ids[j] in ledger
      invariant removed == ids[..i]
      invariant r == DeleteArchives(d, cfg, name, ledger, ids[..i], locked)
    {
      var id := ids[i];
      if id !in ledger {
        FirstUnknownAt(ids, ledger, i);
        return r, Returned(false);
      }
      DeleteArchivesStep(d, cfg, name, ledger, ids, i, locked);
      var zip := ArchivePath(cfg, name, ledger[id].dateTime);
      if Exists(r, zip) {
        r := DeleteOne(r, zip, locked);
      }
      removed := removed + [id];
      i := i + 1;
    }
    assert ids[..i] == ids;
    AllKnown(ids, ledger);
    var kept := ledger - (set id | id in removed);
    var edited := EditInstance(r, cfg, name, BackupsEdit(kept));
    if edited.Threw? {
      return r, Threw(edited.error);
    }
    LedgerEditKeepsArchives(r, cfg, name, kept);
    return edited.value, Returned(true);
  }

  /** `removeAllBackups(name)`: unless the answer to the confirmation prompt is `n` (also its
      default on timeout), every backup of the ledger is removed. The result of
      `removeBackups` is ignored, but an exception from it escapes. */
  method RemoveAllBackups(d: Disk, cfg: Config, name: string, answer: string, order: seq<string>, locked: set<Path>)
    returns (r: Disk, result: Outcome<bool>)
    requires IdOrder(order, Ledger(d, cfg, name))
    ensures answer == "n" ==> r == d && result == Returned(false)
    ensures answer != "n" && GetInstanceOrThrow(d, cfg, name).Threw? ==>
      r == d && result == Threw(GetInstanceOrThrow(d, cfg, name).error)
    ensures answer != "n" && result.Returned? ==>
      && result.value
      && Ledger(r, cfg, name) == map[]
      && (forall id :: id in Ledger(d, cfg, name) ==>
            var p := ArchivePath(cfg, name, Ledger(d, cfg, name)[id].dateTime);
            p !in locked && !HasStoredBelow(d, p) ==> !Stored(r, p))
  {
    if answer == "n" {
      return d, Returned(false);
    }
    var inst := GetInstanceOrThrow(d, cfg, name);
    if inst.Threw? {
      return d, Threw(inst.error);
    }
    var ledger := inst.value.backups;
    var removed;
    r, removed := RemoveBackups(d, cfg, name, order, locked);
    if removed.Threw? {
      return r, Threw(removed.error);
    }
    AllKnown(order, ledger);
    AllIdsRemoved(order, ledger);
    RemovedArchivesGone(d, cfg, name, ledger, order, locked);
    var swept := DeleteArchives(d, cfg, name, ledger, order, locked);
    LedgerEditKeepsArchives(swept, cfg, name, map[]);
    return r, Returned(true);
  }

  /** Removing every id of the ledger's order empties it. */
  lemma AllIdsRemoved(order: seq<string>, ledger: map<string, Backup>)
    requires IdOrder(order, ledger)
    ensures ledger - (set id | id in order) == map[]
  {
    KeepOutsideRemoved(ledger, set id | id in order, map[]);
  }

  /** Ids all taken from the ledger stop nowhere. */
  /** The loop stops at the first id missing from the ledger. */
  lemma FirstUnknownAt(ids: seq<string>, ledger: map<string, Backup>, i: nat)
    requires i < |ids| && ids[i] !in ledger && forall j :: 0 <= j < i ==> ids[j] in ledger
    ensures FirstUnknown(ids, ledger) == i
  {
  }

  lemma {:induction false} AllKnown(ids: seq<string>, ledger: map<string, Backup>)
    requires forall i :: 0 <= i < |ids| ==> ids[i] in ledger
    ensures FirstUnknown(ids, ledger) == |ids|
  {
    if ids != [] {
      AllKnown(ids[1..], ledger);
    }
  }

  // ---------------------------------------------------------------------------------------
  // rollbackInstance

  /** The archive of ledger entry `id`. */
  function ArchiveOf(d: Disk, cfg: Config, name: string, id: string): Path
    requires id in Ledger(d, cfg, name)
  {
    ArchivePath(cfg, name, Ledger(d, cfg, name)[id].dateTime)
  }

  /** What the environment gives the automatic backup taken before a rollback: the time it
      runs at, the random ids it would draw and the order it walks the world in. */
  datatype SafetyBackup = SafetyBackup(timestamp: string, draws: seq<string>, walkOrder: seq<Path>)

  /** The inputs of the automatic backup fit the disk; the draws end only when the backup
      is configured and gets as far as drawing. */
  predicate SafetyReady(d: Disk, cfg: Config, name: string, safety: SafetyBackup) {
    && Enumerates(safety.walkOrder, Walk(d, WorldDir(cfg, name)))
    && (forall i :: 0 <= i < |safety.draws| ==> IsHex(safety.draws[i], 2))
    && (cfg.backupOnRollback ==> DrawEnds(d, cfg, name, safety.draws))
  }

  /** The description the older `instance/rollbackInstance` and `main.py` give the
      automatic backup. */
  function LegacyRollbackDesc(id: string): string {
    "Auto-backup before rollback to " + id
  }

  const ROLLBACK_DESC_KEY := "command.backup.subs.autobackupRollbackDesc"

  /** The description `backupApi/rollbackInstance` gives it: the translation of
      `ROLLBACK_DESC_KEY` in the current locale with the id filled in. */
  function RollbackDesc(translations: map<string, map<string, Json>>, locale: string, id: string,
                        encode: Json -> string): string {
    Substituted(Translated(translations, locale, ROLLBACK_DESC_KEY, encode), [Some(id)])
  }

  /** `if (cfg.backupOnRollback) backupInstance(name, desc)`: `outcome` is what the automatic
      backup returned or threw, `None` when none is configured. */
  method SafetyBackupStep(d: Disk, cfg: Config, name: string, desc: string, safety: SafetyBackup)
    returns (r: Disk, outcome: Option<Outcome<bool>>)
    requires SafetyReady(d, cfg, name, safety)
    ensures SafetyBackupDone(d, cfg, name, desc, safety, r, outcome)
  {
    if !cfg.backupOnRollback {
      return d, None;
    }
    var go, id;
    r, go, id := BackupInstance(d, cfg, name, desc, safety.timestamp, safety.draws, safety.walkOrder);
    outcome := Some(go);
  }

  /** The automatic backup runs exactly when `backupOnRollback` is set, and is then a call of
      `backupInstance`; without it the disk is unchanged. Either way the world and every
      other archive are untouched. */
  ghost predicate SafetyBackupDone(d: Disk, cfg: Config, name: string, desc: string, safety: SafetyBackup,
                                   r: Disk, outcome: Option<Outcome<bool>>)
    requires SafetyReady(d, cfg, name, safety)
  {
    && (outcome.Some? <==> cfg.backupOnRollback)
    && (outcome.None? ==> r == d)
    && (outcome.Some? ==>
          exists id :: BackupOutcome(d, cfg, name, desc, safety.timestamp, safety.walkOrder, r, outcome.value, id))
    && UnchangedUnder(d, r, WorldDir(cfg, name))
    && ArchivesKeptBut(d, r, ArchivePath(cfg, name, safety.timestamp))
  }

  /** The world as the deletion leaves it: an existing world is deleted bottom-up, keeping
      what cannot be removed. */
  function Cleared(d: Disk, world: Path, locked: set<Path>): Disk {
    if Exists(d, world) then Pruned(d, world, locked) else d
  }

  /** The disk an extraction into `world` leaves, starting from `d2`: the directory creation
      failed and nothing changed, or the archive could not be opened, or some prefix of its
      entries was extracted (all of them when it succeeded). */
  ghost predicate ExtractedAsFarAs(d2: Disk, world: Path, zip: Path, r: Disk) {
    match CreateDirectories(d2, world)
    case Threw(_) => r == d2
    case Returned(d3) =>
      if zip !in d3.archives then r == d3
      else exists i :: 0 <= i <= |d3.archives[zip]| && ExtractAll(d3, world, d3.archives[zip][..i]) == Returned(r)
  }

  /** The `try` block both rollbacks share: create `world`, open the archive and extract its
      entries in order. Any exception ends it with `false`; `r` is then the disk as far as the
      extraction got. */
  method ExtractBackup(d2: Disk, world: Path, zip: Path) returns (r: Disk, ok: bool)
    ensures CreateDirectories(d2, world).Threw? ==> r == d2 && !ok
    ensures CreateDirectories(d2, world).Returned? && zip !in CreateDirectories(d2, world).value.archives ==>
      r == CreateDirectories(d2, world).value && !ok
    ensures CreateDirectories(d2, world).Returned? && zip in CreateDirectories(d2, world).value.archives ==>
      var d3 := CreateDirectories(d2, world).value;
      var es := d3.archives[zip];
      && (ok <==> ExtractAll(d3, world, es).Returned?)
      && (ok ==> r == ExtractAll(d3, world, es).value)
    ensures ExtractedAsFarAs(d2, world, zip, r)
  {
    var made := CreateDirectories(d2, world);
    if made.Threw? {
      return d2, false;
    }
    var d3 := made.value;
    if zip !in d3.archives {
      // `ZipFile` refuses a directory or a file that is not an archive
      return d3, false;
    }
    var x;
    x, r := ExtractEntries(d3, world, d3.archives[zip]);
    ok := x.Returned?;
  }

  /** Both rollbacks once the backup is found and the automatic backup is done: delete the
      world if it exists, then extract the archive into a fresh `world`. */
  method ReplaceWorld(d1: Disk, cfg: Config, name: string, zip: Path, deleteOrder: seq<Path>, locked: set<Path>,
                      withProgress: bool)
    returns (r: Disk, ok: bool)
    requires Enumerates(deleteOrder, Walk(d1, WorldDir(cfg, name))) && BottomUp(deleteOrder)
    ensures var d3 := CreateDirectories(Cleared(d1, WorldDir(cfg, name), locked), WorldDir(cfg, name));
      ok <==> (d3.Returned? && zip in d3.value.archives
               && ExtractAll(d3.value, WorldDir(cfg, name), d3.value.archives[zip]).Returned?)
    ensures ok ==>
      var d3 := CreateDirectories(Cleared(d1, WorldDir(cfg, name), locked), WorldDir(cfg, name)).value;
      r == ExtractAll(d3, WorldDir(cfg, name), d3.archives[zip]).value
    ensures ExtractedAsFarAs(Cleared(d1, WorldDir(cfg, name), locked), WorldDir(cfg, name), zip, r)
  {
    var world := WorldDir(cfg, name);
    var d2 := d1;
    if Exists(d1, world) {
      if withProgress {
        var bar;
        d2, bar := DeleteRecursivelyWithProgress(d1, cfg, world, "command.backup.subs.deletingWorld", deleteOrder, locked);
      } else {
        var deleted;
        d2, deleted := DeleteRecursively(d1, world, deleteOrder, locked);
      }
    }
    r, ok := ExtractBackup(d2, world, zip);
  }

  /** `backupApi/rollbackInstance(name, id)`: an unknown id or a missing archive gives
      `false` and changes nothing; then the automatic backup (when configured, described by
      `t` of `ROLLBACK_DESC_KEY` through the translator `tr`), the deletion of the world and
      the extraction of the archive. `beforeDelete` is the disk once the automatic backup is
      done. */
  method RollbackInstance(d: Disk, cfg: Config, name: string, id: string, tr: Translator, encode: Json -> string,
                          safety: SafetyBackup, deleteOrder: seq<Path>, locked: set<Path>)
    returns (r: Disk, result: Outcome<bool>, beforeDelete: Disk, safetyOutcome: Option<Outcome<bool>>)
    requires SafetyReady(d, cfg, name, safety)
    requires Enumerates(deleteOrder, Walk(d, WorldDir(cfg, name))) && BottomUp(deleteOrder)
    ensures GetInstanceOrThrow(d, cfg, name).Threw? ==>
      r == d && result == Threw(GetInstanceOrThrow(d, cfg, name).error)
    ensures GetInstanceOrThrow(d, cfg, name).Returned? && id !in Ledger(d, cfg, name) ==>
      r == d && result == Returned(false)
    ensures (GetInstanceOrThrow(d, cfg, name).Returned? && id in Ledger(d, cfg, name)
             && !Exists(d, ArchiveOf(d, cfg, name, id))) ==> r == d && result == Returned(false)
    ensures RollbackFrom(d, cfg, name, id, RollbackDesc(tr.translations, tr.currentLocale, id, encode), safety,
                         deleteOrder, locked, r, result, beforeDelete, safetyOutcome)
  {
    var inst := GetInstanceOrThrow(d, cfg, name);
    if inst.Threw? {
      return d, Threw(inst.error), d, None;
    }
    var desc := tr.Tr(ROLLBACK_DESC_KEY, [Some(id)], None, encode);
    r, result, beforeDelete, safetyOutcome := RollbackLoaded(d, cfg, name, id, desc, safety, deleteOrder, locked, true);
  }

  /** The older `instance/rollbackInstance`: a missing instance gives `false`, and the world
      is deleted with `File.deleteRecursively`, which has the same effect without a progress
      bar. */
  method LegacyRollbackInstance(d: Disk, cfg: Config, name: string, id: string, safety: SafetyBackup,
                                deleteOrder: seq<Path>, locked: set<Path>)
    returns (r: Disk, result: Outcome<bool>, beforeDelete: Disk, safetyOutcome: Option<Outcome<bool>>)
    requires SafetyReady(d, cfg, name, safety)
    requires Enumerates(deleteOrder, Walk(d, WorldDir(cfg, name))) && BottomUp(deleteOrder)
    ensures GetInstance(d, cfg, name).Threw? ==> r == d && result == Threw(GetInstance(d, cfg, name).error)
    ensures GetInstance(d, cfg, name) == Returned(None) ==> r == d && result == Returned(false)
    ensures GetInstanceOrThrow(d, cfg, name).Returned? && id !in Ledger(d, cfg, name) ==>
      r == d && result == Returned(false)
    ensures (GetInstanceOrThrow(d, cfg, name).Returned? && id in Ledger(d, cfg, name)
             && !Exists(d, ArchiveOf(d, cfg, name, id))) ==> r == d && result == Returned(false)
    ensures RollbackFrom(d, cfg, name, id, LegacyRollbackDesc(id), safety, deleteOrder, locked, r, result,
                         beforeDelete, safetyOutcome)
  {
    var inst := GetInstance(d, cfg, name);
    if inst.Threw? {
      return d, Threw(inst.error), d, None;
    }
    if inst.value.None? {
      return d, Returned(false), d, None;
    }
    r, result, beforeDelete, safetyOutcome :=
      RollbackLoaded(d, cfg, name, id, LegacyRollbackDesc(id), safety, deleteOrder, locked, false);
  }

  /** What a rollback that got past its checks did. The automatic backup is `backupInstance`
      when configured, and touches neither the world nor any other archive (so the chosen
      archive is intact unless it was stamped in the same second). When it throws, the
      exception escapes; when it returns false, the rollback returns false before the world
      is deleted. Otherwise the rollback returns true exactly when the chosen archive
      extracts completely into the cleared world, and `r` is the disk as far as the
      extraction got. */
  ghost predicate RollbackFrom(d: Disk, cfg: Config, name: string, id: string, desc: string, safety: SafetyBackup,
                               deleteOrder: seq<Path>, locked: set<Path>, r: Disk, result: Outcome<bool>,
                               beforeDelete: Disk, safetyOutcome: Option<Outcome<bool>>)
    requires SafetyReady(d, cfg, name, safety)
  {
    GetInstanceOrThrow(d, cfg, name).Returned? && id in Ledger(d, cfg, name) && Exists(d, ArchiveOf(d, cfg, name, id)) ==>
      var zip := ArchiveOf(d, cfg, name, id);
      var world := WorldDir(cfg, name);
      var d3 := CreateDirectories(Cleared(beforeDelete, world, locked), world);
      && SafetyBackupDone(d, cfg, name, desc, safety, beforeDelete, safetyOutcome)
      && (safetyOutcome.Some? && safetyOutcome.value != Returned(true) ==>
            r == beforeDelete && result == safetyOutcome.value)
      && (safetyOutcome.None? || safetyOutcome == Some(Returned(true)) ==>
            && result.Returned?
            && (result.value <==> (d3.Returned? && zip in d3.value.archives
                                   && ExtractAll(d3.value, world, d3.value.archives[zip]).Returned?))
            && ExtractedAsFarAs(Cleared(beforeDelete, world, locked), world, zip, r))
      && (result == Returned(true) ==>
            && d3.Returned? && zip in d3.value.archives
            && ExtractAll(d3.value, world, d3.value.archives[zip]) == Returned(r))
  }

  /** The common body of both rollbacks once the instance is loaded. */
  method RollbackLoaded(d: Disk, cfg: Config, name: string, id: string, desc: string, safety: SafetyBackup,
                        deleteOrder: seq<Path>, locked: set<Path>, withProgress: bool)
    returns (r: Disk, result: Outcome<bool>, beforeDelete: Disk, safetyOutcome: Option<Outcome<bool>>)
    requires GetInstanceOrThrow(d, cfg, name).Returned?
    requires SafetyReady(d, cfg, name, safety)
    requires Enumerates(deleteOrder, Walk(d, WorldDir(cfg, name))) && BottomUp(deleteOrder)
    ensures id !in Ledger(d, cfg, name) ==> r == d && result == Returned(false)
    ensures id in Ledger(d, cfg, name) && !Exists(d, ArchiveOf(d, cfg, name, id)) ==>
      r == d && result == Returned(false)
    ensures RollbackFrom(d, cfg, name, id, desc, safety, deleteOrder, locked, r, result, beforeDelete, safetyOutcome)
  {
    beforeDelete := d;
    if id !in Ledger(d, cfg, name) {
      return d, Returned(false), d, None;
    }
    var zip := ArchiveOf(d, cfg, name, id);
    if !Exists(d, zip) {
      return d, Returned(false), d, None;
    }
    beforeDelete, safetyOutcome := SafetyBackupStep(d, cfg, name, desc, safety);
    if safetyOutcome.Some? && safetyOutcome.value != Returned(true) {
      return beforeDelete, safetyOutcome.value, beforeDelete, safetyOutcome;
    }
    WalkUnchanged(d, beforeDelete, WorldDir(cfg, name));
    var ok;
    r, ok := ReplaceWorld(beforeDelete, cfg, name, zip, deleteOrder, locked, withProgress);
    result := Returned(ok);
  }

  // ---------------------------------------------------------------------------------------
  // What a rollback restores

  /** On a well-formed disk with nothing locked in the world, clearing the world removes
      exactly the subtree (a world that does not exist has nothing below it either). */
  lemma ClearedWorld(dk: Disk, world: Path, locked: set<Path>)
    requires WellFormed(dk) && world != []
    requires forall l :: l in locked ==> l !in Walk(dk, world)
    ensures Cleared(dk, world, locked) == RemoveSubtree(dk, world)
  {
    if Exists(dk, world) {
      PrunedWithoutLocks(dk, world, locked);
    } else {
      forall q | Stored(dk, q) ensures !IsUnder(q, world) {
        AncestorsAreDirectories(dk, q);
        assert q[..|q|] == q;
        if |world| < |q| {
          assert IsDirectory(dk, q[..|world|]);
        }
      }
      var c := RemoveSubtree(dk, world);
      assert c.tree == dk.tree && c.archives == dk.archives && c.configs == dk.configs;
    }
  }

  /** With its parent directory in place and the world gone, `createDirectories(world)`
      succeeds. */
  lemma WorldCreatable(dk: Disk, c: Disk, world: Path)
    requires WellFormed(dk) && world != [] && IsDirectory(dk, world[..|world| - 1])
    requires c == RemoveSubtree(dk, world)
    ensures CreateDirectories(c, world).Returned?
  {
    var parent := world[..|world| - 1];
    AncestorsAreDirectories(dk, parent);
    forall k | 0 <= k <= |world| ensures !Exists(c, world[..k]) || IsDirectory(c, world[..k]) {
      if k < |world| {
        assert world[..k] == parent[..k];
        assert !IsUnder(world[..k], world);
      } else {
        assert world[..k] == world;
      }
    }
  }

  /** Creating the world on a disk with nothing at or below it leaves it empty. */
  lemma CreatedEmpty(c: Disk, world: Path)
    requires forall q :: Stored(c, q) ==> !IsUnder(q, world)
    requires CreateDirectories(c, world).Returned?
    ensures !HasStoredBelow(CreateDirectories(c, world).value, world)
  {
    var d3 := CreateDirectories(c, world).value;
    forall q | q in d3.tree ensures !IsStrictlyUnder(q, world) {
      if q in c.tree {
        assert Stored(c, q);
      } else {
        assert IsUnder(world, q);
      }
    }
    forall q | q in d3.archives || q in d3.configs ensures !IsStrictlyUnder(q, world) {
      assert Stored(c, q);
    }
  }

  /** After the deletion, `createDirectories(world)` leaves a well-formed disk in which the
      world is an empty directory, and keeps every archive outside the world. */
  lemma FreshWorld(dk: Disk, world: Path, locked: set<Path>)
    requires WellFormed(dk) && world != [] && IsDirectory(dk, world[..|world| - 1])
    requires forall l :: l in locked ==> l !in Walk(dk, world)
    ensures var d3 := CreateDirectories(Cleared(dk, world, locked), world);
      && d3.Returned? && WellFormed(d3.value)
      && IsDirectory(d3.value, world) && !HasStoredBelow(d3.value, world)
      && (forall z :: z in dk.archives && !IsUnder(z, world) ==> z in d3.value.archives && d3.value.archives[z] == dk.archives[z])
  {
    ClearedWorld(dk, world, locked);
    var c := RemoveSubtree(dk, world);
    WellFormedRemoveSubtree(dk, world);
    WorldCreatable(dk, c, world);
    WellFormedCreateDirectories(c, world);
    CreatedEmpty(c, world);
    assert world[..|world|] == world;
  }

  /** The world of `x` holds exactly the plain files of the world of `d0`: each at its own
      path with its old content, and no other file. */
  ghost predicate WorldHolds(x: Disk, d0: Disk, world: Path) {
    && (forall f :: IsPlainFile(d0, f) && IsUnder(f, world) ==> f in x.tree && x.tree[f] == d0.tree[f])
    && (forall q :: q in x.tree && IsStrictlyUnder(q, world) && x.tree[q].File? ==> IsPlainFile(d0, q))
  }

  /** Extracting the walked files of `world` back into an empty `world` puts them in place. */
  lemma ExtractInPlace(d0: Disk, world: Path, walk0: seq<Path>, d3: Disk)
    requires Enumerates(walk0, Walk(d0, world))
    requires WellFormed(d0) && IsDirectory(d0, world)
    requires forall q :: IsPlainFile(d0, q) && IsUnder(q, world) ==> PortableSegments(q[|world|..])
    requires WellFormed(d3) && IsDirectory(d3, world) && !HasStoredBelow(d3, world)
    ensures var x := ExtractAll(d3, world, EntriesFor(d0, world, RegularFiles(d0, walk0)));
      x.Returned? && SameOutside(x.value, d3, world) && WorldHolds(x.value, d0, world)
  {
    ExtractWalkedFiles(d0, world, walk0, d3, world);
    forall f | IsUnder(f, world) ensures Moved(world, world, f) == f {
      assert f == f[..|world|] + f[|world|..];
    }
  }

  /** Rolling back restores the backed-up world: when the chosen archive holds the entries of
      the regular files a walk of `world` found on disk `d0` (what a successful
      `backupInstance` records), the extraction that ends a successful rollback from the
      well-formed `dk` succeeds, changes nothing outside the world, and leaves in the world
      exactly the plain files of the old world with their old content. File names must be
      portable. */
  lemma RollbackRestoresBackup(dk: Disk, cfg: Config, name: string, locked: set<Path>, zip: Path,
                               d0: Disk, walk0: seq<Path>)
    requires WellFormed(dk) && IsDirectory(dk, InstanceDir(cfg, name))
    requires forall l :: l in locked ==> l !in Walk(dk, WorldDir(cfg, name))
    requires zip in dk.archives && !IsUnder(zip, WorldDir(cfg, name))
    requires WellFormed(d0) && IsDirectory(d0, WorldDir(cfg, name))
    requires Enumerates(walk0, Walk(d0, WorldDir(cfg, name)))
    requires forall q :: IsPlainFile(d0, q) && IsUnder(q, WorldDir(cfg, name)) ==>
      PortableSegments(q[|WorldDir(cfg, name)|..])
    requires dk.archives[zip] == EntriesFor(d0, WorldDir(cfg, name), RegularFiles(d0, walk0))
    ensures var world := WorldDir(cfg, name);
      var d3 := CreateDirectories(Cleared(dk, world, locked), world);
      && d3.Returned? && zip in d3.value.archives
      && var x := ExtractAll(d3.value, world, d3.value.archives[zip]);
      && x.Returned? && SameOutside(x.value, d3.value, world) && WorldHolds(x.value, d0, world)
  {
    var world := WorldDir(cfg, name);
    assert world[..|world| - 1] == InstanceDir(cfg, name);
    FreshWorld(dk, world, locked);
    var d3 := CreateDirectories(Cleared(dk, world, locked), world).value;
    ExtractInPlace(d0, world, walk0, d3);
  }
}
