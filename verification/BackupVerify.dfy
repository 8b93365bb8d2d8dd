/**
 * Verifying backup sets (scripts/backup-verify-lib.ts): one directory against
 * its manifest and the current runtime, then a whole root with its staleness
 * window. A file system is what the checks can observe of it; hashes are opaque
 * and ages are exact.
 */
module BackupVerify {
  import opened Wrappers
  import opened Sorting
  import opened Migrations

  const MANIFEST_FILENAME := "manifest.json"
  const DUMP_FILENAME := "openbrain.dump"

  datatype FileEntry = FileEntry(name: string, sha256: string, bytes: nat)

  /** `createdAt` is the parsed time in milliseconds, absent when it does not parse. */
  datatype Manifest = Manifest(
    createdAt: Option<int>, head: Option<string>, applied: seq<string>, contractVersion: string,
    embeddingModel: string, embeddingDimensions: nat, files: seq<FileEntry>)

  /** A manifest that fails its schema always reports at least one issue. */
  datatype ManifestFile =
    Missing | Unparseable | UnknownSchema | BadFields(first: string, more: seq<string>) | Good(manifest: Manifest)

  datatype FileOnDisk = FileOnDisk(modified: int, sha256: string, bytes: nat)

  /** `entries` is the directory listing, absent when it cannot be read. */
  datatype BackupDir = BackupDir(
    manifestFile: ManifestFile, manifestModified: int, entries: Option<seq<string>>, disk: map<string, FileOnDisk>)

  datatype Runtime = Runtime(repoMigrations: seq<string>, contractVersion: string, embeddingModel: string,
                             embeddingDimensions: nat)

  datatype Options = Options(allowEmbeddingMismatch: bool, maxAgeHours: Option<real>, now: int)

  datatype Verdict = Passes | Warns | Fails

  datatype ElementVerdict = ElementVerdict(element: string, verdict: Verdict, reason: string)

  datatype Status = Passed | Warned | Failed

  datatype SetResult = SetResult(status: Status, age: Option<real>)

  predicate HasFail(verdicts: seq<ElementVerdict>) { exists v :: v in verdicts && v.verdict.Fails? }

  predicate HasWarn(verdicts: seq<ElementVerdict>) { exists v :: v in verdicts && v.verdict.Warns? }

  function StatusFromVerdicts(verdicts: seq<ElementVerdict>): Status {
    if HasFail(verdicts) then Failed else if HasWarn(verdicts) then Warned else Passed
  }

  function AgeHours(createdAt: Option<int>, now: int): (age: Option<real>)
    ensures age.Some? <==> createdAt.Some?
    ensures age.Some? ==> age.value * 3_600_000.0 == (now - createdAt.value) as real
  {
    if createdAt.None? then None else Some((now - createdAt.value) as real / 3_600_000.0)
  }

  // --- What makes a set trustworthy ---

  predicate DotFile(name: string) { name != "" && name[0] == '.' }

  predicate Listed(m: Manifest, name: string) { exists f :: f in m.files && f.name == name }

  ghost predicate InventoryClean(d: BackupDir, m: Manifest) {
    && d.entries.Some?
    && (forall e :: e in d.entries.value && !DotFile(e) ==> e == MANIFEST_FILENAME || Listed(m, e))
    && Listed(m, DUMP_FILENAME)
  }

  predicate Intact(d: BackupDir, f: FileEntry) {
    f.name in d.disk && d.disk[f.name].bytes == f.bytes && d.disk[f.name].sha256 == f.sha256
  }

  ghost predicate HeadConsistent(m: Manifest) {
    if m.applied == [] then m.head == None
    else m.head.Some? && m.head.value in m.applied && forall f :: f in m.applied ==> StrLeq(f, m.head.value)
  }

  predicate EmbeddingMatches(m: Manifest, r: Runtime) {
    m.embeddingModel == r.embeddingModel && m.embeddingDimensions == r.embeddingDimensions
  }

  ghost predicate Trustworthy(d: BackupDir, r: Runtime, o: Options) {
    d.manifestFile.Good? &&
    var m := d.manifestFile.manifest;
    && InventoryClean(d, m)
    && (forall f :: f in m.files ==> Intact(d, f))
    && HeadConsistent(m) && Accepted(m.applied, r.repoMigrations)
    && (CompareContractVersions(m.contractVersion, r.contractVersion).SameContract?
        || CompareContractVersions(m.contractVersion, r.contractVersion).OlderContract?)
    && (EmbeddingMatches(m, r) || o.allowEmbeddingMismatch)
    && m.createdAt.Some? && m.createdAt.value <= o.now
  }

  /** A file touched after the manifest was written, its contents still as listed. */
  predicate Drifted(d: BackupDir, f: FileEntry) {
    f.name in d.disk && d.disk[f.name].modified > d.manifestModified && d.disk[f.name].sha256 == f.sha256
  }

  ghost predicate Doubtful(d: BackupDir, r: Runtime) {
    d.manifestFile.Good? &&
    var m := d.manifestFile.manifest;
    || (exists f :: f in m.files && Drifted(d, f))
    || CompareContractVersions(m.contractVersion, r.contractVersion).OlderContract?
    || !EmbeddingMatches(m, r)
  }

  // --- One set ---

  class Verification {
    var verdicts: seq<ElementVerdict>

    constructor ()
      ensures verdicts == []
    {
      verdicts := [];
    }

    method Push(element: string, verdict: Verdict, reason: string)
      modifies this
      ensures HasFail(verdicts) <==> HasFail(old(verdicts)) || verdict.Fails?
      ensures HasWarn(verdicts) <==> HasWarn(old(verdicts)) || verdict.Warns?
    {
      verdicts := verdicts + [ElementVerdict(element, verdict, reason)];
    }

    method ReadManifest(f: ManifestFile) returns (m: Option<Manifest>)
      modifies this
      ensures m == if f.Good? then Some(f.manifest) else None
      ensures HasFail(verdicts) <==> HasFail(old(verdicts)) || !f.Good?
      ensures HasWarn(verdicts) <==> HasWarn(old(verdicts))
    {
      match f {
        case Missing => Push("manifest", Fails, "missing"); return None;
        case Unparseable => Push("manifest", Fails, "unparseable_json"); return None;
        case UnknownSchema => Push("manifest", Fails, "unknown_schema_id"); return None;
        case BadFields(first, more) =>
          Push("manifest_field", Fails, first);
          for i := 0 to |more|
            invariant HasFail(verdicts) && (HasWarn(verdicts) <==> HasWarn(old(verdicts)))
          {
            Push("manifest_field", Fails, more[i]);
          }
          return None;
        case Good(manifest) => Push("manifest", Passes, "valid"); return Some(manifest);
      }
    }

    /** Fails unless each visible entry is on the manifest and one of its entries is the dump. */
    method CheckFileInventory(d: BackupDir, m: Manifest)
      modifies this
      ensures HasFail(verdicts) <==> HasFail(old(verdicts)) || !InventoryClean(d, m)
      ensures HasWarn(verdicts) <==> HasWarn(old(verdicts))
    {
      var entries: seq<string> := [];
      if d.entries.None? {
        Push("backup_dir", Fails, "unreadable");
      } else {
        entries := d.entries.value;
      }
      for i := 0 to |entries|
        invariant HasWarn(verdicts) <==> HasWarn(old(verdicts))
        invariant HasFail(verdicts) <==>
                  HasFail(old(verdicts)) || d.entries.None?
                  || exists j ::
                       0 <= j < i && !DotFile(entries[j]) && entries[j] != MANIFEST_FILENAME && !Listed(m, entries[j])
      {
        if DotFile(entries[i]) || entries[i] == MANIFEST_FILENAME || Listed(m, entries[i]) { continue; }
        Push("file:" + entries[i], Fails, "unexpected_file");
      }
      if !Listed(m, DUMP_FILENAME) { Push("file:" + DUMP_FILENAME, Fails, "dump_not_listed_in_manifest"); }
    }

    /** Size and hash for one listed file; a drifted but intact file only warns. */
    method CheckOneFile(d: BackupDir, f: FileEntry)
      modifies this
      ensures HasFail(verdicts) <==> HasFail(old(verdicts)) || !Intact(d, f)
      ensures HasWarn(verdicts) <==> HasWarn(old(verdicts)) || Drifted(d, f)
    {
      if f.name !in d.disk {
        Push("file:" + f.name, Fails, "missing");
        return;
      }
      var onDisk := d.disk[f.name];
      if onDisk.bytes != f.bytes {
        Push("file:" + f.name, Fails, "size_mismatch");
      } else if onDisk.sha256 != f.sha256 {
        Push("file:" + f.name, Fails, "checksum_mismatch");
      } else {
        Push("file:" + f.name, Passes, "checksum_verified");
      }
      if onDisk.modified > d.manifestModified && onDisk.sha256 == f.sha256 {
        Push("file:" + f.name, Warns, "modified_after_manifest");
      }
    }

    method CheckFiles(d: BackupDir, m: Manifest)
      modifies this
      ensures HasFail(verdicts) <==> HasFail(old(verdicts)) || exists f :: f in m.files && !Intact(d, f)
      ensures HasWarn(verdicts) <==> HasWarn(old(verdicts)) || exists f :: f in m.files && Drifted(d, f)
    {
      for i := 0 to |m.files|
        invariant HasFail(verdicts) <==> HasFail(old(verdicts)) || exists j :: 0 <= j < i && !Intact(d, m.files[j])
        invariant HasWarn(verdicts) <==> HasWarn(old(verdicts)) || exists j :: 0 <= j < i && Drifted(d, m.files[j])
      {
        CheckOneFile(d, m.files[i]);
      }
    }

    method CheckMigrations(m: Manifest, r: Runtime)
      modifies this
      ensures HasFail(verdicts) <==>
                HasFail(old(verdicts)) || !(HeadConsistent(m) && Accepted(m.applied, r.repoMigrations))
      ensures HasWarn(verdicts) <==> HasWarn(old(verdicts))
    {
      var sorted := Sort(m.applied, StrLeq);
      var expectedHead := if |sorted| > 0 then Some(sorted[|sorted| - 1]) else None;
      HeadIsLast(m);
      if m.head != expectedHead {
        Push("migrations", Fails, "head_inconsistent_with_applied_list");
        return;
      }
      var compat := CompareMigrationSets(m.applied, r.repoMigrations);
      match compat {
        case Equal => Push("migrations", Passes, "equal_head");
        case RestorableWithMigrations => Push("migrations", Passes, "restorable_with_migrations");
        case IncompatibleInterleaved => Push("migrations", Fails, "interleaved_migration_gap_fail_closed");
        case UnknownMigrations => Push("migrations", Fails, "unknown_or_newer_migrations_fail_closed");
      }
    }

    method CheckContract(m: Manifest, r: Runtime)
      modifies this
      ensures var c := CompareContractVersions(m.contractVersion, r.contractVersion);
              && (HasFail(verdicts) <==> HasFail(old(verdicts)) || !(c.SameContract? || c.OlderContract?))
              && (HasWarn(verdicts) <==> HasWarn(old(verdicts)) || c.OlderContract?)
    {
      match CompareContractVersions(m.contractVersion, r.contractVersion) {
        case SameContract => Push("contract", Passes, "equal");
        case OlderContract => Push("contract", Warns, "older_contract_restorable");
        case NewerContract => Push("contract", Fails, "newer_contract_fail_closed");
        case UnparseableContract => Push("contract", Fails, "unparseable_contract_fail_closed");
      }
    }

    method CheckEmbedding(m: Manifest, r: Runtime, o: Options)
      modifies this
      ensures HasFail(verdicts) <==> HasFail(old(verdicts)) || !(EmbeddingMatches(m, r) || o.allowEmbeddingMismatch)
      ensures HasWarn(verdicts) <==> HasWarn(old(verdicts)) || (!EmbeddingMatches(m, r) && o.allowEmbeddingMismatch)
    {
      if EmbeddingMatches(m, r) {
        Push("embedding", Passes, "equal");
      } else if o.allowEmbeddingMismatch {
        Push("embedding", Warns, "mismatch_allowed_by_flag");
      } else {
        Push("embedding", Fails, "model_or_dimension_mismatch_fail_closed");
      }
    }

    method CheckCreatedAt(m: Manifest, now: int) returns (age: Option<real>)
      modifies this
      ensures age == AgeHours(m.createdAt, now)
      ensures HasFail(verdicts) <==> HasFail(old(verdicts)) || m.createdAt.None? || m.createdAt.value > now
      ensures HasWarn(verdicts) <==> HasWarn(old(verdicts))
    {
      age := AgeHours(m.createdAt, now);
      if age.None? {
        Push("created_at", Fails, "unparseable_timestamp");
      } else if age.value < 0.0 {
        Push("created_at", Fails, "future_dated_timestamp");
      }
    }
  }

  lemma LastIsGreatest(sorted: seq<string>, f: string)
    requires Sorted(sorted, StrLeq) && f in sorted
    ensures StrLeq(f, sorted[|sorted| - 1])
  {
    var k :| 0 <= k < |sorted| && sorted[k] == f;
    StrLeqTotal(f, f);
  }

  /** The last name of the sorted list is the greatest applied one. */
  lemma HeadIsLast(m: Manifest)
    ensures var sorted := Sort(m.applied, StrLeq);
            |sorted| == |m.applied|
            && (HeadConsistent(m) <==> m.head == if |sorted| > 0 then Some(sorted[|sorted| - 1]) else None)
  {
    StrLeqOrder();
    SortSorts(m.applied, StrLeq);
    var sorted := Sort(m.applied, StrLeq);
    if m.applied != [] {
      assert sorted[|sorted| - 1] in m.applied;
      forall f | f in m.applied ensures StrLeq(f, sorted[|sorted| - 1]) { LastIsGreatest(sorted, f); }
      forall f, g | f in m.applied && g in m.applied && StrLeq(f, g) && StrLeq(g, f)
        ensures f == g { StrLeqTotal(f, g); }
    }
  }

  /** Verifies one set. Non-failed exactly when trustworthy; warned exactly when also doubtful. */
  method VerifyBackupSet(d: BackupDir, r: Runtime, o: Options) returns (result: SetResult)
    ensures result.status.Failed? <==> !Trustworthy(d, r, o)
    ensures result.status.Warned? <==> Trustworthy(d, r, o) && Doubtful(d, r)
    ensures result.age == if d.manifestFile.Good? then AgeHours(d.manifestFile.manifest.createdAt, o.now) else None
  {
    var v := new Verification();
    var age: Option<real> := None;
    var manifest := v.ReadManifest(d.manifestFile);
    if manifest.Some? {
      var m := manifest.value;
      v.CheckFileInventory(d, m);
      v.CheckFiles(d, m);
      v.CheckMigrations(m, r);
      v.CheckContract(m, r);
      v.CheckEmbedding(m, r, o);
      age := v.CheckCreatedAt(m, o.now);
    }
    return SetResult(StatusFromVerdicts(v.verdicts), age);
  }

  // --- A whole path ---

  /** One entry of a root directory: whether it is a directory that can be inspected, and holds a manifest. */
  datatype RootEntry = RootEntry(name: string, isDirectory: bool, hasManifest: bool, dir: BackupDir)

  /** The path is itself a set, or a root whose listing may be unreadable. */
  datatype BackupPath = SingleSet(dir: BackupDir) | Root(entries: Option<seq<RootEntry>>)

  datatype RootStatus = RootPassed | RootWarned | RootFailed | Stale

  datatype RootResult = RootResult(status: RootStatus, stale: bool, newestValidAgeHours: Option<real>, sets: nat)

  predicate ByName(a: RootEntry, b: RootEntry) { StrLeq(a.name, b.name) }

  /** The sets the path holds. */
  ghost predicate HoldsSet(p: BackupPath, d: BackupDir) {
    match p
    case SingleSet(dir) => d == dir
    case Root(entries) =>
      entries.Some? && exists e :: e in entries.value && e.isDirectory && e.hasManifest && e.dir == d
  }

  lemma SameEntries(entries: seq<RootEntry>)
    ensures forall e :: e in Sort(entries, ByName) <==> e in entries
  {
    StrLeqOrder();
    SortSorts(entries, ByName);
  }

  method CollectSetDirs(p: BackupPath) returns (dirs: seq<BackupDir>)
    ensures forall d :: d in dirs <==> HoldsSet(p, d)
  {
    match p {
      case SingleSet(dir) => return [dir];
      case Root(None) => return [];
      case Root(Some(entries)) =>
        SameEntries(entries);
        var ordered := Sort(entries, ByName);
        dirs := [];
        for i := 0 to |ordered|
          invariant forall d :: d in dirs <==>
                      exists j :: 0 <= j < i && ordered[j].isDirectory && ordered[j].hasManifest && ordered[j].dir == d
        {
          if !ordered[i].isDirectory { continue; }
          if !ordered[i].hasManifest { continue; }
          dirs := dirs + [ordered[i].dir];
        }
        forall d ensures d in dirs <==> HoldsSet(p, d) {
          if HoldsSet(p, d) {
            var e :| e in entries && e.isDirectory && e.hasManifest && e.dir == d;
            assert e in ordered;
          }
        }
    }
  }

  /** The least of the valid ages, and whether the window is missed. */
  method EvaluateStaleness(validAges: seq<Option<real>>, maxAgeHours: Option<real>)
    returns (stale: bool, newest: Option<real>)
    ensures newest.Some? ==> newest in validAges && newest.value >= 0.0
    ensures forall a :: Some(a) in validAges && a >= 0.0 ==> newest.Some? && newest.value <= a
    ensures stale <==> maxAgeHours.Some? && !exists a :: Some(a) in validAges && a >= 0.0 && a <= maxAgeHours.value
  {
    newest := None;
    for i := 0 to |validAges|
      invariant newest.Some? ==> newest in validAges[..i] && newest.value >= 0.0
      invariant forall a :: Some(a) in validAges[..i] && a >= 0.0 ==> newest.Some? && newest.value <= a
    {
      assert validAges[..i + 1] == validAges[..i] + [validAges[i]];
      if validAges[i].Some? && validAges[i].value >= 0.0 && (newest.None? || validAges[i].value < newest.value) {
        newest := validAges[i];
      }
    }
    assert validAges[..|validAges|] == validAges;
    if maxAgeHours.None? { return false, newest; }
    if newest.None? { return true, None; }
    return newest.value > maxAgeHours.value, newest;
  }

  ghost function AgeOf(d: BackupDir, now: int): Option<real> {
    if d.manifestFile.Good? then AgeHours(d.manifestFile.manifest.createdAt, now) else None
  }

  /** A trustworthy set of the path is young enough. */
  ghost predicate FreshEnough(p: BackupPath, r: Runtime, o: Options, window: real) {
    exists d :: HoldsSet(p, d) && Trustworthy(d, r, o) && AgeOf(d, o.now).Some? && AgeOf(d, o.now).value <= window
  }

  /** `age` is the age of some trustworthy set of the path. */
  ghost predicate ValidAge(dirs: seq<BackupDir>, r: Runtime, o: Options, age: Option<real>) {
    exists d :: d in dirs && Trustworthy(d, r, o) && AgeOf(d, o.now) == age
  }

  /** Verifies every set and keeps the ages of the valid ones. */
  method VerifySets(dirs: seq<BackupDir>, r: Runtime, o: Options)
    returns (anyFailed: bool, anyWarned: bool, validAges: seq<Option<real>>)
    ensures anyFailed <==> exists d :: d in dirs && !Trustworthy(d, r, o)
    ensures anyWarned <==> exists d :: d in dirs && Trustworthy(d, r, o) && Doubtful(d, r)
    ensures forall a :: a in validAges <==> ValidAge(dirs, r, o, a)
  {
    anyFailed, anyWarned, validAges := false, false, [];
    for i := 0 to |dirs|
      invariant anyFailed <==> exists d :: d in dirs[..i] && !Trustworthy(d, r, o)
      invariant anyWarned <==> exists d :: d in dirs[..i] && Trustworthy(d, r, o) && Doubtful(d, r)
      invariant forall a :: a in validAges <==> ValidAge(dirs[..i], r, o, a)
    {
      var result := VerifyBackupSet(dirs[i], r, o);
      MoreSets(dirs, i, r, o);
      if result.status.Failed? {
        anyFailed := true;
      } else {
        if result.status.Warned? { anyWarned := true; }
        validAges := validAges + [result.age];
      }
    }
    assert dirs[..|dirs|] == dirs;
  }

  lemma MoreSets(dirs: seq<BackupDir>, i: nat, r: Runtime, o: Options)
    requires i < |dirs|
    ensures forall d :: d in dirs[..i + 1] <==> d in dirs[..i] || d == dirs[i]
    ensures forall a :: ValidAge(dirs[..i + 1], r, o, a) <==>
              ValidAge(dirs[..i], r, o, a) || (Trustworthy(dirs[i], r, o) && AgeOf(dirs[i], o.now) == a)
  {
    assert dirs[..i + 1] == dirs[..i] + [dirs[i]];
    if Trustworthy(dirs[i], r, o) {
      assert dirs[i] in dirs[..i + 1];
      assert ValidAge(dirs[..i + 1], r, o, AgeOf(dirs[i], o.now));
    }
    forall a | ValidAge(dirs[..i], r, o, a) ensures ValidAge(dirs[..i + 1], r, o, a) {
      var d :| d in dirs[..i] && Trustworthy(d, r, o) && AgeOf(d, o.now) == a;
      assert d in dirs[..i + 1];
    }
  }

  /**
   * Verifies a set or a root. Stale exactly when a window is given and no
   * trustworthy set is within it; staleness dominates, then failure, then doubt.
   */
  method VerifyBackupPath(p: BackupPath, r: Runtime, o: Options) returns (result: RootResult)
    ensures result.stale <==> o.maxAgeHours.Some? && !FreshEnough(p, r, o, o.maxAgeHours.value)
    ensures result.status.Stale? <==> result.stale
    ensures !result.stale ==>
              && (result.status.RootFailed? <==>
                  (!exists d :: HoldsSet(p, d)) || exists d :: HoldsSet(p, d) && !Trustworthy(d, r, o))
              && (result.status.RootPassed? <==>
                    (exists d :: HoldsSet(p, d))
                    && forall d :: HoldsSet(p, d) ==> Trustworthy(d, r, o) && !Doubtful(d, r))
    ensures forall d :: HoldsSet(p, d) && Trustworthy(d, r, o) ==>
              result.newestValidAgeHours.Some? && result.newestValidAgeHours.value <= AgeOf(d, o.now).value
    ensures result.newestValidAgeHours.Some? ==>
              exists d :: HoldsSet(p, d) && Trustworthy(d, r, o) && AgeOf(d, o.now) == result.newestValidAgeHours
  {
    var dirs := CollectSetDirs(p);
    if |dirs| == 0 {
      var expected := o.maxAgeHours.Some?;
      return RootResult(if expected then Stale else RootFailed, expected, None, 0);
    }
    assert HoldsSet(p, dirs[0]) by { assert dirs[0] in dirs; }
    var anyFailed, anyWarned, validAges := VerifySets(dirs, r, o);
    var stale, newest := EvaluateStaleness(validAges, o.maxAgeHours);
    AgesDecide(p, dirs, r, o, validAges);
    var status := if anyFailed then RootFailed else if anyWarned then RootWarned else RootPassed;
    if stale { status := Stale; }
    return RootResult(status, stale, newest, |dirs|);
  }

  /** The collected ages are exactly those of the path's trustworthy sets, and none is negative. */
  lemma AgesDecide(p: BackupPath, dirs: seq<BackupDir>, r: Runtime, o: Options, validAges: seq<Option<real>>)
    requires forall d :: d in dirs <==> HoldsSet(p, d)
    requires forall a :: a in validAges <==> ValidAge(dirs, r, o, a)
    ensures forall d :: HoldsSet(p, d) && Trustworthy(d, r, o) ==>
              AgeOf(d, o.now) in validAges && AgeOf(d, o.now).Some? && AgeOf(d, o.now).value >= 0.0
    ensures forall a :: a in validAges ==> exists d :: HoldsSet(p, d) && Trustworthy(d, r, o) && AgeOf(d, o.now) == a
    ensures forall w :: (exists a :: Some(a) in validAges && a >= 0.0 && a <= w) <==> FreshEnough(p, r, o, w)
  {
    forall d | HoldsSet(p, d) && Trustworthy(d, r, o)
      ensures AgeOf(d, o.now) in validAges && AgeOf(d, o.now).Some? && AgeOf(d, o.now).value >= 0.0
    {
      assert ValidAge(dirs, r, o, AgeOf(d, o.now));
    }
    forall a | a in validAges ensures exists d :: HoldsSet(p, d) && Trustworthy(d, r, o) && AgeOf(d, o.now) == a {
      var d :| d in dirs && Trustworthy(d, r, o) && AgeOf(d, o.now) == a;
      assert HoldsSet(p, d);
    }
    forall w ensures (exists a :: Some(a) in validAges && a >= 0.0 && a <= w) <==> FreshEnough(p, r, o, w) {
      if FreshEnough(p, r, o, w) {
        var d :| HoldsSet(p, d) && Trustworthy(d, r, o) && AgeOf(d, o.now).Some? && AgeOf(d, o.now).value <= w;
        assert Some(AgeOf(d, o.now).value) in validAges;
      }
    }
  }
}
