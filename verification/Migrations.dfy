/**
 * Backup compatibility (scripts/backup-lib.ts): when a database that applied
 * one list of migrations can be restored into a repository that has another,
 * and how contract versions compare.
 */
module Migrations {
  import opened Wrappers
  import opened Sorting
  import opened Text

  datatype MigrationCompat = Equal | RestorableWithMigrations | UnknownMigrations | IncompatibleInterleaved

  /** Known duplicate ledger rows and the canonical names they double. */
  const LEGACY_REPLACEMENTS: map<string, string> :=
    map["005_fts_hybrid" := "005_fts_hybrid.sql", "010_chunking.sql" := "011_chunking.sql"]

  /** No name repeats, and a legacy row stands beside its canonical name on both sides. */
  ghost predicate Normalizable(applied: seq<string>, repo: seq<string>) {
    && NoDuplicates(applied) && NoDuplicates(repo)
    && forall f :: f in applied && f in LEGACY_REPLACEMENTS ==>
         LEGACY_REPLACEMENTS[f] in repo && LEGACY_REPLACEMENTS[f] in applied
  }

  /** What was applied, legacy rows set aside. */
  function Normal(applied: seq<string>): set<string> {
    set f | f in applied && f !in LEGACY_REPLACEMENTS
  }

  method NormalizeAppliedMigrationHistory(applied: seq<string>, repo: seq<string>) returns (r: Option<seq<string>>)
    ensures r.Some? <==> Normalizable(applied, repo)
    ensures r.Some? ==>
              Sorted(r.value, StrLeq) && NoDuplicates(r.value) && forall f :: f in r.value <==> f in Normal(applied)
  {
    var appliedSet, repoSet := set f | f in applied, set f | f in repo;
    DistinctSize(applied);
    DistinctSize(repo);
    if |appliedSet| != |applied| || |repoSet| != |repo| { return None; }
    var normalized: seq<string> := [];
    for i := 0 to |applied|
      invariant NoDuplicates(normalized)
      invariant forall f :: f in normalized <==> f in applied[..i] && f !in LEGACY_REPLACEMENTS
      invariant forall f :: f in applied[..i] && f in LEGACY_REPLACEMENTS ==>
                  LEGACY_REPLACEMENTS[f] in repo && LEGACY_REPLACEMENTS[f] in applied
    {
      var file := applied[i];
      assert applied[..i + 1] == applied[..i] + [file];
      if file in LEGACY_REPLACEMENTS {
        var replacement := LEGACY_REPLACEMENTS[file];
        if replacement !in repoSet || replacement !in appliedSet { return None; }
        continue;
      }
      assert file !in normalized;
      normalized := normalized + [file];
    }
    StrLeqOrder();
    SortKeepsDistinct(normalized, StrLeq);
    return Some(Sort(normalized, StrLeq));
  }

  /** Every repository migration below an applied one was applied too. */
  ghost predicate GapFree(applied: set<string>, repo: seq<string>) {
    forall r, n :: r in repo && n in applied && StrLess(r, n) ==> r in applied
  }

  ghost predicate Known(applied: seq<string>, repo: seq<string>) {
    Normalizable(applied, repo) && forall f :: f in Normal(applied) ==> f in repo
  }

  /** What may be restored: a known history without gaps. */
  ghost predicate Accepted(applied: seq<string>, repo: seq<string>) {
    Known(applied, repo) && GapFree(Normal(applied), repo)
  }

  lemma StrictlySorted(s: seq<string>, i: nat, j: nat)
    requires Sorted(s, StrLeq) && NoDuplicates(s) && i < |s| && j < |s|
    ensures StrLess(s[i], s[j]) <==> i < j
  {
    StrLeqTotal(s[i], s[j]);
  }

  lemma SubsetIsShorter(a: seq<string>, b: seq<string>)
    requires NoDuplicates(a) && NoDuplicates(b) && forall f :: f in a ==> f in b
    ensures |a| <= |b|
    ensures |a| == |b| ==> forall f :: f in b ==> f in a
  {
    DistinctSize(a);
    DistinctSize(b);
    var sa, sb := set f | f in a, set f | f in b;
    assert sb == sa + (sb - sa) && |sb| == |sa| + |sb - sa|;
    if |a| == |b| {
      forall f | f in b ensures f in a { assert f !in sb - sa; }
    }
  }

  /** Sorted, the applied list is a prefix of the repository's exactly when it has no gap. */
  lemma PrefixIsGapFree(a: seq<string>, b: seq<string>)
    requires Sorted(a, StrLeq) && NoDuplicates(a) && Sorted(b, StrLeq) && NoDuplicates(b)
    requires |a| <= |b| && forall f :: f in a ==> f in b
    ensures a <= b <==> GapFree((set f | f in a), b)
  {
    var applied := set f | f in a;
    if a <= b {
      forall r, n | r in b && n in applied && StrLess(r, n) ensures r in applied {
        var k :| 0 <= k < |b| && b[k] == r;
        var j :| 0 <= j < |a| && a[j] == n;
        StrictlySorted(b, k, j);
        assert a[k] == r;
      }
    }
    if GapFree(applied, b) {
      NoGapMatches(a, b, |a|);
      assert a == b[..|a|];
    }
  }

  lemma {:induction false} NoGapMatches(a: seq<string>, b: seq<string>, i: nat)
    requires Sorted(a, StrLeq) && NoDuplicates(a) && Sorted(b, StrLeq) && NoDuplicates(b)
    requires i <= |a| <= |b| && (forall f :: f in a ==> f in b) && GapFree((set f | f in a), b)
    ensures forall j :: 0 <= j < i ==> a[j] == b[j]
  {
    if i > 0 {
      NoGapMatches(a, b, i - 1);
      var at := i - 1;
      assert a[at] in b;
      var k :| 0 <= k < |b| && b[k] == a[at];
      if at < k {
        StrictlySorted(b, at, k);
        assert b[at] in b && b[at] in a;
        var m :| 0 <= m < |a| && a[m] == b[at];
        StrictlySorted(a, m, at);
        assert false;
      }
    }
  }

  /** `sorted` is `list` sorted, without repeats. */
  ghost predicate SortedOf(sorted: seq<string>, members: set<string>) {
    Sorted(sorted, StrLeq) && NoDuplicates(sorted) && forall f :: f in sorted <==> f in members
  }

  method SortRepo(repo: seq<string>) returns (sorted: seq<string>)
    requires NoDuplicates(repo)
    ensures SortedOf(sorted, set f | f in repo)
  {
    StrLeqOrder();
    SortKeepsDistinct(repo, StrLeq);
    return Sort(repo, StrLeq);
  }

  /** What comparing the two sorted lists position by position decides. */
  lemma SortedDecides(a: seq<string>, b: seq<string>, applied: set<string>, repo: seq<string>)
    requires SortedOf(a, applied) && SortedOf(b, set f | f in repo) && forall f :: f in applied ==> f in repo
    ensures |a| <= |b| && (a <= b <==> GapFree(applied, repo))
    ensures a <= b ==> (|a| == |b| <==> forall f :: f in repo ==> f in applied)
  {
    SubsetIsShorter(a, b);
    PrefixIsGapFree(a, b);
    assert (set f | f in a) == applied;
    if forall f :: f in repo ==> f in applied { SubsetIsShorter(b, a); }
  }

  method CompareMigrationSets(backupApplied: seq<string>, repo: seq<string>) returns (r: MigrationCompat)
    ensures r.UnknownMigrations? <==> !Known(backupApplied, repo)
    ensures r.IncompatibleInterleaved? <==> Known(backupApplied, repo) && !Accepted(backupApplied, repo)
    ensures r.Equal? <==> Accepted(backupApplied, repo) && forall f :: f in repo ==> f in Normal(backupApplied)
  {
    var normalized := NormalizeAppliedMigrationHistory(backupApplied, repo);
    if normalized.None? { return UnknownMigrations; }
    var backupSorted := normalized.value;
    var repoSorted := SortRepo(repo);
    for i := 0 to |backupSorted|
      invariant forall j :: 0 <= j < i ==> backupSorted[j] in repo
    {
      if backupSorted[i] !in repoSorted {
        assert backupSorted[i] in Normal(backupApplied);
        return UnknownMigrations;
      }
    }
    SortedDecides(backupSorted, repoSorted, Normal(backupApplied), repo);
    for i := 0 to |backupSorted|
      invariant forall j :: 0 <= j < i ==> backupSorted[j] == repoSorted[j]
    {
      if backupSorted[i] != repoSorted[i] { return IncompatibleInterleaved; }
    }
    return if |backupSorted| == |repoSorted| then Equal else RestorableWithMigrations;
  }

  /** The two legacy rows count only beside their canonical names, and then for nothing. */
  lemma LegacyRowsExactly(applied: seq<string>, repo: seq<string>)
    ensures Normal(applied) == set f | f in applied && f != "005_fts_hybrid" && f != "010_chunking.sql"
    ensures Normalizable(applied, repo) <==>
              && NoDuplicates(applied) && NoDuplicates(repo)
              && ("005_fts_hybrid" in applied ==> "005_fts_hybrid.sql" in repo && "005_fts_hybrid.sql" in applied)
              && ("010_chunking.sql" in applied ==> "011_chunking.sql" in repo && "011_chunking.sql" in applied)
  {
    assert |"005_fts_hybrid"| != |"010_chunking.sql"|;
    assert "005_fts_hybrid" in LEGACY_REPLACEMENTS && "010_chunking.sql" in LEGACY_REPLACEMENTS;
  }

  /** Whatever is still pending sorts after everything applied. */
  lemma PendingSortsAfter(applied: seq<string>, repo: seq<string>, done: string, pending: string)
    requires Accepted(applied, repo) && done in Normal(applied) && pending in repo && pending !in Normal(applied)
    ensures StrLess(done, pending)
  {
    StrLeqTotal(done, pending);
  }

  /** Whether migrations are unknown, interleaved, equal or restorable does not depend on the order of either list. */
  lemma InputOrderIgnored(applied: seq<string>, applied': seq<string>, repo: seq<string>, repo': seq<string>)
    requires multiset(applied) == multiset(applied') && multiset(repo) == multiset(repo')
    ensures Known(applied, repo) <==> Known(applied', repo')
    ensures Accepted(applied, repo) <==> Accepted(applied', repo')
    ensures Normal(applied) == Normal(applied')
    ensures (forall f :: f in repo ==> f in Normal(applied)) <==> (forall f :: f in repo' ==> f in Normal(applied'))
  {
    NoDuplicatesIsBag(applied);
    NoDuplicatesIsBag(applied');
    NoDuplicatesIsBag(repo);
    NoDuplicatesIsBag(repo');
    forall f ensures (f in applied <==> f in applied') && (f in repo <==> f in repo') {
      assert f in applied <==> f in multiset(applied);
      assert f in applied' <==> f in multiset(applied');
      assert f in repo <==> f in multiset(repo);
      assert f in repo' <==> f in multiset(repo');
    }
  }

  /** What restores into one repository, whose own history restores into another, restores into that one. */
  lemma AcceptanceComposes(applied: seq<string>, middle: seq<string>, repo: seq<string>)
    requires Accepted(applied, middle) && Accepted(middle, repo)
    ensures Accepted(applied, repo)
  {
    forall f | f in Normal(applied) ensures f in Normal(middle) && f in repo {
      assert f in middle;
    }
    forall f | f in applied && f in LEGACY_REPLACEMENTS ensures LEGACY_REPLACEMENTS[f] in repo {
      assert LEGACY_REPLACEMENTS[f] in middle && LEGACY_REPLACEMENTS[f] !in LEGACY_REPLACEMENTS;
      assert LEGACY_REPLACEMENTS[f] in Normal(middle);
    }
  }

  // --- Contract versions, date.family.vN ---

  datatype ContractVersion = ContractVersion(date: string, family: string, rev: nat)

  datatype ContractCompat = SameContract | OlderContract | NewerContract | UnparseableContract

  predicate AllDigits(s: string) { forall c :: c in s ==> Digit(c) }

  function DigitsValue(s: string): nat
    requires AllDigits(s)
  {
    if s == [] then 0
    else
      assert s[|s| - 1] in s;
      10 * DigitsValue(s[..|s| - 1]) + (s[|s| - 1] as int - '0' as int)
  }

  predicate DateShaped(s: string) {
    |s| == 10 && AllDigits(s[..4]) && s[4] == '-' && AllDigits(s[5..7]) && s[7] == '-' && AllDigits(s[8..])
  }

  /** The position of the last dot, which starts the revision: digits hold no dot. */
  function LastDot(s: string): (at: Option<nat>)
    ensures at.Some? ==> at.value < |s| && s[at.value] == '.' && '.' !in s[at.value + 1..]
    ensures at.None? ==> '.' !in s
  {
    if s == [] then None
    else if s[|s| - 1] == '.' then Some(|s| - 1)
    else LastDot(s[..|s| - 1])
  }

  function ParseContractVersion(version: string): Option<ContractVersion> {
    if |version| < 11 || !DateShaped(version[..10]) || version[10] != '.' then None
    else
      var rest := version[11..];
      match LastDot(rest)
      case None => None
      case Some(at) =>
        var family, rev := rest[..at], rest[at + 1..];
        if family == "" || (exists c :: c in family && LineBreak(c)) then None
        else if |rev| < 2 || rev[0] != 'v' || !AllDigits(rev[1..]) then None
        else Some(ContractVersion(version[..10], family, DigitsValue(rev[1..])))
  }

  /** Two parsed versions compare within one family, by date and then revision. */
  function CompareParsed(b: ContractVersion, c: ContractVersion): ContractCompat {
    if b.family != c.family then UnparseableContract
    else if b.date != c.date then (if StrLess(b.date, c.date) then OlderContract else NewerContract)
    else if b.rev == c.rev then SameContract
    else if b.rev < c.rev then OlderContract else NewerContract
  }

  function CompareContractVersions(backup: string, current: string): ContractCompat {
    if backup == current then SameContract
    else
      match (ParseContractVersion(backup), ParseContractVersion(current))
      case (Some(b), Some(c)) => CompareParsed(b, c)
      case _ => UnparseableContract
  }

  function Mirror(c: ContractCompat): ContractCompat {
    match c case OlderContract => NewerContract case NewerContract => OlderContract case _ => c
  }

  lemma ParsedMirror(a: ContractVersion, b: ContractVersion)
    ensures CompareParsed(b, a) == Mirror(CompareParsed(a, b))
  {
    StrLeqTotal(a.date, b.date);
  }

  /** Swapping the versions swaps older and newer and nothing else. */
  lemma ContractsMirror(a: string, b: string)
    ensures CompareContractVersions(b, a) == Mirror(CompareContractVersions(a, b))
  {
    var pa, pb := ParseContractVersion(a), ParseContractVersion(b);
    if pa.Some? && pb.Some? { ParsedMirror(pa.value, pb.value); }
  }

  predicate NoNewer(c: ContractCompat) { c.SameContract? || c.OlderContract? }

  lemma ParsedAreOrdered(a: ContractVersion, b: ContractVersion, c: ContractVersion)
    requires NoNewer(CompareParsed(a, b)) && NoNewer(CompareParsed(b, c))
    ensures NoNewer(CompareParsed(a, c))
    ensures CompareParsed(a, c).SameContract? <==>
              CompareParsed(a, b).SameContract? && CompareParsed(b, c).SameContract?
  {
    if StrLeq(a.date, b.date) && StrLeq(b.date, c.date) { StrLeqTransitive(a.date, b.date, c.date); }
    StrLeqTotal(a.date, b.date);
  }

  /** Within a family, "equal or older" is a total order up to equal dates and revisions. */
  lemma ContractsAreOrdered(a: string, b: string, c: string)
    requires NoNewer(CompareContractVersions(a, b)) && NoNewer(CompareContractVersions(b, c))
    ensures NoNewer(CompareContractVersions(a, c))
    ensures CompareContractVersions(a, c).SameContract? <==>
            CompareContractVersions(a, b).SameContract? && CompareContractVersions(b, c).SameContract?
  {
    var pa, pb, pc := ParseContractVersion(a), ParseContractVersion(b), ParseContractVersion(c);
    if a != b && b != c {
      ParsedAreOrdered(pa.value, pb.value, pc.value);
      ParsedMirror(pa.value, pc.value);
    }
  }
}
