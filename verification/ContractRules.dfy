/**
 * Contract versions by the numbers they print (scripts/backup-lib.ts): which
 * texts are versions, which of two versions of a family is older, and what that
 * makes of a backup set.
 */
module ContractRules {
  import opened Wrappers
  import opened Sorting
  import opened Text
  import opened Migrations
  import opened BackupVerify

  function DigitOf(n: nat): (c: char)
    requires n < 10
    ensures Digit(c) && c as int - '0' as int == n
  {
    ('0' as int + n) as char
  }

  /** The last `width` decimal digits of `n`, padded with zeros. */
  function Padded(n: nat, width: nat): (s: string)
    ensures |s| == width && AllDigits(s)
  {
    if width == 0 then "" else Padded(n / 10, width - 1) + [DigitOf(n % 10)]
  }

  function PowerOfTen(k: nat): nat { if k == 0 then 1 else 10 * PowerOfTen(k - 1) }

  lemma {:induction false} PaddedValue(n: nat, width: nat)
    requires n < PowerOfTen(width)
    ensures DigitsValue(Padded(n, width)) == n
  {
    if width > 0 {
      PaddedValue(n / 10, width - 1);
      var s := Padded(n, width);
      assert s[..|s| - 1] == Padded(n / 10, width - 1);
    }
  }

  lemma PaddedStep(tens: nat, digit: nat, width: nat)
    requires digit < 10 && width > 0
    ensures Padded(10 * tens + digit, width) == Padded(tens, width - 1) + [DigitOf(digit)]
  {
    var n := 10 * tens + digit;
    assert n / 10 == tens && n % 10 == digit;
  }

  lemma {:induction false} ValuePadded(s: string)
    requires AllDigits(s)
    ensures Padded(DigitsValue(s), |s|) == s && DigitsValue(s) < PowerOfTen(|s|)
  {
    if s != "" {
      var init, last := s[..|s| - 1], s[|s| - 1];
      assert s == init + [last] && last in s && forall c :: c in init ==> c in s;
      var tens, digit := DigitsValue(init), last as int - '0' as int;
      ValuePadded(init);
      assert DigitsValue(s) == 10 * tens + digit && DigitOf(digit) == last;
      PaddedStep(tens, digit, |s|);
    }
  }

  /** The decimal digits of a number are read back as that number. */
  lemma {:induction false} DecimalValue(n: nat)
    ensures AllDigits(Decimal(n)) && DigitsValue(Decimal(n)) == n
  {
    var s := Decimal(n);
    if n < 10 {
      assert s[..0] == "";
    } else {
      DecimalValue(n / 10);
      assert s[..|s| - 1] == Decimal(n / 10);
    }
  }

  /** Leading zeros do not matter. */
  lemma {:induction false} LeadingZero(s: string)
    requires AllDigits(s)
    ensures AllDigits("0" + s) && DigitsValue("0" + s) == DigitsValue(s)
  {
    var t := "0" + s;
    if s == "" {
      assert t[..0] == "";
    } else {
      assert s[|s| - 1] in s && forall c :: c in s[..|s| - 1] ==> c in s;
      LeadingZero(s[..|s| - 1]);
      assert t[..|t| - 1] == "0" + s[..|s| - 1];
    }
  }

  /** A date as printed: four digits of year, two of month, two of day. */
  function DateText(year: nat, month: nat, day: nat): string {
    Padded(year, 4) + "-" + (Padded(month, 2) + "-" + Padded(day, 2))
  }

  /** `version` is date.family.vN, `rev` its revision digits. */
  ghost predicate Spells(version: string, year: nat, month: nat, day: nat, family: string, rev: string) {
    && version == DateText(year, month, day) + "." + family + ".v" + rev
    && year < 10_000 && month < 100 && day < 100
    && family != "" && (forall c :: c in family ==> !LineBreak(c))
    && rev != "" && AllDigits(rev)
  }

  lemma PartsOfDate(year: nat, month: nat, day: nat)
    ensures var d := DateText(year, month, day);
            && |d| == 10 && d[..4] == Padded(year, 4) && d[4] == '-' && d[5..7] == Padded(month, 2) && d[7] == '-'
            && d[8..] == Padded(day, 2)
  {
  }

  lemma ShapedIsDate(d: string) returns (year: nat, month: nat, day: nat)
    requires DateShaped(d)
    ensures d == DateText(year, month, day) && year < 10_000 && month < 100 && day < 100
  {
    year, month, day := DigitsValue(d[..4]), DigitsValue(d[5..7]), DigitsValue(d[8..]);
    ValuePadded(d[..4]);
    ValuePadded(d[5..7]);
    ValuePadded(d[8..]);
    assert PowerOfTen(2) == 100 && PowerOfTen(4) == 100 * PowerOfTen(2);
    assert d == d[..4] + [d[4]] + d[5..7] + [d[7]] + d[8..];
  }

  lemma {:induction false} LastDotStarts(a: string, tail: string)
    requires '.' !in tail
    ensures LastDot(a + "." + tail) == Some(|a|)
  {
    var s := a + "." + tail;
    if tail == "" {
      assert s[|s| - 1] == '.';
    } else {
      var init := tail[..|tail| - 1];
      assert s[..|s| - 1] == a + "." + init && s[|s| - 1] == tail[|tail| - 1] && tail[|tail| - 1] in tail;
      LastDotStarts(a, init);
    }
  }

  /** A date, a dot, and what follows are read back by position. */
  lemma PartsOfVersion(date: string, family: string, rev: string)
    requires |date| == 10
    ensures var version, rest := date + "." + family + ".v" + rev, family + "." + ("v" + rev);
            && version[..10] == date && version[10] == '.' && version[11..] == rest
            && rest[..|family|] == family && rest[|family| + 1..] == "v" + rev
            && ("v" + rev)[0] == 'v' && ("v" + rev)[1..] == rev
  {
    var version, rest := date + "." + family + ".v" + rev, family + "." + ("v" + rev);
    assert version == date + ("." + rest);
  }

  /** A version is read back as its date, family and revision. */
  lemma SpelledParses(version: string, year: nat, month: nat, day: nat, family: string, rev: string)
    requires Spells(version, year, month, day, family, rev)
    ensures ParseContractVersion(version)
         == Some(ContractVersion(DateText(year, month, day), family, DigitsValue(rev)))
  {
    var date := DateText(year, month, day);
    assert DateShaped(date) by { PartsOfDate(year, month, day); }
    PartsParse(date, family, rev);
  }

  lemma PartsParse(date: string, family: string, rev: string)
    requires DateShaped(date) && family != "" && (forall c :: c in family ==> !LineBreak(c))
    requires rev != "" && AllDigits(rev)
    ensures ParseContractVersion(date + "." + family + ".v" + rev)
         == Some(ContractVersion(date, family, DigitsValue(rev)))
  {
    PartsOfVersion(date, family, rev);
    assert LastDot(family + "." + ("v" + rev)) == Some(|family|) by { LastDotStarts(family, "v" + rev); }
  }

  /** And nothing else is read as a version. */
  lemma ParsedIsSpelled(version: string)
    requires ParseContractVersion(version).Some?
    ensures var v := ParseContractVersion(version).value;
            exists year, month, day, rev ::
              Spells(version, year, month, day, v.family, rev)
              && v.date == DateText(year, month, day) && v.rev == DigitsValue(rev)
  {
    var v := ParseContractVersion(version).value;
    var at := LastDot(version[11..]).value;
    var rev := version[11..][at + 2..];
    var year, month, day := ShapedIsDate(version[..10]);
    PutTogether(version, at);
    assert version[11..][at + 1..][1..] == rev;
    assert Spells(version, year, month, day, v.family, rev);
  }

  lemma PutTogether(version: string, at: nat)
    requires |version| >= 11 && version[10] == '.'
    requires at + 1 < |version[11..]| && version[11..][at] == '.' && version[11..][at + 1] == 'v'
    ensures version == version[..10] + "." + version[11..][..at] + ".v" + version[11..][at + 2..]
  {
    var rest := version[11..];
    assert version == version[..10] + [version[10]] + rest;
    assert rest == rest[..at] + [rest[at], rest[at + 1]] + rest[at + 2..];
  }

  // --- Order ---

  lemma HeadsDecide(c: char, d: char, s: string, t: string)
    ensures StrLeq([c] + s, [d] + t) <==> c < d || (c == d && StrLeq(s, t))
  {
    assert ([c] + s)[1..] == s && ([d] + t)[1..] == t;
  }

  lemma HeadFirst(p: string, s: string)
    requires p != ""
    ensures p + s == [p[0]] + (p[1..] + s) && p == [p[0]] + p[1..]
  {
  }

  lemma SameHeads(p: string, q: string)
    requires p != "" && |p| == |q|
    ensures p == q <==> p[0] == q[0] && p[1..] == q[1..]
    ensures StrLeq(p, q) <==> p[0] < q[0] || (p[0] == q[0] && StrLeq(p[1..], q[1..]))
  {
    HeadFirst(p, "");
    HeadFirst(q, "");
  }

  lemma {:induction false} LeqByParts(p: string, q: string, s: string, t: string)
    requires |p| == |q|
    ensures StrLeq(p + s, q + t) <==> if p == q then StrLeq(s, t) else StrLeq(p, q)
  {
    if p == "" {
      assert p + s == s && q + t == t;
    } else {
      LeqByParts(p[1..], q[1..], s, t);
      HeadsDecide(p[0], q[0], p[1..] + s, q[1..] + t);
      HeadFirst(p, s);
      HeadFirst(q, t);
      SameHeads(p, q);
    }
  }

  lemma {:induction false} PaddedOrder(a: nat, b: nat, width: nat)
    requires a < PowerOfTen(width) && b < PowerOfTen(width)
    ensures StrLeq(Padded(a, width), Padded(b, width)) <==> a <= b
    ensures Padded(a, width) == Padded(b, width) <==> a == b
  {
    if width > 0 {
      PaddedOrder(a / 10, b / 10, width - 1);
      LeqByParts(Padded(a / 10, width - 1), Padded(b / 10, width - 1), [DigitOf(a % 10)], [DigitOf(b % 10)]);
      PaddedValue(a, width);
      PaddedValue(b, width);
    }
  }

  ghost predicate EarlierDate(y: nat, m: nat, d: nat, y': nat, m': nat, d': nat) {
    y < y' || (y == y' && (m < m' || (m == m' && d < d')))
  }

  /** Printed dates stand in string order exactly as in time. */
  lemma DatesInOrder(y: nat, m: nat, d: nat, y': nat, m': nat, d': nat)
    requires y < 10_000 && m < 100 && d < 100 && y' < 10_000 && m' < 100 && d' < 100
    ensures StrLess(DateText(y, m, d), DateText(y', m', d')) <==> EarlierDate(y, m, d, y', m', d')
    ensures DateText(y, m, d) == DateText(y', m', d') <==> y == y' && m == m' && d == d'
  {
    assert PowerOfTen(2) == 100 && PowerOfTen(4) == 100 * PowerOfTen(2);
    PaddedOrder(y, y', 4);
    PaddedOrder(m, m', 2);
    PaddedOrder(d, d', 2);
    PartsOfDate(y, m, d);
    PartsOfDate(y', m', d');
    DatesByParts(DateText(y, m, d), DateText(y', m', d'));
  }

  /** Texts of one length compare by a first part, and where that agrees by the rest. */
  lemma LeqBySplit(a: string, b: string, k: nat)
    requires |a| == |b| && k <= |a|
    ensures StrLeq(a, b) <==> if a[..k] == b[..k] then StrLeq(a[k..], b[k..]) else StrLeq(a[..k], b[..k])
    ensures a == b <==> a[..k] == b[..k] && a[k..] == b[k..]
  {
    assert a == a[..k] + a[k..] && b == b[..k] + b[k..];
    LeqByParts(a[..k], b[..k], a[k..], b[k..]);
  }

  /** A separator that both texts have at the same place is passed over. */
  lemma LeqAcross(a: string, b: string, k: nat)
    requires |a| == |b| && k < |a| && a[k] == b[k]
    ensures StrLeq(a, b) <==> if a[..k] == b[..k] then StrLeq(a[k + 1..], b[k + 1..]) else StrLeq(a[..k], b[..k])
    ensures a == b <==> a[..k] == b[..k] && a[k + 1..] == b[k + 1..]
  {
    LeqBySplit(a, b, k);
    SameHeads(a[k..], b[k..]);
    assert a[k..][1..] == a[k + 1..] && b[k..][1..] == b[k + 1..];
  }

  lemma DatesByParts(a: string, b: string)
    requires |a| == |b| == 10 && a[4] == b[4] && a[7] == b[7]
    ensures a == b <==> a[..4] == b[..4] && a[5..7] == b[5..7] && a[8..] == b[8..]
    ensures StrLeq(a, b) <==>
              if a[..4] != b[..4] then StrLeq(a[..4], b[..4])
              else if a[5..7] != b[5..7] then StrLeq(a[5..7], b[5..7]) else StrLeq(a[8..], b[8..])
  {
    LeqAcross(a, b, 4);
    LeqAcross(a[5..], b[5..], 2);
    assert a[5..][..2] == a[5..7] && b[5..][..2] == b[5..7] && a[5..][3..] == a[8..] && b[5..][3..] == b[8..];
  }

  /** One version of a family against another: by date, and on one date by revision. */
  lemma VersionsCompare(a: string, b: string, family: string, y: nat, m: nat, d: nat, r: string,
                        y': nat, m': nat, d': nat, r': string)
    requires Spells(a, y, m, d, family, r) && Spells(b, y', m', d', family, r')
    ensures var c, sameDate := CompareContractVersions(a, b), y == y' && m == m' && d == d';
            && (c.SameContract? <==> sameDate && DigitsValue(r) == DigitsValue(r'))
            && (c.OlderContract? <==>
                  EarlierDate(y, m, d, y', m', d') || (sameDate && DigitsValue(r) < DigitsValue(r')))
            && (c.NewerContract? <==>
                  EarlierDate(y', m', d', y, m, d) || (sameDate && DigitsValue(r) > DigitsValue(r')))
  {
    var p, q := ContractVersion(DateText(y, m, d), family, DigitsValue(r)),
                ContractVersion(DateText(y', m', d'), family, DigitsValue(r'));
    assert ParseContractVersion(a) == Some(p) by { SpelledParses(a, y, m, d, family, r); }
    assert ParseContractVersion(b) == Some(q) by { SpelledParses(b, y', m', d', family, r'); }
    assert CompareContractVersions(a, b) == CompareParsed(p, q);
    DatesInOrder(y, m, d, y', m', d');
  }

  /** Texts of two families, or of which one is no version, do not compare unless they are the same text. */
  lemma OthersDoNotCompare(a: string, b: string)
    requires a != b
    requires forall family, y, m, d, r, y', m', d', r' ::
               !(Spells(a, y, m, d, family, r) && Spells(b, y', m', d', family, r'))
    ensures CompareContractVersions(a, b).UnparseableContract?
  {
    if ParseContractVersion(a).Some? && ParseContractVersion(b).Some? {
      ParsedIsSpelled(a);
      ParsedIsSpelled(b);
    }
  }

  /** The set as it would be under another contract version. */
  ghost function Under(d: BackupDir, version: string): BackupDir
    requires d.manifestFile.Good?
  {
    d.(manifestFile := Good(d.manifestFile.manifest.(contractVersion := version)))
  }

  lemma OwnVersionDecidesTheRest(d: BackupDir, r: Runtime, o: Options)
    requires d.manifestFile.Good?
    ensures var own, c := Under(d, r.contractVersion),
                          CompareContractVersions(d.manifestFile.manifest.contractVersion, r.contractVersion);
            && (NoNewer(c) ==> (Trustworthy(d, r, o) <==> Trustworthy(own, r, o)))
            && (!NoNewer(c) ==> !Trustworthy(d, r, o))
            && (!c.OlderContract? ==> (Doubtful(d, r) <==> Doubtful(own, r)))
            && (c.OlderContract? ==> Doubtful(d, r))
  {
    var own := Under(d, r.contractVersion);
    var m, m' := d.manifestFile.manifest, own.manifestFile.manifest;
    assert m'.files == m.files && (InventoryClean(own, m') <==> InventoryClean(d, m));
    assert forall f :: Intact(own, f) <==> Intact(d, f);
    assert forall f :: Drifted(own, f) <==> Drifted(d, f);
  }

  /** A newer set is never trusted; an older one exactly when it would be under the runtime's own version, in doubt. */
  lemma NewerIsNeverTrusted(d: BackupDir, r: Runtime, o: Options, family: string, year: nat, month: nat, day: nat,
                            rev: string, year': nat, month': nat, day': nat, rev': string)
    requires d.manifestFile.Good?
    requires Spells(d.manifestFile.manifest.contractVersion, year, month, day, family, rev)
    requires Spells(r.contractVersion, year', month', day', family, rev')
    ensures var sameDate := year == year' && month == month' && day == day';
            var newer := EarlierDate(year', month', day', year, month, day)
                         || (sameDate && DigitsValue(rev) > DigitsValue(rev'));
            var older := EarlierDate(year, month, day, year', month', day')
                         || (sameDate && DigitsValue(rev) < DigitsValue(rev'));
            && (newer ==> !Trustworthy(d, r, o))
            && (!newer ==> (Trustworthy(d, r, o) <==> Trustworthy(Under(d, r.contractVersion), r, o)))
            && (older ==> Doubtful(d, r))
            && (!older ==> (Doubtful(d, r) <==> Doubtful(Under(d, r.contractVersion), r)))
  {
    OwnVersionDecidesTheRest(d, r, o);
    VersionsCompare(d.manifestFile.manifest.contractVersion, r.contractVersion, family, year, month, day, rev,
                    year', month', day', rev');
  }

  /** Nor is one whose version is of another family, or no version at all, unless it is the runtime's own text. */
  lemma OtherFamilyIsNeverTrusted(d: BackupDir, r: Runtime, o: Options)
    requires d.manifestFile.Good? && d.manifestFile.manifest.contractVersion != r.contractVersion
    requires forall family, y, m, d', rev, y', m', d'', rev' ::
               !(Spells(d.manifestFile.manifest.contractVersion, y, m, d', family, rev)
                 && Spells(r.contractVersion, y', m', d'', family, rev'))
    ensures !Trustworthy(d, r, o)
  {
    OthersDoNotCompare(d.manifestFile.manifest.contractVersion, r.contractVersion);
  }
}
