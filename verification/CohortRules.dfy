/**
 * A frozen cohort by the rows themselves: which are drawn and in which order,
 * how many there are, which neighbours come in and how the rows are numbered.
 */
module CohortRules {
  import opened Wrappers
  import opened Sorting
  import opened Cohort

  // --- The draw, row by row ---

  /** Position `j` of stratum `i` lies below the fraction of the stratum. */
  ghost predicate Below(strata: seq<seq<string>>, fraction: real, i: int, j: int) {
    0 <= i < |strata| && 0 <= j < |strata[i]| && (j as real) < fraction * (|strata[i]| as real)
  }

  lemma ShareReaches(count: nat, fraction: real, j: nat)
    requires j < count
    ensures j < StratumShare(count, fraction) <==> (j as real) < fraction * (count as real)
  {
    var x := fraction * (count as real);
    assert j < Ceil(x) <==> (j as real) < x;
  }

  lemma StratumDraws(ids: seq<string>, fraction: real, j: nat)
    requires j < |ids|
    ensures var drawn := DrawStratum(ids, fraction);
            && |drawn| <= |ids| && (j < |drawn| <==> (j as real) < fraction * (|ids| as real))
            && (j < |drawn| ==> drawn[j] == ids[j])
  {
    ShareReaches(|ids|, fraction, j);
  }

  function Flatten(parts: seq<seq<string>>): seq<string> {
    if parts == [] then [] else Flatten(parts[..|parts| - 1]) + parts[|parts| - 1]
  }

  lemma {:induction false} FlatInOrder(parts: seq<seq<string>>, i: nat, j: nat)
    requires i < |parts| && j < |parts[i]|
    ensures var from, all := |Flatten(parts[..i])|, Flatten(parts);
            from + j < |all| && all[from + j] == parts[i][j]
  {
    var init := parts[..|parts| - 1];
    if i < |init| {
      assert parts[..i] == init[..i];
      FlatInOrder(init, i, j);
    } else {
      assert parts[..i] == init;
    }
  }

  lemma {:induction false} FlatFrom(parts: seq<seq<string>>, p: nat) returns (i: nat, j: nat)
    requires p < |Flatten(parts)|
    ensures i < |parts| && j < |parts[i]| && parts[i][j] == Flatten(parts)[p] && p == |Flatten(parts[..i])| + j
  {
    var init := parts[..|parts| - 1];
    if p < |Flatten(init)| {
      i, j := FlatFrom(init, p);
      assert parts[..i] == init[..i];
    } else {
      i, j := |init|, p - |Flatten(init)|;
      assert parts[..i] == init;
    }
  }

  /** What each stratum gives. */
  function Parts(strata: seq<seq<string>>, fraction: real): (r: seq<seq<string>>)
    ensures |r| == |strata| && forall i :: 0 <= i < |strata| ==> r[i] == DrawStratum(strata[i], fraction)
  {
    seq(|strata|, i requires 0 <= i < |strata| => DrawStratum(strata[i], fraction))
  }

  lemma {:induction false} DrawIsFlat(strata: seq<seq<string>>, fraction: real)
    ensures DrawAll(strata, fraction) == Flatten(Parts(strata, fraction))
  {
    if strata != [] {
      var init := strata[..|strata| - 1];
      DrawIsFlat(init, fraction);
      assert Parts(strata, fraction)[..|strata| - 1] == Parts(init, fraction);
    }
  }

  lemma PartsOfPrefix(strata: seq<seq<string>>, fraction: real, i: nat)
    requires i <= |strata|
    ensures Parts(strata[..i], fraction) == Parts(strata, fraction)[..i]
  {
  }

  /** A stratum's rows are drawn from its first on, after all that the strata before it gave. */
  lemma DrawnInOrder(strata: seq<seq<string>>, fraction: real, i: nat, j: nat)
    requires Below(strata, fraction, i, j)
    ensures var from, all := |DrawAll(strata[..i], fraction)|, DrawAll(strata, fraction);
            from + j < |all| && all[from + j] == strata[i][j]
  {
    DrawIsFlat(strata, fraction);
    DrawIsFlat(strata[..i], fraction);
    PartsOfPrefix(strata, fraction, i);
    StratumDraws(strata[i], fraction, j);
    FlatInOrder(Parts(strata, fraction), i, j);
  }

  /** And whatever is drawn stands at such a position. */
  lemma DrawnFrom(strata: seq<seq<string>>, fraction: real, p: nat) returns (i: nat, j: nat)
    requires p < |DrawAll(strata, fraction)|
    ensures Below(strata, fraction, i, j) && strata[i][j] == DrawAll(strata, fraction)[p]
    ensures p == |DrawAll(strata[..i], fraction)| + j
  {
    DrawIsFlat(strata, fraction);
    i, j := FlatFrom(Parts(strata, fraction), p);
    DrawIsFlat(strata[..i], fraction);
    PartsOfPrefix(strata, fraction, i);
    DrawnWithin(strata[i], fraction, j);
  }

  lemma DrawnWithin(ids: seq<string>, fraction: real, j: nat)
    requires j < |DrawStratum(ids, fraction)|
    ensures j < |ids| && (j as real) < fraction * (|ids| as real) && DrawStratum(ids, fraction)[j] == ids[j]
  {
    if ids != [] { StratumDraws(ids, fraction, if j < |ids| then j else 0); }
  }

  /** A row is drawn exactly when it stands in some stratum below that stratum's fraction. */
  lemma DrawnExactly(db: Answers, options: Options, id: string)
    ensures id in Drawn(db, options) <==>
              exists i, j :: Below(db.strata, options.fraction, i, j) && db.strata[i][j] == id
  {
    var all := Drawn(db, options);
    if id in all {
      var p :| 0 <= p < |all| && all[p] == id;
      var i, j := DrawnFrom(db.strata, options.fraction, p);
    }
    if i, j :| Below(db.strata, options.fraction, i, j) && db.strata[i][j] == id {
      DrawnInOrder(db.strata, options.fraction, i, j);
    }
  }

  /** No row stands twice, in one stratum or in two. */
  ghost predicate RepeatFree(strata: seq<seq<string>>) {
    forall i, j, k, l ::
      (0 <= i < |strata| && 0 <= j < |strata[i]| && 0 <= k < |strata| && 0 <= l < |strata[k]|
       && strata[i][j] == strata[k][l])
      ==> i == k && j == l
  }

  /** Then no row is drawn twice. */
  lemma DrawIsRepeatFree(db: Answers, options: Options)
    requires RepeatFree(db.strata)
    ensures NoDuplicates(Drawn(db, options))
  {
    var all := Drawn(db, options);
    forall p, q | 0 <= p < q < |all| ensures all[p] != all[q] {
      var i, j := DrawnFrom(db.strata, options.fraction, p);
      var k, l := DrawnFrom(db.strata, options.fraction, q);
    }
  }

  // --- The frozen cohort is large enough ---

  function Rows(strata: seq<seq<string>>): set<string> {
    set i, j | 0 <= i < |strata| && 0 <= j < |strata[i]| :: strata[i][j]
  }

  lemma DisjointSize<T>(a: set<T>, b: set<T>)
    requires a !! b
    ensures |a + b| == |a| + |b|
  {
  }

  lemma {:induction false} RowsCount(strata: seq<seq<string>>)
    requires RepeatFree(strata)
    ensures |Rows(strata)| == TotalRows(Counts(strata))
  {
    if strata == [] {
      assert Rows(strata) == {};
    } else {
      RowsSplit(strata);
      RowsCount(strata[1..]);
      DistinctSize(strata[0]);
      DisjointSize((set id | id in strata[0]), Rows(strata[1..]));
      TotalOfTail(strata);
    }
  }

  lemma TotalOfTail(strata: seq<seq<string>>)
    requires strata != []
    ensures TotalRows(Counts(strata)) == |strata[0]| + TotalRows(Counts(strata[1..]))
  {
    assert Counts(strata)[1..] == Counts(strata[1..]);
  }

  lemma RowsSplit(strata: seq<seq<string>>)
    requires strata != [] && RepeatFree(strata)
    ensures RepeatFree(strata[1..]) && NoDuplicates(strata[0])
    ensures Rows(strata) == (set id | id in strata[0]) + Rows(strata[1..])
    ensures (set id | id in strata[0]) !! Rows(strata[1..])
  {
    var first, rest := strata[0], strata[1..];
    forall id | id in Rows(strata) ensures id in first || id in Rows(rest) {
      var i, j :| 0 <= i < |strata| && 0 <= j < |strata[i]| && strata[i][j] == id;
      assert i > 0 ==> rest[i - 1][j] == id;
    }
    forall id | id in first ensures id in Rows(strata) && id !in Rows(rest) {
      var j :| 0 <= j < |strata[0]| && strata[0][j] == id;
    }
    forall id | id in Rows(rest) ensures id in Rows(strata) {
      var i, j :| 0 <= i < |rest| && 0 <= j < |rest[i]| && rest[i][j] == id;
      assert strata[i + 1][j] == id;
    }
  }

  lemma {:induction false} ImageIsSmaller(rows: set<FrozenRow>)
    ensures |set r | r in rows :: r.candidateId| <= |rows|
    decreases |rows|
  {
    if rows == {} {
      assert (set r | r in rows :: r.candidateId) == {};
    } else {
      var r :| r in rows;
      ImageIsSmaller(rows - {r});
      assert (set x | x in rows :: x.candidateId) == (set x | x in rows - {r} :: x.candidateId) + {r.candidateId};
    }
  }

  lemma FrozenHoldsTheDraw(db: Answers, options: Options, rows: seq<FrozenRow>)
    requires RepeatFree(db.strata) && Merges(MembersOf(db, options), Unnumbered(rows))
    ensures |set r | r in rows && !r.source.Neighbour?| >= |Drawn(db, options)|
  {
    var drawn := Drawn(db, options);
    var own := set r | r in rows && !r.source.Neighbour?;
    DrawIsRepeatFree(db, options);
    DistinctSize(drawn);
    FrozenSources(db, options, rows);
    var ids, images := set id | id in drawn, set r | r in own :: r.candidateId;
    assert ids <= images;
    SubsetSize(ids, images);
    ImageIsSmaller(own);
  }

  /** The drawn and labelled rows of a frozen cohort are at least the fraction of all rows. */
  lemma FrozenIsEnough(db: Answers, options: Options, rows: seq<FrozenRow>)
    requires 0.0 < options.fraction <= 1.0 && RepeatFree(db.strata)
    requires Merges(MembersOf(db, options), Unnumbered(rows))
    ensures |set r | r in rows && !r.source.Neighbour?| as real >= options.fraction * (|Rows(db.strata)| as real)
  {
    var own := set r | r in rows && !r.source.Neighbour?;
    FrozenHoldsTheDraw(db, options, rows);
    DrawnAtLeast(db, options, |own|);
  }

  /** Any number that is at least the draw's is at least the fraction of all rows. */
  lemma DrawnAtLeast(db: Answers, options: Options, own: nat)
    requires 0.0 < options.fraction <= 1.0 && RepeatFree(db.strata) && own >= |Drawn(db, options)|
    ensures own as real >= options.fraction * (|Rows(db.strata)| as real)
  {
    var total := TotalRows(Counts(db.strata));
    assert |Rows(db.strata)| == total by { RowsCount(db.strata); }
    assert Part(options.fraction, total) <= |Drawn(db, options)| as real by { DrawIsEnough(db, options); }
    AtLeastPart(options.fraction, total, |Drawn(db, options)|, own);
  }

  lemma AtLeastPart(fraction: real, rows: nat, drawn: nat, own: nat)
    requires Part(fraction, rows) <= drawn as real && drawn <= own
    ensures own as real >= fraction * (rows as real)
  {
  }

  lemma SubsetSize<T>(a: set<T>, b: set<T>)
    requires a <= b
    ensures |a| <= |b|
  {
    assert a + (b - a) == b;
    DisjointSize(a, b - a);
  }

  /** Each row's source is the strongest claim on it: a label, then the draw, then nearness. */
  lemma SourcesAre(db: Answers, options: Options, rows: seq<FrozenRow>, row: FrozenRow)
    requires Merges(MembersOf(db, options), Unnumbered(rows)) && row in rows
    ensures row.source.Labelled? <==> row.candidateId in db.labelled
    ensures row.source.Draw? <==> row.candidateId in Drawn(db, options) && row.candidateId !in db.labelled
  {
    var members, merged := MembersOf(db, options), Unnumbered(rows);
    FrozenSources(db, options, rows);
    MembersAreCollected(db, options);
    var i :| 0 <= i < |rows| && rows[i] == row;
    assert merged[i] in merged;
    BestIsStrongest(members, row.candidateId);
    var m :| m in members && m.candidateId == row.candidateId && merged[i] == Merged(m);
    if row.candidateId in Drawn(db, options) { assert Member(row.candidateId, Draw, None) in members; }
  }

  /** A label is a stronger claim than the draw, the draw than nearness. */
  ghost predicate Stronger(a: Source, b: Source) {
    (a.Labelled? && !b.Labelled?) || (a.Draw? && b.Neighbour?)
  }

  /** Of a candidate's members the strongest stands, and of the strongest the first. */
  lemma {:induction false} FirstOfStrongestStands(members: seq<Member>, i: nat)
    requires i < |members|
    requires forall j :: 0 <= j < |members| && members[j].candidateId == members[i].candidateId ==>
               !Stronger(members[j].source, members[i].source)
    requires forall j :: 0 <= j < i && members[j].candidateId == members[i].candidateId ==>
               Stronger(members[i].source, members[j].source)
    ensures BestOf(members, members[i].candidateId)
            == Some(Member(members[i].candidateId, members[i].source,
                           if members[i].source.Neighbour? then members[i].neighbourOf else None))
  {
    var init, id := members[..|members| - 1], members[i].candidateId;
    if i < |init| {
      assert init[i] == members[i];
      FirstOfStrongestStands(init, i);
    } else {
      BestIsStrongest(init, id);
      if BestOf(init, id).Some? {
        var m :| m in init && m.candidateId == id && BestOf(init, id).value == Merged(m);
        var j :| 0 <= j < |init| && init[j] == m;
        assert members[j] == m;
      }
    }
  }

  // --- The order of a frozen cohort ---

  /** Labelled rows come first, then the draw, then the neighbours, each by id; ordinals count from one. */
  lemma FrozenInOrder(rows: seq<FrozenRow>, i: nat, j: nat)
    requires Closed(rows) && i < j < |rows|
    ensures rows[i].ordinal == i + 1 && rows[j].ordinal == j + 1
    ensures rows[i].source.Neighbour? ==> rows[j].source.Neighbour?
    ensures rows[i].source.Draw? ==> !rows[j].source.Labelled?
    ensures rows[i].source == rows[j].source ==> StrLess(rows[i].candidateId, rows[j].candidateId)
  {
    var a, b := Member(rows[i].candidateId, rows[i].source, None), Member(rows[j].candidateId, rows[j].source, None);
    assert ByPrecedence(a, b);
  }

  // --- Neighbours ---

  /** The searched rows stand in draw order. */
  lemma {:induction false} AnchorsInOrder(db: Answers, options: Options, drawn: seq<string>, i: nat, j: nat)
    requires i < j < |NeighbourAnchors(db, options, drawn)|
    ensures exists p, q :: 0 <= p < q < |drawn| && drawn[p] == NeighbourAnchors(db, options, drawn)[i]
                           && drawn[q] == NeighbourAnchors(db, options, drawn)[j]
  {
    var init, last := drawn[..|drawn| - 1], drawn[|drawn| - 1];
    var anchors := NeighbourAnchors(db, options, init);
    if j < |anchors| {
      AnchorsInOrder(db, options, init, i, j);
      var p, q :| 0 <= p < q < |init| && init[p] == anchors[i] && init[q] == anchors[j];
      assert drawn[p] == init[p] && drawn[q] == init[q];
    } else {
      AnchorsAre(db, options, init);
      assert anchors[i] in init;
      var p :| 0 <= p < |init| && init[p] == anchors[i];
      assert drawn[p] == init[p] && drawn[|drawn| - 1] == NeighbourAnchors(db, options, drawn)[j];
    }
  }

  /** What is left out of a list, kept in order: `at[k]` is the position of the row at `k`. */
  lemma {:induction false} WithoutKeepsOrder(ids: seq<string>, excluded: set<string>, self: string, k: nat, p: nat)
    requires k < |Without(ids, excluded, self)| && p < |ids|
    requires ids[p] != self && ids[p] !in excluded && ids[p] !in Without(ids, excluded, self)[..k + 1]
    ensures Without(ids, excluded, self)[k] in ids[..p]
  {
    var kept, rest := Without(ids, excluded, self), Without(ids[1..], excluded, self);
    if ids[0] != self && ids[0] !in excluded {
      assert kept == [ids[0]] + rest && kept[0] in kept[..k + 1];
      if p == 0 { assert false; }
      assert ids[0] in ids[..p];
      if k > 0 {
        assert kept[..k + 1] == [ids[0]] + rest[..k];
        WithoutKeepsOrder(ids[1..], excluded, self, k - 1, p - 1);
        assert ids[..p] == [ids[0]] + ids[1..][..p - 1];
      }
    } else {
      assert kept == rest;
      WithoutKeepsOrder(ids[1..], excluded, self, k, p - 1);
      assert ids[..p] == [ids[0]] + ids[1..][..p - 1];
    }
  }

  /** A search takes the nearest rows: one left out stands behind every row taken, and the number is full. */
  lemma NearestComeFirst(db: Answers, options: Options, anchor: string, excluded: set<string>, p: nat, n: string)
    requires anchor in db.near && p < |db.near[anchor]|
    requires var left := db.near[anchor][p];
             left != anchor && left !in excluded && left !in ReadNeighbours(db, options, anchor, excluded)
    requires n in ReadNeighbours(db, options, anchor, excluded)
    ensures n in db.near[anchor][..p] && |ReadNeighbours(db, options, anchor, excluded)| == options.neighbours
  {
    var near, taken := db.near[anchor], ReadNeighbours(db, options, anchor, excluded);
    var kept := Without(near, excluded, anchor);
    WithoutMembers(near, excluded, anchor);
    var k :| 0 <= k < |taken| && taken[k] == n;
    assert taken == kept[..|taken|] && kept[..k + 1] == taken[..k + 1];
    WithoutKeepsOrder(near, excluded, anchor, k, p);
  }
}
