/**
 * Freezing a route cohort (scripts/dream-route-cohort.ts and
 * scripts/dream-route-selection.ts): a per-stratum draw, a neighbour search
 * around drawn rows, the labelled rows, one merge by precedence, and ordinals.
 * Query answers are inputs; a neighbour query's candidates come ordered by
 * distance and id. The sampling fraction is exact.
 */
module Cohort {
  import opened Wrappers
  import opened Sorting

  datatype Source = Labelled | Draw | Neighbour

  datatype Member = Member(candidateId: string, source: Source, neighbourOf: Option<string>)

  function Precedence(s: Source): nat {
    match s case Labelled => 3 case Draw => 2 case Neighbour => 1
  }

  // --- The draw ---

  function Ceil(x: real): int { -((-x).Floor) }

  function StratumShare(count: nat, fraction: real): int {
    if count == 0 then 0
    else if Ceil(fraction * (count as real)) < count then Ceil(fraction * (count as real)) else count
  }

  function TotalRows(strata: seq<nat>): nat {
    if strata == [] then 0 else strata[0] + TotalRows(strata[1..])
  }

  function TotalShare(strata: seq<nat>, fraction: real): int {
    if strata == [] then 0 else StratumShare(strata[0], fraction) + TotalShare(strata[1..], fraction)
  }

  function NonEmpty(strata: seq<nat>): nat {
    if strata == [] then 0 else (if strata[0] > 0 then 1 else 0) + NonEmpty(strata[1..])
  }

  /** A stratum gives its fraction rounded up: never nothing from something, never more than it has. */
  lemma ShareBounds(count: nat, fraction: real)
    requires 0.0 < fraction <= 1.0
    ensures count > 0 ==> 1 <= StratumShare(count, fraction) <= count
    ensures count > 0 ==> Part(fraction, count) <= StratumShare(count, fraction) as real < Part(fraction, count) + 1.0
  {
    if count > 0 {
      var x := fraction * (count as real);
      assert 0.0 < x <= count as real;
    }
  }

  function Part(fraction: real, rows: nat): real { fraction * (rows as real) }

  lemma PartAdds(fraction: real, a: nat, b: nat)
    ensures Part(fraction, a + b) == Part(fraction, a) + Part(fraction, b)
  {
  }

  /** The shares take at least the fraction. */
  lemma {:induction false} TotalIsEnough(strata: seq<nat>, fraction: real)
    requires 0.0 < fraction <= 1.0
    ensures Part(fraction, TotalRows(strata)) <= TotalShare(strata, fraction) as real
  {
    if strata != [] {
      TotalIsEnough(strata[1..], fraction);
      ShareBounds(strata[0], fraction);
      PartAdds(fraction, strata[0], TotalRows(strata[1..]));
    }
  }

  /** And less than one row per non-empty stratum beyond it; with no such stratum they take nothing. */
  lemma {:induction false} TotalIsTight(strata: seq<nat>, fraction: real)
    requires 0.0 < fraction <= 1.0
    ensures if NonEmpty(strata) == 0 then TotalShare(strata, fraction) == 0 && TotalRows(strata) == 0
            else TotalShare(strata, fraction) as real < Part(fraction, TotalRows(strata)) + NonEmpty(strata) as real
  {
    if strata != [] {
      TotalIsTight(strata[1..], fraction);
      ShareBounds(strata[0], fraction);
      PartAdds(fraction, strata[0], TotalRows(strata[1..]));
    }
  }

  // --- The merge ---

  /** What a member looks like once merged: only a neighbour keeps the row that pulled it in. */
  function Merged(m: Member): Member {
    Member(m.candidateId, m.source, if m.source.Neighbour? then m.neighbourOf else None)
  }

  /** The first member of the strongest source for each candidate. */
  function BestOf(members: seq<Member>, id: string): Option<Member> {
    if members == [] then None
    else
      var earlier, last := BestOf(members[..|members| - 1], id), members[|members| - 1];
      if last.candidateId == id && (earlier.None? || Precedence(last.source) > Precedence(earlier.value.source))
      then Some(Merged(last)) else earlier
  }

  /** Strongest source first, then candidate id. */
  predicate ByPrecedence(a: Member, b: Member) {
    Precedence(a.source) > Precedence(b.source) || (a.source == b.source && StrLeq(a.candidateId, b.candidateId))
  }

  lemma ByPrecedenceOrder()
    ensures TotalPreorder(ByPrecedence)
  {
    StrLeqOrder();
  }

  /** `merged` is one entry per candidate, the best one, in ordinal order. */
  ghost predicate Merges(members: seq<Member>, merged: seq<Member>) {
    && Sorted(merged, ByPrecedence) && NoDuplicates(merged)
    && forall m :: m in merged <==> BestOf(members, m.candidateId) == Some(m)
  }

  /** The best map, and its keys in the order they were first set. */
  method BestByCandidate(members: seq<Member>) returns (best: map<string, Member>, ids: seq<string>)
    ensures NoDuplicates(ids) && forall id :: id in ids <==> id in best
    ensures forall id :: id in best <==> BestOf(members, id).Some?
    ensures forall id :: id in best ==> BestOf(members, id) == Some(best[id]) && best[id].candidateId == id
  {
    best, ids := map[], [];
    for i := 0 to |members|
      invariant NoDuplicates(ids) && forall id :: id in ids <==> id in best
      invariant forall id :: id in best <==> BestOf(members[..i], id).Some?
      invariant forall id :: id in best ==> BestOf(members[..i], id) == Some(best[id]) && best[id].candidateId == id
    {
      assert members[..i + 1][..i] == members[..i];
      var m := members[i];
      if m.candidateId !in best || Precedence(m.source) > Precedence(best[m.candidateId].source) {
        if m.candidateId !in best { ids := ids + [m.candidateId]; }
        best := best[m.candidateId := Merged(m)];
      }
    }
    assert members[..|members|] == members;
  }

  method MergeByPrecedence(members: seq<Member>) returns (merged: seq<Member>)
    ensures Merges(members, merged)
  {
    var best, ids := BestByCandidate(members);
    var values: seq<Member> := [];
    for i := 0 to |ids|
      invariant |values| == i && forall j :: 0 <= j < i ==> values[j] == best[ids[j]]
    {
      values := values + [best[ids[i]]];
    }
    ValuesAreBest(members, best, ids, values);
    return Sort(values, ByPrecedence);
  }

  lemma ValuesAreBest(members: seq<Member>, best: map<string, Member>, ids: seq<string>, values: seq<Member>)
    requires NoDuplicates(ids) && forall id :: id in ids <==> id in best
    requires forall id :: id in best <==> BestOf(members, id).Some?
    requires forall id :: id in best ==> BestOf(members, id) == Some(best[id]) && best[id].candidateId == id
    requires |values| == |ids| && forall j :: 0 <= j < |ids| ==> values[j] == best[ids[j]]
    ensures Merges(members, Sort(values, ByPrecedence))
  {
    ByPrecedenceOrder();
    SortKeepsDistinct(values, ByPrecedence);
    forall m ensures m in values <==> BestOf(members, m.candidateId) == Some(m) {
      if BestOf(members, m.candidateId) == Some(m) {
        assert m.candidateId in ids;
        var k :| 0 <= k < |ids| && ids[k] == m.candidateId;
        assert values[k] == m;
      }
    }
  }

  /** The best member exists for every candidate, is one of them, and no member of the candidate is stronger. */
  lemma {:induction false} BestIsStrongest(members: seq<Member>, id: string)
    ensures var best := BestOf(members, id);
            if best.None? then forall m :: m in members ==> m.candidateId != id
            else && best.value.candidateId == id
                 && (exists m :: m in members && m.candidateId == id && best.value == Merged(m))
                 && forall m :: m in members && m.candidateId == id ==>
                     Precedence(m.source) <= Precedence(best.value.source)
  {
    if members != [] {
      BestIsStrongest(members[..|members| - 1], id);
      assert members == members[..|members| - 1] + [members[|members| - 1]];
    }
  }

  /** Neighbour members of a candidate with nothing stronger name the same row. */
  ghost predicate NeighboursAgree(members: seq<Member>) {
    forall a, b ::
      a in members && b in members && a.candidateId == b.candidateId && a.source.Neighbour? && b.source.Neighbour?
      ==> a.neighbourOf == b.neighbourOf
  }

  /** One set of members merges to one list, however the members are ordered or repeated. */
  lemma MergeIgnoresOrder(a: seq<Member>, b: seq<Member>, ma: seq<Member>, mb: seq<Member>)
    requires (forall m :: m in a <==> m in b) && NeighboursAgree(a)
    requires Merges(a, ma) && Merges(b, mb)
    ensures ma == mb
  {
    forall id ensures BestOf(a, id) == BestOf(b, id) {
      BestIsStrongest(a, id);
      BestIsStrongest(b, id);
    }
    ByPrecedenceOrder();
    SameMembersSameBag(ma, mb);
    forall x, y | x in ma && y in ma && ByPrecedence(x, y) && ByPrecedence(y, x) ensures x == y {
      StrLeqTotal(x.candidateId, y.candidateId);
    }
    SortedIsUnique(ma, mb, ByPrecedence);
  }

  // --- Collecting ---

  /**
   * The answers the freeze reads: the rows of each stratum in draw order, which
   * drawn rows are operator-sourced, the rows near each row (nearest first), the
   * labelled rows, and the rows whose snapshot can be read back.
   */
  datatype Answers = Answers(
    strata: seq<seq<string>>, decided: set<string>, near: map<string, seq<string>>, labelled: seq<string>,
    readable: set<string>)

  datatype Options = Options(fraction: real, allAnchors: bool, neighbours: nat)

  /** A query's answer cut to a limit. */
  function Limit(ids: seq<string>, limit: int): seq<string> {
    if limit <= 0 then [] else if limit <= |ids| then ids[..limit] else ids
  }

  function DrawStratum(ids: seq<string>, fraction: real): seq<string> {
    Limit(ids, StratumShare(|ids|, fraction))
  }

  function DrawAll(strata: seq<seq<string>>, fraction: real): seq<string> {
    if strata == [] then []
    else DrawAll(strata[..|strata| - 1], fraction) + DrawStratum(strata[|strata| - 1], fraction)
  }

  function Drawn(db: Answers, options: Options): seq<string> { DrawAll(db.strata, options.fraction) }

  function Counts(strata: seq<seq<string>>): (r: seq<nat>)
    ensures |r| == |strata| && forall i :: 0 <= i < |strata| ==> r[i] == |strata[i]|
  {
    seq(|strata|, i requires 0 <= i < |strata| => |strata[i]|)
  }

  lemma {:induction false} TotalShareAppend(counts: seq<nat>, n: nat, fraction: real)
    ensures TotalShare(counts + [n], fraction) == TotalShare(counts, fraction) + StratumShare(n, fraction)
  {
    if counts == [] {
      assert counts + [n] == [n];
    } else {
      TotalShareAppend(counts[1..], n, fraction);
      assert (counts + [n])[1..] == counts[1..] + [n];
    }
  }

  lemma {:induction false} DrawnIsTotal(strata: seq<seq<string>>, fraction: real)
    requires 0.0 < fraction <= 1.0
    ensures |DrawAll(strata, fraction)| == TotalShare(Counts(strata), fraction)
  {
    if strata != [] {
      var init, last := strata[..|strata| - 1], strata[|strata| - 1];
      DrawnIsTotal(init, fraction);
      ShareBounds(|last|, fraction);
      assert Counts(strata) == Counts(init) + [|last|];
      TotalShareAppend(Counts(init), |last|, fraction);
    }
  }

  /** The draw takes at least the fraction of all rows. */
  lemma DrawIsEnough(db: Answers, options: Options)
    requires 0.0 < options.fraction <= 1.0
    ensures Part(options.fraction, TotalRows(Counts(db.strata))) <= |Drawn(db, options)| as real
  {
    DrawnIsTotal(db.strata, options.fraction);
    TotalIsEnough(Counts(db.strata), options.fraction);
  }

  /** And less than one row per non-empty stratum beyond it; with no such stratum it takes nothing. */
  lemma DrawIsTight(db: Answers, options: Options)
    requires 0.0 < options.fraction <= 1.0
    ensures var counts := Counts(db.strata);
            if NonEmpty(counts) == 0 then Drawn(db, options) == []
            else |Drawn(db, options)| as real < Part(options.fraction, TotalRows(counts)) + NonEmpty(counts) as real
  {
    DrawnIsTotal(db.strata, options.fraction);
    TotalIsTight(Counts(db.strata), options.fraction);
  }

  function Without(ids: seq<string>, excluded: set<string>, self: string): seq<string> {
    if ids == [] then []
    else (if ids[0] != self && ids[0] !in excluded then [ids[0]] else []) + Without(ids[1..], excluded, self)
  }

  lemma {:induction false} WithoutMembers(ids: seq<string>, excluded: set<string>, self: string)
    ensures forall id :: id in Without(ids, excluded, self) <==> id in ids && id != self && id !in excluded
  {
    if ids != [] {
      WithoutMembers(ids[1..], excluded, self);
      assert ids == [ids[0]] + ids[1..];
    }
  }

  function ReadNeighbours(db: Answers, options: Options, anchor: string, excluded: set<string>): seq<string> {
    var all := if anchor in db.near then Without(db.near[anchor], excluded, anchor) else [];
    if |all| <= options.neighbours then all else all[..options.neighbours]
  }

  lemma ReadNeighboursAreNew(db: Answers, options: Options, anchor: string, excluded: set<string>)
    ensures forall id :: id in ReadNeighbours(db, options, anchor, excluded) ==>
              id !in excluded && id != anchor && anchor in db.near && id in db.near[anchor]
    ensures |ReadNeighbours(db, options, anchor, excluded)| <= options.neighbours
  {
    if anchor in db.near { WithoutMembers(db.near[anchor], excluded, anchor); }
  }

  /** What is collected is a draw, a neighbour of a drawn row that is not itself drawn, or labelled. */
  ghost predicate Collected(db: Answers, members: seq<Member>, drawn: seq<string>) {
    && (forall id :: id in drawn ==> Member(id, Draw, None) in members)
    && (forall m :: m in members ==>
          match m.source
          case Draw => m.candidateId in drawn && m.neighbourOf == None
          case Neighbour =>
            m.neighbourOf.Some? && m.neighbourOf.value in drawn && m.candidateId !in drawn
            && m.neighbourOf.value in db.near && m.candidateId in db.near[m.neighbourOf.value]
          case Labelled => m.candidateId in db.labelled && m.neighbourOf == None)
  }

  /** The drawn rows whose neighbours are searched, in draw order. */
  function NeighbourAnchors(db: Answers, options: Options, drawn: seq<string>): seq<string> {
    if drawn == [] then []
    else
      var init := NeighbourAnchors(db, options, drawn[..|drawn| - 1]);
      if options.allAnchors || drawn[|drawn| - 1] in db.decided then init + [drawn[|drawn| - 1]] else init
  }

  lemma {:induction false} AnchorsAre(db: Answers, options: Options, drawn: seq<string>)
    ensures forall id :: id in NeighbourAnchors(db, options, drawn) <==>
              id in drawn && (options.allAnchors || id in db.decided)
    ensures |NeighbourAnchors(db, options, drawn)| <= |drawn|
  {
    if drawn != [] {
      AnchorsAre(db, options, drawn[..|drawn| - 1]);
      assert drawn == drawn[..|drawn| - 1] + [drawn[|drawn| - 1]];
    }
  }

  /** One member for each id, all of one source and link. */
  function Links(ids: seq<string>, source: Source, neighbourOf: Option<string>): seq<Member> {
    if ids == [] then []
    else Links(ids[..|ids| - 1], source, neighbourOf) + [Member(ids[|ids| - 1], source, neighbourOf)]
  }

  lemma {:induction false} LinksMembers(ids: seq<string>, source: Source, neighbourOf: Option<string>)
    ensures forall m :: m in Links(ids, source, neighbourOf) <==>
              m.candidateId in ids && m == Member(m.candidateId, source, neighbourOf)
    ensures IdsOf(Links(ids, source, neighbourOf)) == set id | id in ids
  {
    if ids != [] {
      LinksMembers(ids[..|ids| - 1], source, neighbourOf);
      assert ids == ids[..|ids| - 1] + [ids[|ids| - 1]];
    }
    forall id | id in ids ensures id in IdsOf(Links(ids, source, neighbourOf)) {
      assert Member(id, source, neighbourOf) in Links(ids, source, neighbourOf);
    }
  }

  function IdsOf(members: seq<Member>): set<string> {
    set m | m in members :: m.candidateId
  }

  /** What the anchors pull in, each excluding all that was drawn or pulled in before it. */
  function Pulled(db: Answers, options: Options, drawn: seq<string>, anchors: seq<string>): seq<Member> {
    if anchors == [] then []
    else
      var before, anchor := Pulled(db, options, drawn, anchors[..|anchors| - 1]), anchors[|anchors| - 1];
      before + Links(ReadNeighbours(db, options, anchor, Excluded(drawn, before)), Neighbour, Some(anchor))
  }

  function Excluded(drawn: seq<string>, before: seq<Member>): set<string> {
    (set id | id in drawn) + IdsOf(before)
  }

  /** The members of a freeze: the draw, its neighbours, the labelled rows. */
  function MembersOf(db: Answers, options: Options): seq<Member> {
    var drawn := Drawn(db, options);
    Links(drawn, Draw, None)
    + Pulled(db, options, drawn, NeighbourAnchors(db, options, drawn))
    + Links(db.labelled, Labelled, None)
  }

  /** Everything pulled in is new, near a drawn row, and pulled in once. */
  lemma {:induction false} PulledAreNew(db: Answers, options: Options, drawn: seq<string>, anchors: seq<string>)
    requires forall a :: a in anchors ==> a in drawn
    ensures var pulled := Pulled(db, options, drawn, anchors);
            && NeighboursAgree(pulled)
            && forall m :: m in pulled ==>
                 m.source.Neighbour? && m.neighbourOf.Some? && m.neighbourOf.value in anchors && m.candidateId !in drawn
                 && m.neighbourOf.value in db.near && m.candidateId in db.near[m.neighbourOf.value]
  {
    if anchors != [] {
      var init, anchor := anchors[..|anchors| - 1], anchors[|anchors| - 1];
      assert anchors == init + [anchor];
      PulledAreNew(db, options, drawn, init);
      var excluded := Excluded(drawn, Pulled(db, options, drawn, init));
      ReadNeighboursAreNew(db, options, anchor, excluded);
      LinksMembers(ReadNeighbours(db, options, anchor, excluded), Neighbour, Some(anchor));
    }
  }

  /** No searched row is cut short: each row near it is drawn or pulled in, unless it pulled in its full number. */
  lemma {:induction false} NearRowsTaken(db: Answers, options: Options, drawn: seq<string>, anchors: seq<string>,
                                         k: nat, id: string)
    requires k < |anchors| && anchors[k] in db.near && id in db.near[anchors[k]] && id != anchors[k]
    ensures var before := Pulled(db, options, drawn, anchors[..k]);
            var at := ReadNeighbours(db, options, anchors[k], Excluded(drawn, before));
            && (id in drawn || id in IdsOf(Pulled(db, options, drawn, anchors)) || |at| == options.neighbours)
            && forall n :: n in at ==> Member(n, Neighbour, Some(anchors[k])) in Pulled(db, options, drawn, anchors)
  {
    var init, anchor := anchors[..|anchors| - 1], anchors[|anchors| - 1];
    var before := Pulled(db, options, drawn, init);
    if k < |init| {
      assert init[..k] == anchors[..k];
      NearRowsTaken(db, options, drawn, init, k, id);
      assert IdsOf(before) <= IdsOf(Pulled(db, options, drawn, anchors));
    } else {
      assert anchors[..k] == init;
      LinksMembers(ReadNeighbours(db, options, anchor, Excluded(drawn, before)), Neighbour, Some(anchor));
      WithoutMembers(db.near[anchor], Excluded(drawn, before), anchor);
      if id !in Excluded(drawn, before)
        && |ReadNeighbours(db, options, anchor, Excluded(drawn, before))| != options.neighbours {
        assert Member(id, Neighbour, Some(anchor)) in Pulled(db, options, drawn, anchors);
      }
    }
  }

  lemma MembersAreCollected(db: Answers, options: Options)
    ensures Collected(db, MembersOf(db, options), Drawn(db, options)) && NeighboursAgree(MembersOf(db, options))
    ensures forall id :: id in db.labelled ==> Member(id, Labelled, None) in MembersOf(db, options)
  {
    var drawn := Drawn(db, options);
    AnchorsAre(db, options, drawn);
    PulledAreNew(db, options, drawn, NeighbourAnchors(db, options, drawn));
    LinksMembers(drawn, Draw, None);
    LinksMembers(db.labelled, Labelled, None);
  }

  /** One stratum's rows, added to the draw. */
  method AddDrawn(ids: seq<string>, drawn0: seq<string>) returns (drawn: seq<string>, members: seq<Member>)
    ensures drawn == drawn0 + ids && members == Links(ids, Draw, None)
  {
    drawn, members := drawn0, [];
    for j := 0 to |ids|
      invariant drawn == drawn0 + ids[..j] && members == Links(ids[..j], Draw, None)
    {
      assert ids[..j + 1] == ids[..j] + [ids[j]];
      drawn := drawn + [ids[j]];
      members := members + [Member(ids[j], Draw, None)];
    }
    assert ids[..|ids|] == ids;
  }

  lemma {:induction false} LinksConcat(a: seq<string>, b: seq<string>, source: Source, neighbourOf: Option<string>)
    ensures Links(a + b, source, neighbourOf) == Links(a, source, neighbourOf) + Links(b, source, neighbourOf)
  {
    if b == [] {
      assert a + b == a;
    } else {
      LinksConcat(a, b[..|b| - 1], source, neighbourOf);
      assert a + b == a + b[..|b| - 1] + [b[|b| - 1]];
    }
  }

  method DrawMembers(db: Answers, options: Options) returns (drawn: seq<string>, members: seq<Member>)
    ensures drawn == Drawn(db, options) && members == Links(drawn, Draw, None)
  {
    drawn, members := [], [];
    for i := 0 to |db.strata|
      invariant drawn == DrawAll(db.strata[..i], options.fraction) && members == Links(drawn, Draw, None)
    {
      assert db.strata[..i + 1][..i] == db.strata[..i];
      var ids := DrawStratum(db.strata[i], options.fraction);
      LinksConcat(drawn, ids, Draw, None);
      var more;
      drawn, more := AddDrawn(ids, drawn);
      members := members + more;
    }
    assert db.strata[..|db.strata|] == db.strata;
  }

  /** The neighbours of one anchor, added to the members and to what is seen. */
  method AddNeighbours(neighbours: seq<string>, anchor: string, before: seq<Member>, seen0: set<string>)
    returns (members: seq<Member>, seen: set<string>)
    ensures members == before + Links(neighbours, Neighbour, Some(anchor))
    ensures seen == seen0 + IdsOf(Links(neighbours, Neighbour, Some(anchor)))
  {
    members, seen := before, seen0;
    for j := 0 to |neighbours|
      invariant members == before + Links(neighbours[..j], Neighbour, Some(anchor))
      invariant seen == seen0 + set id | id in neighbours[..j]
    {
      assert neighbours[..j + 1] == neighbours[..j] + [neighbours[j]];
      seen := seen + {neighbours[j]};
      members := members + [Member(neighbours[j], Neighbour, Some(anchor))];
    }
    assert neighbours[..|neighbours|] == neighbours;
    LinksMembers(neighbours, Neighbour, Some(anchor));
  }

  method AddLabelled(labelled: seq<string>, before: seq<Member>) returns (members: seq<Member>)
    ensures members == before + Links(labelled, Labelled, None)
  {
    members := before;
    for i := 0 to |labelled|
      invariant members == before + Links(labelled[..i], Labelled, None)
    {
      assert labelled[..i + 1] == labelled[..i] + [labelled[i]];
      members := members + [Member(labelled[i], Labelled, None)];
    }
    assert labelled[..|labelled|] == labelled;
  }

  lemma PulledAppend(db: Answers, options: Options, drawn: seq<string>, anchors: seq<string>, i: nat,
                     before: seq<Member>, more: seq<Member>)
    requires i < |anchors| && before == Pulled(db, options, drawn, anchors[..i])
    requires more == Links(ReadNeighbours(db, options, anchors[i], Excluded(drawn, before)), Neighbour,
                           Some(anchors[i]))
    ensures Pulled(db, options, drawn, anchors[..i + 1]) == before + more
    ensures Excluded(drawn, before + more) == Excluded(drawn, before) + IdsOf(more)
  {
    assert anchors[..i + 1][..i] == anchors[..i];
  }

  lemma Reassociate(a: seq<Member>, b: seq<Member>, c: seq<Member>)
    ensures a + b + c == a + (b + c)
  {
  }

  /** Searches each anchor in turn, telling it what is already in. */
  method SearchNeighbours(db: Answers, options: Options, drawn: seq<string>, anchors: seq<string>, before: seq<Member>)
    returns (members: seq<Member>)
    ensures members == before + Pulled(db, options, drawn, anchors)
  {
    members := before;
    var seen := set id | id in drawn;
    ghost var pulled: seq<Member> := [];
    assert Excluded(drawn, []) == seen;
    for i := 0 to |anchors|
      invariant pulled == Pulled(db, options, drawn, anchors[..i])
      invariant members == before + pulled
      invariant seen == Excluded(drawn, pulled)
    {
      var neighbours := ReadNeighbours(db, options, anchors[i], seen);
      ghost var more := Links(neighbours, Neighbour, Some(anchors[i]));
      PulledAppend(db, options, drawn, anchors, i, pulled, more);
      Reassociate(before, pulled, more);
      members, seen := AddNeighbours(neighbours, anchors[i], members, seen);
      pulled := pulled + more;
    }
    assert anchors[..|anchors|] == anchors;
  }

  /** The draw, then the neighbours of each searched drawn row, then the labelled rows. */
  method CollectMembers(db: Answers, options: Options) returns (members: seq<Member>, drawnCount: nat, anchorCount: nat)
    ensures members == MembersOf(db, options)
    ensures drawnCount == |Drawn(db, options)| && anchorCount == |NeighbourAnchors(db, options, Drawn(db, options))|
  {
    var drawn;
    drawn, members := DrawMembers(db, options);
    var anchors := NeighbourAnchors(db, options, drawn);
    members := SearchNeighbours(db, options, drawn, anchors, members);
    members := AddLabelled(db.labelled, members);
    drawnCount, anchorCount := |drawn|, |anchors|;
  }

  // --- Freezing ---

  datatype FrozenRow = FrozenRow(ordinal: nat, candidateId: string, source: Source, neighbourOf: Option<string>)

  /** Closed: numbered 1..n, one row per candidate, neighbour links exactly on neighbours and always inside. */
  ghost predicate Closed(rows: seq<FrozenRow>) {
    && (forall i :: 0 <= i < |rows| ==> rows[i].ordinal == i + 1)
    && (forall i, j :: 0 <= i < j < |rows| ==> rows[i].candidateId != rows[j].candidateId)
    && (forall i, j :: 0 <= i < j < |rows| ==>
          ByPrecedence(Member(rows[i].candidateId, rows[i].source, None),
                       Member(rows[j].candidateId, rows[j].source, None)))
    && (forall r :: r in rows ==> LinkCloses(rows, r))
  }

  function RowOf(m: Member, index: nat): FrozenRow {
    FrozenRow(index + 1, m.candidateId, m.source, m.neighbourOf)
  }

  lemma MergedIsClosed(db: Answers, members: seq<Member>, merged: seq<Member>, rows: seq<FrozenRow>, drawn: seq<string>)
    requires Collected(db, members, drawn) && Merges(members, merged)
    requires |rows| == |merged| && forall i :: 0 <= i < |rows| ==> rows[i] == RowOf(merged[i], i)
    ensures Closed(rows)
    ensures forall m :: m in members ==>
              exists r :: r in rows && r.candidateId == m.candidateId && Precedence(r.source) >= Precedence(m.source)
  {
    forall i, j | 0 <= i < j < |rows| ensures rows[i].candidateId != rows[j].candidateId {
      assert merged[i] in merged && merged[j] in merged;
    }
    forall m | m in members
      ensures exists r :: r in rows && r.candidateId == m.candidateId && Precedence(r.source) >= Precedence(m.source)
    {
      RowFor(members, merged, rows, m);
    }
    forall r | r in rows ensures LinkCloses(rows, r) {
      LinkIsClosed(db, members, merged, rows, drawn, r);
    }
  }

  ghost predicate LinkCloses(rows: seq<FrozenRow>, r: FrozenRow) {
    && (r.source.Neighbour? <==> r.neighbourOf.Some?)
    && (r.neighbourOf.Some? ==> exists a :: a in rows && a.candidateId == r.neighbourOf.value && !a.source.Neighbour?)
  }

  lemma LinkIsClosed(db: Answers, members: seq<Member>, merged: seq<Member>, rows: seq<FrozenRow>, drawn: seq<string>,
                     r: FrozenRow)
    requires Collected(db, members, drawn) && Merges(members, merged) && r in rows
    requires |rows| == |merged| && forall i :: 0 <= i < |rows| ==> rows[i] == RowOf(merged[i], i)
    ensures LinkCloses(rows, r)
  {
    var i :| 0 <= i < |rows| && rows[i] == r;
    assert merged[i] in merged;
    BestIsStrongest(members, r.candidateId);
    var m :| m in members && m.candidateId == r.candidateId && merged[i] == Merged(m);
    if r.neighbourOf.Some? {
      RowFor(members, merged, rows, Member(r.neighbourOf.value, Draw, None));
    }
  }

  lemma RowFor(members: seq<Member>, merged: seq<Member>, rows: seq<FrozenRow>, m: Member)
    requires Merges(members, merged) && m in members
    requires |rows| == |merged| && forall i :: 0 <= i < |rows| ==> rows[i] == RowOf(merged[i], i)
    ensures exists r :: r in rows && r.candidateId == m.candidateId && Precedence(r.source) >= Precedence(m.source)
  {
    BestIsStrongest(members, m.candidateId);
    var best := BestOf(members, m.candidateId).value;
    assert best in merged;
    var k :| 0 <= k < |merged| && merged[k] == best;
    assert rows[k] in rows;
  }

  /** The rows without their ordinals. */
  function Unnumbered(rows: seq<FrozenRow>): (r: seq<Member>)
    ensures |r| == |rows|
    ensures forall i :: 0 <= i < |rows| ==> r[i] == Member(rows[i].candidateId, rows[i].source, rows[i].neighbourOf)
  {
    seq(|rows|, i requires 0 <= i < |rows| => Member(rows[i].candidateId, rows[i].source, rows[i].neighbourOf))
  }

  /** Numbers the merged members, refusing the first whose snapshot cannot be read. */
  method NumberRows(merged: seq<Member>, readable: set<string>) returns (r: Result<seq<FrozenRow>, string>)
    ensures r.Ok? <==> IdsOf(merged) <= readable
    ensures r.Ok? ==> |r.value| == |merged| && forall i :: 0 <= i < |merged| ==> r.value[i] == RowOf(merged[i], i)
  {
    var rows: seq<FrozenRow> := [];
    for i := 0 to |merged|
      invariant |rows| == i && forall j :: 0 <= j < i ==>
                  rows[j] == RowOf(merged[j], j) && merged[j].candidateId in readable
    {
      if merged[i].candidateId !in readable {
        assert merged[i].candidateId in IdsOf(merged);
        return Err("cohort member vanished before freeze: " + merged[i].candidateId);
      }
      rows := rows + [RowOf(merged[i], i)];
    }
    return Ok(rows);
  }

  /** Freezes the cohort, or refuses exactly when a member's snapshot has vanished. */
  method FreezeDreamRouteCohort(db: Answers, options: Options) returns (r: Result<seq<FrozenRow>, string>)
    ensures r.Ok? <==> IdsOf(MembersOf(db, options)) <= db.readable
    ensures r.Ok? ==> Closed(r.value) && Merges(MembersOf(db, options), Unnumbered(r.value))
    ensures r.Ok? ==> (set row | row in r.value :: row.candidateId) == IdsOf(MembersOf(db, options))
  {
    var members, _, _ := CollectMembers(db, options);
    var merged := MergeByPrecedence(members);
    MergedIds(members, merged);
    r := NumberRows(merged, db.readable);
    if r.Ok? {
      MembersAreCollected(db, options);
      MergedIsClosed(db, members, merged, r.value, Drawn(db, options));
      assert Unnumbered(r.value) == merged;
      RowIds(r.value);
    }
  }

  lemma MergedIds(members: seq<Member>, merged: seq<Member>)
    requires Merges(members, merged)
    ensures IdsOf(merged) == IdsOf(members)
  {
    forall id ensures id in IdsOf(merged) <==> id in IdsOf(members) {
      BestIsStrongest(members, id);
      if id in IdsOf(members) { assert BestOf(members, id).value in merged; }
    }
  }

  lemma RowIds(rows: seq<FrozenRow>)
    ensures (set row | row in rows :: row.candidateId) == IdsOf(Unnumbered(rows))
  {
    forall row | row in rows ensures row.candidateId in IdsOf(Unnumbered(rows)) {
      var i :| 0 <= i < |rows| && rows[i] == row;
      assert Unnumbered(rows)[i] in Unnumbered(rows);
    }
    forall m | m in Unnumbered(rows) ensures exists row :: row in rows && row.candidateId == m.candidateId {
      var i :| 0 <= i < |rows| && Unnumbered(rows)[i] == m;
      assert rows[i] in rows;
    }
  }

  /** What a freeze holds: every drawn and labelled row under its own source, and no row twice. */
  lemma FrozenSources(db: Answers, options: Options, rows: seq<FrozenRow>)
    requires Merges(MembersOf(db, options), Unnumbered(rows))
    ensures forall id :: id in Drawn(db, options) || id in db.labelled ==>
              exists row :: row in rows && row.candidateId == id && !row.source.Neighbour?
    ensures forall row :: row in rows ==> (row.source.Labelled? <==> row.candidateId in db.labelled)
  {
    var members, merged := MembersOf(db, options), Unnumbered(rows);
    MembersAreCollected(db, options);
    forall id | id in Drawn(db, options) || id in db.labelled
      ensures exists row :: row in rows && row.candidateId == id && !row.source.Neighbour?
    {
      BestIsStrongest(members, id);
      assert id in db.labelled ==> Member(id, Labelled, None) in members;
      assert id in Drawn(db, options) ==> Member(id, Draw, None) in members;
      assert BestOf(members, id).value in merged;
      var i :| 0 <= i < |merged| && merged[i] == BestOf(members, id).value;
      assert rows[i] in rows;
    }
    forall row | row in rows ensures row.source.Labelled? <==> row.candidateId in db.labelled {
      var i :| 0 <= i < |rows| && rows[i] == row;
      assert merged[i] in merged;
      BestIsStrongest(members, row.candidateId);
      if row.candidateId in db.labelled { assert Member(row.candidateId, Labelled, None) in members; }
    }
  }
}
