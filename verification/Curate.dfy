/**
 * Near-duplicate archiving (scripts/curate.ts, `findDuplicates`): one pass over
 * the live rows, oldest first, archiving a row when its nearest live neighbour
 * is closer than the threshold. The table changes under the loop. The nearest
 * neighbour is exact, any of the nearest when several tie; every row has an
 * embedding; no one else writes during the pass.
 */
module Curate {
  import opened Wrappers
  import opened Sorting

  const DUPLICATE_THRESHOLD := 0.08

  /** What the pass remembers: a row it is done with, or a pair it has handled. */
  datatype SeenKey = SeenRow(id: string) | SeenPair(low: string, high: string)

  /** A row archived in favour of another. */
  datatype Removal = Removal(archived: string, keeper: string)

  function PairKey(a: string, b: string): SeenKey {
    if StrLess(b, a) then SeenPair(b, a) else SeenPair(a, b)
  }

  ghost predicate Archived(removals: seq<Removal>, id: string) {
    exists r :: r in removals && r.archived == id
  }

  ghost predicate Keeper(removals: seq<Removal>, id: string) {
    exists r :: r in removals && r.keeper == id
  }

  ghost predicate Nearest(live: set<string>, dist: (string, string) -> real, id: string, other: string) {
    other in live && other != id && forall m :: m in live && m != id ==> dist(id, other) <= dist(id, m)
  }

  /** Every other live row is at least a threshold away. */
  ghost predicate Isolated(live: set<string>, dist: (string, string) -> real, id: string) {
    forall m :: m in live && m != id ==> dist(id, m) >= DUPLICATE_THRESHOLD
  }

  /** Each removal names two distinct rows closer than the threshold, and no row is archived twice. */
  ghost predicate Sound(removals: seq<Removal>, dist: (string, string) -> real, start: set<string>) {
    && (forall i, j :: 0 <= i < j < |removals| ==> removals[i].archived != removals[j].archived)
    && (forall r :: r in removals ==>
          r.archived in start && r.keeper in start && r.archived != r.keeper
          && dist(r.archived, r.keeper) < DUPLICATE_THRESHOLD)
  }

  /** The first `n` entries are archived, keepers, or isolated. */
  ghost predicate Dealt(entries: seq<string>, n: nat, live: set<string>, removals: seq<Removal>,
                        dist: (string, string) -> real)
    requires n <= |entries|
  {
    forall i :: 0 <= i < n && entries[i] in live && !Keeper(removals, entries[i]) ==> Isolated(live, dist, entries[i])
  }

  /** A row archived in favour of an older one: the older one was a keeper before. */
  ghost predicate OlderKeepersCameFirst(entries: seq<string>, removals: seq<Removal>) {
    forall i, j, k ::
      0 <= i < j < |entries| && 0 <= k < |removals| && removals[k] == Removal(entries[j], entries[i]) ==>
        Keeper(removals[..k], entries[i])
  }

  ghost predicate Symmetric(dist: (string, string) -> real) {
    forall a, b :: dist(a, b) == dist(b, a)
  }

  /** The rows still live after some removals; a dry run archives nothing. */
  ghost function LiveAfter(start: set<string>, removals: seq<Removal>, dryRun: bool): set<string> {
    if dryRun then start else set id | id in start && !Archived(removals, id)
  }

  /**
   * Entry `i`, met after `from` removals: passed over if it was archived or kept
   * before or nothing live is near it, else archived in favour of a nearest row.
   */
  ghost predicate EntryIs(entries: seq<string>, i: nat, start: set<string>, removals: seq<Removal>,
                          dist: (string, string) -> real, dryRun: bool, from: nat, to: nat)
    requires i < |entries|
  {
    && from <= to <= |removals|
    && var before, e := removals[..from], entries[i];
       var live := LiveAfter(start, before, dryRun);
       if Archived(before, e) || Keeper(before, e) || Isolated(live, dist, e) then to == from
       else to == from + 1 && removals[from].archived == e && Nearest(live, dist, e, removals[from].keeper)
  }

  /** `cuts[i]` removals come of the first `i` entries. */
  ghost predicate PassUpTo(entries: seq<string>, n: nat, start: set<string>, removals: seq<Removal>,
                           dist: (string, string) -> real, dryRun: bool, cuts: seq<nat>)
    requires n <= |entries|
  {
    && |cuts| == n + 1 && cuts[0] == 0 && cuts[n] == |removals|
    && forall i :: 0 <= i < n ==> EntryIs(entries, i, start, removals, dist, dryRun, cuts[i], cuts[i + 1])
  }

  /** The removals are those of one pass over the entries, each met in turn. */
  ghost predicate PassIs(entries: seq<string>, start: set<string>, removals: seq<Removal>,
                         dist: (string, string) -> real, dryRun: bool)
  {
    exists cuts :: PassUpTo(entries, |entries|, start, removals, dist, dryRun, cuts)
  }

  class Table {
    var live: set<string>

    /** The neighbour query: an exact nearest live row other than `id`. */
    method NearestNeighbour(id: string, dist: (string, string) -> real) returns (n: Option<string>)
      ensures n.None? <==> live - {id} == {}
      ensures n.Some? ==> Nearest(live, dist, id, n.value)
    {
      var rest := live - {id};
      if rest == {} { return None; }
      var best :| best in rest;
      rest := rest - {best};
      while rest != {}
        invariant rest <= live - {id} && best in live && best != id
        invariant forall m :: m in live && m != id && m !in rest ==> dist(id, best) <= dist(id, m)
        decreases rest
      {
        var m :| m in rest;
        if dist(id, m) < dist(id, best) { best := m; }
        rest := rest - {m};
      }
      return Some(best);
    }

    /**
     * `entries` is the first query's answer: the live rows, oldest first. The
     * removals are what the pass logs, in order.
     */
    method FindDuplicates(entries: seq<string>, dist: (string, string) -> real, dryRun: bool)
      returns (archived: nat, removals: seq<Removal>)
      requires NoDuplicates(entries) && forall id :: id in entries <==> id in live
      modifies this
      ensures archived == |removals| && Sound(removals, dist, old(live))
      ensures PassIs(entries, old(live), removals, dist, dryRun)
      ensures dryRun ==> live == old(live)
      ensures !dryRun ==>
                && (forall id :: id in live <==> id in old(live) && !Archived(removals, id))
                && (forall r :: r in removals ==> r.keeper in live)
                && (forall a, b :: a in live && b in live && a != b && dist(a, b) < DUPLICATE_THRESHOLD ==>
                    Keeper(removals, a))
                && (Symmetric(dist) ==> OlderKeepersCameFirst(entries, removals))
    {
      archived, removals := 0, [];
      if |entries| < 2 {
        FewEntriesPass(entries, live, dist, dryRun);
        return;
      }
      var seen: set<SeenKey> := {};
      ghost var cuts: seq<nat> := [0];
      for i := 0 to |entries|
        invariant archived == |removals|
        invariant Passing(entries, i, old(live), live, seen, removals, dist, dryRun, cuts)
      {
        var entry := entries[i];
        if SeenRow(entry) in seen {
          cuts := EntrySkipped(entries, i, old(live), live, seen, removals, dist, dryRun, cuts);
          continue;
        }
        var neighbour := NearestNeighbour(entry, dist);
        if neighbour.None? || dist(entry, neighbour.value) >= DUPLICATE_THRESHOLD {
          assert forall m :: m in live && m != entry ==> m in live - {entry};
          cuts := EntrySkipped(entries, i, old(live), live, seen, removals, dist, dryRun, cuts);
          continue;
        }
        var keeper := neighbour.value;
        var pair := PairKey(entry, keeper);
        if pair in seen { assert false; }
        cuts := EntryRemoved(entries, i, old(live), live, seen, removals, dist, dryRun, cuts, keeper);
        seen := seen + {pair, SeenRow(entry), SeenRow(keeper)};
        if !dryRun { live := live - {entry}; }
        removals := removals + [Removal(entry, keeper)];
        archived := archived + 1;
      }
      assert entries[..|entries|] == entries;
    }
  }

  /** What holds of a pass after `n` entries. */
  ghost predicate Passing(entries: seq<string>, n: nat, start: set<string>, live: set<string>, seen: set<SeenKey>,
                          removals: seq<Removal>, dist: (string, string) -> real, dryRun: bool, cuts: seq<nat>)
    requires n <= |entries|
  {
    && Common(entries, n, start, seen, removals, dist)
    && (!dryRun ==> Changed(entries, n, start, live, removals, dist))
    && live == LiveAfter(start, removals, dryRun)
    && PassUpTo(entries, n, start, removals, dist, dryRun, cuts)
  }

  lemma EntrySkipped(entries: seq<string>, i: nat, start: set<string>, live: set<string>, seen: set<SeenKey>,
                     removals: seq<Removal>, dist: (string, string) -> real, dryRun: bool, cuts: seq<nat>)
    returns (more: seq<nat>)
    requires i < |entries| && Passing(entries, i, start, live, seen, removals, dist, dryRun, cuts)
    requires SeenRow(entries[i]) in seen || Isolated(live, dist, entries[i])
    ensures Passing(entries, i + 1, start, live, seen, removals, dist, dryRun, more)
  {
    SkipKeeps(entries, i, start, live, seen, removals, dist);
    more := PassSkips(entries, i, start, removals, dist, dryRun, cuts);
  }

  lemma EntryRemoved(entries: seq<string>, i: nat, start: set<string>, live: set<string>, seen: set<SeenKey>,
                     removals: seq<Removal>, dist: (string, string) -> real, dryRun: bool, cuts: seq<nat>,
                     keeper: string)
    returns (more: seq<nat>)
    requires NoDuplicates(entries) && i < |entries| && (forall id :: id in entries <==> id in start)
    requires Passing(entries, i, start, live, seen, removals, dist, dryRun, cuts)
    requires SeenRow(entries[i]) !in seen && Nearest(live, dist, entries[i], keeper)
    requires dist(entries[i], keeper) < DUPLICATE_THRESHOLD
    ensures var all := removals + [Removal(entries[i], keeper)];
            Passing(entries, i + 1, start, if dryRun then live else live - {entries[i]},
                    seen + {PairKey(entries[i], keeper), SeenRow(entries[i]), SeenRow(keeper)}, all, dist, dryRun,
                    more)
  {
    RemovalIsCommon(entries, i, start, seen, removals, dist, keeper);
    more := PassRemoves(entries, i, start, removals, dist, dryRun, cuts, keeper);
    if !dryRun {
      NotYetArchived(entries, i, removals);
      RemovalIsChange(entries, i, start, live, seen, removals, dist, keeper);
      LiveShrinks(start, removals, Removal(entries[i], keeper));
    }
  }

  lemma NotYetArchived(entries: seq<string>, i: nat, removals: seq<Removal>)
    requires NoDuplicates(entries) && i < |entries| && Early(entries, i, removals)
    ensures !Archived(removals, entries[i])
  {
  }

  lemma LiveShrinks(start: set<string>, removals: seq<Removal>, r: Removal)
    ensures LiveAfter(start, removals + [r], false) == LiveAfter(start, removals, false) - {r.archived}
  {
    assert forall x :: x in removals + [r] <==> x in removals || x == r;
  }

  lemma FewEntriesPass(entries: seq<string>, live: set<string>, dist: (string, string) -> real, dryRun: bool)
    requires |entries| < 2 && forall id :: id in entries <==> id in live
    ensures PassIs(entries, live, [], dist, dryRun)
  {
    var cuts: seq<nat> := seq(|entries| + 1, _ => 0);
    if |entries| == 1 {
      assert entries[0] in entries && Isolated(LiveAfter(live, [], dryRun), dist, entries[0]);
    }
    assert PassUpTo(entries, |entries|, live, [], dist, dryRun, cuts);
  }

  lemma PassSkips(entries: seq<string>, i: nat, start: set<string>, removals: seq<Removal>,
                  dist: (string, string) -> real, dryRun: bool, cuts: seq<nat>)
    returns (more: seq<nat>)
    requires i < |entries| && PassUpTo(entries, i, start, removals, dist, dryRun, cuts)
    requires Archived(removals, entries[i]) || Keeper(removals, entries[i])
             || Isolated(LiveAfter(start, removals, dryRun), dist, entries[i])
    ensures PassUpTo(entries, i + 1, start, removals, dist, dryRun, more)
  {
    more := cuts + [|removals|];
    assert removals[..|removals|] == removals;
  }

  lemma PassRemoves(entries: seq<string>, i: nat, start: set<string>, removals: seq<Removal>,
                    dist: (string, string) -> real, dryRun: bool, cuts: seq<nat>, keeper: string)
    returns (more: seq<nat>)
    requires i < |entries| && PassUpTo(entries, i, start, removals, dist, dryRun, cuts)
    requires !Archived(removals, entries[i]) && !Keeper(removals, entries[i])
    requires Nearest(LiveAfter(start, removals, dryRun), dist, entries[i], keeper)
             && dist(entries[i], keeper) < DUPLICATE_THRESHOLD
    ensures PassUpTo(entries, i + 1, start, removals + [Removal(entries[i], keeper)], dist, dryRun, more)
  {
    var all := removals + [Removal(entries[i], keeper)];
    more := cuts + [|all|];
    forall j | 0 <= j < i ensures EntryIs(entries, j, start, all, dist, dryRun, more[j], more[j + 1]) {
      assert EntryIs(entries, j, start, removals, dist, dryRun, cuts[j], cuts[j + 1]);
      assert all[..cuts[j]] == removals[..cuts[j]];
    }
    assert all[..|removals|] == removals;
  }

  /** What the pass remembers is exactly the rows it archived and the rows it kept for them. */
  ghost predicate SeenMatches(seen: set<SeenKey>, removals: seq<Removal>) {
    && (forall r :: r in removals ==> SeenRow(r.archived) in seen && SeenRow(r.keeper) in seen)
    && (forall id :: SeenRow(id) in seen ==> Archived(removals, id) || Keeper(removals, id))
    && (forall a, b :: SeenPair(a, b) in seen ==> SeenRow(a) in seen && SeenRow(b) in seen)
  }

  /** What holds after `n` entries, in a dry run too. */
  ghost predicate Common(entries: seq<string>, n: nat, start: set<string>, seen: set<SeenKey>, removals: seq<Removal>,
                         dist: (string, string) -> real)
    requires n <= |entries|
  {
    Sound(removals, dist, start) && SeenMatches(seen, removals) && Early(entries, n, removals)
  }

  ghost predicate Early(entries: seq<string>, n: nat, removals: seq<Removal>)
    requires n <= |entries|
  {
    forall r :: r in removals ==> r.archived in entries[..n]
  }

  /** What holds of the changing table after `n` entries. */
  ghost predicate Changed(entries: seq<string>, n: nat, start: set<string>, live: set<string>, removals: seq<Removal>,
                          dist: (string, string) -> real)
    requires n <= |entries|
  {
    && (forall id :: id in live <==> id in start && !Archived(removals, id))
    && (forall r :: r in removals ==> r.keeper in live)
    && Dealt(entries, n, live, removals, dist)
    && (Symmetric(dist) ==> OlderKeepersCameFirst(entries, removals))
  }

  /** An entry passed over: it was seen before, or nothing live is near it. */
  lemma SkipKeeps(entries: seq<string>, i: nat, start: set<string>, live: set<string>, seen: set<SeenKey>,
                  removals: seq<Removal>, dist: (string, string) -> real)
    requires i < |entries| && Common(entries, i, start, seen, removals, dist)
    requires SeenRow(entries[i]) in seen || Isolated(live, dist, entries[i])
    ensures Common(entries, i + 1, start, seen, removals, dist)
    ensures Changed(entries, i, start, live, removals, dist) ==> Changed(entries, i + 1, start, live, removals, dist)
  {
    assert entries[..i + 1] == entries[..i] + [entries[i]];
  }

  lemma RemovalIsSeen(seen: set<SeenKey>, removals: seq<Removal>, r: Removal)
    requires SeenMatches(seen, removals)
    ensures SeenMatches(seen + {PairKey(r.archived, r.keeper), SeenRow(r.archived), SeenRow(r.keeper)}, removals + [r])
  {
  }

  lemma RemovalIsCommon(entries: seq<string>, i: nat, start: set<string>, seen: set<SeenKey>, removals: seq<Removal>,
                        dist: (string, string) -> real, keeper: string)
    requires i < |entries| && Common(entries, i, start, seen, removals, dist)
    requires SeenRow(entries[i]) !in seen && entries[i] in start && keeper in start && keeper != entries[i]
    requires dist(entries[i], keeper) < DUPLICATE_THRESHOLD
    ensures Common(entries, i + 1, start, seen + {PairKey(entries[i], keeper), SeenRow(entries[i]), SeenRow(keeper)},
                   removals + [Removal(entries[i], keeper)], dist)
  {
    RemovalIsSeen(seen, removals, Removal(entries[i], keeper));
  }

  lemma RemovalIsChange(entries: seq<string>, i: nat, start: set<string>, live: set<string>, seen: set<SeenKey>,
                        removals: seq<Removal>, dist: (string, string) -> real, keeper: string)
    requires NoDuplicates(entries) && i < |entries| && Changed(entries, i, start, live, removals, dist)
    requires entries[i] in live && keeper in live && keeper != entries[i] && !Keeper(removals, entries[i])
    requires dist(entries[i], keeper) < DUPLICATE_THRESHOLD
    ensures Changed(entries, i + 1, start, live - {entries[i]}, removals + [Removal(entries[i], keeper)], dist)
  {
    OlderWasKeeper(entries, i, live, removals, dist, keeper);
  }

  /** Adding a removal whose keeper is newer, or older and already a keeper, keeps the order law. */
  lemma OlderWasKeeper(entries: seq<string>, i: nat, live: set<string>, removals: seq<Removal>,
                       dist: (string, string) -> real, keeper: string)
    requires NoDuplicates(entries) && i < |entries| && Dealt(entries, i, live, removals, dist)
    requires entries[i] in live && keeper in live && keeper != entries[i]
             && dist(entries[i], keeper) < DUPLICATE_THRESHOLD
    ensures Symmetric(dist) && OlderKeepersCameFirst(entries, removals) ==>
              OlderKeepersCameFirst(entries, removals + [Removal(entries[i], keeper)])
  {
    if Symmetric(dist) && OlderKeepersCameFirst(entries, removals) {
      var all := removals + [Removal(entries[i], keeper)];
      forall a, b, k | 0 <= a < b < |entries| && 0 <= k < |all| && all[k] == Removal(entries[b], entries[a])
        ensures Keeper(all[..k], entries[a])
      {
        if k < |removals| {
          assert all[..k] == removals[..k] && all[k] == removals[k];
        } else {
          assert all[..k] == removals;
          assert entries[b] == entries[i] && b == i;
          assert dist(entries[a], entries[i]) < DUPLICATE_THRESHOLD;
        }
      }
    }
  }
}
