/**
 * The embedding backfill's worker pool (scripts/backfill.ts): cooperative
 * workers over one shared cursor. The loop below lets an arbitrary scheduler
 * resume any worker at any await, and the embedder and the database answer as
 * they please; what it ensures holds of every interleaving, and it terminates
 * under all of them. The embedder may return nothing but does not throw.
 */
module BackfillPool {
  import opened Sorting

  /** Where a worker is suspended, and the row it has claimed. */
  datatype Phase = AtTop | Embedding(row: nat) | Updating(row: nat) | Sleeping | Done

  predicate Busy(p: Phase) { p.Embedding? || p.Updating? }

  function Rank(p: Phase): nat {
    match p case Embedding(_) => 4 case Updating(_) => 3 case Sleeping => 2 case AtTop => 1 case Done => 0
  }

  function BusyCount(workers: seq<Phase>): nat {
    if workers == [] then 0 else (if Busy(workers[0]) then 1 else 0) + BusyCount(workers[1..])
  }

  function Work(workers: seq<Phase>): nat {
    if workers == [] then 0 else Rank(workers[0]) + Work(workers[1..])
  }

  lemma {:induction false} Resume(workers: seq<Phase>, w: nat, p: Phase)
    requires w < |workers|
    ensures Work(workers[w := p]) == Work(workers) - Rank(workers[w]) + Rank(p)
    ensures BusyCount(workers[w := p])
            == BusyCount(workers) - (if Busy(workers[w]) then 1 else 0) + (if Busy(p) then 1 else 0)
  {
    if w == 0 {
      assert workers[w := p][1..] == workers[1..];
    } else {
      Resume(workers[1..], w - 1, p);
      assert workers[w := p][1..] == workers[1..][w - 1 := p];
    }
  }

  lemma {:induction false} AllDone(workers: seq<Phase>)
    requires forall p :: p in workers ==> p.Done?
    ensures BusyCount(workers) == 0
  {
    if workers != [] {
      assert workers[0] in workers;
      AllDone(workers[1..]);
    }
  }

  lemma {:induction false} StartIdle(n: nat)
    ensures BusyCount(seq(n, _ => AtTop)) == 0
  {
    if n > 0 {
      StartIdle(n - 1);
      assert seq(n, _ => AtTop)[1..] == seq(n - 1, _ => AtTop);
    }
  }

  /** Rows in flight were claimed, belong to one worker each, and are not yet updated. */
  ghost predicate InFlightApart(workers: seq<Phase>, next: nat, updated: seq<nat>) {
    && (forall w :: 0 <= w < |workers| && Busy(workers[w]) ==> workers[w].row < next && workers[w].row !in updated)
    && (forall v, w :: 0 <= v < w < |workers| && Busy(workers[v]) && Busy(workers[w]) ==>
        workers[v].row != workers[w].row)
  }

  /** A worker that lets its row go may have updated it. */
  lemma ReleaseKeepsApart(workers: seq<Phase>, w: nat, next: nat, updated: seq<nat>, p: Phase)
    requires InFlightApart(workers, next, updated) && w < |workers| && !Busy(p)
    ensures InFlightApart(workers[w := p], next, updated)
    ensures Busy(workers[w]) ==> InFlightApart(workers[w := p], next, updated + [workers[w].row])
  {
  }

  /**
   * Drains one table of `rows` rows with `workerCount` workers. `claims` records
   * who claimed which row, `updated` the rows whose update was stored.
   */
  method DrainTable(rows: nat, workerCount: nat)
    returns (processed: nat, failed: nat, claims: seq<(nat, nat)>, updated: seq<nat>)
    requires 1 <= workerCount
    ensures processed + failed == rows && processed == |updated|
    ensures |claims| == rows && forall i :: 0 <= i < rows ==> claims[i].0 == i && claims[i].1 < workerCount
    ensures NoDuplicates(updated) && forall r :: r in updated ==> r < rows
  {
    processed, failed, claims, updated := 0, 0, [], [];
    var next := 0;
    var workers: seq<Phase> := seq(workerCount, _ => AtTop);
    StartIdle(workerCount);
    while exists w :: 0 <= w < |workers| && !workers[w].Done?
      invariant |workers| == workerCount && next <= rows
      invariant |claims| == next && forall i :: 0 <= i < next ==> claims[i].0 == i && claims[i].1 < workerCount
      invariant processed + failed + BusyCount(workers) == next && processed == |updated|
      invariant NoDuplicates(updated) && forall r :: r in updated ==> r < next
      invariant InFlightApart(workers, next, updated)
      invariant (exists w :: 0 <= w < |workers| && workers[w].Done?) ==> next == rows
      decreases rows - next, Work(workers)
    {
      var w :| 0 <= w < |workers| && !workers[w].Done?;
      var resumed: Phase := AtTop;
      match workers[w] {
        case AtTop =>
          if next < rows {
            resumed := Embedding(next);
            claims := claims + [(next, w)];
            next := next + 1;
          } else {
            resumed := Done;
            ReleaseKeepsApart(workers, w, next, updated, resumed);
          }
        case Embedding(row) =>
          var embedded: bool := *;
          if embedded {
            resumed := Updating(row);
          } else {
            failed := failed + 1;
            ReleaseKeepsApart(workers, w, next, updated, resumed);
          }
        case Updating(row) =>
          var stored: bool := *;
          if stored {
            var delays: bool := *;
            resumed := if delays then Sleeping else AtTop;
            ReleaseKeepsApart(workers, w, next, updated, resumed);
            updated := updated + [row];
            processed := processed + 1;
          } else {
            failed := failed + 1;
            ReleaseKeepsApart(workers, w, next, updated, resumed);
          }
        case Sleeping =>
          ReleaseKeepsApart(workers, w, next, updated, resumed);
      }
      Resume(workers, w, resumed);
      workers := workers[w := resumed];
    }
    AllDone(workers);
    assert workers[0].Done?;
  }

  function Total(tables: seq<nat>): nat {
    if tables == [] then 0 else Total(tables[..|tables| - 1]) + tables[|tables| - 1]
  }

  /** All tables, one pool after another: every row is processed or failed, exactly once. */
  method Backfill(tables: seq<nat>, concurrency: nat) returns (totalProcessed: nat, totalFailed: nat)
    requires 1 <= concurrency <= 8
    ensures totalProcessed + totalFailed == Total(tables)
  {
    totalProcessed, totalFailed := 0, 0;
    for i := 0 to |tables|
      invariant totalProcessed + totalFailed == Total(tables[..i])
    {
      assert tables[..i + 1][..i] == tables[..i];
      var workerCount := if tables[i] < concurrency then tables[i] else concurrency;
      if workerCount < 1 { workerCount := 1; }
      var processed, failed, _, _ := DrainTable(tables[i], workerCount);
      totalProcessed, totalFailed := totalProcessed + processed, totalFailed + failed;
    }
    assert tables[..|tables|] == tables;
  }
}
