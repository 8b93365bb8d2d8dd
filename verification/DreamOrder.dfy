/**
 * Applying and graduating routing runs in any order, any number of times, ends
 * with the same memory: only which run or candidate gets the credit may differ.
 */
module DreamOrder {
  import opened Wrappers
  import opened Sorting
  import opened Projections
  import opened ScopeKeys
  import opened DreamDatabase
  import opened DreamTables
  import opened DreamSteps
  import opened DreamHistory

  /** The primary key of the signal table: (run, candidate, signal). */
  ghost predicate SignalKeysUnique(db: Database) {
    forall a, b ::
      (a in db.signals && b in db.signals && a.runId == b.runId && a.candidateId == b.candidateId
        && a.signal == b.signal)
      ==> a == b
  }

  // --- What tables hold, without the credit ---

  datatype Footprint = Footprint(
    thoughtKeys: set<(string, string)>, promoteKeys: set<string>, flags: set<ApplyFlag>)

  function FootprintOf(t: Tables): Footprint {
    Footprint(set k | k in KeysOf(t.thoughts, ThoughtKey),
              set k | k in KeysOf(t.events, PromoteKey),
              set f | f in t.flags)
  }

  function RelegatedPairs(t: Tables): set<(string, string)> {
    set k | k in KeysOf(t.events, RelegationKey)
  }

  function Join(a: Footprint, b: Footprint): Footprint {
    Footprint(a.thoughtKeys + b.thoughtKeys, a.promoteKeys + b.promoteKeys, a.flags + b.flags)
  }

  /** What one run wants, read off its inputs alone; a run that cannot commit wants nothing. */
  function WantedBy(db: Database, runId: string): Footprint {
    var rows, items := ReadSignals(db, runId), Pending(db, runId);
    if !Runnable(rows) then Footprint({}, {}, {})
    else
      Footprint(
        set item | item in items && Wanted(items, Blocked(rows), item) && item.action == THOUGHT
          :: (item.contentHash, item.namespace),
        set item | item in items && Wanted(items, Blocked(rows), item) && item.action == RULE_EVENT
          :: RuleScopeKey(item.contentHash),
        set row | row in rows :: FlagOf(runId, row))
  }

  /** What a graduation wants, whatever the tables hold: the keys of its targets promoted. */
  function GraduatedBy(db: Database, runId: string, threshold: int): Footprint {
    Footprint({}, set x | x in Targets(db, runId, threshold) :: GraduateScopeKey(x.contentHash), {})
  }

  /** A step without its clock. */
  datatype Task = Applying(runId: string) | Graduation(runId: string, threshold: int)

  function TaskOf(step: Step): Task
    requires !step.Undo?
  {
    match step
    case Apply(runId, _) => Applying(runId)
    case Graduate(runId, threshold, _) => Graduation(runId, threshold)
  }

  function WantedFor(db: Database, task: Task): Footprint {
    match task
    case Applying(runId) => WantedBy(db, runId)
    case Graduation(runId, threshold) => GraduatedBy(db, runId, threshold)
  }

  function WantedForAll(db: Database, tasks: set<Task>): Footprint {
    Footprint(set t, k | t in tasks && k in WantedFor(db, t).thoughtKeys :: k,
              set t, k | t in tasks && k in WantedFor(db, t).promoteKeys :: k,
              set t, f | t in tasks && f in WantedFor(db, t).flags :: f)
  }

  // --- One apply joins what it wants ---

  lemma ApplyThoughtKeys(db: Database, t: Tables, runId: string, now: int)
    requires ApplyRouting(db, t, runId, now).Ok?
    ensures var t' := ApplyRouting(db, t, runId, now).value.0;
            FootprintOf(t').thoughtKeys == FootprintOf(t).thoughtKeys + WantedBy(db, runId).thoughtKeys
  {
    var t' := ApplyRouting(db, t, runId, now).value.0;
    var rows, items := ReadSignals(db, runId), Pending(db, runId);
    SignalFoldOutcome(t, runId, rows, now);
    ApplyLawful(db, t, runId, now);
    ApplySettles(db, t, runId, now);
    ApplyWithholdsBlocked(db, t, runId, now);
    forall k
      ensures k in FootprintOf(t').thoughtKeys <==>
                k in FootprintOf(t).thoughtKeys + WantedBy(db, runId).thoughtKeys
    {
      KeysOfMember(t.thoughts, ThoughtKey, k);
      KeysOfMember(t'.thoughts, ThoughtKey, k);
      if k in FootprintOf(t').thoughtKeys {
        var th :| th in t'.thoughts && ThoughtKey(th) == Some(k);
        var i :| 0 <= i < |t'.thoughts| && t'.thoughts[i] == th;
        if i < |t.thoughts| {
          assert t.thoughts[i] == th;
        } else {
          assert ThoughtAsked(th, runId, items, Blocked(rows));
        }
      }
      if k in FootprintOf(t).thoughtKeys {
        var th :| th in t.thoughts && ThoughtKey(th) == Some(k);
        assert th in t'.thoughts;
      }
      if k in WantedBy(db, runId).thoughtKeys {
        var item :| Wanted(items, Blocked(rows), item) && item.action == THOUGHT
          && k == (item.contentHash, item.namespace);
        assert ItemPresent(t', item);
      }
    }
  }

  lemma ApplyPromoteKeys(db: Database, t: Tables, runId: string, now: int)
    requires ApplyRouting(db, t, runId, now).Ok?
    ensures var t' := ApplyRouting(db, t, runId, now).value.0;
            FootprintOf(t').promoteKeys == FootprintOf(t).promoteKeys + WantedBy(db, runId).promoteKeys
  {
    var t' := ApplyRouting(db, t, runId, now).value.0;
    var rows, items := ReadSignals(db, runId), Pending(db, runId);
    SignalFoldOutcome(t, runId, rows, now);
    ApplyLawful(db, t, runId, now);
    ApplySettles(db, t, runId, now);
    ApplyWithholdsBlocked(db, t, runId, now);
    forall k
      ensures k in FootprintOf(t').promoteKeys <==>
                k in FootprintOf(t).promoteKeys + WantedBy(db, runId).promoteKeys
    {
      KeysOfMember(t.events, PromoteKey, k);
      KeysOfMember(t'.events, PromoteKey, k);
      if k in FootprintOf(t').promoteKeys {
        var e :| e in t'.events && PromoteKey(e) == Some(k);
        var i :| 0 <= i < |t'.events| && t'.events[i] == e;
        if i < |t.events| {
          assert t.events[i] == e;
        } else {
          assert PromoteAsked(e, runId, items, Blocked(rows), now);
        }
      }
      if k in FootprintOf(t).promoteKeys {
        var e :| e in t.events && PromoteKey(e) == Some(k);
        assert e in t'.events;
      }
      if k in WantedBy(db, runId).promoteKeys {
        var item :| Wanted(items, Blocked(rows), item) && item.action == RULE_EVENT
          && k == RuleScopeKey(item.contentHash);
        assert ItemPresent(t', item);
      }
    }
  }

  /** Every flag is the flag of a signal row of its own run. */
  ghost predicate FlagsFromSignals(db: Database, t: Tables) {
    forall f :: f in t.flags ==> exists row :: row in ReadSignals(db, f.runId) && f == FlagOf(f.runId, row)
  }

  lemma FlagByKey(db: Database, runId: string, a: SignalRow, b: SignalRow)
    requires SignalKeysUnique(db) && a in ReadSignals(db, runId) && b in ReadSignals(db, runId)
    requires a.candidateId == b.candidateId && a.signal == b.signal
    ensures a == b
  {
    ReadSignalsMembers(db, runId, a);
    ReadSignalsMembers(db, runId, b);
  }

  /** An apply adds only flags of its signal rows, and has one for each of them at the end. */
  lemma ApplyFlagRows(db: Database, t: Tables, runId: string, now: int)
    requires ApplyRouting(db, t, runId, now).Ok?
    ensures var t', rows := ApplyRouting(db, t, runId, now).value.0, ReadSignals(db, runId);
            && Runnable(rows) && AllFlagged(rows, t', runId) && t.flags <= t'.flags
            && forall f :: f in t'.flags ==> f in t.flags || exists row :: row in rows && f == FlagOf(runId, row)
  {
    var rows := ReadSignals(db, runId);
    ApplyFailsExactly(db, t, runId, now);
    SignalFoldOutcome(t, runId, rows, now);
    SignalFoldFlags(t, runId, rows, now);
    CommitFoldCounts(SignalFold(t, runId, rows, now).value.tables, runId, Blocked(rows), Pending(db, runId), now);
    SignalFoldLawful(t, runId, rows, now);
  }

  lemma FlagPresent(db: Database, t: Tables, runId: string, row: SignalRow)
    requires SignalKeysUnique(db) && FlagsFromSignals(db, t) && row in ReadSignals(db, runId)
    requires FlagExists(t, runId, row.candidateId, KindOf(row.signal))
    ensures FlagOf(runId, row) in t.flags
  {
    var g :| g in t.flags && g.runId == runId && g.candidateId == row.candidateId && g.kind == KindOf(row.signal);
    var from :| from in ReadSignals(db, runId) && g == FlagOf(runId, from);
    FlagByKey(db, runId, row, from);
  }

  lemma ApplyFlags(db: Database, t: Tables, runId: string, now: int)
    requires SignalKeysUnique(db) && FlagsFromSignals(db, t) && ApplyRouting(db, t, runId, now).Ok?
    ensures var t' := ApplyRouting(db, t, runId, now).value.0;
            FlagsFromSignals(db, t') && FootprintOf(t').flags == FootprintOf(t).flags + WantedBy(db, runId).flags
  {
    var t', rows := ApplyRouting(db, t, runId, now).value.0, ReadSignals(db, runId);
    ApplyFlagRows(db, t, runId, now);
    assert FlagsFromSignals(db, t');
    forall row | row in rows ensures FlagOf(runId, row) in t'.flags {
      FlagPresent(db, t', runId, row);
    }
    assert forall f :: f in t.flags ==> f in t'.flags;
    assert WantedBy(db, runId).flags == set row | row in rows :: FlagOf(runId, row);
  }

  lemma ApplyJoins(db: Database, t: Tables, runId: string, now: int)
    requires SignalKeysUnique(db) && FlagsFromSignals(db, t)
    ensures var t' := Next(db, t, Apply(runId, now));
            FlagsFromSignals(db, t') && FootprintOf(t') == Join(FootprintOf(t), WantedBy(db, runId))
  {
    ApplyFailsExactly(db, t, runId, now);
    if ApplyRouting(db, t, runId, now).Ok? {
      ApplyThoughtKeys(db, t, runId, now);
      ApplyPromoteKeys(db, t, runId, now);
      ApplyFlags(db, t, runId, now);
    }
  }

  // --- One graduation joins what it wants ---

  lemma GraduateJoins(db: Database, t: Tables, runId: string, threshold: int, now: int)
    ensures var t' := Next(db, t, Graduate(runId, threshold, now));
            t'.flags == t.flags && FootprintOf(t') == Join(FootprintOf(t), GraduatedBy(db, runId, threshold))
  {
    var targets, t' := Targets(db, runId, threshold), Next(db, t, Graduate(runId, threshold, now));
    GraduateFoldOutcome(t, runId, targets, now);
    GraduateFoldLawful(t, runId, targets, now);
    forall k ensures k in FootprintOf(t').promoteKeys <==>
                       k in FootprintOf(t).promoteKeys + GraduatedBy(db, runId, threshold).promoteKeys {
      GraduatePromotes(t, t', runId, targets, now, k);
    }
  }

  lemma GraduatePromotes(t: Tables, t': Tables, runId: string, targets: seq<CohortRow>, now: int, k: string)
    requires t' == GraduateFold(t, runId, targets, now).tables && t.events <= t'.events
    ensures k in FootprintOf(t').promoteKeys <==>
              k in FootprintOf(t).promoteKeys || exists x :: x in targets && GraduateScopeKey(x.contentHash) == k
  {
    PromoteExistsByKey(t, k);
    PromoteExistsByKey(t', k);
    GraduateFoldOutcome(t, runId, targets, now);
    GraduatesOnlyTargets(t, runId, targets, now);
    if EventExists(t', PROMOTE, k) {
      var e :| e in t'.events && e.scoped.action == Some(PROMOTE) && e.scoped.scopeKey == Some(k);
      var i :| 0 <= i < |t'.events| && t'.events[i] == e;
      if i < |t.events| {
        assert t.events[i] == e;
      } else {
        var g := GraduateFold(t, runId, targets, now);
        assert GraduationAsked(g.tables.events[|t.events| + (i - |t.events|)], g.graduated[i - |t.events|],
                               t, runId, targets, now);
      }
    }
    if EventExists(t, PROMOTE, k) {
      var e :| e in t.events && e.scoped.action == Some(PROMOTE) && e.scoped.scopeKey == Some(k);
      assert e in t'.events;
    }
  }

  lemma NextJoins(db: Database, t: Tables, step: Step)
    requires SignalKeysUnique(db) && FlagsFromSignals(db, t) && !step.Undo?
    ensures FlagsFromSignals(db, Next(db, t, step))
    ensures FootprintOf(Next(db, t, step)) == Join(FootprintOf(t), WantedFor(db, TaskOf(step)))
  {
    match step
    case Apply(runId, now) => ApplyJoins(db, t, runId, now);
    case Graduate(runId, threshold, now) => GraduateJoins(db, t, runId, threshold, now);
  }

  // --- A list of applies and graduations joins what its tasks want ---

  ghost predicate NoUndo(steps: seq<Step>) {
    forall s :: s in steps ==> !s.Undo?
  }

  function TasksOf(steps: seq<Step>): set<Task> {
    set s | s in steps && !s.Undo? :: TaskOf(s)
  }

  lemma {:induction false} TasksJoin(db: Database, t: Tables, steps: seq<Step>)
    requires SignalKeysUnique(db) && FlagsFromSignals(db, t) && NoUndo(steps)
    ensures FlagsFromSignals(db, Run(db, t, steps))
    ensures FootprintOf(Run(db, t, steps)) == Join(FootprintOf(t), WantedForAll(db, TasksOf(steps)))
    decreases |steps|
  {
    if steps != [] {
      var next, rest := Next(db, t, steps[0]), TasksOf(steps[1..]);
      NextJoins(db, t, steps[0]);
      TasksJoin(db, next, steps[1..]);
      TasksSplit(steps);
      WantedForAllSplits(db, TaskOf(steps[0]), rest);
      JoinAssociates(FootprintOf(t), WantedFor(db, TaskOf(steps[0])), WantedForAll(db, rest));
    } else {
      assert WantedForAll(db, TasksOf(steps)) == Footprint({}, {}, {});
    }
  }

  lemma JoinAssociates(a: Footprint, b: Footprint, c: Footprint)
    ensures Join(Join(a, b), c) == Join(a, Join(b, c))
  {
  }

  lemma TasksSplit(steps: seq<Step>)
    requires steps != [] && !steps[0].Undo?
    ensures TasksOf(steps) == {TaskOf(steps[0])} + TasksOf(steps[1..])
  {
    assert steps == [steps[0]] + steps[1..];
  }

  lemma WantedForAllSplits(db: Database, task: Task, tasks: set<Task>)
    ensures WantedForAll(db, {task} + tasks) == Join(WantedFor(db, task), WantedForAll(db, tasks))
  {
    var all, one, rest := WantedForAll(db, {task} + tasks), WantedFor(db, task), WantedForAll(db, tasks);
    forall k ensures k in all.thoughtKeys <==> k in one.thoughtKeys + rest.thoughtKeys {}
    forall k ensures k in all.promoteKeys <==> k in one.promoteKeys + rest.promoteKeys {}
    forall f ensures f in all.flags <==> f in one.flags + rest.flags {}
  }

  // --- Table sizes follow from the footprint ---

  lemma {:induction false} TotalKeys<T, K>(s: seq<T>, key: T -> Option<K>)
    requires forall x :: x in s ==> key(x).Some?
    ensures |KeysOf(s, key)| == |s|
  {
    if s != [] { TotalKeys(s[..|s| - 1], key); }
  }

  lemma {:induction false} EventsSplit(events: seq<LifecycleEvent>)
    requires forall e :: e in events ==>
               e.scoped.scopeKey.Some? && (e.scoped.action == Some(PROMOTE) || e.scoped.action == Some(RELEGATE))
    ensures |events| == |KeysOf(events, PromoteKey)| + |KeysOf(events, RelegationKey)| + |KeysOf(events, UndoKey)|
  {
    if events != [] { EventsSplit(events[..|events| - 1]); }
  }

  lemma {:induction false} CommitWritesNoUndo(t: Tables, runId: string, blocked: set<string>, items: seq<PendingItem>,
                                              now: int)
    ensures KeysOf(CommitFold(t, runId, blocked, items, now).tables.events, UndoKey) == KeysOf(t.events, UndoKey)
  {
    if items != [] {
      CommitWritesNoUndo(t, runId, blocked, items[..|items| - 1], now);
      var mid := CommitFold(t, runId, blocked, items[..|items| - 1], now).tables;
      var end := CommitFold(t, runId, blocked, items, now).tables;
      if end.events != mid.events { KeysOfAppend(mid.events, end.events[|mid.events|], UndoKey); }
    }
  }

  lemma {:induction false} GraduateWritesNoUndo(t: Tables, runId: string, targets: seq<CohortRow>, now: int)
    ensures KeysOf(GraduateFold(t, runId, targets, now).tables.events, UndoKey) == KeysOf(t.events, UndoKey)
  {
    if targets != [] {
      GraduateWritesNoUndo(t, runId, targets[..|targets| - 1], now);
      var mid := GraduateFold(t, runId, targets[..|targets| - 1], now).tables;
      var end := GraduateFold(t, runId, targets, now).tables;
      if end.events != mid.events { KeysOfAppend(mid.events, end.events[|mid.events|], UndoKey); }
    }
  }

  lemma NextWritesNoUndo(db: Database, t: Tables, step: Step)
    requires !step.Undo?
    ensures KeysOf(Next(db, t, step).events, UndoKey) == KeysOf(t.events, UndoKey)
  {
    match step
    case Graduate(runId, threshold, now) => GraduateWritesNoUndo(t, runId, Targets(db, runId, threshold), now);
    case Apply(runId, now) =>
      var rows := ReadSignals(db, runId);
      SignalFoldOutcome(t, runId, rows, now);
      if SignalFold(t, runId, rows, now).Ok? {
        var s := SignalFold(t, runId, rows, now).value;
        CommitWritesNoUndo(s.tables, runId, s.blocked, Pending(db, runId), now);
      }
  }

  lemma {:induction false} RunWritesNoUndo(db: Database, t: Tables, steps: seq<Step>)
    requires NoUndo(steps)
    ensures KeysOf(Run(db, t, steps).events, UndoKey) == KeysOf(t.events, UndoKey)
    decreases |steps|
  {
    if steps != [] {
      NextWritesNoUndo(db, t, steps[0]);
      RunWritesNoUndo(db, Next(db, t, steps[0]), steps[1..]);
    }
  }

  lemma {:induction false} ReversalKeysUnique(flags: seq<ApplyFlag>)
    requires NoDuplicates(KeysOf(flags, FlagKey))
    ensures NoDuplicates(KeysOf(flags, AppliedReversalKey))
  {
    if flags != [] {
      var init, f := flags[..|flags| - 1], flags[|flags| - 1];
      assert flags == init + [f];
      NoDuplicatesAppend(KeysOf(init, FlagKey), FlagKey(f).value);
      ReversalKeysUnique(init);
      if AppliedReversalKey(f).Some? {
        KeysOfMember(init, AppliedReversalKey, AppliedReversalKey(f).value);
        KeysOfMember(init, FlagKey, FlagKey(f).value);
        NoDuplicatesAppend(KeysOf(init, AppliedReversalKey), AppliedReversalKey(f).value);
      }
    }
  }

  /** The applied reversals a set of flags records. */
  function ReversalsIn(flags: set<ApplyFlag>): set<(string, string)> {
    set f | f in flags && AppliedReversalKey(f).Some? :: AppliedReversalKey(f).value
  }

  /** With no undo written, the footprint fixes the relegated pairs and every table's size. */
  lemma FootprintFixesSizes(t: Tables)
    requires Inv(t) && KeysOf(t.events, UndoKey) == []
    ensures var f := FootprintOf(t);
            && RelegatedPairs(t) == ReversalsIn(f.flags)
            && |t.thoughts| == |f.thoughtKeys|
            && |t.events| == |f.promoteKeys| + |ReversalsIn(f.flags)|
            && |t.tierMoves| == |t.thoughts| + |t.events|
            && |t.flags| == |f.flags|
  {
    TotalKeys(t.thoughts, ThoughtKey);
    DistinctSize(KeysOf(t.thoughts, ThoughtKey));
    EventsSplit(t.events);
    DistinctSize(KeysOf(t.events, PromoteKey));
    ReversalKeysUnique(t.flags);
    DistinctSize(KeysOf(t.events, RelegationKey));
    forall k ensures k in RelegatedPairs(t) <==> k in ReversalsIn(FootprintOf(t).flags) {
      KeysOfMember(t.flags, AppliedReversalKey, k);
    }
    FlagsAreASet(t.flags);
    DistinctSize(t.flags);
    MovesMatchRows(t);
  }

  lemma FlagsAreASet(flags: seq<ApplyFlag>)
    requires NoDuplicates(KeysOf(flags, FlagKey))
    ensures NoDuplicates(flags)
    decreases |flags|
  {
    if flags != [] {
      var init, f := flags[..|flags| - 1], flags[|flags| - 1];
      assert flags == init + [f];
      NoDuplicatesAppend(KeysOf(init, FlagKey), FlagKey(f).value);
      FlagsAreASet(init);
      KeysOfMember(init, FlagKey, FlagKey(f).value);
      NoDuplicatesAppend(init, f);
    }
  }

  /** The books balance: one tier move for each thought and each lifecycle event. */
  lemma MovesMatchRows(t: Tables)
    requires BooksBalance(t)
    ensures |t.tierMoves| == |t.thoughts| + |t.events|
  {
    TotalKeys(t.tierMoves, MoveRef);
    TotalKeys(t.thoughts, ThoughtRef);
    TotalKeys(t.events, EventRef);
    var m, a, b := KeysOf(t.tierMoves, MoveRef), KeysOf(t.thoughts, ThoughtRef), KeysOf(t.events, EventRef);
    assert |multiset(m)| == |m| && |multiset(a)| == |a| && |multiset(b)| == |b|;
  }

  lemma TasksFromEmpty(db: Database, steps: seq<Step>)
    requires SignalKeysUnique(db) && NoUndo(steps)
    ensures var t := Run(db, EmptyMirrors, steps);
            && Inv(t) && KeysOf(t.events, UndoKey) == []
            && FootprintOf(t) == WantedForAll(db, TasksOf(steps))
  {
    EmptyKeepsInvariant();
    RunKeepsInv(db, EmptyMirrors, steps);
    TasksJoin(db, EmptyMirrors, steps);
    RunWritesNoUndo(db, EmptyMirrors, steps);
    JoinWithNothing(WantedForAll(db, TasksOf(steps)));
  }

  lemma JoinWithNothing(f: Footprint)
    ensures Join(FootprintOf(EmptyMirrors), f) == f
  {
    assert FootprintOf(EmptyMirrors) == Footprint({}, {}, {});
  }

  /**
   * Two lists of applies and graduations over the same runs and thresholds, in any
   * order, with any repeats and any clocks, end with the same thoughts, promoted keys,
   * flags, relegated pairs and table sizes.
   */
  lemma OrderIndependence(db: Database, a: seq<Step>, b: seq<Step>)
    requires SignalKeysUnique(db) && NoUndo(a) && NoUndo(b) && TasksOf(a) == TasksOf(b)
    ensures var ta, tb := Run(db, EmptyMirrors, a), Run(db, EmptyMirrors, b);
            && FootprintOf(ta) == FootprintOf(tb) == WantedForAll(db, TasksOf(a))
            && RelegatedPairs(ta) == RelegatedPairs(tb)
            && |ta.thoughts| == |tb.thoughts| && |ta.events| == |tb.events|
            && |ta.tierMoves| == |tb.tierMoves| && |ta.flags| == |tb.flags|
  {
    TasksFromEmpty(db, a);
    TasksFromEmpty(db, b);
    FootprintFixesSizes(Run(db, EmptyMirrors, a));
    FootprintFixesSizes(Run(db, EmptyMirrors, b));
  }
}
