/**
 * What every history of applies, graduations and undos keeps. A history is any
 * list of steps over one frozen database; a step that fails changes nothing.
 */
module DreamHistory {
  import opened Wrappers
  import opened Projections
  import opened ScopeKeys
  import opened DreamDatabase
  import opened DreamTables
  import opened DreamSteps

  datatype Step =
    | Apply(runId: string, now: int)
    | Graduate(runId: string, threshold: int, now: int)
    | Undo(runId: string, scopeKey: string, now: int)

  function Next(db: Database, t: Tables, step: Step): Tables {
    match step
    case Apply(runId, now) =>
      (match ApplyRouting(db, t, runId, now) case Err(_) => t case Ok((t', _)) => t')
    case Graduate(runId, threshold, now) => GraduateRecurring(db, t, runId, threshold, now).tables
    case Undo(runId, scopeKey, now) => UndoGraduate(t, runId, scopeKey, now).0
  }

  function Run(db: Database, t: Tables, steps: seq<Step>): Tables
    decreases |steps|
  {
    if steps == [] then t else Run(db, Next(db, t, steps[0]), steps[1..])
  }

  function Scoped(events: seq<LifecycleEvent>): seq<ScopedLifecycleEvent> {
    seq(|events|, i requires 0 <= i < |events| => events[i].scoped)
  }

  lemma ScopedAppend(events: seq<LifecycleEvent>, e: LifecycleEvent)
    ensures Scoped(events + [e]) == Scoped(events) + [e.scoped]
  {
  }

  // --- Lawful growth: tables extended, the invariant kept, no retired key revived ---

  /** A key that was promoted and no longer stands does not come back. */
  ghost predicate NoRevival(a: Tables, b: Tables) {
    forall key :: EventExists(a, PROMOTE, key) && !Standing(Scoped(a.events), key) ==> !Standing(Scoped(b.events), key)
  }

  ghost predicate Lawful(a: Tables, b: Tables) {
    Extends(a, b) && (Inv(a) ==> Inv(b)) && NoRevival(a, b)
  }

  lemma LawfulTransitive(a: Tables, b: Tables, c: Tables)
    requires Lawful(a, b) && Lawful(b, c)
    ensures Lawful(a, c)
  {
  }

  lemma AppendEventNoRevival(t: Tables, t': Tables, e: LifecycleEvent)
    requires t'.events == t.events + [e]
    requires e.scoped.action == Some(PROMOTE) && e.scoped.scopeKey.Some? ==>
               !EventExists(t, PROMOTE, e.scoped.scopeKey.value)
    ensures NoRevival(t, t')
  {
    ScopedAppend(t.events, e);
    forall key | EventExists(t, PROMOTE, key) && !Standing(Scoped(t.events), key)
      ensures !Standing(Scoped(t'.events), key) {
      AppendNeverRevives(Scoped(t.events), e.scoped, key);
    }
  }

  lemma SignalStepLawful(st: SignalState, runId: string, row: SignalRow, now: int)
    requires SignalStep(st, runId, row, now).Ok?
    ensures Lawful(st.tables, SignalStep(st, runId, row, now).value.tables)
  {
    var t, flag := st.tables, FlagOf(runId, row);
    if !FlagExists(t, runId, row.candidateId, flag.kind) {
      var flagged := AddFlag(t, flag);
      if flag.applied {
        var t' := AddRelegation(flagged, runId, row.candidateId, row.targetScopeKey.value, now);
        var e := t'.events[|t.events|];
        AppendEventNoRevival(t, t', e);
        if Inv(t) {
          AddReversalKeepsInv(t, flag, e.scoped, e.content, Some(ROUTE_TIER), RELEGATED_TIER, REVERSAL_CAUSE);
        }
      } else if Inv(t) {
        AddPlainFlagKeepsInv(t, flag);
      }
    }
  }

  lemma {:induction false} SignalFoldLawful(t: Tables, runId: string, rows: seq<SignalRow>, now: int)
    requires SignalFold(t, runId, rows, now).Ok?
    ensures Lawful(t, SignalFold(t, runId, rows, now).value.tables)
  {
    if rows != [] {
      var init := rows[..|rows| - 1];
      SignalFoldLawful(t, runId, init, now);
      var st := SignalFold(t, runId, init, now).value;
      SignalStepLawful(st, runId, rows[|rows| - 1], now);
      LawfulTransitive(t, st.tables, SignalFold(t, runId, rows, now).value.tables);
    }
  }

  lemma AddEventLawful(t: Tables, runId: string, scoped: ScopedLifecycleEvent, content: string,
                       contentHash: Option<string>, candidateId: Option<string>,
                       fromTier: Option<string>, toTier: string, cause: string)
    requires scoped.scopeKey.Some?
    requires (scoped.action == Some(PROMOTE) && !EventExists(t, PROMOTE, scoped.scopeKey.value))
             || (scoped.action == Some(RELEGATE) && candidateId == None)
    ensures Lawful(t, AddEvent(t, runId, scoped, content, contentHash, candidateId, fromTier, toTier, cause))
  {
    var t' := AddEvent(t, runId, scoped, content, contentHash, candidateId, fromTier, toTier, cause);
    AppendEventNoRevival(t, t', t'.events[|t.events|]);
    if Inv(t) {
      AddEventKeepsInv(t, runId, scoped, content, contentHash, candidateId, fromTier, toTier, cause);
    }
  }

  lemma AddThoughtLawful(t: Tables, runId: string, item: PendingItem)
    requires !ThoughtExists(t, item.contentHash, item.namespace)
    ensures Lawful(t, AddThought(t, runId, item))
  {
    if Inv(t) { AddThoughtKeepsInv(t, runId, item); }
  }

  lemma ApplyItemLawful(t: Tables, runId: string, item: PendingItem, now: int)
    ensures Lawful(t, ApplyItem(t, runId, item, now).0)
  {
    match ApplyItem(t, runId, item, now).1
    case WrotePromote =>
      AddEventLawful(t, runId, ScopedLifecycleEvent(Some(PROMOTE), Some(RuleScopeKey(item.contentHash)), now),
                     item.content,
                     Some(item.contentHash), Some(item.candidateId), None, ROUTE_TIER, ROUTE_CAUSE);
    case WroteThought => AddThoughtLawful(t, runId, item);
    case Skipped =>
    case NotApplied =>
  }

  lemma {:induction false} CommitFoldLawful(t: Tables, runId: string, blocked: set<string>, items: seq<PendingItem>,
                                            now: int)
    ensures Lawful(t, CommitFold(t, runId, blocked, items, now).tables)
  {
    if items != [] {
      var init := items[..|items| - 1];
      CommitFoldLawful(t, runId, blocked, init, now);
      var mid := CommitFold(t, runId, blocked, init, now).tables;
      ApplyItemLawful(mid, runId, items[|items| - 1], now);
      LawfulTransitive(t, mid, ApplyItem(mid, runId, items[|items| - 1], now).0);
    }
  }

  lemma ApplyLawful(db: Database, t: Tables, runId: string, now: int)
    requires ApplyRouting(db, t, runId, now).Ok?
    ensures Lawful(t, ApplyRouting(db, t, runId, now).value.0)
  {
    var rows := ReadSignals(db, runId);
    SignalFoldLawful(t, runId, rows, now);
    var s := SignalFold(t, runId, rows, now).value;
    CommitFoldLawful(s.tables, runId, s.blocked, Pending(db, runId), now);
    LawfulTransitive(t, s.tables, ApplyRouting(db, t, runId, now).value.0);
  }

  lemma GraduateStepLawful(st: GraduateState, runId: string, target: CohortRow, now: int)
    ensures Lawful(st.tables, GraduateStep(st, runId, target, now).tables)
  {
    if !EventExists(st.tables, PROMOTE, GraduateScopeKey(target.contentHash)) {
      AddEventLawful(st.tables, runId, ScopedLifecycleEvent(Some(PROMOTE), Some(GraduateScopeKey(target.contentHash)),
                                                            now),
                     target.content, Some(target.contentHash), Some(target.candidateId),
                     Some(ROUTE_TIER), GRADUATED_TIER, GRADUATE_CAUSE);
    }
  }

  lemma {:induction false} GraduateFoldLawful(t: Tables, runId: string, targets: seq<CohortRow>, now: int)
    ensures Lawful(t, GraduateFold(t, runId, targets, now).tables)
  {
    if targets != [] {
      var init := targets[..|targets| - 1];
      GraduateFoldLawful(t, runId, init, now);
      var mid := GraduateFold(t, runId, init, now);
      GraduateStepLawful(mid, runId, targets[|targets| - 1], now);
      LawfulTransitive(t, mid.tables, GraduateFold(t, runId, targets, now).tables);
    }
  }

  lemma UndoLawful(t: Tables, runId: string, scopeKey: string, now: int)
    ensures Lawful(t, UndoGraduate(t, runId, scopeKey, now).0)
  {
    if UndoGraduate(t, runId, scopeKey, now).1 == 1 {
      var promote := NewestPromote(t.events, scopeKey).value;
      AddEventLawful(t, runId, ScopedLifecycleEvent(Some(RELEGATE), Some(scopeKey), now), promote.content,
                     promote.contentHash, None, Some(GRADUATED_TIER), ROUTE_TIER, UNDO_CAUSE);
    }
  }

  lemma NextLawful(db: Database, t: Tables, step: Step)
    ensures Lawful(t, Next(db, t, step))
  {
    match step
    case Apply(runId, now) => if ApplyRouting(db, t, runId, now).Ok? { ApplyLawful(db, t, runId, now); }
    case Graduate(runId, threshold, now) => GraduateFoldLawful(t, runId, Targets(db, runId, threshold), now);
    case Undo(runId, scopeKey, now) => UndoLawful(t, runId, scopeKey, now);
  }

  lemma {:induction false} RunLawful(db: Database, t: Tables, steps: seq<Step>)
    ensures Lawful(t, Run(db, t, steps))
    decreases |steps|
  {
    if steps != [] {
      NextLawful(db, t, steps[0]);
      RunLawful(db, Next(db, t, steps[0]), steps[1..]);
      LawfulTransitive(t, Next(db, t, steps[0]), Run(db, t, steps));
    }
  }

  lemma RunExtends(db: Database, t: Tables, steps: seq<Step>)
    ensures Extends(t, Run(db, t, steps))
  {
    RunLawful(db, t, steps);
  }

  lemma RunKeepsInv(db: Database, t: Tables, steps: seq<Step>)
    requires Inv(t)
    ensures Inv(Run(db, t, steps))
  {
    RunLawful(db, t, steps);
  }

  lemma EmptyKeepsInvariant()
    ensures Inv(EmptyMirrors)
  {
  }

  /** Every reachable run schema keeps its books, from empty mirrors on. */
  lemma ReachableKeepsInvariant(db: Database, steps: seq<Step>, more: seq<Step>)
    ensures Inv(Run(db, EmptyMirrors, steps))
    ensures Extends(Run(db, EmptyMirrors, steps), Run(db, Run(db, EmptyMirrors, steps), more))
  {
    EmptyKeepsInvariant();
    RunLawful(db, EmptyMirrors, steps);
    RunLawful(db, Run(db, EmptyMirrors, steps), more);
  }

  // --- What one apply wants, whatever the tables hold ---

  predicate Runnable(rows: seq<SignalRow>) {
    forall row :: row in rows && row.signal.ReversesRule? ==> row.targetScopeKey.Some?
  }

  function Blocked(rows: seq<SignalRow>): set<string> {
    set row | row in rows && row.signal.ContradictsCanon? :: row.candidateId
  }

  function Commitments(items: seq<PendingItem>, blocked: set<string>): nat {
    if items == [] then 0
    else Commitments(items[..|items| - 1], blocked)
         + var item := items[|items| - 1];
           if item.candidateId !in blocked && Commits(item.action) then 1 else 0
  }

  function Declined(items: seq<PendingItem>, blocked: set<string>): nat {
    if items == [] then 0
    else Declined(items[..|items| - 1], blocked)
         + var item := items[|items| - 1];
           if item.candidateId !in blocked && !Commits(item.action) then 1 else 0
  }

  predicate Wanted(items: seq<PendingItem>, blocked: set<string>, item: PendingItem) {
    item in items && item.candidateId !in blocked && Commits(item.action)
  }

  lemma SplitLast<T>(s: seq<T>)
    requires s != []
    ensures s == s[..|s| - 1] + [s[|s| - 1]]
    ensures forall x :: x in s <==> x in s[..|s| - 1] || x == s[|s| - 1]
  {
  }

  /** The signal pass fails or not, and blocks whom it blocks, independently of the tables. */
  lemma {:induction false} SignalFoldShape(t: Tables, runId: string, rows: seq<SignalRow>, now: int)
    ensures SignalFold(t, runId, rows, now).Ok? <==> Runnable(rows)
    ensures SignalFold(t, runId, rows, now).Ok? ==>
              var s := SignalFold(t, runId, rows, now).value;
              && s.blocked == Blocked(rows)
              && s.tables.thoughts == t.thoughts
              && |s.tables.flags| == |t.flags| + s.applyFlags
              && |s.tables.events| == |t.events| + s.relegates
              && |s.tables.tierMoves| == |t.tierMoves| + s.reversalTierMoves
  {
    if rows != [] {
      SplitLast(rows);
      SignalFoldShape(t, runId, rows[..|rows| - 1], now);
    }
  }

  lemma {:induction false} SignalFoldKeys(t: Tables, runId: string, rows: seq<SignalRow>, now: int)
    requires SignalFold(t, runId, rows, now).Ok?
    ensures var s := SignalFold(t, runId, rows, now).value;
            && KeysOf(s.tables.events, PromoteKey) == KeysOf(t.events, PromoteKey)
            && KeysOf(s.tables.events, UndoKey) == KeysOf(t.events, UndoKey)
  {
    if rows != [] {
      SignalFoldKeys(t, runId, rows[..|rows| - 1], now);
    }
  }

  lemma SignalFoldOutcome(t: Tables, runId: string, rows: seq<SignalRow>, now: int)
    ensures SignalFold(t, runId, rows, now).Ok? <==> Runnable(rows)
    ensures SignalFold(t, runId, rows, now).Ok? ==>
              var s := SignalFold(t, runId, rows, now).value;
              && s.blocked == Blocked(rows)
              && s.tables.thoughts == t.thoughts
              && KeysOf(s.tables.events, PromoteKey) == KeysOf(t.events, PromoteKey)
              && KeysOf(s.tables.events, UndoKey) == KeysOf(t.events, UndoKey)
              && |s.tables.flags| == |t.flags| + s.applyFlags
              && |s.tables.events| == |t.events| + s.relegates
              && |s.tables.tierMoves| == |t.tierMoves| + s.reversalTierMoves
  {
    SignalFoldShape(t, runId, rows, now);
    if SignalFold(t, runId, rows, now).Ok? { SignalFoldKeys(t, runId, rows, now); }
  }

  ghost predicate AllFlagged(rows: seq<SignalRow>, t: Tables, runId: string) {
    forall row :: row in rows ==> FlagExists(t, runId, row.candidateId, KindOf(row.signal))
  }

  ghost predicate AllPresent(items: seq<PendingItem>, blocked: set<string>, t: Tables) {
    forall item :: Wanted(items, blocked, item) ==> ItemPresent(t, item)
  }

  /** Every signal row leaves its flag, and every new flag comes from a signal row. */
  lemma {:induction false} SignalFoldFlags(t: Tables, runId: string, rows: seq<SignalRow>, now: int)
    requires SignalFold(t, runId, rows, now).Ok?
    ensures var t' := SignalFold(t, runId, rows, now).value.tables;
            && AllFlagged(rows, t', runId)
            && (forall f :: f in t'.flags ==> f in t.flags || exists row :: row in rows && f == FlagOf(runId, row))
  {
    if rows != [] {
      SplitLast(rows);
      var init, row := rows[..|rows| - 1], rows[|rows| - 1];
      SignalFoldFlags(t, runId, init, now);
      var before, after := SignalFold(t, runId, init, now).value, SignalFold(t, runId, rows, now).value;
      forall r | r in rows ensures FlagExists(after.tables, runId, r.candidateId, KindOf(r.signal)) {
        if r in init { assert FlagExists(before.tables, runId, r.candidateId, KindOf(r.signal)); }
      }
    }
  }

  /** A pass whose flags are all present writes nothing. */
  lemma {:induction false} SignalFoldSilent(t: Tables, runId: string, rows: seq<SignalRow>, now: int)
    requires Runnable(rows)
    requires AllFlagged(rows, t, runId)
    ensures SignalFold(t, runId, rows, now) == Ok(SignalState(t, Blocked(rows), 0, 0, 0))
  {
    if rows != [] {
      SplitLast(rows);
      var init, row := rows[..|rows| - 1], rows[|rows| - 1];
      SignalFoldSilent(t, runId, init, now);
      assert row in rows && FlagExists(t, runId, row.candidateId, FlagOf(runId, row).kind);
      if row.signal.ContradictsCanon? {
        assert Blocked(rows) == Blocked(init) + {row.candidateId};
      } else {
        assert Blocked(rows) == Blocked(init);
      }
    } else {
      assert Blocked(rows) == {};
    }
  }

  predicate ItemPresent(t: Tables, item: PendingItem) {
    if item.action == RULE_EVENT then EventExists(t, PROMOTE, RuleScopeKey(item.contentHash))
    else ThoughtExists(t, item.contentHash, item.namespace)
  }

  lemma ApplyItemPresent(t: Tables, runId: string, item: PendingItem, now: int)
    ensures Commits(item.action) ==> ItemPresent(ApplyItem(t, runId, item, now).0, item)
    ensures Commits(item.action) && ItemPresent(t, item) ==> ApplyItem(t, runId, item, now) == (t, Skipped)
  {
    var (t', outcome) := ApplyItem(t, runId, item, now);
    if outcome.WrotePromote? { assert t'.events[|t.events|] in t'.events; }
    if outcome.WroteThought? { assert t'.thoughts[|t.thoughts|] in t'.thoughts; }
  }

  /** Each unblocked commitment is written or skipped, and the counters match the rows. */
  lemma {:induction false} CommitFoldCounts(t: Tables, runId: string, blocked: set<string>, items: seq<PendingItem>,
                                            now: int)
    ensures var c := CommitFold(t, runId, blocked, items, now);
            && c.thoughts + c.promotes + c.skippedExisting == Commitments(items, blocked)
            && c.notApplied == Declined(items, blocked)
            && |c.tables.thoughts| == |t.thoughts| + c.thoughts
            && |c.tables.events| == |t.events| + c.promotes
            && |c.tables.tierMoves| == |t.tierMoves| + c.thoughts + c.promotes
            && c.tables.flags == t.flags
  {
    if items != [] {
      var init := CommitFold(t, runId, blocked, items[..|items| - 1], now);
      CommitFoldCounts(t, runId, blocked, items[..|items| - 1], now);
    }
  }

  /** Each unblocked commitment is present afterwards. */
  lemma {:induction false} CommitFoldPresent(t: Tables, runId: string, blocked: set<string>, items: seq<PendingItem>,
                                             now: int)
    ensures AllPresent(items, blocked, CommitFold(t, runId, blocked, items, now).tables)
  {
    if items != [] {
      SplitLast(items);
      var init, last := items[..|items| - 1], items[|items| - 1];
      CommitFoldPresent(t, runId, blocked, init, now);
      var mid := CommitFold(t, runId, blocked, init, now).tables;
      ApplyItemPresent(mid, runId, last, now);
      ApplyItemLawful(mid, runId, last, now);
      forall item | Wanted(items, blocked, item)
        ensures ItemPresent(CommitFold(t, runId, blocked, items, now).tables, item) {
        if item != last {
          assert Wanted(init, blocked, item);
        }
      }
    }
  }

  lemma {:induction false} CommitFoldSilent(t: Tables, runId: string, blocked: set<string>, items: seq<PendingItem>,
                                            now: int)
    requires AllPresent(items, blocked, t)
    ensures var c := CommitFold(t, runId, blocked, items, now);
            c.tables == t && c.thoughts == 0 && c.promotes == 0
  {
    if items != [] {
      SplitLast(items);
      var init, item := items[..|items| - 1], items[|items| - 1];
      forall i | Wanted(init, blocked, i) ensures ItemPresent(t, i) { assert Wanted(items, blocked, i); }
      CommitFoldSilent(t, runId, blocked, init, now);
      if item.candidateId !in blocked && Commits(item.action) {
        assert Wanted(items, blocked, item);
        ApplyItemPresent(t, runId, item, now);
      }
    }
  }

  // --- Replay is silent over every history ---

  /** Everything a run wants to write is already there. */
  ghost predicate Settled(db: Database, t: Tables, runId: string) {
    var rows := ReadSignals(db, runId);
    AllFlagged(rows, t, runId) && AllPresent(Pending(db, runId), Blocked(rows), t)
  }

  lemma ApplySettles(db: Database, t: Tables, runId: string, now: int)
    requires ApplyRouting(db, t, runId, now).Ok?
    ensures Settled(db, ApplyRouting(db, t, runId, now).value.0, runId)
  {
    var rows := ReadSignals(db, runId);
    SignalFoldOutcome(t, runId, rows, now);
    SignalFoldFlags(t, runId, rows, now);
    var s := SignalFold(t, runId, rows, now).value;
    CommitFoldLawful(s.tables, runId, s.blocked, Pending(db, runId), now);
    CommitFoldPresent(s.tables, runId, s.blocked, Pending(db, runId), now);
  }

  lemma ApplyCountsAre(db: Database, t: Tables, runId: string, now: int)
    requires ApplyRouting(db, t, runId, now).Ok?
    ensures var (t', counts) := ApplyRouting(db, t, runId, now).value;
            var rows, items := ReadSignals(db, runId), Pending(db, runId);
            && counts.thoughts + counts.promotes + counts.skippedExisting == Commitments(items, Blocked(rows))
            && counts.notApplied == Declined(items, Blocked(rows))
            && counts.canonBlocked == |Blocked(rows)|
            && |t'.thoughts| == |t.thoughts| + counts.thoughts
            && |t'.events| == |t.events| + counts.promotes + counts.relegates
            && |t'.tierMoves| == |t.tierMoves| + counts.tierMoves + counts.reversalTierMoves
            && |t'.flags| == |t.flags| + counts.applyFlags
  {
    var rows := ReadSignals(db, runId);
    SignalFoldOutcome(t, runId, rows, now);
    CommitFoldCounts(SignalFold(t, runId, rows, now).value.tables, runId, Blocked(rows), Pending(db, runId), now);
  }

  lemma SettledWritesNothing(db: Database, t: Tables, runId: string, now: int)
    requires Settled(db, t, runId) && Runnable(ReadSignals(db, runId))
    ensures ApplyRouting(db, t, runId, now).Ok?
    ensures var (t', counts) := ApplyRouting(db, t, runId, now).value;
            t' == t && counts.thoughts == counts.promotes == counts.tierMoves == 0
            && counts.applyFlags == counts.relegates == counts.reversalTierMoves == 0
  {
    var rows := ReadSignals(db, runId);
    SignalFoldSilent(t, runId, rows, now);
    CommitFoldSilent(t, runId, Blocked(rows), Pending(db, runId), now);
  }

  /** An apply fails exactly on a reversal signal without a target, whatever the tables hold. */
  lemma ApplyFailsExactly(db: Database, t: Tables, runId: string, now: int)
    ensures ApplyRouting(db, t, runId, now).Ok? <==> Runnable(ReadSignals(db, runId))
  {
    SignalFoldOutcome(t, runId, ReadSignals(db, runId), now);
  }

  /** The signal table's own check: a reversal names its target. */
  ghost predicate ReversalsAimed(db: Database) {
    forall s :: s in db.signals && s.signal.ReversesRule? ==> s.targetScopeKey.Some?
  }

  /** So no run over stored signals fails. */
  lemma StoredRunsApply(db: Database, t: Tables, runId: string, now: int)
    requires ReversalsAimed(db)
    ensures ApplyRouting(db, t, runId, now).Ok?
  {
    ApplyFailsExactly(db, t, runId, now);
    forall row | row in ReadSignals(db, runId) ensures row.signal.ReversesRule? ==> row.targetScopeKey.Some? {
      ReadSignalsMembers(db, runId, row);
    }
  }

  lemma SettledForEver(db: Database, t: Tables, runId: string, history: seq<Step>)
    requires Settled(db, t, runId)
    ensures Settled(db, Run(db, t, history), runId)
  {
    RunExtends(db, t, history);
  }

  /**
   * Once a run has been applied, applying it again after ANY history writes
   * nothing, and reports everything the first call wrote or skipped as skipped.
   */
  lemma ReplayIsSilent(db: Database, t: Tables, runId: string, now: int, history: seq<Step>, later: int)
    requires ApplyRouting(db, t, runId, now).Ok?
    ensures var (t1, first) := ApplyRouting(db, t, runId, now).value;
            var t2 := Run(db, t1, history);
            ApplyRouting(db, t2, runId, later)
            == Ok((t2, ApplyCounts(0, 0, 0, first.thoughts + first.promotes + first.skippedExisting,
                                   first.notApplied, 0, 0, 0, first.canonBlocked)))
  {
    var t1 := ApplyRouting(db, t, runId, now).value.0;
    ApplyFailsExactly(db, t, runId, now);
    ApplySettles(db, t, runId, now);
    SettledForEver(db, t1, runId, history);
    SettledWritesNothing(db, Run(db, t1, history), runId, later);
    ApplyCountsAre(db, t, runId, now);
    ApplyCountsAre(db, Run(db, t1, history), runId, later);
  }

  lemma {:induction false} GraduateFoldOutcome(t: Tables, runId: string, targets: seq<CohortRow>, now: int)
    ensures var g := GraduateFold(t, runId, targets, now);
            && |g.graduated| + g.skippedExisting == |targets|
            && |g.tables.events| == |t.events| + |g.graduated|
            && |g.tables.tierMoves| == |t.tierMoves| + |g.graduated|
            && g.tables.thoughts == t.thoughts && g.tables.flags == t.flags
            && (forall x :: x in targets ==> EventExists(g.tables, PROMOTE, GraduateScopeKey(x.contentHash)))
  {
    if targets != [] {
      SplitLast(targets);
      var init, target := targets[..|targets| - 1], targets[|targets| - 1];
      GraduateFoldOutcome(t, runId, init, now);
      var mid, end := GraduateFold(t, runId, init, now), GraduateFold(t, runId, targets, now);
      GraduateStepLawful(mid, runId, target, now);
      if |end.tables.events| > |mid.tables.events| {
        assert end.tables.events[|mid.tables.events|] in end.tables.events;
      }
    }
  }

  /** `e` promotes one of the targets, whose key had no promote before, and credits its candidate. */
  ghost predicate GraduationAsked(e: LifecycleEvent, candidateId: string, t: Tables, runId: string,
                                  targets: seq<CohortRow>, now: int) {
    exists x :: x in targets && x.candidateId == candidateId
      && !EventExists(t, PROMOTE, GraduateScopeKey(x.contentHash))
      && e == LifecycleEvent(e.id, ScopedLifecycleEvent(Some(PROMOTE), Some(GraduateScopeKey(x.contentHash)), now),
                             x.content, Some(x.contentHash), Some(candidateId), runId)
  }

  lemma GraduateStepAsks(t: Tables, st: GraduateState, runId: string, targets: seq<CohortRow>, target: CohortRow,
                         now: int)
    requires target in targets && Extends(t, st.tables) && GraduateStep(st, runId, target, now).tables != st.tables
    ensures var g := GraduateStep(st, runId, target, now);
            && |g.tables.events| == |st.tables.events| + 1
            && GraduationAsked(g.tables.events[|st.tables.events|], target.candidateId, t, runId, targets, now)
  {
  }

  /** Graduation writes only what a target asked for, in the order it reports. */
  lemma {:induction false} GraduatesOnlyTargets(t: Tables, runId: string, targets: seq<CohortRow>, now: int)
    ensures var g := GraduateFold(t, runId, targets, now);
            && |g.tables.events| == |t.events| + |g.graduated|
            && forall i :: 0 <= i < |g.graduated| ==>
                 GraduationAsked(g.tables.events[|t.events| + i], g.graduated[i], t, runId, targets, now)
  {
    if targets != [] {
      SplitLast(targets);
      var init, target := targets[..|targets| - 1], targets[|targets| - 1];
      GraduatesOnlyTargets(t, runId, init, now);
      GraduateFoldLawful(t, runId, init, now);
      var mid, end := GraduateFold(t, runId, init, now), GraduateFold(t, runId, targets, now);
      if end.tables != mid.tables { GraduateStepAsks(t, mid, runId, targets, target, now); }
      forall i | 0 <= i < |mid.graduated|
        ensures GraduationAsked(mid.tables.events[|t.events| + i], mid.graduated[i], t, runId, targets, now)
      {
        assert GraduationAsked(mid.tables.events[|t.events| + i], mid.graduated[i], t, runId, init, now);
      }
    }
  }

  /**
   * `e` promotes a decided, graduating row with the threshold of distinct sessions, under a key never
   * promoted before.
   */
  ghost predicate Earned(db: Database, e: LifecycleEvent, candidateId: string, t: Tables, runId: string,
                         threshold: int) {
    exists x ::
      && x in DecidedRows(db, runId) && Graduating(db, runId, x) && |Sessions(db, runId, x)| >= threshold
      && x.candidateId == candidateId && e.candidateId == Some(candidateId)
      && e.scoped.action == Some(PROMOTE) && e.scoped.scopeKey == Some(GraduateScopeKey(x.contentHash))
      && !EventExists(t, PROMOTE, GraduateScopeKey(x.contentHash))
  }

  /** Every event a graduation writes is earned. */
  lemma EveryGraduateEarnedIt(db: Database, t: Tables, runId: string, threshold: int, now: int)
    ensures var g := GraduateRecurring(db, t, runId, threshold, now);
            && |g.tables.events| == |t.events| + |g.graduated|
            && forall i :: 0 <= i < |g.graduated| ==>
                 Earned(db, g.tables.events[|t.events| + i], g.graduated[i], t, runId, threshold)
  {
    var targets, g := Targets(db, runId, threshold), GraduateRecurring(db, t, runId, threshold, now);
    GraduatesOnlyTargets(t, runId, targets, now);
    forall i | 0 <= i < |g.graduated|
      ensures Earned(db, g.tables.events[|t.events| + i], g.graduated[i], t, runId, threshold)
    {
      var e := g.tables.events[|t.events| + i];
      assert GraduationAsked(e, g.graduated[i], t, runId, targets, now);
      var x :| x in targets && x.candidateId == g.graduated[i]
               && !EventExists(t, PROMOTE, GraduateScopeKey(x.contentHash))
               && e == LifecycleEvent(e.id,
                                      ScopedLifecycleEvent(Some(PROMOTE), Some(GraduateScopeKey(x.contentHash)), now),
                                      x.content, Some(x.contentHash), Some(g.graduated[i]), runId);
      TargetMembers(db, runId, threshold, x);
    }
  }

  lemma {:induction false} GraduateFoldSilent(t: Tables, runId: string, targets: seq<CohortRow>, now: int)
    requires forall x :: x in targets ==> EventExists(t, PROMOTE, GraduateScopeKey(x.contentHash))
    ensures GraduateFold(t, runId, targets, now) == GraduateState(t, [], |targets|)
  {
    if targets != [] {
      SplitLast(targets);
      GraduateFoldSilent(t, runId, targets[..|targets| - 1], now);
    }
  }

  /** The same for graduation at one threshold: no key graduates twice, undone or not. */
  lemma GraduateReplayIsSilent(db: Database, t: Tables, runId: string, threshold: int, now: int, history: seq<Step>,
                               later: int)
    ensures var first := GraduateRecurring(db, t, runId, threshold, now);
            var t2 := Run(db, first.tables, history);
            GraduateRecurring(db, t2, runId, threshold, later)
            == GraduateState(t2, [], |first.graduated| + first.skippedExisting)
  {
    var targets := Targets(db, runId, threshold);
    var first := GraduateRecurring(db, t, runId, threshold, now);
    GraduateFoldOutcome(t, runId, targets, now);
    RunExtends(db, first.tables, history);
    GraduateFoldSilent(Run(db, first.tables, history), runId, targets, later);
  }

  // --- Withholding what contradicts canon ---

  ghost predicate ThoughtAsked(th: Thought, runId: string, items: seq<PendingItem>, blocked: set<string>) {
    exists item :: Wanted(items, blocked, item) && item.action == THOUGHT
                   && th == Thought(th.id, item.contentHash, item.namespace, item.content, item.candidateId, runId)
  }

  ghost predicate PromoteAsked(e: LifecycleEvent, runId: string, items: seq<PendingItem>, blocked: set<string>,
                               now: int) {
    exists item :: Wanted(items, blocked, item) && item.action == RULE_EVENT
                   && e == LifecycleEvent(e.id,
                                          ScopedLifecycleEvent(Some(PROMOTE), Some(RuleScopeKey(item.contentHash)),
                                                               now),
                                          item.content, Some(item.contentHash), Some(item.candidateId), runId)
  }

  /** `t'` adds to `t` only thoughts and promotes that a verdict outside `blocked` asked for. */
  ghost predicate AddsOnlyUnblocked(t: Tables, t': Tables, runId: string, items: seq<PendingItem>,
                                    blocked: set<string>, now: int) {
    && (forall i :: |t.thoughts| <= i < |t'.thoughts| ==> ThoughtAsked(t'.thoughts[i], runId, items, blocked))
    && (forall i :: |t.events| <= i < |t'.events| && t'.events[i].scoped.action == Some(PROMOTE) ==>
          PromoteAsked(t'.events[i], runId, items, blocked, now))
  }

  lemma AskedGrows(runId: string, items: seq<PendingItem>, blocked: set<string>, now: int)
    requires items != []
    ensures forall th :: ThoughtAsked(th, runId, items[..|items| - 1], blocked) ==>
              ThoughtAsked(th, runId, items, blocked)
    ensures forall e :: PromoteAsked(e, runId, items[..|items| - 1], blocked, now) ==>
              PromoteAsked(e, runId, items, blocked, now)
  {
    SplitLast(items);
    forall x | Wanted(items[..|items| - 1], blocked, x) ensures Wanted(items, blocked, x) {}
  }

  lemma {:induction false} CommitAddsOnlyUnblocked(t: Tables, runId: string, blocked: set<string>,
                                                   items: seq<PendingItem>, now: int)
    ensures AddsOnlyUnblocked(t, CommitFold(t, runId, blocked, items, now).tables, runId, items, blocked, now)
  {
    if items != [] {
      SplitLast(items);
      var init, item := items[..|items| - 1], items[|items| - 1];
      CommitAddsOnlyUnblocked(t, runId, blocked, init, now);
      CommitFoldLawful(t, runId, blocked, init, now);
      var mid, end := CommitFold(t, runId, blocked, init, now).tables, CommitFold(t, runId, blocked, items, now).tables;
      AskedGrows(runId, items, blocked, now);
      if end != mid {
        assert Wanted(items, blocked, item);
        assert forall i :: |t.thoughts| <= i < |mid.thoughts| ==> end.thoughts[i] == mid.thoughts[i];
        assert forall i :: |t.events| <= i < |mid.events| ==> end.events[i] == mid.events[i];
      }
    }
  }

  lemma {:induction false} SignalFoldAddsRelegates(t: Tables, runId: string, rows: seq<SignalRow>, now: int)
    requires SignalFold(t, runId, rows, now).Ok?
    ensures var t' := SignalFold(t, runId, rows, now).value.tables;
            |t.events| <= |t'.events|
            && forall i :: |t.events| <= i < |t'.events| ==> t'.events[i].scoped.action == Some(RELEGATE)
  {
    if rows != [] {
      SignalFoldAddsRelegates(t, runId, rows[..|rows| - 1], now);
    }
  }

  /** No apply writes a thought or a promote for a candidate it blocked, nor one no verdict asked for. */
  lemma ApplyWithholdsBlocked(db: Database, t: Tables, runId: string, now: int)
    requires ApplyRouting(db, t, runId, now).Ok?
    ensures AddsOnlyUnblocked(t, ApplyRouting(db, t, runId, now).value.0, runId, Pending(db, runId),
                              Blocked(ReadSignals(db, runId)), now)
  {
    var rows := ReadSignals(db, runId);
    SignalFoldOutcome(t, runId, rows, now);
    SignalFoldAddsRelegates(t, runId, rows, now);
    var s := SignalFold(t, runId, rows, now).value;
    CommitAddsOnlyUnblocked(s.tables, runId, s.blocked, Pending(db, runId), now);
    CommitFoldLawful(s.tables, runId, s.blocked, Pending(db, runId), now);
    var t' := ApplyRouting(db, t, runId, now).value.0;
    assert AddsOnlyUnblocked(s.tables, t', runId, Pending(db, runId), Blocked(rows), now);
    assert s.tables.thoughts == t.thoughts;
    assert forall i :: |t.events| <= i < |s.tables.events| ==> t'.events[i] == s.tables.events[i];
  }

  // --- Undo ---

  /** Some promote of the key is dated after `now`: its transaction began later, yet committed first. */
  ghost predicate PromotedAfter(t: Tables, scopeKey: string, now: int) {
    exists e :: e in t.events && PromoteKey(e) == Some(scopeKey) && e.scoped.createdAt > now
  }

  /**
   * An undo fails to retire a standing key exactly when some relegate of it, of any
   * age, is already there, or some promote of it is newer than the undo itself.
   */
  lemma UndoRetiresExactly(t: Tables, runId: string, scopeKey: string, now: int)
    ensures Standing(Scoped(UndoGraduate(t, runId, scopeKey, now).0.events), scopeKey) <==>
              Standing(Scoped(t.events), scopeKey)
              && (EventExists(t, RELEGATE, scopeKey) || PromotedAfter(t, scopeKey, now))
  {
    NewestPromoteFound(t.events, scopeKey);
    var (t', n) := UndoGraduate(t, runId, scopeKey, now);
    if n == 1 {
      UndoneStandsExactly(t, runId, scopeKey, now);
    } else if Standing(Scoped(t.events), scopeKey) {
      var i :| NewestAt(Scoped(t.events), scopeKey, i) && Scoped(t.events)[i].action == Some(PROMOTE);
      assert t.events[i] in t.events && PromoteKey(t.events[i]) == Some(scopeKey);
    }
  }

  lemma UndoneStandsExactly(t: Tables, runId: string, scopeKey: string, now: int)
    requires UndoGraduate(t, runId, scopeKey, now).1 == 1
    ensures Standing(Scoped(UndoGraduate(t, runId, scopeKey, now).0.events), scopeKey) <==>
              Standing(Scoped(t.events), scopeKey) && PromotedAfter(t, scopeKey, now)
  {
    var events, t' := Scoped(t.events), UndoGraduate(t, runId, scopeKey, now).0;
    var e := t'.events[|t.events|];
    ScopedAppend(t.events, e);
    if scopeKey != "" {
      AppendRelegateExactly(events, e.scoped, scopeKey);
      if Standing(events, scopeKey) && PromotedAfter(t, scopeKey, now) {
        var i :| NewestAt(events, scopeKey, i) && events[i].action == Some(PROMOTE);
        var p :| p in t.events && PromoteKey(p) == Some(scopeKey) && p.scoped.createdAt > now;
        var j :| 0 <= j < |t.events| && t.events[j] == p;
        assert Decisive(events[j], scopeKey);
      }
      if i :| NewestAt(events, scopeKey, i) && events[i].action == Some(PROMOTE) && events[i].createdAt > now {
        assert t.events[i] in t.events && PromoteKey(t.events[i]) == Some(scopeKey);
      }
    }
  }

  /** Once an undo has retired a graduation it never comes back, whatever runs later and whatever the clocks say. */
  lemma UndoIsPermanent(db: Database, t: Tables, runId: string, scopeKey: string, now: int, history: seq<Step>)
    requires EventExists(t, PROMOTE, scopeKey)
    requires !Standing(Scoped(UndoGraduate(t, runId, scopeKey, now).0.events), scopeKey)
    ensures !Standing(Scoped(Run(db, UndoGraduate(t, runId, scopeKey, now).0, history).events), scopeKey)
  {
    var t' := UndoGraduate(t, runId, scopeKey, now).0;
    UndoLawful(t, runId, scopeKey, now);
    RunLawful(db, t', history);
    assert EventExists(t', PROMOTE, scopeKey) by {
      var e :| e in t.events && e.scoped.action == Some(PROMOTE) && e.scoped.scopeKey == Some(scopeKey);
      assert e in t'.events;
    }
  }

  /** An undo copies the promote it retires and writes exactly one relegate and one tier move. */
  lemma UndoWritesOnce(db: Database, t: Tables, runId: string, scopeKey: string, now: int, history: seq<Step>,
                       later: int)
    ensures var (t1, n) := UndoGraduate(t, runId, scopeKey, now);
            && (n == 1 <==> EventExists(t, PROMOTE, scopeKey) && !EventExists(t, RELEGATE, scopeKey))
            && |t1.events| == |t.events| + n && |t1.tierMoves| == |t.tierMoves| + n
            && t1.thoughts == t.thoughts && t1.flags == t.flags
            && (n == 1 ==> UndoGraduate(Run(db, t1, history), runId, scopeKey, later) == (Run(db, t1, history), 0))
  {
    NewestPromoteFound(t.events, scopeKey);
    var (t1, n) := UndoGraduate(t, runId, scopeKey, now);
    if n == 1 {
      assert t1.events[|t.events|] in t1.events;
      RunLawful(db, t1, history);
    }
  }
}
