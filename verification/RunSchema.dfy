/**
 * One run schema as the scripts drive it: the mirror tables are fields, every
 * operation grows them in place, and a failed transaction puts them back.
 */
module RunSchema {
  import opened Wrappers
  import opened ScopeKeys
  import opened DreamDatabase
  import opened DreamTables
  import Steps = DreamSteps

  datatype SignalCounts = SignalCounts(applyFlags: nat, relegates: nat, reversalTierMoves: nat, blocked: set<string>)

  /** The pass so far, as the signal fold describes it. */
  function StateOf(t: Tables, c: SignalCounts): Steps.SignalState {
    Steps.SignalState(t, c.blocked, c.applyFlags, c.relegates, c.reversalTierMoves)
  }

  class Schema {
    var thoughts: seq<Thought>
    var events: seq<LifecycleEvent>
    var tierMoves: seq<TierMove>
    var flags: seq<ApplyFlag>

    function Contents(): Tables
      reads this
    {
      Tables(thoughts, events, tierMoves, flags)
    }

    constructor ()
      ensures Contents() == EmptyMirrors
    {
      thoughts, events, tierMoves, flags := [], [], [], [];
    }

    method InsertTierMove(entry: Entry, fromTier: Option<string>, toTier: string, cause: string, runId: string)
      modifies this`tierMoves
      ensures tierMoves == old(tierMoves) + [TierMove(entry, fromTier, toTier, cause, runId)]
    {
      tierMoves := tierMoves + [TierMove(entry, fromTier, toTier, cause, runId)];
    }

    method InsertLifecycleEvent(runId: string, scoped: ScopedLifecycleEvent, content: string,
                                contentHash: Option<string>, candidateId: Option<string>)
      returns (entryId: nat)
      modifies this`events
      ensures entryId == FreshId(old(Contents()))
      ensures events == old(events) + [LifecycleEvent(entryId, scoped, content, contentHash, candidateId, runId)]
    {
      entryId := FreshId(Contents());
      events := events + [LifecycleEvent(entryId, scoped, content, contentHash, candidateId, runId)];
    }

    /** Inserts a flag unless its primary key is taken, and says whether this call wrote it. */
    method InsertFlag(flag: ApplyFlag) returns (claimed: bool)
      modifies this`flags
      ensures claimed == !FlagExists(old(Contents()), flag.runId, flag.candidateId, flag.kind)
      ensures flags == if claimed then old(flags) + [flag] else old(flags)
    {
      claimed := !FlagExists(Contents(), flag.runId, flag.candidateId, flag.kind);
      if claimed { flags := flags + [flag]; }
    }

    method HandleReversal(runId: string, row: SignalRow, now: int) returns (r: Result<(nat, nat, nat), string>)
      requires row.signal.ReversesRule?
      modifies this
      ensures match Steps.SignalStep(Steps.SignalState(old(Contents()), {}, 0, 0, 0), runId, row, now)
              case Err(e) => r == Err(e) && Contents() == old(Contents())
              case Ok(s) => r == Ok((s.applyFlags, s.relegates, s.reversalTierMoves)) && Contents() == s.tables
    {
      if row.targetScopeKey.None? { return Err(Steps.NO_TARGET); }
      var scopeKey := row.targetScopeKey.value;
      var decided := row.authorityTier == Some(DECIDED);
      var claimed := InsertFlag(ApplyFlag(runId, row.candidateId, RuleReversal, Some(scopeKey), true, decided));
      if !claimed || !decided { return Ok((if claimed then 1 else 0, 0, 0)); }
      var entryId := InsertLifecycleEvent(runId, ScopedLifecycleEvent(Some(RELEGATE), Some(scopeKey), now),
                                          "dream-route reversal of " + scopeKey, None, Some(row.candidateId));
      InsertTierMove(EventEntry(entryId), Some(ROUTE_TIER), RELEGATED_TIER, REVERSAL_CAUSE, runId);
      return Ok((1, 1, 1));
    }

    /** Handles one signal row on top of what the pass has counted so far. */
    method HandleSignal(runId: string, row: SignalRow, now: int, c: SignalCounts)
      returns (r: Result<SignalCounts, string>)
      modifies this
      ensures match Steps.SignalStep(StateOf(old(Contents()), c), runId, row, now)
              case Err(e) => r == Err(e)
              case Ok(s) => r.Ok? && s == StateOf(Contents(), r.value)
    {
      if row.signal.ContradictsCanon? {
        var claimed := InsertFlag(ApplyFlag(runId, row.candidateId, CanonContradiction, row.targetScopeKey, true,
                                            false));
        return Ok(SignalCounts(c.applyFlags + (if claimed then 1 else 0), c.relegates, c.reversalTierMoves,
                               c.blocked + {row.candidateId}));
      }
      var written := HandleReversal(runId, row, now);
      match written {
        case Err(e) => return Err(e);
        case Ok((f, g, m)) =>
          return Ok(SignalCounts(c.applyFlags + f, c.relegates + g, c.reversalTierMoves + m, c.blocked));
      }
    }

    /** On an error the tables may be half written; the caller rolls back. */
    method HandleRouteSignals(db: Database, runId: string, now: int) returns (r: Result<SignalCounts, string>)
      modifies this
      ensures match Steps.SignalFold(old(Contents()), runId, ReadSignals(db, runId), now)
              case Err(e) => r == Err(e)
              case Ok(s) => r.Ok? && s == StateOf(Contents(), r.value)
    {
      var rows := ReadSignals(db, runId);
      var counts := SignalCounts(0, 0, 0, {});
      for i := 0 to |rows|
        invariant Steps.SignalFold(old(Contents()), runId, rows[..i], now) == Ok(StateOf(Contents(), counts))
      {
        FoldOneMore(old(Contents()), runId, rows, i, now);
        var handled := HandleSignal(runId, rows[i], now, counts);
        if handled.Err? {
          SignalErrorSticks(old(Contents()), runId, rows, i + 1, now);
          return handled;
        }
        counts := handled.value;
      }
      assert rows[..|rows|] == rows;
      return Ok(counts);
    }

    /** A pending item becomes a thought, a promote, a skip or nothing. */
    method ApplyItem(runId: string, item: PendingItem, now: int) returns (outcome: Steps.ItemOutcome)
      modifies this
      ensures (Contents(), outcome) == Steps.ApplyItem(old(Contents()), runId, item, now)
    {
      if !Steps.Commits(item.action) { return Steps.NotApplied; }
      if item.action == RULE_EVENT {
        var scopeKey := RuleScopeKey(item.contentHash);
        if EventExists(Contents(), PROMOTE, scopeKey) { return Steps.Skipped; }
        var entryId := InsertLifecycleEvent(runId, ScopedLifecycleEvent(Some(PROMOTE), Some(scopeKey), now),
                                            item.content, Some(item.contentHash), Some(item.candidateId));
        InsertTierMove(EventEntry(entryId), None, ROUTE_TIER, ROUTE_CAUSE, runId);
        return Steps.WrotePromote;
      }
      if ThoughtExists(Contents(), item.contentHash, item.namespace) { return Steps.Skipped; }
      var entryId := FreshId(Contents());
      thoughts := thoughts + [Thought(entryId, item.contentHash, item.namespace, item.content, item.candidateId,
                                      runId)];
      InsertTierMove(ThoughtEntry(entryId), None, ROUTE_TIER, ROUTE_CAUSE, runId);
      return Steps.WroteThought;
    }

    /** The commit loop over one run's verdicts, withholding the blocked candidates. */
    method CommitPending(runId: string, blocked: set<string>, pending: seq<PendingItem>, now: int)
      returns (thoughtCount: nat, promotes: nat, tierMoveCount: nat, skippedExisting: nat, notApplied: nat)
      modifies this
      ensures Steps.CommitFold(old(Contents()), runId, blocked, pending, now)
              == Steps.CommitState(Contents(), thoughtCount, promotes, skippedExisting, notApplied)
      ensures tierMoveCount == thoughtCount + promotes
    {
      thoughtCount, promotes, tierMoveCount, skippedExisting, notApplied := 0, 0, 0, 0, 0;
      for i := 0 to |pending|
        invariant Steps.CommitFold(old(Contents()), runId, blocked, pending[..i], now)
                  == Steps.CommitState(Contents(), thoughtCount, promotes, skippedExisting, notApplied)
        invariant tierMoveCount == thoughtCount + promotes
      {
        assert pending[..i + 1][..i] == pending[..i];
        if pending[i].candidateId in blocked { continue; }
        var outcome := ApplyItem(runId, pending[i], now);
        match outcome {
          case NotApplied => notApplied := notApplied + 1;
          case Skipped => skippedExisting := skippedExisting + 1;
          case WroteThought => thoughtCount, tierMoveCount := thoughtCount + 1, tierMoveCount + 1;
          case WrotePromote => promotes, tierMoveCount := promotes + 1, tierMoveCount + 1;
        }
      }
      assert pending[..|pending|] == pending;
    }

    /** One transaction: the signal pass, then the commit loop; an error restores the savepoint. */
    method ApplyRouting(db: Database, runId: string, now: int) returns (r: Result<Steps.ApplyCounts, string>)
      modifies this
      ensures match Steps.ApplyRouting(db, old(Contents()), runId, now)
              case Err(e) => r == Err(e) && Contents() == old(Contents())
              case Ok((t, counts)) => r == Ok(counts) && Contents() == t
    {
      var savepoint := Contents();
      var signals := HandleRouteSignals(db, runId, now);
      if signals.Err? {
        thoughts, events, tierMoves, flags := savepoint.thoughts, savepoint.events, savepoint.tierMoves,
          savepoint.flags;
        return Err(signals.error);
      }
      var s := signals.value;
      var thoughtCount, promotes, tierMoveCount, skippedExisting, notApplied :=
        CommitPending(runId, s.blocked, Pending(db, runId), now);
      return Ok(Steps.ApplyCounts(thoughtCount, promotes, tierMoveCount, skippedExisting, notApplied,
                                  s.applyFlags, s.relegates, s.reversalTierMoves, |s.blocked|));
    }

    /** Graduates one target unless its key was ever promoted. */
    method GraduateTarget(runId: string, target: CohortRow, now: int) returns (wrote: bool)
      modifies this
      ensures wrote == !EventExists(old(Contents()), PROMOTE, GraduateScopeKey(target.contentHash))
      ensures Contents() == if wrote then Steps.AddGraduation(old(Contents()), runId, target, now) else old(Contents())
    {
      var scopeKey := GraduateScopeKey(target.contentHash);
      if EventExists(Contents(), PROMOTE, scopeKey) { return false; }
      var entryId := InsertLifecycleEvent(runId, ScopedLifecycleEvent(Some(PROMOTE), Some(scopeKey), now),
                                          target.content, Some(target.contentHash), Some(target.candidateId));
      InsertTierMove(EventEntry(entryId), Some(ROUTE_TIER), GRADUATED_TIER, GRADUATE_CAUSE, runId);
      return true;
    }

    method GraduateRecurring(db: Database, runId: string, threshold: int, now: int)
      returns (graduated: seq<string>, skippedExisting: nat)
      modifies this
      ensures Steps.GraduateRecurring(db, old(Contents()), runId, threshold, now)
              == Steps.GraduateState(Contents(), graduated, skippedExisting)
    {
      graduated, skippedExisting := [], 0;
      var targets := Targets(db, runId, threshold);
      for i := 0 to |targets|
        invariant Steps.GraduateFold(old(Contents()), runId, targets[..i], now)
                  == Steps.GraduateState(Contents(), graduated, skippedExisting)
      {
        assert targets[..i + 1][..i] == targets[..i];
        var wrote := GraduateTarget(runId, targets[i], now);
        if wrote {
          graduated := graduated + [targets[i].candidateId];
        } else {
          skippedExisting := skippedExisting + 1;
        }
      }
      assert targets[..|targets|] == targets;
    }

    /** Writes a relegate over a graduation that has none yet. */
    method UndoGraduate(runId: string, scopeKey: string, now: int) returns (relegated: nat)
      modifies this
      ensures (Contents(), relegated) == Steps.UndoGraduate(old(Contents()), runId, scopeKey, now)
    {
      var promote := Steps.NewestPromote(events, scopeKey);
      var already := EventExists(Contents(), RELEGATE, scopeKey);
      if promote.None? || already { return 0; }
      var entryId := InsertLifecycleEvent(runId, ScopedLifecycleEvent(Some(RELEGATE), Some(scopeKey), now),
                                          promote.value.content, promote.value.contentHash, None);
      InsertTierMove(EventEntry(entryId), Some(GRADUATED_TIER), ROUTE_TIER, UNDO_CAUSE, runId);
      return 1;
    }
  }

  lemma FoldOneMore(t: Tables, runId: string, rows: seq<SignalRow>, i: nat, now: int)
    requires i < |rows| && Steps.SignalFold(t, runId, rows[..i], now).Ok?
    ensures Steps.SignalFold(t, runId, rows[..i + 1], now)
            == Steps.SignalStep(Steps.SignalFold(t, runId, rows[..i], now).value, runId, rows[i], now)
  {
    assert rows[..i + 1][..i] == rows[..i];
  }

  /** A signal that fails fails every longer pass. */
  lemma {:induction false} SignalErrorSticks(t: Tables, runId: string, rows: seq<SignalRow>, n: nat, now: int)
    requires n <= |rows| && Steps.SignalFold(t, runId, rows[..n], now).Err?
    ensures Steps.SignalFold(t, runId, rows, now) == Steps.SignalFold(t, runId, rows[..n], now)
  {
    if n == |rows| {
      assert rows[..n] == rows;
    } else {
      var init := rows[..|rows| - 1];
      assert init[..n] == rows[..n];
      SignalErrorSticks(t, runId, init, n, now);
    }
  }
}
