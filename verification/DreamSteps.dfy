/**
 * The three exported operations on a run schema as functions from tables to
 * tables: apply a routing run, graduate recurring decided items, undo one
 * graduation. A transaction commits as one step; an error leaves the tables as
 * they were. `now` is the transaction's own timestamp.
 */
module DreamSteps {
  import opened Wrappers
  import opened ScopeKeys
  import opened DreamDatabase
  import opened DreamTables

  const NO_TARGET := "a reverses_rule signal carried no target"

  // --- The signal pass (scripts/dream-route-apply-signals.ts) ---

  datatype SignalState = SignalState(
    tables: Tables, blocked: set<string>, applyFlags: nat, relegates: nat, reversalTierMoves: nat)

  function KindOf(signal: Signal): FlagKind {
    match signal case ContradictsCanon => CanonContradiction case ReversesRule => RuleReversal
  }

  /** The one flag a signal row leaves behind. */
  function FlagOf(runId: string, row: SignalRow): ApplyFlag {
    ApplyFlag(runId, row.candidateId, KindOf(row.signal), row.targetScopeKey, true,
              row.signal.ReversesRule? && row.authorityTier == Some(DECIDED))
  }

  function AddRelegation(t: Tables, runId: string, candidateId: string, scopeKey: string, now: int): Tables {
    AddEvent(t, runId, ScopedLifecycleEvent(Some(RELEGATE), Some(scopeKey), now),
             "dream-route reversal of " + scopeKey, None, Some(candidateId),
             Some(ROUTE_TIER), RELEGATED_TIER, REVERSAL_CAUSE)
  }

  function SignalStep(st: SignalState, runId: string, row: SignalRow, now: int): Result<SignalState, string> {
    var flag := FlagOf(runId, row);
    var claimed := !FlagExists(st.tables, runId, row.candidateId, flag.kind);
    match row.signal
    case ContradictsCanon =>
      Ok(st.(tables := if claimed then AddFlag(st.tables, flag) else st.tables,
             blocked := st.blocked + {row.candidateId},
             applyFlags := st.applyFlags + if claimed then 1 else 0))
    case ReversesRule =>
      if row.targetScopeKey.None? then Err(NO_TARGET)
      else if !claimed then Ok(st)
      else if !flag.applied then Ok(st.(tables := AddFlag(st.tables, flag), applyFlags := st.applyFlags + 1))
      else Ok(st.(tables := AddRelegation(AddFlag(st.tables, flag), runId, row.candidateId, row.targetScopeKey.value,
                                          now),
                  applyFlags := st.applyFlags + 1, relegates := st.relegates + 1,
                  reversalTierMoves := st.reversalTierMoves + 1))
  }

  function SignalFold(t: Tables, runId: string, rows: seq<SignalRow>, now: int): Result<SignalState, string> {
    if rows == [] then Ok(SignalState(t, {}, 0, 0, 0))
    else
      match SignalFold(t, runId, rows[..|rows| - 1], now)
      case Err(e) => Err(e)
      case Ok(st) => SignalStep(st, runId, rows[|rows| - 1], now)
  }

  // --- The commit loop (scripts/dream-route-apply.ts) ---

  datatype ItemOutcome = WroteThought | WrotePromote | Skipped | NotApplied

  predicate Commits(action: string) { action == THOUGHT || action == RULE_EVENT }

  function AddRulePromote(t: Tables, runId: string, item: PendingItem, now: int): Tables {
    AddEvent(t, runId, ScopedLifecycleEvent(Some(PROMOTE), Some(RuleScopeKey(item.contentHash)), now),
             item.content, Some(item.contentHash), Some(item.candidateId), None, ROUTE_TIER, ROUTE_CAUSE)
  }

  function ApplyItem(t: Tables, runId: string, item: PendingItem, now: int): (Tables, ItemOutcome) {
    if !Commits(item.action) then (t, NotApplied)
    else if item.action == RULE_EVENT then
      if EventExists(t, PROMOTE, RuleScopeKey(item.contentHash)) then (t, Skipped)
      else (AddRulePromote(t, runId, item, now), WrotePromote)
    else if ThoughtExists(t, item.contentHash, item.namespace) then (t, Skipped)
    else (AddThought(t, runId, item), WroteThought)
  }

  datatype CommitState = CommitState(
    tables: Tables, thoughts: nat, promotes: nat, skippedExisting: nat, notApplied: nat)

  function CommitStep(st: CommitState, runId: string, blocked: set<string>, item: PendingItem, now: int): CommitState {
    if item.candidateId in blocked then st
    else
      var (t, outcome) := ApplyItem(st.tables, runId, item, now);
      match outcome
      case WroteThought => st.(tables := t, thoughts := st.thoughts + 1)
      case WrotePromote => st.(tables := t, promotes := st.promotes + 1)
      case Skipped => st.(skippedExisting := st.skippedExisting + 1)
      case NotApplied => st.(notApplied := st.notApplied + 1)
  }

  function CommitFold(t: Tables, runId: string, blocked: set<string>, items: seq<PendingItem>, now: int): CommitState {
    if items == [] then CommitState(t, 0, 0, 0, 0)
    else CommitStep(CommitFold(t, runId, blocked, items[..|items| - 1], now), runId, blocked, items[|items| - 1], now)
  }

  datatype ApplyCounts = ApplyCounts(
    thoughts: nat, promotes: nat, tierMoves: nat, skippedExisting: nat, notApplied: nat,
    applyFlags: nat, relegates: nat, reversalTierMoves: nat, canonBlocked: nat)

  function CountsOf(s: SignalState, c: CommitState): ApplyCounts {
    ApplyCounts(c.thoughts, c.promotes, c.thoughts + c.promotes, c.skippedExisting, c.notApplied,
                s.applyFlags, s.relegates, s.reversalTierMoves, |s.blocked|)
  }

  function ApplyRouting(db: Database, t: Tables, runId: string, now: int): Result<(Tables, ApplyCounts), string> {
    match SignalFold(t, runId, ReadSignals(db, runId), now)
    case Err(e) => Err(e)
    case Ok(s) =>
      var c := CommitFold(s.tables, runId, s.blocked, Pending(db, runId), now);
      Ok((c.tables, CountsOf(s, c)))
  }

  // --- Graduation and undo (scripts/dream-route-graduate.ts) ---

  datatype GraduateState = GraduateState(tables: Tables, graduated: seq<string>, skippedExisting: nat)

  function AddGraduation(t: Tables, runId: string, target: CohortRow, now: int): Tables {
    AddEvent(t, runId, ScopedLifecycleEvent(Some(PROMOTE), Some(GraduateScopeKey(target.contentHash)), now),
             target.content, Some(target.contentHash), Some(target.candidateId),
             Some(ROUTE_TIER), GRADUATED_TIER, GRADUATE_CAUSE)
  }

  function GraduateStep(st: GraduateState, runId: string, target: CohortRow, now: int): GraduateState {
    if EventExists(st.tables, PROMOTE, GraduateScopeKey(target.contentHash)) then
      st.(skippedExisting := st.skippedExisting + 1)
    else
      st.(tables := AddGraduation(st.tables, runId, target, now), graduated := st.graduated + [target.candidateId])
  }

  function GraduateFold(t: Tables, runId: string, targets: seq<CohortRow>, now: int): GraduateState {
    if targets == [] then GraduateState(t, [], 0)
    else GraduateStep(GraduateFold(t, runId, targets[..|targets| - 1], now), runId, targets[|targets| - 1], now)
  }

  function GraduateRecurring(db: Database, t: Tables, runId: string, threshold: int, now: int): GraduateState {
    GraduateFold(t, runId, Targets(db, runId, threshold), now)
  }

  /** The promote an undo retires: the newest one filed under the key. */
  function NewestPromote(events: seq<LifecycleEvent>, scopeKey: string): Option<LifecycleEvent> {
    if events == [] then None
    else
      var e := events[|events| - 1];
      var older := NewestPromote(events[..|events| - 1], scopeKey);
      if PromoteKey(e) == Some(scopeKey) && (older.None? || older.value.scoped.createdAt <= e.scoped.createdAt)
      then Some(e) else older
  }

  function AddUndo(t: Tables, runId: string, scopeKey: string, promote: LifecycleEvent, now: int): Tables {
    AddEvent(t, runId, ScopedLifecycleEvent(Some(RELEGATE), Some(scopeKey), now),
             promote.content, promote.contentHash, None, Some(GRADUATED_TIER), ROUTE_TIER, UNDO_CAUSE)
  }

  /** Writes nothing when there is no promote, or when ANY relegate of the key exists. */
  function UndoGraduate(t: Tables, runId: string, scopeKey: string, now: int): (Tables, nat) {
    var promote := NewestPromote(t.events, scopeKey);
    if promote.None? || EventExists(t, RELEGATE, scopeKey) then (t, 0)
    else (AddUndo(t, runId, scopeKey, promote.value, now), 1)
  }

  lemma {:induction false} NewestPromoteFound(events: seq<LifecycleEvent>, scopeKey: string)
    ensures var r := NewestPromote(events, scopeKey);
            if r.None? then forall e :: e in events ==> PromoteKey(e) != Some(scopeKey)
            else r.value in events && PromoteKey(r.value) == Some(scopeKey)
                 && forall e :: e in events && PromoteKey(e) == Some(scopeKey) ==>
                      e.scoped.createdAt <= r.value.scoped.createdAt
  {
    if events != [] {
      NewestPromoteFound(events[..|events| - 1], scopeKey);
      assert events == events[..|events| - 1] + [events[|events| - 1]];
    }
  }
}
