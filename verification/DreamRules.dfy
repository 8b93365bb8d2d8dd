/**
 * What the three operations write, said of the frozen inputs and the tables
 * alone: who may relegate a rule, which verdicts become memories, which rows
 * graduate, what an undo copies, and how every tier move is filed.
 */
module DreamRules {
  import opened Wrappers
  import opened Sorting
  import opened ScopeKeys
  import opened DreamDatabase
  import opened DreamTables
  import opened DreamSteps
  import opened DreamHistory
  import opened DreamOrder

  // --- Who may relegate a rule ---

  ghost predicate Decided(db: Database, run: string, candidate: string) {
    (run, candidate) in db.decisions && db.decisions[(run, candidate)].authorityTier == "decided"
  }

  /** A decided candidate of the run reverses the rule under `target`. */
  ghost predicate Reverses(db: Database, run: string, candidate: string, target: Option<string>) {
    RouteSignal(run, candidate, ReversesRule, target) in db.signals && Decided(db, run, candidate)
  }

  /** The relegate of `target` on the candidate's behalf. */
  ghost predicate Relegates(e: LifecycleEvent, run: string, candidate: string, target: string, now: int) {
    e == LifecycleEvent(e.id, ScopedLifecycleEvent(Some("relegate"), Some(target), now),
                        "dream-route reversal of " + target, None, Some(candidate), run)
  }

  ghost predicate RowRelegates(e: LifecycleEvent, run: string, row: SignalRow, now: int) {
    row.signal.ReversesRule? && row.authorityTier == Some("decided") && row.targetScopeKey.Some?
    && Relegates(e, run, row.candidateId, row.targetScopeKey.value, now)
  }

  /** Some row relegates by the event. */
  ghost predicate RowsRelegate(e: LifecycleEvent, run: string, rows: seq<SignalRow>, now: int) {
    exists row :: row in rows && RowRelegates(e, run, row, now)
  }

  /** Each event a signal pass writes is the relegate of a decided reversal. */
  lemma {:induction false} SignalEvents(t: Tables, runId: string, rows: seq<SignalRow>, now: int)
    requires SignalFold(t, runId, rows, now).Ok?
    ensures var t' := SignalFold(t, runId, rows, now).value.tables;
            && t.events <= t'.events
            && forall i :: |t.events| <= i < |t'.events| ==> RowsRelegate(t'.events[i], runId, rows, now)
  {
    if rows != [] {
      SplitLast(rows);
      var init, row := rows[..|rows| - 1], rows[|rows| - 1];
      SignalEvents(t, runId, init, now);
      var mid, end := SignalFold(t, runId, init, now).value.tables, SignalFold(t, runId, rows, now).value.tables;
      if end.events != mid.events {
        assert RowRelegates(end.events[|mid.events|], runId, row, now);
      }
      forall e | RowsRelegate(e, runId, init, now) ensures RowsRelegate(e, runId, rows, now) {
        var r :| r in init && RowRelegates(e, runId, r, now);
      }
    }
  }

  /** A signal row of a run, as the tables have it. */
  lemma RowOfSignal(db: Database, run: string, row: SignalRow)
    requires row in ReadSignals(db, run)
    ensures RouteSignal(run, row.candidateId, row.signal, row.targetScopeKey) in db.signals
    ensures row.authorityTier == Some("decided") <==> Decided(db, run, row.candidateId)
  {
    ReadSignalsMembers(db, run, row);
    var s :| s in db.signals && s.runId == run && AttachTier(db, s) == row;
    assert s == RouteSignal(run, row.candidateId, row.signal, row.targetScopeKey);
  }

  lemma SignalHasRow(db: Database, s: RouteSignal) returns (row: SignalRow)
    requires s in db.signals
    ensures row in ReadSignals(db, s.runId)
    ensures row.candidateId == s.candidateId && row.signal == s.signal && row.targetScopeKey == s.targetScopeKey
    ensures row.authorityTier == Some("decided") <==> Decided(db, s.runId, s.candidateId)
  {
    row := AttachTier(db, s);
    ReadSignalsMembers(db, s.runId, row);
  }

  /** The commit loop writes promotes only. */
  lemma {:induction false} CommitEvents(t: Tables, runId: string, blocked: set<string>, items: seq<PendingItem>,
                                        now: int)
    ensures var t' := CommitFold(t, runId, blocked, items, now).tables;
            && t.events <= t'.events && t.thoughts <= t'.thoughts
            && forall i :: |t.events| <= i < |t'.events| ==> t'.events[i].scoped.action == Some("promote")
  {
    if items != [] {
      CommitEvents(t, runId, blocked, items[..|items| - 1], now);
    }
  }

  /** A rule is relegated only on behalf of a decided candidate whose signal reverses it. */
  lemma OnlyDecidedRelegate(db: Database, t: Tables, runId: string, now: int)
    requires ApplyRouting(db, t, runId, now).Ok?
    ensures var t' := ApplyRouting(db, t, runId, now).value.0;
            && t.events <= t'.events
            && forall i :: |t.events| <= i < |t'.events| && t'.events[i].scoped.action == Some("relegate") ==>
                 exists candidate, target ::
                   Reverses(db, runId, candidate, Some(target))
                     && Relegates(t'.events[i], runId, candidate, target, now)
  {
    var rows := ReadSignals(db, runId);
    SignalEvents(t, runId, rows, now);
    var s := SignalFold(t, runId, rows, now).value;
    CommitEvents(s.tables, runId, s.blocked, Pending(db, runId), now);
    var t' := ApplyRouting(db, t, runId, now).value.0;
    forall i | |t.events| <= i < |t'.events| && t'.events[i].scoped.action == Some("relegate")
      ensures exists candidate, target ::
                Reverses(db, runId, candidate, Some(target)) && Relegates(t'.events[i], runId, candidate, target, now)
    {
      assert i < |s.tables.events| && t'.events[i] == s.tables.events[i];
      assert RowsRelegate(s.tables.events[i], runId, rows, now);
      var row :| row in rows && RowRelegates(s.tables.events[i], runId, row, now);
      RowOfSignal(db, runId, row);
      assert Reverses(db, runId, row.candidateId, Some(row.targetScopeKey.value));
    }
  }

  /** An event after position `from` on the candidate's behalf. */
  ghost predicate ActsFor(t: Tables, from: nat, i: int, candidate: string) {
    from <= i < |t.events| && t.events[i].candidateId == Some(candidate)
  }

  /** Rows of one candidate share its tier. */
  ghost predicate OneTier(rows: seq<SignalRow>, candidate: string, decided: bool) {
    forall row :: row in rows && row.candidateId == candidate ==> (row.authorityTier == Some("decided") <==> decided)
  }

  /** A decided reversal whose flag was free is acted on once; one whose flag was taken, or undecided, never. */
  lemma {:induction false} SignalActsOnce(t: Tables, runId: string, rows: seq<SignalRow>, now: int, candidate: string,
                                         decided: bool)
    requires SignalFold(t, runId, rows, now).Ok? && OneTier(rows, candidate, decided)
    ensures var t' := SignalFold(t, runId, rows, now).value.tables;
            var free, taken := !FlagExists(t, runId, candidate, RuleReversal), FlagExists(t', runId, candidate,
                                                                                          RuleReversal);
            && t.events <= t'.events
            && (forall i, j :: ActsFor(t', |t.events|, i, candidate) && ActsFor(t', |t.events|, j, candidate) ==>
                i == j)
            && ((exists i :: ActsFor(t', |t.events|, i, candidate)) <==> decided && free && taken)
            && (!free ==> taken)
            && ((exists row :: row in rows && row.candidateId == candidate && row.signal.ReversesRule?) ==> taken)
  {
    if rows != [] {
      SplitLast(rows);
      var init, row := rows[..|rows| - 1], rows[|rows| - 1];
      SignalActsOnce(t, runId, init, now, candidate, decided);
      var mid, end := SignalFold(t, runId, init, now).value.tables, SignalFold(t, runId, rows, now).value.tables;
      SignalStepActs(SignalFold(t, runId, init, now).value, runId, row, now, candidate);
      forall i ensures ActsFor(end, |t.events|, i, candidate) <==>
                         ActsFor(mid, |t.events|, i, candidate) || ActsFor(end, |mid.events|, i, candidate) {}
    }
  }

  lemma SignalStepActs(st: SignalState, runId: string, row: SignalRow, now: int, candidate: string)
    requires SignalStep(st, runId, row, now).Ok?
    ensures var t, t' := st.tables, SignalStep(st, runId, row, now).value.tables;
            var reverses := row.candidateId == candidate && row.signal.ReversesRule?;
            && t.events <= t'.events && |t'.events| <= |t.events| + 1
            && (FlagExists(t', runId, candidate, RuleReversal) <==>
                  FlagExists(t, runId, candidate, RuleReversal) || reverses)
            && (ActsFor(t', |t.events|, |t.events|, candidate) <==>
                  reverses && row.authorityTier == Some("decided") && !FlagExists(t, runId, candidate, RuleReversal))
  {
    var t, t', f := st.tables, SignalStep(st, runId, row, now).value.tables, FlagOf(runId, row);
    if t'.flags != t.flags {
      assert t'.flags == t.flags + [f] && f in t'.flags;
    }
    assert forall g :: g in t.flags ==> g in t'.flags;
    assert forall g :: g in t'.flags ==> g in t.flags || g == f;
  }

  /** Position `i` is the only new relegate on the candidate's behalf, and it relegates `target`. */
  ghost predicate OneRelegate(t: Tables, from: nat, i: int, run: string, candidate: string, target: string, now: int) {
    && from <= i < |t.events| && Relegates(t.events[i], run, candidate, target, now)
    && forall j :: ActsFor(t, from, j, candidate) && t.events[j].scoped.action == Some("relegate") ==> j == i
  }

  /** Conversely each decided reversal whose flag was free relegates its target, once. */
  lemma DecidedReversalRelegates(db: Database, t: Tables, runId: string, now: int, candidate: string, target: string)
    requires ApplyRouting(db, t, runId, now).Ok? && SignalKeysUnique(db)
    requires Reverses(db, runId, candidate, Some(target)) && !FlagExists(t, runId, candidate, RuleReversal)
    ensures var t' := ApplyRouting(db, t, runId, now).value.0;
            exists i :: OneRelegate(t', |t.events|, i, runId, candidate, target, now)
  {
    var rows := ReadSignals(db, runId);
    var row := SignalHasRow(db, RouteSignal(runId, candidate, ReversesRule, Some(target)));
    forall r | r in rows && r.candidateId == candidate ensures r.authorityTier == Some("decided") {
      RowOfSignal(db, runId, r);
    }
    SignalActsOnce(t, runId, rows, now, candidate, true);
    SignalEvents(t, runId, rows, now);
    var s := SignalFold(t, runId, rows, now).value;
    CommitEvents(s.tables, runId, s.blocked, Pending(db, runId), now);
    var i :| ActsFor(s.tables, |t.events|, i, candidate);
    assert RowsRelegate(s.tables.events[i], runId, rows, now);
    var from :| from in rows && RowRelegates(s.tables.events[i], runId, from, now);
    RowOfSignal(db, runId, from);
    var t' := ApplyRouting(db, t, runId, now).value.0;
    assert t'.events[i] == s.tables.events[i];
    forall j | ActsFor(t', |t.events|, j, candidate) && t'.events[j].scoped.action == Some("relegate") ensures j == i {
      assert j < |s.tables.events| && ActsFor(s.tables, |t.events|, j, candidate);
    }
    assert OneRelegate(t', |t.events|, i, runId, candidate, target, now);
  }

  /** Signals are taken up by candidate, and of one candidate a contradiction first. */
  lemma SignalsInOrder(db: Database, run: string, i: nat, j: nat)
    requires i < j < |ReadSignals(db, run)|
    ensures var a, b := ReadSignals(db, run)[i], ReadSignals(db, run)[j];
            StrLess(a.candidateId, b.candidateId)
            || (a.candidateId == b.candidateId && (a.signal == b.signal || a.signal.ContradictsCanon?))
  {
    StrLeqOrder();
    SortSorts(RunSignals(db, db.signals, run), BySignalKey);
  }

  // --- What a flag says ---

  /** The flag of one of the run's signals; it is applied only for a decided reversal. */
  ghost predicate FlagSays(db: Database, run: string, f: ApplyFlag) {
    exists s :: s in db.signals && s.runId == run && s.candidateId == f.candidateId
      && f.runId == run && f.targetScopeKey == s.targetScopeKey && f.needsOperatorApproval
      && (f.kind.RuleReversal? <==> s.signal.ReversesRule?)
      && (f.applied <==> s.signal.ReversesRule? && Decided(db, run, f.candidateId))
  }

  lemma NewFlagsSay(db: Database, t: Tables, runId: string, now: int)
    requires ApplyRouting(db, t, runId, now).Ok?
    ensures var t' := ApplyRouting(db, t, runId, now).value.0;
            && (forall f :: f in t'.flags ==> f in t.flags || FlagSays(db, runId, f))
            && forall s :: s in db.signals && s.runId == runId ==>
                 exists f :: f in t'.flags && f.runId == runId && f.candidateId == s.candidateId
                             && (f.kind.RuleReversal? <==> s.signal.ReversesRule?)
  {
    var t', rows := ApplyRouting(db, t, runId, now).value.0, ReadSignals(db, runId);
    ApplyFlagRows(db, t, runId, now);
    forall f | f in t'.flags && f !in t.flags ensures FlagSays(db, runId, f) {
      var row :| row in rows && f == FlagOf(runId, row);
      RowOfSignal(db, runId, row);
    }
    forall s | s in db.signals && s.runId == runId
      ensures exists f :: f in t'.flags && f.runId == runId && f.candidateId == s.candidateId
                          && (f.kind.RuleReversal? <==> s.signal.ReversesRule?)
    {
      var row := SignalHasRow(db, s);
      assert FlagExists(t', runId, row.candidateId, KindOf(row.signal));
    }
  }

  // --- Which verdicts become memories ---

  /** The run's verdict on the row is `action`, and no signal of the run withholds the row. */
  ghost predicate Asks(db: Database, run: string, row: CohortRow, action: string) {
    && (run, row.candidateId) in db.wouldApply && db.wouldApply[(run, row.candidateId)].action == action
    && forall s :: s in db.signals && s.runId == run && s.candidateId == row.candidateId ==> !s.signal.ContradictsCanon?
  }

  lemma BlockedExactly(db: Database, run: string, candidate: string)
    ensures candidate in Blocked(ReadSignals(db, run)) <==>
              exists s :: s in db.signals && s.runId == run && s.candidateId == candidate && s.signal.ContradictsCanon?
  {
    if candidate in Blocked(ReadSignals(db, run)) {
      var row :| row in ReadSignals(db, run) && row.signal.ContradictsCanon? && row.candidateId == candidate;
      RowOfSignal(db, run, row);
    }
    if s :| s in db.signals && s.runId == run && s.candidateId == candidate && s.signal.ContradictsCanon? {
      var row := SignalHasRow(db, s);
    }
  }

  ghost predicate ItemOf(db: Database, run: string, row: CohortRow, item: PendingItem) {
    && (run, row.candidateId) in db.wouldApply
    && item == PendingItem(row.candidateId, db.wouldApply[(run, row.candidateId)].action, row.namespace,
                           row.contentHash, row.content)
  }

  /** The items of the first `k` rows are among `items`. */
  ghost predicate RowsBefore(db: Database, rows: seq<CohortRow>, run: string, k: nat, items: seq<PendingItem>) {
    forall j, item :: 0 <= j < k && j < |rows| && ItemOf(db, run, rows[j], item) ==> item in items
  }

  lemma RowsBeforeGrow(db: Database, rows: seq<CohortRow>, run: string, k: nat, head: seq<PendingItem>,
                       items: seq<PendingItem>)
    requires rows != [] && RowsBefore(db, rows[1..], run, k, items)
    requires forall item :: ItemOf(db, run, rows[0], item) ==> item in head
    ensures RowsBefore(db, rows, run, k + 1, head + items)
  {
    forall j, item | 0 <= j < k + 1 && j < |rows| && ItemOf(db, run, rows[j], item) ensures item in head + items {
      if j > 0 { assert rows[1..][j - 1] == rows[j]; }
    }
  }

  /** A pending item stands for a row, and the items before it for all the earlier rows with a verdict. */
  lemma {:induction false} PendingPlace(db: Database, rows: seq<CohortRow>, run: string, i: nat) returns (k: nat)
    requires i < |PendingFrom(db, rows, run)|
    ensures k < |rows| && ItemOf(db, run, rows[k], PendingFrom(db, rows, run)[i])
    ensures RowsBefore(db, rows, run, k, PendingFrom(db, rows, run)[..i])
  {
    var all, rest := PendingFrom(db, rows, run), PendingFrom(db, rows[1..], run);
    var head := all[..|all| - |rest|];
    assert all == head + rest;
    if i < |head| { return 0; }
    k := PendingPlace(db, rows[1..], run, i - |head|);
    RowsBeforeGrow(db, rows, run, k, head, rest[..i - |head|]);
    assert all[..i] == head + rest[..i - |head|];
    k := k + 1;
  }

  lemma {:induction false} RowIsPending(db: Database, rows: seq<CohortRow>, run: string, row: CohortRow,
                                        item: PendingItem)
    requires row in rows && ItemOf(db, run, row, item)
    ensures item in PendingFrom(db, rows, run)
  {
    if rows[0] != row { RowIsPending(db, rows[1..], run, row, item); }
  }

  /** The first item that is not withheld and has this action and key, at position `k`. */
  ghost predicate FirstItem(items: seq<PendingItem>, blocked: set<string>, action: string, k: int) {
    && 0 <= k < |items| && items[k].action == action && items[k].candidateId !in blocked
    && forall j :: 0 <= j < k && items[j].action == action && items[j].candidateId !in blocked ==>
         items[j].contentHash != items[k].contentHash
         || (action == "thought" && items[j].namespace != items[k].namespace)
  }

  ghost predicate ThoughtOf(th: Thought, run: string, item: PendingItem) {
    th == Thought(th.id, item.contentHash, item.namespace, item.content, item.candidateId, run)
  }

  ghost predicate PromoteOf(e: LifecycleEvent, run: string, item: PendingItem, now: int) {
    e == LifecycleEvent(e.id, ScopedLifecycleEvent(Some("promote"), Some("dream-route:rule:" + item.contentHash), now),
                        item.content, Some(item.contentHash), Some(item.candidateId), run)
  }

  /** The thought of the first item that asks for it, under a key no thought of `t` had. */
  ghost predicate FirstThought(t: Tables, run: string, blocked: set<string>, items: seq<PendingItem>, th: Thought) {
    exists k :: FirstItem(items, blocked, "thought", k) && ThoughtOf(th, run, items[k])
                && !ThoughtExists(t, items[k].contentHash, items[k].namespace)
  }

  /** The promote of the first item that asks for the rule, under a key no promote of `t` had. */
  ghost predicate FirstPromote(t: Tables, run: string, blocked: set<string>, items: seq<PendingItem>, e: LifecycleEvent,
                               now: int) {
    exists k :: FirstItem(items, blocked, "rule_event", k) && PromoteOf(e, run, items[k], now)
                && !EventExists(t, "promote", "dream-route:rule:" + items[k].contentHash)
  }

  /** A first item stays first when more follow. */
  lemma FirstStaysFirst(t: Tables, run: string, blocked: set<string>, items: seq<PendingItem>, now: int)
    requires items != []
    ensures forall th :: FirstThought(t, run, blocked, items[..|items| - 1], th) ==>
              FirstThought(t, run, blocked, items, th)
    ensures forall e :: FirstPromote(t, run, blocked, items[..|items| - 1], e, now) ==>
              FirstPromote(t, run, blocked, items, e, now)
  {
    var init := items[..|items| - 1];
    forall th | FirstThought(t, run, blocked, init, th) ensures FirstThought(t, run, blocked, items, th) {
      var k :| FirstItem(init, blocked, "thought", k) && ThoughtOf(th, run, init[k])
               && !ThoughtExists(t, init[k].contentHash, init[k].namespace);
      assert FirstItem(items, blocked, "thought", k) && items[k] == init[k];
    }
    forall e | FirstPromote(t, run, blocked, init, e, now) ensures FirstPromote(t, run, blocked, items, e, now) {
      var k :| FirstItem(init, blocked, "rule_event", k) && PromoteOf(e, run, init[k], now)
               && !EventExists(t, "promote", "dream-route:rule:" + init[k].contentHash);
      assert FirstItem(items, blocked, "rule_event", k) && items[k] == init[k];
    }
  }

  /** Each thought the loop writes is of the first item that asks for it, under a key not there before. */
  lemma {:induction false} CommitThoughts(t: Tables, runId: string, blocked: set<string>, items: seq<PendingItem>,
                                          now: int)
    ensures var t' := CommitFold(t, runId, blocked, items, now).tables;
            && t.thoughts <= t'.thoughts
            && forall i :: |t.thoughts| <= i < |t'.thoughts| ==>
                 FirstThought(t, runId, blocked, items, t'.thoughts[i])
  {
    if items != [] {
      var init := items[..|items| - 1];
      CommitThoughts(t, runId, blocked, init, now);
      FirstStaysFirst(t, runId, blocked, items, now);
      EarlierIsThere(t, runId, blocked, items, now);
      var mid, end := CommitFold(t, runId, blocked, init, now).tables, CommitFold(t, runId, blocked, items, now).tables;
      if end.thoughts != mid.thoughts {
        ItemWritesThought(t, mid, runId, blocked, items, end.thoughts[|mid.thoughts|]);
      }
    }
  }

  /** Whatever the earlier items ask for is there when the last one is taken up. */
  lemma EarlierIsThere(t: Tables, runId: string, blocked: set<string>, items: seq<PendingItem>, now: int)
    requires items != []
    ensures var mid := CommitFold(t, runId, blocked, items[..|items| - 1], now).tables;
            && t.thoughts <= mid.thoughts && t.events <= mid.events
            && forall j :: 0 <= j < |items| - 1 && Commits(items[j].action) && items[j].candidateId !in blocked ==>
                 ItemPresent(mid, items[j])
  {
    var init := items[..|items| - 1];
    CommitEvents(t, runId, blocked, init, now);
    CommitFoldPresent(t, runId, blocked, init, now);
    var mid := CommitFold(t, runId, blocked, init, now).tables;
    forall j | 0 <= j < |init| && Commits(items[j].action) && items[j].candidateId !in blocked
      ensures ItemPresent(mid, items[j])
    {
      assert init[j] == items[j] && Wanted(init, blocked, init[j]);
    }
  }

  /** What the last item writes, it is the first to ask for. */
  lemma ItemWritesThought(t: Tables, mid: Tables, runId: string, blocked: set<string>, items: seq<PendingItem>,
                          th: Thought)
    requires items != [] && items[|items| - 1].action == "thought" && items[|items| - 1].candidateId !in blocked
    requires t.thoughts <= mid.thoughts && !ItemPresent(mid, items[|items| - 1])
    requires forall j :: 0 <= j < |items| - 1 && Commits(items[j].action) && items[j].candidateId !in blocked ==>
               ItemPresent(mid, items[j])
    requires ThoughtOf(th, runId, items[|items| - 1])
    ensures FirstThought(t, runId, blocked, items, th)
  {
    assert FirstItem(items, blocked, "thought", |items| - 1);
    assert forall x :: x in t.thoughts ==> x in mid.thoughts;
  }

  lemma ItemWritesPromote(t: Tables, mid: Tables, runId: string, blocked: set<string>, items: seq<PendingItem>,
                          e: LifecycleEvent, now: int)
    requires items != [] && items[|items| - 1].action == "rule_event" && items[|items| - 1].candidateId !in blocked
    requires t.events <= mid.events && !ItemPresent(mid, items[|items| - 1])
    requires forall j :: 0 <= j < |items| - 1 && Commits(items[j].action) && items[j].candidateId !in blocked ==>
               ItemPresent(mid, items[j])
    requires PromoteOf(e, runId, items[|items| - 1], now)
    ensures FirstPromote(t, runId, blocked, items, e, now)
  {
    assert FirstItem(items, blocked, "rule_event", |items| - 1);
    assert forall x :: x in t.events ==> x in mid.events;
  }

  lemma {:induction false} CommitPromotes(t: Tables, runId: string, blocked: set<string>, items: seq<PendingItem>,
                                          now: int)
    ensures var t' := CommitFold(t, runId, blocked, items, now).tables;
            && t.events <= t'.events
            && forall i :: |t.events| <= i < |t'.events| ==>
                 FirstPromote(t, runId, blocked, items, t'.events[i], now)
  {
    if items != [] {
      var init := items[..|items| - 1];
      CommitPromotes(t, runId, blocked, init, now);
      FirstStaysFirst(t, runId, blocked, items, now);
      EarlierIsThere(t, runId, blocked, items, now);
      var mid, end := CommitFold(t, runId, blocked, init, now).tables, CommitFold(t, runId, blocked, items, now).tables;
      if end.events != mid.events {
        ItemWritesPromote(t, mid, runId, blocked, items, end.events[|mid.events|], now);
      }
    }
  }

  /** The first row of the cohort that asks for the action under its key, at position `k`. */
  ghost predicate FirstToAsk(db: Database, run: string, action: string, k: int) {
    && 0 <= k < |db.cohort| && Asks(db, run, db.cohort[k], action)
    && forall j :: 0 <= j < k && Asks(db, run, db.cohort[j], action) ==>
         db.cohort[j].contentHash != db.cohort[k].contentHash
         || (action == "thought" && db.cohort[j].namespace != db.cohort[k].namespace)
  }

  lemma FirstItemIsRow(db: Database, run: string, action: string, i: int) returns (k: nat)
    requires FirstItem(Pending(db, run), Blocked(ReadSignals(db, run)), action, i)
    ensures FirstToAsk(db, run, action, k) && ItemOf(db, run, db.cohort[k], Pending(db, run)[i])
  {
    var items, blocked := Pending(db, run), Blocked(ReadSignals(db, run));
    k := PendingPlace(db, db.cohort, run, i);
    BlockedExactly(db, run, db.cohort[k].candidateId);
    forall j | 0 <= j < k && Asks(db, run, db.cohort[j], action)
      ensures db.cohort[j].contentHash != db.cohort[k].contentHash
              || (action == "thought" && db.cohort[j].namespace != db.cohort[k].namespace)
    {
      var row := db.cohort[j];
      var item := PendingItem(row.candidateId, action, row.namespace, row.contentHash, row.content);
      assert ItemOf(db, run, row, item);
      assert item in items[..i];
      BlockedExactly(db, run, row.candidateId);
    }
  }

  ghost predicate ThoughtFrom(th: Thought, run: string, row: CohortRow) {
    th == Thought(th.id, row.contentHash, row.namespace, row.content, row.candidateId, run)
  }

  ghost predicate PromoteFrom(e: LifecycleEvent, run: string, row: CohortRow, now: int) {
    e == LifecycleEvent(e.id, ScopedLifecycleEvent(Some("promote"), Some("dream-route:rule:" + row.contentHash), now),
                        row.content, Some(row.contentHash), Some(row.candidateId), run)
  }

  /** The thought of the first row that asks for it, under a key no thought of `t` had. */
  ghost predicate ThoughtAskedFirst(db: Database, t: Tables, run: string, th: Thought) {
    exists k :: FirstToAsk(db, run, "thought", k) && ThoughtFrom(th, run, db.cohort[k])
                && !ThoughtExists(t, db.cohort[k].contentHash, db.cohort[k].namespace)
  }

  /** The item a thought was written for stands for the first row that asks for it. */
  lemma ThoughtOfRow(db: Database, t: Tables, runId: string, th: Thought, j: int)
    requires FirstItem(Pending(db, runId), Blocked(ReadSignals(db, runId)), "thought", j)
    requires ThoughtOf(th, runId, Pending(db, runId)[j])
    requires !ThoughtExists(t, Pending(db, runId)[j].contentHash, Pending(db, runId)[j].namespace)
    ensures ThoughtAskedFirst(db, t, runId, th)
  {
    var k := FirstItemIsRow(db, runId, "thought", j);
    assert ThoughtFrom(th, runId, db.cohort[k]);
  }

  lemma LoopThoughtsAreAsked(db: Database, t: Tables, runId: string, now: int)
    ensures var t' := CommitFold(t, runId, Blocked(ReadSignals(db, runId)), Pending(db, runId), now).tables;
            && t.thoughts <= t'.thoughts
            && forall i :: |t.thoughts| <= i < |t'.thoughts| ==> ThoughtAskedFirst(db, t, runId, t'.thoughts[i])
  {
    var blocked, items := Blocked(ReadSignals(db, runId)), Pending(db, runId);
    CommitThoughts(t, runId, blocked, items, now);
    CommitEvents(t, runId, blocked, items, now);
    var t' := CommitFold(t, runId, blocked, items, now).tables;
    forall i | |t.thoughts| <= i < |t'.thoughts| ensures ThoughtAskedFirst(db, t, runId, t'.thoughts[i]) {
      assert FirstThought(t, runId, blocked, items, t'.thoughts[i]);
      var j :| FirstItem(items, blocked, "thought", j) && ThoughtOf(t'.thoughts[i], runId, items[j])
               && !ThoughtExists(t, items[j].contentHash, items[j].namespace);
      ThoughtOfRow(db, t, runId, t'.thoughts[i], j);
    }
  }

  /** Each new thought is of the first row that asks for it, and no thought had its key before. */
  lemma NewThoughtsAreAsked(db: Database, t: Tables, runId: string, now: int)
    requires ApplyRouting(db, t, runId, now).Ok?
    ensures var t' := ApplyRouting(db, t, runId, now).value.0;
            && t.thoughts <= t'.thoughts
            && forall i :: |t.thoughts| <= i < |t'.thoughts| ==> ThoughtAskedFirst(db, t, runId, t'.thoughts[i])
  {
    SignalFoldOutcome(t, runId, ReadSignals(db, runId), now);
    var s := SignalFold(t, runId, ReadSignals(db, runId), now).value;
    LoopThoughtsAreAsked(db, s.tables, runId, now);
    forall th | ThoughtAskedFirst(db, s.tables, runId, th) ensures ThoughtAskedFirst(db, t, runId, th) {
      var k :| FirstToAsk(db, runId, "thought", k) && ThoughtFrom(th, runId, db.cohort[k])
               && !ThoughtExists(s.tables, db.cohort[k].contentHash, db.cohort[k].namespace);
      assert !ThoughtExists(t, db.cohort[k].contentHash, db.cohort[k].namespace);
    }
  }

  /** Each new promote of an apply is of the first row that asks for the rule, dated by the apply. */
  lemma NewPromotesAreAsked(db: Database, t: Tables, runId: string, now: int)
    requires ApplyRouting(db, t, runId, now).Ok?
    ensures var t' := ApplyRouting(db, t, runId, now).value.0;
            forall i :: |t.events| <= i < |t'.events| && t'.events[i].scoped.action == Some("promote") ==>
              exists k :: FirstToAsk(db, runId, "rule_event", k) && PromoteFrom(t'.events[i], runId, db.cohort[k], now)
                          && !EventExists(t, "promote", "dream-route:rule:" + db.cohort[k].contentHash)
  {
    var rows, items := ReadSignals(db, runId), Pending(db, runId);
    SignalFoldOutcome(t, runId, rows, now);
    SignalEvents(t, runId, rows, now);
    var s := SignalFold(t, runId, rows, now).value;
    CommitPromotes(s.tables, runId, s.blocked, items, now);
    CommitEvents(s.tables, runId, s.blocked, items, now);
    var t' := ApplyRouting(db, t, runId, now).value.0;
    forall i | |t.events| <= i < |s.tables.events| ensures t'.events[i].scoped.action == Some("relegate") {
      assert RowsRelegate(s.tables.events[i], runId, rows, now);
      var row :| row in rows && RowRelegates(s.tables.events[i], runId, row, now);
      assert t'.events[i] == s.tables.events[i];
    }
    forall i | |t.events| <= i < |t'.events| && t'.events[i].scoped.action == Some("promote")
      ensures exists k :: FirstToAsk(db, runId, "rule_event", k) && PromoteFrom(t'.events[i], runId, db.cohort[k], now)
                          && !EventExists(t, "promote", "dream-route:rule:" + db.cohort[k].contentHash)
    {
      assert i >= |s.tables.events|;
      assert FirstPromote(s.tables, runId, s.blocked, items, t'.events[i], now);
      var j :| FirstItem(items, s.blocked, "rule_event", j) && PromoteOf(t'.events[i], runId, items[j], now)
               && !EventExists(s.tables, "promote", "dream-route:rule:" + items[j].contentHash);
      var k := FirstItemIsRow(db, runId, "rule_event", j);
      assert PromoteFrom(t'.events[i], runId, db.cohort[k], now);
      forall e | e in t.events ensures e in s.tables.events {}
    }
  }

  /** And whatever a row asks for is there in the end. */
  lemma AskedIsThere(db: Database, t: Tables, runId: string, now: int, row: CohortRow)
    requires ApplyRouting(db, t, runId, now).Ok? && row in db.cohort
    ensures var t' := ApplyRouting(db, t, runId, now).value.0;
            && (Asks(db, runId, row, "thought") ==>
                  exists th :: th in t'.thoughts && th.contentHash == row.contentHash && th.namespace == row.namespace)
            && (Asks(db, runId, row, "rule_event") ==>
                  exists e :: e in t'.events && e.scoped.action == Some("promote")
                              && e.scoped.scopeKey == Some("dream-route:rule:" + row.contentHash))
  {
    var t', rows, items := ApplyRouting(db, t, runId, now).value.0, ReadSignals(db, runId), Pending(db, runId);
    ApplySettles(db, t, runId, now);
    BlockedExactly(db, runId, row.candidateId);
    if Asks(db, runId, row, "thought") || Asks(db, runId, row, "rule_event") {
      var item := PendingItem(row.candidateId, db.wouldApply[(runId, row.candidateId)].action, row.namespace,
                              row.contentHash, row.content);
      RowIsPending(db, db.cohort, runId, row, item);
      assert Wanted(items, Blocked(rows), item);
      assert ItemPresent(t', item);
    }
  }

  /** The counters name what was written: thoughts and promotes with one move each, relegates with one each. */
  lemma CountersAreRows(db: Database, t: Tables, runId: string, now: int)
    requires ApplyRouting(db, t, runId, now).Ok?
    ensures var (t', c) := ApplyRouting(db, t, runId, now).value;
            && |t'.thoughts| == |t.thoughts| + c.thoughts
            && |t'.events| == |t.events| + c.relegates + c.promotes
            && (forall i :: |t.events| <= i < |t'.events| ==>
                  (t'.events[i].scoped.action == Some("relegate") <==> i < |t.events| + c.relegates))
            && c.tierMoves == c.thoughts + c.promotes && c.reversalTierMoves == c.relegates
  {
    var rows, items := ReadSignals(db, runId), Pending(db, runId);
    SignalFoldOutcome(t, runId, rows, now);
    SignalEvents(t, runId, rows, now);
    ReversalMoves(t, runId, rows, now);
    var s := SignalFold(t, runId, rows, now).value;
    CommitEvents(s.tables, runId, s.blocked, items, now);
    CommitFoldCounts(s.tables, runId, s.blocked, items, now);
    var t' := ApplyRouting(db, t, runId, now).value.0;
    forall i | |t.events| <= i < |s.tables.events| ensures t'.events[i].scoped.action == Some("relegate") {
      assert RowsRelegate(s.tables.events[i], runId, rows, now);
      var row :| row in rows && RowRelegates(s.tables.events[i], runId, row, now);
      assert t'.events[i] == s.tables.events[i];
    }
  }

  lemma {:induction false} ReversalMoves(t: Tables, runId: string, rows: seq<SignalRow>, now: int)
    requires SignalFold(t, runId, rows, now).Ok?
    ensures var s := SignalFold(t, runId, rows, now).value; s.reversalTierMoves == s.relegates
  {
    if rows != [] { ReversalMoves(t, runId, rows[..|rows| - 1], now); }
  }

  // --- How every tier move is filed ---

  ghost predicate MovesThought(m: TierMove, th: Thought) {
    m == TierMove(ThoughtEntry(th.id), None, "warm", "dream-route", th.runId)
  }

  /** A routed rule lands warm, a reversal cools it, a graduation heats its item, an undo cools that again. */
  ghost predicate MovesEvent(m: TierMove, e: LifecycleEvent) {
    && m.entry == EventEntry(e.id) && m.runId == e.runId
    && (   (e.scoped.action == Some("promote") && e.contentHash.Some?
            && ((e.scoped.scopeKey == Some("dream-route:rule:" + e.contentHash.value)
                 && m.fromTier == None && m.toTier == "warm" && m.cause == "dream-route")
                || (e.scoped.scopeKey == Some("dream-route:graduate:" + e.contentHash.value)
                    && m.fromTier == Some("warm") && m.toTier == "hot" && m.cause == "dream-route-graduation")))
        || (e.scoped.action == Some("relegate") && e.candidateId.Some?
            && m.fromTier == Some("warm") && m.toTier == "cold" && m.cause == "dream-route-reversal")
        || (e.scoped.action == Some("relegate") && e.candidateId.None?
            && m.fromTier == Some("hot") && m.toTier == "warm" && m.cause == "dream-route-undo"))
  }

  ghost predicate Filed(t: Tables, m: TierMove) {
    (exists th :: th in t.thoughts && MovesThought(m, th)) || (exists e :: e in t.events && MovesEvent(m, e))
  }

  /** Each move is that of a thought or an event of the tables. */
  ghost predicate MovesFiled(t: Tables) { forall m :: m in t.tierMoves ==> Filed(t, m) }

  lemma MoveOfThought(t: Tables, runId: string, item: PendingItem)
    requires MovesFiled(t)
    ensures MovesFiled(AddThought(t, runId, item))
  {
    var t' := AddThought(t, runId, item);
    var th, m := t'.thoughts[|t.thoughts|], t'.tierMoves[|t.tierMoves|];
    assert th in t'.thoughts && MovesThought(m, th);
    RowsStay(t, t', m);
  }

  lemma MoveOfEvent(t: Tables, t': Tables, e: LifecycleEvent, m: TierMove)
    requires MovesFiled(t) && MovesEvent(m, e)
    requires t'.thoughts == t.thoughts && t'.events == t.events + [e] && t'.tierMoves == t.tierMoves + [m]
    ensures MovesFiled(t')
  {
    assert e in t'.events;
    RowsStay(t, t', m);
  }

  lemma RowsStay(t: Tables, t': Tables, m: TierMove)
    requires MovesFiled(t) && t.thoughts <= t'.thoughts && t.events <= t'.events && t'.tierMoves == t.tierMoves + [m]
    requires Filed(t', m)
    ensures MovesFiled(t')
  {
    forall x | x in t.tierMoves ensures Filed(t', x) {
      if th :| th in t.thoughts && MovesThought(x, th) { assert th in t'.thoughts; }
      if e :| e in t.events && MovesEvent(x, e) { assert e in t'.events; }
    }
  }

  lemma {:induction false} SignalsFile(t: Tables, runId: string, rows: seq<SignalRow>, now: int)
    requires MovesFiled(t) && SignalFold(t, runId, rows, now).Ok?
    ensures MovesFiled(SignalFold(t, runId, rows, now).value.tables)
  {
    if rows != [] {
      SignalsFile(t, runId, rows[..|rows| - 1], now);
      var mid := SignalFold(t, runId, rows[..|rows| - 1], now).value.tables;
      var end := SignalFold(t, runId, rows, now).value.tables;
      if end.events != mid.events {
        MoveOfEvent(mid, end, end.events[|mid.events|], end.tierMoves[|mid.tierMoves|]);
      }
    }
  }

  lemma {:induction false} CommitsFile(t: Tables, runId: string, blocked: set<string>, items: seq<PendingItem>,
                                       now: int)
    requires MovesFiled(t)
    ensures MovesFiled(CommitFold(t, runId, blocked, items, now).tables)
  {
    if items != [] {
      var init, item := items[..|items| - 1], items[|items| - 1];
      CommitsFile(t, runId, blocked, init, now);
      var mid, end := CommitFold(t, runId, blocked, init, now).tables, CommitFold(t, runId, blocked, items, now).tables;
      if end.events != mid.events {
        MoveOfEvent(mid, end, end.events[|mid.events|], end.tierMoves[|mid.tierMoves|]);
      } else if end.thoughts != mid.thoughts {
        MoveOfThought(mid, runId, item);
      }
    }
  }

  lemma {:induction false} GraduationsFile(t: Tables, runId: string, targets: seq<CohortRow>, now: int)
    requires MovesFiled(t)
    ensures MovesFiled(GraduateFold(t, runId, targets, now).tables)
  {
    if targets != [] {
      GraduationsFile(t, runId, targets[..|targets| - 1], now);
      var mid := GraduateFold(t, runId, targets[..|targets| - 1], now).tables;
      var end := GraduateFold(t, runId, targets, now).tables;
      if end.events != mid.events {
        MoveOfEvent(mid, end, end.events[|mid.events|], end.tierMoves[|mid.tierMoves|]);
      }
    }
  }

  lemma NextFiles(db: Database, t: Tables, step: Step)
    requires MovesFiled(t)
    ensures MovesFiled(Next(db, t, step))
  {
    var t' := Next(db, t, step);
    match step
    case Apply(runId, now) =>
      if ApplyRouting(db, t, runId, now).Ok? {
        SignalsFile(t, runId, ReadSignals(db, runId), now);
        var s := SignalFold(t, runId, ReadSignals(db, runId), now).value;
        CommitsFile(s.tables, runId, s.blocked, Pending(db, runId), now);
      }
    case Graduate(runId, threshold, now) => GraduationsFile(t, runId, Targets(db, runId, threshold), now);
    case Undo(runId, scopeKey, now) =>
      if t' != t { MoveOfEvent(t, t', t'.events[|t.events|], t'.tierMoves[|t.tierMoves|]); }
  }

  /** In every reachable run schema each tier move has the tiers and the cause of what it moves. */
  lemma {:induction false} ReachableMovesAreFiled(db: Database, t: Tables, steps: seq<Step>)
    requires MovesFiled(t)
    ensures MovesFiled(Run(db, t, steps)) && MovesFiled(EmptyMirrors)
    decreases |steps|
  {
    if steps != [] {
      NextFiles(db, t, steps[0]);
      ReachableMovesAreFiled(db, Next(db, t, steps[0]), steps[1..]);
    }
  }

  // --- Which rows graduate ---

  /** A decided row that is the target, or whose verdict reinforces it, was seen in the session. */
  ghost predicate SeenIn(db: Database, run: string, target: CohortRow, session: string) {
    exists member, turn ::
      && member in db.cohort && Decided(db, run, member.candidateId)
      && (member == target
          || ((run, member.candidateId) in db.wouldApply
              && db.wouldApply[(run, member.candidateId)].reinforces == Some(target.candidateId)))
      && turn in member.sourceTurnIds && turn in db.turns && db.turns[turn] == Some(session)
  }

  /** A decided fact or decision seen in at least the threshold of sessions, and in some session at all. */
  ghost predicate Recurs(db: Database, run: string, row: CohortRow, threshold: int) {
    && row in db.cohort && Decided(db, run, row.candidateId)
    && db.decisions[(run, row.candidateId)].destination in {Some("fact"), Some("decision")}
    && exists sessions: set<string> ::
         sessions != {} && |sessions| >= threshold && forall x :: x in sessions ==> SeenIn(db, run, row, x)
  }

  lemma SessionsAreSeen(db: Database, run: string, target: CohortRow, session: string)
    ensures session in Sessions(db, run, target) <==> SeenIn(db, run, target, session)
  {
    if session in Sessions(db, run, target) {
      var member, turn :| member in DecidedRows(db, run) && Repeats(db, run, member, target)
        && turn in member.sourceTurnIds && turn in db.turns && db.turns[turn] == Some(session);
      DecidedMembers(db, db.cohort, run, member);
    }
    if SeenIn(db, run, target, session) {
      var member, turn :|
        && member in db.cohort && Decided(db, run, member.candidateId)
        && (member == target
            || ((run, member.candidateId) in db.wouldApply
                && db.wouldApply[(run, member.candidateId)].reinforces == Some(target.candidateId)))
        && turn in member.sourceTurnIds && turn in db.turns && db.turns[turn] == Some(session);
      DecidedMembers(db, db.cohort, run, member);
      assert Repeats(db, run, member, target);
    }
  }

  /** A row is a graduation target exactly when it recurs. */
  lemma TargetsRecur(db: Database, run: string, threshold: int, row: CohortRow)
    ensures row in Targets(db, run, threshold) <==> Recurs(db, run, row, threshold)
  {
    TargetMembers(db, run, threshold, row);
    DecidedMembers(db, db.cohort, run, row);
    forall x ensures x in Sessions(db, run, row) <==> SeenIn(db, run, row, x) { SessionsAreSeen(db, run, row, x); }
    if sessions: set<string> :|
      sessions != {} && |sessions| >= threshold && forall x :: x in sessions ==> SeenIn(db, run, row, x)
    {
      SubsetIsSmaller(sessions, Sessions(db, run, row));
    }
  }

  /** The promote of a graduating row. */
  ghost predicate Graduates(e: LifecycleEvent, run: string, row: CohortRow, now: int) {
    e == LifecycleEvent(e.id,
                        ScopedLifecycleEvent(Some("promote"), Some("dream-route:graduate:" + row.contentHash), now),
                        row.content, Some(row.contentHash), Some(row.candidateId), run)
  }

  /** The event promotes a recurring row whose key no promote of `t` had. */
  ghost predicate GraduatesNew(db: Database, t: Tables, run: string, threshold: int, e: LifecycleEvent, now: int) {
    exists row :: Recurs(db, run, row, threshold) && Graduates(e, run, row, now)
                  && !EventExists(t, "promote", "dream-route:graduate:" + row.contentHash)
  }

  lemma AskedIsRecurring(db: Database, t: Tables, runId: string, threshold: int, e: LifecycleEvent, credit: string,
                         now: int)
    requires GraduationAsked(e, credit, t, runId, Targets(db, runId, threshold), now)
    ensures GraduatesNew(db, t, runId, threshold, e, now)
  {
    var x :| x in Targets(db, runId, threshold) && x.candidateId == credit
      && !EventExists(t, PROMOTE, GraduateScopeKey(x.contentHash))
      && e == LifecycleEvent(e.id, ScopedLifecycleEvent(Some(PROMOTE), Some(GraduateScopeKey(x.contentHash)), now),
                             x.content, Some(x.contentHash), Some(credit), runId);
    TargetsRecur(db, runId, threshold, x);
    assert Graduates(e, runId, x, now);
  }

  lemma {:induction false} GraduateGrows(t: Tables, runId: string, targets: seq<CohortRow>, now: int)
    ensures t.events <= GraduateFold(t, runId, targets, now).tables.events
  {
    if targets != [] { GraduateGrows(t, runId, targets[..|targets| - 1], now); }
  }

  lemma NewGraduatesRecur(db: Database, t: Tables, runId: string, threshold: int, now: int)
    ensures var t' := GraduateFold(t, runId, Targets(db, runId, threshold), now).tables;
            && t.events <= t'.events
            && forall i :: |t.events| <= i < |t'.events| ==> GraduatesNew(db, t, runId, threshold, t'.events[i], now)
  {
    var targets := Targets(db, runId, threshold);
    GraduateGrows(t, runId, targets, now);
    GraduatesOnlyTargets(t, runId, targets, now);
    var g := GraduateFold(t, runId, targets, now);
    forall i | |t.events| <= i < |g.tables.events|
      ensures GraduatesNew(db, t, runId, threshold, g.tables.events[i], now)
    {
      var k := i - |t.events|;
      assert GraduationAsked(g.tables.events[|t.events| + k], g.graduated[k], t, runId, targets, now);
      AskedIsRecurring(db, t, runId, threshold, g.tables.events[i], g.graduated[k], now);
    }
  }

  lemma RecurringArePromoted(db: Database, t: Tables, runId: string, threshold: int, now: int, row: CohortRow)
    requires Recurs(db, runId, row, threshold)
    ensures EventExists(GraduateFold(t, runId, Targets(db, runId, threshold), now).tables, "promote",
                        "dream-route:graduate:" + row.contentHash)
  {
    TargetsRecur(db, runId, threshold, row);
    GraduateFoldOutcome(t, runId, Targets(db, runId, threshold), now);
  }

  /** A graduation writes promotes of recurring rows only, under new keys, and leaves every recurring row promoted. */
  lemma RecurringRowsGraduate(db: Database, t: Tables, runId: string, threshold: int, now: int)
    ensures var t' := GraduateRecurring(db, t, runId, threshold, now).tables;
            && t.events <= t'.events
            && (forall i :: |t.events| <= i < |t'.events| ==>
                  GraduatesNew(db, t, runId, threshold, t'.events[i], now))
            && (forall row :: Recurs(db, runId, row, threshold) ==>
                  EventExists(t', "promote", "dream-route:graduate:" + row.contentHash))
  {
    NewGraduatesRecur(db, t, runId, threshold, now);
    forall row | Recurs(db, runId, row, threshold)
      ensures EventExists(GraduateRecurring(db, t, runId, threshold, now).tables, "promote",
                          "dream-route:graduate:" + row.contentHash)
    {
      RecurringArePromoted(db, t, runId, threshold, now, row);
    }
  }

  // --- What an undo copies ---

  ghost predicate PromotesUnder(e: LifecycleEvent, scopeKey: string) {
    e.scoped.action == Some("promote") && e.scoped.scopeKey == Some(scopeKey)
  }

  ghost predicate NewestUnder(t: Tables, p: LifecycleEvent, scopeKey: string) {
    && p in t.events && PromotesUnder(p, scopeKey)
    && forall q :: q in t.events && PromotesUnder(q, scopeKey) ==> q.scoped.createdAt <= p.scoped.createdAt
  }

  /** The relegate an undo writes over the promote `p`, on nobody's behalf. */
  ghost predicate Undoes(e: LifecycleEvent, p: LifecycleEvent, run: string, scopeKey: string, now: int) {
    e == LifecycleEvent(e.id, ScopedLifecycleEvent(Some("relegate"), Some(scopeKey), now), p.content, p.contentHash,
                        None,
                        run)
  }

  /** An undo that writes copies a promote of the key than which none is newer. */
  lemma UndoCopies(t: Tables, runId: string, scopeKey: string, now: int)
    requires UndoGraduate(t, runId, scopeKey, now).1 == 1
    ensures var t' := UndoGraduate(t, runId, scopeKey, now).0;
            && |t'.events| == |t.events| + 1 && t.events <= t'.events
            && exists p :: NewestUnder(t, p, scopeKey) && Undoes(t'.events[|t.events|], p, runId, scopeKey, now)
  {
    NewestPromoteFound(t.events, scopeKey);
    var p := NewestPromote(t.events, scopeKey).value;
    forall q | q in t.events && PromotesUnder(q, scopeKey) ensures q.scoped.createdAt <= p.scoped.createdAt {
      assert PromoteKey(q) == Some(scopeKey);
    }
    assert NewestUnder(t, p, scopeKey);
  }
}
