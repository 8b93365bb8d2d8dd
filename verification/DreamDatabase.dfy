/**
 * The frozen inputs of a run schema and the queries that read them: the cohort,
 * the verdicts, the routing decisions, the planted signals and the raw turns.
 * A route that never ran leaves `decisions` empty, which is what the tier-less
 * form of the signal query amounts to.
 */
module DreamDatabase {
  import opened Wrappers
  import opened Sorting

  const DECIDED := "decided"
  const RULE_EVENT := "rule_event"
  const THOUGHT := "thought"

  datatype CohortRow = CohortRow(
    candidateId: string, namespace: string, contentHash: string, content: string, sourceTurnIds: seq<string>)

  datatype Verdict = Verdict(action: string, reinforces: Option<string>)

  datatype Decision = Decision(destination: Option<string>, authorityTier: string)

  datatype Signal = ContradictsCanon | ReversesRule

  datatype RouteSignal = RouteSignal(
    runId: string, candidateId: string, signal: Signal, targetScopeKey: Option<string>)

  /**
   * `cohort` is listed in ordinal order; the maps are keyed by their primary
   * key, (run, candidate); `turns` gives the nullable session of each raw turn.
   */
  datatype Database = Database(
    cohort: seq<CohortRow>,
    wouldApply: map<(string, string), Verdict>,
    decisions: map<(string, string), Decision>,
    signals: seq<RouteSignal>,
    turns: map<string, Option<string>>)

  /** What the signal pass reads of a signal, with its candidate's authority tier if one was decided. */
  datatype SignalRow = SignalRow(
    candidateId: string, signal: Signal, targetScopeKey: Option<string>, authorityTier: Option<string>)

  datatype PendingItem = PendingItem(
    candidateId: string, action: string, namespace: string, contentHash: string, content: string)

  // --- Signals of one run ---

  /** The LEFT JOIN: a candidate with no decision row has no tier. */
  function AttachTier(db: Database, s: RouteSignal): SignalRow {
    var key := (s.runId, s.candidateId);
    SignalRow(s.candidateId, s.signal, s.targetScopeKey,
              if key in db.decisions then Some(db.decisions[key].authorityTier) else None)
  }

  predicate BySignalKey(a: SignalRow, b: SignalRow) {
    if a.candidateId == b.candidateId then a.signal == b.signal || a.signal.ContradictsCanon?
    else StrLeq(a.candidateId, b.candidateId)
  }

  function RunSignals(db: Database, signals: seq<RouteSignal>, run: string): seq<SignalRow> {
    if signals == [] then []
    else (if signals[0].runId == run then [AttachTier(db, signals[0])] else []) + RunSignals(db, signals[1..], run)
  }

  function ReadSignals(db: Database, run: string): seq<SignalRow> {
    Sort(RunSignals(db, db.signals, run), BySignalKey)
  }

  lemma {:induction false} RunSignalsMembers(db: Database, signals: seq<RouteSignal>, run: string, row: SignalRow)
    ensures row in RunSignals(db, signals, run) <==>
            exists s :: s in signals && s.runId == run && AttachTier(db, s) == row
  {
    if signals != [] {
      RunSignalsMembers(db, signals[1..], run, row);
      assert signals == [signals[0]] + signals[1..];
    }
  }

  lemma ReadSignalsMembers(db: Database, run: string, row: SignalRow)
    ensures row in ReadSignals(db, run) <==>
            exists s :: s in db.signals && s.runId == run && AttachTier(db, s) == row
  {
    RunSignalsMembers(db, db.signals, run, row);
    StrLeqOrder();
    SortSorts(RunSignals(db, db.signals, run), BySignalKey);
  }

  // --- Verdicts of one run ---

  /** The verdict table joined to the cohort, in ordinal order. */
  function PendingFrom(db: Database, rows: seq<CohortRow>, run: string): seq<PendingItem> {
    if rows == [] then []
    else
      var key := (run, rows[0].candidateId);
      (if key in db.wouldApply
       then [PendingItem(rows[0].candidateId, db.wouldApply[key].action, rows[0].namespace, rows[0].contentHash,
                         rows[0].content)]
       else [])
      + PendingFrom(db, rows[1..], run)
  }

  function Pending(db: Database, run: string): seq<PendingItem> {
    PendingFrom(db, db.cohort, run)
  }

  // --- Graduation targets of one run ---

  predicate IsDecided(db: Database, run: string, row: CohortRow) {
    (run, row.candidateId) in db.decisions && db.decisions[(run, row.candidateId)].authorityTier == DECIDED
  }

  /** The rows routed at the operator-anchored tier. */
  function DecidedFrom(db: Database, rows: seq<CohortRow>, run: string): seq<CohortRow> {
    if rows == [] then []
    else
      (if IsDecided(db, run, rows[0]) then [rows[0]] else []) + DecidedFrom(db, rows[1..], run)
  }

  function DecidedRows(db: Database, run: string): seq<CohortRow> {
    DecidedFrom(db, db.cohort, run)
  }

  lemma {:induction false} DecidedMembers(db: Database, rows: seq<CohortRow>, run: string, row: CohortRow)
    ensures row in DecidedFrom(db, rows, run) <==> row in rows && IsDecided(db, run, row)
  {
    if rows != [] {
      DecidedMembers(db, rows[1..], run, row);
      assert rows == [rows[0]] + rows[1..];
    }
  }

  /** Corrections and preferences never graduate. */
  predicate Graduating(db: Database, run: string, row: CohortRow) {
    var key := (run, row.candidateId);
    key in db.decisions
    && (db.decisions[key].destination == Some("fact") || db.decisions[key].destination == Some("decision"))
  }

  /** A repeat of a target is the target itself or a decided row whose verdict reinforces it. */
  predicate Repeats(db: Database, run: string, member: CohortRow, target: CohortRow) {
    member == target
    || ((run, member.candidateId) in db.wouldApply
        && db.wouldApply[(run, member.candidateId)].reinforces == Some(target.candidateId))
  }

  /** The distinct sessions a target recurs in, over itself and its decided repeats. */
  function Sessions(db: Database, run: string, target: CohortRow): set<string> {
    set member, turn | member in DecidedRows(db, run) && Repeats(db, run, member, target)
                       && turn in member.sourceTurnIds && turn in db.turns && db.turns[turn].Some?
      :: db.turns[turn].value
  }

  /** The inner join on sessions: a target with none never appears, whatever the threshold. */
  predicate Qualifies(db: Database, run: string, threshold: int, target: CohortRow) {
    Graduating(db, run, target) && Sessions(db, run, target) != {} && |Sessions(db, run, target)| >= threshold
  }

  function QualifiedFrom(db: Database, rows: seq<CohortRow>, run: string, threshold: int): seq<CohortRow> {
    if rows == [] then []
    else
      (if Qualifies(db, run, threshold, rows[0]) then [rows[0]] else [])
      + QualifiedFrom(db, rows[1..], run, threshold)
  }

  predicate ByContentHash(a: CohortRow, b: CohortRow) {
    StrLeq(a.contentHash, b.contentHash)
  }

  function Targets(db: Database, run: string, threshold: int): seq<CohortRow> {
    Sort(QualifiedFrom(db, DecidedRows(db, run), run, threshold), ByContentHash)
  }

  lemma {:induction false} QualifiedMembers(db: Database, rows: seq<CohortRow>, run: string, threshold: int,
                                            row: CohortRow)
    ensures row in QualifiedFrom(db, rows, run, threshold) <==> row in rows && Qualifies(db, run, threshold, row)
  {
    if rows != [] {
      QualifiedMembers(db, rows[1..], run, threshold, row);
      assert rows == [rows[0]] + rows[1..];
    }
  }

  lemma TargetMembers(db: Database, run: string, threshold: int, row: CohortRow)
    ensures row in Targets(db, run, threshold) <==>
            row in DecidedRows(db, run) && Qualifies(db, run, threshold, row)
  {
    QualifiedMembers(db, DecidedRows(db, run), run, threshold, row);
    StrLeqOrder();
    SortSorts(QualifiedFrom(db, DecidedRows(db, run), run, threshold), ByContentHash);
  }

  // --- Which inputs graduation depends on ---

  /** Everything two databases must share for graduation: decided rows, their routing and links, the turns. */
  ghost predicate SameDecidedView(a: Database, b: Database, run: string) {
    && DecidedRows(a, run) == DecidedRows(b, run)
    && a.turns == b.turns
    && forall row :: row in DecidedRows(a, run) ==>
         && (Graduating(a, run, row) <==> Graduating(b, run, row))
         && forall target :: target in DecidedRows(a, run) ==>
             (Repeats(a, run, row, target) <==> Repeats(b, run, row, target))
  }

  lemma {:induction false} ObservedRowsIgnoredFrom(a: Database, b: Database, rows: seq<CohortRow>, run: string,
                                                   threshold: int)
    requires SameDecidedView(a, b, run)
    requires forall row :: row in rows ==> row in DecidedRows(a, run)
    ensures QualifiedFrom(a, rows, run, threshold) == QualifiedFrom(b, rows, run, threshold)
  {
    if rows != [] {
      assert rows[0] in DecidedRows(a, run);
      assert Sessions(a, run, rows[0]) == Sessions(b, run, rows[0]);
      ObservedRowsIgnoredFrom(a, b, rows[1..], run, threshold);
    }
  }

  /** Observed candidates and their links never change who graduates, nor in which order. */
  lemma ObservedRowsIgnored(a: Database, b: Database, run: string, threshold: int)
    requires SameDecidedView(a, b, run)
    ensures Targets(a, run, threshold) == Targets(b, run, threshold)
  {
    ObservedRowsIgnoredFrom(a, b, DecidedRows(a, run), run, threshold);
  }

  /** `db` with one more cohort row anywhere, and any verdicts at all for that row's candidate. */
  ghost predicate AddsObservedRow(db: Database, bigger: Database, run: string, at: nat, row: CohortRow) {
    && at <= |db.cohort|
    && bigger.cohort == db.cohort[..at] + [row] + db.cohort[at..]
    && bigger.turns == db.turns
    && (forall r :: r in db.cohort ==> r.candidateId != row.candidateId)
    && (forall key :: key != (run, row.candidateId) ==>
          && (key in bigger.decisions <==> key in db.decisions)
          && (key in db.decisions ==> bigger.decisions[key] == db.decisions[key])
          && (key in bigger.wouldApply <==> key in db.wouldApply)
          && (key in db.wouldApply ==> bigger.wouldApply[key] == db.wouldApply[key]))
    && ((run, row.candidateId) in bigger.decisions ==>
        bigger.decisions[(run, row.candidateId)].authorityTier != DECIDED)
  }

  lemma {:induction false} DecidedOfConcat(db: Database, a: seq<CohortRow>, b: seq<CohortRow>, run: string)
    ensures DecidedFrom(db, a + b, run) == DecidedFrom(db, a, run) + DecidedFrom(db, b, run)
  {
    if a == [] {
      assert a + b == b;
    } else {
      DecidedOfConcat(db, a[1..], b, run);
      assert (a + b)[1..] == a[1..] + b && (a + b)[0] == a[0];
    }
  }

  lemma {:induction false} DecidedAgree(a: Database, b: Database, rows: seq<CohortRow>, run: string)
    requires forall row :: row in rows ==> (IsDecided(a, run, row) <==> IsDecided(b, run, row))
    ensures DecidedFrom(a, rows, run) == DecidedFrom(b, rows, run)
  {
    if rows != [] {
      assert rows[0] in rows;
      DecidedAgree(a, b, rows[1..], run);
    }
  }

  /** The concrete form: one more observed candidate, reinforcing whatever it likes, changes nothing. */
  lemma AddingObservedChangesNothing(db: Database, bigger: Database, run: string, at: nat, row: CohortRow,
                                     threshold: int)
    requires AddsObservedRow(db, bigger, run, at, row)
    ensures Targets(bigger, run, threshold) == Targets(db, run, threshold)
  {
    DecidedOfConcat(bigger, db.cohort[..at] + [row], db.cohort[at..], run);
    DecidedOfConcat(bigger, db.cohort[..at], [row], run);
    DecidedOfConcat(db, db.cohort[..at], db.cohort[at..], run);
    assert db.cohort == db.cohort[..at] + db.cohort[at..];
    assert DecidedFrom(bigger, [row], run) == [];
    DecidedAgree(db, bigger, db.cohort[..at], run);
    DecidedAgree(db, bigger, db.cohort[at..], run);
    assert DecidedRows(bigger, run) == DecidedRows(db, run);
    forall r | r in DecidedRows(db, run)
      ensures (Graduating(db, run, r) <==> Graduating(bigger, run, r))
      ensures forall target :: Repeats(db, run, r, target) <==> Repeats(bigger, run, r, target)
    {
      DecidedMembers(db, db.cohort, run, r);
      assert (run, r.candidateId) != (run, row.candidateId);
    }
    ObservedRowsIgnored(db, bigger, run, threshold);
  }

  /** `b` keeps every decided row, route, link and turn of `a`, and may add more. */
  ghost predicate AddsDecided(a: Database, b: Database, run: string) {
    && (forall row :: row in DecidedRows(a, run) ==> row in DecidedRows(b, run))
    && (forall row :: row in DecidedRows(a, run) && Graduating(a, run, row) ==> Graduating(b, run, row))
    && (forall row, target ::
          row in DecidedRows(a, run) && target in DecidedRows(a, run) && Repeats(a, run, row, target) ==>
            Repeats(b, run, row, target))
    && (forall turn :: turn in a.turns && a.turns[turn].Some? ==> turn in b.turns && b.turns[turn] == a.turns[turn])
  }

  lemma SubsetIsSmaller<T>(a: set<T>, b: set<T>)
    requires a <= b
    ensures |a| <= |b|
  {
    assert b == a + (b - a);
  }

  /** More decided repeats, or a lower threshold, never drop a graduate. */
  lemma MoreRepeatsKeepGraduates(a: Database, b: Database, run: string, high: int, low: int, row: CohortRow)
    requires AddsDecided(a, b, run) && low <= high
    requires row in Targets(a, run, high)
    ensures row in Targets(b, run, low)
  {
    TargetMembers(a, run, high, row);
    assert Sessions(a, run, row) <= Sessions(b, run, row);
    SubsetIsSmaller(Sessions(a, run, row), Sessions(b, run, row));
    TargetMembers(b, run, low, row);
  }
}
