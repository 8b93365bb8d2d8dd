/**
 * The legacy shared promoter (scripts/promote-legacy-shared.ts): bounded runs
 * over several tables, each resuming from a cursor saved by the run before.
 * Row times are microseconds; a saved cursor keeps only whole milliseconds.
 */
module LegacyPromoter {
  import opened Wrappers
  import opened Sorting

  /** `preview` is the length of the trimmed preview. */
  datatype Row = Row(createdAt: int, id: string, preview: nat)

  datatype Cursor = Cursor(milliseconds: int, id: string)

  datatype Args = Args(apply: bool, tables: seq<string>, batchSize: nat, maxApply: nat, minContentLength: nat)

  /** What the promotion service would say of a row: it is new, it is known, or the call throws. */
  datatype Answer = IsNew | IsDuplicate | Fails

  datatype Status = Promoted | Duplicate | DryRun

  datatype Receipt = Receipt(scanned: nat, promoted: nat, wouldPromote: nat, duplicates: nat, skipped: nat, failed: nat)

  datatype RowOutcome = Continue | Stop

  /** `settled` holds every row an apply run has dealt with; `capped` that this run stopped at its cap. */
  datatype RunState = RunState(
    cursors: map<string, Cursor>, applied: nat, receipt: Receipt, capped: bool, settled: set<(string, Row)>)

  const NO_RECEIPT := Receipt(0, 0, 0, 0, 0, 0)

  /** The legacy namespace as one run finds it: live rows per table, in (created_at, id) order. */
  type Snapshot = map<string, seq<Row>>

  /** The service may remember: it answers with the rows dealt with so far in view. */
  type Service = (string, Row, set<(string, Row)>) -> Answer

  predicate Before(a: Row, b: Row) {
    a.createdAt < b.createdAt || (a.createdAt == b.createdAt && StrLess(a.id, b.id))
  }

  ghost predicate Ordered(rows: seq<Row>) {
    forall i, j :: 0 <= i < j < |rows| ==> Before(rows[i], rows[j])
  }

  ghost predicate OrderedSnapshot(s: Snapshot) {
    forall t :: t in s ==> Ordered(s[t])
  }

  function RowsOf(s: Snapshot, table: string): seq<Row> {
    if table in s then s[table] else []
  }

  /** The saved form of a position: its time is cut down to the millisecond. */
  function CursorOf(row: Row): Cursor {
    Cursor(row.createdAt / 1000, row.id)
  }

  /** The query's own test, (created_at, id) > cursor; no cursor admits every row. */
  predicate Admits(cursor: Option<Cursor>, row: Row) {
    cursor.Some? ==>
      (row.createdAt > cursor.value.milliseconds * 1000
       || (row.createdAt == cursor.value.milliseconds * 1000 && StrLess(cursor.value.id, row.id)))
  }

  function CursorFor(cursors: map<string, Cursor>, table: string): Option<Cursor> {
    if table in cursors then Some(cursors[table]) else None
  }

  function Remaining(rows: seq<Row>, cursor: Option<Cursor>): seq<Row> {
    if rows == [] then []
    else (if Admits(cursor, rows[0]) then [rows[0]] else []) + Remaining(rows[1..], cursor)
  }

  function CandidateRows(rows: seq<Row>, cursor: Option<Cursor>, limit: nat): seq<Row> {
    var r := Remaining(rows, cursor);
    if |r| <= limit then r else r[..limit]
  }

  // --- One row ---

  function Ask(args: Args, answer: Answer): Option<Status> {
    match answer
    case Fails => None
    case IsDuplicate => Some(Duplicate)
    case IsNew => Some(if args.apply then Promoted else DryRun)
  }

  function Settle(st: RunState, table: string, row: Row, receipt: Receipt): RunState {
    st.(cursors := st.cursors[table := CursorOf(row)], receipt := receipt, settled := st.settled + {(table, row)})
  }

  function RecordPromotion(st: RunState, args: Args, table: string, row: Row, status: Status): RunState {
    match status
    case Duplicate =>
      var r := st.receipt.(duplicates := st.receipt.duplicates + 1);
      if args.apply then Settle(st, table, row, r) else st.(receipt := r)
    case DryRun => st.(receipt := st.receipt.(wouldPromote := st.receipt.wouldPromote + 1))
    case Promoted =>
      Settle(st.(applied := st.applied + 1), table, row, st.receipt.(promoted := st.receipt.promoted + 1))
  }

  function PromoteRow(st0: RunState, args: Args, table: string, row: Row, service: Service): (RunState, RowOutcome) {
    var st := st0.(receipt := st0.receipt.(scanned := st0.receipt.scanned + 1));
    if row.preview < args.minContentLength then
      var r := st.receipt.(skipped := st.receipt.skipped + 1);
      (if args.apply then Settle(st, table, row, r) else st.(receipt := r), Continue)
    else if args.apply && st.applied >= args.maxApply then (st.(capped := true), Stop)
    else
      match Ask(args, service(table, row, st.settled))
      case None => (st.(receipt := st.receipt.(failed := st.receipt.failed + 1)), Stop)
      case Some(status) => (RecordPromotion(st, args, table, row, status), Continue)
  }

  function PromoteRows(st: RunState, args: Args, table: string, rows: seq<Row>, service: Service)
    : (RunState, RowOutcome)
    decreases |rows|
  {
    if rows == [] then (st, Continue)
    else
      var (next, outcome) := PromoteRow(st, args, table, rows[0], service);
      if outcome.Stop? then (next, Stop) else PromoteRows(next, args, table, rows[1..], service)
  }

  function PromoteTable(st: RunState, args: Args, table: string, s: Snapshot, service: Service)
    : (RunState, RowOutcome)
  {
    PromoteRows(st, args, table, CandidateRows(RowsOf(s, table), CursorFor(st.cursors, table), args.batchSize), service)
  }

  function PromoteTables(st: RunState, args: Args, tables: seq<string>, s: Snapshot, service: Service): RunState
    decreases |tables|
  {
    if tables == [] then st
    else
      var (next, outcome) := PromoteTable(st, args, tables[0], s, service);
      if outcome.Stop? then next else PromoteTables(next, args, tables[1..], s, service)
  }

  /** One run: a fresh receipt and cap count over the saved cursors. */
  function RunPromoter(cursors: map<string, Cursor>, settled: set<(string, Row)>, args: Args, s: Snapshot,
                       service: Service): RunState {
    PromoteTables(RunState(cursors, 0, NO_RECEIPT, false, settled), args, args.tables, s, service)
  }

  // --- The run as the script drives it ---

  class PromoterRun {
    const args: Args
    var cursors: map<string, Cursor>
    var applied: nat
    var receipt: Receipt
    ghost var capped: bool
    var settled: set<(string, Row)>

    ghost function View(): RunState
      reads this
    {
      RunState(cursors, applied, receipt, capped, settled)
    }

    constructor (args: Args, cursors: map<string, Cursor>, settled: set<(string, Row)>)
      ensures this.args == args && View() == RunState(cursors, 0, NO_RECEIPT, false, settled)
    {
      this.args, this.cursors, applied, receipt := args, cursors, 0, NO_RECEIPT;
      capped, this.settled := false, settled;
    }

    method Record(table: string, row: Row, status: Status)
      modifies this
      ensures View() == RecordPromotion(old(View()), args, table, row, status)
    {
      match status {
        case Duplicate =>
          receipt := receipt.(duplicates := receipt.duplicates + 1);
          if args.apply {
            cursors := cursors[table := CursorOf(row)];
            settled := settled + {(table, row)};
          }
        case DryRun =>
          receipt := receipt.(wouldPromote := receipt.wouldPromote + 1);
        case Promoted =>
          applied := applied + 1;
          receipt := receipt.(promoted := receipt.promoted + 1);
          cursors := cursors[table := CursorOf(row)];
          settled := settled + {(table, row)};
      }
    }

    method HandleRow(table: string, row: Row, service: Service) returns (outcome: RowOutcome)
      modifies this
      ensures (View(), outcome) == PromoteRow(old(View()), args, table, row, service)
    {
      receipt := receipt.(scanned := receipt.scanned + 1);
      if row.preview < args.minContentLength {
        receipt := receipt.(skipped := receipt.skipped + 1);
        if args.apply {
          cursors := cursors[table := CursorOf(row)];
          settled := settled + {(table, row)};
        }
        return Continue;
      }
      if args.apply && applied >= args.maxApply {
        capped := true;
        return Stop;
      }
      var status := Ask(args, service(table, row, settled));
      if status.None? {
        receipt := receipt.(failed := receipt.failed + 1);
        return Stop;
      }
      Record(table, row, status.value);
      return Continue;
    }

    method HandleTable(table: string, s: Snapshot, service: Service) returns (outcome: RowOutcome)
      modifies this
      ensures (View(), outcome) == PromoteTable(old(View()), args, table, s, service)
    {
      var rows := CandidateRows(RowsOf(s, table), CursorFor(cursors, table), args.batchSize);
      assert rows[0..] == rows;
      for i := 0 to |rows|
        invariant PromoteRows(View(), args, table, rows[i..], service)
                  == PromoteRows(old(View()), args, table, rows, service)
      {
        assert rows[i..][1..] == rows[i + 1..];
        var o := HandleRow(table, rows[i], service);
        if o.Stop? { return Stop; }
      }
      return Continue;
    }

    method RunLegacyPromoter(s: Snapshot, service: Service)
      modifies this
      ensures View() == PromoteTables(old(View()), args, args.tables, s, service)
    {
      assert args.tables[0..] == args.tables;
      for i := 0 to |args.tables|
        invariant PromoteTables(View(), args, args.tables[i..], s, service)
                  == PromoteTables(old(View()), args, args.tables, s, service)
      {
        assert args.tables[i..][1..] == args.tables[i + 1..];
        var o := HandleTable(args.tables[i], s, service);
        if o.Stop? { return; }
      }
    }
  }

  // --- Per run: the receipt balances, the cap holds, a dry run moves nothing ---

  ghost predicate Balanced(st: RunState, args: Args) {
    var r := st.receipt;
    && r.scanned == r.promoted + r.wouldPromote + r.duplicates + r.skipped + r.failed + (if st.capped then 1 else 0)
    && r.promoted == st.applied
    && (args.apply ==> st.applied <= args.maxApply && r.wouldPromote == 0)
    && (!args.apply ==> st.applied == 0 && !st.capped)
  }

  lemma {:induction false} RowsBalance(st: RunState, args: Args, table: string, rows: seq<Row>, service: Service)
    requires Balanced(st, args) && !st.capped
    ensures var (end, outcome) := PromoteRows(st, args, table, rows, service);
            && Balanced(end, args) && (outcome.Continue? ==> !end.capped)
            && (!args.apply ==> end.cursors == st.cursors && end.settled == st.settled)
    decreases |rows|
  {
    if rows != [] {
      var (next, outcome) := PromoteRow(st, args, table, rows[0], service);
      if outcome.Continue? { RowsBalance(next, args, table, rows[1..], service); }
    }
  }

  lemma {:induction false} TablesBalance(st: RunState, args: Args, tables: seq<string>, s: Snapshot, service: Service)
    requires Balanced(st, args) && !st.capped
    ensures var end := PromoteTables(st, args, tables, s, service);
            Balanced(end, args) && (!args.apply ==> end.cursors == st.cursors && end.settled == st.settled)
    decreases |tables|
  {
    if tables != [] {
      RowsBalance(st, args, tables[0],
                  CandidateRows(RowsOf(s, tables[0]), CursorFor(st.cursors, tables[0]), args.batchSize), service);
      var (next, outcome) := PromoteTable(st, args, tables[0], s, service);
      if outcome.Continue? { TablesBalance(next, args, tables[1..], s, service); }
    }
  }

  lemma RunBalances(cursors: map<string, Cursor>, settled: set<(string, Row)>, args: Args, s: Snapshot,
                    service: Service)
    ensures var end := RunPromoter(cursors, settled, args, s, service);
            Balanced(end, args) && (!args.apply ==> end.cursors == cursors && end.settled == settled)
  {
    TablesBalance(RunState(cursors, 0, NO_RECEIPT, false, settled), args, args.tables, s, service);
  }

  // --- Over runs: the saved cursor never passes an unsettled row ---

  /** Every row the cursor hides has been settled. */
  ghost predicate TableCovered(rows: seq<Row>, cursor: Option<Cursor>, table: string, settled: set<(string, Row)>) {
    forall row :: row in rows && !Admits(cursor, row) ==> (table, row) in settled
  }

  ghost predicate NothingLost(s: Snapshot, cursors: map<string, Cursor>, settled: set<(string, Row)>) {
    forall t :: t in s ==> TableCovered(s[t], CursorFor(cursors, t), t, settled)
  }

  /** Cutting a time down to the millisecond can only admit more rows, never hide one after `row`. */
  lemma CursorHidesOnlyEarlier(row: Row, r: Row)
    requires Before(row, r)
    ensures Admits(Some(CursorOf(row)), r)
  {
  }

  /** The rows a query returns are the remaining rows up to some position. */
  lemma {:induction false} RemainingSplits(rows: seq<Row>, cursor: Option<Cursor>)
    requires Ordered(rows)
    ensures Ordered(Remaining(rows, cursor))
    ensures forall r :: r in Remaining(rows, cursor) <==> r in rows && Admits(cursor, r)
  {
    if rows != [] {
      RemainingSplits(rows[1..], cursor);
      assert rows == [rows[0]] + rows[1..];
      var rest := Remaining(rows[1..], cursor);
      forall j | 0 <= j < |rest| ensures Before(rows[0], rest[j]) {
        assert rest[j] in rows[1..];
      }
    }
  }

  ghost predicate NeverFails(service: Service) {
    forall t, row, done :: service(t, row, done) != Fails
  }

  /** In an apply run, a row either stops the run untouched or is settled and becomes the cursor. */
  lemma AppliedRowSettles(st: RunState, args: Args, table: string, row: Row, service: Service)
    requires args.apply
    ensures var (next, outcome) := PromoteRow(st, args, table, row, service);
            if outcome.Stop? then next.cursors == st.cursors && next.settled == st.settled
            else next.cursors == st.cursors[table := CursorOf(row)] && next.settled == st.settled + {(table, row)}
    ensures NeverFails(service) && st.applied < args.maxApply ==> PromoteRow(st, args, table, row, service).1.Continue?
  {
  }

  /**
   * Inside one batch: `done` rows of the batch are settled, the cursor stands at
   * the last of them, and no unsettled row is hidden.
   */
  lemma {:induction false} BatchLosesNothing(st: RunState, args: Args, table: string, rows: seq<Row>,
                                            start: Option<Cursor>, batch: seq<Row>, done: nat, service: Service)
    requires args.apply && Ordered(rows) && done <= |batch| <= |Remaining(rows, start)|
    requires batch == Remaining(rows, start)[..|batch|]
    requires forall i :: 0 <= i < done ==> (table, batch[i]) in st.settled
    requires TableCovered(rows, start, table, st.settled)
    requires CursorFor(st.cursors, table) == if done == 0 then start else Some(CursorOf(batch[done - 1]))
    ensures var end := PromoteRows(st, args, table, batch[done..], service).0;
            && TableCovered(rows, CursorFor(end.cursors, table), table, end.settled)
            && st.settled <= end.settled
            && forall t :: t != table ==> CursorFor(end.cursors, t) == CursorFor(st.cursors, t)
    decreases |batch| - done
  {
    PrefixCovers(rows, start, batch, done, table, st.settled);
    if done < |batch| {
      assert batch[done..][1..] == batch[done + 1..];
      AppliedRowSettles(st, args, table, batch[done], service);
      var (next, outcome) := PromoteRow(st, args, table, batch[done], service);
      if outcome.Continue? {
        BatchLosesNothing(next, args, table, rows, start, batch, done + 1, service);
      }
    }
  }

  lemma PrefixCovers(rows: seq<Row>, start: Option<Cursor>, batch: seq<Row>, done: nat, table: string,
                     settled: set<(string, Row)>)
    requires Ordered(rows) && done <= |batch| <= |Remaining(rows, start)| && batch == Remaining(rows, start)[..|batch|]
    requires forall i :: 0 <= i < done ==> (table, batch[i]) in settled
    requires TableCovered(rows, start, table, settled)
    ensures TableCovered(rows, if done == 0 then start else Some(CursorOf(batch[done - 1])), table, settled)
  {
    if done > 0 {
      var all, last := Remaining(rows, start), batch[done - 1];
      RemainingSplits(rows, start);
      forall row | row in rows && !Admits(Some(CursorOf(last)), row) ensures (table, row) in settled {
        if Admits(start, row) {
          var k :| 0 <= k < |all| && all[k] == row;
          if done <= k { CursorHidesOnlyEarlier(all[done - 1], all[k]); }
          assert batch[k] == row;
        }
      }
    }
  }

  lemma TableLosesNothing(st: RunState, args: Args, table: string, s: Snapshot, service: Service)
    requires args.apply && OrderedSnapshot(s) && NothingLost(s, st.cursors, st.settled)
    ensures var end := PromoteTable(st, args, table, s, service).0;
            NothingLost(s, end.cursors, end.settled) && st.settled <= end.settled
  {
    var rows, start := RowsOf(s, table), CursorFor(st.cursors, table);
    var batch := CandidateRows(rows, start, args.batchSize);
    assert batch == Remaining(rows, start)[..|batch|];
    assert batch[0..] == batch;
    BatchLosesNothing(st, args, table, rows, start, batch, 0, service);
    var end := PromoteTable(st, args, table, s, service).0;
    forall t | t in s ensures TableCovered(s[t], CursorFor(end.cursors, t), t, end.settled) {
      assert TableCovered(s[t], CursorFor(st.cursors, t), t, st.settled);
    }
  }

  lemma {:induction false} TablesLoseNothing(st: RunState, args: Args, tables: seq<string>, s: Snapshot,
                                             service: Service)
    requires args.apply && OrderedSnapshot(s) && NothingLost(s, st.cursors, st.settled)
    ensures var end := PromoteTables(st, args, tables, s, service);
            NothingLost(s, end.cursors, end.settled) && st.settled <= end.settled
    decreases |tables|
  {
    if tables != [] {
      TableLosesNothing(st, args, tables[0], s, service);
      var (next, outcome) := PromoteTable(st, args, tables[0], s, service);
      if outcome.Continue? { TablesLoseNothing(next, args, tables[1..], s, service); }
    }
  }

  /** One run as its environment sets it up. */
  datatype RunInput = RunInput(args: Args, snapshot: Snapshot, service: Service)

  /** Rows may leave between runs, and may arrive where the saved cursor still admits them. */
  ghost predicate Arrives(before: Snapshot, cursors: map<string, Cursor>, after: Snapshot) {
    forall t, row :: t in after && row in after[t] ==>
      (t in before && row in before[t]) || Admits(CursorFor(cursors, t), row)
  }

  /** The saved cursors and settled rows after a series of runs. */
  function Runs(cursors: map<string, Cursor>, settled: set<(string, Row)>, runs: seq<RunInput>)
    : (map<string, Cursor>, set<(string, Row)>)
    decreases |runs|
  {
    if runs == [] then (cursors, settled)
    else
      var end := RunPromoter(cursors, settled, runs[0].args, runs[0].snapshot, runs[0].service);
      Runs(end.cursors, end.settled, runs[1..])
  }

  /** Each run sees an ordered snapshot that follows from the one before it. */
  ghost predicate Follows(before: Snapshot, cursors: map<string, Cursor>, settled: set<(string, Row)>,
                          runs: seq<RunInput>)
    decreases |runs|
  {
    runs != [] ==>
      && OrderedSnapshot(runs[0].snapshot) && Arrives(before, cursors, runs[0].snapshot)
      && var end := RunPromoter(cursors, settled, runs[0].args, runs[0].snapshot, runs[0].service);
         Follows(runs[0].snapshot, end.cursors, end.settled, runs[1..])
  }

  /** Over any series of runs, stopped anywhere by cap, failure or batch end, dry or not, no row is lost. */
  lemma {:induction false} NoRunLosesARow(before: Snapshot, cursors: map<string, Cursor>, settled: set<(string, Row)>,
                                          runs: seq<RunInput>)
    requires runs != [] && Follows(before, cursors, settled, runs) && NothingLost(before, cursors, settled)
    ensures var (c, done) := Runs(cursors, settled, runs);
            NothingLost(runs[|runs| - 1].snapshot, c, done) && settled <= done
    decreases |runs|
  {
    var input := runs[0];
    var s := input.snapshot;
    forall t | t in s ensures TableCovered(s[t], CursorFor(cursors, t), t, settled) {
      forall row | row in s[t] && !Admits(CursorFor(cursors, t), row) ensures (t, row) in settled {
        assert TableCovered(before[t], CursorFor(cursors, t), t, settled);
      }
    }
    var end := RunPromoter(cursors, settled, input.args, s, input.service);
    if input.args.apply {
      TablesLoseNothing(RunState(cursors, 0, NO_RECEIPT, false, settled), input.args, input.args.tables, s,
                        input.service);
    } else {
      RunBalances(cursors, settled, input.args, s, input.service);
    }
    if |runs| > 1 { NoRunLosesARow(s, end.cursors, end.settled, runs[1..]); }
  }

  // --- What a run reads again ---

  /**
   * A row at or before the cursor's own row is read again exactly when it lies in
   * the same millisecond and either strictly inside it or under a greater id.
   */
  lemma RescannedExactly(last: Row, row: Row)
    requires !Before(last, row)
    ensures Admits(Some(CursorOf(last)), row) <==>
              row.createdAt / 1000 == last.createdAt / 1000
              && (row.createdAt % 1000 != 0 || StrLess(last.id, row.id))
  {
  }
}
