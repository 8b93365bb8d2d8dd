/**
 * One run of the promoter row by row: which rows it takes up, what becomes of
 * each, and what the receipt, the cursors and the settled rows say of them.
 */
module PromoterRows {
  import opened Wrappers
  import opened Sorting
  import opened LegacyPromoter

  /** What became of a row: too short, answered new or known, the call threw, or the cap was reached. */
  datatype Fate = TooShort | AnsweredNew | AnsweredKnown | Threw | AtCap

  datatype Handling = Handling(table: string, row: Row, fate: Fate)

  predicate Stops(fate: Fate) { fate.Threw? || fate.AtCap? }

  function HowMany(log: seq<Handling>, fate: Fate): nat {
    if log == [] then 0
    else HowMany(log[..|log| - 1], fate) + if log[|log| - 1].fate == fate then 1 else 0
  }

  lemma HowManyAppend(log: seq<Handling>, h: Handling, fate: Fate)
    ensures HowMany(log + [h], fate) == HowMany(log, fate) + if h.fate == fate then 1 else 0
  {
    assert (log + [h])[..|log|] == log;
  }

  /** The rows settled after `log`: in an apply run, whatever did not stop it. */
  ghost function SettledAfter(args: Args, before: set<(string, Row)>, log: seq<Handling>): set<(string, Row)> {
    if args.apply then before + set h | h in log && !Stops(h.fate) :: (h.table, h.row) else before
  }

  /** A short row is passed over; a long one meets the cap or is sent, and its fate is the service's answer. */
  ghost predicate FateIs(args: Args, service: Service, before: set<(string, Row)>, earlier: seq<Handling>, h: Handling)
  {
    var short := h.row.preview < args.minContentLength;
    var atCap := args.apply && HowMany(earlier, AnsweredNew) >= args.maxApply;
    && (short ==> h.fate == TooShort)
    && (!short && atCap ==> h.fate == AtCap)
    && (!short && !atCap ==>
          match service(h.table, h.row, SettledAfter(args, before, earlier))
          case IsNew => h.fate == AnsweredNew
          case IsDuplicate => h.fate == AnsweredKnown
          case Fails => h.fate == Threw)
  }

  /** Only the last row can have stopped the run. */
  ghost predicate LogIs(args: Args, service: Service, before: set<(string, Row)>, log: seq<Handling>) {
    && (forall i :: 0 <= i < |log| ==> FateIs(args, service, before, log[..i], log[i]))
    && (forall i :: 0 <= i < |log| - 1 ==> !Stops(log[i].fate))
  }

  predicate Stopped(log: seq<Handling>) { log != [] && Stops(log[|log| - 1].fate) }

  /** The last row of the table the log settles. */
  ghost predicate LastOf(log: seq<Handling>, table: string, i: int) {
    && 0 <= i < |log| && log[i].table == table && !Stops(log[i].fate)
    && forall j :: i < j < |log| && log[j].table == table ==> Stops(log[j].fate)
  }

  /** In an apply run a table's cursor is its last settled row, to the millisecond; no other cursor moves. */
  ghost predicate CursorsFollow(args: Args, before: map<string, Cursor>, after: map<string, Cursor>,
                                log: seq<Handling>) {
    && (forall t, i :: args.apply && LastOf(log, t, i) ==>
          t in after && after[t] == Cursor(log[i].row.createdAt / 1000, log[i].row.id))
    && (forall t :: (args.apply ==> forall i :: !LastOf(log, t, i)) ==>
          (t in after <==> t in before) && (t in before ==> after[t] == before[t]))
  }

  /** The receipt counts the fates. */
  ghost predicate Counts(args: Args, r: Receipt, log: seq<Handling>) {
    && r.scanned == |log| && r.skipped == HowMany(log, TooShort) && r.failed == HowMany(log, Threw)
    && r.duplicates == HowMany(log, AnsweredKnown)
    && r.promoted == (if args.apply then HowMany(log, AnsweredNew) else 0)
    && r.wouldPromote == (if args.apply then 0 else HowMany(log, AnsweredNew))
  }

  ghost predicate Explains(args: Args, service: Service, cursors: map<string, Cursor>, before: set<(string, Row)>,
                           log: seq<Handling>, st: RunState) {
    && LogIs(args, service, before, log) && Counts(args, st.receipt, log)
    && CursorsFollow(args, cursors, st.cursors, log) && st.settled == SettledAfter(args, before, log)
    && st.applied == (if args.apply then HowMany(log, AnsweredNew) else 0)
    && (st.capped <==> log != [] && log[|log| - 1].fate == AtCap)
  }

  // --- Each row extends the log ---

  lemma LogGrows(args: Args, service: Service, before: set<(string, Row)>, log: seq<Handling>, h: Handling)
    requires LogIs(args, service, before, log) && !Stopped(log) && FateIs(args, service, before, log, h)
    ensures LogIs(args, service, before, log + [h])
  {
    var more := log + [h];
    forall i | 0 <= i < |more| ensures FateIs(args, service, before, more[..i], more[i]) {
      assert more[..i] == log[..i];
      if i == |log| { assert log[..i] == log; }
    }
  }

  lemma CursorsGrow(args: Args, before: map<string, Cursor>, mid: map<string, Cursor>, log: seq<Handling>, h: Handling)
    requires CursorsFollow(args, before, mid, log)
    ensures CursorsFollow(args, before,
                          if args.apply && !Stops(h.fate) then mid[h.table := CursorOf(h.row)] else mid, log + [h])
  {
    var more := log + [h];
    forall t, i ensures LastOf(more, t, i) <==>
                          if t == h.table && !Stops(h.fate) then i == |log| else LastOf(log, t, i) {
      assert more[|log|] == h && forall j :: 0 <= j < |log| ==> more[j] == log[j];
    }
    if !Stops(h.fate) { assert LastOf(more, h.table, |log|); }
  }

  lemma SettledGrows(args: Args, before: set<(string, Row)>, log: seq<Handling>, h: Handling)
    ensures SettledAfter(args, before, log + [h])
         == SettledAfter(args, before, log) + if args.apply && !Stops(h.fate) then {(h.table, h.row)} else {}
  {
    assert forall g :: g in log + [h] <==> g in log || g == h;
  }

  lemma CountsGrow(args: Args, r: Receipt, log: seq<Handling>, h: Handling)
    requires Counts(args, r, log)
    ensures Counts(args, Counted(args, r, h.fate), log + [h])
  {
    HowManyAppend(log, h, TooShort);
    HowManyAppend(log, h, AnsweredNew);
    HowManyAppend(log, h, AnsweredKnown);
    HowManyAppend(log, h, Threw);
  }

  function Counted(args: Args, r: Receipt, fate: Fate): Receipt {
    var s := r.(scanned := r.scanned + 1);
    match fate
    case TooShort => s.(skipped := r.skipped + 1)
    case AnsweredNew =>
      if args.apply then s.(promoted := r.promoted + 1) else s.(wouldPromote := r.wouldPromote + 1)
    case AnsweredKnown => s.(duplicates := r.duplicates + 1)
    case Threw => s.(failed := r.failed + 1)
    case AtCap => s
  }

  /** One row handled: its fate from the state before, and the state after. */
  ghost predicate Handles(args: Args, service: Service, st: RunState, h: Handling, next: RunState) {
    var short, atCap := h.row.preview < args.minContentLength, args.apply && st.applied >= args.maxApply;
    && (short ==> h.fate == TooShort)
    && (!short && atCap ==> h.fate == AtCap)
    && (!short && !atCap ==>
          match service(h.table, h.row, st.settled)
          case IsNew => h.fate == AnsweredNew
          case IsDuplicate => h.fate == AnsweredKnown
          case Fails => h.fate == Threw)
    && next.receipt == Counted(args, st.receipt, h.fate)
    && next.applied == st.applied + (if args.apply && h.fate.AnsweredNew? then 1 else 0)
    && next.capped == (st.capped || h.fate.AtCap?)
    && next.cursors == (if args.apply && !Stops(h.fate) then st.cursors[h.table := CursorOf(h.row)] else st.cursors)
    && next.settled == st.settled + (if args.apply && !Stops(h.fate) then {(h.table, h.row)} else {})
  }

  lemma RowHandles(st: RunState, args: Args, table: string, row: Row, service: Service) returns (h: Handling)
    ensures h.table == table && h.row == row
    ensures Handles(args, service, st, h, PromoteRow(st, args, table, row, service).0)
    ensures PromoteRow(st, args, table, row, service).1.Stop? <==> Stops(h.fate)
  {
    h := Handling(
      table, row,
      if row.preview < args.minContentLength then TooShort
      else if args.apply && st.applied >= args.maxApply then AtCap
      else match service(table, row, st.settled)
           case IsNew => AnsweredNew
           case IsDuplicate => AnsweredKnown
           case Fails => Threw);
    assert st.settled + {} == st.settled;
  }

  lemma HandledExtends(st: RunState, args: Args, service: Service, cursors: map<string, Cursor>,
                       before: set<(string, Row)>, log: seq<Handling>, h: Handling, next: RunState)
    requires Explains(args, service, cursors, before, log, st) && !Stopped(log)
    requires Handles(args, service, st, h, next)
    ensures Explains(args, service, cursors, before, log + [h], next)
  {
    assert FateIs(args, service, before, log, h);
    LogGrows(args, service, before, log, h);
    CursorsGrow(args, cursors, st.cursors, log, h);
    SettledGrows(args, before, log, h);
    CountsGrow(args, st.receipt, log, h);
    HowManyAppend(log, h, AnsweredNew);
  }

  /** From position `from` on the log takes up `work` in order, all of it unless the run stopped. */
  ghost predicate TakesUp(log: seq<Handling>, from: nat, work: seq<(string, Row)>) {
    && from <= |log| <= from + |work|
    && (forall i :: from <= i < |log| ==> (log[i].table, log[i].row) == work[i - from])
    && (|log| < from + |work| ==> Stopped(log))
  }

  function Tagged(table: string, rows: seq<Row>): (r: seq<(string, Row)>)
    ensures |r| == |rows| && forall i :: 0 <= i < |rows| ==> r[i] == (table, rows[i])
  {
    seq(|rows|, i requires 0 <= i < |rows| => (table, rows[i]))
  }

  lemma TakesUpFirst(log: seq<Handling>, from: nat, table: string, rows: seq<Row>)
    requires rows != [] && from < |log| && log[from].table == table && log[from].row == rows[0]
    requires TakesUp(log, from + 1, Tagged(table, rows[1..]))
    ensures TakesUp(log, from, Tagged(table, rows))
  {
  }

  lemma TakesUpMore(log: seq<Handling>, mid: seq<Handling>, end: seq<Handling>, a: seq<(string, Row)>,
                    b: seq<(string, Row)>)
    requires log <= mid <= end && TakesUp(mid, |log|, a) && TakesUp(end, |mid|, b)
    requires !Stopped(mid)
    ensures TakesUp(end, |log|, a + b)
  {
  }

  lemma TakesUpPart(log: seq<Handling>, from: nat, a: seq<(string, Row)>, b: seq<(string, Row)>)
    requires TakesUp(log, from, a) && Stopped(log)
    ensures TakesUp(log, from, a + b)
  {
  }

  lemma RowExtends(st: RunState, args: Args, table: string, row: Row, service: Service, cursors: map<string, Cursor>,
                   before: set<(string, Row)>, log: seq<Handling>) returns (end: seq<Handling>)
    requires Explains(args, service, cursors, before, log, st) && !Stopped(log)
    ensures log <= end && |end| == |log| + 1 && end[|log|].table == table && end[|log|].row == row
    ensures var (next, outcome) := PromoteRow(st, args, table, row, service);
            Explains(args, service, cursors, before, end, next) && (outcome.Stop? <==> Stopped(end))
  {
    var h := RowHandles(st, args, table, row, service);
    HandledExtends(st, args, service, cursors, before, log, h, PromoteRow(st, args, table, row, service).0);
    end := log + [h];
  }

  lemma {:induction false} RowsExtend(st: RunState, args: Args, table: string, rows: seq<Row>, service: Service,
                                      cursors: map<string, Cursor>, before: set<(string, Row)>, log: seq<Handling>)
    returns (end: seq<Handling>)
    requires Explains(args, service, cursors, before, log, st) && !Stopped(log)
    ensures log <= end && TakesUp(end, |log|, Tagged(table, rows))
    ensures var (next, outcome) := PromoteRows(st, args, table, rows, service);
            Explains(args, service, cursors, before, end, next) && (outcome.Stop? <==> Stopped(end))
    decreases |rows|
  {
    if rows == [] { return log; }
    var mid := RowExtends(st, args, table, rows[0], service, cursors, before, log);
    var (next, outcome) := PromoteRow(st, args, table, rows[0], service);
    if outcome.Stop? {
      end := mid;
    } else {
      end := RowsExtend(next, args, table, rows[1..], service, cursors, before, mid);
    }
    TakesUpFirst(end, |log|, table, rows);
  }

  // --- The rows a run takes up ---

  /** The first rows the cursor admits, at most `size` of them. */
  ghost predicate FirstAdmitted(rows: seq<Row>, cursor: Option<Cursor>, size: nat, batch: seq<Row>) {
    && |batch| <= size && Ordered(batch) && (forall r :: r in batch ==> r in rows && Admits(cursor, r))
    && forall r :: r in rows && Admits(cursor, r) && r !in batch ==>
         |batch| == size && forall b :: b in batch ==> Before(b, r)
  }

  /** One batch for each table in turn. */
  ghost predicate WorkIs(args: Args, tables: seq<string>, s: Snapshot, cursors: map<string, Cursor>,
                         work: seq<(string, Row)>)
    decreases |tables|
  {
    if tables == [] then work == []
    else exists n, batch :: 0 <= n <= |work| && work[..n] == Tagged(tables[0], batch)
           && FirstAdmitted(RowsOf(s, tables[0]), CursorFor(cursors, tables[0]), args.batchSize, batch)
           && WorkIs(args, tables[1..], s, cursors, work[n..])
  }

  lemma BatchIsFirst(rows: seq<Row>, cursor: Option<Cursor>, size: nat)
    requires Ordered(rows)
    ensures FirstAdmitted(rows, cursor, size, CandidateRows(rows, cursor, size))
  {
    RemainingSplits(rows, cursor);
    var all, batch := Remaining(rows, cursor), CandidateRows(rows, cursor, size);
    assert forall i :: 0 <= i < |batch| ==> batch[i] == all[i];
    forall r | r in rows && Admits(cursor, r) && r !in batch
      ensures |batch| == size && forall b :: b in batch ==> Before(b, r)
    {
      var k :| 0 <= k < |all| && all[k] == r;
      assert k >= |batch|;
    }
  }

  /** A batch of one table leaves the other cursors alone. */
  lemma OtherCursorsStay(args: Args, before: map<string, Cursor>, after: map<string, Cursor>, log: seq<Handling>,
                         table: string)
    requires CursorsFollow(args, before, after, log) && forall h :: h in log ==> h.table != table
    ensures CursorFor(after, table) == CursorFor(before, table)
  {
    assert forall i :: !LastOf(log, table, i);
  }

  /** Each listed table is still untouched, once listed, and its rows stand in order. */
  ghost predicate Untouched(log: seq<Handling>, tables: seq<string>, s: Snapshot) {
    OrderedSnapshot(s) && NoDuplicates(tables) && forall h :: h in log ==> h.table !in tables
  }

  lemma {:induction false} TablesExtend(st: RunState, args: Args, tables: seq<string>, s: Snapshot, service: Service,
                                        cursors: map<string, Cursor>, before: set<(string, Row)>, log: seq<Handling>)
    returns (end: seq<Handling>, work: seq<(string, Row)>)
    requires Explains(args, service, cursors, before, log, st) && !Stopped(log)
    ensures log <= end && Explains(args, service, cursors, before, end, PromoteTables(st, args, tables, s, service))
    ensures Untouched(log, tables, s) ==> WorkIs(args, tables, s, cursors, work) && TakesUp(end, |log|, work)
    decreases |tables|
  {
    if tables == [] { return log, []; }
    var table := tables[0];
    var batch := CandidateRows(RowsOf(s, table), CursorFor(st.cursors, table), args.batchSize);
    var mid := RowsExtend(st, args, table, batch, service, cursors, before, log);
    var (next, outcome) := PromoteTable(st, args, table, s, service);
    var rest: seq<(string, Row)>;
    if outcome.Stop? {
      rest := SomeWork(args, tables[1..], s, cursors);
      end := mid;
      TakesUpPart(end, |log|, Tagged(table, batch), rest);
    } else {
      end, rest := TablesExtend(next, args, tables[1..], s, service, cursors, before, mid);
      if Untouched(log, tables, s) {
        TableIsDone(log, mid, table, batch, tables, s);
        TakesUpMore(log, mid, end, Tagged(table, batch), rest);
      }
    }
    work := Tagged(table, batch) + rest;
    if Untouched(log, tables, s) {
      OtherCursorsStay(args, cursors, st.cursors, log, table);
      FirstWork(args, tables, s, cursors, batch, rest);
    }
  }

  lemma TableIsDone(log: seq<Handling>, mid: seq<Handling>, table: string, batch: seq<Row>, tables: seq<string>,
                    s: Snapshot)
    requires tables != [] && table == tables[0] && Untouched(log, tables, s)
    requires log <= mid && TakesUp(mid, |log|, Tagged(table, batch))
    ensures Untouched(mid, tables[1..], s)
  {
    forall h | h in mid ensures h.table !in tables[1..] { assert h in log || h.table == table; }
  }

  lemma FirstWork(args: Args, tables: seq<string>, s: Snapshot, cursors: map<string, Cursor>, batch: seq<Row>,
                  rest: seq<(string, Row)>)
    requires tables != [] && OrderedSnapshot(s)
    requires batch == CandidateRows(RowsOf(s, tables[0]), CursorFor(cursors, tables[0]), args.batchSize)
    requires WorkIs(args, tables[1..], s, cursors, rest)
    ensures WorkIs(args, tables, s, cursors, Tagged(tables[0], batch) + rest)
  {
    BatchIsFirst(RowsOf(s, tables[0]), CursorFor(cursors, tables[0]), args.batchSize);
    var work := Tagged(tables[0], batch) + rest;
    assert work[..|batch|] == Tagged(tables[0], batch) && work[|batch|..] == rest;
  }

  lemma {:induction false} SomeWork(args: Args, tables: seq<string>, s: Snapshot, cursors: map<string, Cursor>)
    returns (work: seq<(string, Row)>)
    ensures OrderedSnapshot(s) ==> WorkIs(args, tables, s, cursors, work)
    decreases |tables|
  {
    if tables == [] { return []; }
    var batch := CandidateRows(RowsOf(s, tables[0]), CursorFor(cursors, tables[0]), args.batchSize);
    var rest := SomeWork(args, tables[1..], s, cursors);
    work := Tagged(tables[0], batch) + rest;
    if OrderedSnapshot(s) { FirstWork(args, tables, s, cursors, batch, rest); }
  }

  // --- The run ---

  lemma RunLog(cursors: map<string, Cursor>, settled: set<(string, Row)>, args: Args, s: Snapshot, service: Service)
    returns (log: seq<Handling>, work: seq<(string, Row)>)
    ensures Explains(args, service, cursors, settled, log, RunPromoter(cursors, settled, args, s, service))
    ensures Untouched([], args.tables, s) ==> WorkIs(args, args.tables, s, cursors, work) && TakesUp(log, 0, work)
  {
    var start := RunState(cursors, 0, NO_RECEIPT, false, settled);
    assert SettledAfter(args, settled, []) == settled;
    assert CursorsFollow(args, cursors, cursors, []);
    log, work := TablesExtend(start, args, args.tables, s, service, cursors, settled, []);
  }

  /** What became of every row a run took up, and what the receipt, the cursors and the settled rows say of it. */
  lemma RunIsLogged(cursors: map<string, Cursor>, settled: set<(string, Row)>, args: Args, s: Snapshot,
                    service: Service)
    ensures exists log ::
              Explains(args, service, cursors, settled, log, RunPromoter(cursors, settled, args, s, service))
  {
    var log, work := RunLog(cursors, settled, args, s, service);
  }

  /** Where no table is listed twice, the rows are the first of each table's admitted ones, until the run stops. */
  lemma RunTakesUpFirstRows(cursors: map<string, Cursor>, settled: set<(string, Row)>, args: Args, s: Snapshot,
                            service: Service)
    requires OrderedSnapshot(s) && NoDuplicates(args.tables)
    ensures exists log, work ::
              Explains(args, service, cursors, settled, log, RunPromoter(cursors, settled, args, s, service))
              && WorkIs(args, args.tables, s, cursors, work) && TakesUp(log, 0, work)
  {
    var log, work := RunLog(cursors, settled, args, s, service);
  }

  /** The service answered for the row, asked in view of rows settled by then. */
  ghost predicate Answered(service: Service, pair: (string, Row), from: set<(string, Row)>, to: set<(string, Row)>) {
    exists known :: from <= known <= to && service(pair.0, pair.1, known) != Fails
  }

  /** A row newly settled by a run is too short or was sent and answered; a dry run settles none. */
  lemma SettledWasAnswered(cursors: map<string, Cursor>, settled: set<(string, Row)>, args: Args, s: Snapshot,
                           service: Service)
    ensures var end := RunPromoter(cursors, settled, args, s, service);
            && settled <= end.settled
            && forall pair :: pair in end.settled && pair !in settled ==>
                 args.apply
                 && (pair.1.preview < args.minContentLength || Answered(service, pair, settled, end.settled))
  {
    var end := RunPromoter(cursors, settled, args, s, service);
    var log, work := RunLog(cursors, settled, args, s, service);
    forall pair | pair in end.settled && pair !in settled
      ensures args.apply
              && (pair.1.preview < args.minContentLength || Answered(service, pair, settled, end.settled))
    {
      var h :| h in log && !Stops(h.fate) && (h.table, h.row) == pair;
      var i :| 0 <= i < |log| && log[i] == h;
      assert FateIs(args, service, settled, log[..i], h);
      var known := SettledAfter(args, settled, log[..i]);
      assert known <= SettledAfter(args, settled, log);
    }
  }

  /** Above the minimum a row that the service would never answer is never settled. */
  lemma UnansweredIsNeverSettled(cursors: map<string, Cursor>, settled: set<(string, Row)>, args: Args, s: Snapshot,
                                 service: Service, table: string, row: Row)
    requires row.preview >= args.minContentLength && (table, row) !in settled
    requires forall known :: service(table, row, known) == Fails
    ensures (table, row) !in RunPromoter(cursors, settled, args, s, service).settled
  {
    SettledWasAnswered(cursors, settled, args, s, service);
  }
}
