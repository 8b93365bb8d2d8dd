/**
 * When finitely many runs of the legacy promoter settle every row: exactly when
 * no listed table holds a trap. The service may answer as it likes, as long as it
 * answers and does not take a settled row for a new one.
 */
module PromoterProgress {
  import opened Wrappers
  import opened LegacyPromoter
  import opened PromoterBatches
  import opened Rounds

  /** A settled row long enough to be sent is never taken for new. */
  ghost predicate Remembers(service: Service, args: Args) {
    forall t, row: Row, done ::
      (t, row) in done && row.preview >= args.minContentLength ==> service(t, row, done) != IsNew
  }

  /** An apply run with a batch and a cap of at least one, over ordered tables and an answering service. */
  ghost predicate Proper(input: RunInput) {
    && input.args.apply && input.args.batchSize >= 1 && input.args.maxApply >= 1
    && OrderedSnapshot(input.snapshot) && NeverFails(input.service) && Remembers(input.service, input.args)
  }

  function Listed(s: Snapshot, tables: seq<string>): set<(string, Row)> {
    set t, row | t in tables && t in s && row in s[t] :: (t, row)
  }

  function Repeat(input: RunInput, n: nat): seq<RunInput> {
    seq(n, _ => input)
  }

  // --- One batch of one table ---

  /** Whatever the answers, a batch settles only its own rows and leaves the cursor on one of them or where it was. */
  lemma {:induction false} BatchTouches(st: RunState, args: Args, table: string, batch: seq<Row>, service: Service)
    ensures var end := PromoteRows(st, args, table, batch, service).0;
            && st.settled <= end.settled
            && (forall p :: p in end.settled ==> p in st.settled || (p.0 == table && p.1 in batch))
            && (CursorFor(end.cursors, table) == CursorFor(st.cursors, table)
                || exists r :: r in batch && CursorFor(end.cursors, table) == Some(CursorOf(r)))
            && (forall t :: t != table ==> CursorFor(end.cursors, t) == CursorFor(st.cursors, t))
    decreases |batch|
  {
    if batch != [] {
      var (next, outcome) := PromoteRow(st, args, table, batch[0], service);
      if outcome.Continue? { BatchTouches(next, args, table, batch[1..], service); }
    }
  }

  /** A batch of settled rows passes whole: nothing is promoted, and the cursor ends on its last row. */
  lemma {:induction false} SettledBatchPasses(st: RunState, args: Args, table: string, batch: seq<Row>,
                                              service: Service)
    requires args.apply && st.applied == 0 < args.maxApply && NeverFails(service) && Remembers(service, args)
    requires forall r :: r in batch ==> (table, r) in st.settled
    ensures var (end, outcome) := PromoteRows(st, args, table, batch, service);
            && outcome == Continue && end.applied == 0 && end.settled == st.settled
            && CursorFor(end.cursors, table)
               == (if batch == [] then CursorFor(st.cursors, table) else Some(CursorOf(batch[|batch| - 1])))
            && (forall t :: t != table ==> CursorFor(end.cursors, t) == CursorFor(st.cursors, t))
    decreases |batch|
  {
    if batch != [] {
      assert (table, batch[0]) in st.settled;
      AppliedRowSettles(st, args, table, batch[0], service);
      var (next, outcome) := PromoteRow(st, args, table, batch[0], service);
      assert next.settled == st.settled && next.applied == 0;
      SettledBatchPasses(next, args, table, batch[1..], service);
    }
  }

  /** A batch that settles nothing new held settled rows only. */
  lemma {:induction false} IdleBatchWasSettled(st: RunState, args: Args, table: string, batch: seq<Row>,
                                               service: Service)
    requires args.apply && st.applied == 0 < args.maxApply && NeverFails(service) && Remembers(service, args)
    requires PromoteRows(st, args, table, batch, service).0.settled == st.settled
    ensures forall r :: r in batch ==> (table, r) in st.settled
    decreases |batch|
  {
    if batch != [] {
      var next := PromoteRow(st, args, table, batch[0], service).0;
      AppliedRowSettles(st, args, table, batch[0], service);
      BatchTouches(next, args, table, batch[1..], service);
      assert (table, batch[0]) in st.settled;
      assert next.settled == st.settled && next.applied == 0;
      IdleBatchWasSettled(next, args, table, batch[1..], service);
    }
  }

  /** An unsettled row lies behind a full batch of settled ones. */
  lemma UnsettledIsBehind(rows: seq<Row>, size: nat, cursor: Option<Cursor>, u: Row)
    requires Ordered(rows) && size >= 1 && u in rows && Admits(cursor, u) && u !in CandidateRows(rows, cursor, size)
    ensures size < |Remaining(rows, cursor)| && Before(Remaining(rows, cursor)[size - 1], u)
    ensures CandidateRows(rows, cursor, size) == Remaining(rows, cursor)[..size]
  {
    RemainingSplits(rows, cursor);
    var all := Remaining(rows, cursor);
    var j :| 0 <= j < |all| && all[j] == u;
    var batch := CandidateRows(rows, cursor, size);
    assert forall k :: 0 <= k < |batch| ==> batch[k] == all[k] && batch[k] in batch;
  }

  // --- A walk of full batches towards an unsettled row ---

  /** What still lies ahead of a cursor: later rows, unvisited rows inside its millisecond, rows at its start. */
  datatype Ahead = Ahead(later: nat, unvisited: set<Row>, start: nat)

  predicate Nearer(a: Ahead, b: Ahead) {
    || a.later < b.later
    || (a.later == b.later && a.unvisited < b.unvisited)
    || (a.later == b.later && a.unvisited == b.unvisited && a.start < b.start)
  }

  function AheadOf(rows: seq<Row>, cursor: Option<Cursor>, visited: set<Row>): Ahead {
    match cursor
    case None => Ahead(|rows| + 1, {}, 0)
    case Some(c) =>
      Ahead(|Later(rows, c.milliseconds)|, (set r | r in Inside(rows, c.milliseconds)) - visited, |Above(rows, c)|)
  }

  /** `v` was ended on: what it lands on was ended on too, or is where the walk is heading. */
  ghost predicate Passed(rows: seq<Row>, size: nat, c: Cursor, visited: set<Row>, u: Row, v: Row)
    requires size >= 1
  {
    && v in Inside(rows, c.milliseconds) && Before(v, u)
    && (LandsIn(rows, size, CursorOf(v), visited)
        || LandingIndex(rows, size, CursorOf(v)) == LandingIndex(rows, size, c))
  }

  ghost predicate Walked(rows: seq<Row>, size: nat, cursor: Option<Cursor>, visited: set<Row>, u: Row)
    requires size >= 1
  {
    match cursor
    case None => visited == {}
    case Some(c) =>
      forall v {:trigger Passed(rows, size, c, visited, u, v)} :: v in visited ==> Passed(rows, size, c, visited, u, v)
  }

  /** Ending on a visited row again would close a trap. */
  lemma RevisitIsTrap(rows: seq<Row>, size: nat, c: Cursor, visited: set<Row>, u: Row)
    requires size >= 1 && u in rows && Walked(rows, size, Some(c), visited, u) && LandsIn(rows, size, c, visited)
    ensures Trapped(rows, size)
  {
    var m := c.milliseconds;
    assert Inside(rows, m)[LandingIndex(rows, size, c)] in visited;
    forall v | v in visited ensures Holds(rows, size, m, visited, u, v) {
      assert Passed(rows, size, c, visited, u, v);
      InsideMillisecond(rows, m, v);
    }
    assert Trap(rows, size, m, visited, u);
  }

  lemma StepInside(rows: seq<Row>, size: nat, c: Cursor, visited: set<Row>, u: Row, y: Row)
    requires Ordered(rows) && size >= 1 && u in rows && !Trapped(rows, size) && Walked(rows, size, Some(c), visited, u)
    requires |Above(rows, c)| < size && LandingIndex(rows, size, c) < |Inside(rows, c.milliseconds)|
    requires y == Inside(rows, c.milliseconds)[LandingIndex(rows, size, c)] && Before(y, u)
    ensures Walked(rows, size, Some(CursorOf(y)), visited + {y}, u)
    ensures Nearer(AheadOf(rows, Some(CursorOf(y)), visited + {y}), AheadOf(rows, Some(c), visited))
  {
    assert y in Inside(rows, c.milliseconds);
    InsideMillisecond(rows, c.milliseconds, y);
    if y in visited { RevisitIsTrap(rows, size, c, visited, u); }
    var now, c' := visited + {y}, CursorOf(y);
    forall v | v in now ensures Passed(rows, size, c', now, u, v) {
      if v != y {
        assert Passed(rows, size, c, visited, u, v);
        InsideMillisecond(rows, c.milliseconds, v);
      }
    }
  }

  lemma StepAtStart(rows: seq<Row>, size: nat, c: Cursor, visited: set<Row>, u: Row, y: Row)
    requires size >= 1 && Walked(rows, size, Some(c), visited, u) && CursorOf(y).milliseconds == c.milliseconds
    requires |Above(rows, CursorOf(y))| < |Above(rows, c)|
    requires LandingIndex(rows, size, CursorOf(y)) == LandingIndex(rows, size, c)
    ensures Walked(rows, size, Some(CursorOf(y)), visited, u)
    ensures Nearer(AheadOf(rows, Some(CursorOf(y)), visited), AheadOf(rows, Some(c), visited))
  {
    forall v | v in visited ensures Passed(rows, size, CursorOf(y), visited, u, v) {
      assert Passed(rows, size, c, visited, u, v);
    }
  }

  /** Each full batch of settled rows brings the cursor nearer, unless there is a trap. */
  lemma WalkStep(rows: seq<Row>, size: nat, cursor: Option<Cursor>, visited: set<Row>, u: Row, y: Row)
    returns (now: set<Row>)
    requires Ordered(rows) && size >= 1 && u in rows && !Trapped(rows, size) && Walked(rows, size, cursor, visited, u)
    requires size <= |Remaining(rows, cursor)| && y == Remaining(rows, cursor)[size - 1] && Before(y, u)
    ensures Walked(rows, size, Some(CursorOf(y)), now, u)
    ensures Nearer(AheadOf(rows, Some(CursorOf(y)), now), AheadOf(rows, cursor, visited))
  {
    now := {};
    if cursor.None? {
      LaterShrinks(rows, CursorOf(y).milliseconds, CursorOf(y).milliseconds);
    } else {
      var c := cursor.value;
      if |Above(rows, c)| >= size {
        BatchEndsAtStart(rows, size, c);
        StepAtStart(rows, size, c, visited, u, y);
        now := visited;
      } else if LandingIndex(rows, size, c) < |Inside(rows, c.milliseconds)| {
        BatchEndsInside(rows, size, c);
        StepInside(rows, size, c, visited, u, y);
        now := visited + {y};
      } else {
        BatchEndsLater(rows, size, c);
        LaterShrinks(rows, c.milliseconds, CursorOf(y).milliseconds);
      }
    }
  }

  // --- Idle runs: nothing new settled, yet every listed table moves on ---

  /** `a` is nearer than `b`, or the same when the step need not move. */
  predicate NearerOr(a: Ahead, b: Ahead, same: bool) {
    Nearer(a, b) || (same && a == b)
  }

  /** What the walk towards `u` in table `table` needs of a state. */
  ghost predicate Walking(st: RunState, args: Args, s: Snapshot, table: string, u: Row, visited: set<Row>) {
    && args.batchSize >= 1 && st.applied == 0 && NothingLost(s, st.cursors, st.settled)
    && table in s && u in s[table] && (table, u) !in st.settled && !Trapped(s[table], args.batchSize)
    && Walked(s[table], args.batchSize, CursorFor(st.cursors, table), visited, u)
  }

  function AheadIn(st: RunState, s: Snapshot, table: string, visited: set<Row>): Ahead {
    AheadOf(RowsOf(s, table), CursorFor(st.cursors, table), visited)
  }

  /** One idle batch, of this table or another. */
  lemma IdleTable(st: RunState, input: RunInput, t: string, table: string, u: Row, visited: set<Row>)
    returns (now: set<Row>)
    requires Proper(input) && Walking(st, input.args, input.snapshot, table, u, visited)
    requires PromoteTable(st, input.args, t, input.snapshot, input.service).0.settled == st.settled
    ensures var (end, outcome) := PromoteTable(st, input.args, t, input.snapshot, input.service);
            && outcome == Continue && Walking(end, input.args, input.snapshot, table, u, now)
            && NearerOr(AheadIn(end, input.snapshot, table, now), AheadIn(st, input.snapshot, table, visited),
                        t != table)
  {
    var args, s, service := input.args, input.snapshot, input.service;
    var batch := CandidateRows(RowsOf(s, t), CursorFor(st.cursors, t), args.batchSize);
    IdleBatchWasSettled(st, args, t, batch, service);
    SettledBatchPasses(st, args, t, batch, service);
    TableLosesNothing(st, args, t, s, service);
    now := visited;
    if t == table {
      var rows, cursor := s[table], CursorFor(st.cursors, table);
      assert TableCovered(rows, cursor, table, st.settled);
      UnsettledIsBehind(rows, args.batchSize, cursor, u);
      now := WalkStep(rows, args.batchSize, cursor, visited, u, Remaining(rows, cursor)[args.batchSize - 1]);
    }
  }

  lemma {:induction false} IdleTables(st: RunState, input: RunInput, tables: seq<string>, table: string, u: Row,
                                      visited: set<Row>)
    returns (now: set<Row>)
    requires Proper(input) && Walking(st, input.args, input.snapshot, table, u, visited)
    requires PromoteTables(st, input.args, tables, input.snapshot, input.service).settled == st.settled
    ensures var end := PromoteTables(st, input.args, tables, input.snapshot, input.service);
            && Walking(end, input.args, input.snapshot, table, u, now)
            && NearerOr(AheadIn(end, input.snapshot, table, now), AheadIn(st, input.snapshot, table, visited),
                        table !in tables)
    decreases |tables|
  {
    now := visited;
    if tables != [] {
      var args, s, service := input.args, input.snapshot, input.service;
      var (next, outcome) := PromoteTable(st, args, tables[0], s, service);
      TableLosesNothing(st, args, tables[0], s, service);
      if outcome.Continue? { TablesLoseNothing(next, args, tables[1..], s, service); }
      now := IdleTable(st, input, tables[0], table, u, visited);
      var mid := now;
      now := IdleTables(next, input, tables[1..], table, u, mid);
      var end := PromoteTables(next, args, tables[1..], s, service);
    }
  }

  // --- How many runs are enough ---

  function RowCount(s: Snapshot, tables: seq<string>): nat {
    if tables == [] then 0 else |RowsOf(s, tables[0])| + RowCount(s, tables[1..])
  }

  lemma {:induction false} RowCountCovers(s: Snapshot, tables: seq<string>, table: string)
    requires table in tables
    ensures |RowsOf(s, table)| <= RowCount(s, tables)
  {
    if table != tables[0] { RowCountCovers(s, tables[1..], table); }
  }

  /** Runs a walk may still take over `n` rows. */
  function Steps(n: nat, a: Ahead): nat {
    Times(Times(a.later, n + 1) + |a.unvisited|, n + 1) + a.start
  }

  /** The longest walk over `n` rows. */
  function Most(n: nat): nat {
    Times(Times(n + 1, n + 1) + n, n + 1) + n + 1
  }

  lemma DigitsOrder(n: nat, a: nat, b: nat, c: nat, d: nat)
    requires b <= n && (a < c || (a == c && b < d))
    ensures Times(a, n + 1) + b < Times(c, n + 1) + d
  {
    if a < c { TimesOrder(a + 1, c, n + 1); }
  }

  lemma StepsDrop(n: nat, a: Ahead, b: Ahead)
    requires Nearer(a, b) && |a.unvisited| <= n && a.start <= n
    ensures Steps(n, a) < Steps(n, b)
  {
    if a.unvisited < b.unvisited { SmallerSet(a.unvisited, b.unvisited); }
    if a.later < b.later || |a.unvisited| < |b.unvisited| {
      DigitsOrder(n, a.later, |a.unvisited|, b.later, |b.unvisited|);
    }
    DigitsOrder(n, Times(a.later, n + 1) + |a.unvisited|, a.start, Times(b.later, n + 1) + |b.unvisited|, b.start);
  }

  lemma SmallerSet<T>(a: set<T>, b: set<T>)
    requires a < b
    ensures |a| < |b|
  {
    var x :| x in b && x !in a;
    assert a <= b - {x};
    SetSize(a, b - {x});
  }

  lemma {:induction false} SetSize<T>(a: set<T>, b: set<T>)
    requires a <= b
    ensures |a| <= |b|
  {
    if a != {} {
      var x :| x in a;
      SetSize(a - {x}, b - {x});
    }
  }

  lemma {:induction false} ElementsFew(rows: seq<Row>)
    ensures |set r | r in rows| <= |rows|
  {
    if rows != [] {
      ElementsFew(rows[1..]);
      assert (set r | r in rows) == {rows[0]} + set r | r in rows[1..];
    }
  }

  lemma AheadIsSmall(rows: seq<Row>, cursor: Option<Cursor>, visited: set<Row>, n: nat)
    requires |rows| <= n
    ensures var a := AheadOf(rows, cursor, visited); a.later <= n + 1 && |a.unvisited| <= n && a.start <= n
  {
    if cursor.Some? {
      var inside := Inside(rows, cursor.value.milliseconds);
      PartsAreSmall(rows, cursor.value);
      ElementsFew(inside);
      SetSize((set r | r in inside) - visited, set r | r in inside);
      LaterShrinks(rows, cursor.value.milliseconds, cursor.value.milliseconds);
    }
  }

  lemma StepsAtMost(n: nat, a: Ahead)
    requires a.later <= n + 1 && |a.unvisited| <= n && a.start <= n
    ensures Steps(n, a) < Most(n)
  {
    TimesOrder(a.later, n + 1, n + 1);
    TimesOrder(Times(a.later, n + 1) + |a.unvisited|, Times(n + 1, n + 1) + n, n + 1);
  }

  // --- Untrapped tables settle ---

  predicate AllSettled(input: RunInput, settled: set<(string, Row)>) {
    Listed(input.snapshot, input.args.tables) <= settled
  }

  ghost predicate Untrapped(input: RunInput)
    requires input.args.batchSize >= 1
  {
    forall t :: t in input.args.tables && t in input.snapshot ==> !Trapped(input.snapshot[t], input.args.batchSize)
  }

  /** Cursors and settled rows after the same run has been made `n` times. */
  function After(cursors: map<string, Cursor>, settled: set<(string, Row)>, input: RunInput, n: nat)
    : (map<string, Cursor>, set<(string, Row)>)
    decreases n
  {
    if n == 0 then (cursors, settled)
    else
      var end := RunPromoter(cursors, settled, input.args, input.snapshot, input.service);
      After(end.cursors, end.settled, input, n - 1)
  }

  /** It is a series of runs like any other. */
  lemma {:induction false} AfterIsRuns(cursors: map<string, Cursor>, settled: set<(string, Row)>, input: RunInput,
                                       n: nat)
    ensures After(cursors, settled, input, n) == Runs(cursors, settled, Repeat(input, n))
    decreases n
  {
    if n > 0 {
      assert Repeat(input, n)[1..] == Repeat(input, n - 1);
      var end := RunPromoter(cursors, settled, input.args, input.snapshot, input.service);
      AfterIsRuns(end.cursors, end.settled, input, n - 1);
    }
  }

  /** Nothing is lost or forgotten by one more run. */
  lemma OneRunKeeps(cursors: map<string, Cursor>, settled: set<(string, Row)>, input: RunInput)
    requires Proper(input) && NothingLost(input.snapshot, cursors, settled)
    ensures var end := RunPromoter(cursors, settled, input.args, input.snapshot, input.service);
            NothingLost(input.snapshot, end.cursors, end.settled) && settled <= end.settled
  {
    TablesLoseNothing(RunState(cursors, 0, NO_RECEIPT, false, settled), input.args, input.args.tables, input.snapshot,
                      input.service);
  }

  lemma {:induction false} RunsKeep(cursors: map<string, Cursor>, settled: set<(string, Row)>, input: RunInput, n: nat)
    requires Proper(input) && NothingLost(input.snapshot, cursors, settled)
    ensures var (c, done) := After(cursors, settled, input, n); NothingLost(input.snapshot, c, done) && settled <= done
    decreases n
  {
    if n > 0 {
      OneRunKeeps(cursors, settled, input);
      var end := RunPromoter(cursors, settled, input.args, input.snapshot, input.service);
      RunsKeep(end.cursors, end.settled, input, n - 1);
    }
  }

  /** A run settles listed rows only. */
  lemma {:induction false} OnlyListed(st: RunState, args: Args, tables: seq<string>, s: Snapshot, service: Service)
    ensures var end := PromoteTables(st, args, tables, s, service);
            st.settled <= end.settled <= st.settled + Listed(s, tables)
    decreases |tables|
  {
    if tables != [] {
      var rows, cursor := RowsOf(s, tables[0]), CursorFor(st.cursors, tables[0]);
      var batch := CandidateRows(rows, cursor, args.batchSize);
      BatchTouches(st, args, tables[0], batch, service);
      forall r | r in batch
        ensures (tables[0], r) in Listed(s, tables) { BatchRowsAreRows(rows, cursor, args.batchSize, r); }
      var (next, outcome) := PromoteTable(st, args, tables[0], s, service);
      if outcome.Continue? { OnlyListed(next, args, tables[1..], s, service); }
    }
  }

  lemma {:induction false} RemainingAreRows(rows: seq<Row>, cursor: Option<Cursor>)
    ensures forall r :: r in Remaining(rows, cursor) ==> r in rows
  {
    if rows != [] { RemainingAreRows(rows[1..], cursor); }
  }

  lemma BatchRowsAreRows(rows: seq<Row>, cursor: Option<Cursor>, size: nat, r: Row)
    requires r in CandidateRows(rows, cursor, size)
    ensures r in rows
  {
    RemainingAreRows(rows, cursor);
  }

  function Outstanding(input: RunInput, settled: set<(string, Row)>): set<(string, Row)> {
    Listed(input.snapshot, input.args.tables) - settled
  }

  /** A run that settles something new leaves less outstanding. */
  lemma LessOutstanding(cursors: map<string, Cursor>, settled: set<(string, Row)>, input: RunInput)
    ensures var end := RunPromoter(cursors, settled, input.args, input.snapshot, input.service);
            end.settled != settled ==> |Outstanding(input, end.settled)| < |Outstanding(input, settled)|
  {
    var end := RunPromoter(cursors, settled, input.args, input.snapshot, input.service);
    OnlyListed(RunState(cursors, 0, NO_RECEIPT, false, settled), input.args, input.args.tables, input.snapshot,
               input.service);
    if end.settled != settled {
      var p :| p in end.settled && p !in settled;
      assert p in Outstanding(input, settled) && p !in Outstanding(input, end.settled);
      SmallerSet(Outstanding(input, end.settled), Outstanding(input, settled));
    }
  }

  function Longest(input: RunInput): nat { Most(RowCount(input.snapshot, input.args.tables)) }

  /** Runs a walk towards a row of `table` may still take. */
  function WalkLeft(input: RunInput, table: string, cursors: map<string, Cursor>, visited: set<Row>): nat {
    Steps(RowCount(input.snapshot, input.args.tables),
          AheadOf(RowsOf(input.snapshot, table), CursorFor(cursors, table), visited))
  }

  function Start(cursors: map<string, Cursor>, settled: set<(string, Row)>): RunState {
    RunState(cursors, 0, NO_RECEIPT, false, settled)
  }

  lemma WalkIsShort(input: RunInput, table: string, cursors: map<string, Cursor>, visited: set<Row>)
    requires table in input.args.tables
    ensures WalkLeft(input, table, cursors, visited) < Longest(input)
  {
    RowCountCovers(input.snapshot, input.args.tables, table);
    var rows, n := RowsOf(input.snapshot, table), RowCount(input.snapshot, input.args.tables);
    AheadIsSmall(rows, CursorFor(cursors, table), visited, n);
    StepsAtMost(n, AheadOf(rows, CursorFor(cursors, table), visited));
  }

  /** An idle run shortens the walk to any unsettled row. */
  lemma IdleRun(cursors: map<string, Cursor>, settled: set<(string, Row)>, input: RunInput, table: string, u: Row,
                visited: set<Row>)
    returns (now: set<Row>)
    requires Proper(input) && table in input.args.tables
    requires Walking(Start(cursors, settled), input.args, input.snapshot, table, u, visited)
    requires RunPromoter(cursors, settled, input.args, input.snapshot, input.service).settled == settled
    ensures var end := RunPromoter(cursors, settled, input.args, input.snapshot, input.service);
            && Walking(Start(end.cursors, end.settled), input.args, input.snapshot, table, u, now)
            && WalkLeft(input, table, end.cursors, now) < WalkLeft(input, table, cursors, visited)
  {
    var args, s := input.args, input.snapshot;
    var n, end := RowCount(s, args.tables), RunPromoter(cursors, settled, args, s, input.service);
    now := IdleTables(Start(cursors, settled), input, args.tables, table, u, visited);
    RowCountCovers(s, args.tables, table);
    AheadIsSmall(RowsOf(s, table), CursorFor(end.cursors, table), now, n);
    StepsDrop(n, AheadIn(end, s, table, now), AheadIn(Start(cursors, settled), s, table, visited));
  }

  /** How many listed rows are outstanding after `n` more runs. */
  function Left(cursors: map<string, Cursor>, settled: set<(string, Row)>, input: RunInput, n: nat): nat {
    |Outstanding(input, After(cursors, settled, input, n).1)|
  }

  lemma LeftOneOn(cursors: map<string, Cursor>, settled: set<(string, Row)>, input: RunInput, n: nat)
    ensures var end := RunPromoter(cursors, settled, input.args, input.snapshot, input.service);
            Left(cursors, settled, input, n + 1) == Left(end.cursors, end.settled, input, n)
  {
  }

  /** On the way to an unsettled row, at most `left` runs leave less outstanding. */
  lemma {:induction false} WalkSettles(cursors: map<string, Cursor>, settled: set<(string, Row)>, input: RunInput,
                                      table: string, u: Row, visited: set<Row>, left: nat) returns (k: nat)
    requires Proper(input) && table in input.args.tables
    requires Walking(Start(cursors, settled), input.args, input.snapshot, table, u, visited)
    requires WalkLeft(input, table, cursors, visited) < left
    ensures k <= left && Left(cursors, settled, input, k) < |Outstanding(input, settled)|
    decreases left
  {
    var end := RunPromoter(cursors, settled, input.args, input.snapshot, input.service);
    if end.settled == settled {
      var now := IdleRun(cursors, settled, input, table, u, visited);
      k := WalkSettles(end.cursors, end.settled, input, table, u, now, left - 1);
      LeftOneOn(cursors, settled, input, k);
      k := k + 1;
    } else {
      LessOutstanding(cursors, settled, input);
      LeftOneOn(cursors, settled, input, 0);
      k := 1;
    }
  }

  // --- Round after round ---

  /** What one run leaves for the next. */
  type Saved = (map<string, Cursor>, set<(string, Row)>)

  function Once(input: RunInput): Saved -> Saved {
    (x: Saved) =>
      var end := RunPromoter(x.0, x.1, input.args, input.snapshot, input.service);
      (end.cursors, end.settled)
  }

  ghost function Kept(input: RunInput): Saved -> bool {
    (x: Saved) => NothingLost(input.snapshot, x.0, x.1)
  }

  function Open(input: RunInput): Saved -> nat {
    (x: Saved) => |Outstanding(input, x.1)|
  }

  lemma {:induction false} AfterIterates(x: Saved, input: RunInput, n: nat)
    ensures After(x.0, x.1, input, n) == Iterate(Once(input), x, n)
    decreases n
  {
    if n > 0 { AfterIterates(Once(input)(x), input, n - 1); }
  }

  /** No run loses a row or opens one again. */
  lemma RunsOnlyClose(input: RunInput, x: Saved)
    requires Proper(input) && Kept(input)(x)
    ensures Kept(input)(Once(input)(x)) && Open(input)(Once(input)(x)) <= Open(input)(x)
  {
    OneRunKeeps(x.0, x.1, input);
    SetSize(Outstanding(input, Once(input)(x).1), Outstanding(input, x.1));
  }

  /** While rows are open, some runs within the longest walk close one. */
  lemma RunsClose(input: RunInput, x: Saved)
    requires Proper(input) && Untrapped(input) && Kept(input)(x) && Open(input)(x) > 0
    ensures ClosesWithin(Once(input), Open(input), Longest(input), x)
  {
    var p :| p in Outstanding(input, x.1);
    WalkIsShort(input, p.0, x.0, {});
    var k := WalkSettles(x.0, x.1, input, p.0, p.1, {}, Longest(input));
    AfterIterates(x, input, k);
    assert Open(input)(Iterate(Once(input), x, k)) < Open(input)(x);
  }

  /** From any saved state, as many runs as rows outstanding times the longest walk settle every listed row. */
  lemma EnoughRunsFinish(cursors: map<string, Cursor>, settled: set<(string, Row)>, input: RunInput, n: nat)
    requires Proper(input) && Untrapped(input) && NothingLost(input.snapshot, cursors, settled)
    requires n >= Times(|Outstanding(input, settled)|, Longest(input))
    ensures AllSettled(input, After(cursors, settled, input, n).1)
  {
    var x: Saved := (cursors, settled);
    forall y | Kept(input)(y) ensures Kept(input)(Once(input)(y)) && Open(input)(Once(input)(y)) <= Open(input)(y) {
      RunsOnlyClose(input, y);
    }
    forall y | Kept(input)(y) && Open(input)(y) > 0 ensures ClosesWithin(Once(input), Open(input), Longest(input), y) {
      RunsClose(input, y);
    }
    RoundsClose(Once(input), Kept(input), Open(input), Longest(input), x, n);
    AfterIterates(x, input, n);
    NothingOpen(input, Iterate(Once(input), x, n));
  }

  lemma NothingOpen(input: RunInput, x: Saved)
    requires Open(input)(x) == 0
    ensures AllSettled(input, x.1)
  {
    forall p | p in Listed(input.snapshot, input.args.tables) ensures p in x.1 {
      assert p !in Outstanding(input, x.1);
    }
  }
}
