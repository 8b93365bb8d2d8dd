/**
 * When runs of the legacy promoter stand still for ever, and with that the exact
 * condition under which they finish.
 */
module PromoterJams {
  import opened Wrappers
  import opened Sorting
  import opened LegacyPromoter
  import opened PromoterBatches
  import opened PromoterProgress
  import opened Rounds

  // --- A trap holds ---

  lemma NotInFront(rows: seq<Row>, k: nat, u: Row)
    requires Ordered(rows) && k < |rows| && Before(rows[k], u)
    ensures u !in rows[..k + 1]
  {
    forall i | 0 <= i <= k ensures rows[i] != u {
      if i < k { BeforeTransitive(rows[i], rows[k], u); }
    }
  }

  /** `h` is the last of the held rows. */
  ghost predicate LastHeld(held: set<Row>, h: Row) {
    h in held && forall x :: x in held ==> !Before(h, x)
  }

  /** A batch from a cursor that lands in the trap ends where the next one lands in it too, not behind `h`. */
  lemma HeldEnd(rows: seq<Row>, size: nat, c: Cursor, m: int, held: set<Row>, u: Row, h: Row)
    requires Ordered(rows) && size >= 1 && Trap(rows, size, m, held, u) && LastHeld(held, h)
    requires c.milliseconds == m && LandsIn(rows, size, c, held)
    ensures size <= |Remaining(rows, Some(c))|
    ensures var y := Remaining(rows, Some(c))[size - 1];
            CursorOf(y).milliseconds == m && LandsIn(rows, size, CursorOf(y), held) && !Before(h, y)
  {
    var landing := Inside(rows, m)[LandingIndex(rows, size, c)];
    assert Holds(rows, size, m, held, u, landing) && Holds(rows, size, m, held, u, h);
    InsideMillisecond(rows, m, landing);
    InsideMillisecond(rows, m, h);
    if |Above(rows, c)| >= size { BatchEndsAtStart(rows, size, c); } else { BatchEndsInside(rows, size, c); }
  }

  /** So the batch holds no row behind `h`. */
  lemma HeldBatch(rows: seq<Row>, size: nat, c: Cursor, m: int, held: set<Row>, u: Row, h: Row)
    requires Ordered(rows) && size >= 1 && Trap(rows, size, m, held, u) && LastHeld(held, h)
    requires c.milliseconds == m && LandsIn(rows, size, c, held)
    ensures size <= |Remaining(rows, Some(c))|
    ensures forall r :: r in CandidateRows(rows, Some(c), size) ==> !Before(h, r)
    ensures var y := Remaining(rows, Some(c))[size - 1];
            CursorOf(y).milliseconds == m && LandsIn(rows, size, CursorOf(y), held)
  {
    HeldEnd(rows, size, c, m, held, u, h);
    RemainingSplits(rows, Some(c));
    NoneBehindEnd(Remaining(rows, Some(c)), size, h);
  }

  lemma NoneBehindEnd(all: seq<Row>, size: nat, h: Row)
    requires Ordered(all) && 1 <= size <= |all| && !Before(h, all[size - 1])
    ensures forall r :: r in all[..size] ==> !Before(h, r)
  {
    forall i | 0 <= i < size ensures !Before(h, all[i]) {
      if i < size - 1 && Before(h, all[i]) { BeforeTransitive(h, all[i], all[size - 1]); }
    }
  }

  /**
   * The cursor lands in a trap; the rows up to the last held one are settled and so
   * is every other listed table, but not `u`, which stands behind the trap.
   */
  ghost predicate Jammed(st: RunState, input: RunInput, table: string, m: int, held: set<Row>, u: Row, h: Row)
    requires input.args.batchSize >= 1
  {
    var s, cursor := input.snapshot, CursorFor(st.cursors, table);
    && st.applied == 0 && table in s && Trap(s[table], input.args.batchSize, m, held, u) && LastHeld(held, h)
    && cursor.Some? && cursor.value.milliseconds == m && LandsIn(s[table], input.args.batchSize, cursor.value, held)
    && (table, u) !in st.settled
    && (forall r :: r in s[table] && !Before(h, r) ==> (table, r) in st.settled)
    && OthersSettled(s, input.args.tables, table, st.settled)
  }

  /** Every row of the listed tables but `table` is settled. */
  ghost predicate OthersSettled(s: Snapshot, tables: seq<string>, table: string, settled: set<(string, Row)>) {
    forall t, r :: t in tables && t != table && t in s && r in s[t] ==> (t, r) in settled
  }

  lemma JammedTable(st: RunState, input: RunInput, t: string, table: string, m: int, held: set<Row>, u: Row, h: Row)
    requires Proper(input) && t in input.args.tables && Jammed(st, input, table, m, held, u, h)
    ensures var (end, outcome) := PromoteTable(st, input.args, t, input.snapshot, input.service);
            outcome == Continue && Jammed(end, input, table, m, held, u, h)
  {
    JammedBatchIsSettled(st, input, t, table, m, held, u, h);
    var batch := CandidateRows(RowsOf(input.snapshot, t), CursorFor(st.cursors, t), input.args.batchSize);
    SettledBatchPasses(st, input.args, t, batch, input.service);
  }

  lemma JammedBatchIsSettled(st: RunState, input: RunInput, t: string, table: string, m: int, held: set<Row>, u: Row,
                             h: Row)
    requires Proper(input) && t in input.args.tables && Jammed(st, input, table, m, held, u, h)
    ensures var batch := CandidateRows(RowsOf(input.snapshot, t), CursorFor(st.cursors, t), input.args.batchSize);
            && (forall r :: r in batch ==> (t, r) in st.settled)
            && (t == table ==>
                  && |batch| == input.args.batchSize
                  && var next := CursorOf(batch[|batch| - 1]);
                     next.milliseconds == m && LandsIn(input.snapshot[t], input.args.batchSize, next, held))
  {
    var rows, cursor := RowsOf(input.snapshot, t), CursorFor(st.cursors, t);
    if t == table { HeldBatch(rows, input.args.batchSize, cursor.value, m, held, u, h); }
    forall r | r in CandidateRows(rows, cursor, input.args.batchSize) ensures (t, r) in st.settled {
      BatchRowsAreRows(rows, cursor, input.args.batchSize, r);
    }
  }

  lemma {:induction false} JammedTables(st: RunState, input: RunInput, tables: seq<string>, table: string, m: int,
                                        held: set<Row>, u: Row, h: Row)
    requires Proper(input) && Jammed(st, input, table, m, held, u, h)
    requires forall t :: t in tables ==> t in input.args.tables
    ensures Jammed(PromoteTables(st, input.args, tables, input.snapshot, input.service), input, table, m, held, u, h)
    decreases |tables|
  {
    if tables != [] {
      JammedTable(st, input, tables[0], table, m, held, u, h);
      var next := PromoteTable(st, input.args, tables[0], input.snapshot, input.service).0;
      JammedTables(next, input, tables[1..], table, m, held, u, h);
    }
  }

  /** The next run starts from where this one ended. */
  lemma JamCarries(st: RunState, input: RunInput, table: string, m: int, held: set<Row>, u: Row, h: Row)
    requires input.args.batchSize >= 1 && Jammed(st, input, table, m, held, u, h)
    ensures Jammed(Start(st.cursors, st.settled), input, table, m, held, u, h)
  {
  }

  lemma RunStaysJammed(cursors: map<string, Cursor>, settled: set<(string, Row)>, input: RunInput, table: string,
                       m: int, held: set<Row>, u: Row, h: Row)
    requires Proper(input) && Jammed(Start(cursors, settled), input, table, m, held, u, h)
    ensures var end := RunPromoter(cursors, settled, input.args, input.snapshot, input.service);
            Jammed(Start(end.cursors, end.settled), input, table, m, held, u, h)
  {
    JammedTables(Start(cursors, settled), input, input.args.tables, table, m, held, u, h);
    JamCarries(RunPromoter(cursors, settled, input.args, input.snapshot, input.service), input, table, m, held, u, h);
  }

  lemma {:induction false} JammedForEver(cursors: map<string, Cursor>, settled: set<(string, Row)>, input: RunInput,
                                        n: nat, table: string, m: int, held: set<Row>, u: Row, h: Row)
    requires Proper(input) && Jammed(Start(cursors, settled), input, table, m, held, u, h)
    ensures (table, u) !in After(cursors, settled, input, n).1
    decreases n
  {
    if n > 0 {
      RunStaysJammed(cursors, settled, input, table, m, held, u, h);
      var end := RunPromoter(cursors, settled, input.args, input.snapshot, input.service);
      JammedForEver(end.cursors, end.settled, input, n - 1, table, m, held, u, h);
    }
  }

  // --- Saved states ---

  /** Earlier runs over the same rows, with any arguments and any answers, leave this state behind. */
  ghost predicate Reached(cursors: map<string, Cursor>, settled: set<(string, Row)>, s: Snapshot) {
    exists earlier: seq<RunInput> :: AllOver(earlier, s) && Runs(map[], {}, earlier) == (cursors, settled)
  }

  ghost predicate AllOver(runs: seq<RunInput>, s: Snapshot) {
    forall i :: 0 <= i < |runs| ==> runs[i].snapshot == s
  }

  lemma {:induction false} SameRowsFollow(s: Snapshot, cursors: map<string, Cursor>, settled: set<(string, Row)>,
                                         runs: seq<RunInput>)
    requires OrderedSnapshot(s) && AllOver(runs, s)
    ensures Follows(s, cursors, settled, runs)
    decreases |runs|
  {
    if runs != [] {
      var end := RunPromoter(cursors, settled, runs[0].args, runs[0].snapshot, runs[0].service);
      SameRowsFollow(s, end.cursors, end.settled, runs[1..]);
    }
  }

  lemma ReachedLosesNothing(cursors: map<string, Cursor>, settled: set<(string, Row)>, s: Snapshot)
    requires OrderedSnapshot(s) && Reached(cursors, settled, s)
    ensures NothingLost(s, cursors, settled)
  {
    var earlier: seq<RunInput> :| AllOver(earlier, s) && Runs(map[], {}, earlier) == (cursors, settled);
    if earlier != [] {
      SameRowsFollow(s, map[], {}, earlier);
      NoRunLosesARow(s, map[], {}, earlier);
    }
  }

  lemma {:induction false} RunsAppend(cursors: map<string, Cursor>, settled: set<(string, Row)>, runs: seq<RunInput>,
                                     last: RunInput)
    ensures var (c, done) := Runs(cursors, settled, runs);
            var end := RunPromoter(c, done, last.args, last.snapshot, last.service);
            Runs(cursors, settled, runs + [last]) == (end.cursors, end.settled)
    decreases |runs|
  {
    if runs == [] {
      assert runs + [last] == [last] && [last][1..] == [];
    } else {
      assert (runs + [last])[1..] == runs[1..] + [last];
      var end := RunPromoter(cursors, settled, runs[0].args, runs[0].snapshot, runs[0].service);
      RunsAppend(end.cursors, end.settled, runs[1..], last);
    }
  }

  /** One more run from a reached state reaches its own end. */
  lemma ReachOneMore(cursors: map<string, Cursor>, settled: set<(string, Row)>, last: RunInput)
    requires Reached(cursors, settled, last.snapshot)
    ensures var end := RunPromoter(cursors, settled, last.args, last.snapshot, last.service);
            Reached(end.cursors, end.settled, last.snapshot)
  {
    var s := last.snapshot;
    var earlier: seq<RunInput> :| AllOver(earlier, s) && Runs(map[], {}, earlier) == (cursors, settled);
    RunsAppend(map[], {}, earlier, last);
    var end := RunPromoter(cursors, settled, last.args, s, last.service);
    assert AllOver(earlier + [last], s) && Runs(map[], {}, earlier + [last]) == (end.cursors, end.settled);
  }

  /** An apply run over one table with room for `n` rows. */
  function Roomy(input: RunInput, table: string, n: nat): RunInput {
    input.(args := input.args.(tables := [table], batchSize := n, maxApply := n))
  }

  /** A batch within the cap passes whole. */
  lemma {:induction false} RoomyBatch(st: RunState, args: Args, table: string, batch: seq<Row>, service: Service)
    requires args.apply && NeverFails(service) && st.applied + |batch| <= args.maxApply
    ensures var (end, outcome) := PromoteRows(st, args, table, batch, service);
            && outcome == Continue
            && end.settled == st.settled + (set r | r in batch :: (table, r))
            && CursorFor(end.cursors, table)
               == (if batch == [] then CursorFor(st.cursors, table) else Some(CursorOf(batch[|batch| - 1])))
            && (forall t :: t != table ==> CursorFor(end.cursors, t) == CursorFor(st.cursors, t))
    decreases |batch|
  {
    if batch != [] {
      AppliedRowSettles(st, args, table, batch[0], service);
      var next := PromoteRow(st, args, table, batch[0], service).0;
      RoomyBatch(next, args, table, batch[1..], service);
      assert batch == [batch[0]] + batch[1..];
    }
  }

  lemma RoomyRun(cursors: map<string, Cursor>, settled: set<(string, Row)>, input: RunInput, table: string, n: nat)
    requires Proper(input)
    ensures var batch := CandidateRows(RowsOf(input.snapshot, table), CursorFor(cursors, table), n);
            var last := Roomy(input, table, n);
            var end := RunPromoter(cursors, settled, last.args, last.snapshot, last.service);
            && end.settled == settled + (set r | r in batch :: (table, r))
            && CursorFor(end.cursors, table)
               == (if batch == [] then CursorFor(cursors, table) else Some(CursorOf(batch[|batch| - 1])))
            && (forall t :: t != table ==> CursorFor(end.cursors, t) == CursorFor(cursors, t))
  {
    var last, st := Roomy(input, table, n), Start(cursors, settled);
    var batch := CandidateRows(RowsOf(input.snapshot, table), CursorFor(cursors, table), n);
    RoomyBatch(st, last.args, table, batch, last.service);
    var end := PromoteTable(st, last.args, table, last.snapshot, last.service).0;
    assert [table][1..] == [];
    assert PromoteTables(end, last.args, [], last.snapshot, last.service) == end;
  }

  lemma {:induction false} RemainingFew(rows: seq<Row>, cursor: Option<Cursor>)
    ensures |Remaining(rows, cursor)| <= |rows|
    ensures cursor.None? ==> Remaining(rows, cursor) == rows
  {
    if rows != [] { RemainingFew(rows[1..], cursor); }
  }

  /** Some earlier runs settle all listed tables but one, and leave that one untouched. */
  lemma {:induction false} OthersCanSettle(input: RunInput, tables: seq<string>, table: string)
    returns (cursors: map<string, Cursor>, settled: set<(string, Row)>)
    requires Proper(input)
    ensures Reached(cursors, settled, input.snapshot) && OthersSettled(input.snapshot, tables, table, settled)
    ensures CursorFor(cursors, table) == None && forall r :: (table, r) !in settled
    decreases |tables|
  {
    var s := input.snapshot;
    cursors, settled := map[], {};
    if tables == [] {
      assert AllOver([], s) && Runs(map[], {}, []) == (cursors, settled);
    } else {
      cursors, settled := OthersCanSettle(input, tables[1..], table);
      var t := tables[0];
      if t != table && t in s {
        var last := Roomy(input, t, |s[t]|);
        var end := RunPromoter(cursors, settled, last.args, last.snapshot, last.service);
        RoomyRunSettles(cursors, settled, input, t);
        ReachOneMore(cursors, settled, last);
        RoomyRun(cursors, settled, input, t, |s[t]|);
        cursors, settled := end.cursors, end.settled;
      }
    }
  }

  lemma RoomyRunSettles(cursors: map<string, Cursor>, settled: set<(string, Row)>, input: RunInput, t: string)
    requires Proper(input) && Reached(cursors, settled, input.snapshot) && t in input.snapshot
    ensures var last := Roomy(input, t, |input.snapshot[t]|);
            var end := RunPromoter(cursors, settled, last.args, last.snapshot, last.service);
            settled <= end.settled && forall r :: r in input.snapshot[t] ==> (t, r) in end.settled
  {
    var rows, cursor := input.snapshot[t], CursorFor(cursors, t);
    ReachedLosesNothing(cursors, settled, input.snapshot);
    assert TableCovered(rows, cursor, t, settled);
    RoomyRun(cursors, settled, input, t, |rows|);
    RemainingFew(rows, cursor);
    RemainingSplits(rows, cursor);
  }

  // --- The exact condition ---

  /** From this saved state, all but finitely many numbers of runs leave every listed row settled. */
  ghost predicate Finishes(cursors: map<string, Cursor>, settled: set<(string, Row)>, input: RunInput) {
    exists enough: nat :: SettledFrom(cursors, settled, input, enough)
  }

  ghost predicate SettledFrom(cursors: map<string, Cursor>, settled: set<(string, Row)>, input: RunInput, enough: nat) {
    forall n: nat :: n >= enough ==> AllSettled(input, After(cursors, settled, input, n).1)
  }

  lemma {:induction false} LastHeldAt(rows: seq<Row>, held: set<Row>) returns (k: nat)
    requires Ordered(rows) && held != {} && forall x :: x in held ==> x in rows
    ensures k < |rows| && LastHeld(held, rows[k])
    decreases |rows|
  {
    var x :| x in held;
    k := |rows| - 1;
    if rows[k] !in held {
      forall y | y in held ensures y in rows[..k] {
        var j :| 0 <= j < |rows| && rows[j] == y;
        assert rows[..k][j] == y;
      }
      k := LastHeldAt(rows[..k], held);
    } else {
      forall y | y in held ensures !Before(rows[k], y) {
        var j :| 0 <= j < |rows| && rows[j] == y;
        if j < k { BeforeIsStrict(y, rows[k]); }
      }
    }
  }

  lemma BeforeIsStrict(a: Row, b: Row)
    requires Before(a, b)
    ensures !Before(b, a)
  {
    StrLeqTotal(a.id, b.id);
  }

  /** The first run of a table with room for `k + 1` rows settles just those and stops at the last. */
  lemma FirstRoomyRun(cursors: map<string, Cursor>, settled: set<(string, Row)>, input: RunInput, table: string, k: nat)
    requires Proper(input) && table in input.snapshot && k < |input.snapshot[table]|
    requires CursorFor(cursors, table) == None
    ensures var rows, last := input.snapshot[table], Roomy(input, table, k + 1);
            var end := RunPromoter(cursors, settled, last.args, last.snapshot, last.service);
            && CursorFor(end.cursors, table) == Some(CursorOf(rows[k]))
            && end.settled == settled + (set r | r in rows[..k + 1] :: (table, r))
  {
    RemainingFew(input.snapshot[table], None);
    assert CandidateRows(input.snapshot[table], None, k + 1) == input.snapshot[table][..k + 1];
    RoomyRun(cursors, settled, input, table, k + 1);
  }

  lemma UpToHeld(rows: seq<Row>, k: nat, u: Row)
    requires Ordered(rows) && k < |rows| && Before(rows[k], u)
    ensures u !in rows[..k + 1] && forall r :: r in rows && !Before(rows[k], r) ==> r in rows[..k + 1]
  {
    NotInFront(rows, k, u);
    forall j | 0 <= j < |rows| && !Before(rows[k], rows[j]) ensures rows[j] in rows[..k + 1] {
      assert rows[..k + 1][j] == rows[j];
    }
  }

  /** A single run with room up to the last held row saves a state that is jammed. */
  lemma HeldRowJams(cursors: map<string, Cursor>, settled: set<(string, Row)>, input: RunInput, table: string, m: int,
                    held: set<Row>, u: Row, k: nat)
    requires Proper(input) && table in input.snapshot && k < |input.snapshot[table]|
    requires Trap(input.snapshot[table], input.args.batchSize, m, held, u) && LastHeld(held, input.snapshot[table][k])
    requires CursorFor(cursors, table) == None && (forall r :: (table, r) !in settled)
    requires OthersSettled(input.snapshot, input.args.tables, table, settled)
    ensures var last := Roomy(input, table, k + 1);
            var end := RunPromoter(cursors, settled, last.args, last.snapshot, last.service);
            Jammed(Start(end.cursors, end.settled), input, table, m, held, u, input.snapshot[table][k])
  {
    var rows := input.snapshot[table];
    assert Holds(rows, input.args.batchSize, m, held, u, rows[k]);
    InsideMillisecond(rows, m, rows[k]);
    UpToHeld(rows, k, u);
    FirstRoomyRun(cursors, settled, input, table, k);
  }

  /** A trapped table jams: earlier runs can save a state from which no number of runs settles everything. */
  lemma TrapJams(input: RunInput, table: string)
    requires Proper(input) && table in input.args.tables && table in input.snapshot
    requires Trapped(input.snapshot[table], input.args.batchSize)
    ensures exists cursors, settled :: Reached(cursors, settled, input.snapshot) && !Finishes(cursors, settled, input)
  {
    var rows := input.snapshot[table];
    var m, held, u :| Trap(rows, input.args.batchSize, m, held, u);
    forall x | x in held ensures x in rows {
      assert Holds(rows, input.args.batchSize, m, held, u, x);
      InsideMillisecond(rows, m, x);
    }
    var k := LastHeldAt(rows, held);
    var c, done := OthersCanSettle(input, input.args.tables, table);
    var last := Roomy(input, table, k + 1);
    var end := RunPromoter(c, done, last.args, last.snapshot, last.service);
    ReachOneMore(c, done, last);
    HeldRowJams(c, done, input, table, m, held, u, k);
    JammedNeverFinishes(end.cursors, end.settled, input, table, m, held, u, rows[k]);
  }

  lemma JammedNeverFinishes(cursors: map<string, Cursor>, settled: set<(string, Row)>, input: RunInput, table: string,
                            m: int, held: set<Row>, u: Row, h: Row)
    requires Proper(input) && table in input.args.tables
    requires Jammed(Start(cursors, settled), input, table, m, held, u, h)
    ensures !Finishes(cursors, settled, input)
  {
    forall enough: nat ensures !SettledFrom(cursors, settled, input, enough) {
      JammedForEver(cursors, settled, input, enough, table, m, held, u, h);
      assert (table, u) in Listed(input.snapshot, input.args.tables);
      assert !AllSettled(input, After(cursors, settled, input, enough).1);
    }
  }

  /** Without traps every state that has lost nothing finishes, whatever left it behind. */
  lemma UntrappedFinishes(cursors: map<string, Cursor>, settled: set<(string, Row)>, input: RunInput)
    requires Proper(input) && Untrapped(input) && NothingLost(input.snapshot, cursors, settled)
    ensures Finishes(cursors, settled, input)
  {
    var enough := Times(|Outstanding(input, settled)|, Longest(input));
    forall n: nat | n >= enough ensures AllSettled(input, After(cursors, settled, input, n).1) {
      EnoughRunsFinish(cursors, settled, input, n);
    }
    assert SettledFrom(cursors, settled, input, enough);
  }

  /**
   * Finitely many runs settle every listed row from every state that earlier runs over
   * the same rows can leave behind, if and only if no listed table holds a trap.
   */
  lemma FinitelyManyRunsSettleAll(input: RunInput)
    requires Proper(input)
    ensures Untrapped(input) <==>
              forall cursors, settled :: Reached(cursors, settled, input.snapshot) ==>
                Finishes(cursors, settled, input)
  {
    if Untrapped(input) {
      forall cursors, settled | Reached(cursors, settled, input.snapshot) ensures Finishes(cursors, settled, input) {
        ReachedLosesNothing(cursors, settled, input.snapshot);
        UntrappedFinishes(cursors, settled, input);
      }
    } else {
      var t :| t in input.args.tables && t in input.snapshot && Trapped(input.snapshot[t], input.args.batchSize);
      TrapJams(input, t);
    }
  }

  /** With fewer rows than a batch in every millisecond, microsecond times do no harm. */
  lemma FewRowsPerMillisecondFinish(cursors: map<string, Cursor>, settled: set<(string, Row)>, input: RunInput)
    requires Proper(input) && NothingLost(input.snapshot, cursors, settled)
    requires forall t, x :: t in input.args.tables && t in input.snapshot && x in input.snapshot[t] ==>
               MillisecondRows(input.snapshot[t], CursorOf(x).milliseconds) < input.args.batchSize
    ensures Finishes(cursors, settled, input)
  {
    forall t | t in input.args.tables && t in input.snapshot ensures !Trapped(input.snapshot[t], input.args.batchSize) {
      var rows := input.snapshot[t];
      forall x | x in rows
        ensures |Above(rows, CursorOf(x))| + |Inside(rows, CursorOf(x).milliseconds)| < input.args.batchSize
      {
        PartsOfMillisecond(rows, CursorOf(x));
      }
      FewRowsNeverTrap(rows, input.args.batchSize);
    }
    UntrappedFinishes(cursors, settled, input);
  }

  /** How many rows fall in a millisecond, its start included. */
  function MillisecondRows(rows: seq<Row>, m: int): nat {
    if rows == [] then 0
    else (if m * 1000 <= rows[0].createdAt < (m + 1) * 1000 then 1 else 0) + MillisecondRows(rows[1..], m)
  }

  lemma {:induction false} PartsOfMillisecond(rows: seq<Row>, c: Cursor)
    ensures |Above(rows, c)| + |Inside(rows, c.milliseconds)| <= MillisecondRows(rows, c.milliseconds)
  {
    if rows != [] { PartsOfMillisecond(rows[1..], c); }
  }

  // --- A crowd jams whatever the answers, caps and new rows ---

  /** As many rows as a batch lie strictly inside one millisecond, all ahead of `later`. */
  ghost predicate CrowdAhead(crowd: set<Row>, m: int, later: Row) {
    forall x :: x in crowd ==> IsInside(x, m) && Before(x, later)
  }

  predicate NotPast(cursor: Option<Cursor>, m: int) {
    cursor.Some? ==> cursor.value.milliseconds <= m
  }

  /** Such a crowd fills the batch: nothing behind it is in. */
  lemma CrowdFillsBatch(rows: seq<Row>, cursor: Option<Cursor>, size: nat, crowd: set<Row>, m: int, later: Row, r: Row)
    requires Ordered(rows) && NotPast(cursor, m) && CrowdAhead(crowd, m, later)
    requires (forall x :: x in crowd ==> x in rows) && size <= |crowd| && r in CandidateRows(rows, cursor, size)
    ensures r != later && CursorOf(r).milliseconds <= m
  {
    var all, batch := Remaining(rows, cursor), CandidateRows(rows, cursor, size);
    RemainingSplits(rows, cursor);
    var i :| 0 <= i < |batch| && batch[i] == r;
    var x := OneBehind(all, i, crowd);
    NotAhead(all, i, x);
    if r != x { BeforeTransitive(r, x, later); }
  }

  lemma NotAhead(all: seq<Row>, i: nat, x: Row)
    requires Ordered(all) && i < |all| && x in all && x !in all[..i]
    ensures x == all[i] || Before(all[i], x)
  {
    var j :| 0 <= j < |all| && all[j] == x;
    assert forall k :: 0 <= k < i ==> all[k] in all[..i];
  }

  lemma OneBehind(all: seq<Row>, i: nat, crowd: set<Row>) returns (x: Row)
    requires i <= |all| && i < |crowd|
    ensures x in crowd && x !in all[..i]
  {
    ElementsFew(all[..i]);
    var front := set r | r in all[..i];
    if crowd <= front { SetSize(crowd, front); }
    x :| x in crowd && x !in front;
  }

  ghost predicate Waiting(st: RunState, table: string, m: int, later: Row) {
    NotPast(CursorFor(st.cursors, table), m) && (table, later) !in st.settled
  }

  ghost predicate CrowdIn(s: Snapshot, size: nat, table: string, crowd: set<Row>) {
    OrderedSnapshot(s) && size <= |crowd| && table in s && forall x :: x in crowd ==> x in s[table]
  }

  lemma CrowdJamsTable(st: RunState, args: Args, t: string, s: Snapshot, service: Service,
                       table: string, crowd: set<Row>, m: int, later: Row)
    requires CrowdIn(s, args.batchSize, table, crowd) && CrowdAhead(crowd, m, later) && Waiting(st, table, m, later)
    ensures Waiting(PromoteTable(st, args, t, s, service).0, table, m, later)
  {
    var rows, cursor := RowsOf(s, t), CursorFor(st.cursors, t);
    var batch := CandidateRows(rows, cursor, args.batchSize);
    BatchTouches(st, args, t, batch, service);
    if t == table {
      forall r | r in batch ensures r != later && CursorOf(r).milliseconds <= m {
        CrowdFillsBatch(rows, cursor, args.batchSize, crowd, m, later, r);
      }
    }
  }

  lemma {:induction false} CrowdJamsTables(st: RunState, args: Args, tables: seq<string>, s: Snapshot, service: Service,
                                          table: string, crowd: set<Row>, m: int, later: Row)
    requires CrowdIn(s, args.batchSize, table, crowd) && CrowdAhead(crowd, m, later) && Waiting(st, table, m, later)
    ensures Waiting(PromoteTables(st, args, tables, s, service), table, m, later)
    decreases |tables|
  {
    if tables != [] {
      CrowdJamsTable(st, args, tables[0], s, service, table, crowd, m, later);
      var (next, outcome) := PromoteTable(st, args, tables[0], s, service);
      if outcome.Continue? { CrowdJamsTables(next, args, tables[1..], s, service, table, crowd, m, later); }
    }
  }

  /**
   * While a crowd stays, no run with a batch that small ever settles a row behind it:
   * whatever the answers, failures, caps, dry runs, other tables and new rows.
   */
  lemma {:induction false} CrowdJamsEveryRun(cursors: map<string, Cursor>, settled: set<(string, Row)>,
                                            runs: seq<RunInput>, table: string, crowd: set<Row>, m: int, later: Row)
    requires forall input :: input in runs ==> CrowdIn(input.snapshot, input.args.batchSize, table, crowd)
    requires CrowdAhead(crowd, m, later) && NotPast(CursorFor(cursors, table), m) && (table, later) !in settled
    ensures (table, later) !in Runs(cursors, settled, runs).1
    decreases |runs|
  {
    if runs != [] {
      var input := runs[0];
      CrowdJamsTables(Start(cursors, settled), input.args, input.args.tables, input.snapshot, input.service,
                      table, crowd, m, later);
      var end := RunPromoter(cursors, settled, input.args, input.snapshot, input.service);
      CrowdJamsEveryRun(end.cursors, end.settled, runs[1..], table, crowd, m, later);
    }
  }

  /** With a batch of one, a single row inside a millisecond keeps every later row waiting from the first run on. */
  lemma LivelockBelowTheMillisecond(input: RunInput, table: string, first: Row, later: Row, n: nat)
    requires OrderedSnapshot(input.snapshot) && input.args.batchSize == 1
    requires table in input.snapshot && first in input.snapshot[table]
    requires first.createdAt % 1000 != 0 && Before(first, later)
    ensures (table, later) !in After(map[], {}, input, n).1
  {
    AfterIsRuns(map[], {}, input, n);
    CrowdJamsEveryRun(map[], {}, Repeat(input, n), table, {first}, first.createdAt / 1000, later);
  }
}
