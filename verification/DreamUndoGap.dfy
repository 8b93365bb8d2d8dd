/**
 * The two ways an undo can leave its graduation standing, each as a reachable
 * history, next to the exact condition in `DreamHistory.UndoRetiresExactly`: a
 * relegate written before the graduation blocks the undo, and a graduation whose
 * transaction began after the undo's, but committed before it, outdates it.
 */
module DreamUndoGap {
  import opened Wrappers
  import opened Sorting
  import opened ScopeKeys
  import opened DreamDatabase
  import opened DreamTables
  import opened DreamSteps
  import opened DreamHistory

  const KEY := GraduateScopeKey("h")

  const ROW := CohortRow("c", "ns", "h", "x", ["turn"])

  /** One decided fact, seen in one session, whose signal reverses the key it will graduate under. */
  const DB := Database([ROW], map[], map[("r", "c") := Decision(Some("fact"), DECIDED)],
                       [RouteSignal("r", "c", ReversesRule, Some(KEY))], map["turn" := Some("session")])

  const SIGNAL := SignalRow("c", ReversesRule, Some(KEY), Some(DECIDED))

  lemma Reads()
    ensures ReadSignals(DB, "r") == [SIGNAL]
    ensures Pending(DB, "r") == []
    ensures Targets(DB, "r", 1) == [ROW]
  {
    assert RunSignals(DB, DB.signals[1..], "r") == [];
    assert RunSignals(DB, DB.signals, "r") == [SIGNAL];
    assert Sort([SIGNAL][1..], BySignalKey) == [];
    assert PendingFrom(DB, DB.cohort[1..], "r") == [];
    assert DecidedFrom(DB, DB.cohort[1..], "r") == [];
    assert DecidedRows(DB, "r") == [ROW];
    assert ROW in DecidedRows(DB, "r") && "turn" in ROW.sourceTurnIds;
    assert Repeats(DB, "r", ROW, ROW) && "turn" in DB.turns && DB.turns["turn"] == Some("session");
    assert DB.turns["turn"].value in Sessions(DB, "r", ROW);
    assert "session" in Sessions(DB, "r", ROW);
    assert |Sessions(DB, "r", ROW)| >= |{"session"}| by { SubsetIsSmaller({"session"}, Sessions(DB, "r", ROW)); }
    assert QualifiedFrom(DB, [ROW][1..], "r", 1) == [];
    assert QualifiedFrom(DB, [ROW], "r", 1) == [ROW];
    assert Sort([ROW][1..], ByContentHash) == [];
  }

  lemma Relegates(t: Tables)
    requires t == Next(DB, EmptyMirrors, Apply("r", 1))
    ensures |t.events| == 1 && t.events[0].scoped == ScopedLifecycleEvent(Some(RELEGATE), Some(KEY), 1)
  {
    Reads();
    assert SignalFold(EmptyMirrors, "r", [SIGNAL][..0], 1) == Ok(SignalState(EmptyMirrors, {}, 0, 0, 0));
    assert SignalFold(EmptyMirrors, "r", [SIGNAL], 1)
        == SignalStep(SignalState(EmptyMirrors, {}, 0, 0, 0), "r", SIGNAL, 1);
  }

  lemma Graduates(t: Tables, t': Tables)
    requires |t.events| == 1 && t.events[0].scoped == ScopedLifecycleEvent(Some(RELEGATE), Some(KEY), 1)
    requires t' == Next(DB, t, Graduate("r", 1, 2))
    ensures |t'.events| == 2 && t'.events[0] == t.events[0]
    ensures t'.events[1].scoped == ScopedLifecycleEvent(Some(PROMOTE), Some(KEY), 2)
  {
    Reads();
    assert GraduateFold(t, "r", [ROW][..0], 2) == GraduateState(t, [], 0);
    assert GraduateFold(t, "r", [ROW], 2) == GraduateStep(GraduateState(t, [], 0), "r", ROW, 2);
    assert !EventExists(t, PROMOTE, KEY);
  }

  lemma RunThree(db: Database, t: Tables, a: Step, b: Step, c: Step)
    ensures Run(db, t, [a, b, c]) == Next(db, Next(db, Next(db, t, a), b), c)
  {
    var t1 := Next(db, t, a);
    var t2 := Next(db, t1, b);
    assert [c][1..] == [] && Run(db, t2, [c]) == Next(db, t2, c);
    assert [b, c][1..] == [c] && Run(db, t1, [b, c]) == Run(db, t2, [c]);
    assert [a, b, c][1..] == [b, c];
  }

  /** Apply, graduate, undo, in clock order from empty mirrors: the undone graduation still stands. */
  lemma UndoneYetStanding()
    ensures Standing(Scoped(Run(DB, EmptyMirrors, [Apply("r", 1), Graduate("r", 1, 2), Undo("r", KEY, 3)]).events), KEY)
  {
    RunThree(DB, EmptyMirrors, Apply("r", 1), Graduate("r", 1, 2), Undo("r", KEY, 3));
    var t1 := Next(DB, EmptyMirrors, Apply("r", 1));
    var t2 := Next(DB, t1, Graduate("r", 1, 2));
    Relegates(t1);
    Graduates(t1, t2);
    StandsAfterBoth(t2);
    UndoRetiresExactly(t2, "r", KEY, 3);
  }

  lemma StandsAfterBoth(t: Tables)
    requires |t.events| == 2
    requires t.events[0].scoped == ScopedLifecycleEvent(Some(RELEGATE), Some(KEY), 1)
    requires t.events[1].scoped == ScopedLifecycleEvent(Some(PROMOTE), Some(KEY), 2)
    ensures EventExists(t, RELEGATE, KEY) && Standing(Scoped(t.events), KEY)
  {
    assert t.events[0] in t.events;
    assert NewestAt(Scoped(t.events), KEY, 1);
  }

  lemma GraduatesFirst(t: Tables)
    requires t == Next(DB, EmptyMirrors, Graduate("r", 1, 5))
    ensures |t.events| == 1 && t.events[0].scoped == ScopedLifecycleEvent(Some(PROMOTE), Some(KEY), 5)
  {
    Reads();
    assert GraduateFold(EmptyMirrors, "r", [ROW][..0], 5) == GraduateState(EmptyMirrors, [], 0);
    assert GraduateFold(EmptyMirrors, "r", [ROW], 5) == GraduateStep(GraduateState(EmptyMirrors, [], 0), "r", ROW, 5);
    assert !EventExists(EmptyMirrors, PROMOTE, KEY);
  }

  /** A graduation at time 5 commits, then an undo that began at time 3: one relegate is written, and the key stands. */
  lemma OutdatedUndoStands()
    ensures var t := Next(DB, EmptyMirrors, Graduate("r", 1, 5));
            && UndoGraduate(t, "r", KEY, 3).1 == 1
            && Standing(Scoped(Run(DB, EmptyMirrors, [Graduate("r", 1, 5), Undo("r", KEY, 3)]).events), KEY)
  {
    var t := Next(DB, EmptyMirrors, Graduate("r", 1, 5));
    var steps := [Graduate("r", 1, 5), Undo("r", KEY, 3)];
    assert steps[1..] == [Undo("r", KEY, 3)] && steps[1..][1..] == [];
    assert Run(DB, EmptyMirrors, steps) == Run(DB, t, steps[1..]) == UndoGraduate(t, "r", KEY, 3).0;
    GraduatesFirst(t);
    assert t.events[0] in t.events && PromoteKey(t.events[0]) == Some(KEY);
    assert NewestAt(Scoped(t.events), KEY, 0);
    UndoRetiresExactly(t, "r", KEY, 3);
    NewestPromoteFound(t.events, KEY);
  }
}
