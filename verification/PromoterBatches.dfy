/**
 * Where full batches of the legacy promoter end. Seen from a cursor in some
 * millisecond, the rows still to come are those at its start under a greater id,
 * those strictly inside it, and the later ones. Rows inside are always read
 * again, so a batch that ends among them can lead back to where it came from.
 */
module PromoterBatches {
  import opened Wrappers
  import opened Sorting
  import opened LegacyPromoter

  function Above(rows: seq<Row>, c: Cursor): seq<Row> {
    if rows == [] then []
    else
      (if rows[0].createdAt == c.milliseconds * 1000 && StrLess(c.id, rows[0].id) then [rows[0]] else [])
      + Above(rows[1..], c)
  }

  predicate IsInside(row: Row, m: int) { m * 1000 < row.createdAt < (m + 1) * 1000 }

  function Inside(rows: seq<Row>, m: int): seq<Row> {
    if rows == [] then [] else (if IsInside(rows[0], m) then [rows[0]] else []) + Inside(rows[1..], m)
  }

  function Later(rows: seq<Row>, m: int): seq<Row> {
    if rows == [] then [] else (if rows[0].createdAt >= (m + 1) * 1000 then [rows[0]] else []) + Later(rows[1..], m)
  }

  lemma {:induction false} AboveMembers(rows: seq<Row>, c: Cursor)
    ensures forall r :: r in Above(rows, c) <==>
              r in rows && r.createdAt == c.milliseconds * 1000 && StrLess(c.id, r.id)
  {
    if rows != [] {
      AboveMembers(rows[1..], c);
      assert rows == [rows[0]] + rows[1..];
    }
  }

  lemma {:induction false} InsideMembers(rows: seq<Row>, m: int)
    ensures forall r :: r in Inside(rows, m) <==> r in rows && IsInside(r, m)
    ensures Ordered(rows) ==> Ordered(Inside(rows, m))
  {
    if rows != [] {
      InsideMembers(rows[1..], m);
      assert rows == [rows[0]] + rows[1..];
      var rest := Inside(rows[1..], m);
      if Ordered(rows) {
        forall j | 0 <= j < |rest| ensures Before(rows[0], rest[j]) { assert rest[j] in rows[1..]; }
      }
    }
  }

  lemma {:induction false} LaterMembers(rows: seq<Row>, m: int)
    ensures forall r :: r in Later(rows, m) <==> r in rows && r.createdAt >= (m + 1) * 1000
  {
    if rows != [] {
      LaterMembers(rows[1..], m);
      assert rows == [rows[0]] + rows[1..];
    }
  }

  lemma {:induction false} LaterShrinks(rows: seq<Row>, m: int, further: int)
    requires m <= further
    ensures |Later(rows, further)| <= |Later(rows, m)| <= |rows|
    ensures (exists r :: r in rows && (m + 1) * 1000 <= r.createdAt < (further + 1) * 1000) ==>
              |Later(rows, further)| < |Later(rows, m)|
  {
    if rows != [] {
      LaterShrinks(rows[1..], m, further);
      assert rows == [rows[0]] + rows[1..];
    }
  }

  lemma {:induction false} PartsAreSmall(rows: seq<Row>, c: Cursor)
    ensures |Above(rows, c)| + |Inside(rows, c.milliseconds)| <= |rows|
  {
    if rows != [] { PartsAreSmall(rows[1..], c); }
  }

  /** Behind a row strictly inside a millisecond none stands at its start, and behind a later row none is inside. */
  lemma {:induction false} NoneBehind(rows: seq<Row>, c: Cursor, first: Row)
    requires forall r :: r in rows ==> Before(first, r)
    ensures first.createdAt > c.milliseconds * 1000 ==> Above(rows, c) == []
    ensures first.createdAt >= (c.milliseconds + 1) * 1000 ==> Inside(rows, c.milliseconds) == []
  {
    if rows != [] {
      assert rows[0] in rows;
      NoneBehind(rows[1..], c, first);
    }
  }

  lemma {:induction false} RemainingParts(rows: seq<Row>, c: Cursor)
    requires Ordered(rows)
    ensures Remaining(rows, Some(c)) == Above(rows, c) + Inside(rows, c.milliseconds) + Later(rows, c.milliseconds)
  {
    if rows != [] {
      var m, rest := c.milliseconds, rows[1..];
      RemainingParts(rest, c);
      NoneBehind(rest, c, rows[0]);
      FirstPart(rows[0], Above(rest, c), Inside(rest, m), Later(rest, m));
      if !Admits(Some(c), rows[0]) {
        assert Above(rows, c) == Above(rest, c);
        assert Inside(rows, m) == Inside(rest, m) && Later(rows, m) == Later(rest, m);
      } else if rows[0].createdAt == m * 1000 {
        assert Inside(rows, m) == Inside(rest, m) && Later(rows, m) == Later(rest, m);
      } else if IsInside(rows[0], m) {
        assert Above(rows, c) == [] && Later(rows, m) == Later(rest, m);
      } else {
        assert Above(rows, c) == [] && Inside(rows, m) == [];
      }
    }
  }

  lemma FirstPart(r: Row, above: seq<Row>, inside: seq<Row>, later: seq<Row>)
    ensures [r] + (above + inside + later) == [r] + above + inside + later
    ensures above == [] ==> [r] + (above + inside + later) == above + ([r] + inside) + later
    ensures above == inside == [] ==> [r] + (above + inside + later) == above + inside + ([r] + later)
    ensures [] + (above + inside + later) == ([] + above) + ([] + inside) + ([] + later)
  {
  }

  /** Behind a row at the start of a millisecond, a cursor admits just the rows after it. */
  lemma {:induction false} RemainingBehind(rows: seq<Row>, cursor: Option<Cursor>, i: nat, y: Row)
    requires Ordered(rows) && i < |Remaining(rows, cursor)|
    requires y == Remaining(rows, cursor)[i] && y.createdAt % 1000 == 0
    ensures Remaining(rows, Some(CursorOf(y))) == Remaining(rows, cursor)[i + 1..]
  {
    var rest := rows[1..];
    if Admits(cursor, rows[0]) {
      var more := Remaining(rest, cursor);
      assert Remaining(rows, cursor) == [rows[0]] + more;
      DropFirst(rows[0], more, i);
      if i == 0 {
        AllBehind(rest, y);
        AdmitsBehind(rest, cursor, y);
        CursorHidesItself(y);
      } else {
        RemainingBehind(rest, cursor, i - 1, y);
        HiddenFirst(rows, cursor, y);
      }
    } else {
      RemainingBehind(rest, cursor, i, y);
      HiddenFirst(rows, cursor, y);
    }
  }

  lemma DropFirst(r: Row, s: seq<Row>, i: nat)
    requires i <= |s|
    ensures ([r] + s)[i + 1..] == s[i..]
    ensures ([r] + s)[0] == r && (i > 0 ==> ([r] + s)[i] == s[i - 1])
    ensures s[0..] == s
  {
  }

  lemma HiddenFirst(rows: seq<Row>, cursor: Option<Cursor>, y: Row)
    requires Ordered(rows) && rows != [] && y in Remaining(rows[1..], cursor) && y.createdAt % 1000 == 0
    ensures Remaining(rows, Some(CursorOf(y))) == Remaining(rows[1..], Some(CursorOf(y)))
  {
    RemainingSplits(rows[1..], cursor);
    assert y in rows[1..] && Before(rows[0], y);
    NotBehind(y, rows[0]);
  }

  lemma CursorHidesItself(y: Row)
    requires y.createdAt % 1000 == 0
    ensures !Admits(Some(CursorOf(y)), y)
  {
  }

  lemma NotBehind(y: Row, r: Row)
    requires y.createdAt % 1000 == 0 && Before(r, y)
    ensures !Admits(Some(CursorOf(y)), r)
  {
    StrLeqTotal(r.id, y.id);
  }

  lemma {:induction false} AllBehind(rows: seq<Row>, y: Row)
    requires forall r :: r in rows ==> Before(y, r)
    ensures Remaining(rows, Some(CursorOf(y))) == rows
  {
    if rows != [] {
      assert rows[0] in rows;
      CursorHidesOnlyEarlier(y, rows[0]);
      AllBehind(rows[1..], y);
    }
  }

  lemma {:induction false} AdmitsBehind(rows: seq<Row>, cursor: Option<Cursor>, y: Row)
    requires Admits(cursor, y) && forall r :: r in rows ==> Before(y, r)
    ensures Remaining(rows, cursor) == rows
  {
    if rows != [] {
      assert rows[0] in rows;
      if cursor.Some? && y.createdAt == rows[0].createdAt == cursor.value.milliseconds * 1000 {
        StrLeqTransitive(cursor.value.id, y.id, rows[0].id);
        StrLeqTotal(cursor.value.id, rows[0].id);
        StrLeqTotal(cursor.value.id, y.id);
      }
      AdmitsBehind(rows[1..], cursor, y);
    }
  }

  // --- Where a full batch ends ---

  /** The remainder of `n` rows taken in full batches. */
  function Leftover(n: nat, size: nat): (r: nat)
    requires size >= 1
    ensures r < size
  {
    if n < size then n else Leftover(n - size, size)
  }

  /** Which row inside the millisecond full batches from `c` end on, once they leave its start. */
  function LandingIndex(rows: seq<Row>, size: nat, c: Cursor): (i: int)
    requires size >= 1
    ensures 0 <= i < size
  {
    size - 1 - Leftover(|Above(rows, c)|, size)
  }

  predicate LandsIn(rows: seq<Row>, size: nat, c: Cursor, held: set<Row>)
    requires size >= 1
  {
    var i, inside := LandingIndex(rows, size, c), Inside(rows, c.milliseconds);
    i < |inside| && inside[i] in held
  }

  lemma Pick(above: seq<Row>, inside: seq<Row>, later: seq<Row>, k: nat)
    requires k < |above + inside + later|
    ensures k < |above| ==> (above + inside + later)[k] == above[k]
    ensures |above| <= k < |above| + |inside| ==> (above + inside + later)[k] == inside[k - |above|]
    ensures |above| + |inside| <= k ==> (above + inside + later)[k] in later
  {
  }

  /** A batch shorter than the start of the millisecond ends there, with the same landing row ahead. */
  lemma BatchEndsAtStart(rows: seq<Row>, size: nat, c: Cursor)
    requires Ordered(rows) && 1 <= size <= |Above(rows, c)|
    ensures size <= |Remaining(rows, Some(c))|
    ensures var y := Remaining(rows, Some(c))[size - 1];
            && y in rows && y.createdAt == c.milliseconds * 1000
            && |Above(rows, CursorOf(y))| == |Above(rows, c)| - size
            && LandingIndex(rows, size, CursorOf(y)) == LandingIndex(rows, size, c)
  {
    RemainingParts(rows, c);
    Pick(Above(rows, c), Inside(rows, c.milliseconds), Later(rows, c.milliseconds), size - 1);
    var y := Remaining(rows, Some(c))[size - 1];
    StartMember(rows, c, size - 1, y);
    RemainingBehind(rows, Some(c), size - 1, y);
    StartShrinks(rows, c, y, size);
  }

  lemma StartMember(rows: seq<Row>, c: Cursor, k: nat, y: Row)
    requires k < |Above(rows, c)| && y == Above(rows, c)[k]
    ensures y in rows && y.createdAt == c.milliseconds * 1000
    ensures y.createdAt % 1000 == 0 && CursorOf(y).milliseconds == c.milliseconds
  {
    assert y in Above(rows, c);
    AboveMembers(rows, c);
  }

  lemma StartShrinks(rows: seq<Row>, c: Cursor, y: Row, size: nat)
    requires Ordered(rows) && size <= |Remaining(rows, Some(c))| && CursorOf(y).milliseconds == c.milliseconds
    requires Remaining(rows, Some(CursorOf(y))) == Remaining(rows, Some(c))[size..]
    ensures |Above(rows, CursorOf(y))| == |Above(rows, c)| - size
  {
    RemainingParts(rows, c);
    RemainingParts(rows, CursorOf(y));
  }

  /** A batch that leaves the start of the millisecond but not the millisecond ends on the landing row. */
  lemma BatchEndsInside(rows: seq<Row>, size: nat, c: Cursor)
    requires Ordered(rows) && |Above(rows, c)| < size
    requires LandingIndex(rows, size, c) < |Inside(rows, c.milliseconds)|
    ensures size <= |Remaining(rows, Some(c))|
    ensures var y := Remaining(rows, Some(c))[size - 1];
            y in rows && IsInside(y, c.milliseconds)
            && y == Inside(rows, c.milliseconds)[LandingIndex(rows, size, c)]
  {
    RemainingParts(rows, c);
    Pick(Above(rows, c), Inside(rows, c.milliseconds), Later(rows, c.milliseconds), size - 1);
    assert Remaining(rows, Some(c))[size - 1] in Inside(rows, c.milliseconds);
    InsideMembers(rows, c.milliseconds);
  }

  /** Any other full batch ends in a later millisecond. */
  lemma BatchEndsLater(rows: seq<Row>, size: nat, c: Cursor)
    requires Ordered(rows) && |Above(rows, c)| < size <= |Remaining(rows, Some(c))|
    requires LandingIndex(rows, size, c) >= |Inside(rows, c.milliseconds)|
    ensures var y := Remaining(rows, Some(c))[size - 1];
            y in rows && y.createdAt >= (c.milliseconds + 1) * 1000
  {
    RemainingParts(rows, c);
    Pick(Above(rows, c), Inside(rows, c.milliseconds), Later(rows, c.milliseconds), size - 1);
    LaterMembers(rows, c.milliseconds);
  }

  // --- Traps ---

  /** `x` lies strictly inside the millisecond, ahead of `later`, and its landing row is held too. */
  ghost predicate Holds(rows: seq<Row>, size: nat, m: int, held: set<Row>, later: Row, x: Row)
    requires size >= 1
  {
    x in Inside(rows, m) && Before(x, later) && LandsIn(rows, size, CursorOf(x), held)
  }

  /** Some rows inside one millisecond that hold each other back from `later`. */
  ghost predicate Trap(rows: seq<Row>, size: nat, m: int, held: set<Row>, later: Row)
    requires size >= 1
  {
    && held != {} && later in rows
    && forall x {:trigger Holds(rows, size, m, held, later, x)} :: x in held ==> Holds(rows, size, m, held, later, x)
  }

  ghost predicate Trapped(rows: seq<Row>, size: nat)
    requires size >= 1
  {
    exists m, held, later :: Trap(rows, size, m, held, later)
  }

  lemma InsideMillisecond(rows: seq<Row>, m: int, x: Row)
    requires x in Inside(rows, m)
    ensures x in rows && IsInside(x, m) && CursorOf(x).milliseconds == m
  {
    InsideMembers(rows, m);
  }

  /** Fewer rows than a batch in every millisecond: no trap. */
  lemma FewRowsNeverTrap(rows: seq<Row>, size: nat)
    requires size >= 1
    requires forall x :: x in rows ==> |Above(rows, CursorOf(x))| + |Inside(rows, CursorOf(x).milliseconds)| < size
    ensures !Trapped(rows, size)
  {
    forall m, held, later ensures !Trap(rows, size, m, held, later) {
      if x :| x in held {
        if x in Inside(rows, m) { InsideMillisecond(rows, m, x); }
        assert !Holds(rows, size, m, held, later, x);
      }
    }
  }

  /** A batch of rows strictly inside one millisecond with a row behind them: a trap, whatever stands at its start. */
  lemma CrowdTraps(rows: seq<Row>, size: nat, m: int, later: Row)
    requires Ordered(rows) && 1 <= size <= |Inside(rows, m)|
    requires later in rows && Before(Inside(rows, m)[size - 1], later)
    ensures Trapped(rows, size)
  {
    var held := set x | x in Inside(rows, m)[..size];
    assert Inside(rows, m)[0] in held;
    forall x | x in held ensures Holds(rows, size, m, held, later, x) {
      CrowdHolds(rows, size, m, later, x);
    }
    assert Trap(rows, size, m, held, later);
  }

  lemma CrowdHolds(rows: seq<Row>, size: nat, m: int, later: Row, x: Row)
    requires Ordered(rows) && 1 <= size <= |Inside(rows, m)|
    requires Before(Inside(rows, m)[size - 1], later) && x in Inside(rows, m)[..size]
    ensures Holds(rows, size, m, (set r | r in Inside(rows, m)[..size]), later, x)
  {
    var inside := Inside(rows, m);
    InsideMembers(rows, m);
    InsideMillisecond(rows, m, x);
    var k :| 0 <= k < size && inside[k] == x;
    if k < size - 1 { BeforeTransitive(x, inside[size - 1], later); }
    assert inside[LandingIndex(rows, size, CursorOf(x))] in inside[..size];
  }

  lemma BeforeTransitive(a: Row, b: Row, c: Row)
    requires Before(a, b) && Before(b, c)
    ensures Before(a, c)
  {
    if a.createdAt == c.createdAt {
      StrLeqTransitive(a.id, b.id, c.id);
      StrLeqTotal(a.id, b.id);
    }
  }

  /** No millisecond has rows both at its start and strictly inside it. */
  ghost predicate Unmixed(rows: seq<Row>) {
    forall x, r :: x in rows && r in rows && IsInside(x, r.createdAt / 1000) ==> r.createdAt % 1000 != 0
  }

  /** A batch of rows strictly inside one millisecond, and a row behind them. */
  ghost predicate Crowd(rows: seq<Row>, size: nat, m: int, later: Row)
    requires size >= 1
  {
    size <= |Inside(rows, m)| && later in rows && Before(Inside(rows, m)[size - 1], later)
  }

  /** On unmixed rows a crowd is the only kind of trap. */
  lemma UnmixedTrapsExactly(rows: seq<Row>, size: nat)
    requires Ordered(rows) && Unmixed(rows) && size >= 1
    ensures Trapped(rows, size) <==> exists m, later :: Crowd(rows, size, m, later)
  {
    if m, later :| Crowd(rows, size, m, later) { CrowdTraps(rows, size, m, later); }
    if m, held, later :| Trap(rows, size, m, held, later) { UnmixedTrapIsCrowd(rows, size, m, held, later); }
  }

  lemma UnmixedTrapIsCrowd(rows: seq<Row>, size: nat, m: int, held: set<Row>, later: Row)
    requires Unmixed(rows) && size >= 1 && Trap(rows, size, m, held, later)
    ensures Crowd(rows, size, m, later)
  {
    var x :| x in held;
    assert Holds(rows, size, m, held, later, x);
    InsideMillisecond(rows, m, x);
    UnmixedLanding(rows, size, m, x);
    assert Holds(rows, size, m, held, later, Inside(rows, m)[size - 1]);
  }

  lemma UnmixedLanding(rows: seq<Row>, size: nat, m: int, x: Row)
    requires Unmixed(rows) && size >= 1 && x in rows && IsInside(x, m)
    ensures LandingIndex(rows, size, CursorOf(x)) == size - 1
  {
    AboveMembers(rows, CursorOf(x));
    assert forall r: Row :: r.createdAt == m * 1000 ==> r.createdAt / 1000 == m && r.createdAt % 1000 == 0;
    assert forall r :: r in rows ==> r.createdAt != m * 1000;
    EmptyOfMembers(Above(rows, CursorOf(x)));
  }

  lemma EmptyOfMembers(rows: seq<Row>)
    ensures (forall r :: r !in rows) ==> rows == []
  {
    if rows != [] { assert rows[0] in rows; }
  }

  /**
   * Rows at the start count too: a single row inside a millisecond is a trap of its
   * own exactly when those at the start under greater ids are one short of full batches.
   */
  lemma LoneRowTrapsExactly(rows: seq<Row>, size: nat, m: int, x: Row, later: Row)
    requires size >= 1 && Inside(rows, m) == [x] && later in rows && Before(x, later)
    ensures Trap(rows, size, m, {x}, later) <==> Leftover(|Above(rows, CursorOf(x))|, size) == size - 1
  {
    InsideMillisecond(rows, m, x);
    assert Holds(rows, size, m, {x}, later, x) <==> LandsIn(rows, size, CursorOf(x), {x});
  }
}
