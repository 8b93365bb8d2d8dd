/** Repeating a step until a count is used up. */
module Rounds {

  /** The product `a * b`, by repeated addition. */
  function Times(a: nat, b: nat): (r: nat)
    ensures a >= 1 ==> r >= b
  {
    if a == 0 then 0 else b + Times(a - 1, b)
  }

  lemma {:induction false} TimesOrder(a: nat, b: nat, c: nat)
    requires a <= b
    ensures Times(a, c) <= Times(b, c)
  {
    if a < b { TimesOrder(a, b - 1, c); }
  }

  function Iterate<S>(step: S -> S, x: S, n: nat): S
    decreases n
  {
    if n == 0 then x else Iterate(step, step(x), n - 1)
  }

  lemma {:induction false} IterateSplits<S>(step: S -> S, x: S, k: nat, n: nat)
    requires k <= n
    ensures Iterate(step, x, n) == Iterate(step, Iterate(step, x, k), n - k)
    decreases k
  {
    if k > 0 { IterateSplits(step, step(x), k - 1, n - 1); }
  }

  ghost predicate ClosesWithin<S>(step: S -> S, open: S -> nat, most: nat, x: S) {
    exists k: nat :: k <= most && open(Iterate(step, x, k)) < open(x)
  }

  ghost predicate OnlyCloses<S(!new)>(step: S -> S, kept: S -> bool, open: S -> nat) {
    forall y {:trigger step(y)} :: kept(y) ==> kept(step(y)) && open(step(y)) <= open(y)
  }

  lemma {:induction false} IterateKeeps<S(!new)>(step: S -> S, kept: S -> bool, open: S -> nat, x: S, n: nat)
    requires OnlyCloses(step, kept, open) && kept(x)
    ensures kept(Iterate(step, x, n)) && open(Iterate(step, x, n)) <= open(x)
    decreases n
  {
    if n > 0 { IterateKeeps(step, kept, open, step(x), n - 1); }
  }

  /** If every open state closes something within `most` steps, then as many rounds as are open close all. */
  lemma {:induction false} RoundsClose<S(!new)>(step: S -> S, kept: S -> bool, open: S -> nat, most: nat, x: S, n: nat)
    requires OnlyCloses(step, kept, open)
    requires forall y {:trigger ClosesWithin(step, open, most, y)} ::
               kept(y) && open(y) > 0 ==> ClosesWithin(step, open, most, y)
    requires kept(x) && n >= Times(open(x), most)
    ensures open(Iterate(step, x, n)) == 0
    decreases open(x)
  {
    if open(x) == 0 {
      IterateKeeps(step, kept, open, x, n);
    } else {
      assert ClosesWithin(step, open, most, x);
      var k: nat :| k <= most && open(Iterate(step, x, k)) < open(x);
      var y := Iterate(step, x, k);
      IterateKeeps(step, kept, open, x, k);
      TimesOrder(open(y), open(x) - 1, most);
      IterateSplits(step, x, k, n);
      RoundsClose(step, kept, open, most, y, n - k);
    }
  }
}
