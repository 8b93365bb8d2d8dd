/** Stable sorting, the string order, and the facts every sorted reader below relies on. */
module Sorting {

  ghost predicate TotalPreorder<T(!new)>(leq: (T, T) -> bool) {
    && (forall x, y :: leq(x, y) || leq(y, x))
    && (forall x, y, z :: leq(x, y) && leq(y, z) ==> leq(x, z))
  }

  ghost predicate Sorted<T>(s: seq<T>, leq: (T, T) -> bool) {
    forall i, j :: 0 <= i < j < |s| ==> leq(s[i], s[j])
  }

  ghost predicate NoDuplicates<T>(s: seq<T>) {
    forall i, j :: 0 <= i < j < |s| ==> s[i] != s[j]
  }

  /** Puts `x` in front of the first element it does not exceed. */
  function Insert<T>(x: T, s: seq<T>, leq: (T, T) -> bool): seq<T> {
    if s == [] || leq(x, s[0]) then [x] + s else [s[0]] + Insert(x, s[1..], leq)
  }

  /** A stable sort: equal elements keep the order in which they stand in `s`. */
  function Sort<T>(s: seq<T>, leq: (T, T) -> bool): seq<T> {
    if s == [] then [] else Insert(s[0], Sort(s[1..], leq), leq)
  }

  lemma {:induction false} InsertBag<T(!new)>(x: T, s: seq<T>, leq: (T, T) -> bool)
    ensures multiset(Insert(x, s, leq)) == multiset{x} + multiset(s)
    ensures forall y :: y in Insert(x, s, leq) <==> y == x || y in s
    ensures |Insert(x, s, leq)| == |s| + 1
  {
    if s != [] && !leq(x, s[0]) {
      InsertBag(x, s[1..], leq);
      assert s == [s[0]] + s[1..];
    }
  }

  lemma {:induction false} InsertSorts<T(!new)>(x: T, s: seq<T>, leq: (T, T) -> bool)
    requires TotalPreorder(leq) && Sorted(s, leq)
    ensures Sorted(Insert(x, s, leq), leq)
    ensures multiset(Insert(x, s, leq)) == multiset{x} + multiset(s)
  {
    InsertBag(x, s, leq);
    if s != [] && !leq(x, s[0]) {
      InsertSorts(x, s[1..], leq);
      InsertBag(x, s[1..], leq);
      HeadsSorted(s[0], Insert(x, s[1..], leq), leq);
    } else {
      HeadsSorted(x, s, leq);
    }
  }

  lemma HeadsSorted<T(!new)>(h: T, r: seq<T>, leq: (T, T) -> bool)
    requires Sorted(r, leq) && forall y :: y in r ==> leq(h, y)
    ensures Sorted([h] + r, leq)
  {
    forall j | 0 <= j < |r| ensures leq(h, r[j]) { assert r[j] in r; }
  }

  lemma {:induction false} SortSorts<T(!new)>(s: seq<T>, leq: (T, T) -> bool)
    requires TotalPreorder(leq)
    ensures Sorted(Sort(s, leq), leq)
    ensures multiset(Sort(s, leq)) == multiset(s)
    ensures |Sort(s, leq)| == |s|
    ensures forall x :: x in Sort(s, leq) <==> x in s
  {
    if s != [] {
      SortSorts(s[1..], leq);
      InsertSorts(s[0], Sort(s[1..], leq), leq);
      InsertBag(s[0], Sort(s[1..], leq), leq);
      assert s == [s[0]] + s[1..];
    }
  }

  lemma TailBag<T>(s: seq<T>)
    requires s != []
    ensures multiset(s[1..]) == multiset(s) - multiset{s[0]}
    ensures forall x :: x in s[1..] ==> x in s
  {
    assert s == [s[0]] + s[1..];
  }

  /** No two distinct members tie. */
  ghost predicate NoTies<T(!new)>(s: seq<T>, leq: (T, T) -> bool) {
    forall x, y :: x in s && y in s && leq(x, y) && leq(y, x) ==> x == y
  }

  lemma LeastHeads<T(!new)>(a: seq<T>, b: seq<T>, leq: (T, T) -> bool)
    requires TotalPreorder(leq) && Sorted(a, leq) && Sorted(b, leq) && NoTies(a, leq)
    requires a != [] && b != [] && multiset(a) == multiset(b)
    ensures a[0] == b[0]
  {
    assert a[0] in multiset(b) && b[0] in multiset(a);
    var i :| 0 <= i < |b| && b[i] == a[0];
    var j :| 0 <= j < |a| && a[j] == b[0];
    assert leq(b[0], b[i]) && leq(a[0], a[j]);
  }

  lemma SameBagSameLength<T>(a: seq<T>, b: seq<T>)
    requires multiset(a) == multiset(b)
    ensures |a| == |b|
  {
    assert |multiset(a)| == |a| && |multiset(b)| == |b|;
  }

  /** Two sorted arrangements of one bag coincide when no two distinct members tie. */
  lemma {:induction false} SortedIsUnique<T(!new)>(a: seq<T>, b: seq<T>, leq: (T, T) -> bool)
    requires TotalPreorder(leq) && Sorted(a, leq) && Sorted(b, leq) && NoTies(a, leq)
    requires multiset(a) == multiset(b)
    ensures a == b
  {
    SameBagSameLength(a, b);
    if a != [] {
      LeastHeads(a, b, leq);
      TailBag(a);
      TailBag(b);
      SortedIsUnique(a[1..], b[1..], leq);
      assert a == [a[0]] + a[1..] && b == [b[0]] + b[1..];
    }
  }

  /** Sorting forgets the input order when no two distinct members tie. */
  lemma {:induction false} SortIgnoresOrder<T(!new)>(a: seq<T>, b: seq<T>, leq: (T, T) -> bool)
    requires TotalPreorder(leq) && multiset(a) == multiset(b) && NoTies(a, leq)
    ensures Sort(a, leq) == Sort(b, leq)
  {
    SortSorts(a, leq);
    SortSorts(b, leq);
    SortedIsUnique(Sort(a, leq), Sort(b, leq), leq);
  }

  lemma {:induction false} NoDuplicatesIsBag<T>(s: seq<T>)
    ensures NoDuplicates(s) <==> forall x :: multiset(s)[x] <= 1
  {
    if s != [] {
      NoDuplicatesIsBag(s[1..]);
      assert s == [s[0]] + s[1..];
      var t := s[1..];
      if NoDuplicates(t) && s[0] !in t {
        forall i, j | 0 <= i < j < |s| ensures s[i] != s[j] {
          assert s[j] == t[j - 1];
          if i > 0 { assert s[i] == t[i - 1]; }
        }
      }
      if s[0] in t {
        assert s[0] in multiset(t);
        assert multiset(s)[s[0]] >= 2;
      } else if !NoDuplicates(t) {
        var x :| multiset(t)[x] > 1;
        assert multiset(s)[x] > 1;
      }
    }
  }

  lemma SortKeepsDistinct<T(!new)>(s: seq<T>, leq: (T, T) -> bool)
    requires TotalPreorder(leq) && NoDuplicates(s)
    ensures Sorted(Sort(s, leq), leq) && NoDuplicates(Sort(s, leq))
    ensures forall x :: x in Sort(s, leq) <==> x in s
  {
    SortSorts(s, leq);
    NoDuplicatesIsBag(s);
    NoDuplicatesIsBag(Sort(s, leq));
  }

  /** Two duplicate-free sequences with the same members are the same bag. */
  lemma SameMembersSameBag<T>(a: seq<T>, b: seq<T>)
    requires NoDuplicates(a) && NoDuplicates(b)
    requires forall x :: x in a <==> x in b
    ensures multiset(a) == multiset(b)
  {
    NoDuplicatesIsBag(a);
    NoDuplicatesIsBag(b);
    forall x ensures multiset(a)[x] == multiset(b)[x] {
      assert x in a <==> x in multiset(a);
      assert x in b <==> x in multiset(b);
    }
  }

  /** A sequence has as many distinct members as positions exactly when none repeats. */
  lemma {:induction false} DistinctSize<T>(s: seq<T>)
    ensures |set x | x in s| <= |s|
    ensures |set x | x in s| == |s| <==> NoDuplicates(s)
  {
    if s == [] {
      assert (set x | x in s) == {};
    } else {
      var t := s[1..];
      DistinctSize(t);
      assert s == [s[0]] + t;
      assert (set x | x in s) == (set x | x in t) + {s[0]};
      if s[0] in t {
        assert (set x | x in s) == (set x | x in t);
        var k :| 0 <= k < |t| && t[k] == s[0];
        assert s[k + 1] == s[0];
      } else if NoDuplicates(t) {
        forall i, j | 0 <= i < j < |s| ensures s[i] != s[j] {
          assert s[j] == t[j - 1];
          if i > 0 { assert s[i] == t[i - 1]; }
        }
      } else {
        var i, j :| 0 <= i < j < |t| && t[i] == t[j];
        assert s[i + 1] == s[j + 1];
      }
    }
  }

  /** Lexicographic order by character; the scripts' bare sort by UTF-16 unit agrees with it outside surrogates. */
  predicate StrLeq(a: string, b: string) {
    a == [] || (b != [] && (a[0] < b[0] || (a[0] == b[0] && StrLeq(a[1..], b[1..]))))
  }

  predicate StrLess(a: string, b: string) {
    StrLeq(a, b) && a != b
  }

  lemma {:induction false} StrLeqTotal(a: string, b: string)
    ensures StrLeq(a, b) || StrLeq(b, a)
    ensures StrLeq(a, b) && StrLeq(b, a) ==> a == b
  {
    if a != [] && b != [] {
      StrLeqTotal(a[1..], b[1..]);
      assert a == [a[0]] + a[1..] && b == [b[0]] + b[1..];
    }
  }

  lemma {:induction false} StrLeqTransitive(a: string, b: string, c: string)
    requires StrLeq(a, b) && StrLeq(b, c)
    ensures StrLeq(a, c)
  {
    if a != [] && a[0] == b[0] && b[0] == c[0] {
      StrLeqTransitive(a[1..], b[1..], c[1..]);
    }
  }

  /** The texts agree before `k`, where the first ends or has the smaller character. */
  ghost predicate SmallerAt(a: string, b: string, k: int) {
    && 0 <= k <= |a| && k < |b| && (forall j :: 0 <= j < k ==> a[j] == b[j])
    && (k < |a| ==> a[k] < b[k])
  }

  /** What the order means: the first place where the texts differ decides. */
  lemma {:induction false} StrLessExactly(a: string, b: string)
    ensures StrLess(a, b) <==> exists k :: SmallerAt(a, b, k)
  {
    if a == [] {
      assert StrLess(a, b) <==> SmallerAt(a, b, 0);
    } else if b != [] {
      var a', b' := a[1..], b[1..];
      StrLessExactly(a', b');
      assert a == [a[0]] + a' && b == [b[0]] + b';
      if a[0] == b[0] {
        forall k | SmallerAt(a', b', k) ensures SmallerAt(a, b, k + 1) {}
        forall k | SmallerAt(a, b, k) ensures SmallerAt(a', b', k - 1) {
          assert k > 0 && forall j :: 0 <= j < k - 1 ==> a'[j] == a[j + 1] && b'[j] == b[j + 1];
        }
      } else {
        assert SmallerAt(a, b, 0) <==> a[0] < b[0];
      }
    }
  }

  lemma StrLeqOrder()
    ensures TotalPreorder(StrLeq)
    ensures forall a, b :: StrLeq(a, b) && StrLeq(b, a) ==> a == b
  {
    forall a, b ensures (StrLeq(a, b) || StrLeq(b, a)) && (StrLeq(a, b) && StrLeq(b, a) ==> a == b) {
      StrLeqTotal(a, b);
    }
    forall a, b, c | StrLeq(a, b) && StrLeq(b, c) ensures StrLeq(a, c) {
      StrLeqTransitive(a, b, c);
    }
  }

  /** A sorted duplicate-free string list is determined by its set of members. */
  lemma SortedStringsUnique(a: seq<string>, b: seq<string>)
    requires Sorted(a, StrLeq) && Sorted(b, StrLeq) && NoDuplicates(a) && NoDuplicates(b)
    requires forall x :: x in a <==> x in b
    ensures a == b
  {
    StrLeqOrder();
    SameMembersSameBag(a, b);
    SortedIsUnique(a, b, StrLeq);
  }
}
