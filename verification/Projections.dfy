/** Partial projections of a sequence: the keys that existence checks and primary keys look at. */
module Projections {
  import opened Wrappers
  import opened Sorting

  function KeysOf<T, K>(s: seq<T>, key: T -> Option<K>): seq<K> {
    if s == [] then []
    else
      var init := KeysOf(s[..|s| - 1], key);
      match key(s[|s| - 1])
      case None => init
      case Some(k) => init + [k]
  }

  lemma KeysOfAppend<T, K>(s: seq<T>, x: T, key: T -> Option<K>)
    ensures KeysOf(s + [x], key) == match key(x) case None => KeysOf(s, key) case Some(k) => KeysOf(s, key) + [k]
  {
    assert (s + [x])[..|s|] == s;
  }

  lemma {:induction false} KeysOfMember<T, K>(s: seq<T>, key: T -> Option<K>, k: K)
    ensures k in KeysOf(s, key) <==> exists x :: x in s && key(x) == Some(k)
  {
    if s != [] {
      KeysOfMember(s[..|s| - 1], key, k);
      assert s == s[..|s| - 1] + [s[|s| - 1]];
    }
  }

  lemma {:induction false} NoDuplicatesAppend<K>(s: seq<K>, k: K)
    ensures NoDuplicates(s + [k]) <==> NoDuplicates(s) && k !in s
  {
    if NoDuplicates(s + [k]) {
      forall i, j | 0 <= i < j < |s| ensures s[i] != s[j] {
        assert (s + [k])[i] == s[i] && (s + [k])[j] == s[j];
      }
      forall i | 0 <= i < |s| ensures s[i] != k {
        assert (s + [k])[i] == s[i] && (s + [k])[|s|] == k;
      }
    }
  }
}
