/**
 * The latest-wins reader over lifecycle events (scripts/dream-route-graduate.ts).
 *
 * The stream is append-only, so a key is standing when the newest promote or
 * relegate filed under it is a promote. "Newest" is by time, and by position in
 * the stream between events of one time, because the sort is stable.
 */
module ScopeKeys {
  import opened Wrappers
  import opened Sorting

  const PROMOTE := "promote"
  const RELEGATE := "relegate"

  /** `action` and `scopeKey` are nullable columns; times are whole milliseconds. */
  datatype ScopedLifecycleEvent = ScopedLifecycleEvent(action: Option<string>, scopeKey: Option<string>, createdAt: int)

  predicate Decisive(e: ScopedLifecycleEvent, key: string) {
    key != "" && e.scopeKey == Some(key) && (e.action == Some(PROMOTE) || e.action == Some(RELEGATE))
  }

  /** The plain definition: position `i` holds the newest decisive event for `key`. */
  ghost predicate NewestAt(events: seq<ScopedLifecycleEvent>, key: string, i: int) {
    && 0 <= i < |events|
    && Decisive(events[i], key)
    && forall j :: 0 <= j < |events| && j != i && Decisive(events[j], key) ==>
         events[j].createdAt < events[i].createdAt || (events[j].createdAt == events[i].createdAt && j < i)
  }

  ghost predicate Standing(events: seq<ScopedLifecycleEvent>, key: string) {
    exists i :: NewestAt(events, key, i) && events[i].action == Some(PROMOTE)
  }

  predicate ByTime(a: ScopedLifecycleEvent, b: ScopedLifecycleEvent) {
    a.createdAt <= b.createdAt
  }

  /** The last decisive event for `key` in list order: what a last-write map holds. */
  function LastDecisive(s: seq<ScopedLifecycleEvent>, key: string): Option<ScopedLifecycleEvent> {
    if s == [] then None
    else
      var later := LastDecisive(s[1..], key);
      if later.Some? then later else if Decisive(s[0], key) then Some(s[0]) else None
  }

  lemma {:induction false} LastDecisiveAppend(s: seq<ScopedLifecycleEvent>, e: ScopedLifecycleEvent, key: string)
    ensures LastDecisive(s + [e], key) == if Decisive(e, key) then Some(e) else LastDecisive(s, key)
  {
    if s == [] {
      assert s + [e] == [e];
    } else {
      LastDecisiveAppend(s[1..], e, key);
      assert (s + [e])[1..] == s[1..] + [e];
    }
  }

  lemma {:induction false} LastDecisiveIn(s: seq<ScopedLifecycleEvent>, key: string)
    ensures LastDecisive(s, key).Some? ==> LastDecisive(s, key).value in s && Decisive(LastDecisive(s, key).value, key)
  {
    if s != [] { LastDecisiveIn(s[1..], key); }
  }

  lemma {:induction false} InsertLastDecisive(e: ScopedLifecycleEvent, s: seq<ScopedLifecycleEvent>, key: string)
    requires Sorted(s, ByTime)
    ensures LastDecisive(Insert(e, s, ByTime), key) ==
            var last := LastDecisive(s, key);
            if last.Some? && e.createdAt <= last.value.createdAt then last
            else if Decisive(e, key) then Some(e) else last
  {
    LastDecisiveIn(s, key);
    if s == [] || ByTime(e, s[0]) {
      assert ([e] + s)[1..] == s;
    } else {
      InsertLastDecisive(e, s[1..], key);
      var r := Insert(e, s[1..], ByTime);
      assert ([s[0]] + r)[1..] == r;
    }
  }

  /** A new first event is the newest exactly when it beats the newest of the rest. */
  lemma NewestStep(events: seq<ScopedLifecycleEvent>, key: string, i: nat)
    requires events != [] && NewestAt(events[1..], key, i)
    ensures if Decisive(events[0], key) && events[0].createdAt > events[1..][i].createdAt then NewestAt(events, key, 0)
            else NewestAt(events, key, i + 1)
  {
    var rest := events[1..];
    forall j | 0 < j < |events| ensures events[j] == rest[j - 1] {}
    if Decisive(events[0], key) && events[0].createdAt > rest[i].createdAt {
      forall j | 0 < j < |events| && Decisive(events[j], key) ensures events[j].createdAt < events[0].createdAt {
        assert Decisive(rest[j - 1], key);
      }
    } else {
      forall j | 0 < j < |events| && j != i + 1 && Decisive(events[j], key)
        ensures events[j].createdAt < events[i + 1].createdAt
                || (events[j].createdAt == events[i + 1].createdAt && j < i + 1)
      {
        assert Decisive(rest[j - 1], key);
      }
    }
  }

  lemma {:induction false} SortedLastIsNewest(events: seq<ScopedLifecycleEvent>, key: string)
    ensures var last := LastDecisive(Sort(events, ByTime), key);
            if last.None? then forall i :: 0 <= i < |events| ==> !Decisive(events[i], key)
            else exists i :: NewestAt(events, key, i) && events[i] == last.value
  {
    if events != [] {
      var rest := events[1..];
      SortSorts(rest, ByTime);
      SortedLastIsNewest(rest, key);
      InsertLastDecisive(events[0], Sort(rest, ByTime), key);
      var older := LastDecisive(Sort(rest, ByTime), key);
      if older.Some? {
        var i :| NewestAt(rest, key, i) && rest[i] == older.value;
        NewestStep(events, key, i);
        assert events[i + 1] == rest[i];
      } else {
        assert forall j :: 0 < j < |events| ==> events[j] == rest[j - 1] && !Decisive(rest[j - 1], key);
        if Decisive(events[0], key) { assert NewestAt(events, key, 0); }
      }
    }
  }

  /** The entries of the map whose last action is a promote. */
  method PromotedEntries(entries: seq<string>, latest: map<string, string>) returns (promoted: seq<string>)
    requires NoDuplicates(entries) && forall key :: key in entries <==> key in latest
    ensures NoDuplicates(promoted) && forall key :: key in promoted <==> key in latest && latest[key] == PROMOTE
  {
    promoted := [];
    for i := 0 to |entries|
      invariant NoDuplicates(promoted)
      invariant forall key :: key in promoted <==> key in entries[..i] && latest[key] == PROMOTE
    {
      if latest[entries[i]] == PROMOTE { promoted := promoted + [entries[i]]; }
    }
  }

  /** What the reader may return: sorted, duplicate-free, the standing keys. */
  ghost predicate ListsStanding(keys: seq<string>, events: seq<ScopedLifecycleEvent>) {
    Sorted(keys, StrLeq) && NoDuplicates(keys) && forall key :: key in keys <==> Standing(events, key)
  }

  /** The reader: sort a copy by time, keep the last action per key, list the promoted keys sorted. */
  method ActiveScopeKeys(events: seq<ScopedLifecycleEvent>) returns (keys: seq<string>)
    ensures ListsStanding(keys, events)
  {
    var ordered := Sort(events, ByTime);
    var latest: map<string, string> := map[];
    var entries: seq<string> := [];
    for i := 0 to |ordered|
      invariant NoDuplicates(entries) && forall key :: key in entries <==> key in latest
      invariant forall key :: key in latest <==> LastDecisive(ordered[..i], key).Some?
      invariant forall key :: key in latest ==> Some(latest[key]) == LastDecisive(ordered[..i], key).value.action
    {
      var event := ordered[i];
      assert ordered[..i + 1] == ordered[..i] + [event];
      forall key {
        LastDecisiveAppend(ordered[..i], event, key);
      }
      if event.scopeKey == None || event.scopeKey.value == "" { continue; }
      if event.action != Some(PROMOTE) && event.action != Some(RELEGATE) { continue; }
      if event.scopeKey.value !in latest { entries := entries + [event.scopeKey.value]; }
      latest := latest[event.scopeKey.value := event.action.value];
    }
    assert ordered[..|ordered|] == ordered;
    var promoted := PromotedEntries(entries, latest);
    StrLeqOrder();
    SortKeepsDistinct(promoted, StrLeq);
    keys := Sort(promoted, StrLeq);
    forall key ensures key in keys <==> Standing(events, key) {
      SortedLastIsNewest(events, key);
      LastDecisiveIn(ordered, key);
    }
  }

  lemma NewestSurvivesRemoval(before: seq<ScopedLifecycleEvent>, e: ScopedLifecycleEvent,
                              after: seq<ScopedLifecycleEvent>, key: string, i: nat)
    requires i != |before| && NewestAt(before + [e] + after, key, i)
    ensures NewestAt(before + after, key, if i < |before| then i else i - 1)
  {
    var with, without := before + [e] + after, before + after;
    forall j | 0 <= j < |without| ensures without[j] == with[if j < |before| then j else j + 1] {}
  }

  lemma NewestSurvivesInsertion(before: seq<ScopedLifecycleEvent>, e: ScopedLifecycleEvent,
                                after: seq<ScopedLifecycleEvent>, key: string, i: nat)
    requires !Decisive(e, key) && NewestAt(before + after, key, i)
    ensures NewestAt(before + [e] + after, key, if i < |before| then i else i + 1)
  {
    var with, without := before + [e] + after, before + after;
    assert with[|before|] == e;
    forall j | 0 <= j < |with| && j != |before| ensures with[j] == without[if j < |before| then j else j - 1] {}
  }

  /** Other actions and keyless events, wherever they fall, never change whether `key` stands. */
  lemma IndecisiveIgnored(before: seq<ScopedLifecycleEvent>, e: ScopedLifecycleEvent, after: seq<ScopedLifecycleEvent>,
                          key: string)
    requires !Decisive(e, key)
    ensures Standing(before + [e] + after, key) <==> Standing(before + after, key)
  {
    var with, without := before + [e] + after, before + after;
    if Standing(with, key) {
      var i :| NewestAt(with, key, i) && with[i].action == Some(PROMOTE);
      NewestSurvivesRemoval(before, e, after, key, i);
    }
    if Standing(without, key) {
      var i :| NewestAt(without, key, i) && without[i].action == Some(PROMOTE);
      NewestSurvivesInsertion(before, e, after, key, i);
    }
  }

  // --- Independence of input order, exactly ---

  /** `e` carries the greatest time of any decisive event for `key`. */
  ghost predicate Latest(events: seq<ScopedLifecycleEvent>, e: ScopedLifecycleEvent, key: string) {
    e in events && Decisive(e, key) && forall f :: f in events && Decisive(f, key) ==> f.createdAt <= e.createdAt
  }

  /** No key has a promote and a relegate sharing its newest time. */
  ghost predicate NoTieConflict(events: seq<ScopedLifecycleEvent>) {
    forall key, e, f :: Latest(events, e, key) && Latest(events, f, key) ==> e.action == f.action
  }

  ghost predicate Rearranges(a: seq<ScopedLifecycleEvent>, b: seq<ScopedLifecycleEvent>) {
    multiset(a) == multiset(b)
  }

  lemma RearrangedMembers(a: seq<ScopedLifecycleEvent>, b: seq<ScopedLifecycleEvent>)
    requires Rearranges(a, b)
    ensures forall e :: e in a <==> e in b
  {
    forall e ensures e in a <==> e in b {
      assert e in a <==> e in multiset(a);
      assert e in b <==> e in multiset(b);
    }
  }

  lemma StandingByBag(events: seq<ScopedLifecycleEvent>, key: string)
    requires NoTieConflict(events)
    ensures Standing(events, key) <==> exists e :: Latest(events, e, key) && e.action == Some(PROMOTE)
  {
    SortedLastIsNewest(events, key);
    if Standing(events, key) {
      var i :| NewestAt(events, key, i) && events[i].action == Some(PROMOTE);
      assert Latest(events, events[i], key);
    }
    if e :| Latest(events, e, key) && e.action == Some(PROMOTE) {
      var i :| NewestAt(events, key, i);
      assert Latest(events, events[i], key);
    }
  }

  function MoveLast(events: seq<ScopedLifecycleEvent>, i: nat): seq<ScopedLifecycleEvent>
    requires i < |events|
  {
    events[..i] + events[i + 1..] + [events[i]]
  }

  lemma MoveLastIsNewest(events: seq<ScopedLifecycleEvent>, i: nat, key: string)
    requires i < |events| && Latest(events, events[i], key)
    ensures Rearranges(MoveLast(events, i), events)
    ensures NewestAt(MoveLast(events, i), key, |events| - 1)
  {
    assert events == events[..i] + [events[i]] + events[i + 1..];
    RearrangedMembers(MoveLast(events, i), events);
  }

  /** The answer survives every rearrangement of the input exactly when no newest time is contested. */
  lemma OrderFreeExactly(events: seq<ScopedLifecycleEvent>)
    ensures NoTieConflict(events) <==>
            forall other, key :: Rearranges(other, events) ==> (Standing(other, key) <==> Standing(events, key))
  {
    if NoTieConflict(events) {
      forall other, key | Rearranges(other, events) ensures Standing(other, key) <==> Standing(events, key) {
        RearrangedMembers(other, events);
        StandingByBag(events, key);
        forall k, e ensures Latest(other, e, k) <==> Latest(events, e, k) {}
        assert NoTieConflict(other);
        StandingByBag(other, key);
        if e :| Latest(other, e, key) && e.action == Some(PROMOTE) { assert Latest(events, e, key); }
        if e :| Latest(events, e, key) && e.action == Some(PROMOTE) { assert Latest(other, e, key); }
      }
    } else {
      var key, e, f :| Latest(events, e, key) && Latest(events, f, key) && e.action != f.action;
      var i :| 0 <= i < |events| && events[i] == e;
      var j :| 0 <= j < |events| && events[j] == f;
      MoveLastIsNewest(events, i, key);
      MoveLastIsNewest(events, j, key);
      assert Standing(MoveLast(events, i), key) <==> e.action == Some(PROMOTE);
      assert Standing(MoveLast(events, j), key) <==> f.action == Some(PROMOTE);
      assert Rearranges(MoveLast(events, i), events) && Rearranges(MoveLast(events, j), events);
    }
  }

  /** Uncontested events give one and the same list, whatever order their rows are read in. */
  lemma OneListForAllOrders(events: seq<ScopedLifecycleEvent>, other: seq<ScopedLifecycleEvent>, a: seq<string>,
                            b: seq<string>)
    requires NoTieConflict(events) && Rearranges(other, events)
    requires ListsStanding(a, events) && ListsStanding(b, other)
    ensures a == b
  {
    OrderFreeExactly(events);
    SortedStringsUnique(a, b);
  }

  // --- Appending to the stream ---

  /** Appending anything but a promote of `key` cannot make `key` stand. */
  lemma AppendNeverRevives(events: seq<ScopedLifecycleEvent>, e: ScopedLifecycleEvent, key: string)
    requires !Standing(events, key)
    requires !(e.scopeKey == Some(key) && e.action == Some(PROMOTE))
    ensures !Standing(events + [e], key)
  {
    if Standing(events + [e], key) {
      var i :| NewestAt(events + [e], key, i) && (events + [e])[i].action == Some(PROMOTE);
      assert i < |events| && (events + [e])[i] == events[i];
      forall j | 0 <= j < |events| && j != i && Decisive(events[j], key)
        ensures events[j].createdAt < events[i].createdAt || (events[j].createdAt == events[i].createdAt && j < i)
      {
        assert (events + [e])[j] == events[j];
      }
      assert NewestAt(events, key, i);
    }
  }

  /** A relegate retires its key unless the newest decisive event is a promote still newer than it. */
  lemma AppendRelegateExactly(events: seq<ScopedLifecycleEvent>, e: ScopedLifecycleEvent, key: string)
    requires key != "" && e.scopeKey == Some(key) && e.action == Some(RELEGATE)
    ensures Standing(events + [e], key) <==>
              exists i :: NewestAt(events, key, i) && events[i].action == Some(PROMOTE)
                          && events[i].createdAt > e.createdAt
  {
    var more := events + [e];
    assert forall j :: 0 <= j < |events| ==> more[j] == events[j];
    assert more[|events|] == e && Decisive(e, key);
    if i :| NewestAt(events, key, i) && events[i].action == Some(PROMOTE) && events[i].createdAt > e.createdAt {
      assert NewestAt(more, key, i);
    }
    if i :| NewestAt(more, key, i) && more[i].action == Some(PROMOTE) {
      forall j | 0 <= j < |events| && j != i && Decisive(events[j], key)
        ensures events[j].createdAt < events[i].createdAt || (events[j].createdAt == events[i].createdAt && j < i)
      {
        assert Decisive(more[j], key);
      }
      assert NewestAt(events, key, i);
    }
  }

  /** A relegate no older than the stream retires its key. */
  lemma AppendRelegateRetires(events: seq<ScopedLifecycleEvent>, e: ScopedLifecycleEvent, key: string)
    requires key != "" && e.scopeKey == Some(key) && e.action == Some(RELEGATE)
    requires forall f :: f in events ==> f.createdAt <= e.createdAt
    ensures !Standing(events + [e], key)
  {
    AppendRelegateExactly(events, e, key);
  }
}
