/**
 * The mirror tables of one run schema, the inserts that grow them, and the
 * bookkeeping every insert keeps.
 */
module DreamTables {
  import opened Wrappers
  import opened Sorting
  import opened Projections
  import opened ScopeKeys
  import opened DreamDatabase

  const ROUTE_TIER := "warm"
  const RELEGATED_TIER := "cold"
  const GRADUATED_TIER := "hot"
  const ROUTE_CAUSE := "dream-route"
  const REVERSAL_CAUSE := "dream-route-reversal"
  const GRADUATE_CAUSE := "dream-route-graduation"
  const UNDO_CAUSE := "dream-route-undo"

  function RuleScopeKey(contentHash: string): string { "dream-route:rule:" + contentHash }

  function GraduateScopeKey(contentHash: string): string { "dream-route:graduate:" + contentHash }

  datatype Entry = ThoughtEntry(id: nat) | EventEntry(id: nat)

  datatype Thought = Thought(
    id: nat, contentHash: string, namespace: string, content: string, candidateId: string, runId: string)

  /** `candidateId` is absent from an undo, which retires a key on nobody's behalf. */
  datatype LifecycleEvent = LifecycleEvent(
    id: nat, scoped: ScopedLifecycleEvent, content: string, contentHash: Option<string>,
    candidateId: Option<string>, runId: string)

  datatype TierMove = TierMove(entry: Entry, fromTier: Option<string>, toTier: string, cause: string, runId: string)

  datatype FlagKind = CanonContradiction | RuleReversal

  datatype ApplyFlag = ApplyFlag(
    runId: string, candidateId: string, kind: FlagKind, targetScopeKey: Option<string>,
    needsOperatorApproval: bool, applied: bool)

  datatype Tables = Tables(
    thoughts: seq<Thought>, events: seq<LifecycleEvent>, tierMoves: seq<TierMove>, flags: seq<ApplyFlag>)

  const EmptyMirrors := Tables([], [], [], [])

  /** Generated ids are unused ones; rows are never deleted, so the row count is unused. */
  function FreshId(t: Tables): nat { |t.thoughts| + |t.events| }

  // --- Keys: the projections the existence checks and primary keys look at ---

  function ThoughtKey(th: Thought): Option<(string, string)> { Some((th.contentHash, th.namespace)) }

  function PromoteKey(e: LifecycleEvent): Option<string> {
    if e.scoped.action == Some(PROMOTE) then e.scoped.scopeKey else None
  }

  /** A relegate written by the apply step names the candidate that reversed the rule. */
  function RelegationKey(e: LifecycleEvent): Option<(string, string)> {
    if e.scoped.action == Some(RELEGATE) && e.candidateId.Some? then Some((e.runId, e.candidateId.value)) else None
  }

  function UndoKey(e: LifecycleEvent): Option<string> {
    if e.scoped.action == Some(RELEGATE) && e.candidateId.None? then e.scoped.scopeKey else None
  }

  function FlagKey(f: ApplyFlag): Option<(string, string, FlagKind)> { Some((f.runId, f.candidateId, f.kind)) }

  function AppliedReversalKey(f: ApplyFlag): Option<(string, string)> {
    if f.kind.RuleReversal? && f.applied then Some((f.runId, f.candidateId)) else None
  }

  /** The same two keys, with what was relegated and what the flag says to relegate. */
  function RelegationScope(e: LifecycleEvent): Option<(string, string, Option<string>)> {
    match RelegationKey(e)
    case None => None
    case Some((runId, candidateId)) => Some((runId, candidateId, e.scoped.scopeKey))
  }

  function AppliedReversalScope(f: ApplyFlag): Option<(string, string, Option<string>)> {
    match AppliedReversalKey(f)
    case None => None
    case Some((runId, candidateId)) => Some((runId, candidateId, f.targetScopeKey))
  }

  function ThoughtRef(th: Thought): Option<Entry> { Some(ThoughtEntry(th.id)) }

  function EventRef(e: LifecycleEvent): Option<Entry> { Some(EventEntry(e.id)) }

  function MoveRef(m: TierMove): Option<Entry> { Some(m.entry) }

  // --- Existence checks ---

  predicate ThoughtExists(t: Tables, contentHash: string, namespace: string) {
    exists th :: th in t.thoughts && th.contentHash == contentHash && th.namespace == namespace
  }

  predicate EventExists(t: Tables, action: string, scopeKey: string) {
    exists e :: e in t.events && e.scoped.action == Some(action) && e.scoped.scopeKey == Some(scopeKey)
  }

  predicate FlagExists(t: Tables, runId: string, candidateId: string, kind: FlagKind) {
    exists f :: f in t.flags && f.runId == runId && f.candidateId == candidateId && f.kind == kind
  }

  lemma ThoughtExistsByKey(t: Tables, contentHash: string, namespace: string)
    ensures ThoughtExists(t, contentHash, namespace) <==> (contentHash, namespace) in KeysOf(t.thoughts, ThoughtKey)
  {
    KeysOfMember(t.thoughts, ThoughtKey, (contentHash, namespace));
  }

  lemma PromoteExistsByKey(t: Tables, scopeKey: string)
    ensures EventExists(t, PROMOTE, scopeKey) <==> scopeKey in KeysOf(t.events, PromoteKey)
  {
    KeysOfMember(t.events, PromoteKey, scopeKey);
  }

  lemma FlagExistsByKey(t: Tables, runId: string, candidateId: string, kind: FlagKind)
    ensures FlagExists(t, runId, candidateId, kind) <==> (runId, candidateId, kind) in KeysOf(t.flags, FlagKey)
  {
    KeysOfMember(t.flags, FlagKey, (runId, candidateId, kind));
  }

  // --- Inserts ---

  function AddThought(t: Tables, runId: string, item: PendingItem): Tables {
    var th := Thought(FreshId(t), item.contentHash, item.namespace, item.content, item.candidateId, runId);
    t.(thoughts := t.thoughts + [th],
       tierMoves := t.tierMoves + [TierMove(ThoughtEntry(th.id), None, ROUTE_TIER, ROUTE_CAUSE, runId)])
  }

  /** One lifecycle event and its tier move. */
  function AddEvent(t: Tables, runId: string, scoped: ScopedLifecycleEvent, content: string,
                    contentHash: Option<string>, candidateId: Option<string>,
                    fromTier: Option<string>, toTier: string, cause: string): Tables
  {
    var e := LifecycleEvent(FreshId(t), scoped, content, contentHash, candidateId, runId);
    t.(events := t.events + [e],
       tierMoves := t.tierMoves + [TierMove(EventEntry(e.id), fromTier, toTier, cause, runId)])
  }

  function AddFlag(t: Tables, f: ApplyFlag): Tables {
    t.(flags := t.flags + [f])
  }

  // --- The invariant of every reachable run schema ---

  ghost predicate BooksBalance(t: Tables) {
    && NoDuplicates(KeysOf(t.tierMoves, MoveRef))
    && multiset(KeysOf(t.tierMoves, MoveRef))
       == multiset(KeysOf(t.thoughts, ThoughtRef)) + multiset(KeysOf(t.events, EventRef))
    && (forall m :: m in t.tierMoves ==> m.entry.id < FreshId(t))
  }

  ghost predicate KeysUnique(t: Tables) {
    && NoDuplicates(KeysOf(t.thoughts, ThoughtKey))
    && NoDuplicates(KeysOf(t.events, PromoteKey))
    && NoDuplicates(KeysOf(t.flags, FlagKey))
  }

  /** Relegates written by apply are the applied reversal flags, one for one and in order, each of the flag's target. */
  ghost predicate ReversalsMatch(t: Tables) {
    && KeysOf(t.events, RelegationKey) == KeysOf(t.flags, AppliedReversalKey)
    && KeysOf(t.events, RelegationScope) == KeysOf(t.flags, AppliedReversalScope)
  }

  /** Every event is a keyed promote or relegate. */
  ghost predicate EventsKeyed(t: Tables) {
    forall e :: e in t.events ==>
      e.scoped.scopeKey.Some? && (e.scoped.action == Some(PROMOTE) || e.scoped.action == Some(RELEGATE))
  }

  ghost predicate Inv(t: Tables) {
    BooksBalance(t) && KeysUnique(t) && ReversalsMatch(t) && EventsKeyed(t)
  }

  /** Each table is only ever extended. */
  ghost predicate Extends(a: Tables, b: Tables) {
    a.thoughts <= b.thoughts && a.events <= b.events && a.tierMoves <= b.tierMoves && a.flags <= b.flags
  }

  lemma AddMoveIsFresh(t: Tables, m: TierMove)
    requires BooksBalance(t) && m.entry.id == FreshId(t)
    ensures KeysOf(t.tierMoves + [m], MoveRef) == KeysOf(t.tierMoves, MoveRef) + [m.entry]
    ensures NoDuplicates(KeysOf(t.tierMoves + [m], MoveRef))
  {
    KeysOfAppend(t.tierMoves, m, MoveRef);
    KeysOfMember(t.tierMoves, MoveRef, m.entry);
    NoDuplicatesAppend(KeysOf(t.tierMoves, MoveRef), m.entry);
  }

  lemma AddThoughtKeepsBalance(t: Tables, runId: string, item: PendingItem)
    requires BooksBalance(t)
    ensures BooksBalance(AddThought(t, runId, item))
  {
    var t' := AddThought(t, runId, item);
    ThoughtAndMoveBalance(t, t'.thoughts[|t.thoughts|], t'.tierMoves[|t.tierMoves|]);
  }

  lemma ThoughtAndMoveBalance(t: Tables, th: Thought, m: TierMove)
    requires BooksBalance(t) && th.id == FreshId(t) && m.entry == ThoughtEntry(th.id)
    ensures BooksBalance(t.(thoughts := t.thoughts + [th], tierMoves := t.tierMoves + [m]))
  {
    AddMoveIsFresh(t, m);
    KeysOfAppend(t.thoughts, th, ThoughtRef);
  }

  lemma EventAndMoveBalance(t: Tables, e: LifecycleEvent, m: TierMove)
    requires BooksBalance(t) && e.id == FreshId(t) && m.entry == EventEntry(e.id)
    ensures BooksBalance(t.(events := t.events + [e], tierMoves := t.tierMoves + [m]))
  {
    AddMoveIsFresh(t, m);
    KeysOfAppend(t.events, e, EventRef);
  }

  lemma AddEventKeepsBalance(t: Tables, runId: string, scoped: ScopedLifecycleEvent, content: string,
                             contentHash: Option<string>, candidateId: Option<string>,
                             fromTier: Option<string>, toTier: string, cause: string)
    requires BooksBalance(t)
    ensures BooksBalance(AddEvent(t, runId, scoped, content, contentHash, candidateId, fromTier, toTier, cause))
  {
    EventAndMoveBalance(t, LifecycleEvent(FreshId(t), scoped, content, contentHash, candidateId, runId),
                        TierMove(EventEntry(FreshId(t)), fromTier, toTier, cause, runId));
  }

  lemma AddThoughtKeepsInv(t: Tables, runId: string, item: PendingItem)
    requires Inv(t) && !ThoughtExists(t, item.contentHash, item.namespace)
    ensures Inv(AddThought(t, runId, item))
  {
    var t' := AddThought(t, runId, item);
    var th := t'.thoughts[|t.thoughts|];
    AddThoughtKeepsBalance(t, runId, item);
    ThoughtExistsByKey(t, item.contentHash, item.namespace);
    KeysOfAppend(t.thoughts, th, ThoughtKey);
    NoDuplicatesAppend(KeysOf(t.thoughts, ThoughtKey), (item.contentHash, item.namespace));
  }

  /** Holds of a promote of an unpromoted key and of an undo, but not of a rule reversal. */
  lemma AddEventKeepsInv(t: Tables, runId: string, scoped: ScopedLifecycleEvent, content: string,
                         contentHash: Option<string>, candidateId: Option<string>,
                         fromTier: Option<string>, toTier: string, cause: string)
    requires Inv(t) && scoped.scopeKey.Some?
    requires (scoped.action == Some(PROMOTE) && !EventExists(t, PROMOTE, scoped.scopeKey.value))
             || (scoped.action == Some(RELEGATE) && candidateId == None)
    ensures Inv(AddEvent(t, runId, scoped, content, contentHash, candidateId, fromTier, toTier, cause))
  {
    AddEventKeepsBalance(t, runId, scoped, content, contentHash, candidateId, fromTier, toTier, cause);
    EventKeepsKeys(t, LifecycleEvent(FreshId(t), scoped, content, contentHash, candidateId, runId));
  }

  lemma EventKeepsKeys(t: Tables, e: LifecycleEvent)
    requires KeysUnique(t) && ReversalsMatch(t) && EventsKeyed(t) && e.scoped.scopeKey.Some?
    requires (e.scoped.action == Some(PROMOTE) && !EventExists(t, PROMOTE, e.scoped.scopeKey.value))
             || (e.scoped.action == Some(RELEGATE) && e.candidateId == None)
    ensures var t' := t.(events := t.events + [e]); KeysUnique(t') && ReversalsMatch(t') && EventsKeyed(t')
  {
    PromoteExistsByKey(t, e.scoped.scopeKey.value);
    KeysOfAppend(t.events, e, PromoteKey);
    KeysOfAppend(t.events, e, RelegationKey);
    KeysOfAppend(t.events, e, RelegationScope);
    NoDuplicatesAppend(KeysOf(t.events, PromoteKey), e.scoped.scopeKey.value);
  }

  lemma AddPlainFlagKeepsInv(t: Tables, f: ApplyFlag)
    requires Inv(t) && !FlagExists(t, f.runId, f.candidateId, f.kind)
    requires AppliedReversalKey(f) == None
    ensures Inv(AddFlag(t, f))
  {
    AddFlagKeys(t, f);
  }

  lemma AddFlagKeys(t: Tables, f: ApplyFlag)
    requires !FlagExists(t, f.runId, f.candidateId, f.kind) && NoDuplicates(KeysOf(t.flags, FlagKey))
    ensures NoDuplicates(KeysOf(t.flags + [f], FlagKey))
    ensures KeysOf(t.flags + [f], AppliedReversalKey)
            == KeysOf(t.flags, AppliedReversalKey)
               + (if AppliedReversalKey(f).Some? then [(f.runId, f.candidateId)] else [])
    ensures KeysOf(t.flags + [f], AppliedReversalScope)
            == KeysOf(t.flags, AppliedReversalScope)
               + (if AppliedReversalKey(f).Some? then [(f.runId, f.candidateId, f.targetScopeKey)] else [])
  {
    FlagExistsByKey(t, f.runId, f.candidateId, f.kind);
    KeysOfAppend(t.flags, f, FlagKey);
    KeysOfAppend(t.flags, f, AppliedReversalKey);
    KeysOfAppend(t.flags, f, AppliedReversalScope);
    NoDuplicatesAppend(KeysOf(t.flags, FlagKey), (f.runId, f.candidateId, f.kind));
  }

  /** An applied reversal flag with the relegate and the tier move it calls for. */
  function AddReversal(t: Tables, f: ApplyFlag, scoped: ScopedLifecycleEvent, content: string,
                       fromTier: Option<string>, toTier: string, cause: string): Tables
  {
    AddEvent(AddFlag(t, f), f.runId, scoped, content, None, Some(f.candidateId), fromTier, toTier, cause)
  }

  lemma AddReversalBalances(t: Tables, f: ApplyFlag, scoped: ScopedLifecycleEvent, content: string,
    fromTier: Option<string>, toTier: string, cause: string)
    requires Inv(t) && !FlagExists(t, f.runId, f.candidateId, f.kind) && f.kind.RuleReversal? && f.applied
    requires scoped.action == Some(RELEGATE) && scoped.scopeKey.Some?
    ensures BooksBalance(AddReversal(t, f, scoped, content, fromTier, toTier, cause))
  {
    assert BooksBalance(AddFlag(t, f));
    AddEventKeepsBalance(AddFlag(t, f), f.runId, scoped, content, None, Some(f.candidateId), fromTier, toTier, cause);
  }

  lemma AddReversalKeysUnique(t: Tables, f: ApplyFlag, scoped: ScopedLifecycleEvent, content: string,
    fromTier: Option<string>, toTier: string, cause: string)
    requires Inv(t) && !FlagExists(t, f.runId, f.candidateId, f.kind) && f.kind.RuleReversal? && f.applied
    requires scoped.action == Some(RELEGATE) && scoped.scopeKey.Some?
    ensures KeysUnique(AddReversal(t, f, scoped, content, fromTier, toTier, cause))
  {
    AddFlagKeys(t, f);
    KeysOfAppend(t.events, AddReversal(t, f, scoped, content, fromTier, toTier, cause).events[|t.events|], PromoteKey);
  }

  lemma AddReversalMatches(t: Tables, f: ApplyFlag, scoped: ScopedLifecycleEvent, content: string,
    fromTier: Option<string>, toTier: string, cause: string)
    requires Inv(t) && !FlagExists(t, f.runId, f.candidateId, f.kind) && f.kind.RuleReversal? && f.applied
    requires scoped.action == Some(RELEGATE) && scoped.scopeKey.Some? && scoped.scopeKey == f.targetScopeKey
    ensures ReversalsMatch(AddReversal(t, f, scoped, content, fromTier, toTier, cause))
    ensures EventsKeyed(AddReversal(t, f, scoped, content, fromTier, toTier, cause))
  {
    AddFlagKeys(t, f);
    var e := AddReversal(t, f, scoped, content, fromTier, toTier, cause).events[|t.events|];
    KeysOfAppend(t.events, e, RelegationKey);
    KeysOfAppend(t.events, e, RelegationScope);
  }

  lemma AddReversalKeepsInv(t: Tables, f: ApplyFlag, scoped: ScopedLifecycleEvent, content: string,
    fromTier: Option<string>, toTier: string, cause: string)
    requires Inv(t) && !FlagExists(t, f.runId, f.candidateId, f.kind) && f.kind.RuleReversal? && f.applied
    requires scoped.action == Some(RELEGATE) && scoped.scopeKey.Some? && scoped.scopeKey == f.targetScopeKey
    ensures Inv(AddReversal(t, f, scoped, content, fromTier, toTier, cause))
  {
    AddReversalBalances(t, f, scoped, content, fromTier, toTier, cause);
    AddReversalKeysUnique(t, f, scoped, content, fromTier, toTier, cause);
    AddReversalMatches(t, f, scoped, content, fromTier, toTier, cause);
  }
}
