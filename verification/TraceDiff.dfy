/**
 * Comparing retrieval traces (scripts/langfuse-trace-lib.ts and the stage
 * grouping of scripts/langfuse-trace-evidence.ts). Observations are sorted and
 * grouped into stages by name; repeated stages are compared pairwise; the
 * verdict is yes, no, or unknown.
 */
module TraceDiff {
  import opened Wrappers
  import opened Sorting

  /** What a stage's verdict can depend on; counts are whole numbers. */
  datatype StageEvidence = StageEvidence(
    evidenceIncomplete: bool, candidates: set<string>, chosen: seq<string>,
    counts: map<string, int>, degradation: map<string, string>)

  /** An absent or unreadable time sorts last. */
  datatype Observation = Observation(
    start: Option<int>, end: Option<int>, id: string, name: Option<string>, evidence: StageEvidence)

  datatype Trace = Trace(tool: Option<string>, observations: seq<Observation>)

  datatype Basis = RowIds | CountsAndDegradation | Mixed

  datatype StageComparison = StageComparison(name: string, basis: Basis, evidenceIncomplete: bool, equivalent: bool)

  // --- Stages ---

  predicate TimeLeq(a: Option<int>, b: Option<int>) {
    b.None? || (a.Some? && a.value <= b.value)
  }

  predicate ByKey(a: Observation, b: Observation) {
    if a.start != b.start then TimeLeq(a.start, b.start)
    else if a.end != b.end then TimeLeq(a.end, b.end)
    else StrLeq(a.id, b.id)
  }

  function NameOf(o: Observation): string {
    if o.name.Some? then o.name.value else "unnamed"
  }

  function Named(observations: seq<Observation>, name: string): seq<StageEvidence> {
    if observations == [] then []
    else Named(observations[..|observations| - 1], name)
         + if NameOf(observations[|observations| - 1]) == name then [observations[|observations| - 1].evidence] else []
  }

  /** The occurrences of one stage, in key order. */
  function Stage(t: Trace, name: string): seq<StageEvidence> {
    Named(Sort(t.observations, ByKey), name)
  }

  /** `stages` maps each name that occurs to its occurrences. */
  ghost predicate Groups(t: Trace, stages: map<string, seq<StageEvidence>>) {
    && (forall name :: name in stages <==> Stage(t, name) != [])
    && (forall name :: name in stages ==> stages[name] == Stage(t, name))
  }

  lemma NamedOneMore(observations: seq<Observation>, i: nat, name: string)
    requires i < |observations|
    ensures Named(observations[..i + 1], name)
         == Named(observations[..i], name) + if NameOf(observations[i]) == name then [observations[i].evidence] else []
  {
    assert observations[..i + 1][..i] == observations[..i];
  }

  /** The grouping so far: `stages` holds what the first observations have of each name. */
  ghost predicate Grouped(observations: seq<Observation>, stages: map<string, seq<StageEvidence>>) {
    && (forall name :: name in stages <==> Named(observations, name) != [])
    && (forall name :: name in stages ==> stages[name] == Named(observations, name))
  }

  lemma GroupedOneMore(ordered: seq<Observation>, i: nat, before: map<string, seq<StageEvidence>>,
                       group: seq<StageEvidence>)
    requires i < |ordered| && Grouped(ordered[..i], before)
    requires group == if NameOf(ordered[i]) in before then before[NameOf(ordered[i])] else []
    ensures Grouped(ordered[..i + 1], before[NameOf(ordered[i]) := group + [ordered[i].evidence]])
  {
    var after := before[NameOf(ordered[i]) := group + [ordered[i].evidence]];
    forall name
      ensures name in after <==> Named(ordered[..i + 1], name) != []
      ensures name in after ==> after[name] == Named(ordered[..i + 1], name)
    {
      NamedOneMore(ordered, i, name);
    }
  }

  method StagesOf(t: Trace) returns (stages: map<string, seq<StageEvidence>>)
    ensures Groups(t, stages)
  {
    stages := map[];
    var ordered := Sort(t.observations, ByKey);
    for i := 0 to |ordered|
      invariant Grouped(ordered[..i], stages)
    {
      var name := NameOf(ordered[i]);
      var group := if name in stages then stages[name] else [];
      ghost var before := stages;
      stages := stages[name := group + [ordered[i].evidence]];
      GroupedOneMore(ordered, i, before, group);
    }
    assert ordered[..|ordered|] == ordered;
  }

  // --- One pair of stages ---

  predicate HasRowEvidence(s: Option<StageEvidence>) {
    s.Some? && (s.value.candidates != {} || s.value.chosen != [])
  }

  predicate HasEvidence(s: Option<StageEvidence>) {
    HasRowEvidence(s) || (s.Some? && (s.value.counts != map[] || s.value.degradation != map[]))
  }

  function ComparisonBasis(a: Option<StageEvidence>, b: Option<StageEvidence>): Basis {
    if HasRowEvidence(a) && HasRowEvidence(b) then RowIds
    else if HasRowEvidence(a) || HasRowEvidence(b) then Mixed else CountsAndDegradation
  }

  /** The keys two maps disagree on, a missing entry disagreeing with any value. */
  function CompareMaps<V(==)>(a: map<string, V>, b: map<string, V>): set<string> {
    set k | k in a.Keys + b.Keys && !(k in a && k in b && a[k] == b[k])
  }

  lemma NoDifferenceIsEqual<V>(a: map<string, V>, b: map<string, V>)
    ensures CompareMaps(a, b) == {} <==> a == b
  {
    if CompareMaps(a, b) == {} {
      forall k ensures k in a <==> k in b { assert k !in CompareMaps(a, b); }
      forall k | k in a ensures a[k] == b[k] { assert k !in CompareMaps(a, b); }
    }
  }

  predicate StageEquivalent(basis: Basis, a: Option<StageEvidence>, b: Option<StageEvidence>) {
    a.Some? && b.Some? && !a.value.evidenceIncomplete && !b.value.evidenceIncomplete
    && match basis
       case RowIds => a.value.candidates == b.value.candidates && a.value.chosen == b.value.chosen
       case CountsAndDegradation =>
         CompareMaps(a.value.counts, b.value.counts) == {}
           && CompareMaps(a.value.degradation, b.value.degradation) == {}
       case Mixed => false
  }

  predicate Incomplete(s: Option<StageEvidence>) {
    s.Some? && s.value.evidenceIncomplete
  }

  function CompareStage(name: string, a: Option<StageEvidence>, b: Option<StageEvidence>): StageComparison {
    var basis := ComparisonBasis(a, b);
    StageComparison(name, basis, Incomplete(a) || Incomplete(b), StageEquivalent(basis, a, b))
  }

  // --- All pairs ---

  function At(group: seq<StageEvidence>, i: nat): Option<StageEvidence> {
    if i < |group| then Some(group[i]) else None
  }

  function Longer(a: seq<StageEvidence>, b: seq<StageEvidence>): nat {
    if |a| < |b| then |b| else |a|
  }

  method PairStageOccurrences(name: string, a: seq<StageEvidence>, b: seq<StageEvidence>)
    returns (stages: seq<StageComparison>, evidenceCount: nat, incomplete: bool)
    ensures |stages| == Longer(a, b)
    ensures forall i :: 0 <= i < |stages| ==> stages[i] == CompareStage(name, At(a, i), At(b, i))
    ensures evidenceCount > 0 <==> exists i :: 0 <= i < |stages| && (HasEvidence(At(a, i)) || HasEvidence(At(b, i)))
    ensures incomplete <==> exists i :: 0 <= i < |stages| && stages[i].evidenceIncomplete
  {
    stages, evidenceCount, incomplete := [], 0, false;
    for i := 0 to Longer(a, b)
      invariant |stages| == i
      invariant forall j :: 0 <= j < i ==> stages[j] == CompareStage(name, At(a, j), At(b, j))
      invariant evidenceCount > 0 <==> exists j :: 0 <= j < i && (HasEvidence(At(a, j)) || HasEvidence(At(b, j)))
      invariant incomplete <==> exists j :: 0 <= j < i && stages[j].evidenceIncomplete
    {
      if HasEvidence(At(a, i)) || HasEvidence(At(b, i)) { evidenceCount := evidenceCount + 1; }
      var stage := CompareStage(name, At(a, i), At(b, i));
      incomplete := incomplete || stage.evidenceIncomplete;
      stages := stages + [stage];
    }
  }

  /** Position `i` of stage `name` holds something in one trace or the other. */
  ghost predicate Paired(a: Trace, b: Trace, name: string, i: nat) {
    i < Longer(Stage(a, name), Stage(b, name))
  }

  ghost function Compared(a: Trace, b: Trace, name: string, i: nat): StageComparison {
    CompareStage(name, At(Stage(a, name), i), At(Stage(b, name), i))
  }

  ghost predicate EvidenceAt(a: Trace, b: Trace, name: string, i: nat) {
    Paired(a, b, name, i) && (HasEvidence(At(Stage(a, name), i)) || HasEvidence(At(Stage(b, name), i)))
  }

  ghost predicate IncompleteAt(a: Trace, b: Trace, name: string, i: nat) {
    Paired(a, b, name, i) && Compared(a, b, name, i).evidenceIncomplete
  }

  ghost predicate DifferentAt(a: Trace, b: Trace, name: string, i: nat) {
    Paired(a, b, name, i) && !Compared(a, b, name, i).equivalent
  }

  ghost predicate EvidenceIn(a: Trace, b: Trace, name: string) { exists i: nat :: EvidenceAt(a, b, name, i) }

  ghost predicate IncompleteIn(a: Trace, b: Trace, name: string) { exists i: nat :: IncompleteAt(a, b, name, i) }

  ghost predicate AnyEvidence(a: Trace, b: Trace) { exists name :: EvidenceIn(a, b, name) }

  ghost predicate AnyIncomplete(a: Trace, b: Trace) { exists name :: IncompleteIn(a, b, name) }

  ghost predicate AnyDifferent(a: Trace, b: Trace) { exists name, i: nat :: DifferentAt(a, b, name, i) }

  /** The three-valued verdict: unknown without evidence, or with incomplete evidence anywhere. */
  ghost function Verdict(a: Trace, b: Trace): Option<bool> {
    if !AnyEvidence(a, b) || AnyIncomplete(a, b) then None
    else Some(Tool(a) == Tool(b) && !AnyDifferent(a, b))
  }

  function Tool(t: Trace): string {
    if t.tool.Some? then t.tool.value else ""
  }

  method SortedUnion(a: set<string>, b: set<string>) returns (names: seq<string>)
    ensures Sorted(names, StrLeq) && forall n :: n in names <==> n in a || n in b
  {
    var rest := a + b;
    var list: seq<string> := [];
    while rest != {}
      invariant rest <= a + b && forall n :: n in list <==> n in a + b && n !in rest
      decreases rest
    {
      var n :| n in rest;
      list := list + [n];
      rest := rest - {n};
    }
    StrLeqOrder();
    SortSorts(list, StrLeq);
    names := Sort(list, StrLeq);
  }

  /** Names below `k` have been compared; `stages` holds all their comparisons and nothing else. */
  ghost predicate PairedUpTo(a: Trace, b: Trace, names: seq<string>, k: nat, stages: seq<StageComparison>)
    requires k <= |names|
  {
    && (forall s :: s in stages ==>
        exists j, i: nat :: 0 <= j < k && Paired(a, b, names[j], i) && s == Compared(a, b, names[j], i))
    && (forall j, i: nat :: 0 <= j < k && Paired(a, b, names[j], i) ==> Compared(a, b, names[j], i) in stages)
  }

  /** `paired` is the comparison of every occurrence of stage `name`. */
  ghost predicate PairsStage(a: Trace, b: Trace, name: string, paired: seq<StageComparison>) {
    |paired| == Longer(Stage(a, name), Stage(b, name))
    && forall i: nat :: i < |paired| ==> paired[i] == Compared(a, b, name, i)
  }

  method PairNamed(a: Trace, b: Trace, name: string,
                   stagesA: map<string, seq<StageEvidence>>, stagesB: map<string, seq<StageEvidence>>)
    returns (paired: seq<StageComparison>, evidenceCount: nat, incomplete: bool)
    requires Groups(a, stagesA) && Groups(b, stagesB)
    ensures PairsStage(a, b, name, paired)
    ensures evidenceCount > 0 <==> EvidenceIn(a, b, name)
    ensures incomplete <==> IncompleteIn(a, b, name)
  {
    var groupA := if name in stagesA then stagesA[name] else [];
    var groupB := if name in stagesB then stagesB[name] else [];
    paired, evidenceCount, incomplete := PairStageOccurrences(name, groupA, groupB);
    PairedFacts(a, b, name, paired);
  }

  /** `stages` holds the comparison of every occurrence of every stage, and nothing else. */
  ghost predicate CoversAll(a: Trace, b: Trace, stages: seq<StageComparison>) {
    && (forall s :: s in stages ==> exists n, i: nat :: Paired(a, b, n, i) && s == Compared(a, b, n, i))
    && (forall n, i: nat :: Paired(a, b, n, i) ==> Compared(a, b, n, i) in stages)
  }

  ghost predicate EvidenceUpTo(a: Trace, b: Trace, names: seq<string>, k: nat)
    requires k <= |names|
  {
    exists j :: 0 <= j < k && EvidenceIn(a, b, names[j])
  }

  ghost predicate IncompleteUpTo(a: Trace, b: Trace, names: seq<string>, k: nat)
    requires k <= |names|
  {
    exists j :: 0 <= j < k && IncompleteIn(a, b, names[j])
  }

  method PairAllStages(a: Trace, b: Trace) returns (stages: seq<StageComparison>, evidenceCount: nat, incomplete: bool)
    ensures evidenceCount > 0 <==> AnyEvidence(a, b)
    ensures incomplete <==> AnyIncomplete(a, b)
    ensures CoversAll(a, b, stages)
  {
    var stagesA := StagesOf(a);
    var stagesB := StagesOf(b);
    var names := SortedUnion(stagesA.Keys, stagesB.Keys);
    assert NamesStages(a, b, names);
    stages, evidenceCount, incomplete := [], 0, false;
    for k := 0 to |names|
      invariant PairedUpTo(a, b, names, k, stages)
      invariant evidenceCount > 0 <==> EvidenceUpTo(a, b, names, k)
      invariant incomplete <==> IncompleteUpTo(a, b, names, k)
    {
      var paired, found, part := PairNamed(a, b, names[k], stagesA, stagesB);
      ExtendPaired(a, b, names, k, stages, paired);
      evidenceCount := evidenceCount + found;
      incomplete := incomplete || part;
      stages := stages + paired;
    }
    NamesCover(a, b, names);
  }

  /** What pairing one stage finds, said of the two traces. */
  lemma PairedFacts(a: Trace, b: Trace, name: string, paired: seq<StageComparison>)
    requires |paired| == Longer(Stage(a, name), Stage(b, name))
    requires forall i :: 0 <= i < |paired| ==>
               paired[i] == CompareStage(name, At(Stage(a, name), i), At(Stage(b, name), i))
    ensures PairsStage(a, b, name, paired)
    ensures EvidenceIn(a, b, name) <==>
            exists i :: 0 <= i < |paired| && (HasEvidence(At(Stage(a, name), i)) || HasEvidence(At(Stage(b, name), i)))
    ensures IncompleteIn(a, b, name) <==> exists i :: 0 <= i < |paired| && paired[i].evidenceIncomplete
  {
    forall i: nat | i < |paired| && (HasEvidence(At(Stage(a, name), i)) || HasEvidence(At(Stage(b, name), i)))
      ensures EvidenceAt(a, b, name, i) {}
    forall i: nat | i < |paired| && paired[i].evidenceIncomplete ensures IncompleteAt(a, b, name, i) {}
    if i: nat :| IncompleteAt(a, b, name, i) { assert paired[i].evidenceIncomplete; }
  }

  ghost predicate NamesStages(a: Trace, b: Trace, names: seq<string>) {
    forall n :: n in names <==> Stage(a, n) != [] || Stage(b, n) != []
  }

  /** Every stage either trace has is among the names. */
  lemma NamesCover(a: Trace, b: Trace, names: seq<string>)
    requires NamesStages(a, b, names)
    ensures forall n, i: nat :: Paired(a, b, n, i) ==> n in names
    ensures AnyEvidence(a, b) <==> EvidenceUpTo(a, b, names, |names|)
    ensures AnyIncomplete(a, b) <==> IncompleteUpTo(a, b, names, |names|)
  {
    if n :| EvidenceIn(a, b, n) {
      var i: nat :| EvidenceAt(a, b, n, i);
      assert Paired(a, b, n, i);
    }
    if n :| IncompleteIn(a, b, n) {
      var i: nat :| IncompleteAt(a, b, n, i);
      assert Paired(a, b, n, i);
    }
  }

  lemma ExtendPaired(a: Trace, b: Trace, names: seq<string>, k: nat, stages: seq<StageComparison>,
                     paired: seq<StageComparison>)
    requires k < |names| && PairedUpTo(a, b, names, k, stages)
    requires PairsStage(a, b, names[k], paired)
    ensures PairedUpTo(a, b, names, k + 1, stages + paired)
  {
    forall s | s in stages + paired
      ensures exists j, i: nat :: 0 <= j < k + 1 && Paired(a, b, names[j], i) && s == Compared(a, b, names[j], i)
    {
      if s !in stages {
        var i: nat :| i < |paired| && paired[i] == s;
        assert Paired(a, b, names[k], i);
      }
    }
    forall j, i: nat | 0 <= j < k + 1 && Paired(a, b, names[j], i)
      ensures Compared(a, b, names[j], i) in stages + paired {
      if j == k { assert paired[i] in paired; }
    }
  }

  method DiffTraces(a: Trace, b: Trace) returns (equivalent: Option<bool>, evidenceIncomplete: bool)
    ensures equivalent == Verdict(a, b)
    ensures evidenceIncomplete <==> AnyIncomplete(a, b)
  {
    var stages, evidenceCount, incomplete := PairAllStages(a, b);
    StagesDecide(a, b, stages);
    evidenceIncomplete := incomplete;
    equivalent := TraceEquivalence(Tool(a), Tool(b), stages, evidenceCount);
  }

  function TraceEquivalence(toolA: string, toolB: string, stages: seq<StageComparison>, evidenceCount: nat)
    : Option<bool>
  {
    if evidenceCount == 0 then None
    else if exists s :: s in stages && s.evidenceIncomplete then None
    else Some(toolA == toolB && forall s :: s in stages ==> s.equivalent)
  }

  lemma StagesDecide(a: Trace, b: Trace, stages: seq<StageComparison>)
    requires CoversAll(a, b, stages)
    ensures (exists s :: s in stages && s.evidenceIncomplete) <==> AnyIncomplete(a, b)
    ensures (exists s :: s in stages && !s.equivalent) <==> AnyDifferent(a, b)
  {
    if s :| s in stages && s.evidenceIncomplete {
      var n, i: nat :| Paired(a, b, n, i) && s == Compared(a, b, n, i);
      assert IncompleteAt(a, b, n, i) && IncompleteIn(a, b, n);
    }
    if s :| s in stages && !s.equivalent {
      var n, i: nat :| Paired(a, b, n, i) && s == Compared(a, b, n, i);
      assert DifferentAt(a, b, n, i);
    }
    if n :| IncompleteIn(a, b, n) {
      var i: nat :| IncompleteAt(a, b, n, i);
      assert Compared(a, b, n, i) in stages;
    }
    if n, i: nat :| DifferentAt(a, b, n, i) {
      assert Compared(a, b, n, i) in stages;
    }
  }

  // --- What "equivalent" means: one canonical form per trace ---

  datatype Canon =
    Rows(candidates: set<string>, chosen: seq<string>)
    | Totals(counts: map<string, int>, degradation: map<string, string>)

  function CanonOf(s: StageEvidence): Canon {
    if HasRowEvidence(Some(s)) then Rows(s.candidates, s.chosen) else Totals(s.counts, s.degradation)
  }

  function CanonStage(group: seq<StageEvidence>): seq<Canon> {
    seq(|group|, i requires 0 <= i < |group| => CanonOf(group[i]))
  }

  ghost predicate Complete(t: Trace) {
    forall name, i: nat :: 0 <= i < |Stage(t, name)| ==> !Stage(t, name)[i].evidenceIncomplete
  }

  ghost predicate Evident(t: Trace) {
    exists name, i: nat :: 0 <= i < |Stage(t, name)| && HasEvidence(Some(Stage(t, name)[i]))
  }

  ghost predicate SameForm(a: Trace, b: Trace) {
    forall name :: CanonStage(Stage(a, name)) == CanonStage(Stage(b, name))
  }

  lemma StageEquivalentIsSameCanon(a: StageEvidence, b: StageEvidence)
    requires !a.evidenceIncomplete && !b.evidenceIncomplete
    ensures StageEquivalent(ComparisonBasis(Some(a), Some(b)), Some(a), Some(b)) <==> CanonOf(a) == CanonOf(b)
  {
    NoDifferenceIsEqual(a.counts, b.counts);
    NoDifferenceIsEqual(a.degradation, b.degradation);
  }

  lemma NoDifferenceIsSameForm(a: Trace, b: Trace)
    requires Complete(a) && Complete(b)
    ensures !AnyDifferent(a, b) <==> SameForm(a, b)
  {
    if !AnyDifferent(a, b) {
      forall name ensures CanonStage(Stage(a, name)) == CanonStage(Stage(b, name)) {
        var ga, gb := Stage(a, name), Stage(b, name);
        assert !DifferentAt(a, b, name, |ga|) && !DifferentAt(a, b, name, |gb|);
        assert |ga| == |gb|;
        forall i: nat | i < |ga| ensures CanonOf(ga[i]) == CanonOf(gb[i]) {
          assert !DifferentAt(a, b, name, i);
          StageEquivalentIsSameCanon(ga[i], gb[i]);
        }
      }
    }
    if SameForm(a, b) {
      forall name, i: nat ensures !DifferentAt(a, b, name, i) {
        var ga, gb := Stage(a, name), Stage(b, name);
        assert CanonStage(ga) == CanonStage(gb) && |CanonStage(ga)| == |ga| && |CanonStage(gb)| == |gb|;
        if Paired(a, b, name, i) {
          assert CanonStage(ga)[i] == CanonStage(gb)[i];
          StageEquivalentIsSameCanon(ga[i], gb[i]);
        }
      }
    }
  }

  lemma IncompleteExactly(a: Trace, b: Trace)
    ensures AnyIncomplete(a, b) <==> !(Complete(a) && Complete(b))
  {
    if name, i: nat :| 0 <= i < |Stage(a, name)| && Stage(a, name)[i].evidenceIncomplete {
      assert IncompleteAt(a, b, name, i) && IncompleteIn(a, b, name);
    }
    if name, i: nat :| 0 <= i < |Stage(b, name)| && Stage(b, name)[i].evidenceIncomplete {
      assert IncompleteAt(a, b, name, i) && IncompleteIn(a, b, name);
    }
  }

  lemma EvidenceExactly(a: Trace, b: Trace)
    ensures AnyEvidence(a, b) <==> Evident(a) || Evident(b)
  {
    if name, i: nat :| 0 <= i < |Stage(a, name)| && HasEvidence(Some(Stage(a, name)[i])) {
      assert EvidenceAt(a, b, name, i) && EvidenceIn(a, b, name);
    }
    if name, i: nat :| 0 <= i < |Stage(b, name)| && HasEvidence(Some(Stage(b, name)[i])) {
      assert EvidenceAt(a, b, name, i) && EvidenceIn(a, b, name);
    }
  }

  /** Traces of one form carry evidence together. */
  lemma SameFormSharesEvidence(a: Trace, b: Trace)
    requires SameForm(a, b) && Evident(b)
    ensures Evident(a)
  {
    var name, i: nat :| 0 <= i < |Stage(b, name)| && HasEvidence(Some(Stage(b, name)[i]));
    var ga, gb := Stage(a, name), Stage(b, name);
    assert CanonStage(ga) == CanonStage(gb) && |CanonStage(ga)| == |ga| && |CanonStage(gb)| == |gb|;
    assert CanonStage(ga)[i] == CanonStage(gb)[i];
    assert HasEvidence(Some(ga[i]));
  }

  /** The answer is yes exactly on complete traces of one tool and one form that carry evidence. */
  lemma EquivalentExactly(a: Trace, b: Trace)
    ensures Verdict(a, b) == Some(true)
            <==> Complete(a) && Complete(b) && Evident(a) && Evident(b) && Tool(a) == Tool(b) && SameForm(a, b)
  {
    EvidenceExactly(a, b);
    IncompleteExactly(a, b);
    if Complete(a) && Complete(b) {
      NoDifferenceIsSameForm(a, b);
      if SameForm(a, b) {
        assert SameForm(b, a);
        if Evident(a) { SameFormSharesEvidence(b, a); }
        if Evident(b) { SameFormSharesEvidence(a, b); }
      }
    }
  }

  /** All three answers are symmetric. */
  lemma VerdictIsSymmetric(a: Trace, b: Trace)
    ensures Verdict(a, b) == Verdict(b, a)
  {
    EvidenceExactly(a, b);
    EvidenceExactly(b, a);
    IncompleteExactly(a, b);
    IncompleteExactly(b, a);
    if Complete(a) && Complete(b) {
      NoDifferenceIsSameForm(a, b);
      NoDifferenceIsSameForm(b, a);
      assert SameForm(a, b) <==> SameForm(b, a);
    }
  }

  lemma EquivalenceIsTransitive(a: Trace, b: Trace, c: Trace)
    requires Verdict(a, b) == Some(true) && Verdict(b, c) == Some(true)
    ensures Verdict(a, c) == Some(true)
  {
    EquivalentExactly(a, b);
    EquivalentExactly(b, c);
    EquivalentExactly(a, c);
    forall name ensures CanonStage(Stage(a, name)) == CanonStage(Stage(c, name)) {
      assert CanonStage(Stage(a, name)) == CanonStage(Stage(b, name));
    }
  }

  lemma ReflexiveExactly(a: Trace)
    ensures Verdict(a, a) == Some(true) <==> Complete(a) && Evident(a)
  {
    EquivalentExactly(a, a);
  }

  /** The order in which observations arrive never matters while their (start, end, id) keys tell them apart. */
  lemma ObservationOrderIgnored(a: Trace, a': Trace, b: Trace)
    requires a.tool == a'.tool && multiset(a.observations) == multiset(a'.observations)
    requires forall x, y ::
               (x in a.observations && y in a.observations && x.start == y.start && x.end == y.end
                 && x.id == y.id) ==> x == y
    ensures Verdict(a', b) == Verdict(a, b) && Verdict(b, a') == Verdict(b, a)
  {
    StrLeqOrder();
    SortIgnoresOrder(a.observations, a'.observations, ByKey);
    forall name ensures Stage(a, name) == Stage(a', name) {}
    SameStagesSameVerdict(a, a', b);
    VerdictIsSymmetric(a, b);
    VerdictIsSymmetric(a', b);
  }

  lemma SameStagesSameVerdict(a: Trace, a': Trace, b: Trace)
    requires a.tool == a'.tool && forall name :: Stage(a, name) == Stage(a', name)
    ensures Verdict(a', b) == Verdict(a, b)
  {
    EvidenceExactly(a, b);
    EvidenceExactly(a', b);
    IncompleteExactly(a, b);
    IncompleteExactly(a', b);
    if Complete(a) && Complete(b) {
      NoDifferenceIsSameForm(a, b);
      NoDifferenceIsSameForm(a', b);
    }
  }

  // --- Repeats ---

  function RepeatExitCode(comparisons: seq<Option<bool>>): nat {
    if None in comparisons then 2 else if Some(false) in comparisons then 1 else 0
  }

  /** Every trace but the baseline, in order. */
  function Others(traces: seq<Trace>, baseline: nat): seq<Trace>
    requires baseline < |traces|
  {
    traces[..baseline] + traces[baseline + 1..]
  }

  /** The repeat command compares one baseline (the script takes the first trace) with all the others. */
  method CompareRepeats(traces: seq<Trace>, baseline: nat) returns (comparisons: seq<Option<bool>>)
    requires baseline < |traces|
    ensures |comparisons| == |traces| - 1
    ensures forall i :: 0 <= i < |comparisons| ==>
              comparisons[i] == Verdict(traces[baseline], Others(traces, baseline)[i])
    ensures RepeatExitCode(comparisons) == 0 <==> AllMatch(traces, baseline)
  {
    comparisons := [];
    var others := Others(traces, baseline);
    for i := 0 to |others|
      invariant |comparisons| == i
      invariant forall j :: 0 <= j < i ==> comparisons[j] == Verdict(traces[baseline], others[j])
    {
      var equivalent, _ := DiffTraces(traces[baseline], others[i]);
      comparisons := comparisons + [equivalent];
    }
    ExitZeroExactly(traces, baseline, comparisons);
  }

  ghost predicate AllMatch(traces: seq<Trace>, baseline: nat)
    requires baseline < |traces|
  {
    forall i :: 0 <= i < |traces| && i != baseline ==> Verdict(traces[baseline], traces[i]) == Some(true)
  }

  lemma OthersAt(traces: seq<Trace>, baseline: nat, k: nat)
    requires baseline < |traces| && k < |traces| - 1
    ensures Others(traces, baseline)[k] == traces[if k < baseline then k else k + 1]
  {
  }

  lemma ExitZeroExactly(traces: seq<Trace>, baseline: nat, comparisons: seq<Option<bool>>)
    requires baseline < |traces| && |comparisons| == |traces| - 1
    requires forall i :: 0 <= i < |comparisons| ==>
               comparisons[i] == Verdict(traces[baseline], Others(traces, baseline)[i])
    ensures RepeatExitCode(comparisons) == 0 <==> AllMatch(traces, baseline)
  {
    if RepeatExitCode(comparisons) == 0 {
      forall i | 0 <= i < |traces| && i != baseline ensures Verdict(traces[baseline], traces[i]) == Some(true) {
        var k := if i < baseline then i else i - 1;
        OthersAt(traces, baseline, k);
        assert comparisons[k] in comparisons;
      }
    }
    if AllMatch(traces, baseline) {
      forall k | 0 <= k < |comparisons| ensures comparisons[k] == Some(true) { OthersAt(traces, baseline, k); }
    }
  }

  /** Exit 0 from the first trace means every pair agrees, so any baseline would exit 0. */
  lemma OneBaselineIsEnough(traces: seq<Trace>, i: nat, j: nat)
    requires i < |traces| && j < |traces| && |traces| >= 2 && AllMatch(traces, 0)
    ensures Verdict(traces[i], traces[j]) == Some(true) && AllMatch(traces, i)
  {
    forall k | 0 <= k < |traces|
      ensures Verdict(traces[0], traces[k]) == Some(true) && Verdict(traces[k], traces[0]) == Some(true) {
      if k > 0 {
        VerdictIsSymmetric(traces[0], traces[k]);
      } else {
        VerdictIsSymmetric(traces[0], traces[1]);
        EquivalenceIsTransitive(traces[0], traces[1], traces[0]);
      }
    }
    forall k | 0 <= k < |traces| ensures Verdict(traces[i], traces[k]) == Some(true) {
      EquivalenceIsTransitive(traces[i], traces[0], traces[k]);
    }
  }
}
