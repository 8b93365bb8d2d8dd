/**
 * Trace comparison by the evidence itself: in which order occurrences pair up,
 * when two traces agree, when nothing can be said, and the repeat command's exit.
 */
module TraceRules {
  import opened Wrappers
  import opened Sorting
  import opened TraceDiff

  // --- Occurrences in time order ---

  ghost predicate Sooner(a: Option<int>, b: Option<int>) {
    a.Some? && (b.None? || a.value < b.value)
  }

  /** By start, then by end, then by id; a missing time comes last. */
  ghost predicate Precedes(x: Observation, y: Observation) {
    || Sooner(x.start, y.start)
    || (x.start == y.start && Sooner(x.end, y.end))
    || (x.start == y.start && x.end == y.end && StrLess(x.id, y.id))
  }

  /** The stage an observation belongs to. */
  ghost predicate CalledAs(o: Observation, name: string) {
    o.name == Some(name) || (o.name.None? && name == "unnamed")
  }

  lemma {:induction false} NamedKeepsOrder(observations: seq<Observation>, name: string, i: nat, j: nat)
    requires i < j < |observations| && CalledAs(observations[i], name) && CalledAs(observations[j], name)
    ensures exists p, q :: 0 <= p < q < |Named(observations, name)|
              && Named(observations, name)[p] == observations[i].evidence
              && Named(observations, name)[q] == observations[j].evidence
  {
    var init := observations[..|observations| - 1];
    if j < |init| {
      NamedKeepsOrder(init, name, i, j);
      var p, q :| 0 <= p < q < |Named(init, name)|
        && Named(init, name)[p] == init[i].evidence && Named(init, name)[q] == init[j].evidence;
      assert Named(observations, name)[p] == Named(init, name)[p]
             && Named(observations, name)[q] == Named(init, name)[q];
    } else {
      NamedHas(init, name, i);
      var p :| 0 <= p < |Named(init, name)| && Named(init, name)[p] == init[i].evidence;
      assert Named(observations, name)[p] == Named(init, name)[p];
      assert Named(observations, name)[|Named(init, name)|] == observations[j].evidence;
    }
  }

  lemma {:induction false} NamedHas(observations: seq<Observation>, name: string, i: nat)
    requires i < |observations| && CalledAs(observations[i], name)
    ensures exists p :: 0 <= p < |Named(observations, name)|
              && Named(observations, name)[p] == observations[i].evidence
  {
    var init := observations[..|observations| - 1];
    if i < |init| {
      NamedHas(init, name, i);
      var p :| 0 <= p < |Named(init, name)| && Named(init, name)[p] == init[i].evidence;
      assert Named(observations, name)[p] == Named(init, name)[p];
    } else {
      assert Named(observations, name)[|Named(init, name)|] == observations[i].evidence;
    }
  }

  lemma ObservationsSort(t: Trace)
    ensures Sorted(Sort(t.observations, ByKey), ByKey)
    ensures forall o :: o in Sort(t.observations, ByKey) <==> o in t.observations
  {
    StrLeqOrder();
    SortSorts(t.observations, ByKey);
  }

  lemma PrecedesIsStrict(x: Observation, y: Observation)
    requires Precedes(x, y)
    ensures !ByKey(y, x)
  {
    StrLeqTotal(x.id, y.id);
  }

  lemma SortedPlaces(ordered: seq<Observation>, x: Observation, y: Observation) returns (i: nat, j: nat)
    requires Sorted(ordered, ByKey) && x in ordered && y in ordered && x != y && !ByKey(y, x)
    ensures i < j < |ordered| && ordered[i] == x && ordered[j] == y
  {
    i :| 0 <= i < |ordered| && ordered[i] == x;
    j :| 0 <= j < |ordered| && ordered[j] == y;
  }

  /** Of two observations of a stage the earlier is compared at an earlier occurrence. */
  lemma StagesInOrder(t: Trace, name: string, x: Observation, y: Observation)
    requires x in t.observations && y in t.observations && CalledAs(x, name) && CalledAs(y, name) && Precedes(x, y)
    ensures exists p, q :: 0 <= p < q < |Stage(t, name)|
                           && Stage(t, name)[p] == x.evidence && Stage(t, name)[q] == y.evidence
  {
    ObservationsSort(t);
    PrecedesIsStrict(x, y);
    var i, j := SortedPlaces(Sort(t.observations, ByKey), x, y);
    NamedKeepsOrder(Sort(t.observations, ByKey), name, i, j);
    var stage := Stage(t, name);
    var p, q :| 0 <= p < q < |stage| && stage[p] == x.evidence && stage[q] == y.evidence;
  }

  // --- When two traces agree ---

  /** Row evidence decides where either side has any; otherwise counts and degradation do. */
  ghost predicate Agree(a: StageEvidence, b: StageEvidence) {
    && a.candidates == b.candidates && a.chosen == b.chosen
    && (a.candidates == {} && a.chosen == [] ==> a.counts == b.counts && a.degradation == b.degradation)
  }

  ghost predicate Bears(s: StageEvidence) {
    s.candidates != {} || s.chosen != [] || s.counts != map[] || s.degradation != map[]
  }

  lemma AgreeIsSameCanon(a: StageEvidence, b: StageEvidence)
    ensures CanonOf(a) == CanonOf(b) <==> Agree(a, b)
    ensures HasEvidence(Some(a)) <==> Bears(a)
  {
  }

  ghost predicate SameTool(a: Trace, b: Trace) {
    a.tool == b.tool || (a.tool.None? && b.tool == Some("")) || (a.tool == Some("") && b.tool.None?)
  }

  ghost predicate StagesAgree(a: Trace, b: Trace) {
    forall name ::
      && |Stage(a, name)| == |Stage(b, name)|
      && forall i :: 0 <= i < |Stage(a, name)| ==> Agree(Stage(a, name)[i], Stage(b, name)[i])
  }

  ghost predicate BearsEvidence(t: Trace) {
    exists name, i :: 0 <= i < |Stage(t, name)| && Bears(Stage(t, name)[i])
  }

  lemma AgreeIsSameForm(a: Trace, b: Trace)
    ensures SameForm(a, b) <==> StagesAgree(a, b)
  {
    forall name
      ensures CanonStage(Stage(a, name)) == CanonStage(Stage(b, name)) <==>
                && |Stage(a, name)| == |Stage(b, name)|
                && forall i :: 0 <= i < |Stage(a, name)| ==> Agree(Stage(a, name)[i], Stage(b, name)[i])
    {
      StageFormsAgree(Stage(a, name), Stage(b, name));
    }
  }

  lemma StageFormsAgree(ga: seq<StageEvidence>, gb: seq<StageEvidence>)
    ensures CanonStage(ga) == CanonStage(gb) <==>
            |ga| == |gb| && forall i :: 0 <= i < |ga| ==> Agree(ga[i], gb[i])
  {
    assert |CanonStage(ga)| == |ga| && |CanonStage(gb)| == |gb|;
    if |ga| == |gb| {
      forall i | 0 <= i < |ga| ensures CanonStage(ga)[i] == CanonStage(gb)[i] <==> Agree(ga[i], gb[i]) {
        AgreeIsSameCanon(ga[i], gb[i]);
      }
    }
  }

  lemma BearsIsEvident(t: Trace)
    ensures Evident(t) <==> BearsEvidence(t)
  {
    if name, i :| 0 <= i < |Stage(t, name)| && Bears(Stage(t, name)[i]) {
      AgreeIsSameCanon(Stage(t, name)[i], Stage(t, name)[i]);
    }
    if name, i: nat :| 0 <= i < |Stage(t, name)| && HasEvidence(Some(Stage(t, name)[i])) {
      AgreeIsSameCanon(Stage(t, name)[i], Stage(t, name)[i]);
    }
  }

  /**
   * The three answers: unknown without evidence or with a gap in it, else yes exactly on agreeing stages of
   * one tool.
   */
  lemma VerdictExactly(a: Trace, b: Trace)
    ensures Verdict(a, b).None? <==>
              !(BearsEvidence(a) || BearsEvidence(b)) || !Complete(a) || !Complete(b)
    ensures Verdict(a, b).Some? ==> (Verdict(a, b).value <==> SameTool(a, b) && StagesAgree(a, b))
  {
    EvidenceExactly(a, b);
    IncompleteExactly(a, b);
    BearsIsEvident(a);
    BearsIsEvident(b);
    AgreeIsSameForm(a, b);
    if Verdict(a, b).Some? { NoDifferenceIsSameForm(a, b); }
  }

  // --- The exit of the repeat command ---

  /** Some trace other than the baseline gets the answer. */
  ghost predicate Gets(traces: seq<Trace>, baseline: nat, answer: Option<bool>)
    requires baseline < |traces|
  {
    exists i :: 0 <= i < |traces| && i != baseline && Verdict(traces[baseline], traces[i]) == answer
  }

  /** Exit 2 when some comparison stays open, else 1 when some differs, else 0. */
  lemma ExitCodes(traces: seq<Trace>, baseline: nat, comparisons: seq<Option<bool>>)
    requires baseline < |traces| && |comparisons| == |traces| - 1
    requires forall i :: 0 <= i < |comparisons| ==>
               comparisons[i] == Verdict(traces[baseline], Others(traces, baseline)[i])
    ensures RepeatExitCode(comparisons)
         == if Gets(traces, baseline, None) then 2 else if Gets(traces, baseline, Some(false)) then 1 else 0
  {
    Comes(traces, baseline, comparisons, None);
    Comes(traces, baseline, comparisons, Some(false));
  }

  lemma AnswerAt(traces: seq<Trace>, baseline: nat, comparisons: seq<Option<bool>>, k: nat)
    requires baseline < |traces| && |comparisons| == |traces| - 1 && k < |comparisons|
    requires forall i :: 0 <= i < |comparisons| ==>
               comparisons[i] == Verdict(traces[baseline], Others(traces, baseline)[i])
    ensures comparisons[k] == Verdict(traces[baseline], traces[if k < baseline then k else k + 1])
  {
    OthersAt(traces, baseline, k);
  }

  lemma Comes(traces: seq<Trace>, baseline: nat, comparisons: seq<Option<bool>>, answer: Option<bool>)
    requires baseline < |traces| && |comparisons| == |traces| - 1
    requires forall i :: 0 <= i < |comparisons| ==>
               comparisons[i] == Verdict(traces[baseline], Others(traces, baseline)[i])
    ensures answer in comparisons <==> Gets(traces, baseline, answer)
  {
    var answers := seq(|traces|, i requires 0 <= i < |traces| => Verdict(traces[baseline], traces[i]));
    forall k | 0 <= k < |comparisons| ensures comparisons[k] == answers[if k < baseline then k else k + 1] {
      AnswerAt(traces, baseline, comparisons, k);
    }
    ComesOf(answers, baseline, comparisons, answer);
    if i :| 0 <= i < |answers| && i != baseline && answers[i] == answer {
      assert Verdict(traces[baseline], traces[i]) == answer;
    }
    if i :| 0 <= i < |traces| && i != baseline && Verdict(traces[baseline], traces[i]) == answer {
      assert answers[i] == answer;
    }
  }

  lemma ComesOf(answers: seq<Option<bool>>, baseline: nat, others: seq<Option<bool>>, answer: Option<bool>)
    requires baseline < |answers| && |others| == |answers| - 1
    requires forall k :: 0 <= k < |others| ==> others[k] == answers[if k < baseline then k else k + 1]
    ensures answer in others <==> exists i :: 0 <= i < |answers| && i != baseline && answers[i] == answer
  {
    if i :| 0 <= i < |answers| && i != baseline && answers[i] == answer {
      assert others[if i < baseline then i else i - 1] == answer;
    }
  }
}
