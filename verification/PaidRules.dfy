/**
 * When the paid-attempt guard stops and what it pays for, said of the events of
 * a schedule and the lines of its ledger.
 */
module PaidRules {
  import opened Wrappers
  import opened PaidGuard

  /** The body of a response that was paid for honestly. */
  ghost predicate Honest(body: Body, inputTokens: nat, outputTokens: nat) {
    body == Fields("jev-1.13.0", Some(inputTokens), Some(outputTokens)) && inputTokens <= 64_000
  }

  predicate WholeUsage(input: Option<int>, output: Option<int>) {
    input.Some? && output.Some? && 0 <= input.value && input.value <= 64_000 && 0 <= output.value
  }

  /** Why a body is refused, in the order in which the reasons are looked for. */
  ghost predicate Refused(body: Body, status: string) {
    match body
    case Malformed => status == "malformed_response"
    case NoUsage => status == "malformed_usage"
    case Fields(model, input, output) =>
      || (model != "jev-1.13.0" && status == "model_mismatch")
      || (model == "jev-1.13.0" && !WholeUsage(input, output) && status == "malformed_usage")
  }

  ghost predicate InPhase(s: State, ordinal: nat, phase: Phase) {
    ordinal in s.inFlight && s.inFlight[ordinal] == phase
  }

  /** An event after which nothing may be paid for: the call it ends, and the status of the line it leaves. */
  ghost predicate Ends(s: State, e: Event, ordinal: nat, status: string) {
    match e
    case Call => false
    case TransportFailed(o) => o == ordinal && InPhase(s, o, InTransit) && status == "transport_failure"
    case Responded(o, ok, code) => o == ordinal && InPhase(s, o, InTransit) && !ok && status == "http_" + code
    case BodyRead(o, body) => o == ordinal && InPhase(s, o, ReadingBody) && Refused(body, status)
  }

  ghost predicate EndsBadly(s: State, e: Event) { exists ordinal, status :: Ends(s, e, ordinal, status) }

  /** A running guard stops exactly on such an event or on a call at its cap. */
  lemma StopsExactly(s: State, e: Event)
    ensures Next(s, e).stopped <==> s.stopped || EndsBadly(s, e) || (e == Call && s.attempts >= s.cap)
    ensures forall ordinal, status :: Ends(s, e, ordinal, status) ==>
              Next(s, e).trace == s.trace + [Wrote(Latched(ordinal, status))] && ordinal !in Next(s, e).inFlight
  {
    match e
    case Call =>
    case TransportFailed(o) =>
      if InPhase(s, o, InTransit) { assert Ends(s, e, o, "transport_failure"); }
    case Responded(o, ok, code) =>
      if InPhase(s, o, InTransit) && !ok { assert Ends(s, e, o, "http_" + code); }
    case BodyRead(o, body) =>
      if InPhase(s, o, ReadingBody) && Refusal(body).Some? { assert Ends(s, e, o, Refusal(body).value); }
  }

  /** What each event does to a running guard that goes on running. */
  lemma RunsOn(s: State, e: Event)
    requires !Next(s, e).stopped
    ensures var t := Next(s, e);
            match e
            case Call =>
              t.trace == s.trace + [Wrote(Reserved(s.attempts + 1)), Sent(s.attempts + 1)]
              && t.attempts == s.attempts + 1 && InPhase(t, s.attempts + 1, InTransit)
            case TransportFailed(o) => t == s
            case Responded(o, ok, code) =>
              t.trace == s.trace && (InPhase(s, o, InTransit) ==> InPhase(t, o, ReadingBody))
            case BodyRead(o, body) =>
              InPhase(s, o, ReadingBody) ==>
                exists inputTokens, outputTokens ::
                  Honest(body, inputTokens, outputTokens) && o !in t.inFlight
                  && t.trace == s.trace + [Wrote(Completed(o, inputTokens, outputTokens))]
                  && t.reportedInputTokens == s.reportedInputTokens + inputTokens
  {
    StopsExactly(s, e);
    if e.BodyRead? && InPhase(s, e.ordinal, ReadingBody) {
      var body := e.body;
      assert Honest(body, body.inputTokens.value, body.outputTokens.value);
    }
  }

  /** An honest body is booked for its call, even when another call has stopped the guard meanwhile. */
  lemma HonestIsBooked(s: State, ordinal: nat, body: Body, inputTokens: nat, outputTokens: nat)
    requires InPhase(s, ordinal, ReadingBody) && Honest(body, inputTokens, outputTokens)
    ensures var t := Next(s, BodyRead(ordinal, body));
            && t.trace == s.trace + [Wrote(Completed(ordinal, inputTokens, outputTokens))] && ordinal !in t.inFlight
            && t.stopped == s.stopped && t.reportedInputTokens == s.reportedInputTokens + inputTokens
  {
  }

  /** An event of one call leaves the phase of every other call alone. */
  lemma OthersKeepTheirPhase(s: State, e: Event, ordinal: nat, phase: Phase)
    requires if e.Call? then ordinal <= s.attempts else e.ordinal != ordinal
    ensures InPhase(Next(s, e), ordinal, phase) <==> InPhase(s, ordinal, phase)
  {
  }

  lemma {:induction false} RunInTwo(s: State, before: seq<Event>, after: seq<Event>)
    ensures Run(s, before + after) == Run(Run(s, before), after)
    decreases |before|
  {
    if before == [] {
      assert before + after == after;
    } else {
      assert (before + after)[1..] == before[1..] + after;
      RunInTwo(Next(s, before[0]), before[1..], after);
    }
  }

  /** Wherever in a schedule a call ends badly, its line is latched and the guard is stopped from then on. */
  lemma BadEndStopsForGood(s: State, before: seq<Event>, e: Event, after: seq<Event>, ordinal: nat, status: string)
    requires Ends(Run(s, before), e, ordinal, status)
    ensures var end := Run(s, before + [e] + after);
            && end.stopped && end.attempts == Run(s, before).attempts
            && Run(s, before).trace + [Wrote(Latched(ordinal, status))] <= end.trace
  {
    var mid := Run(s, before);
    assert before + [e] + after == before + ([e] + after);
    RunInTwo(s, before, [e] + after);
    assert ([e] + after)[1..] == after;
    StopsExactly(mid, e);
    StoppedIsFrozen(Next(mid, e), after);
  }

  /** The event that wrote a line: an honest body for a completed one, a bad end for a latched one. */
  ghost predicate Writes(s: State, events: seq<Event>, k: int, line: Line) {
    && 0 <= k < |events|
    && match line
       case Reserved(o) => events[k] == Call
       case Completed(o, i, out) => exists body :: events[k] == BodyRead(o, body) && Honest(body, i, out)
       case Latched(o, status) => Ends(Run(s, events[..k]), events[k], o, status)
  }

  lemma NextWrites(s: State, e: Event)
    ensures var t := Next(s, e);
            && s.trace <= t.trace
            && forall i :: |s.trace| <= i < |t.trace| && t.trace[i].Wrote? ==> Writes(s, [e], 0, t.trace[i].line)
  {
    var t := Next(s, e);
    assert [e][..0] == [];
    forall i | |s.trace| <= i < |t.trace| && t.trace[i].Wrote? ensures Writes(s, [e], 0, t.trace[i].line) {
      if !t.stopped {
        RunsOn(s, e);
      } else {
        StopsExactly(s, e);
        LateWrite(s, e, i);
      }
    }
  }

  /** A stopped guard still books or latches the calls in flight. */
  lemma LateWrite(s: State, e: Event, i: nat)
    requires |s.trace| <= i < |Next(s, e).trace| && Next(s, e).stopped
    requires Next(s, e).trace[i].Wrote?
    ensures Writes(s, [e], 0, Next(s, e).trace[i].line)
  {
    assert [e][..0] == [];
    if e.BodyRead? && Refusal(e.body).None? {
      assert Honest(e.body, e.body.inputTokens.value, e.body.outputTokens.value);
    }
  }

  /** Each line of a schedule's ledger was written by such an event; nothing else is ever completed or latched. */
  lemma {:induction false} LinesAreEarned(s: State, events: seq<Event>)
    ensures var end := Run(s, events);
            && s.trace <= end.trace
            && forall i :: |s.trace| <= i < |end.trace| && end.trace[i].Wrote? ==>
                 exists k :: Writes(s, events, k, end.trace[i].line)
    decreases |events|
  {
    if events != [] {
      var next, rest := Next(s, events[0]), events[1..];
      NextWrites(s, events[0]);
      LinesAreEarned(next, rest);
      var end := Run(next, rest);
      forall i | |s.trace| <= i < |end.trace| && end.trace[i].Wrote?
        ensures exists k :: Writes(s, events, k, end.trace[i].line)
      {
        if i < |next.trace| {
          assert end.trace[i] == next.trace[i];
          FirstWrites(s, events, end.trace[i].line);
        } else {
          var k :| Writes(next, rest, k, end.trace[i].line);
          LaterWrites(s, events, k, end.trace[i].line);
        }
      }
    }
  }

  lemma FirstWrites(s: State, events: seq<Event>, line: Line)
    requires events != [] && Writes(s, [events[0]], 0, line)
    ensures Writes(s, events, 0, line)
  {
    assert [events[0]][..0] == events[..0];
  }

  lemma LaterWrites(s: State, events: seq<Event>, k: int, line: Line)
    requires events != [] && Writes(Next(s, events[0]), events[1..], k, line)
    ensures Writes(s, events, k + 1, line)
  {
    assert events[..k + 1][1..] == events[1..][..k] && events[..k + 1][0] == events[0];
  }
}
