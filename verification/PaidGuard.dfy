/**
 * The paid-attempt guard (scripts/dream-route-proof-budget.ts): a write-ahead
 * ledger under interleaved calls. A guarded call is the synchronous segments
 * between its awaits; any schedule of segments of any number of calls is a list
 * of events. Tokens are whole, and a ledger append does not fail.
 */
module PaidGuard {
  import opened Wrappers
  import opened Sorting
  import opened Projections

  const PAID_MODEL := "jev-1.13.0"
  const MAX_PAID_ATTEMPTS: nat := 100
  const MAX_INPUT_TOKENS: nat := 64_000
  const INPUT_USD_PER_TOKEN: real := 0.042 / 1_000_000.0
  const RESERVED_USD_PER_ATTEMPT: real := (MAX_INPUT_TOKENS as real) * INPUT_USD_PER_TOKEN

  datatype Line =
    | Reserved(ordinal: nat)
    | Completed(ordinal: nat, inputTokens: nat, outputTokens: nat)
    | Latched(ordinal: nat, status: string)

  /** What the guard did to the outside, in order: ledger lines and physical sends. */
  datatype Effect = Wrote(line: Line) | Sent(ordinal: nat)

  datatype Phase = InTransit | ReadingBody

  /** A token count is absent when the field is missing or not an integer. */
  datatype Body =
    | Malformed
    | NoUsage
    | Fields(model: string, inputTokens: Option<int>, outputTokens: Option<int>)

  datatype Event =
    | Call
    | TransportFailed(ordinal: nat)
    | Responded(ordinal: nat, ok: bool, status: string)
    | BodyRead(ordinal: nat, body: Body)

  datatype State = State(
    cap: nat, attempts: nat, stopped: bool, reportedInputTokens: nat,
    trace: seq<Effect>, inFlight: map<nat, Phase>)

  function Fresh(cap: nat): State { State(cap, 0, false, 0, [], map[]) }

  predicate ValidUsage(input: Option<int>, output: Option<int>) {
    input.Some? && output.Some? && 0 <= input.value <= MAX_INPUT_TOKENS && 0 <= output.value
  }

  function Latch(s: State, ordinal: nat, status: string): State {
    s.(stopped := true, trace := s.trace + [Wrote(Latched(ordinal, status))], inFlight := s.inFlight - {ordinal})
  }

  function Book(s: State, ordinal: nat, inputTokens: nat, outputTokens: nat): State {
    s.(reportedInputTokens := s.reportedInputTokens + inputTokens,
       trace := s.trace + [Wrote(Completed(ordinal, inputTokens, outputTokens))],
       inFlight := s.inFlight - {ordinal})
  }

  /** The status a body that is not paid for honestly is latched under. */
  function Refusal(body: Body): Option<string> {
    match body
    case Malformed => Some("malformed_response")
    case NoUsage => Some("malformed_usage")
    case Fields(model, input, output) =>
      if model == PAID_MODEL && ValidUsage(input, output) then None
      else Some(if model == PAID_MODEL then "malformed_usage" else "model_mismatch")
  }

  /** One segment. An event for a call that is not in that phase does not happen. */
  function Next(s: State, e: Event): State {
    match e
    case Call =>
      if s.stopped then s
      else if s.attempts >= s.cap then s.(stopped := true)
      else
        var ordinal := s.attempts + 1;
        s.(attempts := ordinal, trace := s.trace + [Wrote(Reserved(ordinal)), Sent(ordinal)],
           inFlight := s.inFlight[ordinal := InTransit])
    case TransportFailed(ordinal) =>
      if ordinal !in s.inFlight || s.inFlight[ordinal] != InTransit then s
      else Latch(s, ordinal, "transport_failure")
    case Responded(ordinal, ok, status) =>
      if ordinal !in s.inFlight || s.inFlight[ordinal] != InTransit then s
      else if !ok then Latch(s, ordinal, "http_" + status)
      else s.(inFlight := s.inFlight[ordinal := ReadingBody])
    case BodyRead(ordinal, body) =>
      if ordinal !in s.inFlight || s.inFlight[ordinal] != ReadingBody then s
      else if Refusal(body).Some? then Latch(s, ordinal, Refusal(body).value)
      else
        Book(s, ordinal, body.inputTokens.value, body.outputTokens.value)
  }

  function Run(s: State, events: seq<Event>): State
    decreases |events|
  {
    if events == [] then s else Run(Next(s, events[0]), events[1..])
  }

  // --- The guard itself, segment by segment ---

  class Guard {
    const cap: nat
    var attempts: nat
    var stopped: bool
    var reportedInputTokens: nat
    var ledger: seq<Line>
    ghost var trace: seq<Effect>
    ghost var inFlight: map<nat, Phase>

    ghost function View(): State
      reads this
    {
      State(cap, attempts, stopped, reportedInputTokens, trace, inFlight)
    }

    /** The ledger file is the written part of the trace. */
    ghost predicate LedgerMatches()
      reads this
    {
      ledger == KeysOf(trace, WrittenLine)
    }

    constructor (maxAttempts: nat)
      ensures View() == Fresh(maxAttempts) && LedgerMatches()
    {
      cap, attempts, stopped, reportedInputTokens, ledger := maxAttempts, 0, false, 0, [];
      trace, inFlight := [], map[];
    }

    method Append(line: Line)
      requires LedgerMatches()
      modifies this`ledger, this`trace
      ensures LedgerMatches() && trace == old(trace) + [Wrote(line)]
    {
      KeysOfAppend(trace, Wrote(line), WrittenLine);
      ledger := ledger + [line];
      trace := trace + [Wrote(line)];
    }

    method LatchCall(ordinal: nat, status: string)
      requires LedgerMatches()
      modifies this
      ensures LedgerMatches() && View() == Latch(old(View()), ordinal, status)
    {
      stopped := true;
      Append(Latched(ordinal, status));
      assert trace == old(trace) + [Wrote(Latched(ordinal, status))];
      inFlight := inFlight - {ordinal};
      assert inFlight == old(inFlight) - {ordinal};
    }

    /** Reserves the next ordinal in the ledger, before anything is sent. */
    method Reserve() returns (r: Result<nat, string>)
      requires LedgerMatches()
      modifies this
      ensures LedgerMatches() && trace == old(trace) + (if r.Ok? then [Wrote(Reserved(r.value))] else [])
      ensures attempts == old(attempts) + (if r.Ok? then 1 else 0) && (r.Ok? ==> r.value == attempts)
      ensures r.Ok? <==> !old(stopped) && old(attempts) < cap
      ensures stopped == !r.Ok?
      ensures reportedInputTokens == old(reportedInputTokens) && inFlight == old(inFlight)
    {
      if stopped { return Err("paid V1 stopped after an ambiguous attempt"); }
      if attempts >= cap {
        stopped := true;
        return Err("paid V1 physical-attempt cap reached");
      }
      attempts := attempts + 1;
      Append(Reserved(attempts));
      return Ok(attempts);
    }

    method Begin() returns (r: Result<nat, string>)
      requires LedgerMatches()
      modifies this
      ensures LedgerMatches() && View() == Next(old(View()), Call)
      ensures r.Ok? <==> trace != old(trace)
    {
      r := Reserve();
      if r.Ok? {
        KeysOfAppend(trace, Sent(r.value), WrittenLine);
        trace := trace + [Sent(r.value)];
        inFlight := inFlight[r.value := InTransit];
        assert trace == old(trace) + [Wrote(Reserved(r.value)), Sent(r.value)];
      }
    }

    method OnTransportFailure(ordinal: nat)
      requires LedgerMatches() && ordinal in inFlight && inFlight[ordinal] == InTransit
      modifies this
      ensures LedgerMatches() && View() == Next(old(View()), TransportFailed(ordinal))
    {
      LatchCall(ordinal, "transport_failure");
    }

    method OnResponse(ordinal: nat, ok: bool, status: string)
      requires LedgerMatches() && ordinal in inFlight && inFlight[ordinal] == InTransit
      modifies this
      ensures LedgerMatches() && View() == Next(old(View()), Responded(ordinal, ok, status))
    {
      if !ok {
        LatchCall(ordinal, "http_" + status);
        return;
      }
      inFlight := inFlight[ordinal := ReadingBody];
    }

    /** Books a call whose model and usage are valid. */
    method Complete(ordinal: nat, inputTokens: nat, outputTokens: nat)
      requires LedgerMatches()
      modifies this
      ensures LedgerMatches() && View() == Book(old(View()), ordinal, inputTokens, outputTokens)
    {
      reportedInputTokens := reportedInputTokens + inputTokens;
      Append(Completed(ordinal, inputTokens, outputTokens));
      assert trace == old(trace) + [Wrote(Completed(ordinal, inputTokens, outputTokens))];
      inFlight := inFlight - {ordinal};
      assert inFlight == old(inFlight) - {ordinal};
    }

    method OnBody(ordinal: nat, body: Body)
      requires LedgerMatches() && ordinal in inFlight && inFlight[ordinal] == ReadingBody
      modifies this
      ensures LedgerMatches() && View() == Next(old(View()), BodyRead(ordinal, body))
    {
      BodyLeads(View(), ordinal, body);
      match body {
        case Malformed => LatchCall(ordinal, "malformed_response");
        case NoUsage => LatchCall(ordinal, "malformed_usage");
        case Fields(model, input, output) =>
          if model != PAID_MODEL || !ValidUsage(input, output) {
            LatchCall(ordinal, if model == PAID_MODEL then "malformed_usage" else "model_mismatch");
            return;
          }
          Complete(ordinal, input.value, output.value);
      }
    }
  }

  lemma BodyLeads(s: State, ordinal: nat, body: Body)
    requires ordinal in s.inFlight && s.inFlight[ordinal] == ReadingBody
    ensures Next(s, BodyRead(ordinal, body)) ==
            match Refusal(body)
            case Some(status) => Latch(s, ordinal, status)
            case None => Book(s, ordinal, body.inputTokens.value, body.outputTokens.value)
  {
  }

  /** Where the ledger would go: an absolute path or not, where a new file can be created or not. */
  datatype LedgerPath = LedgerPath(absolute: bool, creatable: bool)

  /** Opens a guard, refusing a cap outside 1..100, a relative path, and a file that is already there. */
  method CreatePaidAttemptGuard(path: LedgerPath, maxAttempts: int) returns (r: Result<Guard, string>)
    ensures r.Ok? <==> 1 <= maxAttempts <= 100 && path.absolute && path.creatable
    ensures r.Ok? ==> fresh(r.value) && r.value.View() == Fresh(maxAttempts) && r.value.LedgerMatches()
  {
    if maxAttempts < 1 || maxAttempts > MAX_PAID_ATTEMPTS { return Err("paid V1 max attempts must be 1-100"); }
    if !path.absolute { return Err("paid ledger path must be absolute"); }
    if !path.creatable { return Err("paid ledger already exists or cannot be created; restart refused"); }
    var guard := new Guard(maxAttempts);
    return Ok(guard);
  }

  // --- The invariant of every schedule ---

  function WrittenLine(e: Effect): Option<Line> {
    if e.Wrote? then Some(e.line) else None
  }

  function ReservedOrdinal(e: Effect): Option<nat> {
    if e.Wrote? && e.line.Reserved? then Some(e.line.ordinal) else None
  }

  function SentOrdinal(e: Effect): Option<nat> {
    if e.Sent? then Some(e.ordinal) else None
  }

  function TerminalOrdinal(e: Effect): Option<nat> {
    if e.Wrote? && !e.line.Reserved? then Some(e.line.ordinal) else None
  }

  function CompletedTokens(e: Effect): Option<nat> {
    if e.Wrote? && e.line.Completed? then Some(e.line.inputTokens) else None
  }

  function Sum(s: seq<nat>): nat {
    if s == [] then 0 else Sum(s[..|s| - 1]) + s[|s| - 1]
  }

  /** 1, 2, ..., n. */
  function UpTo(n: nat): seq<nat> {
    seq(n, i requires 0 <= i < n => i + 1)
  }

  ghost predicate ReservedBefore(trace: seq<Effect>, i: int, ordinal: nat) {
    exists j :: 0 <= j < i && j < |trace| && trace[j] == Wrote(Reserved(ordinal))
  }

  /** Sends and terminal lines come after their reserved line; nothing is sent once a line is latched. */
  ghost predicate WriteAhead(trace: seq<Effect>) {
    && (forall i :: 0 <= i < |trace| && trace[i].Sent? ==> ReservedBefore(trace, i, trace[i].ordinal))
    && (forall i :: 0 <= i < |trace| && TerminalOrdinal(trace[i]).Some? ==>
          ReservedBefore(trace, i, TerminalOrdinal(trace[i]).value))
    && (forall i, j :: 0 <= i < j < |trace| && trace[i].Wrote? && trace[i].line.Latched? ==> !trace[j].Sent?)
  }

  /** Each ordinal up to `attempts` is reserved once, sent once, and either in flight or settled once. */
  ghost predicate Ordinals(s: State) {
    var settled := KeysOf(s.trace, TerminalOrdinal);
    && KeysOf(s.trace, ReservedOrdinal) == UpTo(s.attempts)
    && KeysOf(s.trace, SentOrdinal) == UpTo(s.attempts)
    && NoDuplicates(settled)
    && (forall o :: o in settled ==> 1 <= o <= s.attempts && o !in s.inFlight)
    && (forall o :: o in s.inFlight ==> 1 <= o <= s.attempts)
    && (forall o :: 1 <= o <= s.attempts && o !in s.inFlight ==> o in settled)
  }

  ghost predicate Tokens(s: State) {
    && s.reportedInputTokens == Sum(KeysOf(s.trace, CompletedTokens))
    && s.reportedInputTokens + 64_000 * |s.inFlight| <= 64_000 * s.attempts
  }

  ghost predicate LatchStops(s: State) {
    forall i :: 0 <= i < |s.trace| && s.trace[i].Wrote? && s.trace[i].line.Latched? ==> s.stopped
  }

  ghost predicate Inv(s: State) {
    s.attempts <= s.cap && Ordinals(s) && WriteAhead(s.trace) && Tokens(s) && LatchStops(s)
  }

  lemma WriteAheadAppend(trace: seq<Effect>, e: Effect)
    requires WriteAhead(trace)
    requires e.Sent? ==> ReservedBefore(trace, |trace|, e.ordinal)
    requires e.Sent? ==> forall i :: 0 <= i < |trace| ==> !(trace[i].Wrote? && trace[i].line.Latched?)
    requires TerminalOrdinal(e).Some? ==> ReservedBefore(trace, |trace|, TerminalOrdinal(e).value)
    ensures WriteAhead(trace + [e])
  {
    forall i, o | 0 <= i <= |trace| && ReservedBefore(trace, i, o) ensures ReservedBefore(trace + [e], i, o) {
      var j :| 0 <= j < i && j < |trace| && trace[j] == Wrote(Reserved(o));
      assert (trace + [e])[j] == trace[j];
    }
    assert forall i :: 0 <= i < |trace| ==> (trace + [e])[i] == trace[i];
  }

  lemma ReservedInTrace(s: State, ordinal: nat)
    requires Ordinals(s) && 1 <= ordinal <= s.attempts
    ensures ReservedBefore(s.trace, |s.trace|, ordinal)
  {
    assert UpTo(s.attempts)[ordinal - 1] == ordinal;
    KeysOfMember(s.trace, ReservedOrdinal, ordinal);
    var e :| e in s.trace && ReservedOrdinal(e) == Some(ordinal);
    var j :| 0 <= j < |s.trace| && s.trace[j] == e;
  }

  /** What a call appends to every projection of the trace. */
  lemma CallKeys(trace: seq<Effect>, ordinal: nat)
    ensures var t := trace + [Wrote(Reserved(ordinal)), Sent(ordinal)];
            && KeysOf(t, ReservedOrdinal) == KeysOf(trace, ReservedOrdinal) + [ordinal]
            && KeysOf(t, SentOrdinal) == KeysOf(trace, SentOrdinal) + [ordinal]
            && KeysOf(t, TerminalOrdinal) == KeysOf(trace, TerminalOrdinal)
            && KeysOf(t, CompletedTokens) == KeysOf(trace, CompletedTokens)
  {
    var r := trace + [Wrote(Reserved(ordinal))];
    assert trace + [Wrote(Reserved(ordinal)), Sent(ordinal)] == r + [Sent(ordinal)];
    AppendKeys(trace, Wrote(Reserved(ordinal)));
    AppendKeys(r, Sent(ordinal));
  }

  lemma AppendKeys(trace: seq<Effect>, e: Effect)
    ensures KeysOf(trace + [e], ReservedOrdinal)
         == KeysOf(trace, ReservedOrdinal) + (if ReservedOrdinal(e).Some? then [ReservedOrdinal(e).value] else [])
    ensures KeysOf(trace + [e], SentOrdinal)
         == KeysOf(trace, SentOrdinal) + (if SentOrdinal(e).Some? then [SentOrdinal(e).value] else [])
    ensures KeysOf(trace + [e], TerminalOrdinal)
         == KeysOf(trace, TerminalOrdinal) + (if TerminalOrdinal(e).Some? then [TerminalOrdinal(e).value] else [])
    ensures KeysOf(trace + [e], CompletedTokens)
         == KeysOf(trace, CompletedTokens) + (if CompletedTokens(e).Some? then [CompletedTokens(e).value] else [])
  {
    KeysOfAppend(trace, e, ReservedOrdinal);
    KeysOfAppend(trace, e, SentOrdinal);
    KeysOfAppend(trace, e, TerminalOrdinal);
    KeysOfAppend(trace, e, CompletedTokens);
  }

  lemma CallWritesAhead(s: State)
    requires Inv(s) && !s.stopped
    ensures WriteAhead(s.trace + [Wrote(Reserved(s.attempts + 1)), Sent(s.attempts + 1)])
  {
    var ordinal := s.attempts + 1;
    var r := s.trace + [Wrote(Reserved(ordinal))];
    assert s.trace + [Wrote(Reserved(ordinal)), Sent(ordinal)] == r + [Sent(ordinal)];
    WriteAheadAppend(s.trace, Wrote(Reserved(ordinal)));
    assert r[|s.trace|] == Wrote(Reserved(ordinal));
    WriteAheadAppend(r, Sent(ordinal));
  }

  lemma MapShrinks<K, V>(m: map<K, V>, k: K)
    requires k in m
    ensures |m - {k}| == |m| - 1
  {
    assert (m - {k}).Keys == m.Keys - {k};
  }

  lemma CallKeepsOrdinals(s: State)
    requires Ordinals(s) && !s.stopped && s.attempts < s.cap
    ensures Ordinals(Next(s, Call))
  {
    CallKeys(s.trace, s.attempts + 1);
    assert UpTo(s.attempts + 1) == UpTo(s.attempts) + [s.attempts + 1];
  }

  lemma CallKeepsTokens(s: State)
    requires Ordinals(s) && Tokens(s) && !s.stopped && s.attempts < s.cap
    ensures Tokens(Next(s, Call))
  {
    CallKeys(s.trace, s.attempts + 1);
  }

  lemma CallKeepsInv(s: State)
    requires Inv(s)
    ensures Inv(Next(s, Call))
  {
    if !s.stopped && s.attempts < s.cap {
      CallKeepsOrdinals(s);
      CallKeepsTokens(s);
      CallWritesAhead(s);
    }
  }

  /** `t` is `s` after call `ordinal` settled by writing `line`. */
  ghost predicate Settles(s: State, t: State, ordinal: nat, line: Line) {
    && ordinal in s.inFlight && !line.Reserved? && line.ordinal == ordinal
    && (line.Completed? ==> line.inputTokens <= MAX_INPUT_TOKENS)
    && t == State(s.cap, s.attempts, s.stopped || line.Latched?,
                  s.reportedInputTokens + (if line.Completed? then line.inputTokens else 0),
                  s.trace + [Wrote(line)], s.inFlight - {ordinal})
  }

  lemma SettleKeepsOrdinals(s: State, t: State, ordinal: nat, line: Line)
    requires Ordinals(s) && Settles(s, t, ordinal, line)
    ensures Ordinals(t)
  {
    AppendKeys(s.trace, Wrote(line));
    NoDuplicatesAppend(KeysOf(s.trace, TerminalOrdinal), ordinal);
  }

  lemma SettleKeepsTokens(s: State, t: State, ordinal: nat, line: Line)
    requires Tokens(s) && Settles(s, t, ordinal, line)
    ensures Tokens(t)
  {
    KeysOfAppend(s.trace, Wrote(line), CompletedTokens);
    MapShrinks(s.inFlight, ordinal);
    var before := KeysOf(s.trace, CompletedTokens);
    if line.Completed? {
      assert KeysOf(t.trace, CompletedTokens) == before + [line.inputTokens];
    }
  }

  /** Settling a call, by completing or latching it. */
  lemma SettleKeepsInv(s: State, t: State, ordinal: nat, line: Line)
    requires Inv(s) && Settles(s, t, ordinal, line)
    ensures Inv(t)
  {
    SettleKeepsOrdinals(s, t, ordinal, line);
    SettleKeepsTokens(s, t, ordinal, line);
    ReservedInTrace(s, ordinal);
    WriteAheadAppend(s.trace, Wrote(line));
  }

  lemma NextKeepsInv(s: State, e: Event)
    requires Inv(s)
    ensures Inv(Next(s, e))
  {
    var t := Next(s, e);
    match e
    case Call => CallKeepsInv(s);
    case TransportFailed(o) => if t != s { SettleKeepsInv(s, t, o, Latched(o, "transport_failure")); }
    case Responded(o, ok, status) =>
      if t != s && !ok { SettleKeepsInv(s, t, o, Latched(o, "http_" + status)); }
      if t != s && ok { assert t.inFlight.Keys == s.inFlight.Keys; }
    case BodyRead(o, body) =>
      if o in s.inFlight && s.inFlight[o] == ReadingBody { BodyKeepsInv(s, o, body); }
  }

  lemma BodyKeepsInv(s: State, o: nat, body: Body)
    requires Inv(s) && o in s.inFlight && s.inFlight[o] == ReadingBody
    ensures Inv(Next(s, BodyRead(o, body)))
  {
    var t := Next(s, BodyRead(o, body));
    BodyLeads(s, o, body);
    if Refusal(body).Some? {
      SettleKeepsInv(s, t, o, Latched(o, Refusal(body).value));
    } else {
      SettleKeepsInv(s, t, o, Completed(o, body.inputTokens.value, body.outputTokens.value));
    }
  }

  /** Every schedule of any number of guarded calls keeps the ledger honest. */
  lemma {:induction false} EveryScheduleKeepsInv(s: State, events: seq<Event>)
    requires Inv(s)
    ensures Inv(Run(s, events)) && Run(s, events).cap == s.cap
    decreases |events|
  {
    if events != [] {
      NextKeepsInv(s, events[0]);
      EveryScheduleKeepsInv(Next(s, events[0]), events[1..]);
    }
  }

  lemma FreshKeepsInv(cap: nat)
    ensures Inv(Fresh(cap))
  {
  }

  /** The totals the guard reports. */
  function ActualReportedUsd(s: State): real { (s.reportedInputTokens as real) * INPUT_USD_PER_TOKEN }

  function ReservedMaximumUsd(s: State): real { (s.attempts as real) * RESERVED_USD_PER_ATTEMPT }

  lemma InvBoundsCost(s: State)
    requires s.reportedInputTokens <= MAX_INPUT_TOKENS * s.attempts
    ensures ActualReportedUsd(s) <= ReservedMaximumUsd(s)
  {
    var tokens, attempts, most := s.reportedInputTokens as real, s.attempts as real, MAX_INPUT_TOKENS as real;
    assert tokens <= most * attempts;
  }

  /** From a fresh ledger: the cap holds, and actual cost never passes reserved cost. */
  lemma CostIsBounded(cap: nat, events: seq<Event>)
    ensures var s := Run(Fresh(cap), events);
            && |KeysOf(s.trace, SentOrdinal)| == s.attempts <= cap
            && s.reportedInputTokens <= 64_000 * s.attempts
            && ActualReportedUsd(s) <= ReservedMaximumUsd(s)
  {
    FreshKeepsInv(cap);
    EveryScheduleKeepsInv(Fresh(cap), events);
    InvBoundsCost(Run(Fresh(cap), events));
  }

  lemma StoppedNext(s: State, e: Event)
    requires s.stopped
    ensures var n := Next(s, e);
            && n.stopped && n.attempts == s.attempts && s.trace <= n.trace && n.inFlight.Keys <= s.inFlight.Keys
            && KeysOf(n.trace, ReservedOrdinal) == KeysOf(s.trace, ReservedOrdinal)
            && KeysOf(n.trace, SentOrdinal) == KeysOf(s.trace, SentOrdinal)
  {
    var n := Next(s, e);
    if n.trace != s.trace { AppendKeys(s.trace, n.trace[|s.trace|]); }
  }

  /** Once stopped, nothing is reserved or sent again; calls in flight may still settle. */
  lemma {:induction false} StoppedIsFrozen(s: State, events: seq<Event>)
    requires s.stopped
    ensures var t := Run(s, events);
            && t.stopped && t.attempts == s.attempts && s.trace <= t.trace && t.inFlight.Keys <= s.inFlight.Keys
            && KeysOf(t.trace, ReservedOrdinal) == KeysOf(s.trace, ReservedOrdinal)
            && KeysOf(t.trace, SentOrdinal) == KeysOf(s.trace, SentOrdinal)
    decreases |events|
  {
    if events != [] {
      StoppedNext(s, events[0]);
      StoppedIsFrozen(Next(s, events[0]), events[1..]);
    }
  }
}
