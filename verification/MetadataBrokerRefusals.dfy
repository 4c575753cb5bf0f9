/** What a broker session refuses, what a refusal leaves behind, and what each step that is not refused achieves. */
module MetadataBrokerRefusals {
  import opened Options
  import opened AuditTrace
  import opened MetadataBroker
  import opened MetadataBrokerPhases

  // ----- Refusals -----

  /** A session that has failed or completed; a later refusal adds nothing to it. */
  predicate Over(s: State) {
    s.phase == Failing || s.phase == Incomplete || s.phase == Complete
  }

  datatype Test = Test(passes: bool, cause: Predicate)

  /** The tests a named request has to pass, in their order. */
  function Tests(s: State, name: string): seq<Test> {
    [Test(s.phase == Armed, SessionNotArmed),
     Test(s.startedRequests < s.limits.totalRequests, TotalRequestLimit),
     Test(s.activeRequests < s.limits.concurrentRequests, ConcurrentRequestLimit),
     Test(name in s.names || |s.names| < s.limits.uniquePackageNames, UniqueNameLimit),
     Test(s.reservedBytes + s.limits.responseBytes <= s.limits.aggregateResponseBytes, AggregateReservationLimit)]
  }

  /** The cause of the first test that fails. */
  predicate FailsFirst(tests: seq<Test>, cause: Predicate) {
    exists k :: 0 <= k < |tests| && FirstFailing(tests, k) && tests[k].cause == cause
  }

  predicate FirstFailing(tests: seq<Test>, k: nat)
    requires k < |tests|
  {
    !tests[k].passes && forall j :: 0 <= j < k ==> tests[j].passes
  }

  /** The step is refused: for this cause, on behalf of the request with this number if it has one. */
  predicate Refused(s: State, e: Event, cause: Predicate, ordinal: Option<nat>) {
    match e
    case HandleCall(parsed, _) =>
      && ordinal == None
      && if parsed.None? then cause == RequestRouteRejected else FailsFirst(Tests(s, parsed.value), cause)
    case IntentResume(i) =>
      && i < |s.requests| && s.requests[i].frame.IntentSettled? && ordinal == Some(i + 1)
      && if !s.requests[i].frame.durable then cause == RequestIntentNotDurable
         else s.phase != Armed && cause == SessionNotArmed
    case FetchSettled(i, result, _) =>
      && i < |s.requests| && s.requests[i].frame.Fetching? && ordinal == Some(i + 1)
      && if result.FetchFailed? then cause == result.cause
         else if s.phase != Armed || s.aborted then cause == SessionNotArmed
         else cause == Unclassified && s.committedBytes + |result.body| > s.limits.aggregateResponseBytes
    case ResponseResume(i) =>
      && i < |s.requests| && s.requests[i].frame.ResponseSettled? && ordinal == Some(i + 1)
      && if !s.requests[i].frame.durable then cause == ResponseValidationNotDurable
         else s.phase != Armed && cause == SessionNotArmed
    case CompleteCall =>
      && ordinal == None && cause == BrokerIncomplete
      && !(s.phase == Armed && s.activeRequests == 0 && s.entries != [] && |s.entries| == s.startedRequests)
    case AbortCall => ordinal == None && cause == ListenerRequestRejected
    case _ => false
  }

  ghost predicate IsRefused(s: State, e: Event) {
    exists cause, ordinal :: Refused(s, e, cause, ordinal)
  }

  /** Nothing but the session's outcome and the frames of its requests has changed. */
  predicate SameAccount(s: State, t: State) {
    && t.limits == s.limits && t.leaseUsed == s.leaseUsed && t.arm == s.arm && t.names == s.names
    && t.entries == s.entries && t.startedRequests == s.startedRequests && t.activeRequests == s.activeRequests
    && t.reservedBytes == s.reservedBytes && t.committedBytes == s.committedBytes && t.claimed == s.claimed
    && t.claims == s.claims && t.ledgers == s.ledgers && t.gate == s.gate && |t.requests| == |s.requests|
  }

  /** The session fails: aborted, with one more summary, of this cause and of the counts as they were. */
  predicate FailsSession(s: State, t: State, cause: Predicate, ordinal: Option<nat>) {
    && t.phase == Failing && t.aborted && |t.failures| == |s.failures| + 1 && s.failures <= t.failures
    && t.failures[|s.failures|].summary ==
       Failure(cause, ordinal, s.startedRequests, s.activeRequests, |s.entries|, s.committedBytes)
    && !t.failures[|s.failures|].settled && SameAccount(s, t)
  }

  predicate SameSummaries(s: State, t: State) {
    && |t.failures| == |s.failures|
    && forall k :: 0 <= k < |s.failures| ==> t.failures[k].summary == s.failures[k].summary
  }

  /** A request that was refused waits to return; the others are as they were. */
  predicate Unwinds(s: State, t: State, ordinal: Option<nat>)
    requires |t.requests| == |s.requests|
  {
    forall k :: 0 <= k < |s.requests| ==>
      t.requests[k] == if ordinal == Some(k + 1) then Request(s.requests[k].packageName, FailEntered) else s.requests[k]
  }

  lemma TestsDecide(s: State, name: string, cause: Predicate)
    ensures FailsFirst(Tests(s, name), cause) <==> ReserveError(s, name) == Some(cause)
    ensures (forall k :: 0 <= k < 5 ==> Tests(s, name)[k].passes) <==> ReserveError(s, name).None?
  {
    var tests := Tests(s, name);
    var k := if !tests[0].passes then 0 else if !tests[1].passes then 1 else if !tests[2].passes then 2
             else if !tests[3].passes then 3 else 4;
    if ReserveError(s, name).Some? {
      assert FirstFailing(tests, k) && ReserveError(s, name) == Some(tests[k].cause);
    }
    if FailsFirst(tests, cause) {
      var first :| 0 <= first < |tests| && FirstFailing(tests, first) && tests[first].cause == cause;
      assert k == first;
    }
  }

  lemma EnterFailFails(s: State, cause: Predicate, ordinal: Option<nat>, owner: Option<nat>)
    requires !Over(s)
    ensures FailsSession(s, EnterFail(s, cause, ordinal, owner), cause, ordinal)
    ensures EnterFail(s, cause, ordinal, owner).requests == s.requests
  {
  }

  lemma FailRequestFails(s: State, i: nat, cause: Predicate)
    requires i < |s.requests|
    ensures !Over(s) ==> FailsSession(s, FailRequest(s, i, cause), cause, Some(i + 1))
    ensures Over(s) ==> FailRequest(s, i, cause) == s.(requests := FailRequest(s, i, cause).requests)
    ensures |FailRequest(s, i, cause).requests| == |s.requests| && Unwinds(s, FailRequest(s, i, cause), Some(i + 1))
  {
  }

  lemma RequestRefusalFails(s: State, e: Event, cause: Predicate, ordinal: Option<nat>)
    requires Refused(s, e, cause, ordinal) && (e.IntentResume? || e.FetchSettled? || e.ResponseResume?)
    ensures Next(s, e) == FailRequest(s, e.request, cause) && ordinal == Some(e.request + 1)
  {
  }

  /** A refusal ends a session that is not over, with exactly one summary; it leaves nothing but the frame otherwise. */
  lemma RefusalFails(s: State, e: Event, cause: Predicate, ordinal: Option<nat>)
    requires Refused(s, e, cause, ordinal)
    ensures var t := Next(s, e);
            && (!Over(s) ==> FailsSession(s, t, cause, ordinal))
            && (Over(s) ==> t == s.(requests := t.requests))
            && |t.requests| == |s.requests| && Unwinds(s, t, ordinal)
  {
    if e.IntentResume? || e.FetchSettled? || e.ResponseResume? {
      RequestRefusalFails(s, e, cause, ordinal);
      FailRequestFails(s, e.request, cause);
    } else if e.HandleCall? && e.parsed.Some? {
      TestsDecide(s, e.parsed.value, cause);
    }
  }

  // ----- Steps that are not refused -----

  /** The gate takes a record of this size. */
  predicate GateTakes(gate: Gate, valid: bool, bytes: nat) {
    && !gate.terminal && valid && bytes <= 4096 && |gate.records| < 1024 && gate.payloadBytes + bytes <= 2_097_152
  }

  predicate NowIn(s: State, t: State, i: nat, frame: Frame) {
    i < |s.requests| && t.requests == s.requests[i := Request(s.requests[i].packageName, frame)]
  }

  predicate Asleep(s: State, i: nat, e: Event) {
    i >= |s.requests|
    || match e
       case IntentAppendSettled(_, _) => !s.requests[i].frame.IntentAppending?
       case IntentResume(_) => !s.requests[i].frame.IntentSettled?
       case FetchSettled(_, _, _) => !s.requests[i].frame.Fetching?
       case ResponseAppendSettled(_, _) => !s.requests[i].frame.ResponseAppending?
       case ResponseResume(_) => !s.requests[i].frame.ResponseSettled?
       case _ => false
  }

  /** A new request is counted, charged one full response, and its intent is handed to the gate. */
  predicate Admitted(s: State, t: State, name: string, bytes: nat) {
    && t == s.(startedRequests := s.startedRequests + 1, activeRequests := s.activeRequests + 1,
               reservedBytes := s.reservedBytes + s.limits.responseBytes, names := s.names + {name},
               requests := t.requests)
    && t.requests == s.requests + [Request(name, if GateTakes(s.gate, SafeName(name), bytes) then IntentAppending(bytes)
                                                 else IntentSettled(false))]
  }

  /** An intent or a response is on record exactly when the sink accepted it. */
  predicate Recorded(s: State, t: State, i: nat, accepted: bool, record: Record, bytes: nat, frame: Frame) {
    && t == s.(requests := t.requests, gate := t.gate) && NowIn(s, t, i, frame)
    && t.gate == if accepted then Gate(s.gate.records + [record], s.gate.payloadBytes + bytes, s.gate.terminal)
                 else s.gate
  }

  /** The entry is stored under the request's number, and the reservation shrinks to the response. */
  predicate Stored(s: State, t: State, i: nat, body: Body, nextCommitted: nat) {
    && NowIn(s, t, i, Returned(true))
    && t == s.(requests := t.requests, entries := s.entries + [Entry(i + 1, s.requests[i].packageName, body)],
               committedBytes := nextCommitted, activeRequests := s.activeRequests - 1,
               reservedBytes := s.reservedBytes - s.limits.responseBytes + |body|, lostUpdate := t.lostUpdate)
  }

  /** What a step of the requests achieves when it is not refused. */
  predicate Proceeds(s: State, e: Event, t: State) {
    match e
    case HandleCall(parsed, bytes) => parsed.Some? && Admitted(s, t, parsed.value, bytes)
    case IntentAppendSettled(i, accepted) =>
      if Asleep(s, i, e) then t == s
      else Recorded(s, t, i, accepted, RequestRecord(i + 1, s.requests[i].packageName), s.requests[i].frame.bytes,
                    IntentSettled(accepted))
    case IntentResume(i) =>
      if Asleep(s, i, e) then t == s else t == s.(requests := t.requests) && NowIn(s, t, i, Fetching)
    case FetchSettled(i, result, bytes) =>
      if Asleep(s, i, e) then t == s
      else
        && t == s.(requests := t.requests) && result.Fetched?
        && var total := s.committedBytes + |result.body|;
           NowIn(s, t, i,
                 if GateTakes(s.gate, SafeName(s.requests[i].packageName) && 1 <= |result.body| <= 8_388_608, bytes)
                 then ResponseAppending(result.body, total, bytes) else ResponseSettled(result.body, total, false))
    case ResponseAppendSettled(i, accepted) =>
      if Asleep(s, i, e) then t == s
      else
        var f := s.requests[i].frame;
        Recorded(s, t, i, accepted, ResponseRecord(i + 1, s.requests[i].packageName, |f.body|), f.bytes,
                 ResponseSettled(f.body, f.nextCommitted, accepted))
    case ResponseResume(i) =>
      if Asleep(s, i, e) then t == s
      else Stored(s, t, i, s.requests[i].frame.body, s.requests[i].frame.nextCommitted)
    case CompleteCall =>
      t == s.(phase := Complete, ledgers := t.ledgers)
      && t.ledgers == s.ledgers + [Ledger(s.startedRequests, |s.names|, s.committedBytes, SortBySequence(s.entries))]
    case _ => SettlesOrArms(s, e, t)
  }

  /** The lease is consumed once, on a disarmed session; arming and the callback of a failure settle as they may. */
  predicate SettlesOrArms(s: State, e: Event, t: State) {
    match e
    case ArmCall(leaseAccepted, bytes) =>
      if s.phase != Disarmed || s.leaseUsed || !leaseAccepted then t == s
      else t == s.(leaseUsed := true,
                   arm := if GateTakes(s.gate, true, bytes) then ArmAppending(bytes) else ArmSettled(false))
    case ArmResume =>
      if s.arm == ArmSettled(true) then t == s.(phase := Armed, arm := ArmReturned(true), armedOver := t.armedOver)
      else t == s.(arm := t.arm) && (s.arm != ArmSettled(false) ==> t.arm == s.arm)
    case FailureCallbackSettled(k) =>
      if k < |s.failures| && !s.failures[k].settled
      then t == s.(phase := Incomplete, failures := t.failures) && SameSummaries(s, t) && t.failures[k].settled
      else t == s
    case FailResume(i) =>
      if i < |s.requests| && s.requests[i].frame.FailEntered?
         && forall k :: 0 <= k < |s.failures| && s.failures[k].owner == Some(i) ==> s.failures[k].settled
      then t == s.(requests := t.requests, activeRequests := s.activeRequests - 1) && NowIn(s, t, i, Returned(false))
      else t == s
    case _ => true
  }

  lemma RefusedBecause(s: State, e: Event, cause: Predicate, ordinal: Option<nat>)
    requires Refused(s, e, cause, ordinal)
    ensures IsRefused(s, e)
  {
  }

  ghost predicate RefusedOrProceeds(s: State, e: Event) {
    IsRefused(s, e) || Proceeds(s, e, Next(s, e))
  }

  lemma HandleProceeds(s: State, parsed: Option<string>, bytes: nat)
    ensures RefusedOrProceeds(s, HandleCall(parsed, bytes))
  {
    if parsed.None? {
      RefusedBecause(s, HandleCall(parsed, bytes), RequestRouteRejected, None);
    } else if ReserveError(s, parsed.value).Some? {
      TestsDecide(s, parsed.value, ReserveError(s, parsed.value).value);
      RefusedBecause(s, HandleCall(parsed, bytes), ReserveError(s, parsed.value).value, None);
    }
  }

  lemma FetchProceeds(s: State, i: nat, result: FetchResult, bytes: nat)
    ensures RefusedOrProceeds(s, FetchSettled(i, result, bytes))
  {
    var e := FetchSettled(i, result, bytes);
    if !Asleep(s, i, e) {
      if result.FetchFailed? {
        RefusedBecause(s, e, result.cause, Some(i + 1));
      } else if s.phase != Armed || s.aborted {
        RefusedBecause(s, e, SessionNotArmed, Some(i + 1));
      } else if Overflows(s, result.body) {
        RefusedBecause(s, e, Unclassified, Some(i + 1));
      }
    }
  }

  lemma IntentProceeds(s: State, i: nat)
    ensures RefusedOrProceeds(s, IntentResume(i))
  {
    if !Asleep(s, i, IntentResume(i)) {
      if !s.requests[i].frame.durable {
        RefusedBecause(s, IntentResume(i), RequestIntentNotDurable, Some(i + 1));
      } else if s.phase != Armed {
        RefusedBecause(s, IntentResume(i), SessionNotArmed, Some(i + 1));
      }
    }
  }

  lemma ResponseProceeds(s: State, i: nat)
    ensures RefusedOrProceeds(s, ResponseResume(i))
  {
    if !Asleep(s, i, ResponseResume(i)) {
      if !s.requests[i].frame.durable {
        RefusedBecause(s, ResponseResume(i), ResponseValidationNotDurable, Some(i + 1));
      } else if s.phase != Armed {
        RefusedBecause(s, ResponseResume(i), SessionNotArmed, Some(i + 1));
      }
    }
  }

  lemma IntentAppendProceeds(s: State, i: nat, accepted: bool)
    ensures Proceeds(s, IntentAppendSettled(i, accepted), Next(s, IntentAppendSettled(i, accepted)))
  {
  }

  lemma ResponseAppendProceeds(s: State, i: nat, accepted: bool)
    ensures Proceeds(s, ResponseAppendSettled(i, accepted), Next(s, ResponseAppendSettled(i, accepted)))
  {
  }

  lemma CompletionProceeds(s: State)
    ensures RefusedOrProceeds(s, CompleteCall)
  {
    if !Completable(s) {
      RefusedBecause(s, CompleteCall, BrokerIncomplete, None);
    }
  }

  lemma OtherProceeds(s: State, e: Event)
    requires e.ArmCall? || e.ArmAppendSettled? || e.ArmResume? || e.FailureCallbackSettled? || e.FailResume?
    ensures SettlesOrArms(s, e, Next(s, e))
  {
  }

  /** Every step of a request, or of completion, that is not refused does what it is for. */
  lemma UnrefusedProceeds(s: State, e: Event)
    ensures RefusedOrProceeds(s, e)
  {
    match e
    case HandleCall(parsed, bytes) => HandleProceeds(s, parsed, bytes);
    case IntentResume(i) => IntentProceeds(s, i);
    case FetchSettled(i, result, bytes) => FetchProceeds(s, i, result, bytes);
    case ResponseResume(i) => ResponseProceeds(s, i);
    case IntentAppendSettled(i, accepted) => IntentAppendProceeds(s, i, accepted);
    case ResponseAppendSettled(i, accepted) => ResponseAppendProceeds(s, i, accepted);
    case CompleteCall => CompletionProceeds(s);
    case AbortCall =>
    case ClaimCall =>
    case OtherRecord(_, _) =>
    case TerminalPrepared =>
    case _ => OtherProceeds(s, e);
  }

  /** Only refusals add summaries. */
  lemma OnlyRefusalsFail(s: State, e: Event)
    ensures IsRefused(s, e) || SameSummaries(s, Next(s, e))
  {
    UnrefusedProceeds(s, e);
    if e == AbortCall {
      RefusedBecause(s, e, ListenerRequestRejected, None);
    }
  }

  /** What every step of the machine comes to. */
  ghost predicate StepTold(s: State, e: Event, t: State) {
    && (forall cause, ordinal :: Refused(s, e, cause, ordinal) ==>
          if Over(s) then t == s.(requests := t.requests) else FailsSession(s, t, cause, ordinal))
    && (!IsRefused(s, e) ==> Proceeds(s, e, t) && SameSummaries(s, t))
  }

  lemma EveryStepIsTold(s: State, e: Event)
    ensures StepTold(s, e, Next(s, e))
  {
    forall cause, ordinal | Refused(s, e, cause, ordinal)
      ensures if Over(s) then Next(s, e) == s.(requests := Next(s, e).requests)
              else FailsSession(s, Next(s, e), cause, ordinal) {
      RefusalFails(s, e, cause, ordinal);
    }
    UnrefusedProceeds(s, e);
    OnlyRefusalsFail(s, e);
  }

  // ----- Runs -----

  lemma {:induction false} RunSplit(s: State, a: seq<Event>, b: seq<Event>)
    ensures Run(s, a + b) == Run(Run(s, a), b)
    decreases |b|
  {
    if b == [] {
      assert a + b == a;
    } else {
      var front := b[..|b| - 1];
      assert (a + b)[..|a + b| - 1] == a + front;
      RunSplit(s, a, front);
    }
  }

  predicate EndedByFailure(t: State) {
    t.ledgers == [] && t.failures != [] && t.phase != Armed && t.phase != Complete
  }

  /** A refusal in the armed state ends the session: the run ends with that failure, and no ledger follows it. */
  lemma RefusedRunsYieldNoLedger(limits: Limits, gate: Gate, past: seq<Event>, e: Event, future: seq<Event>)
    requires Run(Prepared(limits, gate), past).phase == Armed && IsRefused(Run(Prepared(limits, gate), past), e)
    ensures EndedByFailure(Run(Prepared(limits, gate), past + [e] + future))
  {
    var start := Prepared(limits, gate);
    var s := Run(start, past);
    var cause, ordinal :| Refused(s, e, cause, ordinal);
    RunPhase(start, past);
    RefusalFails(s, e, cause, ordinal);
    RunOne(start, past, e);
    RunPhase(start, past + [e]);
    RunSplit(start, past + [e], future);
    ReachableLeavingIsFinal(limits, gate, past + [e], future);
    RunPhase(start, past + [e] + future);
  }

  lemma CutAround(events: seq<Event>, k: nat)
    requires k < |events|
    ensures events[..k] + [events[k]] + events[k + 1..] == events
  {
  }

  /** So a ledger means that nothing was refused while the session was armed. */
  lemma LedgerMeansNothingRefused(limits: Limits, gate: Gate, events: seq<Event>, k: nat)
    requires k < |events| && Run(Prepared(limits, gate), events).ledgers != []
    requires Run(Prepared(limits, gate), events[..k]).phase == Armed
    ensures !IsRefused(Run(Prepared(limits, gate), events[..k]), events[k])
  {
    CutAround(events, k);
    if IsRefused(Run(Prepared(limits, gate), events[..k]), events[k]) {
      RefusedRunsYieldNoLedger(limits, gate, events[..k], events[k], events[k + 1..]);
    }
  }
}
