/** How a broker session leaves the armed phase: once, for good, with a failure or a ledger but never both. */
module MetadataBrokerPhases {
  import opened Options
  import opened AuditTrace
  import opened MetadataBroker

  predicate ArmedOnce(s: State) {
    s.arm == ArmReturned(true)
  }

  predicate NothingPending(s: State) {
    forall i :: 0 <= i < |s.requests| ==>
      !s.requests[i].frame.ResponseAppending? && !s.requests[i].frame.ResponseSettled?
  }

  /** Before `arm` has returned nothing is admitted, and at most one failure has been recorded. */
  predicate BeforeArmed(s: State) {
    !ArmedOnce(s) ==>
      && s.requests == [] && s.entries == [] && s.ledgers == []
      && s.phase != Armed && s.phase != Complete && !s.armedOver
  }

  predicate LeaseFits(s: State) {
    (s.arm != ArmIdle ==> s.leaseUsed) && (ArmedOnce(s) ==> s.phase != Disarmed)
  }

  predicate FailuresFit(s: State) {
    && |s.failures| <= (if s.armedOver then 2 else 1)
    && (s.failures != [] ==> s.aborted)
    && (s.phase == Disarmed ==> s.failures == [])
    && (s.phase == Failing || s.phase == Incomplete ==> s.failures != [])
  }

  predicate LedgersFit(s: State) {
    && |s.ledgers| <= 1
    && (s.ledgers != [] <==> s.phase == Complete)
    && (s.phase == Complete ==> s.failures == [])
  }

  /** Arming over an earlier failure leaves a session that can commit nothing. */
  predicate ArmedOverFits(s: State) {
    s.phase == Armed && s.failures != [] ==> s.armedOver && |s.failures| == 1 && s.entries == [] && NothingPending(s)
  }

  predicate ClaimsFit(s: State) {
    && (forall k :: k in s.claimed ==> k < |s.failures|)
    && (forall j, k :: 0 <= j < k < |s.claims| ==> s.claims[j] != s.claims[k])
    && (forall k :: 0 <= k < |s.claims| ==> s.claims[k] in s.claimed)
  }

  predicate PhaseInv(s: State) {
    BeforeArmed(s) && LeaseFits(s) && FailuresFit(s) && LedgersFit(s) && ArmedOverFits(s) && ClaimsFit(s)
  }

  lemma FailPhase(s: State, cause: Predicate, ordinal: Option<nat>, owner: Option<nat>)
    requires PhaseInv(s)
    ensures PhaseInv(EnterFail(s, cause, ordinal, owner))
  {
  }

  lemma FramePhase(s: State, i: nat, frame: Frame)
    requires PhaseInv(s) && i < |s.requests|
    requires (frame.ResponseAppending? || frame.ResponseSettled?)
             ==> !s.aborted || s.requests[i].frame.ResponseAppending? || s.requests[i].frame.ResponseSettled?
    ensures PhaseInv(SetFrame(s, i, frame))
  {
    var t := SetFrame(s, i, frame);
    assert forall k :: 0 <= k < |t.requests| && k != i ==> t.requests[k] == s.requests[k];
  }

  lemma FailRequestPhase(s: State, i: nat, cause: Predicate)
    requires PhaseInv(s) && i < |s.requests|
    ensures PhaseInv(FailRequest(s, i, cause))
  {
    FramePhase(s, i, FailEntered);
    FailPhase(SetFrame(s, i, FailEntered), cause, Some(i + 1), Some(i));
  }

  /** The fields the phase invariant speaks about, apart from the request frames. */
  predicate SamePhase(s: State, t: State) {
    && t.phase == s.phase && t.aborted == s.aborted && t.arm == s.arm && t.failures == s.failures
    && t.leaseUsed == s.leaseUsed && t.claimed == s.claimed && t.claims == s.claims && t.ledgers == s.ledgers
    && t.armedOver == s.armedOver
  }

  lemma HandlePhase(s: State, parsed: Option<string>, bytes: nat)
    requires PhaseInv(s)
    ensures PhaseInv(Handle(s, parsed, bytes))
  {
    match parsed
    case None => FailPhase(s, RequestRouteRejected, None, None);
    case Some(name) =>
      match ReserveError(s, name)
      case Some(refusal) => FailPhase(s, refusal, None, None);
      case None =>
        var t := Handle(s, parsed, bytes);
        assert SamePhase(s, t) && t.entries == s.entries;
        assert forall k :: 0 <= k < |s.requests| ==> t.requests[k] == s.requests[k];
  }

  lemma RequestStepPhase(s: State, i: nat, e: Event)
    requires PhaseInv(s) && i < |s.requests|
    requires e.IntentAppendSettled? || e.IntentResume? || e.FailResume?
    requires e.request == i
    ensures PhaseInv(Next(s, e))
  {
    var f := s.requests[i].frame;
    if e.IntentAppendSettled? {
      if f.IntentAppending? {
        FramePhase(s, i, IntentSettled(e.accepted));
      }
    } else if e.IntentResume? {
      if f.IntentSettled? {
        if !f.durable {
          FailRequestPhase(s, i, RequestIntentNotDurable);
        } else if s.phase != Armed {
          FailRequestPhase(s, i, SessionNotArmed);
        } else {
          FramePhase(s, i, Fetching);
        }
      }
    } else {
      FramePhase(s, i, Returned(false));
    }
  }

  lemma FetchPhase(s: State, i: nat, result: FetchResult, bytes: nat)
    requires PhaseInv(s) && i < |s.requests| && s.requests[i].frame.Fetching?
    ensures PhaseInv(SettleFetch(s, i, result, bytes))
  {
    match result
    case FetchFailed(cause) => FailRequestPhase(s, i, cause);
    case Fetched(body) =>
      if s.phase != Armed || s.aborted {
        FailRequestPhase(s, i, SessionNotArmed);
      } else if Overflows(s, body) {
        FailRequestPhase(s, i, Unclassified);
      } else {
        FramePhase(s, i, SettleFetch(s, i, result, bytes).requests[i].frame);
      }
  }

  lemma SettleResponsePhase(s: State, i: nat, accepted: bool)
    requires PhaseInv(s) && i < |s.requests| && s.requests[i].frame.ResponseAppending?
    ensures PhaseInv(SettleResponse(s, i, accepted))
  {
    var f := s.requests[i].frame;
    FramePhase(s, i, ResponseSettled(f.body, f.nextCommitted, accepted));
  }

  lemma ResumeResponsePhase(s: State, i: nat)
    requires PhaseInv(s) && i < |s.requests| && s.requests[i].frame.ResponseSettled?
    ensures PhaseInv(ResumeResponse(s, i))
  {
    if !s.requests[i].frame.durable {
      FailRequestPhase(s, i, ResponseValidationNotDurable);
    } else if s.phase != Armed {
      FailRequestPhase(s, i, SessionNotArmed);
    } else {
      FramePhase(s, i, Returned(true));
      assert s.failures == [];
    }
  }

  lemma ArmStepPhase(s: State, e: Event)
    requires PhaseInv(s) && (e.ArmCall? || e.ArmAppendSettled? || e.ArmResume?)
    ensures PhaseInv(Next(s, e))
  {
  }

  lemma ClaimPhase(s: State)
    requires PhaseInv(s)
    ensures PhaseInv(Claim(s))
  {
  }

  lemma CallbackPhase(s: State, k: nat)
    requires PhaseInv(s)
    ensures PhaseInv(Next(s, FailureCallbackSettled(k)))
  {
  }

  lemma SessionStepPhase(s: State, e: Event)
    requires PhaseInv(s)
    requires e.ArmCall? || e.ArmAppendSettled? || e.ArmResume? || e.FailureCallbackSettled? || e.ClaimCall?
          || e.OtherRecord? || e.TerminalPrepared?
    ensures PhaseInv(Next(s, e))
  {
    if e.ArmCall? || e.ArmAppendSettled? || e.ArmResume? {
      ArmStepPhase(s, e);
    } else if e.ClaimCall? {
      ClaimPhase(s);
    } else if e.FailureCallbackSettled? {
      CallbackPhase(s, e.run);
    }
  }

  lemma StepPhase(s: State, e: Event)
    requires PhaseInv(s)
    ensures PhaseInv(Next(s, e))
  {
    match e
    case HandleCall(parsed, bytes) => HandlePhase(s, parsed, bytes);
    case IntentAppendSettled(i, _) => if i < |s.requests| { RequestStepPhase(s, i, e); }
    case IntentResume(i) => if i < |s.requests| { RequestStepPhase(s, i, e); }
    case FailResume(i) => if i < |s.requests| { RequestStepPhase(s, i, e); }
    case FetchSettled(i, result, bytes) =>
      if i < |s.requests| && s.requests[i].frame.Fetching? { FetchPhase(s, i, result, bytes); }
    case ResponseAppendSettled(i, accepted) =>
      if i < |s.requests| && s.requests[i].frame.ResponseAppending? { SettleResponsePhase(s, i, accepted); }
    case ResponseResume(i) =>
      if i < |s.requests| && s.requests[i].frame.ResponseSettled? { ResumeResponsePhase(s, i); }
    case CompleteCall => if !Completable(s) { FailPhase(s, BrokerIncomplete, None, None); }
    case AbortCall => FailPhase(s, ListenerRequestRejected, None, None);
    case _ => SessionStepPhase(s, e);
  }

  lemma {:induction false} RunPhase(s: State, events: seq<Event>)
    requires PhaseInv(s)
    ensures PhaseInv(Run(s, events))
  {
    if events != [] {
      RunPhase(s, events[..|events| - 1]);
      StepPhase(Run(s, events[..|events| - 1]), events[|events| - 1]);
    }
  }

  // ----- Main results -----

  /** Failure and ledger exclude each other, there is at most one ledger, and no summary is claimed twice. */
  ghost predicate ExclusiveOutcome(s: State) {
    && (s.ledgers == [] || s.failures == [])
    && |s.ledgers| <= 1
    && (forall j, k :: 0 <= j < k < |s.claims| ==> s.claims[j] != s.claims[k])
    && |s.failures| <= 2
    && (!s.armedOver ==> |s.failures| <= 1 && |s.claims| <= 1)
  }

  lemma TwoClaimsNeedTwoFailures(s: State)
    requires ClaimsFit(s) && |s.claims| > 1
    ensures |s.failures| >= 2
  {
    assert s.claims[0] in s.claimed && s.claims[1] in s.claimed;
    assert s.claims[0] != s.claims[1];
  }

  lemma PhaseInvMeansExclusive(s: State)
    requires PhaseInv(s)
    ensures ExclusiveOutcome(s)
  {
    if |s.claims| > 1 { TwoClaimsNeedTwoFailures(s); }
  }

  lemma OutcomesExclude(limits: Limits, gate: Gate, events: seq<Event>)
    ensures ExclusiveOutcome(Run(Prepared(limits, gate), events))
  {
    RunPhase(Prepared(limits, gate), events);
    PhaseInvMeansExclusive(Run(Prepared(limits, gate), events));
  }

  /** What leaving the armed phase freezes. */
  predicate Frozen(s: State, t: State) {
    && t.phase != Armed
    && t.entries == s.entries
    && t.ledgers == s.ledgers
    && t.committedBytes == s.committedBytes
    && t.startedRequests == s.startedRequests
    && (t.failures == [] <==> s.failures == [])
    && (s.phase == Complete ==> t.phase == Complete)
  }

  predicate Left(s: State) {
    s.arm.ArmReturned? && s.phase != Armed && s.phase != Disarmed
  }

  lemma FrozenFailRequest(s: State, i: nat, cause: Predicate)
    requires Left(s) && i < |s.requests|
    ensures Frozen(s, FailRequest(s, i, cause)) && Left(FailRequest(s, i, cause))
  {
  }

  lemma FrozenFetch(s: State, i: nat, result: FetchResult, bytes: nat)
    requires Left(s) && i < |s.requests| && s.requests[i].frame.Fetching?
    ensures Frozen(s, SettleFetch(s, i, result, bytes)) && Left(SettleFetch(s, i, result, bytes))
  {
    FrozenFailRequest(s, i, if result.FetchFailed? then result.cause else SessionNotArmed);
  }

  lemma FrozenResume(s: State, i: nat)
    requires Left(s) && i < |s.requests|
    ensures s.requests[i].frame.IntentSettled? ==> Frozen(s, ResumeIntent(s, i)) && Left(ResumeIntent(s, i))
    ensures s.requests[i].frame.ResponseSettled? ==> Frozen(s, ResumeResponse(s, i)) && Left(ResumeResponse(s, i))
  {
    FrozenFailRequest(s, i, SessionNotArmed);
    FrozenFailRequest(s, i, RequestIntentNotDurable);
    FrozenFailRequest(s, i, ResponseValidationNotDurable);
  }

  lemma FrozenRequestStep(s: State, i: nat, e: Event)
    requires Left(s) && i < |s.requests|
    requires e.IntentAppendSettled? || e.ResponseAppendSettled?
    requires e.request == i
    ensures Frozen(s, Next(s, e)) && Left(Next(s, e))
  {
  }

  lemma FrozenStep(s: State, e: Event)
    requires Left(s) && PhaseInv(s)
    ensures Frozen(s, Next(s, e)) && Left(Next(s, e))
  {
    match e
    case IntentAppendSettled(i, _) => if i < |s.requests| { FrozenRequestStep(s, i, e); }
    case IntentResume(i) => if i < |s.requests| { FrozenResume(s, i); }
    case FetchSettled(i, result, bytes) =>
      if i < |s.requests| && s.requests[i].frame.Fetching? { FrozenFetch(s, i, result, bytes); }
    case ResponseAppendSettled(i, _) => if i < |s.requests| { FrozenRequestStep(s, i, e); }
    case ResponseResume(i) => if i < |s.requests| { FrozenResume(s, i); }
    case _ =>
  }

  lemma FrozenTransitive(s: State, t: State, u: State)
    requires Frozen(s, t) && Frozen(t, u)
    ensures Frozen(s, u)
  {
  }

  /** Once `arm` has returned, leaving the armed phase is final: nothing is admitted or committed again. */
  lemma {:induction false} LeavingArmedIsFinal(s: State, events: seq<Event>)
    requires PhaseInv(s) && Left(s)
    ensures Frozen(s, Run(s, events)) && Left(Run(s, events))
  {
    if events != [] {
      var before := events[..|events| - 1];
      LeavingArmedIsFinal(s, before);
      RunPhase(s, before);
      FrozenStep(Run(s, before), events[|events| - 1]);
      FrozenTransitive(s, Run(s, before), Run(s, events));
    }
  }

  predicate SameArm(s: State, t: State) {
    t.arm == s.arm && t.armedOver == s.armedOver
  }

  lemma FailKeepsArm(s: State, i: nat, cause: Predicate)
    requires i < |s.requests|
    ensures SameArm(s, FailRequest(s, i, cause))
  {
  }

  lemma ResumeKeepsArm(s: State, i: nat)
    requires i < |s.requests|
    ensures s.requests[i].frame.IntentSettled? ==> SameArm(s, ResumeIntent(s, i))
    ensures s.requests[i].frame.ResponseSettled? ==> SameArm(s, ResumeResponse(s, i))
  {
    FailKeepsArm(s, i, SessionNotArmed);
    FailKeepsArm(s, i, RequestIntentNotDurable);
    FailKeepsArm(s, i, ResponseValidationNotDurable);
  }

  lemma FetchKeepsArm(s: State, i: nat, result: FetchResult, bytes: nat)
    requires i < |s.requests| && s.requests[i].frame.Fetching?
    ensures SameArm(s, SettleFetch(s, i, result, bytes))
  {
    FailKeepsArm(s, i, if result.FetchFailed? then result.cause else SessionNotArmed);
  }

  lemma StepKeepsArm(s: State, e: Event)
    requires !e.ArmCall? && !e.ArmAppendSettled? && !e.ArmResume?
    ensures SameArm(s, Next(s, e))
  {
    match e
    case IntentResume(i) => if i < |s.requests| { ResumeKeepsArm(s, i); }
    case ResponseResume(i) => if i < |s.requests| { ResumeKeepsArm(s, i); }
    case FetchSettled(i, result, bytes) =>
      if i < |s.requests| && s.requests[i].frame.Fetching? { FetchKeepsArm(s, i, result, bytes); }
    case _ =>
  }

  lemma ArmedOverStep(s: State, e: Event)
    requires PhaseInv(s) && ArmedOnce(s)
    ensures SameArm(s, Next(s, e))
  {
    if !e.ArmCall? && !e.ArmAppendSettled? && !e.ArmResume? {
      StepKeepsArm(s, e);
    }
  }

  lemma {:induction false} ArmedOverIsFixed(s: State, events: seq<Event>)
    requires PhaseInv(s) && ArmedOnce(s)
    ensures ArmedOnce(Run(s, events)) && Run(s, events).armedOver == s.armedOver
  {
    if events != [] {
      var before := events[..|events| - 1];
      ArmedOverIsFixed(s, before);
      RunPhase(s, before);
      ArmedOverStep(Run(s, before), events[|events| - 1]);
    }
  }

  /** `arm` wakes up with its record durable: the moment it overwrites the phase. */
  predicate ArmAboutToReturn(s: State) {
    s.arm == ArmSettled(true)
  }

  ghost predicate AtMostOneFailureEver(s: State) {
    forall events :: |Run(s, events).failures| <= 1
  }

  /** A failure while `arm` awaits is overwritten; a second one can then be recorded. Exactly then. */
  lemma SingleFailureIffArmedFromDisarmed(s: State)
    requires PhaseInv(s) && ArmAboutToReturn(s)
    ensures AtMostOneFailureEver(Next(s, ArmResume)) <==> s.phase == Disarmed
  {
    var t := Next(s, ArmResume);
    StepPhase(s, ArmResume);
    if s.phase == Disarmed {
      forall events ensures |Run(t, events).failures| <= 1 {
        RunPhase(t, events);
        ArmedOverIsFixed(t, events);
      }
    } else {
      var second := [AbortCall];
      assert second[..|second| - 1] == [];
      assert Run(t, []) == t;
      assert Run(t, second) == Next(t, AbortCall);
      assert |Run(t, second).failures| == 2;
    }
  }

  /** The same for the states a session can reach. */
  lemma ReachableLeavingIsFinal(limits: Limits, gate: Gate, past: seq<Event>, future: seq<Event>)
    requires Left(Run(Prepared(limits, gate), past))
    ensures Frozen(Run(Prepared(limits, gate), past), Run(Run(Prepared(limits, gate), past), future))
  {
    RunPhase(Prepared(limits, gate), past);
    LeavingArmedIsFinal(Run(Prepared(limits, gate), past), future);
  }

  lemma ReachableSingleFailureIff(limits: Limits, gate: Gate, past: seq<Event>)
    requires ArmAboutToReturn(Run(Prepared(limits, gate), past))
    ensures AtMostOneFailureEver(Next(Run(Prepared(limits, gate), past), ArmResume))
       <==> Run(Prepared(limits, gate), past).phase == Disarmed
  {
    RunPhase(Prepared(limits, gate), past);
    SingleFailureIffArmedFromDisarmed(Run(Prepared(limits, gate), past));
  }

  /** A run in which `arm` overwrites a failure: the session then records a second one. */
  lemma TwoFailuresReachable(limits: Limits, gate: Gate, bytes: nat)
    requires Admits(gate, true, bytes)
    ensures var settled := [ArmCall(true, bytes), AbortCall, ArmAppendSettled(true)];
            && ArmAboutToReturn(Run(Prepared(limits, gate), settled))
            && |Run(Prepared(limits, gate), settled).failures| == 1
            && |Run(Prepared(limits, gate), settled + [ArmResume, AbortCall]).failures| == 2
  {
    var start := Prepared(limits, gate);
    var events := [ArmCall(true, bytes), AbortCall, ArmAppendSettled(true)];
    FailedWhileArming(start, bytes);
    RunThree(start, events[0], events[1], events[2]);
    RunOne(start, events, ArmResume);
    RunOne(start, events + [ArmResume], AbortCall);
    assert events + [ArmResume] + [AbortCall] == events + [ArmResume, AbortCall];
    FailsOnceMore(Run(start, events));
  }

  lemma {:induction false} FailedWhileArming(s: State, bytes: nat)
    requires s == Prepared(s.limits, s.gate) && Admits(s.gate, true, bytes)
    ensures var settled := Next(Next(Next(s, ArmCall(true, bytes)), AbortCall), ArmAppendSettled(true));
            ArmAboutToReturn(settled) && |settled.failures| == 1
  {
    var called := Next(s, ArmCall(true, bytes));
    assert called.arm.ArmAppending?;
    var failed := Next(called, AbortCall);
    assert failed.arm == called.arm && |failed.failures| == 1;
  }

  lemma {:induction false} FailsOnceMore(s: State)
    requires ArmAboutToReturn(s) && |s.failures| == 1
    ensures |Next(Next(s, ArmResume), AbortCall).failures| == 2
  {
    assert Next(s, ArmResume).phase == Armed && Next(s, ArmResume).failures == s.failures;
  }

  lemma {:induction false} RunThree(s: State, a: Event, b: Event, c: Event)
    ensures Run(s, [a, b, c]) == Next(Next(Next(s, a), b), c)
  {
    RunOne(s, [], a);
    RunOne(s, [a], b);
    RunOne(s, [a, b], c);
    assert Run(s, []) == s;
    assert [] + [a] == [a] && [a] + [b] == [a, b] && [a, b] + [c] == [a, b, c];
  }

  lemma RunOne(s: State, events: seq<Event>, e: Event)
    ensures Run(s, events + [e]) == Next(Run(s, events), e)
  {
    assert (events + [e])[..|events|] == events;
  }
}
