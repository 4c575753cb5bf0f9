/** The broker session and the audit gate as the objects the source updates in place. */
module MetadataBrokerSession {
  import opened Numbers
  import opened Options
  import opened AuditPayloads
  import opened AuditTrace
  import opened MetadataBrokerRefusals
  import opened MetadataBroker
  import opened MetadataBrokerLedger
  import opened MetadataBrokerPhases
  import opened MetadataBrokerSafety

  class AuditGate {
    var records: seq<Record>
    var payloadBytes: nat
    var terminal: bool

    ghost function View(): Gate
      reads this
    {
      Gate(records, payloadBytes, terminal)
    }

    constructor ()
      ensures View() == Gate([], 0, false)
    {
      records, payloadBytes, terminal := [], 0, false;
    }

    /** `record` up to its await on the sink. */
    method BeginRecord(record: Record, bytes: nat) returns (admitted: bool)
      ensures admitted == Admits(View(), ValidPayload(record), bytes)
    {
      if terminal { return false; }
      if !ValidPayload(record) { return false; }
      if bytes > MAX_PAYLOAD_BYTES || |records| >= MAX_RECORDS || payloadBytes + bytes > MAX_TOTAL_PAYLOAD_BYTES {
        return false;
      }
      return true;
    }

    /** `record` after the sink accepted the event. */
    method CommitRecord(record: Record, bytes: nat)
      modifies this
      ensures View() == Pushed(old(View()), record, bytes)
    {
      payloadBytes := payloadBytes + bytes;
      records := records + [record];
      if record.event == GenesisComplete || record.event == GenesisIncomplete {
        terminal := true;
      }
    }

    /** Closes the gate over a complete trace, once; refuses, and changes nothing, in every other case. */
    method PrepareAtomicTerminalSuccess() returns (prepared: bool)
      modifies this`terminal
      ensures prepared <==> !old(terminal) && CompleteAudit(old(records), true)
      ensures View() == if prepared then old(View()).(terminal := true) else old(View())
    {
      if terminal { return false; }
      prepared := AssertCompleteAudit(records, true);
      if prepared {
        Close();
      }
    }

    method Close()
      modifies this`terminal
      ensures View() == old(View()).(terminal := true)
    {
      terminal := true;
    }
  }

  // ----- What every session keeps -----

  ghost predicate Kept(s: State) {
    Accounted(s) && PhaseInv(s) && Traced(s)
  }

  /** The latest summary, unless it was claimed before. */
  function Unclaimed(s: State): Option<Failure> {
    if s.failures == [] || |s.failures| - 1 in s.claimed then None else Some(s.failures[|s.failures| - 1].summary)
  }

  /** The bytes reserved, the caps, and the exclusion of failures and ledgers. */
  ghost predicate Promises(s: State) {
    ReservationsHold(s) && ExclusiveOutcome(s)
  }

  lemma KeptStep(s: State, e: Event, t: State)
    requires Kept(s) && Bounded(e, s.limits) && t == Next(s, e)
    ensures Kept(t) && Promises(t) && StepTold(s, e, t)
  {
    EveryStepIsTold(s, e);
    StepKeeps(s, e);
    StepPhase(s, e);
    StepTraced(s, e);
    AccountedHolds(Next(s, e));
    PhaseInvMeansExclusive(Next(s, e));
  }

  lemma KeptResponse(s: State, i: nat, accepted: bool, t: State)
    requires Kept(s)
    requires t == if i < |s.requests| && s.requests[i].frame.ResponseAppending? then SettleResponse(s, i, accepted)
                  else s
    ensures t == Next(s, ResponseAppendSettled(i, accepted)) && Kept(t) && Promises(t)
    ensures StepTold(s, ResponseAppendSettled(i, accepted), t)
  {
    KeptStep(s, ResponseAppendSettled(i, accepted), t);
  }

  lemma CompletedLedger(s: State, t: State)
    requires Kept(s) && t == CompleteSession(s) && Promises(t)
    ensures Completable(s) ==> t.ledgers == [LedgerOf(s)] && t.failures == [] && LedgerFaithful(s, LedgerOf(s))
  {
    if Completable(s) {
      CompleteLedgerFaithful(s);
    }
  }

  lemma KeptPrepared(limits: Limits, gate: Gate)
    requires NoMetadataYet(gate)
    ensures Kept(Prepared(limits, gate)) && Promises(Prepared(limits, gate))
  {
    PreparedAccounted(limits, gate);
    RunPhase(Prepared(limits, gate), []);
    RunTraced(limits, gate, []);
    AccountedHolds(Prepared(limits, gate));
    PhaseInvMeansExclusive(Prepared(limits, gate));
  }

  lemma SequenceFits(s: State, i: nat)
    requires Accounted(s) && i < |s.requests|
    ensures i + 1 <= s.startedRequests <= s.limits.totalRequests
  {
  }

  class BrokerSession {
    const limits: Limits
    const audit: AuditGate
    var phase: Phase
    var aborted: bool
    var leaseUsed: bool
    var arm: ArmFrame
    var names: set<string>
    var entries: seq<Entry>
    var startedRequests: nat
    var activeRequests: int
    var reservedBytes: int
    var committedBytes: nat
    var requests: seq<Request>
    var failures: seq<FailRun>
    var claimed: set<nat>
    var claims: seq<nat>
    var ledgers: seq<Ledger>
    ghost var armedOver: bool
    ghost var lostUpdate: bool

    ghost function View(): State
      reads this, audit
    {
      State(limits, phase, aborted, leaseUsed, arm, names, entries, startedRequests, activeRequests, reservedBytes,
            committedBytes, requests, failures, claimed, claims, ledgers,
            Gate(audit.records, audit.payloadBytes, audit.terminal), armedOver, lostUpdate)
    }

    /** Every step keeps this, so it holds between any two awaits of a session. */
    ghost predicate Valid()
      reads this, audit
    {
      limits.totalRequests <= MAX_SAFE_INTEGER && Kept(View())
    }

    constructor (limits: Limits, audit: AuditGate)
      requires limits.totalRequests <= MAX_SAFE_INTEGER && NoMetadataYet(audit.View())
      ensures this.limits == limits && this.audit == audit
      ensures View() == Prepared(limits, audit.View())
      ensures Valid() && Promises(View())
    {
      this.limits, this.audit := limits, audit;
      phase, aborted, leaseUsed, arm := Disarmed, false, false, ArmIdle;
      names, entries := {}, [];
      startedRequests, activeRequests, reservedBytes, committedBytes := 0, 0, 0, 0;
      requests, failures, claimed, claims, ledgers := [], [], {}, [], [];
      armedOver, lostUpdate := false, false;
      new;
      KeptPrepared(limits, audit.View());
    }

    method Fail(cause: Predicate, ordinal: Option<nat>, owner: Option<nat>)
      modifies this
      ensures View() == EnterFail(old(View()), cause, ordinal, owner)
    {
      if phase == Incomplete || phase == Failing || phase == Complete { return; }
      var summary := Failure(cause, ordinal, startedRequests, activeRequests, |entries|, committedBytes);
      phase, failures, aborted := Failing, failures + [FailRun(summary, owner, false)], true;
    }

    method FailOf(i: nat, cause: Predicate)
      requires i < |requests|
      modifies this
      ensures View() == FailRequest(old(View()), i, cause)
    {
      requests := requests[i := requests[i].(frame := FailEntered)];
      Fail(cause, Some(i + 1), Some(i));
    }

    /** Admission control; a refusal leaves the session unchanged. */
    method Reserve(name: string) returns (refusal: Option<Predicate>)
      modifies this
      ensures refusal == ReserveError(old(View()), name)
      ensures refusal.Some? ==> View() == old(View())
      ensures refusal.None? ==> View() == Reserved(old(View()), name, IntentSettled(false))
    {
      if phase != Armed { return Some(SessionNotArmed); }
      if startedRequests >= limits.totalRequests { return Some(TotalRequestLimit); }
      if activeRequests >= limits.concurrentRequests { return Some(ConcurrentRequestLimit); }
      var newName := name !in names;
      if newName && |names| >= limits.uniquePackageNames { return Some(UniqueNameLimit); }
      if reservedBytes + limits.responseBytes > limits.aggregateResponseBytes {
        return Some(AggregateReservationLimit);
      }
      Admit(name);
      return None;
    }

    method Admit(name: string)
      modifies this
      ensures View() == Reserved(old(View()), name, IntentSettled(false))
    {
      startedRequests, activeRequests := startedRequests + 1, activeRequests + 1;
      reservedBytes, requests := reservedBytes + limits.responseBytes, requests + [Request(name, IntentSettled(false))];
      if name !in names { names := names + {name}; }
      assert names == old(names) + {name};
    }

    /** `handle` up to its first await. */
    method Handle(parsed: Option<string>, bytes: nat)
      requires Valid()
      modifies this
      ensures View() == Next(old(View()), HandleCall(parsed, bytes))
      ensures Valid() && Promises(View()) && StepTold(old(View()), HandleCall(parsed, bytes), View())
    {
      AdmitOrFail(parsed, bytes);
      KeptStep(old(View()), HandleCall(parsed, bytes), View());
    }

    method AdmitOrFail(parsed: Option<string>, bytes: nat)
      requires |requests| == startedRequests && limits.totalRequests <= MAX_SAFE_INTEGER
      modifies this
      ensures View() == MetadataBroker.Handle(old(View()), parsed, bytes)
    {
      if parsed.None? {
        Fail(RequestRouteRejected, None, None);
        return;
      }
      var refusal := Reserve(parsed.value);
      if refusal.Some? {
        Fail(refusal.value, None, None);
        return;
      }
      BeginIntent(parsed.value, bytes);
    }

    /** The intent record of the request just admitted, up to its await. */
    method BeginIntent(name: string, bytes: nat)
      requires requests != [] && |requests| == startedRequests <= MAX_SAFE_INTEGER
      requires requests[|requests| - 1] == Request(name, IntentSettled(false))
      modifies this`requests
      ensures requests == if Admits(audit.View(), SafeName(name), bytes)
                          then old(requests)[|old(requests)| - 1 := Request(name, IntentAppending(bytes))]
                            else old(requests)
    {
      BrokerPayloads(startedRequests, name, 0);
      var admitted := audit.BeginRecord(RequestRecord(startedRequests, name), bytes);
      if admitted {
        requests := requests[|requests| - 1 := Request(name, IntentAppending(bytes))];
      }
    }

    method ArmBegin(leaseAccepted: bool, bytes: nat)
      requires Valid()
      modifies this
      ensures View() == Next(old(View()), ArmCall(leaseAccepted, bytes))
      ensures Valid() && Promises(View()) && StepTold(old(View()), ArmCall(leaseAccepted, bytes), View())
    {
      if phase == Disarmed && !leaseUsed && leaseAccepted {
        leaseUsed := true;
        var admitted := audit.BeginRecord(Record(BrokerArmed, map[]), bytes);
        arm := if admitted then ArmAppending(bytes) else ArmSettled(false);
      }
      KeptStep(old(View()), ArmCall(leaseAccepted, bytes), View());
    }

    method ArmSettle(accepted: bool)
      requires Valid()
      modifies this, audit
      ensures View() == Next(old(View()), ArmAppendSettled(accepted))
      ensures Valid() && Promises(View()) && StepTold(old(View()), ArmAppendSettled(accepted), View())
    {
      if arm.ArmAppending? {
        if accepted { audit.CommitRecord(Record(BrokerArmed, map[]), arm.bytes); }
        arm := ArmSettled(accepted);
      }
      KeptStep(old(View()), ArmAppendSettled(accepted), View());
    }

    /** The assignment of `'armed'`, made whatever the phase has become meanwhile. */
    method ArmReturn()
      requires Valid()
      modifies this
      ensures View() == Next(old(View()), ArmResume)
      ensures Valid() && Promises(View()) && StepTold(old(View()), ArmResume, View())
    {
      if arm.ArmSettled? && arm.durable {
        armedOver := armedOver || failures != [];
        phase := Armed;
        arm := ArmReturned(true);
      } else if arm.ArmSettled? {
        arm := ArmReturned(false);
      }
      KeptStep(old(View()), ArmResume, View());
    }

    method SettleIntentAppend(i: nat, accepted: bool)
      requires Valid()
      modifies this, audit
      ensures View() == Next(old(View()), IntentAppendSettled(i, accepted))
      ensures Valid() && Promises(View()) && StepTold(old(View()), IntentAppendSettled(i, accepted), View())
    {
      if i < |requests| && requests[i].frame.IntentAppending? {
        RecordIntent(i, accepted);
      }
      KeptStep(old(View()), IntentAppendSettled(i, accepted), View());
    }

    method RecordIntent(i: nat, accepted: bool)
      requires i < |requests| && requests[i].frame.IntentAppending?
      modifies this, audit
      ensures View() == SettleIntent(old(View()), i, accepted)
    {
      if accepted { audit.CommitRecord(RequestRecord(i + 1, requests[i].packageName), requests[i].frame.bytes); }
      requests := requests[i := requests[i].(frame := IntentSettled(accepted))];
    }

    method ResumeAfterIntent(i: nat)
      requires Valid()
      modifies this
      ensures View() == Next(old(View()), IntentResume(i))
      ensures Valid() && Promises(View()) && StepTold(old(View()), IntentResume(i), View())
    {
      if i < |requests| && requests[i].frame.IntentSettled? {
        FetchOrFail(i);
      }
      KeptStep(old(View()), IntentResume(i), View());
    }

    method FetchOrFail(i: nat)
      requires i < |requests| && requests[i].frame.IntentSettled?
      modifies this
      ensures View() == ResumeIntent(old(View()), i)
    {
      if !requests[i].frame.durable {
        FailOf(i, RequestIntentNotDurable);
      } else if phase != Armed {
        FailOf(i, SessionNotArmed);
      } else {
        requests := requests[i := requests[i].(frame := Fetching)];
      }
    }

    /** After the fetch: a response no larger than was allowed is read, tested and handed to the gate. */
    method ResumeAfterFetch(i: nat, result: FetchResult, bytes: nat)
      requires Valid()
      requires result.Fetched? ==> |result.body| <= limits.responseBytes
      modifies this
      ensures View() == Next(old(View()), FetchSettled(i, result, bytes))
      ensures Valid() && Promises(View()) && StepTold(old(View()), FetchSettled(i, result, bytes), View())
    {
      if i < |requests| && requests[i].frame.Fetching? {
        if result.FetchFailed? {
          FailOf(i, result.cause);
        } else if phase != Armed || aborted {
          FailOf(i, SessionNotArmed);
        } else {
          SequenceFits(View(), i);
          ReadResponse(i, result.body, bytes);
        }
      }
      KeptStep(old(View()), FetchSettled(i, result, bytes), View());
    }

    method ReadResponse(i: nat, body: Body, bytes: nat)
      requires i < |requests| && i < MAX_SAFE_INTEGER && requests[i].frame.Fetching? && phase == Armed && !aborted
      modifies this
      ensures View() == SettleFetch(old(View()), i, Fetched(body), bytes)
    {
      var nextCommitted := committedBytes + |body|;
      if nextCommitted > limits.aggregateResponseBytes {
        FailOf(i, Unclassified);
      } else {
        BrokerPayloads(i + 1, requests[i].packageName, |body|);
        var admitted := audit.BeginRecord(ResponseRecord(i + 1, requests[i].packageName, |body|), bytes);
        var frame := if admitted then ResponseAppending(body, nextCommitted, bytes)
          else ResponseSettled(body, nextCommitted, false);
        Await(i, frame);
      }
    }

    /** Where a request is suspended next. */
    method Await(i: nat, frame: Frame)
      requires i < |requests|
      modifies this
      ensures View() == SetFrame(old(View()), i, frame)
    {
      requests := requests[i := requests[i].(frame := frame)];
    }

    method SettleResponseAppend(i: nat, accepted: bool)
      requires Valid()
      modifies this, audit
      ensures View() == Next(old(View()), ResponseAppendSettled(i, accepted))
      ensures Valid() && Promises(View()) && StepTold(old(View()), ResponseAppendSettled(i, accepted), View())
    {
      ghost var s := View();
      if i < |requests| && requests[i].frame.ResponseAppending? {
        RecordResponse(i, accepted);
      }
      KeptResponse(s, i, accepted, View());
    }

    method RecordResponse(i: nat, accepted: bool)
      requires i < |requests| && requests[i].frame.ResponseAppending?
      modifies this, audit
      ensures View() == SettleResponse(old(View()), i, accepted)
    {
      var f := requests[i].frame;
      if accepted { audit.CommitRecord(ResponseRecord(i + 1, requests[i].packageName, |f.body|), f.bytes); }
      requests := requests[i := requests[i].(frame := ResponseSettled(f.body, f.nextCommitted, accepted))];
    }

    /** Stores the entry; the byte count is the one computed before the await, not added to the present one. */
    method StoreEntry(e: Entry, nextCommitted: nat)
      modifies this
      ensures View() == old(View()).(
        entries := old(entries) + [e],
        committedBytes := nextCommitted,
        reservedBytes := old(reservedBytes) - limits.responseBytes + e.ResponseBytes(),
        lostUpdate := old(lostUpdate) || nextCommitted != old(committedBytes) + e.ResponseBytes())
    {
      lostUpdate := lostUpdate || nextCommitted != committedBytes + e.ResponseBytes();
      entries, committedBytes := entries + [e], nextCommitted;
      reservedBytes := reservedBytes - limits.responseBytes + e.ResponseBytes();
    }

    /** The `finally` of `handle`. */
    method Return(i: nat, committed: bool)
      requires i < |requests|
      modifies this
      ensures View() == SetFrame(old(View()), i, Returned(committed)).(activeRequests := old(activeRequests) - 1)
    {
      requests, activeRequests := requests[i := requests[i].(frame := Returned(committed))], activeRequests - 1;
    }

    method Commit(i: nat)
      requires i < |requests| && requests[i].frame.ResponseSettled? && requests[i].frame.durable && phase == Armed
      modifies this
      ensures View() == ResumeResponse(old(View()), i)
    {
      var f := requests[i].frame;
      StoreEntry(Entry(i + 1, requests[i].packageName, f.body), f.nextCommitted);
      Return(i, true);
    }

    method CommitOrFail(i: nat)
      requires i < |requests| && requests[i].frame.ResponseSettled?
      modifies this
      ensures View() == ResumeResponse(old(View()), i)
    {
      if !requests[i].frame.durable {
        FailOf(i, ResponseValidationNotDurable);
      } else if phase != Armed {
        FailOf(i, SessionNotArmed);
      } else {
        Commit(i);
      }
    }

    method ResumeAfterResponse(i: nat)
      requires Valid()
      modifies this
      ensures View() == Next(old(View()), ResponseResume(i))
      ensures Valid() && Promises(View()) && StepTold(old(View()), ResponseResume(i), View())
    {
      if i < |requests| && requests[i].frame.ResponseSettled? {
        CommitOrFail(i);
      }
      KeptStep(old(View()), ResponseResume(i), View());
    }

    method SettleFailureCallback(run: nat)
      requires Valid()
      modifies this
      ensures View() == Next(old(View()), FailureCallbackSettled(run))
      ensures Valid() && Promises(View()) && StepTold(old(View()), FailureCallbackSettled(run), View())
    {
      if run < |failures| && !failures[run].settled {
        failures := failures[run := failures[run].(settled := true)];
        phase := Incomplete;
      }
      KeptStep(old(View()), FailureCallbackSettled(run), View());
    }

    method ResumeAfterFailure(i: nat)
      requires Valid()
      modifies this
      ensures View() == Next(old(View()), FailResume(i))
      ensures Valid() && Promises(View()) && StepTold(old(View()), FailResume(i), View())
    {
      UnwindFailure(i);
      KeptStep(old(View()), FailResume(i), View());
    }

    /** Returns once the callback its failure waits for has settled. */
    method UnwindFailure(i: nat)
      modifies this
      ensures View() == Next(old(View()), FailResume(i))
    {
      if i >= |requests| || !requests[i].frame.FailEntered? { return; }
      if exists k :: 0 <= k < |failures| && failures[k].owner == Some(i) && !failures[k].settled { return; }
      Return(i, false);
    }

    /** A ledger, if one is made, is the only outcome and tells the same story as the gate's records. */
    method CompleteLedger() returns (ledger: Option<Ledger>)
      requires Valid()
      modifies this
      ensures View() == Next(old(View()), CompleteCall)
      ensures Valid() && Promises(View()) && StepTold(old(View()), CompleteCall, View())
      ensures ledger.Some? <==> Completable(old(View()))
      ensures ledger.Some? ==> ledgers == [ledger.value] && failures == [] && LedgerFaithful(old(View()), ledger.value)
    {
      ledger := CompleteOrFail();
      KeptStep(old(View()), CompleteCall, View());
      CompletedLedger(old(View()), View());
    }

    method CompleteOrFail() returns (ledger: Option<Ledger>)
      modifies this
      ensures View() == CompleteSession(old(View()))
      ensures ledger == if Completable(old(View())) then Some(LedgerOf(old(View()))) else None
    {
      if phase != Armed || activeRequests != 0 || |entries| == 0 || |entries| != startedRequests {
        Fail(BrokerIncomplete, None, None);
        return None;
      }
      phase := Complete;
      ledger := Some(Ledger(startedRequests, |names|, committedBytes, SortBySequence(entries)));
      ledgers := ledgers + [ledger.value];
    }

    method Abort()
      requires Valid()
      modifies this
      ensures View() == Next(old(View()), AbortCall)
      ensures Valid() && Promises(View()) && StepTold(old(View()), AbortCall, View())
    {
      Fail(ListenerRequestRejected, None, None);
      KeptStep(old(View()), AbortCall, View());
    }

    /** Hands the latest failure over once. */
    method ClaimFailure() returns (failure: Option<Failure>)
      requires Valid()
      modifies this`claims, this`claimed
      ensures View() == Next(old(View()), ClaimCall)
      ensures Valid() && Promises(View()) && StepTold(old(View()), ClaimCall, View())
      ensures failure == Unclaimed(old(View()))
    {
      failure := ClaimLatest();
      KeptStep(old(View()), ClaimCall, View());
    }

    method ClaimLatest() returns (failure: Option<Failure>)
      modifies this`claims, this`claimed
      ensures View() == Next(old(View()), ClaimCall)
      ensures failure == Unclaimed(old(View()))
    {
      if failures == [] || |failures| - 1 in claimed { return None; }
      failure := Some(failures[|failures| - 1].summary);
      claims := claims + [|failures| - 1];
      claimed := claimed + {|failures| - 1};
    }

    /** A record of another part of the stage lands in the gate. */
    method OtherRecordLands(record: Record, bytes: nat)
      requires Valid() && !IsMetadata(record)
      modifies audit
      ensures View() == Next(old(View()), OtherRecord(record, bytes))
      ensures Valid() && Promises(View()) && StepTold(old(View()), OtherRecord(record, bytes), View())
    {
      audit.CommitRecord(record, bytes);
      KeptStep(old(View()), OtherRecord(record, bytes), View());
    }

    /** The gate closes. */
    method GateCloses()
      requires Valid()
      modifies audit
      ensures View() == Next(old(View()), TerminalPrepared)
      ensures Valid() && Promises(View()) && StepTold(old(View()), TerminalPrepared, View())
    {
      audit.Close();
      KeptStep(old(View()), TerminalPrepared, View());
    }

    /** Any one event of a session. */
    method Take(e: Event)
      requires Valid() && Bounded(e, limits)
      modifies this, audit
      ensures View() == Next(old(View()), e)
      ensures Valid() && Promises(View()) && StepTold(old(View()), e, View())
    {
      match e {
        case ArmCall(leaseAccepted, bytes) => ArmBegin(leaseAccepted, bytes);
        case ArmAppendSettled(accepted) => ArmSettle(accepted);
        case ArmResume => ArmReturn();
        case HandleCall(parsed, bytes) => Handle(parsed, bytes);
        case FailureCallbackSettled(run) => SettleFailureCallback(run);
        case CompleteCall => var _ := CompleteLedger();
        case AbortCall => Abort();
        case ClaimCall => var _ := ClaimFailure();
        case OtherRecord(record, bytes) => TakeRecord(record, bytes);
        case TerminalPrepared => GateCloses();
        case _ => TakeOfRequest(e);
      }
    }

    method TakeRecord(record: Record, bytes: nat)
      requires Valid()
      modifies audit
      ensures View() == Next(old(View()), OtherRecord(record, bytes))
      ensures Valid() && Promises(View()) && StepTold(old(View()), OtherRecord(record, bytes), View())
    {
      if IsMetadata(record) {
        KeptStep(View(), OtherRecord(record, bytes), View());
      } else {
        OtherRecordLands(record, bytes);
      }
    }

    method TakeOfRequest(e: Event)
      requires Valid() && OfRequest(e) && Bounded(e, limits)
      modifies this, audit
      ensures View() == Next(old(View()), e)
      ensures Valid() && Promises(View()) && StepTold(old(View()), e, View())
    {
      match e {
        case IntentAppendSettled(i, accepted) => SettleIntentAppend(i, accepted);
        case IntentResume(i) => ResumeAfterIntent(i);
        case FetchSettled(i, result, bytes) => ResumeAfterFetch(i, result, bytes);
        case ResponseAppendSettled(i, accepted) => SettleResponseAppend(i, accepted);
        case ResponseResume(i) => ResumeAfterResponse(i);
        case FailResume(i) => ResumeAfterFailure(i);
      }
    }
  }

  /** A session driven through any interleaving of bounded responses: the object makes the machine's run. */
  method Drive(session: BrokerSession, events: seq<Event>)
    requires session.Valid() && AllBounded(events, session.limits)
    modifies session, session.audit
    ensures session.View() == Run(old(session.View()), events)
    ensures session.Valid() && (events != [] ==> Promises(session.View()))
  {
    ghost var start := session.View();
    for k := 0 to |events|
      invariant session.Valid() && (k > 0 ==> Promises(session.View()))
      invariant session.View() == Run(start, events[..k])
    {
      session.Take(events[k]);
      assert events[..k + 1][..k] == events[..k];
    }
    assert events[..|events|] == events;
  }
}
