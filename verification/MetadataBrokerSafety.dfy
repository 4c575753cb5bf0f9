/** What every interleaving of the broker's events keeps. */
module MetadataBrokerSafety {
  import opened Options
  import opened AuditTrace
  import opened Numbering
  import opened MetadataBroker

  function Sizes(entries: seq<Entry>): seq<nat> {
    seq(|entries|, i requires 0 <= i < |entries| => entries[i].ResponseBytes())
  }

  function Committed(entries: seq<Entry>): nat {
    Sum(Sizes(entries))
  }

  lemma CommittedAppend(entries: seq<Entry>, e: Entry)
    ensures Committed(entries + [e]) == Committed(entries) + e.ResponseBytes()
  {
    assert Sizes(entries + [e]) == Sizes(entries) + [e.ResponseBytes()];
    SumAppend(Sizes(entries), e.ResponseBytes());
  }

  function Unreturned(requests: seq<Request>): nat {
    if requests == [] then 0
    else Unreturned(requests[1..]) + (if requests[0].frame.Returned? then 0 else 1)
  }

  function Successes(requests: seq<Request>): nat {
    if requests == [] then 0
    else Successes(requests[1..]) + (if requests[0].frame == Returned(true) then 1 else 0)
  }

  lemma {:induction false} CountsAppend(requests: seq<Request>, r: Request)
    ensures Unreturned(requests + [r]) == Unreturned(requests) + (if r.frame.Returned? then 0 else 1)
    ensures Successes(requests + [r]) == Successes(requests) + (if r.frame == Returned(true) then 1 else 0)
  {
    if requests == [] {
      assert requests + [r] == [r];
      assert [r][1..] == [];
    } else {
      assert (requests + [r])[1..] == requests[1..] + [r];
      CountsAppend(requests[1..], r);
    }
  }

  lemma {:induction false} CountsUpdate(requests: seq<Request>, i: nat, r: Request)
    requires i < |requests|
    ensures Unreturned(requests[i := r]) + (if requests[i].frame.Returned? then 0 else 1)
         == Unreturned(requests) + (if r.frame.Returned? then 0 else 1)
    ensures Successes(requests[i := r]) + (if requests[i].frame == Returned(true) then 1 else 0)
         == Successes(requests) + (if r.frame == Returned(true) then 1 else 0)
  {
    if i == 0 {
      assert requests[i := r][1..] == requests[1..];
    } else {
      assert requests[i := r][1..] == requests[1..][i - 1 := r];
      CountsUpdate(requests[1..], i - 1, r);
    }
  }

  lemma {:induction false} CountsBound(requests: seq<Request>)
    ensures Unreturned(requests) + Successes(requests) <= |requests|
  {
    if requests != [] { CountsBound(requests[1..]); }
  }

  // ----- The invariant -----

  /** `n` full responses; repeated addition keeps the accounting linear. */
  function FullResponses(n: nat, size: nat): nat {
    if n == 0 then 0 else FullResponses(n - 1, size) + size
  }

  lemma {:induction false} FullResponsesIsProduct(n: nat, size: nat)
    ensures FullResponses(n, size) == n * size
  {
    if n > 0 { FullResponsesIsProduct(n - 1, size); }
  }

  /** Bytes are conserved: each committed response holds its size, every other admitted request a full response. */
  ghost predicate Conserved(s: State) {
    && |s.entries| <= s.startedRequests
    && s.reservedBytes == Committed(s.entries) + FullResponses(s.startedRequests - |s.entries|, s.limits.responseBytes)
  }

  ghost predicate Capped(s: State) {
    && s.reservedBytes <= s.limits.aggregateResponseBytes
    && s.startedRequests <= s.limits.totalRequests
    && s.activeRequests <= s.limits.concurrentRequests
    && |s.names| <= s.limits.uniquePackageNames
  }

  ghost predicate Counted(s: State) {
    && |s.requests| == s.startedRequests
    && s.activeRequests == Unreturned(s.requests)
    && |s.entries| == Successes(s.requests)
  }

  function RequestNames(requests: seq<Request>): set<string> {
    set i | 0 <= i < |requests| :: requests[i].packageName
  }

  /** Every entry is the result of its own request, and no request has two. */
  ghost predicate EntriesMatch(s: State) {
    && s.names == RequestNames(s.requests)
    && (forall k :: 0 <= k < |s.entries| ==>
          && 1 <= s.entries[k].sequence <= |s.requests|
          && s.requests[s.entries[k].sequence - 1] == Request(s.entries[k].packageName, Returned(true))
          && 1 <= s.entries[k].ResponseBytes() <= s.limits.responseBytes)
    && (forall j, k :: 0 <= j < k < |s.entries| ==> s.entries[j].sequence != s.entries[k].sequence)
  }

  ghost predicate Pending(f: Frame) {
    f.ResponseAppending? || f.ResponseSettled?
  }

  /** The byte count a pending response was computed from. */
  function Base(f: Frame): int
    requires f.ResponseAppending? || f.ResponseSettled?
  {
    f.nextCommitted - |f.body|
  }

  ghost predicate PendingBounded(s: State) {
    forall i :: 0 <= i < |s.requests| && Pending(s.requests[i].frame) ==>
      && |s.requests[i].frame.body| <= s.limits.responseBytes
      && ((s.requests[i].frame.ResponseAppending? || s.requests[i].frame.durable) ==> 1 <= |s.requests[i].frame.body|)
  }

  /** `committedBytes` is the entries' total until a commit overwrites another one, and short of it for ever after. */
  ghost predicate UpdatesTracked(s: State) {
    && (if s.lostUpdate then s.committedBytes < Committed(s.entries) else s.committedBytes == Committed(s.entries))
    && forall i :: 0 <= i < |s.requests| && Pending(s.requests[i].frame) ==>
      if s.lostUpdate then Base(s.requests[i].frame) < Committed(s.entries)
        else Base(s.requests[i].frame) <= Committed(s.entries)
  }

  ghost predicate Accounted(s: State) {
    Conserved(s) && Capped(s) && Counted(s) && EntriesMatch(s) && PendingBounded(s) && UpdatesTracked(s)
  }

  lemma PreparedAccounted(limits: Limits, gate: Gate)
    ensures Accounted(Prepared(limits, gate))
  {
    assert Sizes([]) == [];
  }

  lemma NamesUpdate(requests: seq<Request>, i: nat, r: Request)
    requires i < |requests| && r.packageName == requests[i].packageName
    ensures RequestNames(requests[i := r]) == RequestNames(requests)
  {
    var t := requests[i := r];
    assert forall k :: 0 <= k < |t| ==> t[k].packageName == requests[k].packageName;
  }

  lemma NamesAppend(requests: seq<Request>, r: Request)
    ensures RequestNames(requests + [r]) == RequestNames(requests) + {r.packageName}
  {
    var t := requests + [r];
    assert t[|requests|].packageName == r.packageName;
    forall x | x in RequestNames(requests) ensures x in RequestNames(t) {
      var k :| 0 <= k < |requests| && requests[k].packageName == x;
      assert t[k].packageName == x;
    }
  }

  // ----- Preservation, one kind of update at a time -----

  lemma FailKeeps(s: State, cause: Predicate, ordinal: Option<nat>, owner: Option<nat>)
    requires Accounted(s)
    ensures Accounted(EnterFail(s, cause, ordinal, owner))
  {
  }

  /** Moving a request that has not returned to another such frame. */
  lemma FrameKeeps(s: State, i: nat, frame: Frame)
    requires Accounted(s) && i < |s.requests| && !s.requests[i].frame.Returned? && !frame.Returned?
    requires Pending(frame) ==>
      && |frame.body| <= s.limits.responseBytes
      && ((frame.ResponseAppending? || frame.durable) ==> 1 <= |frame.body|)
      && (if s.lostUpdate then Base(frame) < Committed(s.entries) else Base(frame) <= Committed(s.entries))
    ensures Accounted(SetFrame(s, i, frame))
  {
    var r := s.requests[i].(frame := frame);
    CountsUpdate(s.requests, i, r);
    NamesUpdate(s.requests, i, r);
  }

  lemma FailRequestKeeps(s: State, i: nat, cause: Predicate)
    requires Accounted(s) && i < |s.requests| && !s.requests[i].frame.Returned?
    ensures Accounted(FailRequest(s, i, cause))
  {
    FrameKeeps(s, i, FailEntered);
    FailKeeps(SetFrame(s, i, FailEntered), cause, Some(i + 1), Some(i));
  }

  /** Admitting a request, as far as the accounts see it. */
  predicate Admitted(s: State, name: string, frame: Frame, t: State) {
    && t == Reserved(s, name, frame)
    && ReserveError(s, name) == None
    && (frame.IntentAppending? || frame.IntentSettled?)
  }

  lemma ReserveKeepsCounts(s: State, name: string, frame: Frame, t: State)
    requires Conserved(s) && Capped(s) && Counted(s) && Admitted(s, name, frame, t)
    ensures Conserved(t) && Capped(t) && Counted(t)
  {
    CountsAppend(s.requests, Request(name, frame));
    if name in s.names { assert s.names + {name} == s.names; }
  }

  lemma ReserveKeepsEntries(s: State, name: string, frame: Frame, t: State)
    requires Counted(s) && EntriesMatch(s) && Admitted(s, name, frame, t)
    ensures EntriesMatch(t)
  {
    NamesAppend(s.requests, Request(name, frame));
  }

  lemma ReserveKeepsPending(s: State, name: string, frame: Frame, t: State)
    requires PendingBounded(s) && UpdatesTracked(s) && Admitted(s, name, frame, t)
    ensures PendingBounded(t) && UpdatesTracked(t)
  {
  }

  lemma ReserveKeeps(s: State, name: string, frame: Frame)
    requires Accounted(s) && ReserveError(s, name) == None && (frame.IntentAppending? || frame.IntentSettled?)
    ensures Accounted(Reserved(s, name, frame))
  {
    var t := Reserved(s, name, frame);
    ReserveKeepsCounts(s, name, frame, t);
    ReserveKeepsEntries(s, name, frame, t);
    ReserveKeepsPending(s, name, frame, t);
  }

  /** While a request is unreturned, the committed bytes and one more full response fit the aggregate limit. */
  lemma RoomForOneMore(s: State, i: nat)
    requires Accounted(s) && i < |s.requests| && !s.requests[i].frame.Returned?
    ensures Committed(s.entries) + s.limits.responseBytes <= s.limits.aggregateResponseBytes
  {
    CountsUpdate(s.requests, i, s.requests[i].(frame := Returned(false)));
    CountsBound(s.requests);
  }

  /** The aggregate test on a response can never fail. */
  lemma OverflowNeverFires(s: State, i: nat, body: Body)
    requires Accounted(s) && i < |s.requests| && s.requests[i].frame.Fetching? && |body| <= s.limits.responseBytes
    ensures !Overflows(s, body)
  {
    RoomForOneMore(s, i);
  }

  predicate Commits(s: State, i: nat, t: State) {
    && i < |s.requests|
    && s.requests[i].frame.ResponseSettled? && s.requests[i].frame.durable
    && s.phase == Armed
    && t == ResumeResponse(s, i)
  }

  lemma CommitKeepsCounts(s: State, i: nat, t: State)
    requires Conserved(s) && Capped(s) && Counted(s) && PendingBounded(s) && Commits(s, i, t)
    ensures Conserved(t) && Capped(t) && Counted(t)
  {
    var f := s.requests[i].frame;
    CountsUpdate(s.requests, i, Request(s.requests[i].packageName, Returned(true)));
    CommittedAppend(s.entries, Entry(i + 1, s.requests[i].packageName, f.body));
    CountsBound(t.requests);
  }

  lemma CommitKeepsEntries(s: State, i: nat, t: State)
    requires EntriesMatch(s) && PendingBounded(s) && Commits(s, i, t)
    ensures EntriesMatch(t)
  {
    NamesUpdate(s.requests, i, Request(s.requests[i].packageName, Returned(true)));
    assert forall k :: 0 <= k < |s.entries| ==> s.entries[k].sequence != i + 1;
  }

  lemma CommitKeepsPending(s: State, i: nat, t: State)
    requires PendingBounded(s) && UpdatesTracked(s) && Commits(s, i, t)
    ensures PendingBounded(t) && UpdatesTracked(t)
  {
    CommittedAppend(s.entries, Entry(i + 1, s.requests[i].packageName, s.requests[i].frame.body));
  }

  lemma CommitKeeps(s: State, i: nat)
    requires Accounted(s) && i < |s.requests| && s.requests[i].frame.ResponseSettled?
    requires s.requests[i].frame.durable && s.phase == Armed
    ensures Accounted(ResumeResponse(s, i))
  {
    var t := ResumeResponse(s, i);
    CommitKeepsCounts(s, i, t);
    CommitKeepsEntries(s, i, t);
    CommitKeepsPending(s, i, t);
  }

  lemma UnwindKeeps(s: State, i: nat)
    requires Accounted(s) && i < |s.requests| && s.requests[i].frame.FailEntered?
    ensures Accounted(SetFrame(s, i, Returned(false)).(activeRequests := s.activeRequests - 1))
  {
    var r := s.requests[i].(frame := Returned(false));
    var t := SetFrame(s, i, Returned(false)).(activeRequests := s.activeRequests - 1);
    CountsUpdate(s.requests, i, r);
    NamesUpdate(s.requests, i, r);
    assert forall k :: 0 <= k < |t.requests| && k != i ==> t.requests[k] == s.requests[k];
    assert PendingBounded(t) && UpdatesTracked(t);
  }

  lemma HandleKeeps(s: State, parsed: Option<string>, bytes: nat)
    requires Accounted(s)
    ensures Accounted(Handle(s, parsed, bytes))
  {
    match parsed
    case None => FailKeeps(s, RequestRouteRejected, None, None);
    case Some(name) =>
      match ReserveError(s, name)
      case Some(refusal) => FailKeeps(s, refusal, None, None);
      case None =>
        if Admits(s.gate, SafeName(name), bytes) {
          ReserveKeeps(s, name, IntentAppending(bytes));
        } else {
          ReserveKeeps(s, name, IntentSettled(false));
        }
  }

  lemma ResumeIntentKeeps(s: State, i: nat)
    requires Accounted(s) && i < |s.requests| && s.requests[i].frame.IntentSettled?
    ensures Accounted(ResumeIntent(s, i))
  {
    if !s.requests[i].frame.durable {
      FailRequestKeeps(s, i, RequestIntentNotDurable);
    } else if s.phase != Armed {
      FailRequestKeeps(s, i, SessionNotArmed);
    } else {
      FrameKeeps(s, i, Fetching);
    }
  }

  lemma SettleFetchKeeps(s: State, i: nat, result: FetchResult, bytes: nat)
    requires Accounted(s) && i < |s.requests| && s.requests[i].frame.Fetching?
    requires result.Fetched? ==> |result.body| <= s.limits.responseBytes
    ensures Accounted(SettleFetch(s, i, result, bytes))
  {
    match result
    case FetchFailed(cause) => FailRequestKeeps(s, i, cause);
    case Fetched(body) =>
      if s.phase != Armed || s.aborted {
        FailRequestKeeps(s, i, SessionNotArmed);
      } else if Overflows(s, body) {
        FailRequestKeeps(s, i, Unclassified);
      } else if Admits(s.gate, SafeName(s.requests[i].packageName) && 1 <= |body| <= MAX_RESPONSE_BYTES, bytes) {
        FrameKeeps(s, i, ResponseAppending(body, s.committedBytes + |body|, bytes));
      } else {
        FrameKeeps(s, i, ResponseSettled(body, s.committedBytes + |body|, false));
      }
  }

  lemma ResumeResponseKeeps(s: State, i: nat)
    requires Accounted(s) && i < |s.requests| && s.requests[i].frame.ResponseSettled?
    ensures Accounted(ResumeResponse(s, i))
  {
    if !s.requests[i].frame.durable {
      FailRequestKeeps(s, i, ResponseValidationNotDurable);
    } else if s.phase != Armed {
      FailRequestKeeps(s, i, SessionNotArmed);
    } else {
      CommitKeeps(s, i);
    }
  }

  /** The fields the accounts speak about. */
  predicate SameAccounts(s: State, t: State) {
    && t.limits == s.limits && t.names == s.names && t.entries == s.entries && t.requests == s.requests
    && t.startedRequests == s.startedRequests && t.activeRequests == s.activeRequests
    && t.reservedBytes == s.reservedBytes && t.committedBytes == s.committedBytes && t.lostUpdate == s.lostUpdate
  }

  lemma OtherFieldsFree(s: State, t: State)
    requires Accounted(s) && SameAccounts(s, t)
    ensures Accounted(t)
  {
  }

  lemma FailSame(s: State, cause: Predicate, ordinal: Option<nat>, owner: Option<nat>)
    ensures SameAccounts(s, EnterFail(s, cause, ordinal, owner))
  {
  }

  lemma ArmSame(s: State, e: Event)
    requires e.ArmCall? || e.ArmAppendSettled? || e.ArmResume?
    ensures SameAccounts(s, Next(s, e))
  {
  }

  lemma SessionStepSame(s: State, e: Event)
    requires !OfRequest(e) && !e.HandleCall?
    ensures SameAccounts(s, Next(s, e))
  {
    if e.ArmCall? || e.ArmAppendSettled? || e.ArmResume? {
      ArmSame(s, e);
    } else if e.CompleteCall? {
      FailSame(s, BrokerIncomplete, None, None);
    } else if e.AbortCall? {
      FailSame(s, ListenerRequestRejected, None, None);
    }
  }

  /** The events that concern one admitted request. */
  predicate OfRequest(e: Event) {
    e.IntentAppendSettled? || e.IntentResume? || e.FetchSettled? || e.ResponseAppendSettled? || e.ResponseResume?
      || e.FailResume?
  }

  lemma RequestStepKeeps(s: State, e: Event)
    requires Accounted(s) && Bounded(e, s.limits) && OfRequest(e)
    requires e.request < |s.requests|
    ensures Accounted(Next(s, e))
  {
    var i := e.request;
    var f := s.requests[i].frame;
    if e.IntentAppendSettled? {
      if f.IntentAppending? {
        FrameKeeps(s, i, IntentSettled(e.accepted));
        OtherFieldsFree(SetFrame(s, i, IntentSettled(e.accepted)), SettleIntent(s, i, e.accepted));
      }
    } else if e.IntentResume? {
      if f.IntentSettled? { ResumeIntentKeeps(s, i); }
    } else if e.FetchSettled? {
      if f.Fetching? { SettleFetchKeeps(s, i, e.result, e.bytes); }
    } else if e.ResponseAppendSettled? {
      if f.ResponseAppending? {
        FrameKeeps(s, i, ResponseSettled(f.body, f.nextCommitted, e.accepted));
        OtherFieldsFree(SetFrame(s, i, ResponseSettled(f.body, f.nextCommitted, e.accepted)),
                        SettleResponse(s, i, e.accepted));
      }
    } else if e.ResponseResume? {
      if f.ResponseSettled? { ResumeResponseKeeps(s, i); }
    } else {
      if f.FailEntered? { UnwindKeeps(s, i); }
    }
  }

  lemma SessionStepKeeps(s: State, e: Event)
    requires Accounted(s) && !OfRequest(e) && !e.HandleCall?
    ensures Accounted(Next(s, e))
  {
    SessionStepSame(s, e);
    OtherFieldsFree(s, Next(s, e));
  }

  lemma StepKeeps(s: State, e: Event)
    requires Accounted(s) && Bounded(e, s.limits)
    ensures Accounted(Next(s, e))
  {
    if OfRequest(e) {
      if e.request < |s.requests| { RequestStepKeeps(s, e); }
    } else if e.HandleCall? {
      HandleKeeps(s, e.parsed, e.bytes);
    } else {
      SessionStepKeeps(s, e);
    }
  }

  ghost predicate AllBounded(events: seq<Event>, limits: Limits) {
    forall k :: 0 <= k < |events| ==> Bounded(events[k], limits)
  }

  lemma FetchKeepsLimits(s: State, e: Event)
    requires e.FetchSettled? || e.IntentResume?
    ensures Next(s, e).limits == s.limits
  {
  }

  lemma RequestKeepsLimits(s: State, e: Event)
    requires OfRequest(e)
    ensures Next(s, e).limits == s.limits
  {
    if e.FetchSettled? || e.IntentResume? {
      FetchKeepsLimits(s, e);
    }
  }

  lemma StepKeepsLimits(s: State, e: Event)
    ensures Next(s, e).limits == s.limits
  {
    if OfRequest(e) {
      RequestKeepsLimits(s, e);
    } else if !e.HandleCall? {
      SessionStepSame(s, e);
    }
  }

  /** Every interleaving of bounded responses keeps the accounts. */
  lemma {:induction false} EveryRunIsAccounted(limits: Limits, gate: Gate, events: seq<Event>)
    requires AllBounded(events, limits)
    ensures Accounted(Run(Prepared(limits, gate), events)) && Run(Prepared(limits, gate), events).limits == limits
  {
    if events == [] {
      PreparedAccounted(limits, gate);
    } else {
      var before := events[..|events| - 1];
      EveryRunIsAccounted(limits, gate, before);
      var s := Run(Prepared(limits, gate), before);
      StepKeeps(s, events[|events| - 1]);
      StepKeepsLimits(s, events[|events| - 1]);
    }
  }

  // ----- Main results -----

  /**
    * Bytes reserved are the committed sizes plus one full response for every other admitted request, within every
    * cap.
    */
  ghost predicate ReservationsHold(s: State) {
    && |s.entries| <= s.startedRequests
    && s.reservedBytes == Committed(s.entries) + (s.startedRequests - |s.entries|) * s.limits.responseBytes
    && Committed(s.entries) <= s.reservedBytes <= s.limits.aggregateResponseBytes
    && 0 <= s.activeRequests <= s.limits.concurrentRequests
    && s.activeRequests <= s.startedRequests - |s.entries|
    && s.startedRequests <= s.limits.totalRequests
    && |s.names| <= s.limits.uniquePackageNames
  }

  lemma AccountedHolds(s: State)
    requires Accounted(s)
    ensures ReservationsHold(s)
  {
    FullResponsesIsProduct(s.startedRequests - |s.entries|, s.limits.responseBytes);
    CountsBound(s.requests);
  }

  /** Reservations are conserved and every cap holds, in every interleaving. */
  lemma ReservationsConservedAndCapped(limits: Limits, gate: Gate, events: seq<Event>)
    requires AllBounded(events, limits)
    ensures ReservationsHold(Run(Prepared(limits, gate), events))
  {
    EveryRunIsAccounted(limits, gate, events);
    AccountedHolds(Run(Prepared(limits, gate), events));
  }

  /** The aggregate test after a fetch is dead code: no bounded response reaches it over the limit. */
  lemma AggregateTestNeverFails(limits: Limits, gate: Gate, events: seq<Event>, i: nat, body: Body)
    requires AllBounded(events, limits) && |body| <= limits.responseBytes
    requires i < |Run(Prepared(limits, gate), events).requests|
    requires Run(Prepared(limits, gate), events).requests[i].frame.Fetching?
    ensures !Overflows(Run(Prepared(limits, gate), events), body)
  {
    EveryRunIsAccounted(limits, gate, events);
    OverflowNeverFires(Run(Prepared(limits, gate), events), i, body);
  }

  /** The event commits a byte count that is not the present one plus the size of its own response. */
  predicate Overwrites(s: State, e: Event) {
    && e.ResponseResume?
    && e.request < |s.requests|
    && s.requests[e.request].frame.ResponseSettled?
    && s.requests[e.request].frame.durable
    && s.phase == Armed
    && s.requests[e.request].frame.nextCommitted != s.committedBytes + |s.requests[e.request].frame.body|
  }

  lemma FailNotesNothing(s: State, i: nat, cause: Predicate)
    requires i < |s.requests|
    ensures FailRequest(s, i, cause).lostUpdate == s.lostUpdate
  {
  }

  lemma ResumeLostUpdate(s: State, i: nat)
    requires i < |s.requests| && s.requests[i].frame.ResponseSettled?
    ensures ResumeResponse(s, i).lostUpdate <==> s.lostUpdate || Overwrites(s, ResponseResume(i))
  {
    FailNotesNothing(s, i, SessionNotArmed);
    FailNotesNothing(s, i, ResponseValidationNotDurable);
  }

  lemma FetchNotesNothing(s: State, i: nat, result: FetchResult, bytes: nat)
    requires i < |s.requests| && s.requests[i].frame.Fetching?
    ensures SettleFetch(s, i, result, bytes).lostUpdate == s.lostUpdate
  {
    FailNotesNothing(s, i, if result.FetchFailed? then result.cause else SessionNotArmed);
  }

  lemma IntentNotesNothing(s: State, i: nat)
    requires i < |s.requests| && s.requests[i].frame.IntentSettled?
    ensures ResumeIntent(s, i).lostUpdate == s.lostUpdate
  {
    FailNotesNothing(s, i, SessionNotArmed);
    FailNotesNothing(s, i, RequestIntentNotDurable);
  }

  lemma RequestLostUpdate(s: State, e: Event)
    requires OfRequest(e) && e.request < |s.requests|
    ensures Next(s, e).lostUpdate <==> s.lostUpdate || Overwrites(s, e)
  {
    var f := s.requests[e.request].frame;
    match e
    case IntentResume(i) => if f.IntentSettled? { IntentNotesNothing(s, i); }
    case FetchSettled(i, result, bytes) => if f.Fetching? { FetchNotesNothing(s, i, result, bytes); }
    case ResponseResume(i) => if f.ResponseSettled? { ResumeLostUpdate(s, i); }
    case _ =>
  }

  lemma LostUpdateStep(s: State, e: Event)
    ensures Next(s, e).lostUpdate <==> s.lostUpdate || Overwrites(s, e)
  {
    if OfRequest(e) {
      if e.request < |s.requests| { RequestLostUpdate(s, e); }
    } else if !e.HandleCall? {
      SessionStepSame(s, e);
    }
  }

  predicate OverwritesAt(s: State, events: seq<Event>, k: int) {
    0 <= k < |events| && Overwrites(Run(s, events[..k]), events[k])
  }

  /** Some event of the run overwrites. */
  ghost predicate OverwritesInRun(s: State, events: seq<Event>) {
    exists k :: OverwritesAt(s, events, k)
  }

  lemma OverwritesAtPrefix(s: State, events: seq<Event>, n: nat, k: int)
    requires n <= |events| && k < n
    ensures OverwritesAt(s, events[..n], k) <==> OverwritesAt(s, events, k)
  {
    if 0 <= k {
      assert events[..n][..k] == events[..k];
    }
  }

  lemma OverwritesInRunStep(s: State, before: seq<Event>, e: Event)
    ensures OverwritesInRun(s, before + [e]) <==> OverwritesInRun(s, before) || Overwrites(Run(s, before), e)
  {
    var events := before + [e];
    assert events[..|before|] == before;
    assert OverwritesAt(s, events, |before|) <==> Overwrites(Run(s, before), e);
    forall k | k < |before| ensures OverwritesAt(s, before, k) <==> OverwritesAt(s, events, k) {
      OverwritesAtPrefix(s, events, |before|, k);
    }
  }

  lemma {:induction false} LostUpdateHistory(s: State, events: seq<Event>)
    ensures Run(s, events).lostUpdate <==> s.lostUpdate || OverwritesInRun(s, events)
  {
    if events != [] {
      var before := events[..|events| - 1];
      LostUpdateHistory(s, before);
      LostUpdateStep(Run(s, before), events[|events| - 1]);
      OverwritesInRunStep(s, before, events[|events| - 1]);
      assert before + [events[|events| - 1]] == events;
    }
  }

  /** The session's byte count is never above the entries' total. */
  ghost predicate TotalNotAbove(s: State) {
    s.committedBytes <= Committed(s.entries)
  }

  ghost predicate TotalExact(s: State) {
    s.committedBytes == Committed(s.entries)
  }

  lemma AccountedTotals(s: State)
    requires Accounted(s)
    ensures TotalNotAbove(s) && (TotalExact(s) <==> !s.lostUpdate)
  {
  }

  /** The byte count equals the entries' total exactly when no commit overwrote another one. */
  lemma TotalExactIffNothingOverwritten(limits: Limits, gate: Gate, events: seq<Event>)
    requires AllBounded(events, limits)
    ensures TotalNotAbove(Run(Prepared(limits, gate), events))
    ensures TotalExact(Run(Prepared(limits, gate), events)) <==> !OverwritesInRun(Prepared(limits, gate), events)
  {
    EveryRunIsAccounted(limits, gate, events);
    LostUpdateHistory(Prepared(limits, gate), events);
    AccountedTotals(Run(Prepared(limits, gate), events));
  }
}
