/** The hardened metadata broker as a state machine: one event per stretch of code between two awaits. */
module MetadataBroker {
  import opened Numbers
  import opened Options
  import opened AuditTrace
  import opened Numbering

  type Body = seq<Byte>

  datatype Limits = Limits(
    uniquePackageNames: nat,
    totalRequests: nat,
    concurrentRequests: nat,
    responseBytes: nat,
    aggregateResponseBytes: nat)

  // ----- The audit gate -----

  datatype Gate = Gate(records: seq<Record>, payloadBytes: nat, terminal: bool)

  const MAX_PAYLOAD_BYTES: nat := 4 * 1024
  const MAX_RECORDS: nat := 1_024
  const MAX_TOTAL_PAYLOAD_BYTES: nat := 2 * 1024 * 1024
  const MAX_RESPONSE_BYTES: nat := 8 * 1024 * 1024
  const MAX_NAME_LENGTH: nat := 256

  /** The tests `record` makes before it awaits the sink; `bytes` is the size of the payload's canonical text. */
  predicate Admits(gate: Gate, payloadValid: bool, bytes: nat) {
    && !gate.terminal
    && payloadValid
    && bytes <= MAX_PAYLOAD_BYTES
    && |gate.records| < MAX_RECORDS
    && gate.payloadBytes + bytes <= MAX_TOTAL_PAYLOAD_BYTES
  }

  /** What `record` does once the sink has accepted the event. */
  function Pushed(gate: Gate, record: Record, bytes: nat): Gate {
    Gate(gate.records + [record], gate.payloadBytes + bytes,
         gate.terminal || record.event == GenesisComplete || record.event == GenesisIncomplete)
  }

  predicate SafeName(name: string) {
    |name| <= MAX_NAME_LENGTH && forall c :: c in name ==> ' ' <= c && c != '\U{007f}'
  }

  function RequestRecord(sequence: nat, name: string): Record {
    Record(MetadataRequestStarted, map["sequence" := Number(sequence), "packageName" := Text(name)])
  }

  function ResponseRecord(sequence: nat, name: string, bytes: nat): Record {
    Record(MetadataResponseValidated,
           map["sequence" := Number(sequence), "packageName" := Text(name), "responseBytes" := Number(bytes)])
  }

  predicate IsMetadata(record: Record) {
    record.event == MetadataRequestStarted || record.event == MetadataResponseValidated
  }

  // ----- The session -----

  datatype Phase = Disarmed | Armed | Failing | Incomplete | Complete

  datatype Predicate =
    | ListenerRequestRejected
    | RequestRouteRejected
    | SessionNotArmed
    | TotalRequestLimit
    | ConcurrentRequestLimit
    | UniqueNameLimit
    | AggregateReservationLimit
    | RequestIntentNotDurable
    | ResponseValidationNotDurable
    | TransportRejected(incomplete: bool)
    | BrokerIncomplete
    | Unclassified

  datatype Entry = Entry(sequence: nat, packageName: string, body: Body)
  {
    function ResponseBytes(): nat { |body| }
  }

  /** Where one `handle` call, past its reservation, is suspended. */
  datatype Frame =
    | IntentAppending(bytes: nat)
    | IntentSettled(durable: bool)
    | Fetching
    | ResponseAppending(body: Body, nextCommitted: nat, bytes: nat)
    | ResponseSettled(body: Body, nextCommitted: nat, durable: bool)
    | FailEntered
    | Returned(committed: bool)

  datatype Request = Request(packageName: string, frame: Frame)

  datatype ArmFrame = ArmIdle | ArmAppending(bytes: nat) | ArmSettled(durable: bool) | ArmReturned(armed: bool)

  datatype Failure = Failure(
    cause: Predicate,
    requestOrdinal: Option<nat>,
    reservedRequestCount: nat,
    activeRequestCount: int,
    committedResponseCount: nat,
    committedResponseBytes: nat)

  /**
    * One passage through `#fail`: its summary, the request whose frame waits for the callback, and whether the
    * callback settled.
    */
  datatype FailRun = FailRun(summary: Failure, owner: Option<nat>, settled: bool)

  datatype Ledger = Ledger(
    startedRequestCount: nat,
    uniquePackageCount: nat,
    aggregateResponseBytes: nat,
    entries: seq<Entry>)

  /**
    * `armedOver` and `lostUpdate` are history: a failure preceded arming; a commit overwrote another one's byte
    * count.
    */
  datatype State = State(
    limits: Limits,
    phase: Phase,
    aborted: bool,
    leaseUsed: bool,
    arm: ArmFrame,
    names: set<string>,
    entries: seq<Entry>,
    startedRequests: nat,
    activeRequests: int,
    reservedBytes: int,
    committedBytes: nat,
    requests: seq<Request>,
    failures: seq<FailRun>,
    claimed: set<nat>,
    claims: seq<nat>,
    ledgers: seq<Ledger>,
    gate: Gate,
    armedOver: bool,
    lostUpdate: bool)

  function Prepared(limits: Limits, gate: Gate): State {
    State(limits, Disarmed, false, false, ArmIdle, {}, [], 0, 0, 0, 0, [], [], {}, [], [], gate, false, false)
  }

  datatype FetchResult = Fetched(body: Body) | FetchFailed(cause: Predicate)

  datatype Event =
    | ArmCall(leaseAccepted: bool, bytes: nat)
    | ArmAppendSettled(accepted: bool)
    | ArmResume
    | HandleCall(parsed: Option<string>, bytes: nat)
    | IntentAppendSettled(request: nat, accepted: bool)
    | IntentResume(request: nat)
    | FetchSettled(request: nat, result: FetchResult, bytes: nat)
    | ResponseAppendSettled(request: nat, accepted: bool)
    | ResponseResume(request: nat)
    | FailureCallbackSettled(run: nat)
    | FailResume(request: nat)
    | CompleteCall
    | AbortCall
    | ClaimCall
    | OtherRecord(record: Record, bytes: nat)
    | TerminalPrepared

  // ----- Transitions -----

  /** `#fail` up to its await: the first passage wins, later ones return at once. */
  function EnterFail(s: State, cause: Predicate, ordinal: Option<nat>, owner: Option<nat>): State {
    if s.phase == Incomplete || s.phase == Failing || s.phase == Complete then s
    else
      var summary := Failure(cause, ordinal, s.startedRequests, s.activeRequests, |s.entries|, s.committedBytes);
      s.(phase := Failing, aborted := true, failures := s.failures + [FailRun(summary, owner, false)])
  }

  function SetFrame(s: State, i: nat, frame: Frame): State
    requires i < |s.requests|
  {
    s.(requests := s.requests[i := s.requests[i].(frame := frame)])
  }

  function FailRequest(s: State, i: nat, cause: Predicate): State
    requires i < |s.requests|
  {
    EnterFail(SetFrame(s, i, FailEntered), cause, Some(i + 1), Some(i))
  }

  /** The refusals of `reserve`, in the order it tests them. */
  function ReserveError(s: State, name: string): Option<Predicate> {
    if s.phase != Armed then Some(SessionNotArmed)
    else if s.startedRequests >= s.limits.totalRequests then Some(TotalRequestLimit)
    else if s.activeRequests >= s.limits.concurrentRequests then Some(ConcurrentRequestLimit)
    else if name !in s.names && |s.names| >= s.limits.uniquePackageNames then Some(UniqueNameLimit)
    else if s.reservedBytes + s.limits.responseBytes > s.limits.aggregateResponseBytes
      then Some(AggregateReservationLimit)
    else None
  }

  function Reserved(s: State, name: string, frame: Frame): State {
    s.(startedRequests := s.startedRequests + 1,
       activeRequests := s.activeRequests + 1,
       reservedBytes := s.reservedBytes + s.limits.responseBytes,
       names := s.names + {name},
       requests := s.requests + [Request(name, frame)])
  }

  function Handle(s: State, parsed: Option<string>, bytes: nat): State {
    match parsed
    case None => EnterFail(s, RequestRouteRejected, None, None)
    case Some(name) =>
      match ReserveError(s, name)
      case Some(refusal) => EnterFail(s, refusal, None, None)
      case None =>
        Reserved(s, name, if Admits(s.gate, SafeName(name), bytes) then IntentAppending(bytes)
          else IntentSettled(false))
  }

  function SettleIntent(s: State, i: nat, accepted: bool): State
    requires i < |s.requests| && s.requests[i].frame.IntentAppending?
  {
    var t := SetFrame(s, i, IntentSettled(accepted));
    if accepted then t.(gate := Pushed(s.gate, RequestRecord(i + 1, s.requests[i].packageName),
                                       s.requests[i].frame.bytes))
    else t
  }

  function ResumeIntent(s: State, i: nat): State
    requires i < |s.requests| && s.requests[i].frame.IntentSettled?
  {
    if !s.requests[i].frame.durable then FailRequest(s, i, RequestIntentNotDurable)
    else if s.phase != Armed then FailRequest(s, i, SessionNotArmed)
    else SetFrame(s, i, Fetching)
  }

  /** The aggregate test made on a response before it is recorded. */
  predicate Overflows(s: State, body: Body) {
    s.committedBytes + |body| > s.limits.aggregateResponseBytes
  }

  function SettleFetch(s: State, i: nat, result: FetchResult, bytes: nat): State
    requires i < |s.requests| && s.requests[i].frame.Fetching?
  {
    match result
    case FetchFailed(cause) => FailRequest(s, i, cause)
    case Fetched(body) =>
      if s.phase != Armed || s.aborted then FailRequest(s, i, SessionNotArmed)
      else if Overflows(s, body) then FailRequest(s, i, Unclassified)
      else if Admits(s.gate, SafeName(s.requests[i].packageName) && 1 <= |body| <= MAX_RESPONSE_BYTES, bytes) then
        SetFrame(s, i, ResponseAppending(body, s.committedBytes + |body|, bytes))
      else SetFrame(s, i, ResponseSettled(body, s.committedBytes + |body|, false))
  }

  function SettleResponse(s: State, i: nat, accepted: bool): State
    requires i < |s.requests| && s.requests[i].frame.ResponseAppending?
  {
    var f := s.requests[i].frame;
    var t := SetFrame(s, i, ResponseSettled(f.body, f.nextCommitted, accepted));
    if accepted then t.(gate := Pushed(s.gate, ResponseRecord(i + 1, s.requests[i].packageName, |f.body|), f.bytes))
    else t
  }

  function ResumeResponse(s: State, i: nat): State
    requires i < |s.requests| && s.requests[i].frame.ResponseSettled?
  {
    var f := s.requests[i].frame;
    if !f.durable then FailRequest(s, i, ResponseValidationNotDurable)
    else if s.phase != Armed then FailRequest(s, i, SessionNotArmed)
    else
      SetFrame(s, i, Returned(true)).(
        entries := s.entries + [Entry(i + 1, s.requests[i].packageName, f.body)],
        committedBytes := f.nextCommitted,
        reservedBytes := s.reservedBytes - s.limits.responseBytes + |f.body|,
        activeRequests := s.activeRequests - 1,
        lostUpdate := s.lostUpdate || f.nextCommitted != s.committedBytes + |f.body|)
  }

  predicate WaitsForCallback(s: State, i: nat) {
    exists k :: 0 <= k < |s.failures| && s.failures[k].owner == Some(i) && !s.failures[k].settled
  }

  /** Insertion by sequence number, the order `complete` sorts into. */
  function Insert(e: Entry, es: seq<Entry>): seq<Entry> {
    if es == [] || e.sequence <= es[0].sequence then [e] + es else [es[0]] + Insert(e, es[1..])
  }

  function SortBySequence(es: seq<Entry>): seq<Entry> {
    if es == [] then [] else Insert(es[0], SortBySequence(es[1..]))
  }

  predicate Completable(s: State) {
    && s.phase == Armed
    && s.activeRequests == 0
    && |s.entries| != 0
    && |s.entries| == s.startedRequests
  }

  function LedgerOf(s: State): Ledger {
    Ledger(s.startedRequests, |s.names|, s.committedBytes, SortBySequence(s.entries))
  }

  function CompleteSession(s: State): State {
    if Completable(s) then s.(phase := Complete, ledgers := s.ledgers + [LedgerOf(s)])
    else EnterFail(s, BrokerIncomplete, None, None)
  }

  /** `claimFailure`: the latest summary, unless it was claimed before. */
  function Claim(s: State): State {
    if s.failures == [] || |s.failures| - 1 in s.claimed then s
    else s.(claimed := s.claimed + {|s.failures| - 1}, claims := s.claims + [|s.failures| - 1])
  }

  /** One event; an event that is not enabled leaves the state as it is. */
  function Next(s: State, e: Event): State {
    match e
    case ArmCall(leaseAccepted, bytes) =>
      if s.phase != Disarmed || s.leaseUsed || !leaseAccepted then s
      else s.(leaseUsed := true, arm := if Admits(s.gate, true, bytes) then ArmAppending(bytes) else ArmSettled(false))
    case ArmAppendSettled(accepted) =>
      if !s.arm.ArmAppending? then s
      else if accepted then s.(arm := ArmSettled(true), gate := Pushed(s.gate, Record(BrokerArmed, map[]), s.arm.bytes))
      else s.(arm := ArmSettled(false))
    case ArmResume =>
      if !s.arm.ArmSettled? then s
      else if s.arm.durable then s.(phase := Armed, arm := ArmReturned(true), armedOver := s.armedOver
        || s.failures != [])
      else s.(arm := ArmReturned(false))
    case HandleCall(parsed, bytes) => Handle(s, parsed, bytes)
    case IntentAppendSettled(i, accepted) =>
      if i < |s.requests| && s.requests[i].frame.IntentAppending? then SettleIntent(s, i, accepted) else s
    case IntentResume(i) =>
      if i < |s.requests| && s.requests[i].frame.IntentSettled? then ResumeIntent(s, i) else s
    case FetchSettled(i, result, bytes) =>
      if i < |s.requests| && s.requests[i].frame.Fetching? then SettleFetch(s, i, result, bytes) else s
    case ResponseAppendSettled(i, accepted) =>
      if i < |s.requests| && s.requests[i].frame.ResponseAppending? then SettleResponse(s, i, accepted) else s
    case ResponseResume(i) =>
      if i < |s.requests| && s.requests[i].frame.ResponseSettled? then ResumeResponse(s, i) else s
    case FailureCallbackSettled(k) =>
      if k < |s.failures| && !s.failures[k].settled
      then s.(phase := Incomplete, failures := s.failures[k := s.failures[k].(settled := true)]) else s
    case FailResume(i) =>
      if i < |s.requests| && s.requests[i].frame.FailEntered? && !WaitsForCallback(s, i)
      then SetFrame(s, i, Returned(false)).(activeRequests := s.activeRequests - 1) else s
    case CompleteCall => CompleteSession(s)
    case AbortCall => EnterFail(s, ListenerRequestRejected, None, None)
    case ClaimCall => Claim(s)
    case OtherRecord(record, bytes) =>
      if IsMetadata(record) then s else s.(gate := Pushed(s.gate, record, bytes))
    case TerminalPrepared => s.(gate := s.gate.(terminal := true))
  }

  function Run(s: State, events: seq<Event>): State {
    if events == [] then s else Next(Run(s, events[..|events| - 1]), events[|events| - 1])
  }

  /** The transport never returns more than it was told to. */
  predicate Bounded(e: Event, limits: Limits) {
    e.FetchSettled? && e.result.Fetched? ==> |e.result.body| <= limits.responseBytes
  }
}
