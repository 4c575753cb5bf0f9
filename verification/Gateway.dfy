/**
  * The gateway's handler for tool calls, cut at its awaits: every interleaving of handlers with decisions,
  * expiries, cancellations and the closing of the approval service, in which any audit write may throw.
  */
module Gateway {
  import opened Options
  import opened ApprovalService
  import opened AuditRecorder

  /** Where a handler is suspended. */
  datatype Stage = Evaluating | AwaitingApproval | AwaitingResult | Finished

  datatype Handler = Handler(subject: string, stage: Stage, aborted: bool, asks: bool, call: Option<Call>)

  /** A call of the upstream tool, and the table as it stood when it was made. */
  datatype Dispatch = Dispatch(handler: nat, table: seq<Row>)

  datatype State = State(
    handlers: map<nat, Handler>,
    approvals: Approvals,
    pendingRows: set<nat>,
    table: seq<Row>,
    dispatches: seq<Dispatch>,
    now: int)

  const START := State(map[], NO_APPROVALS, {}, [], [], 0)

  datatype Action = Forward | AskFirst | Refuse

  /**
    * What the environment may do next. `writes` says of each audit write of the step, in order, whether it commits;
    * a write it does not mention throws.
    */
  datatype Step =
    | Arrive(handler: nat, subject: string)
    | RejectIdentity(handler: nat, writes: seq<bool>)
    | Evaluated(handler: nat, action: Action, effective: Decision, coordinator: bool, ttl: int, writes: seq<bool>)
    | EvaluationFailed(handler: nat)
    | ApprovalSettled(handler: nat, writes: seq<bool>)
    | Returned(handler: nat, isError: bool, projects: bool, writes: seq<bool>)
    | Threw(handler: nat, writes: seq<bool>)
    | Abort(handler: nat)
    | Decide(ticket: nat, approve: bool)
    | Expire(ticket: nat)
    | Close
    | Clock(now: int)

  predicate Commits(writes: seq<bool>, i: nat) {
    i < |writes| && writes[i]
  }

  // ----- Pieces of one handler's run between two awaits -----

  function With(s: State, h: nat, handler: Handler): State {
    s.(handlers := s.handlers[h := handler])
  }

  function Finish(s: State, h: nat): State
    requires h in s.handlers
  {
    With(s, h, s.handlers[h].(stage := Finished))
  }

  /** The record after a mark, with its events in the table; unchanged when the mark throws. */
  function Commit(s: State, h: nat, m: Marked, commits: bool): State
    requires h in s.handlers
  {
    if m.Wrote? && commits then
      With(s, h, s.handlers[h].(call := Some(m.call))).(table := s.table + Rows(h, m.events))
    else s
  }

  predicate Committed(m: Marked, commits: bool) {
    m.Wrote? && commits
  }

  /** The durable pre-execution record, and only then the upstream call. */
  function ForwardCall(s: State, h: nat, commits: bool, digest: Digest): State
    requires h in s.handlers && s.handlers[h].call.Some?
  {
    var m := MarkForwarding(s.handlers[h].call.value, s.now, digest);
    if !Committed(m, commits) then Finish(s, h)
    else
      var t := Commit(s, h, m, commits);
      With(t, h, t.handlers[h].(stage := AwaitingResult)).(dispatches := t.dispatches + [Dispatch(h, t.table)])
  }

  function BlockCall(s: State, h: nat, status: BlockStatus, commits: bool, digest: Digest): State
    requires h in s.handlers && s.handlers[h].call.Some?
  {
    Finish(Commit(s, h, MarkBlocked(s.handlers[h].call.value, status, s.now, digest), commits), h)
  }

  function FailCall(s: State, h: nat, code: FailureCode, commits: bool, digest: Digest): State
    requires h in s.handlers && s.handlers[h].call.Some?
  {
    Finish(Commit(s, h, MarkFailed(s.handlers[h].call.value, code, s.now, digest), commits), h)
  }

  /** Opening the record of the call. */
  function Opened(s: State, h: nat, asks: bool, effective: Decision): State
    requires h in s.handlers
  {
    var t := With(s, h, s.handlers[h].(asks := asks, call := Some(Begin(h, s.handlers[h].subject, asks, effective))));
    t.(table := t.table + Rows(h, [DecisionRecorded]))
  }

  /** Asking: the ticket, its durable request, and cancellation when either the write or the caller has failed. */
  function AskCall(s: State, h: nat, ttl: int, writes: seq<bool>): State
    requires h in s.handlers && s.handlers[h].call.Some?
  {
    match RequestIn(s.approvals, h, s.now, ttl)
    case None => Finish(s, h)
    case Some(requested) =>
      var t := s.(approvals := requested);
      var m := MarkApprovalRequested(s.handlers[h].call.value, requested.pending[h]);
      if !Committed(m, Commits(writes, 1)) then
        Finish(t.(approvals := SettleIn(requested, h, Cancelled, s.now)), h)
      else
        var u := Commit(t, h, m, true).(pendingRows := t.pendingRows + {h});
        var v := With(u, h, u.handlers[h].(stage := AwaitingApproval));
        if v.handlers[h].aborted then v.(approvals := SettleIn(v.approvals, h, Cancelled, v.now)) else v
  }

  function Act(s: State, h: nat, action: Action, coordinator: bool, ttl: int, writes: seq<bool>, digest: Digest): State
    requires h in s.handlers && s.handlers[h].call.Some?
  {
    match action
    case Refuse => BlockCall(s, h, BlockedDenied, Commits(writes, 1), digest)
    case AskFirst =>
      if coordinator then AskCall(s, h, ttl, writes)
        else BlockCall(s, h, ApprovalUnavailable, Commits(writes, 1), digest)
    case Forward => ForwardCall(s, h, Commits(writes, 1), digest)
  }

  function AfterEvaluation(s: State, h: nat, action: Action, effective: Decision, coordinator: bool, ttl: int,
                           writes: seq<bool>, digest: Digest): State
    requires h in s.handlers
  {
    if !Commits(writes, 0) then Finish(s, h)
    else Act(Opened(s, h, action == AskFirst, effective), h, action, coordinator, ttl, writes, digest)
  }

  function AfterSettlement(s: State, h: nat, outcome: Outcome, writes: seq<bool>, digest: Digest): State
    requires h in s.handlers && s.handlers[h].call.Some?
  {
    var m := MarkApprovalResolved(s.handlers[h].call.value, outcome, h in s.pendingRows, s.now);
    if !Committed(m, Commits(writes, 0)) then Finish(s, h)
    else
      var t := Commit(s, h, m, true).(pendingRows := s.pendingRows - {h});
      if outcome != Approved then BlockCall(t, h, ApprovalBlocked(outcome), Commits(writes, 1), digest)
      else if t.handlers[h].aborted then FailCall(t, h, CancelledBeforeExecution, Commits(writes, 1), digest)
      else ForwardCall(t, h, Commits(writes, 1), digest)
  }

  function AfterReturn(s: State, h: nat, isError: bool, projects: bool, writes: seq<bool>, digest: Digest): State
    requires h in s.handlers && s.handlers[h].call.Some?
  {
    var m := MarkCompleted(s.handlers[h].call.value, isError, s.now, digest);
    var t := Commit(s, h, m, Commits(writes, 0));
    if Committed(m, Commits(writes, 0)) && projects then Finish(t, h)
    else FailCall(t, h, AuditCompletionFailed, Commits(writes, 1), digest)
  }

  predicate At(s: State, h: nat, stage: Stage) {
    h in s.handlers && s.handlers[h].stage == stage
  }

  predicate Resumable(s: State, h: nat, stage: Stage) {
    At(s, h, stage) && s.handlers[h].call.Some?
  }

  /** What a suspended handler can count on when it resumes. */
  predicate Ready(s: State, h: nat) {
    h in s.handlers ==>
      var hd := s.handlers[h];
      && (hd.stage == Evaluating ==> h !in s.approvals.pending && h !in s.approvals.settled)
      && (hd.call.Some? ==> hd.call.value.action == h
                            && (hd.call.value.dispatched ==> hd.call.value.authorization.Some?))
  }

  /** One step; a step that is not enabled changes nothing. */
  function Next(s: State, e: Step, digest: Digest): State {
    match e
    case Arrive(h, subject) =>
      if h in s.handlers then s else With(s, h, Handler(subject, Evaluating, false, false, None))
    case RejectIdentity(h, writes) =>
      if !At(s, h, Evaluating) then s
      else if !Commits(writes, 0) then Finish(s, h)
      else BlockCall(Opened(s, h, false, Deny), h, BlockedDenied, Commits(writes, 1), digest)
    case Evaluated(h, action, effective, coordinator, ttl, writes) =>
      if !At(s, h, Evaluating) then s else AfterEvaluation(s, h, action, effective, coordinator, ttl, writes, digest)
    case EvaluationFailed(h) => if !At(s, h, Evaluating) then s else Finish(s, h)
    case ApprovalSettled(h, writes) =>
      if !Resumable(s, h, AwaitingApproval) || h !in s.approvals.settled then s
      else AfterSettlement(s, h, s.approvals.settled[h].outcome, writes, digest)
    case Returned(h, isError, projects, writes) =>
      if !Resumable(s, h, AwaitingResult) then s else AfterReturn(s, h, isError, projects, writes, digest)
    case Threw(h, writes) =>
      if !Resumable(s, h, AwaitingResult) then s
      else FailCall(s, h, if s.handlers[h].aborted then CancelledDuringExecution else UpstreamError,
                    Commits(writes, 0), digest)
    case Abort(h) =>
      if h !in s.handlers then s
      else
        var t := With(s, h, s.handlers[h].(aborted := true));
        if s.handlers[h].stage == AwaitingApproval then t.(approvals := SettleIn(t.approvals, h, Cancelled, t.now))
          else t
    case Decide(ticket, approve) => s.(approvals := DecideIn(s.approvals, ticket, approve, s.now).0)
    case Expire(ticket) => s.(approvals := SettleIn(s.approvals, ticket, Expired, s.now))
    case Close => s.(approvals := CloseIn(s.approvals, s.now))
    case Clock(now) => s.(now := now)
  }

  function Run(s: State, steps: seq<Step>, digest: Digest): State
    decreases |steps|
  {
    if steps == [] then s else Run(Next(s, steps[0], digest), steps[1..], digest)
  }
}
