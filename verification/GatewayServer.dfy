/** The recorder and the tool-call handler as objects, each method tied to the step machine. */
module GatewayServer {
  import opened Options
  import opened ApprovalService
  import opened AuditRecorder
  import opened Gateway
  import opened GatewayEndings
  import opened GatewaySafety

  /** What a mark leaves behind: the new record and table when it committed, the old ones when it threw. */
  ghost predicate Applied(m: Marked, commits: bool, c: Call, before: seq<Row>, ok: bool, after: Call, table: seq<Row>) {
    && ok == Committed(m, commits)
    && after == (if ok then m.call else c)
    && table == (if ok then before + Rows(c.action, m.events) else before)
  }

  class SqliteAuditRecorder {
    const digest: Digest
    var table: seq<Row>
    var pendingRows: set<nat>

    constructor (digest: Digest)
      ensures this.digest == digest && table == [] && pendingRows == {}
    {
      this.digest, table, pendingRows := digest, [], {};
    }

    /** One transaction: all of its events, in order, or none. */
    method Transact(action: nat, events: seq<Event>)
      modifies this`table
      ensures table == old(table) + Rows(action, events)
    {
      for i := 0 to |events|
        invariant table == old(table) + Rows(action, events)[..i]
      {
        table := table + [Row(action, events[i])];
      }
    }

    method MarkApprovalRequested(c: Call, entry: Entry, commits: bool) returns (ok: bool, after: Call)
      modifies this
      ensures Applied(AuditRecorder.MarkApprovalRequested(c, entry), commits, c, old(table), ok, after, table)
      ensures pendingRows == if ok then old(pendingRows) + {c.action} else old(pendingRows)
    {
      if c.terminal || !commits {
        return false, c;
      }
      Transact(c.action, [ApprovalRequested(entry.expiresAt)]);
      pendingRows := pendingRows + {c.action};
      return true, c.(approval := Approval(true, Pending, Some(entry), None));
    }

    method MarkApprovalResolved(c: Call, outcome: Outcome, now: int, commits: bool) returns (ok: bool, after: Call)
      modifies this
      ensures Applied(AuditRecorder.MarkApprovalResolved(c, outcome, c.action in old(pendingRows), now), commits, c,
                      old(table), ok, after, table)
      ensures pendingRows == if ok then old(pendingRows) - {c.action} else old(pendingRows)
    {
      if c.terminal || c.action !in pendingRows || !commits {
        return false, c;
      }
      Transact(c.action, [ApprovalEvent(outcome)]);
      pendingRows := pendingRows - {c.action};
      return true, c.(approval := c.approval.(required := true, state := Resolved(outcome), decidedAt := Some(now)));
    }

    method MarkBlocked(c: Call, status: BlockStatus, now: int, commits: bool) returns (ok: bool, after: Call)
      modifies this`table
      ensures Applied(AuditRecorder.MarkBlocked(c, status, now, digest), commits, c, old(table), ok, after, table)
    {
      if c.terminal || c.dispatched {
        return false, c;
      }
      var approval := BlockedApproval(c.approval, status);
      var made := Authorization(c.action, c.subject, c.effective, approval, Blocked, now);
      if !ValidAuthorization(made) || !commits {
        return false, c;
      }
      Transact(c.action, [BlockEvent(status), Finalized(made, digest)]);
      return true, c.(approval := approval, authorization := Some(made), terminal := true);
    }

    method MarkForwarding(c: Call, now: int, commits: bool) returns (ok: bool, after: Call)
      modifies this`table
      ensures Applied(AuditRecorder.MarkForwarding(c, now, digest), commits, c, old(table), ok, after, table)
    {
      if c.terminal || c.dispatched || (c.approval.required && c.approval.state != Resolved(Approved)) {
        return false, c;
      }
      var made := Authorization(c.action, c.subject, c.effective, c.approval, Authorized, now);
      if !ValidAuthorization(made) || !commits {
        return false, c;
      }
      Transact(c.action, [Finalized(made, digest), ExecutionStart(digest(AuthorizationReceipt(made)))]);
      return true, c.(authorization := Some(made), startedAt := now, dispatched := true);
    }

    method MarkCompleted(c: Call, isError: bool, now: int, commits: bool) returns (ok: bool, after: Call)
      modifies this`table
      ensures Applied(AuditRecorder.MarkCompleted(c, isError, now, digest), commits, c, old(table), ok, after, table)
    {
      if c.terminal || !c.dispatched || c.authorization.None? || !commits {
        return false, c;
      }
      var outcome := OutcomeOf(c, if isError then UpstreamErrorResult else Completed, now, digest);
      Transact(c.action, [ExecutionCompleted(isError), FinalizedOutcome(outcome, digest)]);
      return true, c.(terminal := true);
    }

    method MarkFailed(c: Call, code: FailureCode, now: int, commits: bool) returns (ok: bool, after: Call)
      requires c.dispatched ==> c.authorization.Some?
      modifies this`table
      ensures var m := AuditRecorder.MarkFailed(c, code, now, digest);
              && after == (if Committed(m, commits) then m.call else c)
              && table == (if Committed(m, commits) then old(table) + Rows(c.action, m.events) else old(table))
    {
      if c.terminal {
        assert Rows(c.action, []) == [];
        return true, c;
      }
      var authorization := c.authorization;
      if authorization.None? {
        var made := Authorization(c.action, c.subject, c.effective, c.approval, FailedPreDispatch, now);
        if !ValidAuthorization(made) {
          return false, c;
        }
        authorization := Some(made);
      }
      after := c.(authorization := authorization, terminal := true);
      var events := [ExecutionFailed(code)];
      if c.authorization.None? {
        events := events + [Finalized(authorization.value, digest)];
      }
      if c.dispatched {
        events := events + [FinalizedOutcome(OutcomeOf(after, FailureTerminal(code), now, digest), digest)];
      }
      if !commits {
        return false, c;
      }
      Transact(c.action, events);
      return true, after;
    }
  }

  class GatewayServer {
    const recorder: SqliteAuditRecorder
    const coordinator: LocalApprovalService
    var handlers: map<nat, Handler>
    var dispatches: seq<Dispatch>
    var now: int

    constructor (recorder: SqliteAuditRecorder, coordinator: LocalApprovalService)
      requires recorder.table == [] && recorder.pendingRows == {} && coordinator.View() == NO_APPROVALS
      ensures View() == START && this.recorder == recorder && this.coordinator == coordinator
      ensures Valid()
    {
      this.recorder, this.coordinator, handlers, dispatches, now := recorder, coordinator, map[], [], 0;
      new;
      StartSafe(recorder.digest);
    }

    ghost function View(): State
      reads this, recorder, coordinator
    {
      State(handlers, Approvals(coordinator.pending, coordinator.closed, coordinator.settled),
            recorder.pendingRows, recorder.table, dispatches, now)
    }

    /** Every handler's record, table rows, dispatches and ticket agree, and no dispatch was made without its record. */
    ghost predicate Valid()
      reads this, recorder, coordinator
    {
      Safe(View(), recorder.digest)
    }

    method SetStage(h: nat, stage: Stage)
      requires h in handlers
      modifies this`handlers
      ensures handlers == old(handlers)[h := old(handlers)[h].(stage := stage)]
    {
      handlers := handlers[h := handlers[h].(stage := stage)];
    }

    method BlockCall(h: nat, status: BlockStatus, commits: bool)
      requires h in handlers && handlers[h].call.Some? && handlers[h].call.value.action == h
      modifies this`handlers, recorder`table
      ensures View() == Gateway.BlockCall(old(View()), h, status, commits, recorder.digest)
    {
      var ok, after := recorder.MarkBlocked(handlers[h].call.value, status, now, commits);
      handlers := handlers[h := handlers[h].(call := Some(after), stage := Finished)];
    }

    method FailCall(h: nat, code: FailureCode, commits: bool)
      requires h in handlers && handlers[h].call.Some? && handlers[h].call.value.action == h
      requires handlers[h].call.value.dispatched ==> handlers[h].call.value.authorization.Some?
      modifies this`handlers, recorder`table
      ensures View() == Gateway.FailCall(old(View()), h, code, commits, recorder.digest)
    {
      var ok, after := recorder.MarkFailed(handlers[h].call.value, code, now, commits);
      handlers := handlers[h := handlers[h].(call := Some(after), stage := Finished)];
    }

    /** The fail-closed boundary: without the committed record the upstream tool is not called. */
    method ForwardCall(h: nat, commits: bool)
      requires h in handlers && handlers[h].call.Some? && handlers[h].call.value.action == h
      modifies this`handlers, this`dispatches, recorder`table
      ensures View() == Gateway.ForwardCall(old(View()), h, commits, recorder.digest)
    {
      var ok, after := recorder.MarkForwarding(handlers[h].call.value, now, commits);
      handlers := handlers[h := handlers[h].(call := Some(after), stage := if ok then AwaitingResult else Finished)];
      if ok {
        dispatches := dispatches + [Dispatch(h, recorder.table)];
      }
    }

    method AskCall(h: nat, ttl: int, writes: seq<bool>)
      requires coordinator.Valid()
      requires h in handlers && handlers[h].call.Some? && handlers[h].call.value.action == h
      requires h !in coordinator.pending && h !in coordinator.settled
      modifies this`handlers, recorder, coordinator
      ensures View() == Gateway.AskCall(old(View()), h, ttl, writes)
    {
      var requested := coordinator.Request(h, now, ttl);
      if !requested {
        SetStage(h, Finished);
        return;
      }
      var ok, after := recorder.MarkApprovalRequested(handlers[h].call.value, coordinator.pending[h],
                                                      Commits(writes, 1));
      handlers := handlers[h := handlers[h].(call := Some(after), stage := if ok then AwaitingApproval else Finished)];
      if !ok || handlers[h].aborted {
        coordinator.Settle(h, Cancelled, now);
      }
    }

    method Open(h: nat, asks: bool, effective: Decision)
      requires h in handlers
      modifies this`handlers, recorder`table
      ensures View() == Gateway.Opened(old(View()), h, asks, effective)
    {
      handlers := handlers[h := handlers[h].(asks := asks,
                                             call := Some(Begin(h, handlers[h].subject, asks, effective)))];
      recorder.Transact(h, [DecisionRecorded]);
    }

    method RejectIdentity(h: nat, writes: seq<bool>)
      requires Valid()
      modifies this`handlers, recorder`table
      ensures View() == Next(old(View()), Step.RejectIdentity(h, writes), recorder.digest)
      ensures Valid() && DispatchSafety(View(), recorder.digest)
      ensures Moved(old(View()), Step.RejectIdentity(h, writes), View(), recorder.digest)
    {
      if h in handlers && handlers[h].stage == Evaluating {
        Reject(h, writes);
      }
      StepKeeps(old(View()), Step.RejectIdentity(h, writes), View(), recorder.digest);
    }

    method Reject(h: nat, writes: seq<bool>)
      requires At(View(), h, Evaluating)
      modifies this`handlers, recorder`table
      ensures View() == Next(old(View()), Step.RejectIdentity(h, writes), recorder.digest)
    {
      if !Commits(writes, 0) {
        SetStage(h, Finished);
        return;
      }
      Open(h, false, Deny);
      BlockCall(h, BlockedDenied, Commits(writes, 1));
    }

    method Evaluated(h: nat, action: Action, effective: Decision, hasCoordinator: bool, ttl: int, writes: seq<bool>)
      requires Valid()
      modifies this, recorder, coordinator
      ensures View() == Next(old(View()), Step.Evaluated(h, action, effective, hasCoordinator, ttl, writes),
                             recorder.digest)
      ensures Valid() && DispatchSafety(View(), recorder.digest)
      ensures Moved(old(View()), Step.Evaluated(h, action, effective, hasCoordinator, ttl, writes), View(),
                    recorder.digest)
    {
      if h in handlers && handlers[h].stage == Evaluating {
        SafeIsReady(View(), h, recorder.digest);
        FollowPolicy(h, action, effective, hasCoordinator, ttl, writes);
      }
      StepKeeps(old(View()), Step.Evaluated(h, action, effective, hasCoordinator, ttl, writes), View(),
                recorder.digest);
    }

    method FollowPolicy(h: nat, action: Action, effective: Decision, hasCoordinator: bool, ttl: int, writes: seq<bool>)
      requires At(View(), h, Evaluating) && Ready(View(), h) && coordinator.Valid()
      modifies this, recorder, coordinator
      ensures View() == AfterEvaluation(old(View()), h, action, effective, hasCoordinator, ttl, writes, recorder.digest)
    {
      if !Commits(writes, 0) {
        SetStage(h, Finished);
        return;
      }
      Open(h, action == AskFirst, effective);
      match action {
        case Refuse => BlockCall(h, BlockedDenied, Commits(writes, 1));
        case AskFirst =>
          if !hasCoordinator {
            BlockCall(h, ApprovalUnavailable, Commits(writes, 1));
          } else {
            AskCall(h, ttl, writes);
          }
        case Forward => ForwardCall(h, Commits(writes, 1));
      }
    }

    method EvaluationFailed(h: nat)
      requires Valid()
      modifies this`handlers
      ensures View() == Next(old(View()), Step.EvaluationFailed(h), recorder.digest)
      ensures Valid() && DispatchSafety(View(), recorder.digest)
      ensures Moved(old(View()), Step.EvaluationFailed(h), View(), recorder.digest)
    {
      if h in handlers && handlers[h].stage == Evaluating {
        SetStage(h, Finished);
      }
      StepKeeps(old(View()), Step.EvaluationFailed(h), View(), recorder.digest);
    }

    method ApprovalSettled(h: nat, writes: seq<bool>)
      requires Valid()
      modifies this, recorder
      ensures View() == Next(old(View()), Step.ApprovalSettled(h, writes), recorder.digest)
      ensures Valid() && DispatchSafety(View(), recorder.digest)
      ensures Moved(old(View()), Step.ApprovalSettled(h, writes), View(), recorder.digest)
    {
      if h in handlers && handlers[h].stage == AwaitingApproval && handlers[h].call.Some? && h in coordinator.settled {
        SafeIsReady(View(), h, recorder.digest);
        FollowApproval(h, coordinator.settled[h].outcome, writes);
      }
      StepKeeps(old(View()), Step.ApprovalSettled(h, writes), View(), recorder.digest);
    }

    method FollowApproval(h: nat, outcome: Outcome, writes: seq<bool>)
      requires Resumable(View(), h, AwaitingApproval) && Ready(View(), h)
      modifies this, recorder
      ensures View() == AfterSettlement(old(View()), h, outcome, writes, recorder.digest)
    {
      var ok, after := recorder.MarkApprovalResolved(handlers[h].call.value, outcome, now, Commits(writes, 0));
      if !ok {
        SetStage(h, Finished);
        return;
      }
      handlers := handlers[h := handlers[h].(call := Some(after))];
      if outcome != Approved {
        BlockCall(h, ApprovalBlocked(outcome), Commits(writes, 1));
      } else if handlers[h].aborted {
        FailCall(h, CancelledBeforeExecution, Commits(writes, 1));
      } else {
        ForwardCall(h, Commits(writes, 1));
      }
    }

    method Returned(h: nat, isError: bool, projects: bool, writes: seq<bool>)
      requires Valid()
      modifies this, recorder
      ensures View() == Next(old(View()), Step.Returned(h, isError, projects, writes), recorder.digest)
      ensures Valid() && DispatchSafety(View(), recorder.digest)
      ensures Moved(old(View()), Step.Returned(h, isError, projects, writes), View(), recorder.digest)
    {
      if h in handlers && handlers[h].stage == AwaitingResult && handlers[h].call.Some? {
        SafeIsReady(View(), h, recorder.digest);
        Complete(h, isError, projects, writes);
      }
      StepKeeps(old(View()), Step.Returned(h, isError, projects, writes), View(), recorder.digest);
    }

    method Complete(h: nat, isError: bool, projects: bool, writes: seq<bool>)
      requires Resumable(View(), h, AwaitingResult) && Ready(View(), h)
      modifies this, recorder
      ensures View() == AfterReturn(old(View()), h, isError, projects, writes, recorder.digest)
    {
      var ok, after := recorder.MarkCompleted(handlers[h].call.value, isError, now, Commits(writes, 0));
      if ok && projects {
        handlers := handlers[h := handlers[h].(call := Some(after), stage := Finished)];
        return;
      }
      handlers := handlers[h := handlers[h].(call := Some(after))];
      assert handlers == if ok then old(handlers)[h := old(handlers[h]).(call := Some(after))] else old(handlers);
      FailCall(h, AuditCompletionFailed, Commits(writes, 1));
    }

    method Threw(h: nat, writes: seq<bool>)
      requires Valid()
      modifies this, recorder
      ensures View() == Next(old(View()), Step.Threw(h, writes), recorder.digest)
      ensures Valid() && DispatchSafety(View(), recorder.digest)
      ensures Moved(old(View()), Step.Threw(h, writes), View(), recorder.digest)
    {
      if h in handlers && handlers[h].stage == AwaitingResult && handlers[h].call.Some? {
        SafeIsReady(View(), h, recorder.digest);
        FailCall(h, if handlers[h].aborted then CancelledDuringExecution else UpstreamError, Commits(writes, 0));
      }
      StepKeeps(old(View()), Step.Threw(h, writes), View(), recorder.digest);
    }

    method Abort(h: nat)
      requires Valid()
      modifies this`handlers, coordinator
      ensures View() == Next(old(View()), Step.Abort(h), recorder.digest)
      ensures Valid() && DispatchSafety(View(), recorder.digest)
      ensures Moved(old(View()), Step.Abort(h), View(), recorder.digest)
    {
      if h in handlers {
        handlers := handlers[h := handlers[h].(aborted := true)];
        if handlers[h].stage == AwaitingApproval {
          coordinator.Settle(h, Cancelled, now);
        }
      }
      StepKeeps(old(View()), Step.Abort(h), View(), recorder.digest);
    }

    method Arrive(h: nat, subject: string)
      requires Valid()
      modifies this`handlers
      ensures View() == Next(old(View()), Step.Arrive(h, subject), recorder.digest)
      ensures Valid() && DispatchSafety(View(), recorder.digest)
      ensures Moved(old(View()), Step.Arrive(h, subject), View(), recorder.digest)
    {
      if h !in handlers {
        handlers := handlers[h := Handler(subject, Evaluating, false, false, None)];
      }
      StepKeeps(old(View()), Step.Arrive(h, subject), View(), recorder.digest);
    }

    /** The steps of the approval service and of the clock. */
    method Elsewhere(e: Step)
      requires Valid() && (e.Decide? || e.Expire? || e.Close? || e.Clock?)
      modifies this`now, coordinator
      ensures View() == Next(old(View()), e, recorder.digest)
      ensures Valid() && DispatchSafety(View(), recorder.digest)
      ensures Moved(old(View()), e, View(), recorder.digest)
    {
      match e {
        case Decide(ticket, approve) => var _ := coordinator.Decide(ticket, approve, now);
        case Expire(ticket) => coordinator.Settle(ticket, Expired, now);
        case Close => coordinator.Close(now);
        case Clock(time) => now := time;
      }
      StepKeeps(old(View()), e, View(), recorder.digest);
    }

    /** Any one step. */
    method Take(e: Step)
      requires Valid()
      modifies this, recorder, coordinator
      ensures View() == Next(old(View()), e, recorder.digest)
      ensures Valid() && DispatchSafety(View(), recorder.digest)
      ensures Moved(old(View()), e, View(), recorder.digest)
    {
      match e {
        case Arrive(h, subject) => Arrive(h, subject);
        case RejectIdentity(h, writes) => RejectIdentity(h, writes);
        case Evaluated(h, action, effective, hasCoordinator, ttl, writes) =>
          Evaluated(h, action, effective, hasCoordinator, ttl, writes);
        case EvaluationFailed(h) => EvaluationFailed(h);
        case ApprovalSettled(h, writes) => ApprovalSettled(h, writes);
        case Returned(h, isError, projects, writes) => Returned(h, isError, projects, writes);
        case Threw(h, writes) => Threw(h, writes);
        case Abort(h) => Abort(h);
        case Decide(_, _) => Elsewhere(e);
        case Expire(_) => Elsewhere(e);
        case Close => Elsewhere(e);
        case Clock(_) => Elsewhere(e);
      }
    }
  }

  /** What each method's step keeps, and so what its caller is promised. */
  lemma StepKeeps(s: State, e: Step, t: State, digest: Digest)
    requires Safe(s, digest) && t == Next(s, e, digest)
    ensures Safe(t, digest) && DispatchSafety(t, digest) && Moved(s, e, t, digest)
  {
    EveryStepMoves(s, e, digest);
    NextSafe(s, e, digest);
    SafeDispatches(t, digest);
  }

  /** A server taking any steps makes the machine's run: after it every dispatch is single, recorded and approved. */
  method Serve(steps: seq<Step>, digest: Digest) returns (server: GatewayServer)
    ensures fresh(server) && server.recorder.digest == digest
    ensures server.View() == Run(START, steps, digest)
    ensures server.Valid() && DispatchSafety(server.View(), digest) && Told(server.View(), steps, digest)
  {
    RunIsTold(steps, digest);
    var recorder := new SqliteAuditRecorder(digest);
    var coordinator := new LocalApprovalService();
    server := new GatewayServer(recorder, coordinator);
    StepKeeps(START, Clock(0), START, digest);
    for i := 0 to |steps|
      invariant server.recorder == recorder && server.coordinator == coordinator
      invariant Run(START, steps, digest) == Run(server.View(), steps[i..], digest)
      invariant server.Valid() && DispatchSafety(server.View(), digest)
    {
      server.Take(steps[i]);
      assert steps[i..][1..] == steps[i + 1..];
    }
  }
}
