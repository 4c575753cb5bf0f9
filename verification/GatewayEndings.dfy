/** Every run of the gateway brings each call where the steps that decide it say. */
module GatewayEndings {
  import opened Options
  import opened ApprovalService
  import opened AuditRecorder
  import opened Gateway
  import opened GatewaySafety
  import opened CallStories
  import opened CallMoves

  // ----- What the state shows of a call -----

  /** The receipts in the table, each beside its digest. */
  ghost predicate Shows(records: seq<Record>, receipts: seq<Receipt>, digest: Digest) {
    |records| == |receipts| && forall i :: 0 <= i < |records| ==> records[i] == Record(receipts[i], digest(receipts[i]))
  }

  ghost predicate Traced(s: State, h: nat, receipts: seq<Receipt>, called: bool, digest: Digest) {
    Shows(Receipts(s.table, h), receipts, digest) && DispatchCount(s.dispatches, h) == if called then 1 else 0
  }

  /** The record of a call that awaits its ticket. */
  function AskedCall(h: nat, subject: string, effective: Decision, entry: Entry): Call {
    Call(h, subject, effective, false, false, 0, None, Approval(true, Pending, Some(entry), None))
  }

  predicate TicketTold(a: Approvals, h: nat, entry: Entry, fate: Option<Settlement>) {
    match fate
    case None => h in a.pending && a.pending[h] == entry && h !in a.settled
    case Some(settlement) => h !in a.pending && h in a.settled && a.settled[h] == settlement
  }

  predicate RunningCall(c: Call, h: nat, a: Authorization, startedAt: int) {
    && c.action == h && a.action == h && c.authorization == Some(a) && c.dispatched && !c.terminal
    && c.startedAt == startedAt
  }

  ghost predicate Tracks(s: State, x: Story, h: nat, digest: Digest) {
    match x
    case Absent =>
      h !in s.handlers && !HasTicket(s.approvals, h) && h !in s.pendingRows && Traced(s, h, [], false, digest)
    case Undecided(subject, aborted) =>
      && h in s.handlers && s.handlers[h] == Handler(subject, Evaluating, aborted, false, None)
      && !HasTicket(s.approvals, h) && h !in s.pendingRows && Traced(s, h, [], false, digest)
    case Asking(subject, aborted, effective, entry, fate) =>
      && h in s.handlers
      && s.handlers[h] ==
         Handler(subject, AwaitingApproval, aborted, true, Some(AskedCall(h, subject, effective, entry)))
      && entry.visible && TicketTold(s.approvals, h, entry, fate) && h in s.pendingRows
      && Traced(s, h, [], false, digest)
    case Running(aborted, asks, a, startedAt) =>
      && h in s.handlers && s.handlers[h].stage == AwaitingResult && s.handlers[h].aborted == aborted
      && s.handlers[h].asks == asks && s.handlers[h].call.Some?
      && RunningCall(s.handlers[h].call.value, h, a, startedAt)
      && Traced(s, h, [AuthorizationReceipt(a)], true, digest)
    case Over(receipts, called) =>
      h in s.handlers && s.handlers[h].stage == Finished && Traced(s, h, receipts, called, digest)
  }

  // ----- Pieces of a handler's run -----

  lemma CommitShows(s: State, h: nat, m: Marked)
    requires h in s.handlers && m.Wrote?
    ensures Receipts(Commit(s, h, m, true).table, h) == Receipts(s.table, h) + ReceiptsOf(m.events)
    ensures Commit(s, h, m, true).dispatches == s.dispatches && Commit(s, h, m, true).pendingRows == s.pendingRows
  {
    CommitAdds(s.table, h, m.events, h);
  }

  lemma ReceiptsOfOne(e: Event)
    ensures ReceiptsOf([e]) == ReceiptIn(e)
  {
    assert [e][1..] == [];
    assert ReceiptsOf([]) == [];
  }

  lemma ReceiptsOfPair(a: Event, b: Event)
    ensures ReceiptsOf([a, b]) == ReceiptIn(a) + ReceiptIn(b)
  {
    ReceiptsOfTwo(a, b);
    ReceiptsOfOne(a);
    ReceiptsOfOne(b);
  }

  /** A handler whose call has been opened and has left no receipt. */
  ghost predicate Fresh(s: State, h: nat) {
    && h in s.handlers && s.handlers[h].call.Some? && s.handlers[h].call.value.action == h
    && Untold(s.handlers[h].call.value) && Receipts(s.table, h) == [] && DispatchCount(s.dispatches, h) == 0
  }

  lemma BlockTells(s: State, h: nat, status: BlockStatus, commits: bool, digest: Digest)
    requires Fresh(s, h)
    ensures var t, c := BlockCall(s, h, status, commits, digest), s.handlers[h].call.value;
            var a := Authorization(h, c.subject, c.effective, BlockedApproval(c.approval, status), Blocked, s.now);
            Tracks(t, Over(if commits && ValidAuthorization(a) then [AuthorizationReceipt(a)] else [], false), h,
                   digest)
  {
    var c := s.handlers[h].call.value;
    var m := MarkBlocked(c, status, s.now, digest);
    if Committed(m, commits) {
      CommitShows(s, h, m);
      ReceiptsOfPair(m.events[0], m.events[1]);
    }
  }

  lemma ForwardTells(s: State, h: nat, commits: bool, digest: Digest)
    requires Fresh(s, h)
    ensures var t, c := ForwardCall(s, h, commits, digest), s.handlers[h].call.value;
            var a := Authorization(h, c.subject, c.effective, c.approval, Authorized, s.now);
            Tracks(t, if commits && ValidAuthorization(a)
                      then Running(s.handlers[h].aborted, s.handlers[h].asks, a, s.now) else Over([], false), h,
                   digest)
  {
    var c := s.handlers[h].call.value;
    var m := MarkForwarding(c, s.now, digest);
    if Committed(m, commits) {
      CommitShows(s, h, m);
      ReceiptsOfPair(m.events[0], m.events[1]);
      var t := Commit(s, h, m, commits);
      DispatchCountAppend(t.dispatches, Dispatch(h, t.table), h);
    }
  }

  lemma FailTells(s: State, h: nat, code: FailureCode, commits: bool, digest: Digest)
    requires Fresh(s, h)
    ensures var t, c := FailCall(s, h, code, commits, digest), s.handlers[h].call.value;
            var a := Authorization(h, c.subject, c.effective, c.approval, FailedPreDispatch, s.now);
            Tracks(t, Over(if commits && ValidAuthorization(a) then [AuthorizationReceipt(a)] else [], false), h,
                   digest)
  {
    var c := s.handlers[h].call.value;
    var m := MarkFailed(c, code, s.now, digest);
    if Committed(m, commits) {
      CommitShows(s, h, m);
      assert m.events == [m.events[0], m.events[1]];
      ReceiptsOfPair(m.events[0], m.events[1]);
    }
  }

  lemma OpenTells(s: State, h: nat, asks: bool, effective: Decision, digest: Digest)
    requires h in s.handlers && Receipts(s.table, h) == [] && DispatchCount(s.dispatches, h) == 0
    ensures var t := Opened(s, h, asks, effective);
            && Fresh(t, h) && t.approvals == s.approvals && t.pendingRows == s.pendingRows && t.now == s.now
            && t.handlers[h] == s.handlers[h].(asks := asks,
                                               call := Some(Begin(h, s.handlers[h].subject, asks, effective)))
  {
    CommitAdds(s.table, h, [DecisionRecorded], h);
    ReceiptsOfOne(DecisionRecorded);
  }

  lemma AskTells(s: State, h: nat, ttl: int, writes: seq<bool>, effective: Decision, digest: Digest)
    requires Fresh(s, h) && !HasTicket(s.approvals, h) && Commits(writes, 0) && s.handlers[h].asks
    requires s.handlers[h].call == Some(Begin(h, s.handlers[h].subject, true, effective))
    ensures var x := Undecided(s.handlers[h].subject, s.handlers[h].aborted);
            Tracks(AskCall(s, h, ttl, writes),
                   MovesByAnswer(x, Evaluated(h, AskFirst, effective, true, ttl, writes), h, s.now, s.approvals.closed,
                                 digest), h, digest)
  {
    if RequestIn(s.approvals, h, s.now, ttl).Some? {
      var requested := RequestIn(s.approvals, h, s.now, ttl).value;
      var t := s.(approvals := requested);
      var m := MarkApprovalRequested(s.handlers[h].call.value, requested.pending[h]);
      if Commits(writes, 1) {
        CommitShows(t, h, m);
        ReceiptsOfOne(ApprovalRequested(requested.pending[h].expiresAt));
      }
    }
  }

  // ----- The steps of the call itself -----

  lemma RejectTells(s: State, x: Story, writes: seq<bool>, h: nat, digest: Digest)
    requires x.Undecided? && Tracks(s, x, h, digest)
    ensures Tracks(Next(s, RejectIdentity(h, writes), digest),
                   MovesByAnswer(x, RejectIdentity(h, writes), h, s.now, s.approvals.closed, digest), h, digest)
  {
    if Commits(writes, 0) {
      OpenTells(s, h, false, Deny, digest);
      BlockTells(Opened(s, h, false, Deny), h, BlockedDenied, Commits(writes, 1), digest);
    }
  }

  /** The call has just been opened, asking or not, under a decision of the policy. */
  ghost predicate JustOpened(t: State, x: Story, h: nat, asks: bool, effective: Decision)
    requires x.Undecided?
  {
    && Fresh(t, h) && !HasTicket(t.approvals, h) && h !in t.pendingRows
    && t.handlers[h] ==
       Handler(x.subject, Evaluating, x.aborted, asks, Some(Begin(h, x.subject, asks, effective)))
  }

  lemma RefuseTells(t: State, x: Story, h: nat, effective: Decision, commits: bool, digest: Digest)
    requires x.Undecided? && JustOpened(t, x, h, false, effective)
    ensures Tracks(BlockCall(t, h, BlockedDenied, commits, digest),
                   Over(if commits && effective == Deny then [BlockedReceipt(h, x.subject, Deny, NO_APPROVAL, t.now)]
                        else [], false), h, digest)
  {
    BlockTells(t, h, BlockedDenied, commits, digest);
  }

  lemma UnavailableTells(t: State, x: Story, h: nat, effective: Decision, commits: bool, digest: Digest)
    requires x.Undecided? && JustOpened(t, x, h, true, effective)
    ensures var approval := Approval(true, Unavailable, None, None);
            Tracks(BlockCall(t, h, ApprovalUnavailable, commits, digest),
                   Over(if commits then [BlockedReceipt(h, x.subject, effective, approval, t.now)] else [], false), h,
                   digest)
  {
    BlockTells(t, h, ApprovalUnavailable, commits, digest);
  }

  lemma AllowTells(t: State, x: Story, h: nat, effective: Decision, commits: bool, digest: Digest)
    requires x.Undecided? && JustOpened(t, x, h, false, effective)
    ensures var a := Authorization(h, x.subject, effective, NO_APPROVAL, Authorized, t.now);
            Tracks(ForwardCall(t, h, commits, digest),
                   if commits && effective != Deny then Running(x.aborted, false, a, t.now) else Over([], false), h,
                   digest)
  {
    ForwardTells(t, h, commits, digest);
  }

  lemma EvaluatedTells(s: State, x: Story, e: Step, h: nat, digest: Digest)
    requires x.Undecided? && Tracks(s, x, h, digest) && e.Evaluated? && e.handler == h && Commits(e.writes, 0)
    ensures Tracks(Next(s, e, digest), MovesByAnswer(x, e, h, s.now, s.approvals.closed, digest), h, digest)
  {
    var t := Opened(s, h, e.action == AskFirst, e.effective);
    OpenTells(s, h, e.action == AskFirst, e.effective, digest);
    assert JustOpened(t, x, h, e.action == AskFirst, e.effective);
    assert Next(s, e, digest) == Act(t, h, e.action, e.coordinator, e.ttl, e.writes, digest);
    match e.action
    case Refuse => RefuseTells(t, x, h, e.effective, Commits(e.writes, 1), digest);
    case AskFirst =>
      if e.coordinator {
        AskTells(t, h, e.ttl, e.writes, e.effective, digest);
      } else {
        UnavailableTells(t, x, h, e.effective, Commits(e.writes, 1), digest);
      }
    case Forward => AllowTells(t, x, h, e.effective, Commits(e.writes, 1), digest);
  }

  lemma AnswerTells(s: State, x: Story, e: Step, h: nat, digest: Digest)
    requires x.Undecided? && Tracks(s, x, h, digest) && Is(Answer, e, h)
    ensures Tracks(Next(s, e, digest), MovesByAnswer(x, e, h, s.now, s.approvals.closed, digest), h, digest)
  {
    match e
    case EvaluationFailed(_) =>
    case RejectIdentity(_, writes) => RejectTells(s, x, writes, h, digest);
    case Evaluated(_, _, _, _, _, writes) =>
      if Commits(writes, 0) {
        EvaluatedTells(s, x, e, h, digest);
      }
  }

  /** The state in which a settled ticket has been recorded. */
  function Resolved(s: State, h: nat, outcome: Outcome): State
    requires h in s.handlers && s.handlers[h].call.Some?
  {
    var m := MarkApprovalResolved(s.handlers[h].call.value, outcome, true, s.now);
    Commit(s, h, m, true).(pendingRows := s.pendingRows - {h})
  }

  /** The evidence of the settled ticket, as of this moment. */
  function ResolvedApproval(x: Story, now: int): Approval
    requires x.Asking? && x.fate.Some?
  {
    Approval(true, ApprovalState.Resolved(x.fate.value.outcome), Some(x.entry), Some(now))
  }

  ghost predicate JustResolved(t: State, x: Story, h: nat)
    requires x.Asking? && x.fate.Some?
  {
    && Fresh(t, h) && t.handlers[h].aborted == x.aborted && t.handlers[h].asks
    && t.handlers[h].call.value ==
       AskedCall(h, x.subject, x.effective, x.entry).(approval := ResolvedApproval(x, t.now))
  }

  lemma ResolvedTells(s: State, x: Story, h: nat, digest: Digest)
    requires x.Asking? && x.fate.Some? && Tracks(s, x, h, digest)
    ensures JustResolved(Resolved(s, h, x.fate.value.outcome), x, h)
  {
    var m := MarkApprovalResolved(s.handlers[h].call.value, x.fate.value.outcome, true, s.now);
    CommitShows(s, h, m);
    ReceiptsOfOne(ApprovalEvent(x.fate.value.outcome));
  }

  lemma UnapprovedTells(t: State, x: Story, h: nat, commits: bool, digest: Digest)
    requires x.Asking? && x.fate.Some? && JustResolved(t, x, h) && x.fate.value.outcome != Approved
    ensures var receipt := BlockedReceipt(h, x.subject, x.effective, ResolvedApproval(x, t.now), t.now);
            Tracks(BlockCall(t, h, ApprovalBlocked(x.fate.value.outcome), commits, digest),
                   Over(if commits then [receipt] else [], false), h, digest)
  {
    BlockTells(t, h, ApprovalBlocked(x.fate.value.outcome), commits, digest);
  }

  lemma CancelledTells(t: State, x: Story, h: nat, commits: bool, digest: Digest)
    requires x.Asking? && x.fate.Some? && JustResolved(t, x, h)
    ensures var a := Authorization(h, x.subject, x.effective, ResolvedApproval(x, t.now), FailedPreDispatch, t.now);
            Tracks(FailCall(t, h, CancelledBeforeExecution, commits, digest),
                   Over(if commits then [AuthorizationReceipt(a)] else [], false), h, digest)
  {
    FailTells(t, h, CancelledBeforeExecution, commits, digest);
  }

  lemma ApprovedTells(t: State, x: Story, h: nat, commits: bool, digest: Digest)
    requires x.Asking? && x.fate.Some? && JustResolved(t, x, h) && x.fate.value.outcome == Approved
    ensures var a := Authorization(h, x.subject, x.effective, ResolvedApproval(x, t.now), Authorized, t.now);
            Tracks(ForwardCall(t, h, commits, digest),
                   if commits && x.effective != Deny then Running(x.aborted, true, a, t.now) else Over([], false), h,
                   digest)
  {
    ForwardTells(t, h, commits, digest);
  }

  lemma ResumeTells(s: State, x: Story, writes: seq<bool>, h: nat, digest: Digest)
    requires x.Asking? && x.fate.Some? && Tracks(s, x, h, digest)
    ensures Tracks(Next(s, ApprovalSettled(h, writes), digest), MovesByResuming(x, writes, h, s.now), h, digest)
  {
    var outcome := x.fate.value.outcome;
    if Commits(writes, 0) {
      var t := Resolved(s, h, outcome);
      ResolvedTells(s, x, h, digest);
      assert t.now == s.now;
      if outcome != Approved {
        UnapprovedTells(t, x, h, Commits(writes, 1), digest);
      } else if x.aborted {
        CancelledTells(t, x, h, Commits(writes, 1), digest);
      } else {
        ApprovedTells(t, x, h, Commits(writes, 1), digest);
      }
    }
  }

  /** Failing a call that was dispatched records how it failed. */
  lemma FailRunningTells(s: State, x: Story, code: FailureCode, commits: bool, h: nat, digest: Digest)
    requires x.Running? && Tracks(s, x, h, digest)
    ensures Tracks(FailCall(s, h, code, commits, digest),
                   Over(RanReceipts(x.authorization, x.startedAt, if commits then Some(FailureTerminal(code)) else None,
                                    s.now, digest), true), h, digest)
  {
    var c := s.handlers[h].call.value;
    var m := MarkFailed(c, code, s.now, digest);
    if commits {
      CommitShows(s, h, m);
      assert m.events == [m.events[0], m.events[1]];
      ReceiptsOfPair(m.events[0], m.events[1]);
    }
  }

  lemma ReturnedTells(s: State, x: Story, isError: bool, projects: bool, writes: seq<bool>, h: nat, digest: Digest)
    requires x.Running? && Tracks(s, x, h, digest)
    ensures var terminal := TerminalOf(Returned(h, isError, projects, writes), x.aborted);
            Tracks(AfterReturn(s, h, isError, projects, writes, digest),
                   Over(RanReceipts(x.authorization, x.startedAt, terminal, s.now, digest), true), h, digest)
  {
    if Commits(writes, 0) {
      CompletedTells(s, x, isError, projects, writes, h, digest);
    } else {
      FailRunningTells(s, x, AuditCompletionFailed, Commits(writes, 1), h, digest);
    }
  }

  lemma ResultTells(s: State, x: Story, e: Step, h: nat, digest: Digest)
    requires x.Running? && Tracks(s, x, h, digest) && Is(Result, e, h)
    ensures Tracks(Next(s, e, digest),
                   Over(RanReceipts(x.authorization, x.startedAt, TerminalOf(e, x.aborted), s.now, digest), true), h,
                   digest)
  {
    match e
    case Threw(_, writes) =>
      FailRunningTells(s, x, if x.aborted then CancelledDuringExecution else UpstreamError, Commits(writes, 0), h,
                       digest);
    case Returned(_, isError, projects, writes) => ReturnedTells(s, x, isError, projects, writes, h, digest);
  }

  lemma CompletedTells(s: State, x: Story, isError: bool, projects: bool, writes: seq<bool>, h: nat, digest: Digest)
    requires x.Running? && Tracks(s, x, h, digest) && Commits(writes, 0)
    ensures Tracks(AfterReturn(s, h, isError, projects, writes, digest),
                   Over(RanReceipts(x.authorization, x.startedAt,
                                    Some(if isError then UpstreamErrorResult else Completed), s.now, digest), true), h,
                   digest)
  {
    var c := s.handlers[h].call.value;
    var m := MarkCompleted(c, isError, s.now, digest);
    CommitShows(s, h, m);
    ReceiptsOfPair(m.events[0], m.events[1]);
    var t := Commit(s, h, m, true);
    if !projects && Commits(writes, 1) {
      var n := MarkFailed(t.handlers[h].call.value, AuditCompletionFailed, t.now, digest);
      assert n == AuditRecorder.Wrote(t.handlers[h].call.value, []);
      CommitShows(t, h, n);
      assert ReceiptsOf([]) == [];
    }
  }

  // ----- Any step -----

  /** A step of one handler, or of its caller. */
  predicate OfHandler(e: Step) {
    !e.Decide? && !e.Expire? && !e.Close? && !e.Clock?
  }

  lemma AbortTells(s: State, x: Story, h: nat, digest: Digest)
    requires Tracks(s, x, h, digest)
    ensures Tracks(Next(s, Abort(h), digest), Moves(x, Abort(h), h, s.now, s.approvals.closed, digest), h, digest)
  {
  }

  lemma ArriveTells(s: State, x: Story, subject: string, h: nat, digest: Digest)
    requires Tracks(s, x, h, digest)
    ensures Tracks(Next(s, Arrive(h, subject), digest),
                   Moves(x, Arrive(h, subject), h, s.now, s.approvals.closed, digest), h, digest)
  {
  }

  lemma OwnStepTells(s: State, x: Story, e: Step, h: nat, digest: Digest)
    requires Tracks(s, x, h, digest) && OfHandler(e) && e.handler == h
    ensures Tracks(Next(s, e, digest), Moves(x, e, h, s.now, s.approvals.closed, digest), h, digest)
  {
    if e.Abort? {
      AbortTells(s, x, h, digest);
    } else if e.Arrive? {
      ArriveTells(s, x, e.subject, h, digest);
    } else if Is(Answer, e, h) {
      if x.Undecided? {
        AnswerTells(s, x, e, h, digest);
      }
    } else if Is(Resumption, e, h) {
      if x.Asking? && x.fate.Some? {
        ResumeTells(s, x, e.writes, h, digest);
      }
    } else if x.Running? {
      ResultTells(s, x, e, h, digest);
    }
  }

  /** Nothing of this call has changed. */
  ghost predicate Untouched(s: State, t: State, h: nat) {
    SameHandler(s, t, h) && SameTrace(s, t, h) && (h in s.pendingRows <==> h in t.pendingRows)
  }

  lemma UntouchedTracks(s: State, t: State, x: Story, h: nat, digest: Digest)
    requires Tracks(s, x, h, digest) && Untouched(s, t, h)
    ensures Tracks(t, x, h, digest)
  {
  }

  /** Only the rows of the handler itself are put up or taken away. */
  lemma RowsElsewhere(s: State, e: Step, h: nat, digest: Digest)
    requires OfHandler(e) && e.handler != h
    ensures h in Next(s, e, digest).pendingRows <==> h in s.pendingRows
  {
  }

  lemma OtherStretch(s: State, e: Step, h: nat, digest: Digest)
    requires Safe(s, digest) && OfHandler(e) && !e.Arrive? && !e.Abort? && e.handler != h
    ensures SameHandler(s, Next(s, e, digest), h) && SameTrace(s, Next(s, e, digest), h)
  {
    var g := e.handler;
    assert Local(s, g, digest);
    match e
    case RejectIdentity(_, writes) =>
      if At(s, g, Evaluating) {
        FinishOnly(s, g, digest);
        if Commits(writes, 0) {
          RejectionSafe(s, g, writes, digest);
        }
      }
    case Evaluated(_, action, effective, coordinator, ttl, writes) =>
      if At(s, g, Evaluating) {
        AfterEvaluationSafe(s, g, action, effective, coordinator, ttl, writes, digest);
      }
    case EvaluationFailed(_) =>
      if At(s, g, Evaluating) {
        FinishOnly(s, g, digest);
      }
    case ApprovalSettled(_, writes) =>
      if Resumable(s, g, AwaitingApproval) && g in s.approvals.settled {
        AfterSettlementSafe(s, g, writes, digest);
      }
    case Returned(_, isError, projects, writes) =>
      if Resumable(s, g, AwaitingResult) {
        AfterReturnSafe(s, g, isError, projects, writes, digest);
      }
    case Threw(_, writes) =>
      if Resumable(s, g, AwaitingResult) {
        FailCallSafe(s, g, if s.handlers[g].aborted then CancelledDuringExecution else UpstreamError,
                     Commits(writes, 0), digest);
      }
    case _ =>
  }

  lemma OthersArriveOrGo(s: State, e: Step, h: nat, digest: Digest)
    requires (e.Arrive? || e.Abort?) && e.handler != h
    ensures SameHandler(s, Next(s, e, digest), h) && SameTrace(s, Next(s, e, digest), h)
  {
  }

  lemma NotMoved(x: Story, e: Step, h: nat, now: int, closed: bool, digest: Digest)
    requires OfHandler(e) && e.handler != h
    ensures Moves(x, e, h, now, closed, digest) == x
  {
  }

  lemma OtherStepTells(s: State, x: Story, e: Step, h: nat, digest: Digest)
    requires Safe(s, digest) && Tracks(s, x, h, digest) && OfHandler(e) && e.handler != h
    ensures Tracks(Next(s, e, digest), Moves(x, e, h, s.now, s.approvals.closed, digest), h, digest)
  {
    var t := Next(s, e, digest);
    NotMoved(x, e, h, s.now, s.approvals.closed, digest);
    RowsElsewhere(s, e, h, digest);
    if e.Arrive? || e.Abort? {
      OthersArriveOrGo(s, e, h, digest);
    } else {
      OtherStretch(s, e, h, digest);
    }
    UntouchedTracks(s, t, x, h, digest);
  }

  lemma OtherTicketTells(s: State, x: Story, e: Step, h: nat, digest: Digest)
    requires Tracks(s, x, h, digest) && (e.Decide? || e.Expire?) && e.ticket != h
    ensures Tracks(Next(s, e, digest), Moves(x, e, h, s.now, s.approvals.closed, digest), h, digest)
  {
    assert Untouched(s, Next(s, e, digest), h);
    UntouchedTracks(s, Next(s, e, digest), x, h, digest);
  }

  lemma ExpireTells(s: State, x: Story, h: nat, digest: Digest)
    requires Tracks(s, x, h, digest)
    ensures Tracks(Next(s, Expire(h), digest), Moves(x, Expire(h), h, s.now, s.approvals.closed, digest), h, digest)
  {
  }

  lemma DecideTells(s: State, x: Story, approve: bool, h: nat, digest: Digest)
    requires Tracks(s, x, h, digest)
    ensures Tracks(Next(s, Decide(h, approve), digest),
                   Moves(x, Decide(h, approve), h, s.now, s.approvals.closed, digest), h, digest)
  {
  }

  /** The service moves a ticket alone; the trace of its call stays. */
  lemma TicketTells(s: State, x: Story, e: Step, h: nat, digest: Digest)
    requires Tracks(s, x, h, digest) && (e.Decide? || e.Expire?)
    ensures Tracks(Next(s, e, digest), Moves(x, e, h, s.now, s.approvals.closed, digest), h, digest)
  {
    if e.ticket != h {
      OtherTicketTells(s, x, e, h, digest);
    } else if e.Expire? {
      ExpireTells(s, x, h, digest);
    } else {
      DecideTells(s, x, e.approve, h, digest);
    }
  }

  lemma CloseTells(s: State, x: Story, h: nat, digest: Digest)
    requires Sound(s.approvals) && Tracks(s, x, h, digest)
    ensures Tracks(Next(s, Close, digest), Moves(x, Close, h, s.now, s.approvals.closed, digest), h, digest)
  {
  }

  lemma TicketStepTells(s: State, x: Story, e: Step, h: nat, digest: Digest)
    requires Sound(s.approvals) && Tracks(s, x, h, digest) && !OfHandler(e)
    ensures Tracks(Next(s, e, digest), Moves(x, e, h, s.now, s.approvals.closed, digest), h, digest)
  {
    match e
    case Decide(_, _) => TicketTells(s, x, e, h, digest);
    case Expire(_) => TicketTells(s, x, e, h, digest);
    case Close => CloseTells(s, x, h, digest);
    case Clock(_) =>
  }

  lemma StepTells(s: State, x: Story, e: Step, h: nat, digest: Digest)
    requires Safe(s, digest) && Tracks(s, x, h, digest)
    ensures Tracks(Next(s, e, digest), Moves(x, e, h, s.now, s.approvals.closed, digest), h, digest)
  {
    if !OfHandler(e) {
      TicketStepTells(s, x, e, h, digest);
    } else if e.handler == h {
      OwnStepTells(s, x, e, h, digest);
    } else {
      OtherStepTells(s, x, e, h, digest);
    }
  }

  /** The step moves every call as the calls' own steps say, whatever each call stands at. */
  ghost predicate Moved(s: State, e: Step, t: State, digest: Digest) {
    forall h: nat, x: Story :: Tracks(s, x, h, digest) ==>
      Tracks(t, Moves(x, e, h, s.now, s.approvals.closed, digest), h, digest)
  }

  lemma EveryStepMoves(s: State, e: Step, digest: Digest)
    requires Safe(s, digest)
    ensures Moved(s, e, Next(s, e, digest), digest)
  {
    forall h: nat, x: Story | Tracks(s, x, h, digest)
      ensures Tracks(Next(s, e, digest), Moves(x, e, h, s.now, s.approvals.closed, digest), h, digest) {
      StepTells(s, x, e, h, digest);
    }
  }

  // ----- Runs -----

  lemma ClosedByClose(s: State, e: Step, digest: Digest)
    ensures Next(s, e, digest).approvals.closed == (s.approvals.closed || e.Close?)
  {
  }

  lemma TimeByClock(s: State, e: Step, digest: Digest)
    ensures Next(s, e, digest).now == if e.Clock? then e.now else s.now
  {
  }

  lemma {:induction false} RunLast(s: State, steps: seq<Step>, e: Step, digest: Digest)
    ensures Run(s, steps + [e], digest) == Next(Run(s, steps, digest), e, digest)
    decreases |steps|
  {
    if steps == [] {
      RunOne(s, e, [], digest);
      assert [] + [e] == [e];
    } else {
      RunLast(Next(s, steps[0], digest), steps[1..], e, digest);
      assert (steps + [e])[1..] == steps[1..] + [e];
    }
  }

  /** The clock, the closing of the service, and every call are as the steps so far tell. */
  ghost predicate Told(s: State, steps: seq<Step>, digest: Digest) {
    && s.now == TimeAt(steps, |steps|) && s.approvals.closed == ClosedBefore(steps, |steps|)
    && forall h: nat :: Tracks(s, StoryOf(steps, h, digest), h, digest)
  }

  lemma NothingTold(digest: Digest)
    ensures Told(START, [], digest)
  {
    forall h: nat ensures Tracks(START, StoryOf([], h, digest), h, digest) {
      assert Receipts([], h) == [];
    }
  }

  lemma ClosedLater(steps: seq<Step>, e: Step)
    ensures ClosedBefore(steps + [e], |steps| + 1) == (ClosedBefore(steps, |steps|) || e.Close?)
  {
    var more := steps + [e];
    assert more[|steps|] == e;
    assert forall j :: 0 <= j < |steps| ==> more[j] == steps[j];
  }

  lemma OneMoreTold(s: State, steps: seq<Step>, e: Step, digest: Digest)
    requires Safe(s, digest) && Told(s, steps, digest)
    ensures Told(Next(s, e, digest), steps + [e], digest)
  {
    ClosedByClose(s, e, digest);
    TimeByClock(s, e, digest);
    ClosedLater(steps, e);
    TimeAppend(steps, |steps|, e);
    LastIs(steps, e);
    forall h: nat ensures Tracks(Next(s, e, digest), StoryOf(steps + [e], h, digest), h, digest) {
      assert Tracks(s, StoryOf(steps, h, digest), h, digest);
      StepTells(s, StoryOf(steps, h, digest), e, h, digest);
      StoryAppend(steps, h, digest, e);
    }
  }

  lemma {:induction false} RunIsTold(steps: seq<Step>, digest: Digest)
    ensures Told(Run(START, steps, digest), steps, digest)
    decreases |steps|
  {
    if steps == [] {
      NothingTold(digest);
    } else {
      var front, e := steps[..|steps| - 1], steps[|steps| - 1];
      assert front + [e] == steps;
      RunIsTold(front, digest);
      StartSafe(digest);
      RunSafe(START, front, digest);
      RunLast(START, front, e, digest);
      OneMoreTold(Run(START, front, digest), front, e, digest);
    }
  }

  // ----- Main results -----

  /**
    * In every run, a call's receipts in the table are exactly those its story tells, and the upstream tool has been
    * called for it exactly when its story says so.
    */
  lemma EveryCallEndsAsDecided(steps: seq<Step>, h: nat, digest: Digest)
    ensures var s, x := Run(START, steps, digest), StoryOf(steps, h, digest);
            && Shows(Receipts(s.table, h), ReceiptsTold(x), digest)
            && DispatchCount(s.dispatches, h) == if CalledUpstream(x) then 1 else 0
  {
    RunIsTold(steps, digest);
    assert Tracks(Run(START, steps, digest), StoryOf(steps, h, digest), h, digest);
  }

  /** The policy allowed the call, and the two writes before the upstream call committed. */
  predicate Allowed(e: Step) {
    e.Evaluated? && e.action == Forward && e.effective != Deny && Both(e.writes)
  }

  /** The policy asked, the ticket was issued, and the request is on record. */
  predicate Asked(steps: seq<Step>, k: nat)
    requires k < |steps|
  {
    var e := steps[k];
    && e.Evaluated? && e.action == AskFirst && e.coordinator && e.ttl > 0 && !ClosedBefore(steps, k) && Both(e.writes)
    && e.effective != Deny
  }

  /** The ticket was approved before its expiry, nothing having settled it before. */
  predicate ApprovedBy(steps: seq<Step>, h: nat, k: nat, m: nat)
    requires k < |steps| && steps[k].Evaluated? && m < |steps|
  {
    && m == First(steps, k + 1, Settling, h) && steps[m].Decide? && steps[m].approve
    && TimeAt(steps, m) < TimeAt(steps, k) + steps[k].ttl
  }

  /** The handler resumed at `r` with the caller still there, and its writes committed. */
  predicate ResumedBy(steps: seq<Step>, h: nat, m: nat, r: nat)
    requires m < |steps| && r < |steps|
  {
    && r == First(steps, m + 1, Resumption, h) && steps[r].ApprovalSettled? && Both(steps[r].writes)
    && !AbortedBefore(steps, h, r)
  }

  /** The steps let the call through: the policy allowed it, or it asked and the ticket was approved in time. */
  predicate LetThrough(steps: seq<Step>, h: nat) {
    var k := AnswerAt(steps, h);
    && k < |steps|
    && (|| Allowed(steps[k])
        || (Asked(steps, k)
            && var m := First(steps, k + 1, Settling, h);
               m < |steps| && ApprovedBy(steps, h, k, m)
               && var r := First(steps, m + 1, Resumption, h); r < |steps| && ResumedBy(steps, h, m, r)))
  }

  lemma {:induction false} AbortedEarlier(steps: seq<Step>, h: nat, k: nat, r: nat)
    requires k <= r && AbortedBefore(steps, h, k)
    ensures AbortedBefore(steps, h, r)
  {
  }

  lemma AskedIsCalledIff(steps: seq<Step>, h: nat, subject: string, k: nat, digest: Digest)
    requires k < |steps| && Asked(steps, k)
    ensures CalledUpstream(AskedStory(steps, h, subject, k, digest)) <==>
            && var m := First(steps, k + 1, Settling, h);
               m < |steps| && ApprovedBy(steps, h, k, m)
               && var r := First(steps, m + 1, Resumption, h); r < |steps| && ResumedBy(steps, h, m, r)
  {
    var m, r := SettledAt(steps, h, k), ResumedAt(steps, h, k);
    if AbortedBefore(steps, h, k) && r < |steps| {
      AbortedEarlier(steps, h, k, r);
    }
  }

  lemma AnsweredIsCalledIff(steps: seq<Step>, h: nat, subject: string, k: nat, digest: Digest)
    requires k < |steps| && Is(Answer, steps[k], h)
    ensures CalledUpstream(AnsweredStory(steps, h, subject, k, digest)) <==>
            || Allowed(steps[k])
            || (Asked(steps, k) && CalledUpstream(AskedStory(steps, h, subject, k, digest)))
  {
    if steps[k].Evaluated? && steps[k].action == AskFirst && steps[k].effective == Deny {
      DeniedIsNotCalled(steps, h, subject, k, digest);
    }
  }

  lemma DeniedIsNotCalled(steps: seq<Step>, h: nat, subject: string, k: nat, digest: Digest)
    requires k < |steps| && steps[k].Evaluated? && steps[k].effective == Deny
    ensures !CalledUpstream(AskedStory(steps, h, subject, k, digest))
  {
  }

  lemma StoryIsCalledIff(steps: seq<Step>, h: nat, digest: Digest)
    ensures CalledUpstream(StoryOf(steps, h, digest)) <==> LetThrough(steps, h)
  {
    var a, k := ArrivalAt(steps, h), AnswerAt(steps, h);
    if k < |steps| {
      AnsweredIsCalledIff(steps, h, steps[a].subject, k, digest);
      if Asked(steps, k) {
        AskedIsCalledIff(steps, h, steps[a].subject, k, digest);
      }
    }
  }

  /** The upstream tool is called for a handler exactly when the steps let the call through. */
  lemma CalledIffLetThrough(steps: seq<Step>, h: nat, digest: Digest)
    ensures DispatchCount(Run(START, steps, digest).dispatches, h) == if LetThrough(steps, h) then 1 else 0
  {
    EveryCallEndsAsDecided(steps, h, digest);
    StoryIsCalledIff(steps, h, digest);
  }
}
