/** What every run of the gateway keeps: dispatch is single, recorded first, and for an ask approved in time. */
module GatewaySafety {
  import opened Options
  import opened ApprovalService
  import opened AuditRecorder
  import opened Gateway

  function DispatchCount(ds: seq<Dispatch>, h: nat): nat {
    if ds == [] then 0
    else DispatchCount(ds[..|ds| - 1], h) + if ds[|ds| - 1].handler == h then 1 else 0
  }

  lemma DispatchCountAppend(ds: seq<Dispatch>, d: Dispatch, h: nat)
    ensures DispatchCount(ds + [d], h) == DispatchCount(ds, h) + if d.handler == h then 1 else 0
  {
    assert (ds + [d])[..|ds|] == ds;
  }

  // ----- What is known about one handler -----

  predicate HasTicket(a: Approvals, h: nat) {
    h in a.pending || h in a.settled
  }

  ghost predicate ApprovedTicket(a: Approvals, h: nat) {
    h in a.settled && a.settled[h].outcome == Approved && a.settled[h].at < a.settled[h].entry.expiresAt
  }

  /** The ticket a suspended handler awaits is there, pending or settled, with the terms it recorded. */
  ghost predicate AwaitsTicket(a: Approvals, h: nat, request: Option<Entry>) {
    match request
    case None => false
    case Some(entry) => (h in a.pending && a.pending[h] == entry) || (h in a.settled && a.settled[h].entry == entry)
  }

  ghost predicate NoTrace(s: State, h: nat) {
    && Receipts(s.table, h) == [] && Starts(s.table, h) == [] && DispatchCount(s.dispatches, h) == 0
  }

  /** The record of a handler's call agrees with the table, with its dispatches, and with its approval. */
  ghost predicate Backed(s: State, h: nat, digest: Digest) {
    && h in s.handlers && s.handlers[h].call.Some?
    && var c := s.handlers[h].call.value;
       && c.action == h && Agrees(c, Receipts(s.table, h), Starts(s.table, h), digest)
       && DispatchCount(s.dispatches, h) == |Starts(s.table, h)|
       && (s.handlers[h].asks ==> c.approval.required)
       && (c.approval.state == Resolved(Approved) ==> ApprovedTicket(s.approvals, h))
       && (s.handlers[h].asks && c.dispatched ==> ApprovedTicket(s.approvals, h))
  }

  ghost predicate Untold(c: Call) {
    !c.terminal && !c.dispatched && c.authorization.None?
  }

  ghost predicate Local(s: State, h: nat, digest: Digest) {
    if h !in s.handlers then NoTrace(s, h) && !HasTicket(s.approvals, h)
    else
      var hd := s.handlers[h];
      match hd.stage
      case Evaluating => hd.call.None? && NoTrace(s, h) && !HasTicket(s.approvals, h)
      case Finished => if hd.call.None? then NoTrace(s, h) else Backed(s, h, digest)
      case AwaitingApproval =>
        && Backed(s, h, digest) && hd.asks && Untold(hd.call.value) && hd.call.value.approval.state == Pending
        && AwaitsTicket(s.approvals, h, hd.call.value.approval.request)
      case AwaitingResult => Backed(s, h, digest) && hd.call.value.dispatched && !hd.call.value.terminal
  }

  /**
    * When the upstream tool was called, the table held that call's one authorization and its start, and nothing
    * later.
    */
  ghost predicate DispatchRecorded(d: Dispatch, digest: Digest) {
    && |Receipts(d.table, d.handler)| == 1
    && var r := Receipts(d.table, d.handler)[0];
       && r.receipt.AuthorizationReceipt? && r.digest == digest(r.receipt)
       && r.receipt.authorization.standing == Authorized && r.receipt.authorization.action == d.handler
       && ValidAuthorization(r.receipt.authorization) && Starts(d.table, d.handler) == [r.digest]
  }

  ghost predicate DispatchOk(s: State, d: Dispatch, digest: Digest) {
    && DispatchRecorded(d, digest) && d.table <= s.table && d.handler in s.handlers && s.handlers[d.handler].call.Some?
    && (s.handlers[d.handler].asks ==> ApprovedTicket(s.approvals, d.handler))
  }

  ghost predicate DispatchesOk(s: State, digest: Digest) {
    forall i :: 0 <= i < |s.dispatches| ==> DispatchOk(s, s.dispatches[i], digest)
  }

  ghost predicate AllLocal(s: State, digest: Digest) {
    forall h: nat :: Local(s, h, digest)
  }

  ghost predicate Safe(s: State, digest: Digest) {
    Sound(s.approvals) && AllLocal(s, digest) && DispatchesOk(s, digest)
  }

  // ----- What a handler's own run between two awaits leaves alone -----

  ghost predicate SameHandler(s: State, t: State, x: nat) {
    && (x in s.handlers <==> x in t.handlers) && (x in s.handlers ==> s.handlers[x] == t.handlers[x])
    && (x in s.approvals.pending <==> x in t.approvals.pending)
    && (x in s.approvals.pending ==> s.approvals.pending[x] == t.approvals.pending[x])
    && (x in s.approvals.settled <==> x in t.approvals.settled)
    && (x in s.approvals.settled ==> s.approvals.settled[x] == t.approvals.settled[x])
  }

  ghost predicate SameTrace(s: State, t: State, x: nat) {
    && Receipts(s.table, x) == Receipts(t.table, x) && Starts(s.table, x) == Starts(t.table, x)
    && DispatchCount(s.dispatches, x) == DispatchCount(t.dispatches, x)
  }

  /** Only handler `h` and its ticket have changed, the table has grown, and settled tickets have stayed settled. */
  ghost predicate Only(s: State, t: State, h: nat) {
    && (forall x: nat :: x != h ==> SameHandler(s, t, x) && SameTrace(s, t, x))
    && h in s.handlers && h in t.handlers
    && s.table <= t.table && s.dispatches <= t.dispatches
    && (forall x :: x in s.approvals.settled ==>
       x in t.approvals.settled && t.approvals.settled[x] == s.approvals.settled[x])
    && (Sound(s.approvals) ==> Sound(t.approvals))
    && (s.handlers[h].call.Some? ==> t.handlers[h].call.Some? && t.handlers[h].asks == s.handlers[h].asks)
    && t.now == s.now
  }

  lemma OnlyTwice(s: State, t: State, u: State, h: nat)
    requires Only(s, t, h) && Only(t, u, h)
    ensures Only(s, u, h)
  {
    forall x: nat | x != h ensures SameHandler(s, u, x) && SameTrace(s, u, x) {
      assert SameHandler(s, t, x) && SameTrace(s, t, x);
      assert SameHandler(t, u, x) && SameTrace(t, u, x);
    }
  }

  lemma FinishOnly(s: State, h: nat, digest: Digest)
    requires h in s.handlers
    ensures Only(s, Finish(s, h), h)
    ensures Backed(s, h, digest) ==> Local(Finish(s, h), h, digest)
    ensures s.handlers[h].call.None? && NoTrace(s, h) ==> Local(Finish(s, h), h, digest)
  {
    var t := Finish(s, h);
    forall x: nat | x != h ensures SameHandler(s, t, x) && SameTrace(s, t, x) {
    }
  }

  lemma CommitOnly(s: State, h: nat, m: Marked, digest: Digest)
    requires h in s.handlers && m.Wrote?
    ensures var t := Commit(s, h, m, true);
            && Only(s, t, h)
            && Receipts(t.table, h) == Receipts(s.table, h) + ReceiptsOf(m.events)
            && Starts(t.table, h) == Starts(s.table, h) + StartsOf(m.events)
  {
    var t := Commit(s, h, m, true);
    CommitAdds(s.table, h, m.events, h);
    forall x: nat | x != h ensures SameHandler(s, t, x) && SameTrace(s, t, x) {
      CommitAdds(s.table, h, m.events, x);
    }
  }

  // ----- Each mark in place -----

  /** A committed mark that starts nothing and approves nothing new leaves the handler backed. */
  lemma CommitBacked(s: State, h: nat, m: Marked, digest: Digest)
    requires Backed(s, h, digest) && m.Wrote? && StartsOf(m.events) == []
    requires Keeps(m, Receipts(s.table, h), Starts(s.table, h), digest)
    requires var c := s.handlers[h].call.value;
             && m.call.action == c.action && m.call.dispatched == c.dispatched
             && (c.approval.required ==> m.call.approval.required)
             && (m.call.approval.state == Resolved(Approved) ==> ApprovedTicket(s.approvals, h))
    ensures Backed(Commit(s, h, m, true), h, digest)
  {
    CommitOnly(s, h, m, digest);
    assert Starts(s.table, h) + [] == Starts(s.table, h);
  }

  lemma BlockCallSafe(s: State, h: nat, status: BlockStatus, commits: bool, digest: Digest)
    requires Backed(s, h, digest)
    ensures var t := BlockCall(s, h, status, commits, digest);
            Only(s, t, h) && Local(t, h, digest) && t.dispatches == s.dispatches
  {
    var c := s.handlers[h].call.value;
    var m := MarkBlocked(c, status, s.now, digest);
    var t := Commit(s, h, m, commits);
    FinishOnly(t, h, digest);
    if Committed(m, commits) {
      MarkBlockedAgrees(c, status, s.now, Receipts(s.table, h), Starts(s.table, h), digest);
      ReceiptsOfTwo(m.events[0], m.events[1]);
      CommitOnly(s, h, m, digest);
      CommitBacked(s, h, m, digest);
      OnlyTwice(s, t, Finish(t, h), h);
    }
  }

  lemma FailCallSafe(s: State, h: nat, code: FailureCode, commits: bool, digest: Digest)
    requires Backed(s, h, digest)
    ensures var t := FailCall(s, h, code, commits, digest);
            Only(s, t, h) && Local(t, h, digest) && t.dispatches == s.dispatches
  {
    var c := s.handlers[h].call.value;
    var m := MarkFailed(c, code, s.now, digest);
    var t := Commit(s, h, m, commits);
    FinishOnly(t, h, digest);
    if Committed(m, commits) {
      MarkFailedAgrees(c, code, s.now, Receipts(s.table, h), Starts(s.table, h), digest);
      MarkFailedStartsNothing(c, code, s.now, digest);
      CommitOnly(s, h, m, digest);
      CommitBacked(s, h, m, digest);
      OnlyTwice(s, t, Finish(t, h), h);
    }
  }

  lemma MarkFailedStartsNothing(c: Call, code: FailureCode, now: int, digest: Digest)
    requires c.dispatched ==> c.authorization.Some?
    ensures var m := MarkFailed(c, code, now, digest); m.Wrote? ==> StartsOf(m.events) == []
  {
    var m := MarkFailed(c, code, now, digest);
    if m.Wrote? && |m.events| == 2 {
      ReceiptsOfTwo(m.events[0], m.events[1]);
    }
  }

  /** The state after an upstream call. */
  function Dispatched(t: State, h: nat): State
    requires h in t.handlers
  {
    With(t, h, t.handlers[h].(stage := AwaitingResult)).(dispatches := t.dispatches + [Dispatch(h, t.table)])
  }

  lemma DispatchOnly(t: State, h: nat)
    requires h in t.handlers
    ensures Only(t, Dispatched(t, h), h)
    ensures DispatchCount(Dispatched(t, h).dispatches, h) == DispatchCount(t.dispatches, h) + 1
  {
    var d, u := Dispatch(h, t.table), Dispatched(t, h);
    DispatchCountAppend(t.dispatches, d, h);
    forall x: nat | x != h ensures SameHandler(t, u, x) && SameTrace(t, u, x) {
      DispatchCountAppend(t.dispatches, d, x);
    }
  }

  /** Forwarding dispatches exactly when its record commits, and then the table shows the authorization and start. */
  lemma ForwardCallSafe(s: State, h: nat, commits: bool, digest: Digest)
    requires Backed(s, h, digest) && Untold(s.handlers[h].call.value)
    requires s.handlers[h].asks ==> s.handlers[h].call.value.approval.required
    ensures var t := ForwardCall(s, h, commits, digest);
            && Only(s, t, h) && Local(t, h, digest)
            && (t.dispatches == s.dispatches
                || exists d :: t.dispatches == s.dispatches + [d] && d.handler == h && DispatchOk(t, d, digest))
  {
    var c := s.handlers[h].call.value;
    var m := MarkForwarding(c, s.now, digest);
    if !Committed(m, commits) {
      FinishOnly(s, h, digest);
    } else {
      MarkForwardingAgrees(c, s.now, Receipts(s.table, h), Starts(s.table, h), digest);
      ReceiptsOfTwo(m.events[0], m.events[1]);
      CommitOnly(s, h, m, digest);
      var t := Commit(s, h, m, commits);
      var u := ForwardCall(s, h, commits, digest);
      assert u == Dispatched(t, h);
      DispatchOnly(t, h);
      OnlyTwice(s, t, u, h);
      assert Backed(u, h, digest);
      assert DispatchOk(u, Dispatch(h, t.table), digest);
    }
  }

  // ----- Each stretch between two awaits -----

  ghost predicate NewDispatch(s: State, t: State, h: nat, digest: Digest) {
    || t.dispatches == s.dispatches
    || exists d :: t.dispatches == s.dispatches + [d] && d.handler == h && DispatchOk(t, d, digest)
  }

  /** What every stretch of handler `h` achieves. */
  ghost predicate StretchOk(s: State, t: State, h: nat, digest: Digest) {
    Only(s, t, h) && Local(t, h, digest) && NewDispatch(s, t, h, digest)
  }

  lemma StretchFrom(s: State, t: State, u: State, h: nat, digest: Digest)
    requires Only(s, t, h) && t.dispatches == s.dispatches && StretchOk(t, u, h, digest)
    ensures StretchOk(s, u, h, digest)
  {
    OnlyTwice(s, t, u, h);
  }

  lemma OpenedBacked(s: State, h: nat, asks: bool, effective: Decision, digest: Digest)
    requires Local(s, h, digest) && At(s, h, Evaluating)
    ensures var t := Opened(s, h, asks, effective);
            && Only(s, t, h) && Backed(t, h, digest) && Untold(t.handlers[h].call.value) && t.dispatches == s.dispatches
            && t.handlers[h].asks == asks && t.handlers[h].call.value.approval.required == asks
            && !HasTicket(t.approvals, h)
  {
    var t := Opened(s, h, asks, effective);
    BeginAgrees(h, s.handlers[h].subject, asks, effective, digest);
    CommitAdds(s.table, h, [DecisionRecorded], h);
    forall x: nat | x != h ensures SameHandler(s, t, x) && SameTrace(s, t, x) {
      CommitAdds(s.table, h, [DecisionRecorded], x);
    }
    assert Receipts(t.table, h) == [] && Starts(t.table, h) == [];
  }

  /** A change of handler `h`'s own ticket that settles at most that ticket. */
  lemma TicketOnly(s: State, h: nat, a: Approvals)
    requires h in s.handlers && (Sound(s.approvals) ==> Sound(a))
    requires forall x: nat :: x != h ==> SameHandler(s, s.(approvals := a), x)
    requires forall x :: x in s.approvals.settled ==> x in a.settled && a.settled[x] == s.approvals.settled[x]
    ensures Only(s, s.(approvals := a), h)
  {
  }

  lemma RequestOnly(s: State, h: nat, ttl: int)
    requires h in s.handlers && !HasTicket(s.approvals, h) && RequestIn(s.approvals, h, s.now, ttl).Some?
    ensures var a := RequestIn(s.approvals, h, s.now, ttl).value;
            Only(s, s.(approvals := a), h) && h in a.pending && a.pending[h] == Entry(s.now, s.now + ttl, true)
  {
    var a := RequestIn(s.approvals, h, s.now, ttl).value;
    if Sound(s.approvals) {
      RequestSound(s.approvals, h, s.now, ttl);
    }
    TicketOnly(s, h, a);
  }

  lemma CancelOnly(s: State, h: nat)
    requires h in s.handlers && h !in s.approvals.settled
    ensures var a := SettleIn(s.approvals, h, Cancelled, s.now);
            Only(s, s.(approvals := a), h)
            && (h in s.approvals.pending ==> h in a.settled && a.settled[h].entry == s.approvals.pending[h])
  {
    var a := SettleIn(s.approvals, h, Cancelled, s.now);
    if Sound(s.approvals) {
      SettleSound(s.approvals, h, Cancelled, s.now);
    }
    TicketOnly(s, h, a);
  }

  lemma AskCallSafe(s: State, h: nat, ttl: int, writes: seq<bool>, digest: Digest)
    requires Backed(s, h, digest) && Untold(s.handlers[h].call.value) && s.handlers[h].asks
        && !HasTicket(s.approvals, h)
    requires s.handlers[h].call.value.approval.state != Resolved(Approved)
    ensures StretchOk(s, AskCall(s, h, ttl, writes), h, digest)
  {
    if RequestIn(s.approvals, h, s.now, ttl).None? {
      FinishOnly(s, h, digest);
    } else {
      RequestOnly(s, h, ttl);
      var requested := RequestIn(s.approvals, h, s.now, ttl).value;
      var t := s.(approvals := requested);
      var c := s.handlers[h].call.value;
      var m := MarkApprovalRequested(c, requested.pending[h]);
      if !Committed(m, Commits(writes, 1)) {
        CancelOnly(t, h);
        var u := t.(approvals := SettleIn(requested, h, Cancelled, s.now));
        OnlyTwice(s, t, u, h);
        FinishOnly(u, h, digest);
        StretchFrom(s, u, Finish(u, h), h, digest);
      } else {
        AskRecordedSafe(s, t, h, digest);
      }
    }
  }

  function Suspended(t: State, h: nat): State
    requires h in t.handlers && t.handlers[h].call.Some? && h in t.approvals.pending
  {
    var m := MarkApprovalRequested(t.handlers[h].call.value, t.approvals.pending[h]);
    var u := Commit(t, h, m, true).(pendingRows := t.pendingRows + {h});
    With(u, h, u.handlers[h].(stage := AwaitingApproval))
  }

  /** Once the request is on record the handler awaits its ticket, which an earlier abort cancels at once. */
  lemma AskRecordedSafe(s: State, t: State, h: nat, digest: Digest)
    requires Backed(s, h, digest) && Untold(s.handlers[h].call.value) && s.handlers[h].asks
    requires t == s.(approvals := t.approvals) && Only(s, t, h) && h in t.approvals.pending && h !in t.approvals.settled
    requires s.handlers[h].call.value.approval.state != Resolved(Approved)
    ensures var v := Suspended(t, h);
            && StretchOk(s, v, h, digest)
            && StretchOk(s, v.(approvals := SettleIn(v.approvals, h, Cancelled, v.now)), h, digest)
  {
    var c := t.handlers[h].call.value;
    var m := MarkApprovalRequested(c, t.approvals.pending[h]);
    ApprovalMarksAgree(c, t.approvals.pending[h], Denied, true, 0, Receipts(t.table, h), Starts(t.table, h), digest);
    assert StartsOf(m.events) == [];
    assert Backed(t, h, digest);
    CommitOnly(t, h, m, digest);
    CommitBacked(t, h, m, digest);
    var w := Commit(t, h, m, true);
    var v := Suspended(t, h);
    assert Only(w, v, h) by {
      forall x: nat | x != h ensures SameHandler(w, v, x) && SameTrace(w, v, x) {
      }
    }
    OnlyTwice(t, w, v, h);
    OnlyTwice(s, t, v, h);
    assert Backed(v, h, digest);
    CancelOnly(v, h);
    OnlyTwice(s, v, v.(approvals := SettleIn(v.approvals, h, Cancelled, v.now)), h);
  }

  lemma ActSafe(s: State, h: nat, action: Action, coordinator: bool, ttl: int, writes: seq<bool>, digest: Digest)
    requires Backed(s, h, digest) && Untold(s.handlers[h].call.value) && !HasTicket(s.approvals, h)
    requires s.handlers[h].asks == s.handlers[h].call.value.approval.required == (action == AskFirst)
    requires s.handlers[h].call.value.approval.state != Resolved(Approved)
    ensures StretchOk(s, Act(s, h, action, coordinator, ttl, writes, digest), h, digest)
  {
    match action
    case Refuse => BlockCallSafe(s, h, BlockedDenied, Commits(writes, 1), digest);
    case AskFirst =>
      if coordinator {
        AskCallSafe(s, h, ttl, writes, digest);
      } else {
        BlockCallSafe(s, h, ApprovalUnavailable, Commits(writes, 1), digest);
      }
    case Forward => ForwardCallSafe(s, h, Commits(writes, 1), digest);
  }

  lemma AfterEvaluationSafe(s: State, h: nat, action: Action, effective: Decision, coordinator: bool, ttl: int,
                            writes: seq<bool>, digest: Digest)
    requires Local(s, h, digest) && At(s, h, Evaluating)
    ensures StretchOk(s, AfterEvaluation(s, h, action, effective, coordinator, ttl, writes, digest), h, digest)
  {
    if !Commits(writes, 0) {
      FinishOnly(s, h, digest);
    } else {
      OpenedBacked(s, h, action == AskFirst, effective, digest);
      var t := Opened(s, h, action == AskFirst, effective);
      ActSafe(t, h, action, coordinator, ttl, writes, digest);
      StretchFrom(s, t, Act(t, h, action, coordinator, ttl, writes, digest), h, digest);
    }
  }

  lemma AfterSettlementSafe(s: State, h: nat, writes: seq<bool>, digest: Digest)
    requires Local(s, h, digest) && Resumable(s, h, AwaitingApproval) && h in s.approvals.settled && Sound(s.approvals)
    ensures StretchOk(s, AfterSettlement(s, h, s.approvals.settled[h].outcome, writes, digest), h, digest)
  {
    var outcome := s.approvals.settled[h].outcome;
    var c := s.handlers[h].call.value;
    var m := MarkApprovalResolved(c, outcome, h in s.pendingRows, s.now);
    if !Committed(m, Commits(writes, 0)) {
      FinishOnly(s, h, digest);
    } else {
      ApprovalMarksAgree(c, Entry(0, 0, true), outcome, h in s.pendingRows, s.now, Receipts(s.table, h),
                         Starts(s.table, h), digest);
      assert StartsOf(m.events) == [];
      CommitOnly(s, h, m, digest);
      CommitBacked(s, h, m, digest);
      var w := Commit(s, h, m, true);
      var t := w.(pendingRows := s.pendingRows - {h});
      assert Only(w, t, h) by {
        forall x: nat | x != h ensures SameHandler(w, t, x) && SameTrace(w, t, x) {
        }
      }
      OnlyTwice(s, w, t, h);
      assert Backed(t, h, digest);
      if outcome != Approved {
        BlockCallSafe(t, h, ApprovalBlocked(outcome), Commits(writes, 1), digest);
      } else if t.handlers[h].aborted {
        FailCallSafe(t, h, CancelledBeforeExecution, Commits(writes, 1), digest);
      } else {
        ForwardCallSafe(t, h, Commits(writes, 1), digest);
      }
      StretchFrom(s, t, AfterSettlement(s, h, outcome, writes, digest), h, digest);
    }
  }

  lemma AfterReturnSafe(s: State, h: nat, isError: bool, projects: bool, writes: seq<bool>, digest: Digest)
    requires Local(s, h, digest) && Resumable(s, h, AwaitingResult)
    ensures StretchOk(s, AfterReturn(s, h, isError, projects, writes, digest), h, digest)
  {
    var c := s.handlers[h].call.value;
    var m := MarkCompleted(c, isError, s.now, digest);
    if !Committed(m, Commits(writes, 0)) {
      FailCallSafe(s, h, AuditCompletionFailed, Commits(writes, 1), digest);
    } else {
      MarkCompletedAgrees(c, isError, s.now, Receipts(s.table, h), Starts(s.table, h), digest);
      ReceiptsOfTwo(m.events[0], m.events[1]);
      CommitOnly(s, h, m, digest);
      CommitBacked(s, h, m, digest);
      var t := Commit(s, h, m, true);
      if projects {
        FinishOnly(t, h, digest);
      } else {
        FailCallSafe(t, h, AuditCompletionFailed, Commits(writes, 1), digest);
      }
      StretchFrom(s, t, AfterReturn(s, h, isError, projects, writes, digest), h, digest);
    }
  }

  // ----- Every step keeps the state safe -----

  lemma StretchSafe(s: State, t: State, h: nat, digest: Digest)
    requires Safe(s, digest) && StretchOk(s, t, h, digest)
    ensures Safe(t, digest)
  {
    forall x: nat ensures Local(t, x, digest) {
      assert Local(s, x, digest);
      assert x != h ==> SameHandler(s, t, x) && SameTrace(s, t, x);
    }
    forall d | DispatchOk(s, d, digest) ensures DispatchOk(t, d, digest) {
      assert d.handler != h ==> SameHandler(s, t, d.handler);
    }
    if t.dispatches != s.dispatches {
      var d :| t.dispatches == s.dispatches + [d] && d.handler == h && DispatchOk(t, d, digest);
    }
  }

  /** Settling tickets, by whatever means the service allows, keeps the state safe. */
  lemma TicketsMoveSafe(s: State, a: Approvals, digest: Digest)
    requires Safe(s, digest) && Sound(a) && Follows(s.approvals, a)
    requires forall x: nat :: HasTicket(a, x) <==> HasTicket(s.approvals, x)
    ensures Safe(s.(approvals := a), digest)
  {
    var t := s.(approvals := a);
    forall x: nat ensures Local(t, x, digest) {
      assert Local(s, x, digest);
    }
    forall i | 0 <= i < |t.dispatches| ensures DispatchOk(t, t.dispatches[i], digest) {
      assert DispatchOk(s, s.dispatches[i], digest);
    }
  }

  lemma SettleStepSafe(s: State, h: nat, outcome: Outcome, digest: Digest)
    requires Safe(s, digest) && outcome != Approved
    ensures Safe(s.(approvals := SettleIn(s.approvals, h, outcome, s.now)), digest)
  {
    SettleSound(s.approvals, h, outcome, s.now);
    TicketsMoveSafe(s, SettleIn(s.approvals, h, outcome, s.now), digest);
  }

  lemma AbortedSafe(s: State, h: nat, digest: Digest)
    requires Safe(s, digest) && h in s.handlers
    ensures Safe(With(s, h, s.handlers[h].(aborted := true)), digest)
  {
    var t := With(s, h, s.handlers[h].(aborted := true));
    forall x: nat ensures Local(t, x, digest) {
      assert Local(s, x, digest);
    }
    forall i | 0 <= i < |t.dispatches| ensures DispatchOk(t, t.dispatches[i], digest) {
      assert DispatchOk(s, s.dispatches[i], digest);
    }
  }

  lemma ArriveSafe(s: State, h: nat, subject: string, digest: Digest)
    requires Safe(s, digest) && h !in s.handlers
    ensures Safe(With(s, h, Handler(subject, Evaluating, false, false, None)), digest)
  {
    var t := With(s, h, Handler(subject, Evaluating, false, false, None));
    forall x: nat ensures Local(t, x, digest) {
      assert Local(s, x, digest);
    }
    forall i | 0 <= i < |t.dispatches| ensures DispatchOk(t, t.dispatches[i], digest) {
      assert DispatchOk(s, s.dispatches[i], digest);
    }
  }

  lemma ClockSafe(s: State, now: int, digest: Digest)
    requires Safe(s, digest)
    ensures Safe(s.(now := now), digest)
  {
    var t := s.(now := now);
    forall x: nat ensures Local(t, x, digest) {
      assert Local(s, x, digest);
    }
    forall i | 0 <= i < |t.dispatches| ensures DispatchOk(t, t.dispatches[i], digest) {
      assert DispatchOk(s, s.dispatches[i], digest);
    }
  }

  lemma RejectionSafe(s: State, h: nat, writes: seq<bool>, digest: Digest)
    requires Local(s, h, digest) && At(s, h, Evaluating) && Commits(writes, 0)
    ensures StretchOk(s, BlockCall(Opened(s, h, false, Deny), h, BlockedDenied, Commits(writes, 1), digest), h, digest)
  {
    OpenedBacked(s, h, false, Deny, digest);
    var t := Opened(s, h, false, Deny);
    BlockCallSafe(t, h, BlockedDenied, Commits(writes, 1), digest);
    StretchFrom(s, t, BlockCall(t, h, BlockedDenied, Commits(writes, 1), digest), h, digest);
  }

  lemma HandlerStepSafe(s: State, e: Step, digest: Digest)
    requires Safe(s, digest) && (e.RejectIdentity? || e.Evaluated? || e.EvaluationFailed?)
        && At(s, e.handler, Evaluating)
    ensures Safe(Next(s, e, digest), digest)
  {
    var h := e.handler;
    assert Local(s, h, digest);
    FinishOnly(s, h, digest);
    match e {
      case RejectIdentity(_, writes) =>
        if Commits(writes, 0) {
          RejectionSafe(s, h, writes, digest);
        }
      case Evaluated(_, action, effective, coordinator, ttl, writes) =>
        AfterEvaluationSafe(s, h, action, effective, coordinator, ttl, writes, digest);
      case EvaluationFailed(_) =>
    }
    assert StretchOk(s, Next(s, e, digest), h, digest);
    StretchSafe(s, Next(s, e, digest), h, digest);
  }

  lemma ResumedStepSafe(s: State, e: Step, digest: Digest)
    requires Safe(s, digest) && (e.ApprovalSettled? || e.Returned? || e.Threw?)
    ensures Safe(Next(s, e, digest), digest)
  {
    var h := e.handler;
    assert Local(s, h, digest);
    var t := Next(s, e, digest);
    match e
    case ApprovalSettled(_, writes) =>
      if Resumable(s, h, AwaitingApproval) && h in s.approvals.settled {
        AfterSettlementSafe(s, h, writes, digest);
        StretchSafe(s, t, h, digest);
      }
    case Returned(_, isError, projects, writes) =>
      if Resumable(s, h, AwaitingResult) {
        AfterReturnSafe(s, h, isError, projects, writes, digest);
        StretchSafe(s, t, h, digest);
      }
    case Threw(_, writes) =>
      if Resumable(s, h, AwaitingResult) {
        FailCallSafe(s, h, if s.handlers[h].aborted then CancelledDuringExecution else UpstreamError,
                     Commits(writes, 0), digest);
        StretchSafe(s, t, h, digest);
      }
  }

  lemma NextSafe(s: State, e: Step, digest: Digest)
    requires Safe(s, digest)
    ensures Safe(Next(s, e, digest), digest)
  {
    match e
    case Arrive(h, subject) =>
      if h !in s.handlers {
        ArriveSafe(s, h, subject, digest);
      }
    case Abort(h) =>
      if h in s.handlers {
        AbortedSafe(s, h, digest);
        SettleStepSafe(With(s, h, s.handlers[h].(aborted := true)), h, Cancelled, digest);
      }
    case Decide(ticket, approve) =>
      DecideSound(s.approvals, ticket, approve, s.now);
      TicketsMoveSafe(s, DecideIn(s.approvals, ticket, approve, s.now).0, digest);
    case Expire(ticket) => SettleStepSafe(s, ticket, Expired, digest);
    case Close =>
      CloseSound(s.approvals, s.now);
      TicketsMoveSafe(s, CloseIn(s.approvals, s.now), digest);
    case Clock(now) => ClockSafe(s, now, digest);
    case RejectIdentity(h, _) => if At(s, h, Evaluating) { HandlerStepSafe(s, e, digest); }
    case Evaluated(h, _, _, _, _, _) => if At(s, h, Evaluating) { HandlerStepSafe(s, e, digest); }
    case EvaluationFailed(h) => if At(s, h, Evaluating) { HandlerStepSafe(s, e, digest); }
    case ApprovalSettled(_, _) => ResumedStepSafe(s, e, digest);
    case Returned(_, _, _, _) => ResumedStepSafe(s, e, digest);
    case Threw(_, _) => ResumedStepSafe(s, e, digest);
  }

  lemma {:induction false} RunSafe(s: State, steps: seq<Step>, digest: Digest)
    requires Safe(s, digest)
    ensures Safe(Run(s, steps, digest), digest)
    decreases |steps|
  {
    if steps != [] {
      NextSafe(s, steps[0], digest);
      RunSafe(Next(s, steps[0], digest), steps[1..], digest);
    }
  }

  lemma StartSafe(digest: Digest)
    ensures Safe(START, digest)
  {
    forall x: nat ensures Local(START, x, digest) {
    }
  }

  lemma SafeIsReady(s: State, h: nat, digest: Digest)
    requires Safe(s, digest)
    ensures Ready(s, h)
  {
    assert Local(s, h, digest);
  }

  // ----- Main results -----

  ghost predicate DispatchSafety(s: State, digest: Digest) {
    && (forall h: nat :: DispatchCount(s.dispatches, h) == |Starts(s.table, h)| <= 1)
    && (forall i :: 0 <= i < |s.dispatches| ==> DispatchOk(s, s.dispatches[i], digest))
  }

  /**
    * In every run the upstream tool is called at most once for a request and exactly as often as its execution start
    * is on record; the table then held the call's single, authorized receipt and that start; and when the policy
    * asked, the approval had been decided strictly before its expiry.
    */
  lemma DispatchIsRecordedAndApproved(steps: seq<Step>, digest: Digest)
    ensures DispatchSafety(Run(START, steps, digest), digest)
  {
    StartSafe(digest);
    RunSafe(START, steps, digest);
    SafeDispatches(Run(START, steps, digest), digest);
  }

  lemma SafeDispatches(s: State, digest: Digest)
    requires Safe(s, digest)
    ensures DispatchSafety(s, digest)
  {
    forall h: nat ensures DispatchCount(s.dispatches, h) == |Starts(s.table, h)| <= 1 {
      assert Local(s, h, digest);
    }
  }

  /** No receipt, an authorization, or an authorized authorization and the outcome that carries its digest. */
  ghost predicate ReceiptShape(receipts: seq<Record>, h: nat, digest: Digest) {
    || receipts == []
    || (&& IsAuthorization(receipts[0], h, digest)
        && (|receipts| == 1
            || (&& |receipts| == 2 && receipts[0].receipt.authorization.standing == Authorized
                && receipts[1].receipt.Outcome? && receipts[1].receipt.outcome.action == h
                && receipts[1].receipt.outcome.subject == receipts[0].receipt.authorization.subject
                && receipts[1].digest == digest(receipts[1].receipt)
                && receipts[1].receipt.outcome.authorizationDigest == receipts[0].digest)))
  }

  ghost predicate IsAuthorization(r: Record, h: nat, digest: Digest) {
    && r.receipt.AuthorizationReceipt? && r.digest == digest(r.receipt)
    && r.receipt.authorization.action == h && ValidAuthorization(r.receipt.authorization)
  }

  ghost predicate ReceiptsWellShaped(s: State, digest: Digest) {
    forall h: nat :: ReceiptShape(Receipts(s.table, h), h, digest)
  }

  lemma ReceiptsAreWellShaped(steps: seq<Step>, digest: Digest)
    ensures ReceiptsWellShaped(Run(START, steps, digest), digest)
  {
    StartSafe(digest);
    RunSafe(START, steps, digest);
    var s := Run(START, steps, digest);
    forall h: nat ensures ReceiptShape(Receipts(s.table, h), h, digest) {
      assert Local(s, h, digest);
    }
  }

  // ----- The decision time a receipt records -----

  /** The authorization receipt a dispatched call was recorded under. */
  predicate DispatchedUnder(s: State, h: nat) {
    && h in s.handlers && s.handlers[h].stage == AwaitingResult && s.handlers[h].call.Some?
    && s.handlers[h].call.value.authorization.Some?
    && s.handlers[h].call.value.authorization.value.approval.request.Some?
    && s.handlers[h].call.value.authorization.value.approval.decidedAt.Some?
  }

  /** The recorded decision precedes the recorded expiry. */
  predicate RecordedInTime(s: State, h: nat)
    requires DispatchedUnder(s, h)
  {
    var approval := s.handlers[h].call.value.authorization.value.approval;
    approval.decidedAt.value < approval.request.value.expiresAt
  }

  /**
    * Every approval is decided before its expiry, but the receipt records the time the handler resumed: it shows a
    * decision before the expiry exactly when the handler also resumed before the expiry.
    */
  lemma RecordedInTimeIff(s: State, h: nat, writes: seq<bool>, digest: Digest)
    requires Safe(s, digest) && Resumable(s, h, AwaitingApproval) && h in s.approvals.settled
    requires DispatchedUnder(Next(s, ApprovalSettled(h, writes), digest), h)
    ensures RecordedInTime(Next(s, ApprovalSettled(h, writes), digest), h) <==>
        s.now < s.approvals.settled[h].entry.expiresAt
    ensures s.approvals.settled[h].at < s.approvals.settled[h].entry.expiresAt
  {
    assert Local(s, h, digest);
  }

  /** Handler 0 awaits a ticket requested at time 0 that expires at time 10, and the clock reads 9. */
  predicate AskedAtNine(s: State) {
    && 0 in s.handlers && s.now == 9 && 0 in s.pendingRows && 0 in s.approvals.pending
    && s.approvals.pending[0] == Entry(0, 10, true)
    && s.handlers[0] ==
       Handler("", AwaitingApproval, false, true,
               Some(Begin(0, "", true, Ask).(approval := Approval(true, Pending, Some(Entry(0, 10, true)), None))))
  }

  lemma ReachAskedAtNine(writes: seq<bool>, digest: Digest)
    requires writes == [true, true]
    ensures AskedAtNine(Next(Next(Next(START, Arrive(0, ""), digest), Evaluated(0, AskFirst, Ask, true, 10, writes),
                                  digest), Clock(9), digest))
  {
  }

  lemma ResumeAtTwenty(s: State, writes: seq<bool>, digest: Digest)
    requires AskedAtNine(s) && writes == [true, true]
    ensures var t := Next(Next(Next(s, Decide(0, true), digest), Clock(20), digest), ApprovalSettled(0, writes),
                          digest);
            DispatchedUnder(t, 0) && !RecordedInTime(t, 0)
  {
  }

  /** An approval decided at time 9 with expiry 10, recorded at time 20, and the call dispatched. */
  lemma DecisionRecordedAfterExpiry(digest: Digest)
    ensures exists steps :: var s := Run(START, steps, digest); DispatchedUnder(s, 0) && !RecordedInTime(s, 0)
  {
    var writes := [true, true];
    ReachAskedAtNine(writes, digest);
    ResumeAtTwenty(Next(Next(Next(START, Arrive(0, ""), digest), Evaluated(0, AskFirst, Ask, true, 10, writes),
                             digest), Clock(9), digest), writes, digest);
    RunSix(Arrive(0, ""), Evaluated(0, AskFirst, Ask, true, 10, writes), Clock(9), Decide(0, true), Clock(20),
           ApprovalSettled(0, writes), digest);
  }

  lemma RunSix(e0: Step, e1: Step, e2: Step, e3: Step, e4: Step, e5: Step, digest: Digest)
    ensures Run(START, [e0, e1, e2, e3, e4, e5], digest) ==
            Next(Next(Next(Next(Next(Next(START, e0, digest), e1, digest), e2, digest), e3, digest), e4, digest), e5,
                 digest)
  {
    RunOne(START, e0, [e1, e2, e3, e4, e5], digest);
    var s1 := Next(START, e0, digest);
    RunOne(s1, e1, [e2, e3, e4, e5], digest);
    var s2 := Next(s1, e1, digest);
    RunOne(s2, e2, [e3, e4, e5], digest);
    var s3 := Next(s2, e2, digest);
    RunOne(s3, e3, [e4, e5], digest);
    var s4 := Next(s3, e3, digest);
    RunOne(s4, e4, [e5], digest);
    RunOne(Next(s4, e4, digest), e5, [], digest);
  }

  lemma RunOne(s: State, e: Step, more: seq<Step>, digest: Digest)
    ensures Run(s, [e] + more, digest) == Run(Next(s, e, digest), more, digest)
    ensures more == [] ==> Run(s, [e], digest) == Next(s, e, digest)
  {
    assert ([e] + more)[1..] == more;
  }
}
