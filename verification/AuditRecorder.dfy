/** The audit recorder as the gateway drives it: one call record's marks and the events they commit. */
module AuditRecorder {
  import opened Options
  import opened ApprovalService
  import opened Sequences

  datatype Decision = Allow | Ask | Deny

  datatype ApprovalState = NotRequired | NotRequested | Pending | Resolved(outcome: Outcome) | Unavailable

  /** The approval evidence a receipt carries. */
  datatype Approval = Approval(required: bool, state: ApprovalState, request: Option<Entry>, decidedAt: Option<int>)

  datatype Standing = Authorized | Blocked | FailedPreDispatch

  datatype BlockStatus = BlockedDenied | ApprovalUnavailable | ApprovalBlocked(outcome: Outcome)

  datatype FailureCode = CancelledBeforeExecution | CancelledDuringExecution | UpstreamError | AuditCompletionFailed

  datatype Terminal = Completed | UpstreamErrorResult | CancelledTerminal | Failed | AuditFailed

  /** `subject` stands for what a receipt's action object holds beside the action's identifier. */
  datatype Authorization = Authorization(
    action: nat, subject: string, effective: Decision, approval: Approval, standing: Standing, issuedAt: int)

  datatype OutcomeReceipt = OutcomeReceipt(
    action: nat, subject: string, authorizationDigest: string, terminal: Terminal, startedAt: int, completedAt: int)

  datatype Receipt = AuthorizationReceipt(authorization: Authorization) | Outcome(outcome: OutcomeReceipt)

  /** A finalized receipt beside the digest stored with it. */
  datatype Record = Record(receipt: Receipt, digest: string)

  datatype Event =
    | DecisionRecorded
    | ApprovalRequested(expiresAt: int)
    | ApprovalEvent(resolved: Outcome)
    | BlockEvent(status: BlockStatus)
    | ReceiptFinalized(receipt: Receipt, digest: string)
    | ExecutionStart(authorizationDigest: string)
    | ExecutionCompleted(isError: bool)
    | ExecutionFailed(code: FailureCode)

  /** One row of the global event table. */
  datatype Row = Row(action: nat, event: Event)

  /** What the record of one call remembers between its marks. */
  datatype Call = Call(
    action: nat, subject: string, effective: Decision,
    terminal: bool, dispatched: bool, startedAt: int,
    authorization: Option<Authorization>, approval: Approval)

  /** Digests of receipts; nothing is assumed about them. */
  type Digest = Receipt -> string

  // ----- Receipts the schema accepts -----

  predicate ValidApproval(a: Approval) {
    if !a.required then a == Approval(false, NotRequired, None, None)
    else match a.state
         case NotRequired => false
         case NotRequested => a.request.None? && a.decidedAt.None?
         case Pending => a.request.Some? && a.decidedAt.None?
         case Resolved(_) => a.request.Some? && a.decidedAt.Some?
         case Unavailable => true
  }

  predicate ValidAuthorization(a: Authorization) {
    && ValidApproval(a.approval)
    && (a.standing == Authorized ==>
       a.effective != Deny && (a.approval.required ==> a.approval.state == Resolved(Approved)))
    && (a.standing == Blocked && a.effective != Deny ==>
          a.approval.state in {Resolved(Denied), Resolved(Expired), Resolved(Cancelled), Unavailable})
  }

  // ----- The marks -----

  /** A mark either throws and changes nothing durable, or commits its events. */
  datatype Marked = Threw | Wrote(call: Call, events: seq<Event>)

  function Begin(action: nat, subject: string, asks: bool, effective: Decision): Call {
    Call(action, subject, effective, false, false, 0, None,
         if asks then Approval(true, NotRequested, None, None) else Approval(false, NotRequired, None, None))
  }

  function Finalized(a: Authorization, digest: Digest): Event {
    ReceiptFinalized(AuthorizationReceipt(a), digest(AuthorizationReceipt(a)))
  }

  function MarkApprovalRequested(c: Call, entry: Entry): Marked {
    if c.terminal then Threw
    else Wrote(c.(approval := Approval(true, Pending, Some(entry), None)), [ApprovalRequested(entry.expiresAt)])
  }

  /** `pendingRow` says whether this call's approval row is still pending. */
  function MarkApprovalResolved(c: Call, outcome: Outcome, pendingRow: bool, now: int): Marked {
    if c.terminal || !pendingRow then Threw
    else Wrote(c.(approval := Approval(true, Resolved(outcome), c.approval.request, Some(now))),
               [ApprovalEvent(outcome)])
  }

  function BlockedApproval(a: Approval, status: BlockStatus): Approval {
    match status
    case BlockedDenied => a
    case ApprovalUnavailable => a.(required := true, state := Unavailable)
    case ApprovalBlocked(outcome) => if outcome == Approved then a else a.(required := true, state := Resolved(outcome))
  }

  function MarkBlocked(c: Call, status: BlockStatus, now: int, digest: Digest): Marked {
    var approval := BlockedApproval(c.approval, status);
    var a := Authorization(c.action, c.subject, c.effective, approval, Blocked, now);
    if c.terminal || c.dispatched || !ValidAuthorization(a) then Threw
    else Wrote(c.(approval := approval, authorization := Some(a), terminal := true),
               [BlockEvent(status), Finalized(a, digest)])
  }

  function MarkForwarding(c: Call, now: int, digest: Digest): Marked {
    var a := Authorization(c.action, c.subject, c.effective, c.approval, Authorized, now);
    if c.terminal || c.dispatched || (c.approval.required && c.approval.state != Resolved(Approved)) then Threw
    else if !ValidAuthorization(a) then Threw
    else Wrote(c.(authorization := Some(a), startedAt := now, dispatched := true),
               [Finalized(a, digest), ExecutionStart(digest(AuthorizationReceipt(a)))])
  }

  function OutcomeOf(c: Call, terminal: Terminal, now: int, digest: Digest): OutcomeReceipt
    requires c.authorization.Some?
  {
    OutcomeReceipt(c.action, c.authorization.value.subject, digest(AuthorizationReceipt(c.authorization.value)),
                   terminal, c.startedAt, now)
  }

  function FinalizedOutcome(o: OutcomeReceipt, digest: Digest): Event {
    ReceiptFinalized(Outcome(o), digest(Outcome(o)))
  }

  function MarkCompleted(c: Call, isError: bool, now: int, digest: Digest): Marked {
    if c.terminal || !c.dispatched || c.authorization.None? then Threw
    else
      var o := OutcomeOf(c, if isError then UpstreamErrorResult else Completed, now, digest);
      Wrote(c.(terminal := true), [ExecutionCompleted(isError), FinalizedOutcome(o, digest)])
  }

  function FailureTerminal(code: FailureCode): Terminal {
    match code
    case UpstreamError => UpstreamErrorResult
    case CancelledDuringExecution => CancelledTerminal
    case AuditCompletionFailed => AuditFailed
    case CancelledBeforeExecution => Failed
  }

  /** Silent on a finished call; otherwise finalizes whatever receipts are still missing. */
  function MarkFailed(c: Call, code: FailureCode, now: int, digest: Digest): Marked {
    if c.terminal then Wrote(c, [])
    else
      var made := Authorization(c.action, c.subject, c.effective, c.approval,
                                if c.dispatched then Authorized else FailedPreDispatch, now);
      var a := if c.authorization.Some? then c.authorization.value else made;
      var failed := c.(authorization := Some(a), terminal := true);
      if c.authorization.None? && !ValidAuthorization(made) then Threw
      else Wrote(failed,
                 [ExecutionFailed(code)]
                 + (if c.authorization.None? then [Finalized(a, digest)] else [])
                 + (if c.dispatched then [FinalizedOutcome(OutcomeOf(failed, FailureTerminal(code), now, digest),
                                                           digest)] else []))
  }

  // ----- The receipts and starts of one action in the table -----

  function ReceiptsOf(events: seq<Event>): seq<Record> {
    if events == [] then []
    else ReceiptIn(events[0]) + ReceiptsOf(events[1..])
  }

  function ReceiptIn(e: Event): seq<Record> {
    if e.ReceiptFinalized? then [Record(e.receipt, e.digest)] else []
  }

  function StartIn(e: Event): seq<string> {
    if e.ExecutionStart? then [e.authorizationDigest] else []
  }

  function StartsOf(events: seq<Event>): seq<string> {
    if events == [] then []
    else StartIn(events[0]) + StartsOf(events[1..])
  }

  function EventsFor(table: seq<Row>, action: nat): seq<Event> {
    if table == [] then []
    else EventIn(table[0], action) + EventsFor(table[1..], action)
  }

  function EventIn(row: Row, action: nat): seq<Event> {
    if row.action == action then [row.event] else []
  }

  function Receipts(table: seq<Row>, action: nat): seq<Record> {
    ReceiptsOf(EventsFor(table, action))
  }

  function Starts(table: seq<Row>, action: nat): seq<string> {
    StartsOf(EventsFor(table, action))
  }

  function Rows(action: nat, events: seq<Event>): seq<Row> {
    seq(|events|, i requires 0 <= i < |events| => Row(action, events[i]))
  }

  lemma {:induction false} EventsForAppend(a: seq<Row>, b: seq<Row>, action: nat)
    ensures EventsFor(a + b, action) == EventsFor(a, action) + EventsFor(b, action)
  {
    EmptyConcat(b);
    EmptyConcat(EventsFor(b, action));
    if a != [] {
      TailOfConcat(a, b);
      EventsForAppend(a[1..], b, action);
      Regroup(EventIn(a[0], action), EventsFor(a[1..], action), EventsFor(b, action));
    }
  }

  lemma {:induction false} ReceiptsOfConcat(a: seq<Event>, b: seq<Event>)
    ensures ReceiptsOf(a + b) == ReceiptsOf(a) + ReceiptsOf(b)
  {
    EmptyConcat(b);
    EmptyConcat(ReceiptsOf(b));
    if a != [] {
      TailOfConcat(a, b);
      ReceiptsOfConcat(a[1..], b);
      Regroup(ReceiptIn(a[0]), ReceiptsOf(a[1..]), ReceiptsOf(b));
    }
  }

  lemma {:induction false} StartsOfConcat(a: seq<Event>, b: seq<Event>)
    ensures StartsOf(a + b) == StartsOf(a) + StartsOf(b)
  {
    EmptyConcat(b);
    EmptyConcat(StartsOf(b));
    if a != [] {
      TailOfConcat(a, b);
      StartsOfConcat(a[1..], b);
      Regroup(StartIn(a[0]), StartsOf(a[1..]), StartsOf(b));
    }
  }

  lemma ReceiptsOfAppend(a: seq<Event>, b: seq<Event>)
    ensures ReceiptsOf(a + b) == ReceiptsOf(a) + ReceiptsOf(b) && StartsOf(a + b) == StartsOf(a) + StartsOf(b)
  {
    ReceiptsOfConcat(a, b);
    StartsOfConcat(a, b);
  }

  lemma {:induction false} EventsForRows(action: nat, events: seq<Event>, other: nat)
    ensures EventsFor(Rows(action, events), other) == if other == action then events else []
    decreases events
  {
    if events != [] {
      EventsForRows(action, events[1..], other);
      assert Rows(action, events)[1..] == Rows(action, events[1..]);
    }
  }

  /** Committing one call's events adds their receipts to that call's and changes no other call's. */
  lemma CommitAdds(table: seq<Row>, action: nat, events: seq<Event>, other: nat)
    ensures var after := table + Rows(action, events);
            && Receipts(after, other) == Receipts(table, other) + (if other == action then ReceiptsOf(events) else [])
            && Starts(after, other) == Starts(table, other) + (if other == action then StartsOf(events) else [])
  {
    EventsForAppend(table, Rows(action, events), other);
    EventsForRows(action, events, other);
    ReceiptsOfAppend(EventsFor(table, other), if other == action then events else []);
  }

  // ----- What a record and its events agree on -----

  /** The record's authorization, start and outcome are exactly what the table holds for the call. */
  ghost predicate Agrees(c: Call, receipts: seq<Record>, starts: seq<string>, digest: Digest) {
    && (c.dispatched ==> c.authorization.Some? && c.authorization.value.standing == Authorized)
    && (c.authorization.Some? && !c.dispatched ==> c.terminal && c.authorization.value.standing != Authorized)
    && (c.authorization.Some? ==> c.authorization.value.action == c.action && ValidAuthorization(c.authorization.value))
    && starts == (if c.dispatched then [digest(AuthorizationReceipt(c.authorization.value))] else [])
    && (if c.authorization.None? then receipts == []
        else if c.terminal && c.dispatched then
          |receipts| == 2 && receipts[0] == Recorded(c.authorization.value, digest) && Extends(receipts[1], c, digest)
        else receipts == [Recorded(c.authorization.value, digest)])
    && (c.terminal ==> c.authorization.Some?)
  }

  function Recorded(a: Authorization, digest: Digest): Record {
    Record(AuthorizationReceipt(a), digest(AuthorizationReceipt(a)))
  }

  ghost predicate Extends(r: Record, c: Call, digest: Digest) {
    && r.receipt.Outcome? && r.digest == digest(r.receipt) && c.authorization.Some?
    && r.receipt.outcome.action == c.action
    && r.receipt.outcome.subject == c.authorization.value.subject
    && r.receipt.outcome.authorizationDigest == digest(AuthorizationReceipt(c.authorization.value))
  }

  lemma ReceiptsOfTwo(a: Event, b: Event)
    ensures ReceiptsOf([a, b]) == ReceiptsOf([a]) + ReceiptsOf([b]) && StartsOf([a, b]) == StartsOf([a]) + StartsOf([b])
  {
    ReceiptsOfAppend([a], [b]);
    assert [a] + [b] == [a, b];
  }

  lemma BeginAgrees(action: nat, subject: string, asks: bool, effective: Decision, digest: Digest)
    ensures Agrees(Begin(action, subject, asks, effective), [], [], digest)
    ensures ReceiptsOf([DecisionRecorded]) == [] && StartsOf([DecisionRecorded]) == []
  {
  }

  /** Every mark that commits keeps the agreement. */
  lemma ApprovalMarksAgree(c: Call, entry: Entry, outcome: Outcome, row: bool, now: int,
                           receipts: seq<Record>, starts: seq<string>, digest: Digest)
    requires Agrees(c, receipts, starts, digest)
    ensures var m := MarkApprovalRequested(c, entry); m.Wrote? ==> Keeps(m, receipts, starts, digest)
    ensures var m := MarkApprovalResolved(c, outcome, row, now); m.Wrote? ==> Keeps(m, receipts, starts, digest)
  {
    assert ReceiptsOf([ApprovalRequested(entry.expiresAt)]) == []
      && StartsOf([ApprovalRequested(entry.expiresAt)]) == [];
    assert ReceiptsOf([ApprovalEvent(outcome)]) == [] && StartsOf([ApprovalEvent(outcome)]) == [];
  }

  ghost predicate Keeps(m: Marked, receipts: seq<Record>, starts: seq<string>, digest: Digest)
    requires m.Wrote?
  {
    Agrees(m.call, receipts + ReceiptsOf(m.events), starts + StartsOf(m.events), digest)
  }

  lemma MarkBlockedAgrees(c: Call, status: BlockStatus, now: int, receipts: seq<Record>, starts: seq<string>,
                          digest: Digest)
    requires Agrees(c, receipts, starts, digest)
    ensures var m := MarkBlocked(c, status, now, digest); m.Wrote? ==> Keeps(m, receipts, starts, digest)
  {
    var m := MarkBlocked(c, status, now, digest);
    if m.Wrote? {
      ReceiptsOfTwo(m.events[0], m.events[1]);
    }
  }

  lemma MarkForwardingAgrees(c: Call, now: int, receipts: seq<Record>, starts: seq<string>, digest: Digest)
    requires Agrees(c, receipts, starts, digest)
    ensures var m := MarkForwarding(c, now, digest); m.Wrote? ==> Keeps(m, receipts, starts, digest)
  {
    var m := MarkForwarding(c, now, digest);
    if m.Wrote? {
      ReceiptsOfTwo(m.events[0], m.events[1]);
    }
  }

  lemma MarkCompletedAgrees(c: Call, isError: bool, now: int, receipts: seq<Record>, starts: seq<string>,
                            digest: Digest)
    requires Agrees(c, receipts, starts, digest)
    ensures var m := MarkCompleted(c, isError, now, digest); m.Wrote? ==> Keeps(m, receipts, starts, digest)
  {
    var m := MarkCompleted(c, isError, now, digest);
    if m.Wrote? {
      ReceiptsOfTwo(m.events[0], m.events[1]);
    }
  }

  lemma MarkFailedAgrees(c: Call, code: FailureCode, now: int, receipts: seq<Record>, starts: seq<string>,
                         digest: Digest)
    requires Agrees(c, receipts, starts, digest)
    ensures var m := MarkFailed(c, code, now, digest); m.Wrote? ==> Keeps(m, receipts, starts, digest)
  {
    var m := MarkFailed(c, code, now, digest);
    if m.Wrote? && !c.terminal {
      ReceiptsOfTwo(m.events[0], m.events[1]);
    }
  }
}
