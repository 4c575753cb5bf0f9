/**
  * What becomes of a tool call, told by the places of the steps that decide it: when it arrives, how the policy
  * answers, what settles its ticket, when it resumes, and what comes back.
  */
module CallStories {
  import opened Options
  import opened ApprovalService
  import opened AuditRecorder
  import opened Gateway

  // ----- Places in a run -----

  datatype Kind = Arrival | Answer | Abortion | Settling | Resumption | Result

  /** The step is of this kind for the call. */
  predicate Is(kind: Kind, e: Step, h: nat) {
    match kind
    case Arrival => e.Arrive? && e.handler == h
    case Answer => (e.RejectIdentity? || e.Evaluated? || e.EvaluationFailed?) && e.handler == h
    case Abortion => e.Abort? && e.handler == h
    case Settling => e.Close? || (e.Abort? && e.handler == h) || ((e.Decide? || e.Expire?) && e.ticket == h)
    case Resumption => e.ApprovalSettled? && e.handler == h
    case Result => (e.Returned? || e.Threw?) && e.handler == h
  }

  /** The first step of a kind from a place on; the length of the run when there is none. */
  function First(steps: seq<Step>, from: nat, kind: Kind, h: nat): (k: nat)
    ensures k <= |steps|
    ensures k < |steps| ==> from <= k && Is(kind, steps[k], h)
    ensures forall j :: from <= j < k ==> !Is(kind, steps[j], h)
    decreases |steps| - from
  {
    if from >= |steps| then |steps| else if Is(kind, steps[from], h) then from else First(steps, from + 1, kind, h)
  }

  /** What the clock reads at a place: the time last set before it. */
  function TimeAt(steps: seq<Step>, k: nat): int
    requires k <= |steps|
  {
    if k == 0 then 0 else if steps[k - 1].Clock? then steps[k - 1].now else TimeAt(steps, k - 1)
  }

  predicate ClosedBefore(steps: seq<Step>, k: nat)
    requires k <= |steps|
  {
    exists j :: 0 <= j < k && steps[j].Close?
  }

  function ArrivalAt(steps: seq<Step>, h: nat): (k: nat)
    ensures k <= |steps| && (k < |steps| ==> steps[k].Arrive? && steps[k].handler == h)
  {
    First(steps, 0, Arrival, h)
  }

  /** The policy's answer is the first after the arrival. */
  function AnswerAt(steps: seq<Step>, h: nat): (k: nat)
    ensures k <= |steps| && (k < |steps| ==> ArrivalAt(steps, h) < k && Is(Answer, steps[k], h))
  {
    First(steps, ArrivalAt(steps, h) + 1, Answer, h)
  }

  /** The caller has gone before this place. */
  predicate AbortedBefore(steps: seq<Step>, h: nat, k: nat) {
    First(steps, ArrivalAt(steps, h) + 1, Abortion, h) < k
  }

  /** A ticket asked for at `k` is settled there, if the caller has gone by then, or by the first step after it. */
  function SettledAt(steps: seq<Step>, h: nat, k: nat): (m: nat)
    requires k < |steps|
    ensures m <= |steps|
  {
    if AbortedBefore(steps, h, k) then k else First(steps, k + 1, Settling, h)
  }

  function ResumedAt(steps: seq<Step>, h: nat, k: nat): (r: nat)
    requires k < |steps|
    ensures r <= |steps| && (r < |steps| ==> SettledAt(steps, h, k) < r && Is(Resumption, steps[r], h))
  {
    First(steps, SettledAt(steps, h, k) + 1, Resumption, h)
  }

  // ----- What a call has come to -----

  /** Where a call stands; once it is over, the receipts it left and whether the upstream tool was called. */
  datatype Story =
    | Absent
    | Undecided(subject: string, aborted: bool)
    | Asking(subject: string, aborted: bool, effective: Decision, entry: Entry, fate: Option<Settlement>)
    | Running(aborted: bool, asks: bool, authorization: Authorization, startedAt: int)
    | Over(receipts: seq<Receipt>, dispatched: bool)

  const NO_APPROVAL := Approval(false, NotRequired, None, None)

  predicate Both(writes: seq<bool>) {
    Commits(writes, 0) && Commits(writes, 1)
  }

  /** What a deciding step makes of a ticket that is not settled yet. */
  function Decides(e: Step, entry: Entry, now: int): Outcome {
    match e
    case Decide(_, approve) => if now >= entry.expiresAt then Expired else if approve then Approved else Denied
    case Expire(_) => Expired
    case _ => Cancelled
  }

  function BlockedReceipt(h: nat, subject: string, effective: Decision, approval: Approval, at: int): Receipt {
    AuthorizationReceipt(Authorization(h, subject, effective, approval, Blocked, at))
  }

  /** The receipts of a call the upstream tool was called for: its authorization, and what came of it. */
  function RanReceipts(a: Authorization, startedAt: int, terminal: Option<Terminal>, at: int, digest: Digest):
      seq<Receipt> {
    match terminal
    case None => [AuthorizationReceipt(a)]
    case Some(t) =>
      [AuthorizationReceipt(a),
       Outcome(OutcomeReceipt(a.action, a.subject, digest(AuthorizationReceipt(a)), t, startedAt, at))]
  }

  /** How the result of the upstream call is recorded, if any of the writes it needs commits. */
  function TerminalOf(e: Step, aborted: bool): Option<Terminal> {
    match e
    case Returned(_, isError, _, writes) =>
      if Commits(writes, 0) then Some(if isError then UpstreamErrorResult else Completed)
      else if Commits(writes, 1) then Some(AuditFailed) else None
    case Threw(_, writes) =>
      if Commits(writes, 0) then Some(if aborted then CancelledTerminal else UpstreamErrorResult) else None
    case _ => None
  }

  /** A call dispatched at `d` under an authorization. */
  function DispatchedStory(steps: seq<Step>, h: nat, d: nat, asks: bool, a: Authorization, digest: Digest): Story
    requires d < |steps|
  {
    var q := First(steps, d + 1, Result, h);
    if q == |steps| then Running(AbortedBefore(steps, h, |steps|), asks, a, TimeAt(steps, d))
    else
      Over(RanReceipts(a, TimeAt(steps, d), TerminalOf(steps[q], AbortedBefore(steps, h, q)), TimeAt(steps, q), digest),
           true)
  }

  function EntryAt(steps: seq<Step>, k: nat): Entry
    requires k < |steps| && steps[k].Evaluated?
  {
    Entry(TimeAt(steps, k), TimeAt(steps, k) + steps[k].ttl, true)
  }

  function FateAt(steps: seq<Step>, k: nat, m: nat): Settlement
    requires k < |steps| && steps[k].Evaluated? && m < |steps|
  {
    Settlement(EntryAt(steps, k), if m == k then Cancelled else Decides(steps[m], EntryAt(steps, k), TimeAt(steps, m)),
               TimeAt(steps, m))
  }

  /** A call that asked at `k`, was settled at `m` and resumed at `r`. */
  function ResumedStory(steps: seq<Step>, h: nat, subject: string, k: nat, m: nat, r: nat, digest: Digest): Story
    requires k < |steps| && steps[k].Evaluated? && m < |steps| && r < |steps| && steps[r].ApprovalSettled?
  {
    var effective, writes, outcome := steps[k].effective, steps[r].writes, FateAt(steps, k, m).outcome;
    var approval := Approval(true, Resolved(outcome), Some(EntryAt(steps, k)), Some(TimeAt(steps, r)));
    if !Both(writes) then Over([], false)
    else if outcome != Approved then
      Over([BlockedReceipt(h, subject, effective, approval, TimeAt(steps, r))], false)
    else if AbortedBefore(steps, h, r) then
      Over([AuthorizationReceipt(Authorization(h, subject, effective, approval, FailedPreDispatch, TimeAt(steps, r)))],
           false)
    else if effective == Deny then Over([], false)
    else
      DispatchedStory(steps, h, r, true,
                         Authorization(h, subject, effective, approval, Authorized, TimeAt(steps, r)), digest)
  }

  function AskedStory(steps: seq<Step>, h: nat, subject: string, k: nat, digest: Digest): Story
    requires k < |steps| && steps[k].Evaluated?
  {
    var m, r := SettledAt(steps, h, k), ResumedAt(steps, h, k);
    if r < |steps| then ResumedStory(steps, h, subject, k, m, r, digest)
    else
      Asking(subject, AbortedBefore(steps, h, |steps|), steps[k].effective, EntryAt(steps, k),
             if m == |steps| then None else Some(FateAt(steps, k, m)))
  }

  /** What the policy's answer leads to, given that the call was opened and its first two writes committed. */
  function FollowedStory(steps: seq<Step>, h: nat, subject: string, k: nat, digest: Digest): Story
    requires k < |steps| && steps[k].Evaluated?
  {
    var e, now := steps[k], TimeAt(steps, k);
    match e.action
    case Refuse =>
      if e.effective == Deny then Over([BlockedReceipt(h, subject, Deny, NO_APPROVAL, now)], false) else Over([], false)
    case AskFirst =>
      if !e.coordinator then
        Over([BlockedReceipt(h, subject, e.effective, Approval(true, Unavailable, None, None), now)], false)
      else if e.ttl <= 0 || ClosedBefore(steps, k) then Over([], false)
      else AskedStory(steps, h, subject, k, digest)
    case Forward =>
      if e.effective == Deny then Over([], false)
      else
        DispatchedStory(steps, h, k, false, Authorization(h, subject, e.effective, NO_APPROVAL, Authorized, now),
                           digest)
  }

  function AnsweredStory(steps: seq<Step>, h: nat, subject: string, k: nat, digest: Digest): Story
    requires k < |steps| && Is(Answer, steps[k], h)
  {
    match steps[k]
    case EvaluationFailed(_) => Over([], false)
    case RejectIdentity(_, writes) =>
      if Both(writes) then Over([BlockedReceipt(h, subject, Deny, NO_APPROVAL, TimeAt(steps, k))], false)
      else Over([], false)
    case Evaluated(_, _, _, _, _, writes) =>
      if Both(writes) then FollowedStory(steps, h, subject, k, digest) else Over([], false)
  }

  /** Where the run has brought a call. */
  function StoryOf(steps: seq<Step>, h: nat, digest: Digest): Story {
    var a, k := ArrivalAt(steps, h), AnswerAt(steps, h);
    if a == |steps| then Absent
    else if k == |steps| then Undecided(steps[a].subject, AbortedBefore(steps, h, |steps|))
    else AnsweredStory(steps, h, steps[a].subject, k, digest)
  }

  /** The receipts of the call so far. */
  function ReceiptsTold(x: Story): seq<Receipt> {
    match x
    case Running(_, _, a, _) => [AuthorizationReceipt(a)]
    case Over(receipts, _) => receipts
    case _ => []
  }

  /** The upstream tool has been called. */
  predicate CalledUpstream(x: Story) {
    x.Running? || (x.Over? && x.dispatched)
  }
}
