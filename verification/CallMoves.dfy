/** How one more step moves a call, and that the places of the steps say the same. */
module CallMoves {
  import opened Options
  import opened ApprovalService
  import opened AuditRecorder
  import opened Gateway
  import opened CallStories

  // ----- One more step -----

  function MovesByAnswer(x: Story, e: Step, h: nat, now: int, closed: bool, digest: Digest): Story
    requires x.Undecided? && Is(Answer, e, h)
  {
    match e
    case EvaluationFailed(_) => Over([], false)
    case RejectIdentity(_, writes) =>
      if Both(writes) then Over([BlockedReceipt(h, x.subject, Deny, NO_APPROVAL, now)], false) else Over([], false)
    case Evaluated(_, action, effective, coordinator, ttl, writes) =>
      if !Both(writes) then Over([], false)
      else match action
           case Refuse =>
             if effective == Deny then Over([BlockedReceipt(h, x.subject, Deny, NO_APPROVAL, now)], false)
             else Over([], false)
           case AskFirst =>
             if !coordinator then
               Over([BlockedReceipt(h, x.subject, effective, Approval(true, Unavailable, None, None), now)], false)
             else if ttl <= 0 || closed then Over([], false)
             else
               var entry := Entry(now, now + ttl, true);
               Asking(x.subject, x.aborted, effective, entry,
                      if x.aborted then Some(Settlement(entry, Cancelled, now)) else None)
           case Forward =>
             if effective == Deny then Over([], false)
             else Running(x.aborted, false, Authorization(h, x.subject, effective, NO_APPROVAL, Authorized, now), now)
  }

  function MovesByResuming(x: Story, writes: seq<bool>, h: nat, now: int): Story
    requires x.Asking? && x.fate.Some?
  {
    var outcome := x.fate.value.outcome;
    var approval := Approval(true, Resolved(outcome), Some(x.entry), Some(now));
    if !Both(writes) then Over([], false)
    else if outcome != Approved then Over([BlockedReceipt(h, x.subject, x.effective, approval, now)], false)
    else if x.aborted then
      Over([AuthorizationReceipt(Authorization(h, x.subject, x.effective, approval, FailedPreDispatch, now))], false)
    else if x.effective == Deny then Over([], false)
    else Running(x.aborted, true, Authorization(h, x.subject, x.effective, approval, Authorized, now), now)
  }

  function Moves(x: Story, e: Step, h: nat, now: int, closed: bool, digest: Digest): Story {
    match x
    case Absent => if Is(Arrival, e, h) then Undecided(e.subject, false) else x
    case Undecided(subject, aborted) =>
      if Is(Abortion, e, h) then Undecided(subject, true)
      else if Is(Answer, e, h) then MovesByAnswer(x, e, h, now, closed, digest) else x
    case Asking(subject, aborted, effective, entry, fate) =>
      if Is(Resumption, e, h) then if fate.Some? then MovesByResuming(x, e.writes, h, now) else x
      else if Is(Settling, e, h) then
        Asking(subject, aborted || Is(Abortion, e, h), effective, entry,
               if fate.Some? then fate else Some(Settlement(entry, Decides(e, entry, now), now)))
      else x
    case Running(aborted, asks, a, startedAt) =>
      if Is(Abortion, e, h) then Running(true, asks, a, startedAt)
      else if Is(Result, e, h) then Over(RanReceipts(a, startedAt, TerminalOf(e, aborted), now, digest), true)
      else x
    case Over(_, _) => x
  }

  // ----- Places stay where they are -----

  lemma {:induction false} FirstAppend(steps: seq<Step>, from: nat, kind: Kind, h: nat, e: Step)
    requires from <= |steps|
    ensures First(steps + [e], from, kind, h) ==
            if First(steps, from, kind, h) < |steps| then First(steps, from, kind, h)
            else if Is(kind, e, h) then |steps| else |steps| + 1
    decreases |steps| - from
  {
    var more := steps + [e];
    if from == |steps| {
      assert more[from] == e;
    } else {
      assert more[from] == steps[from];
      if !Is(kind, steps[from], h) {
        FirstAppend(steps, from + 1, kind, h, e);
      }
    }
  }

  lemma {:induction false} TimeAppend(steps: seq<Step>, k: nat, e: Step)
    requires k <= |steps|
    ensures TimeAt(steps + [e], k) == TimeAt(steps, k)
  {
    if k > 0 {
      TimeAppend(steps, k - 1, e);
    }
  }

  lemma ClosedAppend(steps: seq<Step>, k: nat, e: Step)
    requires k <= |steps|
    ensures ClosedBefore(steps + [e], k) == ClosedBefore(steps, k)
  {
    var more := steps + [e];
    assert forall j :: 0 <= j < k ==> more[j] == steps[j];
  }

  /** Once a call has arrived, its arrival stays, and so does what has happened since. */
  lemma ArrivedAppend(steps: seq<Step>, h: nat, e: Step)
    requires ArrivalAt(steps, h) < |steps|
    ensures ArrivalAt(steps + [e], h) == ArrivalAt(steps, h)
    ensures AnswerAt(steps + [e], h) == if AnswerAt(steps, h) < |steps| then AnswerAt(steps, h)
                                        else if Is(Answer, e, h) then |steps| else |steps| + 1
    ensures forall k: nat :: k <= |steps| ==> AbortedBefore(steps + [e], h, k) == AbortedBefore(steps, h, k)
    ensures AbortedBefore(steps + [e], h, |steps| + 1) == (AbortedBefore(steps, h, |steps|) || Is(Abortion, e, h))
  {
    FirstAppend(steps, 0, Arrival, h, e);
    FirstAppend(steps, ArrivalAt(steps, h) + 1, Answer, h, e);
    FirstAppend(steps, ArrivalAt(steps, h) + 1, Abortion, h, e);
  }

  // ----- The story of a longer run -----

  lemma LastIs(steps: seq<Step>, e: Step)
    ensures (steps + [e])[|steps|] == e
  {
  }

  lemma EarlierIs(steps: seq<Step>, e: Step, k: nat)
    requires k < |steps|
    ensures (steps + [e])[k] == steps[k]
  {
  }

  lemma ResultStays(steps: seq<Step>, h: nat, d: nat, asks: bool, a: Authorization, digest: Digest, e: Step)
    requires d < |steps| && ArrivalAt(steps, h) < |steps| && First(steps, d + 1, Result, h) < |steps|
    ensures DispatchedStory(steps + [e], h, d, asks, a, digest) == DispatchedStory(steps, h, d, asks, a, digest)
  {
    var q := First(steps, d + 1, Result, h);
    ArrivedAppend(steps, h, e);
    FirstAppend(steps, d + 1, Result, h, e);
    TimeAppend(steps, d, e);
    TimeAppend(steps, q, e);
    EarlierIs(steps, e, q);
  }

  lemma ResultMayCome(steps: seq<Step>, h: nat, d: nat, asks: bool, a: Authorization, digest: Digest, e: Step,
                      closed: bool)
    requires d < |steps| && ArrivalAt(steps, h) < |steps| && First(steps, d + 1, Result, h) == |steps|
    ensures DispatchedStory(steps + [e], h, d, asks, a, digest) ==
            Moves(Running(AbortedBefore(steps, h, |steps|), asks, a, TimeAt(steps, d)), e, h, TimeAt(steps, |steps|),
                  closed, digest)
  {
    ArrivedAppend(steps, h, e);
    FirstAppend(steps, d + 1, Result, h, e);
    TimeAppend(steps, d, e);
    TimeAppend(steps, |steps|, e);
    LastIs(steps, e);
  }

  lemma DispatchedAppend(steps: seq<Step>, h: nat, d: nat, asks: bool, a: Authorization, digest: Digest, e: Step,
                         closed: bool)
    requires d < |steps| && ArrivalAt(steps, h) < |steps|
    ensures DispatchedStory(steps + [e], h, d, asks, a, digest) ==
            Moves(DispatchedStory(steps, h, d, asks, a, digest), e, h, TimeAt(steps, |steps|), closed, digest)
  {
    if First(steps, d + 1, Result, h) < |steps| {
      ResultStays(steps, h, d, asks, a, digest, e);
    } else {
      ResultMayCome(steps, h, d, asks, a, digest, e, closed);
    }
  }

  lemma DispatchedNow(steps: seq<Step>, h: nat, asks: bool, a: Authorization, digest: Digest, e: Step)
    requires ArrivalAt(steps, h) < |steps| && !Is(Abortion, e, h)
    ensures DispatchedStory(steps + [e], h, |steps|, asks, a, digest) ==
            Running(AbortedBefore(steps, h, |steps|), asks, a, TimeAt(steps, |steps|))
  {
    ArrivedAppend(steps, h, e);
    TimeAppend(steps, |steps|, e);
  }

  /** The facts about places in a ticket's story that one more step leaves as they are. */
  lemma TicketAppend(steps: seq<Step>, h: nat, k: nat, e: Step)
    requires k < |steps| && ArrivalAt(steps, h) < |steps| && steps[k].Evaluated?
    ensures EntryAt(steps + [e], k) == EntryAt(steps, k)
    ensures var m := SettledAt(steps, h, k);
            SettledAt(steps + [e], h, k) ==
            if m < |steps| then m else if Is(Settling, e, h) then |steps| else |steps| + 1
    ensures forall m: nat :: m < |steps| ==> FateAt(steps + [e], k, m) == FateAt(steps, k, m)
  {
    ArrivedAppend(steps, h, e);
    FirstAppend(steps, k + 1, Settling, h, e);
    TimeAppend(steps, k, e);
    forall m: nat | m < |steps| ensures FateAt(steps + [e], k, m) == FateAt(steps, k, m) {
      TimeAppend(steps, m, e);
      assert (steps + [e])[m] == steps[m];
    }
  }

  lemma ResumedAppend(steps: seq<Step>, h: nat, subject: string, k: nat, m: nat, r: nat, digest: Digest, e: Step,
                      closed: bool)
    requires k < |steps| && steps[k].Evaluated? && m < |steps| && r < |steps| && steps[r].ApprovalSettled?
    requires ArrivalAt(steps, h) < |steps|
    ensures ResumedStory(steps + [e], h, subject, k, m, r, digest) ==
            Moves(ResumedStory(steps, h, subject, k, m, r, digest), e, h, TimeAt(steps, |steps|), closed, digest)
  {
    TicketAppend(steps, h, k, e);
    ArrivedAppend(steps, h, e);
    TimeAppend(steps, r, e);
    EarlierIs(steps, e, r);
    EarlierIs(steps, e, k);
    var outcome := FateAt(steps, k, m).outcome;
    var approval := Approval(true, Resolved(outcome), Some(EntryAt(steps, k)), Some(TimeAt(steps, r)));
    DispatchedAppend(steps, h, r, true,
                     Authorization(h, subject, steps[k].effective, approval, Authorized, TimeAt(steps, r)), digest, e,
                     closed);
  }

  lemma ResumedNow(steps: seq<Step>, h: nat, subject: string, k: nat, m: nat, digest: Digest, e: Step)
    requires k < |steps| && steps[k].Evaluated? && m < |steps| && Is(Resumption, e, h)
    requires ArrivalAt(steps, h) < |steps|
    ensures ResumedStory(steps + [e], h, subject, k, m, |steps|, digest) ==
            MovesByResuming(Asking(subject, AbortedBefore(steps, h, |steps|), steps[k].effective, EntryAt(steps, k),
                                   Some(FateAt(steps, k, m))), e.writes, h, TimeAt(steps, |steps|))
  {
    TicketAppend(steps, h, k, e);
    ArrivedAppend(steps, h, e);
    TimeAppend(steps, |steps|, e);
    EarlierIs(steps, e, k);
    LastIs(steps, e);
    var outcome := FateAt(steps, k, m).outcome;
    var approval := Approval(true, Resolved(outcome), Some(EntryAt(steps, k)), Some(TimeAt(steps, |steps|)));
    DispatchedNow(steps, h, true,
                  Authorization(h, subject, steps[k].effective, approval, Authorized, TimeAt(steps, |steps|)), digest,
                  e);
  }

  lemma ResumedStays(steps: seq<Step>, h: nat, k: nat, e: Step)
    requires k < |steps| && steps[k].Evaluated? && ArrivalAt(steps, h) < |steps| && SettledAt(steps, h, k) < |steps|
    ensures SettledAt(steps + [e], h, k) == SettledAt(steps, h, k)
    ensures ResumedAt(steps + [e], h, k) == if ResumedAt(steps, h, k) < |steps| then ResumedAt(steps, h, k)
                                            else if Is(Resumption, e, h) then |steps| else |steps| + 1
  {
    TicketAppend(steps, h, k, e);
    FirstAppend(steps, SettledAt(steps, h, k) + 1, Resumption, h, e);
  }

  lemma AskedSettled(steps: seq<Step>, h: nat, subject: string, k: nat, digest: Digest, e: Step, closed: bool)
    requires k < |steps| && steps[k].Evaluated? && ArrivalAt(steps, h) < |steps|
    requires SettledAt(steps, h, k) < |steps|
    ensures AskedStory(steps + [e], h, subject, k, digest) ==
            Moves(AskedStory(steps, h, subject, k, digest), e, h, TimeAt(steps, |steps|), closed, digest)
  {
    var m, r := SettledAt(steps, h, k), ResumedAt(steps, h, k);
    ResumedStays(steps, h, k, e);
    EarlierIs(steps, e, k);
    if r < |steps| {
      ResumedAppend(steps, h, subject, k, m, r, digest, e, closed);
    } else if Is(Resumption, e, h) {
      ResumedNow(steps, h, subject, k, m, digest, e);
    } else {
      TicketAppend(steps, h, k, e);
      ArrivedAppend(steps, h, e);
    }
  }

  lemma AskedPending(steps: seq<Step>, h: nat, subject: string, k: nat, digest: Digest, e: Step, closed: bool)
    requires k < |steps| && steps[k].Evaluated? && ArrivalAt(steps, h) < |steps|
    requires SettledAt(steps, h, k) == |steps|
    ensures AskedStory(steps + [e], h, subject, k, digest) ==
            Moves(Asking(subject, AbortedBefore(steps, h, |steps|), steps[k].effective, EntryAt(steps, k), None), e, h,
                  TimeAt(steps, |steps|), closed, digest)
  {
    TicketAppend(steps, h, k, e);
    ArrivedAppend(steps, h, e);
    TimeAppend(steps, |steps|, e);
    EarlierIs(steps, e, k);
    LastIs(steps, e);
  }

  lemma AskedAppend(steps: seq<Step>, h: nat, subject: string, k: nat, digest: Digest, e: Step, closed: bool)
    requires k < |steps| && steps[k].Evaluated? && ArrivalAt(steps, h) < |steps|
    ensures AskedStory(steps + [e], h, subject, k, digest) ==
            Moves(AskedStory(steps, h, subject, k, digest), e, h, TimeAt(steps, |steps|), closed, digest)
  {
    if SettledAt(steps, h, k) < |steps| {
      AskedSettled(steps, h, subject, k, digest, e, closed);
    } else {
      AskedPending(steps, h, subject, k, digest, e, closed);
    }
  }

  lemma SettledNow(steps: seq<Step>, h: nat, e: Step)
    requires e.Evaluated? && e.handler == h && ArrivalAt(steps, h) < |steps|
    ensures var m := if AbortedBefore(steps, h, |steps|) then |steps| else |steps| + 1;
            SettledAt(steps + [e], h, |steps|) == m && ResumedAt(steps + [e], h, |steps|) == |steps| + 1
    ensures AbortedBefore(steps + [e], h, |steps + [e]|) == AbortedBefore(steps, h, |steps|)
  {
    ArrivedAppend(steps, h, e);
  }

  lemma EntryNow(steps: seq<Step>, h: nat, e: Step)
    requires e.Evaluated? && (steps + [e])[|steps|] == e
    ensures EntryAt(steps + [e], |steps|) == Entry(TimeAt(steps, |steps|), TimeAt(steps, |steps|) + e.ttl, true)
    ensures FateAt(steps + [e], |steps|, |steps|) ==
            Settlement(EntryAt(steps + [e], |steps|), Cancelled, TimeAt(steps, |steps|))
  {
    TimeAppend(steps, |steps|, e);
  }

  lemma AskedNow(steps: seq<Step>, h: nat, subject: string, digest: Digest, e: Step)
    requires e.Evaluated? && e.handler == h && ArrivalAt(steps, h) < |steps| && (steps + [e])[|steps|] == e
    ensures var entry := Entry(TimeAt(steps, |steps|), TimeAt(steps, |steps|) + e.ttl, true);
            AskedStory(steps + [e], h, subject, |steps|, digest) ==
            Asking(subject, AbortedBefore(steps, h, |steps|), e.effective, entry,
                   if AbortedBefore(steps, h, |steps|) then Some(Settlement(entry, Cancelled, TimeAt(steps, |steps|)))
                   else None)
  {
    SettledNow(steps, h, e);
    EntryNow(steps, h, e);
  }

  lemma FollowedAppend(steps: seq<Step>, h: nat, subject: string, k: nat, digest: Digest, e: Step, closed: bool)
    requires k < |steps| && steps[k].Evaluated? && ArrivalAt(steps, h) < |steps| && (steps + [e])[k] == steps[k]
    ensures FollowedStory(steps + [e], h, subject, k, digest) ==
            Moves(FollowedStory(steps, h, subject, k, digest), e, h, TimeAt(steps, |steps|), closed, digest)
  {
    TimeAppend(steps, k, e);
    match steps[k].action
    case Refuse =>
    case AskFirst =>
      ClosedAppend(steps, k, e);
      AskedAppend(steps, h, subject, k, digest, e, closed);
    case Forward =>
      DispatchedAppend(steps, h, k, false,
                       Authorization(h, subject, steps[k].effective, NO_APPROVAL, Authorized, TimeAt(steps, k)), digest,
                       e, closed);
  }

  lemma AnsweredAppend(steps: seq<Step>, h: nat, subject: string, k: nat, digest: Digest, e: Step, closed: bool)
    requires k < |steps| && Is(Answer, steps[k], h) && ArrivalAt(steps, h) < |steps|
    requires (steps + [e])[k] == steps[k]
    ensures AnsweredStory(steps + [e], h, subject, k, digest) ==
            Moves(AnsweredStory(steps, h, subject, k, digest), e, h, TimeAt(steps, |steps|), closed, digest)
  {
    TimeAppend(steps, k, e);
    if steps[k].Evaluated? {
      FollowedAppend(steps, h, subject, k, digest, e, closed);
    }
  }

  lemma FollowedNow(steps: seq<Step>, h: nat, subject: string, digest: Digest, e: Step)
    requires e.Evaluated? && e.handler == h && ArrivalAt(steps, h) < |steps| && (steps + [e])[|steps|] == e
    requires Both(e.writes)
    ensures FollowedStory(steps + [e], h, subject, |steps|, digest) ==
            MovesByAnswer(Undecided(subject, AbortedBefore(steps, h, |steps|)), e, h, TimeAt(steps, |steps|),
                          ClosedBefore(steps, |steps|), digest)
  {
    TimeAppend(steps, |steps|, e);
    match e.action
    case Refuse =>
    case AskFirst =>
      ClosedAppend(steps, |steps|, e);
      AskedNow(steps, h, subject, digest, e);
    case Forward =>
      DispatchedNow(steps, h, false,
                    Authorization(h, subject, e.effective, NO_APPROVAL, Authorized, TimeAt(steps, |steps|)), digest, e);
  }

  lemma AnsweredNow(steps: seq<Step>, h: nat, subject: string, digest: Digest, e: Step)
    requires Is(Answer, e, h) && ArrivalAt(steps, h) < |steps|
    requires (steps + [e])[|steps|] == e
    ensures AnsweredStory(steps + [e], h, subject, |steps|, digest) ==
            MovesByAnswer(Undecided(subject, AbortedBefore(steps, h, |steps|)), e, h, TimeAt(steps, |steps|),
                          ClosedBefore(steps, |steps|), digest)
  {
    TimeAppend(steps, |steps|, e);
    if e.Evaluated? && Both(e.writes) {
      FollowedNow(steps, h, subject, digest, e);
    }
  }

  /** The story of a longer run is the story before it, moved by the last step. */
  lemma StoryAppend(steps: seq<Step>, h: nat, digest: Digest, e: Step)
    ensures StoryOf(steps + [e], h, digest) ==
            Moves(StoryOf(steps, h, digest), e, h, TimeAt(steps, |steps|), ClosedBefore(steps, |steps|), digest)
  {
    var a, k := ArrivalAt(steps, h), AnswerAt(steps, h);
    FirstAppend(steps, 0, Arrival, h, e);
    LastIs(steps, e);
    if a < |steps| {
      ArrivedAppend(steps, h, e);
      EarlierIs(steps, e, a);
      if k < |steps| {
        EarlierIs(steps, e, k);
        AnsweredAppend(steps, h, steps[a].subject, k, digest, e, ClosedBefore(steps, |steps|));
      } else if Is(Answer, e, h) {
        AnsweredNow(steps, h, steps[a].subject, digest, e);
      }
    }
  }
}
