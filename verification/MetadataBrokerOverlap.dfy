/** When the broker loses bytes, told by the order of its reads and commits and not by the values they store. */
module MetadataBrokerOverlap {
  import opened Options
  import opened MetadataBroker
  import opened MetadataBrokerSafety

  // ----- Reads and commits as events of a run -----

  /** A fetch settles and its handler reads the byte count. */
  predicate Reads(s: State, e: Event) {
    && e.FetchSettled? && e.request < |s.requests| && s.requests[e.request].frame.Fetching?
    && e.result.Fetched? && s.phase == Armed && !s.aborted
  }

  /** A handler stores its entry and its byte count. */
  predicate Commits(s: State, e: Event) {
    && e.ResponseResume? && e.request < |s.requests|
    && s.requests[e.request].frame.ResponseSettled? && s.requests[e.request].frame.durable && s.phase == Armed
  }

  predicate ReadsAt(start: State, events: seq<Event>, k: int) {
    0 <= k < |events| && Reads(Run(start, events[..k]), events[k])
  }

  predicate CommitsAt(start: State, events: seq<Event>, k: int) {
    0 <= k < |events| && Commits(Run(start, events[..k]), events[k])
  }

  /** A request reads the byte count, another one commits, and then the first one commits. */
  predicate OverlapAt(start: State, events: seq<Event>, r: int, m: int, c: int) {
    && r < m < c
    && ReadsAt(start, events, r) && CommitsAt(start, events, m) && CommitsAt(start, events, c)
    && events[r].request == events[c].request != events[m].request
  }

  ghost predicate CommitsOverlap(start: State, events: seq<Event>) {
    exists r, m, c :: OverlapAt(start, events, r, m, c)
  }

  // ----- What one event does to a request's frame -----

  function Rank(f: Frame): nat {
    match f
    case IntentAppending(_) => 0
    case IntentSettled(_) => 1
    case Fetching => 2
    case ResponseAppending(_, _, _) => 3
    case ResponseSettled(_, _, _) => 4
    case FailEntered => 5
    case Returned(_) => 6
  }

  /** Frames only move forward, and requests only grow in number. */
  predicate Forward(s: State, t: State) {
    && |s.requests| <= |t.requests|
    && forall i :: 0 <= i < |s.requests| ==> Rank(s.requests[i].frame) <= Rank(t.requests[i].frame)
  }

  /** A pending response is as it was, or was read just now. */
  ghost predicate PendingFrom(s: State, e: Event, t: State) {
    forall i :: 0 <= i < |t.requests| && Pending(t.requests[i].frame) ==>
      || (i < |s.requests| && Pending(s.requests[i].frame) && SamePending(s.requests[i].frame, t.requests[i].frame))
      || (Reads(s, e) && e.request == i && Base(t.requests[i].frame) == s.committedBytes)
  }

  predicate SamePending(f: Frame, g: Frame)
    requires (f.ResponseAppending? || f.ResponseSettled?) && (g.ResponseAppending? || g.ResponseSettled?)
  {
    f.body == g.body && f.nextCommitted == g.nextCommitted
  }

  /** What any event does, as far as reads and commits are concerned. */
  ghost predicate Moves(s: State, e: Event, t: State) {
    && Forward(s, t) && PendingFrom(s, e, t)
    && (!Commits(s, e) ==> t.committedBytes == s.committedBytes)
  }

  lemma FailMoves(s: State, e: Event, i: nat, cause: Predicate)
    requires i < |s.requests| && !s.requests[i].frame.Returned?
    ensures Moves(s, e, FailRequest(s, i, cause))
  {
  }

  lemma ResumeIntentMoves(s: State, i: nat)
    requires i < |s.requests| && s.requests[i].frame.IntentSettled?
    ensures Moves(s, IntentResume(i), ResumeIntent(s, i))
  {
    FailMoves(s, IntentResume(i), i, SessionNotArmed);
    FailMoves(s, IntentResume(i), i, RequestIntentNotDurable);
  }

  lemma FetchMoves(s: State, i: nat, result: FetchResult, bytes: nat)
    requires i < |s.requests| && s.requests[i].frame.Fetching?
    ensures Moves(s, FetchSettled(i, result, bytes), SettleFetch(s, i, result, bytes))
  {
    var e := FetchSettled(i, result, bytes);
    FailMoves(s, e, i, SessionNotArmed);
    FailMoves(s, e, i, Unclassified);
    if result.FetchFailed? { FailMoves(s, e, i, result.cause); }
  }

  lemma SettleIntentMoves(s: State, i: nat, accepted: bool)
    requires i < |s.requests| && s.requests[i].frame.IntentAppending?
    ensures Moves(s, IntentAppendSettled(i, accepted), SettleIntent(s, i, accepted))
  {
  }

  lemma SettleResponseMoves(s: State, i: nat, accepted: bool)
    requires i < |s.requests| && s.requests[i].frame.ResponseAppending?
    ensures Moves(s, ResponseAppendSettled(i, accepted), SettleResponse(s, i, accepted))
  {
  }

  lemma ResumeResponseMoves(s: State, i: nat)
    requires i < |s.requests| && s.requests[i].frame.ResponseSettled?
    ensures Moves(s, ResponseResume(i), ResumeResponse(s, i))
    ensures Commits(s, ResponseResume(i)) ==>
      && ResumeResponse(s, i).committedBytes == s.requests[i].frame.nextCommitted
      && ResumeResponse(s, i).requests[i].frame == Returned(true)
  {
    FailMoves(s, ResponseResume(i), i, SessionNotArmed);
    FailMoves(s, ResponseResume(i), i, ResponseValidationNotDurable);
  }

  lemma HandleMoves(s: State, parsed: Option<string>, bytes: nat)
    ensures Moves(s, HandleCall(parsed, bytes), Handle(s, parsed, bytes))
  {
  }

  lemma RequestEventMoves(s: State, e: Event)
    requires OfRequest(e) && e.request < |s.requests|
    ensures Moves(s, e, Next(s, e))
  {
    var f := s.requests[e.request].frame;
    match e
    case IntentAppendSettled(i, accepted) => if f.IntentAppending? { SettleIntentMoves(s, i, accepted); }
    case IntentResume(i) => if f.IntentSettled? { ResumeIntentMoves(s, i); }
    case FetchSettled(i, result, bytes) => if f.Fetching? { FetchMoves(s, i, result, bytes); }
    case ResponseAppendSettled(i, accepted) => if f.ResponseAppending? { SettleResponseMoves(s, i, accepted); }
    case ResponseResume(i) => if f.ResponseSettled? { ResumeResponseMoves(s, i); }
    case FailResume(i) =>
  }

  lemma StepMoves(s: State, e: Event)
    ensures Moves(s, e, Next(s, e))
  {
    if OfRequest(e) {
      if e.request < |s.requests| { RequestEventMoves(s, e); }
    } else if e.HandleCall? {
      HandleMoves(s, e.parsed, e.bytes);
    } else {
      SessionStepSame(s, e);
    }
  }

  lemma ReadLeavesFetching(s: State, e: Event)
    requires Reads(s, e)
    ensures e.request < |Next(s, e).requests| && Rank(Next(s, e).requests[e.request].frame) > Rank(Fetching)
  {
  }

  /** Everything one event does, as far as overlaps are concerned; a commit stores a response that is not empty. */
  ghost predicate StepFacts(s: State, e: Event, t: State) {
    && Moves(s, e, t)
    && (Reads(s, e) ==> e.request < |t.requests| && Rank(t.requests[e.request].frame) > Rank(Fetching))
    && (Commits(s, e) ==>
          && e.request < |t.requests| && t.requests[e.request].frame == Returned(true)
          && t.committedBytes == s.requests[e.request].frame.nextCommitted && |s.requests[e.request].frame.body| > 0)
  }

  lemma StepIsFact(s: State, e: Event)
    requires Accounted(s)
    ensures StepFacts(s, e, Next(s, e))
  {
    StepMoves(s, e);
    if Reads(s, e) { ReadLeavesFetching(s, e); }
    if Commits(s, e) {
      ResumeResponseMoves(s, e.request);
      assert PendingBounded(s);
    }
  }

  // ----- Along a history of states -----

  /** The states before and after each event. */
  ghost predicate History(states: seq<State>, events: seq<Event>) {
    && |states| == |events| + 1 && states[0].requests == []
    && forall k :: 0 <= k < |events| ==> StepFacts(states[k], events[k], states[k + 1])
  }

  predicate ReadIn(states: seq<State>, events: seq<Event>, k: int) {
    0 <= k < |events| && k < |states| && Reads(states[k], events[k])
  }

  predicate CommitIn(states: seq<State>, events: seq<Event>, k: int) {
    0 <= k < |events| && k < |states| && Commits(states[k], events[k])
  }

  predicate OverlapIn(states: seq<State>, events: seq<Event>, r: int, m: int, c: int) {
    && r < m < c
    && ReadIn(states, events, r) && CommitIn(states, events, m) && CommitIn(states, events, c)
    && events[r].request == events[c].request != events[m].request
  }

  /** The commit at `c` stores a count based on a count that is not the present one. */
  predicate StaleIn(states: seq<State>, events: seq<Event>, c: int) {
    CommitIn(states, events, c) && Base(states[c].requests[events[c].request].frame) != states[c].committedBytes
  }

  lemma ForwardTransitive(s: State, t: State, u: State)
    requires Forward(s, t) && Forward(t, u)
    ensures Forward(s, u)
  {
  }

  lemma {:induction false} HistoryForward(states: seq<State>, events: seq<Event>, a: nat, b: nat)
    requires History(states, events) && a <= b <= |events|
    ensures Forward(states[a], states[b])
    decreases b - a
  {
    if a < b {
      HistoryForward(states, events, a, b - 1);
      assert StepFacts(states[b - 1], events[b - 1], states[b - 1 + 1]);
      ForwardTransitive(states[a], states[b - 1], states[b]);
    }
  }

  lemma {:induction false} SomeCommitBetween(states: seq<State>, events: seq<Event>, a: nat, b: nat)
    requires History(states, events) && a <= b <= |events|
    requires states[a].committedBytes != states[b].committedBytes
    ensures exists m :: a <= m < b && CommitIn(states, events, m)
    decreases b - a
  {
    if a < b {
      assert StepFacts(states[b - 1], events[b - 1], states[b - 1 + 1]);
      if !CommitIn(states, events, b - 1) {
        SomeCommitBetween(states, events, a, b - 1);
      }
    }
  }

  /** A pending response was read at some earlier event, when the byte count was the one it is based on. */
  lemma {:induction false} PendingWasRead(states: seq<State>, events: seq<Event>, n: nat, i: nat) returns (r: nat)
    requires History(states, events) && n <= |events|
    requires i < |states[n].requests| && Pending(states[n].requests[i].frame)
    ensures r < n && ReadIn(states, events, r) && events[r].request == i
    ensures states[r].committedBytes == Base(states[n].requests[i].frame)
  {
    assert StepFacts(states[n - 1], events[n - 1], states[n - 1 + 1]);
    if Reads(states[n - 1], events[n - 1]) && events[n - 1].request == i
       && Base(states[n].requests[i].frame) == states[n - 1].committedBytes {
      r := n - 1;
    } else {
      r := PendingWasRead(states, events, n - 1, i);
    }
  }

  /** A request reads the byte count once only. */
  lemma ReadsOnce(states: seq<State>, events: seq<Event>, a: nat, b: nat)
    requires History(states, events) && ReadIn(states, events, a) && ReadIn(states, events, b)
    requires events[a].request == events[b].request
    ensures a == b
  {
    if a < b {
      HistoryForward(states, events, a + 1, b);
    } else if b < a {
      HistoryForward(states, events, b + 1, a);
    }
  }

  /** A request commits once only. */
  lemma CommitsOnce(states: seq<State>, events: seq<Event>, a: nat, b: nat)
    requires History(states, events) && CommitIn(states, events, a) && CommitIn(states, events, b)
    requires events[a].request == events[b].request
    ensures a == b
  {
    if a < b {
      HistoryForward(states, events, a + 1, b);
    } else if b < a {
      HistoryForward(states, events, b + 1, a);
    }
  }

  /** A commit is stale only where another request committed between the read and the commit. */
  lemma StaleOverlaps(states: seq<State>, events: seq<Event>, c: nat)
    requires History(states, events) && StaleIn(states, events, c)
    ensures exists r, m :: OverlapIn(states, events, r, m, c)
  {
    var i := events[c].request;
    var r := PendingWasRead(states, events, c, i);
    SomeCommitBetween(states, events, r, c);
    var m :| r <= m < c && CommitIn(states, events, m);
    if events[m].request == i { CommitsOnce(states, events, m, c); }
    assert OverlapIn(states, events, r, m, c);
  }

  // ----- The first overlapping commit is stale -----

  ghost predicate NoOverlapBefore(states: seq<State>, events: seq<Event>, c: int) {
    forall r, m, d :: d < c ==> !OverlapIn(states, events, r, m, d)
  }

  /** As long as no commit overlaps, each one adds exactly its own response. */
  lemma CommitAdds(states: seq<State>, events: seq<Event>, k: nat, c: nat)
    requires History(states, events) && k < c <= |events| && NoOverlapBefore(states, events, c)
    ensures states[k].committedBytes <= states[k + 1].committedBytes
    ensures CommitIn(states, events, k) ==> states[k].committedBytes < states[k + 1].committedBytes
  {
    assert StepFacts(states[k], events[k], states[k + 1]);
    if StaleIn(states, events, k) {
      StaleOverlaps(states, events, k);
    }
  }

  lemma {:induction false} CountGrows(states: seq<State>, events: seq<Event>, a: nat, b: nat, c: nat)
    requires History(states, events) && a <= b <= c <= |events| && NoOverlapBefore(states, events, c)
    ensures states[a].committedBytes <= states[b].committedBytes
    decreases b - a
  {
    if a < b {
      CountGrows(states, events, a, b - 1, c);
      CommitAdds(states, events, b - 1, c);
    }
  }

  lemma FirstOverlapIsStale(states: seq<State>, events: seq<Event>, r: int, m: int, c: int)
    requires History(states, events) && OverlapIn(states, events, r, m, c) && NoOverlapBefore(states, events, c)
    ensures StaleIn(states, events, c)
  {
    CountGrows(states, events, r, m, c);
    CommitAdds(states, events, m, c);
    CountGrows(states, events, m + 1, c, c);
    var read := PendingWasRead(states, events, c, events[c].request);
    ReadsOnce(states, events, read, r);
  }

  lemma {:induction false} OverlapMakesStale(states: seq<State>, events: seq<Event>, r: int, m: int, c: int)
    requires History(states, events) && OverlapIn(states, events, r, m, c)
    ensures exists d :: StaleIn(states, events, d)
    decreases c
  {
    if NoOverlapBefore(states, events, c) {
      FirstOverlapIsStale(states, events, r, m, c);
    } else {
      var r', m', d :| d < c && OverlapIn(states, events, r', m', d);
      OverlapMakesStale(states, events, r', m', d);
    }
  }

  // ----- Runs -----

  function Trail(start: State, events: seq<Event>): (states: seq<State>)
    ensures |states| == |events| + 1
    ensures forall k :: 0 <= k <= |events| ==> states[k] == Run(start, events[..k])
  {
    seq(|events| + 1, k requires 0 <= k <= |events| => Run(start, events[..k]))
  }

  lemma TrailStep(limits: Limits, gate: Gate, events: seq<Event>, k: nat)
    requires AllBounded(events, limits) && k < |events|
    ensures StepFacts(Run(Prepared(limits, gate), events[..k]), events[k], Run(Prepared(limits, gate), events[..k + 1]))
  {
    assert events[..k + 1][..k] == events[..k];
    EveryRunIsAccounted(limits, gate, events[..k]);
    StepIsFact(Run(Prepared(limits, gate), events[..k]), events[k]);
  }

  lemma TrailIsHistory(limits: Limits, gate: Gate, events: seq<Event>)
    requires AllBounded(events, limits)
    ensures History(Trail(Prepared(limits, gate), events), events)
  {
    var states := Trail(Prepared(limits, gate), events);
    assert events[..0] == [];
    forall k | 0 <= k < |events| ensures StepFacts(states[k], events[k], states[k + 1]) {
      TrailStep(limits, gate, events, k);
    }
  }

  lemma OverwritesIsStale(start: State, events: seq<Event>, c: int)
    ensures OverwritesAt(start, events, c) <==> StaleIn(Trail(start, events), events, c)
  {
  }

  lemma OverlapIsInTrail(start: State, events: seq<Event>, r: int, m: int, c: int)
    ensures OverlapAt(start, events, r, m, c) <==> OverlapIn(Trail(start, events), events, r, m, c)
  {
  }

  /** Some commit of a run overwrites another's bytes exactly when the windows of two commits overlap in it. */
  lemma OverwritesIffOverlap(limits: Limits, gate: Gate, events: seq<Event>)
    requires AllBounded(events, limits)
    ensures OverwritesInRun(Prepared(limits, gate), events) <==> CommitsOverlap(Prepared(limits, gate), events)
  {
    var start := Prepared(limits, gate);
    var states := Trail(start, events);
    TrailIsHistory(limits, gate, events);
    if OverwritesInRun(start, events) {
      var c :| OverwritesAt(start, events, c);
      OverwritesIsStale(start, events, c);
      StaleOverlaps(states, events, c);
      var r, m :| OverlapIn(states, events, r, m, c);
      OverlapIsInTrail(start, events, r, m, c);
    }
    if CommitsOverlap(start, events) {
      var r, m, c :| OverlapAt(start, events, r, m, c);
      OverlapIsInTrail(start, events, r, m, c);
      OverlapMakesStale(states, events, r, m, c);
      var d :| StaleIn(states, events, d);
      OverwritesIsStale(start, events, d);
    }
  }

  /**
    * The session's byte count never exceeds the entries' total, and equals it exactly when no request of the run
    * committed between another one's read of the count and that other one's commit.
    */
  lemma TotalExactIffNoOverlap(limits: Limits, gate: Gate, events: seq<Event>)
    requires AllBounded(events, limits)
    ensures TotalNotAbove(Run(Prepared(limits, gate), events))
    ensures TotalExact(Run(Prepared(limits, gate), events)) <==> !CommitsOverlap(Prepared(limits, gate), events)
  {
    TotalExactIffNothingOverwritten(limits, gate, events);
    OverwritesIffOverlap(limits, gate, events);
  }
}
