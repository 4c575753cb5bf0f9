/** When each call of an execution succeeds, told by the calls answered before it alone. */
module ExecutionOrder {
  import opened Numbers
  import opened Options
  import opened ExecutionAuthority

  // ----- What a history says -----

  /** The steps a run takes, each at most once. */
  datatype Milestone = Reserving | Starting | Intending | Arming | Spawning | Closing | Quieting | Ending

  /** What the reservation of a run fixed. */
  datatype Terms = Terms(binding: Binding, listener: nat, startBy: real, deadline: real)

  predicate Reserves(e: Entry, run: nat) {
    e.call.Reserve? && e.result == Token(run)
  }

  /** A call on this run that was answered with success. */
  predicate Succeeds(e: Entry, run: nat) {
    OfRun(e.call) && e.call.run == run && e.result != Failed
  }

  function MilestoneOf(e: Entry, run: nat): seq<Milestone> {
    if Reserves(e, run) then [Reserving]
    else if !Succeeds(e, run) then []
    else match e.call
         case MarkExecutionStarted(_, _) => [Starting]
         case RecordBrokerIntent(_, _) => [Intending]
         case CommitBrokerArm(_, _) => [Arming]
         case RecordSpawnAttempt(_, _) => [Spawning]
         case ObserveChildClose(_, _, _) => [Closing]
         case ObserveListenerQuiesced(_, _, _) => [Quieting]
         case Quiesce(_, _) => [Ending]
         case UnknownTerminal(_, _) => [Ending]
         case _ => []
  }

  /** The successful steps of a run so far, in order. */
  function Progress(h: seq<Entry>, run: nat): seq<Milestone> {
    if h == [] then [] else Progress(h[..|h| - 1], run) + MilestoneOf(h[|h| - 1], run)
  }

  function TermsOf(h: seq<Entry>, run: nat): Option<Terms> {
    if h == [] then None
    else
      var e := h[|h| - 1];
      if Reserves(e, run) then Some(Terms(e.call.binding, e.call.listener, e.call.startBy, e.call.deadline))
      else TermsOf(h[..|h| - 1], run)
  }

  /** The time of the last call on the run that came in time, whether or not it succeeded. */
  function LastTime(h: seq<Entry>, run: nat): real
    decreases |h|, 0
  {
    if h == [] then 0.0
    else
      var front, e := h[..|h| - 1], h[|h| - 1];
      if Reserves(e, run) || (OfRun(e.call) && e.call.run == run && InTime(front, run, e.call.now)) then e.call.now
      else LastTime(front, run)
  }

  /** A time for a run that has begun and not ended: not before the last one, and before the deadline. */
  predicate InTime(h: seq<Entry>, run: nat, now: real)
    decreases |h|, 1
  {
    && TermsOf(h, run).Some? && Ending !in Progress(h, run)
    && ValidTime(now) && LastTime(h, run) <= now < TermsOf(h, run).value.deadline
  }

  /** Whether a transport handed out for the run is completed; nothing when it is none of its transports. */
  function TransportIn(h: seq<Entry>, run: nat, transport: nat): Option<bool> {
    if h == [] then None
    else
      var e := h[|h| - 1];
      if Issues(e, run) && e.result == Token(transport) then Some(false)
      else if Completes(e, run) && e.call.transport == transport then Some(true)
      else TransportIn(h[..|h| - 1], run, transport)
  }

  /** The binding and port a listener was prepared with. */
  function PreparedWith(h: seq<Entry>, l: nat): Option<(Binding, int)> {
    if h == [] then None
    else
      var e := h[|h| - 1];
      if e.call.PrepareListener? && e.result == Token(l) then Some((e.call.binding, e.call.port))
      else PreparedWith(h[..|h| - 1], l)
  }

  /** A listener is closed once, or taken by one reservation. */
  predicate Gone(h: seq<Entry>, l: nat) {
    h != [] &&
    var e := h[|h| - 1];
    || (e.call.CloseListener? && e.call.listener == l && e.result != Failed)
    || (e.call.Reserve? && e.call.listener == l && e.result != Failed)
    || Gone(h[..|h| - 1], l)
  }

  predicate HandedOut(h: seq<Entry>, token: nat) {
    h != [] && (h[|h| - 1].result == Token(token) || HandedOut(h[..|h| - 1], token))
  }

  predicate AllCompleted(h: seq<Entry>, run: nat) {
    CompletedCount(h, run) == |Ordinals(h, run)|
  }

  // ----- When a call succeeds -----

  const SPAWNED: seq<Milestone> := [Reserving, Starting, Intending, Arming, Spawning]

  predicate Free(h: seq<Entry>, l: nat) {
    PreparedWith(h, l).Some? && !Gone(h, l)
  }

  /** The run is at this point, and the call comes in time. */
  predicate Reached(h: seq<Entry>, run: nat, now: real, progress: seq<Milestone>) {
    InTime(h, run, now) && Progress(h, run) == progress
  }

  /** After this history the call has to succeed. */
  predicate Allowed(h: seq<Entry>, c: Call, rules: Rules) {
    match c
    case PrepareListener(b, port) => rules.valid(b) && 1 <= port <= 65_535
    case CloseListener(l) => Free(h, l)
    case Reserve(b, l, now, startBy, deadline) =>
      && rules.valid(b) && Free(h, l) && PreparedWith(h, l).value.0 == b
      && ValidTime(now) && ValidTime(startBy) && ValidTime(deadline) && now < startBy < deadline
    case MarkExecutionStarted(run, now) =>
      Reached(h, run, now, [Reserving]) && now < TermsOf(h, run).value.startBy
    case RecordBrokerIntent(run, now) => Reached(h, run, now, [Reserving, Starting])
    case CommitBrokerArm(run, now) => Reached(h, run, now, [Reserving, Starting, Intending])
    case RecordSpawnAttempt(run, now) => Reached(h, run, now, [Reserving, Starting, Intending, Arming])
    case ReserveTransport(run, ordinal, now) =>
      && Reached(h, run, now, SPAWNED) && ordinal == |Ordinals(h, run)| <= MAX_SAFE_INTEGER
      && |Ordinals(h, run)| - CompletedCount(h, run) < 4
    case CompleteTransport(run, transport, bytes, now) =>
      && Reached(h, run, now, SPAWNED) && TransportIn(h, run, transport) == Some(false)
      && 0 <= bytes <= MAX_SAFE_INTEGER && CompletedBytes(h, run) + bytes <= MAX_SAFE_INTEGER
    case ObserveChildClose(run, now, exitCode) =>
      && (Reached(h, run, now, SPAWNED) || Reached(h, run, now, SPAWNED + [Quieting]))
      && AllCompleted(h, run) && exitCode == 0
    case ObserveListenerQuiesced(run, l, now) =>
      && (Reached(h, run, now, SPAWNED) || Reached(h, run, now, SPAWNED + [Closing]))
      && AllCompleted(h, run) && l == TermsOf(h, run).value.listener
    case Quiesce(run, now) =>
      Reached(h, run, now, SPAWNED + [Closing, Quieting]) || Reached(h, run, now, SPAWNED + [Quieting, Closing])
    case UnknownTerminal(run, now) => Reached(h, run, now, SPAWNED + [Quieting])
  }

  /** What a successful call answers: a token never handed out before, a report on the run, or plain success. */
  predicate Answers(h: seq<Entry>, c: Call, result: Result, rules: Rules) {
    match c
    case PrepareListener(_, _) => result.Token? && !HandedOut(h, result.token)
    case Reserve(_, _, _, _, _) => result.Token? && !HandedOut(h, result.token)
    case ReserveTransport(_, _, _) => result.Token? && !HandedOut(h, result.token)
    case Quiesce(run, _) =>
      && TermsOf(h, run).Some? && PreparedWith(h, TermsOf(h, run).value.listener).Some?
      && var (b, port) := PreparedWith(h, TermsOf(h, run).value.listener).value;
         result == Quiescence(rules.digest(b, port), |Ordinals(h, run)|, CompletedBytes(h, run))
    case UnknownTerminal(_, _) => result == OutcomeUnknown
    case _ => result == Done
  }

  /** The call succeeds exactly when it has to, with the answer it has to give. */
  predicate Ruled(h: seq<Entry>, e: Entry, rules: Rules) {
    if Allowed(h, e.call, rules) then Answers(h, e.call, e.result, rules) else e.result == Failed
  }

  ghost predicate InOrder(h: seq<Entry>, rules: Rules) {
    forall k :: 0 <= k < |h| ==> Ruled(h[..k], h[k], rules)
  }

  // ----- The state tells its history -----

  predicate PhaseFits(phase: Phase, progress: seq<Milestone>) {
    match phase
    case Reserved => progress == [Reserving]
    case Started => progress == [Reserving, Starting]
    case IntentRecorded => progress == [Reserving, Starting, Intending]
    case Armed => progress == [Reserving, Starting, Intending, Arming]
    case Running => progress == SPAWNED
    case Drained => progress == SPAWNED + [Quieting]
    case ChildClosedOpen => progress == SPAWNED + [Closing]
    case ChildClosed => progress == SPAWNED + [Closing, Quieting] || progress == SPAWNED + [Quieting, Closing]
    case Terminal => |progress| > 0 && progress[|progress| - 1] == Ending
  }

  ghost predicate TransportsFit(r: Run, h: seq<Entry>, run: nat) {
    forall t: nat ::
      TransportIn(h, run, t) == if t in r.transports then Some(r.transports[t].completed) else None
  }

  ghost predicate RunFits(r: Run, h: seq<Entry>, run: nat) {
    && TermsOf(h, run) == Some(Terms(r.binding, r.listener, r.startBy, r.deadline))
    && LastTime(h, run) == r.lastNow && PhaseFits(r.phase, Progress(h, run)) && TransportsFit(r, h, run)
  }

  ghost predicate NoRun(h: seq<Entry>, run: nat) {
    TermsOf(h, run).None? && Progress(h, run) == [] && forall t: nat :: TransportIn(h, run, t).None?
  }

  ghost predicate RunTold(s: Authority, h: seq<Entry>, run: nat) {
    if run in s.runs then
      && RunFits(s.runs[run], h, run) && s.runs[run].listener in s.listeners
      && var l := s.listeners[s.runs[run].listener];
         l.state == Consumed && l.binding == s.runs[run].binding && l.digest == s.runs[run].listenerDigest
    else NoRun(h, run)
  }

  predicate ListenerTold(s: Authority, h: seq<Entry>, l: nat, rules: Rules) {
    if l in s.listeners then
      && PreparedWith(h, l) == Some((s.listeners[l].binding, s.listeners[l].allowedPort))
      && s.listeners[l].digest == rules.digest(s.listeners[l].binding, s.listeners[l].allowedPort)
      && (Gone(h, l) <==> s.listeners[l].state != Prepared)
    else PreparedWith(h, l).None? && !Gone(h, l)
  }

  ghost predicate Told(s: Authority, h: seq<Entry>, rules: Rules) {
    && (forall run: nat :: RunTold(s, h, run)) && (forall l: nat :: ListenerTold(s, h, l, rules))
    && forall t: nat :: HandedOut(h, t) ==> t < s.issued
  }

  lemma AppendTells(h: seq<Entry>, e: Entry, x: nat)
    ensures var g := h + [e];
            && Progress(g, x) == Progress(h, x) + MilestoneOf(e, x)
            && TermsOf(g, x) == (if Reserves(e, x)
                                 then Some(Terms(e.call.binding, e.call.listener, e.call.startBy, e.call.deadline))
                                 else TermsOf(h, x))
            && LastTime(g, x) == (if Reserves(e, x) || (OfRun(e.call) && e.call.run == x && InTime(h, x, e.call.now))
                                  then e.call.now else LastTime(h, x))
            && PreparedWith(g, x) == (if e.call.PrepareListener? && e.result == Token(x)
                                      then Some((e.call.binding, e.call.port)) else PreparedWith(h, x))
            && Gone(g, x) == (((e.call.CloseListener? || e.call.Reserve?) && e.call.listener == x && e.result != Failed)
                              || Gone(h, x))
            && HandedOut(g, x) == (e.result == Token(x) || HandedOut(h, x))
  {
    assert (h + [e])[..|h|] == h;
  }

  lemma AppendTransport(h: seq<Entry>, e: Entry, x: nat, t: nat)
    ensures TransportIn(h + [e], x, t) == if Issues(e, x) && e.result == Token(t) then Some(false)
                                          else if Completes(e, x) && e.call.transport == t then Some(true)
                                          else TransportIn(h, x, t)
  {
    assert (h + [e])[..|h|] == h;
  }

  // ----- Each call is ruled by the history, and told by it afterwards -----

  lemma PhaseIs(phase: Phase, progress: seq<Milestone>)
    requires PhaseFits(phase, progress)
    ensures phase == Reserved <==> progress == [Reserving]
    ensures phase == Started <==> progress == [Reserving, Starting]
    ensures phase == IntentRecorded <==> progress == [Reserving, Starting, Intending]
    ensures phase == Armed <==> progress == [Reserving, Starting, Intending, Arming]
    ensures phase == Running <==> progress == SPAWNED
    ensures phase == Drained <==> progress == SPAWNED + [Quieting]
    ensures phase == ChildClosedOpen <==> progress == SPAWNED + [Closing]
    ensures phase == ChildClosed <==>
            progress == SPAWNED + [Closing, Quieting] || progress == SPAWNED + [Quieting, Closing]
    ensures phase == Terminal <==> Ending in progress
  {
    var n := |progress| - 1;
    assert (SPAWNED + [Quieting])[5] == Quieting && (SPAWNED + [Closing])[5] == Closing;
    assert (SPAWNED + [Closing, Quieting])[5] == Closing && (SPAWNED + [Quieting, Closing])[5] == Quieting;
    match phase
    case Terminal => assert progress[n] == Ending;
    case Drained => assert Ending !in SPAWNED + [Quieting];
    case ChildClosedOpen => assert Ending !in SPAWNED + [Closing];
    case ChildClosed => assert Ending !in SPAWNED + [Closing, Quieting] && Ending !in SPAWNED + [Quieting, Closing];
    case _ =>
  }

  /** The times a run accepts are those its history allows. */
  lemma AcceptsIff(s: Authority, h: seq<Entry>, run: nat, now: real)
    requires RunTold(s, h, run)
    ensures InTime(h, run, now) <==> RunAccepts(s, run, now)
  {
    if run in s.runs {
      PhaseIs(s.runs[run].phase, Progress(h, run));
    }
  }

  lemma ReachedIff(s: Authority, h: seq<Entry>, run: nat, now: real)
    requires RunTold(s, h, run)
    ensures run !in s.runs ==> !InTime(h, run, now)
    ensures run in s.runs ==>
              var r := s.runs[run]; var on := RunAccepts(s, run, now);
              && (Reached(h, run, now, [Reserving]) <==> on && r.phase == Reserved)
              && (Reached(h, run, now, [Reserving, Starting]) <==> on && r.phase == Started)
              && (Reached(h, run, now, [Reserving, Starting, Intending]) <==> on && r.phase == IntentRecorded)
              && (Reached(h, run, now, [Reserving, Starting, Intending, Arming]) <==> on && r.phase == Armed)
              && (Reached(h, run, now, SPAWNED) <==> on && r.phase == Running)
              && (Reached(h, run, now, SPAWNED + [Quieting]) <==> on && r.phase == Drained)
              && (Reached(h, run, now, SPAWNED + [Closing]) <==> on && r.phase == ChildClosedOpen)
              && (on && r.phase == ChildClosed <==>
                  Reached(h, run, now, SPAWNED + [Closing, Quieting])
                  || Reached(h, run, now, SPAWNED + [Quieting, Closing]))
  {
    AcceptsIff(s, h, run, now);
    if run in s.runs {
      PhaseIs(s.runs[run].phase, Progress(h, run));
    }
  }

  lemma StepRuled(s: Authority, h: seq<Entry>, c: Call, rules: Rules)
    requires RunTold(s, h, if OfRun(c) then c.run else 0)
    requires c.MarkExecutionStarted? || c.RecordBrokerIntent? || c.CommitBrokerArm? || c.RecordSpawnAttempt?
    ensures Ruled(h, Entry(c, Apply(s, c, rules).1), rules)
  {
    ReachedIff(s, h, c.run, c.now);
  }

  lemma TransportRuled(s: Authority, h: seq<Entry>, c: Call, rules: Rules)
    requires Inv(s, h) && Told(s, h, rules) && (c.ReserveTransport? || c.CompleteTransport?)
    ensures Ruled(h, Entry(c, Apply(s, c, rules).1), rules)
  {
    assert RunOk(s, h, c.run) && RunTold(s, h, c.run);
    ReachedIff(s, h, c.run, c.now);
    if c.run in s.runs && c.CompleteTransport? {
      assert TransportsFit(s.runs[c.run], h, c.run);
    }
  }

  lemma ObservationRuled(s: Authority, h: seq<Entry>, c: Call, rules: Rules)
    requires Inv(s, h) && Told(s, h, rules) && (c.ObserveChildClose? || c.ObserveListenerQuiesced?)
    ensures Ruled(h, Entry(c, Apply(s, c, rules).1), rules)
  {
    assert RunOk(s, h, c.run) && RunTold(s, h, c.run);
    ReachedIff(s, h, c.run, c.now);
  }

  lemma EndRuled(s: Authority, h: seq<Entry>, c: Call, rules: Rules)
    requires Inv(s, h) && Told(s, h, rules) && (c.Quiesce? || c.UnknownTerminal?)
    ensures Ruled(h, Entry(c, Apply(s, c, rules).1), rules)
  {
    assert RunOk(s, h, c.run) && RunTold(s, h, c.run);
    ReachedIff(s, h, c.run, c.now);
    if c.run in s.runs {
      assert ListenerTold(s, h, s.runs[c.run].listener, rules);
    }
  }

  lemma ListenerRuled(s: Authority, h: seq<Entry>, c: Call, rules: Rules)
    requires Told(s, h, rules) && !OfRun(c)
    ensures Ruled(h, Entry(c, Apply(s, c, rules).1), rules)
  {
    if !c.PrepareListener? {
      assert ListenerTold(s, h, c.listener, rules);
    }
  }

  lemma CallRuled(s: Authority, h: seq<Entry>, c: Call, rules: Rules)
    requires Inv(s, h) && Told(s, h, rules)
    ensures Ruled(h, Entry(c, Apply(s, c, rules).1), rules)
  {
    if !OfRun(c) {
      ListenerRuled(s, h, c, rules);
    } else if c.ReserveTransport? || c.CompleteTransport? {
      TransportRuled(s, h, c, rules);
    } else if c.ObserveChildClose? || c.ObserveListenerQuiesced? {
      ObservationRuled(s, h, c, rules);
    } else if c.Quiesce? || c.UnknownTerminal? {
      EndRuled(s, h, c, rules);
    } else {
      assert RunTold(s, h, c.run);
      StepRuled(s, h, c, rules);
    }
  }

  // ----- The history tells the next state -----

  lemma OwnRunTold(s: Authority, h: seq<Entry>, c: Call, rules: Rules)
    requires Told(s, h, rules) && OfRun(c)
    ensures var (t, result) := Apply(s, c, rules); RunTold(t, h + [Entry(c, result)], c.run)
  {
    var (t, result) := Apply(s, c, rules);
    var e := Entry(c, result);
    assert RunTold(s, h, c.run);
    AppendTells(h, e, c.run);
    AcceptsIff(s, h, c.run, c.now);
    if c.run in s.runs {
      PhaseIs(s.runs[c.run].phase, Progress(h, c.run));
      OwnPhaseFits(s, h, c, rules);
    }
    forall x: nat ensures TransportIn(h + [e], c.run, x) ==
      if c.run in t.runs && x in t.runs[c.run].transports then Some(t.runs[c.run].transports[x].completed) else None {
      AppendTransport(h, e, c.run, x);
      if c.run in s.runs {
        assert TransportsFit(s.runs[c.run], h, c.run);
      }
    }
  }

  predicate Advances(c: Call) {
    c.MarkExecutionStarted? || c.RecordBrokerIntent? || c.CommitBrokerArm? || c.RecordSpawnAttempt?
  }

  /** The phase after a call on the run, against the milestones up to it. */
  ghost predicate NextPhaseFits(s: Authority, h: seq<Entry>, c: Call, rules: Rules)
    requires OfRun(c)
  {
    var (t, result) := Apply(s, c, rules);
    c.run in t.runs && PhaseFits(t.runs[c.run].phase, Progress(h, c.run) + MilestoneOf(Entry(c, result), c.run))
  }

  lemma AdvancedFits(s: Authority, h: seq<Entry>, c: Call, rules: Rules)
    requires OfRun(c) && RunTold(s, h, c.run) && c.run in s.runs && Advances(c)
    ensures NextPhaseFits(s, h, c, rules)
  {
    assert Progress(h, c.run) + [] == Progress(h, c.run);
  }

  lemma ObservedFits(s: Authority, h: seq<Entry>, c: Call, rules: Rules)
    requires OfRun(c) && RunTold(s, h, c.run) && c.run in s.runs && (c.ObserveChildClose? || c.ObserveListenerQuiesced?)
    ensures NextPhaseFits(s, h, c, rules)
  {
    assert Progress(h, c.run) + [] == Progress(h, c.run);
    assert SPAWNED + [Quieting] + [Closing] == SPAWNED + [Quieting, Closing];
    assert SPAWNED + [Closing] + [Quieting] == SPAWNED + [Closing, Quieting];
  }

  lemma EndedFits(s: Authority, h: seq<Entry>, c: Call, rules: Rules)
    requires OfRun(c) && RunTold(s, h, c.run) && c.run in s.runs && (c.Quiesce? || c.UnknownTerminal?)
    ensures NextPhaseFits(s, h, c, rules)
  {
    assert Progress(h, c.run) + [] == Progress(h, c.run);
  }

  lemma CarriedFits(s: Authority, h: seq<Entry>, c: Call, rules: Rules)
    requires OfRun(c) && RunTold(s, h, c.run) && c.run in s.runs && (c.ReserveTransport? || c.CompleteTransport?)
    ensures NextPhaseFits(s, h, c, rules)
  {
    assert Progress(h, c.run) + [] == Progress(h, c.run);
  }

  lemma OwnPhaseFits(s: Authority, h: seq<Entry>, c: Call, rules: Rules)
    requires OfRun(c) && RunTold(s, h, c.run) && c.run in s.runs
    ensures NextPhaseFits(s, h, c, rules)
  {
    if Advances(c) {
      AdvancedFits(s, h, c, rules);
    } else if c.ObserveChildClose? || c.ObserveListenerQuiesced? {
      ObservedFits(s, h, c, rules);
    } else if c.Quiesce? || c.UnknownTerminal? {
      EndedFits(s, h, c, rules);
    } else {
      CarriedFits(s, h, c, rules);
    }
  }

  lemma RunCallTold(s: Authority, h: seq<Entry>, c: Call, rules: Rules)
    requires Told(s, h, rules) && OfRun(c)
    ensures var (t, result) := Apply(s, c, rules); Told(t, h + [Entry(c, result)], rules)
  {
    var (t, result) := Apply(s, c, rules);
    var e := Entry(c, result);
    RunCallLeavesOthers(s, c, rules);
    OwnRunTold(s, h, c, rules);
    forall run: nat ensures RunTold(t, h + [e], run) {
      assert RunTold(s, h, run);
      AppendTells(h, e, run);
      if run != c.run {
        forall x: nat ensures TransportIn(h + [e], run, x) == TransportIn(h, run, x) {
          AppendTransport(h, e, run, x);
        }
      }
    }
    forall l: nat ensures ListenerTold(t, h + [e], l, rules) {
      assert ListenerTold(s, h, l, rules);
      AppendTells(h, e, l);
    }
    TokensTold(s, h, c, rules);
  }

  lemma TokensTold(s: Authority, h: seq<Entry>, c: Call, rules: Rules)
    requires Told(s, h, rules)
    ensures var (t, result) := Apply(s, c, rules);
            forall x: nat :: HandedOut(h + [Entry(c, result)], x) ==> x < t.issued
  {
    var (t, result) := Apply(s, c, rules);
    forall x: nat | HandedOut(h + [Entry(c, result)], x) ensures x < t.issued {
      AppendTells(h, Entry(c, result), x);
    }
  }

  lemma RunsStayTold(s: Authority, h: seq<Entry>, c: Call, rules: Rules, run: nat)
    requires RunTold(s, h, run) && RunOk(s, h, run) && ListenerOk(s, h, s.issued) && !OfRun(c)
    ensures var (t, result) := Apply(s, c, rules); RunTold(t, h + [Entry(c, result)], run)
  {
    var (t, result) := Apply(s, c, rules);
    var e := Entry(c, result);
    AppendTells(h, e, run);
    forall x: nat ensures TransportIn(h + [e], run, x) == TransportIn(h, run, x) {
      AppendTransport(h, e, run, x);
    }
  }

  lemma ListenersStayTold(s: Authority, h: seq<Entry>, c: Call, rules: Rules, l: nat)
    requires ListenerTold(s, h, l, rules) && ListenerOk(s, h, l) && !OfRun(c)
    ensures var (t, result) := Apply(s, c, rules); ListenerTold(t, h + [Entry(c, result)], l, rules)
  {
    AppendTells(h, Entry(c, Apply(s, c, rules).1), l);
  }

  lemma ListenerCallTold(s: Authority, h: seq<Entry>, c: Call, rules: Rules)
    requires Inv(s, h) && Told(s, h, rules) && !OfRun(c)
    ensures var (t, result) := Apply(s, c, rules); Told(t, h + [Entry(c, result)], rules)
  {
    var (t, result) := Apply(s, c, rules);
    var e := Entry(c, result);
    forall run: nat ensures RunTold(t, h + [e], run) {
      assert RunTold(s, h, run) && RunOk(s, h, run) && ListenerOk(s, h, s.issued);
      RunsStayTold(s, h, c, rules, run);
    }
    forall l: nat ensures ListenerTold(t, h + [e], l, rules) {
      assert ListenerTold(s, h, l, rules) && ListenerOk(s, h, l);
      ListenersStayTold(s, h, c, rules, l);
    }
    TokensTold(s, h, c, rules);
  }

  lemma CallTold(s: Authority, h: seq<Entry>, c: Call, rules: Rules)
    requires Inv(s, h) && Told(s, h, rules)
    ensures var (t, result) := Apply(s, c, rules); Told(t, h + [Entry(c, result)], rules)
  {
    if OfRun(c) {
      RunCallTold(s, h, c, rules);
    } else {
      ListenerCallTold(s, h, c, rules);
    }
  }

  lemma NothingTold(rules: Rules)
    ensures Told(EMPTY, [], rules)
  {
  }

  /**
    * Every call of every history succeeds exactly when the calls before it allow it, and answers what they say: the
    * steps of a run in their order, in time, its transports one after the other, and its end once all are completed.
    */
  lemma {:induction false} EveryHistoryIsInOrder(calls: seq<Call>, rules: Rules)
    ensures var (s, h) := After(calls, rules); |h| == |calls| && InOrder(h, rules) && Told(s, h, rules)
    decreases |calls|
  {
    if calls == [] {
      NothingTold(rules);
    } else {
      var front, c := calls[..|calls| - 1], calls[|calls| - 1];
      EveryHistoryIsInOrder(front, rules);
      AfterKeeps(front, rules);
      var (s, h) := After(front, rules);
      CallRuled(s, h, c, rules);
      CallTold(s, h, c, rules);
      OneMoreInOrder(h, Entry(c, Apply(s, c, rules).1), rules);
    }
  }

  lemma OneMoreInOrder(h: seq<Entry>, e: Entry, rules: Rules)
    requires InOrder(h, rules) && Ruled(h, e, rules)
    ensures InOrder(h + [e], rules)
  {
    var g := h + [e];
    forall k | 0 <= k < |g| ensures Ruled(g[..k], g[k], rules) {
      assert g[..k] == h[..k];
      assert h[..|h|] == h;
    }
  }
}
