/** The opaque-token authority that orders one V2 execution as a state machine, and what every history keeps. */
module ExecutionAuthority {
  import opened Numbers

  const MAX_ACTIVE_TRANSPORTS := 4

  datatype Binding = Binding(
    actionId: string, approvalId: string, planHash: string, executionEnvelopeHash: string,
    listenerProfileDigest: string, routeDigest: string, capsuleDigest: string)

  datatype ListenerState = Prepared | Consumed | Closed

  datatype Listener = Listener(binding: Binding, allowedPort: int, digest: string, state: ListenerState)

  datatype Phase = Reserved | Started | IntentRecorded | Armed | Running | Drained | ChildClosedOpen | ChildClosed
      | Terminal

  datatype Transport = Transport(ordinal: int, completed: bool)

  datatype Run = Run(
    binding: Binding, listener: nat, listenerDigest: string, startBy: real, deadline: real, lastNow: real,
    phase: Phase, nextOrdinal: int, responseBytes: int, transports: map<nat, Transport>, activeTransports: int)

  /** Tokens are numbers handed out in order; every number below `issued` has been handed out. */
  datatype Authority = Authority(listeners: map<nat, Listener>, runs: map<nat, Run>, issued: nat)

  const EMPTY := Authority(map[], map[], 0)

  datatype Call =
    | PrepareListener(binding: Binding, port: int)
    | CloseListener(listener: nat)
    | Reserve(binding: Binding, listener: nat, now: real, startBy: real, deadline: real)
    | MarkExecutionStarted(run: nat, now: real)
    | RecordBrokerIntent(run: nat, now: real)
    | CommitBrokerArm(run: nat, now: real)
    | RecordSpawnAttempt(run: nat, now: real)
    | ReserveTransport(run: nat, ordinal: int, now: real)
    | CompleteTransport(run: nat, transport: nat, responseBytes: int, now: real)
    | ObserveChildClose(run: nat, now: real, exitCode: int)
    | ObserveListenerQuiesced(run: nat, listener: nat, now: real)
    | Quiesce(run: nat, now: real)
    | UnknownTerminal(run: nat, now: real)

  datatype Result =
    | Failed
    | Done
    | Token(token: nat)
    | Quiescence(listenerDigest: string, requestCount: int, responseBytes: int)
    | OutcomeUnknown

  /** Which bindings are well formed, and the digest that identifies a listener. */
  datatype Rules = Rules(valid: Binding -> bool, digest: (Binding, int) -> string)

  predicate ValidTime(t: real) {
    0.0 <= t <= MAX_SAFE_INTEGER as real
  }

  predicate SafeInteger(n: int) {
    -MAX_SAFE_INTEGER <= n <= MAX_SAFE_INTEGER
  }

  // ----- One call -----

  predicate RunAccepts(s: Authority, run: nat, now: real) {
    run in s.runs && s.runs[run].phase != Terminal && ValidTime(now)
      && s.runs[run].lastNow <= now < s.runs[run].deadline
  }

  /** A call whose time is accepted moves the run's clock, whether or not the call then fails. */
  function Touched(s: Authority, run: nat, now: real): Authority
    requires run in s.runs
  {
    s.(runs := s.runs[run := s.runs[run].(lastNow := now)])
  }

  function WithRun(s: Authority, run: nat, r: Run): Authority {
    s.(runs := s.runs[run := r])
  }

  function Step(s: Authority, run: nat, now: real, from: Phase, to: Phase, extra: bool): (Authority, Result) {
    if !RunAccepts(s, run, now) then (s, Failed)
    else
      var t := Touched(s, run, now);
      if t.runs[run].phase != from || !extra then (t, Failed)
      else (WithRun(t, run, t.runs[run].(phase := to)), Done)
  }

  function NewListener(s: Authority, b: Binding, port: int, rules: Rules): (Authority, Result) {
    if !rules.valid(b) || port < 1 || port > 65_535 then (s, Failed)
    else
      (s.(listeners := s.listeners[s.issued := Listener(b, port, rules.digest(b, port), Prepared)],
          issued := s.issued + 1),
       Token(s.issued))
  }

  function NewRun(s: Authority, b: Binding, l: nat, now: real, startBy: real, deadline: real,
                  rules: Rules): (Authority, Result) {
    if !rules.valid(b) || l !in s.listeners || s.listeners[l].state != Prepared || s.listeners[l].binding != b
       || !ValidTime(now) || !ValidTime(startBy) || !ValidTime(deadline) || now >= startBy
       || startBy >= deadline then (s, Failed)
    else
      (Authority(s.listeners[l := s.listeners[l].(state := Consumed)],
                 s.runs[s.issued := Run(b, l, s.listeners[l].digest, startBy, deadline, now, Reserved, 0, 0, map[],
                                        0)], s.issued + 1),
       Token(s.issued))
  }

  function NewTransport(s: Authority, run: nat, ordinal: int, now: real): (Authority, Result) {
    if !RunAccepts(s, run, now) then (s, Failed)
    else
      var t := Touched(s, run, now);
      var r := t.runs[run];
      if r.phase != Running || !SafeInteger(ordinal) || ordinal != r.nextOrdinal
        || r.activeTransports >= MAX_ACTIVE_TRANSPORTS then
        (t, Failed)
      else
        (WithRun(t, run, r.(transports := r.transports[s.issued := Transport(ordinal, false)],
                            nextOrdinal := r.nextOrdinal + 1,
                            activeTransports := r.activeTransports + 1)).(issued := s.issued + 1),
         Token(s.issued))
  }

  function Completed(s: Authority, run: nat, transport: nat, bytes: int, now: real): (Authority, Result) {
    if !RunAccepts(s, run, now) then (s, Failed)
    else
      var t := Touched(s, run, now);
      var r := t.runs[run];
      if r.phase != Running || transport !in r.transports || r.transports[transport].completed || !SafeInteger(bytes)
        || bytes < 0
         || r.responseBytes > MAX_SAFE_INTEGER - bytes then (t, Failed)
      else
        (WithRun(t, run, r.(transports := r.transports[transport := r.transports[transport].(completed := true)],
                            activeTransports := r.activeTransports - 1, responseBytes := r.responseBytes + bytes)),
                              Done)
  }

  function ChildClose(s: Authority, run: nat, now: real, exitCode: int): (Authority, Result) {
    if !RunAccepts(s, run, now) then (s, Failed)
    else
      var t := Touched(s, run, now);
      var r := t.runs[run];
      if (r.phase != Running && r.phase != Drained) || r.activeTransports != 0 || exitCode != 0 then (t, Failed)
      else (WithRun(t, run, r.(phase := if r.phase == Drained then ChildClosed else ChildClosedOpen)), Done)
  }

  function ListenerQuiesced(s: Authority, run: nat, l: nat, now: real): (Authority, Result) {
    if !RunAccepts(s, run, now) then (s, Failed)
    else
      var t := Touched(s, run, now);
      var r := t.runs[run];
      if (r.phase != Running && r.phase != ChildClosedOpen) || r.activeTransports != 0 || r.listener != l
         || l !in s.listeners || s.listeners[l].state != Consumed
         || s.listeners[l].binding != r.binding then (t, Failed)
      else (WithRun(t, run, r.(phase := if r.phase == ChildClosedOpen then ChildClosed else Drained)), Done)
  }

  function Quiesced(s: Authority, run: nat, now: real): (Authority, Result) {
    var (t, result) := Step(s, run, now, ChildClosed, Terminal, run in s.runs && s.runs[run].activeTransports == 0);
    if result == Failed then (t, Failed)
    else
      (t, Quiescence(t.runs[run].listenerDigest, t.runs[run].nextOrdinal, t.runs[run].responseBytes))
  }

  function Unknown(s: Authority, run: nat, now: real): (Authority, Result) {
    var (t, result) := Step(s, run, now, Drained, Terminal, run in s.runs && s.runs[run].activeTransports == 0);
    (t, if result == Failed then Failed else OutcomeUnknown)
  }

  function Apply(s: Authority, c: Call, rules: Rules): (Authority, Result) {
    match c
    case PrepareListener(b, port) => NewListener(s, b, port, rules)
    case CloseListener(l) =>
      if l !in s.listeners || s.listeners[l].state != Prepared then (s, Failed)
      else (s.(listeners := s.listeners[l := s.listeners[l].(state := Closed)]), Done)
    case Reserve(b, l, now, startBy, deadline) => NewRun(s, b, l, now, startBy, deadline, rules)
    case MarkExecutionStarted(run, now) =>
      Step(s, run, now, Reserved, Started, run in s.runs && now < s.runs[run].startBy)
    case RecordBrokerIntent(run, now) => Step(s, run, now, Started, IntentRecorded, true)
    case CommitBrokerArm(run, now) => Step(s, run, now, IntentRecorded, Armed, true)
    case RecordSpawnAttempt(run, now) => Step(s, run, now, Armed, Running, true)
    case ReserveTransport(run, ordinal, now) => NewTransport(s, run, ordinal, now)
    case CompleteTransport(run, transport, bytes, now) => Completed(s, run, transport, bytes, now)
    case ObserveChildClose(run, now, exitCode) => ChildClose(s, run, now, exitCode)
    case ObserveListenerQuiesced(run, l, now) => ListenerQuiesced(s, run, l, now)
    case Quiesce(run, now) => Quiesced(s, run, now)
    case UnknownTerminal(run, now) => Unknown(s, run, now)
  }

  // ----- Histories -----

  datatype Entry = Entry(call: Call, result: Result)

  /** The state and the answers after a sequence of calls. */
  function After(calls: seq<Call>, rules: Rules): (Authority, seq<Entry>) {
    if calls == [] then (EMPTY, [])
    else
      var (s, history) := After(calls[..|calls| - 1], rules);
      var c := calls[|calls| - 1];
      var (t, result) := Apply(s, c, rules);
      (t, history + [Entry(c, result)])
  }

  predicate Issues(e: Entry, run: nat) {
    e.call.ReserveTransport? && e.call.run == run && e.result.Token?
  }

  predicate Completes(e: Entry, run: nat) {
    e.call.CompleteTransport? && e.call.run == run && e.result == Done
  }

  predicate Ends(e: Entry, run: nat) {
    (e.call.Quiesce? || e.call.UnknownTerminal?) && e.call.run == run && e.result != Failed
  }

  predicate Serves(e: Entry, listener: nat) {
    e.call.Reserve? && e.call.listener == listener && e.result.Token?
  }

  /** The ordinals of the transports issued to a run, in order. */
  function Ordinals(history: seq<Entry>, run: nat): seq<int> {
    if history == [] then []
    else
      var e := history[|history| - 1];
      Ordinals(history[..|history| - 1], run) + if Issues(e, run) then [e.call.ordinal] else []
  }

  function CompletedCount(history: seq<Entry>, run: nat): nat {
    if history == [] then 0
    else CompletedCount(history[..|history| - 1], run) + if Completes(history[|history| - 1], run) then 1 else 0
  }

  /** The response bytes of the transports completed for a run. */
  function CompletedBytes(history: seq<Entry>, run: nat): int {
    if history == [] then 0
    else
      var e := history[|history| - 1];
      CompletedBytes(history[..|history| - 1], run) + if Completes(e, run) then e.call.responseBytes else 0
  }

  function EndCount(history: seq<Entry>, run: nat): nat {
    if history == [] then 0
    else EndCount(history[..|history| - 1], run) + if Ends(history[|history| - 1], run) then 1 else 0
  }

  function ServeCount(history: seq<Entry>, listener: nat): nat {
    if history == [] then 0
    else ServeCount(history[..|history| - 1], listener) + if Serves(history[|history| - 1], listener) then 1 else 0
  }

  function Upto(n: nat): seq<int> {
    seq(n, i => i)
  }

  // ----- The invariant -----

  function OpenTransports(r: Run): set<nat> {
    set t | t in r.transports && !r.transports[t].completed
  }

  ghost predicate RunCounts(r: Run, ordinals: seq<int>, completed: nat, bytes: int, ends: nat) {
    && r.nextOrdinal >= 0 && ordinals == Upto(r.nextOrdinal)
    && r.activeTransports == |OpenTransports(r)| == r.nextOrdinal - completed
    && r.activeTransports <= MAX_ACTIVE_TRANSPORTS
    && r.responseBytes == bytes
    && (r.phase in {Drained, ChildClosedOpen, ChildClosed, Terminal} ==> r.activeTransports == 0)
    && ends == (if r.phase == Terminal then 1 else 0)
  }

  ghost predicate RunOk(s: Authority, h: seq<Entry>, run: nat) {
    if run in s.runs then
      && run < s.issued && (forall t :: t in s.runs[run].transports ==> t < s.issued)
      && RunCounts(s.runs[run], Ordinals(h, run), CompletedCount(h, run), CompletedBytes(h, run), EndCount(h, run))
    else Ordinals(h, run) == [] && CompletedCount(h, run) == 0 && CompletedBytes(h, run) == 0 && EndCount(h, run) == 0
  }

  ghost predicate ListenerOk(s: Authority, h: seq<Entry>, l: nat) {
    && (l in s.listeners ==> l < s.issued)
    && ServeCount(h, l) == if l in s.listeners && s.listeners[l].state == Consumed then 1 else 0
  }

  ghost predicate Inv(s: Authority, h: seq<Entry>) {
    (forall run: nat :: RunOk(s, h, run)) && (forall l: nat :: ListenerOk(s, h, l))
  }

  lemma AppendCounts(h: seq<Entry>, e: Entry, x: nat)
    ensures var g := h + [e];
            && Ordinals(g, x) == Ordinals(h, x) + (if Issues(e, x) then [e.call.ordinal] else [])
            && CompletedCount(g, x) == CompletedCount(h, x) + (if Completes(e, x) then 1 else 0)
            && CompletedBytes(g, x) == CompletedBytes(h, x) + (if Completes(e, x) then e.call.responseBytes else 0)
            && EndCount(g, x) == EndCount(h, x) + (if Ends(e, x) then 1 else 0)
            && ServeCount(g, x) == ServeCount(h, x) + (if Serves(e, x) then 1 else 0)
  {
    assert (h + [e])[..|h|] == h;
  }

  // ----- Each call keeps the invariant -----

  lemma IssueKeeps(r: Run, token: nat, bound: nat, ordinals: seq<int>, completed: nat, bytes: int, ends: nat)
    requires RunCounts(r, ordinals, completed, bytes, ends) && token !in r.transports
    requires r.phase == Running && r.activeTransports < MAX_ACTIVE_TRANSPORTS
    ensures RunCounts(r.(transports := r.transports[token := Transport(r.nextOrdinal, false)],
                         nextOrdinal := r.nextOrdinal + 1,
                         activeTransports := r.activeTransports + 1),
                      ordinals + [r.nextOrdinal], completed, bytes, ends)
  {
    var t := r.(transports := r.transports[token := Transport(r.nextOrdinal, false)]);
    assert OpenTransports(t) == OpenTransports(r) + {token};
    assert Upto(r.nextOrdinal + 1) == Upto(r.nextOrdinal) + [r.nextOrdinal];
  }

  lemma CompleteKeeps(r: Run, token: nat, size: int, ordinals: seq<int>, completed: nat, bytes: int, ends: nat)
    requires RunCounts(r, ordinals, completed, bytes, ends) && r.phase == Running
    requires token in r.transports && !r.transports[token].completed
    ensures RunCounts(r.(transports := r.transports[token := r.transports[token].(completed := true)],
                         activeTransports := r.activeTransports - 1, responseBytes := r.responseBytes + size),
                      ordinals, completed + 1, bytes + size, ends)
  {
    var t := r.(transports := r.transports[token := r.transports[token].(completed := true)]);
    assert token in OpenTransports(r);
    assert OpenTransports(t) == OpenTransports(r) - {token};
  }

  predicate OfRun(c: Call) {
    !c.PrepareListener? && !c.CloseListener? && !c.Reserve?
  }

  lemma TransportCallKeepsRun(s: Authority, h: seq<Entry>, c: Call, rules: Rules)
    requires RunOk(s, h, if OfRun(c) then c.run else 0) && (c.ReserveTransport? || c.CompleteTransport?)
    ensures var (t, result) := Apply(s, c, rules); RunOk(t, h + [Entry(c, result)], c.run)
  {
    var e := Entry(c, Apply(s, c, rules).1);
    AppendCounts(h, e, c.run);
    if RunAccepts(s, c.run, c.now) {
      var r := s.runs[c.run].(lastNow := c.now);
      assert OpenTransports(r) == OpenTransports(s.runs[c.run]);
      if Issues(e, c.run) {
        IssueKeeps(r, s.issued, s.issued, Ordinals(h, c.run), CompletedCount(h, c.run), CompletedBytes(h, c.run),
                   EndCount(h, c.run));
      } else if Completes(e, c.run) {
        CompleteKeeps(r, c.transport, c.responseBytes, Ordinals(h, c.run), CompletedCount(h, c.run),
                      CompletedBytes(h, c.run), EndCount(h, c.run));
      }
    }
  }

  /** A call that moves the run's phase, if anything, leaves its counts as they are. */
  lemma PhaseCallKeepsRun(s: Authority, h: seq<Entry>, c: Call, rules: Rules)
    requires OfRun(c) && RunOk(s, h, c.run)
    requires !c.ReserveTransport? && !c.CompleteTransport? && !c.Quiesce? && !c.UnknownTerminal?
    ensures var (t, result) := Apply(s, c, rules); RunOk(t, h + [Entry(c, result)], c.run)
  {
    var (t, result) := Apply(s, c, rules);
    AppendCounts(h, Entry(c, result), c.run);
    if c.run in s.runs {
      assert OpenTransports(t.runs[c.run]) == OpenTransports(s.runs[c.run]);
    }
  }

  lemma EndCallKeepsRun(s: Authority, h: seq<Entry>, c: Call, rules: Rules)
    requires OfRun(c) && RunOk(s, h, c.run) && (c.Quiesce? || c.UnknownTerminal?)
    ensures var (t, result) := Apply(s, c, rules); RunOk(t, h + [Entry(c, result)], c.run)
  {
    var (t, result) := Apply(s, c, rules);
    AppendCounts(h, Entry(c, result), c.run);
    if c.run in s.runs {
      assert OpenTransports(t.runs[c.run]) == OpenTransports(s.runs[c.run]);
    }
  }

  lemma RunCallKeepsRun(s: Authority, h: seq<Entry>, c: Call, rules: Rules)
    requires Inv(s, h) && OfRun(c)
    ensures var (t, result) := Apply(s, c, rules); RunOk(t, h + [Entry(c, result)], c.run)
  {
    assert RunOk(s, h, c.run);
    if c.ReserveTransport? || c.CompleteTransport? {
      TransportCallKeepsRun(s, h, c, rules);
    } else if c.Quiesce? || c.UnknownTerminal? {
      EndCallKeepsRun(s, h, c, rules);
    } else {
      PhaseCallKeepsRun(s, h, c, rules);
    }
  }

  lemma RunCallLeavesOthers(s: Authority, c: Call, rules: Rules)
    requires OfRun(c)
    ensures var (t, result) := Apply(s, c, rules);
            && t.listeners == s.listeners && s.issued <= t.issued
            && (forall x: nat :: x != c.run ==>
               (x in t.runs <==> x in s.runs) && (x in s.runs ==> t.runs[x] == s.runs[x]))
  {
  }

  lemma RunCallKeeps(s: Authority, h: seq<Entry>, c: Call, rules: Rules)
    requires Inv(s, h) && OfRun(c)
    ensures var (t, result) := Apply(s, c, rules); Inv(t, h + [Entry(c, result)])
  {
    var (t, result) := Apply(s, c, rules);
    var e := Entry(c, result);
    RunCallLeavesOthers(s, c, rules);
    RunCallKeepsRun(s, h, c, rules);
    forall run: nat ensures RunOk(t, h + [e], run) {
      AppendCounts(h, e, run);
      assert RunOk(s, h, run);
    }
    forall l: nat ensures ListenerOk(t, h + [e], l) {
      AppendCounts(h, e, l);
      assert ListenerOk(s, h, l);
    }
  }

  lemma ListenerCallKeeps(s: Authority, h: seq<Entry>, c: Call, rules: Rules)
    requires Inv(s, h) && !OfRun(c)
    ensures var (t, result) := Apply(s, c, rules); Inv(t, h + [Entry(c, result)])
  {
    var (t, result) := Apply(s, c, rules);
    var e := Entry(c, result);
    assert RunOk(s, h, s.issued) && ListenerOk(s, h, s.issued);
    forall run: nat ensures RunOk(t, h + [e], run) {
      AppendCounts(h, e, run);
      assert RunOk(s, h, run);
      if run in t.runs && run !in s.runs {
        assert OpenTransports(t.runs[run]) == {};
        assert Upto(0) == [];
      }
    }
    forall l: nat ensures ListenerOk(t, h + [e], l) {
      AppendCounts(h, e, l);
      assert ListenerOk(s, h, l);
    }
  }

  lemma {:induction false} AfterKeeps(calls: seq<Call>, rules: Rules)
    ensures var (s, h) := After(calls, rules); Inv(s, h)
    decreases |calls|
  {
    if calls != [] {
      var front, c := calls[..|calls| - 1], calls[|calls| - 1];
      AfterKeeps(front, rules);
      var (s, h) := After(front, rules);
      CallKeeps(s, h, c, rules);
    }
  }

  lemma CallKeeps(s: Authority, h: seq<Entry>, c: Call, rules: Rules)
    requires Inv(s, h)
    ensures var (t, result) := Apply(s, c, rules); Inv(t, h + [Entry(c, result)])
  {
    if OfRun(c) {
      RunCallKeeps(s, h, c, rules);
    } else {
      ListenerCallKeeps(s, h, c, rules);
    }
  }

  // ----- Main results -----

  ghost predicate RunSafety(h: seq<Entry>, run: nat) {
    && (exists n: nat :: Ordinals(h, run) == Upto(n))
    && 0 <= |Ordinals(h, run)| - CompletedCount(h, run) <= MAX_ACTIVE_TRANSPORTS
    && EndCount(h, run) <= 1
  }

  ghost predicate HistorySafety(s: Authority, h: seq<Entry>) {
    && (forall run: nat :: RunSafety(h, run))
    && (forall run :: run in s.runs ==> s.runs[run].activeTransports == |Ordinals(h, run)| - CompletedCount(h, run))
    && (forall l: nat :: ServeCount(h, l) <= 1)
  }

  lemma InvIsSafe(s: Authority, h: seq<Entry>)
    requires Inv(s, h)
    ensures HistorySafety(s, h)
  {
    forall run: nat ensures RunSafety(h, run) {
      assert RunOk(s, h, run);
      assert Upto(0) == [];
      assert run in s.runs ==> Ordinals(h, run) == Upto(s.runs[run].nextOrdinal);
      assert run !in s.runs ==> Ordinals(h, run) == Upto(0);
    }
    forall run | run in s.runs ensures s.runs[run].activeTransports == |Ordinals(h, run)| - CompletedCount(h, run) {
      assert RunOk(s, h, run);
    }
    forall l: nat ensures ServeCount(h, l) <= 1 {
      assert ListenerOk(s, h, l);
    }
  }

  /**
    * After any sequence of calls: a run's transports are numbered from zero without gaps, those issued and not yet
    * completed are the active ones and at most four, a run has ended at most once, and a listener has served at most
    * one run.
    */
  lemma EveryHistoryIsSafe(calls: seq<Call>, rules: Rules)
    ensures var (s, h) := After(calls, rules); HistorySafety(s, h)
  {
    AfterKeeps(calls, rules);
    InvIsSafe(After(calls, rules).0, After(calls, rules).1);
  }

  /** A quiescence report counts exactly the transports issued, all of them completed, and the sum of their bytes. */
  lemma QuiescenceReportsExactly(calls: seq<Call>, run: nat, now: real, rules: Rules)
    ensures var (s, h) := After(calls, rules);
            var (t, result) := Apply(s, Quiesce(run, now), rules);
            result.Quiescence? ==>
              && result.requestCount == |Ordinals(h, run)| == CompletedCount(h, run)
              && result.responseBytes == CompletedBytes(h, run)
  {
    AfterKeeps(calls, rules);
    var (s, h) := After(calls, rules);
    assert RunOk(s, h, run);
  }

  lemma LastWriteStays(runs: map<nat, Run>, run: nat, r: Run, q: Run)
    ensures runs[run := r][run := q] == runs[run := q]
  {
  }

  /** The two observations as moves of the one run. */
  lemma CloseMoves(s: Authority, run: nat, now: real, exitCode: int)
    requires RunAccepts(s, run, now)
    ensures var r := s.runs[run];
            var ok := r.phase in {Running, Drained} && r.activeTransports == 0 && exitCode == 0;
            ChildClose(s, run, now, exitCode) ==
            (WithRun(s, run, r.(lastNow := now,
                                phase := if !ok then r.phase else if r.phase == Drained then ChildClosed
                                  else ChildClosedOpen)),
             if ok then Done else Failed)
  {
    var r := s.runs[run].(lastNow := now);
    LastWriteStays(s.runs, run, r, r.(phase := if r.phase == Drained then ChildClosed else ChildClosedOpen));
  }

  lemma QuietMoves(s: Authority, run: nat, l: nat, now: real)
    requires RunAccepts(s, run, now)
    ensures var r := s.runs[run];
            var ok := && r.phase in {Running, ChildClosedOpen} && r.activeTransports == 0 && r.listener == l
                      && l in s.listeners && s.listeners[l].state == Consumed && s.listeners[l].binding == r.binding;
            ListenerQuiesced(s, run, l, now) ==
            (WithRun(s, run, r.(lastNow := now,
                                phase := if !ok then r.phase else if r.phase == ChildClosedOpen then ChildClosed
                                  else Drained)),
             if ok then Done else Failed)
  {
    var r := s.runs[run].(lastNow := now);
    LastWriteStays(s.runs, run, r, r.(phase := if r.phase == ChildClosedOpen then ChildClosed else Drained));
  }

  /**
    * Seeing the child close, with whatever exit code, and the listener go quiet: either order leaves the same state,
    * and each observation succeeds in one order exactly when it does in the other, whatever the run's phase.
    */
  lemma {:induction false} CloseAndQuiesceCommute(s: Authority, run: nat, l: nat, exitCode: int, first: real,
                                                  second: real, rules: Rules)
    requires first <= second && RunAccepts(s, run, first) && RunAccepts(s, run, second)
    ensures var (s1, r1) := Apply(s, ObserveChildClose(run, first, exitCode), rules);
            var (s2, r2) := Apply(s1, ObserveListenerQuiesced(run, l, second), rules);
            var (t1, q1) := Apply(s, ObserveListenerQuiesced(run, l, first), rules);
            var (t2, q2) := Apply(t1, ObserveChildClose(run, second, exitCode), rules);
            && s2 == t2 && r1 == q2 && r2 == q1
            && (s.runs[run].phase == Running && r1 == Done && r2 == Done ==> s2.runs[run].phase == ChildClosed)
  {
    var (s1, r1) := Apply(s, ObserveChildClose(run, first, exitCode), rules);
    var (t1, q1) := Apply(s, ObserveListenerQuiesced(run, l, first), rules);
    CloseMoves(s, run, first, exitCode);
    QuietMoves(s, run, l, first);
    QuietMoves(s1, run, l, second);
    CloseMoves(t1, run, second, exitCode);
  }
}
