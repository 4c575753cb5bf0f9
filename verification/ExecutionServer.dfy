/** The authority object: each call is answered as the history of its calls demands. */
module ExecutionServer {
  import opened Numbers
  import opened ExecutionAuthority
  import opened ExecutionOrder

  class SyntheticExecutionAuthority {
    const rules: Rules
    var listeners: map<nat, Listener>
    var runs: map<nat, Run>
    var issued: nat
    /** The calls answered so far, with their results. */
    ghost var history: seq<Entry>

    ghost function View(): Authority
      reads this
    {
      Authority(listeners, runs, issued)
    }

    ghost predicate Valid()
      reads this
    {
      Inv(View(), history) && Told(View(), history, rules) && InOrder(history, rules)
    }

    constructor (rules: Rules)
      ensures this.rules == rules && View() == EMPTY && history == []
      ensures Valid()
    {
      this.rules, listeners, runs, issued, history := rules, map[], map[], 0, [];
      new;
      AfterKeeps([], rules);
      NothingTold(rules);
    }

    /** Notes a call that has just been answered; everything the history promises still holds. */
    ghost method Note(before: Authority, c: Call, result: Result)
      requires Inv(before, history) && Told(before, history, rules) && InOrder(history, rules)
      requires (View(), result) == Apply(before, c, rules)
      modifies this`history
      ensures history == old(history) + [Entry(c, result)]
      ensures Valid() && HistorySafety(View(), history) && InOrder(history, rules)
    {
      CallKeeps(before, history, c, rules);
      CallRuled(before, history, c, rules);
      CallTold(before, history, c, rules);
      OneMoreInOrder(history, Entry(c, result), rules);
      history := history + [Entry(c, result)];
      InvIsSafe(View(), history);
    }

    method PrepareListener(b: Binding, port: int) returns (result: Result)
      requires Valid()
      modifies this
      ensures (View(), result) == Apply(old(View()), Call.PrepareListener(b, port), rules)
          && history == old(history) + [Entry(Call.PrepareListener(b, port), result)]
      ensures Valid() && HistorySafety(View(), history) && InOrder(history, rules)
    {
      result := Failed;
      if rules.valid(b) && 1 <= port <= 65_535 {
        listeners := listeners[issued := Listener(b, port, rules.digest(b, port), Prepared)];
        result := Token(issued);
        issued := issued + 1;
      }
      Note(old(View()), Call.PrepareListener(b, port), result);
    }

    method CloseListener(l: nat) returns (result: Result)
      requires Valid()
      modifies this
      ensures (View(), result) == Apply(old(View()), Call.CloseListener(l), rules)
          && history == old(history) + [Entry(Call.CloseListener(l), result)]
      ensures Valid() && HistorySafety(View(), history) && InOrder(history, rules)
    {
      result := Failed;
      if l in listeners && listeners[l].state == Prepared {
        listeners := listeners[l := listeners[l].(state := Closed)];
        result := Done;
      }
      Note(old(View()), Call.CloseListener(l), result);
    }

    /** Consumes the listener before the run exists. */
    method Reserve(b: Binding, l: nat, now: real, startBy: real, deadline: real) returns (result: Result)
      requires Valid()
      modifies this
      ensures (View(), result) == Apply(old(View()), Call.Reserve(b, l, now, startBy, deadline), rules)
          && history == old(history) + [Entry(Call.Reserve(b, l, now, startBy, deadline), result)]
      ensures Valid() && HistorySafety(View(), history) && InOrder(history, rules)
    {
      result := Failed;
      if rules.valid(b) && l in listeners && listeners[l].state == Prepared && listeners[l].binding == b
         && ValidTime(now) && ValidTime(startBy) && ValidTime(deadline) && now < startBy < deadline {
        listeners := listeners[l := listeners[l].(state := Consumed)];
        runs := runs[issued := Run(b, l, listeners[l].digest, startBy, deadline, now, Reserved, 0, 0, map[], 0)];
        result := Token(issued);
        issued := issued + 1;
      }
      Note(old(View()), Call.Reserve(b, l, now, startBy, deadline), result);
    }

    /** The check every run call starts with; it moves the run's clock even when the call then fails. */
    method Enter(run: nat, now: real) returns (ok: bool)
      modifies this`runs
      ensures ok == RunAccepts(old(View()), run, now)
      ensures View() == if ok then Touched(old(View()), run, now) else old(View())
    {
      if run !in runs || runs[run].phase == Terminal || !ValidTime(now) || now < runs[run].lastNow
        || now >= runs[run].deadline {
        return false;
      }
      runs := runs[run := runs[run].(lastNow := now)];
      return true;
    }

    method Advance(run: nat, now: real, from: Phase, to: Phase, extra: bool) returns (result: Result)
      modifies this`runs
      ensures (View(), result) == Step(old(View()), run, now, from, to, extra)
    {
      var ok := Enter(run, now);
      if !ok || runs[run].phase != from || !extra {
        return Failed;
      }
      runs := runs[run := runs[run].(phase := to)];
      return Done;
    }

    method MarkExecutionStarted(run: nat, now: real) returns (result: Result)
      requires Valid()
      modifies this
      ensures (View(), result) == Apply(old(View()), Call.MarkExecutionStarted(run, now), rules)
          && history == old(history) + [Entry(Call.MarkExecutionStarted(run, now), result)]
      ensures Valid() && HistorySafety(View(), history) && InOrder(history, rules)
    {
      result := Advance(run, now, Reserved, Started, run in runs && now < runs[run].startBy);
      Note(old(View()), Call.MarkExecutionStarted(run, now), result);
    }

    method RecordBrokerIntent(run: nat, now: real) returns (result: Result)
      requires Valid()
      modifies this
      ensures (View(), result) == Apply(old(View()), Call.RecordBrokerIntent(run, now), rules)
          && history == old(history) + [Entry(Call.RecordBrokerIntent(run, now), result)]
      ensures Valid() && HistorySafety(View(), history) && InOrder(history, rules)
    {
      result := Advance(run, now, Started, IntentRecorded, true);
      Note(old(View()), Call.RecordBrokerIntent(run, now), result);
    }

    method CommitBrokerArm(run: nat, now: real) returns (result: Result)
      requires Valid()
      modifies this
      ensures (View(), result) == Apply(old(View()), Call.CommitBrokerArm(run, now), rules)
          && history == old(history) + [Entry(Call.CommitBrokerArm(run, now), result)]
      ensures Valid() && HistorySafety(View(), history) && InOrder(history, rules)
    {
      result := Advance(run, now, IntentRecorded, Armed, true);
      Note(old(View()), Call.CommitBrokerArm(run, now), result);
    }

    method RecordSpawnAttempt(run: nat, now: real) returns (result: Result)
      requires Valid()
      modifies this
      ensures (View(), result) == Apply(old(View()), Call.RecordSpawnAttempt(run, now), rules)
          && history == old(history) + [Entry(Call.RecordSpawnAttempt(run, now), result)]
      ensures Valid() && HistorySafety(View(), history) && InOrder(history, rules)
    {
      result := Advance(run, now, Armed, Running, true);
      Note(old(View()), Call.RecordSpawnAttempt(run, now), result);
    }

    method ReserveTransport(run: nat, ordinal: int, now: real) returns (result: Result)
      requires Valid()
      modifies this
      ensures (View(), result) == Apply(old(View()), Call.ReserveTransport(run, ordinal, now), rules)
          && history == old(history) + [Entry(Call.ReserveTransport(run, ordinal, now), result)]
      ensures Valid() && HistorySafety(View(), history) && InOrder(history, rules)
    {
      var ok := Enter(run, now);
      result := Failed;
      if ok && runs[run].phase == Running && SafeInteger(ordinal) && ordinal == runs[run].nextOrdinal
         && runs[run].activeTransports < MAX_ACTIVE_TRANSPORTS {
        var r := runs[run];
        runs := runs[run := r.(transports := r.transports[issued := Transport(ordinal, false)],
                               nextOrdinal := r.nextOrdinal + 1, activeTransports := r.activeTransports + 1)];
        result := Token(issued);
        issued := issued + 1;
      }
      Note(old(View()), Call.ReserveTransport(run, ordinal, now), result);
    }

    method CompleteTransport(run: nat, transport: nat, bytes: int, now: real) returns (result: Result)
      requires Valid()
      modifies this
      ensures (View(), result) == Apply(old(View()), Call.CompleteTransport(run, transport, bytes, now), rules)
          && history == old(history) + [Entry(Call.CompleteTransport(run, transport, bytes, now), result)]
      ensures Valid() && HistorySafety(View(), history) && InOrder(history, rules)
    {
      var ok := Enter(run, now);
      result := Failed;
      if ok && runs[run].phase == Running && transport in runs[run].transports
        && !runs[run].transports[transport].completed
         && SafeInteger(bytes) && bytes >= 0 && runs[run].responseBytes <= MAX_SAFE_INTEGER - bytes {
        var r := runs[run];
        runs := runs[run := r.(transports := r.transports[transport := r.transports[transport].(completed := true)],
                               activeTransports := r.activeTransports - 1, responseBytes := r.responseBytes + bytes)];
        result := Done;
      }
      Note(old(View()), Call.CompleteTransport(run, transport, bytes, now), result);
    }

    method ObserveChildClose(run: nat, now: real, exitCode: int) returns (result: Result)
      requires Valid()
      modifies this
      ensures (View(), result) == Apply(old(View()), Call.ObserveChildClose(run, now, exitCode), rules)
          && history == old(history) + [Entry(Call.ObserveChildClose(run, now, exitCode), result)]
      ensures Valid() && HistorySafety(View(), history) && InOrder(history, rules)
    {
      var ok := Enter(run, now);
      result := Failed;
      if ok && (runs[run].phase == Running || runs[run].phase == Drained) && runs[run].activeTransports == 0
        && exitCode == 0 {
        runs := runs[run := runs[run].(phase := if runs[run].phase == Drained then ChildClosed else ChildClosedOpen)];
        result := Done;
      }
      Note(old(View()), Call.ObserveChildClose(run, now, exitCode), result);
    }

    method ObserveListenerQuiesced(run: nat, l: nat, now: real) returns (result: Result)
      requires Valid()
      modifies this
      ensures (View(), result) == Apply(old(View()), Call.ObserveListenerQuiesced(run, l, now), rules)
          && history == old(history) + [Entry(Call.ObserveListenerQuiesced(run, l, now), result)]
      ensures Valid() && HistorySafety(View(), history) && InOrder(history, rules)
    {
      var ok := Enter(run, now);
      result := Failed;
      if ok && (runs[run].phase == Running || runs[run].phase == ChildClosedOpen) && runs[run].activeTransports == 0
         && runs[run].listener == l && l in listeners && listeners[l].state == Consumed
         && listeners[l].binding == runs[run].binding {
        runs := runs[run := runs[run].(phase := if runs[run].phase == ChildClosedOpen then ChildClosed else Drained)];
        result := Done;
      }
      Note(old(View()), Call.ObserveListenerQuiesced(run, l, now), result);
    }

    /** Reports the transports issued, all of them completed, and the sum of their bytes. */
    method Quiesce(run: nat, now: real) returns (result: Result)
      requires Valid()
      modifies this
      ensures (View(), result) == Apply(old(View()), Call.Quiesce(run, now), rules)
          && history == old(history) + [Entry(Call.Quiesce(run, now), result)]
      ensures Valid() && HistorySafety(View(), history) && InOrder(history, rules)
      ensures result.Quiescence? ==>
        && result.requestCount == |Ordinals(old(history), run)| == CompletedCount(old(history), run)
        && result.responseBytes == CompletedBytes(old(history), run)
    {
      result := Advance(run, now, ChildClosed, Terminal, run in runs && runs[run].activeTransports == 0);
      if result != Failed {
        result := Quiescence(runs[run].listenerDigest, runs[run].nextOrdinal, runs[run].responseBytes);
      }
      assert RunOk(old(View()), old(history), run);
      Note(old(View()), Call.Quiesce(run, now), result);
    }

    method UnknownTerminal(run: nat, now: real) returns (result: Result)
      requires Valid()
      modifies this
      ensures (View(), result) == Apply(old(View()), Call.UnknownTerminal(run, now), rules)
          && history == old(history) + [Entry(Call.UnknownTerminal(run, now), result)]
      ensures Valid() && HistorySafety(View(), history) && InOrder(history, rules)
    {
      result := Advance(run, now, Drained, Terminal, run in runs && runs[run].activeTransports == 0);
      if result != Failed {
        result := OutcomeUnknown;
      }
      Note(old(View()), Call.UnknownTerminal(run, now), result);
    }

    /** Any one call. */
    method Answer(c: Call) returns (result: Result)
      requires Valid()
      modifies this
      ensures (View(), result) == Apply(old(View()), c, rules) && history == old(history) + [Entry(c, result)]
      ensures Valid() && HistorySafety(View(), history) && InOrder(history, rules)
    {
      match c {
        case PrepareListener(b, port) => result := PrepareListener(b, port);
        case CloseListener(l) => result := CloseListener(l);
        case Reserve(b, l, now, startBy, deadline) => result := Reserve(b, l, now, startBy, deadline);
        case MarkExecutionStarted(run, now) => result := MarkExecutionStarted(run, now);
        case RecordBrokerIntent(run, now) => result := RecordBrokerIntent(run, now);
        case CommitBrokerArm(run, now) => result := CommitBrokerArm(run, now);
        case RecordSpawnAttempt(run, now) => result := RecordSpawnAttempt(run, now);
        case ReserveTransport(run, ordinal, now) => result := ReserveTransport(run, ordinal, now);
        case CompleteTransport(run, transport, bytes, now) => result := CompleteTransport(run, transport, bytes, now);
        case ObserveChildClose(run, now, exitCode) => result := ObserveChildClose(run, now, exitCode);
        case ObserveListenerQuiesced(run, l, now) => result := ObserveListenerQuiesced(run, l, now);
        case Quiesce(run, now) => result := Quiesce(run, now);
        case UnknownTerminal(run, now) => result := UnknownTerminal(run, now);
      }
    }
  }

  /** An authority that answers any sequence of calls from the start makes the machine's history. */
  method Serve(calls: seq<Call>, rules: Rules) returns (authority: SyntheticExecutionAuthority)
    ensures fresh(authority) && authority.Valid()
    ensures (authority.View(), authority.history) == After(calls, rules)
    ensures HistorySafety(authority.View(), authority.history) && InOrder(authority.history, rules)
  {
    EveryHistoryIsSafe(calls, rules);
    EveryHistoryIsInOrder(calls, rules);
    authority := new SyntheticExecutionAuthority(rules);
    for k := 0 to |calls|
      invariant fresh(authority) && authority.Valid() && authority.rules == rules
      invariant (authority.View(), authority.history) == After(calls[..k], rules)
    {
      var result := authority.Answer(calls[k]);
      assert calls[..k + 1][..k] == calls[..k];
    }
    assert calls[..|calls|] == calls;
  }
}
