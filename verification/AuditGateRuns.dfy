/**
  * The audit gate under overlapping calls. `record` tests its bounds and the terminal flag before it awaits the
  * sink and applies its effects after it, so calls that overlap can slip past tests that would have refused them.
  */
module AuditGateRuns {
  import opened AuditPayloads
  import opened AuditTrace
  import opened MetadataBroker
  import AuditEvidence

  datatype Stage = Waiting | Landed | Done

  /** One append handed to the sink: a plain record, or the closing record of `finalizeSuccess`. */
  datatype Append = Append(record: Record, bytes: nat, closing: bool, stage: Stage)

  datatype GateRun = GateRun(gate: Gate, appends: seq<Append>, preparations: seq<seq<Record>>,
                             completions: seq<seq<Record>>)

  datatype Act =
    | RecordCall(record: Record, bytes: nat)
    | FinalizeCall(bytes: nat)
    | PrepareCall
    | SinkSettled(append: nat, accepted: bool)
    | FinalizeResumes(append: nat)

  const CLOSING: Record := Record(GenesisComplete, map[])
  const NEW_GATE: GateRun := GateRun(Gate([], 0, false), [], [], [])

  function Begun(s: GateRun, record: Record, valid: bool, bytes: nat, closing: bool): GateRun {
    if Admits(s.gate, valid, bytes) then s.(appends := s.appends + [Append(record, bytes, closing, Waiting)]) else s
  }

  function Settle(s: GateRun, i: nat, accepted: bool): GateRun
    requires i < |s.appends|
  {
    var a := s.appends[i];
    if accepted
    then s.(gate := Pushed(s.gate, a.record, a.bytes),
            appends := s.appends[i := a.(stage := if a.closing then Landed else Done)])
    else s.(appends := s.appends[i := a.(stage := Done)])
  }

  /** One stretch between two awaits; an act that is not enabled changes nothing. */
  ghost function Step(s: GateRun, act: Act): GateRun {
    match act
    case RecordCall(record, bytes) => Begun(s, record, ValidPayload(record), bytes, false)
    case FinalizeCall(bytes) => if CompleteAudit(s.gate.records, false) then Begun(s, CLOSING, true, bytes, true) else s
    case PrepareCall =>
      if !s.gate.terminal && CompleteAudit(s.gate.records, true)
      then s.(gate := s.gate.(terminal := true), preparations := s.preparations + [s.gate.records]) else s
    case SinkSettled(i, accepted) =>
      if i < |s.appends| && s.appends[i].stage == Waiting then Settle(s, i, accepted) else s
    case FinalizeResumes(i) =>
      if i < |s.appends| && s.appends[i].stage == Landed
      then s.(appends := s.appends[i := s.appends[i].(stage := Done)], completions := s.completions + [s.gate.records])
        else s
  }

  ghost function Steps(s: GateRun, acts: seq<Act>): GateRun {
    if acts == [] then s else Step(Steps(s, acts[..|acts| - 1]), acts[|acts| - 1])
  }

  // ----- In every interleaving -----

  /** At most one preparation, made over a complete trace that the records still begin with. */
  ghost predicate PreparedOnce(s: GateRun) {
    && |s.preparations| <= 1
    && (s.preparations != [] ==>
          s.gate.terminal && CompleteAudit(s.preparations[0], true) && s.preparations[0] <= s.gate.records)
  }

  lemma StepPreparedOnce(s: GateRun, act: Act)
    requires PreparedOnce(s)
    ensures PreparedOnce(Step(s, act))
  {
  }

  lemma {:induction false} PreparationIsUnique(acts: seq<Act>)
    ensures PreparedOnce(Steps(NEW_GATE, acts))
  {
    if acts != [] {
      PreparationIsUnique(acts[..|acts| - 1]);
      StepPreparedOnce(Steps(NEW_GATE, acts[..|acts| - 1]), acts[|acts| - 1]);
    }
  }

  /** The record tells some event with evidence that fits it. */
  ghost predicate IsEvidence(r: Record) {
    exists e :: AuditEvidence.Fits(e) && AuditEvidence.Recorded(e) == r
  }

  ghost predicate AllEvidence(s: GateRun) {
    && (forall r :: r in s.gate.records ==> IsEvidence(r))
    && forall a :: a in s.appends ==> IsEvidence(a.record)
  }

  lemma StepKeepsEvidence(s: GateRun, act: Act)
    requires AllEvidence(s)
    ensures AllEvidence(Step(s, act))
  {
    if act.RecordCall? {
      AuditEvidence.ValidIsEvidence(act.record);
    } else if act.FinalizeCall? {
      assert AuditEvidence.Fits(AuditEvidence.Nothing(GenesisComplete));
      assert AuditEvidence.Recorded(AuditEvidence.Nothing(GenesisComplete)) == CLOSING;
    } else if act.SinkSettled? && act.append < |s.appends| {
      assert s.appends[act.append] in s.appends;
    }
  }

  /** Whatever is recorded, in any interleaving, tells an event with evidence that fits it. */
  lemma {:induction false} RecordsAreEvidence(acts: seq<Act>)
    ensures AllEvidence(Steps(NEW_GATE, acts))
    decreases |acts|
  {
    if acts != [] {
      RecordsAreEvidence(acts[..|acts| - 1]);
      StepKeepsEvidence(Steps(NEW_GATE, acts[..|acts| - 1]), acts[|acts| - 1]);
    }
  }

  /** The gate is open and its trace complete. */
  ghost predicate Preparable(s: GateRun) {
    !s.gate.terminal && CompleteAudit(s.gate.records, true)
  }

  /** At this place of a run a preparation is asked for, of an open gate with a complete trace. */
  ghost predicate PreparedAt(acts: seq<Act>, k: nat)
    requires k < |acts|
  {
    acts[k] == PrepareCall && Preparable(Steps(NEW_GATE, acts[..k]))
  }

  ghost predicate EverPrepared(acts: seq<Act>) {
    exists k :: 0 <= k < |acts| && PreparedAt(acts, k)
  }

  lemma StepPrepares(s: GateRun, act: Act)
    ensures Step(s, act).preparations
         == s.preparations + if act == PrepareCall && Preparable(s) then [s.gate.records] else []
  {
  }

  lemma PreparedBefore(acts: seq<Act>, k: nat)
    requires k < |acts| - 1
    ensures PreparedAt(acts[..|acts| - 1], k) <==> PreparedAt(acts, k)
  {
    assert acts[..|acts| - 1][..k] == acts[..k];
  }

  lemma EverPreparedLater(acts: seq<Act>)
    requires acts != [] && EverPrepared(acts[..|acts| - 1])
    ensures EverPrepared(acts)
  {
    var front := acts[..|acts| - 1];
    var k :| 0 <= k < |front| && PreparedAt(front, k);
    PreparedBefore(acts, k);
  }

  lemma EverPreparedStep(acts: seq<Act>)
    requires acts != []
    ensures EverPrepared(acts) <==> EverPrepared(acts[..|acts| - 1]) || PreparedAt(acts, |acts| - 1)
  {
    if EverPrepared(acts[..|acts| - 1]) {
      EverPreparedLater(acts);
    } else if k :| 0 <= k < |acts| - 1 && PreparedAt(acts, k) {
      PreparedBefore(acts, k);
    }
  }

  /** A preparation is made exactly when one is asked for, ever, of an open gate with a complete trace. */
  lemma {:induction false} PreparedIff(acts: seq<Act>)
    ensures Steps(NEW_GATE, acts).preparations != [] <==> EverPrepared(acts)
    decreases |acts|
  {
    if acts != [] {
      PreparedIff(acts[..|acts| - 1]);
      StepPrepares(Steps(NEW_GATE, acts[..|acts| - 1]), acts[|acts| - 1]);
      EverPreparedStep(acts);
    }
  }

  lemma AtMostOnePrepared(acts: seq<Act>)
    ensures |Steps(NEW_GATE, acts).preparations| <= 1
  {
    PreparationIsUnique(acts);
  }

  lemma AddedOnce(before: seq<seq<Record>>, added: seq<seq<Record>>, made: seq<Record>)
    requires |before + added| <= 1 && (before == [made] || added == [made])
    ensures before + added == [made]
  {
  }

  /** It is then made of the records of that moment. */
  lemma {:induction false} PreparedOf(acts: seq<Act>, k: nat)
    requires k < |acts| && PreparedAt(acts, k)
    ensures Steps(NEW_GATE, acts).preparations == [Steps(NEW_GATE, acts[..k]).gate.records]
    decreases |acts|
  {
    var s, act := Steps(NEW_GATE, acts[..|acts| - 1]), acts[|acts| - 1];
    var made := Steps(NEW_GATE, acts[..k]).gate.records;
    AtMostOnePrepared(acts);
    StepPrepares(s, act);
    if k < |acts| - 1 {
      PreparedBefore(acts, k);
      PreparedOf(acts[..|acts| - 1], k);
      assert acts[..|acts| - 1][..k] == acts[..k];
      assert s.preparations == [made];
    }
    AddedOnce(s.preparations, if act == PrepareCall && Preparable(s) then [s.gate.records] else [], made);
  }

  ghost predicate NoneWaiting(s: GateRun) {
    forall i :: 0 <= i < |s.appends| ==> s.appends[i].stage != Waiting
  }

  ghost predicate RecordsFrozen(s: GateRun) {
    forall acts: seq<Act> :: Steps(s, acts).gate.records == s.gate.records
  }

  lemma {:induction false} ClosedStays(s: GateRun, acts: seq<Act>)
    requires s.gate.terminal && NoneWaiting(s)
    ensures Steps(s, acts).gate == s.gate && NoneWaiting(Steps(s, acts))
  {
    if acts != [] {
      ClosedStays(s, acts[..|acts| - 1]);
    }
  }

  /** Closing the gate freezes its records exactly when no append is in flight at that moment. */
  lemma ClosedGateFrozenIff(s: GateRun)
    requires s.gate.terminal
    ensures RecordsFrozen(s) <==> NoneWaiting(s)
  {
    if NoneWaiting(s) {
      forall acts: seq<Act> ensures Steps(s, acts).gate.records == s.gate.records {
        ClosedStays(s, acts);
      }
    } else {
      var i :| 0 <= i < |s.appends| && s.appends[i].stage == Waiting;
      OneStep(s, SinkSettled(i, true));
      assert |Steps(s, [SinkSettled(i, true)]).gate.records| == |s.gate.records| + 1;
    }
  }

  lemma OneStep(s: GateRun, act: Act)
    ensures Steps(s, [act]) == Step(s, act)
  {
    assert [act][..0] == [];
    assert Steps(s, []) == s;
  }

  // ----- When calls do not overlap -----

  ghost predicate Quiet(s: GateRun) {
    forall i :: 0 <= i < |s.appends| ==> s.appends[i].stage == Done
  }

  predicate IsCall(act: Act) {
    act.RecordCall? || act.FinalizeCall? || act.PrepareCall?
  }

  /** No call is made before the previous one has returned. */
  ghost predicate OneAtATime(acts: seq<Act>) {
    forall k :: 0 <= k < |acts| && IsCall(acts[k]) ==> Quiet(Steps(NEW_GATE, acts[..k]))
  }

  /** The bounds hold, and the one terminal result, if any, is over the records the gate ends with. */
  ghost predicate Orderly(s: GateRun) {
    && |s.gate.records| <= MAX_RECORDS
    && s.gate.payloadBytes <= MAX_TOTAL_PAYLOAD_BYTES
    && |s.preparations| + |s.completions| <= 1
    && (s.preparations != [] ==> s.gate.terminal && s.preparations[0] == s.gate.records)
    && (s.completions != [] ==> s.gate.terminal && s.completions[0] == s.gate.records)
  }

  /** Besides, at most the last append is open, and it was admitted to the gate as it is. */
  ghost predicate LastOpen(s: GateRun) {
    && (forall i :: 0 <= i < |s.appends| - 1 ==> s.appends[i].stage == Done)
    && (s.appends != [] ==>
          var a := s.appends[|s.appends| - 1];
          && (a.stage == Waiting ==> Admits(s.gate, true, a.bytes) && s.preparations == [] && s.completions == [])
          && (a.stage == Landed ==> s.gate.terminal && s.preparations == [] && s.completions == [])
          && (a.closing ==> a.record == CLOSING))
  }

  lemma BegunOrderly(s: GateRun, record: Record, valid: bool, bytes: nat, closing: bool)
    requires Orderly(s) && LastOpen(s) && Quiet(s) && (closing ==> record == CLOSING)
    ensures Orderly(Begun(s, record, valid, bytes, closing)) && LastOpen(Begun(s, record, valid, bytes, closing))
  {
  }

  lemma SettleOrderly(s: GateRun, i: nat, accepted: bool)
    requires Orderly(s) && LastOpen(s) && i < |s.appends| && s.appends[i].stage == Waiting
    ensures Orderly(Settle(s, i, accepted)) && LastOpen(Settle(s, i, accepted))
  {
    assert i == |s.appends| - 1;
  }

  lemma PrepareOrderly(s: GateRun)
    requires Orderly(s) && LastOpen(s) && Quiet(s)
    ensures Orderly(Step(s, PrepareCall)) && LastOpen(Step(s, PrepareCall))
  {
  }

  lemma {:induction false} CallOrderly(s: GateRun, act: Act)
    requires Orderly(s) && LastOpen(s) && Quiet(s) && IsCall(act)
    ensures Orderly(Step(s, act)) && LastOpen(Step(s, act))
  {
    match act
    case RecordCall(record, bytes) => BegunOrderly(s, record, ValidPayload(record), bytes, false);
    case FinalizeCall(bytes) => BegunOrderly(s, CLOSING, true, bytes, true);
    case PrepareCall => PrepareOrderly(s);
  }

  lemma StepOrderly(s: GateRun, act: Act)
    requires Orderly(s) && LastOpen(s) && (IsCall(act) ==> Quiet(s))
    ensures Orderly(Step(s, act)) && LastOpen(Step(s, act))
  {
    if IsCall(act) {
      CallOrderly(s, act);
    } else if act.SinkSettled? {
      if act.append < |s.appends| && s.appends[act.append].stage == Waiting {
        SettleOrderly(s, act.append, act.accepted);
      }
    } else if act.append < |s.appends| && s.appends[act.append].stage == Landed {
      assert act.append == |s.appends| - 1;
    }
  }

  /** Without overlapping calls the bounds hold, and there is at most one terminal result, over the final records. */
  lemma {:induction false} OneAtATimeIsOrderly(acts: seq<Act>)
    requires OneAtATime(acts)
    ensures Orderly(Steps(NEW_GATE, acts)) && LastOpen(Steps(NEW_GATE, acts))
  {
    if acts != [] {
      var before := acts[..|acts| - 1];
      assert forall k :: 0 <= k < |before| ==> before[k] == acts[k] && before[..k] == acts[..k];
      OneAtATimeIsOrderly(before);
      StepOrderly(Steps(NEW_GATE, before), acts[|acts| - 1]);
    }
  }

  // ----- What the appends in flight can still do -----

  function WaitingOne(a: Append): nat {
    if a.stage == Waiting then 1 else 0
  }

  function WaitingBytes(a: Append): nat {
    if a.stage == Waiting then a.bytes else 0
  }

  /** A finalization that may still return its completion. */
  function OpenClosing(a: Append): nat {
    if a.stage == Landed || (a.stage == Waiting && a.closing) then 1 else 0
  }

  function Weight(appends: seq<Append>, w: Append -> nat): nat {
    if appends == [] then 0 else Weight(appends[..|appends| - 1], w) + w(appends[|appends| - 1])
  }

  lemma {:induction false} WeightUpdate(appends: seq<Append>, w: Append -> nat, i: nat, a: Append)
    requires i < |appends|
    ensures Weight(appends[i := a], w) + w(appends[i]) == Weight(appends, w) + w(a)
  {
    var n := |appends| - 1;
    if i < n {
      WeightUpdate(appends[..n], w, i, a);
      assert appends[i := a][..n] == appends[..n][i := a];
    } else {
      assert appends[i := a][..n] == appends[..n];
    }
  }

  lemma {:induction false} WeightWitness(appends: seq<Append>, w: Append -> nat)
    ensures Weight(appends, w) > 0 ==> exists i :: 0 <= i < |appends| && w(appends[i]) > 0
    ensures Weight(appends, w) == 0 ==> forall i :: 0 <= i < |appends| ==> w(appends[i]) == 0
  {
    if appends != [] {
      var front := appends[..|appends| - 1];
      WeightWitness(front, w);
      assert forall i :: 0 <= i < |front| ==> front[i] == appends[i];
      if w(appends[|appends| - 1]) == 0 && exists i :: 0 <= i < |front| && w(front[i]) > 0 {
        var i :| 0 <= i < |front| && w(front[i]) > 0;
        assert w(appends[i]) > 0;
      }
    }
  }

  function RecordsToCome(s: GateRun): nat {
    |s.gate.records| + Weight(s.appends, WaitingOne)
  }

  function BytesToCome(s: GateRun): nat {
    s.gate.payloadBytes + Weight(s.appends, WaitingBytes)
  }

  function CompletionsToCome(s: GateRun): nat {
    |s.completions| + Weight(s.appends, OpenClosing)
  }

  predicate NoCalls(acts: seq<Act>) {
    forall k :: 0 <= k < |acts| ==> !IsCall(acts[k])
  }

  /** Without a call nothing more comes than was in flight, and all of it stays to come while nothing is refused. */
  lemma NothingMoreComes(s: GateRun, act: Act)
    requires !IsCall(act)
    ensures var t := Step(s, act);
      && RecordsToCome(t) <= RecordsToCome(s) && BytesToCome(t) <= BytesToCome(s)
      && CompletionsToCome(t) <= CompletionsToCome(s)
      && (!(act.SinkSettled? && !act.accepted) ==>
            RecordsToCome(t) == RecordsToCome(s) && BytesToCome(t) == BytesToCome(s)
              && CompletionsToCome(t) == CompletionsToCome(s))
  {
    match act
    case SinkSettled(i, accepted) =>
      if i < |s.appends| && s.appends[i].stage == Waiting {
        var a := s.appends[i];
        var settled := a.(stage := if accepted && a.closing then Landed else Done);
        WeightUpdate(s.appends, WaitingOne, i, settled);
        WeightUpdate(s.appends, WaitingBytes, i, settled);
        WeightUpdate(s.appends, OpenClosing, i, settled);
      }
    case FinalizeResumes(i) =>
      if i < |s.appends| && s.appends[i].stage == Landed {
        var done := s.appends[i].(stage := Done);
        WeightUpdate(s.appends, WaitingOne, i, done);
        WeightUpdate(s.appends, WaitingBytes, i, done);
        WeightUpdate(s.appends, OpenClosing, i, done);
      }
  }

  lemma {:induction false} NeverMoreThanToCome(s: GateRun, acts: seq<Act>)
    requires NoCalls(acts)
    ensures var t := Steps(s, acts);
      RecordsToCome(t) <= RecordsToCome(s) && BytesToCome(t) <= BytesToCome(s)
        && CompletionsToCome(t) <= CompletionsToCome(s)
  {
    if acts != [] {
      NeverMoreThanToCome(s, acts[..|acts| - 1]);
      NothingMoreComes(Steps(s, acts[..|acts| - 1]), acts[|acts| - 1]);
    }
  }

  function Unsettled(s: GateRun): nat {
    2 * Weight(s.appends, WaitingOne) + Weight(s.appends, OpenClosing)
  }

  /** One more acceptance, or one more return of a finalization. */
  lemma Progress(s: GateRun) returns (act: Act)
    requires Unsettled(s) > 0
    ensures !IsCall(act) && Unsettled(Step(s, act)) < Unsettled(s)
    ensures var t := Step(s, act);
      RecordsToCome(t) == RecordsToCome(s) && BytesToCome(t) == BytesToCome(s)
        && CompletionsToCome(t) == CompletionsToCome(s)
  {
    WeightWitness(s.appends, WaitingOne);
    WeightWitness(s.appends, OpenClosing);
    if Weight(s.appends, WaitingOne) > 0 {
      var i :| 0 <= i < |s.appends| && WaitingOne(s.appends[i]) > 0;
      act := SinkSettled(i, true);
      var a := s.appends[i];
      var settled := a.(stage := if a.closing then Landed else Done);
      WeightUpdate(s.appends, WaitingOne, i, settled);
      WeightUpdate(s.appends, OpenClosing, i, settled);
    } else {
      var i :| 0 <= i < |s.appends| && OpenClosing(s.appends[i]) > 0;
      assert WaitingOne(s.appends[i]) == 0;
      act := FinalizeResumes(i);
      WeightUpdate(s.appends, WaitingOne, i, s.appends[i].(stage := Done));
      WeightUpdate(s.appends, OpenClosing, i, s.appends[i].(stage := Done));
    }
    NothingMoreComes(s, act);
  }

  /** The sink may accept everything: then everything in flight arrives. */
  lemma {:induction false} AllCanArrive(s: GateRun) returns (acts: seq<Act>)
    ensures NoCalls(acts)
    ensures var t := Steps(s, acts);
      && |t.gate.records| == RecordsToCome(s) && t.gate.payloadBytes == BytesToCome(s)
      && |t.completions| == CompletionsToCome(s)
    decreases Unsettled(s)
  {
    if Unsettled(s) == 0 {
      acts := [];
      NothingWaits(s);
    } else {
      var act := Progress(s);
      var more := AllCanArrive(Step(s, act));
      acts := [act] + more;
      StepFirst(s, act, more);
    }
  }

  lemma NothingWaits(s: GateRun)
    requires Unsettled(s) == 0
    ensures |s.gate.records| == RecordsToCome(s) && s.gate.payloadBytes == BytesToCome(s)
        && |s.completions| == CompletionsToCome(s)
  {
    WeightWitness(s.appends, WaitingOne);
    WeightWitness(s.appends, WaitingBytes);
    assert forall i :: 0 <= i < |s.appends| && WaitingOne(s.appends[i]) == 0 ==> WaitingBytes(s.appends[i]) == 0;
  }

  lemma {:induction false} StepFirst(s: GateRun, act: Act, more: seq<Act>)
    ensures Steps(s, [act] + more) == Steps(Step(s, act), more)
  {
    var acts := [act] + more;
    if more == [] {
      OneStep(s, act);
      assert acts == [act];
    } else {
      StepFirst(s, act, more[..|more| - 1]);
      assert acts[..|acts| - 1] == [act] + more[..|more| - 1];
    }
  }

  ghost predicate RecordsStayWithin(s: GateRun, n: nat) {
    forall acts :: NoCalls(acts) ==> |Steps(s, acts).gate.records| <= n
  }

  ghost predicate BytesStayWithin(s: GateRun, n: nat) {
    forall acts :: NoCalls(acts) ==> Steps(s, acts).gate.payloadBytes <= n
  }

  ghost predicate CompletionsStayWithin(s: GateRun, n: nat) {
    forall acts :: NoCalls(acts) ==> |Steps(s, acts).completions| <= n
  }

  /**
    * Whatever the sink answers, records, bytes and completions stay within a bound exactly when all in flight fits
    * it.
    */
  lemma StayWithinIff(s: GateRun, n: nat)
    ensures RecordsStayWithin(s, n) <==> |s.gate.records| + Weight(s.appends, WaitingOne) <= n
    ensures BytesStayWithin(s, n) <==> s.gate.payloadBytes + Weight(s.appends, WaitingBytes) <= n
    ensures CompletionsStayWithin(s, n) <==> |s.completions| + Weight(s.appends, OpenClosing) <= n
  {
    forall acts | NoCalls(acts)
      ensures |Steps(s, acts).gate.records| <= RecordsToCome(s)
      ensures Steps(s, acts).gate.payloadBytes <= BytesToCome(s)
      ensures |Steps(s, acts).completions| <= CompletionsToCome(s)
    {
      NeverMoreThanToCome(s, acts);
    }
    var all := AllCanArrive(s);
    assert NoCalls(all);
  }

  lemma BegunWeights(s: GateRun, record: Record, valid: bool, bytes: nat, closing: bool)
    requires Admits(s.gate, valid, bytes)
    ensures var t := Begun(s, record, valid, bytes, closing);
      && t.gate == s.gate && t.completions == s.completions
      && Weight(t.appends, WaitingOne) == Weight(s.appends, WaitingOne) + 1
      && Weight(t.appends, WaitingBytes) == Weight(s.appends, WaitingBytes) + bytes
      && Weight(t.appends, OpenClosing) == Weight(s.appends, OpenClosing) + if closing then 1 else 0
  {
    var a := Append(record, bytes, closing, Waiting);
    assert (s.appends + [a])[..|s.appends|] == s.appends;
  }

  /** An admitted call is safe for both bounds exactly when what is already in flight leaves room for it. */
  lemma RecordCallSafeIff(s: GateRun, record: Record, bytes: nat)
    requires Admits(s.gate, ValidPayload(record), bytes)
    ensures RecordsStayWithin(Step(s, RecordCall(record, bytes)), MAX_RECORDS)
       <==> |s.gate.records| + Weight(s.appends, WaitingOne) < MAX_RECORDS
    ensures BytesStayWithin(Step(s, RecordCall(record, bytes)), MAX_TOTAL_PAYLOAD_BYTES)
       <==> s.gate.payloadBytes + Weight(s.appends, WaitingBytes) + bytes <= MAX_TOTAL_PAYLOAD_BYTES
  {
    BegunWeights(s, record, ValidPayload(record), bytes, false);
    StayWithinIff(Step(s, RecordCall(record, bytes)), MAX_RECORDS);
    StayWithinIff(Step(s, RecordCall(record, bytes)), MAX_TOTAL_PAYLOAD_BYTES);
  }

  /**
    * A finalization that gets past its tests is the only one to return exactly when none has returned and none is
    * open.
    */
  lemma FinalizeAloneIff(s: GateRun, bytes: nat)
    requires CompleteAudit(s.gate.records, false) && Admits(s.gate, true, bytes)
    ensures CompletionsStayWithin(Step(s, FinalizeCall(bytes)), 1) <==>
        s.completions == [] && Weight(s.appends, OpenClosing) == 0
  {
    BegunWeights(s, CLOSING, true, bytes, true);
    StayWithinIff(Step(s, FinalizeCall(bytes)), 1);
  }

  // ----- What overlapping calls can do -----

  lemma AlsoStep(s: GateRun, acts: seq<Act>, act: Act)
    ensures Steps(s, acts + [act]) == Step(Steps(s, acts), act)
  {
    assert (acts + [act])[..|acts|] == acts;
  }

  /** A record without fields: its payload is the plan's hash alone. */
  const PROBE: Record := Record(BrokerArmed, map[])
  const PROBE_BYTES: nat := 79

  /** The state holds `n` such records, and `waiting` more in flight behind `done` finished appends. */
  ghost predicate Filled(s: GateRun, n: nat, done: nat, waiting: nat) {
    && |s.gate.records| == n && s.gate.payloadBytes == PROBE_BYTES * n && !s.gate.terminal
    && |s.appends| == done + waiting
    && forall i :: 0 <= i < |s.appends| ==>
       s.appends[i] == Append(PROBE, PROBE_BYTES, false, if i < done then Done else Waiting)
  }

  lemma FillOneMore(s: GateRun, n: nat, done: nat, waiting: nat)
    requires Filled(s, n, done, waiting)
    ensures n < MAX_RECORDS ==> Filled(Step(s, RecordCall(PROBE, PROBE_BYTES)), n, done, waiting + 1)
    ensures waiting > 0 ==> Filled(Step(s, SinkSettled(done, true)), n + 1, done + 1, waiting - 1)
  {
  }

  lemma {:induction false} FillInTurn(n: nat) returns (acts: seq<Act>)
    requires n < MAX_RECORDS
    ensures Filled(Steps(NEW_GATE, acts), n, n, 0)
  {
    if n == 0 {
      acts := [];
    } else {
      var before := FillInTurn(n - 1);
      var s := Steps(NEW_GATE, before);
      FillOneMore(s, n - 1, n - 1, 0);
      AlsoStep(NEW_GATE, before, RecordCall(PROBE, PROBE_BYTES));
      var begun := before + [RecordCall(PROBE, PROBE_BYTES)];
      FillOneMore(Steps(NEW_GATE, begun), n - 1, n - 1, 1);
      AlsoStep(NEW_GATE, begun, SinkSettled(n - 1, true));
      acts := begun + [SinkSettled(n - 1, true)];
    }
  }

  lemma {:induction false} BeginTogether(past: seq<Act>, n: nat, k: nat) returns (acts: seq<Act>)
    requires n < MAX_RECORDS && Filled(Steps(NEW_GATE, past), n, n, 0)
    ensures Filled(Steps(NEW_GATE, acts), n, n, k)
  {
    if k == 0 {
      acts := past;
    } else {
      var before := BeginTogether(past, n, k - 1);
      FillOneMore(Steps(NEW_GATE, before), n, n, k - 1);
      AlsoStep(NEW_GATE, before, RecordCall(PROBE, PROBE_BYTES));
      acts := before + [RecordCall(PROBE, PROBE_BYTES)];
    }
  }

  lemma {:induction false} LandTogether(past: seq<Act>, n: nat, waiting: nat) returns (acts: seq<Act>)
    requires Filled(Steps(NEW_GATE, past), n, n, waiting)
    ensures Filled(Steps(NEW_GATE, acts), n + waiting, n + waiting, 0)
    decreases waiting
  {
    if waiting == 0 {
      acts := past;
    } else {
      FillOneMore(Steps(NEW_GATE, past), n, n, waiting);
      AlsoStep(NEW_GATE, past, SinkSettled(n, true));
      acts := LandTogether(past + [SinkSettled(n, true)], n + 1, waiting - 1);
    }
  }

  /** The bound on records is not kept by overlapping calls: any number beyond it can be reached. */
  lemma OverlapExceedsBound(excess: nat)
    ensures exists acts :: |Steps(NEW_GATE, acts).gate.records| == MAX_RECORDS + excess
  {
    var filled := FillInTurn(MAX_RECORDS - 1);
    var begun := BeginTogether(filled, MAX_RECORDS - 1, excess + 1);
    var acts := LandTogether(begun, MAX_RECORDS - 1, excess + 1);
    assert |Steps(NEW_GATE, acts).gate.records| == MAX_RECORDS + excess;
  }

  /** A finalization that gets past its tests leaves the gate as it was for the next one to get past them too. */
  lemma FinalizeBegins(s: GateRun, bytes: nat)
    requires CompleteAudit(s.gate.records, false) && Admits(s.gate, true, bytes)
    ensures var t := Step(s, FinalizeCall(bytes)); t.gate == s.gate && CompletionsToCome(t) == CompletionsToCome(s) + 1
  {
    BegunWeights(s, CLOSING, true, bytes, true);
  }

  /** Wherever one finalization would succeed, two overlapping ones both do, besides any already in flight. */
  lemma OverlapCompletesTwice(s: GateRun, bytes: nat)
    requires CompleteAudit(s.gate.records, false) && Admits(s.gate, true, bytes)
    ensures exists acts :: |Steps(s, acts).completions| == CompletionsToCome(s) + 2
  {
    var call := FinalizeCall(bytes);
    FinalizeBegins(s, bytes);
    FinalizeBegins(Step(s, call), bytes);
    var more := AllCanArrive(Step(Step(s, call), call));
    StepFirst(Step(s, call), call, more);
    StepFirst(s, call, [call] + more);
    assert |Steps(s, [call] + ([call] + more)).completions| == CompletionsToCome(s) + 2;
  }

  // ----- A trace that can be finalized -----

  function SomeHash(): (text: string)
    ensures |text| == 64 && forall i :: 0 <= i < 64 ==> text[i] == 'a'
  {
    seq(64, _ => 'a')
  }

  /** One event of each kind a complete trace needs, in order, with a request and its response. */
  function CompleteTrace(): seq<Record> {
    [Record(RuntimeSnapshotComplete, map["runtimeManifestDigest" := Text(SomeHash())]),
     Record(ContainmentProbeComplete, map["containmentEvidenceDigest" := Text(SomeHash())]),
     Record(PlanReady, map["executionEnvelopeHash" := Text(SomeHash())]),
     Record(AuthorizationFinalized, map[]), Record(BrokerArmed, map[]), Record(NpmSpawnIntentRecorded, map[]),
     Record(NpmSpawnStarted, map[]),
     RequestRecord(1, "a"), ResponseRecord(1, "a", 1),
     Record(NpmTerminalObserved, map["status" := Text("completed"), "exitCode" := Number(0),
                                     "stdoutBytes" := Number(0), "stderrBytes" := Number(0)]),
     Record(ListenerDrained, map["acceptedHandlerCount" := Number(0)]),
     Record(LockValidationStarted, map[]),
     Record(PostStateValidated, map["postStateDigest" := Text(SomeHash())]),
     Record(CandidateCompiled, map[]), Record(CleanupComplete, map[])]
  }

  function EventPlace(event: EventName): int {
    match event
    case RuntimeSnapshotComplete => 0
    case ContainmentProbeComplete => 1
    case PlanReady => 2
    case AuthorizationFinalized => 3
    case BrokerArmed => 4
    case NpmSpawnIntentRecorded => 5
    case NpmSpawnStarted => 6
    case MetadataRequestStarted => 7
    case MetadataResponseValidated => 8
    case NpmTerminalObserved => 9
    case ListenerDrained => 10
    case LockValidationStarted => 11
    case PostStateValidated => 12
    case CandidateCompiled => 13
    case CleanupComplete => 14
    case _ => -1
  }

  ghost predicate Placed(records: seq<Record>) {
    |records| == 15 && forall i :: 0 <= i < 15 ==> EventPlace(records[i].event) == i
  }

  lemma TracePlaces()
    ensures Placed(CompleteTrace())
  {
  }

  lemma PlaceDecides(a: EventName, b: EventName)
    requires EventPlace(a) == EventPlace(b) >= 0
    ensures a == b
  {
  }

  lemma PlacedOnce(records: seq<Record>, event: EventName)
    requires Placed(records) && EventPlace(event) >= 0
    ensures OnceAt(records, event, EventPlace(event))
  {
    var i := EventPlace(event);
    PlaceDecides(records[i].event, event);
    forall j | 0 <= j < |records| && records[j].event == event ensures j == i {
      assert EventPlace(records[j].event) == j;
    }
  }

  const PLACES: seq<int> := [0, 1, 2, 3, 4, 5, 6, 9, 10, 11, 12, 13, 14]

  lemma RequiredAre(k: nat)
    requires k < 13
    ensures |Required(false)| == 13 && EventPlace(Required(false)[k]) == PLACES[k]
  {
  }

  lemma RequiredPlaces(records: seq<Record>)
    requires Placed(records)
    ensures OnceEachInOrder(records, Required(false), PLACES)
  {
    forall k | 0 <= k < 13 ensures |Required(false)| == 13 && OnceAt(records, Required(false)[k], PLACES[k]) {
      RequiredAre(k);
      PlacedOnce(records, Required(false)[k]);
    }
  }

  lemma OnlyRequest(records: seq<Record>)
    requires Placed(records)
    ensures forall i :: IsRequest(records, i) <==> i == 7
    ensures forall i :: IsResponse(records, i) <==> i == 8
    ensures forall i :: 0 <= i < |records| ==> !Forbidden(records[i].event)
  {
    PlacedOnce(records, MetadataRequestStarted);
    PlacedOnce(records, MetadataResponseValidated);
    forall i | 0 <= i < |records| ensures !Forbidden(records[i].event) {
      assert EventPlace(records[i].event) == i;
    }
  }

  lemma TraceBijection(records: seq<Record>)
    requires Placed(records) && records[7] == RequestRecord(1, "a") && records[8] == ResponseRecord(1, "a", 1)
    ensures MetadataBijection(records) && WellFormedRequests(records, 6, 9) && WellFormedResponses(records, 9)
    ensures exists i :: IsRequest(records, i)
  {
    OnlyRequest(records);
    assert Answers(records, 8, 7);
    assert IsRequest(records, 7);
  }

  lemma PlacedComplete(records: seq<Record>)
    requires Placed(records) && records[7] == RequestRecord(1, "a") && records[8] == ResponseRecord(1, "a", 1)
    requires SuccessfulTerminal(records[9])
    ensures CompleteAudit(records, false)
  {
    RequiredPlaces(records);
    TraceBijection(records);
    OnlyRequest(records);
    assert PLACES[6] == 6 && PLACES[7] == 9;
    assert CompleteAt(records, false, PLACES);
  }

  lemma TraceIsComplete()
    ensures CompleteAudit(CompleteTrace(), false)
  {
    TracePlaces();
    PlacedComplete(CompleteTrace());
  }

  lemma TraceIsValid(i: nat)
    requires i < |CompleteTrace()|
    ensures ValidPayload(CompleteTrace()[i])
  {
    BrokerPayloads(1, "a", 1);
    var r := CompleteTrace()[i];
    assert r.payload.Keys == ExpectedKeys(r.event);
  }

  /** The gate after the first `n` records of a list, each recorded in turn. */
  ghost predicate Holds(s: GateRun, records: seq<Record>) {
    && s.gate.records == records && s.gate.payloadBytes == 200 * |records| && !s.gate.terminal && s.completions == []
    && |s.appends| == |records| && Quiet(s)
  }

  lemma RecordOne(s: GateRun, records: seq<Record>, r: Record)
    requires Holds(s, records) && ValidPayload(r) && |records| < 100 && r.event != GenesisComplete
        && r.event != GenesisIncomplete
    ensures Holds(Step(Step(s, RecordCall(r, 200)), SinkSettled(|records|, true)), records + [r])
  {
  }

  lemma {:induction false} RecordInTurn(records: seq<Record>) returns (acts: seq<Act>)
    requires |records| < 100
    requires forall i :: 0 <= i < |records| ==> ValidPayload(records[i]) && !Forbidden(records[i].event)
    ensures Holds(Steps(NEW_GATE, acts), records)
  {
    if records == [] {
      acts := [];
    } else {
      var front, last := records[..|records| - 1], records[|records| - 1];
      var before := RecordInTurn(front);
      var s := Steps(NEW_GATE, before);
      RecordOne(s, front, last);
      AlsoStep(NEW_GATE, before, RecordCall(last, 200));
      AlsoStep(NEW_GATE, before + [RecordCall(last, 200)], SinkSettled(|front|, true));
      acts := before + [RecordCall(last, 200)] + [SinkSettled(|front|, true)];
      assert front + [last] == records;
    }
  }

  lemma ReachComplete() returns (acts: seq<Act>)
    ensures Holds(Steps(NEW_GATE, acts), CompleteTrace())
  {
    var records := CompleteTrace();
    TracePlaces();
    OnlyRequest(records);
    forall i | 0 <= i < |records| ensures ValidPayload(records[i]) {
      TraceIsValid(i);
    }
    acts := RecordInTurn(records);
  }

  lemma HoldsCompletes(s: GateRun)
    requires Holds(s, CompleteTrace())
    ensures CompleteAudit(s.gate.records, false) && Admits(s.gate, true, 79)
  {
    TraceIsComplete();
    TracePlaces();
  }

  /** From a new gate, two completions can be reached. */
  lemma TwoCompletionsReachable()
    ensures exists acts :: |Steps(NEW_GATE, acts).completions| == 2
  {
    var first := ReachComplete();
    var s := Steps(NEW_GATE, first);
    HoldsCompletes(s);
    OverlapCompletesTwice(s, 79);
    WeightWitness(s.appends, OpenClosing);
    var more :| |Steps(s, more).completions| == CompletionsToCome(s) + 2;
    StepsThenSteps(NEW_GATE, first, more);
  }

  lemma {:induction false} StepsThenSteps(s: GateRun, a: seq<Act>, b: seq<Act>)
    ensures Steps(s, a + b) == Steps(Steps(s, a), b)
  {
    if b == [] {
      assert a + b == a;
    } else {
      StepsThenSteps(s, a, b[..|b| - 1]);
      assert (a + b)[..|a + b| - 1] == a + b[..|b| - 1];
    }
  }
}
