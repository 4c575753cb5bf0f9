/** Both ends of the second pass together: the worker waits for each acknowledgement, the stage for each message. */
module PassBLockstep {
  import opened Numbers
  import opened Framing
  import opened PassB

  /** How many messages are sent and received, and the stage; `stage.acks` acknowledgements have been sent back. */
  datatype Session = Session(sent: nat, received: nat, stage: Stage)

  const BEGIN := Session(0, 0, START)

  datatype Turn = WorkerTurn | StageTurn

  /**
    * The worker sends its next message once every earlier one is acknowledged; the stage takes the next message there
    * is.
    */
  function Step(s: Session, turn: Turn, messages: seq<Message>, t: Terms): Session {
    match turn
    case WorkerTurn => if s.sent < |messages| && s.sent == s.stage.acks then s.(sent := s.sent + 1) else s
    case StageTurn =>
      if s.received < s.sent <= |messages|
      then s.(received := s.received + 1, stage := Receive(s.stage, messages[s.received], t)) else s
  }

  function Steps(turns: seq<Turn>, messages: seq<Message>, t: Terms): Session {
    if turns == [] then BEGIN else Step(Steps(turns[..|turns| - 1], messages, t), turns[|turns| - 1], messages, t)
  }

  // ----- Receiving part of the messages -----

  lemma {:induction false} ReceiveLast(s: Stage, messages: seq<Message>, m: Message, t: Terms)
    ensures ReceiveAll(s, messages + [m], t) == Receive(ReceiveAll(s, messages, t), m, t)
    decreases |messages|
  {
    var all := messages + [m];
    if messages == [] {
      assert all[1..] == [];
    } else {
      assert all[1..] == messages[1..] + [m];
      ReceiveLast(Receive(s, messages[0], t), messages[1..], m, t);
    }
  }

  lemma {:induction false} ReceiveRest(s: Stage, messages: seq<Message>, k: nat, t: Terms)
    requires k <= |messages|
    ensures ReceiveAll(s, messages, t) == ReceiveAll(ReceiveAll(s, messages[..k], t), messages[k..], t)
    decreases k
  {
    if k == 0 {
      assert messages[..0] == [] && messages[0..] == messages;
    } else {
      assert messages[..k][0] == messages[0] && messages[..k][1..] == messages[1..][..k - 1];
      assert messages[1..][k - 1..] == messages[k..];
      ReceiveRest(Receive(s, messages[0], t), messages[1..], k - 1, t);
    }
  }

  // ----- Every schedule -----

  /** The stage has what the messages received so far make of it, and at most one message is on its way. */
  ghost predicate InLockstep(s: Session, messages: seq<Message>, t: Terms) {
    && s.received <= s.sent <= |messages| && s.sent <= s.received + 1
    && s.stage == ReceiveAll(START, messages[..s.received], t)
    && Orderly(s.stage, s.received, t)
    && (s.stage.status == Broken ==> s.sent == s.received == s.stage.acks + 1)
  }

  lemma {:induction false} StepInLockstep(s: Session, turn: Turn, messages: seq<Message>, t: Terms)
    requires InLockstep(s, messages, t)
    ensures InLockstep(Step(s, turn, messages, t), messages, t)
  {
    if turn == StageTurn && s.received < s.sent {
      var m := messages[s.received];
      assert messages[..s.received + 1] == messages[..s.received] + [m];
      ReceiveLast(START, messages[..s.received], m, t);
      ReceiveIsOrderly(s.stage, s.received, m, t);
    }
  }

  /** In every schedule the two ends stay in lockstep. */
  lemma {:induction false} EveryScheduleIsInLockstep(turns: seq<Turn>, messages: seq<Message>, t: Terms)
    ensures InLockstep(Steps(turns, messages, t), messages, t)
    decreases |turns|
  {
    if turns == [] {
      assert messages[..0] == [];
    } else {
      EveryScheduleIsInLockstep(turns[..|turns| - 1], messages, t);
      StepInLockstep(Steps(turns[..|turns| - 1], messages, t), turns[|turns| - 1], messages, t);
    }
  }

  /** Neither end can go on. */
  ghost predicate Rests(s: Session, messages: seq<Message>, t: Terms) {
    forall turn :: Step(s, turn, messages, t) == s
  }

  /** The worker's loops end: every message is sent and acknowledged. */
  predicate WorkerDone(s: Session, messages: seq<Message>) {
    s.sent == |messages| == s.stage.acks
  }

  /** The messages of a session: the completion comes last, and nowhere else. */
  ghost predicate EndsOnce(messages: seq<Message>) {
    && messages != [] && messages[|messages| - 1].Complete?
    && forall i :: 0 <= i < |messages| - 1 ==> !messages[i].Complete?
  }

  lemma {:induction false} CompleteEnds(s: Stage, m: Message, t: Terms)
    requires s.status == Receiving
    ensures m.Complete? ==> Receive(s, m, t).status != Receiving
    ensures Receive(s, m, t).status == Completed ==> m.Complete?
  {
  }

  /** Before its last message the stage has not completed a session that ends once. */
  lemma {:induction false} NotYetComplete(messages: seq<Message>, k: nat, t: Terms)
    requires EndsOnce(messages) && k < |messages|
    ensures ReceiveAll(START, messages[..k], t).status != Completed
    decreases k
  {
    if k == 0 {
      assert messages[..0] == [];
    } else {
      NotYetComplete(messages, k - 1, t);
      var before := ReceiveAll(START, messages[..k - 1], t);
      assert messages[..k] == messages[..k - 1] + [messages[k - 1]];
      ReceiveLast(START, messages[..k - 1], messages[k - 1], t);
      if before.status == Receiving {
        CompleteEnds(before, messages[k - 1], t);
      }
    }
  }

  lemma {:induction false} RestingIsReceived(s: Session, messages: seq<Message>, t: Terms)
    requires InLockstep(s, messages, t) && Rests(s, messages, t) && EndsOnce(messages)
    ensures s.received == s.sent && (s.sent < |messages| ==> s.stage.status == Broken && s.sent != s.stage.acks)
  {
    assert Step(s, WorkerTurn, messages, t) == s && Step(s, StageTurn, messages, t) == s;
    if s.received < |messages| {
      NotYetComplete(messages, s.received, t);
    }
  }

  lemma {:induction false} LastMessage(s: Session, messages: seq<Message>, t: Terms)
    requires InLockstep(s, messages, t) && EndsOnce(messages) && s.received == |messages|
    ensures s.stage.status != Receiving && s.stage == ReceiveAll(START, messages, t)
  {
    var n := |messages| - 1;
    assert messages[..|messages|] == messages == messages[..n] + [messages[n]];
    ReceiveLast(START, messages[..n], messages[n], t);
    var before := ReceiveAll(START, messages[..n], t);
    if before.status == Receiving {
      CompleteEnds(before, messages[n], t);
    }
  }

  /**
    * The two ends have come to what the stage makes of the messages: both are done, or the worker waits in vain for
    * one answer.
    */
  ghost predicate Agree(s: Session, messages: seq<Message>, t: Terms) {
    var end := ReceiveAll(START, messages, t);
    && s.stage.log == end.log && s.stage.acks == end.acks
    && (WorkerDone(s, messages) <==> end.status == Completed)
    && (s.stage.status == Completed <==> end.status == Completed)
    && (end.status != Completed ==> s.sent == s.stage.acks + 1)
  }

  /**
    * Every schedule that comes to rest comes to the same: either both ends succeed, or both fail at the same message.
    */
  lemma {:induction false} EveryScheduleAgrees(turns: seq<Turn>, messages: seq<Message>, t: Terms)
    requires EndsOnce(messages) && Rests(Steps(turns, messages, t), messages, t)
    ensures Agree(Steps(turns, messages, t), messages, t)
  {
    var s := Steps(turns, messages, t);
    EveryScheduleIsInLockstep(turns, messages, t);
    RestingIsReceived(s, messages, t);
    if s.received == |messages| {
      LastMessage(s, messages, t);
    } else {
      ReceiveRest(START, messages, s.received, t);
      EndedStays(s.stage, messages[s.received..], t);
    }
  }

  /** A turn that changes anything sends or receives one message; so at most two turns for each message do. */
  lemma {:induction false} TurnsAreFew(turns: seq<Turn>, turn: Turn, messages: seq<Message>, t: Terms)
    ensures var s := Steps(turns, messages, t); var r := Step(s, turn, messages, t);
            (r == s || r.sent + r.received == s.sent + s.received + 1) && r.sent + r.received <= 2 * |messages|
  {
    EveryScheduleIsInLockstep(turns, messages, t);
    StepInLockstep(Steps(turns, messages, t), turn, messages, t);
  }

  // ----- The repository's own worker -----

  lemma {:induction false} EndsAfter(first: seq<Message>, more: seq<Message>)
    requires EndsOnce(more) && forall i :: 0 <= i < |first| ==> !first[i].Complete?
    ensures EndsOnce(first + more)
  {
    var all := first + more;
    forall i | 0 <= i < |all| - 1 ensures !all[i].Complete? {
      if i >= |first| {
        assert all[i] == more[i - |first|];
      }
    }
  }

  lemma {:induction false} ChunksEnd(index: nat, body: seq<Byte>, offset: nat, size: nat, more: seq<Message>)
    requires size > 0 && EndsOnce(more)
    ensures EndsOnce(ChunksThen(index, body, offset, size, more))
    decreases |body| - offset
  {
    if offset < |body| {
      ChunksEnd(index, body, offset + size, size, more);
      EndsAfter([BodyChunk(index, offset, Base64(body[offset..Min(|body|, offset + size)]))],
                ChunksThen(index, body, offset + size, size, more));
    }
  }

  lemma {:induction false} SentEnds(entries: seq<WorkerEntry>, index: nat, size: nat, digest: string)
    requires index <= |entries| && size > 0
    ensures EndsOnce(SentFrom(entries, index, size, digest))
    decreases |entries| - index
  {
    if index < |entries| {
      var e, after := entries[index], SentFrom(entries, index + 1, size, digest);
      SentEnds(entries, index + 1, size, digest);
      EndsAfter([EndOf(index, e.meta)], after);
      ChunksEnd(index, e.body, 0, size, [EndOf(index, e.meta)] + after);
      EndsAfter([StartOf(index, e.meta)], ChunksThen(index, e.body, 0, size, [EndOf(index, e.meta)] + after));
    }
  }

  /**
    * Worker and stage together: in every schedule that comes to rest both succeed, and the sink has each body
    * exactly.
    */
  lemma {:induction false} LockstepDelivers(worker: seq<WorkerEntry>, size: nat, t: Terms, turns: seq<Turn>)
    requires Serves(worker, size, t)
    requires Rests(Steps(turns, SentFrom(worker, 0, size, t.digest), t), SentFrom(worker, 0, size, t.digest), t)
    ensures var messages := SentFrom(worker, 0, size, t.digest); var s := Steps(turns, messages, t);
            && WorkerDone(s, messages) && s.stage.status == Completed
            && forall i: nat :: i < |worker| ==> Written(s.stage.log, i) == worker[i].body
  {
    SentEnds(worker, 0, size, t.digest);
    EveryScheduleAgrees(turns, SentFrom(worker, 0, size, t.digest), t);
    WorkerIsReceived(worker, size, t);
  }

  function Acks(n: nat): (acks: seq<Byte>)
    ensures |acks| == n && forall i :: 0 <= i < n ==> acks[i] == ACK
  {
    seq(n, _ => ACK)
  }

  /**
    * The two ends' own code, each given what the other sends: they succeed or fail together, whatever the stage
    * expects.
    */
  method RunTogether(worker: seq<WorkerEntry>, size: nat, t: Terms)
    returns (sent: bool, received: bool, stage: StageSession)
    requires size > 0
    ensures fresh(stage) && stage.terms == t && stage.messages == SentFrom(worker, 0, size, t.digest)
    ensures sent == received == (ReceiveAll(START, stage.messages, t).status == Completed)
    ensures Serves(worker, size, t) ==> sent && forall i: nat :: i < |worker| ==>
        Written(stage.log, i) == worker[i].body
  {
    var outgoing := SentFrom(worker, 0, size, t.digest);
    stage := new StageSession(outgoing, t);
    received := stage.RunPassB();
    var end := new WorkerSession(Acks(stage.acks));
    sent := end.SendEntries(worker, size, t.digest);
    SentEnds(worker, 0, size, t.digest);
    FullyAcknowledged(outgoing, t);
  }

  /** All messages of a session are acknowledged exactly when it completes. */
  lemma {:induction false} FullyAcknowledged(messages: seq<Message>, t: Terms)
    requires EndsOnce(messages)
    ensures ReceiveAll(START, messages, t).acks <= |messages|
    ensures ReceiveAll(START, messages, t).acks == |messages| <==> ReceiveAll(START, messages, t).status == Completed
  {
    ReceivedIsOrderly(START, 0, messages, t);
    var n := |messages| - 1;
    assert messages == messages[..n] + [messages[n]];
    ReceivedIsOrderly(START, 0, messages[..n], t);
    ReceiveLast(START, messages[..n], messages[n], t);
    var before := ReceiveAll(START, messages[..n], t);
    if before.status == Receiving {
      CompleteEnds(before, messages[n], t);
    }
  }
}
