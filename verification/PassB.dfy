/** The second pass of the archive worker protocol: the worker's sending loops and the stage's receiving loop. */
module PassB {
  import opened Numbers
  import opened Options
  import opened Framing
  import opened Sequences

  const ACK: Byte := 0x06

  /** What the transcript says of one archive entry. */
  datatype Meta = Meta(
    archivePath: string, relativePath: string, kind: string, declaredSize: nat, observedSize: nat, mode: int,
      bodySha256: string)

  datatype WorkerEntry = WorkerEntry(meta: Meta, body: seq<Byte>)

  /** A chunk's text: the canonical base64 of some bytes, or text of some length that is not canonical base64. */
  datatype Payload = Base64(bytes: seq<Byte>) | NotBase64(length: nat)

  datatype Message =
    | EntryStart(index: int, archivePath: string, relativePath: string, kind: string, declaredSize: int, mode: int)
    | BodyChunk(index: int, offset: int, payload: Payload)
    | EntryEnd(index: int, observedSize: int, bodySha256: string)
    | Complete(entryCount: int, transcriptDigest: string)
    | ErrorMessage

  function EncodedLength(p: Payload): nat {
    match p case Base64(bytes) => (|bytes| + 2) / 3 * 4 case NotBase64(length) => length
  }

  // ----- What the worker sends -----

  /** The chunks of a body from an offset on, followed by more messages. */
  function ChunksThen(index: nat, body: seq<Byte>, offset: nat, size: nat, more: seq<Message>): seq<Message>
    requires size > 0
    decreases |body| - offset
  {
    if offset >= |body| then more
    else
      [BodyChunk(index, offset, Base64(body[offset..Min(|body|, offset + size)]))]
      + ChunksThen(index, body, offset + size, size, more)
  }

  function StartOf(index: nat, m: Meta): Message {
    EntryStart(index, m.archivePath, m.relativePath, m.kind, m.declaredSize, m.mode)
  }

  function EndOf(index: nat, m: Meta): Message {
    EntryEnd(index, m.observedSize, m.bodySha256)
  }

  function SentFrom(entries: seq<WorkerEntry>, index: nat, size: nat, digest: string): seq<Message>
    requires index <= |entries| && size > 0
    decreases |entries| - index
  {
    if index == |entries| then [Complete(|entries|, digest)]
    else
      var e := entries[index];
      [StartOf(index, e.meta)]
      + ChunksThen(index, e.body, 0, size, [EndOf(index, e.meta)] + SentFrom(entries, index + 1, size, digest))
  }

  // ----- What the sink sees -----

  datatype SinkOp = Start(index: nat) | Write(index: nat, offset: nat, bytes: seq<Byte>) | End(index: nat)

  datatype Position = Between(next: nat) | Inside(index: nat, offset: nat) | OutOfOrder

  /** Entries are started in order, written contiguously within their size, and ended only when full. */
  function Follow(p: Position, op: SinkOp, entries: seq<Meta>): Position {
    match op
    case Start(index) => if p == Between(index) && index < |entries| then Inside(index, 0) else OutOfOrder
    case Write(index, offset, bytes) =>
      if p == Inside(index, offset) && index < |entries| && |bytes| > 0
        && offset + |bytes| <= entries[index].declaredSize
      then Inside(index, offset + |bytes|) else OutOfOrder
    case End(index) =>
      if index < |entries| && p == Inside(index, entries[index].declaredSize) then Between(index + 1) else OutOfOrder
  }

  function PositionOf(log: seq<SinkOp>, entries: seq<Meta>): Position {
    if log == [] then Between(0) else Follow(PositionOf(log[..|log| - 1], entries), log[|log| - 1], entries)
  }

  /** The bytes written for an entry, in the order they were written. */
  function Written(log: seq<SinkOp>, index: nat): seq<Byte> {
    if log == [] then []
    else
      var op := log[|log| - 1];
      Written(log[..|log| - 1], index) + if op.Write? && op.index == index then op.bytes else []
  }

  lemma AppendOp(log: seq<SinkOp>, op: SinkOp, entries: seq<Meta>, index: nat)
    ensures PositionOf(log + [op], entries) == Follow(PositionOf(log, entries), op, entries)
    ensures Written(log + [op], index) == Written(log, index) + if op.Write? && op.index == index then op.bytes else []
  {
    assert (log + [op])[..|log|] == log;
  }

  /**
    * In an orderly log each finished entry has exactly its declared size, the open one its offset, and the others
    * nothing.
    */
  lemma {:induction false} OrderlySizes(log: seq<SinkOp>, entries: seq<Meta>, index: nat)
    requires !PositionOf(log, entries).OutOfOrder? && index < |entries|
    ensures match PositionOf(log, entries)
            case Between(next) => |Written(log, index)| == if index < next then entries[index].declaredSize else 0
            case Inside(open, offset) =>
              |Written(log, index)| == if index < open then entries[index].declaredSize
                else if index == open then offset else 0
            case OutOfOrder => true
    decreases |log|
  {
    if log != [] {
      OrderlySizes(log[..|log| - 1], entries, index);
    }
  }

  lemma OneMoreWrite(log: seq<SinkOp>, index: nat, offset: nat, bytes: seq<Byte>, entries: seq<Meta>)
    ensures PositionOf(log + [Write(index, offset, bytes)], entries)
         == Follow(PositionOf(log, entries), Write(index, offset, bytes), entries)
    ensures Written(log + [Write(index, offset, bytes)], index) == Written(log, index) + bytes
    ensures forall i: nat :: i != index ==> Written(log + [Write(index, offset, bytes)], i) == Written(log, i)
  {
    AppendOp(log, Write(index, offset, bytes), entries, index);
    forall i: nat | i != index ensures Written(log + [Write(index, offset, bytes)], i) == Written(log, i) {
      AppendOp(log, Write(index, offset, bytes), entries, i);
    }
  }

  lemma NoWrite(log: seq<SinkOp>, op: SinkOp, entries: seq<Meta>)
    requires !op.Write?
    ensures PositionOf(log + [op], entries) == Follow(PositionOf(log, entries), op, entries)
    ensures forall i: nat :: Written(log + [op], i) == Written(log, i)
  {
    AppendOp(log, op, entries, 0);
    forall i: nat ensures Written(log + [op], i) == Written(log, i) {
      AppendOp(log, op, entries, i);
    }
  }

  // ----- What the stage makes of each message -----

  /** What the stage expects of a session, and whether its sink accepts its n-th operation. */
  datatype Terms = Terms(entries: seq<Meta>, maxChunk: nat, digest: string, accepts: nat -> bool)

  datatype Status = Receiving | Completed | Broken

  datatype Stage = Stage(log: seq<SinkOp>, acks: nat, status: Status)

  const START := Stage([], 0, Receiving)

  /** A chunk of this entry at this offset, within the size of a chunk and of the entry. */
  predicate ChunkFits(m: Message, index: nat, offset: nat, t: Terms)
    requires index < |t.entries|
  {
    && m.BodyChunk? && m.index == index && m.offset == offset
    && EncodedLength(m.payload) <= (t.maxChunk + 2) / 3 * 4 && m.payload.Base64?
    && 0 < |m.payload.bytes| && offset + |m.payload.bytes| <= t.entries[index].declaredSize
  }

  /** The operation a message is handed on as; nothing when it is not the one expected here. */
  function OperationOf(p: Position, m: Message, t: Terms): Option<SinkOp> {
    match p
    case Between(index) =>
      if index < |t.entries| && m == StartOf(index, t.entries[index]) then Some(Start(index)) else None
    case Inside(index, offset) =>
      if index >= |t.entries| then None
      else if offset < t.entries[index].declaredSize then
        if ChunkFits(m, index, offset, t) then Some(Write(index, offset, m.payload.bytes)) else None
      else if m == EndOf(index, t.entries[index]) then Some(End(index)) else None
    case OutOfOrder => None
  }

  /** One message: the sink's operation and then the acknowledgement, or the end of the session. */
  function Receive(s: Stage, m: Message, t: Terms): Stage {
    if s.status != Receiving then s.(status := Broken)
    else
      var p := PositionOf(s.log, t.entries);
      if p == Between(|t.entries|) then
        if m == Complete(|t.entries|, t.digest) then s.(acks := s.acks + 1, status := Completed)
          else s.(status := Broken)
      else match OperationOf(p, m, t)
           case None => s.(status := Broken)
           case Some(op) =>
             if t.accepts(|s.log|) then Stage(s.log + [op], s.acks + 1, Receiving) else s.(status := Broken)
  }

  function ReceiveAll(s: Stage, messages: seq<Message>, t: Terms): Stage
    decreases |messages|
  {
    if messages == [] then s else ReceiveAll(Receive(s, messages[0], t), messages[1..], t)
  }

  lemma {:induction false} EndedStays(s: Stage, messages: seq<Message>, t: Terms)
    requires s.status != Receiving
    ensures ReceiveAll(s, messages, t).log == s.log && ReceiveAll(s, messages, t).acks == s.acks
    ensures ReceiveAll(s, messages, t).status == Completed <==> s.status == Completed && messages == []
    decreases |messages|
  {
    if messages != [] {
      EndedStays(Receive(s, messages[0], t), messages[1..], t);
    }
  }

  /** A stage whose operations are in order, with no more acknowledgements than messages. */
  ghost predicate Orderly(s: Stage, received: nat, t: Terms) {
    && !PositionOf(s.log, t.entries).OutOfOrder? && s.acks <= received
    && (s.status == Receiving ==> s.acks == received)
    && (s.status == Completed ==> s.acks == received && PositionOf(s.log, t.entries) == Between(|t.entries|))
  }

  lemma {:induction false} ReceiveIsOrderly(s: Stage, received: nat, m: Message, t: Terms)
    requires Orderly(s, received, t)
    ensures Orderly(Receive(s, m, t), received + 1, t)
  {
    var p := PositionOf(s.log, t.entries);
    if s.status == Receiving && p != Between(|t.entries|) && OperationOf(p, m, t).Some? {
      AppendOp(s.log, OperationOf(p, m, t).value, t.entries, 0);
    }
  }

  /**
    * Against any messages and any sink, operations stay in order, and completion means every entry is full and every
    * message acknowledged.
    */
  lemma {:induction false} ReceivedIsOrderly(s: Stage, received: nat, messages: seq<Message>, t: Terms)
    requires Orderly(s, received, t)
    ensures Orderly(ReceiveAll(s, messages, t), received + |messages|, t)
    decreases |messages|
  {
    if messages != [] {
      ReceiveIsOrderly(s, received, messages[0], t);
      ReceivedIsOrderly(Receive(s, messages[0], t), received + 1, messages[1..], t);
    }
  }

  // ----- What the stage makes of the worker's messages -----

  lemma ReceiveFirst(s: Stage, m: Message, more: seq<Message>, t: Terms)
    ensures ReceiveAll(s, [m] + more, t) == ReceiveAll(Receive(s, m, t), more, t)
  {
    assert ([m] + more)[1..] == more;
  }

  /** The stage goes on with these bytes of an entry delivered, at this place, after so many more messages. */
  ghost predicate Delivered(s: Stage, r: Stage, index: nat, bytes: seq<Byte>, p: Position, count: int, t: Terms) {
    && r.status == Receiving && PositionOf(r.log, t.entries) == p && r.acks == s.acks + count
    && Written(r.log, index) == Written(s.log, index) + bytes
    && forall i: nat :: i != index ==> Written(r.log, i) == Written(s.log, i)
  }

  /** The chunk sent first, and what is sent after it. */
  lemma NextChunk(index: nat, body: seq<Byte>, offset: nat, size: nat, more: seq<Message>)
    requires size > 0 && offset < |body|
    ensures var end := Min(|body|, offset + size);
            && offset < end <= |body| && end - offset <= size
            && ChunksThen(index, body, offset, size, more) ==
               [BodyChunk(index, offset, Base64(body[offset..end]))] + ChunksThen(index, body, end, size, more)
  {
  }

  lemma {:induction false} ChunkReceived(s: Stage, index: nat, offset: nat, bytes: seq<Byte>, t: Terms)
    requires s.status == Receiving && index < |t.entries| && PositionOf(s.log, t.entries) == Inside(index, offset)
    requires 0 < |bytes| <= t.maxChunk && offset + |bytes| <= t.entries[index].declaredSize && t.accepts(|s.log|)
    ensures var r := Receive(s, BodyChunk(index, offset, Base64(bytes)), t);
            Delivered(s, r, index, bytes, Inside(index, offset + |bytes|), 1, t)
  {
    OneMoreWrite(s.log, index, offset, bytes, t.entries);
  }

  /** Bytes delivered one after the other. */
  lemma DeliveredAfter(s: Stage, q: Stage, r: Stage, index: nat, first: seq<Byte>, later: seq<Byte>, p: Position,
                       end: Position, some: int, count: int, t: Terms)
    requires Delivered(s, q, index, first, p, some, t) && Delivered(q, r, index, later, end, count, t)
    ensures Delivered(s, r, index, first + later, end, some + count, t)
  {
    Regroup(Written(s.log, index), first, later);
  }

  lemma {:induction false} ChunksReceived(s: Stage, index: nat, body: seq<Byte>, offset: nat, size: nat,
                                          more: seq<Message>, t: Terms)
    returns (r: Stage)
    requires s.status == Receiving && index < |t.entries| && PositionOf(s.log, t.entries) == Inside(index, offset)
    requires 0 < size <= t.maxChunk && offset <= |body| == t.entries[index].declaredSize && forall n :: t.accepts(n)
    ensures ReceiveAll(s, ChunksThen(index, body, offset, size, more), t) == ReceiveAll(r, more, t)
    ensures Delivered(s, r, index, body[offset..], Inside(index, |body|),
                      |ChunksThen(index, body, offset, size, more)| - |more|, t)
    decreases |body| - offset
  {
    if offset >= |body| {
      EmptyConcat(Written(s.log, index));
      return s;
    }
    NextChunk(index, body, offset, size, more);
    var end := Min(|body|, offset + size);
    var m, rest := BodyChunk(index, offset, Base64(body[offset..end])), ChunksThen(index, body, end, size, more);
    ChunkReceived(s, index, offset, body[offset..end], t);
    ReceiveFirst(s, m, rest, t);
    r := ChunksReceived(Receive(s, m, t), index, body, end, size, more, t);
    DeliveredAfter(s, Receive(s, m, t), r, index, body[offset..end], body[end..], Inside(index, end),
                   Inside(index, |body|), 1, |rest| - |more|, t);
    assert body[offset..] == body[offset..end] + body[end..];
  }

  lemma {:induction false} MarkReceived(s: Stage, m: Message, op: SinkOp, t: Terms)
    requires s.status == Receiving && !op.Write? && forall n :: t.accepts(n)
    requires PositionOf(s.log, t.entries) != Between(|t.entries|)
        && OperationOf(PositionOf(s.log, t.entries), m, t) == Some(op)
    ensures Receive(s, m, t) == Stage(s.log + [op], s.acks + 1, Receiving)
    ensures PositionOf(s.log + [op], t.entries) == Follow(PositionOf(s.log, t.entries), op, t.entries)
    ensures forall i: nat :: Written(s.log + [op], i) == Written(s.log, i)
  {
    NoWrite(s.log, op, t.entries);
  }

  /** The messages of one entry, followed by more. */
  function EntryThen(index: nat, e: WorkerEntry, size: nat, more: seq<Message>): seq<Message>
    requires size > 0
  {
    [StartOf(index, e.meta)] + ChunksThen(index, e.body, 0, size, [EndOf(index, e.meta)] + more)
  }

  lemma {:induction false} EntryReceived(s: Stage, index: nat, e: WorkerEntry, size: nat, more: seq<Message>, t: Terms)
    returns (r: Stage)
    requires s.status == Receiving && index < |t.entries| && PositionOf(s.log, t.entries) == Between(index)
    requires 0 < size <= t.maxChunk && e.meta == t.entries[index] && |e.body| == e.meta.declaredSize
        && forall n :: t.accepts(n)
    ensures ReceiveAll(s, EntryThen(index, e, size, more), t) == ReceiveAll(r, more, t)
    ensures Delivered(s, r, index, e.body, Between(index + 1), |EntryThen(index, e, size, more)| - |more|, t)
  {
    var end := EndOf(index, e.meta);
    var chunks := ChunksThen(index, e.body, 0, size, [end] + more);
    MarkReceived(s, StartOf(index, e.meta), Start(index), t);
    ReceiveFirst(s, StartOf(index, e.meta), chunks, t);
    var full := ChunksReceived(Receive(s, StartOf(index, e.meta), t), index, e.body, 0, size, [end] + more, t);
    MarkReceived(full, end, End(index), t);
    ReceiveFirst(full, end, more, t);
    assert e.body[0..] == e.body;
    r := Receive(full, end, t);
  }

  /** The stage expects just this worker's entries, and its sink accepts everything. */
  ghost predicate Serves(worker: seq<WorkerEntry>, size: nat, t: Terms) {
    && 0 < size <= t.maxChunk && |worker| == |t.entries| && (forall n :: t.accepts(n))
    && forall i :: 0 <= i < |worker| ==> worker[i].meta == t.entries[i] && |worker[i].body| == t.entries[i].declaredSize
  }

  /**
    * From this stage on the session completes, with the bodies from `index` on delivered and so many messages
    * acknowledged.
    */
  ghost predicate Completes(s: Stage, r: Stage, worker: seq<WorkerEntry>, index: nat, count: int) {
    && r.status == Completed && r.acks == s.acks + count
    && forall i: nat :: i < |worker| ==>
       Written(r.log, i) == Written(s.log, i) + if i < index then [] else worker[i].body
  }

  lemma {:induction false} NothingMore(s: Stage, r: Stage, worker: seq<WorkerEntry>)
    requires r.status == Completed && r.log == s.log && r.acks == s.acks + 1
    ensures Completes(s, r, worker, |worker|, 1)
  {
    forall i: nat | i < |worker| ensures Written(s.log, i) == Written(s.log, i) + [] {
      EmptyConcat(Written(s.log, i));
    }
  }

  lemma {:induction false} OneMoreEntry(s: Stage, q: Stage, r: Stage, worker: seq<WorkerEntry>, index: nat, count: int,
                                        p: Position,
                                        some: int, t: Terms)
    requires index < |worker| && Delivered(s, q, index, worker[index].body, p, some, t)
        && Completes(q, r, worker, index + 1, count)
    ensures Completes(s, r, worker, index, some + count)
  {
    forall i: nat | i < |worker| ensures Written(r.log, i) == Written(s.log, i) + if i < index then []
      else worker[i].body {
      EmptyConcat(Written(q.log, i));
    }
  }

  lemma {:induction false} CompletionReceived(s: Stage, worker: seq<WorkerEntry>, size: nat, t: Terms)
    requires Serves(worker, size, t) && s.status == Receiving
    requires PositionOf(s.log, t.entries) == Between(|worker|)
    ensures Completes(s, ReceiveAll(s, SentFrom(worker, |worker|, size, t.digest), t), worker, |worker|, 1)
    ensures |SentFrom(worker, |worker|, size, t.digest)| == 1
  {
    var last := Complete(|worker|, t.digest);
    ReceiveFirst(s, last, [], t);
    EmptyConcat([last]);
    assert SentFrom(worker, |worker|, size, t.digest) == [last];
    NothingMore(s, Receive(s, last, t), worker);
  }

  lemma {:induction false} RestReceived(s: Stage, worker: seq<WorkerEntry>, index: nat, size: nat, t: Terms)
    requires Serves(worker, size, t) && index <= |worker|
    requires s.status == Receiving && PositionOf(s.log, t.entries) == Between(index)
    ensures Completes(s, ReceiveAll(s, SentFrom(worker, index, size, t.digest), t), worker, index,
                      |SentFrom(worker, index, size, t.digest)|)
    decreases |worker| - index
  {
    if index == |worker| {
      CompletionReceived(s, worker, size, t);
    } else {
      var more := SentFrom(worker, index + 1, size, t.digest);
      assert SentFrom(worker, index, size, t.digest) == EntryThen(index, worker[index], size, more);
      var q := EntryReceived(s, index, worker[index], size, more, t);
      RestReceived(q, worker, index + 1, size, t);
      var some := |SentFrom(worker, index, size, t.digest)| - |more|;
      OneMoreEntry(s, q, ReceiveAll(q, more, t), worker, index, |more|, Between(index + 1), some, t);
    }
  }

  /**
    * Against the repository's own worker every message is acknowledged, the session completes, and each body is
    * delivered exactly.
    */
  lemma {:induction false} WorkerIsReceived(worker: seq<WorkerEntry>, size: nat, t: Terms)
    requires Serves(worker, size, t)
    ensures var r := ReceiveAll(START, SentFrom(worker, 0, size, t.digest), t);
            && r.status == Completed && r.acks == |SentFrom(worker, 0, size, t.digest)|
            && forall i: nat :: i < |worker| ==> Written(r.log, i) == worker[i].body
  {
    RestReceived(START, worker, 0, size, t);
    forall i: nat | i < |worker| ensures [] + worker[i].body == worker[i].body {
    }
  }

  // ----- The worker's loops -----

  predicate Acknowledged(acks: seq<Byte>, n: nat) {
    n <= |acks| && forall i :: 0 <= i < n ==> acks[i] == ACK
  }

  /** The worker's end of a session: what it has sent, and the acknowledgements it will read. */
  class WorkerSession {
    var sent: seq<Message>
    const acks: seq<Byte>

    constructor (acks: seq<Byte>)
      ensures this.acks == acks && sent == []
    {
      this.acks, sent := acks, [];
    }

    /** Every message sent so far has been acknowledged, and together with `more` they are the whole session. */
    ghost predicate InStep(all: seq<Message>, more: seq<Message>)
      reads this
    {
      sent + more == all && Acknowledged(acks, |sent|)
    }

    /** A message was sent and its acknowledgement is missing or wrong. */
    ghost predicate Stuck(all: seq<Message>)
      reads this
    {
      sent <= all && sent != [] && Acknowledged(acks, |sent| - 1) && !Acknowledged(acks, |sent|)
    }

    method SendFrame(m: Message, ghost all: seq<Message>, ghost more: seq<Message>) returns (ok: bool)
      requires InStep(all, [m] + more)
      modifies this
      ensures if ok then InStep(all, more) else Stuck(all)
    {
      Regroup(sent, [m], more);
      sent := sent + [m];
      var ack := |sent| - 1;
      ok := ack < |acks| && acks[ack] == ACK;
    }

    method SendBody(index: nat, body: seq<Byte>, size: nat, ghost all: seq<Message>, ghost more: seq<Message>)
      returns (ok: bool)
      requires size > 0 && InStep(all, ChunksThen(index, body, 0, size, more))
      modifies this
      ensures if ok then InStep(all, more) else Stuck(all)
    {
      var offset := 0;
      while offset < |body|
        invariant 0 <= offset && InStep(all, ChunksThen(index, body, offset, size, more))
        decreases |body| - offset
      {
        var chunk := body[offset..Min(|body|, offset + size)];
        ok := SendFrame(BodyChunk(index, offset, Base64(chunk)), all,
                        ChunksThen(index, body, offset + size, size, more));
        if !ok {
          return;
        }
        offset := offset + size;
      }
      return true;
    }

    /** Sends the whole session in lockstep: it finishes exactly when every message is acknowledged in turn. */
    method SendEntries(entries: seq<WorkerEntry>, size: nat, digest: string) returns (ok: bool)
      requires size > 0 && sent == []
      modifies this
      ensures ok <==> Acknowledged(acks, |SentFrom(entries, 0, size, digest)|)
      ensures if ok then sent == SentFrom(entries, 0, size, digest) else Stuck(SentFrom(entries, 0, size, digest))
    {
      ghost var all := SentFrom(entries, 0, size, digest);
      EmptyConcat(all);
      for index := 0 to |entries|
        invariant InStep(all, SentFrom(entries, index, size, digest))
      {
        var e := entries[index];
        ghost var after := SentFrom(entries, index + 1, size, digest);
        ghost var chunks := ChunksThen(index, e.body, 0, size, [EndOf(index, e.meta)] + after);
        ok := SendFrame(StartOf(index, e.meta), all, chunks);
        if !ok {
          return;
        }
        ok := SendBody(index, e.body, size, all, [EndOf(index, e.meta)] + after);
        if !ok {
          return;
        }
        ok := SendFrame(EndOf(index, e.meta), all, after);
        if !ok {
          return;
        }
      }
      EmptyConcat([Complete(|entries|, digest)]);
      ok := SendFrame(Complete(|entries|, digest), all, []);
      EmptyConcat(sent);
    }
  }

  // ----- The stage's loops -----

  /** The stage's end of one session: messages in, acknowledgements and sink operations out. */
  class StageSession {
    const messages: seq<Message>
    const terms: Terms
    var next: nat
    var acks: nat
    var log: seq<SinkOp>

    constructor (messages: seq<Message>, terms: Terms)
      ensures this.messages == messages && this.terms == terms && next == 0 && acks == 0 && log == []
    {
      this.messages, this.terms, next, acks, log := messages, terms, 0, 0, [];
    }

    ghost predicate Valid()
      reads this
    {
      next <= |messages| && acks <= next && !PositionOf(log, terms.entries).OutOfOrder?
    }

    /** Every message received so far has been acknowledged, at this place of the session. */
    ghost predicate At(p: Position)
      reads this
    {
      Valid() && acks == next && PositionOf(log, terms.entries) == p
    }

    /** What the session comes to, as far as the messages still to come decide it. */
    ghost function Outcome(): Stage
      requires next <= |messages|
      reads this
    {
      ReceiveAll(Stage(log, acks, Receiving), messages[next..], terms)
    }

    /** The session has come to this and goes no further. */
    ghost predicate Stopped(end: Stage)
      reads this
    {
      end.log == log && end.acks == acks && end.status != Completed
    }

    method NextFrame() returns (m: Option<Message>)
      requires Valid()
      modifies this`next
      ensures Valid()
      ensures m.Some? <==> old(next) < |messages|
      ensures m.Some? ==> m.value == messages[old(next)] && next == old(next) + 1
      ensures m.Some? ==> old(Outcome()) == ReceiveAll(Receive(Stage(log, acks, Receiving), m.value, terms),
                                                       messages[next..], terms)
      ensures m.None? ==> next == old(next) && Stopped(old(Outcome()))
    {
      if next == |messages| {
        return None;
      }
      assert messages[next..][1..] == messages[next + 1..];
      next := next + 1;
      return Some(messages[next - 1]);
    }

    method Acknowledge()
      requires Valid() && acks < next
      modifies this`acks
      ensures Valid() && acks == old(acks) + 1
    {
      acks := acks + 1;
    }

    /** Hands one operation to the sink, which may refuse it. */
    method Emit(op: SinkOp) returns (ok: bool)
      requires Valid() && !Follow(PositionOf(log, terms.entries), op, terms.entries).OutOfOrder?
      modifies this`log
      ensures Valid() && ok == terms.accepts(|old(log)|)
      ensures log == if ok then old(log) + [op] else old(log)
      ensures ok ==> PositionOf(log, terms.entries) == Follow(old(PositionOf(log, terms.entries)), op, terms.entries)
    {
      AppendOp(log, op, terms.entries, 0);
      ok := terms.accepts(|log|);
      if ok {
        log := log + [op];
      }
    }

    /** Hands the operation of a received message to the sink, and acknowledges the message. */
    method HandOn(m: Message, op: SinkOp) returns (ok: bool)
      requires Valid() && next == acks + 1 && PositionOf(log, terms.entries) != Between(|terms.entries|)
      requires OperationOf(PositionOf(log, terms.entries), m, terms) == Some(op)
      modifies this`acks, this`log
      ensures Valid()
      ensures ok ==> acks == next && Receive(old(Stage(log, acks, Receiving)), m, terms) == Stage(log, acks, Receiving)
      ensures ok ==> PositionOf(log, terms.entries) == Follow(old(PositionOf(log, terms.entries)), op, terms.entries)
      ensures !ok ==> Receive(old(Stage(log, acks, Receiving)), m, terms) == Stage(log, acks, Broken)
    {
      ok := Emit(op);
      if ok {
        Acknowledge();
      }
    }

    /** At this place just this message is expected, and handed on as this operation. */
    ghost predicate Expects(expected: Message, op: SinkOp)
      reads this
    {
      && PositionOf(log, terms.entries) != Between(|terms.entries|)
      && forall m :: OperationOf(PositionOf(log, terms.entries), m, terms) == if m == expected then Some(op) else None
    }

    /**
      * Receives one message, checks that it is the one expected, hands its operation to the sink, and acknowledges
      * it.
      */
    method Expect(expected: Message, op: SinkOp) returns (ok: bool)
      requires Valid() && acks == next && Expects(expected, op)
      modifies this`next, this`acks, this`log
      ensures Valid()
      ensures ok ==> At(Follow(old(PositionOf(log, terms.entries)), op, terms.entries)) && Outcome() == old(Outcome())
      ensures !ok ==> Stopped(old(Outcome()))
    {
      var m := NextFrame();
      if m.None? {
        return false;
      }
      ghost var received := Receive(Stage(log, acks, Receiving), m.value, terms);
      if m.value != expected {
        EndedStays(received, messages[next..], terms);
        return false;
      }
      ok := HandOn(m.value, op);
      if !ok {
        EndedStays(received, messages[next..], terms);
      }
    }

    /** Receives one chunk at the given offset and writes its bytes. */
    method ReceiveChunk(index: nat, offset: nat) returns (ok: bool, length: nat)
      requires index < |terms.entries| && At(Inside(index, offset)) && offset < terms.entries[index].declaredSize
      modifies this`next, this`acks, this`log
      ensures Valid()
      ensures ok ==> length > 0 && offset + length <= terms.entries[index].declaredSize
                     && At(Inside(index, offset + length))
      ensures ok ==> Outcome() == old(Outcome())
      ensures !ok ==> Stopped(old(Outcome()))
    {
      var m := NextFrame();
      if m.None? {
        return false, 0;
      }
      ghost var received := Receive(Stage(log, acks, Receiving), m.value, terms);
      if !ChunkFits(m.value, index, offset, terms) {
        EndedStays(received, messages[next..], terms);
        return false, 0;
      }
      length := |m.value.payload.bytes|;
      ok := HandOn(m.value, Write(index, offset, m.value.payload.bytes));
      if !ok {
        EndedStays(received, messages[next..], terms);
      }
    }

    /** Receives a body chunk by chunk until the declared size is reached. */
    method ReceiveBody(index: nat) returns (ok: bool)
      requires index < |terms.entries| && At(Inside(index, 0))
      modifies this`next, this`acks, this`log
      ensures Valid()
      ensures ok ==> At(Inside(index, terms.entries[index].declaredSize)) && Outcome() == old(Outcome())
      ensures !ok ==> Stopped(old(Outcome()))
    {
      var offset := 0;
      while offset < terms.entries[index].declaredSize
        invariant 0 <= offset <= terms.entries[index].declaredSize
        invariant At(Inside(index, offset)) && Outcome() == old(Outcome())
        decreases terms.entries[index].declaredSize - offset
      {
        var received, length := ReceiveChunk(index, offset);
        if !received {
          return false;
        }
        offset := offset + length;
      }
      return true;
    }

    method ReceiveEntry(index: nat) returns (ok: bool)
      requires index < |terms.entries| && At(Between(index))
      modifies this`next, this`acks, this`log
      ensures Valid()
      ensures ok ==> At(Between(index + 1)) && Outcome() == old(Outcome())
      ensures !ok ==> Stopped(old(Outcome()))
    {
      ok := Expect(StartOf(index, terms.entries[index]), Start(index));
      if !ok {
        return;
      }
      ok := ReceiveBody(index);
      if !ok {
        return;
      }
      ok := Expect(EndOf(index, terms.entries[index]), End(index));
    }

    /**
      * The whole pass: whatever the messages and the sink, it comes to what they make of the session. So the sink
      * sees an orderly log, complete when the pass succeeds, and from the worker's own loops every body exactly.
      */
    method RunPassB() returns (ok: bool)
      requires next == 0 && acks == 0 && log == []
      modifies this`next, this`acks, this`log
      ensures log == ReceiveAll(START, messages, terms).log && acks == ReceiveAll(START, messages, terms).acks
      ensures ok <==> ReceiveAll(START, messages, terms).status == Completed
      ensures Valid()
      ensures ok ==> PositionOf(log, terms.entries) == Between(|terms.entries|) && acks == next == |messages|
      ensures forall worker: seq<WorkerEntry>, size: nat ::
                Serves(worker, size, terms) && messages == SentFrom(worker, 0, size, terms.digest) ==>
                  ok && forall i: nat :: i < |worker| ==> Written(log, i) == worker[i].body
    {
      assert messages[0..] == messages;
      ghost var end := ReceiveAll(START, messages, terms);
      forall worker: seq<WorkerEntry>, size: nat | Serves(worker, size, terms)
        && messages == SentFrom(worker, 0, size, terms.digest)
        ensures end.status == Completed && forall i: nat :: i < |worker| ==> Written(end.log, i) == worker[i].body {
        WorkerIsReceived(worker, size, terms);
      }
      for index := 0 to |terms.entries|
        invariant At(Between(index)) && Outcome() == end
      {
        var received := ReceiveEntry(index);
        if !received {
          return false;
        }
      }
      var last := NextFrame();
      if last.None? {
        return false;
      }
      EndedStays(Receive(Stage(log, acks, Receiving), last.value, terms), messages[next..], terms);
      if last.value != Complete(|terms.entries|, terms.digest) {
        return false;
      }
      Acknowledge();
      return next == |messages|;
    }
  }
}
