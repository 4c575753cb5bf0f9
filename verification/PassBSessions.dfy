/** Which sessions of the second pass complete, whoever sends them, and what they deliver. */
module PassBSessions {
  import opened Numbers
  import opened Options
  import opened Sequences
  import opened Framing
  import opened PassB

  // ----- A session that delivers each body in chunks -----

  type Chunks = seq<seq<Byte>>

  /** The chunks of an entry's body put together. */
  function Joined(chunks: Chunks): seq<Byte> {
    if chunks == [] then [] else chunks[0] + Joined(chunks[1..])
  }

  /** The messages of some chunks, each at the offset where the chunks before it end. */
  function ChunkMessages(index: nat, offset: nat, chunks: Chunks): seq<Message>
    decreases |chunks|
  {
    if chunks == [] then []
    else [BodyChunk(index, offset, Base64(chunks[0]))] + ChunkMessages(index, offset + |chunks[0]|, chunks[1..])
  }

  /** The rest of an open entry, its end, and then the further entries. */
  function Open(index: nat, offset: nat, first: Chunks, later: seq<Chunks>, t: Terms): seq<Message>
    requires index + 1 + |later| == |t.entries|
    decreases |later|, 1
  {
    var m := t.entries[index];
    ChunkMessages(index, offset, first)
    + ([EntryEnd(index, m.observedSize, m.bodySha256)] + Session(index + 1, later, t))
  }

  /** Each entry from `index` on is announced, sent chunk by chunk, and ended; then the completion. */
  function Session(index: nat, cut: seq<Chunks>, t: Terms): seq<Message>
    requires index + |cut| == |t.entries|
    decreases |cut|, 0
  {
    if cut == [] then [Complete(|t.entries|, t.digest)]
    else
      var m := t.entries[index];
      [EntryStart(index, m.archivePath, m.relativePath, m.kind, m.declaredSize, m.mode)]
      + Open(index, 0, cut[0], cut[1..], t)
  }

  /** A body of this size, cut into chunks that are not empty and whose base64 text is within the bound. */
  ghost predicate Cuts(chunks: Chunks, size: int, max: nat) {
    |Joined(chunks)| == size && forall c :: c in chunks ==> 0 < |c| <= (max + 2) / 3 * 3
  }

  /** The chunks of the entries from `index` on. */
  ghost predicate CutsFrom(cut: seq<Chunks>, index: nat, t: Terms) {
    && index + |cut| == |t.entries|
    && forall i :: 0 <= i < |cut| ==> Cuts(cut[i], t.entries[index + i].declaredSize, t.maxChunk)
  }

  /** The sink takes every operation of a session of so many messages, the first of which is handed on as its n-th. */
  ghost predicate TakesAll(n: nat, messages: nat, t: Terms) {
    forall k: nat :: n <= k < n + messages - 1 ==> t.accepts(k)
  }

  // ----- The rest of a session -----

  /** The messages are the rest of a session from this place on, with these chunks for the open and later entries. */
  ghost predicate Sends(p: Position, messages: seq<Message>, first: Chunks, later: seq<Chunks>, t: Terms) {
    match p
    case Between(index) => first == [] && CutsFrom(later, index, t) && messages == Session(index, later, t)
    case Inside(index, offset) =>
      && CutsFrom(later, index + 1, t) && Cuts(first, t.entries[index].declaredSize - offset, t.maxChunk)
      && messages == Open(index, offset, first, later, t)
    case OutOfOrder => false
  }

  /** What the chunks from this place on add to the body of an entry. */
  function Adds(p: Position, first: Chunks, later: seq<Chunks>, i: nat): seq<Byte> {
    match p
    case Between(index) => if index <= i < index + |later| then Joined(later[i - index]) else []
    case Inside(index, _) =>
      if i == index then Joined(first) else if index < i <= index + |later| then Joined(later[i - index - 1]) else []
    case OutOfOrder => []
  }

  /** What an operation writes for an entry. */
  function Given(op: SinkOp, i: nat): seq<Byte> {
    if op.Write? && op.index == i then op.bytes else []
  }

  lemma BoundOfText(length: nat, max: nat)
    ensures (length + 2) / 3 * 4 <= (max + 2) / 3 * 4 <==> length <= (max + 2) / 3 * 3
  {
  }

  lemma DropFirst(m: Message, more: seq<Message>)
    ensures ([m] + more)[1..] == more
  {
  }

  // ----- One message of a session -----

  lemma LaterCuts(cut: seq<Chunks>, index: nat, t: Terms)
    requires cut != [] && index + |cut| == |t.entries|
    ensures CutsFrom(cut, index, t) <==>
            Cuts(cut[0], t.entries[index].declaredSize, t.maxChunk) && CutsFrom(cut[1..], index + 1, t)
  {
    if Cuts(cut[0], t.entries[index].declaredSize, t.maxChunk) && CutsFrom(cut[1..], index + 1, t) {
      forall i | 0 <= i < |cut| ensures Cuts(cut[i], t.entries[index + i].declaredSize, t.maxChunk) {
        if i > 0 {
          assert Cuts(cut[1..][i - 1], t.entries[index + 1 + (i - 1)].declaredSize, t.maxChunk);
        }
      }
    }
    if CutsFrom(cut, index, t) {
      assert Cuts(cut[0], t.entries[index + 0].declaredSize, t.maxChunk);
      forall i | 0 <= i < |cut[1..]| ensures Cuts(cut[1..][i], t.entries[index + 1 + i].declaredSize, t.maxChunk) {
        assert Cuts(cut[i + 1], t.entries[index + (i + 1)].declaredSize, t.maxChunk);
      }
    }
  }

  lemma FirstCuts(chunks: Chunks, size: int, max: nat)
    requires chunks != []
    ensures Cuts(chunks, size, max) <==>
            0 < |chunks[0]| <= (max + 2) / 3 * 3 && Cuts(chunks[1..], size - |chunks[0]|, max)
  {
  }

  lemma CutsAreSized(chunks: Chunks, size: int, max: nat)
    requires Cuts(chunks, size, max)
    ensures size >= 0
  {
  }

  lemma FirstOpen(index: nat, offset: nat, first: Chunks, later: seq<Chunks>, t: Terms)
    requires first != [] && index + 1 + |later| == |t.entries|
    ensures Open(index, offset, first, later, t) == [BodyChunk(index, offset, Base64(first[0]))]
                                                    + Open(index, offset + |first[0]|, first[1..], later, t)
  {
  }

  lemma ChunkIsHandedOn(index: nat, offset: nat, bytes: seq<Byte>, t: Terms)
    requires index < |t.entries| && 0 < |bytes| <= (t.maxChunk + 2) / 3 * 3
    requires offset + |bytes| <= t.entries[index].declaredSize
    ensures OperationOf(Inside(index, offset), BodyChunk(index, offset, Base64(bytes)), t)
         == Some(Write(index, offset, bytes))
  {
    BoundOfText(|bytes|, t.maxChunk);
  }

  /** What is left of the chunks after an operation that leads from one place to another. */
  ghost predicate Leaves(p: Position, q: Position, op: SinkOp, first: Chunks, later: seq<Chunks>, chunks: Chunks,
                         more: seq<Chunks>) {
    match op
    case Start(index) =>
      p == Between(index) && q == Inside(index, 0) && first == [] && later == [chunks] + more
    case Write(index, offset, bytes) =>
      p == Inside(index, offset) && q == Inside(index, offset + |bytes|) && first == [bytes] + chunks && later == more
    case End(index) =>
      p.Inside? && p.index == index && q == Between(index + 1) && first == chunks == [] && later == more
  }

  /** What the chunks add is what the operation writes and what the remaining chunks add after it. */
  lemma LeftAddsUp(p: Position, q: Position, op: SinkOp, first: Chunks, later: seq<Chunks>, chunks: Chunks,
                   more: seq<Chunks>, i: nat)
    requires Leaves(p, q, op, first, later, chunks, more)
    ensures Adds(p, first, later, i) == Given(op, i) + Adds(q, chunks, more, i)
  {
    if op.Write? {
      assert first[1..] == chunks;
    }
  }

  /** The first message is handed on as this operation, and the others send the remaining chunks from there. */
  ghost predicate HandsOn(p: Position, q: Position, messages: seq<Message>, op: SinkOp, first: Chunks,
                          later: seq<Chunks>, chunks: Chunks, more: seq<Chunks>, t: Terms) {
    && messages != [] && OperationOf(p, messages[0], t) == Some(op) && Follow(p, op, t.entries) == q
    && Sends(q, messages[1..], chunks, more, t) && Leaves(p, q, op, first, later, chunks, more)
  }

  lemma StartIsHandedOn(index: nat, messages: seq<Message>, cut: seq<Chunks>, t: Terms)
    requires Sends(Between(index), messages, [], cut, t) && cut != []
    ensures HandsOn(Between(index), Inside(index, 0), messages, Start(index), [], cut, cut[0], cut[1..], t)
  {
    LaterCuts(cut, index, t);
    DropFirst(StartOf(index, t.entries[index]), Open(index, 0, cut[0], cut[1..], t));
  }

  lemma EndIsSent(index: nat, offset: nat, messages: seq<Message>, later: seq<Chunks>, t: Terms)
    requires index + 1 + |later| == |t.entries| && messages == Open(index, offset, [], later, t)
    ensures messages != [] && messages[0] == EndOf(index, t.entries[index])
    ensures messages[1..] == Session(index + 1, later, t)
  {
    assert messages == [EndOf(index, t.entries[index])] + Session(index + 1, later, t);
    DropFirst(EndOf(index, t.entries[index]), Session(index + 1, later, t));
  }

  lemma EndIsHandedOn(index: nat, offset: nat, messages: seq<Message>, later: seq<Chunks>, t: Terms)
    requires Sends(Inside(index, offset), messages, [], later, t)
    ensures HandsOn(Inside(index, offset), Between(index + 1), messages, End(index), [], later, [], later, t)
  {
    EndIsSent(index, offset, messages, later, t);
  }

  lemma FirstFits(first: Chunks, size: int, max: nat)
    requires Cuts(first, size, max) && first != []
    ensures 0 < |first[0]| <= (max + 2) / 3 * 3 && |first[0]| <= size && Cuts(first[1..], size - |first[0]|, max)
  {
    FirstCuts(first, size, max);
    CutsAreSized(first[1..], size - |first[0]|, max);
  }

  lemma FirstIsSent(index: nat, offset: nat, messages: seq<Message>, first: Chunks, later: seq<Chunks>, t: Terms)
    requires first != [] && index + 1 + |later| == |t.entries| && messages == Open(index, offset, first, later, t)
    ensures messages != [] && messages[0] == BodyChunk(index, offset, Base64(first[0]))
    ensures messages[1..] == Open(index, offset + |first[0]|, first[1..], later, t)
  {
    FirstOpen(index, offset, first, later, t);
    DropFirst(BodyChunk(index, offset, Base64(first[0])),
              Open(index, offset + |first[0]|, first[1..], later, t));
  }

  lemma ChunkThenRest(index: nat, offset: nat, messages: seq<Message>, first: Chunks, later: seq<Chunks>, t: Terms)
    requires Sends(Inside(index, offset), messages, first, later, t) && first != []
    ensures Sends(Inside(index, offset + |first[0]|), messages[1..], first[1..], later, t)
  {
    FirstFits(first, t.entries[index].declaredSize - offset, t.maxChunk);
    FirstIsSent(index, offset, messages, first, later, t);
  }

  lemma ChunkIsOperation(index: nat, offset: nat, messages: seq<Message>, first: Chunks, later: seq<Chunks>, t: Terms)
    requires first != [] && index + 1 + |later| == |t.entries| && messages == Open(index, offset, first, later, t)
    requires 0 < |first[0]| <= (t.maxChunk + 2) / 3 * 3 && offset + |first[0]| <= t.entries[index].declaredSize
    ensures messages != []
            && OperationOf(Inside(index, offset), messages[0], t) == Some(Write(index, offset, first[0]))
  {
    FirstIsSent(index, offset, messages, first, later, t);
    ChunkIsHandedOn(index, offset, first[0], t);
  }

  lemma WriteIsHandedOn(index: nat, offset: nat, messages: seq<Message>, first: Chunks, later: seq<Chunks>, t: Terms)
    requires Sends(Inside(index, offset), messages, first, later, t) && first != []
    ensures HandsOn(Inside(index, offset), Inside(index, offset + |first[0]|), messages,
                    Write(index, offset, first[0]), first, later, first[1..], later, t)
  {
    ChunkThenRest(index, offset, messages, first, later, t);
    FirstFits(first, t.entries[index].declaredSize - offset, t.maxChunk);
    ChunkIsOperation(index, offset, messages, first, later, t);
    assert first == [first[0]] + first[1..];
  }

  /** One message of a session: the operation it is handed on as, and the chunks that remain. */
  lemma Next(p: Position, messages: seq<Message>, first: Chunks, later: seq<Chunks>, t: Terms)
    returns (op: SinkOp, chunks: Chunks, more: seq<Chunks>)
    requires Sends(p, messages, first, later, t) && p != Between(|t.entries|)
    ensures HandsOn(p, Follow(p, op, t.entries), messages, op, first, later, chunks, more, t)
  {
    match p
    case Between(index) =>
      StartIsHandedOn(index, messages, later, t);
      op, chunks, more := Start(index), later[0], later[1..];
    case Inside(index, offset) =>
      if first == [] {
        EndIsHandedOn(index, offset, messages, later, t);
        op, chunks, more := End(index), [], later;
      } else {
        WriteIsHandedOn(index, offset, messages, first, later, t);
        op, chunks, more := Write(index, offset, first[0]), first[1..], later;
      }
    case OutOfOrder =>
  }

  lemma StartBefore(index: nat, rest: seq<Message>, chunks: Chunks, more: seq<Chunks>, t: Terms)
    requires index < |t.entries| && Sends(Inside(index, 0), rest, chunks, more, t)
    ensures Sends(Between(index), [StartOf(index, t.entries[index])] + rest, [], [chunks] + more, t)
  {
    var later := [chunks] + more;
    assert later[1..] == more;
    LaterCuts(later, index, t);
  }

  lemma LongerCuts(bytes: seq<Byte>, chunks: Chunks, size: int, max: nat)
    requires Cuts(chunks, size - |bytes|, max) && 0 < |bytes| <= (max + 2) / 3 * 3
    ensures Cuts([bytes] + chunks, size, max)
  {
    assert ([bytes] + chunks)[1..] == chunks;
    FirstCuts([bytes] + chunks, size, max);
  }

  lemma LongerOpen(index: nat, offset: nat, bytes: seq<Byte>, chunks: Chunks, more: seq<Chunks>, t: Terms)
    requires index + 1 + |more| == |t.entries|
    ensures Open(index, offset, [bytes] + chunks, more, t)
         == [BodyChunk(index, offset, Base64(bytes))] + Open(index, offset + |bytes|, chunks, more, t)
  {
    assert ([bytes] + chunks)[1..] == chunks;
    FirstOpen(index, offset, [bytes] + chunks, more, t);
  }

  lemma WriteBefore(index: nat, offset: nat, bytes: seq<Byte>, rest: seq<Message>, chunks: Chunks, more: seq<Chunks>,
                    t: Terms)
    requires index < |t.entries| && Sends(Inside(index, offset + |bytes|), rest, chunks, more, t)
    requires 0 < |bytes| <= (t.maxChunk + 2) / 3 * 3
    ensures Sends(Inside(index, offset), [BodyChunk(index, offset, Base64(bytes))] + rest, [bytes] + chunks, more, t)
  {
    LongerCuts(bytes, chunks, t.entries[index].declaredSize - offset, t.maxChunk);
    LongerOpen(index, offset, bytes, chunks, more, t);
  }

  lemma EndBefore(index: nat, rest: seq<Message>, more: seq<Chunks>, t: Terms)
    requires index < |t.entries| && Sends(Between(index + 1), rest, [], more, t)
    ensures Sends(Inside(index, t.entries[index].declaredSize), [EndOf(index, t.entries[index])] + rest, [], more, t)
  {
  }

  /** The message an operation comes from, and the place it leads to. */
  lemma OperationTells(p: Position, m: Message, op: SinkOp, t: Terms)
    requires OperationOf(p, m, t) == Some(op)
    requires p.Inside? ==> p.index < |t.entries| && p.offset <= t.entries[p.index].declaredSize
    ensures op.index < |t.entries|
    ensures match op
            case Start(index) => p == Between(index) && m == StartOf(index, t.entries[index])
                                 && Follow(p, op, t.entries) == Inside(index, 0)
            case Write(index, offset, bytes) =>
              && p == Inside(index, offset) && m == BodyChunk(index, offset, Base64(bytes))
              && 0 < |bytes| <= (t.maxChunk + 2) / 3 * 3 && Follow(p, op, t.entries) == Inside(index, offset + |bytes|)
            case End(index) =>
              && p == Inside(index, t.entries[index].declaredSize) && m == EndOf(index, t.entries[index])
              && Follow(p, op, t.entries) == Between(index + 1)
  {
    if op.Write? {
      BoundOfText(|op.bytes|, t.maxChunk);
    }
  }

  /** A message that is handed on, before the rest of a session, makes the rest of one. */
  lemma Before(p: Position, m: Message, op: SinkOp, rest: seq<Message>, chunks: Chunks, more: seq<Chunks>, t: Terms)
    returns (first: Chunks, later: seq<Chunks>)
    requires OperationOf(p, m, t) == Some(op) && Sends(Follow(p, op, t.entries), rest, chunks, more, t)
    requires p.Inside? ==> p.index < |t.entries| && p.offset <= t.entries[p.index].declaredSize
    ensures Sends(p, [m] + rest, first, later, t)
  {
    OperationTells(p, m, op, t);
    match op
    case Start(index) =>
      StartBefore(index, rest, chunks, more, t);
      first, later := [], [chunks] + more;
    case Write(index, offset, bytes) =>
      WriteBefore(index, offset, bytes, rest, chunks, more, t);
      first, later := [bytes] + chunks, more;
    case End(index) =>
      EndBefore(index, rest, more, t);
      first, later := [], more;
  }

  // ----- Completing sessions -----

  /** A stage that is receiving, with its operations in order. */
  ghost predicate Going(s: Stage, t: Terms) {
    && s.status == Receiving
    && match PositionOf(s.log, t.entries)
       case Between(index) => index <= |t.entries|
       case Inside(index, offset) => index < |t.entries| && offset <= t.entries[index].declaredSize
       case OutOfOrder => false
  }

  lemma GoesOn(s: Stage, m: Message, op: SinkOp, t: Terms)
    requires Going(s, t) && PositionOf(s.log, t.entries) != Between(|t.entries|)
    requires OperationOf(PositionOf(s.log, t.entries), m, t) == Some(op) && t.accepts(|s.log|)
    ensures Receive(s, m, t) == Stage(s.log + [op], s.acks + 1, Receiving) && Going(Receive(s, m, t), t)
    ensures PositionOf(s.log + [op], t.entries) == Follow(PositionOf(s.log, t.entries), op, t.entries)
    ensures forall i: nat :: Written(s.log + [op], i) == Written(s.log, i) + Given(op, i)
  {
    forall i: nat ensures Written(s.log + [op], i) == Written(s.log, i) + Given(op, i) {
      AppendOp(s.log, op, t.entries, i);
    }
    AppendOp(s.log, op, t.entries, 0);
  }

  /** From this stage on the messages complete the session, and add just these chunks. */
  ghost predicate Finishes(s: Stage, messages: seq<Message>, first: Chunks, later: seq<Chunks>, t: Terms) {
    var r := ReceiveAll(s, messages, t);
    && r.status == Completed && r.acks == s.acks + |messages|
    && forall i: nat :: Written(r.log, i) == Written(s.log, i) + Adds(PositionOf(s.log, t.entries), first, later, i)
  }

  lemma FinishesAfter(s: Stage, messages: seq<Message>, op: SinkOp, first: Chunks, later: seq<Chunks>,
                      chunks: Chunks, more: seq<Chunks>, t: Terms)
    requires Going(s, t) && PositionOf(s.log, t.entries) != Between(|t.entries|) && t.accepts(|s.log|)
    requires HandsOn(PositionOf(s.log, t.entries), Follow(PositionOf(s.log, t.entries), op, t.entries), messages, op,
                     first, later, chunks, more, t)
    requires Finishes(Receive(s, messages[0], t), messages[1..], chunks, more, t)
    ensures Finishes(s, messages, first, later, t)
  {
    GoesOn(s, messages[0], op, t);
    var r, p := ReceiveAll(s, messages, t), PositionOf(s.log, t.entries);
    var q := Follow(p, op, t.entries);
    forall i: nat ensures Written(r.log, i) == Written(s.log, i) + Adds(p, first, later, i) {
      LeftAddsUp(p, q, op, first, later, chunks, more, i);
      Regroup(Written(s.log, i), Given(op, i), Adds(q, chunks, more, i));
    }
  }

  lemma OnlyComplete(s: Stage, messages: seq<Message>, t: Terms)
    requires Going(s, t) && PositionOf(s.log, t.entries) == Between(|t.entries|)
    requires messages == [Complete(|t.entries|, t.digest)]
    ensures Finishes(s, messages, [], [], t)
  {
    var r := Receive(s, messages[0], t);
    assert ReceiveAll(s, messages, t) == ReceiveAll(r, [], t);
    forall i: nat ensures Written(r.log, i) == Written(s.log, i) + Adds(Between(|t.entries|), [], [], i) {
      EmptyConcat(Written(s.log, i));
    }
  }

  lemma SentIsNotEmpty(p: Position, messages: seq<Message>, first: Chunks, later: seq<Chunks>, t: Terms)
    requires Sends(p, messages, first, later, t)
    ensures messages != []
  {
  }

  lemma {:induction false} SessionFinishes(s: Stage, messages: seq<Message>, first: Chunks, later: seq<Chunks>,
                                           t: Terms)
    requires Going(s, t) && Sends(PositionOf(s.log, t.entries), messages, first, later, t)
    requires TakesAll(|s.log|, |messages|, t)
    ensures Finishes(s, messages, first, later, t)
    decreases |messages|
  {
    var p := PositionOf(s.log, t.entries);
    if p == Between(|t.entries|) {
      OnlyComplete(s, messages, t);
      return;
    }
    var op, chunks, more := Next(p, messages, first, later, t);
    SentIsNotEmpty(Follow(p, op, t.entries), messages[1..], chunks, more, t);
    assert t.accepts(|s.log|);
    GoesOn(s, messages[0], op, t);
    SessionFinishes(Receive(s, messages[0], t), messages[1..], chunks, more, t);
    FinishesAfter(s, messages, op, first, later, chunks, more, t);
  }

  lemma OneMoreTaken(n: nat, messages: nat, t: Terms)
    requires t.accepts(n) && TakesAll(n + 1, messages, t)
    ensures TakesAll(n, messages + 1, t)
  {
  }

  /** If the messages complete the session, they are those of some chunks, and the sink takes them all. */
  lemma {:induction false} FinishedIsSession(s: Stage, messages: seq<Message>, t: Terms)
    returns (first: Chunks, later: seq<Chunks>)
    requires Going(s, t) && ReceiveAll(s, messages, t).status == Completed
    ensures Sends(PositionOf(s.log, t.entries), messages, first, later, t) && TakesAll(|s.log|, |messages|, t)
    decreases |messages|
  {
    var p, m, rest := PositionOf(s.log, t.entries), messages[0], messages[1..];
    var r := Receive(s, m, t);
    assert messages == [m] + rest;
    if r.status != Receiving {
      EndedStays(r, rest, t);
      return [], [];
    }
    var op := OperationOf(p, m, t).value;
    GoesOn(s, m, op, t);
    var chunks, more := FinishedIsSession(r, rest, t);
    OneMoreTaken(|s.log|, |rest|, t);
    first, later := Before(p, m, op, rest, chunks, more, t);
  }

  /** A session of these chunks, which the sink takes whole. */
  ghost predicate IsSession(messages: seq<Message>, cut: seq<Chunks>, t: Terms) {
    CutsFrom(cut, 0, t) && messages == Session(0, cut, t) && TakesAll(0, |messages|, t)
  }

  /**
    * Whoever sends the messages: the session completes exactly when they are, in order, each entry's announcement,
    * its body in chunks within the bound at their offsets, and its end, and then the completion, and the sink takes
    * every operation.
    */
  lemma CompletesIff(messages: seq<Message>, t: Terms)
    ensures ReceiveAll(START, messages, t).status == Completed <==> exists cut :: IsSession(messages, cut, t)
  {
    if ReceiveAll(START, messages, t).status == Completed {
      var first, cut := FinishedIsSession(START, messages, t);
      assert IsSession(messages, cut, t);
    }
    if cut :| IsSession(messages, cut, t) {
      SessionFinishes(START, messages, [], cut, t);
    }
  }

  /** A session of chunks delivers, for each entry, its chunks put together, and every message is acknowledged. */
  lemma SessionDelivers(messages: seq<Message>, cut: seq<Chunks>, t: Terms)
    requires IsSession(messages, cut, t)
    ensures var r := ReceiveAll(START, messages, t);
            && r.status == Completed && r.acks == |messages|
            && forall i: nat :: i < |t.entries| ==> Written(r.log, i) == Joined(cut[i])
  {
    SessionFinishes(START, messages, [], cut, t);
    var r := ReceiveAll(START, messages, t);
    forall i: nat | i < |t.entries| ensures Written(r.log, i) == Joined(cut[i]) {
      assert Written(r.log, i) == [] + Adds(Between(0), [], cut, i);
    }
  }
}
