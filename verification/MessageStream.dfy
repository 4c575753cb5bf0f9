/** The messages of the second pass as a stream of framed bytes, in whatever chunks it arrives. */
module MessageStream {
  import opened Numbers
  import opened Options
  import opened Framing
  import opened PassB

  /** How a message is written as JSON bytes, and what parsing and checking the bytes of a frame answers. */
  datatype Codec = Codec(encode: Message -> seq<Byte>, decode: seq<Byte> -> Option<Message>)

  function Bodies(messages: seq<Message>, c: Codec): seq<seq<Byte>> {
    seq(|messages|, i requires 0 <= i < |messages| => c.encode(messages[i]))
  }

  /** Every message fits a frame and is read back from its bytes. */
  ghost predicate Carried(messages: seq<Message>, c: Codec, maxFrame: nat) {
    && Framable(Bodies(messages, c), maxFrame)
    && forall i :: 0 <= i < |messages| ==> c.decode(c.encode(messages[i])) == Some(messages[i])
  }

  /** The stream is the frames of these messages. */
  ghost predicate Carries(stream: seq<Byte>, messages: seq<Message>, c: Codec, maxFrame: nat) {
    Carried(messages, c, maxFrame) && Frames(Bodies(messages, c), maxFrame) == stream
  }

  /** A stream carries one list of messages of a given length. */
  lemma StreamTellsMessages(stream: seq<Byte>, a: seq<Message>, b: seq<Message>, c: Codec, maxFrame: nat)
    requires Carries(stream, a, c, maxFrame) && Carries(stream, b, c, maxFrame) && |a| == |b|
    ensures a == b
  {
    SessionUnique(stream, Bodies(a, c), Bodies(b, c), |a|, maxFrame);
    forall i | 0 <= i < |a| ensures a[i] == b[i] {
      assert Bodies(a, c)[i] == Bodies(b, c)[i];
    }
  }

  /** Whatever messages were sent are received, in order, whatever the chunks of the stream within its bound. */
  method ReceiveMessages(chunks: seq<seq<Byte>>, count: nat, c: Codec, maxFrame: nat, maxBytes: nat)
    returns (received: Option<seq<Message>>)
    ensures forall sent :: |sent| == count && Carries(Joined(chunks), sent, c, maxFrame) ==>
                             received == if |Joined(chunks)| <= maxBytes then Some(sent) else None
    ensures received.Some? ==> |received.value| == count && |Joined(chunks)| <= maxBytes
  {
    var bodies := ReadSession(chunks, count, maxFrame, maxBytes);
    forall sent | |sent| == count && Carries(Joined(chunks), sent, c, maxFrame)
      ensures if |Joined(chunks)| <= maxBytes then bodies == Some(Bodies(sent, c)) else bodies == None
    {
      assert SessionOf(Joined(chunks), Bodies(sent, c), count, maxFrame);
      if bodies.Some? {
        SessionUnique(Joined(chunks), bodies.value, Bodies(sent, c), count, maxFrame);
      }
    }
    if bodies.None? {
      return None;
    }
    var messages: seq<Message> := [];
    for i := 0 to count
      invariant |messages| == i
      invariant forall k :: 0 <= k < i ==> c.decode(bodies.value[k]) == Some(messages[k])
    {
      var m := c.decode(bodies.value[i]);
      if m.None? {
        return None;
      }
      messages := messages + [m.value];
    }
    forall sent | |sent| == count && Carries(Joined(chunks), sent, c, maxFrame) ensures messages == sent {
      forall k | 0 <= k < count ensures messages[k] == sent[k] {
        assert Bodies(sent, c)[k] == c.encode(sent[k]);
      }
    }
    return Some(messages);
  }
}
