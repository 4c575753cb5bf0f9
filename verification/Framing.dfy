/** Length-framed bytes between the stage and its archive worker: the encoder and the two readers. */
module Framing {
  import opened Numbers
  import opened Options
  import opened Sequences

  const MAX_U32 := 4_294_967_296

  // ----- Big-endian lengths -----

  function BigEndian(n: nat): (bytes: seq<Byte>)
    requires n < MAX_U32
    ensures |bytes| == 4
  {
    [n / 16_777_216, n / 65_536 % 256, n / 256 % 256, n % 256]
  }

  function ReadBigEndian(bytes: seq<Byte>): nat
    requires |bytes| == 4
  {
    var a: int, b: int, c: int, d: int := bytes[0], bytes[1], bytes[2], bytes[3];
    16_777_216 * a + 65_536 * b + 256 * c + d
  }

  /** The four bytes are the digits of the length to the base 256, the highest first, and are read back as it. */
  lemma BigEndianRoundTrip(n: nat)
    requires n < MAX_U32
    ensures ReadBigEndian(BigEndian(n)) == n
    ensures var a: int, b: int, c: int, d: int := BigEndian(n)[0], BigEndian(n)[1], BigEndian(n)[2], BigEndian(n)[3];
            n == ((a * 256 + b) * 256 + c) * 256 + d
  {
    assert n / 256 == 256 * (n / 65_536) + n / 256 % 256;
    assert n / 65_536 == 256 * (n / 16_777_216) + n / 65_536 % 256;
  }

  lemma BigEndianOfRead(bytes: seq<Byte>)
    requires |bytes| == 4
    ensures ReadBigEndian(bytes) < MAX_U32 && BigEndian(ReadBigEndian(bytes)) == bytes
  {
    var n := ReadBigEndian(bytes);
    var a: int, b: int, c: int, d: int := bytes[0], bytes[1], bytes[2], bytes[3];
    assert n / 256 == 65_536 * a + 256 * b + c;
    assert n / 65_536 == 256 * a + b;
    assert n / 16_777_216 == a;
  }

  // ----- Frames on values -----

  function Frame(body: seq<Byte>): seq<Byte>
    requires |body| < MAX_U32
  {
    BigEndian(|body|) + body
  }

  predicate Framable(bodies: seq<seq<Byte>>, maxFrame: nat) {
    forall i :: 0 <= i < |bodies| ==> 0 < |bodies[i]| <= maxFrame && |bodies[i]| < MAX_U32
  }

  function Frames(bodies: seq<seq<Byte>>, maxFrame: nat): seq<Byte>
    requires Framable(bodies, maxFrame)
  {
    if bodies == [] then [] else Frame(bodies[0]) + Frames(bodies[1..], maxFrame)
  }

  datatype Reading = Body(body: seq<Byte>, rest: seq<Byte>) | Invalid

  /** The frame at the start of some bytes. */
  function FirstFrame(bytes: seq<Byte>, maxFrame: nat): Reading {
    if |bytes| < 4 then Invalid
    else
      var length := ReadBigEndian(bytes[..4]);
      if length == 0 || length > maxFrame || |bytes| - 4 < length then Invalid
      else Body(bytes[4..4 + length], bytes[4 + length..])
  }

  /** Decoding undoes encoding, whatever follows the frame. */
  lemma FirstOfFrame(body: seq<Byte>, rest: seq<Byte>, maxFrame: nat)
    requires 0 < |body| <= maxFrame && |body| < MAX_U32
    ensures FirstFrame(Frame(body) + rest, maxFrame) == Body(body, rest)
  {
    var bytes := Frame(body) + rest;
    assert bytes[..4] == BigEndian(|body|);
    BigEndianRoundTrip(|body|);
    assert bytes[4..4 + |body|] == body && bytes[4 + |body|..] == rest;
  }

  /** What decodes is what its frame encodes. */
  lemma FrameOfFirst(bytes: seq<Byte>, maxFrame: nat)
    ensures match FirstFrame(bytes, maxFrame)
            case Invalid => true
            case Body(body, rest) => 0 < |body| <= maxFrame && |body| < MAX_U32 && bytes == Frame(body) + rest
  {
    if FirstFrame(bytes, maxFrame).Body? {
      BigEndianOfRead(bytes[..4]);
      var length := ReadBigEndian(bytes[..4]);
      assert bytes == bytes[..4] + bytes[4..4 + length] + bytes[4 + length..];
    }
  }

  // ----- Encoding into a buffer -----

  method WriteUInt32BE(buffer: array<Byte>, value: nat, offset: nat)
    requires value < MAX_U32 && offset + 4 <= buffer.Length
    modifies buffer
    ensures buffer[offset..offset + 4] == BigEndian(value)
    ensures forall i :: 0 <= i < buffer.Length && !(offset <= i < offset + 4) ==> buffer[i] == old(buffer[i])
  {
    buffer[offset] := value / 16_777_216;
    buffer[offset + 1] := value / 65_536 % 256;
    buffer[offset + 2] := value / 256 % 256;
    buffer[offset + 3] := value % 256;
  }

  /** The framed body; nothing when its length does not fit the header. */
  method EncodeArchiveWorkerFrame(body: seq<Byte>) returns (frame: Option<seq<Byte>>)
    ensures frame.Some? <==> |body| < MAX_U32
    ensures frame.Some? ==> frame.value == Frame(body)
  {
    if |body| >= MAX_U32 {
      return None;
    }
    var header := new Byte[4](_ => 0);
    WriteUInt32BE(header, |body|, 0);
    assert header[..] == header[0..4];
    return Some(header[..] + body);
  }

  const MAX_REQUEST_BYTES := 32_768

  /** The request header: the body's length, the artifact's length, and the body. */
  method EncodeArchiveWorkerRequestHeader(body: seq<Byte>, artifactBytes: nat) returns (header: Option<seq<Byte>>)
    ensures header.Some? <==> |body| <= MAX_REQUEST_BYTES && artifactBytes < MAX_U32
    ensures header.Some? ==> header.value == BigEndian(|body|) + BigEndian(artifactBytes) + body
  {
    if |body| > MAX_REQUEST_BYTES || artifactBytes >= MAX_U32 {
      return None;
    }
    var buffer := new Byte[8](_ => 0);
    WriteUInt32BE(buffer, |body|, 0);
    WriteUInt32BE(buffer, artifactBytes, 4);
    assert buffer[..] == buffer[0..4] + buffer[4..8];
    return Some(buffer[..] + body);
  }

  // ----- Chunked streams -----

  function Joined(chunks: seq<seq<Byte>>): seq<Byte> {
    if chunks == [] then [] else chunks[0] + Joined(chunks[1..])
  }

  datatype Answer = Bytes(bytes: seq<Byte>) | EndOfStream | Failed

  /** The stage's reader over the worker's output: it stops once more than `maxBytes` have been seen. */
  class BoundedReader {
    /** What the stream has still to deliver. */
    var chunks: seq<seq<Byte>>
    var buffer: seq<Byte>
    var observedBytes: nat
    var ended: bool
    const maxBytes: nat

    constructor (chunks: seq<seq<Byte>>, maxBytes: nat)
      ensures Valid() && Remaining() == Joined(chunks) && Total() == |Joined(chunks)| && this.maxBytes == maxBytes
    {
      this.chunks, buffer, observedBytes, ended, this.maxBytes := chunks, [], 0, false, maxBytes;
    }

    ghost predicate Valid()
      reads this
    {
      (ended ==> chunks == []) && observedBytes <= maxBytes
    }

    ghost function Remaining(): seq<Byte>
      reads this
    {
      buffer + Joined(chunks)
    }

    /** The length of the whole stream. */
    ghost function Total(): nat
      reads this
    {
      observedBytes + |Joined(chunks)|
    }

    method ReadMore() returns (ok: bool)
      requires Valid() && !ended
      modifies this
      ensures Total() == old(Total())
      ensures ok ==> Valid() && Remaining() == old(Remaining())
      ensures !ok ==> Total() > maxBytes
      ensures |chunks| < |old(chunks)| || (ended && chunks == old(chunks))
    {
      if chunks == [] {
        ended := true;
        return true;
      }
      var bytes := chunks[0];
      chunks := chunks[1..];
      observedBytes := observedBytes + |bytes|;
      if observedBytes > maxBytes {
        return false;
      }
      Regroup(buffer, bytes, Joined(chunks));
      buffer := buffer + bytes;
      return true;
    }

    /** The next bytes, decided by the stream's content and not by its chunks. */
    method ReadExact(length: nat) returns (answer: Answer)
      requires Valid() && length > 0
      modifies this
      ensures Total() == old(Total())
      ensures answer.Failed? || Valid()
      ensures answer.Bytes? ==> |old(Remaining())| >= length && answer.bytes == old(Remaining())[..length]
                                && Remaining() == old(Remaining())[length..]
      ensures Total() <= maxBytes ==> (answer.Bytes? <==> |old(Remaining())| >= length)
      ensures Total() <= maxBytes ==> (answer.EndOfStream? <==> old(Remaining()) == [])
    {
      while |buffer| < length && !ended
        invariant Valid() && Total() == old(Total()) && Remaining() == old(Remaining())
        decreases |chunks|, !ended
      {
        var ok := ReadMore();
        if !ok {
          return Failed;
        }
      }
      assert ended ==> Remaining() == buffer;
      if |buffer| == 0 && ended {
        return EndOfStream;
      }
      if |buffer| < length {
        return Failed;
      }
      var output := buffer[..length];
      SplitRemaining(buffer, Joined(chunks), length);
      buffer := buffer[length..];
      return Bytes(output);
    }

    /** One frame, again decided by the content alone while the stream is within its bound. */
    method ReadFrame(maxFrame: nat) returns (body: Option<seq<Byte>>)
      requires Valid()
      modifies this
      ensures Total() == old(Total())
      ensures body.Some? ==> Valid() && FirstFrame(old(Remaining()), maxFrame) == Body(body.value, Remaining())
      ensures Total() <= maxBytes ==> (body.Some? <==> FirstFrame(old(Remaining()), maxFrame).Body?)
    {
      ghost var stream := Remaining();
      var header := ReadExact(4);
      if !header.Bytes? {
        return None;
      }
      var length := ReadBigEndian(header.bytes);
      if length == 0 || length > maxFrame {
        return None;
      }
      var read := ReadExact(length);
      if !read.Bytes? {
        return None;
      }
      assert stream[4..][..length] == stream[4..4 + length] && stream[4..][length..] == stream[4 + length..];
      return Some(read.bytes);
    }

    /** Everything that is left, exactly when the whole stream is within the bound. */
    method ReadToEnd() returns (answer: Answer)
      requires Valid()
      modifies this
      ensures answer == if old(Total()) <= maxBytes then Bytes(old(Remaining())) else Failed
    {
      while !ended
        invariant Valid() && Total() == old(Total()) && Remaining() == old(Remaining())
        decreases |chunks|, !ended
      {
        var ok := ReadMore();
        if !ok {
          return Failed;
        }
      }
      var output := buffer;
      buffer := [];
      return Bytes(output);
    }
  }

  // ----- A whole session of frames -----

  ghost predicate SessionOf(stream: seq<Byte>, bodies: seq<seq<Byte>>, count: nat, maxFrame: nat) {
    |bodies| == count && Framable(bodies, maxFrame) && Frames(bodies, maxFrame) == stream
  }

  /** The bytes of frames already read, followed by the rest of the stream. */
  ghost predicate ReadSoFar(stream: seq<Byte>, read: seq<seq<Byte>>, rest: seq<Byte>, maxFrame: nat) {
    Framable(read, maxFrame) && Frames(read, maxFrame) + rest == stream
  }

  lemma {:induction false} OneMoreFrame(stream: seq<Byte>, read: seq<seq<Byte>>, rest: seq<Byte>, maxFrame: nat)
    requires ReadSoFar(stream, read, rest, maxFrame) && FirstFrame(rest, maxFrame).Body?
    ensures ReadSoFar(stream, read + [FirstFrame(rest, maxFrame).body], FirstFrame(rest, maxFrame).rest, maxFrame)
    decreases |read|
  {
    var body, after := FirstFrame(rest, maxFrame).body, FirstFrame(rest, maxFrame).rest;
    FrameOfFirst(rest, maxFrame);
    if read == [] {
      assert Frames([body], maxFrame) == Frame(body) + [];
      assert Frame(body) + [] == Frame(body);
      assert [] + rest == rest && read + [body] == [body];
    } else {
      var tail := Frames(read[1..], maxFrame) + rest;
      Regroup(Frame(read[0]), Frames(read[1..], maxFrame), rest);
      OneMoreFrame(tail, read[1..], rest, maxFrame);
      assert (read + [body])[1..] == read[1..] + [body];
      Regroup(Frame(read[0]), Frames(read[1..] + [body], maxFrame), after);
    }
  }

  /** Any session the stream could hold starts with the frames already read. */
  lemma {:induction false} SessionStartsSo(stream: seq<Byte>, read: seq<seq<Byte>>, rest: seq<Byte>,
                                           bodies: seq<seq<Byte>>,
                                           count: nat, maxFrame: nat)
    requires ReadSoFar(stream, read, rest, maxFrame) && SessionOf(stream, bodies, count, maxFrame) && |read| <= count
    ensures bodies[..|read|] == read && SessionOf(rest, bodies[|read|..], count - |read|, maxFrame)
    decreases |read|
  {
    if read == [] {
      assert [] + rest == rest && bodies[0..] == bodies;
    } else {
      var tail := Frames(read[1..], maxFrame) + rest;
      Regroup(Frame(read[0]), Frames(read[1..], maxFrame), rest);
      FirstOfFrame(read[0], tail, maxFrame);
      FirstOfFrame(bodies[0], Frames(bodies[1..], maxFrame), maxFrame);
      SessionStartsSo(tail, read[1..], rest, bodies[1..], count - 1, maxFrame);
      assert bodies[1..][|read| - 1..] == bodies[|read|..];
      assert bodies[..|read|] == [bodies[0]] + bodies[1..][..|read| - 1];
      assert read == [read[0]] + read[1..];
    }
  }

  lemma NoSession(stream: seq<Byte>, read: seq<seq<Byte>>, rest: seq<Byte>, count: nat, maxFrame: nat)
    requires ReadSoFar(stream, read, rest, maxFrame) && |read| <= count
    requires if |read| < count then FirstFrame(rest, maxFrame).Invalid? else rest != []
    ensures forall bodies :: !SessionOf(stream, bodies, count, maxFrame)
  {
    forall bodies | SessionOf(stream, bodies, count, maxFrame) ensures false {
      SessionStartsSo(stream, read, rest, bodies, count, maxFrame);
      var more := bodies[|read|..];
      if more != [] {
        FirstOfFrame(more[0], Frames(more[1..], maxFrame), maxFrame);
      }
    }
  }

  /** A stream holds at most one session. */
  lemma SessionUnique(stream: seq<Byte>, a: seq<seq<Byte>>, b: seq<seq<Byte>>, count: nat, maxFrame: nat)
    requires SessionOf(stream, a, count, maxFrame) && SessionOf(stream, b, count, maxFrame)
    ensures a == b
  {
    assert Frames(a, maxFrame) + [] == stream;
    SessionStartsSo(stream, a, [], b, count, maxFrame);
    assert b[..count] == b;
  }

  /**
    * Reads the frames of a session and then the end of the stream. Whatever the chunks, it succeeds exactly when the
    * whole stream is within the bound and is the frames of that many bodies, and then returns those bodies.
    */
  method ReadSession(chunks: seq<seq<Byte>>, count: nat, maxFrame: nat, maxBytes: nat)
    returns (bodies: Option<seq<seq<Byte>>>)
    ensures bodies.Some? <==> |Joined(chunks)| <= maxBytes
                              && exists bs :: SessionOf(Joined(chunks), bs, count, maxFrame)
    ensures bodies.Some? ==> SessionOf(Joined(chunks), bodies.value, count, maxFrame)
  {
    var reader := new BoundedReader(chunks, maxBytes);
    ghost var stream := Joined(chunks);
    var read: seq<seq<Byte>> := [];
    while |read| < count
      invariant fresh(reader) && reader.maxBytes == maxBytes
      invariant reader.Valid() && reader.Total() == |stream| && |read| <= count
      invariant ReadSoFar(stream, read, reader.Remaining(), maxFrame)
    {
      ghost var before := reader.Remaining();
      var body := reader.ReadFrame(maxFrame);
      if body.None? {
        if reader.Total() <= maxBytes {
          NoSession(stream, read, before, count, maxFrame);
        }
        return None;
      }
      OneMoreFrame(stream, read, before, maxFrame);
      read := read + [body.value];
    }
    ghost var rest := reader.Remaining();
    var trailing := reader.ReadToEnd();
    if !trailing.Bytes? || trailing.bytes != [] {
      if rest != [] {
        NoSession(stream, read, rest, count, maxFrame);
      }
      return None;
    }
    assert rest == [] && Frames(read, maxFrame) + [] == Frames(read, maxFrame);
    assert SessionOf(stream, read, count, maxFrame);
    return Some(read);
  }

  lemma SplitRemaining(buffer: seq<Byte>, more: seq<Byte>, length: nat)
    requires length <= |buffer|
    ensures (buffer + more)[..length] == buffer[..length] && (buffer + more)[length..] == buffer[length..] + more
  {
  }

  // ----- The worker's reader -----

  /** The worker's reader over its input: chunks not yet consumed, and how many bytes they hold. */
  class InputReader {
    var incoming: seq<seq<Byte>>
    var chunks: seq<seq<Byte>>
    var bufferedBytes: nat

    constructor (incoming: seq<seq<Byte>>)
      ensures Valid() && Remaining() == Joined(incoming)
    {
      this.incoming, chunks, bufferedBytes := incoming, [], 0;
    }

    ghost predicate Valid()
      reads this
    {
      bufferedBytes == |Joined(chunks)|
    }

    ghost function Remaining(): seq<Byte>
      reads this
    {
      Joined(chunks) + Joined(incoming)
    }

    method Buffer(length: nat) returns (ok: bool)
      requires Valid()
      modifies this
      ensures Valid() && Remaining() == old(Remaining())
      ensures ok <==> |old(Remaining())| >= length
      ensures ok ==> bufferedBytes >= length
    {
      while bufferedBytes < length
        invariant Valid() && Remaining() == old(Remaining())
        decreases |incoming|
      {
        if incoming == [] {
          assert Remaining() == Joined(chunks);
          return false;
        }
        var chunk := incoming[0];
        JoinedAppend(chunks, chunk);
        Regroup(Joined(chunks), chunk, Joined(incoming[1..]));
        incoming := incoming[1..];
        chunks := chunks + [chunk];
        bufferedBytes := bufferedBytes + |chunk|;
      }
      return true;
    }

    /** Drops bytes from the first chunk, and the chunk once it is used up. */
    method Consume(count: nat)
      requires Valid() && chunks != [] && count <= |chunks[0]|
      modifies this
      ensures Valid() && bufferedBytes == old(bufferedBytes) - count && Remaining() == old(Remaining())[count..]
      ensures count == |old(chunks)[0]| ==> |chunks| < |old(chunks)|
    {
      var chunk := chunks[0];
      ghost var more := Joined(chunks[1..]);
      assert (chunk + more)[count..] == chunk[count..] + more;
      assert (chunk + more + Joined(incoming))[count..] == chunk[count..] + more + Joined(incoming);
      bufferedBytes := bufferedBytes - count;
      if count == |chunk| {
        chunks := chunks[1..];
        assert chunk[count..] + more == more;
      } else {
        chunks := chunks[0 := chunk[count..]];
        assert chunks[1..] == old(chunks)[1..];
      }
    }

    /** Copies the next bytes out of the chunks into one buffer; fails exactly when the input is too short. */
    method ReadExact(length: nat) returns (output: Option<array<Byte>>)
      requires Valid()
      modifies this
      ensures output.Some? <==> |old(Remaining())| >= length
      ensures output.Some? ==> fresh(output.value) && output.value[..] == old(Remaining())[..length]
      ensures output.Some? ==> Valid() && Remaining() == old(Remaining())[length..]
    {
      var enough := Buffer(length);
      if !enough {
        return None;
      }
      ghost var stream := Remaining();
      var buffer := new Byte[length](_ => 0);
      var written := 0;
      while written < length
        invariant Valid() && 0 <= written <= length && bufferedBytes >= length - written
        invariant |stream| >= length && Remaining() == stream[written..]
        invariant buffer[..written] == stream[..written]
        decreases length - written, |chunks|
      {
        var chunk := chunks[0];
        var copyBytes := if |chunk| < length - written then |chunk| else length - written;
        ghost var ahead := Remaining();
        assert ahead[..copyBytes] == chunk[..copyBytes];
        CopyInto(buffer, written, chunk, copyBytes);
        Advance(stream, written, copyBytes);
        written := written + copyBytes;
        Consume(copyBytes);
      }
      assert buffer[..] == buffer[..written];
      return Some(buffer);
    }
  }

  lemma Advance(stream: seq<Byte>, written: nat, count: nat)
    requires written + count <= |stream|
    ensures stream[..written + count] == stream[..written] + stream[written..][..count]
    ensures stream[written..][count..] == stream[written + count..]
  {
  }

  method CopyInto(buffer: array<Byte>, at: nat, source: seq<Byte>, count: nat)
    requires count <= |source| && at + count <= buffer.Length
    modifies buffer
    ensures buffer[..at + count] == old(buffer[..at]) + source[..count]
  {
    for i := 0 to count
      invariant buffer[..at] == old(buffer[..at])
      invariant buffer[at..at + i] == source[..i]
    {
      buffer[at + i] := source[i];
    }
  }

  lemma {:induction false} JoinedAppend(chunks: seq<seq<Byte>>, chunk: seq<Byte>)
    ensures Joined(chunks + [chunk]) == Joined(chunks) + chunk
  {
    if chunks == [] {
      assert [] + [chunk] == [chunk];
      assert Joined([chunk]) == chunk + [];
    } else {
      JoinedAppend(chunks[1..], chunk);
      assert (chunks + [chunk])[1..] == chunks[1..] + [chunk];
      Regroup(chunks[0], Joined(chunks[1..]), chunk);
    }
  }
}
