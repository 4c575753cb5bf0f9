/** The package manifest sent during the first pass: the worker's chunks, and the stage's check of them. */
module ManifestPass {
  import opened Numbers
  import opened Framing
  import opened Options
  import opened Sequences
  import opened PassB

  const MAX_MANIFEST_BYTES := 1024 * 1024
  const MANIFEST := "package.json"

  /** Stands for the missing digest of an entry without a body. */
  const NO_DIGEST := ""

  datatype ManifestMessage =
    | ManifestStart(index: int, observedSize: int, bodySha256: string)
    | ManifestChunk(index: int, offset: int, payload: Payload)
    | ManifestEnd(index: int, observedSize: int, bodySha256: string)
    | Unrelated

  type Hash = seq<Byte> -> string

  // ----- What is accepted -----

  /** The first entry that is the package's manifest. */
  function ManifestIndex(entries: seq<Meta>): (i: Option<nat>)
    ensures i.Some? ==> i.value < |entries| && entries[i.value].relativePath == MANIFEST
    ensures i.None? ==> forall k :: 0 <= k < |entries| ==> entries[k].relativePath != MANIFEST
  {
    if entries == [] then None
    else if entries[0].relativePath == MANIFEST then Some(0)
    else
      match ManifestIndex(entries[1..])
      case None =>
        assert forall k :: 0 <= k < |entries| ==> k == 0 || entries[k] == entries[1..][k - 1];
        None
      case Some(i) => Some(i + 1)
  }

  predicate Expectable(m: Meta) {
    m.kind == "file" && m.bodySha256 != NO_DIGEST && m.declaredSize <= MAX_MANIFEST_BYTES
  }

  function ChunkMessages(index: nat, offset: nat, chunks: seq<seq<Byte>>): (messages: seq<ManifestMessage>)
    ensures |messages| == |chunks|
    decreases chunks
  {
    if chunks == [] then []
    else [ManifestChunk(index, offset, Base64(chunks[0]))] + ChunkMessages(index, offset + |chunks[0]|, chunks[1..])
  }

  ghost predicate Sized(chunks: seq<seq<Byte>>, maximum: nat) {
    forall k :: 0 <= k < |chunks| ==> 0 < |chunks[k]| <= maximum
  }

  /** The messages start with a manifest in these chunks: of the size and digest the transcript promises. */
  ghost predicate Carries(messages: seq<ManifestMessage>, index: nat, m: Meta, chunks: seq<seq<Byte>>, maximum: nat,
                          sha: Hash) {
    && |messages| >= |chunks| + 2 && Sized(chunks, maximum)
    && messages[0] == ManifestStart(index, m.observedSize, m.bodySha256)
    && messages[1..|chunks| + 1] == ChunkMessages(index, 0, chunks)
    && messages[|chunks| + 1] == ManifestEnd(index, m.observedSize, m.bodySha256)
    && |Joined(chunks)| == m.observedSize && sha(Joined(chunks)) == m.bodySha256
  }

  lemma {:induction false} ChunkAt(index: nat, offset: nat, chunks: seq<seq<Byte>>, k: nat)
    requires k < |chunks|
    ensures ChunkMessages(index, offset, chunks)[k] == ManifestChunk(index, offset + |Joined(chunks[..k])|,
        Base64(chunks[k]))
    decreases chunks
  {
    var rest := ChunkMessages(index, offset + |chunks[0]|, chunks[1..]);
    if |chunks| > 1 {
      ChunkAt(index, offset + |chunks[0]|, chunks[1..], if k > 0 then k - 1 else 0);
    }
    if k == 0 {
      assert chunks[..0] == [];
    } else {
      assert chunks[..k][0] == chunks[0] && chunks[..k][1..] == chunks[1..][..k - 1];
    }
  }

  lemma {:induction false} JoinedSplit(chunks: seq<seq<Byte>>, k: nat)
    requires k <= |chunks|
    ensures Joined(chunks) == Joined(chunks[..k]) + Joined(chunks[k..])
  {
    if k == 0 {
      assert chunks[..0] == [] && chunks[0..] == chunks;
    } else {
      JoinedSplit(chunks[1..], k - 1);
      assert chunks[..k][0] == chunks[0] && chunks[..k][1..] == chunks[1..][..k - 1]
        && chunks[1..][k - 1..] == chunks[k..];
    }
  }

  /** Some first chunks of a manifest: either they are all of it, or the next message is its next chunk. */
  lemma NextChunk(messages: seq<ManifestMessage>, index: nat, m: Meta, chunks: seq<seq<Byte>>, maximum: nat, sha: Hash,
                  n: nat)
    requires Carries(messages, index, m, chunks, maximum, sha) && n <= |chunks|
    ensures n < |chunks| ==>
      && messages[n + 1] == ManifestChunk(index, |Joined(chunks[..n])|, Base64(chunks[n]))
      && |Joined(chunks[..n])| + |chunks[n]| <= m.observedSize
    ensures n == |chunks| <==> |Joined(chunks[..n])| >= m.observedSize
  {
    JoinedSplit(chunks, n);
    if n < |chunks| {
      ChunkAt(index, 0, chunks, n);
      assert messages[1..|chunks| + 1][n] == messages[n + 1];
      assert chunks[n..][0] == chunks[n];
    } else {
      assert chunks[..n] == chunks;
    }
  }

  /** The chunks read so far start every manifest the messages could carry. */
  ghost predicate OnlyThese(messages: seq<ManifestMessage>, index: nat, m: Meta, read: seq<seq<Byte>>, maximum: nat,
                            sha: Hash) {
    forall chunks :: Carries(messages, index, m, chunks, maximum, sha) ==>
      |read| <= |chunks| && chunks[..|read|] == read
  }

  lemma PrefixGrows<T>(s: seq<T>, front: seq<T>, x: T)
    requires |front| < |s| && s[..|front|] == front && s[|front|] == x
    ensures s[..|front| + 1] == front + [x]
  {
  }

  lemma OneMoreChunk(messages: seq<ManifestMessage>, index: nat, m: Meta, read: seq<seq<Byte>>, bytes: seq<Byte>,
                     maximum: nat, sha: Hash)
    requires OnlyThese(messages, index, m, read, maximum, sha) && |Joined(read)| < m.observedSize
        && |read| + 1 < |messages|
    requires messages[|read| + 1] == ManifestChunk(index, |Joined(read)|, Base64(bytes))
    ensures OnlyThese(messages, index, m, read + [bytes], maximum, sha)
  {
    forall chunks | Carries(messages, index, m, chunks, maximum, sha)
      ensures |read| + 1 <= |chunks| && chunks[..|read| + 1] == read + [bytes]
    {
      NextChunk(messages, index, m, chunks, maximum, sha, |read|);
      PrefixGrows(chunks, read, bytes);
    }
  }

  predicate ChunkFits(message: ManifestMessage, index: nat, offset: nat, observedSize: nat, maximum: nat) {
    && message.ManifestChunk? && message.index == index && message.offset == offset && message.payload.Base64?
    && 0 < |message.payload.bytes| <= maximum && offset + |message.payload.bytes| <= observedSize
  }

  lemma ManifestGoesOn(messages: seq<ManifestMessage>, index: nat, m: Meta, read: seq<seq<Byte>>,
                       chunks: seq<seq<Byte>>,
                       maximum: nat, sha: Hash)
    requires OnlyThese(messages, index, m, read, maximum, sha) && |Joined(read)| < m.observedSize
    requires Carries(messages, index, m, chunks, maximum, sha)
    ensures |read| + 1 < |messages| && ChunkFits(messages[|read| + 1], index, |Joined(read)|, m.observedSize, maximum)
  {
    NextChunk(messages, index, m, chunks, maximum, sha, |read|);
  }

  /** When the next message is no acceptable chunk and the manifest is not complete, there is none. */
  lemma NoManifest(messages: seq<ManifestMessage>, index: nat, m: Meta, read: seq<seq<Byte>>, maximum: nat, sha: Hash)
    requires OnlyThese(messages, index, m, read, maximum, sha) && |Joined(read)| < m.observedSize
    requires |read| + 1 < |messages| ==>
        !ChunkFits(messages[|read| + 1], index, |Joined(read)|, m.observedSize, maximum)
    ensures forall chunks :: !Carries(messages, index, m, chunks, maximum, sha)
  {
    forall chunks | Carries(messages, index, m, chunks, maximum, sha) ensures false {
      ManifestGoesOn(messages, index, m, read, chunks, maximum, sha);
    }
  }

  lemma LastMessage(messages: seq<ManifestMessage>, index: nat, m: Meta, read: seq<seq<Byte>>, maximum: nat, sha: Hash)
    requires OnlyThese(messages, index, m, read, maximum, sha) && |Joined(read)| >= m.observedSize
    ensures forall chunks :: Carries(messages, index, m, chunks, maximum, sha) ==> chunks == read
  {
    forall chunks | Carries(messages, index, m, chunks, maximum, sha) ensures chunks == read {
      NextChunk(messages, index, m, chunks, maximum, sha, |read|);
      assert chunks[..|chunks|] == chunks;
    }
  }

  /** The chunks read are what the first messages say. */
  ghost predicate ReadSo(messages: seq<ManifestMessage>, index: nat, read: seq<seq<Byte>>, maximum: nat) {
    && |read| + 1 <= |messages| && Sized(read, maximum) && messages[1..|read| + 1] == ChunkMessages(index, 0, read)
  }

  lemma {:induction false} ChunkMessagesAppend(index: nat, offset: nat, read: seq<seq<Byte>>, bytes: seq<Byte>)
    ensures ChunkMessages(index, offset, read + [bytes])
         == ChunkMessages(index, offset, read) + [ManifestChunk(index, offset + |Joined(read)|, Base64(bytes))]
    decreases read
  {
    if read != [] {
      ChunkMessagesAppend(index, offset + |read[0]|, read[1..], bytes);
      assert (read + [bytes])[1..] == read[1..] + [bytes];
    }
  }

  lemma ReadOneMore(messages: seq<ManifestMessage>, index: nat, read: seq<seq<Byte>>, bytes: seq<Byte>, maximum: nat)
    requires ReadSo(messages, index, read, maximum) && |read| + 1 < |messages| && 0 < |bytes| <= maximum
    requires messages[|read| + 1] == ManifestChunk(index, |Joined(read)|, Base64(bytes))
    ensures ReadSo(messages, index, read + [bytes], maximum) && Joined(read + [bytes]) == Joined(read) + bytes
  {
    ChunkMessagesAppend(index, 0, read, bytes);
    JoinedAppend(read, bytes);
    assert messages[1..|read| + 2] == messages[1..|read| + 1] + [messages[|read| + 1]];
  }

  /** The chunks read, between the right first and last messages, are a manifest. */
  lemma AllRead(messages: seq<ManifestMessage>, index: nat, m: Meta, read: seq<seq<Byte>>, maximum: nat, sha: Hash)
    requires ReadSo(messages, index, read, maximum) && |Joined(read)| == m.observedSize && |read| + 1 < |messages|
    requires messages[0] == ManifestStart(index, m.observedSize, m.bodySha256)
    requires messages[|read| + 1] == ManifestEnd(index, m.observedSize, m.bodySha256)
    requires sha(Joined(read)) == m.bodySha256
    ensures Carries(messages, index, m, read, maximum, sha)
  {
  }

  /** The chunks after the first message, up to the promised size; the only ones a manifest could have. */
  method ReadChunks(index: nat, expected: Meta, messages: seq<ManifestMessage>, maximum: nat, ghost sha: Hash)
    returns (ok: bool, body: seq<Byte>, acks: nat, ghost read: seq<seq<Byte>>)
    requires messages != []
    ensures ok ==> acks == |read| + 1 && body == Joined(read) && |body| == expected.observedSize
    ensures ok ==> ReadSo(messages, index, read, maximum)
    ensures ok ==> forall chunks :: Carries(messages, index, expected, chunks, maximum, sha) ==> chunks == read
    ensures !ok ==> forall chunks :: !Carries(messages, index, expected, chunks, maximum, sha)
  {
    body, acks, read := [], 1, [];
    while |body| < expected.observedSize
      invariant acks == |read| + 1 && body == Joined(read) && |body| <= expected.observedSize
      invariant ReadSo(messages, index, read, maximum) && OnlyThese(messages, index, expected, read, maximum, sha)
      decreases expected.observedSize - |body|
    {
      if acks >= |messages| || !ChunkFits(messages[acks], index, |body|, expected.observedSize, maximum) {
        NoManifest(messages, index, expected, read, maximum, sha);
        return false, body, acks, read;
      }
      var bytes := messages[acks].payload.bytes;
      ReadOneMore(messages, index, read, bytes, maximum);
      OneMoreChunk(messages, index, expected, read, bytes, maximum, sha);
      read := read + [bytes];
      body, acks := body + bytes, acks + 1;
    }
    LastMessage(messages, index, expected, read, maximum, sha);
    return true, body, acks, read;
  }

  /**
    * Yields the manifest the messages carry, exactly when they carry one: `acks` counts the messages acknowledged.
    * Nothing is assumed of the sender.
    */
  method ReadPackageManifestFrames(entries: seq<Meta>, messages: seq<ManifestMessage>, maximum: nat, sha: Hash)
    returns (manifest: Option<seq<Byte>>, acks: nat)
    ensures manifest.Some? <==>
      && ManifestIndex(entries).Some? && Expectable(entries[ManifestIndex(entries).value])
      && exists chunks :: Carries(messages, ManifestIndex(entries).value, entries[ManifestIndex(entries).value],
                                  chunks, maximum, sha)
    ensures manifest.Some? ==>
      forall chunks :: Carries(messages, ManifestIndex(entries).value, entries[ManifestIndex(entries).value], chunks,
                               maximum, sha)
                       ==> manifest.value == Joined(chunks) && acks == |chunks| + 2
  {
    acks := 0;
    if ManifestIndex(entries).None? { return None, acks; }
    var index := ManifestIndex(entries).value;
    var expected := entries[index];
    if !Expectable(expected) { return None, acks; }
    if |messages| == 0 || messages[0] != ManifestStart(index, expected.observedSize, expected.bodySha256) {
      return None, acks;
    }
    var ok, body;
    ghost var read;
    ok, body, acks, read := ReadChunks(index, expected, messages, maximum, sha);
    if !ok { return None, acks; }
    if acks >= |messages| || messages[acks] != ManifestEnd(index, |body|, expected.bodySha256)
      || sha(body) != expected.bodySha256 {
      return None, acks;
    }
    AllRead(messages, index, expected, read, maximum, sha);
    return Some(body), acks + 1;
  }

  // ----- What the worker sends -----

  /** The body cut into chunks of the requested size. */
  function Pieces(body: seq<Byte>, offset: nat, size: nat): seq<seq<Byte>>
    requires size > 0
    decreases |body| - offset
  {
    if offset >= |body| then [] else [body[offset..Min(|body|, offset + size)]] + Pieces(body, offset + size, size)
  }

  lemma {:induction false} PiecesJoin(body: seq<Byte>, offset: nat, size: nat)
    requires size > 0
    ensures Joined(Pieces(body, offset, size)) == if offset >= |body| then [] else body[offset..]
    ensures Sized(Pieces(body, offset, size), size)
    decreases |body| - offset
  {
    if offset < |body| {
      PiecesJoin(body, offset + size, size);
      assert Pieces(body, offset, size)[1..] == Pieces(body, offset + size, size);
    }
  }

  lemma OneMorePiece(index: nat, body: seq<Byte>, done: seq<seq<Byte>>, offset: nat, size: nat, m: Meta)
    requires size > 0 && offset < |body| && |Joined(done)| == offset
    ensures var chunk, start := body[offset..Min(|body|, offset + size)], [ManifestStart(index, |body|, m.bodySha256)];
      && done + Pieces(body, offset, size) == (done + [chunk]) + Pieces(body, offset + size, size)
      && |Joined(done + [chunk])| == offset + |chunk|
      && start + ChunkMessages(index, 0, done + [chunk])
         == start + ChunkMessages(index, 0, done) + [ManifestChunk(index, offset, Base64(chunk))]
  {
    var chunk := body[offset..Min(|body|, offset + size)];
    NextPiece(body, done, offset, size);
    ChunkMessagesAppend(index, 0, done, chunk);
    JoinedAppend(done, chunk);
    Regroup([ManifestStart(index, |body|, m.bodySha256)], ChunkMessages(index, 0, done),
            [ManifestChunk(index, offset, Base64(chunk))]);
  }

  lemma NextPiece(body: seq<Byte>, done: seq<seq<Byte>>, offset: nat, size: nat)
    requires size > 0 && offset < |body|
    ensures var chunk := body[offset..Min(|body|, offset + size)];
      done + Pieces(body, offset, size) == (done + [chunk]) + Pieces(body, offset + size, size)
  {
    Regroup(done, [body[offset..Min(|body|, offset + size)]], Pieces(body, offset + size, size));
  }

  function WorkerMessages(index: nat, m: Meta, body: seq<Byte>, size: nat): seq<ManifestMessage>
    requires size > 0
  {
    [ManifestStart(index, |body|, m.bodySha256)] + ChunkMessages(index, 0, Pieces(body, 0, size))
    + [ManifestEnd(index, |body|, m.bodySha256)]
  }

  /** The worker's loop over the manifest's body. */
  method SendManifest(index: nat, m: Meta, body: seq<Byte>, size: nat) returns (sent: seq<ManifestMessage>)
    requires size > 0
    ensures sent == WorkerMessages(index, m, body, size)
  {
    sent := [ManifestStart(index, |body|, m.bodySha256)];
    var offset := 0;
    ghost var done: seq<seq<Byte>> := [];
    while offset < |body|
      invariant offset <= |body| ==> |Joined(done)| == offset
      invariant done + Pieces(body, offset, size) == Pieces(body, 0, size)
      invariant sent == [ManifestStart(index, |body|, m.bodySha256)] + ChunkMessages(index, 0, done)
      decreases |body| - offset
    {
      var chunk := body[offset..Min(|body|, offset + size)];
      sent := sent + [ManifestChunk(index, offset, Base64(chunk))];
      OneMorePiece(index, body, done, offset, size, m);
      done := done + [chunk];
      offset := offset + size;
    }
    assert done + [] == done;
    sent := sent + [ManifestEnd(index, |body|, m.bodySha256)];
  }

  /**
    * What the worker sends, followed by anything, carries the manifest's body, when its size and digest are as
    * promised.
    */
  lemma WorkerCarries(index: nat, m: Meta, body: seq<Byte>, size: nat, maximum: nat, more: seq<ManifestMessage>,
                      sha: Hash)
    requires 0 < size <= maximum && |body| == m.observedSize && sha(body) == m.bodySha256
    ensures Carries(WorkerMessages(index, m, body, size) + more, index, m, Pieces(body, 0, size), maximum, sha)
    ensures Joined(Pieces(body, 0, size)) == body
  {
    PiecesJoin(body, 0, size);
    assert body[0..] == body;
    Sandwiched(ManifestStart(index, |body|, m.bodySha256), ChunkMessages(index, 0, Pieces(body, 0, size)),
               ManifestEnd(index, |body|, m.bodySha256), more);
  }

  lemma Sandwiched<T>(first: T, middle: seq<T>, last: T, more: seq<T>)
    ensures var all := [first] + middle + [last] + more;
      all[0] == first && all[1..|middle| + 1] == middle && all[|middle| + 1] == last
  {
  }
}
