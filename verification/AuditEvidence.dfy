/** What the audit gate's records can tell: each event with its evidence, and nothing else. */
module AuditEvidence {
  import opened Numbers
  import opened AuditTrace
  import opened AuditPayloads
  import opened MetadataBroker

  /** The evidence of one event. */
  datatype Evidence =
    | Snapshot(manifest: string)
    | Containment(evidence: string)
    | Plan(envelope: string)
    | RequestStarted(sequence: int, packageName: string)
    | ResponseValidated(sequence: int, packageName: string, bytes: int)
    | Terminal(status: string, exitCode: int, stdoutBytes: int, stderrBytes: int)
    | Drained(handlers: int)
    | PostState(digest: string)
    | OutputIntent(artifact: string, candidate: string)
    | OutputWritten(artifact: string, candidate: string, bytes: int)
    | Incomplete(externalRead: bool)
    | Nothing(event: EventName)

  /** A digest in lower-case hexadecimal. */
  predicate Sha256(s: string) {
    |s| == 64 && forall c :: c in s ==> c in "0123456789abcdef"
  }

  /** A name without control characters, of at most 256 code units. */
  predicate Printable(name: string) {
    |name| <= 256 && forall i :: 0 <= i < |name| ==> name[i] >= ' ' && name[i] != '\U{007f}'
  }

  /** The evidence an event may carry. */
  predicate Fits(e: Evidence) {
    match e
    case Snapshot(digest) => Sha256(digest)
    case Containment(digest) => Sha256(digest)
    case Plan(digest) => Sha256(digest)
    case RequestStarted(sequence, name) => 1 <= sequence <= 9_007_199_254_740_991 && Printable(name)
    case ResponseValidated(sequence, name, bytes) =>
      1 <= sequence <= 9_007_199_254_740_991 && Printable(name) && 1 <= bytes <= 8_388_608
    case Terminal(status, exitCode, out, err) =>
      && (status == "completed" || status == "failed" || status == "timed_out" || status == "cancelled"
          || status == "output_overflow")
      && -1 <= exitCode <= 255 && 0 <= out <= 262_144 && 0 <= err <= 262_144
    case Drained(handlers) => 0 <= handlers <= 1024
    case PostState(digest) => Sha256(digest)
    case OutputIntent(artifact, candidate) => Sha256(artifact) && Sha256(candidate)
    case OutputWritten(artifact, candidate, bytes) => Sha256(artifact) && Sha256(candidate) && 1 <= bytes <= 4_194_304
    case Incomplete(_) => true
    case Nothing(event) =>
      event in {AuthorizationFinalized, BrokerArmed, NpmSpawnIntentRecorded, NpmSpawnStarted, LockValidationStarted,
                CandidateCompiled, CleanupComplete, CleanupIncomplete, GenesisComplete}
  }

  /** The record of an event with its evidence. */
  function Recorded(e: Evidence): Record {
    match e
    case Snapshot(digest) => Record(RuntimeSnapshotComplete, map["runtimeManifestDigest" := Text(digest)])
    case Containment(digest) => Record(ContainmentProbeComplete, map["containmentEvidenceDigest" := Text(digest)])
    case Plan(digest) => Record(PlanReady, map["executionEnvelopeHash" := Text(digest)])
    case RequestStarted(sequence, name) =>
      Record(MetadataRequestStarted, map["sequence" := Number(sequence), "packageName" := Text(name)])
    case ResponseValidated(sequence, name, bytes) =>
      Record(MetadataResponseValidated,
             map["sequence" := Number(sequence), "packageName" := Text(name), "responseBytes" := Number(bytes)])
    case Terminal(status, exitCode, out, err) =>
      Record(NpmTerminalObserved,
             map["status" := Text(status), "exitCode" := Number(exitCode), "stdoutBytes" := Number(out),
                 "stderrBytes" := Number(err)])
    case Drained(handlers) => Record(ListenerDrained, map["acceptedHandlerCount" := Number(handlers)])
    case PostState(digest) => Record(PostStateValidated, map["postStateDigest" := Text(digest)])
    case OutputIntent(artifact, candidate) =>
      Record(CandidateOutputIntent, map["artifactDigest" := Text(artifact), "candidateDigest" := Text(candidate)])
    case OutputWritten(artifact, candidate, bytes) =>
      Record(CandidateOutputWritten,
             map["artifactDigest" := Text(artifact), "candidateDigest" := Text(candidate), "bytes" := Number(bytes)])
    case Incomplete(externalRead) => Record(GenesisIncomplete, map["externalReadMayHaveOccurred" := Flag(externalRead)])
    case Nothing(event) => Record(event, map[])
  }

  lemma DigestIs(s: string)
    ensures Sha256(s) <==> |s| == 64 && forall i :: 0 <= i < 64 ==> IsLowerHex(s[i])
  {
    if Sha256(s) {
      forall i | 0 <= i < 64 ensures IsLowerHex(s[i]) {
        assert s[i] in s;
      }
    }
    if |s| == 64 && forall i :: 0 <= i < 64 ==> IsLowerHex(s[i]) {
      forall c | c in s ensures c in "0123456789abcdef" {
        var i :| 0 <= i < 64 && s[i] == c;
        HexIsListed(c);
      }
    }
  }

  lemma HexIsListed(c: char)
    requires IsLowerHex(c)
    ensures c in "0123456789abcdef"
  {
    var listed := "0123456789abcdef";
    var i := if c <= '9' then c as int - '0' as int else c as int - 'a' as int + 10;
    assert listed[i] == c;
  }

  lemma PrintableIs(name: string)
    ensures Printable(name) <==> SafeName(name)
  {
    if Printable(name) {
      forall c | c in name ensures ' ' <= c && c != '\U{007f}' {
        var i :| 0 <= i < |name| && name[i] == c;
      }
    }
    if SafeName(name) {
      forall i | 0 <= i < |name| ensures name[i] >= ' ' && name[i] != '\U{007f}' {
        assert name[i] in name;
      }
    }
  }

  lemma RequestIsValid(e: Evidence)
    requires Fits(e) && (e.RequestStarted? || e.ResponseValidated?)
    ensures ValidPayload(Recorded(e))
  {
    PrintableIs(e.packageName);
  }

  lemma OutputIsValid(e: Evidence)
    requires Fits(e) && (e.OutputIntent? || e.OutputWritten?)
    ensures ValidPayload(Recorded(e))
  {
    DigestIs(e.artifact);
    DigestIs(e.candidate);
  }

  lemma DigestIsValid(e: Evidence)
    requires Fits(e) && (e.Snapshot? || e.Containment? || e.Plan? || e.PostState?)
    ensures ValidPayload(Recorded(e))
  {
    match e
    case Snapshot(digest) => DigestIs(digest);
    case Containment(digest) => DigestIs(digest);
    case Plan(digest) => DigestIs(digest);
    case PostState(digest) => DigestIs(digest);
  }

  lemma OtherIsValid(e: Evidence)
    requires Fits(e) && (e.Terminal? || e.Drained? || e.Incomplete? || e.Nothing?)
    ensures ValidPayload(Recorded(e))
  {
  }

  lemma RecordedIsValid(e: Evidence)
    requires Fits(e)
    ensures ValidPayload(Recorded(e))
  {
    if e.RequestStarted? || e.ResponseValidated? {
      RequestIsValid(e);
    } else if e.OutputIntent? || e.OutputWritten? {
      OutputIsValid(e);
    } else if e.Snapshot? || e.Containment? || e.Plan? || e.PostState? {
      DigestIsValid(e);
    } else {
      OtherIsValid(e);
    }
  }

  lemma DigestsTell(r: Record)
    returns (e: Evidence)
    requires ValidPayload(r)
    requires r.event in {RuntimeSnapshotComplete, ContainmentProbeComplete, PlanReady, PostStateValidated}
    ensures Fits(e) && Recorded(e) == r
  {
    match r.event
    case RuntimeSnapshotComplete =>
      e := Snapshot(r.payload["runtimeManifestDigest"].s);
      DigestIs(e.manifest);
    case ContainmentProbeComplete =>
      e := Containment(r.payload["containmentEvidenceDigest"].s);
      DigestIs(e.evidence);
    case PlanReady =>
      e := Plan(r.payload["executionEnvelopeHash"].s);
      DigestIs(e.envelope);
    case PostStateValidated =>
      e := PostState(r.payload["postStateDigest"].s);
      DigestIs(e.digest);
  }

  lemma RequestTells(r: Record)
    returns (e: Evidence)
    requires ValidPayload(r) && (r.event == MetadataRequestStarted || r.event == MetadataResponseValidated)
    ensures Fits(e) && Recorded(e) == r
  {
    var sequence, name := r.payload["sequence"].n, r.payload["packageName"].s;
    PrintableIs(name);
    if r.event == MetadataRequestStarted {
      return RequestStarted(sequence, name);
    }
    return ResponseValidated(sequence, name, r.payload["responseBytes"].n);
  }

  lemma OutputTells(r: Record)
    returns (e: Evidence)
    requires ValidPayload(r) && (r.event == CandidateOutputIntent || r.event == CandidateOutputWritten)
    ensures Fits(e) && Recorded(e) == r
  {
    var artifact, candidate := r.payload["artifactDigest"].s, r.payload["candidateDigest"].s;
    DigestIs(artifact);
    DigestIs(candidate);
    if r.event == CandidateOutputIntent {
      return OutputIntent(artifact, candidate);
    }
    return OutputWritten(artifact, candidate, r.payload["bytes"].n);
  }

  lemma OthersTell(r: Record)
    returns (e: Evidence)
    requires ValidPayload(r) && r.event in {NpmTerminalObserved, ListenerDrained, GenesisIncomplete}
    ensures Fits(e) && Recorded(e) == r
  {
    match r.event
    case NpmTerminalObserved =>
      e := Terminal(r.payload["status"].s, r.payload["exitCode"].n, r.payload["stdoutBytes"].n,
                    r.payload["stderrBytes"].n);
    case ListenerDrained => e := Drained(r.payload["acceptedHandlerCount"].n);
    case GenesisIncomplete => e := Evidence.Incomplete(r.payload["externalReadMayHaveOccurred"].b);
  }

  /** The gate's payload tests pass exactly the records of some event with evidence that fits it. */
  lemma ValidIsEvidence(r: Record)
    ensures ValidPayload(r) <==> exists e :: Fits(e) && Recorded(e) == r
  {
    if ValidPayload(r) {
      var e: Evidence;
      match r.event {
        case RuntimeSnapshotComplete => e := DigestsTell(r);
        case ContainmentProbeComplete => e := DigestsTell(r);
        case PlanReady => e := DigestsTell(r);
        case PostStateValidated => e := DigestsTell(r);
        case MetadataRequestStarted => e := RequestTells(r);
        case MetadataResponseValidated => e := RequestTells(r);
        case CandidateOutputIntent => e := OutputTells(r);
        case CandidateOutputWritten => e := OutputTells(r);
        case NpmTerminalObserved => e := OthersTell(r);
        case ListenerDrained => e := OthersTell(r);
        case GenesisIncomplete => e := OthersTell(r);
        case _ => e := Nothing(r.event);
      }
      assert Fits(e) && Recorded(e) == r;
    }
    if e :| Fits(e) && Recorded(e) == r {
      RecordedIsValid(e);
    }
  }
}
