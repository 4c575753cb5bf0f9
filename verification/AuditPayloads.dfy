/** Which payload each audit event may carry, field by field. */
module AuditPayloads {
  import opened Numbers
  import opened Options
  import opened AuditTrace
  import opened MetadataBroker

  function ExpectedKeys(event: EventName): set<string> {
    match event
    case RuntimeSnapshotComplete => {"runtimeManifestDigest"}
    case ContainmentProbeComplete => {"containmentEvidenceDigest"}
    case PlanReady => {"executionEnvelopeHash"}
    case MetadataRequestStarted => {"packageName", "sequence"}
    case MetadataResponseValidated => {"packageName", "responseBytes", "sequence"}
    case NpmTerminalObserved => {"exitCode", "status", "stderrBytes", "stdoutBytes"}
    case ListenerDrained => {"acceptedHandlerCount"}
    case PostStateValidated => {"postStateDigest"}
    case CandidateOutputIntent => {"artifactDigest", "candidateDigest"}
    case CandidateOutputWritten => {"artifactDigest", "bytes", "candidateDigest"}
    case GenesisIncomplete => {"externalReadMayHaveOccurred"}
    case _ => {}
  }

  predicate IsLowerHex(c: char) {
    'a' <= c <= 'f' || '0' <= c <= '9'
  }

  predicate IsDigest(v: Option<Scalar>) {
    IsText(v) && |v.value.s| == 64 && forall i :: 0 <= i < 64 ==> IsLowerHex(v.value.s[i])
  }

  predicate IsBetween(v: Option<Scalar>, low: int, high: int) {
    IsSafeInteger(v) && low <= v.value.n <= high
  }

  predicate IsOneOf(v: Option<Scalar>, texts: set<string>) {
    IsText(v) && v.value.s in texts
  }

  predicate NamesRequest(r: Record) {
    && IsBetween(r.Field("sequence"), 1, MAX_SAFE_INTEGER)
    && IsText(r.Field("packageName")) && SafeName(r.Field("packageName").value.s)
  }

  /** The tests `assertAuditPayload` makes. */
  predicate ValidPayload(r: Record) {
    && r.payload.Keys == ExpectedKeys(r.event)
    && match r.event
       case MetadataRequestStarted => NamesRequest(r)
       case MetadataResponseValidated => NamesRequest(r) && IsBetween(r.Field("responseBytes"), 1, MAX_RESPONSE_BYTES)
       case NpmTerminalObserved =>
         && IsOneOf(r.Field("status"), {"completed", "failed", "timed_out", "cancelled", "output_overflow"})
         && IsBetween(r.Field("exitCode"), -1, 255)
         && IsBetween(r.Field("stdoutBytes"), 0, 256 * 1024) && IsBetween(r.Field("stderrBytes"), 0, 256 * 1024)
       case RuntimeSnapshotComplete => IsDigest(r.Field("runtimeManifestDigest"))
       case ContainmentProbeComplete => IsDigest(r.Field("containmentEvidenceDigest"))
       case PlanReady => IsDigest(r.Field("executionEnvelopeHash"))
       case PostStateValidated => IsDigest(r.Field("postStateDigest"))
       case CandidateOutputIntent => IsDigest(r.Field("artifactDigest")) && IsDigest(r.Field("candidateDigest"))
       case CandidateOutputWritten =>
         && IsDigest(r.Field("artifactDigest")) && IsDigest(r.Field("candidateDigest"))
         && IsBetween(r.Field("bytes"), 1, 4 * 1024 * 1024)
       case ListenerDrained => IsBetween(r.Field("acceptedHandlerCount"), 0, 1_024)
       case GenesisIncomplete => var v := r.Field("externalReadMayHaveOccurred"); v.Some? && v.value.Flag?
       case _ => true
  }

  /** Of the broker's own records, exactly those with a safe name and a permitted size are valid. */
  lemma BrokerPayloads(sequence: nat, name: string, bytes: nat)
    requires 1 <= sequence <= MAX_SAFE_INTEGER
    ensures ValidPayload(RequestRecord(sequence, name)) <==> SafeName(name)
    ensures ValidPayload(ResponseRecord(sequence, name, bytes)) <==> SafeName(name) && 1 <= bytes <= MAX_RESPONSE_BYTES
  {
    assert RequestRecord(sequence, name).payload.Keys == {"packageName", "sequence"};
    assert ResponseRecord(sequence, name, bytes).payload.Keys == {"packageName", "responseBytes", "sequence"};
  }
}
