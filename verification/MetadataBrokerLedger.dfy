/** A completed session's ledger and the audit gate's records describe the same requests. */
module MetadataBrokerLedger {
  import opened Options
  import opened AuditTrace
  import opened Numbering
  import opened Seqs = Sequences
  import opened MetadataBroker
  import opened MetadataBrokerOverlap
  import opened MetadataBrokerSafety

  function NumberIn(record: Record, key: string): int {
    if record.Field(key).Some? && record.Field(key).value.Number? then record.Field(key).value.n else 0
  }

  function SequenceOf(record: Record): int {
    NumberIn(record, "sequence")
  }

  predicate Numbered(records: seq<Record>, event: EventName, i: int, k: int) {
    0 <= i < |records| && records[i].event == event && SequenceOf(records[i]) == k
  }

  /** Some record of this event carries sequence number `k`. */
  ghost predicate SomeOf(records: seq<Record>, event: EventName, k: int) {
    exists i :: Numbered(records, event, i, k)
  }

  predicate Requested(records: seq<Record>, i: int, k: int) {
    Numbered(records, MetadataRequestStarted, i, k)
  }

  predicate Responded(records: seq<Record>, j: int, k: int) {
    Numbered(records, MetadataResponseValidated, j, k)
  }

  ghost predicate SomeRequested(records: seq<Record>, k: int) {
    SomeOf(records, MetadataRequestStarted, k)
  }

  ghost predicate SomeResponded(records: seq<Record>, k: int) {
    SomeOf(records, MetadataResponseValidated, k)
  }

  ghost predicate RequestedBefore(records: seq<Record>, j: int, k: int) {
    exists i :: Requested(records, i, k) && i < j
  }

  /** Each metadata record is the one the broker writes for that request. */
  ghost predicate RecordsGenuine(records: seq<Record>, requests: seq<Request>) {
    && (forall i :: IsRequest(records, i) ==>
          && 1 <= SequenceOf(records[i]) <= |requests|
          && records[i] == RequestRecord(SequenceOf(records[i]), requests[SequenceOf(records[i]) - 1].packageName))
    && (forall j :: IsResponse(records, j) ==>
          && 1 <= SequenceOf(records[j]) <= |requests|
          && 0 <= NumberIn(records[j], "responseBytes")
          && records[j] == ResponseRecord(SequenceOf(records[j]), requests[SequenceOf(records[j]) - 1].packageName,
                                          NumberIn(records[j], "responseBytes")))
  }

  ghost predicate RecordsDistinct(records: seq<Record>) {
    && (forall i, j :: IsRequest(records, i) && IsRequest(records, j) && i < j ==>
       SequenceOf(records[i]) != SequenceOf(records[j]))
    && (forall i, j :: IsResponse(records, i) && IsResponse(records, j) && i < j ==>
       SequenceOf(records[i]) != SequenceOf(records[j]))
    && (forall j :: IsResponse(records, j) ==> RequestedBefore(records, j, SequenceOf(records[j])))
  }

  predicate IntentDurable(f: Frame) {
    f == IntentSettled(true) || f.Fetching? || f.ResponseAppending? || f.ResponseSettled? || f == Returned(true)
  }

  predicate ResponseOpen(f: Frame) {
    f.IntentAppending? || f.IntentSettled? || f.Fetching? || f.ResponseAppending?
  }

  /** What a request's frame says about the records written for it. */
  ghost predicate FrameRecorded(records: seq<Record>, request: Request, k: int) {
    && (request.frame.IntentAppending? ==> !SomeRequested(records, k))
    && (IntentDurable(request.frame) ==> SomeRequested(records, k))
    && (ResponseOpen(request.frame) ==> !SomeResponded(records, k))
    && (request.frame.ResponseSettled? && request.frame.durable ==>
          k >= 0 && ResponseRecord(k, request.packageName, |request.frame.body|) in records)
  }

  ghost predicate FramesRecorded(records: seq<Record>, requests: seq<Request>) {
    forall q :: 0 <= q < |requests| ==> FrameRecorded(records, requests[q], q + 1)
  }

  ghost predicate EntriesRecorded(records: seq<Record>, entries: seq<Entry>) {
    forall k :: 0 <= k < |entries| ==>
      ResponseRecord(entries[k].sequence, entries[k].packageName, entries[k].ResponseBytes()) in records
  }

  ghost predicate Traced(s: State) {
    && RecordsGenuine(s.gate.records, s.requests)
    && RecordsDistinct(s.gate.records)
    && FramesRecorded(s.gate.records, s.requests)
    && EntriesRecorded(s.gate.records, s.entries)
  }

  ghost predicate NoMetadataYet(gate: Gate) {
    forall i :: 0 <= i < |gate.records| ==> !IsMetadata(gate.records[i])
  }

  // ----- Appending to the records -----

  lemma AppendSome(records: seq<Record>, r: Record, event: EventName, k: int)
    ensures SomeOf(records + [r], event, k) <==> SomeOf(records, event, k) || (r.event == event && SequenceOf(r) == k)
  {
    var t := records + [r];
    assert t[|records|] == r;
    if SomeOf(records, event, k) {
      var i :| Numbered(records, event, i, k);
      assert Numbered(t, event, i, k);
    }
    if r.event == event && SequenceOf(r) == k { assert Numbered(t, event, |records|, k); }
    if SomeOf(t, event, k) {
      var i :| Numbered(t, event, i, k);
      assert i < |records| ==> Numbered(records, event, i, k);
    }
  }

  lemma AppendAt(records: seq<Record>, r: Record, k: int)
    ensures SomeRequested(records + [r], k) <==>
        SomeRequested(records, k) || (r.event == MetadataRequestStarted && SequenceOf(r) == k)
    ensures SomeResponded(records + [r], k) <==>
        SomeResponded(records, k) || (r.event == MetadataResponseValidated && SequenceOf(r) == k)
  {
    AppendSome(records, r, MetadataRequestStarted, k);
    AppendSome(records, r, MetadataResponseValidated, k);
  }

  lemma AppendKeepsRequestedBefore(records: seq<Record>, r: Record, j: int, k: int)
    requires RequestedBefore(records, j, k)
    ensures RequestedBefore(records + [r], j, k)
  {
    var i :| Requested(records, i, k) && i < j;
    assert Requested(records + [r], i, k);
  }

  lemma AppendKeepsDistinct(records: seq<Record>, r: Record)
    requires RecordsDistinct(records)
    requires r.event == MetadataRequestStarted ==> !SomeRequested(records, SequenceOf(r))
    requires r.event == MetadataResponseValidated ==>
        !SomeResponded(records, SequenceOf(r)) && SomeRequested(records, SequenceOf(r))
    ensures RecordsDistinct(records + [r])
  {
    var t := records + [r];
    var n := |records|;
    forall i, j | IsRequest(t, i) && IsRequest(t, j) && i < j ensures SequenceOf(t[i]) != SequenceOf(t[j]) {
      assert IsRequest(records, i);
      assert Requested(records, i, SequenceOf(t[i]));
    }
    forall i, j | IsResponse(t, i) && IsResponse(t, j) && i < j ensures SequenceOf(t[i]) != SequenceOf(t[j]) {
      assert IsResponse(records, i);
      assert Responded(records, i, SequenceOf(t[i]));
    }
    forall j | IsResponse(t, j) ensures RequestedBefore(t, j, SequenceOf(t[j])) {
      if j < n {
        assert IsResponse(records, j);
        AppendKeepsRequestedBefore(records, r, j, SequenceOf(t[j]));
      } else {
        var i :| Numbered(records, MetadataRequestStarted, i, SequenceOf(r));
        assert Requested(t, i, SequenceOf(r));
      }
    }
  }

  lemma AppendKeepsFrame(records: seq<Record>, r: Record, request: Request, k: int)
    requires FrameRecorded(records, request, k)
    requires IsMetadata(r) ==> SequenceOf(r) != k
    ensures FrameRecorded(records + [r], request, k)
  {
    AppendAt(records, r, k);
  }

  // ----- Preservation -----

  lemma ReserveTraced(s: State, name: string, frame: Frame)
    requires Traced(s) && (frame.IntentAppending? || frame == IntentSettled(false))
    ensures Traced(Reserved(s, name, frame))
  {
    var k := |s.requests| + 1;
    assert !SomeRequested(s.gate.records, k) && !SomeResponded(s.gate.records, k);
    assert FrameRecorded(s.gate.records, Request(name, frame), k);
  }

  lemma FrameTraced(s: State, i: nat, frame: Frame)
    requires Traced(s) && i < |s.requests|
    requires FrameRecorded(s.gate.records, Request(s.requests[i].packageName, frame), i + 1)
    ensures Traced(SetFrame(s, i, frame))
  {
    var t := SetFrame(s, i, frame);
    assert forall q :: 0 <= q < |t.requests| ==> t.requests[q].packageName == s.requests[q].packageName;
    forall q | 0 <= q < |t.requests| ensures FrameRecorded(t.gate.records, t.requests[q], q + 1) {
      if q != i { assert t.requests[q] == s.requests[q]; }
    }
  }

  lemma FailRequestTraced(s: State, i: nat, cause: Predicate)
    requires Traced(s) && i < |s.requests|
    ensures Traced(FailRequest(s, i, cause))
  {
    FrameTraced(s, i, FailEntered);
  }

  lemma GenuineUpdate(records: seq<Record>, requests: seq<Request>, i: nat, request: Request)
    requires RecordsGenuine(records, requests) && i < |requests| && request.packageName == requests[i].packageName
    ensures RecordsGenuine(records, requests[i := request])
  {
    var t := requests[i := request];
    assert forall q :: 0 <= q < |t| ==> t[q].packageName == requests[q].packageName;
  }

  /** The record is the broker's own for its request, or no metadata record at all. */
  predicate GenuineRecord(r: Record, requests: seq<Request>) {
    IsMetadata(r) ==>
      && 1 <= SequenceOf(r) <= |requests|
      && (r == RequestRecord(SequenceOf(r), requests[SequenceOf(r) - 1].packageName)
          || (&& 0 <= NumberIn(r, "responseBytes")
              && r == ResponseRecord(SequenceOf(r), requests[SequenceOf(r) - 1].packageName,
                                     NumberIn(r, "responseBytes"))))
  }

  lemma GenuineAppend(records: seq<Record>, requests: seq<Request>, r: Record)
    requires RecordsGenuine(records, requests) && GenuineRecord(r, requests)
    ensures RecordsGenuine(records + [r], requests)
  {
    var t := records + [r];
    assert t[|records|] == r;
    forall i | IsRequest(t, i) && i < |records| ensures t[i] == records[i] && IsRequest(records, i) {}
    forall i | IsResponse(t, i) && i < |records| ensures t[i] == records[i] && IsResponse(records, i) {}
  }

  /** Pushing the record of request `i` while its frame moves on. */
  lemma FramesPush(records: seq<Record>, r: Record, requests: seq<Request>, i: nat, request: Request)
    requires FramesRecorded(records, requests) && i < |requests|
    requires IsMetadata(r) ==> SequenceOf(r) == i + 1
    requires FrameRecorded(records + [r], request, i + 1)
    ensures FramesRecorded(records + [r], requests[i := request])
  {
    var t := requests[i := request];
    forall q | 0 <= q < |t| ensures FrameRecorded(records + [r], t[q], q + 1) {
      if q != i {
        assert t[q] == requests[q];
        AppendKeepsFrame(records, r, requests[q], q + 1);
      }
    }
  }

  lemma SettleIntentTraced(s: State, i: nat, accepted: bool)
    requires Traced(s) && i < |s.requests| && s.requests[i].frame.IntentAppending?
    ensures Traced(SettleIntent(s, i, accepted))
  {
    var records := s.gate.records;
    var name := s.requests[i].packageName;
    assert FrameRecorded(records, s.requests[i], i + 1);
    if !accepted {
      FrameTraced(s, i, IntentSettled(false));
    } else {
      var r := RequestRecord(i + 1, name);
      var moved := Request(name, IntentSettled(true));
      assert SequenceOf(r) == i + 1;
      AppendKeepsDistinct(records, r);
      AppendAt(records, r, i + 1);
      FramesPush(records, r, s.requests, i, moved);
      GenuineAppend(records, s.requests, r);
      GenuineUpdate(records + [r], s.requests, i, moved);
    }
  }

  lemma SettleResponseTraced(s: State, i: nat, accepted: bool)
    requires Traced(s) && i < |s.requests| && s.requests[i].frame.ResponseAppending?
    ensures Traced(SettleResponse(s, i, accepted))
  {
    var records := s.gate.records;
    var name := s.requests[i].packageName;
    var f := s.requests[i].frame;
    assert FrameRecorded(records, s.requests[i], i + 1);
    if !accepted {
      FrameTraced(s, i, ResponseSettled(f.body, f.nextCommitted, false));
    } else {
      var r := ResponseRecord(i + 1, name, |f.body|);
      var moved := Request(name, ResponseSettled(f.body, f.nextCommitted, true));
      assert SequenceOf(r) == i + 1 && NumberIn(r, "responseBytes") == |f.body|;
      AppendKeepsDistinct(records, r);
      AppendAt(records, r, i + 1);
      assert (records + [r])[|records|] == r;
      FramesPush(records, r, s.requests, i, moved);
      GenuineAppend(records, s.requests, r);
      GenuineUpdate(records + [r], s.requests, i, moved);
    }
  }

  lemma ResumeResponseTraced(s: State, i: nat)
    requires Traced(s) && i < |s.requests| && s.requests[i].frame.ResponseSettled?
    ensures Traced(ResumeResponse(s, i))
  {
    var f := s.requests[i].frame;
    assert FrameRecorded(s.gate.records, s.requests[i], i + 1);
    if !f.durable {
      FailRequestTraced(s, i, ResponseValidationNotDurable);
    } else if s.phase != Armed {
      FailRequestTraced(s, i, SessionNotArmed);
    } else {
      FrameTraced(s, i, Returned(true));
    }
  }

  lemma OtherRecordTraced(s: State, record: Record, bytes: nat)
    requires Traced(s) && !IsMetadata(record)
    ensures Traced(s.(gate := Pushed(s.gate, record, bytes)))
  {
    var records := s.gate.records;
    AppendKeepsDistinct(records, record);
    GenuineAppend(records, s.requests, record);
    forall q | 0 <= q < |s.requests| ensures FrameRecorded(records + [record], s.requests[q], q + 1) {
      AppendKeepsFrame(records, record, s.requests[q], q + 1);
    }
  }

  lemma FetchTraced(s: State, i: nat, result: FetchResult, bytes: nat)
    requires Traced(s) && i < |s.requests| && s.requests[i].frame.Fetching?
    ensures Traced(SettleFetch(s, i, result, bytes))
  {
    assert FrameRecorded(s.gate.records, s.requests[i], i + 1);
    match result
    case FetchFailed(cause) => FailRequestTraced(s, i, cause);
    case Fetched(body) =>
      if s.phase != Armed || s.aborted {
        FailRequestTraced(s, i, SessionNotArmed);
      } else if Overflows(s, body) {
        FailRequestTraced(s, i, Unclassified);
      } else {
        FrameTraced(s, i, SettleFetch(s, i, result, bytes).requests[i].frame);
      }
  }

  lemma ResumeIntentTraced(s: State, i: nat)
    requires Traced(s) && i < |s.requests| && s.requests[i].frame.IntentSettled?
    ensures Traced(ResumeIntent(s, i))
  {
    assert FrameRecorded(s.gate.records, s.requests[i], i + 1);
    if !s.requests[i].frame.durable {
      FailRequestTraced(s, i, RequestIntentNotDurable);
    } else if s.phase != Armed {
      FailRequestTraced(s, i, SessionNotArmed);
    } else {
      FrameTraced(s, i, Fetching);
    }
  }

  predicate SameTrace(s: State, t: State) {
    t.gate.records == s.gate.records && t.requests == s.requests && t.entries == s.entries
  }

  lemma FailSameTrace(s: State, cause: Predicate, ordinal: Option<nat>, owner: Option<nat>)
    ensures SameTrace(s, EnterFail(s, cause, ordinal, owner))
  {
  }

  lemma OtherStepSameTrace(s: State, e: Event)
    requires e.ArmCall? || e.ArmResume? || e.FailureCallbackSettled? || e.ClaimCall? || e.TerminalPrepared?
    ensures SameTrace(s, Next(s, e))
  {
  }

  lemma SessionStepTraced(s: State, e: Event)
    requires Traced(s) && !OfRequest(e) && !e.HandleCall?
    ensures Traced(Next(s, e))
  {
    if e.ArmAppendSettled? {
      if s.arm.ArmAppending? && e.accepted { OtherRecordTraced(s, Record(BrokerArmed, map[]), s.arm.bytes); }
    } else if e.OtherRecord? {
      if !IsMetadata(e.record) { OtherRecordTraced(s, e.record, e.bytes); }
    } else if e.CompleteCall? {
      FailSameTrace(s, BrokerIncomplete, None, None);
    } else if e.AbortCall? {
      FailSameTrace(s, ListenerRequestRejected, None, None);
    } else {
      OtherStepSameTrace(s, e);
    }
  }

  lemma HandleTraced(s: State, parsed: Option<string>, bytes: nat)
    requires Traced(s)
    ensures Traced(Handle(s, parsed, bytes))
  {
    match parsed
    case None => FailSameTrace(s, RequestRouteRejected, None, None);
    case Some(name) =>
      match ReserveError(s, name)
      case Some(refusal) => FailSameTrace(s, refusal, None, None);
      case None =>
        ReserveTraced(s, name, if Admits(s.gate, SafeName(name), bytes) then IntentAppending(bytes)
          else IntentSettled(false));
  }

  lemma StepTraced(s: State, e: Event)
    requires Traced(s)
    ensures Traced(Next(s, e))
  {
    match e
    case HandleCall(parsed, bytes) => HandleTraced(s, parsed, bytes);
    case IntentAppendSettled(i, accepted) =>
      if i < |s.requests| && s.requests[i].frame.IntentAppending? { SettleIntentTraced(s, i, accepted); }
    case IntentResume(i) =>
      if i < |s.requests| && s.requests[i].frame.IntentSettled? { ResumeIntentTraced(s, i); }
    case FetchSettled(i, result, bytes) =>
      if i < |s.requests| && s.requests[i].frame.Fetching? { FetchTraced(s, i, result, bytes); }
    case ResponseAppendSettled(i, accepted) =>
      if i < |s.requests| && s.requests[i].frame.ResponseAppending? { SettleResponseTraced(s, i, accepted); }
    case ResponseResume(i) =>
      if i < |s.requests| && s.requests[i].frame.ResponseSettled? { ResumeResponseTraced(s, i); }
    case FailResume(i) =>
      if i < |s.requests| { FrameTraced(s, i, Returned(false)); }
    case _ => SessionStepTraced(s, e);
  }

  lemma {:induction false} RunTraced(limits: Limits, gate: Gate, events: seq<Event>)
    requires NoMetadataYet(gate)
    ensures Traced(Run(Prepared(limits, gate), events))
  {
    if events != [] {
      RunTraced(limits, gate, events[..|events| - 1]);
      StepTraced(Run(Prepared(limits, gate), events[..|events| - 1]), events[|events| - 1]);
    }
  }

  // ----- metadataSummary -----

  datatype ReadStatus = NotStarted | ReadIncomplete | Validated

  datatype Summary = Summary(externalReadStatus: ReadStatus, requestCount: nat, uniquePackageCount: nat,
                             responseBytes: int)

  function FilterEvent(records: seq<Record>, event: EventName): seq<Record> {
    if records == [] then []
    else
      var front := FilterEvent(records[..|records| - 1], event);
      if records[|records| - 1].event == event then front + [records[|records| - 1]] else front
  }

  function NameIn(record: Record): string {
    if IsText(record.Field("packageName")) then record.Field("packageName").value.s else "undefined"
  }

  function NamesIn(records: seq<Record>): set<string> {
    set i | 0 <= i < |records| :: NameIn(records[i])
  }

  function TotalBytes(records: seq<Record>): int {
    if records == [] then 0
    else TotalBytes(records[..|records| - 1]) + NumberIn(records[|records| - 1], "responseBytes")
  }

  function MetadataSummary(records: seq<Record>): Summary {
    var started := FilterEvent(records, MetadataRequestStarted);
    var validated := FilterEvent(records, MetadataResponseValidated);
    Summary(if |started| == 0 then NotStarted else if |started| == |validated| then Validated else ReadIncomplete,
            |started|, |NamesIn(started)|, TotalBytes(validated))
  }

  /** What filtering keeps: exactly the records of that event, in order. */
  lemma {:induction false} FilterMembers(records: seq<Record>, event: EventName)
    ensures forall r :: r in FilterEvent(records, event) <==> r in records && r.event == event
  {
    if records != [] {
      var front, last := records[..|records| - 1], records[|records| - 1];
      FilterMembers(front, event);
      assert records == front + [last];
    }
  }

  ghost predicate SequencesDistinct(records: seq<Record>, event: EventName) {
    forall i, j :: 0 <= i < j < |records| && records[i].event == event && records[j].event == event
                   ==> SequenceOf(records[i]) != SequenceOf(records[j])
  }

  lemma {:induction false} FilterDistinct(records: seq<Record>, event: EventName)
    requires SequencesDistinct(records, event)
    ensures SequencesDistinct(FilterEvent(records, event), event)
  {
    if records != [] {
      var front, last := records[..|records| - 1], records[|records| - 1];
      FilterDistinct(front, event);
      FilterMembers(front, event);
      var kept := FilterEvent(front, event);
      if last.event == event {
        forall i | 0 <= i < |kept| && kept[i].event == event ensures SequenceOf(kept[i]) != SequenceOf(last) {
          assert kept[i] in front;
          var p :| 0 <= p < |front| && front[p] == kept[i];
          assert records[p] == kept[i];
        }
      }
    }
  }

  /** The sequence numbers of a list of records whose numbers all lie in 1..n. */
  function Sequences(records: seq<Record>): (ks: seq<nat>)
    requires forall i :: 0 <= i < |records| ==> SequenceOf(records[i]) >= 1
    ensures |ks| == |records|
  {
    seq(|records|, i requires 0 <= i < |records| => SequenceOf(records[i]))
  }

  // ----- The state in which `complete` succeeds -----

  function EntrySequences(entries: seq<Entry>): (ks: seq<nat>)
    ensures |ks| == |entries|
    ensures forall i :: 0 <= i < |entries| ==> ks[i] == entries[i].sequence
  {
    seq(|entries|, i requires 0 <= i < |entries| => entries[i].sequence)
  }

  lemma EntriesNumbered(s: State)
    requires Accounted(s)
    ensures Distinct(EntrySequences(s.entries)) && Within(EntrySequences(s.entries), |s.requests|)
  {
  }

  /** A filtered list covers 1..n when every number has a record of that event. */
  lemma FilteredIsFull(records: seq<Record>, event: EventName, n: nat)
    requires SequencesDistinct(records, event)
    requires forall i :: 0 <= i < |records| && records[i].event == event ==> 1 <= SequenceOf(records[i]) <= n
    requires forall k :: 1 <= k <= n ==> SomeOf(records, event, k)
    ensures var kept := FilterEvent(records, event);
      && |kept| == n
      && (forall i :: 0 <= i < n ==> 1 <= SequenceOf(kept[i]) <= n && kept[i] in records && kept[i].event == event)
      && Distinct(Sequences(kept)) && Within(Sequences(kept), n)
  {
    var kept := FilterEvent(records, event);
    FilterMembers(records, event);
    FilterDistinct(records, event);
    forall i | 0 <= i < |kept| ensures 1 <= SequenceOf(kept[i]) <= n && kept[i].event == event {
      assert kept[i] in kept;
    }
    var ks := Sequences(kept);
    forall k | 1 <= k <= n ensures k in ks {
      assert SomeOf(records, event, k);
      var i :| Numbered(records, event, i, k);
      assert records[i] in kept;
      var j :| 0 <= j < |kept| && kept[j] == records[i];
      assert ks[j] == k;
    }
    FullIffCovers(ks, n);
  }

  lemma EntryOf(s: State, k: nat) returns (p: nat)
    requires Accounted(s) && |s.entries| == s.startedRequests && 1 <= k <= |s.requests|
    ensures p < |s.entries| && s.entries[p].sequence == k
    ensures s.requests[k - 1] == Request(s.entries[p].packageName, Returned(true))
  {
    EntriesNumbered(s);
    var ks := EntrySequences(s.entries);
    FullIffCovers(ks, |s.requests|);
    assert k in ks;
    p :| 0 <= p < |ks| && ks[p] == k;
  }

  lemma CompletedRequest(s: State, k: nat)
    requires Accounted(s) && Traced(s) && |s.entries| == s.startedRequests && 1 <= k <= |s.requests|
    ensures SomeRequested(s.gate.records, k)
  {
    var p := EntryOf(s, k);
    assert FrameRecorded(s.gate.records, s.requests[k - 1], k);
  }

  lemma RespondedIn(records: seq<Record>, k: nat, name: string, bytes: nat)
    requires ResponseRecord(k, name, bytes) in records
    ensures SomeResponded(records, k)
  {
    var j :| 0 <= j < |records| && records[j] == ResponseRecord(k, name, bytes);
    assert Responded(records, j, k);
  }

  lemma CompletedResponse(s: State, k: nat)
    requires Accounted(s) && EntriesRecorded(s.gate.records, s.entries)
    requires |s.entries| == s.startedRequests && 1 <= k <= |s.requests|
    ensures SomeResponded(s.gate.records, k)
  {
    var p := EntryOf(s, k);
    RespondedIn(s.gate.records, k, s.entries[p].packageName, s.entries[p].ResponseBytes());
  }

  lemma DistinctBoth(records: seq<Record>)
    requires RecordsDistinct(records)
    ensures SequencesDistinct(records, MetadataRequestStarted) && SequencesDistinct(records, MetadataResponseValidated)
  {
    forall i, j | 0 <= i < j < |records| && records[i].event == MetadataRequestStarted
      && records[j].event == MetadataRequestStarted
      ensures SequenceOf(records[i]) != SequenceOf(records[j])
    {
      assert IsRequest(records, i) && IsRequest(records, j);
    }
    forall i, j | 0 <= i < j < |records| && records[i].event == MetadataResponseValidated
      && records[j].event == MetadataResponseValidated
      ensures SequenceOf(records[i]) != SequenceOf(records[j])
    {
      assert IsResponse(records, i) && IsResponse(records, j);
    }
  }

  lemma GenuineInRange(records: seq<Record>, requests: seq<Request>)
    requires RecordsGenuine(records, requests)
    ensures forall i :: 0 <= i < |records| && IsMetadata(records[i]) ==> 1 <= SequenceOf(records[i]) <= |requests|
  {
    forall i | 0 <= i < |records| && IsMetadata(records[i]) ensures 1 <= SequenceOf(records[i]) <= |requests| {
      assert IsRequest(records, i) || IsResponse(records, i);
    }
  }

  /** At completion the gate holds one request record and one response record per request. */
  lemma CompletedCounts(s: State)
    requires Accounted(s) && Traced(s) && |s.entries| == s.startedRequests
    ensures |FilterEvent(s.gate.records, MetadataRequestStarted)| == s.startedRequests
    ensures |FilterEvent(s.gate.records, MetadataResponseValidated)| == s.startedRequests
  {
    var records, n := s.gate.records, |s.requests|;
    forall k | 1 <= k <= n
      ensures SomeOf(records, MetadataRequestStarted, k) && SomeOf(records, MetadataResponseValidated, k)
    {
      CompletedRequest(s, k);
      CompletedResponse(s, k);
    }
    DistinctBoth(records);
    GenuineInRange(records, s.requests);
    FilteredIsFull(records, MetadataRequestStarted, n);
    FilteredIsFull(records, MetadataResponseValidated, n);
  }

  // ----- Sorting -----

  ghost predicate Increasing(es: seq<Entry>) {
    forall i, j :: 0 <= i < j < |es| ==> es[i].sequence < es[j].sequence
  }

  lemma {:induction false} InsertIncreasing(e: Entry, es: seq<Entry>)
    requires Increasing(es) && forall x :: x in es ==> x.sequence != e.sequence
    ensures Increasing(Insert(e, es)) && |Insert(e, es)| == |es| + 1
    ensures forall x :: x in Insert(e, es) <==> x == e || x in es
  {
    if es != [] && e.sequence > es[0].sequence {
      InsertIncreasing(e, es[1..]);
      var r := Insert(e, es[1..]);
      forall x | x in r ensures es[0].sequence < x.sequence {
        if x != e {
          var p :| 0 <= p < |es[1..]| && es[1..][p] == x;
          assert es[p + 1] == x;
        }
      }
      assert forall j :: 0 <= j < |r| ==> r[j] in r;
    }
  }

  lemma {:induction false} SortIncreasing(es: seq<Entry>)
    requires forall i, j :: 0 <= i < j < |es| ==> es[i].sequence != es[j].sequence
    ensures Increasing(SortBySequence(es)) && |SortBySequence(es)| == |es|
    ensures forall x :: x in SortBySequence(es) <==> x in es
  {
    if es != [] {
      SortIncreasing(es[1..]);
      forall x | x in SortBySequence(es[1..]) ensures x.sequence != es[0].sequence {
        assert x in es[1..];
        var p :| 0 <= p < |es[1..]| && es[1..][p] == x;
        assert es[p + 1] == x;
      }
      InsertIncreasing(es[0], SortBySequence(es[1..]));
    }
  }

  ghost predicate NamedAfter(e: Entry, requests: seq<Request>) {
    1 <= e.sequence <= |requests| && requests[e.sequence - 1].packageName == e.packageName
  }

  lemma MemberMatches(s: State, e: Entry)
    requires EntriesMatch(s) && e in s.entries
    ensures NamedAfter(e, s.requests)
  {
    var p :| 0 <= p < |s.entries| && s.entries[p] == e;
  }

  /** The entries listed by sequence number: number k is the entry of request k. */
  ghost predicate InOrder(es: seq<Entry>, entries: seq<Entry>, requests: seq<Request>) {
    && |es| == |requests|
    && forall i :: 0 <= i < |es| ==>
         && es[i].sequence == i + 1
         && es[i].packageName == requests[i].packageName
         && es[i] in entries
  }

  lemma IncreasingIsInOrder(es: seq<Entry>, entries: seq<Entry>, requests: seq<Request>)
    requires Increasing(es) && |es| == |requests|
    requires forall i :: 0 <= i < |es| ==> es[i] in entries && NamedAfter(es[i], requests)
    ensures InOrder(es, entries, requests)
  {
    var ks := EntrySequences(es);
    IncreasingIsIdentity(ks, |requests|);
    assert forall i :: 0 <= i < |es| ==> ks[i] == es[i].sequence == i + 1;
  }

  /** The sorted entries of a completed session are numbered 1, 2, ..., n, each with its own request's name. */
  lemma LedgerNumbered(s: State)
    requires EntriesMatch(s) && |s.entries| == |s.requests|
    ensures InOrder(SortBySequence(s.entries), s.entries, s.requests)
  {
    var es := SortBySequence(s.entries);
    SortIncreasing(s.entries);
    forall i | 0 <= i < |es| ensures es[i] in s.entries && NamedAfter(es[i], s.requests) {
      assert es[i] in es;
      MemberMatches(s, es[i]);
    }
    IncreasingIsInOrder(es, s.entries, s.requests);
  }

  // ----- Names and bytes -----

  lemma StartedNameKnown(records: seq<Record>, requests: seq<Request>, r: Record)
    requires RecordsGenuine(records, requests)
    requires r in FilterEvent(records, MetadataRequestStarted)
    ensures NameIn(r) in RequestNames(requests)
  {
    FilterMembers(records, MetadataRequestStarted);
    var p :| 0 <= p < |records| && records[p] == r;
    assert IsRequest(records, p);
  }

  lemma RequestNameStarted(records: seq<Record>, requests: seq<Request>, q: nat)
    requires RecordsGenuine(records, requests) && q < |requests| && SomeRequested(records, q + 1)
    ensures requests[q].packageName in NamesIn(FilterEvent(records, MetadataRequestStarted))
  {
    var started := FilterEvent(records, MetadataRequestStarted);
    FilterMembers(records, MetadataRequestStarted);
    var p :| Numbered(records, MetadataRequestStarted, p, q + 1);
    assert IsRequest(records, p);
    assert records[p] in started;
    var i :| 0 <= i < |started| && started[i] == records[p];
    assert NameIn(started[i]) == requests[q].packageName;
  }

  lemma CompletedNames(s: State)
    requires Accounted(s) && Traced(s) && |s.entries| == s.startedRequests
    ensures NamesIn(FilterEvent(s.gate.records, MetadataRequestStarted)) == s.names
  {
    var started := FilterEvent(s.gate.records, MetadataRequestStarted);
    forall i | 0 <= i < |started| ensures NameIn(started[i]) in s.names {
      StartedNameKnown(s.gate.records, s.requests, started[i]);
    }
    forall q | 0 <= q < |s.requests| ensures s.requests[q].packageName in NamesIn(started) {
      CompletedRequest(s, q + 1);
      RequestNameStarted(s.gate.records, s.requests, q);
    }
  }

  function BytesOf(records: seq<Record>): (ws: seq<nat>)
    requires forall i :: 0 <= i < |records| ==> NumberIn(records[i], "responseBytes") >= 0
    ensures |ws| == |records|
  {
    seq(|records|, i requires 0 <= i < |records| => NumberIn(records[i], "responseBytes"))
  }

  lemma {:induction false} TotalIsSum(records: seq<Record>)
    requires forall i :: 0 <= i < |records| ==> NumberIn(records[i], "responseBytes") >= 0
    ensures TotalBytes(records) == Sum(BytesOf(records))
  {
    if records != [] {
      var front := records[..|records| - 1];
      TotalIsSum(front);
      assert BytesOf(records)[..|records| - 1] == BytesOf(front);
    }
  }

  /** A validated record carries the size of the entry with its sequence number. */
  lemma ResponseBytesAgree(records: seq<Record>, entries: seq<Entry>, record: Record, e: Entry)
    requires EntriesRecorded(records, entries) && RecordsDistinct(records)
    requires record in records && record.event == MetadataResponseValidated
    requires e in entries && SequenceOf(record) == e.sequence
    ensures NumberIn(record, "responseBytes") == e.ResponseBytes()
  {
    var p :| 0 <= p < |records| && records[p] == record;
    var k :| 0 <= k < |entries| && entries[k] == e;
    var own := ResponseRecord(e.sequence, e.packageName, e.ResponseBytes());
    assert own in records;
    var q :| 0 <= q < |records| && records[q] == own;
    assert IsResponse(records, p) && IsResponse(records, q);
    assert p == q;
  }

  /** The entry with this sequence is the one at its place in the numbered list. */
  lemma {:induction false} ListedAt(entries: seq<Entry>, es: seq<Entry>, i: nat, k: nat)
    requires Distinct(EntrySequences(entries)) && i < |entries| && k < |es|
    requires es[k].sequence == k + 1 == entries[i].sequence && es[k] in entries
    ensures entries[i] == es[k]
  {
    var ks := EntrySequences(entries);
    var p :| 0 <= p < |entries| && entries[p] == es[k];
    assert ks[p] == ks[i];
  }

  lemma {:induction false} NumberedIsListed(entries: seq<Entry>, es: seq<Entry>)
    requires |es| == |entries|
    requires Distinct(EntrySequences(entries)) && Within(EntrySequences(entries), |entries|)
    requires forall i :: 0 <= i < |es| ==> es[i].sequence == i + 1 && es[i] in entries
    ensures Listed(EntrySequences(entries), Sizes(entries), Sizes(es))
  {
    var ks := EntrySequences(entries);
    forall i | 0 <= i < |entries| ensures 1 <= ks[i] <= |es| && Sizes(entries)[i] == Sizes(es)[ks[i] - 1] {
      ListedAt(entries, es, i, ks[i] - 1);
    }
  }

  lemma EntriesListed(s: State)
    requires Accounted(s) && |s.entries| == s.startedRequests
    ensures Listed(EntrySequences(s.entries), Sizes(s.entries), Sizes(SortBySequence(s.entries)))
  {
    LedgerNumbered(s);
    EntriesNumbered(s);
    NumberedIsListed(s.entries, SortBySequence(s.entries));
  }

  lemma ResponseSizes(s: State, validated: seq<Record>, es: seq<Entry>)
    requires EntriesRecorded(s.gate.records, s.entries) && RecordsDistinct(s.gate.records)
    requires InOrder(es, s.entries, s.requests)
    requires ResponsesIn(validated, s.gate.records, |es|)
    ensures forall i :: 0 <= i < |validated| ==>
        NumberIn(validated[i], "responseBytes") == Sizes(es)[SequenceOf(validated[i]) - 1]
  {
    forall i | 0 <= i < |validated|
      ensures NumberIn(validated[i], "responseBytes") == Sizes(es)[SequenceOf(validated[i]) - 1] {
      ResponseBytesAgree(s.gate.records, s.entries, validated[i], es[SequenceOf(validated[i]) - 1]);
    }
  }

  ghost predicate ResponsesIn(validated: seq<Record>, records: seq<Record>, n: nat) {
    forall i :: 0 <= i < |validated| ==>
      1 <= SequenceOf(validated[i]) <= n && validated[i] in records && validated[i].event == MetadataResponseValidated
  }

  lemma ResponsesListed(validated: seq<Record>, es: seq<Entry>)
    requires |validated| == |es|
    requires forall i :: 0 <= i < |validated| ==> 1 <= SequenceOf(validated[i]) <= |es|
    requires Distinct(Sequences(validated)) && Within(Sequences(validated), |es|)
    requires forall i :: 0 <= i < |validated| ==>
        NumberIn(validated[i], "responseBytes") == Sizes(es)[SequenceOf(validated[i]) - 1]
    ensures forall i :: 0 <= i < |validated| ==> NumberIn(validated[i], "responseBytes") >= 0
    ensures Listed(Sequences(validated), BytesOf(validated), Sizes(es))
  {
  }

  lemma FilteredResponses(s: State) returns (validated: seq<Record>)
    requires Accounted(s) && Traced(s) && |s.entries| == s.startedRequests
    ensures validated == FilterEvent(s.gate.records, MetadataResponseValidated)
    ensures |validated| == |s.requests| && ResponsesIn(validated, s.gate.records, |s.requests|)
    ensures Distinct(Sequences(validated)) && Within(Sequences(validated), |s.requests|)
  {
    var records, n := s.gate.records, |s.requests|;
    forall k | 1 <= k <= n ensures SomeOf(records, MetadataResponseValidated, k) {
      CompletedResponse(s, k);
    }
    DistinctBoth(records);
    GenuineInRange(records, s.requests);
    FilteredIsFull(records, MetadataResponseValidated, n);
    validated := FilterEvent(records, MetadataResponseValidated);
  }

  lemma CompletedBytes(s: State)
    requires Accounted(s) && Traced(s) && |s.entries| == s.startedRequests
    ensures TotalBytes(FilterEvent(s.gate.records, MetadataResponseValidated)) == Committed(s.entries)
  {
    var validated := FilteredResponses(s);
    var es := SortBySequence(s.entries);
    LedgerNumbered(s);
    ResponseSizes(s, validated, es);
    ResponsesListed(validated, es);
    TotalIsSum(validated);
    var table := Sizes(es);
    SumPermuted(Sequences(validated), BytesOf(validated), table);
    EntriesListed(s);
    SumPermuted(EntrySequences(s.entries), Sizes(s.entries), table);
  }

  // ----- The bijection the trace checker looks for -----

  lemma CompletedPair(s: State, k: nat)
    requires Accounted(s) && Traced(s) && |s.entries| == s.startedRequests && 1 <= k <= |s.requests|
    ensures exists i, j :: Numbered(s.gate.records, MetadataRequestStarted, i, k)
                        && Numbered(s.gate.records, MetadataResponseValidated, j, k) && Answers(s.gate.records, j, i)
  {
    var records := s.gate.records;
    CompletedResponse(s, k);
    var j :| Numbered(records, MetadataResponseValidated, j, k);
    assert IsResponse(records, j);
    assert RequestedBefore(records, j, k);
    var i :| Requested(records, i, k) && i < j;
    assert IsRequest(records, i);
    assert Answers(records, j, i);
  }

  lemma RequestAnswered(s: State, i: int)
    requires Accounted(s) && Traced(s) && |s.entries| == s.startedRequests && IsRequest(s.gate.records, i)
    ensures HasAnswer(s.gate.records, i)
  {
    var records := s.gate.records;
    var k := SequenceOf(records[i]);
    CompletedPair(s, k);
    var a, b :| Numbered(records, MetadataRequestStarted, a, k)
             && Numbered(records, MetadataResponseValidated, b, k) && Answers(records, b, a);
    assert IsRequest(records, a);
    assert a == i;
  }

  lemma ResponseAnswers(s: State, j: int)
    requires Accounted(s) && Traced(s) && |s.entries| == s.startedRequests && IsResponse(s.gate.records, j)
    ensures Answered(s.gate.records, j)
  {
    var records := s.gate.records;
    var k := SequenceOf(records[j]);
    CompletedPair(s, k);
    var a, b :| Numbered(records, MetadataRequestStarted, a, k)
             && Numbered(records, MetadataResponseValidated, b, k) && Answers(records, b, a);
    assert IsResponse(records, b);
    assert b == j;
  }

  lemma DistinctFields(records: seq<Record>, requests: seq<Request>)
    requires RecordsGenuine(records, requests) && RecordsDistinct(records)
    ensures forall i, j :: IsRequest(records, i) && IsRequest(records, j) && i != j
                           ==> records[i].Field("sequence") != records[j].Field("sequence")
    ensures forall i, j :: IsResponse(records, i) && IsResponse(records, j) && i != j
                           ==> records[i].Field("sequence") != records[j].Field("sequence")
  {
    forall i, j | IsRequest(records, i) && IsRequest(records, j) && i != j
      ensures records[i].Field("sequence") != records[j].Field("sequence")
    {
      assert SequenceOf(records[i]) != SequenceOf(records[j]);
    }
    forall i, j | IsResponse(records, i) && IsResponse(records, j) && i != j
      ensures records[i].Field("sequence") != records[j].Field("sequence")
    {
      assert SequenceOf(records[i]) != SequenceOf(records[j]);
    }
  }

  lemma CompletedBijection(s: State)
    requires Accounted(s) && Traced(s) && |s.entries| == s.startedRequests
    ensures MetadataBijection(s.gate.records)
  {
    forall i | IsRequest(s.gate.records, i) ensures HasAnswer(s.gate.records, i) {
      RequestAnswered(s, i);
    }
    forall j | IsResponse(s.gate.records, j) ensures Answered(s.gate.records, j) {
      ResponseAnswers(s, j);
    }
    DistinctFields(s.gate.records, s.requests);
  }

  // ----- Main result -----

  /** The ledger's entries are numbered 1..n in order, each with the two records the gate holds for it. */
  ghost predicate EntriesFaithful(records: seq<Record>, ledger: Ledger) {
    |ledger.entries| == ledger.startedRequestCount && RowsRecorded(records, ledger.entries)
  }

  ghost predicate RowsRecorded(records: seq<Record>, es: seq<Entry>) {
    forall i :: 0 <= i < |es| ==>
      && es[i].sequence == i + 1
      && RequestRecord(i + 1, es[i].packageName) in records
      && ResponseRecord(i + 1, es[i].packageName, es[i].ResponseBytes()) in records
  }

  /** The gate's summary reports the same requests, names and bytes as validated. */
  ghost predicate SummaryFaithful(records: seq<Record>, ledger: Ledger) {
    MetadataSummary(records)
    == Summary(Validated, ledger.startedRequestCount, ledger.uniquePackageCount, Committed(ledger.entries))
  }

  /** What a ledger says about the session and about the audit trail written beside it. */
  ghost predicate LedgerFaithful(s: State, ledger: Ledger) {
    && EntriesFaithful(s.gate.records, ledger)
    && SummaryFaithful(s.gate.records, ledger)
    && Committed(ledger.entries) == Committed(s.entries)
    && MetadataBijection(s.gate.records)
  }

  lemma RequestRecordPresent(records: seq<Record>, requests: seq<Request>, k: nat)
    requires RecordsGenuine(records, requests) && SomeRequested(records, k) && 1 <= k <= |requests|
    ensures RequestRecord(k, requests[k - 1].packageName) in records
  {
    var p :| Numbered(records, MetadataRequestStarted, p, k);
    assert IsRequest(records, p);
  }

  lemma ResponseRecordPresent(records: seq<Record>, entries: seq<Entry>, e: Entry)
    requires EntriesRecorded(records, entries) && e in entries
    ensures ResponseRecord(e.sequence, e.packageName, e.ResponseBytes()) in records
  {
    var p :| 0 <= p < |entries| && entries[p] == e;
  }

  lemma LedgerRecords(records: seq<Record>, requests: seq<Request>, entries: seq<Entry>, e: Entry)
    requires RecordsGenuine(records, requests) && EntriesRecorded(records, entries)
    requires e in entries && 1 <= e.sequence <= |requests| && requests[e.sequence - 1].packageName == e.packageName
    requires SomeRequested(records, e.sequence)
    ensures RequestRecord(e.sequence, e.packageName) in records
    ensures ResponseRecord(e.sequence, e.packageName, e.ResponseBytes()) in records
  {
    RequestRecordPresent(records, requests, e.sequence);
    ResponseRecordPresent(records, entries, e);
  }

  lemma LedgerEntriesFaithful(s: State)
    requires Accounted(s) && Traced(s) && Completable(s)
    ensures EntriesFaithful(s.gate.records, LedgerOf(s))
  {
    LedgerNumbered(s);
    SortedEntriesRecorded(s, SortBySequence(s.entries));
  }

  lemma SortedEntriesRecorded(s: State, es: seq<Entry>)
    requires Accounted(s) && Traced(s) && Completable(s) && InOrder(es, s.entries, s.requests)
    ensures RowsRecorded(s.gate.records, es)
  {
    forall i | 0 <= i < |es|
      ensures RequestRecord(i + 1, es[i].packageName) in s.gate.records
      ensures ResponseRecord(i + 1, es[i].packageName, es[i].ResponseBytes()) in s.gate.records
    {
      CompletedEntryRecorded(s, es[i]);
    }
  }

  lemma CompletedEntryRecorded(s: State, e: Entry)
    requires Accounted(s) && Traced(s) && Completable(s) && e in s.entries
    requires 1 <= e.sequence <= |s.requests| && s.requests[e.sequence - 1].packageName == e.packageName
    ensures RequestRecord(e.sequence, e.packageName) in s.gate.records
    ensures ResponseRecord(e.sequence, e.packageName, e.ResponseBytes()) in s.gate.records
  {
    CompletedRequest(s, e.sequence);
    LedgerRecords(s.gate.records, s.requests, s.entries, e);
  }

  lemma SortedTotal(s: State)
    requires Accounted(s) && |s.entries| == s.startedRequests
    ensures Committed(SortBySequence(s.entries)) == Committed(s.entries)
  {
    EntriesListed(s);
    SumPermuted(EntrySequences(s.entries), Sizes(s.entries), Sizes(SortBySequence(s.entries)));
  }

  lemma LedgerSummaryFaithful(s: State)
    requires Accounted(s) && Traced(s) && Completable(s)
    ensures SummaryFaithful(s.gate.records, LedgerOf(s))
  {
    CompletedCounts(s);
    CompletedNames(s);
    CompletedBytes(s);
    SortedTotal(s);
  }

  lemma CompleteLedgerFaithful(s: State)
    requires Accounted(s) && Traced(s) && Completable(s)
    ensures LedgerFaithful(s, LedgerOf(s))
  {
    LedgerEntriesFaithful(s);
    LedgerSummaryFaithful(s);
    SortedTotal(s);
    CompletedBijection(s);
  }

  /** Whenever `complete` can return, its ledger and the gate's records tell the same story. */
  lemma EveryLedgerIsFaithful(limits: Limits, gate: Gate, events: seq<Event>)
    requires AllBounded(events, limits) && NoMetadataYet(gate)
    requires Completable(Run(Prepared(limits, gate), events))
    ensures LedgerFaithful(Run(Prepared(limits, gate), events), LedgerOf(Run(Prepared(limits, gate), events)))
  {
    EveryRunIsAccounted(limits, gate, events);
    RunTraced(limits, gate, events);
    CompleteLedgerFaithful(Run(Prepared(limits, gate), events));
  }

  ghost predicate LedgerTotalExact(s: State) {
    LedgerOf(s).aggregateResponseBytes == MetadataSummary(s.gate.records).responseBytes
  }

  /** The ledger's byte total is the audited total exactly when no two commit windows of the run overlap. */
  lemma LedgerTotalExactIff(limits: Limits, gate: Gate, events: seq<Event>)
    requires AllBounded(events, limits) && NoMetadataYet(gate)
    requires Completable(Run(Prepared(limits, gate), events))
    ensures LedgerTotalExact(Run(Prepared(limits, gate), events)) <==> !CommitsOverlap(Prepared(limits, gate), events)
  {
    EveryLedgerIsFaithful(limits, gate, events);
    TotalExactIffNoOverlap(limits, gate, events);
    TotalsMeet(Run(Prepared(limits, gate), events));
  }

  lemma TotalsMeet(s: State)
    requires LedgerFaithful(s, LedgerOf(s))
    ensures LedgerTotalExact(s) <==> TotalExact(s)
  {
  }

  // ----- Two overlapping commits -----

  lemma Extend(start: State, events: seq<Event>, s: State, e: Event) returns (events': seq<Event>, s': State)
    requires s == Run(start, events)
    ensures events' == events + [e] && s' == Next(s, e) && s' == Run(start, events')
  {
    events', s' := events + [e], Next(s, e);
    assert events'[..|events|] == events;
  }

  const ROOMY: Limits := Limits(2, 2, 2, 10, 100)
  const START: State := Prepared(ROOMY, Gate([], 0, false))
  const ARMED: State := START.(phase := Armed, leaseUsed := true, arm := ArmReturned(true),
                               gate := Gate([Record(BrokerArmed, map[])], 1, false))

  lemma ReachArmed() returns (events: seq<Event>)
    ensures ARMED == Run(START, events) && AllBounded(events, ROOMY)
  {
    var s := START;
    events := [];
    events, s := Extend(START, events, s, ArmCall(true, 1));
    events, s := Extend(START, events, s, ArmAppendSettled(true));
    events, s := Extend(START, events, s, ArmResume);
  }

  function TwoRequests(a: Frame, b: Frame): seq<Request> {
    [Request("a", a), Request("b", b)]
  }

  const TWO_ADMITTED: State := ARMED.(names := {"a", "b"}, startedRequests := 2, activeRequests := 2,
                                      reservedBytes := 20,
                                      requests := TwoRequests(IntentAppending(1), IntentAppending(1)))

  lemma ReachTwoAdmitted() returns (events: seq<Event>)
    ensures TWO_ADMITTED == Run(START, events) && AllBounded(events, ROOMY)
  {
    events := ReachArmed();
    var s := ARMED;
    events, s := Extend(START, events, s, HandleCall(Some("a"), 1));
    assert s == ARMED.(names := {"a"}, startedRequests := 1, activeRequests := 1, reservedBytes := 10,
                       requests := [Request("a", IntentAppending(1))]);
    events, s := Extend(START, events, s, HandleCall(Some("b"), 1));
    assert {"a"} + {"b"} == {"a", "b"};
    assert s.requests == TwoRequests(IntentAppending(1), IntentAppending(1));
  }

  const TWO_FETCHING: State := TWO_ADMITTED.(
    requests := TwoRequests(Fetching, Fetching),
    gate := Gate([Record(BrokerArmed, map[]), RequestRecord(1, "a"), RequestRecord(2, "b")], 3, false))

  lemma ReachTwoFetching() returns (events: seq<Event>)
    ensures TWO_FETCHING == Run(START, events) && AllBounded(events, ROOMY)
  {
    events := ReachTwoAdmitted();
    var s := TWO_ADMITTED;
    events, s := Extend(START, events, s, IntentAppendSettled(0, true));
    assert s.requests == TwoRequests(IntentSettled(true), IntentAppending(1));
    events, s := Extend(START, events, s, IntentAppendSettled(1, true));
    assert s.requests == TwoRequests(IntentSettled(true), IntentSettled(true));
    events, s := Extend(START, events, s, IntentResume(0));
    assert s.requests == TwoRequests(Fetching, IntentSettled(true));
    events, s := Extend(START, events, s, IntentResume(1));
    assert s.requests == TwoRequests(Fetching, Fetching);
  }

  const TWO_APPENDING: State := TWO_FETCHING.(
    requests := TwoRequests(ResponseAppending([1], 1, 1), ResponseAppending([2, 3], 2, 1)))

  const ONE_APPENDING: State := TWO_FETCHING.(requests := TwoRequests(ResponseAppending([1], 1, 1), Fetching))

  lemma ReachOneAppending() returns (events: seq<Event>)
    ensures ONE_APPENDING == Run(START, events) && AllBounded(events, ROOMY)
  {
    events := ReachTwoFetching();
    var s := TWO_FETCHING;
    events, s := Extend(START, events, s, FetchSettled(0, Fetched([1]), 1));
    assert s.requests == TwoRequests(ResponseAppending([1], 1, 1), Fetching);
  }

  /** Both responses are computed from a byte count of zero before either is committed. */
  lemma ReachTwoAppending() returns (events: seq<Event>)
    ensures TWO_APPENDING == Run(START, events) && AllBounded(events, ROOMY)
  {
    events := ReachOneAppending();
    SecondFetch(ONE_APPENDING);
    var s: State;
    events, s := Extend(START, events, ONE_APPENDING, FetchSettled(1, Fetched([2, 3]), 1));
  }

  lemma SecondFetch(s: State)
    requires s == ONE_APPENDING
    ensures Next(s, FetchSettled(1, Fetched([2, 3]), 1)) == TWO_APPENDING
  {
    assert s.requests[1 := Request("b", ResponseAppending([2, 3], 2, 1))] == TWO_APPENDING.requests;
  }

  const TWO_PENDING: State := TWO_APPENDING.(
    requests := TwoRequests(ResponseSettled([1], 1, true), ResponseSettled([2, 3], 2, true)),
    gate := Gate([Record(BrokerArmed, map[]), RequestRecord(1, "a"), RequestRecord(2, "b"),
                  ResponseRecord(1, "a", 1), ResponseRecord(2, "b", 2)], 5, false))

  lemma ReachTwoPending() returns (events: seq<Event>)
    ensures TWO_PENDING == Run(START, events) && AllBounded(events, ROOMY)
  {
    events := ReachTwoAppending();
    var s := TWO_APPENDING;
    events, s := Extend(START, events, s, ResponseAppendSettled(0, true));
    assert s.requests == TwoRequests(ResponseSettled([1], 1, true), ResponseAppending([2, 3], 2, 1));
    events, s := Extend(START, events, s, ResponseAppendSettled(1, true));
    assert s.requests == TwoRequests(ResponseSettled([1], 1, true), ResponseSettled([2, 3], 2, true));
  }

  const TWO_COMMITTED: State := TWO_PENDING.(
    requests := TwoRequests(Returned(true), Returned(true)),
    entries := [Entry(1, "a", [1]), Entry(2, "b", [2, 3])],
    committedBytes := 2, reservedBytes := 3, activeRequests := 0, lostUpdate := true)

  lemma ReachTwoCommitted() returns (events: seq<Event>)
    ensures TWO_COMMITTED == Run(START, events) && AllBounded(events, ROOMY)
  {
    events := ReachTwoPending();
    var s := TWO_PENDING;
    events, s := Extend(START, events, s, ResponseResume(0));
    assert s.requests == TwoRequests(Returned(true), ResponseSettled([2, 3], 2, true));
    events, s := Extend(START, events, s, ResponseResume(1));
    assert s.requests == TwoRequests(Returned(true), Returned(true));
    assert s.entries == [Entry(1, "a", [1]), Entry(2, "b", [2, 3])];
  }

  lemma TwoAndOneIsThree()
    ensures Committed(TWO_COMMITTED.entries) == 3
  {
    CommittedAppend([], Entry(1, "a", [1]));
    CommittedAppend([Entry(1, "a", [1])], Entry(2, "b", [2, 3]));
    assert [] + [Entry(1, "a", [1])] == [Entry(1, "a", [1])];
    assert [Entry(1, "a", [1])] + [Entry(2, "b", [2, 3])] == TWO_COMMITTED.entries;
  }

  /** A completable session whose ledger reports two bytes where three were received and audited. */
  lemma OverlappingCommitsLoseBytes() returns (events: seq<Event>)
    ensures AllBounded(events, ROOMY) && Completable(Run(START, events))
    ensures LedgerOf(Run(START, events)).aggregateResponseBytes == 2
    ensures MetadataSummary(Run(START, events).gate.records).responseBytes == 3
  {
    events := ReachTwoCommitted();
    EveryLedgerIsFaithful(ROOMY, Gate([], 0, false), events);
    TwoAndOneIsThree();
  }
}
