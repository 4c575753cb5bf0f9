/** The audit trace of one graph-genesis run and the checker that decides whether it is complete. */
module AuditTrace {
  import opened Numbers
  import opened Options

  /** A payload field: the gate accepts strings, numbers and booleans only. */
  datatype Scalar = Text(s: string) | Number(n: int) | Flag(b: bool)

  datatype EventName =
    | RuntimeSnapshotComplete
    | ContainmentProbeComplete
    | PlanReady
    | AuthorizationFinalized
    | BrokerArmed
    | NpmSpawnIntentRecorded
    | NpmSpawnStarted
    | MetadataRequestStarted
    | MetadataResponseValidated
    | NpmTerminalObserved
    | ListenerDrained
    | LockValidationStarted
    | PostStateValidated
    | CandidateCompiled
    | CandidateOutputIntent
    | CandidateOutputWritten
    | CleanupComplete
    | CleanupIncomplete
    | GenesisComplete
    | GenesisIncomplete

  datatype Record = Record(event: EventName, payload: map<string, Scalar>)
  {
    /** Property read: a missing key reads as `None`, which equals another missing key. */
    function Field(key: string): Option<Scalar> {
      if key in payload then Some(payload[key]) else None
    }
  }

  predicate IsSafeInteger(v: Option<Scalar>) {
    v.Some? && v.value.Number? && -MAX_SAFE_INTEGER <= v.value.n <= MAX_SAFE_INTEGER
  }

  predicate IsText(v: Option<Scalar>) {
    v.Some? && v.value.Text?
  }

  function Required(requireOutput: bool): seq<EventName> {
    [RuntimeSnapshotComplete, ContainmentProbeComplete, PlanReady, AuthorizationFinalized,
     BrokerArmed, NpmSpawnIntentRecorded, NpmSpawnStarted, NpmTerminalObserved,
     ListenerDrained, LockValidationStarted, PostStateValidated, CandidateCompiled]
    + (if requireOutput then [CandidateOutputIntent, CandidateOutputWritten] else [])
    + [CleanupComplete]
  }

  // ----- What a complete trace is, without searching -----

  ghost predicate OnceAt(records: seq<Record>, event: EventName, i: int) {
    && 0 <= i < |records|
    && records[i].event == event
    && forall j :: 0 <= j < |records| && records[j].event == event ==> j == i
  }

  /** Every event of `required` occurs exactly once, and in that order. */
  ghost predicate OnceEachInOrder(records: seq<Record>, required: seq<EventName>, at: seq<int>) {
    && |at| == |required|
    && (forall k :: 0 <= k < |required| ==> OnceAt(records, required[k], at[k]))
    && (forall k, l :: 0 <= k < l < |at| ==> at[k] < at[l])
  }

  predicate Forbidden(event: EventName) {
    event == GenesisIncomplete || event == CleanupIncomplete || event == GenesisComplete
  }

  predicate IsRequest(records: seq<Record>, i: int) {
    0 <= i < |records| && records[i].event == MetadataRequestStarted
  }

  predicate IsResponse(records: seq<Record>, i: int) {
    0 <= i < |records| && records[i].event == MetadataResponseValidated
  }

  predicate SameRequest(a: Record, b: Record) {
    a.Field("sequence") == b.Field("sequence") && a.Field("packageName") == b.Field("packageName")
  }

  /** Response `j` answers the earlier request `i`. */
  ghost predicate Answers(records: seq<Record>, j: int, i: int) {
    IsRequest(records, i) && IsResponse(records, j) && i < j && SameRequest(records[i], records[j])
  }

  ghost predicate Answered(records: seq<Record>, j: int) {
    exists i :: Answers(records, j, i)
  }

  ghost predicate HasAnswer(records: seq<Record>, i: int) {
    exists j :: Answers(records, j, i)
  }

  /** The requests and the responses are matched one to one by sequence number and package name. */
  ghost predicate MetadataBijection(records: seq<Record>) {
    && (forall i, j :: IsRequest(records, i) && IsRequest(records, j) && i != j
                       ==> records[i].Field("sequence") != records[j].Field("sequence"))
    && (forall i, j :: IsResponse(records, i) && IsResponse(records, j) && i != j
                       ==> records[i].Field("sequence") != records[j].Field("sequence"))
    && (forall j :: IsResponse(records, j) ==> Answered(records, j))
    && (forall i :: IsRequest(records, i) ==> HasAnswer(records, i))
  }

  ghost predicate WellFormedRequests(records: seq<Record>, spawn: int, terminal: int) {
    forall i :: IsRequest(records, i)
                ==> && IsSafeInteger(records[i].Field("sequence")) && IsText(records[i].Field("packageName"))
                    && spawn < i < terminal
  }

  ghost predicate WellFormedResponses(records: seq<Record>, terminal: int) {
    forall j :: IsResponse(records, j) ==> IsSafeInteger(records[j].Field("sequence")) && j < terminal
  }

  ghost predicate SuccessfulTerminal(r: Record) {
    r.Field("status") == Some(Text("completed")) && r.Field("exitCode") == Some(Number(0))
  }

  ghost predicate SameDigests(intent: Record, written: Record) {
    && intent.Field("artifactDigest") == written.Field("artifactDigest")
    && intent.Field("candidateDigest") == written.Field("candidateDigest")
  }

  ghost predicate CompleteAt(records: seq<Record>, requireOutput: bool, at: seq<int>) {
    && OnceEachInOrder(records, Required(requireOutput), at)
    && (requireOutput ==> SameDigests(records[at[12]], records[at[13]]))
    && (forall i :: 0 <= i < |records| ==> !Forbidden(records[i].event))
    && SuccessfulTerminal(records[at[7]])
    && WellFormedRequests(records, at[6], at[7])
    && WellFormedResponses(records, at[7])
    && MetadataBijection(records)
    && (exists i :: IsRequest(records, i))
  }

  ghost predicate CompleteAudit(records: seq<Record>, requireOutput: bool) {
    exists at: seq<int> :: CompleteAt(records, requireOutput, at)
  }

  // ----- The array searches the checker uses -----

  function FirstIndexFrom(records: seq<Record>, event: EventName, i: nat): (r: int)
    requires i <= |records|
    requires forall j :: 0 <= j < i ==> records[j].event != event
    ensures r == -1 || (0 <= r < |records| && records[r].event == event)
    ensures r == -1 ==> forall j :: 0 <= j < |records| ==> records[j].event != event
    ensures r >= 0 ==> forall j :: 0 <= j < r ==> records[j].event != event
    decreases |records| - i
  {
    if i == |records| then -1
    else if records[i].event == event then i
    else FirstIndexFrom(records, event, i + 1)
  }

  function FirstIndex(records: seq<Record>, event: EventName): int {
    FirstIndexFrom(records, event, 0)
  }

  function CountOf(records: seq<Record>, event: EventName): nat {
    if records == [] then 0
    else (if records[0].event == event then 1 else 0) + CountOf(records[1..], event)
  }

  lemma {:induction false} CountZero(records: seq<Record>, event: EventName)
    ensures CountOf(records, event) == 0 <==> forall j :: 0 <= j < |records| ==> records[j].event != event
  {
    if records != [] {
      CountZero(records[1..], event);
      assert forall j :: 1 <= j < |records| ==> records[j] == records[1..][j - 1];
    }
  }

  /** Exactly one record passes the filter when the first hit is the only hit. */
  lemma {:induction false} CountOne(records: seq<Record>, event: EventName, first: int)
    requires 0 <= first < |records| && records[first].event == event
    requires forall j :: 0 <= j < first ==> records[j].event != event
    ensures CountOf(records, event) == 1 <==> OnceAt(records, event, first)
  {
    var rest := records[1..];
    assert forall j :: 1 <= j < |records| ==> records[j] == rest[j - 1];
    if first == 0 {
      CountZero(rest, event);
      assert (forall j :: 0 <= j < |rest| ==> rest[j].event != event)
         <==> (forall j :: 1 <= j < |records| ==> records[j].event != event) by {
        if forall j :: 1 <= j < |records| ==> records[j].event != event {
          forall j | 0 <= j < |rest| ensures rest[j].event != event { assert rest[j] == records[j + 1]; }
        }
      }
    } else {
      CountOne(rest, event, first - 1);
      if OnceAt(rest, event, first - 1) {
        forall j | 0 <= j < |records| && records[j].event == event ensures j == first {
          if j > 0 { assert rest[j - 1].event == event; }
        }
      }
      if OnceAt(records, event, first) {
        forall j | 0 <= j < |rest| && rest[j].event == event ensures j == first - 1 {
          assert records[j + 1].event == event;
        }
      }
    }
  }

  function FirstRequestFrom(records: seq<Record>, sought: Record, i: nat): (r: int)
    requires i <= |records|
    requires forall j :: 0 <= j < i ==> !(IsRequest(records, j) && SameRequest(records[j], sought))
    ensures r == -1 || (IsRequest(records, r) && SameRequest(records[r], sought))
    ensures r == -1 ==> forall j :: IsRequest(records, j) ==> !SameRequest(records[j], sought)
    ensures r >= 0 ==> forall j :: 0 <= j < r && IsRequest(records, j) ==> !SameRequest(records[j], sought)
    decreases |records| - i
  {
    if i == |records| then -1
    else if IsRequest(records, i) && SameRequest(records[i], sought) then i
    else FirstRequestFrom(records, sought, i + 1)
  }

  // ----- The checker -----

  lemma OnceTwice(records: seq<Record>, event: EventName, i: int, j: int)
    requires OnceAt(records, event, i) && OnceAt(records, event, j)
    ensures i == j
  {
  }

  lemma PositionsAgree(records: seq<Record>, required: seq<EventName>, n: int, at: seq<int>, other: seq<int>)
    requires 0 <= n < |required|
    requires OnceEachInOrder(records, required[..n], at) && OnceEachInOrder(records, required, other)
    ensures OnceAt(records, required[n], other[n])
    ensures n > 0 ==> other[n - 1] == at[n - 1]
  {
    if n > 0 {
      assert OnceAt(records, required[..n][n - 1], at[n - 1]);
      OnceTwice(records, required[n - 1], at[n - 1], other[n - 1]);
    }
  }

  /** The ordered pass over the required events. */
  method CheckRequired(records: seq<Record>, required: seq<EventName>) returns (ok: bool, ghost at: seq<int>)
    ensures ok ==> OnceEachInOrder(records, required, at)
    ensures !ok ==> forall other :: !OnceEachInOrder(records, required, other)
  {
    var previous := -1;
    at := [];
    for n := 0 to |required|
      invariant OnceEachInOrder(records, required[..n], at)
      invariant previous == if n == 0 then -1 else at[n - 1]
    {
      var index := FirstIndex(records, required[n]);
      if index >= 0 {
        CountOne(records, required[n], index);
      }
      if index <= previous || CountOf(records, required[n]) != 1 {
        forall other | OnceEachInOrder(records, required, other) ensures false {
          PositionsAgree(records, required, n, at, other);
          assert false;
        }
        return false, at;
      }
      at := at + [index];
      previous := index;
      assert forall k :: 0 <= k < n ==> required[..n + 1][k] == required[..n][k];
    }
    assert required[..|required|] == required;
    return true, at;
  }

  predicate RequestNumbered(records: seq<Record>, i: int, s: int) {
    IsRequest(records, i) && records[i].Field("sequence") == Some(Number(s))
  }

  predicate ResponseNumbered(records: seq<Record>, j: int, s: int) {
    IsResponse(records, j) && records[j].Field("sequence") == Some(Number(s))
  }

  /** `started` holds exactly the numbers of the first `n` records' requests, none of them repeated. */
  ghost predicate StartedState(records: seq<Record>, n: int, spawn: int, terminal: int, started: map<int, string>) {
    && 0 <= n <= |records|
    && (forall i :: IsRequest(records, i) && i < n
                    ==> && IsSafeInteger(records[i].Field("sequence")) && IsText(records[i].Field("packageName"))
                        && spawn < i < terminal && records[i].Field("sequence").value.n in started)
    && (forall i, j :: IsRequest(records, i) && IsRequest(records, j) && i < j < n
                       ==> records[i].Field("sequence") != records[j].Field("sequence"))
    && (forall s :: s in started ==> exists i :: i < n && RequestNumbered(records, i, s))
  }

  /** `completed` holds exactly the numbers of the first `n` records' responses, each answering an earlier request. */
  ghost predicate CompletedState(records: seq<Record>, n: int, terminal: int, completed: set<int>) {
    && 0 <= n <= |records|
    && (forall j :: IsResponse(records, j) && j < n
                    ==> && IsSafeInteger(records[j].Field("sequence")) && j < terminal
                        && records[j].Field("sequence").value.n in completed)
    && (forall j :: IsResponse(records, j) && j < n ==> Answered(records, j))
    && (forall i, j :: IsResponse(records, i) && IsResponse(records, j) && i < j < n
                       ==> records[i].Field("sequence") != records[j].Field("sequence"))
    && (forall s :: s in completed ==> exists j :: j < n && ResponseNumbered(records, j, s))
  }

  ghost predicate MetadataComplete(records: seq<Record>, spawn: int, terminal: int) {
    && WellFormedRequests(records, spawn, terminal)
    && WellFormedResponses(records, terminal)
    && MetadataBijection(records)
    && (exists i :: IsRequest(records, i))
  }

  lemma CompletedWereStarted(records: seq<Record>, spawn: int, terminal: int, started: map<int, string>,
                             completed: set<int>)
    requires StartedState(records, |records|, spawn, terminal, started)
    requires CompletedState(records, |records|, terminal, completed)
    ensures completed <= started.Keys
  {
    forall s | s in completed ensures s in started {
      var j :| j < |records| && ResponseNumbered(records, j, s);
      var i :| Answers(records, j, i);
    }
  }

  lemma EqualSizesMakeEqualSets(small: set<int>, large: set<int>)
    requires small <= large && |small| == |large|
    ensures small == large
  {
    var rest := large - small;
    assert |rest| == |large| - |small|;
    assert rest == {};
    assert large == small + rest;
  }

  lemma PickMember<T>(keys: set<T>) returns (s: T)
    requires keys != {}
    ensures s in keys
  {
    s :| s in keys;
  }

  lemma SomeRequest(records: seq<Record>, spawn: int, terminal: int, started: map<int, string>)
    requires StartedState(records, |records|, spawn, terminal, started) && started.Keys != {}
    ensures exists i :: IsRequest(records, i)
  {
    var s := PickMember(started.Keys);
    var i :| i < |records| && RequestNumbered(records, i, s);
  }

  /** Equal sizes mean that every request was answered. */
  lemma AllAnswered(records: seq<Record>, spawn: int, terminal: int, started: map<int, string>, completed: set<int>)
    requires StartedState(records, |records|, spawn, terminal, started)
    requires CompletedState(records, |records|, terminal, completed)
    requires |started.Keys| != 0 && |completed| == |started.Keys|
    ensures MetadataComplete(records, spawn, terminal)
  {
    CompletedWereStarted(records, spawn, terminal, started, completed);
    EqualSizesMakeEqualSets(completed, started.Keys);
    forall i | IsRequest(records, i) ensures HasAnswer(records, i) {
      var s := records[i].Field("sequence").value.n;
      var j :| j < |records| && ResponseNumbered(records, j, s);
      var k :| Answers(records, j, k);
      assert k == i;
    }
    SomeRequest(records, spawn, terminal, started);
  }

  /** In a complete trace the two sets have the same size, and it is not zero. */
  lemma SizesAgree(records: seq<Record>, spawn: int, terminal: int, started: map<int, string>, completed: set<int>)
    requires StartedState(records, |records|, spawn, terminal, started)
    requires CompletedState(records, |records|, terminal, completed)
    requires MetadataComplete(records, spawn, terminal)
    ensures |started.Keys| != 0 && |completed| == |started.Keys|
  {
    CompletedWereStarted(records, spawn, terminal, started, completed);
    var first :| IsRequest(records, first);
    assert records[first].Field("sequence").value.n in started;
    forall s | s in started ensures s in completed {
      var i :| i < |records| && RequestNumbered(records, i, s);
      var j :| Answers(records, j, i);
    }
    assert completed == started.Keys;
  }

  /** A request record the loop rejects cannot occur in a complete trace. */
  lemma RejectedRequest(records: seq<Record>, n: int, spawn: int, terminal: int, started: map<int, string>)
    requires StartedState(records, n, spawn, terminal, started) && IsRequest(records, n)
    requires MetadataComplete(records, spawn, terminal)
    ensures IsSafeInteger(records[n].Field("sequence")) && IsText(records[n].Field("packageName"))
    ensures records[n].Field("sequence").value.n !in started
    ensures spawn < n < terminal
  {
    var s := records[n].Field("sequence").value.n;
    assert forall i :: IsRequest(records, i) && i < n ==> !RequestNumbered(records, i, s);
  }

  /** A response record the loop rejects cannot occur in a complete trace. */
  lemma RejectedResponse(records: seq<Record>, n: int, spawn: int, terminal: int, completed: set<int>)
    requires CompletedState(records, n, terminal, completed) && IsResponse(records, n)
    requires MetadataComplete(records, spawn, terminal)
    ensures IsSafeInteger(records[n].Field("sequence")) && n < terminal
    ensures records[n].Field("sequence").value.n !in completed
    ensures 0 <= FirstRequestFrom(records, records[n], 0) < n
  {
    var s := records[n].Field("sequence").value.n;
    assert forall j :: IsResponse(records, j) && j < n ==> !ResponseNumbered(records, j, s);
    var i :| Answers(records, n, i);
    assert IsRequest(records, i) && SameRequest(records[i], records[n]);
  }

  lemma StartedStep(records: seq<Record>, n: int, spawn: int, terminal: int, started: map<int, string>, s: int,
                    name: string)
    requires StartedState(records, n, spawn, terminal, started) && RequestNumbered(records, n, s) && s !in started
    requires IsSafeInteger(records[n].Field("sequence")) && IsText(records[n].Field("packageName"))
        && spawn < n < terminal
    ensures StartedState(records, n + 1, spawn, terminal, started[s := name])
  {
    var next := started[s := name];
    forall q | q in next ensures exists i :: i < n + 1 && RequestNumbered(records, i, q) {
      if q != s {
        var i :| i < n && RequestNumbered(records, i, q);
      } else {
        assert RequestNumbered(records, n, q);
      }
    }
  }

  lemma StartedSkip(records: seq<Record>, n: int, spawn: int, terminal: int, started: map<int, string>)
    requires StartedState(records, n, spawn, terminal, started) && n < |records| && !IsRequest(records, n)
    ensures StartedState(records, n + 1, spawn, terminal, started)
  {
    forall s | s in started ensures exists i :: i < n + 1 && RequestNumbered(records, i, s) {
      var i :| i < n && RequestNumbered(records, i, s);
    }
  }

  lemma {:induction false} CompletedStep(records: seq<Record>, n: int, terminal: int, completed: set<int>, s: int,
                                         request: int)
    requires CompletedState(records, n, terminal, completed) && ResponseNumbered(records, n, s) && s !in completed
    requires IsSafeInteger(records[n].Field("sequence")) && n < terminal && Answers(records, n, request)
    ensures CompletedState(records, n + 1, terminal, completed + {s})
  {
    forall q | q in completed + {s} ensures exists j :: j < n + 1 && ResponseNumbered(records, j, q) {
      if q != s {
        var j :| j < n && ResponseNumbered(records, j, q);
      } else {
        assert ResponseNumbered(records, n, q);
      }
    }
    assert Answered(records, n);
    forall i, j | IsResponse(records, i) && IsResponse(records, j) && i < j < n + 1
      ensures records[i].Field("sequence") != records[j].Field("sequence") {
      if j == n {
        assert records[i].Field("sequence").value.n in completed;
      }
    }
  }

  lemma CompletedSkip(records: seq<Record>, n: int, terminal: int, completed: set<int>)
    requires CompletedState(records, n, terminal, completed) && n < |records| && !IsResponse(records, n)
    ensures CompletedState(records, n + 1, terminal, completed)
  {
    forall s | s in completed ensures exists j :: j < n + 1 && ResponseNumbered(records, j, s) {
      var j :| j < n && ResponseNumbered(records, j, s);
    }
  }

  /** The loop that fills the map of started requests and the set of completed sequences. */
  method CheckMetadata(records: seq<Record>, spawn: int, terminal: int) returns (ok: bool)
    ensures ok <==> MetadataComplete(records, spawn, terminal)
  {
    var started: map<int, string> := map[];
    var completed: set<int> := {};
    for index := 0 to |records|
      invariant StartedState(records, index, spawn, terminal, started)
      invariant CompletedState(records, index, terminal, completed)
    {
      var record := records[index];
      var sequence := record.Field("sequence");
      if record.event == MetadataRequestStarted {
        var name := record.Field("packageName");
        if !IsSafeInteger(sequence) || !IsText(name) || sequence.value.n in started
           || index <= spawn || index >= terminal {
          if MetadataComplete(records, spawn, terminal) {
            RejectedRequest(records, index, spawn, terminal, started);
            assert false;
          }
          return false;
        }
        StartedStep(records, index, spawn, terminal, started, sequence.value.n, name.value.s);
        CompletedSkip(records, index, terminal, completed);
        started := started[sequence.value.n := name.value.s];
      } else if record.event == MetadataResponseValidated {
        var requestIndex := FirstRequestFrom(records, record, 0);
        if !IsSafeInteger(sequence) || requestIndex < 0 || requestIndex >= index || index >= terminal
           || sequence.value.n in completed {
          if MetadataComplete(records, spawn, terminal) {
            RejectedResponse(records, index, spawn, terminal, completed);
            assert false;
          }
          return false;
        }
        StartedSkip(records, index, spawn, terminal, started);
        CompletedStep(records, index, terminal, completed, sequence.value.n, requestIndex);
        completed := completed + {sequence.value.n};
      } else {
        StartedSkip(records, index, spawn, terminal, started);
        CompletedSkip(records, index, terminal, completed);
      }
    }
    if |started.Keys| == 0 || |completed| != |started.Keys| {
      if MetadataComplete(records, spawn, terminal) {
        SizesAgree(records, spawn, terminal, started, completed);
        assert false;
      }
      return false;
    }
    AllAnswered(records, spawn, terminal, started, completed);
    return true;
  }

  lemma PositionsAreUnique(records: seq<Record>, required: seq<EventName>, a: seq<int>, b: seq<int>)
    requires OnceEachInOrder(records, required, a) && OnceEachInOrder(records, required, b)
    ensures a == b
  {
    forall k | 0 <= k < |required| ensures a[k] == b[k] {
      assert OnceAt(records, required[k], a[k]) && OnceAt(records, required[k], b[k]);
    }
  }

  method AnyForbidden(records: seq<Record>) returns (found: bool)
    ensures found <==> exists i :: 0 <= i < |records| && Forbidden(records[i].event)
  {
    for n := 0 to |records|
      invariant forall i :: 0 <= i < n ==> !Forbidden(records[i].event)
    {
      if Forbidden(records[n].event) { return true; }
    }
    return false;
  }

  lemma FirstIndexIsOnly(records: seq<Record>, event: EventName, i: int)
    requires OnceAt(records, event, i)
    ensures FirstIndex(records, event) == i
  {
  }

  /** Accepts exactly the complete traces; `false` stands for the thrown stage error. */
  method AssertCompleteAudit(records: seq<Record>, requireOutput: bool) returns (ok: bool)
    ensures ok <==> CompleteAudit(records, requireOutput)
  {
    var required := Required(requireOutput);
    ghost var at;
    ok, at := CheckRequired(records, required);
    if !ok { return false; }
    assert OnceAt(records, required[6], at[6]) && OnceAt(records, required[7], at[7]);
    forall other | CompleteAt(records, requireOutput, other) ensures other == at {
      PositionsAreUnique(records, required, at, other);
    }
    if requireOutput {
      assert OnceAt(records, required[12], at[12]) && OnceAt(records, required[13], at[13]);
      FirstIndexIsOnly(records, CandidateOutputIntent, at[12]);
      FirstIndexIsOnly(records, CandidateOutputWritten, at[13]);
      var intent := records[FirstIndex(records, CandidateOutputIntent)];
      var written := records[FirstIndex(records, CandidateOutputWritten)];
      if intent.Field("artifactDigest") != written.Field("artifactDigest")
         || intent.Field("candidateDigest") != written.Field("candidateDigest") {
        return false;
      }
    }
    var forbidden := AnyForbidden(records);
    if forbidden { return false; }
    var spawnStartedIndex := FirstIndex(records, NpmSpawnStarted);
    var terminalIndex := FirstIndex(records, NpmTerminalObserved);
    var terminal := records[terminalIndex];
    if terminal.Field("status") != Some(Text("completed")) || terminal.Field("exitCode") != Some(Number(0)) {
      return false;
    }
    ok := CheckMetadata(records, spawnStartedIndex, terminalIndex);
    assert ok ==> CompleteAt(records, requireOutput, at);
  }
}
