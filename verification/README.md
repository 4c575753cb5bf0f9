# Verified model of Agent Permission Guard

Agent Permission Guard is a gateway between an MCP client and its servers. It decides each tool call by policy, asks a
person where the policy says so, records every decision in a hash-chained table, and only then lets the call go
upstream. Beside it, the package stage ("graph genesis") works out an exact dependency graph from a lock document behind
a metadata broker, an audit gate and an isolated archive worker. Nearly all of its difficulty is bookkeeping that has to
hold over every interleaving, and text formats whose printers, scanners and checkers have to agree. This project models
those parts and proves what they promise.

The modules, by component:

| modules | component |
|---|---|
| MetadataBroker, MetadataBrokerSafety, MetadataBrokerPhases, MetadataBrokerOverlap, MetadataBrokerLedger, MetadataBrokerRefusals, MetadataBrokerSession | the hardened metadata broker, one step per stretch of code between two awaits |
| AuditTrace, AuditPayloads, AuditEvidence, AuditGateRuns | the checker of complete audit traces, the payload tests, and the audit gate under overlapping calls |
| DependencyGraph, InstallPaths, LockGraph | the first exact graph compiler and install paths |
| PeerPaths, PeerSemantics, CandidateV2, CandidatePeers, CompiledLocks, NearestCopies | the peer analysis and the second compiler, on typed values |
| LockDocuments, LockReading, CandidateLayout, CandidateReading, RebuiltLock, RebuiltSize, CandidateValidation, CompiledCandidates, CandidateCodec | its lock documents and candidates as JSON, the lock rebuilt from a candidate, validation, and the codec |
| JsonText, JsonTokens, JsonValues, StrictJson, JsonNesting, CanonicalJson, CanonicalOrder, PrintedStrings, JsonTally, JsonObjects, JsonCollecting, ReceiptJson, SerializedReceipt | JSON texts (RFC 8259), the strict scanner, the nesting check, canonical printing, the bounded clone, objects read and rebuilt by name, and the texts of receipts |
| ApprovalService, AuditRecorder, Gateway, GatewaySafety, CallStories, CallMoves, GatewayEndings, GatewayServer | the approval service, the audit recorder, and the tool-call handler with what becomes of each call |
| HashChain, AuditEvents, PortableReceipt, LongReceipts, ReceiptRoundTrip, ReceiptEvidence | the hash chain with its stored events, and the portable export and its verification |
| ExecutionAuthority, ExecutionOrder, ExecutionServer | the V2 execution authority |
| Framing, PassB, PassBSessions, PassBLockstep, MessageStream, ManifestPass | the archive worker protocol |
| Redaction, RedactionKept, AddressBlocks, PublicAddress, ReservedBlocks, PolicyPatterns, PolicyMatcher | redaction, address blocks, and policy precedence |
| Numbers, Options, Sequences, Splitting, Numbering, Utf8, Utf16 | helpers |

How concurrency is modelled: a state machine whose events are the stretches of code between two awaits, in any order and
any number. An event that is not enabled changes nothing. Every theorem about a run quantifies over all sequences of
events, so over every interleaving and every choice of which awaits fail. The classes (`BrokerSession`, `AuditGate`,
`GatewayServer`, `SqliteAuditRecorder`, `LocalApprovalService`, `SyntheticExecutionAuthority`) hold the fields the source
updates in place. Each method makes exactly one step of the machine, keeps the object's invariant `Valid()`, and promises
its caller what the theorems say of every run: the caps and the exclusion of outcomes, the safety of dispatches, or that
of an execution. `Drive`, `Serve` and `Take` make any sequence of steps on such an object.

A transition function says what the code does; what it ought to do is said apart from it. The broker's steps are told by
the tests they pass and the summaries and records they leave (`MetadataBrokerRefusals`), a call by the places of the steps
that decide it (`CallStories`), an execution by which calls have succeeded before (`ExecutionOrder`), a session of the
archive worker by its bodies cut into chunks (`PassBSessions`), an envelope by the receipts and events it is evidence of
(`ReceiptEvidence`), a compiled candidate by the document it was compiled from (`LockReading`, `CompiledLocks`,
`CompiledCandidates`), and redaction by what stands at each place of a value (`RedactionKept`). The theorems of these
modules tie the two together, for all inputs and runs.

## What the proofs found

- **A byte count can be lost.** `handle` computes `nextCommitted` before awaiting the audit write and stores it after
  (`graph-genesis-network.ts:392-409`). When two such windows overlap, the ledger's `aggregateResponseBytes` falls below
  the total the gate has audited. It is exact if and only if no request of the run read the count, saw another request
  commit, and then committed itself (`LedgerTotalExactIff`; `OverlappingCommitsLoseBytes` gives a run).
- **A second failure summary is possible.** `arm` writes `'armed'` after its own await whatever the state has become. At
  most one failure can ever be recorded after it returns if and only if the state was still `'disarmed'` when it resumed
  (`ReachableSingleFailureIff`; `TwoFailuresReachable` gives a run with two). Even then no session yields both a failure
  and a ledger (`OutcomesExclude`).
- **The gate's bounds count only what has landed.** `record` tests its bounds before it awaits the sink. From any state the
  records stay within a bound, whatever the sink answers, if and only if the records and the appends in flight do together;
  likewise the bytes, and likewise the returned finalizations and the open ones (`StayWithinIff`). So an admitted call
  keeps a bound exactly when what is in flight leaves room for it (`RecordCallSafeIff`), and a finalization is the only one
  exactly when none is open (`FinalizeAloneIff`). Overlapping calls do exceed the bound (`OverlapExceedsBound`) and
  complete twice (`TwoCompletionsReachable`), and a closed gate's records are final if and only if no append was in flight
  when it closed (`ClosedGateFrozenIff`).
- **A receipt can show a decision after its expiry.** The approval is decided in time, but `decidedAt` is read when the
  handler resumes. The receipt shows it in time if and only if the handler resumed in time (`RecordedInTimeIff`,
  `DecisionRecordedAfterExpiry`).
- **Some checks can never fail**: the broker's aggregate test after a fetch (`AggregateTestNeverFails`), the compiler's
  test that a resolved copy carries the declared name (`NamedAfterDeclaration`), the chain, hash, duplicate, digest and
  relationship checks of an export of a gateway call (`ExportNeverRefuses`), the codec's byte limit after validation
  (`EncodingIsCanonical`), for a text that passes the codec's later checks its scan for repeated names (`ScanIsImplied`),
  and the running byte count of `cloneJsonEvidence`, which refuses nothing its final measurement would let through
  (`ClonesIff`).
- **Every compiled candidate validates.** Only the lock is tested against the limits on values and levels, not the candidate
  compiled from it. But the caps of the peer analysis keep a candidate to at most 37300 values and 7 levels
  (`CompiledIsBounded`, `BoundedTally`), below the 50000 and 65 of the clone; and the lock rebuilt from any payload has no
  more values and no more bytes than the payload (`RebuiltWithin`). So validating a compiled candidate always answers that
  very candidate (`ValidateReturnsCompiled`).
- **The test for parents can be skipped, without harm.** `parentPath` in `peer-dependency-semantics.ts` matches with `.`,
  which excludes line and paragraph separators, while `validPath` admits them: a path below a package with such a name
  is valid and has no parent to look for (`SeparatorHidesParent`). The nodes of an accepted graph still spell chains of
  packages with every parent present, because no declaration resolves to such a path and what nothing requires is refused
  (`AcceptedIsPlaced`). Hence every edge of a compiled candidate leads to its nearest copy (`CompiledEdgesAreNearest`); the
  walk itself, over texts that no analysis would admit, could pass a copy by (`NearestWhateverInstalledIff`).
- **A recorded action can be refused for export.** A known action is exported if and only if the text of each of its receipt
  events is within the schema's 524288 characters (`ExportOfShape`). Identity evidence of 64 claims, each a list of 100 of
  the longest strings, is too long for that, so an action whose receipt shows it is recorded and verifies, and is refused
  (`FullEvidenceIsRefused`; `DeniedCallRefused` gives a run).
- **Cutting off the end of the event table goes unnoticed** (`PrefixVerifies`), as the repository's own README says.
  Every other change under the same last hash is noticed, short of a failure of the hash (`TamperingIsNoticed`).

## Model

Names of members are qualified by module and class; paths are relative to the repository's root.

| member | source | states |
|---|---|---|
| MetadataBrokerSafety.ReservationsConservedAndCapped | src/stage/graph-genesis-network.ts:377-420 | In every interleaving of bounded responses the reserved bytes are the entry sizes plus one full response for each other started request, within the aggregate limit, and the request, concurrency and unique-name caps hold |
| MetadataBrokerSafety.EveryRunIsAccounted | src/stage/graph-genesis-network.ts:498-511 | Every step of every run keeps the whole accounting invariant: conservation, caps, one entry per returned request, pending byte counts |
| MetadataBrokerSafety.AggregateTestNeverFails | src/stage/graph-genesis-network.ts:392-393 | No bounded response that reaches the aggregate test can exceed the limit, in any reachable state |
| MetadataBrokerOverlap.TotalExactIffNoOverlap | src/stage/graph-genesis-network.ts:392-411 | In every run the session's byte count never exceeds the entries' total, and equals it if and only if no commit of another request lies between a request's read of the count and its own commit |
| MetadataBrokerOverlap.OverwritesIffOverlap | src/stage/graph-genesis-network.ts:392-411 | A commit stores a count that misses another's bytes somewhere in a run if and only if some request read the count, another committed, and then the first committed |
| MetadataBrokerPhases.RunPhase | src/stage/graph-genesis-network.ts:465-490 | Every run keeps the phase invariant: what may have been recorded before arming, one lease, failures and ledgers apart, each summary claimed once |
| MetadataBrokerPhases.OutcomesExclude | src/stage/graph-genesis-network.ts:422-490 | In every run: never both a failure and a ledger, at most one ledger, no summary claimed twice, at most two failures, and at most one unless arming overwrote a failure |
| MetadataBrokerPhases.ReachableLeavingIsFinal | src/stage/graph-genesis-network.ts:391-443 | Once `arm` has returned, leaving the armed state is for good: entries, ledgers, byte count and started requests are frozen over every continuation |
| MetadataBrokerPhases.ReachableSingleFailureIff | src/stage/graph-genesis-network.ts:367-375 | After `arm` resumes, at most one failure is ever recorded if and only if the state was still disarmed at that moment |
| MetadataBrokerPhases.TwoFailuresReachable | src/stage/graph-genesis-network.ts:367-375 | A concrete run from a new session: aborted while `arm` awaits, armed all the same, and aborted again, it records two failures |
| MetadataBrokerLedger.RunTraced | src/stage/graph-genesis-network.ts:384-409 | In every run the gate's metadata records are the broker's own, one request and one response per sequence number at most, each response after its request, and agree with what every suspended request is waiting for |
| MetadataBrokerLedger.EveryLedgerIsFaithful | src/stage/graph-genesis-hardening.ts:824-840 | Whenever `complete` can return, its entries are numbered 1 to n in order with their two records in the gate, the summary reports `validated` with the same requests, names and bytes, and requests and responses are matched one to one |
| MetadataBrokerLedger.LedgerTotalExactIff | src/stage/graph-genesis-network.ts:430-438 | The ledger's byte total equals the audited total if and only if no request of the run read the count, saw another commit, and then committed |
| MetadataBrokerLedger.OverlappingCommitsLoseBytes | src/stage/graph-genesis-network.ts:392-409 | A concrete run of two overlapping requests whose ledger reports fewer bytes than were audited |
| MetadataBrokerLedger.SortIncreasing | src/stage/graph-genesis-network.ts:436 | Sorting the entries by sequence keeps exactly the entries and makes their sequences strictly increasing |
| MetadataBrokerRefusals.RefusalFails | src/stage/graph-genesis-network.ts:465-490 | A refused step of a session that is not over — a rejected route, the first violated cap, a record that is not durable, a failed fetch, a session no longer armed, an early completion, an abort — leaves it failing and aborted with exactly one new summary, of that cause, the number of the request and the counts at that moment, and nothing else changed; of a session that is over it changes nothing but the frame of the request |
| MetadataBrokerRefusals.UnrefusedProceeds | src/stage/graph-genesis-network.ts:367-511 | Every step of a request, of arming, of a failure or of completion is refused or does what it is for: a call is admitted and charged, a record appended exactly when the sink accepted it, a response stored under its number, the reservation shrunk to it, a ledger made of the counts, the lease consumed once, and a failure settled once |
| MetadataBrokerRefusals.OnlyRefusalsFail | src/stage/graph-genesis-network.ts:465-490 | No step that is not refused adds or alters a summary |
| MetadataBrokerRefusals.RefusedRunsYieldNoLedger | src/stage/graph-genesis-network.ts:377-443 | In every run, a step refused in the armed state ends the session: whatever follows, there is that failure and no ledger |
| MetadataBrokerRefusals.LedgerMeansNothingRefused | src/stage/graph-genesis-network.ts:422-443 | If a run ever yields a ledger, nothing was refused while the session was armed, up to the completion |
| MetadataBrokerSession.BrokerSession.Reserve | src/stage/graph-genesis-network.ts:498-511 | Refuses with the first violated cap and changes nothing, or admits the request and charges one full response |
| MetadataBrokerSession.BrokerSession.Handle | src/stage/graph-genesis-network.ts:377-385 | Up to its first await a call is admitted and charged, or refused for the first violated test, and then the session has failed with one summary of it; it keeps the caps, conservation and exclusion of outcomes |
| MetadataBrokerSession.BrokerSession.ArmReturn | src/stage/graph-genesis-network.ts:373-375 | The step of `arm` after its await, made whatever the state has become |
| MetadataBrokerSession.BrokerSession.ResumeAfterIntent | src/stage/graph-genesis-network.ts:384-390 | The step after the intent record settled: fetch, or fail with the matching cause, told as a refusal of the session |
| MetadataBrokerSession.BrokerSession.ResumeAfterFetch | src/stage/graph-genesis-network.ts:391-400 | The step after the transport answered: hand the response to the gate, or fail with the cause, told as a refusal of the session |
| MetadataBrokerSession.BrokerSession.ResumeAfterResponse | src/stage/graph-genesis-network.ts:400-412 | The step after the response record settled: store the entry with the count read earlier and release the reservation, or fail with the cause, told as a refusal of the session |
| MetadataBrokerSession.BrokerSession.Fail | src/stage/graph-genesis-network.ts:465-488 | The first passage records one summary and aborts; later passages change nothing |
| MetadataBrokerSession.BrokerSession.CompleteLedger | src/stage/graph-genesis-network.ts:422-442 | A ledger is returned exactly when the session is complete; it is then the only outcome, without a failure, and tells what the gate's records tell |
| MetadataBrokerSession.BrokerSession.ClaimFailure | src/stage/graph-genesis-network.ts:449-455 | Hands over the latest summary, once |
| MetadataBrokerSession.Drive | src/stage/graph-genesis-network.ts:367-511 | Any events on a session object make the machine's run, and keep its invariant: caps, conservation, one outcome, and records that agree with the gate |
| MetadataBrokerSession.AuditGate.BeginRecord | src/stage/graph-genesis-hardening.ts:766-772 | Admits a record exactly when the gate is open, the payload passes the tests of its event, and every bound is kept |
| AuditPayloads.BrokerPayloads | src/stage/graph-genesis-hardening.ts:1081-1137 | Of the broker's own two records the payload tests accept exactly those with a safe package name and a permitted size |
| AuditEvidence.ValidIsEvidence | src/stage/graph-genesis-hardening.ts:1081-1137 | The payload tests pass exactly the records of some event with its own evidence: digests, request numbers and safe names, sizes, a terminal status with its codes, and nothing beside it |
| MetadataBrokerSession.AuditGate.CommitRecord | src/stage/graph-genesis-hardening.ts:775-778 | Appends the record and its size; a terminal event closes the gate |
| MetadataBrokerSession.AuditGate.PrepareAtomicTerminalSuccess | src/stage/graph-genesis-hardening.ts:797-811 | Succeeds if and only if the gate is open and its trace complete with output, and then closes the gate; otherwise nothing changes |
| AuditTrace.AssertCompleteAudit | src/stage/graph-genesis-hardening.ts:1031-1079 | Accepts a trace if and only if each required event occurs once and in order, none forbidden, the terminal succeeded, the output digests agree, and requests and later responses between spawn and terminal are matched one to one, with at least one |
| AuditTrace.CheckRequired | src/stage/graph-genesis-hardening.ts:1042-1047 | The ordered pass finds the positions of the required events, or there are none |
| AuditTrace.CheckMetadata | src/stage/graph-genesis-hardening.ts:1058-1078 | The map and set of the loop decide the one-to-one matching of requests and responses |
| AuditTrace.AllAnswered | src/stage/graph-genesis-hardening.ts:1078 | Equal sizes of the map and the set mean every request has its response |
| AuditGateRuns.PreparationIsUnique | src/stage/graph-genesis-hardening.ts:797-811 | In every interleaving at most one terminal preparation is made, over a complete trace that the records begin with ever after |
| AuditGateRuns.PreparedIff | src/stage/graph-genesis-hardening.ts:797-811 | In every interleaving a preparation is made exactly when one is asked for, ever, of an open gate whose trace is complete with output |
| AuditGateRuns.PreparedOf | src/stage/graph-genesis-hardening.ts:797-811 | The one preparation is of the records the gate held at that moment |
| AuditGateRuns.RecordsAreEvidence | src/stage/graph-genesis-hardening.ts:766-795 | Whatever is recorded or handed to the sink, in any interleaving, tells an event with evidence that fits it |
| AuditGateRuns.ClosedGateFrozenIff | src/stage/graph-genesis-hardening.ts:766-780 | A closed gate's records never change again if and only if no append is in flight |
| AuditGateRuns.StayWithinIff | src/stage/graph-genesis-hardening.ts:766-795 | From any state, whatever the sink answers to the appends in flight: the records stay within a number if and only if records and waiting appends are together, and likewise bytes, and returned and open finalizations |
| AuditGateRuns.RecordCallSafeIff | src/stage/graph-genesis-hardening.ts:766-777 | An admitted call keeps the bounds on records and bytes if and only if what is already in flight leaves room for it |
| AuditGateRuns.FinalizeAloneIff | src/stage/graph-genesis-hardening.ts:782-795 | A finalization that gets past its tests is the only one to return if and only if none has returned and none is open |
| AuditGateRuns.OneAtATimeIsOrderly | src/stage/graph-genesis-hardening.ts:766-811 | If calls do not overlap, the bounds on records and bytes hold and there is at most one terminal result, over the final records |
| AuditGateRuns.OverlapExceedsBound | src/stage/graph-genesis-hardening.ts:766-777 | Overlapping calls can exceed the bound on records by any number |
| AuditGateRuns.OverlapCompletesTwice | src/stage/graph-genesis-hardening.ts:782-795 | From every state in which one finalization would succeed, two overlapping ones both do, besides those in flight |
| AuditGateRuns.TwoCompletionsReachable | src/stage/graph-genesis-hardening.ts:782-795 | From a new gate such a state is reached, by a complete trace, and then two completions |
| DependencyGraph.AssertConnectedAcyclic | src/stage/exact-production-graph.ts:643-659 | Accepts if and only if no path is repeated, every node is reachable from the top, everything reachable resolves and nothing reachable lies on a cycle |
| DependencyGraph.ResolvedGraphFailsOnlyByReachOrCycle | src/stage/exact-production-graph.ts:643-659 | Over resolving graphs with distinct paths the check passes if and only if every node is reachable and no cycle is |
| DependencyGraph.ConnectivityCheck.Visit | src/stage/exact-production-graph.ts:646-655 | Terminates; success leaves everything it visited sound and in finishing order, failure exhibits a cycle or a missing node |
| DependencyGraph.OrderIsSound | src/stage/exact-production-graph.ts:646-656 | From a node of a finishing order nothing unresolved, cyclic or outside the order is reachable |
| InstallPaths.PackageNameFromInstallPath | src/stage/exact-production-graph.ts:680-701 | Accepts exactly the paths that spell a chain of packages ending in a package name, and returns that name |
| InstallPaths.PathSpellsOneChain | src/stage/exact-production-graph.ts:680-701 | A path spells at most one chain: reading it back gives the chain it was written from |
| InstallPaths.CutDropsDeepestName | src/stage/exact-production-graph.ts:669-676 | Cutting a path at its last `/node_modules/` drops exactly the deepest package, scoped or not |
| InstallPaths.NoLaterBoundary | src/stage/exact-production-graph.ts:669-676 | No name, not even `node_modules` itself, can hold a later boundary than the start of its own step |
| InstallPaths.ResolveNodeDependency | src/stage/exact-production-graph.ts:661-678 | The walk over the text finds the copy under the nearest host of the chain, or nothing when no host has one, and terminates |
| InstallPaths.NearestHostUnique | src/stage/exact-production-graph.ts:661-678 | The nearest host's copy is determined |
| InstallPaths.ResolvedCopyIsNamesake | src/stage/exact-production-graph.ts:626-634 | The path found is valid and ends in the declared dependency's name |
| LockGraph.ReadEntries | src/stage/exact-production-graph.ts:550-612 | Accepts exactly the well formed lock documents and tables each path with the name it spells |
| LockGraph.ReadEntry | src/stage/exact-production-graph.ts:680-721 | A record is accepted exactly when its path is valid and its declarations are, with the name its path spells |
| LockGraph.CheckDeclarations | src/stage/exact-production-graph.ts:703-721 | Exactly package names with acceptable specifiers pass |
| LockGraph.ResolveEdges | src/stage/exact-production-graph.ts:621-634 | Every declaration gets the edge to its nearest copy, or some declaration has no host |
| LockGraph.NamedAfterDeclaration | src/stage/exact-production-graph.ts:631 | The compiler's own test of the resolved copy's name can never fail |
| LockGraph.CompileLockGraph | src/stage/exact-production-graph.ts:550-641 | Yields the one graph the lock document compiles to, exactly when there is one |
| LockGraph.NodesOfUnique | src/stage/exact-production-graph.ts:613-640 | The nodes a well formed document compiles to are determined |
| LockGraph.CompiledEdgesResolve | src/stage/exact-production-graph.ts:613-641 | Every edge of a compiled graph leads to one of its nodes, which carries the edge's package name |
| CandidateValidation.ValidateReturnsCompiled | src/stage/exact-production-graph-v2.ts:143-239 | Validating any compiled candidate answers that very candidate: none of the limits on its values, levels and bytes, or on its rebuilt lock, ever refuses it |
| CandidateValidation.AcceptedIsRecompiled | src/stage/exact-production-graph-v2.ts:163-239 | What the comparison of canonical texts accepts is answered up to member order, and the answer is the compilation, under its digest, of the settings, registry and lock read off the payload itself |
| CandidateValidation.AcceptsExactlyCompiled | src/stage/exact-production-graph-v2.ts:163-239 | Of all JSON values, validation accepts exactly those equal, up to member order at every level, to the signed compilation of some settings, registry and lock document within the limit |
| CandidateValidation.DerivedPartsAreDetermined | src/stage/exact-production-graph-v2.ts:163-239 | Two accepted payloads that declare the same settings, registry and lock are equal up to member order: no payload can assert edges or requirements of its own |
| CandidateValidation.ValidationIsOrderBlind | src/stage/exact-production-graph-v2.ts:163-239 | Payloads equal up to member order are accepted alike, with the identical answer |
| JsonTally.CloneJsonEvidence | src/stage/exact-production-graph-v2.ts:681-739 | The recursive clone with its two counters passes if and only if values, levels, bytes and canonical size are all within bounds |
| JsonTally.EvidenceClone.Clone | src/stage/exact-production-graph-v2.ts:681-737 | The walk refuses exactly when a counter or the depth leaves its bound, and otherwise has counted every value and byte |
| JsonTally.ClonesIff | src/stage/exact-production-graph-v2.ts:681-739 | The running count of bytes is redundant: what the counts of values and levels and the final canonical size let through, it lets through |
| JsonTally.SizeOfCanonicalText | src/stage/exact-production-graph-v2.ts:735 | The UTF-8 size of a value's canonical text, whatever the order of its members and its characters, is the sum counted over its parts |
| CandidateLayout.BoundedTally | src/stage/exact-production-graph-v2.ts:366-391 | Laid out in JSON, a candidate within the caps of the peer analysis has at most 37300 values and 7 levels |
| RebuiltSize.RebuiltWithin | src/stage/exact-production-graph-v2.ts:175-232 | The lock document rebuilt from any payload has no more values and no more bytes than the payload, and at most the payload's levels or three more than its root dependencies have |
| RebuiltLock.DeclaresItself | src/stage/exact-production-graph-v2.ts:175-232 | A candidate laid out in JSON declares its own settings and registry, and a lock document that is read as the lock of its retained records |
| RebuiltLock.DeclaresAlike | src/stage/exact-production-graph-v2.ts:175-232 | Payloads equal up to member order declare the same settings and registry, and lock documents equal up to member order, or neither declares any |
| CandidateReading.RebuiltIsRead | src/stage/exact-production-graph-v2.ts:187-212 | The lock record rebuilt from a laid out node, with the members its presence flags tell, is read as the record the node came from |
| LockDocuments.LockAlike | src/stage/exact-production-graph-v2.ts:396-485 | The lock read from a document does not depend on the order of members at any level |
| CandidateV2.CompiledRecompiles | src/stage/exact-production-graph-v2.ts:241-394 | Every compiled candidate, stripped to the declarations it retains, compiles to itself |
| CandidateV2.CompiledEdgesAreNearest | src/stage/exact-production-graph-v2.ts:335-342 | In every compiled candidate each node's path spells a chain of packages, and it has exactly one edge for each declared dependency, which leads to the copy under the nearest package that hosts one |
| CandidateV2.CompiledIsBounded | src/stage/exact-production-graph-v2.ts:302-342 | A compiled candidate has at most 256 nodes, 2048 peer requirements, and 4096 declarations in all |
| CandidateV2.RebuiltLockParsesAlike | src/stage/exact-production-graph-v2.ts:396-485 | The lock rebuilt from a candidate's nodes parses to the very nodes it was compiled from |
| CompiledLocks.ParsesRecordIff | src/stage/exact-production-graph-v2.ts:421-483 | A lock record is parsed exactly when its path, name, version, URL, integrity, declarations and marks are in order, and then to the one node that tells it member by member, absent members as absent |
| CompiledLocks.ParsesLockIff | src/stage/exact-production-graph-v2.ts:396-485 | Exactly the locks whose root is the top package and whose records are in order, no two paths alike up to case, are parsed, each to the one list of nodes that tells its records in the order of their paths |
| CompiledLocks.CompiledRetainsLock | src/stage/exact-production-graph-v2.ts:241-394 | The records rebuilt from a compiled candidate are those of the lock it was compiled from, under the same paths, with the same root, settings and registry |
| CompiledLocks.CompilesIff | src/stage/exact-production-graph-v2.ts:241-394 | With the modelled analysis, a lock compiles exactly when it is in order and the nodes that tell its records meet the declarative statement of the peer analysis: assembling them then never fails |
| LockReading.ReadsRecordIff | src/stage/exact-production-graph-v2.ts:421-470 | Exactly the JSON values that show a record, with the permitted members, no forbidden mark true, and each member of its form, are read as that record |
| LockReading.ReadsLockIff | src/stage/exact-production-graph-v2.ts:396-485 | Exactly the JSON values that show a lock of version 3 are read, as the one lock they show |
| CompiledCandidates.CompilesCandidateIff | src/stage/exact-production-graph-v2.ts:143-150 | An input compiles exactly when its document is within the bounds and shows a lock that compiles under the settings, and the signed candidate is within the byte limit; the answer is then that candidate |
| CompiledCandidates.LowerLimitOnlyRefuses | src/stage/exact-production-graph-v2.ts:655-659 | Under a lower byte limit exactly those inputs compile that compile without it and whose document and candidate are within it, to the same candidate |
| CompiledCandidates.LayoutTellsAll | src/stage/exact-production-graph-v2.ts:366-391 | Up to member order the JSON of a candidate tells every part of it, edges, requirements and resolutions included: candidates laid out alike are equal |
| CompiledCandidates.TextTellsCandidate | src/stage/exact-production-graph-v2.ts:143-150 | Two signed candidates have the same canonical text exactly when they are the same, part by part |
| NearestCopies.NearestWhateverInstalledIff | src/stage/exact-production-graph-v2.ts:539-548 | Of the walk alone, over any text as a path: it finds the copy under the longest textual host, else the top copy, whatever is installed, if and only if the text does not contain `/node_modules/node_modules/` |
| CandidateV2.ResolveNearestIsNearest | src/stage/exact-production-graph-v2.ts:539-548 | Over paths that spell chains of packages, the only ones a compiled candidate has, the walk finds the nearest host package's copy |
| PeerSemantics.AnalyzePeerDependencySemantics | src/stage/peer-dependency-semantics.ts:76-188 | The analysis accepts an input if and only if it is within the caps and well shaped, everything resolves to a version in range, nothing reaches a cycle, every peer is in order, every node is required, and the peer flags tell by what; it then tells each peer of each node once, as it resolves |
| PeerSemantics.AnalyzeGraph | src/stage/peer-dependency-semantics.ts:117-183 | Production, the required nodes and the peers, computed by queues, decide the declarative statement of what is accepted |
| PeerSemantics.Closure | src/stage/peer-dependency-semantics.ts:233-244 | The queue finds the smallest set that holds the initial nodes and is closed under ordinary dependencies, and terminates |
| PeerSemantics.AssertOrdinaryDag | src/stage/peer-dependency-semantics.ts:246-257 | Accepts a closed set of nodes if and only if no cycle can be reached from it |
| PeerSemantics.RequiredPeers.IncludeRequired | src/stage/peer-dependency-semantics.ts:147-152 | Adds exactly what the node reaches and was not required yet, and queues just that; the recursion ends |
| PeerSemantics.RequiredPeers.TakePeers | src/stage/peer-dependency-semantics.ts:158-175 | One node's peers: refused exactly when one is not in order; otherwise each is told once, and the targets of those not optional are required |
| PeerSemantics.RequiredPeers.Run | src/stage/peer-dependency-semantics.ts:154-176 | The loop ends with an empty queue, every required node's peers told and their targets required, or on a peer that is not in order |
| PeerSemantics.Require | src/stage/peer-dependency-semantics.ts:140-176 | The nodes found are the smallest set that holds the root's targets and is closed under ordinary dependencies and required peers |
| PeerPaths.ParentOfChain | src/stage/peer-dependency-semantics.ts:268-279 | The parent and the name that the patterns find in a path that spells a chain of packages are those of the chain |
| PeerPaths.NearestIsHosted | src/stage/peer-dependency-semantics.ts:259-273 | Over a chain of packages the walk by parents finds the nearest host package's copy, or nothing when no host has one |
| PeerPaths.SeparatorHidesParent | src/stage/peer-dependency-semantics.ts:268-274 | A concrete valid path in which the pattern finds no parent |
| CandidatePeers.AcceptedIsPlaced | src/stage/peer-dependency-semantics.ts:108-112 | Of a parsed lock every node the analysis accepts lies, under a package name, at the top or right under another node, though its test for parents can be skipped |
| CandidatePeers.AnalysisIsLawful | src/stage/exact-production-graph-v2.ts:302-307 | The modelled analysis has every property the proofs about compilation use: the caps, the places of the nodes, one result for a peer |
| CandidatePeers.CompiledPeersAreNearest | src/stage/exact-production-graph-v2.ts:308-364 | Compiled with that analysis, a candidate tells every peer of every node once, as the copy under the nearest package above the node that hosts one, or as absent |
| CandidateCodec.DecodeExactGraphCandidateV2 | src/stage/graph-genesis-candidate-codec-v2.ts:21-33 | Of all texts accepts exactly the encodings within the limit, and answers a candidate with that encoding |
| CandidateCodec.EncodingIsCanonical | src/stage/graph-genesis-candidate-codec-v2.ts:11-19 | A payload is encoded if and only if it validates, as its own canonical text: the byte limit after validation never refuses |
| CandidateCodec.OneEncodingPerDeclarations | src/stage/graph-genesis-candidate-codec-v2.ts:11-19 | Accepted payloads that declare the same settings, registry and lock have the same encoding |
| CandidateCodec.OneEncodingPerCandidate | src/stage/graph-genesis-candidate-codec-v2.ts:11-19 | Two accepted payloads encode alike if and only if they are equal up to member order: one text per candidate |
| CandidateCodec.ScanIsImplied | src/stage/graph-genesis-candidate-codec-v2.ts:25-28 | The scan for repeated names refuses nothing the later checks would accept |
| CandidateCodec.KeyScanner.AssertNoDuplicateJsonKeys | src/stage/graph-genesis-candidate-codec-v2.ts:47-157 | On a JSON text the scan passes if and only if no object repeats a name after unescaping and no value nests deeper than 64; it terminates on every text |
| CandidateCodec.KeyScanner.ParseString | src/stage/graph-genesis-candidate-codec-v2.ts:52-82 | Where a string token stands, finds its end and its unescaped value |
| CandidateCodec.KeyScanner.ParseMembers | src/stage/graph-genesis-candidate-codec-v2.ts:109-134 | The loop over an object's members passes exactly the members without repeated names and with clean values |
| CandidateCodec.TreeIsClean | src/stage/graph-genesis-candidate-codec-v2.ts:11-19 | Printed values never repeat a name and have exactly the value's levels |
| JsonText.DocumentUnique | src/stage/graph-genesis-broker.ts:290-348 | A text has at most one syntax tree in the grammar of RFC 8259, sections 2 to 7 |
| JsonText.ValueUnique | src/stage/graph-genesis-broker.ts:315-345 | Where a value can stop, its syntax tree and its end are determined by the text |
| JsonTokens.DecodedIsWritten | src/stage/graph-genesis-broker.ts:300-314 | Whatever the string decoder accepts is a string token, and decodes to that token's meaning |
| JsonTokens.EndOfUnits | src/stage/graph-genesis-broker.ts:304-312 | Skipping two code units after each backslash finds exactly the closing quote of a string token |
| JsonTokens.ScalarMatch | src/stage/graph-genesis-broker.ts:341-344 | The scanner's pattern matches exactly the word or number that stands in the text |
| StrictJson.ParseStrictJsonDocument | src/stage/graph-genesis-broker.ts:290-294 | Accepts exactly the JSON texts within the depth and key bounds in which no object at any level has two names equal after unescaping |
| StrictJson.Scanner.ReadDocument | src/stage/graph-genesis-broker.ts:296-348 | On a JSON text the scan passes exactly when every refusal it makes in order is absent; the index strictly increases, so it ends on every text |
| StrictJson.Scanner.ReadMembers | src/stage/graph-genesis-broker.ts:318-331 | The loop over members refuses exactly repeated names, exceeded bounds and refused values |
| StrictJson.PassesIffFits | src/stage/graph-genesis-broker.ts:315-345 | The refusals in scan order are exactly: repeated names, or a depth or key count over the bound |
| JsonNesting.AssertSourceNesting | src/audit/portable-receipt.ts:404-425 | The loop over depth, string and escape state decides well-nestedness |
| JsonNesting.ScanValue | src/audit/portable-receipt.ts:404-425 | Over any value in any text the counter rises by exactly the value's container depth and returns; strings and escapes leave it alone |
| JsonNesting.NestingIsContainerDepth | src/audit/portable-receipt.ts:404-425 | A JSON text passes the nesting check if and only if its value nests no deeper than the bound |
| JsonValues.PrintReadsBack | src/audit/canonical-json.ts:1-3 | Reading any syntax tree of a printed text gives the printed value back |
| JsonValues.PrintInjective | src/audit/canonical-json.ts:1-3 | Different values print differently |
| JsonValues.EscapeMeans | src/audit/canonical-json.ts:1-3 | The escaping of any string, lone surrogates and controls included, unescapes to the string |
| PrintedStrings.StringIsPrinted | src/audit/canonical-json.ts:1-3 | Each code unit of a string is printed at its place: seven by a two-character escape, other controls and halves of no pair by four lower-case hexadecimal digits, and every other by itself |
| PrintedStrings.SizeIsCounted | src/stage/exact-production-graph-v2.ts:735 | The UTF-8 size of a text is the sum over its code units, two for each half of a surrogate pair and three for a half of none |
| JsonValues.MergeWellFormed | src/audit/portable-receipt.ts:172-180 | What a parser builds, the last value of each name counting, never repeats a name |
| CanonicalJson.CanonicalTextDecides | src/audit/canonical-json.ts:1-14 | Two values print to the same canonical text if and only if they are equal up to the order of members at every level |
| CanonicalJson.SortDecides | src/audit/canonical-json.ts:5-14 | Two values sort to the same value if and only if they are equal up to member order |
| CanonicalOrder.SortedIsArranged | src/audit/canonical-json.ts:5-14 | Of all values equal up to member order the sorted one is the one whose names stand in order at every level: array indices first, by number, and then the others by code units |
| CanonicalOrder.CanonicalTextIs | src/audit/canonical-json.ts:1-14 | A text is canonical for a value exactly when it prints the arrangement of the value with its names in that order |
| CanonicalJson.CanonicalTextReadsBack | src/audit/canonical-json.ts:1-14 | Parsing canonical text gives the sorted value |
| CanonicalJson.CanonicalTextIdempotent | src/audit/canonical-json.ts:1-14 | Printing what was read back changes nothing, and it equals the original up to order |
| ReceiptJson.CanonicalTextNesting | src/audit/portable-receipt.ts:404-425 | Canonical text passes the nesting check if and only if the value's container depth is within the bound |
| ReceiptJson.ReceiptTextPassesNesting | src/audit/receipt.ts:594-630 | Every value within the receipt bounds prints to text that passes the nesting check |
| ReceiptRoundTrip.ReceiptRoundTrip | src/audit/portable-receipt.ts:117-208 | For every run of the gateway and every action, what is exported and serialized within the size limit verifies with the one status that the action's recorded receipts tell, and it is serialized unless its values exceed the receipt bounds |
| ReceiptRoundTrip.VerifyPortableReceipt | src/audit/portable-receipt.ts:166-208 | Of all texts the checks, in the source's order, accept with a status exactly the serializations within the limit of a conforming envelope of that status whose relationships hold |
| ReceiptRoundTrip.SerializationReads | src/audit/portable-receipt.ts:160-180 | Whatever is serialized passes nesting and parsing, and the schema sees the envelope again |
| ReceiptRoundTrip.SerializationsDiffer | src/audit/portable-receipt.ts:160-164 | Different envelopes are serialized differently |
| ReceiptEvidence.AcceptedIsEvidence | src/audit/portable-receipt.ts:306-380 | The schema and the relationships accept exactly the envelopes that show the receipts of one well shaped call and nothing else, each with a chained event whose canonical text tells it and whose hash holds, in order, and with the completeness the receipts tell |
| ReceiptEvidence.VerdictIsTold | src/audit/portable-receipt.ts:166-208 | A text is accepted with a status exactly when it is the serialization, within the bounds, of such evidence, and the status is the one the receipts tell |
| ReceiptEvidence.ProofsDetermineEvidence | src/audit/portable-receipt.ts:363-380 | Under the same events no receipt, action, completeness or verdict of accepted evidence can differ |
| ReceiptEvidence.OutcomeBindsAuthorization | src/audit/portable-receipt.ts:321-341 | Accepted envelopes with the same outcome show the same authorization, or two receipts with the same digest |
| ReceiptEvidence.ExportsExactlyEvidence | src/audit/portable-receipt.ts:117-158 | Whatever the table holds, an action is exported exactly when the chain verifies, the action is known, and its receipt rows tell, in table order, the receipts of a well shaped call; the envelope is then the evidence of just those rows |
| SerializedReceipt.SerializedParses | src/audit/portable-receipt.ts:160-180 | The serialized line parses to the value with its members sorted, and passes the nesting check when the value is within the receipt bounds |
| SerializedReceipt.CanonicalParses | src/audit/canonical-json.ts:1-14 | Canonical text parses to the value with its members sorted |
| SerializedReceipt.AnswerIsParser | src/audit/portable-receipt.ts:172-180 | A parser as the theorems demand exists: what printed texts must be parsed to never asks for two answers, nor for a value that repeats a name |
| ApprovalService.DecideSound | src/approval/service.ts:80-89 | A decision settles exactly the pending, visible tickets: as approved or denied, as it says, strictly before the expiry, and as expired from then on, at that time; every other ticket stays as it is |
| ApprovalService.RequestSound | src/approval/service.ts:35-65 | Exactly an open service takes a request for a positive time; it is then pending with just these terms, and every other ticket stays as it is |
| ApprovalService.SettleSound | src/approval/service.ts:97-103 | Timers and cancellation never approve; a pending ticket leaves with the outcome and the time, a settled one stays as it settled, and so does every other ticket |
| ApprovalService.CloseSound | src/approval/service.ts:91-95 | Closing cancels every pending ticket, at that time, and leaves none pending and the settled ones as they are |
| ApprovalService.LocalApprovalService.Decide | src/approval/service.ts:80-89 | The answer and new state are those of the decision step; settlements stay, and no approval is settled at or after its expiry |
| ApprovalService.LocalApprovalService.Request | src/approval/service.ts:25-32 | A request leaves exactly one new visible ticket, or nothing when refused, and no ticket is pending and settled |
| ApprovalService.LocalApprovalService.Close | src/approval/service.ts:91-95 | The loop over the pending tickets cancels all of them, and settlements stay |
| AuditRecorder.CommitAdds | src/audit/recorder.ts:123-128 | One transaction adds its receipts and starts to its own call and to no other |
| AuditRecorder.MarkForwardingAgrees | src/audit/recorder.ts:254-282 | The mark before dispatch leaves exactly one authorized receipt and one start under its digest |
| AuditRecorder.MarkBlockedAgrees | src/audit/recorder.ts:328-344 | A block leaves exactly one receipt, not authorized, and no start |
| AuditRecorder.MarkCompletedAgrees | src/audit/recorder.ts:345-377 | Completion adds one outcome carrying the authorization's digest |
| AuditRecorder.MarkFailedAgrees | src/audit/recorder.ts:450-486 | Failure completes whatever receipts are missing, and adds none to a finished call |
| GatewaySafety.DispatchIsRecordedAndApproved | src/gateway/gateway.ts:60-163 | In every interleaving with any write failing: the upstream tool is called at most once per request and as often as its start is on record; the table then held the call's single authorized receipt and that start; for an ask the approval was decided strictly before its expiry |
| GatewaySafety.ReceiptsAreWellShaped | src/gateway/gateway.ts:60-163 | In every run each call has no receipt, one authorization, or an authorized one and one outcome carrying its digest |
| GatewaySafety.NextSafe | src/gateway/gateway.ts:66-162 | Every step keeps the invariant that ties each handler's record, its rows in the table, its dispatches and its ticket |
| GatewaySafety.ForwardCallSafe | src/gateway/gateway.ts:135-143 | Forwarding dispatches exactly when its record commits |
| GatewaySafety.RecordedInTimeIff | src/audit/recorder.ts:306-327 | The receipt of an approved call shows the decision before the expiry if and only if the handler resumed before the expiry; the decision itself always was |
| GatewaySafety.DecisionRecordedAfterExpiry | src/audit/recorder.ts:306-327 | A concrete run that dispatches with a recorded decision after the recorded expiry |
| GatewaySafety.SafeIsReady | src/gateway/gateway.ts:66-162 | Every state a run can reach meets what the server object's methods demand |
| GatewayEndings.EveryCallEndsAsDecided | src/gateway/gateway.ts:60-163 | In every interleaving, the receipts of each call and whether the upstream tool was called for it are told by the first steps that decide it: one blocked receipt with the matching approval for a denial, an absent coordinator, or a ticket denied, expired or cancelled, one failed before dispatch for a caller gone after the approval, and for a forwarded call its authorization and then the one outcome whose terminal is fixed by what came back and which writes committed |
| GatewayEndings.CalledIffLetThrough | src/gateway/gateway.ts:85-147 | The upstream tool is called for a handler exactly when the policy allowed the call, or it asked, the ticket was approved in time and the caller had not gone when the handler resumed, and the writes before the call committed |
| CallMoves.StoryAppend | src/gateway/gateway.ts:60-163 | One more step of a run moves each call from what it has come to, told by places, to what it comes to then |
| GatewayServer.GatewayServer.ForwardCall | src/gateway/gateway.ts:135-143 | The upstream call is made only after the record committed |
| GatewayServer.GatewayServer.AskCall | src/gateway/gateway.ts:98-117 | The ticket, its durable record, and cancellation when the write throws or the caller has gone |
| GatewayServer.GatewayServer.Evaluated | src/gateway/gateway.ts:85-143 | From the policy's answer to the next await: every call moves as its story tells, an allowed one is forwarded, a denied one blocked, an asking one waits for its ticket; every dispatch is single, recorded before it was made, and approved in time where asked |
| GatewayServer.GatewayServer.ApprovalSettled | src/gateway/gateway.ts:118-143 | From a settled ticket to the next await: the call moves as its story tells, forwarded exactly when approved and its caller still there, with the same promise about dispatches |
| GatewayServer.GatewayServer.Returned | src/gateway/gateway.ts:148-158 | After the upstream result: the call is over with the outcome its story tells, with the same promise about dispatches |
| GatewayServer.Serve | src/gateway/gateway.ts:60-163 | A new server taking any steps makes the machine's run; every call has come to what the steps tell, and every dispatch is single, recorded and approved |
| GatewayServer.SqliteAuditRecorder.MarkForwarding | src/audit/recorder.ts:254-282 | Both rows or neither; the record changes only when they are in the table |
| GatewayServer.SqliteAuditRecorder.MarkApprovalResolved | src/audit/recorder.ts:306-327 | Only a pending approval row can be resolved, once |
| GatewayServer.SqliteAuditRecorder.MarkFailed | src/audit/recorder.ts:450-486 | Silent on a finished call; otherwise the missing receipts, or nothing when the write throws |
| HashChain.EventTable.AppendEvent | src/audit/recorder.ts:550-570 | Appends one row, leaves the others, and the table verifies after it exactly when it did before |
| HashChain.EventTable.VerifyHashChain | src/audit/recorder.ts:511-522 | The loop decides whether every row names its predecessor's hash and carries its own |
| HashChain.EveryHistoryVerifies | src/audit/recorder.ts:550-570 | Any history of appended events verifies and holds them in order |
| HashChain.WriteHistory | src/audit/recorder.ts:550-570 | Appending any events one after the other makes the chained table of their history, and it verifies |
| HashChain.EventsDetermineTable | src/audit/recorder.ts:511-522 | A verifying table is the one its events make: the chain leaves no freedom |
| HashChain.PrefixVerifies | src/audit/recorder.ts:511-522 | Every prefix of a verifying table verifies |
| HashChain.SameTailSameTable | src/audit/recorder.ts:511-522 | Two verifying tables with the same last hash are identical, unless two inputs collide or a row hashes to the genesis value |
| HashChain.TamperingIsNoticed | src/audit/recorder.ts:511-522 | Changing, reordering or removing rows under an unchanged last hash makes verification fail, short of such a failure of the hash |
| AuditEvents.EventReadsBack | src/audit/recorder.ts:550-570 | An event written as canonical text is read back by the export's parser and schema |
| AuditEvents.StoreHolds | src/audit/recorder.ts:550-570 | A table written event by event verifies as a chain, and every row's hash, columns and text tell its event |
| PortableReceipt.SelectedListsReceipts | src/audit/portable-receipt.ts:126-143 | The rows selected for an action pass the hash, canonical-text and kind checks and tell its receipts, in table order |
| PortableReceipt.ExportOfShape | src/audit/portable-receipt.ts:117-158 | A well shaped call is exported if and only if it is known and its receipt events are within the schema's bound, and otherwise refused as outside the schema or not found; the envelope then meets every relationship, carries exactly the recorded receipts, and has the status they tell |
| PortableReceipt.ExportNeverRefuses | src/audit/portable-receipt.ts:117-158 | In every run of the gateway, written through the chain, the chain check and each row's hash check pass and every known action is exported, unless a receipt event's text is over the schema's bound |
| LongReceipts.FullEvidenceIsRefused | src/audit/portable-receipt.ts:22-28 | In every run of the gateway, an action with a recorded receipt that shows full identity evidence is refused by the schema |
| LongReceipts.DeniedCallRefused | src/audit/receipt.ts:45-66 | A concrete run: a denied call, recorded at once, whose export is refused wherever receipts show full identity evidence |
| ExecutionAuthority.EveryHistoryIsSafe | src/stage/graph-genesis-v2-execution.ts:56-168 | After any calls: ordinals are 0 to n-1, active transports are issued minus completed and at most four, a run ended at most once, a listener served at most one run |
| ExecutionAuthority.QuiescenceReportsExactly | src/stage/graph-genesis-v2-execution.ts:146-153 | A quiescence report counts exactly the issued transports, all completed, and the sum of their bytes |
| ExecutionAuthority.CloseAndQuiesceCommute | src/stage/graph-genesis-v2-execution.ts:133-145 | Child close with any exit code and listener quiescence, in either order and from any phase, leave the same state, and each succeeds in one order exactly when it does in the other |
| ExecutionOrder.EveryHistoryIsInOrder | src/stage/graph-genesis-v2-execution.ts:56-168 | In every history each call succeeds exactly when the calls before it allow it, and answers what they say: reserve, start, intent, arm and spawn in that order, each in time and before the deadline, the start also in its own time; transports issued in turn to a running run and each completed once; close and listener quiescence once each, and the end once the run has closed, is quiet and has completed its transports |
| ExecutionOrder.CallRuled | src/stage/graph-genesis-v2-execution.ts:56-168 | So one call on any state a history reaches succeeds exactly when the calls before it allow it, and answers what they say |
| ExecutionServer.SyntheticExecutionAuthority.Reserve | src/stage/graph-genesis-v2-execution.ts:74-88 | Consumes the listener before the run exists, or changes nothing; a listener has still served at most one run |
| ExecutionServer.SyntheticExecutionAuthority.CompleteTransport | src/stage/graph-genesis-v2-execution.ts:122-131 | Completes an open transport of a running run, or fails having moved only the clock; active transports stay issued minus completed |
| ExecutionServer.SyntheticExecutionAuthority.Quiesce | src/stage/graph-genesis-v2-execution.ts:146-153 | Ends a closed run once, reporting exactly the issued transports and the sum of their completed bytes |
| ExecutionServer.Serve | src/stage/graph-genesis-v2-execution.ts:56-168 | A new authority answering any calls reaches the machine's state and history, keeps its safety, and answers every call as the calls before it allow |
| Framing.BigEndianRoundTrip | src/stage/archive-worker-protocol.ts:31-36 | The four header bytes are the digits of the length to the base 256, the highest first, and reading them gives the length back |
| Framing.FirstOfFrame | src/stage/archive-worker-protocol.ts:31-36 | Decoding an encoded body gives it back with whatever follows, under any bound it fits |
| Framing.FrameOfFirst | src/stage/bounded-archive-worker.ts:508-525 | Whatever decodes is the encoding of what was decoded |
| Framing.EncodeArchiveWorkerFrame | src/stage/archive-worker-protocol.ts:31-36 | Writes the header in place and yields the frame, exactly when the length fits |
| Framing.EncodeArchiveWorkerRequestHeader | src/stage/archive-worker-protocol.ts:38-45 | Yields both lengths and the body, exactly when they fit |
| Framing.BoundedReader.ReadExact | src/stage/bounded-archive-worker.ts:567-575 | What it delivers is the next bytes of the stream; while the stream is within its bound it delivers them under every chunking exactly when they are there |
| Framing.BoundedReader.ReadFrame | src/stage/bounded-archive-worker.ts:508-525 | What it delivers is the first frame of the remaining stream; while the stream is within its bound, content alone decides whether there is one |
| Framing.BoundedReader.ReadToEnd | src/stage/bounded-archive-worker.ts:576-582 | Delivers the rest exactly when the whole stream is within the bound |
| Framing.ReadSession | src/stage/bounded-archive-worker.ts:508-593 | Any chunking of a stream yields the one session it holds, exactly when it holds one within the bound |
| Framing.SessionUnique | src/stage/bounded-archive-worker.ts:508-525 | A stream holds at most one session |
| MessageStream.ReceiveMessages | src/stage/bounded-archive-worker.ts:508-593 | Whatever messages were sent as frames are received, in order, under every chunking, exactly when the stream is within its bound |
| MessageStream.StreamTellsMessages | src/stage/bounded-archive-worker.ts:508-525 | A stream of frames carries one list of messages of a given length |
| Framing.InputReader.ReadExact | src/stage/archive-worker-entry.ts:28-48 | Copies the next bytes out of the chunks, exactly when the input holds them, whatever the chunking |
| PassB.OrderlySizes | src/stage/bounded-archive-worker.ts:324-374 | In an orderly log each finished entry has exactly its declared size, the open one its offset, and the others nothing |
| PassB.WorkerSession.SendEntries | src/stage/archive-worker-entry.ts:102-154 | Sends every entry in lockstep, and finishes exactly when every message is acknowledged in turn |
| PassB.StageSession.ReceiveBody | src/stage/bounded-archive-worker.ts:345-356 | From an entry's start takes chunks to exactly its declared size without changing what the whole pass will come to, or stops where the pass fails |
| PassB.StageSession.RunPassB | src/stage/bounded-archive-worker.ts:324-374 | For any messages and sink the log, the acknowledgements and the result are exactly those of receiving the messages one by one; success means every entry is full and every message acknowledged, and against the repository's worker it succeeds and delivers each body exactly |
| PassB.ReceivedIsOrderly | src/stage/bounded-archive-worker.ts:324-374 | Receiving any messages keeps the operations in order and within `[0, declaredSize)`, and completes only when every entry is full |
| PassB.WorkerIsReceived | src/stage/bounded-archive-worker.ts:324-374 | Of the messages the repository's worker sends every one is acknowledged, the session completes, and each body is delivered exactly |
| PassBSessions.CompletesIff | src/stage/bounded-archive-worker.ts:324-374 | Whoever sends the messages, the pass completes exactly when they are, in order, each entry's announcement, its body in nonempty chunks within the bound at their offsets, and its end, then the completion, and the sink takes every operation |
| PassBSessions.SessionDelivers | src/stage/bounded-archive-worker.ts:324-374 | Such a session delivers for each entry its chunks put together, and every message of it is acknowledged |
| PassBLockstep.EveryScheduleAgrees | src/stage/bounded-archive-worker.ts:324-374 | In every schedule of turns that comes to rest, both ends have succeeded, or both have failed at the same message |
| PassBLockstep.LockstepDelivers | src/stage/archive-worker-entry.ts:102-154 | Worker and stage together, in every schedule that comes to rest: both succeed, every acknowledgement matches, and the sink has each body exactly |
| PassBLockstep.TurnsAreFew | src/stage/archive-worker-entry.ts:102-154 | Every turn that is not idle sends or receives one message, so at most two turns for each message change anything |
| PassBLockstep.RunTogether | src/stage/archive-worker-entry.ts:102-154 | The code of both ends, each given what the other sends, succeeds or fails together, and delivers each body exactly where the stage expects these entries |
| ManifestPass.ReadPackageManifestFrames | src/stage/bounded-archive-worker.ts:886-952 | Whatever the sender, yields a manifest exactly when the messages carry one of the promised size and digest in chunks within the bound, and yields that one |
| ManifestPass.SendManifest | src/stage/archive-worker-entry.ts:80-100 | The worker's loop sends the start, the body in chunks of the requested size at their offsets, and the end |
| ManifestPass.WorkerCarries | src/stage/archive-worker-entry.ts:80-100 | What the worker sends carries exactly the manifest's body |
| Redaction.RedactForAudit | src/audit/redaction.ts:6-43 | The loops that fill the result yield the redaction of the value, of which RedactionKept says what stands at each place |
| Redaction.SecretsDoNotShow | src/audit/redaction.ts:10-43 | Values that differ only under secret-named keys, at any depth, redact alike |
| RedactionKept.RedactionKeeps | src/audit/redaction.ts:10-43 | At every place reached through the first hundred entries of each level and under no secret name, what stands is told by the value there and its depth: numbers, booleans, null and strings of at most 512 units as they are, a longer string cut and marked, a list or object by its first hundred entries and, exactly when there are more, their number, and one mark thirteen levels down |
| RedactionKept.SecretsAreReplaced | src/audit/redaction.ts:31-34 | Under a secret name, at every level redaction reaches, stands the one mark of secrets |
| RedactionKept.PlainStands | src/audit/redaction.ts:10-43 | A value within the bounds and without secret names is not changed at all |
| RedactionKept.PlainArgumentsAreTold | src/audit/recorder.ts:135-152 | The stored text of such arguments tells them apart, up to member order |
| RedactionKept.PlainRequestsAreTold | src/audit/recorder.ts:144-152 | And so does the request hash, short of two texts with the same hash |
| Redaction.RedactionBounds | src/audit/redaction.ts:10-43 | Redacted values nest at most 13 levels below the start, hold at most 101 items or fields each, and strings of at most 523 code units |
| Redaction.StoredRevealsNoSecrets | src/audit/recorder.ts:135-152 | Neither the stored arguments nor the request hash depend on the values of secret-named keys |
| Redaction.RedactedNesting | src/audit/redaction.ts:6-43 | The canonical text of a redacted value passes the nesting check |
| AddressBlocks.HasPrefix | src/stage/graph-genesis-network.ts:727-734 | The masked comparison decides whether address and prefix have the same network number |
| AddressBlocks.NetworkIsQuotient | src/stage/graph-genesis-network.ts:727-734 | The network number is the address divided by the block size, as in section 3.1 of RFC 4632 |
| AddressBlocks.BlockIsInterval | src/stage/graph-genesis-network.ts:727-734 | Having an aligned block's network number is lying between its first and its last address |
| AddressBlocks.MaskCompares | src/stage/graph-genesis-network.ts:732-733 | Bytes agree under the shifted mask exactly when their quotients by the masked power of two agree |
| PublicAddress.ParseIpv6 | src/stage/graph-genesis-network.ts:701-720 | Accepts exactly the colon-hexadecimal texts of section 2.2 of RFC 4291, digits in either case, and expands each to its sixteen bytes |
| PublicAddress.ReadsIffSpells | src/stage/graph-genesis-network.ts:701-720 | The splits the parser makes find exactly the groups before and after the double colon |
| PublicAddress.ReadsLower | src/stage/graph-genesis-network.ts:702 | Lower-casing the text before splitting changes neither the groups found, up to case, nor any byte of the expansion |
| PublicAddress.IsPublicAddress | src/stage/graph-genesis-network.ts:665-674 | A dotted address is public if and only if its family is 4 and no reserved block contains it; a colon-hexadecimal one if and only if its family is 6 and it expands to a mapped public address or to one in no reserved block, the mapped one through its dotted text |
| ReservedBlocks.PublicV4Iff | src/stage/graph-genesis-network.ts:675-680 | An IPv4 address is public exactly when its bytes are none of the reserved ones, said byte by byte |
| ReservedBlocks.PublicV6Iff | src/stage/graph-genesis-network.ts:665-694 | An IPv6 address is public exactly when its bytes, or those of the IPv4 address it embeds, are none of the reserved ones, said byte by byte |
| PublicAddress.ParseIpv4 | src/stage/graph-genesis-network.ts:696-699 | Reads the bytes whose dotted text the address is |
| PublicAddress.Matches | src/stage/graph-genesis-network.ts:669-673 | Some block of a list contains the address |
| PolicyPatterns.EscapingIsExact | src/policy/matcher.ts:65-71 | The regular expression built from any pattern means the pattern's own characters and wildcards and nothing else |
| PolicyPatterns.AcceptsIffFits | src/policy/matcher.ts:61-67 | It accepts exactly the values got by replacing each `*` with a run free of line terminators |
| PolicyPatterns.SpecificityMeans | src/policy/matcher.ts:61-67 | A specificity is given exactly to values that fit the pattern, and 2 exactly to the pattern's own text |
| PolicyMatcher.MatchIsBest | src/policy/matcher.ts:20-59 | The policy asks by default if and only if no rule applies, and otherwise answers with the one rule that outranks every other applicable one by priority, exactness, strictness, then identifier |
| PolicyMatcher.RankMeans | src/policy/matcher.ts:25-38 | A rule is ranked exactly when it applies, by how many of its parts match exactly |
| PolicyMatcher.RuleOrderIrrelevant | src/policy/matcher.ts:40-41 | The order of the rules in the document does not matter |
| PolicyMatcher.OneMoreRule | src/policy/matcher.ts:20-52 | One more rule changes the answer exactly when it applies and outranks the rule that decided before |
| PolicyMatcher.DenialsAreOverruled | src/policy/matcher.ts:54-59 | If a call is not denied, every applicable denying rule has lower priority, or the same priority and a less exact match |
| PolicyMatcher.StricterIsOverruled | src/policy/matcher.ts:20-59 | Whatever the answer, every applicable rule stricter than it, asking above allowing and denying above both, has lower priority, or the same priority and a less exact match |

## Left out

What a model does not capture:

- MetadataBrokerLedger.EveryLedgerIsFaithful: `bodySha256` and the ledger digest are not modelled; an entry holds the response body itself. Payload sizes, the sink's answer and the transport's result are free choices of the environment, and a response is taken to be no larger than the transport was told to allow.
- LockGraph.CompileLockGraph: the shape of the document, URLs, integrity texts and versions are checked elsewhere in the source and are opaque here; declarations are taken in name order, and case folding and the safety of a specifier are parameters.
- LockGraph.ReadEntries: likewise the flags, URLs and integrity texts of a record are not modelled; only its path and declarations decide.
- CandidateV2.CompiledRecompiles: sorting, the checks of versions, URLs, integrity texts and settings, the normalization of a registry, case folding, the hash and the peer analysis are parameters. The proofs use only that sorting lists every key once, that arranging requirements rearranges them, that a normalized registry is normal, that a digest is 64 hexadecimal digits, and three properties of the analysis, which CandidatePeers.AnalysisIsLawful proves of the modelled one.
- CandidateValidation.AcceptsExactlyCompiled: the same parameters. Names and paths that hold a lone surrogate are refused when a document is read, where the source refuses them later, by its pattern of names or in the peer analysis; values are JSON values, so prototypes, accessors and cycles do not occur.
- PeerSemantics.AnalyzePeerDependencySemantics: the grammars of versions and ranges and which version a range admits are parameters, the order of the results is any rearrangement, a queue is a set from which any node may be taken, and every refusal is the same one.
- CandidateCodec.DecodeExactGraphCandidateV2: the JSON parser is a parameter that gives the parser's answer on every text whose numbers are safe integers, and any value without repeated names on other texts.
- StrictJson.ParseStrictJsonDocument: the parser that follows the scan is represented by the syntax tree it is given, required to be the text's own.
- CanonicalJson.CanonicalTextDecides: numbers are safe integers; sorting and the platform's enumeration of the sorted object are modelled as one order of keys, array indices first by number and then the others by code units. Keys named `__proto__` are not treated apart.
- ReceiptRoundTrip.VerifyPortableReceipt: how an envelope is laid out in JSON and seen by its schema are parameters with the stated laws, as are the parser and the hash; that the bytes of a file are valid UTF-8 is not modelled, a text being given.
- ApprovalService.LocalApprovalService.Request: identifiers are numbers never used before instead of random UUIDs, and time is an integer.
- GatewayEndings.EveryCallEndsAsDecided: of the table a story tells the receipts; the other events of a call are stated with the marks that write them.
- GatewaySafety.DispatchIsRecordedAndApproved: the policy's answer, the upstream result, the clock and which writes commit are free choices of the environment; the graph-genesis boundary of the recorder is not part of the run, because the handler never uses it.
- AuditRecorder.MarkFailedAgrees: of a receipt only the fields its relationships use are kept, the action being its identifier and one text for everything else about it, and digests are an arbitrary function of the receipt.
- PortableReceipt.ExportOfShape: schema versions are not modelled (the recorder gives all receipts of a call the version of its context), nor the formats of identifiers, hashes and times; an action is looked up in the event table, where its call's first event is written with its row of the call table. How an event is laid out in JSON is a parameter with the stated laws.
- ReceiptEvidence.AcceptedIsEvidence: the same layouts and digests; a proof's hashes are those of its own row, since the rest of the chain is not in an envelope.
- LongReceipts.FullEvidenceIsRefused: identity evidence is not computed; that an event shows it is a hypothesis about its layout.
- ExecutionAuthority.EveryHistoryIsSafe: times are real numbers, so NaN and the infinities do not occur; tokens are numbers instead of object identities.
- PassB.StageSession.RunPassB: a session is its list of messages; error frames only end it, and aborts are not modelled. A chunk may hold up to two bytes more than its bound, because the source bounds the length of the base64 text; the model does the same.
- PassBLockstep.EveryScheduleAgrees: turns are taken one at a time, and a message or an acknowledgement once sent is not lost.
- Framing.EncodeArchiveWorkerFrame: the JSON text of the value is given as bytes.
- Framing.EncodeArchiveWorkerRequestHeader: likewise for the request.
- Framing.BoundedReader.ReadExact: once the whole stream exceeds its bound, whether an early read still succeeds depends on the chunks and is left open.
- Framing.BoundedReader.ReadFrame: the same, and the JSON text of the frame is not parsed here.
- Redaction.RedactionBounds: cyclic values, bigint, undefined, functions and the `__proto__` key do not occur; counts are at most the largest safe integer. Keys are not shortened and a field named `__truncated__` can be overwritten by the marker, as in the source.
- RedactionKept.RedactionKeeps: what stands under the name of the truncation mark is left open where an object of more than a hundred fields has a field of that name, which the mark overwrites.
- Redaction.SecretsDoNotShow: which keys are secret is an arbitrary predicate, in place of the regular expression.
- PublicAddress.IsPublicAddress: the platform's test that a text is an IPv6 address is a parameter that decides only whether such a text is looked at; its test for IPv4 is the dotted grammar.
- PolicyPatterns.AcceptsIffFits: characters are Unicode scalar values where the engine works on UTF-16 code units.
- PolicyMatcher.MatchIsBest: the platform's comparison of identifiers is any strict total order on the identifiers a document may use, and its sort any sort (an insertion sort here).

Parts of the repository that are not modelled:

- The first pass's transcript frame and the tar parser: shape checks, and a parser whose source is long and separate.
- The older metadata broker in `graph-genesis-broker.ts`; only its JSON scanner is modelled.
- The scanner copy in `package-manifest-projection.ts`, a repeat of the strict scanner.
- SQLite, files, DNS, HTTPS, sockets, child processes, timers, the dashboard and the command line: foreign effects, of which only "this step may fail" is kept.
- SHA-256, base64, UUIDs and regular expressions other than policy patterns: parameters or abstract functions. Injectivity of the hash is nowhere assumed; the tamper theorems name the collision instead.
- Live and preflight orchestration, the install runner and planner, workspace cleanup and containment probes: mostly sequencing of effects.
- Risk scoring and the escalation of an allowed call by its score, and Zod schema checks beyond the fields above: many small cases, each read off one branch.
