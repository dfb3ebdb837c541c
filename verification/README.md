# Verified model of the compatibility service

The compatibility service lets Fabric clients work on a Fabric-X network. Its
orchestrators collect endorsements for a namespace policy, keep chaincode
lifecycle definitions on a shared ledger, submit each transaction at most once,
prepare and parse Gateway envelopes, simulate chaincodes against a query view,
and replay committed events. This project models those parts in Dafny and proves
what they are relied on for. `dafny verify dfyconfig.toml` checks everything.

## What is modelled

- **Endorsement selection** (`SignaturePolicy`, `WitnessSearch`, `OrderSearch`,
  `EndorsementSelection`, `PolicyInspection`, `EndorsementCollection`). The
  continuation-passing witness search and the profile-pruned permutation search
  run as classes over the same `used` marks, selections and context polls as the
  code; closures become a datatype of continuations. Together they find a
  selection exactly when one exists, although the evaluator is greedy and
  order-sensitive. Collection inspects the policy, then asks organizations and
  endpoints in order; when it gives up, no list of distinct signers of any
  organization in the directory would have been accepted.
- **Lifecycle ledger** (`LedgerKeys`, `LifecycleLedger`, `LifecycleStore`,
  `LifecycleSync`, `LifecycleSystem`, `LifecyclePropagation`). Transactions are
  prepared from three separate reads and applied if their read versions are still
  current. Every applied one is a single atomic revision step, so that over all runs
  of any number of orchestrators revisions, markers and index entries only grow in
  the intended way, mirrors only ever repeat what the ledger showed and are never
  ahead, and index replay cannot fail below the limit of its 64-bit counter.
- **Initialization** (`ConfirmedInits`). The lifecycle system together with the
  record store of every node: a marker follows the callback of an application Init
  whose own transaction was committed.
- **Pending lifecycle receipts** (`LifecycleReceipts`). The gated objects, their
  turns, and the rule that an uncertain transaction is never sent again, whatever
  statuses arrive.
- **Idempotency and finality** (`IdempotencyStore`, `FinalityRecording`,
  `FinalityProtocol`, `RequestDigest`). The record store as a class; the filters that
  match a status with the record of its own transaction, the lazy pass and the
  refresh as methods over it; all interleavings of requests, timeouts, passes and
  arbitrary statuses as a step system over the same record transitions; and the
  framing of the digest that names a request.
- **Gateway envelope** (`GatewayEnvelope`, `EnvelopeCriteria`). Printing and parsing
  of prepared transactions, with both directions of when one can be prepared, what it
  then says field by field, and when an envelope is accepted.
- **Invocation state** (`ExecutionContext`, `ShimHandler`). The read/write set
  capture and the message loop; a committed endorsement acts as if the chaincode
  had been invoked at its commit point.
- **Event replay** (`EventReplay`). Decoding, the block cursor, and delivery from a
  start block and after a checkpoint: exactly the positions of the ledger that yield a
  matching event, in ledger order.

Code that changes fields, maps and loop variables is a class or a method with a
loop; its contract ties the new state to a specification function, and the lemmas
are about that function. What such a function computes is stated a second time,
without naming it, in terms of the fields and sequences themselves. Code that only
computes is a function.

## Assumptions

- The signature policy evaluator is a library. It is modelled as its callers
  describe it: children left to right, a successful child keeps what it consumed also
  beyond the threshold, a leaf takes the first unused match in submission order, a
  failed child consumes nothing.
- Certificates, MSP principals and signatures enter as functions that say which signer
  satisfies which principal, who signed an execution, and whether the namespace
  verifier accepts. Distinct signers have distinct keys.
- Hashes are collision-free. The proposal digest is taken to determine the channel
  header, the signature header and the public payload each for itself, although the
  source hashes their concatenation without frames. Protobuf, JSON and ASN.1
  encodings are deterministic and injective per message. Bytes that decode to a message without
  being its canonical encoding are modelled (`Bytes.Variant`). A path segment is
  percent-encoded as in section 2.1 of RFC 3986: injective, without a slash.
- Only the lifecycle transactions modelled here write the keys of the lifecycle
  namespace, which starts empty.
- A transaction commits if and only if every read version, with nil for an absent key,
  equals the current one; versions of a key never repeat; a query view shows one
  snapshot.
- A store method is one atomic step under its mutex, and the guarded SQL upsert is
  atomic. A request deadline is a number of context polls after which cancellation is
  reported; proving a method for every such number covers every timing.

## Results that differ from a first reading

- A created envelope is not always accepted again: an endorser identity that is not
  canonically encoded, a repeated endorser or an empty signature pass creation, but
  the parser rejects the result (`SomeEnvelopeIsRefused`, `RepeatedEndorserIsRefused`,
  `EmptySignatureIsRefused`). `ParsesBackExactly` gives the condition.
- The request digest does not separate arguments from transient entries
  (`ArgumentsLookTransient`); it identifies requests with equally many arguments.
- The lifecycle index stops appending when the watermark reaches the largest
  64-bit number (`AppendsExactlyBelowLimit`). There the counter of the replay loop
  wraps to 0, and the replay ends with a missing entry instead of success, after
  everything was replayed (`SyncFromLedger`). Whole-run results therefore speak of
  runs whose steps start below that limit, which every run of fewer than 2^64 steps
  does (`ShortRunsAreLimited`).
- A lazy pass finds the record of a status by transaction ID. If two locked records
  carried one transaction ID, the later would displace the earlier, whose lock then
  stays taken; all locks are released exactly when no two do (`ReconcilePending`,
  `AllMatchedUnlessTwins`).
- `markExecuted` has no state guard; it is safe exactly before submission
  (`Store.MarkExecuted`), which the request that owns the record observes.

## Model

| member | source | states |
|---|---|---|
| SignaturePolicy.AcceptsIsConsume | compatibility_service/pkg/orchestrator/endorsement_policy.go:236-238 | Evaluating with used-flags (leaves take the first unused match, successful children keep what they consumed past the threshold) accepts a list exactly when evaluating by deletion does. |
| SignaturePolicy.ConsumeByProfile | compatibility_service/pkg/orchestrator/endorsement_policy.go:335-338 | The evaluator sees only which principals each submitted signer satisfies: lists with equal profiles, even over different match tables, are accepted alike and leave equally matching remainders. |
| SignaturePolicy.ConsumeOfKept | compatibility_service/pkg/orchestrator/endorsement_policy.go:340-370 | Deleting any signers no leaf of the policy could use changes neither the verdict nor what else is consumed. |
| SignaturePolicy.KeptIsAccepted | compatibility_service/pkg/orchestrator/endorsement_policy.go:340-370 | An accepted submission stays accepted without its useless signers, or the policy accepts even the empty list. |
| SignaturePolicy.GreedyHasWitness | compatibility_service/pkg/orchestrator/endorsement_policy.go:272-309 | Whatever the greedy evaluator consumed for a rule can be rearranged by the backtracking search into one of its witnesses, using no other signers. |
| SignaturePolicy.GreedyHasChoice | compatibility_service/pkg/orchestrator/endorsement_policy.go:290-306 | The same for an N-out-of rule: if at least n children verified greedily, the search reaches a choice of exactly n of them over disjoint shares of the consumed signers. |
| SignaturePolicy.WitnessesFulfil | compatibility_service/pkg/orchestrator/endorsement_policy.go:272-309 | The witnesses the backtracking search enumerates for a rule are exactly the orders that fulfil it: one fresh matching signer for a leaf, and n of the children one after the other for an N-out-of rule. |
| WitnessSearching.WitnessSearch.constructor | compatibility_service/pkg/orchestrator/endorsement_policy.go:268-271 | No signer is marked used and no witness was seen. |
| WitnessSearching.WitnessSearch.Search | compatibility_service/pkg/orchestrator/endorsement_policy.go:272-309 | `used` is restored; only an accepted submission is ever selected; unless canceled, the search stops at the first accepted order among exactly the witnesses of the rule, in order, and `hasWitness` says whether there was one. |
| WitnessSearching.WitnessSearch.TryLeaf | compatibility_service/pkg/orchestrator/endorsement_policy.go:277-288 | A leaf tries every unused matching signer in index order and nothing else, restoring `used` after each. |
| WitnessSearching.WitnessSearch.TryNext | compatibility_service/pkg/orchestrator/endorsement_policy.go:278-288 | One candidate extends the tried prefix of a leaf by exactly that candidate, or ends the search with an accepted order. |
| WitnessSearching.WitnessSearch.TryCandidate | compatibility_service/pkg/orchestrator/endorsement_policy.go:278-288 | One candidate of a leaf: continued with if unused and matching, and unmarked afterwards. |
| WitnessSearching.WitnessSearch.ChooseFrom | compatibility_service/pkg/orchestrator/endorsement_policy.go:289-306 | Satisfying n of the remaining rules runs over exactly the n-element choices, taking before skipping. |
| WitnessSearching.WitnessSearch.TakeRule | compatibility_service/pkg/orchestrator/endorsement_policy.go:301-303 | Taking a rule runs over the choices that contain it; success makes skipping it unnecessary. |
| WitnessSearching.WitnessSearch.Continue | compatibility_service/pkg/orchestrator/endorsement_policy.go:310-325 | The continuation of one complete order: submit it to the evaluator, or go on choosing. |
| WitnessSearching.FirstAcceptedConcat | compatibility_service/pkg/orchestrator/endorsement_policy.go:272-325 | The first accepted order of two consecutive stretches of the search is that of the first stretch, or else of the second. |
| WitnessSearching.FirstAcceptedIs | compatibility_service/pkg/orchestrator/endorsement_policy.go:310-325 | The first accepted order is the submission of the first complete order the evaluator accepts; an empty order is submitted as the first candidate. |
| WitnessSearching.RanCandidate | compatibility_service/pkg/orchestrator/endorsement_policy.go:278-288 | Trying one more candidate after a fruitless prefix amounts to having tried the longer prefix. |
| WitnessSearching.RanTake | compatibility_service/pkg/orchestrator/endorsement_policy.go:301-303 | Searching a rule with the choice among the later rules as continuation runs over exactly the choices that take it, and over all choices once it succeeded. |
| OrderSearching.StartWithRepresentative | compatibility_service/pkg/orchestrator/endorsement_policy.go:335-338 | An accepted continuation can be rewritten to start with any unused signer of the same profile, without repeating a signer. |
| OrderSearching.RepresentativeExhausts | compatibility_service/pkg/orchestrator/endorsement_policy.go:366-379 | If one representative of a profile leads nowhere, no continuation starting with that profile is accepted. |
| OrderSearching.AllProfilesExhausted | compatibility_service/pkg/orchestrator/endorsement_policy.go:366-380 | When every profile among the unused useful signers is exhausted, no continuation at all is accepted. |
| OrderSearching.SubmissionFits | compatibility_service/pkg/orchestrator/endorsement_policy.go:339-384 | A list of distinct candidates is no longer than the candidate list, which bounds the search depth. |
| OrderSearching.OrderSearch.constructor | compatibility_service/pkg/orchestrator/endorsement_policy.go:353-357 | Nothing used, nothing ordered, one profile per candidate. |
| OrderSearching.OrderSearch.Search | compatibility_service/pkg/orchestrator/endorsement_policy.go:358-381 | Success selects an accepted submission; an uncanceled failure proves that no continuation of the current order by useful signers is accepted and restores the order. |
| OrderSearching.OrderSearch.Branch | compatibility_service/pkg/orchestrator/endorsement_policy.go:371-378 | One representative: appended, searched, and removed again on failure. |
| OrderSearching.SearchSignatureOrders | compatibility_service/pkg/orchestrator/endorsement_policy.go:339-384 | The pruned permutation search: a selection is accepted, and an uncanceled empty result proves that no nonempty order of matching signers is. |
| OrderSearching.Profiles | compatibility_service/pkg/orchestrator/endorsement_policy.go:340-352 | The profile of a candidate is the list of principals it satisfies, empty exactly if it satisfies none. |
| OrderSearching.ProfileOf | compatibility_service/pkg/orchestrator/endorsement_policy.go:343-352 | One candidate's profile: its bits per principal, empty exactly if nothing matches. |
| EndorsementSelection.SatisfiableHasWitness | compatibility_service/pkg/orchestrator/endorsement_policy.go:326-331 | The early exit is safe: if any nonempty list of distinct signers is accepted in any order, the witness search has a witness. |
| EndorsementSelection.BothSearchesFail | compatibility_service/pkg/orchestrator/endorsement_policy.go:310-384 | If the witness search accepts nothing and the pruned order search is exhausted, no submission whatever is accepted. |
| EndorsementSelection.FirstAcceptedWitness | compatibility_service/pkg/orchestrator/endorsement_policy.go:268-325 | The complete witness search: its selection is accepted, and unless canceled it finds the first accepted witness and knows whether there is a witness. |
| EndorsementSelection.SelectEndorsements | compatibility_service/pkg/orchestrator/endorsement_policy.go:239-333 | Main result of selection: uncanceled, the selection is nonempty if and only if some nonempty duplicate-free order of the candidates is accepted; every selection is itself such an order, canceled or not. |
| EndorsementSelection.AllCandidates | compatibility_service/pkg/orchestrator/endorsement_policy.go:249-254 | All candidates in their order. |
| PolicyInspection.Inspector.constructor | compatibility_service/pkg/orchestrator/endorsement_policy.go:44-60 | No targets, not unscoped. |
| PolicyInspection.Inspector.InspectRule | compatibility_service/pkg/orchestrator/endorsement_policy.go:90-113 | Accepts exactly the policies with indices in range, thresholds between 0 and the child count and inspectable principals; appends the mentioned MSPs once each, in order of first mention; unscoped exactly if an anonymity principal is mentioned. |
| PolicyInspection.Inspector.InspectPrincipal | compatibility_service/pkg/orchestrator/endorsement_policy.go:117-175 | The same for one principal, through nested combined principals. |
| PolicyInspection.Inspector.InspectPolicy | compatibility_service/pkg/orchestrator/endorsement_policy.go:44-113 | A whole policy: admitted exactly if every rule in it fits; the organizations to ask are exactly those its principals' leaves name, each once; unscoped exactly if one of them is anonymity. |
| PolicyInspection.InspectedByLeaf | compatibility_service/pkg/orchestrator/endorsement_policy.go:117-175 | A principal is accepted exactly if all its leaves are sound, and mentions exactly what they name. |
| PolicyInspection.InspectedByRule | compatibility_service/pkg/orchestrator/endorsement_policy.go:90-113 | A policy is admitted exactly if it and all its descendants fit: signed_by indices in range with sound leaves, thresholds between 0 and the child count. |
| PolicyInspection.AdmittedIsMentioned | compatibility_service/pkg/orchestrator/endorsement_policy.go:115-175 | Whoever an inspected principal can admit is of an organization it mentions, unless it mentions anonymity. |
| PolicyInspection.AddNewIsUnion | compatibility_service/pkg/orchestrator/endorsement_policy.go:168-173 | Target MSPs stay distinct and are exactly the old and the mentioned ones. |
| PolicyInspection.AdmissibleIsWellFormed | compatibility_service/pkg/orchestrator/endorsement_policy.go:90-113 | Every policy inspection admits is well formed for the evaluator and the searches. |
| PolicyInspection.TargetsSuffice | compatibility_service/pkg/orchestrator/endorsement_policy.go:115-171 | Asking only the target MSPs of a scoped policy loses nothing: any accepted list of signers from anywhere contains an accepted one from target MSPs only, or the policy accepts every list. |
| EndorsementCollection.MatrixOf | compatibility_service/pkg/orchestrator/endorsement_policy.go:258-267 | The match table has one row per principal and one column per candidate, depending on the candidate's signer key alone. |
| EndorsementCollection.AuthenticatedResponse | compatibility_service/pkg/orchestrator/endorsement_policy.go:177-234 | An authenticated execution carries exactly one successful, signed response that decodes to a native transaction, by a decodable endorser under an MSP policy. |
| EndorsementCollection.AuthenticatedIsAuthentic | compatibility_service/pkg/orchestrator/endorsement_policy.go:173-234 | An execution is authenticated exactly if it is one successful, signed response for this namespace and policy version, by a member of the organization that the policy identifies or the verifier accepts, and with that signer's key. |
| EndorsementCollection.AgreementIsOneOutcome | compatibility_service/pkg/orchestrator/execution.go:303-338 | Agreement is equality of lifecycle revision, status, message, response payload and transaction bytes, wherever the package runs. |
| EndorsementCollection.CompareCanonicalResults | compatibility_service/pkg/orchestrator/execution.go:303-338 | Accepts exactly when the local response is present and every remote result agrees on lifecycle revision, status, message, response payload and transaction bytes. |
| EndorsementCollection.MergeEndorsements | compatibility_service/pkg/orchestrator/execution.go:340-355 | Keeps the first proposal and all responses in order; fails exactly without a proposal or without any response. |
| EndorsementCollection.PickOrganizations | compatibility_service/pkg/orchestrator/execution.go:259-276 | Each requested organization once, in request order, represented by its first candidate; missing exactly if one has no candidate. |
| EndorsementCollection.MergeChosen | compatibility_service/pkg/orchestrator/execution.go:282-300 | The merged endorsement has the local proposal and the chosen responses in chosen order; the others but the local one are reported as remote; a failure names its cause. |
| EndorsementCollection.AssembleSelection | compatibility_service/pkg/orchestrator/execution.go:250-301 | An assembled endorsement comes from a sufficient selection; no assembly means that no selection of these candidates would do. |
| EndorsementCollection.PoolGrows | compatibility_service/pkg/orchestrator/execution.go:232-236 | Adding an agreeing, authenticated execution by a new signer keeps the pool: local first, distinct signers, all agreeing with the local result. |
| EndorsementCollection.ConsiderReply | compatibility_service/pkg/orchestrator/execution.go:220-239 | One remote answer either ends the collection for a stated reason or leaves its signer, if authenticated, in the pool. |
| EndorsementCollection.VisitEndpoints | compatibility_service/pkg/orchestrator/execution.go:205-241 | The endpoints of one organization, one call per address; when none sufficed, every authenticated answer of the organization is by a signer in the pool. |
| EndorsementCollection.VisitOrganizations | compatibility_service/pkg/orchestrator/execution.go:165-248 | The organizations asked, each once; exhaustion means that everything every one of them offers is in the pool and still does not suffice. |
| EndorsementCollection.CollectNamespaceEndorsements | compatibility_service/pkg/orchestrator/execution.go:144-248 | Collection from the inspected policy on: success is the merged endorsement of an accepted selection (or of the requested organizations) of distinct signers agreeing with the local result; divergence, exhaustion, cancellation and refusals are each justified. |
| EndorsementCollection.CollectForPolicy | compatibility_service/pkg/orchestrator/execution.go:126-248 | Main contract of collection: the policy is inspected first and refused exactly if not admitted; the organizations asked are the ones inspection found, or the requested ones, and the outcome is justified for them. |
| EndorsementCollection.CollectFromLocal | compatibility_service/pkg/orchestrator/execution.go:152-163 | The local execution may suffice; without the signed proposal nobody else is asked. |
| EndorsementCollection.TryAssembling | compatibility_service/pkg/orchestrator/execution.go:250-301 | Assembling ends the collection for a justified reason, or proves the pool insufficient. |
| EndorsementCollection.ConsiderCandidate | compatibility_service/pkg/orchestrator/execution.go:232-239 | A new agreeing signer joins the pool, and assembling is tried again. |
| EndorsementCollection.ChosenAreDistinct | compatibility_service/pkg/orchestrator/execution.go:172-173 | A chosen selection never uses a signer twice, also under explicit organizations. |
| EndorsementCollection.CollectedIsOneOutcome | compatibility_service/pkg/orchestrator/execution.go:144-300 | Everything collected is one outcome: each response is by an authentic execution of the local transaction with the local outcome, all by different signers; exactly the chosen executions but the local one are reported as remote. |
| EndorsementCollection.RemotesAreOthers | compatibility_service/pkg/orchestrator/execution.go:282-300 | The remote executions are the chosen ones other than the local one, in chosen order. |
| EndorsementCollection.CollectedPackages | compatibility_service/pkg/orchestrator/execution.go:279-300 | Every endorsement collected under an MSP policy passes the packager's response and endorser checks: packaging fails only if the local proposal's headers do not decode. |
| EndorsementCollection.AcceptanceByKey | compatibility_service/pkg/orchestrator/endorsement_policy.go:258-267 | Whether a list is accepted depends on its signers only, not on the candidate list they sit in. |
| EndorsementCollection.ExhaustedMeansUnsatisfiable | compatibility_service/pkg/orchestrator/execution.go:165-248 | Main result about failure: when automatic collection is exhausted, no nonempty list of distinct signers reachable in the asked organizations is accepted in any order. |
| EndorsementCollection.ExhaustedForRequested | compatibility_service/pkg/orchestrator/execution.go:165-248 | When requested organizations are exhausted, one of them has no candidate, and whatever it offers is by signers already counted for others. |
| EndorsementCollection.AcceptedInPool | compatibility_service/pkg/orchestrator/execution.go:165-248 | An accepted list whose signers are reachable, among candidates that need not be, is an accepted list of pool members. |
| EndorsementCollection.ExhaustedForAllOrganizations | compatibility_service/pkg/orchestrator/execution.go:165-248 | Main result about failure, composed with inspection: exhaustion under an admitted policy means that no list of distinct signers of any organization in the directory would be accepted, although only the policy's target organizations were asked. |
| LedgerKeys.KeysNeverCollide | compatibility_service/pkg/lifecycle/ledger.go:76-91 | Definition, watermark and index keys of all channels, names and 64-bit index numbers are pairwise different strings. |
| LedgerKeys.CutAtSlash | compatibility_service/pkg/lifecycle/ledger.go:76-91 | Escaped segments cannot imitate a path separator: equal keys have equal channel segments and equal tails. |
| LedgerKeys.DecimalInjective | compatibility_service/pkg/lifecycle/ledger.go:89-91 | Zero-padded index numbers are distinct. |
| LifecycleLedger.NextSequenceNeverWraps | compatibility_service/pkg/lifecycle/store.go:744-762 | The revision rule, computed with wrapping 64-bit addition, admits only the true successor of a valid sequence. |
| LifecycleLedger.ValidatedIsAtomic | compatibility_service/pkg/orchestrator/lifecycle_ledger.go:311-419 | A transaction prepared from separate reads whose versions are current at commit is exactly the one a single atomic preparation on the commit-time ledger would produce. |
| LifecycleLedger.DecisionIsRevisionRule | compatibility_service/pkg/orchestrator/lifecycle_ledger.go:318-345 | A preparation decides to write only what the revision rule allows: the next sequence, or the marker of the uninitialized active revision. |
| LifecycleLedger.DecisionAnswers | compatibility_service/pkg/orchestrator/lifecycle_ledger.go:318-345 | The decision on a definition row, in terms of the recorded revisions: proved exactly if the definition is already the active revision and the event is a commit or the revision is initialized; written exactly if the revision rule allows it; superseded exactly by a larger active sequence; otherwise refused for the stated reason. |
| LifecycleLedger.PreparationAnswers | compatibility_service/pkg/orchestrator/lifecycle_ledger.go:311-388 | Main result of preparation: nothing to send, a transaction, superseded and every other refusal, each in exactly the stated case of the recorded revisions; no unsent upgrade is taken for committed. |
| LifecycleLedger.PreparedRows | compatibility_service/pkg/orchestrator/lifecycle_ledger.go:349-419 | A prepared transaction reads the definition row, the watermark and the free index slot at their current versions, and writes exactly these three: the definition with its marker, the next watermark, and an entry of this event and definition. |
| LifecycleLedger.PreparedIsCurrent | compatibility_service/pkg/orchestrator/lifecycle_ledger.go:311-419 | On an unchanged ledger a prepared transaction passes validation. |
| LifecycleLedger.SlotIsNext | compatibility_service/pkg/orchestrator/lifecycle_ledger.go:349-369 | The index slot after the watermark is the next unused one. |
| LifecycleLedger.ReadableRows | compatibility_service/pkg/lifecycle/ledger.go:110-173 | Exactly which definition rows, index entries and watermarks can be read, and as what. |
| LifecycleLedger.AtomicPreparationRecords | compatibility_service/pkg/orchestrator/lifecycle_ledger.go:311-432 | Committing an atomically prepared transaction records exactly one revision step and one index entry; no other row changes. |
| LifecycleLedger.RecordIsApply | compatibility_service/pkg/orchestrator/lifecycle_ledger.go:390-419 | The three written rows are exactly the rows the recorded step prescribes. |
| LifecycleLedger.RecordEvolves | compatibility_service/pkg/orchestrator/lifecycle_ledger.go:318-345 | A recorded step only appends a revision or sets a marker; sequences stay 1,2,3,… with one definition each, and revisions without init are initialized. |
| LifecycleLedger.RecordKeepsOrder | compatibility_service/pkg/orchestrator/lifecycle_ledger.go:349-419 | Below the 64-bit limit a recorded step keeps entries in slots 1 to watermark, each describing a revision once recorded. |
| LifecycleLedger.RecordedStays | compatibility_service/pkg/orchestrator/lifecycle_ledger.go:318-345 | What was once committed stays recorded with the same definition, and initialized stays initialized. |
| LifecycleLedger.EvolvesTrans | compatibility_service/pkg/orchestrator/lifecycle_ledger.go:311-419 | Growth of the ledger is transitive. |
| LifecycleLedger.AppendsExactlyBelowLimit | compatibility_service/pkg/orchestrator/lifecycle_ledger.go:354-369 | A prepared transaction appends the next index entry if and only if the watermark is below the largest 64-bit number; at the limit the watermark would be written as zero. |
| LifecycleStore.Store.constructor | compatibility_service/pkg/lifecycle/store.go:82-96 | An empty mirror. |
| LifecycleStore.Store.UpsertCommittedFromLedger | compatibility_service/pkg/lifecycle/store.go:355-381 | Hydration stores the later of the mirrored and the given definition, with both markers if they are the same, reports a conflict exactly for a different definition of the mirrored sequence, refuses exactly an incomplete definition, and touches no other row. |
| LifecycleStore.Store.SelectCommitted | compatibility_service/pkg/lifecycle/store.go:355-378 | The select: conflict exactly for a different definition of the same sequence, write exactly for a missing or older row or a missing marker, keep otherwise; other requests may write before the upsert. |
| LifecycleStore.Store.UpsertCommitted | compatibility_service/pkg/lifecycle/store.go:383-423 | The guarded upsert keeps the lexicographic maximum of (sequence, initialized) and returns the stored row. |
| LifecycleStore.GuardedIsJoin | compatibility_service/pkg/lifecycle/store.go:391-407 | With one definition per sequence, the guarded upsert is the least upper bound of the old row and the hydrated value in that order. |
| LifecycleStore.RowOnlyAdvances | compatibility_service/pkg/lifecycle/store.go:355-423 | Under any interleaving of selects and guarded upserts the row never goes back. |
| LifecycleStore.HydrationsConverge | compatibility_service/pkg/lifecycle/store.go:355-423 | Concurrent hydrations, interleaved between select and upsert in any order and repetition, never conflict and converge to the maximum of everything hydrated. |
| LifecycleStore.NoConflictAt | compatibility_service/pkg/lifecycle/store.go:362-375 | At every point of an interleaving the select decides without a conflict, and skips only values already covered. |
| LifecycleStore.UpsertLasts | compatibility_service/pkg/lifecycle/store.go:383-423 | What one upsert established, no later access takes away. |
| LifecycleStore.AccessCovered | compatibility_service/pkg/lifecycle/store.go:355-423 | Whatever one access of a complete schedule hydrates, the final row is at least that. |
| LifecycleSync.SyncFromLedger | compatibility_service/pkg/orchestrator/lifecycle_sync.go:12-74 | Main result: whatever the ledger and other requests do between any two accesses, replay succeeds exactly if the watermark is below the largest 64-bit number (there the counter wraps and entry 0 is missing); in either case no mirror row goes back, none is ahead of the ledger, and every name active at the start is caught up with; on a quiescent ledger the mirror equals it. |
| LifecycleSync.ReplayEntry | compatibility_service/pkg/orchestrator/lifecycle_sync.go:31-70 | One index entry: never missing, mismatched or conflicting, although the entry, the definition, the select and the upsert happen one after the other; entry 0 does not exist. |
| LifecycleSync.ReplayIndex | compatibility_service/pkg/orchestrator/lifecycle_sync.go:28-73 | The loop with its wrapping 64-bit counter: all entries up to the watermark, and then an error instead of an end at the limit. |
| LifecycleSync.HydrateConcurrently | compatibility_service/pkg/lifecycle/store.go:355-381 | Hydrating from the ledger with other requests writing before the select and before the upsert never conflicts, covers the given value, and moves no row back. |
| LifecycleSync.HydrateWithRecorded | compatibility_service/pkg/lifecycle/store.go:355-423 | Anything that was on the ledger hydrates without conflict, stays within the ledger and never moves a row back. |
| LifecycleSync.ReplayExtends | compatibility_service/pkg/orchestrator/lifecycle_sync.go:31-70 | Replaying entry i catches up its chaincode, and no advance of the mirror loses one that was caught up. |
| LifecycleSync.CaughtUpIsEqual | compatibility_service/pkg/orchestrator/lifecycle_sync.go:12-74 | A mirror that is not ahead and has caught up with every name equals the ledger. |
| LifecycleSystem.CommitStep | compatibility_service/pkg/orchestrator/lifecycle_ledger.go:311-419 | A commit whose read versions validate is one atomic revision step of the abstract ledger, whatever happened between its reads. |
| LifecycleSystem.StepSafe | compatibility_service/pkg/orchestrator/lifecycle_ledger.go:311-432 | Every step of every orchestrator keeps the invariant of ledger, preparations, mirrors and initializations, and lets the ledger only grow. |
| LifecycleSystem.RunSafe | compatibility_service/pkg/orchestrator/lifecycle_ledger.go:311-432 | In every run of any number of orchestrators whose steps start with all watermarks below the largest 64-bit number: sequences 1,2,3,… with one fixed definition each, markers never revert, slots 1 to watermark are written once, mirrors are never ahead. |
| LifecycleSystem.ShortRunsAreLimited | compatibility_service/pkg/orchestrator/lifecycle_ledger.go:354-369 | A run of no more steps than a 64-bit number counts never reaches that limit. |
| LifecycleSystem.SlotsWrittenOnce | compatibility_service/pkg/orchestrator/lifecycle_ledger.go:349-418 | Over every run, at every moment: the index rows of a channel are exactly the slots 1 to watermark, and a slot once written keeps its entry at all later moments. |
| LifecycleSystem.DefinitionsAdvance | compatibility_service/pkg/orchestrator/lifecycle_ledger.go:318-345 | Over every run: a chaincode's definition row starts at sequence 1 and grows one sequence at a time, each sequence has one definition, markers never disappear within a sequence, and no init means initialized. |
| LifecycleSystem.MarkersFollowInits | compatibility_service/pkg/orchestrator/init.go:27-89 | Over every run: an init-required revision that the ledger or any mirror shows as initialized follows a confirmed application Init of exactly that definition on that channel. |
| LifecycleSystem.InitsAdmittedUninitialized | compatibility_service/pkg/orchestrator/init.go:27-74 | Over every run: an invocation selects only what its own mirror showed, and an Init is admitted only for a definition that requires it and that this mirror showed uninitialized. |
| LifecycleSystem.InitAdmission | compatibility_service/pkg/orchestrator/init.go:27-74 | Exactly an uninitialized definition that requires it is admitted; an initialized one is refused as already initialized, one without init as not required. |
| LifecycleSystem.EvolvesInRun | compatibility_service/pkg/orchestrator/lifecycle_ledger.go:311-432 | Between any two moments of a run the ledger only appended revisions, markers and index entries. |
| LifecycleSystem.ReadsSeeHistory | compatibility_service/pkg/orchestrator/lifecycle_sync.go:12-74 | Reads made at increasing moments of a run form exactly the kind of history that index replay is proved for. |
| LifecycleSystem.LedgerShowsActive | compatibility_service/pkg/orchestrator/lifecycle_ledger.go:299-309 | Reading a definition row shows the newest revision. |
| LifecycleSystem.MirrorsAgree | compatibility_service/pkg/lifecycle/rpc.go:584-600 | Over every run: two mirrors of a channel, read at any two moments, hold the same definition for the same sequence. |
| LifecycleSystem.MirrorAdvances | compatibility_service/pkg/lifecycle/store.go:383-423 | Over every run, between any two moments: a mirror row goes back neither in sequence nor, within a sequence, in its marker. |
| LifecycleSystem.OneMirrorRow | compatibility_service/pkg/lifecycle/store.go:383-423 | An upsert leaves its row at least as new as given and every other row of every mirror as it is; no other step touches a mirror. |
| LifecycleSystem.MirrorFollowsLedger | compatibility_service/pkg/lifecycle/rpc.go:584-600 | Over every run: a mirror row is exactly what the ledger showed at some earlier moment, is never ahead of the ledger, and at equal sequences has the ledger's definition and no more than its marker. |
| LifecycleSystem.HydrationsNeverConflict | compatibility_service/pkg/lifecycle/store.go:362-375 | Over every run: all values on their way into a mirror row have one definition per sequence, so no select sees a conflict and every complete schedule of their accesses ends with the maximum. |
| LifecycleSystem.InitializedOnlyAfterConfirmedInit | compatibility_service/pkg/orchestrator/init.go:76-89 | An init-required revision is initialized on the ledger only if an application Init admitted for exactly that definition was confirmed committed; an old revision's Init never marks a newer one. |
| LifecycleSystem.MirrorInitializedOnlyAfterConfirmedInit | compatibility_service/pkg/orchestrator/init.go:27-74 | The same for what any mirror shows, which is what admission of ordinary invocations relies on. |
| ConfirmedInits.StepSafe | compatibility_service/pkg/orchestrator/init.go:27-89 | Every step of lifecycle and record stores together is a step of the lifecycle system: a callback never runs for an Init that was not admitted. |
| ConfirmedInits.RunSafe | compatibility_service/pkg/orchestrator/service.go:655-680 | Every joint run is, on its lifecycle side, a run of the lifecycle system, and every confirmed Init had its callback run by the record store of its node. |
| ConfirmedInits.ConfirmedIsCommitted | compatibility_service/pkg/orchestrator/execution.go:643-668 | A confirmed Init is a callback that one record of the node ran once, after a COMMITTED status of its own transaction. |
| ConfirmedInits.StoreStepAppends | compatibility_service/pkg/orchestrator/execution.go:643-668 | A step of one record store appends to this store alone, and a callback it runs confirms its Init. |
| ConfirmedInits.RanIsConfirmed | compatibility_service/pkg/orchestrator/execution.go:643-668 | Over every run: whatever callback ran in the record store of a node is a confirmed Init of that node. |
| ConfirmedInits.MarkersFollowCommittedInits | compatibility_service/pkg/orchestrator/execution.go:655-668 | Main result: over every joint run, the ledger or a mirror shows an init-required definition as initialized only after a record on that channel received a COMMITTED status of its own transaction and ran, once, the callback of exactly this definition. |
| LifecyclePropagation.Progress.constructor | compatibility_service/pkg/lifecycle/rpc.go:432-440 | Nothing resolved, nothing remaining. |
| LifecyclePropagation.Progress.ReconcileDefinition | compatibility_service/pkg/lifecycle/rpc.go:442-492 | One pass resolves organizations at most once, in order of first mention, contacts the remaining ones in order until one has no peer or fails, shrinks the remaining list by exactly the successes, and is a success exactly when none remains. |
| LifecyclePropagation.Progress.CollectPeers | compatibility_service/pkg/lifecycle/rpc.go:454-461 | All peers by organization; the organization list is fixed once, without repetition and in order of first mention. |
| LifecyclePropagation.Progress.UpdateOrganizations | compatibility_service/pkg/lifecycle/rpc.go:473-491 | The contact loop: the remaining organizations in order until one is unknown or fails. |
| LifecyclePropagation.UpdateAllSplits | compatibility_service/pkg/lifecycle/rpc.go:473-490 | One pass moves a prefix of the remaining organizations to the successes and contacts no other. |
| LifecyclePropagation.UpdateAllStops | compatibility_service/pkg/lifecycle/rpc.go:473-490 | The first organizations that have a peer and can be reached are updated, in order; the next one stops the pass and is contacted only if it has a peer; it is a success exactly if none remains. |
| LifecyclePropagation.DistinctMentions | compatibility_service/pkg/lifecycle/rpc.go:454-461 | The resolved organizations are those mentioned, in order of first mention, each once. |
| LifecyclePropagation.PassReconciles | compatibility_service/pkg/lifecycle/rpc.go:442-492 | What one pass does from its inputs alone; in particular a pass with every organization resolved and reachable is a success. |
| LifecyclePropagation.EachOrganizationOnce | compatibility_service/pkg/lifecycle/rpc.go:432-492 | Over any failing and retried passes, the successes so far followed by the remaining list are the organizations of the first successful resolution, in order and each once. |
| LifecyclePropagation.NeverContactedAgain | compatibility_service/pkg/lifecycle/rpc.go:432-492 | A finished organization is never contacted again. |
| LifecyclePropagation.SuccessMeansAllUpdated | compatibility_service/pkg/lifecycle/rpc.go:432-492 | When reconciliation reports completion, every organization of the first resolution was updated exactly once. |
| LifecycleReceipts.PendingLifecycle.constructor | compatibility_service/pkg/orchestrator/lifecycle_ledger.go:36-45 | No receipt, nothing sent. |
| LifecycleReceipts.Recovery.LifecycleOperation | compatibility_service/pkg/orchestrator/lifecycle_ledger.go:56-94 | Returns the one object of the operation with its gate taken, or none exactly when closed, canceled, conflicting or gated; a canceled Init caller still leaves its marker pending. |
| LifecycleReceipts.Recovery.RemoveLifecycleOperation | compatibility_service/pkg/orchestrator/lifecycle_ledger.go:96-102 | Removes exactly this object, never a newer one under the same key. |
| LifecycleReceipts.Recovery.AdvanceLifecycleTransaction | compatibility_service/pkg/orchestrator/lifecycle_ledger.go:133-185 | One advance is a turn: done exactly if the outcome is then known committed, waiting exactly while a delivered transaction is undecided, and an error otherwise; a rejected or superseded definition leaves the map, a rejected marker stays with an empty receipt; sends and observations are those the world caused. |
| LifecycleReceipts.Recovery.ObserveLifecycleFinality | compatibility_service/pkg/orchestrator/lifecycle_ledger.go:187-201 | A valid status is done and remembered as committed; any other is an error, which drops a definition from the map and leaves a marker pending with an empty receipt; the transaction of the status is logged. |
| LifecycleReceipts.Recovery.SubmitLifecycleDefinition | compatibility_service/pkg/orchestrator/lifecycle_ledger.go:118-131 | A caller's turn, with the verdict, receipt and removal of a turn; a definition that was never sent is dropped as well. |
| LifecycleReceipts.Recovery.FinalizeLifecycleOperation | compatibility_service/pkg/orchestrator/lifecycle_ledger.go:214-231 | Finished exactly when superseded by a newer revision or mirrored everywhere; only then is the object removed. |
| LifecycleReceipts.Recovery.RecoverOne | compatibility_service/pkg/orchestrator/lifecycle_ledger.go:245-272 | A recovery turn skips gated and replaced objects and never sends an abandoned definition; otherwise one turn and, exactly once the outcome is known committed, one mirroring pass, which removes the object exactly when finished. |
| LifecycleReceipts.TurnRemembers | compatibility_service/pkg/orchestrator/lifecycle_ledger.go:133-201 | Whatever the outside world answers, statuses of other transactions included, one turn sends at most once, only when allowed, observes only the transaction sent last, and the receipt still remembers one that may have been delivered. |
| LifecycleReceipts.TurnAccounts | compatibility_service/pkg/orchestrator/lifecycle_ledger.go:118-201 | Every turn's occurrences, verdict, receipt and removal from what it met: it sends exactly when it may and the transaction could be prepared and subscribed; it observes exactly the first final status reported for its transaction; done if and only if the resulting receipt is committed. |
| LifecycleReceipts.TurnVerdict | compatibility_service/pkg/orchestrator/lifecycle_ledger.go:133-201 | For every turn on a receipt that remembers: done exactly if the outcome is known committed, and then the transaction sent last is settled or nothing is out and the ledger proved it; a rejection observed in the turn is an error that drops a definition and lets a marker start over. |
| LifecycleReceipts.DoneIsCommitted | compatibility_service/pkg/orchestrator/lifecycle_ledger.go:118-273 | Over every history of turns: a turn is done exactly if the outcome is then known committed, and it is only known committed if the last thing observed was the commit of its transaction or the ledger proved it on some turn. |
| LifecycleReceipts.FirstFinalIsReported | compatibility_service/pkg/orchestrator/execution.go:679-699 | The status taken from a reply is its first final one of the transaction, or there is none. |
| LifecycleReceipts.FinalizedFinishes | compatibility_service/pkg/orchestrator/lifecycle_ledger.go:214-231 | A committed operation is finished exactly when superseded, and then nothing is mirrored, or when the pass completes. |
| LifecycleReceipts.RecoveryIsTaken | compatibility_service/pkg/orchestrator/lifecycle_ledger.go:245-272 | A recovery turn is a turn, followed by mirroring exactly when it is done. |
| LifecycleReceipts.TurnsKeepReceipt | compatibility_service/pkg/orchestrator/lifecycle_ledger.go:118-273 | Over any sequence of caller and recovery turns the receipt remembers a possibly delivered transaction, every send was allowed, and every observed status is of the transaction sent last. |
| LifecycleReceipts.NeverResendsUncertain | compatibility_service/pkg/orchestrator/lifecycle_ledger.go:167-178 | For every pending object and whatever statuses arrive: after an acknowledged or uncertain send, no further send happens unless a rejection of that very transaction was observed in between, and then only for an initialization marker. |
| LifecycleReceipts.QuietTurns | compatibility_service/pkg/orchestrator/lifecycle_ledger.go:134-136 | A recovery pass sends no definition without receipt, and nothing is sent once the outcome is known committed, ledger-proved completion included. |
| IdempotencyStore.Record.constructor | compatibility_service/pkg/orchestrator/idempotency.go:86-97 | A fresh record: in progress under its digest, no response, error or callback, open channels, free lock. |
| IdempotencyStore.Record.TryLockFinality | compatibility_service/pkg/orchestrator/idempotency.go:254-261 | Succeeds exactly if the lock was free; held afterwards either way. |
| IdempotencyStore.Record.UnlockFinality | compatibility_service/pkg/orchestrator/idempotency.go:250-252 | Frees a held lock. |
| IdempotencyStore.Record.CloseSubmitted | compatibility_service/pkg/orchestrator/idempotency.go:168 | The submission channel is closed at most once. |
| IdempotencyStore.Record.CloseDone | compatibility_service/pkg/orchestrator/idempotency.go:204-206 | The completion channel is closed at most once. |
| IdempotencyStore.Store.constructor | compatibility_service/pkg/orchestrator/idempotency.go:52-56 | An empty store. |
| IdempotencyStore.Store.Existing | compatibility_service/pkg/orchestrator/idempotency.go:59-69 | Finds the record of the key; a conflict exactly for another digest. |
| IdempotencyStore.Store.Begin | compatibility_service/pkg/orchestrator/idempotency.go:71-99 | A first caller creates the record, a later one gets the same; refused exactly for missing key or digest or a conflicting digest. |
| IdempotencyStore.Store.MarkExecuted | compatibility_service/pkg/orchestrator/idempotency.go:134-143 | Has no state guard: it keeps the store valid if and only if the record was not submitted yet; nothing but state, helper transaction and time changes. |
| IdempotencyStore.Store.MarkSubmission | compatibility_service/pkg/orchestrator/idempotency.go:149-172 | Moves an unsubmitted record to submitted, with the given response marked as pending finality, error, event and callback, and wakes waiters once; any other record stays as it is. |
| IdempotencyStore.Store.Complete | compatibility_service/pkg/orchestrator/idempotency.go:188-207 | Ends and removes an unsubmitted record with the given response and error, failed exactly with an error; leaves a submitted one to its finality. |
| IdempotencyStore.Store.Pending | compatibility_service/pkg/orchestrator/idempotency.go:209-216 | The submission of a record exactly while its finality is open. |
| IdempotencyStore.Store.ConfirmFinality | compatibility_service/pkg/orchestrator/idempotency.go:265-280 | A final status ends a submitted record once, with the given response no longer pending and neither callback nor event kept, and removes it; anything else changes nothing. |
| IdempotencyStore.Store.Remove | compatibility_service/pkg/orchestrator/idempotency.go:282-286 | A stale cleanup never removes a newer record of the key. |
| IdempotencyStore.Store.PendingRecordsBefore | compatibility_service/pkg/orchestrator/idempotency.go:222-236 | Distinct due records, at most the limit, and all of them unless the limit was reached. |
| IdempotencyStore.Store.WaitResult | compatibility_service/pkg/orchestrator/idempotency.go:119-132 | A submitted record answers pending finality without error; a terminal one its stored error; any other the caller's. |
| IdempotencyStore.Store.SubmissionOutcome | compatibility_service/pkg/orchestrator/idempotency.go:171-184 | Submitted or not, and the error only if it does not concern an open finality. |
| FinalityRecording.FindFinal | compatibility_service/pkg/orchestrator/execution.go:679-699 | A status query counts only a known final outcome of the requested transaction, the first one of the reply; anything else means unknown. |
| FinalityRecording.RecordFinality | compatibility_service/pkg/orchestrator/execution.go:643-668 | A record changes, and its callback runs, exactly on a known final status of its own transaction while it is submitted, the callback exactly for COMMITTED. It then answers COMMITTED exactly for a valid transaction and the status's own name otherwise, with the status's block and transaction number, the stored event exactly for COMMITTED, no pending finality, and unchanged key, transaction ID and payload. |
| FinalityRecording.StatusTells | compatibility_service/pkg/orchestrator/execution.go:643-668 | What recording a status leaves in the record and which callback it runs, for every record and status. |
| FinalityRecording.BecomesTold | compatibility_service/pkg/orchestrator/execution.go:631-668 | A record that a status was recorded on tells exactly that status's outcome. |
| FinalityRecording.PassTells | compatibility_service/pkg/orchestrator/execution.go:605-639 | After a pass every matched record tells the first final outcome the reply reports for its own transaction, or is unchanged. |
| FinalityRecording.TakePending | compatibility_service/pkg/orchestrator/execution.go:607-617 | The lock stays taken exactly for a submitted record that was free. |
| FinalityRecording.RecordOne | compatibility_service/pkg/orchestrator/execution.go:631-638 | One status of a reply reaches only the record of its transaction in the pending map. |
| FinalityRecording.RecordStatuses | compatibility_service/pkg/orchestrator/execution.go:631-638 | The loop over a reply computes the recordings status by status, with exactly their callbacks. |
| FinalityRecording.PassRecordsFirstFinal | compatibility_service/pkg/orchestrator/execution.go:631-638 | Going through a reply of any statuses leaves each record with the first final one of its own transaction, and runs one callback for each COMMITTED one that has a callback. |
| FinalityRecording.ReconcilePending | compatibility_service/pkg/orchestrator/execution.go:605-639 | One lazy pass: exactly the due, free records are locked; those the pending map holds record, and then tell, the first final status of their own transaction; all others stay; every lock is released except those of records displaced in the map by another one of the same transaction. |
| FinalityRecording.AllMatchedUnlessTwins | compatibility_service/pkg/orchestrator/execution.go:615-629 | All locked records are in the pending map, and so released, if and only if no two of them are of the same transaction. |
| FinalityRecording.RefreshOne | compatibility_service/pkg/orchestrator/execution.go:766-772 | After a status request, a pending record records the result, and tells its outcome, exactly if it is of the same transaction and its lock is free. |
| FinalityRecording.RefreshObservedFinality | compatibility_service/pkg/orchestrator/execution.go:762-777 | All pending records are offered the result; those of its transaction with a free lock tell its outcome; locks are left as they were and busy records alone. |
| FinalityProtocol.StepKeepsIndex | compatibility_service/pkg/orchestrator/idempotency.go:71-99 | Under every step the map holds exactly the begun records that are not terminal, under their own keys. |
| FinalityProtocol.SenderIsUnguarded | compatibility_service/pkg/orchestrator/execution.go:406-430 | A record about to send faces no other live record of its key with an outstanding send. |
| FinalityProtocol.RunKeepsInv | compatibility_service/pkg/orchestrator/execution.go:357-430 | Every run of invokes, submits, retries, timeouts, passes and status requests keeps the invariant of records, locks, sends and callbacks. |
| FinalityProtocol.NoSecondSendBeforeFinality | compatibility_service/pkg/orchestrator/execution.go:406-430 | For each idempotency key, between a send that was acknowledged or left uncertain and the next one a final status of the sent transaction was observed, under any interleaving and whatever statuses arrive. |
| FinalityProtocol.CallbackAtMostOnce | compatibility_service/pkg/orchestrator/execution.go:643-668 | The after-commit callback of a record runs at most once across the active invoke, lazy passes and status requests, and only after a received status said COMMITTED for that record's own transaction; statuses of any transaction and code may arrive on every path. |
| FinalityProtocol.MoveKeepsGuard | compatibility_service/pkg/orchestrator/execution.go:643-677 | A record stops standing in the way of another send only by receiving a final status of its own transaction. |
| FinalityProtocol.ForeignStatusIgnored | compatibility_service/pkg/orchestrator/execution.go:670-677 | A status that is missing, of another transaction, unspecified or unknown changes nothing, whoever receives it. |
| FinalityProtocol.RecordingIsMoves | compatibility_service/pkg/orchestrator/execution.go:643-668 | Recording a status under the lock is exactly the protocol's moves: receive, run the callback if there is one, confirm. |
| FinalityProtocol.MapHoldsLiveRecords | compatibility_service/pkg/orchestrator/idempotency.go:71-99 | In every run: live records and map entries coincide, channels are closed at most once and fit the state, and no finished request leaves an unsubmitted record. |
| RequestDigest.BigEndianInjective | compatibility_service/pkg/orchestrator/service.go:1114-1119 | The eight-byte frame determines the length. |
| RequestDigest.FramedInjective | compatibility_service/pkg/orchestrator/service.go:1110-1119 | Length framing loses nothing: equal digest inputs have equal field lists. |
| RequestDigest.WriteField | compatibility_service/pkg/orchestrator/service.go:1114-1119 | Writing one field extends the framed input by that field. |
| RequestDigest.WriteFields | compatibility_service/pkg/orchestrator/service.go:1092-1105 | Writing the arguments extends the framed input by all of them in order. |
| RequestDigest.WriteByteMap | compatibility_service/pkg/orchestrator/service.go:1121-1131 | Every transient entry once, key before value. |
| RequestDigest.RequestDigestInput | compatibility_service/pkg/orchestrator/service.go:1091-1108 | What is hashed is the framed list of single fields, arguments and transient pairs. |
| RequestDigest.HashedAlike | compatibility_service/pkg/orchestrator/service.go:1091-1108 | Two requests are hashed alike if and only if they agree on the single fields and on the arguments followed by the transient pairs. |
| RequestDigest.IdentifiesAtEqualCount | compatibility_service/pkg/orchestrator/service.go:1083-1108 | Among requests with equally many arguments the digest input identifies the request. |
| RequestDigest.ArgumentsLookTransient | compatibility_service/pkg/orchestrator/service.go:1103-1106 | With different argument counts it does not: a key and a value as arguments look like one transient entry. |
| GatewayEnvelope.Route | compatibility_service/pkg/orchestrator/service.go:1516-1523 | A route splits the chaincode name at its only colon into a nonempty name and namespace without surrounding blanks. |
| GatewayEnvelope.ResponseFault | compatibility_service/pkg/orchestrator/fabricx_packager.go:48-64 | No fault means that every response is a success with the payload of the first. |
| GatewayEnvelope.EndorsementsOf | compatibility_service/pkg/orchestrator/fabricx_packager.go:240-246 | All endorsements in order, exactly if every response has one. |
| GatewayEnvelope.CreateNative | compatibility_service/pkg/orchestrator/fabricx_packager.go:31-132 | A packaged native envelope has decodable headers, a native transaction, and only successful responses behind it. |
| GatewayEnvelope.CreateCompatTx | compatibility_service/pkg/orchestrator/fabricx_packager.go:31-132 | The two passes over the responses compute the packaging specification, with the same refusal. |
| EnvelopeCriteria.RouteSplits | compatibility_service/pkg/orchestrator/service.go:1516-1523 | A route is found exactly for the names that split at their only colon into two nonempty, trimmed parts. |
| EnvelopeCriteria.IdentityIsTheRecord | compatibility_service/pkg/helper/proposal.go:37-73 | The identity read from the metadata is its only identity record, complete and behind the first entry; none exactly if there is none; a second or incomplete one is refused. |
| EnvelopeCriteria.NativesAreSurvivors | compatibility_service/pkg/orchestrator/fabricx_packager.go:66-88 | The native endorsements exist exactly if every endorser decodes, and are the first endorsement of each endorser, in order. |
| EnvelopeCriteria.NativeIsPackaged | compatibility_service/pkg/orchestrator/fabricx_packager.go:31-132 | Packaging succeeds exactly for successes with one transaction payload, decodable headers and endorsers, and yields the header as a message without creator, with channel, transaction ID, extension and nonce kept, and the endorsed transaction with the surviving endorsements for every namespace. |
| EnvelopeCriteria.CheckIsBound | compatibility_service/pkg/orchestrator/fabricx_packager.go:191-218 | The checks pass exactly for a transaction of one namespace, bound canonically to this proposal, version and response, with the response's payload and the proposal's arguments, and an identity record, if any, of this channel, chaincode and namespace. |
| EnvelopeCriteria.GatewayIsPrepared | compatibility_service/pkg/orchestrator/fabricx_packager.go:139-263 | Main result: a Gateway transaction is created exactly from the proposals and endorsements that meet the criteria, and every field of it is what was proposed and endorsed. |
| GatewayEnvelope.Open | compatibility_service/pkg/orchestrator/fabricx_packager.go:276-333 | What passes the checks before the rebuild has a chaincode, an input, a response and one endorsement list. |
| GatewayEnvelope.Rebuilt | compatibility_service/pkg/orchestrator/fabricx_packager.go:334-348 | Responses can be rebuilt exactly if every native endorsement has identity and signature; each carries the canonical endorser, the response and the native bytes. |
| GatewayEnvelope.ParseGatewayTransaction | compatibility_service/pkg/orchestrator/fabricx_packager.go:276-370 | The parse loop computes the parsing specification, with the same refusal. |
| GatewayEnvelope.RebuildResponses | compatibility_service/pkg/orchestrator/fabricx_packager.go:334-348 | The loop over the native endorsements computes the rebuilt responses, or stops at the first without identity or signature. |
| GatewayEnvelope.AllSurvive | compatibility_service/pkg/orchestrator/fabricx_packager.go:66-88 | Distinct canonical endorsers all survive into the native envelope, in order. |
| GatewayEnvelope.NoneDropped | compatibility_service/pkg/orchestrator/fabricx_packager.go:66-88 | Native endorsements are never more than the responses, and as many only if all endorser strings differ. |
| GatewayEnvelope.PrintOf | compatibility_service/pkg/orchestrator/fabricx_packager.go:139-263 | Takes a created envelope apart into native transaction, endorsements, response and metadata that passed every check. |
| GatewayEnvelope.CheckedNative | compatibility_service/pkg/orchestrator/fabricx_packager.go:191-218 | A native transaction that passes the checks carries the canonical binding of exactly this proposal, version and response, and the metadata of its arguments and payload. |
| GatewayEnvelope.RebuildIsFixpoint | compatibility_service/pkg/orchestrator/fabricx_packager.go:349-355 | Creating the envelope again from what it contains reproduces it, although its native payload already has its endorsements attached. |
| GatewayEnvelope.OnlyCanonicalRebuilds | compatibility_service/pkg/orchestrator/fabricx_packager.go:349-355 | It is reproduced only if no endorsement was dropped or re-encoded on the way. |
| GatewayEnvelope.OpenPrinted | compatibility_service/pkg/orchestrator/fabricx_packager.go:276-333 | A created envelope opens if and only if its header extension matches the proposal's chaincode and the input is present. |
| GatewayEnvelope.ParsesBackExactly | compatibility_service/pkg/orchestrator/fabricx_packager.go:272-370 | Main result: a created envelope is accepted by the parser if and only if the header extension matches, the function is nonempty, and the endorsers are distinct, canonical and signed. |
| GatewayEnvelope.ParseRecoversEndorsements | compatibility_service/pkg/orchestrator/fabricx_packager.go:334-348 | Parsing recovers the ordered endorsements, the response and the transient-free proposal. |
| GatewayEnvelope.ParseRecoversNative | compatibility_service/pkg/orchestrator/fabricx_packager.go:327-333 | Parsing recovers the endorsed native transaction, changed only by its attached endorsements, and its binding with the prepared version. |
| GatewayEnvelope.ParseRecoversRequest | compatibility_service/pkg/orchestrator/fabricx_packager.go:356-369 | The parsed request is the client's: identifiers, function and arguments, route, version, no transient data. |
| GatewayEnvelope.AcceptedIsPrinted | compatibility_service/pkg/orchestrator/fabricx_packager.go:272-275 | Any accepted envelope is the created form of what it parses to, so no two envelopes share a parse. |
| GatewayEnvelope.SomeEnvelopeParses | compatibility_service/pkg/orchestrator/fabricx_packager.go:139-370 | A concrete proposal and endorsement whose created envelope is parsed back. |
| GatewayEnvelope.SomeEnvelopeIsRefused | compatibility_service/pkg/orchestrator/fabricx_packager.go:349-355 | A concrete endorsement, its endorser identity not canonically encoded, whose created envelope the parser refuses. |
| GatewayEnvelope.RepeatedEndorserIsRefused | compatibility_service/pkg/orchestrator/fabricx_packager.go:349-355 | A concrete created envelope, one endorser having answered twice, that the parser refuses. |
| GatewayEnvelope.EmptySignatureIsRefused | compatibility_service/pkg/orchestrator/fabricx_packager.go:334-348 | A concrete created envelope, its only endorsement having an empty signature, that the parser refuses. |
| GatewayEnvelope.MirrorsAgreeWithNative | compatibility_service/pkg/orchestrator/fabricx_packager.go:272-275 | In any accepted envelope, whoever made it, mirrored event, response, arguments and proposal digest are those of the native transaction. |
| InvocationState.StateReader.constructor | compatibility_service/pkg/helper/service.go:119-128 | No view begun, none ended. |
| InvocationState.StateReader.BeginView | compatibility_service/pkg/helper/service.go:130-144 | One more view begun. |
| InvocationState.StateReader.Read | compatibility_service/pkg/helper/service.go:153-179 | The row under the view with its version, or an empty value with a nil version for a missing key. |
| InvocationState.StateReader.EndView | compatibility_service/pkg/helper/service.go:146-149 | The view is ended. |
| InvocationState.ExecutionContext.constructor | compatibility_service/pkg/helper/service.go:205-220 | An open context with empty read and write sets. |
| InvocationState.ExecutionContext.SetQueryView | compatibility_service/pkg/helper/service.go:242-250 | A view is attached exactly if none is, nothing failed and the context is open; after a read it is refused. |
| InvocationState.ExecutionContext.OpenView | compatibility_service/pkg/helper/service.go:332-343 | The first read begins the view; an error or an empty identifier fails the context for good. |
| InvocationState.ExecutionContext.GetState | compatibility_service/pkg/helper/service.go:317-353 | Succeeds exactly if readable; answers the committed value whatever was written, and records its version; the first failure sticks; at most one view is ever begun. |
| InvocationState.ExecutionContext.ReadInView | compatibility_service/pkg/helper/service.go:346-353 | Under a view: the committed value with its version recorded, or a failure that sticks. |
| InvocationState.ExecutionContext.PutState | compatibility_service/pkg/helper/service.go:356-360 | Only the write of the key changes. |
| InvocationState.ExecutionContext.DelState | compatibility_service/pkg/helper/service.go:363-367 | Only the write of the key changes, to a deletion. |
| InvocationState.ExecutionContext.Close | compatibility_service/pkg/helper/service.go:262-273 | Ends the view once, exactly if it was begun here. |
| InvocationState.ExecutionContext.Result | compatibility_service/pkg/helper/service.go:370-384 | One entry per key of the captured sets. |
| InvocationState.Entries | compatibility_service/pkg/helper/service.go:377-383 | Lists a map, each key once. |
| ShimHandling.Stream.constructor | compatibility_service/pkg/shim/handler.go:19-38 | Nothing exchanged yet. |
| ShimHandling.Stream.Send | compatibility_service/pkg/shim/handler.go:256-272 | A successful send is one more exchange. |
| ShimHandling.Stream.SendStart | compatibility_service/pkg/shim/handler.go:100-129 | INIT or TRANSACTION reaches the chaincode, or the send fails. |
| ShimHandling.MessageHandler.constructor | compatibility_service/pkg/shim/handler.go:27-38 | A handler over one stream and one context. |
| ShimHandling.MessageHandler.HandleGetState | compatibility_service/pkg/shim/handler.go:193-208 | Without a read failure, one step of the invocation: a public key is answered with its committed value, or nothing if absent, and its version recorded; anything else is refused. |
| ShimHandling.MessageHandler.HandlePutState | compatibility_service/pkg/shim/handler.go:210-222 | One step: a public write is answered with nothing and captured; anything else is refused. |
| ShimHandling.MessageHandler.HandleDelState | compatibility_service/pkg/shim/handler.go:224-236 | One step: a public deletion is answered with nothing and captured; anything else is refused. |
| ShimHandling.MessageHandler.Dispatch | compatibility_service/pkg/shim/handler.go:62-96 | Every message that does not end the invocation is one step; without faults it succeeds. |
| ShimHandling.MessageHandler.FinalResult | compatibility_service/pkg/shim/handler.go:79-90 | COMPLETED yields the decoded response, ERROR a failure with its payload, both with the event of the message. |
| ShimHandling.MessageHandler.Execute | compatibility_service/pkg/shim/handler.go:40-98 | If it returns a response without read failure, the chaincode was started with INIT or TRANSACTION as asked, and exchanges, sets, response and event are those of a whole fault-free conversation on the view; without faults it returns exactly that run's response. |
| ShimHandling.ProcessProposal | compatibility_service/pkg/helper/service.go:481-541 | Signs only a successful, fault-free run's response and event with its exact read and write sets, never after a read failure: the run is a whole conversation of the chaincode on the committed rows, every answer as they prescribe; the view is begun at most once and ended exactly once if begun. |
| ShimHandling.SimulateRecorded | compatibility_service/pkg/helper/service.go:315-367 | In every run a public read of a present key is answered with its committed value, of an absent key with nothing, a public write with nothing, and every other request with an error, whatever was written before; the read set has exactly the keys read, each with its committed version; the write set exactly the keys written, each with its last write. |
| ShimHandling.ServesStep | compatibility_service/pkg/shim/handler.go:193-263 | One message served: answer, recorded version and captured write, in terms of the rows alone. |
| ShimHandling.SimulateConverses | compatibility_service/pkg/shim/handler.go:40-98 | Every run is the conversation its chaincode holds on the answers it was given, up to its end, and the response has the status, message, payload and event of the final message; an ERROR is a status 500 with its text. |
| ShimHandling.SimulateRan | compatibility_service/pkg/shim/handler.go:40-98 | A run from the start is such a conversation and records its exchanges. |
| ShimHandling.ReplayAgrees | compatibility_service/pkg/helper/service.go:317-353 | Main result: if the read versions still match at commit time, the same chaincode, however it adapts to answers, is told the same and has the same effects and response there. |
| ShimHandling.CommittedActsAtCommit | compatibility_service/pkg/helper/service.go:456-541 | A signed read/write set whose versions match acts as if the chaincode had been invoked at the commit point. |
| EventReplay.CommittedChaincodeEvents | compatibility_service/pkg/orchestrator/execution.go:834-894 | The events of a block, or the refusal of the first undecodable committed entry. |
| EventReplay.EventsAreCommitted | compatibility_service/pkg/orchestrator/execution.go:845-892 | An event is reported if and only if a COMMITTED transaction of the block yields it. |
| EventReplay.EventIsAnnounced | compatibility_service/pkg/orchestrator/execution.go:834-894 | An event is read from exactly the envelopes that announce it: a transaction of this channel with an ID, one complete identity record of this channel and of its only namespace, and a name or payload; its chaincode is the identity's name and namespace. None is read from exactly those that are not such a transaction, have no identity, or no event. |
| EventReplay.BlockIsReadable | compatibility_service/pkg/orchestrator/execution.go:834-860 | A block is refused exactly without header, with validation codes that do not fit, or with a committed transaction whose event cannot be told. |
| EventReplay.EventsOfAt | compatibility_service/pkg/orchestrator/execution.go:845-892 | The events of a readable block are those of its committed transactions, in order, none left out. |
| EventReplay.AfterConcat | compatibility_service/pkg/orchestrator/service.go:1458-1469 | Looking for the checkpoint block by block equals looking for it in the concatenated events. |
| EventReplay.Subscription.constructor | compatibility_service/pkg/orchestrator/service.go:1445-1450 | Nothing sent, the checkpoint still to come. |
| EventReplay.Subscription.Filter | compatibility_service/pkg/orchestrator/service.go:1458-1469 | Keeps exactly the requested chaincode's events behind the checkpoint and remembers whether it came. |
| EventReplay.Subscription.Visit | compatibility_service/pkg/orchestrator/service.go:1450-1474 | One block: afterwards what was sent is what is due for all blocks so far, or the stream ends for the stated reason with nothing sent. |
| EventReplay.Subscription.Receive | compatibility_service/pkg/orchestrator/execution.go:811-828 | One response: the expected block number or the end. |
| EventReplay.Subscription.StreamCommittedBlocks | compatibility_service/pkg/orchestrator/execution.go:782-829 | Over a contiguous run of blocks, everything due was sent, in order and block by block; the end is for the stated reason and no earlier. |
| EventReplay.ChaincodeEvents | compatibility_service/pkg/orchestrator/service.go:1415-1481 | Main contract of replay: refusals exactly for missing ledger information, a failed lookup, an unreadable checkpoint block and a checkpoint without event; otherwise replay starts at the checkpoint's block, else the requested, else the next one, is delivered from there or the tip, and on any ledger the stream shows, what was sent is exactly the chaincode's events due, behind the checkpoint's event if there is one. |
| EventReplay.FindStart | compatibility_service/pkg/orchestrator/service.go:1415-1438 | The start block, or why the checkpoint cannot be used; a checkpoint block on the ledger holds the first event of its transaction from there on. |
| EventReplay.StreamFrom | compatibility_service/pkg/orchestrator/service.go:1440-1474 | Delivery from the start block, or the tip if that is still to come; everything due was sent. |
| EventReplay.StreamReplays | compatibility_service/pkg/orchestrator/service.go:1440-1474 | What a subscriber was sent of the visited blocks is exactly the replay of the ledger they show. |
| EventReplay.AfterIsReplayed | compatibility_service/pkg/orchestrator/service.go:1450-1474 | The events of the ledger behind the checkpoint's, filtered by chaincode, are listed at exactly the positions of the ledger that yield them, in ledger order, none left out and none twice. |
| EventReplay.ResumesBehindCheckpoint | compatibility_service/pkg/orchestrator/service.go:1419-1469 | Main result: a subscriber that resumes behind a checkpoint of the ledger has received, once its block was delivered, exactly the chaincode's events behind the checkpoint's own, whatever start position it asked for. |
| EventReplay.CheckpointIsFirst | compatibility_service/pkg/orchestrator/service.go:1425-1438 | In the checkpoint's block, the first event of its transaction is the first on the ledger from that block on. |
| EventReplay.FindEvent | compatibility_service/pkg/orchestrator/service.go:1430-1436 | The checkpoint's block is accepted exactly if one of its events is of the checkpoint transaction. |
| EventReplay.ReplayWithoutCheckpoint | compatibility_service/pkg/orchestrator/service.go:1415-1474 | Without a checkpoint, exactly the matching ledger events from the start block to the last visited block, in order, wherever delivery began. |
| EventReplay.ReplayAfterCheckpoint | compatibility_service/pkg/orchestrator/service.go:1419-1469 | Main result: with a checkpoint found, and delivery beginning at its block or anywhere below, the ledger's events up to the last visited block split at its event, and exactly the matching ones behind it were delivered. |
| EventReplay.ReplayBeforeCheckpoint | compatibility_service/pkg/orchestrator/service.go:1440-1469 | A checkpoint not on the ledger yet holds everything back until it appears, and then delivers what follows it. |

## Left out

- ShimHandling.MessageHandler.Execute: the message stream ends after some number of messages that the chaincode brings along; a chaincode that sends messages forever has no result to describe.
- EventReplay.Subscription.StreamCommittedBlocks: speaks of any finite sequence of delivered blocks; an endless subscription is each of its prefixes.
- GatewayEnvelope.ParsesBackExactly: an empty byte string decodes to no message, while a protobuf decoder reads it as the zero message; every such case is rejected later by the code's own checks, except an empty metadata record or endorser identity.
- GatewayEnvelope.Open: a byte string decodes to one kind of message only, and chaincode identity records of the right type with undecodable fields are not modelled.
- LifecycleReceipts.Recovery.LifecycleOperation: a caller waiting for a gate is modelled by a later call, or by giving up when its context ends; single sending is stated per pending object, not per operation key.
- LifecycleReceipts.Recovery.RecoverOne: one object of a pass; which objects a pass picks from the map, the batch size, and the context checks between objects are left open.
- LifecycleSystem.RunSafe: a run stops before a step from a ledger whose watermark is the largest 64-bit number; `AppendsExactlyBelowLimit` shows what that step would write.
- LifecycleSync.SyncFromLedger: other requests are any function from moment and mirror to mirror that hydrates from the ledger of that moment; reads and single database accesses are atomic.
- ConfirmedInits.MarkersFollowCommittedInits: a callback is attached only for an Init that was admitted on the node, as both submission paths do; the service's other uses of the store carry none.
- FinalityRecording.ReconcilePending: starts from the batch that `PendingRecordsBefore` returns; the request context and the query timeout are part of whether the query is answered.
- FinalityRecording.RefreshObservedFinality: starts from the batch that `PendingRecordsBefore` returns without limit.
- ShimHandling.ProcessProposal: from the execution context on; parsing the proposal, choosing the executor and building the signed response are left out.
- EndorsementCollection.CollectForPolicy: decoding the policy envelope and compiling its evaluator and verifier are library calls that succeed.
- FinalityProtocol.NoSecondSendBeforeFinality: duplicate callers only wait on the record and take no step of their own; after a final status the key may be used again, as the code intends.
- FinalityProtocol.RunKeepsInv: finality notifications, status queries and the wait after submit are steps that may happen at any time or never; there is no claim that a final status is ever observed.
- IdempotencyStore.Store.PendingRecordsBefore: the order in which a map is visited is arbitrary.
- EndorsementCollection.CollectNamespaceEndorsements: each endpoint answers in one way; failures of contacts and directory are outcomes, and log and error texts are not modelled.
- LifecycleStore.Store.UpsertCommitted: the stored row is a map entry with one atomic guarded update; `committed_at` and the SQL engine are left out.
- LifecyclePropagation.Progress.ReconcileDefinition: remote calls either update an organization or fail; request signing is a yes or no.
- InvocationState.ExecutionContext.GetState: client creator, nonce, decorations and signed proposal are carried data without rules of their own.
- Application Init may run more than once across nodes: nothing in the service prevents concurrent Init invocations, so only the marker is proved safe.
- Threshold-rule namespace policies and the "fabric" protocol submitter bypass selection and are decided by libraries.
- Store.CommitDefinition, Store.MarkInitialized, approvals and package installation do not take the ledger path.
- Evaluate, remote evaluation, status-code mapping, resolvers and contact caching hold no property beyond their bodies.
- gRPC, TLS, configuration, logging, block dump and the command line are input and output.
