# Control plane verification

A Dafny 4.11 model of the action control plane and proofs about it.  `dafny verify dfyconfig.toml`
checks everything.

The control plane decides whether an action may run and keeps evidence of it.  An intent is taken in
and decided by policy, approved by people, backed by evidence, given an issued proof, put in escrow,
released as a signed capability token, consumed, and answered by a receipt.  Receipt digests go
into a transparency log; issuers have published standings; counter-signing keys rotate; jobs are
retried.  The model covers these parts:

| files | part |
|---|---|
| `Hashing`, `Hex`, `MerkleTree`, `MerkleVerifier`, `AppendChain` | the Merkle tree, its paths and the append chain of the transparency log, with the verifiers of sections 2.1.3.2 and 2.1.4.2 of RFC 9162 |
| `TransparencyLog` | the log service: append, publish, audit, serve, over whole runs |
| `Text`, `JsonValues`, `PolicyEngine`, `PolicyRegistry` | text and JSON values under the source language's equality, policy evaluation, policy versions |
| `ControlPlane`, `Approvals`, `EvidenceStore`, `Intake`, `Issuance`, `Escrows` | the authority pipeline, one service per file, on shared tables behind a session with commit and rollback |
| `Authority`, `Provenance`, `Reachability` | the pipeline as one machine, what a consumed capability proves about the past, and a run in which one is consumed and settled |
| `IssuanceRace`, `EscrowRace`, `ApprovalRace` | overlapping transactions of issuance, of escrow and of approval |
| `CapabilityToken`, `Receipts`, `Settlement` | the token format; receipts and their reconciliation; pipeline and receipts as one machine, a reconciled receipt traced back to the approvals |
| `IssuerRegistry`, `CounterSigning`, `ExecutionWorker`, `Metrics` | publication of issuer standings, the key life cycle, the retrying worker under crashes, the histogram |
| `CounterSigningRace`, `PolicyRace`, `WorkerRace`, `SubmissionRace` | overlapping callers of the key life cycle and of policy versions, several workers and cancellers on one job, overlapping submissions of a job |

How to read it:

- **Hashes.** SHA-256 is a parameter, a function from byte strings to 32 bytes about which nothing
  is assumed.  Soundness is never "the hash is injective" and never "a collision exists" (one always
  does): the members named `Compare...` and `...Sound` are compiled code that returns the two
  colliding byte strings whenever the claim fails.
- **Services.** A service that changes rows is a class.  Each of its methods is proved equal to a
  function of the old tables, for the new tables and for the answer; the results about runs are
  lemmas on those functions.  Refusals are answers, never preconditions.
- **Runs.** A run is a sequence of whole calls, each on what the one before it left behind.  That is what
  the code does where it locks a row first in a fresh session (`TransparencyLog`, and section by section in
  `IssuerRegistry`).  Elsewhere calls can overlap, and the modules named `...Race` let every caller read
  first and commit later, with any number of others in between.
- **Parameters.** Clock readings, signers, providers, publishers, executors, jitter, hash functions
  and the JSON codec are inputs.  Laws about them appear as named predicates in the lemmas that need
  them (`Faithful`, `SelfConsistent`, `Jittered`).

## Where a promise needs a condition

Thirteen things one might expect hold only under a condition, given here exactly:

- An escrow log replays to its record under overlapping callers if and only if each revocation,
  quarantine, expiry or report still finds the row as it read it (`EscrowRace.StaleRevocation`,
  `EscrowRace.FaithfulExactlyWhenFresh`).  Otherwise a consumed capability can end up revoked,
  although the service says that consumed capabilities must be quarantined instead.
- A counter-signing registry is one rotation chain with at most one active key if and only if every
  rotation that takes effect finds the key it read not yet replaced and every first provision finds the
  registry still empty (`CounterSigningRace.OneChainExactlyWhenTimely`).  It is so all along the run, and
  no revocation is lost, if and only if the key read is still active
  (`CounterSigningRace.SoundExactlyWhenFresh`).  Two overlapping rotations leave two active keys, and
  rotations are then refused for having several (`CounterSigningRace.OverlapHappens`); a rotation
  overlapping the revocation of its key turns the revoked key into a retired one
  (`CounterSigningRace.OverlappingRevocation`).
- The published key set is that of the present keys if and only if the last operation that got as far as
  publishing also committed (`CounterSigning.PublishedExactlyWhenCommitted`).
- The status of an approval request is all along the one its decisions imply if and only if what each caller
  concluded from its reading still fits when it commits (`ApprovalRace.StatusTellsExactlyWhenFits`).  Two
  overlapping approvals can leave a full quorum pending (`ApprovalRace.OverlappingApprovals`); no
  overlap ever satisfies a request without its quorum (`ApprovalRace.SatisfiedHasQuorum`).
- Satisfied, rejected and expired are never left if and only if each commit that writes a status finds the
  request still pending or already at that status (`ApprovalRace.ClosedStaysExactlyWhenGuarded`).  A
  closed status is final for every later run if and only if nobody who read the request while it was pending
  can still commit another one (`ApprovalRace.FinalExactlyWhenQuiet`), and so is the satisfied request
  under an issued proof (`ApprovalRace.IssuedStandsExactlyWhenQuiet`).  Otherwise a rejection can overturn
  a satisfied request, and an approval an expired one (`ApprovalRace.OverlappingRejection`,
  `ApprovalRace.OverlappingExpiry`).
- A workflow has at most one active policy version all along if and only if each activation has read as
  active every other version that now is (`PolicyRace.OneActiveExactlyWhenComplete`,
  `PolicyRace.OverlappingActivations`).  Published versions keep their content and retired ones stay
  retired if and only if each update finds a draft, or changes nothing, and no activation revives a version
  retired since it was read (`PolicyRace.FixedExactlyWhenAllowed`, `PolicyRace.OverlappingUpdate`).
- There is at most one job per tenant and idempotency key if and only if every caller that stored one found
  that there still was none (`SubmissionRace.OneJobExactlyWhenTimely`,
  `SubmissionRace.OverlappingSubmissions`).
- The terminal status of a job is final for every later run if and only if no live worker can still write
  another one and no cancellation that read the job open is still to commit, unless the job is cancelled
  already (`WorkerRace.TerminalFinalExactlyWhenSettling`, `WorkerRace.LateCancellation`).
- The executor is called at most max_retries + 1 times per job while no run or recovery starts beside a live
  worker (`WorkerRace.SoloBound`).  After any start the bound can be exceeded if and only if the calls made,
  those left to the live workers and those the record grants the new one add up to more
  (`WorkerRace.StartCanExceedExactlyWhen`); one overlapping recovery can double it
  (`WorkerRace.OverlappingStartDoubles`).
- A cancelled job stays cancelled if and only if no worker was live when it was cancelled
  (`ExecutionWorker.CancelFinalExactlyWhenIdle`).
- A histogram bucket counts the observations at or below its bound if and only if no bound was given
  twice (`Metrics.RepeatedBoundCountsTwice`, `Metrics.TruthfulExactlyWhenDistinct`).  The default
  bounds are distinct.
- While calls come one at a time, a counter-signing registry can get an active key again except after its
  active key was revoked: rotation needs an active key and provisioning an empty registry (`CounterSigning.DeadEndEntered`,
  `CounterSigning.DeadEndStays`).
- The internal audit of the transparency log passes for every earlier state of the same run, as
  docs/TRANSPARENCY_LOG_SERVICE.md says (`TransparencyLog.RollbackPassesAudit`).  A relying party that kept
  a checkpoint notices the rollback if and only if the checkpoint is larger than what is left
  (`TransparencyLog.RollbackNoticedExactlyWhenNewer`).

The second conflict handler of `issue_proof` (app/services/issuance.py:365-383) is shown unreachable
by `IssuanceRace.FinishNeverConflicts`.  The "multiple active keys" error of
app/services/countersigning.py:661-664 is unreachable while calls come one at a time
(`CounterSigning.ReachableIsOneChain`) and reachable by overlapping ones
(`CounterSigningRace.OverlapHappens`).

## Model

| member | source | states |
|---|---|---|
| `MerkleTree.LargestPowerOfTwoLessThan` | app/services/transparency_format.py:74-77 | the bit-length formula gives the split point of RFC 6962 (largest power of two below the value) for every value from 2 up, and refuses exactly the values below 2 |
| `MerkleTree.SplitUnique` | app/services/transparency_format.py:74-77 | every size inside one dyadic interval splits at the same point, which is why old and new trees share their left subtrees |
| `MerkleTree.InclusionPath` | app/services/transparency_format.py:92-104 | a path is produced exactly for the indices inside a nonempty tree |
| `MerkleTree.ConsistencyPath` | app/services/transparency_format.py:129-141 | a path is produced exactly for 0 <= m <= n <= the number of leaves, and is empty when m is 0 or n |
| `MerkleTree.CompareTrees` | app/services/transparency_format.py:80-89 | two leaf sequences of one length with one root are equal, or the function returns two different byte strings with the same hash |
| `MerkleTree.CompareLogs` | app/services/transparency_format.py:61-89 | the root binds the whole sequence of receipt digests across different lengths too: equal roots mean equal sequences, or a collision is computed; the leaf prefix, the node prefix and the empty-tree preimage are kept apart |
| `MerkleVerifier.LeafDirectionsAreBits` | app/services/transparency_format.py:92-104 | the sides on which the recursive path puts its siblings are the ones the shifting fn/sn counters of section 2.1.3.2 of RFC 9162 compute, for every index and size |
| `MerkleVerifier.PrefixDirectionsAreBits` | app/services/transparency_format.py:107-126 | the same for consistency paths and the counters of section 2.1.4.2 of RFC 9162 |
| `MerkleVerifier.VerifyInclusion` | app/services/transparency_format.py:92-104 | the iterative verifier of section 2.1.3.2 of RFC 9162, with its loops, decides exactly the recursive acceptance condition |
| `MerkleVerifier.VerifyConsistency` | app/services/transparency_format.py:107-141 | the iterative verifier of section 2.1.4.2 of RFC 9162, with its loops, decides exactly the recursive acceptance condition, for all sizes and path lengths |
| `MerkleVerifier.InclusionComplete` | app/services/transparency_format.py:92-104 | every generated inclusion path is accepted for the root it came from |
| `MerkleVerifier.AuditPathShort` | app/services/transparency_format.py:92-104 | a tree of at most 2^t leaves has inclusion paths of at most t entries |
| `MerkleVerifier.InclusionSound` | app/services/transparency_format.py:61-104 | an accepted path proves that the digest is the one at that index, or a collision is returned |
| `MerkleVerifier.ConsistencyComplete` | app/services/transparency_format.py:107-141 | for all 0 < m <= n every generated consistency path is accepted between the roots of the first m and the first n leaves |
| `MerkleVerifier.SubProofAccepted` | app/services/transparency_format.py:107-126 | the recursive sub-proof, seeded as the verifier seeds it, climbs to both the old and the new root |
| `MerkleVerifier.ConsistencySound` | app/services/transparency_format.py:107-141 | an accepted path between the roots of two digest sequences means the old one is a prefix of the new one, or a collision is computed |
| `AppendChain.BigEndianInjective` | app/services/transparency_format.py:144-157 | the eight index bytes determine the index |
| `AppendChain.PreimageFields` | app/services/transparency_format.py:144-157 | one chained byte string has one reading: index, digest, leaf and previous head can be read back from it |
| `AppendChain.CompareChains` | app/services/transparency_format.py:144-157 | two chains of at most 2^64 entries with one head have the same length and entries, or a collision is computed |
| `Hex.DigestBijection` | app/services/transparency_format.py:39-58 | normalised digest text and 32-byte digests correspond one to one, so storing text loses and merges nothing |
| `TransparencyLog.AuditIntegrity` | app/services/transparency_log.py:419-526 | the audit reports no error if and only if every leaf hash, chain hash, checkpoint root, checkpoint link and state column is what the other rows recompute to |
| `TransparencyLog.StepExtends` | app/services/transparency_log.py:148-319 | one append or publication keeps the tables intact, keeps every digest in place and drops no completed checkpoint |
| `TransparencyLog.RunExtends` | app/services/transparency_log.py:148-319 | the same over any sequence of calls |
| `TransparencyLog.EveryRunPassesAudit` | app/services/transparency_log.py:148-526 | every state reached from an empty database passes the audit |
| `TransparencyLog.CheckpointsStayConsistent` | app/services/transparency_log.py:200-401 | a checkpoint completed at any time and one completed later in any run are linked by the served consistency path, which the RFC 9162 verifier accepts |
| `TransparencyLog.ServedInclusion` | app/services/transparency_log.py:348-375 | the inclusion path served against a completed checkpoint verifies for every leaf below its size |
| `TransparencyLog.CompareAudited` | app/services/transparency_log.py:419-526 | two tables that pass the audit and share a chain head hold the same digests, or a collision is computed |
| `TransparencyLog.RollbackPassesAudit` | app/services/transparency_log.py:419-526 | supporting fact for the next: every earlier state of a run passes the audit too, and the run extends it |
| `TransparencyLog.RollbackNoticedExactlyWhenNewer` | docs/TRANSPARENCY_LOG_SERVICE.md:112-114 | of all paths that could be shown, one is accepted from a kept completed checkpoint to a rolled-back log if and only if the checkpoint is no larger than that log |
| `TransparencyLog.KeptCheckpointBinds` | docs/TRANSPARENCY_LOG_SERVICE.md:112-114 | what a kept checkpoint that is not larger still detects: once a path from it to a log that passes the audit is accepted, the digests it covered are a prefix of that log, or a collision is computed |
| `TransparencyLog.Log.Append` | app/services/transparency_log.py:148-198 | appends once per digest and answers a repetition with the first index; the full log is the only refusal |
| `TransparencyLog.Log.Publish` | app/services/transparency_log.py:200-319 | on any tables: those that fail the audit change nothing but the failure event; those that pass it, also with artifacts that say something else than their rows, move as specified, once per size, and a failed signature completes nothing |
| `TransparencyLog.Log.InclusionProof` | app/services/transparency_log.py:348-375 | what is served verifies against the checkpoint it is served with; the refusals mean that no such checkpoint or no such leaf exists |
| `TransparencyLog.Log.ConsistencyProof` | app/services/transparency_log.py:377-401 | served exactly when both sizes have completed checkpoints in order, and then it verifies between their roots |
| `Text.SplitPiece` | app/services/escrow.py:145-148 | splitting at a separator undoes joining for pieces without it |
| `PolicyEngine.ResolvePath` | app/services/policy_engine.py:358-364 | the loop over the dotted path returns the value at that path, null as soon as a step is missing or not an object |
| `PolicyEngine.RankSorts` | app/services/policy_engine.py:289-292 | the order in which rules are tried is the stable order by (priority, position), each rule once |
| `PolicyEngine.Evaluate` | app/services/policy_engine.py:183-336 | the sort-and-scan loop with its growing trace computes the decision function for every request, errors included |
| `PolicyEngine.DecideIsFirst` | app/services/policy_engine.py:289-319 | once no hard or scope rule fires, the outcome is that of the decisive rule with least (priority, position), found without sorting or scanning |
| `PolicyEngine.DecideDefault` | app/services/policy_engine.py:321-336 | with no decisive rule the default decision applies and the trace lists every rule |
| `PolicyEngine.FirstExists` | app/services/policy_engine.py:289-319 | a least decisive rule exists whenever some rule is decisive, so the two cases are exhaustive |
| `PolicyEngine.TraceIsScan` | app/services/policy_engine.py:289-307 | the trace lists exactly the rules up to the match in scan order and only its last entry matched |
| `PolicyEngine.PermutationInvariant` | app/services/policy_engine.py:289-336 | permuting rules with distinct priorities changes nothing in the decision |
| `PolicyEngine.RequirementsPresent` | app/services/policy_engine.py:392-447 | a decision that asks for approvals or evidence carries the requirement, counts are at least one, and a contract that is unsupported or invalid is never executable |
| `PolicyEngine.HardRules` | app/services/policy_engine.py:194-280 | a hard rule only ever refuses, with no requirement attached, and getting past them means a supported valid contract and a policy |
| `PolicyRegistry.VersionsWithoutGap` | app/services/policy_engine.py:62-168 | in every run of whole calls the versions of a workflow are 1..n, each once, and at most one is active |
| `PolicyRegistry.PublishedVersionsAreFixed` | app/services/policy_engine.py:119-168 | in every run of whole calls a version that left draft keeps its content for ever and a retired one stays retired |
| `PolicyRace.VersionsStayWithoutGap` | app/services/policy_engine.py:62-95 | in every interleaving of reads and commits the versions of a workflow are 1..n, each once |
| `PolicyRace.OneActiveExactlyWhenComplete` | app/services/policy_engine.py:144-168 | in every interleaving at most one version of a workflow is active all along if and only if each activation that leaves its version active has read as active every other one that now is |
| `PolicyRace.FixedExactlyWhenAllowed` | app/services/policy_engine.py:119-168 | in every interleaving published versions keep their content and retired ones stay retired if and only if each update finds a draft or changes nothing and no activation revives a version retired since it was read |
| `PolicyRace.OverlappingActivations` | app/services/policy_engine.py:144-168 | the failing run: two overlapping activations leave two active versions |
| `PolicyRace.OverlappingUpdate` | app/services/policy_engine.py:119-168 | the failing run: an update overlapping the activation of its draft changes the active version |
| `PolicyRace.UninterruptedIsSerial` | app/services/policy_engine.py:62-168 | a read followed at once by its commit is the serial call |
| `PolicyRegistry.PolicyManagementService.CreatePolicy` | app/services/policy_engine.py:62-95 | the scan for the greatest version gives the next number |
| `PolicyRegistry.PolicyManagementService.ActivatePolicy` | app/services/policy_engine.py:144-168 | the loop retires exactly the other active policies of the workflow |
| `PolicyRegistry.PolicyManagementService.GetActivePolicy` | app/services/policy_engine.py:170-179 | returns the one active policy of the workflow, none exactly when there is none |
| `Approvals.QuorumExact` | app/services/approvals.py:358-455 | a request is satisfied if and only if nobody rejected and exactly the required number of different principals approved, each of whom passed the assignment, role and separation checks; otherwise fewer did |
| `Approvals.DecidedInv` | app/services/approvals.py:183-293 | recording an admitted decision on a pending request keeps that invariant |
| `Approvals.RefreshedInv` | app/services/approvals.py:338-356 | so does expiry |
| `Approvals.CheckActor` | app/services/approvals.py:358-384 | refuses exactly the actors who may not decide |
| `Approvals.ApprovalService.Record` | app/services/approvals.py:183-293 | the whole effect and answer of a decision: the expiry found on reading is committed even when the decision is refused, and refusals come in the source's order, with any of the possible errors when several citations are bad |
| `Approvals.ApprovalService.Synchronize` | app/services/approvals.py:295-329 | refreshes every request of the intent and derives the approval state from their statuses |
| `Approvals.ApprovalService.GetRequest` | app/services/approvals.py:162-181 | commits an expiry found on reading, and nothing else |
| `Approvals.ApprovalService.UpdateStatus` | app/services/approvals.py:427-455 | the counting loop yields the status the decision list implies |
| `Approvals.ApprovalService.ValidateEvidence` | app/services/approvals.py:386-414 | a missing citation is reported first; else the error is that of some bad citation, foreign before inactive within one, and there is none exactly when all are good |
| `EvidenceStore.SatisfiedIsLive` | app/services/evidence.py:420-460 | after synchronising, "satisfied" means that enough evidence of an allowed type is active and unexpired at that moment, and nothing else |
| `EvidenceStore.EvidenceService.Synchronize` | app/services/evidence.py:420-460 | the loops over the evidence rows compute that state |
| `EvidenceStore.EvidenceService.RegisterEvidence` | app/services/evidence.py:198-300 | the whole effect and answer of a registration, binding errors first |
| `Intake.IntakeService.Accept` | app/services/action_intents.py:126-275 | the record, its approval request and its assignments are stored together or not at all; a repeated assignee stores nothing |
| `Issuance.ScopeCanonical` | app/services/issuance.py:116-120 | two scopes have one canonical form exactly when they have the same values, whatever their order and repetition |
| `Issuance.EligibleIsAuthorised` | app/services/issuance.py:549-610 | eligibility on the synchronised record is eligibility on the approval and evidence tables themselves at that moment |
| `Issuance.IssueInv` | app/services/issuance.py:97-432 | every call keeps at most one issued proof per key and leaves none merely requested |
| `Issuance.IssuedExactlyWhenAuthorised` | app/services/issuance.py:97-432 | a call stores an issued proof if and only if it is neither refused nor a replay, the intent is authorised and the signer signs |
| `Issuance.RepeatIsReplay` | app/services/issuance.py:116-136 | the same request again, scope reordered or repeated, is answered until expiry with that very proof and changes nothing |
| `Issuance.IssuanceService.FindExisting` | app/services/issuance.py:522-547 | returns the unexpired issued proof of the key, or marks the lapsed one expired |
| `Issuance.IssuanceService.IssueProof` | app/services/issuance.py:97-432 | the whole effect and answer of the call, with refusals and replays committing nothing |
| `Issuance.IssuanceService.GetProof` | app/services/issuance.py:459-473 | commits an expiry found on reading |
| `IssuanceRace.CommittedIsIdempotent` | app/services/issuance.py:166-211 | in every interleaving of transactions no requested proof is ever committed and a key has at most one issued proof |
| `IssuanceRace.ReplayIsTheIssuedProof` | app/services/issuance.py:116-211 | a replay, at the first look or after a conflict, names the unique issued proof of the key, unexpired at that moment |
| `IssuanceRace.FinishNeverConflicts` | app/services/issuance.py:361-383 | the final commit can never violate the index, so its conflict handler is unreachable |
| `IssuanceRace.UninterruptedIsSerial` | app/services/issuance.py:97-432 | a transaction that nobody interrupts does to the proofs what the serial call does |
| `Escrows.AtMostSixEntries` | app/services/escrow.py:723-790 | status and execution state stay coupled and no record makes more than six log entries |
| `Escrows.SixEntriesHappen` | app/services/escrow.py:283-602 | six entries are reached |
| `Escrows.EachStateOnce` | app/services/escrow.py:723-790 | no state is entered twice; in particular one release and one consumption at most per record |
| `Escrows.ApplyInv` | app/services/escrow.py:283-602 | every accepted command moves to a strictly higher rank and keeps the log replaying to the record |
| `Escrows.ConsumedExactlyWhen` | app/services/escrow.py:393-438 | supporting fact: the guards of a consumption as one condition on record, proof, token and time |
| `Escrows.PerformInv` | app/services/escrow.py:283-602 | every command, refused or not, keeps all records' invariants, including binding and expiry bounds |
| `Escrows.HoldInv` | app/services/escrow.py:182-281 | so does creating a hold |
| `Escrows.NewHoldInv` | app/services/escrow.py:707-721 | a new hold carries the proof's audience, scope, hash and digest and expires no later than the proof and the hold time plus the longest hold |
| `Escrows.EscrowService.CreateHold` | app/services/escrow.py:182-281 | the whole effect and answer: one hold per proof, a matching repetition is a replay, a different one is refused |
| `Escrows.EscrowService.Claim` | app/services/escrow.py:348-368 | the guarded UPDATE changes the row exactly when it still has the expected status and digest |
| `Escrows.EscrowService.ReleaseCapability` | app/services/escrow.py:283-391 | the whole effect and answer of a release, refusals in the source's order, expiry on reading committed |
| `Escrows.EscrowService.ConsumeCapability` | app/services/escrow.py:393-458 | the same for a consumption |
| `Escrows.EscrowService.RevokeCapability` | app/services/escrow.py:460-499 | the same for a revocation |
| `Escrows.EscrowService.QuarantineCapability` | app/services/escrow.py:501-543 | the same for a quarantine |
| `Escrows.EscrowService.RecordExecutionUpdate` | app/services/escrow.py:545-602 | the same for an execution report |
| `Escrows.EscrowService.GetRecord` | app/services/escrow.py:635-652 | commits an expiry found on reading |
| `EscrowRace.AtMostOnce` | app/services/escrow.py:244-439 | in every interleaving of reads and commits at most one release and one consumption succeed per proof, and the consumed token has the digest of the released one |
| `EscrowRace.NeverReturns` | app/services/escrow.py:348-705 | a row that left held, or held and released, never goes back |
| `EscrowRace.StaleRevocation` | app/services/escrow.py:460-499 | the failing run: a revocation read before a consumption and committed after it leaves a consumed capability revoked, with a log that does not replay to the row |
| `EscrowRace.FaithfulExactlyWhenFresh` | app/services/escrow.py:460-602 | for every run the log replays to the row if and only if each unguarded write found the row in the state it had read |
| `EscrowRace.FreshRunsAreOrdered` | app/services/escrow.py:283-602 | with fresh writes only, every interleaving leaves an ordered log of at most six entries, as serial calls do |
| `EscrowRace.UninterruptedIsSerial` | app/services/escrow.py:283-602 | a read followed at once by its commit is exactly the serial command, log entry and refusals included |
| `Authority.StepKeeps` | app/services/escrow.py:177-602 | every call of the pipeline keeps the joint invariant and undoes nothing: intents keep their decision, closed requests are frozen, proofs at most expire, logs only grow |
| `Provenance.RunKeeps` | app/services/escrow.py:177-602 | whatever holds of a row by some step still holds, in that sense, at the end of any run |
| `Provenance.ConsumedWasAuthorised` | app/services/escrow.py:393-458 | every consumed capability went through four earlier steps in this order: issuance while authorised, hold on the active proof, release under a token, presentation of a token with the same digest, each before the expiries |
| `Provenance.ConsumedStillEntitled` | app/services/issuance.py:549-610 | at the end of any run such a capability stands on a valid contract with a permitting decision, every approval request of the intent still has its full quorum, and the record is bound to its proof and within its expiry bounds |
| `Reachability.ConsumptionHappens` | app/services/escrow.py:393-458 | for any hash functions a run of six calls (submit, approve, issue, hold, release, consume) ends with a consumed capability, so the results about consumption are not vacuous |
| `Reachability.SettlementHappens` | app/services/receipts.py:142-347 | the same run with one receipt ends with a reconciled receipt of the consumed capability, so the results about settlement are not vacuous |
| `Provenance.IssuingStep` | app/services/issuance.py:97-432 | the step that stored a proof which is issued, or has expired since, can be named, and the intent was authorised then |
| `Provenance.SatisfiedIsQuorum` | app/services/approvals.py:183-455 | in every run of whole calls a request is satisfied exactly when it has its full quorum, and pending means strictly fewer approvers |
| `ApprovalRace.SatisfiedHasQuorum` | app/services/approvals.py:183-293 | in every interleaving of reads and commits a satisfied request has at least the required number of different entitled approvers, and nobody decides twice |
| `ApprovalRace.StatusTellsExactlyWhenFits` | app/services/approvals.py:427-455 | in every interleaving the status is all along the one the decisions imply if and only if each approval that finds the request not yet satisfied counted a quorum exactly when there now is one, and each expiry finds it neither satisfied nor rejected |
| `ApprovalRace.OverlappingApprovals` | app/services/approvals.py:183-293 | the failing run: two overlapping approvals each count only themselves and leave a full quorum pending; a third then satisfies it with one more than required |
| `ApprovalRace.UninterruptedIsSerial` | app/services/approvals.py:183-293 | a read followed at once by its commit is the serial decision or expiry |
| `Provenance.ClosedRequestsStay` | app/services/approvals.py:183-356 | in every run of whole calls, satisfied, rejected and expired are never left |
| `ApprovalRace.ClosedStaysExactlyWhenGuarded` | app/services/approvals.py:338-455 | in every interleaving they are never left if and only if each commit that takes effect and writes a status finds the request still pending or already at that status |
| `ApprovalRace.FinalExactlyWhenQuiet` | app/services/approvals.py:183-293 | in any state a closed status is final for every later run if and only if nobody in flight can still commit another one: an expiry, or a decision of someone who has not decided |
| `ApprovalRace.IssuedStandsExactlyWhenQuiet` | app/services/issuance.py:97-432 | when an issuance has found the request satisfied, its proof stands on a satisfied request in every later interleaving of decisions, expiries and issuances if and only if nobody in flight at that moment can still commit another status |
| `ApprovalRace.QuietLooksStand` | app/services/issuance.py:97-432 | in every such interleaving in which each issuance that finds the request satisfied finds nobody of that kind in flight, issued proofs stand on a satisfied request |
| `ApprovalRace.OverlappingRejection` | app/services/approvals.py:183-455 | the failing run: an approval satisfies the request and an overlapping rejection then rejects it, the status telling the decisions throughout |
| `ApprovalRace.OverlappingExpiry` | app/services/approvals.py:338-455 | the other failing run: an expired request becomes satisfied |
| `Provenance.LogsReplay` | app/services/escrow.py:723-752 | in every run each record's log replays to its state in at most six entries, and a proof has one record |
| `Provenance.OneIssuedProof` | app/services/issuance.py:97-432 | in every run a key has at most one issued proof and none is left requested |
| `Provenance.HeldIsBound` | app/services/escrow.py:182-281 | in every run each hold carries the digest of its proof, which is, like the tenant, that of the intent the proof was issued for |
| `Settlement.HoldsNeverDisagree` | app/services/receipts.py:544-597 | in every run a receipt that agrees with the proof carries the intent's digest and agrees with the escrow exactly when the provider reference does |
| `Settlement.SettledIsAuthorised` | app/services/receipts.py:142-347 | in every joint run of pipeline and receipts, a receipt that was stored as reconciled and is linked to a capability that is consumed names, by its payload's digest and scope, the action of its own intent, which is the intent of the capability's proof, is entitled, and has the full quorum of every approval request |
| `Settlement.ReconciledStands` | app/services/receipts.py:261-296 | in every joint run a receipt once stored as reconciled still agrees on digest, scope and audience with the present rows of its intent, proof and escrow, whatever happened to them since |
| `Settlement.EveryHoldCanSettle` | app/services/receipts.py:142-347 | in every joint run each hold can be settled: a receipt that says of it what the tables say is stored as reconciled, unless the tenant already has a receipt of that digest |
| `CapabilityToken.EncodeShape` | app/services/escrow.py:78-80 | the encoding has no pad, dot, space or non-ASCII character, and its length alone tells the pads it lost |
| `CapabilityToken.RoundTrip` | app/services/escrow.py:78-85 | decoding undoes encoding for byte strings of every length, through the lenient decoder of the standard library |
| `CapabilityToken.VerifyAfterMint` | app/services/escrow.py:88-174 | for every claim set, a faithful JSON codec and a signer that accepts its own dot-free signatures, verifying after minting returns exactly the claims minted |
| `CapabilityToken.PayloadBindsClaims` | app/services/escrow.py:117-124 | different claims never share a payload |
| `CapabilityToken.AcceptedIsSigned` | app/services/escrow.py:138-174 | a token is accepted only when the signer vouches for its first two segments, and the answer is what the second one spells |
| `CapabilityToken.MintedIsStripped` | app/services/escrow.py:792-796 | minted tokens pass unchanged through the stripping done before hashing |
| `Receipts.MatchedIsAgreement` | app/services/receipts.py:509-597 | each kind of reconciliation is matched if and only if receipt and record agree on every compared field, both absent counting as equal |
| `Receipts.ReconciledExactlyWhenAgrees` | app/services/receipts.py:261-296 | a stored receipt is reconciled if and only if it agrees with its intent and with every linked proof and escrow; one audit event per comparison and one for the receipt |
| `Receipts.AgreementIsOneDigest` | app/services/receipts.py:509-597 | then one action digest runs through intent, proof, escrow and receipt |
| `Receipts.ResubmissionIsReplay` | app/services/receipts.py:173-204 | sending a stored payload again, linked to anything, is a replay of the same receipt |
| `Receipts.ReceiptService.IngestReceipt` | app/services/receipts.py:142-347 | the whole effect and answer: refusals and replays change nothing, a fresh receipt changes the tables as specified |
| `Receipts.ReceiptService.Reconcile` | app/services/receipts.py:466-507 | builds the reconciliation records and their audit events in order |
| `IssuerRegistry.ServedIsCurrent` | app/services/issuer_registry.py:397-436 | in every interleaving of publications and standing changes, an artifact served reports the issuer's present standing and is younger than the staleness limit |
| `IssuerRegistry.OneVersionOneStanding` | app/services/issuer_registry.py:453-492 | versions only grow, and the audit trail says one thing of each version for ever |
| `IssuerRegistry.RevocationIsFinal` | app/services/issuer_registry.py:233-250 | after a committed revocation the issuer never changes again and nothing else is ever served |
| `IssuerRegistry.CompletedWasUndisturbed` | app/services/issuer_registry.py:252-369 | in every run, between the section that starts a publication and the one that completes it the issuer's version and standing never changed, and the artifact reports them |
| `IssuerRegistry.OvertakenFails` | app/services/issuer_registry.py:287-357 | supporting fact for one step: an open publication completes exactly when the signer signs and the version is still the one it started from |
| `IssuerRegistry.StepInv` | app/services/issuer_registry.py:157-492 | every locked section keeps the registry's invariant and only lengthens the audit trails |
| `IssuerRegistry.IssuerRegistryService.RegisterIssuer` | app/services/issuer_registry.py:157-196 | one record per identity |
| `IssuerRegistry.IssuerRegistryService.ChangeStanding` | app/services/issuer_registry.py:453-492 | the whole effect and answer of a standing change |
| `IssuerRegistry.IssuerRegistryService.ReinstateIssuer` | app/services/issuer_registry.py:213-231 | a revoked issuer is refused before permissions are looked at |
| `IssuerRegistry.IssuerRegistryService.RevokeIssuer` | app/services/issuer_registry.py:233-250 | a failed publication does not undo the revocation |
| `IssuerRegistry.IssuerRegistryService.PublishStatus` | app/services/issuer_registry.py:252-369 | undisturbed, it completes exactly when permitted, configured and signed, and reports the present standing |
| `IssuerRegistry.IssuerRegistryService.CompletePublication` | app/services/issuer_registry.py:287-357 | the second transaction stores the artifact or the failure, with its audit event |
| `IssuerRegistry.IssuerRegistryService.LatestStatusArtifact` | app/services/issuer_registry.py:397-436 | the loop serves the completed publication of the present version that completed last, unless it expired |
| `CounterSigning.ApprovedIsDual` | app/services/countersigning.py:761-793 | an approved operation has the required number of different human approvers with the permission, none of them the requester |
| `CounterSigning.CompletedWasDual` | app/services/countersigning.py:468-553 | in every run of whole calls, so has every completed operation |
| `CounterSigning.KeySetExact` | app/services/countersigning.py:603-651 | the key-set document lists every key exactly once, as it is |
| `CounterSigning.ReachableIsOneChain` | app/services/countersigning.py:324-445 | while calls come one at a time, every reachable registry is one rotation chain in the order of the completed records, at most one key is active, and the multiple-active error is unreachable |
| `CounterSigning.PublishedExactlyWhenCommitted` | app/services/countersigning.py:468-553 | in every run of whole calls the published document is that of the present keys if and only if the last operation that published one also committed |
| `CounterSigningRace.OneChainExactlyWhenTimely` | app/services/countersigning.py:324-445 | in every interleaving of reads and commits the registry is one rotation chain, hence has at most one active key, if and only if each rotation that took effect found the key it read not yet replaced and each provision found the registry still empty |
| `CounterSigningRace.SoundExactlyWhenFresh` | app/services/countersigning.py:324-445 | in every interleaving the registry is all along one chain with at most one active key and shows every committed revocation if and only if each commit found the active key it read still active, or for a provision the registry still empty |
| `CounterSigningRace.OverlapHappens` | app/services/countersigning.py:653-665 | the failing run, from the empty registry: one provision and two overlapping approved rotations leave two active keys and no chain, so that every rotation is then refused for having several |
| `CounterSigningRace.OverlappingRevocation` | app/services/countersigning.py:347-445 | the other failing run: a rotation committed after the revocation of the key it read turns that key from revoked to retired and gives a registry without active key one again |
| `CounterSigningRace.UninterruptedIsSerial` | app/services/countersigning.py:324-553 | a read followed at once by its commit is the serial operation |
| `CounterSigning.ChainUnique` | app/services/countersigning.py:468-553 | a registry has at most one chain |
| `CounterSigning.FailureKeepsKeys` | app/services/countersigning.py:490-553 | supporting fact: an operation that does not complete leaves the keys alone and adds exactly one record, denied or failed |
| `CounterSigning.DeadEndStays` | app/services/countersigning.py:347-371 | once the active key is revoked, no later whole operation of any kind brings an active key back |
| `CounterSigning.DeadEndEntered` | app/services/countersigning.py:373-445 | that state is entered exactly by completing the revocation of the active key |
| `CounterSigning.CounterSigningService.Authorize` | app/services/countersigning.py:761-793 | the checks and loops of the authorisation decide exactly dual approval, the last of several entries with one identifier counting |
| `CounterSigning.CounterSigningService.ProvisionAndPublish` | app/services/countersigning.py:468-553 | the whole effect and answer, with the rollback that keeps a document already published |
| `CounterSigning.CounterSigningService.ProvisionInitialKey` | app/services/countersigning.py:324-345 | the same for the first key |
| `CounterSigning.CounterSigningService.Rotate` | app/services/countersigning.py:347-371 | the same for a rotation |
| `CounterSigning.CounterSigningService.Revocation` | app/services/countersigning.py:373-445 | the same for a revocation |
| `CounterSigning.CounterSigningService.BuildPublicKeySet` | app/services/countersigning.py:603-651 | the append loop over the ordered keys builds the document |
| `CounterSigning.CounterSigningService.ActiveKey` | app/services/countersigning.py:653-665 | finds the active key, or reports several |
| `ExecutionWorker.DriveBounds` | app/services/execution_worker.py:196-267 | a run ends in a terminal status, its calls are its attempts, they stay within max_retries + 1, and it backs off after consecutive attempts only |
| `ExecutionWorker.DriveVerdict` | app/services/execution_worker.py:213-267 | the final status tells what the last answer was, and every earlier answer was unknown or retryable |
| `ExecutionWorker.BackoffBounded` | app/services/execution_worker.py:329-333 | one call sleeps at most 1.1 times the sum of min(2^k, 30) for k from 1 to the number of retries |
| `ExecutionWorker.RetryBound` | app/services/execution_worker.py:166-327 | for any executor and any schedule of crashes, recoveries and cancellations in which no run or recovery starts beside a live worker, the executor is called at most max_retries + 1 times |
| `WorkerRace.CountTrueExactlyWhenFresh` | app/services/execution_worker.py:196-200 | with any number of workers, each on its own copy of the row, the count on record is the number of attempts made if and only if every attempt was recorded on a copy that was still true |
| `WorkerRace.CanExceedExactlyWhen` | app/services/execution_worker.py:196-264 | the workers now alive can call the executor more than max_retries + 1 times in all if and only if the calls made and those left to each of them add up to more |
| `WorkerRace.StartCanExceedExactlyWhen` | app/services/execution_worker.py:306-327 | the same for starting one more worker on an open job, live workers or not: it counts the attempts the record still grants |
| `WorkerRace.SoloBound` | app/services/execution_worker.py:166-327 | while every start finds no live worker, the calls stay within max_retries + 1 and the count is always true |
| `WorkerRace.OverlappingStartDoubles` | app/services/execution_worker.py:306-327 | the failing run, for every limit: one recovery beside a live worker and the executor is called 2 (max_retries + 1) times |
| `ExecutionWorker.TerminalAbsorbs` | app/services/execution_worker.py:187-189 | once no worker is live and no cancellation is in flight, a terminal status absorbs every run, recovery, cancellation and crash |
| `WorkerRace.TerminalFinalExactlyWhenSettling` | app/services/execution_worker.py:166-327 | in any state with any number of workers and cancellers, a terminal status is final for every later run if and only if each live worker's next commit is its last and writes that status, and no cancellation that read the job open is still to commit unless the job is cancelled |
| `WorkerRace.LateCancellation` | app/services/execution_worker.py:270-280 | the failing run: a cancellation that read the job open commits after the job succeeded and its worker is gone |
| `ExecutionWorker.CancelFinalExactlyWhenIdle` | app/services/execution_worker.py:270-280 | a cancellation is final if and only if no worker was live: a live worker's last commit overwrites it |
| `ExecutionWorker.UndisturbedIsDrive` | app/services/execution_worker.py:196-267 | left alone, the machine that may crash at any point does what the retry loop does |
| `ExecutionWorker.RecoveryCloses` | app/services/execution_worker.py:306-327 | recovery leaves no job open and touches no closed one |
| `ExecutionWorker.Worker.SubmitJob` | app/services/execution_worker.py:123-164 | while calls come one at a time, one job per tenant and key |
| `SubmissionRace.OneJobExactlyWhenTimely` | app/services/execution_worker.py:123-164 | in every interleaving of looking and storing there is one job per tenant and key if and only if every caller that stored one found that there still was none |
| `SubmissionRace.OverlappingSubmissions` | app/services/execution_worker.py:123-164 | the failing run: two submissions that both find no job store two |
| `SubmissionRace.UninterruptedIsSerial` | app/services/execution_worker.py:123-164 | a look followed at once by its store is the serial call |
| `ExecutionWorker.Worker.RunJob` | app/services/execution_worker.py:166-268 | the whole effect and answer: row, number of calls and time slept |
| `ExecutionWorker.Worker.RecoverPendingJobs` | app/services/execution_worker.py:306-327 | every open job is run once, and those that do not end dead-lettered are counted |
| `ExecutionWorker.Worker.CancelJob` | app/services/execution_worker.py:270-280 | closes an open job and leaves a closed one |
| `Metrics.TruthfulExactlyWhenDistinct` | app/metrics.py:143-166 | each bucket shows the number of observations at or below its bound, for every run of observations, if and only if no bound was given twice |
| `Metrics.RepeatedBoundCountsTwice` | app/metrics.py:143-166 | the failing input: a bound given twice counts one observation twice |
| `Metrics.RenderedIsCumulative` | app/metrics.py:168-221 | with distinct bounds the buckets never fall and never exceed the +Inf sample, which is the count |
| `Metrics.BoundsSorted` | app/metrics.py:151 | the bounds kept are the bounds given, ascending |
| `Metrics.HistogramMetric.Observe` | app/metrics.py:159-166 | one observation is added to the history of its label set, or nothing changes when the labels do not fit |
| `Metrics.HistogramMetric.RenderSet` | app/metrics.py:188-221 | the loop renders exactly the samples of that history |
| `Metrics.EscapeRoundTrip` | app/metrics.py:43-44 | three-pass escaping of a label value can be read back in one pass, so different values never look alike |

## Left out

- Approvals.ApprovalService.ValidateEvidence: leaves open which of several bad citations is reported, because the row order of the query is not fixed.
- Approvals.ApprovalService.Record: the decision row keeps the roles the actor claimed, which the source checks and does not store, so that the quorum result can speak of them.
- Escrows.EscrowService.CreateHold: one clock reading per call; the source reads the clock several times within a call, so an expiry falling between two readings of one call is not modelled.  The same holds for every other call of the pipeline.
- Escrows.EscrowService.ReleaseCapability: takes the minted token as an input; `CapabilityToken.Mint` models the minting.
- EscrowRace.AtMostOnce: one record, because the unique constraint on the proof (app/models/escrow.py:57) ties records to proofs one to one and no call touches two records.
- ApprovalRace.StatusTellsExactlyWhenFits: one request; the approval state that the intent derives from its requests is modelled for whole calls only.
- CounterSigning.CompletedWasDual: whole calls; in `CounterSigningRace` the approvals are checked at the read, as in the source, and the records and the published document of overlapping callers are not modelled.
- ExecutionWorker.DriveVerdict: an answer that the executor marks as succeeded or failed but that cannot be written as JSON (keys of mixed types) is not modelled; the source then retries while the row already shows that status.
- PolicyRace.FixedExactlyWhenAllowed: the content of a version is one column; two overlapping updates of one draft that change different columns merge in the source.
- ExecutionWorker.BackoffBounded: delays and jitter are real numbers; rounding of floating point is not modelled.
- IssuanceRace.UninterruptedIsSerial: the eligibility outcome is an input of the race; `ApprovalRace` has issuances that overlap decisions and expiries of one approval request, and evidence changing within one overlapping call is not modelled.
- IssuerRegistry.ServedIsCurrent: the clock is read in whole seconds, as in the source; which of two publications completed in the same second is served is left open.
- Metrics.HistogramMetric.RenderSet: renders one label set as samples; the order of label sets, number formatting and the exposition text are not modelled.
- Metrics.TruthfulExactlyWhenDistinct: bounds and observations are real numbers; NaN and infinite values are not modelled.
- Receipts.ReceiptService.IngestReceipt: the receipt index with its commitments, contract validation and linked workflow identifiers are not modelled; they do not influence the receipt state.
- TransparencyLog.Log.Publish: the log identity and the signature format checks are not modelled, and neither is the validation of issuer identities in the registry; a published artifact is signed by an input that may be absent.
- PolicyEngine.Evaluate: a failing condition is an error value; the reason texts and the per-condition trace entries are not modelled.
- TransparencyLog.RunExtends: one session per call; a session that makes a second call keeps its earlier copy of the state row even after locking it.
- Identifiers are drawn from a counter; the source draws random ones, which the model takes never to repeat.
- Digest columns hold 32-byte values; `Hex.DigestBijection` is the bridge to the lower-case text the source stores.
- The execution state mirrored on the intent is not modelled: with several escrows for one intent it depends on timestamps that may tie.
- The canceled approval state exists in the types; no modelled call produces it, and none in the source does.
- List endpoints (`list_requests`, `list_evidence`, `list_proofs`, `list_records`) only repeat the refresh that reading one row does.
- Deduplication of intake by idempotency key: the answer to a repeated submission is the modelled reading of the intent.
- Evidence content, storage backends and upload, receipt and audit queries, signing-key references and their selection: no effect on the modelled results.
- HTTP routes, authentication, tenant isolation in the database, metrics counters inside services, logging and telemetry.
- JSON Schema validation, canonical JSON, Ed25519, HMAC and AES-GCM: library code, present only through the parameters above.
- `intent_store.py`, `permit_gateway_bridge.py`, `resource_owned_execution.py`, `kernel_bridge.py`, `usage.py`, `credential_store.py` and evidence bundles are not part of this model.
