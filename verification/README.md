# Verification of the evaluator's trust kernel

This project models, in Dafny 4.11, the parts of the agent evaluator that decide whether evidence is accepted, and
proves what they promise. Paths below are relative to the repository, under `src/agent_evals`.

**Immutable evidence store.** `RecordStore` is a state machine over one record key: file names map to inode numbers and
inode numbers to files, inode numbers are reused, and every system call of a writer, reader or operator is one step,
except that opening and reading an artifact are one step and so are the last check and the unlink of a release. A writer
may crash at any step, system calls may fail, and operators may quarantine a live lock at any time. The results hold for
every run of any number of processes. `RecordWrites` and `RecordProgress` say what a write, a read and a quarantine end
in, `RecordIntegrity` what a successful read vouches for. `RecordLocks` treats the release of the lock,
`RecordLockReuse` shows exactly when it is safe, and `RecordFiles` treats the two byte loops.

**Delegated authority and approval intent.** `Authority` folds handoff events into a path-local authority,
`PolicyGraph` treats the policy validator's reachability loop and the approval search, `ApprovalIntent` the verifier of
approval lifecycles, `ApprovalStitch` the adapter that rewrites a stream so that the verifier must accept it, and
`RunItems` the merging of resumed runs. `ApprovalMeaning` and `StitchMeaning` define, position by position, the trials
that the verifier must accept and the stream that the adapter must produce, and show that these are the ones.

**Walkers against a simple definition.** `MaterialBudget` is the iterative budget walk over an aliased, possibly cyclic
object graph, against the finite unfolding of its root; `MaterialSizes` treats what it charges for scalars. `JsonNesting`
is the one-pass scanner, against the grammar of RFC 8259. `PointerPath`, `Minimization` and `EvidenceMinimization`
define path parsing, redaction and the credential transformation; `MinimizationRun` is the minimizer as it runs, with
counters that are checked at every step. `MinimizationMeaning` says of every value of a record what it must become, and
`MinimizationSuccess` when minimization succeeds. `ScenarioRegistry` is the search for prerequisite cycles.

**Drift recorders.** `McpIdentityDrift`, `McpSchemaDrift` and `McpStaleCache` are the three recorder classes. Their
`Valid()` ties the fields to the whole history of callbacks. `McpIdentityMeaning`, `McpSchemaMeaning` and
`McpStaleMeaning` define which histories are to be accepted, without the recorder's fields.

**Replication, retention, roots, signing bytes, canary.** `BlobStore`, `Replication` and `Retention` work on backends
that may alias, fail, or refuse and misreport deletions; a backend that is `reliable` does not fail of itself, and on
such backends the operations are shown to succeed. `EvidenceRoots` and `VerificationChain` assume nothing about SHA-256:
equal roots of different content yield an explicit pair of colliding inputs. `Dsse` treats the pre-authentication
encoding of the DSSE protocol and envelope verification, `ProviderCanary` and `CanaryMeaning` the bounded live canary.

Digests, canonical encoders, credential patterns and key sensitivity are arbitrary functions, given as parameters. Where
a proof needs an encoder to be faithful (decoding gives back what was encoded), the requirement is named `Faithful` or
`Valid`.

Properties that turned out to hold only under a condition:

- The drift recorders' `require_complete_relation` does not look at ordinals. It accepts a run whose first discovery
  comes after the stale call. The ordinals of an accepted run are exactly 0 to 6 (0 to 5 for the stale cache) if and only
  if the first discovery preceded the first controlled call.
- A second minimization under the same policy is refused if and only if some declared path steps through a member under
  a credential-named key; otherwise it changes nothing. `SecondRunCanBeRefused` is such a record.
- The verifier accepts a stitched stream if and only if the stream had no earlier decision event, the stitched call's
  approval request is the only one for the target and comes from the SDK, and the result belongs to the agent and, for an
  approval, is an unflagged SDK result. `EarlierDecisionIsRefused` gives a stream that is stitched and refused.
- A resumption that returns only new run items is appended unless the first run is not empty and the new items begin
  with its signatures; then the first run is lost, as in `DeltaLosesFirstRun`.
- The identity check before releasing a lock compares inode numbers. A release removes only its own writer's lock while
  operators' unlinks are harmless: the lock that an unlink removes has a link in quarantine, or no release past its
  identity check remembers its inode number. After a run of harmless unlinks, an action makes a foreign removal possible
  if and only if it is an unlink that is not harmless and some writer has not begun and can take the lock.

## Model

| member | source | states |
|---|---|---|
| RecordStore.StepPreserves | src/agent_evals/evidence/store.py:150-200 | every step of every writer, reader and operator keeps the invariant and everything already published |
| RecordStore.RunPreserves | src/agent_evals/evidence/store.py:150-265 | so does every run |
| RecordStore.CommitBindsPayload | src/agent_evals/evidence/store.py:183-200 | in every reachable state a manifest implies the whole payload of the same writer, and validation of the two succeeds |
| RecordStore.CompleteRecordImmutable | src/agent_evals/evidence/store.py:441-475 | once complete, a record keeps both files and their bytes in every later state |
| RecordStore.PartialNeverCompleted | src/agent_evals/evidence/store.py:178-181 | a partial record whose publisher crashed or failed is never completed by anybody |
| RecordStore.LinkerOwnsPayload | src/agent_evals/evidence/store.py:195-197 | in every run the step that publishes a manifest is taken by the very writer that published the payload, which is its own evidence |
| RecordStore.SuccessesAgree | src/agent_evals/evidence/store.py:160-177 | all writes and reads of the key that succeed carry the same evidence, which is on disk |
| RecordStore.LaterReadsReturnTheRecord | src/agent_evals/evidence/store.py:202-265 | a read that begins on a complete record returns the evidence of that record, unless it meets an I/O fault itself |
| RecordStore.ReadsNeverReportCorruption | src/agent_evals/evidence/store.py:202-265 | any other read finds the record incomplete or returns evidence of the key with its own manifest, unless it meets an I/O fault itself |
| RecordStore.QuarantineKeeps | src/agent_evals/evidence/resilience.py:305-312 | linking a live lock into quarantine keeps every published and private file |
| RecordStore.OperatorPreserves | src/agent_evals/evidence/resilience.py:272-335 | every operator step, at any time, keeps the invariant |
| RecordWrites.WriteOfCompleteRecord | src/agent_evals/evidence/store.py:160-177 | in every run a write that finds the record complete, meets no fault of its own and passes its release checks returns the manifest of its evidence exactly when that is what the record holds, and raises a conflict otherwise |
| RecordWrites.WriteOfStrandedRecord | src/agent_evals/evidence/store.py:178-181 | such a write that finds half a record, whose publisher is gone, reports it incomplete |
| RecordWrites.SoloWriteReturns | src/agent_evals/evidence/store.py:150-200 | a write within the ceilings that is alone on an empty store can only end by returning its manifest, with the record complete and the lock released |
| RecordWrites.EmptyStoreAccepts | src/agent_evals/evidence/store.py:150-200 | and it does end: some run of its own steps returns the manifest |
| RecordIntegrity.ReadVouches | src/agent_evals/evidence/store.py:202-265 | whatever the bytes on disk, a read succeeds exactly when both files are within the ceilings, decode, and describe one another |
| RecordIntegrity.TamperingNeedsCollision | src/agent_evals/evidence/store.py:202-265 | under one manifest two payloads both read back only if their digests and their roots are equal |
| RecordProgress.ReadEnds | src/agent_evals/evidence/store.py:202-265 | a read ends after at most four steps of its own, whatever the others do |
| RecordProgress.QuarantineTakesLock | src/agent_evals/evidence/resilience.py:272-335 | an operator that nobody interferes with moves the lock file to its quarantine name and changes nothing else |
| RecordLocks.ReleaseRemovesOwnLock | src/agent_evals/evidence/store.py:357-403 | while operators' unlinks are harmless, a release removes the very file its writer created |
| RecordLocks.OnlyReleaseRemovesLock | src/agent_evals/evidence/store.py:376-392 | a writer removes the lock name only in the last step of its release, on the inode it remembers |
| RecordLockReuse.HarmlessIsExact | src/agent_evals/evidence/resilience.py:314-328 | after any run with harmless unlinks, an action lets a later release remove another writer's lock exactly when it is an unlink that is not harmless and some writer can still take the lock |
| RecordLockReuse.StaleUnlinkBreaksRelease | src/agent_evals/evidence/resilience.py:314-328 | a run in which a delayed operator unlink and a reused inode number make a release remove another writer's lock |
| RecordLockReuse.ReleaseCanBreak | src/agent_evals/evidence/store.py:376-392 | there is such a run for exactly the configurations that admit some evidence of the key |
| RecordLockReuse.ApartRun | src/agent_evals/evidence/store.py:441-475 | in every run the lock and its quarantine links never share an inode with an artifact or a temporary file |
| RecordFiles.WriteAll | src/agent_evals/evidence/store.py:447-454 | a temporary file holds the whole content exactly on success, and otherwise a prefix of it; where every write accepts something it succeeds |
| RecordFiles.SafeRead | src/agent_evals/evidence/store.py:406-438 | a read is exactly the content when nobody interferes, and always of the announced size within the ceiling |
| MaterialBudget.ValidateJsonMaterial | src/agent_evals/evidence/limits.py:48-159 | on every object graph the walk ends, and accepts exactly when the value has a finite unfolding that is admitted and within depth, node and byte budgets |
| MaterialBudget.VisitValue | src/agent_evals/evidence/limits.py:79-159 | one visit keeps the active set equal to the open ancestors and moves charges without loss |
| MaterialBudget.OpenContainer | src/agent_evals/evidence/limits.py:124-149 | charges the keys of one container and pushes all its children |
| MaterialBudget.EnterContainer | src/agent_evals/evidence/limits.py:116-149 | entering a container moves its own node and keys from pending to charged |
| MaterialBudget.PushedLineage | src/agent_evals/evidence/limits.py:66-77 | every pending entry is a child of the innermost open container below it, so exit markers are ancestors |
| MaterialBudget.MeasureDecides | src/agent_evals/evidence/limits.py:48-159 | the recursive measure with an ancestor set decides the unfolding definition |
| MaterialBudget.UnfoldingUnique | src/agent_evals/evidence/limits.py:48-65 | a value has at most one unfolding, aliases repeated by value |
| MaterialBudget.CycleIsRefused | src/agent_evals/evidence/limits.py:116-119 | a container reached again from itself is refused under every budget |
| MaterialSizes.IntegerMeaning | src/agent_evals/evidence/limits.py:98-111 | an integer is admitted exactly when its magnitude is below ten to the 4096th: the earlier test of its bits refuses nothing that the test of its digits admits |
| MaterialSizes.ScalarMeaning | src/agent_evals/evidence/limits.py:88-115 | what is charged is the length of the rendered text; a string is admitted exactly when it has no lone surrogate |
| MaterialSizes.TextLength | src/agent_evals/evidence/limits.py:91-97 | the UTF-8 length is one byte for a code point and one more from each of three bounds on |
| MaterialSizes.KeysMeaning | src/agent_evals/evidence/limits.py:125-135 | keys are admitted exactly when all are well-formed texts |
| Authority.ValidatedHandoffStateBefore | src/agent_evals/authority.py:149-163 | the loop computes the fold of the accepted handoffs before an event |
| Authority.AttenuationNarrows | src/agent_evals/authority.py:175-227 | an accepted grant gives tools, resources and budgets within the source's, approvals kept |
| Authority.AttenuationRefuses | src/agent_evals/authority.py:175-213 | a grant is accepted exactly when its child may use no tool, reach no resource and spend no budget that the source could not |
| Authority.AuthorityOnlyNarrows | src/agent_evals/authority.py:90-163 | along any trace every later authority lies within every earlier one and keeps inherited approvals |
| Authority.PathDeterminesAuthority | src/agent_evals/authority.py:90-146 | transitions form a chain from the root to the active agent, and authority is the fold of grants along it |
| Authority.EqualPathsEqualState | src/agent_evals/authority.py:61-80 | equal paths, in any two traces, mean equal active agent and equal authority |
| Authority.EpochIdentifiesState | src/agent_evals/authority.py:61-64 | epochs never decrease, and equal epochs in one trace mean no handoff was accepted in between |
| Authority.ApprovalsAlongPath | src/agent_evals/authority.py:215-227 | after any trace a tool needs approval exactly when some hop adds it and every later hop delegates it, or the root requires it and every hop does; tools, scopes and budgets are those of the last grant |
| Authority.HandoffAcceptance | src/agent_evals/authority.py:90-146 | a handoff is accepted exactly when it names two agents, leaves the active one by the first grant for the pair, and that grant widens nothing; a refused one changes nothing |
| Authority.RefusalReasons | src/agent_evals/authority.py:90-213 | the reasons given for a refusal are exactly those that hold |
| Authority.StateFollowsPermittedHandoffs | src/agent_evals/authority.py:149-163 | along any trace the state moves at the permitted handoffs and nowhere else |
| PolicyGraph.SourcesReachable | src/agent_evals/contracts/models.py:243-263 | the pending/reachable loop accepts exactly when every grant source is reachable from the root by a walk |
| PolicyGraph.ReachabilityIgnoresOrder | src/agent_evals/contracts/models.py:243-263 | the verdict depends on the set of grants, not on their order |
| PolicyGraph.ValidateAuthority | src/agent_evals/contracts/models.py:211-264 | the validator accepts exactly the valid policies |
| PolicyGraph.RootGrantIsPermitted | src/agent_evals/contracts/models.py:210-241 | under a valid policy every handoff that a grant of the root agent allows is accepted from the start |
| PolicyGraph.StatesRespectPolicy | src/agent_evals/contracts/models.py:210-241 | under a valid policy no trace ever delegates a forbidden tool, or requires approval for one that is not delegated |
| PolicyGraph.AgentPathRequiresApproval | src/agent_evals/contracts/models.py:356-380 | the search ends on cyclic graphs and, off the root, is true exactly when some walk delegates the tool at every hop and the root or a hop requires approval |
| PolicyGraph.RuntimeApprovalIsCovered | src/agent_evals/contracts/models.py:356-380 | every accepted trace that reaches a non-root agent with the tool approval-required is covered by the search |
| ApprovalIntent.ApprovalMeansLifecycle | src/agent_evals/evidence/approval_intent.py:203-350 | an accepted APPROVE has one request, one decision, one later call and one result for the call, in that order, on one authority path |
| ApprovalIntent.DecisionIsBound | src/agent_evals/evidence/approval_intent.py:203-237 | acceptance means exactly one decision event, with a receipt for this scenario, decision, agent and tool |
| ApprovalIntent.RequestIsUnique | src/agent_evals/evidence/approval_intent.py:220-268 | the request named by the receipt is the only one for the call and the only one for the target |
| ApprovalIntent.ApprovedContinuation | src/agent_evals/evidence/approval_intent.py:295-350 | exactly one execution after the decision and exactly one result after it |
| ApprovalIntent.NoHandoffDuringApproval | src/agent_evals/evidence/approval_intent.py:392-424 | no handoff is accepted between the approval request and the call it approves |
| ApprovalMeaning.AcceptanceMeaning | src/agent_evals/evidence/approval_intent.py:169-424 | a trial is accepted exactly when it is acceptable by a definition over positions: for each decision, which events there must be, once and in which order, with the agent, tool, call, argument digest, resource and authority path of the receipt |
| ApprovalStitch.StitchApprovalLifecycle | src/agent_evals/adapters/openai_hitl_approval.py:329-496 | the appends to one growing list produce the stitched stream |
| ApprovalStitch.StitchPreservesOthers | src/agent_evals/adapters/openai_hitl_approval.py:404-494 | every event outside the call survives once, in order, and the output counts up from zero |
| ApprovalStitch.StitchThenVerify | src/agent_evals/adapters/openai_hitl_approval.py:329-496 | the verifier accepts the output, for either decision, exactly on the streams that meet the stated condition |
| ApprovalStitch.EarlierDecisionIsRefused | src/agent_evals/adapters/openai_hitl_approval.py:329-496 | for every scenario and call there is a stream with an earlier decision that is stitched and then refused |
| ApprovalStitch.ContinuationVerdict | src/agent_evals/adapters/openai_hitl_approval.py:467-492 | what follows the decision is accepted exactly when the native result is acceptable |
| ApprovalStitch.ExecutionIntent | src/agent_evals/adapters/openai_hitl_approval.py:467-480 | the approved execution event carries the receipt's call under its authority path |
| StitchMeaning.StitchOutcome | src/agent_evals/adapters/openai_hitl_approval.py:329-496 | the outcome position by position: every other event is where it was, with room made, and the inserted events carry the call, the resource and the decision bound to the authority before the request |
| StitchMeaning.StitchedIsStitchable | src/agent_evals/adapters/openai_hitl_approval.py:340-395 | only streams with exactly one fitting request, approval request and result, and a call that a receipt can name, are stitched |
| StitchMeaning.RefusalIsExplained | src/agent_evals/adapters/openai_hitl_approval.py:340-395 | each refusal has its own reason, and it is the first that holds |
| RunItems.MergeKeepsBoth | src/agent_evals/adapters/openai_hitl_approval.py:557-566 | the merged history begins like the first run and ends with all resumed items |
| RunItems.MergeOfCumulative | src/agent_evals/adapters/openai_hitl_approval.py:557-566 | a resumption that repeats the whole history is taken as it is |
| RunItems.MergeOfDelta | src/agent_evals/adapters/openai_hitl_approval.py:557-566 | a resumption with only new items is appended exactly when it does not begin with the first run's signatures |
| RunItems.DeltaLosesFirstRun | src/agent_evals/adapters/openai_hitl_approval.py:557-566 | a resumption with one new item of the old item's signature, on which the merge loses the first run |
| JsonNesting.PreflightNesting | src/agent_evals/_strict_json.py:95-118 | the loop over depth and string flags computes the scan, stopping at the first refusal |
| JsonNesting.PreflightMeasuresNesting | src/agent_evals/_strict_json.py:95-118 | for every JSON text the scan ends at depth zero outside a string and accepts exactly when nesting is within the limit |
| JsonNesting.NestsText | src/agent_evals/_strict_json.py:99-107 | a string, whatever escapes, brackets and quotes it holds, leaves the depth unchanged |
| PointerPath.DecodePointerSegment | src/agent_evals/evidence/minimization.py:625-641 | the decoding loop reads the escapes ~0 and ~1 and refuses every other |
| PointerPath.UnescapeEncode | src/agent_evals/evidence/minimization.py:625-645 | decoding an encoded segment gives the segment back |
| PointerPath.EncodeUnescape | src/agent_evals/evidence/minimization.py:625-645 | encoding a decoded segment gives the text back |
| PointerPath.IndexIsDecimal | src/agent_evals/evidence/minimization.py:446-451 | a segment is an index exactly when it is the decimal form of that index |
| PointerPath.CanonicalIsIdentity | src/agent_evals/evidence/minimization.py:562-622 | printing a parsed path gives back the accepted text |
| PointerPath.ParseOfCanonical | src/agent_evals/evidence/minimization.py:562-622 | every well-formed path within the ceilings is the parse of its canonical form |
| PointerPath.ValidateOperatorPaths | src/agent_evals/evidence/minimization.py:114-137 | paths are accepted exactly when all parse, none overlaps another and there are at most 64 |
| PointerPath.RepeatedPathsOverlap | src/agent_evals/evidence/minimization.py:130-135 | paths with equal canonical forms overlap, so the uniqueness test refuses nothing more |
| PointerPath.OverlapMeaning | src/agent_evals/evidence/minimization.py:648-668 | two paths overlap exactly when they can select the same value or one value inside the other |
| Minimization.LocationsApart | src/agent_evals/evidence/minimization.py:648-668 | paths that do not overlap never select the same value or nested values |
| Minimization.RedactionsCommute | src/agent_evals/evidence/minimization.py:377-410 | redactions of paths that do not overlap give the same value, cost and count in either order |
| Minimization.TransformResult | src/agent_evals/evidence/minimization.py:454-526 | the transformed value is clean, its markers are the redactions counted, and it is unchanged where redaction is not allowed |
| Minimization.TransformIsIdempotent | src/agent_evals/evidence/minimization.py:454-526 | a second transformation changes nothing, at the same cost and count |
| Minimization.TransformKeepsSettled | src/agent_evals/evidence/minimization.py:377-506 | a redacted path stays settled through the transformation unless it crosses a credential-named member, and is then refused |
| EvidenceMinimization.OrderIsIrrelevant | src/agent_evals/evidence/minimization.py:282-322 | redaction succeeds alike and gives the same record in every order of places that do not overlap |
| EvidenceMinimization.PathOrderIsIrrelevant | src/agent_evals/evidence/minimization.py:137-139 | so sorting the accepted paths does not change the redactions |
| EvidenceMinimization.SelectionsApart | src/agent_evals/evidence/minimization.py:130-135 | accepted paths never select the same or nested values in any record |
| EvidenceMinimization.MinimizedIsClean | src/agent_evals/evidence/minimization.py:261-370 | no credential-pattern string is left, credential-named keys hold only the marker, authority-bearing payloads are unchanged, and the credential count is the number of markers |
| EvidenceMinimization.SecondRun | src/agent_evals/evidence/minimization.py:261-370 | a second run gives the same evidence and receipt exactly when no declared path crosses a credential-named member, and is refused otherwise |
| EvidenceMinimization.SecondRunCanBeRefused | src/agent_evals/evidence/minimization.py:282-322 | a record and a policy whose first run succeeds and whose second is refused |
| MinimizationRun.ContainsCredential | src/agent_evals/evidence/minimization.py:529-548 | the early-exit search says no exactly when there is no credential and the budget suffices |
| MinimizationRun.TransformCredentials | src/agent_evals/evidence/minimization.py:454-506 | the recursive pass with its counters computes the transformation, and stops exactly when it is refused or over a ceiling |
| MinimizationRun.RedactDeclaredPath | src/agent_evals/evidence/minimization.py:377-410 | the walk down a path and the replacement compute the redaction, counters included |
| MinimizationRun.RedactPaths | src/agent_evals/evidence/minimization.py:282-322 | the loops over paths and events compute the first phase |
| MinimizationRun.MinimizeEvidence | src/agent_evals/evidence/minimization.py:261-370 | the whole run with its early refusals computes the minimization defined by sums compared once at the end |
| MinimizationMeaning.MinimizedRecord | src/agent_evals/evidence/minimization.py:261-370 | after success every declared value that is present is the operator marker, every other credential is the credential marker, everything else is as it was, and the receipt counts the declared values that were present |
| MinimizationSuccess.MinimizationSucceeds | src/agent_evals/evidence/minimization.py:261-370 | the exact condition on policy and record under which some ceilings let it succeed, and with them all larger ones |
| MinimizationSuccess.DeclaredValueIsRedacted | src/agent_evals/evidence/minimization.py:282-322 | a declared value that is present, and not below a credential-named member, holds the operator marker afterwards |
| McpIdentityDrift.Recorder.ListTools | src/agent_evals/adapters/openai_mcp_tool_identity_drift.py:254-277 | the callback keeps the fields equal to the state that the history of callbacks defines |
| McpIdentityDrift.Recorder.CallTool | src/agent_evals/adapters/openai_mcp_tool_identity_drift.py:291-347 | a call keeps the fields equal to the history, whichever of its requests raises, and its answer is passed on unless a request around the first call raised |
| McpIdentityDrift.Recorder.RequireCompleteRelation | src/agent_evals/adapters/openai_mcp_tool_identity_drift.py:349-434 | acceptance fixes the ordinals 0 to 6 in order exactly when the first discovery preceded the first controlled call |
| McpIdentityDrift.CompleteChronology | src/agent_evals/adapters/openai_mcp_tool_identity_drift.py:254-434 | the same for every run of callbacks |
| McpIdentityDrift.LateDiscoveryIsAccepted | src/agent_evals/adapters/openai_mcp_tool_identity_drift.py:349-434 | a run whose first discovery follows the stale call is accepted |
| McpIdentityMeaning.AcceptanceMeaning | src/agent_evals/adapters/openai_mcp_tool_identity_drift.py:349-434 | a run is accepted exactly the histories that a definition over callbacks accepts: two controlled calls, the first to the original, refused as unknown after a sound swap, the second to the replacement with its fresh result, the listings and boundaries before and after the invalidation showing exactly one and then the other name, no listing showing the control tool |
| McpSchemaDrift.Recorder.ListTools | src/agent_evals/adapters/openai_mcp_tool_schema_drift.py:242-261 | the callback keeps the fields equal to the state that the history defines, also when the listing is ambiguous |
| McpSchemaDrift.Recorder.CallTool | src/agent_evals/adapters/openai_mcp_tool_schema_drift.py:263-309 | a call keeps the fields equal to the history, whichever of its requests raises, and its answer is passed on unless a request around the first call raised |
| McpSchemaDrift.Recorder.RequireCompleteRelation | src/agent_evals/adapters/openai_mcp_tool_schema_drift.py:311-366 | acceptance fixes the ordinals 0 to 6 exactly when the first discovery preceded the first call |
| McpSchemaDrift.CompleteChronology | src/agent_evals/adapters/openai_mcp_tool_schema_drift.py:242-366 | the same for every run of callbacks |
| McpSchemaDrift.LateDiscoveryIsAccepted | src/agent_evals/adapters/openai_mcp_tool_schema_drift.py:311-366 | a run whose first discovery follows the stale call is accepted |
| McpSchemaMeaning.AcceptanceMeaning | src/agent_evals/adapters/openai_mcp_tool_schema_drift.py:311-366 | a run is accepted exactly the histories that a definition over callbacks accepts: the same for a changed schema, with the arguments and answers of both calls |
| McpStaleCache.Recorder.ObserveModelBoundary | src/agent_evals/adapters/openai_mcp_tool_stale_cache.py:272-283 | the observation is recorded as the history defines, and raises exactly when the first boundary after the refresh is refused |
| McpStaleCache.Recorder.CallTool | src/agent_evals/adapters/openai_mcp_tool_stale_cache.py:285-325 | a call keeps the fields equal to the state that the history defines, and its answer is passed on unless a request around the first call raised |
| McpStaleCache.Recorder.RequireCompleteRelation | src/agent_evals/adapters/openai_mcp_tool_stale_cache.py:327-388 | acceptance fixes the ordinals 0 to 5 exactly when the first discovery preceded the first call |
| McpStaleCache.CompleteChronology | src/agent_evals/adapters/openai_mcp_tool_stale_cache.py:251-388 | the same for every run of callbacks |
| McpStaleCache.LateDiscoveryIsAccepted | src/agent_evals/adapters/openai_mcp_tool_stale_cache.py:327-388 | a run whose first discovery follows the stale call is accepted |
| McpStaleMeaning.AcceptanceMeaning | src/agent_evals/adapters/openai_mcp_tool_stale_cache.py:327-388 | a run is accepted exactly the histories that a definition over callbacks accepts: the same for a removed tool, with the rejection that the model sees |
| ScenarioRegistry.CycleSearch.Visit | src/agent_evals/contracts/scenario_registry.py:546-555 | a visit finishes everything below an identity in order, or finds a cycle |
| ScenarioRegistry.RejectPrerequisiteCycles | src/agent_evals/contracts/scenario_registry.py:541-558 | the search ends and accepts exactly the closed graphs that have a topological order, in whatever order it starts |
| ScenarioRegistry.CycleIsNotOrderable | src/agent_evals/contracts/scenario_registry.py:549-550 | a graph with a cycle has no topological order |
| ScenarioRegistry.ValidateReferences | src/agent_evals/contracts/scenario_registry.py:366-387 | accepted exactly when identities and keys are unique, all references are present and the prerequisites can be ordered |
| EvidenceRoots.EvidenceRoot | src/agent_evals/evidence/models.py:183-206 | the loop, with each digest through its hexadecimal text, computes the root |
| EvidenceRoots.HistoricalRoot | src/agent_evals/evidence/legacy_v2.py:117-148 | the second implementation computes its root exactly on readable material |
| EvidenceRoots.HistoricalRootOfDump | src/agent_evals/evidence/legacy_v2.py:117-148 | on the current JSON dump it equals the evidence root |
| EvidenceRoots.ChainBinds | src/agent_evals/evidence/models.py:193-195 | equal chains have equal starts and equal digest lists, lengths included, or exhibit a collision |
| EvidenceRoots.EqualRoots | src/agent_evals/evidence/models.py:183-206 | two envelopes with equal roots are equal, or exhibit a hash collision |
| Hashing.HexRoundTrip | src/agent_evals/evidence/models.py:195 | hexadecimal text gives back the bytes |
| VerificationChain.FromEventDigests | src/agent_evals/verification.py:564-580 | the chain is built exactly on one to 4096 well-formed digests |
| VerificationChain.ValidateChain | src/agent_evals/verification.py:582-595 | a chain validates exactly when it is linked up link by link, from 64 zeros to its final root |
| VerificationChain.ChainMeaning | src/agent_evals/verification.py:564-595 | the chain that is built over some digests is the one linked up in this way |
| VerificationChain.BuildAndValidate | src/agent_evals/verification.py:564-595 | a built chain always validates and carries the digests |
| VerificationChain.FinalRootBinds | src/agent_evals/verification.py:215-222 | equal final roots mean equal digest lists, or a hash collision |
| VerificationChain.VerificationGraphRoot | src/agent_evals/verification.py:419-441 | accepted exactly when roots are unique and every dependency is the root of an earlier fact |
| VerificationChain.GraphRootBinds | src/agent_evals/verification.py:440-441 | equal graph roots mean equal lists of fact roots, or a hash collision |
| BlobStore.Backend.PutIfAbsent | src/agent_evals/evidence/blob_store.py:61-77 | never changes an existing object, creates the whole content when it says so, and after a failure may leave a partial object only under a new key |
| BlobStore.EnvelopeRoundTrip | src/agent_evals/evidence/blob_store.py:225-243 | decoding an envelope gives back the manifest and the stored bytes, newlines in them included |
| BlobStore.CreatedBlobReadsBack | src/agent_evals/evidence/blob_store.py:193-212 | what the store creates reads back as the evidence it was made from |
| BlobStore.WritePrepared | src/agent_evals/evidence/blob_store.py:148-168 | a returned manifest is that of the object under the key, which reads back as this evidence; on a reliable backend the write succeeds exactly when the evidence is within the ceiling and nothing else is under its key |
| BlobStore.ReadBlobMeaning | src/agent_evals/evidence/blob_store.py:170-212 | a read gives an evidence exactly when the object's manifest vouches for it: key, sizes, digest and root agree |
| BlobStore.KeyDeterminesEvidence | src/agent_evals/evidence/blob_store.py:170-212 | two objects that read back under one key are the same evidence, or their bytes collide |
| Replication.CreateBackupSnapshot | src/agent_evals/evidence/replication.py:264-286 | exactly one verified record for each object of the source, and none else; over a reliable source it succeeds exactly when all objects can be recorded |
| Replication.ProbeBackend | src/agent_evals/evidence/replication.py:289-368 | only the sentinel's key can change, and deletion resistance is credited only to a backend that refused and still holds the exact sentinel; on a reliable backend it succeeds exactly when the sentinel can be written |
| Replication.ReplicateSnapshotToTarget | src/agent_evals/evidence/replication.py:444-486 | existing objects stay, only snapshot keys are added, and on success the target holds each exact source envelope; between reliable backends it succeeds when nothing else is under the keys |
| Replication.ReplicateBackup | src/agent_evals/evidence/replication.py:371-441 | a receipt means every target holds each snapshot key with the exact source envelope; no existing non-sentinel object changes in any case; a failed WORM requirement leaves nothing copied; on reliable backends with nothing in the way a well-formed request is met |
| Replication.ReplicaIsOriginal | src/agent_evals/evidence/replication.py:444-486 | for a key that is no sentinel, that is the envelope the source had when replication began |
| Retention.CreatePlan | src/agent_evals/evidence/retention.py:71-85 | the candidates are exactly the stored keys that no reference names; over a reliable backend the exact condition for success |
| Retention.ExecuteGarbageCollection | src/agent_evals/evidence/retention.py:98-122 | without exact confirmation nothing is touched; only unreferenced candidates go; an obedient backend loses exactly the candidates, and a confirmed valid plan succeeds on it |
| Retention.CollectionKeeps | src/agent_evals/evidence/retention.py:71-122 | a plan executed later keeps every referenced key and every key added since |
| Dsse.DecodeEncoded | src/agent_evals/dsse.py:163-185 | type and payload can be read back from the signing bytes, spaces and digits in them included |
| Dsse.EncodingIsInjective | src/agent_evals/dsse.py:163-185 | equal signing bytes come from equal types and payloads |
| Dsse.Utf8Injective | src/agent_evals/dsse.py:423-434 | equal UTF-8 bytes come from equal texts |
| Dsse.Utf8CharMeaning | src/agent_evals/dsse.py:423-434 | the bytes of a character are those of RFC 3629, section 3 |
| Dsse.SameMessageSameBody | src/agent_evals/dsse.py:163-185 | valid envelopes whose signatures are over the same bytes carry the same type and the same payload text, canonical base64 included |
| Dsse.VerifyEnvelope | src/agent_evals/dsse.py:222-283 | it succeeds exactly when type and payload are the expected ones, there are 1 to 256 verifiers with keys, and one accepts some signature; the reported keys are the first to be tried for each signature, each once, in order; each error exactly when its check is the first to fail |
| Dsse.HintsAreIrrelevant | src/agent_evals/dsse.py:261-268 | relabelling the signatures changes nothing about whether an envelope is authentic; which of several accepting keys is reported may change |
| Dsse.SignThenVerify | src/agent_evals/dsse.py:189-219 | a created envelope is authentic for every verifier that accepts what the signer made |
| Dsse.CanonicalMeaning | src/agent_evals/dsse.py:442-461 | the accepted base64 texts are exactly the encodings of byte strings that fit |
| Dsse.CreateEnvelopeMeaning | src/agent_evals/dsse.py:189-219 | the exact condition for an envelope to be created, which then is valid and holds the type, the payload and the one signature over the signing bytes |
| ProviderCanary.RunProviderCanary | src/agent_evals/live_provider.py:176-349 | cost and tokens are those of the valid responses and within the ceiling, the metadata those of the last valid one, the disposition and reason those its last actions decide, every call and pause was due, and it fails only for a bad expectation or a raising transport |
| ProviderCanary.Attempt | src/agent_evals/live_provider.py:199-339 | one attempt ends the run with a correct account and the right reason, no sooner than it has to, or leaves it ready for the next; the overrun branch is unreachable |
| ProviderCanary.CallsAreSeparated | src/agent_evals/live_provider.py:275-303 | a call is followed by another only after a retryable reply, with exactly the pause owed between them, never below the minimum interval and ending before the limit |
| ProviderCanary.CallStartsInTime | src/agent_evals/live_provider.py:199-208 | every call, the first included, has the request timeout and starts after a clock reading below the limit |
| ProviderCanary.SleepWithinWall | src/agent_evals/live_provider.py:393-405 | it sleeps exactly when the pause ends before the limit, and says no only when time is up before or after it |
| ProviderCanary.CostBound | src/agent_evals/live_provider.py:72-77 | a valid response costs between nothing and the worst case |
| ProviderCanary.AttemptsWithinCeiling | src/agent_evals/live_provider.py:63-81 | the worst case of any number of allowed attempts is within the ceiling |
| CanaryMeaning.RefusalMeaning | src/agent_evals/live_provider.py:352-380 | a response is refused for the first of its faults, and only for a fault |
| CanaryMeaning.ReplyMeaning | src/agent_evals/live_provider.py:209-339 | what a reply leads to, and whether it may be retried, by its own content |
| CanaryMeaning.DelayMeaning | src/agent_evals/live_provider.py:282-284 | the pause is the longer of the minimum interval and what the response asks for |
| CanaryMeaning.RatesMeaning | src/agent_evals/live_provider.py:63-85 | the cost is that of the tokens at their rates, and the allowed requests at their interval take a minute |
| CanaryMeaning.RateIsBounded | src/agent_evals/live_provider.py:275-303 | a run that makes as many further calls as are allowed in a minute sleeps at least a minute in between |

## Left out

- ReleaseRemovesOwnLock: the last identity check and the unlink after it are one step.
- LaterReadsReturnTheRecord: each artifact is read in one step, under the byte ceilings of the writers; the chunked read is modelled on its own in `RecordFiles`.
- MinimizeEvidence: replaces values in a tree; in-place mutation of shared Python containers is not modelled, nor that a payload could hold the same container twice.
- PreflightNesting: the number tokens of the grammar are widened to every word of their characters, which includes all numbers.
- RejectPrerequisiteCycles: Python's recursion limit is not modelled.
- ReplicateBackup: nobody but the call itself changes the backends while it runs.
- ValidateOperatorPaths: the final sorting is covered by PathOrderIsIrrelevant instead of being modelled.
- CreateBackupSnapshot: canonical ordering and the roots of snapshots and receipts are not modelled.
- VerifyEnvelope: a verifier is a function of message and signature; one that answers differently from call to call is not modelled.
- Callbacks of the drift recorders are atomic; interleaving inside one callback is not modelled.
- `evidence/hardened_store.py` takes the same steps as `store.py` through directory handles.
- Real input and output: `fsync`, file modes, symbolic links, gzip, subprocesses and the command line.
- Provider SDK plumbing: running agents, cloning, model wrapping, the HTTP adapter, the semantic judge, turn-limit capture.
- Pydantic mechanics, exact-type checks, error texts, Unicode normalisation; credential patterns and key sensitivity are parameters.
- SHA-256 and canonical JSON bytes; floating-point rounding in the canary.
- Receipt and report classes that only recompute a root, typed payload projections and lint rules.
- Release and slice gates and human-approval quorum.
- Statistics, oracles and runtime modules, which are not part of this model.
