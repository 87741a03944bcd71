# Segment Routing Fabric: a model of the segment-list runtime

The runtime keeps *segment lists*: versioned sequences of typed segments, published by fenced workers into a
governed store.  This project models four connected parts of it and proves what they are for.

* **The governed store** is an optimistic two-phase commit.  A mutation reads an evidence watermark and a snapshot,
  captures store state under the lock, validates without it, takes the lock again, rechecks every counter, saves, and
  only then shows the new state.  `SrfProtocol` models it as a transition system: any number of threads, one shared
  access a step, an environment that moves registries, authority and evidence between any two steps, and crashes with
  restart at any point.  `SrfProtocolTheorems` states what holds over all its finite runs.  `SrfStore` is the same
  store as a class, updated in place, every method tied to the functions the transition system uses.  `SrfRevisions`,
  `SrfReplayIdentity` and `SrfAdminEvents` say field by field what a commit, a replay check and an event do, and
  `SrfProtocolRefresh` and `SrfProtocolTables` carry that over all runs.
* **The validator and its twin.**  `SrfValidation` and `SrfReasons` follow the production validator with its quadratic
  scans and bounded sorted reason list; `SrfOracle` follows the oracle with its map of prior indices.
  `SrfOracleAgreement` says exactly when they agree; `SrfValidationExact` says when validation accepts, and
  `SrfValidationReasons` what it names, in terms of records and fields and not of checks.
* **Codecs and integrity.**  `SrfImage*` model the durable image, `SrfWire*` frames, payloads and stream reassembly,
  `SrfCrc` the table-driven CRC-32C (section 12.1 of RFC 3720) down to single bit steps, `SrfCrcDivision` the division
  of polynomials it is, and `SrfLayout` where every field stands.
* **Canonical encoding and equality**, in `SrfCanonical`.

Loops and objects of the source are methods and classes here (`ValidationResult`, `AuthorityTable`, `RegistryTable`,
`SyntheticEvidence`, `ByteWriter`, `ByteReader`, `Encoder`, `MemoryPersistence`, `FrameAssembler`,
`SegmentListStore`, the oracle's passes); each is proved to compute a function, and the properties are lemmas about
those functions.  Digests are an arbitrary function of bytes: nothing rests on their strength.  The state revision is
a natural number; ids, generations and epochs are 64-bit and do not wrap where the source does not let them.

## Where the code says less than its documentation

The model follows the code; the following are stated as lemmas or built into the model.

* The decoder accepts unassigned message ids below 40 (`src/wire.cpp:151-228`, lemma `UnassignedMessages`).
* With `max_reasons` 0 every request is accepted and with 1 the primary reason is lost (`src/reason.cpp:284-310`,
  lemmas `ZeroBoundAcceptsEverything` and `SingleSlotLosesPrimary`).  The run theorems therefore assume `max_reasons`
  and `max_history` of at least 1, and phase precedence 2.
* Publisher liveness and fencing are read at the capture only (`src/store.cpp:590`); `CommitIgnoresFences` says so,
  `FencedWorkerCommits` is a run on which a worker fenced in between commits, and `FencedBeforeCaptureNeverCommits` is
  the guarantee that remains.
* `revalidate` drops the generations of bound paths, routes and constraints (`src/store.cpp:848-858`), so such lists
  never revalidate: `BoundListsNeverRevalidate`.
* `transition` does not look for a replay and overwrites the attempt record (`src/store.cpp:881-887`, `982-985`).
  `EventTakesTheRecord` is a run on which a committed batch is then refused as a mismatch, and `ReplayedExactly` says
  that this happens if and only if such an event landed.
* `register_profile` and `register_policy` save the old revision number and keep the entry when the save fails
  (`src/store.cpp:308-346`): the contract of `RegisterProfile`, and the job `SaveRegistry` of the transition system.
* `max_total_segments` bounds only what a batch adds under new ids (`src/store.cpp:749-762`) and is no invariant:
  `ReplacementEscapes` is a run that leaves it, and `TotalWithinExactly` says when a run does not.
* A revision that needs a topology generation is bound to none when the fabric shows generation 0 at its commit
  (`src/store.cpp:148-153`); a later move of the generation is then seen only in its adjacency records: `TopologyMoveSeen`
  is exact, and `MovesAreSeen` asks for an observed generation.
* Drafts of one batch are validated separately; superseding one lineage twice is refused in mid-loop
  (`LoopRefusesDrafts`), and of two drafts with one id the last remains (`CommitAppliesEveryDraft`).
* The encoder takes a list's width from the profile as it is now, and the record budget of the decoder forgets fenced
  boots (`src/persistence.cpp:588-601`, `769-775`).  `ImageRefused` is a run on which a save is acknowledged and its
  image refused; `ReachableIsWellFormed` says when a reachable state is accepted, and `ReregisteredExactly` what a change
  of width does to a stored one.
* A load whose own save fails leaves the old image on disk, and the next restart takes the same epoch again
  (`src/store.cpp:1217-1222`): `EpochReused`, with `RestartEpochExactly` for when it does not; and a fence that no save
  carried does not survive the process: `FenceForgotten`, with `FencesAcrossRestart` for when it does.
* Six structural codes and one topology code of the oracle are numbered one higher than in production; agreement is on
  names.

## Model

| member | source | states |
|---|---|---|
| `SrfProtocolTheorems.CommitIsAtomic` | src/store.cpp:500-825 | two-phase commit refines an atomic one: whenever a batch commits, under any interleaving of other store operations, registry, epoch, fence and evidence moves, the run passed through a configuration, lock held, with the very lists being replaced, in which resolving, validating and applying the batch in one step gives the committed state up to the copied tables; publishers and fences are those of the capture |
| `SrfProtocolTheorems.CommitAppliesEveryDraft` | src/store.cpp:737-799 | right after any commit of any run, the last draft naming an id is the revision found under that id, or that revision superseded by another draft of the batch |
| `SrfProtocolRefresh.CommittedRevision` | src/store.cpp:133-201 | what is found under that id is, field by field, the revision the draft asks for: its content with the generations of the profile and policy found and the observed topology and capability generations where they are named or needed, the next generation, both digests over all of it, provenance and writer of this caller; active, current, of the next revision, or superseded by another draft of the batch |
| `SrfProtocolTables.SavedExactly` | src/store.cpp:308-360 | what a save writes is the state that then becomes visible, to the last field, except that after a registration it carries the revision of the state before |
| `SrfProtocolTables.CommitCopiesTables` | src/store.cpp:795-810 | profiles, policies, publishers and fences of the state an operation other than a refresh commits are each those in use at some moment of that very operation |
| `SrfProtocolRefresh.MovesAreSeen` | src/store.cpp:1007-1131 | from commit to refresh: a revision with an adjacency, or under a profile that requires a capability, committed while the fabric was at some generation, is no longer active, nor current unless its lineage is finished, once a refresh that saw another generation has ended, whatever happened in between |
| `SrfProtocolRefresh.RefreshShowsEveryMove` | src/store.cpp:1007-1131 | once a refresh ended, with or without a save, every list is finished, or neither current nor active if anything it is bound to has moved in the evidence the refresh copied, though registries and authority moved during the sweep |
| `SrfProtocolTheorems.VisibleAfterDurable` | src/store.cpp:801-825 | in any reachable configuration a step changes the visible state only as the swap of a finished commit, and then the image on disk is already the one of the state that appears |
| `SrfProtocolTheorems.SavedOnlyByCommit` | src/store.cpp:348-360 | the image changes only by a successful save of an operation under way, whose every possible next step makes exactly that state visible |
| `SrfProtocolTheorems.RefusalChangesNothing` | src/store.cpp:697-825 | an operation that ends as anything but committed - refused, replayed, mismatched, save failed, superseding twice - leaves state and image as they were |
| `SrfProtocolTheorems.ReplayIsExact` | src/store.cpp:566-589 | in every configuration after a batch committed, crashes and administrative events included, submitting its attempt again ends at once with no change and no save: as a replay exactly when the draft digest is the one on record, otherwise as a mismatch; on record is the committed digest, or the payload of the last administrative event that landed under the attempt since |
| `SrfProtocolTheorems.ReplayedExactly` | src/store.cpp:881-985 | short of a digest collision the very drafts are replayed if and only if no administrative event landed under their attempt since they committed; a refused event or a failed save does no harm |
| `SrfProtocolTheorems.ResubmissionReachesTheRecord` | src/store.cpp:519-535 | resubmitted drafts are never turned away for their number; only evidence beyond the record limit keeps them from the attempt table, and exactly that does |
| `SrfProtocolTheorems.RecordIsLastLanded` | src/store.cpp:421-459 | over every run the attempt table holds, for every attempt, the payload of the last operation under it that landed, by its swap or by a crash after its save, and nothing when none did |
| `SrfCommitLaws.PayloadsDiffer` | src/store.cpp:259-294 | a batch and an administrative event never put the same bytes through the digest |
| `SrfReplayIdentity.ResubmittedExactly` | src/store.cpp:566-589 | short of a digest collision, a batch under the attempt of a committed one is answered as a replay if and only if it asks for the same, draft by draft, and no administrative event landed under the attempt since; in every other case as a mismatch |
| `SrfReplayIdentity.BatchDigestExactly` | src/store.cpp:537-548 | short of a collision, two batches have one digest exactly when they have equally many drafts that pairwise ask for the same |
| `SrfReplayIdentity.EventBytesExactly` | src/store.cpp:909-985 | an administrative event stands for its list, scope and expected generation, and nothing else |
| `SrfReplayIdentity.DraftBytesExactly` | src/store.cpp:259-292 | two drafts give the same bytes to the replay check exactly when all nineteen scalar fields agree, their longest payloads are equally long, and their segments are equally many and pairwise the same up to zero padding to that length |
| `SrfProtocolWitness.EventTakesTheRecord` | src/store.cpp:982-985 | a run from the initial state on which a list is created, revoked under the same attempt, and its creation resubmitted: a mismatch |
| `SrfProtocolTheorems.AttemptsOverRuns` | src/store.cpp:421-459 | over every run no attempt id is ever forgotten, and short of an administrative event that lands under the same id its payload never changes |
| `SrfProtocolTheorems.LineagesOverRuns` | src/store.cpp:500-1223 | over every run, crashes included: lists are never dropped or reordered, an (id, generation) has one content and one pair of digests for ever, closed lineages stay closed at their generation, and a list becomes active only together with a higher generation |
| `SrfProtocolTheorems.OnlyBatchesRaiseGenerations` | src/store.cpp:668-680 | a step moves a generation by at most one, and raises or activates only as a batch commit on a lineage that was open |
| `SrfProtocolTheorems.HistoryOverRuns` | src/store.cpp:461-481 | over every run the retained history is the last max_history entries of one log with consecutive ids, of which every earlier history was a part |
| `SrfProtocolTheorems.BoundsOverRuns` | src/store.cpp:439-449 | in every reachable state the list, attempt and history tables are within their bounds, list ids are unique and Active implies currentness Current |
| `SrfSegmentBudget.TotalWithinExactly` | src/store.cpp:749-762 | over every run, crashes included, the number of segments is within max_total_segments in every state if and only if no batch that lands has a projection beyond it: segments before, plus those of the drafts, less those each draft finds under its id |
| `SrfSegmentBudget.BatchSegments` | src/store.cpp:749-799 | an applied batch leaves exactly the projected number of segments, replacements, repeated ids and superseded lineages included |
| `SrfSegmentBudget.CreationsStayWithin` | src/store.cpp:749-762 | a batch of nothing but creations is never applied beyond the bound |
| `SrfProtocolWitness.ReplacementEscapes` | src/store.cpp:749-762 | a run from the initial state, two validated commits long, that ends with two segments where one is allowed |
| `SrfProtocolWitness.WithdrawnInTwoEvents` | src/store.cpp:866-1004 | a run from the initial state on which a list is created, its withdrawal begun and then committed, and which ends with the list withdrawn |
| `SrfProtocolProgress.UndisturbedCommits` | src/store.cpp:500-825 | from the end of any run in which nobody else holds the lock, a batch of admissible drafts, with no record and room for one, has a run to its commit, and what becomes visible is the atomic batch with the tables stamped on |
| `SrfProtocolTheorems.FencedBeforeCaptureNeverCommits` | src/store.cpp:590-600 | a mutation whose boot was fenced before its capture read the fences never reaches a save and never ends committed, whatever runs in between |
| `SrfProtocolTheorems.CommitIgnoresFences` | src/store.cpp:697-735 | after the capture the fences are never looked at again: with any other publisher table and fences every later step decides the same and leads to the same state up to the copied tables |
| `SrfProtocolProgress.LateFenceCommits` | src/store.cpp:590-735 | every batch that could commit also has a run on which its boot is fenced after the capture and before validation, and on which it commits all the same |
| `SrfProtocolWitness.FencedWorkerCommits` | src/store.cpp:590-735 | such a run from the initial state |
| `SrfProtocolTheorems.FencesOverRuns` | src/authority.cpp:33-159 | between restarts fences are never lifted, the epoch never goes down, a publisher keeps its boot, and a publisher once fenced stays fenced, not alive, with its boot in the fenced set |
| `SrfProtocolEpochs.FencesAcrossRestart` | src/store.cpp:1169-1186 | after a crash anywhere in a run a boot is fenced if and only if the image on disk knows it, as fenced or as a publisher's |
| `SrfProtocolEpochs.FenceLost` | src/authority.cpp:137-154 | from the end of any run, any boot the image on disk does not know can be fenced, and a crash then frees it again |
| `SrfProtocolWitness.FenceForgotten` | src/authority.cpp:137-154 | such a run from the initial state |
| `SrfProtocolEpochs.RestartEpochExactly` | src/store.cpp:1147-1162 | after a crash anywhere in a run the new epoch exceeds the one of the process that died if and only if the image on disk carries that very epoch |
| `SrfProtocolEpochs.EpochReused` | src/store.cpp:1217-1222 | a run on which two processes in a row work under the same epoch: the first cannot save what it loaded and dies |
| `SrfProtocolTheorems.RecoveryAfterCrash` | src/store.cpp:1133-1223 | after a crash at any step followed by a load, every acknowledged revision is there with the same id, generation, content and digests (at most one commit that was saved but not acknowledged on top), nothing is Active, the new epoch exceeds every recovered writer epoch, every writer boot is fenced and no publisher is alive |
| `SrfProtocolRuns.RunsKeepInv` | src/store.cpp:500-1223 | the invariant behind all of these holds in every configuration of every run |
| `SrfProtocolSteps.CommitIsAtomicStep` | src/store.cpp:697-735 | the moved-counter arguments: once the watermark check passed, what was captured is what is there |
| `SrfCommitLaws.BatchLaws` | src/store.cpp:737-799 | a validated batch takes a good state to a good state one revision later, every lineage by at most one step, writes nothing but in its caller's name, and the attempt table afterwards is the one before with its payload under its attempt |
| `SrfCommitLaws.BatchInstalls` | src/store.cpp:755-799 | every draft of an applied batch is installed, generation not wrapped, unless a later draft names the same id |
| `SrfCommitLaws.EveryDraftApplied` | src/store.cpp:755-799 | the same for any prefix of the loop over prepared mutations |
| `SrfAdmission.LoopRefusesDrafts` | src/store.cpp:764-799 | for validated drafts the loop refuses the batch if and only if two of them supersede one list and none from the first of them on, before the second, puts a new revision in its place |
| `SrfAdmission.LoopRefusesExactly` | src/store.cpp:764-799 | the same for any prepared mutations and any lists: refused exactly when some mutation supersedes a list that refuses by the time its turn comes |
| `SrfAdmission.AtomicBatchExactly` | src/store.cpp:500-825 | the atomic batch exists if and only if every draft validates, there is room for what goes under new ids, and no list is superseded twice |
| `SrfCommitLaws.AppendIsHistoryStep` | src/store.cpp:461-481 | an append keeps ids consecutive, drops only from the front and only what does not fit, and records the list unless ids are exhausted |
| `SrfCommitLaws.RecordLaws` | src/store.cpp:421-437 | recording an attempt sets its payload, no other's, and keeps attempts unique |
| `SrfCommitLaws.TransitionLaws` | src/store.cpp:866-1004 | an administrative event takes the named list to the state the table gives, as the same revision, leaves every other list as it was, puts the digest of its own draft on record under its attempt, when it has one, and leaves every other record alone |
| `SrfAdminEvents.EventOutcome` | src/store.cpp:866-1004 | an event is refused exactly when the list is missing, has another generation or is in a state outside those written out for the event; otherwise a begun withdrawal ends in Withdrawing, a committed one in Withdrawn, a revocation in Revoked and a retirement in Retired, with unknown currentness, the caller as writer, the next revision number and nothing else of the list changed, and no other list touched |
| `SrfAdminEvents.WithdrawThenCommit` | src/store.cpp:866-1004 | after a begun withdrawal the list is Withdrawing and its withdrawal may be committed, after which it is Withdrawn |
| `SrfAdminEvents.EventWritten` | src/store.cpp:970-1004 | an event ends the history with an entry that tells of the list as it now is, and puts list, generation and its own payload on record under its attempt |
| `SrfStoreLaws.ValidatedIsCurrent` | src/store.cpp:1007-1131 | two separately written predicates agree: whatever full validation accepts, refresh finds current and leaves alone as long as evidence, registry and epoch are those validated and the boot is not fenced |
| `SrfStoreLaws.RefreshDetectsEveryMove` | src/store.cpp:1007-1131 | whatever an unskipped list was bound to and has moved, refresh makes it neither current nor active |
| `SrfStoreLaws.RefreshIdempotent` | src/store.cpp:1007-1131 | a second refresh with nothing moved changes nothing and does not bump the revision |
| `SrfStoreLaws.RefreshIsLineageStep` | src/store.cpp:1007-1131 | refresh never touches a revision or a writer, never activates and never reopens |
| `SrfRevisions.RevisionMade` | src/store.cpp:133-201 | a valid draft becomes exactly the revision described, every field of content, lineage, writer and provenance named |
| `SrfRevisions.ContentBytesExactly` | src/canonical.cpp:86-112 | at one width, two contents give the same bytes to the content digest exactly when every field agrees and the segments are pairwise semantically equal |
| `SrfRevisions.RecheckExactly` | src/store.cpp:1042-1105 | the recheck names the first dependency that moved in the order fence, profile, policy, capability, topology, path, route, constraint, epoch, each defined by the records alone, and is current exactly when none moved |
| `SrfRevisions.RefreshedExactly` | src/store.cpp:1019-1118 | refresh leaves finished lists alone, gives any other the currentness of the recheck, and turns an active one to RevalidationRequired exactly when something moved |
| `SrfRevisions.RevisionShowsMoves` | src/store.cpp:1042-1105 | a new revision with an adjacency or a required capability, refreshed under another topology or capability generation than the observed one, is not current and needs revalidation |
| `SrfRevisions.TopologyMoveSeen` | src/store.cpp:148-158 | of a new revision the first refresh after a move of the topology generation alone sees that move if and only if the draft names a topology or holds an adjacency and the observed generation was not zero |
| `SrfRevisions.RecoveredExactly` | src/store.cpp:1196-1207 | a restart gives up half-done validations, completes half-done withdrawals, makes active lists wait for revalidation and changes nothing else of a list |
| `SrfRevisions.RestartExactly` | src/store.cpp:1133-1216 | from an image without repeated entries a restart has the same tables, history and attempts, one epoch and one revision later, every publisher dead, and every list recovered; it is refused exactly when the epoch is exhausted |
| `SrfRevisions.SupersedeExactly` | src/store.cpp:766-781 | marking a superseded list is refused exactly in the states Superseded, Revoked and Retired; otherwise that list becomes Superseded, of unknown currentness, names its heir and is told of in the history, and no other list changes |
| `SrfRevisions.InstallExactly` | src/store.cpp:782-792 | a new revision stands where the old one stood or at the end, no other list changes, and the history ends with the old one as superseded and then the new one |
| `SrfRevisions.AppliedRecord` | src/store.cpp:793 | every applied mutation puts its list, the new generation and the payload of the batch on record under the attempt, and nothing else |
| `SrfRevisions.AppendedExactly` | src/store.cpp:461-481 | an appended entry carries id, generation, state, currentness and content digest of the list and the next revision number, and the next id |
| `SrfStoreLaws.AcceptedCaller` | src/validation.cpp:12-70 | a validated draft has a known, live, unfenced publisher on its own boot, in the captured epoch, and an attempt id |
| `SrfStoreLaws.AcceptedExisting` | src/validation.cpp:72-116 | a validated draft replaces an open revision of exactly the expected generation, or creates where nothing is |
| `SrfStoreLaws.AcceptedSuperseded` | src/store.cpp:614-667 | what a validated draft supersedes exists, has the named generation and may still be superseded |
| `SrfStoreLaws.AcceptedPolicy` | src/validation.cpp:194-269 | a validated draft that names a policy found it and obeys it |
| `SrfValidationLaws.PolicyExactly` | src/validation.cpp:194-269 | the policy phase is silent exactly when there is no policy or every required entity is present, no forbidden one is, every kind is in the mask and owner, profile, depth, change and strictness suit it |
| `SrfValidationLaws.EarliestDefectDominates` | src/validation.cpp:599-622 | with max_reasons at least 2 the primary phase is that of the first defect and no defect of the request lies in an earlier phase, truncated or not |
| `SrfValidationLaws.RequestOrdered` | src/validation.cpp:599-622 | the checks of a request run in ascending phase order and none uses the limit marker |
| `SrfValidationLaws.AcceptedExactly` | src/validation.cpp:599-622 | with max_reasons at least 1 a request is accepted exactly when no check fails; with 0 always |
| `SrfValidationExact.DraftValidExactly` | src/store.cpp:614-667 | a batch takes a draft if and only if, in terms of captured authority, evidence and look-ups alone: the writer is on record for its boot and scope, alive and unfenced, in the present epoch; the lineage and what it supersedes are as expected; profile and policy admit the sequence; every segment names exactly what its kind is about and is on record; and capabilities, topology, path, route, constraint and sizes stand |
| `SrfValidationExact.AcceptedEntities` | src/validation.cpp:366-400 | every segment of an accepted draft has a record under its id with its kind and generation, and every node, endpoint, binding and adjacency it names is on record, the adjacency at its topology generation |
| `SrfValidationExact.AcceptedWhenStanding` | src/validation.cpp:599-622 | with max_reasons at least 1 a request, full or not, is accepted if and only if it stands in the same terms |
| `SrfValidationExact.SequenceAcceptedWhenStanding` | src/validation.cpp:624-645 | the same for a bare sequence: profile, structure, capabilities, topology and sizes decide, and nothing else |
| `SrfValidationExact.EventValidExactly` | src/store.cpp:866-960 | an administrative event validates if and only if writer and epoch stand and the list has the expected generation, not the last one, in a state with a rule for the event |
| `SrfValidationExact.ShapesExactly` | src/store.cpp:827-864 | what creation, replacement, revalidation and batch each expect of the lineage |
| `SrfValidationExact.ResolvedExactly` | src/store.cpp:601-660 | the look-ups of a draft find the first list, profile and policy under the ids it names |
| `SrfValidationExact.StructureExactly` | src/validation.cpp:271-419 | the structural phase is silent if and only if every scanned segment has the shape of its kind and is known to the evidence, if there is any, and no forbidden repeat stands |
| `SrfValidationExact.ProfileExactly` | src/validation.cpp:125-192 | the profile phase is silent if and only if the profile was found, is the one named, and admits length, kinds, payloads, strictness and repeats |
| `SrfValidationExact.CapabilitiesExactly` | src/validation.cpp:421-451 | the capability phase is silent if and only if every required key is on record, supported and of the generation of the fabric |
| `SrfValidationExact.TopologyExactly` | src/validation.cpp:453-485 | the topology phase is silent if and only if the bound generation is the fabric's and every adjacency is on record at its generation; and which reasons it gives |
| `SrfValidationExact.PathExactly` | src/validation.cpp:487-511 | the same for the path and its authority and scope, with its reasons |
| `SrfValidationExact.RouteExactly` | src/validation.cpp:513-534 | the same for the route, its generation and its list, with its reasons |
| `SrfValidationExact.ConstraintExactly` | src/validation.cpp:536-554 | the same for the constraint and its generation, with its reasons |
| `SrfValidationExact.MaskExactly` | src/profile.cpp:9-14 | a mask admits kind number n by its bit n - 1 |
| `SrfValidationReasons.ReasonsExactly` | src/validation.cpp:12-622 | a rejection that was not cut short names exactly the findings of the request, each written out by code, index and detail from the records, in strict order |
| `SrfValidationReasons.DraftReasonsExactly` | src/store.cpp:614-667 | the same for a draft, with the findings about what it supersedes |
| `SrfReasons.CollectExact` | src/reason.cpp:272-310 | untruncated, the list is the (phase, code, index, detail)-sorted duplicate-free set of everything added |
| `SrfReasons.LessExactly` | include/srf/reason.hpp:267-275 | reasons are ordered by phase, then code, then index, then detail |
| `SrfReasons.CollectOrderIrrelevant` | src/reason.cpp:272-310 | untruncated, the order of adds does not matter |
| `SrfReasons.CollectBounded` | src/reason.cpp:284-310 | the list is within its bound and strictly sorted, truncated or not |
| `SrfReasons.TruncatedExactly` | src/reason.cpp:284-310 | truncation happens exactly when an add meets max_reasons distinct earlier ones - a duplicate add included |
| `SrfReasons.LimitMarkerOnlyWhenTruncated` | src/reason.cpp:284-310 | every entry comes from a failed check, except the limit marker, which stands only in truncated lists |
| `SrfReasons.PrimaryPhaseEarliest` | src/reason.cpp:331-348 | with a bound of at least 2 the primary reason is in the earliest failing phase |
| `SrfReasons.SingleSlotLosesPrimary` | src/reason.cpp:284-310 | with a bound of 1 a second failure leaves nothing but the limit marker |
| `SrfReasons.ZeroBoundAcceptsEverything` | src/reason.cpp:284-310 | with a bound of 0 no failure registers |
| `SrfReasons.SortUniqueMeaning` | src/reason.cpp:272-282 | sorting and deduplicating keeps exactly the members, strictly ascending |
| `SrfReasons.ValidationResult.SortAndDedup` | src/reason.cpp:272-282 | leaves the sorted duplicate-free list |
| `SrfReasons.ValidationResult.Add` | src/reason.cpp:284-310 | one add, as the bounded list defines it |
| `SrfReasons.ValidationResult.Absorb` | src/reason.cpp:312-330 | adds the other result's reasons in order and inherits its truncation |
| `SrfValidation.ValidateRequest` | src/validation.cpp:599-622 | reports the bounded list of exactly the checks that apply, all thirteen groups or the first three |
| `SrfValidation.ValidateSegmentSequence` | src/validation.cpp:624-645 | the same for a bare sequence |
| `SrfValidation.CheckProfile` | src/validation.cpp:124-192 | appends exactly the profile findings, quadratic repeat scan included |
| `SrfValidation.CheckPolicy` | src/validation.cpp:194-269 | appends exactly the policy findings |
| `SrfValidation.CheckStructural` | src/validation.cpp:271-419 | appends exactly the per-segment and duplicate findings of the scanned prefix |
| `SrfValidation.CheckCapability` | src/validation.cpp:421-451 | appends exactly the capability findings |
| `SrfValidation.CheckTopology` | src/validation.cpp:453-485 | appends exactly the topology findings |
| `SrfValidation.CheckResourceLimits` | src/validation.cpp:556-569 | appends exactly the resource findings |
| `SrfOracleAgreement.OracleAgreesExactly` | oracle/oracle_main.cpp:613-753 | both validators, given the same sequence and profile and no evidence, untruncated, report the same ordered (phase, code, index) list if and only if the request is in the joint scope |
| `SrfOracleAgreement.ScopeWithinWidth` | src/validation.cpp:124-192 | with payloads within the width the joint scope is: width at least 1, profile generation set, empty only if allowed, every real segment bound to something, no repeat the profile permits, adjacency not only beyond the scanned prefix |
| `SrfOracleAgreement.SameCanonicalBytes` | oracle/oracle_main.cpp:773-808 | whenever the oracle emits canonical bytes, whatever the payload lengths, they are the production ones |
| `SrfOracleAgreement.CanonEqual` | oracle/oracle_main.cpp:550-576 | trimmed canonical segments are identical exactly when fields and the payload bytes within the width agree |
| `SrfOracleAgreement.SemanticIsCanon` | src/segment.cpp:84-90 | semantic equality is the oracle's identity of payloads that fit the width |
| `SrfOracleAgreement.ProductionReported` | src/validation.cpp:118-192 | every (code, index) of a declarative table of sequence defects is reported by the production checks |
| `SrfOracleAgreement.ProductionAllowed` | src/validation.cpp:271-419 | the production checks report nothing outside that table |
| `SrfOracleAgreement.OracleNamed` | oracle/oracle_main.cpp:613-753 | every (code, index) of the oracle's table is reported by it |
| `SrfOracleAgreement.OracleAllAllowed` | oracle/oracle_main.cpp:613-753 | the oracle reports nothing outside its table |
| `SrfOracle.FindDuplicates` | oracle/oracle_main.cpp:584-602 | one pass with a map of prior indices decides, at every index, whether the previous and whether any earlier canonical segment is equal |
| `SrfOracle.Canonicalize` | oracle/oracle_main.cpp:550-576 | fills encodings in, cuts payloads to the width and drops trailing zeros |
| `SrfOracle.CheckScenario` | oracle/oracle_main.cpp:613-753 | collects, sorts and deduplicates the oracle's findings |
| `SrfOracle.EncodeSequence` | oracle/oracle_main.cpp:773-808 | emits the oracle's bytes or refuses an over-large sequence |
| `SrfCanonical.SequenceBytesInjective` | src/canonical.cpp:73-83 | for payloads within the width two canonicalized sequences encode alike exactly when they are equally long and pairwise semantically equal in order |
| `SrfLayout.CanonicalSegmentLayout` | src/canonical.cpp:14-41 | every field of a canonical segment by offset, its payload filled up with zeros |
| `SrfLayout.SequenceLayout` | src/canonical.cpp:73-84 | number and count of a canonical sequence, then its segments |
| `SrfLayout.ContentLayout` | src/canonical.cpp:86-112 | every field of a canonical content by offset |
| `SrfLayout.DraftHeadLayout` | src/store.cpp:259-285 | every field of a draft's replay bytes by offset |
| `SrfLayout.DraftSegmentLayout` | src/store.cpp:286-292 | and its segments behind them |
| `SrfLayout.BatchLayout` | src/store.cpp:537-548 | what goes into the digest of a batch: a number and the digests of its drafts in order |
| `SrfCanonical.EqualityAgrees` | src/segment.cpp:59-90 | operator== and semantic equality agree at every width covering both payloads, and below it nothing is semantically equal |
| `SrfCanonical.SegmentTokensMeaning` | src/canonical.cpp:14-40 | two canonical segments produce the same fields exactly when the segments are semantically equal |
| `SrfCanonical.CanonicalPayloadEqual` | src/canonical.cpp:43-56 | decides equality under zero padding, over-wide payloads equal to nothing |
| `SrfCanonical.CanonicalSequenceBytes` | src/canonical.cpp:73-83 | writes the canonical bytes |
| `SrfCanonical.CanonicalizeSegments` | src/validation.cpp:589-597 | fills in missing encodings, in a copy |
| `SrfBytes.FlatInjective` | include/srf/bytes.hpp:19-64 | fields of the same shape that flatten to the same bytes are the same fields |
| `SrfBytes.ByteWriter.PutNum` | include/srf/bytes.hpp:19-64 | appends the little-endian bytes of its value |
| `SrfBytes.ByteReader.GetNum` | include/srf/bytes.hpp:66-113 | reads back a little-endian number, or fails for good without moving on |
| `SrfBytes.UnLEofLE` | include/srf/bytes.hpp:19-113 | reading back what was written gives the value |
| `SrfLayout.LEMeaning` | include/srf/bytes.hpp:19-64 | byte i of a written number is the number divided by 256 to the i, modulo 256 |
| `SrfCrc.TableStep` | src/digest.cpp:26-43 | a look-up and a shift are eight bit steps of the polynomial division |
| `SrfCrc.StepsInjective` | src/digest.cpp:26-43 | any number of bit steps is injective in the register |
| `SrfCrc.BurstDetected` | src/digest.cpp:78-89 | equally long strings that differ only within four consecutive bytes have different checksums, for any seed |
| `SrfCrc.ByteChangeDetected` | src/digest.cpp:87-89 | a changed byte changes the checksum |
| `SrfCrc.MakeTable` | src/digest.cpp:26-43 | entry i is eight bit steps from i |
| `SrfCrcDivision.ChecksumIsRemainder` | src/digest.cpp:26-89 | for every message the checksum, lowest bit first, is the complement of the remainder that school division of the message times x^32, its first 32 coefficients complemented, by the generator of section 12.1 of RFC 3720 leaves over the two-element field |
| `SrfCrcDivision.PolyIsGenerator` | src/digest.cpp:28 | the constant of the register is that generator without its highest term, lowest bit first |
| `SrfCrcDivision.CheckValue` | src/digest.cpp:26-89 | the checksum of the characters "123456789" is 0xE3069283 |
| `SrfCrc.ExtendCrc` | src/digest.cpp:78-85 | the table-driven loop computes the bitwise checksum |
| `SrfImage.ReloadExactly` | src/persistence.cpp:529-958 | for every state whose counters and lengths fit their fields, decoding what was encoded gives that very state when it is well formed and nothing otherwise |
| `SrfImageRoundTrip.ReadBackExactly` | src/persistence.cpp:529-958 | for every state whatever, decoding what was encoded gives that very state if and only if it is well formed and everything in it fits its fixed-width field |
| `SrfImage.ImageByteChangeRejected` | src/persistence.cpp:709-768 | any accepted image with any one byte changed is refused |
| `SrfImage.RecordsBack` | src/persistence.cpp:769-958 | parsing concatenated records applies them one after the other and counts them |
| `SrfImage.TablesBack` | src/persistence.cpp:769-958 | the records of the seven tables rebuild the state exactly when every entry is acceptable and nothing is there twice |
| `SrfImageRecords.SegmentBack` | src/persistence.cpp:164-202 | a segment record whose payload length fits its field reads back as itself, or as nothing when its kind, encoding or payload is refused |
| `SrfImageRecords.SegmentBackExactly` | src/persistence.cpp:60-74 | any segment reads back as itself if and only if it is acceptable and its payload length fits its field |
| `SrfImageRecords.SegmentForth` | src/persistence.cpp:164-202 | an accepted segment record re-encodes to its own bytes |
| `SrfImageRecords.ProfileBack` | src/persistence.cpp:204-248 | profile records, likewise |
| `SrfImageRecords.PolicyBack` | src/persistence.cpp:250-312 | policy records, likewise |
| `SrfImageRecords.ListBack` | src/persistence.cpp:314-461 | list records, likewise: digests recomputed at the width the record carries, active only if current |
| `SrfImageRecords.HistoryBack` | src/persistence.cpp:463-489 | history records, likewise |
| `SrfImageRecords.AttemptBack` | src/persistence.cpp:491-506 | attempt records, likewise |
| `SrfImageRecords.PublisherBack` | src/persistence.cpp:508-525 | publisher records, likewise |
| `SrfLayout.ImageLayout` | src/persistence.cpp:689-707 | the magic SRFL, format version 1, sizes, records and both checksums stand at fixed offsets, numbers least significant byte first |
| `SrfLayout.RecordKinds` | src/persistence.cpp:529-688 | record kinds 1 to 8 and their order in an image |
| `SrfLayout.RecordLayout` | src/persistence.cpp:529-560 | kind, size and body of a record |
| `SrfLayout.SegmentLayout` | src/persistence.cpp:60-74 | every field of a segment record by offset |
| `SrfLayout.ProfileLayout` | src/persistence.cpp:542-561 | every field of a profile record by offset |
| `SrfLayout.PolicyLayout` | src/persistence.cpp:562-585 | every field of a policy record by offset |
| `SrfLayout.ListLayout` | src/persistence.cpp:586-651 | every field of a list record by offset |
| `SrfLayout.HistoryLayout` | src/persistence.cpp:652-663 | every field of a history record by offset |
| `SrfLayout.AttemptLayout` | src/persistence.cpp:664-673 | every field of an attempt record by offset |
| `SrfLayout.PublisherLayout` | src/persistence.cpp:674-683 | every field of a publisher record by offset |
| `SrfLayout.MetaAndBootLayout` | src/persistence.cpp:536-541 | epoch and revision, and a fenced boot |
| `SrfLayout.WidthWritten` | src/persistence.cpp:588-601 | a list is written at the width of the registered profile, or without one at its longest payload, if that fits the field, and otherwise at 1 |
| `SrfLayout.Numbering` | include/srf/lifecycle.hpp:12-90 | kinds, encodings and currentness are numbered from zero in the order of declaration, states and events from one |
| `SrfImageCodec.EncodeState` | src/persistence.cpp:529-707 | the encoder loops produce the image of the model, or refuse an over-large record |
| `SrfImageCodec.DecodeState` | src/persistence.cpp:709-958 | the decoder loop returns what the model decodes |
| `SrfImageCodec.OpenFrame` | src/persistence.cpp:716-768 | takes exactly the sound frames apart |
| `SrfImageCodec.Encoder.Emit` | src/persistence.cpp:43-57 | appends one framed record, or fails for good when it is too large |
| `SrfImageCodec.MemoryPersistence.Save` | src/persistence.cpp:1060-1078 | replaces the image as a whole or leaves it as it is, and says which |
| `SrfImageCodec.MemoryPersistence.Load` | src/persistence.cpp:1080-1099 | empty, refused, or the decoded image |
| `SrfImageCodec.SavedIsLoaded` | src/persistence.cpp:1060-1099 | a saved state loads as itself when well formed and as a refusal otherwise, never as another state |
| `SrfReachable.ReachableIsWellFormed` | src/persistence.cpp:588-775 | in every run a reachable state, and every image ever saved, is well formed if and only if its profiles and policies are within the decoder's caps, its record sizes within the limits, its record count, fenced boots included, within the budget, and the digests of every list are those of the width its profile has now |
| `SrfReachable.KeptWidthsSuffice` | src/persistence.cpp:588-601 | in every run in which profile widths never change those digests always match, so caps and limits alone decide |
| `SrfImageWitness.ImageRefused` | src/persistence.cpp:769-775 | a run from the initial state on which sixty boots are fenced, the store is saved with success, and the saved image is then refused by every load |
| `SrfReregistration.ReregisteredExactly` | src/persistence.cpp:588-601 | registering a profile again, at whatever width, leaves a well-formed state well formed if and only if the entry is within the caps and every list of that profile may be written at the new width with both digests agreeing at the two widths |
| `SrfReregistration.WidthShows` | src/canonical.cpp:85-111 | the content bytes of a list are the same at two widths only if the widths are, so a width change goes unnoticed only if the digest collides |
| `SrfWire.FrameBack` | src/wire.cpp:124-228 | decoding an encoded frame gives that frame, or nothing when version, flags or message id are not accepted |
| `SrfLayout.FrameLayout` | src/wire.cpp:124-149 | the magic SRFW, version, message, flags, size, request id, both checksums and the payload stand at fixed offsets, numbers least significant byte first |
| `SrfLayout.FrameConstants` | src/wire.cpp:151-228 | the decoder takes version 1, no flags and message numbers 1 to 40 |
| `SrfWire.FrameForth` | src/wire.cpp:151-228 | every accepted byte string is the encoding of the frame it decodes to |
| `SrfWire.FrameByteChangeRejected` | src/wire.cpp:154-220 | any accepted frame with any one byte changed is refused |
| `SrfWire.UnassignedMessages` | src/wire.cpp:151-228 | an encodable frame with an unassigned message id is accepted exactly when the id is below the last one |
| `SrfWire.ReadFrame` | src/wire.cpp:151-228 | the check-by-check decoder computes the decoding of the model |
| `SrfWire.DrainConserves` | src/wire.cpp:237-277 | what was buffered is the encodings of the frames taken followed by what is still buffered |
| `SrfWire.ChunkingIrrelevant` | src/wire.cpp:230-277 | any cutting of a stream, drained after every chunk, delivers the same frames in the same order, is poisoned or not alike, and otherwise leaves the same bytes |
| `SrfWire.StreamDelivers` | src/wire.cpp:230-277 | a stream of encoded acceptable frames delivers those frames and leaves nothing |
| `SrfWire.DrainedIsSmall` | src/wire.cpp:237-277 | after a drain an unpoisoned buffer is shorter than header, maximal payload and trailer together |
| `SrfWire.FrameAssembler.FeedBytes` | src/wire.cpp:230-235 | appends unless poisoned, keeping bytes in equal to frames out plus buffer |
| `SrfWire.FrameAssembler.NextFrame` | src/wire.cpp:237-277 | hands out the front frame, waits, or is poisoned for good, keeping bytes in equal to frames out plus buffer |
| `SrfWire.FrameAssembler.DrainFrames` | src/wire.cpp:237-277 | hands out every frame there is, in order |
| `SrfWirePayloads.MutationBack` | src/wire.cpp:370-482 | decoding an encoded mutation whose payload lengths fit gives it back, or nothing when a segment has no kind or too long a payload |
| `SrfLayout.MutationLayout` | src/wire.cpp:370-404 | every field of a mutation payload by offset |
| `SrfWirePayloads.MutationBackExactly` | src/wire.cpp:370-482 | any encoded mutation reads back as itself if and only if its segments are acceptable and their payload lengths fit |
| `SrfWirePayloads.MutationForth` | src/wire.cpp:406-482 | every accepted mutation payload re-encodes to itself |
| `SrfWirePayloads.WriteMutation` | src/wire.cpp:370-404 | the encoder produces the mutation bytes field after field |
| `SrfWirePayloads.ResponseBack` | src/wire.cpp:559-713 | decoding an encoded response gives it back, or nothing when it has too many reasons or an unknown status |
| `SrfLayout.ResponseLayout` | src/wire.cpp:559-597 | every field of a response by offset |
| `SrfLayout.ResponseParts` | src/wire.cpp:559-597 | every field of a reason and of a summary by offset |
| `SrfWirePayloads.ResponseForth` | src/wire.cpp:599-713 | every accepted response payload re-encodes to itself |
| `SrfRevalidation.RevalidationKeepsContent` | src/store.cpp:835-864 | a successful revalidation is the next generation with id, scope, profile, policy, strictness and segments unchanged, active and current, of exactly the generation read |
| `SrfRevalidation.RevalidatesExactly` | src/store.cpp:835-864 | a list can be revalidated if and only if it is bound to no path, route or constraint, active or waiting for it, at the expected generation if one is named, and its content stands against the present profile, policy and fabric |
| `SrfRevalidation.BoundListsNeverRevalidate` | src/store.cpp:848-858 | a list bound to a path, route or constraint never passes revalidation, whatever the evidence |
| `SrfRevalidation.CommittedIsCanonical` | src/store.cpp:133-200 | committed revisions hold canonicalized segments |
| `SrfRecovery.RestartFences` | src/authority.cpp:196-212 | after a restart a boot is fenced exactly when it was on record, and no publisher is alive |
| `SrfRecovery.RestartIsLoad` | src/store.cpp:1133-1223 | the restart of the transition system is a load into a fresh store |
| `SrfRecovery.LoadRaisesAndFences` | src/store.cpp:1133-1223 | whatever the store held before, a load raises the epoch above the authority's and the image's, lifts no fence, fences exactly the boots of the image besides, leaves no recorded publisher alive and no list active, and keeps every revision |
| `SrfRecovery.RecoverIsClosedStep` | src/lifecycle.cpp:25-64 | recovery keeps revision and writer, never leaves a list active, never reopens, and is idempotent |
| `SrfRecovery.RestoredProfiles` | src/registry.cpp:191-200 | restoring a table without repeated ids gives that table |
| `SrfRecovery.RestoredPolicies` | src/store.cpp:1163-1168 | the same for policies |
| `SrfRecovery.PublishersReturnDead` | src/store.cpp:1169-1186 | publishers come back as recorded, but fenced and not alive |
| `SrfLifecycle.ClosedIsAbsorbing` | src/lifecycle.cpp:25-64 | no event leaves the closed states, and only they refuse a replacement |
| `SrfLifecycle.TransitionExactly` | src/lifecycle.cpp:25-64 | the table allows an event exactly where a rule, written by states, leads on, and to that state |
| `SrfAuthority.FencedPublisherNeverReturns` | src/authority.cpp:33-154 | across any moves of the table a fenced publisher keeps its boot, stays fenced and is not alive |
| `SrfAuthority.AuthorityTable.AdvanceEpoch` | src/authority.cpp:14-22 | one up, never wrapping |
| `SrfAuthority.AuthorityTable.RestoreEpoch` | src/authority.cpp:24-31 | never down and never zero |
| `SrfAuthority.AuthorityTable.RegisterPublisher` | src/authority.cpp:33-82 | exactly when it succeeds, what the table then is, and which reason otherwise |
| `SrfAuthority.AuthorityTable.Heartbeat` | src/authority.cpp:84-117 | likewise |
| `SrfAuthority.AuthorityTable.MarkDead` | src/authority.cpp:119-135 | fences the publisher and its boot for good |
| `SrfAuthority.AuthorityTable.FenceBoot` | src/authority.cpp:137-154 | fences the boot and every publisher on it |
| `SrfRegistry.GenerationNamesProfile` | src/registry.cpp:7-41 | a (profile, generation) pair names one profile for the life of the registry |
| `SrfRegistry.RegistryTable.RegisterProfile` | src/registry.cpp:7-41 | replaces only by a strictly newer generation, exactly when it succeeds, the new table and a revision one higher, and which reason otherwise |
| `SrfRegistry.RegistryTable.RegisterPolicy` | src/registry.cpp:43-73 | likewise for policies |
| `SrfRegistry.RegistryTable.AdvanceProfileGeneration` | src/registry.cpp:75-92 | one generation up, never wrapping, and the revision with it |
| `SrfEvidence.SnapshotStands` | src/evidence.cpp:93-119 | a copy taken after a watermark was read is still the evidence as long as the source shows that watermark, whatever happened in between |
| `SrfEvidence.SyntheticEvidence.GetWatermark` | src/evidence.cpp:107-117 | reads generations and the revision |
| `SrfEvidence.SyntheticEvidence.SetTopologyGeneration` | src/evidence.cpp:124-128 | moves the generation and the revision together |
| `SrfEvidence.SyntheticEvidence.AddCapability` | src/evidence.cpp:148-161 | replaces or appends one record and moves the revision |
| `SrfEvidence.SyntheticEvidence.RemoveCapability` | src/evidence.cpp:163-171 | drops every record of the key and moves the revision exactly when something was dropped |
| `SrfEvidence.SyntheticEvidence.SetRoute` | src/evidence.cpp:312-320 | rebinds every route of a list, one revision for each |
| `SrfStore.SegmentListStore.constructor` | src/store.cpp:296-306 | a fresh store at epoch 1 |
| `SrfStore.SegmentListStore.RebuildIndex` | src/store.cpp:370-378 | the rebuilt index is sorted by id and names every list once, so it passes the consistency check and the index-inconsistent outcome is unreachable |
| `SrfStore.SegmentListStore.Find` | src/store.cpp:398-411 | binary search finds what a scan of the lists would |
| `SrfStore.ConsistentIsComplete` | src/store.cpp:380-396 | the consistency check misses nothing: an index that passes it names every list once, so the binary search over it is right, and no other index passes |
| `SrfStore.SegmentListStore.CheckIndex` | src/store.cpp:380-396 | decides consistency of index and lists |
| `SrfStore.SegmentListStore.Commit` | src/store.cpp:697-825 | refused exactly when a counter, watermark or generation moved, there is no room or the batch cannot be applied; committed exactly when in addition the save succeeds; the new state and image outright, and otherwise nothing changed |
| `SrfStore.SegmentListStore.RunBatch` | src/store.cpp:500-825 | with nobody else at work: replayed or mismatched exactly when the attempt is on record, committed exactly when the atomic batch of the concurrent model exists and can be saved, with that state and its image; otherwise nothing changed |
| `SrfStore.SegmentListStore.ResolveDrafts` | src/store.cpp:550-612 | looks every draft up as the model does |
| `SrfStore.PrepareDrafts` | src/store.cpp:614-685 | prepares all drafts or none |
| `SrfStore.ApplyPreparedAll` | src/store.cpp:755-799 | the loop over prepared mutations computes the applied batch of the model, or nothing |
| `SrfStore.SegmentListStore.CommitTransition` | src/store.cpp:945-1004 | exactly when an administrative event is refused or saved, and the new state |
| `SrfStore.SegmentListStore.TransitionList` | src/store.cpp:866-1004 | exactly when an administrative event commits, and the new state and image; otherwise nothing changed |
| `SrfStore.SegmentListStore.RegisterProfile` | src/store.cpp:308-346 | exactly when it succeeds; the image carries the old revision, memory the next; a failed save leaves the profile registered and the state as it was |
| `SrfStore.SegmentListStore.RegisterPolicy` | src/store.cpp:328-346 | the same for a policy |
| `SrfStore.SegmentListStore.PersistNow` | src/store.cpp:1278-1298 | the state under the authority's epoch, the tables and the next revision, in memory exactly when it could be saved |
| `SrfStore.SegmentListStore.Revalidate` | src/store.cpp:835-864 | refused for an unknown list; otherwise goes ahead exactly when the batch of the present content does, commits with that batch's state, and only for a list bound to no path, route or constraint |
| `SrfStore.SegmentListStore.RefreshCurrentness` | src/store.cpp:1007-1131 | the refreshed state and its image when something changed and could be saved, and otherwise nothing changed |
| `SrfStore.SegmentListStore.Load` | src/store.cpp:1133-1223 | on any store: empty, refused, or state, registry and authority are those of the image put over what was there; the result saved if it can be, and after a refusal nothing changed but an epoch left at its maximum |

## Left out

- SrfProtocolTheorems.FencesOverRuns: between restarts; the step over a restart is `FencesAcrossRestart`.
- The restart of the transition system is a load into a fresh store; loads into a store that holds something are those of the class.
- The status of a decoded response is its number.
- SrfOracleAgreement.OracleAgreesExactly: compares phase, code and index, not details, and an untruncated production list.
- SrfStore.SegmentListStore.RunBatch: one caller at a time; interleavings are the subject of the transition system. Reason codes of a refusal are those of the validator only; status codes, snapshot ids and the pre-commit hook are not modelled.
- SrfValidation.ValidateRequest: the reason codes name is modelled, the text of names and details is not.
- A commit recheck that fails ends the operation at once with one refusal; which reason it carries is not modelled.
- The transition system looks a draft's list and profile up in one step and its policy and superseded list in the next, and refresh rechecks one list a step; finer interleavings with the registry lock are not separated.
- The other mutators of the synthetic evidence source: each is one of the four modelled shapes (set a generation, put a record, drop a record, set over all records).
- Stores configured without evidence or without persistence.
- Record decoders of the image are functions over bytes; the reader they run on is proved separately (`ByteReader`), and the record loop is a method.
- The hello, heartbeat, lifecycle and get payloads: flat records of the shapes already covered.
- Files, rename and sync: a save replaces the image as a whole or fails; the memory backend is the one modelled.
- The body of the 128-bit digest and any claim about collisions.
- `evaluate_currentness` and `fence_all_on_recovery`, which nothing in the store calls.
- In the transition system the image is the state that was saved; `ReloadExactly` and `ReachableIsWellFormed` say when its bytes give that state back, and when they do not the load refuses.
- Transport, processes, workers, the coordinator, explanations, tools, and the oracle's text format.
