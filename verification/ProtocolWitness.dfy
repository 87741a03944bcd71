/** Concrete runs: one in which a batch commits, one that ends with more segments than `max_total_segments`, and one in
    which an administrative event takes the record of a batch away. */
module SrfProtocolWitness {
  import opened SrfTypes
  import opened SrfReasons
  import opened SrfLifecycle
  import opened SrfEvidence
  import opened SrfCanonical
  import opened SrfValidation
  import opened SrfValidationLaws
  import opened SrfAuthority
  import opened SrfRegistry
  import opened SrfStoreModel
  import opened SrfStoreLaws
  import opened SrfCommitLaws
  import opened SrfRecovery
  import opened SrfProtocol
  import opened SrfProtocolInv
  import opened SrfProtocolTheorems
  import opened SrfProtocolProgress
  import opened SrfProtocolEpochs
  import opened SrfSegmentBudget
  import opened SrfAdminEvents

  // ------------------------------------------------------------------ the fabric

  /** One segment in all the store, and no more. */
  const LIMITS := Limits(8, 8, 8, 8, 8, 8, 8, 256, 8, 4096, 8, 1, 8, 8)

  /** A digest that tells records of different kinds apart. */
  function ByTag(b: Bytes): Digest { Digest(0, if b == [] then 0 else b[0]) }

  const CONFIG := Config(LIMITS, ByTag)

  const NODE := Segment(KindNode, EncUnset, 1, 1, 1, 0, 0, 0, 0, 0, 0, [])

  const FABRIC := NO_EVIDENCE.(segments := [SegmentRecord(1, KindNode, 1, 0)], nodes := [ScopedRecord(1, 0, 0)])

  const PROFILE := Profile(1, 1, [], 1, 1, 2, 1, false, true, true, true, [])

  const WORKER := Publisher(1, 1, 1, 1, true, false)

  const TABLES := Registry([PROFILE], [], 1)

  const WORKERS := Authority(1, [WORKER], [])

  function By(attempt: u64): Caller { Caller(1, 1, 1, 1, attempt) }

  /** A list of `n` equal segments, in the place of generation `expected`. */
  function Nodes(n: nat, expected: u64): Draft {
    Draft(1, 1, 1, 0, 0, 0, Strict, 0, 0, 0, 0, 0, 0, 0, 0, seq(n, _ => NODE), expected, 0, 0, false)
  }

  // ------------------------------------------------------------------- validation

  ghost predicate Plain(r: Request, n: nat, attempt: u64) {
    && r.limits == LIMITS && r.caller == By(attempt) && attempt != 0 && r.authority == WORKERS
    && r.profileId == 1 && r.profileGeneration == 0 && r.profile == Some(PROFILE) && r.policyId == 0 && r.policy.None?
    && r.strictness == Strict && r.topology == 0 && r.capability == 0 && r.path == 0 && r.pathAuthority == 0
    && r.route == 0 && r.constraint == 0 && r.segments == seq(n, _ => NODE) && 1 <= n <= 2 && r.evidence == Some(FABRIC)
  }

  lemma CallerPasses(r: Request, attempt: u64)
    requires r.caller == By(attempt) && attempt != 0 && r.authority == WORKERS
    ensures AllPass(CallerChecks(r)) && AllPass(EpochChecks(r))
  {
    assert FindPublisher(WORKERS.publishers, 1) == Some(WORKER);
  }

  /** What may happen to the list: it is created, or its first generation is still open to the event. */
  ghost predicate InPlace(r: Request) {
    && r.listId == 1
    && match r.existing
       case None => !r.requireExisting && r.expectedGeneration == 0
       case Some(x) =>
         !r.requireAbsent && r.expectedGeneration == 1 && x.generation == 1 && Transition(x.state, r.intent).Some?
  }

  lemma ListPasses(r: Request)
    requires InPlace(r)
    ensures AllPass(ListChecks(r))
  {}

  lemma ProfilePasses(r: Request, n: nat, attempt: u64)
    requires Plain(r, n, attempt)
    ensures AllPass(EmptyChecks(r)) && AllPass(ProfileChecks(r)) && AllPass(PolicyChecks(r))
  {
    hide Gather;
    var segments := ProfileSegments(r, PROFILE, Scan(r));
    forall i | 0 <= i < |segments| ensures AllPass(segments[i]) { assert r.segments[i] == NODE; }
    AllPassGathered(segments);
    AllPassTogether(ProfileHead(r, PROFILE), Gather(segments));
    assert ProfileRepeats(r, PROFILE) == [];
    AllPassTogether(ProfileHead(r, PROFILE) + Gather(segments), []);
  }

  lemma StructurePasses(r: Request, n: nat, attempt: u64)
    requires Plain(r, n, attempt)
    ensures AllPass(StructuralChecks(r))
  {
    hide Gather;
    var segments, rows := StructuralSegments(r, Scan(r)), StructuralRows(r, Scan(r));
    forall i | 0 <= i < |segments| ensures AllPass(segments[i]) { NodePasses(r, n, attempt, i); }
    AllPassGathered(segments);
    forall i | 0 <= i < |rows| ensures AllPass(rows[i]) {
      var pairs := StructuralPairs(r, i, i);
      forall j | 0 <= j < |pairs| ensures AllPass(pairs[j]) {}
      AllPassGathered(pairs);
    }
    AllPassGathered(rows);
    AllPassTogether(Gather(segments), Gather(rows));
  }

  lemma NodePasses(r: Request, n: nat, attempt: u64, i: nat)
    requires Plain(r, n, attempt) && i < |r.segments|
    ensures AllPass(StructuralSegment(r, i))
  {
    assert r.segments[i] == NODE;
    assert FindSegment(FABRIC.segments, 1) == Some(SegmentRecord(1, KindNode, 1, 0));
    assert FABRIC.nodes[0].id == 1 && HasScoped(FABRIC.nodes, 1);
    AllPassTogether(ShapeBlock(NODE, i), EntityBlock(FABRIC, NODE, i));
  }

  lemma DependenciesPass(r: Request, n: nat, attempt: u64)
    requires Plain(r, n, attempt)
    ensures AllPass(CapabilityChecks(r)) && AllPass(TopologyChecks(r)) && AllPass(PathChecks(r))
    ensures AllPass(RouteChecks(r)) && AllPass(ConstraintChecks(r)) && AllPass(ResourceChecks(r))
  {
    var capabilities := CapabilityBlocks(FABRIC, PROFILE.capabilities, 0);
    AllPassGathered(capabilities);
    var head := [C(r.capability != 0 && r.capability != FABRIC.capability, CAPABILITY_GENERATION, 0,
                 FABRIC.capability)];
    AllPassTogether(head, Gather(capabilities));
    var adjacencies := TopologyBlocks(FABRIC, r.segments, |r.segments|);
    forall i | 0 <= i < |adjacencies| ensures AllPass(adjacencies[i]) { assert r.segments[i] == NODE; }
    AllPassGathered(adjacencies);
    TopologyPasses(r, FABRIC, adjacencies);
    var payloads := PayloadBlocks(r, |r.segments|);
    forall i | 0 <= i < |payloads| ensures AllPass(payloads[i]) { assert r.segments[i] == NODE; }
    AllPassGathered(payloads);
    AllPassTogether(ResourceHead(r), Gather(payloads));
  }

  lemma TopologyPasses(r: Request, e: Evidence, parts: seq<seq<Check>>)
    requires r.evidence == Some(e) && r.topology == 0 && parts == TopologyBlocks(e, r.segments, |r.segments|)
    requires AllPass(Gather(parts))
    ensures AllPass(TopologyChecks(r))
  {
    hide Gather;
  }

  lemma PlainPasses(ctx: Context, shape: Shape, n: nat, expected: u64, attempt: u64, res: Resolved)
    requires ctx.caller == By(attempt) && attempt != 0 && ctx.authority == WORKERS
             && ctx.evidence == FABRIC && 1 <= n <= 2
    requires res.profile == Some(PROFILE) && res.policy.None?
    requires InPlace(DraftRequest(CONFIG, ctx, shape, Nodes(n, expected), res))
    ensures DraftValid(CONFIG, ctx, shape, Nodes(n, expected), res)
  {
    hide CallerChecks; hide EpochChecks; hide ListChecks; hide ProfileChecks; hide PolicyChecks; hide StructuralChecks;
    hide CapabilityChecks; hide TopologyChecks; hide PathChecks; hide RouteChecks; hide ConstraintChecks;
    hide ResourceChecks; hide EmptyChecks; hide Transition; hide Collect; hide RequestChecks;
    var d := Nodes(n, expected);
    var r := DraftRequest(CONFIG, ctx, shape, d, res);
    CallerPasses(r, attempt);
    ListPasses(r);
    ProfilePasses(r, n, attempt);
    StructurePasses(r, n, attempt);
    DependenciesPass(r, n, attempt);
    GroupMembers(r);
    RequestOrdered(r);
    RealStoreCodes(d, res);
    assert AllPass(RequestChecks(r)) && AllPass(StoreChecks(d, res));
    AllPassTogether(RequestChecks(r), StoreChecks(d, res));
    CleanExactly(CONFIG.limits.maxReasons, DraftChecks(CONFIG, ctx, shape, d, res));
  }

  // ---------------------------------------------------------------------- the runs

  /** A world whose tables are those above. */
  ghost predicate Ready(w: World) { w.reg == TABLES && w.auth == WORKERS && w.src.evidence == FABRIC }

  /** An idle thread that has not done anything. */
  function Fresh(w: World): Thread {
    Thread(Idle, Refresh, w.src.Mark(), w.src.evidence, w.auth, 0, 0, [], w, w.st, Nothing)
  }

  lemma Opening() returns (r: Trace)
    ensures IsTrace(CONFIG, r) && |Last(r).threads| == 1 && Last(r).threads[0].phase.Idle?
    ensures Ready(Last(r).w) && Last(r).w.st == FRESH.st && |r.labels| == 1
  {
    var w := World(FRESH.st, FRESH.reg, FRESH.auth, Source(FABRIC, 0), None);
    var start := System(w, [Fresh(w)]);
    var next := start.(w := w.(reg := TABLES, auth := WORKERS));
    var r0 := Trace([start], []);
    assert IsTrace(CONFIG, r0);
    assert EnvironmentStep(start, next) by {
      assert RegGood(TABLES) && AuthGood(WORKERS);
    }
    r := OneMore(CONFIG, r0, Environment, next);
  }

  lemma OneDraft(w: World, shape: Shape, n: nat, expected: u64, attempt: u64)
    requires Ready(w) && attempt != 0 && 1 <= n <= 2
    requires InPlace(DraftRequest(CONFIG, AtomicContext(w, By(attempt), w.auth.publishers, w.auth.fencedBoots), shape,
                                  Nodes(n, expected),
                                  Resolve(w.st.lists, w.reg.profiles, w.reg.policies, Nodes(n, expected))))
    requires RoomFor(LIMITS, w.st.lists, PreparedNodes(w, n, expected, attempt))
    ensures var s := AtomicBatch(CONFIG, w, By(attempt), shape, [Nodes(n, expected)], w.auth.publishers,
                                 w.auth.fencedBoots);
            s.Some? && s.value.lists == Install(LIMITS, w.st.(revision := w.st.revision + 1),
                                                PreparedNodes(w, n, expected, attempt)[0]).lists
            && s.value.attempts == RecordAttempt(
                 w.st.attempts, Attempt(attempt, 1, BatchDigest(ByTag, [Nodes(n, expected)]),
                                        PreparedNodes(w, n, expected, attempt)[0].list.generation, true))
  {
    hide DraftOutcome; hide InPlace; hide BatchDigest; hide RoomFor; hide RecordAttempt;
    hide MakeList;
    var d := Nodes(n, expected);
    var ctx := AtomicContext(w, By(attempt), w.auth.publishers, w.auth.fencedBoots);
    var rs := Resolutions(w, [d]);
    assert rs == [Resolve(w.st.lists, w.reg.profiles, w.reg.policies, d)];
    PlainPasses(ctx, shape, n, expected, attempt, rs[0]);
    var pms := PreparedNodes(w, n, expected, attempt);
    assert forall i :: 0 <= i < |[d]| ==> DraftValid(CONFIG, ctx, shape, [d][i], rs[i]);
    assert PrepareAll(CONFIG, ctx, shape, [d], rs).value == pms;
    assert StillCurrent(w.st.lists, pms[0]);
    var base := w.st.(revision := w.st.revision + 1);
    assert ApplyAll(LIMITS, base, pms, attempt, BatchDigest(ByTag, [d]))
           == ApplyOne(LIMITS, base, pms[0], attempt, BatchDigest(ByTag, [d]));
  }

  function PreparedNodes(w: World, n: nat, expected: u64, attempt: u64): seq<Prepared> {
    var ctx := AtomicContext(w, By(attempt), w.auth.publishers, w.auth.fencedBoots);
    var res := Resolve(w.st.lists, w.reg.profiles, w.reg.policies, Nodes(n, expected));
    if res.existing.Some? && res.existing.value.generation == U64_MAX then []
    else [Prepare(CONFIG, ctx, Nodes(n, expected), res)]
  }

  /** One segment may be created; what a replacement brings in is not asked for. */
  lemma RoomForNodes(w: World, n: nat, expected: u64, attempt: u64)
    requires w.st.lists == [] || (|w.st.lists| == 1 && w.st.lists[0].content.id == 1
                                  && w.st.lists[0].generation == 1 && |w.st.lists[0].content.segments| == 1)
    requires w.st.lists == [] ==> n == 1
    ensures RoomFor(LIMITS, w.st.lists, PreparedNodes(w, n, expected, attempt))
  {
    hide ContentDigest; hide SequenceDigest; hide DraftRequest;
    var pms := PreparedNodes(w, n, expected, attempt);
    assert |pms| == 1 && pms[..0] == [];
    if w.st.lists == [] {
      assert FindList(w.st.lists, 1) == None;
      MadeSize(CONFIG, AtomicContext(w, By(attempt), w.auth.publishers, w.auth.fencedBoots), Nodes(n, expected),
               Resolve(w.st.lists, w.reg.profiles, w.reg.policies, Nodes(n, expected)));
      assert NewSegments(pms) == NewSegments([]) + 1 == 1;
      assert NewLists(pms) == NewLists([]) + 1 == 1;
    } else {
      assert w.st.lists[..0] == [];
      assert TotalSegments(w.st.lists) == TotalSegments([]) + 1 == 1;
      assert FindList(w.st.lists, 1) == Some(w.st.lists[0]);
      assert pms[0].existing == Some(1);
      assert NewSegments(pms) == NewSegments([]) + 0 == 0;
      assert NewLists(pms) == NewLists([]) + 0 == 0;
    }
  }

  function Create(n: nat): Job { Mutate(By(1), CREATE, [Nodes(n, 0)]) }
  function Replace(n: nat): Job { Mutate(By(2), REPLACE, [Nodes(n, 1)]) }

  lemma NewAttempt(rs: seq<Attempt>, x: u64)
    requires |rs| <= 1 && (rs != [] ==> rs[0].attempt != x)
    ensures AttemptPosition(rs, x) == |rs| && AttemptAccepted(LIMITS, rs, x)
  {}

  lemma CreateReady(w: World)
    requires Ready(w) && w.st == FRESH.st
    ensures MayCommit(CONFIG, w, By(1), CREATE, [Nodes(1, 0)])
    ensures OneList(CommittedState(CONFIG, w, w, By(1), CREATE, [Nodes(1, 0)]), 1)
  {
    hide AtomicBatch; hide BatchDigest; hide AppendHistory;
    assert FindList(FRESH.st.lists, 1) == None;
    RoomForNodes(w, 1, 0, 1);
    OneDraft(w, CREATE, 1, 0, 1);
    NewAttempt(FRESH.st.attempts, 1);
    assert FABRIC.RecordCount() == 2;
    MayIsWill(CONFIG, w, By(1), CREATE, [Nodes(1, 0)]);
    hide MayCommit;
    InstalledList(w.st.(revision := w.st.revision + 1), PreparedNodes(w, 1, 0, 1)[0]);
  }

  /** The list 1 in its first generation with `n` segments, and the record of the first attempt. */
  ghost predicate OneList(s: DurableState, n: nat) {
    && |s.lists| == 1 && s.lists[0].content.id == 1 && s.lists[0].content.scope == 1
    && |s.lists[0].content.segments| == n && s.lists[0].generation == 1 && s.lists[0].state == Active
    && |s.attempts| == 1 && s.attempts[0].attempt == 1
  }

  /** The first batch: a list of one segment. */
  lemma CreateRuns() returns (q: Trace)
    ensures IsTrace(CONFIG, q) && q.labels != [] && BatchCommits(q, |q.labels| - 1, 0)
    ensures q.states[|q.labels| - 1].threads[0].job == Create(1)
    ensures |Last(q).threads| == 1 && Last(q).threads[0].phase.Idle? && Ready(Last(q).w) && OneList(Last(q).w.st, 1)
  {
    hide IsTrace; hide Extends; hide MayCommit; hide CommittedState; hide OneList; hide Ready;
    var r := Opening();
    CreateReady(Last(r).w);
    q := UndisturbedCommits(CONFIG, r, 0, Create(1));
    StillReady(Last(r).w, Last(q).w);
  }

  lemma StillReady(w: World, v: World)
    requires Ready(w) && v == w.(st := v.st, disk := v.disk)
    ensures Ready(v)
  {}

  lemma InstalledList(s: DurableState, pm: Prepared)
    ensures s.lists == [] ==> Install(LIMITS, s, pm).lists == [pm.list]
    ensures |s.lists| == 1 && s.lists[0].content.id == pm.id ==> Install(LIMITS, s, pm).lists == [pm.list]
  {}

  lemma ReplaceReady(w: World)
    requires Ready(w) && OneList(w.st, 1)
    ensures MayCommit(CONFIG, w, By(2), REPLACE, [Nodes(2, 1)])
    ensures TotalSegments(CommittedState(CONFIG, w, w, By(2), REPLACE, [Nodes(2, 1)]).lists) == 2
  {
    hide AtomicBatch; hide BatchDigest; hide AppendHistory; hide TotalSegments; hide Install;
    assert FindList(w.st.lists, 1) == Some(w.st.lists[0]);
    RoomForNodes(w, 2, 1, 2);
    OneDraft(w, REPLACE, 2, 1, 2);
    NewAttempt(w.st.attempts, 2);
    assert FABRIC.RecordCount() == 2;
    MayIsWill(CONFIG, w, By(2), REPLACE, [Nodes(2, 1)]);
    hide MayCommit;
    var pm := PreparedNodes(w, 2, 1, 2)[0];
    InstalledList(w.st.(revision := w.st.revision + 1), pm);
    TotalOfOne(pm.list);
  }

  /** The run on which the store ends with more segments than `max_total_segments` allows: a list of one segment is
      created where one is allowed, and then replaced by one of two. */
  lemma ReplacementEscapes() returns (q: Trace)
    ensures IsTrace(CONFIG, q) && Sized(CONFIG) && q.labels != [] && BatchCommits(q, |q.labels| - 1, 0)
    ensures CONFIG.limits.maxTotalSegments == 1 && TotalSegments(Last(q).w.st.lists) == 2
  {
    hide IsTrace; hide Extends; hide MayCommit; hide CommittedState; hide OneList; hide Ready; hide TotalSegments;
    var p := CreateRuns();
    ReplaceReady(Last(p).w);
    q := UndisturbedCommits(CONFIG, p, 0, Replace(2));
  }

  lemma TotalOfOne(l: SegmentList)
    ensures TotalSegments([l]) == |l.content.segments|
  {
    assert [l][..0] == [];
  }

  /** The run on which a committed batch can no longer be replayed: the list is revoked under the same attempt, and
      submitting the very same drafts again is then a mismatch. */
  lemma EventTakesTheRecord() returns (q: Trace, k: nat)
    ensures IsTrace(CONFIG, q) && Sized(CONFIG) && BatchCommits(q, k, 0) && k < |q.labels| < |q.states|
    ensures q.states[k].threads[0].job == Create(1)
    ensures forall again: Thread, fails ::
              again.phase.Observed? && again.job == Create(1) ==>
                Act(CONFIG, Last(q).w, again, fails) == Move(Last(q).w, Done(again, Mismatched))
  {
    hide IsTrace; hide Extends; hide BatchDigest; hide Act; hide WillApply; hide OneList; hide AdminPayload;
    hide AdminLands; hide Landed;
    var p := CreateRuns();
    TraceShape(CONFIG, p);
    k := |p.labels| - 1;
    RevokeReady(Last(p).w);
    q := UndisturbedEventLands(CONFIG, p, 0, Administer(By(1), 1, 1, LifecycleEvent.Revoke));
    TraceShape(CONFIG, q);
    SameThere(p, q, k);
    DigestsDiffer(Last(p).w.st.lists);
    assert LastAdmin(q, k + 1, |q.labels|, 1) == Some(|q.labels| - 1);
    assert BatchRecord(CONFIG, q, k, 0, |q.labels|) == AdminPayload(CONFIG, Last(p).w.st.lists, 1, 1);
    forall again: Thread, fails | again.phase.Observed? && again.job == Create(1)
      ensures Act(CONFIG, Last(q).w, again, fails) == Move(Last(q).w, Done(again, Mismatched))
    {
      hide BatchRecord;
      ReplayIsExact(CONFIG, q, k, 0, |q.labels|, again, fails);
    }
  }

  lemma SameThere(p: Trace, q: Trace, k: nat)
    requires Extends(p, q) && k < |p.labels| && k < |p.states|
    ensures q.states[k] == p.states[k] && q.labels[k] == p.labels[k]
  {
    assert q.states[k] == q.states[..|p.states|][k] && q.labels[k] == q.labels[..|p.labels|][k];
  }

  /** The list 1 is there in its first generation, in the state `state`, and the attempt table is all but empty. */
  ghost predicate Standing1(s: DurableState, state: LifecycleState) {
    |s.lists| == 1 && s.lists[0].content.id == 1 && s.lists[0].generation == 1 && s.lists[0].state == state
    && |s.attempts| < 8
  }

  lemma EventReady(w: World, attempt: u64, event: LifecycleEvent)
    requires Ready(w) && attempt != 0 && AdminEvent(event) && |w.st.lists| == 1
    requires Standing1(w.st, w.st.lists[0].state) && EventFrom(event, w.st.lists[0].state)
    ensures WillApply(CONFIG, w, Administer(By(attempt), 1, 1, event))
  {
    hide AppendHistory; hide RecordAttempt; hide TransitionRecord; hide Collect; hide CallerChecks; hide EpochChecks;
    hide ListChecks; hide EventFrom; hide Transition;
    var x := w.st.lists[0];
    assert FindList(w.st.lists, 1) == Some(x) && Position(w.st.lists, 1) == 0;
    EventLeads(event, x.state);
    var ctx := AtomicContext(w, By(attempt), w.auth.publishers, w.auth.fencedBoots);
    var r := TransitionRequest(CONFIG, ctx, x, 1, event);
    CallerPasses(r, attempt);
    ListPasses(r);
    AllPassTogether(CallerChecks(r), EpochChecks(r));
    AllPassTogether(CallerChecks(r) + EpochChecks(r), ListChecks(r));
    assert RequestChecks(r) == IdentityChecks(r) + [];
    AllPassTogether(IdentityChecks(r), []);
    RequestOrdered(r);
    CleanExactly(LIMITS.maxReasons, RequestChecks(r));
  }

  lemma RevokeReady(w: World)
    requires Ready(w) && OneList(w.st, 1)
    ensures WillApply(CONFIG, w, Administer(By(1), 1, 1, LifecycleEvent.Revoke))
  {
    hide WillApply; hide EventFrom;
    EventFromOpen();
    EventReady(w, 1, LifecycleEvent.Revoke);
  }

  /** After an event of the fabric's worker the list is in the state of the event. */
  lemma EventStands(w: World, attempt: u64, event: LifecycleEvent)
    requires Ready(w) && attempt != 0 && AdminEvent(event) && |w.st.lists| == 1
    requires Standing1(w.st, w.st.lists[0].state) && EventFrom(event, w.st.lists[0].state)
    ensures var s := EventState(CONFIG, w, Administer(By(attempt), 1, 1, event));
            |s.lists| == 1 && s.lists[0].content.id == 1 && s.lists[0].generation == 1
            && s.lists[0].state == EventTarget(event) && |s.attempts| <= |w.st.attempts| + 1
  {
    hide Transition; hide EventFrom; hide EventTarget; hide TransitionRecord;
    var x := w.st.lists[0];
    assert FindList(w.st.lists, 1) == Some(x) && Position(w.st.lists, 1) == 0;
    var ctx := AtomicContext(w, By(attempt), w.auth.publishers, w.auth.fencedBoots);
    EventOutcome(CONFIG, w.st, ctx, 1, 1, event);
  }

  /** The run on which a list is withdrawn, in two events. */
  lemma WithdrawnInTwoEvents() returns (q: Trace)
    ensures IsTrace(CONFIG, q) && Sized(CONFIG) && |q.states| == |q.labels| + 1 && |q.labels| > EVENT_STEPS + 1
    ensures var before := q.states[|q.labels| - EVENT_STEPS - 1].w.st;
            |before.lists| == 1 && before.lists[0].generation == 1 && before.lists[0].state == Withdrawing
    ensures var after := Last(q).w.st;
            |after.lists| == 1 && after.lists[0].generation == 1 && after.lists[0].state == Withdrawn
  {
    hide IsTrace; hide Extends; hide WillApply; hide EventState; hide AdminLands; hide Landed; hide EventFrom;
    var p := CreateRuns();
    TraceShape(CONFIG, p);
    EventFromOpen();
    EventReady(Last(p).w, 2, WithdrawBegin);
    EventStands(Last(p).w, 2, WithdrawBegin);
    var r := UndisturbedEventLands(CONFIG, p, 0, Administer(By(2), 1, 1, WithdrawBegin));
    TraceShape(CONFIG, r);
    EventReady(Last(r).w, 3, WithdrawCommit);
    EventStands(Last(r).w, 3, WithdrawCommit);
    q := UndisturbedEventLands(CONFIG, r, 0, Administer(By(3), 1, 1, WithdrawCommit));
    TraceShape(CONFIG, q);
    LastKept(r, q);
  }

  lemma EventFromOpen()
    ensures EventFrom(WithdrawBegin, Active) && EventFrom(WithdrawCommit, Withdrawing)
    ensures EventFrom(LifecycleEvent.Revoke, Active)
  {}

  lemma LastKept(p: Trace, q: Trace)
    requires Extends(p, q) && p.states != []
    ensures q.states[|p.states| - 1] == Last(p)
  {
    assert q.states[|p.states| - 1] == q.states[..|p.states|][|p.states| - 1];
  }

  lemma DigestsDiffer(ls: seq<SegmentList>)
    ensures AdminPayload(CONFIG, ls, 1, 1) != BatchDigest(ByTag, [Nodes(1, 0)])
  {
    hide DraftBytes; hide DigestWords;
    var x := FindList(ls, 1);
    DraftTag(TransitionDraft(1, if x.Some? then x.value.content.scope else 0, 1));
    BatchTag(ByTag, [Nodes(1, 0)]);
  }

  /** The run on which a fenced worker commits: its boot is fenced while its creation waits for validation. */
  lemma FencedWorkerCommits() returns (q: Trace, k: nat)
    ensures IsTrace(CONFIG, q) && Sized(CONFIG) && CommitsFenced(q, k, 0, Create(1))
  {
    hide IsTrace; hide Extends; hide MayCommit; hide Ready; hide CommittedState;
    var r := Opening();
    CreateReady(Last(r).w);
    q, k := LateFenceCommits(CONFIG, r, 0, Create(1));
  }

  /** The run on which a fence does not survive: the store is saved, the boot 7, which no publisher runs on, is fenced,
      and the process dies. */
  lemma FenceForgotten() returns (q: Trace)
    ensures IsTrace(CONFIG, q) && Sized(CONFIG) && q.labels != [] && |q.states| == |q.labels| + 1
    ensures q.labels[|q.labels| - 1] == Crash(true) && 7 in q.states[|q.labels| - 1].w.auth.fencedBoots
    ensures 7 !in Last(q).w.auth.fencedBoots
  {
    hide IsTrace; hide Extends;
    var r := Opening();
    var p := SaveRuns(CONFIG, r, 0);
    TraceShape(CONFIG, p);
    var image := Last(p).w.disk.value;
    assert image.publishers == [WORKER] && image.fencedBoots == [] && image.epoch == 1;
    CanRestart(image);
    q := FenceLost(CONFIG, p, 7);
  }
}
