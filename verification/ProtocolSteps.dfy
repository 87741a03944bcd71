/** Every step of the concurrent store keeps its invariant. */
module SrfProtocolSteps {
  import opened SrfTypes
  import opened SrfLifecycle
  import opened SrfEvidence
  import opened SrfValidation
  import opened SrfValidationLaws
  import opened SrfAuthority
  import opened SrfRegistry
  import opened SrfStoreModel
  import opened SrfStoreLaws
  import opened SrfCommitLaws
  import opened SrfProtocol
  import opened SrfProtocolInv

  // ------------------------------------------------- a thread while others move

  /** What anybody else can do to the world while a thread is not looking. */
  ghost predicate WorldMoves(w: World, v: World) {
    && RegMoves(w.reg, v.reg) && AuthMoves(w.auth, v.auth) && Moves(w.src, v.src)
    && (v.st == w.st || w.st.revision < v.st.revision)
  }

  lemma KnownStays(a: Authority, b: Authority, ls: seq<SegmentList>)
    requires AuthMoves(a, b) && WritersKnown(ls, a.publishers, a.fencedBoots)
    ensures WritersKnown(ls, b.publishers, b.fencedBoots)
  {
    forall i | 0 <= i < |ls| ensures KnowsBoot(b.publishers, b.fencedBoots, ls[i].authority.boot) {
      KnownBootsStay(a, b, ls[i].authority.boot);
    }
  }

  lemma PublishersStayKnown(a: Authority, b: Authority, ps: seq<Publisher>)
    requires AuthMoves(a, b) && PublishersKnown(a, ps)
    ensures PublishersKnown(b, ps)
  {
    forall p | p in ps ensures KnowsBoot(b.publishers, b.fencedBoots, p.boot) { KnownBootsStay(a, b, p.boot); }
  }

  lemma CaptureStable(cfg: Config, w: World, v: World, t: Thread)
    requires Mutation(t) && CaptureOk(cfg, w, t) && WorldMoves(w, v)
    ensures CaptureOk(cfg, v, t)
  {
    hide RoomForAttempt; hide ListsMatch; hide TablesMatch; hide AuthMoves; hide Moves; hide FindList;
  }

  lemma RegCounts(a: Registry, b: Registry)
    requires RegMoves(a, b)
    ensures a.revision < b.revision || a == b
  {}

  lemma GatheredStable(cfg: Config, w: World, v: World, t: Thread)
    requires Mutation(t) && Gathered(cfg, w, t) && WorldMoves(w, v)
    requires Holds(t.phase) ==> v.st == w.st
    ensures Gathered(cfg, v, t)
  {
    hide RoomForAttempt; hide ListsMatch; hide TablesMatch; hide IsAtomic; hide Valid; hide CaptureOk;
    hide PublishersKnown; hide KnowsBoot; hide RegMoves;
    RegCounts(w.reg, v.reg);
    if Rank(t.phase) >= 12 { RegMovesTrans(t.at.reg, w.reg, v.reg); }
    if Rank(t.phase) >= 6 { PublishersStayKnown(w.auth, v.auth, t.authority.publishers); }
    if Rank(t.phase) >= 9 { CaptureStable(cfg, w, v, t); }
  }

  lemma CoverStable(w: World, v: World, t: Thread)
    requires AuthMoves(w.auth, v.auth) && TablesCover(w, t)
    ensures TablesCover(v, t)
  {}

  lemma NextStable(cfg: Config, w: World, v: World, t: Thread)
    requires NextOk(cfg, w, t) && WorldMoves(w, v) && v.st == w.st
    ensures NextOk(cfg, v, t)
  {
    hide StateGood; hide TablesGood; hide ListsStep; hide HistoryStep; hide RecordsStep; hide WritersBelow;
    hide Degraded; hide WritersKnown; hide RegMoves;
    KnownStays(w.auth, v.auth, t.next.lists);
  }

  /** What a thread has gathered stays true whatever the environment and the other threads do. */
  lemma ThreadStable(cfg: Config, w: World, v: World, t: Thread)
    requires ThreadInv(cfg, w, t) && WorldMoves(w, v) && (Holds(t.phase) ==> v.st == w.st)
    ensures ThreadInv(cfg, v, t)
  {
    hide Gathered; hide NextOk; hide TablesCover; hide Degraded; hide JobOk; hide PhaseFits;
    if !t.phase.Idle? {
      if Mutation(t) { GatheredStable(cfg, w, v, t); }
      if t.phase.Stamping? || t.phase.Saved? {
        NextStable(cfg, w, v, t);
        CoverStable(w, v, t);
      }
    }
  }

  // ---------------------------------------------------- a mutation gathers its facts

  /** Moving on does not disturb what was captured and validated. */
  lemma Carry(cfg: Config, w: World, t: Thread, u: Thread)
    requires Mutation(t) && u == t.(phase := u.phase, at := u.at, next := u.next, verdict := u.verdict)
    ensures CaptureOk(cfg, w, t) ==> CaptureOk(cfg, w, u)
    ensures Valid(cfg, t) ==> Valid(cfg, u)
  {
    hide RoomForAttempt; hide ListsMatch; hide TablesMatch; hide PrepareAll; hide TransitionValid; hide FindList;
  }

  lemma BeginKeeps(cfg: Config, w: World, t: Thread)
    requires t.phase.Begun? && Mutation(t) && ThreadInv(cfg, w, t)
    ensures ThreadInv(cfg, w, Begin(cfg, w, t))
  {
    hide RoomForAttempt; hide CaptureOk; hide Capturing; hide JobOk; hide PublishersKnown; hide Valid; hide AtOk;
    hide IsAtomic; hide NextOk; hide SweepOk; hide TablesCover;
  }

  lemma ObserveKeeps(cfg: Config, w: World, t: Thread)
    requires t.phase.Marked? && ThreadInv(cfg, w, t)
    ensures ThreadInv(cfg, w, Observe(cfg, w, t))
  {}

  lemma EnterKeeps(cfg: Config, w: World, t: Thread)
    requires t.phase.Observed? && ThreadInv(cfg, w, t)
    ensures ThreadInv(cfg, w, Enter(cfg, w, t))
  {
    hide BatchDigest; hide JobOk; hide TablesCover; hide NextOk; hide AtOk; hide SweepOk;
    hide CaptureOk; hide Capturing; hide Valid; hide IsAtomic; hide PublishersKnown;
  }

  lemma CaptureAuthorityKeeps(cfg: Config, w: World, t: Thread)
    requires t.phase.Entered? || t.phase.GotEpoch? || t.phase.GotPublishers?
    requires ThreadInv(cfg, w, t)
    ensures ThreadInv(cfg, w, Act(cfg, w, t, false).t)
  {
    hide RoomForAttempt; hide AttemptPosition; hide JobOk;
    hide Valid; hide AtOk; hide IsAtomic; hide NextOk; hide SweepOk; hide TablesCover; hide CaptureOk;
  }

  lemma StartResolvingKeeps(cfg: Config, w: World, t: Thread)
    requires t.phase.GotFenced? && ThreadInv(cfg, w, t)
    ensures ThreadInv(cfg, w, StartResolving(w, t))
  {
    hide RoomForAttempt; hide AttemptPosition; hide JobOk; hide PublishersKnown;
    hide Valid; hide AtOk; hide IsAtomic; hide NextOk; hide SweepOk; hide TablesCover; hide CaptureOk;
  }

  /** One more draft resolved, in two look-ups. */
  lemma ResolveKeeps(cfg: Config, w: World, t: Thread)
    requires t.phase.Resolving? && t.job.Mutate? && Capturing(w, t, t.phase.half)
    requires RoomForAttempt(cfg, w.st.attempts, t.job)
    ensures var u := ResolveNext(w, t, t.phase.half);
            u == t.(phase := u.phase, found := u.found)
            && (u.phase.Resolving? ==> Capturing(w, u, u.phase.half))
            && (!u.phase.Resolving? ==> u.phase.Captured? && CaptureOk(cfg, w, u))
  {
    hide RoomForAttempt; hide FindList; hide FindProfile; hide FindPolicy;
  }

  lemma ResolveAdminKeeps(cfg: Config, w: World, t: Thread)
    requires t.phase.Resolving? && t.job.Administer? && Capturing(w, t, t.phase.half)
    requires RoomForAttempt(cfg, w.st.attempts, t.job)
    ensures var u := ResolveNext(w, t, t.phase.half);
            u == t.(phase := u.phase, found := u.found, verdict := u.verdict)
            && (!u.phase.Idle? ==> u.phase.Captured? && CaptureOk(cfg, w, u))
  {
    hide RoomForAttempt; hide FindList;
  }

  lemma ResolveStepKeeps(cfg: Config, w: World, t: Thread)
    requires t.phase.Resolving? && ThreadInv(cfg, w, t)
    ensures ThreadInv(cfg, w, ResolveNext(w, t, t.phase.half))
  {
    hide RoomForAttempt; hide CaptureOk; hide Capturing; hide JobOk; hide PublishersKnown; hide ResolveNext;
    hide Valid; hide AtOk; hide IsAtomic; hide NextOk; hide SweepOk; hide TablesCover;
    if t.job.Mutate? { ResolveKeeps(cfg, w, t); } else { ResolveAdminKeeps(cfg, w, t); }
  }

  lemma ValidateKeeps(cfg: Config, w: World, t: Thread)
    requires t.phase.Captured? && ThreadInv(cfg, w, t)
    ensures ThreadInv(cfg, w, Validate(cfg, t))
  {
    hide RoomForAttempt; hide CaptureOk; hide JobOk; hide PublishersKnown; hide PrepareAll; hide TransitionValid;
    hide AtOk; hide IsAtomic; hide NextOk; hide SweepOk; hide TablesCover;
    CaptureShape(cfg, w, t);
    Carry(cfg, w, t, Validate(cfg, t));
  }

  lemma CaptureShape(cfg: Config, w: World, t: Thread)
    requires Mutation(t) && CaptureOk(cfg, w, t)
    ensures t.job.Mutate? ==> |t.found| == |t.job.drafts|
    ensures t.job.Administer? ==> |t.found| == 1 && t.found[0].existing.Some?
  {}

  lemma RelockKeeps(cfg: Config, w: World, t: Thread)
    requires t.phase.Validated? && ThreadInv(cfg, w, t)
    ensures ThreadInv(cfg, w, Relock(w, t))
  {
    hide RoomForAttempt; hide CaptureOk; hide JobOk; hide PublishersKnown; hide Valid; hide Capturing;
    hide AtOk; hide IsAtomic; hide NextOk; hide SweepOk; hide TablesCover;
    Carry(cfg, w, t, Relock(w, t));
  }

  lemma NowIsAt(cfg: Config, w: World, t: Thread)
    requires Mutation(t) && CaptureOk(cfg, w, t) && SeenEvidence(w.src, t) && t.storeRevision == w.st.revision
    requires w.st.epoch <= w.auth.epoch
    requires t.authority.epoch <= w.auth.epoch && (t.job.Mutate? ==> w.reg.revision == t.registryRevision)
    ensures AtOk(w, t.(phase := RegistryChecked, at := w))
  {
    hide RoomForAttempt; hide ListsMatch; hide TablesMatch;
  }

  lemma CheckRegistryKeeps(cfg: Config, w: World, t: Thread)
    requires t.phase.Relocked? && ThreadInv(cfg, w, t) && w.st.epoch <= w.auth.epoch
    ensures ThreadInv(cfg, w, CheckRegistry(w, t))
  {
    hide RoomForAttempt; hide JobOk; hide PublishersKnown; hide Valid; hide CaptureOk; hide Capturing; hide AtOk;
    hide IsAtomic; hide NextOk; hide SweepOk; hide TablesCover;
    var u := CheckRegistry(w, t);
    Carry(cfg, w, t, u);
    if !u.phase.Idle? { NowIsAt(cfg, w, t); }
  }

  lemma CheckEpochKeeps(cfg: Config, w: World, t: Thread)
    requires t.phase.RegistryChecked? && ThreadInv(cfg, w, t)
    ensures ThreadInv(cfg, w, CheckEpoch(w, t))
  {
    hide RoomForAttempt; hide JobOk; hide PublishersKnown; hide Valid; hide CaptureOk; hide TablesMatch; hide Capturing;
    hide IsAtomic; hide NextOk; hide SweepOk; hide TablesCover;
    Carry(cfg, w, t, CheckEpoch(w, t));
  }

  // ------------------------------------------------------ a mutation's new state

  lemma CaughtContext(w: World, t: Thread)
    requires t.job.Mutate? && AtOk(w, t) && t.at.auth.epoch == t.authority.epoch && w.src.Mark() == t.mark
    ensures Ctx(t) == AtomicContext(t.at, t.job.caller, t.authority.publishers, t.authority.fencedBoots)
  {
    hide TablesMatch;
  }

  lemma CaughtFound(cfg: Config, w: World, t: Thread)
    requires t.job.Mutate? && AtOk(w, t) && CaptureOk(cfg, w, t)
    ensures t.found == Resolutions(t.at, t.job.drafts)
  {
    hide FindList; hide FindProfile; hide FindPolicy; hide RoomForAttempt;
    forall k | 0 <= k < |t.found| ensures t.found[k] == Resolutions(t.at, t.job.drafts)[k] {
      assert t.found[k].existing == FindList(w.st.lists, t.job.drafts[k].id);
    }
  }

  /** The commit is the single-step batch of the moment the registry revision was checked. */
  lemma CommitIsAtomicStep(cfg: Config, w: World, t: Thread)
    requires t.job.Mutate? && t.phase.EpochChecked? && Gathered(cfg, w, t)
    requires CheckMark(cfg, w, t).phase.Stamping?
    ensures IsAtomic(cfg, CheckMark(cfg, w, t))
  {
    hide RoomForAttempt; hide PublishersKnown; hide BatchState; hide PrepareAll; hide BatchDigest;
    CaughtContext(w, t);
    CaughtFound(cfg, w, t);
    AtIsNow(w, t);
  }

  lemma AtIsNow(w: World, t: Thread)
    requires AtOk(w, t)
    ensures t.at.st == w.st
  {}

  lemma CallerKnown(auth: Authority, c: Caller, captured: Authority)
    requires GoodCaller(c, captured) && PublishersKnown(auth, captured.publishers)
    ensures c.boot != 0 && KnowsBoot(auth.publishers, auth.fencedBoots, c.boot)
  {}

  lemma AdminCaller(cfg: Config, ctx: Context, x: SegmentList, expected: u64, event: LifecycleEvent)
    requires cfg.limits.maxReasons >= 1 && TransitionValid(cfg, ctx, x, expected, event)
    ensures GoodCaller(ctx.caller, ctx.authority)
  {
    var r := TransitionRequest(cfg, ctx, x, expected, event);
    AcceptedExactly(r);
    IdentityMembers(r);
    CallerMeaning(r);
  }

  lemma IdentityMembers(r: Request)
    ensures forall c :: c in CallerChecks(r) || c in EpochChecks(r) ==> c in RequestChecks(r)
  {
    assert forall c :: c in CallerChecks(r) || c in EpochChecks(r) ==> c in IdentityChecks(r);
  }

  lemma NewWriters(auth: Authority, was: seq<SegmentList>, w: Writer, ls: seq<SegmentList>, last: u64)
    requires WritersBelow(was, last) && last <= w.epoch && WritersKnown(was, auth.publishers, auth.fencedBoots)
    requires WrittenBy(w, was, ls) && w.boot != 0 && KnowsBoot(auth.publishers, auth.fencedBoots, w.boot)
    ensures WritersBelow(ls, w.epoch) && WritersKnown(ls, auth.publishers, auth.fencedBoots)
  {
    hide KnowsBoot;
  }

  lemma DraftsResolved(cfg: Config, w: World, t: Thread)
    requires t.job.Mutate? && CaptureOk(cfg, w, t) && t.storeRevision == w.st.revision
    ensures ResolvedIn(w.st.lists, t.job.drafts, t.found)
    ensures AttemptAccepted(cfg.limits, w.st.attempts, t.job.caller.attempt)
    ensures t.job.caller.attempt != 0 ==> AttemptPayload(w.st.attempts, t.job.caller.attempt).None?
  {
    hide FindList; hide TablesMatch; hide AttemptPosition;
  }

  /** A validated batch that reaches the end of the commit checks leaves a state that may be saved. */
  lemma BatchOutgoing(cfg: Config, w: World, t: Thread)
    requires cfg.limits.maxReasons >= 1 && cfg.limits.maxHistory >= 1
    requires WorldInv(cfg, w) && t.job.Mutate? && StoreShape(t.job.shape)
    requires CaptureOk(cfg, w, t) && Valid(cfg, t) && t.storeRevision == w.st.revision
    requires PublishersKnown(w.auth, t.authority.publishers) && w.st.epoch <= t.authority.epoch <= w.auth.epoch
    requires Outgoing(cfg, w.st, t).Some?
    ensures NextOk(cfg, w, t.(phase := Stamping(0), next := Outgoing(cfg, w.st, t).value.(epoch := t.authority.epoch)))
  {
    hide *;
    var next := OutgoingBatch(cfg, w, t);
    var u := t.(phase := Stamping(0), next := next.(epoch := t.authority.epoch));
    BatchNext(cfg, w, t, next);
  }

  /** The laws of the batch, in the terms of the thread. */
  lemma OutgoingBatch(cfg: Config, w: World, t: Thread) returns (next: DurableState)
    requires cfg.limits.maxReasons >= 1 && cfg.limits.maxHistory >= 1
    requires WorldInv(cfg, w) && t.job.Mutate? && StoreShape(t.job.shape)
    requires CaptureOk(cfg, w, t) && Valid(cfg, t) && t.storeRevision == w.st.revision
    requires Outgoing(cfg, w.st, t).Some?
    ensures Some(next) == Outgoing(cfg, w.st, t)
    ensures StateGood(cfg, next) && ListsStep(w.st.lists, next.lists)
    ensures next == w.st.(revision := w.st.revision + 1, lists := next.lists, history := next.history,
                          attempts := next.attempts)
    ensures HistoryStep(cfg.limits.maxHistory, w.st.history, next.history)
    ensures WrittenBy(WriterOf(t), w.st.lists, next.lists)
    ensures RecordsStep(w.st.attempts, next.attempts, OwnRecord(cfg, w.st, t.job))
    ensures GoodCaller(t.job.caller, t.authority)
  {
    hide StateGood; hide ListsStep; hide HistoryStep; hide WrittenBy; hide BatchState; hide BatchDigest;
    hide DraftValid; hide AttemptPayload; hide CaptureOk; hide Prepare; hide AttemptAccepted; hide ResolvedIn;
    hide AuthGood; hide WritersBelow; hide WritersKnown; hide RegGood; hide GoodCaller; hide TablesGood;
    DraftsResolved(cfg, w, t);
    var ds := t.job.drafts;
    BatchLaws(cfg, Ctx(t), t.job.shape, ds, t.found, w.st, BatchDigest(cfg.digest, ds));
    next := Outgoing(cfg, w.st, t).value;
    AcceptedCaller(cfg, Ctx(t), t.job.shape, ds[0], t.found[0]);
    CallerAttempt(t.job.caller, t.authority);
  }

  lemma CallerAttempt(c: Caller, a: Authority)
    requires GoodCaller(c, a)
    ensures c.attempt != 0
  {}

  function WriterOf(t: Thread): Writer
    requires Mutation(t)
  {
    Writer(t.job.caller.publisher, t.job.caller.boot, t.authority.epoch, t.job.caller.attempt)
  }

  lemma BatchNext(cfg: Config, w: World, t: Thread, next: DurableState)
    requires WorldInv(cfg, w) && t.job.Mutate?
    requires StateGood(cfg, next) && ListsStep(w.st.lists, next.lists)
    requires next == w.st.(revision := w.st.revision + 1, lists := next.lists, history := next.history,
                           attempts := next.attempts)
    requires HistoryStep(cfg.limits.maxHistory, w.st.history, next.history)
    requires WrittenBy(WriterOf(t), w.st.lists, next.lists)
    requires RecordsStep(w.st.attempts, next.attempts, OwnRecord(cfg, w.st, t.job))
    requires GoodCaller(t.job.caller, t.authority)
    requires PublishersKnown(w.auth, t.authority.publishers) && w.st.epoch <= t.authority.epoch <= w.auth.epoch
    ensures NextOk(cfg, w, t.(phase := Stamping(0), next := next.(epoch := t.authority.epoch)))
  {
    hide BatchDigest; hide ListsStep; hide HistoryStep; hide RecordsStep; hide AttemptPayload; hide GoodCaller;
    hide PublishersKnown; hide WrittenBy; hide WritersBelow; hide WritersKnown; hide KnowsBoot; hide AuthGood;
    hide ProfilesGood; hide PoliciesGood; hide UniqueIds; hide UniqueAttempts; hide Consecutive; hide ActiveIsCurrent;
    CallerKnown(w.auth, t.job.caller, t.authority);
    NewWriters(w.auth, w.st.lists, WriterOf(t), next.lists, w.st.epoch);
  }

  // ------------------------------------------------------- administrative events

  lemma AdminDegrades(cfg: Config, s: DurableState, ctx: Context, id: u64, expected: u64, event: LifecycleEvent)
    requires AdminEvent(event) && ActiveIsCurrent(s.lists) && TransitionState(cfg, s, ctx, id, expected, event).Some?
    ensures Degraded(s.lists, TransitionState(cfg, s, ctx, id, expected, event).value.lists)
  {
    hide AttemptPosition; hide RecordAttempt; hide TransitionRecord;
    var i := Position(s.lists, id);
    var l := Transitioned(ctx, s.lists[i], Transition(s.lists[i].state, event).value, s.revision + 1);
    assert Degrade(s.lists[i], l);
    assert TransitionState(cfg, s, ctx, id, expected, event).value.lists == s.lists[i := l];
  }

  lemma AdminOutgoing(cfg: Config, w: World, t: Thread)
    requires cfg.limits.maxReasons >= 1 && cfg.limits.maxHistory >= 1
    requires WorldInv(cfg, w) && t.job.Administer? && AdminEvent(t.job.event)
    requires CaptureOk(cfg, w, t) && Valid(cfg, t) && t.storeRevision == w.st.revision
    requires PublishersKnown(w.auth, t.authority.publishers) && w.st.epoch <= t.authority.epoch <= w.auth.epoch
    requires Outgoing(cfg, w.st, t).Some?
    ensures NextOk(cfg, w, t.(phase := Stamping(0), next := Outgoing(cfg, w.st, t).value.(epoch := t.authority.epoch)))
  {
    hide *;
    var next := OutgoingAdmin(cfg, w, t);
    AdminNext(cfg, w, t, next);
  }

  lemma OutgoingAdmin(cfg: Config, w: World, t: Thread) returns (next: DurableState)
    requires cfg.limits.maxReasons >= 1 && cfg.limits.maxHistory >= 1
    requires WorldInv(cfg, w) && t.job.Administer? && AdminEvent(t.job.event)
    requires CaptureOk(cfg, w, t) && Valid(cfg, t) && t.storeRevision == w.st.revision
    requires Outgoing(cfg, w.st, t).Some?
    ensures Some(next) == Outgoing(cfg, w.st, t)
    ensures StateGood(cfg, next) && ListsStep(w.st.lists, next.lists) && Degraded(w.st.lists, next.lists)
    ensures next == w.st.(revision := w.st.revision + 1, lists := next.lists, history := next.history,
                          attempts := next.attempts)
    ensures HistoryStep(cfg.limits.maxHistory, w.st.history, next.history)
    ensures WrittenBy(WriterOf(t), w.st.lists, next.lists)
    ensures RecordsStep(w.st.attempts, next.attempts, OwnRecord(cfg, w.st, t.job))
    ensures GoodCaller(t.job.caller, t.authority)
  {
    hide ListsStep; hide HistoryStep; hide WrittenBy; hide TransitionState; hide AttemptPayload; hide AttemptAccepted;
    hide AuthGood; hide WritersBelow; hide WritersKnown; hide RegGood; hide GoodCaller; hide TablesGood; hide Degraded;
    hide TransitionValid; hide FindList; hide AdminEvent; hide UniqueIds; hide UniqueAttempts; hide HistoryGood;
    hide ActiveIsCurrent;
    var j := t.job;
    TransitionLaws(cfg, w.st, Ctx(t), j.list, j.expected, j.event);
    AdminDegrades(cfg, w.st, Ctx(t), j.list, j.expected, j.event);
    next := Outgoing(cfg, w.st, t).value;
    AdminCaller(cfg, Ctx(t), t.found[0].existing.value, j.expected, j.event);
  }

  lemma AdminNext(cfg: Config, w: World, t: Thread, next: DurableState)
    requires WorldInv(cfg, w) && t.job.Administer?
    requires StateGood(cfg, next) && ListsStep(w.st.lists, next.lists) && Degraded(w.st.lists, next.lists)
    requires next == w.st.(revision := w.st.revision + 1, lists := next.lists, history := next.history,
                           attempts := next.attempts)
    requires HistoryStep(cfg.limits.maxHistory, w.st.history, next.history)
    requires WrittenBy(WriterOf(t), w.st.lists, next.lists)
    requires RecordsStep(w.st.attempts, next.attempts, OwnRecord(cfg, w.st, t.job))
    requires GoodCaller(t.job.caller, t.authority)
    requires PublishersKnown(w.auth, t.authority.publishers) && w.st.epoch <= t.authority.epoch <= w.auth.epoch
    ensures NextOk(cfg, w, t.(phase := Stamping(0), next := next.(epoch := t.authority.epoch)))
  {
    hide ListsStep; hide HistoryStep; hide RecordsStep; hide AttemptPayload; hide GoodCaller; hide Degraded;
    hide PublishersKnown; hide WrittenBy; hide WritersBelow; hide WritersKnown; hide KnowsBoot; hide AuthGood;
    hide ProfilesGood; hide PoliciesGood; hide UniqueIds; hide UniqueAttempts; hide Consecutive; hide ActiveIsCurrent;
    CallerKnown(w.auth, t.job.caller, t.authority);
    NewWriters(w.auth, w.st.lists, WriterOf(t), next.lists, w.st.epoch);
  }

  lemma CheckMarkKeeps(cfg: Config, w: World, t: Thread)
    requires cfg.limits.maxReasons >= 1 && cfg.limits.maxHistory >= 1 && WorldInv(cfg, w)
    requires t.phase.EpochChecked? && ThreadInv(cfg, w, t)
    ensures ThreadInv(cfg, w, CheckMark(cfg, w, t))
  {
    hide RoomForAttempt; hide PublishersKnown; hide Valid; hide CaptureOk; hide TablesMatch; hide Capturing;
    hide IsAtomic; hide NextOk; hide Outgoing; hide WorldInv; hide StoreShape; hide AdminEvent;
    var u := CheckMark(cfg, w, t);
    if !u.phase.Idle? {
      Carry(cfg, w, t, u);
      AtIsNow(w, t);
      if t.job.Mutate? {
        BatchOutgoing(cfg, w, t);
        CommitIsAtomicStep(cfg, w, t);
      } else {
        AdminOutgoing(cfg, w, t);
      }
    }
  }

  // ------------------------------------------------------ saves without a mutation

  lemma NothingChanged(cfg: Config, s: DurableState)
    requires StateGood(cfg, s)
    ensures ListsStep(s.lists, s.lists) && Degraded(s.lists, s.lists)
    ensures HistoryStep(cfg.limits.maxHistory, s.history, s.history) && RecordsStep(s.attempts, s.attempts, None)
  {
    HistoryRefl(cfg.limits.maxHistory, s.history);
  }

  lemma BelowMore(ls: seq<SegmentList>, a: u64, b: u64)
    requires WritersBelow(ls, a) && a <= b
    ensures WritersBelow(ls, b)
  {}

  lemma BeginSaveKeeps(cfg: Config, w: World, t: Thread)
    requires t.phase.Begun? && (t.job.SaveRegistry? || t.job.PersistNow?) && WorldInv(cfg, w)
    ensures ThreadInv(cfg, w, Begin(cfg, w, t))
  {
    hide ListsStep; hide HistoryStep; hide RecordsStep; hide AttemptPayload; hide Degraded; hide WritersBelow;
    hide WritersKnown; hide AuthGood; hide ProfilesGood; hide PoliciesGood; hide UniqueIds; hide UniqueAttempts;
    hide Consecutive; hide ActiveIsCurrent;
    NothingChanged(cfg, w.st);
    BelowMore(w.st.lists, w.st.epoch, w.auth.epoch);
  }

  // --------------------------------------------------------------------- stamping

  lemma StampKeepsNext(cfg: Config, w: World, t: Thread, part: nat)
    requires part < 4 && t.phase == Stamping(part) && WorldInv(cfg, w) && NextOk(cfg, w, t) && TablesCover(w, t)
    ensures NextOk(cfg, w, StampPart(w, t, part)) && TablesCover(w, StampPart(w, t, part))
  {
    hide ListsStep; hide HistoryStep; hide RecordsStep; hide AttemptPayload; hide Degraded; hide WritersBelow;
    hide WritersKnown; hide ProfilesGood; hide PoliciesGood; hide UniqueIds; hide UniqueAttempts;
    hide Consecutive; hide ActiveIsCurrent; hide BatchDigest; hide UniquePublishers; hide Recoverable;
  }

  lemma StampKeepsAtomic(cfg: Config, w: World, t: Thread, u: Thread)
    requires t.job.Mutate? && IsAtomic(cfg, t)
    requires u == t.(phase := u.phase, next := u.next, verdict := u.verdict) && SameUpToTables(u.next, t.next)
    requires u.next.epoch == t.next.epoch
    ensures IsAtomic(cfg, u)
  {
    hide AtomicBatch;
  }

  lemma StampKeeps(cfg: Config, w: World, t: Thread, part: nat)
    requires part < 4 && t.phase == Stamping(part) && WorldInv(cfg, w) && ThreadInv(cfg, w, t)
    ensures ThreadInv(cfg, w, StampPart(w, t, part))
  {
    hide RoomForAttempt; hide PublishersKnown; hide Valid; hide CaptureOk; hide TablesMatch; hide Capturing;
    hide IsAtomic; hide NextOk; hide TablesCover; hide WorldInv; hide JobOk;
    var u := StampPart(w, t, part);
    StampKeepsNext(cfg, w, t, part);
    if Mutation(t) {
      Carry(cfg, w, t, u);
      if t.job.Mutate? { StampKeepsAtomic(cfg, w, t, u); }
    }
  }

  lemma SaveKeeps(cfg: Config, w: World, t: Thread)
    requires t.phase == Stamping(4) && ThreadInv(cfg, w, t)
    ensures ThreadInv(cfg, w, t.(phase := Saved))
  {
    hide RoomForAttempt; hide PublishersKnown; hide Valid; hide CaptureOk; hide TablesMatch; hide Capturing;
    hide IsAtomic; hide JobOk; hide ListsStep; hide HistoryStep; hide RecordsStep; hide Degraded; hide WritersBelow;
    hide WritersKnown; hide StateGood; hide TablesGood; hide BatchDigest; hide AttemptPayload;
    if Mutation(t) {
      Carry(cfg, w, t, t.(phase := Saved));
      if t.job.Mutate? { StampKeepsAtomic(cfg, w, t, t.(phase := Saved)); }
    }
  }

  // ---------------------------------------------------------------------- refresh

  lemma RefreshDegrades(reg: Registry, auth: Authority, epoch: u64, e: Evidence, x: SegmentList, y: SegmentList)
    requires Degrade(x, y)
    ensures Degrade(x, RefreshOne(reg, auth, epoch, e, y))
            && RefreshOne(reg, auth, epoch, e, y).authority == y.authority
  {
    hide Recheck;
  }

  lemma SweepListKeeps(cfg: Config, w: World, t: Thread, k: nat)
    requires k < |t.next.lists| && SweepOk(cfg, w, t)
    ensures SweepOk(cfg, w, Sweep(w, t, k))
  {
    hide Degrade; hide RefreshOne;
    RefreshDegrades(w.reg, w.auth, t.authority.epoch, t.evidence, w.st.lists[k], t.next.lists[k]);
  }

  lemma SweptLists(cfg: Config, was: DurableState, s: DurableState)
    requires StateGood(cfg, was) && s == was.(lists := s.lists, revision := s.revision) && Degraded(was.lists, s.lists)
    ensures StateGood(cfg, s) && ListsStep(was.lists, s.lists)
  {
    hide SameRevision; hide Consecutive;
  }

  lemma SameWriters(was: seq<SegmentList>, ls: seq<SegmentList>, epoch: u64, publishers: seq<Publisher>,
                    fenced: seq<u64>)
    requires |ls| == |was| && forall i :: 0 <= i < |ls| ==> ls[i].authority == was[i].authority
    ensures WritersBelow(was, epoch) ==> WritersBelow(ls, epoch)
    ensures WritersKnown(was, publishers, fenced) ==> WritersKnown(ls, publishers, fenced)
  {
    hide KnowsBoot;
  }

  lemma SweepEnds(cfg: Config, w: World, t: Thread)
    requires WorldInv(cfg, w) && SweepOk(cfg, w, t) && t.job.Refresh?
    ensures var u := t.(phase := Stamping(4), next := t.next.(revision := w.st.revision + 1));
            NextOk(cfg, w, u) && TablesCover(w, u)
  {
    hide StateGood; hide TablesGood; hide ListsStep; hide HistoryStep; hide RecordsStep; hide AttemptPayload;
    hide Degrade; hide WritersBelow; hide WritersKnown; hide AuthGood; hide RegGood;
    var u := t.(phase := Stamping(4), next := t.next.(revision := w.st.revision + 1));
    NothingChanged(cfg, w.st);
    SweptLists(cfg, w.st, u.next);
    SameWriters(w.st.lists, u.next.lists, w.st.epoch, w.auth.publishers, w.auth.fencedBoots);
    SameWriters(w.st.lists, u.next.lists, w.st.epoch, w.st.publishers, w.st.fencedBoots);
    SameTables(w.st, u.next);
  }

  lemma SameTables(s: DurableState, t: DurableState)
    requires TablesGood(s) && t.profiles == s.profiles && t.policies == s.policies && t.publishers == s.publishers
    requires t.fencedBoots == s.fencedBoots
    ensures TablesGood(t)
  {}

  lemma SweepKeeps(cfg: Config, w: World, t: Thread, k: nat)
    requires t.phase == Sweeping(k) && WorldInv(cfg, w) && ThreadInv(cfg, w, t)
    ensures ThreadInv(cfg, w, Sweep(w, t, k))
  {
    hide SweepOk; hide NextOk; hide TablesCover; hide WorldInv; hide JobOk;
    if k < |t.next.lists| { SweepListKeeps(cfg, w, t, k); } else { SweepEnds(cfg, w, t); }
  }

  lemma SweepBegins(cfg: Config, w: World, t: Thread)
    requires t.phase.Dated? && WorldInv(cfg, w) && ThreadInv(cfg, w, t)
    ensures ThreadInv(cfg, w, t.(phase := Sweeping(0), next := w.st))
  {
    hide Degraded; hide JobOk; hide ListsStep; hide HistoryStep; hide RecordsStep; hide AuthGood; hide RegGood;
    NothingChanged(cfg, w.st);
  }

  // ----------------------------------------------------------------------- commit

  /** What becomes visible is a state one can build on. */
  lemma SwapKeepsWorld(cfg: Config, w: World, t: Thread)
    requires WorldInv(cfg, w) && NextOk(cfg, w, t) && TablesCover(w, t) && t.phase.Saved?
    ensures WorldInv(cfg, w.(st := t.next))
  {
    hide StateGood; hide TablesGood; hide ListsStep; hide HistoryStep; hide RecordsStep; hide Degraded;
    hide WritersBelow; hide WritersKnown; hide AuthGood; hide RegGood; hide BatchDigest; hide AttemptPayload;
  }

  lemma ImageRecoverable(cfg: Config, w: World, t: Thread)
    requires NextOk(cfg, w, t) && TablesCover(w, t) && t.phase == Stamping(4)
    ensures Recoverable(cfg, ImageOf(t, w.st))
  {
    hide UniqueIds; hide UniqueAttempts; hide Consecutive; hide ActiveIsCurrent; hide ProfilesGood; hide PoliciesGood;
    hide ListsStep; hide HistoryStep; hide RecordsStep; hide Degraded; hide WritersBelow; hide WritersKnown;
    hide BatchDigest; hide AttemptPayload;
  }
}
