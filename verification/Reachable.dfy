/** Which reachable states the image format carries. */
module SrfReachable {
  import opened SrfTypes
  import opened SrfReasons
  import opened SrfLifecycle
  import opened SrfCanonical
  import opened SrfValidation
  import opened SrfAuthority
  import opened SrfRegistry
  import opened SrfStoreModel
  import opened SrfStoreLaws
  import opened SrfCommitLaws
  import opened SrfRecovery
  import opened SrfProtocol
  import opened SrfProtocolInv
  import opened SrfProtocolSteps
  import opened SrfProtocolRuns
  import opened SrfProtocolTheorems
  import opened SrfImageRecords
  import opened SrfImage

  /** What is taken for granted about payload widths: nothing, or that all generations of a profile have one width. */
  datatype Widths = Any | Kept(of: u64 -> u32)

  ghost predicate WidthsKept(cfg: Config, f: Widths, ps: seq<Profile>) {
    f.Kept? ==> forall i :: 0 <= i < |ps| ==>
      && ps[i].payloadWidth == f.of(ps[i].id) && 1 <= f.of(ps[i].id) <= cfg.limits.maxPayloadBytes
      && f.of(ps[i].id) <= 0xFFFF
  }

  /** A revision as a batch makes it; with digests at the width of its profile, if that is the only one. */
  ghost predicate ListMade(cfg: Config, f: Widths, l: SegmentList) {
    && ListShapeOk(cfg.limits, l) && l.content.profile != 0
    && (f.Kept? ==>
          && SequenceDigest(cfg.digest, l.content.segments, f.of(l.content.profile)) == l.sequenceDigest
          && ContentDigest(cfg.digest, l.content, f.of(l.content.profile)) == l.contentDigest)
  }

  ghost predicate ListsMade(cfg: Config, f: Widths, ls: seq<SegmentList>) {
    forall i :: 0 <= i < |ls| ==> ListMade(cfg, f, ls[i])
  }

  ghost predicate HasProfile(ps: seq<Profile>, id: u64) { exists i :: 0 <= i < |ps| && ps[i].id == id }

  ghost predicate ProfilesPresent(ls: seq<SegmentList>, ps: seq<Profile>) {
    forall i :: 0 <= i < |ls| ==> HasProfile(ps, ls[i].content.profile)
  }

  /** Ids and generations on record are valid. */
  ghost predicate LogsMade(s: DurableState) {
    && (forall i :: 0 <= i < |s.history| ==> HistoryOk(s.history[i]))
    && (forall i :: 0 <= i < |s.attempts| ==> s.attempts[i].attempt != 0)
  }

  ghost predicate Generated(ls: seq<SegmentList>) { forall i :: 0 <= i < |ls| ==> ls[i].generation != 0 }

  // -------------------------------------------------------------- the parts of a state

  lemma SameIsMade(cfg: Config, f: Widths, x: SegmentList, y: SegmentList)
    requires ListMade(cfg, f, x) && SameRevision(x, y)
    ensures ListMade(cfg, f, y) && y.content.profile == x.content.profile
  {
    hide SequenceDigest; hide ContentDigest; hide SegmentsOk;
  }

  lemma MadeGenerated(cfg: Config, f: Widths, ls: seq<SegmentList>)
    requires ListsMade(cfg, f, ls)
    ensures Generated(ls)
  {
    hide SequenceDigest; hide ContentDigest; hide SegmentsOk;
  }

  /** Profiles keep their places, so a list whose profile is registered stays one. */
  lemma PresenceStays(a: Registry, b: Registry, ls: seq<SegmentList>)
    requires RegMoves(a, b) && ProfilesPresent(ls, a.profiles)
    ensures ProfilesPresent(ls, b.profiles)
  {
    forall i | 0 <= i < |ls| ensures HasProfile(b.profiles, ls[i].content.profile) {
      var k :| 0 <= k < |a.profiles| && a.profiles[k].id == ls[i].content.profile;
      assert b.profiles[k].id == ls[i].content.profile;
    }
  }

  lemma AppendKeepsLogs(lim: Limits, s: DurableState, l: SegmentList)
    requires LogsMade(s) && l.generation != 0
    ensures LogsMade(AppendHistory(lim, s, l))
  {}

  lemma RecordKeepsLogs(s: DurableState, r: Attempt)
    requires LogsMade(s) && r.attempt != 0
    ensures LogsMade(s.(attempts := RecordAttempt(s.attempts, r)))
  {
    hide AttemptPosition;
  }

  lemma SupersedeKeepsLogs(lim: Limits, s: DurableState, target: u64, heir: u64)
    requires LogsMade(s) && Generated(s.lists) && Supersede(lim, s, target, heir).Some?
    ensures var t := Supersede(lim, s, target, heir).value; LogsMade(t) && Generated(t.lists)
  {
    hide Transition; hide AppendHistory;
    var i := Position(s.lists, target);
    if i < |s.lists| {
      var next := Transition(s.lists[i].state, SupersedeBegin).value;
      var other := s.lists[i].(state := next, lineage := s.lists[i].lineage.(supersededBy := heir),
                               currentness := Unknown, committedRevision := s.revision);
      AppendKeepsLogs(lim, s.(lists := s.lists[i := other]), other);
      AppendLists(lim, s.(lists := s.lists[i := other]), other);
    }
  }

  lemma AppendLists(lim: Limits, s: DurableState, l: SegmentList)
    ensures AppendHistory(lim, s, l).lists == s.lists && AppendHistory(lim, s, l).attempts == s.attempts
  {}

  lemma InstallKeepsLogs(lim: Limits, s: DurableState, pm: Prepared)
    requires LogsMade(s) && Generated(s.lists) && pm.list.generation != 0
    ensures LogsMade(Install(lim, s, pm)) && Generated(Install(lim, s, pm).lists)
  {
    hide AppendHistory; hide HistoryOk;
    var i := Position(s.lists, pm.id);
    if i < |s.lists| {
      var replaced := s.lists[i].(state := Superseded, currentness := Unknown);
      var s1 := AppendHistory(lim, s, replaced);
      AppendKeepsLogs(lim, s, replaced);
      AppendLists(lim, s, replaced);
      var s2 := s1.(lists := s1.lists[i := pm.list]);
      AppendKeepsLogs(lim, s2, pm.list);
      AppendLists(lim, s2, pm.list);
    } else {
      var s2 := s.(lists := s.lists + [pm.list]);
      AppendKeepsLogs(lim, s2, pm.list);
      AppendLists(lim, s2, pm.list);
    }
  }

  lemma {:induction false} BatchKeepsLogs(lim: Limits, s: DurableState, pms: seq<Prepared>, attempt: u64,
                                         payload: Digest)
    requires LogsMade(s) && Generated(s.lists) && attempt != 0
    requires forall k :: 0 <= k < |pms| ==> pms[k].list.generation != 0
    requires ApplyAll(lim, s, pms, attempt, payload).Some?
    ensures LogsMade(ApplyAll(lim, s, pms, attempt, payload).value)
    decreases |pms|
  {
    hide Supersede; hide Install; hide RecordAttempt; hide LogsMade; hide Generated;
    if pms != [] {
      var pm := pms[0];
      var s1 := if pm.superseded.Some? then Supersede(lim, s, pm.superseded.value.0, pm.id).value else s;
      if pm.superseded.Some? { SupersedeKeepsLogs(lim, s, pm.superseded.value.0, pm.id); }
      InstallKeepsLogs(lim, s1, pm);
      var s2 := Install(lim, s1, pm);
      RecordKeepsLogs(s2, Attempt(attempt, pm.id, payload, pm.list.generation, true));
      BatchKeepsLogs(lim, ApplyOne(lim, s, pm, attempt, payload).value, pms[1..], attempt, payload);
    }
  }

  lemma AdminKeepsLogs(cfg: Config, s: DurableState, ctx: Context, id: u64, expected: u64, event: LifecycleEvent)
    requires LogsMade(s) && Generated(s.lists) && TransitionState(cfg, s, ctx, id, expected, event).Some?
    ensures LogsMade(TransitionState(cfg, s, ctx, id, expected, event).value)
  {
    hide AppendHistory; hide RecordAttempt; hide LogsMade; hide Transition; hide TransitionRecord; hide Transitioned;
    var i := Position(s.lists, id);
    var l := Transitioned(ctx, s.lists[i], Transition(s.lists[i].state, event).value, s.revision + 1);
    TransitionedGeneration(ctx, s.lists[i], Transition(s.lists[i].state, event).value, s.revision + 1);
    var s0 := s.(revision := s.revision + 1, lists := s.lists[i := l]);
    LogsOnly(s, s0);
    AppendKeepsLogs(cfg.limits, s0, l);
    RecordedAttempt(cfg, s, ctx, i, Transition(s.lists[i].state, event).value, id, expected);
    if ctx.caller.attempt != 0 {
      RecordKeepsLogs(AppendHistory(cfg.limits, s0, l), TransitionRecord(cfg, ctx, l, expected));
    }
  }

  lemma LogsOnly(s: DurableState, t: DurableState)
    requires LogsMade(s) && t.history == s.history && t.attempts == s.attempts
    ensures LogsMade(t)
  {}

  lemma TransitionedGeneration(ctx: Context, x: SegmentList, next: LifecycleState, revision: nat)
    ensures Transitioned(ctx, x, next, revision).generation == x.generation
  {}

  // ----------------------------------------------------------------- a new revision

  lemma StructurallySound(cfg: Config, ctx: Context, shape: Shape, d: Draft, res: Resolved)
    requires cfg.limits.maxReasons >= 1 && DraftValid(cfg, ctx, shape, d, res)
    ensures SegmentsOk(cfg.limits, false, CanonicalizeAll(d.segments)) && |d.segments| <= cfg.limits.maxSegmentsPerList
  {
    hide CallerChecks; hide EpochChecks; hide ListChecks; hide ProfileChecks; hide PolicyChecks; hide StructuralChecks;
    hide CapabilityChecks; hide TopologyChecks; hide ResourceChecks; hide StoreChecks; hide DraftValid; hide PathChecks;
    hide RouteChecks; hide ConstraintChecks;
    AcceptedGroups(cfg, ctx, shape, d, res);
    AcceptedProfile(cfg, ctx, shape, d, res);
    var r := DraftRequest(cfg, ctx, shape, d, res);
    forall i | 0 <= i < |d.segments| ensures SegmentOk(cfg.limits, false, CanonicalizeAll(d.segments)[i]) {
      InvalidKindFails(r, i);
    }
  }

  lemma InvalidKindFails(r: Request, i: nat)
    requires i < |r.segments| <= r.limits.maxSegmentsPerList
    ensures r.segments[i].kind.KindInvalid? ==> exists c :: c in StructuralChecks(r) && c.fails
  {
    hide StructuralRows; hide Gather;
    if r.segments[i].kind.KindInvalid? {
      var parts := StructuralSegments(r, Scan(r));
      GatherMembers(parts);
      var c := C(true, SEGMENT_KIND_INVALID, i, 0);
      assert c in [c] && parts[i] == [c];
      assert c in StructuralChecks(r);
    }
  }

  /** What a validated draft becomes is well made, if its profile keeps its width. */
  lemma NewListMade(cfg: Config, f: Widths, ctx: Context, shape: Shape, d: Draft, res: Resolved, ps: seq<Profile>)
    requires cfg.limits.maxReasons >= 1 && DraftValid(cfg, ctx, shape, d, res)
    requires res.profile == FindProfile(ps, d.profile) && WidthsKept(cfg, f, ps) && ProfilesGood(ps)
    ensures ListMade(cfg, f, MakeList(cfg, ctx, d, res))
    ensures HasProfile(ps, MakeList(cfg, ctx, d, res).content.profile)
  {
    hide SequenceDigest; hide ContentDigest; hide SegmentsOk; hide DraftOutcome; hide UniqueProfiles;
    StructurallySound(cfg, ctx, shape, d, res);
    AcceptedProfile(cfg, ctx, shape, d, res);
    var p := res.profile.value;
    var i :| 0 <= i < |ps| && ps[i] == p;
    assert ps[i].id == p.id;
  }

  lemma AppliedMade(cfg: Config, f: Widths, was: seq<SegmentList>, pms: seq<Prepared>, cur: seq<SegmentList>,
                    ps: seq<Profile>)
    requires ListsMade(cfg, f, was) && ProfilesPresent(was, ps) && Applied(was, pms, cur)
    requires forall k :: 0 <= k < |pms| ==> ListMade(cfg, f, pms[k].list) && HasProfile(ps, pms[k].list.content.profile)
    ensures ListsMade(cfg, f, cur) && ProfilesPresent(cur, ps)
  {
    hide ListMade; hide HasProfile; hide SameRevision;
    forall i | 0 <= i < |cur| ensures ListMade(cfg, f, cur[i]) && HasProfile(ps, cur[i].content.profile) {
      if Placed(pms, cur[i]) {
        var k :| 0 <= k < |pms| && pms[k].id == cur[i].content.id && Became(pms[k].list, cur[i]);
        BecameMade(cfg, f, pms[k].list, cur[i]);
      } else {
        BecameMade(cfg, f, was[i], cur[i]);
      }
    }
  }

  lemma BecameMade(cfg: Config, f: Widths, x: SegmentList, y: SegmentList)
    requires ListMade(cfg, f, x) && Became(x, y)
    ensures ListMade(cfg, f, y) && y.content.profile == x.content.profile
  {
    hide ListMade;
    if y != x { SameIsMade(cfg, f, x, y); }
  }

  lemma DegradedMade(cfg: Config, f: Widths, was: seq<SegmentList>, cur: seq<SegmentList>, ps: seq<Profile>)
    requires ListsMade(cfg, f, was) && ProfilesPresent(was, ps) && Degraded(was, cur)
    ensures ListsMade(cfg, f, cur) && ProfilesPresent(cur, ps)
  {
    hide ListMade; hide HasProfile; hide LineageStep;
    forall i | 0 <= i < |cur| ensures ListMade(cfg, f, cur[i]) && HasProfile(ps, cur[i].content.profile) {
      SameIsMade(cfg, f, was[i], cur[i]);
    }
  }

  lemma RecoveredMade(cfg: Config, f: Widths, ls: seq<SegmentList>, ps: seq<Profile>)
    requires ListsMade(cfg, f, ls) && ProfilesPresent(ls, ps)
    ensures ListsMade(cfg, f, RecoverLists(ls)) && ProfilesPresent(RecoverLists(ls), ps)
  {
    hide ListMade; hide HasProfile;
    forall i | 0 <= i < |ls|
      ensures ListMade(cfg, f, RecoverList(ls[i])) && HasProfile(ps, RecoverList(ls[i]).content.profile)
    {
      RecoverIsClosedStep(ls[i]);
      SameIsMade(cfg, f, ls[i], RecoverList(ls[i]));
    }
  }

  // ------------------------------------------------------------------- whole systems

  ghost predicate StateMade(cfg: Config, f: Widths, s: DurableState) {
    ListsMade(cfg, f, s.lists) && LogsMade(s) && ProfilesPresent(s.lists, s.profiles) && WidthsKept(cfg, f, s.profiles)
  }

  ghost predicate WorldMade(cfg: Config, f: Widths, w: World) {
    StateMade(cfg, f, w.st) && WidthsKept(cfg, f, w.reg.profiles) && ProfilesPresent(w.st.lists, w.reg.profiles)
  }

  ghost predicate NextMade(cfg: Config, f: Widths, w: World, t: Thread) {
    && ListsMade(cfg, f, t.next.lists) && LogsMade(t.next) && ProfilesPresent(t.next.lists, w.reg.profiles)
    && WidthsKept(cfg, f, t.next.profiles)
    && ((t.phase.Stamping? && t.phase.part > 0) || t.phase.Saved? ==> ProfilesPresent(t.next.lists, t.next.profiles))
  }

  ghost predicate AtMade(cfg: Config, f: Widths, t: Thread) {
    WidthsKept(cfg, f, t.at.reg.profiles) && ProfilesGood(t.at.reg.profiles)
  }

  ghost predicate ThreadMade(cfg: Config, f: Widths, w: World, t: Thread) {
    && (t.phase.Sweeping? || t.phase.Stamping? || t.phase.Saved? ==> NextMade(cfg, f, w, t))
    && (t.job.Mutate? && (t.phase.RegistryChecked? || t.phase.EpochChecked?) ==> AtMade(cfg, f, t))
  }

  ghost predicate Made(cfg: Config, f: Widths, s: System) {
    && WorldMade(cfg, f, s.w) && (s.w.disk.Some? ==> StateMade(cfg, f, s.w.disk.value))
    && forall i :: 0 <= i < |s.threads| ==> ThreadMade(cfg, f, s.w, s.threads[i])
  }

  lemma PreparedMade(cfg: Config, f: Widths, t: Thread, ps: seq<Profile>)
    requires cfg.limits.maxReasons >= 1 && t.job.Mutate? && |t.found| == |t.job.drafts|
    requires PrepareAll(cfg, Ctx(t), t.job.shape, t.job.drafts, t.found).Some?
    requires forall k :: 0 <= k < |t.found| ==> t.found[k].profile == FindProfile(ps, t.job.drafts[k].profile)
    requires WidthsKept(cfg, f, ps) && ProfilesGood(ps)
    ensures var pms := PrepareAll(cfg, Ctx(t), t.job.shape, t.job.drafts, t.found).value;
            forall k :: 0 <= k < |pms| ==> ListMade(cfg, f, pms[k].list) && HasProfile(ps, pms[k].list.content.profile)
  {
    hide ListMade; hide HasProfile; hide MakeList; hide DraftOutcome; hide WidthsKept; hide ProfilesGood;
    hide FindProfile;
    var ds, rs := t.job.drafts, t.found;
    var pms := PrepareAll(cfg, Ctx(t), t.job.shape, ds, rs).value;
    forall k | 0 <= k < |pms| ensures ListMade(cfg, f, pms[k].list) && HasProfile(ps, pms[k].list.content.profile) {
      assert DraftValid(cfg, Ctx(t), t.job.shape, ds[k], rs[k]);
      assert pms[k] == Prepare(cfg, Ctx(t), ds[k], rs[k]);
      NewListMade(cfg, f, Ctx(t), t.job.shape, ds[k], rs[k], ps);
    }
  }

  lemma GenerationsMade(cfg: Config, f: Widths, pms: seq<Prepared>, ps: seq<Profile>)
    requires forall k :: 0 <= k < |pms| ==> ListMade(cfg, f, pms[k].list) && HasProfile(ps, pms[k].list.content.profile)
    ensures forall k :: 0 <= k < |pms| ==> pms[k].list.generation != 0
  {
    hide SequenceDigest; hide ContentDigest; hide SegmentsOk; hide HasProfile;
  }

  /** A committed batch leaves well-made lists and logs. */
  lemma BatchMade(cfg: Config, f: Widths, w: World, t: Thread, next: DurableState)
    requires Sized(cfg) && WorldInv(cfg, w) && StateMade(cfg, f, w.st) && AtMade(cfg, f, t)
    requires ProfilesPresent(w.st.lists, w.reg.profiles)
    requires t.job.Mutate? && StoreShape(t.job.shape) && AtOk(w, t) && CaptureOk(cfg, w, t) && Valid(cfg, t)
    requires t.storeRevision == w.st.revision && Outgoing(cfg, w.st, t) == Some(next)
    ensures ListsMade(cfg, f, next.lists) && LogsMade(next) && ProfilesPresent(next.lists, w.reg.profiles)
  {
    hide *;
    var ds, a, payload := t.job.drafts, t.job.caller.attempt, BatchDigest(cfg.digest, t.job.drafts);
    var ps := t.at.reg.profiles;
    var pms := BatchParts(cfg, f, w, t, next);
    BatchProgress(cfg, w, t, next);
    RegistryMoved(w, t);
    LogsStart(cfg, f, w.st);
    GenerationsMade(cfg, f, pms, ps);
    BatchKeepsLogs(cfg.limits, w.st.(revision := w.st.revision + 1), pms, a, payload);
    ListsStart(cfg, f, w, t, pms);
    AppliedMade(cfg, f, w.st.lists, pms, next.lists, w.reg.profiles);
  }

  lemma RegistryMoved(w: World, t: Thread)
    requires AtOk(w, t)
    ensures RegMoves(t.at.reg, w.reg)
  {}

  lemma LogsStart(cfg: Config, f: Widths, s: DurableState)
    requires StateMade(cfg, f, s)
    ensures var t := s.(revision := s.revision + 1); LogsMade(t) && Generated(t.lists) && ListsMade(cfg, f, s.lists)
  {
    MadeGenerated(cfg, f, s.lists);
  }

  /** What the batch is applied from: prepared revisions, well made over the registry that was checked. */
  lemma BatchParts(cfg: Config, f: Widths, w: World, t: Thread, next: DurableState) returns (pms: seq<Prepared>)
    requires Sized(cfg) && AtMade(cfg, f, t) && t.job.Mutate? && AtOk(w, t) && CaptureOk(cfg, w, t) && Valid(cfg, t)
    requires Outgoing(cfg, w.st, t) == Some(next)
    ensures PrepareAll(cfg, Ctx(t), t.job.shape, t.job.drafts, t.found) == Some(pms)
    ensures forall k :: 0 <= k < |pms| ==>
              ListMade(cfg, f, pms[k].list) && HasProfile(t.at.reg.profiles, pms[k].list.content.profile)
    ensures ApplyAll(cfg.limits, w.st.(revision := w.st.revision + 1), pms, t.job.caller.attempt,
                     BatchDigest(cfg.digest, t.job.drafts)) == Some(next)
    ensures t.job.caller.attempt != 0
  {
    hide ListMade; hide HasProfile; hide PrepareAll; hide BatchDigest; hide RoomForAttempt; hide ProfilesGood;
    hide WidthsKept; hide FindProfile; hide FindList; hide FindPolicy; hide ListsMatch; hide RegMoves; hide ApplyAll;
    hide StillCurrent; hide RoomFor;
    var ds := t.job.drafts;
    pms := PrepareAll(cfg, Ctx(t), t.job.shape, ds, t.found).value;
    PreparedMade(cfg, f, t, t.at.reg.profiles);
    AttemptNonzero(cfg, Ctx(t), t.job.shape, ds, t.found);
  }

  lemma BatchProgress(cfg: Config, w: World, t: Thread, next: DurableState)
    requires Sized(cfg) && WorldInv(cfg, w) && t.job.Mutate? && StoreShape(t.job.shape)
    requires CaptureOk(cfg, w, t) && Valid(cfg, t) && t.storeRevision == w.st.revision
    requires Outgoing(cfg, w.st, t) == Some(next)
    ensures Applied(w.st.lists, PrepareAll(cfg, Ctx(t), t.job.shape, t.job.drafts, t.found).value, next.lists)
  {
    hide PrepareAll; hide BatchDigest; hide CaptureOk; hide BatchState; hide AuthGood; hide RegGood; hide WritersKnown;
    hide WritersBelow; hide TablesGood; hide AttemptAccepted; hide Applied; hide StateGood; hide ResolvedIn;
    hide HistoryGood; hide HistoryStep; hide AttemptPayload; hide AttemptPosition; hide UniqueAttempts;
    DraftsResolved(cfg, w, t);
    var u := BatchInProgress(cfg, Ctx(t), t.job.shape, t.job.drafts, t.found, w.st,
                             BatchDigest(cfg.digest, t.job.drafts));
  }

  lemma ListsStart(cfg: Config, f: Widths, w: World, t: Thread, pms: seq<Prepared>)
    requires RegMoves(t.at.reg, w.reg)
    requires forall k :: 0 <= k < |pms| ==>
               ListMade(cfg, f, pms[k].list) && HasProfile(t.at.reg.profiles, pms[k].list.content.profile)
    ensures forall k :: 0 <= k < |pms| ==>
              ListMade(cfg, f, pms[k].list) && HasProfile(w.reg.profiles, pms[k].list.content.profile)
  {
    hide ListMade;
    forall k | 0 <= k < |pms| ensures HasProfile(w.reg.profiles, pms[k].list.content.profile) {
      var i :| 0 <= i < |t.at.reg.profiles| && t.at.reg.profiles[i].id == pms[k].list.content.profile;
      assert w.reg.profiles[i].id == pms[k].list.content.profile;
    }
  }

  lemma AdminMade(cfg: Config, f: Widths, w: World, t: Thread, next: DurableState)
    requires WorldInv(cfg, w) && StateMade(cfg, f, w.st) && ProfilesPresent(w.st.lists, w.reg.profiles)
    requires t.job.Administer? && AdminEvent(t.job.event) && Outgoing(cfg, w.st, t) == Some(next)
    ensures ListsMade(cfg, f, next.lists) && LogsMade(next) && ProfilesPresent(next.lists, w.reg.profiles)
  {
    hide TransitionState; hide ListsMade; hide LogsMade; hide ProfilesPresent; hide Degraded; hide Generated;
    hide WidthsKept; hide AuthGood; hide RegGood; hide WritersKnown; hide WritersBelow; hide TablesGood;
    hide UniqueIds; hide UniqueAttempts; hide HistoryGood; hide ActiveIsCurrent; hide AdminEvent;
    var j := t.job;
    MadeGenerated(cfg, f, w.st.lists);
    AdminKeepsLogs(cfg, w.st, Ctx(t), j.list, j.expected, j.event);
    AdminDegrades(cfg, w.st, Ctx(t), j.list, j.expected, j.event);
    DegradedMade(cfg, f, w.st.lists, next.lists, w.reg.profiles);
  }

  lemma CheckMarkMade(cfg: Config, f: Widths, w: World, t: Thread)
    requires Sized(cfg) && WorldInv(cfg, w) && WorldMade(cfg, f, w) && t.phase.EpochChecked?
    requires ThreadInv(cfg, w, t) && ThreadMade(cfg, f, w, t)
    ensures ThreadMade(cfg, f, w, CheckMark(cfg, w, t))
  {
    hide ListsMade; hide LogsMade; hide ProfilesPresent; hide WidthsKept; hide WorldInv; hide Outgoing; hide AtOk;
    hide CaptureOk; hide Valid; hide AtMade; hide PublishersKnown; hide IsAtomic; hide NextOk; hide StoreShape;
    hide AdminEvent; hide RoomForAttempt; hide SeenEvidence;
    var u := CheckMark(cfg, w, t);
    if !u.phase.Idle? {
      var next := Outgoing(cfg, w.st, t).value;
      if t.job.Mutate? { BatchMade(cfg, f, w, t, next); } else { AdminMade(cfg, f, w, t, next); }
      LogsOnly(next, u.next);
      OutgoingProfiles(cfg, w, t, next);
    }
  }

  lemma OutgoingProfiles(cfg: Config, w: World, t: Thread, next: DurableState)
    requires Sized(cfg) && WorldInv(cfg, w) && ThreadInv(cfg, w, t) && t.phase.EpochChecked?
    requires Outgoing(cfg, w.st, t) == Some(next)
    ensures next.profiles == w.st.profiles
  {
    hide Outgoing; hide WorldInv; hide CaptureOk; hide Valid; hide StoreShape; hide ThreadInv; hide OwnRecord;
    hide AdminEvent; hide StateGood; hide ListsStep; hide HistoryStep; hide WrittenBy; hide RecordsStep;
    hide AttemptPayload; hide GoodCaller; hide Degraded; hide BatchDigest;
    ReadyToSend(cfg, w, t);
    if t.job.Mutate? {
      var n := OutgoingBatch(cfg, w, t);
    } else {
      var n := OutgoingAdmin(cfg, w, t);
    }
  }

  lemma ReadyToSend(cfg: Config, w: World, t: Thread)
    requires ThreadInv(cfg, w, t) && t.phase.EpochChecked?
    ensures Mutation(t) && CaptureOk(cfg, w, t) && Valid(cfg, t) && t.storeRevision == w.st.revision
    ensures (t.job.Mutate? ==> StoreShape(t.job.shape)) && (t.job.Administer? ==> AdminEvent(t.job.event))
  {
    hide CaptureOk; hide Valid; hide PublishersKnown; hide AtOk; hide StoreShape; hide AdminEvent;
    hide RoomForAttempt; hide SeenEvidence; hide NextOk; hide IsAtomic;
  }

  /** Every step of a thread keeps what it is about to save, and what it makes visible, well made. */
  lemma ActMade(cfg: Config, f: Widths, w: World, t: Thread, fails: bool)
    requires Sized(cfg) && WorldInv(cfg, w) && WorldMade(cfg, f, w) && !t.phase.Idle?
    requires ThreadInv(cfg, w, t) && ThreadMade(cfg, f, w, t)
    ensures var m := Act(cfg, w, t, fails); ThreadMade(cfg, f, m.w, m.t) && WorldMade(cfg, f, m.w)
    ensures var m := Act(cfg, w, t, fails);
            m.w.disk != w.disk ==> m.w.disk.Some? && StateMade(cfg, f, m.w.disk.value)
  {
    hide ListsMade; hide LogsMade; hide ProfilesPresent; hide WidthsKept; hide WorldInv; hide ThreadInv;
    hide CheckMark; hide Sweep; hide ProfilesGood;
    match t.phase
    case EpochChecked => CheckMarkMade(cfg, f, w, t);
    case Sweeping(k) => SweepMade(cfg, f, w, t, k);
    case Relocked => RegistryGoodNow(cfg, w);
    case Stamping(part) => StampMade(cfg, f, w, t, part, fails);
    case Saved => LogsOnly(t.next, t.next);
    case Begun => if t.job.SaveRegistry? || t.job.PersistNow? { LogsOnly(w.st, Begin(cfg, w, t).next); }
    case Marked => {}
    case Observed => {}
    case Dated => {}
    case Entered => {}
    case GotEpoch => {}
    case GotPublishers => {}
    case GotFenced => {}
    case Resolving(_) => {}
    case Captured => {}
    case Validated => {}
    case RegistryChecked => {}
  }

  lemma RegistryGoodNow(cfg: Config, w: World)
    requires WorldInv(cfg, w)
    ensures ProfilesGood(w.reg.profiles)
  {}

  lemma SweepMade(cfg: Config, f: Widths, w: World, t: Thread, k: nat)
    requires WorldInv(cfg, w) && WorldMade(cfg, f, w) && t.phase == Sweeping(k) && ThreadInv(cfg, w, t)
    ensures ThreadMade(cfg, f, w, Sweep(w, t, k))
  {
    hide ListsMade; hide LogsMade; hide ProfilesPresent; hide WidthsKept; hide WorldInv; hide Degraded; hide Gathered;
    hide RefreshOne;
    var u := Sweep(w, t, k);
    if k < |t.next.lists| { SweepListKeeps(cfg, w, t, k); }
    if !u.phase.Idle? {
      DegradedMade(cfg, f, w.st.lists, u.next.lists, w.reg.profiles);
      DegradedMade(cfg, f, w.st.lists, u.next.lists, w.st.profiles);
      LogsOnly(w.st, u.next);
    }
  }

  lemma StampMade(cfg: Config, f: Widths, w: World, t: Thread, part: nat, fails: bool)
    requires WorldMade(cfg, f, w) && t.phase == Stamping(part) && ThreadMade(cfg, f, w, t) && ThreadInv(cfg, w, t)
    ensures var m := Act(cfg, w, t, fails); ThreadMade(cfg, f, m.w, m.t) && WorldMade(cfg, f, m.w)
    ensures var m := Act(cfg, w, t, fails);
            m.w.disk != w.disk ==> m.w.disk.Some? && StateMade(cfg, f, m.w.disk.value)
  {
    hide ListsMade; hide LogsMade; hide ProfilesPresent; hide WidthsKept; hide ThreadInv; hide NextOk; hide Gathered;
    if part < 4 {
      LogsOnly(t.next, StampPart(w, t, part).next);
    } else if !fails {
      LogsOnly(t.next, ImageOf(t, w.st));
    }
  }

  // ------------------------------------------------------------------------- runs

  /** Profile widths never change, and fit the payload limit and the width field, throughout the run. */
  ghost predicate WidthsStable(cfg: Config, f: Widths, r: Trace) {
    forall k :: 0 <= k < |r.states| ==> WidthsKept(cfg, f, r.states[k].w.reg.profiles)
  }

  lemma OthersMade(cfg: Config, f: Widths, w: World, v: World, t: Thread)
    requires ThreadMade(cfg, f, w, t) && RegMoves(w.reg, v.reg)
    ensures ThreadMade(cfg, f, v, t)
  {
    hide ListsMade; hide LogsMade; hide WidthsKept; hide ProfilesPresent; hide ProfilesGood;
    if ProfilesPresent(t.next.lists, w.reg.profiles) { PresenceStays(w.reg, v.reg, t.next.lists); }
  }

  lemma RunMade(cfg: Config, f: Widths, a: System, b: System, i: nat, fails: bool)
    requires Sized(cfg) && Inv(cfg, a) && Made(cfg, f, a) && RunStep(cfg, a, b, i, fails)
    ensures Made(cfg, f, b)
  {
    hide StateMade; hide WorldMade; hide ThreadMade; hide Act; hide WorldInv; hide ThreadInv; hide DiskInv;
    hide RegMoves;
    hide TakesLock; hide OneHolder;
    ActMade(cfg, f, a.w, a.threads[i], fails);
    RegistryUntouched(cfg, a.w, a.threads[i], fails);
    forall j | 0 <= j < |b.threads| ensures ThreadMade(cfg, f, b.w, b.threads[j]) {
      if j != i { OthersMade(cfg, f, a.w, b.w, a.threads[j]); }
    }
  }

  lemma RegistryUntouched(cfg: Config, w: World, t: Thread, fails: bool)
    ensures Act(cfg, w, t, fails).w.reg == w.reg && RegMoves(w.reg, w.reg)
  {
    hide Begin; hide Observe; hide Enter; hide StartResolving; hide ResolveNext; hide Validate; hide Relock;
    hide CheckRegistry; hide CheckEpoch; hide CheckMark; hide Sweep; hide StampPart;
  }

  lemma EnvironmentMade(cfg: Config, f: Widths, a: System, b: System)
    requires Made(cfg, f, a) && EnvironmentStep(a, b) && WidthsKept(cfg, f, b.w.reg.profiles)
    ensures Made(cfg, f, b)
  {
    hide StateMade; hide ThreadMade; hide RegMoves; hide AuthMoves; hide AuthGood; hide RegGood; hide WidthsKept;
    hide ProfilesPresent;
    PresenceStays(a.w.reg, b.w.reg, a.w.st.lists);
    forall j | 0 <= j < |b.threads| ensures ThreadMade(cfg, f, b.w, b.threads[j]) {
      OthersMade(cfg, f, a.w, b.w, a.threads[j]);
    }
  }

  lemma StartMade(cfg: Config, f: Widths, a: System, b: System, i: nat, job: Job)
    requires Made(cfg, f, a) && StartStep(a, b, i, job)
    ensures Made(cfg, f, b)
  {
    hide StateMade; hide WorldMade; hide NextMade; hide AtMade;
  }

  lemma IdleMade(cfg: Config, f: Widths, w: World, ts: seq<Thread>)
    requires AllIdle(ts)
    ensures forall i :: 0 <= i < |ts| ==> ThreadMade(cfg, f, w, ts[i])
  {
    hide NextMade; hide AtMade;
  }

  lemma CrashMade(cfg: Config, f: Widths, a: System, b: System, fails: bool)
    requires Inv(cfg, a) && Made(cfg, f, a) && CrashStep(a, b, fails)
    ensures Made(cfg, f, b)
  {
    hide ThreadMade; hide WorldInv; hide ThreadInv; hide OneHolder; hide AllIdle; hide StateMade; hide WorldMade;
    hide Restart; hide Twins; hide Recoverable;
    IdleMade(cfg, f, b.w, b.threads);
    match a.w.disk
    case None => FreshMade(cfg, f, b.w);
    case Some(image) =>
      RestartMade(cfg, f, image, b.w);
  }

  lemma FreshMade(cfg: Config, f: Widths, w: World)
    requires w.st == FRESH.st && w.reg == FRESH.reg
    ensures WorldMade(cfg, f, w)
  {}

  lemma RestartMade(cfg: Config, f: Widths, image: DurableState, w: World)
    requires Recoverable(cfg, image) && StateMade(cfg, f, image) && Restart(image).Some?
    requires w.st == Restart(image).value.st && w.reg == Restart(image).value.reg
    ensures WorldMade(cfg, f, w) && StateMade(cfg, f, Restart(image).value.st)
  {
    hide RestoreProfiles; hide RestorePolicies; hide RestorePublishers; hide RestoreBoots; hide AddBoots;
    hide ListsMade;
    hide ProfilesPresent; hide WidthsKept; hide StateGood; hide WritersBelow; hide WritersKnown;
    RestoredProfiles(image.profiles);
    RecoveredMade(cfg, f, image.lists, image.profiles);
    LogsOnly(image, w.st);
  }

  lemma {:induction false} RunsKeepMade(cfg: Config, f: Widths, r: Trace, k: nat)
    requires Sized(cfg) && IsTrace(cfg, r) && WidthsStable(cfg, f, r) && k < |r.states|
    ensures Made(cfg, f, r.states[k])
  {
    hide Inv; hide Made; hide StartStep; hide RunStep; hide EnvironmentStep; hide CrashStep; hide WidthsKept;
    if k == 0 {
      InitMade(cfg, f, r.states[0]);
    } else {
      RunsKeepMade(cfg, f, r, k - 1);
      RunsKeepInv(cfg, r, k - 1);
      var a, l, b := r.states[k - 1], r.labels[k - 1], r.states[k];
      assert Step(cfg, a, l, b);
      match l
      case Start(i, job) => StartMade(cfg, f, a, b, i, job);
      case Run(i, fails) => RunMade(cfg, f, a, b, i, fails);
      case Environment => EnvironmentMade(cfg, f, a, b);
      case Crash(fails) => CrashMade(cfg, f, a, b, fails);
    }
  }

  lemma InitMade(cfg: Config, f: Widths, s: System)
    requires Init(s)
    ensures Made(cfg, f, s)
  {
    hide ThreadMade; hide WorldMade;
    IdleMade(cfg, f, s.w, s.threads);
    FreshMade(cfg, f, s.w);
  }

  // ---------------------------------------------------------------------- the theorem

  /** The caps the decoder puts on the fields of profiles and policies. */
  ghost predicate TablesCapped(lim: Limits, s: DurableState) {
    && (forall i :: 0 <= i < |s.profiles| ==> |s.profiles[i].name| <= 256 && |s.profiles[i].capabilities| <= 64)
    && (forall i :: 0 <= i < |s.policies| ==>
          |s.policies[i].allowedProfiles| <= 64 && |s.policies[i].required| <= 256 && |s.policies[i].forbidden| <= 256)
    && |s.profiles| <= lim.maxProfiles && |s.policies| <= lim.maxPolicies && |s.publishers| <= lim.maxPublishers
  }

  lemma FindPresent(ps: seq<Profile>, id: u64)
    requires HasProfile(ps, id)
    ensures FindProfile(ps, id).Some?
  {
    var i :| 0 <= i < |ps| && ps[i].id == id;
    assert ps[i] in ps;
  }

  /** Both digests of the list are those of the width at which it would be written now. */
  ghost predicate DigestsMatch(cfg: Config, ps: seq<Profile>, l: SegmentList) {
    var w := ListWidth(ps, l);
    && w <= cfg.limits.maxPayloadBytes && SequenceDigest(cfg.digest, l.content.segments, w) == l.sequenceDigest
    && ContentDigest(cfg.digest, l.content, w) == l.contentDigest
  }

  ghost predicate AllMatch(cfg: Config, s: DurableState) {
    forall i :: 0 <= i < |s.lists| ==> DigestsMatch(cfg, s.profiles, s.lists[i])
  }

  /** What the decoder asks of a state beyond what every reachable one is. */
  ghost predicate WithinCaps(cfg: Config, s: DurableState) {
    && TablesCapped(cfg.limits, s) && BodiesFit(cfg.limits, StateRecords(s))
    && |StateRecords(s)| <= Budget(cfg.limits)
  }

  lemma MadeIsOk(cfg: Config, f: Widths, ps: seq<Profile>, l: SegmentList)
    requires ListMade(cfg, f, l) && HasProfile(ps, l.content.profile)
    ensures ListOk(cfg, ps, l) <==> DigestsMatch(cfg, ps, l)
  {
    hide SequenceDigest; hide ContentDigest; hide SegmentsOk; hide MaxPayload;
    FindPresent(ps, l.content.profile);
  }

  /** As long as widths are kept, digests keep matching. */
  lemma KeptMatch(cfg: Config, f: Widths, ps: seq<Profile>, l: SegmentList)
    requires f.Kept? && ListMade(cfg, f, l) && HasProfile(ps, l.content.profile) && WidthsKept(cfg, f, ps)
    ensures DigestsMatch(cfg, ps, l)
  {
    hide SequenceDigest; hide ContentDigest; hide SegmentsOk; hide MaxPayload;
    FindPresent(ps, l.content.profile);
    var p := FindProfile(ps, l.content.profile).value;
    var i :| 0 <= i < |ps| && ps[i] == p;
    assert ps[i].payloadWidth == f.of(p.id);
  }

  lemma EntriesAreOk(cfg: Config, f: Widths, s: DurableState)
    requires Recoverable(cfg, s) && StateMade(cfg, f, s) && TablesCapped(cfg.limits, s)
    ensures (EntriesOk(cfg, s) <==> AllMatch(cfg, s)) && CountsFit(cfg.limits, s)
  {
    hide ListMade; hide ListOk; hide DigestsMatch; hide WidthsKept; hide HasProfile; hide WritersBelow;
    hide WritersKnown; hide UniqueAttempts; hide Consecutive; hide ActiveIsCurrent;
    forall i | 0 <= i < |s.lists|
      ensures ListOk(cfg, s.profiles, s.lists[i]) <==> DigestsMatch(cfg, s.profiles, s.lists[i])
    {
      MadeIsOk(cfg, f, s.profiles, s.lists[i]);
    }
    forall i | 0 <= i < |s.publishers| ensures PublisherOk(s.publishers[i]) { assert s.publishers[i] in s.publishers; }
    forall i | 0 <= i < |s.fencedBoots| ensures s.fencedBoots[i] != 0 { assert s.fencedBoots[i] in s.fencedBoots; }
  }

  lemma WellFormedWhen(cfg: Config, f: Widths, s: DurableState)
    requires Recoverable(cfg, s) && StateMade(cfg, f, s)
    ensures WellFormed(cfg, s) <==> WithinCaps(cfg, s) && AllMatch(cfg, s)
  {
    hide Recoverable; hide StateMade; hide BodiesFit; hide StateRecords; hide ListOk; hide AllMatch;
    if TablesCapped(cfg.limits, s) { EntriesAreOk(cfg, f, s); }
    if WellFormed(cfg, s) { assert TablesCapped(cfg.limits, s); }
  }

  lemma RunMakes(cfg: Config, f: Widths, r: Trace, k: nat)
    requires Sized(cfg) && IsTrace(cfg, r) && WidthsStable(cfg, f, r) && k < |r.states|
    ensures Recoverable(cfg, r.states[k].w.st) && StateMade(cfg, f, r.states[k].w.st)
    ensures var d := r.states[k].w.disk; d.Some? ==> Recoverable(cfg, d.value) && StateMade(cfg, f, d.value)
  {
    hide Recoverable; hide StateMade; hide ThreadInv; hide ThreadMade; hide OneHolder; hide Twins; hide NoneSaved;
    hide Step; hide WidthsKept; hide AuthGood; hide RegGood; hide WritersKnown; hide ProfilesPresent;
    RunsKeepInv(cfg, r, k);
    RunsKeepMade(cfg, f, r, k);
  }

  /** In every run a reachable state is well formed exactly when its profiles and policies are within the decoder's
      caps,
      its record sizes and the number of its records, fenced boots included, are within the limits, and the digests of
      every list are those of the width its profile has now; the same holds of every image ever saved. */
  lemma ReachableIsWellFormed(cfg: Config, r: Trace, k: nat)
    requires Sized(cfg) && IsTrace(cfg, r) && k < |r.states|
    ensures WellFormed(cfg, r.states[k].w.st) <==>
            WithinCaps(cfg, r.states[k].w.st) && AllMatch(cfg, r.states[k].w.st)
    ensures var d := r.states[k].w.disk;
            d.Some? ==> (WellFormed(cfg, d.value) <==> WithinCaps(cfg, d.value) && AllMatch(cfg, d.value))
  {
    hide Recoverable; hide StateMade; hide WellFormed; hide WithinCaps; hide AllMatch; hide Step;
    RunMakes(cfg, Any, r, k);
    WellFormedWhen(cfg, Any, r.states[k].w.st);
    if r.states[k].w.disk.Some? { WellFormedWhen(cfg, Any, r.states[k].w.disk.value); }
  }

  /** In every run in which no profile ever changes its width, the digests of every list in a reachable state, and in
      every image, are those of that width, so that caps and limits alone decide. */
  lemma KeptWidthsSuffice(cfg: Config, of: u64 -> u32, r: Trace, k: nat)
    requires Sized(cfg) && IsTrace(cfg, r) && WidthsStable(cfg, Kept(of), r) && k < |r.states|
    ensures AllMatch(cfg, r.states[k].w.st)
            && (WellFormed(cfg, r.states[k].w.st) <==> WithinCaps(cfg, r.states[k].w.st))
    ensures var d := r.states[k].w.disk;
            d.Some? ==> AllMatch(cfg, d.value) && (WellFormed(cfg, d.value) <==> WithinCaps(cfg, d.value))
  {
    hide Recoverable; hide StateMade; hide WellFormed; hide WithinCaps; hide AllMatch; hide Step;
    RunMakes(cfg, Kept(of), r, k);
    ReachableIsWellFormed(cfg, r, k);
    KeptAllMatch(cfg, of, r.states[k].w.st);
    if r.states[k].w.disk.Some? { KeptAllMatch(cfg, of, r.states[k].w.disk.value); }
  }

  lemma KeptAllMatch(cfg: Config, of: u64 -> u32, s: DurableState)
    requires StateMade(cfg, Kept(of), s)
    ensures AllMatch(cfg, s)
  {
    hide ListMade; hide DigestsMatch; hide WidthsKept; hide HasProfile;
    forall i | 0 <= i < |s.lists| ensures DigestsMatch(cfg, s.profiles, s.lists[i]) {
      KeptMatch(cfg, Kept(of), s.profiles, s.lists[i]);
    }
  }
}
