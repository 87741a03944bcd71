/** What every reachable configuration of the concurrent store satisfies. */
module SrfProtocolInv {
  import opened SrfTypes
  import opened SrfEvidence
  import opened SrfAuthority
  import opened SrfRegistry
  import opened SrfStoreModel
  import opened SrfStoreLaws
  import opened SrfCommitLaws
  import opened SrfRecovery
  import opened SrfProtocol

  // ------------------------------------------------------------------- states

  ghost predicate TablesGood(s: DurableState) {
    ProfilesGood(s.profiles) && PoliciesGood(s.policies) && 0 !in s.fencedBoots
    && forall p :: p in s.publishers ==> p.id != 0 && p.boot != 0
  }

  /** The writer of a list: a valid boot, and an epoch not above `epoch`. */
  ghost predicate WriterBelow(l: SegmentList, epoch: u64) { l.authority.boot != 0 && l.authority.epoch <= epoch }

  ghost predicate WritersBelow(ls: seq<SegmentList>, epoch: u64) {
    forall i :: 0 <= i < |ls| ==> WriterBelow(ls[i], epoch)
  }

  ghost predicate WritersKnown(ls: seq<SegmentList>, publishers: seq<Publisher>, fenced: seq<u64>) {
    forall i :: 0 <= i < |ls| ==> KnowsBoot(publishers, fenced, ls[i].authority.boot)
  }

  /** A state that can be recovered from: whoever wrote a list is on record in it. */
  ghost predicate Recoverable(cfg: Config, s: DurableState) {
    StateGood(cfg, s) && TablesGood(s) && WritersBelow(s.lists, s.epoch)
    && WritersKnown(s.lists, s.publishers, s.fencedBoots)
  }

  ghost predicate WorldInv(cfg: Config, w: World) {
    && Recoverable(cfg, w.st) && AuthGood(w.auth) && RegGood(w.reg)
    && w.st.epoch <= w.auth.epoch && WritersKnown(w.st.lists, w.auth.publishers, w.auth.fencedBoots)
  }

  /** What an operation leaves on record when it commits over the state `s`. */
  function OwnRecord(cfg: Config, s: DurableState, j: Job): Option<(u64, Digest)> {
    match j
    case Mutate(caller, _, drafts) => Some((caller.attempt, BatchDigest(cfg.digest, drafts)))
    case Administer(caller, list, expected, _) => AdminRecord(cfg, s.lists, caller.attempt, list, expected)
    case _ => None
  }

  /** A revision that only lost currentness, or was closed. */
  ghost predicate Degrade(x: SegmentList, y: SegmentList) {
    SameRevision(x, y) && LineageStep(x, y) && (y.state == Active ==> x.state == Active && y.currentness == Current)
  }

  ghost predicate Degraded(a: seq<SegmentList>, b: seq<SegmentList>) {
    |a| == |b| && forall i :: 0 <= i < |a| ==> Degrade(a[i], b[i])
  }

  // ------------------------------------------------------------------- threads

  ghost predicate Mutation(t: Thread) { t.job.Mutate? || t.job.Administer? }

  /** How far a mutation has come. */
  function Rank(p: Phase): nat {
    match p
    case Idle => 0
    case Begun => 1
    case Marked => 2
    case Observed => 3
    case Dated => 3
    case Entered => 4
    case GotEpoch => 5
    case GotPublishers => 6
    case GotFenced => 7
    case Resolving(_) => 8
    case Captured => 9
    case Validated => 10
    case Relocked => 11
    case RegistryChecked => 12
    case EpochChecked => 13
    case Sweeping(_) => 13
    case Stamping(_) => 14
    case Saved => 15
  }

  /** Which jobs may be in which phase. */
  ghost predicate PhaseFits(t: Thread) {
    && (t.phase.Dated? || t.phase.Sweeping? ==> t.job.Refresh?)
    && (t.phase.Marked? || t.phase.Observed? ==> Mutation(t) || t.job.Refresh?)
    && (4 <= Rank(t.phase) <= 13 && !t.phase.Sweeping? ==> Mutation(t))
    && (t.phase.Stamping? ==> t.phase.part <= 4)
  }

  /** The evidence counter never passes unnoticed: as long as it is where it was, so is the evidence. */
  ghost predicate SeenMark(src: Source, t: Thread) {
    t.mark.revision <= src.revision && (t.mark.revision == src.revision ==> t.mark == src.Mark())
  }

  ghost predicate SeenEvidence(src: Source, t: Thread) {
    SeenMark(src, t) && (t.mark.revision == src.revision ==> t.evidence == src.evidence)
  }

  ghost predicate PublishersKnown(auth: Authority, ps: seq<Publisher>) {
    forall p :: p in ps ==> KnowsBoot(auth.publishers, auth.fencedBoots, p.boot)
  }

  /** The attempt is not on record, and there is room for it; an administrative event needs only the room. */
  ghost predicate RoomForAttempt(cfg: Config, rs: seq<Attempt>, j: Job)
    requires j.Mutate? || j.Administer?
  {
    AttemptAccepted(cfg.limits, rs, j.caller.attempt)
    && (j.Mutate? && j.caller.attempt != 0 ==> AttemptPosition(rs, j.caller.attempt) == |rs|)
  }

  ghost predicate ListsMatch(ls: seq<SegmentList>, ds: seq<Draft>, found: seq<Resolved>, half: bool) {
    |found| <= |ds| && forall k :: 0 <= k < |found| ==>
      && found[k].existing == FindList(ls, ds[k].id)
      && (!half || k < |found| - 1 ==>
            found[k].superseded == if ds[k].supersedes != 0 then FindList(ls, ds[k].supersedes) else None)
  }

  ghost predicate TablesMatch(reg: Registry, ds: seq<Draft>, found: seq<Resolved>, half: bool) {
    |found| <= |ds| && forall k :: 0 <= k < |found| ==>
      && found[k].profile == FindProfile(reg.profiles, ds[k].profile)
      && (!half || k < |found| - 1 ==>
            found[k].policy == if ds[k].policy != 0 then FindPolicy(reg.policies, ds[k].policy) else None)
  }

  /** While the capture runs, under the lock. */
  ghost predicate Capturing(w: World, t: Thread, half: bool) {
    && t.storeRevision == w.st.revision && t.registryRevision <= w.reg.revision
    && (t.job.Mutate? ==>
          && ListsMatch(w.st.lists, t.job.drafts, t.found, half) && (half ==> t.found != [])
          && (t.registryRevision == w.reg.revision ==> TablesMatch(w.reg, t.job.drafts, t.found, half)))
  }

  /** After the capture: as long as a counter is where it was, what was read under it is still what is there. */
  ghost predicate CaptureOk(cfg: Config, w: World, t: Thread)
    requires Mutation(t)
  {
    && t.storeRevision <= w.st.revision && t.registryRevision <= w.reg.revision
    && (t.storeRevision == w.st.revision ==> RoomForAttempt(cfg, w.st.attempts, t.job))
    && match t.job
       case Mutate(_, _, ds) =>
         && |t.found| == |ds|
         && (t.storeRevision == w.st.revision ==> ListsMatch(w.st.lists, ds, t.found, false))
         && (t.registryRevision == w.reg.revision ==> TablesMatch(w.reg, ds, t.found, false))
       case Administer(_, list, expected, _) =>
         && |t.found| == 1 && t.found[0].existing.Some?
         && (t.storeRevision == w.st.revision ==> t.found[0].existing == FindList(w.st.lists, list))
  }

  ghost predicate Valid(cfg: Config, t: Thread)
    requires Mutation(t)
  {
    match t.job
    case Mutate(_, shape, ds) =>
      ds != [] && |t.found| == |ds| && PrepareAll(cfg, Ctx(t), shape, ds, t.found).Some?
    case Administer(_, _, expected, event) =>
      t.found != [] && t.found[0].existing.Some?
      && TransitionValid(cfg, Ctx(t), t.found[0].existing.value, expected, event)
  }

  /** The world when the registry revision was found unchanged: every counter is between its captured and its present
      value, and for the state behind the lock and for the registry of a batch that is the captured one. */
  ghost predicate AtOk(w: World, t: Thread) {
    && t.at.st == w.st && t.storeRevision == t.at.st.revision
    && (t.job.Mutate? ==>
          t.registryRevision == t.at.reg.revision && TablesMatch(t.at.reg, t.job.drafts, t.found, false))
    && t.authority.epoch <= t.at.auth.epoch <= w.auth.epoch && t.at.st.epoch <= t.at.auth.epoch
    && SeenEvidence(t.at.src, t) && Moves(t.at.src, w.src) && RegMoves(t.at.reg, w.reg)
  }

  /** One batch, executed in a single step in the world `w`, except that the publisher table and the fences are
      `publishers` and `fenced`. */
  function Resolutions(w: World, ds: seq<Draft>): (rs: seq<Resolved>)
    ensures |rs| == |ds|
    ensures forall k :: 0 <= k < |ds| ==> rs[k] == Resolve(w.st.lists, w.reg.profiles, w.reg.policies, ds[k])
  {
    seq(|ds|, k requires 0 <= k < |ds| => Resolve(w.st.lists, w.reg.profiles, w.reg.policies, ds[k]))
  }

  function AtomicContext(w: World, caller: Caller, publishers: seq<Publisher>, fenced: seq<u64>): Context {
    Context(caller, Authority(w.auth.epoch, publishers, fenced), w.st.revision, w.reg.revision, w.src.Mark(),
            w.src.evidence)
  }

  function AtomicBatch(cfg: Config, w: World, caller: Caller, shape: Shape, ds: seq<Draft>, publishers: seq<Publisher>,
                       fenced: seq<u64>): Option<DurableState>
  {
    match PrepareAll(cfg, AtomicContext(w, caller, publishers, fenced), shape, ds, Resolutions(w, ds))
    case None => None
    case Some(pms) => BatchState(cfg, w.st, pms, caller.attempt, BatchDigest(cfg.digest, ds))
  }

  /** The same state up to the copies of the tables that every commit carries. */
  ghost predicate SameUpToTables(s: DurableState, t: DurableState) {
    s == t.(profiles := s.profiles, policies := s.policies, publishers := s.publishers, fencedBoots := s.fencedBoots,
            epoch := s.epoch)
  }

  ghost predicate IsAtomic(cfg: Config, t: Thread)
    requires t.job.Mutate?
  {
    && t.at.auth.epoch == t.authority.epoch
    && Ctx(t) == AtomicContext(t.at, t.job.caller, t.authority.publishers, t.authority.fencedBoots)
    && t.found == Resolutions(t.at, t.job.drafts)
    && var s := AtomicBatch(cfg, t.at, t.job.caller, t.job.shape, t.job.drafts, t.authority.publishers,
                            t.authority.fencedBoots);
       s.Some? && SameUpToTables(t.next, s.value) && t.next.epoch == t.at.auth.epoch
  }

  /** What a mutation has gathered so far. */
  ghost predicate Gathered(cfg: Config, w: World, t: Thread)
    requires Mutation(t)
  {
    var r := Rank(t.phase);
    && (t.job.Mutate? && r >= 2 ==> t.job.drafts != [] && |t.job.drafts| <= cfg.limits.maxBatchSize)
    && (r >= 2 ==> SeenMark(w.src, t))
    && (r >= 3 ==> SeenEvidence(w.src, t))
    && (4 <= r <= 8 ==> RoomForAttempt(cfg, w.st.attempts, t.job))
    && (r >= 5 ==> t.authority.epoch <= w.auth.epoch)
    && (r >= 6 ==> PublishersKnown(w.auth, t.authority.publishers))
    && (r == 8 ==> Capturing(w, t, t.phase == Resolving(true)))
    && (r >= 9 ==> CaptureOk(cfg, w, t))
    && (r >= 10 ==> Valid(cfg, t))
    && (r >= 11 ==> t.storeRevision == w.st.revision)
    && (r >= 12 ==> AtOk(w, t))
    && (r >= 13 ==> t.at.auth.epoch == t.authority.epoch)
    && (r >= 14 && t.job.Mutate? ==> IsAtomic(cfg, t))
  }

  /** The outgoing state, before its tables are complete. */
  ghost predicate NextOk(cfg: Config, w: World, t: Thread) {
    && StateGood(cfg, t.next) && TablesGood(t.next)
    && t.next.revision == w.st.revision + 1
    && ListsStep(w.st.lists, t.next.lists)
    && HistoryStep(cfg.limits.maxHistory, w.st.history, t.next.history)
    && RecordsStep(w.st.attempts, t.next.attempts, OwnRecord(cfg, w.st, t.job))
    && w.st.epoch <= t.next.epoch <= w.auth.epoch
    && WritersBelow(t.next.lists, t.next.epoch)
    && WritersKnown(t.next.lists, w.auth.publishers, w.auth.fencedBoots)
    && (!t.job.Mutate? ==> Degraded(w.st.lists, t.next.lists))
  }

  /** The copies of the publishers, and at the end of both tables, cover every writer. */
  ghost predicate TablesCover(w: World, t: Thread) {
    && (t.phase == Stamping(3) ==> WritersKnown(t.next.lists, t.next.publishers, w.auth.fencedBoots))
    && (t.phase == Stamping(4) || t.phase.Saved? ==> WritersKnown(t.next.lists, t.next.publishers, t.next.fencedBoots))
  }

  ghost predicate SweepOk(cfg: Config, w: World, t: Thread) {
    && t.next == w.st.(lists := t.next.lists) && Degraded(w.st.lists, t.next.lists)
    && forall i :: 0 <= i < |t.next.lists| ==> t.next.lists[i].authority == w.st.lists[i].authority
  }

  ghost predicate ThreadInv(cfg: Config, w: World, t: Thread) {
    t.phase.Idle? ||
    (&& JobOk(t.job) && PhaseFits(t)
     && (Mutation(t) ==> Gathered(cfg, w, t))
     && (t.phase.Sweeping? ==> SweepOk(cfg, w, t))
     && (t.phase.Stamping? || t.phase.Saved? ==> NextOk(cfg, w, t) && TablesCover(w, t)))
  }

  // ---------------------------------------------------------------- whole systems

  ghost predicate OneHolder(ts: seq<Thread>) {
    forall i, j :: 0 <= i < j < |ts| ==> !(Holds(ts[i].phase) && Holds(ts[j].phase))
  }

  ghost predicate NoneSaved(ts: seq<Thread>) { forall i :: 0 <= i < |ts| ==> !ts[i].phase.Saved? }

  /** Two states that a restart would not tell apart. */
  ghost predicate Twins(d: DurableState, s: DurableState) {
    RecoverLists(d.lists) == RecoverLists(s.lists) && d.attempts == s.attempts && d.history == s.history
  }

  /** The image is the committed state, except between the save and the swap of a commit. */
  ghost predicate DiskInv(cfg: Config, s: System) {
    match s.w.disk
    case None =>
      NoneSaved(s.threads) && s.w.st.lists == [] && s.w.st.attempts == [] && s.w.st.history == []
    case Some(d) =>
      && Recoverable(cfg, d)
      && (NoneSaved(s.threads) ==> Twins(d, s.w.st))
      && forall i :: 0 <= i < |s.threads| && s.threads[i].phase.Saved? ==> d == ImageOf(s.threads[i], s.w.st)
  }

  ghost predicate Inv(cfg: Config, s: System) {
    && WorldInv(cfg, s.w) && OneHolder(s.threads) && DiskInv(cfg, s)
    && forall i :: 0 <= i < |s.threads| ==> ThreadInv(cfg, s.w, s.threads[i])
  }
}
