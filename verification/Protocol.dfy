/** The store as a concurrent system (`src/store.cpp`).

    Threads run store operations.  Every step below is one access to something shared: the store lock with the state
    behind it, one call into a registry, the authority table or the evidence source (each has its own lock), or one
    save.  Between any two steps of a thread the environment may move the registries, the authority table and the
    evidence source, other threads may run, and the process may crash and restart. */
module SrfProtocol {
  import opened SrfTypes
  import opened SrfEvidence
  import opened SrfAuthority
  import opened SrfRegistry
  import opened SrfStoreModel
  import opened SrfRecovery

  /** Everything shared.  `disk` is the last image saved. */
  datatype World = World(st: DurableState, reg: Registry, auth: Authority, src: Source, disk: Option<DurableState>)

  datatype Job =
    | Mutate(caller: Caller, shape: Shape, drafts: seq<Draft>)  // create, replace, revalidate or batch
    | Administer(caller: Caller, list: u64, expected: u64, event: LifecycleEvent)  // withdraw, revoke, retire
    | Refresh
    | SaveRegistry  // what register_profile and register_policy do once the registry took the entry
    | PersistNow

  datatype Phase =
    | Idle
    | Begun
    | Marked  // the evidence watermark was read
    | Observed  // the evidence was copied
    | Dated  // refresh only: the epoch was read
    | Entered  // the store lock is held for the capture
    | GotEpoch
    | GotPublishers
    | GotFenced
    | Resolving(half: bool)  // look-ups of the drafts are under way; `half`: the policy of the last one is missing
    | Captured  // the lock was released
    | Validated  // every draft passed validation
    | Relocked  // the lock is held again and the state revision was unchanged
    | RegistryChecked
    | EpochChecked
    | Sweeping(next: nat)  // refresh only: the lock is held, lists before `next` were rechecked
    | Stamping(part: nat)  // the new state is complete but for copies of the tables; at 4 it can be saved
    | Saved  // the new state is on disk, and not yet visible

  datatype Verdict = Nothing | Committed | Replayed | Mismatched | Refused | SaveFailed

  /** A thread: where it is, and what it has read so far.  `at` records the world at the moment the registry revision
      was found unchanged; no step reads it. */
  datatype Thread = Thread(
    phase: Phase, job: Job, mark: Watermark, evidence: Evidence, authority: Authority, storeRevision: nat,
    registryRevision: nat, found: seq<Resolved>, at: World, next: DurableState, verdict: Verdict)

  datatype System = System(w: World, threads: seq<Thread>)

  /** Phases in which the thread holds the store lock. */
  predicate Holds(p: Phase) {
    p.Entered? || p.GotEpoch? || p.GotPublishers? || p.GotFenced? || p.Resolving? || p.Relocked? || p.RegistryChecked?
    || p.EpochChecked? || p.Sweeping? || p.Stamping? || p.Saved?
  }

  /** Phases whose next step takes the lock, and may release it again at once. */
  predicate TakesLock(t: Thread) {
    match t.phase
    case Begun => t.job.SaveRegistry? || t.job.PersistNow?
    case Observed => !t.job.Refresh?
    case Dated => true
    case Validated => true
    case _ => false
  }

  function Done(t: Thread, v: Verdict): Thread { t.(phase := Idle, verdict := v) }

  function Ctx(t: Thread): Context
    requires t.job.Mutate? || t.job.Administer?
  {
    Context(t.job.caller, t.authority, t.storeRevision, t.registryRevision, t.mark, t.evidence)
  }

  datatype Move = Move(w: World, t: Thread)

  // ------------------------------------------------------- before the first lock

  function Begin(cfg: Config, w: World, t: Thread): Thread {
    match t.job
    case Mutate(_, _, drafts) =>
      if drafts == [] || |drafts| > cfg.limits.maxBatchSize then Done(t, Refused)
      else t.(phase := Marked, mark := w.src.Mark())
    case Administer(_, _, _, _) => t.(phase := Marked, mark := w.src.Mark())
    case Refresh => t.(phase := Marked, mark := w.src.Mark())
    case SaveRegistry => t.(phase := Stamping(0), next := w.st.(revision := w.st.revision + 1))
    case PersistNow => t.(phase := Stamping(0), next := w.st.(revision := w.st.revision + 1, epoch := w.auth.epoch))
  }

  function Observe(cfg: Config, w: World, t: Thread): Thread {
    if t.job.Mutate? && w.src.evidence.RecordCount() > cfg.limits.maxEvidenceRecords then Done(t, Refused)
    else t.(phase := Observed, evidence := w.src.evidence)
  }

  // ---------------------------------------------------------------- the capture

  /** Take the lock; an attempt already on record ends here, and so does one the table has no room for. */
  function Enter(cfg: Config, w: World, t: Thread): Thread {
    match t.job
    case Mutate(caller, _, drafts) =>
      var i := AttemptPosition(w.st.attempts, caller.attempt);
      if caller.attempt != 0 && i < |w.st.attempts| then
        Done(t, if w.st.attempts[i].payload == BatchDigest(cfg.digest, drafts) then Replayed else Mismatched)
      else if !AttemptAccepted(cfg.limits, w.st.attempts, caller.attempt) then Done(t, Refused)
      else t.(phase := Entered)
    case Administer(caller, _, _, _) =>
      if !AttemptAccepted(cfg.limits, w.st.attempts, caller.attempt) then Done(t, Refused) else t.(phase := Entered)
    case _ => t.(phase := Dated, authority := t.authority.(epoch := w.auth.epoch))
  }

  function StartResolving(w: World, t: Thread): Thread {
    t.(phase := Resolving(false), registryRevision := w.reg.revision, storeRevision := w.st.revision, found := [])
  }

  /** The list and the profile of the next draft, then in a second step its policy and what it supersedes; once all
      drafts are resolved, release the lock. */
  function ResolveNext(w: World, t: Thread, half: bool): Thread {
    match t.job
    case Mutate(_, _, drafts) =>
      if half && 0 < |t.found| <= |drafts| then
        var d, n := drafts[|t.found| - 1], |t.found| - 1;
        t.(phase := Resolving(false),
           found := t.found[n := t.found[n].(
             policy := if d.policy != 0 then FindPolicy(w.reg.policies, d.policy) else None,
             superseded := if d.supersedes != 0 then FindList(w.st.lists, d.supersedes) else None)])
      else if |t.found| < |drafts| then
        var d := drafts[|t.found|];
        t.(phase := Resolving(true),
           found := t.found + [Resolved(FindList(w.st.lists, d.id), FindProfile(w.reg.profiles, d.profile),
                                      None, None)])
      else t.(phase := Captured)
    case Administer(_, list, expected, _) =>
      var x := FindList(w.st.lists, list);
      if x.None? || expected == 0 || x.value.generation != expected then Done(t, Refused)
      else t.(phase := Captured, found := [Resolved(x, None, None, None)])
    case _ => Done(t, Refused)
  }

  /** Validation, outside the lock and on captured values only. */
  function Validate(cfg: Config, t: Thread): Thread {
    match t.job
    case Mutate(_, shape, drafts) =>
      if |t.found| == |drafts| && PrepareAll(cfg, Ctx(t), shape, drafts, t.found).Some? then t.(phase := Validated)
      else Done(t, Refused)
    case Administer(_, _, expected, event) =>
      if t.found != [] && t.found[0].existing.Some?
         && TransitionValid(cfg, Ctx(t), t.found[0].existing.value, expected, event)
      then t.(phase := Validated) else Done(t, Refused)
    case _ => Done(t, Refused)
  }

  // ----------------------------------------------------------------- the commit

  function Relock(w: World, t: Thread): Thread {
    if w.st.revision != t.storeRevision then Done(t, Refused) else t.(phase := Relocked)
  }

  /** An administrative event does not look at the registry revision. */
  function CheckRegistry(w: World, t: Thread): Thread {
    if t.job.Mutate? && w.reg.revision != t.registryRevision then Done(t, Refused)
    else t.(phase := RegistryChecked, at := w)
  }

  function CheckEpoch(w: World, t: Thread): Thread {
    if w.auth.epoch != t.authority.epoch then Done(t, Refused) else t.(phase := EpochChecked)
  }

  /** The state the thread wants to commit, computed from the state behind the lock. */
  function Outgoing(cfg: Config, st: DurableState, t: Thread): Option<DurableState> {
    match t.job
    case Mutate(caller, shape, drafts) =>
      if |t.found| != |drafts| then None
      else
        (match PrepareAll(cfg, Ctx(t), shape, drafts, t.found)
         case None => None
         case Some(pms) => BatchState(cfg, st, pms, caller.attempt, BatchDigest(cfg.digest, drafts)))
    case Administer(_, list, expected, event) => TransitionState(cfg, st, Ctx(t), list, expected, event)
    case _ => None
  }

  function CheckMark(cfg: Config, w: World, t: Thread): Thread {
    if w.src.Mark() != t.mark then Done(t, Refused)
    else match Outgoing(cfg, w.st, t)
         case None => Done(t, Refused)
         case Some(next) => t.(phase := Stamping(0), next := next.(epoch := t.authority.epoch))
  }

  /** Refresh rechecks one list at a time against the registries and fences of that moment. */
  function Sweep(w: World, t: Thread, k: nat): Thread {
    if k < |t.next.lists| then
      t.(phase := Sweeping(k + 1),
         next := t.next.(lists := t.next.lists[k :=
           RefreshOne(w.reg, w.auth, t.authority.epoch, t.evidence, t.next.lists[k])]))
    else if t.next.lists == w.st.lists then Done(t, Nothing)
    else t.(phase := Stamping(4), next := t.next.(revision := w.st.revision + 1))
  }

  /** Copy one of the four tables. */
  function StampPart(w: World, t: Thread, part: nat): Thread {
    t.(phase := Stamping(part + 1),
       next := match part
               case 0 => t.next.(profiles := w.reg.profiles)
               case 1 => t.next.(policies := w.reg.policies)
               case 2 => t.next.(publishers := w.auth.publishers)
               case _ => t.next.(fencedBoots := w.auth.fencedBoots))
  }

  /** What is written: after a registration, the new tables under the old revision number. */
  function ImageOf(t: Thread, st: DurableState): DurableState {
    if t.job.SaveRegistry? then t.next.(revision := st.revision) else t.next
  }

  /** The next step of a thread.  `fails`: should it be a save, it fails. */
  function Act(cfg: Config, w: World, t: Thread, fails: bool): Move {
    match t.phase
    case Idle => Move(w, t)
    case Begun => Move(w, Begin(cfg, w, t))
    case Marked => Move(w, Observe(cfg, w, t))
    case Observed => Move(w, Enter(cfg, w, t))
    case Dated => Move(w, t.(phase := Sweeping(0), next := w.st))
    case Entered => Move(w, t.(phase := GotEpoch, authority := t.authority.(epoch := w.auth.epoch)))
    case GotEpoch => Move(w, t.(phase := GotPublishers, authority := t.authority.(publishers := w.auth.publishers)))
    case GotPublishers => Move(w, t.(phase := GotFenced, authority := t.authority.(fencedBoots := w.auth.fencedBoots)))
    case GotFenced => Move(w, StartResolving(w, t))
    case Resolving(half) => Move(w, ResolveNext(w, t, half))
    case Captured => Move(w, Validate(cfg, t))
    case Validated => Move(w, Relock(w, t))
    case Relocked => Move(w, CheckRegistry(w, t))
    case RegistryChecked => Move(w, CheckEpoch(w, t))
    case EpochChecked => Move(w, CheckMark(cfg, w, t))
    case Sweeping(k) => Move(w, Sweep(w, t, k))
    case Stamping(part) =>
      if part < 4 then Move(w, StampPart(w, t, part))
      else if fails then Move(w, Done(t, SaveFailed))
      else Move(w.(disk := Some(ImageOf(t, w.st))), t.(phase := Saved))
    case Saved => Move(w.(st := t.next), Done(t, Committed))
  }

  // -------------------------------------------------------------------- systems

  ghost predicate JobOk(j: Job) {
    (j.Mutate? ==> StoreShape(j.shape)) && (j.Administer? ==> AdminEvent(j.event))
  }

  datatype Label =
    | Start(thread: nat, job: Job)
    | Run(thread: nat, fails: bool)
    | Environment
    | Crash(fails: bool)

  predicate LockFree(ts: seq<Thread>) { forall i :: 0 <= i < |ts| ==> !Holds(ts[i].phase) }

  ghost predicate AllIdle(ts: seq<Thread>) { forall i :: 0 <= i < |ts| ==> ts[i].phase.Idle? }

  ghost predicate StartStep(a: System, b: System, i: nat, job: Job) {
    i < |a.threads| && a.threads[i].phase.Idle? && JobOk(job)
    && b == a.(threads := a.threads[i := a.threads[i].(phase := Begun, job := job, verdict := Nothing)])
  }

  ghost predicate RunStep(cfg: Config, a: System, b: System, i: nat, fails: bool) {
    && i < |a.threads| && !a.threads[i].phase.Idle?
    && (TakesLock(a.threads[i]) ==> LockFree(a.threads))
    && var m := Act(cfg, a.w, a.threads[i], fails); b == System(m.w, a.threads[i := m.t])
  }

  /** Other parties move the registries, the authority table and the evidence; never the state, never the disk. */
  ghost predicate EnvironmentStep(a: System, b: System) {
    && b.threads == a.threads && b.w.st == a.w.st && b.w.disk == a.w.disk
    && RegMoves(a.w.reg, b.w.reg) && (RegGood(a.w.reg) ==> RegGood(b.w.reg))
    && AuthMoves(a.w.auth, b.w.auth) && (AuthGood(a.w.auth) ==> AuthGood(b.w.auth))
    && Moves(a.w.src, b.w.src)
  }

  /** The process dies at any point and a fresh store loads the last image.  Loading saves its result; if that save
      fails the store carries on, on the old image. */
  ghost predicate CrashStep(a: System, b: System, fails: bool) {
    && AllIdle(b.threads)
    && match a.w.disk
       case None => b.w == World(FRESH.st, FRESH.reg, FRESH.auth, b.w.src, None)
       case Some(image) =>
         && Restart(image).Some?
         && var r := Restart(image).value;
            b.w == World(r.st, r.reg, r.auth, b.w.src, if fails then a.w.disk else Some(r.st))
  }

  ghost predicate Step(cfg: Config, a: System, l: Label, b: System) {
    match l
    case Start(i, job) => StartStep(a, b, i, job)
    case Run(i, fails) => RunStep(cfg, a, b, i, fails)
    case Environment => EnvironmentStep(a, b)
    case Crash(fails) => CrashStep(a, b, fails)
  }

  ghost predicate Init(s: System) {
    AllIdle(s.threads) && s.w == World(FRESH.st, FRESH.reg, FRESH.auth, s.w.src, None)
  }

  datatype Trace = Trace(states: seq<System>, labels: seq<Label>)

  /** A finite run from the initial state. */
  ghost predicate IsTrace(cfg: Config, r: Trace) {
    && |r.states| == |r.labels| + 1 && Init(r.states[0])
    && forall k :: 0 <= k < |r.labels| ==> Step(cfg, r.states[k], r.labels[k], r.states[k + 1])
  }
}
