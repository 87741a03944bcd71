/** The invariant holds in every configuration of every run. */
module SrfProtocolRuns {
  import opened SrfTypes
  import opened SrfEvidence
  import opened SrfAuthority
  import opened SrfRegistry
  import opened SrfStoreModel
  import opened SrfStoreLaws
  import opened SrfCommitLaws
  import opened SrfRecovery
  import opened SrfProtocol
  import opened SrfProtocolInv
  import opened SrfProtocolSteps

  lemma Unmoved(w: World, v: World)
    requires v.reg == w.reg && v.auth == w.auth && v.src == w.src
    requires v.st == w.st || w.st.revision < v.st.revision
    ensures WorldMoves(w, v)
  {}

  lemma RefreshBegins(cfg: Config, w: World, t: Thread)
    requires t.job.Refresh? && ThreadInv(cfg, w, t) && t.phase.Begun?
    ensures ThreadInv(cfg, w, Begin(cfg, w, t))
  {
    hide Gathered; hide NextOk; hide SweepOk; hide TablesCover;
  }

  lemma BegunKeeps(cfg: Config, w: World, t: Thread)
    requires WorldInv(cfg, w) && ThreadInv(cfg, w, t) && t.phase.Begun?
    ensures ThreadInv(cfg, w, Begin(cfg, w, t))
  {
    hide ThreadInv; hide WorldInv; hide Begin;
    match t.job
    case Mutate(_, _, _) => BeginKeeps(cfg, w, t);
    case Administer(_, _, _, _) => BeginKeeps(cfg, w, t);
    case Refresh => RefreshBegins(cfg, w, t);
    case SaveRegistry => BeginSaveKeeps(cfg, w, t);
    case PersistNow => BeginSaveKeeps(cfg, w, t);
  }

  lemma IdleIsFine(cfg: Config, w: World, t: Thread, v: Verdict)
    ensures ThreadInv(cfg, w, Done(t, v))
  {}

  lemma StampingBound(cfg: Config, w: World, t: Thread)
    requires ThreadInv(cfg, w, t) && t.phase.Stamping?
    ensures t.phase.part <= 4 && NextOk(cfg, w, t) && TablesCover(w, t)
  {}

  lemma StampOrSave(cfg: Config, w: World, t: Thread, fails: bool)
    requires WorldInv(cfg, w) && ThreadInv(cfg, w, t) && t.phase.Stamping?
    ensures var m := Act(cfg, w, t, fails); ThreadInv(cfg, m.w, m.t) && WorldInv(cfg, m.w) && WorldMoves(w, m.w)
    ensures var m := Act(cfg, w, t, fails); m.w.st == w.st && (m.w.disk != w.disk ==> m.t.phase.Saved?)
    ensures var m := Act(cfg, w, t, fails);
            m.t.phase.Saved? ==> m.w.disk == Some(ImageOf(m.t, w.st)) && Recoverable(cfg, ImageOf(m.t, w.st))
  {
    hide ThreadInv; hide StampPart; hide Recoverable; hide NextOk; hide TablesCover; hide WorldMoves;
    hide WritersKnown; hide AuthGood; hide RegGood;
    var m := Act(cfg, w, t, fails);
    StampingBound(cfg, w, t);
    Unmoved(w, m.w);
    StampPhase(w, t, t.phase.part);
    if t.phase.part < 4 {
      StampKeeps(cfg, w, t, t.phase.part);
    } else if fails {
      IdleIsFine(cfg, w, t, SaveFailed);
    } else {
      SaveKeeps(cfg, w, t);
      ThreadStable(cfg, w, m.w, m.t);
      ImageRecoverable(cfg, w, t);
    }
  }

  lemma StampPhase(w: World, t: Thread, part: nat)
    ensures StampPart(w, t, part).phase == Stamping(part + 1)
  {}

  lemma SavedFacts(cfg: Config, w: World, t: Thread)
    requires ThreadInv(cfg, w, t) && t.phase.Saved?
    ensures NextOk(cfg, w, t) && TablesCover(w, t) && t.next.revision == w.st.revision + 1
  {}

  lemma Swap(cfg: Config, w: World, t: Thread, fails: bool)
    requires WorldInv(cfg, w) && ThreadInv(cfg, w, t) && t.phase.Saved?
    ensures var m := Act(cfg, w, t, fails);
            ThreadInv(cfg, m.w, m.t) && WorldInv(cfg, m.w) && WorldMoves(w, m.w) && m.t.phase.Idle?
  {
    hide ThreadInv; hide WorldInv; hide NextOk; hide TablesCover; hide WorldMoves;
    SavedFacts(cfg, w, t);
    Unmoved(w, w.(st := t.next));
    SwapKeepsWorld(cfg, w, t);
    IdleIsFine(cfg, w.(st := t.next), t, Committed);
  }

  /** Every step of a thread keeps what is true of it. */
  lemma ActKeeps(cfg: Config, w: World, t: Thread, fails: bool)
    requires cfg.limits.maxReasons >= 1 && cfg.limits.maxHistory >= 1
    requires WorldInv(cfg, w) && ThreadInv(cfg, w, t) && !t.phase.Idle? && !t.phase.Saved? && !t.phase.Stamping?
    ensures var m := Act(cfg, w, t, fails); m.w == w && ThreadInv(cfg, w, m.t)
  {
    hide ThreadInv; hide WorldInv; hide Begin; hide Observe; hide Enter; hide StartResolving; hide ResolveNext;
    hide Validate; hide Relock; hide CheckRegistry; hide CheckEpoch; hide CheckMark; hide Sweep;
    match t.phase
    case Begun => BegunKeeps(cfg, w, t);
    case Marked => ObserveKeeps(cfg, w, t);
    case Observed => EnterKeeps(cfg, w, t);
    case Dated => SweepBegins(cfg, w, t);
    case Entered => CaptureAuthorityKeeps(cfg, w, t);
    case GotEpoch => CaptureAuthorityKeeps(cfg, w, t);
    case GotPublishers => CaptureAuthorityKeeps(cfg, w, t);
    case GotFenced => StartResolvingKeeps(cfg, w, t);
    case Resolving(_) => ResolveStepKeeps(cfg, w, t);
    case Captured => ValidateKeeps(cfg, w, t);
    case Validated => RelockKeeps(cfg, w, t);
    case Relocked => EpochBound(cfg, w); CheckRegistryKeeps(cfg, w, t);
    case RegistryChecked => CheckEpochKeeps(cfg, w, t);
    case EpochChecked => CheckMarkKeeps(cfg, w, t);
    case Sweeping(k) => SweepKeeps(cfg, w, t, k);
  }

  lemma EpochBound(cfg: Config, w: World)
    requires WorldInv(cfg, w)
    ensures w.st.epoch <= w.auth.epoch
  {}

  /** The lock is only ever held by a thread that took it while it was free. */
  lemma LockDiscipline(cfg: Config, w: World, t: Thread, fails: bool)
    requires !t.phase.Idle? && ThreadInv(cfg, w, t)
    ensures Holds(Act(cfg, w, t, fails).t.phase) ==> Holds(t.phase) || TakesLock(t)
    ensures Act(cfg, w, t, fails).t.phase.Saved? ==> t.phase == Stamping(4)
  {
    hide Gathered; hide NextOk; hide SweepOk; hide TablesCover; hide Outgoing; hide PrepareAll; hide TransitionValid;
    hide AttemptAccepted; hide AttemptPosition; hide FindList; hide RefreshOne; hide BatchDigest; hide FindProfile;
    hide FindPolicy;
  }

  // -------------------------------------------------------------------- systems

  lemma OthersStable(cfg: Config, a: System, b: System, i: nat)
    requires i < |a.threads| && |b.threads| == |a.threads| && WorldMoves(a.w, b.w)
    requires forall j :: 0 <= j < |a.threads| ==> ThreadInv(cfg, a.w, a.threads[j])
    requires forall j :: 0 <= j < |a.threads| && j != i ==> b.threads[j] == a.threads[j]
    requires forall j :: 0 <= j < |a.threads| && j != i && Holds(a.threads[j].phase) ==> b.w.st == a.w.st
    requires ThreadInv(cfg, b.w, b.threads[i])
    ensures forall j :: 0 <= j < |b.threads| ==> ThreadInv(cfg, b.w, b.threads[j])
  {
    hide ThreadInv; hide WorldMoves;
    forall j | 0 <= j < |b.threads| ensures ThreadInv(cfg, b.w, b.threads[j]) {
      if j != i { ThreadStable(cfg, a.w, b.w, a.threads[j]); }
    }
  }

  lemma HolderStays(a: System, b: System, i: nat)
    requires i < |a.threads| && |b.threads| == |a.threads| && OneHolder(a.threads)
    requires forall j :: 0 <= j < |a.threads| && j != i ==> b.threads[j] == a.threads[j]
    requires Holds(b.threads[i].phase) ==> Holds(a.threads[i].phase) || LockFree(a.threads)
    ensures OneHolder(b.threads)
  {
    hide Holds;
  }

  lemma RunKeepsThreads(cfg: Config, a: System, b: System, i: nat, fails: bool)
    requires cfg.limits.maxReasons >= 1 && cfg.limits.maxHistory >= 1
    requires Inv(cfg, a) && RunStep(cfg, a, b, i, fails)
    ensures WorldInv(cfg, b.w) && OneHolder(b.threads) && WorldMoves(a.w, b.w)
    ensures forall j :: 0 <= j < |b.threads| ==> ThreadInv(cfg, b.w, b.threads[j])
    ensures b.w.st != a.w.st ==> a.threads[i].phase.Saved?
  {
    hide ThreadInv; hide WorldInv; hide WorldMoves; hide DiskInv; hide Act; hide Holds; hide TakesLock;
    var t := a.threads[i];
    LockDiscipline(cfg, a.w, t, fails);
    HolderStays(a, b, i);
    if t.phase.Saved? {
      SavedHolds(t.phase);
      Swap(cfg, a.w, t, fails);
    } else if t.phase.Stamping? {
      StampOrSave(cfg, a.w, t, fails);
    } else {
      ActKeeps(cfg, a.w, t, fails);
      Unmoved(a.w, b.w);
    }
    OthersStable(cfg, a, b, i);
  }

  lemma SavedHolds(p: Phase)
    requires p.Saved? || p.Stamping?
    ensures Holds(p)
  {}

  lemma RunKeepsDisk(cfg: Config, a: System, b: System, i: nat, fails: bool)
    requires cfg.limits.maxReasons >= 1 && cfg.limits.maxHistory >= 1
    requires Inv(cfg, a) && RunStep(cfg, a, b, i, fails)
    ensures DiskInv(cfg, b)
  {
    hide ThreadInv; hide WorldInv; hide WorldMoves; hide Recoverable; hide TakesLock; hide Act;
    var t := a.threads[i];
    LockDiscipline(cfg, a.w, t, fails);
    if t.phase.Saved? {
      SwapKeepsDisk(cfg, a, b, i, fails);
    } else if t.phase.Stamping? {
      StampOrSave(cfg, a.w, t, fails);
      SaveKeepsDisk(cfg, a, b, i);
    } else {
      ActKeeps(cfg, a.w, t, fails);
      QuietKeepsDisk(cfg, a, b, i);
    }
  }

  lemma QuietKeepsDisk(cfg: Config, a: System, b: System, i: nat)
    requires DiskInv(cfg, a) && i < |a.threads| && b.w.st == a.w.st && b.w.disk == a.w.disk
    requires |b.threads| == |a.threads| && forall j :: 0 <= j < |a.threads| && j != i ==> b.threads[j] == a.threads[j]
    requires !a.threads[i].phase.Saved? && !b.threads[i].phase.Saved?
    ensures DiskInv(cfg, b)
  {
    hide Recoverable; hide Twins;
    assert NoneSaved(b.threads) ==> NoneSaved(a.threads) by {
      if NoneSaved(b.threads) {
        forall j | 0 <= j < |a.threads| ensures !a.threads[j].phase.Saved? { assert !b.threads[j].phase.Saved?; }
      }
    }
    if a.w.disk.None? {
      forall j | 0 <= j < |b.threads| ensures !b.threads[j].phase.Saved? { assert !a.threads[j].phase.Saved?; }
    }
  }

  lemma SaveKeepsDisk(cfg: Config, a: System, b: System, i: nat)
    requires DiskInv(cfg, a) && OneHolder(a.threads) && i < |a.threads| && b.w.st == a.w.st
    requires |b.threads| == |a.threads| && forall j :: 0 <= j < |a.threads| && j != i ==> b.threads[j] == a.threads[j]
    requires a.threads[i].phase.Stamping? && (b.w.disk != a.w.disk ==> b.threads[i].phase.Saved?)
    requires b.threads[i].phase.Saved? ==>
               var d := ImageOf(b.threads[i], a.w.st); b.w.disk == Some(d) && Recoverable(cfg, d)
    ensures DiskInv(cfg, b)
  {
    hide Recoverable; hide Twins;
    if b.threads[i].phase.Saved? {
      forall j | 0 <= j < |b.threads| && b.threads[j].phase.Saved? ensures j == i {
        SavedHolds(a.threads[i].phase);
        SavedHolds(b.threads[j].phase);
      }
    } else {
      QuietKeepsDisk(cfg, a, b, i);
    }
  }

  lemma SwapKeepsDisk(cfg: Config, a: System, b: System, i: nat, fails: bool)
    requires DiskInv(cfg, a) && OneHolder(a.threads) && RunStep(cfg, a, b, i, fails) && a.threads[i].phase.Saved?
    ensures DiskInv(cfg, b)
  {
    hide Recoverable;
    assert !NoneSaved(a.threads);
    forall j | 0 <= j < |b.threads| ensures !b.threads[j].phase.Saved? {
      if j != i { assert !(Holds(a.threads[i].phase) && Holds(a.threads[j].phase)); }
    }
  }

  lemma RunKeeps(cfg: Config, a: System, b: System, i: nat, fails: bool)
    requires cfg.limits.maxReasons >= 1 && cfg.limits.maxHistory >= 1
    requires Inv(cfg, a) && RunStep(cfg, a, b, i, fails)
    ensures Inv(cfg, b)
  {
    hide ThreadInv; hide WorldInv; hide WorldMoves; hide DiskInv; hide RunStep; hide OneHolder;
    RunKeepsThreads(cfg, a, b, i, fails);
    RunKeepsDisk(cfg, a, b, i, fails);
  }

  lemma StartKeeps(cfg: Config, a: System, b: System, i: nat, job: Job)
    requires Inv(cfg, a) && StartStep(a, b, i, job)
    ensures Inv(cfg, b)
  {
    hide WorldInv; hide Recoverable; hide Gathered; hide NextOk; hide SweepOk; hide TablesCover; hide Twins;
    hide DiskInv;
    HolderStays(a, b, i);
    QuietKeepsDisk(cfg, a, b, i);
    NewThread(cfg, b.w, b.threads[i]);
  }

  lemma NewThread(cfg: Config, w: World, t: Thread)
    requires t.phase.Begun? && JobOk(t.job)
    ensures ThreadInv(cfg, w, t)
  {
    hide CaptureOk; hide Capturing; hide IsAtomic; hide Valid; hide AtOk; hide NextOk; hide TablesCover; hide SweepOk;
  }

  lemma EnvironmentKeeps(cfg: Config, a: System, b: System)
    requires Inv(cfg, a) && EnvironmentStep(a, b)
    ensures Inv(cfg, b)
  {
    hide ThreadInv; hide Recoverable; hide RegMoves; hide AuthMoves; hide Moves; hide Twins; hide WritersKnown;
    hide AuthGood; hide RegGood; hide OneHolder; hide Holds;
    KnownStays(a.w.auth, b.w.auth, a.w.st.lists);
    EpochGrows(a.w.auth, b.w.auth);
    forall j | 0 <= j < |b.threads| ensures ThreadInv(cfg, b.w, b.threads[j]) {
      ThreadStable(cfg, a.w, b.w, a.threads[j]);
    }
  }

  lemma EpochGrows(a: Authority, b: Authority)
    requires AuthMoves(a, b)
    ensures a.epoch <= b.epoch
  {}

  // ---------------------------------------------------------------------- crashes

  /** A restarted store is a good one, a restart would not tell it from its image, and everyone who wrote a list in it
      is fenced and of an older epoch. */
  lemma RestartIsGood(cfg: Config, image: DurableState)
    requires Recoverable(cfg, image) && Restart(image).Some?
    ensures var r := Restart(image).value;
            && Recoverable(cfg, r.st) && AuthGood(r.auth) && RegGood(r.reg) && r.st.epoch == r.auth.epoch
            && r.st.publishers == r.auth.publishers && r.st.fencedBoots == r.auth.fencedBoots
            && WritersKnown(r.st.lists, r.auth.publishers, r.auth.fencedBoots)
            && Twins(image, r.st) && Twins(r.st, r.st)
  {
    hide Tail; hide RestorePublishers; hide RestoreBoots; hide AddBoots; hide RestoreProfiles; hide RestorePolicies;
    hide Consecutive; hide UniqueAttempts;
    var r := Restart(image).value;
    RestartFences(image);
    RestoredProfiles(image.profiles);
    RestoredPolicies(image.policies);
    RecoveredLists(image.lists);
    RestartTables(image);
  }

  lemma RestartTables(image: DurableState)
    requires Restart(image).Some? && AuthGood(Restart(image).value.auth)
    ensures forall p :: p in Restart(image).value.auth.publishers ==> p.id != 0 && p.boot != 0
    ensures 0 !in Restart(image).value.auth.fencedBoots
  {
    hide RestorePublishers; hide RestoreBoots; hide AddBoots;
  }

  lemma RecoveredLists(ls: seq<SegmentList>)
    ensures UniqueIds(ls) ==> UniqueIds(RecoverLists(ls))
    ensures ActiveIsCurrent(RecoverLists(ls))
    ensures RecoverLists(RecoverLists(ls)) == RecoverLists(ls)
    ensures forall i :: 0 <= i < |ls| ==> RecoverLists(ls)[i].authority == ls[i].authority
  {
    forall i | 0 <= i < |ls|
      ensures RecoverList(ls[i]).authority == ls[i].authority && RecoverList(ls[i]).state != Active
      ensures RecoverList(RecoverList(ls[i])) == RecoverList(ls[i]) && RecoverList(ls[i]).content == ls[i].content
    {
      RecoverIsClosedStep(ls[i]);
    }
    assert RecoverLists(RecoverLists(ls)) == RecoverLists(ls);
  }

  lemma FreshIsGood(cfg: Config)
    requires cfg.limits.maxHistory >= 1
    ensures Recoverable(cfg, FRESH.st) && AuthGood(FRESH.auth) && RegGood(FRESH.reg)
    ensures WritersKnown(FRESH.st.lists, FRESH.auth.publishers, FRESH.auth.fencedBoots)
  {}

  lemma IdleThreads(cfg: Config, w: World, ts: seq<Thread>)
    requires AllIdle(ts)
    ensures OneHolder(ts) && NoneSaved(ts) && forall i :: 0 <= i < |ts| ==> ThreadInv(cfg, w, ts[i])
  {
    hide Gathered; hide NextOk; hide SweepOk; hide TablesCover;
  }

  lemma CrashKeeps(cfg: Config, a: System, b: System, fails: bool)
    requires cfg.limits.maxHistory >= 1 && Inv(cfg, a) && CrashStep(a, b, fails)
    ensures Inv(cfg, b)
  {
    hide Recoverable; hide Twins; hide ThreadInv; hide OneHolder; hide NoneSaved; hide AuthGood; hide RegGood;
    hide WritersKnown; hide Restart; hide AllIdle;
    IdleThreads(cfg, b.w, b.threads);
    SavedIsNotIdle(b.threads);
    match a.w.disk
    case None => FreshIsGood(cfg);
    case Some(image) => RestartIsGood(cfg, image);
  }

  lemma SavedIsNotIdle(ts: seq<Thread>)
    requires AllIdle(ts)
    ensures forall i :: 0 <= i < |ts| ==> !ts[i].phase.Saved?
  {}

  // ------------------------------------------------------------------------- runs

  lemma StepKeeps(cfg: Config, a: System, l: Label, b: System)
    requires cfg.limits.maxReasons >= 1 && cfg.limits.maxHistory >= 1
    requires Inv(cfg, a) && Step(cfg, a, l, b)
    ensures Inv(cfg, b)
  {
    hide Inv; hide StartStep; hide RunStep; hide EnvironmentStep; hide CrashStep;
    match l
    case Start(i, job) => StartKeeps(cfg, a, b, i, job);
    case Run(i, fails) => RunKeeps(cfg, a, b, i, fails);
    case Environment => EnvironmentKeeps(cfg, a, b);
    case Crash(fails) => CrashKeeps(cfg, a, b, fails);
  }

  /** The invariant holds in every configuration of every run, whatever the interleaving, the failing saves and the
      crashes. */
  lemma {:induction false} RunsKeepInv(cfg: Config, r: Trace, k: nat)
    requires cfg.limits.maxReasons >= 1 && cfg.limits.maxHistory >= 1 && IsTrace(cfg, r) && k < |r.states|
    ensures Inv(cfg, r.states[k])
  {
    hide Inv; hide Step;
    if k == 0 {
      InitInv(cfg, r.states[0]);
    } else {
      RunsKeepInv(cfg, r, k - 1);
      StepKeeps(cfg, r.states[k - 1], r.labels[k - 1], r.states[k]);
    }
  }

  lemma InitInv(cfg: Config, s: System)
    requires cfg.limits.maxHistory >= 1 && Init(s)
    ensures Inv(cfg, s)
  {
    hide Recoverable; hide ThreadInv; hide OneHolder; hide NoneSaved; hide AuthGood; hide RegGood; hide WritersKnown;
    IdleThreads(cfg, s.w, s.threads);
    FreshIsGood(cfg);
  }
}
