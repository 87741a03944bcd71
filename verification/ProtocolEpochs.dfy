/** What a restart makes of the epoch and of the fences of the process that died. */
module SrfProtocolEpochs {
  import opened SrfTypes
  import opened SrfEvidence
  import opened SrfAuthority
  import opened SrfRegistry
  import opened SrfStoreModel
  import opened SrfStoreLaws
  import opened SrfCommitLaws
  import opened SrfRecovery
  import opened SrfProtocol
  import opened SrfProtocolInv
  import opened SrfProtocolRuns
  import opened SrfProtocolTheorems
  import opened SrfProtocolProgress

  /** The image never carries an epoch above the authority's. */
  ghost predicate EpochsInOrder(w: World) {
    1 <= w.st.epoch && 1 <= w.auth.epoch && (w.disk.Some? ==> 1 <= w.disk.value.epoch <= w.auth.epoch)
  }

  lemma NextEpoch(cfg: Config, w: World, t: Thread)
    requires ThreadInv(cfg, w, t) && (t.phase.Stamping? || t.phase.Saved?)
    ensures w.st.epoch <= t.next.epoch <= w.auth.epoch
  {
    hide Gathered; hide TablesCover; hide StateGood; hide TablesGood; hide ListsStep; hide HistoryStep;
    hide RecordsStep;
    hide WritersBelow; hide WritersKnown; hide Degraded;
  }

  lemma RunEpochs(cfg: Config, w: World, t: Thread, fails: bool)
    requires Sized(cfg) && WorldInv(cfg, w) && ThreadInv(cfg, w, t) && EpochsInOrder(w) && !t.phase.Idle?
    ensures EpochsInOrder(Act(cfg, w, t, fails).w)
  {
    hide ThreadInv; hide WorldInv;
    if t.phase.Stamping? || t.phase.Saved? {
      NextEpoch(cfg, w, t);
      hide StampPart;
    } else {
      ActKeeps(cfg, w, t, fails);
      hide Act;
    }
  }

  lemma RestartEpoch(image: DurableState)
    requires Restart(image).Some?
    ensures var r := Restart(image).value; r.auth.epoch == r.st.epoch == BaseEpoch(image) + 1
  {}

  lemma StepEpochs(cfg: Config, a: System, l: Label, b: System)
    requires Sized(cfg) && Inv(cfg, a) && Step(cfg, a, l, b) && EpochsInOrder(a.w)
    ensures EpochsInOrder(b.w)
  {
    hide ThreadInv; hide WorldInv; hide DiskInv; hide OneHolder; hide Act; hide TakesLock; hide RegMoves; hide RegGood;
    hide AuthGood; hide Restart; hide AllIdle;
    match l
    case Run(i, fails) => RunEpochs(cfg, a.w, a.threads[i], fails);
    case Crash(fails) => if a.w.disk.Some? { RestartEpoch(a.w.disk.value); }
    case _ => {}
  }

  lemma {:induction false} EpochsOverRuns(cfg: Config, r: Trace, k: nat)
    requires Sized(cfg) && IsTrace(cfg, r) && k < |r.states|
    ensures EpochsInOrder(r.states[k].w)
  {
    hide Inv; hide Step;
    if k > 0 {
      EpochsOverRuns(cfg, r, k - 1);
      RunsKeepInv(cfg, r, k - 1);
      StepEpochs(cfg, r.states[k - 1], r.labels[k - 1], r.states[k]);
    }
  }

  /** After a crash anywhere in a run, the new epoch is above that of the process that died if and only if the image on
      disk carries that very epoch; otherwise it is not above it, and may be the same again. */
  lemma RestartEpochExactly(cfg: Config, r: Trace, k: nat, b: System, fails: bool)
    requires Sized(cfg) && IsTrace(cfg, r) && k < |r.states| && CrashStep(r.states[k], b, fails)
    ensures var a := r.states[k];
            && b.w.auth.epoch == (if a.w.disk.None? then 1 else a.w.disk.value.epoch + 1)
            && (b.w.auth.epoch > a.w.auth.epoch <==> a.w.disk.Some? && a.w.disk.value.epoch == a.w.auth.epoch)
  {
    hide Step; hide Restart; hide AllIdle;
    EpochsOverRuns(cfg, r, k);
    if r.states[k].w.disk.Some? { RestartEpoch(r.states[k].w.disk.value); }
  }

  /** After a crash a boot is fenced if and only if the image on disk knows it, as a fenced boot or as the boot of a
      publisher: a fence that no save carried is lost with the process. */
  lemma FencesAcrossRestart(cfg: Config, r: Trace, k: nat, b: System, fails: bool)
    requires Sized(cfg) && IsTrace(cfg, r) && k < |r.states| && CrashStep(r.states[k], b, fails)
    ensures var a := r.states[k];
            forall boot: u64 :: boot in b.w.auth.fencedBoots <==>
              a.w.disk.Some? && KnowsBoot(a.w.disk.value.publishers, a.w.disk.value.fencedBoots, boot)
  {
    hide Step; hide ThreadInv; hide WorldInv; hide OneHolder; hide StateGood; hide KnowsBoot; hide NoneSaved;
    hide Twins;
    hide RestorePublishers; hide RestoreBoots; hide AddBoots; hide RestoreProfiles; hide RestorePolicies;
    RunsKeepInv(cfg, r, k);
    if r.states[k].w.disk.Some? { RestartFences(r.states[k].w.disk.value); }
  }

  // -------------------------------------------------------------------- witnesses

  /** A crash, and a load whose own save fails. */
  lemma CrashOn(cfg: Config, r: Trace) returns (q: Trace)
    requires IsTrace(cfg, r) && Last(r).w.disk.Some? && Restart(Last(r).w.disk.value).Some?
    ensures IsTrace(cfg, q) && Extends(r, q) && |q.labels| == |r.labels| + 1 && q.labels[|r.labels|] == Crash(true)
    ensures Last(q).w.disk == Last(r).w.disk && Last(q).w.auth.epoch == BaseEpoch(Last(r).w.disk.value) + 1
    ensures q.states[|r.labels|] == Last(r)
  {
    TraceShape(cfg, r);
    var image := Last(r).w.disk.value;
    RestartEpoch(image);
    var v := Restart(image).value;
    hide IsTrace; hide Restart;
    var next := System(World(v.st, v.reg, v.auth, Last(r).w.src, Last(r).w.disk), []);
    q := OneMore(cfg, r, Crash(true), next);
  }

  /** A store nothing was saved for, with one idle thread. */
  lemma FreshRun(cfg: Config) returns (r: Trace)
    ensures IsTrace(cfg, r) && |Last(r).threads| == 1 && Last(r).threads[0].phase.Idle? && Last(r).w.st == FRESH.st
    ensures Last(r).w.auth == FRESH.auth
  {
    var w := World(FRESH.st, FRESH.reg, FRESH.auth, Source(NO_EVIDENCE, 0), None);
    var t := Thread(Idle, Refresh, w.src.Mark(), NO_EVIDENCE, w.auth, 0, 0, [], w, w.st, Nothing);
    r := Trace([System(w, [t])], []);
    assert IsTrace(cfg, r);
  }

  /** A run on which two processes in a row work under the same epoch: the state is saved, the process dies, the
      next one
      cannot save what it loaded and dies as well. */
  lemma EpochReused(cfg: Config) returns (q: Trace, n: nat)
    ensures IsTrace(cfg, q) && n + 2 == |q.labels| && |q.states| == n + 3
    ensures q.labels[n] == Crash(true) && q.labels[n + 1] == Crash(true)
    ensures q.states[n].w.auth.epoch == 1 && q.states[n + 1].w.auth.epoch == 2 && q.states[n + 2].w.auth.epoch == 2
  {
    var r1 := FreshRun(cfg);
    var r2 := SaveRuns(cfg, r1, 0);
    TraceShape(cfg, r2);
    hide IsTrace;
    n := |r2.labels|;
    assert BaseEpoch(Last(r2).w.disk.value) == 1;
    CanRestart(Last(r2).w.disk.value);
    var r3 := CrashOn(cfg, r2);
    TraceShape(cfg, r3);
    q := CrashOn(cfg, r3);
    TraceShape(cfg, q);
    assert q.labels[..|r3.labels|] == r3.labels && q.states[..|r3.states|] == r3.states;
    assert q.labels[n] == r3.labels[n] && q.states[n] == r3.states[n];
  }

  /** A fence that no save carried is lost: whatever the image on disk does not know can be fenced, and is free again
      after a crash. */
  lemma FenceLost(cfg: Config, r: Trace, boot: u64) returns (q: Trace)
    requires Sized(cfg) && IsTrace(cfg, r) && Last(r).w.disk.Some? && Restart(Last(r).w.disk.value).Some?
    requires boot != 0 && !KnowsBoot(Last(r).w.disk.value.publishers, Last(r).w.disk.value.fencedBoots, boot)
    ensures IsTrace(cfg, q) && Extends(r, q) && |q.labels| == |r.labels| + 2 && |q.states| == |q.labels| + 1
    ensures q.labels[|q.labels| - 1] == Crash(true) && boot in q.states[|q.labels| - 1].w.auth.fencedBoots
    ensures boot !in Last(q).w.auth.fencedBoots
  {
    hide Restart; hide KnowsBoot;
    var p := FencingStep(cfg, r, boot);
    TraceShape(cfg, p);
    q := CrashOn(cfg, p);
    TraceShape(cfg, q);
    ExtendsTrans(r, p, q);
    LastStep(cfg, q);
    hide IsTrace; hide CrashStep;
    FencesAcrossRestart(cfg, q, |p.labels|, Last(q), true);
  }

  lemma LastStep(cfg: Config, q: Trace)
    requires IsTrace(cfg, q) && q.labels != []
    ensures var n := |q.labels|;
            |q.states| == n + 1 && Step(cfg, q.states[n - 1], q.labels[n - 1], q.states[n])
  {
    hide Step;
  }

  lemma CanRestart(image: DurableState)
    requires BaseEpoch(image) < U64_MAX
    ensures Restart(image).Some?
  {}
}
