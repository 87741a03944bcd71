/** Runs that exist: what a thread does when nobody gets in its way. */
module SrfProtocolProgress {
  import opened SrfTypes
  import opened SrfAuthority
  import opened SrfRegistry
  import opened SrfStoreModel
  import opened SrfProtocol
  import opened SrfProtocolInv
  import opened SrfProtocolRuns
  import opened SrfAdmission
  import opened SrfProtocolTheorems

  // ------------------------------------------------------------------- one thread

  /** `n` steps of a thread with nobody else moving, in which no save fails. */
  function Alone(cfg: Config, w: World, t: Thread, n: nat): Move {
    if n == 0 then Move(w, t)
    else
      var m := Alone(cfg, w, t, n - 1);
      Act(cfg, m.w, m.t, false)
  }

  lemma {:induction false} AloneFurther(cfg: Config, w: World, t: Thread, m: nat, n: nat)
    ensures Alone(cfg, w, t, m + n) == Alone(cfg, Alone(cfg, w, t, m).w, Alone(cfg, w, t, m).t, n)
  {
    hide Act;
    if n > 0 { AloneFurther(cfg, w, t, m, n - 1); }
  }

  lemma ThreeSteps(cfg: Config, w: World, t: Thread, t1: Thread, t2: Thread, t3: Thread)
    requires Act(cfg, w, t, false) == Move(w, t1) && Act(cfg, w, t1, false) == Move(w, t2)
    requires Act(cfg, w, t2, false) == Move(w, t3)
    ensures Alone(cfg, w, t, 1) == Move(w, t1) && Alone(cfg, w, t, 2) == Move(w, t2)
            && Alone(cfg, w, t, 3) == Move(w, t3)
  {
    hide Act;
    assert Alone(cfg, w, t, 0) == Move(w, t);
    assert Alone(cfg, w, t, 1) == Move(w, t1);
    assert Alone(cfg, w, t, 2) == Move(w, t2);
  }

  /** A thread that is done stays done, so one that is not has never been. */
  lemma {:induction false} BusyBefore(cfg: Config, w: World, t: Thread, m: nat, n: nat)
    requires m <= n && !Alone(cfg, w, t, n).t.phase.Idle?
    ensures !Alone(cfg, w, t, m).t.phase.Idle?
    decreases n
  {
    hide Act; hide Alone;
    if m < n {
      IdleStays(cfg, w, t, n);
      BusyBefore(cfg, w, t, m, n - 1);
    }
  }

  lemma IdleStays(cfg: Config, w: World, t: Thread, n: nat)
    requires n > 0
    ensures Alone(cfg, w, t, n - 1).t.phase.Idle? ==> Alone(cfg, w, t, n).t.phase.Idle?
  {
    ActIdle(cfg, Alone(cfg, w, t, n - 1).w, Alone(cfg, w, t, n - 1).t);
    hide Act;
  }

  lemma ActIdle(cfg: Config, w: World, t: Thread)
    ensures t.phase.Idle? ==> Act(cfg, w, t, false) == Move(w, t)
  {}

  // --------------------------------------------------------------- a batch, alone

  /** What a caller can find out before submitting a batch: nothing is on record for its attempt, there is room for the
      record, the sizes are within the limits, and the drafts are admissible. */
  ghost predicate MayCommit(cfg: Config, w: World, caller: Caller, shape: Shape, ds: seq<Draft>) {
    && 1 <= |ds| <= cfg.limits.maxBatchSize && w.src.evidence.RecordCount() <= cfg.limits.maxEvidenceRecords
    && (caller.attempt != 0 ==> AttemptPosition(w.st.attempts, caller.attempt) == |w.st.attempts|)
    && AttemptAccepted(cfg.limits, w.st.attempts, caller.attempt)
    && Admissible(cfg, w, caller, shape, ds, w.auth.publishers, w.auth.fencedBoots)
  }

  lemma MayIsWill(cfg: Config, w: World, caller: Caller, shape: Shape, ds: seq<Draft>)
    requires Sized(cfg)
    ensures MayCommit(cfg, w, caller, shape, ds) <==> WillCommit(cfg, w, caller, shape, ds)
  {
    hide Admissible; hide AtomicBatch;
    AtomicBatchExactly(cfg, w, caller, shape, ds, w.auth.publishers, w.auth.fencedBoots);
  }

  /** The same, with the atomic batch in the place of the condition on the drafts. */
  predicate WillCommit(cfg: Config, w: World, caller: Caller, shape: Shape, ds: seq<Draft>) {
    && 1 <= |ds| <= cfg.limits.maxBatchSize && w.src.evidence.RecordCount() <= cfg.limits.maxEvidenceRecords
    && (caller.attempt != 0 ==> AttemptPosition(w.st.attempts, caller.attempt) == |w.st.attempts|)
    && AttemptAccepted(cfg.limits, w.st.attempts, caller.attempt)
    && AtomicBatch(cfg, w, caller, shape, ds, w.auth.publishers, w.auth.fencedBoots).Some?
  }

  /** The capture has read everything but the drafts' look-ups. */
  function Opened(w: World, t: Thread): Thread {
    t.(phase := Resolving(false), mark := w.src.Mark(), evidence := w.src.evidence, authority := w.auth,
       storeRevision := w.st.revision, registryRevision := w.reg.revision, found := [])
  }

  lemma ReadsTables(cfg: Config, w: World, t: Thread)
    requires t.phase.Entered?
    ensures Alone(cfg, w, t, 4)
            == Move(w, t.(phase := Resolving(false), authority := w.auth, storeRevision := w.st.revision,
                          registryRevision := w.reg.revision, found := []))
  {
    var t4 := t.(phase := GotEpoch, authority := t.authority.(epoch := w.auth.epoch));
    var t5 := t4.(phase := GotPublishers, authority := t4.authority.(publishers := w.auth.publishers));
    var t6 := t5.(phase := GotFenced, authority := t5.authority.(fencedBoots := w.auth.fencedBoots));
    hide Enter; hide ResolveNext; hide Begin; hide Observe; hide Validate;
    assert Alone(cfg, w, t, 1) == Move(w, t4);
    assert Alone(cfg, w, t, 2) == Move(w, t5);
    assert Alone(cfg, w, t, 3) == Move(w, t6);
  }

  /** A thread that has read evidence and taken the lock. */
  function Admitted(w: World, t: Thread): Thread {
    t.(phase := Entered, mark := w.src.Mark(), evidence := w.src.evidence)
  }

  lemma BatchAdmitted(cfg: Config, w: World, t: Thread)
    requires t.phase.Begun? && t.job.Mutate? && WillCommit(cfg, w, t.job.caller, t.job.shape, t.job.drafts)
    ensures Alone(cfg, w, t, 3) == Move(w, Admitted(w, t))
  {
    hide AtomicBatch; hide BatchDigest; hide Alone;
    var t1 := t.(phase := Marked, mark := w.src.Mark());
    var t2 := t1.(phase := Observed, evidence := w.src.evidence);
    assert Begin(cfg, w, t) == t1;
    assert Observe(cfg, w, t1) == t2;
    assert Enter(cfg, w, t2) == Admitted(w, t);
    hide Begin; hide Observe; hide Enter;
    ThreeSteps(cfg, w, t, t1, t2, Admitted(w, t));
  }

  lemma Opens(cfg: Config, w: World, t: Thread)
    requires t.phase.Begun? && t.job.Mutate? && WillCommit(cfg, w, t.job.caller, t.job.shape, t.job.drafts)
    ensures Alone(cfg, w, t, 7) == Move(w, Opened(w, t))
  {
    hide Act; hide Alone; hide WillCommit;
    BatchAdmitted(cfg, w, t);
    AloneFurther(cfg, w, t, 3, 4);
    ReadsTables(cfg, w, Admitted(w, t));
  }

  /** Two steps look one draft up. */
  lemma ResolvesOne(cfg: Config, w: World, t: Thread, k: nat)
    requires t.phase == Resolving(false) && t.job.Mutate? && k < |t.job.drafts|
    requires t.found == Resolutions(w, t.job.drafts)[..k]
    ensures Alone(cfg, w, t, 2) == Move(w, t.(found := Resolutions(w, t.job.drafts)[..k + 1]))
  {
    hide FindList; hide FindProfile; hide FindPolicy; hide Begin; hide Observe; hide Enter; hide StartResolving;
    hide Validate; hide Relock; hide CheckRegistry; hide CheckEpoch; hide CheckMark; hide Sweep; hide StampPart;
    var d := t.job.drafts[k];
    var half := Resolved(FindList(w.st.lists, d.id), FindProfile(w.reg.profiles, d.profile), None, None);
    var t1 := t.(phase := Resolving(true), found := t.found + [half]);
    assert Alone(cfg, w, t, 1) == Act(cfg, w, t, false) == Move(w, t1);
    var whole := Resolve(w.st.lists, w.reg.profiles, w.reg.policies, d);
    assert t1.found[k := whole] == Resolutions(w, t.job.drafts)[..k + 1];
    assert Act(cfg, w, t1, false) == Move(w, t.(found := t1.found[k := whole]));
  }

  lemma {:induction false} ResolvesAll(cfg: Config, w: World, t: Thread, k: nat)
    requires t.phase == Resolving(false) && t.job.Mutate? && k <= |t.job.drafts| && t.found == []
    ensures Alone(cfg, w, t, 2 * k) == Move(w, t.(found := Resolutions(w, t.job.drafts)[..k]))
  {
    hide Act;
    if k > 0 {
      ResolvesAll(cfg, w, t, k - 1);
      AloneFurther(cfg, w, t, 2 * (k - 1), 2);
      ResolvesOne(cfg, w, t.(found := Resolutions(w, t.job.drafts)[..k - 1]), k - 1);
    }
  }

  lemma Captures(cfg: Config, w: World, t: Thread)
    requires t.phase.Begun? && t.job.Mutate? && WillCommit(cfg, w, t.job.caller, t.job.shape, t.job.drafts)
    ensures Alone(cfg, w, t, 8 + 2 * |t.job.drafts|)
            == Move(w, Opened(w, t).(phase := Captured, found := Resolutions(w, t.job.drafts)))
  {
    hide Act; hide WillCommit;
    var n := |t.job.drafts|;
    Opens(cfg, w, t);
    AloneFurther(cfg, w, t, 7, 2 * n);
    ResolvesAll(cfg, w, Opened(w, t), n);
    var u := Opened(w, t).(found := Resolutions(w, t.job.drafts));
    assert Resolutions(w, t.job.drafts)[..n] == Resolutions(w, t.job.drafts);
    assert Alone(cfg, w, t, 7 + 2 * n) == Move(w, u);
    Closes(cfg, w, u);
  }

  lemma Closes(cfg: Config, w: World, u: Thread)
    requires u.phase == Resolving(false) && u.job.Mutate? && |u.found| == |u.job.drafts|
    ensures Act(cfg, w, u, false) == Move(w, u.(phase := Captured))
  {}

  /** The state a batch captured in the world `w` makes visible when the tables are those of `v` by then. */
  function CommittedState(cfg: Config, w: World, v: World, caller: Caller, shape: Shape, ds: seq<Draft>): DurableState {
    match AtomicBatch(cfg, w, caller, shape, ds, w.auth.publishers, w.auth.fencedBoots)
    case None => w.st
    case Some(s) => Stamp(s, v.reg, v.auth, v.auth.epoch)
  }

  /** `v` is `w` but for the publisher table and the fences. */
  ghost predicate OnlyFences(w: World, v: World) { v == w.(auth := v.auth) && v.auth.epoch == w.auth.epoch }

  /** Validated as captured, the commit goes through, whatever became of the fences. */
  lemma Passes(cfg: Config, w: World, v: World, t: Thread, u: Thread)
    requires t.job.Mutate? && WillCommit(cfg, w, t.job.caller, t.job.shape, t.job.drafts) && OnlyFences(w, v)
    requires u == Opened(w, t).(phase := Captured, found := Resolutions(w, t.job.drafts))
    ensures var s := AtomicBatch(cfg, w, t.job.caller, t.job.shape, t.job.drafts, w.auth.publishers,
                                 w.auth.fencedBoots);
            Alone(cfg, v, u, 5) == Move(v, u.(phase := Stamping(0), at := v, next := s.value.(epoch := v.auth.epoch)))
  {
    hide PrepareAll; hide BatchState; hide BatchDigest; hide Resolutions; hide AttemptAccepted; hide AttemptPosition;
    assert Ctx(u) == AtomicContext(w, t.job.caller, w.auth.publishers, w.auth.fencedBoots);
    var u3 := u.(phase := RegistryChecked, at := v);
    var u4 := u3.(phase := EpochChecked);
    assert Validate(cfg, u) == u.(phase := Validated);
    assert Relock(v, u.(phase := Validated)) == u.(phase := Relocked);
    assert CheckRegistry(v, u.(phase := Relocked)) == u3;
    assert CheckEpoch(v, u3) == u4;
    var s := AtomicBatch(cfg, w, t.job.caller, t.job.shape, t.job.drafts, w.auth.publishers, w.auth.fencedBoots);
    assert CheckMark(cfg, v, u4) == u4.(phase := Stamping(0), next := s.value.(epoch := v.auth.epoch));
    hide Validate; hide Relock; hide CheckRegistry; hide CheckEpoch; hide CheckMark; hide AtomicBatch;
    ThreeSteps(cfg, v, u, u.(phase := Validated), u.(phase := Relocked), u3);
    assert Alone(cfg, v, u, 4) == Move(v, u4);
  }

  /** Four copies, the save and the swap. */
  lemma Finishes(cfg: Config, w: World, t: Thread)
    requires t.phase == Stamping(0)
    ensures var next := t.next.(profiles := w.reg.profiles, policies := w.reg.policies,
                                publishers := w.auth.publishers, fencedBoots := w.auth.fencedBoots);
            var u := t.(phase := Saved, next := next);
            && Alone(cfg, w, t, 5) == Move(w.(disk := Some(ImageOf(u, w.st))), u)
            && Alone(cfg, w, t, 6) == Move(w.(disk := Some(ImageOf(u, w.st)), st := next), Done(u, Committed))
  {
    var t1 := t.(phase := Stamping(1), next := t.next.(profiles := w.reg.profiles));
    var t2 := t1.(phase := Stamping(2), next := t1.next.(policies := w.reg.policies));
    var t3 := t2.(phase := Stamping(3), next := t2.next.(publishers := w.auth.publishers));
    var t4 := t3.(phase := Stamping(4), next := t3.next.(fencedBoots := w.auth.fencedBoots));
    Stamps(cfg, w, t); Stamps(cfg, w, t1); Stamps(cfg, w, t2); Stamps(cfg, w, t3);
    SavesAndShows(cfg, w, t4);
    hide Act;
    ThreeSteps(cfg, w, t, t1, t2, t3);
    assert Alone(cfg, w, t, 4) == Move(w, t4);
  }

  lemma Stamps(cfg: Config, w: World, t: Thread)
    requires t.phase.Stamping? && t.phase.part < 4
    ensures Act(cfg, w, t, false) == Move(w, StampPart(w, t, t.phase.part))
  {
    hide StampPart;
  }

  lemma SavesAndShows(cfg: Config, w: World, t: Thread)
    requires t.phase == Stamping(4)
    ensures var u, v := t.(phase := Saved), w.(disk := Some(ImageOf(t.(phase := Saved), w.st)));
            Act(cfg, w, t, false) == Move(v, u) && Act(cfg, v, u, false) == Move(v.(st := t.next), Done(u, Committed))
  {}

  function BatchSteps(ds: seq<Draft>): nat { 19 + 2 * |ds| }

  const COMMIT_STEPS: nat := 11

  /** A captured batch commits, and shows the atomic batch of the world it was captured in. */
  lemma CommitAlone(cfg: Config, w: World, v: World, t: Thread, u: Thread)
    requires t.job.Mutate? && WillCommit(cfg, w, t.job.caller, t.job.shape, t.job.drafts) && OnlyFences(w, v)
    requires u == Opened(w, t).(phase := Captured, found := Resolutions(w, t.job.drafts))
    ensures var n, s := COMMIT_STEPS, CommittedState(cfg, w, v, t.job.caller, t.job.shape, t.job.drafts);
            && Alone(cfg, v, u, n - 1).t.phase.Saved? && Alone(cfg, v, u, n - 1).t.job == t.job
            && Alone(cfg, v, u, n).w == v.(st := s, disk := Some(s))
            && Alone(cfg, v, u, n).t.phase.Idle? && Alone(cfg, v, u, n).t.verdict == Committed
  {
    Passes(cfg, w, v, t, u);
    KeepsJob(w, t);
    hide Act; hide WillCommit; hide AtomicBatch; hide Opened; hide Alone; hide Resolutions;
    Finishes(cfg, v, Alone(cfg, v, u, 5).t);
    AloneFurther(cfg, v, u, 5, 5);
    AloneFurther(cfg, v, u, 5, 6);
  }

  /** A batch with nobody in its way commits as the atomic batch. */
  lemma BatchAlone(cfg: Config, w: World, t: Thread)
    requires t.phase.Begun? && t.job.Mutate? && WillCommit(cfg, w, t.job.caller, t.job.shape, t.job.drafts)
    ensures var n, s := BatchSteps(t.job.drafts), CommittedState(cfg, w, w, t.job.caller, t.job.shape, t.job.drafts);
            && Alone(cfg, w, t, n - 1).t.phase.Saved? && Alone(cfg, w, t, n - 1).t.job == t.job
            && Alone(cfg, w, t, n).w == w.(st := s, disk := Some(s))
            && Alone(cfg, w, t, n).t.phase.Idle? && Alone(cfg, w, t, n).t.verdict == Committed
  {
    hide Act; hide WillCommit; hide CommittedState; hide Opened; hide Alone; hide Resolutions;
    var n := 8 + 2 * |t.job.drafts|;
    Captures(cfg, w, t);
    CommitAlone(cfg, w, w, t, Alone(cfg, w, t, n).t);
    AloneFurther(cfg, w, t, n, COMMIT_STEPS - 1);
    AloneFurther(cfg, w, t, n, COMMIT_STEPS);
  }

  lemma KeepsJob(w: World, t: Thread)
    ensures Opened(w, t).job == t.job
  {}

  // -------------------------------------------------- an administrative event, alone

  /** What a caller can find out before an administrative event. */
  predicate WillApply(cfg: Config, w: World, j: Job)
    requires j.Administer?
  {
    var ctx := AtomicContext(w, j.caller, w.auth.publishers, w.auth.fencedBoots);
    var x := FindList(w.st.lists, j.list);
    && AttemptAccepted(cfg.limits, w.st.attempts, j.caller.attempt)
    && x.Some? && j.expected != 0 && x.value.generation == j.expected
    && TransitionValid(cfg, ctx, x.value, j.expected, j.event)
    && TransitionState(cfg, w.st, ctx, j.list, j.expected, j.event).Some?
  }

  lemma EventAdmitted(cfg: Config, w: World, t: Thread)
    requires t.phase.Begun? && t.job.Administer? && WillApply(cfg, w, t.job)
    ensures Alone(cfg, w, t, 3) == Move(w, Admitted(w, t))
  {
    hide TransitionValid; hide TransitionState; hide Alone;
    var t1 := t.(phase := Marked, mark := w.src.Mark());
    var t2 := t1.(phase := Observed, evidence := w.src.evidence);
    assert Begin(cfg, w, t) == t1;
    assert Observe(cfg, w, t1) == t2;
    assert Enter(cfg, w, t2) == Admitted(w, t);
    hide Begin; hide Observe; hide Enter;
    ThreeSteps(cfg, w, t, t1, t2, Admitted(w, t));
  }

  lemma EventOpens(cfg: Config, w: World, t: Thread)
    requires t.phase.Begun? && t.job.Administer? && WillApply(cfg, w, t.job)
    ensures Alone(cfg, w, t, 7) == Move(w, Opened(w, t))
  {
    hide Act; hide Alone; hide WillApply;
    EventAdmitted(cfg, w, t);
    AloneFurther(cfg, w, t, 3, 4);
    ReadsTables(cfg, w, Admitted(w, t));
  }

  /** What an administrative event makes of the state, before the tables are stamped on. */
  function EventState(cfg: Config, w: World, j: Job): DurableState
    requires j.Administer?
  {
    var ctx := AtomicContext(w, j.caller, w.auth.publishers, w.auth.fencedBoots);
    match TransitionState(cfg, w.st, ctx, j.list, j.expected, j.event) case None => w.st case Some(s) => s
  }

  lemma EventPasses(cfg: Config, w: World, t: Thread, u: Thread)
    requires t.job.Administer? && WillApply(cfg, w, t.job) && u == Opened(w, t)
    ensures var v := Alone(cfg, w, u, 6);
            v.w == w && v.t.phase == Stamping(0) && v.t.job == t.job
            && v.t.next == EventState(cfg, w, t.job).(epoch := w.auth.epoch)
  {
    hide TransitionState; hide TransitionValid; hide AttemptAccepted; hide FindList;
    var j := t.job;
    var x := FindList(w.st.lists, j.list);
    assert Ctx(u) == AtomicContext(w, j.caller, w.auth.publishers, w.auth.fencedBoots);
    var u1 := u.(phase := Captured, found := [Resolved(x, None, None, None)]);
    assert Alone(cfg, w, u, 1) == Move(w, u1);
    assert Alone(cfg, w, u, 2) == Move(w, u1.(phase := Validated));
    assert Alone(cfg, w, u, 3) == Move(w, u1.(phase := Relocked));
    assert Alone(cfg, w, u, 4) == Move(w, u1.(phase := RegistryChecked, at := w));
    assert Alone(cfg, w, u, 5) == Move(w, u1.(phase := EpochChecked, at := w));
  }

  const EVENT_STEPS: nat := 19

  lemma EventAlone(cfg: Config, w: World, t: Thread)
    requires t.phase.Begun? && t.job.Administer? && WillApply(cfg, w, t.job)
    ensures Alone(cfg, w, t, EVENT_STEPS - 1).t.phase.Saved? && Alone(cfg, w, t, EVENT_STEPS - 1).t.job == t.job
    ensures var m, s := Alone(cfg, w, t, EVENT_STEPS), Stamp(EventState(cfg, w, t.job), w.reg, w.auth, w.auth.epoch);
            m.t.phase.Idle? && m.t.verdict == Committed && m.w == w.(st := s, disk := Some(s))
  {
    hide Act; hide WillApply; hide Opened; hide EventState;
    EventOpens(cfg, w, t);
    EventPasses(cfg, w, t, Opened(w, t));
    AloneFurther(cfg, w, t, 7, 6);
    var v := Alone(cfg, w, t, 13).t;
    Finishes(cfg, w, v);
    AloneFurther(cfg, w, t, 13, 5);
    AloneFurther(cfg, w, t, 13, 6);
  }

  // ------------------------------------------------------- a plain save, alone

  const SAVE_STEPS: nat := 7

  /** What a plain save writes and shows. */
  function SavedNow(w: World): DurableState {
    Stamp(w.st.(revision := w.st.revision + 1), w.reg, w.auth, w.auth.epoch)
  }

  lemma SaveAlone(cfg: Config, w: World, t: Thread)
    requires t.phase.Begun? && t.job.PersistNow?
    ensures Alone(cfg, w, t, SAVE_STEPS - 1).t.phase.Saved?
    ensures var m := Alone(cfg, w, t, SAVE_STEPS);
            m.w == w.(st := SavedNow(w), disk := Some(SavedNow(w))) && m.t.phase.Idle? && m.t.verdict == Committed
  {
    var u := t.(phase := Stamping(0), next := w.st.(revision := w.st.revision + 1, epoch := w.auth.epoch));
    assert Begin(cfg, w, t) == u;
    hide Begin;
    assert Alone(cfg, w, t, 1) == Act(cfg, w, t, false) == Move(w, u);
    hide Act;
    Finishes(cfg, w, u);
    AloneFurther(cfg, w, t, 1, 5);
    AloneFurther(cfg, w, t, 1, 6);
  }

  // ------------------------------------------------------------------ whole systems

  function Last(r: Trace): System requires r.states != [] { r.states[|r.states| - 1] }

  /** `q` goes on where `r` ends. */
  ghost predicate Extends(r: Trace, q: Trace) {
    |r.states| <= |q.states| && |r.labels| <= |q.labels|
    && q.states[..|r.states|] == r.states && q.labels[..|r.labels|] == r.labels
  }

  lemma ExtendsTrans(a: Trace, b: Trace, c: Trace)
    requires Extends(a, b) && Extends(b, c)
    ensures Extends(a, c)
  {
    assert a.states == b.states[..|a.states|] == c.states[..|b.states|][..|a.states|] == c.states[..|a.states|];
    assert a.labels == b.labels[..|a.labels|] == c.labels[..|b.labels|][..|a.labels|] == c.labels[..|a.labels|];
  }

  lemma OneMore(cfg: Config, r: Trace, l: Label, s: System) returns (q: Trace)
    requires IsTrace(cfg, r) && Step(cfg, Last(r), l, s)
    ensures IsTrace(cfg, q) && Extends(r, q) && Last(q) == s && |q.labels| == |r.labels| + 1
    ensures q.labels[|r.labels|] == l && q.states[|r.labels|] == Last(r)
  {
    hide Step; hide Init;
    q := Trace(r.states + [s], r.labels + [l]);
    assert q.states[..|r.states|] == r.states && q.labels[..|r.labels|] == r.labels;
    forall k | 0 <= k < |q.labels| ensures Step(cfg, q.states[k], q.labels[k], q.states[k + 1]) {
      if k < |r.labels| { assert Step(cfg, r.states[k], r.labels[k], r.states[k + 1]); }
    }
  }

  /** Nobody but the thread `i` holds the store lock. */
  ghost predicate Free(ts: seq<Thread>, i: nat) { forall j :: 0 <= j < |ts| && j != i ==> !Holds(ts[j].phase) }

  /** The whole system after `n` steps of its thread `i`. */
  function Moved(cfg: Config, a: System, i: nat, n: nat): System
    requires i < |a.threads|
  {
    var m := Alone(cfg, a.w, a.threads[i], n);
    System(m.w, a.threads[i := m.t])
  }

  lemma MovesOn(cfg: Config, a: System, i: nat, n: nat)
    requires n > 0 && i < |a.threads| && Free(a.threads, i)
    requires !Alone(cfg, a.w, a.threads[i], n - 1).t.phase.Idle?
    ensures Step(cfg, Moved(cfg, a, i, n - 1), Run(i, false), Moved(cfg, a, i, n))
  {
    hide Act;
    var b := Moved(cfg, a, i, n - 1);
    var t := b.threads[i];
    if TakesLock(t) { assert !Holds(t.phase) && LockFree(b.threads); }
    assert b.threads[i := Alone(cfg, a.w, a.threads[i], n).t] == Moved(cfg, a, i, n).threads;
  }

  lemma NothingMoved(cfg: Config, a: System, i: nat)
    requires i < |a.threads|
    ensures Moved(cfg, a, i, 0) == a
  {
    assert a.threads[i := a.threads[i]] == a.threads;
  }

  lemma ExtendsSelf(r: Trace)
    ensures Extends(r, r)
  {
    assert r.states[..|r.states|] == r.states && r.labels[..|r.labels|] == r.labels;
  }

  /** `q` is `r` and then `n` steps of the thread `i`. */
  ghost predicate RanAlone(cfg: Config, r: Trace, i: nat, n: nat, q: Trace) {
    && IsTrace(cfg, r) && IsTrace(cfg, q) && Extends(r, q) && |q.labels| == |r.labels| + n && i < |Last(r).threads|
    && Last(q) == Moved(cfg, Last(r), i, n)
    && (n > 0 ==>
          && q.states[|q.labels| - 1] == Moved(cfg, Last(r), i, n - 1)
          && q.labels[|q.labels| - 1] == Run(i, false))
  }

  lemma RanOneMore(cfg: Config, r: Trace, i: nat, n: nat, p: Trace) returns (q: Trace)
    requires RanAlone(cfg, r, i, n, p)
             && Step(cfg, Moved(cfg, Last(r), i, n), Run(i, false), Moved(cfg, Last(r), i, n + 1))
    ensures RanAlone(cfg, r, i, n + 1, q)
  {
    hide Step; hide Moved; hide Extends; hide Init;
    q := OneMore(cfg, p, Run(i, false), Moved(cfg, Last(r), i, n + 1));
    ExtendsTrans(r, p, q);
  }

  /** Taking steps of one thread while it is busy. */
  lemma {:induction false} RunAlone(cfg: Config, r: Trace, i: nat, n: nat) returns (q: Trace)
    requires IsTrace(cfg, r) && i < |Last(r).threads| && Free(Last(r).threads, i)
    requires forall k :: 0 <= k < n ==> !Alone(cfg, Last(r).w, Last(r).threads[i], k).t.phase.Idle?
    ensures RanAlone(cfg, r, i, n, q)
    decreases n
  {
    hide Act; hide Step; hide Moved; hide Alone; hide Free;
    if n == 0 {
      NothingMoved(cfg, Last(r), i);
      ExtendsSelf(r);
      q := r;
    } else {
      hide RanAlone;
      var p := RunAlone(cfg, r, i, n - 1);
      MovesOn(cfg, Last(r), i, n);
      q := RanOneMore(cfg, r, i, n - 1, p);
    }
  }

  /** Starting a job on an idle thread. */
  lemma Starts(cfg: Config, r: Trace, i: nat, job: Job) returns (q: Trace)
    requires IsTrace(cfg, r) && i < |Last(r).threads| && Last(r).threads[i].phase.Idle? && JobOk(job)
    ensures IsTrace(cfg, q) && Extends(r, q) && |q.labels| == |r.labels| + 1
    ensures var t := Last(r).threads[i].(phase := Begun, job := job, verdict := Nothing);
            Last(q) == Last(r).(threads := Last(r).threads[i := t])
  {
    TraceShape(cfg, r);
    hide IsTrace;
    var a := Last(r);
    q := OneMore(cfg, r, Start(i, job), a.(threads := a.threads[i := a.threads[i].(phase := Begun, job := job,
                                                                                  verdict := Nothing)]));
  }

  /** The store is not merely safe: from the end of any run in which the lock is free, a batch of admissible drafts
      has a
      run to its commit, and what becomes visible is the atomic batch, stamped with the tables. */
  lemma UndisturbedCommits(cfg: Config, r: Trace, i: nat, job: Job) returns (q: Trace)
    requires IsTrace(cfg, r) && i < |Last(r).threads| && Last(r).threads[i].phase.Idle? && Free(Last(r).threads, i)
    requires Sized(cfg) && job.Mutate? && JobOk(job)
    requires MayCommit(cfg, Last(r).w, job.caller, job.shape, job.drafts)
    ensures IsTrace(cfg, q) && Extends(r, q) && |r.labels| < |q.labels| && BatchCommits(q, |q.labels| - 1, i)
    ensures q.states[|q.labels| - 1].threads[i].job == job && q.states[|q.labels| - 1].w.st == Last(r).w.st
    ensures var s := CommittedState(cfg, Last(r).w, Last(r).w, job.caller, job.shape, job.drafts);
            Last(q).w == Last(r).w.(st := s, disk := Some(s))
    ensures |Last(q).threads| == |Last(r).threads| && Free(Last(q).threads, i)
    ensures Last(q).threads[i].phase.Idle? && Last(q).threads[i].verdict == Committed
  {
    hide IsTrace; hide WillCommit; hide MayCommit; hide CommittedState; hide JobOk; hide Alone; hide Extends;
    TraceShape(cfg, r);
    MayIsWill(cfg, Last(r).w, job.caller, job.shape, job.drafts);
    var p := Starts(cfg, r, i, job);
    TraceShape(cfg, p);
    var w, t, n := Last(p).w, Last(p).threads[i], BatchSteps(job.drafts);
    BatchAlone(cfg, w, t);
    forall k | 0 <= k < n ensures !Alone(cfg, w, t, k).t.phase.Idle? { BusyBefore(cfg, w, t, k, n - 1); }
    q := RunAlone(cfg, p, i, n);
    TraceShape(cfg, q);
    ExtendsTrans(r, p, q);
    SaveShowsNothing(cfg, w, t, n - 1);
  }

  /** The world once the boot was fenced. */
  function Fenced(w: World, boot: u64): World {
    w.(auth := Authority(w.auth.epoch, FenceAll(w.auth.publishers, boot), AddBoot(w.auth.fencedBoots, boot)))
  }

  lemma FencingStep(cfg: Config, r: Trace, boot: u64) returns (q: Trace)
    requires Sized(cfg) && IsTrace(cfg, r) && boot != 0
    ensures IsTrace(cfg, q) && Extends(r, q) && |q.labels| == |r.labels| + 1 && q.labels[|r.labels|] == Environment
    ensures Last(q) == Last(r).(w := Fenced(Last(r).w, boot)) && q.states[|r.labels|] == Last(r)
  {
    TraceShape(cfg, r);
    RunsKeepInv(cfg, r, |r.labels|);
    var a := Last(r);
    FencingMoves(a.w.auth, boot);
    hide IsTrace; hide AuthGood; hide AuthMoves; hide RegGood; hide Inv;
    RegistryStays(a.w.reg);
    q := OneMore(cfg, r, Environment, a.(w := Fenced(a.w, boot)));
  }

  lemma RegistryStays(g: Registry)
    ensures RegMoves(g, g)
  {}

  /** Step `k` fences the boot of the batch in thread `i`, which is captured and not yet validated, and the last step
      commits it. */
  ghost predicate CommitsFenced(q: Trace, k: nat, i: nat, job: Job)
    requires job.Mutate?
  {
    && |q.states| == |q.labels| + 1 && k < |q.labels| - 1 && q.labels[k] == Environment
    && i < |q.states[k].threads| && q.states[k].threads[i].phase.Captured? && q.states[k].threads[i].job == job
    && job.caller.boot in q.states[k + 1].w.auth.fencedBoots
    && var n := |q.labels| - 1;
       && BatchCommits(q, n, i) && q.states[n].threads[i].job == job
       && job.caller.boot in q.states[n].w.auth.fencedBoots
  }

  /** Fencing the boot of a batch after its capture does not stop it: every batch of admissible drafts also has a run on
      which its boot is fenced before it is even validated, and on which it commits all the same. */
  lemma LateFenceCommits(cfg: Config, r: Trace, i: nat, job: Job) returns (q: Trace, k: nat)
    requires IsTrace(cfg, r) && i < |Last(r).threads| && Last(r).threads[i].phase.Idle? && Free(Last(r).threads, i)
    requires Sized(cfg) && job.Mutate? && JobOk(job) && job.caller.boot != 0
    requires MayCommit(cfg, Last(r).w, job.caller, job.shape, job.drafts)
    ensures IsTrace(cfg, q) && Extends(r, q) && |r.labels| <= k && CommitsFenced(q, k, i, job)
    ensures Last(q).w.st == CommittedState(cfg, Last(r).w, Fenced(Last(r).w, job.caller.boot), job.caller, job.shape,
                                           job.drafts)
  {
    hide IsTrace; hide WillCommit; hide MayCommit; hide CommittedState; hide JobOk; hide Extends; hide CapturedThread;
    TraceShape(cfg, r);
    MayIsWill(cfg, Last(r).w, job.caller, job.shape, job.drafts);
    var p1 := CaptureRuns(cfg, r, i, job);
    TraceShape(cfg, p1);
    k := |p1.labels|;
    var p2 := FencingStep(cfg, p1, job.caller.boot);
    TraceShape(cfg, p2);
    q := CommitRuns(cfg, Last(r).w, p2, i, Last(r).threads[i], job);
    TraceShape(cfg, q);
    ExtendsTrans(r, p1, p2); ExtendsTrans(r, p2, q);
    Kept(p2, q, k);
    CapturedShape(Last(r).w, Last(r).threads[i], job);
  }

  /** The thread once it has captured the batch. */
  function CapturedThread(w: World, t: Thread, job: Job): Thread
    requires job.Mutate?
  {
    Opened(w, t.(phase := Begun, job := job, verdict := Nothing))
      .(phase := Captured, found := Resolutions(w, job.drafts))
  }

  lemma CapturedShape(w: World, t: Thread, job: Job)
    requires job.Mutate?
    ensures CapturedThread(w, t, job).phase.Captured? && CapturedThread(w, t, job).job == job
  {}

  lemma CaptureRuns(cfg: Config, r: Trace, i: nat, job: Job) returns (q: Trace)
    requires IsTrace(cfg, r) && i < |Last(r).threads| && Last(r).threads[i].phase.Idle? && Free(Last(r).threads, i)
    requires job.Mutate? && JobOk(job) && WillCommit(cfg, Last(r).w, job.caller, job.shape, job.drafts)
    ensures IsTrace(cfg, q) && Extends(r, q)
    ensures Last(q) == Last(r).(threads := Last(r).threads[i := CapturedThread(Last(r).w, Last(r).threads[i], job)])
  {
    hide IsTrace; hide WillCommit; hide JobOk; hide Alone; hide Extends; hide Opened; hide Resolutions;
    TraceShape(cfg, r);
    var p := Starts(cfg, r, i, job);
    TraceShape(cfg, p);
    var w, t, n := Last(p).w, Last(p).threads[i], 8 + 2 * |job.drafts|;
    Captures(cfg, w, t);
    forall m | 0 <= m < n ensures !Alone(cfg, w, t, m).t.phase.Idle? { BusyBefore(cfg, w, t, m, n); }
    q := RunAlone(cfg, p, i, n);
    TraceShape(cfg, q);
    ExtendsTrans(r, p, q);
  }

  /** A captured batch runs to its commit, in a world that differs in its fences only. */
  lemma CommitRuns(cfg: Config, w: World, r: Trace, i: nat, t: Thread, job: Job) returns (q: Trace)
    requires IsTrace(cfg, r) && i < |Last(r).threads| && Free(Last(r).threads, i) && OnlyFences(w, Last(r).w)
    requires job.Mutate? && Last(r).threads[i] == CapturedThread(w, t, job)
    requires WillCommit(cfg, w, job.caller, job.shape, job.drafts)
    ensures IsTrace(cfg, q) && Extends(r, q) && |q.labels| == |r.labels| + COMMIT_STEPS
    ensures BatchCommits(q, |q.labels| - 1, i) && q.states[|q.labels| - 1].threads[i].job == job
    ensures q.states[|q.labels| - 1].w.auth == Last(r).w.auth && Last(q).threads[i].verdict == Committed
    ensures Last(q).w.st == CommittedState(cfg, w, Last(r).w, job.caller, job.shape, job.drafts)
  {
    hide IsTrace; hide WillCommit; hide CommittedState; hide Alone; hide Extends; hide Opened; hide Resolutions;
    TraceShape(cfg, r);
    var v, u := Last(r).w, Last(r).threads[i];
    CommitAlone(cfg, w, v, t.(phase := Begun, job := job, verdict := Nothing), u);
    forall m | 0 <= m < COMMIT_STEPS ensures !Alone(cfg, v, u, m).t.phase.Idle? {
      BusyBefore(cfg, v, u, m, COMMIT_STEPS - 1);
    }
    q := RunAlone(cfg, r, i, COMMIT_STEPS);
    TraceShape(cfg, q);
    FencesStand(cfg, v, u, COMMIT_STEPS - 1);
  }

  lemma Kept(p: Trace, q: Trace, k: nat)
    requires Extends(p, q) && k < |p.labels| && k + 1 < |p.states|
    ensures q.states[k] == p.states[k] && q.states[k + 1] == p.states[k + 1] && q.labels[k] == p.labels[k]
  {
    assert q.states[k] == q.states[..|p.states|][k] && q.states[k + 1] == q.states[..|p.states|][k + 1];
    assert q.labels[k] == q.labels[..|p.labels|][k];
  }

  lemma {:induction false} FencesStand(cfg: Config, w: World, t: Thread, n: nat)
    ensures Alone(cfg, w, t, n).w.auth == w.auth
  {
    hide Act;
    if n > 0 {
      FencesStand(cfg, w, t, n - 1);
      AuthorityUntouched(cfg, Alone(cfg, w, t, n - 1).w, Alone(cfg, w, t, n - 1).t, false);
    }
  }

  /** A plain save with nobody in its way succeeds. */
  lemma SaveRuns(cfg: Config, r: Trace, i: nat) returns (q: Trace)
    requires IsTrace(cfg, r) && i < |Last(r).threads| && Last(r).threads[i].phase.Idle? && Free(Last(r).threads, i)
    ensures IsTrace(cfg, q) && Extends(r, q) && i < |Last(q).threads| && Last(q).threads[i].verdict == Committed
    ensures Last(q).w == Last(r).w.(st := SavedNow(Last(r).w), disk := Some(SavedNow(Last(r).w)))
  {
    hide IsTrace; hide Alone; hide Extends; hide SavedNow;
    TraceShape(cfg, r);
    var p := Starts(cfg, r, i, PersistNow);
    TraceShape(cfg, p);
    var w, t := Last(p).w, Last(p).threads[i];
    SaveAlone(cfg, w, t);
    forall k | 0 <= k < SAVE_STEPS ensures !Alone(cfg, w, t, k).t.phase.Idle? {
      BusyBefore(cfg, w, t, k, SAVE_STEPS - 1);
    }
    q := RunAlone(cfg, p, i, SAVE_STEPS);
    TraceShape(cfg, q);
    ExtendsTrans(r, p, q);
  }

  /** An administrative event with nobody in its way lands. */
  lemma UndisturbedEventLands(cfg: Config, r: Trace, i: nat, job: Job) returns (q: Trace)
    requires IsTrace(cfg, r) && i < |Last(r).threads| && Last(r).threads[i].phase.Idle? && Free(Last(r).threads, i)
    requires job.Administer? && JobOk(job) && WillApply(cfg, Last(r).w, job)
    ensures IsTrace(cfg, q) && Extends(r, q) && |q.labels| == |r.labels| + 1 + EVENT_STEPS
    ensures AdminLands(q.states[|q.labels| - 1], q.labels[|q.labels| - 1], job.caller.attempt)
    ensures q.states[|q.labels| - 1].w.st == Last(r).w.st
    ensures Landed(q.states[|q.labels| - 1], q.labels[|q.labels| - 1]).value.job == job
    ensures var s := Stamp(EventState(cfg, Last(r).w, job), Last(r).w.reg, Last(r).w.auth, Last(r).w.auth.epoch);
            Last(q).w == Last(r).w.(st := s, disk := Some(s))
    ensures |Last(q).threads| == |Last(r).threads| && Free(Last(q).threads, i) && Last(q).threads[i].phase.Idle?
  {
    hide IsTrace; hide WillApply; hide JobOk; hide Alone; hide Extends; hide EventState;
    TraceShape(cfg, r);
    var p := Starts(cfg, r, i, job);
    TraceShape(cfg, p);
    var w, t, n := Last(p).w, Last(p).threads[i], EVENT_STEPS;
    EventAlone(cfg, w, t);
    forall k | 0 <= k < n ensures !Alone(cfg, w, t, k).t.phase.Idle? { BusyBefore(cfg, w, t, k, n - 1); }
    q := RunAlone(cfg, p, i, n);
    TraceShape(cfg, q);
    ExtendsTrans(r, p, q);
    SaveShowsNothing(cfg, w, t, n - 1);
  }

  lemma TraceShape(cfg: Config, r: Trace)
    requires IsTrace(cfg, r)
    ensures |r.states| == |r.labels| + 1
  {}

  /** Until its swap a thread leaves the visible state alone. */
  lemma {:induction false} SaveShowsNothing(cfg: Config, w: World, t: Thread, n: nat)
    requires Alone(cfg, w, t, n).t.phase.Saved? && !t.phase.Saved?
    ensures Alone(cfg, w, t, n).w.st == w.st
  {
    ShowsNothing(cfg, w, t, n);
  }

  lemma {:induction false} ShowsNothing(cfg: Config, w: World, t: Thread, n: nat)
    requires !t.phase.Saved? && !Alone(cfg, w, t, n).t.phase.Idle?
    ensures Alone(cfg, w, t, n).w.st == w.st
  {
    hide Act;
    if n > 0 {
      IdleStays(cfg, w, t, n);
      OnlySwapShows(cfg, Alone(cfg, w, t, n - 1).w, Alone(cfg, w, t, n - 1).t);
      ShowsNothing(cfg, w, t, n - 1);
    }
  }

  lemma OnlySwapShows(cfg: Config, w: World, t: Thread)
    ensures !t.phase.Saved? ==> Act(cfg, w, t, false).w.st == w.st
    ensures t.phase.Saved? ==> Act(cfg, w, t, false).t.phase.Idle?
  {
    hide Begin; hide Observe; hide Enter; hide StartResolving; hide ResolveNext; hide Validate; hide Relock;
    hide CheckRegistry; hide CheckEpoch; hide CheckMark; hide Sweep; hide StampPart;
  }
}
