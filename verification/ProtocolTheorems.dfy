/** What the concurrent store guarantees over whole runs. */
module SrfProtocolTheorems {
  import opened SrfTypes
  import opened SrfLifecycle
  import opened SrfEvidence
  import opened SrfAuthority
  import opened SrfStoreModel
  import opened SrfStoreLaws
  import opened SrfCommitLaws
  import opened SrfRecovery
  import opened SrfProtocol
  import opened SrfProtocolInv
  import opened SrfProtocolSteps
  import opened SrfProtocolRuns

  ghost predicate Sized(cfg: Config) { cfg.limits.maxReasons >= 1 && cfg.limits.maxHistory >= 1 }

  // ------------------------------------------------- what one step may change

  /** Nothing but the last step of a commit changes what is visible, and by then the image carries it. */
  lemma VisibleAfterDurable(cfg: Config, a: System, l: Label, b: System)
    requires Sized(cfg) && Inv(cfg, a) && Step(cfg, a, l, b) && !l.Crash? && b.w.st != a.w.st
    ensures l.Run? && l.thread < |a.threads| && a.threads[l.thread].phase.Saved?
    ensures b.w.st == a.threads[l.thread].next && b.threads[l.thread].verdict == Committed
    ensures b.w.disk == a.w.disk == Some(ImageOf(a.threads[l.thread], a.w.st))
    ensures ThreadInv(cfg, a.w, a.threads[l.thread])
  {
    hide ThreadInv; hide WorldInv; hide WorldMoves; hide OneHolder; hide TakesLock; hide Recoverable; hide Twins;
    if l.Run? {
      RunKeepsThreads(cfg, a, b, l.thread, l.fails);
      assert !NoneSaved(a.threads);
    }
  }

  /** Nothing but a successful save changes the image, and what is saved then becomes visible unless the process
      dies first. */
  lemma SavedOnlyByCommit(cfg: Config, a: System, l: Label, b: System)
    requires Sized(cfg) && Inv(cfg, a) && Step(cfg, a, l, b) && !l.Crash? && b.w.disk != a.w.disk
    ensures l.Run? && !l.fails && l.thread < |a.threads| && b.threads[l.thread].phase.Saved?
    ensures b.w.disk == Some(ImageOf(b.threads[l.thread], b.w.st)) && b.w.st == a.w.st
    ensures forall c: System, f :: RunStep(cfg, b, c, l.thread, f) ==>
              c.w.st == b.threads[l.thread].next && c.threads[l.thread].verdict == Committed
  {
    hide ThreadInv; hide WorldInv; hide WorldMoves; hide OneHolder; hide TakesLock; hide Recoverable; hide DiskInv;
    match l
    case Run(i, fails) =>
      var t := a.threads[i];
      if t.phase.Stamping? { StampOrSave(cfg, a.w, t, fails); }
      else if !t.phase.Saved? { ActKeeps(cfg, a.w, t, fails); }
    case _ => {}
  }

  /** An operation that ends in anything but a commit leaves the state and the image as they were. */
  lemma RefusalChangesNothing(cfg: Config, a: System, l: Label, b: System)
    requires Sized(cfg) && Inv(cfg, a) && Step(cfg, a, l, b) && l.Run? && l.thread < |b.threads|
    requires b.threads[l.thread].phase.Idle? && b.threads[l.thread].verdict != Committed
    ensures b.w == a.w
  {
    hide ThreadInv; hide WorldInv; hide WorldMoves; hide OneHolder; hide TakesLock; hide Recoverable; hide DiskInv;
    var t := a.threads[l.thread];
    if !t.phase.Stamping? && !t.phase.Saved? { ActKeeps(cfg, a.w, t, l.fails); }
  }

  // --------------------------------------------------------------- lineages

  /** What a run may make of a list: its id stays; a generation has one content; a closed lineage is left alone; a list
      is activated only together with a new generation. */
  ghost predicate Evolves(x: SegmentList, y: SegmentList) {
    && y.content.id == x.content.id && x.generation <= y.generation
    && (x.generation == y.generation ==> SameRevision(x, y))
    && (Closed(x.state) ==> Closed(y.state) && y.generation == x.generation)
    && (y.state == Active && x.state != Active ==> x.generation < y.generation)
  }

  ghost predicate ListsEvolve(a: seq<SegmentList>, b: seq<SegmentList>) {
    |a| <= |b| && forall i :: 0 <= i < |a| ==> Evolves(a[i], b[i])
  }

  lemma StepsEvolve(a: seq<SegmentList>, b: seq<SegmentList>)
    requires ListsStep(a, b)
    ensures ListsEvolve(a, b)
  {}

  lemma RecoveryEvolves(a: seq<SegmentList>)
    ensures ListsEvolve(a, RecoverLists(a))
  {
    forall i | 0 <= i < |a| ensures Evolves(a[i], RecoverList(a[i])) { RecoverIsClosedStep(a[i]); }
  }

  lemma EvolveTrans(a: seq<SegmentList>, b: seq<SegmentList>, c: seq<SegmentList>)
    requires ListsEvolve(a, b) && ListsEvolve(b, c)
    ensures ListsEvolve(a, c)
  {
    forall i | 0 <= i < |a| ensures Evolves(a[i], c[i]) { assert Evolves(a[i], b[i]) && Evolves(b[i], c[i]); }
  }

  /** The visible state before a crash and the one recovered after it: the same, or one committed step apart. */
  lemma CrashOutcome(cfg: Config, a: System, b: System, fails: bool) returns (s: DurableState)
    requires Inv(cfg, a) && CrashStep(a, b, fails)
    ensures b.w.st.lists == RecoverLists(s.lists) && b.w.st.attempts == s.attempts && b.w.st.history == s.history
    ensures NoneSaved(a.threads) ==> s == a.w.st
    ensures !NoneSaved(a.threads) ==>
              exists i :: 0 <= i < |a.threads| && a.threads[i].phase.Saved? && s == a.threads[i].next
                          && ThreadInv(cfg, a.w, a.threads[i])
  {
    hide ThreadInv; hide WorldInv; hide OneHolder; hide Recoverable; hide AllIdle;
    hide RestorePublishers; hide RestoreBoots; hide AddBoots; hide RestoreProfiles; hide RestorePolicies;
    if NoneSaved(a.threads) {
      s := a.w.st;
      assert RecoverLists([]) == [];
    } else {
      var i :| 0 <= i < |a.threads| && a.threads[i].phase.Saved?;
      s := a.threads[i].next;
    }
  }

  lemma StepEvolves(cfg: Config, a: System, l: Label, b: System)
    requires Sized(cfg) && Inv(cfg, a) && Step(cfg, a, l, b)
    ensures ListsEvolve(a.w.st.lists, b.w.st.lists)
  {
    hide Inv; hide ThreadInv; hide ListsEvolve; hide RunStep; hide StartStep; hide CrashStep; hide NoneSaved;
    EvolveRefl(a.w.st.lists);
    if l.Crash? {
      var s := CrashOutcome(cfg, a, b, l.fails);
      if !NoneSaved(a.threads) {
        var i :| 0 <= i < |a.threads| && a.threads[i].phase.Saved? && s == a.threads[i].next
                 && ThreadInv(cfg, a.w, a.threads[i]);
        SavedStep(cfg, a.w, a.threads[i]);
        StepsEvolve(a.w.st.lists, s.lists);
      }
      RecoveryEvolves(s.lists);
      EvolveTrans(a.w.st.lists, s.lists, b.w.st.lists);
    } else if b.w.st != a.w.st {
      VisibleAfterDurable(cfg, a, l, b);
      SavedStep(cfg, a.w, a.threads[l.thread]);
      StepsEvolve(a.w.st.lists, b.w.st.lists);
    }
  }

  lemma EvolveRefl(ls: seq<SegmentList>)
    ensures ListsEvolve(ls, ls)
  {}

  lemma SavedStep(cfg: Config, w: World, t: Thread)
    requires ThreadInv(cfg, w, t) && t.phase.Saved?
    ensures ListsStep(w.st.lists, t.next.lists) && HistoryStep(cfg.limits.maxHistory, w.st.history, t.next.history)
    ensures RecordsStep(w.st.attempts, t.next.attempts, OwnRecord(cfg, w.st, t.job))
    ensures t.next.revision == w.st.revision + 1
    ensures !t.job.Mutate? ==> Degraded(w.st.lists, t.next.lists)
    ensures t.job.Mutate? ==> IsAtomic(cfg, t) && AtOk(w, t) && Valid(cfg, t)
    ensures t.job.Mutate? ==>
              AttemptPayload(t.next.attempts, t.job.caller.attempt) == Some(BatchDigest(cfg.digest, t.job.drafts))
  {
    SavedRecord(cfg, w, t);
    if t.job.Mutate? { SavedAtomic(cfg, w, t); }
    hide Gathered; hide IsAtomic; hide AtOk; hide Valid; hide RecordsStep; hide ListsStep; hide HistoryStep;
    hide Degraded; hide TablesCover; hide StateGood; hide TablesGood; hide WritersBelow; hide WritersKnown;
    hide AttemptPayload; hide BatchDigest; hide OwnRecord;
  }

  lemma SavedAtomic(cfg: Config, w: World, t: Thread)
    requires ThreadInv(cfg, w, t) && t.phase.Saved? && t.job.Mutate?
    ensures IsAtomic(cfg, t) && AtOk(w, t) && Valid(cfg, t)
  {
    hide CaptureOk; hide PublishersKnown; hide IsAtomic; hide AtOk; hide Valid; hide NextOk; hide TablesCover;
  }

  lemma SavedRecord(cfg: Config, w: World, t: Thread)
    requires ThreadInv(cfg, w, t) && t.phase.Saved?
    ensures RecordsStep(w.st.attempts, t.next.attempts, OwnRecord(cfg, w.st, t.job))
    ensures t.job.Mutate? ==>
              AttemptPayload(t.next.attempts, t.job.caller.attempt) == Some(BatchDigest(cfg.digest, t.job.drafts))
  {
    hide Gathered; hide ListsStep; hide HistoryStep; hide Degraded; hide TablesCover; hide StateGood; hide TablesGood;
    hide WritersBelow; hide WritersKnown; hide AttemptPayload; hide BatchDigest;
  }

  // ------------------------------------------------------------------- landings

  /** Where a thread stands between its save and its swap, if one does. */
  function FirstSaved(ts: seq<Thread>): (o: Option<nat>)
    ensures o.None? <==> NoneSaved(ts)
    ensures o.Some? ==> o.value < |ts| && ts[o.value].phase.Saved?
  {
    if ts == [] then None
    else if ts[0].phase.Saved? then Some(0)
    else
      assert forall i :: 0 < i < |ts| ==> ts[i] == ts[1..][i - 1];
      match FirstSaved(ts[1..]) case None => None case Some(i) => Some(i + 1)
  }

  /** The operation whose outcome a step makes visible: by its swap, or by a crash between its save and its swap. */
  function Landed(a: System, l: Label): (o: Option<Thread>)
    ensures o.Some? ==> exists i :: 0 <= i < |a.threads| && a.threads[i] == o.value
  {
    match l
    case Run(i, _) => if i < |a.threads| && a.threads[i].phase.Saved? then Some(a.threads[i]) else None
    case Crash(_) =>
      (match FirstSaved(a.threads) case None => None case Some(i) => Some(a.threads[i]))
    case _ => None
  }

  /** A step that lands nothing changes nothing visible but what a recovery changes; one that lands an operation shows
      what that operation saved. */
  lemma StepLands(cfg: Config, a: System, l: Label, b: System)
    requires Sized(cfg) && Inv(cfg, a) && Step(cfg, a, l, b)
    ensures var t := Landed(a, l);
            var s := if t.Some? then t.value.next else a.w.st;
            && (t.Some? ==> t.value.phase.Saved? && ThreadInv(cfg, a.w, t.value))
            && b.w.st.attempts == s.attempts && b.w.st.history == s.history
            && b.w.st.lists == if l.Crash? then RecoverLists(s.lists) else s.lists
  {
    hide ThreadInv; hide WorldInv; hide DiskInv; hide RunStep; hide StartStep; hide CrashStep; hide RecoverLists;
    hide NoneSaved;
    if l.Crash? {
      var s := CrashOutcome(cfg, a, b, l.fails);
      if !NoneSaved(a.threads) {
        var i :| 0 <= i < |a.threads| && a.threads[i].phase.Saved? && s == a.threads[i].next
                 && ThreadInv(cfg, a.w, a.threads[i]);
        assert OneHolder(a.threads);
        assert FirstSaved(a.threads) == Some(i);
      }
    } else if Landed(a, l).Some? {
      SwapLands(cfg, a, l, b);
    } else if b.w.st != a.w.st {
      VisibleAfterDurable(cfg, a, l, b);
    }
  }

  lemma SwapLands(cfg: Config, a: System, l: Label, b: System)
    requires Inv(cfg, a) && Step(cfg, a, l, b) && l.Run? && l.thread < |a.threads| && a.threads[l.thread].phase.Saved?
    ensures b.w.st == a.threads[l.thread].next && ThreadInv(cfg, a.w, a.threads[l.thread])
  {
    hide ThreadInv; hide WorldInv; hide DiskInv; hide TakesLock; hide OneHolder;
  }

  /** Over every run, crashes included: lineages are never dropped or reordered, a revision (id, generation) has one
      content and one pair of digests for ever, closed lineages stay closed with their generation, and a list becomes
      active only by a new generation. */
  lemma {:induction false} LineagesOverRuns(cfg: Config, r: Trace, j: nat, k: nat)
    requires Sized(cfg) && IsTrace(cfg, r) && j <= k < |r.states|
    ensures ListsEvolve(r.states[j].w.st.lists, r.states[k].w.st.lists)
    decreases k
  {
    hide Inv; hide Step; hide ListsEvolve;
    EvolveRefl(r.states[j].w.st.lists);
    if j < k {
      LineagesOverRuns(cfg, r, j, k - 1);
      RunsKeepInv(cfg, r, k - 1);
      StepEvolves(cfg, r.states[k - 1], r.labels[k - 1], r.states[k]);
      EvolveTrans(r.states[j].w.st.lists, r.states[k - 1].w.st.lists, r.states[k].w.st.lists);
    }
  }

  /** Between two configurations a generation moves by at most one, and only by a batch. */
  lemma OnlyBatchesRaiseGenerations(cfg: Config, a: System, l: Label, b: System, i: nat)
    requires Sized(cfg) && Inv(cfg, a) && Step(cfg, a, l, b) && !l.Crash? && i < |a.w.st.lists|
    ensures i < |b.w.st.lists|
            && a.w.st.lists[i].generation <= b.w.st.lists[i].generation <= a.w.st.lists[i].generation + 1
    ensures b.w.st.lists[i].generation != a.w.st.lists[i].generation
            || (b.w.st.lists[i].state == Active && a.w.st.lists[i].state != Active) ==>
              l.Run? && l.thread < |a.threads| && a.threads[l.thread].phase.Saved? && a.threads[l.thread].job.Mutate?
              && Open(a.w.st.lists[i].state)
  {
    hide Inv; hide ThreadInv; hide Step; hide RecordsStep; hide HistoryStep;
    if b.w.st != a.w.st {
      VisibleAfterDurable(cfg, a, l, b);
      SavedStep(cfg, a.w, a.threads[l.thread]);
      assert LineageStep(a.w.st.lists[i], b.w.st.lists[i]);
      if !a.threads[l.thread].job.Mutate? { assert Degrade(a.w.st.lists[i], b.w.st.lists[i]); }
    }
  }

  // ------------------------------------------------------------------- history

  lemma StepHistory(cfg: Config, a: System, l: Label, b: System)
    requires Sized(cfg) && Inv(cfg, a) && Step(cfg, a, l, b)
    ensures HistoryStep(cfg.limits.maxHistory, a.w.st.history, b.w.st.history)
  {
    hide Inv; hide ThreadInv; hide RunStep; hide StartStep; hide CrashStep; hide NoneSaved; hide HistoryStep;
    HistoryStays(cfg, a);
    if l.Crash? {
      var s := CrashOutcome(cfg, a, b, l.fails);
      if !NoneSaved(a.threads) {
        var i :| 0 <= i < |a.threads| && a.threads[i].phase.Saved? && s == a.threads[i].next
                 && ThreadInv(cfg, a.w, a.threads[i]);
        SavedStep(cfg, a.w, a.threads[i]);
      }
    } else if b.w.st != a.w.st {
      VisibleAfterDurable(cfg, a, l, b);
      SavedStep(cfg, a.w, a.threads[l.thread]);
    }
  }

  lemma HistoryStays(cfg: Config, a: System)
    requires Inv(cfg, a)
    ensures HistoryStep(cfg.limits.maxHistory, a.w.st.history, a.w.st.history)
  {
    HistoryRefl(cfg.limits.maxHistory, a.w.st.history);
  }

  /** Over every run the retained history is a window at the end of one log with consecutive ids, of which every
      earlier history was a part. */
  lemma {:induction false} HistoryOverRuns(cfg: Config, r: Trace, j: nat, k: nat)
    requires Sized(cfg) && IsTrace(cfg, r) && j <= k < |r.states|
    ensures HistoryStep(cfg.limits.maxHistory, r.states[j].w.st.history, r.states[k].w.st.history)
    decreases k
  {
    hide Inv; hide Step; hide HistoryStep;
    RunsKeepInv(cfg, r, j);
    HistoryStays(cfg, r.states[j]);
    if j < k {
      HistoryOverRuns(cfg, r, j, k - 1);
      RunsKeepInv(cfg, r, k - 1);
      StepHistory(cfg, r.states[k - 1], r.labels[k - 1], r.states[k]);
      HistoryTrans(cfg.limits.maxHistory, r.states[j].w.st.history, r.states[k - 1].w.st.history,
                   r.states[k].w.st.history);
    }
  }

  // ------------------------------------------------------------------ attempts

  /** A batch that was saved is new: its attempt has an id, and nothing was on record for it. */
  lemma BatchIsNew(cfg: Config, w: World, t: Thread)
    requires Sized(cfg) && ThreadInv(cfg, w, t) && t.phase.Saved? && t.job.Mutate?
    ensures t.job.caller.attempt != 0 && AttemptPayload(w.st.attempts, t.job.caller.attempt).None?
    ensures 1 <= |t.job.drafts| <= cfg.limits.maxBatchSize
  {
    hide NextOk; hide TablesCover; hide AtOk; hide IsAtomic; hide PublishersKnown; hide ListsMatch; hide TablesMatch;
    hide DraftValid; hide FindList; hide AttemptAccepted;
    AttemptNonzero(cfg, Ctx(t), t.job.shape, t.job.drafts, t.found);
  }

  /** What is on record for an attempt after the first `k` steps of a run: the payload of the last operation under it
      that landed. */
  function LastRecord(cfg: Config, r: Trace, k: nat, x: u64): Option<Digest>
    requires |r.states| == |r.labels| + 1 && k < |r.states|
  {
    if k == 0 then None
    else
      var t, before := Landed(r.states[k - 1], r.labels[k - 1]), LastRecord(cfg, r, k - 1, x);
      if t.None? then before else RecordedBy(OwnRecord(cfg, r.states[k - 1].w.st, t.value.job), x, before)
  }

  lemma StepRecord(cfg: Config, a: System, l: Label, b: System, x: u64)
    requires Sized(cfg) && Inv(cfg, a) && Step(cfg, a, l, b)
    ensures var t, before := Landed(a, l), AttemptPayload(a.w.st.attempts, x);
            AttemptPayload(b.w.st.attempts, x)
            == if t.None? then before else RecordedBy(OwnRecord(cfg, a.w.st, t.value.job), x, before)
  {
    hide Inv; hide ThreadInv; hide Step; hide Landed; hide AttemptPayload; hide RecordedBy; hide OwnRecord;
    StepLands(cfg, a, l, b);
    if Landed(a, l).Some? { SavedRecord(cfg, a.w, Landed(a, l).value); }
  }

  /** Over every run, crashes included, the attempt table holds for every attempt the payload of the last operation
      under it that landed, and nothing when none did: no record is ever evicted, lost in a crash or made up. */
  lemma {:induction false} RecordIsLastLanded(cfg: Config, r: Trace, k: nat, x: u64)
    requires Sized(cfg) && IsTrace(cfg, r) && k < |r.states|
    ensures AttemptPayload(r.states[k].w.st.attempts, x) == LastRecord(cfg, r, k, x)
  {
    hide Inv; hide Step; hide Landed; hide RecordedBy; hide OwnRecord;
    if k > 0 {
      RecordIsLastLanded(cfg, r, k - 1, x);
      RunsKeepInv(cfg, r, k - 1);
      StepRecord(cfg, r.states[k - 1], r.labels[k - 1], r.states[k], x);
    }
  }

  /** The step lands an administrative event under the attempt. */
  predicate AdminLands(a: System, l: Label, x: u64) {
    var t := Landed(a, l); t.Some? && t.value.job.Administer? && t.value.job.caller.attempt == x
  }

  lemma StepAttempts(cfg: Config, a: System, l: Label, b: System, x: u64)
    requires Sized(cfg) && Inv(cfg, a) && Step(cfg, a, l, b) && AttemptPayload(a.w.st.attempts, x).Some?
    ensures AttemptPayload(b.w.st.attempts, x).Some?
    ensures !AdminLands(a, l, x) ==> AttemptPayload(b.w.st.attempts, x) == AttemptPayload(a.w.st.attempts, x)
    ensures AdminLands(a, l, x) && x != 0 ==>
              var event := Landed(a, l).value.job;
              AttemptPayload(b.w.st.attempts, x) == Some(AdminPayload(cfg, a.w.st.lists, event.list, event.expected))
  {
    hide Inv; hide ThreadInv; hide Step; hide Landed; hide AttemptPayload; hide BatchDigest; hide AdminPayload;
    StepRecord(cfg, a, l, b, x);
    StepLands(cfg, a, l, b);
    if Landed(a, l).Some? && Landed(a, l).value.job.Mutate? { BatchIsNew(cfg, a.w, Landed(a, l).value); }
  }

  /** Over every run, crashes included, no attempt is ever forgotten, and short of an administrative event that lands
      under the same attempt its payload stays on record. */
  lemma {:induction false} AttemptsOverRuns(cfg: Config, r: Trace, j: nat, k: nat, x: u64)
    requires Sized(cfg) && IsTrace(cfg, r) && j <= k < |r.states|
    requires AttemptPayload(r.states[j].w.st.attempts, x).Some?
    ensures AttemptPayload(r.states[k].w.st.attempts, x).Some?
    ensures (forall n :: j <= n < k ==> !AdminLands(r.states[n], r.labels[n], x)) ==>
              AttemptPayload(r.states[k].w.st.attempts, x) == AttemptPayload(r.states[j].w.st.attempts, x)
    decreases k
  {
    hide Inv; hide Step; hide AttemptPayload; hide AdminLands;
    if j < k {
      AttemptsOverRuns(cfg, r, j, k - 1, x);
      RunsKeepInv(cfg, r, k - 1);
      StepAttempts(cfg, r.states[k - 1], r.labels[k - 1], r.states[k], x);
    }
  }

  /** The tables never outgrow their bounds. */
  lemma BoundsOverRuns(cfg: Config, r: Trace, k: nat)
    requires Sized(cfg) && IsTrace(cfg, r) && k < |r.states|
    ensures |r.states[k].w.st.lists| <= cfg.limits.maxLists
    ensures |r.states[k].w.st.attempts| <= cfg.limits.maxAttempts
    ensures |r.states[k].w.st.history| <= cfg.limits.maxHistory
    ensures UniqueIds(r.states[k].w.st.lists) && ActiveIsCurrent(r.states[k].w.st.lists)
  {
    hide ThreadInv; hide DiskInv; hide Step;
    RunsKeepInv(cfg, r, k);
  }

  /** The step by which thread `i` makes the batch it carries visible. */
  ghost predicate BatchCommits(r: Trace, k: nat, i: nat) {
    k < |r.labels| && k < |r.states| && r.labels[k].Run? && r.labels[k].thread == i && i < |r.states[k].threads|
    && r.states[k].threads[i].phase.Saved? && r.states[k].threads[i].job.Mutate?
  }

  /** The last of the steps from `j` on and before `m` that landed an administrative event under the attempt. */
  function LastAdmin(r: Trace, j: nat, m: nat, x: u64): (last: Option<nat>)
    requires j <= m <= |r.labels| <= |r.states|
    ensures last.Some? ==> j <= last.value < m && AdminLands(r.states[last.value], r.labels[last.value], x)
    decreases m
  {
    if m == j then None
    else if AdminLands(r.states[m - 1], r.labels[m - 1], x) then Some(m - 1)
    else LastAdmin(r, j, m - 1, x)
  }

  /** What is on record for the attempt of a batch that committed in step `k`, `m` steps into the run: the digest of its
      drafts, until an administrative event lands under the same attempt; and then the payload of the last such
      event. */
  function BatchRecord(cfg: Config, r: Trace, k: nat, i: nat, m: nat): Digest
    requires BatchCommits(r, k, i) && k < m <= |r.labels| <= |r.states|
  {
    var done := r.states[k].threads[i].job;
    match LastAdmin(r, k + 1, m, done.caller.attempt)
    case None => BatchDigest(cfg.digest, done.drafts)
    case Some(n) =>
      var event := Landed(r.states[n], r.labels[n]).value.job;
      AdminPayload(cfg, r.states[n].w.st.lists, event.list, event.expected)
  }

  lemma {:induction false} CommittedRecord(cfg: Config, r: Trace, k: nat, i: nat, m: nat)
    requires Sized(cfg) && IsTrace(cfg, r) && BatchCommits(r, k, i) && k < m < |r.states|
    ensures r.states[k].threads[i].job.caller.attempt != 0
    ensures AttemptPayload(r.states[m].w.st.attempts, r.states[k].threads[i].job.caller.attempt)
            == Some(BatchRecord(cfg, r, k, i, m))
    decreases m
  {
    hide Inv; hide ThreadInv; hide Step; hide BatchDigest; hide AttemptPayload; hide Landed; hide AdminPayload;
    CommitVisible(cfg, r, k, i);
    BatchIsNew(cfg, r.states[k].w, r.states[k].threads[i]);
    if m > k + 1 {
      CommittedRecord(cfg, r, k, i, m - 1);
      RunsKeepInv(cfg, r, m - 1);
      StepAttempts(cfg, r.states[m - 1], r.labels[m - 1], r.states[m], r.states[k].threads[i].job.caller.attempt);
    }
  }

  /** Replay is exact.  In every configuration after a batch committed, whatever happened in between, crashes and
      administrative events under its attempt included, submitting the attempt again ends at once without touching
      anything: as a replay when the digest of the drafts is the one on record, as a mismatch when it is not. */
  lemma ReplayIsExact(cfg: Config, r: Trace, k: nat, i: nat, m: nat, again: Thread, fails: bool)
    requires Sized(cfg) && IsTrace(cfg, r) && BatchCommits(r, k, i) && k < m < |r.states|
    requires again.phase.Observed? && again.job.Mutate?
    requires again.job.caller.attempt == r.states[k].threads[i].job.caller.attempt
    ensures var verdict := if BatchDigest(cfg.digest, again.job.drafts) == BatchRecord(cfg, r, k, i, m)
                           then Replayed else Mismatched;
            Act(cfg, r.states[m].w, again, fails) == Move(r.states[m].w, Done(again, verdict))
  {
    hide Inv; hide ThreadInv; hide Step; hide BatchDigest; hide BatchRecord;
    CommittedRecord(cfg, r, k, i, m);
  }

  /** The digest of a batch is the digest of no administrative event by accident. */
  ghost predicate NoCollision(dg: DigestFn, ds: seq<Draft>) {
    forall event: Draft :: dg(DraftBytes(event)) == BatchDigest(dg, ds) ==> DraftBytes(event) == DigestWords(dg, ds)
  }

  /** Short of a collision, submitting the very drafts again is a replay if and only if no administrative event landed
      under the attempt since the batch committed; an event that was refused, or whose save failed, does no harm. */
  lemma ReplayedExactly(cfg: Config, r: Trace, k: nat, i: nat, m: nat, again: Thread, fails: bool)
    requires Sized(cfg) && IsTrace(cfg, r) && BatchCommits(r, k, i) && k < m < |r.states|
    requires again.phase.Observed? && again.job.Mutate? && again.job.drafts == r.states[k].threads[i].job.drafts
    requires again.job.caller.attempt == r.states[k].threads[i].job.caller.attempt
    requires NoCollision(cfg.digest, again.job.drafts)
    ensures var outcome := Act(cfg, r.states[m].w, again, fails);
            && (outcome.t.verdict == Replayed <==>
                  forall n :: k < n < m ==> !AdminLands(r.states[n], r.labels[n], again.job.caller.attempt))
            && (outcome.t.verdict == Replayed || outcome.t.verdict == Mismatched) && outcome.w == r.states[m].w
  {
    hide Inv; hide ThreadInv; hide Step; hide DraftBytes; hide DigestWords; hide Act; hide AdminLands; hide Landed;
    ReplayIsExact(cfg, r, k, i, m, again, fails);
    var x := again.job.caller.attempt;
    NoAdminLanded(r, k + 1, m, x);
    var last := LastAdmin(r, k + 1, m, x);
    if last.Some? {
      EventNamed(r.states[last.value], r.labels[last.value], x);
      var event, ls := Landed(r.states[last.value], r.labels[last.value]).value.job, r.states[last.value].w.st.lists;
      var found := FindList(ls, event.list);
      PayloadsDiffer(cfg.digest, TransitionDraft(event.list, if found.Some? then found.value.content.scope else 0,
                                                 event.expected), again.job.drafts);
    }
  }

  lemma EventNamed(a: System, l: Label, x: u64)
    requires AdminLands(a, l, x)
    ensures Landed(a, l).Some? && Landed(a, l).value.job.Administer?
  {}

  lemma {:induction false} NoAdminLanded(r: Trace, j: nat, m: nat, x: u64)
    requires j <= m <= |r.labels| <= |r.states|
    ensures LastAdmin(r, j, m, x).None? <==> forall n :: j <= n < m ==> !AdminLands(r.states[n], r.labels[n], x)
    decreases m
  {
    hide AdminLands;
    if j < m { NoAdminLanded(r, j, m - 1, x); }
  }

  /** A resubmission of committed drafts is never turned away for the size of the batch; what can still turn it away
      before the attempt table is looked at is evidence beyond the record limit, and nothing else. */
  lemma ResubmissionReachesTheRecord(cfg: Config, r: Trace, k: nat, i: nat, w: World, again: Thread)
    requires Sized(cfg) && IsTrace(cfg, r) && BatchCommits(r, k, i)
    requires again.job.Mutate? && again.job.drafts == r.states[k].threads[i].job.drafts
    ensures Begin(cfg, w, again).phase.Marked?
    ensures Observe(cfg, w, again.(phase := Marked)).phase.Observed? <==>
            w.src.evidence.RecordCount() <= cfg.limits.maxEvidenceRecords
  {
    hide Inv; hide ThreadInv; hide Step;
    CommitVisible(cfg, r, k, i);
    BatchIsNew(cfg, r.states[k].w, r.states[k].threads[i]);
  }

  lemma CommitVisible(cfg: Config, r: Trace, k: nat, i: nat)
    requires Sized(cfg) && IsTrace(cfg, r) && BatchCommits(r, k, i)
    ensures ThreadInv(cfg, r.states[k].w, r.states[k].threads[i])
    ensures r.states[k + 1].w.st == r.states[k].threads[i].next
    ensures var t := r.states[k].threads[i];
            AttemptPayload(r.states[k + 1].w.st.attempts, t.job.caller.attempt)
            == Some(BatchDigest(cfg.digest, t.job.drafts))
  {
    hide ThreadInv; hide WorldInv; hide DiskInv; hide AttemptPayload; hide BatchDigest; hide TakesLock; hide Act;
    hide RecordsStep; hide ListsStep; hide HistoryStep; hide IsAtomic; hide AtOk; hide Valid; hide Degraded;
    RunsKeepInv(cfg, r, k);
    assert Step(cfg, r.states[k], r.labels[k], r.states[k + 1]);
    SwapResult(cfg, r.states[k].w, r.states[k].threads[i], r.labels[k].fails);
    SavedStep(cfg, r.states[k].w, r.states[k].threads[i]);
  }

  lemma SwapResult(cfg: Config, w: World, t: Thread, fails: bool)
    requires t.phase.Saved?
    ensures Act(cfg, w, t, fails).w.st == t.next
  {}

  lemma JobStays(cfg: Config, w: World, t: Thread, fails: bool)
    ensures Act(cfg, w, t, fails).t.job == t.job
  {
    hide Outgoing; hide PrepareAll; hide TransitionValid; hide AttemptAccepted; hide AttemptPosition; hide FindList;
    hide RefreshOne; hide BatchDigest; hide FindProfile; hide FindPolicy; hide StampPart;
    if t.phase.Stamping? { StampJob(w, t, t.phase.part); }
  }

  lemma StampJob(w: World, t: Thread, part: nat)
    ensures StampPart(w, t, part).job == t.job
  {}

  // ------------------------------------------------------------------ atomicity

  lemma AtComesFromCheck(cfg: Config, w: World, t: Thread, fails: bool)
    requires !t.phase.Idle? && Mutation(t) && ThreadInv(cfg, w, t) && Rank(Act(cfg, w, t, fails).t.phase) >= 12
    ensures var u := Act(cfg, w, t, fails).t;
            (t.phase.Relocked? && u.at == w) || (Rank(t.phase) >= 12 && u.at == t.at)
  {
    hide Outgoing; hide PrepareAll; hide TransitionValid; hide AttemptAccepted; hide AttemptPosition; hide FindList;
    hide BatchDigest; hide FindProfile; hide FindPolicy; hide Gathered; hide NextOk; hide TablesCover; hide SweepOk;
  }

  /** The world a thread remembers is one the run went through, with the lock in the thread's hands. */
  lemma {:induction false} AtWasVisited(cfg: Config, r: Trace, k: nat, i: nat) returns (j: nat)
    requires Sized(cfg) && IsTrace(cfg, r) && k < |r.states| && i < |r.states[k].threads|
    requires Mutation(r.states[k].threads[i]) && Rank(r.states[k].threads[i].phase) >= 12
    ensures j < k && r.states[j].w == r.states[k].threads[i].at
    ensures i < |r.states[j].threads| && r.states[j].threads[i].phase.Relocked?
  {
    hide Inv; hide Act; hide ThreadInv;
    var b := r.states[k];
    assert k > 0;
    var a, l := r.states[k - 1], r.labels[k - 1];
    assert Step(cfg, a, l, b);
    if l.Run? && l.thread == i {
      JobStays(cfg, a.w, a.threads[i], l.fails);
      RunsKeepInv(cfg, r, k - 1);
      InvThread(cfg, a, i);
      AtComesFromCheck(cfg, a.w, a.threads[i], l.fails);
      if a.threads[i].phase.Relocked? && b.threads[i].at == a.w { return k - 1; }
    }
    assert i < |a.threads| && Rank(a.threads[i].phase) >= 12;
    j := AtWasVisited(cfg, r, k - 1, i);
  }

  lemma InvThread(cfg: Config, a: System, i: nat)
    requires Inv(cfg, a) && i < |a.threads|
    ensures ThreadInv(cfg, a.w, a.threads[i])
  {
    hide ThreadInv; hide WorldInv; hide DiskInv;
  }

  /** Two-phase commit refines an atomic one.  Whenever a batch commits, under any interleaving, the run went through a
      configuration, with the lock held, whose lists were still the ones replaced, and in which resolving, validating
      and applying the batch in a single step gives exactly the committed state up to the copied tables.  What is not
      from that instant is the publisher table and the fences, which are those of the capture. */
  lemma CommitIsAtomic(cfg: Config, r: Trace, k: nat, i: nat) returns (j: nat)
    requires Sized(cfg) && IsTrace(cfg, r) && BatchCommits(r, k, i)
    ensures j < k && r.states[j].w.st == r.states[k].w.st
    ensures i < |r.states[j].threads| && r.states[j].threads[i].phase.Relocked?
    ensures var t, w := r.states[k].threads[i], r.states[j].w;
            var s := AtomicBatch(cfg, w, t.job.caller, t.job.shape, t.job.drafts, t.authority.publishers,
                                 t.authority.fencedBoots);
            && s.Some? && SameUpToTables(r.states[k + 1].w.st, s.value)
            && r.states[k + 1].w.st.epoch == w.auth.epoch
  {
    hide Inv; hide ThreadInv; hide Step; hide AtomicBatch; hide AttemptPayload; hide BatchDigest; hide RecordsStep;
    hide ListsStep; hide HistoryStep; hide Valid; hide TablesMatch;
    CommitVisible(cfg, r, k, i);
    j := AtWasVisited(cfg, r, k, i);
    SavedStep(cfg, r.states[k].w, r.states[k].threads[i]);
  }

  /** A committed batch applied every draft: the last draft that names an id is, at once after the commit, the revision
      of that id, or that revision already superseded by another draft of the batch. */
  lemma CommitAppliesEveryDraft(cfg: Config, r: Trace, k: nat, i: nat, q: nat)
    requires Sized(cfg) && IsTrace(cfg, r) && BatchCommits(r, k, i)
    requires var ds := r.states[k].threads[i].job.drafts;
             q < |ds| && forall p :: q < p < |ds| ==> ds[p].id != ds[q].id
    ensures var t := r.states[k].threads[i];
            |t.found| == |t.job.drafts|
            && (t.found[q].existing.Some? ==> t.found[q].existing.value.generation < U64_MAX)
            && var z := FindList(r.states[k + 1].w.st.lists, t.job.drafts[q].id);
               z.Some? && Became(MakeList(cfg, Ctx(t), t.job.drafts[q], t.found[q]), z.value)
  {
    hide Inv; hide ThreadInv; hide Step; hide AttemptPayload; hide BatchDigest; hide RecordsStep;
    hide ListsStep; hide HistoryStep; hide TablesMatch; hide DraftValid; hide BatchState; hide Became; hide MakeList;
    hide FindList; hide Resolve; hide SeenEvidence; hide Moves;
    CommitVisible(cfg, r, k, i);
    var w, t := r.states[k].w, r.states[k].threads[i];
    SavedStep(cfg, w, t);
    SavedContext(cfg, w, t);
    GoodNow(cfg, r, k);
    BatchInstalls(cfg, Ctx(t), t.job.shape, t.job.drafts, t.found, w.st, BatchDigest(cfg.digest, t.job.drafts), q);
  }

  lemma GoodNow(cfg: Config, r: Trace, k: nat)
    requires Sized(cfg) && IsTrace(cfg, r) && k < |r.states|
    ensures StateGood(cfg, r.states[k].w.st)
  {
    hide ThreadInv; hide DiskInv; hide Step; hide StateGood;
    RunsKeepInv(cfg, r, k);
  }

  /** What a saved batch was computed from. */
  lemma SavedContext(cfg: Config, w: World, t: Thread)
    requires ThreadInv(cfg, w, t) && t.phase.Saved? && t.job.Mutate?
    ensures t.at.st == w.st && Valid(cfg, t) && ResolvedIn(w.st.lists, t.job.drafts, t.found)
    ensures AttemptAccepted(cfg.limits, w.st.attempts, t.job.caller.attempt) && StoreShape(t.job.shape)
    ensures var pms := PrepareAll(cfg, Ctx(t), t.job.shape, t.job.drafts, t.found).value;
            var s := BatchState(cfg, w.st, pms, t.job.caller.attempt, BatchDigest(cfg.digest, t.job.drafts));
            s.Some? && t.next.lists == s.value.lists
  {
    hide NextOk; hide TablesCover; hide BatchState; hide PrepareAll; hide BatchDigest; hide PublishersKnown;
    hide FindList; hide AttemptAccepted; hide AttemptPosition; hide CaptureOk; hide Resolve;
    SavedCapture(cfg, w, t);
    DraftsResolved(cfg, w, t);
  }

  lemma SavedCapture(cfg: Config, w: World, t: Thread)
    requires ThreadInv(cfg, w, t) && t.phase.Saved? && t.job.Mutate?
    ensures CaptureOk(cfg, w, t) && t.storeRevision == w.st.revision && AtOk(w, t) && Valid(cfg, t) && IsAtomic(cfg, t)
  {
    hide NextOk; hide TablesCover; hide CaptureOk; hide AtOk; hide IsAtomic; hide Valid; hide PublishersKnown;
  }

  // -------------------------------------------------------------------- fencing

  /** The boot is fenced and the thread working for it can no longer pass validation. */
  ghost predicate Doomed(w: World, t: Thread, boot: u64) {
    && boot in w.auth.fencedBoots
    && (|| (t.phase.Idle? && t.verdict != Committed)
        || (Mutation(t) && t.job.caller.boot == boot && 1 <= Rank(t.phase) <= 6)
        || (Mutation(t) && t.job.caller.boot == boot && 7 <= Rank(t.phase) <= 9 && boot in t.authority.fencedBoots))
  }

  lemma DoomedValidation(cfg: Config, w: World, t: Thread)
    requires Sized(cfg) && ThreadInv(cfg, w, t) && Mutation(t) && t.phase.Captured?
    requires t.job.caller.boot in t.authority.fencedBoots
    ensures Validate(cfg, t) == Done(t, Refused)
  {
    hide CaptureOk; hide PublishersKnown; hide NextOk; hide TablesCover; hide SweepOk; hide DraftValid;
    hide TransitionValid;
    match t.job
    case Mutate(_, shape, ds) =>
      if |t.found| == |ds| && PrepareAll(cfg, Ctx(t), shape, ds, t.found).Some? {
        AcceptedCaller(cfg, Ctx(t), shape, ds[0], t.found[0]);
        assert false;
      }
    case Administer(_, _, expected, event) =>
      if t.found != [] && t.found[0].existing.Some?
         && TransitionValid(cfg, Ctx(t), t.found[0].existing.value, expected, event)
      {
        AdminCaller(cfg, Ctx(t), t.found[0].existing.value, expected, event);
        assert false;
      }
  }

  lemma NotRefreshing(cfg: Config, w: World, t: Thread)
    requires ThreadInv(cfg, w, t) && Mutation(t) && !t.phase.Idle?
    ensures !t.phase.Dated? && !t.phase.Sweeping?
  {
    hide Gathered; hide NextOk; hide TablesCover; hide SweepOk;
  }

  lemma DoomedAct(cfg: Config, w: World, t: Thread, boot: u64, fails: bool)
    requires Sized(cfg) && ThreadInv(cfg, w, t) && Doomed(w, t, boot) && !t.phase.Idle?
    ensures Act(cfg, w, t, fails).w == w && Doomed(w, Act(cfg, w, t, fails).t, boot)
  {
    hide ThreadInv; hide Outgoing; hide PrepareAll; hide TransitionValid; hide AttemptAccepted; hide AttemptPosition;
    hide FindList; hide BatchDigest; hide FindProfile; hide FindPolicy; hide RefreshOne;
    NotRefreshing(cfg, w, t);
    if t.phase.Captured? { DoomedValidation(cfg, w, t); }
  }

  lemma DoomedStep(cfg: Config, a: System, l: Label, b: System, i: nat, boot: u64)
    requires Sized(cfg) && Inv(cfg, a) && Step(cfg, a, l, b) && !l.Crash? && !(l.Start? && l.thread == i)
    requires i < |a.threads| && Doomed(a.w, a.threads[i], boot)
    ensures i < |b.threads| && Doomed(b.w, b.threads[i], boot)
  {
    hide ThreadInv; hide WorldInv; hide DiskInv; hide Act; hide TakesLock; hide OneHolder;
    if l.Run? {
      var t := a.threads[l.thread];
      if l.thread == i {
        DoomedAct(cfg, a.w, t, boot, l.fails);
      } else {
        AuthorityUntouched(cfg, a.w, t, l.fails);
      }
    }
  }

  lemma AuthorityUntouched(cfg: Config, w: World, t: Thread, fails: bool)
    ensures Act(cfg, w, t, fails).w.auth == w.auth
  {
    hide Begin; hide Observe; hide Enter; hide StartResolving; hide ResolveNext; hide Validate; hide Relock;
    hide CheckRegistry; hide CheckEpoch; hide CheckMark; hide Sweep; hide StampPart;
  }

  /** Between two points of a run the thread is neither restarted nor killed. */
  ghost predicate SameOperation(r: Trace, j: nat, k: nat, i: nat) {
    forall n :: j <= n < k && n < |r.labels| ==> !r.labels[n].Crash? && !(r.labels[n].Start? && r.labels[n].thread == i)
  }

  /** A mutation whose boot was fenced before its capture read the fences never commits. */
  lemma {:induction false} FencedBeforeCaptureNeverCommits(cfg: Config, r: Trace, j: nat, k: nat, i: nat)
    requires Sized(cfg) && IsTrace(cfg, r) && j <= k < |r.states| && SameOperation(r, j, k, i)
    requires i < |r.states[j].threads| && Mutation(r.states[j].threads[i])
    requires 1 <= Rank(r.states[j].threads[i].phase) <= 6
    requires r.states[j].threads[i].job.caller.boot in r.states[j].w.auth.fencedBoots
    ensures i < |r.states[k].threads|
    ensures Doomed(r.states[k].w, r.states[k].threads[i], r.states[j].threads[i].job.caller.boot)
    ensures !r.states[k].threads[i].phase.Saved?
    ensures r.states[k].threads[i].phase.Idle? ==> r.states[k].threads[i].verdict != Committed
    decreases k
  {
    hide Inv; hide Step;
    if j < k {
      FencedBeforeCaptureNeverCommits(cfg, r, j, k - 1, i);
      RunsKeepInv(cfg, r, k - 1);
      assert Step(cfg, r.states[k - 1], r.labels[k - 1], r.states[k]);
      DoomedStep(cfg, r.states[k - 1], r.labels[k - 1], r.states[k], i, r.states[j].threads[i].job.caller.boot);
    }
  }

  lemma StepMovesAuthority(cfg: Config, a: System, l: Label, b: System)
    requires Step(cfg, a, l, b) && !l.Crash?
    ensures AuthMoves(a.w.auth, b.w.auth)
  {
    hide Act; hide TakesLock; hide LockFree;
    if l.Run? { AuthorityUntouched(cfg, a.w, a.threads[l.thread], l.fails); }
  }

  /** Between two restarts fences are never lifted, the epoch never goes down, publishers keep their boots, and one that
      was fenced stays fenced and is never alive again. */
  lemma {:induction false} FencesOverRuns(cfg: Config, r: Trace, j: nat, k: nat)
    requires Sized(cfg) && IsTrace(cfg, r) && j <= k < |r.states|
    requires forall n :: j <= n < k ==> !r.labels[n].Crash?
    ensures AuthMoves(r.states[j].w.auth, r.states[k].w.auth) && AuthGood(r.states[k].w.auth)
    ensures forall p, q :: p in r.states[j].w.auth.publishers && q in r.states[k].w.auth.publishers ==>
              q.id == p.id && p.fenced ==>
                q.boot == p.boot && q.fenced && !q.alive && q.boot in r.states[k].w.auth.fencedBoots
    decreases k
  {
    hide Step; hide ThreadInv; hide DiskInv; hide AuthGood; hide AuthMoves; hide Recoverable;
    RunsKeepInv(cfg, r, k);
    if j < k {
      FencesOverRuns(cfg, r, j, k - 1);
      StepMovesAuthority(cfg, r.states[k - 1], r.labels[k - 1], r.states[k]);
      AuthMovesTrans(r.states[j].w.auth, r.states[k - 1].w.auth, r.states[k].w.auth);
    } else {
      AuthMovesRefl(r.states[j].w.auth);
    }
    var a, b := r.states[j].w.auth, r.states[k].w.auth;
    forall p, q | p in a.publishers && q in b.publishers && q.id == p.id && p.fenced
      ensures q.boot == p.boot && q.fenced && !q.alive && q.boot in b.fencedBoots
    {
      FencedPublisherNeverReturns(a, b, p, q);
    }
  }

  lemma AuthMovesRefl(a: Authority)
    ensures AuthMoves(a, a)
  {}

  /** After the capture the fences are never looked at again: whatever the publisher table and the fences become, each
      later step of the commit goes the same way and leads to the same state up to the copied tables. */
  lemma CommitIgnoresFences(cfg: Config, w: World, v: World, t: Thread, fails: bool)
    requires v == w.(auth := v.auth) && v.auth.epoch == w.auth.epoch && Mutation(t) && Rank(t.phase) >= 9
    requires !t.phase.Sweeping?
    ensures var x, y := Act(cfg, w, t, fails).t, Act(cfg, v, t, fails).t;
            x.phase == y.phase && x.verdict == y.verdict && SameUpToTables(x.next, y.next)
  {
    hide Outgoing; hide PrepareAll; hide TransitionValid; hide RefreshOne;
  }

  // --------------------------------------------------------------------- crashes

  /** After a crash at any point the store either refuses to start or has every acknowledged revision, with the same id,
      generation, content and digests, except that one commit that had been saved but not acknowledged may have come
      on top; nothing is active; the new epoch is above the epoch of every writer on record; and every one of them is
      fenced. */
  lemma RecoveryAfterCrash(cfg: Config, a: System, b: System, fails: bool)
    requires Sized(cfg) && Inv(cfg, a) && CrashStep(a, b, fails)
    ensures ListsEvolve(a.w.st.lists, b.w.st.lists)
    ensures NoneSaved(a.threads) ==>
              && |b.w.st.lists| == |a.w.st.lists| && b.w.st.attempts == a.w.st.attempts
              && b.w.st.history == a.w.st.history
              && forall i :: 0 <= i < |a.w.st.lists| ==> SameRevision(a.w.st.lists[i], b.w.st.lists[i])
    ensures !NoneSaved(a.threads) ==>
              exists i :: 0 <= i < |a.threads| && a.threads[i].phase.Saved?
                          && b.w.st.lists == RecoverLists(a.threads[i].next.lists)
                          && ListsStep(a.w.st.lists, a.threads[i].next.lists)
    ensures forall i :: 0 <= i < |b.w.st.lists| ==>
              && b.w.st.lists[i].state != Active && b.w.st.lists[i].authority.epoch < b.w.auth.epoch
              && b.w.st.lists[i].authority.boot in b.w.auth.fencedBoots
    ensures forall p :: p in b.w.auth.publishers ==> !p.alive && p.fenced
  {
    hide Inv; hide ThreadInv; hide CrashStep; hide ListsEvolve; hide NoneSaved; hide RecordsStep; hide HistoryStep;
    StepEvolves(cfg, a, Crash(fails), b);
    var s := CrashOutcome(cfg, a, b, fails);
    if NoneSaved(a.threads) {
      forall i | 0 <= i < |a.w.st.lists| ensures SameRevision(a.w.st.lists[i], b.w.st.lists[i]) {
        RecoverIsClosedStep(a.w.st.lists[i]);
      }
    } else {
      var i :| 0 <= i < |a.threads| && a.threads[i].phase.Saved? && s == a.threads[i].next
               && ThreadInv(cfg, a.w, a.threads[i]);
      SavedStep(cfg, a.w, a.threads[i]);
    }
    RecoveredWriters(cfg, a, b, fails);
  }

  lemma RecoveredWriters(cfg: Config, a: System, b: System, fails: bool)
    requires Inv(cfg, a) && CrashStep(a, b, fails)
    ensures forall i :: 0 <= i < |b.w.st.lists| ==>
              && b.w.st.lists[i].state != Active && b.w.st.lists[i].authority.epoch < b.w.auth.epoch
              && b.w.st.lists[i].authority.boot in b.w.auth.fencedBoots
    ensures forall p :: p in b.w.auth.publishers ==> !p.alive && p.fenced
  {
    hide ThreadInv; hide WorldInv; hide OneHolder; hide RestorePublishers; hide RestoreBoots; hide AddBoots;
    hide RestoreProfiles; hide RestorePolicies; hide KnowsBoot; hide StateGood; hide AllIdle; hide NoneSaved;
    hide Twins;
    if a.w.disk.Some? {
      var image := a.w.disk.value;
      RestartFences(image);
      forall i | 0 <= i < |image.lists|
        ensures RecoverList(image.lists[i]).state != Active
        ensures RecoverList(image.lists[i]).authority.epoch < b.w.auth.epoch
        ensures RecoverList(image.lists[i]).authority.boot in b.w.auth.fencedBoots
      {
        RecoverIsClosedStep(image.lists[i]);
        assert KnowsBoot(image.publishers, image.fencedBoots, image.lists[i].authority.boot);
      }
    }
  }
}
