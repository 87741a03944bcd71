/** Which registries and authority table a commit carries into the durable state: each copy is the table of one moment
    of that very operation. */
module SrfProtocolTables {
  import opened SrfTypes
  import opened SrfStoreModel
  import opened SrfProtocol
  import opened SrfProtocolInv
  import opened SrfProtocolRuns
  import opened SrfProtocolTheorems

  /** Thread `i` was at work all the time from configuration `j` to configuration `k`. */
  ghost predicate Busy(r: Trace, i: nat, j: nat, k: nat) {
    j <= k < |r.states|
    && forall m :: j <= m <= k ==> i < |r.states[m].threads| && !r.states[m].threads[i].phase.Idle?
  }

  /** The four tables of a state, and those in use. */
  ghost predicate SameTable(s: DurableState, w: World, table: nat) {
    match table
    case 0 => s.profiles == w.reg.profiles
    case 1 => s.policies == w.reg.policies
    case 2 => s.publishers == w.auth.publishers
    case 3 => s.fencedBoots == w.auth.fencedBoots
    case _ => true
  }

  /** The table is a copy of the one in use at some moment of the operation that thread `i` is at work on. */
  ghost predicate Copied(r: Trace, i: nat, k: nat, s: DurableState, table: nat) {
    exists j: nat :: Busy(r, i, j, k) && SameTable(s, r.states[j].w, table)
  }

  ghost predicate CopiedBelow(r: Trace, i: nat, k: nat, s: DurableState, part: nat) {
    forall q :: 0 <= q < part && q < 4 ==> Copied(r, i, k, s, q)
  }

  lemma StaysCopied(r: Trace, i: nat, k: nat, s: DurableState, t: DurableState, q: nat)
    requires 0 < k < |r.states| && i < |r.states[k].threads| && !r.states[k].threads[i].phase.Idle?
    requires Copied(r, i, k - 1, s, q)
    requires t.profiles == s.profiles || q != 0
    requires t.policies == s.policies || q != 1
    requires t.publishers == s.publishers || q != 2
    requires t.fencedBoots == s.fencedBoots || q != 3
    ensures Copied(r, i, k, t, q)
  {
    var j: nat :| Busy(r, i, j, k - 1) && SameTable(s, r.states[j].w, q);
    assert Busy(r, i, j, k) && SameTable(t, r.states[j].w, q);
  }

  lemma CopiedNow(r: Trace, i: nat, k: nat, t: DurableState, q: nat)
    requires 0 < k < |r.states| && i < |r.states[k - 1].threads| && i < |r.states[k].threads|
    requires !r.states[k - 1].threads[i].phase.Idle? && !r.states[k].threads[i].phase.Idle?
    requires SameTable(t, r.states[k - 1].w, q)
    ensures Copied(r, i, k, t, q)
  {
    assert Busy(r, i, k - 1, k);
  }

  /** How many tables a thread has copied. */
  function Parts(p: Phase): nat { match p case Stamping(n) => n case Saved => 4 case _ => 0 }

  /** What one step does to the tables of the outgoing state: it copies at most the next one. */
  lemma ActCopies(cfg: Config, w: World, t: Thread, fails: bool)
    requires PhaseFits(t) && !t.job.Refresh? && !t.phase.Idle?
    ensures var u := Act(cfg, w, t, fails).t;
            && u.job == t.job
            && (Parts(u.phase) > 0 ==> Parts(t.phase) <= 4 && Parts(u.phase) <= Parts(t.phase) + 1)
            && (Parts(u.phase) == Parts(t.phase) + 1 ==> SameTable(u.next, w, Parts(t.phase)))
            && (Parts(u.phase) > 0 ==>
                  && (u.next.profiles == t.next.profiles || Parts(t.phase) == 0)
                  && (u.next.policies == t.next.policies || Parts(t.phase) <= 1)
                  && (u.next.publishers == t.next.publishers || Parts(t.phase) <= 2)
                  && (u.next.fencedBoots == t.next.fencedBoots || Parts(t.phase) <= 3))
  {
    hide Outgoing; hide PrepareAll; hide TransitionValid; hide BatchDigest; hide AttemptPosition; hide AttemptAccepted;
    hide FindList; hide FindProfile; hide FindPolicy; hide RefreshOne;
  }

  lemma StepCopies(cfg: Config, r: Trace, k: nat, i: nat)
    requires 0 < k < |r.states| && k <= |r.labels| && Inv(cfg, r.states[k - 1])
    requires r.labels[k - 1].Run? && r.labels[k - 1].thread == i
    requires RunStep(cfg, r.states[k - 1], r.states[k], i, r.labels[k - 1].fails)
    requires !r.states[k - 1].threads[i].job.Refresh? && Parts(r.states[k].threads[i].phase) > 0
    requires CopiedBelow(r, i, k - 1, r.states[k - 1].threads[i].next, Parts(r.states[k - 1].threads[i].phase))
    ensures CopiedBelow(r, i, k, r.states[k].threads[i].next, Parts(r.states[k].threads[i].phase))
  {
    hide ThreadInv; hide WorldInv; hide DiskInv; hide OneHolder; hide TakesLock; hide Act; hide Copied; hide SameTable;
    var a, t, u := r.states[k - 1], r.states[k - 1].threads[i], r.states[k].threads[i];
    PhaseFitsNow(cfg, a.w, t);
    ActCopies(cfg, a.w, t, r.labels[k - 1].fails);
    forall q | 0 <= q < Parts(u.phase) && q < 4 ensures Copied(r, i, k, u.next, q) {
      if q < Parts(t.phase) { StaysCopied(r, i, k, t.next, u.next, q); } else { CopiedNow(r, i, k, u.next, q); }
    }
  }

  lemma PhaseFitsNow(cfg: Config, w: World, t: Thread)
    requires ThreadInv(cfg, w, t) && !t.phase.Idle?
    ensures PhaseFits(t)
  {}

  /** The other steps leave the thread as it is, or without anything to save. */
  lemma OthersCopyNothing(cfg: Config, a: System, l: Label, b: System, i: nat)
    requires Step(cfg, a, l, b) && i < |b.threads| && Parts(b.threads[i].phase) > 0
    requires !(l.Run? && l.thread == i)
    ensures i < |a.threads| && b.threads[i] == a.threads[i]
  {
    hide Act; hide TakesLock;
  }

  lemma NoneBelow(r: Trace, i: nat, k: nat, s: DurableState)
    ensures CopiedBelow(r, i, k, s, 0)
  {}

  lemma RunKeepsJob(cfg: Config, a: System, b: System, i: nat, fails: bool)
    requires RunStep(cfg, a, b, i, fails)
    ensures i < |a.threads| && b.threads[i].job == a.threads[i].job
  {
    hide Outgoing; hide PrepareAll; hide TransitionValid; hide BatchDigest; hide AttemptPosition; hide AttemptAccepted;
    hide FindList; hide FindProfile; hide FindPolicy; hide RefreshOne; hide TakesLock;
  }

  lemma StillCopied(r: Trace, k: nat, i: nat, t: Thread)
    requires 0 < k < |r.states| && i < |r.states[k].threads| && r.states[k].threads[i] == t && !t.phase.Idle?
    requires CopiedBelow(r, i, k - 1, t.next, Parts(t.phase))
    ensures CopiedBelow(r, i, k, t.next, Parts(t.phase))
  {
    hide Copied;
    forall q | 0 <= q < Parts(t.phase) && q < 4 ensures Copied(r, i, k, t.next, q) {
      StaysCopied(r, i, k, t.next, t.next, q);
    }
  }

  lemma {:induction false} TablesAt(cfg: Config, r: Trace, k: nat, i: nat)
    requires Sized(cfg) && IsTrace(cfg, r) && k < |r.states| && i < |r.states[k].threads|
    requires !r.states[k].threads[i].job.Refresh? && Parts(r.states[k].threads[i].phase) > 0
    ensures CopiedBelow(r, i, k, r.states[k].threads[i].next, Parts(r.states[k].threads[i].phase))
    decreases k
  {
    hide Inv; hide Copied;
    if k > 0 {
      var a, l, b := r.states[k - 1], r.labels[k - 1], r.states[k];
      assert Step(cfg, a, l, b);
      hide IsTrace;
      RunsKeepInv(cfg, r, k - 1);
      if l.Run? && l.thread == i {
        RunKeepsJob(cfg, a, b, i, l.fails);
        NoneBelow(r, i, k - 1, a.threads[i].next);
        if Parts(a.threads[i].phase) > 0 { TablesAt(cfg, r, k - 1, i); }
        StepCopies(cfg, r, k, i);
      } else {
        OthersCopyNothing(cfg, a, l, b, i);
        TablesAt(cfg, r, k - 1, i);
        StillCopied(r, k, i, r.states[k].threads[i]);
      }
    }
  }

  /** Profiles, policies, publishers and fences of the state that an operation other than a refresh commits are each
      those in use at some moment of that operation; a refresh copies none of them. */
  lemma CommitCopiesTables(cfg: Config, r: Trace, k: nat, i: nat)
    requires Sized(cfg) && IsTrace(cfg, r) && k < |r.labels| && r.labels[k].Run? && r.labels[k].thread == i
    requires i < |r.states[k].threads| && r.states[k].threads[i].phase.Saved?
    requires !r.states[k].threads[i].job.Refresh?
    ensures r.states[k + 1].w.st == r.states[k].threads[i].next
    ensures Copied(r, i, k, r.states[k + 1].w.st, 0) && Copied(r, i, k, r.states[k + 1].w.st, 1)
    ensures Copied(r, i, k, r.states[k + 1].w.st, 2) && Copied(r, i, k, r.states[k + 1].w.st, 3)
  {
    hide Inv; hide Copied;
    TablesAt(cfg, r, k, i);
    assert Step(cfg, r.states[k], r.labels[k], r.states[k + 1]);
    hide IsTrace;
    RunsKeepInv(cfg, r, k);
    SwapLands(cfg, r.states[k], r.labels[k], r.states[k + 1]);
  }

  /** What a save writes is the state that then becomes visible, to the last field, except that after a registration the
      image carries the revision of the state before. */
  lemma SavedExactly(cfg: Config, a: System, l: Label, b: System)
    requires Sized(cfg) && Inv(cfg, a) && Step(cfg, a, l, b) && !l.Crash? && b.w.disk != a.w.disk
    ensures l.Run? && l.thread < |b.threads| && b.w.disk.Some?
    ensures var t, image := b.threads[l.thread], b.w.disk.value;
            && image == t.next.(revision := image.revision)
            && image.revision == if t.job.SaveRegistry? then a.w.st.revision else t.next.revision
  {
    hide Inv; hide Act; hide TakesLock; hide CrashStep;
    SavedOnlyByCommit(cfg, a, l, b);
  }
}
