/** What refresh achieves in the concurrent store: no list that a finished refresh leaves behind hides that the fabric
    moved. */
module SrfProtocolRefresh {
  import opened SrfTypes
  import opened SrfEvidence
  import opened SrfStoreModel
  import opened SrfStoreLaws
  import opened SrfCommitLaws
  import opened SrfProtocol
  import opened SrfProtocolInv
  import opened SrfProtocolRuns
  import opened SrfProtocolTheorems
  import opened SrfRevisions

  ghost predicate ShowsBelow(e: Evidence, ls: seq<SegmentList>, k: nat) {
    forall i :: 0 <= i < k && i < |ls| ==> Shows(e, ls[i])
  }

  /** A refresh that sweeps the lists, or is done with them. */
  ghost predicate Swept(t: Thread) {
    t.job.Refresh? ==>
      match t.phase
      case Sweeping(k) => ShowsBelow(t.evidence, t.next.lists, k)
      case Stamping(_) => ShowsBelow(t.evidence, t.next.lists, |t.next.lists|)
      case Saved => ShowsBelow(t.evidence, t.next.lists, |t.next.lists|)
      case _ => true
  }

  /** The registries and the authority table may move while a refresh sweeps; each list is rechecked against those of
      its moment, and all of them against the one copy of the evidence. */
  lemma SweepShows(w: World, t: Thread, k: nat)
    requires t.job.Refresh? && t.phase == Sweeping(k) && ShowsBelow(t.evidence, t.next.lists, k)
    ensures Swept(Sweep(w, t, k))
    ensures !Sweep(w, t, k).phase.Sweeping? ==> ShowsBelow(t.evidence, t.next.lists, |t.next.lists|)
  {
    hide Shows; hide RefreshOne;
    if k < |t.next.lists| { RefreshShows(w.reg, w.auth, t.authority.epoch, t.evidence, t.next.lists[k]); }
  }

  lemma ActSweeps(cfg: Config, w: World, t: Thread, fails: bool)
    requires Swept(t) && PhaseFits(t)
    ensures Swept(Act(cfg, w, t, fails).t)
  {
    hide ShowsBelow; hide Sweep; hide Outgoing; hide PrepareAll; hide TransitionValid; hide RefreshOne;
    hide BatchDigest; hide AttemptPosition; hide AttemptAccepted;
    match t.phase
    case Sweeping(k) => SweepShows(w, t, k);
    case Dated => NothingBelow(t.evidence, w.st.lists);
    case _ => {}
  }

  lemma NothingBelow(e: Evidence, ls: seq<SegmentList>)
    ensures ShowsBelow(e, ls, 0)
  {}

  ghost predicate AllSwept(s: System) { forall i :: 0 <= i < |s.threads| ==> Swept(s.threads[i]) }

  lemma StepSweeps(cfg: Config, a: System, l: Label, b: System)
    requires Inv(cfg, a) && AllSwept(a) && Step(cfg, a, l, b)
    ensures AllSwept(b)
  {
    hide ThreadInv; hide WorldInv; hide DiskInv; hide OneHolder; hide TakesLock; hide ShowsBelow; hide Act;
    match l
    case Start(i, job) => {}
    case Run(i, fails) =>
      ThreadFits(cfg, a.w, a.threads[i]);
      ActSweeps(cfg, a.w, a.threads[i], fails);
    case Environment => {}
    case Crash(fails) => {}
  }

  lemma ThreadFits(cfg: Config, w: World, t: Thread)
    requires ThreadInv(cfg, w, t)
    ensures t.phase.Idle? || PhaseFits(t)
  {}

  lemma {:induction false} RunsSweep(cfg: Config, r: Trace, k: nat)
    requires Sized(cfg) && IsTrace(cfg, r) && k < |r.states|
    ensures AllSwept(r.states[k])
    decreases k
  {
    hide Inv; hide Step; hide ShowsBelow;
    if k > 0 {
      RunsSweep(cfg, r, k - 1);
      RunsKeepInv(cfg, r, k - 1);
      StepSweeps(cfg, r.states[k - 1], r.labels[k - 1], r.states[k]);
    }
  }

  /** The step by which a refresh of thread `i` ends, with or without anything to save. */
  ghost predicate RefreshEnds(r: Trace, k: nat, i: nat) {
    && k < |r.labels| && k + 1 < |r.states| && r.labels[k].Run? && r.labels[k].thread == i
    && i < |r.states[k].threads| && i < |r.states[k + 1].threads|
    && r.states[k].threads[i].job.Refresh? && !r.states[k].threads[i].phase.Idle?
    && r.states[k + 1].threads[i].phase.Idle? && r.states[k + 1].threads[i].verdict in {Nothing, Committed}
  }

  /** Once a refresh ended, every list in the store is finished, or neither current nor active if anything it is bound
      to has moved in the evidence that the refresh copied. */
  lemma RefreshShowsEveryMove(cfg: Config, r: Trace, k: nat, i: nat)
    requires Sized(cfg) && IsTrace(cfg, r) && RefreshEnds(r, k, i)
    ensures forall l :: l in r.states[k + 1].w.st.lists ==> Shows(r.states[k].threads[i].evidence, l)
  {
    hide ThreadInv; hide WorldInv; hide DiskInv; hide Inv; hide Shows;
    RunsSweep(cfg, r, k);
    RunsKeepInv(cfg, r, k);
    var t := r.states[k].threads[i];
    InvThread(cfg, r.states[k], i);
    ThreadFits(cfg, r.states[k].w, t);
    EndsShown(cfg, r.states[k], r.states[k + 1], i, r.labels[k].fails);
  }

  lemma EndsShown(cfg: Config, a: System, b: System, i: nat, fails: bool)
    requires RunStep(cfg, a, b, i, fails) && Swept(a.threads[i]) && PhaseFits(a.threads[i]) && a.threads[i].job.Refresh?
    requires b.threads[i].phase.Idle? && b.threads[i].verdict in {Nothing, Committed}
    ensures ShowsBelow(a.threads[i].evidence, b.w.st.lists, |b.w.st.lists|)
  {
    hide ShowsBelow; hide Sweep; hide TakesLock; hide Outgoing; hide PrepareAll; hide TransitionValid;
    var t := a.threads[i];
    match t.phase
    case Sweeping(k) => SweepShows(a.w, t, k); SweepEndsHere(a.w, t, k);
    case _ => {}
  }

  lemma SweepEndsHere(w: World, t: Thread, k: nat)
    ensures Sweep(w, t, k).phase.Idle? ==> t.next.lists == w.st.lists
  {
    hide RefreshOne;
  }

  // -------------------------------------------------------------------- from commit to refresh

  /** The lists of a committed batch were made of valid drafts. */
  lemma CommittedValid(cfg: Config, r: Trace, k: nat, i: nat, q: nat)
    requires Sized(cfg) && IsTrace(cfg, r) && BatchCommits(r, k, i)
    requires q < |r.states[k].threads[i].job.drafts|
    ensures var t := r.states[k].threads[i];
            |t.found| == |t.job.drafts| && DraftValid(cfg, Ctx(t), t.job.shape, t.job.drafts[q], t.found[q])
  {
    hide Inv; hide ThreadInv; hide Step; hide AttemptPayload; hide BatchDigest; hide RecordsStep; hide ListsStep;
    hide HistoryStep; hide DraftValid; hide IsAtomic; hide AtOk;
    RunsKeepInv(cfg, r, k);
    InvThread(cfg, r.states[k], i);
    SavedStep(cfg, r.states[k].w, r.states[k].threads[i]);
  }

  /** The list found under an id some time after a commit is the committed one further on. */
  lemma FoundLater(cfg: Config, r: Trace, j: nat, m: nat, id: u64)
    requires Sized(cfg) && IsTrace(cfg, r) && j <= m < |r.states| && FindList(r.states[j].w.st.lists, id).Some?
    ensures var z, y := FindList(r.states[j].w.st.lists, id), FindList(r.states[m].w.st.lists, id);
            y.Some? && y.value in r.states[m].w.st.lists && Evolves(z.value, y.value)
  {
    hide Step; hide IsTrace; hide Evolves; hide ActiveIsCurrent;
    LineagesOverRuns(cfg, r, j, m);
    BoundsOverRuns(cfg, r, m);
    var a, b := r.states[j].w.st.lists, r.states[m].w.st.lists;
    var p := Position(a, id);
    EvolvesKeepsId(a[p], b[p]);
    PositionUnique(b, p);
  }

  lemma EvolvesKeepsId(x: SegmentList, y: SegmentList)
    requires Evolves(x, y)
    ensures y.content.id == x.content.id
    ensures y.generation == x.generation ==> y.content == x.content
  {}

  /** From commit to refresh, over every run.  A batch commits a revision with an adjacency, or under a profile that
      requires a capability, while the fabric is at some generation; whatever happens then, once a refresh has seen the
      fabric at another one, the revision is no longer active, nor current unless its lineage is finished. */
  lemma MovesAreSeen(cfg: Config, r: Trace, k: nat, i: nat, q: nat, m: nat, j: nat)
    requires Sized(cfg) && IsTrace(cfg, r) && BatchCommits(r, k, i) && k < m && RefreshEnds(r, m, j)
    requires var ds := r.states[k].threads[i].job.drafts;
             q < |ds| && forall p :: q < p < |ds| ==> ds[p].id != ds[q].id
    requires var t, e := r.states[k].threads[i], r.states[m].threads[j].evidence;
             q < |t.found|
             && (|| (Adjacent(t.job.drafts[q].segments) && t.evidence.topology !in {0, e.topology})
                 || (t.found[q].profile.Some? && t.found[q].profile.value.capabilities != []
                     && t.evidence.capability !in {0, e.capability}))
    ensures var id := r.states[k].threads[i].job.drafts[q].id;
            var z, y := FindList(r.states[k + 1].w.st.lists, id), FindList(r.states[m + 1].w.st.lists, id);
            z.Some? && y.Some? && (y.value.generation == z.value.generation ==>
                                     || y.value.state in {Withdrawn, Superseded, Revoked, Retired}
                                     || (y.value.state != Active && y.value.currentness != Current))
  {
    hide IsTrace; hide DraftValid; hide MakeList; hide Evolves; hide EvidenceMoved; hide Contains; hide ComesFrom;
    hide FindList; hide Adjacent;
    var t, e := r.states[k].threads[i], r.states[m].threads[j].evidence;
    var d, res := t.job.drafts[q], t.found[q];
    CommitAppliesEveryDraft(cfg, r, k, i, q);
    CommittedValid(cfg, r, k, i, q);
    CommittedContent(cfg, Ctx(t), t.job.shape, d, res, FindList(r.states[k + 1].w.st.lists, d.id).value, e);
    FoundLater(cfg, r, k + 1, m + 1, d.id);
    EvolvesKeepsId(FindList(r.states[k + 1].w.st.lists, d.id).value, FindList(r.states[m + 1].w.st.lists, d.id).value);
    RefreshShowsEveryMove(cfg, r, m, j);
    var y := FindList(r.states[m + 1].w.st.lists, d.id).value;
    assert Shows(e, y);
    assert y.generation == FindList(r.states[k + 1].w.st.lists, d.id).value.generation ==> EvidenceMoved(e, y.content);
  }

  lemma CommittedContent(cfg: Config, ctx: Context, shape: Shape, d: Draft, res: Resolved, z: SegmentList, e: Evidence)
    requires cfg.limits.maxReasons >= 1 && DraftValid(cfg, ctx, shape, d, res)
    requires res.existing.Some? ==> res.existing.value.generation < U64_MAX
    requires Became(MakeList(cfg, ctx, d, res), z)
    requires || (Adjacent(d.segments) && ctx.evidence.topology !in {0, e.topology})
             || (res.profile.Some? && res.profile.value.capabilities != []
                 && ctx.evidence.capability !in {0, e.capability})
    ensures EvidenceMoved(e, z.content)
  {
    hide DraftValid; hide MakeList; hide EvidenceMoved; hide Contains; hide ComesFrom; hide Adjacent;
    RevisionMade(cfg, ctx, shape, d, res);
    NeededIsBound(d, ctx.evidence, res.profile.value, res.policy, MakeList(cfg, ctx, d, res).content, e);
  }

  /** What a batch commits, over every run: at once after the commit, the last draft of an id stands under that id as a
      revision bound as above to the draft, to the evidence of the capture and to what was found, active and current, or
      superseded by another draft of the batch. */
  lemma CommittedRevision(cfg: Config, r: Trace, k: nat, i: nat, q: nat)
    requires Sized(cfg) && IsTrace(cfg, r) && BatchCommits(r, k, i)
    requires var ds := r.states[k].threads[i].job.drafts;
             q < |ds| && forall p :: q < p < |ds| ==> ds[p].id != ds[q].id
    ensures var t := r.states[k].threads[i];
            && |t.found| == |t.job.drafts| && t.found[q].profile.Some?
            && var z := FindList(r.states[k + 1].w.st.lists, t.job.drafts[q].id);
               && z.Some? && BoundTo(cfg, Ctx(t), t.job.drafts[q], t.found[q], z.value)
               && (|| (z.value.state == Active && z.value.currentness == Current && z.value.lineage.supersededBy == 0
                       && z.value.committedRevision == t.storeRevision + 1)
                   || (z.value.state == Superseded && z.value.currentness == Unknown))
  {
    assert |r.states| == |r.labels| + 1;
    hide IsTrace; hide DraftValid; hide MakeList; hide Contains; hide ComesFrom; hide FindList;
    var t := r.states[k].threads[i];
    CommitAppliesEveryDraft(cfg, r, k, i, q);
    CommittedValid(cfg, r, k, i, q);
    var d, res := t.job.drafts[q], t.found[q];
    RevisionMade(cfg, Ctx(t), t.job.shape, d, res);
    StillBound(cfg, Ctx(t), d, res, MakeList(cfg, Ctx(t), d, res), FindList(r.states[k + 1].w.st.lists, d.id).value);
  }

  lemma StillBound(cfg: Config, ctx: Context, d: Draft, res: Resolved, l: SegmentList, z: SegmentList)
    requires res.profile.Some? && BoundTo(cfg, ctx, d, res, l) && Became(l, z)
    ensures BoundTo(cfg, ctx, d, res, z)
  {
    hide Contains; hide ComesFrom;
  }
}
