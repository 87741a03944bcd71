/** How many segments the store holds, and when `max_total_segments` bounds them (`src/store.cpp`).

    A batch is admitted by what it adds under new ids; what a replacement adds or removes is not counted. */
module SrfSegmentBudget {
  import opened SrfTypes
  import opened SrfCanonical
  import opened SrfStoreModel
  import opened SrfStoreLaws
  import opened SrfCommitLaws
  import opened SrfRecovery
  import opened SrfProtocol
  import opened SrfProtocolInv
  import opened SrfProtocolRuns
  import opened SrfProtocolTheorems

  // ------------------------------------------------------------------- accounting

  /** What a draft does to the segment count: under `id` there will be `size` segments. */
  datatype Change = Change(id: u64, size: nat)

  function Changes(ds: seq<Draft>): (cs: seq<Change>)
    ensures |cs| == |ds| && forall i :: 0 <= i < |cs| ==> cs[i] == Change(ds[i].id, |ds[i].segments|)
  {
    seq(|ds|, i requires 0 <= i < |ds| => Change(ds[i].id, |ds[i].segments|))
  }

  function SizeOf(ls: seq<SegmentList>, id: u64): nat {
    match FindList(ls, id) case None => 0 case Some(l) => |l.content.segments|
  }

  /** The segments under `id` after some changes to the lists `ls`. */
  function SizeAfter(ls: seq<SegmentList>, cs: seq<Change>, id: u64): nat {
    if cs == [] then SizeOf(ls, id)
    else
      var n := |cs| - 1;
      if cs[n].id == id then cs[n].size else SizeAfter(ls, cs[..n], id)
  }

  /** All segments the changes bring in. */
  function Installed(cs: seq<Change>): nat {
    if cs == [] then 0 else Installed(cs[..|cs| - 1]) + cs[|cs| - 1].size
  }

  /** All segments they push out: those of the list that each of them finds under its id. */
  function Displaced(ls: seq<SegmentList>, cs: seq<Change>): nat {
    if cs == [] then 0
    else
      var n := |cs| - 1;
      Displaced(ls, cs[..n]) + SizeAfter(ls, cs[..n], cs[n].id)
  }

  /** The books after the changes `cs` to the lists `was` balance. */
  ghost predicate Balanced(was: seq<SegmentList>, cs: seq<Change>, ls: seq<SegmentList>) {
    && TotalSegments(ls) + Displaced(was, cs) == TotalSegments(was) + Installed(cs)
    && forall id: u64 :: SizeOf(ls, id) == SizeAfter(was, cs, id)
  }

  lemma {:induction false} TotalOfUpdate(ls: seq<SegmentList>, i: nat, l: SegmentList)
    requires i < |ls|
    ensures TotalSegments(ls[i := l]) + |ls[i].content.segments| == TotalSegments(ls) + |l.content.segments|
  {
    var n := |ls| - 1;
    if i == n {
      assert ls[i := l][..n] == ls[..n];
    } else {
      TotalOfUpdate(ls[..n], i, l);
      assert ls[i := l][..n] == ls[..n][i := l];
    }
  }

  lemma TotalOfMore(ls: seq<SegmentList>, l: SegmentList)
    ensures TotalSegments(ls + [l]) == TotalSegments(ls) + |l.content.segments|
  {
    assert (ls + [l])[..|ls|] == ls;
  }

  /** Lists that agree on every id and every size are found alike. */
  lemma SameSizes(a: seq<SegmentList>, b: seq<SegmentList>, id: u64)
    requires |a| == |b|
    requires forall k :: 0 <= k < |a| ==>
               a[k].content.id == b[k].content.id && |a[k].content.segments| == |b[k].content.segments|
    ensures SizeOf(a, id) == SizeOf(b, id)
  {
    var i := Position(a, id);
    if i < |a| { FoundAt(b, id, i); } else { FoundNowhere(b, id); }
  }

  lemma {:induction false} SameTotal(a: seq<SegmentList>, b: seq<SegmentList>)
    requires |a| == |b| && forall k :: 0 <= k < |a| ==> |a[k].content.segments| == |b[k].content.segments|
    ensures TotalSegments(a) == TotalSegments(b)
  {
    if a != [] { SameTotal(a[..|a| - 1], b[..|a| - 1]); }
  }

  lemma SupersedeSizes(lim: Limits, s: DurableState, target: u64, heir: u64)
    requires Supersede(lim, s, target, heir).Some?
    ensures var t := Supersede(lim, s, target, heir).value;
            && TotalSegments(t.lists) == TotalSegments(s.lists)
            && forall id: u64 :: SizeOf(t.lists, id) == SizeOf(s.lists, id)
  {
    hide SizeOf; hide TotalSegments;
    var t := Supersede(lim, s, target, heir).value;
    SameTotal(t.lists, s.lists);
    forall id: u64 ensures SizeOf(t.lists, id) == SizeOf(s.lists, id) { SameSizes(t.lists, s.lists, id); }
  }

  lemma InstallSizes(lim: Limits, s: DurableState, pm: Prepared)
    requires pm.list.content.id == pm.id
    ensures var t := Install(lim, s, pm);
            && TotalSegments(t.lists) + SizeOf(s.lists, pm.id) == TotalSegments(s.lists) + |pm.list.content.segments|
            && forall id: u64 :: SizeOf(t.lists, id)
                                 == if id == pm.id then |pm.list.content.segments| else SizeOf(s.lists, id)
  {
    hide TotalSegments;
    var ls, i, t := s.lists, Position(s.lists, pm.id), Install(lim, s, pm).lists;
    assert t == if i < |ls| then ls[i := pm.list] else ls + [pm.list];
    if i < |ls| { TotalOfUpdate(ls, i, pm.list); } else { TotalOfMore(ls, pm.list); }
    forall id: u64
      ensures SizeOf(t, id) == if id == pm.id then |pm.list.content.segments| else SizeOf(ls, id)
    {
      if id == pm.id {
        FoundAt(t, id, i);
      } else {
        var k := Position(ls, id);
        if k < |ls| { FoundAt(t, id, k); } else { FoundNowhere(t, id); }
      }
    }
  }

  function ChangeOf(pm: Prepared): Change { Change(pm.id, |pm.list.content.segments|) }

  function ChangesOf(pms: seq<Prepared>): (cs: seq<Change>)
    ensures |cs| == |pms| && forall i :: 0 <= i < |cs| ==> cs[i] == ChangeOf(pms[i])
  {
    seq(|pms|, i requires 0 <= i < |pms| => ChangeOf(pms[i]))
  }

  lemma BalancedOne(lim: Limits, was: seq<SegmentList>, done: seq<Change>, s: DurableState, pm: Prepared, attempt: u64,
                    payload: Digest)
    requires Balanced(was, done, s.lists) && pm.list.content.id == pm.id
    requires ApplyOne(lim, s, pm, attempt, payload).Some?
    ensures Balanced(was, done + [ChangeOf(pm)], ApplyOne(lim, s, pm, attempt, payload).value.lists)
  {
    hide SizeOf; hide TotalSegments; hide Supersede; hide Install;
    var s1 := s;
    if pm.superseded.Some? {
      SupersedeSizes(lim, s, pm.superseded.value.0, pm.id);
      s1 := Supersede(lim, s, pm.superseded.value.0, pm.id).value;
    }
    InstallSizes(lim, s1, pm);
    var cs := done + [ChangeOf(pm)];
    assert cs[..|done|] == done;
  }

  lemma {:induction false} BalancedAll(lim: Limits, was: seq<SegmentList>, done: seq<Change>, s: DurableState,
                                       rest: seq<Prepared>, attempt: u64, payload: Digest)
    requires Balanced(was, done, s.lists) && Named(rest)
    requires ApplyAll(lim, s, rest, attempt, payload).Some?
    ensures Balanced(was, done + ChangesOf(rest), ApplyAll(lim, s, rest, attempt, payload).value.lists)
    decreases |rest|
  {
    hide Balanced; hide ApplyOne;
    if rest == [] {
      assert done + ChangesOf(rest) == done;
    } else {
      var s1 := ApplyOne(lim, s, rest[0], attempt, payload).value;
      BalancedOne(lim, was, done, s, rest[0], attempt, payload);
      BalancedAll(lim, was, done + [ChangeOf(rest[0])], s1, rest[1..], attempt, payload);
      assert done + [ChangeOf(rest[0])] + ChangesOf(rest[1..]) == done + ChangesOf(rest);
    }
  }

  // ---------------------------------------------------------------------- a batch

  /** The segments in the store after a batch, as a caller can compute it beforehand. */
  function Projected(ls: seq<SegmentList>, ds: seq<Draft>): int {
    TotalSegments(ls) + Installed(Changes(ds)) - Displaced(ls, Changes(ds))
  }

  /** An applied batch leaves exactly the projected number of segments, so it keeps any bound on them if and only if the
      projection does. */
  lemma BatchSegments(cfg: Config, ctx: Context, shape: Shape, ds: seq<Draft>, rs: seq<Resolved>, s: DurableState,
                      payload: Digest)
    requires |ds| == |rs| && PrepareAll(cfg, ctx, shape, ds, rs).Some?
    requires var pms := PrepareAll(cfg, ctx, shape, ds, rs).value;
             BatchState(cfg, s, pms, ctx.caller.attempt, payload).Some?
    ensures var pms := PrepareAll(cfg, ctx, shape, ds, rs).value;
            TotalSegments(BatchState(cfg, s, pms, ctx.caller.attempt, payload).value.lists) == Projected(s.lists, ds)
  {
    hide PrepareAll; hide BatchState; hide ApplyAll; hide TotalSegments; hide Installed; hide MakeList;
    var pms := PrepareAll(cfg, ctx, shape, ds, rs).value;
    PreparedNamed(cfg, ctx, shape, ds, rs);
    PreparedAt(cfg, ctx, shape, ds, rs);
    BatchStateMeaning(cfg, s, pms, ctx.caller.attempt, payload);
    forall k | 0 <= k < |ds| ensures ChangesOf(pms)[k] == Changes(ds)[k] { MadeSize(cfg, ctx, ds[k], rs[k]); }
    assert ChangesOf(pms) == Changes(ds);
    NothingChanged(s.lists);
    BalancedAll(cfg.limits, s.lists, [], s.(revision := s.revision + 1), pms, ctx.caller.attempt, payload);
    assert [] + ChangesOf(pms) == ChangesOf(pms);
  }

  lemma NothingChanged(ls: seq<SegmentList>)
    ensures Balanced(ls, [], ls)
  {}

  lemma MadeSize(cfg: Config, ctx: Context, d: Draft, res: Resolved)
    requires res.existing.Some? ==> res.existing.value.generation < U64_MAX
    ensures |MakeList(cfg, ctx, d, res).content.segments| == |d.segments|
  {
    hide ContentDigest; hide SequenceDigest;
  }

  // ------------------------------------------------------------------ whole runs

  /** The drafts of the batch that a step makes visible, if it does. */
  function LandedDrafts(a: System, l: Label): Option<seq<Draft>> {
    match Landed(a, l)
    case None => None
    case Some(t) => if t.job.Mutate? then Some(t.job.drafts) else None
  }

  lemma SavedSegments(cfg: Config, w: World, t: Thread)
    requires Sized(cfg) && WorldInv(cfg, w) && ThreadInv(cfg, w, t) && t.phase.Saved?
    ensures TotalSegments(t.next.lists) == if t.job.Mutate? then Projected(w.st.lists, t.job.drafts)
                                           else TotalSegments(w.st.lists)
  {
    hide ThreadInv; hide WorldInv; hide TotalSegments; hide Projected; hide PrepareAll; hide BatchState;
    hide RecordsStep;
    hide HistoryStep; hide ListsStep; hide IsAtomic; hide AtOk; hide Valid; hide AttemptPayload; hide BatchDigest;
    SavedStep(cfg, w, t);
    if t.job.Mutate? {
      SavedContext(cfg, w, t);
      ValidPrepared(cfg, t);
      BatchSegments(cfg, Ctx(t), t.job.shape, t.job.drafts, t.found, w.st, BatchDigest(cfg.digest, t.job.drafts));
    } else {
      SameTotal(t.next.lists, w.st.lists);
    }
  }

  lemma ValidPrepared(cfg: Config, t: Thread)
    requires t.job.Mutate? && Valid(cfg, t)
    ensures |t.found| == |t.job.drafts| && PrepareAll(cfg, Ctx(t), t.job.shape, t.job.drafts, t.found).Some?
  {
    hide PrepareAll;
  }

  lemma RecoveredTotal(ls: seq<SegmentList>)
    ensures TotalSegments(RecoverLists(ls)) == TotalSegments(ls)
  {
    hide TotalSegments;
    forall k | 0 <= k < |ls| ensures RecoverLists(ls)[k].content == ls[k].content { RecoverIsClosedStep(ls[k]); }
    SameTotal(RecoverLists(ls), ls);
  }

  /** A step changes the number of segments only by landing a batch, and then to the projected one. */
  lemma StepSegments(cfg: Config, a: System, l: Label, b: System)
    requires Sized(cfg) && Inv(cfg, a) && Step(cfg, a, l, b)
    ensures var ds := LandedDrafts(a, l);
            TotalSegments(b.w.st.lists) == if ds.Some? then Projected(a.w.st.lists, ds.value)
                                           else TotalSegments(a.w.st.lists)
  {
    hide ThreadInv; hide WorldInv; hide OneHolder; hide DiskInv; hide Step; hide Landed; hide TotalSegments;
    hide Projected; hide RecoverLists;
    StepLands(cfg, a, l, b);
    var t := Landed(a, l);
    if t.Some? { SavedSegments(cfg, a.w, t.value); }
    RecoveredTotal(if t.Some? then t.value.next.lists else a.w.st.lists);
  }

  /** Every batch that lands before step `m` leaves room: its projection is within the bound. */
  ghost predicate BatchesFit(cfg: Config, r: Trace, m: nat)
    requires m <= |r.labels| <= |r.states|
  {
    forall k :: 0 <= k < m ==>
      var ds := LandedDrafts(r.states[k], r.labels[k]);
      ds.Some? ==> Projected(r.states[k].w.st.lists, ds.value) <= cfg.limits.maxTotalSegments
  }

  ghost predicate WithinTotal(cfg: Config, s: System) { TotalSegments(s.w.st.lists) <= cfg.limits.maxTotalSegments }

  /** Over a run, crashes included, the number of segments stays within `max_total_segments` in every state if and only
      if no batch that lands grows past it. */
  lemma {:induction false} TotalWithinExactly(cfg: Config, r: Trace, m: nat)
    requires Sized(cfg) && IsTrace(cfg, r) && m < |r.states|
    ensures (forall k :: 0 <= k <= m ==> WithinTotal(cfg, r.states[k])) <==> BatchesFit(cfg, r, m)
  {
    hide Inv; hide Step; hide TotalSegments; hide Projected; hide LandedDrafts;
    if m == 0 {
      assert TotalSegments([]) == 0 by { EmptyTotal(); }
    } else {
      TotalWithinExactly(cfg, r, m - 1);
      RunsKeepInv(cfg, r, m - 1);
      StepSegments(cfg, r.states[m - 1], r.labels[m - 1], r.states[m]);
    }
  }

  lemma EmptyTotal()
    ensures TotalSegments([]) == 0
  {}

  lemma {:induction false} CreationsAreCounted(pms: seq<Prepared>)
    requires forall k :: 0 <= k < |pms| ==> pms[k].existing.None?
    ensures NewSegments(pms) == Installed(ChangesOf(pms))
  {
    if pms != [] {
      var n := |pms| - 1;
      CreationsAreCounted(pms[..n]);
      assert ChangesOf(pms)[..n] == ChangesOf(pms[..n]);
    }
  }

  /** A batch of nothing but creations never lands beyond the bound: for those, what is checked is what is added. */
  lemma CreationsStayWithin(cfg: Config, ctx: Context, shape: Shape, ds: seq<Draft>, rs: seq<Resolved>, s: DurableState,
                            payload: Digest)
    requires |ds| == |rs| && PrepareAll(cfg, ctx, shape, ds, rs).Some?
    requires forall k :: 0 <= k < |rs| ==> rs[k].existing.None?
    requires var pms := PrepareAll(cfg, ctx, shape, ds, rs).value;
             BatchState(cfg, s, pms, ctx.caller.attempt, payload).Some?
    ensures Projected(s.lists, ds) <= cfg.limits.maxTotalSegments
  {
    hide BatchState; hide ApplyAll; hide TotalSegments; hide Installed; hide MakeList; hide NewSegments;
    hide DraftValid;
    hide Displaced;
    var pms := PrepareAll(cfg, ctx, shape, ds, rs).value;
    PreparedNamed(cfg, ctx, shape, ds, rs);
    PreparedAt(cfg, ctx, shape, ds, rs);
    BatchStateMeaning(cfg, s, pms, ctx.caller.attempt, payload);
    forall k | 0 <= k < |ds|
      ensures ChangesOf(pms)[k] == Changes(ds)[k] && pms[k].existing.None?
    {
      MadeSize(cfg, ctx, ds[k], rs[k]);
      assert pms[k] == Prepare(cfg, ctx, ds[k], rs[k]);
    }
    assert ChangesOf(pms) == Changes(ds);
    CreationsAreCounted(pms);
  }
}
