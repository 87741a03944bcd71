/** When a batch of drafts is admitted: the exact condition on the drafts and on what is in the
    store (`src/store.cpp`). */
module SrfAdmission {
  import opened SrfTypes
  import opened SrfLifecycle
  import opened SrfCanonical
  import opened SrfStoreModel
  import opened SrfStoreLaws
  import opened SrfCommitLaws
  import opened SrfProtocol
  import opened SrfProtocolInv

  // ------------------------------------------------- the loop over the mutations

  /** The list `id` is there and refuses to be superseded. */
  predicate Denied(ls: seq<SegmentList>, id: u64) {
    var x := FindList(ls, id); x.Some? && Transition(x.value.state, SupersedeBegin).None?
  }

  /** The same after some mutations were applied to `ls`: one that installs under `id` opens it, one that supersedes it
      closes it. */
  predicate DeniedAfter(ls: seq<SegmentList>, pms: seq<Prepared>, id: u64) {
    if pms == [] then Denied(ls, id)
    else
      var pm := pms[|pms| - 1];
      pm.id != id && (Supersedes(pm, id) || DeniedAfter(ls, pms[..|pms| - 1], id))
  }

  predicate Supersedes(pm: Prepared, id: u64) { pm.superseded.Some? && pm.superseded.value.0 == id }

  /** Every mutation installs an active list under its own id, and what it supersedes is in the store. */
  ghost predicate Installable(ls: seq<SegmentList>, pms: seq<Prepared>) {
    Named(pms) && forall k :: 0 <= k < |pms| ==>
      && pms[k].list.state == Active
      && (pms[k].superseded.Some? ==> FindList(ls, pms[k].superseded.value.0).Some?)
  }

  /** Where the loop stands: the same lists are there, and the same ones refuse. */
  ghost predicate Standing(was: seq<SegmentList>, done: seq<Prepared>, cur: seq<SegmentList>) {
    && (forall id: u64 :: FindList(was, id).Some? ==> FindList(cur, id).Some?)
    && (forall id: u64 :: Denied(cur, id) <==> DeniedAfter(was, done, id))
  }

  /** Exchanging a list for one of the same id is seen under that id and nowhere else. */
  lemma FindExchanged(ls: seq<SegmentList>, i: nat, l: SegmentList, id: u64)
    requires i < |ls| && i == Position(ls, l.content.id)
    ensures FindList(ls[i := l], id) == if id == l.content.id then Some(l) else FindList(ls, id)
  {
    var k := if id == l.content.id then i else Position(ls, id);
    if k < |ls| { FoundAt(ls[i := l], id, k); } else { FoundNowhere(ls[i := l], id); }
  }

  lemma FindAppended(ls: seq<SegmentList>, l: SegmentList, id: u64)
    requires Position(ls, l.content.id) == |ls|
    ensures FindList(ls + [l], id) == if id == l.content.id then Some(l) else FindList(ls, id)
  {
    var k := if id == l.content.id then |ls| else Position(ls, id);
    if k < |ls| || id == l.content.id { FoundAt(ls + [l], id, k); } else { FoundNowhere(ls + [l], id); }
  }

  lemma SupersedeStands(lim: Limits, s: DurableState, target: u64, heir: u64)
    requires FindList(s.lists, target).Some?
    ensures Supersede(lim, s, target, heir).None? <==> Denied(s.lists, target)
    ensures Supersede(lim, s, target, heir).Some? ==>
              var t := Supersede(lim, s, target, heir).value;
              forall id: u64 ::
                && (FindList(t.lists, id).Some? <==> FindList(s.lists, id).Some?)
                && (Denied(t.lists, id) <==> id == target || Denied(s.lists, id))
  {
    if Supersede(lim, s, target, heir).Some? {
      var t := Supersede(lim, s, target, heir).value;
      var i := Position(s.lists, target);
      forall id: u64
        ensures FindList(t.lists, id).Some? <==> FindList(s.lists, id).Some?
        ensures Denied(t.lists, id) <==> id == target || Denied(s.lists, id)
      {
        FindExchanged(s.lists, i, t.lists[i], id);
      }
    }
  }

  lemma InstallStands(lim: Limits, s: DurableState, pm: Prepared, id: u64)
    requires pm.list.content.id == pm.id && pm.list.state == Active
    ensures var t := Install(lim, s, pm);
            && (FindList(t.lists, id).Some? <==> id == pm.id || FindList(s.lists, id).Some?)
            && (Denied(t.lists, id) <==> id != pm.id && Denied(s.lists, id))
  {
    hide AppendHistory;
    var i := Position(s.lists, pm.id);
    InstallLists(lim, s, pm);
    if i < |s.lists| { FindExchanged(s.lists, i, pm.list, id); } else { FindAppended(s.lists, pm.list, id); }
  }

  lemma InstallLists(lim: Limits, s: DurableState, pm: Prepared)
    ensures var i := Position(s.lists, pm.id);
            Install(lim, s, pm).lists == if i < |s.lists| then s.lists[i := pm.list] else s.lists + [pm.list]
  {}

  lemma OneStands(lim: Limits, was: seq<SegmentList>, done: seq<Prepared>, s: DurableState, pm: Prepared, attempt: u64,
                  payload: Digest)
    requires Standing(was, done, s.lists) && Installable(was, [pm])
    ensures ApplyOne(lim, s, pm, attempt, payload).None? <==>
            pm.superseded.Some? && DeniedAfter(was, done, pm.superseded.value.0)
    ensures ApplyOne(lim, s, pm, attempt, payload).Some? ==>
              Standing(was, done + [pm], ApplyOne(lim, s, pm, attempt, payload).value.lists)
  {
    hide Supersede; hide Install; hide FindList; hide Denied;
    assert [pm][0] == pm;
    if pm.superseded.Some? { SupersedeStands(lim, s, pm.superseded.value.0, pm.id); }
    if ApplyOne(lim, s, pm, attempt, payload).Some? {
      var s1 := if pm.superseded.Some? then Supersede(lim, s, pm.superseded.value.0, pm.id).value else s;
      forall id: u64
        ensures FindList(was, id).Some? ==> FindList(Install(lim, s1, pm).lists, id).Some?
        ensures Denied(Install(lim, s1, pm).lists, id) <==> DeniedAfter(was, done + [pm], id)
      {
        InstallStands(lim, s1, pm, id);
        assert (done + [pm])[..|done|] == done;
      }
    }
  }

  /** The loop refuses a batch exactly when some mutation supersedes a list that refuses by the time its turn comes. */
  lemma {:induction false} LoopRefusesExactly(lim: Limits, was: seq<SegmentList>, done: seq<Prepared>, s: DurableState,
                                              rest: seq<Prepared>, attempt: u64, payload: Digest)
    requires Standing(was, done, s.lists) && Installable(was, rest)
    ensures ApplyAll(lim, s, rest, attempt, payload).None? <==>
            exists b :: 0 <= b < |rest| && RefusedAt(was, done, rest, b)
    decreases |rest|
  {
    hide ApplyOne; hide Standing; hide DeniedAfter;
    if rest != [] {
      OneStands(lim, was, done, s, rest[0], attempt, payload);
      assert done + rest[..0] == done;
      var first := ApplyOne(lim, s, rest[0], attempt, payload);
      if first.None? {
        assert RefusedAt(was, done, rest, 0);
      } else {
        assert !RefusedAt(was, done, rest, 0);
        LoopRefusesExactly(lim, was, done + [rest[0]], first.value, rest[1..], attempt, payload);
        forall b | 0 <= b < |rest| - 1
          ensures RefusedAt(was, done + [rest[0]], rest[1..], b) <==> RefusedAt(was, done, rest, b + 1)
        {
          assert (done + [rest[0]]) + rest[1..][..b] == done + rest[..b + 1];
        }
        if b :| 0 <= b < |rest| && RefusedAt(was, done, rest, b) {
          assert RefusedAt(was, done + [rest[0]], rest[1..], b - 1);
        }
      }
    }
  }

  ghost predicate RefusedAt(was: seq<SegmentList>, done: seq<Prepared>, rest: seq<Prepared>, b: nat)
    requires b < |rest|
  {
    rest[b].superseded.Some? && DeniedAfter(was, done + rest[..b], rest[b].superseded.value.0)
  }

  // ------------------------------------------------------------- drafts of a batch

  /** Two drafts supersede one list, and no draft from the first of them on, before the second, puts a new revision in
      its place. */
  ghost predicate SupersedesTwice(ds: seq<Draft>) {
    exists a, b :: 0 <= a < b < |ds| && SupersededAgain(ds, a, b)
  }

  ghost predicate SupersededAgain(ds: seq<Draft>, a: nat, b: nat)
    requires a < b < |ds|
  {
    && ds[a].supersedes != 0 && ds[b].supersedes == ds[a].supersedes
    && forall k :: a <= k < b ==> ds[k].id != ds[a].supersedes
  }

  /** The drafts of the mutations: the same ids, the same targets. */
  ghost predicate From(pms: seq<Prepared>, ds: seq<Draft>) {
    |pms| == |ds| && forall k :: 0 <= k < |ds| ==>
      && pms[k].id == ds[k].id && (pms[k].superseded.Some? <==> ds[k].supersedes != 0)
      && (pms[k].superseded.Some? ==> pms[k].superseded.value.0 == ds[k].supersedes)
  }

  lemma {:induction false} DeniedByDraft(ls: seq<SegmentList>, pms: seq<Prepared>, ds: seq<Draft>, b: nat, id: u64)
    requires From(pms, ds) && b <= |ds| && !Denied(ls, id) && id != 0
    ensures DeniedAfter(ls, pms[..b], id) <==>
            exists a :: 0 <= a < b && ds[a].supersedes == id && forall k :: a <= k < b ==> ds[k].id != id
  {
    if b > 0 {
      DeniedByDraft(ls, pms, ds, b - 1, id);
      assert pms[..b][..b - 1] == pms[..b - 1] && pms[..b][b - 1] == pms[b - 1];
      if ds[b - 1].id != id && DeniedAfter(ls, pms[..b - 1], id) {
        var a :| 0 <= a < b - 1 && ds[a].supersedes == id && forall k :: a <= k < b - 1 ==> ds[k].id != id;
        assert forall k :: a <= k < b ==> ds[k].id != id;
      }
    }
  }

  /** Every draft validates against the lists and tables it was resolved in. */
  ghost predicate AllValid(cfg: Config, ctx: Context, shape: Shape, ds: seq<Draft>, rs: seq<Resolved>)
    requires |ds| == |rs|
  {
    forall i :: 0 <= i < |ds| ==> DraftValid(cfg, ctx, shape, ds[i], rs[i])
  }

  function NewIds(ls: seq<SegmentList>, ds: seq<Draft>): nat {
    if ds == [] then 0
    else NewIds(ls, ds[..|ds| - 1]) + (if FindList(ls, ds[|ds| - 1].id).None? then 1 else 0)
  }

  function SegmentsOfNew(ls: seq<SegmentList>, ds: seq<Draft>): nat {
    if ds == [] then 0
    else
      var d := ds[|ds| - 1];
      SegmentsOfNew(ls, ds[..|ds| - 1]) + (if FindList(ls, d.id).None? then |d.segments| else 0)
  }

  /** Room for the lists and the segments that go under new ids. */
  predicate RoomForDrafts(lim: Limits, ls: seq<SegmentList>, ds: seq<Draft>) {
    |ls| + NewIds(ls, ds) <= lim.maxLists && TotalSegments(ls) + SegmentsOfNew(ls, ds) <= lim.maxTotalSegments
  }

  lemma {:induction false} SameRoom(ls: seq<SegmentList>, pms: seq<Prepared>, ds: seq<Draft>)
    requires |pms| == |ds| && forall k :: 0 <= k < |ds| ==>
               && (pms[k].existing.None? <==> FindList(ls, ds[k].id).None?)
               && |pms[k].list.content.segments| == |ds[k].segments|
    ensures NewLists(pms) == NewIds(ls, ds) && NewSegments(pms) == SegmentsOfNew(ls, ds)
  {
    if ds != [] { SameRoom(ls, pms[..|ds| - 1], ds[..|ds| - 1]); }
  }

  lemma PreparedFrom(cfg: Config, ctx: Context, shape: Shape, ds: seq<Draft>, rs: seq<Resolved>, ls: seq<SegmentList>,
                     k: nat)
    requires cfg.limits.maxReasons >= 1 && ResolvedIn(ls, ds, rs) && k < |ds|
    requires PrepareAll(cfg, ctx, shape, ds, rs).Some?
    ensures var pms, d := PrepareAll(cfg, ctx, shape, ds, rs).value, ds[k];
            && |pms| == |ds| && pms[k].id == d.id && pms[k].list.content.id == d.id && pms[k].list.state == Active
            && |pms[k].list.content.segments| == |d.segments| && StillCurrent(ls, pms[k])
            && (pms[k].existing.None? <==> FindList(ls, d.id).None?)
            && (pms[k].superseded.Some? <==> d.supersedes != 0)
            && (d.supersedes != 0 ==> pms[k].superseded.value.0 == d.supersedes && FindList(ls, d.supersedes).Some?
                                      && !Denied(ls, d.supersedes))
  {
    hide DraftOutcome; hide ContentDigest; hide SequenceDigest; hide FindList; hide Transition;
    var pms := PrepareAll(cfg, ctx, shape, ds, rs).value;
    assert DraftValid(cfg, ctx, shape, ds[k], rs[k]) && pms[k] == Prepare(cfg, ctx, ds[k], rs[k]);
    if ds[k].supersedes != 0 { AcceptedSuperseded(cfg, ctx, shape, ds[k], rs[k]); }
  }

  lemma NothingStands(ls: seq<SegmentList>)
    ensures Standing(ls, [], ls)
  {}

  /** For drafts that validated against the lists they are applied to, the loop refuses if and only if they supersede
      one list twice. */
  lemma LoopRefusesDrafts(cfg: Config, ctx: Context, shape: Shape, ds: seq<Draft>, rs: seq<Resolved>, s: DurableState,
                          payload: Digest)
    requires cfg.limits.maxReasons >= 1 && ResolvedIn(s.lists, ds, rs)
    requires PrepareAll(cfg, ctx, shape, ds, rs).Some?
    ensures ApplyAll(cfg.limits, s, PrepareAll(cfg, ctx, shape, ds, rs).value, ctx.caller.attempt, payload).None? <==>
            SupersedesTwice(ds)
  {
    SameNumber(s.lists, ds, rs);
    hide *;
    var pms := PrepareAll(cfg, ctx, shape, ds, rs).value;
    DraftsOpen(cfg, ctx, shape, ds, rs, s.lists);
    NothingStands(s.lists);
    LoopRefusesExactly(cfg.limits, s.lists, [], s, pms, ctx.caller.attempt, payload);
    TwiceIsRefused(s.lists, pms, ds);
  }

  /** No draft supersedes a list that is not there or refuses to begin with. */
  ghost predicate TargetsOpen(ls: seq<SegmentList>, ds: seq<Draft>) {
    forall k :: 0 <= k < |ds| && ds[k].supersedes != 0 ==> !Denied(ls, ds[k].supersedes)
  }

  lemma DraftsOpen(cfg: Config, ctx: Context, shape: Shape, ds: seq<Draft>, rs: seq<Resolved>, ls: seq<SegmentList>)
    requires cfg.limits.maxReasons >= 1 && ResolvedIn(ls, ds, rs) && PrepareAll(cfg, ctx, shape, ds, rs).Some?
    ensures var pms := PrepareAll(cfg, ctx, shape, ds, rs).value;
            From(pms, ds) && Installable(ls, pms) && TargetsOpen(ls, ds)
  {
    hide PrepareAll; hide Denied; hide FindList; hide StillCurrent; hide MakeList;
    var pms := PrepareAll(cfg, ctx, shape, ds, rs).value;
    PreparedAt(cfg, ctx, shape, ds, rs);
    forall k | 0 <= k < |ds|
      ensures pms[k].id == ds[k].id && pms[k].list.content.id == ds[k].id && pms[k].list.state == Active
      ensures pms[k].superseded.Some? <==> ds[k].supersedes != 0
      ensures ds[k].supersedes != 0 ==> pms[k].superseded.value.0 == ds[k].supersedes
                                        && FindList(ls, ds[k].supersedes).Some? && !Denied(ls, ds[k].supersedes)
    {
      PreparedFrom(cfg, ctx, shape, ds, rs, ls, k);
    }
  }

  lemma RefusedByDraft(ls: seq<SegmentList>, pms: seq<Prepared>, ds: seq<Draft>, b: nat)
    requires From(pms, ds) && TargetsOpen(ls, ds) && b < |ds|
    ensures RefusedAt(ls, [], pms, b) <==> exists a :: 0 <= a < b && SupersededAgain(ds, a, b)
  {
    hide Denied; hide DeniedAfter;
    var id := ds[b].supersedes;
    assert [] + pms[..b] == pms[..b];
    if id != 0 {
      DeniedByDraft(ls, pms, ds, b, id);
      if RefusedAt(ls, [], pms, b) {
        var a :| 0 <= a < b && ds[a].supersedes == id && forall k :: a <= k < b ==> ds[k].id != id;
        assert SupersededAgain(ds, a, b);
      }
    }
  }

  lemma TwiceIsRefused(ls: seq<SegmentList>, pms: seq<Prepared>, ds: seq<Draft>)
    requires From(pms, ds) && TargetsOpen(ls, ds)
    ensures (exists b :: 0 <= b < |pms| && RefusedAt(ls, [], pms, b)) <==> SupersedesTwice(ds)
  {
    hide RefusedAt; hide SupersededAgain; hide TargetsOpen;
    assert |pms| == |ds|;
    forall b | 0 <= b < |ds|
      ensures RefusedAt(ls, [], pms, b) <==> exists a :: 0 <= a < b && SupersededAgain(ds, a, b)
    {
      RefusedByDraft(ls, pms, ds, b);
    }
    if SupersedesTwice(ds) {
      var a, b :| 0 <= a < b < |ds| && SupersededAgain(ds, a, b);
      assert RefusedAt(ls, [], pms, b);
    }
  }

  lemma SameNumber(ls: seq<SegmentList>, ds: seq<Draft>, rs: seq<Resolved>)
    requires ResolvedIn(ls, ds, rs)
    ensures |ds| == |rs|
  {}

  /** What a caller can find out about a batch: every draft validates, there is room for what is new, and no list is
      superseded twice. */
  ghost predicate Admissible(cfg: Config, w: World, caller: Caller, shape: Shape, ds: seq<Draft>,
                             publishers: seq<Publisher>, fenced: seq<u64>)
  {
    && AllValid(cfg, AtomicContext(w, caller, publishers, fenced), shape, ds, Resolutions(w, ds))
    && RoomForDrafts(cfg.limits, w.st.lists, ds) && !SupersedesTwice(ds)
  }

  /** The atomic batch exists if and only if the drafts are admissible. */
  lemma AtomicBatchExactly(cfg: Config, w: World, caller: Caller, shape: Shape, ds: seq<Draft>,
                           publishers: seq<Publisher>, fenced: seq<u64>)
    requires cfg.limits.maxReasons >= 1
    ensures AtomicBatch(cfg, w, caller, shape, ds, publishers, fenced).Some? <==>
            Admissible(cfg, w, caller, shape, ds, publishers, fenced)
  {
    hide DraftValid; hide ApplyAll; hide RoomFor; hide SupersedesTwice; hide FindList; hide StillCurrent;
    hide BatchDigest;
    hide TotalSegments; hide NewIds; hide SegmentsOfNew; hide MakeList;
    var ctx, rs := AtomicContext(w, caller, publishers, fenced), Resolutions(w, ds);
    ResolvedThere(w, ds);
    if AllValid(cfg, ctx, shape, ds, rs) {
      var pms := PrepareAll(cfg, ctx, shape, ds, rs).value;
      forall k | 0 <= k < |ds|
        ensures StillCurrent(w.st.lists, pms[k]) && |pms[k].list.content.segments| == |ds[k].segments|
        ensures pms[k].existing.None? <==> FindList(w.st.lists, ds[k].id).None?
      {
        PreparedFrom(cfg, ctx, shape, ds, rs, w.st.lists, k);
      }
      SameRoom(w.st.lists, pms, ds);
      RoomAlike(cfg.limits, w.st.lists, pms, ds);
      LoopRefusesDrafts(cfg, ctx, shape, ds, rs, w.st.(revision := w.st.revision + 1), BatchDigest(cfg.digest, ds));
    }
  }

  lemma RoomAlike(lim: Limits, ls: seq<SegmentList>, pms: seq<Prepared>, ds: seq<Draft>)
    requires NewLists(pms) == NewIds(ls, ds) && NewSegments(pms) == SegmentsOfNew(ls, ds)
    ensures RoomFor(lim, ls, pms) <==> RoomForDrafts(lim, ls, ds)
  {}

  lemma ResolvedThere(w: World, ds: seq<Draft>)
    ensures ResolvedIn(w.st.lists, ds, Resolutions(w, ds))
  {
    hide FindList; hide FindProfile; hide FindPolicy;
  }
}
