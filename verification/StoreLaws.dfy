/** What one store mutation does to the lists, the history and the attempt table. */
module SrfStoreLaws {
  import opened SrfTypes
  import opened SrfReasons
  import opened SrfLifecycle
  import opened SrfEvidence
  import opened SrfCanonical
  import opened SrfValidation
  import opened SrfValidationLaws
  import opened SrfStoreModel

  // ------------------------------------------------------------------- lists

  ghost predicate UniqueIds(ls: seq<SegmentList>) {
    forall i, j :: 0 <= i < j < |ls| ==> ls[i].content.id != ls[j].content.id
  }

  lemma FoundAt(ls: seq<SegmentList>, id: u64, i: nat)
    requires i < |ls| && ls[i].content.id == id && forall k :: 0 <= k < i ==> ls[k].content.id != id
    ensures Position(ls, id) == i
  {}

  lemma FoundNowhere(ls: seq<SegmentList>, id: u64)
    requires forall k :: 0 <= k < |ls| ==> ls[k].content.id != id
    ensures Position(ls, id) == |ls|
  {}

  lemma PositionUnique(ls: seq<SegmentList>, i: nat)
    requires UniqueIds(ls) && i < |ls|
    ensures Position(ls, ls[i].content.id) == i
  {
    var k := Position(ls, ls[i].content.id);
    assert k <= i;
  }

  /** The immutable part of a revision. */
  ghost predicate SameRevision(x: SegmentList, y: SegmentList) {
    && y.content == x.content && y.generation == x.generation && y.contentDigest == x.contentDigest
    && y.sequenceDigest == x.sequenceDigest && y.provenance == x.provenance
    && y.lineage.supersedes == x.lineage.supersedes
  }

  /** What may happen to a lineage between two commits: its revision stays, or is followed by the next one. */
  ghost predicate LineageStep(x: SegmentList, y: SegmentList) {
    && y.content.id == x.content.id
    && (|| (SameRevision(x, y) && (Closed(x.state) ==> Closed(y.state)) && (y.state == Active ==> x.state == Active))
        || (y.generation == x.generation + 1 && y.lineage.supersedes == x.generation && Open(x.state)))
  }

  /** Lineages are never dropped or reordered; new ones start at generation 1. */
  ghost predicate ListsStep(a: seq<SegmentList>, b: seq<SegmentList>) {
    && |a| <= |b|
    && (forall i :: 0 <= i < |a| ==> LineageStep(a[i], b[i]))
    && (forall i :: |a| <= i < |b| ==> b[i].generation == 1)
  }

  ghost predicate ActiveIsCurrent(ls: seq<SegmentList>) {
    forall i :: 0 <= i < |ls| ==> (ls[i].state == Active ==> ls[i].currentness == Current)
  }

  // ------------------------------------------------- what a validated draft knows

  lemma Accepted(cfg: Config, ctx: Context, shape: Shape, d: Draft, res: Resolved)
    requires cfg.limits.maxReasons >= 1 && DraftValid(cfg, ctx, shape, d, res)
    ensures forall c :: c in DraftChecks(cfg, ctx, shape, d, res) ==> !c.fails
  {
    var r := DraftRequest(cfg, ctx, shape, d, res);
    RequestOrdered(r);
    RealStoreCodes(d, res);
    CleanExactly(cfg.limits.maxReasons, DraftChecks(cfg, ctx, shape, d, res));
  }

  lemma RealStoreCodes(d: Draft, res: Resolved)
    ensures RealCodes(StoreChecks(d, res))
  {}

  /** The checks of one group, out of all the checks of a draft. */
  lemma AcceptedGroups(cfg: Config, ctx: Context, shape: Shape, d: Draft, res: Resolved)
    requires cfg.limits.maxReasons >= 1 && DraftValid(cfg, ctx, shape, d, res)
    ensures var r := DraftRequest(cfg, ctx, shape, d, res);
            && (forall c :: c in CallerChecks(r) ==> !c.fails)
            && (forall c :: c in EpochChecks(r) ==> !c.fails)
            && (forall c :: c in ListChecks(r) ==> !c.fails)
            && (forall c :: c in ProfileChecks(r) ==> !c.fails)
            && (forall c :: c in PolicyChecks(r) ==> !c.fails)
            && (forall c :: c in StructuralChecks(r) ==> !c.fails)
            && (forall c :: c in CapabilityChecks(r) ==> !c.fails)
            && (forall c :: c in TopologyChecks(r) ==> !c.fails)
            && (forall c :: c in PathChecks(r) ==> !c.fails)
            && (forall c :: c in RouteChecks(r) ==> !c.fails)
            && (forall c :: c in ConstraintChecks(r) ==> !c.fails)
            && (forall c :: c in ResourceChecks(r) ==> !c.fails)
            && (forall c :: c in StoreChecks(d, res) ==> !c.fails)
  {
    Accepted(cfg, ctx, shape, d, res);
    var r := DraftRequest(cfg, ctx, shape, d, res);
    GroupMembers(r);
    assert forall c :: c in RequestChecks(r) ==> c in DraftChecks(cfg, ctx, shape, d, res);
    assert forall c :: c in StoreChecks(d, res) ==> c in DraftChecks(cfg, ctx, shape, d, res);
  }

  lemma GroupMembers(r: Request)
    requires r.full
    ensures forall c :: c in RequestChecks(r) <==>
              || c in CallerChecks(r) || c in EpochChecks(r) || c in ListChecks(r) || c in EmptyChecks(r)
              || c in ProfileChecks(r) || c in PolicyChecks(r) || c in StructuralChecks(r) || c in CapabilityChecks(r)
              || c in TopologyChecks(r) || c in PathChecks(r) || c in RouteChecks(r) || c in ConstraintChecks(r)
              || c in ResourceChecks(r)
  {
    var a, b, d, e := IdentityChecks(r), ContentChecks(r), DependencyChecks(r), LastChecks(r);
    assert forall c :: c in RequestChecks(r) <==> c in a || c in b || c in d || c in e;
    assert forall c :: c in a <==> c in CallerChecks(r) || c in EpochChecks(r) || c in ListChecks(r);
    assert forall c :: c in b <==>
             c in EmptyChecks(r) || c in ProfileChecks(r) || c in PolicyChecks(r) || c in StructuralChecks(r);
    assert forall c :: c in d <==>
             c in CapabilityChecks(r) || c in TopologyChecks(r) || c in PathChecks(r) || c in RouteChecks(r);
    assert forall c :: c in e <==> c in ConstraintChecks(r) || c in ResourceChecks(r);
  }

  /** The writer of a validated draft: known, live, unfenced, in the captured epoch. */
  lemma AcceptedCaller(cfg: Config, ctx: Context, shape: Shape, d: Draft, res: Resolved)
    requires cfg.limits.maxReasons >= 1 && DraftValid(cfg, ctx, shape, d, res)
    ensures GoodCaller(ctx.caller, ctx.authority)
  {
    AcceptedGroups(cfg, ctx, shape, d, res);
    CallerMeaning(DraftRequest(cfg, ctx, shape, d, res));
  }

  ghost predicate GoodCaller(c: Caller, a: Authority) {
    && c.attempt != 0 && c.boot != 0 && c.boot !in a.fencedBoots && c.epoch == a.epoch && 0 < a.epoch < U64_MAX
    && exists p :: p in a.publishers && p.id == c.publisher && p.boot == c.boot && p.alive && !p.fenced
  }

  lemma CallerMeaning(r: Request)
    requires forall c :: c in CallerChecks(r) ==> !c.fails
    requires forall c :: c in EpochChecks(r) ==> !c.fails
    ensures GoodCaller(r.caller, r.authority)
  {
    var cs, es := CallerChecks(r), EpochChecks(r);
    assert es[0] in es;
    assert es[1] in es;
    assert cs[0] in cs && cs[1] in cs && cs[2] in cs && cs[4] in cs;
    var f := FindPublisher(r.authority.publishers, r.caller.publisher);
    if f.Some? {
      assert cs[5] in cs;
      assert f.value in r.authority.publishers;
    }
  }

  /** The revision a validated draft replaces: open, below the maximum generation, and exactly the expected one. */
  lemma AcceptedExisting(cfg: Config, ctx: Context, shape: Shape, d: Draft, res: Resolved)
    requires cfg.limits.maxReasons >= 1 && DraftValid(cfg, ctx, shape, d, res) && StoreShape(shape)
    ensures d.id != 0
    ensures res.existing.Some? ==> Open(res.existing.value.state)
                                   && res.existing.value.generation == d.expectedGeneration
    ensures res.existing.Some? <==> d.expectedGeneration != 0
    ensures shape.requireExisting ==> res.existing.Some?
    ensures shape.requireAbsent ==> res.existing.None?
  {
    AcceptedGroups(cfg, ctx, shape, d, res);
    var r := DraftRequest(cfg, ctx, shape, d, res);
    ListMeaning(r);
    if res.existing.Some? { ReplacementNeedsOpen(r.existing.value.state, shape); }
  }

  lemma ReplacementNeedsOpen(s: LifecycleState, shape: Shape)
    requires StoreShape(shape) && !shape.requireAbsent && Transition(s, shape.intent).Some?
    ensures Open(s)
  {}

  lemma ListMeaning(r: Request)
    requires forall c :: c in ListChecks(r) ==> !c.fails
    ensures r.listId != 0 && (r.requireExisting ==> r.existing.Some?) && (r.requireAbsent ==> r.existing.None?)
    ensures r.existing.None? ==> r.expectedGeneration == 0
    ensures r.existing.Some? ==> r.expectedGeneration == r.existing.value.generation != 0
    ensures r.existing.Some? ==> Transition(r.existing.value.state, r.intent).Some?
  {
    var cs := ListChecks(r);
    assert cs[0] in cs && cs[1] in cs && cs[2] in cs && cs[3] in cs;
    if r.existing.Some? {
      assert cs[4] in cs && cs[10] in cs;
    }
  }

  /** What a validated draft supersedes: it exists, has the named generation and may still be superseded. */
  lemma AcceptedSuperseded(cfg: Config, ctx: Context, shape: Shape, d: Draft, res: Resolved)
    requires cfg.limits.maxReasons >= 1 && DraftValid(cfg, ctx, shape, d, res) && d.supersedes != 0
    ensures res.superseded.Some? && res.superseded.value.generation == d.supersedesGeneration
    ensures Transition(res.superseded.value.state, SupersedeBegin).Some?
  {
    AcceptedGroups(cfg, ctx, shape, d, res);
    var cs := StoreChecks(d, res);
    var k := if res.existing.Some? then 1 else 0;
    assert cs[k] in cs;
    if res.superseded.Some? { assert cs[k + 3] in cs; }
  }

  lemma MissingProfileFails(r: Request)
    ensures r.profile.None? ==> exists c :: c in ProfileChecks(r) && c.fails
  {
    if r.profile.None? {
      var cs := ProfileChecks(r);
      var k := if r.profileId != 0 then 0 else 1;
      assert cs[k] in cs && cs[k].fails;
    }
  }

  lemma MissingPolicyFails(r: Request)
    ensures r.policy.None? && r.policyId != 0 ==> exists c :: c in PolicyChecks(r) && c.fails
  {
    if r.policy.None? && r.policyId != 0 {
      assert PolicyChecks(r)[0] in PolicyChecks(r) && PolicyChecks(r)[0].fails;
    }
  }

  /** A validated draft that names a policy has found it and obeys it. */
  lemma AcceptedPolicy(cfg: Config, ctx: Context, shape: Shape, d: Draft, res: Resolved)
    requires cfg.limits.maxReasons >= 1 && DraftValid(cfg, ctx, shape, d, res)
    ensures d.policy != 0 ==> res.policy.Some?
    ensures res.policy.Some? ==>
              ObeysPolicy(res.policy.value, d.policyGeneration, d.scope, d.profile, d.strictness, d.derived,
                          res.existing.Some?, d.segments)
  {
    hide ObeysPolicy; hide PolicyChecks; hide DraftValid; hide CallerChecks; hide EpochChecks; hide ListChecks;
    hide ProfileChecks; hide StructuralChecks; hide CapabilityChecks; hide TopologyChecks; hide PathChecks;
    hide RouteChecks; hide ConstraintChecks; hide ResourceChecks; hide StoreChecks;
    AcceptedGroups(cfg, ctx, shape, d, res);
    PolicyExactly(DraftRequest(cfg, ctx, shape, d, res));
  }

  lemma AcceptedProfile(cfg: Config, ctx: Context, shape: Shape, d: Draft, res: Resolved)
    requires cfg.limits.maxReasons >= 1 && DraftValid(cfg, ctx, shape, d, res)
    ensures res.profile.Some? && res.profile.value.generation != 0
    ensures d.policy != 0 ==> res.policy.Some?
    ensures forall k :: 0 <= k < |d.segments| ==> |d.segments[k].payload| <= cfg.limits.maxPayloadBytes
    ensures |d.segments| <= cfg.limits.maxSegmentsPerList
  {
    AcceptedGroups(cfg, ctx, shape, d, res);
    var r := DraftRequest(cfg, ctx, shape, d, res);
    var cs, rs := ProfileChecks(r), ResourceChecks(r);
    MissingProfileFails(r);
    MissingPolicyFails(r);
    if res.profile.Some? {
      var h := ProfileHead(r, res.profile.value);
      assert h[1] in h && h[1] in cs;
    }
    assert rs[0] in rs;
    GatherMembers(PayloadBlocks(r, |r.segments|));
    forall k | 0 <= k < |d.segments| ensures |d.segments[k].payload| <= cfg.limits.maxPayloadBytes {
      var b := PayloadBlock(r.limits, r.segments[k], k);
      assert b[0] in b && b == PayloadBlocks(r, |r.segments|)[k];
      assert b[0] in Gather(PayloadBlocks(r, |r.segments|));
      assert b[0] in rs;
    }
  }

  // --------------------------------------------- validation and refresh agree

  lemma CapabilityMeaning(r: Request, e: Evidence, p: Profile)
    requires r.profile == Some(p) && r.evidence == Some(e)
    requires forall c :: c in CapabilityChecks(r) ==> !c.fails
    ensures r.capability != 0 ==> r.capability == e.capability
    ensures forall k :: 0 <= k < |p.capabilities| ==> CapabilityCurrent(e, p.capabilities[k])
  {
    var cs, n := CapabilityChecks(r), |p.capabilities|;
    assert cs[0] in cs;
    var parts := CapabilityBlocks(e, p.capabilities, n);
    GatherMembers(parts);
    forall k | 0 <= k < n ensures CapabilityCurrent(e, p.capabilities[k]) {
      var b := CapabilityBlock(e, p.capabilities[k]);
      assert b == parts[k];
      assert forall c :: c in b ==> c in Gather(parts) && c in cs;
      assert b[0] in b;
      assert |b| == 2 ==> b[1] in b;
    }
  }

  lemma TopologyMeaning(r: Request, e: Evidence)
    requires r.evidence == Some(e)
    requires forall c :: c in TopologyChecks(r) ==> !c.fails
    ensures r.topology != 0 ==> r.topology == e.topology
    ensures forall k :: 0 <= k < |r.segments| ==> AdjacencyCurrent(e, r.segments[k])
  {
    var cs, n := TopologyChecks(r), |r.segments|;
    assert cs[0] in cs && cs[1] in cs;
    var parts := TopologyBlocks(e, r.segments, n);
    GatherMembers(parts);
    forall k | 0 <= k < n ensures AdjacencyCurrent(e, r.segments[k]) {
      if r.segments[k].kind.KindAdjacency? {
        var b := TopologyBlock(e, r.segments[k], k);
        assert b == parts[k];
        assert forall c :: c in b ==> c in Gather(parts) && c in cs;
        assert b[0] in b;
      }
    }
  }

  lemma BindingMeaning(r: Request, e: Evidence)
    requires r.evidence == Some(e)
    requires forall c :: c in PathChecks(r) ==> !c.fails
    requires forall c :: c in RouteChecks(r) ==> !c.fails
    requires forall c :: c in ConstraintChecks(r) ==> !c.fails
    ensures r.path != 0 ==> var x := FindPath(e.paths, r.path); x.Some? && x.value.authority == r.pathAuthority
    ensures r.route != 0 ==> var x := FindRoute(e.routes, r.route); x.Some? && x.value.generation == r.routeGeneration
    ensures r.constraint != 0 ==>
              var x := FindConstraint(e.constraints, r.constraint);
              x.Some? && x.value.generation == r.constraintGeneration
  {
    var ps, rs, ks := PathChecks(r), RouteChecks(r), ConstraintChecks(r);
    assert r.path != 0 ==> ps[1] in ps;
    assert r.route != 0 ==> rs[1] in rs;
    assert r.constraint != 0 ==> ks[1] in ks;
  }

  /** Two independently written predicates agree: whatever full validation accepts, refresh finds current as long as
      the evidence, the registry and the epoch are the validated ones and the writer is not fenced. */
  lemma ValidatedIsCurrent(cfg: Config, ctx: Context, shape: Shape, d: Draft, ls: seq<SegmentList>, reg: Registry,
                           auth: Authority)
    requires cfg.limits.maxReasons >= 1
    requires DraftValid(cfg, ctx, shape, d, Resolve(ls, reg.profiles, reg.policies, d))
    requires auth.epoch == ctx.authority.epoch && ctx.caller.boot !in auth.fencedBoots
    ensures var l := MakeList(cfg, ctx, d, Resolve(ls, reg.profiles, reg.policies, d));
            Recheck(reg, auth, auth.epoch, ctx.evidence, l) == Current
            && RefreshOne(reg, auth, auth.epoch, ctx.evidence, l) == l
  {
    hide CallerChecks; hide EpochChecks; hide ListChecks; hide ProfileChecks; hide PolicyChecks; hide StructuralChecks;
    hide CapabilityChecks; hide TopologyChecks; hide PathChecks; hide RouteChecks; hide ConstraintChecks;
    hide ResourceChecks; hide StoreChecks; hide DraftOutcome; hide ContentDigest; hide SequenceDigest; hide Recheck;
    var res := Resolve(ls, reg.profiles, reg.policies, d);
    var r := DraftRequest(cfg, ctx, shape, d, res);
    var e := ctx.evidence;
    AcceptedGroups(cfg, ctx, shape, d, res);
    AcceptedProfile(cfg, ctx, shape, d, res);
    var p := res.profile.value;
    CapabilityMeaning(r, e, p);
    TopologyMeaning(r, e);
    BindingMeaning(r, e);
    var l := MakeList(cfg, ctx, d, res);
    forall k | 0 <= k < |l.content.segments| ensures AdjacencyCurrent(e, l.content.segments[k]) {
      assert l.content.segments[k] == Canonical(d.segments[k]);
      assert AdjacencyCurrent(e, d.segments[k]);
    }
    assert FindProfile(reg.profiles, l.content.profile) == Some(p);
    RecheckCurrent(reg, auth, e, l, p);
  }

  lemma RecheckCurrent(reg: Registry, auth: Authority, e: Evidence, l: SegmentList, p: Profile)
    requires l.authority.boot !in auth.fencedBoots && l.authority.epoch == auth.epoch
    requires FindProfile(reg.profiles, l.content.profile) == Some(p) && p.generation == l.content.profileGeneration
    requires l.content.policy != 0 ==>
               var q := FindPolicy(reg.policies, l.content.policy);
               q.Some? && q.value.generation == l.content.policyGeneration
    requires l.content.capability != 0 ==> l.content.capability == e.capability
    requires l.content.topology != 0 ==> l.content.topology == e.topology
    requires forall k :: 0 <= k < |p.capabilities| ==> CapabilityCurrent(e, p.capabilities[k])
    requires forall k :: 0 <= k < |l.content.segments| ==> AdjacencyCurrent(e, l.content.segments[k])
    requires l.content.path != 0 ==>
               var x := FindPath(e.paths, l.content.path); x.Some? && x.value.authority == l.content.pathAuthority
    requires l.content.route != 0 ==>
               var x := FindRoute(e.routes, l.content.route); x.Some? && x.value.generation == l.content.routeGeneration
    requires l.content.constraint != 0 ==>
               var x := FindConstraint(e.constraints, l.content.constraint);
               x.Some? && x.value.generation == l.content.constraintGeneration
    ensures Recheck(reg, auth, auth.epoch, e, l) == Current
  {}

  /** Whatever a list was bound to and has moved since, refresh notices: the list is not current and not active. */
  lemma RefreshDetectsEveryMove(reg: Registry, auth: Authority, epoch: u64, e: Evidence, l: SegmentList, p: Profile)
    requires !Skipped(l)
    requires var c := l.content;
             || l.authority.boot in auth.fencedBoots || FindProfile(reg.profiles, c.profile).None?
             || (FindProfile(reg.profiles, c.profile) == Some(p)
                 && (p.generation != c.profileGeneration
                     || exists key :: key in p.capabilities && !CapabilityCurrent(e, key)))
             || (c.policy != 0 && (FindPolicy(reg.policies, c.policy).None?
                                   || FindPolicy(reg.policies, c.policy).value.generation != c.policyGeneration))
             || (c.capability != 0 && c.capability != e.capability) || (c.topology != 0 && c.topology != e.topology)
             || (exists s :: s in c.segments && !AdjacencyCurrent(e, s))
             || (c.path != 0 && (FindPath(e.paths, c.path).None?
                                 || FindPath(e.paths, c.path).value.authority != c.pathAuthority))
             || (c.route != 0 && (FindRoute(e.routes, c.route).None?
                                  || FindRoute(e.routes, c.route).value.generation != c.routeGeneration))
             || (c.constraint != 0 && (FindConstraint(e.constraints, c.constraint).None?
                                       || FindConstraint(e.constraints, c.constraint).value.generation
                                          != c.constraintGeneration))
             || (l.authority.epoch != 0 && epoch != 0 && l.authority.epoch != epoch)
    ensures var r := RefreshOne(reg, auth, epoch, e, l); r.currentness != Current && r.state != Active
  {
    hide CapabilityCurrent; hide AdjacencyCurrent;
    if key :| key in p.capabilities && !CapabilityCurrent(e, key) {
      var k :| 0 <= k < |p.capabilities| && p.capabilities[k] == key;
    }
    if s :| s in l.content.segments && !AdjacencyCurrent(e, s) {
      var k :| 0 <= k < |l.content.segments| && l.content.segments[k] == s;
    }
  }

  /** A second refresh with nothing moved changes nothing, so it neither saves nor bumps the revision. */
  lemma RefreshIdempotent(reg: Registry, auth: Authority, epoch: u64, e: Evidence, s: DurableState)
    ensures var once := RefreshState(reg, auth, epoch, e, s);
            RefreshState(reg, auth, epoch, e, once) == once
  {
    var ls := RefreshLists(reg, auth, epoch, e, s.lists);
    hide RefreshOne;
    forall i | 0 <= i < |ls| ensures RefreshOne(reg, auth, epoch, e, ls[i]) == ls[i] {
      RefreshOneIdempotent(reg, auth, epoch, e, s.lists[i]);
    }
    assert RefreshLists(reg, auth, epoch, e, ls) == ls;
  }

  lemma RefreshOneIdempotent(reg: Registry, auth: Authority, epoch: u64, e: Evidence, l: SegmentList)
    ensures var once := RefreshOne(reg, auth, epoch, e, l); RefreshOne(reg, auth, epoch, e, once) == once
  {
    RecheckReadsBinding(reg, auth, epoch, e, l, RefreshOne(reg, auth, epoch, e, l));
    hide Recheck;
  }

  /** The recheck reads what a list is bound to and who wrote it, never its state or its currentness. */
  lemma RecheckReadsBinding(reg: Registry, auth: Authority, epoch: u64, e: Evidence, l: SegmentList, m: SegmentList)
    requires l.content == m.content && l.authority == m.authority
    ensures Recheck(reg, auth, epoch, e, l) == Recheck(reg, auth, epoch, e, m)
  {}

  /** Refresh never touches a revision, never activates and never opens a lineage. */
  lemma RefreshIsLineageStep(reg: Registry, auth: Authority, epoch: u64, e: Evidence, s: DurableState)
    ensures var t := RefreshState(reg, auth, epoch, e, s);
            ListsStep(s.lists, t.lists) && |t.lists| == |s.lists|
            && (forall i :: 0 <= i < |s.lists| ==> SameRevision(s.lists[i], t.lists[i])
                                                   && t.lists[i].authority == s.lists[i].authority)
            && (ActiveIsCurrent(s.lists) ==> ActiveIsCurrent(t.lists))
            && (t == s || t.revision == s.revision + 1)
  {}
}
