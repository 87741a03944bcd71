/** What a committed revision is bound to, field by field, and what becomes of it when the fabric moves on
    (`make_list` and `recheck_currentness` in `src/store.cpp`). */
module SrfRevisions {
  import opened SrfTypes
  import opened SrfBytes
  import opened SrfLifecycle
  import opened SrfEvidence
  import opened SrfCanonical
  import opened SrfValidation
  import opened SrfStoreModel
  import opened SrfStoreLaws
  import opened SrfAuthority
  import opened SrfRegistry
  import opened SrfRecovery
  import opened SrfValidationLaws
  import opened SrfValidationExact

  // -------------------------------------------------------------------- a new revision

  ghost predicate Adjacent(ss: seq<Segment>) { exists s :: s in ss && s.kind == KindAdjacency }

  /** The same segments, every missing encoding filled in with the one of the kind. */
  ghost predicate Filled(a: seq<Segment>, b: seq<Segment>) {
    |b| == |a| && forall i :: 0 <= i < |a| ==>
      && b[i] == a[i].(encoding := b[i].encoding)
      && (if a[i].encoding == EncUnset then b[i].encoding.Code() == a[i].kind.Code()
          else b[i].encoding == a[i].encoding)
  }

  /** The content of a revision: what the draft says, the generations of the profile and the policy that were found, and
      of topology and capabilities the observed generation if the draft names one or the content needs one. */
  ghost predicate Contains(d: Draft, e: Evidence, p: Profile, q: Option<Policy>, c: Content) {
    && c.id == d.id && c.scope == d.scope && c.strictness == d.strictness
    && c.profile == d.profile && c.profileGeneration == p.generation
    && c.policy == d.policy && c.policyGeneration == (if q.Some? then q.value.generation else 0)
    && c.topology == (if d.topology != 0 || Adjacent(d.segments) then e.topology else 0)
    && c.capability == (if d.capability != 0 || p.capabilities != [] then e.capability else 0)
    && c.path == d.path && c.pathAuthority == d.pathAuthority
    && c.route == d.route && c.routeGeneration == d.routeGeneration
    && c.constraint == d.constraint && c.constraintGeneration == d.constraintGeneration
    && Filled(d.segments, c.segments)
  }

  /** Where a revision comes from: the bindings of its content, and its writer. */
  ghost predicate ComesFrom(c: Content, w: Caller, p: Provenance) {
    && p.path == c.path && p.pathAuthority == c.pathAuthority && p.route == c.route
    && p.routeGeneration == c.routeGeneration && p.constraint == c.constraint
    && p.constraintGeneration == c.constraintGeneration && p.policyGeneration == c.policyGeneration
    && p.topology == c.topology && p.capability == c.capability
    && p.publisher == w.publisher && p.boot == w.boot && p.epoch == w.epoch
  }

  /** Everything a revision is bound to for good. */
  ghost predicate BoundTo(cfg: Config, ctx: Context, d: Draft, res: Resolved, l: SegmentList)
    requires res.profile.Some?
  {
    var w, width := ctx.caller, res.profile.value.payloadWidth;
    && Contains(d, ctx.evidence, res.profile.value, res.policy, l.content) && ComesFrom(l.content, w, l.provenance)
    && l.lineage.supersedes == (if res.existing.Some? then res.existing.value.generation else 0)
    && l.generation == l.lineage.supersedes + 1
    && l.authority.publisher == w.publisher && l.authority.boot == w.boot && l.authority.epoch == w.epoch
    && l.authority.attempt == w.attempt
    && l.contentDigest == cfg.digest(ContentBytes(l.content, width))
    && l.sequenceDigest == cfg.digest(SequenceBytes(l.content.segments, width))
  }

  lemma AdjacentExactly(ss: seq<Segment>)
    ensures HasAdjacency(ss) <==> Adjacent(ss)
  {
    HasAdjacencyMeaning(ss);
  }

  /** What a valid draft has to do with the profile, the fabric and the epoch. */
  ghost predicate Grounded(ctx: Context, d: Draft, p: Profile) {
    && p.id == d.profile && ctx.caller.epoch == ctx.authority.epoch
    && (d.topology != 0 ==> d.topology == ctx.evidence.topology)
    && (d.capability != 0 ==> d.capability == ctx.evidence.capability)
  }

  lemma ValidIsGrounded(cfg: Config, ctx: Context, shape: Shape, d: Draft, res: Resolved)
    requires cfg.limits.maxReasons >= 1 && DraftValid(cfg, ctx, shape, d, res)
    ensures res.profile.Some? && Grounded(ctx, d, res.profile.value)
  {
    DraftValidExactly(cfg, ctx, shape, d, res);
    hide DraftValid; hide LineageStands; hide SupersededStands; hide ObeysPolicy; hide SizesStand; hide CallerStands;
    hide SegmentStands; hide PathStands; hide RouteStands; hide ConstraintStands; hide AdjacencyStands;
    hide CapabilityStands; hide RepeatsStand; hide SegmentFits;
  }

  lemma ContentMade(ctx: Context, d: Draft, res: Resolved)
    requires res.profile.Some? && Grounded(ctx, d, res.profile.value)
    ensures Contains(d, ctx.evidence, res.profile.value, res.policy, NewContent(d, ctx.evidence, res))
  {
    hide HasAdjacency; hide Adjacent;
    AdjacentExactly(d.segments);
  }

  /** A valid draft becomes exactly this revision, which is active, current and of the next store revision. */
  lemma RevisionMade(cfg: Config, ctx: Context, shape: Shape, d: Draft, res: Resolved)
    requires cfg.limits.maxReasons >= 1 && DraftValid(cfg, ctx, shape, d, res)
    ensures res.profile.Some?
    ensures var l := MakeList(cfg, ctx, d, res);
            && BoundTo(cfg, ctx, d, res, l) && l.state == Active && l.currentness == Current
            && l.lineage.supersededBy == 0 && l.lineage.history == 0 && l.committedRevision == ctx.storeRevision + 1
  {
    hide DraftOutcome; hide MakeList; hide BoundTo; hide Grounded;
    ValidIsGrounded(cfg, ctx, shape, d, res);
    ListMade(cfg, ctx, d, res);
  }

  lemma ListMade(cfg: Config, ctx: Context, d: Draft, res: Resolved)
    requires res.profile.Some? && Grounded(ctx, d, res.profile.value)
    requires res.existing.Some? ==> res.existing.value.generation < U64_MAX
    ensures var l := MakeList(cfg, ctx, d, res);
            && BoundTo(cfg, ctx, d, res, l) && l.state == Active && l.currentness == Current
            && l.lineage.supersededBy == 0 && l.lineage.history == 0 && l.committedRevision == ctx.storeRevision + 1
  {
    ContentMade(ctx, d, res);
    hide NewContent; hide Contains; hide ContentBytes; hide SequenceBytes;
  }

  /** The digest of a content is over all of it: at one width, the bytes are those of another content exactly when every
      field agrees and the segments are pairwise semantically equal. */
  lemma ContentBytesExactly(a: Content, b: Content, sa: seq<Segment>, sb: seq<Segment>, width: nat)
    requires a.segments == CanonicalizeAll(sa) && b.segments == CanonicalizeAll(sb)
    requires WithinWidth(sa, width) && WithinWidth(sb, width)
    ensures ContentBytes(a, width) == ContentBytes(b, width) <==>
            && a == b.(segments := a.segments) && |sa| == |sb|
            && forall i :: 0 <= i < |sa| ==> SemanticEqual(sa[i], sb[i], width)
  {
    hide ContentHead; hide Flat; hide BodyTokens; hide SemanticEqual; hide Times; hide SequenceBytes;
    var x, y := ContentHead(a, width), ContentHead(b, width);
    var s, t := BodyTokens(a.segments, width), BodyTokens(b.segments, width);
    FlatConcat(x, s); FlatConcat(y, t);
    HeadsAgree(a, b, width); HeadsAgree(b, a, width);
    FlatLength(x, y);
    BodyLength(a.segments, width); BodyLength(b.segments, width);
    SequenceBytesInjective(sa, sb, width);
    SequenceSplit(a.segments, width); SequenceSplit(b.segments, width);
    if |sa| < |sb| { TimesGrows(|sa|, |sb|, 78 + width); }
    if |sb| < |sa| { TimesGrows(|sb|, |sa|, 78 + width); }
    if ContentBytes(a, width) == ContentBytes(b, width) {
      SplitEqual(Flat(x), Flat(s), Flat(y), Flat(t));
      FlatInjective(x, y);
    }
    if |sa| == |sb| && forall i :: 0 <= i < |sa| ==> SemanticEqual(sa[i], sb[i], width) {
      var head := LE(SEQUENCE_MAGIC, 2) + LE(|sa| % 0x1_0000_0000, 4);
      SplitEqual(head, Flat(s), head, Flat(t));
    }
  }

  lemma HeadsAgree(a: Content, b: Content, width: nat)
    ensures SameShape(ContentHead(a, width), ContentHead(b, width)) && AllFit(ContentHead(a, width))
    ensures ContentHead(a, width) == ContentHead(b, width) <==>
            a == b.(segments := a.segments) && |a.segments| % 0x1_0000_0000 == |b.segments| % 0x1_0000_0000
  {
    Widths();
    ContentHeadAt(a, width);
    ContentHeadAt(b, width);
    hide ContentHead;
    var x, y := ContentHead(a, width), ContentHead(b, width);
    if a == b.(segments := a.segments) && |a.segments| % 0x1_0000_0000 == |b.segments| % 0x1_0000_0000 {
      assert x == y;
    }
  }

  lemma ContentHeadAt(c: Content, width: nat)
    ensures var h := ContentHead(c, width);
            && |h| == 18 && h[0] == Num(2, CONTENT_MAGIC) && h[1] == Num(4, width % 0x1_0000_0000)
            && h[2] == Num(8, c.id) && h[3] == Num(8, c.scope) && h[4] == Num(8, c.profile)
            && h[5] == Num(8, c.profileGeneration) && h[6] == Num(8, c.policy) && h[7] == Num(8, c.policyGeneration)
            && h[8] == Num(1, c.strictness.Code()) && h[9] == Num(8, c.topology) && h[10] == Num(8, c.capability)
            && h[11] == Num(8, c.path) && h[12] == Num(8, c.pathAuthority) && h[13] == Num(8, c.route)
            && h[14] == Num(8, c.routeGeneration) && h[15] == Num(8, c.constraint)
            && h[16] == Num(8, c.constraintGeneration) && h[17] == Num(4, |c.segments| % 0x1_0000_0000)
  {}

  // ------------------------------------------------------------------------- refresh

  /** Whether what a list is bound to has moved, dependency by dependency.  The capabilities are those of the profile as
      it now is. */
  ghost predicate Moved(reg: Registry, auth: Authority, epoch: u64, e: Evidence, l: SegmentList, why: Currentness) {
    var c := l.content;
    match why
    case FencedPublisher => l.authority.boot in auth.fencedBoots
    case StaleProfile =>
      !exists p :: First(reg.profiles, ProfileKey, c.profile, p) && p.generation == c.profileGeneration
    case StalePolicy =>
      c.policy != 0
      && !exists q :: First(reg.policies, PolicyKey, c.policy, q) && q.generation == c.policyGeneration
    case StaleCapability =>
      || (c.capability != 0 && c.capability != e.capability)
      || exists p, key :: First(reg.profiles, ProfileKey, c.profile, p) && key in p.capabilities
                          && !CapabilityStands(e, key)
    case StaleTopology =>
      (c.topology != 0 && c.topology != e.topology) || exists s :: s in c.segments && !AdjacencyStands(e, s)
    case StalePathAuthority =>
      c.path != 0 && !exists x :: First(e.paths, PathKey, c.path, x) && x.authority == c.pathAuthority
    case StaleRouteBinding =>
      c.route != 0 && !exists x :: First(e.routes, RouteKey, c.route, x) && x.generation == c.routeGeneration
    case StaleConstraintBinding =>
      c.constraint != 0
      && !exists x :: First(e.constraints, ConstraintKey, c.constraint, x) && x.generation == c.constraintGeneration
    case StaleEpoch => l.authority.epoch != 0 && epoch != 0 && l.authority.epoch != epoch
    case _ => false
  }

  /** The order in which the dependencies are looked at. */
  const ORDER: seq<Currentness> :=
    [FencedPublisher, StaleProfile, StalePolicy, StaleCapability, StaleTopology, StalePathAuthority, StaleRouteBinding,
     StaleConstraintBinding, StaleEpoch]

  lemma ProfileMoved(reg: Registry, auth: Authority, epoch: u64, e: Evidence, l: SegmentList)
    ensures var p := FindProfile(reg.profiles, l.content.profile);
            Moved(reg, auth, epoch, e, l, StaleProfile) <==>
              p.None? || p.value.generation != l.content.profileGeneration
  {
    ProfileFound(reg.profiles, l.content.profile);
    hide First;
  }

  lemma PolicyMoved(reg: Registry, auth: Authority, epoch: u64, e: Evidence, l: SegmentList)
    ensures var q := FindPolicy(reg.policies, l.content.policy);
            Moved(reg, auth, epoch, e, l, StalePolicy) <==>
              l.content.policy != 0 && (q.None? || q.value.generation != l.content.policyGeneration)
  {
    PolicyFound(reg.policies, l.content.policy);
    hide First;
  }

  lemma CurrentCapability(e: Evidence, key: u64)
    ensures CapabilityCurrent(e, key) <==> CapabilityStands(e, key)
  {
    CapabilityFound(e.capabilities, key);
    hide First;
  }

  lemma CurrentAdjacency(e: Evidence, s: Segment)
    ensures AdjacencyCurrent(e, s) <==> AdjacencyStands(e, s)
  {
    AdjacencyFound(e.adjacencies, s.adjacency);
    hide First;
  }

  lemma CapabilityMoved(reg: Registry, auth: Authority, epoch: u64, e: Evidence, l: SegmentList, p: Profile)
    requires FindProfile(reg.profiles, l.content.profile) == Some(p)
    ensures Moved(reg, auth, epoch, e, l, StaleCapability) <==>
            || (l.content.capability != 0 && l.content.capability != e.capability)
            || exists k :: 0 <= k < |p.capabilities| && !CapabilityCurrent(e, p.capabilities[k])
  {
    ProfileFound(reg.profiles, l.content.profile);
    hide First; hide CapabilityCurrent; hide CapabilityStands; hide FindProfile;
    forall key ensures CapabilityCurrent(e, key) <==> CapabilityStands(e, key) { CurrentCapability(e, key); }
    assert First(reg.profiles, ProfileKey, l.content.profile, p);
    if key :| key in p.capabilities && !CapabilityStands(e, key) {
      var k :| 0 <= k < |p.capabilities| && p.capabilities[k] == key;
    }
    if k :| 0 <= k < |p.capabilities| && !CapabilityCurrent(e, p.capabilities[k]) {
      assert p.capabilities[k] in p.capabilities && !CapabilityStands(e, p.capabilities[k]);
    }
  }

  lemma TopologyMoved(reg: Registry, auth: Authority, epoch: u64, e: Evidence, l: SegmentList)
    ensures var c := l.content;
            Moved(reg, auth, epoch, e, l, StaleTopology) <==>
              || (c.topology != 0 && c.topology != e.topology)
              || exists k :: 0 <= k < |c.segments| && !AdjacencyCurrent(e, c.segments[k])
  {
    hide AdjacencyCurrent; hide AdjacencyStands;
    var ss := l.content.segments;
    forall s ensures AdjacencyCurrent(e, s) <==> AdjacencyStands(e, s) { CurrentAdjacency(e, s); }
    if s :| s in ss && !AdjacencyStands(e, s) {
      var k :| 0 <= k < |ss| && ss[k] == s;
    }
    if k :| 0 <= k < |ss| && !AdjacencyCurrent(e, ss[k]) { assert ss[k] in ss && !AdjacencyStands(e, ss[k]); }
  }

  lemma BindingsMoved(reg: Registry, auth: Authority, epoch: u64, e: Evidence, l: SegmentList)
    ensures var c := l.content;
            && (Moved(reg, auth, epoch, e, l, StalePathAuthority) <==>
                  c.path != 0 && (var x := FindPath(e.paths, c.path); x.None? || x.value.authority != c.pathAuthority))
            && (Moved(reg, auth, epoch, e, l, StaleRouteBinding) <==>
                  c.route != 0
                  && (var x := FindRoute(e.routes, c.route); x.None? || x.value.generation != c.routeGeneration))
            && (Moved(reg, auth, epoch, e, l, StaleConstraintBinding) <==>
                  c.constraint != 0
                  && (var x := FindConstraint(e.constraints, c.constraint);
                      x.None? || x.value.generation != c.constraintGeneration))
  {
    PathFound(e.paths, l.content.path); RouteFound(e.routes, l.content.route);
    ConstraintFound(e.constraints, l.content.constraint);
    hide First;
  }

  /** The first dependency from the `k`-th on that moved. */
  ghost function FirstMoved(reg: Registry, auth: Authority, epoch: u64, e: Evidence, l: SegmentList, k: nat)
    : Currentness
    decreases 9 - k
  {
    if k >= 9 then Current
    else if Moved(reg, auth, epoch, e, l, ORDER[k]) then ORDER[k]
    else FirstMoved(reg, auth, epoch, e, l, k + 1)
  }

  lemma OrderApart()
    ensures forall j, k :: 0 <= j < k < 9 ==> ORDER[j] != ORDER[k]
    ensures forall j :: 0 <= j < 9 ==> ORDER[j] != Current
  {}

  lemma {:induction false} FirstMovedMeaning(reg: Registry, auth: Authority, epoch: u64, e: Evidence, l: SegmentList,
                                             from: nat)
    requires from <= 9
    ensures var c := FirstMoved(reg, auth, epoch, e, l, from);
            && (c == Current <==> forall k :: from <= k < 9 ==> !Moved(reg, auth, epoch, e, l, ORDER[k]))
            && forall k :: from <= k < 9 ==>
                 (c == ORDER[k] <==> Moved(reg, auth, epoch, e, l, ORDER[k])
                                     && forall j :: from <= j < k ==> !Moved(reg, auth, epoch, e, l, ORDER[j]))
    decreases 9 - from
  {
    hide Moved;
    OrderApart();
    if from < 9 { FirstMovedMeaning(reg, auth, epoch, e, l, from + 1); FirstIsLater(reg, auth, epoch, e, l, from + 1); }
  }

  lemma {:induction false} FirstIsLater(reg: Registry, auth: Authority, epoch: u64, e: Evidence, l: SegmentList,
                                        from: nat)
    requires from <= 9
    ensures var c := FirstMoved(reg, auth, epoch, e, l, from);
            c == Current || exists k :: from <= k < 9 && c == ORDER[k]
    decreases 9 - from
  {
    hide Moved;
    if from < 9 { FirstIsLater(reg, auth, epoch, e, l, from + 1); }
  }

  /** The recheck names the first dependency that moved, in the order above, and is current exactly when none did. */
  lemma RecheckExactly(reg: Registry, auth: Authority, epoch: u64, e: Evidence, l: SegmentList)
    ensures Recheck(reg, auth, epoch, e, l) == Current <==>
            forall k :: 0 <= k < 9 ==> !Moved(reg, auth, epoch, e, l, ORDER[k])
    ensures forall k :: 0 <= k < 9 ==>
              (Recheck(reg, auth, epoch, e, l) == ORDER[k] <==>
               && Moved(reg, auth, epoch, e, l, ORDER[k])
               && forall j :: 0 <= j < k ==> !Moved(reg, auth, epoch, e, l, ORDER[j]))
  {
    hide Moved; hide Recheck; hide FirstMoved;
    RecheckIsFirst(reg, auth, epoch, e, l);
    FirstMovedMeaning(reg, auth, epoch, e, l, 0);
  }

  lemma RecheckIsFirst(reg: Registry, auth: Authority, epoch: u64, e: Evidence, l: SegmentList)
    ensures Recheck(reg, auth, epoch, e, l) == FirstMoved(reg, auth, epoch, e, l, 0)
  {
    hide Moved; hide Recheck;
    RecheckInOrder(reg, auth, epoch, e, l);
    assert FirstMoved(reg, auth, epoch, e, l, 6) ==
           if Moved(reg, auth, epoch, e, l, StaleRouteBinding) then StaleRouteBinding
           else if Moved(reg, auth, epoch, e, l, StaleConstraintBinding) then StaleConstraintBinding
           else if Moved(reg, auth, epoch, e, l, StaleEpoch) then StaleEpoch
           else Current;
    assert FirstMoved(reg, auth, epoch, e, l, 3) ==
           if Moved(reg, auth, epoch, e, l, StaleCapability) then StaleCapability
           else if Moved(reg, auth, epoch, e, l, StaleTopology) then StaleTopology
           else if Moved(reg, auth, epoch, e, l, StalePathAuthority) then StalePathAuthority
           else FirstMoved(reg, auth, epoch, e, l, 6);
    assert FirstMoved(reg, auth, epoch, e, l, 0) ==
           if Moved(reg, auth, epoch, e, l, FencedPublisher) then FencedPublisher
           else if Moved(reg, auth, epoch, e, l, StaleProfile) then StaleProfile
           else if Moved(reg, auth, epoch, e, l, StalePolicy) then StalePolicy
           else FirstMoved(reg, auth, epoch, e, l, 3);
  }

  lemma RecheckInOrder(reg: Registry, auth: Authority, epoch: u64, e: Evidence, l: SegmentList)
    ensures Recheck(reg, auth, epoch, e, l) ==
            if Moved(reg, auth, epoch, e, l, FencedPublisher) then FencedPublisher
            else if Moved(reg, auth, epoch, e, l, StaleProfile) then StaleProfile
            else if Moved(reg, auth, epoch, e, l, StalePolicy) then StalePolicy
            else if Moved(reg, auth, epoch, e, l, StaleCapability) then StaleCapability
            else if Moved(reg, auth, epoch, e, l, StaleTopology) then StaleTopology
            else if Moved(reg, auth, epoch, e, l, StalePathAuthority) then StalePathAuthority
            else if Moved(reg, auth, epoch, e, l, StaleRouteBinding) then StaleRouteBinding
            else if Moved(reg, auth, epoch, e, l, StaleConstraintBinding) then StaleConstraintBinding
            else if Moved(reg, auth, epoch, e, l, StaleEpoch) then StaleEpoch
            else Current
  {
    hide Moved; hide FindProfile; hide FindPolicy; hide FindPath; hide FindRoute; hide FindConstraint;
    hide CapabilityCurrent; hide AdjacencyCurrent;
    var p := FindProfile(reg.profiles, l.content.profile);
    ProfileMoved(reg, auth, epoch, e, l); PolicyMoved(reg, auth, epoch, e, l); TopologyMoved(reg, auth, epoch, e, l);
    BindingsMoved(reg, auth, epoch, e, l);
    if p.Some? { CapabilityMoved(reg, auth, epoch, e, l, p.value); }
    WriterMoved(reg, auth, epoch, e, l);
  }

  lemma WriterMoved(reg: Registry, auth: Authority, epoch: u64, e: Evidence, l: SegmentList)
    ensures Moved(reg, auth, epoch, e, l, FencedPublisher) <==> l.authority.boot in auth.fencedBoots
    ensures Moved(reg, auth, epoch, e, l, StaleEpoch) <==>
            l.authority.epoch != 0 && epoch != 0 && l.authority.epoch != epoch
  {}

  /** What refresh makes of one list: a finished one is left alone; of any other one the currentness becomes that of the
      recheck, and an active one that is no longer current needs revalidation. */
  lemma RefreshedExactly(reg: Registry, auth: Authority, epoch: u64, e: Evidence, l: SegmentList)
    ensures var y := RefreshOne(reg, auth, epoch, e, l);
            var moved := exists k :: 0 <= k < 9 && Moved(reg, auth, epoch, e, l, ORDER[k]);
            if l.state in {Withdrawn, Superseded, Revoked, Retired} then y == l
            else && y == l.(state := y.state, currentness := y.currentness)
                 && (y.currentness == Current <==> !moved)
                 && y.state == if l.state == Active && moved then RevalidationRequired else l.state
  {
    RecheckExactly(reg, auth, epoch, e, l);
    hide Moved; hide Recheck;
  }

  /** A list that shows its evidence: it is finished, or neither current nor active once what it is bound to moved. */
  ghost predicate Shows(e: Evidence, l: SegmentList) {
    l.state in {Withdrawn, Superseded, Revoked, Retired}
    || (EvidenceMoved(e, l.content) ==> l.currentness != Current && l.state != Active)
  }

  ghost predicate EvidenceMoved(e: Evidence, c: Content) {
    || (c.topology != 0 && c.topology != e.topology) || (c.capability != 0 && c.capability != e.capability)
    || (exists s :: s in c.segments && !AdjacencyStands(e, s))
    || (c.path != 0 && !exists x :: First(e.paths, PathKey, c.path, x) && x.authority == c.pathAuthority)
    || (c.route != 0 && !exists x :: First(e.routes, RouteKey, c.route, x) && x.generation == c.routeGeneration)
    || (c.constraint != 0
        && !exists x :: First(e.constraints, ConstraintKey, c.constraint, x) && x.generation == c.constraintGeneration)
  }

  lemma RefreshShows(reg: Registry, auth: Authority, epoch: u64, e: Evidence, l: SegmentList)
    ensures Shows(e, RefreshOne(reg, auth, epoch, e, l))
  {
    hide RefreshOne; hide First; hide AdjacencyStands; hide CapabilityStands;
    RefreshedExactly(reg, auth, epoch, e, l);
    if EvidenceMoved(e, l.content) {
      assert ORDER[3] == StaleCapability && ORDER[4] == StaleTopology && ORDER[5] == StalePathAuthority;
      assert ORDER[6] == StaleRouteBinding && ORDER[7] == StaleConstraintBinding;
      assert exists k :: 3 <= k < 8 && Moved(reg, auth, epoch, e, l, ORDER[k]);
    }
  }

  /** Content with an adjacency, or under a profile that requires a capability, is bound to the generation that was
      observed.  Once the fabric is at another one, its evidence has moved. */
  lemma NeededIsBound(d: Draft, seen: Evidence, p: Profile, q: Option<Policy>, c: Content, e: Evidence)
    requires Contains(d, seen, p, q, c)
    requires || (Adjacent(d.segments) && seen.topology !in {0, e.topology})
             || (p.capabilities != [] && seen.capability !in {0, e.capability})
    ensures EvidenceMoved(e, c)
  {
    hide Filled; hide AdjacencyStands; hide First; hide Adjacent;
  }

  /** Every revision a batch makes is of that kind. */
  lemma RevisionShowsMoves(cfg: Config, ctx: Context, shape: Shape, d: Draft, res: Resolved, reg: Registry,
                           auth: Authority, epoch: u64, e: Evidence)
    requires cfg.limits.maxReasons >= 1 && DraftValid(cfg, ctx, shape, d, res)
    requires || (Adjacent(d.segments) && ctx.evidence.topology !in {0, e.topology})
             || (res.profile.Some? && res.profile.value.capabilities != []
                 && ctx.evidence.capability !in {0, e.capability})
    ensures var y := RefreshOne(reg, auth, epoch, e, MakeList(cfg, ctx, d, res));
            y.currentness != Current && y.state == RevalidationRequired
  {
    hide DraftValid; hide MakeList; hide EvidenceMoved; hide Contains; hide ComesFrom; hide RefreshOne;
    hide ContentBytes; hide SequenceBytes; hide Adjacent;
    ValidNotExhausted(cfg, ctx, shape, d, res);
    RevisionMade(cfg, ctx, shape, d, res);
    var l := MakeList(cfg, ctx, d, res);
    NeededIsBound(d, ctx.evidence, res.profile.value, res.policy, l.content, e);
    RefreshShows(reg, auth, epoch, e, l);
    hide Moved;
    RefreshedExactly(reg, auth, epoch, e, l);
  }

  /** When the move of the topology generation alone is seen at the first refresh, nothing else having moved: if and
      only if the revision was bound to one, that is unless it had no use for one or the fabric had none to give. */
  lemma TopologyMoveSeen(cfg: Config, ctx: Context, shape: Shape, d: Draft, ls: seq<SegmentList>, reg: Registry,
                         auth: Authority, g: u64)
    requires cfg.limits.maxReasons >= 1 && g != ctx.evidence.topology
    requires DraftValid(cfg, ctx, shape, d, Resolve(ls, reg.profiles, reg.policies, d))
    requires auth.epoch == ctx.authority.epoch && ctx.caller.boot !in auth.fencedBoots
    ensures var l := MakeList(cfg, ctx, d, Resolve(ls, reg.profiles, reg.policies, d));
            var y := RefreshOne(reg, auth, auth.epoch, ctx.evidence.(topology := g), l);
            if (d.topology != 0 || Adjacent(d.segments)) && ctx.evidence.topology != 0
            then y.currentness == StaleTopology && y.state == RevalidationRequired else y == l
  {
    hide DraftValid; hide MakeList; hide Contains; hide ComesFrom; hide RefreshOne; hide Resolve; hide Moved;
    hide ContentBytes; hide SequenceBytes; hide Adjacent;
    var res := Resolve(ls, reg.profiles, reg.policies, d);
    ValidNotExhausted(cfg, ctx, shape, d, res);
    ValidatedIsCurrent(cfg, ctx, shape, d, ls, reg, auth);
    RevisionMade(cfg, ctx, shape, d, res);
    var l := MakeList(cfg, ctx, d, res);
    BoundTopology(d, ctx.evidence, res.profile.value, res.policy, l.content);
    OnlyTopologyMoves(reg, auth, auth.epoch, ctx.evidence, l, g);
    RefreshStale(reg, auth, auth.epoch, ctx.evidence.(topology := g), l);
  }

  lemma BoundTopology(d: Draft, e: Evidence, p: Profile, q: Option<Policy>, c: Content)
    requires Contains(d, e, p, q, c)
    ensures c.topology == if d.topology != 0 || Adjacent(d.segments) then e.topology else 0
  {
    hide Filled; hide Adjacent;
  }

  lemma RefreshStale(reg: Registry, auth: Authority, epoch: u64, e: Evidence, l: SegmentList)
    requires l.state == Active && l.currentness == Current
    ensures var y := RefreshOne(reg, auth, epoch, e, l);
            && y.currentness == Recheck(reg, auth, epoch, e, l)
            && (y.currentness == Current ==> y == l) && (y.currentness != Current ==> y.state == RevalidationRequired)
  {
    hide Recheck;
  }

  lemma OnlyTopologyMoves(reg: Registry, auth: Authority, epoch: u64, e: Evidence, l: SegmentList, g: u64)
    requires Recheck(reg, auth, epoch, e, l) == Current && g != e.topology
    ensures Recheck(reg, auth, epoch, e.(topology := g), l)
            == if l.content.topology != 0 then StaleTopology else Current
  {
    var f := e.(topology := g);
    hide Recheck;
    RecheckExactly(reg, auth, epoch, e, l);
    RecheckExactly(reg, auth, epoch, f, l);
    MovesAlike(reg, auth, epoch, e, l, g);
    hide Moved;
    assert ORDER[4] == StaleTopology;
    assert Recheck(reg, auth, epoch, f, l) == ORDER[4] <==>
           && Moved(reg, auth, epoch, f, l, ORDER[4])
           && forall j :: 0 <= j < 4 ==> !Moved(reg, auth, epoch, f, l, ORDER[j]);
    assert Moved(reg, auth, epoch, e, l, ORDER[4]) == false;
  }

  /** No other dependency looks at the topology generation. */
  lemma MovesAlike(reg: Registry, auth: Authority, epoch: u64, e: Evidence, l: SegmentList, g: u64)
    ensures forall k :: 0 <= k < 9 && k != 4 ==>
              (Moved(reg, auth, epoch, e.(topology := g), l, ORDER[k]) <==> Moved(reg, auth, epoch, e, l, ORDER[k]))
    ensures !Moved(reg, auth, epoch, e, l, ORDER[4]) ==>
              (Moved(reg, auth, epoch, e.(topology := g), l, ORDER[4]) <==>
                 l.content.topology != 0 && l.content.topology != g)
    ensures !Moved(reg, auth, epoch, e, l, ORDER[4]) ==> l.content.topology in {0, e.topology}
  {
    hide First;
    var f := e.(topology := g);
    forall s ensures AdjacencyStands(f, s) <==> AdjacencyStands(e, s) {}
    forall key ensures CapabilityStands(f, key) <==> CapabilityStands(e, key) {}
    hide AdjacencyStands; hide CapabilityStands;
    assert ORDER[0] == FencedPublisher && ORDER[1] == StaleProfile && ORDER[2] == StalePolicy;
    assert ORDER[3] == StaleCapability && ORDER[4] == StaleTopology && ORDER[5] == StalePathAuthority;
    assert ORDER[6] == StaleRouteBinding && ORDER[7] == StaleConstraintBinding && ORDER[8] == StaleEpoch;
  }

  lemma ValidNotExhausted(cfg: Config, ctx: Context, shape: Shape, d: Draft, res: Resolved)
    requires DraftValid(cfg, ctx, shape, d, res)
    ensures res.existing.Some? ==> res.existing.value.generation < U64_MAX
  {}

  // ------------------------------------------------------------------------ recovery

  function RecoveredState(s: LifecycleState): LifecycleState {
    match s
    case Declared => Declared
    case Validating => Declared
    case Active => RevalidationRequired
    case RevalidationRequired => RevalidationRequired
    case Withdrawing => Withdrawn
    case Withdrawn => Withdrawn
    case Superseded => Superseded
    case Revoked => Revoked
    case Retired => Retired
  }

  /** What a restart makes of a list: a half-done validation is given up, a half-done withdrawal completed, what was
      active must be validated again, and nothing else of it changes. */
  lemma RecoveredExactly(l: SegmentList)
    ensures var y := RecoverList(l);
            && y == l.(state := y.state, currentness := y.currentness) && y.state == RecoveredState(l.state)
            && y.currentness == if l.state in {Active, RevalidationRequired} then NeedsRevalidation else Unknown
  {
    TransitionExactly(l.state, RecoveryLoad, RecoveredState(l.state));
  }

  /** What a restart makes of an image without repeated entries: the same tables and records, one epoch and one revision
      later, every publisher dead, and every list recovered as above. */
  lemma RestartExactly(image: DurableState)
    requires UniqueProfiles(image.profiles) && UniquePolicies(image.policies) && UniquePublishers(image.publishers)
    requires 0 < image.epoch
    ensures Restart(image).Some? <==> image.epoch < U64_MAX
    ensures Restart(image).Some? ==>
              var now := Restart(image).value;
              && now.reg == Registry(image.profiles, image.policies, 0)
              && now.auth.epoch == now.st.epoch == image.epoch + 1 && now.st.revision == image.revision + 1
              && now.auth.publishers == now.st.publishers == Dead(image.publishers)
              && now.st.fencedBoots == now.auth.fencedBoots && now.st.profiles == image.profiles
              && now.st.policies == image.policies && now.st.history == image.history
              && now.st.attempts == image.attempts && |now.st.lists| == |image.lists|
              && forall i :: 0 <= i < |image.lists| ==> now.st.lists[i] == RecoverList(image.lists[i])
  {
    hide RecoverList; hide RestoreBoots; hide AddBoots;
    RestoredProfiles(image.profiles); RestoredPolicies(image.policies); PublishersReturnDead(image.publishers);
  }

  // ------------------------------------------------------------------- one mutation

  /** A history entry that tells of this list, written while the store was at this revision. */
  ghost predicate TellsOf(h: HistoryEntry, l: SegmentList, revision: nat) {
    && h.list == l.content.id && h.generation == l.generation && h.state == l.state && h.currentness == l.currentness
    && h.digest == l.contentDigest && h.revision == revision + 1
  }

  ghost predicate EndsWith(h: seq<HistoryEntry>, l: SegmentList, revision: nat) {
    h != [] && TellsOf(h[|h| - 1], l, revision)
  }

  lemma AppendedExactly(lim: Limits, s: DurableState, l: SegmentList)
    ensures var t := AppendHistory(lim, s, l);
            && t == s.(history := t.history)
            && (NextHistoryId(s.history) == 0 ==> t == s)
            && (NextHistoryId(s.history) != 0 ==>
                  EndsWith(t.history, l, s.revision) && t.history[|t.history| - 1].id == NextHistoryId(s.history))
  {}

  /** Marking the superseded list: nothing to do when it is missing, refused when it was superseded, revoked or retired;
      otherwise that list names its heir and no other one changes. */
  lemma SupersedeExactly(lim: Limits, s: DurableState, target: u64, heir: u64)
    ensures var x := FindList(s.lists, target);
            && (Supersede(lim, s, target, heir).None? <==>
                  x.Some? && x.value.state in {Superseded, Revoked, Retired})
            && (x.None? ==> Supersede(lim, s, target, heir) == Some(s))
    ensures Supersede(lim, s, target, heir).Some? && FindList(s.lists, target).Some? ==>
              var i, t := Position(s.lists, target), Supersede(lim, s, target, heir).value;
              && i < |s.lists| == |t.lists|
              && t.lists[i] == s.lists[i].(state := Superseded, currentness := Unknown, committedRevision := s.revision,
                                           lineage := s.lists[i].lineage.(supersededBy := heir))
              && (forall k :: 0 <= k < |s.lists| && k != i ==> t.lists[k] == s.lists[k])
              && t == s.(lists := t.lists, history := t.history)
              && (NextHistoryId(s.history) != 0 ==> EndsWith(t.history, t.lists[i], s.revision))
  {
    hide Transition; hide AppendHistory;
    var i := Position(s.lists, target);
    if i < |s.lists| {
      SupersedeStates(s.lists[i].state);
      var other := s.lists[i].(state := Superseded, lineage := s.lists[i].lineage.(supersededBy := heir),
                               currentness := Unknown, committedRevision := s.revision);
      AppendedExactly(lim, s.(lists := s.lists[i := other]), other);
    }
  }

  lemma SupersedeStates(s: LifecycleState)
    ensures Transition(s, SupersedeBegin) == if s in {Superseded, Revoked, Retired} then None else Some(Superseded)
  {
    if s !in {Superseded, Revoked, Retired} { TransitionExactly(s, SupersedeBegin, Superseded); }
  }

  /** Putting a new revision in place: it stands where the old one stood, or at the end, and no other list changes; the
      history tells of the old one as superseded and then of the new one. */
  lemma InstallExactly(lim: Limits, s: DurableState, pm: Prepared)
    requires lim.maxHistory >= 1
    ensures var i, t := Position(s.lists, pm.id), Install(lim, s, pm);
            && |t.lists| == (if i < |s.lists| then |s.lists| else |s.lists| + 1) && t.lists[i] == pm.list
            && (forall k :: 0 <= k < |s.lists| && k != i ==> t.lists[k] == s.lists[k])
            && t == s.(lists := t.lists, history := t.history)
            && (NextHistoryId(s.history) != 0 && NextHistoryId(s.history) != U64_MAX ==>
                  EndsWith(t.history, pm.list, s.revision))
            && (i < |s.lists| && lim.maxHistory >= 2 && 0 < NextHistoryId(s.history) < U64_MAX ==>
                  |t.history| >= 2
                  && TellsOf(t.history[|t.history| - 2],
                             s.lists[i].(state := Superseded, currentness := Unknown), s.revision))
  {
    var i := Position(s.lists, pm.id);
    if i < |s.lists| {
      var replaced := s.lists[i].(state := Superseded, currentness := Unknown);
      AppendedExactly(lim, s, replaced);
      var s1 := AppendHistory(lim, s, replaced);
      AppendedExactly(lim, s1.(lists := s1.lists[i := pm.list]), pm.list);
    } else {
      AppendedExactly(lim, s.(lists := s.lists + [pm.list]), pm.list);
    }
  }

  /** One prepared mutation leaves its own record under the attempt: the list, its new generation and the payload of the
      whole batch. */
  lemma AppliedRecord(lim: Limits, s: DurableState, pm: Prepared, attempt: u64, payload: Digest)
    requires ApplyOne(lim, s, pm, attempt, payload).Some?
    ensures var t := ApplyOne(lim, s, pm, attempt, payload).value;
            var k := AttemptPosition(t.attempts, attempt);
            && k < |t.attempts| && t.attempts[k].list == pm.id && t.attempts[k].payload == payload
            && t.attempts[k].generation == pm.list.generation && t.attempts[k].committed
            && forall j :: 0 <= j < |s.attempts| && s.attempts[j].attempt != attempt ==> t.attempts[j] == s.attempts[j]
  {
    hide AppendHistory;
    var r := Attempt(attempt, pm.id, payload, pm.list.generation, true);
    ApplyOneAttempts(lim, s, pm, attempt, payload);
    var k := AttemptPosition(s.attempts, attempt);
    var t := RecordAttempt(s.attempts, r);
    assert t[k] == r && forall j :: 0 <= j < k ==> t[j].attempt != attempt;
  }

  lemma ApplyOneAttempts(lim: Limits, s: DurableState, pm: Prepared, attempt: u64, payload: Digest)
    requires ApplyOne(lim, s, pm, attempt, payload).Some?
    ensures ApplyOne(lim, s, pm, attempt, payload).value.attempts
            == RecordAttempt(s.attempts, Attempt(attempt, pm.id, payload, pm.list.generation, true))
  {
    hide RecordAttempt; hide Transition;
  }
}
