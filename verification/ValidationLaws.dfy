/** What the reason list of a request means, whatever its bound. */
module SrfValidationLaws {
  import opened SrfTypes
  import opened SrfReasons
  import opened SrfEvidence
  import opened SrfValidation

  /** Checks whose phases never go down, all between `lo` and `hi`. */
  ghost predicate Block(cs: seq<Check>, lo: nat, hi: nat) {
    && (forall i, j :: 0 <= i < j < |cs| ==> PhaseOf(cs[i].reason.code) <= PhaseOf(cs[j].reason.code))
    && (forall c :: c in cs ==> lo <= PhaseOf(c.reason.code) <= hi && c.reason.code != LIMIT_REASONS)
  }

  ghost predicate InPhase(cs: seq<Check>, p: nat) {
    forall c :: c in cs ==> PhaseOf(c.reason.code) == p && c.reason.code != LIMIT_REASONS
  }

  lemma OnePhase(cs: seq<Check>, p: nat)
    requires InPhase(cs, p)
    ensures Block(cs, p, p)
  {
    forall i, j | 0 <= i < j < |cs| ensures PhaseOf(cs[i].reason.code) <= PhaseOf(cs[j].reason.code) {
      assert cs[i] in cs && cs[j] in cs;
    }
  }

  lemma Blocks(a: seq<Check>, b: seq<Check>, lo: nat, mid: nat, mid': nat, hi: nat)
    requires Block(a, lo, mid) && Block(b, mid', hi) && lo <= mid <= mid' <= hi
    ensures Block(a + b, lo, hi)
  {
    var s := a + b;
    forall i, j | 0 <= i < j < |s| ensures PhaseOf(s[i].reason.code) <= PhaseOf(s[j].reason.code) {
      if i < |a| <= j { assert a[i] in a && b[j - |a|] in b; }
    }
    forall c | c in s ensures lo <= PhaseOf(c.reason.code) <= hi && c.reason.code != LIMIT_REASONS {
      assert c in a || c in b;
    }
  }

  lemma GatherInPhase(parts: seq<seq<Check>>, p: nat)
    requires forall i :: 0 <= i < |parts| ==> InPhase(parts[i], p)
    ensures InPhase(Gather(parts), p)
  {
    GatherMembers(parts);
  }

  lemma ProfileHeadPhase(r: Request, p: Profile)
    ensures InPhase(ProfileHead(r, p), 5)
  {}

  lemma ProfileSegmentPhase(r: Request, p: Profile, i: nat)
    requires i < |r.segments|
    ensures InPhase(ProfileSegment(r, p, i), 5)
  {
    hide MaskHas;
  }

  lemma ProfileRowPhase(r: Request, p: Profile, i: nat)
    requires i < |r.segments|
    ensures InPhase(Gather(ProfilePairs(r, p, i, i)), 5)
  {
    hide RepeatAt;
    GatherInPhase(ProfilePairs(r, p, i, i), 5);
  }

  lemma JoinPhase(a: seq<Check>, b: seq<Check>, p: nat)
    requires InPhase(a, p) && InPhase(b, p)
    ensures InPhase(a + b, p)
  {
    hide PhaseOf;
  }

  lemma ProfilePhase(r: Request)
    ensures InPhase(ProfileChecks(r), 5)
  {
    if r.profile.Some? {
      hide InPhase; hide ProfileHead; hide ProfileSegment; hide Gather;
      var p, n := r.profile.value, Scan(r);
      ProfileHeadPhase(r, p);
      forall i | 0 <= i < n ensures InPhase(ProfileSegments(r, p, n)[i], 5) { ProfileSegmentPhase(r, p, i); }
      GatherInPhase(ProfileSegments(r, p, n), 5);
      forall i | 0 <= i < n ensures InPhase(ProfileRows(r, p, n)[i], 5) { ProfileRowPhase(r, p, i); }
      GatherInPhase(ProfileRows(r, p, n), 5);
      NothingInPhase(5);
      JoinPhase(ProfileHead(r, p), Gather(ProfileSegments(r, p, n)), 5);
      JoinPhase(ProfileHead(r, p) + Gather(ProfileSegments(r, p, n)), ProfileRepeats(r, p), 5);
    }
  }

  lemma NothingInPhase(p: nat)
    ensures InPhase([], p)
  {}

  lemma PolicyPhase(r: Request)
    ensures InPhase(PolicyChecks(r), 6)
  {
    if r.policy.Some? {
      var p := r.policy.value;
      assert InPhase(PolicyHead(r, p), 6);
      GatherInPhase(PolicyRequired(r, p, |p.required|), 6);
      GatherInPhase(PolicyForbidden(r, p, |p.forbidden|), 6);
      GatherInPhase(PolicyKinds(r, p, |r.segments|), 6);
    }
  }

  lemma ShapePhase(s: Segment, i: nat)
    ensures InPhase(ShapeBlock(s, i), 7)
  {}

  lemma EntityPhase(e: Evidence, s: Segment, i: nat)
    ensures InPhase(EntityBlock(e, s, i), 7)
  {}

  lemma PairPhase(r: Request, i: nat)
    requires i < |r.segments|
    ensures InPhase(Gather(StructuralPairs(r, i, i)), 7)
  {
    GatherInPhase(StructuralPairs(r, i, i), 7);
  }

  lemma StructuralPhase(r: Request)
    ensures InPhase(StructuralChecks(r), 7)
  {
    var n := Scan(r);
    forall i | 0 <= i < n ensures InPhase(StructuralSegments(r, n)[i], 7) {
      ShapePhase(r.segments[i], i);
      if r.evidence.Some? { EntityPhase(r.evidence.value, r.segments[i], i); }
    }
    GatherInPhase(StructuralSegments(r, n), 7);
    forall i | 0 <= i < n ensures InPhase(StructuralRows(r, n)[i], 7) {
      PairPhase(r, i);
    }
    GatherInPhase(StructuralRows(r, n), 7);
  }

  lemma CapabilityPhase(r: Request)
    ensures InPhase(CapabilityChecks(r), 8)
  {
    if r.profile.Some? && r.evidence.Some? {
      GatherInPhase(CapabilityBlocks(r.evidence.value, r.profile.value.capabilities,
                    |r.profile.value.capabilities|), 8);
    }
  }

  lemma TopologyPhase(r: Request)
    ensures InPhase(TopologyChecks(r), 9)
  {
    if r.evidence.Some? { GatherInPhase(TopologyBlocks(r.evidence.value, r.segments, |r.segments|), 9); }
  }

  lemma ResourcePhase(r: Request)
    ensures InPhase(ResourceChecks(r), 13)
  {
    GatherInPhase(PayloadBlocks(r, |r.segments|), 13);
  }

  lemma CallerPhase(r: Request)
    ensures InPhase(CallerChecks(r), 2)
  {}

  lemma EpochPhase(r: Request)
    ensures InPhase(EpochChecks(r), 3)
  {}

  lemma ListPhase(r: Request)
    ensures InPhase(ListChecks(r), 4)
  {}

  lemma IdentityBlock(r: Request)
    ensures Block(IdentityChecks(r), 2, 4)
  {
    CallerPhase(r); EpochPhase(r); ListPhase(r);
    OnePhase(CallerChecks(r), 2);
    OnePhase(EpochChecks(r), 3);
    OnePhase(ListChecks(r), 4);
    Blocks(CallerChecks(r), EpochChecks(r), 2, 2, 3, 3);
    Blocks(CallerChecks(r) + EpochChecks(r), ListChecks(r), 2, 3, 4, 4);
  }

  lemma ContentBlock(r: Request)
    ensures Block(ContentChecks(r), 4, 7)
  {
    OnePhase(EmptyChecks(r), 4);
    ProfilePhase(r); OnePhase(ProfileChecks(r), 5);
    PolicyPhase(r); OnePhase(PolicyChecks(r), 6);
    StructuralPhase(r); OnePhase(StructuralChecks(r), 7);
    Blocks(EmptyChecks(r), ProfileChecks(r), 4, 4, 5, 5);
    Blocks(EmptyChecks(r) + ProfileChecks(r), PolicyChecks(r), 4, 5, 6, 6);
    Blocks(EmptyChecks(r) + ProfileChecks(r) + PolicyChecks(r), StructuralChecks(r), 4, 6, 7, 7);
  }

  lemma DependencyBlock(r: Request)
    ensures Block(DependencyChecks(r), 8, 11)
  {
    CapabilityPhase(r); OnePhase(CapabilityChecks(r), 8);
    TopologyPhase(r); OnePhase(TopologyChecks(r), 9);
    OnePhase(PathChecks(r), 10);
    OnePhase(RouteChecks(r), 11);
    hide CapabilityChecks; hide TopologyChecks; hide PathChecks; hide RouteChecks;
    Blocks(CapabilityChecks(r), TopologyChecks(r), 8, 8, 9, 9);
    Blocks(CapabilityChecks(r) + TopologyChecks(r), PathChecks(r), 8, 9, 10, 10);
    Blocks(CapabilityChecks(r) + TopologyChecks(r) + PathChecks(r), RouteChecks(r), 8, 10, 11, 11);
  }

  lemma LastBlock(r: Request)
    ensures Block(LastChecks(r), 12, 13)
  {
    OnePhase(ConstraintChecks(r), 12);
    ResourcePhase(r); OnePhase(ResourceChecks(r), 13);
    Blocks(ConstraintChecks(r), ResourceChecks(r), 12, 12, 13, 13);
  }

  /** A request's checks run in ascending phase order. */
  lemma RequestOrdered(r: Request)
    ensures PhaseOrdered(RequestChecks(r)) && RealCodes(RequestChecks(r))
  {
    IdentityBlock(r);
    ContentBlock(r);
    DependencyBlock(r);
    LastBlock(r);
    Chain(IdentityChecks(r), ContentChecks(r), DependencyChecks(r), LastChecks(r));
    if !r.full {
      Blocks(IdentityChecks(r), [], 2, 4, 4, 13);
    }
    WholeBlock(RequestChecks(r));
  }

  lemma Chain(a: seq<Check>, b: seq<Check>, c: seq<Check>, d: seq<Check>)
    requires Block(a, 2, 4) && Block(b, 4, 7) && Block(c, 8, 11) && Block(d, 12, 13)
    ensures Block(a + (b + c + d), 2, 13)
  {
    Blocks(b, c, 4, 7, 8, 11);
    Blocks(b + c, d, 4, 11, 12, 13);
    Blocks(a, b + c + d, 2, 4, 4, 13);
  }

  lemma WholeBlock(cs: seq<Check>)
    requires Block(cs, 2, 13)
    ensures PhaseOrdered(cs) && RealCodes(cs)
  {
    forall i | 0 <= i < |cs| ensures PhaseOf(cs[i].reason.code) <= 13 { assert cs[i] in cs; }
  }

  /** Fixed rejection precedence: with room for two reasons, the reported primary phase is the phase of the first
      defect the validation met, and no defect of the request lies in an earlier phase, truncated or not. */
  lemma EarliestDefectDominates(r: Request, first: nat)
    requires r.limits.maxReasons >= 2
    requires first < |RequestChecks(r)| && RequestChecks(r)[first].fails
    requires forall k :: 0 <= k < first ==> !RequestChecks(r)[k].fails
    ensures Leads(Collect(r.limits.maxReasons, RequestChecks(r)).reasons,
                  PhaseOf(RequestChecks(r)[first].reason.code))
    ensures forall k :: 0 <= k < |RequestChecks(r)| && RequestChecks(r)[k].fails ==>
              PhaseOf(RequestChecks(r)[first].reason.code) <= PhaseOf(RequestChecks(r)[k].reason.code)
  {
    hide IdentityChecks; hide ContentChecks; hide DependencyChecks; hide LastChecks; hide Collect; hide RequestChecks;
    RequestOrdered(r);
    PrimaryPhaseEarliest(r.limits.maxReasons, RequestChecks(r), first);
  }

  /** With room for one reason a request is accepted exactly when no check fails; with room for none, always. */
  lemma AcceptedExactly(r: Request)
    ensures r.limits.maxReasons >= 1 ==>
              (Collect(r.limits.maxReasons, RequestChecks(r)).reasons == [] <==>
               forall c :: c in RequestChecks(r) ==> !c.fails)
    ensures r.limits.maxReasons == 0 ==> Collect(0, RequestChecks(r)).reasons == []
  {
    RequestOrdered(r);
    if r.limits.maxReasons >= 1 {
      CleanExactly(r.limits.maxReasons, RequestChecks(r));
    } else {
      ZeroBoundAcceptsEverything(RequestChecks(r));
    }
  }

  /** A sequence a policy has nothing against: its own generation and owner, a permitted profile, length, change and
      strictness, every required entity there, no forbidden one, and only kinds in its mask, when it has one. */
  ghost predicate ObeysPolicy(p: Policy, generation: u64, scope: u64, profile: u64, strictness: Strictness,
                              derived: bool, replacing: bool, ss: seq<Segment>) {
    && p.generation != 0 && (generation != 0 ==> generation == p.generation)
    && (p.ownerScope != 0 ==> p.ownerScope == scope) && (p.allowedProfiles != [] ==> profile in p.allowedProfiles)
    && (p.maxDepth != 0 ==> |ss| <= p.maxDepth) && (replacing ==> p.allowReplacement)
    && (derived ==> p.allowDerivation) && (p.requireStrict ==> strictness == Strict)
    && (forall id :: id in p.required ==> HasId(ss, id))
    && (forall id :: id in p.forbidden ==> !HasId(ss, id))
    && (p.kindsMask != 0 ==> forall s :: s in ss ==> s.kind.KindInvalid? || MaskHas(p.kindsMask, s.kind))
  }

  ghost predicate PolicyObeyed(r: Request, p: Policy) {
    ObeysPolicy(p, r.policyGeneration, r.scope, r.profileId, r.strictness, r.derived, r.existing.Some?, r.segments)
  }

  lemma FirstWithIdMeaning(ss: seq<Segment>, id: u64)
    ensures FirstWithId(ss, id) < |ss| <==> HasId(ss, id)
  {
    if ss != [] {
      FirstWithIdMeaning(ss[1..], id);
      if i :| 0 <= i < |ss| && ss[i].id == id && i > 0 { assert ss[1..][i - 1].id == id; }
      if j :| 0 <= j < |ss[1..]| && ss[1..][j].id == id { assert ss[j + 1].id == id; }
    }
  }

  predicate AllPass(cs: seq<Check>) { forall c :: c in cs ==> !c.fails }

  lemma AllPassTogether(a: seq<Check>, b: seq<Check>)
    ensures AllPass(a + b) <==> AllPass(a) && AllPass(b)
  {
    assert forall c :: c in a ==> c in a + b;
    assert forall c :: c in b ==> c in a + b;
  }

  lemma AllPassGathered(parts: seq<seq<Check>>)
    ensures AllPass(Gather(parts)) <==> forall i :: 0 <= i < |parts| ==> AllPass(parts[i])
  {
    GatherMembers(parts);
  }

  lemma PolicyHeadMeaning(r: Request, p: Policy)
    ensures AllPass(PolicyHead(r, p)) <==> PolicyObeyed(r, p.(required := [], forbidden := [], kindsMask := 0))
  {
    var h := PolicyHead(r, p);
    assert h[0] in h && h[1] in h && h[2] in h && h[3] in h && h[4] in h && h[5] in h && h[6] in h && h[7] in h;
  }

  lemma PolicyEntitiesMeaning(r: Request, p: Policy)
    ensures AllPass(Gather(PolicyRequired(r, p, |p.required|))) <==>
            forall id :: id in p.required ==> HasId(r.segments, id)
    ensures AllPass(Gather(PolicyForbidden(r, p, |p.forbidden|))) <==>
            forall id :: id in p.forbidden ==> !HasId(r.segments, id)
  {
    hide HasId;
    var a, b := PolicyRequired(r, p, |p.required|), PolicyForbidden(r, p, |p.forbidden|);
    AllPassGathered(a);
    AllPassGathered(b);
    forall k | 0 <= k < |p.required| ensures AllPass(a[k]) <==> HasId(r.segments, p.required[k]) {
      assert a[k][0] in a[k];
    }
    forall k | 0 <= k < |p.forbidden| ensures AllPass(b[k]) <==> !HasId(r.segments, p.forbidden[k]) {
      FirstWithIdMeaning(r.segments, p.forbidden[k]);
      assert b[k][0] in b[k];
    }
    assert forall id :: id in p.required ==> exists k :: 0 <= k < |p.required| && p.required[k] == id;
    assert forall id :: id in p.forbidden ==> exists k :: 0 <= k < |p.forbidden| && p.forbidden[k] == id;
  }

  lemma PolicyKindsMeaning(r: Request, p: Policy)
    ensures AllPass(Gather(PolicyKinds(r, p, |r.segments|))) <==>
            forall s :: s in r.segments ==> s.kind.KindInvalid? || MaskHas(p.kindsMask, s.kind)
  {
    hide MaskHas;
    var a := PolicyKinds(r, p, |r.segments|);
    AllPassGathered(a);
    forall i | 0 <= i < |r.segments|
      ensures AllPass(a[i]) <==> r.segments[i].kind.KindInvalid? || MaskHas(p.kindsMask, r.segments[i].kind)
    {
      if !r.segments[i].kind.KindInvalid? { assert a[i][0] in a[i]; }
    }
    assert forall s :: s in r.segments ==> exists i :: 0 <= i < |r.segments| && r.segments[i] == s;
  }

  /** The policy phase reports nothing exactly when there is no policy to obey or the sequence obeys it. */
  lemma PolicyExactly(r: Request)
    ensures AllPass(PolicyChecks(r)) <==>
            match r.policy case None => r.policyId == 0 case Some(p) => PolicyObeyed(r, p)
  {
    hide PolicyHead; hide PolicyRequired; hide PolicyForbidden; hide PolicyKinds; hide Gather; hide HasId; hide MaskHas;
    match r.policy
    case None => assert PolicyChecks(r)[0] in PolicyChecks(r);
    case Some(p) =>
      var a, b, c := PolicyHead(r, p), Gather(PolicyRequired(r, p, |p.required|)),
                     Gather(PolicyForbidden(r, p, |p.forbidden|));
      var d := if p.kindsMask == 0 then [] else Gather(PolicyKinds(r, p, |r.segments|));
      AllPassTogether(a, b); AllPassTogether(a + b, c); AllPassTogether(a + b + c, d);
      PolicyHeadMeaning(r, p); PolicyEntitiesMeaning(r, p); PolicyKindsMeaning(r, p);
  }
}
