/** Which reasons validation gives: the findings of every group, for whole requests and for the drafts of a batch. */
module SrfValidationReasons {
  import opened SrfTypes
  import opened SrfReasons
  import opened SrfEvidence
  import opened SrfCanonical
  import opened SrfValidation
  import opened SrfValidationLaws
  import opened SrfStoreModel
  import opened SrfStoreLaws
  import opened SrfValidationExact

  // --------------------------------------------------------------- profile and policy

  lemma FailsTogether(a: seq<Check>, b: seq<Check>, x: Reason)
    ensures Fails(a + b, x) <==> Fails(a, x) || Fails(b, x)
  {}

  /** An earlier segment, next to the one at `i` or further back, is the same. */
  ghost predicate Repeated(ss: seq<Segment>, width: nat, i: nat, consecutive: bool)
    requires i < |ss|
  {
    exists j :: 0 <= j < i && (j == i - 1 <==> consecutive) && SemanticEqual(ss[j], ss[i], width)
  }

  ghost predicate ProfileHeadFinding(r: Request, p: Profile, x: Reason) {
    || (x == Reason(PROFILE_UNKNOWN, 0, r.profileId) && p.id != r.profileId)
    || (x == Reason(PROFILE_GENERATION_INVALID, 0, 0) && p.generation == 0)
    || (x == Reason(PROFILE_GENERATION_MISMATCH, 0, p.generation) && r.profileGeneration !in {0, p.generation})
    || (x == Reason(PROFILE_EMPTY, 0, 0) && r.segments == [] && !p.allowEmpty)
    || (x == Reason(PROFILE_STRICTNESS, 0, 0) && r.strictness == Loose && !p.allowLoose)
    || (x == Reason(PROFILE_DEPTH_EXCEEDED, 0, p.maxDepth) && |r.segments| > p.maxDepth)
  }

  ghost predicate ProfileSegmentFinding(p: Profile, s: Segment, x: Reason) {
    || (x.code == PROFILE_KIND_NOT_ALLOWED && x.detail == s.kind.Code() && !MaskHas(p.kindsMask, s.kind))
    || (x.code == PROFILE_KIND_MISMATCH && x.detail == 0 && s.kind == KindInvalid)
    || (x.code == PROFILE_WIDTH_EXCEEDED && x.detail == p.payloadWidth && |s.payload| > p.payloadWidth)
  }

  ghost predicate ProfileRepeatFinding(p: Profile, ss: seq<Segment>, x: Reason)
    requires x.index < |ss|
  {
    && x.code == PROFILE_REPEAT && x.detail == ss[x.index].id
    && ((!p.allowConsecutive && Repeated(ss, p.payloadWidth, x.index, true))
        || (!p.allowNonconsecutive && Repeated(ss, p.payloadWidth, x.index, false)))
  }

  ghost predicate ProfileFinding(r: Request, x: Reason) {
    match r.profile
    case None =>
      x == if r.profileId == 0 then Reason(PROFILE_ID_INVALID, 0, 0) else Reason(PROFILE_UNKNOWN, 0, r.profileId)
    case Some(p) =>
      || ProfileHeadFinding(r, p, x)
      || (Scanned(r.limits, r.segments, x.index)
          && (ProfileSegmentFinding(p, r.segments[x.index], x) || ProfileRepeatFinding(p, r.segments, x)))
  }

  lemma ProfileHeadReports(r: Request, p: Profile, x: Reason)
    ensures Fails(ProfileHead(r, p), x) <==> ProfileHeadFinding(r, p, x)
  {
    var h := ProfileHead(r, p);
    assert h[0] in h && h[1] in h && h[2] in h && h[3] in h && h[4] in h && h[5] in h;
  }

  lemma ProfileSegmentReports(r: Request, p: Profile, i: nat, x: Reason)
    requires i < |r.segments|
    ensures Fails(ProfileSegment(r, p, i), x) <==> x.index == i && ProfileSegmentFinding(p, r.segments[i], x)
  {
    hide MaskHas;
    var b := ProfileSegment(r, p, i);
    assert b[0] in b && b[1] in b && b[2] in b;
  }

  lemma ProfileRowReports(r: Request, p: Profile, i: nat, x: Reason)
    requires i < |r.segments|
    ensures Fails(Gather(ProfilePairs(r, p, i, i)), x) <==> x.index == i && ProfileRepeatFinding(p, r.segments, x)
  {
    hide SemanticEqual; hide Gather;
    var pairs := ProfilePairs(r, p, i, i);
    FailsGathered(pairs, x);
    forall j | 0 <= j < i
      ensures Fails(pairs[j], x) <==>
              && x == Reason(PROFILE_REPEAT, i, r.segments[i].id)
              && SemanticEqual(r.segments[j], r.segments[i], p.payloadWidth)
              && if j == i - 1 then !p.allowConsecutive else !p.allowNonconsecutive
    {
      assert pairs[j][0] in pairs[j] && pairs[j][1] in pairs[j];
    }
  }

  lemma ProfileReports(r: Request, x: Reason)
    ensures Fails(ProfileChecks(r), x) <==> ProfileFinding(r, x)
  {
    hide Gather; hide ProfileSegment; hide ProfileHead; hide ProfileHeadFinding; hide ProfileSegmentFinding;
    hide Fails; hide Repeated;
    match r.profile
    case None => NoProfileReports(r, x);
    case Some(p) =>
      var a, b, c := ProfileHead(r, p), ProfileSegments(r, p, Scan(r)), ProfileRepeats(r, p);
      FailsTogether(a, Gather(b), x);
      FailsTogether(a + Gather(b), c, x);
      ProfileHeadReports(r, p, x);
      FailsGathered(b, x);
      forall i | 0 <= i < Scan(r)
        ensures Fails(b[i], x) <==> x.index == i && ProfileSegmentFinding(p, r.segments[i], x)
      {
        ProfileSegmentReports(r, p, i, x);
      }
      ProfileRepeatsReport(r, p, x);
  }

  lemma NoProfileReports(r: Request, x: Reason)
    requires r.profile.None?
    ensures Fails(ProfileChecks(r), x) <==> ProfileFinding(r, x)
  {
    assert ProfileChecks(r)[0] in ProfileChecks(r) && ProfileChecks(r)[1] in ProfileChecks(r);
  }

  lemma ProfileRepeatsReport(r: Request, p: Profile, x: Reason)
    ensures Fails(ProfileRepeats(r, p), x) <==>
            Scanned(r.limits, r.segments, x.index) && ProfileRepeatFinding(p, r.segments, x)
  {
    hide Gather; hide Fails; hide Repeated;
    if p.allowConsecutive && p.allowNonconsecutive {
      NothingFails(x);
    } else {
      var rows := ProfileRows(r, p, Scan(r));
      FailsGathered(rows, x);
      forall i | 0 <= i < Scan(r)
        ensures Fails(rows[i], x) <==> x.index == i && ProfileRepeatFinding(p, r.segments, x)
      {
        ProfileRowReports(r, p, i, x);
      }
      assert ProfileRepeats(r, p) == Gather(rows);
      assert Scanned(r.limits, r.segments, x.index) && Fails(rows[x.index], x) ==> Fails(Gather(rows), x);
    }
  }

  ghost predicate PolicyHeadFinding(r: Request, p: Policy, x: Reason) {
    || (x == Reason(POLICY_GENERATION_INVALID, 0, 0) && p.generation == 0)
    || (x == Reason(POLICY_GENERATION_MISMATCH, 0, p.generation) && r.policyGeneration !in {0, p.generation})
    || (x == Reason(POLICY_OWNERSHIP, 0, p.ownerScope) && p.ownerScope !in {0, r.scope})
    || (x == Reason(POLICY_DENIED_PROFILE, 0, r.profileId) && p.allowedProfiles != []
        && r.profileId !in p.allowedProfiles)
    || (x == Reason(POLICY_DEPTH_EXCEEDED, 0, p.maxDepth) && 0 < p.maxDepth < |r.segments|)
    || (x == Reason(POLICY_REPLACEMENT_DENIED, 0, 0) && r.existing.Some? && !p.allowReplacement)
    || (x == Reason(POLICY_DERIVATION_DENIED, 0, 0) && r.derived && !p.allowDerivation)
    || (x == Reason(POLICY_STRICTNESS, 0, 0) && p.requireStrict && r.strictness == Loose)
  }

  /** A forbidden entity is reported where it stands first. */
  ghost predicate PolicyEntityFinding(r: Request, p: Policy, x: Reason) {
    || (x.code == POLICY_REQUIRED_MISSING && x.index == 0 && x.detail in p.required
        && forall s :: s in r.segments ==> s.id != x.detail)
    || (x.code == POLICY_FORBIDDEN_PRESENT && x.detail in p.forbidden && x.index < |r.segments|
        && r.segments[x.index].id == x.detail && forall j :: 0 <= j < x.index ==> r.segments[j].id != x.detail)
    || (x.code == POLICY_DENIED_KIND && p.kindsMask != 0 && x.index < |r.segments|
        && r.segments[x.index].kind != KindInvalid && !MaskHas(p.kindsMask, r.segments[x.index].kind)
        && x.detail == r.segments[x.index].kind.Code())
  }

  ghost predicate PolicyFinding(r: Request, x: Reason) {
    match r.policy
    case None => x == Reason(POLICY_UNKNOWN, 0, r.policyId) && r.policyId != 0
    case Some(p) => PolicyHeadFinding(r, p, x) || PolicyEntityFinding(r, p, x)
  }

  lemma PolicyHeadReports(r: Request, p: Policy, x: Reason)
    ensures Fails(PolicyHead(r, p), x) <==> PolicyHeadFinding(r, p, x)
  {
    var h := PolicyHead(r, p);
    FailsFour(h[0], h[1], h[2], h[3], h[4..], x);
    FailsFour(h[4], h[5], h[6], h[7], [], x);
    assert h == [h[0], h[1], h[2], h[3]] + h[4..] && h[4..] == [h[4], h[5], h[6], h[7]] + [];
    NothingFails(x);
    hide Fails;
  }

  lemma FirstWithIdIs(ss: seq<Segment>, id: u64)
    ensures forall j :: 0 <= j < FirstWithId(ss, id) ==> ss[j].id != id
  {}

  lemma PolicyRequiredReports(r: Request, p: Policy, x: Reason)
    ensures Fails(Gather(PolicyRequired(r, p, |p.required|)), x) <==>
            x.code == POLICY_REQUIRED_MISSING && x.index == 0 && x.detail in p.required
            && forall s :: s in r.segments ==> s.id != x.detail
  {
    hide Gather; hide HasId;
    var parts := PolicyRequired(r, p, |p.required|);
    FailsGathered(parts, x);
    forall k | 0 <= k < |p.required|
      ensures Fails(parts[k], x) <==>
              x == Reason(POLICY_REQUIRED_MISSING, 0, p.required[k]) && !HasId(r.segments, p.required[k])
    {
      assert parts[k][0] in parts[k];
    }
    HasIdMeaning(r.segments);
  }

  lemma HasIdMeaning(ss: seq<Segment>)
    ensures forall id :: HasId(ss, id) <==> exists s :: s in ss && s.id == id
  {
    forall id ensures HasId(ss, id) <==> exists s :: s in ss && s.id == id {
      if s :| s in ss && s.id == id { var i :| 0 <= i < |ss| && ss[i] == s; }
    }
  }

  lemma PolicyForbiddenReports(r: Request, p: Policy, x: Reason)
    ensures Fails(Gather(PolicyForbidden(r, p, |p.forbidden|)), x) <==>
            x.code == POLICY_FORBIDDEN_PRESENT && x.detail in p.forbidden && x.index < |r.segments|
            && r.segments[x.index].id == x.detail && forall j :: 0 <= j < x.index ==> r.segments[j].id != x.detail
  {
    hide Gather; hide FirstWithId;
    var parts := PolicyForbidden(r, p, |p.forbidden|);
    FailsGathered(parts, x);
    forall k | 0 <= k < |p.forbidden|
      ensures Fails(parts[k], x) <==>
              && x.code == POLICY_FORBIDDEN_PRESENT && x.detail == p.forbidden[k] && x.index < |r.segments|
              && r.segments[x.index].id == x.detail && forall j :: 0 <= j < x.index ==> r.segments[j].id != x.detail
    {
      assert parts[k][0] in parts[k];
      FirstWithIdIs(r.segments, p.forbidden[k]);
    }
  }

  lemma PolicyKindsReport(r: Request, p: Policy, x: Reason)
    ensures Fails(Gather(PolicyKinds(r, p, |r.segments|)), x) <==>
            x.code == POLICY_DENIED_KIND && x.index < |r.segments| && r.segments[x.index].kind != KindInvalid
            && !MaskHas(p.kindsMask, r.segments[x.index].kind) && x.detail == r.segments[x.index].kind.Code()
  {
    hide Gather; hide MaskHas;
    var parts := PolicyKinds(r, p, |r.segments|);
    FailsGathered(parts, x);
    forall i | 0 <= i < |r.segments|
      ensures Fails(parts[i], x) <==>
              && x == Reason(POLICY_DENIED_KIND, i, r.segments[i].kind.Code()) && r.segments[i].kind != KindInvalid
              && !MaskHas(p.kindsMask, r.segments[i].kind)
    {
      if !r.segments[i].kind.KindInvalid? { assert parts[i][0] in parts[i]; }
    }
  }

  lemma PolicyReports(r: Request, x: Reason)
    ensures Fails(PolicyChecks(r), x) <==> PolicyFinding(r, x)
  {
    hide Gather; hide PolicyHead; hide PolicyHeadFinding; hide MaskHas; hide PolicyRequired; hide PolicyForbidden;
    hide PolicyKinds;
    match r.policy
    case None => assert PolicyChecks(r)[0] in PolicyChecks(r);
    case Some(p) =>
      hide Fails;
      var a, b, c := PolicyHead(r, p), Gather(PolicyRequired(r, p, |p.required|)),
                     Gather(PolicyForbidden(r, p, |p.forbidden|));
      var d := if p.kindsMask == 0 then [] else Gather(PolicyKinds(r, p, |r.segments|));
      FailsTogether(a, b, x); FailsTogether(a + b, c, x); FailsTogether(a + b + c, d, x);
      NothingFails(x);
      PolicyHeadReports(r, p, x); PolicyRequiredReports(r, p, x); PolicyForbiddenReports(r, p, x);
      PolicyKindsReport(r, p, x);
  }

  // --------------------------------------------------------------------------- structure

  /** The references the kind of a segment is about, all others cleared. */
  function OwnReferences(s: Segment): Segment {
    var bare := s.(node := 0, adjacency := 0, endpoint := 0, binding := 0, policy := 0, policyGeneration := 0,
                   topology := 0);
    match s.kind
    case KindInvalid => s
    case KindNode => bare.(node := s.node)
    case KindAdjacency => bare.(adjacency := s.adjacency, topology := s.topology)
    case KindEndpoint => bare.(endpoint := s.endpoint)
    case KindBinding => bare.(binding := s.binding)
    case KindPolicy => bare.(policy := s.policy, policyGeneration := s.policyGeneration)
  }

  /** One of the references its kind needs is zero. */
  ghost predicate HalfBound(s: Segment) {
    match s.kind
    case KindInvalid => false
    case KindNode => s.node == 0
    case KindAdjacency => 0 in {s.adjacency, s.topology}
    case KindEndpoint => s.endpoint == 0
    case KindBinding => s.binding == 0
    case KindPolicy => 0 in {s.policy, s.policyGeneration}
  }

  ghost predicate ShapeFinding(s: Segment, x: Reason) {
    || (x.code == SEGMENT_ID_INVALID && x.detail == 0 && s.id == 0)
    || (x.code == SEGMENT_GENERATION_INVALID && x.detail == 0 && s.generation == 0)
    || (x.code == SEGMENT_ENCODING_MISMATCH && x.detail == s.encoding.Code()
        && s.encoding.Code() !in {0, s.kind.Code()})
    || (x.code == SEGMENT_BINDING_INCOMPLETE && x.detail == 0 && HalfBound(s))
    || (x.code == SEGMENT_RESERVED_SET && x.detail == 0 && s != OwnReferences(s))
    || (x.code == SEGMENT_MISSING_BINDING && x.detail == 0
        && s.node == s.adjacency == s.endpoint == s.binding == s.policy == 0)
  }

  ghost predicate SegmentFinding(e: Option<Evidence>, s: Segment, x: Reason) {
    if s.kind == KindInvalid then x.code == SEGMENT_KIND_INVALID && x.detail == 0
    else ShapeFinding(s, x) || (e.Some? && EntityFinding(e.value, s, x.code, x.detail))
  }

  /** Repeats are findings unless a profile permits them. */
  ghost predicate DuplicateFinding(profile: Option<Profile>, ss: seq<Segment>, x: Reason)
    requires x.index < |ss|
  {
    var width := if profile.Some? then profile.value.payloadWidth else 0;
    && x.detail == ss[x.index].id
    && (|| (x.code == SEGMENT_DUP_CONSECUTIVE && (profile.Some? ==> !profile.value.allowConsecutive)
            && Repeated(ss, width, x.index, true))
        || (x.code == SEGMENT_DUP_NONCONSECUTIVE && (profile.Some? ==> !profile.value.allowNonconsecutive)
            && Repeated(ss, width, x.index, false)))
  }

  ghost predicate StructureFinding(r: Request, x: Reason) {
    Scanned(r.limits, r.segments, x.index)
    && (SegmentFinding(r.evidence, r.segments[x.index], x) || DuplicateFinding(r.profile, r.segments, x))
  }

  lemma ReferencesMeaning(s: Segment)
    ensures s.kind != KindInvalid ==>
              (BindingIncomplete(s) <==> HalfBound(s)) && (ReservedSet(s) <==> s != OwnReferences(s))
    ensures s.encoding != EncUnset && s.encoding != ExpectedEncoding(s.kind) <==>
            s.encoding.Code() !in {0, s.kind.Code()}
  {}

  lemma ShapeReports(s: Segment, i: nat, x: Reason)
    requires s.kind != KindInvalid
    ensures Fails(ShapeBlock(s, i), x) <==> x.index == i && ShapeFinding(s, x)
  {
    hide BindingIncomplete; hide ReservedSet; hide HalfBound; hide OwnReferences; hide Fails;
    var b := ShapeBlock(s, i);
    ReferencesMeaning(s);
    FailsFour(b[0], b[1], b[2], b[3], b[4..], x);
    assert b == [b[0], b[1], b[2], b[3]] + b[4..] && b[4..] == [b[4], b[5]];
    FailsTwo(b[4], b[5], x);
  }

  lemma FailsTwo(a: Check, b: Check, x: Reason)
    ensures Fails([a, b], x) <==> a == Check(true, x) || b == Check(true, x)
  {
    var two := [a, b];
    assert two[0] in two && two[1] in two;
  }

  lemma SegmentReports(r: Request, i: nat, x: Reason)
    requires i < |r.segments|
    ensures Fails(StructuralSegment(r, i), x) <==> x.index == i && SegmentFinding(r.evidence, r.segments[i], x)
  {
    hide ShapeBlock; hide EntityBlock; hide ShapeFinding; hide EntityFinding;
    var s, b := r.segments[i], StructuralSegment(r, i);
    if s.kind.KindInvalid? {
      assert b[0] in b;
    } else {
      ShapeReports(s, i, x);
      FailsTogether(ShapeBlock(s, i), if r.evidence.Some? then EntityBlock(r.evidence.value, s, i) else [], x);
      if r.evidence.Some? { EntityReports(r.evidence.value, s, i, x); }
    }
  }

  lemma DuplicateRowReports(r: Request, i: nat, x: Reason)
    requires i < |r.segments|
    ensures Fails(Gather(StructuralPairs(r, i, i)), x) <==> x.index == i && DuplicateFinding(r.profile, r.segments, x)
  {
    hide SemanticEqual; hide Gather;
    var pairs := StructuralPairs(r, i, i);
    FailsGathered(pairs, x);
    forall j | 0 <= j < i
      ensures Fails(pairs[j], x) <==>
              && SemanticEqual(r.segments[j], r.segments[i], Width(r))
              && if j == i - 1
                 then ForbidConsecutive(r) && x == Reason(SEGMENT_DUP_CONSECUTIVE, i, r.segments[i].id)
                 else ForbidNonconsecutive(r) && x == Reason(SEGMENT_DUP_NONCONSECUTIVE, i, r.segments[i].id)
    {
      FailsTwo(pairs[j][0], pairs[j][1], x);
      assert pairs[j] == [pairs[j][0], pairs[j][1]];
    }
  }

  lemma StructureReports(r: Request, x: Reason)
    ensures Fails(StructuralChecks(r), x) <==> StructureFinding(r, x)
  {
    hide Gather; hide StructuralSegment; hide SegmentFinding; hide DuplicateFinding; hide Fails;
    var a, b := StructuralSegments(r, Scan(r)), StructuralRows(r, Scan(r));
    FailsTogether(Gather(a), Gather(b), x);
    FailsGathered(a, x);
    FailsGathered(b, x);
    forall i | 0 <= i < Scan(r)
      ensures Fails(a[i], x) <==> x.index == i && SegmentFinding(r.evidence, r.segments[i], x)
      ensures Fails(b[i], x) <==> x.index == i && DuplicateFinding(r.profile, r.segments, x)
    {
      SegmentReports(r, i, x);
      DuplicateRowReports(r, i, x);
    }
    if Scanned(r.limits, r.segments, x.index) { assert a[x.index] == a[x.index] && b[x.index] == b[x.index]; }
  }

  // ------------------------------------------------------------------------------- sizes

  ghost predicate SizeFinding(l: Limits, ss: seq<Segment>, x: Reason) {
    || (x == Reason(LIMIT_SEGMENTS_PER_LIST, 0, l.maxSegmentsPerList) && |ss| > l.maxSegmentsPerList)
    || (x.code == LIMIT_PAYLOAD_BYTES && x.detail == l.maxPayloadBytes && x.index < |ss|
        && |ss[x.index].payload| > l.maxPayloadBytes)
  }

  lemma SizesReport(r: Request, x: Reason)
    ensures Fails(ResourceChecks(r), x) <==> SizeFinding(r.limits, r.segments, x)
  {
    hide Gather;
    var head, parts := ResourceHead(r), PayloadBlocks(r, |r.segments|);
    assert head[0] in head;
    FailsTogether(head, Gather(parts), x);
    FailsGathered(parts, x);
    forall i | 0 <= i < |r.segments|
      ensures Fails(parts[i], x) <==>
              && x == Reason(LIMIT_PAYLOAD_BYTES, i, r.limits.maxPayloadBytes)
              && |r.segments[i].payload| > r.limits.maxPayloadBytes
    {
      assert parts[i][0] in parts[i];
    }
  }

  // ------------------------------------------------------------------------ all of them

  /** What is wrong with the writer, the epoch or the lineage. */
  ghost predicate IdentityFinding(r: Request, x: Reason) {
    || CallerFinding(r.caller, r.authority, x) || EpochFinding(r.caller, r.authority, x)
    || LineageFinding(r.listId, r.existing, r.expectedGeneration, r.intent, r.requireExisting, r.requireAbsent, x)
  }

  /** What is wrong with the sequence itself. */
  ghost predicate ContentFinding(r: Request, x: Reason) {
    || (x == Reason(LIST_EMPTY, 0, 0) && r.segments == [] && (r.profile.None? || !r.profile.value.allowEmpty))
    || ProfileFinding(r, x) || PolicyFinding(r, x) || StructureFinding(r, x)
  }

  /** What is wrong with what the sequence depends on, or with its sizes. */
  ghost predicate DependencyFinding(r: Request, x: Reason) {
    || (r.profile.Some? && CapabilityFinding(r.profile.value.capabilities, r.capability, r.evidence, x))
    || TopologyFinding(r.segments, r.topology, r.evidence, x)
    || PathFinding(r.path, r.pathAuthority, r.scope, r.evidence, x)
    || RouteFinding(r.route, r.routeGeneration, r.listId, r.evidence, x)
    || ConstraintFinding(r.constraint, r.constraintGeneration, r.evidence, x)
    || SizeFinding(r.limits, r.segments, x)
  }

  lemma IdentityReports(r: Request, x: Reason)
    ensures Fails(IdentityChecks(r), x) <==> IdentityFinding(r, x)
  {
    hide CallerChecks; hide EpochChecks; hide ListChecks; hide CallerFinding; hide EpochFinding; hide LineageFinding;
    hide Fails;
    FailsTogether(CallerChecks(r), EpochChecks(r), x);
    FailsTogether(CallerChecks(r) + EpochChecks(r), ListChecks(r), x);
    CallerReports(r, x); EpochExactly(r); LineageReports(r, x);
  }

  lemma ContentReports(r: Request, x: Reason)
    ensures Fails(ContentChecks(r), x) <==> ContentFinding(r, x)
  {
    hide EmptyChecks; hide ProfileChecks; hide PolicyChecks; hide StructuralChecks; hide ProfileFinding;
    hide PolicyFinding; hide StructureFinding; hide Fails;
    FailsTogether(EmptyChecks(r), ProfileChecks(r), x);
    FailsTogether(EmptyChecks(r) + ProfileChecks(r), PolicyChecks(r), x);
    FailsTogether(EmptyChecks(r) + ProfileChecks(r) + PolicyChecks(r), StructuralChecks(r), x);
    EmptyExactly(r); ProfileReports(r, x); PolicyReports(r, x); StructureReports(r, x);
  }

  lemma NoCapabilityChecks(r: Request)
    ensures r.profile.None? ==> CapabilityChecks(r) == []
  {}

  lemma DependencyReports(r: Request, x: Reason)
    ensures Fails(DependencyChecks(r) + LastChecks(r), x) <==> DependencyFinding(r, x)
  {
    hide CapabilityChecks; hide TopologyChecks; hide PathChecks; hide RouteChecks; hide ConstraintChecks;
    hide ResourceChecks; hide CapabilityFinding; hide TopologyFinding; hide PathFinding; hide RouteFinding;
    hide ConstraintFinding; hide SizeFinding; hide Fails;
    FailsTogether(CapabilityChecks(r), TopologyChecks(r), x);
    FailsTogether(CapabilityChecks(r) + TopologyChecks(r), PathChecks(r), x);
    FailsTogether(CapabilityChecks(r) + TopologyChecks(r) + PathChecks(r), RouteChecks(r), x);
    FailsTogether(ConstraintChecks(r), ResourceChecks(r), x);
    FailsTogether(DependencyChecks(r), LastChecks(r), x);
    NoCapabilityChecks(r); NothingFails(x);
    if r.profile.Some? { CapabilitiesReport(r, x); }
    TopologyExactly(r); PathExactly(r); RouteExactly(r); ConstraintExactly(r); SizesReport(r, x);
  }

  /** Everything that is wrong with a request: code, position and detail. */
  ghost predicate Finding(r: Request, x: Reason) {
    IdentityFinding(r, x) || (r.full && (ContentFinding(r, x) || DependencyFinding(r, x)))
  }

  lemma RequestReports(r: Request, x: Reason)
    ensures Fails(RequestChecks(r), x) <==> Finding(r, x)
  {
    hide IdentityChecks; hide ContentChecks; hide DependencyChecks; hide LastChecks; hide IdentityFinding;
    hide ContentFinding; hide DependencyFinding; hide Fails;
    var a, b, c, d := IdentityChecks(r), ContentChecks(r), DependencyChecks(r), LastChecks(r);
    IdentityReports(r, x); ContentReports(r, x); DependencyReports(r, x);
    SeqAssoc(b, c, d);
    FailsTogether(b, c + d, x);
    FailsTogether(a, if r.full then b + c + d else [], x);
    NothingFails(x);
  }

  /** A rejection that was not cut short names exactly what is wrong with the request, and in strict order. */
  lemma ReasonsExactly(r: Request)
    requires !Collect(r.limits.maxReasons, RequestChecks(r)).truncated
    ensures var rs := Collect(r.limits.maxReasons, RequestChecks(r)).reasons;
            Sorted(rs) && forall x :: x in rs <==> Finding(r, x)
  {
    hide RequestChecks; hide Collect; hide Finding; hide Fails; hide Sorted; hide PhaseOrdered; hide RealCodes;
    RequestOrdered(r);
    CollectExact(r.limits.maxReasons, RequestChecks(r));
    forall x ensures Fails(RequestChecks(r), x) <==> Finding(r, x) { RequestReports(r, x); }
  }

  /** The same for the drafts of a batch, with what the store adds. */
  lemma DraftReasonsExactly(cfg: Config, ctx: Context, shape: Shape, d: Draft, res: Resolved)
    requires !DraftOutcome(cfg, ctx, shape, d, res).truncated
    ensures forall x :: x in DraftOutcome(cfg, ctx, shape, d, res).reasons <==>
                        || Finding(DraftRequest(cfg, ctx, shape, d, res), x)
                        || SupersededFinding(d, res.superseded, x)
  {
    hide RequestChecks; hide StoreChecks; hide Collect; hide Finding; hide Fails; hide RealCodes;
    hide SupersededFinding;
    var r := DraftRequest(cfg, ctx, shape, d, res);
    RequestOrdered(r);
    RealStoreCodes(d, res);
    RealTogether(RequestChecks(r), StoreChecks(d, res));
    CollectExact(cfg.limits.maxReasons, DraftChecks(cfg, ctx, shape, d, res));
    SupersededExactly(d, res);
    forall x ensures Fails(DraftChecks(cfg, ctx, shape, d, res), x) <==>
                     Finding(r, x) || SupersededFinding(d, res.superseded, x)
    {
      FailsTogether(RequestChecks(r), StoreChecks(d, res), x);
      RequestReports(r, x);
      if res.existing.Some? && res.existing.value.generation != d.expectedGeneration
         && x == Reason(LIST_GENERATION_CONFLICT, 0, res.existing.value.generation)
      {
        ConflictIsFound(r, x);
      }
    }
  }

  lemma ConflictIsFound(r: Request, x: Reason)
    requires r.existing.Some? && r.existing.value.generation != r.expectedGeneration
    requires x == Reason(LIST_GENERATION_CONFLICT, 0, r.existing.value.generation)
    ensures Finding(r, x)
  {}
}
