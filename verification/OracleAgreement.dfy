/** When the oracle and the production sequence validator agree. */
module SrfOracleAgreement {
  import opened SrfTypes
  import opened SrfBytes
  import opened SrfReasons
  import opened SrfCanonical
  import opened SrfValidation
  import opened SrfValidationLaws
  import opened SrfOracle

  /** A request both validators can be given: a sequence and its profile, no evidence. */
  ghost predicate Comparable(r: Request) {
    && r.profile.Some? && r.evidence.None? && r.profile.value.id == r.profileId && r.profileGeneration == 0
    && r.strictness == Strict
  }

  const ALL_KINDS: set<SegmentKind> := {KindInvalid, KindNode, KindAdjacency, KindEndpoint, KindBinding, KindPolicy}

  /** The scenario written for a request. */
  function ScenarioOf(r: Request): Scenario
    requires r.profile.Some?
  {
    var p := r.profile.value;
    Scenario((set k | k in ALL_KINDS && MaskHas(p.kindsMask, k)), p.maxDepth, p.payloadWidth, p.allowEmpty,
             p.allowConsecutive, p.allowNonconsecutive, |p.capabilities|, r.limits.maxSegmentsPerList,
             r.limits.maxPayloadBytes, r.segments)
  }

  // ------------------------------------------------------------------------ equality

  lemma {:induction false} TrimmedTail(p: Bytes)
    ensures forall k :: |Trim(p)| <= k < |p| ==> p[k] == 0
    ensures Trim(p) != [] ==> Trim(p)[|Trim(p)| - 1] != 0
  {
    if p != [] && p[|p| - 1] == 0 { TrimmedTail(p[..|p| - 1]); }
  }

  lemma TrimBytes(p: Bytes, k: nat)
    ensures ByteAt(Trim(p), k) == ByteAt(p, k)
  {
    TrimmedTail(p);
  }

  lemma TrimEqual(a: Bytes, b: Bytes)
    requires forall k: nat :: ByteAt(a, k) == ByteAt(b, k)
    ensures Trim(a) == Trim(b)
  {
    var x, y := Trim(a), Trim(b);
    TrimmedTail(a);
    TrimmedTail(b);
    forall k: nat ensures ByteAt(x, k) == ByteAt(y, k) { TrimBytes(a, k); TrimBytes(b, k); }
    assert x != [] ==> ByteAt(x, |x| - 1) == ByteAt(y, |x| - 1);
    assert y != [] ==> ByteAt(y, |y| - 1) == ByteAt(x, |y| - 1);
    forall k | 0 <= k < |x| ensures x[k] == y[k] { assert ByteAt(x, k) == ByteAt(y, k); }
  }

  /** Canonical segments are identical exactly when the segments agree on every field and on the payload bytes within
      the width, over-wide payloads being cut. */
  lemma CanonEqual(a: Segment, b: Segment, width: nat)
    ensures Canon(a, width) == Canon(b, width) <==>
            SameScalars(a, b) && forall k :: 0 <= k < width ==> ByteAt(a.payload, k) == ByteAt(b.payload, k)
  {
    var x, y := Kept(a.payload, width), Kept(b.payload, width);
    if Canon(a, width) == Canon(b, width) {
      forall k | 0 <= k < width ensures ByteAt(a.payload, k) == ByteAt(b.payload, k) {
        TrimBytes(x, k);
        TrimBytes(y, k);
      }
    }
    if SameScalars(a, b) && forall k :: 0 <= k < width ==> ByteAt(a.payload, k) == ByteAt(b.payload, k) {
      forall k: nat ensures ByteAt(x, k) == ByteAt(y, k) {
        if k < width { assert ByteAt(a.payload, k) == ByteAt(b.payload, k); }
      }
      TrimEqual(x, y);
      assert Canon(a, width) == Canon(b, width);
    }
  }

  /** Semantic equality is the oracle's equality of payloads that are within the width. */
  lemma SemanticIsCanon(a: Segment, b: Segment, width: nat)
    ensures SemanticEqual(a, b, width) <==>
            |a.payload| <= width && |b.payload| <= width && Canon(a, width) == Canon(b, width)
  {
    CanonEqual(a, b, width);
  }

  // --------------------------------------------------------------------------- bytes

  lemma SameSegmentBytes(s: Segment, width: nat)
    ensures OracleSegment(Canon(s, width), width) == Flat(SegmentTokens(Canonical(s), width))
  {
    var a, b := Num(2, width % 0x1_0000), Raw(Padded(s.payload, width));
    FlatConcat(HeadTokens(Canonical(s)), [a, b]);
    FlatPair(a, b);
    assert HeadTokens(Canon(s, width)) == HeadTokens(Canonical(s));
    assert Filled(Canon(s, width).payload, width) == Padded(s.payload, width) by {
      forall k | 0 <= k < width ensures ByteAt(Canon(s, width).payload, k) == ByteAt(s.payload, k) {
        TrimBytes(Kept(s.payload, width), k);
      }
    }
    SeqAssoc(Flat(HeadTokens(Canonical(s))), TokenBytes(a), TokenBytes(b));
  }

  lemma {:induction false} SameBodyBytes(ss: seq<Segment>, canon: seq<Segment>, width: nat)
    requires |canon| == |ss| && forall i :: 0 <= i < |ss| ==> canon[i] == Canon(ss[i], width)
    ensures OracleSegments(canon, width) == Flat(BodyTokens(CanonicalizeAll(ss), width))
  {
    hide OracleSegment; hide SegmentTokens; hide Canon;
    if ss != [] {
      var n := |ss| - 1;
      SameBodyBytes(ss[..n], canon[..n], width);
      var all := CanonicalizeAll(ss);
      assert all[..n] == CanonicalizeAll(ss[..n]) && all[..n + 1] == all;
      BodySnoc(all, n, width);
      FlatConcat(BodyTokens(all[..n], width), SegmentTokens(all[n], width));
      SameSegmentBytes(ss[n], width);
    }
  }

  /** Whenever the oracle produces canonical bytes at all, they are the production ones. */
  lemma SameCanonicalBytes(r: Request)
    requires r.profile.Some? && OracleBytes(ScenarioOf(r)).Some?
    ensures OracleBytes(ScenarioOf(r)).value == SequenceBytes(CanonicalizeAll(r.segments), r.profile.value.payloadWidth)
  {
    hide OracleSegments; hide BodyTokens; hide Flat; hide Canon;
    var sc := ScenarioOf(r);
    SameBodyBytes(r.segments, CanonAll(sc), sc.width);
    SequenceSplit(CanonicalizeAll(r.segments), sc.width);
  }

  // ------------------------------------------------- what the production validator says

  /** An equal earlier segment, next to the one at `i` or further back, within the width. */
  ghost predicate EqualBefore(r: Request, width: nat, i: nat, consecutive: bool)
    requires i < |r.segments|
  {
    exists j :: 0 <= j < i && RepeatAt(r, width, i, j, consecutive)
  }

  /** Which (code, index) pairs the production validator reports for a comparable request. */
  ghost predicate ProductionSays(r: Request, code: nat, i: nat)
    requires r.profile.Some?
  {
    var p, n := r.profile.value, Scan(r);
    || (code == LIST_EMPTY && i == 0 && r.segments == [] && !p.allowEmpty)
    || (code == PROFILE_GENERATION_INVALID && i == 0 && p.generation == 0)
    || (code == PROFILE_EMPTY && i == 0 && !p.allowEmpty && r.segments == [])
    || (code == PROFILE_DEPTH_EXCEEDED && i == 0 && |r.segments| > p.maxDepth)
    || (code == CAPABILITY_UNAVAILABLE && i == 0 && p.capabilities != [])
    || (code == TOPOLOGY_UNAVAILABLE && i == 0 && HasAdjacency(r.segments))
    || (code == LIMIT_SEGMENTS_PER_LIST && i == 0 && |r.segments| > r.limits.maxSegmentsPerList)
    || (code == LIMIT_PAYLOAD_BYTES && i < |r.segments| && |r.segments[i].payload| > r.limits.maxPayloadBytes)
    || (i < n && ProductionSaysAt(r, code, i))
  }

  ghost predicate ProductionSaysAt(r: Request, code: nat, i: nat)
    requires r.profile.Some? && i < |r.segments|
  {
    var p, s := r.profile.value, r.segments[i];
    || (code == PROFILE_KIND_NOT_ALLOWED && !MaskHas(p.kindsMask, s.kind))
    || (code == PROFILE_KIND_MISMATCH && s.kind.KindInvalid?)
    || (code == PROFILE_WIDTH_EXCEEDED && |s.payload| > p.payloadWidth)
    || (code == PROFILE_REPEAT && ((!p.allowConsecutive && EqualBefore(r, p.payloadWidth, i, true))
                                   || (!p.allowNonconsecutive && EqualBefore(r, p.payloadWidth, i, false))))
    || (code == SEGMENT_KIND_INVALID && s.kind.KindInvalid?)
    || (!s.kind.KindInvalid? && ShapeSays(s, code))
    || (code == SEGMENT_DUP_CONSECUTIVE && !p.allowConsecutive && EqualBefore(r, p.payloadWidth, i, true))
    || (code == SEGMENT_DUP_NONCONSECUTIVE && !p.allowNonconsecutive && EqualBefore(r, p.payloadWidth, i, false))
  }

  ghost predicate ShapeSays(s: Segment, code: nat) {
    || (code == SEGMENT_ID_INVALID && s.id == 0)
    || (code == SEGMENT_GENERATION_INVALID && s.generation == 0)
    || (code == SEGMENT_ENCODING_MISMATCH && s.encoding != EncUnset && s.encoding != ExpectedEncoding(s.kind))
    || (code == SEGMENT_BINDING_INCOMPLETE && BindingIncomplete(s))
    || (code == SEGMENT_RESERVED_SET && ReservedSet(s))
    || (code == SEGMENT_MISSING_BINDING && NoReference(s))
  }

  function DetailOf(r: Request, code: nat, i: nat): nat
    requires r.profile.Some?
  {
    var p := r.profile.value;
    if code == PROFILE_DEPTH_EXCEEDED then p.maxDepth
    else if code == LIMIT_SEGMENTS_PER_LIST then r.limits.maxSegmentsPerList
    else if code == LIMIT_PAYLOAD_BYTES then r.limits.maxPayloadBytes
    else if i >= |r.segments| then 0
    else
      var s := r.segments[i];
      if code == PROFILE_KIND_NOT_ALLOWED || code == PROFILE_KIND_MISMATCH then s.kind.Code()
      else if code == PROFILE_WIDTH_EXCEEDED then p.payloadWidth
      else if code == SEGMENT_ENCODING_MISMATCH then s.encoding.Code()
      else if code == PROFILE_REPEAT || code == SEGMENT_DUP_CONSECUTIVE || code == SEGMENT_DUP_NONCONSECUTIVE then s.id
      else 0
  }

  /** A group of checks reports only what the table allows. */
  ghost predicate Allowed(r: Request, cs: seq<Check>)
    requires r.profile.Some?
  {
    forall c :: c in cs && c.fails ==>
      ProductionSays(r, c.reason.code, c.reason.index) && c.reason.detail == DetailOf(r, c.reason.code, c.reason.index)
  }

  ghost predicate Reported(cs: seq<Check>, code: nat, i: nat) {
    exists c :: c in cs && c.fails && c.reason.code == code && c.reason.index == i
  }

  lemma GatherAllowed(r: Request, parts: seq<seq<Check>>)
    requires r.profile.Some? && forall k :: 0 <= k < |parts| ==> Allowed(r, parts[k])
    ensures Allowed(r, Gather(parts))
  {
    hide ProductionSays; hide DetailOf;
    GatherMembers(parts);
  }

  lemma GatherReported(parts: seq<seq<Check>>, k: nat, code: nat, i: nat)
    requires k < |parts| && Reported(parts[k], code, i)
    ensures Reported(Gather(parts), code, i)
  {
    GatherMembers(parts);
    var c :| c in parts[k] && c.fails && c.reason.code == code && c.reason.index == i;
    assert c in Gather(parts);
  }

  lemma JoinAllowed(r: Request, a: seq<Check>, b: seq<Check>)
    requires r.profile.Some? && Allowed(r, a) && Allowed(r, b)
    ensures Allowed(r, a + b)
  {
    hide ProductionSays; hide DetailOf;
  }

  lemma ReportedLeft(a: seq<Check>, b: seq<Check>, code: nat, i: nat)
    ensures Reported(a + b, code, i) <==> Reported(a, code, i) || Reported(b, code, i)
  {
    if Reported(a, code, i) {
      var c :| c in a && c.fails && c.reason.code == code && c.reason.index == i;
      assert c in a + b;
    }
    if Reported(b, code, i) {
      var c :| c in b && c.fails && c.reason.code == code && c.reason.index == i;
      assert c in a + b;
    }
  }

  lemma ProfileAllowed(r: Request)
    requires Comparable(r)
    ensures Allowed(r, EmptyChecks(r)) && Allowed(r, ProfileChecks(r))
  {
    var p, n := r.profile.value, Scan(r);
    assert Allowed(r, ProfileHead(r, p));
    forall i | 0 <= i < n ensures Allowed(r, ProfileSegments(r, p, n)[i]) { SegmentAllowed(r, i); }
    GatherAllowed(r, ProfileSegments(r, p, n));
    forall i | 0 <= i < n ensures Allowed(r, ProfileRows(r, p, n)[i]) { RowAllowed(r, i); }
    GatherAllowed(r, ProfileRows(r, p, n));
    hide ProductionSays; hide DetailOf;
    JoinAllowed(r, ProfileHead(r, p), Gather(ProfileSegments(r, p, n)));
    JoinAllowed(r, ProfileHead(r, p) + Gather(ProfileSegments(r, p, n)), ProfileRepeats(r, p));
  }

  lemma SegmentAllowed(r: Request, i: nat)
    requires Comparable(r) && i < Scan(r)
    ensures Allowed(r, ProfileSegment(r, r.profile.value, i))
  {}

  lemma RowAllowed(r: Request, i: nat)
    requires Comparable(r) && i < Scan(r)
    ensures Allowed(r, Gather(ProfilePairs(r, r.profile.value, i, i)))
  {
    var p := r.profile.value;
    forall j | 0 <= j < i ensures Allowed(r, ProfilePairs(r, p, i, i)[j]) { PairAllowed(r, i, j); }
    GatherAllowed(r, ProfilePairs(r, p, i, i));
  }

  lemma PairAllowed(r: Request, i: nat, j: nat)
    requires Comparable(r) && j < i < Scan(r)
    ensures Allowed(r, ProfilePair(r, r.profile.value, i, j)) && Allowed(r, StructuralPair(r, i, j))
  {
    hide RepeatAt;
    var w := r.profile.value.payloadWidth;
    assert RepeatAt(r, w, i, j, true) ==> EqualBefore(r, w, i, true);
    assert RepeatAt(r, w, i, j, false) ==> EqualBefore(r, w, i, false);
  }

  lemma StructuralAllowed(r: Request)
    requires Comparable(r)
    ensures Allowed(r, StructuralChecks(r))
  {
    var n := Scan(r);
    forall i | 0 <= i < n ensures Allowed(r, StructuralSegments(r, n)[i]) { ShapeAllowed(r, i); }
    GatherAllowed(r, StructuralSegments(r, n));
    forall i | 0 <= i < n ensures Allowed(r, StructuralRows(r, n)[i]) {
      forall j | 0 <= j < i ensures Allowed(r, StructuralPairs(r, i, i)[j]) { PairAllowed(r, i, j); }
      GatherAllowed(r, StructuralPairs(r, i, i));
    }
    GatherAllowed(r, StructuralRows(r, n));
    JoinAllowed(r, Gather(StructuralSegments(r, n)), Gather(StructuralRows(r, n)));
  }

  lemma ShapeAllowed(r: Request, i: nat)
    requires Comparable(r) && i < Scan(r)
    ensures Allowed(r, StructuralSegment(r, i))
  {
    hide BindingIncomplete; hide ReservedSet; hide NoReference;
  }

  lemma EvidenceAllowed(r: Request)
    requires Comparable(r)
    ensures Allowed(r, CapabilityChecks(r) + TopologyChecks(r) + ResourceChecks(r))
  {
    forall i | 0 <= i < |r.segments| ensures Allowed(r, PayloadBlocks(r, |r.segments|)[i]) { PayloadAllowed(r, i); }
    GatherAllowed(r, PayloadBlocks(r, |r.segments|));
    HeadsAllowed(r);
    hide ProductionSays; hide DetailOf; hide CapabilityChecks; hide TopologyChecks;
    JoinAllowed(r, ResourceHead(r), Gather(PayloadBlocks(r, |r.segments|)));
    JoinAllowed(r, CapabilityChecks(r), TopologyChecks(r));
    JoinAllowed(r, CapabilityChecks(r) + TopologyChecks(r), ResourceChecks(r));
  }

  lemma HeadsAllowed(r: Request)
    requires Comparable(r)
    ensures Allowed(r, CapabilityChecks(r)) && Allowed(r, TopologyChecks(r)) && Allowed(r, ResourceHead(r))
  {}

  lemma PayloadAllowed(r: Request, i: nat)
    requires Comparable(r) && i < |r.segments|
    ensures Allowed(r, PayloadBlock(r.limits, r.segments[i], i))
  {}

  lemma ProductionAllowed(r: Request)
    requires Comparable(r)
    ensures Allowed(r, SequenceChecks(r))
  {
    hide Allowed; hide EmptyChecks; hide ProfileChecks; hide StructuralChecks; hide CapabilityChecks;
    hide TopologyChecks;
    hide ResourceChecks;
    ProfileAllowed(r);
    StructuralAllowed(r);
    EvidenceAllowed(r);
    JoinAllowed(r, EmptyChecks(r), ProfileChecks(r));
    JoinAllowed(r, EmptyChecks(r) + ProfileChecks(r), StructuralChecks(r));
    JoinAllowed(r, EmptyChecks(r) + ProfileChecks(r) + StructuralChecks(r),
                CapabilityChecks(r) + TopologyChecks(r) + ResourceChecks(r));
  }

  lemma InList(cs: seq<Check>, k: nat)
    requires k < |cs| && cs[k].fails
    ensures Reported(cs, cs[k].reason.code, cs[k].reason.index)
  {
    assert cs[k] in cs;
  }

  lemma HeadReported(r: Request, code: nat, i: nat)
    requires Comparable(r) && ProductionSays(r, code, i) && !(i < Scan(r) && ProductionSaysAt(r, code, i))
    ensures Reported(EmptyChecks(r), code, i) || Reported(ProfileHead(r, r.profile.value), code, i)
            || Reported(CapabilityChecks(r), code, i) || Reported(TopologyChecks(r), code, i)
            || Reported(ResourceChecks(r), code, i)
  {
    hide ProductionSaysAt;
    var h := ProfileHead(r, r.profile.value);
    if code == LIST_EMPTY { InList(EmptyChecks(r), 0); }
    else if code == PROFILE_GENERATION_INVALID { InList(h, 1); }
    else if code == PROFILE_EMPTY { InList(h, 3); }
    else if code == PROFILE_DEPTH_EXCEEDED { InList(h, 5); }
    else if code == CAPABILITY_UNAVAILABLE { InList(CapabilityChecks(r), 0); }
    else if code == TOPOLOGY_UNAVAILABLE { InList(TopologyChecks(r), 0); }
    else if code == LIMIT_SEGMENTS_PER_LIST {
      InList(ResourceHead(r), 0);
      ReportedLeft(ResourceHead(r), Gather(PayloadBlocks(r, |r.segments|)), code, i);
    } else {
      InList(PayloadBlock(r.limits, r.segments[i], i), 0);
      GatherReported(PayloadBlocks(r, |r.segments|), i, code, i);
      ReportedLeft(ResourceHead(r), Gather(PayloadBlocks(r, |r.segments|)), code, i);
    }
  }

  lemma SegmentReported(r: Request, code: nat, i: nat)
    requires Comparable(r) && i < Scan(r) && ProductionSaysAt(r, code, i)
    ensures Reported(ProfileChecks(r), code, i) || Reported(StructuralChecks(r), code, i)
  {
    hide EqualBefore; hide BindingIncomplete; hide ReservedSet; hide NoReference; hide ProfileChecks;
    hide StructuralChecks; hide ProfileSegments;
    var p, s := r.profile.value, r.segments[i];
    if code == PROFILE_KIND_NOT_ALLOWED { InList(ProfileSegment(r, p, i), 0); ProfileSegmentReported(r, code, i); }
    else if code == PROFILE_KIND_MISMATCH { InList(ProfileSegment(r, p, i), 1); ProfileSegmentReported(r, code, i); }
    else if code == PROFILE_WIDTH_EXCEEDED { InList(ProfileSegment(r, p, i), 2); ProfileSegmentReported(r, code, i); }
    else if code == PROFILE_REPEAT { RepeatReported(r, i); }
    else if code == SEGMENT_KIND_INVALID { InList(StructuralSegment(r, i), 0); StructuralSegmentReported(r, code, i); }
    else if !s.kind.KindInvalid? && ShapeSays(s, code) {
      ShapeReported(s, code, i);
      StructuralSegmentReported(r, code, i);
    }
    else { DuplicateReported(r, code, i); }
  }

  lemma ProfileSegmentReported(r: Request, code: nat, i: nat)
    requires Comparable(r) && i < Scan(r) && Reported(ProfileSegment(r, r.profile.value, i), code, i)
    ensures Reported(ProfileChecks(r), code, i)
  {
    var p, n := r.profile.value, Scan(r);
    hide Reported; hide Gather; hide ProfileHead; hide ProfileRepeats;
    GatherReported(ProfileSegments(r, p, n), i, code, i);
    ReportedLeft(ProfileHead(r, p), Gather(ProfileSegments(r, p, n)), code, i);
    ReportedLeft(ProfileHead(r, p) + Gather(ProfileSegments(r, p, n)), ProfileRepeats(r, p), code, i);
  }

  lemma RepeatReported(r: Request, i: nat)
    requires Comparable(r) && i < Scan(r)
    requires var p := r.profile.value;
             (!p.allowConsecutive && EqualBefore(r, p.payloadWidth, i, true))
             || (!p.allowNonconsecutive && EqualBefore(r, p.payloadWidth, i, false))
    ensures Reported(ProfileChecks(r), PROFILE_REPEAT, i)
  {
    hide RepeatAt; hide ProfileChecks;
    var p, w := r.profile.value, r.profile.value.payloadWidth;
    if !p.allowConsecutive && EqualBefore(r, w, i, true) {
      var j :| 0 <= j < i && RepeatAt(r, w, i, j, true);
      InList(ProfilePair(r, p, i, j), 0);
      ProfilePairReported(r, i, j);
    } else {
      var j :| 0 <= j < i && RepeatAt(r, w, i, j, false);
      InList(ProfilePair(r, p, i, j), 1);
      ProfilePairReported(r, i, j);
    }
  }

  lemma ProfilePairReported(r: Request, i: nat, j: nat)
    requires Comparable(r) && j < i < Scan(r) && Reported(ProfilePair(r, r.profile.value, i, j), PROFILE_REPEAT, i)
    requires !r.profile.value.allowConsecutive || !r.profile.value.allowNonconsecutive
    ensures Reported(ProfileChecks(r), PROFILE_REPEAT, i)
  {
    var p, n := r.profile.value, Scan(r);
    hide Reported; hide Gather; hide ProfileHead; hide ProfilePair;
    GatherReported(ProfilePairs(r, p, i, i), j, PROFILE_REPEAT, i);
    GatherReported(ProfileRows(r, p, n), i, PROFILE_REPEAT, i);
    ReportedLeft(ProfileHead(r, p) + Gather(ProfileSegments(r, p, n)), ProfileRepeats(r, p), PROFILE_REPEAT, i);
  }

  lemma ShapeReported(s: Segment, code: nat, i: nat)
    requires ShapeSays(s, code)
    ensures Reported(ShapeBlock(s, i), code, i)
  {
    hide BindingIncomplete; hide ReservedSet; hide NoReference;
    var b := ShapeBlock(s, i);
    if code == SEGMENT_ID_INVALID { InList(b, 0); }
    else if code == SEGMENT_GENERATION_INVALID { InList(b, 1); }
    else if code == SEGMENT_ENCODING_MISMATCH { InList(b, 2); }
    else if code == SEGMENT_BINDING_INCOMPLETE { InList(b, 3); }
    else if code == SEGMENT_RESERVED_SET { InList(b, 4); }
    else { InList(b, 5); }
  }

  lemma StructuralSegmentReported(r: Request, code: nat, i: nat)
    requires Comparable(r) && i < Scan(r)
    requires Reported(StructuralSegment(r, i), code, i)
             || (!r.segments[i].kind.KindInvalid? && Reported(ShapeBlock(r.segments[i], i), code, i))
    ensures Reported(StructuralChecks(r), code, i)
  {
    hide Reported; hide Gather; hide ShapeBlock; hide StructuralRows;
    var n := Scan(r);
    if !r.segments[i].kind.KindInvalid? { ReportedLeft(ShapeBlock(r.segments[i], i), [], code, i); }
    GatherReported(StructuralSegments(r, n), i, code, i);
    ReportedLeft(Gather(StructuralSegments(r, n)), Gather(StructuralRows(r, n)), code, i);
  }

  lemma DuplicateReported(r: Request, code: nat, i: nat)
    requires Comparable(r) && i < Scan(r)
    requires var p := r.profile.value;
             || (code == SEGMENT_DUP_CONSECUTIVE && !p.allowConsecutive && EqualBefore(r, p.payloadWidth, i, true))
             || (code == SEGMENT_DUP_NONCONSECUTIVE && !p.allowNonconsecutive
                 && EqualBefore(r, p.payloadWidth, i, false))
    ensures Reported(StructuralChecks(r), code, i)
  {
    hide RepeatAt; hide StructuralSegments; hide Gather;
    var w, n := r.profile.value.payloadWidth, Scan(r);
    var near := code == SEGMENT_DUP_CONSECUTIVE;
    var j :| 0 <= j < i && RepeatAt(r, w, i, j, near);
    InList(StructuralPair(r, i, j), if near then 0 else 1);
    GatherReported(StructuralPairs(r, i, i), j, code, i);
    GatherReported(StructuralRows(r, n), i, code, i);
    ReportedLeft(Gather(StructuralSegments(r, n)), Gather(StructuralRows(r, n)), code, i);
  }

  lemma ProductionReported(r: Request, code: nat, i: nat)
    requires Comparable(r) && ProductionSays(r, code, i)
    ensures Reported(SequenceChecks(r), code, i)
  {
    hide Reported; hide ProductionSays; hide ProductionSaysAt; hide EmptyChecks; hide ProfileChecks;
    hide StructuralChecks; hide CapabilityChecks; hide TopologyChecks; hide ResourceChecks; hide ProfileHead;
    if i < Scan(r) && ProductionSaysAt(r, code, i) { SegmentReported(r, code, i); } else { HeadReported(r, code, i); }
    HeadInProfile(r, code, i);
    var a, b, c := EmptyChecks(r), ProfileChecks(r), StructuralChecks(r);
    var d, e, f := CapabilityChecks(r), TopologyChecks(r), ResourceChecks(r);
    ReportedLeft(a, b, code, i);
    ReportedLeft(a + b, c, code, i);
    ReportedLeft(d, e, code, i);
    ReportedLeft(d + e, f, code, i);
    ReportedLeft(a + b + c, d + e + f, code, i);
  }

  lemma HeadInProfile(r: Request, code: nat, i: nat)
    requires Comparable(r)
    ensures Reported(ProfileHead(r, r.profile.value), code, i) ==> Reported(ProfileChecks(r), code, i)
  {
    hide Reported; hide ProfileHead; hide ProfileSegments; hide ProfileRepeats; hide Gather;
    var p, n := r.profile.value, Scan(r);
    ReportedLeft(ProfileHead(r, p), Gather(ProfileSegments(r, p, n)), code, i);
    ReportedLeft(ProfileHead(r, p) + Gather(ProfileSegments(r, p, n)), ProfileRepeats(r, p), code, i);
  }

  // ---------------------------------------------------------- what the oracle says

  /** The production code of the same name. */
  function Rename(code: nat): nat {
    if code == O_RESERVED_SET || code == O_MISSING_BINDING || code == O_BINDING_INCOMPLETE
       || code == O_ENCODING_MISMATCH || code == O_DUP_CONSECUTIVE || code == O_DUP_NONCONSECUTIVE
       || code == O_TOPOLOGY_UNAVAILABLE
    then code - 1 else code
  }

  /** The codes the oracle uses. */
  predicate OracleCode(code: nat) {
    170 <= code <= 180 || 250 <= code <= 252 || code == 255 || code == 256 || code == 258 || code == 259 || code == 264
    || code == 265 || code == 293 || code == 325 || code == 421 || code == 422
  }

  lemma RenameKeepsOrder(a: nat, b: nat)
    requires OracleCode(a) && OracleCode(b)
    ensures PhaseOf(Rename(a)) == PhaseOf(a) && (Rename(a) < Rename(b) <==> a < b)
  {}

  ghost predicate Previous(r: Request, i: nat)
    requires r.profile.Some? && i < |r.segments|
  {
    var w := r.profile.value.payloadWidth;
    i > 0 && Canon(r.segments[i - 1], w) == Canon(r.segments[i], w)
  }

  ghost predicate Earlier(r: Request, i: nat)
    requires r.profile.Some? && i < |r.segments|
  {
    var w := r.profile.value.payloadWidth;
    exists j :: 0 <= j < i - 1 && Canon(r.segments[j], w) == Canon(r.segments[i], w)
  }

  /** Which pairs the oracle reports, under the production names. */
  ghost predicate OracleSays(r: Request, code: nat, i: nat)
    requires r.profile.Some?
  {
    var p, n := r.profile.value, Scan(r);
    || (code == PROFILE_ID_INVALID && i == 0 && p.payloadWidth == 0)
    || (code == PROFILE_DEPTH_EXCEEDED && i == 0 && p.payloadWidth > 0 && |r.segments| > p.maxDepth)
    || (code == PROFILE_EMPTY && i == 0 && p.payloadWidth > 0 && r.segments == [] && !p.allowEmpty)
    || (code == CAPABILITY_UNAVAILABLE && i == 0 && p.capabilities != [])
    || (code == TOPOLOGY_UNAVAILABLE && i == 0 && HasAdjacency(r.segments[..n]))
    || (code == LIMIT_SEGMENTS_PER_LIST && i == 0 && |r.segments| > r.limits.maxSegmentsPerList)
    || (code == LIMIT_PAYLOAD_BYTES && i < |r.segments| && |r.segments[i].payload| > r.limits.maxPayloadBytes)
    || (i < n && OracleSaysAt(r, code, i))
  }

  ghost predicate OracleSaysAt(r: Request, code: nat, i: nat)
    requires r.profile.Some? && i < |r.segments|
  {
    var p, s := r.profile.value, r.segments[i];
    || (p.payloadWidth > 0 && code == PROFILE_KIND_NOT_ALLOWED && !MaskHas(p.kindsMask, s.kind))
    || (p.payloadWidth > 0 && code == PROFILE_KIND_MISMATCH && s.kind.KindInvalid?)
    || (p.payloadWidth > 0 && code == PROFILE_WIDTH_EXCEEDED && |s.payload| > p.payloadWidth)
    || (p.payloadWidth > 0 && code == PROFILE_REPEAT && ((!p.allowConsecutive && Previous(r, i))
                                                         || (!p.allowNonconsecutive && Earlier(r, i))))
    || (code == SEGMENT_KIND_INVALID && s.kind.KindInvalid?)
    || (!s.kind.KindInvalid? && OracleShapeSays(s, code))
    || (code == SEGMENT_DUP_CONSECUTIVE && Previous(r, i))
    || (code == SEGMENT_DUP_NONCONSECUTIVE && Earlier(r, i))
  }

  ghost predicate OracleShapeSays(s: Segment, code: nat) {
    || (code == SEGMENT_ID_INVALID && s.id == 0)
    || (code == SEGMENT_GENERATION_INVALID && s.generation == 0)
    || (code == SEGMENT_ENCODING_MISMATCH && s.encoding != EncUnset && s.encoding != ExpectedEncoding(s.kind))
    || (code == SEGMENT_BINDING_INCOMPLETE && !AllZero(s) && RequiredMissing(s))
    || (code == SEGMENT_RESERVED_SET && UnusedSet(s))
    || (code == SEGMENT_MISSING_BINDING && AllZero(s))
  }

  function OracleDetail(r: Request, code: nat, i: nat): nat
    requires r.profile.Some?
  {
    var p := r.profile.value;
    if code == PROFILE_DEPTH_EXCEEDED then p.maxDepth
    else if code == LIMIT_SEGMENTS_PER_LIST then r.limits.maxSegmentsPerList
    else if code == LIMIT_PAYLOAD_BYTES then r.limits.maxPayloadBytes
    else if i >= |r.segments| then 0
    else
      var s := r.segments[i];
      if code == PROFILE_KIND_NOT_ALLOWED then s.kind.Code()
      else if code == PROFILE_WIDTH_EXCEEDED then p.payloadWidth
      else if code == O_ENCODING_MISMATCH then s.encoding.Code()
      else if code == O_DUP_CONSECUTIVE || code == O_DUP_NONCONSECUTIVE then s.id
      else 0
  }

  ghost predicate OracleAllowed(r: Request, cs: seq<Check>)
    requires r.profile.Some?
  {
    forall c :: c in cs && c.fails ==>
      && OracleCode(c.reason.code) && OracleSays(r, Rename(c.reason.code), c.reason.index)
      && c.reason.detail == OracleDetail(r, c.reason.code, c.reason.index)
  }

  lemma GatherOracleAllowed(r: Request, parts: seq<seq<Check>>)
    requires r.profile.Some? && forall k :: 0 <= k < |parts| ==> OracleAllowed(r, parts[k])
    ensures OracleAllowed(r, Gather(parts))
  {
    hide OracleSays; hide OracleDetail; hide OracleCode; hide Rename;
    GatherMembers(parts);
  }

  lemma JoinOracleAllowed(r: Request, a: seq<Check>, b: seq<Check>)
    requires r.profile.Some? && OracleAllowed(r, a) && OracleAllowed(r, b)
    ensures OracleAllowed(r, a + b)
  {
    hide OracleSays; hide OracleDetail; hide OracleCode; hide Rename;
  }

  lemma FactsAgree(r: Request, i: nat)
    requires r.profile.Some? && i < |r.segments|
    ensures RepeatsPrevious(CanonAll(ScenarioOf(r)), i) <==> Previous(r, i)
    ensures RepeatsEarlier(CanonAll(ScenarioOf(r)), i) <==> Earlier(r, i)
  {
    hide Canon;
    var canon := CanonAll(ScenarioOf(r));
    if Earlier(r, i) {
      var j :| 0 <= j < i - 1 && Canon(r.segments[j], r.profile.value.payloadWidth)
                                 == Canon(r.segments[i], r.profile.value.payloadWidth);
      assert canon[j] == canon[i];
    }
    if RepeatsEarlier(canon, i) {
      var j :| 0 <= j < i - 1 && canon[j] == canon[i];
      assert Canon(r.segments[j], r.profile.value.payloadWidth) == Canon(r.segments[i], r.profile.value.payloadWidth);
    }
  }

  lemma KindsAgree(r: Request, k: SegmentKind)
    requires r.profile.Some?
    ensures k in ScenarioOf(r).allowed <==> MaskHas(r.profile.value.kindsMask, k)
  {
    assert k in ALL_KINDS;
  }

  lemma ProfileBlockAllowed(r: Request, i: nat)
    requires r.profile.Some? && i < Scan(r) && r.profile.value.payloadWidth > 0
    ensures OracleAllowed(r, ProfileBlock(ScenarioOf(r), CanonAll(ScenarioOf(r)), i))
  {
    hide RepeatsPrevious; hide RepeatsEarlier; hide Previous; hide Earlier; hide CanonAll; hide MaskHas;
    hide ScenarioOf;
    ScenarioParts(r);
    FactsAgree(r, i);
    KindsAgree(r, r.segments[i].kind);
  }

  lemma ScenarioParts(r: Request)
    requires r.profile.Some?
    ensures var sc, p := ScenarioOf(r), r.profile.value;
            && sc.segments == r.segments && sc.width == p.payloadWidth && sc.depth == p.maxDepth
            && sc.allowEmpty == p.allowEmpty && sc.allowConsecutive == p.allowConsecutive
            && sc.allowNonconsecutive == p.allowNonconsecutive && sc.requiredCapabilities == |p.capabilities|
            && sc.maxSegments == r.limits.maxSegmentsPerList && sc.maxPayload == r.limits.maxPayloadBytes
            && Scanned(sc) == Scan(r)
  {}

  lemma StructureBlockAllowed(r: Request, i: nat)
    requires r.profile.Some? && i < Scan(r)
    ensures OracleAllowed(r, StructureBlock(ScenarioOf(r), CanonAll(ScenarioOf(r)), i))
  {
    hide RepeatsPrevious; hide RepeatsEarlier; hide Previous; hide Earlier; hide ScenarioOf; hide AllZero;
    hide RequiredMissing; hide UnusedSet;
    ScenarioParts(r);
    FactsAgree(r, i);
  }

  lemma OracleEvidenceAllowed(r: Request)
    requires r.profile.Some?
    ensures OracleAllowed(r, OracleEvidence(ScenarioOf(r)))
  {}

  lemma OracleProfileAllowed(r: Request)
    requires r.profile.Some?
    ensures OracleAllowed(r, OracleProfile(ScenarioOf(r), CanonAll(ScenarioOf(r))))
  {
    hide OracleAllowed; hide ProfileBlock; hide ScenarioOf; hide CanonAll; hide OracleProfileHead;
    var sc := ScenarioOf(r);
    var canon := CanonAll(sc);
    ScenarioParts(r);
    if sc.width == 0 {
      NoWidthAllowed(r);
    } else {
      forall i | 0 <= i < Scan(r) ensures OracleAllowed(r, ProfileBlocks(sc, canon, Scan(r))[i]) {
        ProfileBlockAllowed(r, i);
      }
      GatherOracleAllowed(r, ProfileBlocks(sc, canon, Scan(r)));
      OracleHeadAllowed(r);
      JoinOracleAllowed(r, OracleProfileHead(sc), Gather(ProfileBlocks(sc, canon, Scan(r))));
    }
  }

  lemma NoWidthAllowed(r: Request)
    requires r.profile.Some? && r.profile.value.payloadWidth == 0
    ensures OracleAllowed(r, [C(true, PROFILE_ID_INVALID, 0, 0)])
  {}

  lemma OracleHeadAllowed(r: Request)
    requires r.profile.Some? && r.profile.value.payloadWidth > 0
    ensures OracleAllowed(r, OracleProfileHead(ScenarioOf(r)))
  {}

  lemma OraclePayloadAllowed(r: Request, i: nat)
    requires r.profile.Some? && i < |r.segments|
    ensures OracleAllowed(r, OraclePayload(ScenarioOf(r), i))
  {}

  lemma OracleAllAllowed(r: Request)
    requires r.profile.Some?
    ensures OracleAllowed(r, OracleChecks(ScenarioOf(r)))
  {
    hide OracleAllowed; hide ScenarioOf; hide CanonAll; hide StructureBlock; hide OracleEvidence; hide OraclePayload;
    hide OracleProfile;
    var sc := ScenarioOf(r);
    var canon := CanonAll(sc);
    ScenarioParts(r);
    OracleProfileAllowed(r);
    forall i | 0 <= i < Scan(r) ensures OracleAllowed(r, StructureBlocks(sc, canon, Scan(r))[i]) {
      StructureBlockAllowed(r, i);
    }
    GatherOracleAllowed(r, StructureBlocks(sc, canon, Scan(r)));
    OracleEvidenceAllowed(r);
    forall i | 0 <= i < |r.segments| ensures OracleAllowed(r, OraclePayloads(sc, |r.segments|)[i]) {
      OraclePayloadAllowed(r, i);
    }
    GatherOracleAllowed(r, OraclePayloads(sc, |r.segments|));
    JoinOracleAllowed(r, OracleEvidence(sc), Gather(OraclePayloads(sc, |r.segments|)));
    JoinOracleAllowed(r, Gather(StructureBlocks(sc, canon, Scan(r))),
                      OracleEvidence(sc) + Gather(OraclePayloads(sc, |r.segments|)));
    JoinOracleAllowed(r, OracleProfile(sc, canon),
                      Gather(StructureBlocks(sc, canon, Scan(r)))
                      + (OracleEvidence(sc) + Gather(OraclePayloads(sc, |r.segments|))));
  }

  /** Reported under the production name. */
  ghost predicate Named(cs: seq<Check>, code: nat, i: nat) {
    exists c :: c in cs && c.fails && Rename(c.reason.code) == code && c.reason.index == i
  }

  lemma NamedAt(cs: seq<Check>, k: nat)
    requires k < |cs| && cs[k].fails
    ensures Named(cs, Rename(cs[k].reason.code), cs[k].reason.index)
  {
    assert cs[k] in cs;
  }

  lemma NamedEither(a: seq<Check>, b: seq<Check>, code: nat, i: nat)
    ensures Named(a + b, code, i) <==> Named(a, code, i) || Named(b, code, i)
  {
    hide Rename;
    if Named(a, code, i) {
      var c :| c in a && c.fails && Rename(c.reason.code) == code && c.reason.index == i;
      assert c in a + b;
    }
    if Named(b, code, i) {
      var c :| c in b && c.fails && Rename(c.reason.code) == code && c.reason.index == i;
      assert c in a + b;
    }
  }

  lemma GatherNamed(parts: seq<seq<Check>>, k: nat, code: nat, i: nat)
    requires k < |parts| && Named(parts[k], code, i)
    ensures Named(Gather(parts), code, i)
  {
    hide Rename;
    GatherMembers(parts);
    var c :| c in parts[k] && c.fails && Rename(c.reason.code) == code && c.reason.index == i;
    assert c in Gather(parts);
  }

  lemma OracleHeadNamed(r: Request, code: nat, i: nat)
    requires r.profile.Some? && OracleSays(r, code, i) && !(i < Scan(r) && OracleSaysAt(r, code, i))
    ensures Named(OracleProfile(ScenarioOf(r), CanonAll(ScenarioOf(r))), code, i)
            || Named(OracleEvidence(ScenarioOf(r)), code, i)
            || Named(Gather(OraclePayloads(ScenarioOf(r), |r.segments|)), code, i)
  {
    hide OracleSaysAt; hide ScenarioOf; hide CanonAll; hide Gather;
    ScenarioParts(r);
    var sc := ScenarioOf(r);
    var h, e := OracleProfileHead(sc), OracleEvidence(sc);
    if code == PROFILE_ID_INVALID { NamedAt([C(true, PROFILE_ID_INVALID, 0, 0)], 0); }
    else if code == PROFILE_DEPTH_EXCEEDED { NamedAt(h, 0); OracleHeadInProfile(r, code, i); }
    else if code == PROFILE_EMPTY { NamedAt(h, 1); OracleHeadInProfile(r, code, i); }
    else if code == CAPABILITY_UNAVAILABLE { NamedAt(e, 0); }
    else if code == TOPOLOGY_UNAVAILABLE { NamedAt(e, 1); }
    else if code == LIMIT_SEGMENTS_PER_LIST { NamedAt(e, 2); }
    else {
      NamedAt(OraclePayload(sc, i), 0);
      GatherNamed(OraclePayloads(sc, |r.segments|), i, code, i);
    }
  }

  lemma OracleHeadInProfile(r: Request, code: nat, i: nat)
    requires r.profile.Some? && r.profile.value.payloadWidth > 0 && Named(OracleProfileHead(ScenarioOf(r)), code, i)
    ensures Named(OracleProfile(ScenarioOf(r), CanonAll(ScenarioOf(r))), code, i)
  {
    hide Named; hide OracleProfileHead; hide Gather; hide CanonAll; hide ScenarioOf;
    ScenarioParts(r);
    var sc := ScenarioOf(r);
    NamedEither(OracleProfileHead(sc), Gather(ProfileBlocks(sc, CanonAll(sc), Scanned(sc))), code, i);
  }

  lemma ProfileBlockNamed(r: Request, code: nat, i: nat)
    requires r.profile.Some? && r.profile.value.payloadWidth > 0 && i < Scan(r)
    requires Named(ProfileBlock(ScenarioOf(r), CanonAll(ScenarioOf(r)), i), code, i)
    ensures Named(OracleProfile(ScenarioOf(r), CanonAll(ScenarioOf(r))), code, i)
  {
    hide Named; hide OracleProfileHead; hide Gather; hide CanonAll; hide ScenarioOf; hide ProfileBlock;
    ScenarioParts(r);
    var sc := ScenarioOf(r);
    GatherNamed(ProfileBlocks(sc, CanonAll(sc), Scanned(sc)), i, code, i);
    NamedEither(OracleProfileHead(sc), Gather(ProfileBlocks(sc, CanonAll(sc), Scanned(sc))), code, i);
  }

  lemma OracleSegmentNamed(r: Request, code: nat, i: nat)
    requires r.profile.Some? && i < Scan(r) && OracleSaysAt(r, code, i)
    ensures Named(OracleProfile(ScenarioOf(r), CanonAll(ScenarioOf(r))), code, i)
            || Named(StructureBlock(ScenarioOf(r), CanonAll(ScenarioOf(r)), i), code, i)
  {
    hide ScenarioOf; hide Previous; hide Earlier; hide RepeatsPrevious; hide RepeatsEarlier; hide OracleProfile;
    hide AllZero; hide RequiredMissing; hide UnusedSet; hide MaskHas;
    ScenarioParts(r);
    FactsAgree(r, i);
    var sc, s := ScenarioOf(r), r.segments[i];
    KindsAgree(r, s.kind);
    var canon := CanonAll(sc);
    var p, q := ProfileBlock(sc, canon, i), StructureBlock(sc, canon, i);
    if code == PROFILE_KIND_NOT_ALLOWED { NamedAt(p, 2); ProfileBlockNamed(r, code, i); }
    else if code == PROFILE_KIND_MISMATCH { NamedAt(p, 4); ProfileBlockNamed(r, code, i); }
    else if code == PROFILE_WIDTH_EXCEEDED { NamedAt(p, 3); ProfileBlockNamed(r, code, i); }
    else if code == PROFILE_REPEAT {
      NamedAt(p, if !sc.allowConsecutive && Previous(r, i) then 0 else 1);
      ProfileBlockNamed(r, code, i);
    }
    else if code == SEGMENT_DUP_CONSECUTIVE { NamedAt(q, |q| - 2); }
    else if code == SEGMENT_DUP_NONCONSECUTIVE { NamedAt(q, |q| - 1); }
    else if code == SEGMENT_KIND_INVALID { NamedAt(q, 0); }
    else if code == SEGMENT_ID_INVALID { NamedAt(q, 0); }
    else if code == SEGMENT_GENERATION_INVALID { NamedAt(q, 1); }
    else if code == SEGMENT_ENCODING_MISMATCH { NamedAt(q, 2); }
    else if code == SEGMENT_MISSING_BINDING { NamedAt(q, 3); }
    else if code == SEGMENT_BINDING_INCOMPLETE { NamedAt(q, 4); }
    else { NamedAt(q, 5); }
  }

  lemma OracleNamed(r: Request, code: nat, i: nat)
    requires r.profile.Some? && OracleSays(r, code, i)
    ensures Named(OracleChecks(ScenarioOf(r)), code, i)
  {
    hide Named; hide OracleSays; hide OracleSaysAt; hide ScenarioOf; hide OracleProfile; hide OracleEvidence;
    hide StructureBlock; hide Gather; hide CanonAll;
    ScenarioParts(r);
    var sc := ScenarioOf(r);
    var canon := CanonAll(sc);
    var b := Gather(StructureBlocks(sc, canon, Scanned(sc)));
    if i < Scan(r) && OracleSaysAt(r, code, i) {
      OracleSegmentNamed(r, code, i);
      if Named(StructureBlock(sc, canon, i), code, i) {
        GatherNamed(StructureBlocks(sc, canon, Scanned(sc)), i, code, i);
      }
    } else {
      OracleHeadNamed(r, code, i);
    }
    var a, c, d := OracleProfile(sc, canon), OracleEvidence(sc), Gather(OraclePayloads(sc, |r.segments|));
    NamedEither(c, d, code, i);
    NamedEither(b, c + d, code, i);
    NamedEither(a, b + (c + d), code, i);
  }

  // ---------------------------------------------------------------- ordered key lists

  /** A reason without its detail: ordered by phase, code and index. */
  function ProductionKey(x: Reason): Reason { Reason(x.code, x.index, 0) }
  function OracleKey(x: Reason): Reason { Reason(Rename(x.code), x.index, 0) }

  function ProductionKeys(rs: seq<Reason>): (ks: seq<Reason>)
    ensures |ks| == |rs| && forall i :: 0 <= i < |rs| ==> ks[i] == ProductionKey(rs[i])
  {
    seq(|rs|, i requires 0 <= i < |rs| => ProductionKey(rs[i]))
  }
  function OracleKeys(rs: seq<Reason>): (ks: seq<Reason>)
    ensures |ks| == |rs| && forall i :: 0 <= i < |rs| ==> ks[i] == OracleKey(rs[i])
  {
    seq(|rs|, i requires 0 <= i < |rs| => OracleKey(rs[i]))
  }

  ghost predicate IsKey(k: Reason) { k.detail == 0 }

  lemma ProductionKeysSorted(r: Request, cs: seq<Check>, rs: seq<Reason>)
    requires r.profile.Some? && Allowed(r, cs) && Sorted(rs) && forall x :: x in rs <==> Fails(cs, x)
    ensures Sorted(ProductionKeys(rs))
    ensures forall k :: k in ProductionKeys(rs) <==> IsKey(k) && Reported(cs, k.code, k.index)
  {
    hide ProductionSays; hide DetailOf; hide PhaseOf;
    var ks := ProductionKeys(rs);
    forall i, j | 0 <= i < j < |ks| ensures Less(ks[i], ks[j]) {
      assert Less(rs[i], rs[j]);
      assert rs[i] in rs && rs[j] in rs;
      assert Fails(cs, rs[i]) && Fails(cs, rs[j]);
    }
    forall k ensures k in ks <==> IsKey(k) && Reported(cs, k.code, k.index) {
      if k in ks {
        var i :| 0 <= i < |ks| && ks[i] == k;
        assert rs[i] in rs && Fails(cs, rs[i]);
        assert Check(true, rs[i]) in cs;
      }
      if IsKey(k) && Reported(cs, k.code, k.index) {
        var c :| c in cs && c.fails && c.reason.code == k.code && c.reason.index == k.index;
        assert c == Check(true, c.reason) && Fails(cs, c.reason);
        var i :| 0 <= i < |rs| && rs[i] == c.reason;
        assert ks[i] == k;
      }
    }
  }

  lemma RenamedLess(a: Reason, b: Reason)
    requires OracleCode(a.code) && OracleCode(b.code) && Less(a, b)
    requires a.code == b.code && a.index == b.index ==> a.detail == b.detail
    ensures Less(OracleKey(a), OracleKey(b))
  {
    RenameKeepsOrder(a.code, b.code);
    RenameKeepsOrder(b.code, a.code);
    hide PhaseOf; hide Rename;
  }

  lemma OracleKeysSorted(r: Request, cs: seq<Check>, rs: seq<Reason>)
    requires r.profile.Some? && OracleAllowed(r, cs) && Sorted(rs) && forall x :: x in rs <==> Fails(cs, x)
    ensures Sorted(OracleKeys(rs))
    ensures forall k :: k in OracleKeys(rs) <==> IsKey(k) && Named(cs, k.code, k.index)
  {
    hide OracleSays; hide OracleDetail; hide PhaseOf; hide Rename; hide OracleCode;
    var ks := OracleKeys(rs);
    forall i, j | 0 <= i < j < |ks| ensures Less(ks[i], ks[j]) {
      assert rs[i] in rs && rs[j] in rs;
      assert Fails(cs, rs[i]) && Fails(cs, rs[j]);
      RenamedLess(rs[i], rs[j]);
    }
    forall k ensures k in ks <==> IsKey(k) && Named(cs, k.code, k.index) {
      if k in ks {
        var i :| 0 <= i < |ks| && ks[i] == k;
        assert rs[i] in rs && Fails(cs, rs[i]);
        assert Check(true, rs[i]) in cs;
      }
      if IsKey(k) && Named(cs, k.code, k.index) {
        var c :| c in cs && c.fails && Rename(c.reason.code) == k.code && c.reason.index == k.index;
        assert c == Check(true, c.reason) && Fails(cs, c.reason);
        var i :| 0 <= i < |rs| && rs[i] == c.reason;
        assert ks[i] == k;
      }
    }
  }

  // ---------------------------------------------------------------------- the scope

  /** Whenever cutting payloads to the width makes an earlier segment equal to the one at `i`, the profile forbids that
      kind of repeat, and the repeat is there without cutting as well. */
  ghost predicate RepeatsForbidden(r: Request, i: nat)
    requires r.profile.Some? && i < |r.segments|
  {
    var p := r.profile.value;
    && (Previous(r, i) ==> !p.allowConsecutive && EqualBefore(r, p.payloadWidth, i, true))
    && (Earlier(r, i) ==> !p.allowNonconsecutive && EqualBefore(r, p.payloadWidth, i, false))
  }

  /** The requests both validators judge alike. */
  ghost predicate JointScope(r: Request)
    requires r.profile.Some?
  {
    var p, n := r.profile.value, Scan(r);
    && p.payloadWidth >= 1 && p.generation != 0 && (r.segments == [] ==> p.allowEmpty)
    && (forall i :: 0 <= i < n ==> r.segments[i].kind.KindInvalid? || !NoReference(r.segments[i]))
    && (forall i :: 0 <= i < n ==> RepeatsForbidden(r, i))
    && (HasAdjacency(r.segments) ==> HasAdjacency(r.segments[..n]))
  }

  ghost predicate SameTables(r: Request)
    requires r.profile.Some?
  {
    forall code: nat, i: nat :: ProductionSays(r, code, i) <==> OracleSays(r, code, i)
  }

  lemma NearAndFar(r: Request, i: nat)
    requires r.profile.Some? && i < |r.segments|
    ensures EqualBefore(r, r.profile.value.payloadWidth, i, true) ==> Previous(r, i)
    ensures EqualBefore(r, r.profile.value.payloadWidth, i, false) ==> Earlier(r, i)
  {
    hide SemanticEqual; hide Canon;
    var w := r.profile.value.payloadWidth;
    forall j | 0 <= j < i && SemanticEqual(r.segments[j], r.segments[i], w)
      ensures Canon(r.segments[j], w) == Canon(r.segments[i], w)
    {
      SemanticIsCanon(r.segments[j], r.segments[i], w);
    }
    if EqualBefore(r, w, i, false) {
      var j :| 0 <= j < i && RepeatAt(r, w, i, j, false);
      assert 0 <= j < i - 1 && Canon(r.segments[j], w) == Canon(r.segments[i], w);
    }
  }

  lemma ShapesAgree(s: Segment, code: nat)
    requires !s.kind.KindInvalid? && !NoReference(s)
    ensures ShapeSays(s, code) <==> OracleShapeSays(s, code)
  {}

  lemma ScopeAtSegment(r: Request, code: nat, i: nat)
    requires Comparable(r) && JointScope(r) && i < Scan(r)
    ensures ProductionSaysAt(r, code, i) <==> OracleSaysAt(r, code, i)
  {
    hide ShapeSays; hide OracleShapeSays; hide EqualBefore; hide Previous; hide Earlier; hide NoReference; hide MaskHas;
    NearAndFar(r, i);
    assert RepeatsForbidden(r, i);
    if !r.segments[i].kind.KindInvalid? { ShapesAgree(r.segments[i], code); }
  }

  lemma ScopeSuffices(r: Request)
    requires Comparable(r) && JointScope(r)
    ensures SameTables(r)
  {
    hide ProductionSaysAt; hide OracleSaysAt; hide NoReference; hide RepeatsForbidden;
    assert HasAdjacency(r.segments[..Scan(r)]) ==> HasAdjacency(r.segments);
    forall code: nat, i: nat ensures ProductionSays(r, code, i) <==> OracleSays(r, code, i) {
      if i < Scan(r) { ScopeAtSegment(r, code, i); }
    }
  }

  lemma UnboundDiffers(r: Request, i: nat)
    requires r.profile.Some? && i < Scan(r) && !r.segments[i].kind.KindInvalid? && NoReference(r.segments[i])
    ensures !SameTables(r)
  {
    var s := r.segments[i];
    hide EqualBefore; hide Previous; hide Earlier; hide MaskHas;
    assert ProductionSays(r, SEGMENT_BINDING_INCOMPLETE, i) && ProductionSays(r, SEGMENT_MISSING_BINDING, i);
    assert !OracleSays(r, SEGMENT_BINDING_INCOMPLETE, i) || !OracleSays(r, SEGMENT_MISSING_BINDING, i);
  }

  lemma RepeatDiffers(r: Request, i: nat)
    requires r.profile.Some? && i < Scan(r) && !RepeatsForbidden(r, i)
    ensures !SameTables(r)
  {
    hide EqualBefore; hide Previous; hide Earlier; hide MaskHas; hide BindingIncomplete; hide ReservedSet;
    hide NoReference;
    hide AllZero; hide RequiredMissing; hide UnusedSet;
    var p := r.profile.value;
    if Previous(r, i) && !(!p.allowConsecutive && EqualBefore(r, p.payloadWidth, i, true)) {
      assert OracleSays(r, SEGMENT_DUP_CONSECUTIVE, i) && !ProductionSays(r, SEGMENT_DUP_CONSECUTIVE, i);
    } else {
      assert OracleSays(r, SEGMENT_DUP_NONCONSECUTIVE, i) && !ProductionSays(r, SEGMENT_DUP_NONCONSECUTIVE, i);
    }
  }

  lemma HeadDiffers(r: Request)
    requires Comparable(r) && SameTables(r)
    ensures var p := r.profile.value;
            && p.payloadWidth >= 1 && p.generation != 0 && (r.segments == [] ==> p.allowEmpty)
            && (HasAdjacency(r.segments) ==> HasAdjacency(r.segments[..Scan(r)]))
  {
    hide EqualBefore; hide Previous; hide Earlier; hide MaskHas; hide ShapeSays; hide OracleShapeSays;
    NoSuchShape(r);
    assert ProductionSays(r, PROFILE_ID_INVALID, 0) <==> OracleSays(r, PROFILE_ID_INVALID, 0);
    assert ProductionSays(r, PROFILE_GENERATION_INVALID, 0) <==> OracleSays(r, PROFILE_GENERATION_INVALID, 0);
    assert ProductionSays(r, LIST_EMPTY, 0) <==> OracleSays(r, LIST_EMPTY, 0);
    assert ProductionSays(r, TOPOLOGY_UNAVAILABLE, 0) <==> OracleSays(r, TOPOLOGY_UNAVAILABLE, 0);
  }

  lemma NoSuchShape(r: Request)
    ensures forall s, code :: code < 250 || code == TOPOLOGY_UNAVAILABLE ==>
              !ShapeSays(s, code) && !OracleShapeSays(s, code)
  {}

  lemma ScopeNecessary(r: Request)
    requires Comparable(r) && SameTables(r)
    ensures JointScope(r)
  {
    hide SameTables; hide RepeatsForbidden; hide NoReference; hide HasAdjacency;
    HeadDiffers(r);
    forall i | 0 <= i < Scan(r) ensures r.segments[i].kind.KindInvalid? || !NoReference(r.segments[i]) {
      if !r.segments[i].kind.KindInvalid? && NoReference(r.segments[i]) { UnboundDiffers(r, i); }
    }
    forall i | 0 <= i < Scan(r) ensures RepeatsForbidden(r, i) {
      if !RepeatsForbidden(r, i) { RepeatDiffers(r, i); }
    }
  }

  /** The two key lists are strictly sorted lists of what the two tables say. */
  lemma KeyLists(r: Request, cap: nat)
    requires Comparable(r) && !Collect(cap, SequenceChecks(r)).truncated && RealCodes(SequenceChecks(r))
    ensures var a := ProductionKeys(Collect(cap, SequenceChecks(r)).reasons);
            && Sorted(a) && forall k :: k in a <==> IsKey(k) && ProductionSays(r, k.code, k.index)
    ensures var b := OracleKeys(OracleReasons(ScenarioOf(r)));
            && Sorted(b) && forall k :: k in b <==> IsKey(k) && OracleSays(r, k.code, k.index)
  {
    hide ProductionSays; hide OracleSays; hide SequenceChecks; hide OracleChecks; hide ScenarioOf; hide Collect;
    hide Less;
    hide Rename; hide OracleCode; hide DetailOf; hide OracleDetail;
    var cs, os := SequenceChecks(r), OracleChecks(ScenarioOf(r));
    ProductionAllowed(r);
    CollectExact(cap, cs);
    ProductionKeysSorted(r, cs, Collect(cap, cs).reasons);
    OracleAllAllowed(r);
    FailingMembers(os);
    SortUniqueMeaning(Failing(os));
    OracleKeysSorted(r, os, OracleReasons(ScenarioOf(r)));
    forall code: nat, i: nat ensures Reported(cs, code, i) <==> ProductionSays(r, code, i) {
      if ProductionSays(r, code, i) { ProductionReported(r, code, i); }
    }
    forall code: nat, i: nat ensures Named(os, code, i) <==> OracleSays(r, code, i) {
      if OracleSays(r, code, i) { OracleNamed(r, code, i); }
    }
  }

  lemma SequenceCodes(r: Request)
    requires Comparable(r)
    ensures RealCodes(SequenceChecks(r))
  {
    hide EmptyChecks; hide ProfileChecks; hide StructuralChecks; hide CapabilityChecks; hide TopologyChecks;
    hide ResourceChecks;
    EmptyPhase(r); ProfilePhase(r); StructuralPhase(r); CapabilityPhase(r); TopologyPhase(r); ResourcePhase(r);
    forall c | c in SequenceChecks(r) ensures c.reason.code != 0 && c.reason.code != LIMIT_REASONS {
      assert c in EmptyChecks(r) || c in ProfileChecks(r) || c in StructuralChecks(r) || c in CapabilityChecks(r)
             || c in TopologyChecks(r) || c in ResourceChecks(r);
    }
  }

  lemma EmptyPhase(r: Request)
    ensures InPhase(EmptyChecks(r), 4)
  {}

  /** Two validators written apart.  Given the same sequence and profile and no evidence, and a production list that was
      not truncated, both report the same ordered list of (phase, code, index) exactly when the request is in the joint
      scope. */
  lemma OracleAgreesExactly(r: Request)
    requires Comparable(r) && !Collect(r.limits.maxReasons, SequenceChecks(r)).truncated
    ensures var production := ProductionKeys(Collect(r.limits.maxReasons, SequenceChecks(r)).reasons);
            var oracle := OracleKeys(OracleReasons(ScenarioOf(r)));
            production == oracle <==> JointScope(r)
  {
    hide JointScope; hide ProductionSays; hide OracleSays; hide SequenceChecks; hide ScenarioOf; hide Collect;
    hide Less;
    hide OracleReasons; hide RealCodes;
    SequenceCodes(r);
    KeyLists(r, r.limits.maxReasons);
    var a := ProductionKeys(Collect(r.limits.maxReasons, SequenceChecks(r)).reasons);
    var b := OracleKeys(OracleReasons(ScenarioOf(r)));
    if JointScope(r) {
      ScopeSuffices(r);
      SortedUnique(a, b);
    }
    if a == b {
      forall code: nat, i: nat ensures ProductionSays(r, code, i) <==> OracleSays(r, code, i) {
        var k := Reason(code, i, 0);
        assert IsKey(k);
        assert k in a <==> k in b;
      }
      ScopeNecessary(r);
    }
  }

  /** With all payloads within the width the scope is simple: a usable profile, a permitted length, every real segment
      bound to something, no repeat that the profile permits, and no adjacency only beyond the scanned prefix. */
  lemma ScopeWithinWidth(r: Request)
    requires Comparable(r) && forall i :: 0 <= i < |r.segments| ==>
               |r.segments[i].payload| <= r.profile.value.payloadWidth
    ensures var p, n := r.profile.value, Scan(r);
            JointScope(r) <==>
              && p.payloadWidth >= 1 && p.generation != 0 && (r.segments == [] ==> p.allowEmpty)
              && (forall i :: 0 <= i < n ==> r.segments[i].kind.KindInvalid? || !NoReference(r.segments[i]))
              && (forall i :: 0 <= i < n ==>
                    && (EqualBefore(r, p.payloadWidth, i, true) ==> !p.allowConsecutive)
                    && (EqualBefore(r, p.payloadWidth, i, false) ==> !p.allowNonconsecutive))
              && (HasAdjacency(r.segments) ==> HasAdjacency(r.segments[..n]))
  {
    hide NoReference; hide EqualBefore; hide Previous; hide Earlier;
    forall i | 0 <= i < Scan(r)
      ensures Previous(r, i) <==> EqualBefore(r, r.profile.value.payloadWidth, i, true)
      ensures Earlier(r, i) <==> EqualBefore(r, r.profile.value.payloadWidth, i, false)
    {
      NearAndFar(r, i);
      WithinWidthRepeats(r, i);
    }
    assert forall i :: 0 <= i < Scan(r) ==>
             (RepeatsForbidden(r, i) <==>
                && (EqualBefore(r, r.profile.value.payloadWidth, i, true) ==> !r.profile.value.allowConsecutive)
                && (EqualBefore(r, r.profile.value.payloadWidth, i, false) ==> !r.profile.value.allowNonconsecutive));
  }

  lemma WithinWidthRepeats(r: Request, i: nat)
    requires r.profile.Some? && i < |r.segments|
    requires forall j :: 0 <= j < |r.segments| ==> |r.segments[j].payload| <= r.profile.value.payloadWidth
    ensures Previous(r, i) ==> EqualBefore(r, r.profile.value.payloadWidth, i, true)
    ensures Earlier(r, i) ==> EqualBefore(r, r.profile.value.payloadWidth, i, false)
  {
    hide SemanticEqual; hide Canon;
    var w := r.profile.value.payloadWidth;
    if Previous(r, i) {
      SemanticIsCanon(r.segments[i - 1], r.segments[i], w);
      assert RepeatAt(r, w, i, i - 1, true);
    }
    if Earlier(r, i) {
      var j :| 0 <= j < i - 1 && Canon(r.segments[j], w) == Canon(r.segments[i], w);
      SemanticIsCanon(r.segments[j], r.segments[i], w);
      assert RepeatAt(r, w, i, j, false);
    }
  }
}
