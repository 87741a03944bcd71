/** The independent sequence validator (`oracle/oracle_main.cpp`). */
module SrfOracle {
  import opened SrfTypes
  import opened SrfBytes
  import opened SrfReasons
  import opened SrfCanonical
  import opened SrfValidation

  /** What the validator reads: a profile, the segments and two limits. */
  datatype Scenario = Scenario(
    allowed: set<SegmentKind>, depth: u64, width: u64, allowEmpty: bool, allowConsecutive: bool,
    allowNonconsecutive: bool, requiredCapabilities: nat, maxSegments: u64, maxPayload: u64, segments: seq<Segment>)

  // The codes whose numbers differ from the production enumeration.
  const O_RESERVED_SET := 255
  const O_MISSING_BINDING := 256
  const O_BINDING_INCOMPLETE := 258
  const O_ENCODING_MISMATCH := 259
  const O_DUP_CONSECUTIVE := 264
  const O_DUP_NONCONSECUTIVE := 265
  const O_TOPOLOGY_UNAVAILABLE := 325

  const MAX_ENCODED: nat := 0x100_0000

  // ------------------------------------------------------------------ canonical form

  /** A payload without its trailing zeros. */
  function Trim(p: Bytes): (t: Bytes)
    ensures t <= p
  {
    if p != [] && p[|p| - 1] == 0 then Trim(p[..|p| - 1]) else p
  }

  function Kept(p: Bytes, width: nat): Bytes { if |p| < width then p else p[..width] }

  /** Encoding filled in, payload cut to the width, trailing zeros dropped: equal segments become identical. */
  function Canon(s: Segment, width: nat): Segment {
    s.(encoding := if s.encoding == EncUnset then ExpectedEncoding(s.kind) else s.encoding,
       payload := Trim(Kept(s.payload, width)))
  }

  function CanonAll(sc: Scenario): (r: seq<Segment>)
    ensures |r| == |sc.segments| && forall i :: 0 <= i < |r| ==> r[i] == Canon(sc.segments[i], sc.width)
  {
    seq(|sc.segments|, i requires 0 <= i < |sc.segments| => Canon(sc.segments[i], sc.width))
  }

  method Canonicalize(sc: Scenario) returns (canon: seq<Segment>)
    ensures canon == CanonAll(sc)
  {
    canon := [];
    for i := 0 to |sc.segments|
      invariant |canon| == i && forall k :: 0 <= k < i ==> canon[k] == Canon(sc.segments[k], sc.width)
    {
      var s := sc.segments[i];
      var kept := if |s.payload| < sc.width then |s.payload| else sc.width;
      var payload := s.payload[..kept];
      assert payload == Kept(s.payload, sc.width);
      while payload != [] && payload[|payload| - 1] == 0
        invariant Trim(payload) == Trim(Kept(s.payload, sc.width))
        decreases |payload|
      {
        payload := payload[..|payload| - 1];
      }
      var encoding := if s.encoding == EncUnset then ExpectedEncoding(s.kind) else s.encoding;
      canon := canon + [s.(encoding := encoding, payload := payload)];
    }
  }

  // ---------------------------------------------------------------------- duplicates

  function Scanned(sc: Scenario): (n: nat)
    ensures n <= |sc.segments|
  {
    var limit := if sc.maxSegments == U64_MAX then U64_MAX else sc.maxSegments + 1;
    if |sc.segments| < limit then |sc.segments| else limit
  }

  predicate RepeatsPrevious(canon: seq<Segment>, i: nat)
    requires i < |canon|
  {
    i > 0 && canon[i - 1] == canon[i]
  }

  predicate RepeatsEarlier(canon: seq<Segment>, i: nat)
    requires i < |canon|
  {
    exists j :: 0 <= j < i - 1 && canon[j] == canon[i]
  }

  datatype DuplicateFacts = DuplicateFacts(consecutive: bool, nonConsecutive: bool)

  /** From the ascending indices of the earlier equal segments. */
  function FactsOf(prior: seq<nat>, i: nat): DuplicateFacts {
    if prior == [] then DuplicateFacts(false, false)
    else DuplicateFacts(prior[|prior| - 1] == i - 1, |prior| >= 2 || prior[0] != i - 1)
  }

  ghost predicate IsPrior(canon: seq<Segment>, i: nat, key: Segment, prior: seq<nat>)
    requires i <= |canon|
  {
    && (forall a, b :: 0 <= a < b < |prior| ==> prior[a] < prior[b])
    && (forall j :: j in prior <==> 0 <= j < i && canon[j] == key)
  }

  lemma FactsMeaning(canon: seq<Segment>, i: nat, prior: seq<nat>)
    requires i < |canon| && IsPrior(canon, i, canon[i], prior)
    ensures FactsOf(prior, i) == DuplicateFacts(RepeatsPrevious(canon, i), RepeatsEarlier(canon, i))
  {
    if prior != [] {
      var n := |prior| - 1;
      assert prior[n] in prior && prior[0] in prior;
      if i > 0 && canon[i - 1] == canon[i] {
        assert i - 1 in prior;
        var k :| 0 <= k <= n && prior[k] == i - 1;
      }
      if j :| 0 <= j < i - 1 && canon[j] == canon[i] {
        assert j in prior;
        var k :| 0 <= k <= n && prior[k] == j;
      }
      if |prior| >= 2 { assert prior[0] < prior[1] && prior[1] in prior; }
    } else {
      assert forall j :: 0 <= j < i ==> canon[j] != canon[i] by {
        forall j | 0 <= j < i ensures canon[j] != canon[i] { assert j !in prior; }
      }
    }
  }

  /** One pass with a map from canonical segments to the indices they were seen at. */
  method FindDuplicates(canon: seq<Segment>, scanned: nat) returns (facts: seq<DuplicateFacts>)
    requires scanned <= |canon|
    ensures |facts| == scanned
    ensures forall i :: 0 <= i < scanned ==>
              facts[i] == DuplicateFacts(RepeatsPrevious(canon, i), RepeatsEarlier(canon, i))
  {
    hide FactsOf; hide IsPrior; hide RepeatsPrevious; hide RepeatsEarlier;
    facts := [];
    var seen: map<Segment, seq<nat>> := map[];
    for i := 0 to scanned
      invariant |facts| == i
      invariant forall k :: 0 <= k < i ==>
                  facts[k] == DuplicateFacts(RepeatsPrevious(canon, k), RepeatsEarlier(canon, k))
      invariant forall key :: key in seen ==> IsPrior(canon, i, key, seen[key])
      invariant forall j :: 0 <= j < i ==> canon[j] in seen
    {
      if canon[i] !in seen { NonePrior(canon, i, canon[i]); }
      var prior := if canon[i] in seen then seen[canon[i]] else [];
      FactsMeaning(canon, i, prior);
      facts := facts + [FactsOf(prior, i)];
      PriorGrows(canon, i, prior);
      forall key | key in seen && key != canon[i] ensures IsPrior(canon, i + 1, key, seen[key]) {
        OtherPrior(canon, i, key, seen[key]);
      }
      seen := seen[canon[i] := prior + [i]];
    }
  }

  lemma NonePrior(canon: seq<Segment>, i: nat, key: Segment)
    requires i <= |canon| && forall j :: 0 <= j < i ==> canon[j] != key
    ensures IsPrior(canon, i, key, [])
  {}

  lemma OtherPrior(canon: seq<Segment>, i: nat, key: Segment, prior: seq<nat>)
    requires i < |canon| && IsPrior(canon, i, key, prior) && key != canon[i]
    ensures IsPrior(canon, i + 1, key, prior)
  {}

  lemma PriorGrows(canon: seq<Segment>, i: nat, prior: seq<nat>)
    requires i < |canon| && IsPrior(canon, i, canon[i], prior)
    ensures IsPrior(canon, i + 1, canon[i], prior + [i])
  {
    var more := prior + [i];
    forall a, b | 0 <= a < b < |more| ensures more[a] < more[b] {
      if b == |prior| { assert prior[a] in prior; }
    }
    forall j ensures j in more <==> 0 <= j < i + 1 && canon[j] == canon[i] {
      assert j in more <==> j in prior || j == i;
    }
  }

  // -------------------------------------------------------------------------- checks

  predicate UsesNode(k: SegmentKind) { k.KindNode? }
  predicate UsesAdjacency(k: SegmentKind) { k.KindAdjacency? }
  predicate UsesEndpoint(k: SegmentKind) { k.KindEndpoint? }
  predicate UsesBinding(k: SegmentKind) { k.KindBinding? }
  predicate UsesPolicy(k: SegmentKind) { k.KindPolicy? }

  predicate RequiredMissing(s: Segment) {
    || (UsesNode(s.kind) && s.node == 0) || (UsesAdjacency(s.kind) && s.adjacency == 0)
    || (UsesAdjacency(s.kind) && s.topology == 0) || (UsesEndpoint(s.kind) && s.endpoint == 0)
    || (UsesBinding(s.kind) && s.binding == 0) || (UsesPolicy(s.kind) && s.policy == 0)
    || (UsesPolicy(s.kind) && s.policyGeneration == 0)
  }

  predicate UnusedSet(s: Segment) {
    || (!UsesNode(s.kind) && s.node != 0) || (!UsesAdjacency(s.kind) && s.adjacency != 0)
    || (!UsesAdjacency(s.kind) && s.topology != 0) || (!UsesEndpoint(s.kind) && s.endpoint != 0)
    || (!UsesBinding(s.kind) && s.binding != 0) || (!UsesPolicy(s.kind) && s.policy != 0)
    || (!UsesPolicy(s.kind) && s.policyGeneration != 0)
  }

  predicate AllZero(s: Segment) {
    s.node == 0 && s.adjacency == 0 && s.endpoint == 0 && s.binding == 0 && s.policy == 0 && s.policyGeneration == 0
    && s.topology == 0
  }

  function ProfileBlock(sc: Scenario, canon: seq<Segment>, i: nat): seq<Check>
    requires i < |sc.segments| == |canon|
  {
    var s := sc.segments[i];
    [C(RepeatsPrevious(canon, i) && !sc.allowConsecutive, PROFILE_REPEAT, i, 0),
     C(RepeatsEarlier(canon, i) && !sc.allowNonconsecutive, PROFILE_REPEAT, i, 0),
     C(s.kind !in sc.allowed, PROFILE_KIND_NOT_ALLOWED, i, s.kind.Code()),
     C(|s.payload| > sc.width, PROFILE_WIDTH_EXCEEDED, i, sc.width),
     C(ExpectedEncoding(s.kind) == EncUnset, PROFILE_KIND_MISMATCH, i, 0)]
  }

  function ProfileBlocks(sc: Scenario, canon: seq<Segment>, n: nat): (parts: seq<seq<Check>>)
    requires n <= |sc.segments| == |canon|
    ensures |parts| == n && forall i :: 0 <= i < n ==> parts[i] == ProfileBlock(sc, canon, i)
  {
    seq(n, i requires 0 <= i < n => ProfileBlock(sc, canon, i))
  }

  function OracleProfileHead(sc: Scenario): seq<Check> {
    [C(|sc.segments| > sc.depth, PROFILE_DEPTH_EXCEEDED, 0, sc.depth),
     C(sc.segments == [] && !sc.allowEmpty, PROFILE_EMPTY, 0, 0)]
  }

  /** A profile without a width stops the profile phase. */
  function OracleProfile(sc: Scenario, canon: seq<Segment>): seq<Check>
    requires |sc.segments| == |canon|
  {
    if sc.width == 0 then [C(true, PROFILE_ID_INVALID, 0, 0)]
    else OracleProfileHead(sc) + Gather(ProfileBlocks(sc, canon, Scanned(sc)))
  }

  function StructureBlock(sc: Scenario, canon: seq<Segment>, i: nat): seq<Check>
    requires i < |sc.segments| == |canon|
  {
    var s := sc.segments[i];
    (if s.kind.KindInvalid? then [C(true, SEGMENT_KIND_INVALID, i, 0)]
     else
       [C(s.id == 0, SEGMENT_ID_INVALID, i, 0),
        C(s.generation == 0, SEGMENT_GENERATION_INVALID, i, 0),
        C(canon[i].encoding != ExpectedEncoding(s.kind), O_ENCODING_MISMATCH, i, canon[i].encoding.Code()),
        C(AllZero(s), O_MISSING_BINDING, i, 0),
        C(!AllZero(s) && RequiredMissing(s), O_BINDING_INCOMPLETE, i, 0),
        C(UnusedSet(s), O_RESERVED_SET, i, 0)])
    + [C(RepeatsPrevious(canon, i), O_DUP_CONSECUTIVE, i, s.id),
       C(RepeatsEarlier(canon, i), O_DUP_NONCONSECUTIVE, i, s.id)]
  }

  function StructureBlocks(sc: Scenario, canon: seq<Segment>, n: nat): (parts: seq<seq<Check>>)
    requires n <= |sc.segments| == |canon|
    ensures |parts| == n && forall i :: 0 <= i < n ==> parts[i] == StructureBlock(sc, canon, i)
  {
    seq(n, i requires 0 <= i < n => StructureBlock(sc, canon, i))
  }

  function OracleEvidence(sc: Scenario): seq<Check> {
    [C(sc.requiredCapabilities > 0, CAPABILITY_UNAVAILABLE, 0, 0),
     C(HasAdjacency(sc.segments[..Scanned(sc)]), O_TOPOLOGY_UNAVAILABLE, 0, 0),
     C(|sc.segments| > sc.maxSegments, LIMIT_SEGMENTS_PER_LIST, 0, sc.maxSegments)]
  }

  function OraclePayload(sc: Scenario, i: nat): seq<Check>
    requires i < |sc.segments|
  {
    [C(|sc.segments[i].payload| > sc.maxPayload, LIMIT_PAYLOAD_BYTES, i, sc.maxPayload)]
  }

  function OraclePayloads(sc: Scenario, n: nat): (parts: seq<seq<Check>>)
    requires n <= |sc.segments|
    ensures |parts| == n && forall i :: 0 <= i < n ==> parts[i] == OraclePayload(sc, i)
  {
    seq(n, i requires 0 <= i < n => OraclePayload(sc, i))
  }

  /** Every check of the oracle, in the order it makes them. */
  function OracleChecks(sc: Scenario): seq<Check> {
    var canon := CanonAll(sc);
    OracleProfile(sc, canon)
    + (Gather(StructureBlocks(sc, canon, Scanned(sc)))
       + (OracleEvidence(sc) + Gather(OraclePayloads(sc, |sc.segments|))))
  }

  /** The reasons of the checks that fail, in order. */
  function Failing(cs: seq<Check>): seq<Reason> {
    if cs == [] then []
    else Failing(cs[..|cs| - 1]) + (if cs[|cs| - 1].fails then [cs[|cs| - 1].reason] else [])
  }

  function OracleReasons(sc: Scenario): seq<Reason> { SortUnique(Failing(OracleChecks(sc))) }

  lemma {:induction false} FailingMembers(cs: seq<Check>)
    ensures forall r :: r in Failing(cs) <==> Fails(cs, r)
  {
    if cs != [] {
      var n := |cs| - 1;
      FailingMembers(cs[..n]);
      assert cs == cs[..n] + [cs[n]];
      forall r ensures r in Failing(cs) <==> Fails(cs, r) {
        assert Fails(cs, r) <==> Fails(cs[..n], r) || cs[n] == Check(true, r);
      }
    }
  }

  lemma FailingSnoc(cs: seq<Check>, c: Check)
    ensures Failing(cs + [c]) == Failing(cs) + (if c.fails then [c.reason] else [])
  {
    assert (cs + [c])[..|cs|] == cs;
  }

  /** The growing vector of reasons. */
  class Emitter {
    var out: seq<Reason>
    ghost var log: seq<Check>

    constructor ()
      ensures Valid() && log == []
    {
      out, log := [], [];
    }

    ghost predicate Valid() reads this { out == Failing(log) }

    method Emit(checks: seq<Check>)
      requires Valid()
      modifies this
      ensures Valid() && log == old(log) + checks
    {
      for i := 0 to |checks|
        invariant Valid() && log == old(log) + checks[..i]
      {
        FailingSnoc(log, checks[i]);
        assert checks[..i + 1] == checks[..i] + [checks[i]];
        log := log + [checks[i]];
        if checks[i].fails { out := out + [checks[i].reason]; }
      }
      assert checks[..|checks|] == checks;
    }
  }

  method EmitProfile(sc: Scenario, canon: seq<Segment>, facts: seq<DuplicateFacts>, e: Emitter)
    requires |sc.segments| == |canon| && |facts| == Scanned(sc) && e.Valid()
    requires forall i :: 0 <= i < |facts| ==>
               facts[i] == DuplicateFacts(RepeatsPrevious(canon, i), RepeatsEarlier(canon, i))
    modifies e
    ensures e.Valid() && e.log == old(e.log) + OracleProfile(sc, canon)
  {
    hide Failing; hide RepeatsPrevious; hide RepeatsEarlier;
    if sc.width == 0 {
      e.Emit([C(true, PROFILE_ID_INVALID, 0, 0)]);
      return;
    }
    e.Emit(OracleProfileHead(sc));
    ghost var start := e.log;
    for i := 0 to Scanned(sc)
      invariant e.Valid() && e.log == start + Gather(ProfileBlocks(sc, canon, i))
    {
      var s := sc.segments[i];
      var block :=
        [C(facts[i].consecutive && !sc.allowConsecutive, PROFILE_REPEAT, i, 0),
         C(facts[i].nonConsecutive && !sc.allowNonconsecutive, PROFILE_REPEAT, i, 0),
         C(s.kind !in sc.allowed, PROFILE_KIND_NOT_ALLOWED, i, s.kind.Code()),
         C(|s.payload| > sc.width, PROFILE_WIDTH_EXCEEDED, i, sc.width),
         C(ExpectedEncoding(s.kind) == EncUnset, PROFILE_KIND_MISMATCH, i, 0)];
      e.Emit(block);
      GatherStep(start, ProfileBlocks(sc, canon, i), ProfileBlocks(sc, canon, i + 1), block);
    }
    SeqAssoc(old(e.log), OracleProfileHead(sc), Gather(ProfileBlocks(sc, canon, Scanned(sc))));
  }

  method EmitStructure(sc: Scenario, canon: seq<Segment>, facts: seq<DuplicateFacts>, e: Emitter)
    requires |sc.segments| == |canon| && |facts| == Scanned(sc) && e.Valid()
    requires forall i :: 0 <= i < |facts| ==>
               facts[i] == DuplicateFacts(RepeatsPrevious(canon, i), RepeatsEarlier(canon, i))
    modifies e
    ensures e.Valid() && e.log == old(e.log) + Gather(StructureBlocks(sc, canon, Scanned(sc)))
  {
    hide Failing; hide RepeatsPrevious; hide RepeatsEarlier; hide AllZero; hide RequiredMissing; hide UnusedSet;
    ghost var start := e.log;
    for i := 0 to Scanned(sc)
      invariant e.Valid() && e.log == start + Gather(StructureBlocks(sc, canon, i))
    {
      var s := sc.segments[i];
      var shape :=
        if s.kind.KindInvalid? then [C(true, SEGMENT_KIND_INVALID, i, 0)]
        else
          [C(s.id == 0, SEGMENT_ID_INVALID, i, 0),
           C(s.generation == 0, SEGMENT_GENERATION_INVALID, i, 0),
           C(canon[i].encoding != ExpectedEncoding(s.kind), O_ENCODING_MISMATCH, i, canon[i].encoding.Code()),
           C(AllZero(s), O_MISSING_BINDING, i, 0),
           C(!AllZero(s) && RequiredMissing(s), O_BINDING_INCOMPLETE, i, 0),
           C(UnusedSet(s), O_RESERVED_SET, i, 0)];
      var block := shape + [C(facts[i].consecutive, O_DUP_CONSECUTIVE, i, s.id),
                            C(facts[i].nonConsecutive, O_DUP_NONCONSECUTIVE, i, s.id)];
      e.Emit(block);
      GatherStep(start, StructureBlocks(sc, canon, i), StructureBlocks(sc, canon, i + 1), block);
    }
  }

  method EmitEvidence(sc: Scenario, e: Emitter)
    requires e.Valid()
    modifies e
    ensures e.Valid() && e.log == old(e.log) + (OracleEvidence(sc) + Gather(OraclePayloads(sc, |sc.segments|)))
  {
    hide Failing;
    var found := false;
    for i := 0 to Scanned(sc)
      invariant found == HasAdjacency(sc.segments[..i])
    {
      assert forall k :: 0 <= k < i ==> sc.segments[..i + 1][k] == sc.segments[..i][k];
      assert sc.segments[..i + 1][i] == sc.segments[i];
      if sc.segments[i].kind.KindAdjacency? { found := true; }
    }
    e.Emit([C(sc.requiredCapabilities > 0, CAPABILITY_UNAVAILABLE, 0, 0), C(found, O_TOPOLOGY_UNAVAILABLE, 0, 0),
            C(|sc.segments| > sc.maxSegments, LIMIT_SEGMENTS_PER_LIST, 0, sc.maxSegments)]);
    ghost var start := e.log;
    for i := 0 to |sc.segments|
      invariant e.Valid() && e.log == start + Gather(OraclePayloads(sc, i))
    {
      var block := OraclePayload(sc, i);
      e.Emit(block);
      GatherStep(start, OraclePayloads(sc, i), OraclePayloads(sc, i + 1), block);
    }
    SeqAssoc(old(e.log), OracleEvidence(sc), Gather(OraclePayloads(sc, |sc.segments|)));
  }

  method SortReasons(rs: seq<Reason>) returns (sorted: seq<Reason>)
    ensures sorted == SortUnique(rs)
  {
    sorted := [];
    for i := 0 to |rs|
      invariant sorted == SortUnique(rs[..i])
    {
      assert rs[..i + 1][..i] == rs[..i];
      sorted := Insert(rs[i], sorted);
    }
    assert rs[..|rs|] == rs;
  }

  /** The whole check: facts, phases, sort, duplicates out. */
  method CheckScenario(sc: Scenario, canon: seq<Segment>) returns (reasons: seq<Reason>)
    requires canon == CanonAll(sc)
    ensures reasons == OracleReasons(sc)
  {
    hide Failing; hide SortUnique; hide OracleProfile; hide StructureBlocks; hide OracleEvidence; hide OraclePayloads;
    var facts := FindDuplicates(canon, Scanned(sc));
    var e := new Emitter();
    EmitProfile(sc, canon, facts, e);
    EmitStructure(sc, canon, facts, e);
    EmitEvidence(sc, e);
    var a, b := OracleProfile(sc, canon), Gather(StructureBlocks(sc, canon, Scanned(sc)));
    var c := OracleEvidence(sc) + Gather(OraclePayloads(sc, |sc.segments|));
    SeqAssoc(a, b, c);
    assert [] + a == a;
    reasons := SortReasons(e.out);
  }

  // --------------------------------------------------------------------------- bytes

  /** The canonical bytes; refused when they would be too many. */
  function OracleBytes(sc: Scenario): Option<Bytes> {
    if sc.width > MAX_ENCODED || |sc.segments| > (MAX_ENCODED - 6) / (78 + sc.width) then None
    else Some(LE(0xC503, 2) + LE(|sc.segments| % 0x1_0000_0000, 4) + OracleSegments(CanonAll(sc), sc.width))
  }

  /** One canonical segment: head fields, the width, and the payload filled up with zeros. */
  function OracleSegment(s: Segment, width: nat): Bytes {
    Flat(HeadTokens(s)) + LE(width % 0x1_0000, 2) + Filled(s.payload, width)
  }

  function Filled(p: Bytes, width: nat): (r: Bytes)
    ensures |r| == width && forall k :: 0 <= k < width ==> r[k] == ByteAt(p, k)
  {
    seq(width, k requires 0 <= k < width => ByteAt(p, k))
  }

  function OracleSegments(ss: seq<Segment>, width: nat): Bytes {
    if ss == [] then [] else OracleSegments(ss[..|ss| - 1], width) + OracleSegment(ss[|ss| - 1], width)
  }

  method EncodeSequence(sc: Scenario, canon: seq<Segment>) returns (bytes: Option<Bytes>)
    requires canon == CanonAll(sc)
    ensures bytes == OracleBytes(sc)
  {
    hide Flat; hide HeadTokens; hide OracleSegment; hide LE;
    if sc.width > MAX_ENCODED { return None; }
    if |canon| > (MAX_ENCODED - 6) / (78 + sc.width) { return None; }
    var head := LE(0xC503, 2) + LE(|canon| % 0x1_0000_0000, 4);
    var out := head;
    for i := 0 to |canon|
      invariant out == head + OracleSegments(canon[..i], sc.width)
    {
      assert canon[..i + 1][..i] == canon[..i];
      var one := EncodeSegment(canon[i], sc.width);
      SeqAssoc(head, OracleSegments(canon[..i], sc.width), one);
      out := out + one;
    }
    assert canon[..|canon|] == canon;
    bytes := Some(out);
  }

  method EncodeSegment(s: Segment, width: nat) returns (out: Bytes)
    ensures out == OracleSegment(s, width)
  {
    hide Flat; hide LE;
    out := Flat(HeadTokens(s)) + LE(width % 0x1_0000, 2);
    ghost var head := out;
    var filled: Bytes := [];
    for k := 0 to width
      invariant |filled| == k && forall j :: 0 <= j < k ==> filled[j] == ByteAt(s.payload, j)
      invariant out == head + filled
    {
      var b: u8 := if k < |s.payload| then s.payload[k] else 0;
      SeqAssoc(head, filled, [b]);
      out, filled := out + [b], filled + [b];
    }
    assert filled == Filled(s.payload, width);
  }
}
