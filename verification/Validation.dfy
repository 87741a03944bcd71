/** Fixed-precedence validation of one mutation request (`src/validation.cpp`).

    Each phase is a loop that records checks on the result; the function beside it is the list of those checks. */
module SrfValidation {
  import opened SrfTypes
  import opened SrfReasons
  import opened SrfLifecycle
  import opened SrfEvidence
  import opened SrfCanonical

  /** Everything one validation pass may read. */
  datatype Request = Request(
    limits: Limits, caller: Caller, authority: Authority, listId: u64, scope: u64, existing: Option<SegmentList>,
    expectedGeneration: u64, intent: LifecycleEvent, profileId: u64, profileGeneration: u64,
    profile: Option<Profile>, policyId: u64, policyGeneration: u64, policy: Option<Policy>, strictness: Strictness,
    topology: u64, capability: u64, path: u64, pathAuthority: u64, route: u64, routeGeneration: u64,
    constraint: u64, constraintGeneration: u64, segments: seq<Segment>, derived: bool, evidence: Option<Evidence>,
    full: bool, requireAbsent: bool, requireExisting: bool)

  function C(fails: bool, code: nat, index: nat, detail: nat): Check { Check(fails, Reason(code, index, detail)) }

  // ------------------------------------------------------- lists of check lists

  function Gather(parts: seq<seq<Check>>): seq<Check> {
    if parts == [] then [] else Gather(parts[..|parts| - 1]) + parts[|parts| - 1]
  }

  lemma GatherSnoc(parts: seq<seq<Check>>, more: seq<seq<Check>>, p: seq<Check>)
    requires more == parts + [p]
    ensures Gather(more) == Gather(parts) + p
  {
    assert more[..|parts|] == parts;
  }

  lemma GatherStep(start: seq<Check>, parts: seq<seq<Check>>, more: seq<seq<Check>>, p: seq<Check>)
    requires more == parts + [p]
    ensures start + Gather(more) == (start + Gather(parts)) + p
  {
    GatherSnoc(parts, more, p);
    SeqAssoc(start, Gather(parts), p);
  }

  lemma SeqAssoc<T>(a: seq<T>, b: seq<T>, c: seq<T>)
    ensures (a + b) + c == a + (b + c)
  {}

  lemma SeqAssoc3<T>(a: seq<T>, b: seq<T>, c: seq<T>, d: seq<T>)
    ensures ((a + b) + c) + d == a + (b + c + d)
  {}

  lemma {:induction false} GatherMembers(parts: seq<seq<Check>>)
    ensures forall c :: c in Gather(parts) <==> exists i :: 0 <= i < |parts| && c in parts[i]
  {
    if parts != [] {
      var n := |parts| - 1;
      GatherMembers(parts[..n]);
      forall c ensures c in Gather(parts) <==> exists i :: 0 <= i < |parts| && c in parts[i] {
        if c in Gather(parts[..n]) {
          var i :| 0 <= i < n && c in parts[..n][i];
          assert c in parts[i];
        }
        if i :| 0 <= i < |parts| && c in parts[i] {
          if i < n { assert c in parts[..n][i]; }
        }
      }
    }
  }

  // ---------------------------------------------------------- caller and epoch

  predicate BootFenced(a: Authority, boot: u64) { boot != 0 && boot in a.fencedBoots }

  function CallerChecks(r: Request): seq<Check> {
    var c := r.caller;
    [C(c.publisher == 0, CALLER_MISSING_PUBLISHER, 0, 0), C(c.boot == 0, CALLER_MISSING_BOOT, 0, 0),
     C(c.attempt == 0, CALLER_MISSING_ATTEMPT, 0, 0), C(c.scope == 0, CALLER_MISSING_SCOPE, 0, 0)]
    + match FindPublisher(r.authority.publishers, c.publisher)
      case None => [C(c.publisher != 0, CALLER_UNKNOWN_PUBLISHER, 0, c.publisher)]
      case Some(p) =>
        [C(p.boot != c.boot, CALLER_STALE_BOOT, 0, p.boot),
         C(p.fenced || !p.alive || BootFenced(r.authority, c.boot), CALLER_FENCED_PUBLISHER, 0, c.boot),
         C(c.scope != 0 && p.scope != c.scope, CALLER_SCOPE_MISMATCH, 0, p.scope)]
  }

  function EpochChecks(r: Request): seq<Check> {
    if r.caller.epoch == 0 then [C(true, EPOCH_INVALID, 0, 0)]
    else [C(r.caller.epoch != r.authority.epoch, EPOCH_STALE, 0, r.authority.epoch),
          C(r.authority.epoch == U64_MAX, EPOCH_EXHAUSTED, 0, r.authority.epoch)]
  }

  // ------------------------------------------------------------- list lifecycle

  function StateCode(s: LifecycleState): u8 {
    match s
    case Declared => 1 case Validating => 2 case Active => 3 case RevalidationRequired => 4 case Withdrawing => 5
    case Withdrawn => 6 case Superseded => 7 case Revoked => 8 case Retired => 9
  }

  function EventCode(e: LifecycleEvent): u8 {
    match e
    case ValidateBegin => 1 case ValidateSucceed => 2 case ValidateFail => 3 case RevalidateBegin => 4
    case RevalidateSucceed => 5 case RevalidateFail => 6 case DependencyChanged => 7 case WithdrawBegin => 8
    case WithdrawCommit => 9 case SupersedeBegin => 10 case SupersedeCommit => 11 case Revoke => 12 case Retire => 13
    case Reactivate => 14 case RecoveryLoad => 15 case ReplaceBegin => 16
  }

  function ListChecks(r: Request): seq<Check> {
    [C(r.listId == 0, LIST_ID_INVALID, 0, 0),
     C(r.requireExisting && r.existing.None?, LIST_NOT_FOUND, 0, r.listId),
     C(r.requireAbsent && r.existing.Some?, LIST_ALREADY_EXISTS, 0, r.listId)]
    + match r.existing
      case None => [C(r.expectedGeneration != 0, LIST_NOT_FOUND, 0, r.listId)]
      case Some(x) =>
        var denied := Transition(x.state, r.intent).None?;
        [C(r.expectedGeneration != x.generation, LIST_GENERATION_CONFLICT, 0, x.generation),
         C(r.expectedGeneration == 0, LIST_GENERATION_INVALID, 0, 0),
         C(x.generation == U64_MAX, LIST_GENERATION_EXHAUSTED, 0, x.generation),
         C(denied && x.state.Retired?, LIST_RETIRED, 0, x.generation),
         C(denied && x.state.Revoked?, LIST_REVOKED, 0, x.generation),
         C(denied && x.state.Superseded?, LIST_SUPERSEDED, 0, x.generation),
         C(denied && x.state.Withdrawn?, LIST_WITHDRAWN, 0, x.generation),
         C(denied, TRANSITION_DENIED, 0, 256 * StateCode(x.state) + EventCode(r.intent))]
  }

  function EmptyChecks(r: Request): seq<Check> {
    [C(r.segments == [] && (r.profile.None? || !r.profile.value.allowEmpty), LIST_EMPTY, 0, 0)]
  }

  // --------------------------------------------------------------------- profile

  /** Per-segment scans stop one past the configured depth. */
  function Scan(r: Request): nat {
    if |r.segments| < r.limits.maxSegmentsPerList + 1 then |r.segments| else r.limits.maxSegmentsPerList + 1
  }

  function ProfileHead(r: Request, p: Profile): seq<Check> {
    [C(p.id != r.profileId, PROFILE_UNKNOWN, 0, r.profileId),
     C(p.generation == 0, PROFILE_GENERATION_INVALID, 0, 0),
     C(r.profileGeneration != 0 && r.profileGeneration != p.generation, PROFILE_GENERATION_MISMATCH, 0, p.generation),
     C(!p.allowEmpty && r.segments == [], PROFILE_EMPTY, 0, 0),
     C(r.strictness.Loose? && !p.allowLoose, PROFILE_STRICTNESS, 0, 0),
     C(|r.segments| > p.maxDepth, PROFILE_DEPTH_EXCEEDED, 0, p.maxDepth)]
  }

  function ProfileSegment(r: Request, p: Profile, i: nat): seq<Check>
    requires i < |r.segments|
  {
    var s := r.segments[i];
    [C(!MaskHas(p.kindsMask, s.kind), PROFILE_KIND_NOT_ALLOWED, i, s.kind.Code()),
     C(ExpectedEncoding(s.kind) == EncUnset, PROFILE_KIND_MISMATCH, i, s.kind.Code()),
     C(|s.payload| > p.payloadWidth, PROFILE_WIDTH_EXCEEDED, i, p.payloadWidth)]
  }

  function ProfileSegments(r: Request, p: Profile, n: nat): (parts: seq<seq<Check>>)
    requires n <= |r.segments|
    ensures |parts| == n && forall i :: 0 <= i < n ==> parts[i] == ProfileSegment(r, p, i)
  {
    seq(n, i requires 0 <= i < n => ProfileSegment(r, p, i))
  }

  /** Whether the segments at `j < i` repeat each other next to each other, or further apart. */
  predicate RepeatAt(r: Request, width: nat, i: nat, j: nat, consecutive: bool)
    requires j < i < |r.segments|
  {
    (j + 1 == i) == consecutive && SemanticEqual(r.segments[j], r.segments[i], width)
  }

  function ProfilePair(r: Request, p: Profile, i: nat, j: nat): seq<Check>
    requires j < i < |r.segments|
  {
    [C(!p.allowConsecutive && RepeatAt(r, p.payloadWidth, i, j, true), PROFILE_REPEAT, i, r.segments[i].id),
     C(!p.allowNonconsecutive && RepeatAt(r, p.payloadWidth, i, j, false), PROFILE_REPEAT, i, r.segments[i].id)]
  }

  function ProfilePairs(r: Request, p: Profile, i: nat, n: nat): (parts: seq<seq<Check>>)
    requires n <= i < |r.segments|
    ensures |parts| == n && forall j :: 0 <= j < n ==> parts[j] == ProfilePair(r, p, i, j)
  {
    seq(n, j requires 0 <= j < n => ProfilePair(r, p, i, j))
  }

  function ProfileRows(r: Request, p: Profile, n: nat): (parts: seq<seq<Check>>)
    requires n <= |r.segments|
    ensures |parts| == n && forall i :: 0 <= i < n ==> parts[i] == Gather(ProfilePairs(r, p, i, i))
  {
    seq(n, i requires 0 <= i < n => Gather(ProfilePairs(r, p, i, i)))
  }

  function ProfileRepeats(r: Request, p: Profile): seq<Check> {
    if p.allowConsecutive && p.allowNonconsecutive then [] else Gather(ProfileRows(r, p, Scan(r)))
  }

  function ProfileChecks(r: Request): seq<Check> {
    match r.profile
    case None => [C(r.profileId != 0, PROFILE_UNKNOWN, 0, r.profileId), C(r.profileId == 0, PROFILE_ID_INVALID, 0, 0)]
    case Some(p) => ProfileHead(r, p) + Gather(ProfileSegments(r, p, Scan(r))) + ProfileRepeats(r, p)
  }

  method CheckProfile(r: Request, out: ValidationResult)
    requires out.Logged()
    modifies out
    ensures out.Logged() && out.log == old(out.log) + ProfileChecks(r)
  {
    if r.profile.None? {
      out.Run([C(r.profileId != 0, PROFILE_UNKNOWN, 0, r.profileId), C(r.profileId == 0, PROFILE_ID_INVALID, 0, 0)]);
      return;
    }
    var p := r.profile.value;
    out.Run(ProfileHead(r, p));
    CheckProfileSegments(r, p, out);
    CheckProfileRepeats(r, p, out);
    SeqAssoc3(old(out.log), ProfileHead(r, p), Gather(ProfileSegments(r, p, Scan(r))), ProfileRepeats(r, p));
  }

  method CheckProfileSegments(r: Request, p: Profile, out: ValidationResult)
    requires out.Logged()
    modifies out
    ensures out.Logged() && out.log == old(out.log) + Gather(ProfileSegments(r, p, Scan(r)))
  {
    for i := 0 to Scan(r)
      invariant out.Logged() && out.log == old(out.log) + Gather(ProfileSegments(r, p, i))
    {
      var block := ProfileSegment(r, p, i);
      out.Run(block);
      GatherStep(old(out.log), ProfileSegments(r, p, i), ProfileSegments(r, p, i + 1), block);
    }
  }

  method CheckProfileRow(r: Request, p: Profile, i: nat, out: ValidationResult)
    requires i < |r.segments| && out.Logged()
    modifies out
    ensures out.Logged() && out.log == old(out.log) + Gather(ProfilePairs(r, p, i, i))
  {
    for j := 0 to i
      invariant out.Logged() && out.log == old(out.log) + Gather(ProfilePairs(r, p, i, j))
    {
      var block := ProfilePair(r, p, i, j);
      out.Run(block);
      GatherStep(old(out.log), ProfilePairs(r, p, i, j), ProfilePairs(r, p, i, j + 1), block);
    }
  }

  method CheckProfileRepeats(r: Request, p: Profile, out: ValidationResult)
    requires out.Logged()
    modifies out
    ensures out.Logged() && out.log == old(out.log) + ProfileRepeats(r, p)
  {
    if p.allowConsecutive && p.allowNonconsecutive { return; }
    for i := 0 to Scan(r)
      invariant out.Logged() && out.log == old(out.log) + Gather(ProfileRows(r, p, i))
    {
      CheckProfileRow(r, p, i, out);
      GatherStep(old(out.log), ProfileRows(r, p, i), ProfileRows(r, p, i + 1), Gather(ProfilePairs(r, p, i, i)));
    }
  }

  // ---------------------------------------------------------------------- policy

  predicate HasId(ss: seq<Segment>, id: u64) { exists i :: 0 <= i < |ss| && ss[i].id == id }

  /** The first segment carrying `id`, or the length of the list. */
  function FirstWithId(ss: seq<Segment>, id: u64): (i: nat)
    ensures i <= |ss|
    ensures i < |ss| ==> ss[i].id == id
  {
    if ss == [] then 0 else if ss[0].id == id then 0 else 1 + FirstWithId(ss[1..], id)
  }

  function PolicyHead(r: Request, p: Policy): seq<Check> {
    [C(p.generation == 0, POLICY_GENERATION_INVALID, 0, 0),
     C(r.policyGeneration != 0 && r.policyGeneration != p.generation, POLICY_GENERATION_MISMATCH, 0, p.generation),
     C(p.ownerScope != 0 && p.ownerScope != r.scope, POLICY_OWNERSHIP, 0, p.ownerScope),
     C(p.allowedProfiles != [] && r.profileId !in p.allowedProfiles, POLICY_DENIED_PROFILE, 0, r.profileId),
     C(p.maxDepth != 0 && |r.segments| > p.maxDepth, POLICY_DEPTH_EXCEEDED, 0, p.maxDepth),
     C(r.existing.Some? && !p.allowReplacement, POLICY_REPLACEMENT_DENIED, 0, 0),
     C(r.derived && !p.allowDerivation, POLICY_DERIVATION_DENIED, 0, 0),
     C(p.requireStrict && r.strictness != Strict, POLICY_STRICTNESS, 0, 0)]
  }

  function PolicyRequired(r: Request, p: Policy, n: nat): (parts: seq<seq<Check>>)
    requires n <= |p.required|
    ensures |parts| == n
    ensures forall k :: 0 <= k < n ==>
              parts[k] == [C(!HasId(r.segments, p.required[k]), POLICY_REQUIRED_MISSING, 0, p.required[k])]
  {
    seq(n, k requires 0 <= k < n => [C(!HasId(r.segments, p.required[k]), POLICY_REQUIRED_MISSING, 0, p.required[k])])
  }

  function PolicyForbidden(r: Request, p: Policy, n: nat): (parts: seq<seq<Check>>)
    requires n <= |p.forbidden|
    ensures |parts| == n && forall k :: 0 <= k < n ==> parts[k] == ForbiddenBlock(r, p.forbidden[k])
  {
    seq(n, k requires 0 <= k < n => ForbiddenBlock(r, p.forbidden[k]))
  }

  function ForbiddenBlock(r: Request, id: u64): seq<Check> {
    var i := FirstWithId(r.segments, id);
    [C(i < |r.segments|, POLICY_FORBIDDEN_PRESENT, i, id)]
  }

  function PolicyKinds(r: Request, p: Policy, n: nat): (parts: seq<seq<Check>>)
    requires n <= |r.segments|
    ensures |parts| == n && forall i :: 0 <= i < n ==> parts[i] == KindBlock(r.segments[i], p, i)
  {
    seq(n, i requires 0 <= i < n => KindBlock(r.segments[i], p, i))
  }

  function KindBlock(s: Segment, p: Policy, i: nat): seq<Check> {
    if s.kind.KindInvalid? then [] else [C(!MaskHas(p.kindsMask, s.kind), POLICY_DENIED_KIND, i, s.kind.Code())]
  }

  function PolicyChecks(r: Request): seq<Check> {
    match r.policy
    case None => [C(r.policyId != 0, POLICY_UNKNOWN, 0, r.policyId)]
    case Some(p) =>
      PolicyHead(r, p) + Gather(PolicyRequired(r, p, |p.required|)) + Gather(PolicyForbidden(r, p, |p.forbidden|))
      + (if p.kindsMask == 0 then [] else Gather(PolicyKinds(r, p, |r.segments|)))
  }

  method CheckPolicy(r: Request, out: ValidationResult)
    requires out.Logged()
    modifies out
    ensures out.Logged() && out.log == old(out.log) + PolicyChecks(r)
  {
    if r.policy.None? {
      out.Run([C(r.policyId != 0, POLICY_UNKNOWN, 0, r.policyId)]);
      return;
    }
    var p := r.policy.value;
    out.Run(PolicyHead(r, p));
    CheckPolicyEntities(r, p, out);
    CheckPolicyKinds(r, p, out);
    var a, b, c := PolicyHead(r, p), Gather(PolicyRequired(r, p, |p.required|)),
                   Gather(PolicyForbidden(r, p, |p.forbidden|));
    var d := if p.kindsMask == 0 then [] else Gather(PolicyKinds(r, p, |r.segments|));
    SeqAssoc3(old(out.log), a, b, c);
    SeqAssoc(old(out.log), a + b + c, d);
  }

  method CheckPolicyEntities(r: Request, p: Policy, out: ValidationResult)
    requires out.Logged()
    modifies out
    ensures out.Logged() && out.log == old(out.log) + Gather(PolicyRequired(r, p, |p.required|))
                                       + Gather(PolicyForbidden(r, p, |p.forbidden|))
  {
    for k := 0 to |p.required|
      invariant out.Logged() && out.log == old(out.log) + Gather(PolicyRequired(r, p, k))
    {
      var block := [C(!HasId(r.segments, p.required[k]), POLICY_REQUIRED_MISSING, 0, p.required[k])];
      out.Run(block);
      GatherStep(old(out.log), PolicyRequired(r, p, k), PolicyRequired(r, p, k + 1), block);
    }
    ghost var start := out.log;
    for k := 0 to |p.forbidden|
      invariant out.Logged() && out.log == start + Gather(PolicyForbidden(r, p, k))
    {
      var block := ForbiddenBlock(r, p.forbidden[k]);
      out.Run(block);
      GatherStep(start, PolicyForbidden(r, p, k), PolicyForbidden(r, p, k + 1), block);
    }
  }

  method CheckPolicyKinds(r: Request, p: Policy, out: ValidationResult)
    requires out.Logged()
    modifies out
    ensures out.Logged()
    ensures out.log == old(out.log) + (if p.kindsMask == 0 then [] else Gather(PolicyKinds(r, p, |r.segments|)))
  {
    if p.kindsMask == 0 { return; }
    for i := 0 to |r.segments|
      invariant out.Logged() && out.log == old(out.log) + Gather(PolicyKinds(r, p, i))
    {
      var block := KindBlock(r.segments[i], p, i);
      out.Run(block);
      GatherStep(old(out.log), PolicyKinds(r, p, i), PolicyKinds(r, p, i + 1), block);
    }
  }

  // ------------------------------------------------------------------ structural

  /** The entity reference a kind requires is missing, or half of a required pair is. */
  predicate BindingIncomplete(s: Segment) {
    match s.kind
    case KindNode => s.node == 0
    case KindAdjacency => s.adjacency == 0 || s.topology == 0
    case KindEndpoint => s.endpoint == 0
    case KindBinding => s.binding == 0
    case KindPolicy => s.policy == 0 || s.policyGeneration == 0
    case KindInvalid => false
  }

  /** A field the kind does not use is set. */
  predicate ReservedSet(s: Segment) {
    match s.kind
    case KindNode =>
      s.adjacency != 0 || s.endpoint != 0 || s.binding != 0 || s.policy != 0 || s.topology != 0
      || s.policyGeneration != 0
    case KindAdjacency =>
      s.node != 0 || s.endpoint != 0 || s.binding != 0 || s.policy != 0 || s.policyGeneration != 0
    case KindEndpoint =>
      s.node != 0 || s.adjacency != 0 || s.binding != 0 || s.policy != 0 || s.topology != 0
      || s.policyGeneration != 0
    case KindBinding =>
      s.node != 0 || s.adjacency != 0 || s.endpoint != 0 || s.policy != 0 || s.topology != 0
      || s.policyGeneration != 0
    case KindPolicy =>
      s.node != 0 || s.adjacency != 0 || s.endpoint != 0 || s.binding != 0 || s.topology != 0
    case KindInvalid => false
  }

  predicate NoReference(s: Segment) {
    s.node == 0 && s.adjacency == 0 && s.endpoint == 0 && s.binding == 0 && s.policy == 0
  }

  function ShapeBlock(s: Segment, i: nat): seq<Check> {
    [C(s.id == 0, SEGMENT_ID_INVALID, i, 0),
     C(s.generation == 0, SEGMENT_GENERATION_INVALID, i, 0),
     C(s.encoding != EncUnset && s.encoding != ExpectedEncoding(s.kind), SEGMENT_ENCODING_MISMATCH, i,
       s.encoding.Code()),
     C(BindingIncomplete(s), SEGMENT_BINDING_INCOMPLETE, i, 0),
     C(ReservedSet(s), SEGMENT_RESERVED_SET, i, 0),
     C(NoReference(s), SEGMENT_MISSING_BINDING, i, 0)]
  }

  function EntityBlock(e: Evidence, s: Segment, i: nat): seq<Check> {
    (match FindSegment(e.segments, s.id)
     case None => [C(true, SEGMENT_ENTITY_UNKNOWN, i, s.id)]
     case Some(x) => [C(x.kind != s.kind, SEGMENT_ENTITY_KIND, i, x.kind.Code()),
                      C(x.generation != s.generation, SEGMENT_ENTITY_GENERATION, i, x.generation)])
    + [C(s.kind.KindNode? && s.node != 0 && !HasScoped(e.nodes, s.node), SEGMENT_ENTITY_UNKNOWN, i, s.node),
       C(s.kind.KindEndpoint? && s.endpoint != 0 && !HasScoped(e.endpoints, s.endpoint), SEGMENT_ENTITY_UNKNOWN, i,
         s.endpoint),
       C(s.kind.KindBinding? && s.binding != 0 && !HasScoped(e.bindings, s.binding), SEGMENT_ENTITY_UNKNOWN, i,
         s.binding)]
  }

  function StructuralSegment(r: Request, i: nat): seq<Check>
    requires i < |r.segments|
  {
    var s := r.segments[i];
    if s.kind.KindInvalid? then [C(true, SEGMENT_KIND_INVALID, i, 0)]
    else ShapeBlock(s, i) + (if r.evidence.Some? then EntityBlock(r.evidence.value, s, i) else [])
  }

  function StructuralSegments(r: Request, n: nat): (parts: seq<seq<Check>>)
    requires n <= |r.segments|
    ensures |parts| == n && forall i :: 0 <= i < n ==> parts[i] == StructuralSegment(r, i)
  {
    seq(n, i requires 0 <= i < n => StructuralSegment(r, i))
  }

  function Width(r: Request): nat { if r.profile.Some? then r.profile.value.payloadWidth else 0 }
  predicate ForbidConsecutive(r: Request) { r.profile.None? || !r.profile.value.allowConsecutive }
  predicate ForbidNonconsecutive(r: Request) { r.profile.None? || !r.profile.value.allowNonconsecutive }

  function StructuralPair(r: Request, i: nat, j: nat): seq<Check>
    requires j < i < |r.segments|
  {
    [C(ForbidConsecutive(r) && RepeatAt(r, Width(r), i, j, true), SEGMENT_DUP_CONSECUTIVE, i, r.segments[i].id),
     C(ForbidNonconsecutive(r) && RepeatAt(r, Width(r), i, j, false), SEGMENT_DUP_NONCONSECUTIVE, i,
       r.segments[i].id)]
  }

  function StructuralPairs(r: Request, i: nat, n: nat): (parts: seq<seq<Check>>)
    requires n <= i < |r.segments|
    ensures |parts| == n && forall j :: 0 <= j < n ==> parts[j] == StructuralPair(r, i, j)
  {
    seq(n, j requires 0 <= j < n => StructuralPair(r, i, j))
  }

  function StructuralRows(r: Request, n: nat): (parts: seq<seq<Check>>)
    requires n <= |r.segments|
    ensures |parts| == n && forall i :: 0 <= i < n ==> parts[i] == Gather(StructuralPairs(r, i, i))
  {
    seq(n, i requires 0 <= i < n => Gather(StructuralPairs(r, i, i)))
  }

  function StructuralChecks(r: Request): seq<Check> {
    Gather(StructuralSegments(r, Scan(r))) + Gather(StructuralRows(r, Scan(r)))
  }

  method CheckStructural(r: Request, out: ValidationResult)
    requires out.Logged()
    modifies out
    ensures out.Logged() && out.log == old(out.log) + StructuralChecks(r)
  {
    hide StructuralSegment; hide Collect; hide StructuralPair;
    for i := 0 to Scan(r)
      invariant out.Logged() && out.log == old(out.log) + Gather(StructuralSegments(r, i))
    {
      var block := StructuralSegment(r, i);
      out.Run(block);
      GatherStep(old(out.log), StructuralSegments(r, i), StructuralSegments(r, i + 1), block);
    }
    CheckDuplicates(r, out);
    SeqAssoc(old(out.log), Gather(StructuralSegments(r, Scan(r))), Gather(StructuralRows(r, Scan(r))));
  }

  method CheckDuplicateRow(r: Request, i: nat, out: ValidationResult)
    requires i < |r.segments| && out.Logged()
    modifies out
    ensures out.Logged() && out.log == old(out.log) + Gather(StructuralPairs(r, i, i))
  {
    for j := 0 to i
      invariant out.Logged() && out.log == old(out.log) + Gather(StructuralPairs(r, i, j))
    {
      var block := StructuralPair(r, i, j);
      out.Run(block);
      GatherStep(old(out.log), StructuralPairs(r, i, j), StructuralPairs(r, i, j + 1), block);
    }
  }

  method CheckDuplicates(r: Request, out: ValidationResult)
    requires out.Logged()
    modifies out
    ensures out.Logged() && out.log == old(out.log) + Gather(StructuralRows(r, Scan(r)))
  {
    for i := 0 to Scan(r)
      invariant out.Logged() && out.log == old(out.log) + Gather(StructuralRows(r, i))
    {
      CheckDuplicateRow(r, i, out);
      GatherStep(old(out.log), StructuralRows(r, i), StructuralRows(r, i + 1), Gather(StructuralPairs(r, i, i)));
    }
  }

  // ------------------------------------------------------ capability and topology

  function CapabilityBlock(e: Evidence, key: u64): seq<Check> {
    if key == 0 then [C(true, CAPABILITY_KEY_INVALID, 0, 0)]
    else match FindCapability(e.capabilities, key)
         case None => [C(true, CAPABILITY_MISSING, 0, key)]
         case Some(x) => [C(!x.supported, CAPABILITY_UNSUPPORTED, 0, key),
                          C(x.generation != e.capability, CAPABILITY_GENERATION, 0, x.generation)]
  }

  function CapabilityBlocks(e: Evidence, keys: seq<u64>, n: nat): (parts: seq<seq<Check>>)
    requires n <= |keys|
    ensures |parts| == n && forall k :: 0 <= k < n ==> parts[k] == CapabilityBlock(e, keys[k])
  {
    seq(n, k requires 0 <= k < n => CapabilityBlock(e, keys[k]))
  }

  function CapabilityChecks(r: Request): seq<Check> {
    if r.profile.None? then []
    else
      var keys := r.profile.value.capabilities;
      match r.evidence
      case None => [C(keys != [], CAPABILITY_UNAVAILABLE, 0, 0)]
      case Some(e) =>
        [C(r.capability != 0 && r.capability != e.capability, CAPABILITY_GENERATION, 0, e.capability)]
        + Gather(CapabilityBlocks(e, keys, |keys|))
  }

  method CheckCapability(r: Request, out: ValidationResult)
    requires out.Logged()
    modifies out
    ensures out.Logged() && out.log == old(out.log) + CapabilityChecks(r)
  {
    hide CapabilityBlock; hide Collect; hide FindCapability;
    if r.profile.None? { return; }
    var keys := r.profile.value.capabilities;
    if r.evidence.None? {
      out.Run([C(keys != [], CAPABILITY_UNAVAILABLE, 0, 0)]);
      return;
    }
    var e := r.evidence.value;
    var head := [C(r.capability != 0 && r.capability != e.capability, CAPABILITY_GENERATION, 0, e.capability)];
    out.Run(head);
    ghost var start := out.log;
    for k := 0 to |keys|
      invariant out.Logged() && out.log == start + Gather(CapabilityBlocks(e, keys, k))
    {
      var block := CapabilityBlock(e, keys[k]);
      out.Run(block);
      GatherStep(start, CapabilityBlocks(e, keys, k), CapabilityBlocks(e, keys, k + 1), block);
    }
    SeqAssoc(old(out.log), head, Gather(CapabilityBlocks(e, keys, |keys|)));
  }

  predicate HasAdjacency(ss: seq<Segment>) { exists i :: 0 <= i < |ss| && ss[i].kind.KindAdjacency? }

  function TopologyBlock(e: Evidence, s: Segment, i: nat): seq<Check> {
    if !s.kind.KindAdjacency? then []
    else match FindAdjacency(e.adjacencies, s.adjacency)
         case None => [C(true, TOPOLOGY_ADJACENCY_UNKNOWN, i, s.adjacency)]
         case Some(x) => [C(x.topology != s.topology, TOPOLOGY_ADJACENCY_STALE, i, x.topology)]
  }

  function TopologyBlocks(e: Evidence, ss: seq<Segment>, n: nat): (parts: seq<seq<Check>>)
    requires n <= |ss|
    ensures |parts| == n && forall i :: 0 <= i < n ==> parts[i] == TopologyBlock(e, ss[i], i)
  {
    seq(n, i requires 0 <= i < n => TopologyBlock(e, ss[i], i))
  }

  function TopologyChecks(r: Request): seq<Check> {
    match r.evidence
    case None => [C(HasAdjacency(r.segments), TOPOLOGY_UNAVAILABLE, 0, 0)]
    case Some(e) =>
      [C(r.topology != 0 && e.topology == 0, TOPOLOGY_GENERATION_INVALID, 0, 0),
       C(r.topology != 0 && e.topology != 0 && r.topology != e.topology, TOPOLOGY_GENERATION_MISMATCH, 0, e.topology)]
      + Gather(TopologyBlocks(e, r.segments, |r.segments|))
  }

  method CheckTopology(r: Request, out: ValidationResult)
    requires out.Logged()
    modifies out
    ensures out.Logged() && out.log == old(out.log) + TopologyChecks(r)
  {
    if r.evidence.None? {
      out.Run([C(HasAdjacency(r.segments), TOPOLOGY_UNAVAILABLE, 0, 0)]);
      return;
    }
    var e := r.evidence.value;
    var head :=
      [C(r.topology != 0 && e.topology == 0, TOPOLOGY_GENERATION_INVALID, 0, 0),
       C(r.topology != 0 && e.topology != 0 && r.topology != e.topology, TOPOLOGY_GENERATION_MISMATCH, 0, e.topology)];
    out.Run(head);
    ghost var start := out.log;
    for i := 0 to |r.segments|
      invariant out.Logged() && out.log == start + Gather(TopologyBlocks(e, r.segments, i))
    {
      var block := TopologyBlock(e, r.segments[i], i);
      out.Run(block);
      GatherStep(start, TopologyBlocks(e, r.segments, i), TopologyBlocks(e, r.segments, i + 1), block);
    }
    SeqAssoc(old(out.log), head, Gather(TopologyBlocks(e, r.segments, |r.segments|)));
  }

  // --------------------------------------------- path, route, constraint, resources

  function PathChecks(r: Request): seq<Check> {
    if r.path == 0 then [C(r.pathAuthority != 0, PATH_BINDING_MISSING, 0, r.pathAuthority)]
    else
      [C(r.pathAuthority == 0, PATH_GENERATION_INVALID, 0, r.path)]
      + match r.evidence
        case None => []
        case Some(e) =>
          match FindPath(e.paths, r.path)
          case None => [C(true, PATH_UNKNOWN, 0, r.path)]
          case Some(x) =>
            [C(x.authority != r.pathAuthority, PATH_GENERATION_STALE, 0, x.authority),
             C(x.scope != 0 && r.scope != 0 && x.scope != r.scope, PATH_OTHER_SCOPE, 0, x.scope)]
  }

  function RouteChecks(r: Request): seq<Check> {
    if r.route == 0 then []
    else
      [C(r.routeGeneration == 0, ROUTE_INVALID, 0, r.route)]
      + match r.evidence
        case None => []
        case Some(e) =>
          match FindRoute(e.routes, r.route)
          case None => [C(true, ROUTE_UNKNOWN, 0, r.route)]
          case Some(x) =>
            [C(x.generation != r.routeGeneration, ROUTE_GENERATION_STALE, 0, x.generation),
             C(x.list != 0 && x.list != r.listId, ROUTE_INVALID, 0, x.list)]
  }

  function ConstraintChecks(r: Request): seq<Check> {
    if r.constraint == 0 then []
    else
      [C(r.constraintGeneration == 0, CONSTRAINT_INVALID, 0, r.constraint)]
      + match r.evidence
        case None => []
        case Some(e) =>
          match FindConstraint(e.constraints, r.constraint)
          case None => [C(true, CONSTRAINT_UNKNOWN, 0, r.constraint)]
          case Some(x) =>
            [C(x.generation != r.constraintGeneration, CONSTRAINT_GENERATION_STALE, 0, x.generation)]
  }

  function PayloadBlocks(r: Request, n: nat): (parts: seq<seq<Check>>)
    requires n <= |r.segments|
    ensures |parts| == n && forall i :: 0 <= i < n ==> parts[i] == PayloadBlock(r.limits, r.segments[i], i)
  {
    seq(n, i requires 0 <= i < n => PayloadBlock(r.limits, r.segments[i], i))
  }

  function PayloadBlock(l: Limits, s: Segment, i: nat): seq<Check> {
    [C(|s.payload| > l.maxPayloadBytes, LIMIT_PAYLOAD_BYTES, i, l.maxPayloadBytes)]
  }

  function ResourceHead(r: Request): seq<Check> {
    [C(|r.segments| > r.limits.maxSegmentsPerList, LIMIT_SEGMENTS_PER_LIST, 0, r.limits.maxSegmentsPerList)]
  }

  function ResourceChecks(r: Request): seq<Check> { ResourceHead(r) + Gather(PayloadBlocks(r, |r.segments|)) }

  method CheckResourceLimits(r: Request, out: ValidationResult)
    requires out.Logged()
    modifies out
    ensures out.Logged() && out.log == old(out.log) + ResourceChecks(r)
  {
    out.Run(ResourceHead(r));
    ghost var start := out.log;
    for i := 0 to |r.segments|
      invariant out.Logged() && out.log == start + Gather(PayloadBlocks(r, i))
    {
      var block := PayloadBlock(r.limits, r.segments[i], i);
      out.Run(block);
      GatherStep(start, PayloadBlocks(r, i), PayloadBlocks(r, i + 1), block);
    }
    SeqAssoc(old(out.log), ResourceHead(r), Gather(PayloadBlocks(r, |r.segments|)));
  }

  // -------------------------------------------------------------- whole requests

  function IdentityChecks(r: Request): seq<Check> { CallerChecks(r) + EpochChecks(r) + ListChecks(r) }

  function ContentChecks(r: Request): seq<Check> {
    EmptyChecks(r) + ProfileChecks(r) + PolicyChecks(r) + StructuralChecks(r)
  }

  function DependencyChecks(r: Request): seq<Check> {
    CapabilityChecks(r) + TopologyChecks(r) + PathChecks(r) + RouteChecks(r)
  }

  function LastChecks(r: Request): seq<Check> { ConstraintChecks(r) + ResourceChecks(r) }

  /** Every check of a request, in order; content and dependencies are examined only by a full validation. */
  function RequestChecks(r: Request): seq<Check> {
    IdentityChecks(r) + if r.full then ContentChecks(r) + DependencyChecks(r) + LastChecks(r) else []
  }

  function SequenceChecks(r: Request): seq<Check> {
    EmptyChecks(r) + ProfileChecks(r) + StructuralChecks(r)
    + (CapabilityChecks(r) + TopologyChecks(r) + ResourceChecks(r))
  }

  lemma SeqAssoc4<T>(a: seq<T>, b: seq<T>, c: seq<T>, d: seq<T>, e: seq<T>)
    ensures (((a + b) + c) + d) + e == a + (b + c + d + e)
  {
    SeqAssoc3(a, b, c, d);
    SeqAssoc(a, b + c + d, e);
  }

  method ValidateRequest(r: Request) returns (o: Outcome)
    ensures o == Collect(r.limits.maxReasons, RequestChecks(r))
  {
    var out := new ValidationResult(r.limits.maxReasons);
    ValidateIdentity(r, out);
    if r.full {
      ValidateContent(r, out);
      ValidateDependencies(r, out);
      ValidateLast(r, out);
      SeqAssoc3(IdentityChecks(r), ContentChecks(r), DependencyChecks(r), LastChecks(r));
    } else {
      assert IdentityChecks(r) + [] == IdentityChecks(r);
    }
    o := out.View();
  }

  method ValidateIdentity(r: Request, out: ValidationResult)
    requires out.Logged() && out.log == []
    modifies out
    ensures out.Logged() && out.log == IdentityChecks(r)
  {
    out.Run(CallerChecks(r));
    out.Run(EpochChecks(r));
    out.Run(ListChecks(r));
    SeqAssoc3([], CallerChecks(r), EpochChecks(r), ListChecks(r));
  }

  method ValidateContent(r: Request, out: ValidationResult)
    requires out.Logged()
    modifies out
    ensures out.Logged() && out.log == old(out.log) + ContentChecks(r)
  {
    out.Run(EmptyChecks(r));
    CheckProfile(r, out);
    CheckPolicy(r, out);
    CheckStructural(r, out);
    SeqAssoc4(old(out.log), EmptyChecks(r), ProfileChecks(r), PolicyChecks(r), StructuralChecks(r));
  }

  method ValidateDependencies(r: Request, out: ValidationResult)
    requires out.Logged()
    modifies out
    ensures out.Logged() && out.log == old(out.log) + DependencyChecks(r)
  {
    CheckCapability(r, out);
    CheckTopology(r, out);
    out.Run(PathChecks(r));
    out.Run(RouteChecks(r));
    SeqAssoc4(old(out.log), CapabilityChecks(r), TopologyChecks(r), PathChecks(r), RouteChecks(r));
  }

  method ValidateLast(r: Request, out: ValidationResult)
    requires out.Logged()
    modifies out
    ensures out.Logged() && out.log == old(out.log) + LastChecks(r)
  {
    out.Run(ConstraintChecks(r));
    CheckResourceLimits(r, out);
    SeqAssoc(old(out.log), ConstraintChecks(r), ResourceChecks(r));
  }

  /** Validation of a sequence on its own: no caller, lifecycle or policy. */
  method ValidateSegmentSequence(r: Request) returns (o: Outcome)
    ensures o == Collect(r.limits.maxReasons, SequenceChecks(r))
  {
    var out := new ValidationResult(r.limits.maxReasons);
    out.Run(EmptyChecks(r));
    CheckProfile(r, out);
    CheckStructural(r, out);
    SeqAssoc3([], EmptyChecks(r), ProfileChecks(r), StructuralChecks(r));
    ValidateSequenceEvidence(r, out);
    o := out.View();
  }

  method ValidateSequenceEvidence(r: Request, out: ValidationResult)
    requires out.Logged()
    modifies out
    ensures out.Logged()
    ensures out.log == old(out.log) + (CapabilityChecks(r) + TopologyChecks(r) + ResourceChecks(r))
  {
    CheckCapability(r, out);
    CheckTopology(r, out);
    CheckResourceLimits(r, out);
    SeqAssoc3(old(out.log), CapabilityChecks(r), TopologyChecks(r), ResourceChecks(r));
  }
}
