/** The value types shared by every component: identifiers, segments, list revisions and durable state.

    Identifiers and generations are 64-bit words whose zero value is the invalid sentinel.  The counters that the
    runtime never compares against a maximum (`revision` and the copies of it) are natural numbers. */
module SrfTypes {

  type u8 = x: int | 0 <= x < 0x100
  type u16 = x: int | 0 <= x < 0x1_0000
  type u32 = x: int | 0 <= x < 0x1_0000_0000
  type u64 = x: int | 0 <= x < 0x1_0000_0000_0000_0000

  const U64_MAX: u64 := 0xFFFF_FFFF_FFFF_FFFF

  type Bytes = seq<u8>

  datatype Option<+T> = None | Some(value: T)

  /** The 128-bit identity digest.  Everything here is proved for every function from bytes to digests. */
  datatype Digest = Digest(hi: u64, lo: u64)
  type DigestFn = Bytes -> Digest

  // ------------------------------------------------------------------ limits

  datatype Limits = Limits(
    maxLists: u32, maxSegmentsPerList: u32, maxPayloadBytes: u32, maxProfiles: u32, maxPolicies: u32,
    maxBatchSize: u32, maxPublishers: u32, maxFrameBytes: u32, maxHistory: u32, maxRecordBytes: u32,
    maxReasons: u32, maxTotalSegments: u32, maxAttempts: u32, maxEvidenceRecords: u32)

  // ---------------------------------------------------------------- segments

  datatype SegmentKind = KindInvalid | KindNode | KindAdjacency | KindEndpoint | KindBinding | KindPolicy {
    function Code(): u16 {
      match this
      case KindInvalid => 0
      case KindNode => 1
      case KindAdjacency => 2
      case KindEndpoint => 3
      case KindBinding => 4
      case KindPolicy => 5
    }
  }

  datatype EncodingId = EncUnset | EncNode | EncAdjacency | EncEndpoint | EncBinding | EncPolicy {
    function Code(): u16 {
      match this
      case EncUnset => 0
      case EncNode => 1
      case EncAdjacency => 2
      case EncEndpoint => 3
      case EncBinding => 4
      case EncPolicy => 5
    }
  }

  datatype Strictness = Strict | Loose {
    function Code(): u8 { if this == Strict then 1 else 2 }
  }

  datatype Segment = Segment(
    kind: SegmentKind, encoding: EncodingId, id: u64, generation: u64, node: u64, adjacency: u64, endpoint: u64,
    binding: u64, policy: u64, policyGeneration: u64, topology: u64, payload: Bytes)

  function ExpectedEncoding(kind: SegmentKind): EncodingId {
    match kind
    case KindNode => EncNode
    case KindAdjacency => EncAdjacency
    case KindEndpoint => EncEndpoint
    case KindBinding => EncBinding
    case KindPolicy => EncPolicy
    case KindInvalid => EncUnset
  }

  // ---------------------------------------------------- profiles and policies

  datatype Profile = Profile(
    id: u64, generation: u64, name: Bytes, support: u8, kindsMask: u16, maxDepth: u32, payloadWidth: u32,
    allowEmpty: bool, allowConsecutive: bool, allowNonconsecutive: bool, allowLoose: bool, capabilities: seq<u64>)

  datatype Policy = Policy(
    id: u64, generation: u64, ownerScope: u64, allowedProfiles: seq<u64>, kindsMask: u16, maxDepth: u32,
    required: seq<u64>, forbidden: seq<u64>, allowReplacement: bool, allowDerivation: bool, requireStrict: bool)

  /** The registries and the counter of the changes made to them. */
  datatype Registry = Registry(profiles: seq<Profile>, policies: seq<Policy>, revision: nat)

  /** Whether bit `kind - 1` of a kinds mask is set. */
  predicate MaskHas(mask: u16, kind: SegmentKind) {
    match kind
    case KindInvalid => false
    case KindNode => mask % 2 == 1
    case KindAdjacency => mask / 2 % 2 == 1
    case KindEndpoint => mask / 4 % 2 == 1
    case KindBinding => mask / 8 % 2 == 1
    case KindPolicy => mask / 16 % 2 == 1
  }

  function FindProfile(ps: seq<Profile>, id: u64): (r: Option<Profile>)
    ensures r.Some? ==> r.value in ps && r.value.id == id
    ensures r.None? ==> forall p :: p in ps ==> p.id != id
  {
    if ps == [] then None else if ps[0].id == id then Some(ps[0]) else FindProfile(ps[1..], id)
  }

  function FindPolicy(ps: seq<Policy>, id: u64): (r: Option<Policy>)
    ensures r.Some? ==> r.value in ps && r.value.id == id
    ensures r.None? ==> forall p :: p in ps ==> p.id != id
  {
    if ps == [] then None else if ps[0].id == id then Some(ps[0]) else FindPolicy(ps[1..], id)
  }

  // --------------------------------------------------------------- lifecycle

  datatype LifecycleState =
    Declared | Validating | Active | RevalidationRequired | Withdrawing | Withdrawn | Superseded | Revoked | Retired

  datatype LifecycleEvent =
    ValidateBegin | ValidateSucceed | ValidateFail | RevalidateBegin | RevalidateSucceed | RevalidateFail |
    DependencyChanged | WithdrawBegin | WithdrawCommit | SupersedeBegin | SupersedeCommit | Revoke | Retire |
    Reactivate | RecoveryLoad | ReplaceBegin

  datatype Currentness =
    Unknown | Current | NeedsRevalidation | StaleProfile | StalePolicy | StaleTopology | StaleCapability |
    StalePathAuthority | StaleRouteBinding | StaleConstraintBinding | StaleEpoch | FencedPublisher

  // -------------------------------------------------------------- list revisions

  datatype Content = Content(
    id: u64, scope: u64, profile: u64, profileGeneration: u64, policy: u64, policyGeneration: u64,
    strictness: Strictness, topology: u64, capability: u64, path: u64, pathAuthority: u64, route: u64,
    routeGeneration: u64, constraint: u64, constraintGeneration: u64, segments: seq<Segment>)

  datatype Lineage = Lineage(supersedes: u64, supersededBy: u64, history: u64)

  datatype Writer = Writer(publisher: u64, boot: u64, epoch: u64, attempt: u64)

  datatype Provenance = Provenance(
    path: u64, pathAuthority: u64, route: u64, routeGeneration: u64, constraint: u64, constraintGeneration: u64,
    policyGeneration: u64, topology: u64, capability: u64, publisher: u64, boot: u64, epoch: u64)

  datatype SegmentList = SegmentList(
    content: Content, generation: u64, lineage: Lineage, authority: Writer, provenance: Provenance,
    state: LifecycleState, currentness: Currentness, contentDigest: Digest, sequenceDigest: Digest,
    committedRevision: nat)

  /** What a caller supplies for one mutation. */
  datatype Draft = Draft(
    id: u64, scope: u64, profile: u64, profileGeneration: u64, policy: u64, policyGeneration: u64,
    strictness: Strictness, topology: u64, capability: u64, path: u64, pathAuthority: u64, route: u64,
    routeGeneration: u64, constraint: u64, constraintGeneration: u64, segments: seq<Segment>,
    expectedGeneration: u64, supersedes: u64, supersedesGeneration: u64, derived: bool)

  // ---------------------------------------------------------------- authority

  datatype Caller = Caller(epoch: u64, publisher: u64, boot: u64, scope: u64, attempt: u64)

  datatype Publisher = Publisher(id: u64, boot: u64, scope: u64, epoch: u64, alive: bool, fenced: bool)

  datatype Authority = Authority(epoch: u64, publishers: seq<Publisher>, fencedBoots: seq<u64>)

  function FindPublisher(ps: seq<Publisher>, id: u64): (r: Option<Publisher>)
    ensures r.Some? ==> r.value in ps && r.value.id == id
    ensures r.None? ==> forall p :: p in ps ==> p.id != id
  {
    if ps == [] then None else if ps[0].id == id then Some(ps[0]) else FindPublisher(ps[1..], id)
  }

  // ------------------------------------------------------------ durable state

  datatype HistoryEntry = HistoryEntry(
    id: u64, list: u64, generation: u64, state: LifecycleState, currentness: Currentness, digest: Digest,
    revision: nat)

  datatype Attempt = Attempt(attempt: u64, list: u64, payload: Digest, generation: u64, committed: bool)

  datatype DurableState = DurableState(
    epoch: u64, revision: nat, profiles: seq<Profile>, policies: seq<Policy>, lists: seq<SegmentList>,
    history: seq<HistoryEntry>, attempts: seq<Attempt>, publishers: seq<Publisher>, fencedBoots: seq<u64>)
}
