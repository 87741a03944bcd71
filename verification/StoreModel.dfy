/** The pure content of a store mutation (`src/store.cpp`): what is captured, what is validated against it, and what
    the durable state becomes. */
module SrfStoreModel {
  import opened SrfTypes
  import opened SrfBytes
  import opened SrfReasons
  import opened SrfLifecycle
  import opened SrfEvidence
  import opened SrfCanonical
  import opened SrfValidation

  datatype Config = Config(limits: Limits, digest: DigestFn)

  // ----------------------------------------------------------------- look-ups

  /** The position of the list `id`, or the number of lists. */
  function Position(ls: seq<SegmentList>, id: u64): (i: nat)
    ensures i <= |ls|
    ensures i < |ls| ==> ls[i].content.id == id
    ensures forall k :: 0 <= k < i ==> ls[k].content.id != id
  {
    if ls == [] then 0 else if ls[0].content.id == id then 0 else 1 + Position(ls[1..], id)
  }

  function FindList(ls: seq<SegmentList>, id: u64): (r: Option<SegmentList>)
    ensures r.Some? ==> r.value in ls && r.value.content.id == id
    ensures r.None? ==> forall l :: l in ls ==> l.content.id != id
  {
    var i := Position(ls, id);
    if i < |ls| then Some(ls[i]) else None
  }

  /** Like FindList, but by position of the attempt record. */
  function AttemptPosition(rs: seq<Attempt>, attempt: u64): (i: nat)
    ensures i <= |rs|
    ensures i < |rs| ==> rs[i].attempt == attempt
    ensures forall k :: 0 <= k < i ==> rs[k].attempt != attempt
  {
    if rs == [] then 0 else if rs[0].attempt == attempt then 0 else 1 + AttemptPosition(rs[1..], attempt)
  }

  predicate AttemptAccepted(l: Limits, rs: seq<Attempt>, attempt: u64) {
    attempt == 0 || AttemptPosition(rs, attempt) < |rs| || |rs| < l.maxAttempts
  }

  // ---------------------------------------------------------------- bookkeeping

  function NextHistoryId(h: seq<HistoryEntry>): u64 {
    if h == [] then 1 else if h[|h| - 1].id >= U64_MAX then 0 else h[|h| - 1].id + 1
  }

  function HistoryOf(s: DurableState, l: SegmentList, id: u64): HistoryEntry {
    HistoryEntry(id, l.content.id, l.generation, l.state, l.currentness, l.contentDigest, s.revision + 1)
  }

  /** Append one entry, dropping the oldest when the retained window is full; nothing once ids are exhausted. */
  function AppendHistory(lim: Limits, s: DurableState, l: SegmentList): DurableState {
    var id := NextHistoryId(s.history);
    if id == 0 then s
    else
      var kept := if |s.history| >= lim.maxHistory && |s.history| > 0 then s.history[1..] else s.history;
      s.(history := kept + [HistoryOf(s, l, id)])
  }

  /** Update the record of the attempt, or append one. */
  function RecordAttempt(rs: seq<Attempt>, r: Attempt): seq<Attempt> {
    var i := AttemptPosition(rs, r.attempt);
    if i < |rs| then rs[i := r] else rs + [r]
  }

  // -------------------------------------------------------------------- digests

  function MaxPayload(ss: seq<Segment>): nat {
    if ss == [] then 0
    else
      var rest := MaxPayload(ss[..|ss| - 1]);
      var n := |ss[|ss| - 1].payload|;
      if rest < n then n else rest
  }

  /** The identity of a draft for replay detection: every field, each segment at the widest payload of the draft. */
  function DraftBytes(d: Draft): Bytes {
    Flat(DraftHead(d)) + DraftSegmentBytes(CanonicalizeAll(d.segments), DraftWidth(d))
  }

  function DraftWidth(d: Draft): nat {
    var width := MaxPayload(d.segments); if width == 0 then 1 else width
  }

  function DraftHead(d: Draft): seq<Token> {
    [Num(2, 0xD101)]
    + Words([d.id, d.scope, d.profile, d.profileGeneration, d.policy, d.policyGeneration])
    + [Num(1, d.strictness.Code())]
    + Words([d.topology, d.capability, d.path, d.pathAuthority, d.route, d.routeGeneration, d.constraint,
             d.constraintGeneration])
    + [Num(1, if d.derived then 1 else 0)]
    + Words([d.expectedGeneration, d.supersedes, d.supersedesGeneration])
    + [Num(4, MaxPayload(d.segments) % 0x1_0000_0000), Num(4, |d.segments| % 0x1_0000_0000)]
  }

  function DraftSegmentBytes(ss: seq<Segment>, w: nat): Bytes {
    if ss == [] then []
    else DraftSegmentBytes(ss[..|ss| - 1], w) + LE(0xC501, 2) + Flat(SegmentTokens(ss[|ss| - 1], w))
  }

  function DigestWords(dg: DigestFn, ds: seq<Draft>): Bytes {
    if ds == [] then LE(0xD102, 2)
    else
      var one := dg(DraftBytes(ds[|ds| - 1]));
      DigestWords(dg, ds[..|ds| - 1]) + LE(one.hi, 8) + LE(one.lo, 8)
  }

  function BatchDigest(dg: DigestFn, ds: seq<Draft>): Digest { dg(DigestWords(dg, ds)) }

  // ------------------------------------------------------------------- requests

  /** One kind of batch: the event the current revision must accept, and whether the lineage must (not) exist. */
  datatype Shape = Shape(intent: LifecycleEvent, requireExisting: bool, requireAbsent: bool)

  const CREATE := Shape(ValidateBegin, false, true)
  const REPLACE := Shape(ReplaceBegin, true, false)
  const REVALIDATE := Shape(RevalidateBegin, true, false)
  const BATCH := Shape(ReplaceBegin, false, false)

  ghost predicate StoreShape(s: Shape) { s == CREATE || s == REPLACE || s == REVALIDATE || s == BATCH }

  /** What the store looked up for one draft while it held its lock. */
  datatype Resolved = Resolved(existing: Option<SegmentList>, profile: Option<Profile>, policy: Option<Policy>,
                               superseded: Option<SegmentList>)

  function Resolve(ls: seq<SegmentList>, profiles: seq<Profile>, policies: seq<Policy>, d: Draft): Resolved {
    Resolved(FindList(ls, d.id), FindProfile(profiles, d.profile),
             if d.policy != 0 then FindPolicy(policies, d.policy) else None,
             if d.supersedes != 0 then FindList(ls, d.supersedes) else None)
  }

  /** The captured context of a mutation. */
  datatype Context = Context(caller: Caller, authority: Authority, storeRevision: nat, registryRevision: nat,
                             mark: Watermark, evidence: Evidence)

  function DraftRequest(cfg: Config, ctx: Context, shape: Shape, d: Draft, res: Resolved): Request {
    Request(cfg.limits, ctx.caller, ctx.authority, d.id, d.scope, res.existing, d.expectedGeneration, shape.intent,
            d.profile, d.profileGeneration, res.profile, d.policy, d.policyGeneration, res.policy, d.strictness,
            d.topology, d.capability, d.path, d.pathAuthority, d.route, d.routeGeneration, d.constraint,
            d.constraintGeneration, d.segments, d.derived, Some(ctx.evidence), true, shape.requireAbsent,
            shape.requireExisting)
  }

  /** The checks the store adds to those of the request. */
  function StoreChecks(d: Draft, res: Resolved): seq<Check> {
    (match res.existing
     case None => []
     case Some(x) => [C(d.expectedGeneration != x.generation, LIST_GENERATION_CONFLICT, 0, x.generation)])
    + (if d.supersedes == 0 then []
       else match res.superseded
            case None => [C(true, SUPERSEDES_UNKNOWN, 0, d.supersedes)]
            case Some(x) =>
              var denied := Transition(x.state, SupersedeBegin).None?;
              [C(d.supersedesGeneration != x.generation, LIST_GENERATION_CONFLICT, 0, x.generation),
               C(denied && x.state.Retired?, LIST_RETIRED, 0, x.generation),
               C(denied && x.state.Revoked?, LIST_REVOKED, 0, x.generation),
               C(denied, TRANSITION_DENIED, 0, x.generation)])
  }

  function DraftChecks(cfg: Config, ctx: Context, shape: Shape, d: Draft, res: Resolved): seq<Check> {
    RequestChecks(DraftRequest(cfg, ctx, shape, d, res)) + StoreChecks(d, res)
  }

  function DraftOutcome(cfg: Config, ctx: Context, shape: Shape, d: Draft, res: Resolved): Outcome {
    Collect(cfg.limits.maxReasons, DraftChecks(cfg, ctx, shape, d, res))
  }

  predicate DraftValid(cfg: Config, ctx: Context, shape: Shape, d: Draft, res: Resolved) {
    DraftOutcome(cfg, ctx, shape, d, res).reasons == []
    && (res.existing.Some? ==> res.existing.value.generation < U64_MAX)
  }

  // ------------------------------------------------------------------ revisions

  const NO_PROFILE := Profile(0, 0, [], 1, 0, 0, 0, false, false, false, false, [])

  function BoundProfile(res: Resolved): Profile { if res.profile.Some? then res.profile.value else NO_PROFILE }

  /** The content of the new revision.  A dependency the content does not need stays unbound. */
  function NewContent(d: Draft, e: Evidence, res: Resolved): Content {
    var p := BoundProfile(res);
    Content(
      d.id, d.scope, p.id, p.generation, d.policy, if res.policy.Some? then res.policy.value.generation else 0,
      d.strictness,
      if d.topology != 0 then d.topology else if HasAdjacency(d.segments) then e.topology else 0,
      if d.capability != 0 then d.capability else if p.capabilities != [] then e.capability else 0,
      d.path, d.pathAuthority, d.route, d.routeGeneration, d.constraint, d.constraintGeneration,
      CanonicalizeAll(d.segments))
  }

  function NewProvenance(c: Content, w: Writer): Provenance {
    Provenance(c.path, c.pathAuthority, c.route, c.routeGeneration, c.constraint, c.constraintGeneration,
               c.policyGeneration, c.topology, c.capability, w.publisher, w.boot, w.epoch)
  }

  /** A committed revision is always new: declared, validated and active in one step. */
  function MakeList(cfg: Config, ctx: Context, d: Draft, res: Resolved): SegmentList
    requires res.existing.Some? ==> res.existing.value.generation < U64_MAX
  {
    var c := NewContent(d, ctx.evidence, res);
    var w := Writer(ctx.caller.publisher, ctx.caller.boot, ctx.authority.epoch, ctx.caller.attempt);
    var previous := if res.existing.Some? then res.existing.value.generation else 0;
    var width := BoundProfile(res).payloadWidth;
    SegmentList(c, previous + 1, Lineage(previous, 0, 0), w, NewProvenance(c, w), Active, Current,
                ContentDigest(cfg.digest, c, width), SequenceDigest(cfg.digest, c.segments, width),
                ctx.storeRevision + 1)
  }

  datatype Prepared = Prepared(id: u64, existing: Option<u64>, superseded: Option<(u64, u64)>, list: SegmentList)

  function Prepare(cfg: Config, ctx: Context, d: Draft, res: Resolved): Prepared
    requires res.existing.Some? ==> res.existing.value.generation < U64_MAX
  {
    Prepared(d.id, if res.existing.Some? then Some(res.existing.value.generation) else None,
             if res.superseded.Some? then Some((d.supersedes, res.superseded.value.generation)) else None,
             MakeList(cfg, ctx, d, res))
  }

  /** Everything prepared, or nothing when some draft is invalid. */
  function PrepareAll(cfg: Config, ctx: Context, shape: Shape, ds: seq<Draft>, rs: seq<Resolved>): Option<seq<Prepared>>
    requires |ds| == |rs|
  {
    if forall i :: 0 <= i < |ds| ==> DraftValid(cfg, ctx, shape, ds[i], rs[i])
    then Some(seq(|ds|, i requires 0 <= i < |ds| && DraftValid(cfg, ctx, shape, ds[i], rs[i]) =>
                        Prepare(cfg, ctx, ds[i], rs[i])))
    else None
  }

  // --------------------------------------------------------------------- commit

  /** The generations a prepared mutation relies on are still the current ones. */
  predicate StillCurrent(ls: seq<SegmentList>, pm: Prepared) {
    var x := FindList(ls, pm.id);
    && (match pm.existing case Some(g) => x.Some? && x.value.generation == g case None => x.None?)
    && (pm.superseded.Some? ==>
          var y := FindList(ls, pm.superseded.value.0);
          y.Some? && y.value.generation == pm.superseded.value.1)
  }

  function NewLists(pms: seq<Prepared>): nat {
    if pms == [] then 0 else NewLists(pms[..|pms| - 1]) + (if pms[|pms| - 1].existing.None? then 1 else 0)
  }

  function NewSegments(pms: seq<Prepared>): nat {
    if pms == [] then 0
    else NewSegments(pms[..|pms| - 1])
         + (if pms[|pms| - 1].existing.None? then |pms[|pms| - 1].list.content.segments| else 0)
  }

  function TotalSegments(ls: seq<SegmentList>): nat {
    if ls == [] then 0 else TotalSegments(ls[..|ls| - 1]) + |ls[|ls| - 1].content.segments|
  }

  predicate RoomFor(lim: Limits, ls: seq<SegmentList>, pms: seq<Prepared>) {
    |ls| + NewLists(pms) <= lim.maxLists && TotalSegments(ls) + NewSegments(pms) <= lim.maxTotalSegments
  }

  /** Mark the superseded lineage, unless its state refuses it. */
  function Supersede(lim: Limits, s: DurableState, target: u64, heir: u64): Option<DurableState> {
    var i := Position(s.lists, target);
    if i == |s.lists| then Some(s)
    else match Transition(s.lists[i].state, SupersedeBegin)
         case None => None
         case Some(next) =>
           var other := s.lists[i].(state := next, lineage := s.lists[i].lineage.(supersededBy := heir),
                                    currentness := Unknown, committedRevision := s.revision);
           Some(AppendHistory(lim, s.(lists := s.lists[i := other]), other))
  }

  /** Put the new revision in the place of the old one, or at the end. */
  function Install(lim: Limits, s: DurableState, pm: Prepared): DurableState {
    var i := Position(s.lists, pm.id);
    if i < |s.lists| then
      var replaced := s.lists[i].(state := Superseded, currentness := Unknown);
      var s1 := AppendHistory(lim, s, replaced);
      AppendHistory(lim, s1.(lists := s1.lists[i := pm.list]), pm.list)
    else AppendHistory(lim, s.(lists := s.lists + [pm.list]), pm.list)
  }

  function ApplyOne(lim: Limits, s: DurableState, pm: Prepared, attempt: u64, payload: Digest): Option<DurableState> {
    match (if pm.superseded.Some? then Supersede(lim, s, pm.superseded.value.0, pm.id) else Some(s))
    case None => None
    case Some(s1) =>
      var s2 := Install(lim, s1, pm);
      Some(s2.(attempts :=
        RecordAttempt(s2.attempts, Attempt(attempt, pm.id, payload, pm.list.generation, true))))
  }

  function ApplyAll(lim: Limits, s: DurableState, pms: seq<Prepared>, attempt: u64, payload: Digest)
    : Option<DurableState>
    decreases |pms|
  {
    if pms == [] then Some(s)
    else match ApplyOne(lim, s, pms[0], attempt, payload)
         case None => None
         case Some(s1) => ApplyAll(lim, s1, pms[1..], attempt, payload)
  }

  /** The in-memory effect of a batch on the state it is applied to, or nothing when it is refused. */
  function BatchState(cfg: Config, s: DurableState, pms: seq<Prepared>, attempt: u64, payload: Digest)
    : Option<DurableState>
  {
    if !(forall i :: 0 <= i < |pms| ==> StillCurrent(s.lists, pms[i])) || !RoomFor(cfg.limits, s.lists, pms) then None
    else ApplyAll(cfg.limits, s.(revision := s.revision + 1), pms, attempt, payload)
  }

  /** Every commit copies the registry and the authority table, as they are at that moment, into the durable state. */
  function Stamp(s: DurableState, reg: Registry, auth: Authority, epoch: u64): DurableState {
    s.(profiles := reg.profiles, policies := reg.policies, publishers := auth.publishers,
       fencedBoots := auth.fencedBoots, epoch := epoch)
  }

  // ----------------------------------------------------------------- transitions

  function TransitionRequest(cfg: Config, ctx: Context, x: SegmentList, expected: u64, event: LifecycleEvent): Request {
    Request(cfg.limits, ctx.caller, ctx.authority, x.content.id, x.content.scope, Some(x), expected, event,
            0, 0, None, 0, 0, None, Strict, 0, 0, 0, 0, 0, 0, 0, 0, [], false, Some(ctx.evidence), false, false, false)
  }

  predicate TransitionValid(cfg: Config, ctx: Context, x: SegmentList, expected: u64, event: LifecycleEvent) {
    Collect(cfg.limits.maxReasons, RequestChecks(TransitionRequest(cfg, ctx, x, expected, event))).reasons == []
  }

  function TransitionDraft(id: u64, scope: u64, expected: u64): Draft {
    Draft(id, scope, 0, 0, 0, 0, Strict, 0, 0, 0, 0, 0, 0, 0, 0, [], expected, 0, 0, false)
  }

  function Transitioned(ctx: Context, x: SegmentList, next: LifecycleState, revision: nat): SegmentList {
    var c := ctx.caller;
    x.(state := next, currentness := if next == Active then Current else Unknown, committedRevision := revision,
       authority := Writer(c.publisher, c.boot, ctx.authority.epoch, c.attempt))
  }

  /** What an administrative event leaves on record for its attempt. */
  function AdminDigest(digest: DigestFn, id: u64, scope: u64, expected: u64): Digest {
    digest(DraftBytes(TransitionDraft(id, scope, expected)))
  }

  function TransitionRecord(cfg: Config, ctx: Context, x: SegmentList, expected: u64): Attempt {
    Attempt(ctx.caller.attempt, x.content.id, AdminDigest(cfg.digest, x.content.id, x.content.scope, expected),
            x.generation, true)
  }

  /** The effect of one administrative event on the list `id`; an existing record of the attempt is overwritten. */
  function TransitionState(cfg: Config, s: DurableState, ctx: Context, id: u64, expected: u64, event: LifecycleEvent)
    : Option<DurableState>
  {
    var i := Position(s.lists, id);
    if i == |s.lists| || s.lists[i].generation != expected then None
    else match Transition(s.lists[i].state, event)
         case None => None
         case Some(next) =>
           var l := Transitioned(ctx, s.lists[i], next, s.revision + 1);
           var s1 := AppendHistory(cfg.limits, s.(revision := s.revision + 1, lists := s.lists[i := l]), l);
           Some(if ctx.caller.attempt == 0 then s1
                else s1.(attempts := RecordAttempt(s1.attempts, TransitionRecord(cfg, ctx, l, expected))))
  }

  /** The four administrative events; no caller can pass another one. */
  ghost predicate AdminEvent(e: LifecycleEvent) {
    e == WithdrawBegin || e == WithdrawCommit || e == LifecycleEvent.Revoke || e == LifecycleEvent.Retire
  }

  // --------------------------------------------------------------------- refresh

  predicate Skipped(l: SegmentList) {
    l.state.Retired? || l.state.Withdrawn? || l.state.Superseded? || l.state.Revoked?
  }

  predicate CapabilityCurrent(e: Evidence, key: u64) {
    var x := FindCapability(e.capabilities, key);
    x.Some? && x.value.supported && x.value.generation == e.capability
  }

  predicate AdjacencyCurrent(e: Evidence, s: Segment) {
    s.kind.KindAdjacency? ==>
      var x := FindAdjacency(e.adjacencies, s.adjacency);
      x.Some? && x.value.topology == s.topology
  }

  /** The currentness refresh computes for a list: the first dependency, in this order, that no longer matches. */
  function Recheck(reg: Registry, auth: Authority, epoch: u64, e: Evidence, l: SegmentList): Currentness {
    var c := l.content;
    var p := FindProfile(reg.profiles, c.profile);
    var q := if c.policy != 0 then FindPolicy(reg.policies, c.policy) else None;
    if l.authority.boot in auth.fencedBoots then FencedPublisher
    else if p.None? || p.value.generation != c.profileGeneration then StaleProfile
    else if c.policy != 0 && (q.None? || q.value.generation != c.policyGeneration) then StalePolicy
    else if (c.capability != 0 && c.capability != e.capability)
            || exists k :: 0 <= k < |p.value.capabilities| && !CapabilityCurrent(e, p.value.capabilities[k])
    then StaleCapability
    else if (c.topology != 0 && c.topology != e.topology)
            || exists k :: 0 <= k < |c.segments| && !AdjacencyCurrent(e, c.segments[k])
    then StaleTopology
    else if c.path != 0 && (var x := FindPath(e.paths, c.path); x.None? || x.value.authority != c.pathAuthority)
    then StalePathAuthority
    else if c.route != 0 && (var x := FindRoute(e.routes, c.route); x.None? || x.value.generation != c.routeGeneration)
    then StaleRouteBinding
    else if c.constraint != 0
            && (var x := FindConstraint(e.constraints, c.constraint);
                x.None? || x.value.generation != c.constraintGeneration)
    then StaleConstraintBinding
    else if l.authority.epoch != 0 && epoch != 0 && l.authority.epoch != epoch then StaleEpoch
    else Current
  }

  /** Refresh only ever degrades a state. */
  function RefreshOne(reg: Registry, auth: Authority, epoch: u64, e: Evidence, l: SegmentList): SegmentList {
    if Skipped(l) then l
    else
      var now := Recheck(reg, auth, epoch, e, l);
      l.(currentness := now, state := if now != Current && l.state == Active then RevalidationRequired else l.state)
  }

  function RefreshLists(reg: Registry, auth: Authority, epoch: u64, e: Evidence, ls: seq<SegmentList>)
    : (r: seq<SegmentList>)
    ensures |r| == |ls| && forall i :: 0 <= i < |ls| ==> r[i] == RefreshOne(reg, auth, epoch, e, ls[i])
  {
    seq(|ls|, i requires 0 <= i < |ls| => RefreshOne(reg, auth, epoch, e, ls[i]))
  }

  /** The state a refresh would save; the same state when nothing changed. */
  function RefreshState(reg: Registry, auth: Authority, epoch: u64, e: Evidence, s: DurableState): DurableState {
    var ls := RefreshLists(reg, auth, epoch, e, s.lists);
    if ls == s.lists then s else s.(lists := ls, revision := s.revision + 1)
  }
}
