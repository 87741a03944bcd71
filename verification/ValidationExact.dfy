/** When validation accepts, in terms of the fabric and not of the checks: group by group, for whole requests, and for
    the drafts of a batch. */
module SrfValidationExact {
  import opened SrfTypes
  import opened SrfReasons
  import opened SrfLifecycle
  import opened SrfEvidence
  import opened SrfCanonical
  import opened SrfValidation
  import opened SrfValidationLaws
  import opened SrfStoreModel
  import opened SrfStoreLaws

  // ----------------------------------------------------------------------- look-ups

  /** `x` is the first of the records under `id`. */
  ghost predicate First<T(!new)>(rs: seq<T>, key: T -> u64, id: u64, x: T) {
    exists i :: 0 <= i < |rs| && rs[i] == x && key(x) == id && forall j :: 0 <= j < i ==> key(rs[j]) != id
  }

  /** Nothing is on record under `id`. */
  ghost predicate Missing<T(!new)>(rs: seq<T>, key: T -> u64, id: u64) {
    forall i :: 0 <= i < |rs| ==> key(rs[i]) != id
  }

  function PublisherKey(x: Publisher): u64 { x.id }
  function ProfileKey(x: Profile): u64 { x.id }
  function PolicyKey(x: Policy): u64 { x.id }
  function ListKey(x: SegmentList): u64 { x.content.id }
  function CapabilityKey(x: CapabilityRecord): u64 { x.key }
  function SegmentKey(x: SegmentRecord): u64 { x.id }
  function AdjacencyKey(x: AdjacencyRecord): u64 { x.id }
  function PathKey(x: PathRecord): u64 { x.id }
  function RouteKey(x: RouteRecord): u64 { x.id }
  function ConstraintKey(x: ConstraintRecord): u64 { x.id }

  /** How a record is found from the front: at the head, or in the rest when the head is another one. */
  lemma FromTheFront<T(!new)>(rs: seq<T>, key: T -> u64, id: u64)
    requires rs != []
    ensures forall x :: First(rs, key, id, x) <==> if key(rs[0]) == id then x == rs[0] else First(rs[1..], key, id, x)
    ensures Missing(rs, key, id) <==> key(rs[0]) != id && Missing(rs[1..], key, id)
  {
    forall x ensures First(rs, key, id, x) <==> if key(rs[0]) == id then x == rs[0] else First(rs[1..], key, id, x) {
      if i :| 0 <= i < |rs| && rs[i] == x && key(x) == id && (forall j :: 0 <= j < i ==> key(rs[j]) != id) && i > 0 {
        assert rs[1..][i - 1] == x && forall j :: 0 <= j < i - 1 ==> key(rs[1..][j]) != id;
      }
      if key(rs[0]) != id && First(rs[1..], key, id, x) {
        var i :| 0 <= i < |rs[1..]| && rs[1..][i] == x && key(x) == id
                 && forall j :: 0 <= j < i ==> key(rs[1..][j]) != id;
        assert rs[i + 1] == x && forall j :: 0 <= j < i + 1 ==> key(rs[j]) != id by {
          forall j | 0 <= j < i + 1 ensures key(rs[j]) != id { if j > 0 { assert rs[1..][j - 1] == rs[j]; } }
        }
      }
    }
    if Missing(rs, key, id) { assert forall i :: 0 <= i < |rs[1..]| ==> rs[1..][i] == rs[i + 1]; }
    if key(rs[0]) != id && Missing(rs[1..], key, id) {
      forall i | 0 <= i < |rs| ensures key(rs[i]) != id { if i > 0 { assert rs[1..][i - 1] == rs[i]; } }
    }
  }

  lemma {:induction false} PublisherFound(rs: seq<Publisher>, id: u64)
    ensures forall x :: FindPublisher(rs, id) == Some(x) <==> First(rs, PublisherKey, id, x)
    ensures FindPublisher(rs, id).None? <==> Missing(rs, PublisherKey, id)
  {
    if rs != [] { PublisherFound(rs[1..], id); FromTheFront(rs, PublisherKey, id); }
  }

  lemma {:induction false} ProfileFound(rs: seq<Profile>, id: u64)
    ensures forall x :: FindProfile(rs, id) == Some(x) <==> First(rs, ProfileKey, id, x)
    ensures FindProfile(rs, id).None? <==> Missing(rs, ProfileKey, id)
  {
    if rs != [] { ProfileFound(rs[1..], id); FromTheFront(rs, ProfileKey, id); }
  }

  lemma {:induction false} PolicyFound(rs: seq<Policy>, id: u64)
    ensures forall x :: FindPolicy(rs, id) == Some(x) <==> First(rs, PolicyKey, id, x)
    ensures FindPolicy(rs, id).None? <==> Missing(rs, PolicyKey, id)
  {
    if rs != [] { PolicyFound(rs[1..], id); FromTheFront(rs, PolicyKey, id); }
  }

  lemma {:induction false} CapabilityFound(rs: seq<CapabilityRecord>, id: u64)
    ensures forall x :: FindCapability(rs, id) == Some(x) <==> First(rs, CapabilityKey, id, x)
    ensures FindCapability(rs, id).None? <==> Missing(rs, CapabilityKey, id)
  {
    if rs != [] { CapabilityFound(rs[1..], id); FromTheFront(rs, CapabilityKey, id); }
  }

  lemma {:induction false} SegmentFound(rs: seq<SegmentRecord>, id: u64)
    ensures forall x :: FindSegment(rs, id) == Some(x) <==> First(rs, SegmentKey, id, x)
    ensures FindSegment(rs, id).None? <==> Missing(rs, SegmentKey, id)
  {
    if rs != [] { SegmentFound(rs[1..], id); FromTheFront(rs, SegmentKey, id); }
  }

  lemma {:induction false} AdjacencyFound(rs: seq<AdjacencyRecord>, id: u64)
    ensures forall x :: FindAdjacency(rs, id) == Some(x) <==> First(rs, AdjacencyKey, id, x)
    ensures FindAdjacency(rs, id).None? <==> Missing(rs, AdjacencyKey, id)
  {
    if rs != [] { AdjacencyFound(rs[1..], id); FromTheFront(rs, AdjacencyKey, id); }
  }

  lemma {:induction false} PathFound(rs: seq<PathRecord>, id: u64)
    ensures forall x :: FindPath(rs, id) == Some(x) <==> First(rs, PathKey, id, x)
    ensures FindPath(rs, id).None? <==> Missing(rs, PathKey, id)
  {
    if rs != [] { PathFound(rs[1..], id); FromTheFront(rs, PathKey, id); }
  }

  lemma {:induction false} RouteFound(rs: seq<RouteRecord>, id: u64)
    ensures forall x :: FindRoute(rs, id) == Some(x) <==> First(rs, RouteKey, id, x)
    ensures FindRoute(rs, id).None? <==> Missing(rs, RouteKey, id)
  {
    if rs != [] { RouteFound(rs[1..], id); FromTheFront(rs, RouteKey, id); }
  }

  lemma {:induction false} ConstraintFound(rs: seq<ConstraintRecord>, id: u64)
    ensures forall x :: FindConstraint(rs, id) == Some(x) <==> First(rs, ConstraintKey, id, x)
    ensures FindConstraint(rs, id).None? <==> Missing(rs, ConstraintKey, id)
  {
    if rs != [] { ConstraintFound(rs[1..], id); FromTheFront(rs, ConstraintKey, id); }
  }

  lemma ListFound(ls: seq<SegmentList>, id: u64)
    ensures forall x :: FindList(ls, id) == Some(x) <==> First(ls, ListKey, id, x)
    ensures FindList(ls, id).None? <==> Missing(ls, ListKey, id)
  {
    var i := Position(ls, id);
    if i < |ls| { assert ls[i].content.id == id && First(ls, ListKey, id, ls[i]); }
  }

  // ----------------------------------------------------------------- findings and lists

  lemma FailsGathered(parts: seq<seq<Check>>, x: Reason)
    ensures Fails(Gather(parts), x) <==> exists i :: 0 <= i < |parts| && Fails(parts[i], x)
  {
    GatherMembers(parts);
    if i :| 0 <= i < |parts| && Check(true, x) in parts[i] { assert Fails(parts[i], x); }
  }

  // -------------------------------------------------------------------- caller and epoch

  /** The writer is complete, on record for this boot and this scope, alive, and neither it nor its boot is fenced. */
  ghost predicate CallerStands(c: Caller, a: Authority) {
    && c.publisher != 0 && c.boot != 0 && c.attempt != 0 && c.scope != 0 && c.boot !in a.fencedBoots
    && exists p :: First(a.publishers, PublisherKey, c.publisher, p) && p.boot == c.boot && p.scope == c.scope
                   && p.alive && !p.fenced
  }

  ghost predicate CallerFinding(c: Caller, a: Authority, x: Reason) {
    || (x == Reason(CALLER_MISSING_PUBLISHER, 0, 0) && c.publisher == 0)
    || (x == Reason(CALLER_MISSING_BOOT, 0, 0) && c.boot == 0)
    || (x == Reason(CALLER_MISSING_ATTEMPT, 0, 0) && c.attempt == 0)
    || (x == Reason(CALLER_MISSING_SCOPE, 0, 0) && c.scope == 0)
    || (x == Reason(CALLER_UNKNOWN_PUBLISHER, 0, c.publisher) && c.publisher != 0
        && Missing(a.publishers, PublisherKey, c.publisher))
    || exists p :: First(a.publishers, PublisherKey, c.publisher, p) && PublisherFinding(c, a, p, x)
  }

  ghost predicate PublisherFinding(c: Caller, a: Authority, p: Publisher, x: Reason) {
    || (x == Reason(CALLER_STALE_BOOT, 0, p.boot) && p.boot != c.boot)
    || (x == Reason(CALLER_FENCED_PUBLISHER, 0, c.boot)
        && (p.fenced || !p.alive || (c.boot != 0 && c.boot in a.fencedBoots)))
    || (x == Reason(CALLER_SCOPE_MISMATCH, 0, p.scope) && c.scope != 0 && c.scope != p.scope)
  }

  lemma CallerReports(r: Request, x: Reason)
    ensures Fails(CallerChecks(r), x) <==> CallerFinding(r.caller, r.authority, x)
  {
    var cs, ps := CallerChecks(r), r.authority.publishers;
    PublisherFound(ps, r.caller.publisher);
    assert cs[0] in cs && cs[1] in cs && cs[2] in cs && cs[3] in cs && cs[4] in cs;
    var f := FindPublisher(ps, r.caller.publisher);
    if f.Some? {
      assert cs[5] in cs && cs[6] in cs;
      assert First(ps, PublisherKey, r.caller.publisher, f.value);
    }
  }

  lemma CallerExactly(r: Request)
    ensures AllPass(CallerChecks(r)) <==> CallerStands(r.caller, r.authority)
  {
    var cs, ps := CallerChecks(r), r.authority.publishers;
    PublisherFound(ps, r.caller.publisher);
    assert cs[0] in cs && cs[1] in cs && cs[2] in cs && cs[3] in cs && cs[4] in cs;
    var f := FindPublisher(ps, r.caller.publisher);
    if f.Some? {
      assert cs[5] in cs && cs[6] in cs;
      assert First(ps, PublisherKey, r.caller.publisher, f.value);
    }
  }

  ghost predicate EpochStands(c: Caller, a: Authority) { c.epoch == a.epoch && 0 < a.epoch < U64_MAX }

  ghost predicate EpochFinding(c: Caller, a: Authority, x: Reason) {
    || (x == Reason(EPOCH_INVALID, 0, 0) && c.epoch == 0)
    || (x == Reason(EPOCH_STALE, 0, a.epoch) && c.epoch != 0 && c.epoch != a.epoch)
    || (x == Reason(EPOCH_EXHAUSTED, 0, a.epoch) && c.epoch != 0 && a.epoch == U64_MAX)
  }

  lemma EpochExactly(r: Request)
    ensures AllPass(EpochChecks(r)) <==> EpochStands(r.caller, r.authority)
    ensures forall x :: Fails(EpochChecks(r), x) <==> EpochFinding(r.caller, r.authority, x)
  {
    var cs := EpochChecks(r);
    assert cs[0] in cs && (r.caller.epoch != 0 ==> cs[1] in cs);
  }

  // ------------------------------------------------------------------------ the lineage

  /** The lineage is as the request expects it: absent with no generation expected, or at the expected generation, not
      the last one, in a state that allows the event. */
  ghost predicate LineageStands(id: u64, existing: Option<SegmentList>, expected: u64, event: LifecycleEvent,
                                mustExist: bool, mustNotExist: bool) {
    id != 0 && match existing
               case None => !mustExist && expected == 0
               case Some(x) => !mustNotExist && 0 < x.generation < U64_MAX && expected == x.generation
                               && exists t :: SrfLifecycle.Leads(event, x.state, t)
  }

  ghost predicate LineageFinding(id: u64, existing: Option<SegmentList>, expected: u64, event: LifecycleEvent,
                                 mustExist: bool, mustNotExist: bool, x: Reason) {
    || (x == Reason(LIST_ID_INVALID, 0, 0) && id == 0)
    || (x == Reason(LIST_NOT_FOUND, 0, id) && existing.None? && (mustExist || expected != 0))
    || (existing.Some? && (|| (x == Reason(LIST_ALREADY_EXISTS, 0, id) && mustNotExist)
                           || RevisionFinding(existing.value, expected, event, x)))
  }

  ghost predicate RevisionFinding(l: SegmentList, expected: u64, event: LifecycleEvent, x: Reason) {
    var denied := !exists t :: SrfLifecycle.Leads(event, l.state, t);
    || (x == Reason(LIST_GENERATION_CONFLICT, 0, l.generation) && expected != l.generation)
    || (x == Reason(LIST_GENERATION_INVALID, 0, 0) && expected == 0)
    || (x == Reason(LIST_GENERATION_EXHAUSTED, 0, l.generation) && l.generation == U64_MAX)
    || (x == Reason(LIST_RETIRED, 0, l.generation) && denied && l.state == Retired)
    || (x == Reason(LIST_REVOKED, 0, l.generation) && denied && l.state == Revoked)
    || (x == Reason(LIST_SUPERSEDED, 0, l.generation) && denied && l.state == Superseded)
    || (x == Reason(LIST_WITHDRAWN, 0, l.generation) && denied && l.state == Withdrawn)
    || (x == Reason(TRANSITION_DENIED, 0, 256 * StateCode(l.state) + EventCode(event)) && denied)
  }

  lemma DeniedExactly(s: LifecycleState, e: LifecycleEvent)
    ensures Transition(s, e).None? <==> !exists t :: SrfLifecycle.Leads(e, s, t)
  {
    forall t ensures Transition(s, e) == Some(t) <==> SrfLifecycle.Leads(e, s, t) { TransitionExactly(s, e, t); }
    hide SrfLifecycle.Leads; hide Transition;
    if Transition(s, e).Some? { assert SrfLifecycle.Leads(e, s, Transition(s, e).value); }
  }

  lemma LineageExactly(r: Request)
    ensures AllPass(ListChecks(r)) <==>
            LineageStands(r.listId, r.existing, r.expectedGeneration, r.intent, r.requireExisting, r.requireAbsent)
  {
    hide Transition; hide SrfLifecycle.Leads;
    var cs := ListChecks(r);
    assert cs[0] in cs && cs[1] in cs && cs[2] in cs && cs[3] in cs;
    if r.existing.Some? {
      DeniedExactly(r.existing.value.state, r.intent);
      assert cs[4] in cs && cs[5] in cs && cs[10] in cs;
    }
  }

  lemma FailsFour(a: Check, b: Check, c: Check, d: Check, rest: seq<Check>, x: Reason)
    ensures var f := Check(true, x);
            Fails([a, b, c, d] + rest, x) <==> a == f || b == f || c == f || d == f || Fails(rest, x)
  {
    var four := [a, b, c, d];
    assert four[0] in four && four[1] in four && four[2] in four && four[3] in four;
  }

  lemma RevisionReports(r: Request, x: Reason)
    requires r.existing.Some?
    ensures Fails(ListChecks(r)[3..], x) <==> RevisionFinding(r.existing.value, r.expectedGeneration, r.intent, x)
  {
    hide Transition; hide SrfLifecycle.Leads; hide StateCode; hide EventCode; hide Fails;
    var l, cs := r.existing.value, ListChecks(r)[3..];
    DeniedExactly(l.state, r.intent);
    FailsFour(cs[0], cs[1], cs[2], cs[3], cs[4..], x);
    FailsFour(cs[4], cs[5], cs[6], cs[7], [], x);
    assert cs == [cs[0], cs[1], cs[2], cs[3]] + cs[4..] && cs[4..] == [cs[4], cs[5], cs[6], cs[7]] + [];
    NothingFails(x);
  }

  lemma NothingFails(x: Reason)
    ensures !Fails([], x)
  {}

  lemma LineageReports(r: Request, x: Reason)
    ensures Fails(ListChecks(r), x) <==>
            LineageFinding(r.listId, r.existing, r.expectedGeneration, r.intent, r.requireExisting, r.requireAbsent, x)
  {
    hide Transition; hide RevisionFinding;
    var cs := ListChecks(r);
    var a := cs[..3];
    assert cs == a + cs[3..];
    assert a[0] in a && a[1] in a && a[2] in a;
    assert Fails(cs, x) <==> Fails(a, x) || Fails(cs[3..], x);
    if r.existing.Some? { RevisionReports(r, x); } else { assert cs[3..] == [cs[3]]; }
  }

  // ------------------------------------------------------------------ the fabric's dependencies

  /** Every capability the profile requires is on record, supported, and of the generation of the fabric. */
  ghost predicate CapabilitiesStand(keys: seq<u64>, bound: u64, e: Option<Evidence>) {
    match e
    case None => keys == []
    case Some(v) =>
      && (bound != 0 ==> bound == v.capability)
      && forall key :: key in keys ==> key != 0 && CapabilityStands(v, key)
  }

  ghost predicate CapabilityStands(e: Evidence, key: u64) {
    exists x :: First(e.capabilities, CapabilityKey, key, x) && x.supported && x.generation == e.capability
  }

  ghost predicate CapabilityFinding(keys: seq<u64>, bound: u64, e: Option<Evidence>, x: Reason) {
    match e
    case None => x == Reason(CAPABILITY_UNAVAILABLE, 0, 0) && keys != []
    case Some(v) =>
      || (x == Reason(CAPABILITY_GENERATION, 0, v.capability) && bound != 0 && bound != v.capability)
      || exists k :: 0 <= k < |keys| && KeyFinding(v, keys[k], x)
  }

  ghost predicate KeyFinding(e: Evidence, key: u64, x: Reason) {
    || (x == Reason(CAPABILITY_KEY_INVALID, 0, 0) && key == 0)
    || (x == Reason(CAPABILITY_MISSING, 0, key) && key != 0 && Missing(e.capabilities, CapabilityKey, key))
    || (key != 0 && exists c :: First(e.capabilities, CapabilityKey, key, c) && RecordFinding(e, c, x))
  }

  ghost predicate RecordFinding(e: Evidence, c: CapabilityRecord, x: Reason) {
    || (x == Reason(CAPABILITY_UNSUPPORTED, 0, c.key) && !c.supported)
    || (x == Reason(CAPABILITY_GENERATION, 0, c.generation) && c.generation != e.capability)
  }

  lemma KeyExactly(e: Evidence, key: u64)
    ensures AllPass(CapabilityBlock(e, key)) <==> key != 0 && CapabilityStands(e, key)
    ensures forall x :: Fails(CapabilityBlock(e, key), x) <==> KeyFinding(e, key, x)
  {
    CapabilityFound(e.capabilities, key);
    var b := CapabilityBlock(e, key);
    assert b[0] in b;
    if |b| == 2 {
      assert b[1] in b;
      assert First(e.capabilities, CapabilityKey, key, FindCapability(e.capabilities, key).value);
    }
  }

  lemma CapabilitiesExactly(r: Request)
    requires r.profile.Some?
    ensures AllPass(CapabilityChecks(r)) <==>
            CapabilitiesStand(r.profile.value.capabilities, r.capability, r.evidence)
  {
    hide CapabilityBlock; hide CapabilityStands; hide Gather;
    var keys := r.profile.value.capabilities;
    match r.evidence
    case None => assert CapabilityChecks(r)[0] in CapabilityChecks(r);
    case Some(e) =>
      var head := [C(r.capability != 0 && r.capability != e.capability, CAPABILITY_GENERATION, 0, e.capability)];
      var parts := CapabilityBlocks(e, keys, |keys|);
      assert CapabilityChecks(r) == head + Gather(parts);
      assert head[0] in head;
      AllPassTogether(head, Gather(parts));
      AllPassGathered(parts);
      forall k | 0 <= k < |keys| ensures AllPass(parts[k]) <==> keys[k] != 0 && CapabilityStands(e, keys[k]) {
        KeyExactly(e, keys[k]);
      }
      assert forall key :: key in keys ==> exists k :: 0 <= k < |keys| && keys[k] == key;
      assert AllPass(Gather(parts)) <==> forall k :: 0 <= k < |keys| ==> keys[k] != 0 && CapabilityStands(e, keys[k]);
      if forall key :: key in keys ==> key != 0 && CapabilityStands(e, key) {
        forall k | 0 <= k < |keys| ensures keys[k] != 0 && CapabilityStands(e, keys[k]) { assert keys[k] in keys; }
      }
  }

  lemma CapabilitiesReport(r: Request, x: Reason)
    requires r.profile.Some?
    ensures Fails(CapabilityChecks(r), x) <==>
            CapabilityFinding(r.profile.value.capabilities, r.capability, r.evidence, x)
  {
    hide CapabilityBlock; hide KeyFinding; hide Gather;
    var keys := r.profile.value.capabilities;
    match r.evidence
    case None => assert CapabilityChecks(r)[0] in CapabilityChecks(r);
    case Some(e) =>
      var head := [C(r.capability != 0 && r.capability != e.capability, CAPABILITY_GENERATION, 0, e.capability)];
      var parts := CapabilityBlocks(e, keys, |keys|);
      assert CapabilityChecks(r) == head + Gather(parts);
      FailsGathered(parts, x);
      forall k | 0 <= k < |keys| ensures Fails(parts[k], x) <==> KeyFinding(e, keys[k], x) { KeyExactly(e, keys[k]); }
      assert Fails(Gather(parts), x) <==> exists k :: 0 <= k < |keys| && KeyFinding(e, keys[k], x);
      assert Fails(CapabilityChecks(r), x) <==> Fails(head, x) || Fails(Gather(parts), x);
  }

  /** The bound topology generation is the fabric's, and every adjacency is on record at the generation it names. */
  ghost predicate TopologyStands(ss: seq<Segment>, bound: u64, e: Option<Evidence>) {
    match e
    case None => forall s :: s in ss ==> !s.kind.KindAdjacency?
    case Some(v) => (bound != 0 ==> bound == v.topology) && forall s :: s in ss ==> AdjacencyStands(v, s)
  }

  ghost predicate AdjacencyStands(e: Evidence, s: Segment) {
    s.kind == KindAdjacency ==>
      exists x :: First(e.adjacencies, AdjacencyKey, s.adjacency, x) && x.topology == s.topology
  }

  ghost predicate TopologyFinding(ss: seq<Segment>, bound: u64, e: Option<Evidence>, x: Reason) {
    match e
    case None => x == Reason(TOPOLOGY_UNAVAILABLE, 0, 0) && exists s :: s in ss && s.kind == KindAdjacency
    case Some(v) =>
      || (x == Reason(TOPOLOGY_GENERATION_INVALID, 0, 0) && bound != 0 && v.topology == 0)
      || (x == Reason(TOPOLOGY_GENERATION_MISMATCH, 0, v.topology) && bound != 0 && v.topology !in {0, bound})
      || (x.index < |ss| && AdjacencyFinding(v, ss[x.index], x))
  }

  ghost predicate AdjacencyFinding(e: Evidence, s: Segment, x: Reason) {
    s.kind == KindAdjacency
    && (|| (x.code == TOPOLOGY_ADJACENCY_UNKNOWN && x.detail == s.adjacency
            && Missing(e.adjacencies, AdjacencyKey, s.adjacency))
        || (x.code == TOPOLOGY_ADJACENCY_STALE
            && exists a :: First(e.adjacencies, AdjacencyKey, s.adjacency, a) && a.topology != s.topology
                           && x.detail == a.topology))
  }

  lemma AdjacencyExactly(e: Evidence, s: Segment, i: nat)
    ensures AllPass(TopologyBlock(e, s, i)) <==> AdjacencyStands(e, s)
    ensures forall x :: Fails(TopologyBlock(e, s, i), x) <==> x.index == i && AdjacencyFinding(e, s, x)
  {
    AdjacencyFound(e.adjacencies, s.adjacency);
    var b := TopologyBlock(e, s, i);
    if b != [] {
      assert b[0] in b;
      var f := FindAdjacency(e.adjacencies, s.adjacency);
      if f.Some? { assert First(e.adjacencies, AdjacencyKey, s.adjacency, f.value); }
    }
  }

  lemma HasAdjacencyMeaning(ss: seq<Segment>)
    ensures HasAdjacency(ss) <==> exists s :: s in ss && s.kind == KindAdjacency
  {
    if s :| s in ss && s.kind == KindAdjacency { var i :| 0 <= i < |ss| && ss[i] == s; }
  }

  lemma TopologyExactly(r: Request)
    ensures AllPass(TopologyChecks(r)) <==> TopologyStands(r.segments, r.topology, r.evidence)
    ensures forall x :: Fails(TopologyChecks(r), x) <==> TopologyFinding(r.segments, r.topology, r.evidence, x)
  {
    hide TopologyBlock; hide AdjacencyStands; hide AdjacencyFinding; hide Gather; hide HasAdjacency;
    match r.evidence
    case None => HasAdjacencyMeaning(r.segments); assert TopologyChecks(r)[0] in TopologyChecks(r);
    case Some(e) =>
      var parts, n := TopologyBlocks(e, r.segments, |r.segments|), |r.segments|;
      var head := TopologyChecks(r)[..2];
      assert TopologyChecks(r) == head + Gather(parts);
      assert head[0] in head && head[1] in head;
      AllPassTogether(head, Gather(parts));
      AllPassGathered(parts);
      forall i | 0 <= i < n ensures AllPass(parts[i]) <==> AdjacencyStands(e, r.segments[i]) {
        AdjacencyExactly(e, r.segments[i], i);
      }
      assert forall s :: s in r.segments ==> exists i :: 0 <= i < n && r.segments[i] == s;
      forall x ensures Fails(Gather(parts), x) <==> x.index < n && AdjacencyFinding(e, r.segments[x.index], x) {
        FailsGathered(parts, x);
        forall i | 0 <= i < n ensures Fails(parts[i], x) <==> x.index == i && AdjacencyFinding(e, r.segments[i], x) {
          AdjacencyExactly(e, r.segments[i], i);
        }
      }
  }

  /** A path is bound together with its authority, which is the one on record, for the same scope if both have one. */
  ghost predicate PathStands(path: u64, authority: u64, scope: u64, e: Option<Evidence>) {
    (path == 0 <==> authority == 0)
    && (path != 0 && e.Some? ==>
          exists x :: First(e.value.paths, PathKey, path, x) && x.authority == authority
                      && (x.scope == 0 || scope == 0 || x.scope == scope))
  }

  ghost predicate PathFinding(path: u64, authority: u64, scope: u64, e: Option<Evidence>, x: Reason) {
    || (x == Reason(PATH_BINDING_MISSING, 0, authority) && path == 0 && authority != 0)
    || (x == Reason(PATH_GENERATION_INVALID, 0, path) && path != 0 && authority == 0)
    || (path != 0 && e.Some?
        && (|| (x == Reason(PATH_UNKNOWN, 0, path) && Missing(e.value.paths, PathKey, path))
            || exists y :: First(e.value.paths, PathKey, path, y)
                           && (|| (x == Reason(PATH_GENERATION_STALE, 0, y.authority) && y.authority != authority)
                               || (x == Reason(PATH_OTHER_SCOPE, 0, y.scope) && y.scope !in {0, scope} && scope != 0))))
  }

  lemma PathExactly(r: Request)
    ensures AllPass(PathChecks(r)) <==> PathStands(r.path, r.pathAuthority, r.scope, r.evidence)
    ensures forall x :: Fails(PathChecks(r), x) <==> PathFinding(r.path, r.pathAuthority, r.scope, r.evidence, x)
  {
    var cs := PathChecks(r);
    assert cs[0] in cs;
    if r.path != 0 && r.evidence.Some? {
      var ps := r.evidence.value.paths;
      PathFound(ps, r.path);
      assert cs[1] in cs;
      var f := FindPath(ps, r.path);
      if f.Some? { assert cs[2] in cs && First(ps, PathKey, r.path, f.value); }
    }
  }

  /** A bound route has the generation on record and is not another list's. */
  ghost predicate RouteStands(route: u64, generation: u64, list: u64, e: Option<Evidence>) {
    route != 0 ==>
      && generation != 0
      && (e.Some? ==> exists x :: First(e.value.routes, RouteKey, route, x) && x.generation == generation
                                  && (x.list == 0 || x.list == list))
  }

  ghost predicate RouteFinding(route: u64, generation: u64, list: u64, e: Option<Evidence>, x: Reason) {
    route != 0
    && (|| (x == Reason(ROUTE_INVALID, 0, route) && generation == 0)
        || (e.Some? && x == Reason(ROUTE_UNKNOWN, 0, route) && Missing(e.value.routes, RouteKey, route))
        || (e.Some?
            && exists y :: First(e.value.routes, RouteKey, route, y)
                           && (|| (x == Reason(ROUTE_GENERATION_STALE, 0, y.generation) && y.generation != generation)
                               || (x == Reason(ROUTE_INVALID, 0, y.list) && y.list !in {0, list}))))
  }

  lemma RouteExactly(r: Request)
    ensures AllPass(RouteChecks(r)) <==> RouteStands(r.route, r.routeGeneration, r.listId, r.evidence)
    ensures forall x :: Fails(RouteChecks(r), x) <==> RouteFinding(r.route, r.routeGeneration, r.listId, r.evidence, x)
  {
    var cs := RouteChecks(r);
    if r.route != 0 {
      assert cs[0] in cs;
      if r.evidence.Some? {
        var rs := r.evidence.value.routes;
        RouteFound(rs, r.route);
        assert cs[1] in cs;
        var f := FindRoute(rs, r.route);
        if f.Some? { assert cs[2] in cs && First(rs, RouteKey, r.route, f.value); }
      }
    }
  }

  /** A bound constraint has the generation on record. */
  ghost predicate ConstraintStands(constraint: u64, generation: u64, e: Option<Evidence>) {
    constraint != 0 ==>
      && generation != 0
      && (e.Some? ==>
            exists x :: First(e.value.constraints, ConstraintKey, constraint, x) && x.generation == generation)
  }

  ghost predicate ConstraintFinding(constraint: u64, generation: u64, e: Option<Evidence>, x: Reason) {
    constraint != 0
    && (|| (x == Reason(CONSTRAINT_INVALID, 0, constraint) && generation == 0)
        || (e.Some? && x == Reason(CONSTRAINT_UNKNOWN, 0, constraint)
            && Missing(e.value.constraints, ConstraintKey, constraint))
        || (e.Some?
            && exists y :: First(e.value.constraints, ConstraintKey, constraint, y) && y.generation != generation
                           && x == Reason(CONSTRAINT_GENERATION_STALE, 0, y.generation)))
  }

  lemma ConstraintExactly(r: Request)
    ensures AllPass(ConstraintChecks(r)) <==> ConstraintStands(r.constraint, r.constraintGeneration, r.evidence)
    ensures forall x :: Fails(ConstraintChecks(r), x) <==>
                        ConstraintFinding(r.constraint, r.constraintGeneration, r.evidence, x)
  {
    var cs := ConstraintChecks(r);
    if r.constraint != 0 {
      assert cs[0] in cs;
      if r.evidence.Some? {
        var ks := r.evidence.value.constraints;
        ConstraintFound(ks, r.constraint);
        assert cs[1] in cs;
        var f := FindConstraint(ks, r.constraint);
        if f.Some? { assert First(ks, ConstraintKey, r.constraint, f.value); }
      }
    }
  }

  ghost predicate SizesStand(l: Limits, ss: seq<Segment>) {
    |ss| <= l.maxSegmentsPerList && forall s :: s in ss ==> |s.payload| <= l.maxPayloadBytes
  }

  lemma SizesExactly(r: Request)
    ensures AllPass(ResourceChecks(r)) <==> SizesStand(r.limits, r.segments)
  {
    hide Gather;
    var head, parts := ResourceHead(r), PayloadBlocks(r, |r.segments|);
    assert head[0] in head;
    AllPassTogether(head, Gather(parts));
    AllPassGathered(parts);
    forall i | 0 <= i < |r.segments|
      ensures AllPass(parts[i]) <==> |r.segments[i].payload| <= r.limits.maxPayloadBytes
    {
      assert parts[i][0] in parts[i];
    }
    assert forall s :: s in r.segments ==> exists i :: 0 <= i < |r.segments| && r.segments[i] == s;
  }

  // ------------------------------------------------------------------------ the segments

  /** The segments each scan examines: all of them, but at most one more than a list may have. */
  ghost predicate Scanned(l: Limits, ss: seq<Segment>, i: int) { 0 <= i < |ss| && i <= l.maxSegmentsPerList }

  lemma ScannedExactly(r: Request)
    ensures forall i :: Scanned(r.limits, r.segments, i) <==> 0 <= i < Scan(r)
  {}

  /** No segment repeats an earlier one, next to it or further back, unless that is permitted. */
  ghost predicate RepeatsStand(l: Limits, ss: seq<Segment>, width: nat, consecutive: bool, apart: bool) {
    forall i :: Scanned(l, ss, i) ==> RowStands(ss, width, consecutive, apart, i)
  }

  ghost predicate RowStands(ss: seq<Segment>, width: nat, consecutive: bool, apart: bool, i: nat)
    requires i < |ss|
  {
    forall j :: 0 <= j < i && SemanticEqual(ss[j], ss[i], width) ==>
      if j == i - 1 then consecutive else apart
  }

  /** The kinds a mask admits: kind number `n` by bit `n - 1`. */
  lemma MaskExactly(mask: u16, kind: SegmentKind)
    ensures MaskHas(mask, kind) <==> kind != KindInvalid && mask / Power2(kind.Code() - 1) % 2 == 1
  {
    assert Power2(0) == 1 && Power2(1) == 2 && Power2(2) == 4 && Power2(3) == 8 && Power2(4) == 16;
  }

  function Power2(n: int): (p: int)
    ensures p > 0
  {
    if n <= 0 then 1 else 2 * Power2(n - 1)
  }

  /** The profile is the one named, at the generation named if one is, and admits the sequence: its length, each kind
      and payload, and its repeats. */
  ghost predicate ProfileStands(l: Limits, ss: seq<Segment>, p: Profile, id: u64, generation: u64,
                                strictness: Strictness) {
    && p.id == id && p.generation != 0 && (generation != 0 ==> generation == p.generation)
    && (ss == [] ==> p.allowEmpty) && (strictness == Loose ==> p.allowLoose) && |ss| <= p.maxDepth
    && (forall i :: Scanned(l, ss, i) ==> SegmentFits(p, ss[i]))
    && RepeatsStand(l, ss, p.payloadWidth, p.allowConsecutive, p.allowNonconsecutive)
  }

  ghost predicate SegmentFits(p: Profile, s: Segment) {
    s.kind != KindInvalid && MaskHas(p.kindsMask, s.kind) && |s.payload| <= p.payloadWidth
  }

  lemma PairExactly(r: Request, p: Profile, i: nat, j: nat)
    requires j < i < |r.segments|
    ensures AllPass(ProfilePair(r, p, i, j)) <==>
            (SemanticEqual(r.segments[j], r.segments[i], p.payloadWidth) ==>
               if j == i - 1 then p.allowConsecutive else p.allowNonconsecutive)
    ensures AllPass(StructuralPair(r, i, j)) <==>
            (SemanticEqual(r.segments[j], r.segments[i], Width(r)) ==>
               if j == i - 1 then !ForbidConsecutive(r) else !ForbidNonconsecutive(r))
  {
    hide SemanticEqual;
    var a, b := ProfilePair(r, p, i, j), StructuralPair(r, i, j);
    assert a[0] in a && a[1] in a && b[0] in b && b[1] in b;
  }

  lemma ProfileRowExactly(r: Request, p: Profile, i: nat)
    requires i < |r.segments|
    ensures AllPass(Gather(ProfilePairs(r, p, i, i))) <==>
            RowStands(r.segments, p.payloadWidth, p.allowConsecutive, p.allowNonconsecutive, i)
  {
    hide Gather; hide SemanticEqual; hide ProfilePair; hide AllPass;
    AllPassGathered(ProfilePairs(r, p, i, i));
    forall j | 0 <= j < i
      ensures AllPass(ProfilePairs(r, p, i, i)[j]) <==>
              (SemanticEqual(r.segments[j], r.segments[i], p.payloadWidth) ==>
                 if j == i - 1 then p.allowConsecutive else p.allowNonconsecutive)
    {
      PairExactly(r, p, i, j);
    }
  }

  lemma ProfileRowsExactly(r: Request, p: Profile)
    ensures AllPass(Gather(ProfileRows(r, p, Scan(r)))) <==>
            RepeatsStand(r.limits, r.segments, p.payloadWidth, p.allowConsecutive, p.allowNonconsecutive)
  {
    hide Gather; hide RowStands; hide AllPass;
    var rows := ProfileRows(r, p, Scan(r));
    AllPassGathered(rows);
    forall i | Scanned(r.limits, r.segments, i)
      ensures AllPass(rows[i]) <==> RowStands(r.segments, p.payloadWidth, p.allowConsecutive, p.allowNonconsecutive, i)
    {
      ProfileRowExactly(r, p, i);
    }
  }

  lemma ProfileSegmentExactly(r: Request, p: Profile, i: nat)
    requires i < |r.segments|
    ensures AllPass(ProfileSegment(r, p, i)) <==> SegmentFits(p, r.segments[i])
  {
    hide MaskHas;
    var b := ProfileSegment(r, p, i);
    assert b[0] in b && b[1] in b && b[2] in b;
  }

  lemma ProfileExactly(r: Request)
    ensures AllPass(ProfileChecks(r)) <==>
            r.profile.Some?
            && ProfileStands(r.limits, r.segments, r.profile.value, r.profileId, r.profileGeneration, r.strictness)
  {
    hide Gather; hide ProfileSegment; hide RepeatsStand; hide SegmentFits;
    if r.profile.None? {
      assert ProfileChecks(r)[0] in ProfileChecks(r) && ProfileChecks(r)[1] in ProfileChecks(r);
    } else {
      ScannedExactly(r);
      var p, n := r.profile.value, Scan(r);
      var a, b, c := ProfileHead(r, p), ProfileSegments(r, p, n), ProfileRepeats(r, p);
      assert a[0] in a && a[1] in a && a[2] in a && a[3] in a && a[4] in a && a[5] in a;
      AllPassTogether(a, Gather(b));
      AllPassTogether(a + Gather(b), c);
      AllPassGathered(b);
      forall i | 0 <= i < n ensures AllPass(b[i]) <==> SegmentFits(p, r.segments[i]) { ProfileSegmentExactly(r, p, i); }
      ProfileRepeatsExactly(r, p);
    }
  }

  lemma ProfileRepeatsExactly(r: Request, p: Profile)
    ensures AllPass(ProfileRepeats(r, p)) <==>
            RepeatsStand(r.limits, r.segments, p.payloadWidth, p.allowConsecutive, p.allowNonconsecutive)
  {
    hide SemanticEqual; hide Gather;
    ProfileRowsExactly(r, p);
  }

  /** A segment names exactly what its kind is about: a node, an adjacency of a topology generation, an endpoint, a
      binding or a policy of a generation, and nothing else. */
  ghost predicate WellShaped(s: Segment) {
    && s.id != 0 && s.generation != 0
    && match s.kind
       case KindInvalid => false
       case KindNode =>
         s.node != 0 && s.encoding in {EncUnset, EncNode}
         && s == Segment(KindNode, s.encoding, s.id, s.generation, s.node, 0, 0, 0, 0, 0, 0, s.payload)
       case KindAdjacency =>
         s.adjacency != 0 && s.topology != 0 && s.encoding in {EncUnset, EncAdjacency}
         && s == Segment(KindAdjacency, s.encoding, s.id, s.generation, 0, s.adjacency, 0, 0, 0, 0, s.topology,
                         s.payload)
       case KindEndpoint =>
         s.endpoint != 0 && s.encoding in {EncUnset, EncEndpoint}
         && s == Segment(KindEndpoint, s.encoding, s.id, s.generation, 0, 0, s.endpoint, 0, 0, 0, 0, s.payload)
       case KindBinding =>
         s.binding != 0 && s.encoding in {EncUnset, EncBinding}
         && s == Segment(KindBinding, s.encoding, s.id, s.generation, 0, 0, 0, s.binding, 0, 0, 0, s.payload)
       case KindPolicy =>
         s.policy != 0 && s.policyGeneration != 0 && s.encoding in {EncUnset, EncPolicy}
         && s == Segment(KindPolicy, s.encoding, s.id, s.generation, 0, 0, 0, 0, s.policy, s.policyGeneration, 0,
                         s.payload)
  }

  lemma ShapeExactly(s: Segment, i: nat)
    ensures s.kind != KindInvalid ==> (AllPass(ShapeBlock(s, i)) <==> WellShaped(s))
  {
    var b := ShapeBlock(s, i);
    assert b[0] in b && b[1] in b && b[2] in b && b[3] in b && b[4] in b && b[5] in b;
  }

  /** The fabric knows the segment: the record under its id has its kind and generation, and the node, endpoint or
      binding it names is on record. */
  ghost predicate Known(e: Evidence, s: Segment) {
    && (exists x :: First(e.segments, SegmentKey, s.id, x) && x.kind == s.kind && x.generation == s.generation)
    && (s.kind == KindNode && s.node != 0 ==> exists n :: n in e.nodes && n.id == s.node)
    && (s.kind == KindEndpoint && s.endpoint != 0 ==> exists n :: n in e.endpoints && n.id == s.endpoint)
    && (s.kind == KindBinding && s.binding != 0 ==> exists n :: n in e.bindings && n.id == s.binding)
  }

  ghost predicate EntityFinding(e: Evidence, s: Segment, code: nat, detail: nat) {
    || (code == SEGMENT_ENTITY_UNKNOWN && detail == s.id && Missing(e.segments, SegmentKey, s.id))
    || (exists x :: First(e.segments, SegmentKey, s.id, x)
                    && (|| (code == SEGMENT_ENTITY_KIND && x.kind != s.kind && detail == x.kind.Code())
                        || (code == SEGMENT_ENTITY_GENERATION && x.generation != s.generation
                            && detail == x.generation)))
    || (code == SEGMENT_ENTITY_UNKNOWN && s.kind == KindNode && s.node != 0 && detail == s.node
        && forall n :: n in e.nodes ==> n.id != s.node)
    || (code == SEGMENT_ENTITY_UNKNOWN && s.kind == KindEndpoint && s.endpoint != 0 && detail == s.endpoint
        && forall n :: n in e.endpoints ==> n.id != s.endpoint)
    || (code == SEGMENT_ENTITY_UNKNOWN && s.kind == KindBinding && s.binding != 0 && detail == s.binding
        && forall n :: n in e.bindings ==> n.id != s.binding)
  }

  lemma HasScopedMeaning(rs: seq<ScopedRecord>, id: u64)
    ensures HasScoped(rs, id) <==> exists n :: n in rs && n.id == id
  {
    if n :| n in rs && n.id == id { var i :| 0 <= i < |rs| && rs[i] == n; }
  }

  lemma EntityExactly(e: Evidence, s: Segment, i: nat)
    ensures AllPass(EntityBlock(e, s, i)) <==> Known(e, s)
  {
    hide HasScoped;
    var b := EntityBlock(e, s, i);
    SegmentFound(e.segments, s.id);
    HasScopedMeaning(e.nodes, s.node); HasScopedMeaning(e.endpoints, s.endpoint);
    HasScopedMeaning(e.bindings, s.binding);
    assert b[0] in b && b[1] in b && b[2] in b && b[3] in b;
    var f := FindSegment(e.segments, s.id);
    if f.Some? { assert b[4] in b && First(e.segments, SegmentKey, s.id, f.value); }
  }

  lemma EntityReports(e: Evidence, s: Segment, i: nat, x: Reason)
    ensures Fails(EntityBlock(e, s, i), x) <==> x.index == i && EntityFinding(e, s, x.code, x.detail)
  {
    hide HasScoped;
    var b := EntityBlock(e, s, i);
    SegmentFound(e.segments, s.id);
    HasScopedMeaning(e.nodes, s.node); HasScopedMeaning(e.endpoints, s.endpoint);
    HasScopedMeaning(e.bindings, s.binding);
    assert b[0] in b && b[1] in b && b[2] in b && b[3] in b;
    var f := FindSegment(e.segments, s.id);
    if f.Some? { assert b[4] in b && First(e.segments, SegmentKey, s.id, f.value); }
  }

  ghost predicate SegmentStands(e: Option<Evidence>, s: Segment) { WellShaped(s) && (e.Some? ==> Known(e.value, s)) }

  lemma SegmentExactly(r: Request, i: nat)
    requires i < |r.segments|
    ensures AllPass(StructuralSegment(r, i)) <==> SegmentStands(r.evidence, r.segments[i])
  {
    hide ShapeBlock; hide EntityBlock; hide Known;
    var s, b := r.segments[i], StructuralSegment(r, i);
    if s.kind.KindInvalid? {
      assert b[0] in b;
    } else {
      ShapeExactly(s, i);
      var more := if r.evidence.Some? then EntityBlock(r.evidence.value, s, i) else [];
      AllPassTogether(ShapeBlock(s, i), more);
      if r.evidence.Some? { EntityExactly(r.evidence.value, s, i); }
    }
  }

  lemma StructuralRowExactly(r: Request, i: nat)
    requires i < |r.segments|
    ensures AllPass(Gather(StructuralPairs(r, i, i))) <==>
            RowStands(r.segments, Width(r), !ForbidConsecutive(r), !ForbidNonconsecutive(r), i)
  {
    hide Gather; hide SemanticEqual; hide StructuralPair; hide AllPass; hide ForbidConsecutive; hide Width;
    hide ForbidNonconsecutive;
    AllPassGathered(StructuralPairs(r, i, i));
    forall j | 0 <= j < i
      ensures AllPass(StructuralPairs(r, i, i)[j]) <==>
              (SemanticEqual(r.segments[j], r.segments[i], Width(r)) ==>
                 if j == i - 1 then !ForbidConsecutive(r) else !ForbidNonconsecutive(r))
    {
      PairExactly(r, NO_PROFILE, i, j);
    }
  }

  lemma StructuralRowsExactly(r: Request)
    ensures AllPass(Gather(StructuralRows(r, Scan(r)))) <==>
            RepeatsStand(r.limits, r.segments, Width(r), !ForbidConsecutive(r), !ForbidNonconsecutive(r))
  {
    hide Gather; hide RowStands; hide AllPass; hide ForbidConsecutive; hide ForbidNonconsecutive; hide Width;
    var rows := StructuralRows(r, Scan(r));
    AllPassGathered(rows);
    forall i | Scanned(r.limits, r.segments, i)
      ensures AllPass(rows[i]) <==> RowStands(r.segments, Width(r), !ForbidConsecutive(r), !ForbidNonconsecutive(r), i)
    {
      StructuralRowExactly(r, i);
    }
  }

  /** The structure of the scanned segments is sound: shapes, records, and repeats, which no profile forbids all. */
  ghost predicate StructureStands(r: Request) {
    && (forall i :: Scanned(r.limits, r.segments, i) ==> SegmentStands(r.evidence, r.segments[i]))
    && match r.profile
       case None => RepeatsStand(r.limits, r.segments, 0, false, false)
       case Some(p) => RepeatsStand(r.limits, r.segments, p.payloadWidth, p.allowConsecutive, p.allowNonconsecutive)
  }

  lemma StructureExactly(r: Request)
    ensures AllPass(StructuralChecks(r)) <==> StructureStands(r)
  {
    hide Gather; hide StructuralSegment; hide RepeatsStand; hide SegmentStands;
    ScannedExactly(r);
    var n := Scan(r);
    var a, b := StructuralSegments(r, n), Gather(StructuralRows(r, n));
    AllPassTogether(Gather(a), b);
    AllPassGathered(a);
    forall i | 0 <= i < n ensures AllPass(a[i]) <==> SegmentStands(r.evidence, r.segments[i]) { SegmentExactly(r, i); }
    StructuralRowsExactly(r);
  }

  // --------------------------------------------------------------------- whole requests

  lemma EmptyExactly(r: Request)
    ensures AllPass(EmptyChecks(r)) <==> (r.segments == [] ==> r.profile.Some? && r.profile.value.allowEmpty)
    ensures forall x :: Fails(EmptyChecks(r), x) <==>
                        x == Reason(LIST_EMPTY, 0, 0) && r.segments == []
                        && (r.profile.None? || !r.profile.value.allowEmpty)
  {
    assert EmptyChecks(r)[0] in EmptyChecks(r);
  }

  /** Writer, epoch and lineage are what the request takes them for. */
  ghost predicate IdentityStands(r: Request) {
    && CallerStands(r.caller, r.authority) && EpochStands(r.caller, r.authority)
    && LineageStands(r.listId, r.existing, r.expectedGeneration, r.intent, r.requireExisting, r.requireAbsent)
  }

  /** The sequence is admitted by its profile, its policy and the fabric. */
  ghost predicate ContentStands(r: Request) {
    && r.profile.Some?
    && ProfileStands(r.limits, r.segments, r.profile.value, r.profileId, r.profileGeneration, r.strictness)
    && (match r.policy case None => r.policyId == 0 case Some(p) => PolicyObeyed(r, p))
    && StructureStands(r)
  }

  ghost predicate DependenciesStand(r: Request)
    requires r.profile.Some?
  {
    && CapabilitiesStand(r.profile.value.capabilities, r.capability, r.evidence)
    && TopologyStands(r.segments, r.topology, r.evidence)
    && PathStands(r.path, r.pathAuthority, r.scope, r.evidence)
    && RouteStands(r.route, r.routeGeneration, r.listId, r.evidence)
    && ConstraintStands(r.constraint, r.constraintGeneration, r.evidence)
    && SizesStand(r.limits, r.segments)
  }

  lemma IdentityExactly(r: Request)
    ensures AllPass(IdentityChecks(r)) <==> IdentityStands(r)
  {
    hide CallerChecks; hide EpochChecks; hide ListChecks; hide CallerStands; hide LineageStands;
    AllPassTogether(CallerChecks(r), EpochChecks(r));
    AllPassTogether(CallerChecks(r) + EpochChecks(r), ListChecks(r));
    CallerExactly(r); EpochExactly(r); LineageExactly(r);
  }

  lemma ContentExactly(r: Request)
    ensures AllPass(ContentChecks(r)) <==> ContentStands(r)
  {
    hide EmptyChecks; hide ProfileChecks; hide PolicyChecks; hide StructuralChecks; hide StructureStands;
    hide PolicyObeyed;
    AllPassTogether(EmptyChecks(r), ProfileChecks(r));
    AllPassTogether(EmptyChecks(r) + ProfileChecks(r), PolicyChecks(r));
    AllPassTogether(EmptyChecks(r) + ProfileChecks(r) + PolicyChecks(r), StructuralChecks(r));
    EmptyExactly(r); ProfileExactly(r); PolicyExactly(r); StructureExactly(r);
  }

  lemma DependenciesExactly(r: Request)
    requires r.profile.Some?
    ensures AllPass(DependencyChecks(r)) && AllPass(LastChecks(r)) <==> DependenciesStand(r)
  {
    hide CapabilityChecks; hide TopologyChecks; hide PathChecks; hide RouteChecks; hide ConstraintChecks;
    hide ResourceChecks; hide CapabilitiesStand; hide TopologyStands; hide PathStands; hide RouteStands;
    hide ConstraintStands; hide SizesStand;
    AllPassTogether(CapabilityChecks(r), TopologyChecks(r));
    AllPassTogether(CapabilityChecks(r) + TopologyChecks(r), PathChecks(r));
    AllPassTogether(CapabilityChecks(r) + TopologyChecks(r) + PathChecks(r), RouteChecks(r));
    AllPassTogether(ConstraintChecks(r), ResourceChecks(r));
    CapabilitiesExactly(r); TopologyExactly(r); PathExactly(r); RouteExactly(r); ConstraintExactly(r); SizesExactly(r);
  }

  ghost predicate RequestStands(r: Request) {
    IdentityStands(r) && (r.full ==> ContentStands(r) && DependenciesStand(r))
  }

  lemma RequestExactly(r: Request)
    ensures AllPass(RequestChecks(r)) <==> RequestStands(r)
  {
    hide IdentityChecks; hide ContentChecks; hide DependencyChecks; hide LastChecks; hide IdentityStands;
    hide DependenciesStand;
    var a, b, c, d := IdentityChecks(r), ContentChecks(r), DependencyChecks(r), LastChecks(r);
    IdentityExactly(r); ContentExactly(r);
    AllPassTogether(b, c);
    AllPassTogether(b + c, d);
    AllPassTogether(a, if r.full then b + c + d else []);
    if r.profile.Some? { DependenciesExactly(r); } else { ContentNeedsProfile(r); }
  }

  lemma ContentNeedsProfile(r: Request)
    ensures r.profile.None? ==> !ContentStands(r)
  {}

  /** With room for a reason, a request is accepted exactly when it stands. */
  lemma AcceptedWhenStanding(r: Request)
    requires r.limits.maxReasons >= 1
    ensures Collect(r.limits.maxReasons, RequestChecks(r)).reasons == [] <==> RequestStands(r)
  {
    hide RequestChecks; hide RequestStands; hide Collect;
    AcceptedExactly(r);
    RequestExactly(r);
  }

  /** A sequence validated on its own is accepted exactly when profile, structure, capabilities, topology and sizes
      stand, whatever writer, lineage, policy and bindings the request carries. */
  lemma SequenceAcceptedWhenStanding(r: Request)
    requires r.limits.maxReasons >= 1
    ensures Collect(r.limits.maxReasons, SequenceChecks(r)).reasons == [] <==>
            && r.profile.Some?
            && ProfileStands(r.limits, r.segments, r.profile.value, r.profileId, r.profileGeneration, r.strictness)
            && StructureStands(r) && CapabilitiesStand(r.profile.value.capabilities, r.capability, r.evidence)
            && TopologyStands(r.segments, r.topology, r.evidence) && SizesStand(r.limits, r.segments)
  {
    hide EmptyChecks; hide ProfileChecks; hide StructuralChecks; hide CapabilityChecks; hide TopologyChecks;
    hide ResourceChecks; hide Collect; hide CapabilitiesStand; hide TopologyStands; hide SizesStand;
    hide StructureStands; hide RealCodes;
    var a, b, c := EmptyChecks(r), ProfileChecks(r), StructuralChecks(r);
    var d, e, f := CapabilityChecks(r), TopologyChecks(r), ResourceChecks(r);
    SequenceCodes(r);
    CleanExactly(r.limits.maxReasons, SequenceChecks(r));
    AllPassTogether(a, b); AllPassTogether(a + b, c);
    AllPassTogether(d, e); AllPassTogether(d + e, f);
    AllPassTogether(a + b + c, d + e + f);
    EmptyExactly(r); ProfileExactly(r); StructureExactly(r); TopologyExactly(r); SizesExactly(r);
    if r.profile.Some? { CapabilitiesExactly(r); }
  }

  lemma RealInPhase(cs: seq<Check>, p: nat)
    requires InPhase(cs, p) && p > 0
    ensures RealCodes(cs)
  {}

  lemma RealTogether(a: seq<Check>, b: seq<Check>)
    requires RealCodes(a) && RealCodes(b)
    ensures RealCodes(a + b)
  {}

  lemma SequenceCodes(r: Request)
    ensures RealCodes(SequenceChecks(r))
  {
    hide EmptyChecks; hide ProfileChecks; hide StructuralChecks; hide CapabilityChecks; hide TopologyChecks;
    hide ResourceChecks; hide InPhase; hide RealCodes;
    var a, b, c := EmptyChecks(r), ProfileChecks(r), StructuralChecks(r);
    var d, e, f := CapabilityChecks(r), TopologyChecks(r), ResourceChecks(r);
    EmptyPhase(r); RealInPhase(a, 4);
    ProfilePhase(r); RealInPhase(b, 5);
    StructuralPhase(r); RealInPhase(c, 7);
    CapabilityPhase(r); RealInPhase(d, 8);
    TopologyPhase(r); RealInPhase(e, 9);
    ResourcePhase(r); RealInPhase(f, 13);
    RealTogether(a, b); RealTogether(a + b, c);
    RealTogether(d, e); RealTogether(d + e, f);
    RealTogether(a + b + c, d + e + f);
  }

  lemma EmptyPhase(r: Request)
    ensures InPhase(EmptyChecks(r), 4)
  {}

  // -------------------------------------------------------------------------- the drafts

  /** What the store looks up for a draft: the first list, profile and policy under the ids it names. */
  lemma ResolvedExactly(ls: seq<SegmentList>, ps: seq<Profile>, qs: seq<Policy>, d: Draft)
    ensures var res := Resolve(ls, ps, qs, d);
            && (forall x :: res.existing == Some(x) <==> First(ls, ListKey, d.id, x))
            && (forall x :: res.profile == Some(x) <==> First(ps, ProfileKey, d.profile, x))
            && (forall x :: res.policy == Some(x) <==> d.policy != 0 && First(qs, PolicyKey, d.policy, x))
            && (forall x :: res.superseded == Some(x) <==> d.supersedes != 0 && First(ls, ListKey, d.supersedes, x))
  {
    ListFound(ls, d.id); ListFound(ls, d.supersedes); ProfileFound(ps, d.profile); PolicyFound(qs, d.policy);
  }

  /** What a draft supersedes exists, at the generation it names, and is not superseded, revoked or retired. */
  ghost predicate SupersededStands(d: Draft, superseded: Option<SegmentList>) {
    d.supersedes != 0 ==>
      && superseded.Some? && superseded.value.generation == d.supersedesGeneration
      && superseded.value.state !in {Superseded, Revoked, Retired}
  }

  ghost predicate SupersededFinding(d: Draft, superseded: Option<SegmentList>, x: Reason) {
    d.supersedes != 0
    && match superseded
       case None => x == Reason(SUPERSEDES_UNKNOWN, 0, d.supersedes)
       case Some(l) =>
         || (x == Reason(LIST_GENERATION_CONFLICT, 0, l.generation) && d.supersedesGeneration != l.generation)
         || (x == Reason(LIST_RETIRED, 0, l.generation) && l.state == Retired)
         || (x == Reason(LIST_REVOKED, 0, l.generation) && l.state == Revoked)
         || (x == Reason(TRANSITION_DENIED, 0, l.generation) && l.state in {Superseded, Revoked, Retired})
  }

  lemma SupersededExactly(d: Draft, res: Resolved)
    ensures AllPass(StoreChecks(d, res)) <==>
            && (res.existing.Some? ==> res.existing.value.generation == d.expectedGeneration)
            && SupersededStands(d, res.superseded)
    ensures forall x :: Fails(StoreChecks(d, res), x) <==>
                        || (res.existing.Some? && res.existing.value.generation != d.expectedGeneration
                            && x == Reason(LIST_GENERATION_CONFLICT, 0, res.existing.value.generation))
                        || SupersededFinding(d, res.superseded, x)
  {
    var cs := StoreChecks(d, res);
    var k := if res.existing.Some? then 1 else 0;
    assert k == 1 ==> cs[0] in cs;
    if d.supersedes != 0 {
      assert cs[k] in cs;
      if res.superseded.Some? { assert cs[k + 1] in cs && cs[k + 2] in cs && cs[k + 3] in cs; }
    }
  }

  /** What a draft must be for a batch to take it, in terms of the captured authority, the fabric and what the store
      looked up. */
  ghost predicate DraftStands(cfg: Config, ctx: Context, shape: Shape, d: Draft, res: Resolved) {
    var e := Some(ctx.evidence);
    && CallerStands(ctx.caller, ctx.authority) && EpochStands(ctx.caller, ctx.authority)
    && LineageStands(d.id, res.existing, d.expectedGeneration, shape.intent, shape.requireExisting, shape.requireAbsent)
    && SupersededStands(d, res.superseded)
    && (match res.policy
        case None => d.policy == 0
        case Some(p) => ObeysPolicy(p, d.policyGeneration, d.scope, d.profile, d.strictness, d.derived,
                                    res.existing.Some?, d.segments))
    && SizesStand(cfg.limits, d.segments) && (forall s :: s in d.segments ==> SegmentStands(e, s))
    && TopologyStands(d.segments, d.topology, e) && PathStands(d.path, d.pathAuthority, d.scope, e)
    && RouteStands(d.route, d.routeGeneration, d.id, e) && ConstraintStands(d.constraint, d.constraintGeneration, e)
    && match res.profile
       case None => false
       case Some(p) =>
         && ProfileStands(cfg.limits, d.segments, p, d.profile, d.profileGeneration, d.strictness)
         && CapabilitiesStand(p.capabilities, d.capability, e)
  }

  lemma StructureOfSmall(r: Request)
    requires r.profile.Some? && SizesStand(r.limits, r.segments)
    requires ProfileStands(r.limits, r.segments, r.profile.value, r.profileId, r.profileGeneration, r.strictness)
    ensures StructureStands(r) <==> forall s :: s in r.segments ==> SegmentStands(r.evidence, s)
  {
    hide SegmentStands; hide RepeatsStand; hide SegmentFits;
    if forall s :: s in r.segments ==> SegmentStands(r.evidence, s) {
      forall i | Scanned(r.limits, r.segments, i) ensures SegmentStands(r.evidence, r.segments[i]) {
        assert r.segments[i] in r.segments;
      }
    }
    if StructureStands(r) {
      forall s | s in r.segments ensures SegmentStands(r.evidence, s) {
        var i :| 0 <= i < |r.segments| && r.segments[i] == s;
        assert Scanned(r.limits, r.segments, i);
      }
    }
  }

  /** The batch takes a draft exactly when it stands. */
  lemma DraftValidExactly(cfg: Config, ctx: Context, shape: Shape, d: Draft, res: Resolved)
    requires cfg.limits.maxReasons >= 1
    ensures DraftValid(cfg, ctx, shape, d, res) <==> DraftStands(cfg, ctx, shape, d, res)
  {
    hide RequestChecks; hide StoreChecks; hide Collect; hide CallerStands; hide EpochStands; hide SupersededStands;
    hide SizesStand; hide SegmentStands; hide TopologyStands; hide PathStands; hide RouteStands;
    hide ConstraintStands; hide ProfileStands; hide CapabilitiesStand; hide StructureStands; hide ObeysPolicy;
    hide RealCodes; hide SrfLifecycle.Leads;
    var r := DraftRequest(cfg, ctx, shape, d, res);
    RequestOrdered(r);
    RealStoreCodes(d, res);
    RealTogether(RequestChecks(r), StoreChecks(d, res));
    CleanExactly(cfg.limits.maxReasons, DraftChecks(cfg, ctx, shape, d, res));
    AllPassTogether(RequestChecks(r), StoreChecks(d, res));
    RequestExactly(r);
    SupersededExactly(d, res);
    if res.profile.Some? && SizesStand(r.limits, r.segments)
       && ProfileStands(r.limits, r.segments, r.profile.value, r.profileId, r.profileGeneration, r.strictness)
    {
      StructureOfSmall(r);
    }
  }

  /** What a segment names is on record: the segment under its id with its kind and generation, the node, endpoint or
      binding, and the adjacency at its topology generation. */
  ghost predicate OnRecord(e: Evidence, s: Segment) {
    && (exists x :: x in e.segments && x.id == s.id && x.kind == s.kind && x.generation == s.generation)
    && match s.kind
       case KindNode => exists n :: n in e.nodes && n.id == s.node
       case KindAdjacency => exists a :: a in e.adjacencies && a.id == s.adjacency && a.topology == s.topology
       case KindEndpoint => exists n :: n in e.endpoints && n.id == s.endpoint
       case KindBinding => exists n :: n in e.bindings && n.id == s.binding
       case KindPolicy => s.policy != 0 && s.policyGeneration != 0
       case KindInvalid => false
  }

  lemma StandsOnRecord(e: Evidence, s: Segment)
    requires SegmentStands(Some(e), s) && AdjacencyStands(e, s)
    ensures OnRecord(e, s)
  {
    var x :| First(e.segments, SegmentKey, s.id, x) && x.kind == s.kind && x.generation == s.generation;
    assert x in e.segments;
    if s.kind == KindAdjacency {
      var a :| First(e.adjacencies, AdjacencyKey, s.adjacency, a) && a.topology == s.topology;
      assert a in e.adjacencies;
    }
  }

  /** Everything an accepted draft names is on record. */
  lemma AcceptedEntities(cfg: Config, ctx: Context, shape: Shape, d: Draft, res: Resolved)
    requires cfg.limits.maxReasons >= 1 && DraftValid(cfg, ctx, shape, d, res)
    ensures forall s :: s in d.segments ==> OnRecord(ctx.evidence, s)
  {
    hide DraftValid; hide CallerStands; hide EpochStands; hide LineageStands; hide SupersededStands; hide ObeysPolicy;
    hide SizesStand; hide PathStands; hide RouteStands; hide ConstraintStands; hide ProfileStands; hide OnRecord;
    hide CapabilitiesStand; hide SegmentStands; hide AdjacencyStands;
    DraftValidExactly(cfg, ctx, shape, d, res);
    forall s | s in d.segments ensures OnRecord(ctx.evidence, s) { StandsOnRecord(ctx.evidence, s); }
  }

  // ------------------------------------------------------- the operations, by what they expect

  /** What each operation expects of the lineage: a creation that there is none, a replacement an open one, a
      revalidation an active one or one that waits for it, and a batch none or an open one; and of one that is there,
      the expected generation, which must not be the last one. */
  lemma ShapesExactly(id: u64, existing: Option<SegmentList>, expected: u64)
    ensures var at := existing.Some? && expected == existing.value.generation && 0 < expected < U64_MAX;
            var open := at && existing.value.state in {Declared, Validating, Active, RevalidationRequired};
            var absent := existing.None? && expected == 0;
            && (LineageFor(CREATE, id, existing, expected) <==> id != 0 && absent)
            && (LineageFor(REPLACE, id, existing, expected) <==> id != 0 && open)
            && (LineageFor(REVALIDATE, id, existing, expected) <==>
                  id != 0 && at && existing.value.state in {Active, RevalidationRequired})
            && (LineageFor(BATCH, id, existing, expected) <==> id != 0 && (absent || open))
  {
    if existing.Some? {
      var s := existing.value.state;
      assert SrfLifecycle.Leads(ReplaceBegin, s, Validating) <==>
             s in {Declared, Validating, Active, RevalidationRequired};
      assert SrfLifecycle.Leads(RevalidateBegin, s, Validating) <==> s in {Active, RevalidationRequired};
    }
  }

  ghost predicate LineageFor(shape: Shape, id: u64, existing: Option<SegmentList>, expected: u64) {
    LineageStands(id, existing, expected, shape.intent, shape.requireExisting, shape.requireAbsent)
  }

  /** An administrative event asks for writer, epoch, generation and state, and for nothing of the content. */
  lemma EventValidExactly(cfg: Config, ctx: Context, x: SegmentList, expected: u64, event: LifecycleEvent)
    requires cfg.limits.maxReasons >= 1
    ensures TransitionValid(cfg, ctx, x, expected, event) <==>
            && CallerStands(ctx.caller, ctx.authority) && EpochStands(ctx.caller, ctx.authority)
            && x.content.id != 0 && expected == x.generation && 0 < expected < U64_MAX
            && exists t :: SrfLifecycle.Leads(event, x.state, t)
  {
    hide Collect; hide RequestChecks; hide CallerStands; hide EpochStands; hide SrfLifecycle.Leads;
    AcceptedWhenStanding(TransitionRequest(cfg, ctx, x, expected, event));
  }
}
