/** Fabric evidence: what the owning runtimes currently say (`src/evidence.cpp`). */
module SrfEvidence {
  import opened SrfTypes

  datatype CapabilityRecord = CapabilityRecord(key: u64, generation: u64, supported: bool)
  datatype SegmentRecord = SegmentRecord(id: u64, kind: SegmentKind, generation: u64, scope: u64)
  datatype AdjacencyRecord = AdjacencyRecord(id: u64, topology: u64, from: u64, to: u64, scope: u64)
  datatype ScopedRecord = ScopedRecord(id: u64, target: u64, scope: u64)  // a node, an endpoint or a binding
  datatype PathRecord = PathRecord(id: u64, authority: u64, scope: u64)
  datatype RouteRecord = RouteRecord(id: u64, generation: u64, list: u64, listGeneration: u64, scope: u64)
  datatype ConstraintRecord = ConstraintRecord(id: u64, generation: u64, scope: u64)

  datatype Evidence = Evidence(
    topology: u64, capability: u64, pathAuthority: u64, route: u64, constraint: u64,
    capabilities: seq<CapabilityRecord>, segments: seq<SegmentRecord>, nodes: seq<ScopedRecord>,
    adjacencies: seq<AdjacencyRecord>, endpoints: seq<ScopedRecord>, bindings: seq<ScopedRecord>,
    paths: seq<PathRecord>, routes: seq<RouteRecord>, constraints: seq<ConstraintRecord>)
  {
    function RecordCount(): nat {
      |capabilities| + |segments| + |nodes| + |adjacencies| + |endpoints| + |bindings| + |paths| + |routes|
      + |constraints|
    }
  }

  const NO_EVIDENCE := Evidence(0, 0, 0, 0, 0, [], [], [], [], [], [], [], [], [])

  function FindCapability(rs: seq<CapabilityRecord>, key: u64): Option<CapabilityRecord> {
    if rs == [] then None else if rs[0].key == key then Some(rs[0]) else FindCapability(rs[1..], key)
  }
  function FindSegment(rs: seq<SegmentRecord>, id: u64): Option<SegmentRecord> {
    if rs == [] then None else if rs[0].id == id then Some(rs[0]) else FindSegment(rs[1..], id)
  }
  function FindAdjacency(rs: seq<AdjacencyRecord>, id: u64): Option<AdjacencyRecord> {
    if rs == [] then None else if rs[0].id == id then Some(rs[0]) else FindAdjacency(rs[1..], id)
  }
  predicate HasScoped(rs: seq<ScopedRecord>, id: u64) { exists i :: 0 <= i < |rs| && rs[i].id == id }
  function FindPath(rs: seq<PathRecord>, id: u64): Option<PathRecord> {
    if rs == [] then None else if rs[0].id == id then Some(rs[0]) else FindPath(rs[1..], id)
  }
  function FindRoute(rs: seq<RouteRecord>, id: u64): Option<RouteRecord> {
    if rs == [] then None else if rs[0].id == id then Some(rs[0]) else FindRoute(rs[1..], id)
  }
  function FindConstraint(rs: seq<ConstraintRecord>, id: u64): Option<ConstraintRecord> {
    if rs == [] then None else if rs[0].id == id then Some(rs[0]) else FindConstraint(rs[1..], id)
  }

  /** The generations of every dependency together with the change counter of the source. */
  datatype Watermark = Watermark(topology: u64, capability: u64, pathAuthority: u64, route: u64, constraint: u64,
                                 revision: nat)

  /** An evidence source: its content and a counter of the changes made to it. */
  datatype Source = Source(evidence: Evidence, revision: nat) {
    function Mark(): Watermark {
      Watermark(evidence.topology, evidence.capability, evidence.pathAuthority, evidence.route, evidence.constraint,
                revision)
    }
  }

  /** Every change of content is a strict increase of the counter. */
  ghost predicate Moves(a: Source, b: Source) { a.revision < b.revision || a == b }

  /** A watermark read before a copy was taken vouches for the copy: as long as the source shows that watermark, the
      copy is the evidence, whatever happened between the reads. */
  lemma SnapshotStands(atMark: Source, atCopy: Source, now: Source)
    requires Moves(atMark, atCopy) && Moves(atCopy, now)
    ensures now.Mark() == atMark.Mark() ==> now.evidence == atCopy.evidence
  {}

  /** Replace the record of `key`, or append one. */
  function PutCapability(rs: seq<CapabilityRecord>, r: CapabilityRecord): seq<CapabilityRecord> {
    if rs == [] then [r] else if rs[0].key == r.key then [r] + rs[1..] else [rs[0]] + PutCapability(rs[1..], r)
  }

  /** Drop every record of `key`. */
  function DropCapability(rs: seq<CapabilityRecord>, key: u64): (out: seq<CapabilityRecord>)
    ensures |out| <= |rs| && (|out| == |rs| ==> out == rs)
    ensures FindCapability(out, key).None?
  {
    if rs == [] then []
    else if rs[0].key == key then DropCapability(rs[1..], key) else [rs[0]] + DropCapability(rs[1..], key)
  }

  /** Rebind every route of `list`, and how many there were. */
  function Rebind(rs: seq<RouteRecord>, list: u64, generation: u64): seq<RouteRecord> {
    if rs == [] then []
    else [if rs[0].list == list then rs[0].(listGeneration := generation) else rs[0]]
         + Rebind(rs[1..], list, generation)
  }
  function CountRoutes(rs: seq<RouteRecord>, list: u64): nat {
    if rs == [] then 0 else (if rs[0].list == list then 1 else 0) + CountRoutes(rs[1..], list)
  }

  lemma UpdateSplits<T>(rs: seq<T>, i: nat, r: T)
    requires i < |rs|
    ensures rs[i := r] == rs[..i] + ([r] + rs[i + 1..]) && rs[i..][1..] == rs[i + 1..]
  {}

  lemma StepSplits<T>(rs: seq<T>, i: nat, tail: seq<T>)
    requires i < |rs|
    ensures rs[..i] + ([rs[i]] + tail) == rs[..i + 1] + tail && rs[i..][1..] == rs[i + 1..]
  {}

  lemma {:induction false} RebindLaws(rs: seq<RouteRecord>, i: nat, list: u64, generation: u64)
    requires i < |rs|
    ensures Rebind(rs[..i + 1], list, generation)
            == Rebind(rs[..i], list, generation)
               + [if rs[i].list == list then rs[i].(listGeneration := generation) else rs[i]]
    ensures CountRoutes(rs[..i + 1], list) == CountRoutes(rs[..i], list) + (if rs[i].list == list then 1 else 0)
    ensures |Rebind(rs[..i], list, generation)| == i
  {
    if i == 0 {
      assert rs[..1] == [rs[0]];
    } else {
      RebindLaws(rs[1..], i - 1, list, generation);
      assert rs[..i + 1][1..] == rs[1..][..i] && rs[..i][1..] == rs[1..][..i - 1];
    }
  }

  lemma RebindStep(rs: seq<RouteRecord>, i: nat, list: u64, generation: u64, cur: seq<RouteRecord>)
    requires i < |rs| && cur == Rebind(rs[..i], list, generation) + rs[i..] && |cur| == |rs|
    ensures cur[i] == rs[i]
    ensures (if rs[i].list == list then cur[i := rs[i].(listGeneration := generation)] else cur)
            == Rebind(rs[..i + 1], list, generation) + rs[i + 1..]
    ensures CountRoutes(rs[..i + 1], list) == CountRoutes(rs[..i], list) + (if rs[i].list == list then 1 else 0)
  {
    RebindLaws(rs, i, list, generation);
    assert cur[i] == rs[i..][0];
    assert rs[i..] == [rs[i]] + rs[i + 1..];
  }

  lemma {:induction false} RebindNone(rs: seq<RouteRecord>, list: u64, generation: u64)
    ensures CountRoutes(rs, list) == 0 ==> Rebind(rs, list, generation) == rs
  {
    if rs != [] { RebindNone(rs[1..], list, generation); }
  }

  class SyntheticEvidence {
    var evidence: Evidence
    var revision: nat

    constructor ()
      ensures View() == Source(NO_EVIDENCE, 0)
    {
      evidence, revision := NO_EVIDENCE, 0;
    }

    function View(): Source reads this { Source(evidence, revision) }

    method Snapshot() returns (copy: Evidence)
      ensures copy == evidence
    {
      copy := evidence;
    }

    method GetWatermark() returns (w: Watermark)
      ensures w == View().Mark()
    {
      w := Watermark(evidence.topology, evidence.capability, evidence.pathAuthority, evidence.route,
                     evidence.constraint, revision);
    }

    method SetTopologyGeneration(g: u64)
      modifies this
      ensures View() == Source(old(evidence).(topology := g), old(revision) + 1)
      ensures Moves(old(View()), View())
    {
      evidence, revision := evidence.(topology := g), revision + 1;
    }

    method AddCapability(key: u64, generation: u64, supported: bool)
      modifies this
      ensures View() == Source(
          old(evidence).(capabilities :=
            PutCapability(old(evidence.capabilities), CapabilityRecord(key, generation, supported))),
          old(revision) + 1)
      ensures Moves(old(View()), View())
    {
      var rs, r := evidence.capabilities, CapabilityRecord(key, generation, supported);
      revision := revision + 1;
      for i := 0 to |rs|
        invariant unchanged(`evidence) && revision == old(revision) + 1
        invariant PutCapability(rs, r) == rs[..i] + PutCapability(rs[i..], r)
      {
        if rs[i].key == key {
          assert PutCapability(rs[i..], r) == [r] + rs[i + 1..];
          UpdateSplits(rs, i, r);
          evidence := evidence.(capabilities := rs[i := r]);
          return;
        }
        StepSplits(rs, i, PutCapability(rs[i + 1..], r));
      }
      evidence := evidence.(capabilities := rs + [r]);
    }

    /** Removing nothing changes nothing, not even the counter. */
    method RemoveCapability(key: u64)
      modifies this
      ensures evidence == old(evidence).(capabilities := DropCapability(old(evidence.capabilities), key))
      ensures revision == old(revision) + (if evidence == old(evidence) then 0 else 1)
      ensures Moves(old(View()), View())
    {
      var rs := evidence.capabilities;
      var kept: seq<CapabilityRecord> := [];
      for i := 0 to |rs|
        invariant unchanged(this)
        invariant DropCapability(rs, key) == kept + DropCapability(rs[i..], key)
      {
        assert rs[i..][1..] == rs[i + 1..];
        if rs[i].key != key { kept := kept + [rs[i]]; }
      }
      assert kept == DropCapability(rs, key);
      if |kept| != |rs| {
        evidence, revision := evidence.(capabilities := kept), revision + 1;
      }
    }

    /** One increment for every route rebound. */
    method SetRoute(list: u64, generation: u64)
      modifies this
      ensures View() == Source(old(evidence).(routes := Rebind(old(evidence.routes), list, generation)),
                               old(revision) + CountRoutes(old(evidence.routes), list))
      ensures Moves(old(View()), View())
    {
      var rs := evidence.routes;
      RebindNone(rs, list, generation);
      var routes := rs;
      for i := 0 to |rs|
        invariant unchanged(`evidence) && revision == old(revision) + CountRoutes(rs[..i], list)
        invariant |routes| == |rs| && routes == Rebind(rs[..i], list, generation) + rs[i..]
      {
        RebindStep(rs, i, list, generation, routes);
        if routes[i].list == list {
          routes := routes[i := routes[i].(listGeneration := generation)];
          revision := revision + 1;
        }
      }
      assert rs[..|rs|] == rs;
      evidence := evidence.(routes := routes);
    }
  }
}
