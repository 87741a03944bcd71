/** The store object (`src/store.cpp`): its index, and its operations phase by phase, each proved against the functions
    the concurrent model is made of. */
module SrfStore {
  import opened SrfTypes
  import opened SrfReasons
  import opened SrfLifecycle
  import opened SrfEvidence
  import opened SrfValidation
  import opened SrfAuthority
  import opened SrfRegistry
  import opened SrfStoreModel
  import opened SrfStoreLaws
  import opened SrfCommitLaws
  import opened SrfRecovery
  import opened SrfRevalidation
  import opened SrfAdminEvents
  import opened SrfProtocol
  import opened SrfProtocolInv
  import opened SrfImageRecords
  import opened SrfImage
  import opened SrfFields
  import opened SrfCrc
  import opened SrfImageCodec

  // -------------------------------------------------------------------------- index

  type Index = seq<(u64, nat)>

  /** Entries point at lists of their id, in strictly ascending order, one for each list. */
  predicate IndexConsistent(ls: seq<SegmentList>, ix: Index) {
    && |ix| == |ls|
    && (forall k :: 0 <= k < |ix| ==> ix[k].1 < |ls| && ls[ix[k].1].content.id == ix[k].0)
    && (forall j, k :: 0 <= j < k < |ix| ==> ix[j].0 < ix[k].0)
  }

  ghost predicate Points(ix: Index, i: nat) { exists k :: 0 <= k < |ix| && ix[k].1 == i }

  ghost predicate IndexValid(ls: seq<SegmentList>, ix: Index) {
    IndexConsistent(ls, ix) && forall i :: 0 <= i < |ls| ==> Points(ix, i)
  }

  /** The index of the first `n` lists. */
  ghost predicate IndexOf(ls: seq<SegmentList>, n: nat, ix: Index)
    requires n <= |ls|
  {
    && |ix| == n
    && (forall k :: 0 <= k < n ==> ix[k].1 < n && ls[ix[k].1].content.id == ix[k].0)
    && (forall j, k :: 0 <= j < k < n ==> ix[j].0 < ix[k].0)
    && (forall i :: 0 <= i < n ==> Points(ix, i))
  }

  lemma IndexGrows(ls: seq<SegmentList>, n: nat, ix: Index, k: nat)
    requires n < |ls| && UniqueIds(ls) && IndexOf(ls, n, ix) && k <= n
    requires forall j :: 0 <= j < k ==> ix[j].0 < ls[n].content.id
    requires k < n ==> ix[k].0 >= ls[n].content.id
    ensures IndexOf(ls, n + 1, ix[..k] + [(ls[n].content.id, n)] + ix[k..])
  {
    var e := (ls[n].content.id, n);
    var more := ix[..k] + [e] + ix[k..];
    if k < n { assert ls[ix[k].1].content.id == ix[k].0; }
    forall i | 0 <= i < n + 1 ensures Points(more, i) {
      if i == n {
        assert more[k].1 == n;
      } else {
        assert Points(ix, i);
        var j :| 0 <= j < n && ix[j].1 == i;
        assert more[if j < k then j else j + 1].1 == i;
      }
    }
    forall a, b | 0 <= a < b < n + 1 ensures more[a].0 < more[b].0 {
      if b == k { assert more[a] == ix[a]; }
      if a == k { assert more[b] == ix[b - 1]; }
    }
  }

  lemma Indexed(ls: seq<SegmentList>, ix: Index, i: nat)
    requires IndexValid(ls, ix) && i < |ls|
    ensures exists k :: 0 <= k < |ix| && ix[k].0 == ls[i].content.id
  {
    assert Points(ix, i);
    var k :| 0 <= k < |ix| && ix[k].1 == i;
    assert ix[k].0 == ls[i].content.id;
  }

  /** What is not in the index is not in the lists. */
  lemma NotIndexed(ls: seq<SegmentList>, ix: Index, id: u64)
    requires IndexValid(ls, ix) && forall k :: 0 <= k < |ix| ==> ix[k].0 != id
    ensures Position(ls, id) == |ls|
  {
    hide IndexValid;
    if Position(ls, id) < |ls| { Indexed(ls, ix, Position(ls, id)); }
  }

  // -------------------------------------------------------------- working on a state

  /** Update the record of an attempt or append one. */
  method RecordAttemptIn(rs: seq<Attempt>, r: Attempt) returns (out: seq<Attempt>)
    ensures out == RecordAttempt(rs, r)
  {
    var i := 0;
    while i < |rs| && rs[i].attempt != r.attempt
      invariant i <= |rs| && forall k :: 0 <= k < i ==> rs[k].attempt != r.attempt
    {
      i := i + 1;
    }
    out := if i < |rs| then rs[i := r] else rs + [r];
  }

  method FindInState(ls: seq<SegmentList>, id: u64) returns (i: nat)
    ensures i == Position(ls, id)
  {
    i := 0;
    while i < |ls| && ls[i].content.id != id
      invariant i <= |ls| && forall k :: 0 <= k < i ==> ls[k].content.id != id
    {
      i := i + 1;
    }
  }

  /** Apply one prepared mutation to a copy of the state. */
  method ApplyPrepared(lim: Limits, s: DurableState, pm: Prepared, attempt: u64, payload: Digest)
    returns (o: Option<DurableState>)
    ensures o == ApplyOne(lim, s, pm, attempt, payload)
  {
    hide AppendHistory; hide Transition; hide RecordAttempt;
    var next := s;
    if pm.superseded.Some? {
      var i := FindInState(next.lists, pm.superseded.value.0);
      if i < |next.lists| {
        var state := Transition(next.lists[i].state, SupersedeBegin);
        if state.None? { return None; }
        var other := next.lists[i].(state := state.value,
                                    lineage := next.lists[i].lineage.(supersededBy := pm.id),
                                    currentness := Unknown, committedRevision := next.revision);
        next := AppendHistory(lim, next.(lists := next.lists[i := other]), other);
      }
    }
    var k := FindInState(next.lists, pm.id);
    if k < |next.lists| {
      var replaced := next.lists[k].(state := Superseded, currentness := Unknown);
      AppendKeepsLists(lim, next, replaced);
      next := AppendHistory(lim, next, replaced);
      next := next.(lists := next.lists[k := pm.list]);
    } else {
      next := next.(lists := next.lists + [pm.list]);
    }
    next := AppendHistory(lim, next, pm.list);
    var attempts := RecordAttemptIn(next.attempts, Attempt(attempt, pm.id, payload, pm.list.generation, true));
    o := Some(next.(attempts := attempts));
  }

  lemma AppendKeepsLists(lim: Limits, s: DurableState, l: SegmentList)
    ensures AppendHistory(lim, s, l).lists == s.lists
  {}

  /** Apply the prepared mutations in order; one refusal refuses all. */
  method ApplyPreparedAll(lim: Limits, s: DurableState, pms: seq<Prepared>, attempt: u64, payload: Digest)
    returns (o: Option<DurableState>)
    ensures o == ApplyAll(lim, s, pms, attempt, payload)
  {
    hide ApplyOne;
    var next := s;
    assert pms[0..] == pms;
    for i := 0 to |pms|
      invariant ApplyAll(lim, s, pms, attempt, payload) == ApplyAll(lim, next, pms[i..], attempt, payload)
    {
      assert pms[i..][0] == pms[i] && pms[i..][1..] == pms[i + 1..];
      var one := ApplyPrepared(lim, next, pms[i], attempt, payload);
      if one.None? { return None; }
      next := one.value;
    }
    assert pms[|pms|..] == [];
    o := Some(next);
  }

  /** Whether the limits leave room, counting lists and segments one after the other. */
  method CheckRoom(lim: Limits, ls: seq<SegmentList>, pms: seq<Prepared>) returns (ok: bool)
    ensures ok == RoomFor(lim, ls, pms)
  {
    var newLists, total, newSegments := 0, 0, 0;
    for i := 0 to |pms|
      invariant newLists == NewLists(pms[..i]) && newSegments == NewSegments(pms[..i])
    {
      assert pms[..i + 1][..i] == pms[..i];
      if pms[i].existing.None? {
        newLists := newLists + 1;
        newSegments := newSegments + |pms[i].list.content.segments|;
      }
    }
    assert pms[..|pms|] == pms;
    for i := 0 to |ls|
      invariant total == TotalSegments(ls[..i])
    {
      assert ls[..i + 1][..i] == ls[..i];
      total := total + |ls[i].content.segments|;
    }
    assert ls[..|ls|] == ls;
    ok := |ls| + newLists <= lim.maxLists && total + newSegments <= lim.maxTotalSegments;
  }

  lemma {:induction false} ApplyKeepsIds(lim: Limits, s: DurableState, pms: seq<Prepared>, attempt: u64,
                                        payload: Digest)
    requires UniqueIds(s.lists) && Named(pms)
    ensures var t := ApplyAll(lim, s, pms, attempt, payload); t.Some? ==> UniqueIds(t.value.lists)
    decreases |pms|
  {
    hide UniqueIds; hide ApplyOne;
    if pms != [] {
      var one := ApplyOne(lim, s, pms[0], attempt, payload);
      if one.Some? {
        OneKeepsIds(lim, s, pms[0], attempt, payload);
        ApplyKeepsIds(lim, one.value, pms[1..], attempt, payload);
      }
    }
  }

  lemma OneKeepsIds(lim: Limits, s: DurableState, pm: Prepared, attempt: u64, payload: Digest)
    requires UniqueIds(s.lists) && pm.list.content.id == pm.id && ApplyOne(lim, s, pm, attempt, payload).Some?
    ensures UniqueIds(ApplyOne(lim, s, pm, attempt, payload).value.lists)
  {
    hide Supersede; hide Install; hide UniqueIds; hide RecordAttempt;
    var s1 := s;
    if pm.superseded.Some? {
      SupersedeShape(lim, s, pm.superseded.value.0, pm.id);
      s1 := Supersede(lim, s, pm.superseded.value.0, pm.id).value;
    }
    InstallShape(lim, s1, pm);
  }

  // -------------------------------------------------------------------- validation

  /** The checks the store makes on a draft once the request passed or failed. */
  method ValidateDraft(cfg: Config, ctx: Context, shape: Shape, d: Draft, res: Resolved) returns (o: Outcome)
    ensures o == DraftOutcome(cfg, ctx, shape, d, res)
  {
    hide RequestChecks; hide Collect;
    var request := DraftRequest(cfg, ctx, shape, d, res);
    var out := new ValidationResult(cfg.limits.maxReasons);
    ValidateInto(request, out);
    out.Run(StoreChecks(d, res));
    o := out.View();
  }

  method ValidateInto(r: Request, out: ValidationResult)
    requires out.Logged() && out.log == [] && r.full
    modifies out
    ensures out.Logged() && out.log == RequestChecks(r)
  {
    hide Collect;
    ValidateIdentity(r, out);
    ValidateContent(r, out);
    ValidateDependencies(r, out);
    ValidateLast(r, out);
    SeqAssoc3(IdentityChecks(r), ContentChecks(r), DependencyChecks(r), LastChecks(r));
  }

  /** Validate every draft and prepare the mutations of those that pass; all of them, or none. */
  method PrepareDrafts(cfg: Config, ctx: Context, shape: Shape, ds: seq<Draft>, rs: seq<Resolved>)
    returns (o: Option<seq<Prepared>>)
    requires |ds| == |rs|
    ensures o == PrepareAll(cfg, ctx, shape, ds, rs)
  {
    hide DraftOutcome; hide MakeList;
    var ok, pms := true, [];
    for i := 0 to |ds|
      invariant ok <==> forall k :: 0 <= k < i ==> DraftValid(cfg, ctx, shape, ds[k], rs[k])
      invariant ok ==> |pms| == i && forall k :: 0 <= k < i ==> pms[k] == Prepare(cfg, ctx, ds[k], rs[k])
    {
      var out := ValidateDraft(cfg, ctx, shape, ds[i], rs[i]);
      if out.reasons != [] || (rs[i].existing.Some? && rs[i].existing.value.generation >= U64_MAX) {
        ok := false;
      } else if ok {
        pms := pms + [Prepare(cfg, ctx, ds[i], rs[i])];
      }
    }
    if ok { PreparedAre(cfg, ctx, shape, ds, rs, pms); }
    o := if ok then Some(pms) else None;
  }

  lemma PreparedAre(cfg: Config, ctx: Context, shape: Shape, ds: seq<Draft>, rs: seq<Resolved>, pms: seq<Prepared>)
    requires |ds| == |rs| == |pms|
    requires forall k :: 0 <= k < |ds| ==>
               DraftValid(cfg, ctx, shape, ds[k], rs[k]) && pms[k] == Prepare(cfg, ctx, ds[k], rs[k])
    ensures PrepareAll(cfg, ctx, shape, ds, rs) == Some(pms)
  {
    hide DraftOutcome; hide MakeList;
    assert pms == PrepareAll(cfg, ctx, shape, ds, rs).value;
  }

  // ---------------------------------------------------------------------- the store

  class SegmentListStore {
    const cfg: Config
    const registry: RegistryTable
    const authority: AuthorityTable
    const evidence: SyntheticEvidence
    const persistence: MemoryPersistence
    var state: DurableState
    var index: Index

    /** A fresh store: epoch 1, nothing registered, nothing known. */
    constructor (cfg: Config, evidence: SyntheticEvidence, persistence: MemoryPersistence)
      ensures Valid() && this.cfg == cfg && this.evidence == evidence && this.persistence == persistence
      ensures state == FRESH.st && registry.View() == FRESH.reg && authority.View() == FRESH.auth
      ensures fresh(registry) && fresh(authority)
    {
      this.cfg, this.evidence, this.persistence := cfg, evidence, persistence;
      registry := new RegistryTable();
      var table := new AuthorityTable();
      authority := table;
      state, index := FRESH_STATE, [];
      new;
      var restored := authority.RestoreEpoch(1);
    }

    ghost predicate Valid() reads this { UniqueIds(state.lists) && IndexValid(state.lists, index) }

    /** What a sequential caller sees. */
    function View(): World reads this, registry, authority, evidence {
      World(state, registry.View(), authority.View(), evidence.View(), None)
    }

    /** Insert every list into a sorted index. */
    method RebuildIndex()
      requires UniqueIds(state.lists)
      modifies this`index
      ensures Valid()
    {
      var ls := state.lists;
      var ix: Index := [];
      for n := 0 to |ls|
        invariant IndexOf(ls, n, ix)
      {
        var k := 0;
        while k < |ix| && ix[k].0 < ls[n].content.id
          invariant k <= |ix| && forall j :: 0 <= j < k ==> ix[j].0 < ls[n].content.id
        {
          k := k + 1;
        }
        IndexGrows(ls, n, ix, k);
        ix := ix[..k] + [(ls[n].content.id, n)] + ix[k..];
      }
      index := ix;
    }

    method CheckIndex() returns (ok: bool)
      ensures ok == IndexConsistent(state.lists, index)
    {
      if |index| != |state.lists| { return false; }
      for i := 0 to |index|
        invariant forall k :: 0 <= k < i ==>
                    index[k].1 < |state.lists| && state.lists[index[k].1].content.id == index[k].0
        invariant forall j, k :: 0 <= j < k < i ==> index[j].0 < index[k].0
      {
        if index[i].1 >= |state.lists| { return false; }
        if state.lists[index[i].1].content.id != index[i].0 { return false; }
        if i > 0 && index[i - 1].0 >= index[i].0 { return false; }
      }
      return true;
    }

    /** Binary search over the index finds what a scan of the lists would. */
    method Find(id: u64) returns (x: Option<SegmentList>)
      requires Valid()
      ensures x == FindList(state.lists, id)
    {
      var lo, hi := 0, |index|;
      while lo < hi
        invariant 0 <= lo <= hi <= |index|
        invariant forall k :: 0 <= k < lo ==> index[k].0 < id
        invariant forall k :: hi <= k < |index| ==> index[k].0 >= id
      {
        var mid := (lo + hi) / 2;
        if index[mid].0 < id { lo := mid + 1; } else { hi := mid; }
      }
      if lo == |index| || index[lo].0 != id {
        NotIndexed(state.lists, index, id);
        return None;
      }
      PositionUnique(state.lists, index[lo].1);
      x := Some(state.lists[index[lo].1]);
    }

    /** The capture: look every draft up. */
    method ResolveDrafts(ds: seq<Draft>) returns (rs: seq<Resolved>)
      requires Valid()
      ensures rs == Resolutions(View(), ds)
    {
      hide FindList; hide FindProfile; hide FindPolicy; hide IndexValid; hide UniqueIds;
      rs := [];
      for i := 0 to |ds|
        invariant |rs| == i
        invariant forall k :: 0 <= k < i ==> rs[k] == Resolve(state.lists, registry.profiles, registry.policies, ds[k])
      {
        var d := ds[i];
        var existing := Find(d.id);
        var superseded: Option<SegmentList> := None;
        if d.supersedes != 0 { superseded := Find(d.supersedes); }
        rs := rs + [Resolved(existing, FindProfile(registry.profiles, d.profile),
                             if d.policy != 0 then FindPolicy(registry.policies, d.policy) else None, superseded)];
      }
    }

    /** The generations the prepared mutations rely on, looked up again. */
    method CheckGenerations(pms: seq<Prepared>) returns (ok: bool)
      requires Valid()
      ensures ok <==> forall i :: 0 <= i < |pms| ==> StillCurrent(state.lists, pms[i])
    {
      hide FindList; hide IndexValid; hide UniqueIds;
      ok := true;
      for i := 0 to |pms|
        invariant ok <==> forall k :: 0 <= k < i ==> StillCurrent(state.lists, pms[k])
      {
        var x := Find(pms[i].id);
        var here := if pms[i].existing.Some? then x.Some? && x.value.generation == pms[i].existing.value else x.None?;
        if pms[i].superseded.Some? {
          var y := Find(pms[i].superseded.value.0);
          here := here && y.Some? && y.value.generation == pms[i].superseded.value.1;
        }
        ok := ok && here;
      }
    }

    /** Every counter and watermark is where the capture found it. */
    predicate Unmoved(ctx: Context) reads this, registry, authority, evidence {
      && state.revision == ctx.storeRevision && registry.revision == ctx.registryRevision
      && authority.epoch == ctx.authority.epoch && evidence.View().Mark() == ctx.mark
    }

    /** The state a commit of the prepared mutations would lead to. */
    function Successor(ctx: Context, pms: seq<Prepared>, payload: Digest): Option<DurableState>
      reads this, registry, authority
    {
      match BatchState(cfg, state, pms, ctx.caller.attempt, payload)
      case None => None
      case Some(next) => Some(Stamp(next, registry.View(), authority.View(), ctx.authority.epoch))
    }

    /** The commit: check everything again, apply to a copy, save, and only then swap.  Anything but a commit leaves the
        state and the image as they were. */
    method Commit(ctx: Context, pms: seq<Prepared>, payload: Digest) returns (v: Verdict)
      requires Valid() && Named(pms)
      modifies this, persistence
      ensures Valid()
      ensures v == Committed || v == Refused || v == SaveFailed
      ensures v == Refused <==> !old(Unmoved(ctx)) || old(Successor(ctx, pms, payload)).None?
      ensures v == Committed <==>
              && old(Unmoved(ctx)) && old(Successor(ctx, pms, payload)).Some? && !old(persistence.failNext)
              && Encode(cfg, old(Successor(ctx, pms, payload)).value).Some?
      ensures v != Committed ==> state == old(state) && persistence.bytes == old(persistence.bytes)
      ensures v == Committed ==>
                && Some(state) == old(Successor(ctx, pms, payload))
                && Some(persistence.bytes) == Encode(cfg, state)
    {
      hide ApplyAll; hide IndexValid; hide UniqueIds; hide StillCurrent; hide RoomFor; hide Encode;
      if state.revision != ctx.storeRevision { return Refused; }
      if registry.revision != ctx.registryRevision { return Refused; }
      if authority.epoch != ctx.authority.epoch { return Refused; }
      var mark := evidence.GetWatermark();
      if mark != ctx.mark { return Refused; }
      var same := CheckGenerations(pms);
      if !same { return Refused; }
      var room := CheckRoom(cfg.limits, state.lists, pms);
      if !room { return Refused; }
      var base := state.(revision := state.revision + 1);
      ApplyKeepsIds(cfg.limits, base, pms, ctx.caller.attempt, payload);
      var applied := ApplyPreparedAll(cfg.limits, base, pms, ctx.caller.attempt, payload);
      if applied.None? { return Refused; }
      var next := Stamp(applied.value, registry.View(), authority.View(), ctx.authority.epoch);
      var saved := persistence.Save(cfg, next);
      if !saved { return SaveFailed; }
      state := next;
      RebuildIndex();
      var ok := CheckIndex();
      assert ok by { ConsistentIsComplete(state.lists, index); }  // the index-inconsistent outcome is unreachable
      v := Committed;
    }

    predicate BatchWithinLimits(ds: seq<Draft>) reads evidence {
      ds != [] && |ds| <= cfg.limits.maxBatchSize && evidence.evidence.RecordCount() <= cfg.limits.maxEvidenceRecords
    }

    function OnRecord(attempt: u64): Option<Digest> reads this {
      if attempt == 0 then None else AttemptPayload(state.attempts, attempt)
    }

    /** The atomic batch of the model, and the tables that every commit carries. */
    function Outcome(caller: Caller, shape: Shape, ds: seq<Draft>): Option<DurableState>
      reads this, registry, authority, evidence
    {
      match AtomicBatch(cfg, View(), caller, shape, ds, authority.publishers, authority.fencedBoots)
      case None => None
      case Some(s) => Some(Stamp(s, registry.View(), authority.View(), authority.epoch))
    }

    predicate GoesAhead(caller: Caller, shape: Shape, ds: seq<Draft>) reads this, registry, authority, evidence {
      BatchWithinLimits(ds) && OnRecord(caller.attempt).None?
      && AttemptAccepted(cfg.limits, state.attempts, caller.attempt) && Outcome(caller, shape, ds).Some?
    }

    /** One batch from start to end, with nobody else at work: what is on record is answered from the record, and
        otherwise the batch is committed exactly when the atomic batch of the model exists and can be saved. */
    method RunBatch(caller: Caller, shape: Shape, ds: seq<Draft>) returns (v: Verdict)
      requires Valid()
      modifies this, persistence
      ensures Valid()
      ensures v == Replayed <==>
              && old(BatchWithinLimits(ds))
              && old(OnRecord(caller.attempt)) == Some(BatchDigest(cfg.digest, ds))
      ensures v == Mismatched <==> old(BatchWithinLimits(ds)) && old(OnRecord(caller.attempt)).Some? && v != Replayed
      ensures v == Committed || v == SaveFailed <==> old(GoesAhead(caller, shape, ds))
      ensures v == Committed <==>
              && old(GoesAhead(caller, shape, ds)) && !old(persistence.failNext)
              && Encode(cfg, old(Outcome(caller, shape, ds)).value).Some?
      ensures v == Committed ==>
                Some(state) == old(Outcome(caller, shape, ds)) && Some(persistence.bytes) == Encode(cfg, state)
      ensures v != Committed ==> state == old(state) && persistence.bytes == old(persistence.bytes)
    {
      hide BatchState; hide PrepareAll; hide IndexValid; hide UniqueIds; hide BatchDigest; hide Encode; hide DraftValid;
      if ds == [] || |ds| > cfg.limits.maxBatchSize { return Refused; }
      var mark := evidence.GetWatermark();
      var snapshot := evidence.Snapshot();
      if snapshot.RecordCount() > cfg.limits.maxEvidenceRecords { return Refused; }
      var payload := BatchDigest(cfg.digest, ds);
      var i := AttemptPosition(state.attempts, caller.attempt);
      if caller.attempt != 0 && i < |state.attempts| {
        return if state.attempts[i].payload == payload then Replayed else Mismatched;
      }
      if !AttemptAccepted(cfg.limits, state.attempts, caller.attempt) { return Refused; }
      var ctx := Context(caller, authority.View(), state.revision, registry.revision, mark, snapshot);
      var rs := ResolveDrafts(ds);
      var pms := PrepareDrafts(cfg, ctx, shape, ds, rs);
      if pms.None? { return Refused; }
      PreparedNamed(cfg, ctx, shape, ds, rs);
      v := Commit(ctx, pms.value, payload);
    }

    /** The commit of one administrative event.  The registry revision is not looked at. */
    method CommitTransition(ctx: Context, id: u64, expected: u64, event: LifecycleEvent) returns (v: Verdict)
      requires Valid() && AdminEvent(event)
      modifies this, persistence
      ensures Valid()
      ensures v == Committed || v == Refused || v == SaveFailed
      ensures v != Committed ==> state == old(state) && persistence.bytes == old(persistence.bytes)
      ensures var next := TransitionState(cfg, old(state), ctx, id, expected, event);
              && (v == Refused <==>
                    || old(state.revision) != ctx.storeRevision || authority.epoch != ctx.authority.epoch
                    || evidence.View().Mark() != ctx.mark || next.None?)
              && (next.Some? <==> EventAllowed(old(state.lists), id, expected, event))
              && (v == Committed ==> InState(state.lists, id, EventTarget(event)))
              && (v != Refused ==>
                    var t := Stamp(next.value, registry.View(), authority.View(), ctx.authority.epoch);
                    && (v == Committed <==> !old(persistence.failNext) && Encode(cfg, t).Some?)
                    && (v == Committed ==> state == t && Some(persistence.bytes) == Encode(cfg, t)))
    {
      hide IndexValid; hide UniqueIds; hide Encode; hide AppendHistory; hide RecordAttempt; hide TransitionRecord;
      hide Transition; hide AdminEvent; hide Transitioned; hide EventAllowed; hide InState; hide EventTarget;
      EventStates(cfg, state, ctx, id, expected, event);
      if state.revision != ctx.storeRevision { return Refused; }
      if authority.epoch != ctx.authority.epoch { return Refused; }
      var mark := evidence.GetWatermark();
      if mark != ctx.mark { return Refused; }
      var i := FindInState(state.lists, id);
      if i == |state.lists| || state.lists[i].generation != expected { return Refused; }
      var next := Transition(state.lists[i].state, event);
      if next.None? { return Refused; }
      var l := Transitioned(ctx, state.lists[i], next.value, state.revision + 1);
      TransitionedId(ctx, state.lists[i], next.value, state.revision + 1);
      var s := state.(revision := state.revision + 1, lists := state.lists[i := l]);
      SameIdsUnique(state.lists, i, l);
      AppendKeepsLists(cfg.limits, s, l);
      s := AppendHistory(cfg.limits, s, l);
      if ctx.caller.attempt != 0 {
        var attempts := RecordAttemptIn(s.attempts, TransitionRecord(cfg, ctx, l, expected));
        s := s.(attempts := attempts);
      }
      s := Stamp(s, registry.View(), authority.View(), ctx.authority.epoch);
      var saved := persistence.Save(cfg, s);
      if !saved { return SaveFailed; }
      state := s;
      RebuildIndex();
      v := Committed;
    }

    /** What an administrative event makes of the state, when validation and the transition table let it through. */
    function AdminOutcome(caller: Caller, id: u64, expected: u64, event: LifecycleEvent): Option<DurableState>
      reads this, registry, authority, evidence
    {
      var ctx := AtomicContext(View(), caller, authority.publishers, authority.fencedBoots);
      var x := FindList(state.lists, id);
      if x.None? || expected == 0 || x.value.generation != expected
         || !TransitionValid(cfg, ctx, x.value, expected, event)
      then None
      else match TransitionState(cfg, state, ctx, id, expected, event)
           case None => None
           case Some(s) => Some(Stamp(s, registry.View(), authority.View(), authority.epoch))
    }

    /** Withdraw, revoke or retire a list, with nobody else at work.  A replay of the attempt is not looked for. */
    method TransitionList(caller: Caller, id: u64, expected: u64, event: LifecycleEvent) returns (v: Verdict)
      requires Valid() && AdminEvent(event)
      modifies this, persistence
      ensures Valid()
      ensures v == Committed || v == SaveFailed || v == Refused
      ensures v == Refused <==>
              || !AttemptAccepted(cfg.limits, old(state.attempts), caller.attempt)
              || old(AdminOutcome(caller, id, expected, event)).None?
      ensures v == Committed <==>
              && v != Refused && !old(persistence.failNext)
              && Encode(cfg, old(AdminOutcome(caller, id, expected, event)).value).Some?
      ensures v == Committed ==>
                && Some(state) == old(AdminOutcome(caller, id, expected, event))
                && Some(persistence.bytes) == Encode(cfg, state)
                && EventAllowed(old(state.lists), id, expected, event) && InState(state.lists, id, EventTarget(event))
      ensures v != Committed ==> state == old(state) && persistence.bytes == old(persistence.bytes)
    {
      hide IndexValid; hide UniqueIds; hide Encode; hide TransitionState; hide RequestChecks; hide FindList;
      hide AdminEvent; hide Collect; hide EventAllowed; hide InState; hide EventTarget;
      var mark := evidence.GetWatermark();
      var snapshot := evidence.Snapshot();
      if !AttemptAccepted(cfg.limits, state.attempts, caller.attempt) { return Refused; }
      var ctx := Context(caller, authority.View(), state.revision, registry.revision, mark, snapshot);
      var x := Find(id);
      if x.None? { return Refused; }
      if expected == 0 || expected != x.value.generation { return Refused; }
      var outcome := ValidateRequest(TransitionRequest(cfg, ctx, x.value, expected, event));
      if outcome.reasons != [] { return Refused; }
      v := CommitTransition(ctx, id, expected, event);
    }

    /** Save the tables behind an unchanged revision number, then count a revision in memory. */
    method SaveTables() returns (saved: bool)
      requires Valid()
      modifies this, persistence
      ensures Valid()
      ensures var image := Stamp(old(state), registry.View(), authority.View(), old(state.epoch));
              && saved == (!old(persistence.failNext) && Encode(cfg, image).Some?)
              && persistence.bytes == (if saved then Encode(cfg, image).value else old(persistence.bytes))
              && state == if saved then image.(revision := old(state.revision) + 1) else old(state)
    {
      hide IndexValid; hide Encode; hide UniqueIds;
      var next := Stamp(state, registry.View(), authority.View(), state.epoch);
      saved := persistence.Save(cfg, next);
      if !saved { return; }
      state := next.(revision := state.revision + 1);
      RebuildIndex();
    }

    /** Register a profile, then save the tables.  When the save fails the registry keeps the profile all the same. */
    method RegisterProfile(p: Profile) returns (reason: Option<Reason>, saved: bool)
      requires Valid() && RegGood(registry.View())
      modifies this, registry, persistence
      ensures Valid() && RegGood(registry.View()) && RegMoves(old(registry.View()), registry.View())
      ensures reason.None? <==> old(registry.Takes(p, cfg.limits.maxProfiles))
      ensures reason.Some? ==> !saved && registry.View() == old(registry.View()) && state == old(state)
                               && persistence.bytes == old(persistence.bytes)
      ensures reason.None? ==>
                var image := Stamp(old(state), registry.View(), authority.View(), old(state.epoch));
                && p in registry.profiles && registry.revision == old(registry.revision) + 1
                && saved == (!old(persistence.failNext) && Encode(cfg, image).Some?)
                && persistence.bytes == (if saved then Encode(cfg, image).value else old(persistence.bytes))
                && state == if saved then image.(revision := old(state.revision) + 1) else old(state)
    {
      hide IndexValid; hide Encode; hide RegMoves; hide UniqueIds; hide RegGood;
      saved := false;
      ghost var was := registry.profiles;
      reason := registry.RegisterProfile(p, cfg.limits.maxProfiles);
      if reason.Some? { return; }
      RegisteredIn(was, p, registry.profiles);
      saved := SaveTables();
    }

    /** The same for a policy. */
    method RegisterPolicy(p: Policy) returns (reason: Option<Reason>, saved: bool)
      requires Valid() && RegGood(registry.View())
      modifies this, registry, persistence
      ensures Valid() && RegGood(registry.View()) && RegMoves(old(registry.View()), registry.View())
      ensures reason.None? <==> old(registry.TakesPolicy(p, cfg.limits.maxPolicies))
      ensures reason.Some? ==> !saved && registry.View() == old(registry.View()) && state == old(state)
                               && persistence.bytes == old(persistence.bytes)
      ensures reason.None? ==>
                var image := Stamp(old(state), registry.View(), authority.View(), old(state.epoch));
                && p in registry.policies && registry.revision == old(registry.revision) + 1
                && saved == (!old(persistence.failNext) && Encode(cfg, image).Some?)
                && persistence.bytes == (if saved then Encode(cfg, image).value else old(persistence.bytes))
                && state == if saved then image.(revision := old(state.revision) + 1) else old(state)
    {
      hide IndexValid; hide Encode; hide RegMoves; hide UniqueIds; hide RegGood;
      saved := false;
      ghost var i := PolicyPosition(registry.policies, p.id);
      reason := registry.RegisterPolicy(p, cfg.limits.maxPolicies);
      if reason.Some? { return; }
      assert registry.policies[i] == p;
      saved := SaveTables();
    }

    /** Save everything as it is, under the authority's epoch and a new revision number. */
    method PersistNow() returns (saved: bool)
      requires Valid()
      modifies this, persistence
      ensures Valid()
      ensures var next := Stamp(old(state).(revision := old(state.revision) + 1), registry.View(), authority.View(),
                                authority.epoch);
              && saved == (!old(persistence.failNext) && Encode(cfg, next).Some?)
              && persistence.bytes == (if saved then Encode(cfg, next).value else old(persistence.bytes))
              && state == if saved then next else old(state)
    {
      hide IndexValid; hide Encode; hide UniqueIds;
      var next := Stamp(state.(revision := state.revision + 1), registry.View(), authority.View(), authority.epoch);
      saved := persistence.Save(cfg, next);
      if !saved { return; }
      state := next;
      RebuildIndex();
    }

    /** Propose the present content of a list again.  Only a list bound to no path, route or constraint can succeed. */
    method Revalidate(caller: Caller, id: u64, expected: u64) returns (v: Verdict)
      requires Valid()
      modifies this, persistence
      ensures Valid()
      ensures v != Committed ==> state == old(state) && persistence.bytes == old(persistence.bytes)
      ensures old(FindList(state.lists, id)).None? ==> v == Refused
      ensures old(FindList(state.lists, id)).Some? ==>
                var x := old(FindList(state.lists, id)).value;
                var ds := [RevalidationDraft(x, expected)];
                && (v == Committed || v == SaveFailed <==> old(GoesAhead(caller, REVALIDATE, ds)))
                && (v == Committed ==>
                      && Some(state) == old(Outcome(caller, REVALIDATE, ds))
                      && Some(persistence.bytes) == Encode(cfg, state)
                      && (cfg.limits.maxReasons >= 1 ==> Unbound(x)))
    {
      hide IndexValid; hide Encode; hide UniqueIds; hide FindList; hide AtomicBatch; hide BatchDigest;
      hide RevalidationDraft;
      var x := Find(id);
      if x.None? { return Refused; }
      var d := RevalidationDraft(x.value, expected);
      v := RunBatch(caller, REVALIDATE, [d]);
      if v == Committed && cfg.limits.maxReasons >= 1 {
        RevalidatedUnbound(cfg, old(View()), caller, x.value, expected, old(authority.publishers),
                           old(authority.fencedBoots));
      }
    }

    /** Recheck every list; save and show the result if anything changed. */
    method RefreshCurrentness() returns (changed: bool)
      requires Valid()
      modifies this, persistence
      ensures Valid()
      ensures var next := RefreshState(old(registry.View()), old(authority.View()), old(authority.epoch),
                                       old(evidence.evidence), old(state));
              && changed == (next != old(state))
              && var saved := changed && !old(persistence.failNext) && Encode(cfg, next).Some?;
              && state == (if saved then next else old(state))
              && persistence.bytes == if saved then Encode(cfg, next).value else old(persistence.bytes)
    {
      hide IndexValid; hide UniqueIds; hide RefreshOne; hide Encode;
      var snapshot := evidence.Snapshot();
      var reg, auth, epoch := registry.View(), authority.View(), authority.epoch;
      var ls := state.lists;
      changed := false;
      for i := 0 to |ls|
        invariant |ls| == |state.lists|
        invariant forall k :: 0 <= k < i ==> ls[k] == RefreshOne(reg, auth, epoch, snapshot, state.lists[k])
        invariant forall k :: i <= k < |ls| ==> ls[k] == state.lists[k]
        invariant changed <==> exists k :: 0 <= k < i && ls[k] != state.lists[k]
      {
        var l := RefreshOne(reg, auth, epoch, snapshot, ls[i]);
        if l != ls[i] { changed := true; }
        ls := ls[i := l];
      }
      assert ls == RefreshLists(reg, auth, epoch, snapshot, state.lists);
      if changed {
        var next := state.(lists := ls, revision := state.revision + 1);
        var saved := persistence.Save(cfg, next);
        if saved {
          RefreshKeepsIds(reg, auth, epoch, snapshot, state.lists);
          state := next;
          RebuildIndex();
        }
      }
    }

    method RestoreRegistry(image: DurableState)
      modifies registry
      ensures registry.View() == Registry(ProfilesOnto(old(registry.profiles), image.profiles),
                                          PoliciesOnto(old(registry.policies), image.policies), old(registry.revision))
    {
      ghost var profiles, policies := registry.profiles, registry.policies;
      for i := 0 to |image.profiles|
        invariant registry.profiles == ProfilesOnto(profiles, image.profiles[..i]) && registry.policies == policies
        invariant registry.revision == old(registry.revision)
      {
        assert image.profiles[..i + 1][..i] == image.profiles[..i];
        registry.RestoreProfile(image.profiles[i]);
      }
      assert image.profiles[..|image.profiles|] == image.profiles;
      for i := 0 to |image.policies|
        invariant registry.profiles == ProfilesOnto(profiles, image.profiles)
        invariant registry.policies == PoliciesOnto(policies, image.policies[..i])
        invariant registry.revision == old(registry.revision)
      {
        assert image.policies[..i + 1][..i] == image.policies[..i];
        registry.RestorePolicy(image.policies[i]);
      }
      assert image.policies[..|image.policies|] == image.policies;
    }

    /** No live authority comes back: every recorded publisher dead, every boot on record fenced. */
    method RestoreAuthority(image: DurableState)
      modifies authority
      ensures authority.View() == Authority(old(authority.epoch),
                                            PublishersOnto(old(authority.publishers), image.publishers),
                                            AddBoots(BootsOnto(old(authority.fencedBoots), image.publishers),
                                                     image.fencedBoots))
    {
      var ps, bs := image.publishers, image.fencedBoots;
      ghost var publishers, fenced := authority.publishers, authority.fencedBoots;
      hide AddBoot; hide PublishersOnto; hide BootsOnto; hide AddBoots;
      PrefixesRestored(publishers, fenced, ps, bs);
      for i := 0 to |ps|
        invariant authority.epoch == old(authority.epoch)
        invariant authority.publishers == PublishersOnto(publishers, ps[..i])
        invariant authority.fencedBoots == BootsOnto(fenced, ps[..i])
      {
        PublisherRestored(publishers, fenced, ps, i);
        authority.RestorePublisher(ps[i].(alive := false, fenced := true));
        if ps[i].boot != 0 { authority.RestoreFencedBoot(ps[i].boot); }
      }
      assert ps[..|ps|] == ps;
      for i := 0 to |bs|
        invariant authority.epoch == old(authority.epoch) && authority.publishers == PublishersOnto(publishers, ps)
        invariant authority.fencedBoots == AddBoots(BootsOnto(fenced, ps), bs[..i])
      {
        BootRestored(BootsOnto(fenced, ps), bs, i);
        authority.RestoreFencedBoot(bs[i]);
      }
      assert bs[..|bs|] == bs;
    }

    function Contents(): Restarted reads this, registry, authority {
      Restarted(state, registry.View(), authority.View())
    }

    /** Take the last image over whatever the store holds.  Loading saves its result, and carries on when that fails; it
        refuses, with the epoch at its end, when the epoch cannot go up any more. */
    method Load() returns (r: Loaded)
      requires Valid() && AuthGood(authority.View())
      modifies this, registry, authority, persistence
      ensures Valid()
      ensures var found := LoadOf(cfg, old(persistence.bytes));
              && r == (if found.Image? && LoadInto(old(Contents()), found.state).None? then NotLoaded else found)
              && (!r.Image? ==>
                    && state == old(state) && registry.View() == old(registry.View())
                    && authority.View() == old(authority.View()).(epoch :=
                                 if found.Image? then U64_MAX else old(authority.epoch))
                    && persistence.bytes == old(persistence.bytes))
      ensures r.Image? ==>
                && Contents() == LoadInto(old(Contents()), r.state).value
                && persistence.bytes == if !old(persistence.failNext) && Encode(cfg, state).Some?
                                        then Encode(cfg, state).value else old(persistence.bytes)
    {
      hide IndexValid; hide Decode; hide Encode; hide PublishersOnto; hide BootsOnto; hide AddBoots;
      hide ProfilesOnto; hide PoliciesOnto; hide RecoverList; hide AuthMoves; hide UniqueIds;
      r := persistence.Load(cfg);
      if !r.Image? { return; }
      var image := r.state;
      LoadedIsUnique(cfg, persistence.bytes);
      var base := if image.epoch != 0 then image.epoch else 1;
      if authority.epoch > base { base := authority.epoch; }
      var restored := authority.RestoreEpoch(base);
      var advanced := authority.AdvanceEpoch();
      if !advanced { return NotLoaded; }
      RestoreRegistry(image);
      RestoreAuthority(image);
      ghost var after := LoadInto(old(Contents()), image).value;
      var lists: seq<SegmentList> := [];
      for i := 0 to |image.lists|
        invariant |lists| == i && forall k :: 0 <= k < i ==> lists[k] == RecoverList(image.lists[k])
        invariant authority.View() == after.auth && registry.View() == after.reg
        invariant state == old(state) && persistence.bytes == old(persistence.bytes)
        invariant persistence.failNext == old(persistence.failNext)
      {
        var next := Transition(image.lists[i].state, RecoveryLoad);
        var s := if next.Some? then next.value else RevalidationRequired;
        RecoveredAs(image.lists[i], s);
        lists := lists + [image.lists[i].(state := s,
                                          currentness := if s == RevalidationRequired then NeedsRevalidation
                                                         else Unknown)];
      }
      assert lists == RecoverLists(image.lists);
      state := image.(profiles := registry.profiles, policies := registry.policies, publishers := authority.publishers,
                      fencedBoots := authority.fencedBoots, lists := lists, epoch := authority.epoch,
                      revision := state.revision + image.revision + 1);
      RecoveredUnique(image.lists);
      RebuildIndex();
      var saved := persistence.Save(cfg, state);
    }
  }

  lemma RevalidatedUnbound(cfg: Config, w: World, caller: Caller, x: SegmentList, expected: u64, ps: seq<Publisher>,
                           fenced: seq<u64>)
    requires cfg.limits.maxReasons >= 1
    requires AtomicBatch(cfg, w, caller, REVALIDATE, [RevalidationDraft(x, expected)], ps, fenced).Some?
    ensures Unbound(x)
  {
    hide DraftValid; hide BatchState; hide RevalidationDraft; hide Unbound;
    var d := RevalidationDraft(x, expected);
    var ctx := AtomicContext(w, caller, ps, fenced);
    assert DraftValid(cfg, ctx, REVALIDATE, [d][0], Resolutions(w, [d])[0]);
    if !Unbound(x) { BoundListsNeverRevalidate(cfg, ctx, x, expected, Resolutions(w, [d])[0]); }
  }

  lemma PrefixesRestored(base: seq<Publisher>, fenced: seq<u64>, ps: seq<Publisher>, bs: seq<u64>)
    ensures PublishersOnto(base, ps[..0]) == base && BootsOnto(fenced, ps[..0]) == fenced
    ensures AddBoots(BootsOnto(fenced, ps), bs[..0]) == BootsOnto(fenced, ps)
  {}

  lemma PublisherRestored(base: seq<Publisher>, fenced: seq<u64>, ps: seq<Publisher>, i: nat)
    requires i < |ps|
    ensures PublishersOnto(base, ps[..i + 1])
            == PutPublisher(PublishersOnto(base, ps[..i]), ps[i].(alive := false, fenced := true))
    ensures BootsOnto(fenced, ps[..i + 1])
            == if ps[i].boot != 0 then AddBoot(BootsOnto(fenced, ps[..i]), ps[i].boot) else BootsOnto(fenced, ps[..i])
  {
    hide AddBoot; hide PutPublisher;
    assert ps[..i + 1][..i] == ps[..i];
  }

  lemma BootRestored(fenced: seq<u64>, bs: seq<u64>, i: nat)
    requires i < |bs|
    ensures AddBoots(fenced, bs[..i + 1]) == AddBoot(AddBoots(fenced, bs[..i]), bs[i])
  {
    hide AddBoot;
    assert bs[..i + 1][..i] == bs[..i];
  }

  lemma RegisteredIn(was: seq<Profile>, p: Profile, now: seq<Profile>)
    requires var i := ProfilePosition(was, p.id); now == if i < |was| then was[i := p] else was + [p]
    ensures p in now
  {
    var i := ProfilePosition(was, p.id);
    assert now[if i < |was| then i else |was|] == p;
  }

  lemma TransitionedId(ctx: Context, x: SegmentList, next: LifecycleState, revision: nat)
    ensures Transitioned(ctx, x, next, revision).content.id == x.content.id
  {}

  lemma SameIdsUnique(ls: seq<SegmentList>, i: nat, l: SegmentList)
    requires UniqueIds(ls) && i < |ls| && l.content.id == ls[i].content.id
    ensures UniqueIds(ls[i := l])
  {}

  lemma RecoveredAs(l: SegmentList, s: LifecycleState)
    requires var next := Transition(l.state, RecoveryLoad);
             s == if next.Some? then next.value else RevalidationRequired
    ensures RecoverList(l)
            == l.(state := s, currentness := if s == RevalidationRequired then NeedsRevalidation else Unknown)
  {}

  lemma {:induction false} UpTo(n: nat) returns (all: set<nat>)
    ensures |all| == n && forall i :: i in all <==> 0 <= i < n
  {
    if n == 0 { return {}; }
    all := UpTo(n - 1);
    all := all + {n - 1};
  }

  /** The places the first `m` entries point at; as many as there are entries. */
  lemma {:induction false} Targets(ls: seq<SegmentList>, ix: Index, m: nat) returns (hit: set<nat>)
    requires IndexConsistent(ls, ix) && m <= |ix|
    ensures |hit| == m && (forall i :: i in hit ==> i < |ls|)
    ensures forall i :: i in hit ==> exists k :: 0 <= k < m && ix[k].1 == i
  {
    if m == 0 { return {}; }
    hit := Targets(ls, ix, m - 1);
    assert forall k :: 0 <= k < m - 1 ==> ix[k].0 < ix[m - 1].0;
    assert ix[m - 1].1 !in hit;
    hit := hit + {ix[m - 1].1};
  }

  lemma {:induction false} FullSubset(a: set<nat>, b: set<nat>)
    requires a <= b && |a| == |b|
    ensures a == b
  {
    if a != b {
      var x :| x in b && x !in a;
      Smaller(a, b - {x});
    }
  }

  lemma {:induction false} Smaller(a: set<nat>, b: set<nat>)
    requires a <= b
    ensures |a| <= |b|
    decreases a
  {
    if a != {} {
      var x :| x in a;
      Smaller(a - {x}, b - {x});
    }
  }

  /** The consistency check misses nothing: an index that passes it names every list, so that the binary search over it
      finds whatever a scan would. */
  lemma ConsistentIsComplete(ls: seq<SegmentList>, ix: Index)
    ensures IndexValid(ls, ix) <==> IndexConsistent(ls, ix)
  {
    if IndexConsistent(ls, ix) {
      var hit := Targets(ls, ix, |ix|);
      var all := UpTo(|ls|);
      FullSubset(hit, all);
      forall i | 0 <= i < |ls| ensures Points(ix, i) { assert i in hit; }
    }
  }

  lemma RefreshKeepsIds(reg: Registry, auth: Authority, epoch: u64, e: Evidence, ls: seq<SegmentList>)
    requires UniqueIds(ls)
    ensures UniqueIds(RefreshLists(reg, auth, epoch, e, ls))
  {
    hide Recheck;
  }

  lemma RecoveredUnique(ls: seq<SegmentList>)
    requires UniqueIds(ls)
    ensures UniqueIds(RecoverLists(ls))
  {}

  /** Whatever is loaded has no list id twice. */
  lemma LoadedIsUnique(cfg: Config, bytes: Bytes)
    ensures LoadOf(cfg, bytes).Image? ==> UniqueIds(LoadOf(cfg, bytes).state.lists)
  {
    hide Crc32c; hide UniqueIds; hide Budget; hide CountsFit; hide DecodeRecords;
    if LoadOf(cfg, bytes).Image? {
      NothingTwice();
      DecodedUnique(cfg, bytes[24..|bytes| - 4], EMPTY_STATE, 0);
    }
  }

  lemma NothingTwice()
    ensures UniqueIds([])
  {}

  lemma {:induction false} DecodedUnique(cfg: Config, b: Bytes, s: DurableState, parsed: nat)
    requires UniqueIds(s.lists) && DecodeRecords(cfg, b, s, parsed).Some?
    ensures UniqueIds(DecodeRecords(cfg, b, s, parsed).value.0.lists)
    decreases |b|
  {
    hide UniqueIds; hide ApplyRecord; hide ReadHalf; hide ReadWord;
    if b != [] {
      var kind, size := ReadHalf(b[..2]), ReadWord(b[2..][..4]);
      var rest := b[2..][4..];
      RecordUnique(cfg, s, kind, rest[..size]);
      DecodedUnique(cfg, rest[size..], ApplyRecord(cfg, s, kind, rest[..size]).value, parsed + 1);
    }
  }

  lemma RecordUnique(cfg: Config, s: DurableState, kind: u16, body: Bytes)
    requires UniqueIds(s.lists) && ApplyRecord(cfg, s, kind, body).Some?
    ensures UniqueIds(ApplyRecord(cfg, s, kind, body).value.lists)
  {
    hide UniqueIds; hide DecodeMeta; hide DecodeProfile; hide DecodePolicy; hide DecodeList; hide DecodeHistory;
    hide DecodeAttempt; hide DecodePublisher; hide DecodeBoot; hide FindList;
    if kind == 4 { FreshList(s.lists, DecodeList(cfg, s.profiles, body).value, []); }
  }
}
