/** The generation-bound profile and policy registries (`src/registry.cpp`). */
module SrfRegistry {
  import opened SrfTypes
  import opened SrfReasons

  function ProfilePosition(ps: seq<Profile>, id: u64): (i: nat)
    ensures i <= |ps|
    ensures i < |ps| ==> ps[i].id == id
    ensures forall k :: 0 <= k < i ==> ps[k].id != id
  {
    if ps == [] then 0 else if ps[0].id == id then 0 else 1 + ProfilePosition(ps[1..], id)
  }

  function PolicyPosition(ps: seq<Policy>, id: u64): (i: nat)
    ensures i <= |ps|
    ensures i < |ps| ==> ps[i].id == id
    ensures forall k :: 0 <= k < i ==> ps[k].id != id
  {
    if ps == [] then 0 else if ps[0].id == id then 0 else 1 + PolicyPosition(ps[1..], id)
  }

  ghost predicate UniqueProfiles(ps: seq<Profile>) { forall i, j :: 0 <= i < j < |ps| ==> ps[i].id != ps[j].id }
  ghost predicate UniquePolicies(ps: seq<Policy>) { forall i, j :: 0 <= i < j < |ps| ==> ps[i].id != ps[j].id }

  /** One entry per id, with a valid id and generation and a usable width and depth. */
  ghost predicate ProfilesGood(ps: seq<Profile>) {
    && UniqueProfiles(ps)
    && forall i :: 0 <= i < |ps| ==> ps[i].id != 0 && ps[i].generation != 0 && ps[i].payloadWidth != 0
                                     && ps[i].maxDepth != 0
  }

  ghost predicate PoliciesGood(ps: seq<Policy>) {
    && UniquePolicies(ps)
    && forall i :: 0 <= i < |ps| ==> ps[i].id != 0 && ps[i].generation != 0
  }

  ghost predicate RegGood(r: Registry) { ProfilesGood(r.profiles) && PoliciesGood(r.policies) }

  /** How the registries may move: any change is a strict increase of the revision; an entry keeps its place and
      changes only together with an increase of its generation. */
  ghost predicate RegMoves(a: Registry, b: Registry) {
    && (a.revision < b.revision || a == b)
    && |a.profiles| <= |b.profiles| && |a.policies| <= |b.policies|
    && (forall i :: 0 <= i < |a.profiles| ==>
          && b.profiles[i].id == a.profiles[i].id
          && (b.profiles[i] == a.profiles[i] || a.profiles[i].generation < b.profiles[i].generation))
    && (forall i :: 0 <= i < |a.policies| ==>
          && b.policies[i].id == a.policies[i].id
          && (b.policies[i] == a.policies[i] || a.policies[i].generation < b.policies[i].generation))
  }

  lemma RegMovesTrans(a: Registry, b: Registry, c: Registry)
    requires RegMoves(a, b) && RegMoves(b, c)
    ensures RegMoves(a, c)
  {}

  /** A (profile, generation) pair names one profile for the life of the registry. */
  lemma GenerationNamesProfile(a: Registry, b: Registry, p: Profile, q: Profile)
    requires RegGood(b) && RegMoves(a, b)
    requires p in a.profiles && q in b.profiles && q.id == p.id && q.generation == p.generation
    ensures q == p
  {
    var i :| 0 <= i < |a.profiles| && a.profiles[i] == p;
    var j :| 0 <= j < |b.profiles| && b.profiles[j] == q;
    assert i == j;
  }

  class RegistryTable {
    var profiles: seq<Profile>
    var policies: seq<Policy>
    var revision: nat

    constructor ()
      ensures View() == Registry([], [], 0) && RegGood(View())
    {
      profiles, policies, revision := [], [], 0;
    }

    function View(): Registry reads this { Registry(profiles, policies, revision) }

    method FindProfileAt(id: u64) returns (i: nat)
      ensures i == ProfilePosition(profiles, id)
    {
      i := 0;
      while i < |profiles| && profiles[i].id != id
        invariant i <= |profiles| && forall k :: 0 <= k < i ==> profiles[k].id != id
      {
        i := i + 1;
      }
    }

    method FindPolicyAt(id: u64) returns (i: nat)
      ensures i == PolicyPosition(policies, id)
    {
      i := 0;
      while i < |policies| && policies[i].id != id
        invariant i <= |policies| && forall k :: 0 <= k < i ==> policies[k].id != id
      {
        i := i + 1;
      }
    }

    /** A profile is replaced only by a strictly newer generation of itself. */
    predicate Takes(p: Profile, maxProfiles: u32) reads this {
      && p.id != 0 && p.generation != 0 && p.payloadWidth != 0 && p.maxDepth != 0
      && var i := ProfilePosition(profiles, p.id);
         if i < |profiles| then profiles[i].generation < p.generation else |profiles| < maxProfiles
    }

    method RegisterProfile(p: Profile, maxProfiles: u32) returns (reason: Option<Reason>)
      requires RegGood(View())
      modifies this`profiles, this`revision
      ensures RegGood(View()) && RegMoves(old(View()), View())
      ensures reason.Some? ==> View() == old(View())
      ensures reason.None? <==> old(Takes(p, maxProfiles))
      ensures reason.Some? ==>
                reason.value.code == if p.id == 0 then PROFILE_ID_INVALID
                                     else if p.generation == 0 then PROFILE_GENERATION_INVALID
                                     else if p.payloadWidth == 0 || p.maxDepth == 0 then PROFILE_ID_INVALID
                                     else if ProfilePosition(profiles, p.id) < |profiles|
                                     then PROFILE_GENERATION_INVALID
                                     else LIMIT_PROFILES
      ensures reason.None? ==>
                var i := ProfilePosition(old(profiles), p.id);
                && profiles == (if i < |old(profiles)| then old(profiles)[i := p] else old(profiles) + [p])
                && revision == old(revision) + 1
    {
      if p.id == 0 { return Some(Reason(PROFILE_ID_INVALID, 0, 0)); }
      if p.generation == 0 { return Some(Reason(PROFILE_GENERATION_INVALID, 0, 0)); }
      if p.payloadWidth == 0 || p.maxDepth == 0 { return Some(Reason(PROFILE_ID_INVALID, 0, p.id)); }
      var i := FindProfileAt(p.id);
      if i < |profiles| {
        if p.generation <= profiles[i].generation {
          return Some(Reason(PROFILE_GENERATION_INVALID, 0, profiles[i].generation));
        }
        profiles, revision := profiles[i := p], revision + 1;
        return None;
      }
      if |profiles| >= maxProfiles { return Some(Reason(LIMIT_PROFILES, 0, maxProfiles)); }
      profiles, revision, reason := profiles + [p], revision + 1, None;
    }

    predicate TakesPolicy(p: Policy, maxPolicies: u32) reads this {
      && p.id != 0 && p.generation != 0
      && var i := PolicyPosition(policies, p.id);
         if i < |policies| then policies[i].generation < p.generation else |policies| < maxPolicies
    }

    method RegisterPolicy(p: Policy, maxPolicies: u32) returns (reason: Option<Reason>)
      requires RegGood(View())
      modifies this`policies, this`revision
      ensures RegGood(View()) && RegMoves(old(View()), View())
      ensures reason.Some? ==> View() == old(View())
      ensures reason.None? <==> old(TakesPolicy(p, maxPolicies))
      ensures reason.Some? ==>
                reason.value.code == if p.id == 0 then POLICY_ID_INVALID
                                     else if p.generation == 0 || PolicyPosition(policies, p.id) < |policies|
                                     then POLICY_GENERATION_INVALID
                                     else LIMIT_POLICIES
      ensures reason.None? ==>
                var i := PolicyPosition(old(policies), p.id);
                && policies == (if i < |old(policies)| then old(policies)[i := p] else old(policies) + [p])
                && revision == old(revision) + 1
    {
      if p.id == 0 { return Some(Reason(POLICY_ID_INVALID, 0, 0)); }
      if p.generation == 0 { return Some(Reason(POLICY_GENERATION_INVALID, 0, 0)); }
      var i := FindPolicyAt(p.id);
      if i < |policies| {
        if p.generation <= policies[i].generation {
          return Some(Reason(POLICY_GENERATION_INVALID, 0, policies[i].generation));
        }
        policies, revision := policies[i := p], revision + 1;
        return None;
      }
      if |policies| >= maxPolicies { return Some(Reason(LIMIT_POLICIES, 0, maxPolicies)); }
      policies, revision, reason := policies + [p], revision + 1, None;
    }

    /** Bump the generation of a profile in place; a generation at its maximum is not wrapped. */
    method AdvanceProfileGeneration(id: u64) returns (reason: Option<Reason>)
      requires RegGood(View())
      modifies this`profiles, this`revision
      ensures RegGood(View()) && RegMoves(old(View()), View())
      ensures reason.Some? ==> View() == old(View())
      ensures var i := ProfilePosition(old(profiles), id);
              && (reason.None? <==> i < |old(profiles)| && old(profiles)[i].generation < U64_MAX)
              && (reason.None? ==>
                    && profiles == old(profiles)[i := old(profiles)[i].(generation := old(profiles)[i].generation + 1)]
                    && revision == old(revision) + 1)
    {
      var i := FindProfileAt(id);
      if i == |profiles| { return Some(Reason(PROFILE_UNKNOWN, 0, id)); }
      if profiles[i].generation >= U64_MAX {
        return Some(Reason(PROFILE_GENERATION_INVALID, 0, profiles[i].generation));
      }
      profiles := profiles[i := profiles[i].(generation := profiles[i].generation + 1)];
      revision, reason := revision + 1, None;
    }

    /** Recovery only: put an entry back as recorded, without counting a change. */
    method RestoreProfile(p: Profile)
      modifies this`profiles
      ensures var i := ProfilePosition(old(profiles), p.id);
              profiles == if i < |old(profiles)| then old(profiles)[i := p] else old(profiles) + [p]
    {
      var i := FindProfileAt(p.id);
      profiles := if i < |profiles| then profiles[i := p] else profiles + [p];
    }

    method RestorePolicy(p: Policy)
      modifies this`policies
      ensures var i := PolicyPosition(old(policies), p.id);
              policies == if i < |old(policies)| then old(policies)[i := p] else old(policies) + [p]
    {
      var i := FindPolicyAt(p.id);
      policies := if i < |policies| then policies[i := p] else policies + [p];
    }
  }
}
