/** Restarting from a durable image: `load()` on a fresh store (`src/store.cpp`). */
module SrfRecovery {
  import opened SrfTypes
  import opened SrfLifecycle
  import opened SrfAuthority
  import opened SrfRegistry
  import opened SrfStoreLaws

  /** Nothing is active after a restart. */
  function RecoverList(l: SegmentList): SegmentList {
    var next := Transition(l.state, RecoveryLoad);
    var state := if next.Some? then next.value else RevalidationRequired;
    l.(state := state, currentness := if state == RevalidationRequired then NeedsRevalidation else Unknown)
  }

  function RecoverLists(ls: seq<SegmentList>): (r: seq<SegmentList>)
    ensures |r| == |ls| && forall i :: 0 <= i < |ls| ==> r[i] == RecoverList(ls[i])
  {
    seq(|ls|, i requires 0 <= i < |ls| => RecoverList(ls[i]))
  }

  function PutPublisher(ps: seq<Publisher>, p: Publisher): seq<Publisher> {
    var i := PublisherPosition(ps, p.id);
    if i < |ps| then ps[i := p] else ps + [p]
  }

  /** Put recorded publishers back on top of those already there; none of them is alive. */
  function PublishersOnto(base: seq<Publisher>, ps: seq<Publisher>): seq<Publisher> {
    if ps == [] then base
    else PutPublisher(PublishersOnto(base, ps[..|ps| - 1]), ps[|ps| - 1].(alive := false, fenced := true))
  }
  function RestorePublishers(ps: seq<Publisher>): seq<Publisher> { PublishersOnto([], ps) }

  function BootsOnto(fenced: seq<u64>, ps: seq<Publisher>): seq<u64> {
    if ps == [] then fenced
    else
      var rest, boot := BootsOnto(fenced, ps[..|ps| - 1]), ps[|ps| - 1].boot;
      if boot != 0 then AddBoot(rest, boot) else rest
  }
  function RestoreBoots(ps: seq<Publisher>): seq<u64> { BootsOnto([], ps) }

  function AddBoots(fenced: seq<u64>, boots: seq<u64>): seq<u64> {
    if boots == [] then fenced else AddBoot(AddBoots(fenced, boots[..|boots| - 1]), boots[|boots| - 1])
  }

  function PutProfile(ps: seq<Profile>, p: Profile): seq<Profile> {
    var i := ProfilePosition(ps, p.id);
    if i < |ps| then ps[i := p] else ps + [p]
  }
  function ProfilesOnto(base: seq<Profile>, ps: seq<Profile>): seq<Profile> {
    if ps == [] then base else PutProfile(ProfilesOnto(base, ps[..|ps| - 1]), ps[|ps| - 1])
  }
  function RestoreProfiles(ps: seq<Profile>): seq<Profile> { ProfilesOnto([], ps) }

  function PutPolicy(ps: seq<Policy>, p: Policy): seq<Policy> {
    var i := PolicyPosition(ps, p.id);
    if i < |ps| then ps[i := p] else ps + [p]
  }
  function PoliciesOnto(base: seq<Policy>, ps: seq<Policy>): seq<Policy> {
    if ps == [] then base else PutPolicy(PoliciesOnto(base, ps[..|ps| - 1]), ps[|ps| - 1])
  }
  function RestorePolicies(ps: seq<Policy>): seq<Policy> { PoliciesOnto([], ps) }

  datatype Restarted = Restarted(st: DurableState, reg: Registry, auth: Authority)

  /** The epoch the image was written under, or the initial one. */
  function BaseEpoch(image: DurableState): u64 { if image.epoch != 0 then image.epoch else 1 }

  /** A fresh store after loading `image`; nothing when the epoch cannot advance. */
  function Restart(image: DurableState): Option<Restarted> {
    if BaseEpoch(image) == U64_MAX then None
    else
      var auth := Authority(BaseEpoch(image) + 1, RestorePublishers(image.publishers),
                            AddBoots(RestoreBoots(image.publishers), image.fencedBoots));
      var reg := Registry(RestoreProfiles(image.profiles), RestorePolicies(image.policies), 0);
      var st := image.(profiles := reg.profiles, policies := reg.policies, publishers := auth.publishers,
                       fencedBoots := auth.fencedBoots, lists := RecoverLists(image.lists), epoch := auth.epoch,
                       revision := image.revision + 1);
      Some(Restarted(st, reg, auth))
  }

  /** A store that already holds something after loading `image`: its own tables stay under those of the image, and the
      new epoch is above both. */
  function LoadInto(was: Restarted, image: DurableState): Option<Restarted> {
    var base := if was.auth.epoch > BaseEpoch(image) then was.auth.epoch else BaseEpoch(image);
    if base == U64_MAX then None
    else
      var auth := Authority(base + 1, PublishersOnto(was.auth.publishers, image.publishers),
                            AddBoots(BootsOnto(was.auth.fencedBoots, image.publishers), image.fencedBoots));
      var reg := Registry(ProfilesOnto(was.reg.profiles, image.profiles),
                          PoliciesOnto(was.reg.policies, image.policies),
                          was.reg.revision);
      var st := image.(profiles := reg.profiles, policies := reg.policies, publishers := auth.publishers,
                       fencedBoots := auth.fencedBoots, lists := RecoverLists(image.lists), epoch := auth.epoch,
                       revision := was.st.revision + image.revision + 1);
      Some(Restarted(st, reg, auth))
  }

  const FRESH_STATE := DurableState(1, 0, [], [], [], [], [], [], [])

  /** A store nothing was ever saved for. */
  const FRESH := Restarted(FRESH_STATE, Registry([], [], 0), Authority(1, [], []))

  // ------------------------------------------------------------------- laws

  /** A restart is a load into a store nothing was ever saved for. */
  lemma RestartIsLoad(image: DurableState)
    ensures Restart(image) == LoadInto(FRESH, image)
  {}

  lemma {:induction false} BootsLoaded(fenced: seq<u64>, ps: seq<Publisher>)
    ensures forall b :: b in BootsOnto(fenced, ps) <==> b in fenced || (b != 0 && exists p :: p in ps && p.boot == b)
  {
    if ps != [] {
      var n := |ps| - 1;
      BootsLoaded(fenced, ps[..n]);
      assert forall p :: p in ps <==> p in ps[..n] || p == ps[n];
    }
  }

  lemma {:induction false} PublishersLoaded(base: seq<Publisher>, ps: seq<Publisher>)
    requires UniquePublishers(base)
    ensures UniquePublishers(PublishersOnto(base, ps))
    ensures forall q :: q in PublishersOnto(base, ps) ==>
              (q.fenced && !q.alive) || (q in base && forall p :: p in ps ==> p.id != q.id)
  {
    if ps != [] {
      var n := |ps| - 1;
      PublishersLoaded(base, ps[..n]);
      var was, dead := PublishersOnto(base, ps[..n]), ps[n].(alive := false, fenced := true);
      var now := PutPublisher(was, dead);
      var i := PublisherPosition(was, dead.id);
      assert now[i] == dead && UniquePublishers(now);
      forall q | q in now && q != dead ensures q in was && q.id != dead.id {
        var k :| 0 <= k < |now| && now[k] == q;
        assert k != i;
      }
      assert forall p :: p in ps ==> p in ps[..n] || p == ps[n];
    }
  }

  /** Whatever was there before, a load raises the epoch above both the authority's and the image's, fences every boot
      the image knows, lifts no fence, and leaves no list active. */
  lemma LoadRaisesAndFences(was: Restarted, image: DurableState)
    requires LoadInto(was, image).Some? && UniquePublishers(was.auth.publishers)
    ensures var now := LoadInto(was, image).value;
            && now.auth.epoch > was.auth.epoch && now.auth.epoch > image.epoch && now.st.epoch == now.auth.epoch
            && (forall b :: b != 0 ==> (b in now.auth.fencedBoots <==>
                  b in was.auth.fencedBoots || KnowsBoot(image.publishers, image.fencedBoots, b)))
            && (forall q :: q in now.auth.publishers && (exists p :: p in image.publishers && p.id == q.id) ==>
                  q.fenced && !q.alive)
            && |now.st.lists| == |image.lists|
            && forall i :: 0 <= i < |image.lists| ==>
                 SameRevision(image.lists[i], now.st.lists[i]) && now.st.lists[i].state != Active
  {
    BootsLoaded(was.auth.fencedBoots, image.publishers);
    PublishersLoaded(was.auth.publishers, image.publishers);
    AddedBoots(BootsOnto(was.auth.fencedBoots, image.publishers), image.fencedBoots);
    forall i | 0 <= i < |image.lists|
      ensures SameRevision(image.lists[i], RecoverLists(image.lists)[i]) && RecoverLists(image.lists)[i].state != Active
    {
      RecoverIsClosedStep(image.lists[i]);
    }
  }

  lemma RecoverIsClosedStep(l: SegmentList)
    ensures SameRevision(l, RecoverList(l)) && RecoverList(l).authority == l.authority
    ensures RecoverList(l).state != Active && (Closed(l.state) ==> Closed(RecoverList(l).state))
    ensures RecoverList(RecoverList(l)) == RecoverList(l)
  {}

  lemma {:induction false} RestoredPublishers(ps: seq<Publisher>)
    ensures UniquePublishers(RestorePublishers(ps)) && |RestorePublishers(ps)| <= |ps|
    ensures forall q :: q in RestorePublishers(ps) ==>
              q.fenced && !q.alive && exists p :: p in ps && p.id == q.id && p.boot == q.boot
  {
    if ps != [] {
      var n := |ps| - 1;
      RestoredPublishers(ps[..n]);
      var dead := ps[n].(alive := false, fenced := true);
      var was := RestorePublishers(ps[..n]);
      assert ps[n] in ps;
      forall q | q in PutPublisher(was, dead)
        ensures q.fenced && !q.alive && exists p :: p in ps && p.id == q.id && p.boot == q.boot
      {
        if q in was {
          var p :| p in ps[..n] && p.id == q.id && p.boot == q.boot;
          assert p in ps;
        } else {
          assert q == dead;
        }
      }
    }
  }

  lemma {:induction false} RestoredBoots(ps: seq<Publisher>)
    ensures forall p :: p in ps && p.boot != 0 ==> p.boot in RestoreBoots(ps)
    ensures 0 !in RestoreBoots(ps)
  {
    if ps != [] {
      var n := |ps| - 1;
      RestoredBoots(ps[..n]);
      assert forall p :: p in ps ==> p in ps[..n] || p == ps[n];
    }
  }

  lemma {:induction false} AddedBoots(fenced: seq<u64>, boots: seq<u64>)
    ensures forall b :: b in AddBoots(fenced, boots) <==> b in fenced || b in boots
  {
    if boots != [] {
      var n := |boots| - 1;
      AddedBoots(fenced, boots[..n]);
      assert forall b :: b in boots ==> b in boots[..n] || b == boots[n];
    }
  }

  /** The authority table after a restart: every recorded boot fenced, nobody alive. */
  lemma RestartFences(image: DurableState)
    requires Restart(image).Some? && 0 !in image.fencedBoots
    requires forall p :: p in image.publishers ==> p.id != 0 && p.boot != 0
    ensures AuthGood(Restart(image).value.auth)
    ensures forall b ::
              KnowsBoot(image.publishers, image.fencedBoots, b) <==> b in Restart(image).value.auth.fencedBoots
    ensures forall p :: p in Restart(image).value.auth.publishers ==> !p.alive && p.fenced
  {
    var ps, boots := image.publishers, RestoreBoots(image.publishers);
    RestoredPublishers(ps);
    RestoredBoots(ps);
    BootsLoaded([], ps);
    AddedBoots(boots, image.fencedBoots);
    var a := Restart(image).value.auth;
    forall i | 0 <= i < |a.publishers|
      ensures a.publishers[i].id != 0 && a.publishers[i].boot != 0 && a.publishers[i].boot in a.fencedBoots
    {
      var q := a.publishers[i];
      assert q in a.publishers;
      var p :| p in ps && p.id == q.id && p.boot == q.boot;
    }
  }

  lemma {:induction false} RestoredProfiles(ps: seq<Profile>)
    requires UniqueProfiles(ps)
    ensures RestoreProfiles(ps) == ps
  {
    if ps != [] {
      var n := |ps| - 1;
      RestoredProfiles(ps[..n]);
      assert ps[..n] + [ps[n]] == ps;
    }
  }

  lemma {:induction false} RestoredPolicies(ps: seq<Policy>)
    requires UniquePolicies(ps)
    ensures RestorePolicies(ps) == ps
  {
    if ps != [] {
      var n := |ps| - 1;
      RestoredPolicies(ps[..n]);
      assert ps[..n] + [ps[n]] == ps;
    }
  }

  /** The publishers of a table, each of them dead. */
  function Dead(ps: seq<Publisher>): (r: seq<Publisher>)
    ensures |r| == |ps| && forall i :: 0 <= i < |ps| ==> r[i] == ps[i].(alive := false, fenced := true)
  {
    seq(|ps|, i requires 0 <= i < |ps| => ps[i].(alive := false, fenced := true))
  }

  lemma {:induction false} PublishersReturnDead(ps: seq<Publisher>)
    requires UniquePublishers(ps)
    ensures RestorePublishers(ps) == Dead(ps)
  {
    if ps != [] {
      var n := |ps| - 1;
      PublishersReturnDead(ps[..n]);
      var was := Dead(ps[..n]);
      assert PublisherPosition(was, ps[n].id) == n by {
        assert forall i :: 0 <= i < n ==> was[i].id == ps[i].id != ps[n].id;
      }
      assert Dead(ps) == was + [Dead(ps)[n]];
    }
  }
}
