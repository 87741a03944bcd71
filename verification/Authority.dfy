/** The epoch, the publishers and the permanently fenced worker boots (`src/authority.cpp`). */
module SrfAuthority {
  import opened SrfTypes
  import opened SrfReasons

  function PublisherPosition(ps: seq<Publisher>, id: u64): (i: nat)
    ensures i <= |ps|
    ensures i < |ps| ==> ps[i].id == id
    ensures forall k :: 0 <= k < i ==> ps[k].id != id
  {
    if ps == [] then 0 else if ps[0].id == id then 0 else 1 + PublisherPosition(ps[1..], id)
  }

  ghost predicate UniquePublishers(ps: seq<Publisher>) {
    forall i, j :: 0 <= i < j < |ps| ==> ps[i].id != ps[j].id
  }

  /** Ids are unique, ids and boots are valid, a publisher marked fenced has its boot in the fenced set,
      and a live one is not
      marked fenced. */
  ghost predicate AuthGood(a: Authority) {
    && UniquePublishers(a.publishers) && 0 !in a.fencedBoots
    && (forall i :: 0 <= i < |a.publishers| ==>
          var p := a.publishers[i];
          p.id != 0 && p.boot != 0 && (p.fenced ==> p.boot in a.fencedBoots) && (p.alive ==> !p.fenced))
  }

  /** How the table may move: the epoch never goes down, fences are never lifted, a publisher keeps its boot and stays
      fenced once it is. */
  ghost predicate AuthMoves(a: Authority, b: Authority) {
    && a.epoch <= b.epoch && (forall x :: x in a.fencedBoots ==> x in b.fencedBoots)
    && |a.publishers| <= |b.publishers|
    && (forall i :: 0 <= i < |a.publishers| ==>
          && b.publishers[i].id == a.publishers[i].id && b.publishers[i].boot == a.publishers[i].boot
          && (a.publishers[i].fenced ==> b.publishers[i].fenced))
  }

  lemma AuthMovesTrans(a: Authority, b: Authority, c: Authority)
    requires AuthMoves(a, b) && AuthMoves(b, c)
    ensures AuthMoves(a, c)
  {}

  /** The boots the table knows about, live or fenced. */
  ghost predicate KnowsBoot(publishers: seq<Publisher>, fenced: seq<u64>, boot: u64) {
    boot in fenced || exists p :: p in publishers && p.boot == boot
  }

  lemma KnownBootsStay(a: Authority, b: Authority, boot: u64)
    requires AuthMoves(a, b) && KnowsBoot(a.publishers, a.fencedBoots, boot)
    ensures KnowsBoot(b.publishers, b.fencedBoots, boot)
  {
    if boot !in a.fencedBoots {
      var p :| p in a.publishers && p.boot == boot;
      var i :| 0 <= i < |a.publishers| && a.publishers[i] == p;
      assert b.publishers[i] in b.publishers && b.publishers[i].boot == boot;
    }
  }

  /** A publisher that was ever marked fenced is never again live under any boot. */
  lemma FencedPublisherNeverReturns(a: Authority, b: Authority, p: Publisher, q: Publisher)
    requires AuthMoves(a, b) && AuthGood(b)
    requires p in a.publishers && p.fenced && q in b.publishers && q.id == p.id
    ensures q.boot == p.boot && q.fenced && !q.alive && q.boot in b.fencedBoots
  {
    var i :| 0 <= i < |a.publishers| && a.publishers[i] == p;
    var j :| 0 <= j < |b.publishers| && b.publishers[j] == q;
    assert i == j;
  }

  function AddBoot(fenced: seq<u64>, boot: u64): seq<u64> { if boot in fenced then fenced else fenced + [boot] }

  /** Every publisher running on `boot` is marked dead and fenced. */
  function FenceAll(ps: seq<Publisher>, boot: u64): (r: seq<Publisher>)
    ensures |r| == |ps|
    ensures forall i :: 0 <= i < |ps| ==>
              r[i] == if ps[i].boot == boot then ps[i].(fenced := true, alive := false) else ps[i]
  {
    seq(|ps|, i requires 0 <= i < |ps| =>
      if ps[i].boot == boot then ps[i].(fenced := true, alive := false) else ps[i])
  }

  lemma FencingMoves(a: Authority, boot: u64)
    requires AuthGood(a) && boot != 0
    ensures var b := Authority(a.epoch, FenceAll(a.publishers, boot), AddBoot(a.fencedBoots, boot));
            AuthGood(b) && AuthMoves(a, b)
  {}

  class AuthorityTable {
    var epoch: u64
    var publishers: seq<Publisher>
    var fencedBoots: seq<u64>

    constructor ()
      ensures View() == Authority(0, [], []) && AuthGood(View())
    {
      epoch, publishers, fencedBoots := 0, [], [];
    }

    function View(): Authority reads this { Authority(epoch, publishers, fencedBoots) }

    /** The counter does not wrap: at the maximum it stays where it is and says so. */
    method AdvanceEpoch() returns (ok: bool)
      requires AuthGood(View())
      modifies this`epoch
      ensures ok == (old(epoch) < U64_MAX)
      ensures epoch == if ok then old(epoch) + 1 else old(epoch)
      ensures AuthGood(View()) && AuthMoves(old(View()), View())
    {
      ok := epoch < U64_MAX;
      if ok { epoch := epoch + 1; }
    }

    method RestoreEpoch(e: u64) returns (ok: bool)
      requires AuthGood(View())
      modifies this`epoch
      ensures ok == (e != 0 && e >= old(epoch))
      ensures epoch == if ok then e else old(epoch)
      ensures AuthGood(View()) && AuthMoves(old(View()), View())
    {
      ok := e != 0 && e >= epoch;
      if ok { epoch := e; }
    }

    method FindPosition(id: u64) returns (i: nat)
      ensures i == PublisherPosition(publishers, id)
    {
      i := 0;
      while i < |publishers| && publishers[i].id != id
        invariant i <= |publishers| && forall k :: 0 <= k < i ==> publishers[k].id != id
      {
        i := i + 1;
      }
    }

    /** Announce a boot for a publisher.  A fenced boot is refused for good,
        and a known publisher never changes boot. */
    method RegisterPublisher(id: u64, boot: u64, scope: u64, at: u64, maxPublishers: u32)
      returns (reason: Option<Reason>)
      requires AuthGood(View())
      modifies this`publishers
      ensures AuthGood(View()) && AuthMoves(old(View()), View())
      ensures reason.Some? ==> publishers == old(publishers)
      ensures reason.None? <==>
              && id != 0 && boot != 0 && scope != 0 && at != 0 && at == epoch && boot !in fencedBoots
              && (var i := PublisherPosition(old(publishers), id);
                  if i < |old(publishers)| then old(publishers)[i].boot == boot
                  else |old(publishers)| < maxPublishers)
      ensures reason.Some? ==>
                reason.value.code == if id == 0 then CALLER_MISSING_PUBLISHER
                                     else if boot == 0 then CALLER_MISSING_BOOT
                                     else if scope == 0 then CALLER_MISSING_SCOPE
                                     else if at == 0 then EPOCH_INVALID
                                     else if at != epoch then EPOCH_STALE
                                     else if boot in fencedBoots then BOOT_ALREADY_FENCED
                                     else if PublisherPosition(publishers, id) < |publishers| then CALLER_STALE_BOOT
                                     else LIMIT_PUBLISHERS
      ensures reason.None? ==>
                var p, i := Publisher(id, boot, scope, at, true, false), PublisherPosition(old(publishers), id);
                publishers == if i < |old(publishers)| then old(publishers)[i := p] else old(publishers) + [p]
    {
      if id == 0 { return Some(Reason(CALLER_MISSING_PUBLISHER, 0, 0)); }
      if boot == 0 { return Some(Reason(CALLER_MISSING_BOOT, 0, 0)); }
      if scope == 0 { return Some(Reason(CALLER_MISSING_SCOPE, 0, 0)); }
      if at == 0 { return Some(Reason(EPOCH_INVALID, 0, 0)); }
      if at != epoch { return Some(Reason(EPOCH_STALE, 0, at)); }
      if boot in fencedBoots { return Some(Reason(BOOT_ALREADY_FENCED, 0, boot)); }
      var i := FindPosition(id);
      if i < |publishers| {
        if publishers[i].boot != boot { return Some(Reason(CALLER_STALE_BOOT, 0, publishers[i].boot)); }
        publishers := publishers[i := publishers[i].(scope := scope, epoch := at, alive := true, fenced := false)];
        return None;
      }
      if |publishers| >= maxPublishers { return Some(Reason(LIMIT_PUBLISHERS, 0, maxPublishers)); }
      publishers := publishers + [Publisher(id, boot, scope, at, true, false)];
      reason := None;
    }

    /** Only an unfenced publisher on its own boot in the current epoch is kept alive. */
    method Heartbeat(id: u64, boot: u64, at: u64) returns (reason: Option<Reason>)
      requires AuthGood(View())
      modifies this`publishers
      ensures AuthGood(View()) && AuthMoves(old(View()), View())
      ensures reason.Some? ==> publishers == old(publishers)
      ensures reason.None? <==>
              var i := PublisherPosition(old(publishers), id);
              && id != 0 && boot != 0 && at == epoch && i < |old(publishers)|
              && old(publishers)[i].boot == boot && !old(publishers)[i].fenced && boot !in fencedBoots
      ensures reason.None? ==>
                var i := PublisherPosition(old(publishers), id);
                publishers == old(publishers)[i := old(publishers)[i].(alive := true)]
      ensures reason.Some? ==>
                var i := PublisherPosition(publishers, id);
                reason.value.code == if id == 0 then CALLER_MISSING_PUBLISHER
                                     else if boot == 0 then CALLER_MISSING_BOOT
                                     else if at != epoch then EPOCH_STALE
                                     else if i == |publishers| then CALLER_UNKNOWN_PUBLISHER
                                     else if publishers[i].boot != boot then CALLER_STALE_BOOT
                                     else CALLER_FENCED_PUBLISHER
    {
      if id == 0 { return Some(Reason(CALLER_MISSING_PUBLISHER, 0, 0)); }
      if boot == 0 { return Some(Reason(CALLER_MISSING_BOOT, 0, 0)); }
      if at != epoch { return Some(Reason(EPOCH_STALE, 0, at)); }
      var i := FindPosition(id);
      if i == |publishers| { return Some(Reason(CALLER_UNKNOWN_PUBLISHER, 0, id)); }
      if publishers[i].boot != boot { return Some(Reason(CALLER_STALE_BOOT, 0, publishers[i].boot)); }
      if publishers[i].fenced || boot in fencedBoots { return Some(Reason(CALLER_FENCED_PUBLISHER, 0, boot)); }
      publishers := publishers[i := publishers[i].(alive := true)];
      reason := None;
    }

    method MarkDead(id: u64) returns (reason: Option<Reason>)
      requires AuthGood(View())
      modifies this`publishers, this`fencedBoots
      ensures AuthGood(View()) && AuthMoves(old(View()), View())
      ensures var i := PublisherPosition(old(publishers), id);
              if i < |old(publishers)| then
                && reason.None?
                && publishers == old(publishers)[i := old(publishers)[i].(alive := false, fenced := true)]
                && fencedBoots == AddBoot(old(fencedBoots), old(publishers)[i].boot)
              else reason == Some(Reason(CALLER_UNKNOWN_PUBLISHER, 0, id)) && View() == old(View())
    {
      var i := FindPosition(id);
      if i == |publishers| { return Some(Reason(CALLER_UNKNOWN_PUBLISHER, 0, id)); }
      var boot := publishers[i].boot;
      publishers := publishers[i := publishers[i].(alive := false, fenced := true)];
      if boot !in fencedBoots { fencedBoots := fencedBoots + [boot]; }
      reason := None;
    }

    /** Fence a boot whether or not a publisher runs on it. */
    method FenceBoot(boot: u64) returns (reason: Option<Reason>)
      requires AuthGood(View())
      modifies this`publishers, this`fencedBoots
      ensures AuthGood(View()) && AuthMoves(old(View()), View())
      ensures boot == 0 ==> reason == Some(Reason(CALLER_MISSING_BOOT, 0, 0)) && View() == old(View())
      ensures boot != 0 ==> reason.None? && publishers == FenceAll(old(publishers), boot)
                            && fencedBoots == AddBoot(old(fencedBoots), boot) && boot in fencedBoots
    {
      if boot == 0 { return Some(Reason(CALLER_MISSING_BOOT, 0, 0)); }
      FencingMoves(View(), boot);
      if boot !in fencedBoots { fencedBoots := fencedBoots + [boot]; }
      FenceRunningOn(boot);
      reason := None;
    }

    method FenceRunningOn(boot: u64)
      modifies this`publishers
      ensures publishers == FenceAll(old(publishers), boot)
    {
      var was := publishers;
      for i := 0 to |was|
        modifies this`publishers
        invariant |publishers| == |was| && forall k :: i <= k < |was| ==> publishers[k] == was[k]
        invariant forall k :: 0 <= k < i ==> publishers[k] == FenceAll(was, boot)[k]
      {
        if publishers[i].boot == boot {
          publishers := publishers[i := publishers[i].(fenced := true, alive := false)];
        }
      }
    }

    method IsFenced(boot: u64) returns (fenced: bool)
      ensures fenced == (boot in fencedBoots)
    {
      fenced := boot in fencedBoots;
    }

    /** Recovery only: put a publisher back as recorded, replacing the record of the same id. */
    method RestorePublisher(p: Publisher)
      modifies this`publishers
      ensures var i := PublisherPosition(old(publishers), p.id);
              publishers == if i < |old(publishers)| then old(publishers)[i := p] else old(publishers) + [p]
    {
      var i := FindPosition(p.id);
      publishers := if i < |publishers| then publishers[i := p] else publishers + [p];
    }

    method RestoreFencedBoot(boot: u64)
      modifies this`fencedBoots
      ensures fencedBoots == AddBoot(old(fencedBoots), boot)
    {
      if boot !in fencedBoots { fencedBoots := fencedBoots + [boot]; }
    }
  }
}
