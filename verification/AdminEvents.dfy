/** What the four administrative events do to a list, in terms of states and fields (`src/store.cpp`). */
module SrfAdminEvents {
  import opened SrfTypes
  import opened SrfLifecycle
  import opened SrfStoreModel
  import opened SrfStoreLaws

  function EventTarget(e: LifecycleEvent): LifecycleState
    requires AdminEvent(e)
  {
    match e
    case WithdrawBegin => Withdrawing
    case WithdrawCommit => Withdrawn
    case Revoke => Revoked
    case Retire => Retired
  }

  /** The states each event is allowed in. */
  ghost predicate EventFrom(e: LifecycleEvent, s: LifecycleState) {
    match e
    case WithdrawBegin => s in {Declared, Validating, Active, RevalidationRequired}
    case WithdrawCommit => s == Withdrawing
    case Revoke => s !in {Revoked, Retired}
    case Retire => s != Retired
    case _ => false
  }

  lemma EventLeads(e: LifecycleEvent, s: LifecycleState)
    requires AdminEvent(e)
    ensures Transition(s, e) == if EventFrom(e, s) then Some(EventTarget(e)) else None
  {
    if EventFrom(e, s) {
      TransitionExactly(s, e, EventTarget(e));
    } else if Transition(s, e).Some? {
      TransitionExactly(s, e, Transition(s, e).value);
    }
  }

  /** The list an event leaves behind: the same revision in the new state, of unknown currentness, under the name of the
      caller and the number of the new store revision. */
  ghost predicate EventApplied(cfg: Config, s: DurableState, ctx: Context, e: LifecycleEvent, x: SegmentList,
                               y: SegmentList)
    requires AdminEvent(e)
  {
    && y.content == x.content && y.generation == x.generation && y.lineage == x.lineage && y.provenance == x.provenance
    && y.contentDigest == x.contentDigest && y.sequenceDigest == x.sequenceDigest
    && y.state == EventTarget(e) && y.currentness == Unknown && y.committedRevision == s.revision + 1
    && y.authority.publisher == ctx.caller.publisher && y.authority.boot == ctx.caller.boot
    && y.authority.epoch == ctx.authority.epoch && y.authority.attempt == ctx.caller.attempt
  }

  /** An event is refused exactly when the list is missing, has another generation, or is in a state the event is not
      allowed in; and otherwise it leaves that list in the state of the event and touches no other. */
  lemma EventOutcome(cfg: Config, s: DurableState, ctx: Context, id: u64, expected: u64, e: LifecycleEvent)
    requires UniqueIds(s.lists) && AdminEvent(e)
    ensures var x := FindList(s.lists, id);
            TransitionState(cfg, s, ctx, id, expected, e).Some? <==>
              x.Some? && x.value.generation == expected && EventFrom(e, x.value.state)
    ensures TransitionState(cfg, s, ctx, id, expected, e).Some? ==>
              var t := TransitionState(cfg, s, ctx, id, expected, e).value;
              && FindList(t.lists, id).Some?
              && EventApplied(cfg, s, ctx, e, FindList(s.lists, id).value, FindList(t.lists, id).value)
              && t.revision == s.revision + 1 && |t.lists| == |s.lists|
              && forall i :: 0 <= i < |s.lists| && s.lists[i].content.id != id ==> t.lists[i] == s.lists[i]
  {
    hide Transition; hide AppendHistory; hide RecordAttempt; hide TransitionRecord; hide EventFrom; hide EventTarget;
    var i := Position(s.lists, id);
    if i < |s.lists| {
      EventLeads(e, s.lists[i].state);
      if TransitionState(cfg, s, ctx, id, expected, e).Some? {
        var l := Transitioned(ctx, s.lists[i], EventTarget(e), s.revision + 1);
        NotActive(e);
        AppendKeeps(cfg, s.(revision := s.revision + 1, lists := s.lists[i := l]), l);
        FoundAt(s.lists[i := l], id, i);
      }
    }
  }

  /** The list is there, in this state. */
  predicate InState(ls: seq<SegmentList>, id: u64, s: LifecycleState) {
    var x := FindList(ls, id); x.Some? && x.value.state == s
  }

  /** The list is there at this generation, in a state the event is allowed in. */
  ghost predicate EventAllowed(ls: seq<SegmentList>, id: u64, expected: u64, e: LifecycleEvent) {
    var x := FindList(ls, id); x.Some? && x.value.generation == expected && EventFrom(e, x.value.state)
  }

  lemma EventStates(cfg: Config, s: DurableState, ctx: Context, id: u64, expected: u64, e: LifecycleEvent)
    requires UniqueIds(s.lists) && AdminEvent(e)
    ensures var t := TransitionState(cfg, s, ctx, id, expected, e);
            && (t.Some? <==> EventAllowed(s.lists, id, expected, e))
            && (t.Some? ==> InState(t.value.lists, id, EventTarget(e)))
  {
    hide TransitionState; hide EventFrom; hide EventTarget;
    EventOutcome(cfg, s, ctx, id, expected, e);
  }

  lemma NotActive(e: LifecycleEvent)
    requires AdminEvent(e)
    ensures EventTarget(e) != Active
  {}

  lemma AppendKeeps(cfg: Config, s: DurableState, l: SegmentList)
    ensures var t := AppendHistory(cfg.limits, s, l); t == s.(history := t.history)
  {}

  /** Withdrawal takes two events: once the first went through, the second is allowed on the same generation, and after
      it the list is withdrawn. */
  lemma WithdrawThenCommit(cfg: Config, s: DurableState, begin: Context, commit: Context, id: u64, expected: u64)
    requires UniqueIds(s.lists) && TransitionState(cfg, s, begin, id, expected, WithdrawBegin).Some?
    ensures var t := TransitionState(cfg, s, begin, id, expected, WithdrawBegin).value;
            && FindList(t.lists, id).Some? && FindList(t.lists, id).value.state == Withdrawing
            && TransitionState(cfg, t, commit, id, expected, WithdrawCommit).Some?
            && var u := TransitionState(cfg, t, commit, id, expected, WithdrawCommit).value;
               FindList(u.lists, id).Some? && FindList(u.lists, id).value.state == Withdrawn
  {
    hide TransitionState;
    EventOutcome(cfg, s, begin, id, expected, WithdrawBegin);
    var t := TransitionState(cfg, s, begin, id, expected, WithdrawBegin).value;
    StillUnique(s.lists, t.lists, id);
    EventOutcome(cfg, t, commit, id, expected, WithdrawCommit);
  }

  lemma StillUnique(a: seq<SegmentList>, b: seq<SegmentList>, id: u64)
    requires UniqueIds(a) && |a| == |b| && FindList(a, id).Some? && FindList(b, id).Some?
    requires forall i :: 0 <= i < |a| && a[i].content.id != id ==> b[i] == a[i]
    ensures UniqueIds(b)
  {
    var i := Position(a, id);
    assert forall k :: 0 <= k < |a| && k != i ==> a[k].content.id != id && b[k] == a[k];
    assert b[Position(b, id)].content.id == id;
  }

  /** What an event writes down: the list as it now is, at the end of the history unless ids are exhausted, and its own
      payload with that list and generation under its attempt. */
  lemma EventWritten(cfg: Config, s: DurableState, ctx: Context, id: u64, expected: u64, e: LifecycleEvent)
    requires UniqueIds(s.lists) && AdminEvent(e) && cfg.limits.maxHistory >= 1
    requires TransitionState(cfg, s, ctx, id, expected, e).Some?
    ensures var t := TransitionState(cfg, s, ctx, id, expected, e).value;
            var y := FindList(t.lists, id);
            && y.Some?
            && (NextHistoryId(s.history) != 0 ==>
                  && t.history != []
                  && var h := t.history[|t.history| - 1];
                     && h.id == NextHistoryId(s.history) && h.list == id && h.generation == expected
                     && h.state == EventTarget(e) && h.currentness == Unknown
                     && h.digest == y.value.contentDigest && h.revision == s.revision + 2)
            && (ctx.caller.attempt != 0 ==>
                  exists a :: a in t.attempts && a.attempt == ctx.caller.attempt && a.list == id
                              && a.generation == expected && a.committed
                              && a.payload == AdminDigest(cfg.digest, id, y.value.content.scope, expected))
  {
    hide Transition; hide EventFrom; hide AdminDigest; hide EventTarget;
    EventOutcome(cfg, s, ctx, id, expected, e);
    var i := Position(s.lists, id);
    EventLeads(e, s.lists[i].state);
    var l := Transitioned(ctx, s.lists[i], EventTarget(e), s.revision + 1);
    NotActive(e);
    FoundAt(s.lists[i := l], id, i);
    var s1 := AppendHistory(cfg.limits, s.(revision := s.revision + 1, lists := s.lists[i := l]), l);
    if ctx.caller.attempt != 0 {
      var r := TransitionRecord(cfg, ctx, l, expected);
      var k := AttemptPosition(s1.attempts, r.attempt);
      assert RecordAttempt(s1.attempts, r)[k] == r;
    }
  }
}
