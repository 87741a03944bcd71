/** What applying a validated batch, or one administrative event, does to a whole state. */
module SrfCommitLaws {
  import opened SrfTypes
  import opened SrfBytes
  import opened SrfLifecycle
  import opened SrfCanonical
  import opened SrfStoreModel
  import opened SrfStoreLaws

  // ------------------------------------------------------------------ history

  /** The last `n` entries. */
  function Tail(h: seq<HistoryEntry>, n: nat): (t: seq<HistoryEntry>)
    ensures |t| == if |h| < n then |h| else n
  {
    if |h| <= n then h else h[|h| - n..]
  }

  ghost predicate Consecutive(h: seq<HistoryEntry>) {
    forall i :: 0 < i < |h| ==> h[i].id == h[i - 1].id + 1
  }

  /** `b` is what a window of `max` entries retains of `a` followed by consecutive later entries. */
  ghost predicate HistoryStep(max: nat, a: seq<HistoryEntry>, b: seq<HistoryEntry>) {
    exists more: seq<HistoryEntry> :: b == Tail(a + more, max) && Consecutive(a + more)
  }

  lemma HistoryRefl(max: nat, a: seq<HistoryEntry>)
    requires Consecutive(a) && |a| <= max
    ensures HistoryStep(max, a, a)
  {
    assert a + [] == a;
    assert a == Tail(a + [], max);
  }

  lemma HistoryTrans(max: nat, a: seq<HistoryEntry>, b: seq<HistoryEntry>, c: seq<HistoryEntry>)
    requires max >= 1 && HistoryStep(max, a, b) && HistoryStep(max, b, c)
    ensures HistoryStep(max, a, c)
  {
    var m1: seq<HistoryEntry> :| b == Tail(a + m1, max) && Consecutive(a + m1);
    var m2: seq<HistoryEntry> :| c == Tail(b + m2, max) && Consecutive(b + m2);
    assert a + (m1 + m2) == (a + m1) + m2;
    TailTail(a + m1, m2, max);
    ConsecutiveJoin(a + m1, m2, max);
  }

  lemma TailTail(x: seq<HistoryEntry>, m: seq<HistoryEntry>, max: nat)
    ensures Tail(Tail(x, max) + m, max) == Tail(x + m, max)
  {}

  lemma ConsecutiveJoin(x: seq<HistoryEntry>, m: seq<HistoryEntry>, max: nat)
    requires max >= 1 && Consecutive(x) && Consecutive(Tail(x, max) + m)
    ensures Consecutive(x + m)
  {
    var b, whole := Tail(x, max), x + m;
    forall i | 0 < i < |whole| ensures whole[i].id == whole[i - 1].id + 1 {
      if i >= |x| {
        var k := i - |x| + |b|;
        assert (b + m)[k] == whole[i];
        if k > 0 { assert (b + m)[k - 1] == whole[i - 1]; }
      }
    }
  }

  lemma AppendIsHistoryStep(lim: Limits, s: DurableState, l: SegmentList)
    requires lim.maxHistory >= 1 && Consecutive(s.history) && |s.history| <= lim.maxHistory
    ensures HistoryStep(lim.maxHistory, s.history, AppendHistory(lim, s, l).history)
    ensures Consecutive(AppendHistory(lim, s, l).history) && |AppendHistory(lim, s, l).history| <= lim.maxHistory
    ensures NextHistoryId(s.history) != 0 ==>
              HistoryOf(s, l, NextHistoryId(s.history)) in AppendHistory(lim, s, l).history
  {
    var id := NextHistoryId(s.history);
    if id == 0 {
      HistoryRefl(lim.maxHistory, s.history);
    } else {
      var more := [HistoryOf(s, l, id)];
      var all := s.history + more;
      assert Consecutive(all);
      assert AppendHistory(lim, s, l).history == Tail(all, lim.maxHistory);
    }
  }

  ghost predicate HistoryGood(lim: Limits, s: DurableState) {
    Consecutive(s.history) && |s.history| <= lim.maxHistory
  }

  // ----------------------------------------------------------------- attempts

  ghost predicate UniqueAttempts(rs: seq<Attempt>) {
    forall i, j :: 0 <= i < j < |rs| ==> rs[i].attempt != rs[j].attempt
  }

  /** The record of an attempt: its payload, if there is one. */
  function AttemptPayload(rs: seq<Attempt>, attempt: u64): Option<Digest> {
    var i := AttemptPosition(rs, attempt);
    if i < |rs| then Some(rs[i].payload) else None
  }

  lemma DraftTag(d: Draft)
    ensures DraftBytes(d) != [] && DraftBytes(d)[0] == 0x01
  {
    hide Words; hide MaxPayload; hide DraftSegmentBytes;
    var head := DraftHead(d);
    assert head == [head[0]] + head[1..] && head[0] == Num(2, 0xD101);
    FlatConcat([head[0]], head[1..]);
    hide Flat;
    TagBytes(0xD101);
  }

  lemma TagBytes(v: u16)
    ensures Flat([Num(2, v)]) == LE(v, 2) && LE(v, 2)[0] == v % 0x100
  {
    assert [Num(2, v)][..0] == [];
    assert LE(v, 2) == [v % 256] + LE(v / 256, 1);
  }

  lemma {:induction false} BatchTag(dg: DigestFn, ds: seq<Draft>)
    ensures DigestWords(dg, ds) != [] && DigestWords(dg, ds)[0] == 0x02
  {
    hide DraftBytes;
    if ds == [] { TagBytes(0xD102); } else { BatchTag(dg, ds[..|ds| - 1]); }
  }

  /** A batch and an administrative event never put the same bytes through the digest: what one leaves on record answers
      to the other only if the digest collides. */
  lemma PayloadsDiffer(dg: DigestFn, event: Draft, ds: seq<Draft>)
    ensures DraftBytes(event) != DigestWords(dg, ds)
  {
    DraftTag(event);
    BatchTag(dg, ds);
  }

  /** The attempt table afterwards, exactly: `own` under its attempt, and under any other what was there before. */
  ghost predicate RecordsStep(a: seq<Attempt>, b: seq<Attempt>, own: Option<(u64, Digest)>) {
    forall x: u64 :: AttemptPayload(b, x) == RecordedBy(own, x, AttemptPayload(a, x))
  }

  /** What is on record for `x` once `own` was recorded over `before`. */
  function RecordedBy(own: Option<(u64, Digest)>, x: u64, before: Option<Digest>): Option<Digest> {
    if own.Some? && own.value.0 == x then Some(own.value.1) else before
  }

  /** The payload an administrative event on the list `id` puts on record. */
  function AdminPayload(cfg: Config, ls: seq<SegmentList>, id: u64, expected: u64): Digest {
    var x := FindList(ls, id);
    AdminDigest(cfg.digest, id, if x.Some? then x.value.content.scope else 0, expected)
  }

  /** What it records, and nothing without an attempt id. */
  function AdminRecord(cfg: Config, ls: seq<SegmentList>, attempt: u64, id: u64, expected: u64): Option<(u64, Digest)> {
    if attempt == 0 then None else Some((attempt, AdminPayload(cfg, ls, id, expected)))
  }

  lemma RecordLaws(rs: seq<Attempt>, r: Attempt, other: u64)
    requires UniqueAttempts(rs)
    ensures UniqueAttempts(RecordAttempt(rs, r))
    ensures AttemptPayload(RecordAttempt(rs, r), r.attempt) == Some(r.payload)
    ensures other != r.attempt ==> AttemptPayload(RecordAttempt(rs, r), other) == AttemptPayload(rs, other)
    ensures |RecordAttempt(rs, r)| == |rs| + (if AttemptPosition(rs, r.attempt) == |rs| then 1 else 0)
  {
    var t := RecordAttempt(rs, r);
    var i, j := AttemptPosition(t, r.attempt), AttemptPosition(rs, r.attempt);
    assert t[j] == r;
    assert i <= j;
    var k, m := AttemptPosition(rs, other), AttemptPosition(t, other);
    if other != r.attempt {
      if k < |rs| { assert t[k] == rs[k]; assert m <= k; }
      if m < |t| { assert m < |rs| && rs[m] == t[m]; assert k <= m; }
    }
  }

  // ------------------------------------------------------------- one mutation

  /** A list after it was marked superseded inside a batch. */
  ghost predicate MarkedSuperseded(x: SegmentList, y: SegmentList) {
    && SameRevision(x, y) && y.authority == x.authority && y.state == Superseded && y.currentness == Unknown
    && y.content.id == x.content.id
  }

  ghost predicate Became(x: SegmentList, y: SegmentList) { y == x || MarkedSuperseded(x, y) }

  ghost predicate Placed(pms: seq<Prepared>, y: SegmentList) {
    exists k :: 0 <= k < |pms| && pms[k].id == y.content.id && Became(pms[k].list, y)
  }

  /** Where a state stands after part of a batch was applied to the lists `was`. */
  ghost predicate Applied(was: seq<SegmentList>, pms: seq<Prepared>, cur: seq<SegmentList>) {
    && |was| <= |cur| && UniqueIds(cur)
    && (forall i :: 0 <= i < |was| ==>
          cur[i].content.id == was[i].content.id && (Became(was[i], cur[i]) || Placed(pms, cur[i])))
    && (forall i :: |was| <= i < |cur| ==> Placed(pms, cur[i]))
  }

  ghost predicate Named(pms: seq<Prepared>) {
    forall k :: 0 <= k < |pms| ==> pms[k].list.content.id == pms[k].id
  }

  lemma BecameMarked(x: SegmentList, y: SegmentList, z: SegmentList)
    requires Became(x, y) && MarkedSuperseded(y, z)
    ensures Became(x, z)
  {}

  lemma PlacedMore(pms: seq<Prepared>, pm: Prepared, y: SegmentList)
    requires Placed(pms, y)
    ensures Placed(pms + [pm], y)
  {
    var k :| 0 <= k < |pms| && pms[k].id == y.content.id && Became(pms[k].list, y);
    assert (pms + [pm])[k] == pms[k];
  }

  lemma SupersedeLaws(lim: Limits, s: DurableState, target: u64, heir: u64, was: seq<SegmentList>, pms: seq<Prepared>)
    requires lim.maxHistory >= 1 && HistoryGood(lim, s)
    requires Applied(was, pms, s.lists) && Supersede(lim, s, target, heir).Some?
    ensures var t := Supersede(lim, s, target, heir).value;
            && Applied(was, pms, t.lists) && |t.lists| == |s.lists|
            && t == s.(lists := t.lists, history := t.history)
            && HistoryGood(lim, t) && HistoryStep(lim.maxHistory, s.history, t.history)
            && (forall i :: 0 <= i < |s.lists| ==> s.lists[i].content.id != target ==> t.lists[i] == s.lists[i])
  {
    hide HistoryStep; hide Consecutive; hide Tail; hide Placed; hide Applied;
    SupersedeHistory(lim, s, target, heir);
    var i := Position(s.lists, target);
    if i < |s.lists| {
      var other := s.lists[i].(state := Superseded, lineage := s.lists[i].lineage.(supersededBy := heir),
                               currentness := Unknown, committedRevision := s.revision);
      assert MarkedSuperseded(s.lists[i], other);
      AppliedMark(was, pms, s.lists, i, other);
    }
  }

  lemma SupersedeHistory(lim: Limits, s: DurableState, target: u64, heir: u64)
    requires lim.maxHistory >= 1 && HistoryGood(lim, s) && Supersede(lim, s, target, heir).Some?
    ensures var t := Supersede(lim, s, target, heir).value;
            t == s.(lists := t.lists, history := t.history)
            && HistoryGood(lim, t) && HistoryStep(lim.maxHistory, s.history, t.history)
  {
    hide Transition; hide Tail; hide HistoryStep; hide Consecutive;
    var i := Position(s.lists, target);
    if i < |s.lists| {
      var next := Transition(s.lists[i].state, SupersedeBegin).value;
      var other := s.lists[i].(state := next, lineage := s.lists[i].lineage.(supersededBy := heir),
                               currentness := Unknown, committedRevision := s.revision);
      AppendIsHistoryStep(lim, s.(lists := s.lists[i := other]), other);
    } else {
      HistoryRefl(lim.maxHistory, s.history);
    }
  }

  lemma AppliedMark(was: seq<SegmentList>, pms: seq<Prepared>, cur: seq<SegmentList>, i: nat, y: SegmentList)
    requires Applied(was, pms, cur) && i < |cur| && MarkedSuperseded(cur[i], y)
    ensures Applied(was, pms, cur[i := y])
  {
    if Placed(pms, cur[i]) {
      var k :| 0 <= k < |pms| && pms[k].id == cur[i].content.id && Became(pms[k].list, cur[i]);
      BecameMarked(pms[k].list, cur[i], y);
      assert Placed(pms, y);
    } else {
      BecameMarked(was[i], cur[i], y);
    }
  }

  lemma InstallLaws(lim: Limits, s: DurableState, pm: Prepared, was: seq<SegmentList>, pms: seq<Prepared>)
    requires lim.maxHistory >= 1 && HistoryGood(lim, s)
    requires Applied(was, pms, s.lists) && pm.list.content.id == pm.id
    ensures var t := Install(lim, s, pm);
            && Applied(was, pms + [pm], t.lists)
            && t == s.(lists := t.lists, history := t.history)
            && HistoryGood(lim, t) && HistoryStep(lim.maxHistory, s.history, t.history)
            && FindList(t.lists, pm.id) == Some(pm.list)
            && |t.lists| == |s.lists| + (if Position(s.lists, pm.id) == |s.lists| then 1 else 0)
  {
    var i := Position(s.lists, pm.id);
    var t := Install(lim, s, pm);
    InstallHistory(lim, s, pm);
    if i < |s.lists| {
      assert t.lists == s.lists[i := pm.list];
    } else {
      assert t.lists == s.lists + [pm.list];
      assert forall k :: 0 <= k < |s.lists| ==> s.lists[k].content.id != pm.id;
    }
    assert Became(pm.list, pm.list) && (pms + [pm])[|pms|] == pm;
    assert Placed(pms + [pm], pm.list);
    forall k | 0 <= k < |s.lists| && k != i ensures t.lists[k] == s.lists[k]
      && (Placed(pms, s.lists[k]) ==> Placed(pms + [pm], s.lists[k]))
    {
      if Placed(pms, s.lists[k]) { PlacedMore(pms, pm, s.lists[k]); }
    }
    PositionUnique(t.lists, i);
  }

  lemma InstallHistory(lim: Limits, s: DurableState, pm: Prepared)
    requires lim.maxHistory >= 1 && HistoryGood(lim, s)
    ensures var t := Install(lim, s, pm);
            t == s.(lists := t.lists, history := t.history)
            && HistoryGood(lim, t) && HistoryStep(lim.maxHistory, s.history, t.history)
  {
    var i := Position(s.lists, pm.id);
    if i < |s.lists| {
      var replaced := s.lists[i].(state := Superseded, currentness := Unknown);
      var s1 := AppendHistory(lim, s, replaced);
      AppendIsHistoryStep(lim, s, replaced);
      var s2 := s1.(lists := s1.lists[i := pm.list]);
      AppendIsHistoryStep(lim, s2, pm.list);
      HistoryTrans(lim.maxHistory, s.history, s1.history, Install(lim, s, pm).history);
    } else {
      AppendIsHistoryStep(lim, s.(lists := s.lists + [pm.list]), pm.list);
    }
  }

  /** Everything an application in progress keeps, relative to the state `was` it started from. */
  ghost predicate InProgress(lim: Limits, was: DurableState, done: seq<Prepared>, attempt: u64, payload: Digest,
                             s: DurableState)
  {
    && Applied(was.lists, done, s.lists) && |s.lists| <= |was.lists| + NewLists(done)
    && HistoryGood(lim, s) && HistoryStep(lim.maxHistory, was.history, s.history)
    && s == was.(lists := s.lists, history := s.history, attempts := s.attempts)
    && UniqueAttempts(s.attempts)
    && (forall a: u64 :: a != attempt ==> AttemptPayload(s.attempts, a) == AttemptPayload(was.attempts, a))
    && (done == [] ==> s.attempts == was.attempts)
    && (done != [] ==> AttemptPayload(s.attempts, attempt) == Some(payload)
                       && |s.attempts| == |was.attempts|
                            + (if AttemptPosition(was.attempts, attempt) == |was.attempts| then 1 else 0))
  }

  lemma AttemptStep(was: seq<Attempt>, cur: seq<Attempt>, r: Attempt, first: bool)
    requires UniqueAttempts(was) && UniqueAttempts(cur)
    requires forall a: u64 :: a != r.attempt ==> AttemptPayload(cur, a) == AttemptPayload(was, a)
    requires if first then cur == was
             else AttemptPayload(cur, r.attempt).Some?
                  && |cur| == |was| + (if AttemptPosition(was, r.attempt) == |was| then 1 else 0)
    ensures var t := RecordAttempt(cur, r);
            && UniqueAttempts(t) && AttemptPayload(t, r.attempt) == Some(r.payload)
            && (forall a: u64 :: a != r.attempt ==> AttemptPayload(t, a) == AttemptPayload(was, a))
            && |t| == |was| + (if AttemptPosition(was, r.attempt) == |was| then 1 else 0)
  {
    RecordLaws(cur, r, r.attempt);
    forall a: u64 | a != r.attempt ensures AttemptPayload(RecordAttempt(cur, r), a) == AttemptPayload(was, a) {
      RecordLaws(cur, r, a);
    }
  }

  lemma ApplyOneLaws(lim: Limits, was: DurableState, done: seq<Prepared>, s: DurableState, pm: Prepared, attempt: u64,
                     payload: Digest)
    requires lim.maxHistory >= 1 && UniqueAttempts(was.attempts)
    requires InProgress(lim, was, done, attempt, payload, s)
    requires pm.list.content.id == pm.id && StillCurrent(was.lists, pm)
    requires ApplyOne(lim, s, pm, attempt, payload).Some?
    ensures InProgress(lim, was, done + [pm], attempt, payload, ApplyOne(lim, s, pm, attempt, payload).value)
    ensures FindList(ApplyOne(lim, s, pm, attempt, payload).value.lists, pm.id) == Some(pm.list)
  {
    var s1 := s;
    if pm.superseded.Some? {
      SupersedeLaws(lim, s, pm.superseded.value.0, pm.id, was.lists, done);
      s1 := Supersede(lim, s, pm.superseded.value.0, pm.id).value;
      HistoryTrans(lim.maxHistory, was.history, s.history, s1.history);
    }
    InstallLaws(lim, s1, pm, was.lists, done);
    var s2 := Install(lim, s1, pm);
    HistoryTrans(lim.maxHistory, was.history, s1.history, s2.history);
    AttemptStep(was.attempts, s.attempts, Attempt(attempt, pm.id, payload, pm.list.generation, true), done == []);
    assert (done + [pm])[..|done|] == done;
    ExistingStaysPresent(was.lists, done, s1.lists, pm);
  }

  lemma ExistingStaysPresent(was: seq<SegmentList>, done: seq<Prepared>, cur: seq<SegmentList>, pm: Prepared)
    requires Applied(was, done, cur) && StillCurrent(was, pm)
    ensures pm.existing.Some? ==> Position(cur, pm.id) < |cur|
  {
    if pm.existing.Some? {
      var i := Position(was, pm.id);
      assert cur[i].content.id == pm.id;
      PositionUnique(cur, i);
    }
  }

  ghost predicate Ready(was: seq<SegmentList>, pms: seq<Prepared>) {
    Named(pms) && forall k :: 0 <= k < |pms| ==> StillCurrent(was, pms[k])
  }

  lemma Shift(done: seq<Prepared>, rest: seq<Prepared>)
    ensures rest == [] ==> done + rest == done
    ensures rest != [] ==> done + [rest[0]] + rest[1..] == done + rest
  {}

  lemma ApplyFirst(lim: Limits, was: DurableState, done: seq<Prepared>, s: DurableState, rest: seq<Prepared>,
                   attempt: u64, payload: Digest)
    returns (s1: DurableState)
    requires lim.maxHistory >= 1 && UniqueAttempts(was.attempts)
    requires InProgress(lim, was, done, attempt, payload, s)
    requires rest != [] && Ready(was.lists, rest) && ApplyAll(lim, s, rest, attempt, payload).Some?
    ensures ApplyOne(lim, s, rest[0], attempt, payload) == Some(s1)
    ensures ApplyAll(lim, s, rest, attempt, payload) == ApplyAll(lim, s1, rest[1..], attempt, payload)
    ensures InProgress(lim, was, done + [rest[0]], attempt, payload, s1)
    ensures FindList(s1.lists, rest[0].id) == Some(rest[0].list)
    ensures Ready(was.lists, rest[1..])
  {
    s1 := ApplyOne(lim, s, rest[0], attempt, payload).value;
    ApplyOneLaws(lim, was, done, s, rest[0], attempt, payload);
    forall k | 0 <= k < |rest| - 1 ensures StillCurrent(was.lists, rest[1..][k]) {
      assert rest[1..][k] == rest[k + 1];
    }
  }

  lemma {:induction false} ApplyAllLaws(lim: Limits, was: DurableState, done: seq<Prepared>, s: DurableState,
                                        rest: seq<Prepared>, attempt: u64, payload: Digest)
    requires lim.maxHistory >= 1 && UniqueAttempts(was.attempts)
    requires InProgress(lim, was, done, attempt, payload, s)
    requires Ready(was.lists, rest)
    requires ApplyAll(lim, s, rest, attempt, payload).Some?
    ensures InProgress(lim, was, done + rest, attempt, payload, ApplyAll(lim, s, rest, attempt, payload).value)
    decreases |rest|
  {
    hide InProgress; hide ApplyOne; hide StillCurrent;
    Shift(done, rest);
    if rest != [] {
      var s1 := ApplyFirst(lim, was, done, s, rest, attempt, payload);
      ApplyAllLaws(lim, was, done + [rest[0]], s1, rest[1..], attempt, payload);
    }
  }

  lemma StartsInProgress(lim: Limits, s: DurableState, attempt: u64, payload: Digest)
    requires UniqueIds(s.lists) && UniqueAttempts(s.attempts) && HistoryGood(lim, s)
    ensures InProgress(lim, s, [], attempt, payload, s)
  {
    HistoryRefl(lim.maxHistory, s.history);
  }

  /** A revision installed under an id that no later draft of the batch names stays installed. */
  lemma {:induction false} LaterDraftsKeep(lim: Limits, s: DurableState, rest: seq<Prepared>, attempt: u64,
                                           payload: Digest, x: SegmentList, y: SegmentList)
    requires UniqueIds(s.lists) && Named(rest)
    requires forall k :: 0 <= k < |rest| ==> rest[k].id != x.content.id
    requires FindList(s.lists, x.content.id) == Some(y) && Became(x, y)
    requires ApplyAll(lim, s, rest, attempt, payload).Some?
    ensures var t := ApplyAll(lim, s, rest, attempt, payload).value;
            var z := FindList(t.lists, x.content.id);
            z.Some? && Became(x, z.value)
    decreases |rest|
  {
    if rest != [] {
      var t := ApplyOne(lim, s, rest[0], attempt, payload).value;
      var z := OneDraftKeeps(lim, s, rest[0], attempt, payload, x, y);
      LaterDraftsKeep(lim, t, rest[1..], attempt, payload, x, z);
    }
  }

  lemma OneDraftKeeps(lim: Limits, s: DurableState, pm: Prepared, attempt: u64, payload: Digest, x: SegmentList,
                      y: SegmentList)
    returns (z: SegmentList)
    requires UniqueIds(s.lists) && pm.list.content.id == pm.id && pm.id != x.content.id
    requires FindList(s.lists, x.content.id) == Some(y) && Became(x, y)
    requires ApplyOne(lim, s, pm, attempt, payload).Some?
    ensures var t := ApplyOne(lim, s, pm, attempt, payload).value;
            UniqueIds(t.lists) && FindList(t.lists, x.content.id) == Some(z) && Became(x, z)
  {
    var i := Position(s.lists, x.content.id);
    var s1 := if pm.superseded.Some? then Supersede(lim, s, pm.superseded.value.0, pm.id).value else s;
    if pm.superseded.Some? { SupersedeShape(lim, s, pm.superseded.value.0, pm.id); }
    z := s1.lists[i];
    if z != y { BecameMarked(x, y, z); }
    InstallShape(lim, s1, pm);
    assert ApplyOne(lim, s, pm, attempt, payload).value.lists == Install(lim, s1, pm).lists;
    PositionUnique(Install(lim, s1, pm).lists, i);
  }

  lemma SupersedeShape(lim: Limits, s: DurableState, target: u64, heir: u64)
    requires UniqueIds(s.lists) && Supersede(lim, s, target, heir).Some?
    ensures var t := Supersede(lim, s, target, heir).value.lists;
            && |t| == |s.lists| && UniqueIds(t)
            && (forall k :: 0 <= k < |t| ==> t[k] == s.lists[k] || MarkedSuperseded(s.lists[k], t[k]))
            && (forall k :: 0 <= k < |t| ==> t[k].content.id == s.lists[k].content.id)
  {}

  lemma InstallShape(lim: Limits, s: DurableState, pm: Prepared)
    requires UniqueIds(s.lists) && pm.list.content.id == pm.id
    ensures var t := Install(lim, s, pm).lists;
            var i := Position(s.lists, pm.id);
            t == (if i < |s.lists| then s.lists[i := pm.list] else s.lists + [pm.list]) && UniqueIds(t)
  {}

  lemma AppliedUnique(lim: Limits, was: DurableState, one: seq<Prepared>, done: seq<Prepared>, attempt: u64,
                      payload: Digest, s: DurableState)
    requires InProgress(lim, was, done + one, attempt, payload, s)
    ensures UniqueIds(s.lists) && forall x :: Became(x, x)
  {}

  /** On success every draft is applied: the last draft naming an id is the revision that id now has. */
  lemma {:induction false} EveryDraftApplied(lim: Limits, was: DurableState, done: seq<Prepared>, s: DurableState,
                                             rest: seq<Prepared>, attempt: u64, payload: Digest, k: nat)
    requires lim.maxHistory >= 1 && UniqueAttempts(was.attempts)
    requires InProgress(lim, was, done, attempt, payload, s)
    requires Ready(was.lists, rest)
    requires ApplyAll(lim, s, rest, attempt, payload).Some?
    requires k < |rest| && forall j :: k < j < |rest| ==> rest[j].id != rest[k].id
    ensures var t := ApplyAll(lim, s, rest, attempt, payload).value;
            var z := FindList(t.lists, rest[k].id);
            z.Some? && Became(rest[k].list, z.value)
    decreases |rest|
  {
    hide InProgress; hide ApplyOne; hide StillCurrent; hide Became;
    var t := ApplyFirst(lim, was, done, s, rest, attempt, payload);
    if k == 0 {
      AppliedUnique(lim, was, [rest[0]], done, attempt, payload, t);
      LaterDraftsKeep(lim, t, rest[1..], attempt, payload, rest[0].list, rest[0].list);
    } else {
      EveryDraftApplied(lim, was, done + [rest[0]], t, rest[1..], attempt, payload, k - 1);
    }
  }

  // ---------------------------------------------------------------- whole batches

  /** Each draft was resolved against the lists `ls`. */
  ghost predicate ResolvedIn(ls: seq<SegmentList>, ds: seq<Draft>, rs: seq<Resolved>) {
    && |ds| == |rs|
    && forall i :: 0 <= i < |ds| ==> rs[i].existing == FindList(ls, ds[i].id)
                                     && rs[i].superseded == (if ds[i].supersedes != 0 then
                                                  FindList(ls, ds[i].supersedes) else None)
  }

  ghost predicate StateGood(cfg: Config, s: DurableState) {
    && UniqueIds(s.lists) && UniqueAttempts(s.attempts) && HistoryGood(cfg.limits, s) && ActiveIsCurrent(s.lists)
    && |s.lists| <= cfg.limits.maxLists && |s.attempts| <= cfg.limits.maxAttempts
  }

  /** A list written by this batch, as its caller wrote it, possibly superseded again within the batch. */
  lemma PlacedMeaning(cfg: Config, ctx: Context, shape: Shape, ls: seq<SegmentList>, ds: seq<Draft>, rs: seq<Resolved>,
                      y: SegmentList)
    requires cfg.limits.maxReasons >= 1 && StoreShape(shape) && ResolvedIn(ls, ds, rs)
    requires PrepareAll(cfg, ctx, shape, ds, rs).Some?
    requires Placed(PrepareAll(cfg, ctx, shape, ds, rs).value, y)
    ensures y.authority == Writer(ctx.caller.publisher, ctx.caller.boot, ctx.authority.epoch, ctx.caller.attempt)
    ensures y.state == Active ==> y.currentness == Current
    ensures var x := FindList(ls, y.content.id);
            if x.Some? then y.generation == x.value.generation + 1 && y.lineage.supersedes == x.value.generation
                            && Open(x.value.state)
            else y.generation == 1
  {
    hide DraftValid; hide Transition; hide NewContent; hide ContentDigest; hide SequenceDigest;
    var pms := PrepareAll(cfg, ctx, shape, ds, rs).value;
    var k :| 0 <= k < |pms| && pms[k].id == y.content.id && Became(pms[k].list, y);
    AcceptedExisting(cfg, ctx, shape, ds[k], rs[k]);
    assert pms[k] == Prepare(cfg, ctx, ds[k], rs[k]);
  }

  lemma PreparedNamed(cfg: Config, ctx: Context, shape: Shape, ds: seq<Draft>, rs: seq<Resolved>)
    requires |ds| == |rs| && PrepareAll(cfg, ctx, shape, ds, rs).Some?
    ensures Named(PrepareAll(cfg, ctx, shape, ds, rs).value)
  {
    var pms := PrepareAll(cfg, ctx, shape, ds, rs).value;
    forall k | 0 <= k < |pms| ensures pms[k].list.content.id == pms[k].id {
      assert pms[k] == Prepare(cfg, ctx, ds[k], rs[k]);
    }
  }

  /** What a validated batch does to a good state: a good state again, one revision later, in which every lineage took
      at most one step, closed lineages did not move, and whatever the batch wrote carries its caller. */
  lemma BatchLaws(cfg: Config, ctx: Context, shape: Shape, ds: seq<Draft>, rs: seq<Resolved>, s: DurableState,
                  payload: Digest)
    requires cfg.limits.maxReasons >= 1 && cfg.limits.maxHistory >= 1 && StoreShape(shape)
    requires StateGood(cfg, s) && ResolvedIn(s.lists, ds, rs) && ds != []
    requires AttemptAccepted(cfg.limits, s.attempts, ctx.caller.attempt)
    requires PrepareAll(cfg, ctx, shape, ds, rs).Some?
    requires var pms := PrepareAll(cfg, ctx, shape, ds, rs).value;
             BatchState(cfg, s, pms, ctx.caller.attempt, payload).Some?
    ensures var pms := PrepareAll(cfg, ctx, shape, ds, rs).value;
            var t := BatchState(cfg, s, pms, ctx.caller.attempt, payload).value;
            && StateGood(cfg, t) && ListsStep(s.lists, t.lists)
            && t == s.(revision := s.revision + 1, lists := t.lists, history := t.history, attempts := t.attempts)
            && HistoryStep(cfg.limits.maxHistory, s.history, t.history)
            && WrittenBy(Writer(ctx.caller.publisher, ctx.caller.boot, ctx.authority.epoch, ctx.caller.attempt),
                         s.lists, t.lists)
            && RecordsStep(s.attempts, t.attempts, Some((ctx.caller.attempt, payload)))
  {
    var pms := PrepareAll(cfg, ctx, shape, ds, rs).value;
    var t := BatchInProgress(cfg, ctx, shape, ds, rs, s, payload);
    BatchLists(cfg, ctx, shape, ds, rs, s, t.lists);
  }

  lemma BatchInProgress(cfg: Config, ctx: Context, shape: Shape, ds: seq<Draft>, rs: seq<Resolved>, s: DurableState,
                        payload: Digest)
    returns (t: DurableState)
    requires cfg.limits.maxReasons >= 1 && cfg.limits.maxHistory >= 1 && StoreShape(shape)
    requires StateGood(cfg, s) && |ds| == |rs| && ds != []
    requires AttemptAccepted(cfg.limits, s.attempts, ctx.caller.attempt)
    requires PrepareAll(cfg, ctx, shape, ds, rs).Some?
    requires var pms := PrepareAll(cfg, ctx, shape, ds, rs).value;
             BatchState(cfg, s, pms, ctx.caller.attempt, payload).Some?
    ensures var pms := PrepareAll(cfg, ctx, shape, ds, rs).value;
            && Some(t) == BatchState(cfg, s, pms, ctx.caller.attempt, payload)
            && InProgress(cfg.limits, s.(revision := s.revision + 1), pms, ctx.caller.attempt, payload, t)
            && |t.lists| <= cfg.limits.maxLists && |t.attempts| <= cfg.limits.maxAttempts && pms != []
  {
    hide *;
    var pms := PrepareAll(cfg, ctx, shape, ds, rs).value;
    var a := ctx.caller.attempt;
    var s1 := s.(revision := s.revision + 1);
    PreparedNamed(cfg, ctx, shape, ds, rs);
    BatchStateMeaning(cfg, s, pms, a, payload);
    GoodParts(cfg, s);
    t := ApplyAll(cfg.limits, s1, pms, a, payload).value;
    StartsInProgress(cfg.limits, s1, a, payload);
    ApplyAllLaws(cfg.limits, s1, [], s1, pms, a, payload);
    assert [] + pms == pms;
    AttemptNonzero(cfg, ctx, shape, ds, rs);
    BatchSizes(cfg.limits, s1, pms, a, payload, t);
  }

  lemma BatchStateMeaning(cfg: Config, s: DurableState, pms: seq<Prepared>, attempt: u64, payload: Digest)
    requires BatchState(cfg, s, pms, attempt, payload).Some? && Named(pms)
    ensures Ready(s.lists, pms) && RoomFor(cfg.limits, s.lists, pms)
    ensures BatchState(cfg, s, pms, attempt, payload)
            == ApplyAll(cfg.limits, s.(revision := s.revision + 1), pms, attempt, payload)
  {
    hide StillCurrent; hide RoomFor; hide ApplyAll;
  }

  lemma GoodParts(cfg: Config, s: DurableState)
    requires StateGood(cfg, s)
    ensures var s1 := s.(revision := s.revision + 1);
            UniqueIds(s1.lists) && UniqueAttempts(s1.attempts) && HistoryGood(cfg.limits, s1)
            && |s1.lists| <= cfg.limits.maxLists && |s1.attempts| <= cfg.limits.maxAttempts
  {}

  /** Every draft of an applied batch is installed. */
  lemma BatchInstalls(cfg: Config, ctx: Context, shape: Shape, ds: seq<Draft>, rs: seq<Resolved>, s: DurableState,
                      payload: Digest, q: nat)
    requires cfg.limits.maxReasons >= 1 && cfg.limits.maxHistory >= 1
    requires StateGood(cfg, s) && |ds| == |rs| && q < |ds|
    requires PrepareAll(cfg, ctx, shape, ds, rs).Some?
    requires var pms := PrepareAll(cfg, ctx, shape, ds, rs).value;
             BatchState(cfg, s, pms, ctx.caller.attempt, payload).Some?
    requires forall p :: q < p < |ds| ==> ds[p].id != ds[q].id
    ensures rs[q].existing.Some? ==> rs[q].existing.value.generation < U64_MAX
    ensures var pms := PrepareAll(cfg, ctx, shape, ds, rs).value;
            var z := FindList(BatchState(cfg, s, pms, ctx.caller.attempt, payload).value.lists, ds[q].id);
            z.Some? && Became(MakeList(cfg, ctx, ds[q], rs[q]), z.value)
  {
    hide *;
    var pms := PrepareAll(cfg, ctx, shape, ds, rs).value;
    var s1 := s.(revision := s.revision + 1);
    PreparedNamed(cfg, ctx, shape, ds, rs);
    PreparedAt(cfg, ctx, shape, ds, rs);
    BatchStateMeaning(cfg, s, pms, ctx.caller.attempt, payload);
    GoodParts(cfg, s);
    StartsInProgress(cfg.limits, s1, ctx.caller.attempt, payload);
    EveryDraftApplied(cfg.limits, s1, [], s1, pms, ctx.caller.attempt, payload, q);
  }

  lemma PreparedAt(cfg: Config, ctx: Context, shape: Shape, ds: seq<Draft>, rs: seq<Resolved>)
    requires |ds| == |rs| && PrepareAll(cfg, ctx, shape, ds, rs).Some?
    ensures var pms := PrepareAll(cfg, ctx, shape, ds, rs).value;
            |pms| == |ds| && forall k :: 0 <= k < |ds| ==>
              && (rs[k].existing.Some? ==> rs[k].existing.value.generation < U64_MAX)
              && pms[k].id == ds[k].id && pms[k].list == MakeList(cfg, ctx, ds[k], rs[k])
  {
    hide MakeList; hide DraftOutcome;
    var pms := PrepareAll(cfg, ctx, shape, ds, rs).value;
    forall k | 0 <= k < |ds|
      ensures rs[k].existing.Some? ==> rs[k].existing.value.generation < U64_MAX
      ensures pms[k].id == ds[k].id && pms[k].list == MakeList(cfg, ctx, ds[k], rs[k])
    {
      assert DraftValid(cfg, ctx, shape, ds[k], rs[k]);
      assert pms[k] == Prepare(cfg, ctx, ds[k], rs[k]);
    }
  }

  lemma AttemptNonzero(cfg: Config, ctx: Context, shape: Shape, ds: seq<Draft>, rs: seq<Resolved>)
    requires cfg.limits.maxReasons >= 1 && |ds| == |rs| && ds != [] && PrepareAll(cfg, ctx, shape, ds, rs).Some?
    ensures ctx.caller.attempt != 0 && PrepareAll(cfg, ctx, shape, ds, rs).value != []
  {
    AcceptedCaller(cfg, ctx, shape, ds[0], rs[0]);
  }

  lemma BatchSizes(lim: Limits, was: DurableState, pms: seq<Prepared>, attempt: u64, payload: Digest, t: DurableState)
    requires InProgress(lim, was, pms, attempt, payload, t) && pms != [] && attempt != 0
    requires RoomFor(lim, was.lists, pms) && |was.attempts| <= lim.maxAttempts
    requires AttemptAccepted(lim, was.attempts, attempt)
    ensures |t.lists| <= lim.maxLists && |t.attempts| <= lim.maxAttempts
  {
    hide AttemptPayload;
  }

  /** Every list is an old one with its writer unchanged, or was written by `w`. */
  ghost predicate WrittenBy(w: Writer, a: seq<SegmentList>, b: seq<SegmentList>) {
    forall i :: 0 <= i < |b| ==> b[i].authority == w || (i < |a| && b[i].authority == a[i].authority)
  }

  lemma BatchLists(cfg: Config, ctx: Context, shape: Shape, ds: seq<Draft>, rs: seq<Resolved>, s: DurableState,
                   ls: seq<SegmentList>)
    requires cfg.limits.maxReasons >= 1 && StoreShape(shape)
    requires UniqueIds(s.lists) && ActiveIsCurrent(s.lists) && ResolvedIn(s.lists, ds, rs)
    requires PrepareAll(cfg, ctx, shape, ds, rs).Some?
    requires Applied(s.lists, PrepareAll(cfg, ctx, shape, ds, rs).value, ls)
    ensures ListsStep(s.lists, ls) && ActiveIsCurrent(ls)
    ensures WrittenBy(Writer(ctx.caller.publisher, ctx.caller.boot, ctx.authority.epoch, ctx.caller.attempt),
                      s.lists, ls)
  {
    var pms := PrepareAll(cfg, ctx, shape, ds, rs).value;
    forall i | 0 <= i < |ls|
      ensures i < |s.lists| ==> LineageStep(s.lists[i], ls[i])
      ensures i >= |s.lists| ==> ls[i].generation == 1
      ensures ls[i].state == Active ==> ls[i].currentness == Current
      ensures ls[i].authority == Writer(ctx.caller.publisher, ctx.caller.boot, ctx.authority.epoch, ctx.caller.attempt)
              || (i < |s.lists| && ls[i].authority == s.lists[i].authority)
    {
      if Placed(pms, ls[i]) {
        PlacedMeaning(cfg, ctx, shape, s.lists, ds, rs, ls[i]);
        if i < |s.lists| { PositionUnique(s.lists, i); }
        else { NewIdIsNew(s.lists, pms, ls, i); }
      }
    }
  }

  lemma NewIdIsNew(was: seq<SegmentList>, pms: seq<Prepared>, cur: seq<SegmentList>, i: nat)
    requires Applied(was, pms, cur) && |was| <= i < |cur|
    ensures FindList(was, cur[i].content.id).None?
  {
    assert forall k :: 0 <= k < |was| ==> was[k].content.id == cur[k].content.id != cur[i].content.id;
  }

  // ------------------------------------------------------- administrative events

  lemma UpdateLists(ls: seq<SegmentList>, i: nat, l: SegmentList)
    requires UniqueIds(ls) && ActiveIsCurrent(ls) && i < |ls|
    requires LineageStep(ls[i], l) && (l.state == Active ==> l.currentness == Current)
    ensures UniqueIds(ls[i := l]) && ActiveIsCurrent(ls[i := l]) && ListsStep(ls, ls[i := l])
    ensures WrittenBy(l.authority, ls, ls[i := l])
  {
    hide Transition;
    forall k | 0 <= k < |ls| ensures LineageStep(ls[k], ls[i := l][k]) {}
  }

  /** The list `id` took the event, as the same revision; every other list is as it was. */
  ghost predicate OneListMoved(a: seq<SegmentList>, b: seq<SegmentList>, id: u64, event: LifecycleEvent)
    requires |a| == |b|
  {
    forall i :: 0 <= i < |a| ==>
      && SameRevision(a[i], b[i]) && b[i].generation == a[i].generation
      && if a[i].content.id == id then Some(b[i].state) == Transition(a[i].state, event) else b[i] == a[i]
  }

  lemma EventMovesOneList(ctx: Context, ls: seq<SegmentList>, id: u64, event: LifecycleEvent, revision: nat)
    requires UniqueIds(ls) && Position(ls, id) < |ls| && Transition(ls[Position(ls, id)].state, event).Some?
    ensures var i := Position(ls, id);
            OneListMoved(ls, ls[i := Transitioned(ctx, ls[i], Transition(ls[i].state, event).value, revision)],
                         id, event)
  {
    hide Transition;
  }

  lemma TransitionLaws(cfg: Config, s: DurableState, ctx: Context, id: u64, expected: u64,
                       event: LifecycleEvent)
    requires cfg.limits.maxHistory >= 1 && StateGood(cfg, s) && AdminEvent(event)
    requires AttemptAccepted(cfg.limits, s.attempts, ctx.caller.attempt)
    requires TransitionState(cfg, s, ctx, id, expected, event).Some?
    ensures var t := TransitionState(cfg, s, ctx, id, expected, event).value;
            && StateGood(cfg, t) && ListsStep(s.lists, t.lists) && |t.lists| == |s.lists|
            && OneListMoved(s.lists, t.lists, id, event)
            && t == s.(revision := s.revision + 1, lists := t.lists, history := t.history, attempts := t.attempts)
            && HistoryStep(cfg.limits.maxHistory, s.history, t.history)
            && WrittenBy(Writer(ctx.caller.publisher, ctx.caller.boot, ctx.authority.epoch, ctx.caller.attempt),
                         s.lists, t.lists)
            && RecordsStep(s.attempts, t.attempts, AdminRecord(cfg, s.lists, ctx.caller.attempt, id, expected))
  {
    hide AttemptPosition; hide RecordAttempt; hide AttemptPayload; hide Tail; hide TransitionRecord; hide LineageStep;
    hide Transitioned; hide RecordsStep; hide AdminRecord; hide Consecutive; hide OneListMoved;
    var i := Position(s.lists, id);
    var next := Transition(s.lists[i].state, event).value;
    var l := Transitioned(ctx, s.lists[i], next, s.revision + 1);
    EventIsLineageStep(ctx, s.lists[i], event, s.revision + 1);
    AppendIsHistoryStep(cfg.limits, s.(revision := s.revision + 1, lists := s.lists[i := l]), l);
    UpdateLists(s.lists, i, l);
    EventMovesOneList(ctx, s.lists, id, event, s.revision + 1);
    RecordedAttempt(cfg, s, ctx, i, next, id, expected);
    TransitionAttempts(cfg, s, ctx, id, expected, TransitionRecord(cfg, ctx, l, expected));
  }

  lemma RecordedAttempt(cfg: Config, s: DurableState, ctx: Context, i: nat, next: LifecycleState,
                        id: u64, expected: u64)
    requires i == Position(s.lists, id) < |s.lists|
    ensures var r := TransitionRecord(cfg, ctx, Transitioned(ctx, s.lists[i], next, s.revision + 1), expected);
            && r.attempt == ctx.caller.attempt
            && AdminRecord(cfg, s.lists, r.attempt, id, expected)
               == if r.attempt == 0 then None else Some((r.attempt, r.payload))
  {
    hide AdminDigest;
  }

  lemma EventIsLineageStep(ctx: Context, x: SegmentList, event: LifecycleEvent, revision: nat)
    requires AdminEvent(event) && Transition(x.state, event).Some?
    ensures var l := Transitioned(ctx, x, Transition(x.state, event).value, revision);
            LineageStep(x, l) && (l.state == Active ==> l.currentness == Current)
            && l.authority == Writer(ctx.caller.publisher, ctx.caller.boot, ctx.authority.epoch, ctx.caller.attempt)
  {}

  lemma TransitionAttempts(cfg: Config, s: DurableState, ctx: Context, id: u64, expected: u64, r: Attempt)
    requires UniqueAttempts(s.attempts) && |s.attempts| <= cfg.limits.maxAttempts
    requires AttemptAccepted(cfg.limits, s.attempts, ctx.caller.attempt) && r.attempt == ctx.caller.attempt
    requires AdminRecord(cfg, s.lists, r.attempt, id, expected)
             == if r.attempt == 0 then None else Some((r.attempt, r.payload))
    ensures var t := if r.attempt == 0 then s.attempts else RecordAttempt(s.attempts, r);
            && UniqueAttempts(t) && |t| <= cfg.limits.maxAttempts
            && RecordsStep(s.attempts, t, AdminRecord(cfg, s.lists, r.attempt, id, expected))
  {
    hide AdminRecord; hide AttemptPayload; hide RecordAttempt;
    RecordLaws(s.attempts, r, 0);
    forall a: u64 | a != r.attempt
      ensures AttemptPayload(RecordAttempt(s.attempts, r), a) == AttemptPayload(s.attempts, a)
    {
      RecordLaws(s.attempts, r, a);
    }
  }
}
