/** Rejection reasons and the bounded, phase-ordered reason list (`src/reason.cpp`).

    A validation is a sequence of checks, each of which may fail with a reason.  `Collect` says what the bounded list
    holds after the failing ones were added in that order; the lemmas say what that list means. */
module SrfReasons {

  datatype Reason = Reason(code: nat, index: nat, detail: nat)

  // Codes, with the numeric values of the source enumeration.
  const CALLER_MISSING_PUBLISHER := 40
  const CALLER_UNKNOWN_PUBLISHER := 41
  const CALLER_FENCED_PUBLISHER := 42
  const CALLER_MISSING_BOOT := 43
  const CALLER_STALE_BOOT := 44
  const CALLER_MISSING_ATTEMPT := 45
  const CALLER_MISSING_SCOPE := 47
  const CALLER_SCOPE_MISMATCH := 48
  const EPOCH_INVALID := 80
  const EPOCH_STALE := 81
  const EPOCH_EXHAUSTED := 82
  const BOOT_ALREADY_FENCED := 84
  const LIST_ID_INVALID := 120
  const LIST_NOT_FOUND := 121
  const LIST_ALREADY_EXISTS := 122
  const LIST_GENERATION_INVALID := 123
  const LIST_GENERATION_CONFLICT := 124
  const LIST_GENERATION_EXHAUSTED := 125
  const TRANSITION_DENIED := 127
  const LIST_RETIRED := 128
  const LIST_REVOKED := 129
  const LIST_WITHDRAWN := 130
  const LIST_SUPERSEDED := 131
  const LIST_EMPTY := 132
  const SUPERSEDES_UNKNOWN := 133
  const PROFILE_UNKNOWN := 170
  const PROFILE_ID_INVALID := 171
  const PROFILE_GENERATION_INVALID := 172
  const PROFILE_GENERATION_MISMATCH := 173
  const PROFILE_KIND_NOT_ALLOWED := 174
  const PROFILE_WIDTH_EXCEEDED := 175
  const PROFILE_DEPTH_EXCEEDED := 176
  const PROFILE_REPEAT := 177
  const PROFILE_EMPTY := 178
  const PROFILE_KIND_MISMATCH := 180
  const PROFILE_STRICTNESS := 182
  const POLICY_UNKNOWN := 210
  const POLICY_ID_INVALID := 211
  const POLICY_GENERATION_INVALID := 212
  const POLICY_GENERATION_MISMATCH := 213
  const POLICY_DENIED_PROFILE := 214
  const POLICY_DENIED_KIND := 215
  const POLICY_DEPTH_EXCEEDED := 216
  const POLICY_REQUIRED_MISSING := 217
  const POLICY_FORBIDDEN_PRESENT := 218
  const POLICY_OWNERSHIP := 219
  const POLICY_REPLACEMENT_DENIED := 220
  const POLICY_DERIVATION_DENIED := 221
  const POLICY_STRICTNESS := 223
  const SEGMENT_KIND_INVALID := 250
  const SEGMENT_ID_INVALID := 251
  const SEGMENT_GENERATION_INVALID := 252
  const SEGMENT_RESERVED_SET := 254
  const SEGMENT_MISSING_BINDING := 255
  const SEGMENT_BINDING_INCOMPLETE := 257
  const SEGMENT_ENCODING_MISMATCH := 258
  const SEGMENT_ENTITY_UNKNOWN := 259
  const SEGMENT_ENTITY_GENERATION := 260
  const SEGMENT_ENTITY_KIND := 261
  const SEGMENT_DUP_CONSECUTIVE := 263
  const SEGMENT_DUP_NONCONSECUTIVE := 264
  const CAPABILITY_MISSING := 290
  const CAPABILITY_UNSUPPORTED := 291
  const CAPABILITY_GENERATION := 292
  const CAPABILITY_UNAVAILABLE := 293
  const CAPABILITY_KEY_INVALID := 294
  const TOPOLOGY_GENERATION_INVALID := 320
  const TOPOLOGY_GENERATION_MISMATCH := 321
  const TOPOLOGY_ADJACENCY_UNKNOWN := 322
  const TOPOLOGY_ADJACENCY_STALE := 323
  const TOPOLOGY_UNAVAILABLE := 324
  const PATH_UNKNOWN := 351
  const PATH_GENERATION_INVALID := 352
  const PATH_GENERATION_STALE := 353
  const PATH_BINDING_MISSING := 355
  const PATH_OTHER_SCOPE := 356
  const ROUTE_UNKNOWN := 380
  const ROUTE_GENERATION_STALE := 381
  const ROUTE_INVALID := 382
  const CONSTRAINT_UNKNOWN := 400
  const CONSTRAINT_GENERATION_STALE := 401
  const CONSTRAINT_INVALID := 402
  const LIMIT_SEGMENTS_PER_LIST := 421
  const LIMIT_PAYLOAD_BYTES := 422
  const LIMIT_PROFILES := 423
  const LIMIT_POLICIES := 424
  const LIMIT_PUBLISHERS := 426
  const LIMIT_REASONS := 431

  /** The validation phase a code belongs to, 0 (Ok) to 14 (Commit). */
  function PhaseOf(code: nat): nat {
    if code == 0 then 0
    else if code <= 12 then 1
    else if 40 <= code <= 49 then 2
    else if 80 <= code <= 86 then 3
    else if 120 <= code <= 135 then 4
    else if 170 <= code <= 182 then 5
    else if 210 <= code <= 223 then 6
    else if 250 <= code <= 265 then 7
    else if 290 <= code <= 294 then 8
    else if 320 <= code <= 325 then 9
    else if 350 <= code <= 356 then 10
    else if 380 <= code <= 382 then 11
    else if 400 <= code <= 402 then 12
    else if 420 <= code <= 435 then 13
    else if 520 <= code <= 531 then 0
    else if code == 620 then 2
    else if code == 622 then 13
    else if code == 623 then 5
    else 14
  }

  predicate Less(a: Reason, b: Reason) {
    var pa, pb := PhaseOf(a.code), PhaseOf(b.code);
    pa < pb || (pa == pb && (a.code < b.code || (a.code == b.code &&
      (a.index < b.index || (a.index == b.index && a.detail < b.detail)))))
  }

  /** The `k`-th of two rows of numbers is the first in which they differ, and there the one is the smaller. */
  ghost predicate SmallerAt(x: seq<nat>, y: seq<nat>, k: nat) {
    k < |x| && k < |y| && x[k] < y[k] && x[..k] == y[..k]
  }

  function Rank(r: Reason): seq<nat> { [PhaseOf(r.code), r.code, r.index, r.detail] }

  /** Reasons are ordered by phase, then by code, then by position, then by detail. */
  lemma LessExactly(a: Reason, b: Reason)
    ensures Less(a, b) <==> exists k: nat :: SmallerAt(Rank(a), Rank(b), k)
  {
    hide PhaseOf;
    var x, y := Rank(a), Rank(b);
    if Less(a, b) {
      var k := if x[0] < y[0] then 0 else if x[1] < y[1] then 1 else if x[2] < y[2] then 2 else 3;
      assert SmallerAt(x, y, k);
    }
    if k: nat :| SmallerAt(x, y, k) {
      assert forall j :: 0 <= j < k ==> x[..k][j] == x[j] && y[..k][j] == y[j];
      assert k == 0 || x[0] == y[0];
      assert k <= 1 || x[1] == y[1];
      assert k <= 2 || x[2] == y[2];
    }
  }

  ghost predicate Sorted(s: seq<Reason>) {
    forall i, j :: 0 <= i < j < |s| ==> Less(s[i], s[j])
  }

  /** Insert into a strictly sorted list, dropping a duplicate. */
  function Insert(r: Reason, s: seq<Reason>): (t: seq<Reason>) {
    if s == [] then [r]
    else if r == s[0] then s
    else if Less(r, s[0]) then [r] + s
    else [s[0]] + Insert(r, s[1..])
  }

  lemma {:induction false} InsertSorted(r: Reason, s: seq<Reason>)
    requires Sorted(s)
    ensures Sorted(Insert(r, s))
    ensures forall x :: x in Insert(r, s) <==> x == r || x in s
    ensures |s| <= |Insert(r, s)| <= |s| + 1
  {
    if s != [] && r != s[0] && !Less(r, s[0]) {
      InsertSorted(r, s[1..]);
      var t := Insert(r, s[1..]);
      assert forall x :: x in t ==> x == r || x in s[1..];
      assert forall k :: 0 <= k < |t| ==> t[k] in t;
    }
  }

  /** Sort and drop duplicates: the meaning of std::sort followed by std::unique under `Less`. */
  function SortUnique(s: seq<Reason>): (t: seq<Reason>) {
    if s == [] then [] else Insert(s[|s| - 1], SortUnique(s[..|s| - 1]))
  }

  lemma {:induction false} SortUniqueMeaning(s: seq<Reason>)
    ensures Sorted(SortUnique(s))
    ensures forall x :: x in SortUnique(s) <==> x in s
    ensures |SortUnique(s)| <= |s|
  {
    if s != [] {
      var n := |s| - 1;
      SortUniqueMeaning(s[..n]);
      InsertSorted(s[n], SortUnique(s[..n]));
      assert s == s[..n] + [s[n]];
    }
  }

  lemma EmptyWithoutMembers(s: seq<Reason>)
    ensures s != [] ==> exists x :: x in s
  {
    if s != [] { assert s[0] in s; }
  }

  /** A sorted list is determined by its elements. */
  lemma {:induction false} SortedUnique(a: seq<Reason>, b: seq<Reason>)
    requires Sorted(a) && Sorted(b)
    requires forall x :: x in a <==> x in b
    ensures a == b
  {
    if |a| > 0 && |b| > 0 {
      assert a[0] in b && b[0] in a;
      assert a[0] == b[0];
      forall x ensures x in a[1..] <==> x in b[1..] {
        if x in a[1..] { assert x in a; assert x in b; assert x != a[0]; }
        if x in b[1..] { assert x in b; assert x in a; assert x != b[0]; }
      }
      SortedUnique(a[1..], b[1..]);
    } else {
      EmptyWithoutMembers(a);
      EmptyWithoutMembers(b);
    }
  }

  // ---------------------------------------------------------- the bounded list

  /** One performed check: whether it failed, and the reason it would report. */
  datatype Check = Check(fails: bool, reason: Reason)

  datatype Outcome = Outcome(reasons: seq<Reason>, truncated: bool)

  const CLEAN := Outcome([], false)

  predicate HasCode(s: seq<Reason>, code: nat) { exists i :: 0 <= i < |s| && s[i].code == code }

  /** What adding one reason does to a list bounded by `cap`. */
  function AddTo(cap: nat, o: Outcome, r: Reason): Outcome {
    if r.code == 0 then o
    else if |o.reasons| >= cap then
      if cap == 0 || |o.reasons| == 0 then Outcome(o.reasons, true)
      else if HasCode(o.reasons, LIMIT_REASONS) then o
      else Outcome(SortUnique(o.reasons[|o.reasons| - 1 := Reason(LIMIT_REASONS, 0, 0)]), true)
    else Outcome(SortUnique(o.reasons + [r]), o.truncated)
  }

  /** The list after every failing check was added in order. */
  function Collect(cap: nat, checks: seq<Check>): Outcome {
    if checks == [] then CLEAN
    else
      var n := |checks| - 1;
      var o := Collect(cap, checks[..n]);
      if checks[n].fails then AddTo(cap, o, checks[n].reason) else o
  }

  ghost predicate Fails(checks: seq<Check>, r: Reason) { Check(true, r) in checks }

  ghost predicate RealCodes(checks: seq<Check>) {
    forall c :: c in checks ==> c.reason.code != 0 && c.reason.code != LIMIT_REASONS
  }

  /** The list never exceeds its bound and is always strictly sorted. */
  lemma {:induction false} CollectBounded(cap: nat, checks: seq<Check>)
    ensures |Collect(cap, checks).reasons| <= cap
    ensures Sorted(Collect(cap, checks).reasons)
  {
    if checks != [] {
      var n := |checks| - 1;
      CollectBounded(cap, checks[..n]);
      var o := Collect(cap, checks[..n]);
      if |o.reasons| > 0 { SortUniqueMeaning(o.reasons[|o.reasons| - 1 := Reason(LIMIT_REASONS, 0, 0)]); }
      SortUniqueMeaning(o.reasons + [checks[n].reason]);
    }
  }

  /** The limit marker is the only entry that no check produced, and it appears only on truncation. */
  lemma {:induction false} LimitMarkerOnlyWhenTruncated(cap: nat, checks: seq<Check>)
    requires RealCodes(checks)
    ensures forall x :: x in Collect(cap, checks).reasons ==>
              (Fails(checks, x) && x.code != LIMIT_REASONS)
              || (x == Reason(LIMIT_REASONS, 0, 0) && Collect(cap, checks).truncated)
  {
    if checks != [] {
      var n := |checks| - 1;
      assert checks == checks[..n] + [checks[n]];
      LimitMarkerOnlyWhenTruncated(cap, checks[..n]);
      var o := Collect(cap, checks[..n]);
      SortUniqueMeaning(o.reasons + [checks[n].reason]);
      if |o.reasons| > 0 { SortUniqueMeaning(o.reasons[|o.reasons| - 1 := Reason(LIMIT_REASONS, 0, 0)]); }
    }
  }

  lemma NoMarkerUntruncated(cap: nat, checks: seq<Check>)
    requires RealCodes(checks)
    ensures HasCode(Collect(cap, checks).reasons, LIMIT_REASONS) ==> Collect(cap, checks).truncated
  {
    LimitMarkerOnlyWhenTruncated(cap, checks);
  }

  /** Untruncated, the list is the sorted duplicate-free set of every reason that failed. */
  lemma {:induction false} CollectExact(cap: nat, checks: seq<Check>)
    requires RealCodes(checks) && !Collect(cap, checks).truncated
    ensures forall r :: r in Collect(cap, checks).reasons <==> Fails(checks, r)
    ensures Sorted(Collect(cap, checks).reasons)
  {
    CollectBounded(cap, checks);
    if checks != [] {
      var n := |checks| - 1;
      assert checks == checks[..n] + [checks[n]];
      CollectExact(cap, checks[..n]);
      NoMarkerUntruncated(cap, checks[..n]);
      SortUniqueMeaning(Collect(cap, checks[..n]).reasons + [checks[n].reason]);
    }
  }

  /** Untruncated, the order in which checks ran does not matter. */
  lemma CollectOrderIrrelevant(cap: nat, a: seq<Check>, b: seq<Check>)
    requires RealCodes(a) && !Collect(cap, a).truncated
    requires RealCodes(b) && !Collect(cap, b).truncated
    requires forall r :: Fails(a, r) <==> Fails(b, r)
    ensures Collect(cap, a) == Collect(cap, b)
  {
    CollectExact(cap, a);
    CollectExact(cap, b);
    SortedUnique(Collect(cap, a).reasons, Collect(cap, b).reasons);
  }

  /** The distinct reasons among the failing checks. */
  ghost function Distinct(checks: seq<Check>): set<Reason> {
    set c | c in checks && c.fails :: c.reason
  }

  lemma {:induction false} SortedCardinality(s: seq<Reason>)
    requires Sorted(s)
    ensures |(set r | r in s)| == |s|
  {
    if s != [] {
      SortedCardinality(s[1..]);
      assert (set r | r in s) == (set r | r in s[1..]) + {s[0]};
    }
  }

  lemma UntruncatedSize(cap: nat, checks: seq<Check>)
    requires RealCodes(checks) && !Collect(cap, checks).truncated
    ensures |Collect(cap, checks).reasons| == |Distinct(checks)|
    ensures !HasCode(Collect(cap, checks).reasons, LIMIT_REASONS)
  {
    CollectExact(cap, checks);
    var rs := Collect(cap, checks).reasons;
    SortedCardinality(rs);
    assert (set r | r in rs) == Distinct(checks) by {
      forall r ensures r in rs <==> r in Distinct(checks) { assert Fails(checks, r) <==> Check(true, r) in checks; }
    }
    NoMarkerUntruncated(cap, checks);
  }

  /** The list is truncated exactly when some failing check ran after `cap` distinct reasons were already held,
      even if the late reason is one of them. */
  lemma {:induction false} TruncatedExactly(cap: nat, checks: seq<Check>)
    requires RealCodes(checks)
    ensures Collect(cap, checks).truncated <==>
            exists k :: 0 <= k < |checks| && checks[k].fails && |Distinct(checks[..k])| >= cap
  {
    hide Distinct; hide SortUnique; hide HasCode;
    if checks != [] {
      var n := |checks| - 1;
      var pre := checks[..n];
      TruncatedExactly(cap, pre);
      LateSnoc(cap, checks);
      if !Collect(cap, pre).truncated { UntruncatedSize(cap, pre); }
    }
  }

  lemma LateSnoc(cap: nat, checks: seq<Check>)
    requires checks != []
    ensures var n := |checks| - 1;
            var pre := checks[..n];
            (exists k :: 0 <= k < |checks| && checks[k].fails && |Distinct(checks[..k])| >= cap) <==>
            || (exists k :: 0 <= k < |pre| && pre[k].fails && |Distinct(pre[..k])| >= cap)
            || (checks[n].fails && |Distinct(pre)| >= cap)
  {
    hide Distinct;
    var n := |checks| - 1;
    var pre := checks[..n];
    assert forall k :: 0 <= k < n ==> pre[..k] == checks[..k] && pre[k] == checks[k];
    if k :| 0 <= k < |pre| && pre[k].fails && |Distinct(pre[..k])| >= cap {
      assert checks[k].fails && |Distinct(checks[..k])| >= cap;
    }
  }

  /** Whatever the bound, as long as it is not zero, the list is empty exactly when no check failed. */
  lemma {:induction false} CleanExactly(cap: nat, checks: seq<Check>)
    requires cap >= 1 && RealCodes(checks)
    ensures Collect(cap, checks).reasons == [] <==> forall c :: c in checks ==> !c.fails
  {
    if checks != [] {
      var n := |checks| - 1;
      assert checks == checks[..n] + [checks[n]];
      CleanExactly(cap, checks[..n]);
      var o := Collect(cap, checks[..n]);
      if checks[n].fails {
        assert checks[n] in checks;
        SortUniqueMeaning(o.reasons + [checks[n].reason]);
        assert checks[n].reason in o.reasons + [checks[n].reason];
        if |o.reasons| >= cap {
          var t := o.reasons[|o.reasons| - 1 := Reason(LIMIT_REASONS, 0, 0)];
          SortUniqueMeaning(t);
          assert t[|t| - 1] in t;
        }
      }
    }
  }

  /** A bound of zero registers nothing: every validation then looks clean. */
  lemma {:induction false} ZeroBoundAcceptsEverything(checks: seq<Check>)
    ensures Collect(0, checks).reasons == []
  {
    CollectBounded(0, checks);
  }

  ghost predicate PhaseOrdered(checks: seq<Check>) {
    && (forall i, j :: 0 <= i < j < |checks| ==> PhaseOf(checks[i].reason.code) <= PhaseOf(checks[j].reason.code))
    && (forall i :: 0 <= i < |checks| ==> PhaseOf(checks[i].reason.code) <= 13)
  }

  ghost predicate Leads(rs: seq<Reason>, p: nat) {
    rs != [] && PhaseOf(rs[0].code) == p && forall x :: x in rs ==> p <= PhaseOf(x.code)
  }

  lemma AddKeepsPhase(cap: nat, o: Outcome, r: Reason, p: nat)
    requires cap >= 2 && |o.reasons| <= cap && r.code != 0 && p <= 13
    requires o.reasons == [] ==> PhaseOf(r.code) == p
    requires o.reasons != [] ==> Leads(o.reasons, p) && p <= PhaseOf(r.code)
    ensures Leads(AddTo(cap, o, r).reasons, p)
  {
    var n := |o.reasons|;
    var added := if n >= cap then o.reasons[n - 1 := Reason(LIMIT_REASONS, 0, 0)] else o.reasons + [r];
    assert forall k :: 0 <= k < |added| ==> p <= PhaseOf(added[k].code) by {
      assert forall k :: 0 <= k < n ==> o.reasons[k] in o.reasons;
    }
    SortUniqueMeaning(added);
    var t := SortUnique(added);
    assert added[0] in added && added[0] in t;
    assert t[0] in t;
  }

  lemma {:induction false} LeadsFrom(cap: nat, checks: seq<Check>, p: nat, first: nat)
    requires cap >= 2 && RealCodes(checks) && p <= 13
    requires first < |checks| && checks[first].fails && PhaseOf(checks[first].reason.code) == p
    requires forall k :: 0 <= k < first ==> !checks[k].fails
    requires forall k :: first <= k < |checks| ==> p <= PhaseOf(checks[k].reason.code)
    ensures Leads(Collect(cap, checks).reasons, p)
  {
    var n := |checks| - 1;
    var pre := checks[..n];
    CollectBounded(cap, pre);
    if first == n {
      CleanExactly(cap, pre);
    } else {
      LeadsFrom(cap, pre, p, first);
    }
    if checks[n].fails {
      assert checks[n] in checks;
      AddKeepsPhase(cap, Collect(cap, pre), checks[n].reason, p);
    }
  }

  /** With room for two reasons the primary reason is in the earliest failing phase, truncated or not. */
  lemma PrimaryPhaseEarliest(cap: nat, checks: seq<Check>, first: nat)
    requires cap >= 2 && RealCodes(checks) && PhaseOrdered(checks)
    requires first < |checks| && checks[first].fails
    requires forall k :: 0 <= k < first ==> !checks[k].fails
    ensures Leads(Collect(cap, checks).reasons, PhaseOf(checks[first].reason.code))
  {
    LeadsFrom(cap, checks, PhaseOf(checks[first].reason.code), first);
  }

  /** With room for one reason only, a second failure replaces the primary reason by the limit marker. */
  lemma {:induction false} SingleSlotLosesPrimary(checks: seq<Check>, i: nat, j: nat)
    requires RealCodes(checks) && i < j < |checks| && checks[i].fails && checks[j].fails
    ensures Collect(1, checks).reasons == [Reason(LIMIT_REASONS, 0, 0)]
    decreases |checks|
  {
    var n := |checks| - 1;
    var pre := checks[..n];
    CollectBounded(1, pre);
    var o := Collect(1, pre);
    var marker := Reason(LIMIT_REASONS, 0, 0);
    assert SortUnique([marker]) == [marker] by { assert [marker][..0] == []; }
    if j < n {
      SingleSlotLosesPrimary(pre, i, j);
      assert HasCode([marker], LIMIT_REASONS) by { assert [marker][0].code == LIMIT_REASONS; }
    } else {
      CleanExactly(1, pre);
      assert pre[i] in pre && pre[i].fails;
      assert |o.reasons| == 1;
      assert o.reasons[0 := marker] == [marker];
      assert checks[j] in checks;
      if HasCode(o.reasons, LIMIT_REASONS) {
        LimitMarkerOnlyWhenTruncated(1, pre);
        assert o.reasons[0] in o.reasons;
        assert o.reasons == [marker];
      }
    }
  }

  // ------------------------------------------------------------ the list itself

  /** Where an insertion loop stops in a sorted list, and what it then has to do. */
  lemma {:induction false} InsertAt(r: Reason, s: seq<Reason>, k: nat)
    requires Sorted(s) && k <= |s|
    requires forall i :: 0 <= i < k ==> Less(s[i], r)
    requires k < |s| ==> !Less(s[k], r)
    ensures Insert(r, s) == if k < |s| && s[k] == r then s else s[..k] + [r] + s[k..]
  {
    hide PhaseOf;
    if k > 0 {
      assert s[1..][..k - 1] == s[1..k] && s[1..][k - 1..] == s[k..];
      InsertAt(r, s[1..], k - 1);
      assert [s[0]] + s[1..k] == s[..k];
    }
  }

  /** Merge another result into a bounded list, reason by reason. */
  function AddAll(cap: nat, o: Outcome, rs: seq<Reason>): Outcome {
    if rs == [] then o else AddTo(cap, AddAll(cap, o, rs[..|rs| - 1]), rs[|rs| - 1])
  }

  class ValidationResult {
    const cap: nat
    var reasons: seq<Reason>
    var truncated: bool
    ghost var log: seq<Check>  // every check performed so far, in order

    constructor (cap: nat)
      ensures this.cap == cap && log == [] && reasons == [] && !truncated && Logged()
    {
      this.cap, reasons, truncated, log := cap, [], false, [];
    }

    function View(): Outcome reads this { Outcome(reasons, truncated) }

    ghost predicate Logged() reads this { View() == Collect(cap, log) }

    predicate Ok() reads this { reasons == [] }

    method SortAndDedup()
      modifies this`reasons
      ensures reasons == SortUnique(old(reasons))
    {
      var rs, sorted := reasons, [];
      for i := 0 to |rs|
        invariant sorted == SortUnique(rs[..i])
      {
        var r := rs[i];
        SortUniqueMeaning(rs[..i]);
        var k := 0;
        while k < |sorted| && Less(sorted[k], r)
          invariant 0 <= k <= |sorted|
          invariant forall j :: 0 <= j < k ==> Less(sorted[j], r)
        {
          k := k + 1;
        }
        InsertAt(r, sorted, k);
        assert rs[..i + 1][..i] == rs[..i];
        if !(k < |sorted| && sorted[k] == r) {
          sorted := sorted[..k] + [r] + sorted[k..];
        }
      }
      assert rs[..|rs|] == rs;
      reasons := sorted;
    }

    method Add(r: Reason)
      modifies this`reasons, this`truncated
      ensures View() == AddTo(cap, old(View()), r)
    {
      if r.code == 0 { return; }
      if |reasons| >= cap {
        var already := false;
        for i := 0 to |reasons|
          invariant already <==> HasCode(reasons[..i], LIMIT_REASONS)
        {
          if reasons[i].code == LIMIT_REASONS { already := true; }
          assert reasons[..i + 1] == reasons[..i] + [reasons[i]];
          assert forall j :: 0 <= j < i ==> reasons[..i + 1][j] == reasons[..i][j];
          assert reasons[..i + 1][i] == reasons[i];
        }
        assert reasons[..|reasons|] == reasons;
        if !already && cap > 0 {
          reasons := reasons[|reasons| - 1 := Reason(LIMIT_REASONS, 0, 0)];
          truncated := true;
          SortAndDedup();
        } else if cap == 0 {
          truncated := true;
        }
        return;
      }
      reasons := reasons + [r];
      SortAndDedup();
    }

    /** Record one check: `if (fails) add(...)`. */
    method AddIf(fails: bool, code: nat, index: nat, detail: nat)
      requires Logged()
      modifies this
      ensures Logged() && log == old(log) + [Check(fails, Reason(code, index, detail))]
    {
      log := log + [Check(fails, Reason(code, index, detail))];
      assert log[..|log| - 1] == old(log);
      if fails { Add(Reason(code, index, detail)); }
    }

    /** A block of checks, in order. */
    method Run(checks: seq<Check>)
      requires Logged()
      modifies this
      ensures Logged() && log == old(log) + checks
    {
      hide Collect;
      for i := 0 to |checks|
        invariant Logged() && log == old(log) + checks[..i]
      {
        AddIf(checks[i].fails, checks[i].reason.code, checks[i].reason.index, checks[i].reason.detail);
        assert checks[..i + 1] == checks[..i] + [checks[i]];
      }
      assert checks[..|checks|] == checks;
    }

    method Absorb(other: Outcome)
      modifies this`reasons, this`truncated
      ensures View() == AddAll(cap, Outcome(old(reasons), old(truncated) || other.truncated), other.reasons)
    {
      truncated := truncated || other.truncated;
      ghost var start := View();
      for i := 0 to |other.reasons|
        invariant View() == AddAll(cap, start, other.reasons[..i])
      {
        assert other.reasons[..i + 1][..i] == other.reasons[..i];
        Add(other.reasons[i]);
      }
      assert other.reasons[..|other.reasons|] == other.reasons;
    }
  }
}
