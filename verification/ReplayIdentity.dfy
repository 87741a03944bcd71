/** Which drafts and which batches the replay check takes for the same (`src/store.cpp`). */
module SrfReplayIdentity {
  import opened SrfTypes
  import opened SrfBytes
  import opened SrfCanonical
  import opened SrfStoreModel
  import opened SrfStoreLaws
  import opened SrfCommitLaws
  import opened SrfProtocol
  import opened SrfProtocolInv
  import opened SrfProtocolTheorems

  /** `n` is the length of the longest payload, and 0 when there is none. */
  ghost predicate IsLongest(ss: seq<Segment>, n: nat) {
    && (forall i :: 0 <= i < |ss| ==> |ss[i].payload| <= n)
    && (n == 0 || exists i :: 0 <= i < |ss| && |ss[i].payload| == n)
  }

  /** Two drafts that ask for the same: every field alike, equally many segments with equally long longest payloads, and
      segment by segment the same content at that width, an unset encoding being the expected one. */
  ghost predicate SameDraft(a: Draft, b: Draft) {
    && a.id == b.id && a.scope == b.scope && a.profile == b.profile && a.profileGeneration == b.profileGeneration
    && a.policy == b.policy && a.policyGeneration == b.policyGeneration && a.strictness == b.strictness
    && a.topology == b.topology && a.capability == b.capability && a.path == b.path
    && a.pathAuthority == b.pathAuthority && a.route == b.route && a.routeGeneration == b.routeGeneration
    && a.constraint == b.constraint && a.constraintGeneration == b.constraintGeneration && a.derived == b.derived
    && a.expectedGeneration == b.expectedGeneration && a.supersedes == b.supersedes
    && a.supersedesGeneration == b.supersedesGeneration
    && |a.segments| == |b.segments|
    && exists n: nat :: IsLongest(a.segments, n) && IsLongest(b.segments, n) && SameSegments(a.segments, b.segments, n)
  }

  ghost predicate SameSegments(ss: seq<Segment>, ts: seq<Segment>, n: nat)
    requires |ss| == |ts|
  {
    forall i :: 0 <= i < |ss| ==>
      && EffectiveKind(ss[i]) == EffectiveKind(ts[i]) && ss[i].id == ts[i].id && ss[i].generation == ts[i].generation
      && ss[i].node == ts[i].node && ss[i].adjacency == ts[i].adjacency && ss[i].endpoint == ts[i].endpoint
      && ss[i].binding == ts[i].binding && ss[i].policy == ts[i].policy
      && ss[i].policyGeneration == ts[i].policyGeneration && ss[i].topology == ts[i].topology
      && forall k :: 0 <= k < n ==> ByteAt(ss[i].payload, k) == ByteAt(ts[i].payload, k)
  }

  /** The kind of a segment and the encoding it has or is given. */
  function EffectiveKind(s: Segment): (SegmentKind, EncodingId) {
    (s.kind, if s.encoding != EncUnset then s.encoding
             else match s.kind
                  case KindNode => EncNode
                  case KindAdjacency => EncAdjacency
                  case KindEndpoint => EncEndpoint
                  case KindBinding => EncBinding
                  case KindPolicy => EncPolicy
                  case KindInvalid => EncUnset)
  }

  // ------------------------------------------------------------------- the width

  lemma {:induction false} MaxIsLongest(ss: seq<Segment>)
    ensures IsLongest(ss, MaxPayload(ss))
  {
    if ss != [] {
      var n := |ss| - 1;
      MaxIsLongest(ss[..n]);
      var rest := MaxPayload(ss[..n]);
      if rest != 0 {
        var i :| 0 <= i < n && |ss[..n][i].payload| == rest;
        assert |ss[i].payload| == rest;
      }
      assert forall i :: 0 <= i < n ==> ss[i] == ss[..n][i];
    }
  }

  lemma OneLongest(ss: seq<Segment>, m: nat, n: nat)
    requires IsLongest(ss, m) && IsLongest(ss, n)
    ensures m == n
  {}

  // ------------------------------------------------------------------ the segments

  lemma DraftRecordLength(s: Segment, w: nat)
    ensures |LE(0xC501, 2) + Flat(SegmentTokens(s, w))| == 80 + w
  {
    SegmentLength(s, w);
  }

  lemma {:induction false} DraftSegmentsLength(ss: seq<Segment>, w: nat)
    ensures |DraftSegmentBytes(ss, w)| == Times(|ss|, 80 + w)
  {
    hide SegmentTokens; hide Flat; hide LE;
    if ss != [] {
      DraftSegmentsLength(ss[..|ss| - 1], w);
      DraftRecordLength(ss[|ss| - 1], w);
    }
  }

  lemma OneSegment(a: Segment, b: Segment, w: nat)
    requires |a.payload| <= w && |b.payload| <= w
    ensures Flat(SegmentTokens(Canonical(a), w)) == Flat(SegmentTokens(Canonical(b), w)) <==> SemanticEqual(a, b, w)
  {
    var s, t := SegmentTokens(Canonical(a), w), SegmentTokens(Canonical(b), w);
    SegmentTokensMeaning(a, b, w);
    SegmentShape(Canonical(a), Canonical(b), w);
    SegmentShape(Canonical(b), Canonical(a), w);
    hide SegmentTokens; hide SemanticEqual; hide Canonical;
    if Flat(s) == Flat(t) { FlatInjective(s, t); }
  }

  lemma {:induction false} SegmentsInBytes(ss: seq<Segment>, ts: seq<Segment>, w: nat)
    requires |ss| == |ts| && WithinWidth(ss, w) && WithinWidth(ts, w)
    ensures DraftSegmentBytes(CanonicalizeAll(ss), w) == DraftSegmentBytes(CanonicalizeAll(ts), w) <==>
            forall i :: 0 <= i < |ss| ==> SemanticEqual(ss[i], ts[i], w)
  {
    hide SegmentTokens; hide SemanticEqual; hide Flat; hide LE; hide Canonical;
    if ss != [] {
      var n := |ss| - 1;
      SegmentsInBytes(ss[..n], ts[..n], w);
      var x, y := CanonicalizeAll(ss), CanonicalizeAll(ts);
      assert x[..n] == CanonicalizeAll(ss[..n]) && y[..n] == CanonicalizeAll(ts[..n]);
      DraftSegmentsLength(x[..n], w);
      DraftSegmentsLength(y[..n], w);
      OneSegment(ss[n], ts[n], w);
      OneMoreSegment(x, y, w);
    }
  }

  lemma OneMoreSegment(x: seq<Segment>, y: seq<Segment>, w: nat)
    requires |x| == |y| > 0 && |DraftSegmentBytes(x[..|x| - 1], w)| == |DraftSegmentBytes(y[..|y| - 1], w)|
    ensures var n := |x| - 1;
            DraftSegmentBytes(x, w) == DraftSegmentBytes(y, w) <==>
              && DraftSegmentBytes(x[..n], w) == DraftSegmentBytes(y[..n], w)
              && Flat(SegmentTokens(x[n], w)) == Flat(SegmentTokens(y[n], w))
  {
    hide SegmentTokens; hide Flat; hide LE;
    var n := |x| - 1;
    var a, b := DraftSegmentBytes(x[..n], w), DraftSegmentBytes(y[..n], w);
    var c, d := Flat(SegmentTokens(x[n], w)), Flat(SegmentTokens(y[n], w));
    if DraftSegmentBytes(x, w) == DraftSegmentBytes(y, w) {
      assert (a + LE(0xC501, 2)) + c == (b + LE(0xC501, 2)) + d;
      SplitEqual(a + LE(0xC501, 2), c, b + LE(0xC501, 2), d);
      SplitEqual(a, LE(0xC501, 2), b, LE(0xC501, 2));
    }
  }

  /** At the longest payload, semantic equality is agreement field by field. */
  lemma SemanticFieldByField(ss: seq<Segment>, ts: seq<Segment>, n: nat, w: nat)
    requires |ss| == |ts| && IsLongest(ss, n) && IsLongest(ts, n) && w == if n == 0 then 1 else n
    ensures (forall i :: 0 <= i < |ss| ==> SemanticEqual(ss[i], ts[i], w)) <==> SameSegments(ss, ts, n)
  {
    forall i | 0 <= i < |ss|
      ensures SemanticEqual(ss[i], ts[i], w) <==> SameSegments([ss[i]], [ts[i]], n)
    {
      var a, b := ss[i], ts[i];
      if n == 0 { assert ByteAt(a.payload, 0) == 0 && ByteAt(b.payload, 0) == 0; }
      assert [a][0] == a && [b][0] == b;
    }
    forall i | 0 <= i < |ss| && SameSegments(ss, ts, n) ensures SameSegments([ss[i]], [ts[i]], n) {}
    if forall i :: 0 <= i < |ss| ==> SameSegments([ss[i]], [ts[i]], n) {
      forall i | 0 <= i < |ss|
        ensures SameSegments([ss[i]], [ts[i]], n) && [ss[i]][0] == ss[i] && [ts[i]][0] == ts[i]
      {}
    }
  }

  // ---------------------------------------------------------------------- the head

  ghost predicate SameFields(a: Draft, b: Draft) {
    && a.id == b.id && a.scope == b.scope && a.profile == b.profile && a.profileGeneration == b.profileGeneration
    && a.policy == b.policy && a.policyGeneration == b.policyGeneration && a.strictness == b.strictness
    && a.topology == b.topology && a.capability == b.capability && a.path == b.path
    && a.pathAuthority == b.pathAuthority && a.route == b.route && a.routeGeneration == b.routeGeneration
    && a.constraint == b.constraint && a.constraintGeneration == b.constraintGeneration && a.derived == b.derived
    && a.expectedGeneration == b.expectedGeneration && a.supersedes == b.supersedes
    && a.supersedesGeneration == b.supersedesGeneration
  }

  lemma HeadAt(d: Draft)
    ensures var h := DraftHead(d);
            && |h| == 22 && h[0] == Num(2, 0xD101) && h[1] == Num(8, d.id) && h[2] == Num(8, d.scope)
            && h[3] == Num(8, d.profile) && h[4] == Num(8, d.profileGeneration) && h[5] == Num(8, d.policy)
            && h[6] == Num(8, d.policyGeneration) && h[7] == Num(1, d.strictness.Code()) && h[8] == Num(8, d.topology)
            && h[9] == Num(8, d.capability) && h[10] == Num(8, d.path) && h[11] == Num(8, d.pathAuthority)
            && h[12] == Num(8, d.route) && h[13] == Num(8, d.routeGeneration) && h[14] == Num(8, d.constraint)
            && h[15] == Num(8, d.constraintGeneration) && h[16] == Num(1, if d.derived then 1 else 0)
            && h[17] == Num(8, d.expectedGeneration) && h[18] == Num(8, d.supersedes)
            && h[19] == Num(8, d.supersedesGeneration) && h[20] == Num(4, MaxPayload(d.segments) % 0x1_0000_0000)
            && h[21] == Num(4, |d.segments| % 0x1_0000_0000)
  {
    hide MaxPayload;
  }

  lemma HeadShape(a: Draft, b: Draft)
    ensures SameShape(DraftHead(a), DraftHead(b)) && AllFit(DraftHead(a))
  {
    hide DraftHead; hide MaxPayload;
    HeadAt(a);
    HeadAt(b);
    Widths();
  }

  lemma HeadsExactly(a: Draft, b: Draft)
    ensures DraftHead(a) == DraftHead(b) <==>
            && SameFields(a, b) && MaxPayload(a.segments) % 0x1_0000_0000 == MaxPayload(b.segments) % 0x1_0000_0000
            && |a.segments| % 0x1_0000_0000 == |b.segments| % 0x1_0000_0000
  {
    hide DraftHead; hide MaxPayload;
    HeadAt(a);
    HeadAt(b);
    var x, y := DraftHead(a), DraftHead(b);
    if SameFields(a, b) && MaxPayload(a.segments) % 0x1_0000_0000 == MaxPayload(b.segments) % 0x1_0000_0000
       && |a.segments| % 0x1_0000_0000 == |b.segments| % 0x1_0000_0000 {
      assert x == y;
    }
  }

  // --------------------------------------------------------------------- the bytes

  /** Lengths that 32-bit fields can hold. */
  ghost predicate LengthsFit(d: Draft) { |d.segments| < 0x1_0000_0000 && MaxPayload(d.segments) < 0x1_0000_0000 }

  lemma TimesIsProduct(n: nat, unit: nat)
    ensures Times(n, unit) == n * unit
  {
    if n > 0 {
      TimesIsProduct(n - 1, unit);
      assert n * unit == (n - 1) * unit + unit;
    }
  }

  /** Sizes that agree in their fields and in total agree, as long as one side fits the fields. */
  lemma SizesAgree(n: nat, m: nat, v: nat, w: nat)
    requires n < 0x1_0000_0000 && v < 0x1_0000_0000 && n == m % 0x1_0000_0000 && v == w % 0x1_0000_0000
    requires n == 0 ==> v == 0
    requires m == 0 ==> w == 0
    requires n * (80 + (if v == 0 then 1 else v)) == m * (80 + (if w == 0 then 1 else w))
    ensures n == m && v == w
  {
    var x, y := 80 + (if v == 0 then 1 else v), 80 + (if w == 0 then 1 else w);
    assert n <= m && x <= y;
    if n < m {
      ProductGrows(n + 1, m, x);
      ProductGrows(x, y, m);
    } else if n > 0 && x < y {
      ProductGrows(x + 1, y, n);
    }
  }

  lemma ProductGrows(a: nat, b: nat, c: nat)
    requires a <= b
    ensures a * c <= b * c && c * a <= c * b
  {
    assert (b - a) * c >= 0;
    assert b * c == a * c + (b - a) * c;
  }

  lemma NoSegmentsNoWidth(ss: seq<Segment>)
    ensures ss == [] ==> MaxPayload(ss) == 0
  {}

  lemma SameSizes(a: Draft, b: Draft)
    requires LengthsFit(a) && DraftBytes(a) == DraftBytes(b)
    ensures DraftHead(a) == DraftHead(b) && |a.segments| == |b.segments|
    ensures MaxPayload(a.segments) == MaxPayload(b.segments)
    ensures DraftSegmentBytes(CanonicalizeAll(a.segments), DraftWidth(a))
            == DraftSegmentBytes(CanonicalizeAll(b.segments), DraftWidth(b))
  {
    hide DraftHead; hide DraftSegmentBytes; hide MaxPayload; hide Flat; hide Times;
    var x, y := DraftHead(a), DraftHead(b);
    var c, d := CanonicalizeAll(a.segments), CanonicalizeAll(b.segments);
    HeadShape(a, b);
    HeadShape(b, a);
    FlatLength(x, y);
    SplitEqual(Flat(x), DraftSegmentBytes(c, DraftWidth(a)), Flat(y), DraftSegmentBytes(d, DraftWidth(b)));
    FlatInjective(x, y);
    HeadsExactly(a, b);
    DraftSegmentsLength(c, DraftWidth(a));
    DraftSegmentsLength(d, DraftWidth(b));
    TimesIsProduct(|c|, 80 + DraftWidth(a));
    TimesIsProduct(|d|, 80 + DraftWidth(b));
    NoSegmentsNoWidth(a.segments);
    NoSegmentsNoWidth(b.segments);
    SizesAgree(|a.segments|, |b.segments|, MaxPayload(a.segments), MaxPayload(b.segments));
  }

  /** The bytes that stand for a draft in the replay check are the same for two drafts exactly when the drafts ask for
      the same. */
  lemma DraftBytesExactly(a: Draft, b: Draft)
    requires LengthsFit(a)
    ensures DraftBytes(a) == DraftBytes(b) <==> SameDraft(a, b)
  {
    hide DraftHead; hide DraftSegmentBytes; hide MaxPayload; hide SameFields; hide SameSegments; hide SemanticEqual;
    hide DraftBytes; hide IsLongest;
    MaxIsLongest(a.segments);
    MaxIsLongest(b.segments);
    FieldsAlike(a, b);
    if DraftBytes(a) == DraftBytes(b) {
      SameSizes(a, b);
      HeadsExactly(a, b);
      WidthCovers(a);
      WidthCovers(b);
      SegmentsInBytes(a.segments, b.segments, DraftWidth(a));
      SemanticFieldByField(a.segments, b.segments, MaxPayload(a.segments), DraftWidth(a));
    }
    if SameDraft(a, b) {
      var n: nat :| IsLongest(a.segments, n) && IsLongest(b.segments, n) && SameSegments(a.segments, b.segments, n);
      OneLongest(a.segments, n, MaxPayload(a.segments));
      OneLongest(b.segments, n, MaxPayload(b.segments));
      HeadsExactly(a, b);
      WidthCovers(a);
      WidthCovers(b);
      SegmentsInBytes(a.segments, b.segments, DraftWidth(a));
      SemanticFieldByField(a.segments, b.segments, n, DraftWidth(a));
      BytesOfParts(a, b);
    }
  }

  lemma FieldsAlike(a: Draft, b: Draft)
    ensures SameDraft(a, b) <==>
            && SameFields(a, b) && |a.segments| == |b.segments|
            && exists n: nat :: IsLongest(a.segments, n) && IsLongest(b.segments, n)
                                && SameSegments(a.segments, b.segments, n)
  {
    hide IsLongest; hide SameSegments;
  }

  lemma WidthCovers(d: Draft)
    ensures WithinWidth(d.segments, DraftWidth(d))
  {
    hide MaxPayload;
    MaxIsLongest(d.segments);
  }

  lemma BytesOfParts(a: Draft, b: Draft)
    requires DraftHead(a) == DraftHead(b)
    requires DraftSegmentBytes(CanonicalizeAll(a.segments), DraftWidth(a))
             == DraftSegmentBytes(CanonicalizeAll(b.segments), DraftWidth(b))
    ensures DraftBytes(a) == DraftBytes(b)
  {
    hide DraftHead; hide DraftSegmentBytes; hide Flat; hide DraftWidth;
  }

  /** What stands for an administrative event are the list, its scope and the generation it names, and nothing else. */
  lemma EventBytesExactly(id: u64, scope: u64, expected: u64, id': u64, scope': u64, expected': u64)
    ensures DraftBytes(TransitionDraft(id, scope, expected)) == DraftBytes(TransitionDraft(id', scope', expected')) <==>
            id == id' && scope == scope' && expected == expected'
  {
    hide DraftBytes; hide SameSegments;
    var a, b := TransitionDraft(id, scope, expected), TransitionDraft(id', scope', expected');
    DraftBytesExactly(a, b);
    FieldsAlike(a, b);
    if SameFields(a, b) {
      assert IsLongest(a.segments, 0) && IsLongest(b.segments, 0);
      NoneToCompare();
    }
  }

  lemma NoneToCompare()
    ensures SameSegments([], [], 0)
  {}

  // --------------------------------------------------------------------- the batch

  lemma {:induction false} WordsOfBatch(dg: DigestFn, ds: seq<Draft>)
    ensures |DigestWords(dg, ds)| == 2 + 16 * |ds|
  {
    hide DraftBytes;
    if ds != [] { WordsOfBatch(dg, ds[..|ds| - 1]); }
  }

  lemma DigestInWords(a: Digest, b: Digest)
    ensures LE(a.hi, 8) + LE(a.lo, 8) == LE(b.hi, 8) + LE(b.lo, 8) <==> a == b
  {
    hide LE;
    if LE(a.hi, 8) + LE(a.lo, 8) == LE(b.hi, 8) + LE(b.lo, 8) {
      SplitEqual(LE(a.hi, 8), LE(a.lo, 8), LE(b.hi, 8), LE(b.lo, 8));
      Widths();
      UnLEofLE(a.hi, 8); UnLEofLE(b.hi, 8); UnLEofLE(a.lo, 8); UnLEofLE(b.lo, 8);
    }
  }

  /** What goes into the digest of a batch is the sequence of the digests of its drafts. */
  lemma {:induction false} BatchBytesExactly(dg: DigestFn, a: seq<Draft>, b: seq<Draft>)
    ensures DigestWords(dg, a) == DigestWords(dg, b) <==>
            |a| == |b| && forall i :: 0 <= i < |a| ==> dg(DraftBytes(a[i])) == dg(DraftBytes(b[i]))
    decreases |a|
  {
    hide DraftBytes; hide LE;
    WordsOfBatch(dg, a);
    WordsOfBatch(dg, b);
    if |a| == |b| && a != [] {
      var n := |a| - 1;
      BatchBytesExactly(dg, a[..n], b[..n]);
      WordsOfBatch(dg, a[..n]);
      WordsOfBatch(dg, b[..n]);
      var x, y := dg(DraftBytes(a[n])), dg(DraftBytes(b[n]));
      DigestInWords(x, y);
      LastDigest(DigestWords(dg, a[..n]), DigestWords(dg, b[..n]), LE(x.hi, 8), LE(x.lo, 8), LE(y.hi, 8), LE(y.lo, 8));
      assert (forall i :: 0 <= i < |a| ==> dg(DraftBytes(a[i])) == dg(DraftBytes(b[i]))) <==>
             (forall i :: 0 <= i < n ==> dg(DraftBytes(a[..n][i])) == dg(DraftBytes(b[..n][i]))) && x == y;
    }
  }

  lemma LastDigest(p: Bytes, q: Bytes, a: Bytes, b: Bytes, c: Bytes, d: Bytes)
    requires |p| == |q| && |a| == |c| && |b| == |d|
    ensures p + a + b == q + c + d <==> p == q && a + b == c + d
  {
    assert p + a + b == p + (a + b) && q + c + d == q + (c + d);
    if p + a + b == q + c + d { SplitEqual(p, a + b, q, c + d); }
  }

  ghost predicate SameBatch(a: seq<Draft>, b: seq<Draft>) {
    |a| == |b| && forall i :: 0 <= i < |a| ==> SameDraft(a[i], b[i])
  }

  /** The digest takes none of the byte strings of the one batch for another one of the other. */
  ghost predicate NoClash(dg: DigestFn, a: seq<Draft>, b: seq<Draft>) {
    && (dg(DigestWords(dg, a)) == dg(DigestWords(dg, b)) ==> DigestWords(dg, a) == DigestWords(dg, b))
    && forall i :: 0 <= i < |a| && i < |b| && dg(DraftBytes(a[i])) == dg(DraftBytes(b[i])) ==>
         DraftBytes(a[i]) == DraftBytes(b[i])
  }

  /** Short of a collision, two batches have one digest exactly when they ask for the same, draft by draft. */
  lemma BatchDigestExactly(dg: DigestFn, a: seq<Draft>, b: seq<Draft>)
    requires NoClash(dg, a, b) && forall i :: 0 <= i < |a| ==> LengthsFit(a[i])
    ensures BatchDigest(dg, a) == BatchDigest(dg, b) <==> SameBatch(a, b)
  {
    hide DraftBytes; hide DigestWords; hide SameDraft; hide LengthsFit;
    BatchBytesExactly(dg, a, b);
    if |a| == |b| {
      forall i | 0 <= i < |a| ensures DraftBytes(a[i]) == DraftBytes(b[i]) <==> SameDraft(a[i], b[i]) {
        DraftBytesExactly(a[i], b[i]);
      }
    }
  }

  // ----------------------------------------------------------------------- runs

  lemma ValidatedFits(cfg: Config, ctx: Context, shape: Shape, d: Draft, res: Resolved)
    requires cfg.limits.maxReasons >= 1 && DraftValid(cfg, ctx, shape, d, res)
    ensures LengthsFit(d)
  {
    hide MaxPayload; hide DraftValid;
    AcceptedProfile(cfg, ctx, shape, d, res);
    MaxIsLongest(d.segments);
  }

  lemma SavedFits(cfg: Config, w: World, t: Thread)
    requires Sized(cfg) && ThreadInv(cfg, w, t) && t.phase.Saved? && t.job.Mutate?
    ensures forall i :: 0 <= i < |t.job.drafts| ==> LengthsFit(t.job.drafts[i])
  {
    hide ThreadInv; hide LengthsFit; hide DraftOutcome; hide BatchState; hide BatchDigest; hide AttemptAccepted;
    hide ResolvedIn;
    SavedContext(cfg, w, t);
    var ds := t.job.drafts;
    forall i | 0 <= i < |ds| ensures LengthsFit(ds[i]) {
      assert DraftValid(cfg, Ctx(t), t.job.shape, ds[i], t.found[i]);
      ValidatedFits(cfg, Ctx(t), t.job.shape, ds[i], t.found[i]);
    }
  }

  /** Whatever drafts come back under the attempt of a committed batch: short of a collision they are taken for a replay
      if and only if they ask for what was committed, draft by draft, and no administrative event landed under the
      attempt since; in every other case they are a mismatch, and in no case is anything changed. */
  lemma ResubmittedExactly(cfg: Config, r: Trace, k: nat, i: nat, m: nat, again: Thread, fails: bool)
    requires Sized(cfg) && IsTrace(cfg, r) && BatchCommits(r, k, i) && k < m < |r.states|
    requires again.phase.Observed? && again.job.Mutate?
    requires again.job.caller.attempt == r.states[k].threads[i].job.caller.attempt
    requires NoClash(cfg.digest, r.states[k].threads[i].job.drafts, again.job.drafts)
    requires NoCollision(cfg.digest, again.job.drafts)
    ensures var verdict :=
              if SameBatch(r.states[k].threads[i].job.drafts, again.job.drafts)
                 && forall n :: k < n < m ==> !AdminLands(r.states[n], r.labels[n], again.job.caller.attempt)
              then Replayed else Mismatched;
            Act(cfg, r.states[m].w, again, fails) == Move(r.states[m].w, Done(again, verdict))
  {
    hide IsTrace; hide ThreadInv; hide BatchDigest; hide Act; hide SameBatch; hide NoClash; hide NoCollision;
    hide BatchRecord; hide AdminLands; hide LengthsFit;
    var done := r.states[k].threads[i].job;
    CommitVisible(cfg, r, k, i);
    SavedFits(cfg, r.states[k].w, r.states[k].threads[i]);
    BatchDigestExactly(cfg.digest, done.drafts, again.job.drafts);
    ReplayIsExact(cfg, r, k, i, m, again, fails);
    RunLength(cfg, r);
    NoAdminLanded(r, k + 1, m, done.caller.attempt);
    RecordAnswers(cfg, r, k, i, m, again.job.drafts);
  }

  lemma RunLength(cfg: Config, r: Trace)
    requires IsTrace(cfg, r)
    ensures |r.states| == |r.labels| + 1
  {
    hide Step; hide Init;
  }

  /** An event on record answers to no batch. */
  lemma RecordAnswers(cfg: Config, r: Trace, k: nat, i: nat, m: nat, ds: seq<Draft>)
    requires BatchCommits(r, k, i) && k < m <= |r.labels| <= |r.states| && NoCollision(cfg.digest, ds)
    ensures var done := r.states[k].threads[i].job;
            BatchRecord(cfg, r, k, i, m) == BatchDigest(cfg.digest, ds) <==>
              && LastAdmin(r, k + 1, m, done.caller.attempt).None?
              && BatchDigest(cfg.digest, done.drafts) == BatchDigest(cfg.digest, ds)
  {
    hide DraftBytes; hide DigestWords; hide AdminLands; hide Landed;
    var x := r.states[k].threads[i].job.caller.attempt;
    var last := LastAdmin(r, k + 1, m, x);
    if last.Some? {
      EventNamed(r.states[last.value], r.labels[last.value], x);
      var event, ls := Landed(r.states[last.value], r.labels[last.value]).value.job, r.states[last.value].w.st.lists;
      var found := FindList(ls, event.list);
      PayloadsDiffer(cfg.digest, TransitionDraft(event.list, if found.Some? then found.value.content.scope else 0,
                                                 event.expected), ds);
    }
  }
}
