/** Segment equality and the canonical byte encodings (`src/segment.cpp`, `src/canonical.cpp`). */
module SrfCanonical {
  import opened SrfTypes
  import opened SrfBytes

  // ---------------------------------------------------------------- equality

  function EffectiveEncoding(s: Segment): EncodingId {
    if s.encoding != EncUnset then s.encoding else ExpectedEncoding(s.kind)
  }

  predicate SameScalars(a: Segment, b: Segment) {
    && a.kind == b.kind && EffectiveEncoding(a) == EffectiveEncoding(b) && a.id == b.id
    && a.generation == b.generation && a.node == b.node && a.adjacency == b.adjacency && a.endpoint == b.endpoint
    && a.binding == b.binding && a.policy == b.policy && a.policyGeneration == b.policyGeneration
    && a.topology == b.topology
  }

  function ByteAt(p: Bytes, i: nat): u8 { if i < |p| then p[i] else 0 }

  /** Equality of two payloads under zero padding to `width`; an over-wide payload equals nothing. */
  predicate PayloadEqual(a: Bytes, b: Bytes, width: nat) {
    |a| <= width && |b| <= width && forall i :: 0 <= i < width ==> ByteAt(a, i) == ByteAt(b, i)
  }

  predicate SemanticEqual(a: Segment, b: Segment, width: nat) {
    SameScalars(a, b) && PayloadEqual(a.payload, b.payload, width)
  }

  /** The segment `operator==`: padded to the longer of the two payloads. */
  predicate OperatorEqual(a: Segment, b: Segment) {
    SameScalars(a, b)
    && PayloadEqual(a.payload, b.payload, if |a.payload| > |b.payload| then |a.payload| else |b.payload|)
  }

  /** `operator==` and semantic equality agree at every width that covers both payloads; below it, nothing is equal. */
  lemma EqualityAgrees(a: Segment, b: Segment, width: nat)
    ensures |a.payload| <= width && |b.payload| <= width ==> (SemanticEqual(a, b, width) <==> OperatorEqual(a, b))
    ensures width < |a.payload| || width < |b.payload| ==> !SemanticEqual(a, b, width)
  {
    var longer := if |a.payload| > |b.payload| then |a.payload| else |b.payload|;
    if longer <= width && PayloadEqual(a.payload, b.payload, longer) {
      forall i | 0 <= i < width ensures ByteAt(a.payload, i) == ByteAt(b.payload, i) {}
    }
    if longer <= width && PayloadEqual(a.payload, b.payload, width) {
      forall i | 0 <= i < longer ensures ByteAt(a.payload, i) == ByteAt(b.payload, i) {}
    }
  }

  method CanonicalPayloadEqual(a: Bytes, b: Bytes, width: nat) returns (eq: bool)
    ensures eq == PayloadEqual(a, b, width)
  {
    if |a| > width || |b| > width { return false; }
    for i := 0 to width
      invariant forall k :: 0 <= k < i ==> ByteAt(a, k) == ByteAt(b, k)
    {
      if ByteAt(a, i) != ByteAt(b, i) { return false; }
    }
    return true;
  }

  // ---------------------------------------------------------- canonicalization

  function Canonical(s: Segment): Segment { s.(encoding := EffectiveEncoding(s)) }

  function CanonicalizeAll(ss: seq<Segment>): (r: seq<Segment>)
    ensures |r| == |ss| && forall i :: 0 <= i < |ss| ==> r[i] == Canonical(ss[i])
  {
    seq(|ss|, i requires 0 <= i < |ss| => Canonical(ss[i]))
  }

  method CanonicalizeSegments(segments: seq<Segment>) returns (out: seq<Segment>)
    ensures out == CanonicalizeAll(segments)
  {
    out := segments;
    for i := 0 to |segments|
      invariant |out| == |segments|
      invariant forall k :: 0 <= k < i ==> out[k] == Canonical(segments[k])
      invariant forall k :: i <= k < |out| ==> out[k] == segments[k]
    {
      if out[i].encoding == EncUnset {
        out := out[i := out[i].(encoding := ExpectedEncoding(out[i].kind))];
      }
    }
  }

  // ------------------------------------------------------------------ encoding

  const SEQUENCE_MAGIC := 0xC503
  const CONTENT_MAGIC := 0xC502

  function Scalars(s: Segment): (vs: seq<u64>)
    ensures |vs| == 9
  {
    [s.id, s.generation, s.node, s.adjacency, s.endpoint, s.binding, s.policy, s.policyGeneration, s.topology]
  }

  /** The eleven scalar fields every encoding of a segment starts with. */
  function HeadTokens(s: Segment): (ts: seq<Token>)
    ensures |ts| == 11
  {
    [Num(2, s.kind.Code()), Num(2, s.encoding.Code())] + Words(Scalars(s))
  }

  /** The payload truncated to the width, then zero padded to it. */
  function Padded(p: Bytes, width: nat): (r: Bytes)
    ensures |r| == width && forall i :: 0 <= i < width ==> r[i] == ByteAt(p, i)
  {
    if |p| < width then p + Zeros(width - |p|) else p[..width]
  }

  function SegmentTokens(s: Segment, width: nat): (ts: seq<Token>)
    ensures |ts| == 13
  {
    HeadTokens(s) + [Num(2, width % 0x1_0000), Raw(Padded(s.payload, width))]
  }

  function Records(ss: seq<Segment>, width: nat): (r: seq<seq<Token>>)
    ensures |r| == |ss| && forall i :: 0 <= i < |ss| ==> r[i] == SegmentTokens(ss[i], width)
  {
    seq(|ss|, i requires 0 <= i < |ss| => SegmentTokens(ss[i], width))
  }

  function BodyTokens(ss: seq<Segment>, width: nat): seq<Token> { Join(Records(ss, width)) }

  function SequenceTokens(ss: seq<Segment>, width: nat): seq<Token> {
    [Num(2, SEQUENCE_MAGIC), Num(4, |ss| % 0x1_0000_0000)] + BodyTokens(ss, width)
  }

  function SequenceBytes(ss: seq<Segment>, width: nat): Bytes { Flat(SequenceTokens(ss, width)) }

  function ContentHead(c: Content, width: nat): seq<Token> {
    [Num(2, CONTENT_MAGIC), Num(4, width % 0x1_0000_0000)]
    + Words([c.id, c.scope, c.profile, c.profileGeneration, c.policy, c.policyGeneration])
    + [Num(1, c.strictness.Code())]
    + Words([c.topology, c.capability, c.path, c.pathAuthority, c.route, c.routeGeneration, c.constraint,
             c.constraintGeneration])
    + [Num(4, |c.segments| % 0x1_0000_0000)]
  }

  function ContentBytes(c: Content, width: nat): Bytes { Flat(ContentHead(c, width) + BodyTokens(c.segments, width)) }

  function SequenceDigest(dg: DigestFn, ss: seq<Segment>, width: nat): Digest { dg(SequenceBytes(ss, width)) }

  function ContentDigest(dg: DigestFn, c: Content, width: nat): Digest { dg(ContentBytes(c, width)) }

  method WriteSegment(w: ByteWriter, s: Segment, width: nat)
    requires w.Valid()
    modifies w
    ensures w.Valid() && w.tokens == old(w.tokens) + SegmentTokens(s, width)
  {
    hide Flat; hide HeadTokens;
    WriteHead(w, s);
    w.PutNum(2, width % 0x1_0000);
    var usable := if |s.payload| < width then |s.payload| else width;
    var body := s.payload[..usable];
    for i := usable to width
      invariant |body| == i && forall k :: 0 <= k < i ==> body[k] == ByteAt(s.payload, k)
    {
      body := body + [0];
    }
    assert body == Padded(s.payload, width);
    w.PutRaw(body);
  }

  method WriteHead(w: ByteWriter, s: Segment)
    requires w.Valid()
    modifies w
    ensures w.Valid() && w.tokens == old(w.tokens) + HeadTokens(s)
  {
    w.PutNum(2, s.kind.Code());
    w.PutNum(2, s.encoding.Code());
    w.PutWords(Scalars(s));
  }

  lemma BodySnoc(ss: seq<Segment>, i: nat, width: nat)
    requires i < |ss|
    ensures BodyTokens(ss[..i + 1], width) == BodyTokens(ss[..i], width) + SegmentTokens(ss[i], width)
  {
    assert Records(ss[..i + 1], width) == Records(ss[..i], width) + [SegmentTokens(ss[i], width)];
    JoinSnoc(Records(ss[..i], width), SegmentTokens(ss[i], width));
  }

  method WriteBody(w: ByteWriter, ss: seq<Segment>, width: nat)
    requires w.Valid()
    modifies w
    ensures w.Valid() && w.tokens == old(w.tokens) + BodyTokens(ss, width)
  {
    hide Flat; hide SegmentTokens;
    for i := 0 to |ss|
      invariant w.Valid() && w.tokens == old(w.tokens) + BodyTokens(ss[..i], width)
    {
      WriteSegment(w, ss[i], width);
      BodySnoc(ss, i, width);
      Assoc(old(w.tokens), BodyTokens(ss[..i], width), SegmentTokens(ss[i], width));
    }
    assert ss[..|ss|] == ss;
  }

  method CanonicalSequenceBytes(ss: seq<Segment>, width: nat) returns (bytes: Bytes)
    ensures bytes == SequenceBytes(ss, width)
  {
    var w := new ByteWriter();
    w.PutNum(2, SEQUENCE_MAGIC);
    w.PutNum(4, |ss| % 0x1_0000_0000);
    WriteBody(w, ss, width);
    assert w.tokens == SequenceTokens(ss, width);
    bytes := w.buf;
  }

  // --------------------------------------------------------------- injectivity

  lemma CodesInjective(a: Segment, b: Segment)
    ensures a.kind.Code() == b.kind.Code() <==> a.kind == b.kind
    ensures a.encoding.Code() == b.encoding.Code() <==> a.encoding == b.encoding
  {}

  lemma SegmentShape(a: Segment, b: Segment, width: nat)
    ensures SameShape(SegmentTokens(a, width), SegmentTokens(b, width))
    ensures AllFit(SegmentTokens(a, width))
  {
    Widths();
  }

  /** Canonical tokens carry exactly the semantic identity of a segment. */
  lemma SegmentTokensMeaning(a: Segment, b: Segment, width: nat)
    requires |a.payload| <= width && |b.payload| <= width
    ensures SegmentTokens(Canonical(a), width) == SegmentTokens(Canonical(b), width) <==> SemanticEqual(a, b, width)
  {
    var x, y := Canonical(a), Canonical(b);
    var s, t := SegmentTokens(x, width), SegmentTokens(y, width);
    CodesInjective(x, y);
    WordsInjective(Scalars(x), Scalars(y));
    if s == t {
      assert s[0] == t[0] && s[1] == t[1] && s[12] == t[12];
      assert s[2..11] == Words(Scalars(x)) && t[2..11] == Words(Scalars(y));
      SameScalarValues(x, y);
      assert Padded(x.payload, width) == Padded(y.payload, width);
      forall i | 0 <= i < width ensures ByteAt(a.payload, i) == ByteAt(b.payload, i) {
        assert Padded(x.payload, width)[i] == Padded(y.payload, width)[i];
      }
    }
    if SemanticEqual(a, b, width) {
      assert Padded(x.payload, width) == Padded(y.payload, width);
    }
  }

  lemma SameScalarValues(a: Segment, b: Segment)
    requires Scalars(a) == Scalars(b)
    ensures a.id == b.id && a.generation == b.generation && a.node == b.node && a.adjacency == b.adjacency
    ensures a.endpoint == b.endpoint && a.binding == b.binding && a.policy == b.policy
    ensures a.policyGeneration == b.policyGeneration && a.topology == b.topology
  {
    var s, t := Scalars(a), Scalars(b);
    assert s[0] == t[0] && s[1] == t[1] && s[2] == t[2] && s[3] == t[3] && s[4] == t[4];
    assert s[5] == t[5] && s[6] == t[6] && s[7] == t[7] && s[8] == t[8];
  }

  function Times(n: nat, unit: nat): nat { if n == 0 then 0 else Times(n - 1, unit) + unit }

  lemma {:induction false} TimesGrows(n: nat, m: nat, unit: nat)
    requires n < m && unit > 0
    ensures Times(n, unit) < Times(m, unit)
    decreases m - n
  {
    if n + 1 < m { TimesGrows(n, m - 1, unit); }
  }

  lemma {:induction false} BodyLength(ss: seq<Segment>, width: nat)
    ensures |Flat(BodyTokens(ss, width))| == Times(|ss|, 78 + width)
  {
    if ss != [] {
      var n := |ss| - 1;
      BodyLength(ss[..n], width);
      assert ss[..n + 1] == ss;
      BodySnoc(ss, n, width);
      FlatConcat(BodyTokens(ss[..n], width), SegmentTokens(ss[n], width));
      SegmentLength(ss[n], width);
    }
  }

  lemma HeadLength(s: Segment)
    ensures |Flat(HeadTokens(s))| == 76
  {
    var a, b, ws := Num(2, s.kind.Code()), Num(2, s.encoding.Code()), Words(Scalars(s));
    FlatConcat([a, b], ws);
    WordsLength(Scalars(s));
    FlatPair(a, b);
  }

  lemma SegmentLength(s: Segment, width: nat)
    ensures |Flat(SegmentTokens(s, width))| == 78 + width
  {
    var a, b := Num(2, width % 0x1_0000), Raw(Padded(s.payload, width));
    HeadLength(s);
    FlatConcat(HeadTokens(s), [a, b]);
    FlatPair(a, b);
  }

  lemma BodyInjective(a: seq<Segment>, b: seq<Segment>, width: nat)
    requires |a| == |b|
    ensures Flat(BodyTokens(a, width)) == Flat(BodyTokens(b, width)) <==>
            forall i :: 0 <= i < |a| ==> SegmentTokens(a[i], width) == SegmentTokens(b[i], width)
  {
    var x, y := Records(a, width), Records(b, width);
    forall i | 0 <= i < |a| ensures SameShape(x[i], y[i]) && AllFit(x[i]) && AllFit(y[i]) {
      SegmentShape(a[i], b[i], width);
      SegmentShape(b[i], a[i], width);
    }
    if Flat(BodyTokens(a, width)) == Flat(BodyTokens(b, width)) {
      JoinInjective(x, y);
      forall i | 0 <= i < |a| ensures SegmentTokens(a[i], width) == SegmentTokens(b[i], width) {
        assert x[i] == y[i];
      }
    }
    if forall i :: 0 <= i < |a| ==> SegmentTokens(a[i], width) == SegmentTokens(b[i], width) {
      assert x == y;
    }
  }

  lemma SequenceSplit(ss: seq<Segment>, width: nat)
    ensures SequenceBytes(ss, width)
            == LE(SEQUENCE_MAGIC, 2) + LE(|ss| % 0x1_0000_0000, 4) + Flat(BodyTokens(ss, width))
  {
    var a, b := Num(2, SEQUENCE_MAGIC), Num(4, |ss| % 0x1_0000_0000);
    FlatConcat([a, b], BodyTokens(ss, width));
    FlatPair(a, b);
  }

  ghost predicate WithinWidth(ss: seq<Segment>, width: nat) {
    forall i :: 0 <= i < |ss| ==> |ss[i].payload| <= width
  }

  /** Two canonicalized sequences encode to the same bytes exactly when they are pairwise semantically equal,
      in order and with nothing left over. */
  lemma SequenceBytesInjective(a: seq<Segment>, b: seq<Segment>, width: nat)
    requires WithinWidth(a, width) && WithinWidth(b, width)
    ensures SequenceBytes(CanonicalizeAll(a), width) == SequenceBytes(CanonicalizeAll(b), width) <==>
            |a| == |b| && forall i :: 0 <= i < |a| ==> SemanticEqual(a[i], b[i], width)
  {
    var x, y := CanonicalizeAll(a), CanonicalizeAll(b);
    SequenceSplit(x, width);
    SequenceSplit(y, width);
    BodyLength(x, width);
    BodyLength(y, width);
    if |a| == |b| {
      BodyInjective(x, y, width);
      forall i | 0 <= i < |a|
        ensures SegmentTokens(x[i], width) == SegmentTokens(y[i], width) <==> SemanticEqual(a[i], b[i], width)
      {
        SegmentTokensMeaning(a[i], b[i], width);
      }
      var head := LE(SEQUENCE_MAGIC, 2) + LE(|a| % 0x1_0000_0000, 4);
      if SequenceBytes(x, width) == SequenceBytes(y, width) {
        SplitEqual(head, Flat(BodyTokens(x, width)), head, Flat(BodyTokens(y, width)));
      }
    } else {
      if |a| < |b| { TimesGrows(|a|, |b|, 78 + width); } else { TimesGrows(|b|, |a|, 78 + width); }
    }
  }
}
