/** The record codecs of the durable image (`src/persistence.cpp`).

    An encoder lays a record out field after field; the decoder beside it reads the fields back in the same order from
    what is left of the record, and refuses whatever it finds out of range.  For every record there is one lemma that
    says what decoding an encoded record gives: that record, or nothing, and exactly when which. */
module SrfImageRecords {
  import opened SrfTypes
  import opened SrfBytes
  import opened SrfFields
  import opened SrfValidation
  import opened SrfCanonical
  import opened SrfStoreModel

  const WORD_LIMIT: nat := 0x1_0000_0000_0000_0000

  function FlagByte(f: bool): u8 { if f then 1 else 0 }

  function KindOf(code: u16): Option<SegmentKind> {
    match code
    case 1 => Some(KindNode)
    case 2 => Some(KindAdjacency)
    case 3 => Some(KindEndpoint)
    case 4 => Some(KindBinding)
    case 5 => Some(KindPolicy)
    case _ => None
  }

  function EncodingOf(code: u16): Option<EncodingId> {
    match code
    case 0 => Some(EncUnset)
    case 1 => Some(EncNode)
    case 2 => Some(EncAdjacency)
    case 3 => Some(EncEndpoint)
    case 4 => Some(EncBinding)
    case 5 => Some(EncPolicy)
    case _ => None
  }

  lemma CodesBack(k: SegmentKind, e: EncodingId)
    ensures KindOf(k.Code()) == if k.KindInvalid? then None else Some(k)
    ensures EncodingOf(e.Code()) == Some(e)
  {}

  function StateOf(code: u8): Option<LifecycleState> {
    match code
    case 1 => Some(Declared)
    case 2 => Some(Validating)
    case 3 => Some(Active)
    case 4 => Some(RevalidationRequired)
    case 5 => Some(Withdrawing)
    case 6 => Some(Withdrawn)
    case 7 => Some(Superseded)
    case 8 => Some(Revoked)
    case 9 => Some(Retired)
    case _ => None
  }

  function CurrentnessCode(c: Currentness): u8 {
    match c
    case Unknown => 0
    case Current => 1
    case NeedsRevalidation => 2
    case StaleProfile => 3
    case StalePolicy => 4
    case StaleTopology => 5
    case StaleCapability => 6
    case StalePathAuthority => 7
    case StaleRouteBinding => 8
    case StaleConstraintBinding => 9
    case StaleEpoch => 10
    case FencedPublisher => 11
  }

  function CurrentnessOf(code: u8): Option<Currentness> {
    match code
    case 0 => Some(Unknown)
    case 1 => Some(Current)
    case 2 => Some(NeedsRevalidation)
    case 3 => Some(StaleProfile)
    case 4 => Some(StalePolicy)
    case 5 => Some(StaleTopology)
    case 6 => Some(StaleCapability)
    case 7 => Some(StalePathAuthority)
    case 8 => Some(StaleRouteBinding)
    case 9 => Some(StaleConstraintBinding)
    case 10 => Some(StaleEpoch)
    case 11 => Some(FencedPublisher)
    case _ => None
  }

  lemma StatesBack(s: LifecycleState, c: Currentness)
    ensures StateOf(StateCode(s)) == Some(s) && CurrentnessOf(CurrentnessCode(c)) == Some(c)
  {}

  // --------------------------------------------------------------------- segments

  function SegmentTail(s: Segment): Bytes { HalfField(|s.payload| % 0x1_0000) + s.payload }

  function SegmentBytes(s: Segment): Bytes {
    HalfField(s.kind.Code()) + (HalfField(s.encoding.Code()) + (LongFields(Scalars(s)) + SegmentTail(s)))
  }

  /** One segment and what follows it.  `unset`: a missing encoding is let through, as the wire does and the image
      does not. */
  function DecodeSegment(lim: Limits, unset: bool, b: Bytes): Option<(Segment, Bytes)> {
    if |b| < 78 then None
    else
      var kind := KindOf(ReadHalf(b[..2]));
      var b1 := b[2..];
      var encoding := EncodingOf(ReadHalf(b1[..2]));
      var b2 := b1[2..];
      var v := ReadLongs(b2[..72], 9);
      var b3 := b2[72..];
      var n := ReadHalf(b3[..2]);
      var b4 := b3[2..];
      if kind.None? || encoding.None? || (encoding == Some(EncUnset) && !unset) || n > lim.maxPayloadBytes || |b4| < n
      then None
      else Some((Segment(kind.value, encoding.value, v[0], v[1], v[2], v[3], v[4], v[5], v[6], v[7], v[8], b4[..n]),
                 b4[n..]))
  }

  predicate SegmentOk(lim: Limits, unset: bool, s: Segment) {
    !s.kind.KindInvalid? && (s.encoding != EncUnset || unset) && |s.payload| <= lim.maxPayloadBytes
  }

  lemma CutFive(a: Bytes, b: Bytes, c: Bytes, d: Bytes, e: Bytes, rest: Bytes)
    ensures var whole := a + (b + (c + (d + e))) + rest;
            var t1 := whole[|a|..];
            var t2 := t1[|b|..];
            var t3 := t2[|c|..];
            var t4 := t3[|d|..];
            && |whole| == |a| + |b| + |c| + |d| + |e| + |rest|
            && whole[..|a|] == a && t1[..|b|] == b && t2[..|c|] == c && t3[..|d|] == d
            && t4[..|e|] == e && t4[|e|..] == rest
  {
    var t4 := e + rest;
    var t3 := d + t4;
    var t2 := c + t3;
    var t1 := b + t2;
    assert a + (b + (c + (d + e))) + rest == a + t1;
    Cut(a, t1); Cut(b, t2); Cut(c, t3); Cut(d, t4); Cut(e, rest);
  }

  lemma SegmentBack(lim: Limits, unset: bool, s: Segment, rest: Bytes)
    requires |s.payload| < 0x1_0000
    ensures DecodeSegment(lim, unset, SegmentBytes(s) + rest)
            == if SegmentOk(lim, unset, s) then Some((s, rest)) else None
  {
    hide LongFields; hide ReadLongs; hide HalfField; hide ReadHalf; hide KindOf; hide EncodingOf;
    CutFive(HalfField(s.kind.Code()), HalfField(s.encoding.Code()), LongFields(Scalars(s)), HalfField(|s.payload|),
            s.payload, rest);
    HalfBack(s.kind.Code());
    HalfBack(s.encoding.Code());
    LongsBack(Scalars(s));
    HalfBack(|s.payload|);
    CodesBack(s.kind, s.encoding);
  }

  lemma CodesForth(kind: u16, encoding: u16)
    ensures KindOf(kind).Some? ==> KindOf(kind).value.Code() == kind
    ensures EncodingOf(encoding).Some? ==> EncodingOf(encoding).value.Code() == encoding
  {}

  /** The fields of an accepted segment, and where they were read. */
  lemma SegmentFields(lim: Limits, unset: bool, b: Bytes)
    requires DecodeSegment(lim, unset, b).Some?
    ensures var (s, rest) := DecodeSegment(lim, unset, b).value;
            var n := |s.payload|;
            && |b| >= 78 + n && s.kind.Code() == ReadHalf(b[..2]) && s.encoding.Code() == ReadHalf(b[2..][..2])
            && Scalars(s) == ReadLongs(b[2..][2..][..72], 9) && n == ReadHalf(b[2..][2..][72..][..2])
            && s.payload == b[2..][2..][72..][2..][..n] && rest == b[2..][2..][72..][2..][n..]
            && SegmentOk(lim, unset, s)
  {
    hide ReadHalf; hide ReadLongs; hide KindOf; hide EncodingOf;
    CodesForth(ReadHalf(b[..2]), ReadHalf(b[2..][..2]));
    KindsReal(ReadHalf(b[..2]));
  }

  lemma KindsReal(code: u16)
    ensures KindOf(code).Some? ==> !KindOf(code).value.KindInvalid?
  {}

  /** An accepted segment re-encodes to the bytes it was read from. */
  lemma SegmentForth(lim: Limits, unset: bool, b: Bytes)
    requires DecodeSegment(lim, unset, b).Some?
    ensures var (s, rest) := DecodeSegment(lim, unset, b).value;
            b == SegmentBytes(s) + rest && |s.payload| < 0x1_0000 && SegmentOk(lim, unset, s)
  {
    hide LongFields; hide HalfField; hide ReadHalf; hide ReadLongs; hide DecodeSegment; hide SegmentOk; hide Scalars;
    SegmentFields(lim, unset, b);
    var (s, rest) := DecodeSegment(lim, unset, b).value;
    var b1 := b[2..];
    var b2 := b1[2..];
    var b3 := b2[72..];
    var b4 := b3[2..];
    HalfForth(b[..2]); HalfForth(b1[..2]); LongsForth(b2[..72], 9); HalfForth(b3[..2]);
    SplitSix(b, |s.payload|);
  }

  /** Whatever the payload, a segment reads back as itself exactly when it is acceptable and its length
      fits the field. */
  lemma SegmentBackExactly(lim: Limits, unset: bool, s: Segment, rest: Bytes)
    ensures DecodeSegment(lim, unset, SegmentBytes(s) + rest) == Some((s, rest)) <==>
            SegmentOk(lim, unset, s) && |s.payload| < 0x1_0000
  {
    hide SegmentBytes; hide DecodeSegment; hide SegmentOk;
    var b := SegmentBytes(s) + rest;
    if |s.payload| < 0x1_0000 { SegmentBack(lim, unset, s, rest); }
    if DecodeSegment(lim, unset, b).Some? { SegmentForth(lim, unset, b); }
  }

  lemma SplitSix(b: Bytes, n: nat)
    requires |b| >= 78 + n
    ensures b == (b[..2] + (b[2..][..2] + (b[2..][2..][..72] + (b[2..][2..][72..][..2] + b[2..][2..][72..][2..][..n]))))
                 + b[2..][2..][72..][2..][n..]
  {
    var b1 := b[2..];
    var b2 := b1[2..];
    var b3 := b2[72..];
    var b4 := b3[2..];
    assert b4 == b4[..n] + b4[n..];
    assert b3 == b3[..2] + b4;
    assert b2 == b2[..72] + b3;
    assert b1 == b1[..2] + b2;
    SixParts(b[..2], b1[..2], b2[..72], b3[..2], b4[..n], b4[n..]);
  }

  lemma SixParts(a: Bytes, b: Bytes, c: Bytes, d: Bytes, e: Bytes, f: Bytes)
    ensures a + (b + (c + (d + (e + f)))) == (a + (b + (c + (d + e)))) + f
  {}

  function SegmentsBytes(ss: seq<Segment>): Bytes {
    if ss == [] then [] else SegmentBytes(ss[0]) + SegmentsBytes(ss[1..])
  }

  function DecodeSegments(lim: Limits, unset: bool, b: Bytes, n: nat): Option<(seq<Segment>, Bytes)> {
    if n == 0 then Some(([], b))
    else match DecodeSegment(lim, unset, b)
         case None => None
         case Some((s, rest)) =>
           match DecodeSegments(lim, unset, rest, n - 1)
           case None => None
           case Some((ss, end)) => Some(([s] + ss, end))
  }

  predicate SegmentsOk(lim: Limits, unset: bool, ss: seq<Segment>) {
    forall i :: 0 <= i < |ss| ==> SegmentOk(lim, unset, ss[i])
  }

  ghost predicate PayloadsFit(ss: seq<Segment>) { forall i :: 0 <= i < |ss| ==> |ss[i].payload| < 0x1_0000 }

  lemma {:induction false} SegmentsBack(lim: Limits, unset: bool, ss: seq<Segment>, rest: Bytes)
    requires PayloadsFit(ss)
    ensures DecodeSegments(lim, unset, SegmentsBytes(ss) + rest, |ss|)
            == if SegmentsOk(lim, unset, ss) then Some((ss, rest)) else None
  {
    hide DecodeSegment; hide SegmentBytes; hide SegmentOk;
    if ss == [] {
      assert SegmentsBytes(ss) + rest == rest;
    } else {
      var tail := SegmentsBytes(ss[1..]) + rest;
      assert SegmentsBytes(ss) + rest == SegmentBytes(ss[0]) + tail;
      SegmentBack(lim, unset, ss[0], tail);
      SegmentsBack(lim, unset, ss[1..], rest);
      assert [ss[0]] + ss[1..] == ss;
      assert SegmentsOk(lim, unset, ss) <==> SegmentOk(lim, unset, ss[0]) && SegmentsOk(lim, unset, ss[1..]) by {
        if SegmentOk(lim, unset, ss[0]) && SegmentsOk(lim, unset, ss[1..]) {
          forall i | 0 <= i < |ss| ensures SegmentOk(lim, unset, ss[i]) { if i > 0 { assert ss[i] == ss[1..][i - 1]; } }
        }
      }
    }
  }

  lemma {:induction false} SegmentsForth(lim: Limits, unset: bool, b: Bytes, n: nat)
    requires DecodeSegments(lim, unset, b, n).Some?
    ensures var (ss, rest) := DecodeSegments(lim, unset, b, n).value;
            |ss| == n && b == SegmentsBytes(ss) + rest && PayloadsFit(ss) && SegmentsOk(lim, unset, ss)
    decreases n
  {
    hide DecodeSegment; hide SegmentBytes; hide SegmentOk;
    if n == 0 {
      assert [] + b == b;
    } else {
      SegmentForth(lim, unset, b);
      var (s, tail) := DecodeSegment(lim, unset, b).value;
      SegmentsForth(lim, unset, tail, n - 1);
      var (ss, rest) := DecodeSegments(lim, unset, tail, n - 1).value;
      assert ([s] + ss)[1..] == ss;
      Assoc(SegmentBytes(s), SegmentsBytes(ss), rest);
    }
  }

  lemma {:induction false} SegmentsSnoc(ss: seq<Segment>, i: nat)
    requires i < |ss|
    ensures SegmentsBytes(ss[..i + 1]) == SegmentsBytes(ss[..i]) + SegmentBytes(ss[i])
  {
    hide SegmentBytes;
    if i == 0 {
      assert ss[..1] == [ss[0]] && ss[..0] == [];
      assert SegmentsBytes([ss[0]]) == SegmentBytes(ss[0]) + SegmentsBytes([]);
    } else {
      SegmentsSnoc(ss[1..], i - 1);
      assert ss[..i + 1][1..] == ss[1..][..i] && ss[..i][1..] == ss[1..][..i - 1];
      Assoc(SegmentBytes(ss[0]), SegmentsBytes(ss[1..][..i - 1]), SegmentBytes(ss[i]));
    }
  }

  // --------------------------------------------------------------------- profiles

  function ProfileTail(p: Profile): Bytes {
    p.name + (HalfField(|p.capabilities| % 0x1_0000) + LongFields(p.capabilities))
  }

  function ProfileFlags(p: Profile): Bytes {
    ByteField(FlagByte(p.allowEmpty)) + (ByteField(FlagByte(p.allowConsecutive))
    + (ByteField(FlagByte(p.allowNonconsecutive)) + (ByteField(FlagByte(p.allowLoose))
    + (HalfField(|p.name| % 0x1_0000) + ProfileTail(p)))))
  }

  /** The support class is written as the one the decoder accepts. */
  function ProfileBytes(p: Profile): Bytes {
    LongFields([p.id, p.generation]) + (ByteField(1) + (HalfField(p.kindsMask) + (WordField(p.maxDepth)
    + (WordField(p.payloadWidth) + ProfileFlags(p)))))
  }

  /** The name and the capability keys, then the checks on the whole. */
  function DecodeProfileTail(p: Profile, n: nat, b: Bytes): Option<Profile> {
    if n > 256 || |b| < n + 2 then None
    else
      var count := ReadHalf(b[n..][..2]);
      var keys := b[n..][2..];
      if count > 64 || |keys| != 8 * count || p.id == 0 || p.generation == 0 || p.payloadWidth == 0 || p.maxDepth == 0
      then None
      else Some(p.(name := b[..n], capabilities := ReadLongs(keys, count)))
  }

  function DecodeProfileFlags(p: Profile, b: Bytes): Option<Profile> {
    if |b| < 6 then None
    else
      var b1 := b[1..];
      var b2 := b1[1..];
      var b3 := b2[1..];
      var b4 := b3[1..];
      var f0, f1, f2, f3 := ReadByte(b[..1]), ReadByte(b1[..1]), ReadByte(b2[..1]), ReadByte(b3[..1]);
      if f0 > 1 || f1 > 1 || f2 > 1 || f3 > 1 then None
      else DecodeProfileTail(p.(allowEmpty := f0 == 1, allowConsecutive := f1 == 1, allowNonconsecutive := f2 == 1,
                                allowLoose := f3 == 1),
                             ReadHalf(b4[..2]), b4[2..])
  }

  function DecodeProfile(b: Bytes): Option<Profile> {
    if |b| < 27 then None
    else
      var ids := ReadLongs(b[..16], 2);
      var b1 := b[16..];
      var b2 := b1[1..];
      var b3 := b2[2..];
      var b4 := b3[4..];
      if ReadByte(b1[..1]) != 1 then None
      else DecodeProfileFlags(
             Profile(ids[0], ids[1], [], 1, ReadHalf(b2[..2]), ReadWord(b3[..4]), ReadWord(b4[..4]),
                     false, false, false,
                     false, []),
             b4[4..])
  }

  predicate ProfileOk(p: Profile) {
    |p.name| <= 256 && |p.capabilities| <= 64 && p.id != 0 && p.generation != 0 && p.payloadWidth != 0
    && p.maxDepth != 0
  }

  lemma ProfileTailBack(p: Profile, q: Profile)
    requires |p.name| < 0x1_0000 && |p.capabilities| < 0x1_0000
    requires p.(support := 1) == q.(name := p.name, capabilities := p.capabilities)
    ensures DecodeProfileTail(q, |p.name|, ProfileTail(p)) == if ProfileOk(p) then Some(p.(support := 1)) else None
  {
    var t2 := LongFields(p.capabilities);
    var t1 := HalfField(|p.capabilities|) + t2;
    Cut(p.name, t1);
    Cut(HalfField(|p.capabilities|), t2);
    HalfBack(|p.capabilities|);
    LongsBack(p.capabilities);
  }

  lemma ProfileFlagsBack(p: Profile, q: Profile)
    requires |p.name| < 0x1_0000 && |p.capabilities| < 0x1_0000
    requires q == p.(support := 1, name := [], capabilities := [], allowEmpty := false, allowConsecutive := false,
                     allowNonconsecutive := false, allowLoose := false)
    ensures DecodeProfileFlags(q, ProfileFlags(p)) == if ProfileOk(p) then Some(p.(support := 1)) else None
  {
    hide ProfileTail; hide DecodeProfileTail; hide ByteField; hide HalfField; hide ReadByte; hide ReadHalf;
    hide ProfileOk;
    var f0, f1 := FlagByte(p.allowEmpty), FlagByte(p.allowConsecutive);
    var f2, f3 := FlagByte(p.allowNonconsecutive), FlagByte(p.allowLoose);
    var t5 := ProfileTail(p);
    var t4 := HalfField(|p.name|) + t5;
    var t3 := ByteField(f3) + t4;
    var t2 := ByteField(f2) + t3;
    var t1 := ByteField(f1) + t2;
    Cut(ByteField(f0), t1); Cut(ByteField(f1), t2); Cut(ByteField(f2), t3); Cut(ByteField(f3), t4);
    Cut(HalfField(|p.name|), t5);
    ByteBack(f0); ByteBack(f1); ByteBack(f2); ByteBack(f3); HalfBack(|p.name|);
    ProfileTailBack(p, q.(allowEmpty := f0 == 1, allowConsecutive := f1 == 1, allowNonconsecutive := f2 == 1,
                          allowLoose := f3 == 1));
  }

  lemma ProfileBack(p: Profile)
    requires |p.name| < 0x1_0000 && |p.capabilities| < 0x1_0000
    ensures DecodeProfile(ProfileBytes(p)) == if ProfileOk(p) then Some(p.(support := 1)) else None
  {
    hide ProfileFlags; hide DecodeProfileFlags; hide LongFields; hide ReadLongs; hide ByteField; hide HalfField;
    hide WordField; hide ReadByte; hide ReadHalf; hide ReadWord; hide ProfileOk;
    var ids := LongFields([p.id, p.generation]);
    var t5 := ProfileFlags(p);
    var t4 := WordField(p.payloadWidth) + t5;
    var t3 := WordField(p.maxDepth) + t4;
    var t2 := HalfField(p.kindsMask) + t3;
    var t1 := ByteField(1) + t2;
    Cut(ids, t1); Cut(ByteField(1), t2); Cut(HalfField(p.kindsMask), t3); Cut(WordField(p.maxDepth), t4);
    Cut(WordField(p.payloadWidth), t5);
    LongsBack([p.id, p.generation]); ByteBack(1); HalfBack(p.kindsMask); WordBack(p.maxDepth); WordBack(p.payloadWidth);
    ProfileFlagsBack(p, Profile(p.id, p.generation, [], 1, p.kindsMask, p.maxDepth, p.payloadWidth, false, false, false,
                                false, []));
  }

  // --------------------------------------------------------------------- policies

  function CountedLongs(vs: seq<u64>): Bytes { WordField(|vs| % 0x1_0000_0000) + LongFields(vs) }

  function DecodeCounted(b: Bytes, most: nat): Option<(seq<u64>, Bytes)> {
    if |b| < 4 then None
    else
      var n := ReadWord(b[..4]);
      if n > most || |b| < 4 + 8 * n then None else Some((ReadLongs(b[4..][..8 * n], n), b[4..][8 * n..]))
  }

  lemma CountedBack(vs: seq<u64>, most: nat, rest: Bytes)
    requires |vs| < 0x1_0000_0000
    ensures DecodeCounted(CountedLongs(vs) + rest, most) == if |vs| <= most then Some((vs, rest)) else None
  {
    var t := LongFields(vs) + rest;
    assert CountedLongs(vs) + rest == WordField(|vs|) + t;
    Cut(WordField(|vs|), t);
    Cut(LongFields(vs), rest);
    WordBack(|vs|);
    LongsBack(vs);
  }

  function PolicyFlags(p: Policy): Bytes {
    ByteField(FlagByte(p.allowReplacement)) + (ByteField(FlagByte(p.allowDerivation)) +
                                                ByteField(FlagByte(p.requireStrict)))
  }

  function PolicyTail(p: Policy): Bytes {
    HalfField(p.kindsMask) + (WordField(p.maxDepth) + (CountedLongs(p.required) +
                              (CountedLongs(p.forbidden) + PolicyFlags(p))))
  }

  function PolicyBytes(p: Policy): Bytes {
    LongFields([p.id, p.generation, p.ownerScope]) + (CountedLongs(p.allowedProfiles) + PolicyTail(p))
  }

  function DecodePolicyFlags(p: Policy, b: Bytes): Option<Policy> {
    if |b| != 3 then None
    else
      var b1 := b[1..];
      var f0, f1, f2 := ReadByte(b[..1]), ReadByte(b1[..1]), ReadByte(b1[1..]);
      if f0 > 1 || f1 > 1 || f2 > 1 || p.id == 0 || p.generation == 0 then None
      else Some(p.(allowReplacement := f0 == 1, allowDerivation := f1 == 1, requireStrict := f2 == 1))
  }

  function DecodePolicyTail(p: Policy, b: Bytes): Option<Policy> {
    if |b| < 6 then None
    else
      var b1 := b[2..];
      match DecodeCounted(b1[4..], 256)
      case None => None
      case Some((required, b2)) =>
        match DecodeCounted(b2, 256)
        case None => None
        case Some((forbidden, b3)) =>
          DecodePolicyFlags(p.(kindsMask := ReadHalf(b[..2]), maxDepth := ReadWord(b1[..4]), required := required,
                               forbidden := forbidden), b3)
  }

  function DecodePolicy(b: Bytes): Option<Policy> {
    if |b| < 24 then None
    else
      var ids := ReadLongs(b[..24], 3);
      match DecodeCounted(b[24..], 64)
      case None => None
      case Some((allowed, b1)) =>
        DecodePolicyTail(Policy(ids[0], ids[1], ids[2], allowed, 0, 0, [], [], false, false, false), b1)
  }

  predicate PolicyOk(p: Policy) {
    p.id != 0 && p.generation != 0 && |p.allowedProfiles| <= 64 && |p.required| <= 256 && |p.forbidden| <= 256
  }

  ghost predicate PolicyFits(p: Policy) {
    |p.allowedProfiles| < 0x1_0000_0000 && |p.required| < 0x1_0000_0000 && |p.forbidden| < 0x1_0000_0000
  }

  lemma PolicyFlagsBack(p: Policy, q: Policy)
    requires p == q.(allowReplacement := p.allowReplacement, allowDerivation := p.allowDerivation,
                     requireStrict := p.requireStrict)
    ensures DecodePolicyFlags(q, PolicyFlags(p)) == if p.id != 0 && p.generation != 0 then Some(p) else None
  {
    var f0, f1, f2 := FlagByte(p.allowReplacement), FlagByte(p.allowDerivation), FlagByte(p.requireStrict);
    Cut(ByteField(f0), ByteField(f1) + ByteField(f2));
    Cut(ByteField(f1), ByteField(f2));
    ByteBack(f0); ByteBack(f1); ByteBack(f2);
  }

  lemma PolicyTailBack(p: Policy, q: Policy)
    requires PolicyFits(p)
    requires q == p.(kindsMask := 0, maxDepth := 0, required := [], forbidden := [], allowReplacement := false,
                     allowDerivation := false, requireStrict := false)
    ensures DecodePolicyTail(q, PolicyTail(p))
            == if |p.required| <= 256 && |p.forbidden| <= 256 && p.id != 0 && p.generation != 0 then Some(p) else None
  {
    hide CountedLongs; hide DecodeCounted; hide PolicyFlags; hide DecodePolicyFlags; hide ReadHalf; hide ReadWord;
    hide HalfField; hide WordField;
    var t3 := PolicyFlags(p);
    var t2 := CountedLongs(p.forbidden) + t3;
    var t1 := CountedLongs(p.required) + t2;
    Cut(HalfField(p.kindsMask), WordField(p.maxDepth) + t1);
    Cut(WordField(p.maxDepth), t1);
    HalfBack(p.kindsMask);
    WordBack(p.maxDepth);
    CountedBack(p.required, 256, t2);
    CountedBack(p.forbidden, 256, t3);
    PolicyFlagsBack(p, p.(allowReplacement := false, allowDerivation := false, requireStrict := false));
  }

  lemma PolicyBack(p: Policy)
    requires PolicyFits(p)
    ensures DecodePolicy(PolicyBytes(p)) == if PolicyOk(p) then Some(p) else None
  {
    hide CountedLongs; hide DecodeCounted; hide PolicyTail; hide DecodePolicyTail; hide LongFields; hide ReadLongs;
    var ids := LongFields([p.id, p.generation, p.ownerScope]);
    Cut(ids, CountedLongs(p.allowedProfiles) + PolicyTail(p));
    LongsBack([p.id, p.generation, p.ownerScope]);
    CountedBack(p.allowedProfiles, 64, PolicyTail(p));
    PolicyTailBack(p, Policy(p.id, p.generation, p.ownerScope, p.allowedProfiles, 0, 0, [], [], false, false, false));
  }

  // ------------------------------------------------------------------------ lists

  function StoredRevision(r: nat): u64 { r % WORD_LIMIT }

  function ListTail(l: SegmentList): Bytes {
    ByteField(StateCode(l.state)) + (ByteField(CurrentnessCode(l.currentness))
    + (LongFields([l.contentDigest.hi, l.contentDigest.lo, l.sequenceDigest.hi, l.sequenceDigest.lo,
                   StoredRevision(l.committedRevision)])
    + (WordField(|l.content.segments| % 0x1_0000_0000) + SegmentsBytes(l.content.segments))))
  }

  function ListMiddle(l: SegmentList): Bytes {
    var v := l.provenance;
    LongFields([l.generation, l.lineage.supersedes, l.lineage.supersededBy, l.lineage.history, l.authority.publisher,
                l.authority.boot, l.authority.epoch, l.authority.attempt])
    + (LongFields([v.path, v.pathAuthority, v.route, v.routeGeneration, v.constraint, v.constraintGeneration,
                   v.policyGeneration, v.topology, v.capability, v.publisher, v.boot, v.epoch])
    + ListTail(l))
  }

  function ListBytes(l: SegmentList, width: u16): Bytes {
    var c := l.content;
    LongFields([c.id, c.scope, c.profile, c.profileGeneration, c.policy, c.policyGeneration])
    + (ByteField(c.strictness.Code()) + (HalfField(width)
    + (LongFields([c.topology, c.capability, c.path, c.pathAuthority, c.route, c.routeGeneration, c.constraint,
                   c.constraintGeneration])
    + ListMiddle(l))))
  }

  const BLANK_CONTENT := Content(0, 0, 0, 0, 0, 0, Strict, 0, 0, 0, 0, 0, 0, 0, 0, [])
  const NO_DIGEST := Digest(0, 0)
  const BLANK_LIST := SegmentList(BLANK_CONTENT, 0, Lineage(0, 0, 0), Writer(0, 0, 0, 0),
                                  Provenance(0, 0, 0, 0, 0, 0, 0, 0, 0, 0, 0, 0), Declared, Unknown, NO_DIGEST,
                                  NO_DIGEST, 0)

  function DecodeListTail(lim: Limits, l: SegmentList, b: Bytes): Option<SegmentList> {
    if |b| < 46 then None
    else
      var b1 := b[1..];
      var b2 := b1[1..];
      var b3 := b2[40..];
      var state, currentness := StateOf(ReadByte(b[..1])), CurrentnessOf(ReadByte(b1[..1]));
      var v := ReadLongs(b2[..40], 5);
      var count := ReadWord(b3[..4]);
      if state.None? || currentness.None? || count > lim.maxSegmentsPerList || l.generation == 0 then None
      else match DecodeSegments(lim, false, b3[4..], count)
           case None => None
           case Some((segments, end)) =>
             if end != [] then None
             else Some(l.(content := l.content.(segments := segments), state := state.value,
                          currentness := currentness.value, contentDigest := Digest(v[0], v[1]),
                          sequenceDigest := Digest(v[2], v[3]), committedRevision := v[4]))
  }

  function DecodeListMiddle(lim: Limits, l: SegmentList, b: Bytes): Option<SegmentList> {
    if |b| < 160 then None
    else
      var v := ReadLongs(b[..64], 8);
      var b1 := b[64..];
      var p := ReadLongs(b1[..96], 12);
      DecodeListTail(
        lim,
        l.(generation := v[0], lineage := Lineage(v[1], v[2], v[3]), authority := Writer(v[4], v[5], v[6], v[7]),
           provenance := Provenance(p[0], p[1], p[2], p[3], p[4], p[5], p[6], p[7], p[8], p[9], p[10], p[11])),
        b1[96..])
  }

  /** The list and the payload width it was encoded at. */
  function DecodeListFields(lim: Limits, b: Bytes): Option<(SegmentList, u16)> {
    if |b| < 115 then None
    else
      var v := ReadLongs(b[..48], 6);
      var b1 := b[48..];
      var b2 := b1[1..];
      var b3 := b2[2..];
      var strictness := ReadByte(b1[..1]);
      var width := ReadHalf(b2[..2]);
      var w := ReadLongs(b3[..64], 8);
      if (strictness != 1 && strictness != 2) || width == 0 || width > lim.maxPayloadBytes then None
      else match DecodeListMiddle(
                   lim,
                   BLANK_LIST.(content := Content(v[0], v[1], v[2], v[3], v[4], v[5],
                                                  if strictness == 1 then Strict else Loose, w[0], w[1], w[2], w[3],
                                                  w[4], w[5], w[6], w[7], [])),
                   b3[64..])
           case None => None
           case Some(l) => Some((l, width))
  }

  /** The digests are recomputed at the width in the record; a list of an unknown profile is refused. */
  predicate ListConsistent(cfg: Config, profiles: seq<Profile>, l: SegmentList, width: nat) {
    && (l.content.profile == 0 || FindProfile(profiles, l.content.profile).Some?)
    && SequenceDigest(cfg.digest, l.content.segments, width) == l.sequenceDigest
    && ContentDigest(cfg.digest, l.content, width) == l.contentDigest
  }

  function DecodeList(cfg: Config, profiles: seq<Profile>, b: Bytes): Option<SegmentList> {
    match DecodeListFields(cfg.limits, b)
    case None => None
    case Some((l, width)) => if ListConsistent(cfg, profiles, l, width) then Some(l) else None
  }

  predicate ListShapeOk(lim: Limits, l: SegmentList) {
    l.generation != 0 && |l.content.segments| <= lim.maxSegmentsPerList && SegmentsOk(lim, false, l.content.segments)
  }

  ghost predicate ListFits(l: SegmentList) {
    |l.content.segments| < 0x1_0000_0000 && PayloadsFit(l.content.segments) && l.committedRevision < WORD_LIMIT
  }

  lemma ListTailBack(lim: Limits, l: SegmentList, q: SegmentList)
    requires ListFits(l)
    requires q == l.(content := l.content.(segments := []), state := Declared, currentness := Unknown,
                     contentDigest := NO_DIGEST, sequenceDigest := NO_DIGEST, committedRevision := 0)
    ensures DecodeListTail(lim, q, ListTail(l)) == if ListShapeOk(lim, l) then Some(l) else None
  {
    hide LongFields; hide ReadLongs; hide ByteField; hide WordField; hide ReadByte; hide ReadWord; hide StateOf;
    hide CurrentnessOf; hide StateCode; hide CurrentnessCode; hide DecodeSegments; hide SegmentsBytes; hide SegmentsOk;
    hide PayloadsFit;
    var vs := [l.contentDigest.hi, l.contentDigest.lo, l.sequenceDigest.hi, l.sequenceDigest.lo, l.committedRevision];
    var n := |l.content.segments|;
    var t4 := SegmentsBytes(l.content.segments);
    var t3 := WordField(n) + t4;
    var t2 := LongFields(vs) + t3;
    var t1 := ByteField(CurrentnessCode(l.currentness)) + t2;
    Cut(ByteField(StateCode(l.state)), t1); Cut(ByteField(CurrentnessCode(l.currentness)), t2);
    Cut(LongFields(vs), t3); Cut(WordField(n), t4);
    ByteBack(StateCode(l.state)); ByteBack(CurrentnessCode(l.currentness)); LongsBack(vs); WordBack(n);
    StatesBack(l.state, l.currentness);
    SegmentsBack(lim, false, l.content.segments, []);
    assert t4 + [] == t4;
  }

  lemma ListMiddleBack(lim: Limits, l: SegmentList, q: SegmentList)
    requires ListFits(l)
    requires q == BLANK_LIST.(content := l.content.(segments := []))
    ensures DecodeListMiddle(lim, q, ListMiddle(l)) == if ListShapeOk(lim, l) then Some(l) else None
  {
    hide LongFields; hide ReadLongs; hide ListTail; hide DecodeListTail; hide ListShapeOk; hide ListFits;
    var v := l.provenance;
    var gs := [l.generation, l.lineage.supersedes, l.lineage.supersededBy, l.lineage.history, l.authority.publisher,
               l.authority.boot, l.authority.epoch, l.authority.attempt];
    var ps := [v.path, v.pathAuthority, v.route, v.routeGeneration, v.constraint, v.constraintGeneration,
               v.policyGeneration, v.topology, v.capability, v.publisher, v.boot, v.epoch];
    Cut(LongFields(gs), LongFields(ps) + ListTail(l));
    Cut(LongFields(ps), ListTail(l));
    LongsBack(gs);
    LongsBack(ps);
    TailLength(l);
    ListTailBack(lim, l, q.(generation := l.generation, lineage := l.lineage, authority := l.authority,
                            provenance := l.provenance));
  }

  lemma TailLength(l: SegmentList)
    ensures |ListTail(l)| >= 46
  {
    hide SegmentsBytes;
  }

  lemma ListFieldsBack(lim: Limits, l: SegmentList, width: u16)
    requires ListFits(l)
    ensures DecodeListFields(lim, ListBytes(l, width))
            == if ListShapeOk(lim, l) && 1 <= width <= lim.maxPayloadBytes then Some((l, width)) else None
  {
    hide LongFields; hide ReadLongs; hide ListMiddle; hide DecodeListMiddle; hide ListShapeOk; hide ListFits;
    hide ByteField; hide HalfField; hide ReadByte; hide ReadHalf;
    var c := l.content;
    var ids := [c.id, c.scope, c.profile, c.profileGeneration, c.policy, c.policyGeneration];
    var ws := [c.topology, c.capability, c.path, c.pathAuthority, c.route, c.routeGeneration, c.constraint,
               c.constraintGeneration];
    var t3 := LongFields(ws) + ListMiddle(l);
    var t2 := HalfField(width) + t3;
    var t1 := ByteField(c.strictness.Code()) + t2;
    Cut(LongFields(ids), t1); Cut(ByteField(c.strictness.Code()), t2); Cut(HalfField(width), t3);
    Cut(LongFields(ws), ListMiddle(l));
    LongsBack(ids); ByteBack(c.strictness.Code()); HalfBack(width); LongsBack(ws);
    ListMiddleBack(lim, l, BLANK_LIST.(content := c.(segments := [])));
  }

  lemma ListBack(cfg: Config, profiles: seq<Profile>, l: SegmentList, width: u16)
    requires ListFits(l)
    ensures DecodeList(cfg, profiles, ListBytes(l, width))
            == if ListShapeOk(cfg.limits, l) && 1 <= width <= cfg.limits.maxPayloadBytes
                  && ListConsistent(cfg, profiles, l, width)
               then Some(l) else None
  {
    hide ListBytes; hide DecodeListFields; hide ListConsistent; hide ListShapeOk; hide ListFits;
    ListFieldsBack(cfg.limits, l, width);
  }

  // --------------------------------------------- history, attempts and publishers

  function HistoryBytes(h: HistoryEntry): Bytes {
    LongFields([h.id, h.list, h.generation]) + (ByteField(StateCode(h.state))
    + (ByteField(CurrentnessCode(h.currentness))
    + LongFields([h.digest.hi, h.digest.lo, StoredRevision(h.revision)])))
  }

  function DecodeHistory(b: Bytes): Option<HistoryEntry> {
    if |b| != 50 then None
    else
      var v := ReadLongs(b[..24], 3);
      var b1 := b[24..];
      var b2 := b1[1..];
      var state, currentness := StateOf(ReadByte(b1[..1])), CurrentnessOf(ReadByte(b2[..1]));
      var w := ReadLongs(b2[1..], 3);
      if state.None? || currentness.None? || v[0] == 0 || v[2] == 0 then None
      else Some(HistoryEntry(v[0], v[1], v[2], state.value, currentness.value, Digest(w[0], w[1]), w[2]))
  }

  predicate HistoryOk(h: HistoryEntry) { h.id != 0 && h.generation != 0 }

  lemma HistoryBack(h: HistoryEntry)
    requires h.revision < WORD_LIMIT
    ensures DecodeHistory(HistoryBytes(h)) == if HistoryOk(h) then Some(h) else None
  {
    hide LongFields; hide ReadLongs; hide ByteField; hide ReadByte; hide StateOf; hide CurrentnessOf; hide StateCode;
    hide CurrentnessCode;
    var a, c := [h.id, h.list, h.generation], [h.digest.hi, h.digest.lo, h.revision];
    var t2 := ByteField(CurrentnessCode(h.currentness)) + LongFields(c);
    Cut(LongFields(a), ByteField(StateCode(h.state)) + t2);
    Cut(ByteField(StateCode(h.state)), t2);
    Cut(ByteField(CurrentnessCode(h.currentness)), LongFields(c));
    LongsBack(a); LongsBack(c); ByteBack(StateCode(h.state)); ByteBack(CurrentnessCode(h.currentness));
    StatesBack(h.state, h.currentness);
  }

  function AttemptBytes(a: Attempt): Bytes {
    LongFields([a.attempt, a.list, a.payload.hi, a.payload.lo, a.generation]) + ByteField(FlagByte(a.committed))
  }

  function DecodeAttempt(b: Bytes): Option<Attempt> {
    if |b| != 41 then None
    else
      var v, flag := ReadLongs(b[..40], 5), ReadByte(b[40..]);
      if flag > 1 || v[0] == 0 then None else Some(Attempt(v[0], v[1], Digest(v[2], v[3]), v[4], flag == 1))
  }

  lemma AttemptBack(a: Attempt)
    ensures DecodeAttempt(AttemptBytes(a)) == if a.attempt != 0 then Some(a) else None
  {
    hide LongFields; hide ReadLongs; hide ByteField; hide ReadByte;
    var vs := [a.attempt, a.list, a.payload.hi, a.payload.lo, a.generation];
    Cut(LongFields(vs), ByteField(FlagByte(a.committed)));
    LongsBack(vs);
    ByteBack(FlagByte(a.committed));
  }

  function PublisherBytes(p: Publisher): Bytes {
    LongFields([p.id, p.boot, p.scope, p.epoch]) + (ByteField(FlagByte(p.alive)) + ByteField(FlagByte(p.fenced)))
  }

  function DecodePublisher(b: Bytes): Option<Publisher> {
    if |b| != 34 then None
    else
      var v, b1 := ReadLongs(b[..32], 4), b[32..];
      var alive, fenced := ReadByte(b1[..1]), ReadByte(b1[1..]);
      if alive > 1 || fenced > 1 || v[0] == 0 || v[1] == 0 then None
      else Some(Publisher(v[0], v[1], v[2], v[3], alive == 1, fenced == 1))
  }

  predicate PublisherOk(p: Publisher) { p.id != 0 && p.boot != 0 }

  lemma PublisherBack(p: Publisher)
    ensures DecodePublisher(PublisherBytes(p)) == if PublisherOk(p) then Some(p) else None
  {
    hide LongFields; hide ReadLongs; hide ByteField; hide ReadByte;
    var vs := [p.id, p.boot, p.scope, p.epoch];
    var f0, f1 := FlagByte(p.alive), FlagByte(p.fenced);
    Cut(LongFields(vs), ByteField(f0) + ByteField(f1));
    Cut(ByteField(f0), ByteField(f1));
    LongsBack(vs);
    ByteBack(f0);
    ByteBack(f1);
  }

  function MetaBytes(epoch: u64, revision: nat): Bytes { LongFields([epoch, StoredRevision(revision)]) }

  function DecodeMeta(b: Bytes): Option<(u64, u64)> {
    if |b| != 16 then None else var v := ReadLongs(b, 2); Some((v[0], v[1]))
  }

  lemma MetaBack(epoch: u64, revision: nat)
    requires revision < WORD_LIMIT
    ensures DecodeMeta(MetaBytes(epoch, revision)) == Some((epoch, revision))
  {
    LongsBack([epoch, revision]);
  }

  function BootBytes(boot: u64): Bytes { LongFields([boot]) }

  function DecodeBoot(b: Bytes): Option<u64> {
    if |b| != 8 then None else var v := ReadLongs(b, 1)[0]; if v == 0 then None else Some(v)
  }

  lemma BootBack(boot: u64)
    ensures DecodeBoot(BootBytes(boot)) == if boot != 0 then Some(boot) else None
  {
    LongsBack([boot]);
  }
}
