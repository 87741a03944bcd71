/** Where every field stands in the bytes of frames, images, records and canonical encodings, and by which number every
    constant goes (`src/wire.cpp`, `src/persistence.cpp`, `src/canonical.cpp`). */
module SrfLayout {
  import opened SrfTypes
  import opened SrfBytes
  import opened SrfFields
  import opened SrfCrc
  import opened SrfCanonical
  import opened SrfValidation
  import opened SrfStoreModel
  import opened SrfImageRecords
  import opened SrfImage
  import opened SrfWire
  import opened SrfWirePayloads
  import opened SrfReplayIdentity
  import opened SrfValidationExact

  // -------------------------------------------------------------------------- fields

  /** At `o` stands the number `v`, `w` bytes wide, the least significant byte first. */
  ghost predicate Lies(b: Bytes, o: nat, w: nat, v: nat) {
    o + w <= |b| && forall i :: 0 <= i < w ==> b[o + i] == v / Pow256(i) % 256
  }

  /** From `o` on stand these 64-bit numbers. */
  ghost predicate Longs(b: Bytes, o: nat, vs: seq<u64>) {
    o + 8 * |vs| <= |b| && forall k :: 0 <= k < |vs| ==> Lies(b, o + 8 * k, 8, vs[k])
  }

  ghost predicate Spells(b: Bytes, o: nat, text: string) {
    o + |text| <= |b| && forall i :: 0 <= i < |text| ==> b[o + i] == text[i] as int
  }

  lemma DivideTwice(n: nat, p: nat)
    requires p > 0
    ensures n / 256 / p == n / (256 * p)
  {
    var q, r := n / 256 / p, n / 256 % p;
    var low := n % 256;
    assert n == 256 * (p * q + r) + low;
    assert n == (256 * p) * q + (256 * r + low);
    assert 0 <= 256 * r + low < 256 * p;
    Quotient(n, 256 * p, q, 256 * r + low);
  }

  lemma Quotient(n: nat, d: nat, q: nat, r: nat)
    requires d > 0 && r < d && n == d * q + r
    ensures n / d == q
  {
    var x: int := n / d - q;
    Multiples(d, x);
    assert n == d * (n / d) + n % d;
    assert d * x == r - n % d;
  }

  lemma Multiples(d: int, x: int)
    requires d > 0
    ensures (x >= 1 ==> d * x >= d) && (x <= -1 ==> d * x <= -d)
  {}

  lemma {:induction false} LEMeaning(n: nat, k: nat)
    ensures forall i :: 0 <= i < k ==> LE(n, k)[i] == n / Pow256(i) % 256
    decreases k
  {
    if k > 0 {
      LEMeaning(n / 256, k - 1);
      forall i | 0 <= i < k ensures LE(n, k)[i] == n / Pow256(i) % 256 {
        if i > 0 { DivideTwice(n, Pow256(i - 1)); }
      }
    }
  }

  lemma Stands(b: Bytes, o: nat, w: nat, v: nat)
    requires o + w <= |b| && b[o..o + w] == LE(v, w)
    ensures Lies(b, o, w, v)
  {
    LEMeaning(v, w);
    var field := b[o..o + w];
    forall i | 0 <= i < w ensures b[o + i] == v / Pow256(i) % 256 { assert b[o + i] == field[i]; }
  }

  lemma {:induction false} LongsStand(b: Bytes, o: nat, vs: seq<u64>)
    requires o + 8 * |vs| <= |b| && b[o..o + 8 * |vs|] == LongFields(vs)
    ensures Longs(b, o, vs)
    decreases |vs|
  {
    hide Lies;
    if vs != [] {
      var c := b[o..o + 8 * |vs|];
      assert b[o..o + 8] == c[..8] == LE(vs[0], 8);
      assert b[o + 8..o + 8 + 8 * |vs[1..]|] == c[8..] == LongFields(vs[1..]);
      Stands(b, o, 8, vs[0]);
      LongsStand(b, o + 8, vs[1..]);
      forall k | 0 <= k < |vs| ensures Lies(b, o + 8 * k, 8, vs[k]) {
        if k > 0 { assert vs[1..][k - 1] == vs[k] && o + 8 + 8 * (k - 1) == o + 8 * k; }
      }
    }
  }

  // -------------------------------------------------------------------------- frames

  /** A frame: magic, version, message, flags, a reserved half, payload size, request id and a checksum over all that,
      28 bytes; the payload; and its checksum. */
  lemma FrameLayout(f: Frame)
    requires |f.payload| < 0x1_0000_0000
    ensures var b, n := FrameBytes(f), |f.payload|;
            && |b| == 32 + n && Spells(b, 0, "SRFW") && Lies(b, 4, 2, f.version) && Lies(b, 6, 2, f.message)
            && Lies(b, 8, 2, f.flags) && Lies(b, 10, 2, 0) && Lies(b, 12, 4, n) && Lies(b, 16, 8, f.requestId)
            && Lies(b, 24, 4, Crc32c(b[..24])) && b[28..28 + n] == f.payload && Lies(b, 28 + n, 4, Crc32c(f.payload))
  {
    hide Crc32c; hide Lies;
    var b, h, n := FrameBytes(f), FrameHead(f), |f.payload|;
    SrfWire.FrameSlices(h, f.payload, b);
    HeadSlices(f);
    Stands(b, 4, 2, f.version); Stands(b, 6, 2, f.message); Stands(b, 8, 2, f.flags); Stands(b, 10, 2, 0);
    Stands(b, 12, 4, n); Stands(b, 16, 8, f.requestId); Stands(b, 24, 4, Crc32c(h));
    Stands(b, 28 + n, 4, Crc32c(f.payload));
    assert forall i :: 0 <= i < 4 ==> b[..4][i] == b[i];
  }

  lemma HeadSlices(f: Frame)
    requires |f.payload| < 0x1_0000_0000
    ensures var h := FrameHead(f);
            && h[..4] == [0x53, 0x52, 0x46, 0x57] && h[4..6] == LE(f.version, 2) && h[6..8] == LE(f.message, 2)
            && h[8..10] == LE(f.flags, 2) && h[10..12] == LE(0, 2) && h[12..16] == LE(|f.payload|, 4)
            && h[16..24] == LE(f.requestId, 8)
  {
    hide LE;
  }

  /** Which frames a decoder takes at all: version 1, no flags, and a message number from 1 to 40. */
  lemma FrameConstants(f: Frame)
    ensures Deliverable(f) <==> f.version == 1 && f.flags == 0 && 1 <= f.message <= 40
  {}

  // --------------------------------------------------------------------------- images

  /** An image: magic, format version, a reserved half, the size and the number of the records and a checksum over all
      that, 24 bytes; the records; and their checksum. */
  lemma ImageLayout(rs: seq<Record>)
    requires |RecordsBytes(rs)| < WORD_LIMIT && |rs| < 0x1_0000_0000
    ensures var b, body := ImageOfRecords(rs), RecordsBytes(rs);
            var n := |body|;
            && |b| == 28 + n && Spells(b, 0, "SRFL") && Lies(b, 4, 2, 1) && Lies(b, 6, 2, 0) && Lies(b, 8, 8, n)
            && Lies(b, 16, 4, |rs|) && Lies(b, 20, 4, Crc32c(b[..20])) && b[24..24 + n] == body
            && Lies(b, 24 + n, 4, Crc32c(body))
  {
    hide Crc32c; hide Lies; hide RecordsBytes;
    var b, body := ImageOfRecords(rs), RecordsBytes(rs);
    var n := |body|;
    var h := HeaderBytes(n, |rs|);
    HeaderSlices(n, |rs|);
    ImageSlices(h, body, b);
    Stands(b, 4, 2, 1); Stands(b, 6, 2, 0); Stands(b, 8, 8, n); Stands(b, 16, 4, |rs|);
    Stands(b, 20, 4, Crc32c(h)); Stands(b, 24 + n, 4, Crc32c(body));
    assert forall i :: 0 <= i < 4 ==> b[i] == h[..4][i];
  }

  lemma HeaderSlices(n: nat, count: nat)
    requires n < WORD_LIMIT && count < 0x1_0000_0000
    ensures var h := HeaderBytes(n, count);
            && h[..4] == [0x53, 0x52, 0x46, 0x4C] && h[4..6] == LE(1, 2) && h[6..8] == LE(0, 2)
            && h[8..16] == LE(n, 8) && h[16..20] == LE(count, 4)
  {
    hide LE;
  }

  lemma ImageSlices(h: Bytes, body: Bytes, b: Bytes)
    requires |h| == 20 && b == h + (WordField(Crc32c(h)) + (body + WordField(Crc32c(body))))
    ensures var n := |body|;
            && |b| == 28 + n && b[..20] == h && b[20..24] == LE(Crc32c(h), 4) && b[24..24 + n] == body
            && b[24 + n..28 + n] == LE(Crc32c(body), 4)
    ensures forall i, j :: 0 <= i <= j <= 20 ==> b[i..j] == h[i..j]
  {
    hide Crc32c; hide LE;
  }

  /** A record: its kind, the size of its body, its body. */
  lemma RecordLayout(r: Record)
    requires |r.body| < 0x1_0000_0000
    ensures var b := RecordBytes(r);
            |b| == 6 + |r.body| && Lies(b, 0, 2, r.kind) && Lies(b, 2, 4, |r.body|) && b[6..] == r.body
  {
    hide Lies; hide LE;
    var b := RecordBytes(r);
    assert b[0..2] == LE(r.kind, 2) && b[2..6] == LE(|r.body|, 4);
    Stands(b, 0, 2, r.kind); Stands(b, 2, 4, |r.body|);
  }

  /** The kinds of records, in the order in which an image holds them. */
  lemma RecordKinds(s: DurableState)
    ensures var rs := StateRecords(s);
            var n2 := 1 + |s.profiles|;
            var n3 := n2 + |s.policies|;
            var n4 := n3 + |s.lists|;
            var n5 := n4 + |s.history|;
            var n6 := n5 + |s.attempts|;
            var n7 := n6 + |s.publishers|;
            && |rs| == n7 + |s.fencedBoots|
            && forall k :: 0 <= k < |rs| ==>
                 rs[k].kind == (if k < 1 then 1 else if k < n2 then 2 else if k < n3 then 3 else if k < n4 then 4
                                else if k < n5 then 5 else if k < n6 then 6 else if k < n7 then 7 else 8)
  {
    hide ProfileBytes; hide PolicyBytes; hide ListBytes; hide HistoryBytes; hide AttemptBytes; hide PublisherBytes;
    hide BootBytes; hide MetaBytes; hide ListWidth;
    KindsOfProfiles(s.profiles); KindsOfPolicies(s.policies); KindsOfLists(s.profiles, s.lists);
    KindsOfHistory(s.history); KindsOfAttempts(s.attempts); KindsOfPublishers(s.publishers);
    KindsOfBoots(s.fencedBoots);
    hide ProfileRecords; hide PolicyRecords; hide ListRecords; hide HistoryRecords; hide AttemptRecords;
    hide PublisherRecords; hide BootRecords;
  }

  ghost predicate AllOfKind(rs: seq<Record>, n: nat, kind: u16) { |rs| == n && forall r :: r in rs ==> r.kind == kind }

  lemma KindsOfProfiles(ps: seq<Profile>)
    ensures AllOfKind(ProfileRecords(ps), |ps|, 2)
  {
    hide ProfileBytes;
  }

  lemma KindsOfPolicies(ps: seq<Policy>)
    ensures AllOfKind(PolicyRecords(ps), |ps|, 3)
  {
    hide PolicyBytes;
  }

  lemma KindsOfLists(ps: seq<Profile>, ls: seq<SegmentList>)
    ensures AllOfKind(ListRecords(ps, ls), |ls|, 4)
  {
    hide ListBytes; hide ListWidth;
  }

  lemma KindsOfHistory(hs: seq<HistoryEntry>)
    ensures AllOfKind(HistoryRecords(hs), |hs|, 5)
  {
    hide HistoryBytes;
  }

  lemma KindsOfAttempts(rs: seq<Attempt>)
    ensures AllOfKind(AttemptRecords(rs), |rs|, 6)
  {
    hide AttemptBytes;
  }

  lemma KindsOfPublishers(ps: seq<Publisher>)
    ensures AllOfKind(PublisherRecords(ps), |ps|, 7)
  {
    hide PublisherBytes;
  }

  lemma KindsOfBoots(bs: seq<u64>)
    ensures AllOfKind(BootRecords(bs), |bs|, 8)
  {
    hide BootBytes;
  }

  // -------------------------------------------------------------------------- records

  lemma SegmentLayout(s: Segment)
    requires |s.payload| < 0x1_0000
    ensures var b := SegmentBytes(s);
            && |b| == 78 + |s.payload| && Lies(b, 0, 2, s.kind.Code()) && Lies(b, 2, 2, s.encoding.Code())
            && Longs(b, 4, [s.id, s.generation, s.node, s.adjacency, s.endpoint, s.binding, s.policy,
                            s.policyGeneration, s.topology])
            && Lies(b, 76, 2, |s.payload|) && b[78..] == s.payload
  {
    hide Lies; hide LE; hide LongFields; hide Longs;
    var b, vs := SegmentBytes(s), Scalars(s);
    assert b[0..2] == LE(s.kind.Code(), 2) && b[2..4] == LE(s.encoding.Code(), 2) && b[4..76] == LongFields(vs);
    assert b[76..78] == LE(|s.payload|, 2);
    Stands(b, 0, 2, s.kind.Code()); Stands(b, 2, 2, s.encoding.Code()); LongsStand(b, 4, vs);
    Stands(b, 76, 2, |s.payload|);
  }

  /** The parts of a profile record, one behind the other. */
  ghost predicate ProfilePieces(ids: Bytes, one: Bytes, mask: Bytes, depth: Bytes, width: Bytes, f0: Bytes, f1: Bytes,
                                f2: Bytes, f3: Bytes, size: Bytes, name: Bytes, count: Bytes, keys: Bytes, b: Bytes) {
    var n := |name|;
    && |b| == 35 + n + |keys| && b[0..16] == ids && b[16..17] == one && b[17..19] == mask && b[19..23] == depth
    && b[23..27] == width && b[27..28] == f0 && b[28..29] == f1 && b[29..30] == f2 && b[30..31] == f3
    && b[31..33] == size && b[33..33 + n] == name && b[33 + n..35 + n] == count && b[35 + n..] == keys
  }

  ghost predicate ProfileParts(p: Profile, b: Bytes) {
    ProfilePieces(LongFields([p.id, p.generation]), LE(1, 1), LE(p.kindsMask, 2), LE(p.maxDepth, 4),
                  LE(p.payloadWidth, 4), LE(FlagByte(p.allowEmpty), 1), LE(FlagByte(p.allowConsecutive), 1),
                  LE(FlagByte(p.allowNonconsecutive), 1), LE(FlagByte(p.allowLoose), 1), LE(|p.name|, 2), p.name,
                  LE(|p.capabilities|, 2), LongFields(p.capabilities), b)
  }

  lemma ProfileCut(p: Profile)
    requires |p.name| < 0x1_0000 && |p.capabilities| < 0x1_0000
    ensures ProfileParts(p, ProfileBytes(p))
  {
    hide LE; hide LongFields; hide FlagByte; hide ProfilePieces;
    ProfileSlices(LongFields([p.id, p.generation]), LE(1, 1), LE(p.kindsMask, 2), LE(p.maxDepth, 4),
                  LE(p.payloadWidth, 4), LE(FlagByte(p.allowEmpty), 1), LE(FlagByte(p.allowConsecutive), 1),
                  LE(FlagByte(p.allowNonconsecutive), 1), LE(FlagByte(p.allowLoose), 1), LE(|p.name|, 2), p.name,
                  LE(|p.capabilities|, 2), LongFields(p.capabilities), ProfileTail(p), ProfileFlags(p),
                  ProfileBytes(p));
  }

  /** The support class is always written as 1. */
  lemma ProfileLayout(p: Profile)
    requires |p.name| < 0x1_0000 && |p.capabilities| < 0x1_0000
    ensures var b, n := ProfileBytes(p), |p.name|;
            && |b| == 35 + n + 8 * |p.capabilities| && Longs(b, 0, [p.id, p.generation]) && Lies(b, 16, 1, 1)
            && Lies(b, 17, 2, p.kindsMask) && Lies(b, 19, 4, p.maxDepth) && Lies(b, 23, 4, p.payloadWidth)
            && Lies(b, 27, 1, if p.allowEmpty then 1 else 0) && Lies(b, 28, 1, if p.allowConsecutive then 1 else 0)
            && Lies(b, 29, 1, if p.allowNonconsecutive then 1 else 0) && Lies(b, 30, 1, if p.allowLoose then 1 else 0)
            && Lies(b, 31, 2, n) && b[33..33 + n] == p.name && Lies(b, 33 + n, 2, |p.capabilities|)
            && Longs(b, 35 + n, p.capabilities)
  {
    ProfileCut(p);
    hide Lies; hide LE; hide LongFields; hide Longs; hide ProfileBytes;
    var b, n := ProfileBytes(p), |p.name|;
    Stands(b, 17, 2, p.kindsMask); Stands(b, 19, 4, p.maxDepth); Stands(b, 23, 4, p.payloadWidth);
    Stands(b, 16, 1, 1); LongsStand(b, 0, [p.id, p.generation]);
    Stands(b, 27, 1, FlagByte(p.allowEmpty)); Stands(b, 28, 1, FlagByte(p.allowConsecutive));
    Stands(b, 29, 1, FlagByte(p.allowNonconsecutive)); Stands(b, 30, 1, FlagByte(p.allowLoose));
    Stands(b, 31, 2, n); Stands(b, 33 + n, 2, |p.capabilities|); LongsStand(b, 35 + n, p.capabilities);
  }

  lemma ProfileSlices(ids: Bytes, one: Bytes, mask: Bytes, depth: Bytes, width: Bytes, f0: Bytes, f1: Bytes, f2: Bytes,
                      f3: Bytes, size: Bytes, name: Bytes, count: Bytes, keys: Bytes, t: Bytes, f: Bytes, b: Bytes)
    requires |ids| == 16 && |one| == 1 && |mask| == 2 && |depth| == 4 && |width| == 4 && |f0| == 1 && |f1| == 1
    requires |f2| == 1 && |f3| == 1 && |size| == 2 && |count| == 2
    requires t == name + (count + keys) && f == f0 + (f1 + (f2 + (f3 + (size + t))))
    requires b == ids + (one + (mask + (depth + (width + f))))
    ensures ProfilePieces(ids, one, mask, depth, width, f0, f1, f2, f3, size, name, count, keys, b)
  {
    var n := |name|;
    assert t[0..n] == name && t[n..n + 2] == count && t[n + 2..] == keys;
    assert f[0..1] == f0 && f[1..2] == f1 && f[2..3] == f2 && f[3..4] == f3 && f[4..6] == size && f[6..] == t;
    assert b[0..16] == ids && b[16..17] == one && b[17..19] == mask && b[19..23] == depth && b[23..27] == width;
    assert b[27..] == f && b[33..] == f[6..];
    assert b[27..28] == f[0..1] && b[28..29] == f[1..2] && b[29..30] == f[2..3] && b[30..31] == f[3..4];
    assert b[31..33] == f[4..6] && b[33..33 + n] == t[0..n] && b[33 + n..35 + n] == t[n..n + 2];
    assert b[35 + n..] == t[n + 2..];
  }

  lemma PolicyLayout(p: Policy)
    requires |p.allowedProfiles| < 0x1_0000_0000 && |p.required| < 0x1_0000_0000 && |p.forbidden| < 0x1_0000_0000
    ensures var b := PolicyBytes(p);
            var o := 28 + 8 * |p.allowedProfiles|;
            var q := o + 10 + 8 * |p.required|;
            var t := q + 4 + 8 * |p.forbidden|;
            && |b| == t + 3 && Longs(b, 0, [p.id, p.generation, p.ownerScope]) && Lies(b, 24, 4, |p.allowedProfiles|)
            && Longs(b, 28, p.allowedProfiles) && Lies(b, o, 2, p.kindsMask) && Lies(b, o + 2, 4, p.maxDepth)
            && Lies(b, o + 6, 4, |p.required|) && Longs(b, o + 10, p.required) && Lies(b, q, 4, |p.forbidden|)
            && Longs(b, q + 4, p.forbidden) && Lies(b, t, 1, if p.allowReplacement then 1 else 0)
            && Lies(b, t + 1, 1, if p.allowDerivation then 1 else 0)
            && Lies(b, t + 2, 1, if p.requireStrict then 1 else 0)
  {
    PolicyCut(p);
    PolicyFields(p, PolicyBytes(p));
    hide Lies; hide Longs; hide PolicyBytes; hide PolicyParts;
  }

  lemma PolicyCut(p: Policy)
    requires |p.allowedProfiles| < 0x1_0000_0000 && |p.required| < 0x1_0000_0000 && |p.forbidden| < 0x1_0000_0000
    ensures PolicyParts(p, PolicyBytes(p))
  {
    PolicyIs(p);
    hide LE; hide LongFields; hide FlagByte; hide PolicyBytes; hide PolicyTail; hide PolicyPieces;
    var b, n := PolicyBytes(p), |p.allowedProfiles|;
    PolicySlices(LongFields([p.id, p.generation, p.ownerScope]), LE(n, 4), LongFields(p.allowedProfiles),
                 LE(p.kindsMask, 2), LE(p.maxDepth, 4), LE(|p.required|, 4), LongFields(p.required),
                 LE(|p.forbidden|, 4), LongFields(p.forbidden), LE(FlagByte(p.allowReplacement), 1),
                 LE(FlagByte(p.allowDerivation), 1), LE(FlagByte(p.requireStrict), 1), PolicyTail(p), b);
  }

  lemma PolicyIs(p: Policy)
    requires |p.allowedProfiles| < 0x1_0000_0000 && |p.required| < 0x1_0000_0000 && |p.forbidden| < 0x1_0000_0000
    ensures PolicyTail(p) == LE(p.kindsMask, 2) + (LE(p.maxDepth, 4)
                             + ((LE(|p.required|, 4) + LongFields(p.required))
                             + ((LE(|p.forbidden|, 4) + LongFields(p.forbidden))
                             + (LE(FlagByte(p.allowReplacement), 1)
                             + (LE(FlagByte(p.allowDerivation), 1) + LE(FlagByte(p.requireStrict), 1))))))
    ensures PolicyBytes(p) == LongFields([p.id, p.generation, p.ownerScope])
                              + ((LE(|p.allowedProfiles|, 4) + LongFields(p.allowedProfiles)) + PolicyTail(p))
  {
    hide LE; hide LongFields; hide FlagByte;
  }

  /** The parts of a policy record, one behind the other. */
  ghost predicate PolicyPieces(ids: Bytes, n: Bytes, ps: Bytes, mask: Bytes, depth: Bytes, m: Bytes, rs: Bytes,
                               k: Bytes, fs: Bytes, f0: Bytes, f1: Bytes, f2: Bytes, b: Bytes) {
    var o := 28 + |ps|;
    var q := o + 10 + |rs|;
    var u := q + 4 + |fs|;
    && |b| == u + 3 && b[0..24] == ids && b[24..28] == n && b[28..o] == ps && b[o..o + 2] == mask
    && b[o + 2..o + 6] == depth && b[o + 6..o + 10] == m && b[o + 10..q] == rs && b[q..q + 4] == k
    && b[q + 4..u] == fs && b[u..u + 1] == f0 && b[u + 1..u + 2] == f1 && b[u + 2..u + 3] == f2
  }

  ghost predicate PolicyParts(p: Policy, b: Bytes) {
    PolicyPieces(LongFields([p.id, p.generation, p.ownerScope]), LE(|p.allowedProfiles|, 4),
                 LongFields(p.allowedProfiles), LE(p.kindsMask, 2), LE(p.maxDepth, 4), LE(|p.required|, 4),
                 LongFields(p.required), LE(|p.forbidden|, 4), LongFields(p.forbidden),
                 LE(FlagByte(p.allowReplacement), 1), LE(FlagByte(p.allowDerivation), 1),
                 LE(FlagByte(p.requireStrict), 1), b)
  }

  /** Once the slices are known, the fields are. */
  lemma PolicyFields(p: Policy, b: Bytes)
    requires PolicyParts(p, b)
    ensures var o := 28 + 8 * |p.allowedProfiles|;
            var q := o + 10 + 8 * |p.required|;
            var t := q + 4 + 8 * |p.forbidden|;
            && |b| == t + 3 && Longs(b, 0, [p.id, p.generation, p.ownerScope]) && Lies(b, 24, 4, |p.allowedProfiles|)
            && Longs(b, 28, p.allowedProfiles) && Lies(b, o, 2, p.kindsMask) && Lies(b, o + 2, 4, p.maxDepth)
            && Lies(b, o + 6, 4, |p.required|) && Longs(b, o + 10, p.required) && Lies(b, q, 4, |p.forbidden|)
            && Longs(b, q + 4, p.forbidden) && Lies(b, t, 1, if p.allowReplacement then 1 else 0)
            && Lies(b, t + 1, 1, if p.allowDerivation then 1 else 0)
            && Lies(b, t + 2, 1, if p.requireStrict then 1 else 0)
  {
    hide Lies; hide LE; hide LongFields; hide Longs;
    var o := 28 + 8 * |p.allowedProfiles|;
    var q := o + 10 + 8 * |p.required|;
    var t := q + 4 + 8 * |p.forbidden|;
    LongsStand(b, 0, [p.id, p.generation, p.ownerScope]); Stands(b, 24, 4, |p.allowedProfiles|);
    LongsStand(b, 28, p.allowedProfiles); Stands(b, o, 2, p.kindsMask); Stands(b, o + 2, 4, p.maxDepth);
    Stands(b, o + 6, 4, |p.required|); LongsStand(b, o + 10, p.required); Stands(b, q, 4, |p.forbidden|);
    LongsStand(b, q + 4, p.forbidden);
    Stands(b, t, 1, FlagByte(p.allowReplacement)); Stands(b, t + 1, 1, FlagByte(p.allowDerivation));
    Stands(b, t + 2, 1, FlagByte(p.requireStrict));
  }

  lemma PolicySlices(ids: Bytes, n: Bytes, ps: Bytes, mask: Bytes, depth: Bytes, m: Bytes, rs: Bytes, k: Bytes,
                     fs: Bytes, f0: Bytes, f1: Bytes, f2: Bytes, t: Bytes, b: Bytes)
    requires |ids| == 24 && |n| == 4 && |mask| == 2 && |depth| == 4 && |m| == 4 && |k| == 4 && |f0| == 1 && |f1| == 1
    requires |f2| == 1
    requires t == mask + (depth + ((m + rs) + ((k + fs) + (f0 + (f1 + f2))))) && b == ids + ((n + ps) + t)
    ensures PolicyPieces(ids, n, ps, mask, depth, m, rs, k, fs, f0, f1, f2, b)
  {
    var o := 28 + |ps|;
    PolicyTailSlices(mask, depth, m, rs, k, fs, f0, f1, f2, t);
    assert b[0..24] == ids && b[24..28] == n && b[28..o] == ps && b[o..] == t;
    SliceBehind(b, t, o);
  }

  lemma PolicyTailSlices(mask: Bytes, depth: Bytes, m: Bytes, rs: Bytes, k: Bytes, fs: Bytes, f0: Bytes, f1: Bytes,
                         f2: Bytes, t: Bytes)
    requires |mask| == 2 && |depth| == 4 && |m| == 4 && |k| == 4 && |f0| == 1 && |f1| == 1 && |f2| == 1
    requires t == mask + (depth + ((m + rs) + ((k + fs) + (f0 + (f1 + f2)))))
    ensures var r := 10 + |rs|;
            var v := r + 4 + |fs|;
            && |t| == v + 3 && t[0..2] == mask && t[2..6] == depth && t[6..10] == m && t[10..r] == rs
            && t[r..r + 4] == k && t[r + 4..v] == fs && t[v..v + 1] == f0 && t[v + 1..v + 2] == f1
            && t[v + 2..v + 3] == f2
  {}

  lemma SliceBehind(b: Bytes, t: Bytes, o: nat)
    requires o <= |b| && b[o..] == t
    ensures forall i, j :: 0 <= i <= j <= |t| ==> b[o + i..o + j] == t[i..j]
  {
    forall i, j | 0 <= i <= j <= |t| ensures b[o + i..o + j] == t[i..j] { assert b[o..][i..j] == b[o + i..o + j]; }
  }

  lemma ListLayout(l: SegmentList, width: u16)
    requires |l.content.segments| < 0x1_0000_0000 && l.committedRevision < WORD_LIMIT
    ensures var b, c, v, w := ListBytes(l, width), l.content, l.provenance, l.authority;
            && |b| >= 321 && Longs(b, 0, [c.id, c.scope, c.profile, c.profileGeneration, c.policy, c.policyGeneration])
            && Lies(b, 48, 1, c.strictness.Code()) && Lies(b, 49, 2, width)
            && Longs(b, 51, [c.topology, c.capability, c.path, c.pathAuthority, c.route, c.routeGeneration,
                             c.constraint, c.constraintGeneration])
            && Longs(b, 115, [l.generation, l.lineage.supersedes, l.lineage.supersededBy, l.lineage.history,
                              w.publisher, w.boot, w.epoch, w.attempt])
            && Longs(b, 179, [v.path, v.pathAuthority, v.route, v.routeGeneration, v.constraint, v.constraintGeneration,
                              v.policyGeneration, v.topology, v.capability, v.publisher, v.boot, v.epoch])
            && Lies(b, 275, 1, StateCode(l.state)) && Lies(b, 276, 1, CurrentnessCode(l.currentness))
            && Longs(b, 277, [l.contentDigest.hi, l.contentDigest.lo, l.sequenceDigest.hi, l.sequenceDigest.lo,
                              l.committedRevision])
            && Lies(b, 317, 4, |c.segments|) && b[321..] == SegmentsBytes(c.segments)
  {
    hide Lies; hide LE; hide LongFields; hide Longs; hide StateCode; hide CurrentnessCode; hide SegmentsBytes;
    var b, c, v, w := ListBytes(l, width), l.content, l.provenance, l.authority;
    var m, t := ListMiddle(l), ListTail(l);
    var f1 := [c.id, c.scope, c.profile, c.profileGeneration, c.policy, c.policyGeneration];
    var f2 := [c.topology, c.capability, c.path, c.pathAuthority, c.route, c.routeGeneration, c.constraint,
               c.constraintGeneration];
    var f3 := [l.generation, l.lineage.supersedes, l.lineage.supersededBy, l.lineage.history, w.publisher, w.boot,
               w.epoch, w.attempt];
    var f4 := [v.path, v.pathAuthority, v.route, v.routeGeneration, v.constraint, v.constraintGeneration,
               v.policyGeneration, v.topology, v.capability, v.publisher, v.boot, v.epoch];
    var f5 := [l.contentDigest.hi, l.contentDigest.lo, l.sequenceDigest.hi, l.sequenceDigest.lo, l.committedRevision];
    ListSlices(LongFields(f1), LE(c.strictness.Code(), 1), LE(width, 2), LongFields(f2), LongFields(f3), LongFields(f4),
               LE(StateCode(l.state), 1), LE(CurrentnessCode(l.currentness), 1), LongFields(f5),
               LE(|c.segments|, 4), SegmentsBytes(c.segments), t, m, b);
    LongsStand(b, 0, f1); Stands(b, 48, 1, c.strictness.Code()); Stands(b, 49, 2, width); LongsStand(b, 51, f2);
    LongsStand(b, 115, f3); LongsStand(b, 179, f4); Stands(b, 275, 1, StateCode(l.state));
    Stands(b, 276, 1, CurrentnessCode(l.currentness)); LongsStand(b, 277, f5); Stands(b, 317, 4, |c.segments|);
  }

  lemma ListSlices(f1: Bytes, s: Bytes, w: Bytes, f2: Bytes, f3: Bytes, f4: Bytes, x: Bytes, y: Bytes, f5: Bytes,
                   n: Bytes, ss: Bytes, t: Bytes, m: Bytes, b: Bytes)
    requires |f1| == 48 && |s| == 1 && |w| == 2 && |f2| == 64 && |f3| == 64 && |f4| == 96 && |x| == 1 && |y| == 1
    requires |f5| == 40 && |n| == 4
    requires t == x + (y + (f5 + (n + ss))) && m == f3 + (f4 + t) && b == f1 + (s + (w + (f2 + m)))
    ensures |b| == 321 + |ss| && b[0..48] == f1 && b[48..49] == s && b[49..51] == w && b[51..115] == f2
    ensures b[115..179] == f3 && b[179..275] == f4 && b[275..276] == x && b[276..277] == y && b[277..317] == f5
    ensures b[317..321] == n && b[321..] == ss
  {
    assert t[0..1] == x && t[1..2] == y && t[2..42] == f5 && t[42..46] == n && t[46..] == ss;
    assert m[0..64] == f3 && m[64..160] == f4 && m[160..] == t;
    assert b[0..48] == f1 && b[48..49] == s && b[49..51] == w && b[51..115] == f2 && b[115..] == m;
    assert b[275..] == m[160..];
    assert b[115..179] == m[0..64] && b[179..275] == m[64..160] && b[275..276] == t[0..1] && b[276..277] == t[1..2];
    assert b[277..317] == t[2..42] && b[317..321] == t[42..46] && b[321..] == t[46..];
  }

  lemma HistoryLayout(h: HistoryEntry)
    requires h.revision < WORD_LIMIT
    ensures var b := HistoryBytes(h);
            && |b| == 50 && Longs(b, 0, [h.id, h.list, h.generation]) && Lies(b, 24, 1, StateCode(h.state))
            && Lies(b, 25, 1, CurrentnessCode(h.currentness)) && Longs(b, 26, [h.digest.hi, h.digest.lo, h.revision])
  {
    hide Lies; hide LE; hide LongFields; hide Longs; hide StateCode; hide CurrentnessCode;
    var b, f, g := HistoryBytes(h), [h.id, h.list, h.generation], [h.digest.hi, h.digest.lo, h.revision];
    assert b[0..24] == LongFields(f) && b[24..25] == LE(StateCode(h.state), 1) && b[26..50] == LongFields(g);
    assert b[25..26] == LE(CurrentnessCode(h.currentness), 1);
    LongsStand(b, 0, f); Stands(b, 24, 1, StateCode(h.state)); Stands(b, 25, 1, CurrentnessCode(h.currentness));
    LongsStand(b, 26, g);
  }

  lemma AttemptLayout(a: Attempt)
    ensures var b := AttemptBytes(a);
            && |b| == 41 && Longs(b, 0, [a.attempt, a.list, a.payload.hi, a.payload.lo, a.generation])
            && Lies(b, 40, 1, if a.committed then 1 else 0)
  {
    hide Lies; hide LE; hide LongFields; hide Longs;
    var b, f := AttemptBytes(a), [a.attempt, a.list, a.payload.hi, a.payload.lo, a.generation];
    assert b[0..40] == LongFields(f) && b[40..41] == LE(FlagByte(a.committed), 1);
    LongsStand(b, 0, f); Stands(b, 40, 1, FlagByte(a.committed));
  }

  lemma PublisherLayout(p: Publisher)
    ensures var b := PublisherBytes(p);
            && |b| == 34 && Longs(b, 0, [p.id, p.boot, p.scope, p.epoch]) && Lies(b, 32, 1, if p.alive then 1 else 0)
            && Lies(b, 33, 1, if p.fenced then 1 else 0)
  {
    hide Lies; hide LE; hide LongFields; hide Longs;
    var b, f := PublisherBytes(p), [p.id, p.boot, p.scope, p.epoch];
    assert b[0..32] == LongFields(f);
    assert b[32..33] == LE(FlagByte(p.alive), 1) && b[33..34] == LE(FlagByte(p.fenced), 1);
    LongsStand(b, 0, f); Stands(b, 32, 1, FlagByte(p.alive)); Stands(b, 33, 1, FlagByte(p.fenced));
  }

  lemma MetaAndBootLayout(epoch: u64, revision: nat, boot: u64)
    requires revision < WORD_LIMIT
    ensures |MetaBytes(epoch, revision)| == 16 && Longs(MetaBytes(epoch, revision), 0, [epoch, revision])
    ensures |BootBytes(boot)| == 8 && Longs(BootBytes(boot), 0, [boot])
  {
    hide Lies; hide LE; hide LongFields; hide Longs;
    assert MetaBytes(epoch, revision)[0..16] == LongFields([epoch, revision]);
    LongsStand(MetaBytes(epoch, revision), 0, [epoch, revision]);
    assert BootBytes(boot)[0..8] == LongFields([boot]);
    LongsStand(BootBytes(boot), 0, [boot]);
  }

  // ------------------------------------------------------------------------- payloads

  lemma MutationLayout(m: Mutation)
    requires |m.draft.segments| < 0x1_0000_0000
    ensures var b, d := MutationBytes(m), m.draft;
            && |b| >= 150
            && Longs(b, 0, [m.attempt, d.id, d.scope, d.profile, d.profileGeneration, d.policy, d.policyGeneration])
            && Lies(b, 56, 1, d.strictness.Code())
            && Longs(b, 57, [d.topology, d.capability, d.path, d.pathAuthority, d.route, d.routeGeneration,
                             d.constraint, d.constraintGeneration, d.expectedGeneration, d.supersedes,
                             d.supersedesGeneration])
            && Lies(b, 145, 1, if d.derived then 1 else 0) && Lies(b, 146, 4, |d.segments|)
            && b[150..] == SegmentsBytes(d.segments)
  {
    hide Lies; hide LE; hide LongFields; hide Longs; hide SegmentsBytes;
    var b, d := MutationBytes(m), m.draft;
    var f := [m.attempt, d.id, d.scope, d.profile, d.profileGeneration, d.policy, d.policyGeneration];
    var g := [d.topology, d.capability, d.path, d.pathAuthority, d.route, d.routeGeneration, d.constraint,
              d.constraintGeneration, d.expectedGeneration, d.supersedes, d.supersedesGeneration];
    var t := MutationTail(d);
    assert t[0..1] == LE(FlagByte(d.derived), 1) && t[1..5] == LE(|d.segments|, 4);
    assert t[5..] == SegmentsBytes(d.segments);
    assert b[0..56] == LongFields(f) && b[56..57] == LE(d.strictness.Code(), 1) && b[57..145] == LongFields(g);
    assert b[145..] == t;
    hide MutationTail;
    assert b[145..146] == t[0..1] && b[146..150] == t[1..5] && b[150..] == t[5..];
    LongsStand(b, 0, f); Stands(b, 56, 1, d.strictness.Code()); LongsStand(b, 57, g);
    Stands(b, 145, 1, FlagByte(d.derived)); Stands(b, 146, 4, |d.segments|);
  }

  /** A reason takes 14 bytes, a summary 62. */
  lemma ResponseParts(r: WireReason, s: Summary)
    ensures var b := ReasonBytes(r);
            |b| == 14 && Lies(b, 0, 2, r.code) && Lies(b, 2, 4, r.index) && Lies(b, 6, 8, r.detail)
    ensures var b := SummaryBytes(s);
            && |b| == 62 && Longs(b, 0, [s.list, s.generation]) && Lies(b, 16, 1, StateCode(s.state))
            && Lies(b, 17, 1, CurrentnessCode(s.currentness))
            && Longs(b, 18, [s.profile, s.profileGeneration, s.digest.hi, s.digest.lo])
            && Lies(b, 50, 4, s.segmentCount) && Lies(b, 54, 8, s.epoch)
  {
    hide Lies; hide LE; hide LongFields; hide Longs; hide StateCode; hide CurrentnessCode;
    var a, b := ReasonBytes(r), SummaryBytes(s);
    assert a[0..2] == LE(r.code, 2) && a[2..6] == LE(r.index, 4) && a[6..14] == LE(r.detail, 8);
    Stands(a, 0, 2, r.code); Stands(a, 2, 4, r.index); Stands(a, 6, 8, r.detail);
    var f, g := [s.list, s.generation], [s.profile, s.profileGeneration, s.digest.hi, s.digest.lo];
    assert b[0..16] == LongFields(f) && b[16..17] == LE(StateCode(s.state), 1);
    assert b[17..18] == LE(CurrentnessCode(s.currentness), 1) && b[18..50] == LongFields(g);
    assert b[50..54] == LE(s.segmentCount, 4) && b[54..62] == LE(s.epoch, 8);
    LongsStand(b, 0, f); Stands(b, 16, 1, StateCode(s.state)); Stands(b, 17, 1, CurrentnessCode(s.currentness));
    LongsStand(b, 18, g); Stands(b, 50, 4, s.segmentCount); Stands(b, 54, 8, s.epoch);
  }

  lemma ResponseSlices(id: Bytes, status: Bytes, count: Bytes, rs: Bytes, f0: Bytes, f: Bytes, f1: Bytes, g: Bytes,
                       n: Bytes, ss: Bytes, t: Bytes, b: Bytes)
    requires |id| == 8 && |status| == 1 && |count| == 4 && |f0| == 1 && |f| == 32 && |f1| == 1 && |g| == 16 && |n| == 4
    requires t == f0 + (f + (f1 + (g + (n + ss)))) && b == id + (status + (count + (rs + t)))
    ensures var o := 13 + |rs|;
            && |b| == o + 54 + |ss| && b[0..8] == id && b[8..9] == status && b[9..13] == count && b[13..o] == rs
            && b[o..o + 1] == f0 && b[o + 1..o + 33] == f && b[o + 33..o + 34] == f1 && b[o + 34..o + 50] == g
            && b[o + 50..o + 54] == n && b[o + 54..] == ss
  {
    var o := 13 + |rs|;
    assert t[0..1] == f0 && t[1..33] == f && t[33..34] == f1 && t[34..50] == g && t[50..54] == n && t[54..] == ss;
    assert b[0..8] == id && b[8..9] == status && b[9..13] == count && b[13..o] == rs && b[o..] == t;
    SliceBehind(b, t, o);
    assert b[o + 54..] == b[o..][54..];
  }

  lemma ResponseLayout(r: Response)
    requires |r.reasons| < 0x1_0000_0000 && |r.summaries| < 0x1_0000_0000
    ensures var b, n := ResponseBytes(r), 13 + |ReasonsBytes(r.reasons)|;
            && |b| >= n + 54 && Lies(b, 0, 8, r.requestId) && Lies(b, 8, 1, r.status) && Lies(b, 9, 4, |r.reasons|)
            && b[13..n] == ReasonsBytes(r.reasons) && Lies(b, n, 1, if r.truncated then 1 else 0)
            && Longs(b, n + 1, [r.list, r.generation, r.digest.hi, r.digest.lo])
            && Lies(b, n + 33, 1, if r.replay then 1 else 0) && Longs(b, n + 34, [r.epoch, r.session])
            && Lies(b, n + 50, 4, |r.summaries|) && b[n + 54..] == SummariesBytes(r.summaries)
  {
    hide Lies; hide LE; hide LongFields; hide Longs; hide ReasonsBytes; hide SummariesBytes;
    var b, n, t := ResponseBytes(r), 13 + |ReasonsBytes(r.reasons)|, ResponseTail(r);
    var f, g := [r.list, r.generation, r.digest.hi, r.digest.lo], [r.epoch, r.session];
    ResponseSlices(LE(r.requestId, 8), LE(r.status, 1), LE(|r.reasons|, 4), ReasonsBytes(r.reasons),
                   LE(FlagByte(r.truncated), 1), LongFields(f), LE(FlagByte(r.replay), 1), LongFields(g),
                   LE(|r.summaries|, 4), SummariesBytes(r.summaries), t, b);
    hide ResponseTail; hide ResponseBytes;
    Stands(b, 0, 8, r.requestId); Stands(b, 8, 1, r.status); Stands(b, 9, 4, |r.reasons|);
    Stands(b, n, 1, FlagByte(r.truncated)); LongsStand(b, n + 1, f); Stands(b, n + 33, 1, FlagByte(r.replay));
    LongsStand(b, n + 34, g); Stands(b, n + 50, 4, |r.summaries|);
  }

  // -------------------------------------------------------------- canonical encodings

  lemma {:induction false} FlatWords(vs: seq<u64>)
    ensures Flat(Words(vs)) == LongFields(vs)
    decreases |vs|
  {
    if vs != [] {
      FlatWords(vs[1..]);
      assert Words(vs) == [Num(8, vs[0])] + Words(vs[1..]);
      FlatConcat([Num(8, vs[0])], Words(vs[1..]));
      FlatOne(Num(8, vs[0]));
    }
  }

  lemma FlatOne(t: Token)
    ensures Flat([t]) == TokenBytes(t)
  {
    assert [t][..0] == [];
    assert Flat([t]) == Flat([]) + TokenBytes(t);
  }

  /** One segment in a canonical encoding: like a record, but with the width in the place of the payload size and the
      payload filled up with zeros. */
  lemma CanonicalSegmentLayout(s: Segment, width: nat)
    ensures var b := Flat(SegmentTokens(s, width));
            && |b| == 78 + width && Lies(b, 0, 2, s.kind.Code()) && Lies(b, 2, 2, s.encoding.Code())
            && Longs(b, 4, [s.id, s.generation, s.node, s.adjacency, s.endpoint, s.binding, s.policy,
                            s.policyGeneration, s.topology])
            && Lies(b, 76, 2, width % 0x1_0000)
            && forall k :: 0 <= k < width ==> b[78 + k] == if k < |s.payload| then s.payload[k] else 0
  {
    hide Lies; hide LE; hide LongFields; hide Longs; hide Flat; hide Padded;
    var b, vs := Flat(SegmentTokens(s, width)), Scalars(s);
    var k, e, n, p := Num(2, s.kind.Code()), Num(2, s.encoding.Code()), Num(2, width % 0x1_0000),
                      Raw(Padded(s.payload, width));
    FlatConcat(HeadTokens(s), [n, p]); FlatConcat([k, e], Words(vs));
    FlatPair(k, e); FlatPair(n, p); FlatWords(vs);
    assert b == LE(s.kind.Code(), 2) + LE(s.encoding.Code(), 2) + LongFields(vs)
                + (LE(width % 0x1_0000, 2) + Padded(s.payload, width));
    assert b[0..2] == LE(s.kind.Code(), 2) && b[2..4] == LE(s.encoding.Code(), 2) && b[4..76] == LongFields(vs);
    assert b[76..78] == LE(width % 0x1_0000, 2) && b[78..] == Padded(s.payload, width);
    assert forall j :: 0 <= j < width ==> b[78 + j] == b[78..][j];
    Stands(b, 0, 2, s.kind.Code()); Stands(b, 2, 2, s.encoding.Code()); LongsStand(b, 4, vs);
    Stands(b, 76, 2, width % 0x1_0000);
  }

  lemma SequenceLayout(ss: seq<Segment>, width: nat)
    ensures var b := SequenceBytes(ss, width);
            && |b| >= 6 && Lies(b, 0, 2, 0xC503) && Lies(b, 2, 4, |ss| % 0x1_0000_0000)
            && b[6..] == Flat(BodyTokens(ss, width))
  {
    hide Lies; hide LE; hide Flat; hide BodyTokens;
    SequenceSplit(ss, width);
    var b := SequenceBytes(ss, width);
    assert b[0..2] == LE(0xC503, 2) && b[2..6] == LE(|ss| % 0x1_0000_0000, 4);
    Stands(b, 0, 2, 0xC503); Stands(b, 2, 4, |ss| % 0x1_0000_0000);
  }

  lemma ContentLayout(c: Content, width: nat)
    ensures var b := ContentBytes(c, width);
            && |b| >= 123 && Lies(b, 0, 2, 0xC502) && Lies(b, 2, 4, width % 0x1_0000_0000)
            && Longs(b, 6, [c.id, c.scope, c.profile, c.profileGeneration, c.policy, c.policyGeneration])
            && Lies(b, 54, 1, c.strictness.Code())
            && Longs(b, 55, [c.topology, c.capability, c.path, c.pathAuthority, c.route, c.routeGeneration,
                             c.constraint, c.constraintGeneration])
            && Lies(b, 119, 4, |c.segments| % 0x1_0000_0000) && b[123..] == Flat(BodyTokens(c.segments, width))
  {
    hide Lies; hide LE; hide LongFields; hide Longs; hide Flat; hide BodyTokens;
    var b, n := ContentBytes(c, width), |c.segments| % 0x1_0000_0000;
    var f := [c.id, c.scope, c.profile, c.profileGeneration, c.policy, c.policyGeneration];
    var g := [c.topology, c.capability, c.path, c.pathAuthority, c.route, c.routeGeneration, c.constraint,
              c.constraintGeneration];
    ContentParts(c, width);
    assert b[0..2] == LE(0xC502, 2) && b[2..6] == LE(width % 0x1_0000_0000, 4) && b[6..54] == LongFields(f);
    assert b[54..55] == LE(c.strictness.Code(), 1) && b[55..119] == LongFields(g) && b[119..123] == LE(n, 4);
    Stands(b, 0, 2, 0xC502); Stands(b, 2, 4, width % 0x1_0000_0000); LongsStand(b, 6, f);
    Stands(b, 54, 1, c.strictness.Code()); LongsStand(b, 55, g); Stands(b, 119, 4, n);
  }

  lemma ContentParts(c: Content, width: nat)
    ensures ContentBytes(c, width) ==
            LE(0xC502, 2) + LE(width % 0x1_0000_0000, 4)
            + LongFields([c.id, c.scope, c.profile, c.profileGeneration, c.policy, c.policyGeneration])
            + LE(c.strictness.Code(), 1)
            + LongFields([c.topology, c.capability, c.path, c.pathAuthority, c.route, c.routeGeneration, c.constraint,
                          c.constraintGeneration])
            + LE(|c.segments| % 0x1_0000_0000, 4) + Flat(BodyTokens(c.segments, width))
  {
    hide LE; hide LongFields; hide Flat; hide BodyTokens;
    var f := [c.id, c.scope, c.profile, c.profileGeneration, c.policy, c.policyGeneration];
    var g := [c.topology, c.capability, c.path, c.pathAuthority, c.route, c.routeGeneration, c.constraint,
              c.constraintGeneration];
    var x, y, z, n := Num(2, 0xC502), Num(4, width % 0x1_0000_0000), Num(1, c.strictness.Code()),
                      Num(4, |c.segments| % 0x1_0000_0000);
    FlatConcat(ContentHead(c, width), BodyTokens(c.segments, width));
    FlatConcat([x, y] + Words(f) + [z] + Words(g), [n]); FlatConcat([x, y] + Words(f) + [z], Words(g));
    FlatConcat([x, y] + Words(f), [z]); FlatConcat([x, y], Words(f));
    FlatPair(x, y); FlatWords(f); FlatOne(z); FlatWords(g); FlatOne(n);
  }

  /** The head of what stands for a draft in the replay check. */
  lemma DraftHeadLayout(d: Draft)
    ensures var b := Flat(DraftHead(d));
            && |b| == 148 && Lies(b, 0, 2, 0xD101)
            && Longs(b, 2, [d.id, d.scope, d.profile, d.profileGeneration, d.policy, d.policyGeneration])
            && Lies(b, 50, 1, d.strictness.Code())
            && Longs(b, 51, [d.topology, d.capability, d.path, d.pathAuthority, d.route, d.routeGeneration,
                             d.constraint, d.constraintGeneration])
            && Lies(b, 115, 1, if d.derived then 1 else 0)
            && Longs(b, 116, [d.expectedGeneration, d.supersedes, d.supersedesGeneration])
            && Lies(b, 140, 4, MaxPayload(d.segments) % 0x1_0000_0000) && Lies(b, 144, 4, |d.segments| % 0x1_0000_0000)
  {
    hide Lies; hide LE; hide LongFields; hide Longs; hide Flat; hide MaxPayload;
    var b, m, n := Flat(DraftHead(d)), MaxPayload(d.segments) % 0x1_0000_0000, |d.segments| % 0x1_0000_0000;
    var f := [d.id, d.scope, d.profile, d.profileGeneration, d.policy, d.policyGeneration];
    var g := [d.topology, d.capability, d.path, d.pathAuthority, d.route, d.routeGeneration, d.constraint,
              d.constraintGeneration];
    var h := [d.expectedGeneration, d.supersedes, d.supersedesGeneration];
    DraftParts(d);
    assert b[0..2] == LE(0xD101, 2) && b[2..50] == LongFields(f) && b[50..51] == LE(d.strictness.Code(), 1);
    assert b[51..115] == LongFields(g) && b[115..116] == LE(FlagByte(d.derived), 1) && b[116..140] == LongFields(h);
    assert b[140..144] == LE(m, 4) && b[144..148] == LE(n, 4);
    Stands(b, 0, 2, 0xD101); LongsStand(b, 2, f); Stands(b, 50, 1, d.strictness.Code()); LongsStand(b, 51, g);
    Stands(b, 115, 1, FlagByte(d.derived)); LongsStand(b, 116, h); Stands(b, 140, 4, m); Stands(b, 144, 4, n);
  }

  lemma DraftParts(d: Draft)
    ensures Flat(DraftHead(d)) ==
            LE(0xD101, 2) + LongFields([d.id, d.scope, d.profile, d.profileGeneration, d.policy, d.policyGeneration])
            + LE(d.strictness.Code(), 1)
            + LongFields([d.topology, d.capability, d.path, d.pathAuthority, d.route, d.routeGeneration, d.constraint,
                          d.constraintGeneration])
            + LE(FlagByte(d.derived), 1) + LongFields([d.expectedGeneration, d.supersedes, d.supersedesGeneration])
            + (LE(MaxPayload(d.segments) % 0x1_0000_0000, 4) + LE(|d.segments| % 0x1_0000_0000, 4))
  {
    hide LE; hide LongFields; hide Flat; hide MaxPayload;
    var f := [d.id, d.scope, d.profile, d.profileGeneration, d.policy, d.policyGeneration];
    var g := [d.topology, d.capability, d.path, d.pathAuthority, d.route, d.routeGeneration, d.constraint,
              d.constraintGeneration];
    var h := [d.expectedGeneration, d.supersedes, d.supersedesGeneration];
    var x, y, z := Num(2, 0xD101), Num(1, d.strictness.Code()), Num(1, if d.derived then 1 else 0);
    var m, n := Num(4, MaxPayload(d.segments) % 0x1_0000_0000), Num(4, |d.segments| % 0x1_0000_0000);
    var p1 := [x] + Words(f);
    var p2 := p1 + [y];
    var p3 := p2 + Words(g);
    var p4 := p3 + [z];
    var p5 := p4 + Words(h);
    FlatConcat(p5, [m, n]); FlatConcat(p4, Words(h)); FlatConcat(p3, [z]); FlatConcat(p2, Words(g));
    FlatConcat(p1, [y]); FlatConcat([x], Words(f));
    FlatOne(x); FlatWords(f); FlatOne(y); FlatWords(g); FlatOne(z); FlatWords(h); FlatPair(m, n);
  }

  /** Behind the head stand the segments of the draft, each as in a canonical encoding and introduced by a number. */
  lemma DraftSegmentLayout(ss: seq<Segment>, s: Segment, w: nat)
    ensures var b, before := DraftSegmentBytes(ss + [s], w), DraftSegmentBytes(ss, w);
            var n := |before|;
            && |b| >= n + 2 && b[..n] == before && Lies(b, n, 2, 0xC501) && b[n + 2..] == Flat(SegmentTokens(s, w))
  {
    hide Lies; hide LE; hide Flat;
    var b, before := DraftSegmentBytes(ss + [s], w), DraftSegmentBytes(ss, w);
    assert (ss + [s])[..|ss|] == ss;
    assert b == before + (LE(0xC501, 2) + Flat(SegmentTokens(s, w)));
    assert b[|before|..|before| + 2] == LE(0xC501, 2);
    Stands(b, |before|, 2, 0xC501);
  }

  /** The `k`-th digest of a batch: two 64-bit numbers. */
  ghost predicate DigestAt(b: Bytes, k: nat, x: Digest) {
    Lies(b, 2 + 16 * k, 8, x.hi) && Lies(b, 10 + 16 * k, 8, x.lo)
  }

  /** What goes into the digest of a batch: a number, then the digests of its drafts in order. */
  lemma {:induction false} BatchLayout(dg: DigestFn, ds: seq<Draft>)
    ensures var b := DigestWords(dg, ds);
            && |b| == 2 + 16 * |ds| && Lies(b, 0, 2, 0xD102)
            && forall k :: 0 <= k < |ds| ==> DigestAt(b, k, dg(DraftBytes(ds[k])))
    decreases |ds|
  {
    hide DraftBytes; hide LE; hide Lies; hide DigestAt;
    var b := DigestWords(dg, ds);
    if ds == [] {
      Stands(b, 0, 2, 0xD102);
    } else {
      var n := |ds| - 1;
      var before, x := DigestWords(dg, ds[..n]), dg(DraftBytes(ds[n]));
      BatchLayout(dg, ds[..n]);
      assert b == before + LE(x.hi, 8) + LE(x.lo, 8);
      hide DigestWords;
      LastDigestAt(before, b, n, x);
      LiesBefore(before, b, 0, 2, 0xD102);
      forall k | 0 <= k < n ensures DigestAt(b, k, dg(DraftBytes(ds[k]))) {
        assert ds[..n][k] == ds[k];
        DigestBefore(before, b, k, dg(DraftBytes(ds[k])));
      }
    }
  }

  lemma LastDigestAt(before: Bytes, b: Bytes, n: nat, x: Digest)
    requires |before| == 2 + 16 * n && b == before + LE(x.hi, 8) + LE(x.lo, 8)
    ensures |b| == 18 + 16 * n && b[..|before|] == before && DigestAt(b, n, x)
  {
    hide LE; hide Lies;
    assert b[2 + 16 * n..10 + 16 * n] == LE(x.hi, 8) && b[10 + 16 * n..18 + 16 * n] == LE(x.lo, 8);
    Stands(b, 2 + 16 * n, 8, x.hi); Stands(b, 10 + 16 * n, 8, x.lo);
  }

  lemma DigestBefore(a: Bytes, b: Bytes, k: nat, x: Digest)
    requires |a| <= |b| && b[..|a|] == a && DigestAt(a, k, x)
    ensures DigestAt(b, k, x)
  {
    hide Lies;
    LiesBefore(a, b, 2 + 16 * k, 8, x.hi); LiesBefore(a, b, 10 + 16 * k, 8, x.lo);
  }

  lemma LiesBefore(a: Bytes, b: Bytes, o: nat, w: nat, v: nat)
    requires |a| <= |b| && b[..|a|] == a && Lies(a, o, w, v)
    ensures Lies(b, o, w, v)
  {
    forall i | 0 <= i < w ensures b[o + i] == v / Pow256(i) % 256 { assert b[..|a|][o + i] == a[o + i]; }
  }

  // ---------------------------------------------------------------------- the numbers

  const KINDS: seq<SegmentKind> := [KindInvalid, KindNode, KindAdjacency, KindEndpoint, KindBinding, KindPolicy]
  const ENCODINGS: seq<EncodingId> := [EncUnset, EncNode, EncAdjacency, EncEndpoint, EncBinding, EncPolicy]
  const STATES: seq<LifecycleState> :=
    [Declared, Validating, Active, RevalidationRequired, Withdrawing, Withdrawn, Superseded, Revoked, Retired]
  const EVENTS: seq<LifecycleEvent> :=
    [ValidateBegin, ValidateSucceed, ValidateFail, RevalidateBegin, RevalidateSucceed, RevalidateFail,
     DependencyChanged, WithdrawBegin, WithdrawCommit, SupersedeBegin, SupersedeCommit, LifecycleEvent.Revoke,
     LifecycleEvent.Retire, Reactivate, RecoveryLoad, ReplaceBegin]
  const CURRENTNESSES: seq<Currentness> :=
    [Unknown, Current, NeedsRevalidation, StaleProfile, StalePolicy, StaleTopology, StaleCapability,
     StalePathAuthority, StaleRouteBinding, StaleConstraintBinding, StaleEpoch, FencedPublisher]

  /** Kinds, encodings and currentness are numbered from zero in the order of their declaration, states and events from
      one; the encoding of a kind has its number. */
  lemma Numbering(k: SegmentKind, n: EncodingId, s: LifecycleState, e: LifecycleEvent, c: Currentness)
    ensures k.Code() < |KINDS| && KINDS[k.Code()] == k && n.Code() < |ENCODINGS| && ENCODINGS[n.Code()] == n
    ensures 1 <= StateCode(s) <= |STATES| && STATES[StateCode(s) - 1] == s
    ensures 1 <= EventCode(e) <= |EVENTS| && EVENTS[EventCode(e) - 1] == e
    ensures CurrentnessCode(c) < |CURRENTNESSES| && CURRENTNESSES[CurrentnessCode(c)] == c
    ensures ExpectedEncoding(k).Code() == k.Code() && Strict.Code() == 1 && Loose.Code() == 2
  {}

  /** The width a list is written at is that of the registered profile, or without one its longest payload, as long as
      that is from 1 to 65535; otherwise it is 1. */
  lemma WidthWritten(ps: seq<Profile>, l: SegmentList, n: nat)
    requires IsLongest(l.content.segments, n)
    ensures (forall p :: First(ps, ProfileKey, l.content.profile, p) ==>
               ListWidth(ps, l) == if 1 <= p.payloadWidth <= 0xFFFF then p.payloadWidth else 1)
    ensures Missing(ps, ProfileKey, l.content.profile) ==> ListWidth(ps, l) == if 1 <= n <= 0xFFFF then n else 1
  {
    hide MaxPayload; hide IsLongest; hide First; hide Missing;
    ProfileFound(ps, l.content.profile);
    MaxIsLongest(l.content.segments);
    OneLongest(l.content.segments, n, MaxPayload(l.content.segments));
  }
}
