/** The mutation and response payloads carried in frames (`src/wire.cpp`). */
module SrfWirePayloads {
  import opened SrfTypes
  import opened SrfBytes
  import opened SrfFields
  import opened SrfValidation
  import opened SrfImageRecords
  import opened SrfImageCodec

  // --------------------------------------------------------------------- mutations

  datatype Mutation = Mutation(attempt: u64, draft: Draft)

  function MutationTail(d: Draft): Bytes {
    ByteField(FlagByte(d.derived)) + (WordField(|d.segments| % 0x1_0000_0000) + SegmentsBytes(d.segments))
  }

  function MutationBytes(m: Mutation): Bytes {
    var d := m.draft;
    LongFields([m.attempt, d.id, d.scope, d.profile, d.profileGeneration, d.policy, d.policyGeneration])
    + (ByteField(d.strictness.Code())
    + (LongFields([d.topology, d.capability, d.path, d.pathAuthority, d.route, d.routeGeneration, d.constraint,
                   d.constraintGeneration, d.expectedGeneration, d.supersedes, d.supersedesGeneration])
    + MutationTail(d)))
  }

  function EncodeMutation(lim: Limits, m: Mutation): Option<Bytes> {
    if |m.draft.segments| > lim.maxSegmentsPerList then None else Some(MutationBytes(m))
  }

  function DecodeMutationTail(lim: Limits, d: Draft, b: Bytes): Option<Draft> {
    if |b| < 5 then None
    else
      var derived, count := ReadByte(b[..1]), ReadWord(b[1..][..4]);
      if derived > 1 || count > lim.maxSegmentsPerList then None
      else match DecodeSegments(lim, true, b[1..][4..], count)
           case None => None
           case Some((segments, rest)) =>
             if rest != [] then None else Some(d.(derived := derived == 1, segments := segments))
  }

  function DecodeMutation(lim: Limits, b: Bytes): Option<Mutation> {
    if |b| < 145 then None
    else
      var v := ReadLongs(b[..56], 7);
      var b1 := b[56..];
      var b2 := b1[1..];
      var w := ReadLongs(b2[..88], 11);
      var strictness := ReadByte(b1[..1]);
      if strictness != 1 && strictness != 2 then None
      else match DecodeMutationTail(
                   lim,
                   Draft(v[1], v[2], v[3], v[4], v[5], v[6], if strictness == 1 then Strict else Loose,
                         w[0], w[1], w[2],
                         w[3], w[4], w[5], w[6], w[7], [], w[8], w[9], w[10], false),
                   b2[88..])
           case None => None
           case Some(d) => Some(Mutation(v[0], d))
  }

  lemma MutationTailBack(lim: Limits, d: Draft, q: Draft)
    requires |d.segments| <= lim.maxSegmentsPerList && PayloadsFit(d.segments)
    requires q == d.(derived := false, segments := [])
    ensures DecodeMutationTail(lim, q, MutationTail(d)) == if SegmentsOk(lim, true, d.segments) then Some(d) else None
  {
    hide ByteField; hide WordField; hide ReadByte; hide ReadWord; hide SegmentsBytes; hide DecodeSegments;
    hide SegmentsOk; hide PayloadsFit;
    var t2 := SegmentsBytes(d.segments);
    var t1 := WordField(|d.segments|) + t2;
    Cut(ByteField(FlagByte(d.derived)), t1);
    Cut(WordField(|d.segments|), t2);
    ByteBack(FlagByte(d.derived));
    WordBack(|d.segments|);
    SegmentsBack(lim, true, d.segments, []);
    assert t2 + [] == t2;
  }

  /** Decoding an encoded mutation gives that mutation, or nothing if a segment has no kind or too long a payload. */
  lemma MutationBack(lim: Limits, m: Mutation)
    requires EncodeMutation(lim, m).Some? && PayloadsFit(m.draft.segments)
    ensures DecodeMutation(lim, EncodeMutation(lim, m).value)
            == if SegmentsOk(lim, true, m.draft.segments) then Some(m) else None
  {
    hide LongFields; hide ReadLongs; hide ByteField; hide ReadByte; hide MutationTail; hide DecodeMutationTail;
    hide SegmentsOk; hide PayloadsFit;
    var d := m.draft;
    var ids := [m.attempt, d.id, d.scope, d.profile, d.profileGeneration, d.policy, d.policyGeneration];
    var ws := [d.topology, d.capability, d.path, d.pathAuthority, d.route, d.routeGeneration, d.constraint,
               d.constraintGeneration, d.expectedGeneration, d.supersedes, d.supersedesGeneration];
    var t2 := LongFields(ws) + MutationTail(d);
    var t1 := ByteField(d.strictness.Code()) + t2;
    Cut(LongFields(ids), t1);
    Cut(ByteField(d.strictness.Code()), t2);
    Cut(LongFields(ws), MutationTail(d));
    LongsBack(ids);
    LongsBack(ws);
    ByteBack(d.strictness.Code());
    MutationTailBack(lim, d, d.(derived := false, segments := []));
    TailLonger(d);
  }

  lemma TailLonger(d: Draft)
    ensures |MutationTail(d)| >= 5
  {
    hide SegmentsBytes;
  }

  lemma MutationTailForth(lim: Limits, q: Draft, b: Bytes)
    requires DecodeMutationTail(lim, q, b).Some?
    ensures var d := DecodeMutationTail(lim, q, b).value;
            && b == MutationTail(d) && |d.segments| <= lim.maxSegmentsPerList && PayloadsFit(d.segments)
            && SegmentsOk(lim, true, d.segments) && q.(derived := d.derived, segments := d.segments) == d
  {
    hide ByteField; hide WordField; hide ReadByte; hide ReadWord; hide SegmentsBytes; hide DecodeSegments;
    hide SegmentsOk; hide PayloadsFit;
    var b1 := b[1..];
    var count := ReadWord(b1[..4]);
    SegmentsForth(lim, true, b1[4..], count);
    ByteForth(b[..1]);
    WordForth(b1[..4]);
    var (ss, rest) := DecodeSegments(lim, true, b1[4..], count).value;
    assert SegmentsBytes(ss) + [] == SegmentsBytes(ss);
    assert b == b[..1] + (b1[..4] + b1[4..]);
  }

  /** Every accepted mutation payload re-encodes to itself. */
  lemma MutationForth(lim: Limits, b: Bytes)
    requires DecodeMutation(lim, b).Some?
    ensures EncodeMutation(lim, DecodeMutation(lim, b).value) == Some(b)
  {
    hide LongFields; hide ReadLongs; hide ByteField; hide ReadByte; hide MutationTail; hide DecodeMutationTail;
    hide SegmentsOk; hide PayloadsFit;
    var b1 := b[56..];
    var b2 := b1[1..];
    var m := DecodeMutation(lim, b).value;
    var v, w := ReadLongs(b[..56], 7), ReadLongs(b2[..88], 11);
    var strictness := ReadByte(b1[..1]);
    var q := Draft(v[1], v[2], v[3], v[4], v[5], v[6], if strictness == 1 then Strict else Loose, w[0], w[1], w[2],
                   w[3], w[4], w[5], w[6], w[7], [], w[8], w[9], w[10], false);
    MutationTailForth(lim, q, b2[88..]);
    LongsForth(b[..56], 7);
    LongsForth(b2[..88], 11);
    ByteForth(b1[..1]);
    var d := m.draft;
    assert v == [m.attempt, d.id, d.scope, d.profile, d.profileGeneration, d.policy, d.policyGeneration];
    assert w == [d.topology, d.capability, d.path, d.pathAuthority, d.route, d.routeGeneration, d.constraint,
                 d.constraintGeneration, d.expectedGeneration, d.supersedes, d.supersedesGeneration];
    assert b == b[..56] + (b1[..1] + (b2[..88] + b2[88..]));
  }

  /** Whatever its payloads, an encoded mutation reads back as itself exactly when its segments are acceptable and the
      lengths of their payloads fit the field. */
  lemma MutationBackExactly(lim: Limits, m: Mutation)
    requires EncodeMutation(lim, m).Some?
    ensures DecodeMutation(lim, EncodeMutation(lim, m).value) == Some(m) <==>
            SegmentsOk(lim, true, m.draft.segments) && PayloadsFit(m.draft.segments)
  {
    hide EncodeMutation; hide SegmentsOk; hide PayloadsFit;
    var b := EncodeMutation(lim, m).value;
    if PayloadsFit(m.draft.segments) { MutationBack(lim, m); }
    if DecodeMutation(lim, b).Some? { AcceptedFits(lim, b); }
  }

  lemma AcceptedFits(lim: Limits, b: Bytes)
    requires DecodeMutation(lim, b).Some?
    ensures var ss := DecodeMutation(lim, b).value.draft.segments; PayloadsFit(ss) && SegmentsOk(lim, true, ss)
  {
    hide LongFields; hide ReadLongs; hide ByteField; hide ReadByte; hide MutationTail; hide DecodeMutationTail;
    hide SegmentsOk; hide PayloadsFit;
    var b1 := b[56..];
    var b2 := b1[1..];
    var v, w := ReadLongs(b[..56], 7), ReadLongs(b2[..88], 11);
    var strictness := ReadByte(b1[..1]);
    var q := Draft(v[1], v[2], v[3], v[4], v[5], v[6], if strictness == 1 then Strict else Loose, w[0], w[1], w[2],
                   w[3], w[4], w[5], w[6], w[7], [], w[8], w[9], w[10], false);
    MutationTailForth(lim, q, b2[88..]);
  }

  /** The encoder, field after field. */
  method WriteMutation(lim: Limits, m: Mutation) returns (o: Option<Bytes>)
    ensures o == EncodeMutation(lim, m)
  {
    hide Flat; hide LongFields; hide ByteField; hide WordField; hide SegmentsBytes;
    var d := m.draft;
    if |d.segments| > lim.maxSegmentsPerList { return None; }
    var ids := [m.attempt, d.id, d.scope, d.profile, d.profileGeneration, d.policy, d.policyGeneration];
    var ws := [d.topology, d.capability, d.path, d.pathAuthority, d.route, d.routeGeneration, d.constraint,
               d.constraintGeneration, d.expectedGeneration, d.supersedes, d.supersedesGeneration];
    var n := |d.segments| % 0x1_0000_0000;
    var w := new ByteWriter();
    WriteLongs(w, ids);
    WriteByte(w, d.strictness.Code());
    WriteLongs(w, ws);
    ghost var head := LongFields(ids) + ByteField(d.strictness.Code()) + LongFields(ws);
    assert w.buf == head;
    WriteByte(w, FlagByte(d.derived));
    WriteWord(w, n);
    WriteSegmentRecords(w, d.segments);
    InARow(head, ByteField(FlagByte(d.derived)), WordField(n), SegmentsBytes(d.segments), [], []);
    assert SegmentsBytes(d.segments) + ([] + []) == SegmentsBytes(d.segments);
    Assoc(LongFields(ids) + ByteField(d.strictness.Code()), LongFields(ws), MutationTail(d));
    Assoc(LongFields(ids), ByteField(d.strictness.Code()), LongFields(ws) + MutationTail(d));
    assert w.buf == head + MutationTail(d);
    assert MutationBytes(m) == LongFields(ids) + (ByteField(d.strictness.Code()) + (LongFields(ws) + MutationTail(d)));
    o := Some(w.buf);
  }

  // --------------------------------------------------------------------- responses

  datatype Summary = Summary(list: u64, generation: u64, state: LifecycleState, currentness: Currentness, profile: u64,
                             profileGeneration: u64, digest: Digest, segmentCount: u32, epoch: u64)

  datatype WireReason = WireReason(code: u16, index: u32, detail: u64)

  datatype Response = Response(requestId: u64, status: u8, reasons: seq<WireReason>, truncated: bool, list: u64,
                               generation: u64, digest: Digest, replay: bool, epoch: u64, session: u64,
                               summaries: seq<Summary>)

  const LAST_STATUS: u8 := 7

  function ReasonBytes(r: WireReason): Bytes { HalfField(r.code) + (WordField(r.index) + LE(r.detail, 8)) }

  function ReasonsBytes(rs: seq<WireReason>): Bytes {
    if rs == [] then [] else ReasonBytes(rs[0]) + ReasonsBytes(rs[1..])
  }

  function DecodeReasons(b: Bytes, n: nat): Option<(seq<WireReason>, Bytes)> {
    if n == 0 then Some(([], b))
    else if |b| < 14 then None
    else
      var r := WireReason(ReadHalf(b[..2]), ReadWord(b[2..][..4]), ReadLong(b[2..][4..][..8]));
      match DecodeReasons(b[2..][4..][8..], n - 1)
      case None => None
      case Some((rs, rest)) => Some(([r] + rs, rest))
  }

  function SummaryBytes(s: Summary): Bytes {
    LongFields([s.list, s.generation]) + (ByteField(StateCode(s.state)) + (ByteField(CurrentnessCode(s.currentness))
    + (LongFields([s.profile, s.profileGeneration, s.digest.hi, s.digest.lo])
    + (WordField(s.segmentCount) + LE(s.epoch, 8)))))
  }

  function SummariesBytes(ss: seq<Summary>): Bytes {
    if ss == [] then [] else SummaryBytes(ss[0]) + SummariesBytes(ss[1..])
  }

  function DecodeSummary(b: Bytes): Option<(Summary, Bytes)> {
    if |b| < 62 then None
    else
      var v := ReadLongs(b[..16], 2);
      var b1 := b[16..];
      var b2 := b1[1..];
      var b3 := b2[1..];
      var w := ReadLongs(b3[..32], 4);
      var b4 := b3[32..];
      var b5 := b4[4..];
      var state, currentness := StateOf(ReadByte(b1[..1])), CurrentnessOf(ReadByte(b2[..1]));
      if state.None? || currentness.None? then None
      else Some((Summary(v[0], v[1], state.value, currentness.value, w[0], w[1], Digest(w[2], w[3]), ReadWord(b4[..4]),
                         ReadLong(b5[..8])), b5[8..]))
  }

  function DecodeSummaries(b: Bytes, n: nat): Option<(seq<Summary>, Bytes)> {
    if n == 0 then Some(([], b))
    else match DecodeSummary(b)
         case None => None
         case Some((s, tail)) =>
           match DecodeSummaries(tail, n - 1)
           case None => None
           case Some((ss, rest)) => Some(([s] + ss, rest))
  }

  function ResponseTail(r: Response): Bytes {
    ByteField(FlagByte(r.truncated)) + (LongFields([r.list, r.generation, r.digest.hi, r.digest.lo])
    + (ByteField(FlagByte(r.replay)) + (LongFields([r.epoch, r.session])
    + (WordField(|r.summaries| % 0x1_0000_0000) + SummariesBytes(r.summaries)))))
  }

  function ResponseBytes(r: Response): Bytes {
    LE(r.requestId, 8) + (ByteField(r.status) + (WordField(|r.reasons| % 0x1_0000_0000)
    + (ReasonsBytes(r.reasons) + ResponseTail(r))))
  }

  /** The encoder bounds the summaries but not the reasons. */
  function EncodeResponse(lim: Limits, r: Response): Option<Bytes> {
    if |r.summaries| > lim.maxLists then None else Some(ResponseBytes(r))
  }

  function DecodeResponseTail(lim: Limits, r: Response, b: Bytes): Option<Response> {
    if |b| < 54 then None
    else
      var b1 := b[1..];
      var b2 := b1[32..];
      var b3 := b2[1..];
      var b4 := b3[16..];
      var truncated, replay := ReadByte(b[..1]), ReadByte(b2[..1]);
      var v, w := ReadLongs(b1[..32], 4), ReadLongs(b3[..16], 2);
      var count := ReadWord(b4[..4]);
      if truncated > 1 || replay > 1 || count > lim.maxLists then None
      else match DecodeSummaries(b4[4..], count)
           case None => None
           case Some((summaries, rest)) =>
             if rest != [] then None
             else Some(r.(truncated := truncated == 1, list := v[0], generation := v[1], digest := Digest(v[2], v[3]),
                          replay := replay == 1, epoch := w[0], session := w[1], summaries := summaries))
  }

  function DecodeResponse(lim: Limits, b: Bytes): Option<Response> {
    if |b| < 13 then None
    else
      var b1 := b[8..];
      var b2 := b1[1..];
      var status, count := ReadByte(b1[..1]), ReadWord(b2[..4]);
      if status > LAST_STATUS || count > lim.maxReasons then None
      else match DecodeReasons(b2[4..], count)
           case None => None
           case Some((reasons, b3)) =>
             DecodeResponseTail(lim, Response(ReadLong(b[..8]), status, reasons, false, 0, 0, Digest(0, 0), false, 0, 0,
                                              []), b3)
  }

  lemma {:induction false} ReasonsBack(rs: seq<WireReason>, rest: Bytes)
    ensures DecodeReasons(ReasonsBytes(rs) + rest, |rs|) == Some((rs, rest))
  {
    if rs == [] {
      assert ReasonsBytes(rs) + rest == rest;
    } else {
      var r, tail := rs[0], ReasonsBytes(rs[1..]) + rest;
      var t2 := LE(r.detail, 8) + tail;
      var t1 := WordField(r.index) + t2;
      assert ReasonsBytes(rs) + rest == HalfField(r.code) + t1;
      hide HalfField; hide WordField; hide ReadHalf; hide ReadWord; hide ReadLong; hide ReasonsBytes;
      Cut(HalfField(r.code), t1); Cut(WordField(r.index), t2); Cut(LE(r.detail, 8), tail);
      HalfBack(r.code); WordBack(r.index); LongBack(r.detail);
      ReasonsBack(rs[1..], rest);
      assert [r] + rs[1..] == rs;
    }
  }

  lemma SummaryBack(s: Summary, rest: Bytes)
    ensures DecodeSummary(SummaryBytes(s) + rest) == Some((s, rest))
  {
    var v, w := [s.list, s.generation], [s.profile, s.profileGeneration, s.digest.hi, s.digest.lo];
    var t5 := LE(s.epoch, 8) + rest;
    var t4 := WordField(s.segmentCount) + t5;
    var t3 := LongFields(w) + t4;
    var t2 := ByteField(CurrentnessCode(s.currentness)) + t3;
    var t1 := ByteField(StateCode(s.state)) + t2;
    assert SummaryBytes(s) + rest == LongFields(v) + t1;
    hide LongFields; hide ReadLongs; hide ByteField; hide WordField; hide ReadByte; hide ReadWord; hide ReadLong;
    hide StateOf; hide CurrentnessOf; hide StateCode; hide CurrentnessCode; hide SummaryBytes;
    Cut(LongFields(v), t1); Cut(ByteField(StateCode(s.state)), t2); Cut(ByteField(CurrentnessCode(s.currentness)), t3);
    Cut(LongFields(w), t4); Cut(WordField(s.segmentCount), t5); Cut(LE(s.epoch, 8), rest);
    LongsBack(v); LongsBack(w); ByteBack(StateCode(s.state)); ByteBack(CurrentnessCode(s.currentness));
    WordBack(s.segmentCount); LongBack(s.epoch);
    StatesBack(s.state, s.currentness);
  }

  lemma {:induction false} SummariesBack(ss: seq<Summary>, rest: Bytes)
    ensures DecodeSummaries(SummariesBytes(ss) + rest, |ss|) == Some((ss, rest))
  {
    hide DecodeSummary; hide SummaryBytes;
    if ss == [] {
      assert SummariesBytes(ss) + rest == rest;
    } else {
      var tail := SummariesBytes(ss[1..]) + rest;
      assert SummariesBytes(ss) + rest == SummaryBytes(ss[0]) + tail;
      SummaryBack(ss[0], tail);
      SummariesBack(ss[1..], rest);
      assert [ss[0]] + ss[1..] == ss;
    }
  }

  lemma ResponseTailBack(lim: Limits, r: Response, q: Response)
    requires |r.summaries| <= lim.maxLists
    requires q == Response(r.requestId, r.status, r.reasons, false, 0, 0, Digest(0, 0), false, 0, 0, [])
    ensures DecodeResponseTail(lim, q, ResponseTail(r)) == Some(r)
  {
    hide LongFields; hide ReadLongs; hide ByteField; hide WordField; hide ReadByte; hide ReadWord; hide SummariesBytes;
    hide DecodeSummaries;
    var v, w := [r.list, r.generation, r.digest.hi, r.digest.lo], [r.epoch, r.session];
    var n := |r.summaries|;
    var t5 := SummariesBytes(r.summaries);
    var t4 := WordField(n) + t5;
    var t3 := LongFields(w) + t4;
    var t2 := ByteField(FlagByte(r.replay)) + t3;
    var t1 := LongFields(v) + t2;
    Cut(ByteField(FlagByte(r.truncated)), t1); Cut(LongFields(v), t2); Cut(ByteField(FlagByte(r.replay)), t3);
    Cut(LongFields(w), t4); Cut(WordField(n), t5);
    ByteBack(FlagByte(r.truncated)); ByteBack(FlagByte(r.replay)); LongsBack(v); LongsBack(w); WordBack(n);
    SummariesBack(r.summaries, []);
    assert t5 + [] == t5;
  }

  /** Decoding an encoded response gives that response, or nothing if it reports more reasons than the limit or an
      unknown status. */
  lemma ResponseBack(lim: Limits, r: Response)
    requires EncodeResponse(lim, r).Some? && |r.reasons| < 0x1_0000_0000
    ensures DecodeResponse(lim, EncodeResponse(lim, r).value)
            == if |r.reasons| <= lim.maxReasons && r.status <= LAST_STATUS then Some(r) else None
  {
    hide ByteField; hide WordField; hide ReadByte; hide ReadWord; hide ReadLong; hide ReasonsBytes; hide DecodeReasons;
    hide ResponseTail; hide DecodeResponseTail;
    var n := |r.reasons|;
    var t3 := ReasonsBytes(r.reasons) + ResponseTail(r);
    var t2 := WordField(n) + t3;
    var t1 := ByteField(r.status) + t2;
    Cut(LE(r.requestId, 8), t1); Cut(ByteField(r.status), t2); Cut(WordField(n), t3);
    LongBack(r.requestId); ByteBack(r.status); WordBack(n);
    ReasonsBack(r.reasons, ResponseTail(r));
    ResponseTailBack(lim, r, Response(r.requestId, r.status, r.reasons, false, 0, 0, Digest(0, 0), false, 0, 0, []));
  }

  // ------------------------------------------------- accepted responses, re-encoded

  /** Cutting a number of bytes off the front. */
  lemma Rejoin(b: Bytes, n: nat)
    requires n <= |b|
    ensures b == b[..n] + b[n..]
  {}

  lemma {:induction false} ReasonsForth(b: Bytes, n: nat)
    requires DecodeReasons(b, n).Some?
    ensures var (rs, rest) := DecodeReasons(b, n).value; |rs| == n && b == ReasonsBytes(rs) + rest
  {
    if n > 0 {
      hide HalfField; hide WordField; hide ReadHalf; hide ReadWord; hide ReadLong;
      var b1 := b[2..];
      var b2 := b1[4..];
      var b3 := b2[8..];
      ReasonsForth(b3, n - 1);
      var (rs, rest) := DecodeReasons(b, n).value;
      HalfForth(b[..2]); WordForth(b1[..4]); LongForth(b2[..8]);
      Rejoin(b, 2); Rejoin(b1, 4); Rejoin(b2, 8);
      var (tail, end) := DecodeReasons(b3, n - 1).value;
      assert rs == [rs[0]] + tail && rs[1..] == tail;
      Regroup3(b[..2], b1[..4], b2[..8], ReasonsBytes(tail), rest);
    }
  }

  lemma Regroup3(a: Bytes, b: Bytes, c: Bytes, d: Bytes, e: Bytes)
    ensures a + (b + (c + (d + e))) == ((a + (b + c)) + d) + e
  {}

  lemma CodesOfForth(state: u8, currentness: u8)
    ensures StateOf(state).Some? ==> StateCode(StateOf(state).value) == state
    ensures CurrentnessOf(currentness).Some? ==> CurrentnessCode(CurrentnessOf(currentness).value) == currentness
  {}

  lemma SummaryForth(b: Bytes)
    requires DecodeSummary(b).Some?
    ensures var (s, rest) := DecodeSummary(b).value; b == SummaryBytes(s) + rest
  {
    hide LongFields; hide ReadLongs; hide ByteField; hide WordField; hide ReadByte; hide ReadWord; hide ReadLong;
    hide StateOf; hide CurrentnessOf; hide StateCode; hide CurrentnessCode;
    var b1 := b[16..];
    var b2 := b1[1..];
    var b3 := b2[1..];
    var b4 := b3[32..];
    var b5 := b4[4..];
    var v, w := ReadLongs(b[..16], 2), ReadLongs(b3[..32], 4);
    LongsForth(b[..16], 2); ByteForth(b1[..1]); ByteForth(b2[..1]); LongsForth(b3[..32], 4); WordForth(b4[..4]);
    LongForth(b5[..8]);
    CodesOfForth(ReadByte(b1[..1]), ReadByte(b2[..1]));
    assert v == [v[0], v[1]] && w == [w[0], w[1], w[2], w[3]];
    Rejoin(b, 16); Rejoin(b1, 1); Rejoin(b2, 1); Rejoin(b3, 32); Rejoin(b4, 4); Rejoin(b5, 8);
    SixParts(b[..16], b1[..1], b2[..1], b3[..32], b4[..4] + b5[..8], b5[8..]);
    Assoc(b4[..4], b5[..8], b5[8..]);
  }

  lemma {:induction false} SummariesForth(b: Bytes, n: nat)
    requires DecodeSummaries(b, n).Some?
    ensures var (ss, rest) := DecodeSummaries(b, n).value; |ss| == n && b == SummariesBytes(ss) + rest
    decreases n
  {
    hide DecodeSummary; hide SummaryBytes;
    if n > 0 {
      var (s, tail) := DecodeSummary(b).value;
      SummaryForth(b);
      SummariesForth(tail, n - 1);
      var (ss, rest) := DecodeSummaries(tail, n - 1).value;
      assert ([s] + ss)[1..] == ss;
      Assoc(SummaryBytes(s), SummariesBytes(ss), rest);
    }
  }

  /** The fields of an accepted tail, and where they were read. */
  lemma ResponseTailFields(lim: Limits, q: Response, b: Bytes)
    requires DecodeResponseTail(lim, q, b).Some?
    ensures var r := DecodeResponseTail(lim, q, b).value;
            var b1 := b[1..];
            var b2 := b1[32..];
            var b3 := b2[1..];
            var b4 := b3[16..];
            && |b| >= 54 && FlagByte(r.truncated) == ReadByte(b[..1]) && FlagByte(r.replay) == ReadByte(b2[..1])
            && [r.list, r.generation, r.digest.hi, r.digest.lo] == ReadLongs(b1[..32], 4)
            && [r.epoch, r.session] == ReadLongs(b3[..16], 2)
            && DecodeSummaries(b4[4..], ReadWord(b4[..4])) == Some((r.summaries, []))
            && ReadWord(b4[..4]) <= lim.maxLists && r.requestId == q.requestId && r.status == q.status
            && r.reasons == q.reasons
  {
    hide ReadLongs; hide ReadByte; hide ReadWord; hide DecodeSummaries;
  }

  lemma FivePieces(b: Bytes)
    requires |b| >= 54
    ensures var b1 := b[1..];
            var b2 := b1[32..];
            var b3 := b2[1..];
            var b4 := b3[16..];
            b == b[..1] + (b1[..32] + (b2[..1] + (b3[..16] + (b4[..4] + b4[4..]))))
  {
    var b1 := b[1..];
    var b2 := b1[32..];
    var b3 := b2[1..];
    var b4 := b3[16..];
    Rejoin(b, 1); Rejoin(b1, 32); Rejoin(b2, 1); Rejoin(b3, 16); Rejoin(b4, 4);
  }

  lemma ResponseTailForth(lim: Limits, q: Response, b: Bytes)
    requires DecodeResponseTail(lim, q, b).Some?
    ensures var r := DecodeResponseTail(lim, q, b).value;
            && b == ResponseTail(r) && |r.summaries| <= lim.maxLists && r.requestId == q.requestId
            && r.status == q.status && r.reasons == q.reasons
  {
    hide LongFields; hide ReadLongs; hide ByteField; hide WordField; hide ReadByte; hide ReadWord; hide SummariesBytes;
    hide DecodeSummaries; hide FlagByte; hide DecodeResponseTail; hide ResponseTail;
    ResponseTailFields(lim, q, b);
    FivePieces(b);
    var b1 := b[1..];
    var b2 := b1[32..];
    var b3 := b2[1..];
    var b4 := b3[16..];
    var r := DecodeResponseTail(lim, q, b).value;
    SummariesForth(b4[4..], ReadWord(b4[..4]));
    assert SummariesBytes(r.summaries) + [] == SummariesBytes(r.summaries);
    ByteForth(b[..1]); LongsForth(b1[..32], 4); ByteForth(b2[..1]); LongsForth(b3[..16], 2); WordForth(b4[..4]);
    TailFromPieces(r, b[..1], b1[..32], b2[..1], b3[..16], b4[..4], b4[4..]);
  }

  lemma TailFromPieces(r: Response, a: Bytes, b: Bytes, c: Bytes, d: Bytes, e: Bytes, f: Bytes)
    requires a == ByteField(FlagByte(r.truncated)) && b == LongFields([r.list, r.generation, r.digest.hi, r.digest.lo])
    requires c == ByteField(FlagByte(r.replay)) && d == LongFields([r.epoch, r.session])
    requires |r.summaries| < 0x1_0000_0000 && e == WordField(|r.summaries|) && f == SummariesBytes(r.summaries)
    ensures a + (b + (c + (d + (e + f)))) == ResponseTail(r)
  {}

  /** Every accepted response payload re-encodes to itself. */
  lemma ResponseForth(lim: Limits, b: Bytes)
    requires DecodeResponse(lim, b).Some?
    ensures EncodeResponse(lim, DecodeResponse(lim, b).value) == Some(b)
  {
    hide ByteField; hide WordField; hide ReadByte; hide ReadWord; hide ReadLong; hide ReasonsBytes; hide DecodeReasons;
    hide ResponseTail; hide DecodeResponseTail;
    var b1 := b[8..];
    var b2 := b1[1..];
    var status, count := ReadByte(b1[..1]), ReadWord(b2[..4]);
    var (reasons, b3) := DecodeReasons(b2[4..], count).value;
    var q := Response(ReadLong(b[..8]), status, reasons, false, 0, 0, Digest(0, 0), false, 0, 0, []);
    ReasonsForth(b2[4..], count);
    ResponseTailForth(lim, q, b3);
    LongForth(b[..8]); ByteForth(b1[..1]); WordForth(b2[..4]);
    Rejoin(b, 8); Rejoin(b1, 1); Rejoin(b2, 4);
  }
}
