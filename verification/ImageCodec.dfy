/** Writing and reading a durable image step by step, and the in-memory backend (`src/persistence.cpp`). */
module SrfImageCodec {
  import opened SrfTypes
  import opened SrfBytes
  import opened SrfFields
  import opened SrfCrc
  import opened SrfCanonical
  import opened SrfValidation
  import opened SrfStoreModel
  import opened SrfImageRecords
  import opened SrfImage

  // ---------------------------------------------------------------------- writing

  method WriteLongs(w: ByteWriter, vs: seq<u64>)
    requires w.Valid()
    modifies w
    ensures w.Valid() && w.buf == old(w.buf) + LongFields(vs)
  {
    hide Flat;
    w.PutWords(vs);
    WordsAreLongs(vs);
  }

  method WriteByte(w: ByteWriter, v: u8)
    requires w.Valid()
    modifies w
    ensures w.Valid() && w.buf == old(w.buf) + ByteField(v)
  {
    w.PutNum(1, v);
  }

  method WriteHalf(w: ByteWriter, v: u16)
    requires w.Valid()
    modifies w
    ensures w.Valid() && w.buf == old(w.buf) + HalfField(v)
  {
    w.PutNum(2, v);
  }

  method WriteWord(w: ByteWriter, v: u32)
    requires w.Valid()
    modifies w
    ensures w.Valid() && w.buf == old(w.buf) + WordField(v)
  {
    w.PutNum(4, v);
  }

  // Field after field appended is the fields in a row.
  lemma InARow(s: Bytes, a: Bytes, b: Bytes, c: Bytes, d: Bytes, e: Bytes)
    ensures s + a + b + c + d + e == s + (a + (b + (c + (d + e))))
  {}

  method WriteSegmentRecord(w: ByteWriter, s: Segment)
    requires w.Valid()
    modifies w
    ensures w.Valid() && w.buf == old(w.buf) + SegmentBytes(s)
  {
    hide Flat; hide HalfField; hide LongFields;
    ghost var start := w.buf;
    WriteHalf(w, s.kind.Code());
    WriteHalf(w, s.encoding.Code());
    WriteLongs(w, Scalars(s));
    WriteHalf(w, |s.payload| % 0x1_0000);
    w.PutRaw(s.payload);
    InARow(start, HalfField(s.kind.Code()), HalfField(s.encoding.Code()), LongFields(Scalars(s)),
           HalfField(|s.payload| % 0x1_0000), s.payload);
  }

  method WriteSegmentRecords(w: ByteWriter, ss: seq<Segment>)
    requires w.Valid()
    modifies w
    ensures w.Valid() && w.buf == old(w.buf) + SegmentsBytes(ss)
  {
    hide Flat; hide SegmentBytes;
    ghost var start := w.buf;
    for i := 0 to |ss|
      invariant w.Valid() && w.buf == start + SegmentsBytes(ss[..i])
    {
      WriteSegmentRecord(w, ss[i]);
      SegmentsSnoc(ss, i);
      Assoc(start, SegmentsBytes(ss[..i]), SegmentBytes(ss[i]));
    }
    assert ss[..|ss|] == ss;
  }

  /** The body of a list record. */
  method WriteList(l: SegmentList, width: u16) returns (body: Bytes)
    ensures body == ListBytes(l, width)
  {
    hide Flat; hide HalfField; hide ByteField; hide LongFields; hide ListMiddle;
    var c := l.content;
    var middle := WriteListMiddle(l);
    ghost var ids := [c.id, c.scope, c.profile, c.profileGeneration, c.policy, c.policyGeneration];
    ghost var ws := [c.topology, c.capability, c.path, c.pathAuthority, c.route, c.routeGeneration, c.constraint,
                     c.constraintGeneration];
    var w := new ByteWriter();
    WriteLongs(w, [c.id, c.scope, c.profile, c.profileGeneration, c.policy, c.policyGeneration]);
    WriteByte(w, c.strictness.Code());
    WriteHalf(w, width);
    WriteLongs(w, [c.topology, c.capability, c.path, c.pathAuthority, c.route, c.routeGeneration, c.constraint,
                   c.constraintGeneration]);
    w.PutRaw(middle);
    InARow([], LongFields(ids), ByteField(c.strictness.Code()), HalfField(width), LongFields(ws), ListMiddle(l));
    body := w.buf;
  }

  method WriteListMiddle(l: SegmentList) returns (body: Bytes)
    ensures body == ListMiddle(l)
  {
    hide Flat; hide LongFields; hide ListTail;
    var v := l.provenance;
    var tail := WriteListTail(l);
    var w := new ByteWriter();
    WriteLongs(w, [l.generation, l.lineage.supersedes, l.lineage.supersededBy, l.lineage.history,
                   l.authority.publisher, l.authority.boot, l.authority.epoch, l.authority.attempt]);
    WriteLongs(w, [v.path, v.pathAuthority, v.route, v.routeGeneration, v.constraint, v.constraintGeneration,
                   v.policyGeneration, v.topology, v.capability, v.publisher, v.boot, v.epoch]);
    w.PutRaw(tail);
    body := w.buf;
  }

  method WriteListTail(l: SegmentList) returns (body: Bytes)
    ensures body == ListTail(l)
  {
    hide Flat; hide LongFields; hide SegmentsBytes; hide ByteField; hide WordField;
    var d := [l.contentDigest.hi, l.contentDigest.lo, l.sequenceDigest.hi, l.sequenceDigest.lo,
              StoredRevision(l.committedRevision)];
    var n := |l.content.segments| % 0x1_0000_0000;
    var w := new ByteWriter();
    WriteByte(w, StateCode(l.state));
    WriteByte(w, CurrentnessCode(l.currentness));
    WriteLongs(w, d);
    WriteWord(w, n);
    WriteSegmentRecords(w, l.content.segments);
    InARow([], ByteField(StateCode(l.state)), ByteField(CurrentnessCode(l.currentness)), LongFields(d), WordField(n),
           SegmentsBytes(l.content.segments));
    body := w.buf;
  }

  lemma {:induction false} RecordsSnoc(rs: seq<Record>, r: Record)
    ensures RecordsBytes(rs + [r]) == RecordsBytes(rs) + RecordBytes(r)
  {
    hide RecordBytes;
    if rs == [] {
      assert [r][1..] == [];
      assert RecordsBytes([r]) == RecordBytes(r) + RecordsBytes([]);
    } else {
      assert (rs + [r])[1..] == rs[1..] + [r];
      RecordsSnoc(rs[1..], r);
      Assoc(RecordBytes(rs[0]), RecordsBytes(rs[1..]), RecordBytes(r));
    }
  }

  /** The record writer: after the first record that is too large it writes nothing more. */
  class Encoder {
    const limits: Limits
    const records: ByteWriter
    var count: nat
    var failed: bool
    ghost var emitted: seq<Record>

    constructor (limits: Limits)
      ensures Valid() && emitted == [] && this.limits == limits && fresh(records)
    {
      this.limits, count, failed, emitted := limits, 0, false, [];
      records := new ByteWriter();
    }

    ghost predicate Valid() reads this, records {
      && records.Valid() && failed == !BodiesFit(limits, emitted)
      && (!failed ==> count == |emitted| && records.buf == RecordsBytes(emitted))
    }

    method Emit(kind: u16, body: Bytes)
      requires Valid()
      modifies this`count, this`failed, this`emitted, records
      ensures Valid() && emitted == old(emitted) + [Record(kind, body)]
    {
      hide Flat; hide RecordsBytes; hide BodiesFit; hide HalfField; hide WordField;
      ghost var r := Record(kind, body);
      RecordsSnoc(emitted, r);
      FitsSnoc(limits, emitted, r);
      ghost var start := records.buf;
      emitted := emitted + [r];
      if failed { return; }
      if |body| > limits.maxRecordBytes {
        failed := true;
        return;
      }
      WriteHalf(records, kind);
      WriteWord(records, |body| % 0x1_0000_0000);
      records.PutRaw(body);
      InARow(start, HalfField(kind), WordField(|body| % 0x1_0000_0000), body, [], []);
      assert body + ([] + []) == body;
      count := count + 1;
    }
  }

  lemma FitsSnoc(lim: Limits, rs: seq<Record>, r: Record)
    ensures BodiesFit(lim, rs + [r]) <==> BodiesFit(lim, rs) && |r.body| <= lim.maxRecordBytes
  {
    if BodiesFit(lim, rs + [r]) {
      assert (rs + [r])[|rs|] == r;
      forall i | 0 <= i < |rs| ensures |rs[i].body| <= lim.maxRecordBytes { assert (rs + [r])[i] == rs[i]; }
    }
  }

  method EmitProfiles(enc: Encoder, ps: seq<Profile>)
    requires enc.Valid()
    modifies enc, enc.records
    ensures enc.Valid() && enc.emitted == old(enc.emitted) + ProfileRecords(ps)
  {
    hide Flat; hide RecordsBytes; hide BodiesFit; hide ProfileBytes;
    ghost var start := enc.emitted;
    for i := 0 to |ps|
      invariant enc.Valid() && enc.emitted + ProfileRecords(ps[i..]) == start + ProfileRecords(ps)
    {
      assert ps[i..][1..] == ps[i + 1..];
      Assoc(enc.emitted, [Record(2, ProfileBytes(ps[i]))], ProfileRecords(ps[i + 1..]));
      enc.Emit(2, ProfileBytes(ps[i]));
    }
  }

  method EmitPolicies(enc: Encoder, ps: seq<Policy>)
    requires enc.Valid()
    modifies enc, enc.records
    ensures enc.Valid() && enc.emitted == old(enc.emitted) + PolicyRecords(ps)
  {
    hide Flat; hide RecordsBytes; hide BodiesFit; hide PolicyBytes;
    ghost var start := enc.emitted;
    for i := 0 to |ps|
      invariant enc.Valid() && enc.emitted + PolicyRecords(ps[i..]) == start + PolicyRecords(ps)
    {
      assert ps[i..][1..] == ps[i + 1..];
      Assoc(enc.emitted, [Record(3, PolicyBytes(ps[i]))], PolicyRecords(ps[i + 1..]));
      enc.Emit(3, PolicyBytes(ps[i]));
    }
  }

  method EmitLists(enc: Encoder, profiles: seq<Profile>, ls: seq<SegmentList>)
    requires enc.Valid()
    modifies enc, enc.records
    ensures enc.Valid() && enc.emitted == old(enc.emitted) + ListRecords(profiles, ls)
  {
    hide Flat; hide RecordsBytes; hide BodiesFit; hide ListBytes; hide ListWidth;
    ghost var start := enc.emitted;
    for i := 0 to |ls|
      invariant enc.Valid() && enc.emitted + ListRecords(profiles, ls[i..]) == start + ListRecords(profiles, ls)
    {
      assert ls[i..][1..] == ls[i + 1..];
      var body := WriteList(ls[i], ListWidth(profiles, ls[i]));
      Assoc(enc.emitted, [Record(4, body)], ListRecords(profiles, ls[i + 1..]));
      enc.Emit(4, body);
    }
  }

  method EmitHistory(enc: Encoder, hs: seq<HistoryEntry>)
    requires enc.Valid()
    modifies enc, enc.records
    ensures enc.Valid() && enc.emitted == old(enc.emitted) + HistoryRecords(hs)
  {
    hide Flat; hide RecordsBytes; hide BodiesFit; hide HistoryBytes;
    ghost var start := enc.emitted;
    for i := 0 to |hs|
      invariant enc.Valid() && enc.emitted + HistoryRecords(hs[i..]) == start + HistoryRecords(hs)
    {
      assert hs[i..][1..] == hs[i + 1..];
      Assoc(enc.emitted, [Record(5, HistoryBytes(hs[i]))], HistoryRecords(hs[i + 1..]));
      enc.Emit(5, HistoryBytes(hs[i]));
    }
  }

  method EmitAttempts(enc: Encoder, rs: seq<Attempt>)
    requires enc.Valid()
    modifies enc, enc.records
    ensures enc.Valid() && enc.emitted == old(enc.emitted) + AttemptRecords(rs)
  {
    hide Flat; hide RecordsBytes; hide BodiesFit; hide AttemptBytes;
    ghost var start := enc.emitted;
    for i := 0 to |rs|
      invariant enc.Valid() && enc.emitted + AttemptRecords(rs[i..]) == start + AttemptRecords(rs)
    {
      assert rs[i..][1..] == rs[i + 1..];
      Assoc(enc.emitted, [Record(6, AttemptBytes(rs[i]))], AttemptRecords(rs[i + 1..]));
      enc.Emit(6, AttemptBytes(rs[i]));
    }
  }

  method EmitPublishers(enc: Encoder, ps: seq<Publisher>)
    requires enc.Valid()
    modifies enc, enc.records
    ensures enc.Valid() && enc.emitted == old(enc.emitted) + PublisherRecords(ps)
  {
    hide Flat; hide RecordsBytes; hide BodiesFit; hide PublisherBytes;
    ghost var start := enc.emitted;
    for i := 0 to |ps|
      invariant enc.Valid() && enc.emitted + PublisherRecords(ps[i..]) == start + PublisherRecords(ps)
    {
      assert ps[i..][1..] == ps[i + 1..];
      Assoc(enc.emitted, [Record(7, PublisherBytes(ps[i]))], PublisherRecords(ps[i + 1..]));
      enc.Emit(7, PublisherBytes(ps[i]));
    }
  }

  method EmitBoots(enc: Encoder, bs: seq<u64>)
    requires enc.Valid()
    modifies enc, enc.records
    ensures enc.Valid() && enc.emitted == old(enc.emitted) + BootRecords(bs)
  {
    hide Flat; hide RecordsBytes; hide BodiesFit; hide BootBytes;
    ghost var start := enc.emitted;
    for i := 0 to |bs|
      invariant enc.Valid() && enc.emitted + BootRecords(bs[i..]) == start + BootRecords(bs)
    {
      assert bs[i..][1..] == bs[i + 1..];
      Assoc(enc.emitted, [Record(8, BootBytes(bs[i]))], BootRecords(bs[i + 1..]));
      enc.Emit(8, BootBytes(bs[i]));
    }
  }

  lemma EightInARow<T>(m: seq<T>, a: seq<T>, b: seq<T>, c: seq<T>, d: seq<T>, e: seq<T>, f: seq<T>, g: seq<T>)
    ensures m + a + b + c + d + e + f + g == m + (a + (b + (c + (d + (e + (f + g))))))
  {
    Assoc(m, a, b + (c + (d + (e + (f + g)))));
    Assoc(m + a, b, c + (d + (e + (f + g))));
    Assoc(m + a + b, c, d + (e + (f + g)));
    Assoc(m + a + b + c, d, e + (f + g));
    Assoc(m + a + b + c + d, e, f + g);
    Assoc(m + a + b + c + d + e, f, g);
  }

  lemma StateRecordsLeft(s: DurableState)
    ensures StateRecords(s)
            == [Record(1, MetaBytes(s.epoch, s.revision))] + ProfileRecords(s.profiles) + PolicyRecords(s.policies)
               + ListRecords(s.profiles, s.lists) + HistoryRecords(s.history) + AttemptRecords(s.attempts)
               + PublisherRecords(s.publishers) + BootRecords(s.fencedBoots)
  {
    hide ProfileRecords; hide PolicyRecords; hide ListRecords; hide HistoryRecords; hide AttemptRecords;
    hide PublisherRecords; hide BootRecords; hide MetaBytes;
    EightInARow([Record(1, MetaBytes(s.epoch, s.revision))], ProfileRecords(s.profiles), PolicyRecords(s.policies),
                ListRecords(s.profiles, s.lists), HistoryRecords(s.history), AttemptRecords(s.attempts),
                PublisherRecords(s.publishers), BootRecords(s.fencedBoots));
  }

  method EmitState(enc: Encoder, s: DurableState)
    requires enc.Valid() && enc.emitted == []
    modifies enc, enc.records
    ensures enc.Valid() && enc.emitted == StateRecords(s)
  {
    hide *;
    StateRecordsLeft(s);
    enc.Emit(1, MetaBytes(s.epoch, s.revision));
    assert enc.emitted == [Record(1, MetaBytes(s.epoch, s.revision))];
    EmitProfiles(enc, s.profiles);
    EmitPolicies(enc, s.policies);
    EmitLists(enc, s.profiles, s.lists);
    EmitHistory(enc, s.history);
    EmitAttempts(enc, s.attempts);
    EmitPublishers(enc, s.publishers);
    EmitBoots(enc, s.fencedBoots);
  }

  method EncodeState(cfg: Config, s: DurableState) returns (image: Option<Bytes>)
    ensures image == Encode(cfg, s)
  {
    hide Flat; hide RecordsBytes; hide BodiesFit; hide StateRecords; hide HeaderBytes; hide Crc32c; hide WordField;
    var enc := new Encoder(cfg.limits);
    EmitState(enc, s);
    if enc.failed { return None; }
    var bytes := Frame(enc.records.buf, enc.count);
    image := Some(bytes);
  }

  method Frame(body: Bytes, count: nat) returns (image: Bytes)
    ensures var head := HeaderBytes(|body|, count);
            image == head + (WordField(Crc32c(head)) + (body + WordField(Crc32c(body))))
  {
    hide Crc32c; hide WordField;
    var head := HeaderBytes(|body|, count);
    var headCrc := Checksum(head);
    var bodyCrc := Checksum(body);
    image := head + (WordField(headCrc) + (body + WordField(bodyCrc)));
  }

  // ---------------------------------------------------------------------- reading

  /** Take the image apart: the record area and the record count of a sound frame. */
  method OpenFrame(b: Bytes) returns (body: Option<Bytes>, count: u32)
    ensures body == if FrameOk(b) then Some(b[24..|b| - 4]) else None
    ensures body.Some? ==> count == ReadWord(b[16..20])
  {
    body, count := None, 0;
    if |b| < 28 || b[..4] != MAGIC { return; }
    var headCrc := Checksum(b[..20]);
    if ReadWord(b[20..24]) != headCrc { return; }
    if ReadHalf(b[4..6]) != FORMAT_VERSION || ReadHalf(b[6..8]) != 0 { return; }
    if ReadLong(b[8..16]) > |b| || 28 + ReadLong(b[8..16]) != |b| { return; }
    var bodyCrc := Checksum(b[24..|b| - 4]);
    if ReadWord(b[|b| - 4..]) != bodyCrc { return; }
    body, count := Some(b[24..|b| - 4]), ReadWord(b[16..20]);
  }

  /** One pass of a reader over the records, filling the state as it goes. */
  method ReadRecords(cfg: Config, area: Bytes) returns (o: Option<(DurableState, nat)>)
    ensures o == DecodeRecords(cfg, area, EMPTY_STATE, 0)
  {
    hide ApplyRecord;
    var r := new ByteReader(area);
    var s, parsed := EMPTY_STATE, 0;
    assert area[0..] == area;
    while r.pos < |area|
      invariant r.Valid() && r.ok && r.data == area
      invariant DecodeRecords(cfg, area, EMPTY_STATE, 0) == DecodeRecords(cfg, area[r.pos..], s, parsed)
      decreases |area| - r.pos
    {
      ghost var rest := area[r.pos..];
      ghost var at := r.pos;
      var kind, good := r.GetNum(2);
      if !good { return None; }
      var size, good2 := r.GetNum(4);
      if !good2 { return None; }
      assert rest[..2] == area[at..at + 2] && rest[2..][..4] == area[at + 2..at + 6];
      assert rest[2..][4..] == area[at + 6..];
      if kind < 1 || kind > 8 || size > cfg.limits.maxRecordBytes { return None; }
      var body, good3 := r.GetRaw(size);
      if !good3 { return None; }
      assert area[at + 6..][..size] == body && area[at + 6..][size..] == area[r.pos..];
      var next := ApplyRecord(cfg, s, kind, body);
      if next.None? { return None; }
      s, parsed := next.value, parsed + 1;
    }
    assert area[r.pos..] == [];
    o := Some((s, parsed));
  }

  method DecodeState(cfg: Config, b: Bytes) returns (o: Option<DurableState>)
    ensures o == Decode(cfg, b)
  {
    hide FrameOk; hide DecodeRecords;
    var area, count := OpenFrame(b);
    if area.None? || count > Budget(cfg.limits) { return None; }
    var read := ReadRecords(cfg, area.value);
    if read.None? { return None; }
    var (s, parsed) := read.value;
    o := if parsed != count || !CountsFit(cfg.limits, s) then None else Some(s);
  }

  // ------------------------------------------------------------------------ backend

  datatype Loaded = Empty | NotLoaded | Image(state: DurableState)

  class MemoryPersistence {
    var bytes: Bytes
    var failNext: bool
    var saveCount: nat

    constructor ()
      ensures bytes == [] && !failNext && saveCount == 0
    {
      bytes, failNext, saveCount := [], false, 0;
    }

    /** A save either replaces the image as a whole or leaves it as it is. */
    method Save(cfg: Config, s: DurableState) returns (ok: bool)
      modifies this
      ensures ok == (!old(failNext) && Encode(cfg, s).Some?)
      ensures bytes == if ok then Encode(cfg, s).value else old(bytes)
      ensures !failNext && saveCount == old(saveCount) + 1
    {
      saveCount := saveCount + 1;
      if failNext {
        failNext := false;
        return false;
      }
      var image := EncodeState(cfg, s);
      if image.None? { return false; }
      bytes, ok := image.value, true;
    }

    method Load(cfg: Config) returns (r: Loaded)
      ensures r == LoadOf(cfg, bytes)
    {
      if bytes == [] { return Empty; }
      var o := DecodeState(cfg, bytes);
      r := if o.None? then NotLoaded else Image(o.value);
    }
  }

  function LoadOf(cfg: Config, bytes: Bytes): Loaded {
    if bytes == [] then Empty
    else match Decode(cfg, bytes) case None => NotLoaded case Some(s) => Image(s)
  }

  /** What a saved state is loaded as: itself when it is well formed, and otherwise a refusal, never another state. */
  lemma SavedIsLoaded(cfg: Config, s: DurableState)
    requires FieldsFit(s) && Encode(cfg, s).Some?
    ensures LoadOf(cfg, Encode(cfg, s).value) == if WellFormed(cfg, s) then Image(s) else NotLoaded
  {
    hide WellFormed; hide StateRecords; hide RecordsBytes; hide Decode; hide FieldsFit;
    ReloadExactly(cfg, s);
    NotEmpty(StateRecords(s));
  }

  lemma NotEmpty(rs: seq<Record>)
    ensures |ImageOfRecords(rs)| >= 20
  {
    hide RecordsBytes;
  }
}
