/** Which states come back from their own image, whatever their sizes (`src/persistence.cpp`). */
module SrfImageRoundTrip {
  import opened SrfTypes
  import opened SrfBytes
  import opened SrfFields
  import opened SrfCrc
  import opened SrfStoreModel
  import opened SrfImageRecords
  import opened SrfImage

  /** Every entry is one that fixed-width fields can hold. */
  ghost predicate EntriesFit(s: DurableState) {
    && s.revision < WORD_LIMIT
    && (forall i :: 0 <= i < |s.profiles| ==>
          s.profiles[i].support == 1 && |s.profiles[i].name| < 0x1_0000 && |s.profiles[i].capabilities| < 0x1_0000)
    && (forall i :: 0 <= i < |s.policies| ==> PolicyFits(s.policies[i]))
    && (forall i :: 0 <= i < |s.lists| ==> ListFits(s.lists[i]))
    && (forall i :: 0 <= i < |s.history| ==> s.history[i].revision < WORD_LIMIT)
  }

  // ------------------------------------------------ what a decoder returns fits its fields

  lemma DecodedProfileFits(b: Bytes)
    requires DecodeProfile(b).Some?
    ensures var p := DecodeProfile(b).value;
            p.support == 1 && |p.name| < 0x1_0000 && |p.capabilities| < 0x1_0000
  {
    hide ReadLongs; hide ReadByte; hide ReadHalf; hide ReadWord;
  }

  lemma DecodedPolicyFits(b: Bytes)
    requires DecodePolicy(b).Some?
    ensures PolicyFits(DecodePolicy(b).value)
  {
    hide ReadLongs; hide ReadByte; hide ReadHalf; hide ReadWord;
  }

  lemma DecodedTailFits(lim: Limits, q: SegmentList, b: Bytes)
    requires DecodeListTail(lim, q, b).Some?
    ensures ListFits(DecodeListTail(lim, q, b).value)
  {
    hide ReadLongs; hide ReadByte; hide ReadWord; hide StateOf; hide CurrentnessOf; hide DecodeSegments;
    hide SegmentsOk;
    var b3 := b[1..][1..][40..];
    SegmentsForth(lim, false, b3[4..], ReadWord(b3[..4]));
  }

  lemma DecodedListFits(cfg: Config, ps: seq<Profile>, b: Bytes)
    requires DecodeList(cfg, ps, b).Some?
    ensures ListFits(DecodeList(cfg, ps, b).value)
  {
    hide ReadLongs; hide ReadByte; hide ReadHalf; hide DecodeListTail; hide ListFits; hide ListConsistent;
    var b3 := b[48..][1..][2..];
    var rest := b3[64..];
    var v := ReadLongs(b[..48], 6);
    var w := ReadLongs(b3[..64], 8);
    var q := BLANK_LIST.(content := Content(v[0], v[1], v[2], v[3], v[4], v[5],
                                            if ReadByte(b[48..][..1]) == 1 then Strict else Loose, w[0], w[1], w[2],
                                            w[3], w[4], w[5], w[6], w[7], []));
    assert DecodeListMiddle(cfg.limits, q, rest).Some?;
    MiddleFits(cfg.limits, q, rest);
  }

  lemma MiddleFits(lim: Limits, q: SegmentList, b: Bytes)
    requires DecodeListMiddle(lim, q, b).Some?
    ensures ListFits(DecodeListMiddle(lim, q, b).value)
  {
    hide ReadLongs; hide DecodeListTail; hide ListFits;
    var v, p := ReadLongs(b[..64], 8), ReadLongs(b[64..][..96], 12);
    DecodedTailFits(
      lim,
      q.(generation := v[0], lineage := Lineage(v[1], v[2], v[3]), authority := Writer(v[4], v[5], v[6], v[7]),
         provenance := Provenance(p[0], p[1], p[2], p[3], p[4], p[5], p[6], p[7], p[8], p[9], p[10], p[11])),
      b[64..][96..]);
  }

  lemma RecordFits(cfg: Config, s: DurableState, kind: u16, body: Bytes)
    requires EntriesFit(s) && ApplyRecord(cfg, s, kind, body).Some?
    ensures EntriesFit(ApplyRecord(cfg, s, kind, body).value)
  {
    hide DecodeProfile; hide DecodePolicy; hide DecodeList; hide PolicyFits; hide ListFits; hide DecodeAttempt;
    hide DecodePublisher; hide DecodeBoot; hide FindProfile; hide FindPolicy; hide FindList; hide StateOf;
    hide CurrentnessOf; hide ReadLongs; hide ReadByte;
    if kind == 2 && DecodeProfile(body).Some? { DecodedProfileFits(body); }
    if kind == 3 && DecodePolicy(body).Some? { DecodedPolicyFits(body); }
    if kind == 4 && DecodeList(cfg, s.profiles, body).Some? { DecodedListFits(cfg, s.profiles, body); }
  }

  lemma {:induction false} RecordsFit(cfg: Config, b: Bytes, s: DurableState, parsed: nat)
    requires EntriesFit(s) && DecodeRecords(cfg, b, s, parsed).Some?
    ensures EntriesFit(DecodeRecords(cfg, b, s, parsed).value.0)
    decreases |b|
  {
    hide EntriesFit; hide ApplyRecord; hide ReadHalf; hide ReadWord;
    if b != [] {
      var kind, size := ReadHalf(b[..2]), ReadWord(b[2..][..4]);
      var rest := b[2..][4..];
      RecordFits(cfg, s, kind, rest[..size]);
      RecordsFit(cfg, rest[size..], ApplyRecord(cfg, s, kind, rest[..size]).value, parsed + 1);
    }
  }

  /** Whatever image a state is decoded from, its entries fit. */
  lemma DecodedFits(cfg: Config, b: Bytes)
    requires Decode(cfg, b).Some?
    ensures EntriesFit(Decode(cfg, b).value)
  {
    hide Crc32c; hide ReadHalf; hide ReadWord; hide ReadLong; hide DecodeRecords; hide CountsFit;
    NothingFits();
    RecordsFit(cfg, b[24..|b| - 4], EMPTY_STATE, 0);
  }

  lemma NothingFits()
    ensures EntriesFit(EMPTY_STATE)
  {}

  // ------------------------------------------------------------------ sizes on the frame

  /** The size field of an image is its size only if the field can hold it. */
  lemma SizeShown(rs: seq<Record>)
    requires FrameOk(ImageOfRecords(rs))
    ensures |RecordsBytes(rs)| < WORD_LIMIT
  {
    hide RecordsBytes; hide HeaderBytes; hide WordField; hide Crc32c; hide ReadHalf; hide ReadWord; hide ReadLong;
    var body := RecordsBytes(rs);
    var head := HeaderBytes(|body|, |rs|);
    FrameSlices(head, body, ImageOfRecords(rs));
    HeaderShown(|body|, |rs|);
  }

  lemma HeaderShown(size: nat, count: nat)
    ensures var h := HeaderBytes(size, count);
            ReadLong(h[8..16]) == size % WORD_LIMIT && ReadWord(h[16..20]) == count % 0x1_0000_0000
  {
    hide HalfField; hide WordField; hide ReadHalf; hide ReadWord; hide ReadLong; hide LE;
    var a, b := size % WORD_LIMIT, count % 0x1_0000_0000;
    assert a % WORD_LIMIT == a && b % 0x1_0000_0000 == b;
    HeaderBack(a, b);
    assert HeaderBytes(a, b) == HeaderBytes(size, count);
  }

  /** The count field of an image is the number of its records only if the field can hold it. */
  lemma CountShown(cfg: Config, rs: seq<Record>)
    requires Framed(cfg.limits, rs) && Decode(cfg, ImageOfRecords(rs)).Some?
    ensures |rs| < 0x1_0000_0000
  {
    hide RecordsBytes; hide HeaderBytes; hide WordField; hide Crc32c; hide ReadHalf; hide ReadLong; hide ReadWord;
    hide DecodeRecords; hide ApplyAllRecords; hide FrameOk; hide CountsFit; hide Framed; hide Budget;
    var body := RecordsBytes(rs);
    var head := HeaderBytes(|body|, |rs|);
    var b := ImageOfRecords(rs);
    FrameSlices(head, body, b);
    HeaderShown(|body|, |rs|);
    RecordsBack(cfg, rs, EMPTY_STATE, 0);
  }

  /** A state comes back from its own image if and only if it is well formed and everything in it fits its field; the
      fields wrap, and what does not fit comes back as something else or not at all. */
  lemma ReadBackExactly(cfg: Config, s: DurableState)
    ensures Reload(cfg, s) == Some(s) <==> WellFormed(cfg, s) && FieldsFit(s)
  {
    hide WellFormed; hide Decode; hide ImageOfRecords; hide StateRecords; hide RecordsBytes; hide ListFits;
    hide PolicyFits; hide Framed;
    if FieldsFit(s) { ReloadExactly(cfg, s); }
    if Reload(cfg, s) == Some(s) {
      var rs := StateRecords(s);
      DecodedFits(cfg, ImageOfRecords(rs));
      AllKinds(s);
      FramedRecords(cfg.limits, rs);
      CountShown(cfg, rs);
      DecodedFrame(cfg, ImageOfRecords(rs));
      SizeShown(rs);
    }
  }

  lemma FramedRecords(lim: Limits, rs: seq<Record>)
    requires BodiesFit(lim, rs) && forall i :: 0 <= i < |rs| ==> 1 <= rs[i].kind <= 8
    ensures Framed(lim, rs)
  {}

  lemma DecodedFrame(cfg: Config, b: Bytes)
    requires Decode(cfg, b).Some?
    ensures FrameOk(b)
  {
    hide FrameOk; hide DecodeRecords;
  }
}
