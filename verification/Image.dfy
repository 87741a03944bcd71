/** The durable image: framing, records in order, integrity, and what reading back a written state gives
    (`src/persistence.cpp`). */
module SrfImage {
  import opened SrfTypes
  import opened SrfBytes
  import opened SrfFields
  import opened SrfCrc
  import opened SrfRegistry
  import opened SrfStoreModel
  import opened SrfStoreLaws
  import opened SrfImageRecords

  const MAGIC: Bytes := [0x53, 0x52, 0x46, 0x4C]
  const FORMAT_VERSION: u16 := 1

  datatype Record = Record(kind: u16, body: Bytes)

  // ------------------------------------------------------------- records of a state

  /** The payload width a list is written at: that of the profile now registered under its profile id, whatever its
      generation; failing that its longest payload; and 1 when neither fits the field. */
  function ListWidth(profiles: seq<Profile>, l: SegmentList): (w: u16)
    ensures w >= 1
  {
    var longest := MaxPayload(l.content.segments);
    var w := match FindProfile(profiles, l.content.profile)
             case Some(p) => if p.payloadWidth == 0 then 1 else p.payloadWidth
             case None => if longest == 0 then 1 else longest;
    if w > 0xFFFF then 1 else w
  }

  function ProfileRecords(ps: seq<Profile>): seq<Record> {
    if ps == [] then [] else [Record(2, ProfileBytes(ps[0]))] + ProfileRecords(ps[1..])
  }
  function PolicyRecords(ps: seq<Policy>): seq<Record> {
    if ps == [] then [] else [Record(3, PolicyBytes(ps[0]))] + PolicyRecords(ps[1..])
  }
  function ListRecords(profiles: seq<Profile>, ls: seq<SegmentList>): seq<Record> {
    if ls == [] then [] else [Record(4, ListBytes(ls[0], ListWidth(profiles, ls[0])))] + ListRecords(profiles, ls[1..])
  }
  function HistoryRecords(hs: seq<HistoryEntry>): seq<Record> {
    if hs == [] then [] else [Record(5, HistoryBytes(hs[0]))] + HistoryRecords(hs[1..])
  }
  function AttemptRecords(rs: seq<Attempt>): seq<Record> {
    if rs == [] then [] else [Record(6, AttemptBytes(rs[0]))] + AttemptRecords(rs[1..])
  }
  function PublisherRecords(ps: seq<Publisher>): seq<Record> {
    if ps == [] then [] else [Record(7, PublisherBytes(ps[0]))] + PublisherRecords(ps[1..])
  }
  function BootRecords(bs: seq<u64>): seq<Record> {
    if bs == [] then [] else [Record(8, BootBytes(bs[0]))] + BootRecords(bs[1..])
  }

  function StateRecords(s: DurableState): seq<Record> {
    [Record(1, MetaBytes(s.epoch, s.revision))] + (ProfileRecords(s.profiles) + (PolicyRecords(s.policies)
    + (ListRecords(s.profiles, s.lists) + (HistoryRecords(s.history) + (AttemptRecords(s.attempts)
    + (PublisherRecords(s.publishers) + BootRecords(s.fencedBoots)))))))
  }

  function RecordBytes(r: Record): Bytes { HalfField(r.kind) + (WordField(|r.body| % 0x1_0000_0000) + r.body) }

  function RecordsBytes(rs: seq<Record>): Bytes {
    if rs == [] then [] else RecordBytes(rs[0]) + RecordsBytes(rs[1..])
  }

  // --------------------------------------------------------------------- the image

  function HeaderBytes(size: nat, count: nat): (h: Bytes)
    ensures |h| == 20
  {
    MAGIC + (HalfField(FORMAT_VERSION) + (HalfField(0) + (LE(size % WORD_LIMIT, 8) + WordField(count % 0x1_0000_0000))))
  }

  function ImageOfRecords(rs: seq<Record>): Bytes {
    var body := RecordsBytes(rs);
    var head := HeaderBytes(|body|, |rs|);
    head + (WordField(Crc32c(head)) + (body + WordField(Crc32c(body))))
  }

  predicate BodiesFit(lim: Limits, rs: seq<Record>) { forall i :: 0 <= i < |rs| ==> |rs[i].body| <= lim.maxRecordBytes }

  /** The image of a state, or nothing when a record is too large. */
  function Encode(cfg: Config, s: DurableState): Option<Bytes> {
    if BodiesFit(cfg.limits, StateRecords(s)) then Some(ImageOfRecords(StateRecords(s))) else None
  }

  const EMPTY_STATE := DurableState(0, 0, [], [], [], [], [], [], [])

  /** One record added to the state read so far; nothing when it is malformed or repeats an identity. */
  function ApplyRecord(cfg: Config, s: DurableState, kind: u16, body: Bytes): Option<DurableState> {
    match kind
    case 1 =>
      (match DecodeMeta(body) case None => None case Some((e, r)) => Some(s.(epoch := e, revision := r)))
    case 2 =>
      (match DecodeProfile(body)
       case None => None
       case Some(p) => if FindProfile(s.profiles, p.id).Some? then None else Some(s.(profiles := s.profiles + [p])))
    case 3 =>
      (match DecodePolicy(body)
       case None => None
       case Some(p) => if FindPolicy(s.policies, p.id).Some? then None else Some(s.(policies := s.policies + [p])))
    case 4 =>
      (match DecodeList(cfg, s.profiles, body)
       case None => None
       case Some(l) => if FindList(s.lists, l.content.id).Some? then None else Some(s.(lists := s.lists + [l])))
    case 5 => (match DecodeHistory(body) case None => None case Some(h) => Some(s.(history := s.history + [h])))
    case 6 => (match DecodeAttempt(body) case None => None case Some(a) => Some(s.(attempts := s.attempts + [a])))
    case 7 => (match DecodePublisher(body) case None => None case Some(p) => Some(s.(publishers := s.publishers + [p])))
    case 8 => (match DecodeBoot(body) case None => None case Some(b) => Some(s.(fencedBoots := s.fencedBoots + [b])))
    case _ => None
  }

  /** Records until the bytes run out, and how many there were. */
  function DecodeRecords(cfg: Config, b: Bytes, s: DurableState, parsed: nat): Option<(DurableState, nat)>
    decreases |b|
  {
    if b == [] then Some((s, parsed))
    else if |b| < 6 then None
    else
      var kind, size := ReadHalf(b[..2]), ReadWord(b[2..][..4]);
      var rest := b[2..][4..];
      if kind < 1 || kind > 8 || size > cfg.limits.maxRecordBytes || |rest| < size then None
      else match ApplyRecord(cfg, s, kind, rest[..size])
           case None => None
           case Some(t) => DecodeRecords(cfg, rest[size..], t, parsed + 1)
  }

  /** The record budget; it has no share for the fenced boots. */
  function Budget(lim: Limits): nat {
    lim.maxLists + lim.maxProfiles + lim.maxPolicies + lim.maxHistory + lim.maxAttempts + lim.maxPublishers + 1
  }

  predicate CountsFit(lim: Limits, s: DurableState) {
    && |s.history| <= lim.maxHistory && |s.attempts| <= lim.maxAttempts && |s.lists| <= lim.maxLists
    && |s.profiles| <= lim.maxProfiles && |s.policies| <= lim.maxPolicies && |s.publishers| <= lim.maxPublishers
  }

  /** The frame around the records: header, sizes and both checksums. */
  predicate FrameOk(b: Bytes) {
    && |b| >= 28 && b[..4] == MAGIC
    && ReadWord(b[20..24]) == Crc32c(b[..20])
    && ReadHalf(b[4..6]) == FORMAT_VERSION && ReadHalf(b[6..8]) == 0
    && 28 + ReadLong(b[8..16]) == |b|
    && ReadWord(b[|b| - 4..]) == Crc32c(b[24..|b| - 4])
  }

  function Decode(cfg: Config, b: Bytes): Option<DurableState> {
    if !FrameOk(b) || ReadWord(b[16..20]) > Budget(cfg.limits) then None
    else match DecodeRecords(cfg, b[24..|b| - 4], EMPTY_STATE, 0)
         case None => None
         case Some((s, parsed)) =>
           if parsed != ReadWord(b[16..20]) || !CountsFit(cfg.limits, s) then None else Some(s)
  }

  // --------------------------------------------------- what may be written and read

  ghost predicate FieldsFit(s: DurableState) {
    && s.revision < WORD_LIMIT
    && (forall i :: 0 <= i < |s.profiles| ==>
          s.profiles[i].support == 1 && |s.profiles[i].name| < 0x1_0000 && |s.profiles[i].capabilities| < 0x1_0000)
    && (forall i :: 0 <= i < |s.policies| ==> PolicyFits(s.policies[i]))
    && (forall i :: 0 <= i < |s.lists| ==> ListFits(s.lists[i]))
    && (forall i :: 0 <= i < |s.history| ==> s.history[i].revision < WORD_LIMIT)
    && |StateRecords(s)| < 0x1_0000_0000 && |RecordsBytes(StateRecords(s))| < WORD_LIMIT
  }

  predicate ListOk(cfg: Config, profiles: seq<Profile>, l: SegmentList) {
    var w := ListWidth(profiles, l);
    ListShapeOk(cfg.limits, l) && w <= cfg.limits.maxPayloadBytes && ListConsistent(cfg, profiles, l, w)
  }

  ghost predicate EntriesOk(cfg: Config, s: DurableState) {
    && (forall i :: 0 <= i < |s.profiles| ==> ProfileOk(s.profiles[i])) && UniqueProfiles(s.profiles)
    && (forall i :: 0 <= i < |s.policies| ==> PolicyOk(s.policies[i])) && UniquePolicies(s.policies)
    && (forall i :: 0 <= i < |s.lists| ==> ListOk(cfg, s.profiles, s.lists[i])) && UniqueIds(s.lists)
    && (forall i :: 0 <= i < |s.history| ==> HistoryOk(s.history[i]))
    && (forall i :: 0 <= i < |s.attempts| ==> s.attempts[i].attempt != 0)
    && (forall i :: 0 <= i < |s.publishers| ==> PublisherOk(s.publishers[i]))
    && (forall i :: 0 <= i < |s.fencedBoots| ==> s.fencedBoots[i] != 0)
  }

  /** The states the image format carries: entries within the decoder's caps, no identity twice, digests that match at
      the width the encoder picks, and sizes and counts within the limits, fenced boots included. */
  ghost predicate WellFormed(cfg: Config, s: DurableState) {
    EntriesOk(cfg, s) && BodiesFit(cfg.limits, StateRecords(s)) && |StateRecords(s)| <= Budget(cfg.limits)
    && CountsFit(cfg.limits, s)
  }

  // ----------------------------------------------------------------- record by record

  function ApplyAllRecords(cfg: Config, s: DurableState, rs: seq<Record>): Option<DurableState>
    decreases |rs|
  {
    if rs == [] then Some(s)
    else match ApplyRecord(cfg, s, rs[0].kind, rs[0].body)
         case None => None
         case Some(t) => ApplyAllRecords(cfg, t, rs[1..])
  }

  ghost predicate Framed(lim: Limits, rs: seq<Record>) {
    BodiesFit(lim, rs) && forall i :: 0 <= i < |rs| ==> 1 <= rs[i].kind <= 8
  }

  /** Parsing concatenated records is applying them one after the other. */
  lemma {:induction false} RecordsBack(cfg: Config, rs: seq<Record>, s: DurableState, parsed: nat)
    requires Framed(cfg.limits, rs)
    ensures DecodeRecords(cfg, RecordsBytes(rs), s, parsed)
            == match ApplyAllRecords(cfg, s, rs) case None => None case Some(t) => Some((t, parsed + |rs|))
    decreases |rs|
  {
    hide ApplyRecord; hide HalfField; hide WordField; hide ReadHalf; hide ReadWord;
    if rs != [] {
      var r, tail := rs[0], RecordsBytes(rs[1..]);
      var t2 := r.body + tail;
      var t1 := WordField(|r.body|) + t2;
      assert RecordsBytes(rs) == HalfField(r.kind) + t1;
      Cut(HalfField(r.kind), t1);
      Cut(WordField(|r.body|), t2);
      Cut(r.body, tail);
      HalfBack(r.kind);
      WordBack(|r.body|);
      var next := ApplyRecord(cfg, s, r.kind, r.body);
      if next.Some? { RecordsBack(cfg, rs[1..], next.value, parsed + 1); }
    }
  }

  lemma {:induction false} ApplyConcat(cfg: Config, s: DurableState, a: seq<Record>, b: seq<Record>)
    ensures ApplyAllRecords(cfg, s, a + b)
            == match ApplyAllRecords(cfg, s, a) case None => None case Some(t) => ApplyAllRecords(cfg, t, b)
    decreases |a|
  {
    hide ApplyRecord;
    if a == [] {
      assert a + b == b;
    } else {
      assert (a + b)[1..] == a[1..] + b;
      var next := ApplyRecord(cfg, s, a[0].kind, a[0].body);
      if next.Some? { ApplyConcat(cfg, next.value, a[1..], b); }
    }
  }

  // ----------------------------------------------------------------- table by table


  lemma FreshProfile(was: seq<Profile>, p: Profile, ps: seq<Profile>)
    ensures UniqueProfiles(was + ([p] + ps)) ==> FindProfile(was, p.id).None?
    ensures FindProfile(was, p.id).None? && UniqueProfiles(was) ==> UniqueProfiles(was + [p])
  {
    var all := was + ([p] + ps);
    if FindProfile(was, p.id).Some? {
      var i :| 0 <= i < |was| && was[i] == FindProfile(was, p.id).value;
      assert all[i].id == all[|was|].id;
    }
  }

  lemma {:induction false} ProfilesBack(cfg: Config, s: DurableState, ps: seq<Profile>)
    requires UniqueProfiles(s.profiles)
    requires forall i :: 0 <= i < |ps| ==>
               ps[i].support == 1 && |ps[i].name| < 0x1_0000 && |ps[i].capabilities| < 0x1_0000
    ensures ApplyAllRecords(cfg, s, ProfileRecords(ps))
            == if (forall i :: 0 <= i < |ps| ==> ProfileOk(ps[i])) && UniqueProfiles(s.profiles + ps)
               then Some(s.(profiles := s.profiles + ps)) else None
    decreases |ps|
  {
    hide ProfileBytes; hide DecodeProfile; hide ProfileOk; hide FindProfile; hide UniqueProfiles;
    hide DecodePolicy; hide DecodeList; hide DecodeHistory; hide DecodeAttempt; hide DecodePublisher; hide DecodeBoot;
    hide DecodeMeta; hide FindPolicy; hide FindList;
    if ps == [] {
      assert s.profiles + ps == s.profiles;
    } else {
      var p, rest := ps[0], ps[1..];
      assert ps == [p] + rest;
      assert (s.profiles + [p]) + rest == s.profiles + ps;
      assert (forall i :: 0 <= i < |ps| ==> ProfileOk(ps[i])) <==>
             ProfileOk(p) && forall i :: 0 <= i < |rest| ==> ProfileOk(rest[i]);
      ProfileBack(p);
      FreshProfile(s.profiles, p, rest);
      if ProfileOk(p) && FindProfile(s.profiles, p.id).None? {
        ProfilesBack(cfg, s.(profiles := s.profiles + [p]), rest);
      }
    }
  }

  lemma FreshPolicy(was: seq<Policy>, p: Policy, ps: seq<Policy>)
    ensures UniquePolicies(was + ([p] + ps)) ==> FindPolicy(was, p.id).None?
    ensures FindPolicy(was, p.id).None? && UniquePolicies(was) ==> UniquePolicies(was + [p])
  {
    var all := was + ([p] + ps);
    if FindPolicy(was, p.id).Some? {
      var i :| 0 <= i < |was| && was[i] == FindPolicy(was, p.id).value;
      assert all[i].id == all[|was|].id;
    }
  }

  lemma {:induction false} PoliciesBack(cfg: Config, s: DurableState, ps: seq<Policy>)
    requires UniquePolicies(s.policies) && forall i :: 0 <= i < |ps| ==> PolicyFits(ps[i])
    ensures ApplyAllRecords(cfg, s, PolicyRecords(ps))
            == if (forall i :: 0 <= i < |ps| ==> PolicyOk(ps[i])) && UniquePolicies(s.policies + ps)
               then Some(s.(policies := s.policies + ps)) else None
    decreases |ps|
  {
    hide PolicyBytes; hide DecodePolicy; hide PolicyOk; hide PolicyFits; hide FindPolicy; hide UniquePolicies;
    if ps == [] {
      assert s.policies + ps == s.policies;
    } else {
      var p, rest := ps[0], ps[1..];
      assert ps == [p] + rest;
      assert (s.policies + [p]) + rest == s.policies + ps;
      assert (forall i :: 0 <= i < |ps| ==> PolicyOk(ps[i])) <==>
             PolicyOk(p) && forall i :: 0 <= i < |rest| ==> PolicyOk(rest[i]);
      PolicyBack(p);
      FreshPolicy(s.policies, p, rest);
      if PolicyOk(p) && FindPolicy(s.policies, p.id).None? {
        PoliciesBack(cfg, s.(policies := s.policies + [p]), rest);
      }
    }
  }

  lemma FreshList(was: seq<SegmentList>, l: SegmentList, ls: seq<SegmentList>)
    ensures UniqueIds(was + ([l] + ls)) ==> FindList(was, l.content.id).None?
    ensures FindList(was, l.content.id).None? && UniqueIds(was) ==> UniqueIds(was + [l])
  {
    var all := was + ([l] + ls);
    var i := Position(was, l.content.id);
    if i < |was| { assert all[i] == was[i] && all[|was|] == l; }
  }

  lemma {:induction false} ListsBack(cfg: Config, s: DurableState, ls: seq<SegmentList>)
    requires UniqueIds(s.lists) && forall i :: 0 <= i < |ls| ==> ListFits(ls[i])
    ensures ApplyAllRecords(cfg, s, ListRecords(s.profiles, ls))
            == if (forall i :: 0 <= i < |ls| ==> ListOk(cfg, s.profiles, ls[i])) && UniqueIds(s.lists + ls)
               then Some(s.(lists := s.lists + ls)) else None
    decreases |ls|
  {
    hide ListBytes; hide DecodeList; hide ListShapeOk; hide ListFits; hide FindList; hide UniqueIds;
    hide ListConsistent;
    hide ListWidth; hide ListOk;
    if ls == [] {
      assert s.lists + ls == s.lists;
    } else {
      var l, rest := ls[0], ls[1..];
      assert ls == [l] + rest;
      assert (s.lists + [l]) + rest == s.lists + ls;
      assert (forall i :: 0 <= i < |ls| ==> ListOk(cfg, s.profiles, ls[i])) <==>
             ListOk(cfg, s.profiles, l) && forall i :: 0 <= i < |rest| ==> ListOk(cfg, s.profiles, rest[i]);
      OneListBack(cfg, s.profiles, l);
      FreshList(s.lists, l, rest);
      if ListOk(cfg, s.profiles, l) && FindList(s.lists, l.content.id).None? {
        ListsBack(cfg, s.(lists := s.lists + [l]), rest);
      }
    }
  }

  lemma OneListBack(cfg: Config, profiles: seq<Profile>, l: SegmentList)
    requires ListFits(l)
    ensures DecodeList(cfg, profiles, ListBytes(l, ListWidth(profiles, l)))
            == if ListOk(cfg, profiles, l) then Some(l) else None
  {
    hide ListBytes; hide DecodeList; hide ListShapeOk; hide ListFits; hide ListConsistent;
    ListBack(cfg, profiles, l, ListWidth(profiles, l));
  }

  lemma {:induction false} HistoryRecordsBack(cfg: Config, s: DurableState, hs: seq<HistoryEntry>)
    requires forall i :: 0 <= i < |hs| ==> hs[i].revision < WORD_LIMIT
    ensures ApplyAllRecords(cfg, s, HistoryRecords(hs))
            == if forall i :: 0 <= i < |hs| ==> HistoryOk(hs[i]) then Some(s.(history := s.history + hs)) else None
    decreases |hs|
  {
    hide HistoryBytes; hide DecodeHistory; hide HistoryOk;
    if hs == [] {
      assert s.history + hs == s.history;
    } else {
      var h, rest := hs[0], hs[1..];
      assert hs == [h] + rest && (s.history + [h]) + rest == s.history + hs;
      assert (forall i :: 0 <= i < |hs| ==> HistoryOk(hs[i])) <==>
             HistoryOk(h) && forall i :: 0 <= i < |rest| ==> HistoryOk(rest[i]);
      HistoryBack(h);
      HistoryRecordsBack(cfg, s.(history := s.history + [h]), rest);
    }
  }

  lemma {:induction false} AttemptsBack(cfg: Config, s: DurableState, rs: seq<Attempt>)
    ensures ApplyAllRecords(cfg, s, AttemptRecords(rs))
            == if forall i :: 0 <= i < |rs| ==> rs[i].attempt != 0 then Some(s.(attempts := s.attempts + rs)) else None
    decreases |rs|
  {
    hide AttemptBytes; hide DecodeAttempt;
    if rs == [] {
      assert s.attempts + rs == s.attempts;
    } else {
      var r, rest := rs[0], rs[1..];
      assert rs == [r] + rest && (s.attempts + [r]) + rest == s.attempts + rs;
      assert (forall i :: 0 <= i < |rs| ==> rs[i].attempt != 0) <==>
             r.attempt != 0 && forall i :: 0 <= i < |rest| ==> rest[i].attempt != 0;
      AttemptBack(r);
      AttemptsBack(cfg, s.(attempts := s.attempts + [r]), rest);
    }
  }

  lemma {:induction false} PublishersBack(cfg: Config, s: DurableState, ps: seq<Publisher>)
    ensures ApplyAllRecords(cfg, s, PublisherRecords(ps))
            == if forall i :: 0 <= i < |ps| ==> PublisherOk(ps[i])
               then Some(s.(publishers := s.publishers + ps)) else None
    decreases |ps|
  {
    hide PublisherBytes; hide DecodePublisher; hide PublisherOk;
    if ps == [] {
      assert s.publishers + ps == s.publishers;
    } else {
      var p, rest := ps[0], ps[1..];
      assert ps == [p] + rest && (s.publishers + [p]) + rest == s.publishers + ps;
      assert (forall i :: 0 <= i < |ps| ==> PublisherOk(ps[i])) <==>
             PublisherOk(p) && forall i :: 0 <= i < |rest| ==> PublisherOk(rest[i]);
      PublisherBack(p);
      PublishersBack(cfg, s.(publishers := s.publishers + [p]), rest);
    }
  }

  lemma {:induction false} BootsBack(cfg: Config, s: DurableState, bs: seq<u64>)
    ensures ApplyAllRecords(cfg, s, BootRecords(bs))
            == if forall i :: 0 <= i < |bs| ==> bs[i] != 0 then Some(s.(fencedBoots := s.fencedBoots + bs)) else None
    decreases |bs|
  {
    hide BootBytes; hide DecodeBoot;
    if bs == [] {
      assert s.fencedBoots + bs == s.fencedBoots;
    } else {
      var b, rest := bs[0], bs[1..];
      assert bs == [b] + rest && (s.fencedBoots + [b]) + rest == s.fencedBoots + bs;
      assert (forall i :: 0 <= i < |bs| ==> bs[i] != 0) <==>
             b != 0 && forall i :: 0 <= i < |rest| ==> rest[i] != 0;
      BootBack(b);
      BootsBack(cfg, s.(fencedBoots := s.fencedBoots + [b]), rest);
    }
  }

  // -------------------------------------------------------------------- whole states

  /** The state read back after the first `k` of the seven tables. */
  lemma TablesBack(cfg: Config, s: DurableState)
    requires FieldsFit(s)
    ensures ApplyAllRecords(cfg, EMPTY_STATE, StateRecords(s)) == if EntriesOk(cfg, s) then Some(s) else None
  {
    hide StateRecords; hide RecordsBytes; hide PolicyFits; hide ListFits; hide ApplyAllRecords; hide ProfileRecords;
    hide PolicyRecords; hide ListRecords; hide HistoryRecords; hide AttemptRecords; hide PublisherRecords;
    hide BootRecords; hide ProfileOk; hide PolicyOk; hide ListOk; hide UniqueProfiles; hide UniquePolicies;
    hide UniqueIds; hide HistoryOk; hide PublisherOk;
    var s0 := EMPTY_STATE.(epoch := s.epoch, revision := s.revision);
    RecordsInOrder(cfg, s);
    NoDuplicates();
    assert [] + s.profiles == s.profiles && [] + s.policies == s.policies && [] + s.lists == s.lists;
    assert [] + s.history == s.history && [] + s.attempts == s.attempts && [] + s.publishers == s.publishers;
    assert [] + s.fencedBoots == s.fencedBoots;
    ProfilesBack(cfg, s0, s.profiles);
    var s1 := s0.(profiles := s.profiles);
    PoliciesBack(cfg, s1, s.policies);
    var s2 := s1.(policies := s.policies);
    ListsBack(cfg, s2, s.lists);
    var s3 := s2.(lists := s.lists);
    HistoryRecordsBack(cfg, s3, s.history);
    var s4 := s3.(history := s.history);
    AttemptsBack(cfg, s4, s.attempts);
    var s5 := s4.(attempts := s.attempts);
    PublishersBack(cfg, s5, s.publishers);
    var s6 := s5.(publishers := s.publishers);
    BootsBack(cfg, s6, s.fencedBoots);
  }

  lemma NoDuplicates()
    ensures UniqueProfiles([]) && UniquePolicies([]) && UniqueIds([])
  {}

  function Then(cfg: Config, o: Option<DurableState>, rs: seq<Record>): Option<DurableState> {
    match o case None => None case Some(t) => ApplyAllRecords(cfg, t, rs)
  }

  lemma RecordsInOrder(cfg: Config, s: DurableState)
    requires s.revision < WORD_LIMIT
    ensures ApplyAllRecords(cfg, EMPTY_STATE, StateRecords(s))
            == var o1 := ApplyAllRecords(cfg, EMPTY_STATE.(epoch := s.epoch, revision := s.revision),
                                         ProfileRecords(s.profiles));
               var o2 := Then(cfg, o1, PolicyRecords(s.policies));
               var o3 := Then(cfg, o2, ListRecords(s.profiles, s.lists));
               var o4 := Then(cfg, o3, HistoryRecords(s.history));
               var o5 := Then(cfg, o4, AttemptRecords(s.attempts));
               var o6 := Then(cfg, o5, PublisherRecords(s.publishers));
               Then(cfg, o6, BootRecords(s.fencedBoots))
  {
    hide ProfileRecords; hide PolicyRecords; hide ListRecords; hide HistoryRecords; hide AttemptRecords;
    hide PublisherRecords; hide BootRecords; hide MetaBytes;
    MetaBack(s.epoch, s.revision);
    var a, b, c := ProfileRecords(s.profiles), PolicyRecords(s.policies), ListRecords(s.profiles, s.lists);
    var d, e, f := HistoryRecords(s.history), AttemptRecords(s.attempts), PublisherRecords(s.publishers);
    var g := BootRecords(s.fencedBoots);
    var s0 := EMPTY_STATE.(epoch := s.epoch, revision := s.revision);
    var meta := Record(1, MetaBytes(s.epoch, s.revision));
    var rest := a + (b + (c + (d + (e + (f + g)))));
    assert StateRecords(s) == [meta] + rest;
    assert ([meta] + rest)[1..] == rest;
    assert ApplyRecord(cfg, EMPTY_STATE, 1, meta.body) == Some(s0);
    assert ApplyAllRecords(cfg, EMPTY_STATE, StateRecords(s)) == ApplyAllRecords(cfg, s0, rest);
    hide ApplyAllRecords; hide ApplyRecord; hide StateRecords;
    ApplyConcat(cfg, s0, a, b + (c + (d + (e + (f + g)))));
    var o1 := ApplyAllRecords(cfg, s0, a);
    if o1.Some? { ApplyConcat(cfg, o1.value, b, c + (d + (e + (f + g)))); }
    var o2 := Then(cfg, o1, b);
    if o2.Some? { ApplyConcat(cfg, o2.value, c, d + (e + (f + g))); }
    var o3 := Then(cfg, o2, c);
    if o3.Some? { ApplyConcat(cfg, o3.value, d, e + (f + g)); }
    var o4 := Then(cfg, o3, d);
    if o4.Some? { ApplyConcat(cfg, o4.value, e, f + g); }
    var o5 := Then(cfg, o4, e);
    if o5.Some? { ApplyConcat(cfg, o5.value, f, g); }
  }

  // ------------------------------------------------------------------------ the frame

  lemma HeaderBack(size: nat, count: nat)
    requires size < WORD_LIMIT && count < 0x1_0000_0000
    ensures var h := HeaderBytes(size, count);
            h[..4] == MAGIC && ReadHalf(h[4..6]) == FORMAT_VERSION && ReadHalf(h[6..8]) == 0
            && ReadLong(h[8..16]) == size && ReadWord(h[16..20]) == count
  {
    hide HalfField; hide WordField; hide ReadHalf; hide ReadWord; hide ReadLong;
    var h := HeaderBytes(size, count);
    assert h[4..6] == HalfField(FORMAT_VERSION) && h[6..8] == HalfField(0);
    assert h[8..16] == LE(size, 8) && h[16..20] == WordField(count);
    HalfBack(FORMAT_VERSION); HalfBack(0); LongBack(size); WordBack(count);
  }

  lemma FrameSlices(head: Bytes, body: Bytes, b: Bytes)
    requires |head| == 20 && b == head + (WordField(Crc32c(head)) + (body + WordField(Crc32c(body))))
    ensures |b| == 28 + |body| && b[..20] == head && b[20..24] == WordField(Crc32c(head))
    ensures b[24..|b| - 4] == body && b[|b| - 4..] == WordField(Crc32c(body))
    ensures b[..4] == head[..4] && b[4..6] == head[4..6] && b[6..8] == head[6..8] && b[8..16] == head[8..16]
    ensures b[16..20] == head[16..20]
  {
    hide WordField; hide Crc32c;
  }

  lemma FrameBack(rs: seq<Record>)
    requires |rs| < 0x1_0000_0000 && |RecordsBytes(rs)| < WORD_LIMIT
    ensures var b := ImageOfRecords(rs);
            FrameOk(b) && ReadWord(b[16..20]) == |rs| && b[24..|b| - 4] == RecordsBytes(rs)
  {
    hide RecordsBytes; hide HeaderBytes; hide WordField; hide Crc32c; hide ReadHalf; hide ReadWord; hide ReadLong;
    var body := RecordsBytes(rs);
    var head := HeaderBytes(|body|, |rs|);
    var b := ImageOfRecords(rs);
    FrameSlices(head, body, b);
    HeaderBack(|body|, |rs|);
    WordBack(Crc32c(head));
    WordBack(Crc32c(body));
  }

  lemma AllKinds(s: DurableState)
    ensures forall i :: 0 <= i < |StateRecords(s)| ==> 1 <= StateRecords(s)[i].kind <= 8
  {
    KindsOf(s);
  }

  ghost predicate Kinds(rs: seq<Record>) { forall i :: 0 <= i < |rs| ==> 1 <= rs[i].kind <= 8 }

  lemma KindsOf(s: DurableState)
    ensures Kinds(StateRecords(s))
  {
    ProfileKinds(s.profiles);
    PolicyKinds(s.policies);
    ListKinds(s.profiles, s.lists);
    HistoryKinds(s.history);
    AttemptKinds(s.attempts);
    PublisherKinds(s.publishers);
    BootKinds(s.fencedBoots);
    hide ProfileRecords; hide PolicyRecords; hide ListRecords; hide HistoryRecords; hide AttemptRecords;
    hide PublisherRecords; hide BootRecords;
  }

  lemma ProfileKinds(ps: seq<Profile>)
    ensures Kinds(ProfileRecords(ps))
  {
    if ps != [] { ProfileKinds(ps[1..]); }
  }
  lemma PolicyKinds(ps: seq<Policy>)
    ensures Kinds(PolicyRecords(ps))
  {
    if ps != [] { PolicyKinds(ps[1..]); }
  }
  lemma ListKinds(profiles: seq<Profile>, ls: seq<SegmentList>)
    ensures Kinds(ListRecords(profiles, ls))
  {
    if ls != [] { ListKinds(profiles, ls[1..]); }
  }
  lemma HistoryKinds(hs: seq<HistoryEntry>)
    ensures Kinds(HistoryRecords(hs))
  {
    if hs != [] { HistoryKinds(hs[1..]); }
  }
  lemma AttemptKinds(rs: seq<Attempt>)
    ensures Kinds(AttemptRecords(rs))
  {
    if rs != [] { AttemptKinds(rs[1..]); }
  }
  lemma PublisherKinds(ps: seq<Publisher>)
    ensures Kinds(PublisherRecords(ps))
  {
    if ps != [] { PublisherKinds(ps[1..]); }
  }
  lemma BootKinds(bs: seq<u64>)
    ensures Kinds(BootRecords(bs))
  {
    if bs != [] { BootKinds(bs[1..]); }
  }

  /** Save a state and load it back. */
  function Reload(cfg: Config, s: DurableState): Option<DurableState> {
    match Encode(cfg, s) case None => None case Some(b) => Decode(cfg, b)
  }

  /** For every state whose counters and lengths fit their fields: reading back what was written gives that very state
      when it is well formed, and otherwise nothing: the encoder or the decoder refuses it. */
  lemma ReloadExactly(cfg: Config, s: DurableState)
    requires FieldsFit(s)
    ensures WellFormed(cfg, s) ==> Reload(cfg, s) == Some(s)
    ensures !WellFormed(cfg, s) ==> Reload(cfg, s) == None
  {
    hide StateRecords; hide RecordsBytes; hide EntriesOk; hide ImageOfRecords; hide FrameOk; hide PolicyFits;
    hide ListFits;
    hide ApplyAllRecords; hide DecodeRecords; hide ReadWord; hide Budget; hide CountsFit;
    var rs := StateRecords(s);
    AllKinds(s);
    if BodiesFit(cfg.limits, rs) {
      FrameBack(rs);
      RecordsBack(cfg, rs, EMPTY_STATE, 0);
      TablesBack(cfg, s);
    }
  }

  // -------------------------------------------------------------------- corruption

  /** Any accepted image with any one byte changed is refused. */
  lemma ImageByteChangeRejected(cfg: Config, b: Bytes, i: nat, v: u8)
    requires Decode(cfg, b).Some? && i < |b| && b[i] != v
    ensures Decode(cfg, b[i := v]).None?
  {
    hide DecodeRecords; hide Budget; hide CountsFit;
    assert FrameOk(b);
    FrameByteChange(b, i, v);
  }

  lemma FrameByteChange(b: Bytes, i: nat, v: u8)
    requires FrameOk(b) && i < |b| && b[i] != v
    ensures !FrameOk(b[i := v])
  {
    hide Crc32c; hide ReadHalf; hide ReadLong;
    var c, n := b[i := v], |b|;
    if i < 4 {
      assert c[..4][i] == v && MAGIC[i] == b[..4][i];
    } else if i < 20 {
      assert c[..20] == b[..20][i := v] && c[20..24] == b[20..24];
      ByteChangeDetected(b[..20], i, v);
    } else if i < 24 {
      assert c[..20] == b[..20];
      StoredWordChanged(b, c, 20, i);
    } else if i < n - 4 {
      assert c[24..n - 4] == b[24..n - 4][i - 24 := v] && c[n - 4..] == b[n - 4..];
      ByteChangeDetected(b[24..n - 4], i - 24, v);
    } else {
      assert c[24..n - 4] == b[24..n - 4];
      assert b[n - 4..] == b[n - 4..n] && c[n - 4..] == c[n - 4..n];
      StoredWordChanged(b, c, n - 4, i);
    }
  }
}
