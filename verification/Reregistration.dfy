/** Registering a profile again at another payload width, and what that does to lists stored under it
    (`src/persistence.cpp`). */
module SrfReregistration {
  import opened SrfTypes
  import opened SrfBytes
  import opened SrfFields
  import opened SrfCanonical
  import opened SrfRegistry
  import opened SrfStoreModel
  import opened SrfImageRecords
  import opened SrfImage

  /** The list may be written at the width `next` instead of `was`: the width is one the decoder takes, and neither
      digest can tell the two widths apart. */
  ghost predicate SameAtWidth(cfg: Config, l: SegmentList, was: u16, next: u16) {
    && next <= cfg.limits.maxPayloadBytes
    && SequenceDigest(cfg.digest, l.content.segments, next) == SequenceDigest(cfg.digest, l.content.segments, was)
    && ContentDigest(cfg.digest, l.content, next) == ContentDigest(cfg.digest, l.content, was)
  }

  lemma BodiesFitTogether(lim: Limits, a: seq<Record>, b: seq<Record>)
    ensures BodiesFit(lim, a + b) <==> BodiesFit(lim, a) && BodiesFit(lim, b)
  {
    assert forall i :: 0 <= i < |a| ==> (a + b)[i] == a[i];
    assert forall i :: 0 <= i < |b| ==> (a + b)[|a| + i] == b[i];
  }

  lemma {:induction false} ProfileRecordAt(ps: seq<Profile>)
    ensures |ProfileRecords(ps)| == |ps|
    ensures forall k :: 0 <= k < |ps| ==> ProfileRecords(ps)[k] == Record(2, ProfileBytes(ps[k]))
  {
    hide ProfileBytes;
    if ps != [] { ProfileRecordAt(ps[1..]); }
  }

  lemma {:induction false} ListRecordAt(ps: seq<Profile>, ls: seq<SegmentList>)
    ensures |ListRecords(ps, ls)| == |ls|
    ensures forall k :: 0 <= k < |ls| ==> ListRecords(ps, ls)[k] == Record(4, ListBytes(ls[k], ListWidth(ps, ls[k])))
  {
    hide ListBytes; hide ListWidth;
    if ls != [] { ListRecordAt(ps, ls[1..]); }
  }

  /** The width is one fixed field of a list record. */
  lemma WidthKeepsSize(l: SegmentList, a: u16, b: u16)
    ensures |ListBytes(l, a)| == |ListBytes(l, b)|
  {
    hide ListMiddle; hide LongFields;
  }

  lemma ListSizes(lim: Limits, ps: seq<Profile>, qs: seq<Profile>, ls: seq<SegmentList>)
    ensures |ListRecords(ps, ls)| == |ListRecords(qs, ls)|
    ensures BodiesFit(lim, ListRecords(ps, ls)) <==> BodiesFit(lim, ListRecords(qs, ls))
  {
    hide ListBytes; hide ListWidth;
    ListRecordAt(ps, ls);
    ListRecordAt(qs, ls);
    forall k | 0 <= k < |ls| ensures |ListRecords(ps, ls)[k].body| == |ListRecords(qs, ls)[k].body| {
      WidthKeepsSize(ls[k], ListWidth(ps, ls[k]), ListWidth(qs, ls[k]));
    }
  }

  lemma ProfileSizes(lim: Limits, ps: seq<Profile>, i: nat, p: Profile)
    requires i < |ps| && BodiesFit(lim, ProfileRecords(ps))
    ensures |ProfileRecords(ps[i := p])| == |ProfileRecords(ps)|
    ensures BodiesFit(lim, ProfileRecords(ps[i := p])) <==> |ProfileBytes(p)| <= lim.maxRecordBytes
  {
    hide ProfileBytes;
    ProfileRecordAt(ps);
    ProfileRecordAt(ps[i := p]);
    var a, b := ProfileRecords(ps), ProfileRecords(ps[i := p]);
    assert b[i].body == ProfileBytes(p);
    assert forall k :: 0 <= k < |ps| && k != i ==> b[k] == a[k];
  }

  /** Sizes and number of the records of a state after the exchange of one profile. */
  lemma RecordSizes(lim: Limits, s: DurableState, i: nat, p: Profile)
    requires i < |s.profiles| && BodiesFit(lim, StateRecords(s))
    ensures var t := s.(profiles := s.profiles[i := p]);
            && |StateRecords(t)| == |StateRecords(s)|
            && (BodiesFit(lim, StateRecords(t)) <==> |ProfileBytes(p)| <= lim.maxRecordBytes)
  {
    hide BodiesFit; hide ProfileRecords; hide PolicyRecords; hide ListRecords; hide HistoryRecords; hide AttemptRecords;
    hide PublisherRecords; hide BootRecords; hide ProfileBytes; hide MetaBytes;
    var t := s.(profiles := s.profiles[i := p]);
    var meta := [Record(1, MetaBytes(s.epoch, s.revision))];
    var after := HistoryRecords(s.history) + (AttemptRecords(s.attempts) + (PublisherRecords(s.publishers)
                 + BootRecords(s.fencedBoots)));
    var policies := PolicyRecords(s.policies);
    var a, b := ListRecords(s.profiles, s.lists), ListRecords(t.profiles, t.lists);
    var pa, pb := ProfileRecords(s.profiles), ProfileRecords(t.profiles);
    assert StateRecords(s) == meta + (pa + (policies + (a + after)));
    assert StateRecords(t) == meta + (pb + (policies + (b + after)));
    BodiesFitTogether(lim, meta, pa + (policies + (a + after)));
    BodiesFitTogether(lim, meta, pb + (policies + (b + after)));
    BodiesFitTogether(lim, pa, policies + (a + after));
    BodiesFitTogether(lim, pb, policies + (b + after));
    BodiesFitTogether(lim, policies, a + after);
    BodiesFitTogether(lim, policies, b + after);
    BodiesFitTogether(lim, a, after);
    BodiesFitTogether(lim, b, after);
    ListSizes(lim, s.profiles, t.profiles, s.lists);
    ProfileSizes(lim, s.profiles, i, p);
  }

  lemma {:induction false} FindAfterExchange(ps: seq<Profile>, i: nat, p: Profile, id: u64)
    requires i < |ps| && UniqueProfiles(ps) && ps[i].id == p.id
    ensures UniqueProfiles(ps[i := p])
    ensures FindProfile(ps[i := p], id) == if id == p.id then Some(p) else FindProfile(ps, id)
  {
    var qs := ps[i := p];
    if i == 0 {
      assert qs[1..] == ps[1..];
    } else {
      assert qs[1..] == ps[1..][i - 1 := p];
      FindAfterExchange(ps[1..], i - 1, p, id);
    }
  }

  lemma ListAfterExchange(cfg: Config, ps: seq<Profile>, i: nat, p: Profile, l: SegmentList)
    requires i < |ps| && UniqueProfiles(ps) && ps[i].id == p.id && ListOk(cfg, ps, l)
    ensures var qs := ps[i := p];
            ListOk(cfg, qs, l) <==> l.content.profile != p.id || SameAtWidth(cfg, l, ListWidth(ps, l), ListWidth(qs, l))
  {
    hide SequenceDigest; hide ContentDigest; hide ListShapeOk; hide FindProfile; hide MaxPayload;
    FindAfterExchange(ps, i, p, l.content.profile);
    FindAfterExchange(ps, i, p, p.id);
  }

  /** Registering a profile again leaves a well-formed state well formed exactly when the new entry is within the
      decoder's caps and every list of that profile can be written at the new width without its digests noticing. */
  lemma ReregisteredExactly(cfg: Config, s: DurableState, i: nat, p: Profile)
    requires WellFormed(cfg, s) && i < |s.profiles| && s.profiles[i].id == p.id
    ensures var t := s.(profiles := s.profiles[i := p]);
            WellFormed(cfg, t) <==>
              && ProfileOk(p) && |ProfileBytes(p)| <= cfg.limits.maxRecordBytes
              && forall k :: 0 <= k < |s.lists| && s.lists[k].content.profile == p.id ==>
                   SameAtWidth(cfg, s.lists[k], ListWidth(s.profiles, s.lists[k]), ListWidth(t.profiles, s.lists[k]))
  {
    hide ListOk; hide SameAtWidth; hide BodiesFit; hide StateRecords; hide ProfileOk; hide PolicyOk; hide ListWidth;
    hide ProfileBytes;
    var t := s.(profiles := s.profiles[i := p]);
    RecordSizes(cfg.limits, s, i, p);
    FindAfterExchange(s.profiles, i, p, p.id);
    forall k | 0 <= k < |s.lists|
      ensures ListOk(cfg, t.profiles, s.lists[k]) <==>
              s.lists[k].content.profile != p.id
              || SameAtWidth(cfg, s.lists[k], ListWidth(s.profiles, s.lists[k]), ListWidth(t.profiles, s.lists[k]))
    {
      ListAfterExchange(cfg, s.profiles, i, p, s.lists[k]);
    }
    assert forall k :: 0 <= k < |t.profiles| && k != i ==> t.profiles[k] == s.profiles[k];
    assert t.profiles[i] == p;
  }

  /** The content bytes of any list show the width, so a digest would have to collide for a new width to
      go unnoticed. */
  lemma WidthShows(c: Content, a: u16, b: u16)
    ensures ContentBytes(c, a) == ContentBytes(c, b) <==> a == b
  {
    hide BodyTokens;
    var m := Num(2, CONTENT_MAGIC);
    var x, y := ContentHead(c, a) + BodyTokens(c.segments, a), ContentHead(c, b) + BodyTokens(c.segments, b);
    FrontOfFlat(m, Num(4, a), x);
    FrontOfFlat(m, Num(4, b), y);
    if Flat(x) == Flat(y) {
      SplitEqual(LE(CONTENT_MAGIC, 2) + LE(a, 4), Flat(x[2..]), LE(CONTENT_MAGIC, 2) + LE(b, 4), Flat(y[2..]));
      SplitEqual(LE(CONTENT_MAGIC, 2), LE(a, 4), LE(CONTENT_MAGIC, 2), LE(b, 4));
      Widths();
      UnLEofLE(a, 4);
      UnLEofLE(b, 4);
    }
  }

  lemma FrontOfFlat(a: Token, b: Token, ts: seq<Token>)
    requires |ts| >= 2 && ts[0] == a && ts[1] == b
    ensures Flat(ts) == TokenBytes(a) + TokenBytes(b) + Flat(ts[2..])
  {
    assert ts == [a, b] + ts[2..];
    FlatConcat([a, b], ts[2..]);
    FlatPair(a, b);
  }
}
