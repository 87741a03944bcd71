/** A concrete run that ends with a saved image no load accepts. */
module SrfImageWitness {
  import opened SrfTypes
  import opened SrfAuthority
  import opened SrfRegistry
  import opened SrfRecovery
  import opened SrfProtocol
  import opened SrfProtocolTheorems
  import opened SrfProtocolProgress
  import opened SrfProtocolWitness
  import opened SrfImageRecords
  import opened SrfImage
  import opened SrfImageCodec

  /** More boots than the record budget has room for. */
  const BOOTS: seq<u64> := seq(60, k requires 0 <= k < 60 => k + 2)

  const CROWDED := Authority(1, [WORKER], BOOTS)

  lemma {:induction false} RecordsSize(lim: Limits, rs: seq<Record>)
    requires BodiesFit(lim, rs)
    ensures |RecordsBytes(rs)| <= |rs| * (6 + lim.maxRecordBytes)
  {
    if rs != [] {
      RecordsSize(lim, rs[1..]);
      OneRecord(rs[0]);
      hide RecordBytes;
      Grows(|rs|, 6 + lim.maxRecordBytes);
    }
  }

  lemma OneRecord(r: Record)
    ensures |RecordBytes(r)| == 6 + |r.body|
  {}

  lemma Grows(n: nat, size: nat)
    requires n > 0
    ensures n * size == (n - 1) * size + size
  {
  }

  lemma {:induction false} BootRecordAt(bs: seq<u64>)
    ensures |BootRecords(bs)| == |bs| && forall k :: 0 <= k < |bs| ==> |BootRecords(bs)[k].body| == 8
  {
    if bs != [] { BootRecordAt(bs[1..]); }
  }

  lemma OneOfEach(s: DurableState)
    requires s.profiles == [PROFILE] && s.policies == [] && s.lists == [] && s.history == [] && s.attempts == []
    requires s.publishers == [WORKER] && s.fencedBoots == BOOTS
    ensures |StateRecords(s)| == 63 && BodiesFit(LIMITS, StateRecords(s))
  {
    hide MetaBytes; hide ProfileBytes; hide PublisherBytes; hide BootRecords;
    BootRecordAt(BOOTS);
    assert |BOOTS| == 60;
    var meta, profile, worker := Record(1, MetaBytes(s.epoch, s.revision)), Record(2, ProfileBytes(PROFILE)),
                                 Record(7, PublisherBytes(WORKER));
    assert ProfileRecords(s.profiles) == [profile] by { assert s.profiles[1..] == []; }
    assert PublisherRecords(s.publishers) == [worker] by { assert s.publishers[1..] == []; }
    assert StateRecords(s) == [meta, profile, worker] + BootRecords(BOOTS);
    SmallRecords(s.epoch, s.revision);
  }

  lemma SmallRecords(epoch: u64, revision: nat)
    ensures |MetaBytes(epoch, revision)| <= 4096 && |ProfileBytes(PROFILE)| <= 4096 && |PublisherBytes(WORKER)| <= 4096
  {}

  lemma ShortFields(s: DurableState)
    requires s.profiles == [PROFILE] && s.policies == [] && s.lists == [] && s.history == [] && s.attempts == []
    requires s.publishers == [WORKER] && s.fencedBoots == BOOTS && s.revision == 1
    ensures FieldsFit(s)
  {
    hide StateRecords; hide RecordsBytes; hide BodiesFit;
    OneOfEach(s);
    RecordsSize(LIMITS, StateRecords(s));
  }

  lemma TooManyBoots() returns (r: Trace)
    ensures IsTrace(CONFIG, r) && |Last(r).threads| == 1 && Last(r).threads[0].phase.Idle?
    ensures Last(r).w.st == FRESH.st && Last(r).w.reg == TABLES && Last(r).w.auth == CROWDED
  {
    var p := Opening();
    hide IsTrace;
    var a := Last(p);
    assert AuthGood(CROWDED) && AuthMoves(WORKERS, CROWDED) && RegMoves(TABLES, TABLES);
    TraceShape(CONFIG, p);
    r := OneMore(CONFIG, p, Environment, a.(w := a.w.(auth := CROWDED)));
  }

  /** The run on which a save is acknowledged and its image refused: sixty boots are fenced, the store is saved with
      success, and from then on a load of what is on disk gives nothing. */
  lemma ImageRefused() returns (q: Trace)
    ensures IsTrace(CONFIG, q) && Sized(CONFIG) && Last(q).threads != [] && Last(q).threads[0].verdict == Committed
    ensures Last(q).w.disk == Some(Last(q).w.st)
    ensures var image := Last(q).w.st;
            && Encode(CONFIG, image).Some? && !WellFormed(CONFIG, image) && Reload(CONFIG, image) == None
            && LoadOf(CONFIG, Encode(CONFIG, image).value) == NotLoaded
  {
    hide IsTrace; hide Extends; hide Encode; hide WellFormed; hide LoadOf; hide Reload;
    var r := TooManyBoots();
    q := SaveRuns(CONFIG, r, 0);
    TraceShape(CONFIG, q);
    Refused(Last(q).w.st);
  }

  lemma Refused(s: DurableState)
    requires s.profiles == [PROFILE] && s.policies == [] && s.lists == [] && s.history == [] && s.attempts == []
    requires s.publishers == [WORKER] && s.fencedBoots == BOOTS && s.revision == 1
    ensures Encode(CONFIG, s).Some? && !WellFormed(CONFIG, s) && Reload(CONFIG, s) == None
    ensures LoadOf(CONFIG, Encode(CONFIG, s).value) == NotLoaded
  {
    hide LoadOf; hide Reload; hide StateRecords; hide FieldsFit; hide EntriesOk; hide BodiesFit; hide CountsFit;
    hide ImageOfRecords;
    OneOfEach(s);
    ShortFields(s);
    assert Budget(LIMITS) == 49;
    ReloadExactly(CONFIG, s);
    SavedIsLoaded(CONFIG, s);
  }
}
