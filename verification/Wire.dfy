/** Frames, the mutation payload and stream reassembly (`src/wire.cpp`). */
module SrfWire {
  import opened SrfTypes
  import opened SrfBytes
  import opened SrfFields
  import opened SrfCrc

  const WIRE_MAGIC: Bytes := [0x53, 0x52, 0x46, 0x57]
  const WIRE_VERSION: u16 := 1
  const HEADER_BYTES := 28
  const TRAILER_BYTES := 4
  const LAST_MESSAGE: u16 := 40

  datatype Frame = Frame(version: u16, message: u16, flags: u16, requestId: u64, payload: Bytes)

  // ------------------------------------------------------------------------ frames

  /** The header before its checksum. */
  function FrameHead(f: Frame): (h: Bytes)
    ensures |h| == 24
  {
    WIRE_MAGIC + (HalfField(f.version) + (HalfField(f.message) + (HalfField(f.flags) + (HalfField(0)
    + (WordField(|f.payload| % 0x1_0000_0000) + LE(f.requestId, 8))))))
  }

  function FrameBytes(f: Frame): Bytes {
    var head := FrameHead(f);
    head + (WordField(Crc32c(head)) + (f.payload + WordField(Crc32c(f.payload))))
  }

  /** The encoder looks at the size of the payload and for a message id, not at version and flags. */
  function EncodeFrame(lim: Limits, f: Frame): Option<Bytes> {
    if |f.payload| > lim.maxFrameBytes || f.message == 0 then None else Some(FrameBytes(f))
  }

  predicate HeadOk(lim: Limits, b: Bytes)
    requires |b| >= HEADER_BYTES
  {
    && b[..4] == WIRE_MAGIC && ReadWord(b[24..28]) == Crc32c(b[..24])
    && ReadHalf(b[4..6]) == WIRE_VERSION && ReadHalf(b[10..12]) == 0 && ReadHalf(b[8..10]) == 0
    && 1 <= ReadHalf(b[6..8]) <= LAST_MESSAGE && ReadWord(b[12..16]) <= lim.maxFrameBytes
  }

  function DecodeFrame(lim: Limits, b: Bytes): Option<Frame> {
    if |b| < HEADER_BYTES + TRAILER_BYTES || !HeadOk(lim, b) then None
    else
      var n := |b| - TRAILER_BYTES;
      if HEADER_BYTES + ReadWord(b[12..16]) != n || ReadWord(b[n..]) != Crc32c(b[28..n]) then None
      else Some(Frame(ReadHalf(b[4..6]), ReadHalf(b[6..8]), ReadHalf(b[8..10]), ReadLong(b[16..24]), b[28..n]))
  }

  /** The decoder, check by check. */
  method ReadFrame(lim: Limits, b: Bytes) returns (f: Option<Frame>)
    ensures f == DecodeFrame(lim, b)
  {
    if |b| < HEADER_BYTES + TRAILER_BYTES { return None; }
    if b[..4] != WIRE_MAGIC { return None; }
    var headCrc := Checksum(b[..24]);
    if ReadWord(b[24..28]) != headCrc { return None; }
    var version, message, flags := ReadHalf(b[4..6]), ReadHalf(b[6..8]), ReadHalf(b[8..10]);
    if version != WIRE_VERSION { return None; }
    if ReadHalf(b[10..12]) != 0 { return None; }
    if flags != 0 { return None; }
    if message == 0 || message > LAST_MESSAGE { return None; }
    var size := ReadWord(b[12..16]);
    if size > lim.maxFrameBytes { return None; }
    if HEADER_BYTES + size + TRAILER_BYTES > |b| { return None; }
    if HEADER_BYTES + size + TRAILER_BYTES < |b| { return None; }
    var payload := b[28..28 + size];
    var payloadCrc := Checksum(payload);
    if ReadWord(b[28 + size..]) != payloadCrc { return None; }
    f := Some(Frame(version, message, flags, ReadLong(b[16..24]), payload));
  }

  /** What the decoder asks of a frame beyond what the encoder does. */
  predicate Deliverable(f: Frame) { f.version == WIRE_VERSION && f.flags == 0 && 1 <= f.message <= LAST_MESSAGE }

  lemma HeadBack(f: Frame)
    requires |f.payload| < 0x1_0000_0000
    ensures var h := FrameHead(f);
            && h[..4] == WIRE_MAGIC && ReadHalf(h[4..6]) == f.version && ReadHalf(h[6..8]) == f.message
            && ReadHalf(h[8..10]) == f.flags && ReadHalf(h[10..12]) == 0 && ReadWord(h[12..16]) == |f.payload|
            && ReadLong(h[16..24]) == f.requestId
  {
    hide HalfField; hide WordField; hide ReadHalf; hide ReadWord; hide ReadLong;
    var h, n := FrameHead(f), |f.payload|;
    assert h[4..6] == HalfField(f.version) && h[6..8] == HalfField(f.message) && h[8..10] == HalfField(f.flags);
    assert h[10..12] == HalfField(0) && h[12..16] == WordField(n) && h[16..24] == LE(f.requestId, 8);
    HalfBack(f.version); HalfBack(f.message); HalfBack(f.flags); HalfBack(0); WordBack(n); LongBack(f.requestId);
  }

  lemma FrameSlices(head: Bytes, payload: Bytes, b: Bytes)
    requires |head| == 24 && b == head + (WordField(Crc32c(head)) + (payload + WordField(Crc32c(payload))))
    ensures |b| == 32 + |payload| && b[..24] == head && b[24..28] == WordField(Crc32c(head))
    ensures b[28..|b| - 4] == payload && b[|b| - 4..] == WordField(Crc32c(payload))
    ensures b[..4] == head[..4] && b[4..6] == head[4..6] && b[6..8] == head[6..8] && b[8..10] == head[8..10]
    ensures b[10..12] == head[10..12] && b[12..16] == head[12..16] && b[16..24] == head[16..24]
  {
    hide WordField; hide Crc32c;
  }

  /** Decoding an encoded frame gives that frame, or nothing if its version, flags or message id are
      not the decoder's. */
  lemma FrameBack(lim: Limits, f: Frame)
    requires EncodeFrame(lim, f).Some?
    ensures DecodeFrame(lim, EncodeFrame(lim, f).value) == if Deliverable(f) then Some(f) else None
  {
    hide FrameHead; hide WordField; hide Crc32c; hide ReadHalf; hide ReadWord; hide ReadLong;
    FrameSlices(FrameHead(f), f.payload, FrameBytes(f));
    HeadBack(f);
    WordBack(Crc32c(FrameHead(f)));
    WordBack(Crc32c(f.payload));
  }

  /** Every accepted byte string is the encoding of the frame it decodes to. */
  lemma FrameForth(lim: Limits, b: Bytes)
    requires DecodeFrame(lim, b).Some?
    ensures EncodeFrame(lim, DecodeFrame(lim, b).value) == Some(b) && Deliverable(DecodeFrame(lim, b).value)
  {
    hide WordField; hide HalfField; hide Crc32c; hide ReadHalf; hide ReadWord; hide ReadLong;
    var f, n := DecodeFrame(lim, b).value, |b| - 4;
    HeadForth(f, b);
    WordForth(b[24..28]);
    WordForth(b[n..]);
    assert b == b[..24] + (b[24..28] + (b[28..n] + b[n..]));
  }

  lemma HeadForth(f: Frame, b: Bytes)
    requires |b| >= 24 && b[..4] == WIRE_MAGIC && ReadHalf(b[4..6]) == f.version && ReadHalf(b[6..8]) == f.message
    requires ReadHalf(b[8..10]) == f.flags && ReadHalf(b[10..12]) == 0 && ReadWord(b[12..16]) == |f.payload|
    requires ReadLong(b[16..24]) == f.requestId
    ensures FrameHead(f) == b[..24]
  {
    HalfForth(b[4..6]); HalfForth(b[6..8]); HalfForth(b[8..10]); HalfForth(b[10..12]); WordForth(b[12..16]);
    LEofUnLE(b[16..24]);
    hide WordField; hide HalfField; hide ReadHalf; hide ReadWord;
    assert b[..24] == b[..4] + (b[4..6] + (b[6..8] + (b[8..10] + (b[10..12] + (b[12..16] + b[16..24])))));
  }

  /** Any accepted frame with any one byte changed is refused. */
  lemma FrameByteChangeRejected(lim: Limits, b: Bytes, i: nat, v: u8)
    requires DecodeFrame(lim, b).Some? && i < |b| && b[i] != v
    ensures DecodeFrame(lim, b[i := v]).None?
  {
    hide Crc32c; hide ReadHalf; hide ReadLong; hide ReadWord;
    var c, n := b[i := v], |b| - 4;
    if i < 24 {
      assert c[..24] == b[..24][i := v] && c[24..28] == b[24..28];
      ByteChangeDetected(b[..24], i, v);
    } else if i < 28 {
      assert c[..24] == b[..24];
      StoredWordChanged(b, c, 24, i);
    } else if i < n {
      assert c[28..n] == b[28..n][i - 28 := v] && c[n..] == b[n..];
      ByteChangeDetected(b[28..n], i - 28, v);
    } else {
      assert c[28..n] == b[28..n] && b[n..] == b[n..n + 4] && c[n..] == c[n..n + 4];
      StoredWordChanged(b, c, n, i);
    }
  }

  /** The message ids that name a message. */
  predicate Assigned(m: u16) { 1 <= m <= 4 || 10 <= m <= 16 || 20 <= m <= 23 || m == 40 }

  /** The interface promises that an unknown message id is refused; the decoder only bounds it.  A frame that could be
      encoded passes with an unassigned id exactly when that id lies below the last one. */
  lemma UnassignedMessages(lim: Limits, f: Frame)
    requires EncodeFrame(lim, f).Some? && f.version == WIRE_VERSION && f.flags == 0 && !Assigned(f.message)
    ensures DecodeFrame(lim, EncodeFrame(lim, f).value).Some? <==> f.message < LAST_MESSAGE
  {
    hide DecodeFrame; hide FrameBytes;
    FrameBack(lim, f);
  }

  // -------------------------------------------------------------------- reassembly

  datatype Assembly = Assembly(buffer: Bytes, poisoned: bool)

  function Feed(a: Assembly, bytes: Bytes): Assembly {
    if a.poisoned then a else a.(buffer := a.buffer + bytes)
  }

  /** How many bytes the frame at the front of the buffer takes; known once its header is there. */
  function FrontSize(b: Bytes): nat
    requires |b| >= HEADER_BYTES
  {
    HEADER_BYTES + ReadWord(b[12..16]) + TRAILER_BYTES
  }

  function Next(lim: Limits, a: Assembly): (r: (Assembly, Option<Frame>))
    ensures r.1.Some? ==> |r.0.buffer| < |a.buffer|
  {
    if a.poisoned || |a.buffer| < HEADER_BYTES then (a, None)
    else if ReadWord(a.buffer[12..16]) > lim.maxFrameBytes then (a.(poisoned := true), None)
    else
      var total := FrontSize(a.buffer);
      if |a.buffer| < total then (a, None)
      else match DecodeFrame(lim, a.buffer[..total])
           case None => (a.(poisoned := true), None)
           case Some(f) => (a.(buffer := a.buffer[total..]), Some(f))
  }

  /** Take frames until there is none. */
  function Drain(lim: Limits, a: Assembly): (Assembly, seq<Frame>)
    decreases |a.buffer|
  {
    var (b, f) := Next(lim, a);
    if f.None? then (b, [])
    else
      var (c, fs) := Drain(lim, b);
      (c, [f.value] + fs)
  }

  function FramesBytes(fs: seq<Frame>): Bytes {
    if fs == [] then [] else FrameBytes(fs[0]) + FramesBytes(fs[1..])
  }

  lemma NextConserves(lim: Limits, a: Assembly)
    ensures var (b, f) := Next(lim, a);
            a.buffer == (if f.Some? then FrameBytes(f.value) else []) + b.buffer
            && (f.Some? ==> !b.poisoned && EncodeFrame(lim, f.value).Some? && Deliverable(f.value))
  {
    hide DecodeFrame; hide FrameBytes;
    if !a.poisoned && |a.buffer| >= HEADER_BYTES && |a.buffer| >= FrontSize(a.buffer) {
      var total := FrontSize(a.buffer);
      var front := a.buffer[..total];
      if DecodeFrame(lim, front).Some? { FrameForth(lim, front); }
      assert a.buffer == front + a.buffer[total..];
    }
  }

  /** Nothing is lost and nothing invented: what was buffered is the encodings of the frames taken, followed by what is
      still buffered. */
  lemma {:induction false} DrainConserves(lim: Limits, a: Assembly)
    ensures var (b, fs) := Drain(lim, a);
            a.buffer == FramesBytes(fs) + b.buffer
            && forall i :: 0 <= i < |fs| ==> EncodeFrame(lim, fs[i]).Some? && Deliverable(fs[i])
    decreases |a.buffer|
  {
    hide Next; hide FrameBytes; hide EncodeFrame;
    var (b, f) := Next(lim, a);
    NextConserves(lim, a);
    if f.Some? {
      DrainConserves(lim, b);
      var (c, fs) := Drain(lim, b);
      assert ([f.value] + fs)[1..] == fs;
      Assoc(FrameBytes(f.value), FramesBytes(fs), c.buffer);
    }
  }

  /** The buffer of an unpoisoned assembler that was drained stays below one maximal frame. */
  lemma {:induction false} DrainedIsSmall(lim: Limits, a: Assembly)
    ensures var (b, fs) := Drain(lim, a);
            !b.poisoned ==> |b.buffer| < HEADER_BYTES + lim.maxFrameBytes + TRAILER_BYTES
    decreases |a.buffer|
  {
    hide DecodeFrame;
    var (b, f) := Next(lim, a);
    if f.Some? { DrainedIsSmall(lim, b); }
  }

  /** A frame, or a poisoning, is decided by bytes that later ones do not change. */
  lemma NextThenMore(lim: Limits, b: Bytes, more: Bytes)
    ensures var (x, f) := Next(lim, Assembly(b, false));
            var (y, g) := Next(lim, Assembly(b + more, false));
            (f.Some? || x.poisoned) ==> g == f && y.poisoned == x.poisoned
                                        && (f.Some? ==> y.buffer == x.buffer + more)
  {
    hide DecodeFrame;
    if |b| >= HEADER_BYTES {
      assert (b + more)[12..16] == b[12..16];
      if |b| >= FrontSize(b) {
        var total := FrontSize(b);
        assert (b + more)[..total] == b[..total] && (b + more)[total..] == b[total..] + more;
      }
    }
  }

  /** Draining before more bytes arrive changes neither which frames are delivered nor their order. */
  lemma {:induction false} DrainThenMore(lim: Limits, b: Bytes, more: Bytes)
    ensures var (x, fs) := Drain(lim, Assembly(b, false));
            var (y, gs) := Drain(lim, Feed(x, more));
            var (z, hs) := Drain(lim, Assembly(b + more, false));
            hs == fs + gs && z.poisoned == y.poisoned && (!z.poisoned ==> z == y)
    decreases |b|
  {
    hide Next;
    var (x, f) := Next(lim, Assembly(b, false));
    NextThenMore(lim, b, more);
    NextKeeps(lim, Assembly(b, false));
    if x.poisoned { PoisonedIsSilent(lim, x); }
    if f.Some? {
      DrainThenMore(lim, x.buffer, more);
      var (x1, fs) := Drain(lim, x);
      var (y, gs) := Drain(lim, Feed(x1, more));
      assert [f.value] + (fs + gs) == ([f.value] + fs) + gs;
    } else {
      var (y, gs) := Drain(lim, Feed(x, more));
      assert [] + gs == gs;
    }
  }

  lemma NextKeeps(lim: Limits, a: Assembly)
    ensures Next(lim, a).1.None? ==> Next(lim, a).0.buffer == a.buffer
    ensures Next(lim, a).1.Some? ==> !Next(lim, a).0.poisoned
  {
    hide DecodeFrame;
  }

  lemma PoisonedIsSilent(lim: Limits, a: Assembly)
    requires a.poisoned
    ensures Next(lim, a) == (a, None) && Drain(lim, a) == (a, [])
  {}

  function Concat(chunks: seq<Bytes>): Bytes {
    if chunks == [] then [] else Concat(chunks[..|chunks| - 1]) + chunks[|chunks| - 1]
  }

  /** A receiver that drains after every chunk. */
  function Receive(lim: Limits, chunks: seq<Bytes>): (Assembly, seq<Frame>) {
    if chunks == [] then (Assembly([], false), [])
    else
      var (a, fs) := Receive(lim, chunks[..|chunks| - 1]);
      var (b, gs) := Drain(lim, Feed(a, chunks[|chunks| - 1]));
      (b, fs + gs)
  }

  /** However the stream is cut into chunks, the same frames arrive in the same order, the stream is poisoned or not
      alike, and until it is the same bytes are left over. */
  lemma {:induction false} ChunkingIrrelevant(lim: Limits, chunks: seq<Bytes>)
    ensures var (a, fs) := Receive(lim, chunks);
            var (b, gs) := Drain(lim, Assembly(Concat(chunks), false));
            fs == gs && a.poisoned == b.poisoned && (!a.poisoned ==> a == b)
  {
    hide Next;
    if chunks == [] {
      NothingToDrain(lim);
    } else {
      var n := |chunks| - 1;
      ChunkingIrrelevant(lim, chunks[..n]);
      var (a, fs) := Receive(lim, chunks[..n]);
      var (b, gs) := Drain(lim, Assembly(Concat(chunks[..n]), false));
      DrainThenMore(lim, Concat(chunks[..n]), chunks[n]);
      if a.poisoned {
        PoisonedIsSilent(lim, a);
        PoisonedIsSilent(lim, b);
      }
    }
  }

  lemma NothingToDrain(lim: Limits)
    ensures Drain(lim, Assembly([], false)) == (Assembly([], false), [])
  {}

  lemma NextDelivers(lim: Limits, f: Frame, rest: Bytes)
    requires EncodeFrame(lim, f).Some? && Deliverable(f)
    ensures Next(lim, Assembly(FrameBytes(f) + rest, false)) == (Assembly(rest, false), Some(f))
  {
    hide DecodeFrame; hide FrameHead; hide WordField; hide Crc32c; hide ReadWord; hide ReadHalf; hide ReadLong;
    var e := FrameBytes(f);
    var b := e + rest;
    FrameSlices(FrameHead(f), f.payload, e);
    HeadBack(f);
    assert b[12..16] == e[12..16];
    assert |e| == FrontSize(b);
    assert b[..|e|] == e && b[|e|..] == rest;
    FrameBack(lim, f);
  }

  /** Whatever deliverable frames are sent, they and nothing else come out. */
  lemma {:induction false} StreamDelivers(lim: Limits, fs: seq<Frame>)
    requires forall i :: 0 <= i < |fs| ==> EncodeFrame(lim, fs[i]).Some? && Deliverable(fs[i])
    ensures Drain(lim, Assembly(FramesBytes(fs), false)) == (Assembly([], false), fs)
  {
    hide Next; hide FrameBytes; hide EncodeFrame;
    if fs == [] {
      NothingToDrain(lim);
    } else {
      NextDelivers(lim, fs[0], FramesBytes(fs[1..]));
      StreamDelivers(lim, fs[1..]);
      assert [fs[0]] + fs[1..] == fs;
    }
  }

  class FrameAssembler {
    var buffer: Bytes
    var overflowed: bool
    ghost var taken: Bytes  // every byte accepted since the last clear
    ghost var delivered: seq<Frame>  // every frame handed out since then

    constructor ()
      ensures Valid() && View() == Assembly([], false) && taken == [] && delivered == []
    {
      buffer, overflowed, taken, delivered := [], false, [], [];
    }

    function View(): Assembly reads this { Assembly(buffer, overflowed) }

    /** Bytes in are frames out and bytes left. */
    ghost predicate Valid() reads this { taken == FramesBytes(delivered) + buffer }

    method FeedBytes(bytes: Bytes)
      requires Valid()
      modifies this
      ensures Valid() && View() == Feed(old(View()), bytes) && delivered == old(delivered)
      ensures taken == old(taken) + (if old(overflowed) then [] else bytes)
    {
      hide FramesBytes;
      if overflowed { return; }
      Assoc(FramesBytes(delivered), buffer, bytes);
      buffer := buffer + bytes;
      taken := taken + bytes;
    }

    method NextFrame(lim: Limits) returns (f: Option<Frame>)
      requires Valid()
      modifies this
      ensures Valid() && (View(), f) == Next(lim, old(View())) && taken == old(taken)
      ensures delivered == old(delivered) + (if f.Some? then [f.value] else [])
    {
      hide DecodeFrame; hide FrameBytes;
      if overflowed || |buffer| < HEADER_BYTES { return None; }
      var size := ReadWord(buffer[12..16]);
      if size > lim.maxFrameBytes {
        overflowed := true;
        return None;
      }
      var total := HEADER_BYTES + size + TRAILER_BYTES;
      if |buffer| < total { return None; }
      f := ReadFrame(lim, buffer[..total]);
      if f.None? {
        overflowed := true;
        return;
      }
      FrameForth(lim, buffer[..total]);
      FramesSnoc(delivered, f.value);
      assert buffer == buffer[..total] + buffer[total..];
      Assoc(FramesBytes(delivered), buffer[..total], buffer[total..]);
      delivered := delivered + [f.value];
      buffer := buffer[total..];
    }

    /** Take frames until there is none. */
    method DrainFrames(lim: Limits) returns (fs: seq<Frame>)
      requires Valid()
      modifies this
      ensures Valid() && (View(), fs) == Drain(lim, old(View())) && taken == old(taken)
      ensures delivered == old(delivered) + fs
    {
      hide Next; hide FramesBytes; hide Drain;
      ghost var start := View();
      fs := [];
      DrainStep(lim, View());
      var f := NextFrame(lim);
      while f.Some?
        invariant Valid() && taken == old(taken)
        invariant delivered == old(delivered) + (if f.Some? then fs + [f.value] else fs)
        invariant Drain(lim, start).1 == fs + (if f.Some? then [f.value] + Drain(lim, View()).1 else [])
        invariant Drain(lim, start).0 == if f.Some? then Drain(lim, View()).0 else View()
        decreases f.Some?, |buffer|
      {
        DrainStep(lim, View());
        Assoc(fs, [f.value], Drain(lim, View()).1);
        fs := fs + [f.value];
        f := NextFrame(lim);
      }
      assert fs + [] == fs;
      assert Drain(lim, start) == (Drain(lim, start).0, Drain(lim, start).1);
    }

    method Clear()
      modifies this
      ensures Valid() && View() == Assembly([], false) && taken == [] && delivered == []
    {
      buffer, overflowed, taken, delivered := [], false, [], [];
    }
  }

  lemma DrainStep(lim: Limits, a: Assembly)
    ensures var (b, f) := Next(lim, a);
            if f.None? then Drain(lim, a) == (b, [])
            else |b.buffer| < |a.buffer| && Drain(lim, a) == (Drain(lim, b).0, [f.value] + Drain(lim, b).1)
  {
    hide Next;
  }

  lemma {:induction false} FramesSnoc(fs: seq<Frame>, f: Frame)
    ensures FramesBytes(fs + [f]) == FramesBytes(fs) + FrameBytes(f)
  {
    hide FrameBytes;
    if fs == [] {
      assert [f][1..] == [];
      assert FramesBytes([f]) == FrameBytes(f) + FramesBytes([]);
    } else {
      assert (fs + [f])[1..] == fs[1..] + [f];
      FramesSnoc(fs[1..], f);
      Assoc(FrameBytes(fs[0]), FramesBytes(fs[1..]), FrameBytes(f));
    }
  }
}
