/** Reading fixed-width fields back from bytes: the inverse of what the byte writer produces. */
module SrfFields {
  import opened SrfTypes
  import opened SrfBytes

  function ByteField(v: u8): (b: Bytes)
    ensures |b| == 1
  {
    LE(v, 1)
  }

  function HalfField(v: u16): (b: Bytes)
    ensures |b| == 2
  {
    LE(v, 2)
  }

  function WordField(v: u32): (b: Bytes)
    ensures |b| == 4
  {
    LE(v, 4)
  }

  function ReadByte(b: Bytes): u8
    requires |b| == 1
  {
    LEofUnLE(b); Widths();
    UnLE(b)
  }

  function ReadHalf(b: Bytes): u16
    requires |b| == 2
  {
    LEofUnLE(b); Widths();
    UnLE(b)
  }

  function ReadWord(b: Bytes): u32
    requires |b| == 4
  {
    LEofUnLE(b); Widths();
    UnLE(b)
  }

  function ReadLong(b: Bytes): u64
    requires |b| == 8
  {
    LEofUnLE(b); Widths();
    UnLE(b)
  }

  lemma ByteBack(v: u8)
    ensures ReadByte(ByteField(v)) == v
  {
    Widths(); UnLEofLE(v, 1);
  }

  lemma HalfBack(v: u16)
    ensures ReadHalf(HalfField(v)) == v
  {
    Widths(); UnLEofLE(v, 2);
  }

  lemma WordBack(v: u32)
    ensures ReadWord(WordField(v)) == v
  {
    Widths(); UnLEofLE(v, 4);
  }

  lemma LongBack(v: u64)
    ensures ReadLong(LE(v, 8)) == v
  {
    Widths(); UnLEofLE(v, 8);
  }

  lemma ByteForth(b: Bytes)
    requires |b| == 1
    ensures ByteField(ReadByte(b)) == b
  {
    LEofUnLE(b);
  }

  lemma HalfForth(b: Bytes)
    requires |b| == 2
    ensures HalfField(ReadHalf(b)) == b
  {
    LEofUnLE(b);
  }

  lemma LongForth(b: Bytes)
    requires |b| == 8
    ensures LE(ReadLong(b), 8) == b
  {
    LEofUnLE(b);
  }

  lemma WordForth(b: Bytes)
    requires |b| == 4
    ensures WordField(ReadWord(b)) == b
  {
    LEofUnLE(b);
  }

  // ------------------------------------------------------- runs of 64-bit fields

  function LongFields(vs: seq<u64>): (b: Bytes)
    ensures |b| == 8 * |vs|
  {
    if vs == [] then [] else LE(vs[0], 8) + LongFields(vs[1..])
  }

  function ReadLongs(b: Bytes, n: nat): (vs: seq<u64>)
    requires |b| == 8 * n
    ensures |vs| == n
  {
    if n == 0 then [] else [ReadLong(b[..8])] + ReadLongs(b[8..], n - 1)
  }

  lemma {:induction false} LongsBack(vs: seq<u64>)
    ensures ReadLongs(LongFields(vs), |vs|) == vs
  {
    if vs != [] {
      Cut(LE(vs[0], 8), LongFields(vs[1..]));
      LongBack(vs[0]);
      LongsBack(vs[1..]);
    }
  }

  lemma {:induction false} LongsForth(b: Bytes, n: nat)
    requires |b| == 8 * n
    ensures LongFields(ReadLongs(b, n)) == b
  {
    if n > 0 {
      var vs := ReadLongs(b, n);
      LongsForth(b[8..], n - 1);
      LEofUnLE(b[..8]);
      assert vs[1..] == ReadLongs(b[8..], n - 1);
      assert b == b[..8] + b[8..];
    }
  }

  /** The writer's run of u64 calls produces these bytes. */
  lemma {:induction false} WordsAreLongs(vs: seq<u64>)
    ensures Flat(Words(vs)) == LongFields(vs)
  {
    if vs != [] {
      var n := |vs| - 1;
      WordsSnoc(vs, n);
      assert vs[..n + 1] == vs;
      FlatSnoc(Words(vs[..n]), Num(8, vs[n]));
      WordsAreLongs(vs[..n]);
      LongsSnoc(vs[..n], vs[n]);
      assert vs[..n] + [vs[n]] == vs;
    }
  }

  lemma {:induction false} LongsSnoc(vs: seq<u64>, v: u64)
    ensures LongFields(vs + [v]) == LongFields(vs) + LE(v, 8)
  {
    if vs == [] {
      assert [v][1..] == [];
    } else {
      assert (vs + [v])[1..] == vs[1..] + [v];
      LongsSnoc(vs[1..], v);
    }
  }

  /** Cutting a concatenation where it was joined. */
  lemma Cut(a: Bytes, b: Bytes)
    ensures (a + b)[..|a|] == a && (a + b)[|a|..] == b
  {}

  /** A stored word with one of its bytes changed reads as another word. */
  lemma StoredWordChanged(b: Bytes, c: Bytes, at: nat, i: nat)
    requires |b| == |c| && at <= i < at + 4 <= |b| && b[i] != c[i]
    ensures ReadWord(b[at..at + 4]) != ReadWord(c[at..at + 4])
  {
    hide ReadWord;
    var x, y := b[at..at + 4], c[at..at + 4];
    assert x[i - at] != y[i - at];
    WordForth(x);
    WordForth(y);
  }
}
