/** Little-endian fields, and the byte writer and reader that every codec is built from (`include/srf/bytes.hpp`).

    An encoding is described by its list of tokens; `Flat` gives the bytes. */
module SrfBytes {
  import opened SrfTypes

  function Pow256(k: nat): (p: nat)
    ensures p > 0
  {
    if k == 0 then 1 else 256 * Pow256(k - 1)
  }

  lemma Widths()
    ensures Pow256(1) == 0x100 && Pow256(2) == 0x1_0000 && Pow256(4) == 0x1_0000_0000
    ensures Pow256(8) == 0x1_0000_0000_0000_0000
  {
    assert Pow256(2) == 256 * Pow256(1) && Pow256(3) == 256 * Pow256(2) && Pow256(4) == 256 * Pow256(3);
    assert Pow256(5) == 256 * Pow256(4) && Pow256(6) == 256 * Pow256(5) && Pow256(7) == 256 * Pow256(6);
  }

  /** The `k` low-order bytes of `n`, least significant first. */
  function LE(n: nat, k: nat): (b: Bytes)
    ensures |b| == k
  {
    if k == 0 then [] else [n % 256] + LE(n / 256, k - 1)
  }

  function UnLE(b: Bytes): nat {
    if b == [] then 0 else b[0] + 256 * UnLE(b[1..])
  }

  lemma {:induction false} UnLEofLE(n: nat, k: nat)
    requires n < Pow256(k)
    ensures UnLE(LE(n, k)) == n
  {
    if k > 0 {
      UnLEofLE(n / 256, k - 1);
      assert LE(n, k)[1..] == LE(n / 256, k - 1);
    }
  }

  lemma {:induction false} LEofUnLE(b: Bytes)
    ensures UnLE(b) < Pow256(|b|) && LE(UnLE(b), |b|) == b
  {
    if b != [] {
      LEofUnLE(b[1..]);
      assert UnLE(b) / 256 == UnLE(b[1..]) && UnLE(b) % 256 == b[0];
      assert b == [b[0]] + b[1..];
    }
  }

  // ------------------------------------------------------------------ tokens

  datatype Token = Num(width: nat, value: nat) | Raw(bytes: Bytes)

  function TokenBytes(t: Token): Bytes {
    match t
    case Num(w, v) => LE(v, w)
    case Raw(b) => b
  }

  function TokenSize(t: Token): nat { if t.Num? then t.width else |t.bytes| }

  ghost predicate Fits(t: Token) { t.Num? ==> t.value < Pow256(t.width) }

  ghost predicate AllFit(ts: seq<Token>) { forall i :: 0 <= i < |ts| ==> Fits(ts[i]) }

  function Flat(ts: seq<Token>): Bytes {
    if ts == [] then [] else Flat(ts[..|ts| - 1]) + TokenBytes(ts[|ts| - 1])
  }

  lemma FlatSnoc(ts: seq<Token>, t: Token)
    ensures Flat(ts + [t]) == Flat(ts) + TokenBytes(t)
  {
    assert (ts + [t])[..|ts|] == ts;
  }

  lemma FlatPair(a: Token, b: Token)
    ensures Flat([a, b]) == TokenBytes(a) + TokenBytes(b)
  {
    assert [a, b][..1] == [a] && [a][..0] == [];
    assert Flat([a]) == TokenBytes(a);
  }

  lemma Assoc<T>(a: seq<T>, b: seq<T>, c: seq<T>)
    ensures (a + b) + c == a + (b + c)
  {}

  lemma {:induction false} FlatConcat(a: seq<Token>, b: seq<Token>)
    ensures Flat(a + b) == Flat(a) + Flat(b)
  {
    if b == [] {
      assert a + b == a;
    } else {
      var n := |b| - 1;
      FlatConcat(a, b[..n]);
      assert (a + b)[..|a| + n] == a + b[..n];
      assert (Flat(a) + Flat(b[..n])) + TokenBytes(b[n]) == Flat(a) + (Flat(b[..n]) + TokenBytes(b[n]));
    }
  }

  /** Two token lists have the same shape when they agree on where each field starts and ends. */
  ghost predicate SameShape(a: seq<Token>, b: seq<Token>) {
    |a| == |b| && forall i :: 0 <= i < |a| ==> a[i].Num? == b[i].Num? && TokenSize(a[i]) == TokenSize(b[i])
  }

  lemma {:induction false} FlatLength(a: seq<Token>, b: seq<Token>)
    requires SameShape(a, b)
    ensures |Flat(a)| == |Flat(b)|
  {
    if a != [] { FlatLength(a[..|a| - 1], b[..|b| - 1]); }
  }

  /** Bytes determine the tokens of a given shape. */
  lemma {:induction false} FlatInjective(a: seq<Token>, b: seq<Token>)
    requires SameShape(a, b) && AllFit(a) && AllFit(b) && Flat(a) == Flat(b)
    ensures a == b
  {
    if a != [] {
      var n := |a| - 1;
      FlatLength(a[..n], b[..n]);
      SplitEqual(Flat(a[..n]), TokenBytes(a[n]), Flat(b[..n]), TokenBytes(b[n]));
      FlatInjective(a[..n], b[..n]);
      TokenInjective(a[n], b[n]);
      assert a == a[..n] + [a[n]] && b == b[..n] + [b[n]];
    }
  }

  lemma SplitEqual(a: Bytes, b: Bytes, c: Bytes, d: Bytes)
    requires |a| == |c| && a + b == c + d
    ensures a == c && b == d
  {
    assert (a + b)[..|a|] == a && (c + d)[..|a|] == c;
    assert (a + b)[|a|..] == b && (c + d)[|a|..] == d;
  }

  lemma TokenInjective(a: Token, b: Token)
    requires a.Num? == b.Num? && TokenSize(a) == TokenSize(b) && Fits(a) && Fits(b)
    requires TokenBytes(a) == TokenBytes(b)
    ensures a == b
  {
    if a.Num? {
      UnLEofLE(a.value, a.width);
      UnLEofLE(b.value, b.width);
    }
  }

  /** One token list after another. */
  function Join(parts: seq<seq<Token>>): seq<Token> {
    if parts == [] then [] else Join(parts[..|parts| - 1]) + parts[|parts| - 1]
  }

  lemma JoinSnoc(parts: seq<seq<Token>>, p: seq<Token>)
    ensures Join(parts + [p]) == Join(parts) + p
  {
    assert (parts + [p])[..|parts|] == parts;
  }

  ghost predicate SameShapes(a: seq<seq<Token>>, b: seq<seq<Token>>) {
    |a| == |b| && forall i :: 0 <= i < |a| ==> SameShape(a[i], b[i]) && AllFit(a[i]) && AllFit(b[i])
  }

  lemma {:induction false} JoinLength(a: seq<seq<Token>>, b: seq<seq<Token>>)
    requires SameShapes(a, b)
    ensures |Flat(Join(a))| == |Flat(Join(b))|
  {
    if a != [] {
      var n := |a| - 1;
      JoinLength(a[..n], b[..n]);
      FlatConcat(Join(a[..n]), a[n]);
      FlatConcat(Join(b[..n]), b[n]);
      FlatLength(a[n], b[n]);
    }
  }

  /** Bytes determine a joined list of records whose shapes are known. */
  lemma {:induction false} JoinInjective(a: seq<seq<Token>>, b: seq<seq<Token>>)
    requires SameShapes(a, b) && Flat(Join(a)) == Flat(Join(b))
    ensures a == b
  {
    if a != [] {
      var n := |a| - 1;
      FlatConcat(Join(a[..n]), a[n]);
      FlatConcat(Join(b[..n]), b[n]);
      JoinLength(a[..n], b[..n]);
      SplitEqual(Flat(Join(a[..n])), Flat(a[n]), Flat(Join(b[..n])), Flat(b[n]));
      JoinInjective(a[..n], b[..n]);
      FlatInjective(a[n], b[n]);
      assert a == a[..n] + [a[n]] && b == b[..n] + [b[n]];
    }
  }

  /** A run of 64-bit fields. */
  function Words(vs: seq<u64>): (ts: seq<Token>)
    ensures |ts| == |vs| && forall i :: 0 <= i < |vs| ==> ts[i] == Num(8, vs[i])
  {
    seq(|vs|, i requires 0 <= i < |vs| => Num(8, vs[i]))
  }

  lemma WordsSnoc(vs: seq<u64>, i: nat)
    requires i < |vs|
    ensures Words(vs[..i + 1]) == Words(vs[..i]) + [Num(8, vs[i])]
  {}

  lemma WordsInjective(a: seq<u64>, b: seq<u64>)
    ensures Words(a) == Words(b) <==> a == b
  {
    if Words(a) == Words(b) {
      assert |a| == |Words(a)| == |b|;
      forall i | 0 <= i < |a| ensures a[i] == b[i] { assert Words(a)[i] == Words(b)[i]; }
    }
  }

  lemma {:induction false} WordsLength(vs: seq<u64>)
    ensures |Flat(Words(vs))| == 8 * |vs|
  {
    if vs != [] {
      var n := |vs| - 1;
      WordsLength(vs[..n]);
      assert Words(vs)[..n] == Words(vs[..n]);
    }
  }

  function Zeros(n: nat): (z: Bytes)
    ensures |z| == n && forall i :: 0 <= i < n ==> z[i] == 0
  {
    seq(n, i => 0)
  }

  // ------------------------------------------------------------------ writer

  class ByteWriter {
    var buf: Bytes
    ghost var tokens: seq<Token>  // what has been written so far

    constructor ()
      ensures buf == [] && tokens == [] && Valid()
    {
      buf, tokens := [], [];
    }

    ghost predicate Valid() reads this { buf == Flat(tokens) }

    /** u8, u16, u32 and u64 are this with a width of 1, 2, 4 and 8: the low-order bytes, least significant first. */
    method PutNum(width: nat, value: nat)
      requires Valid()
      modifies this
      ensures Valid() && tokens == old(tokens) + [Num(width, value)]
      ensures buf == old(buf) + LE(value, width)
    {
      hide Flat;
      ghost var t := Num(width, value);
      FlatSnoc(tokens, t);
      tokens := tokens + [t];
      var i, v := 0, value;
      ghost var start := buf;
      while i < width
        modifies this`buf
        invariant 0 <= i <= width
        invariant buf + LE(v, width - i) == start + LE(value, width)
      {
        assert buf + LE(v, width - i) == (buf + [v % 256]) + LE(v / 256, width - i - 1);
        buf, v, i := buf + [v % 256], v / 256, i + 1;
      }
      assert buf + LE(v, 0) == buf && start == Flat(old(tokens));
    }

    /** A run of u64 calls. */
    method PutWords(vs: seq<u64>)
      requires Valid()
      modifies this
      ensures Valid() && tokens == old(tokens) + Words(vs)
      ensures buf == old(buf) + Flat(Words(vs))
    {
      for i := 0 to |vs|
        invariant Valid() && tokens == old(tokens) + Words(vs[..i])
      {
        PutNum(8, vs[i]);
        WordsSnoc(vs, i);
        Assoc(old(tokens), Words(vs[..i]), [Num(8, vs[i])]);
      }
      assert vs[..|vs|] == vs;
      FlatConcat(old(tokens), Words(vs));
    }

    method PutRaw(bytes: Bytes)
      requires Valid()
      modifies this
      ensures Valid() && tokens == old(tokens) + [Raw(bytes)]
      ensures buf == old(buf) + bytes
    {
      FlatSnoc(tokens, Raw(bytes));
      tokens := tokens + [Raw(bytes)];
      buf := buf + bytes;
    }
  }

  // ------------------------------------------------------------------ reader

  /** Reading `width` bytes at a position of the data. */
  function ReadNum(data: Bytes, pos: nat, width: nat): Option<nat> {
    if pos + width <= |data| then Some(UnLE(data[pos..pos + width])) else None
  }

  class ByteReader {
    const data: Bytes
    var pos: nat
    var ok: bool

    constructor (data: Bytes)
      ensures this.data == data && pos == 0 && ok && Valid()
    {
      this.data, pos, ok := data, 0, true;
    }

    predicate Valid() reads this { pos <= |data| }

    /** Fails, and keeps failing, once the data runs short; a failed read does not move. */
    method GetNum(width: nat) returns (value: nat, good: bool)
      requires Valid()
      modifies this
      ensures Valid()
      ensures good == ok == (old(ok) && ReadNum(data, old(pos), width).Some?)
      ensures good ==> value == ReadNum(data, old(pos), width).value && pos == old(pos) + width
      ensures !good ==> pos == old(pos)
    {
      value := 0;
      if !ok || |data| - pos < width {
        ok := false;
        return 0, false;
      }
      var i := width;
      while i > 0
        invariant 0 <= i <= width
        invariant value == UnLE(data[pos + i..pos + width])
      {
        i := i - 1;
        assert data[pos + i..pos + width][1..] == data[pos + i + 1..pos + width];
        value := data[pos + i] + 256 * value;
      }
      pos, good := pos + width, true;
    }

    method GetRaw(n: nat) returns (bytes: Bytes, good: bool)
      requires Valid()
      modifies this
      ensures Valid()
      ensures good == ok == (old(ok) && old(pos) + n <= |data|)
      ensures good ==> bytes == data[old(pos)..old(pos) + n] && pos == old(pos) + n
      ensures !good ==> pos == old(pos)
    {
      if !ok || |data| - pos < n {
        ok := false;
        return [], false;
      }
      bytes, good := data[pos..pos + n], true;
      pos := pos + n;
    }
  }
}
