/** Known answers of the v2 codec (internal/segment/gorilla.go): whole columns, byte by byte. */
module GorillaAnswers {
  import opened Words
  import opened Varint
  import opened BitStream
  import opened Points
  import T = GorillaTimestamps
  import V = GorillaValues
  import W = GorillaWindows
  import S = GorillaSeries

  /** Two bytes of bits, first bit highest. */
  lemma PackTwo(bits: seq<bit>, a: byte, b: byte)
    requires 8 < |bits| <= 16 && bits + Zeros(16 - |bits|) == ToBits(a, 8) + ToBits(b, 8)
    ensures Pack(bits) == [a, b]
  {
    hide ToBits;
    BitsOfByte([a, b], 0);
    BitsOfByte([a, b], 1);
    assert BitsOf([a, b]) == BitsOf([a, b])[..8] + BitsOf([a, b])[8..16];
    assert PadLength(|bits|) == 16 - |bits|;
    PacksUnique([a, b], bits);
  }

  /** 0, 1, 3: eight zero bytes, the delta 1 as the varint 2, and the delta-of-delta 1 as the
      bits 10 1000000. */
  lemma TimestampAnswer()
    ensures T.Encode([0, 1, 3]) == PutLE(0, 8) + [2] + [160, 0]
  {
    hide PutLE, Pack, PutVarint, T.Encode, T.DodBits, T.TailBits, T.Delta, ToBits;
    var ts: seq<int64> := [0, 1, 3];
    Steps();
    VarintOfOne();
    T.EncodeShape(ts);
    var code := T.DodBits(8, 1);
    OneStep(ts, code);
    TimestampBits(code);
    PackTwo(code, 160, 0);
  }

  lemma Steps()
    ensures T.Delta(0, 1) == 1 && T.Delta(1, 3) == 2 && Sub64(2, 1) == 1
  {
    WrapUnique(1, 1);
    WrapUnique(2, 2);
    hide Wrap;
  }

  lemma VarintOfOne()
    ensures PutVarint(1) == [2] && ToUnsigned(0) == 0
  {
  }

  lemma OneStep(ts: seq<int64>, code: seq<bit>)
    requires ts == [0, 1, 3] && code == T.DodBits(8, 1)
    ensures T.TailBits(8, 1, ts[1..]) == code
  {
    hide T.DodBits, T.Delta, Sub64;
    Steps();
    assert ts[1..] == [1, 3] && ts[1..][1..] == [3];
    assert T.TailBits(8 + |code|, 2, [3]) == [];
    assert code + [] == code;
  }

  lemma TimestampBits(code: seq<bit>)
    requires code == T.DodBits(8, 1)
    ensures |code| == 9 && code + Zeros(7) == ToBits(160, 8) + ToBits(0, 8)
  {
    hide Pow2;
    T.PrefixBits();
    BitsOf64();
    BitsOf160();
    ToBitsOfZero(8);
    assert code == [1, 0] + ToBits(64, 7);
    assert Zeros(8) == [0] + Zeros(7);
  }

  lemma BitsOf64()
    ensures ToBits(64, 7) == [1, 0, 0, 0, 0, 0, 0]
  {
    hide ToBits;
    ByteBits(64);
    LowBits(64, 7);
  }

  lemma BitsOf160()
    ensures ToBits(160, 8) == [1, 0, 1, 0, 0, 0, 0, 0]
  {
    hide ToBits;
    ByteBits(160);
  }

  lemma ByteBits(x: nat)
    ensures ToBits(x, 8) == [(x / 128) % 2, (x / 64) % 2, (x / 32) % 2, (x / 16) % 2,
                             (x / 8) % 2, (x / 4) % 2, (x / 2) % 2, x % 2]
  {
    Pow2Values();
    assert Pow2(0) == 1;
    hide Pow2;
  }

  lemma LowBits(x: nat, n: nat)
    requires n <= 8
    ensures ToBits(x, n) == ToBits(x, 8)[8 - n..]
  {
    hide BitAt;
  }

  /** 0 and 2^62: eight zero bytes, then a window of one leading and 62 trailing zeros with
      its single bit, 11 00001 111110 1. */
  lemma ValueAnswer()
    ensures V.Encode([0, 0x4000_0000_0000_0000]) == PutLE(0, 8) + [195, 244]
  {
    hide PutLE, Pack, ToBits, V.XorBits, V.WindowAfter, Xor64;
    var u: uint64 := 0x4000_0000_0000_0000;
    var code := V.XorBits(V.NO_WINDOW, u);
    assert [0, u][1..] == [u];
    assert Xor64(0, u) == u;
    assert V.TailBits(V.WindowAfter(V.NO_WINDOW, u), u, []) == [] && code + [] == code;
    assert V.TailBits(V.NO_WINDOW, 0, [u]) == code;
    ValueBits(code);
    PackTwo(code, 195, 244);
  }

  lemma TopBit()
    ensures var u: uint64 := 0x4000_0000_0000_0000;
            u == Pow2(62) && V.LeadingZeros(u) == 1 && V.TrailingZeros(u) == 62 && V.Shr(u, 62) == 1
  {
    hide Pow2, V.LeadingZeros, V.TrailingZeros;
    Pow2Values();
    Pow2Step(62);
    Pow2Step(63);
    assert Pow2(62) % Pow2(62) == 0 && Pow2(62) % Pow2(63) == Pow2(62);
    W.SpansExactly(0x4000_0000_0000_0000, 1, 62);
  }

  lemma ValueBits(code: seq<bit>)
    requires code == V.XorBits(V.NO_WINDOW, 0x4000_0000_0000_0000)
    ensures |code| == 14 && code + Zeros(2) == ToBits(195, 8) + ToBits(244, 8)
  {
    hide Pow2, BitAt, ToBits, V.LeadingZeros, V.TrailingZeros, V.Shr;
    TopBit();
    SmallNumbers();
    LargerNumbers();
    assert code == [1, 1] + (ToBits(1, 5) + ToBits(62, 6) + ToBits(1, 1));
  }

  lemma SmallNumbers()
    ensures ToBits(1, 5) == [0, 0, 0, 0, 1] && ToBits(62, 6) == [1, 1, 1, 1, 1, 0] && ToBits(1, 1) == [1]
  {
    hide ToBits;
    ByteBits(1);
    LowBits(1, 5);
    LowBits(1, 1);
    ByteBits(62);
    LowBits(62, 6);
  }

  lemma LargerNumbers()
    ensures ToBits(195, 8) == [1, 1, 0, 0, 0, 0, 1, 1] && ToBits(244, 8) == [1, 1, 1, 1, 0, 1, 0, 0]
  {
    hide ToBits;
    ByteBits(195);
    ByteBits(244);
  }

  /** The point (0, 0.0): the length 8 of the timestamp column, and both columns. */
  lemma SeriesAnswer()
    ensures S.Encode([Point(0, 0)]) == [8] + PutLE(0, 8) + PutLE(0, 8)
  {
    hide PutLE;
    var points := [Point(0, 0)];
    assert Timestamps(points) == [0] && Values(points) == [0];
    assert T.Encode([0]) == PutLE(0, 8);
    assert [0][1..] == [] && V.TailBits(V.NO_WINDOW, 0, []) == [] && Pack([]) == [];
    assert PutUvarint(8) == [8];
  }
}
