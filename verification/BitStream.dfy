/** The bit writer and bit reader of the Gorilla codec, and bit strings (most
    significant bit first) as their specification. */
module BitStream {
  import opened Words

  // ----- bit strings

  /** Bit k of x: a right shift and a mask of one. */
  function BitAt(x: nat, k: nat): bit {
    (x / Pow2(k)) % 2
  }

  /** The n low-order bits of x, most significant first. */
  function ToBits(x: nat, n: nat): (s: seq<bit>)
    ensures |s| == n
  {
    seq(n, j requires 0 <= j < n => BitAt(x, n - 1 - j))
  }

  function FromBits(s: seq<bit>): nat {
    if s == [] then 0 else 2 * FromBits(s[..|s| - 1]) + s[|s| - 1]
  }

  function Zeros(n: nat): (s: seq<bit>)
    ensures |s| == n
  {
    seq(n, j requires 0 <= j < n => 0)
  }

  lemma DivDiv(x: nat, d: nat)
    requires d > 0
    ensures (x / 2) / d == x / (2 * d)
  {
    var h := x / 2;
    var q, r := h / d, h % d;
    calc {
      x;
      2 * (d * q + r) + x % 2;
      { MulAssoc(2, d, q); }
      q * (2 * d) + (2 * r + x % 2);
    }
    DivModUnique(x, 2 * d, q, 2 * r + x % 2);
  }

  /** The bits of x are the bits of its half, then its parity. */
  lemma ToBitsSnoc(x: nat, n: nat)
    requires n > 0
    ensures ToBits(x, n) == ToBits(x / 2, n - 1) + [x % 2]
  {
    forall j | 0 <= j < n
      ensures ToBits(x, n)[j] == (ToBits(x / 2, n - 1) + [x % 2])[j]
    {
      if j < n - 1 {
        DivDiv(x, Pow2(n - 2 - j));
        assert BitAt(x, n - 1 - j) == BitAt(x / 2, n - 2 - j);
      } else {
        assert Pow2(0) == 1;
        assert BitAt(x, 0) == x % 2;
      }
    }
  }

  lemma ToBitsPrefix(x: nat, n: nat, k: nat)
    requires k < n
    ensures ToBits(x, n)[..k + 1] == ToBits(x, n)[..k] + [BitAt(x, n - 1 - k)]
  {
  }

  /** The n low-order bits do not see what is added at position n. */
  lemma {:induction false} ToBitsDropHigh(x: nat, n: nat)
    ensures ToBits(x + Pow2(n), n) == ToBits(x, n)
  {
    if n > 0 {
      ToBitsSnoc(x, n);
      ToBitsSnoc(x + Pow2(n), n);
      assert (x + 2 * Pow2(n - 1)) / 2 == x / 2 + Pow2(n - 1);
      ToBitsDropHigh(x / 2, n - 1);
    }
  }

  lemma {:induction false} FromToBits(x: nat, n: nat)
    requires x < Pow2(n)
    ensures FromBits(ToBits(x, n)) == x
  {
    if n > 0 {
      ToBitsSnoc(x, n);
      FromToBits(x / 2, n - 1);
      assert ToBits(x, n)[..n - 1] == ToBits(x / 2, n - 1);
    }
  }

  lemma {:induction false} ToFromBits(s: seq<bit>)
    ensures FromBits(s) < Pow2(|s|)
    ensures ToBits(FromBits(s), |s|) == s
  {
    if s != [] {
      ToFromBits(s[..|s| - 1]);
      ToBitsSnoc(FromBits(s), |s|);
    }
  }

  lemma ToBitsInjective(x: nat, y: nat, n: nat)
    requires x < Pow2(n) && y < Pow2(n) && ToBits(x, n) == ToBits(y, n)
    ensures x == y
  {
    FromToBits(x, n);
    FromToBits(y, n);
  }

  lemma ToBitsOfZero(n: nat)
    ensures ToBits(0, n) == Zeros(n)
  {
    assert forall k: nat :: BitAt(0, k) == 0;
  }

  /** Adding the power of two of an unwritten position sets that bit and no other. */
  lemma {:induction false} SetBitInWord(x: nat, n: nat, w: seq<bit>)
    requires |w| < n
    requires ToBits(x, n) == w + Zeros(n - |w|)
    ensures ToBits(x + Pow2(n - 1 - |w|), n) == w + [1] + Zeros(n - 1 - |w|)
  {
    var y := x + Pow2(n - 1 - |w|);
    ToBitsSnoc(x, n);
    ToBitsSnoc(y, n);
    assert x % 2 == ToBits(x, n)[n - 1] == 0;
    if |w| == n - 1 {
      assert y / 2 == x / 2;
      assert ToBits(x / 2, n - 1) == ToBits(x, n)[..n - 1] == w;
    } else {
      assert ToBits(x / 2, n - 1) == ToBits(x, n)[..n - 1] == w + Zeros(n - 1 - |w|);
      SetBitInWord(x / 2, n - 1, w);
      var p := Pow2(n - 2 - |w|);
      assert y / 2 == x / 2 + p && y % 2 == 0;
    }
  }

  // ----- bytes as bit strings

  function BitsOf(s: seq<byte>): (b: seq<bit>)
    ensures |b| == 8 * |s|
  {
    seq(8 * |s|, p requires 0 <= p < 8 * |s| => BitAt(s[p / 8], 7 - p % 8))
  }

  lemma BitsOfConcat(a: seq<byte>, b: seq<byte>)
    ensures BitsOf(a + b) == BitsOf(a) + BitsOf(b)
  {
    hide BitAt;
    forall p | 0 <= p < 8 * |a|
      ensures BitsOf(a + b)[p] == BitsOf(a)[p]
    {
      assert p / 8 < |a|;
    }
    forall p | 8 * |a| <= p < 8 * |a + b|
      ensures BitsOf(a + b)[p] == BitsOf(b)[p - 8 * |a|]
    {
      var q := p - 8 * |a|;
      assert p / 8 == |a| + q / 8 && p % 8 == q % 8;
    }
  }

  /** One byte in the middle of a buffer. */
  lemma BitsOfByte(s: seq<byte>, i: nat)
    requires i < |s|
    ensures BitsOf(s)[8 * i..8 * i + 8] == ToBits(s[i], 8)
  {
    hide BitAt;
    forall j | 0 <= j < 8
      ensures BitsOf(s)[8 * i + j] == ToBits(s[i], 8)[j]
    {
      assert (8 * i + j) / 8 == i && (8 * i + j) % 8 == j;
    }
  }

  lemma BitsOfInjective(a: seq<byte>, b: seq<byte>)
    requires BitsOf(a) == BitsOf(b)
    ensures a == b
  {
    assert Pow2(8) == 256 by { Pow2Values(); }
    forall i | 0 <= i < |a|
      ensures a[i] == b[i]
    {
      BitsOfByte(a, i);
      BitsOfByte(b, i);
      ToBitsInjective(a[i], b[i], 8);
    }
  }

  /** Whole bytes of a buffer are whole groups of eight bits. */
  lemma BitsOfSlice(s: seq<byte>, q: nat, n: nat)
    requires q + n <= |s|
    ensures BitsOf(s)[8 * q..8 * (q + n)] == BitsOf(s[q..q + n])
  {
  }

  /** The bits from pos on start with w. */
  ghost predicate At(bits: seq<bit>, pos: nat, w: seq<bit>) {
    pos + |w| <= |bits| && bits[pos..pos + |w|] == w
  }

  lemma AtConcat(bits: seq<bit>, pos: nat, a: seq<bit>, b: seq<bit>)
    requires At(bits, pos, a + b)
    ensures At(bits, pos, a) && At(bits, pos + |a|, b)
  {
    assert (a + b)[..|a|] == a && (a + b)[|a|..] == b;
  }

  lemma AtIndex(bits: seq<bit>, pos: nat, w: seq<bit>, i: nat)
    requires At(bits, pos, w) && i < |w|
    ensures bits[pos + i] == w[i]
  {
    assert bits[pos + i] == bits[pos..pos + |w|][i];
  }

  /** Aligned bits that spell a byte string are those bytes. */
  lemma AtBytes(data: seq<byte>, q: nat, v: seq<byte>)
    requires At(BitsOf(data), 8 * q, BitsOf(v))
    ensures q + |v| <= |data| && data[q..q + |v|] == v
  {
    BitsOfSlice(data, q, |v|);
    BitsOfInjective(data[q..q + |v|], v);
  }

  /** How many zero bits fill the last byte. */
  function PadLength(n: nat): (p: nat)
    ensures p < 8 && (n + p) % 8 == 0
  {
    (8 - n % 8) % 8
  }

  /** buf holds exactly these bits: ceil(|bits| / 8) bytes, padded with zeros. */
  ghost predicate Packs(buf: seq<byte>, bits: seq<bit>) {
    BitsOf(buf) == bits + Zeros(PadLength(|bits|))
  }

  /** The bytes of a bit string. */
  function Pack(bits: seq<bit>): (buf: seq<byte>)
    ensures |buf| == (|bits| + 7) / 8
  {
    seq((|bits| + 7) / 8, i requires 0 <= i < (|bits| + 7) / 8 => PackByte(bits, i))
  }

  function PackByte(bits: seq<bit>, i: nat): (b: byte)
    requires 8 * i < |bits|
    ensures ToBits(b, 8) == (bits + Zeros(PadLength(|bits|)))[8 * i..8 * i + 8]
  {
    var group := (bits + Zeros(PadLength(|bits|)))[8 * i..8 * i + 8];
    ToFromBits(group);
    assert Pow2(8) == 256 by { Pow2Values(); }
    FromBits(group)
  }

  lemma PackCorrect(bits: seq<bit>)
    ensures Packs(Pack(bits), bits)
  {
    hide FromBits, ToBits, PackByte, Zeros;
    var padded := bits + Zeros(PadLength(|bits|));
    var buf := Pack(bits);
    assert |BitsOf(buf)| == |padded|;
    forall p | 0 <= p < |padded|
      ensures BitsOf(buf)[p] == padded[p]
    {
      PackedBit(bits, p / 8, p % 8);
    }
  }

  lemma PackedBit(bits: seq<bit>, i: nat, r: nat)
    requires 8 * i < |bits| && r < 8
    ensures BitAt(PackByte(bits, i), 7 - r) == (bits + Zeros(PadLength(|bits|)))[8 * i + r]
  {
    hide PackByte, Zeros, BitAt;
    var padded := bits + Zeros(PadLength(|bits|));
    assert padded[8 * i + r] == padded[8 * i..8 * i + 8][r];
    assert ToBits(PackByte(bits, i), 8)[r] == BitAt(PackByte(bits, i), 7 - r);
  }

  /** Packing is unique, so a buffer is determined by the bits written to it. */
  lemma PacksUnique(buf: seq<byte>, bits: seq<bit>)
    requires Packs(buf, bits)
    ensures buf == Pack(bits)
  {
    PackCorrect(bits);
    BitsOfInjective(buf, Pack(bits));
  }

  /** Whole bytes in front stay whole bytes. */
  lemma PackAligned(h: seq<byte>, tail: seq<bit>)
    ensures Pack(BitsOf(h) + tail) == h + Pack(tail)
  {
    hide BitsOf, Pack, Zeros;
    PackCorrect(tail);
    BitsOfConcat(h, Pack(tail));
    assert PadLength(|BitsOf(h) + tail|) == PadLength(|tail|);
    PacksUnique(h + Pack(tail), BitsOf(h) + tail);
  }

  /** A bit whose lower neighbours may be set: b | 1 << k still fits a byte. */
  lemma OrBitFits(b: byte, k: nat)
    requires k < 8 && BitAt(b, k) == 0
    ensures b + Pow2(k) < 256
  {
    hide Pow2;
    var q := PowersMeet(k);
    EvenQuotient(b, Pow2(k), q, 256);
  }

  lemma PowersMeet(k: nat) returns (q: nat)
    requires k < 8
    ensures Pow2(k) * q == 256 && q % 2 == 0
  {
    hide Pow2;
    q := Pow2(8 - k);
    Pow2Add(k, 8 - k);
    Pow2Values();
    Pow2Step(7 - k);
  }

  /** Below an even multiple of p, an even quotient by p leaves room for another p. */
  lemma EvenQuotient(b: nat, p: nat, q: nat, n: nat)
    requires p > 0 && p * q == n && b < n && q % 2 == 0 && (b / p) % 2 == 0
    ensures b + p < n
  {
    var d := b / p;
    assert b < (d + 1) * p && d * p <= b;
    if d >= q {
      MulMonotone(q, d, p);
      assert false;
    }
    MulMonotone(d + 2, q, p);
  }

  /** b | 1 << k on a byte. */
  function OrBit(b: byte, k: nat): (r: byte)
    requires k < 8
  {
    if BitAt(b, k) == 1 then b else OrBitFits(b, k); b + Pow2(k)
  }

  /** A buffer whose next bit is still to be written: padding, or a fresh zero byte. */
  function Grown(buf: seq<byte>, n: nat): seq<byte> {
    if n % 8 == 0 then buf + [0] else buf
  }

  lemma GrownBits(buf: seq<byte>, bits: seq<bit>)
    requires Packs(buf, bits)
    ensures |Grown(buf, |bits|)| == |bits| / 8 + 1
    ensures BitsOf(Grown(buf, |bits|)) == bits + Zeros(8 - |bits| % 8)
  {
    assert |buf| == (|bits| + 7) / 8;
    if |bits| % 8 == 0 {
      BitsOfConcat(buf, [0]);
      ToBitsOfZero(8);
      BitsOfByte([0], 0);
    }
  }

  /** Setting the first unwritten bit of a byte. */
  lemma SetNextBit(b: byte, w: seq<bit>)
    requires |w| < 8 && ToBits(b, 8) == w + Zeros(8 - |w|)
    ensures ToBits(OrBit(b, 7 - |w|), 8) == w + [1] + Zeros(7 - |w|)
  {
    SetBitInWord(b, 8, w);
    assert ToBits(b, 8)[|w|] == 0;
  }

  lemma SetNextBitInBuffer(grown: seq<byte>, bits: seq<bit>)
    requires |grown| == |bits| / 8 + 1 && BitsOf(grown) == bits + Zeros(8 - |bits| % 8)
    ensures var i, r := |bits| / 8, |bits| % 8;
            BitsOf(grown[i := OrBit(grown[i], 7 - r)]) == bits + [1] + Zeros(7 - r)
  {
    var i, r := |bits| / 8, |bits| % 8;
    var w := bits[8 * i..];
    BitsOfByte(grown, i);
    assert ToBits(grown[i], 8) == w + Zeros(8 - r);
    SetNextBit(grown[i], w);
    var updated := grown[i := OrBit(grown[i], 7 - r)];
    BitsOfByte(updated, i);
    BitsOfSlice(updated, 0, i);
    BitsOfSlice(grown, 0, i);
    assert updated[0..i] == grown[0..i];
    var b := BitsOf(updated);
    assert b == b[0..8 * i] + b[8 * i..8 * i + 8];
    assert BitsOf(grown)[0..8 * i] == bits[..8 * i];
    assert bits == bits[..8 * i] + w;
  }

  /** One more bit in a buffer of whole bytes and padding. */
  lemma AppendBit(buf: seq<byte>, bits: seq<bit>, v: bit)
    requires Packs(buf, bits)
    ensures var grown := Grown(buf, |bits|);
            var i, k := |bits| / 8, 7 - |bits| % 8;
            i < |grown| && Packs(if v != 0 then grown[i := OrBit(grown[i], k)] else grown, bits + [v])
  {
    GrownBits(buf, bits);
    var grown, r := Grown(buf, |bits|), |bits| % 8;
    assert PadLength(|bits + [v]|) == 7 - r;
    if v != 0 {
      SetNextBitInBuffer(grown, bits);
    } else {
      assert bits + [v] + Zeros(7 - r) == bits + Zeros(8 - r);
    }
  }

  class BitWriter {
    var buf: seq<byte>
    var pos: nat
    ghost var content: seq<bit>

    ghost predicate Valid()
      reads this
    {
      pos == |content| && Packs(buf, content)
    }

    constructor ()
      ensures Valid() && content == []
    {
      buf, pos, content := [], 0, [];
    }

    method WriteBit(v: bit)
      requires Valid()
      modifies this
      ensures Valid() && content == old(content) + [v]
    {
      AppendBit(buf, content, v);
      if pos % 8 == 0 {
        buf := buf + [0];
      }
      if v != 0 {
        buf := buf[pos / 8 := OrBit(buf[pos / 8], 7 - pos % 8)];
      }
      pos := pos + 1;
      content := content + [v];
    }

    method WriteBits(val: nat, nbits: nat)
      requires Valid()
      modifies this
      ensures Valid() && content == old(content) + ToBits(val, nbits)
    {
      hide ToBits, BitAt, Packs;
      var i := nbits;
      while i > 0
        invariant 0 <= i <= nbits
        invariant Valid() && content == old(content) + ToBits(val, nbits)[..nbits - i]
      {
        i := i - 1;
        ToBitsPrefix(val, nbits, nbits - 1 - i);
        WriteBit(BitAt(val, i));
      }
      assert ToBits(val, nbits)[..nbits] == ToBits(val, nbits);
    }

    /** append(bw.buf, bs...) with pos moved past them, as the encoders do when aligned. */
    method AppendBytes(bs: seq<byte>)
      requires Valid() && pos % 8 == 0
      modifies this
      ensures Valid() && content == old(content) + BitsOf(bs)
    {
      hide BitsOf, Zeros;
      BitsOfConcat(buf, bs);
      buf, pos, content := buf + bs, pos + 8 * |bs|, content + BitsOf(bs);
    }
  }

  // ----- reading

  /** The bit under the cursor: zero from the end of the data on. */
  function Peek(bits: seq<bit>, pos: nat): bit {
    if pos < |bits| then bits[pos] else 0
  }

  /** The cursor after one read: it never leaves the data. */
  function Next(bits: seq<bit>, pos: nat): nat {
    if pos < |bits| then pos + 1 else pos
  }

  /** n reads from pos: the number they spell and the cursor they leave. */
  function ReadNumber(bits: seq<bit>, pos: nat, n: int): (r: (nat, nat)) {
    if n <= 0 then (0, pos)
    else
      var (v, p) := ReadNumber(bits, pos, n - 1);
      (2 * v + Peek(bits, p), Next(bits, p))
  }

  lemma {:induction false} ReadNumberBound(bits: seq<bit>, pos: nat, n: nat)
    ensures ReadNumber(bits, pos, n).0 < Pow2(n)
  {
    if n > 0 {
      ReadNumberBound(bits, pos, n - 1);
    }
  }

  /** Reads inside the data spell the slice under the cursor. */
  lemma {:induction false} ReadNumberInside(bits: seq<bit>, pos: nat, n: nat)
    requires pos + n <= |bits|
    ensures ReadNumber(bits, pos, n) == (FromBits(bits[pos..pos + n]), pos + n)
  {
    if n > 0 {
      ReadNumberInside(bits, pos, n - 1);
      assert bits[pos..pos + n][..n - 1] == bits[pos..pos + n - 1];
    }
  }

  /** What was written as n bits reads back as the same number. */
  lemma ReadNumberWritten(bits: seq<bit>, pos: nat, x: nat, n: nat)
    requires x < Pow2(n) && At(bits, pos, ToBits(x, n))
    ensures ReadNumber(bits, pos, n) == (x, pos + n)
  {
    ReadNumberInside(bits, pos, n);
    FromToBits(x, n);
  }

  class BitReader {
    const data: seq<byte>
    var pos: nat

    constructor (data: seq<byte>)
      ensures this.data == data && pos == 0
    {
      this.data, pos := data, 0;
    }

    method ReadBit() returns (v: bit)
      modifies this
      ensures v == Peek(BitsOf(data), old(pos)) && pos == Next(BitsOf(data), old(pos))
    {
      if pos >= |data| * 8 {
        return 0;
      }
      v := BitAt(data[pos / 8], 7 - pos % 8);
      pos := pos + 1;
    }

    /** val << 1 | bit never overflows a uint64 here: at most 64 bits are asked for. */
    method ReadBits(nbits: int) returns (val: uint64)
      requires nbits <= 64
      modifies this
      ensures (val, pos) == ReadNumber(BitsOf(data), old(pos), nbits)
    {
      hide BitsOf, Pow2;
      var i := 0;
      val := 0;
      while i < nbits
        invariant 0 <= i && (nbits >= 0 ==> i <= nbits) && (nbits < 0 ==> i == 0)
        invariant (val, pos) == ReadNumber(BitsOf(data), old(pos), i)
      {
        var v := ReadBit();
        ReadNumberBound(BitsOf(data), old(pos), i + 1);
        Pow2Monotone(i + 1, 64);
        Pow2Values();
        val := 2 * val + v;
        i := i + 1;
      }
    }
  }
}
