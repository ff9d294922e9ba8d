/** When a value column reads back: encoder and decoder keep their windows in lockstep
    exactly while every window's leading-zero count fits its five bits. */
module GorillaValuesRoundTrip {
  import opened Words
  import opened BitStream
  import opened GorillaValues

  /** k + n reads are n reads continued by k more. */
  lemma {:induction false} ReadNumberSplit(bits: seq<bit>, pos: nat, n: nat, k: nat, v: nat, p: nat)
    requires ReadNumber(bits, pos, n) == (v, p)
    ensures var (w, q) := ReadNumber(bits, p, k);
            ReadNumber(bits, pos, n + k) == (v * Pow2(k) + w, q)
  {
    if k > 0 {
      ReadNumberSplit(bits, pos, n, k - 1, v, p);
      MulAssoc(v, Pow2(k - 1), 2);
    }
  }

  lemma ExactQuotient(x: nat, odd: nat, q: nat, p: nat)
    requires p > 0 && x == odd * (q * p)
    ensures (x / p) * p == x
  {
    MulAssoc(odd, q, p);
    DivModUnique(x, p, odd * q, 0);
  }

  lemma QuotientBound(y: nat, m: nat, p: nat)
    requires y * p < m * p
    ensures y < m
  {
    if y >= m {
      MulMonotone(m, y, p);
    }
  }

  /** A shift by at most the trailing zeros loses nothing. */
  lemma ShrExact(xor: uint64, trailing: nat)
    requires xor > 0 && trailing <= TrailingZeros(xor)
    ensures Shr(xor, trailing) * Pow2(trailing) == xor
  {
    hide Pow2, TrailingZeros;
    var t := TrailingZeros(xor);
    TrailingZerosSplit(xor);
    Pow2Add(t - trailing, trailing);
    ExactQuotient(xor, xor / Pow2(t), Pow2(t - trailing), Pow2(trailing));
  }

  /** Shifting the meaningful bits back restores the XOR. */
  lemma ShiftBack(xor: uint64, leading: nat, trailing: nat)
    requires xor > 0 && leading <= LeadingZeros(xor) && trailing <= TrailingZeros(xor)
    ensures leading + trailing <= 63
    ensures Shr(xor, trailing) < Pow2(64 - leading - trailing)
    ensures Shl64(Shr(xor, trailing), trailing) == xor
  {
    hide Pow2, LeadingZeros, TrailingZeros, Shr, Shl64;
    MiddleNotEmpty(xor);
    BelowPower(xor, leading);
    ShrExact(xor, trailing);
    Pow2Add(64 - leading - trailing, trailing);
    QuotientBound(Shr(xor, trailing), Pow2(64 - leading - trailing), Pow2(trailing));
    ShlExact(Shr(xor, trailing), trailing);
  }

  lemma BelowPower(xor: uint64, leading: nat)
    requires xor > 0 && leading <= LeadingZeros(xor)
    ensures xor < Pow2(64 - leading)
  {
    hide Pow2, BitLength;
    BitLengthAtMost(xor, 64 - leading);
  }

  lemma ShlExact(v: nat, k: nat)
    requires v * Pow2(k) < TWO_64
    ensures Shl64(v, k) == v * Pow2(k)
  {
    hide Pow2;
  }

  /** A window opened by an XOR is stored faithfully: its leading zeros fit five bits. */
  predicate Fits(w: Window, xor: uint64) {
    xor == 0 || Reuses(w, xor) || LeadingZeros(xor) <= 31
  }

  /** What an opening code of bits holds for the reader: the leading count modulo 32. */
  lemma OpeningParts(bits: seq<bit>, pos: nat, xor: uint64)
    requires xor > 0
    requires At(bits, pos, Opening(xor))
    ensures var l := LeadingZeros(xor);
            var t := TrailingZeros(xor);
            ReadNumber(bits, pos, 5) == (l % 32, pos + 5) &&
            ReadNumber(bits, pos + 5, 6) == (t, pos + 11) &&
            At(bits, pos + 11, ToBits(Shr(xor, t), 64 - l - t))
  {
    hide LeadingZeros, TrailingZeros, ToBits, Shr, At, ReadNumber;
    var l, t := LeadingZeros(xor), TrailingZeros(xor);
    MiddleNotEmpty(xor);
    var middle := ToBits(Shr(xor, t), 64 - l - t);
    AtConcat(bits, pos, ToBits(l, 5) + ToBits(t, 6), middle);
    AtConcat(bits, pos, ToBits(l, 5), ToBits(t, 6));
    assert Pow2(5) == 32 && Pow2(6) == 64 by { Pow2Values(); }
    LowFiveBits(l);
    ReadNumberWritten(bits, pos, l % 32, 5);
    ReadNumberWritten(bits, pos + 5, t, 6);
  }

  lemma LowFiveBits(l: nat)
    requires l < 64
    ensures ToBits(l, 5) == ToBits(l % 32, 5)
  {
    if l >= 32 {
      assert Pow2(5) == 32 by { Pow2Values(); }
      ToBitsDropHigh(l - 32, 5);
    }
  }

  /** A window that fits reads back with its XOR. */
  lemma ReadFittingOpening(bits: seq<bit>, pos: nat, xor: uint64)
    requires xor > 0 && LeadingZeros(xor) <= 31
    requires At(bits, pos, Opening(xor))
    ensures var l := LeadingZeros(xor);
            var t := TrailingZeros(xor);
            ReadOpening(bits, pos) == (xor, pos + 75 - l - t, Window(l, t))
  {
    hide LeadingZeros, TrailingZeros, ToBits, Shr, Shl64, At, Opening, ReadNumber;
    var l, t := LeadingZeros(xor), TrailingZeros(xor);
    OpeningParts(bits, pos, xor);
    ShiftBack(xor, l, t);
    ReadNumberWritten(bits, pos + 11, Shr(xor, t), 64 - l - t);
  }

  /** A leading count of 32 or more loses its high bit: the reader takes 32 bits too many
      and ends up with a larger XOR, whatever those bits are. */
  lemma ReadOverflowingOpening(bits: seq<bit>, pos: nat, xor: uint64)
    requires xor > 0 && LeadingZeros(xor) >= 32
    requires At(bits, pos, Opening(xor))
    ensures ReadOpening(bits, pos).0 > xor
  {
    hide LeadingZeros, TrailingZeros, ToBits, Shr, Shl64, At, Opening, ReadNumber;
    var l, t := LeadingZeros(xor), TrailingZeros(xor);
    OpeningParts(bits, pos, xor);
    ShiftBack(xor, l, t);
    ReadPastMiddle(bits, pos + 11, Shr(xor, t), 64 - l - t, t);
  }

  lemma ReadPastMiddle(bits: seq<bit>, pos: nat, v: nat, m: nat, t: nat)
    requires v < Pow2(m) && At(bits, pos, ToBits(v, m)) && m + 32 + t <= 64
    requires Shl64(v, t) > 0
    ensures Shl64(ReadNumber(bits, pos, m + 32).0, t) > Shl64(v, t)
  {
    hide ToBits, At, ReadNumber, Pow2, Shl64;
    var k := m + 32 - m;
    ReadNumberWritten(bits, pos, v, m);
    ReadNumberSplit(bits, pos, m, k, v, pos + m);
    ReadNumberBound(bits, pos, m + k);
    ShlZero(t);
    var read := ReadNumber(bits, pos, m + k).0;
    var low := ReadNumber(bits, pos + m, k).0;
    assert read == v * Pow2(k) + low;
    OverflowGrows(v, read, m + 32, t);
  }

  lemma ShlZero(t: nat)
    ensures Shl64(0, t) == 0
  {
  }

  lemma NoOverflow(v: nat, n: nat, t: nat)
    requires v < Pow2(n) && n + t <= 64
    ensures v * Pow2(t) < TWO_64
  {
    hide Pow2;
    var p := Pow2(t);
    assert Pow2(64) == TWO_64 by { Pow2Values(); }
    Pow2Add(n, t);
    Pow2Monotone(n + t, 64);
    MulMonotone(v + 1, Pow2(n), p);
    MulDistribute(v, 1, p);
  }

  lemma ProductGrows(v: nat, read: nat, p: nat)
    requires v < read && p > 0
    ensures v * p < read * p
  {
    MulMonotone(v + 1, read, p);
    MulDistribute(v, 1, p);
  }

  lemma OverflowGrows(v: nat, read: nat, n: nat, t: nat)
    requires v > 0 ==> v * Pow2(32) <= read
    requires read < Pow2(n) && n + t <= 64
    ensures v > 0 ==> Shl64(read, t) > Shl64(v, t)
  {
    hide Pow2;
    NoOverflow(read, n, t);
    if v > 0 {
      assert Pow2(32) == TWO_32 by { Pow2Values(); }
      ProductGrows(v, read, Pow2(t));
    }
  }

  lemma AtPeek(bits: seq<bit>, pos: nat, w: seq<bit>, i: nat)
    requires At(bits, pos, w) && i < |w|
    ensures Peek(bits, pos + i) == w[i] && Next(bits, pos + i) == pos + i + 1
  {
    AtIndex(bits, pos, w, i);
  }

  /** What the reader does on the flag bits of a code. */
  lemma ReadFlags(bits: seq<bit>, pos: nat, w: Window, flags: seq<bit>)
    requires At(bits, pos, flags) && flags != []
    ensures flags == [0] ==> ReadXor(bits, pos, w) == (0, pos + 1, w)
    ensures flags == [1, 0] ==>
              var number := ReadNumber(bits, pos + 2, 64 - w.leading - w.trailing);
              ReadXor(bits, pos, w) == (Shl64(number.0, w.trailing), number.1, w)
    ensures flags == [1, 1] ==> ReadXor(bits, pos, w) == ReadOpening(bits, pos + 2)
  {
    hide At, Peek, Next, Shl64, ReadNumber, ReadOpening;
    AtPeek(bits, pos, flags, 0);
    if |flags| > 1 {
      AtPeek(bits, pos, flags, 1);
    }
  }

  lemma ReadReusedXor(bits: seq<bit>, pos: nat, w: Window, xor: uint64)
    requires xor > 0 && Reuses(w, xor) && At(bits, pos, XorBits(w, xor))
    ensures ReadXor(bits, pos, w) == (xor, pos + |XorBits(w, xor)|, w)
  {
    hide LeadingZeros, TrailingZeros, ToBits, Shr, Shl64, Pow2, At, Opening, ReadNumber, ReadXor;
    ShiftBack(xor, w.leading, w.trailing);
    var n := 64 - w.leading - w.trailing;
    AtConcat(bits, pos, [1, 0], ToBits(Shr(xor, w.trailing), n));
    ReadFlags(bits, pos, w, [1, 0]);
    ReadNumberWritten(bits, pos + 2, Shr(xor, w.trailing), n);
  }

  lemma ReadOpenedXor(bits: seq<bit>, pos: nat, w: Window, xor: uint64)
    requires xor > 0 && !Reuses(w, xor) && At(bits, pos, XorBits(w, xor))
    ensures At(bits, pos + 2, Opening(xor)) && ReadXor(bits, pos, w) == ReadOpening(bits, pos + 2)
  {
    hide Reuses, ToBits, At, Opening, ReadXor, ReadOpening;
    AtConcat(bits, pos, [1, 1], Opening(xor));
    ReadFlags(bits, pos, w, [1, 1]);
  }

  /** Reading one written XOR: exact when the window fits, never when it does not. */
  lemma ReadWrittenXor(bits: seq<bit>, pos: nat, w: Window, xor: uint64)
    requires At(bits, pos, XorBits(w, xor))
    ensures Fits(w, xor) ==> ReadXor(bits, pos, w) == (xor, pos + |XorBits(w, xor)|, WindowAfter(w, xor))
    ensures !Fits(w, xor) ==> ReadXor(bits, pos, w).0 != xor
  {
    hide LeadingZeros, TrailingZeros, ToBits, Shr, At, Opening, Reuses, ReadOpening, ReadXor;
    if xor == 0 {
      ReadFlags(bits, pos, w, [0]);
    } else if Reuses(w, xor) {
      ReadReusedXor(bits, pos, w, xor);
    } else {
      MiddleNotEmpty(xor);
      ReadOpenedXor(bits, pos, w, xor);
      if LeadingZeros(xor) <= 31 {
        ReadFittingOpening(bits, pos + 2, xor);
      } else {
        ReadOverflowingOpening(bits, pos + 2, xor);
      }
    }
  }

  /** Every XOR that opens a window has at most 31 leading zeros. */
  ghost predicate TailFits(w: Window, prev: uint64, vs: seq<uint64>)
    decreases |vs|
  {
    vs != [] ==>
      var xor := Xor64(prev, vs[0]);
      Fits(w, xor) && TailFits(WindowAfter(w, xor), vs[0], vs[1..])
  }

  ghost predicate WindowsFit(vs: seq<uint64>) {
    vs != [] ==> TailFits(NO_WINDOW, vs[0], vs[1..])
  }

  lemma Xor64Cancels(prev: uint64, cur: uint64, xor: uint64)
    ensures Xor64(prev, xor) == cur <==> xor == Xor64(prev, cur)
  {
    XorInvolution(prev, cur);
    XorInvolution(prev, xor);
  }

  /** Encoder and decoder windows stay in lockstep exactly while every window fits. */
  lemma {:induction false} TailRoundTripExactly(bits: seq<bit>, pos: nat, w: Window, prev: uint64, vs: seq<uint64>)
    requires At(bits, pos, TailBits(w, prev, vs))
    ensures DecodeTail(bits, pos, w, prev, |vs|) == vs <==> TailFits(w, prev, vs)
    decreases |vs|
  {
    hide XorBits, ReadXor, Fits, WindowAfter, Xor64;
    if vs != [] {
      var xor := Xor64(prev, vs[0]);
      var code := XorBits(w, xor);
      var w' := WindowAfter(w, xor);
      AtConcat(bits, pos, code, TailBits(w', vs[0], vs[1..]));
      ReadWrittenXor(bits, pos, w, xor);
      Xor64Cancels(prev, vs[0], ReadXor(bits, pos, w).0);
      assert vs == [vs[0]] + vs[1..];
      if Fits(w, xor) {
        TailRoundTripExactly(bits, pos + |code|, w', vs[0], vs[1..]);
      }
    }
  }

  /** The value column: whatever bytes follow the encoding, decoding it restores every
      64-bit pattern if and only if each window-opening XOR has at most 31 leading zeros. */
  lemma ValueRoundTripExactly(vs: seq<uint64>, rest: seq<byte>)
    ensures Decode(Encode(vs) + rest, |vs|) == Ok(vs) <==> WindowsFit(vs)
  {
    hide BitsOf, Pack, TailBits, Xor64, PutLE, DecodeTail, TailFits;
    if vs != [] {
      var tail := TailBits(NO_WINDOW, vs[0], vs[1..]);
      var data := Encode(vs) + rest;
      assert data[..8] == PutLE(vs[0], 8);
      LE64RoundTrip(vs[0]);
      assert data[8..] == Pack(tail) + rest;
      PackCorrect(tail);
      BitsOfConcat(Pack(tail), rest);
      assert At(BitsOf(data[8..]), 0, tail);
      TailRoundTripExactly(BitsOf(data[8..]), 0, NO_WINDOW, vs[0], vs[1..]);
      var read := DecodeTail(BitsOf(data[8..]), 0, NO_WINDOW, vs[0], |vs| - 1);
      assert vs == [vs[0]] + vs[1..];
      assert [vs[0]] + read == vs <==> read == vs[1..] by {
        assert ([vs[0]] + read)[1..] == read;
      }
    }
  }

  /** The values 0 and 1 (as bit patterns) do not survive: their XOR has 63 leading zeros. */
  lemma SmallDifferenceLost()
    ensures Decode(Encode([0, 1]), 2) != Ok([0, 1])
  {
    assert !WindowsFit([0, 1]) by {
      assert Xor64(0, 1) == 1;
      assert BitLength(1) == 1;
      assert [0, 1][1..] == [1];
      assert !TailFits(NO_WINDOW, 0, [1]);
    }
    hide Decode, Encode, WindowsFit;
    ValueRoundTripExactly([0, 1], []);
    assert Encode([0, 1]) + [] == Encode([0, 1]);
  }
}
