/** How long value columns are, and what one cut short decodes to. */
module GorillaCuts {
  import opened Words
  import opened BitStream
  import opened GorillaValues
  import opened GorillaValuesRoundTrip

  lemma XorBitsLength(w: Window, xor: uint64)
    ensures |XorBits(w, xor)| <= 77
    ensures xor > 0 && Reuses(w, xor) ==> |XorBits(w, xor)| <= 66
    ensures xor > 0 && !Reuses(w, xor) ==> |XorBits(w, xor)| >= 14
  {
    if xor > 0 {
      MiddleNotEmpty(xor);
    }
  }

  lemma {:induction false} TailLength(w: Window, prev: uint64, vs: seq<uint64>)
    ensures |TailBits(w, prev, vs)| <= 77 * |vs|
    decreases |vs|
  {
    hide XorBits, Xor64;
    if vs != [] {
      var xor := Xor64(prev, vs[0]);
      XorBitsLength(w, xor);
      TailLength(WindowAfter(w, xor), vs[0], vs[1..]);
    }
  }

  /** The first kept bits of the code of vs end inside the meaningful bits of the window
      that its last value opens. */
  ghost predicate CutInOpening(w: Window, prev: uint64, vs: seq<uint64>, kept: int)
    decreases |vs|
  {
    vs != [] &&
    var xor := Xor64(prev, vs[0]);
    if |vs| == 1 then xor > 0 && !Reuses(w, xor) && 13 <= kept < |XorBits(w, xor)|
    else |XorBits(w, xor)| <= kept
         && CutInOpening(WindowAfter(w, xor), vs[0], vs[1..], kept - |XorBits(w, xor)|)
  }

  lemma OneCode(w: Window, prev: uint64, cur: uint64)
    ensures TailBits(w, prev, [cur]) == XorBits(w, Xor64(prev, cur))
  {
    hide XorBits, Xor64;
    assert [cur][1..] == [];
    assert TailBits(WindowAfter(w, Xor64(prev, cur)), cur, []) == [];
    assert XorBits(w, Xor64(prev, cur)) + [] == XorBits(w, Xor64(prev, cur));
  }

  /** Cutting a long last code leaves its opening: a reused window is at most 66 bits. */
  lemma CutLast(w: Window, prev: uint64, cur: uint64, kept: nat)
    requires 13 <= kept < |TailBits(w, prev, [cur])|
    requires w == NO_WINDOW || kept >= 66
    ensures CutInOpening(w, prev, [cur], kept)
  {
    hide XorBits, Xor64, TailBits, LeadingZeros, TrailingZeros;
    OneCode(w, prev, cur);
    XorBitsLength(w, Xor64(prev, cur));
    assert XorBits(w, 0) == [0] by { ZeroCode(w); }
  }

  lemma ZeroCode(w: Window)
    ensures XorBits(w, 0) == [0]
  {
  }

  lemma CutSecond(prev: uint64, a: uint64, b: uint64, kept: nat)
    requires 152 <= kept < |TailBits(NO_WINDOW, prev, [a, b])|
    ensures CutInOpening(NO_WINDOW, prev, [a, b], kept)
  {
    hide XorBits, Xor64, LeadingZeros, TrailingZeros, Reuses;
    var x := Xor64(prev, a);
    var w := WindowAfter(NO_WINDOW, x);
    assert [a, b][1..] == [b];
    XorBitsLength(NO_WINDOW, x);
    XorBitsLength(w, Xor64(a, b));
    OneCode(w, a, b);
    CutLast(w, a, b, kept - |XorBits(NO_WINDOW, x)|);
  }

  lemma {:induction false} NextStaysInside(bits: seq<bit>, pos: nat, n: nat)
    requires pos <= |bits|
    ensures var p := ReadNumber(bits, pos, n).1;
            p == if pos + n <= |bits| then pos + n else |bits|
  {
    if n > 0 {
      NextStaysInside(bits, pos, n - 1);
    }
  }

  /** A number read across the end of the data is even: its last bit is a filler zero. */
  lemma ReadAcrossEnd(bits: seq<bit>, pos: nat, n: nat)
    requires pos <= |bits| < pos + n
    ensures ReadNumber(bits, pos, n).0 % 2 == 0
  {
    NextStaysInside(bits, pos, n - 1);
  }

  lemma OpeningHeader(bits: seq<bit>, pos: nat, xor: uint64)
    requires xor > 0 && At(bits, pos, Opening(xor)[..11])
    ensures ReadNumber(bits, pos, 5) == (LeadingZeros(xor) % 32, pos + 5)
    ensures ReadNumber(bits, pos + 5, 6) == (TrailingZeros(xor), pos + 11)
  {
    hide LeadingZeros, TrailingZeros, ToBits, Shr, At, ReadNumber;
    var l, t := LeadingZeros(xor), TrailingZeros(xor);
    MiddleNotEmpty(xor);
    assert Opening(xor)[..11] == ToBits(l, 5) + ToBits(t, 6);
    AtConcat(bits, pos, ToBits(l, 5), ToBits(t, 6));
    assert Pow2(5) == 32 && Pow2(6) == 64 by { Pow2Values(); }
    LowFiveBits(l);
    ReadNumberWritten(bits, pos, l % 32, 5);
    ReadNumberWritten(bits, pos + 5, t, 6);
  }

  /** Different meaningful parts shift to different XORs. */
  lemma ShiftsDiffer(v: nat, read: nat, n: nat, t: nat)
    requires v < Pow2(n) && read < Pow2(n) && n + t <= 64 && v != read
    ensures Shl64(v, t) != Shl64(read, t)
  {
    hide Pow2;
    NoOverflow(v, n, t);
    NoOverflow(read, n, t);
    if v < read {
      ProductGrows(v, read, Pow2(t));
    } else {
      ProductGrows(read, v, Pow2(t));
    }
  }

  /** An opening cut inside its meaningful bits never yields its XOR: those bits end in a
      one, what is read instead ends in a zero. */
  lemma ReadCutOpening(bits: seq<bit>, pos: nat, xor: uint64)
    requires xor > 0 && pos + 11 <= |bits| < pos + |Opening(xor)|
    requires bits[pos..] == Opening(xor)[..|bits| - pos]
    ensures ReadOpening(bits, pos).0 != xor
  {
    hide LeadingZeros, TrailingZeros, ToBits, Opening, ReadNumber, Shl64, Shr;
    var l, t := LeadingZeros(xor), TrailingZeros(xor);
    SlicePrefix(bits, pos, Opening(xor), 11);
    OpeningHeader(bits, pos, xor);
    ShiftBack(xor, l, t);
    var n := 64 - l % 32 - t;
    var read := ReadNumber(bits, pos + 11, n).0;
    ReadAcrossEnd(bits, pos + 11, n);
    ReadNumberBound(bits, pos + 11, n);
    Pow2Monotone(64 - l - t, n);
    ShrOdd(xor);
    ShiftsDiffer(Shr(xor, t), read, n, t);
  }

  lemma SlicePrefix(bits: seq<bit>, pos: nat, w: seq<bit>, n: nat)
    requires pos + n <= |bits| && |bits| - pos <= |w|
    requires bits[pos..] == w[..|bits| - pos]
    ensures At(bits, pos, w[..n])
  {
    assert bits[pos..pos + n] == bits[pos..][..n] == w[..|bits| - pos][..n] == w[..n];
  }

  lemma ShrOdd(xor: uint64)
    requires xor > 0
    ensures Shr(xor, TrailingZeros(xor)) % 2 == 1
  {
    TrailingZerosSplit(xor);
  }

  /** Decoding what is left of a value column after such a cut misses at least one value. */
  lemma {:induction false} CutTailDiffers(bits: seq<bit>, pos: nat, w: Window, prev: uint64, vs: seq<uint64>)
    requires pos <= |bits| && CutInOpening(w, prev, vs, |bits| - pos)
    requires |bits| - pos <= |TailBits(w, prev, vs)|
    requires bits[pos..] == TailBits(w, prev, vs)[..|bits| - pos]
    ensures DecodeTail(bits, pos, w, prev, |vs|) != vs
    decreases |vs|
  {
    hide XorBits, ReadXor, Fits, WindowAfter, Xor64, Reuses;
    var xor := Xor64(prev, vs[0]);
    var code := XorBits(w, xor);
    var rest := TailBits(WindowAfter(w, xor), vs[0], vs[1..]);
    var kept := |bits| - pos;
    Xor64Cancels(prev, vs[0], ReadXor(bits, pos, w).0);
    if |vs| == 1 {
      assert rest == [];
      assert bits[pos..] == code[..kept];
      ReadCutXor(bits, pos, w, xor);
    } else {
      SlicePrefix(bits, pos, code + rest, |code|);
      assert (code + rest)[..|code|] == code;
      ReadWrittenXor(bits, pos, w, xor);
      assert vs == [vs[0]] + vs[1..];
      if Fits(w, xor) {
        assert bits[pos + |code|..] == bits[pos..][|code|..] == rest[..kept - |code|];
        CutTailDiffers(bits, pos + |code|, WindowAfter(w, xor), vs[0], vs[1..]);
      }
    }
  }

  lemma ReadCutXor(bits: seq<bit>, pos: nat, w: Window, xor: uint64)
    requires xor > 0 && !Reuses(w, xor) && pos + 13 <= |bits| < pos + |XorBits(w, xor)|
    requires bits[pos..] == XorBits(w, xor)[..|bits| - pos]
    ensures ReadXor(bits, pos, w).0 != xor
  {
    hide Reuses, Opening, ReadOpening;
    var code := [1, 1] + Opening(xor);
    assert bits[pos] == bits[pos..][0] == 1;
    assert bits[pos + 1] == bits[pos..][1] == 1;
    assert bits[pos + 2..] == bits[pos..][2..] == Opening(xor)[..|bits| - pos - 2];
    ReadCutOpening(bits, pos + 2, xor);
  }

  /** A value column cut to its first q bytes, inside a last opening, is not restored. */
  lemma CutColumnDiffers(vs: seq<uint64>, q: nat)
    requires vs != [] && 8 <= q
    requires 8 * (q - 8) <= |TailBits(NO_WINDOW, vs[0], vs[1..])|
    requires CutInOpening(NO_WINDOW, vs[0], vs[1..], 8 * (q - 8))
    ensures q <= |Encode(vs)| && Decode(Encode(vs)[..q], |vs|) != Ok(vs)
  {
    hide BitsOf, Pack, TailBits, PutLE, DecodeTail, CutInOpening;
    var tail := TailBits(NO_WINDOW, vs[0], vs[1..]);
    var data := Encode(vs)[..q];
    var packed := Pack(tail);
    assert data[..8] == PutLE(vs[0], 8);
    LE64RoundTrip(vs[0]);
    var kept := packed[0..q - 8];
    assert data[8..] == kept;
    PackCorrect(tail);
    BitsOfSlice(packed, 0, q - 8);
    var bits := BitsOf(kept);
    assert bits[0..] == tail[..8 * (q - 8)];
    CutTailDiffers(bits, 0, NO_WINDOW, vs[0], vs[1..]);
    var read := DecodeTail(bits, 0, NO_WINDOW, vs[0], |vs| - 1);
    assert ([vs[0]] + read)[1..] == read;
  }
}
