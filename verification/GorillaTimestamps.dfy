/** Delta-of-delta timestamp compression (internal/segment/gorilla.go), after section
    4.1.1 of the Gorilla paper: the first timestamp in eight bytes, the first delta as a
    varint, then one prefix code for every further delta-of-delta. */
module GorillaTimestamps {
  import opened Words
  import opened Varint
  import opened BitStream
  import opened Points

  /** The step to the next timestamp; Go's subtraction wraps. */
  function Delta(prev: int64, cur: int64): int64 {
    Sub64(cur, prev)
  }

  predicate Small(dod: int64) {
    -2047 <= dod <= 2048
  }

  /** The prefix code of one delta-of-delta written at bit position pos. */
  function DodBits(pos: nat, dod: int64): (b: seq<bit>)
    ensures Small(dod) ==> |b| <= 16
  {
    if dod == 0 then [0]
    else if -63 <= dod <= 64 then Prefixed(2, 2, dod + 63, 7)
    else if -255 <= dod <= 256 then Prefixed(6, 3, dod + 255, 9)
    else if -2047 <= dod <= 2048 then Prefixed(14, 4, dod + 2047, 12)
    else Escape(pos, dod)
  }

  /** Four one bits, padding to the next byte, then the varint of the delta-of-delta. */
  function Escape(pos: nat, dod: int64): seq<bit> {
    Prefixed(15, 4, 0, PadLength(pos + 4)) + BitsOf(PutVarint(dod))
  }

  /** A prefix of p bits, then n bits of val. */
  function Prefixed(prefix: nat, p: nat, val: nat, n: nat): (b: seq<bit>)
    ensures |b| == p + n
  {
    ToBits(prefix, p) + ToBits(val, n)
  }

  /** The classes of the code, by the range of the delta-of-delta: flag bits, then the
      offset of the number in its range, 1, 9, 12 and 16 bits in all. */
  lemma CodeClasses(pos: nat, dod: int64)
    ensures var code := DodBits(pos, dod);
            if dod == 0 then code == [0]
            else if -63 <= dod <= 64 then |code| == 9 && code[..2] == [1, 0] && FromBits(code[2..]) == dod + 63
            else if -255 <= dod <= 256 then |code| == 12 && code[..3] == [1, 1, 0] && FromBits(code[3..]) == dod + 255
            else if -2047 <= dod <= 2048 then
              |code| == 16 && code[..4] == [1, 1, 1, 0] && FromBits(code[4..]) == dod + 2047
            else code[..4] == [1, 1, 1, 1]
  {
    hide FromBits, BitsOf, PutVarint;
    Pow2Values();
    hide Pow2;
    PrefixBits();
    if dod == 0 {
    } else if -63 <= dod <= 64 {
      PrefixedParts(2, 2, dod + 63, 7);
    } else if -255 <= dod <= 256 {
      PrefixedParts(6, 3, dod + 255, 9);
    } else if -2047 <= dod <= 2048 {
      PrefixedParts(14, 4, dod + 2047, 12);
    } else {
      PrefixedParts(15, 4, 0, PadLength(pos + 4));
      assert Escape(pos, dod)[..4] == Prefixed(15, 4, 0, PadLength(pos + 4))[..4];
    }
  }

  lemma PrefixedParts(prefix: nat, p: nat, val: nat, n: nat)
    ensures Prefixed(prefix, p, val, n)[..p] == ToBits(prefix, p)
    ensures val < Pow2(n) ==> FromBits(Prefixed(prefix, p, val, n)[p..]) == val
  {
    hide ToBits, FromBits;
    assert Prefixed(prefix, p, val, n)[p..] == ToBits(val, n);
    if val < Pow2(n) {
      FromToBits(val, n);
    }
  }

  method WritePrefixed(bw: BitWriter, prefix: nat, p: nat, val: nat, n: nat)
    requires bw.Valid()
    modifies bw
    ensures bw.Valid() && bw.content == old(bw.content) + Prefixed(prefix, p, val, n)
  {
    ConcatAssoc(bw.content, ToBits(prefix, p), ToBits(val, n));
    bw.WriteBits(prefix, p);
    bw.WriteBits(val, n);
  }

  /** The codes for ts[1..], given that ts[0] and the delta leading to it are written. */
  function TailBits(pos: nat, delta: int64, ts: seq<int64>): seq<bit>
    decreases |ts|
  {
    if |ts| <= 1 then []
    else
      var d := Delta(ts[0], ts[1]);
      var code := DodBits(pos, Sub64(d, delta));
      code + TailBits(pos + |code|, d, ts[1..])
  }

  /** The byte-aligned head: first timestamp and first delta. */
  function Head(t0: int64, t1: int64): (h: seq<byte>) {
    PutLE(ToUnsigned(t0), 8) + PutVarint(Delta(t0, t1))
  }

  /** The bytes of a timestamp column. */
  function Encode(ts: seq<int64>): seq<byte> {
    if |ts| == 0 then []
    else if |ts| == 1 then PutLE(ToUnsigned(ts[0]), 8)
    else
      var h := Head(ts[0], ts[1]);
      Pack(BitsOf(h) + TailBits(8 * |h|, Delta(ts[0], ts[1]), ts[1..]))
  }

  /** The switch of the encoder's loop: one delta-of-delta appended to the bit buffer. */
  method WriteDod(bw: BitWriter, dod: int64)
    requires bw.Valid()
    modifies bw
    ensures bw.Valid() && bw.content == old(bw.content) + DodBits(|old(bw.content)|, dod)
  {
    hide Prefixed, Escape, BitsOf, Packs;
    if dod == 0 {
      bw.WriteBit(0);
    } else if dod >= -63 && dod <= 64 {
      WritePrefixed(bw, 2, 2, dod + 63, 7);
    } else if dod >= -255 && dod <= 256 {
      WritePrefixed(bw, 6, 3, dod + 255, 9);
    } else if dod >= -2047 && dod <= 2048 {
      WritePrefixed(bw, 14, 4, dod + 2047, 12);
    } else {
      WriteEscape(bw, dod);
    }
  }

  method WriteEscape(bw: BitWriter, dod: int64)
    requires bw.Valid()
    modifies bw
    ensures bw.Valid() && bw.content == old(bw.content) + Escape(|old(bw.content)|, dod)
  {
    hide BitsOf, PutVarint, ToBits;
    var pad := PadLength(bw.pos + 4);
    ConcatAssoc(bw.content, Prefixed(15, 4, 0, pad), BitsOf(PutVarint(dod)));
    WritePrefixed(bw, 15, 4, 0, pad);
    bw.AppendBytes(PutVarint(dod));
  }

  method EncodeTimestamps(points: seq<Point>) returns (out: seq<byte>)
    ensures out == Encode(Timestamps(points))
  {
    hide Packs, PutLE, PutVarint, BitsOf, Pack;
    if |points| == 0 {
      return [];
    }
    if |points| == 1 {
      return PutLE(ToUnsigned(points[0].ts), 8);
    }
    ghost var ts := Timestamps(points);
    var bw := new BitWriter();
    bw.AppendBytes(PutLE(ToUnsigned(points[0].ts), 8));
    var prevDelta := Delta(points[0].ts, points[1].ts);
    bw.AppendBytes(PutVarint(prevDelta));
    BitsOfConcat(PutLE(ToUnsigned(points[0].ts), 8), PutVarint(prevDelta));
    ghost var goal := bw.content + TailBits(|bw.content|, prevDelta, ts[1..]);
    assert bw.content == BitsOf(Head(ts[0], ts[1]));
    for i := 2 to |points|
      invariant bw.Valid() && fresh(bw)
      invariant bw.content + TailBits(|bw.content|, prevDelta, ts[i - 1..]) == goal
    {
      var delta := Delta(points[i - 1].ts, points[i].ts);
      TailBitsStep(bw.content, prevDelta, ts, i);
      WriteDod(bw, Sub64(delta, prevDelta));
      prevDelta := delta;
    }
    assert bw.content == goal;
    PacksUnique(bw.buf, bw.content);
    out := bw.buf;
  }

  lemma TailBitsStep(written: seq<bit>, delta: int64, ts: seq<int64>, i: nat)
    requires 1 <= i < |ts|
    ensures var d := Delta(ts[i - 1], ts[i]);
            var w := written + DodBits(|written|, Sub64(d, delta));
            written + TailBits(|written|, delta, ts[i - 1..]) == w + TailBits(|w|, d, ts[i..])
  {
    hide DodBits, Sub64;
    var d := Delta(ts[i - 1], ts[i]);
    var code := DodBits(|written|, Sub64(d, delta));
    assert ts[i - 1..][1..] == ts[i..];
    ConcatAssoc(written, code, TailBits(|written| + |code|, d, ts[i..]));
  }

  lemma ConcatAssoc(a: seq<bit>, b: seq<bit>, c: seq<bit>)
    ensures a + (b + c) == (a + b) + c
  {
  }

  // ----- decoding

  /** One delta-of-delta read at position pos of bits, the bits of data[8..]: its value and the next
      position. A long one is a varint whose byte index is taken relative to the start of
      data plus skip; the code uses skip 0, although positions count from byte 8. */
  function ReadDod(skip: nat, data: seq<byte>, bits: seq<bit>, pos: nat): Result<(int64, nat)> {
    var p1 := Next(bits, pos);
    var p2 := Next(bits, p1);
    var p3 := Next(bits, p2);
    var p4 := Next(bits, p3);
    if Peek(bits, pos) == 0 then Ok((0, p1))
    else if Peek(bits, p1) == 0 then
      var (v, p) := ReadSmall(bits, p2, 7);
      Ok((v - 63, p))
    else if Peek(bits, p2) == 0 then
      var (v, p) := ReadSmall(bits, p3, 9);
      Ok((v - 255, p))
    else if Peek(bits, p3) == 0 then
      var (v, p) := ReadSmall(bits, p4, 12);
      Ok((v - 2047, p))
    else
      var p := p4 + PadLength(p4);
      if skip + p / 8 >= |data| then Corrupt
      else
        var (v, n) := ReadVarint(data[skip + p / 8..]);
        if n <= 0 then Corrupt else Ok((v, p + 8 * n))
  }

  function ReadSmall(bits: seq<bit>, pos: nat, n: nat): (r: (nat, nat))
    requires n <= 12
    ensures r.0 < 4096
    ensures r == ReadNumber(bits, pos, n)
  {
    ReadNumberBound(bits, pos, n);
    Pow2Monotone(n, 12);
    assert Pow2(12) == 4096 by { Pow2Values(); }
    ReadNumber(bits, pos, n)
  }

  /** n more timestamps after last, which was reached by delta. */
  function DecodeTail(skip: nat, data: seq<byte>, bits: seq<bit>, pos: nat, delta: int64, last: int64, n: nat)
    : (r: Result<seq<int64>>)
    ensures r.Ok? ==> |r.value| == n
    decreases n
  {
    if n == 0 then Ok([])
    else
      var (dod, p) :- ReadDod(skip, data, bits, pos);
      var d := Add64(delta, dod);
      var t := Add64(last, d);
      var rest :- DecodeTail(skip, data, bits, p, d, t, n - 1);
      Ok([t] + rest)
  }

  function Decode(skip: nat, data: seq<byte>, n: nat): (r: Result<seq<int64>>)
    ensures r.Ok? ==> |r.value| == n
  {
    if n == 0 then Ok([])
    else if n == 1 then
      if |data| < 8 then Corrupt else Ok([ToSigned(GetU64(data[..8]))])
    else if |data| < 8 then Panic
    else
      var t0 := ToSigned(GetU64(data[..8]));
      var (delta, k) := ReadVarint(data[8..]);
      if k <= 0 then Corrupt
      else
        var t1 := Add64(t0, delta);
        var rest :- DecodeTail(skip, data, BitsOf(data[8..]), 8 * k, delta, t1, n - 2);
        Ok([t0, t1] + rest)
  }

  /** The chain of prefix tests in the decoder's loop. */
  method ReadDodAt(data: seq<byte>, br: BitReader) returns (r: Result<int64>)
    modifies br
    ensures var next := ReadDod(0, data, BitsOf(br.data), old(br.pos));
            if next.Ok? then r == Ok(next.value.0) && br.pos == next.value.1
            else r == Corrupt && next == Corrupt
  {
    hide BitsOf, ReadVarint;
    ghost var bits := BitsOf(br.data);
    var b := br.ReadBit();
    if b == 0 {
      return Ok(0);
    }
    b := br.ReadBit();
    if b == 0 {
      ghost var _ := ReadSmall(bits, br.pos, 7);
      var v := br.ReadBits(7);
      return Ok((v as int) - 63);
    }
    b := br.ReadBit();
    if b == 0 {
      ghost var _ := ReadSmall(bits, br.pos, 9);
      var v := br.ReadBits(9);
      return Ok((v as int) - 255);
    }
    b := br.ReadBit();
    if b == 0 {
      ghost var _ := ReadSmall(bits, br.pos, 12);
      var v := br.ReadBits(12);
      return Ok((v as int) - 2047);
    }
    br.pos := br.pos + PadLength(br.pos);
    var remaining := |data| - br.pos / 8;
    if remaining <= 0 {
      return Corrupt;
    }
    var (dod64, n2) := ReadVarint(data[br.pos / 8..]);
    if n2 <= 0 {
      return Corrupt;
    }
    br.pos := br.pos + n2 * 8;
    return Ok(dod64);
  }

  method DecodeTimestamps(data: seq<byte>, numPoints: nat) returns (r: Result<seq<int64>>)
    ensures r == Decode(0, data, numPoints)
  {
    hide BitsOf, ReadDod, Add64;
    if numPoints == 0 {
      return Ok([]);
    }
    if numPoints == 1 {
      if |data| < 8 {
        return Corrupt;
      }
      return Ok([ToSigned(GetU64(data[..8]))]);
    }
    if |data| < 8 {
      return Panic;
    }
    var br := new BitReader(data[8..]);
    var ts := [ToSigned(GetU64(data[..8]))];
    var (delta, n) := ReadVarint(data[8..]);
    if n <= 0 {
      return Corrupt;
    }
    ts := ts + [Add64(ts[0], delta)];
    br.pos := n * 8;
    ghost var goal := Prepended(ts, DecodeTail(0, data, BitsOf(br.data), br.pos, delta, ts[1], numPoints - 2));
    assert ts == [ts[0], ts[1]];
    for i := 2 to numPoints
      invariant |ts| == i && fresh(br) && br.data == data[8..]
      invariant goal == Prepended(ts, DecodeTail(0, data, BitsOf(br.data), br.pos, delta, ts[i - 1], numPoints - i))
    {
      DecodeTailStep(data, BitsOf(br.data), br.pos, delta, ts, numPoints - i);
      var next := ReadDodAt(data, br);
      if !next.Ok? {
        return Corrupt;
      }
      delta := Add64(delta, next.value);
      ts := ts + [Add64(ts[i - 1], delta)];
    }
    assert ts + [] == ts;
    r := Ok(ts);
  }

  lemma DecodeTailStep(data: seq<byte>, bits: seq<bit>, pos: nat, delta: int64, ts: seq<int64>, n: nat)
    requires ts != [] && n > 0
    ensures var next := ReadDod(0, data, bits, pos);
            var all := Prepended(ts, DecodeTail(0, data, bits, pos, delta, ts[|ts| - 1], n));
            if !next.Ok? then all == next.PropagateFailure()
            else
              var d := Add64(delta, next.value.0);
              var ts' := ts + [Add64(ts[|ts| - 1], d)];
              all == Prepended(ts', DecodeTail(0, data, bits, next.value.1, d, ts'[|ts'| - 1], n - 1))
  {
    var next := ReadDod(0, data, bits, pos);
    if next.Ok? {
      var d := Add64(delta, next.value.0);
      var t := Add64(ts[|ts| - 1], d);
      PrependedAssoc(ts, t, DecodeTail(0, data, bits, next.value.1, d, t, n - 1));
    }
  }

  function Prepended(a: seq<int64>, r: Result<seq<int64>>): Result<seq<int64>> {
    if r.Ok? then Ok(a + r.value) else r
  }

  lemma PrependedAssoc(a: seq<int64>, t: int64, r: Result<seq<int64>>)
    ensures Prepended(a, Prepended([t], r)) == Prepended(a + [t], r)
  {
    if r.Ok? {
      assert a + ([t] + r.value) == a + [t] + r.value;
    }
  }

  // ----- round trip

  lemma PrefixBits()
    ensures ToBits(2, 2) == [1, 0] && ToBits(6, 3) == [1, 1, 0]
    ensures ToBits(14, 4) == [1, 1, 1, 0] && ToBits(15, 4) == [1, 1, 1, 1]
  {
    assert Pow2(0) == 1 && Pow2(1) == 2 && Pow2(2) == 4 && Pow2(3) == 8;
    assert BitAt(14, 3) == BitAt(14, 2) == BitAt(14, 1) == 1 && BitAt(14, 0) == 0;
    assert BitAt(15, 3) == BitAt(15, 2) == BitAt(15, 1) == BitAt(15, 0) == 1;
  }

  /** The prefix bits and the number of a code, read back where they were written. */
  lemma ReadPrefixed(bits: seq<bit>, pos: nat, prefix: nat, p: nat, x: nat, n: nat)
    requires At(bits, pos, Prefixed(prefix, p, x, n)) && x < Pow2(n)
    ensures At(bits, pos, ToBits(prefix, p))
    ensures ReadNumber(bits, pos + p, n) == (x, pos + p + n)
  {
    AtConcat(bits, pos, ToBits(prefix, p), ToBits(x, n));
    ReadNumberWritten(bits, pos + p, x, n);
  }

  /** The first one bits of a prefix, and the zero, if any, that ends it. */
  lemma PeekOnes(bits: seq<bit>, pos: nat, w: seq<bit>, ones: nat)
    requires At(bits, pos, w) && ones <= 3 && ones <= |w|
    requires (ones > 0 ==> w[0] == 1) && (ones > 1 ==> w[1] == 1) && (ones > 2 ==> w[2] == 1)
    ensures ones > 0 ==> Peek(bits, pos) == 1 && Next(bits, pos) == pos + 1
    ensures ones > 1 ==> Peek(bits, pos + 1) == 1 && Next(bits, pos + 1) == pos + 2
    ensures ones > 2 ==> Peek(bits, pos + 2) == 1 && Next(bits, pos + 2) == pos + 3
    ensures ones < |w| ==> Peek(bits, pos + ones) == w[ones] && Next(bits, pos + ones) == pos + ones + 1
  {
    if ones > 0 { AtIndex(bits, pos, w, 0); }
    if ones > 1 { AtIndex(bits, pos, w, 1); }
    if ones > 2 { AtIndex(bits, pos, w, 2); }
    if ones < |w| { AtIndex(bits, pos, w, ones); }
  }

  /** The code of a small delta-of-delta reads back wherever it stands. */
  lemma ReadSmallDod(skip: nat, data: seq<byte>, bits: seq<bit>, pos: nat, dod: int64)
    requires Small(dod) && At(bits, pos, DodBits(pos, dod))
    ensures ReadDod(skip, data, bits, pos) == Ok((dod, pos + |DodBits(pos, dod)|))
  {
    hide ToBits, BitAt, Prefixed, ReadNumber, Peek, Next, At, Pow2;
    assert Pow2(7) == 128 && Pow2(9) == 512 && Pow2(12) == 4096 by { Pow2Values(); }
    PrefixBits();
    if dod == 0 {
      PeekOnes(bits, pos, [0], 0);
    } else if -63 <= dod <= 64 {
      ReadPrefixed(bits, pos, 2, 2, dod + 63, 7);
      PeekOnes(bits, pos, [1, 0], 1);
    } else if -255 <= dod <= 256 {
      ReadPrefixed(bits, pos, 6, 3, dod + 255, 9);
      PeekOnes(bits, pos, [1, 1, 0], 2);
    } else {
      ReadPrefixed(bits, pos, 14, 4, dod + 2047, 12);
      PeekOnes(bits, pos, [1, 1, 1, 0], 3);
    }
  }

  /** Past the four ones the decoder is aligned, and looks skip bytes into data. */
  lemma ReadEscape(skip: nat, data: seq<byte>, bits: seq<bit>, pos: nat, dod: int64)
    requires At(bits, pos, Escape(pos, dod))
    ensures var p := pos + 4 + PadLength(pos + 4);
            ReadDod(skip, data, bits, pos) ==
            if skip + p / 8 >= |data| then Corrupt
            else
              var (v, n) := ReadVarint(data[skip + p / 8..]);
              if n <= 0 then Corrupt else Ok((v, p + 8 * n))
  {
    hide ToBits, BitAt, Prefixed, ReadNumber, Peek, Next, At, BitsOf, PutVarint, ReadVarint;
    var pad := PadLength(pos + 4);
    PrefixBits();
    AtConcat(bits, pos, Prefixed(15, 4, 0, pad), BitsOf(PutVarint(dod)));
    ReadPrefixed(bits, pos, 15, 4, 0, pad);
    PeekOnes(bits, pos, [1, 1, 1, 1], 3);
  }

  /** With the byte index corrected by 8, a long code reads back too. */
  lemma ReadLongDod(data: seq<byte>, bits: seq<bit>, pos: nat, dod: int64)
    requires |data| >= 8 && bits == BitsOf(data[8..])
    requires At(bits, pos, Escape(pos, dod))
    ensures ReadDod(8, data, bits, pos) == Ok((dod, pos + |Escape(pos, dod)|))
  {
    hide BitsOf, ReadDod, Prefixed, PutVarint, ReadVarint;
    var p := pos + 4 + PadLength(pos + 4);
    var v := PutVarint(dod);
    ReadEscape(8, data, bits, pos, dod);
    var q := 8 + p / 8;
    assert q + |v| <= |data| && data[q..q + |v|] == v by {
      AtConcat(bits, pos, Prefixed(15, 4, 0, PadLength(pos + 4)), BitsOf(v));
      AtBytes(data[8..], p / 8, v);
    }
    assert data[q..] == v + data[q + |v|..];
    VarintRoundTrip(dod, data[q + |v|..]);
  }

  /** Every delta-of-delta after ts[0] is small or equal to the one exempted. */
  ghost predicate TailSteps(delta: int64, ts: seq<int64>, exempt: int64)
    decreases |ts|
  {
    |ts| > 1 ==>
      var d := Delta(ts[0], ts[1]);
      (Small(Sub64(d, delta)) || Sub64(d, delta) == exempt) && TailSteps(d, ts[1..], exempt)
  }

  ghost predicate Steps(ts: seq<int64>, exempt: int64) {
    |ts| > 2 ==> TailSteps(Delta(ts[0], ts[1]), ts[1..], exempt)
  }

  /** All delta-of-deltas fit the three short codes. */
  ghost predicate SmallSteps(ts: seq<int64>) {
    Steps(ts, 0)
  }

  /** The tail reads back when its codes are small, or when the index is corrected. */
  lemma {:induction false} TailRoundTrip(skip: nat, data: seq<byte>, bits: seq<bit>, pos: nat, delta: int64,
      ts: seq<int64>)
    requires |data| >= 8 && bits == BitsOf(data[8..]) && ts != []
    requires skip == 8 || TailSteps(delta, ts, 0)
    requires At(bits, pos, TailBits(pos, delta, ts))
    ensures DecodeTail(skip, data, bits, pos, delta, ts[0], |ts| - 1) == Ok(ts[1..])
    decreases |ts|
  {
    hide DodBits, ReadDod, BitsOf, Wrap, Sub64, Add64;
    if |ts| > 1 {
      var d := Delta(ts[0], ts[1]);
      var dod := Sub64(d, delta);
      var code := DodBits(pos, dod);
      AtConcat(bits, pos, code, TailBits(pos + |code|, d, ts[1..]));
      if Small(dod) {
        ReadSmallDod(skip, data, bits, pos, dod);
      } else {
        DodBitsLong(pos, dod);
        ReadLongDod(data, bits, pos, dod);
      }
      WrapDifference(d, delta);
      WrapDifference(ts[1], ts[0]);
      TailRoundTrip(skip, data, bits, pos + |code|, d, ts[1..]);
      assert [ts[1]] + ts[1..][1..] == ts[1..];
    } else {
      assert ts[1..] == [];
    }
  }

  lemma DodBitsLong(pos: nat, dod: int64)
    requires !Small(dod)
    ensures DodBits(pos, dod) == Escape(pos, dod)
  {
  }

  lemma DodBitsShift(q: nat, pos: nat, dod: int64)
    ensures DodBits(8 * q + pos, dod) == DodBits(pos, dod)
  {
    assert (8 * q + pos + 4) % 8 == (pos + 4) % 8;
  }

  /** Padding depends on the position within the byte only. */
  lemma {:induction false} TailBitsShift(q: nat, pos: nat, delta: int64, ts: seq<int64>)
    ensures TailBits(8 * q + pos, delta, ts) == TailBits(pos, delta, ts)
    decreases |ts|
  {
    hide DodBits, Sub64;
    if |ts| > 1 {
      var d := Delta(ts[0], ts[1]);
      var dod := Sub64(d, delta);
      DodBitsShift(q, pos, dod);
      assert 8 * q + pos + |DodBits(pos, dod)| == 8 * q + (pos + |DodBits(pos, dod)|);
      TailBitsShift(q, pos + |DodBits(pos, dod)|, d, ts[1..]);
    }
  }

  /** The encoded column is the head, byte for byte, followed by the packed codes. */
  lemma EncodeShape(ts: seq<int64>)
    requires |ts| >= 2
    ensures var d := Delta(ts[0], ts[1]);
            Encode(ts) == Head(ts[0], ts[1]) + Pack(TailBits(8 * |PutVarint(d)|, d, ts[1..]))
  {
    hide DodBits, BitsOf, Pack, PutVarint, PutLE, Delta;
    var d := Delta(ts[0], ts[1]);
    var h := Head(ts[0], ts[1]);
    TailBitsShift(8, 8 * |PutVarint(d)|, d, ts[1..]);
    PackAligned(h, TailBits(8 * |h|, d, ts[1..]));
  }

  /** Reading the head of a column of at least two timestamps. */
  lemma DecodeHead(skip: nat, t0: int64, t1: int64, rest: seq<byte>, n: nat)
    requires n >= 2
    ensures var data := Head(t0, t1) + rest;
            var v := PutVarint(Delta(t0, t1));
            data[8..] == v + rest &&
            Decode(skip, data, n) ==
            Prepended([t0, t1], DecodeTail(skip, data, BitsOf(v + rest), 8 * |v|, Delta(t0, t1), t1, n - 2))
  {
    var data := Head(t0, t1) + rest;
    assert data[..8] == PutLE(ToUnsigned(t0), 8);
    LE64RoundTrip(ToUnsigned(t0));
    SignedRoundTrip(t0);
    assert data[8..] == PutVarint(Delta(t0, t1)) + rest;
    VarintRoundTrip(Delta(t0, t1), rest);
    WrapDifference(t1, t0);
  }

  /** The packed codes stand right behind the varint of the first delta. */
  lemma CodesAfterVarint(v: seq<byte>, tail: seq<bit>)
    ensures At(BitsOf(v + Pack(tail)), 8 * |v|, tail)
  {
    hide BitsOf, Pack;
    PackCorrect(tail);
    BitsOfConcat(v, Pack(tail));
  }

  lemma RoundTrip(skip: nat, ts: seq<int64>)
    requires skip == 8 || SmallSteps(ts)
    ensures Decode(skip, Encode(ts), |ts|) == Ok(ts)
  {
    hide DodBits, ReadDod, BitsOf, Pack, PutVarint, Delta, TailBits, DecodeTail;
    if |ts| == 1 {
      var data := Encode(ts);
      assert data[..8] == data && [ts[0]] == ts;
      LE64RoundTrip(ToUnsigned(ts[0]));
      SignedRoundTrip(ts[0]);
    } else if |ts| >= 2 {
      var d := Delta(ts[0], ts[1]);
      var v := PutVarint(d);
      var tail := TailBits(8 * |v|, d, ts[1..]);
      EncodeShape(ts);
      DecodeHead(skip, ts[0], ts[1], Pack(tail), |ts|);
      CodesAfterVarint(v, tail);
      TailRoundTrip(skip, Encode(ts), BitsOf(v + Pack(tail)), 8 * |v|, d, ts[1..]);
      assert [ts[0], ts[1]] + ts[1..][1..] == ts;
    }
  }

  /** Timestamps survive the column codec whenever every delta-of-delta fits a short
      code, also when the subtractions wrap modulo 2^64. */
  lemma TimestampRoundTrip(ts: seq<int64>)
    requires SmallSteps(ts)
    ensures Decode(0, Encode(ts), |ts|) == Ok(ts)
  {
    RoundTrip(0, ts);
  }

  /** The decoder with its byte index corrected by 8 (not what the code does) restores
      every list of timestamps: the index is the codec's only defect. */
  lemma CorrectedRoundTrip(ts: seq<int64>)
    ensures Decode(8, Encode(ts), |ts|) == Ok(ts)
  {
    RoundTrip(8, ts);
  }

  lemma LongStepDeltas(d: int64)
    ensures Delta(0, 0) == 0 && Delta(0, d) == d && Sub64(d, 0) == d
    ensures PutVarint(0) == [0] && PutLE(0, 8)[2] == 0
  {
    WrapUnique(d, d);
    assert PutLE(0, 8)[2] == PutLE(0, 7)[1] == PutLE(0, 6)[0];
  }

  lemma LongStepTail(d: int64)
    requires !Small(d)
    ensures TailBits(8, 0, [0, d]) == Escape(8, d)
  {
    hide DodBits, Escape, Delta, Sub64, PutVarint, PutLE;
    LongStepDeltas(d);
    DodBitsLong(8, d);
    var tail := Escape(8, d);
    assert [0, d][1..] == [d];
    assert TailBits(8 + |tail|, d, [d]) == [];
    assert tail + [] == tail;
  }

  /** The column of 0, 0, d. */
  lemma LongStepColumn(d: int64)
    requires !Small(d)
    ensures Encode([0, 0, d]) == Head(0, 0) + Pack(Escape(8, d))
  {
    hide BitsOf, Pack, Escape, Encode, TailBits, Head, PutVarint, PutLE, Delta;
    var ts: seq<int64> := [0, 0, d];
    assert ts[1..] == [0, d];
    LongStepDeltas(d);
    LongStepTail(d);
    EncodeShape(ts);
  }

  /** The third byte of the column is one of the first timestamp's zeros. */
  lemma ZeroVarint(rest: seq<byte>)
    ensures |Head(0, 0) + rest| > 2 && ReadVarint((Head(0, 0) + rest)[2..]) == (0, 1)
  {
    hide PutLE, PutVarint, Delta;
    LongStepDeltas(0);
    assert (Head(0, 0) + rest)[2..][0] == 0;
  }

  lemma LongStepRead(data: seq<byte>, bits: seq<bit>, d: int64)
    requires At(bits, 8, Escape(8, d)) && |data| > 2 && ReadVarint(data[2..]) == (0, 1)
    ensures DecodeTail(0, data, bits, 8, 0, 0, 1) == Ok([0])
  {
    hide Escape, At, ReadDod, ReadVarint;
    ReadEscape(0, data, bits, 8, d);
    assert ReadDod(0, data, bits, 8) == Ok((0, 24));
    assert Add64(0, 0) == 0 by { WrapUnique(0, 0); }
    assert DecodeTail(0, data, bits, 24, 0, 0, 0) == Ok([]);
    assert [0] + [] == [0];
  }

  /** Three timestamps 0, 0, d with a long step read back as 0, 0, 0: the varint is looked
      up inside the zero bytes of the first timestamp. */
  lemma LongStepLost(d: int64)
    requires !Small(d)
    ensures Decode(0, Encode([0, 0, d]), 3) == Ok([0, 0, 0])
  {
    hide BitsOf, Pack, Escape, Encode, Decode, DecodeTail, PutLE, PutVarint, ReadVarint, Delta, At, Head;
    var rest := Pack(Escape(8, d));
    LongStepDeltas(d);
    LongStepColumn(d);
    DecodeHead(0, 0, 0, rest, 3);
    CodesAfterVarint([0], Escape(8, d));
    var data := Encode([0, 0, d]);
    ZeroVarint(rest);
    LongStepRead(data, BitsOf([0] + rest), d);
    var head: seq<int64> := [0, 0];
    assert head + [0] == [0, 0, 0];
  }

  /** d can occur as a delta-of-delta without spoiling any list of small steps. */
  ghost predicate SafeStep(d: int64) {
    forall ts: seq<int64> :: Steps(ts, d) ==> Decode(0, Encode(ts), |ts|) == Ok(ts)
  }

  /** Exactly the delta-of-deltas in [-2047, 2048] are safe. */
  lemma SafeStepExactly(d: int64)
    ensures SafeStep(d) <==> -2047 <= d <= 2048
  {
    hide Encode, Decode, Sub64, Wrap;
    if Small(d) {
      forall ts: seq<int64> | Steps(ts, d)
        ensures Decode(0, Encode(ts), |ts|) == Ok(ts)
      {
        if |ts| > 2 {
          ExemptSmall(Delta(ts[0], ts[1]), ts[1..], d);
        }
        TimestampRoundTrip(ts);
      }
    } else {
      var ts: seq<int64> := [0, 0, d];
      assert ts[1..] == [0, d] && [0, d][1..] == [d];
      LongStepDeltas(d);
      assert TailSteps(d, [d], d);
      assert Steps(ts, d);
      LongStepLost(d);
      assert ts[2] != 0;
    }
  }

  lemma {:induction false} ExemptSmall(delta: int64, ts: seq<int64>, d: int64)
    requires Small(d) && TailSteps(delta, ts, d)
    ensures TailSteps(delta, ts, 0)
    decreases |ts|
  {
    if |ts| > 1 {
      ExemptSmall(Delta(ts[0], ts[1]), ts[1..], d);
    }
  }
}
