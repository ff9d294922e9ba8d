/** XOR value compression (internal/segment/gorilla.go), after section 4.1.2 of the
    Gorilla paper: each value is XORed with its predecessor and the meaningful bits are
    written inside a window of leading and trailing zeros that both sides track. */
module GorillaValues {
  import opened Words
  import opened BitStream
  import opened Points

  // ----- counting zeros

  /** The position above the highest one bit. */
  function BitLength(x: nat): nat {
    if x == 0 then 0 else 1 + BitLength(x / 2)
  }

  lemma {:induction false} BitLengthBounds(x: nat)
    ensures x < Pow2(BitLength(x))
    ensures x > 0 ==> BitLength(x) > 0 && Pow2(BitLength(x) - 1) <= x
  {
    if x > 0 {
      BitLengthBounds(x / 2);
    }
  }

  lemma {:induction false} BitLengthAtMost(x: nat, n: nat)
    ensures BitLength(x) <= n <==> x < Pow2(n)
  {
    if n > 0 && x > 0 {
      BitLengthAtMost(x / 2, n - 1);
    }
  }

  function LeadingZeros(x: uint64): (n: nat)
    ensures n <= 64
  {
    BitLengthAtMost(x, 64);
    Pow2Values();
    64 - BitLength(x)
  }

  function TrailingZeros(x: nat): (n: nat)
    requires x > 0
  {
    if x % 2 == 1 then 0 else 1 + TrailingZeros(x / 2)
  }

  /** A positive number is its odd part, shifted by its trailing zeros. */
  lemma {:induction false} TrailingZerosSplit(x: nat)
    requires x > 0
    ensures var p := Pow2(TrailingZeros(x));
            x == (x / p) * p && (x / p) % 2 == 1
  {
    if x % 2 == 0 {
      TrailingZerosSplit(x / 2);
      var p := Pow2(TrailingZeros(x / 2));
      DivDiv(x, p);
      MulAssoc(x / 2 / p, p, 2);
    }
  }

  /** Leading and trailing zeros leave at least one meaningful bit. */
  lemma {:induction false} ZerosLeaveOne(x: nat)
    requires x > 0
    ensures TrailingZeros(x) < BitLength(x)
  {
    if x % 2 == 0 {
      ZerosLeaveOne(x / 2);
    }
  }

  lemma MiddleNotEmpty(xor: uint64)
    requires xor > 0
    ensures LeadingZeros(xor) + TrailingZeros(xor) <= 63
  {
    ZerosLeaveOne(xor);
  }

  method LeadingZeros64(x: uint64) returns (n: nat)
    ensures n == LeadingZeros(x)
  {
    if x == 0 {
      return 64;
    }
    n := 0;
    var y := x;
    BitLengthAtMost(y, 63);
    BitLengthAtMost(y, 64);
    Pow2Values();
    while y < TWO_63
      invariant 0 < y < TWO_64 && n + LeadingZeros(y) == LeadingZeros(x)
      invariant BitLength(y) <= 63 <==> y < TWO_63
      decreases 64 - BitLength(y)
    {
      assert BitLength(2 * y) == 1 + BitLength(y);
      n := n + 1;
      y := 2 * y;
      BitLengthAtMost(y, 63);
    }
    BitLengthAtMost(y, 64);
  }

  method TrailingZeros64(x: uint64) returns (n: nat)
    ensures n == if x == 0 then 64 else TrailingZeros(x)
  {
    if x == 0 {
      return 64;
    }
    n := 0;
    var y: nat := x;
    while y % 2 == 0
      invariant 0 < y && n + TrailingZeros(y) == TrailingZeros(x)
      decreases y
    {
      n := n + 1;
      y := y / 2;
    }
  }

  // ----- encoding

  /** The zeros around the meaningful bits of the last XOR that opened a window; before
      the first one the code's leading count is 255, which nothing can reach. */
  datatype Window = Window(leading: nat, trailing: nat)

  const NO_WINDOW := Window(255, 0)

  predicate Reuses(w: Window, xor: uint64)
    requires xor > 0
  {
    LeadingZeros(xor) >= w.leading && TrailingZeros(xor) >= w.trailing
  }

  /** x >> k. */
  function Shr(x: nat, k: nat): nat {
    Quotient(x, Pow2(k))
  }

  function Quotient(x: nat, d: nat): nat
    requires d > 0
  {
    x / d
  }

  /** What one XOR leaves as the current window. */
  function WindowAfter(w: Window, xor: uint64): Window {
    if xor == 0 || Reuses(w, xor) then w else Window(LeadingZeros(xor), TrailingZeros(xor))
  }

  /** The code of one XOR under the current window. */
  function XorBits(w: Window, xor: uint64): seq<bit> {
    if xor == 0 then [0]
    else if Reuses(w, xor) then
      MiddleNotEmpty(xor);
      [1, 0] + ToBits(Shr(xor, w.trailing), 64 - w.leading - w.trailing)
    else
      [1, 1] + Opening(xor)
  }

  /** A new window: five bits of leading zeros, six of trailing, the meaningful bits. */
  function Opening(xor: uint64): (b: seq<bit>)
    requires xor > 0
    ensures |b| == 75 - LeadingZeros(xor) - TrailingZeros(xor)
  {
    MiddleNotEmpty(xor);
    var leading, trailing := LeadingZeros(xor), TrailingZeros(xor);
    ToBits(leading, 5) + ToBits(trailing, 6) + ToBits(Shr(xor, trailing), 64 - leading - trailing)
  }

  /** The codes of the values vs that follow prev. */
  function TailBits(w: Window, prev: uint64, vs: seq<uint64>): seq<bit>
    decreases |vs|
  {
    if vs == [] then []
    else
      var xor := Xor64(prev, vs[0]);
      XorBits(w, xor) + TailBits(WindowAfter(w, xor), vs[0], vs[1..])
  }

  /** The bytes of a value column. */
  function Encode(vs: seq<uint64>): seq<byte> {
    if vs == [] then [] else PutLE(vs[0], 8) + Pack(TailBits(NO_WINDOW, vs[0], vs[1..]))
  }

  method WriteXor(bw: BitWriter, xor: uint64, w: Window) returns (w': Window)
    requires bw.Valid()
    modifies bw
    ensures bw.Valid() && bw.content == old(bw.content) + XorBits(w, xor)
    ensures w' == WindowAfter(w, xor)
  {
    hide ToBits, Shr, Opening, LeadingZeros, TrailingZeros, Packs;
    if xor == 0 {
      bw.WriteBit(0);
      return w;
    }
    var leading := LeadingZeros64(xor);
    var trailing := TrailingZeros64(xor);
    MiddleNotEmpty(xor);
    bw.WriteBit(1);
    if leading >= w.leading && trailing >= w.trailing {
      bw.WriteBit(0);
      var middleBits := 64 - w.leading - w.trailing;
      bw.WriteBits(Shr(xor, w.trailing), middleBits);
      FlagsFirst(old(bw.content), 1, 0, ToBits(Shr(xor, w.trailing), middleBits));
      w' := w;
    } else {
      bw.WriteBit(1);
      WriteOpening(bw, leading, trailing, xor);
      FlagsFirst(old(bw.content), 1, 1, Opening(xor));
      w' := Window(leading, trailing);
    }
  }

  lemma FlagsFirst(written: seq<bit>, a: bit, b: bit, rest: seq<bit>)
    ensures written + [a] + [b] + rest == written + ([a, b] + rest)
  {
  }

  method WriteOpening(bw: BitWriter, leading: nat, trailing: nat, xor: uint64)
    requires bw.Valid() && xor > 0
    requires leading == LeadingZeros(xor) && trailing == TrailingZeros(xor)
    modifies bw
    ensures bw.Valid() && bw.content == old(bw.content) + Opening(xor)
  {
    hide ToBits, Shr, LeadingZeros, TrailingZeros, Packs;
    MiddleNotEmpty(xor);
    bw.WriteBits(leading, 5);
    bw.WriteBits(trailing, 6);
    bw.WriteBits(Shr(xor, trailing), 64 - leading - trailing);
  }

  method EncodeValues(points: seq<Point>) returns (out: seq<byte>)
    ensures out == Encode(Values(points))
  {
    hide XorBits, WindowAfter, Xor64, BitsOf, Pack, PutLE;
    if |points| == 0 {
      return [];
    }
    ghost var vs := Values(points);
    var bw := new BitWriter();
    bw.AppendBytes(PutLE(points[0].val, 8));
    var prevVal := points[0].val;
    var w := NO_WINDOW;
    ghost var goal := bw.content + TailBits(w, prevVal, vs[1..]);
    for i := 1 to |points|
      invariant bw.Valid() && fresh(bw)
      invariant prevVal == vs[i - 1]
      invariant bw.content + TailBits(w, prevVal, vs[i..]) == goal
    {
      var curVal := points[i].val;
      var xor := Xor64(prevVal, curVal);
      TailBitsStep(bw.content, w, prevVal, vs, i);
      w := WriteXor(bw, xor, w);
      prevVal := curVal;
    }
    assert bw.content == goal;
    PacksUnique(bw.buf, bw.content);
    ghost var tail := TailBits(NO_WINDOW, vs[0], vs[1..]);
    assert [] + BitsOf(PutLE(vs[0], 8)) == BitsOf(PutLE(vs[0], 8));
    PackAligned(PutLE(vs[0], 8), tail);
    out := bw.buf;
  }

  lemma TailBitsStep(written: seq<bit>, w: Window, prev: uint64, vs: seq<uint64>, i: nat)
    requires i < |vs|
    ensures var xor := Xor64(prev, vs[i]);
            written + TailBits(w, prev, vs[i..]) ==
            written + XorBits(w, xor) + TailBits(WindowAfter(w, xor), vs[i], vs[i + 1..])
  {
    hide XorBits, Xor64, WindowAfter;
    assert vs[i..][1..] == vs[i + 1..];
  }

  // ----- decoding

  /** x << k on a uint64. */
  function Shl64(x: nat, k: nat): (r: uint64) {
    (x * Pow2(k)) % TWO_64
  }

  /** One XOR read at pos under window w: its value, the next position and window. */
  function ReadXor(bits: seq<bit>, pos: nat, w: Window): (r: (uint64, nat, Window)) {
    var p1 := Next(bits, pos);
    var p2 := Next(bits, p1);
    if Peek(bits, pos) == 0 then (0, p1, w)
    else if Peek(bits, p1) == 0 then
      var (v, p) := ReadNumber(bits, p2, 64 - w.leading - w.trailing);
      (Shl64(v, w.trailing), p, w)
    else ReadOpening(bits, p2)
  }

  function ReadOpening(bits: seq<bit>, pos: nat): (uint64, nat, Window) {
    var (leading, p1) := ReadNumber(bits, pos, 5);
    var (trailing, p2) := ReadNumber(bits, p1, 6);
    var (v, p) := ReadNumber(bits, p2, 64 - leading - trailing);
    (Shl64(v, trailing), p, Window(leading, trailing))
  }

  /** n more values after prev. */
  function DecodeTail(bits: seq<bit>, pos: nat, w: Window, prev: uint64, n: nat): (vs: seq<uint64>)
    ensures |vs| == n
    decreases n
  {
    if n == 0 then []
    else
      var (xor, p, w') := ReadXor(bits, pos, w);
      var v := Xor64(prev, xor);
      [v] + DecodeTail(bits, p, w', v, n - 1)
  }

  function Decode(data: seq<byte>, n: nat): (r: Result<seq<uint64>>)
    ensures r.Ok? ==> |r.value| == n
  {
    if n == 0 then Ok([])
    else if |data| < 8 then Corrupt
    else
      var v0 := GetU64(data[..8]);
      Ok([v0] + DecodeTail(BitsOf(data[8..]), 0, NO_WINDOW, v0, n - 1))
  }

  method DecodeXor(br: BitReader, w: Window) returns (xor: uint64, w': Window)
    modifies br
    ensures (xor, br.pos, w') == ReadXor(BitsOf(br.data), old(br.pos), w)
  {
    hide BitsOf;
    var b := br.ReadBit();
    if b == 0 {
      return 0, w;
    }
    b := br.ReadBit();
    if b == 0 {
      var middleBits := 64 - w.leading - w.trailing;
      var valBits := br.ReadBits(middleBits);
      xor, w' := Shl64(valBits, w.trailing), w;
    } else {
      var leading := br.ReadBits(5);
      var trailing := br.ReadBits(6);
      var middleBits := 64 - (leading as int) - (trailing as int);
      var valBits := br.ReadBits(middleBits);
      xor, w' := Shl64(valBits, trailing), Window(leading, trailing);
    }
  }

  method DecodeValues(data: seq<byte>, numPoints: nat) returns (r: Result<seq<uint64>>)
    ensures r == Decode(data, numPoints)
  {
    hide BitsOf, ReadXor, Xor64;
    if numPoints == 0 {
      return Ok([]);
    }
    if |data| < 8 {
      return Corrupt;
    }
    var vals := [GetU64(data[..8])];
    if numPoints == 1 {
      assert vals + [] == vals;
      return Ok(vals);
    }
    var br := new BitReader(data[8..]);
    var prevVal := vals[0];
    var w := NO_WINDOW;
    ghost var goal := vals + DecodeTail(BitsOf(br.data), br.pos, w, prevVal, numPoints - 1);
    for i := 1 to numPoints
      invariant fresh(br) && br.data == data[8..] && |vals| == i
      invariant goal == vals + DecodeTail(BitsOf(br.data), br.pos, w, prevVal, numPoints - i)
    {
      ghost var before, wBefore := br.pos, w;
      var xor: uint64;
      xor, w := DecodeXor(br, w);
      ghost var rest := DecodeTail(BitsOf(br.data), br.pos, w, Xor64(prevVal, xor), numPoints - i - 1);
      assert vals + ([Xor64(prevVal, xor)] + rest) == vals + [Xor64(prevVal, xor)] + rest;
      prevVal := Xor64(prevVal, xor);
      vals := vals + [prevVal];
    }
    assert vals + [] == vals;
    r := Ok(vals);
  }
}
