/** Go's encoding/binary variable-length integers: base-128 digits, least significant
    first, with a continuation bit, and the zigzag map for signed values. */
module Varint {
  import opened Words

  const MAX_VARINT_LEN := 10

  /** binary.PutUvarint. */
  function PutUvarint(x: nat): (s: seq<byte>)
    ensures |s| >= 1
  {
    if x < 128 then [x] else [x % 128 + 128] + PutUvarint(x / 128)
  }

  /** binary.Uvarint from digit position i on: the value and the number of bytes used;
      the number is 0 when the input ends first and negative on overflow. */
  function UvarintFrom(s: seq<byte>, i: nat): (r: (nat, int))
    requires i <= MAX_VARINT_LEN
    ensures r.1 <= |s|
    decreases |s|
  {
    if s == [] then (0, 0)
    else if i == MAX_VARINT_LEN then (0, -1)
    else if s[0] < 128 then
      if i == MAX_VARINT_LEN - 1 && s[0] > 1 then (0, -1) else (s[0], 1)
    else
      var (v, n) := UvarintFrom(s[1..], i + 1);
      if n <= 0 then (0, n) else (s[0] - 128 + 128 * v, n + 1)
  }

  /** 128 to the power n. */
  function Pow128(n: nat): (p: nat)
    ensures p > 0
  {
    if n == 0 then 1 else 128 * Pow128(n - 1)
  }

  lemma Pow128Values()
    ensures Pow128(1) == 128 && Pow128(2) == 16384
    ensures Pow128(8) == 0x100_0000_0000_0000
    ensures Pow128(9) == TWO_63 && TWO_64 == 2 * Pow128(9)
  {
    assert Pow128(3) == 0x20_0000;
    assert Pow128(6) == 0x400_0000_0000;
  }

  /** Every value is at most as long as its number of base-128 digits. */
  lemma {:induction false} UvarintLength(x: nat, n: nat)
    requires n >= 1
    ensures |PutUvarint(x)| <= n <==> x < Pow128(n)
    decreases n
  {
    if n == 1 {
      assert Pow128(1) == 128;
    } else if x < 128 {
      assert Pow128(n) >= 128;
    } else {
      UvarintLength(x / 128, n - 1);
    }
  }

  /** The bytes are the base-128 digits, lowest first, all but the last with 128 added, and
      the last digit is not a superfluous zero. */
  lemma {:induction false} UvarintDigits(x: nat, i: nat)
    requires i < |PutUvarint(x)|
    ensures var n := |PutUvarint(x)|;
            && PutUvarint(x)[i] == (x / Pow128(i)) % 128 + (if i < n - 1 then 128 else 0)
            && x < Pow128(n) && (n > 1 ==> Pow128(n - 1) <= x)
    decreases i
  {
    var n := |PutUvarint(x)|;
    UvarintLength(x, n);
    if n > 1 {
      UvarintLength(x, n - 1);
    }
    if i > 0 {
      UvarintDigits(x / 128, i - 1);
      DivTwice(x, 128, Pow128(i - 1));
    }
  }

  /** Zigzag: -1 is 1, 1 is 2, and so on outwards. */
  lemma VarintDigits(x: int64)
    ensures PutVarint(x) == PutUvarint(if x < 0 then -2 * x - 1 else 2 * x)
  {
  }

  /** Values that fit the digits left before position 10 read back, whatever follows. */
  lemma {:induction false} UvarintFromRoundTrip(x: nat, i: nat, rest: seq<byte>)
    requires i < MAX_VARINT_LEN
    requires x < 2 * Pow128(MAX_VARINT_LEN - 1 - i)
    ensures UvarintFrom(PutUvarint(x) + rest, i) == (x, |PutUvarint(x)|)
    decreases x
  {
    var s := PutUvarint(x) + rest;
    if x < 128 {
      assert s[0] == x;
    } else {
      assert s[1..] == PutUvarint(x / 128) + rest;
      UvarintFromRoundTrip(x / 128, i + 1, rest);
    }
  }

  lemma {:induction false} UvarintFromBound(s: seq<byte>, i: nat)
    requires i <= MAX_VARINT_LEN
    ensures var v := UvarintFrom(s, i).0;
            if i < MAX_VARINT_LEN then v < 2 * Pow128(MAX_VARINT_LEN - 1 - i) else v == 0
    decreases |s|
  {
    if s != [] && i < MAX_VARINT_LEN {
      UvarintFromBound(s[1..], i + 1);
      if i == MAX_VARINT_LEN - 1 {
        var r := UvarintFrom(s[1..], i + 1);
        assert r.1 <= 0;
      } else {
        assert Pow128(MAX_VARINT_LEN - 1 - i) == 128 * Pow128(MAX_VARINT_LEN - 1 - (i + 1));
      }
    }
  }

  /** binary.Uvarint on the whole slice. */
  function ReadUvarint(s: seq<byte>): (r: (uint64, int))
    ensures r.1 <= |s|
  {
    UvarintFromBound(s, 0);
    Pow128Values();
    UvarintFrom(s, 0)
  }

  lemma UvarintRoundTrip(x: uint64, rest: seq<byte>)
    ensures ReadUvarint(PutUvarint(x) + rest) == (x, |PutUvarint(x)|)
    ensures |PutUvarint(x)| <= MAX_VARINT_LEN
  {
    Pow128Values();
    UvarintFromRoundTrip(x, 0, rest);
    UvarintLength(x, MAX_VARINT_LEN);
    assert Pow128(10) == 128 * Pow128(9);
  }

  /** The zigzag map: twice the value, complemented when negative. */
  function ZigZag(x: int64): (u: uint64) {
    if x < 0 then -2 * x - 1 else 2 * x
  }

  function UnZigZag(u: uint64): (x: int64) {
    if u % 2 == 0 then u / 2 else -(u / 2) - 1
  }

  /** binary.PutVarint. */
  function PutVarint(x: int64): (s: seq<byte>)
    ensures |s| >= 1
  {
    PutUvarint(ZigZag(x))
  }

  /** binary.Varint. A well-formed encoding (n > 0) always decodes to an int64. */
  function ReadVarint(s: seq<byte>): (r: (int64, int))
    ensures r.1 <= |s|
  {
    var (u, n) := ReadUvarint(s);
    (UnZigZag(u), n)
  }

  /** A signed varint followed by anything reads back, and takes at most ten bytes. */
  lemma VarintRoundTrip(x: int64, rest: seq<byte>)
    ensures ReadVarint(PutVarint(x) + rest) == (x, |PutVarint(x)|)
    ensures |PutVarint(x)| <= MAX_VARINT_LEN
  {
    UvarintRoundTrip(ZigZag(x), rest);
  }

  /** Deltas in [-2^55, 2^55) are exactly those whose varint takes at most eight bytes. */
  lemma VarintAtMostEight(x: int64)
    ensures |PutVarint(x)| <= 8 <==> -0x80_0000_0000_0000 <= x < 0x80_0000_0000_0000
  {
    Pow128Values();
    UvarintLength(ZigZag(x), 8);
  }
}
