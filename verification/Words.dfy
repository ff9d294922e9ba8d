/** Fixed-width machine words as bounded integers: bytes, Go's uint32, uint64 and int64,
    two's complement wrap-around, little-endian layout and bitwise exclusive or. */
module Words {
  const TWO_32 := 0x1_0000_0000
  const TWO_63 := 0x8000_0000_0000_0000
  const TWO_64 := 0x1_0000_0000_0000_0000
  const MAX_INT64: int64 := TWO_63 - 1
  const MIN_INT64: int64 := -TWO_63

  type byte = x: int | 0 <= x < 256
  type bit = x: int | 0 <= x < 2
  type uint32 = x: int | 0 <= x < TWO_32
  type uint64 = x: int | 0 <= x < TWO_64
  type int64 = x: int | -TWO_63 <= x < TWO_63

  /** The outcome of reading stored bytes: a value, the error the code returns, or a
      run-time panic of the Go slice operations. */
  datatype Result<+T> = Ok(value: T) | Corrupt | Panic {
    predicate IsFailure() {
      !Ok?
    }

    function PropagateFailure<U>(): Result<U>
      requires IsFailure()
    {
      if Corrupt? then Corrupt else Panic
    }

    function Extract(): T
      requires Ok?
    {
      value
    }
  }

  datatype Option<+T> = None | Some(value: T)

  /** The int64 that Go's conversion or overflowing arithmetic leaves for an exact value. */
  function Wrap(x: int): (r: int64)
    ensures (x - r) % TWO_64 == 0
  {
    (x + TWO_63) % TWO_64 - TWO_63
  }

  /** Two integers that differ by a multiple of 2^64 wrap to the same int64. */
  lemma WrapUnique(x: int, r: int64)
    requires (x - r) % TWO_64 == 0
    ensures Wrap(x) == r
  {
  }

  /** Adding a wrapped difference restores the minuend, whatever overflowed. */
  lemma WrapDifference(a: int64, b: int64)
    ensures Add64(b, Sub64(a, b)) == a
  {
    var d: int := Sub64(a, b);
    assert ((a - b) - d) % TWO_64 == 0;
    WrapUnique(b + d, a);
  }

  /** Go's int64 addition and subtraction. */
  function Add64(a: int64, b: int64): (r: int64) {
    Wrap(a as int + b as int)
  }

  function Sub64(a: int64, b: int64): (r: int64) {
    Wrap(a as int - b as int)
  }

  function ToUnsigned(x: int64): (r: uint64) {
    if x < 0 then x + TWO_64 else x
  }

  function ToSigned(x: uint64): (r: int64)
    ensures ToUnsigned(r) == x
  {
    if x < TWO_63 then x else x - TWO_64
  }

  /** Two's complement: the same number modulo 2^64. */
  lemma TwosComplement(x: int64)
    ensures (ToUnsigned(x) - x) % TWO_64 == 0
  {
  }

  lemma SignedRoundTrip(x: int64)
    ensures ToSigned(ToUnsigned(x)) == x
  {
  }

  // ----- powers of two

  function Pow2(n: nat): (p: nat)
    ensures p > 0
  {
    if n == 0 then 1 else 2 * Pow2(n - 1)
  }

  lemma {:induction false} Pow2Add(m: nat, n: nat)
    ensures Pow2(m + n) == Pow2(m) * Pow2(n)
  {
    if m > 0 {
      Pow2Add(m - 1, n);
      MulAssoc(2, Pow2(m - 1), Pow2(n));
    }
  }

  lemma {:induction false} Pow2Monotone(m: nat, n: nat)
    requires m <= n
    ensures Pow2(m) <= Pow2(n)
  {
    if m < n {
      Pow2Monotone(m, n - 1);
    }
  }

  lemma SmallPow2()
    ensures Pow2(1) == 2 && Pow2(2) == 4 && Pow2(3) == 8 && Pow2(4) == 16
    ensures Pow2(5) == 32 && Pow2(6) == 64 && Pow2(7) == 128 && Pow2(8) == 256
    ensures Pow2(9) == 512 && Pow2(12) == 4096
  {
    assert Pow2(4) == 16;
    assert Pow2(8) == 256;
    assert Pow2(12) == 4096;
  }

  lemma Pow2Values()
    ensures Pow2(1) == 2 && Pow2(2) == 4 && Pow2(3) == 8 && Pow2(4) == 16
    ensures Pow2(5) == 32 && Pow2(6) == 64 && Pow2(7) == 128 && Pow2(8) == 256
    ensures Pow2(9) == 512 && Pow2(12) == 4096 && Pow2(32) == TWO_32
    ensures Pow2(63) == TWO_63 && Pow2(64) == TWO_64
  {
    SmallPow2();
    hide Pow2;
    assert Pow2(16) == 65536 by { Pow2Add(8, 8); }
    Pow2Add(16, 16);
    Pow2Add(32, 32);
    Pow2Step(63);
  }

  lemma Pow2Step(n: nat)
    ensures Pow2(n + 1) == 2 * Pow2(n)
  {
  }

  lemma MulAssoc(a: int, b: int, c: int)
    ensures (a * b) * c == a * (b * c)
  {
  }

  lemma MulDistribute(a: int, b: int, c: int)
    ensures (a + b) * c == a * c + b * c
  {
  }

  lemma MulMonotone(a: int, b: int, c: int)
    requires a <= b && 0 <= c
    ensures a * c <= b * c
  {
  }

  /** The quotient and remainder of q * d + r. */
  lemma DivModUnique(x: int, d: int, q: int, r: int)
    requires 0 <= r < d && x == q * d + r
    ensures x / d == q && x % d == r
  {
    var q', r' := x / d, x % d;
    assert x == d * q' + r';
    if q' < q {
      MulMonotone(q' + 1, q, d);
      MulDistribute(q', 1, d);
      assert false;
    }
    if q' > q {
      MulMonotone(q + 1, q', d);
      MulDistribute(q, 1, d);
      assert false;
    }
  }

  // ----- little-endian layout

  /** The n low-order bytes of x, least significant first. */
  function PutLE(x: nat, n: nat): (s: seq<byte>)
    ensures |s| == n
  {
    if n == 0 then [] else [x % 256] + PutLE(x / 256, n - 1)
  }

  function GetLE(s: seq<byte>): nat {
    if s == [] then 0 else s[0] + 256 * GetLE(s[1..])
  }

  /** Byte i is the digit of weight 256^i. */
  lemma {:induction false} PutLEByte(x: nat, n: nat, i: nat)
    requires i < n
    ensures PutLE(x, n)[i] == (x / Pow2(8 * i)) % 256
  {
    if i > 0 {
      PutLEByte(x / 256, n - 1, i - 1);
      assert Pow2(8 * i) == 256 * Pow2(8 * (i - 1)) by {
        Pow2Add(8, 8 * (i - 1));
        Pow2Values();
      }
      DivTwice(x, 256, Pow2(8 * (i - 1)));
    }
  }

  lemma DivTwice(x: nat, a: nat, b: nat)
    requires a > 0 && b > 0
    ensures a * b > 0 && x / (a * b) == (x / a) / b
  {
    var q := x / a;
    var m, r := q / b, q % b;
    MulMonotone(1, a, b);
    MulMonotone(0, r, a);
    MulMonotone(r + 1, b, a);
    MulDistribute(r, 1, a);
    calc {
      x;
      a * q + x % a;
      a * (b * m + r) + x % a;
      a * (b * m) + (r * a + x % a);
      { MulAssoc(a, b, m); }
      m * (a * b) + (r * a + x % a);
    }
    DivModUnique(x, a * b, m, r * a + x % a);
  }

  /** The bytes of a number are the only ones that spell it. */
  lemma {:induction false} PutGetLE(s: seq<byte>)
    ensures PutLE(GetLE(s), |s|) == s
  {
    if s != [] {
      PutGetLE(s[1..]);
      assert GetLE(s) % 256 == s[0] && GetLE(s) / 256 == GetLE(s[1..]);
      assert [s[0]] + s[1..] == s;
    }
  }

  /** Splitting off the low base-256 digit commutes with truncation to d high digits. */
  lemma SplitDigit(x: nat, d: nat)
    requires d > 0
    ensures x % (256 * d) == x % 256 + 256 * ((x / 256) % d)
  {
    var h, l := x / 256, x % 256;
    var q, r := h / d, h % d;
    calc {
      x;
      256 * h + l;
      256 * (d * q + r) + l;
      256 * (d * q) + (256 * r + l);
      { MulAssoc(256, d, q); }
      q * (256 * d) + (256 * r + l);
    }
    DivModUnique(x, 256 * d, q, 256 * r + l);
  }

  lemma {:induction false} GetPutLE(x: nat, n: nat)
    ensures GetLE(PutLE(x, n)) == x % Pow2(8 * n)
  {
    if n > 0 {
      GetPutLE(x / 256, n - 1);
      assert PutLE(x, n)[1..] == PutLE(x / 256, n - 1);
      assert Pow2(8 * n) == 256 * Pow2(8 * (n - 1)) by {
        Pow2Add(8, 8 * (n - 1));
        Pow2Values();
      }
      SplitDigit(x, Pow2(8 * (n - 1)));
    }
  }

  lemma LE64RoundTrip(x: uint64)
    ensures GetLE(PutLE(x, 8)) == x
  {
    GetPutLE(x, 8);
    Pow2Values();
  }

  lemma LE32RoundTrip(x: uint32)
    ensures GetLE(PutLE(x, 4)) == x
  {
    GetPutLE(x, 4);
    Pow2Values();
  }

  lemma {:induction false} GetLEBound(s: seq<byte>)
    ensures GetLE(s) < Pow2(8 * |s|)
  {
    if s != [] {
      GetLEBound(s[1..]);
      Pow2Add(8, 8 * |s[1..]|);
      Pow2Values();
    }
  }

  function GetU32(s: seq<byte>): (r: uint32)
    requires |s| == 4
  {
    GetLEBound(s);
    Pow2Values();
    GetLE(s)
  }

  function GetU64(s: seq<byte>): (r: uint64)
    requires |s| == 8
  {
    GetLEBound(s);
    Pow2Values();
    GetLE(s)
  }

  // ----- exclusive or

  /** Bitwise exclusive or of two non-negative integers. */
  function Xor(a: nat, b: nat): nat
    decreases a + b
  {
    if a == 0 then b
    else if b == 0 then a
    else 2 * Xor(a / 2, b / 2) + (if a % 2 == b % 2 then 0 else 1)
  }

  lemma {:induction false} XorZero(a: nat, b: nat)
    ensures Xor(a, b) == 0 <==> a == b
    decreases a + b
  {
    if a != 0 && b != 0 {
      XorZero(a / 2, b / 2);
    }
  }

  lemma XorHalves(a: nat, b: nat)
    ensures Xor(a, b) / 2 == Xor(a / 2, b / 2)
    ensures Xor(a, b) % 2 == (if a % 2 == b % 2 then 0 else 1)
  {
  }

  lemma {:induction false} XorInvolution(a: nat, b: nat)
    ensures Xor(a, Xor(a, b)) == b
    decreases a + b
  {
    var x := Xor(a, b);
    XorHalves(a, b);
    XorHalves(a, x);
    if a != 0 && b != 0 {
      XorInvolution(a / 2, b / 2);
    } else if b == 0 {
      XorZero(a, a);
    }
  }

  lemma {:induction false} XorBound(a: nat, b: nat, n: nat)
    requires a < Pow2(n) && b < Pow2(n)
    ensures Xor(a, b) < Pow2(n)
  {
    if a != 0 && b != 0 {
      XorBound(a / 2, b / 2, n - 1);
    }
  }

  function Xor64(a: uint64, b: uint64): (x: uint64)
    ensures x == Xor(a, b)
  {
    Pow2Values();
    XorBound(a, b, 64);
    Xor(a, b)
  }
}
