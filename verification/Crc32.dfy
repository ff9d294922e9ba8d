/** CRC-32 with the IEEE polynomial (hash/crc32), bit by bit, and the errors it detects. */
module Crc32 {
  import opened Words

  const POLYNOMIAL: uint32 := 0xEDB8_8320

  function Xor32(a: uint32, b: uint32): (x: uint32)
    ensures x == Xor(a, b)
  {
    Pow2Values();
    XorBound(a, b, 32);
    Xor(a, b)
  }

  /** One bit leaves the register; an odd one folds the polynomial in. */
  function Shift(c: uint32): uint32 {
    if c % 2 == 0 then c / 2 else Xor32(c / 2, POLYNOMIAL)
  }

  function Shifts(c: uint32, n: nat): uint32 {
    if n == 0 then c else Shift(Shifts(c, n - 1))
  }

  function Register(c: uint32, data: seq<byte>): uint32 {
    if data == [] then c
    else
      var n := |data| - 1;
      Shifts(Xor32(Register(c, data[..n]), data[n]), 8)
  }

  function Complement(c: uint32): uint32 {
    TWO_32 - 1 - c
  }

  /** crc32.Update. */
  function Update(crc: uint32, data: seq<byte>): uint32 {
    Complement(Register(Complement(crc), data))
  }

  // ----- streaming

  lemma {:induction false} RegisterConcat(c: uint32, a: seq<byte>, b: seq<byte>)
    ensures Register(c, a + b) == Register(Register(c, a), b)
  {
    hide Shifts, Xor32;
    if b == [] {
      assert a + b == a;
    } else {
      var n := |b| - 1;
      assert (a + b)[..|a| + n] == a + b[..n];
      RegisterConcat(c, a, b[..n]);
    }
  }

  /** A checksum may be computed piece by piece. */
  lemma UpdateConcat(crc: uint32, a: seq<byte>, b: seq<byte>)
    ensures Update(crc, a + b) == Update(Update(crc, a), b)
  {
    hide Register;
    RegisterConcat(Complement(crc), a, b);
  }

  // ----- error detection

  /** A number with bit n set keeps it under an exclusive or with a smaller one. */
  lemma {:induction false} XorKeepsTop(x: nat, p: nat, n: nat)
    requires x < Pow2(n) <= p
    ensures Xor(x, p) >= Pow2(n)
    decreases n
  {
    if x != 0 {
      XorKeepsTop(x / 2, p / 2, n - 1);
      XorHalves(x, p);
    }
  }

  lemma XorCancels(a: nat, b: nat, p: nat)
    requires Xor(p, a) == Xor(p, b)
    ensures a == b
  {
    XorInvolution(p, a);
    XorInvolution(p, b);
  }

  lemma {:induction false} XorSymmetric(a: nat, b: nat)
    ensures Xor(a, b) == Xor(b, a)
    decreases a + b
  {
    if a != 0 && b != 0 {
      XorSymmetric(a / 2, b / 2);
    }
  }

  /** The polynomial's top bit tells whether it was folded in. */
  lemma ShiftFolds(c: uint32)
    ensures Shift(c) >= 0x8000_0000 <==> c % 2 == 1
  {
    if c % 2 == 1 {
      assert Pow2(31) == 0x8000_0000 by {
        hide Pow2;
        Pow2Values();
        Pow2Step(31);
      }
      hide Pow2;
      XorKeepsTop(c / 2, POLYNOMIAL, 31);
    }
  }

  lemma ShiftInjective(a: uint32, b: uint32)
    requires Shift(a) == Shift(b)
    ensures a == b
  {
    hide Xor;
    ShiftFolds(a);
    ShiftFolds(b);
    if a % 2 == 1 {
      XorSymmetric(a / 2, POLYNOMIAL);
      XorSymmetric(b / 2, POLYNOMIAL);
      XorCancels(a / 2, b / 2, POLYNOMIAL);
    }
  }

  lemma {:induction false} ShiftsInjective(a: uint32, b: uint32, n: nat)
    requires Shifts(a, n) == Shifts(b, n)
    ensures a == b
  {
    hide Shift;
    if n > 0 {
      ShiftInjective(Shifts(a, n - 1), Shifts(b, n - 1));
      ShiftsInjective(a, b, n - 1);
    }
  }

  /** Different registers stay different over the same bytes. */
  lemma {:induction false} RegisterInjective(a: uint32, b: uint32, data: seq<byte>)
    requires Register(a, data) == Register(b, data)
    ensures a == b
  {
    hide Shifts, Xor;
    if data != [] {
      var n := |data| - 1;
      var x, y := Register(a, data[..n]), Register(b, data[..n]);
      ShiftsInjective(Xor32(x, data[n]), Xor32(y, data[n]), 8);
      XorSymmetric(x, data[n]);
      XorSymmetric(y, data[n]);
      XorCancels(x, y, data[n]);
      RegisterInjective(a, b, data[..n]);
    }
  }

  /** A change of one byte always changes the checksum. */
  lemma OneByteDetected(crc: uint32, data: seq<byte>, i: nat, b: byte)
    requires i < |data| && b != data[i]
    ensures Update(crc, data[i := b]) != Update(crc, data)
  {
    hide Register, Shifts, Xor;
    var c, rest := Complement(crc), data[i + 1..];
    var before := Register(c, data[..i]);
    assert data == data[..i] + [data[i]] + rest && data[i := b] == data[..i] + [b] + rest;
    RegisterConcat(c, data[..i] + [data[i]], rest);
    RegisterConcat(c, data[..i] + [b], rest);
    RegisterSnoc(c, data[..i], data[i]);
    RegisterSnoc(c, data[..i], b);
    if Update(crc, data[i := b]) == Update(crc, data) {
      RegisterInjective(Register(c, data[..i] + [data[i]]), Register(c, data[..i] + [b]), rest);
      ShiftsInjective(Xor32(before, data[i]), Xor32(before, b), 8);
      XorCancels(data[i], b, before);
    }
  }

  lemma RegisterSnoc(c: uint32, data: seq<byte>, b: byte)
    ensures Register(c, data + [b]) == Shifts(Xor32(Register(c, data), b), 8)
  {
    assert (data + [b])[..|data|] == data;
  }

  // ----- known answers

  lemma EvenShift(c: uint32)
    requires c % 2 == 0
    ensures Shift(c) == c / 2
  {
  }

  /** Entry 8 of the IEEE table, seen through the two complements. */
  lemma KnownAnswer()
    ensures Update(0xFFFF_FFFF, [8]) == 0xF124_77CD
  {
    assert [8][..0] == [] && Register(0, []) == 0 && Xor32(0, 8) == 8;
    hide Xor32;
    assert Shift(1) == Xor32(0, POLYNOMIAL) == POLYNOMIAL;
    hide Shift;
    EvenShift(8);
    EvenShift(4);
    EvenShift(2);
    EvenShift(0xEDB8_8320);
    EvenShift(0x76DC_4190);
    EvenShift(0x3B6E_20C8);
    EvenShift(0x1DB7_1064);
    assert Shifts(8, 4) == POLYNOMIAL by {
      assert Shifts(8, 2) == 2;
      assert Shifts(8, 3) == 1;
    }
    assert Shifts(8, 6) == 0x3B6E_20C8 by {
      assert Shifts(8, 5) == 0x76DC_4190;
    }
    assert Shifts(8, 8) == 0x0EDB_8832 by {
      assert Shifts(8, 7) == 0x1DB7_1064;
    }
  }
}
