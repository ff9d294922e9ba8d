/** The value codec's windows in plain arithmetic (internal/segment/gorilla.go): which XORs
    reuse the window, what each costs, and columns that stay inside their first one. */
module GorillaWindows {
  import opened Words
  import opened BitStream
  import opened GorillaValues
  import opened GorillaValuesRoundTrip

  /** x has at least l leading zeros, as a uint64, and t trailing ones. */
  predicate Inside(x: nat, l: nat, t: nat) {
    l <= 64 && x < Pow2(64 - l) && x % Pow2(t) == 0
  }

  /** x has exactly l leading and t trailing zeros. */
  predicate Spans(x: nat, l: nat, t: nat) {
    l <= 63 && Pow2(63 - l) <= x < Pow2(64 - l) && x % Pow2(t) == 0 && x % Pow2(t + 1) != 0
  }

  lemma LeadingZerosAtLeast(x: uint64, l: nat)
    ensures LeadingZeros(x) >= l <==> l <= 64 && x < Pow2(64 - l)
  {
    if l <= 64 {
      BitLengthAtMost(x, 64 - l);
    }
  }

  lemma {:induction false} TrailingZerosAtLeast(x: nat, t: nat)
    requires x > 0
    ensures TrailingZeros(x) >= t <==> x % Pow2(t) == 0
  {
    if t > 0 {
      if x % 2 == 0 {
        TrailingZerosAtLeast(x / 2, t - 1);
        SplitBit(x, Pow2(t - 1));
      } else {
        SplitBit(x, Pow2(t - 1));
      }
    }
  }

  lemma SplitBit(x: nat, d: nat)
    requires d > 0
    ensures x % (2 * d) == x % 2 + 2 * ((x / 2) % d)
  {
    var h, b := x / 2, x % 2;
    var q, r := h / d, h % d;
    MulAssoc(2, d, q);
    assert x == q * (2 * d) + (2 * r + b) by {
      assert h == d * q + r;
      assert q * (2 * d) == 2 * (d * q);
    }
    DivModUnique(x, 2 * d, q, 2 * r + b);
  }

  /** A window is reused by exactly the XORs whose one bits lie inside it. */
  lemma ReusesExactly(w: Window, xor: uint64)
    requires xor > 0
    ensures Reuses(w, xor) <==> Inside(xor, w.leading, w.trailing)
  {
    hide LeadingZeros, TrailingZeros, Pow2;
    LeadingZerosAtLeast(xor, w.leading);
    TrailingZerosAtLeast(xor, w.trailing);
  }

  lemma SpansExactly(xor: uint64, l: nat, t: nat)
    requires xor > 0
    ensures Spans(xor, l, t) <==> LeadingZeros(xor) == l && TrailingZeros(xor) == t
  {
    hide LeadingZeros, TrailingZeros, Pow2;
    LeadingZerosAtLeast(xor, l);
    LeadingZerosAtLeast(xor, l + 1);
    TrailingZerosAtLeast(xor, t);
    TrailingZerosAtLeast(xor, t + 1);
    MiddleNotEmpty(xor);
  }

  /** The bits of one code: one for a repeated value, two and the window's width inside the
      window, and otherwise thirteen and the width of the new window. */
  lemma CodeLength(w: Window, xor: uint64, l: nat, t: nat)
    requires xor > 0 ==> Spans(xor, l, t)
    ensures |XorBits(w, xor)| ==
            if xor == 0 then 1
            else if Inside(xor, w.leading, w.trailing) then 66 - w.leading - w.trailing
            else 77 - l - t
    ensures WindowAfter(w, xor) == if xor == 0 || Inside(xor, w.leading, w.trailing) then w else Window(l, t)
  {
    hide LeadingZeros, TrailingZeros, Inside, Spans, ToBits, Shr, Pow2;
    if xor > 0 {
      ReusesExactly(w, xor);
      SpansExactly(xor, l, t);
      MiddleNotEmpty(xor);
    }
  }

  // ----- columns that stay in one window

  /** What a stretch of values costs when every change costs the same. */
  function Cost(prev: uint64, vs: seq<uint64>, change: nat): nat
    decreases |vs|
  {
    if vs == [] then 0 else (if vs[0] == prev then 1 else change) + Cost(vs[0], vs[1..], change)
  }

  /** Every change lies inside the window of l and t. */
  predicate Confined(prev: uint64, vs: seq<uint64>, l: nat, t: nat)
    decreases |vs|
  {
    vs != [] ==> Inside(Xor64(prev, vs[0]), l, t) && Confined(vs[0], vs[1..], l, t)
  }

  lemma {:induction false} ConfinedTail(prev: uint64, vs: seq<uint64>, l: nat, t: nat)
    requires l + t <= 63 && Confined(prev, vs, l, t)
    ensures TailFits(Window(l, t), prev, vs)
    ensures |TailBits(Window(l, t), prev, vs)| == Cost(prev, vs, 66 - l - t)
    decreases |vs|
  {
    hide Inside, XorBits, WindowAfter, Xor64, Reuses;
    if vs != [] {
      var xor := Xor64(prev, vs[0]);
      InsideStep(Window(l, t), xor);
      XorZero(prev, vs[0]);
      ConfinedTail(vs[0], vs[1..], l, t);
    }
  }

  lemma InsideStep(w: Window, xor: uint64)
    requires Inside(xor, w.leading, w.trailing)
    ensures Fits(w, xor) && WindowAfter(w, xor) == w
    ensures |XorBits(w, xor)| == if xor == 0 then 1 else 66 - w.leading - w.trailing
  {
    hide Inside, LeadingZeros, TrailingZeros, Spans;
    if xor > 0 {
      ReusesExactly(w, xor);
      SpansExactly(xor, LeadingZeros(xor), TrailingZeros(xor));
    }
    CodeLength(w, xor, LeadingZeros(xor), if xor > 0 then TrailingZeros(xor) else 0);
  }

  function Repeated(v: uint64, n: nat): (vs: seq<uint64>)
    ensures |vs| == n
  {
    seq(n, i => v)
  }

  /** The first change opens the window, however often the first value stood before it. */
  lemma {:induction false} OpeningTail(v: uint64, k: nat, u: uint64, later: seq<uint64>, l: nat, t: nat)
    requires l <= 31 && u != v && Spans(Xor64(v, u), l, t) && Confined(u, later, l, t)
    ensures l + t <= 63
    ensures TailFits(NO_WINDOW, v, Repeated(v, k) + [u] + later)
    ensures |TailBits(NO_WINDOW, v, Repeated(v, k) + [u] + later)| == k + (77 - l - t) + Cost(u, later, 66 - l - t)
    decreases k
  {
    hide XorBits, WindowAfter, Xor64, Reuses, Spans, Confined, Repeated;
    var vs := Repeated(v, k) + [u] + later;
    var xor := Xor64(v, u);
    XorZero(v, u);
    OpeningStep(xor, l, t);
    if k == 0 {
      assert vs[0] == u && vs[1..] == later;
      ConfinedTail(u, later, l, t);
    } else {
      RepeatedMore(v, k);
      assert vs[0] == v && vs[1..] == Repeated(v, k - 1) + [u] + later;
      XorZero(v, v);
      RepeatStep();
      OpeningTail(v, k - 1, u, later, l, t);
    }
  }

  lemma RepeatedMore(v: uint64, k: nat)
    requires k > 0
    ensures Repeated(v, k) == [v] + Repeated(v, k - 1)
  {
  }

  lemma RepeatStep()
    ensures Fits(NO_WINDOW, 0) && WindowAfter(NO_WINDOW, 0) == NO_WINDOW && |XorBits(NO_WINDOW, 0)| == 1
  {
  }

  lemma OpeningStep(xor: uint64, l: nat, t: nat)
    requires xor > 0 && l <= 31 && Spans(xor, l, t)
    ensures l + t <= 63 && Fits(NO_WINDOW, xor) && WindowAfter(NO_WINDOW, xor) == Window(l, t)
    ensures |XorBits(NO_WINDOW, xor)| == 77 - l - t
  {
    hide LeadingZeros, TrailingZeros, Spans, Pow2;
    CodeLength(NO_WINDOW, xor, l, t);
    SpansExactly(xor, l, t);
    MiddleNotEmpty(xor);
  }

  /** A column whose first change has l <= 31 leading and t trailing zeros, and whose later
      changes all lie inside that window, reads back whatever bytes follow it; each change
      costs 66 - l - t bits, the first one eleven more, each repetition one. */
  lemma WindowRestores(v: uint64, k: nat, u: uint64, later: seq<uint64>, l: nat, t: nat, rest: seq<byte>)
    requires l <= 31 && u != v && Spans(Xor64(v, u), l, t) && Confined(u, later, l, t)
    ensures var vs := [v] + Repeated(v, k) + [u] + later;
            && l + t <= 63
            && Decode(Encode(vs) + rest, |vs|) == Ok(vs)
            && |Encode(vs)| == 8 + (k + (77 - l - t) + Cost(u, later, 66 - l - t) + 7) / 8
  {
    hide Spans, Confined, Repeated, TailFits, TailBits, Pack, Decode, PutLE;
    var vs := [v] + Repeated(v, k) + [u] + later;
    assert vs[0] == v && vs[1..] == Repeated(v, k) + [u] + later;
    OpeningTail(v, k, u, later, l, t);
    PackCorrect(TailBits(NO_WINDOW, v, vs[1..]));
    ValueRoundTripExactly(vs, rest);
  }

  /** A column of one value takes a bit for each repetition. */
  lemma ConstantRestores(v: uint64, k: nat, rest: seq<byte>)
    ensures var vs := [v] + Repeated(v, k);
            Decode(Encode(vs) + rest, |vs|) == Ok(vs) && |Encode(vs)| == 8 + (k + 7) / 8
  {
    hide Repeated, TailFits, TailBits, Pack, Decode, PutLE;
    var vs := [v] + Repeated(v, k);
    assert vs[1..] == Repeated(v, k);
    ConstantTail(v, k);
    PackCorrect(TailBits(NO_WINDOW, v, vs[1..]));
    ValueRoundTripExactly(vs, rest);
  }

  lemma {:induction false} ConstantTail(v: uint64, k: nat)
    ensures TailFits(NO_WINDOW, v, Repeated(v, k)) && |TailBits(NO_WINDOW, v, Repeated(v, k))| == k
  {
    hide XorBits, WindowAfter, Xor64, Reuses, Repeated;
    if k > 0 {
      RepeatedMore(v, k);
      assert Repeated(v, k)[0] == v && Repeated(v, k)[1..] == Repeated(v, k - 1);
      XorZero(v, v);
      RepeatStep();
      ConstantTail(v, k - 1);
    }
  }

  // ----- all columns

  /** Under a window of l and t, every change lies inside the current window or has a one
      among its upper 32 bits and opens the next. */
  ghost predicate Keeps(l: nat, t: nat, prev: uint64, vs: seq<uint64>)
    decreases |vs|
  {
    vs != [] ==>
      var xor := Xor64(prev, vs[0]);
      if xor == 0 || Inside(xor, l, t) then Keeps(l, t, vs[0], vs[1..])
      else xor >= TWO_32 && exists l', t' :: Spans(xor, l', t') && Keeps(l', t', vs[0], vs[1..])
  }

  lemma FitsExactly(w: Window, xor: uint64)
    ensures Fits(w, xor) <==> xor == 0 || Inside(xor, w.leading, w.trailing) || xor >= TWO_32
  {
    hide LeadingZeros, TrailingZeros, Inside;
    if xor > 0 {
      ReusesExactly(w, xor);
      LeadingZerosAtLeast(xor, 32);
      assert Pow2(32) == TWO_32 by { Pow2Values(); }
    }
  }

  lemma {:induction false} KeepsExactly(w: Window, prev: uint64, vs: seq<uint64>)
    ensures TailFits(w, prev, vs) <==> Keeps(w.leading, w.trailing, prev, vs)
    decreases |vs|
  {
    hide Inside, Spans, Fits, WindowAfter, Xor64, LeadingZeros, TrailingZeros;
    if vs != [] {
      var xor := Xor64(prev, vs[0]);
      var w' := WindowAfter(w, xor);
      FitsExactly(w, xor);
      KeepsExactly(w', vs[0], vs[1..]);
      if xor > 0 {
        SpansExactly(xor, LeadingZeros(xor), TrailingZeros(xor));
        CodeLength(w, xor, LeadingZeros(xor), TrailingZeros(xor));
        forall l', t' | Spans(xor, l', t')
          ensures l' == LeadingZeros(xor) && t' == TrailingZeros(xor)
        {
          SpansExactly(xor, l', t');
        }
      } else {
        CodeLength(w, xor, 0, 0);
      }
    }
  }

  /** When a column reads back, in arithmetic only: before the first change no window can be
      reused, for 255 leading zeros are out of reach. */
  lemma ColumnExactly(vs: seq<uint64>, rest: seq<byte>)
    ensures Decode(Encode(vs) + rest, |vs|) == Ok(vs) <==> vs == [] || Keeps(255, 0, vs[0], vs[1..])
  {
    hide Decode, Encode, TailFits, Keeps;
    ValueRoundTripExactly(vs, rest);
    if vs != [] {
      KeepsExactly(NO_WINDOW, vs[0], vs[1..]);
    }
  }
}
