/** One series in the v1 segment format (internal/segment/segment.go): the first
    timestamp, the deltas as varints, then the values in eight bytes each. */
module SegmentV1 {
  import opened Words
  import opened Varint
  import opened Points

  function DeltaBytes(ts: seq<int64>): seq<byte>
    decreases |ts|
  {
    if |ts| <= 1 then [] else PutVarint(Sub64(ts[1], ts[0])) + DeltaBytes(ts[1..])
  }

  function ValueBytes(vs: seq<uint64>): (b: seq<byte>)
    ensures |b| == 8 * |vs|
    decreases |vs|
  {
    if vs == [] then [] else PutLE(vs[0], 8) + ValueBytes(vs[1..])
  }

  function Encode(points: seq<Point>): seq<byte> {
    if points == [] then []
    else PutLE(ToUnsigned(points[0].ts), 8) + DeltaBytes(Timestamps(points)) + ValueBytes(Values(points))
  }

  method EncodeSeries(points: seq<Point>) returns (buf: seq<byte>)
    ensures buf == Encode(points)
  {
    hide PutLE, PutVarint, Sub64;
    if |points| == 0 {
      return [];
    }
    buf := PutLE(ToUnsigned(points[0].ts), 8);
    ghost var ts, vs := Timestamps(points), Values(points);
    ghost var goal := buf + DeltaBytes(ts);
    for i := 1 to |points|
      invariant buf + DeltaBytes(ts[i - 1..]) == goal
    {
      var d := PutVarint(Sub64(points[i].ts, points[i - 1].ts));
      assert ts[i - 1..][1..] == ts[i..];
      buf := buf + d;
    }
    assert buf == goal;
    goal := buf + ValueBytes(vs);
    assert vs[0..] == vs;
    for i := 0 to |points|
      invariant buf + ValueBytes(vs[i..]) == goal
    {
      assert vs[i..][1..] == vs[i + 1..];
      buf := buf + PutLE(points[i].val, 8);
    }
  }

  // ----- the layout

  /** Where the varint of delta i starts, i = 1 being the first. */
  function DeltaAt(ts: seq<int64>, i: nat): nat
    requires 1 <= i <= |ts|
  {
    if i == 1 then 8 else DeltaAt(ts, i - 1) + |PutVarint(Sub64(ts[i - 1], ts[i - 2]))|
  }

  /** The first timestamp, the varints of the differences one after the other, and the
      values right behind them, eight bytes each. */
  lemma SeriesLayout(points: seq<Point>, i: nat)
    requires i < |points|
    ensures var b := Encode(points);
            var ts := Timestamps(points);
            var end := DeltaAt(ts, |ts|);
            && |b| == end + 8 * |points| && b[..8] == PutLE(ToUnsigned(points[0].ts), 8)
            && (i > 0 ==> DeltaAt(ts, i) <= DeltaAt(ts, i + 1) <= end &&
                          b[DeltaAt(ts, i)..DeltaAt(ts, i + 1)]
                          == PutVarint(Sub64(points[i].ts, points[i - 1].ts)))
            && b[end + 8 * i..end + 8 * i + 8] == PutLE(points[i].val, 8)
  {
    hide PutLE, PutVarint, Sub64, ToUnsigned, DeltaBytes, ValueBytes, DeltaAt;
    var ts := Timestamps(points);
    var a, d, v := PutLE(ToUnsigned(points[0].ts), 8), DeltaBytes(ts), ValueBytes(Values(points));
    DeltaSplit(ts, |ts|);
    ValueBytesAt(Values(points), i);
    Middle(a + d, v, [], 8 * i, 8 * i + 8);
    assert a + d + v + [] == Encode(points);
    if i > 0 {
      DeltaPlace(ts, i);
      Middle(a, d, v, DeltaAt(ts, i) - 8, DeltaAt(ts, i + 1) - 8);
    }
  }

  lemma Middle(a: seq<byte>, b: seq<byte>, c: seq<byte>, lo: nat, hi: nat)
    requires lo <= hi <= |b|
    ensures (a + b + c)[|a| + lo..|a| + hi] == b[lo..hi]
  {
    var s := a + b + c;
    forall i | 0 <= i < hi - lo
      ensures s[|a| + lo..|a| + hi][i] == b[lo..hi][i]
    {
      assert s[|a| + lo + i] == b[lo + i];
    }
  }

  lemma DeltaPlace(ts: seq<int64>, i: nat)
    requires 1 <= i < |ts|
    ensures 8 <= DeltaAt(ts, i) <= DeltaAt(ts, i + 1) <= DeltaAt(ts, |ts|) == 8 + |DeltaBytes(ts)|
    ensures DeltaBytes(ts)[DeltaAt(ts, i) - 8..DeltaAt(ts, i + 1) - 8] == PutVarint(Sub64(ts[i], ts[i - 1]))
  {
    hide PutVarint, Sub64;
    DeltaSplit(ts, i);
    DeltaSplit(ts, i + 1);
    DeltaSplit(ts, |ts|);
    assert ts[i - 1..][1..] == ts[i..];
    var d, lo := DeltaBytes(ts), DeltaAt(ts, i) - 8;
    assert d[..lo] + (PutVarint(Sub64(ts[i], ts[i - 1])) + DeltaBytes(ts[i..])) == d;
  }

  /** The deltas up to i, and the rest. */
  lemma {:induction false} DeltaSplit(ts: seq<int64>, i: nat)
    requires 1 <= i <= |ts|
    ensures var at := DeltaAt(ts, i) - 8;
            0 <= at <= |DeltaBytes(ts)| && DeltaBytes(ts) == DeltaBytes(ts)[..at] + DeltaBytes(ts[i - 1..])
    ensures i == |ts| ==> DeltaAt(ts, i) - 8 == |DeltaBytes(ts)|
  {
    hide PutVarint, Sub64;
    if i == 1 {
      assert ts[0..] == ts;
    } else {
      DeltaSplit(ts, i - 1);
      assert ts[i - 2..][1..] == ts[i - 1..];
      var at := DeltaAt(ts, i - 1) - 8;
      var code := PutVarint(Sub64(ts[i - 1], ts[i - 2]));
      assert DeltaBytes(ts[i - 2..]) == code + DeltaBytes(ts[i - 1..]);
      assert DeltaBytes(ts) == DeltaBytes(ts)[..at] + code + DeltaBytes(ts[i - 1..]);
      assert DeltaBytes(ts)[..at + |code|] == DeltaBytes(ts)[..at] + code;
    }
  }

  lemma {:induction false} ValueBytesAt(vs: seq<uint64>, i: nat)
    requires i < |vs|
    ensures ValueBytes(vs)[8 * i..8 * i + 8] == PutLE(vs[i], 8)
    decreases |vs|
  {
    hide PutLE;
    if i > 0 {
      ValueBytesAt(vs[1..], i - 1);
      assert ValueBytes(vs)[8 * i..8 * i + 8] == ValueBytes(vs[1..])[8 * (i - 1)..8 * i];
    }
  }

  // ----- decoding

  /** k more timestamps from the varints at off: the timestamps and where they end. */
  function DecodeDeltas(data: seq<byte>, off: nat, last: int64, k: nat): (r: Result<(seq<int64>, nat)>)
    ensures r.Ok? ==> |r.value.0| == k
    decreases k
  {
    if k == 0 then Ok(([], off))
    else if off > |data| then Panic
    else
      var (delta, n) := ReadVarint(data[off..]);
      if n <= 0 then Corrupt
      else
        var t := Add64(last, delta);
        var (rest, end) :- DecodeDeltas(data, off + n, t, k - 1);
        Ok(([t] + rest, end))
  }

  /** k values in eight bytes each from off; Go's slice expression panics beyond the
      capacity of the buffer. */
  function DecodeValues(buf: seq<byte>, off: nat, k: nat): (r: Result<seq<uint64>>)
    ensures r.Ok? ==> |r.value| == k
    decreases k
  {
    if k == 0 then Ok([])
    else if off + 8 > |buf| then Panic
    else
      var rest :- DecodeValues(buf, off + 8, k - 1);
      Ok([GetU64(buf[off..off + 8])] + rest)
  }

  /** Zero bytes, as make([]byte, n) leaves them. */
  function ZeroBytes(n: nat): (z: seq<byte>)
    ensures |z| == n
  {
    seq(n, i requires 0 <= i < n => 0)
  }

  /** decodePoints on a slice holding data inside a zeroed buffer of the given capacity. */
  function Decode(data: seq<byte>, capacity: nat, numPoints: nat): Result<seq<Point>>
    requires |data| <= capacity
  {
    if numPoints == 0 then Ok([])
    else
      var buf := data + ZeroBytes(capacity - |data|);
      if capacity < 8 then Panic
      else
        var t0 := ToSigned(GetU64(buf[..8]));
        var (ts, off) :- DecodeDeltas(data, 8, t0, numPoints - 1);
        var vs :- DecodeValues(buf, off, numPoints);
        Ok(Zip([t0] + ts, vs))
  }

  method DecodePoints(data: seq<byte>, capacity: nat, numPoints: nat) returns (r: Result<seq<Point>>)
    requires |data| <= capacity
    ensures r == Decode(data, capacity, numPoints)
  {
    hide DecodeDeltas, DecodeValues, GetLE, ZeroBytes, ToSigned;
    if numPoints == 0 {
      return Ok([]);
    }
    var buf := data + ZeroBytes(capacity - |data|);
    if capacity < 8 {
      return Panic;
    }
    var t0 := ToSigned(GetU64(buf[..8]));
    var deltas :- ReadDeltas(data, 8, t0, numPoints - 1);
    var (ts, off) := deltas;
    var vs :- ReadValues(buf, off, numPoints);
    r := Ok(Zip([t0] + ts, vs));
  }

  /** The loop over deltas. */
  method ReadDeltas(data: seq<byte>, start: nat, t0: int64, count: nat) returns (r: Result<(seq<int64>, nat)>)
    ensures r == DecodeDeltas(data, start, t0, count)
  {
    hide ReadVarint, Add64;
    var ts: seq<int64> := [];
    var off: nat, last: int64 := start, t0;
    PrependNothing(DecodeDeltas(data, start, t0, count));
    for i := 0 to count
      invariant |ts| == i
      invariant DecodeDeltas(data, start, t0, count) == PrependTo(ts, DecodeDeltas(data, off, last, count - i))
    {
      if off > |data| {
        return Panic;
      }
      var (delta, n) := ReadVarint(data[off..]);
      if n <= 0 {
        return Corrupt;
      }
      last := Add64(last, delta);
      off := off + n;
      PrependAssoc(ts, last, DecodeDeltas(data, off, last, count - i - 1));
      ts := ts + [last];
    }
    assert ts + [] == ts;
    r := Ok((ts, off));
  }

  /** The loop over values. */
  method ReadValues(buf: seq<byte>, start: nat, count: nat) returns (r: Result<seq<uint64>>)
    ensures r == DecodeValues(buf, start, count)
  {
    hide GetLE;
    var vs: seq<uint64> := [];
    var off: nat := start;
    PrependNoValues(DecodeValues(buf, start, count));
    for i := 0 to count
      invariant |vs| == i
      invariant DecodeValues(buf, start, count) == PrependValues(vs, DecodeValues(buf, off, count - i))
    {
      if off + 8 > |buf| {
        return Panic;
      }
      var v := GetU64(buf[off..off + 8]);
      off := off + 8;
      PrependValuesAssoc(vs, v, DecodeValues(buf, off, count - i - 1));
      vs := vs + [v];
    }
    assert vs + [] == vs;
    r := Ok(vs);
  }

  function PrependTo(a: seq<int64>, r: Result<(seq<int64>, nat)>): Result<(seq<int64>, nat)> {
    if r.Ok? then Ok((a + r.value.0, r.value.1)) else r
  }

  lemma PrependAssoc(a: seq<int64>, t: int64, r: Result<(seq<int64>, nat)>)
    ensures PrependTo(a, PrependTo([t], r)) == PrependTo(a + [t], r)
  {
    if r.Ok? {
      assert a + ([t] + r.value.0) == a + [t] + r.value.0;
    }
  }

  lemma PrependNothing(r: Result<(seq<int64>, nat)>)
    ensures PrependTo([], r) == r
  {
    if r.Ok? {
      assert [] + r.value.0 == r.value.0;
    }
  }

  function PrependValues(a: seq<uint64>, r: Result<seq<uint64>>): Result<seq<uint64>> {
    if r.Ok? then Ok(a + r.value) else r
  }

  lemma PrependValuesAssoc(a: seq<uint64>, v: uint64, r: Result<seq<uint64>>)
    ensures PrependValues(a, PrependValues([v], r)) == PrependValues(a + [v], r)
  {
    if r.Ok? {
      assert a + ([v] + r.value) == a + [v] + r.value;
    }
  }

  lemma PrependNoValues(r: Result<seq<uint64>>)
    ensures PrependValues([], r) == r
  {
    if r.Ok? {
      assert [] + r.value == r.value;
    }
  }

  // ----- exact round trip

  lemma {:induction false} DeltasRoundTrip(a: seq<byte>, ts: seq<int64>, rest: seq<byte>)
    requires ts != []
    ensures var d := DeltaBytes(ts);
            DecodeDeltas(a + d + rest, |a|, ts[0], |ts| - 1) == Ok((ts[1..], |a| + |d|))
    decreases |ts|
  {
    hide ReadVarint, PutVarint, Sub64, Add64;
    var data := a + DeltaBytes(ts) + rest;
    if |ts| > 1 {
      var v := PutVarint(Sub64(ts[1], ts[0]));
      var tail := DeltaBytes(ts[1..]);
      assert data == (a + v) + tail + rest;
      assert data[|a|..] == v + (tail + rest);
      VarintRoundTrip(Sub64(ts[1], ts[0]), tail + rest);
      WrapDifference(ts[1], ts[0]);
      DeltasRoundTrip(a + v, ts[1..], rest);
      assert [ts[1]] + ts[1..][1..] == ts[1..];
    } else {
      assert ts[1..] == [];
    }
  }

  lemma {:induction false} ValuesRoundTrip(a: seq<byte>, vs: seq<uint64>, rest: seq<byte>)
    ensures DecodeValues(a + ValueBytes(vs) + rest, |a|, |vs|) == Ok(vs)
    decreases |vs|
  {
    hide PutLE, GetLE;
    if vs != [] {
      var data := a + ValueBytes(vs) + rest;
      var v := PutLE(vs[0], 8);
      assert data == (a + v) + ValueBytes(vs[1..]) + rest;
      assert data[|a|..|a| + 8] == v;
      LE64RoundTrip(vs[0]);
      ValuesRoundTrip(a + v, vs[1..], rest);
      assert vs == [vs[0]] + vs[1..];
    }
  }

  /** Values that do not all fit below the capacity make the slice expression panic. */
  lemma {:induction false} ValuesPanic(buf: seq<byte>, off: nat, k: nat)
    requires k > 0 && off + 8 * k > |buf|
    ensures DecodeValues(buf, off, k) == Panic
    decreases k
  {
    if off + 8 <= |buf| {
      ValuesPanic(buf, off + 8, k - 1);
    }
  }

  lemma {:induction false} DeltaBytesLength(ts: seq<int64>)
    requires ts != []
    ensures |DeltaBytes(ts)| <= 10 * (|ts| - 1)
    decreases |ts|
  {
    if |ts| > 1 {
      VarintRoundTrip(Sub64(ts[1], ts[0]), []);
      DeltaBytesLength(ts[1..]);
    }
  }

  /** Deltas inside [-2^55, 2^55), the domain in which no varint exceeds eight bytes. */
  ghost predicate ModestDeltas(ts: seq<int64>) {
    forall i :: 0 < i < |ts| ==> -0x80_0000_0000_0000 <= Sub64(ts[i], ts[i - 1]) < 0x80_0000_0000_0000
  }

  lemma {:induction false} ModestDeltaBytes(ts: seq<int64>)
    requires ts != [] && ModestDeltas(ts)
    ensures |DeltaBytes(ts)| <= 8 * (|ts| - 1)
    decreases |ts|
  {
    if |ts| > 1 {
      var rest := ts[1..];
      assert Sub64(ts[1], ts[1 - 1]) == Sub64(ts[1], ts[0]);
      VarintAtMostEight(Sub64(ts[1], ts[0]));
      forall i | 0 < i < |rest|
        ensures -0x80_0000_0000_0000 <= Sub64(rest[i], rest[i - 1]) < 0x80_0000_0000_0000
      {
        var j := i + 1;
        assert Sub64(rest[i], rest[i - 1]) == Sub64(ts[j], ts[j - 1]);
      }
      ModestDeltaBytes(rest);
    }
  }

  /** The reader's buffer for n points. */
  function Capacity(n: nat): nat {
    8 + n * 8 + n * 8
  }

  predicate FitsBudget(points: seq<Point>) {
    |Encode(points)| <= 16 * |points| + 8
  }

  lemma ModestDeltasFit(points: seq<Point>)
    requires ModestDeltas(Timestamps(points))
    ensures FitsBudget(points)
  {
    hide PutLE;
    if points != [] {
      ModestDeltaBytes(Timestamps(points));
    }
  }

  /** Over budget the varints alone push the last value past the capacity, although they
      are themselves inside the window. */
  lemma OverBudgetPanics(points: seq<Point>, data: seq<byte>)
    requires points != [] && !FitsBudget(points)
    requires |data| == Capacity(|points|) && data <= Encode(points)
    ensures Decode(data, |data|, |points|) == Panic
  {
    hide PutLE, DeltaBytes, ValueBytes, DecodeDeltas, DecodeValues, GetLE, ReadVarint;
    var n := |points|;
    var ts, vs := Timestamps(points), Values(points);
    var a, d := PutLE(ToUnsigned(ts[0]), 8), DeltaBytes(ts);
    DeltaBytesLength(ts);
    var rest := data[8 + |d|..];
    assert data == a + d + rest by {
      assert data == Encode(points)[..|data|];
    }
    assert data + ZeroBytes(0) == data;
    assert data[..8] == a;
    LE64RoundTrip(ToUnsigned(ts[0]));
    SignedRoundTrip(ts[0]);
    DeltasRoundTrip(a, ts, rest);
    ValuesPanic(data, 8 + |d|, n);
  }

  lemma WithinBudgetRestores(points: seq<Point>, rest: seq<byte>, capacity: nat)
    requires points != [] && |Encode(points) + rest| <= capacity
    ensures Decode(Encode(points) + rest, capacity, |points|) == Ok(points)
  {
    hide PutLE, DeltaBytes, ValueBytes, DecodeDeltas, DecodeValues, GetLE, ReadVarint, ZeroBytes;
    var ts, vs := Timestamps(points), Values(points);
    var a, d, v := PutLE(ToUnsigned(ts[0]), 8), DeltaBytes(ts), ValueBytes(vs);
    var data := Encode(points) + rest;
    var zeros := ZeroBytes(capacity - |data|);
    var buf := data + zeros;
    assert buf[..8] == a;
    LE64RoundTrip(ToUnsigned(ts[0]));
    SignedRoundTrip(ts[0]);
    assert data == a + d + (v + rest);
    DeltasRoundTrip(a, ts, v + rest);
    assert buf == (a + d) + v + (rest + zeros);
    ValuesRoundTrip(a + d, vs, rest + zeros);
    assert [ts[0]] + ts[1..] == ts;
    ZipColumns(points);
  }

  /** The v1 reader sees the first 16 n + 8 bytes of whatever stands at the series'
      offset; bytes read past the encoding are ignored. It restores the points if and only
      if the encoding is no longer than that, and panics otherwise. */
  lemma WindowExactly(points: seq<Point>, rest: seq<byte>, data: seq<byte>)
    requires points != []
    requires data <= Encode(points) + rest
    requires |data| == 16 * |points| + 8 || (|data| < 16 * |points| + 8 && data == Encode(points) + rest)
    ensures Decode(data, 16 * |points| + 8, |points|)
         == if |Encode(points)| <= 16 * |points| + 8 then Ok(points) else Panic
  {
    hide Encode, Decode;
    var e := Encode(points);
    if FitsBudget(points) {
      assert data == e + data[|e|..];
      WithinBudgetRestores(points, data[|e|..], Capacity(|points|));
    } else {
      assert data == e[..|data|];
      OverBudgetPanics(points, data);
    }
  }
}
