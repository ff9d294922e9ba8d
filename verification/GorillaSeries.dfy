/** One series in the v2 segment format (internal/segment/gorilla.go): the length of the
    timestamp column, the timestamp column, the value column. */
module GorillaSeries {
  import opened Words
  import opened Varint
  import opened BitStream
  import opened Points
  import T = GorillaTimestamps
  import V = GorillaValues
  import R = GorillaValuesRoundTrip
  import C = GorillaCuts

  function Encode(points: seq<Point>): seq<byte> {
    var ts := T.Encode(Timestamps(points));
    PutUvarint(|ts|) + ts + V.Encode(Values(points))
  }

  method EncodeSeries(points: seq<Point>) returns (out: seq<byte>)
    ensures out == Encode(points)
  {
    var ts := T.EncodeTimestamps(points);
    var vs := V.EncodeValues(points);
    out := PutUvarint(|ts|) + ts + vs;
  }

  /** int(tsLen) may be negative, and slicing backwards panics. */
  function Decode(data: seq<byte>, numPoints: nat): Result<seq<Point>> {
    var (tsLen, n) := ReadUvarint(data);
    if n <= 0 then Corrupt
    else
      var tsEnd: int := Wrap(n as int + ToSigned(tsLen) as int);
      if tsEnd > |data| then Corrupt
      else if tsEnd < n then Panic
      else
        var ts :- T.Decode(0, data[n..tsEnd], numPoints);
        var vs :- V.Decode(data[tsEnd..], numPoints);
        Ok(Zip(ts, vs))
  }

  method DecodeSeries(data: seq<byte>, numPoints: nat) returns (r: Result<seq<Point>>)
    ensures r == Decode(data, numPoints)
  {
    hide T.Decode, V.Decode, ReadUvarint, Wrap;
    var (tsLen, n) := ReadUvarint(data);
    if n <= 0 {
      return Corrupt;
    }
    var tsEnd: int := Wrap(n as int + ToSigned(tsLen) as int);
    if tsEnd > |data| {
      return Corrupt;
    }
    if tsEnd < n {
      return Panic;
    }
    var ts :- T.DecodeTimestamps(data[n..tsEnd], numPoints);
    var vs :- V.DecodeValues(data[tsEnd..], numPoints);
    var pts: seq<Point> := [];
    for i := 0 to numPoints
      invariant pts == Zip(ts, vs)[..i]
    {
      pts := pts + [Point(ts[i], vs[i])];
    }
    assert Zip(ts, vs)[..numPoints] == Zip(ts, vs);
    r := Ok(pts);
  }

  // ----- exact round trip

  /** Splitting an encoding, followed by anything, back into its two columns. */
  lemma DecodeShape(points: seq<Point>, rest: seq<byte>)
    requires |T.Encode(Timestamps(points))| < TWO_63 - MAX_VARINT_LEN
    ensures var ts := T.Decode(0, T.Encode(Timestamps(points)), |points|);
            var vs := V.Decode(V.Encode(Values(points)) + rest, |points|);
            vs.Ok? &&
            Decode(Encode(points) + rest, |points|) ==
            if !ts.Ok? then ts.PropagateFailure() else Ok(Zip(ts.value, vs.value))
  {
    hide T.Decode, T.Encode, V.TailBits, V.DecodeTail, Pack, PutLE, BitsOf, ReadUvarint, PutUvarint;
    ColumnsAhead(T.Encode(Timestamps(points)), V.Encode(Values(points)) + rest);
    var t, v := T.Encode(Timestamps(points)), V.Encode(Values(points));
    assert Encode(points) + rest == PutUvarint(|t|) + t + (v + rest);
  }

  lemma ColumnsAhead(t: seq<byte>, rest: seq<byte>)
    requires |t| < TWO_63 - MAX_VARINT_LEN
    ensures var data := PutUvarint(|t|) + t + rest;
            var (tsLen, n) := ReadUvarint(data);
            var tsEnd: int := Wrap(n as int + ToSigned(tsLen) as int);
            0 < n <= tsEnd <= |data| && data[n..tsEnd] == t && data[tsEnd..] == rest
  {
    hide ReadUvarint, PutUvarint;
    var p := PutUvarint(|t|);
    var data := p + t + rest;
    assert data == p + (t + rest);
    UvarintRoundTrip(|t|, t + rest);
    WrapUnique(|p| + |t|, |p| + |t|);
  }

  lemma {:induction false} TimestampTailLength(pos: nat, delta: int64, ts: seq<int64>)
    requires T.TailSteps(delta, ts, 0)
    ensures |T.TailBits(pos, delta, ts)| <= if ts == [] then 0 else 16 * (|ts| - 1)
    decreases |ts|
  {
    if |ts| > 1 {
      var d := T.Delta(ts[0], ts[1]);
      TimestampTailLength(pos + |T.DodBits(pos, Sub64(d, delta))|, d, ts[1..]);
    }
  }

  /** Small steps take at most two bytes a point after the head. */
  lemma TimestampLength(ts: seq<int64>)
    requires T.SmallSteps(ts) && |ts| >= 2
    ensures var k := |PutVarint(T.Delta(ts[0], ts[1]))|;
            k <= 10 && 8 + k <= |T.Encode(ts)| <= 8 + k + 2 * (|ts| - 2)
    ensures |ts| == 2 ==> |T.Encode(ts)| == 8 + |PutVarint(T.Delta(ts[0], ts[1]))|
  {
    hide T.TailBits, Pack, T.Delta, PutVarint, T.Encode;
    var d := T.Delta(ts[0], ts[1]);
    var v := PutVarint(d);
    VarintRoundTrip(d, []);
    T.EncodeShape(ts);
    TimestampTailLength(8 * |v|, d, ts[1..]);
  }

  lemma {:induction false} UvarintShort(x: nat)
    ensures |PutUvarint(x)| <= 1 + x / 128
  {
    if x >= 128 {
      UvarintShort(x / 128);
    }
  }

  /** The worst case of the format against the reader's budget of 16 bytes a point: from
      four points on, whatever the values, the encoding fits. */
  lemma EncodingFitsWindow(points: seq<Point>)
    requires T.SmallSteps(Timestamps(points)) && |points| >= 4
    ensures |Encode(points)| <= 16 * |points|
  {
    hide T.Encode, Pack, V.TailBits, PutUvarint;
    var n := |points|;
    var ts, vs := Timestamps(points), Values(points);
    TimestampLength(ts);
    UvarintShort(|T.Encode(ts)|);
    C.TailLength(V.NO_WINDOW, vs[0], vs[1..]);
    assert |V.Encode(vs)| <= 8 + (77 * (n - 1) + 7) / 8;
  }

  // ----- the v2 reader's window

  lemma TimestampColumnBound(ts: seq<int64>)
    requires T.SmallSteps(ts) && 1 <= |ts| < TWO_32
    ensures 8 <= |T.Encode(ts)| <= 18 + 2 * |ts|
  {
    if |ts| >= 2 {
      TimestampLength(ts);
    }
  }

  /** When the whole encoding is in view, only the value windows matter. */
  lemma WholeEncodingExactly(points: seq<Point>, rest: seq<byte>)
    requires T.SmallSteps(Timestamps(points)) && 1 <= |points| < TWO_32
    ensures Decode(Encode(points) + rest, |points|) == Ok(points) <==> R.WindowsFit(Values(points))
  {
    hide T.Encode, T.Decode, V.Encode, V.Decode, R.WindowsFit, Encode, Decode, Zip, Timestamps, Values;
    var ts, vs := Timestamps(points), Values(points);
    TimestampColumnBound(ts);
    DecodeShape(points, rest);
    T.TimestampRoundTrip(ts);
    R.ValueRoundTripExactly(vs, rest);
    ZipColumns(points);
    var read := V.Decode(V.Encode(vs) + rest, |points|).value;
    if Zip(ts, read) == points {
      ZipInjective(ts, read, points);
    }
  }

  /** An encoding cut inside its value column decodes as that column does. */
  lemma CutEncoding(points: seq<Point>, q: nat)
    requires T.SmallSteps(Timestamps(points)) && 1 <= |points| < TWO_32
    requires q <= |V.Encode(Values(points))|
    requires V.Decode(V.Encode(Values(points))[..q], |points|) != Ok(Values(points))
    ensures var t := T.Encode(Timestamps(points));
            Decode(PutUvarint(|t|) + t + V.Encode(Values(points))[..q], |points|) != Ok(points)
  {
    hide T.Encode, T.Decode, V.Encode, V.Decode, Zip, Timestamps, Values, ReadUvarint, PutUvarint;
    var ts, vs := Timestamps(points), Values(points);
    TimestampColumnBound(ts);
    ColumnsAhead(T.Encode(ts), V.Encode(vs)[..q]);
    T.TimestampRoundTrip(ts);
    var read := V.Decode(V.Encode(vs)[..q], |points|);
    if read.Ok? && Zip(ts, read.value) == points {
      ZipInjective(ts, read.value, points);
    }
  }

  /** Too long an encoding of at most three points is cut inside the window its last
      value opens (or, for a single point, inside the first value). */
  lemma CutPlace(points: seq<Point>, q: int)
    requires T.SmallSteps(Timestamps(points)) && 1 <= |points| <= 3
    requires q == 16 * |points| - 1 - |T.Encode(Timestamps(points))|
    requires |V.Encode(Values(points))| > q
    ensures if |points| == 1 then q == 7
            else var vs := Values(points);
              q >= 8 && 8 * (q - 8) <= |V.TailBits(V.NO_WINDOW, vs[0], vs[1..])| &&
              C.CutInOpening(V.NO_WINDOW, vs[0], vs[1..], 8 * (q - 8))
  {
    hide T.Encode, Pack, V.TailBits, C.CutInOpening;
    var ts, vs := Timestamps(points), Values(points);
    if |points| == 1 {
      SingleTimestamp(ts);
    } else {
      TimestampLength(ts);
      C.TailLength(V.NO_WINDOW, vs[0], vs[1..]);
      var kept := 8 * (q - 8);
      if |points| == 2 {
        assert vs[1..] == [vs[1]];
        C.CutLast(V.NO_WINDOW, vs[0], vs[1], kept);
      } else {
        assert vs[1..] == [vs[1], vs[2]];
        C.CutSecond(vs[0], vs[1], vs[2], kept);
      }
    }
  }

  lemma SingleTimestamp(ts: seq<int64>)
    requires |ts| == 1
    ensures |T.Encode(ts)| == 8
  {
  }

  /** The v2 reader sees the first 16 bytes a point of whatever stands at the series'
      offset. It restores the points if and only if the value windows fit and the encoding
      is no longer than that: never for a single point, always (windows fitting) from four
      points on. */
  lemma WindowExactly(points: seq<Point>, rest: seq<byte>, data: seq<byte>)
    requires T.SmallSteps(Timestamps(points)) && 1 <= |points| < TWO_32
    requires data <= Encode(points) + rest
    requires |data| == 16 * |points| || (|data| < 16 * |points| && data == Encode(points) + rest)
    ensures Decode(data, |points|) == Ok(points) <==>
            R.WindowsFit(Values(points)) && |Encode(points)| <= 16 * |points|
    ensures |points| == 1 ==> |Encode(points)| == 17
    ensures |points| >= 4 ==> |Encode(points)| <= 16 * |points|
  {
    hide T.Encode, V.TailBits, R.WindowsFit, Pack, Decode, PutLE, C.CutInOpening;
    var t, v := T.Encode(Timestamps(points)), V.Encode(Values(points));
    var n := |points|;
    TimestampColumnBound(Timestamps(points));
    if n >= 4 {
      EncodingFitsWindow(points);
    } else {
      UvarintShort(|t|);
      assert |PutUvarint(|t|)| == 1;
    }
    if n == 1 {
      SingleTimestamp(Timestamps(points));
      assert Values(points)[1..] == [];
      C.TailLength(V.NO_WINDOW, points[0].val, []);
    }
    if |Encode(points)| <= 16 * n {
      assert data == Encode(points) + data[|Encode(points)|..];
      WholeEncodingExactly(points, data[|Encode(points)|..]);
    } else {
      var q := 16 * n - 1 - |t|;
      CutPlace(points, q);
      assert data == PutUvarint(|t|) + t + v[..q];
      if n > 1 {
        C.CutColumnDiffers(Values(points), q);
      }
      CutEncoding(points, q);
    }
  }
}
