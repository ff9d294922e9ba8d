/** Write commands and their log encoding (internal/engine/engine.go): series ID, point
    count, then sixteen bytes a point. */
module Payload {
  import opened Words
  import opened Points
  import Wal

  datatype WritePayload = WritePayload(id: uint64, points: seq<Point>)

  const POINT_SIZE := 16

  function PointBytes(points: seq<Point>): (b: seq<byte>)
    ensures |b| == POINT_SIZE * |points|
  {
    if points == [] then []
    else
      var n := |points| - 1;
      PointBytes(points[..n]) + PutLE(ToUnsigned(points[n].ts), 8) + PutLE(points[n].val, 8)
  }

  /** The count field is a uint32 and drops high bits. */
  function Encode(p: WritePayload): (b: seq<byte>)
    ensures |b| == 12 + POINT_SIZE * |p.points|
  {
    PutLE(p.id, 8) + PutLE(|p.points|, 4) + PointBytes(p.points)
  }

  /** binary.LittleEndian.PutUint on n bytes of a buffer. */
  method PutAt(buf: array<byte>, off: nat, x: nat, n: nat)
    requires off + n <= buf.Length
    modifies buf
    ensures buf[..] == old(buf[..off]) + PutLE(x, n) + old(buf[off + n..])
  {
    var le := PutLE(x, n);
    for i := 0 to n
      invariant forall k :: 0 <= k < buf.Length ==>
        buf[k] == if off <= k < off + i then le[k - off] else old(buf[k])
    {
      buf[off + i] := le[i];
    }
  }

  method PutPoint(buf: array<byte>, off: nat, p: Point)
    requires off + POINT_SIZE <= buf.Length
    modifies buf
    ensures buf[..off + POINT_SIZE] == old(buf[..off]) + PutLE(ToUnsigned(p.ts), 8) + PutLE(p.val, 8)
  {
    hide PutLE;
    PutAt(buf, off, ToUnsigned(p.ts), 8);
    assert buf[..off + 8] == old(buf[..off]) + PutLE(ToUnsigned(p.ts), 8);
    PutAt(buf, off + 8, p.val, 8);
  }

  lemma NoPointBytes(points: seq<Point>)
    requires points == []
    ensures PointBytes(points) == []
  {
  }

  lemma PointBytesNext(head: seq<byte>, points: seq<Point>, i: nat)
    requires i < |points|
    ensures head + PointBytes(points[..i + 1])
         == head + PointBytes(points[..i]) + PutLE(ToUnsigned(points[i].ts), 8) + PutLE(points[i].val, 8)
  {
    hide PutLE, ToUnsigned;
    assert points[..i + 1][..i] == points[..i];
    var ts, val := PutLE(ToUnsigned(points[i].ts), 8), PutLE(points[i].val, 8);
    assert head + (PointBytes(points[..i]) + ts + val) == head + PointBytes(points[..i]) + ts + val;
  }

  method EncodePayload(p: WritePayload) returns (buf: array<byte>)
    ensures fresh(buf) && buf[..] == Encode(p)
  {
    hide PutLE, PointBytes, ToUnsigned;
    buf := new byte[8 + 4 + |p.points| * 16];
    PutAt(buf, 0, p.id, 8);
    assert buf[..8] == PutLE(p.id, 8);
    PutAt(buf, 8, |p.points|, 4);
    ghost var head := PutLE(p.id, 8) + PutLE(|p.points|, 4);
    assert buf[..12] == head;
    NoPointBytes(p.points[..0]);
    for i := 0 to |p.points|
      invariant buf[..12 + i * 16] == head + PointBytes(p.points[..i])
    {
      var off := 12 + i * 16;
      PutPoint(buf, off, p.points[i]);
      PointBytesNext(head, p.points, i);
    }
    assert p.points[..|p.points|] == p.points;
    assert buf[..] == buf[..12 + |p.points| * 16];
  }

  // ----- decoding

  /** Point i of the data. The offsets are uint32 and wrap; slicing backwards or past the
      end panics. */
  function PointAt(data: seq<byte>, i: nat): Result<Point> {
    var off := (12 + i * 16) % TWO_32;
    var mid := (off + 8) % TWO_32;
    var end := (off + 16) % TWO_32;
    if off <= mid <= end <= |data| && mid == off + 8 && end == off + 16 then
      Ok(Point(ToSigned(GetU64(data[off..mid])), GetU64(data[mid..end])))
    else Panic
  }

  function FirstPoints(data: seq<byte>, n: nat): (r: Result<seq<Point>>)
    ensures r.Ok? ==> |r.value| == n
    ensures !r.Ok? ==> r == Panic
  {
    if n == 0 then Ok([])
    else
      var before :- FirstPoints(data, n - 1);
      var p :- PointAt(data, n - 1);
      Ok(before + [p])
  }

  function Decode(data: seq<byte>): Result<WritePayload> {
    if |data| < 12 then Panic
    else
      var points :- FirstPoints(data, GetU32(data[8..12]));
      Ok(WritePayload(GetU64(data[..8]), points))
  }

  method DecodePayload(data: seq<byte>) returns (r: Result<WritePayload>)
    ensures r == Decode(data)
  {
    hide GetLE, PointAt;
    if |data| < 12 {
      return Panic;
    }
    var id, count := GetU64(data[..8]), GetU32(data[8..12]);
    var pts: seq<Point> := [];
    for i := 0 to count
      invariant FirstPoints(data, i) == Ok(pts)
    {
      var p := PointAt(data, i);
      if !p.Ok? {
        PanicPersists(data, i + 1, count);
        return Panic;
      }
      pts := pts + [p.value];
    }
    r := Ok(WritePayload(id, pts));
  }

  lemma {:induction false} PanicPersists(data: seq<byte>, m: nat, n: nat)
    requires m <= n && FirstPoints(data, m) == Panic
    ensures FirstPoints(data, n) == Panic
  {
    if m < n {
      PanicPersists(data, m, n - 1);
    }
  }

  // ----- exact round trip

  lemma {:induction false} PointBytesAt(points: seq<Point>, i: nat)
    requires i < |points|
    ensures var b := PointBytes(points);
            b[16 * i..16 * i + 8] == PutLE(ToUnsigned(points[i].ts), 8) &&
            b[16 * i + 8..16 * i + 16] == PutLE(points[i].val, 8)
  {
    hide PutLE;
    var n := |points| - 1;
    var b, init := PointBytes(points), PointBytes(points[..n]);
    if i < n {
      PointBytesAt(points[..n], i);
      assert b[16 * i..16 * i + 8] == init[16 * i..16 * i + 8];
      assert b[16 * i + 8..16 * i + 16] == init[16 * i + 8..16 * i + 16];
    }
  }

  /** Every point before the offset wraps reads back. */
  lemma PointReadsBack(p: WritePayload, i: nat)
    requires i < |p.points|
    ensures i < 0x1000_0000 - 1 ==> PointAt(Encode(p), i) == Ok(p.points[i])
    ensures i == 0x1000_0000 - 1 ==> PointAt(Encode(p), i) == Panic
  {
    hide PutLE, GetLE, PointBytes;
    var data := Encode(p);
    var off := 12 + 16 * i;
    PointBytesAt(p.points, i);
    var b := PointBytes(p.points);
    assert data[12..] == b;
    assert data[off..off + 8] == b[16 * i..16 * i + 8];
    assert data[off + 8..off + 16] == b[16 * i + 8..16 * i + 16];
    LE64RoundTrip(ToUnsigned(p.points[i].ts));
    SignedRoundTrip(p.points[i].ts);
    LE64RoundTrip(p.points[i].val);
  }

  lemma {:induction false} FirstPointsReadBack(p: WritePayload, n: nat)
    requires n <= |p.points| && n < 0x1000_0000
    ensures FirstPoints(Encode(p), n) == Ok(p.points[..n])
  {
    hide Encode, PointAt;
    if n > 0 {
      FirstPointsReadBack(p, n - 1);
      PointReadsBack(p, n - 1);
      assert p.points[..n] == p.points[..n - 1] + [p.points[n - 1]];
    }
  }

  lemma EncodedHead(p: WritePayload)
    ensures var data := Encode(p);
            GetU64(data[..8]) == p.id && GetU32(data[8..12]) == |p.points| % TWO_32
  {
    hide PutLE, GetLE;
    var data := Encode(p);
    assert data[..8] == PutLE(p.id, 8) && data[8..12] == PutLE(|p.points|, 4);
    LE64RoundTrip(p.id);
    GetPutLE(|p.points|, 4);
    assert Pow2(32) == TWO_32 by { Pow2Values(); }
  }

  /** A write survives its log encoding if and only if it has fewer than 2^28 points: at
      2^28 the decoder's uint32 offset wraps and it panics, and from 2^32 on the count
      field has lost its high bits. */
  lemma PayloadRoundTripExactly(p: WritePayload)
    ensures Decode(Encode(p)) == Ok(p) <==> |p.points| < 0x1000_0000
  {
    hide Encode, PointAt, FirstPoints;
    var n := |p.points|;
    var data := Encode(p);
    EncodedHead(p);
    if n < 0x1000_0000 {
      FirstPointsReadBack(p, n);
      assert p.points[..n] == p.points;
    } else if n < TWO_32 {
      FirstPointsReadBack(p, 0x1000_0000 - 1);
      PointReadsBack(p, 0x1000_0000 - 1);
      StepPanics(data, 0x1000_0000);
      PanicPersists(data, 0x1000_0000, n);
    }
  }

  lemma StepPanics(data: seq<byte>, n: nat)
    requires n > 0 && FirstPoints(data, n - 1).Ok? && PointAt(data, n - 1) == Panic
    ensures FirstPoints(data, n) == Panic
  {
  }

  /** Every field of the encoding, little-endian. */
  lemma PayloadLayout(p: WritePayload, i: nat)
    ensures var b := Encode(p);
            && |b| == 12 + 16 * |p.points| && b[..8] == PutLE(p.id, 8) && b[8..12] == PutLE(|p.points|, 4)
            && (i < |p.points| ==>
                  && b[12 + 16 * i..20 + 16 * i] == PutLE(ToUnsigned(p.points[i].ts), 8)
                  && b[20 + 16 * i..28 + 16 * i] == PutLE(p.points[i].val, 8))
  {
    hide PutLE, PointBytes;
    var b, points := Encode(p), PointBytes(p.points);
    assert b[12..] == points;
    if i < |p.points| {
      PointBytesAt(p.points, i);
      assert b[12 + 16 * i..20 + 16 * i] == points[16 * i..16 * i + 8];
      assert b[20 + 16 * i..28 + 16 * i] == points[16 * i + 8..16 * i + 16];
    }
  }

  /** Data decodes to a write exactly when it starts with that write's encoding and the
      write has fewer than 2^28 points; the rest of the data is ignored. All other data
      panics. */
  lemma DecodeExactly(data: seq<byte>, p: WritePayload)
    ensures Decode(data) == Ok(p) <==> |p.points| < 0x1000_0000 && Encode(p) <= data
    ensures !Decode(data).Ok? ==> Decode(data) == Panic
  {
    hide Encode, GetLE, PutLE, PointAt, FirstPoints;
    var n := |p.points|;
    if Decode(data) == Ok(p) {
      TooManyPanic(data, n);
      DecodedIsPrefix(data, p);
    } else if n < 0x1000_0000 && Encode(p) <= data {
      PrefixDecodes(data, p);
      assert false;
    }
  }

  lemma {:induction false} TooManyPanic(data: seq<byte>, n: nat)
    ensures n >= 0x1000_0000 ==> FirstPoints(data, n) == Panic
  {
    if n > 0x1000_0000 {
      TooManyPanic(data, n - 1);
    }
  }

  /** The points' bytes behind the head. */
  ghost predicate Follow(data: seq<byte>, points: seq<Point>) {
    12 + 16 * |points| <= |data| && data[12..12 + 16 * |points|] == PointBytes(points)
  }

  lemma {:induction false} PointsAreBytes(data: seq<byte>, points: seq<Point>)
    requires 12 <= |data| && |points| < 0x1000_0000
    ensures FirstPoints(data, |points|) == Ok(points) <==> Follow(data, points)
  {
    hide PutLE, GetLE, PointAt, Follow, PointBytes;
    if points == [] {
      NoneFollow(data, points);
    } else {
      var n := |points| - 1;
      PointsAreBytes(data, points[..n]);
      PointIsBytes(data, n, points[n]);
      FollowOneMore(data, points, n);
      assert points == points[..n] + [points[n]];
    }
  }

  lemma NoneFollow(data: seq<byte>, points: seq<Point>)
    requires 12 <= |data| && points == []
    ensures Follow(data, points)
  {
  }

  lemma FollowOneMore(data: seq<byte>, points: seq<Point>, n: nat)
    requires |points| == n + 1
    ensures Follow(data, points) <==>
            Follow(data, points[..n]) && 28 + 16 * n <= |data| &&
            data[12 + 16 * n..28 + 16 * n] == PutLE(ToUnsigned(points[n].ts), 8) + PutLE(points[n].val, 8)
  {
    hide PutLE, ToUnsigned;
    if 28 + 16 * n <= |data| {
      var a, b := data[12..12 + 16 * n], data[12 + 16 * n..28 + 16 * n];
      var ts, val := PutLE(ToUnsigned(points[n].ts), 8), PutLE(points[n].val, 8);
      assert data[12..12 + 16 * (n + 1)] == a + b;
      assert PointBytes(points) == PointBytes(points[..n]) + (ts + val);
      SamePieces(a, b, PointBytes(points[..n]), ts + val);
    }
  }

  lemma SamePieces(a: seq<byte>, b: seq<byte>, c: seq<byte>, d: seq<byte>)
    requires |a| == |c|
    ensures a + b == c + d <==> a == c && b == d
  {
    if a + b == c + d {
      assert a == (a + b)[..|a|] && b == (a + b)[|a|..];
      assert c == (c + d)[..|c|] && d == (c + d)[|c|..];
    }
  }

  lemma PointIsBytes(data: seq<byte>, i: nat, p: Point)
    requires i < 0x1000_0000 - 1
    ensures PointAt(data, i) == Ok(p)
            <==> 28 + 16 * i <= |data| &&
                 data[12 + 16 * i..28 + 16 * i] == PutLE(ToUnsigned(p.ts), 8) + PutLE(p.val, 8)
  {
    hide PutLE, GetLE;
    if 28 + 16 * i <= |data| {
      var ts, val := data[12 + 16 * i..20 + 16 * i], data[20 + 16 * i..28 + 16 * i];
      PutGetLE(ts);
      PutGetLE(val);
      LE64RoundTrip(ToUnsigned(p.ts));
      LE64RoundTrip(p.val);
      SignedRoundTrip(p.ts);
      assert data[12 + 16 * i..28 + 16 * i] == ts + val;
      SamePieces(ts, val, PutLE(ToUnsigned(p.ts), 8), PutLE(p.val, 8));
    }
  }

  lemma DecodedIsPrefix(data: seq<byte>, p: WritePayload)
    requires Decode(data) == Ok(p) && |p.points| < 0x1000_0000
    ensures Encode(p) <= data
  {
    hide PutLE, GetLE, PointBytes, FirstPoints;
    PointsAreBytes(data, p.points);
    PutGetLE(data[..8]);
    PutGetLE(data[8..12]);
    var b := Encode(p);
    assert data[..12 + 16 * |p.points|] == data[..8] + data[8..12] + data[12..12 + 16 * |p.points|];
  }

  lemma PrefixDecodes(data: seq<byte>, p: WritePayload)
    requires |p.points| < 0x1000_0000 && Encode(p) <= data
    ensures Decode(data) == Ok(p)
  {
    hide PutLE, GetLE, PointBytes, FirstPoints;
    EncodedHead(p);
    PayloadLayout(p, 0);
    var b := Encode(p);
    assert data[..8] == b[..8] && data[8..12] == b[8..12];
    assert data[12..12 + 16 * |p.points|] == b[12..] == PointBytes(p.points);
    PointsAreBytes(data, p.points);
    LE64RoundTrip(p.id);
    LE32RoundTrip(|p.points|);
  }

  /** Whatever the log can frame, the decoder restores. */
  lemma LoggableRoundTrip(p: WritePayload)
    requires Wal.Loggable(Encode(p))
    ensures Decode(Encode(p)) == Ok(p)
  {
    hide Decode, Encode;
    PayloadRoundTripExactly(p);
  }

  /** A write is never decoded from fewer bytes than it encodes to. */
  lemma DecodedLength(data: seq<byte>, p: WritePayload)
    requires Decode(data) == Ok(p) && Wal.Loggable(Encode(p))
    ensures |Encode(p)| <= |data|
  {
    hide GetLE, Encode;
    var n := |p.points|;
    if n > 0 {
      LastPointRead(data, n);
    }
  }

  lemma LastPointRead(data: seq<byte>, n: nat)
    requires n > 0 && FirstPoints(data, n).Ok? && 12 + n * 16 < TWO_32
    ensures 12 + n * 16 <= |data|
  {
    hide GetLE;
    assert PointAt(data, n - 1).Ok?;
  }
}
