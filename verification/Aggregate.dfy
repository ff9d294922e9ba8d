/** Bucketed aggregation (internal/query/query.go). Values are float64 bit patterns. */
module Aggregate {
  import opened Words
  import opened Floats
  import opened Points
  import Query

  // ----- buckets

  datatype Bucket = Bucket(start: int, sum: uint64, count: nat, min: uint64, max: uint64)

  /** Go's integer division truncates toward zero. */
  function TruncDiv(a: int, b: int): int
    requires b > 0
  {
    if a >= 0 then a / b else -((-a) / b)
  }

  function FirstBucket(points: seq<Point>, width: int): int
    requires points != [] && width > 0
  {
    TruncDiv(points[0].ts, width) * width
  }

  function NumBuckets(points: seq<Point>, width: int): int
    requires points != [] && width > 0
  {
    TruncDiv(TruncDiv(points[|points| - 1].ts, width) * width - FirstBucket(points, width), width) + 1
  }

  /** The points that the code's index formula sends to bucket i, in order. */
  function Members(points: seq<Point>, first: int, width: int, i: int): seq<Point>
    requires width > 0
  {
    if points == [] then []
    else
      var n := |points| - 1;
      Members(points[..n], first, width, i) + if TruncDiv(points[n].ts - first, width) == i then [points[n]] else []
  }

  /** One more value in a bucket. */
  function Extend(b: Bucket, v: uint64): Bucket {
    Bucket(b.start, FloatAdd(b.sum, v), b.count + 1,
           if FloatLess(v, b.min) then v else b.min,
           if FloatLess(b.max, v) then v else b.max)
  }

  /** A bucket before the empty ones are reset: the fold of its points in order. */
  function Fold(members: seq<Point>, start: int): Bucket {
    if members == [] then Bucket(start, 0, 0, MAX_FLOAT, MIN_FLOAT)
    else Extend(Fold(members[..|members| - 1], start), members[|members| - 1].val)
  }

  function Reset(b: Bucket): Bucket {
    if b.count == 0 then b.(min := 0, max := 0) else b
  }

  function LastBucket(points: seq<Point>, width: int): int
    requires points != [] && width > 0
  {
    TruncDiv(points[|points| - 1].ts, width) * width
  }

  /** The two differences of the index arithmetic fit an int64. */
  predicate NoOverflow(points: seq<Point>, width: int)
    requires points != [] && width > 0
  {
    var first := FirstBucket(points, width);
    LastBucket(points, width) - first < TWO_63 && points[|points| - 1].ts - first < TWO_63
  }

  // ----- what the code computes, wrap-around included

  function WrappedIndex(t: int, first: int, width: int): int
    requires width > 0
  {
    TruncDiv(Wrap(t - first), width)
  }

  function WrappedCount(points: seq<Point>, width: int): int
    requires points != [] && width > 0
  {
    TruncDiv(Wrap(LastBucket(points, width) - FirstBucket(points, width)), width) + 1
  }

  /** The points whose computed index is i, in order. */
  function WrappedMembers(points: seq<Point>, first: int, width: int, i: int): seq<Point>
    requires width > 0
  {
    if points == [] then []
    else
      var n := |points| - 1;
      WrappedMembers(points[..n], first, width, i)
      + if WrappedIndex(points[n].ts, first, width) == i then [points[n]] else []
  }

  predicate InRange(points: seq<Point>, first: int, width: int, n: int)
    requires width > 0
  {
    forall k :: 0 <= k < |points| ==> 0 <= WrappedIndex(points[k].ts, first, width) < n
  }

  function WrappedBucket(points: seq<Point>, first: int, width: int, i: int): Bucket
    requires width > 0
  {
    Fold(WrappedMembers(points, first, width, i), Wrap(first + i * width))
  }

  /** A negative array length or an index outside the array panics. */
  function Aggregated(points: seq<Point>, width: int): Result<seq<Bucket>>
    requires width > 0
  {
    if points == [] then Ok([])
    else
      var first, n := FirstBucket(points, width), WrappedCount(points, width);
      if n < 0 || !InRange(points, first, width, n) then Panic
      else Ok(seq(n, i requires 0 <= i < n => Reset(WrappedBucket(points, first, width, i))))
  }

  // ----- truncating division

  lemma LessOfProducts(a: int, b: int, w: int)
    requires a * w < b * w && w > 0
    ensures a < b
  {
    if a >= b {
      MulMonotone(b, a, w);
    }
  }

  lemma NatQuotient(a: nat, w: int)
    requires w > 0
    ensures (a / w) * w <= a < (a / w + 1) * w
  {
    MulDistribute(a / w, 1, w);
    assert a == w * (a / w) + a % w;
  }

  lemma NatQuotientMonotone(a: nat, c: nat, w: int)
    requires w > 0 && a <= c
    ensures a / w <= c / w
  {
    NatQuotient(a, w);
    NatQuotient(c, w);
    LessOfProducts(a / w, c / w + 1, w);
  }

  lemma TruncDivSign(a: int, w: int)
    requires w > 0
    ensures if a >= 0 then TruncDiv(a, w) == a / w >= 0 else TruncDiv(a, w) == -((-a) / w) <= 0
  {
    if a >= 0 {
      NatQuotient(a, w);
      LessOfProducts(0, a / w + 1, w);
    } else {
      NatQuotient(-a, w);
      LessOfProducts(0, (-a) / w + 1, w);
    }
  }

  /** Quotients by a positive divisor are ordered like the dividends. */
  lemma TruncDivMonotone(a: int, c: int, w: int)
    requires w > 0 && a <= c
    ensures TruncDiv(a, w) <= TruncDiv(c, w)
  {
    hide TruncDiv;
    TruncDivSign(a, w);
    TruncDivSign(c, w);
    if a >= 0 {
      NatQuotientMonotone(a, c, w);
    } else if c < 0 {
      NatQuotientMonotone(-c, -a, w);
    }
  }

  lemma TruncDivOfMultiple(k: int, w: int)
    requires w > 0
    ensures TruncDiv(k * w, w) == k
  {
    if k >= 0 {
      MulMonotone(0, k, w);
      DivModUnique(k * w, w, k, 0);
    } else {
      MulMonotone(k, 0, w);
      MulMonotone(k, -1, w);
      MulDistribute(-k, k, w);
      DivModUnique((-k) * w, w, -k, 0);
    }
  }

  /** A positive index stands for one interval of the width; index 0 for two of them. */
  lemma IndexInterval(d: int, w: int, i: int)
    requires w > 0
    ensures i > 0 ==> (TruncDiv(d, w) == i <==> i * w <= d < i * w + w)
    ensures TruncDiv(d, w) == 0 <==> -w < d < w
  {
    if d >= 0 {
      NatQuotient(d, w);
      if i * w <= d < i * w + w {
        DivModUnique(d, w, i, d - i * w);
      }
      if d < w {
        DivModUnique(d, w, 0, d);
      }
      MulDistribute(i, 1, w);
    } else {
      NatQuotient(-d, w);
      if -d < w {
        DivModUnique(-d, w, 0, -d);
      }
      if i > 0 {
        MulMonotone(1, i, w);
      }
    }
  }

  /** The truncated bucket start of a timestamp is less than a width away, on the side of
      zero. */
  lemma StartNear(t: int, w: int)
    requires w > 0
    ensures var s := TruncDiv(t, w) * w;
            if t >= 0 then s <= t < s + w else s - w < t <= s
    ensures t <= TruncDiv(t, w) * w <==> t <= 0 || t == TruncDiv(t, w) * w
  {
    if t >= 0 {
      NatQuotient(t, w);
      MulDistribute(t / w, 1, w);
    } else {
      var q := (-t) / w;
      NatQuotient(-t, w);
      MulDistribute(q, 1, w);
      MulDistribute(q, -q, w);
    }
  }

  // ----- the index formula

  lemma BucketCount(points: seq<Point>, width: int)
    requires points != [] && Sorted(points) && width > 0
    ensures NumBuckets(points, width) ==
            TruncDiv(points[|points| - 1].ts, width) - TruncDiv(points[0].ts, width) + 1 >= 1
  {
    var q0, q1 := TruncDiv(points[0].ts, width), TruncDiv(points[|points| - 1].ts, width);
    TruncDivMonotone(points[0].ts, points[|points| - 1].ts, width);
    MulDistribute(q1, -q0, width);
    MulDistribute(q0, -q0, width);
    TruncDivOfMultiple(q1 - q0, width);
  }

  /** Every point, of any sign, gets an index inside the bucket array. */
  lemma IndexInRange(points: seq<Point>, width: int, k: nat)
    requires points != [] && Sorted(points) && width > 0 && k < |points|
    ensures 0 <= TruncDiv(points[k].ts - FirstBucket(points, width), width) < NumBuckets(points, width)
  {
    var first := FirstBucket(points, width);
    var t0, t, tl := points[0].ts as int, points[k].ts as int, points[|points| - 1].ts as int;
    var q0, q1 := TruncDiv(t0, width), TruncDiv(tl, width);
    BucketCount(points, width);
    StartNear(t0, width);
    StartNear(tl, width);
    TruncDivMonotone(t - first, tl - first, width);
    TruncDivMonotone(t0 - first, t - first, width);
    IndexInterval(t0 - first, width, 1);
    MulDistribute(q1, -q0, width);
    MulDistribute(q0, -q0, width);
    TruncDivMonotone(t0, tl, width);
    if tl >= 0 {
      if q1 > q0 {
        IndexInterval(tl - first, width, q1 - q0);
      } else {
        assert q1 == q0;
        IndexInterval(tl - first, width, 1);
      }
    } else {
      TruncDivMonotone(tl - first, (q1 - q0) * width, width);
      TruncDivOfMultiple(q1 - q0, width);
    }
    assert TruncDiv(t0 - first, width) == 0;
  }

  // ----- aggregation

  /** The bucket array that the loops leave. */
  function Buckets(points: seq<Point>, width: int): (r: seq<Bucket>)
    requires width > 0 && Sorted(points)
    ensures points != [] ==> |r| == NumBuckets(points, width)
  {
    if points == [] then []
    else
      BucketCount(points, width);
      var first := FirstBucket(points, width);
      seq(NumBuckets(points, width), i requires 0 <= i < NumBuckets(points, width) =>
        Reset(Fold(Members(points, first, width, i), first + i * width)))
  }

  /** No int64 operation of the code wraps on such input. */
  lemma NoWrap(points: seq<Point>, width: int64, k: nat, i: nat)
    requires points != [] && Sorted(points) && width > 0 && NoOverflow(points, width)
    requires k < |points| && i < NumBuckets(points, width)
    ensures var first := FirstBucket(points, width);
            var last := TruncDiv(points[|points| - 1].ts, width) * width;
            Wrap(first) == first && Wrap(last) == last && Wrap(last - first) == last - first &&
            Wrap(points[k].ts as int - first) == points[k].ts as int - first &&
            Wrap(first + i * width) == first + i * width
  {
    hide TruncDiv, NumBuckets, Wrap;
    var t0, t, tl := points[0].ts as int, points[k].ts as int, points[|points| - 1].ts as int;
    var q0, q1 := TruncDiv(t0, width), TruncDiv(tl, width);
    BucketCount(points, width);
    StartFits(t0, width);
    StartFits(tl, width);
    StartNear(t0, width);
    StartNear(tl, width);
    MulMonotone(q0, q0 + i, width);
    MulMonotone(q0 + i, q1, width);
    MulDistribute(q0, i, width);
    NoWrapOf(q0 * width);
    NoWrapOf(q1 * width);
    NoWrapOf(q1 * width - q0 * width);
    NoWrapOf(t - q0 * width);
    NoWrapOf(q0 * width + i * width);
  }

  lemma NoWrapOf(x: int)
    requires -TWO_63 <= x < TWO_63
    ensures Wrap(x) == x
  {
  }

  lemma StartFits(t: int, w: int)
    requires w > 0 && -TWO_63 <= t < TWO_63
    ensures -TWO_63 <= TruncDiv(t, w) * w < TWO_63
  {
    hide TruncDiv;
    StartNear(t, w);
    TruncDivSign(t, w);
    if t >= 0 {
      MulMonotone(0, TruncDiv(t, w), w);
    } else {
      MulMonotone(TruncDiv(t, w), 0, w);
    }
  }

  method Aggregate(points: seq<Point>, bucketWidth: int64) returns (r: Result<seq<Bucket>>)
    requires bucketWidth > 0
    ensures r == Aggregated(points, bucketWidth)
  {
    hide WrappedMembers, Fold, TruncDiv, Wrap, InRange;
    if |points| == 0 {
      return Ok([]);
    }
    StartFits(points[0].ts, bucketWidth);
    StartFits(points[|points| - 1].ts, bucketWidth);
    NoWrapOf(FirstBucket(points, bucketWidth));
    NoWrapOf(LastBucket(points, bucketWidth));
    var firstBucket := Wrap(TruncDiv(points[0].ts, bucketWidth) * bucketWidth) as int;
    var lastBucket := Wrap(TruncDiv(points[|points| - 1].ts, bucketWidth) * bucketWidth) as int;
    var numBuckets := TruncDiv(Wrap(lastBucket - firstBucket), bucketWidth) + 1;
    if numBuckets < 0 {
      return Panic;
    }
    r := Fill(points, bucketWidth, firstBucket, numBuckets);
  }

  /** The three loops: empty buckets, one update a point, reset of the untouched ones. */
  method Fill(points: seq<Point>, bucketWidth: int64, firstBucket: int, numBuckets: nat)
    returns (r: Result<seq<Bucket>>)
    requires bucketWidth > 0
    ensures r == if !InRange(points, firstBucket, bucketWidth, numBuckets) then Panic
                 else Ok(seq(numBuckets, i requires 0 <= i < numBuckets =>
                               Reset(WrappedBucket(points, firstBucket, bucketWidth, i))))
  {
    hide TruncDiv, Wrap, WrappedBucket, Extend;
    var buckets := new Bucket[numBuckets];
    for i := 0 to numBuckets
      invariant forall j :: 0 <= j < i ==> buckets[j] == WrappedBucket([], firstBucket, bucketWidth, j)
    {
      NothingYet(firstBucket, bucketWidth, i);
      buckets[i] := Bucket(Wrap(firstBucket + i * bucketWidth), 0, 0, MAX_FLOAT, MIN_FLOAT);
    }
    assert points[..0] == [];
    for k := 0 to |points|
      invariant InRange(points[..k], firstBucket, bucketWidth, numBuckets)
      invariant forall j :: 0 <= j < numBuckets ==>
        buckets[j] == WrappedBucket(points[..k], firstBucket, bucketWidth, j)
    {
      var bIdx := TruncDiv(Wrap(points[k].ts as int - firstBucket), bucketWidth);
      if bIdx < 0 || bIdx >= numBuckets {
        return Panic;
      }
      forall j | 0 <= j < numBuckets
        ensures WrappedBucket(points[..k + 1], firstBucket, bucketWidth, j) ==
                if j == bIdx then Extend(buckets[j], points[k].val) else buckets[j]
      {
        OneMore(points, firstBucket, bucketWidth, k, j);
      }
      buckets[bIdx] := Extend(buckets[bIdx], points[k].val);
    }
    assert points[..|points|] == points;
    for i := 0 to numBuckets
      invariant forall j :: 0 <= j < numBuckets ==>
        var b := WrappedBucket(points, firstBucket, bucketWidth, j);
        buckets[j] == if j < i then Reset(b) else b
    {
      buckets[i] := Reset(buckets[i]);
    }
    assert buckets[..] == seq(numBuckets, i requires 0 <= i < numBuckets =>
                                Reset(WrappedBucket(points, firstBucket, bucketWidth, i)));
    r := Ok(buckets[..]);
  }

  // ----- when the wrap-around does not matter

  lemma {:induction false} SameMembers(points: seq<Point>, first: int, width: int, i: int)
    requires width > 0
    requires forall k :: 0 <= k < |points| ==> Wrap(points[k].ts - first) == points[k].ts - first
    ensures WrappedMembers(points, first, width, i) == Members(points, first, width, i)
  {
    hide TruncDiv, Wrap;
    if points != [] {
      SameMembers(points[..|points| - 1], first, width, i);
    }
  }

  lemma SmallSpans(points: seq<Point>, width: int64)
    requires points != [] && Sorted(points) && width > 0 && NoOverflow(points, width)
    ensures Aggregated(points, width) == Ok(Buckets(points, width))
  {
    hide TruncDiv, Wrap, NoOverflow, NumBuckets, FirstBucket, Members, WrappedMembers, Fold, Reset;
    var first, n := FirstBucket(points, width), NumBuckets(points, width);
    BucketCount(points, width);
    SameCount(points, width);
    forall k | 0 <= k < |points|
      ensures Wrap(points[k].ts - first) == points[k].ts - first && 0 <= WrappedIndex(points[k].ts, first, width) < n
    {
      NoWrap(points, width, k, 0);
      IndexInRange(points, width, k);
    }
    forall i | 0 <= i < n
      ensures WrappedBucket(points, first, width, i) == Fold(Members(points, first, width, i), first + i * width)
    {
      NoWrap(points, width, 0, i);
      SameMembers(points, first, width, i);
    }
    hide Buckets, WrappedBucket;
    SameBuckets(points, width);
  }

  lemma SameBuckets(points: seq<Point>, width: int)
    requires points != [] && Sorted(points) && width > 0
    requires var first, n := FirstBucket(points, width), NumBuckets(points, width);
             WrappedCount(points, width) == n && InRange(points, first, width, n) &&
             forall i :: 0 <= i < n ==>
               WrappedBucket(points, first, width, i) == Fold(Members(points, first, width, i), first + i * width)
    ensures Aggregated(points, width) == Ok(Buckets(points, width))
  {
    hide NumBuckets, WrappedCount, InRange, WrappedBucket, Members, Fold, Reset, FirstBucket;
    BucketCount(points, width);
    var r := Aggregated(points, width);
    assert r.value == Buckets(points, width);
  }

  lemma SameCount(points: seq<Point>, width: int64)
    requires points != [] && Sorted(points) && width > 0 && NoOverflow(points, width)
    ensures WrappedCount(points, width) == NumBuckets(points, width)
  {
    hide TruncDiv, Wrap, NoOverflow;
    BucketCount(points, width);
    NoWrap(points, width, 0, 0);
  }

  /** Beyond an int64 the difference turns negative. */
  lemma WrapsDown(d: int)
    requires TWO_63 <= d < TWO_64
    ensures Wrap(d) == d - TWO_64 < 0
  {
  }

  lemma NegativeQuotient(d: int, w: int)
    requires d < 0 && w > 0
    ensures TruncDiv(d, w) <= 0
  {
    TruncDivSign(d, w);
  }

  /** A bucket range beyond an int64 leaves at most one bucket, where two are due. */
  lemma WideRange(points: seq<Point>, width: int64)
    requires points != [] && Sorted(points) && width > 0
    requires LastBucket(points, width) - FirstBucket(points, width) >= TWO_63
    ensures WrappedCount(points, width) <= 1 < NumBuckets(points, width)
  {
    hide TruncDiv, Wrap;
    var q0, q1 := TruncDiv(points[0].ts, width), TruncDiv(points[|points| - 1].ts, width);
    BucketCount(points, width);
    StartFits(points[0].ts, width);
    StartFits(points[|points| - 1].ts, width);
    var d := LastBucket(points, width) - FirstBucket(points, width);
    WrapsDown(d);
    NegativeQuotient(d - TWO_64, width);
    if q1 <= q0 {
      MulMonotone(q1, q0, width);
      assert false;
    }
  }

  /** A point that far from the first bucket gets no index above 0. */
  lemma FarPoint(t: int64, first: int64, width: int64)
    requires width > 0 && t as int - first as int >= TWO_63
    ensures WrappedIndex(t, first, width) <= 0 < TruncDiv(t as int - first as int, width)
  {
    hide TruncDiv, Wrap;
    var d := t as int - first as int;
    WrapsDown(d);
    NegativeQuotient(d - TWO_64, width);
    TruncDivMonotone(width, d, width);
    IndexInterval(width, width, 1);
  }

  /** Above 0 every computed index is a true one, so that no bucket above 0 gets too many
      points. */
  lemma {:induction false} FewerMembers(points: seq<Point>, first: int64, width: int64, i: int)
    requires width > 0 && i > 0
    requires forall k :: 0 <= k < |points| ==> points[k].ts as int - first as int > -TWO_63
    ensures |WrappedMembers(points, first, width, i)| <= |Members(points, first, width, i)|
    ensures points != [] && TruncDiv(points[|points| - 1].ts as int - first as int, width) == i
            && WrappedIndex(points[|points| - 1].ts, first, width) != i ==>
            |WrappedMembers(points, first, width, i)| < |Members(points, first, width, i)|
  {
    hide TruncDiv, Wrap;
    if points != [] {
      var n := |points| - 1;
      FewerMembers(points[..n], first, width, i);
      var d := points[n].ts as int - first as int;
      if d >= TWO_63 {
        FarPoint(points[n].ts, first, width);
      } else {
        NoWrapOf(d);
      }
    }
  }

  lemma CountOf(points: seq<Point>, first: int, width: int, i: int, start: int)
    requires width > 0
    ensures Reset(WrappedBucket(points, first, width, i)).count == |WrappedMembers(points, first, width, i)|
    ensures Reset(Fold(Members(points, first, width, i), start)).count == |Members(points, first, width, i)|
  {
    hide Wrap, TruncDiv, Fold;
    FoldCount(WrappedMembers(points, first, width, i), Wrap(first + i * width));
    FoldCount(Members(points, first, width, i), start);
  }

  /** The last point is too far: its own bucket misses it. */
  lemma MissedPoint(points: seq<Point>, width: int64)
    requires points != [] && Sorted(points) && width > 0
    requires points[|points| - 1].ts - FirstBucket(points, width) >= TWO_63
    ensures Aggregated(points, width) != Ok(Buckets(points, width))
  {
    hide TruncDiv, Wrap, Members, WrappedMembers, NumBuckets, WrappedCount, WrappedBucket, Fold, Reset, InRange;
    var n := |points| - 1;
    StartFits(points[0].ts, width);
    var first: int64 := FirstBucket(points, width);
    var j := TruncDiv(points[n].ts as int - first as int, width);
    IndexInRange(points, width, n);
    FarPoint(points[n].ts, first, width);
    forall k | 0 <= k < |points|
      ensures points[k].ts as int - first as int > -TWO_63
    {
      StartNear(points[0].ts, width);
    }
    FewerMembers(points, first, width, j);
    CountOf(points, first, width, j, first + j * width);
    var r := Aggregated(points, width);
    if r.Ok? && j < |r.value| {
      assert r.value[j].count != Buckets(points, width)[j].count;
    }
  }

  /** The code computes the bucket array if and only if the two differences fit an int64;
      otherwise it panics or returns something else. */
  lemma AggregateExactly(points: seq<Point>, width: int64)
    requires Sorted(points) && width > 0
    ensures Aggregated(points, width) == Ok(Buckets(points, width)) <==> points == [] || NoOverflow(points, width)
  {
    hide Buckets, Aggregated, TruncDiv, Wrap, NumBuckets, WrappedCount;
    if points == [] {
      NothingAggregated(width);
    } else if NoOverflow(points, width) {
      SmallSpans(points, width);
    } else if points[|points| - 1].ts - FirstBucket(points, width) >= TWO_63 {
      MissedPoint(points, width);
    } else {
      WideRange(points, width);
      TooFewBuckets(points, width);
    }
  }

  lemma NothingAggregated(width: int)
    requires width > 0
    ensures Aggregated([], width) == Ok(Buckets([], width))
  {
  }

  lemma TooFewBuckets(points: seq<Point>, width: int)
    requires points != [] && Sorted(points) && width > 0
    requires WrappedCount(points, width) <= 1 < NumBuckets(points, width)
    ensures Aggregated(points, width) != Ok(Buckets(points, width))
  {
    hide TruncDiv, Wrap, NumBuckets, WrappedCount, WrappedBucket, InRange;
  }

  /** Points no further apart than an int64 less the width stay clear of the limits. */
  lemma SpanFits(points: seq<Point>, width: int64)
    requires points != [] && Sorted(points) && width > 0
    requires points[|points| - 1].ts - points[0].ts + width <= TWO_63
    ensures NoOverflow(points, width)
  {
    hide TruncDiv;
    StartNear(points[0].ts, width);
    StartNear(points[|points| - 1].ts, width);
  }

  lemma NothingYet(first: int, width: int, j: int)
    requires width > 0
    ensures WrappedBucket([], first, width, j) == Bucket(Wrap(first + j * width), 0, 0, MAX_FLOAT, MIN_FLOAT)
  {
  }

  lemma OneMore(points: seq<Point>, first: int, width: int, k: nat, j: int)
    requires width > 0 && k < |points|
    ensures var b := WrappedBucket(points[..k], first, width, j);
            WrappedBucket(points[..k + 1], first, width, j) ==
            if WrappedIndex(points[k].ts, first, width) == j then Extend(b, points[k].val) else b
  {
    hide WrappedIndex, Extend, Wrap;
    assert points[..k + 1][..k] == points[..k];
    var m := WrappedMembers(points[..k], first, width, j);
    if WrappedIndex(points[k].ts, first, width) == j {
      assert (m + [points[k]])[..|m|] == m;
    } else {
      assert m + [] == m;
    }
  }

  // ----- what the buckets hold

  lemma {:induction false} FoldCount(members: seq<Point>, start: int)
    ensures Fold(members, start).count == |members| && Fold(members, start).start == start
  {
    if members != [] {
      FoldCount(members[..|members| - 1], start);
    }
  }

  /** The sum is the left-to-right float sum from zero. */
  function FloatSum(vs: seq<uint64>): uint64 {
    if vs == [] then 0 else FloatAdd(FloatSum(vs[..|vs| - 1]), vs[|vs| - 1])
  }

  lemma {:induction false} FoldSum(members: seq<Point>, start: int)
    ensures Fold(members, start).sum == FloatSum(Values(members))
  {
    if members != [] {
      var n := |members| - 1;
      FoldSum(members[..n], start);
      assert Values(members)[..n] == Values(members[..n]);
    }
  }

  /** Bounds of all values that are numbers, each the loop's start value or one of them, and
      attained as soon as one value is finite. */
  ghost predicate Extremes(vs: seq<uint64>, min: uint64, max: uint64) {
    && !NotANumber(min) && !NotANumber(max)
    && (forall v :: v in vs && !NotANumber(v) ==> Scaled(min) <= Scaled(v) <= Scaled(max))
    && (min == MAX_FLOAT || min in vs) && (max == MIN_FLOAT || max in vs)
    && ((exists v :: v in vs && Finite(v)) ==> min in vs && max in vs)
  }

  /** A number replaces a bound exactly when it lies beyond it. */
  lemma ExtremesExtend(vs: seq<uint64>, b: Bucket, v: uint64)
    requires Extremes(vs, b.min, b.max)
    ensures Extremes(vs + [v], Extend(b, v).min, Extend(b, v).max)
  {
    hide NotANumber, Scaled, FloatLess, Finite;
    LessExactly(v, b.min);
    LessExactly(b.max, v);
    if Finite(v) {
      LargestFinite(v);
      OnlyLargest(v);
    }
  }

  lemma NoExtremes()
    ensures Extremes([], MAX_FLOAT, MIN_FLOAT)
  {
  }

  lemma {:induction false} FoldExtremes(members: seq<Point>, start: int)
    ensures Extremes(Values(members), Fold(members, start).min, Fold(members, start).max)
  {
    hide Extremes, Extend;
    if members == [] {
      assert Values(members) == [];
      NoExtremes();
    } else {
      var n := |members| - 1;
      FoldExtremes(members[..n], start);
      ExtremesExtend(Values(members[..n]), Fold(members[..n], start), members[n].val);
      assert Values(members) == Values(members[..n]) + [members[n].val];
    }
  }

  /** Bucket starts are multiples of the width, one width apart; the first and the last are
      the first and the last timestamp truncated toward zero. */
  lemma BucketStarts(points: seq<Point>, width: int, i: nat)
    requires points != [] && width > 0 && Sorted(points) && i < NumBuckets(points, width)
    ensures var first := FirstBucket(points, width);
            var last := first + (NumBuckets(points, width) - 1) * width;
            var t0, tl := points[0].ts, points[|points| - 1].ts;
            && (first + i * width) % width == 0
            && (if t0 >= 0 then first <= t0 < first + width else first - width < t0 <= first)
            && (if tl >= 0 then last <= tl < last + width else last - width < tl <= last)
  {
    hide TruncDiv, NumBuckets;
    var q0, q1 := TruncDiv(points[0].ts, width), TruncDiv(points[|points| - 1].ts, width);
    StartNear(points[0].ts, width);
    StartNear(points[|points| - 1].ts, width);
    BucketCount(points, width);
    MulDistribute(q0, q1 - q0, width);
    MulDistribute(q0, i, width);
    DivModUnique((q0 + i) * width, width, q0 + i, 0);
  }

  /** Bucket i in full: count, sum and true extremes of the points the index formula sends
      there; zeros when there are none. */
  lemma BucketContents(points: seq<Point>, width: int, i: nat)
    requires points != [] && width > 0 && Sorted(points) && i < NumBuckets(points, width)
    ensures var b := Buckets(points, width)[i];
            var first := FirstBucket(points, width);
            var members := Members(points, first, width, i);
            && b.start == first + i * width && b.count == |members|
            && b.sum == FloatSum(Values(members))
            && (members == [] ==> b.min == 0 && b.max == 0)
            && (members != [] ==> Extremes(Values(members), b.min, b.max))
  {
    hide Members, Fold, NumBuckets, FirstBucket, FloatSum, Extremes;
    var first := FirstBucket(points, width);
    var members := Members(points, first, width, i);
    FoldCount(members, first + i * width);
    FoldSum(members, first + i * width);
    FoldExtremes(members, first + i * width);
  }

  /** The members of a bucket past the first are the points of its interval. */
  lemma {:induction false} MembersAreWithin(points: seq<Point>, first: int, width: int, i: int)
    requires width > 0 && i >= 0
    requires i > 0 || forall k :: 0 <= k < |points| ==> points[k].ts >= first
    ensures Members(points, first, width, i) ==
            Query.Within(points, first + i * width, first + i * width + width - 1)
  {
    hide TruncDiv;
    if points != [] {
      var n := |points| - 1;
      var init := points[..n];
      assert forall k :: 0 <= k < n ==> init[k] == points[k];
      MembersAreWithin(init, first, width, i);
      IndexInterval(points[n].ts - first, width, i);
    }
  }

  lemma {:induction false} MembersKeep(points: seq<Point>, first: int, width: int, i: int, k: nat)
    requires width > 0 && k < |points| && TruncDiv(points[k].ts - first, width) == i
    ensures points[k] in Members(points, first, width, i)
  {
    hide TruncDiv;
    if k < |points| - 1 {
      MembersKeep(points[..|points| - 1], first, width, i, k);
    }
  }

  /** Each bucket holds exactly the points of its own interval [start, start + width), for
      all buckets, if and only if the first timestamp is not negative or is a multiple of
      the width: otherwise truncation puts points before the first start into bucket 0. */
  lemma BucketsMatchIntervalsExactly(points: seq<Point>, width: int)
    requires points != [] && width > 0 && Sorted(points)
    ensures (forall i: int :: 0 <= i < NumBuckets(points, width) ==>
              var start := FirstBucket(points, width) + i * width;
              Members(points, FirstBucket(points, width), width, i) == Query.Within(points, start, start + width - 1))
            <==> points[0].ts >= 0 || points[0].ts == FirstBucket(points, width)
  {
    hide Members, Query.Within;
    var first := FirstBucket(points, width);
    var t0 := points[0].ts as int;
    StartNear(t0, width);
    BucketCount(points, width);
    if t0 >= 0 || t0 == first {
      forall i: int | 0 <= i < NumBuckets(points, width)
        ensures var start := first + i * width;
                Members(points, first, width, i) == Query.Within(points, start, start + width - 1)
      {
        MembersAreWithin(points, first, width, i);
      }
    } else {
      assert t0 < first;
      IndexInterval(t0 - first, width, 1);
      MembersKeep(points, first, width, 0, 0);
      Query.WithinContent(points, first, first + width - 1, points[0]);
      assert first + 0 * width == first;
      var inside := Query.Within(points, first, first + width - 1);
      assert points[0] !in inside by { assert multiset(inside)[points[0]] == 0; }
      assert Members(points, first, width, 0) != Query.Within(points, first + 0 * width, first + 0 * width + width - 1);
    }
  }

  // ----- no point is lost

  function CountUpTo(points: seq<Point>, first: int, width: int, n: nat): nat
    requires width > 0
  {
    if n == 0 then 0 else CountUpTo(points, first, width, n - 1) + |Members(points, first, width, n - 1)|
  }

  lemma {:induction false} CountExtends(points: seq<Point>, first: int, width: int, n: nat)
    requires width > 0 && points != []
    ensures var m := |points| - 1;
            var i := TruncDiv(points[m].ts - first, width);
            CountUpTo(points, first, width, n) ==
            CountUpTo(points[..m], first, width, n) + if 0 <= i < n then 1 else 0
  {
    hide TruncDiv;
    if n > 0 {
      CountExtends(points, first, width, n - 1);
    }
  }

  lemma {:induction false} CountsOfPrefix(points: seq<Point>, width: int, k: nat)
    requires points != [] && width > 0 && Sorted(points) && k <= |points|
    ensures var n := NumBuckets(points, width);
            n >= 0 && CountUpTo(points[..k], FirstBucket(points, width), width, n) == k
  {
    hide TruncDiv, NumBuckets, FirstBucket;
    BucketCount(points, width);
    var first, n := FirstBucket(points, width), NumBuckets(points, width);
    if k == 0 {
      NoCounts(first, width, n);
    } else {
      CountsOfPrefix(points, width, k - 1);
      IndexInRange(points, width, k - 1);
      assert points[..k][..k - 1] == points[..k - 1];
      CountExtends(points[..k], first, width, n);
    }
  }

  lemma {:induction false} NoCounts(first: int, width: int, n: nat)
    requires width > 0
    ensures CountUpTo([], first, width, n) == 0
  {
    if n > 0 {
      NoCounts(first, width, n - 1);
    }
  }

  /** Every point is counted in exactly one bucket, whatever the signs. */
  lemma CountsSumToInput(points: seq<Point>, width: int)
    requires points != [] && width > 0 && Sorted(points)
    ensures var n := NumBuckets(points, width);
            n >= 1 && CountUpTo(points, FirstBucket(points, width), width, n) == |points|
  {
    BucketCount(points, width);
    CountsOfPrefix(points, width, |points|);
    assert points[..|points|] == points;
  }
}
