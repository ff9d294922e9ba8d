/** What a query answers, point by point and in order (internal/engine/engine.go,
    handleQuery, over internal/query/query.go). */
module EngineAnswers {
  import opened Words
  import opened Points
  import opened EngineLog
  import opened EngineState
  import opened EngineInvariant
  import opened EngineLive
  import opened SegmentQuery
  import Aggregate
  import Compaction
  import Query

  datatype QueryResult = QueryResult(id: uint64, buckets: seq<Aggregate.Bucket>, points: seq<Point>)

  function Ids(results: seq<QueryResult>): (ids: seq<uint64>)
    ensures |ids| == |results|
  {
    seq(|results|, i requires 0 <= i < |results| => results[i].id)
  }

  ghost function FrozenSeries(s: State, id: uint64): seq<Point> {
    if s.frozen.None? then [] else SeriesIn(s.frozen.value, id)
  }

  /** Everything visible at time t, in the order of the answer: the active memtable, the
      frozen one, then the segments as the manifest lists them. */
  ghost function VisibleAt(s: State, id: uint64, t: int64): seq<Point> {
    Query.AtTime(SeriesIn(s.active, id), t) + Query.AtTime(FrozenSeries(s, id), t)
    + StoredAt(s.segments, s.files, id, t)
  }

  // ----- the largest timestamp, the merge's end marker

  /** What the segments that are read give: at the largest timestamp nothing, unless only one
      of them has points. */
  ghost function ReadAt(s: State, id: uint64, start: int, end: int, t: int64): seq<Point> {
    var entries := Overlapping(s.segments, start, end);
    if t < MAX_INT64 || Filled(entries, s.files, id) <= 1 then StoredAt(entries, s.files, id, t) else []
  }

  /** How many of the three sources have points. */
  ghost function Sources(s: State, id: uint64, start: int, end: int): nat {
    (if SeriesIn(s.active, id) != [] then 1 else 0) + (if FrozenSeries(s, id) != [] then 1 else 0)
    + (if exists t: int64 :: ReadAt(s, id, start, end, t) != [] then 1 else 0)
  }

  // ----- answers

  /** The points of the answer at time t: all visible ones of the range; at the largest
      timestamp those of a single source, if there is no other. */
  ghost function AnsweredAt(s: State, id: uint64, start: int, end: int, t: int64): seq<Point> {
    if !(start <= t <= end) then []
    else if t < MAX_INT64 then VisibleAt(s, id, t)
    else if Sources(s, id, start, end) <= 1 then
      Query.AtTime(SeriesIn(s.active, id), t) + Query.AtTime(FrozenSeries(s, id), t) + ReadAt(s, id, start, end, t)
    else []
  }

  ghost predicate IsAnswer(s: State, id: uint64, start: int, end: int, points: seq<Point>) {
    Sorted(points) && forall t: int64 :: Query.AtTime(points, t) == AnsweredAt(s, id, start, end, t)
  }

  /** There is only one answer. */
  lemma AnswerUnique(s: State, id: uint64, start: int, end: int, a: seq<Point>, b: seq<Point>)
    requires IsAnswer(s, id, start, end, a) && IsAnswer(s, id, start, end, b)
    ensures a == b
  {
    hide Sorted, AnsweredAt, Query.AtTime;
    forall t: int64
      ensures Query.AtTime(a, t) == Query.AtTime(b, t)
    {
      assert Query.AtTime(a, t) == AnsweredAt(s, id, start, end, t);
    }
    Query.StableMergeUnique(a, b);
  }

  ghost predicate InsideRange(points: seq<Point>, start: int, end: int) {
    Sorted(points) && forall p :: p in points ==> start <= p.ts <= end
  }

  /** The result carries the answer, or what the aggregation makes of it when a width is
      asked for. */
  ghost predicate Answers(s: State, r: QueryResult, start: int, end: int, width: int) {
    if width > 0 then
      && r.points == []
      && exists points ::
           IsAnswer(s, r.id, start, end, points) && Aggregate.Aggregated(points, width) == Ok(r.buckets)
    else r.buckets == [] && IsAnswer(s, r.id, start, end, r.points)
  }

  lemma AnswerKept(s: State, r: QueryResult, start: int, end: int, width: int, points: seq<Point>)
    requires IsAnswer(s, r.id, start, end, points)
    requires r.points == if width > 0 then [] else points
    requires if width > 0 then Aggregate.Aggregated(points, width) == Ok(r.buckets) else r.buckets == []
    ensures Answers(s, r, start, end, width)
  {
    hide IsAnswer, Aggregate.Aggregated;
  }

  /** A range that fits an int64 with its bucket width never makes the aggregation panic. */
  lemma InRangeFits(points: seq<Point>, start: int, end: int, width: int64)
    requires InsideRange(points, start, end) && width > 0
    ensures end - start + width <= TWO_63 ==>
              Aggregate.Aggregated(points, width) == Ok(Aggregate.Buckets(points, width))
  {
    hide Sorted, Aggregate.Buckets, Aggregate.Aggregated, Aggregate.NoOverflow;
    Aggregate.AggregateExactly(points, width);
    if points != [] && end - start + width <= TWO_63 {
      assert points[0] in points && points[|points| - 1] in points;
      Aggregate.SpanFits(points, width);
    }
  }

  lemma WithinIsInside(points: seq<Point>, start: int, end: int)
    requires Sorted(points)
    ensures InsideRange(Query.Within(points, start, end), start, end)
  {
    hide Sorted, Query.Within;
    Query.WithinSorted(points, start, end);
    var inside := Query.Within(points, start, end);
    forall p | p in inside
      ensures start <= p.ts <= end
    {
      Query.WithinContent(points, start, end, p);
      assert p in multiset(inside);
    }
  }

  // ----- the merged and filtered lists are the answer

  lemma ThreeLists(a: seq<Point>, f: seq<Point>, g: seq<Point>, t: int64)
    ensures Query.AllAtTime([a, f, g], t) == Query.AtTime(a, t) + Query.AtTime(f, t) + Query.AtTime(g, t)
    ensures Query.Active([a, f, g])
         == (if a != [] then 1 else 0) + (if f != [] then 1 else 0) + (if g != [] then 1 else 0)
  {
    hide Query.AtTime;
    assert [a, f, g][..2] == [a, f] && [a, f][..1] == [a] && [a][..0] == [];
    assert Query.AllAtTime([a], t) == Query.AtTime(a, t);
    assert Query.AllAtTime([a, f], t) == Query.AtTime(a, t) + Query.AtTime(f, t);
    assert Query.Active([a]) == (if a != [] then 1 else 0);
    assert Query.Active([a, f]) == (if a != [] then 1 else 0) + (if f != [] then 1 else 0);
  }

  lemma SegmentListsSorted(s: State, start: int, end: int, id: uint64)
    requires Inv(s)
    ensures forall path :: path in PathList(Overlapping(s.segments, start, end)) ==> Sorted(ListIn(path, s.files, id))
  {
    hide Inv, Sorted, Stored, ListIn;
    var entries := Overlapping(s.segments, start, end);
    SegmentsAreStored(s);
    forall path | path in PathList(entries)
      ensures Sorted(ListIn(path, s.files, id))
    {
      var i :| 0 <= i < |entries| && PathList(entries)[i] == path;
      assert entries[i] in s.segments;
      StoredList(entries[i], s.files, id);
    }
  }

  lemma SegmentPart(s: State, id: uint64, start: int, end: int, segPts: seq<Point>, t: int64)
    requires Inv(s)
    requires Query.IsMerge(ListsIn(PathList(Overlapping(s.segments, start, end)), s.files, id), segPts)
    ensures Query.AtTime(segPts, t) == ReadAt(s, id, start, end, t)
  {
    hide Inv, Stored, Overlapping, PathList, ListsIn, StoredAt, Filled, Sorted, Query.AtTime, Query.AllAtTime,
      Query.Active;
    SegmentsAreStored(s);
    ListsAt(Overlapping(s.segments, start, end), s.files, id, t);
  }

  lemma SomePoint(points: seq<Point>)
    ensures points != [] <==> exists t: int64 :: Query.AtTime(points, t) != []
  {
    if points != [] {
      Query.AtTimePresent(points, points[0].ts, 0);
    }
  }

  lemma CountSources(s: State, id: uint64, start: int, end: int, segPts: seq<Point>)
    requires Inv(s)
    requires Query.IsMerge(ListsIn(PathList(Overlapping(s.segments, start, end)), s.files, id), segPts)
    ensures Query.Active([SeriesIn(s.active, id), FrozenSeries(s, id), segPts]) == Sources(s, id, start, end)
  {
    hide Inv, Query.IsMerge, ReadAt, Query.AtTime, Query.AllAtTime, Query.Active, Overlapping, PathList, ListsIn;
    SomePoint(segPts);
    if segPts != [] {
      var t: int64 :| Query.AtTime(segPts, t) != [];
      SegmentPart(s, id, start, end, segPts, t);
      assert ReadAt(s, id, start, end, t) != [];
    } else if exists t: int64 :: ReadAt(s, id, start, end, t) != [] {
      var t: int64 :| ReadAt(s, id, start, end, t) != [];
      SegmentPart(s, id, start, end, segPts, t);
      assert false;
    }
    ThreeLists(SeriesIn(s.active, id), FrozenSeries(s, id), segPts, 0);
  }

  lemma {:induction false} WithinAt(points: seq<Point>, start: int, end: int, t: int64)
    ensures Query.AtTime(Query.Within(points, start, end), t)
         == if start <= t <= end then Query.AtTime(points, t) else []
  {
    if points != [] {
      var n := |points| - 1;
      WithinAt(points[..n], start, end, t);
      var init := Query.Within(points[..n], start, end);
      Query.AtTimeConcat(init, [points[n]], t);
      Query.AtTimeConcat(points[..n], [points[n]], t);
      assert points == points[..n] + [points[n]] && init + [] == init;
      if points[n].ts != t {
        Query.AtTimeAbsent([points[n]], t);
      }
    }
  }

  /** The merged and filtered lists are the answer. */
  lemma AnswerIsExact(s: State, id: uint64, start: int, end: int, segPts: seq<Point>, merged: seq<Point>)
    requires Inv(s)
    requires Query.IsMerge(ListsIn(PathList(Overlapping(s.segments, start, end)), s.files, id), segPts)
    requires Query.IsMerge([SeriesIn(s.active, id), FrozenSeries(s, id), segPts], merged)
    ensures IsAnswer(s, id, start, end, Query.Within(merged, start, end))
  {
    hide Inv, Sorted, Query.IsMerge, Overlapping, PathList, ListsIn, Query.Within, Query.AtTime, VisibleAt, Sources,
      ReadAt;
    Query.MergeSorted([SeriesIn(s.active, id), FrozenSeries(s, id), segPts], merged);
    Query.WithinSorted(merged, start, end);
    forall t: int64
      ensures Query.AtTime(Query.Within(merged, start, end), t) == AnsweredAt(s, id, start, end, t)
    {
      WithinAt(merged, start, end, t);
      if start <= t <= end {
        AnswerAt(s, id, start, end, segPts, merged, t);
      }
    }
  }

  lemma AnswerAt(s: State, id: uint64, start: int, end: int, segPts: seq<Point>, merged: seq<Point>, t: int64)
    requires Inv(s) && start <= t <= end
    requires Query.IsMerge(ListsIn(PathList(Overlapping(s.segments, start, end)), s.files, id), segPts)
    requires Query.IsMerge([SeriesIn(s.active, id), FrozenSeries(s, id), segPts], merged)
    ensures Query.AtTime(merged, t) == AnsweredAt(s, id, start, end, t)
  {
    hide Inv, Sorted, Overlapping, PathList, ListsIn, Query.AtTime, Query.AllAtTime, Query.Active, Sources, StoredAt,
      Filled, Stored, SeriesIn, FrozenSeries;
    var a, f := SeriesIn(s.active, id), FrozenSeries(s, id);
    SegmentPart(s, id, start, end, segPts, t);
    CountSources(s, id, start, end, segPts);
    ThreeLists(a, f, segPts, t);
    SegmentsAreStored(s);
    PruningLossless(s.segments, s.files, start, end, id, t);
  }

  // ----- the answer in terms of points and of writes

  lemma VisibleAtCount(s: State, id: uint64, p: Point)
    ensures multiset(VisibleAt(s, id, p.ts))[p] == Visible(s, id)[p]
  {
    hide Query.AtTime, StoredAt, Compaction.UnionPoints;
    Query.AtTimeCount(SeriesIn(s.active, id), p);
    Query.AtTimeCount(FrozenSeries(s, id), p);
    StoredAtCount(s.segments, s.files, id, p);
  }

  /** An answer has the visible points of the range, each as often as it is visible; only
      points at the largest timestamp may be missing. */
  lemma AnswerContent(s: State, id: uint64, start: int, end: int, points: seq<Point>, p: Point)
    requires IsAnswer(s, id, start, end, points)
    ensures start <= p.ts <= end && p.ts < MAX_INT64 ==> multiset(points)[p] == Visible(s, id)[p]
    ensures multiset(points)[p] <= if start <= p.ts <= end then Visible(s, id)[p] else 0
  {
    hide Sorted, Query.AtTime, Visible, StoredAt, Sources, Filled, Overlapping;
    var t := p.ts;
    Query.AtTimeCount(points, p);
    VisibleAtCount(s, id, p);
    assert Query.AtTime(points, t) == AnsweredAt(s, id, start, end, t);
    OverlappingAmong(s.segments, s.files, start, end, id, p);
  }

  /** What a query returns, in terms of writes: with flush results in order and one flush in
      flight, the answer of any state between events has, at each point of the range, the
      acknowledged points that retention has not removed, each as often as it was written (and
      once more for each crash between two saves); outside the range it has none. Points at
      the largest timestamp may be missing. */
  lemma AnswerIsAcknowledged(states: seq<State>, events: seq<Event>, i: nat, id: uint64, start: int, end: int,
                             points: seq<Point>, p: Point)
    requires IsOrderlyRun(states, events) && i < |states| && states[i].phase.Idle?
    requires forall j :: 0 <= j < i ==> SingleFlight(states[j], events[j])
    requires IsAnswer(states[i], id, start, end, points)
    ensures start <= p.ts <= end && p.ts < MAX_INT64 ==>
              multiset(points)[p] + FilePoints(states[i].dropped, id)[p]
              == LogPoints(states[i].log, id)[p] + FilePoints(states[i].extra, id)[p]
    ensures multiset(points)[p] + FilePoints(states[i].dropped, id)[p]
         <= LogPoints(states[i].log, id)[p] + FilePoints(states[i].extra, id)[p]
    ensures !(start <= p.ts <= end) ==> p !in points
  {
    hide IsOrderlyRun, SingleFlight, Visible, FilePoints, LogPoints, IsAnswer;
    var s := states[i];
    LiveConservation(states, events, i, id);
    AnswerContent(s, id, start, end, points, p);
    assert (Visible(s, id) + FilePoints(s.dropped, id))[p] == (LogPoints(s.log, id) + FilePoints(s.extra, id))[p];
    if p in points {
      assert multiset(points)[p] > 0;
    }
  }

  lemma EmptySorted()
    ensures Sorted([])
  {
  }
}
