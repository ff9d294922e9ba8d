/** Tables from series ID to time-ordered points, the content of a memtable or a segment,
    compared through one multiset of points a series. */
module Tables {
  import opened Words
  import opened Points

  type Table = map<uint64, seq<Point>>

  ghost function PointsOf(t: Table, id: uint64): multiset<Point> {
    if id in t then multiset(t[id]) else multiset{}
  }

  /** Every listed series has points, in time order. */
  ghost predicate Ordered(t: Table) {
    forall id :: id in t ==> t[id] != [] && Sorted(t[id])
  }

  /** after is before with points added to series id. */
  ghost predicate Added(before: Table, after: Table, id: uint64, points: seq<Point>) {
    && after.Keys == before.Keys + (if points == [] then {} else {id})
    && (forall s :: s in before && s != id ==> after[s] == before[s])
    && PointsOf(after, id) == PointsOf(before, id) + multiset(points)
  }

  lemma AddedPoints(before: Table, after: Table, id: uint64, points: seq<Point>, s: uint64)
    requires Added(before, after, id, points)
    ensures PointsOf(after, s) == PointsOf(before, s) + if s == id then multiset(points) else multiset{}
  {
    if s != id {
      assert s in after <==> s in before;
    }
  }

  /** The number of points in all series. */
  ghost function Total(t: Table): nat {
    if t == map[] then 0
    else
      var id :| id in t;
      |t[id]| + Total(t - {id})
  }

  lemma {:induction false} TotalWithout(t: Table, id: uint64)
    requires id in t
    ensures Total(t) == |t[id]| + Total(t - {id})
    decreases |t|
  {
    var pick :| pick in t && Total(t) == |t[pick]| + Total(t - {pick});
    if pick != id {
      TotalWithout(t - {pick}, id);
      TotalWithout(t - {id}, pick);
      assert t - {pick} - {id} == t - {id} - {pick};
    }
  }

  lemma TotalAdded(before: Table, after: Table, id: uint64, points: seq<Point>)
    requires Added(before, after, id, points)
    ensures Total(after) == Total(before) + |points|
  {
    if points == [] && id !in before {
      assert after == before;
    } else {
      assert |after[id]| == |PointsOf(after, id)| == |PointsOf(before, id)| + |multiset(points)|;
      assert after - {id} == before - {id};
      TotalWithout(after, id);
      if id in before {
        TotalWithout(before, id);
      } else {
        assert before - {id} == before;
      }
    }
  }
}
