/** The in-memory write buffer (internal/memtable/memtable.go). */
module Memtable {
  import opened Words
  import opened Points
  import opened Tables

  /** The Go map that holds the series; freezing shares it between two memtables. */
  class SeriesMap {
    var m: Table

    constructor ()
      ensures m == map[]
    {
      m := map[];
    }
  }

  lemma SameLength(a: seq<Point>, b: seq<Point>)
    requires multiset(a) == multiset(b)
    ensures |a| == |b|
  {
    assert |a| == |multiset(a)| == |multiset(b)| == |b|;
  }

  lemma ExistingSorted(t: Table, id: uint64)
    requires Ordered(t)
    ensures Sorted(if id in t then t[id] else [])
  {
  }

  lemma NothingAdded(t: Table, id: uint64)
    ensures Added(t, t, id, [])
  {
  }

  lemma InsertedSeries(before: Table, id: uint64, points: seq<Point>, all: seq<Point>)
    requires Ordered(before) && points != [] && Sorted(all)
    requires multiset(all) == PointsOf(before, id) + multiset(points)
    ensures Ordered(before[id := all]) && Added(before, before[id := all], id, points)
    ensures Total(before[id := all]) == Total(before) + |points|
  {
    hide Sorted, Total;
    assert points[0] in multiset(all);
    TotalAdded(before, before[id := all], id, points);
  }

  class Memtable {
    var series: SeriesMap
    var sizeBytes: nat
    var frozen: bool

    ghost predicate Valid()
      reads this, series
    {
      Ordered(series.m) && sizeBytes == 16 * Total(series.m)
    }

    constructor ()
      ensures Valid() && fresh(series) && series.m == map[] && !frozen
    {
      series := new SeriesMap();
      sizeBytes, frozen := 0, false;
    }

    /** The sharing half of Freeze: a second memtable over the same map. */
    constructor Snapshot(series: SeriesMap, sizeBytes: nat)
      requires Ordered(series.m) && sizeBytes == 16 * Total(series.m)
      ensures Valid() && this.series == series && this.sizeBytes == sizeBytes && frozen
    {
      this.series, this.sizeBytes, frozen := series, sizeBytes, true;
    }

    /** Inserting into a frozen memtable panics. */
    method Insert(id: uint64, points: seq<Point>)
      requires Valid() && !frozen
      modifies this`sizeBytes, series
      ensures Valid()
      ensures Added(old(series.m), series.m, id, points)
      ensures sizeBytes == old(sizeBytes) + 16 * |points|
    {
      hide Total, Added, Sorted;
      if |points| == 0 {
        NothingAdded(series.m, id);
        return;
      }
      var sorted := SortByTimestamp(points);
      SameLength(sorted, points);
      var existing := if id in series.m then series.m[id] else [];
      ExistingSorted(series.m, id);
      var needSort := |existing| > 0 && sorted[0].ts < existing[|existing| - 1].ts;
      var all := existing + sorted;
      if needSort {
        all := SortByTimestamp(all);
      } else {
        SortedConcat(existing, sorted);
      }
      InsertedSeries(series.m, id, points, all);
      series.m := series.m[id := all];
      sizeBytes := sizeBytes + |points| * 16;
    }

    method Get(id: uint64) returns (points: seq<Point>)
      requires Valid()
      ensures Sorted(points) && points == if id in series.m then series.m[id] else []
    {
      points := if id in series.m then series.m[id] else [];
    }

    /** A copy of the whole table. */
    method GetAll() returns (out: Table)
      requires Valid()
      ensures out == series.m
    {
      out := map[];
      var ids := series.m.Keys;
      while ids != {}
        invariant ids <= series.m.Keys
        invariant out.Keys == series.m.Keys - ids
        invariant forall id :: id in out ==> out[id] == series.m[id]
        decreases ids
      {
        var id :| id in ids;
        out := out[id := series.m[id]];
        ids := ids - {id};
      }
    }

    method SizeBytes() returns (n: nat)
      requires Valid()
      ensures n == 16 * Total(series.m)
    {
      n := sizeBytes;
    }

    /** Freezes this memtable and returns a frozen one over the same map: from now on
        neither of them can insert into it. */
    method Freeze() returns (snapshot: Memtable)
      requires Valid()
      modifies this`frozen
      ensures Valid() && frozen
      ensures fresh(snapshot) && snapshot.Valid() && snapshot.frozen
      ensures snapshot.series == series && snapshot.sizeBytes == sizeBytes
    {
      frozen := true;
      snapshot := new Memtable.Snapshot(series, sizeBytes);
    }

    /** Clearing starts over on a map of its own: a snapshot keeps what it had. */
    method Clear()
      modifies this
      ensures Valid() && !frozen && fresh(series) && series.m == map[]
    {
      series := new SeriesMap();
      sizeBytes, frozen := 0, false;
    }
  }

  /** A frozen snapshot outlives anything done to the memtable it was taken from: another
      freeze, and a clear followed by any insert. */
  method SnapshotIsStable(m: Memtable, id: uint64, points: seq<Point>) returns (snapshot: Memtable)
    requires m.Valid()
    modifies m
    ensures fresh(snapshot) && snapshot.Valid() && snapshot.series.m == old(m.series.m)
    ensures Added(map[], m.series.m, id, points)
  {
    snapshot := m.Freeze();
    m.Clear();
    m.Insert(id, points);
  }
}
