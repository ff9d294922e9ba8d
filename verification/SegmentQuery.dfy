/** Reading a series across segments for a query (internal/query/query.go, ReadSegments), and
    why skipping segments by their time bounds loses nothing. */
module SegmentQuery {
  import opened Words
  import opened Points
  import opened Tables
  import opened Manifest
  import opened Query
  import opened EngineInvariant
  import Compaction
  import SegmentReader
  import StoredTables

  /** The points of a series in one file; a file that does not open or decode has none. */
  function ListIn(path: Path, files: map<Path, seq<byte>>, id: uint64): seq<Point> {
    if path !in files then []
    else
      var r := SegmentReader.Open(files[path]);
      if !r.Ok? then []
      else
        var pts := SegmentReader.Lookup(r.value, id);
        if pts.Ok? then pts.value else []
  }

  /** The lists to merge, in path order. */
  function ListsIn(paths: seq<Path>, files: map<Path, seq<byte>>, id: uint64): seq<seq<Point>> {
    if paths == [] then []
    else
      var n := |paths| - 1;
      ListsIn(paths[..n], files, id) + if ListIn(paths[n], files, id) == [] then [] else [ListIn(paths[n], files, id)]
  }

  lemma {:induction false} ListsSorted(paths: seq<Path>, files: map<Path, seq<byte>>, id: uint64)
    requires forall path :: path in paths ==> Sorted(ListIn(path, files, id))
    ensures AllSorted(ListsIn(paths, files, id))
  {
    hide ListIn, Sorted;
    if paths != [] {
      var n := |paths| - 1;
      assert paths[n] in paths;
      ListsSorted(paths[..n], files, id);
    }
  }

  /** Unreadable files are skipped; the rest is merged. */
  method ReadSegments(paths: seq<Path>, files: map<Path, seq<byte>>, id: uint64) returns (r: seq<Point>)
    requires forall path :: path in paths ==> Sorted(ListIn(path, files, id))
    ensures IsMerge(ListsIn(paths, files, id), r)
  {
    hide Sorted, IsMerge, SegmentReader.Open, SegmentReader.Lookup;
    var all: seq<seq<Point>> := [];
    for i := 0 to |paths|
      invariant all == ListsIn(paths[..i], files, id)
    {
      assert paths[..i + 1][..i] == paths[..i];
      assert all + [] == all;
      if paths[i] in files {
        var reader := SegmentReader.OpenReader(files[paths[i]]);
        if reader.Ok? {
          var pts := SegmentReader.ReadSeries(reader.value, id);
          if pts.Ok? && |pts.value| > 0 {
            all := all + [pts.value];
          }
        }
      }
    }
    assert paths[..|paths|] == paths;
    ListsSorted(paths, files, id);
    r := Merge(all);
  }

  // ----- content

  /** The points of a series in a table. */
  function SeriesIn(t: Table, id: uint64): seq<Point> {
    if id in t then t[id] else []
  }

  ghost function SeriesOf(e: SegmentEntry, files: map<Path, seq<byte>>, id: uint64): seq<Point> {
    if e.path in files then SeriesIn(StoredTables.Content(files[e.path]), id) else []
  }

  /** A stored entry's list is the series of its table. */
  lemma StoredList(e: SegmentEntry, files: map<Path, seq<byte>>, id: uint64)
    requires Stored(e, files)
    ensures Sorted(ListIn(e.path, files, id)) && ListIn(e.path, files, id) == SeriesOf(e, files, id)
  {
    hide SegmentReader.Open, SegmentReader.Lookup, StoredTables.Content, Compaction.Bounds, SegmentReader.AllOf;
  }

  /** The paths of entries, in order. */
  function PathList(entries: seq<SegmentEntry>): (r: seq<Path>)
    ensures |r| == |entries| && forall i :: 0 <= i < |entries| ==> r[i] == entries[i].path
  {
    seq(|entries|, i requires 0 <= i < |entries| => entries[i].path)
  }

  /** What entries hold of a series at time t, one after the other. */
  ghost function StoredAt(entries: seq<SegmentEntry>, files: map<Path, seq<byte>>, id: uint64, t: int64): seq<Point> {
    if entries == [] then []
    else
      var n := |entries| - 1;
      StoredAt(entries[..n], files, id, t) + AtTime(SeriesOf(entries[n], files, id), t)
  }

  /** How many of the entries have points of the series. */
  ghost function Filled(entries: seq<SegmentEntry>, files: map<Path, seq<byte>>, id: uint64): nat {
    if entries == [] then 0
    else
      var n := |entries| - 1;
      Filled(entries[..n], files, id) + if SeriesOf(entries[n], files, id) != [] then 1 else 0
  }

  /** The lists that are merged are the entries' series, empty ones left out. */
  lemma {:induction false} ListsAt(entries: seq<SegmentEntry>, files: map<Path, seq<byte>>, id: uint64, t: int64)
    requires forall e :: e in entries ==> Stored(e, files)
    ensures AllAtTime(ListsIn(PathList(entries), files, id), t) == StoredAt(entries, files, id, t)
    ensures Active(ListsIn(PathList(entries), files, id)) == Filled(entries, files, id)
  {
    hide Stored, ListIn, SeriesOf, Sorted, AtTime;
    if entries != [] {
      var n := |entries| - 1;
      assert entries[n] in entries;
      ListsAt(entries[..n], files, id, t);
      StoredList(entries[n], files, id);
      assert PathList(entries)[..n] == PathList(entries[..n]);
      LastList(ListsIn(PathList(entries[..n]), files, id), ListIn(entries[n].path, files, id), t);
    }
  }

  lemma LastList(lists: seq<seq<Point>>, last: seq<Point>, t: int64)
    ensures var all := lists + if last == [] then [] else [last];
            && AllAtTime(all, t) == AllAtTime(lists, t) + AtTime(last, t)
            && Active(all) == Active(lists) + if last == [] then 0 else 1
  {
    if last == [] {
      assert lists + [] == lists && AtTime(last, t) == [];
      assert AllAtTime(lists, t) + [] == AllAtTime(lists, t);
    } else {
      assert (lists + [last])[..|lists|] == lists;
    }
  }

  // ----- pruning

  /** The entries whose time range meets the query's, in order. */
  function Overlapping(entries: seq<SegmentEntry>, start: int, end: int): (r: seq<SegmentEntry>)
    ensures forall e :: e in r ==> e in entries
  {
    if entries == [] then []
    else
      var n := |entries| - 1;
      Overlapping(entries[..n], start, end)
      + if entries[n].blockStart <= end && entries[n].blockEnd >= start then [entries[n]] else []
  }

  /** Skipping the other segments loses no point of the query's range and keeps the order. */
  lemma {:induction false} PruningLossless(entries: seq<SegmentEntry>, files: map<Path, seq<byte>>, start: int,
                                           end: int, id: uint64, t: int64)
    requires forall e :: e in entries ==> Stored(e, files)
    requires start <= t <= end
    ensures StoredAt(Overlapping(entries, start, end), files, id, t) == StoredAt(entries, files, id, t)
  {
    hide Stored, SeriesOf, AtTime;
    if entries != [] {
      var n := |entries| - 1;
      var e := entries[n];
      assert e in entries;
      PruningLossless(entries[..n], files, start, end, id, t);
      var kept := Overlapping(entries[..n], start, end);
      if e.blockStart <= end && e.blockEnd >= start {
        assert (kept + [e])[..|kept|] == kept;
      } else {
        NothingOutside(e, files, id, t);
        assert kept + [] == kept;
        assert StoredAt(kept, files, id, t) + [] == StoredAt(kept, files, id, t);
      }
    }
  }

  lemma NothingOutside(e: SegmentEntry, files: map<Path, seq<byte>>, id: uint64, t: int64)
    requires Stored(e, files) && !(e.blockStart <= t <= e.blockEnd)
    ensures AtTime(SeriesOf(e, files, id), t) == []
  {
    hide StoredTables.Content, StoredTables.Holds, AtTime;
    var points := SeriesOf(e, files, id);
    forall i | 0 <= i < |points|
      ensures points[i].ts != t
    {
      assert points[i] in points;
    }
    AtTimeAbsent(points, t);
  }

  /** Read or not, a point counts as often as it is stored. */
  lemma {:induction false} StoredAtCount(entries: seq<SegmentEntry>, files: map<Path, seq<byte>>, id: uint64, p: Point)
    ensures multiset(StoredAt(entries, files, id, p.ts))[p] == Compaction.UnionPoints(entries, files, id)[p]
  {
    hide StoredTables.Content, AtTime;
    if entries != [] {
      var n := |entries| - 1;
      StoredAtCount(entries[..n], files, id, p);
      AtTimeCount(SeriesOf(entries[n], files, id), p);
    }
  }

  lemma {:induction false} OverlappingAmong(entries: seq<SegmentEntry>, files: map<Path, seq<byte>>, start: int,
                                            end: int, id: uint64, p: Point)
    ensures multiset(StoredAt(Overlapping(entries, start, end), files, id, p.ts))[p]
         <= multiset(StoredAt(entries, files, id, p.ts))[p]
  {
    hide SeriesOf, AtTime;
    if entries != [] {
      var n := |entries| - 1;
      OverlappingAmong(entries[..n], files, start, end, id, p);
      var kept := Overlapping(entries[..n], start, end);
      assert (kept + [entries[n]])[..|kept|] == kept && kept + [] == kept;
    }
  }
}
