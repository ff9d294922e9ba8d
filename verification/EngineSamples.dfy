/** Sample data for concrete runs of the engine: write j puts one point, at time j, into
    series j, so that a stretch of writes is a table, a file and a segment entry. */
module EngineSamples {
  import opened Words
  import opened Points
  import opened Tables
  import opened Manifest
  import opened Payload
  import opened EngineLog
  import opened EngineState
  import opened EngineSums
  import Compaction
  import Segment
  import StoredTables
  import V1 = SegmentV1
  import Wal

  const LIMIT := 1000

  function SamplePoint(j: nat): Point
    requires j < LIMIT
  {
    Point(j, 0)
  }

  function SampleWrite(j: nat): WritePayload
    requires j < LIMIT
  {
    WritePayload(j, [SamplePoint(j)])
  }

  /** Writes 0 to n - 1. */
  function SampleLog(n: nat): (log: seq<WritePayload>)
    requires n <= LIMIT
    ensures |log| == n
  {
    seq(n, j requires 0 <= j < n => SampleWrite(j))
  }

  /** The table that writes lo to hi - 1 fill. */
  function SampleTable(lo: nat, hi: nat): Table
    requires hi <= LIMIT
  {
    map j: uint64 | lo <= j < hi :: [SamplePoint(j)]
  }

  function SampleList(lo: nat, hi: nat): (list: seq<Segment.SeriesPoints>)
    requires lo <= hi <= LIMIT
    ensures |list| == hi - lo
  {
    seq(hi - lo, i requires 0 <= i < hi - lo => Segment.SeriesPoints(lo + i, [SamplePoint(lo + i)]))
  }

  function SampleFile(lo: nat, hi: nat): seq<byte>
    requires lo < hi <= LIMIT
  {
    Segment.FileBytes(1, SampleList(lo, hi), lo, hi - 1)
  }

  function SampleEntry(path: Path, lo: nat, hi: nat): SegmentEntry
    requires lo < hi <= LIMIT
  {
    SegmentEntry(path, lo, hi - 1, hi - lo)
  }

  // ----- what the samples are to the engine

  lemma {:induction false} SampleLogPoints(n: nat, lo: nat, hi: nat, id: uint64)
    requires lo <= hi <= n <= LIMIT
    ensures LogPoints(SampleLog(n)[lo..hi], id) == PointsOf(SampleTable(lo, hi), id)
  {
    hide SampleLog, SampleTable, PointsOf, LogPoints;
    var log := SampleLog(n);
    if lo == hi {
      NoSamples(lo);
      NothingSampled(log[lo..hi], id);
    } else {
      SampleLogPoints(n, lo, hi - 1, id);
      SampleLogAt(n, hi - 1);
      assert log[lo..hi] == log[lo..hi - 1] + [log[hi - 1]];
      LogPointsSnoc(log[lo..hi - 1], log[hi - 1], id);
      SampleTableGrows(lo, hi - 1);
      PointsOfGrows(SampleTable(lo, hi - 1), hi - 1, [SamplePoint(hi - 1)], id);
    }
  }

  lemma SampleLogAt(n: nat, j: nat)
    requires j < n <= LIMIT
    ensures SampleLog(n)[j] == SampleWrite(j)
  {
  }

  lemma NothingSampled(log: seq<WritePayload>, id: uint64)
    requires log == []
    ensures LogPoints(log, id) == PointsOf(map[], id) == multiset{}
  {
  }

  lemma PointsOfGrows(t: Table, j: uint64, points: seq<Point>, id: uint64)
    requires j !in t
    ensures PointsOf(t[j := points], id) == PointsOf(t, id) + if j == id then multiset(points) else multiset{}
  {
  }

  lemma SampleTableGrows(lo: nat, hi: nat)
    requires lo <= hi < LIMIT
    ensures SampleTable(lo, hi + 1) == SampleTable(lo, hi)[hi := [SamplePoint(hi)]] && hi !in SampleTable(lo, hi)
    ensures |SampleTable(lo, hi + 1)| == |SampleTable(lo, hi)| + 1
    ensures SampleList(lo, hi + 1) == SampleList(lo, hi) + [Segment.SeriesPoints(hi, [SamplePoint(hi)])]
  {
  }

  lemma NoSamples(lo: nat)
    requires lo <= LIMIT
    ensures SampleTable(lo, lo) == map[] && SampleList(lo, lo) == []
  {
  }

  lemma {:induction false} SampleListing(lo: nat, hi: nat)
    requires lo <= hi <= LIMIT
    ensures StoredTables.Lists(multiset(SampleList(lo, hi)), SampleTable(lo, hi)) && |SampleTable(lo, hi)| == hi - lo
  {
    hide SampleTable, SampleList, StoredTables.Lists;
    if lo == hi {
      NoSamples(lo);
      StoredTables.NothingListed();
    } else {
      SampleListing(lo, hi - 1);
      SampleTableGrows(lo, hi - 1);
      StoredTables.ListedMore(SampleList(lo, hi - 1), SampleTable(lo, hi - 1), hi - 1, [SamplePoint(hi - 1)]);
    }
  }

  lemma SampleShape(lo: nat, hi: nat)
    requires lo <= hi <= LIMIT
    ensures Segment.SortedById(SampleList(lo, hi)) && Ordered(SampleTable(lo, hi))
    ensures Compaction.Bounds(SampleTable(lo, hi), lo, hi - 1)
  {
    if lo < hi {
      SampleAttained(lo, hi, lo);
      SampleAttained(lo, hi, hi - 1);
    }
  }

  lemma SampleAttained(lo: nat, hi: nat, j: nat)
    requires lo <= j < hi <= LIMIT
    ensures Compaction.Attained(SampleTable(lo, hi), j)
  {
    assert SamplePoint(j) in SampleTable(lo, hi)[j];
  }

  lemma {:induction false} SampleOffset(lo: nat, hi: nat)
    requires lo <= hi <= LIMIT
    ensures Segment.OffsetOf(1, SampleList(lo, hi), hi - lo) == Segment.HEADER_SIZE + 16 * (hi - lo)
  {
    hide V1.Encode, Segment.OffsetOf, SampleList;
    if lo == hi {
      NoOffset(SampleList(lo, hi));
    } else {
      SampleOffset(lo, hi - 1);
      SampleTableGrows(lo, hi - 1);
      SampleBlock(hi - 1);
      OffsetMore(SampleList(lo, hi - 1), hi - 1, [SamplePoint(hi - 1)]);
    }
  }

  lemma NoOffset(list: seq<Segment.SeriesPoints>)
    ensures Segment.OffsetOf(1, list, 0) == Segment.HEADER_SIZE
  {
  }

  lemma OffsetMore(list: seq<Segment.SeriesPoints>, id: uint64, points: seq<Point>)
    ensures Segment.OffsetOf(1, list + [Segment.SeriesPoints(id, points)], |list| + 1)
         == Segment.OffsetOf(1, list, |list|) + |V1.Encode(points)|
  {
    hide V1.Encode, Segment.Concat;
    var more := list + [Segment.SeriesPoints(id, points)];
    var data := Segment.DataChunks(1, list);
    assert Segment.DataChunks(1, more)[..|list| + 1] == data + [V1.Encode(points)];
    assert data[..|list|] == data;
    Segment.ConcatSnoc(data, V1.Encode(points));
  }

  lemma SampleBlock(j: nat)
    requires j < LIMIT
    ensures |V1.Encode([SamplePoint(j)])| == 16 && V1.FitsBudget([SamplePoint(j)])
  {
    var points := [SamplePoint(j)];
    V1.DeltaBytesLength(Timestamps(points));
    StoredTables.ModestTimestampsFit(points);
  }

  lemma SampleSized(lo: nat, hi: nat)
    requires lo <= hi <= LIMIT
    ensures StoredTables.WellSized(SampleList(lo, hi))
  {
    hide Segment.OffsetOf, V1.FitsBudget;
    SampleOffset(lo, hi);
    forall j | 0 <= j < hi - lo
      ensures V1.FitsBudget(SampleList(lo, hi)[j].points)
    {
      SampleBlock(lo + j);
    }
  }

  lemma SampleHeld(lo: nat, hi: nat)
    requires lo < hi <= LIMIT
    ensures StoredTables.Holds(SampleFile(lo, hi), SampleTable(lo, hi))
    ensures StoredTables.Content(SampleFile(lo, hi)) == SampleTable(lo, hi)
  {
    hide StoredTables.WellSized, StoredTables.Lists, StoredTables.Holds, StoredTables.Content, Segment.SortedById,
      Segment.FileBytes, Compaction.Bounds, Ordered, SampleTable, SampleList;
    SampleListing(lo, hi);
    SampleShape(lo, hi);
    SampleSized(lo, hi);
    StoredTables.WrittenTableIsHeld(SampleList(lo, hi), SampleTable(lo, hi), lo, hi - 1);
    StoredTables.HoldsContent(SampleFile(lo, hi), SampleTable(lo, hi));
  }

  /** A flush of sampled writes. */
  lemma SampleFlushed(f: Flush, lo: nat, hi: nat)
    requires lo < hi <= LIMIT && f.table == SampleTable(lo, hi)
    ensures FlushSized(f, SampleEntry(FlushPath(f.n), lo, hi), SampleFile(lo, hi))
  {
    hide StoredTables.WellSized, FlushWritten, SampleTable, SampleList, SampleFile;
    SampleSized(lo, hi);
    SampleFlushWritten(f, lo, hi);
  }

  lemma SampleFlushWritten(f: Flush, lo: nat, hi: nat)
    requires lo < hi <= LIMIT && f.table == SampleTable(lo, hi)
    ensures FlushWritten(f, SampleEntry(FlushPath(f.n), lo, hi), SampleFile(lo, hi), SampleList(lo, hi))
  {
    hide StoredTables.Lists, Segment.SortedById, SampleTable, SampleList, Compaction.Bounds, Ordered,
      Segment.FileBytes;
    SampleListing(lo, hi);
    SampleShape(lo, hi);
  }

  /** A compaction of segments that hold a stretch of sampled writes together. */
  lemma SampleCompacted(candidates: seq<SegmentEntry>, files: map<Path, seq<byte>>, lo: nat, hi: nat)
    requires lo < hi <= LIMIT
    requires forall id: uint64 :: SegmentPoints(candidates, files, id) == PointsOf(SampleTable(lo, hi), id)
    ensures CompactionSized(candidates, files, SampleEntry(CompactedPath(|candidates|), lo, hi), SampleFile(lo, hi))
  {
    hide StoredTables.WellSized, CompactionWritten, SampleTable, SampleList, SampleFile, Compaction.UnionPoints,
      PointsOf;
    SampleSized(lo, hi);
    SampleCompactionWritten(candidates, files, lo, hi);
  }

  lemma SampleCompactionWritten(candidates: seq<SegmentEntry>, files: map<Path, seq<byte>>, lo: nat, hi: nat)
    requires lo < hi <= LIMIT
    requires forall id: uint64 :: SegmentPoints(candidates, files, id) == PointsOf(SampleTable(lo, hi), id)
    ensures CompactionWritten(candidates, files, SampleEntry(CompactedPath(|candidates|), lo, hi), SampleFile(lo, hi),
                              SampleTable(lo, hi), SampleList(lo, hi))
  {
    hide StoredTables.Lists, Segment.SortedById, SampleTable, SampleList, Compaction.Bounds, Ordered,
      Segment.FileBytes, Compaction.UnionPoints, PointsOf;
    SampleListing(lo, hi);
    SampleShape(lo, hi);
  }

  /** The entry holds the sampled writes lo to hi - 1. */
  ghost predicate HoldsStretch(e: SegmentEntry, files: map<Path, seq<byte>>, lo: nat, hi: nat) {
    lo < hi <= LIMIT && e.path in files && files[e.path] == SampleFile(lo, hi)
  }

  /** Entries that hold consecutive stretches of sampled writes, cut at the given bounds. */
  ghost predicate HoldStretches(entries: seq<SegmentEntry>, files: map<Path, seq<byte>>, bounds: seq<nat>) {
    |bounds| == |entries| + 1 &&
    forall i :: 0 <= i < |entries| ==> HoldsStretch(entries[i], files, bounds[i], bounds[i + 1])
  }

  lemma StretchPoints(e: SegmentEntry, files: map<Path, seq<byte>>, lo: nat, hi: nat, id: uint64)
    requires HoldsStretch(e, files, lo, hi)
    ensures PointsIn(e, files, id) == PointsOf(SampleTable(lo, hi), id)
  {
    hide StoredTables.Content, SampleFile, SampleTable;
    SampleHeld(lo, hi);
  }

  lemma SampleTableSplits(lo: nat, mid: nat, hi: nat, id: uint64)
    requires lo <= mid <= hi <= LIMIT
    ensures PointsOf(SampleTable(lo, hi), id) == PointsOf(SampleTable(lo, mid), id) + PointsOf(SampleTable(mid, hi), id)
  {
  }

  /** Together they hold the whole stretch. */
  lemma {:induction false} StretchesUnion(entries: seq<SegmentEntry>, files: map<Path, seq<byte>>, bounds: seq<nat>,
      id: uint64)
    requires HoldStretches(entries, files, bounds) && entries != []
    ensures bounds[0] < bounds[|entries|] <= LIMIT
    ensures SegmentPoints(entries, files, id) == PointsOf(SampleTable(bounds[0], bounds[|entries|]), id)
  {
    hide SampleTable, PointsIn, Compaction.UnionPoints, PointsOf;
    var n := |entries| - 1;
    assert HoldsStretch(entries[n], files, bounds[n], bounds[n + 1]);
    StretchPoints(entries[n], files, bounds[n], bounds[n + 1], id);
    assert entries == entries[..n] + [entries[n]];
    UnionSnoc(entries[..n], entries[n], files, id);
    if n > 0 {
      assert HoldStretches(entries[..n], files, bounds[..n + 1]);
      StretchesUnion(entries[..n], files, bounds[..n + 1], id);
      SampleTableSplits(bounds[0], bounds[n], bounds[n + 1], id);
    } else {
      NothingSummed(entries[..0], files, id);
    }
  }

  lemma NothingSummed(entries: seq<SegmentEntry>, files: map<Path, seq<byte>>, id: uint64)
    requires entries == []
    ensures SegmentPoints(entries, files, id) == multiset{}
  {
  }

  /** Every sampled write is loggable, and all take the same number of bytes. */
  lemma SampleRecord(j: nat)
    requires j < LIMIT
    ensures Wal.Loggable(Encode(SampleWrite(j))) && |Wal.Record(Encode(SampleWrite(j)))| == 36
  {
    hide PutLE, PointBytes;
  }
}
