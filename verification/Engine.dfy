/** The event-loop handlers and goroutines of internal/engine/engine.go over their real
    parts; each is proved to take the step the state machine allows. */
module Engine {
  import opened Words
  import opened Points
  import opened Tables
  import opened Manifest
  import opened Payload
  import opened EngineLog
  import opened EngineState
  import opened EngineInvariant
  import opened SegmentQuery
  import opened EngineAnswers
  import EngineSums
  import EngineCrash
  import EngineRuns
  import Aggregate
  import Index
  import Query
  import Memtable
  import Compaction
  import Retention
  import Segment
  import StoredTables
  import Wal

  /** How a flush goroutine can fail: on creating the file, or in the middle of writing. */
  datatype Fault = NoFault | CannotCreate | CutShort(leftover: seq<byte>)

  class Engine {
    var active: Memtable.Memtable
    var frozen: Memtable.Memtable?
    const wal: Wal.Writer
    const manifest: Manifest
    var index: Index.Index
    const memtableSize: int
    var flushCount: nat
    var files: map<Path, seq<byte>>  // the data directory
    var flushes: seq<Flush>          // flush goroutines, and results waiting in flushDoneCh
    var compactions: seq<Run>        // likewise for compactions

    ghost var log: seq<WritePayload>
    ghost var start: nat
    ghost var durable: nat
    ghost var dropped: seq<seq<byte>>
    ghost var extra: seq<seq<byte>>

    /** All parts are in order; the log may stand behind a torn tail. */
    ghost predicate Assembled()
      reads this, active, active.series, frozen, if frozen == null then {} else {frozen.series}, wal, manifest
    {
      && active.Valid() && !active.frozen
      && (frozen != null ==> frozen.Valid() && frozen != active && frozen.series != active.series)
      && wal.Valid() && manifest.Valid()
    }

    /** The log holds exactly the known writes. */
    ghost predicate Valid()
      reads this, active, active.series, frozen, if frozen == null then {} else {frozen.series}, wal, manifest
    {
      Assembled() && wal.base == [] && wal.records == Records(log)
    }

    /** The state between two events. */
    ghost function View(): State
      reads this, active, active.series, frozen, if frozen == null then {} else {frozen.series}, wal, manifest
    {
      State(log, wal.syncedRecords, active.series.m, start, if frozen == null then None else Some(frozen.series.m),
            flushes, compactions, manifest.segments, manifest.walOffset, files, flushCount, Idle, durable, dropped,
            extra)
    }

    /** New: opens the log for appending and loads the manifest; memtables start empty. */
    constructor (walFile: seq<byte>, saved: Option<Saved>, files: map<Path, seq<byte>>, memtableSize: int,
                 ghost log: seq<WritePayload>, ghost durable: nat, ghost dropped: seq<seq<byte>>,
                 ghost extra: seq<seq<byte>>)
      ensures Assembled() && fresh(active) && fresh(active.series) && fresh(wal) && fresh(manifest)
      ensures !wal.closed && wal.file == walFile && this.files == files && this.log == log && this.durable == durable
      ensures active.series.m == map[] && manifest.disk == if saved.None? then Saved([], 0) else saved.value
      ensures this.memtableSize == memtableSize && wal.byteThreshold == 0x10_0000
      ensures fresh(index) && index.Valid() && index.history == []
      ensures var m := if saved.None? then Saved([], 0) else saved.value;
              walFile == LogFile(log) ==>
                && Valid()
                && View() == State(log, |log|, map[], |log|, None, [], [], m.segments, m.walOffset, files, 0, Idle,
                                   durable, dropped, extra)
    {
      active := new Memtable.Memtable();
      frozen := null;
      ghost var clean := walFile == LogFile(log);
      ghost var base, records := if clean then [] else walFile, if clean then Records(log) else [];
      assert walFile == base + Wal.LogBytes(records);
      wal := new Wal.Writer(walFile, 0x10_0000, base, records);
      manifest := new Manifest(saved);
      index := new Index.Index();
      this.memtableSize, this.files, flushCount, flushes, compactions := memtableSize, files, 0, [], [];
      this.log, start, this.durable, this.dropped, this.extra := log, |log|, durable, dropped, extra;
    }

    /** Recover: replays the log from the saved offset into the active memtable; a record
        that does not decode panics. */
    method Recover() returns (r: Result<nat>)
      requires Assembled()
      modifies this`start, active, active.series
      ensures var recovered := Recovered(wal.file, manifest.walOffset);
              r.Ok? == recovered.Ok? &&
              (r.Ok? ==>
                && Assembled() && r.value == |recovered.value|
                && start == (if durable <= |log| then durable else |log|)
                && active == old(active) && active.series == old(active.series)
                && Replayed(old(active.series.m), recovered.value, active.series.m))
    {
      hide LogPoints, Decode, Wal.ReplayFrom, Ordered, Added, Wal.Writer.Valid, Replayed, DecodeAll, Total;
      var entries := Wal.Replay(wal.file, manifest.walOffset);
      var ok := ReplayInto(active, entries);
      if !ok {
        return Panic;
      }
      start := if durable <= |log| then durable else |log|;
      r := Ok(|entries|);
    }

    // ----- writes

    /** Log first, then the memtable; a failed append changes nothing. */
    method HandleWrite(p: WritePayload) returns (ok: bool)
      requires Valid()
      modifies this`log, wal, active`sizeBytes, active.series
      ensures Valid() && ok == !wal.closed && wal.closed == old(wal.closed)
      ensures ok ==> Next(old(View()), Write(p), View())
      ensures !ok ==> View() == old(View())
    {
      hide Encode, Wal.Record, Wal.LogBytes, Added, Ordered, Total;
      var data := EncodePayload(p);
      ok := wal.Append(data[..]);
      if !ok {
        return;
      }
      active.Insert(p.id, p.points);
      log := log + [p];
      assert Records(log) == Records(old(log)) + [Encode(p)];
    }

    /** A batch stops at the first failed append and keeps what it has written. */
    method HandleBatchWrite(payloads: seq<WritePayload>) returns (ok: bool)
      requires Valid()
      modifies this`log, wal, active`sizeBytes, active.series
      ensures Valid() && wal.closed == old(wal.closed)
      ensures ok <==> payloads == [] || !wal.closed
      ensures ok ==> Writes(old(View()), payloads, View())
      ensures !ok ==> View() == old(View())
    {
      hide Next, Assembled, Writes;
      ghost var start' := View();
      NoWrites(start');
      for i := 0 to |payloads|
        invariant Valid() && wal.closed == old(wal.closed)
        invariant i > 0 ==> !wal.closed
        invariant i == 0 ==> View() == start'
        invariant Writes(start', payloads[..i], View())
      {
        ghost var before := View();
        var done := HandleWrite(payloads[i]);
        if !done {
          return false;
        }
        OneMoreWrite(start', payloads, i, before, View());
      }
      assert payloads[..|payloads|] == payloads;
      ok := true;
    }

    method Sync() returns (ok: bool)
      requires Valid()
      modifies wal
      ensures Valid() && ok == !wal.closed && wal.closed == old(wal.closed)
      ensures if ok then Next(old(View()), EngineState.Sync, View()) else View() == old(View())
    {
      hide Encode, Wal.Record, Wal.LogBytes;
      ok := wal.Sync();
    }

    // ----- rotation and flush

    /** The writer's offset counts every record, buffered or not. */
    lemma OffsetIsEnd()
      requires Valid()
      ensures wal.offset == OffsetOf(log, |log|)
    {
      hide Encode, Wal.Record, Wal.LogBytes, Ordered, Total;
      assert Records(log)[..|log|] == Records(log) && [] + Wal.LogBytes(Records(log)) == Wal.LogBytes(Records(log));
    }

    /** Freezes the active memtable and starts an empty one. */
    method SwapTables()
      requires Assembled()
      modifies this`active, this`frozen, active`frozen
      ensures Assembled() && fresh(active) && fresh(active.series)
      ensures fresh(frozen) && frozen.series == old(active.series)
      ensures View() == old(View()).(active := map[], frozen := Some(old(active.series.m)))
    {
      hide Wal.Writer.Valid, Total, Ordered, Manifest.Valid;
      var snapshot := active.Freeze();
      active := new Memtable.Memtable();
      frozen := snapshot;
    }

    /** Rotates once the active memtable has reached its size. */
    method MaybeRotate() returns (rotated: bool)
      requires Valid()
      modifies this`active, this`frozen, this`flushes, this`flushCount, this`start, active`frozen
      ensures Valid() && rotated == (16 * Total(old(active.series.m)) >= memtableSize)
      ensures rotated ==> fresh(active) && fresh(active.series) && fresh(frozen) && frozen.series == old(active.series)
      ensures if rotated then Next(old(View()), Rotate, View()) else View() == old(View())
    {
      hide Next, Records, OffsetOf, Assembled;
      ghost var before := View();
      OffsetIsEnd();
      rotated := ReachedSize();
      if !rotated {
        return;
      }
      SwapTables();
      StartFlush();
      RotateStep(before, View());
    }

    method ReachedSize() returns (reached: bool)
      requires Assembled()
      ensures reached == (16 * Total(active.series.m) >= memtableSize)
    {
      hide Wal.Writer.Valid, Total, Ordered, Manifest.Valid;
      var size := active.SizeBytes();
      reached := size >= memtableSize;
    }

    /** Hands the frozen memtable to a flush, with the log's offset. */
    method StartFlush()
      requires Assembled() && frozen != null
      modifies this`flushes, this`flushCount, this`start
      ensures Assembled()
      ensures View() == old(View()).(
        flushes := old(flushes) + [Flush(frozen.series.m, old(flushCount), old(start), |log|, wal.offset, Flushing)],
        flushCount := old(flushCount) + 1, start := |log|)
    {
      hide Wal.Writer.Valid, Memtable.Memtable.Valid, Manifest.Valid;
      flushes := flushes + [Flush(frozen.series.m, flushCount, start, |log|, wal.offset, Flushing)];
      flushCount := flushCount + 1;
      start := |log|;
    }

    /** The flush goroutine of job i. */
    method RunFlush(i: nat, fault: Fault)
      requires Valid() && i < |flushes| && flushes[i].status.Flushing? && Ordered(flushes[i].table)
      modifies this`flushes, this`files
      ensures Valid() && i < |flushes|
      ensures flushes[i].status.FlushFailed? <==> flushes[i].table != map[] && !fault.NoFault?
      ensures if flushes[i].status.FlushFailed?
        then Next(old(View()), FailFlush(i, if fault.CutShort? then Some(fault.leftover) else None), View())
        else Next(old(View()), FinishFlush(i), View())
    {
      hide Ordered, Total, Wal.Writer.Valid, Records, FlushWritten, Next;
      ghost var before := View();
      var status, file := WriteTable(flushes[i], fault);
      var path := FlushPath(flushes[i].n);
      flushes := flushes[i := flushes[i].(status := status)];
      if file.Some? {
        files := files[path := file.value];
      }
      FlushStep(before, i, fault, status, file, View());
    }

    // ----- compaction and retention

    /** Starts a compaction of at most five segments, the ones with the fewest series. */
    method HandleCompaction() returns (count: nat, ghost candidates: seq<SegmentEntry>)
      requires Valid()
      modifies this`compactions
      ensures Valid() && count == |candidates|
      ensures var n := |manifest.segments|; count == if n <= 1 then 0 else if n < 5 then n else 5
      ensures Compaction.Fewest(candidates, manifest.segments)
      ensures if count > 0 then Next(old(View()), StartCompaction(candidates), View()) else View() == old(View())
    {
      hide Memtable.Memtable.Valid, Wal.Writer.Valid, Records, Next;
      ghost var before := View();
      var chosen := Compaction.SelectCandidates(manifest.segments, 5);
      count, candidates := |chosen|, chosen;
      if |chosen| == 0 {
        return;
      }
      compactions := compactions + [Compacting(chosen)];
      StartStep(before, chosen, View());
    }

    /** The compaction goroutine of job i; it fails if a candidate cannot be read. */
    method RunCompaction(i: nat)
      requires Valid() && Inv(View()) && i < |compactions| && compactions[i].Compacting?
      modifies this`compactions, this`files
      ensures Valid() && i < |compactions|
      ensures compactions[i].Compacted? <==>
              forall e :: e in old(compactions[i].candidates) ==> Compaction.Readable(old(files), e)
      ensures if compactions[i].Compacted? then Next(old(View()), FinishCompaction(i), View())
        else Next(old(View()), FailCompaction(i), View())
    {
      hide Memtable.Memtable.Valid, Wal.Writer.Valid, Records, Next, Inv, Compaction.Readable, StoredTables.Content,
        Compaction.Compacted, Compaction.Output, Compaction.WellFormed, StoredTables.WellSized, StoredTables.Holds;
      ghost var before := View();
      var candidates := compactions[i].candidates;
      CandidatesOrdered(before, i);
      var r, file, t, list := Compaction.Compact(candidates, CompactedPath(|candidates|), files);
      match r
      case Ok(entry) =>
        compactions := compactions[i := Compacted(candidates, entry)];
        files := files[entry.path := file];
        Compaction.WellFormedOutput(candidates, before.files, entry, file, t, list);
        CompactStep(before, i, entry, file, t, list, View());
      case _ =>
        compactions := compactions[i := CompactionFailed(candidates)];
        FailStep(before, i, View());
    }

    /** Handles one compaction result; between its two saves stands `mid`. */
    method ApplyCompactionResult(i: nat) returns (ghost mid: State)
      requires Valid() && i < |compactions| && !compactions[i].Compacting?
      modifies this`compactions, this`files, manifest
      ensures Valid()
      ensures if old(compactions[i].Compacted?)
        then Next(old(View()), AddCompacted(i), mid) && Next(mid, RemoveCandidates(i), View())
        else Next(old(View()), DiscardCompaction(i), View())
    {
      hide Assembled, Records, Without, PathsOf, Next;
      ghost var before := View();
      var run := compactions[i];
      mid := before;
      if run.Compacted? {
        mid := before.(segments := before.segments + [run.entry], phase := CompactionAdded(i));
        ReplaceSegments(run.entry, run.candidates);
      }
      ForgetCompaction(i);
      if run.Compacted? {
        ReplaceSteps(before, i, mid, View());
      } else {
        DiscardStep(before, i, View());
      }
    }

    /** Adds the output, removes the candidates, deletes their files. */
    method ReplaceSegments(entry: SegmentEntry, candidates: seq<SegmentEntry>)
      requires Assembled()
      modifies this`files, manifest
      ensures Assembled()
      ensures View() == old(View()).(segments := Without(old(manifest.segments) + [entry], PathsOf(candidates)),
                                     files := old(files) - PathsOf(candidates))
    {
      hide Memtable.Memtable.Valid, Wal.Writer.Valid, Without, PathList, PathsOf;
      var oldPaths := PathList(candidates);
      manifest.Add(entry);
      manifest.RemoveBatch(oldPaths);
      PathsListed(candidates);
      files := DeleteFiles(oldPaths, files);
    }

    method ForgetCompaction(i: nat)
      requires Assembled() && i < |compactions|
      modifies this`compactions
      ensures Assembled() && View() == old(View()).(compactions := RemoveAt(old(compactions), i))
    {
      hide Memtable.Memtable.Valid, Wal.Writer.Valid, Manifest.Valid, RemoveAt;
      compactions := RemoveAt(compactions, i);
    }

    /** Removes the segments that end before the cutoff. */
    method HandleRetention(cutoff: int) returns (count: nat)
      requires Valid()
      modifies this`files, this`dropped, manifest
      ensures Valid() && count == |Retention.Select(old(manifest.segments), cutoff, true)|
      ensures Next(old(View()), Retain(cutoff), View())
    {
      hide Memtable.Memtable.Valid, Wal.Writer.Valid, Records, Without, FilesOf, PathsOf, Next, Retention.Select,
        PathList;
      ghost var before := View();
      var removed, kept := Retention.Sweep(manifest.segments, cutoff);
      count := |removed|;
      if |removed| == 0 {
        SpareStep(before, cutoff);
        return;
      }
      dropped := dropped + FilesOf(removed, files);
      var paths := PathList(removed);
      manifest.RemoveBatch(paths);
      PathsListed(removed);
      files := DeleteFiles(paths, files);
      RetainStep(before, cutoff, View());
    }

    // ----- queries

    /** One series of a query: its points in answer order, although segments outside the
        range are not read. */
    method QuerySeries(id: uint64, segPaths: seq<Path>, startTime: int64, endTime: int64) returns (points: seq<Point>)
      requires Valid() && Inv(View())
      requires segPaths == PathList(Overlapping(manifest.segments, startTime, endTime))
      ensures InsideRange(points, startTime, endTime)
      ensures IsAnswer(View(), id, startTime, endTime, points)
    {
      hide Inv, Total, Wal.Writer.Valid, Records, Sorted, IsAnswer, InsideRange, Overlapping, PathList, Query.IsMerge,
        Query.Within, ListsIn;
      ghost var s := View();
      var activePts := active.Get(id);
      var frozenPts: seq<Point> := [];
      if frozen != null {
        frozenPts := frozen.Get(id);
      }
      hide Ordered;
      SegmentListsSorted(s, startTime, endTime, id);
      var segPts := ReadSegments(segPaths, files, id);
      Query.MergeSorted(ListsIn(segPaths, files, id), segPts);
      assert Query.AllSorted([activePts, frozenPts, segPts]) by { EmptySorted(); }
      var merged := Query.Merge([activePts, frozenPts, segPts]);
      Query.MergeSorted([activePts, frozenPts, segPts], merged);
      points := Query.Filter(merged, startTime, endTime);
      WithinIsInside(merged, startTime, endTime);
      AnswerIsExact(s, id, startTime, endTime, segPts, merged);
    }

    /** Fails only where the bucket arithmetic panics. */
    method HandleQuery(metric: string, filters: map<string, string>, startTime: int64, endTime: int64,
                       bucketWidth: int64)
      returns (r: Result<seq<QueryResult>>)
      requires Valid() && index.Valid() && Inv(View())
      ensures bucketWidth <= 0 || endTime - startTime + bucketWidth <= TWO_63 ==> r.Ok?
      ensures r.Ok? ==> Index.StrictlyIncreasing(Ids(r.value))
      ensures r.Ok? ==> (set id | id in Ids(r.value)) == Index.Matching(index.history, metric, filters)
      ensures r.Ok? ==> forall result :: result in r.value ==> Answers(View(), result, startTime, endTime, bucketWidth)
    {
      hide Valid, View, Inv, Index.StrictlyIncreasing, Index.Matching, Overlapping, PathList, Answers, IsAnswer,
        InsideRange, Sorted, Aggregate.Aggregated;
      var seriesIds := index.Resolve(metric, filters);
      var results: seq<QueryResult> := [];
      if |seriesIds| == 0 {
        assert Ids(results) == seriesIds;
        return Ok(results);
      }
      var segPaths := OverlappingPaths(manifest.segments, startTime, endTime);
      for i := 0 to |seriesIds|
        invariant Ids(results) == seriesIds[..i]
        invariant forall result :: result in results ==> Answers(View(), result, startTime, endTime, bucketWidth)
      {
        var merged := QuerySeries(seriesIds[i], segPaths, startTime, endTime);
        var result := QueryResult(seriesIds[i], [], merged);
        if bucketWidth > 0 {
          InRangeFits(merged, startTime, endTime, bucketWidth);
          var buckets := Aggregate.Aggregate(merged, bucketWidth);
          if !buckets.Ok? {
            return Panic;
          }
          result := QueryResult(seriesIds[i], buckets.value, []);
        }
        AnswerKept(View(), result, startTime, endTime, bucketWidth, merged);
        results := results + [result];
        assert seriesIds[..i + 1] == seriesIds[..i] + [seriesIds[i]];
      }
      assert seriesIds[..|seriesIds|] == seriesIds;
      r := Ok(results);
    }

    /** Handles one flush result; between the two saves of a written one stands `mid`. */
    method ApplyFlushResult(i: nat) returns (ghost mid: State)
      requires Valid() && i < |flushes| && !flushes[i].status.Flushing?
      modifies this`frozen, this`flushes, this`durable, manifest
      ensures Valid()
      ensures if old(flushes[i].status.Written?)
        then Next(old(View()), AddFlushed(i), mid) && Next(mid, AdvanceOffset(i), View())
        else Next(old(View()), DiscardFlush(i), View())
    {
      hide Memtable.Memtable.Valid, Wal.Writer.Valid, Records, Next, RemoveAt;
      ghost var before := View();
      var f := flushes[i];
      mid := before;
      if !f.status.Written? {
        flushes := RemoveAt(flushes, i);
        frozen := null;
        GiveUpStep(before, i, View());
        return;
      }
      manifest.Add(f.status.entry);
      mid := before.(segments := manifest.segments, phase := FlushAdded(i));
      manifest.SetWalOffset(f.walOff);
      durable := f.hi;
      flushes := RemoveAt(flushes, i);
      frozen := null;
      ApplySteps(before, i, mid, View());
    }
  }

  // ----- queries

  method OverlappingPaths(entries: seq<SegmentEntry>, start: int64, end: int64) returns (paths: seq<Path>)
    ensures paths == PathList(Overlapping(entries, start, end))
  {
    paths := [];
    for i := 0 to |entries|
      invariant paths == PathList(Overlapping(entries[..i], start, end))
    {
      assert entries[..i + 1][..i] == entries[..i];
      if entries[i].blockStart <= end && entries[i].blockEnd >= start {
        paths := paths + [entries[i].path];
      }
    }
    assert entries[..|entries|] == entries;
  }

  // ----- the flush goroutine

  /** A table's series in some order, inside the bounds. */
  ghost predicate Listing(t: Table, list: seq<Segment.SeriesPoints>, low: int, high: int) {
    StoredTables.Lists(multiset(list), t) && |list| == |t| && Ordered(t) && Compaction.Bounds(t, low, high)
  }

  /** The series outside ids are listed, inside the bounds. */
  ghost predicate ListedSoFar(table: Table, ids: set<uint64>, list: seq<Segment.SeriesPoints>, low: int, high: int) {
    ids <= table.Keys && Listing(table - ids, list, low, high)
  }

  /** The new bounds: of the first series, or wide enough for one more. */
  ghost predicate WidenedBy(first: bool, points: seq<Point>, low: int, high: int, low': int, high': int)
    requires points != []
  {
    && low' == (if first || points[0].ts < low then points[0].ts else low)
    && high' == (if first || points[|points| - 1].ts > high then points[|points| - 1].ts else high)
  }

  lemma ListNext(table: Table, ids: set<uint64>, list: seq<Segment.SeriesPoints>, low: int, high: int, id: uint64,
                 low': int, high': int)
    requires ListedSoFar(table, ids, list, low, high) && id in ids
    requires id in table && table[id] != [] && Sorted(table[id])
    requires WidenedBy(ids == table.Keys, table[id], low, high, low', high')
    ensures ListedSoFar(table, ids - {id}, list + [Segment.SeriesPoints(id, table[id])], low', high')
  {
    var points := table[id];
    var t, list' := table - ids, list + [Segment.SeriesPoints(id, points)];
    assert Listing(t, list, low, high) && id !in t && ids <= table.Keys;
    hide ListedSoFar, Sorted, Listing, WidenedBy;
    NothingOutside(table, ids);
    ListingGrows(t, list, low, high, id, points, low', high');
    OneFewer(table, ids, id);
    Listed(table, ids - {id}, list', low', high');
  }

  lemma Listed(table: Table, ids: set<uint64>, list: seq<Segment.SeriesPoints>, low: int, high: int)
    requires ids <= table.Keys && Listing(table - ids, list, low, high)
    ensures ListedSoFar(table, ids, list, low, high)
  {
  }

  lemma ListingGrows(t: Table, list: seq<Segment.SeriesPoints>, low: int, high: int, id: uint64, points: seq<Point>,
                     low': int, high': int)
    requires Listing(t, list, low, high) && id !in t && points != [] && Sorted(points)
    requires WidenedBy(t == map[], points, low, high, low', high')
    ensures Listing(t[id := points], list + [Segment.SeriesPoints(id, points)], low', high')
  {
    hide Sorted, StoredTables.Lists, Compaction.Bounds, WidenedBy;
    StoredTables.ListedMore(list, t, id, points);
    ListBounds(t, low, high, id, points, low', high');
  }

  lemma NothingOutside(table: Table, ids: set<uint64>)
    ensures ids == table.Keys ==> table - ids == map[]
  {
  }

  lemma OneFewer(table: Table, ids: set<uint64>, id: uint64)
    requires id in ids && ids <= table.Keys
    ensures table - (ids - {id}) == (table - ids)[id := table[id]]
  {
  }

  lemma OrderedHasPoints(t: Table)
    requires Ordered(t) && t != map[]
    ensures Compaction.HasPoints(t)
  {
    hide Sorted;
    var id :| id in t;
  }

  lemma ListBounds(t: Table, low: int, high: int, id: uint64, points: seq<Point>, low': int, high': int)
    requires Compaction.Bounds(t, low, high) && Ordered(t) && id !in t && points != [] && Sorted(points)
    requires WidenedBy(t == map[], points, low, high, low', high')
    ensures Compaction.Bounds(t[id := points], low', high')
  {
    var t' := t[id := points];
    forall s: uint64, p: Point | s in t' && p in t'[s]
      ensures low' <= p.ts <= high'
    {
      if s != id {
        assert s in t && p in t[s];
      }
    }
    assert points[0] in points && points[|points| - 1] in points;
    Compaction.AttainedIn(t', id, points, points[0].ts);
    Compaction.AttainedIn(t', id, points, points[|points| - 1].ts);
    if t != map[] {
      OrderedHasPoints(t);
      hide Compaction.HasPoints, Compaction.Attained;
      Compaction.StillAttained(t, id, points, low);
      Compaction.StillAttained(t, id, points, high);
    }
  }

  lemma NoneListed(table: Table)
    ensures ListedSoFar(table, table.Keys, [], 0, 0)
  {
    assert table - table.Keys == map[];
  }

  lemma AllListed(table: Table, list: seq<Segment.SeriesPoints>, low: int, high: int)
    requires ListedSoFar(table, {}, list, low, high)
    ensures StoredTables.Lists(multiset(list), table) && |list| == |table| && Compaction.Bounds(table, low, high)
  {
    assert table - {} == table;
  }

  lemma OrderedAt(table: Table, id: uint64)
    requires Ordered(table) && id in table
    ensures table[id] != [] && Sorted(table[id])
  {
    hide Sorted;
  }

  /** The bounds after one more series. */
  method Widen(first: bool, pts: seq<Point>, blockStart: int64, blockEnd: int64) returns (start: int64, end: int64)
    requires pts != []
    ensures WidenedBy(first, pts, blockStart, blockEnd, start, end)
  {
    start, end := blockStart, blockEnd;
    if first || pts[0].ts < start {
      start := pts[0].ts;
    }
    if first || pts[|pts| - 1].ts > end {
      end := pts[|pts| - 1].ts;
    }
  }

  /** The loop over a frozen table: its series in any order, and time bounds taken from
      first and last points only. */
  method ListSeries(table: Table) returns (list: seq<Segment.SeriesPoints>, blockStart: int64, blockEnd: int64)
    requires Ordered(table)
    ensures StoredTables.Lists(multiset(list), table) && |list| == |table|
    ensures Compaction.Bounds(table, blockStart, blockEnd)
  {
    hide *;
    list, blockStart, blockEnd := [], 0, 0;
    var first := true;
    var ids := table.Keys;
    NoneListed(table);
    while ids != {}
      invariant ids <= table.Keys && (first <==> ids == table.Keys)
      invariant ListedSoFar(table, ids, list, blockStart, blockEnd)
      decreases ids
    {
      var id :| id in ids;
      var pts := table[id];
      OrderedAt(table, id);
      ghost var low, high := blockStart, blockEnd;
      blockStart, blockEnd := Widen(first, pts, blockStart, blockEnd);
      ListNext(table, ids, list, low, high, id, blockStart, blockEnd);
      first := false;
      list := list + [Segment.SeriesPoints(id, pts)];
      ids := ids - {id};
    }
    AllListed(table, list, blockStart, blockEnd);
  }

  /** What the segment writer made of the listed series is the flush's output. */
  lemma FlushOutput(f: Flush, entry: SegmentEntry, sorted: seq<Segment.SeriesPoints>)
    requires Ordered(f.table) && Segment.SortedById(sorted) && StoredTables.Lists(multiset(sorted), f.table)
    requires Compaction.Bounds(f.table, entry.blockStart, entry.blockEnd)
    requires entry.path == FlushPath(f.n) && entry.seriesCount == |f.table|
    ensures FlushWritten(f, entry, Segment.FileBytes(1, Segment.Occupied(sorted), entry.blockStart, entry.blockEnd),
                         sorted)
  {
    hide Segment.SortedById, StoredTables.Lists, Compaction.Bounds, Ordered, Segment.FileBytes;
    StoredTables.ListedHavePoints(sorted, f.table);
  }

  /** The goroutine's work: which status it reports and what it leaves in the file. */
  ghost predicate TableWritten(f: Flush, fault: Fault, status: FlushStatus, file: Option<seq<byte>>) {
    if f.table == map[] then status.NothingToWrite? && file.None?
    else if fault.NoFault? then
      status.Written? && file.Some? && exists list :: FlushWritten(f, status.entry, file.value, list)
    else status.FlushFailed? && file == if fault.CutShort? then Some(fault.leftover) else None
  }

  method WriteTable(f: Flush, fault: Fault) returns (status: FlushStatus, file: Option<seq<byte>>)
    requires Ordered(f.table)
    ensures TableWritten(f, fault, status, file)
  {
    hide Ordered, FlushWritten, Segment.SortedById, StoredTables.Lists, Compaction.Bounds, Segment.FileBytes,
      Segment.Occupied;
    if |f.table| == 0 {
      return NothingToWrite, None;
    }
    var seriesList, blockStart, blockEnd := ListSeries(f.table);
    match fault
    case CannotCreate => return FlushFailed, None;
    case CutShort(leftover) => return FlushFailed, Some(leftover);
    case NoFault =>
      var w := new Segment.Writer(1);
      ghost var sorted := w.Write(seriesList, blockStart, blockEnd);
      var entry := SegmentEntry(FlushPath(f.n), blockStart, blockEnd, |seriesList|);
      FlushOutput(f, entry, sorted);
      status, file := Written(entry), Some(w.file);
  }

  lemma GiveUpStep(s: State, i: nat, s': State)
    requires s.phase.Idle? && i < |s.flushes| &&
             (s.flushes[i].status.NothingToWrite? || s.flushes[i].status.FlushFailed?)
    requires s' == s.(flushes := RemoveAt(s.flushes, i), frozen := None)
    ensures Next(s, DiscardFlush(i), s')
  {
    hide RemoveAt;
  }

  lemma ApplySteps(s: State, i: nat, mid: State, s': State)
    requires s.phase.Idle? && i < |s.flushes| && s.flushes[i].status.Written?
    requires mid == s.(segments := s.segments + [s.flushes[i].status.entry], phase := FlushAdded(i))
    requires s' == mid.(walOffset := s.flushes[i].walOff, durable := s.flushes[i].hi, frozen := None,
                        flushes := RemoveAt(s.flushes, i), phase := Idle)
    ensures Next(s, AddFlushed(i), mid) && Next(mid, AdvanceOffset(i), s')
  {
    hide RemoveAt;
  }

  lemma FlushStep(s: State, i: nat, fault: Fault, status: FlushStatus, file: Option<seq<byte>>, s': State)
    requires i < |s.flushes| && s.flushes[i].status.Flushing? && TableWritten(s.flushes[i], fault, status, file)
    requires s' == s.(flushes := s.flushes[i := s.flushes[i].(status := status)],
                      files := if file.None? then s.files else s.files[FlushPath(s.flushes[i].n) := file.value])
    ensures status.FlushFailed? <==> s.flushes[i].table != map[] && !fault.NoFault?
    ensures if status.FlushFailed?
      then Next(s, FailFlush(i, if fault.CutShort? then Some(fault.leftover) else None), s')
      else Next(s, FinishFlush(i), s')
  {
    hide FlushWritten;
  }

  lemma NoWrites(s: State)
    ensures Writes(s, [], s)
  {
  }

  lemma OneMoreWrite(s: State, payloads: seq<WritePayload>, i: nat, mid: State, s': State)
    requires i < |payloads| && Writes(s, payloads[..i], mid) && Next(mid, Write(payloads[i]), s')
    ensures Writes(s, payloads[..i + 1], s')
  {
    hide Next;
    assert payloads[..i + 1][..i] == payloads[..i];
  }

  // ----- compaction and retention

  lemma CandidatesOrdered(s: State, i: nat)
    requires Inv(s) && i < |s.compactions|
    ensures Compaction.WellFormed(s.compactions[i].candidates, s.files)
    ensures s.compactions[i].candidates != []
  {
    hide LogMatches, FlushesMatch, FlushesStored, Conserved, PhaseMatches, Represents, StoredTables.Content,
      Compaction.Bounds, Compaction.UnionPoints, EngineSums.DistinctPaths, FilesOf, PathsOf, Ordered;
    var run := s.compactions[i];
    assert run in s.compactions;
    forall e | e in run.candidates && e.path in s.files
      ensures Compaction.Occupied(StoredTables.Content(s.files[e.path]))
    {
      assert e in multiset(run.candidates);
      assert e in multiset(s.segments);
      assert Stored(e, s.files);
      OrderedIsOccupied(StoredTables.Content(s.files[e.path]));
    }
  }

  lemma OrderedIsOccupied(t: Table)
    requires Ordered(t)
    ensures Compaction.Occupied(t)
  {
    hide Sorted;
  }

  lemma CompactStep(s: State, i: nat, entry: SegmentEntry, file: seq<byte>, t: Table, list: seq<Segment.SeriesPoints>,
                    s': State)
    requires i < |s.compactions| && s.compactions[i].Compacting? &&
             entry.path == CompactedPath(|s.compactions[i].candidates|)
    requires Compaction.Compacted(s.compactions[i].candidates, s.files, entry, file, t, list)
    requires s' == s.(compactions := s.compactions[i := Compacted(s.compactions[i].candidates, entry)],
                      files := s.files[entry.path := file])
    ensures Next(s, FinishCompaction(i), s')
  {
    hide Compaction.Compacted;
    assert CompactionWritten(s.compactions[i].candidates, s.files, entry, file, t, list);
  }

  lemma FailStep(s: State, i: nat, s': State)
    requires i < |s.compactions| && s.compactions[i].Compacting?
    requires s' == s.(compactions := s.compactions[i := CompactionFailed(s.compactions[i].candidates)])
    ensures Next(s, FailCompaction(i), s')
  {
  }

  lemma PathsListed(entries: seq<SegmentEntry>)
    ensures (set p | p in PathList(entries)) == PathsOf(entries)
  {
    forall e | e in entries
      ensures e.path in PathList(entries)
    {
      var i :| 0 <= i < |entries| && entries[i] == e;
      assert PathList(entries)[i] == e.path;
    }
  }

  method DeleteFiles(paths: seq<Path>, files: map<Path, seq<byte>>) returns (left: map<Path, seq<byte>>)
    ensures left == files - set p | p in paths
  {
    left := files;
    for i := 0 to |paths|
      invariant left == files - set p | p in paths[..i]
    {
      left := left - {paths[i]};
      assert paths[..i + 1] == paths[..i] + [paths[i]];
    }
    assert paths[..|paths|] == paths;
  }

  lemma StartStep(s: State, candidates: seq<SegmentEntry>, s': State)
    requires s.phase.Idle? && Chosen(candidates, s.segments)
    requires s' == s.(compactions := s.compactions + [Compacting(candidates)])
    ensures Next(s, StartCompaction(candidates), s')
  {
  }

  lemma DiscardStep(s: State, i: nat, s': State)
    requires s.phase.Idle? && i < |s.compactions| && s.compactions[i].CompactionFailed?
    requires s' == s.(compactions := RemoveAt(s.compactions, i))
    ensures Next(s, DiscardCompaction(i), s')
  {
  }

  lemma ReplaceSteps(s: State, i: nat, mid: State, s': State)
    requires s.phase.Idle? && i < |s.compactions| && s.compactions[i].Compacted?
    requires mid == s.(segments := s.segments + [s.compactions[i].entry], phase := CompactionAdded(i))
    requires var paths := PathsOf(s.compactions[i].candidates);
             s' == mid.(segments := Without(mid.segments, paths), files := s.files - paths,
                        compactions := RemoveAt(s.compactions, i), phase := Idle)
    ensures Next(s, AddCompacted(i), mid) && Next(mid, RemoveCandidates(i), s')
  {
    hide Without, PathsOf, RemoveAt;
  }

  lemma RetainStep(s: State, cutoff: int, s': State)
    requires s.phase.Idle?
    requires var removed := Retention.Select(s.segments, cutoff, true);
             s' == s.(segments := Without(s.segments, PathsOf(removed)), files := s.files - PathsOf(removed),
                      dropped := s.dropped + FilesOf(removed, s.files))
    ensures Next(s, Retain(cutoff), s')
  {
    hide Without, PathsOf, FilesOf, Retention.Select;
  }

  /** A sweep that finds nothing is a retention step without effect. */
  lemma SpareStep(s: State, cutoff: int)
    requires s.phase.Idle? && Retention.Select(s.segments, cutoff, true) == []
    ensures Next(s, Retain(cutoff), s)
  {
    WithoutNone(s.segments);
    assert s.files - {} == s.files && s.dropped + [] == s.dropped;
    assert PathsOf([]) == {} && FilesOf([], s.files) == [];
    RetainStep(s, cutoff, s);
  }

  lemma {:induction false} WithoutNone(segments: seq<SegmentEntry>)
    ensures Without(segments, {}) == segments
  {
    if segments != [] {
      var n := |segments| - 1;
      WithoutNone(segments[..n]);
      assert segments == segments[..n] + [segments[n]];
    }
  }

  lemma RotateStep(s: State, s': State)
    requires s.phase.Idle?
    requires s' == s.(flushes := s.flushes + [NewFlush(s)],
                      frozen := Some(s.active), active := map[], start := |s.log|, flushCount := s.flushCount + 1)
    ensures Next(s, Rotate, s')
  {
  }

  /** New, then Recover, after a crash that cut the log anywhere behind its synced bytes: the
      active memtable holds exactly the whole writes behind the saved offset. After a cut at
      a record boundary this is the crash step. */
  method Restart(ghost s: State, ghost c: nat, walFile: seq<byte>, saved: Saved, files: map<Path, seq<byte>>,
                 memtableSize: int)
    returns (e: Engine)
    requires Inv(s) && EngineCrash.SyncedBytes(s) <= c <= |LogFile(s.log)| && walFile == LogFile(s.log)[..c]
    requires saved == Saved(s.segments, s.walOffset) && files == s.files
    ensures fresh(e) && e.Assembled() && !e.wal.closed && e.manifest.disk == saved && e.files == files
    ensures var k := Wal.Whole(Records(s.log), c);
            && s.synced <= k
            && Represents(e.active.series.m, s.log, if s.durable <= k then s.durable else k, k)
            && (c == OffsetOf(s.log, k) ==> e.Valid() && Next(s, CrashAndRecover(k), e.View()))
            && (c == OffsetOf(s.log, k) && s.durable <= k ==> Inv(e.View()))
  {
    hide LogFile, LogPoints, Ordered, Total, Wal.Writer.Valid, FilesOf, Next, Inv, OffsetOf, Replayed, AllLoggable,
      Records, Represents, EngineCrash.SyncedBytes, Wal.Whole, Recovered;
    ghost var k := Wal.Whole(Records(s.log), c);
    CutAt(s, c);
    e := new Engine(walFile, Some(saved), files, memtableSize, s.log[..k], s.durable, s.dropped,
                    s.extra + FilesOf(MidEntry(s), s.files));
    ghost var empty := e.active.series.m;
    var r := e.Recover();
    RecoveredTable(s, c, empty, e.active.series.m);
    if walFile == LogFile(s.log[..k]) {
      RestartStep(s, k, empty, e.View());
    }
  }

  /** What a cut behind the synced bytes leaves for Recover. */
  lemma CutAt(s: State, c: nat)
    requires Inv(s) && EngineCrash.SyncedBytes(s) <= c <= |LogFile(s.log)|
    ensures var k := Wal.Whole(Records(s.log), c);
            && s.synced <= k <= |s.log| && s.durable <= |s.log|
            && Recovered(LogFile(s.log)[..c], s.walOffset) == Ok(if s.durable <= k then s.log[s.durable..k] else [])
            && (c == OffsetOf(s.log, k) ==> LogFile(s.log)[..c] == LogFile(s.log[..k]))
  {
    hide Inv, Recovered, AllLoggable, Wal.Whole, Wal.LogBytes;
    EngineRuns.LogBasics(s);
    RecoveredExactly(s.log, s.durable, c);
    Wal.WholeAtLeast(Records(s.log), c, s.synced);
    var k := Wal.Whole(Records(s.log), c);
    Wal.LogBytesSplit(Records(s.log), k);
    assert Records(s.log)[..k] == Records(s.log[..k]);
  }

  lemma RecoveredTable(s: State, c: nat, empty: Table, t: Table)
    requires Inv(s) && EngineCrash.SyncedBytes(s) <= c <= |LogFile(s.log)| && empty == map[] && Ordered(t)
    requires var r := Recovered(LogFile(s.log)[..c], s.walOffset);
             r.Ok? ==> Replayed(empty, r.value, t)
    ensures var k := Wal.Whole(Records(s.log), c);
            k <= |s.log| && Represents(t, s.log, if s.durable <= k then s.durable else k, k)
  {
    hide Inv, LogPoints, Ordered, Recovered, LogFile, EngineCrash.SyncedBytes, Wal.Whole, OffsetOf, Records;
    CutAt(s, c);
    var k := Wal.Whole(Records(s.log), c);
    assert s.log[k..k] == [];
  }

  lemma RestartStep(s: State, k: nat, empty: Table, s': State)
    requires Inv(s) && s.synced <= k <= |s.log| && empty == map[] && Ordered(s'.active)
    requires var r := Recovered(LogFile(s.log[..k]), s.walOffset);
             r.Ok? && Replayed(empty, r.value, s'.active)
    requires s' == s.(log := s.log[..k], synced := k, active := s'.active,
                      start := if s.durable <= k then s.durable else k, frozen := None,
                      flushes := [], compactions := [], flushCount := 0, phase := Idle,
                      extra := s.extra + FilesOf(MidEntry(s), s.files))
    ensures Next(s, CrashAndRecover(k), s') && (s.durable <= k ==> Inv(s'))
  {
    hide Inv, LogPoints, Ordered, FilesOf, Recovered, LogFile;
    if s.durable <= k {
      EngineRuns.StepKeeps(s, CrashAndRecover(k), s');
    }
  }

  /** The steps of a batch, one write each. */
  ghost predicate Writes(s: State, payloads: seq<WritePayload>, s': State) {
    if payloads == [] then s == s'
    else
      var n := |payloads| - 1;
      exists mid :: Writes(s, payloads[..n], mid) && Next(mid, Write(payloads[n]), s')
  }

  /** The table has taken in the writes. */
  ghost predicate Replayed(before: Table, writes: seq<WritePayload>, after: Table) {
    forall id: uint64 :: PointsOf(after, id) == PointsOf(before, id) + LogPoints(writes, id)
  }

  lemma NothingReplayed(before: Table)
    ensures Replayed(before, [], before)
  {
  }

  lemma ReplayOne(before: Table, writes: seq<WritePayload>, table: Table, after: Table, p: WritePayload)
    requires Replayed(before, writes, table) && Added(table, after, p.id, p.points)
    ensures Replayed(before, writes + [p], after)
  {
    hide LogPoints, PointsOf, Added;
    forall id: uint64
      ensures PointsOf(after, id) == PointsOf(before, id) + LogPoints(writes + [p], id)
    {
      EngineSums.LogPointsSnoc(writes, p, id);
      AddedPoints(table, after, p.id, p.points, id);
    }
  }

  /** Recover's loop: decode and insert, entry by entry. */
  method ReplayInto(m: Memtable.Memtable, entries: seq<seq<byte>>) returns (ok: bool)
    requires m.Valid() && !m.frozen
    modifies m`sizeBytes, m.series
    ensures m.Valid()
    ensures ok == DecodeAll(entries).Ok?
    ensures ok ==> |DecodeAll(entries).value| == |entries|
    ensures ok ==> Replayed(old(m.series.m), DecodeAll(entries).value, m.series.m)
  {
    hide LogPoints, Decode, Added, Replayed, PointsOf;
    ghost var before := m.series.m;
    NothingReplayed(before);
    ghost var writes: seq<WritePayload> := [];
    for i := 0 to |entries|
      invariant m.Valid()
      invariant DecodeAll(entries[..i]) == Ok(writes) && |writes| == i
      invariant Replayed(before, writes, m.series.m)
    {
      hide Ordered, Total;
      assert entries[..i + 1][..i] == entries[..i];
      var p := DecodePayload(entries[i]);
      if !p.Ok? {
        DecodeStuck(entries, i + 1);
        return false;
      }
      ghost var table := m.series.m;
      m.Insert(p.value.id, p.value.points);
      ReplayOne(before, writes, table, m.series.m, p.value);
      writes := writes + [p.value];
    }
    assert entries[..|entries|] == entries;
    ok := true;
  }

  lemma {:induction false} DecodeStuck(entries: seq<seq<byte>>, k: nat)
    requires k <= |entries| && !DecodeAll(entries[..k]).Ok?
    ensures !DecodeAll(entries).Ok?
    decreases |entries|
  {
    if k < |entries| {
      var n := |entries| - 1;
      assert entries[..n][..k] == entries[..k];
      DecodeStuck(entries[..n], k);
    } else {
      assert entries[..k] == entries;
    }
  }
}
