/** Every step keeps the engine's invariant, hence every run does. */
module EngineSteps {
  import opened Words
  import opened Tables
  import opened Manifest
  import opened Payload
  import opened EngineLog
  import opened EngineState
  import opened EngineSums
  import opened EngineInvariant
  import Compaction
  import Segment
  import StoredTables
  import Wal

  // ----- the log grows

  lemma LogGrows(log: seq<WritePayload>, synced: nat, durable: nat, start: nat, walOffset: nat, p: WritePayload,
                 synced': nat)
    requires LogMatches(log, synced, durable, start, walOffset) && Wal.Loggable(Encode(p))
    requires synced' <= |log| + 1
    ensures LogMatches(log + [p], synced', durable, start, walOffset)
  {
    hide OffsetOf, Encode, Wal.Loggable;
    OffsetOfPrefix(log, log + [p], durable);
  }

  lemma ActiveGrows(t: Table, t': Table, log: seq<WritePayload>, start: nat, p: WritePayload)
    requires Represents(t, log, start, |log|) && Added(t, t', p.id, p.points) && Ordered(t')
    ensures Represents(t', log + [p], start, |log| + 1)
  {
    hide Ordered, LogPoints, PointsOf, Added;
    var stretch := log[start..|log|];
    assert (log + [p])[start..|log| + 1] == stretch + [p];
    forall id: uint64
      ensures PointsOf(t', id) == LogPoints(stretch + [p], id)
    {
      LogPointsSnoc(stretch, p, id);
      AddedPoints(t, t', p.id, p.points, id);
    }
  }

  lemma WriteKeeps(s: State, p: WritePayload, s': State)
    requires Inv(s) && Step(s, Write(p), s')
    ensures Inv(s')
  {
    hide LogMatches, Represents, SegmentsStored, FlushesStored, RunsMatch, FlushesMatch, Added, Ordered, Wal.Loggable,
      Encode, OffsetOf, LogPoints, FilePoints, Compaction.UnionPoints, FilesOf, PathsOf;
    Lengths(s);
    LogGrows(s.log, s.synced, s.durable, s.start, s.walOffset, p, s'.synced);
    ActiveGrows(s.active, s'.active, s.log, s.start, p);
    FlushesInPrefix(s.flushes, s.log, s.start, s.flushCount, s'.log);
    assert s'.log[..s.durable] == s.log[..s.durable];
  }

  lemma Lengths(s: State)
    requires Inv(s)
    ensures s.durable <= s.start <= |s.log| && s.synced <= |s.log|
  {
    hide Represents, SegmentsStored, FlushesStored, RunsMatch, FlushesMatch, Conserved, PhaseMatches;
  }

  lemma SyncKeeps(s: State, s': State)
    requires Inv(s) && Step(s, Sync, s')
    ensures Inv(s')
  {
    hide Represents, SegmentsStored, FlushesStored, RunsMatch, FlushesMatch, Conserved, AllLoggable, OffsetOf,
      PathsOf, FilesOf, NoPoints;
  }

  // ----- rotation

  lemma FlushesGrow(flushes: seq<Flush>, log: seq<WritePayload>, start: nat, flushCount: nat, table: Table)
    requires FlushesMatch(flushes, log, start, flushCount) && Represents(table, log, start, |log|)
    ensures FlushesMatch(flushes + [Flush(table, flushCount, start, |log|, OffsetOf(log, |log|), Flushing)], log,
                         |log|, flushCount + 1)
  {
    hide Represents, OffsetOf;
    var flushes' := flushes + [Flush(table, flushCount, start, |log|, OffsetOf(log, |log|), Flushing)];
    forall j | 0 <= j < |flushes'|
      ensures FlushMatches(flushes'[j], log, |log|, flushCount + 1)
    {
      if j < |flushes| {
        assert flushes[j] in flushes;
      }
    }
    forall i, j | 0 <= i < j < |flushes'|
      ensures flushes'[i].n < flushes'[j].n
    {
      assert flushes[i] in flushes;
    }
  }

  lemma NothingRepresented(log: seq<WritePayload>, k: nat)
    requires k <= |log|
    ensures Represents(map[], log, k, k)
  {
    assert log[k..k] == [];
  }

  lemma RotateKeeps(s: State, s': State)
    requires Inv(s) && Step(s, Rotate, s')
    ensures Inv(s')
  {
    hide Represents, SegmentsStored, FlushesMatch, RunsMatch, FlushStored, Conserved, PathsOf, OffsetOf, AllLoggable,
      FilesOf;
    FlushesGrow(s.flushes, s.log, s.start, s.flushCount, s.active);
    NothingRepresented(s.log, |s.log|);
    NewFlushStored(s'.flushes[|s.flushes|], s.files, Settled(s));
  }

  lemma NewFlushStored(f: Flush, files: map<Path, seq<byte>>, listed: set<Path>)
    requires !f.status.Written?
    ensures FlushStored(f, files, listed)
  {
  }

  // ----- flushes finish

  lemma FlushChanges(flushes: seq<Flush>, i: nat, status: FlushStatus, log: seq<WritePayload>, start: nat,
                     flushCount: nat)
    requires FlushesMatch(flushes, log, start, flushCount) && i < |flushes|
    requires status.NothingToWrite? ==> flushes[i].table == map[]
    ensures FlushesMatch(flushes[i := flushes[i].(status := status)], log, start, flushCount)
  {
    hide Represents, OffsetOf;
    assert flushes[i] in flushes;
  }

  lemma OtherNumbers(flushes: seq<Flush>, i: nat, log: seq<WritePayload>, start: nat, flushCount: nat)
    requires FlushesMatch(flushes, log, start, flushCount) && i < |flushes|
    ensures forall j :: 0 <= j < |flushes| && j != i ==> flushes[j].n != flushes[i].n
  {
    hide FlushMatches;
  }

  /** Writing one unlisted file, which belongs to flush i, disturbs nothing. */
  lemma FlushFileKeeps(s: State, i: nat, status: FlushStatus, file: seq<byte>, s': State)
    requires Inv(s) && i < |s.flushes| && s.flushes[i].status.Flushing?
    requires FlushPath(s.flushes[i].n) !in PathsOf(s.segments)
    requires s' == s.(flushes := s.flushes[i := s.flushes[i].(status := status)],
                      files := s.files[FlushPath(s.flushes[i].n) := file])
    requires FlushStored(s'.flushes[i], s'.files, Settled(s)) && !status.NothingToWrite?
    ensures Inv(s')
  {
    hide LogMatches, Represents, SegmentsStored, FlushesMatch, RunsMatch, FlushStored, Conserved, FilesOf, NoPoints;
    var path := FlushPath(s.flushes[i].n);
    assert MidEntry(s') == MidEntry(s) && PhaseMatches(s');
    assert AllKept(s.segments, s.files, s'.files) by { UnlistedKept(s.segments, s.files, path, file); }
    StoredFrames(s.segments, s.files, s'.files);
    ConservedFrame(s, s'.files);
    FlushChanges(s.flushes, i, status, s.log, s.start, s.flushCount);
    OtherNumbers(s.flushes, i, s.log, s.start, s.flushCount);
    FlushesReplaced(s.flushes, i, s'.flushes[i], s.files, Settled(s), s'.files);
    RunsKept(s, s'.files, path);
  }

  lemma UnlistedKept(segments: seq<SegmentEntry>, files: map<Path, seq<byte>>, path: Path, file: seq<byte>)
    requires path !in PathsOf(segments)
    ensures AllKept(segments, files, files[path := file])
  {
    forall e | e in segments
      ensures e.path != path
    {
      assert e.path in PathsOf(segments);
    }
  }

  lemma FlushesReplaced(flushes: seq<Flush>, i: nat, f: Flush, files: map<Path, seq<byte>>, listed: set<Path>,
                        files': map<Path, seq<byte>>)
    requires FlushesStored(flushes, files, listed) && i < |flushes| && FlushStored(f, files', listed)
    requires forall j :: 0 <= j < |flushes| && j != i ==> Kept(FlushPath(flushes[j].n), files, files')
    ensures FlushesStored(flushes[i := f], files', listed)
  {
    hide FlushStored, Kept;
    forall j | 0 <= j < |flushes| && j != i
      ensures FlushStored(flushes[j], files', listed)
    {
      assert flushes[j] in flushes;
      if flushes[j].status.Written? {
        Unlisted(flushes[j], files, listed);
      }
      FlushFrame(flushes[j], files, listed, files', listed);
    }
  }

  lemma Unlisted(f: Flush, files: map<Path, seq<byte>>, listed: set<Path>)
    requires FlushStored(f, files, listed) && f.status.Written?
    ensures f.status.entry.path == FlushPath(f.n) && FlushPath(f.n) !in listed && FlushPath(f.n) in files
  {
    hide StoredTables.Holds, Compaction.Bounds;
  }

  /** A running compaction does not notice a file under an unlisted flush path. */
  lemma RunsKept(s: State, files': map<Path, seq<byte>>, path: Path)
    requires SegmentsStored(s.segments, s.files) && RunsMatch(s.compactions, s.segments, s.files, Settled(s))
    requires path.FlushPath? && path !in PathsOf(s.segments)
    requires forall p :: p != path ==> Kept(p, s.files, files')
    ensures RunsMatch(s.compactions, s.segments, files', Settled(s))
  {
    hide SegmentsStored, Kept, Stored, Compaction.UnionPoints, StoredTables.Content;
    forall run | run in s.compactions
      ensures AllKept(run.candidates, s.files, files')
    {
      forall e | e in run.candidates
        ensures e.path != path
      {
        assert e in multiset(s.segments);
        assert e.path in PathsOf(s.segments);
      }
    }
    RunsFrame(s.compactions, s.segments, s.files, Settled(s), s.segments, files', Settled(s));
  }

  lemma WrittenIsStored(f: Flush, entry: SegmentEntry, file: seq<byte>, list: seq<Segment.SeriesPoints>,
                        files: map<Path, seq<byte>>, listed: set<Path>)
    requires FlushWritten(f, entry, file, list) && StoredTables.WellSized(list) && Ordered(f.table)
    requires f.table != map[]
    requires FlushPath(f.n) in files && files[FlushPath(f.n)] == file && FlushPath(f.n) !in listed
    ensures FlushStored(f.(status := Written(entry)), files, listed)
  {
    hide StoredTables.Holds, Compaction.Bounds, StoredTables.Lists, StoredTables.WellSized, Ordered,
      Segment.SortedById, Segment.FileBytes;
    StoredTables.WrittenTableIsHeld(list, f.table, entry.blockStart, entry.blockEnd);
  }

  lemma FlushTableOrdered(s: State, i: nat)
    requires Inv(s) && i < |s.flushes|
    ensures Ordered(s.flushes[i].table)
  {
    hide LogMatches, SegmentsStored, FlushesStored, RunsMatch, Conserved, PhaseMatches, Ordered, OffsetOf, LogPoints;
    assert s.flushes[i] in s.flushes;
  }

  lemma FinishFlushKeeps(s: State, i: nat, s': State)
    requires Inv(s) && Step(s, FinishFlush(i), s')
    ensures Inv(s')
  {
    hide Inv, FlushWritten, StoredTables.WellSized, FlushStored, PathsOf, Ordered;
    var f := s.flushes[i];
    if f.table == map[] {
      StatusKeeps(s, i, NothingToWrite, s');
    } else {
      var entry := s'.flushes[i].status.entry;
      var list :| FlushWritten(f, entry, s'.files[FlushPath(f.n)], list) && StoredTables.WellSized(list);
      FlushTableOrdered(s, i);
      WrittenIsStored(f, entry, s'.files[FlushPath(f.n)], list, s'.files, Settled(s));
      FlushFileKeeps(s, i, Written(entry), s'.files[FlushPath(f.n)], s');
    }
  }

  lemma StatusKeeps(s: State, i: nat, status: FlushStatus, s': State)
    requires Inv(s) && i < |s.flushes| && s.flushes[i].status.Flushing?
    requires !status.Written? && (status.NothingToWrite? ==> s.flushes[i].table == map[])
    requires s' == s.(flushes := s.flushes[i := s.flushes[i].(status := status)])
    ensures Inv(s')
  {
    hide LogMatches, Represents, SegmentsStored, FlushesMatch, RunsMatch, FlushStored, Conserved, FilesOf, NoPoints,
      PathsOf;
    assert MidEntry(s') == MidEntry(s) && PhaseMatches(s');
    FlushChanges(s.flushes, i, status, s.log, s.start, s.flushCount);
    NewFlushStored(s'.flushes[i], s.files, Settled(s));
    FlushesReplaced(s.flushes, i, s'.flushes[i], s.files, Settled(s), s.files);
  }

  lemma FailFlushKeeps(s: State, i: nat, leftover: Option<seq<byte>>, s': State)
    requires Inv(s) && Step(s, FailFlush(i, leftover), s')
    ensures Inv(s')
  {
    hide Inv, FlushStored, PathsOf;
    if leftover.None? {
      StatusKeeps(s, i, FlushFailed, s');
    } else {
      NewFlushStored(s'.flushes[i], s'.files, Settled(s));
      FlushFileKeeps(s, i, FlushFailed, leftover.value, s');
    }
  }
}
