/** What every step of the storage engine keeps: the accounting between the log, the
    manifest, the memtables and the results in flight. */
module EngineInvariant {
  import opened Words
  import opened Tables
  import opened Manifest
  import opened Payload
  import opened EngineLog
  import opened EngineState
  import opened EngineSums
  import Compaction
  import StoredTables

  // ----- the parts of the invariant

  /** The saved offset is the byte position of the first log record that the manifest does
      not cover. */
  ghost predicate LogMatches(log: seq<WritePayload>, synced: nat, durable: nat, start: nat, walOffset: nat) {
    durable <= start <= |log| && synced <= |log| && AllLoggable(log) && walOffset == OffsetOf(log, durable)
  }

  /** The entry's file is a readable table with points, whose first and last timestamps are
      the entry's bounds. */
  ghost predicate Stored(e: SegmentEntry, files: map<Path, seq<byte>>) {
    && e.path in files
    && StoredTables.Holds(files[e.path], StoredTables.Content(files[e.path]))
    && StoredTables.Content(files[e.path]) != map[]
    && Compaction.Bounds(StoredTables.Content(files[e.path]), e.blockStart, e.blockEnd)
  }

  ghost predicate SegmentsStored(segments: seq<SegmentEntry>, files: map<Path, seq<byte>>) {
    DistinctPaths(segments) && forall e :: e in segments ==> Stored(e, files)
  }

  /** Manifest segments and removed files hold the covered log records, plus what two saves
      or a crash between them count twice. */
  ghost predicate Conserved(segments: seq<SegmentEntry>, files: map<Path, seq<byte>>, dropped: seq<seq<byte>>,
                            log: seq<WritePayload>, durable: nat, extra: seq<seq<byte>>, mid: seq<seq<byte>>) {
    durable <= |log| &&
    forall id: uint64 ::
      SegmentPoints(segments, files, id) + FilePoints(dropped, id)
      == LogPoints(log[..durable], id) + FilePoints(extra, id) + FilePoints(mid, id)
  }

  /** A table with exactly the points of a stretch of the log. */
  ghost predicate Represents(t: Table, log: seq<WritePayload>, lo: nat, hi: nat) {
    lo <= hi <= |log| && Ordered(t) && forall id: uint64 :: PointsOf(t, id) == LogPoints(log[lo..hi], id)
  }

  ghost predicate FlushMatches(f: Flush, log: seq<WritePayload>, start: nat, flushCount: nat) {
    && f.hi <= start <= |log| && Represents(f.table, log, f.lo, f.hi)
    && f.walOff == OffsetOf(log, f.hi) && f.n < flushCount
    && (f.status.NothingToWrite? ==> f.table == map[])
  }

  ghost predicate FlushesMatch(flushes: seq<Flush>, log: seq<WritePayload>, start: nat, flushCount: nat) {
    && (forall f :: f in flushes ==> FlushMatches(f, log, start, flushCount))
    && forall i, j :: 0 <= i < j < |flushes| ==> flushes[i].n < flushes[j].n
  }

  /** A finished flush has its table in a file that the manifest does not list yet. */
  ghost predicate FlushStored(f: Flush, files: map<Path, seq<byte>>, listed: set<Path>) {
    f.status.Written? ==>
      var e := f.status.entry;
      && e.path == FlushPath(f.n) && e.path !in listed
      && e.path in files && StoredTables.Holds(files[e.path], f.table) && f.table != map[]
      && Compaction.Bounds(f.table, e.blockStart, e.blockEnd)
  }

  ghost predicate FlushesStored(flushes: seq<Flush>, files: map<Path, seq<byte>>, listed: set<Path>) {
    forall f :: f in flushes ==> FlushStored(f, files, listed)
  }

  /** A compaction works on listed entries; a finished one has their points in a file that
      the manifest does not list yet. */
  ghost predicate RunMatches(run: Run, segments: seq<SegmentEntry>, files: map<Path, seq<byte>>, listed: set<Path>) {
    && run.candidates != [] && multiset(run.candidates) <= multiset(segments)
    && (run.Compacted? ==>
      var e := run.entry;
      && e.path == CompactedPath(|run.candidates|)
      && e.path !in listed && e.path !in PathsOf(run.candidates) && Stored(e, files)
      && (forall id: uint64 ::
            PointsOf(StoredTables.Content(files[e.path]), id) == SegmentPoints(run.candidates, files, id)))
  }

  ghost predicate RunsMatch(runs: seq<Run>, segments: seq<SegmentEntry>, files: map<Path, seq<byte>>,
                            listed: set<Path>) {
    |runs| <= 1 && forall run :: run in runs ==> RunMatches(run, segments, files, listed)
  }

  /** Between two saves the added entry is the last one, and its result is still there. */
  ghost predicate PhaseMatches(s: State) {
    match s.phase
    case Idle => true
    case FlushAdded(i) =>
      && i < |s.flushes| && s.flushes[i].status.Written? && GapFree(s, s.flushes[i].lo)
      && s.segments != [] && s.segments[|s.segments| - 1] == s.flushes[i].status.entry
    case CompactionAdded(i) =>
      && i < |s.compactions| && s.compactions[i].Compacted?
      && s.segments != [] && s.segments[|s.segments| - 1] == s.compactions[i].entry
  }

  /** The listed paths without the one that a second save is to account for. */
  function Settled(s: State): set<Path> {
    PathsOf(s.segments) - PathsOf(MidEntry(s))
  }

  ghost predicate Inv(s: State) {
    && LogMatches(s.log, s.synced, s.durable, s.start, s.walOffset)
    && SegmentsStored(s.segments, s.files)
    && Conserved(s.segments, s.files, s.dropped, s.log, s.durable, s.extra, FilesOf(MidEntry(s), s.files))
    && Represents(s.active, s.log, s.start, |s.log|)
    && FlushesMatch(s.flushes, s.log, s.start, s.flushCount)
    && FlushesStored(s.flushes, s.files, Settled(s))
    && RunsMatch(s.compactions, s.segments, s.files, Settled(s))
    && PhaseMatches(s)
  }

  // ----- how the parts move

  lemma RepresentsInPrefix(t: Table, log: seq<WritePayload>, lo: nat, hi: nat, log': seq<WritePayload>)
    requires Represents(t, log, lo, hi) && hi <= |log'| && log[..hi] == log'[..hi]
    ensures Represents(t, log', lo, hi)
  {
    hide Ordered, LogPoints;
    assert log[lo..hi] == log[..hi][lo..] == log'[lo..hi];
  }

  lemma FlushInPrefix(f: Flush, log: seq<WritePayload>, start: nat, flushCount: nat, log': seq<WritePayload>)
    requires FlushMatches(f, log, start, flushCount) && start <= |log'| && log[..start] == log'[..start]
    ensures FlushMatches(f, log', start, flushCount)
  {
    hide Represents, OffsetOf;
    assert log[..f.hi] == log[..start][..f.hi] == log'[..f.hi];
    RepresentsInPrefix(f.table, log, f.lo, f.hi, log');
    OffsetOfPrefix(log[..f.hi], log, f.hi);
    OffsetOfPrefix(log'[..f.hi], log', f.hi);
  }

  lemma FlushesInPrefix(flushes: seq<Flush>, log: seq<WritePayload>, start: nat, flushCount: nat,
                        log': seq<WritePayload>)
    requires FlushesMatch(flushes, log, start, flushCount) && start <= |log| && start <= |log'| &&
             log[..start] == log'[..start]
    ensures FlushesMatch(flushes, log', start, flushCount)
  {
    hide FlushMatches;
    forall f | f in flushes
      ensures FlushMatches(f, log', start, flushCount)
    {
      FlushInPrefix(f, log, start, flushCount, log');
    }
  }

  ghost predicate Kept(p: Path, files: map<Path, seq<byte>>, files': map<Path, seq<byte>>) {
    p in files ==> p in files' && files'[p] == files[p]
  }

  ghost predicate AllKept(entries: seq<SegmentEntry>, files: map<Path, seq<byte>>, files': map<Path, seq<byte>>) {
    forall e :: e in entries ==> Kept(e.path, files, files')
  }

  lemma StoredFrame(e: SegmentEntry, files: map<Path, seq<byte>>, files': map<Path, seq<byte>>)
    requires Stored(e, files) && Kept(e.path, files, files')
    ensures Stored(e, files')
  {
  }

  lemma StoredHasFile(e: SegmentEntry, files: map<Path, seq<byte>>)
    requires Stored(e, files)
    ensures e.path in files
  {
  }

  lemma StoredFrames(segments: seq<SegmentEntry>, files: map<Path, seq<byte>>, files': map<Path, seq<byte>>)
    requires SegmentsStored(segments, files) && AllKept(segments, files, files')
    ensures SegmentsStored(segments, files')
  {
    hide Stored, DistinctPaths, Kept;
    forall e | e in segments
      ensures Stored(e, files')
    {
      StoredFrame(e, files, files');
    }
  }

  /** The sum over stored entries survives changes to other files. */
  lemma SumFrame(segments: seq<SegmentEntry>, entries: seq<SegmentEntry>, files: map<Path, seq<byte>>,
                 files': map<Path, seq<byte>>)
    requires SegmentsStored(segments, files) && AllKept(segments, files, files')
    requires forall e :: e in entries ==> e in segments
    ensures forall id: uint64 :: SegmentPoints(entries, files', id) == SegmentPoints(entries, files, id)
    ensures |entries| <= 1 ==> FilesOf(entries, files') == FilesOf(entries, files)
  {
    hide DistinctPaths, FilesOf;
    forall e | e in entries
      ensures e.path in files && e.path in files' && files'[e.path] == files[e.path]
    {
      StoredHasFile(e, files);
      assert Kept(e.path, files, files');
    }
    forall id: uint64
      ensures SegmentPoints(entries, files', id) == SegmentPoints(entries, files, id)
    {
      hide Stored, StoredTables.Content;
      UnionFrame(entries, files, files', id);
    }
    if |entries| <= 1 {
      FilesOfFrame(entries, files, files');
    }
  }

  lemma MidListed(s: State)
    requires PhaseMatches(s)
    ensures |MidEntry(s)| <= 1 && forall e :: e in MidEntry(s) ==> e in s.segments
  {
  }

  /** Files the manifest does not list do not matter to what it holds. */
  lemma ConservedFrame(s: State, files': map<Path, seq<byte>>)
    requires SegmentsStored(s.segments, s.files) && AllKept(s.segments, s.files, files') && PhaseMatches(s)
    requires Conserved(s.segments, s.files, s.dropped, s.log, s.durable, s.extra, FilesOf(MidEntry(s), s.files))
    ensures Conserved(s.segments, files', s.dropped, s.log, s.durable, s.extra, FilesOf(MidEntry(s), files'))
  {
    hide SegmentsStored, AllKept, PhaseMatches, FilesOf, Compaction.UnionPoints, FilePoints, LogPoints;
    MidListed(s);
    SumFrame(s.segments, MidEntry(s), s.files, files');
    SumFrame(s.segments, s.segments, s.files, files');
  }

  lemma FlushFrame(f: Flush, files: map<Path, seq<byte>>, listed: set<Path>, files': map<Path, seq<byte>>,
                   listed': set<Path>)
    requires FlushStored(f, files, listed)
    requires f.status.Written? ==> FlushPath(f.n) !in listed' && Kept(FlushPath(f.n), files, files')
    ensures FlushStored(f, files', listed')
  {
    hide StoredTables.Holds, Compaction.Bounds;
  }

  lemma FlushesFrame(flushes: seq<Flush>, files: map<Path, seq<byte>>, listed: set<Path>,
                     files': map<Path, seq<byte>>, listed': set<Path>)
    requires FlushesStored(flushes, files, listed)
    requires forall f :: f in flushes && f.status.Written? ==>
               FlushPath(f.n) !in listed' && Kept(FlushPath(f.n), files, files')
    ensures FlushesStored(flushes, files', listed')
  {
    hide FlushStored, Kept;
    forall f | f in flushes
      ensures FlushStored(f, files', listed')
    {
      FlushFrame(f, files, listed, files', listed');
    }
  }

  lemma RunFrame(run: Run, segments: seq<SegmentEntry>, files: map<Path, seq<byte>>, listed: set<Path>,
                 segments': seq<SegmentEntry>, files': map<Path, seq<byte>>, listed': set<Path>)
    requires RunMatches(run, segments, files, listed) && SegmentsStored(segments, files)
    requires multiset(run.candidates) <= multiset(segments') && AllKept(run.candidates, files, files')
    requires run.Compacted? ==> run.entry.path !in listed' && Kept(run.entry.path, files, files')
    ensures RunMatches(run, segments', files', listed')
  {
    hide DistinctPaths, StoredTables.Holds, StoredTables.Content, Compaction.Bounds;
    if run.Compacted? {
      StoredFrame(run.entry, files, files');
      forall id: uint64
        ensures SegmentPoints(run.candidates, files, id) == SegmentPoints(run.candidates, files', id)
      {
        forall e | e in run.candidates
          ensures e.path in files && Kept(e.path, files, files')
        {
          assert e in multiset(segments);
          StoredHasFile(e, files);
        }
        UnionFrame(run.candidates, files, files', id);
      }
    }
  }

  lemma RunsFrame(runs: seq<Run>, segments: seq<SegmentEntry>, files: map<Path, seq<byte>>, listed: set<Path>,
                  segments': seq<SegmentEntry>, files': map<Path, seq<byte>>, listed': set<Path>)
    requires RunsMatch(runs, segments, files, listed) && SegmentsStored(segments, files)
    requires forall run :: run in runs ==>
               multiset(run.candidates) <= multiset(segments') && AllKept(run.candidates, files, files')
    requires forall run :: run in runs && run.Compacted? ==>
               run.entry.path !in listed' && Kept(run.entry.path, files, files')
    ensures RunsMatch(runs, segments', files', listed')
  {
    hide RunMatches, SegmentsStored, AllKept, Kept;
    forall run | run in runs
      ensures RunMatches(run, segments', files', listed')
    {
      RunFrame(run, segments, files, listed, segments', files', listed');
    }
  }

  lemma SegmentsAreStored(s: State)
    requires Inv(s)
    ensures forall e :: e in s.segments ==> Stored(e, s.files)
  {
    hide LogMatches, FlushesMatch, FlushesStored, RunsMatch, Conserved, PhaseMatches, Represents, Stored,
      DistinctPaths;
  }
}
