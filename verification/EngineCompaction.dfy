/** Compaction, retention and crashes keep the engine's invariant. */
module EngineCompaction {
  import opened Words
  import opened Points
  import opened Tables
  import opened Manifest
  import opened EngineLog
  import opened EngineState
  import opened EngineSums
  import opened EngineInvariant
  import opened EngineSteps
  import opened EngineResults
  import Compaction
  import Segment
  import StoredTables

  // ----- compactions start and finish

  lemma StartCompactionKeeps(s: State, candidates: seq<SegmentEntry>, s': State)
    requires Inv(s) && Step(s, StartCompaction(candidates), s')
    ensures Inv(s')
  {
    hide LogMatches, Represents, SegmentsStored, FlushesMatch, FlushesStored, Conserved, FilesOf, NoPoints, PathsOf,
      Stored;
    assert s'.compactions == [Compacting(candidates)];
  }

  lemma FailCompactionKeeps(s: State, i: nat, s': State)
    requires Inv(s) && Step(s, FailCompaction(i), s')
    ensures Inv(s')
  {
    hide LogMatches, Represents, SegmentsStored, FlushesMatch, FlushesStored, Conserved, FilesOf, NoPoints, PathsOf,
      Stored;
    var run := s.compactions[i];
    assert run in s.compactions;
    assert s'.compactions == [CompactionFailed(run.candidates)];
    assert MidEntry(s') == MidEntry(s);
  }

  lemma DiscardCompactionKeeps(s: State, i: nat, s': State)
    requires Inv(s) && Step(s, DiscardCompaction(i), s')
    ensures Inv(s')
  {
    hide LogMatches, Represents, SegmentsStored, FlushesMatch, FlushesStored, Conserved, FilesOf, NoPoints, PathsOf,
      Stored;
    assert s'.compactions == [];
  }

  /** A compaction's output holds exactly its candidates' points. */
  lemma OutputMatches(candidates: seq<SegmentEntry>, segments: seq<SegmentEntry>, files: map<Path, seq<byte>>,
                      listed: set<Path>,
                      entry: SegmentEntry, file: seq<byte>, t: Table, list: seq<Segment.SeriesPoints>)
    requires candidates != [] && multiset(candidates) <= multiset(segments) && Stored(candidates[0], files)
    requires CompactionWritten(candidates, files, entry, file, t, list) && StoredTables.WellSized(list)
    requires entry.path !in PathsOf(segments) && listed <= PathsOf(segments)
    ensures RunMatches(Compacted(candidates, entry), segments, files[entry.path := file], listed)
  {
    hide Compaction.UnionPoints, StoredTables.Holds, StoredTables.Content, StoredTables.Lists, StoredTables.WellSized,
      Compaction.Bounds, Ordered, Segment.SortedById, Segment.FileBytes, PathsOf;
    var files' := files[entry.path := file];
    StoredTables.WrittenTableIsHeld(list, t, entry.blockStart, entry.blockEnd);
    StoredTables.HoldsContent(file, t);
    var s := CandidatesHavePoints(candidates, files);
    assert PointsOf(t, s) != multiset{};
    CandidatesListed(candidates, segments);
    forall id: uint64
      ensures SegmentPoints(candidates, files', id) == SegmentPoints(candidates, files, id)
    {
      CandidatePathsListed(candidates, segments);
      UnionFrame(candidates, files, files', id);
    }
    CandidatePathsListed(candidates, segments);
    PathsOfMembers(candidates, entry.path);
  }

  /** A stored segment has points, and so has a union with it. */
  lemma CandidatesHavePoints(candidates: seq<SegmentEntry>, files: map<Path, seq<byte>>) returns (id: uint64)
    requires candidates != [] && Stored(candidates[0], files)
    ensures Compaction.UnionPoints(candidates, files, id) != multiset{}
  {
    hide StoredTables.Content, StoredTables.Holds, Compaction.Bounds, Compaction.UnionPoints, Ordered, PointsOf;
    var e := candidates[0];
    HeldIsOrdered(files[e.path], StoredTables.Content(files[e.path]));
    id := SomeSeries(StoredTables.Content(files[e.path]));
    assert candidates == [] + [e] + candidates[1..];
    UnionMiddle([], e, candidates[1..], files, id);
    var p :| p in PointsIn(e, files, id);
    assert p in Compaction.UnionPoints(candidates, files, id);
  }

  lemma HeldIsOrdered(file: seq<byte>, t: Table)
    requires StoredTables.Holds(file, t)
    ensures Ordered(t)
  {
    hide Ordered;
  }

  lemma SomeSeries(t: Table) returns (id: uint64)
    requires Ordered(t) && t != map[]
    ensures PointsOf(t, id) != multiset{}
  {
    hide Sorted;
    id :| id in t;
    assert t[id][0] in multiset(t[id]);
  }

  lemma CandidatesListed(candidates: seq<SegmentEntry>, segments: seq<SegmentEntry>)
    requires multiset(candidates) <= multiset(segments)
    ensures forall e :: e in candidates ==> e in segments
  {
    forall e | e in candidates
      ensures e in segments
    {
      assert e in multiset(candidates);
      assert e in multiset(segments);
    }
  }

  lemma CandidatePathsListed(candidates: seq<SegmentEntry>, segments: seq<SegmentEntry>)
    requires multiset(candidates) <= multiset(segments)
    ensures PathsOf(candidates) <= PathsOf(segments)
    ensures forall e :: e in candidates ==> e.path in PathsOf(segments)
  {
    CandidatesListed(candidates, segments);
  }

  lemma PathsOfMembers(entries: seq<SegmentEntry>, path: Path)
    ensures path in PathsOf(entries) <==> exists e :: e in entries && e.path == path
  {
  }

  lemma FinishCompactionKeeps(s: State, i: nat, s': State)
    requires Inv(s) && Step(s, FinishCompaction(i), s')
    ensures Inv(s')
  {
    hide LogMatches, Represents, SegmentsStored, FlushesMatch, FlushesStored, Conserved, FilesOf, NoPoints, PathsOf,
      Stored, CompactionWritten, StoredTables.WellSized, RunMatches;
    var run := s.compactions[i];
    var candidates := run.candidates;
    var path := CompactedPath(|candidates|);
    var entry := s'.compactions[i].entry;
    var file := s'.files[path];
    assert run in s.compactions && s'.compactions == [Compacted(candidates, entry)];
    assert MidEntry(s') == MidEntry(s);
    var t, list :| CompactionWritten(candidates, s.files, entry, file, t, list) && StoredTables.WellSized(list);
    OutputPath(candidates, s.files, entry, file, t, list);
    RunParts(run, s.segments, s.files, Settled(s));
    CandidatesListed(candidates, s.segments);
    SegmentsAreStored(s);
    OutputMatches(candidates, s.segments, s.files, Settled(s), entry, file, t, list);
    UnlistedKept(s.segments, s.files, path, file);
    StoredFrames(s.segments, s.files, s'.files);
    ConservedFrame(s, s'.files);
    FlushPathsKept(s, s'.files, path);
  }

  lemma OutputPath(candidates: seq<SegmentEntry>, files: map<Path, seq<byte>>, entry: SegmentEntry, file: seq<byte>,
                   t: Table, list: seq<Segment.SeriesPoints>)
    requires CompactionWritten(candidates, files, entry, file, t, list)
    ensures entry.path == CompactedPath(|candidates|)
  {
  }

  lemma RunParts(run: Run, segments: seq<SegmentEntry>, files: map<Path, seq<byte>>, listed: set<Path>)
    requires RunMatches(run, segments, files, listed)
    ensures run.candidates != [] && multiset(run.candidates) <= multiset(segments)
  {
    hide Stored, Compaction.UnionPoints, StoredTables.Content, PathsOf;
  }

  lemma FlushPathsKept(s: State, files': map<Path, seq<byte>>, path: Path)
    requires FlushesStored(s.flushes, s.files, Settled(s)) && path.CompactedPath?
    requires forall p :: p != path ==> Kept(p, s.files, files')
    ensures FlushesStored(s.flushes, files', Settled(s))
  {
    hide FlushStored, Kept, Settled;
    forall f | f in s.flushes && f.status.Written?
      ensures FlushPath(f.n) !in Settled(s)
    {
      Unlisted(f, s.files, Settled(s));
    }
    FlushesFrame(s.flushes, s.files, Settled(s), files', Settled(s));
  }

  // ----- compaction results

  lemma OutputOnDisk(run: Run, segments: seq<SegmentEntry>, files: map<Path, seq<byte>>, listed: set<Path>)
    requires RunMatches(run, segments, files, listed) && run.Compacted?
    ensures Stored(run.entry, files) && run.entry.path.CompactedPath?
    ensures run.entry.path !in listed && run.entry.path !in PathsOf(run.candidates)
    ensures forall id: uint64 :: PointsIn(run.entry, files, id) == SegmentPoints(run.candidates, files, id)
  {
    hide Compaction.UnionPoints, StoredTables.Content, Compaction.Bounds, StoredTables.Holds, PathsOf;
  }

  lemma AddCompactedKeeps(s: State, i: nat, s': State)
    requires Inv(s) && Step(s, AddCompacted(i), s')
    ensures Inv(s')
  {
    hide LogMatches, Represents, SegmentsStored, FlushesMatch, RunsMatch, FlushesStored, Conserved, FilesOf, NoPoints,
      PathsOf, Stored, PointsIn, Compaction.UnionPoints;
    var run := s.compactions[i];
    var entry := run.entry;
    assert MidEntry(s) == [] && FilesOf([], s.files) == [] by { NoFiles(s.files); }
    assert Settled(s) == PathsOf(s.segments) by { NoPaths(); }
    TheRun(s, run);
    OutputOnDisk(run, s.segments, s.files, Settled(s));
    StoredHasFile(entry, s.files);
    AddedStored(s.segments, entry, s.files);
    AddedConserves(s, entry);
    SettledAdded(s.segments, entry);
    RunsGrow(s, entry);
    assert MidEntry(s') == [entry];
    assert Settled(s') == Settled(s);
  }

  lemma TheRun(s: State, run: Run)
    requires RunsMatch(s.compactions, s.segments, s.files, Settled(s)) && run in s.compactions
    ensures RunMatches(run, s.segments, s.files, Settled(s)) && s.compactions == [run]
  {
    hide RunMatches, Settled;
  }

  lemma WithoutStored(segments: seq<SegmentEntry>, paths: set<Path>, files: map<Path, seq<byte>>)
    requires SegmentsStored(segments, files)
    ensures SegmentsStored(Without(segments, paths), files - paths)
  {
    hide Stored, DistinctPaths, Without;
    WithoutDistinct(segments, paths);
    StoredFrames(Without(segments, paths), files, files - paths);
  }

  lemma Regroup<T>(kept: multiset<T>, removed: multiset<T>, d: multiset<T>, l: multiset<T>, x: multiset<T>)
    requires kept + removed + d == l + x + removed
    ensures kept + d == l + x + multiset{}
  {
    assert kept + removed + d == (kept + d) + removed;
    forall p: T
      ensures (kept + d)[p] == (l + x)[p]
    {
      assert ((kept + d) + removed)[p] == (l + x + removed)[p];
    }
  }

  /** Removing the candidates, once their union is in the manifest, removes one of two
      copies. */
  lemma CandidatesConserve(s: State, candidates: seq<SegmentEntry>, entry: SegmentEntry)
    requires Conserved(s.segments, s.files, s.dropped, s.log, s.durable, s.extra, FilesOf([entry], s.files))
    requires SegmentsStored(s.segments, s.files) && multiset(candidates) <= multiset(s.segments)
    requires entry.path in s.files
    requires forall id: uint64 :: PointsIn(entry, s.files, id) == SegmentPoints(candidates, s.files, id)
    ensures var paths := PathsOf(candidates);
            Conserved(Without(s.segments, paths), s.files - paths, s.dropped, s.log, s.durable, s.extra, [])
  {
    hide PointsIn, FilesOf, LogPoints, Compaction.UnionPoints, FilePoints, DistinctPaths, Without, PathsOf, Stored;
    var paths := PathsOf(candidates);
    FilesOfOne(entry, s.files);
    NoFilePoints();
    forall id: uint64
      ensures SegmentPoints(Without(s.segments, paths), s.files - paths, id) + FilePoints(s.dropped, id)
           == LogPoints(s.log[..s.durable], id) + FilePoints(s.extra, id) + FilePoints([], id)
    {
      UnionRemoved(s.segments, candidates, s.files, id);
      Regroup(SegmentPoints(Without(s.segments, paths), s.files - paths, id), SegmentPoints(candidates, s.files, id),
              FilePoints(s.dropped, id), LogPoints(s.log[..s.durable], id), FilePoints(s.extra, id));
    }
  }

  /** Removing listed paths does not touch the output of a flush that is not listed yet. */
  lemma FlushesOutsideRemoved(flushes: seq<Flush>, files: map<Path, seq<byte>>, listed: set<Path>,
                              segments: seq<SegmentEntry>, paths: set<Path>)
    requires FlushesStored(flushes, files, listed) && paths <= PathsOf(segments)
    requires forall p :: p in PathsOf(segments) && p.FlushPath? ==> p in listed
    ensures FlushesStored(flushes, files - paths, PathsOf(Without(segments, paths)))
  {
    hide FlushStored, Without;
    forall f | f in flushes && f.status.Written?
      ensures FlushPath(f.n) !in PathsOf(segments)
    {
      Unlisted(f, files, listed);
    }
    FlushesFrame(flushes, files, listed, files - paths, PathsOf(Without(segments, paths)));
  }

  lemma NoRuns(segments: seq<SegmentEntry>, files: map<Path, seq<byte>>, listed: set<Path>)
    ensures RunsMatch([], segments, files, listed)
  {
  }

  lemma RemoveCandidatesKeeps(s: State, i: nat, s': State)
    requires Inv(s) && Step(s, RemoveCandidates(i), s')
    ensures Inv(s')
  {
    hide LogMatches, Represents, SegmentsStored, FlushesMatch, RunsMatch, FlushesStored, Conserved, FilesOf, NoPoints,
      PathsOf, Stored, PointsIn, Compaction.UnionPoints, Without;
    var run := s.compactions[i];
    var entry, paths := run.entry, PathsOf(run.candidates);
    assert MidEntry(s) == [entry];
    TheRun(s, run);
    OutputOnDisk(run, s.segments, s.files, Settled(s));
    RunParts(run, s.segments, s.files, Settled(s));
    StoredHasFile(entry, s.files);
    WithoutStored(s.segments, paths, s.files);
    CandidatesConserve(s, run.candidates, entry);
    assert MidEntry(s') == [] && FilesOf([], s'.files) == [] by { NoFiles(s'.files); }
    assert Settled(s') == PathsOf(s'.segments) by { NoPaths(); }
    SettledOne(s, entry);
    NoPaths();
    CandidatePathsListed(run.candidates, s.segments);
    FlushesOutsideRemoved(s.flushes, s.files, Settled(s), s.segments, paths);
    assert s'.compactions == [];
    NoRuns(s'.segments, s'.files, Settled(s'));
  }
}
