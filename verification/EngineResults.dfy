/** Applying results keeps the engine's invariant: flushes, compactions, retention, and a
    crash with recovery. */
module EngineResults {
  import opened Words
  import opened Tables
  import opened Manifest
  import opened Payload
  import opened EngineLog
  import opened EngineState
  import opened EngineSums
  import opened EngineInvariant
  import opened EngineSteps
  import Compaction
  import StoredTables

  // ----- flush results

  lemma {:induction false} RemovedElements<T>(s: seq<T>, i: nat)
    requires i < |s|
    ensures |RemoveAt(s, i)| == |s| - 1
    ensures forall j :: 0 <= j < |s| - 1 ==> RemoveAt(s, i)[j] == s[if j < i then j else j + 1]
    ensures forall x :: x in RemoveAt(s, i) ==> x in s
  {
  }

  lemma FlushesShrink(flushes: seq<Flush>, i: nat, log: seq<WritePayload>, start: nat, flushCount: nat)
    requires FlushesMatch(flushes, log, start, flushCount) && i < |flushes|
    ensures FlushesMatch(RemoveAt(flushes, i), log, start, flushCount)
    ensures forall f :: f in RemoveAt(flushes, i) ==> f in flushes && f.n != flushes[i].n
  {
    hide FlushMatches;
    RemovedElements(flushes, i);
  }

  lemma DiscardFlushKeeps(s: State, i: nat, s': State)
    requires Inv(s) && Step(s, DiscardFlush(i), s')
    ensures Inv(s')
  {
    hide LogMatches, Represents, SegmentsStored, FlushesMatch, RunsMatch, FlushStored, Conserved, FilesOf, NoPoints,
      PathsOf, RemoveAt;
    FlushesShrink(s.flushes, i, s.log, s.start, s.flushCount);
  }

  /** Adding an entry under a new path leaves the settled paths alone. */
  lemma SettledAdded(segments: seq<SegmentEntry>, entry: SegmentEntry)
    requires entry.path !in PathsOf(segments)
    ensures PathsOf(segments + [entry]) == PathsOf(segments) + {entry.path}
    ensures PathsOf(segments + [entry]) - PathsOf([entry]) == PathsOf(segments)
    ensures DistinctPaths(segments) ==> DistinctPaths(segments + [entry])
  {
    var longer := segments + [entry];
    forall i | 0 <= i < |longer|
      ensures longer[i].path in PathsOf(longer)
    {
      assert longer[i] in longer;
    }
    forall i | 0 <= i < |segments|
      ensures segments[i].path in PathsOf(segments)
    {
      assert segments[i] in segments;
    }
    assert entry in longer && entry in [entry];
    assert PathsOf([entry]) == {entry.path};
    forall p | p in PathsOf(longer)
      ensures p in PathsOf(segments) + {entry.path}
    {
      var e :| e in longer && e.path == p;
    }
  }

  lemma AddedStored(segments: seq<SegmentEntry>, entry: SegmentEntry, files: map<Path, seq<byte>>)
    requires SegmentsStored(segments, files) && entry.path !in PathsOf(segments) && Stored(entry, files)
    ensures SegmentsStored(segments + [entry], files)
  {
    hide Stored, DistinctPaths;
    SettledAdded(segments, entry);
  }

  lemma FilesOfOne(entry: SegmentEntry, files: map<Path, seq<byte>>)
    requires entry.path in files
    ensures FilesOf([entry], files) == [files[entry.path]]
    ensures forall id: uint64 :: FilePoints(FilesOf([entry], files), id) == PointsIn(entry, files, id)
  {
    assert [entry][..0] == [];
    assert [] + [files[entry.path]] == [files[entry.path]];
    forall id: uint64
      ensures FilePoints([files[entry.path]], id) == PointsIn(entry, files, id)
    {
      hide StoredTables.Content;
      FilePointsOfOne(files[entry.path], id);
    }
  }

  /** The first of two saves: the manifest holds the added file's points twice. */
  lemma AddedConserves(s: State, entry: SegmentEntry)
    requires Conserved(s.segments, s.files, s.dropped, s.log, s.durable, s.extra, [])
    requires entry.path in s.files
    ensures Conserved(s.segments + [entry], s.files, s.dropped, s.log, s.durable, s.extra, FilesOf([entry], s.files))
  {
    hide PointsIn, FilesOf, LogPoints, Compaction.UnionPoints, FilePoints;
    FilesOfOne(entry, s.files);
    NoFilePoints();
    forall id: uint64
      ensures SegmentPoints(s.segments + [entry], s.files, id) + FilePoints(s.dropped, id)
           == LogPoints(s.log[..s.durable], id) + FilePoints(s.extra, id) + FilePoints(FilesOf([entry], s.files), id)
    {
      UnionSnoc(s.segments, entry, s.files, id);
      BothSides(SegmentPoints(s.segments, s.files, id), FilePoints(s.dropped, id),
                LogPoints(s.log[..s.durable], id), FilePoints(s.extra, id), PointsIn(entry, s.files, id));
    }
  }

  lemma BothSides<T>(a: multiset<T>, d: multiset<T>, l: multiset<T>, x: multiset<T>, p: multiset<T>)
    requires a + d == l + x + multiset{}
    ensures a + p + d == l + x + p
  {
    assert l + x + multiset{} == l + x;
    assert a + p + d == (a + d) + p;
  }

  lemma NoFilePoints()
    ensures forall id: uint64 :: FilePoints([], id) == multiset{}
  {
  }

  /** What a finished flush has on disk. */
  lemma FlushOnDisk(f: Flush, files: map<Path, seq<byte>>, listed: set<Path>)
    requires FlushStored(f, files, listed) && f.status.Written?
    ensures var e := f.status.entry;
            Stored(e, files) && e.path == FlushPath(f.n) && e.path !in listed &&
            forall id: uint64 :: PointsIn(e, files, id) == PointsOf(f.table, id)
  {
    hide Compaction.Bounds;
    StoredTables.HoldsContent(files[f.status.entry.path], f.table);
  }

  lemma RunsGrow(s: State, entry: SegmentEntry)
    requires RunsMatch(s.compactions, s.segments, s.files, Settled(s)) && SegmentsStored(s.segments, s.files)
    ensures RunsMatch(s.compactions, s.segments + [entry], s.files, Settled(s))
  {
    hide SegmentsStored, Stored, Compaction.UnionPoints, StoredTables.Content, PathsOf;
    assert multiset(s.segments + [entry]) == multiset(s.segments) + multiset{entry};
    RunsFrame(s.compactions, s.segments, s.files, Settled(s), s.segments + [entry], s.files, Settled(s));
  }

  lemma AddFlushedKeeps(s: State, i: nat, s': State)
    requires Inv(s) && Step(s, AddFlushed(i), s')
    ensures Inv(s')
  {
    hide LogMatches, Represents, SegmentsStored, FlushesMatch, RunsMatch, FlushStored, Conserved, FilesOf, NoPoints,
      PathsOf, Stored, PointsIn;
    var f := s.flushes[i];
    var entry := f.status.entry;
    assert MidEntry(s) == [] && FilesOf([], s.files) == [] by { NoFiles(s.files); }
    assert Settled(s) == PathsOf(s.segments) by { NoPaths(); }
    assert f in s.flushes;
    FlushOnDisk(f, s.files, Settled(s));
    StoredHasFile(entry, s.files);
    AddedStored(s.segments, entry, s.files);
    AddedConserves(s, entry);
    SettledAdded(s.segments, entry);
    RunsGrow(s, entry);
    assert MidEntry(s') == [entry];
    assert Settled(s') == Settled(s);
  }

  lemma NoFiles(files: map<Path, seq<byte>>)
    ensures FilesOf([], files) == []
  {
  }

  lemma NoPaths()
    ensures PathsOf([]) == {}
  {
  }

  /** The second save of a flush accounts for the added file. */
  lemma AdvancedConserves(s: State, f: Flush, entry: SegmentEntry)
    requires Conserved(s.segments, s.files, s.dropped, s.log, s.durable, s.extra, FilesOf([entry], s.files))
    requires entry.path in s.files && (forall id: uint64 :: PointsIn(entry, s.files, id) == PointsOf(f.table, id))
    requires Represents(f.table, s.log, f.lo, f.hi) && GapFree(s, f.lo)
    ensures Conserved(s.segments, s.files, s.dropped, s.log, f.hi, s.extra, [])
  {
    hide PointsIn, FilesOf, Compaction.UnionPoints, Ordered, PointsOf, FilePoints, LogPoints;
    FilesOfOne(entry, s.files);
    NoFilePoints();
    forall id: uint64
      ensures LogPoints(s.log[..f.hi], id) == LogPoints(s.log[..s.durable], id) + PointsOf(f.table, id)
    {
      LogPointsSplit(s.log, 0, f.lo, f.hi, id);
      LogPointsSplit(s.log, 0, s.durable, f.lo, id);
      assert s.log[0..f.hi] == s.log[..f.hi] && s.log[0..s.durable] == s.log[..s.durable];
    }
  }

  lemma AdvanceOffsetKeeps(s: State, i: nat, s': State)
    requires Inv(s) && Step(s, AdvanceOffset(i), s')
    ensures Inv(s')
  {
    hide Represents, SegmentsStored, FlushesMatch, RunsMatch, FlushStored, Conserved, FilesOf, PathsOf, Stored,
      RemoveAt, AllLoggable, OffsetOf, GapFree, PointsIn;
    var f := s.flushes[i];
    var entry := f.status.entry;
    assert MidEntry(s) == [entry];
    assert f in s.flushes;
    FlushParts(s, f);
    FlushOnDisk(f, s.files, Settled(s));
    StoredHasFile(entry, s.files);
    AdvancedConserves(s, f, entry);
    FlushesShrink(s.flushes, i, s.log, s.start, s.flushCount);
    assert MidEntry(s') == [] && FilesOf([], s.files) == [] by { NoFiles(s.files); }
    SettledOne(s, entry);
    forall g | g in s'.flushes && g.status.Written?
      ensures FlushPath(g.n) !in Settled(s')
    {
      Unlisted(g, s.files, Settled(s));
    }
    FlushesFrame(s'.flushes, s.files, Settled(s), s.files, Settled(s'));
    RunsSettle(s, entry.path, Settled(s'));
  }

  lemma FlushParts(s: State, f: Flush)
    requires FlushesMatch(s.flushes, s.log, s.start, s.flushCount) && f in s.flushes
    ensures Represents(f.table, s.log, f.lo, f.hi) && f.walOff == OffsetOf(s.log, f.hi) && f.hi <= s.start
    ensures f.status.NothingToWrite? ==> f.table == map[]
  {
    hide Represents, OffsetOf;
  }

  /** The listed paths are the settled ones and the one still to be accounted for. */
  lemma SettledOne(s: State, entry: SegmentEntry)
    requires MidEntry(s) == [entry]
    ensures forall p :: p in PathsOf(s.segments) - PathsOf([]) && p != entry.path ==> p in Settled(s)
  {
    assert PathsOf([entry]) == {entry.path};
  }

  lemma RunsSettle(s: State, path: Path, listed': set<Path>)
    requires RunsMatch(s.compactions, s.segments, s.files, Settled(s)) && SegmentsStored(s.segments, s.files)
    requires path.FlushPath? && (forall p :: p in listed' && p != path ==> p in Settled(s))
    ensures RunsMatch(s.compactions, s.segments, s.files, listed')
  {
    hide SegmentsStored, Stored, Compaction.UnionPoints, StoredTables.Content, Settled, PathsOf;
    RunsFrame(s.compactions, s.segments, s.files, Settled(s), s.segments, s.files, listed');
  }
}
