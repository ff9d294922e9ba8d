/** Where the engine's guarantees end: the same steps without the hypotheses, and the exact
    condition under which each of them still conserves the points. */
module EngineLimits {
  import opened Words
  import opened Tables
  import opened Manifest
  import opened Payload
  import opened EngineLog
  import opened EngineState
  import opened EngineSums
  import opened EngineInvariant
  import opened EngineResults
  import EngineCompaction
  import EngineRuns
  import EngineSteps
  import Segment
  import Compaction
  import StoredTables
  import Wal

  /** The manifest's books balance when no save is pending. */
  ghost predicate Balanced(s: State) {
    Conserved(s.segments, s.files, s.dropped, s.log, s.durable, s.extra, [])
  }

  // ----- flush results out of order

  /** Both saves of a flush result, in any order of results: what the manifest holds then. */
  lemma AppliedPoints(s: State, i: nat, added: State, s': State, id: uint64)
    requires Inv(s) && Next(s, AddFlushed(i), added) && Next(added, AdvanceOffset(i), s')
    ensures s.durable <= |s.log| && s'.durable == s.flushes[i].hi && s.flushes[i].lo <= s.flushes[i].hi <= |s.log|
    ensures SegmentPoints(s'.segments, s'.files, id) + FilePoints(s'.dropped, id)
         == LogPoints(s.log[..s.durable], id) + FilePoints(s'.extra, id)
         + LogPoints(s.log[s.flushes[i].lo..s.flushes[i].hi], id)
  {
    hide LogPoints, FilePoints, Compaction.UnionPoints, FilesOf, FlushesMatch, SegmentsStored, RunsMatch, LogMatches,
      FlushStored, Settled, PointsIn, Stored, Ordered;
    var f := s.flushes[i];
    assert f in s.flushes;
    FlushParts(s, f);
    FlushOnDisk(f, s.files, Settled(s));
    UnionSnoc(s.segments, f.status.entry, s.files, id);
    NoFiles(s.files);
    NoFilePoints();
    BothSides(SegmentPoints(s.segments, s.files, id), FilePoints(s.dropped, id), LogPoints(s.log[..s.durable], id),
              FilePoints(s.extra, id), PointsIn(f.status.entry, s.files, id));
  }

  lemma CancelEnds<T>(l: multiset<T>, g: multiset<T>, t: multiset<T>, x: multiset<T>)
    ensures l + x + t == l + g + t + x <==> g == multiset{}
  {
    assert l + x + t == l + t + x;
    if g == multiset{} {
      assert l + g == l;
    } else if l + x + t == l + g + t + x {
      forall p: T
        ensures g[p] == 0
      {
        assert (l + x + t)[p] == (l + g + t + x)[p];
      }
      assert false;
    }
  }

  /** The log between two record numbers, whichever comes first. */
  function Between(log: seq<WritePayload>, a: nat, b: nat): seq<WritePayload>
    requires a <= |log| && b <= |log|
  {
    if a <= b then log[a..b] else log[b..a]
  }

  lemma GapForSeries(s: State, i: nat, added: State, s': State, id: uint64)
    requires Inv(s) && Next(s, AddFlushed(i), added) && Next(added, AdvanceOffset(i), s')
    requires s.durable <= |s.log| && s.flushes[i].lo <= s'.durable <= |s.log|
    ensures SegmentPoints(s'.segments, s'.files, id) + FilePoints(s'.dropped, id)
            == LogPoints(s.log[..s'.durable], id) + FilePoints(s'.extra, id)
      <==> LogPoints(Between(s.log, s.durable, s.flushes[i].lo), id) == multiset{}
  {
    hide LogPoints, FilePoints, Compaction.UnionPoints, Inv;
    AppliedPoints(s, i, added, s', id);
    var f := s.flushes[i];
    LogPointsSplit(s.log, 0, f.lo, f.hi, id);
    assert s.log[0..f.hi] == s.log[..f.hi] && s.log[0..s.durable] == s.log[..s.durable];
    if s.durable <= f.lo {
      LogPointsSplit(s.log, 0, s.durable, f.lo, id);
      CancelEnds(LogPoints(s.log[..s.durable], id), LogPoints(s.log[s.durable..f.lo], id),
                 LogPoints(s.log[f.lo..f.hi], id), FilePoints(s'.extra, id));
    } else {
      LogPointsSplit(s.log, 0, f.lo, s.durable, id);
      CancelMiddle(LogPoints(s.log[0..f.lo], id), LogPoints(s.log[f.lo..s.durable], id),
                   LogPoints(s.log[f.lo..f.hi], id), FilePoints(s'.extra, id));
    }
  }

  lemma CancelMiddle<T>(l: multiset<T>, g: multiset<T>, t: multiset<T>, x: multiset<T>)
    ensures l + g + x + t == l + t + x <==> g == multiset{}
  {
    if g == multiset{} {
      assert l + g + x + t == l + t + x;
    } else {
      var p :| p in g;
      assert (l + g + x + t)[p] == (l + t + x)[p] + g[p];
    }
  }

  /** Applying a flush result away from where the saved offset stands balances if and only
      if the log between the two holds no points. Ahead of it, as when a flush failed before
      or a later one is applied first, the next recovery loses those points; behind it, as
      when an older result comes last and moves the offset back, it doubles them. */
  lemma GapExactly(s: State, i: nat, added: State, s': State)
    requires Inv(s) && Next(s, AddFlushed(i), added) && Next(added, AdvanceOffset(i), s')
    ensures s.durable <= |s.log| && s.flushes[i].lo <= |s.log|
    ensures Balanced(s') <==> NoPoints(Between(s.log, s.durable, s.flushes[i].lo))
  {
    hide LogPoints, FilePoints, Compaction.UnionPoints, Inv, Next, Between;
    AfterApplying(s, i, added, s');
    NoFilePoints();
    forall id: uint64
      ensures SegmentPoints(s'.segments, s'.files, id) + FilePoints(s'.dropped, id)
              == LogPoints(s.log[..s'.durable], id) + FilePoints(s'.extra, id)
        <==> LogPoints(Between(s.log, s.durable, s.flushes[i].lo), id) == multiset{}
      ensures LogPoints(s.log[..s'.durable], id) + FilePoints(s'.extra, id) + multiset{}
              == LogPoints(s.log[..s'.durable], id) + FilePoints(s'.extra, id)
    {
      GapForSeries(s, i, added, s', id);
    }
  }

  lemma AfterApplying(s: State, i: nat, added: State, s': State)
    requires Inv(s) && Next(s, AddFlushed(i), added) && Next(added, AdvanceOffset(i), s')
    ensures i < |s.flushes| && s'.log == s.log && s'.durable == s.flushes[i].hi
    ensures s.flushes[i].lo <= s'.durable <= |s.log| && s.durable <= |s.log|
  {
    AppliedPoints(s, i, added, s', 0);
  }

  // ----- flush names in use

  /** Overwriting a listed file replaces its points. */
  lemma Overwritten(segments: seq<SegmentEntry>, e: SegmentEntry, files: map<Path, seq<byte>>, file: seq<byte>,
                    id: uint64)
    requires DistinctPaths(segments) && e in segments
    ensures SegmentPoints(segments, files[e.path := file], id) + PointsIn(e, files, id)
         == SegmentPoints(segments, files, id) + PointsOf(StoredTables.Content(file), id)
  {
    hide Compaction.UnionPoints, StoredTables.Content;
    var k :| 0 <= k < |segments| && segments[k] == e;
    var files' := files[e.path := file];
    var a, b := segments[..k], segments[k + 1..];
    assert segments == a + [e] + b;
    UnionMiddle(a, e, b, files, id);
    UnionMiddle(a, e, b, files', id);
    UnionFrame(a + b, files, files', id);
    Exchange(SegmentPoints(a + b, files, id), PointsIn(e, files', id), PointsIn(e, files, id));
  }

  lemma Exchange<T>(a: multiset<T>, f: multiset<T>, g: multiset<T>)
    ensures a + f + g == a + g + f
  {
  }

  /** With no save pending the books of a reachable state balance. */
  lemma IdleBalanced(s: State)
    requires Inv(s) && s.phase.Idle?
    ensures Balanced(s)
  {
    hide LogMatches, SegmentsStored, FlushesMatch, FlushesStored, RunsMatch, PhaseMatches, Represents, Conserved,
      FilesOf;
    NoFiles(s.files);
  }

  /** The three steps of a written flush from s to s'. */
  ghost predicate FlushSteps(s: State, i: nat, finished: State, added: State, s': State) {
    && s.phase.Idle? && i < |s.flushes| && i < |finished.flushes| && finished.flushes[i].status.Written?
    && FlushPath(s.flushes[i].n) in finished.files
    && Next(s, FinishFlush(i), finished) && Next(finished, AddFlushed(i), added)
    && Next(added, AdvanceOffset(i), s')
    && FlushSized(s.flushes[i], finished.flushes[i].status.entry, finished.files[FlushPath(s.flushes[i].n)])
  }

  /** What those steps do to the manifest and the files. */
  lemma FlushEffect(s: State, i: nat, finished: State, added: State, s': State)
    returns (entry: SegmentEntry, file: seq<byte>)
    requires Inv(s) && FlushSteps(s, i, finished, added, s')
    ensures s.phase.Idle? && i < |s.flushes| && entry.path == FlushPath(s.flushes[i].n)
    ensures s'.segments == s.segments + [entry] && s'.files == s.files[entry.path := file]
    ensures s'.log == s.log && s'.dropped == s.dropped && s'.extra == s.extra && s'.durable == s.flushes[i].hi
    ensures StoredTables.Content(file) == s.flushes[i].table
  {
    hide Inv, FlushWritten, StoredTables.Content, StoredTables.WellSized, Ordered;
    var f := s.flushes[i];
    entry, file := finished.flushes[i].status.entry, finished.files[FlushPath(f.n)];
    var list :| FlushWritten(f, entry, file, list) && StoredTables.WellSized(list);
    EngineSteps.FlushTableOrdered(s, i);
    WrittenContent(f, entry, file, list);
  }

  lemma WrittenContent(f: Flush, entry: SegmentEntry, file: seq<byte>, list: seq<Segment.SeriesPoints>)
    requires FlushWritten(f, entry, file, list) && StoredTables.WellSized(list) && Ordered(f.table)
    ensures StoredTables.Content(file) == f.table && entry.path == FlushPath(f.n)
  {
    hide StoredTables.Holds, StoredTables.Content, Compaction.Bounds, StoredTables.Lists, StoredTables.WellSized,
      Ordered, Segment.SortedById, Segment.FileBytes;
    StoredTables.WrittenTableIsHeld(list, f.table, entry.blockStart, entry.blockEnd);
    StoredTables.HoldsContent(file, f.table);
  }

  /** A flush under a fresh name adds its points; one under the name of a listed segment
      replaces that segment's points and then counts its own twice. */
  lemma FlushedPoints(s: State, i: nat, finished: State, added: State, s': State, id: uint64)
    requires Inv(s) && FlushSteps(s, i, finished, added, s')
    ensures var now, was := SegmentPoints(s'.segments, s'.files, id), SegmentPoints(s.segments, s.files, id);
            var t, path := PointsOf(s.flushes[i].table, id), FlushPath(s.flushes[i].n);
            && (path !in PathsOf(s.segments) ==> now == was + t)
            && (forall e :: e in s.segments && e.path == path ==> now + PointsIn(e, s.files, id) == was + t + t)
  {
    hide Inv, FlushSteps, Compaction.UnionPoints, StoredTables.Content;
    var entry, file := FlushEffect(s, i, finished, added, s');
    var t := PointsOf(s.flushes[i].table, id);
    UnionSnoc(s.segments, entry, s'.files, id);
    SegmentPathsDistinct(s);
    forall e | e in s.segments && e.path == entry.path
      ensures SegmentPoints(s'.segments, s'.files, id) + PointsIn(e, s.files, id)
           == SegmentPoints(s.segments, s.files, id) + t + t
    {
      Overwritten(s.segments, e, s.files, file, id);
      Exchange(SegmentPoints(s.segments, s'.files, id), t, PointsIn(e, s.files, id));
    }
    if entry.path !in PathsOf(s.segments) {
      UnlistedSum(s.segments, s.files, entry.path, file, id);
    }
  }

  lemma UnlistedSum(segments: seq<SegmentEntry>, files: map<Path, seq<byte>>, path: Path, file: seq<byte>, id: uint64)
    requires path !in PathsOf(segments)
    ensures SegmentPoints(segments, files[path := file], id) == SegmentPoints(segments, files, id)
  {
    hide Compaction.UnionPoints;
    forall e | e in segments
      ensures e.path != path
    {
      assert e.path in PathsOf(segments);
    }
    UnionFrame(segments, files, files[path := file], id);
  }

  lemma SegmentPathsDistinct(s: State)
    requires Inv(s)
    ensures DistinctPaths(s.segments)
  {
    hide DistinctPaths, LogMatches, FlushesMatch, FlushesStored, RunsMatch, Conserved, PhaseMatches, Represents,
      Stored;
  }

  /** A flush in rotation order balances if and only if its name is not listed, or listed for
      a file with exactly the same points. Names restart at zero with the process, so that
      after a restart they are listed again. */
  lemma FlushNameExactly(s: State, i: nat, finished: State, added: State, s': State)
    requires Inv(s) && FlushSteps(s, i, finished, added, s') && GapFree(s, s.flushes[i].lo)
    ensures Balanced(s') <==>
            forall e, id: uint64 :: e in s.segments && e.path == FlushPath(s.flushes[i].n) ==>
              PointsIn(e, s.files, id) == PointsOf(s.flushes[i].table, id)
  {
    hide Inv, FlushSteps, Compaction.UnionPoints, PointsIn, FilePoints, LogPoints, PointsOf, NoPoints, GapFree;
    var entry, file := FlushEffect(s, i, finished, added, s');
    var path := entry.path;
    forall id: uint64
      ensures BalancedFor(s', id) <==>
              forall e :: e in s.segments && e.path == path ==>
                PointsIn(e, s.files, id) == PointsOf(s.flushes[i].table, id)
    {
      FlushForSeries(s, i, finished, added, s', id);
    }
    CoveredByFlush(s, i, 0);
    BalancedSeries(s');
  }

  /** The books of one series. */
  ghost predicate BalancedFor(s: State, id: uint64) {
    s.durable <= |s.log| &&
    SegmentPoints(s.segments, s.files, id) + FilePoints(s.dropped, id)
    == LogPoints(s.log[..s.durable], id) + FilePoints(s.extra, id)
  }

  lemma BalancedSeries(s: State)
    requires s.durable <= |s.log|
    ensures Balanced(s) <==> forall id: uint64 :: BalancedFor(s, id)
  {
    hide LogPoints, FilePoints, Compaction.UnionPoints;
    forall id: uint64
      ensures FilePoints([], id) == multiset{}
      ensures LogPoints(s.log[..s.durable], id) + FilePoints(s.extra, id) + FilePoints([], id)
           == LogPoints(s.log[..s.durable], id) + FilePoints(s.extra, id)
    {
      NoFilePoints();
    }
    if Balanced(s) {
      forall id: uint64
        ensures BalancedFor(s, id)
      {
        assert SegmentPoints(s.segments, s.files, id) + FilePoints(s.dropped, id)
            == LogPoints(s.log[..s.durable], id) + FilePoints(s.extra, id) + FilePoints([], id);
      }
    }
    if forall id: uint64 :: BalancedFor(s, id) {
      forall id: uint64
        ensures SegmentPoints(s.segments, s.files, id) + FilePoints(s.dropped, id)
             == LogPoints(s.log[..s.durable], id) + FilePoints(s.extra, id) + FilePoints([], id)
      {
        assert BalancedFor(s, id);
      }
    }
  }

  lemma CoveredByFlush(s: State, i: nat, id: uint64)
    requires Inv(s) && i < |s.flushes| && GapFree(s, s.flushes[i].lo)
    ensures s.durable <= s.flushes[i].hi <= |s.log|
    ensures LogPoints(s.log[..s.flushes[i].hi], id)
            == LogPoints(s.log[..s.durable], id) + PointsOf(s.flushes[i].table, id)
  {
    hide LogPoints, SegmentsStored, FlushesStored, RunsMatch, FlushesMatch, Conserved, PhaseMatches, LogMatches,
      Ordered, PointsOf;
    var f := s.flushes[i];
    assert f in s.flushes;
    FlushParts(s, f);
    LogPointsSplit(s.log, 0, f.lo, f.hi, id);
    LogPointsSplit(s.log, 0, s.durable, f.lo, id);
    assert s.log[0..f.hi] == s.log[..f.hi] && s.log[0..s.durable] == s.log[..s.durable];
  }

  lemma FlushForSeries(s: State, i: nat, finished: State, added: State, s': State, id: uint64)
    requires Inv(s) && FlushSteps(s, i, finished, added, s') && GapFree(s, s.flushes[i].lo)
    ensures BalancedFor(s', id) <==>
            forall e :: e in s.segments && e.path == FlushPath(s.flushes[i].n) ==>
              PointsIn(e, s.files, id) == PointsOf(s.flushes[i].table, id)
  {
    hide Inv, FlushSteps, Compaction.UnionPoints, PointsIn, FilePoints, LogPoints, PointsOf, GapFree;
    var entry, file := FlushEffect(s, i, finished, added, s');
    FlushedPoints(s, i, finished, added, s', id);
    CoveredByFlush(s, i, id);
    IdleBalanced(s);
    BalancedSeries(s);
    assert BalancedFor(s, id);
    var now, was := SegmentPoints(s'.segments, s'.files, id), SegmentPoints(s.segments, s.files, id);
    var t, d := PointsOf(s.flushes[i].table, id), FilePoints(s.dropped, id);
    var l, x := LogPoints(s.log[..s.durable], id), FilePoints(s.extra, id);
    if entry.path in PathsOf(s.segments) {
      var e :| e in s.segments && e.path == entry.path;
      SegmentPathsDistinct(s);
      forall o | o in s.segments && o.path == entry.path
        ensures o == e
      {
        SamePathSameEntry(s.segments, o, e);
      }
      Twice(now, was, PointsIn(e, s.files, id), t, d, l, x);
    } else {
      forall o | o in s.segments
        ensures o.path != entry.path
      {
        assert o.path in PathsOf(s.segments);
      }
      Once(now, was, t, d, l, x);
    }
  }

  lemma Once<T>(now: multiset<T>, was: multiset<T>, t: multiset<T>, d: multiset<T>, l: multiset<T>, x: multiset<T>)
    requires now == was + t && was + d == l + x
    ensures now + d == l + t + x
  {
    assert now + d == (was + d) + t;
  }

  lemma Twice<T>(now: multiset<T>, was: multiset<T>, old': multiset<T>, t: multiset<T>, d: multiset<T>,
                 l: multiset<T>, x: multiset<T>)
    requires now + old' == was + t + t && was + d == l + x
    ensures now + d == l + t + x <==> old' == t
  {
    forall p: T
      ensures (now + d)[p] + old'[p] == (l + t + x)[p] + t[p]
    {
      assert (now + old')[p] == (was + t + t)[p] && (was + d)[p] == (l + x)[p];
    }
    if now + d == l + t + x {
      assert forall p: T :: old'[p] == t[p];
    }
  }

  // ----- compaction names in use

  /** The three steps of a finished compaction from s to s'. */
  ghost predicate CompactionSteps(s: State, i: nat, finished: State, added: State, s': State) {
    && s.phase.Idle? && i < |s.compactions| && i < |finished.compactions| && finished.compactions[i].Compacted?
    && CompactedPath(|s.compactions[i].candidates|) in finished.files
    && Next(s, FinishCompaction(i), finished) && Next(finished, AddCompacted(i), added)
    && Next(added, RemoveCandidates(i), s')
    && CompactionSized(s.compactions[i].candidates, s.files, finished.compactions[i].entry,
                       finished.files[CompactedPath(|s.compactions[i].candidates|)])
  }

  lemma WithoutSnoc(segments: seq<SegmentEntry>, e: SegmentEntry, paths: set<Path>)
    ensures Without(segments + [e], paths) == Without(segments, paths) + if e.path in paths then [] else [e]
  {
    assert (segments + [e])[..|segments|] == segments;
  }

  /** What those steps do to the manifest and the files. */
  lemma CompactionEffect(s: State, i: nat, finished: State, added: State, s': State)
    returns (entry: SegmentEntry, file: seq<byte>)
    requires Inv(s) && CompactionSteps(s, i, finished, added, s')
    ensures s.phase.Idle? && i < |s.compactions| && entry.path == CompactedPath(|s.compactions[i].candidates|)
    ensures var candidates := s.compactions[i].candidates;
            && multiset(candidates) <= multiset(s.segments)
            && s'.segments == Without(s.segments, PathsOf(candidates))
                              + (if entry.path in PathsOf(candidates) then [] else [entry])
            && s'.files == s.files[entry.path := file] - PathsOf(candidates)
            && forall id: uint64 ::
                 PointsOf(StoredTables.Content(file), id) == SegmentPoints(candidates, s.files, id)
    ensures s'.log == s.log && s'.dropped == s.dropped && s'.extra == s.extra && s'.durable == s.durable
  {
    hide LogMatches, FlushesMatch, FlushesStored, Conserved, Represents, SegmentsStored, RunMatches, PhaseMatches,
      Without, CompactionWritten, StoredTables.Content, StoredTables.WellSized, PathsOf, Compaction.UnionPoints;
    var run := s.compactions[i];
    assert run in s.compactions;
    EngineCompaction.RunParts(run, s.segments, s.files, Settled(s));
    entry, file := finished.compactions[i].entry, finished.files[CompactedPath(|run.candidates|)];
    var t, list :| CompactionWritten(run.candidates, s.files, entry, file, t, list) && StoredTables.WellSized(list);
    CompactedContent(run.candidates, s.files, entry, file, t, list);
    WithoutSnoc(s.segments, entry, PathsOf(run.candidates));
  }

  lemma CompactedContent(candidates: seq<SegmentEntry>, files: map<Path, seq<byte>>, entry: SegmentEntry,
                         file: seq<byte>, t: Table, list: seq<Segment.SeriesPoints>)
    requires CompactionWritten(candidates, files, entry, file, t, list) && StoredTables.WellSized(list)
    ensures entry.path == CompactedPath(|candidates|)
    ensures forall id: uint64 :: PointsOf(StoredTables.Content(file), id) == SegmentPoints(candidates, files, id)
  {
    hide StoredTables.Holds, StoredTables.Content, Compaction.Bounds, StoredTables.Lists, StoredTables.WellSized,
      Ordered, Segment.SortedById, Segment.FileBytes, Compaction.UnionPoints;
    StoredTables.WrittenTableIsHeld(list, t, entry.blockStart, entry.blockEnd);
    StoredTables.HoldsContent(file, t);
  }

  /** A compaction under a fresh name changes no sum. One under the name of a candidate
      removes all candidates' points; one under the name of another listed segment replaces
      that segment's points and counts the candidates' twice. */
  lemma CompactedPoints(s: State, i: nat, finished: State, added: State, s': State, id: uint64)
    requires Inv(s) && CompactionSteps(s, i, finished, added, s')
    ensures var candidates := s.compactions[i].candidates;
            var path := CompactedPath(|candidates|);
            var now, was := SegmentPoints(s'.segments, s'.files, id), SegmentPoints(s.segments, s.files, id);
            var union := SegmentPoints(candidates, s.files, id);
            && (path !in PathsOf(s.segments) ==> now == was)
            && (path in PathsOf(candidates) ==> now + union == was)
            && (forall e :: e in s.segments && e.path == path && path !in PathsOf(candidates) ==>
                  now + PointsIn(e, s.files, id) == was + union)
  {
    hide Inv, CompactionSteps, Compaction.UnionPoints, StoredTables.Content, PathsOf, Without, DistinctPaths;
    var entry, file := CompactionEffect(s, i, finished, added, s');
    var candidates := s.compactions[i].candidates;
    var paths := PathsOf(candidates);
    var kept := Without(s.segments, paths);
    var union := SegmentPoints(candidates, s.files, id);
    SegmentPathsDistinct(s);
    UnionRemoved(s.segments, candidates, s.files, id);
    if entry.path in paths {
      assert s'.files == s.files - paths && s'.segments == kept;
    } else {
      UnionSnoc(kept, entry, s'.files, id);
      assert s'.files == (s.files - paths)[entry.path := file];
      assert PointsIn(entry, s'.files, id) == union;
      KeptPaths(s.segments, paths, entry.path);
      if entry.path !in PathsOf(s.segments) {
        UnlistedSum(kept, s.files - paths, entry.path, file, id);
      }
      forall e | e in s.segments && e.path == entry.path
        ensures SegmentPoints(s'.segments, s'.files, id) + PointsIn(e, s.files, id)
             == SegmentPoints(s.segments, s.files, id) + union
      {
        WithoutDistinct(s.segments, paths);
        Overwritten(kept, e, s.files - paths, file, id);
        Exchange(SegmentPoints(kept, s'.files, id), union, PointsIn(e, s.files, id));
      }
    }
    CandidatePathListed(s.segments, candidates, entry.path);
  }

  lemma KeptPaths(segments: seq<SegmentEntry>, paths: set<Path>, path: Path)
    ensures path !in PathsOf(segments) ==> path !in PathsOf(Without(segments, paths))
  {
    hide Without;
    EngineCompaction.PathsOfMembers(segments, path);
    EngineCompaction.PathsOfMembers(Without(segments, paths), path);
  }

  lemma CandidatePathListed(segments: seq<SegmentEntry>, candidates: seq<SegmentEntry>, path: Path)
    requires multiset(candidates) <= multiset(segments)
    ensures path in PathsOf(candidates) ==> path in PathsOf(segments)
  {
    hide PathsOf;
    EngineCompaction.CandidatePathsListed(candidates, segments);
  }

  /** The fate of a compaction's output path, given by the number of its candidates: not
      listed, a candidate's, or another segment's. The result balances if and only if the
      path is not listed, or is a candidate's and the candidates hold no points, or is
      another segment's that holds exactly the candidates' points. */
  lemma CompactionNameExactly(s: State, i: nat, finished: State, added: State, s': State)
    requires Inv(s) && CompactionSteps(s, i, finished, added, s')
    ensures var candidates := s.compactions[i].candidates;
            var path := CompactedPath(|candidates|);
            Balanced(s') <==>
              if path in PathsOf(candidates) then
                forall id: uint64 :: SegmentPoints(candidates, s.files, id) == multiset{}
              else forall e, id: uint64 :: e in s.segments && e.path == path ==>
                     PointsIn(e, s.files, id) == SegmentPoints(candidates, s.files, id)
  {
    hide Inv, CompactionSteps, Compaction.UnionPoints, PointsIn, FilePoints, LogPoints, PathsOf;
    var entry, file := CompactionEffect(s, i, finished, added, s');
    var candidates := s.compactions[i].candidates;
    EngineRuns.LogBasics(s);
    forall id: uint64
      ensures BalancedFor(s', id) <==>
              if entry.path in PathsOf(candidates) then SegmentPoints(candidates, s.files, id) == multiset{}
              else forall e :: e in s.segments && e.path == entry.path ==>
                     PointsIn(e, s.files, id) == SegmentPoints(candidates, s.files, id)
    {
      CompactionForSeries(s, i, finished, added, s', id);
    }
    BalancedSeries(s');
  }

  lemma CompactionForSeries(s: State, i: nat, finished: State, added: State, s': State, id: uint64)
    requires Inv(s) && CompactionSteps(s, i, finished, added, s')
    ensures var candidates := s.compactions[i].candidates;
            var path := CompactedPath(|candidates|);
            BalancedFor(s', id) <==>
              if path in PathsOf(candidates) then SegmentPoints(candidates, s.files, id) == multiset{}
              else forall e :: e in s.segments && e.path == path ==>
                     PointsIn(e, s.files, id) == SegmentPoints(candidates, s.files, id)
  {
    hide Inv, CompactionSteps, Compaction.UnionPoints, PointsIn, FilePoints, LogPoints, DistinctPaths;
    var entry, file := CompactionEffect(s, i, finished, added, s');
    var candidates := s.compactions[i].candidates;
    CompactedPoints(s, i, finished, added, s', id);
    IdleBalanced(s);
    BalancedSeries(s);
    assert BalancedFor(s, id);
    var now, was := SegmentPoints(s'.segments, s'.files, id), SegmentPoints(s.segments, s.files, id);
    var union, d := SegmentPoints(candidates, s.files, id), FilePoints(s.dropped, id);
    var rest := LogPoints(s.log[..s.durable], id) + FilePoints(s.extra, id);
    if entry.path in PathsOf(candidates) {
      Lost(now, was, union, d, rest);
    } else if entry.path in PathsOf(s.segments) {
      var e :| e in s.segments && e.path == entry.path;
      SegmentPathsDistinct(s);
      forall o | o in s.segments && o.path == entry.path
        ensures o == e
      {
        SamePathSameEntry(s.segments, o, e);
      }
      Replaced(now, was, PointsIn(e, s.files, id), union, d, rest);
    } else {
      forall o | o in s.segments
        ensures o.path != entry.path
      {
        assert o.path in PathsOf(s.segments);
      }
    }
  }

  lemma Lost<T>(now: multiset<T>, was: multiset<T>, union: multiset<T>, d: multiset<T>, rest: multiset<T>)
    requires now + union == was && was + d == rest
    ensures now + d == rest <==> union == multiset{}
  {
    if union == multiset{} {
      assert now + union == now;
    } else {
      var p :| p in union;
      assert (now + union + d)[p] == (now + d)[p] + union[p];
    }
  }

  lemma Replaced<T>(now: multiset<T>, was: multiset<T>, old': multiset<T>, union: multiset<T>, d: multiset<T>,
                    rest: multiset<T>)
    requires now + old' == was + union && was + d == rest
    ensures now + d == rest <==> old' == union
  {
    forall p: T
      ensures (now + d)[p] + old'[p] == rest[p] + union[p]
    {
      assert (now + old')[p] == (was + union)[p] && (was + d)[p] == rest[p];
    }
    if now + d == rest {
      assert forall p: T :: old'[p] == union[p];
    }
  }

  // ----- an offset past the synced log

  /** A crash that cuts the log below the saved offset leaves that offset past the start of
      the writes appended afterwards, which no segment holds. A further recovery returns all
      of them, synced or not, if and only if there are none. It returns the later ones if one
      happens to start at the offset, and nothing if and only if no record parses there; none
      does before the log has grown a header past the offset. */
  lemma UnsyncedOffsetLosesWrites(s: State, k: nat, later: seq<WritePayload>, id: uint64)
    requires Inv(s) && s.phase.Idle? && k < s.durable <= |s.log| && AllLoggable(later)
    ensures SegmentPoints(s.segments, s.files, id) + FilePoints(s.dropped, id)
         == LogPoints(s.log[..s.durable], id) + FilePoints(s.extra, id)
    ensures var log := s.log[..k] + later;
            var read := Recovered(LogFile(log), s.walOffset);
            && (read == Ok(later) <==> later == [])
            && (forall j :: k <= j <= |log| && OffsetOf(log, j) == s.walOffset ==> j > k && read == Ok(log[j..]))
            && (read == Ok([]) <==> Wal.Parse(LogFile(log), s.walOffset) == None)
            && (|LogFile(log)| < s.walOffset + Wal.RECORD_HEADER_SIZE ==> read == Ok([]))
  {
    hide LogFile, FilePoints, LogPoints, Compaction.UnionPoints, Inv, Wal.Parse, Recovered, OffsetOf, AllLoggable;
    IdleBalanced(s);
    BalancedSeries(s);
    assert BalancedFor(s, id);
    OffsetPastKept(s, k);
    var log := s.log[..k] + later;
    RecoveredPast(s.log[..k], later, s.walOffset);
    NothingRecovered(LogFile(log), s.walOffset);
    if |LogFile(log)| < s.walOffset + Wal.RECORD_HEADER_SIZE {
      Wal.NoRoom(LogFile(log), s.walOffset);
    }
    forall j | k <= j <= |log| && OffsetOf(log, j) == s.walOffset
      ensures j > k && Recovered(LogFile(log), s.walOffset) == Ok(log[j..])
    {
      AppendedLoggable(s, k, later);
      RecoveredInFull(log, j);
      KeptOffset(s.log[..k], later);
    }
  }

  lemma OffsetPastKept(s: State, k: nat)
    requires Inv(s) && k < s.durable <= |s.log|
    ensures |LogFile(s.log[..k])| < s.walOffset
  {
    hide Inv, Encode, AllLoggable, Wal.LogBytes;
    EngineRuns.LogBasics(s);
    Wal.OffsetMonotone(Records(s.log), k, s.durable);
    assert Records(s.log)[..k] == Records(s.log[..k]);
  }

  lemma KeptOffset(kept: seq<WritePayload>, later: seq<WritePayload>)
    ensures OffsetOf(kept + later, |kept|) == |LogFile(kept)|
  {
    hide Encode, Wal.LogBytes;
    assert Records(kept + later)[..|kept|] == Records(kept);
  }

  lemma AppendedLoggable(s: State, k: nat, later: seq<WritePayload>)
    requires Inv(s) && k <= |s.log| && AllLoggable(later)
    ensures AllLoggable(s.log[..k] + later)
  {
    hide Inv, Encode, Wal.Loggable;
    EngineRuns.LogBasics(s);
  }
}
