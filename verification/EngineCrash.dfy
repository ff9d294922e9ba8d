/** Crash safety over whole runs: what the manifest and a replay of the log hold after a
    cut at any byte, what retention may remove, and what a replay rebuilds. */
module EngineCrash {
  import opened Words
  import opened Points
  import opened Tables
  import opened Manifest
  import opened EngineLog
  import opened EngineState
  import opened EngineSums
  import opened EngineInvariant
  import opened EngineResults
  import EngineCompaction
  import EngineRuns
  import Retention
  import Compaction
  import StoredTables
  import Wal

  // ----- crash safety

  /** The number of log records that survive a cut at byte c, in the log or in segments. */
  function Surviving(s: State, c: nat): nat {
    var k := Wal.Whole(Records(s.log), c);
    if s.durable <= k then k else s.durable
  }

  /** The manifest as saved, the files, and the log up to byte c: together they hold every
      record up to Surviving(s, c), and twice what lies between two saves. */
  ghost predicate SafeAt(s: State, c: nat) {
    c <= |LogFile(s.log)| &&
    var r := Recovered(LogFile(s.log)[..c], s.walOffset);
    r.Ok? && Surviving(s, c) <= |s.log| &&
    forall id: uint64 ::
      SegmentPoints(s.segments, s.files, id) + FilePoints(s.dropped, id) + LogPoints(r.value, id)
      == LogPoints(s.log[..Surviving(s, c)], id) + FilePoints(s.extra, id)
      + FilePoints(FilesOf(MidEntry(s), s.files), id)
  }

  lemma AddTail<T>(a: multiset<T>, l: multiset<T>, x: multiset<T>, m: multiset<T>, tail: multiset<T>)
    requires a == l + x + m
    ensures a + tail == l + tail + x + m
  {
    assert l + x + m + tail == l + tail + x + m;
  }

  lemma InvIsSafe(s: State, c: nat)
    requires Inv(s) && c <= |LogFile(s.log)|
    ensures SafeAt(s, c)
  {
    hide Represents, SegmentsStored, FlushesStored, RunsMatch, FlushesMatch, PhaseMatches, LogMatches, AllLoggable,
      OffsetOf, Wal.Whole, LogFile, Recovered, LogPoints, FilePoints, FilesOf, Compaction.UnionPoints, MidEntry;
    EngineRuns.LogBasics(s);
    RecoveredExactly(s.log, s.durable, c);
    var k := Surviving(s, c);
    var tail := Recovered(LogFile(s.log)[..c], s.walOffset).value;
    assert tail == s.log[s.durable..k] by { assert s.log[s.durable..s.durable] == []; }
    forall id: uint64
      ensures SegmentPoints(s.segments, s.files, id) + FilePoints(s.dropped, id) + LogPoints(tail, id)
           == LogPoints(s.log[..k], id) + FilePoints(s.extra, id) + FilePoints(FilesOf(MidEntry(s), s.files), id)
    {
      LogPointsSplit(s.log, 0, s.durable, k, id);
      assert s.log[0..k] == s.log[..k] && s.log[0..s.durable] == s.log[..s.durable];
      AddTail(SegmentPoints(s.segments, s.files, id) + FilePoints(s.dropped, id),
              LogPoints(s.log[..s.durable], id), FilePoints(s.extra, id),
              FilePoints(FilesOf(MidEntry(s), s.files), id), LogPoints(tail, id));
    }
  }

  /** How many bytes of the log are known to be fsynced. */
  function SyncedBytes(s: State): nat {
    if s.synced <= |s.log| then OffsetOf(s.log, s.synced) else 0
  }

  /** Crash safety: in every state of every run, whatever part of the log behind its synced
      bytes a crash cuts off, no synced write is among the lost ones, and what recovery finds
      is every surviving write not removed by retention, once, plus the surplus of a crash
      between two saves. */
  lemma CrashSafety(states: seq<State>, events: seq<Event>, i: nat, c: nat)
    requires IsRun(states, events) && i < |states|
    requires SyncedBytes(states[i]) <= c <= |LogFile(states[i].log)|
    ensures SafeAt(states[i], c) && states[i].synced <= Surviving(states[i], c) <= |states[i].log|
  {
    hide Inv, SafeAt, IsRun, OffsetOf, LogFile, Wal.Whole;
    var s := states[i];
    EngineRuns.RunKeeps(states, events, i);
    EngineRuns.LogBasics(s);
    InvIsSafe(s, c);
    SyncedSurvive(s, c);
  }

  lemma SyncedSurvive(s: State, c: nat)
    requires s.synced <= |s.log| && s.durable <= |s.log| && OffsetOf(s.log, s.synced) <= c
    ensures s.synced <= Surviving(s, c) <= |s.log|
  {
    hide Wal.LogBytes, Wal.Whole;
    Wal.WholeAtLeast(Records(s.log), c, s.synced);
  }

  /** What the manifest counts twice between two saves. */
  ghost predicate OneCopy(s: State, id: uint64) {
    var surplus := FilePoints(FilesOf(MidEntry(s), s.files), id);
    match s.phase
    case Idle => surplus == multiset{}
    case FlushAdded(j) => j < |s.flushes| && s.flushes[j].lo <= s.flushes[j].hi <= |s.log| &&
      surplus == PointsOf(s.flushes[j].table, id) == LogPoints(s.log[s.flushes[j].lo..s.flushes[j].hi], id)
    case CompactionAdded(j) => j < |s.compactions| && surplus == SegmentPoints(s.compactions[j].candidates, s.files, id)
  }

  /** The surplus between two saves is exactly the points of the log records that the flush
      took from the log, or exactly those of the compaction's candidates; otherwise there is
      none. */
  lemma SurplusExactly(states: seq<State>, events: seq<Event>, i: nat, id: uint64)
    requires IsRun(states, events) && i < |states|
    ensures OneCopy(states[i], id)
  {
    hide Step, Init, IsRun, FilesOf, FilePoints, Compaction.UnionPoints, StoredTables.Content, LogPoints, Conserved,
      LogMatches, Stored, PointsIn, FlushesMatch, FlushStored, RunsMatch, RunMatches, SegmentsStored, Ordered,
      PathsOf, PointsOf, NoPoints, Settled;
    EngineRuns.RunKeeps(states, events, i);
    var s := states[i];
    match s.phase
    case Idle =>
      NoFiles(s.files);
      NoFilePoints();
    case FlushAdded(j) =>
      var f := s.flushes[j];
      assert f in s.flushes;
      FlushParts(s, f);
      FlushOnDisk(f, s.files, Settled(s));
      StoredHasFile(f.status.entry, s.files);
      FilesOfOne(f.status.entry, s.files);
    case CompactionAdded(j) =>
      var run := s.compactions[j];
      EngineCompaction.TheRun(s, run);
      EngineCompaction.OutputOnDisk(run, s.segments, s.files, Settled(s));
      StoredHasFile(run.entry, s.files);
      FilesOfOne(run.entry, s.files);
  }

  // ----- replay equivalence

  lemma DropOne(b: seq<Point>, k: nat)
    requires k < |b|
    ensures multiset(RemoveAt(b, k)) == multiset(b) - multiset{b[k]}
  {
    assert b == b[..k] + [b[k]] + b[k + 1..];
  }

  lemma DropSorted(b: seq<Point>, k: nat)
    requires Sorted(b) && k < |b|
    ensures Sorted(RemoveAt(b, k))
  {
    RemovedElements(b, k);
  }

  lemma DropShifts(b: seq<Point>, k: nat, i: nat)
    requires Sorted(b) && k < |b| && b[k].ts == b[0].ts && 0 < i < |b|
    ensures |RemoveAt(b, k)| == |b| - 1 && RemoveAt(b, k)[i - 1].ts == b[i].ts
  {
    if i <= k {
      assert b[0].ts <= b[i - 1].ts <= b[i].ts && (i < k ==> b[i].ts <= b[k].ts);
    }
  }

  lemma DropEqual(b: seq<Point>, k: nat)
    requires Sorted(b) && k < |b| && b[k].ts == b[0].ts
    ensures Timestamps(b) == [b[0].ts] + Timestamps(RemoveAt(b, k))
  {
    hide RemoveAt, Sorted;
    var all, others := Timestamps(b), [b[0].ts] + Timestamps(RemoveAt(b, k));
    OneLess(b, k);
    forall i | 0 <= i < |b|
      ensures all[i] == others[i]
    {
      if i > 0 {
        DropShifts(b, k, i);
      }
    }
  }

  lemma OneLess(b: seq<Point>, k: nat)
    requires k < |b|
    ensures |RemoveAt(b, k)| == |b| - 1
  {
  }

  lemma EarliestIn(a: seq<Point>, b: seq<Point>) returns (k: nat)
    requires Sorted(a) && Sorted(b) && multiset(a) == multiset(b) && a != []
    ensures k < |b| && b[k] == a[0] && b[0].ts == a[0].ts
  {
    assert a[0] in multiset(b);
    k :| 0 <= k < |b| && b[k] == a[0];
    assert b[0] in multiset(a);
    var j :| 0 <= j < |a| && a[j] == b[0];
  }

  /** Sorting fixes the timestamps, whatever it does with ties. */
  lemma {:induction false} SortedTimestampsUnique(a: seq<Point>, b: seq<Point>)
    requires Sorted(a) && Sorted(b) && multiset(a) == multiset(b)
    ensures Timestamps(a) == Timestamps(b)
    decreases |a|
  {
    hide Sorted, Timestamps, RemoveAt;
    if a == [] {
      assert |b| == |multiset(b)| == 0;
    } else {
      var k := EarliestIn(a, b);
      DropEqual(b, k);
      DropEqual(a, 0);
      DropOne(b, k);
      DropOne(a, 0);
      DropSorted(b, k);
      DropSorted(a, 0);
      RemovedElements(a, 0);
      SortedTimestampsUnique(RemoveAt(a, 0), RemoveAt(b, k));
    }
  }

  lemma OccupiedHasPoints(t: Table, id: uint64)
    requires Ordered(t)
    ensures id in t <==> PointsOf(t, id) != multiset{}
  {
    if id in t {
      assert t[id][0] in PointsOf(t, id);
    }
  }

  /** Replay equivalence: in every state of every run, a table that Recover would build from
      the log records since the last rotation has the active memtable's series, with the
      same points and the same order of timestamps. */
  lemma ReplayEquivalence(states: seq<State>, events: seq<Event>, i: nat, t: Table, id: uint64)
    requires IsRun(states, events) && i < |states| && Ordered(t)
    requires var s := states[i];
             s.start <= |s.log| &&
             var r := Recovered(LogFile(s.log), OffsetOf(s.log, s.start));
             r.Ok? ==> forall id: uint64 :: PointsOf(t, id) == LogPoints(r.value, id)
    ensures var s := states[i];
            Recovered(LogFile(s.log), OffsetOf(s.log, s.start)).Ok? &&
            (id in t <==> id in s.active) && PointsOf(t, id) == PointsOf(s.active, id) &&
            (id in t ==> Timestamps(t[id]) == Timestamps(s.active[id]))
  {
    hide Step, Init, IsRun, SegmentsStored, FlushesStored, RunsMatch, FlushesMatch, Conserved, PhaseMatches,
      AllLoggable, OffsetOf, Wal.Whole, LogFile, Recovered, LogPoints, LogMatches, Sorted;
    EngineRuns.RunKeeps(states, events, i);
    var s := states[i];
    EngineRuns.LogBasics(s);
    RecoveredInFull(s.log, s.start);
    assert s.log[s.start..] == s.log[s.start..|s.log|];
    OccupiedHasPoints(t, id);
    OccupiedHasPoints(s.active, id);
    if id in t {
      SortedTimestampsUnique(t[id], s.active[id]);
    }
  }

  // ----- retention

  lemma OutsideBounds(t: Table, low: int, high: int, id: uint64, p: Point)
    requires Compaction.Bounds(t, low, high) && p.ts > high
    ensures p !in PointsOf(t, id)
  {
    assert id in t ==> p !in t[id];
  }

  lemma {:induction false} SweptAreOld(removed: seq<SegmentEntry>, files: map<Path, seq<byte>>, cutoff: int,
                                       id: uint64, p: Point)
    requires forall e :: e in removed ==> Stored(e, files) && e.blockEnd < cutoff
    requires p.ts >= cutoff
    ensures p !in Compaction.UnionPoints(removed, files, id)
  {
    hide StoredTables.Content, StoredTables.Holds;
    if removed != [] {
      var n := |removed| - 1;
      SweptAreOld(removed[..n], files, cutoff, id, p);
      assert removed[n] in removed;
      OutsideBounds(StoredTables.Content(files[removed[n].path]), removed[n].blockStart, removed[n].blockEnd, id, p);
    }
  }

  /** Block bounds hold in every state, so a sweep removes no point at or after its cutoff. */
  lemma RetentionSpares(states: seq<State>, events: seq<Event>, i: nat, id: uint64, p: Point)
    requires IsRun(states, events) && i < |events| && events[i].Retain? && p.ts >= events[i].cutoff
    ensures SegmentPoints(states[i + 1].segments, states[i + 1].files, id)[p]
            == SegmentPoints(states[i].segments, states[i].files, id)[p]
  {
    hide Init, PathsOf, Without, Compaction.UnionPoints, FilesOf, FilePoints, DistinctPaths, Stored, Conserved,
      FlushesStored, FlushesMatch, Represents, LogMatches, RunsMatch, PhaseMatches;
    EngineRuns.RunKeeps(states, events, i);
    var s, s', cutoff := states[i], states[i + 1], events[i].cutoff;
    assert Step(s, events[i], s');
    var removed := Retention.Select(s.segments, cutoff, true);
    SelectedAmong(s.segments, cutoff);
    UnionRemoved(s.segments, removed, s.files, id);
    SweptAreOld(removed, s.files, cutoff, id, p);
  }

  /** Every listed entry, made by a flush or a compaction, bounds its file's timestamps. */
  lemma BlockBounds(states: seq<State>, events: seq<Event>, i: nat, e: SegmentEntry, id: uint64, p: Point)
    requires IsRun(states, events) && i < |states| && e in states[i].segments
    requires e.path in states[i].files && p in PointsOf(StoredTables.Content(states[i].files[e.path]), id)
    ensures e.blockStart <= p.ts <= e.blockEnd
  {
    hide Init, Step, IsRun, Compaction.UnionPoints, FilesOf, FilePoints, DistinctPaths, Conserved, FlushesStored,
      FlushesMatch, Represents, LogMatches, RunsMatch, PhaseMatches, StoredTables.Content, StoredTables.Holds;
    EngineRuns.RunKeeps(states, events, i);
    assert Stored(e, states[i].files);
  }

  /** The bounds are attained: an entry spans no more time than its points. */
  lemma BlockBoundsAttained(states: seq<State>, events: seq<Event>, i: nat, e: SegmentEntry)
    requires IsRun(states, events) && i < |states| && e in states[i].segments
    ensures e.path in states[i].files
    ensures var t := StoredTables.Content(states[i].files[e.path]);
            Compaction.Attained(t, e.blockStart) && Compaction.Attained(t, e.blockEnd)
  {
    hide IsRun, Inv, StoredTables.Content, Compaction.Attained;
    EngineRuns.RunKeeps(states, events, i);
    SegmentsAreStored(states[i]);
    StoredAttained(e, states[i].files);
  }

  lemma StoredAttained(e: SegmentEntry, files: map<Path, seq<byte>>)
    requires Stored(e, files)
    ensures var t := StoredTables.Content(files[e.path]);
            Compaction.Attained(t, e.blockStart) && Compaction.Attained(t, e.blockEnd)
  {
    hide StoredTables.Content, Compaction.Attained, Sorted;
    var t := StoredTables.Content(files[e.path]);
    var id :| id in t;
    assert t[id] != [];
  }

  /** The file has a point at or after the cutoff. */
  ghost predicate Recent(e: SegmentEntry, files: map<Path, seq<byte>>, cutoff: int)
    requires e.path in files
  {
    var t := StoredTables.Content(files[e.path]);
    exists id, p :: id in t && p in t[id] && p.ts >= cutoff
  }

  lemma RecentExactly(e: SegmentEntry, files: map<Path, seq<byte>>, cutoff: int)
    requires Stored(e, files)
    ensures Recent(e, files, cutoff) <==> e.blockEnd >= cutoff
  {
    hide StoredTables.Content, StoredTables.Holds;
    StoredAttained(e, files);
  }

  /** A sweep keeps exactly the segments with a point at or after its cutoff: it spares no
      segment whose points are all older, and adds none. */
  lemma SweepExactly(states: seq<State>, events: seq<Event>, i: nat, e: SegmentEntry)
    requires IsRun(states, events) && i < |events| && events[i].Retain?
    ensures e in states[i].segments ==> e.path in states[i].files
    ensures e in states[i + 1].segments
            <==> e in states[i].segments && Recent(e, states[i].files, events[i].cutoff)
  {
    hide Init, PathsOf, Compaction.UnionPoints, FilesOf, Stored, Conserved, FlushesStored, FlushesMatch, Represents,
      LogMatches, RunsMatch, PhaseMatches, Recent;
    EngineRuns.RunKeeps(states, events, i);
    var s, s', cutoff := states[i], states[i + 1], events[i].cutoff;
    assert Step(s, events[i], s');
    var removed := Retention.Select(s.segments, cutoff, true);
    if e in s.segments {
      StoredHasFile(e, s.files);
      RecentExactly(e, s.files, cutoff);
      RemovedByPath(s.segments, removed, e);
    }
  }

  /** Paths are distinct, so that removing paths removes entries. */
  lemma RemovedByPath(segments: seq<SegmentEntry>, removed: seq<SegmentEntry>, e: SegmentEntry)
    requires DistinctPaths(segments) && e in segments && forall r :: r in removed ==> r in segments
    ensures e.path in PathsOf(removed) <==> e in removed
  {
  }
}
