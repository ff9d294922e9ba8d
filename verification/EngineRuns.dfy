/** Retention, crashes, and with them the invariant over whole runs. */
module EngineRuns {
  import opened Words
  import opened Tables
  import opened Manifest
  import opened Payload
  import opened EngineLog
  import opened EngineState
  import opened EngineSums
  import opened EngineInvariant
  import opened EngineSteps
  import opened EngineResults
  import opened EngineCompaction
  import Retention
  import Compaction
  import Wal

  // ----- retention

  lemma Reassociate<T>(kept: multiset<T>, removed: multiset<T>, d: multiset<T>, rest: multiset<T>)
    requires kept + removed + d == rest
    ensures kept + (d + removed) == rest
  {
    assert kept + (d + removed) == kept + removed + d;
  }

  lemma RetentionConserves(s: State, removed: seq<SegmentEntry>)
    requires Conserved(s.segments, s.files, s.dropped, s.log, s.durable, s.extra, [])
    requires SegmentsStored(s.segments, s.files) && multiset(removed) <= multiset(s.segments)
    ensures var paths := PathsOf(removed);
            Conserved(Without(s.segments, paths), s.files - paths, s.dropped + FilesOf(removed, s.files), s.log,
                      s.durable, s.extra, [])
  {
    hide FilesOf, LogPoints, Compaction.UnionPoints, FilePoints, DistinctPaths, Without, PathsOf, Stored;
    var paths := PathsOf(removed);
    var files' := s.files - paths;
    forall id: uint64
      ensures SegmentPoints(Without(s.segments, paths), files', id)
              + FilePoints(s.dropped + FilesOf(removed, s.files), id)
           == LogPoints(s.log[..s.durable], id) + FilePoints(s.extra, id) + FilePoints([], id)
    {
      UnionRemoved(s.segments, removed, s.files, id);
      FilePointsConcat(s.dropped, FilesOf(removed, s.files), id);
      FilePointsOfEntries(removed, s.files, id);
      Reassociate(SegmentPoints(Without(s.segments, paths), files', id), SegmentPoints(removed, s.files, id),
                  FilePoints(s.dropped, id),
                  LogPoints(s.log[..s.durable], id) + FilePoints(s.extra, id) + FilePoints([], id));
    }
  }

  /** A sweep that spares the candidates of a running compaction leaves it intact. */
  lemma RunsOutsideRemoved(s: State, paths: set<Path>)
    requires RunsMatch(s.compactions, s.segments, s.files, PathsOf(s.segments)) && SegmentsStored(s.segments, s.files)
    requires paths <= PathsOf(s.segments) && forall run :: run in s.compactions ==> paths !! PathsOf(run.candidates)
    ensures var segments' := Without(s.segments, paths);
            RunsMatch(s.compactions, segments', s.files - paths, PathsOf(segments'))
  {
    hide SegmentsStored, Without, RunMatches;
    var segments' := Without(s.segments, paths);
    forall run | run in s.compactions
      ensures multiset(run.candidates) <= multiset(segments') && AllKept(run.candidates, s.files, s.files - paths)
      ensures run.Compacted? ==> run.entry.path !in PathsOf(s.segments)
    {
      RunParts(run, s.segments, s.files, PathsOf(s.segments));
      if run.Compacted? {
        OutputOnDisk(run, s.segments, s.files, PathsOf(s.segments));
      }
      forall e: SegmentEntry
        ensures multiset(run.candidates)[e] <= multiset(segments')[e]
      {
        WithoutCount(s.segments, paths, e);
      }
    }
    RunsFrame(s.compactions, s.segments, s.files, PathsOf(s.segments), segments', s.files - paths, PathsOf(segments'));
  }

  lemma RetainKeeps(s: State, cutoff: int, s': State)
    requires Inv(s) && Step(s, Retain(cutoff), s')
    ensures Inv(s')
  {
    hide LogMatches, Represents, SegmentsStored, FlushesMatch, RunsMatch, FlushesStored, Conserved, FilesOf, NoPoints,
      PathsOf, Stored, Without, Retention.Select;
    var removed := Retention.Select(s.segments, cutoff, true);
    var paths := PathsOf(removed);
    SelectedAmong(s.segments, cutoff);
    CandidatePathsListed(removed, s.segments);
    NoFiles(s.files);
    NoFiles(s'.files);
    NoPaths();
    assert Settled(s) == PathsOf(s.segments) && Settled(s') == PathsOf(s'.segments);
    WithoutStored(s.segments, paths, s.files);
    RetentionConserves(s, removed);
    FlushesOutsideRemoved(s.flushes, s.files, Settled(s), s.segments, paths);
    RunsOutsideRemoved(s, paths);
  }

  // ----- crashes

  lemma CrashConserves(s: State, k: nat, mid: seq<seq<byte>>)
    requires Conserved(s.segments, s.files, s.dropped, s.log, s.durable, s.extra, mid)
    requires s.durable <= k <= |s.log|
    ensures Conserved(s.segments, s.files, s.dropped, s.log[..k], s.durable, s.extra + mid, [])
  {
    hide LogPoints, Compaction.UnionPoints, FilePoints;
    assert s.log[..k][..s.durable] == s.log[..s.durable];
    NoFilePoints();
    forall id: uint64
      ensures SegmentPoints(s.segments, s.files, id) + FilePoints(s.dropped, id)
           == LogPoints(s.log[..s.durable], id) + FilePoints(s.extra + mid, id) + FilePoints([], id)
    {
      FilePointsConcat(s.extra, mid, id);
      Flatten(LogPoints(s.log[..s.durable], id), FilePoints(s.extra, id), FilePoints(mid, id));
    }
  }

  lemma Flatten<T>(l: multiset<T>, x: multiset<T>, m: multiset<T>)
    ensures l + x + m == l + (x + m) + multiset{}
  {
  }

  lemma LogCut(log: seq<WritePayload>, synced: nat, durable: nat, start: nat, walOffset: nat, k: nat)
    requires LogMatches(log, synced, durable, start, walOffset) && durable <= k <= |log|
    ensures LogMatches(log[..k], k, durable, durable, walOffset)
  {
    hide OffsetOf, Encode, Wal.Loggable;
    OffsetOfPrefix(log[..k], log, durable);
  }

  lemma LogBasics(s: State)
    requires Inv(s)
    ensures s.durable <= |s.log| && s.synced <= |s.log| && AllLoggable(s.log)
    ensures s.walOffset == OffsetOf(s.log, s.durable)
  {
    hide Represents, SegmentsStored, FlushesStored, RunsMatch, FlushesMatch, Conserved, PhaseMatches, OffsetOf,
      AllLoggable;
  }

  /** What Recover finds after a cut behind the saved offset. */
  lemma RecoverableAt(s: State, k: nat)
    requires Inv(s) && s.durable <= k <= |s.log|
    ensures Recovered(LogFile(s.log[..k]), s.walOffset) == Ok(s.log[s.durable..k])
  {
    hide Inv, LogFile, OffsetOf, Recovered, Encode, Wal.Loggable;
    LogBasics(s);
    var log := s.log[..k];
    OffsetOfPrefix(log, s.log, s.durable);
    RecoveredInFull(log, s.durable);
    assert log[s.durable..] == s.log[s.durable..k];
  }

  lemma CrashKeeps(s: State, k: nat, s': State)
    requires Inv(s) && Step(s, CrashAndRecover(k), s')
    ensures Inv(s')
  {
    hide LogMatches, SegmentsStored, FlushMatches, RunMatches, FlushStored, Conserved, FilesOf, NoPoints, PathsOf,
      Stored, LogPoints, Ordered, Recovered, LogFile;
    RecoverableAt(s, k);
    LogCut(s.log, s.synced, s.durable, s.start, s.walOffset, k);
    CrashConserves(s, k, FilesOf(MidEntry(s), s.files));
    NoFiles(s.files);
    assert s.log[..k][s.durable..k] == s.log[s.durable..k];
  }

  // ----- runs

  lemma StepKeeps(s: State, e: Event, s': State)
    requires Inv(s) && Step(s, e, s')
    ensures Inv(s')
  {
    hide Inv, Step;
    match e
    case Write(p) => WriteKeeps(s, p, s');
    case Sync => SyncKeeps(s, s');
    case Rotate => RotateKeeps(s, s');
    case FinishFlush(i) => FinishFlushKeeps(s, i, s');
    case FailFlush(i, leftover) => FailFlushKeeps(s, i, leftover, s');
    case DiscardFlush(i) => DiscardFlushKeeps(s, i, s');
    case AddFlushed(i) => AddFlushedKeeps(s, i, s');
    case AdvanceOffset(i) => AdvanceOffsetKeeps(s, i, s');
    case StartCompaction(candidates) => StartCompactionKeeps(s, candidates, s');
    case FinishCompaction(i) => FinishCompactionKeeps(s, i, s');
    case FailCompaction(i) => FailCompactionKeeps(s, i, s');
    case DiscardCompaction(i) => DiscardCompactionKeeps(s, i, s');
    case AddCompacted(i) => AddCompactedKeeps(s, i, s');
    case RemoveCandidates(i) => RemoveCandidatesKeeps(s, i, s');
    case Retain(cutoff) => RetainKeeps(s, cutoff, s');
    case CrashAndRecover(k) => CrashKeeps(s, k, s');
  }

  lemma InitHolds(s: State)
    requires Init(s)
    ensures Inv(s)
  {
    assert s.log[..0] == [] && s.log[0..0] == [];
  }

  /** Every state of every run satisfies the invariant. */
  lemma {:induction false} RunKeeps(states: seq<State>, events: seq<Event>, i: nat)
    requires IsRun(states, events) && i < |states|
    ensures Inv(states[i])
  {
    hide Inv, Step, Init;
    if i == 0 {
      InitHolds(states[0]);
    } else {
      RunKeeps(states, events, i - 1);
      StepKeeps(states[i - 1], events[i - 1], states[i]);
    }
  }
}
