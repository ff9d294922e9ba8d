/** Concrete runs of the engine, from an empty store, into each of its failures. */
module EngineExamples {
  import opened Words
  import opened Points
  import opened Tables
  import opened Manifest
  import opened Payload
  import opened EngineLog
  import opened EngineState
  import opened EngineSums
  import opened EngineInvariant
  import opened EngineLimits
  import opened EngineSamples
  import EngineCompaction
  import EngineLive
  import EngineResults
  import EngineRuns
  import Compaction
  import StoredTables
  import Wal

  // ----- runs as the code performs them

  ghost predicate Performs(s: State, events: seq<Event>, s': State) {
    if events == [] then s == s'
    else
      var n := |events| - 1;
      exists mid :: Performs(s, events[..n], mid) && Next(mid, events[n], s')
  }

  lemma PerformsOne(s: State, events: seq<Event>, mid: State, e: Event, s': State)
    requires Performs(s, events, mid) && Next(mid, e, s')
    ensures Performs(s, events + [e], s')
  {
    hide Next;
    assert (events + [e])[..|events|] == events;
  }

  lemma {:induction false} PerformsThen(s: State, a: seq<Event>, mid: State, b: seq<Event>, s': State)
    requires Performs(s, a, mid) && Performs(mid, b, s')
    ensures Performs(s, a + b, s')
  {
    hide Next;
    if b == [] {
      assert a + b == a;
    } else {
      var n := |b| - 1;
      var last :| Performs(mid, b[..n], last) && Next(last, b[n], s');
      PerformsThen(s, a, mid, b[..n], last);
      PerformsOne(s, a + b[..n], last, b[n], s');
      assert a + b == a + b[..n] + [b[n]];
    }
  }

  /** Between rounds: n sampled writes, all of them in segments. */
  ghost function Quiet(n: nat, synced: nat, segments: seq<SegmentEntry>, files: map<Path, seq<byte>>,
                       flushCount: nat): State
    requires n <= LIMIT
  {
    State(SampleLog(n), synced, map[], n, None, [], [], segments, OffsetOf(SampleLog(n), n), files, flushCount, Idle, n,
          [], [])
  }

  ghost function Empty(): State {
    Quiet(0, 0, [], map[], 0)
  }

  lemma EmptyStore()
    ensures Init(Empty()) && Inv(Empty())
  {
    assert SampleLog(0) == [] && Records([]) == [] && Records([])[..0] == [];
    EngineRuns.InitHolds(Empty());
  }

  // ----- one round of writing and flushing

  /** After one more write. */
  ghost function AfterWrite(s: State, n: nat): State
    requires n < LIMIT
  {
    s.(log := SampleLog(n + 1), active := SampleTable(n, n + 1))
  }

  /** After the rotation that follows. */
  ghost function AfterRotate(s: State, n: nat): State
    requires n < LIMIT
  {
    s.(log := SampleLog(n + 1), active := map[], start := n + 1, frozen := Some(SampleTable(n, n + 1)),
       flushes := s.flushes
                  + [Flush(SampleTable(n, n + 1), s.flushCount, n, n + 1, OffsetOf(SampleLog(n + 1), n + 1), Flushing)],
       flushCount := s.flushCount + 1)
  }

  lemma WriteSample(s: State, n: nat)
    requires n < LIMIT && s.phase.Idle? && s.log == SampleLog(n) && s.active == map[]
    ensures Next(s, Write(SampleWrite(n)), AfterWrite(s, n)) && Assumed(s, Write(SampleWrite(n)), AfterWrite(s, n))
  {
    assert SampleLog(n + 1) == SampleLog(n) + [SampleWrite(n)];
    SampleRecord(n);
    SampleShape(n, n + 1);
    hide Wal.Loggable;
    SampleAdded(n);
  }

  lemma SampleAdded(n: nat)
    requires n < LIMIT
    ensures Added(map[], SampleTable(n, n + 1), n, [SamplePoint(n)])
  {
  }

  lemma RotateSample(s: State, n: nat)
    requires n < LIMIT && s.phase.Idle? && s.log == SampleLog(n) && s.start == n
    ensures Next(AfterWrite(s, n), Rotate, AfterRotate(s, n))
  {
    hide SampleTable, SampleLog, OffsetOf;
  }

  /** After the flush goroutine wrote the segment. */
  ghost function AfterFlush(s: State, n: nat): State
    requires n < LIMIT && s.flushes != []
  {
    var last := |s.flushes| - 1;
    var f := s.flushes[last];
    s.(flushes := s.flushes[last := f.(status := FlushStatus.Written(SampleEntry(FlushPath(f.n), n, n + 1)))],
       files := s.files[FlushPath(f.n) := SampleFile(n, n + 1)])
  }

  lemma FinishSample(s: State, n: nat)
    requires n < LIMIT && |s.flushes| == 1 && s.flushes[0].table == SampleTable(n, n + 1) &&
             s.flushes[0].status.Flushing?
    ensures Next(s, FinishFlush(0), AfterFlush(s, n))
    ensures FlushPath(s.flushes[0].n) !in PathsOf(s.segments) ==> Assumed(s, FinishFlush(0), AfterFlush(s, n))
    ensures FlushSized(s.flushes[0], SampleEntry(FlushPath(s.flushes[0].n), n, n + 1), SampleFile(n, n + 1))
  {
    hide SampleTable, SampleList, SampleFile, FlushWritten, FlushSized, PathsOf, Next, Assumed;
    SampleFlushed(s.flushes[0], n, n + 1);
    SampleNotEmpty(n);
    FinishIs(s, SampleEntry(FlushPath(s.flushes[0].n), n, n + 1), SampleFile(n, n + 1), AfterFlush(s, n));
  }

  lemma SampleNotEmpty(n: nat)
    requires n < LIMIT
    ensures SampleTable(n, n + 1) != map[]
  {
    assert n in SampleTable(n, n + 1);
  }

  lemma FinishIs(s: State, entry: SegmentEntry, file: seq<byte>, s': State)
    requires |s.flushes| == 1 && s.flushes[0].status.Flushing? && s.flushes[0].table != map[]
    requires FlushSized(s.flushes[0], entry, file)
    requires s' == s.(flushes := s.flushes[0 := s.flushes[0].(status := FlushStatus.Written(entry))],
                      files := s.files[FlushPath(s.flushes[0].n) := file])
    ensures Next(s, FinishFlush(0), s')
    ensures FlushPath(s.flushes[0].n) !in PathsOf(s.segments) ==> Assumed(s, FinishFlush(0), s')
  {
    hide FlushWritten, StoredTables.WellSized, PathsOf;
  }

  function RoundEvents(n: nat): seq<Event>
    requires n < LIMIT
  {
    [Write(SampleWrite(n)), Rotate, FinishFlush(0), AddFlushed(0), AdvanceOffset(0)]
  }

  lemma PerformsFive(s: State, e1: Event, s1: State, e2: Event, s2: State, e3: Event, s3: State, e4: Event, s4: State,
                     e5: Event, s5: State)
    requires Next(s, e1, s1) && Next(s1, e2, s2) && Next(s2, e3, s3) && Next(s3, e4, s4) && Next(s4, e5, s5)
    ensures Performs(s, [e1, e2, e3, e4, e5], s5)
  {
    hide Next, Performs;
    PerformsTwo(s, e1, s1, e2, s2);
    PerformsOne(s, [e1, e2], s2, e3, s3);
    assert [e1, e2] + [e3] == [e1, e2, e3];
    PerformsOne(s, [e1, e2, e3], s3, e4, s4);
    assert [e1, e2, e3] + [e4] == [e1, e2, e3, e4];
    PerformsOne(s, [e1, e2, e3, e4], s4, e5, s5);
    assert [e1, e2, e3, e4] + [e5] == [e1, e2, e3, e4, e5];
  }

  lemma PerformsNone(s: State)
    ensures Performs(s, [], s)
  {
  }

  lemma PerformsTwo(s: State, e1: Event, s1: State, e2: Event, s2: State)
    requires Next(s, e1, s1) && Next(s1, e2, s2)
    ensures Performs(s, [e1, e2], s2)
  {
    hide Next, Performs;
    PerformsNone(s);
    PerformsOne(s, [], s, e1, s1);
    assert [] + [e1] == [e1];
    PerformsOne(s, [e1], s1, e2, s2);
    assert [e1] + [e2] == [e1, e2];
  }

  /** Both saves of the flush. */
  lemma ApplySample(s: State, entry: SegmentEntry, added: State, s': State)
    requires s.phase.Idle? && |s.flushes| == 1 && s.flushes[0].status == FlushStatus.Written(entry)
    requires added == s.(segments := s.segments + [entry], phase := FlushAdded(0))
    requires s' == s.(segments := s.segments + [entry], walOffset := s.flushes[0].walOff, durable := s.flushes[0].hi,
                      frozen := None, flushes := [])
    ensures Next(s, AddFlushed(0), added) && Next(added, AdvanceOffset(0), s')
  {
    EngineLive.FirstRemoved(s.flushes);
    assert s.flushes[1..] == [];
  }

  /** The state in which the round's flush is written and not yet applied. */
  ghost function Pending(n: nat, synced: nat, segments: seq<SegmentEntry>, files: map<Path, seq<byte>>,
                         flushCount: nat): State
    requires n < LIMIT
  {
    AfterFlush(AfterRotate(Quiet(n, synced, segments, files, flushCount), n), n)
  }

  /** A round of one write and its flush, whether or not the segment's name is in use. */
  lemma Round(n: nat, synced: nat, segments: seq<SegmentEntry>, files: map<Path, seq<byte>>, flushCount: nat)
    requires n < LIMIT
    ensures var path := FlushPath(flushCount);
            Performs(Quiet(n, synced, segments, files, flushCount), RoundEvents(n),
                     Quiet(n + 1, synced, segments + [SampleEntry(path, n, n + 1)], files[path := SampleFile(n, n + 1)],
                           flushCount + 1))
  {
    hide SampleTable, SampleList, SampleFile, SampleLog, OffsetOf, Next, FlushSized, PathsOf;
    var s := Quiet(n, synced, segments, files, flushCount);
    var s1, s2, s3 := AfterWrite(s, n), AfterRotate(s, n), Pending(n, synced, segments, files, flushCount);
    var entry := SampleEntry(FlushPath(flushCount), n, n + 1);
    WriteSample(s, n);
    RotateSample(s, n);
    FinishSample(s2, n);
    var added := s3.(segments := segments + [entry], phase := FlushAdded(0));
    var s' := Quiet(n + 1, synced, segments + [entry], files[entry.path := SampleFile(n, n + 1)], flushCount + 1);
    ApplySample(s3, entry, added, s');
    PerformsFive(s, Write(SampleWrite(n)), s1, Rotate, s2, FinishFlush(0), s3, AddFlushed(0), added,
                 AdvanceOffset(0), s');
  }

  /** With a fresh name the round keeps the invariant. */
  lemma RoundKeeps(n: nat, synced: nat, segments: seq<SegmentEntry>, files: map<Path, seq<byte>>, flushCount: nat)
    requires n < LIMIT && Inv(Quiet(n, synced, segments, files, flushCount)) &&
             FlushPath(flushCount) !in PathsOf(segments)
    ensures var path := FlushPath(flushCount);
            && Inv(AfterRotate(Quiet(n, synced, segments, files, flushCount), n))
            && Inv(Pending(n, synced, segments, files, flushCount))
            && Inv(Quiet(n + 1, synced, segments + [SampleEntry(path, n, n + 1)], files[path := SampleFile(n, n + 1)],
                         flushCount + 1))
  {
    hide SampleTable, SampleList, SampleFile, SampleLog, OffsetOf, FlushSized, PathsOf, Inv, Next, Assumed;
    var s := Quiet(n, synced, segments, files, flushCount);
    var s1, s2, s3 := AfterWrite(s, n), AfterRotate(s, n), Pending(n, synced, segments, files, flushCount);
    var entry := SampleEntry(FlushPath(flushCount), n, n + 1);
    WriteSample(s, n);
    EngineRuns.StepKeeps(s, Write(SampleWrite(n)), s1);
    RotateSample(s, n);
    AlwaysAssumed(s1, Rotate, s2);
    EngineRuns.StepKeeps(s1, Rotate, s2);
    FinishSample(s2, n);
    EngineRuns.StepKeeps(s2, FinishFlush(0), s3);
    var added := s3.(segments := segments + [entry], phase := FlushAdded(0));
    var s' := Quiet(n + 1, synced, segments + [entry], files[entry.path := SampleFile(n, n + 1)], flushCount + 1);
    ApplySample(s3, entry, added, s');
    AlwaysAssumed(s3, AddFlushed(0), added);
    AlwaysAssumed(added, AdvanceOffset(0), s');
    NoGap(s3, n);
    EngineRuns.StepKeeps(s3, AddFlushed(0), added);
    EngineRuns.StepKeeps(added, AdvanceOffset(0), s');
  }

  lemma AlwaysAssumed(s: State, e: Event, s': State)
    requires || e.Rotate? || e.AddFlushed? || e.AdvanceOffset? || e.Sync? || e.DiscardFlush? || e.AddCompacted?
             || e.RemoveCandidates?
    ensures Assumed(s, e, s')
  {
  }

  lemma NoGap(s: State, n: nat)
    requires s.durable == n <= |s.log|
    ensures GapFree(s, n)
  {
    assert s.log[n..n] == [];
    EngineLive.NoPointsNowhere();
  }

  // ----- a flush name in use after a restart

  /** A synced store that restarts between rounds only forgets its flush counter. */
  lemma RestartSample(n: nat, synced: nat, segments: seq<SegmentEntry>, files: map<Path, seq<byte>>, flushCount: nat)
    requires n <= LIMIT && synced <= n
    ensures var s, s' := Quiet(n, synced, segments, files, flushCount), Quiet(n, n, segments, files, 0);
            Performs(s, [EngineState.Sync, CrashAndRecover(n)], s') && (Inv(s) ==> Inv(s'))
  {
    hide SampleTable, SampleList, SampleFile, OffsetOf, FlushSized, PathsOf, Inv, LogFile, Recovered, FilesOf,
      SampleWrite;
    var s, s' := Quiet(n, synced, segments, files, flushCount), Quiet(n, n, segments, files, 0);
    var saved := s.(synced := n);
    assert Next(s, EngineState.Sync, saved);
    RecoveredNothing(n);
    EngineResults.NoFiles(files);
    assert SampleLog(n)[..n] == SampleLog(n);
    assert Next(saved, CrashAndRecover(n), s');
    hide Next, SampleLog;
    PerformsTwo(s, EngineState.Sync, saved, CrashAndRecover(n), s');
    if Inv(s) {
      AlwaysAssumed(s, EngineState.Sync, saved);
      EngineRuns.StepKeeps(s, EngineState.Sync, saved);
      EngineRuns.StepKeeps(saved, CrashAndRecover(n), s');
    }
  }

  lemma RecoveredNothing(n: nat)
    requires n <= LIMIT
    ensures Recovered(LogFile(SampleLog(n)[..n]), OffsetOf(SampleLog(n), n)) == Ok([])
  {
    hide Recovered, LogFile, OffsetOf, Wal.Loggable, Encode;
    var log := SampleLog(n);
    assert log[..n] == log && log[n..] == [];
    SampleLoggable(n);
    RecoveredInFull(log, n);
  }

  lemma SampleLoggable(n: nat)
    requires n <= LIMIT
    ensures AllLoggable(SampleLog(n))
  {
    hide Wal.Loggable, Encode, Wal.Record;
    forall i | 0 <= i < n
      ensures Wal.Loggable(Encode(SampleLog(n)[i]))
    {
      SampleRecord(i);
    }
  }

  /** The store of one flushed write, restarted. */
  ghost function Restarted(): State {
    Quiet(1, 1, [SampleEntry(FlushPath(0), 0, 1)], map[FlushPath(0) := SampleFile(0, 1)], 0)
  }

  lemma ReachRestarted()
    ensures Performs(Empty(), RoundEvents(0) + [EngineState.Sync, CrashAndRecover(1)], Restarted())
    ensures Inv(Restarted())
  {
    hide SampleFile, Inv, Performs, Quiet;
    var e := SampleEntry(FlushPath(0), 0, 1);
    var files := map[FlushPath(0) := SampleFile(0, 1)];
    EmptyStore();
    Round(0, 0, [], map[], 0);
    EngineResults.NoPaths();
    RoundKeeps(0, 0, [], map[], 0);
    assert [] + [e] == [e] && map[][FlushPath(0) := SampleFile(0, 1)] == files;
    RestartSample(1, 0, [e], files, 1);
    PerformsThen(Empty(), RoundEvents(0), Quiet(1, 0, [e], files, 1),
                 [EngineState.Sync, CrashAndRecover(1)], Restarted());
  }

  lemma PerformsRotation(start: State, events: seq<Event>, s: State, n: nat)
    requires n < LIMIT && Performs(start, events, s)
    requires s.phase.Idle? && s.log == SampleLog(n) && s.active == map[] && s.start == n
    ensures Performs(start, events + [Write(SampleWrite(n)), Rotate], AfterRotate(s, n))
  {
    hide Performs, Next, AfterWrite, AfterRotate, SampleLog;
    WriteSample(s, n);
    RotateSample(s, n);
    PerformsTwo(s, Write(SampleWrite(n)), AfterWrite(s, n), Rotate, AfterRotate(s, n));
    PerformsThen(start, events, s, [Write(SampleWrite(n)), Rotate], AfterRotate(s, n));
  }

  /** Write, flush, sync, crash, write, rotate: the second flush takes the first one's name,
      and applying it loses the first write. */
  lemma FlushNameHappens() returns (events: seq<Event>, s: State, finished: State, added: State, s': State)
    ensures events == RoundEvents(0) + [EngineState.Sync, CrashAndRecover(1)] + [Write(SampleWrite(1)), Rotate]
    ensures Performs(Empty(), events, s)
    ensures Inv(s) && FlushSteps(s, 0, finished, added, s') && GapFree(s, s.flushes[0].lo)
    ensures !Balanced(s')
  {
    hide SampleTable, SampleFile, SampleLog, OffsetOf, Inv, Performs, Balanced, PointsIn, FlushSteps, GapFree;
    s := AfterRotate(Restarted(), 1);
    ReachRestarted();
    events := RoundEvents(0) + [EngineState.Sync, CrashAndRecover(1)] + [Write(SampleWrite(1)), Rotate];
    PerformsRotation(Empty(), RoundEvents(0) + [EngineState.Sync, CrashAndRecover(1)], Restarted(), 1);
    RotatedKeeps(Restarted(), 1);
    finished, added, s' := SampleFlushSteps(s, 1);
    NoGap(s, 1);
    FlushNameExactly(s, 0, finished, added, s');
    var e := SampleEntry(FlushPath(0), 0, 1);
    StretchPoints(e, s.files, 0, 1, 0);
    assert e in s.segments;
    SamplesDiffer();
  }

  lemma SampleFlushSteps(s: State, n: nat) returns (finished: State, added: State, s': State)
    requires n < LIMIT && s.phase.Idle? && |s.flushes| == 1 && s.flushes[0].table == SampleTable(n, n + 1)
    requires s.flushes[0].status.Flushing?
    ensures FlushSteps(s, 0, finished, added, s')
  {
    hide SampleTable, SampleFile, FlushSized, Next;
    FinishSample(s, n);
    var entry := SampleEntry(FlushPath(s.flushes[0].n), n, n + 1);
    finished := AfterFlush(s, n);
    added := finished.(segments := s.segments + [entry], phase := FlushAdded(0));
    s' := finished.(segments := s.segments + [entry], walOffset := s.flushes[0].walOff, durable := s.flushes[0].hi,
                    frozen := None, flushes := []);
    ApplySample(finished, entry, added, s');
  }

  lemma RotatedKeeps(s: State, n: nat)
    requires n < LIMIT && Inv(s) && s.phase.Idle? && s.log == SampleLog(n) && s.active == map[] && s.start == n
    ensures Inv(AfterWrite(s, n)) && Inv(AfterRotate(s, n))
  {
    hide SampleTable, SampleLog, OffsetOf, Inv, Next, Assumed;
    WriteSample(s, n);
    EngineRuns.StepKeeps(s, Write(SampleWrite(n)), AfterWrite(s, n));
    RotateSample(s, n);
    AlwaysAssumed(AfterWrite(s, n), Rotate, AfterRotate(s, n));
    EngineRuns.StepKeeps(AfterWrite(s, n), Rotate, AfterRotate(s, n));
  }

  lemma SamplesDiffer()
    ensures PointsOf(SampleTable(0, 1), 0) != PointsOf(SampleTable(1, 2), 0)
  {
    assert SamplePoint(0) in PointsOf(SampleTable(0, 1), 0);
  }

  // ----- compaction names in use

  /** Many rounds, one after the other, under the names that the write numbers give. */
  ghost function RoundsEntries(lo: nat, hi: nat): (entries: seq<SegmentEntry>)
    requires lo <= hi <= LIMIT
    ensures |entries| == hi - lo
  {
    seq(hi - lo, i requires 0 <= i < hi - lo => SampleEntry(FlushPath(lo + i), lo + i, lo + i + 1))
  }

  ghost function RoundsFiles(files: map<Path, seq<byte>>, lo: nat, hi: nat): map<Path, seq<byte>>
    requires lo <= hi <= LIMIT
  {
    if lo == hi then files else RoundsFiles(files, lo, hi - 1)[FlushPath(hi - 1) := SampleFile(hi - 1, hi)]
  }

  function RoundsEvents(lo: nat, hi: nat): seq<Event>
    requires lo <= hi <= LIMIT
  {
    if lo == hi then [] else RoundsEvents(lo, hi - 1) + RoundEvents(hi - 1)
  }

  lemma {:induction false} Rounds(lo: nat, hi: nat, synced: nat, segments: seq<SegmentEntry>,
                                  files: map<Path, seq<byte>>)
    requires lo <= hi <= LIMIT && forall p :: p in PathsOf(segments) ==> p.CompactedPath?
    ensures var s := Quiet(lo, synced, segments, files, lo);
            var s' := Quiet(hi, synced, segments + RoundsEntries(lo, hi), RoundsFiles(files, lo, hi), hi);
            Performs(s, RoundsEvents(lo, hi), s') && (Inv(s) ==> Inv(s'))
    decreases hi
  {
    hide SampleFile, SampleLog, OffsetOf, Inv, Quiet, SampleEntry, Performs;
    if lo == hi {
      assert segments + RoundsEntries(lo, hi) == segments;
      PerformsNone(Quiet(lo, synced, segments, files, lo));
    } else {
      var n := hi - 1;
      Rounds(lo, n, synced, segments, files);
      var segments' := segments + RoundsEntries(lo, n);
      assert segments' + [SampleEntry(FlushPath(n), n, hi)] == segments + RoundsEntries(lo, hi);
      Round(n, synced, segments', RoundsFiles(files, lo, n), n);
      PerformsThen(Quiet(lo, synced, segments, files, lo), RoundsEvents(lo, n),
                   Quiet(n, synced, segments', RoundsFiles(files, lo, n), n), RoundEvents(n),
                   Quiet(hi, synced, segments + RoundsEntries(lo, hi), RoundsFiles(files, lo, hi), hi));
      FreshName(segments, lo, n);
      if Inv(Quiet(lo, synced, segments, files, lo)) {
        RoundKeeps(n, synced, segments', RoundsFiles(files, lo, n), n);
      }
    }
  }

  lemma FreshName(segments: seq<SegmentEntry>, lo: nat, n: nat)
    requires lo <= n < LIMIT && forall p :: p in PathsOf(segments) ==> p.CompactedPath?
    ensures FlushPath(n) !in PathsOf(segments + RoundsEntries(lo, n))
  {
    var rounds := RoundsEntries(lo, n);
    forall i | 0 <= i < |segments + rounds|
      ensures (segments + rounds)[i].path != FlushPath(n)
    {
      if i < |segments| {
        assert segments[i] in segments;
        assert segments[i].path in PathsOf(segments);
      } else {
        var j := i - |segments|;
        assert (segments + rounds)[i] == rounds[j] == SampleEntry(FlushPath(lo + j), lo + j, lo + j + 1);
      }
    }
  }

  /** A quiet store with a compaction under way. */
  ghost function WhileMerging(s: State, candidates: seq<SegmentEntry>): State {
    s.(compactions := [Compacting(candidates)])
  }

  /** The state after the compaction wrote its output. */
  ghost function AfterMerging(s: State, candidates: seq<SegmentEntry>, lo: nat, hi: nat): State
    requires lo < hi <= LIMIT
  {
    var entry := SampleEntry(CompactedPath(|candidates|), lo, hi);
    s.(compactions := [Compacted(candidates, entry)], files := s.files[entry.path := SampleFile(lo, hi)])
  }

  /** And after its result was applied. */
  ghost function AfterMerge(s: State, candidates: seq<SegmentEntry>, lo: nat, hi: nat): State
    requires lo < hi <= LIMIT
  {
    var entry := SampleEntry(CompactedPath(|candidates|), lo, hi);
    s.(segments := Without(s.segments + [entry], PathsOf(candidates)),
       files := s.files[entry.path := SampleFile(lo, hi)] - PathsOf(candidates), compactions := [])
  }

  lemma MergeSample(s: State, candidates: seq<SegmentEntry>, lo: nat, hi: nat) returns (added: State)
    requires s.phase.Idle? && s.compactions == [] && Chosen(candidates, s.segments) && lo < hi <= LIMIT
    requires forall id: uint64 :: SegmentPoints(candidates, s.files, id) == PointsOf(SampleTable(lo, hi), id)
    ensures Next(s, StartCompaction(candidates), WhileMerging(s, candidates))
    ensures Assumed(s, StartCompaction(candidates), WhileMerging(s, candidates))
    ensures CompactionSteps(WhileMerging(s, candidates), 0, AfterMerging(s, candidates, lo, hi), added,
                            AfterMerge(s, candidates, lo, hi))
    ensures CompactedPath(|candidates|) !in PathsOf(s.segments) ==>
              Assumed(WhileMerging(s, candidates), FinishCompaction(0), AfterMerging(s, candidates, lo, hi))
  {
    hide SampleTable, SampleFile, SampleList, CompactionWritten, CompactionSized, Without, PathsOf,
      Compaction.UnionPoints, PointsOf, Chosen, Next, Assumed;
    SampleCompacted(candidates, s.files, lo, hi);
    var entry := SampleEntry(CompactedPath(|candidates|), lo, hi);
    var merging, merged := WhileMerging(s, candidates), AfterMerging(s, candidates, lo, hi);
    added := merged.(segments := s.segments + [entry], phase := CompactionAdded(0));
    StartIs(s, candidates, merging);
    MergeIs(merging, candidates, entry, SampleFile(lo, hi), merged);
    ReplaceIs(merged, candidates, entry, added, AfterMerge(s, candidates, lo, hi));
  }

  lemma StartIs(s: State, candidates: seq<SegmentEntry>, s': State)
    requires s.phase.Idle? && s.compactions == [] && Chosen(candidates, s.segments)
    requires s' == s.(compactions := [Compacting(candidates)])
    ensures Next(s, StartCompaction(candidates), s') && Assumed(s, StartCompaction(candidates), s')
  {
    hide Chosen;
  }

  lemma MergeIs(s: State, candidates: seq<SegmentEntry>, entry: SegmentEntry, file: seq<byte>, s': State)
    requires s.compactions == [Compacting(candidates)] && entry.path == CompactedPath(|candidates|)
    requires CompactionSized(candidates, s.files, entry, file)
    requires s' == s.(compactions := [Compacted(candidates, entry)], files := s.files[entry.path := file])
    ensures Next(s, FinishCompaction(0), s')
    ensures entry.path !in PathsOf(s.segments) ==> Assumed(s, FinishCompaction(0), s')
  {
    hide CompactionWritten, StoredTables.WellSized, PathsOf;
    assert s.compactions[0 := Compacted(candidates, entry)] == s'.compactions;
  }

  lemma ReplaceIs(s: State, candidates: seq<SegmentEntry>, entry: SegmentEntry, added: State, s': State)
    requires s.phase.Idle? && s.compactions == [Compacted(candidates, entry)]
    requires added == s.(segments := s.segments + [entry], phase := CompactionAdded(0))
    requires s' == s.(segments := Without(s.segments + [entry], PathsOf(candidates)),
                      files := s.files - PathsOf(candidates), compactions := [])
    ensures Next(s, AddCompacted(0), added) && Next(added, RemoveCandidates(0), s')
  {
    hide Without, PathsOf;
    EngineLive.FirstRemoved(s.compactions);
    assert s.compactions[1..] == [];
  }

  function MergeEvents(candidates: seq<SegmentEntry>): seq<Event> {
    [StartCompaction(candidates), FinishCompaction(0), AddCompacted(0), RemoveCandidates(0)]
  }

  /** A whole compaction of sampled segments; under a fresh name it keeps the invariant. */
  lemma MergeRound(s: State, candidates: seq<SegmentEntry>, bounds: seq<nat>)
    requires s.phase.Idle? && s.compactions == [] && Chosen(candidates, s.segments)
    requires HoldStretches(candidates, s.files, bounds) && candidates != []
    ensures var lo, hi := bounds[0], bounds[|candidates|];
            && lo < hi <= LIMIT && Performs(s, MergeEvents(candidates), AfterMerge(s, candidates, lo, hi))
            && (Inv(s) && CompactedPath(|candidates|) !in PathsOf(s.segments) ==>
                  Inv(AfterMerge(s, candidates, lo, hi)))
  {
    assert |bounds| == |candidates| + 1;
    hide SampleTable, SampleFile, HoldStretches, Compaction.UnionPoints, PointsOf, Chosen, PathsOf, Inv, Performs,
      WhileMerging, AfterMerging, AfterMerge, CompactionSized;
    StretchesUnion(candidates, s.files, bounds, 0);
    var lo, hi := bounds[0], bounds[|candidates|];
    forall id: uint64
      ensures SegmentPoints(candidates, s.files, id) == PointsOf(SampleTable(lo, hi), id)
    {
      StretchesUnion(candidates, s.files, bounds, id);
    }
    var merging, merged := WhileMerging(s, candidates), AfterMerging(s, candidates, lo, hi);
    var s' := AfterMerge(s, candidates, lo, hi);
    var added := MergeSample(s, candidates, lo, hi);
    PerformsMerge(s, candidates, merging, merged, added, s');
    if Inv(s) && CompactedPath(|candidates|) !in PathsOf(s.segments) {
      MergeKeeps(s, candidates, merging, merged, added, s');
    }
  }

  lemma PerformsMerge(s: State, candidates: seq<SegmentEntry>, merging: State, merged: State, added: State, s': State)
    requires Next(s, StartCompaction(candidates), merging) && CompactionSteps(merging, 0, merged, added, s')
    ensures Performs(s, MergeEvents(candidates), s')
  {
    hide Next, Performs, CompactionSized;
    PerformsTwo(s, StartCompaction(candidates), merging, FinishCompaction(0), merged);
    PerformsTwo(merged, AddCompacted(0), added, RemoveCandidates(0), s');
    PerformsThen(s, [StartCompaction(candidates), FinishCompaction(0)], merged,
                 [AddCompacted(0), RemoveCandidates(0)], s');
    assert [StartCompaction(candidates), FinishCompaction(0)] + [AddCompacted(0), RemoveCandidates(0)]
           == MergeEvents(candidates);
  }

  lemma MergeKeeps(s: State, candidates: seq<SegmentEntry>, merging: State, merged: State, added: State, s': State)
    requires Inv(s) && Next(s, StartCompaction(candidates), merging) && Assumed(s, StartCompaction(candidates), merging)
    requires CompactionSteps(merging, 0, merged, added, s') && Assumed(merging, FinishCompaction(0), merged)
    ensures Inv(s')
  {
    hide Next, Assumed, Inv, CompactionSized;
    EngineRuns.StepKeeps(s, StartCompaction(candidates), merging);
    EngineRuns.StepKeeps(merging, FinishCompaction(0), merged);
    AlwaysAssumed(merged, AddCompacted(0), added);
    EngineRuns.StepKeeps(merged, AddCompacted(0), added);
    AlwaysAssumed(added, RemoveCandidates(0), s');
    EngineRuns.StepKeeps(added, RemoveCandidates(0), s');
  }

  function Upwards(lo: nat, hi: nat): (bounds: seq<nat>)
    requires lo <= hi
    ensures |bounds| == hi - lo + 1
  {
    seq(hi - lo + 1, i requires 0 <= i < hi - lo + 1 => lo + i)
  }

  lemma {:induction false} RoundsHold(files: map<Path, seq<byte>>, lo: nat, hi: nat)
    requires lo <= hi <= LIMIT
    ensures HoldStretches(RoundsEntries(lo, hi), RoundsFiles(files, lo, hi), Upwards(lo, hi))
    ensures forall p: Path :: p.CompactedPath? && p in files ==>
              p in RoundsFiles(files, lo, hi) && RoundsFiles(files, lo, hi)[p] == files[p]
    decreases hi
  {
    hide SampleFile;
    if lo < hi {
      var n := hi - 1;
      RoundsHold(files, lo, n);
      var entries, before, after := RoundsEntries(lo, hi), RoundsFiles(files, lo, n), RoundsFiles(files, lo, hi);
      forall i | 0 <= i < hi - lo
        ensures HoldsStretch(entries[i], after, Upwards(lo, hi)[i], Upwards(lo, hi)[i + 1])
      {
        assert entries[i] == SampleEntry(FlushPath(lo + i), lo + i, lo + i + 1);
        assert Upwards(lo, hi)[i] == lo + i && Upwards(lo, hi)[i + 1] == lo + i + 1;
        if i < n - lo {
          assert HoldsStretch(RoundsEntries(lo, n)[i], before, Upwards(lo, n)[i], Upwards(lo, n)[i + 1]);
        }
      }
    }
  }

  lemma AllChosen(segments: seq<SegmentEntry>)
    requires 2 <= |segments| <= 5
    ensures Chosen(segments, segments)
  {
    assert multiset(segments) - multiset(segments) == multiset{};
  }

  /** The store of k rounds, all compacted into one segment. */
  lemma ReachMerged(k: nat) returns (files: map<Path, seq<byte>>)
    requires 2 <= k <= 5
    ensures var m := SampleEntry(CompactedPath(k), 0, k);
            && Performs(Empty(), RoundsEvents(0, k) + MergeEvents(RoundsEntries(0, k)), Quiet(k, 0, [m], files, k))
            && Inv(Quiet(k, 0, [m], files, k)) && HoldsStretch(m, files, 0, k)
  {
    hide SampleFile, Inv, Performs, Chosen, RoundsFiles, HoldStretches, RoundsEvents, Without, PathsOf;
    var entries, all := RoundsEntries(0, k), RoundsFiles(map[], 0, k);
    var m := SampleEntry(CompactedPath(k), 0, k);
    EmptyStore();
    EngineResults.NoPaths();
    Rounds(0, k, 0, [], map[]);
    RoundsHold(map[], 0, k);
    assert [] + entries == entries;
    var s := Quiet(k, 0, entries, all, k);
    AllChosen(entries);
    MergeRound(s, entries, Upwards(0, k));
    RoundsNames(0, k);
    OnlyOutput(entries, m);
    files := AfterMerge(s, entries, 0, k).files;
    assert AfterMerge(s, entries, 0, k) == Quiet(k, 0, [m], files, k);
    PerformsThen(Empty(), RoundsEvents(0, k), s, MergeEvents(entries), Quiet(k, 0, [m], files, k));
  }

  lemma RoundsNames(lo: nat, hi: nat)
    requires lo <= hi <= LIMIT
    ensures forall p :: p in PathsOf(RoundsEntries(lo, hi)) ==> p.FlushPath?
  {
    var entries := RoundsEntries(lo, hi);
    forall i | 0 <= i < hi - lo
      ensures entries[i].path.FlushPath?
    {
      assert entries[i] == SampleEntry(FlushPath(lo + i), lo + i, lo + i + 1);
    }
  }

  lemma OnlyOutput(entries: seq<SegmentEntry>, m: SegmentEntry)
    requires m.path !in PathsOf(entries)
    ensures Without(entries + [m], PathsOf(entries)) == [m]
  {
    WithoutSnoc(entries, m, PathsOf(entries));
    NoneLeft(entries, PathsOf(entries));
  }

  lemma {:induction false} NoneLeft(entries: seq<SegmentEntry>, paths: set<Path>)
    requires forall e :: e in entries ==> e.path in paths
    ensures Without(entries, paths) == []
  {
    if entries != [] {
      var n := |entries| - 1;
      assert entries[n] in entries;
      NoneLeft(entries[..n], paths);
    }
  }

  /** More rounds on top of the merged segment. */
  lemma ReachMore(k: nat, n: nat) returns (files: map<Path, seq<byte>>)
    requires 2 <= k <= 5 && k <= n <= LIMIT
    ensures var m := SampleEntry(CompactedPath(k), 0, k);
            var s := Quiet(n, 0, [m] + RoundsEntries(k, n), files, n);
            && Performs(Empty(),
                        RoundsEvents(0, k) + MergeEvents(RoundsEntries(0, k)) + RoundsEvents(k, n), s)
            && Inv(s) && HoldsStretch(m, files, 0, k) && HoldStretches(RoundsEntries(k, n), files, Upwards(k, n))
  {
    hide SampleFile, Inv, Performs, RoundsFiles, HoldStretches, RoundsEvents, Quiet, RoundsEntries;
    var first := ReachMerged(k);
    var m := SampleEntry(CompactedPath(k), 0, k);
    OneName(m);
    Rounds(k, n, 0, [m], first);
    RoundsHold(first, k, n);
    files := RoundsFiles(first, k, n);
    PerformsThen(Empty(), RoundsEvents(0, k) + MergeEvents(RoundsEntries(0, k)), Quiet(k, 0, [m], first, k),
                 RoundsEvents(k, n), Quiet(n, 0, [m] + RoundsEntries(k, n), files, n));
  }

  lemma OneName(e: SegmentEntry)
    ensures PathsOf([e]) == {e.path}
  {
    EngineResults.NoPaths();
    EngineResults.SettledAdded([], e);
    assert [] + [e] == [e];
  }

  lemma StartedKeeps(s: State, candidates: seq<SegmentEntry>)
    requires Inv(s) && s.phase.Idle? && s.compactions == [] && Chosen(candidates, s.segments)
    ensures Inv(WhileMerging(s, candidates))
  {
    hide Inv, Chosen;
    EngineRuns.StepKeeps(s, StartCompaction(candidates), WhileMerging(s, candidates));
  }

  lemma FirstSampleIn(hi: nat)
    requires 0 < hi <= LIMIT
    ensures PointsOf(SampleTable(0, hi), 0) != multiset{}
  {
    assert SamplePoint(0) in PointsOf(SampleTable(0, hi), 0);
  }

  /** Two flushes, merged into compacted-2, one more flush, and a compaction of the two
      segments there are: its output takes the place of its own candidate and is removed
      with it. */
  lemma CandidateNameHappens() returns (events: seq<Event>, candidates: seq<SegmentEntry>, s: State, finished: State,
                                        added: State, s': State)
    ensures Performs(Empty(), events + [StartCompaction(candidates)], s)
    ensures events == RoundsEvents(0, 2) + MergeEvents(RoundsEntries(0, 2)) + RoundsEvents(2, 3)
    ensures candidates == [SampleEntry(CompactedPath(2), 0, 2), SampleEntry(FlushPath(2), 2, 3)]
    ensures Inv(s) && CompactionSteps(s, 0, finished, added, s') && CompactedPath(2) in PathsOf(candidates)
    ensures !Balanced(s')
  {
    hide SampleFile, SampleTable, Inv, Performs, RoundsEvents, Compaction.UnionPoints, CompactionSteps, Balanced,
      Chosen, PathsOf, PointsOf, MergeEvents;
    var files := ReachMore(2, 3);
    candidates := [SampleEntry(CompactedPath(2), 0, 2), SampleEntry(FlushPath(2), 2, 3)];
    assert [candidates[0]] + RoundsEntries(2, 3) == candidates;
    var quiet := Quiet(3, 0, candidates, files, 3);
    events := RoundsEvents(0, 2) + MergeEvents(RoundsEntries(0, 2)) + RoundsEvents(2, 3);
    AllChosen(candidates);
    StartedKeeps(quiet, candidates);
    s := WhileMerging(quiet, candidates);
    assert HoldStretches(candidates, files, [0, 2, 3]) by {
      assert HoldsStretch(RoundsEntries(2, 3)[0], files, Upwards(2, 3)[0], Upwards(2, 3)[1]);
    }
    UnionIs(candidates, files, [0, 2, 3]);
    added := MergeSample(quiet, candidates, 0, 3);
    finished, s' := AfterMerging(quiet, candidates, 0, 3), AfterMerge(quiet, candidates, 0, 3);
    PerformsOne(Empty(), events, quiet, StartCompaction(candidates), s);
    EngineCompaction.PathsOfMembers(candidates, CompactedPath(2));
    assert candidates[0] in candidates;
    CompactionNameExactly(s, 0, finished, added, s');
    FirstSampleIn(3);
    assert SegmentPoints(candidates, s.files, 0) != multiset{};
  }

  lemma UnionIs(candidates: seq<SegmentEntry>, files: map<Path, seq<byte>>, bounds: seq<nat>)
    requires HoldStretches(candidates, files, bounds) && candidates != []
    ensures bounds[0] < bounds[|candidates|] <= LIMIT
    ensures forall id: uint64 ::
              SegmentPoints(candidates, files, id) == PointsOf(SampleTable(bounds[0], bounds[|candidates|]), id)
  {
    StretchesUnion(candidates, files, bounds, 0);
    hide SampleTable, Compaction.UnionPoints, PointsOf, HoldStretches;
    forall id: uint64
      ensures SegmentPoints(candidates, files, id) == PointsOf(SampleTable(bounds[0], bounds[|candidates|]), id)
    {
      StretchesUnion(candidates, files, bounds, id);
    }
  }

  /** Five flushes, merged into compacted-5, and five more: the next compaction takes the
      five small segments and writes its output over the large one, which stays listed. */
  lemma ListedNameHappens() returns (events: seq<Event>, candidates: seq<SegmentEntry>, s: State, finished: State,
                                     added: State, s': State)
    ensures Performs(Empty(), events + [StartCompaction(candidates)], s)
    ensures events == RoundsEvents(0, 5) + MergeEvents(RoundsEntries(0, 5)) + RoundsEvents(5, 10)
    ensures candidates == RoundsEntries(5, 10)
    ensures Inv(s) && CompactionSteps(s, 0, finished, added, s')
    ensures CompactedPath(5) in PathsOf(s.segments) && CompactedPath(5) !in PathsOf(candidates)
    ensures !Balanced(s')
  {
    hide SampleFile, SampleTable, Inv, Performs, RoundsEvents, Compaction.UnionPoints, CompactionSteps, Balanced,
      Chosen, PathsOf, PointsOf, MergeEvents, HoldStretches, RoundsEntries;
    var files := ReachMore(5, 10);
    var m := SampleEntry(CompactedPath(5), 0, 5);
    candidates := RoundsEntries(5, 10);
    var quiet := Quiet(10, 0, [m] + candidates, files, 10);
    events := RoundsEvents(0, 5) + MergeEvents(RoundsEntries(0, 5)) + RoundsEvents(5, 10);
    SmallChosen(m);
    StartedKeeps(quiet, candidates);
    s := WhileMerging(quiet, candidates);
    UnionIs(candidates, files, Upwards(5, 10));
    added := MergeSample(quiet, candidates, 5, 10);
    finished, s' := AfterMerging(quiet, candidates, 5, 10), AfterMerge(quiet, candidates, 5, 10);
    PerformsOne(Empty(), events, quiet, StartCompaction(candidates), s);
    RoundsNames(5, 10);
    assert m in s.segments;
    EngineCompaction.PathsOfMembers(s.segments, CompactedPath(5));
    CompactionNameExactly(s, 0, finished, added, s');
    StretchPoints(m, files, 0, 5, 0);
    FirstSampleIn(5);
    NotInLater();
    assert PointsIn(m, s.files, 0) != SegmentPoints(candidates, s.files, 0);
  }

  lemma NotInLater()
    ensures PointsOf(SampleTable(5, 10), 0) == multiset{}
  {
  }

  lemma SmallChosen(m: SegmentEntry)
    requires m.seriesCount == 5
    ensures Chosen(RoundsEntries(5, 10), [m] + RoundsEntries(5, 10))
  {
    var small := RoundsEntries(5, 10);
    assert multiset([m] + small) - multiset(small) == multiset{m};
  }

  // ----- a failed flush, a second rotation, an offset past the synced log

  /** The store after a first flush failed and was given up. */
  ghost function GivenUp(): State {
    Empty().(log := SampleLog(1), start := 1, flushCount := 1)
  }

  function GiveUpEvents(): seq<Event> {
    [Write(SampleWrite(0)), Rotate] + [FailFlush(0, None), DiscardFlush(0)]
  }

  lemma ReachGivenUp()
    ensures Performs(Empty(), GiveUpEvents(), GivenUp()) && Inv(GivenUp())
  {
    hide SampleFile, SampleTable, SampleLog, Inv, OffsetOf, Performs, PathsOf;
    var start := Empty();
    var s := AfterRotate(start, 0);
    var failed := s.(flushes := [s.flushes[0].(status := FlushFailed)]);
    EmptyStore();
    RotatedKeeps(start, 0);
    assert s.flushes[0 := s.flushes[0].(status := FlushFailed)] == failed.flushes;
    assert Next(s, FailFlush(0, None), failed);
    EngineLive.FirstRemoved(failed.flushes);
    assert failed.flushes[1..] == [];
    assert Next(failed, DiscardFlush(0), GivenUp());
    NoListedNames();
    AlwaysAssumed(failed, DiscardFlush(0), GivenUp());
    hide Next;
    EngineRuns.StepKeeps(s, FailFlush(0, None), failed);
    EngineRuns.StepKeeps(failed, DiscardFlush(0), GivenUp());
    WriteSample(start, 0);
    RotateSample(start, 0);
    PerformsTwo(start, Write(SampleWrite(0)), AfterWrite(start, 0), Rotate, s);
    PerformsTwo(s, FailFlush(0, None), failed, DiscardFlush(0), GivenUp());
    PerformsThen(start, [Write(SampleWrite(0)), Rotate], s, [FailFlush(0, None), DiscardFlush(0)], GivenUp());
  }

  lemma NoListedNames()
    ensures PathsOf([]) == {}
  {
  }

  /** A failed flush is given up and a later one applied: the first write is lost. */
  lemma GapHappens() returns (events: seq<Event>, s: State, added: State, s': State)
    ensures events == GiveUpEvents() + [Write(SampleWrite(1)), Rotate] + [FinishFlush(0)]
    ensures Performs(Empty(), events, s)
    ensures Inv(s) && Next(s, AddFlushed(0), added) && Next(added, AdvanceOffset(0), s')
    ensures !Balanced(s')
  {
    hide SampleFile, SampleTable, Inv, OffsetOf, Performs, PathsOf, Balanced, NoPoints, FlushSized;
    ReachGivenUp();
    RotatedKeeps(GivenUp(), 1);
    PerformsRotation(Empty(), GiveUpEvents(), GivenUp(), 1);
    var rotated := AfterRotate(GivenUp(), 1);
    s := AfterFlush(rotated, 1);
    FinishSample(rotated, 1);
    NoListedNames();
    EngineRuns.StepKeeps(rotated, FinishFlush(0), s);
    events := GiveUpEvents() + [Write(SampleWrite(1)), Rotate] + [FinishFlush(0)];
    PerformsOne(Empty(), GiveUpEvents() + [Write(SampleWrite(1)), Rotate], rotated, FinishFlush(0), s);
    var entry := SampleEntry(FlushPath(1), 1, 2);
    added := s.(segments := [entry], phase := FlushAdded(0));
    s' := s.(segments := [entry], walOffset := s.flushes[0].walOff, durable := 2, frozen := None, flushes := []);
    assert s.segments + [entry] == [entry];
    ApplySample(s, entry, added, s');
    GapExactly(s, 0, added, s');
    SampleLogPoints(2, 0, 1, 0);
    FirstSampleIn(1);
    SomePoints(s.log[0..1], 0);
  }

  lemma SomePoints(log: seq<WritePayload>, id: uint64)
    requires LogPoints(log, id) != multiset{}
    ensures !NoPoints(log)
  {
  }

  /** Two rotations in a row: the first write is no longer visible. */
  lemma SecondRotationHappens() returns (events: seq<Event>, s: State, s': State)
    ensures events == [Write(SampleWrite(0)), Rotate, Write(SampleWrite(1))]
    ensures Performs(Empty(), events, s)
    ensures Inv(s) && EngineLive.InOrder(s) && EngineLive.FrozenInFlight(s) && Next(s, Rotate, s')
    ensures EngineLive.Complete(s, 0) && !EngineLive.Complete(s', 0)
  {
    hide SampleFile, SampleTable, Inv, OffsetOf, Performs, Next, EngineLive.Complete;
    var start := Empty();
    var rotated := AfterRotate(start, 0);
    EmptyStore();
    RotatedKeeps(start, 0);
    RotatedKeeps(rotated, 1);
    s, s' := AfterWrite(rotated, 1), AfterRotate(rotated, 1);
    WriteSample(start, 0);
    RotateSample(start, 0);
    WriteSample(rotated, 1);
    RotateSample(rotated, 1);
    PerformsTwo(start, Write(SampleWrite(0)), AfterWrite(start, 0), Rotate, rotated);
    PerformsOne(start, [Write(SampleWrite(0)), Rotate], rotated, Write(SampleWrite(1)), s);
    events := [Write(SampleWrite(0)), Rotate] + [Write(SampleWrite(1))];
    OneInFlight(s);
    EngineLive.OneFlushPoints(s, 0);
    EngineLive.VisibleExactly(s, 0);
    EngineLive.SecondRotationHides(s, s', 0);
    FirstSampleIn(1);
    NotComplete(s', PointsOf(SampleTable(0, 1), 0), 0);
  }

  lemma OneInFlight(s: State)
    requires |s.flushes| == 1 && s.flushes[0].lo == s.durable == 0 && s.flushes[0].hi == s.start == 1 && |s.log| == 2
    requires s.phase.Idle?
    ensures EngineLive.InOrder(s)
  {
    EngineLive.NoPointsNowhere();
    assert s.log[0..0] == [] && s.log[1..1] == [] && s.flushes[1..] == [];
  }

  lemma NotComplete(s: State, missing: multiset<Point>, id: uint64)
    requires missing != multiset{}
    requires EngineLive.Visible(s, id) + missing + FilePoints(s.dropped, id)
             == LogPoints(s.log, id) + FilePoints(s.extra, id)
    ensures !EngineLive.Complete(s, id)
  {
    hide EngineLive.Visible, FilePoints, LogPoints;
    var p :| p in missing;
    var all := LogPoints(s.log, id) + FilePoints(s.extra, id);
    assert (EngineLive.Visible(s, id) + missing + FilePoints(s.dropped, id))[p] == all[p];
    assert (EngineLive.Visible(s, id) + FilePoints(s.dropped, id))[p] + missing[p] == all[p];
  }

  /** A flush is applied, its log never synced; a crash takes the log. What is written and
      synced next is lost at the following crash. */
  lemma UnsyncedOffsetHappens() returns (events: seq<Event>, s': State)
    ensures events == RoundEvents(0) + [CrashAndRecover(0), Write(SampleWrite(1)), EngineState.Sync, CrashAndRecover(1)]
    ensures Performs(Empty(), events, s')
    ensures s'.log == [SampleWrite(1)] && s'.synced == 1 && s'.extra == [] && s'.dropped == []
    ensures LogPoints(s'.log, 1) == multiset{SamplePoint(1)} && EngineLive.Visible(s', 1) == multiset{}
  {
    hide SampleFile, SampleTable, SampleLog, OffsetOf, Performs, LogFile, Recovered, SampleWrite,
      Compaction.UnionPoints;
    var e := SampleEntry(FlushPath(0), 0, 1);
    var files := map[FlushPath(0) := SampleFile(0, 1)];
    Round(0, 0, [], map[], 0);
    assert [] + [e] == [e] && map[][FlushPath(0) := SampleFile(0, 1)] == files;
    s' := LostWrite(e, files);
    var start, s := Empty(), Quiet(1, 0, [e], files, 1);
    PerformsThen(start, RoundEvents(0), s, LostEvents(), s');
    events := RoundEvents(0) + LostEvents();
    LaterPoints(e, files);
  }

  function LostEvents(): seq<Event> {
    [CrashAndRecover(0), Write(SampleWrite(1)), EngineState.Sync, CrashAndRecover(1)]
  }

  lemma LaterPoints(e: SegmentEntry, files: map<Path, seq<byte>>)
    requires e.path in files && files[e.path] == SampleFile(0, 1)
    ensures LogPoints([SampleWrite(1)], 1) == multiset{SamplePoint(1)} && SegmentPoints([e], files, 1) == multiset{}
  {
    assert [SampleWrite(1)][..0] == [];
    assert HoldsStretch(e, files, 0, 1);
    assert [e][..0] == [];
    hide SampleFile, SampleTable, HoldsStretch;
    StretchPoints(e, files, 0, 1, 1);
    NotInFirst();
    UnionSnoc([], e, files, 1);
    assert [] + [e] == [e];
  }

  lemma NotInFirst()
    ensures PointsOf(SampleTable(0, 1), 1) == multiset{}
  {
  }

  lemma LostWrite(e: SegmentEntry, files: map<Path, seq<byte>>) returns (s': State)
    ensures Performs(Quiet(1, 0, [e], files, 1), LostEvents(), s')
    ensures s' == Quiet(1, 0, [e], files, 1).(log := [SampleWrite(1)], synced := 1, active := map[], flushCount := 0)
  {
    hide SampleTable, SampleLog, OffsetOf, Performs, LogFile, Recovered, FilesOf, SampleWrite, Next;
    var s := Quiet(1, 0, [e], files, 1);
    var later := [SampleWrite(1)];
    var crashed := s.(log := [], synced := 0, active := map[], start := 0, flushCount := 0);
    var written := crashed.(log := later, active := SampleTable(1, 2));
    var synced := written.(synced := 1);
    s' := s.(log := later, synced := 1, active := map[], flushCount := 0);
    NothingLeft();
    assert s.log[..0] == [] && later[..1] == later;
    CrashToNothing(s, 0, crashed);
    LaterWrite(crashed, written);
    SyncIs(written, synced);
    CrashToNothing(synced, 1, s');
    PerformsTwo(s, CrashAndRecover(0), crashed, Write(SampleWrite(1)), written);
    PerformsTwo(written, EngineState.Sync, synced, CrashAndRecover(1), s');
    PerformsThen(s, [CrashAndRecover(0), Write(SampleWrite(1))], written, [EngineState.Sync, CrashAndRecover(1)], s');
    assert [CrashAndRecover(0), Write(SampleWrite(1))] + [EngineState.Sync, CrashAndRecover(1)] == LostEvents();
  }

  lemma CrashToNothing(s: State, k: nat, s': State)
    requires s.phase.Idle? && s.synced <= k <= |s.log| && Recovered(LogFile(s.log[..k]), s.walOffset) == Ok([])
    requires s' == s.(log := s.log[..k], synced := k, active := map[], start := if s.durable <= k then s.durable else k,
                      frozen := None, flushes := [], compactions := [], flushCount := 0)
    ensures Next(s, CrashAndRecover(k), s')
  {
    hide Recovered, LogFile;
    EngineResults.NoFiles(s.files);
    assert s.extra + [] == s.extra;
  }

  lemma LaterWrite(s: State, s': State)
    requires s.phase.Idle? && s.log == [] && s.active == map[]
    requires s' == s.(log := [SampleWrite(1)], active := SampleTable(1, 2))
    ensures Next(s, Write(SampleWrite(1)), s')
  {
    SampleShape(1, 2);
    SampleAdded(1);
    hide SampleTable;
    assert [] + [SampleWrite(1)] == [SampleWrite(1)];
  }

  lemma SyncIs(s: State, s': State)
    requires s' == s.(synced := |s.log|)
    ensures Next(s, EngineState.Sync, s')
  {
  }

  /** The saved offset is where a log of one sampled write ends. */
  lemma NothingLeft()
    ensures Recovered(LogFile([]), OffsetOf(SampleLog(1), 1)) == Ok([])
    ensures Recovered(LogFile([SampleWrite(1)]), OffsetOf(SampleLog(1), 1)) == Ok([])
  {
    OneRecord(0);
    OneRecord(1);
    assert SampleLog(1) == [SampleWrite(0)];
    assert Records(SampleLog(1))[..1] == Records(SampleLog(1));
    Wal.EmptyLog(Records([]));
    hide LogFile, SampleWrite;
    Wal.BeyondEnd(LogFile([]), OffsetOf(SampleLog(1), 1));
    Wal.BeyondEnd(LogFile([SampleWrite(1)]), OffsetOf(SampleLog(1), 1));
  }

  lemma OneRecord(j: nat)
    requires j < LIMIT
    ensures |LogFile([SampleWrite(j)])| == 36
  {
    hide SampleWrite, Wal.Record, Encode;
    SampleRecord(j);
    var records := Records([SampleWrite(j)]);
    assert records == [Encode(SampleWrite(j))];
    Wal.LogBytesSnoc([], records[0]);
    assert [] + [records[0]] == records;
    Wal.EmptyLog([]);
  }
}
