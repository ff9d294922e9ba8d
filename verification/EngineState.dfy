/** The storage engine as a state machine (internal/engine/engine.go): what the event loop,
    the flush and compaction goroutines, the log's fsync loop and a crash do to the
    memtables, the log, the manifest and the segment files. */
module EngineState {
  import opened Words
  import opened Points
  import opened Tables
  import opened Manifest
  import opened Payload
  import opened EngineLog
  import Retention
  import Compaction
  import Segment
  import StoredTables
  import Wal

  /** A rotated memtable on its way to a segment: the log records it stands for are
      lo..hi, walOff is the offset captured at rotation. */
  datatype Flush = Flush(table: Table, n: nat, ghost lo: nat, ghost hi: nat, walOff: nat, status: FlushStatus)
  datatype FlushStatus = Flushing | Written(entry: SegmentEntry) | NothingToWrite | FlushFailed

  /** A compaction between its start and the application of its result. */
  datatype Run = Compacting(candidates: seq<SegmentEntry>)
               | Compacted(candidates: seq<SegmentEntry>, entry: SegmentEntry)
               | CompactionFailed(candidates: seq<SegmentEntry>)

  /** Applying a result saves the manifest twice; a crash may fall between the saves. */
  datatype Phase = Idle | FlushAdded(i: nat) | CompactionAdded(i: nat)

  datatype State = State(
    log: seq<WritePayload>,       // every write in the log file, oldest first
    synced: nat,                  // how many of them are known to be fsynced
    active: Table,
    start: nat,                   // the first log record that active stands for
    frozen: Option<Table>,
    flushes: seq<Flush>,          // started and not yet applied, oldest first
    compactions: seq<Run>,
    segments: seq<SegmentEntry>,  // the manifest, as saved
    walOffset: nat,
    files: map<Path, seq<byte>>,
    flushCount: nat,
    phase: Phase,
    durable: nat,                 // history: the log records that walOffset covers
    dropped: seq<seq<byte>>,      // history: the files that retention removed
    extra: seq<seq<byte>>)        // history: the files a crash between two saves left counted twice

  datatype Event =
    | Write(p: WritePayload)
    | Sync
    | Rotate
    | FinishFlush(i: nat)
    | FailFlush(i: nat, leftover: Option<seq<byte>>)
    | DiscardFlush(i: nat)
    | AddFlushed(i: nat)
    | AdvanceOffset(i: nat)
    | StartCompaction(candidates: seq<SegmentEntry>)
    | FinishCompaction(i: nat)
    | FailCompaction(i: nat)
    | DiscardCompaction(i: nat)
    | AddCompacted(i: nat)
    | RemoveCandidates(i: nat)
    | Retain(cutoff: int)
    | CrashAndRecover(k: nat)

  // ----- sums over files and flushes

  ghost function SegmentPoints(segments: seq<SegmentEntry>, files: map<Path, seq<byte>>, id: uint64): multiset<Point> {
    Compaction.UnionPoints(segments, files, id)
  }

  ghost function FilePoints(fs: seq<seq<byte>>, id: uint64): multiset<Point> {
    if fs == [] then multiset{}
    else FilePoints(fs[..|fs| - 1], id) + PointsOf(StoredTables.Content(fs[|fs| - 1]), id)
  }

  ghost function FlushPoints(flushes: seq<Flush>, id: uint64): multiset<Point> {
    if flushes == [] then multiset{} else PointsOf(flushes[0].table, id) + FlushPoints(flushes[1..], id)
  }

  function PathsOf(entries: seq<SegmentEntry>): set<Path> {
    set e | e in entries :: e.path
  }

  /** The files of the listed entries, in order. */
  function FilesOf(entries: seq<SegmentEntry>, files: map<Path, seq<byte>>): seq<seq<byte>> {
    if entries == [] then []
    else
      var n := |entries| - 1;
      FilesOf(entries[..n], files) + if entries[n].path in files then [files[entries[n].path]] else []
  }

  function RemoveAt<T>(s: seq<T>, i: nat): seq<T>
    requires i < |s|
  {
    s[..i] + s[i + 1..]
  }

  /** The entry that is in the manifest although the save that accounts for it is still to
      come. */
  function MidEntry(s: State): seq<SegmentEntry> {
    match s.phase
    case Idle => []
    case FlushAdded(i) =>
      if i < |s.flushes| && s.flushes[i].status.Written? then [s.flushes[i].status.entry] else []
    case CompactionAdded(i) =>
      if i < |s.compactions| && s.compactions[i].Compacted? then [s.compactions[i].entry] else []
  }

  // ----- what the code does

  /** The flush that a rotation starts, with the log's offset at that moment. */
  ghost function NewFlush(s: State): Flush {
    Flush(s.active, s.flushCount, s.start, |s.log|, OffsetOf(s.log, |s.log|), Flushing)
  }

  /** What a flush goroutine wrote from its table, whose series it met in some order. */
  ghost predicate FlushWritten(f: Flush, entry: SegmentEntry, file: seq<byte>, list: seq<Segment.SeriesPoints>) {
    && Segment.SortedById(list) && StoredTables.Lists(multiset(list), f.table)
    && Compaction.Bounds(f.table, entry.blockStart, entry.blockEnd)
    && file == Segment.FileBytes(1, list, entry.blockStart, entry.blockEnd)
    && entry.path == FlushPath(f.n) && entry.seriesCount == |f.table|
  }

  /** What a compaction goroutine wrote from its candidates. */
  ghost predicate CompactionWritten(candidates: seq<SegmentEntry>, files: map<Path, seq<byte>>, entry: SegmentEntry,
                                    file: seq<byte>,
                                    t: Table, list: seq<Segment.SeriesPoints>) {
    entry.path == CompactedPath(|candidates|) && Compaction.Compacted(candidates, files, entry, file, t, list)
  }

  /** The candidates of a compaction: at least two, at most five, the ones with the fewest
      series. */
  ghost predicate Chosen(candidates: seq<SegmentEntry>, segments: seq<SegmentEntry>) {
    && |segments| >= 2 && |candidates| == (if |segments| < 5 then |segments| else 5)
    && Compaction.Fewest(candidates, segments)
  }

  /** One event, as the code performs it. */
  ghost predicate Next(s: State, e: Event, s': State) {
    match e
    case Write(p) =>
      && s.phase.Idle?
      && Added(s.active, s'.active, p.id, p.points) && Ordered(s'.active)
      && (s'.synced == s.synced || s'.synced == |s.log| + 1)
      && s' == s.(log := s.log + [p], active := s'.active, synced := s'.synced)
    case Sync => s' == s.(synced := |s.log|)
    case Rotate =>
      && s.phase.Idle?
      && s' == s.(flushes := s.flushes + [NewFlush(s)],
                  frozen := Some(s.active), active := map[], start := |s.log|, flushCount := s.flushCount + 1)
    case FinishFlush(i) =>
      && i < |s.flushes| && s.flushes[i].status.Flushing?
      && var f := s.flushes[i];
      if f.table == map[] then s' == s.(flushes := s.flushes[i := f.(status := NothingToWrite)])
      else
        && i < |s'.flushes| && s'.flushes[i].status.Written?
        && FlushPath(f.n) in s'.files
        && (exists list :: FlushWritten(f, s'.flushes[i].status.entry, s'.files[FlushPath(f.n)], list))
        && s' == s.(flushes := s.flushes[i := f.(status := s'.flushes[i].status)],
                    files := s.files[FlushPath(f.n) := s'.files[FlushPath(f.n)]])
    case FailFlush(i, leftover) =>
      && i < |s.flushes| && s.flushes[i].status.Flushing?
      && s' == s.(flushes := s.flushes[i := s.flushes[i].(status := FlushFailed)],
                  files := if leftover.None? then s.files else s.files[FlushPath(s.flushes[i].n) := leftover.value])
    case DiscardFlush(i) =>
      && s.phase.Idle? && i < |s.flushes|
      && (s.flushes[i].status.NothingToWrite? || s.flushes[i].status.FlushFailed?)
      && s' == s.(flushes := RemoveAt(s.flushes, i), frozen := None)
    case AddFlushed(i) =>
      && s.phase.Idle? && i < |s.flushes| && s.flushes[i].status.Written?
      && s' == s.(segments := s.segments + [s.flushes[i].status.entry], phase := FlushAdded(i))
    case AdvanceOffset(i) =>
      && s.phase == FlushAdded(i) && i < |s.flushes|
      && s' == s.(walOffset := s.flushes[i].walOff, durable := s.flushes[i].hi, frozen := None,
                  flushes := RemoveAt(s.flushes, i), phase := Idle)
    case StartCompaction(candidates) =>
      && s.phase.Idle? && Chosen(candidates, s.segments)
      && s' == s.(compactions := s.compactions + [Compacting(candidates)])
    case FinishCompaction(i) =>
      && i < |s.compactions| && s.compactions[i].Compacting?
      && var candidates := s.compactions[i].candidates;
      var path := CompactedPath(|candidates|);
      && i < |s'.compactions| && s'.compactions[i].Compacted?
      && path in s'.files
      && (exists t, list :: CompactionWritten(candidates, s.files, s'.compactions[i].entry, s'.files[path], t, list))
      && s' == s.(compactions := s.compactions[i := Compacted(candidates, s'.compactions[i].entry)],
                  files := s.files[path := s'.files[path]])
    case FailCompaction(i) =>
      && i < |s.compactions| && s.compactions[i].Compacting?
      && s' == s.(compactions := s.compactions[i := CompactionFailed(s.compactions[i].candidates)])
    case DiscardCompaction(i) =>
      && s.phase.Idle? && i < |s.compactions| && s.compactions[i].CompactionFailed?
      && s' == s.(compactions := RemoveAt(s.compactions, i))
    case AddCompacted(i) =>
      && s.phase.Idle? && i < |s.compactions| && s.compactions[i].Compacted?
      && s' == s.(segments := s.segments + [s.compactions[i].entry], phase := CompactionAdded(i))
    case RemoveCandidates(i) =>
      && s.phase == CompactionAdded(i) && i < |s.compactions|
      && var old' := PathsOf(s.compactions[i].candidates);
      s' == s.(segments := Without(s.segments, old'), files := s.files - old',
               compactions := RemoveAt(s.compactions, i), phase := Idle)
    case Retain(cutoff) =>
      && s.phase.Idle?
      && var removed := Retention.Select(s.segments, cutoff, true);
      s' == s.(segments := Without(s.segments, PathsOf(removed)), files := s.files - PathsOf(removed),
               dropped := s.dropped + FilesOf(removed, s.files))
    case CrashAndRecover(k) =>
      && s.synced <= k <= |s.log|
      && var r := Recovered(LogFile(s.log[..k]), s.walOffset);
      && r.Ok? && Ordered(s'.active) && (forall id: uint64 :: PointsOf(s'.active, id) == LogPoints(r.value, id))
      && s' == s.(log := s.log[..k], synced := k, active := s'.active, start := if s.durable <= k then s.durable else k,
                  frozen := None, flushes := [], compactions := [], flushCount := 0, phase := Idle,
                  extra := s.extra + FilesOf(MidEntry(s), s.files))
  }

  // ----- what is assumed of a run

  /** The flush's output meets the size limits of the format. */
  ghost predicate FlushSized(f: Flush, entry: SegmentEntry, file: seq<byte>) {
    exists list :: FlushWritten(f, entry, file, list) && StoredTables.WellSized(list)
  }

  ghost predicate CompactionSized(candidates: seq<SegmentEntry>, files: map<Path, seq<byte>>, entry: SegmentEntry,
                                  file: seq<byte>) {
    exists t, list :: CompactionWritten(candidates, files, entry, file, t, list) && StoredTables.WellSized(list)
  }

  /** The hypotheses about writes, files, compactions and crashes: writes the log can
      frame, output files under paths the manifest does not list and within the size limits
      of the format, one compaction at a time and no retention of its candidates, and
      after a crash a clean log tail that reaches the saved offset. */
  ghost predicate Assumed(s: State, e: Event, s': State) {
    match e
    case Write(p) => Wal.Loggable(Encode(p))
    case FinishFlush(i) =>
      i < |s.flushes| && i < |s'.flushes| &&
      (s'.flushes[i].status.Written? ==>
        var f, entry := s.flushes[i], s'.flushes[i].status.entry;
        && FlushPath(f.n) !in PathsOf(s.segments) && FlushPath(f.n) in s'.files
        && FlushSized(f, entry, s'.files[FlushPath(f.n)]))
    case FailFlush(i, leftover) => i < |s.flushes| && FlushPath(s.flushes[i].n) !in PathsOf(s.segments)
    case StartCompaction(candidates) => s.compactions == []
    case FinishCompaction(i) =>
      i < |s.compactions| && i < |s'.compactions| &&
      (s'.compactions[i].Compacted? ==>
        var candidates, entry := s.compactions[i].candidates, s'.compactions[i].entry;
        var path := CompactedPath(|candidates|);
        && path !in PathsOf(s.segments) && path in s'.files
        && CompactionSized(candidates, s.files, entry, s'.files[path]))
    case Retain(cutoff) =>
      forall run :: run in s.compactions ==>
        PathsOf(Retention.Select(s.segments, cutoff, true)) !! PathsOf(run.candidates)
    case CrashAndRecover(k) => s.durable <= k
    case _ => true
  }

  /** The hypothesis about flush results: one is applied only when the log records before
      it are accounted for. */
  ghost predicate GapFree(s: State, lo: nat) {
    s.durable <= lo <= |s.log| && NoPoints(s.log[s.durable..lo])
  }

  ghost predicate AppliedWithoutGap(s: State, e: Event) {
    e.AddFlushed? ==> e.i < |s.flushes| && GapFree(s, s.flushes[e.i].lo)
  }

  ghost predicate Step(s: State, e: Event, s': State) {
    Next(s, e, s') && Assumed(s, e, s') && AppliedWithoutGap(s, e)
  }

  /** A new store: nothing on disk. */
  ghost predicate Init(s: State) {
    s == State([], 0, map[], 0, None, [], [], [], 0, map[], 0, Idle, 0, [], [])
  }

  /** States connected by steps. */
  ghost predicate IsRun(states: seq<State>, events: seq<Event>) {
    && |states| == |events| + 1 && Init(states[0])
    && forall i :: 0 <= i < |events| ==> Step(states[i], events[i], states[i + 1])
  }
}
