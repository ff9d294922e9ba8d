/** Flush results applied in rotation order leave no gap, and with one flush in flight a
    query sees every acknowledged point. */
module EngineLive {
  import opened Words
  import opened Points
  import opened Tables
  import opened Payload
  import opened EngineLog
  import opened EngineState
  import opened EngineSums
  import opened EngineInvariant
  import opened EngineResults
  import EngineRuns
  import Compaction

  // ----- rotation order

  /** Results are applied in rotation order and no failed flush is given up. */
  ghost predicate Orderly(s: State, e: Event) {
    && (e.AddFlushed? ==> e.i == 0)
    && (e.DiscardFlush? ==> e.i < |s.flushes| && s.flushes[e.i].status.NothingToWrite?)
  }

  /** The flushes in flight cover the log from record `from` to the active memtable's
      start, without a gap that holds points. */
  ghost predicate ChainFrom(flushes: seq<Flush>, log: seq<WritePayload>, from: nat, start: nat) {
    if flushes == [] then from <= start <= |log| && NoPoints(log[from..start])
    else
      var f := flushes[0];
      from <= f.lo <= f.hi <= |log| && NoPoints(log[from..f.lo]) && ChainFrom(flushes[1..], log, f.hi, start)
  }

  ghost predicate InOrder(s: State) {
    ChainFrom(s.flushes, s.log, s.durable, s.start) && (s.phase.FlushAdded? ==> s.phase.i == 0)
  }

  lemma {:induction false} ChainBounds(flushes: seq<Flush>, log: seq<WritePayload>, from: nat, start: nat)
    requires ChainFrom(flushes, log, from, start)
    ensures from <= start <= |log|
  {
    if flushes != [] {
      ChainBounds(flushes[1..], log, flushes[0].hi, start);
    }
  }

  lemma SliceOfPrefix<T>(a: seq<T>, b: seq<T>, n: nat, i: nat, j: nat)
    requires i <= j <= n && n <= |a| && n <= |b| && a[..n] == b[..n]
    ensures a[i..j] == b[i..j]
  {
    assert a[i..j] == a[..n][i..j] && b[i..j] == b[..n][i..j];
  }

  lemma {:induction false} ChainInPrefix(flushes: seq<Flush>, log: seq<WritePayload>, from: nat, start: nat,
      log': seq<WritePayload>)
    requires ChainFrom(flushes, log, from, start) && start <= |log| && start <= |log'| && log[..start] == log'[..start]
    ensures ChainFrom(flushes, log', from, start)
  {
    hide NoPoints;
    if flushes == [] {
      SliceOfPrefix(log, log', start, from, start);
    } else {
      var f := flushes[0];
      ChainBounds(flushes[1..], log, f.hi, start);
      ChainInPrefix(flushes[1..], log, f.hi, start, log');
      SliceOfPrefix(log, log', start, from, f.lo);
    }
  }

  lemma {:induction false} ChainGrows(flushes: seq<Flush>, log: seq<WritePayload>, from: nat, start: nat, f: Flush)
    requires ChainFrom(flushes, log, from, start) && f.lo == start && f.hi == |log|
    ensures ChainFrom(flushes + [f], log, from, |log|)
  {
    if flushes == [] {
      assert flushes + [f] == [f] && [f][1..] == [];
      assert log[|log|..|log|] == [];
    } else {
      ChainGrows(flushes[1..], log, flushes[0].hi, start, f);
      assert (flushes + [f])[1..] == flushes[1..] + [f];
    }
  }

  lemma {:induction false} ChainChanges(flushes: seq<Flush>, log: seq<WritePayload>, from: nat, start: nat, i: nat,
      status: FlushStatus)
    requires ChainFrom(flushes, log, from, start) && i < |flushes|
    ensures ChainFrom(flushes[i := flushes[i].(status := status)], log, from, start)
  {
    hide NoPoints;
    var flushes' := flushes[i := flushes[i].(status := status)];
    if i == 0 {
      assert flushes'[1..] == flushes[1..];
    } else {
      ChainChanges(flushes[1..], log, flushes[0].hi, start, i - 1, status);
      assert flushes'[1..] == flushes[1..][i - 1 := flushes[i].(status := status)];
    }
  }

  lemma {:induction false} ChainWidens(flushes: seq<Flush>, log: seq<WritePayload>, from: nat, mid: nat, start: nat)
    requires ChainFrom(flushes, log, mid, start) && from <= mid <= |log| && NoPoints(log[from..mid])
    ensures ChainFrom(flushes, log, from, start)
  {
    hide NoPoints;
    if flushes == [] {
      NoPointsSplit(log, from, mid, start);
    } else {
      NoPointsSplit(log, from, mid, flushes[0].lo);
    }
  }

  lemma {:induction false} ChainDrops(flushes: seq<Flush>, log: seq<WritePayload>, from: nat, start: nat, i: nat)
    requires ChainFrom(flushes, log, from, start) && i < |flushes|
    requires flushes[i].lo <= flushes[i].hi <= |log| && NoPoints(log[flushes[i].lo..flushes[i].hi])
    ensures ChainFrom(RemoveAt(flushes, i), log, from, start)
  {
    hide NoPoints;
    if i == 0 {
      assert RemoveAt(flushes, i) == flushes[1..];
      NoPointsSplit(log, from, flushes[0].lo, flushes[0].hi);
      ChainWidens(flushes[1..], log, from, flushes[0].hi, start);
    } else {
      ChainDrops(flushes[1..], log, flushes[0].hi, start, i - 1);
      assert RemoveAt(flushes, i)[1..] == RemoveAt(flushes[1..], i - 1);
    }
  }

  lemma EmptyHasNoPoints(t: Table, log: seq<WritePayload>, lo: nat, hi: nat)
    requires Represents(t, log, lo, hi) && t == map[]
    ensures NoPoints(log[lo..hi])
  {
    hide LogPoints, Ordered;
    forall id: uint64
      ensures LogPoints(log[lo..hi], id) == multiset{}
    {
      assert PointsOf(t, id) == multiset{};
    }
  }

  lemma DiscardInOrder(s: State, i: nat, s': State)
    requires Inv(s) && InOrder(s) && Next(s, DiscardFlush(i), s') && Orderly(s, DiscardFlush(i))
    ensures InOrder(s')
  {
    hide ChainFrom, Represents, SegmentsStored, FlushesMatch, FlushesStored, RunsMatch, Conserved, LogMatches,
      NoPoints, RemoveAt, PhaseMatches;
    var f := s.flushes[i];
    assert f in s.flushes;
    FlushParts(s, f);
    EmptyHasNoPoints(f.table, s.log, f.lo, f.hi);
    RangeOf(f.table, s.log, f.lo, f.hi);
    ChainDrops(s.flushes, s.log, s.durable, s.start, i);
  }

  lemma RangeOf(t: Table, log: seq<WritePayload>, lo: nat, hi: nat)
    requires Represents(t, log, lo, hi)
    ensures lo <= hi <= |log|
  {
    hide Ordered, LogPoints;
  }

  lemma CrashInOrder(s: State, k: nat, s': State)
    requires Next(s, CrashAndRecover(k), s') && s.durable <= k
    ensures InOrder(s')
  {
    hide LogPoints, FilesOf;
    assert s.log[..k][s.durable..s.durable] == [];
    NoPointsNowhere();
  }

  lemma NoPointsNowhere()
    ensures NoPoints([])
  {
  }

  /** Results applied in order never skip points of the log: the gap hypothesis is a
      consequence. */
  lemma OrderlyStep(s: State, e: Event, s': State)
    requires Inv(s) && InOrder(s) && Next(s, e, s') && Assumed(s, e, s') && Orderly(s, e)
    ensures AppliedWithoutGap(s, e) && InOrder(s')
  {
    hide Inv, ChainFrom, NoPoints, FlushWritten, CompactionWritten, PathsOf, RemoveAt, Compaction.UnionPoints,
      FilesOf, Added, Ordered, OffsetOf;
    EngineBounds(s);
    match e
    case Write(p) =>
      assert s'.log[..s.start] == s.log[..s.start];
      ChainInPrefix(s.flushes, s.log, s.durable, s.start, s'.log);
    case Rotate => ChainGrows(s.flushes, s.log, s.durable, s.start, s'.flushes[|s.flushes|]);
    case FinishFlush(i) => ChainChanges(s.flushes, s.log, s.durable, s.start, i, s'.flushes[i].status);
    case FailFlush(i, leftover) => ChainChanges(s.flushes, s.log, s.durable, s.start, i, FlushFailed);
    case DiscardFlush(i) => DiscardInOrder(s, i, s');
    case AddFlushed(i) => ChainHead(s.flushes, s.log, s.durable, s.start);
    case AdvanceOffset(i) =>
      ChainHead(s.flushes, s.log, s.durable, s.start);
      FirstRemoved(s.flushes);
    case CrashAndRecover(k) => CrashInOrder(s, k, s');
    case _ => OtherInOrder(s, e, s');
  }

  lemma OtherInOrder(s: State, e: Event, s': State)
    requires InOrder(s) && Next(s, e, s')
    requires || e.Sync? || e.StartCompaction? || e.FinishCompaction? || e.FailCompaction? || e.DiscardCompaction?
             || e.AddCompacted? || e.RemoveCandidates? || e.Retain?
    ensures InOrder(s')
  {
    hide ChainFrom, CompactionWritten, PathsOf, RemoveAt, FilesOf;
  }

  lemma FirstRemoved<T>(s: seq<T>)
    requires s != []
    ensures RemoveAt(s, 0) == s[1..]
  {
  }

  lemma ChainHead(flushes: seq<Flush>, log: seq<WritePayload>, from: nat, start: nat)
    requires ChainFrom(flushes, log, from, start) && flushes != []
    ensures from <= flushes[0].lo <= |log| && NoPoints(log[from..flushes[0].lo])
    ensures ChainFrom(flushes[1..], log, flushes[0].hi, start)
  {
    hide NoPoints;
  }

  lemma EngineBounds(s: State)
    requires Inv(s)
    ensures s.durable <= s.start <= |s.log|
  {
    hide Represents, SegmentsStored, FlushesStored, RunsMatch, FlushesMatch, Conserved, PhaseMatches, AllLoggable,
      OffsetOf;
  }

  /** A run in which results are applied in rotation order. */
  ghost predicate IsOrderlyRun(states: seq<State>, events: seq<Event>) {
    && |states| == |events| + 1 && Init(states[0])
    && forall i :: 0 <= i < |events| ==>
      Next(states[i], events[i], states[i + 1]) && Assumed(states[i], events[i], states[i + 1]) &&
      Orderly(states[i], events[i])
  }

  lemma {:induction false} OrderlyPrefix(states: seq<State>, events: seq<Event>, i: nat)
    requires IsOrderlyRun(states, events) && i < |states|
    ensures Inv(states[i]) && InOrder(states[i])
    ensures forall j :: 0 <= j < i ==> Step(states[j], events[j], states[j + 1])
  {
    hide Inv, InOrder, Init, Next, Assumed, Orderly, AppliedWithoutGap;
    if i == 0 {
      EngineRuns.InitHolds(states[0]);
      InitInOrder(states[0]);
    } else {
      OrderlyPrefix(states, events, i - 1);
      OrderlyStep(states[i - 1], events[i - 1], states[i]);
      EngineRuns.StepKeeps(states[i - 1], events[i - 1], states[i]);
    }
  }

  lemma InitInOrder(s: State)
    requires Init(s)
    ensures InOrder(s)
  {
    assert s.log[0..0] == [];
    NoPointsNowhere();
  }

  /** Runs in rotation order are runs in the sense of the safety theorems. */
  lemma OrderlyRunIsRun(states: seq<State>, events: seq<Event>)
    requires IsOrderlyRun(states, events)
    ensures IsRun(states, events)
  {
    hide Inv, InOrder, Init, Step, Next, Assumed, Orderly;
    OrderlyPrefix(states, events, |events|);
  }

  // ----- the live view

  ghost function FrozenPoints(s: State, id: uint64): multiset<Point> {
    if s.frozen.None? then multiset{} else PointsOf(s.frozen.value, id)
  }

  /** What a query finds of a series: active and frozen memtable and all segments. */
  ghost function Visible(s: State, id: uint64): multiset<Point> {
    PointsOf(s.active, id) + FrozenPoints(s, id) + SegmentPoints(s.segments, s.files, id)
  }

  /** No point is missing or doubled, but for retention and earlier crashes between saves. */
  ghost predicate Complete(s: State, id: uint64) {
    Visible(s, id) + FilePoints(s.dropped, id) == LogPoints(s.log, id) + FilePoints(s.extra, id)
  }

  lemma {:induction false} ChainPoints(flushes: seq<Flush>, log: seq<WritePayload>, from: nat, start: nat, id: uint64)
    requires ChainFrom(flushes, log, from, start) && from <= start <= |log|
    requires forall f :: f in flushes ==> Represents(f.table, log, f.lo, f.hi)
    ensures LogPoints(log[from..start], id) == FlushPoints(flushes, id)
  {
    hide LogPoints, Ordered;
    if flushes != [] {
      var f := flushes[0];
      assert f in flushes;
      ChainBounds(flushes[1..], log, f.hi, start);
      ChainPoints(flushes[1..], log, f.hi, start, id);
      LogPointsSplit(log, from, f.hi, start, id);
      LogPointsSplit(log, from, f.lo, f.hi, id);
    }
  }

  lemma AllRepresent(s: State)
    requires FlushesMatch(s.flushes, s.log, s.start, s.flushCount)
    ensures forall f :: f in s.flushes ==> Represents(f.table, s.log, f.lo, f.hi)
  {
    hide Represents, OffsetOf;
  }

  /** The whole log is in segments, in flight, or active. */
  lemma LogAccounted(s: State, id: uint64)
    requires Inv(s) && InOrder(s) && s.phase.Idle?
    ensures PointsOf(s.active, id) + FlushPoints(s.flushes, id) + SegmentPoints(s.segments, s.files, id)
            + FilePoints(s.dropped, id)
         == LogPoints(s.log, id) + FilePoints(s.extra, id)
  {
    hide LogPoints, Represents, ChainFrom, FlushPoints, FilePoints, Compaction.UnionPoints, FilesOf, FlushesMatch,
      FlushesStored, SegmentsStored, RunsMatch, LogMatches;
    EngineBounds(s);
    AllRepresent(s);
    ChainPoints(s.flushes, s.log, s.durable, s.start, id);
    ActivePoints(s, id);
    NoFiles(s.files);
    NoFilePoints();
    LogPointsSplit(s.log, 0, s.durable, s.start, id);
    LogPointsSplit(s.log, 0, s.start, |s.log|, id);
    assert s.log[0..s.durable] == s.log[..s.durable] && s.log[0..|s.log|] == s.log;
    var a, f := PointsOf(s.active, id), FlushPoints(s.flushes, id);
    Collect(a, f, SegmentPoints(s.segments, s.files, id), FilePoints(s.dropped, id),
            LogPoints(s.log[..s.durable], id), FilePoints(s.extra, id));
  }

  lemma ActivePoints(s: State, id: uint64)
    requires Inv(s)
    ensures PointsOf(s.active, id) == LogPoints(s.log[s.start..|s.log|], id)
  {
    hide LogPoints, FlushesMatch, FlushesStored, SegmentsStored, RunsMatch, LogMatches, Conserved, PhaseMatches,
      Ordered;
  }

  lemma Collect<T>(a: multiset<T>, f: multiset<T>, s: multiset<T>, d: multiset<T>, l: multiset<T>, x: multiset<T>)
    requires s + d == l + x + multiset{}
    ensures a + f + s + d == l + f + a + x
  {
    assert a + f + s + d == (s + d) + (a + f);
  }

  lemma Cancel<T>(a: multiset<T>, f: multiset<T>, g: multiset<T>, s: multiset<T>, d: multiset<T>)
    ensures a + f + s + d == a + g + s + d <==> f == g
  {
    if a + f + s + d == a + g + s + d {
      forall p: T
        ensures f[p] == g[p]
      {
        assert (a + f + s + d)[p] == (a + g + s + d)[p];
      }
    }
  }

  /** With results applied in order, a query sees exactly the acknowledged points if and
      only if the frozen memtable stands for all flushes in flight. */
  lemma VisibleExactly(s: State, id: uint64)
    requires Inv(s) && InOrder(s) && s.phase.Idle?
    ensures Complete(s, id) <==> FrozenPoints(s, id) == FlushPoints(s.flushes, id)
  {
    hide Inv, InOrder, LogPoints, FlushPoints, FilePoints, Compaction.UnionPoints, PointsOf, FrozenPoints;
    LogAccounted(s, id);
    Cancel(PointsOf(s.active, id), FrozenPoints(s, id), FlushPoints(s.flushes, id),
           SegmentPoints(s.segments, s.files, id), FilePoints(s.dropped, id));
  }

  /** At most one flush in flight, and it is the frozen memtable's. */
  ghost predicate FrozenInFlight(s: State) {
    if s.frozen.None? then s.flushes == [] else |s.flushes| == 1 && s.flushes[0].table == s.frozen.value
  }

  ghost predicate SingleFlight(s: State, e: Event) {
    e.Rotate? ==> s.flushes == []
  }

  predicate ChangesStatus(e: Event) {
    e.FinishFlush? || e.FailFlush?
  }

  predicate ClearsFrozen(e: Event) {
    e.DiscardFlush? || e.AdvanceOffset? || e.CrashAndRecover?
  }

  lemma FrozenUntouched(s: State, e: Event, s': State)
    requires Next(s, e, s') && !e.Rotate? && !ChangesStatus(e) && !ClearsFrozen(e)
    ensures s'.flushes == s.flushes && s'.frozen == s.frozen
  {
    hide FlushWritten, CompactionWritten, PathsOf, Compaction.UnionPoints, FilesOf, Added, Ordered, OffsetOf,
      LogPoints;
  }

  lemma StatusChanged(s: State, e: Event, s': State)
    requires Next(s, e, s') && ChangesStatus(e)
    ensures s'.frozen == s.frozen && |s'.flushes| == |s.flushes|
    ensures forall j :: 0 <= j < |s.flushes| ==> s'.flushes[j].table == s.flushes[j].table
  {
    hide FlushWritten, Ordered;
  }

  lemma FrozenCleared(s: State, e: Event, s': State)
    requires Next(s, e, s') && ClearsFrozen(e)
    ensures s'.frozen == None && (s'.flushes == [] || |s'.flushes| == |s.flushes| - 1)
  {
    hide FilesOf, LogPoints, Ordered;
  }

  lemma FrozenFollows(s: State, e: Event, s': State)
    requires FrozenInFlight(s) && Next(s, e, s') && SingleFlight(s, e)
    ensures FrozenInFlight(s')
  {
    if e.Rotate? {
    } else {
      hide Next;
      if ChangesStatus(e) {
        StatusChanged(s, e, s');
      } else if ClearsFrozen(e) {
        FrozenCleared(s, e, s');
      } else {
        FrozenUntouched(s, e, s');
      }
    }
  }

  lemma {:induction false} FrozenThroughout(states: seq<State>, events: seq<Event>, i: nat)
    requires IsOrderlyRun(states, events) && i < |states|
    requires forall j :: 0 <= j < i ==> SingleFlight(states[j], events[j])
    ensures FrozenInFlight(states[i])
  {
    hide Next, Assumed, Orderly, SingleFlight, FrozenInFlight;
    if i == 0 {
      InitFrozen(states[0]);
    } else {
      FrozenThroughout(states, events, i - 1);
      FrozenFollows(states[i - 1], events[i - 1], states[i]);
    }
  }

  lemma InitFrozen(s: State)
    requires Init(s)
    ensures FrozenInFlight(s)
  {
  }

  lemma OneFlushPoints(s: State, id: uint64)
    requires FrozenInFlight(s)
    ensures FrozenPoints(s, id) == FlushPoints(s.flushes, id)
  {
    if |s.flushes| == 1 {
      assert s.flushes[1..] == [];
    }
  }

  /** Live conservation: with flush results in order and one flush in flight, whenever the
      event loop takes the next event, active memtable, frozen memtable and all segments
      hold every acknowledged point not removed by retention, and hold it once. */
  lemma LiveConservation(states: seq<State>, events: seq<Event>, i: nat, id: uint64)
    requires IsOrderlyRun(states, events) && i < |states| && states[i].phase.Idle?
    requires forall j :: 0 <= j < i ==> SingleFlight(states[j], events[j])
    ensures Complete(states[i], id)
  {
    hide IsOrderlyRun, Inv, InOrder, Step, SingleFlight, FrozenInFlight, Complete;
    OrderlyPrefix(states, events, i);
    FrozenThroughout(states, events, i);
    OneFlushPoints(states[i], id);
    VisibleExactly(states[i], id);
  }

  /** A second rotation while a flush is in flight hides that flush's points from queries,
      all of them and nothing else. */
  lemma SecondRotationHides(s: State, s': State, id: uint64)
    requires Inv(s) && InOrder(s) && FrozenInFlight(s) && s.flushes != [] && Next(s, Rotate, s')
    ensures Visible(s', id) + PointsOf(s.flushes[0].table, id) + FilePoints(s'.dropped, id)
         == LogPoints(s'.log, id) + FilePoints(s'.extra, id)
  {
    hide Inv, InOrder, LogPoints, FilePoints, Compaction.UnionPoints, OffsetOf;
    LogAccounted(s, id);
    assert s.flushes[1..] == [];
    Swap(PointsOf(s.active, id), FlushPoints(s.flushes, id), SegmentPoints(s.segments, s.files, id),
         FilePoints(s.dropped, id));
  }

  lemma Swap<T>(a: multiset<T>, f: multiset<T>, s: multiset<T>, d: multiset<T>)
    ensures multiset{} + a + s + f + d == a + f + s + d
  {
  }
}
