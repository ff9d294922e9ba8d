/** Merging small segments into one (internal/compaction/compactor.go). */
module Compaction {
  import opened Words
  import opened Points
  import opened Tables
  import opened Segment
  import opened StoredTables
  import SegmentReader
  import opened Manifest

  // ----- choosing candidates

  ghost predicate SortedByCount(s: seq<SegmentEntry>) {
    forall i, j :: 0 <= i < j < |s| ==> s[i].seriesCount <= s[j].seriesCount
  }

  method InsertByCount(r: seq<SegmentEntry>, e: SegmentEntry) returns (out: seq<SegmentEntry>)
    requires SortedByCount(r)
    ensures SortedByCount(out) && multiset(out) == multiset(r) + multiset{e}
  {
    var k := 0;
    while k < |r| && r[k].seriesCount < e.seriesCount
      invariant 0 <= k <= |r|
      invariant forall i :: 0 <= i < k ==> r[i].seriesCount < e.seriesCount
    {
      k := k + 1;
    }
    out := r[..k] + [e] + r[k..];
    MultisetInsert(r, k, e);
  }

  /** sort.Slice on series counts. */
  method SortByCount(s: seq<SegmentEntry>) returns (r: seq<SegmentEntry>)
    ensures SortedByCount(r) && multiset(r) == multiset(s)
  {
    r := [];
    for n := 0 to |s|
      invariant SortedByCount(r) && multiset(r) == multiset(s[..n])
    {
      assert s[..n + 1] == s[..n] + [s[n]];
      r := InsertByCount(r, s[n]);
    }
    assert s[..|s|] == s;
  }

  /** Entries of the list, none with more series than any entry left behind. */
  ghost predicate Fewest(chosen: seq<SegmentEntry>, entries: seq<SegmentEntry>) {
    && multiset(chosen) <= multiset(entries)
    && forall c, e :: c in chosen && e in multiset(entries) - multiset(chosen) ==> c.seriesCount <= e.seriesCount
  }

  /** At most maxCount entries, never a single one, none with more series than any entry
      that is left behind. */
  method SelectCandidates(entries: seq<SegmentEntry>, maxCount: int) returns (r: seq<SegmentEntry>)
    ensures |r| == if |entries| <= 1 || maxCount <= 1 then 0 else if maxCount <= |entries| then maxCount else |entries|
    ensures Fewest(r, entries)
  {
    if |entries| <= 1 || maxCount <= 1 {
      return [];
    }
    var sorted := SortByCount(entries);
    assert |sorted| == |multiset(sorted)| == |multiset(entries)| == |entries|;
    var n := if maxCount > |sorted| then |sorted| else maxCount;
    r := sorted[..n];
    FirstAreSmallest(sorted, n);
  }

  lemma FirstAreSmallest(sorted: seq<SegmentEntry>, n: nat)
    requires SortedByCount(sorted) && n <= |sorted|
    ensures var r := multiset(sorted[..n]);
            r <= multiset(sorted) &&
            forall c, e :: c in sorted[..n] && e in multiset(sorted) - r ==> c.seriesCount <= e.seriesCount
  {
    var left, right := sorted[..n], sorted[n..];
    assert multiset(sorted) - multiset(left) == multiset(right) by {
      assert sorted == left + right;
    }
    forall c, e | c in left && e in multiset(right)
      ensures c.seriesCount <= e.seriesCount
    {
      assert e in right;
    }
  }

  // ----- merging

  /** The points of a series in all candidate files together. */
  ghost function UnionPoints(candidates: seq<SegmentEntry>, files: map<Path, seq<byte>>, id: uint64): multiset<Point> {
    if candidates == [] then multiset{}
    else
      var n := |candidates| - 1;
      UnionPoints(candidates[..n], files, id)
      + if candidates[n].path in files then PointsOf(Content(files[candidates[n].path]), id) else multiset{}
  }

  /** The entry's file is there and reads in full. */
  ghost predicate Readable(files: map<Path, seq<byte>>, e: SegmentEntry) {
    e.path in files &&
    var r := SegmentReader.Open(files[e.path]);
    r.Ok? && SegmentReader.AllOf(r.value, |r.value.index|).Ok?
  }

  /** Series lists of a table concatenated onto those of another, order aside. */
  ghost predicate Merged(before: Table, all: Table, after: Table) {
    && after.Keys == before.Keys + all.Keys
    && (forall id: uint64 :: PointsOf(after, id) == PointsOf(before, id) + PointsOf(all, id))
    && (forall id :: id in after && (id in before ==> before[id] != []) && (id in all ==> all[id] != []) ==>
          after[id] != [])
  }

  ghost predicate HasPoints(t: Table) {
    exists id :: id in t && t[id] != []
  }

  ghost predicate Attained(t: Table, ts: int) {
    exists id, p :: id in t && p in t[id] && p.ts == ts
  }

  /** The least and the greatest timestamp of a table with points. */
  ghost predicate Bounds(t: Table, low: int, high: int) {
    && (forall id, p :: id in t && p in t[id] ==> low <= p.ts <= high)
    && (HasPoints(t) ==> Attained(t, low) && Attained(t, high))
  }

  /** The bounds as the scan leaves them: without points still where it started. */
  ghost predicate Scanned(t: Table, low: int, high: int) {
    Bounds(t, low, high) && (!HasPoints(t) ==> low == MAX_INT64 && high == MIN_INT64)
  }

  /** after is merged with the listed series of all appended. */
  ghost predicate Appended(merged: Table, all: Table, done: set<uint64>, after: Table) {
    && after.Keys == merged.Keys + done
    && (forall id :: id in done && id in all ==> after[id] == (if id in merged then merged[id] else []) + all[id])
    && (forall id :: id in merged && id !in done ==> after[id] == merged[id])
  }

  lemma AppendedOne(merged: Table, all: Table, done: set<uint64>, after: Table, id: uint64)
    requires Appended(merged, all, done, after) && id in all && id !in done
    ensures Appended(merged, all, done + {id}, after[id := (if id in merged then merged[id] else []) + all[id]])
  {
  }

  lemma AppendedAll(merged: Table, all: Table, after: Table)
    requires Appended(merged, all, all.Keys, after)
    ensures Merged(merged, all, after)
  {
  }

  /** The loop over the series of one candidate. */
  method MergeInto(merged: Table, all: Table, blockStart: int64, blockEnd: int64)
    returns (after: Table, start: int64, end: int64)
    requires Scanned(merged, blockStart, blockEnd)
    ensures Merged(merged, all, after) && Scanned(after, start, end)
  {
    hide Appended, Scanned, Merged;
    after, start, end := merged, blockStart, blockEnd;
    var ids := all.Keys;
    AppendedNone(merged, all);
    assert all.Keys - ids == {};
    while ids != {}
      invariant ids <= all.Keys
      invariant Appended(merged, all, all.Keys - ids, after)
      invariant Scanned(after, start, end)
      decreases ids
    {
      var id :| id in ids;
      var pts := all[id];
      ghost var low, high := start, end;
      AppendedOne(merged, all, all.Keys - ids, after, id);
      AppendedAt(merged, all, all.Keys - ids, after, id);
      start, end := Extend(pts, start, end);
      var longer := (if id in merged then merged[id] else []) + pts;
      ScannedWith(after, id, longer, pts, low, high, start, end);
      after := after[id := longer];
      assert all.Keys - ids + {id} == all.Keys - (ids - {id});
      ids := ids - {id};
    }
    assert all.Keys - ids == all.Keys;
    AppendedAll(merged, all, after);
  }

  lemma AppendedNone(merged: Table, all: Table)
    ensures Appended(merged, all, {}, merged)
  {
  }

  lemma AppendedAt(merged: Table, all: Table, done: set<uint64>, after: Table, id: uint64)
    requires Appended(merged, all, done, after) && id !in done
    ensures id in after <==> id in merged
    ensures id in merged ==> after[id] == merged[id]
  {
  }

  /** start and end widen low and high just enough to hold pts. */
  ghost predicate Widened(pts: seq<Point>, low: int, high: int, start: int, end: int) {
    && start <= low && high <= end
    && (forall p :: p in pts ==> start <= p.ts <= end)
    && (start == low || exists p :: p in pts && p.ts == start)
    && (end == high || exists p :: p in pts && p.ts == end)
  }

  lemma ScannedWith(t: Table, id: uint64, longer: seq<Point>, pts: seq<Point>, low: int, high: int, start: int,
                    end: int)
    requires Scanned(t, low, high) && Widened(pts, low, high, start, end)
    requires longer == (if id in t then t[id] else []) + pts
    ensures Scanned(t[id := longer], start, end)
  {
    InsideWith(t, id, longer, pts, low, high, start, end, t[id := longer]);
    StillPoints(t, id, longer, pts);
    hide HasPoints, Attained;
    if HasPoints(t) || pts != [] {
      if pts != [] {
        assert pts[0] in pts && start <= pts[0].ts <= end;
      }
      EndAttained(t, id, longer, pts, low, start);
      EndAttained(t, id, longer, pts, high, end);
    }
  }

  lemma InsideWith(t: Table, id: uint64, longer: seq<Point>, pts: seq<Point>, low: int, high: int, start: int, end: int,
                   t': Table)
    requires forall s, p :: s in t && p in t[s] ==> low <= p.ts <= high
    requires start <= low && high <= end && forall p :: p in pts ==> start <= p.ts <= end
    requires longer == (if id in t then t[id] else []) + pts && t' == t[id := longer]
    ensures forall s, p :: s in t' && p in t'[s] ==> start <= p.ts <= end
  {
  }

  lemma EndAttained(t: Table, id: uint64, longer: seq<Point>, pts: seq<Point>, old': int, new': int)
    requires longer == (if id in t then t[id] else []) + pts
    requires (new' == old' && Attained(t, old')) || exists p :: p in pts && p.ts == new'
    ensures Attained(t[id := longer], new')
  {
    if exists p :: p in pts && p.ts == new' {
      AttainedIn(t[id := longer], id, pts, new');
    } else {
      StillAttained(t, id, longer, old');
    }
  }

  lemma StillAttained(t: Table, id: uint64, longer: seq<Point>, ts: int)
    requires Attained(t, ts) && (id in t ==> t[id] <= longer)
    ensures Attained(t[id := longer], ts)
  {
    var s, p :| s in t && p in t[s] && p.ts == ts;
    assert s in t[id := longer] && p in t[id := longer][s];
  }

  lemma StillPoints(t: Table, id: uint64, longer: seq<Point>, pts: seq<Point>)
    requires longer == (if id in t then t[id] else []) + pts
    ensures HasPoints(t[id := longer]) <==> HasPoints(t) || pts != []
  {
    var t' := t[id := longer];
    if HasPoints(t) {
      var s :| s in t && t[s] != [];
      assert s in t' && t'[s] != [];
    } else if pts != [] {
      assert t'[id] != [];
    }
  }

  lemma AttainedIn(t: Table, id: uint64, pts: seq<Point>, ts: int)
    requires id in t && forall p :: p in pts ==> p in t[id]
    ensures (exists p :: p in pts && p.ts == ts) ==> Attained(t, ts)
  {
  }

  /** The loop over the points of one series. */
  method Extend(pts: seq<Point>, blockStart: int64, blockEnd: int64) returns (start: int64, end: int64)
    ensures Widened(pts, blockStart, blockEnd, start, end)
  {
    start, end := blockStart, blockEnd;
    for i := 0 to |pts|
      invariant start <= blockStart && blockEnd <= end
      invariant forall j :: 0 <= j < i ==> start <= pts[j].ts <= end
      invariant start == blockStart || exists j :: 0 <= j < i && pts[j].ts == start
      invariant end == blockEnd || exists j :: 0 <= j < i && pts[j].ts == end
    {
      if pts[i].ts < start {
        start := pts[i].ts;
      }
      if pts[i].ts > end {
        end := pts[i].ts;
      }
    }
  }

  /** The listed series of merged, each in time order. */
  ghost predicate Prepared(merged: Table, t: Table) {
    forall id :: id in t ==> id in merged && Sorted(t[id]) && multiset(t[id]) == multiset(merged[id])
  }

  lemma PreparedOne(merged: Table, t: Table, id: uint64, pts: seq<Point>)
    requires Prepared(merged, t) && id in merged && Sorted(pts) && multiset(pts) == multiset(merged[id])
    ensures Prepared(merged, t[id := pts])
  {
    hide Sorted;
  }

  /** The loop that sorts every merged series and lists it. */
  method SortedSeries(merged: Table) returns (list: seq<SeriesPoints>, ghost t: Table)
    ensures t.Keys == merged.Keys && Lists(multiset(list), t) && |list| == |t|
    ensures Prepared(merged, t)
  {
    hide Sorted, Lists, Prepared;
    list := [];
    t := map[];
    NothingListed();
    assert Prepared(merged, t) by { PreparedNone(merged); }
    var ids := merged.Keys;
    while ids != {}
      invariant ids <= merged.Keys && t.Keys == merged.Keys - ids
      invariant Lists(multiset(list), t) && |list| == |t|
      invariant Prepared(merged, t)
      decreases ids
    {
      var id :| id in ids;
      var pts := SortByTimestamp(merged[id]);
      ListedMore(list, t, id, pts);
      PreparedOne(merged, t, id, pts);
      list := list + [SeriesPoints(id, pts)];
      t := t[id := pts];
      ids := ids - {id};
    }
  }

  lemma PreparedNone(merged: Table)
    ensures Prepared(merged, map[])
  {
  }

  /** No series is listed without points. */
  ghost predicate Occupied(t: Table) {
    forall id :: id in t ==> t[id] != []
  }

  /** No candidate file lists a series without points. */
  ghost predicate WellFormed(candidates: seq<SegmentEntry>, files: map<Path, seq<byte>>) {
    forall e :: e in candidates && e.path in files ==> Occupied(Content(files[e.path]))
  }

  /** Everything a successful compaction promises about its output: the union of the
      candidates' points, each series in time order, true bounds and series count; series
      without points are counted but not written. */
  ghost predicate Output(candidates: seq<SegmentEntry>, files: map<Path, seq<byte>>, entry: SegmentEntry,
                         file: seq<byte>, t: Table, list: seq<SeriesPoints>) {
    && (forall id: uint64 :: PointsOf(t, id) == UnionPoints(candidates, files, id))
    && (forall id :: id in t ==> Sorted(t[id])) && Scanned(t, entry.blockStart, entry.blockEnd)
    && entry.seriesCount == |t|
    && SortedById(list) && Lists(multiset(list), t)
    && file == FileBytes(1, Segment.Occupied(list), entry.blockStart, entry.blockEnd)
    && (WellFormed(candidates, files) ==> Occupied(t))
  }

  /** The output of a compaction of well-formed candidates. */
  ghost predicate Compacted(candidates: seq<SegmentEntry>, files: map<Path, seq<byte>>, entry: SegmentEntry,
                            file: seq<byte>, t: Table, list: seq<SeriesPoints>) {
    && (forall id: uint64 :: PointsOf(t, id) == UnionPoints(candidates, files, id))
    && Ordered(t) && Bounds(t, entry.blockStart, entry.blockEnd)
    && entry.seriesCount == |t|
    && SortedById(list) && Lists(multiset(list), t)
    && file == FileBytes(1, list, entry.blockStart, entry.blockEnd)
  }

  /** From well-formed candidates the table is ordered and every listed series is written. */
  lemma WellFormedOutput(candidates: seq<SegmentEntry>, files: map<Path, seq<byte>>, entry: SegmentEntry,
                         file: seq<byte>, t: Table, list: seq<SeriesPoints>)
    requires Output(candidates, files, entry, file, t, list) && WellFormed(candidates, files)
    ensures Compacted(candidates, files, entry, file, t, list)
    ensures WellSized(list) ==> Holds(file, t)
  {
    hide Content, UnionPoints, SortedById, Lists, FileBytes, Sorted, WellSized, Holds, WellFormed, Bounds;
    ListedHavePoints(list, t);
    if WellSized(list) {
      WrittenTableIsHeld(list, t, entry.blockStart, entry.blockEnd);
    }
  }

  /** The loop over candidates: all their points by series, unsorted, with time bounds. */
  method LoadAll(candidates: seq<SegmentEntry>, files: map<Path, seq<byte>>)
    returns (ok: bool, merged: Table, blockStart: int64, blockEnd: int64)
    ensures ok <==> forall e :: e in candidates ==> Readable(files, e)
    ensures ok ==> Scanned(merged, blockStart, blockEnd)
    ensures ok ==> Loaded(candidates, files, merged)
  {
    hide Ordered, Scanned, Merged, Readable, Content, SegmentReader.Open, SegmentReader.AllOf, Loaded;
    ok, merged, blockStart, blockEnd := false, map[], MAX_INT64, MIN_INT64;
    NothingLoaded(files);
    for i := 0 to |candidates|
      invariant forall j :: 0 <= j < i ==> Readable(files, candidates[j])
      invariant Loaded(candidates[..i], files, merged)
      invariant Scanned(merged, blockStart, blockEnd)
    {
      assert candidates[..i + 1] == candidates[..i] + [candidates[i]];
      var entry := candidates[i];
      assert entry in candidates;
      if entry.path !in files {
        NotReadable(files, entry);
        return;
      }
      var reader := SegmentReader.OpenReader(files[entry.path]);
      if !reader.Ok? {
        NotReadable(files, entry);
        return;
      }
      var all := SegmentReader.ReadAll(reader.value);
      if !all.Ok? {
        NotReadable(files, entry);
        return;
      }
      IsContent(files, entry);
      ghost var before := merged;
      merged, blockStart, blockEnd := MergeInto(merged, all.value, blockStart, blockEnd);
      LoadedOne(candidates[..i], files, before, entry, merged);
    }
    assert candidates[..|candidates|] == candidates;
    ok := true;
  }

  /** A table with exactly the candidates' points; no series is empty unless in a file. */
  ghost predicate Loaded(candidates: seq<SegmentEntry>, files: map<Path, seq<byte>>, merged: Table) {
    && (forall id: uint64 :: PointsOf(merged, id) == UnionPoints(candidates, files, id))
    && (WellFormed(candidates, files) ==> Occupied(merged))
  }

  lemma NothingLoaded(files: map<Path, seq<byte>>)
    ensures Loaded([], files, map[]) && Scanned(map[], MAX_INT64, MIN_INT64)
  {
  }

  lemma NotReadable(files: map<Path, seq<byte>>, e: SegmentEntry)
    requires e.path in files ==>
             var r := SegmentReader.Open(files[e.path]);
             r.Ok? ==> !SegmentReader.AllOf(r.value, |r.value.index|).Ok?
    ensures !Readable(files, e)
  {
  }

  lemma IsContent(files: map<Path, seq<byte>>, e: SegmentEntry)
    requires e.path in files
    requires var r := SegmentReader.Open(files[e.path]);
             r.Ok? && SegmentReader.AllOf(r.value, |r.value.index|).Ok?
    ensures Readable(files, e)
    ensures var r := SegmentReader.Open(files[e.path]).value;
            SegmentReader.AllOf(r, |r.index|).value == Content(files[e.path])
  {
  }

  lemma LoadedOne(candidates: seq<SegmentEntry>, files: map<Path, seq<byte>>, before: Table, e: SegmentEntry,
                  after: Table)
    requires e.path in files
    requires Loaded(candidates, files, before) && Merged(before, Content(files[e.path]), after)
    ensures Loaded(candidates + [e], files, after)
  {
    hide Content;
    assert (candidates + [e])[..|candidates|] == candidates;
    if WellFormed(candidates + [e], files) {
      assert forall c :: c in candidates ==> c in candidates + [e];
      assert e in candidates + [e];
    }
  }

  method Compact(candidates: seq<SegmentEntry>, outputPath: Path, files: map<Path, seq<byte>>)
    returns (r: Result<SegmentEntry>, file: seq<byte>, ghost t: Table, ghost list: seq<SeriesPoints>)
    ensures r.Ok? <==> candidates != [] && forall e :: e in candidates ==> Readable(files, e)
    ensures r.Ok? ==> r.value.path == outputPath
    ensures r.Ok? ==> Output(candidates, files, r.value, file, t, list)
  {
    hide Ordered, Content, Scanned, Readable, Prepared, FileBytes, SortedById, Lists, WellFormed, Loaded, UnionPoints;
    file, t, list := [], map[], [];
    if |candidates| == 0 {
      return Corrupt, file, t, list;
    }
    var ok, merged, blockStart, blockEnd := LoadAll(candidates, files);
    if !ok {
      return Corrupt, file, t, list;
    }
    var seriesList: seq<SeriesPoints>;
    seriesList, t := SortedSeries(merged);
    ScannedSorted(merged, t, blockStart, blockEnd);
    SortedContent(candidates, files, merged, t);
    var w := new Writer(1);
    list := w.Write(seriesList, blockStart, blockEnd);
    file := w.file;
    r := Ok(SegmentEntry(outputPath, blockStart, blockEnd, |seriesList|));
  }

  lemma SortedContent(candidates: seq<SegmentEntry>, files: map<Path, seq<byte>>, merged: Table, t: Table)
    requires Loaded(candidates, files, merged) && t.Keys == merged.Keys && Prepared(merged, t)
    ensures forall id: uint64 :: PointsOf(t, id) == UnionPoints(candidates, files, id)
    ensures forall id :: id in t ==> Sorted(t[id])
    ensures WellFormed(candidates, files) ==> Occupied(t)
  {
    hide Content, WellFormed, UnionPoints, Sorted;
    forall id: uint64
      ensures PointsOf(t, id) == PointsOf(merged, id)
    {
    }
    if WellFormed(candidates, files) {
      forall id | id in t
        ensures t[id] != []
      {
        assert merged[id][0] in multiset(t[id]);
      }
    }
  }

  lemma SamePoints(merged: Table, t: Table)
    requires t.Keys == merged.Keys && Prepared(merged, t)
    ensures forall id, p :: id in t ==> (p in t[id] <==> p in merged[id])
  {
    forall id, p | id in t
      ensures p in t[id] <==> p in merged[id]
    {
      assert p in t[id] <==> p in multiset(t[id]);
      assert p in merged[id] <==> p in multiset(merged[id]);
    }
  }

  lemma ScannedSorted(merged: Table, t: Table, low: int, high: int)
    requires t.Keys == merged.Keys && Scanned(merged, low, high)
    requires Prepared(merged, t)
    ensures Scanned(t, low, high)
  {
    hide Prepared;
    SamePoints(merged, t);
    forall id | id in t
      ensures t[id] != [] <==> merged[id] != []
    {
      if t[id] != [] {
        assert t[id][0] in merged[id];
      }
      if merged[id] != [] {
        assert merged[id][0] in t[id];
      }
    }
    if HasPoints(merged) {
      SameAttained(merged, t, low);
      SameAttained(merged, t, high);
    }
  }

  lemma SameAttained(merged: Table, t: Table, ts: int)
    requires t.Keys == merged.Keys && Attained(merged, ts)
    requires forall id, p :: id in t ==> (p in t[id] <==> p in merged[id])
    ensures Attained(t, ts)
  {
    var id, p :| id in merged && p in merged[id] && p.ts == ts;
    assert id in t && p in t[id];
  }
}
