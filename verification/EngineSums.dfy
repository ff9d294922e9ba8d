/** Arithmetic of the engine's histories: sums of points over stretches of the log and over
    sets of segment files. */
module EngineSums {
  import opened Words
  import opened Points
  import opened Tables
  import opened Manifest
  import opened Payload
  import opened EngineLog
  import opened EngineState
  import Retention
  import Compaction
  import StoredTables

  // ----- the log

  lemma {:induction false} LogPointsConcat(a: seq<WritePayload>, b: seq<WritePayload>, id: uint64)
    ensures LogPoints(a + b, id) == LogPoints(a, id) + LogPoints(b, id)
  {
    if b == [] {
      assert a + b == a;
    } else {
      var n := |b| - 1;
      assert (a + b)[..|a + b| - 1] == a + b[..n];
      LogPointsConcat(a, b[..n], id);
    }
  }

  lemma LogPointsSplit(log: seq<WritePayload>, i: nat, j: nat, k: nat, id: uint64)
    requires i <= j <= k <= |log|
    ensures LogPoints(log[i..k], id) == LogPoints(log[i..j], id) + LogPoints(log[j..k], id)
  {
    assert log[i..k] == log[i..j] + log[j..k];
    LogPointsConcat(log[i..j], log[j..k], id);
  }

  lemma LogPointsSnoc(log: seq<WritePayload>, p: WritePayload, id: uint64)
    ensures LogPoints(log + [p], id) == LogPoints(log, id) + if p.id == id then multiset(p.points) else multiset{}
  {
    assert (log + [p])[..|log|] == log;
  }

  lemma NoPointsSplit(log: seq<WritePayload>, i: nat, j: nat, k: nat)
    requires i <= j <= k <= |log|
    ensures NoPoints(log[i..k]) <==> NoPoints(log[i..j]) && NoPoints(log[j..k])
  {
    hide LogPoints;
    forall id: uint64
      ensures LogPoints(log[i..k], id) == LogPoints(log[i..j], id) + LogPoints(log[j..k], id)
    {
      LogPointsSplit(log, i, j, k, id);
    }
  }

  /** Appending to the log and cutting its end leave the earlier offsets alone. */
  lemma OffsetOfPrefix(log: seq<WritePayload>, longer: seq<WritePayload>, k: nat)
    requires k <= |log| <= |longer| && log == longer[..|log|]
    ensures OffsetOf(log, k) == OffsetOf(longer, k)
  {
    assert Records(log)[..k] == Records(longer)[..k];
  }

  // ----- sums over segment files

  ghost function PointsIn(e: SegmentEntry, files: map<Path, seq<byte>>, id: uint64): multiset<Point> {
    if e.path in files then PointsOf(StoredTables.Content(files[e.path]), id) else multiset{}
  }

  lemma UnionSnoc(entries: seq<SegmentEntry>, e: SegmentEntry, files: map<Path, seq<byte>>, id: uint64)
    ensures Compaction.UnionPoints(entries + [e], files, id)
            == Compaction.UnionPoints(entries, files, id) + PointsIn(e, files, id)
  {
    assert (entries + [e])[..|entries|] == entries;
  }

  ghost predicate SameFile(p: Path, files: map<Path, seq<byte>>, files': map<Path, seq<byte>>) {
    (p in files <==> p in files') && (p in files ==> files[p] == files'[p])
  }

  /** The sum depends on the listed files alone. */
  lemma {:induction false} UnionFrame(entries: seq<SegmentEntry>, files: map<Path, seq<byte>>,
                                      files': map<Path, seq<byte>>, id: uint64)
    requires forall e :: e in entries ==> SameFile(e.path, files, files')
    ensures Compaction.UnionPoints(entries, files, id) == Compaction.UnionPoints(entries, files', id)
  {
    hide StoredTables.Content;
    if entries != [] {
      var n := |entries| - 1;
      assert entries[n] in entries;
      UnionFrame(entries[..n], files, files', id);
    }
  }

  lemma {:induction false} UnionMiddle(a: seq<SegmentEntry>, e: SegmentEntry, b: seq<SegmentEntry>,
                                       files: map<Path, seq<byte>>, id: uint64)
    ensures Compaction.UnionPoints(a + [e] + b, files, id)
            == Compaction.UnionPoints(a + b, files, id) + PointsIn(e, files, id)
  {
    hide Compaction.UnionPoints, PointsIn;
    if b == [] {
      assert a + [e] + b == a + [e] && a + b == a;
      UnionSnoc(a, e, files, id);
    } else {
      var n := |b| - 1;
      UnionMiddle(a, e, b[..n], files, id);
      assert a + [e] + b == a + [e] + b[..n] + [b[n]] && a + b == a + b[..n] + [b[n]];
      UnionSnoc(a + [e] + b[..n], b[n], files, id);
      UnionSnoc(a + b[..n], b[n], files, id);
    }
  }

  /** The order of the entries does not matter. */
  lemma {:induction false} UnionPermutation(a: seq<SegmentEntry>, b: seq<SegmentEntry>, files: map<Path, seq<byte>>,
      id: uint64)
    requires multiset(a) == multiset(b)
    ensures Compaction.UnionPoints(a, files, id) == Compaction.UnionPoints(b, files, id)
    decreases |a|
  {
    hide PointsIn;
    if a == [] {
      assert |multiset(b)| == 0;
    } else {
      var n := |a| - 1;
      var e := a[n];
      assert a == a[..n] + [e];
      assert e in multiset(b);
      var k :| 0 <= k < |b| && b[k] == e;
      var others := b[..k] + b[k + 1..];
      assert b == b[..k] + [e] + b[k + 1..];
      assert multiset(b) == multiset(others) + multiset{e};
      assert multiset(a[..n]) == multiset(a) - multiset{e} == multiset(others);
      UnionPermutation(a[..n], others, files, id);
      UnionSnoc(a[..n], e, files, id);
      UnionMiddle(b[..k], e, b[k + 1..], files, id);
    }
  }

  lemma {:induction false} UnionConcat(a: seq<SegmentEntry>, b: seq<SegmentEntry>, files: map<Path, seq<byte>>,
                                       id: uint64)
    ensures Compaction.UnionPoints(a + b, files, id)
            == Compaction.UnionPoints(a, files, id) + Compaction.UnionPoints(b, files, id)
  {
    hide PointsIn;
    if b == [] {
      assert a + b == a;
    } else {
      var n := |b| - 1;
      assert a + b == a + b[..n] + [b[n]] && b == b[..n] + [b[n]];
      UnionConcat(a, b[..n], files, id);
      UnionSnoc(a + b[..n], b[n], files, id);
      UnionSnoc(b[..n], b[n], files, id);
    }
  }

  // ----- removing entries by path

  ghost predicate DistinctPaths(segments: seq<SegmentEntry>) {
    forall i, j :: 0 <= i < j < |segments| ==> segments[i].path != segments[j].path
  }

  lemma {:induction false} WithoutCount(segments: seq<SegmentEntry>, paths: set<Path>, e: SegmentEntry)
    ensures multiset(Without(segments, paths))[e] == if e.path in paths then 0 else multiset(segments)[e]
  {
    if segments != [] {
      var n := |segments| - 1;
      WithoutCount(segments[..n], paths, e);
      assert segments == segments[..n] + [segments[n]];
      assert multiset([segments[n]])[e] == if segments[n] == e then 1 else 0;
    }
  }

  lemma {:induction false} WithoutDistinct(segments: seq<SegmentEntry>, paths: set<Path>)
    requires DistinctPaths(segments)
    ensures DistinctPaths(Without(segments, paths))
  {
    if segments != [] {
      var n := |segments| - 1;
      WithoutDistinct(segments[..n], paths);
      var r := Without(segments[..n], paths);
      forall i | 0 <= i < |r|
        ensures r[i].path != segments[n].path
      {
        assert r[i] in segments[..n];
      }
    }
  }

  lemma DistinctCount(segments: seq<SegmentEntry>, e: SegmentEntry)
    requires DistinctPaths(segments)
    ensures multiset(segments)[e] <= 1
  {
    if e in segments {
      var k :| 0 <= k < |segments| && segments[k] == e;
      assert segments == segments[..k] + [e] + segments[k + 1..];
      assert e !in segments[..k] && e !in segments[k + 1..];
    }
  }

  lemma SamePathSameEntry(segments: seq<SegmentEntry>, a: SegmentEntry, b: SegmentEntry)
    requires DistinctPaths(segments) && a in segments && b in segments && a.path == b.path
    ensures a == b
  {
  }

  /** With distinct paths, removing by path removes exactly the listed entries. */
  lemma WithoutListed(segments: seq<SegmentEntry>, removed: seq<SegmentEntry>)
    requires DistinctPaths(segments) && multiset(removed) <= multiset(segments)
    ensures multiset(segments) == multiset(Without(segments, PathsOf(removed))) + multiset(removed)
  {
    hide DistinctPaths;
    var kept := Without(segments, PathsOf(removed));
    forall e: SegmentEntry
      ensures multiset(segments)[e] == multiset(kept)[e] + multiset(removed)[e]
    {
      WithoutCount(segments, PathsOf(removed), e);
      DistinctCount(segments, e);
      if e in removed {
        assert e.path in PathsOf(removed);
        assert multiset(removed)[e] >= 1;
      } else if e.path in PathsOf(removed) && e in segments {
        var r :| r in removed && r.path == e.path;
        assert r in multiset(segments);
        SamePathSameEntry(segments, r, e);
      }
    }
  }

  /** The points of the segments are those of the kept entries and those of the removed
      ones, also after the removed files are gone. */
  lemma UnionRemoved(segments: seq<SegmentEntry>, removed: seq<SegmentEntry>, files: map<Path, seq<byte>>, id: uint64)
    requires DistinctPaths(segments) && multiset(removed) <= multiset(segments)
    ensures var paths := PathsOf(removed);
            Compaction.UnionPoints(segments, files, id) ==
            Compaction.UnionPoints(Without(segments, paths), files - paths, id)
            + Compaction.UnionPoints(removed, files, id)
  {
    hide Compaction.UnionPoints, DistinctPaths;
    var paths := PathsOf(removed);
    var kept := Without(segments, paths);
    WithoutListed(segments, removed);
    UnionPermutation(segments, kept + removed, files, id);
    UnionConcat(kept, removed, files, id);
    UnionFrame(kept, files, files - paths, id);
  }

  // ----- sums over removed and doubled files

  lemma {:induction false} FilePointsConcat(a: seq<seq<byte>>, b: seq<seq<byte>>, id: uint64)
    ensures FilePoints(a + b, id) == FilePoints(a, id) + FilePoints(b, id)
  {
    hide StoredTables.Content;
    if b == [] {
      assert a + b == a;
    } else {
      var n := |b| - 1;
      assert (a + b)[..|a + b| - 1] == a + b[..n];
      FilePointsConcat(a, b[..n], id);
    }
  }

  lemma FilePointsOfOne(file: seq<byte>, id: uint64)
    ensures FilePoints([file], id) == PointsOf(StoredTables.Content(file), id)
  {
    assert [file][..0] == [];
  }

  lemma {:induction false} FilePointsOfEntries(entries: seq<SegmentEntry>, files: map<Path, seq<byte>>, id: uint64)
    ensures FilePoints(FilesOf(entries, files), id) == Compaction.UnionPoints(entries, files, id)
  {
    hide StoredTables.Content;
    if entries != [] {
      var n := |entries| - 1;
      FilePointsOfEntries(entries[..n], files, id);
      var before := FilesOf(entries[..n], files);
      if entries[n].path in files {
        var f := files[entries[n].path];
        FilePointsConcat(before, [f], id);
        FilePointsOfOne(f, id);
      } else {
        assert before + [] == before;
      }
    }
  }

  lemma FilesOfFrame(entries: seq<SegmentEntry>, files: map<Path, seq<byte>>, files': map<Path, seq<byte>>)
    requires |entries| <= 1
    requires forall e :: e in entries ==> SameFile(e.path, files, files')
    ensures FilesOf(entries, files) == FilesOf(entries, files')
  {
    if entries != [] {
      assert entries[0] in entries;
      assert entries[..0] == [];
    }
  }

  /** The swept entries are among the listed ones. */
  lemma SelectedAmong(segments: seq<SegmentEntry>, cutoff: int)
    ensures multiset(Retention.Select(segments, cutoff, true)) <= multiset(segments)
  {
    Retention.SweepSplits(segments, cutoff);
  }
}
