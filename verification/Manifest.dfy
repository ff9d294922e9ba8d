/** The segment list with its log offset, saved as one record (internal/manifest). */
module Manifest {
  import opened Words

  /** Segment file names inside the data directory: numbered flushes, and compactions
      named by their candidate count. */
  datatype Path = FlushPath(n: nat) | CompactedPath(n: nat)

  datatype SegmentEntry = SegmentEntry(path: Path, blockStart: int64, blockEnd: int64, seriesCount: nat)

  /** What one save persists. */
  datatype Saved = Saved(segments: seq<SegmentEntry>, walOffset: nat)

  /** The entries whose path is not among the removed ones, in order. */
  function Without(segments: seq<SegmentEntry>, paths: set<Path>): (r: seq<SegmentEntry>)
    ensures forall e :: e in r <==> e in segments && e.path !in paths
  {
    if segments == [] then []
    else
      var n := |segments| - 1;
      Without(segments[..n], paths) + if segments[n].path in paths then [] else [segments[n]]
  }

  class Manifest {
    var segments: seq<SegmentEntry>
    var walOffset: nat
    var disk: Saved  // the file as the last rename left it

    ghost predicate Valid()
      reads this
    {
      disk == Saved(segments, walOffset)
    }

    /** Load: a missing file is an empty manifest. */
    constructor (existing: Option<Saved>)
      ensures Valid() && disk == if existing.None? then Saved([], 0) else existing.value
    {
      var s := if existing.None? then Saved([], 0) else existing.value;
      segments, walOffset, disk := s.segments, s.walOffset, s;
    }

    method Save()
      modifies `disk
      ensures Valid()
    {
      disk := Saved(segments, walOffset);
    }

    method Add(entry: SegmentEntry)
      requires Valid()
      modifies this
      ensures Valid() && segments == old(segments) + [entry] && walOffset == old(walOffset)
    {
      segments := segments + [entry];
      Save();
    }

    method RemoveBatch(paths: seq<Path>)
      requires Valid()
      modifies this
      ensures Valid() && walOffset == old(walOffset)
      ensures segments == Without(old(segments), set p | p in paths)
    {
      var removeSet: set<Path> := {};
      for i := 0 to |paths|
        invariant removeSet == set p | p in paths[..i]
      {
        removeSet := removeSet + {paths[i]};
      }
      assert paths[..|paths|] == paths;
      var updated: seq<SegmentEntry> := [];
      for i := 0 to |segments|
        invariant updated == Without(segments[..i], removeSet)
      {
        assert segments[..i + 1][..i] == segments[..i];
        if segments[i].path !in removeSet {
          updated := updated + [segments[i]];
        }
      }
      assert segments[..|segments|] == segments;
      segments := updated;
      Save();
    }

    method SetWalOffset(offset: nat)
      requires Valid()
      modifies this
      ensures Valid() && walOffset == offset && segments == old(segments)
    {
      walOffset := offset;
      Save();
    }
  }
}
