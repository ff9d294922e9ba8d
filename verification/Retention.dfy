/** Time-based removal of segments (internal/retention/retention.go). */
module Retention {
  import opened Manifest

  /** The entries that end before the cutoff (or the others), in order. */
  function Select(entries: seq<SegmentEntry>, cutoff: int, expired: bool): (r: seq<SegmentEntry>)
    ensures forall e :: e in r <==> e in entries && (e.blockEnd < cutoff <==> expired)
  {
    if entries == [] then []
    else
      var n := |entries| - 1;
      Select(entries[..n], cutoff, expired) + if entries[n].blockEnd < cutoff <==> expired then [entries[n]] else []
  }

  method Sweep(entries: seq<SegmentEntry>, cutoff: int) returns (removed: seq<SegmentEntry>, kept: seq<SegmentEntry>)
    ensures removed == Select(entries, cutoff, true) && kept == Select(entries, cutoff, false)
  {
    removed, kept := [], [];
    for i := 0 to |entries|
      invariant removed == Select(entries[..i], cutoff, true) && kept == Select(entries[..i], cutoff, false)
    {
      assert entries[..i + 1][..i] == entries[..i];
      if entries[i].blockEnd < cutoff {
        removed := removed + [entries[i]];
      } else {
        kept := kept + [entries[i]];
      }
    }
    assert entries[..|entries|] == entries;
  }

  /** A sweep splits the entries: none is lost, none is on both sides. */
  lemma {:induction false} SweepSplits(entries: seq<SegmentEntry>, cutoff: int)
    ensures multiset(Select(entries, cutoff, true)) + multiset(Select(entries, cutoff, false)) == multiset(entries)
  {
    if entries != [] {
      var n := |entries| - 1;
      assert entries == entries[..n] + [entries[n]];
      SweepSplits(entries[..n], cutoff);
    }
  }
}
