/** The log as the engine sees it: write commands, their byte offsets and points, and what
    recovery decodes from a log file (internal/engine/engine.go). */
module EngineLog {
  import opened Words
  import opened Points
  import opened Payload
  import Wal

  function Records(log: seq<WritePayload>): (r: seq<seq<byte>>)
    ensures |r| == |log|
  {
    seq(|log|, i requires 0 <= i < |log| => Encode(log[i]))
  }

  function LogFile(log: seq<WritePayload>): seq<byte> {
    Wal.LogBytes(Records(log))
  }

  /** The byte offset of log record k. */
  function OffsetOf(log: seq<WritePayload>, k: nat): nat
    requires k <= |log|
  {
    Wal.Offset(Records(log), k)
  }

  /** The points written to a series by a stretch of the log. */
  ghost function LogPoints(log: seq<WritePayload>, id: uint64): multiset<Point> {
    if log == [] then multiset{}
    else
      var n := |log| - 1;
      LogPoints(log[..n], id) + if log[n].id == id then multiset(log[n].points) else multiset{}
  }

  ghost predicate NoPoints(log: seq<WritePayload>) {
    forall id: uint64 :: LogPoints(log, id) == multiset{}
  }

  ghost predicate AllLoggable(log: seq<WritePayload>) {
    forall i :: 0 <= i < |log| ==> Wal.Loggable(Encode(log[i]))
  }

  // ----- replay, decoded

  /** The writes that Recover decodes, in order; one bad record panics. */
  function DecodeAll(entries: seq<seq<byte>>): Result<seq<WritePayload>> {
    if entries == [] then Ok([])
    else
      var n := |entries| - 1;
      var before :- DecodeAll(entries[..n]);
      var p :- Decode(entries[n]);
      Ok(before + [p])
  }

  /** What Recover reads from a log file from an offset on. */
  function Recovered(file: seq<byte>, offset: nat): Result<seq<WritePayload>> {
    DecodeAll(Wal.ReplayFrom(file, offset))
  }

  lemma {:induction false} AsManyDecoded(entries: seq<seq<byte>>)
    ensures DecodeAll(entries).Ok? ==> |DecodeAll(entries).value| == |entries|
  {
    hide Decode;
    if entries != [] {
      AsManyDecoded(entries[..|entries| - 1]);
    }
  }

  lemma {:induction false} DecodeRecords(log: seq<WritePayload>)
    requires AllLoggable(log)
    ensures DecodeAll(Records(log)) == Ok(log)
  {
    hide Encode, Decode, Wal.Loggable;
    if log != [] {
      var n := |log| - 1;
      assert Records(log)[..n] == Records(log[..n]);
      DecodeRecords(log[..n]);
      LoggableRoundTrip(log[n]);
      assert log == log[..n] + [log[n]];
    }
  }

  lemma LoggableRecords(log: seq<WritePayload>)
    requires AllLoggable(log)
    ensures Wal.AllLoggable(Records(log))
  {
    hide Encode, Wal.Loggable;
  }

  /** From any log record on, out of a log cut at any byte, Recover reads exactly the whole
      writes after that record. */
  lemma RecoveredExactly(log: seq<WritePayload>, j: nat, c: nat)
    requires AllLoggable(log) && j <= |log| && c <= |LogFile(log)|
    ensures var k := Wal.Whole(Records(log), c);
            Recovered(LogFile(log)[..c], OffsetOf(log, j)) == Ok(if j <= k then log[j..k] else [])
  {
    hide Encode, Wal.Loggable, Wal.LogBytes, Wal.Whole, Decode;
    LoggableRecords(log);
    Wal.PrefixRecovery(Records(log), j, c);
    var k := Wal.Whole(Records(log), c);
    if j <= k {
      assert Records(log)[j..k] == Records(log[j..k]);
      DecodeRecords(log[j..k]);
    }
  }

  lemma RecoveredInFull(log: seq<WritePayload>, j: nat)
    requires AllLoggable(log) && j <= |log|
    ensures Recovered(LogFile(log), OffsetOf(log, j)) == Ok(log[j..])
  {
    hide AllLoggable, Recovered, Wal.LogBytes, Wal.Whole;
    var c := |LogFile(log)|;
    RecoveredExactly(log, j, c);
    Wal.WholeAtLeast(Records(log), c, |log|) by { assert Records(log)[..|log|] == Records(log); }
    assert LogFile(log)[..c] == LogFile(log) && log[j..|log|] == log[j..];
  }

  // ----- an offset inside the log

  lemma DecodedSnoc(entries: seq<seq<byte>>, log: seq<WritePayload>)
    requires entries != [] && DecodeAll(entries) == Ok(log)
    ensures var n := |entries| - 1;
            |log| == n + 1 && DecodeAll(entries[..n]) == Ok(log[..n]) && Decode(entries[n]) == Ok(log[n])
  {
    hide Decode;
    AsManyDecoded(entries[..|entries| - 1]);
  }

  /** Decoded writes take no more log than the records they were decoded from. */
  lemma {:induction false} DecodedBytes(entries: seq<seq<byte>>, log: seq<WritePayload>)
    requires DecodeAll(entries) == Ok(log) && AllLoggable(log)
    ensures |LogFile(log)| <= |Wal.LogBytes(entries)|
    decreases |entries|
  {
    hide DecodeAll, Decode, Encode, LogFile, Wal.Loggable, Wal.Record, Wal.LogBytes;
    if entries == [] {
      NothingDecoded();
    } else {
      var n := |entries| - 1;
      DecodedSnoc(entries, log);
      DecodedBytes(entries[..n], log[..n]);
      DecodedLength(entries[n], log[n]);
      LogFileSnoc(log);
      Wal.LogBytesSnoc(entries[..n], entries[n]);
      assert entries == entries[..n] + [entries[n]];
    }
  }

  lemma NothingDecoded()
    ensures DecodeAll([]) == Ok([]) && LogFile([]) == []
  {
  }

  lemma LogFileSnoc(log: seq<WritePayload>)
    requires log != []
    ensures LogFile(log) == LogFile(log[..|log| - 1]) + Wal.Record(Encode(log[|log| - 1]))
  {
    hide Encode, Wal.Record, Wal.LogBytes;
    var n := |log| - 1;
    assert Records(log) == Records(log[..n]) + [Encode(log[n])];
    Wal.LogBytesSnoc(Records(log[..n]), Encode(log[n]));
  }

  lemma LogFileConcat(a: seq<WritePayload>, b: seq<WritePayload>)
    ensures LogFile(a + b) == LogFile(a) + LogFile(b)
  {
    hide Encode, Wal.LogBytes;
    assert Records(a + b) == Records(a) + Records(b);
    Wal.LogBytesConcat(Records(a), Records(b));
  }

  /** From an offset past the start of the writes later, recovery cannot return them all:
      too few bytes follow. */
  lemma RecoveredPast(kept: seq<WritePayload>, later: seq<WritePayload>, offset: nat)
    requires AllLoggable(later) && |LogFile(kept)| < offset
    ensures Recovered(LogFile(kept + later), offset) == Ok(later) <==> later == []
  {
    hide AllLoggable, Wal.Parse, LogFile;
    var file := LogFile(kept + later);
    var entries := Wal.ReplayFrom(file, offset);
    LogFileConcat(kept, later);
    AsManyDecoded(entries);
    Wal.ReplayedBytes(file, offset);
    if later == [] {
      assert kept + later == kept;
      Wal.NoRoom(file, offset);
    } else if Recovered(file, offset) == Ok(later) {
      DecodedBytes(entries, later);
      assert false;
    }
  }

  /** Recovery finds nothing exactly where nothing parses. */
  lemma NothingRecovered(file: seq<byte>, offset: nat)
    ensures Recovered(file, offset) == Ok([]) <==> Wal.Parse(file, offset) == None
  {
    hide Wal.Parse;
    AsManyDecoded(Wal.ReplayFrom(file, offset));
  }
}
