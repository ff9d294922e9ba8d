/** The write-ahead log (internal/wal/wal.go): length- and checksum-framed records behind
    a buffered writer, and the replay that survives a cut at any byte. */
module Wal {
  import opened Words
  import Crc32

  const RECORD_HEADER_SIZE := 8
  const BUFFER_SIZE := 0x10_0000

  /** crc32.ChecksumIEEE. */
  function Crc(data: seq<byte>): uint32 {
    Crc32.Update(0, data)
  }

  /** The framing of one record; the length field is a uint32 and drops high bits. */
  function Record(data: seq<byte>): (r: seq<byte>)
    ensures |r| == RECORD_HEADER_SIZE + |data|
  {
    PutLE(|data| + 4, 4) + PutLE(Crc(data), 4) + data
  }

  /** The bytes of a log of records. */
  function LogBytes(records: seq<seq<byte>>): seq<byte> {
    if records == [] then [] else LogBytes(records[..|records| - 1]) + Record(records[|records| - 1])
  }

  /** The byte offset at which record k starts. */
  function Offset(records: seq<seq<byte>>, k: nat): nat
    requires k <= |records|
  {
    |LogBytes(records[..k])|
  }

  lemma LogBytesSnoc(records: seq<seq<byte>>, data: seq<byte>)
    ensures LogBytes(records + [data]) == LogBytes(records) + Record(data)
  {
    assert (records + [data])[..|records|] == records;
  }

  lemma {:induction false} LogBytesConcat(a: seq<seq<byte>>, b: seq<seq<byte>>)
    ensures LogBytes(a + b) == LogBytes(a) + LogBytes(b)
  {
    hide Record;
    if b == [] {
      assert a + b == a;
    } else {
      var n := |b| - 1;
      assert (a + b)[..|a + b| - 1] == a + b[..n];
      LogBytesConcat(a, b[..n]);
    }
  }

  /** A log splits at every record boundary. */
  lemma LogBytesSplit(records: seq<seq<byte>>, k: nat)
    requires k <= |records|
    ensures LogBytes(records) == LogBytes(records[..k]) + LogBytes(records[k..])
    ensures Offset(records, k) <= |LogBytes(records)|
  {
    assert records == records[..k] + records[k..];
    LogBytesConcat(records[..k], records[k..]);
  }

  /** Later records start at later offsets. */
  lemma OffsetMonotone(records: seq<seq<byte>>, j: nat, k: nat)
    requires j <= k <= |records|
    ensures Offset(records, j) <= Offset(records, k)
    ensures j < k ==> Offset(records, j) < Offset(records, k)
  {
    hide Record;
    LogBytesSplit(records[..k], j);
    assert records[..k][..j] == records[..j];
    if j < k {
      assert |LogBytes(records[..k][j..])| >= RECORD_HEADER_SIZE;
    }
  }

  // ----- reading

  /** The record at pos, if a whole one with a matching checksum stands there. */
  function Parse(file: seq<byte>, pos: nat): (r: Option<seq<byte>>)
    ensures r.Some? ==> pos + RECORD_HEADER_SIZE + |r.value| <= |file|
  {
    if pos + RECORD_HEADER_SIZE > |file| then None
    else
      var dataLen := GetU32(file[pos..pos + 4]);
      if dataLen < 4 then None
      else
        var end := pos + RECORD_HEADER_SIZE + (dataLen - 4);
        if end > |file| then None
        else
          var data := file[pos + RECORD_HEADER_SIZE..end];
          if Crc(data) != GetU32(file[pos + 4..pos + 8]) then None else Some(data)
  }

  /** Everything Replay returns from pos on. */
  function ReplayFrom(file: seq<byte>, pos: nat): seq<seq<byte>>
    decreases |file| - pos
  {
    var next := Parse(file, pos);
    if next.None? then [] else [next.value] + ReplayFrom(file, pos + RECORD_HEADER_SIZE + |next.value|)
  }

  class Reader {
    const file: seq<byte>
    var pos: nat     // how much the buffered reader has consumed
    var offset: nat  // the end of the last record returned

    constructor At(file: seq<byte>, offset: nat)
      ensures this.file == file && pos == offset && this.offset == offset
    {
      this.file, pos, this.offset := file, offset, offset;
    }

    /** None is io.EOF: end of file, a torn record, a bad length or a bad checksum. */
    method Read() returns (r: Option<seq<byte>>)
      modifies this
      ensures r == Parse(file, old(pos))
      ensures r.Some? ==> pos == old(pos) + |Record(r.value)| && offset == old(offset) + |Record(r.value)|
      ensures r.None? ==> offset == old(offset)
    {
      if pos + RECORD_HEADER_SIZE > |file| {
        pos := if pos <= |file| then |file| else pos;
        return None;
      }
      var header := file[pos..pos + RECORD_HEADER_SIZE];
      assert header[..4] == file[pos..pos + 4] && header[4..] == file[pos + 4..pos + 8];
      pos := pos + RECORD_HEADER_SIZE;
      var dataLen, storedCrc := GetU32(header[..4]), GetU32(header[4..]);
      if dataLen < 4 {
        return None;
      }
      if pos + (dataLen - 4) > |file| {
        pos := |file|;
        return None;
      }
      var data := file[pos..pos + (dataLen - 4)];
      pos := pos + (dataLen - 4);
      if Crc(data) != storedCrc {
        return None;
      }
      offset := offset + RECORD_HEADER_SIZE + (dataLen - 4);
      r := Some(data);
    }
  }

  method Replay(file: seq<byte>, offset: nat) returns (entries: seq<seq<byte>>)
    ensures entries == ReplayFrom(file, offset)
  {
    hide Parse, Record;
    var r := new Reader.At(file, offset);
    entries := [];
    while true
      invariant fresh(r) && r.file == file
      invariant entries + ReplayFrom(file, r.pos) == ReplayFrom(file, offset)
      decreases |file| - r.pos
    {
      var data := r.Read();
      if data.None? {
        assert entries + [] == entries;
        break;
      }
      assert entries + ([data.value] + ReplayFrom(file, r.pos)) == entries + [data.value] + ReplayFrom(file, r.pos);
      entries := entries + [data.value];
    }
  }

  // ----- exact recovery

  /** Records whose length field does not wrap. */
  predicate Loggable(data: seq<byte>) {
    |data| + 4 < TWO_32
  }

  ghost predicate AllLoggable(records: seq<seq<byte>>) {
    forall i :: 0 <= i < |records| ==> Loggable(records[i])
  }

  lemma RecordFields(data: seq<byte>, file: seq<byte>, pos: nat)
    requires pos + RECORD_HEADER_SIZE <= |file|
    requires file[pos..pos + RECORD_HEADER_SIZE] == Record(data)[..RECORD_HEADER_SIZE]
    ensures GetU32(file[pos..pos + 4]) == (|data| + 4) % TWO_32
    ensures GetU32(file[pos + 4..pos + 8]) == Crc(data)
  {
    hide PutLE, GetLE;
    var h := file[pos..pos + 8];
    assert file[pos..pos + 4] == h[..4] == PutLE(|data| + 4, 4);
    assert file[pos + 4..pos + 8] == h[4..] == PutLE(Crc(data), 4);
    GetPutLE(|data| + 4, 4);
    LE32RoundTrip(Crc(data));
    assert Pow2(32) == TWO_32 by { Pow2Values(); }
  }

  /** A whole record reads back, whatever follows it, exactly while its length fits. */
  lemma RecordReadsBackExactly(a: seq<byte>, data: seq<byte>, rest: seq<byte>)
    ensures Parse(a + Record(data) + rest, |a|) == Some(data) <==> Loggable(data)
  {
    hide PutLE, GetLE;
    var file, pos := a + Record(data) + rest, |a|;
    assert file[pos..pos + 8] == Record(data)[..8];
    RecordFields(data, file, pos);
    if Loggable(data) {
      assert file[pos + 8..pos + 8 + |data|] == Record(data)[8..] == data;
    }
  }

  /** The fields of a record at pos: the length and four, then the CRC-32 of the data, both
      little-endian, then the data. */
  ghost predicate Framed(file: seq<byte>, pos: nat, data: seq<byte>) {
    && |data| + 4 < TWO_32 && pos + 8 + |data| <= |file|
    && file[pos..pos + 4] == PutLE(|data| + 4, 4)
    && file[pos + 4..pos + 8] == PutLE(Crc32.Update(0, data), 4)
    && file[pos + 8..pos + 8 + |data|] == data
  }

  /** Exactly what is framed so parses. */
  lemma ParseExactly(file: seq<byte>, pos: nat, data: seq<byte>)
    ensures Parse(file, pos) == Some(data) <==> Framed(file, pos, data)
  {
    hide Parse, Framed;
    if Parse(file, pos) == Some(data) {
      ParsedIsFramed(file, pos, data);
    }
    if Framed(file, pos, data) {
      FramedParses(file, pos, data);
    }
  }

  lemma ParsedIsFramed(file: seq<byte>, pos: nat, data: seq<byte>)
    requires Parse(file, pos) == Some(data)
    ensures Framed(file, pos, data)
  {
    hide PutLE, GetLE, Crc32.Update;
    var length, crc := file[pos..pos + 4], file[pos + 4..pos + 8];
    assert GetU32(length) == |data| + 4 && GetU32(crc) == Crc32.Update(0, data);
    PutGetLE(length);
    PutGetLE(crc);
  }

  lemma FramedParses(file: seq<byte>, pos: nat, data: seq<byte>)
    requires Framed(file, pos, data)
    ensures Parse(file, pos) == Some(data)
  {
    hide PutLE, GetLE, Crc32.Update;
    LE32RoundTrip(|data| + 4);
    LE32RoundTrip(Crc32.Update(0, data));
    var length, crc := file[pos..pos + 4], file[pos + 4..pos + 8];
    assert GetU32(length) == |data| + 4 && GetU32(crc) == Crc32.Update(0, data);
  }

  /** The frame of damaged data: the header of the record that was written, other bytes of
      the same number behind it. Replay ends with the records before it if and only if the
      checksum tells the two apart. */
  lemma DamageDetectedExactly(records: seq<seq<byte>>, data: seq<byte>, damaged: seq<byte>, rest: seq<byte>)
    requires AllLoggable(records) && Loggable(data) && |damaged| == |data|
    ensures ReplayFrom(LogBytes(records) + (Record(data)[..8] + damaged + rest), 0) == records
            <==> Crc32.Update(0, damaged) != Crc32.Update(0, data)
  {
    hide LogBytes, Parse, Loggable, Crc32.Update, PutLE;
    var tail := Record(data)[..8] + damaged + rest;
    var file, pos := LogBytes(records) + tail, |LogBytes(records)|;
    DamagedFields(LogBytes(records), data, damaged, rest);
    assert [] + LogBytes(records) + tail == file;
    if Crc32.Update(0, damaged) != Crc32.Update(0, data) {
      ReplayWhole([], records, tail);
    } else {
      OneMoreThan(file, records);
    }
  }

  lemma DamagedFields(before: seq<byte>, data: seq<byte>, damaged: seq<byte>, rest: seq<byte>)
    requires Loggable(data) && |damaged| == |data|
    ensures Parse(before + (Record(data)[..8] + damaged + rest), |before|)
         == if Crc32.Update(0, damaged) == Crc32.Update(0, data) then Some(damaged) else None
  {
    hide PutLE, GetLE, Crc32.Update;
    var file, pos := before + (Record(data)[..8] + damaged + rest), |before|;
    assert file[pos..pos + 8] == Record(data)[..8];
    RecordFields(data, file, pos);
    assert file[pos + 8..pos + 8 + |data|] == damaged;
  }

  /** A record with one wrong byte is never replayed, nor anything behind it. */
  lemma FlippedByte(records: seq<seq<byte>>, data: seq<byte>, i: nat, b: byte, rest: seq<byte>)
    requires AllLoggable(records) && Loggable(data) && i < |data| && b != data[i]
    ensures ReplayFrom(LogBytes(records) + (Record(data)[..8] + data[i := b] + rest), 0) == records
  {
    hide LogBytes, Record, Loggable, Crc32.Update, ReplayFrom;
    Crc32.OneByteDetected(0, data, i, b);
    DamageDetectedExactly(records, data, data[i := b], rest);
  }

  /** A record cut anywhere before its end reads as end of file. */
  lemma TornRecord(a: seq<byte>, data: seq<byte>, n: nat)
    requires n < |Record(data)| && Loggable(data)
    ensures Parse(a + Record(data)[..n], |a|) == None
  {
    hide PutLE, GetLE;
    var file, pos := a + Record(data)[..n], |a|;
    if n >= 8 {
      assert file[pos..pos + 8] == Record(data)[..8];
      RecordFields(data, file, pos);
    }
  }

  /** How many whole records the first c bytes hold. */
  function Whole(records: seq<seq<byte>>, c: nat): (k: nat)
    ensures k <= |records|
    decreases |records|
  {
    if records == [] || |LogBytes(records)| <= c then |records| else Whole(records[..|records| - 1], c)
  }

  lemma {:induction false} WholeIsGreatest(records: seq<seq<byte>>, c: nat)
    ensures var k := Whole(records, c);
            Offset(records, k) <= c && (k < |records| ==> c < Offset(records, k + 1))
    decreases |records|
  {
    hide Record;
    if records == [] || |LogBytes(records)| <= c {
      assert records[..|records|] == records;
    } else {
      var n := |records| - 1;
      WholeIsGreatest(records[..n], c);
      var k := Whole(records, c);
      assert records[..n][..k] == records[..k];
      if k < n {
        assert records[..n][..k + 1] == records[..k + 1];
      } else {
        assert records[..k + 1] == records;
      }
    }
  }

  lemma WholeAtLeast(records: seq<seq<byte>>, c: nat, j: nat)
    requires j <= |records| && Offset(records, j) <= c
    ensures j <= Whole(records, c)
  {
    WholeIsGreatest(records, c);
    var k := Whole(records, c);
    if k < j {
      OffsetMonotone(records, k + 1, j);
    }
  }

  lemma LogBytesCons(records: seq<seq<byte>>)
    requires records != []
    ensures LogBytes(records) == Record(records[0]) + LogBytes(records[1..])
  {
    hide Record;
    assert records == [records[0]] + records[1..];
    LogBytesConcat([records[0]], records[1..]);
    LogBytesSnoc([], records[0]);
    assert [] + [records[0]] == [records[0]];
  }

  /** Replay over whole records followed by something that does not parse. */
  lemma {:induction false} ReplayWhole(a: seq<byte>, records: seq<seq<byte>>, tail: seq<byte>)
    requires AllLoggable(records)
    requires Parse(a + LogBytes(records) + tail, |a| + |LogBytes(records)|) == None
    ensures ReplayFrom(a + LogBytes(records) + tail, |a|) == records
    decreases |records|
  {
    hide Record, Parse, LogBytes, Loggable;
    if records == [] {
      assert LogBytes(records) == [] by { EmptyLog(records); }
    } else {
      var first, others := records[0], records[1..];
      var file, a' := a + LogBytes(records) + tail, a + Record(first);
      LogBytesCons(records);
      assert file == a + Record(first) + (LogBytes(others) + tail);
      RecordReadsBackExactly(a, first, LogBytes(others) + tail);
      assert file == a' + LogBytes(others) + tail;
      assert |a| + |LogBytes(records)| == |a'| + |LogBytes(others)|;
      ReplayWhole(a', others, tail);
      assert records == [first] + others;
    }
  }

  lemma EmptyLog(records: seq<seq<byte>>)
    requires records == []
    ensures LogBytes(records) == []
  {
  }

  /** Replay of a log cut at byte c, started at a record boundary, returns exactly the
      records after that boundary that lie wholly inside the cut, in order. */
  lemma PrefixRecovery(records: seq<seq<byte>>, j: nat, c: nat)
    requires AllLoggable(records) && j <= |records| && c <= |LogBytes(records)|
    ensures var k := Whole(records, c);
            ReplayFrom(LogBytes(records)[..c], Offset(records, j)) == if j <= k then records[j..k] else []
  {
    hide Record, Parse, LogBytes, Whole;
    var k := Whole(records, c);
    var log := LogBytes(records);
    var file := log[..c];
    WholeIsGreatest(records, c);
    LogBytesSplit(records, k);
    var tail := file[Offset(records, k)..];
    assert log[..Offset(records, k)] == LogBytes(records[..k]);
    assert file == LogBytes(records[..k]) + tail;
    CutInsideRecord(records, k, c);
    if j <= k {
      LogBytesSplit(records[..k], j);
      assert records[..k][..j] == records[..j] && records[..k][j..] == records[j..k];
      assert file == LogBytes(records[..j]) + LogBytes(records[j..k]) + tail;
      ReplayWhole(LogBytes(records[..j]), records[j..k], tail);
    } else {
      OffsetMonotone(records, k + 1, j);
      BeyondEnd(file, Offset(records, j));
    }
  }

  lemma BeyondEnd(file: seq<byte>, pos: nat)
    requires pos >= |file|
    ensures ReplayFrom(file, pos) == []
  {
  }

  /** Behind the last whole record a cut log holds nothing that parses. */
  lemma CutInsideRecord(records: seq<seq<byte>>, k: nat, c: nat)
    requires AllLoggable(records) && k <= |records| && c <= |LogBytes(records)|
    requires Offset(records, k) <= c && (k < |records| ==> c < Offset(records, k + 1))
    ensures Parse(LogBytes(records)[..c], Offset(records, k)) == None
  {
    hide Record, LogBytes, Parse;
    var log := LogBytes(records);
    LogBytesSplit(records, k);
    var a := LogBytes(records[..k]);
    if k < |records| {
      LogBytesSplit(records, k + 1);
      assert records[..k + 1] == records[..k] + [records[k]];
      LogBytesSnoc(records[..k], records[k]);
      var n := c - |a|;
      assert log[..c] == a + Record(records[k])[..n];
      TornRecord(a, records[k], n);
    } else {
      assert records[..k] == records;
    }
  }

  /** A crash keeps at least what was synced and loses only a suffix of the records, of at
      most as many bytes as were unsynced. */
  lemma CrashLosesSuffix(records: seq<seq<byte>>, synced: nat, c: nat)
    requires AllLoggable(records) && synced <= |records|
    requires Offset(records, synced) <= c <= |LogBytes(records)|
    ensures var k := Whole(records, c);
            synced <= k && ReplayFrom(LogBytes(records)[..c], 0) == records[..k] &&
            |LogBytes(records)| - Offset(records, k) <= |LogBytes(records)| - Offset(records, synced)
  {
    WholeAtLeast(records, c, synced);
    PrefixRecovery(records, 0, c);
    var k := Whole(records, c);
    assert records[0..k] == records[..k] && records[..0] == [];
    OffsetMonotone(records, synced, k);
  }

  lemma NoRoom(file: seq<byte>, pos: nat)
    requires |file| < pos + RECORD_HEADER_SIZE
    ensures Parse(file, pos) == None && ReplayFrom(file, pos) == []
  {
  }

  /** What Replay returns from an offset was framed behind it. */
  lemma {:induction false} ReplayedBytes(file: seq<byte>, pos: nat)
    ensures ReplayFrom(file, pos) != [] ==> pos + |LogBytes(ReplayFrom(file, pos))| <= |file|
    decreases |file| - pos
  {
    hide Parse, LogBytes;
    var next := Parse(file, pos);
    if next.Some? {
      var end := pos + RECORD_HEADER_SIZE + |next.value|;
      var rest := ReplayFrom(file, end);
      ReplayedBytes(file, end);
      LogBytesCons([next.value] + rest);
      assert ([next.value] + rest)[1..] == rest;
      if rest == [] {
        EmptyLog(rest);
      }
    }
  }

  /** A log that was reopened behind a torn tail of n bytes and appended to. */
  function Reopened(records: seq<seq<byte>>, torn: seq<byte>, n: nat, later: seq<seq<byte>>): seq<byte>
    requires n <= |Record(torn)|
  {
    LogBytes(records) + (Record(torn)[..n] + LogBytes(later))
  }

  lemma OneMoreThan(file: seq<byte>, records: seq<seq<byte>>)
    requires AllLoggable(records) && LogBytes(records) <= file && Parse(file, |LogBytes(records)|).Some?
    ensures |ReplayFrom(file, 0)| > |records|
  {
    hide Parse, LogBytes, Record, Loggable;
    assert file == [] + LogBytes(records) + file[|LogBytes(records)|..];
    ReplayPast([], records, file[|LogBytes(records)|..]);
  }

  /** Replay over whole records goes on with whatever parses behind them. */
  lemma {:induction false} ReplayPast(a: seq<byte>, records: seq<seq<byte>>, tail: seq<byte>)
    requires AllLoggable(records)
    ensures var file := a + LogBytes(records) + tail;
            ReplayFrom(file, |a|) == records + ReplayFrom(file, |a| + |LogBytes(records)|)
    decreases |records|
  {
    hide Record, Parse, LogBytes, Loggable;
    var file := a + LogBytes(records) + tail;
    if records == [] {
      EmptyLog(records);
    } else {
      var first, others := records[0], records[1..];
      var a' := a + Record(first);
      LogBytesCons(records);
      assert file == a + Record(first) + (LogBytes(others) + tail);
      RecordReadsBackExactly(a, first, LogBytes(others) + tail);
      assert file == a' + LogBytes(others) + tail;
      assert |a| + |LogBytes(records)| == |a'| + |LogBytes(others)|;
      ReplayPast(a', others, tail);
      assert records == [first] + others;
    }
  }

  /** Reopening a log appends after a torn tail. Replay then ends with the records before
      the tail, and finds nothing of what was appended, if and only if the torn bytes and
      the new ones together do not happen to parse as a record. */
  lemma TornTailHidesLaterRecords(records: seq<seq<byte>>, torn: seq<byte>, n: nat, later: seq<seq<byte>>)
    requires AllLoggable(records) && 0 < n < |Record(torn)|
    ensures var file := Reopened(records, torn, n, later);
            ReplayFrom(file, 0) == records <==> Parse(file, |LogBytes(records)|) == None
  {
    hide LogBytes, Record, Parse, Loggable;
    var file := Reopened(records, torn, n, later);
    if Parse(file, |LogBytes(records)|) == None {
      assert [] + LogBytes(records) + (Record(torn)[..n] + LogBytes(later)) == file;
      ReplayWhole([], records, Record(torn)[..n] + LogBytes(later));
    } else {
      OneMoreThan(file, records);
    }
  }

  /** Once the torn record's header is in the file, that happens only when at least as many
      bytes follow as it was to have, and their checksum is the torn record's. */
  lemma TornHeaderExactly(records: seq<seq<byte>>, torn: seq<byte>, n: nat, later: seq<seq<byte>>)
    requires Loggable(torn) && RECORD_HEADER_SIZE <= n < |Record(torn)|
    ensures var file := Reopened(records, torn, n, later);
            var pos := |LogBytes(records)|;
            Parse(file, pos) == None
            <==> |file| - pos < |Record(torn)| || Crc(file[pos + RECORD_HEADER_SIZE..pos + |Record(torn)|]) != Crc(torn)
  {
    hide PutLE, GetLE, LogBytes;
    var file, pos := Reopened(records, torn, n, later), |LogBytes(records)|;
    assert file[pos..pos + 8] == Record(torn)[..8];
    RecordFields(torn, file, pos);
  }

  // ----- writing

  /** The writer over its file. What a crash leaves is a prefix of the file at least as
      long as the synced part. */
  class Writer {
    var file: seq<byte>       // handed to the operating system
    var buf: seq<byte>        // still in the bufio.Writer
    var offset: nat
    var bytesSinceFlush: nat
    const byteThreshold: nat
    var closed: bool
    ghost var synced: nat     // how many bytes of the file are fsynced
    ghost const base: seq<byte>            // what stood in the file before the known records
    ghost var records: seq<seq<byte>>      // the known records, in order
    ghost var syncedRecords: nat

    ghost predicate Valid()
      reads this
    {
      && byteThreshold > 0
      && file + buf == base + LogBytes(records)
      && offset == |file| + |buf|
      && |buf| <= BUFFER_SIZE
      && synced <= |file|
      && synced + bytesSinceFlush == offset
      && syncedRecords <= |records|
      && synced == |base| + Offset(records, syncedRecords)
      && (closed ==> synced == offset)
    }

    /** Opening for append: the existing bytes count as synced. */
    constructor (existing: seq<byte>, byteThreshold: nat, ghost base: seq<byte>, ghost records: seq<seq<byte>>)
      requires byteThreshold > 0 && existing == base + LogBytes(records)
      ensures Valid() && !closed
      ensures this.base == base && this.records == records && syncedRecords == |records|
      ensures this.byteThreshold == byteThreshold && file == existing
    {
      file, buf, offset, bytesSinceFlush := existing, [], |existing|, 0;
      this.byteThreshold, closed := byteThreshold, false;
      synced, this.base, this.records, syncedRecords := |existing|, base, records, |records|;
      new;
      assert records[..|records|] == records;
    }

    /** bufio.Writer.Write: whatever does not fit the buffer goes to the file. */
    method BufWrite(p: seq<byte>)
      requires |buf| <= BUFFER_SIZE
      modifies `file, `buf
      ensures |buf| <= BUFFER_SIZE && file + buf == old(file + buf) + p && |file| >= old(|file|)
    {
      var rest := p;
      while |rest| > BUFFER_SIZE - |buf|
        invariant |buf| <= BUFFER_SIZE && file + buf + rest == old(file + buf) + p && |file| >= old(|file|)
        decreases |rest|, |buf|
      {
        if |buf| == 0 {
          file, rest := file + rest, [];
        } else {
          var n := BUFFER_SIZE - |buf|;
          file, buf, rest := file + (buf + rest[..n]), [], rest[n..];
        }
      }
      buf := buf + rest;
    }

    method Append(data: seq<byte>) returns (ok: bool)
      requires Valid()
      modifies this
      ensures Valid() && closed == old(closed) && ok == !closed
      ensures ok ==> records == old(records) + [data] && offset == old(offset) + |Record(data)|
      ensures ok ==> bytesSinceFlush < byteThreshold
      ensures ok ==> syncedRecords == old(syncedRecords) || syncedRecords == |records|
      ensures !ok ==> unchanged(this)
    {
      hide Record;
      if closed {
        return false;
      }
      var record := Record(data);
      BufWrite(record);
      bytesSinceFlush := bytesSinceFlush + |record|;
      offset := offset + |record|;
      LogBytesSnoc(records, data);
      assert (records + [data])[..syncedRecords] == records[..syncedRecords];
      records := records + [data];
      if bytesSinceFlush >= byteThreshold {
        Flush();
      }
      ok := true;
    }

    method Flush()
      requires Valid()
      modifies this
      ensures Valid() && bytesSinceFlush == 0 && syncedRecords == |records|
      ensures records == old(records) && offset == old(offset) && closed == old(closed)
    {
      file, buf := file + buf, [];
      bytesSinceFlush := 0;
      synced, syncedRecords := offset, |records|;
      assert records[..|records|] == records;
    }

    /** Syncing a closed file is an error and changes nothing. */
    method Sync() returns (ok: bool)
      requires Valid()
      modifies this
      ensures Valid() && ok == !closed
      ensures records == old(records) && offset == old(offset) && closed == old(closed)
      ensures ok ==> bytesSinceFlush == 0 && syncedRecords == |records|
      ensures !ok ==> unchanged(this)
    {
      ok := !closed;
      if ok {
        Flush();
      }
    }

    /** One tick of the fsync loop. */
    method FsyncTick()
      requires Valid()
      modifies this
      ensures Valid() && bytesSinceFlush == 0
      ensures records == old(records) && offset == old(offset) && closed == old(closed)
      ensures old(bytesSinceFlush) == 0 ==> unchanged(this)
      ensures old(bytesSinceFlush) > 0 ==> syncedRecords == |records|
    {
      if !closed && bytesSinceFlush > 0 {
        Flush();
      }
    }

    method Close()
      requires Valid()
      modifies this
      ensures Valid() && closed && bytesSinceFlush == 0
      ensures records == old(records) && offset == old(offset)
    {
      if !closed {
        Flush();
        closed := true;
      }
    }
  }

  /** The loss window: a crash that leaves the first c bytes of the file, the synced ones
      among them, keeps a prefix of the records and loses at most the unsynced bytes. */
  lemma LossWindow(w: Writer, c: nat)
    requires w.Valid() && w.base == [] && AllLoggable(w.records)
    requires w.synced <= c <= |w.file|
    ensures var k := Whole(w.records, c);
            w.syncedRecords <= k && ReplayFrom(w.file[..c], 0) == w.records[..k] &&
            |LogBytes(w.records)| - Offset(w.records, k) <= w.bytesSinceFlush
  {
    hide LogBytes, Whole, Parse, Loggable;
    assert [] + LogBytes(w.records) == LogBytes(w.records);
    assert w.file[..c] == LogBytes(w.records)[..c];
    CrashLosesSuffix(w.records, w.syncedRecords, c);
  }
}
