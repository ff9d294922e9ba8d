/** Reading segment files back (internal/segment/segment.go): the footer locates the
    index, a binary search finds the series and a fixed-size window over the file is
    decoded. */
module SegmentReader {
  import opened Words
  import opened Points
  import opened Segment
  import V1 = SegmentV1
  import V2 = GorillaSeries
  import GorillaTimestamps
  import GorillaValuesRoundTrip

  /** An opened segment: the file and what the header and the index say. */
  datatype Reader = Reader(file: seq<byte>, version: byte, blockStart: int64, blockEnd: int64, index: seq<IndexEntry>)

  function ParseEntry(b: seq<byte>): IndexEntry
    requires |b| == ENTRY_SIZE
  {
    IndexEntry(GetU64(b[0..8]), GetU64(b[8..16]), GetU32(b[16..20]))
  }

  function ParseIndex(b: seq<byte>): (index: seq<IndexEntry>)
    ensures |index| == |b| / ENTRY_SIZE
  {
    seq(|b| / ENTRY_SIZE, i requires 0 <= i < |b| / ENTRY_SIZE =>
      ParseEntry(b[i * ENTRY_SIZE..i * ENTRY_SIZE + ENTRY_SIZE]))
  }

  /** Where the footer says the index starts. */
  function IndexOffset(file: seq<byte>): int64
    requires |file| >= HEADER_SIZE + FOOTER_SIZE
  {
    ToSigned(GetU64(file[|file| - 8..]))
  }

  /** The largest allocation of the Go runtime; make panics beyond it. */
  const MAX_ALLOCATION: int := 0x1_0000_0000_0000

  /** An index said to start before the file: its size is checked and allocated before the
      read at a negative offset fails. */
  function NegativeIndex<T>(footerOff: nat, idxOffset: int): Result<T> {
    var idxSize := Wrap(footerOff - idxOffset) as int;
    if idxSize > MAX_ALLOCATION && idxSize % ENTRY_SIZE == 0 then Panic else Corrupt
  }

  function Open(file: seq<byte>): Result<Reader> {
    if |file| < HEADER_SIZE + FOOTER_SIZE then Corrupt
    else if file[..4] != MAGIC then Corrupt
    else
      var footerOff := |file| - FOOTER_SIZE;
      var idxOffset := IndexOffset(file);
      if idxOffset < 0 then NegativeIndex(footerOff, idxOffset)
      else if footerOff < idxOffset || (footerOff - idxOffset) % ENTRY_SIZE != 0 then Corrupt
      else Ok(Reader(file, file[4], ToSigned(GetU64(file[5..13])), ToSigned(GetU64(file[13..21])),
                     ParseIndex(file[idxOffset..footerOff])))
  }

  method OpenReader(file: seq<byte>) returns (r: Result<Reader>)
    ensures r == Open(file)
  {
    hide GetLE;
    if |file| < HEADER_SIZE + FOOTER_SIZE {
      return Corrupt;
    }
    if file[..4] != MAGIC {
      return Corrupt;
    }
    var index :- ReadIndex(file);
    r := Ok(Reader(file, file[4], ToSigned(GetU64(file[5..13])), ToSigned(GetU64(file[13..21])), index));
  }

  method ReadIndex(file: seq<byte>) returns (r: Result<seq<IndexEntry>>)
    requires |file| >= HEADER_SIZE + FOOTER_SIZE
    ensures var footerOff, idxOffset := |file| - FOOTER_SIZE, IndexOffset(file);
            r == if idxOffset < 0 then NegativeIndex(footerOff, idxOffset)
                 else if footerOff < idxOffset || (footerOff - idxOffset) % ENTRY_SIZE != 0 then Corrupt
                 else Ok(ParseIndex(file[idxOffset..footerOff]))
  {
    hide GetLE, ParseEntry;
    var footerOff := |file| - FOOTER_SIZE;
    var idxOffset := IndexOffset(file);
    if idxOffset < 0 {
      return NegativeIndex(footerOff, idxOffset);
    }
    var idxSize := footerOff - (idxOffset as int);
    if idxSize < 0 || idxSize % ENTRY_SIZE != 0 {
      return Corrupt;
    }
    var idxBuf := file[idxOffset..footerOff];
    var index: seq<IndexEntry> := [];
    for i := 0 to idxSize / ENTRY_SIZE
      invariant index == ParseIndex(idxBuf)[..i]
    {
      var base := i * ENTRY_SIZE;
      index := index + [ParseEntry(idxBuf[base..base + ENTRY_SIZE])];
    }
    assert ParseIndex(idxBuf)[..|ParseIndex(idxBuf)|] == ParseIndex(idxBuf);
    r := Ok(index);
  }

  // ----- finding and decoding a series

  /** sort.Search for the first entry in [i, j) whose ID is at least id. */
  function SearchFrom(index: seq<IndexEntry>, id: uint64, i: nat, j: nat): (k: nat)
    requires i <= j <= |index|
    ensures i <= k <= j
    decreases j - i
  {
    if i < j then
      var h := (i + j) / 2;
      if index[h].id >= id then SearchFrom(index, id, i, h) else SearchFrom(index, id, h + 1, j)
    else i
  }

  /** What ReadAt delivers into a buffer of max bytes. */
  function Window(file: seq<byte>, offset: nat, max: nat): (w: seq<byte>)
    ensures |w| <= max
  {
    if offset > |file| then []
    else if offset + max <= |file| then file[offset..offset + max]
    else file[offset..]
  }

  function DecodeAt(r: Reader, entry: IndexEntry): Result<seq<Point>> {
    var offset := ToSigned(entry.offset);
    if offset < 0 then Corrupt
    else if r.version >= 2 then V2.Decode(Window(r.file, offset, entry.numPoints * 16), entry.numPoints)
    else
      var maxSize := V1.Capacity(entry.numPoints);
      V1.Decode(Window(r.file, offset, maxSize), maxSize, entry.numPoints)
  }

  /** The points of a series; a series that is not in the file has none. */
  function Lookup(r: Reader, id: uint64): Result<seq<Point>> {
    var k := SearchFrom(r.index, id, 0, |r.index|);
    if k >= |r.index| || r.index[k].id != id then Ok([]) else DecodeAt(r, r.index[k])
  }

  method ReadSeries(r: Reader, id: uint64) returns (pts: Result<seq<Point>>)
    ensures pts == Lookup(r, id)
  {
    hide V1.Decode, V2.Decode, Window;
    var i, j := 0, |r.index|;
    while i < j
      invariant 0 <= i <= j <= |r.index|
      invariant SearchFrom(r.index, id, 0, |r.index|) == SearchFrom(r.index, id, i, j)
    {
      var h := (i + j) / 2;
      if r.index[h].id >= id {
        j := h;
      } else {
        i := h + 1;
      }
    }
    if i >= |r.index| || r.index[i].id != id {
      return Ok([]);
    }
    pts := DecodeSeriesAt(r, r.index[i]);
  }

  method DecodeSeriesAt(r: Reader, entry: IndexEntry) returns (pts: Result<seq<Point>>)
    ensures pts == DecodeAt(r, entry)
  {
    hide V1.Decode, V2.Decode, Window;
    var offset := ToSigned(entry.offset);
    if offset < 0 {
      return Corrupt;
    }
    if r.version >= 2 {
      var maxSize := entry.numPoints * 16;
      pts := V2.DecodeSeries(Window(r.file, offset, maxSize), entry.numPoints);
    } else {
      var maxSize := 8 + entry.numPoints * 8 + entry.numPoints * 8;
      pts := V1.DecodePoints(Window(r.file, offset, maxSize), maxSize, entry.numPoints);
    }
  }

  /** Every series of the first n index entries. */
  function AllOf(r: Reader, n: nat): Result<map<uint64, seq<Point>>>
    requires n <= |r.index|
  {
    if n == 0 then Ok(map[])
    else
      var before :- AllOf(r, n - 1);
      var id := r.index[n - 1].id;
      var pts :- Lookup(r, id);
      Ok(before[id := pts])
  }

  method ReadAll(r: Reader) returns (all: Result<map<uint64, seq<Point>>>)
    ensures all == AllOf(r, |r.index|)
  {
    hide Lookup;
    var result: map<uint64, seq<Point>> := map[];
    for n := 0 to |r.index|
      invariant AllOf(r, n) == Ok(result)
    {
      var pts := ReadSeries(r, r.index[n].id);
      if !pts.Ok? {
        FailedSoFar(r, n + 1, |r.index|);
        return pts.PropagateFailure();
      }
      result := result[r.index[n].id := pts.value];
    }
    all := Ok(result);
  }

  lemma {:induction false} FailedSoFar(r: Reader, m: nat, n: nat)
    requires m <= n <= |r.index| && !AllOf(r, m).Ok?
    ensures AllOf(r, n) == AllOf(r, m)
  {
    if m < n {
      FailedSoFar(r, m, n - 1);
    }
  }

  // ----- a written file, read back

  /** Series in a form a file can hold: points in each, strictly increasing IDs, counts
      that fit the index, and a file whose offsets fit an int64. */
  ghost predicate Storable(version: byte, list: seq<SeriesPoints>) {
    && (forall i :: 0 <= i < |list| ==> 0 < |list[i].points| < TWO_32)
    && (forall i, j :: 0 <= i < j < |list| ==> list[i].id < list[j].id)
    && OffsetOf(version, list, |list|) < TWO_63
  }

  /** The index a reader must find. */
  ghost function IndexOf(version: byte, list: seq<SeriesPoints>): (index: seq<IndexEntry>)
    requires Storable(version, list)
    ensures |index| == |list|
  {
    seq(|list|, i requires 0 <= i < |list| =>
      OffsetBound(version, list, i);
      IndexEntry(list[i].id, OffsetOf(version, list, i), |list[i].points|))
  }

  lemma OffsetBound(version: byte, list: seq<SeriesPoints>, k: nat)
    requires k <= |list|
    ensures OffsetOf(version, list, k) <= OffsetOf(version, list, |list|)
  {
    hide DataChunks;
    var data := DataChunks(version, list);
    ConcatSplit(data, k);
    assert data[..|data|] == data;
  }

  lemma {:induction false} EntriesInPlace(chunks: seq<seq<byte>>, k: nat)
    requires forall i :: 0 <= i < |chunks| ==> |chunks[i]| == ENTRY_SIZE
    requires k < |chunks|
    ensures |Concat(chunks)| == |chunks| * ENTRY_SIZE
    ensures Concat(chunks)[k * ENTRY_SIZE..k * ENTRY_SIZE + ENTRY_SIZE] == chunks[k]
    decreases |chunks|
  {
    var n := |chunks| - 1;
    var init := chunks[..n];
    if n > 0 {
      EntriesInPlace(init, if k < n then k else 0);
    }
    assert |Concat(init)| == n * ENTRY_SIZE;
    var from, to := k * ENTRY_SIZE, k * ENTRY_SIZE + ENTRY_SIZE;
    if k < n {
      assert Concat(chunks)[from..to] == Concat(init)[from..to];
    } else {
      assert Concat(chunks)[from..to] == chunks[n];
    }
  }

  lemma EntryRoundTrip(id: uint64, offset: uint64, numPoints: uint32)
    ensures ParseEntry(EntryChunk(id, offset, numPoints)) == IndexEntry(id, offset, numPoints)
  {
    hide PutLE, GetLE;
    var c := EntryChunk(id, offset, numPoints);
    assert c[0..8] == PutLE(id, 8) && c[8..16] == PutLE(offset, 8) && c[16..20] == PutLE(numPoints, 4);
    LE64RoundTrip(id);
    LE64RoundTrip(offset);
    LE32RoundTrip(numPoints);
  }

  lemma IndexRoundTrip(version: byte, list: seq<SeriesPoints>)
    requires Storable(version, list)
    ensures |Concat(IndexChunks(version, list))| == ENTRY_SIZE * |list|
    ensures ParseIndex(Concat(IndexChunks(version, list))) == IndexOf(version, list)
  {
    hide Concat, EntryChunk, ParseEntry, OffsetOf;
    var chunks := IndexChunks(version, list);
    if |list| > 0 {
      EntriesInPlace(chunks, 0);
    } else {
      EmptyConcat(chunks);
    }
    forall k | 0 <= k < |list|
      ensures ParseIndex(Concat(chunks))[k] == IndexOf(version, list)[k]
    {
      EntriesInPlace(chunks, k);
      OffsetBound(version, list, k);
      EntryRoundTrip(list[k].id, OffsetOf(version, list, k), |list[k].points|);
    }
  }

  lemma EmptyConcat(chunks: seq<seq<byte>>)
    requires chunks == []
    ensures Concat(chunks) == []
  {
  }

  /** The four parts of a file. */
  lemma FileParts(version: byte, list: seq<SeriesPoints>, blockStart: int64, blockEnd: int64)
    ensures FileBytes(version, list, blockStart, blockEnd) ==
            Header(version, blockStart, blockEnd) + Concat(DataChunks(version, list))
            + Concat(IndexChunks(version, list))
            + Footer(Checksum(Body(version, list, blockStart, blockEnd)), OffsetOf(version, list, |list|))
  {
    hide Concat, Header, DataChunks, IndexChunks, Footer, Checksum, OffsetOf;
    var h, d, i := Header(version, blockStart, blockEnd), DataChunks(version, list), IndexChunks(version, list);
    ConcatSplit([h] + d + i, |[h] + d|);
    assert ([h] + d + i)[..|[h] + d|] == [h] + d && ([h] + d + i)[|[h] + d|..] == i;
    HeaderFirst(h, d);
  }

  lemma OpenParts(version: byte, blockStart: int64, blockEnd: int64, data: seq<byte>, index: seq<byte>, crc: uint32)
    requires |index| % ENTRY_SIZE == 0 && HEADER_SIZE + |data| < TWO_63
    ensures var file := Header(version, blockStart, blockEnd) + data + index + Footer(crc, HEADER_SIZE + |data|);
            Open(file) == Ok(Reader(file, version, blockStart, blockEnd, ParseIndex(index)))
  {
    hide PutLE, GetLE, ParseIndex;
    var h, f := Header(version, blockStart, blockEnd), Footer(crc, HEADER_SIZE + |data|);
    var file := h + data + index + f;
    assert file[..21] == h;
    assert file[..4] == h[..4] == MAGIC && file[4] == h[4] == version;
    assert file[5..13] == h[5..13] == PutLE(ToUnsigned(blockStart), 8);
    assert file[13..21] == h[13..21] == PutLE(ToUnsigned(blockEnd), 8);
    LE64RoundTrip(ToUnsigned(blockStart));
    SignedRoundTrip(blockStart);
    LE64RoundTrip(ToUnsigned(blockEnd));
    SignedRoundTrip(blockEnd);
    assert file[|file| - 8..] == f[4..] == PutLE(HEADER_SIZE + |data|, 8);
    LE64RoundTrip(HEADER_SIZE + |data|);
    assert file[21 + |data|..|file| - FOOTER_SIZE] == index;
  }

  /** A written file opens, with exactly the index of the series it holds. */
  lemma OpenWritten(version: byte, list: seq<SeriesPoints>, blockStart: int64, blockEnd: int64)
    requires Storable(version, list)
    ensures var file := FileBytes(version, list, blockStart, blockEnd);
            Open(file) == Ok(Reader(file, version, blockStart, blockEnd, IndexOf(version, list)))
  {
    hide Concat, Header, DataChunks, IndexChunks, Footer, Checksum, Open, FileBytes, IndexOf;
    FileParts(version, list, blockStart, blockEnd);
    IndexRoundTrip(version, list);
    var data := DataChunks(version, list);
    assert data[..|data|] == data;
    OpenParts(version, blockStart, blockEnd, Concat(data), Concat(IndexChunks(version, list)),
              Checksum(Body(version, list, blockStart, blockEnd)));
  }

  /** At the offset the index gives stands the block of the series, and at least an index
      entry and the footer behind it. */
  lemma BlockAt(version: byte, list: seq<SeriesPoints>, blockStart: int64, blockEnd: int64,
                k: nat) returns (rest: seq<byte>)
    requires k < |list|
    ensures var file := FileBytes(version, list, blockStart, blockEnd);
            OffsetOf(version, list, k) <= |file| &&
            file[OffsetOf(version, list, k)..] == EncodeSeries(version, list[k].points) + rest
  {
    hide Concat, Header, IndexChunks, Footer, Checksum, FileBytes, EncodeSeries;
    var data := DataChunks(version, list);
    FileParts(version, list, blockStart, blockEnd);
    ConcatSplit(data, k + 1);
    assert data[..k + 1] == data[..k] + [data[k]];
    ConcatSnoc(data[..k], data[k]);
    var index := Concat(IndexChunks(version, list));
    var footer := Footer(Checksum(Body(version, list, blockStart, blockEnd)), OffsetOf(version, list, |list|));
    rest := Concat(data[k + 1..]) + index + footer;
    var file := FileBytes(version, list, blockStart, blockEnd);
    var front := Header(version, blockStart, blockEnd) + Concat(data[..k]);
    assert file == front + (data[k] + rest);
    assert file[|front|..] == data[k] + rest;
  }

  ghost predicate Increasing(index: seq<IndexEntry>) {
    forall i, j :: 0 <= i < j < |index| ==> index[i].id < index[j].id
  }

  /** Binary search on an increasing index: everything before is smaller, the rest is not. */
  lemma {:induction false} SearchSplits(index: seq<IndexEntry>, id: uint64, i: nat, j: nat)
    requires Increasing(index) && i <= j <= |index|
    requires forall m :: 0 <= m < i ==> index[m].id < id
    requires forall m :: j <= m < |index| ==> index[m].id >= id
    ensures var k := SearchFrom(index, id, i, j);
            (forall m :: 0 <= m < k ==> index[m].id < id) &&
            (forall m :: k <= m < |index| ==> index[m].id >= id)
    decreases j - i
  {
    if i < j {
      var h := (i + j) / 2;
      if index[h].id >= id {
        SearchSplits(index, id, i, h);
      } else {
        SearchSplits(index, id, h + 1, j);
      }
    }
  }

  /** Looking up a stored series decodes the window at its offset, and an absent one is
      empty. */
  lemma LookupWritten(version: byte, list: seq<SeriesPoints>, blockStart: int64, blockEnd: int64, id: uint64)
    requires Storable(version, list)
    ensures var file := FileBytes(version, list, blockStart, blockEnd);
            var index := IndexOf(version, list);
            var r := Reader(file, version, blockStart, blockEnd, index);
            (forall k :: 0 <= k < |list| && list[k].id == id ==> Lookup(r, id) == DecodeAt(r, index[k])) &&
            ((forall k :: 0 <= k < |list| ==> list[k].id != id) ==> Lookup(r, id) == Ok([]))
  {
    hide FileBytes, DecodeAt, OffsetOf;
    var index := IndexOf(version, list);
    assert Increasing(index);
    SearchSplits(index, id, 0, |index|);
  }

  lemma WindowOfBlock(file: seq<byte>, offset: nat, block: seq<byte>, rest: seq<byte>, max: nat)
    requires offset <= |file| && file[offset..] == block + rest
    ensures var w := Window(file, offset, max);
            w <= block + rest && (|w| == max || (|w| < max && w == block + rest))
  {
    if offset + max <= |file| {
      assert file[offset..offset + max] == file[offset..][..max];
    }
  }

  /** The v1 file format: a stored series reads back exactly, if and only if its deltas
      respect the reader's budget; otherwise the reader panics. */
  lemma ReadBackV1(list: seq<SeriesPoints>, blockStart: int64, blockEnd: int64, k: nat)
    requires Storable(1, list) && k < |list|
    ensures var r := Open(FileBytes(1, list, blockStart, blockEnd));
            var points := list[k].points;
            r.Ok? && Lookup(r.value, list[k].id) ==
                     if |V1.Encode(points)| <= 16 * |points| + 8 then Ok(points) else Panic
  {
    hide FileBytes, Open, V1.Decode, V1.Encode, Lookup, Window, OffsetOf;
    var file := FileBytes(1, list, blockStart, blockEnd);
    var points := list[k].points;
    OpenWritten(1, list, blockStart, blockEnd);
    LookupWritten(1, list, blockStart, blockEnd, list[k].id);
    var rest := BlockAt(1, list, blockStart, blockEnd, k);
    OffsetBound(1, list, k);
    var offset := OffsetOf(1, list, k);
    WindowOfBlock(file, offset, V1.Encode(points), rest, V1.Capacity(|points|));
    V1.WindowExactly(points, rest, Window(file, offset, V1.Capacity(|points|)));
  }

  /** The v2 file format, for delta-of-deltas that fit the short codes: a stored series
      reads back exactly if and only if every window-opening XOR has at most 31 leading
      zeros and the encoding is at most 16 bytes a point. From four points on it always
      is; a single point never is. */
  lemma ReadBackV2(list: seq<SeriesPoints>, blockStart: int64, blockEnd: int64, k: nat)
    requires Storable(2, list) && k < |list|
    requires GorillaTimestamps.SmallSteps(Timestamps(list[k].points))
    ensures var r := Open(FileBytes(2, list, blockStart, blockEnd));
            var points := list[k].points;
            r.Ok? &&
            (Lookup(r.value, list[k].id) == Ok(points) <==>
             GorillaValuesRoundTrip.WindowsFit(Values(points)) && |V2.Encode(points)| <= 16 * |points|) &&
            (|points| >= 4 ==> |V2.Encode(points)| <= 16 * |points|) &&
            (|points| == 1 ==> |V2.Encode(points)| == 17)
  {
    hide FileBytes, Open, V2.Decode, V2.Encode, Lookup, Window, OffsetOf, GorillaValuesRoundTrip.WindowsFit;
    var file := FileBytes(2, list, blockStart, blockEnd);
    var points := list[k].points;
    OpenWritten(2, list, blockStart, blockEnd);
    LookupWritten(2, list, blockStart, blockEnd, list[k].id);
    var rest := BlockAt(2, list, blockStart, blockEnd, k);
    OffsetBound(2, list, k);
    var offset := OffsetOf(2, list, k);
    WindowOfBlock(file, offset, V2.Encode(points), rest, 16 * |points|);
    V2.WindowExactly(points, rest, Window(file, offset, 16 * |points|));
  }

  /** A series that was not written has no points in the file. */
  lemma ReadMissing(version: byte, list: seq<SeriesPoints>, blockStart: int64, blockEnd: int64, id: uint64)
    requires Storable(version, list)
    requires forall k :: 0 <= k < |list| ==> list[k].id != id
    ensures var r := Open(FileBytes(version, list, blockStart, blockEnd));
            r.Ok? && Lookup(r.value, id) == Ok([])
  {
    hide FileBytes, Open, Lookup;
    OpenWritten(version, list, blockStart, blockEnd);
    LookupWritten(version, list, blockStart, blockEnd, id);
  }

  /** Series as a table from ID to points. */
  ghost function TableOf(list: seq<SeriesPoints>): map<uint64, seq<Point>> {
    if list == [] then map[]
    else TableOf(list[..|list| - 1])[list[|list| - 1].id := list[|list| - 1].points]
  }

  ghost predicate AllFit(list: seq<SeriesPoints>) {
    forall i :: 0 <= i < |list| ==> V1.FitsBudget(list[i].points)
  }

  /** Reading a whole v1 file gives back the table if and only if every series respects the
      reader's budget; otherwise the reader panics. */
  lemma ReadAllV1(list: seq<SeriesPoints>, blockStart: int64, blockEnd: int64)
    requires Storable(1, list)
    ensures var r := Open(FileBytes(1, list, blockStart, blockEnd));
            r.Ok? && AllOf(r.value, |r.value.index|) == if AllFit(list) then Ok(TableOf(list)) else Panic
  {
    hide FileBytes, Open, AllFit, OffsetOf;
    OpenWritten(1, list, blockStart, blockEnd);
    AllOfPrefix(list, blockStart, blockEnd, |list|);
    assert list[..|list|] == list;
  }

  lemma {:induction false} AllOfPrefix(list: seq<SeriesPoints>, blockStart: int64, blockEnd: int64, n: nat)
    requires Storable(1, list) && n <= |list|
    ensures var r := Reader(FileBytes(1, list, blockStart, blockEnd), 1, blockStart, blockEnd, IndexOf(1, list));
            AllOf(r, n) == if AllFit(list[..n]) then Ok(TableOf(list[..n])) else Panic
  {
    hide FileBytes, Open, V1.Encode, Lookup, OffsetOf;
    if n > 0 {
      AllOfPrefix(list, blockStart, blockEnd, n - 1);
      OpenWritten(1, list, blockStart, blockEnd);
      ReadBackV1(list, blockStart, blockEnd, n - 1);
      assert list[..n][..n - 1] == list[..n - 1];
      FitsOneMore(list, n - 1);
    }
  }

  lemma FitsOneMore(list: seq<SeriesPoints>, n: nat)
    requires n < |list|
    ensures AllFit(list[..n + 1]) <==> AllFit(list[..n]) && V1.FitsBudget(list[n].points)
  {
    hide V1.FitsBudget;
    assert forall i :: 0 <= i < n ==> list[..n + 1][i] == list[..n][i];
    assert list[..n + 1][n] == list[n];
  }
}
