/** Immutable segment files (internal/segment/segment.go): a header, one encoded block per
    series, an index sorted by series ID and a footer that locates the index. */
module Segment {
  import opened Words
  import opened Points
  import Crc32
  import V1 = SegmentV1
  import V2 = GorillaSeries

  const MAGIC: seq<byte> := [67, 72, 68, 66]
  const HEADER_SIZE := 21
  const FOOTER_SIZE := 12
  const ENTRY_SIZE := 20

  datatype SeriesPoints = SeriesPoints(id: uint64, points: seq<Point>)
  datatype IndexEntry = IndexEntry(id: uint64, offset: uint64, numPoints: uint32)

  // ----- the layout of a file

  /** All chunks in order. */
  function Concat(chunks: seq<seq<byte>>): seq<byte> {
    if chunks == [] then [] else Concat(chunks[..|chunks| - 1]) + chunks[|chunks| - 1]
  }

  /** The running checksum over chunks written one after the other. */
  function Checksum(chunks: seq<seq<byte>>): uint32 {
    if chunks == [] then 0 else Crc32.Update(Checksum(chunks[..|chunks| - 1]), chunks[|chunks| - 1])
  }

  function EncodeSeries(version: byte, points: seq<Point>): seq<byte> {
    if version >= 2 then V2.Encode(points) else V1.Encode(points)
  }

  /** Series without points are skipped. */
  function Occupied(list: seq<SeriesPoints>): (r: seq<SeriesPoints>)
    ensures forall s :: s in r <==> s in list && s.points != []
  {
    if list == [] then []
    else
      var init := Occupied(list[..|list| - 1]);
      if list[|list| - 1].points == [] then init else init + [list[|list| - 1]]
  }

  function Header(version: byte, blockStart: int64, blockEnd: int64): (h: seq<byte>)
    ensures |h| == HEADER_SIZE
  {
    MAGIC + [version] + PutLE(ToUnsigned(blockStart), 8) + PutLE(ToUnsigned(blockEnd), 8)
  }

  function DataChunks(version: byte, list: seq<SeriesPoints>): (c: seq<seq<byte>>)
    ensures |c| == |list|
  {
    seq(|list|, i requires 0 <= i < |list| => EncodeSeries(version, list[i].points))
  }

  /** Where the block of series k starts. */
  function OffsetOf(version: byte, list: seq<SeriesPoints>, k: nat): nat
    requires k <= |list|
  {
    HEADER_SIZE + |Concat(DataChunks(version, list)[..k])|
  }

  function EntryChunk(id: nat, offset: nat, numPoints: nat): (c: seq<byte>)
    ensures |c| == ENTRY_SIZE
  {
    PutLE(id, 8) + PutLE(offset, 8) + PutLE(numPoints, 4)
  }

  function IndexChunks(version: byte, list: seq<SeriesPoints>): (c: seq<seq<byte>>)
    ensures |c| == |list|
  {
    seq(|list|, i requires 0 <= i < |list| =>
      EntryChunk(list[i].id, OffsetOf(version, list, i), |list[i].points|))
  }

  function Footer(crc: uint32, indexOffset: nat): (f: seq<byte>)
    ensures |f| == FOOTER_SIZE
  {
    PutLE(crc, 4) + PutLE(indexOffset, 8)
  }

  /** Everything the checksum covers. */
  function Body(version: byte, list: seq<SeriesPoints>, blockStart: int64, blockEnd: int64): seq<seq<byte>> {
    [Header(version, blockStart, blockEnd)] + DataChunks(version, list) + IndexChunks(version, list)
  }

  /** The file written for series that all have points and are sorted by ID. */
  function FileBytes(version: byte, list: seq<SeriesPoints>, blockStart: int64, blockEnd: int64): seq<byte> {
    var body := Body(version, list, blockStart, blockEnd);
    Concat(body) + Footer(Checksum(body), OffsetOf(version, list, |list|))
  }

  lemma {:induction false} ConcatSplit(chunks: seq<seq<byte>>, k: nat)
    requires k <= |chunks|
    ensures Concat(chunks) == Concat(chunks[..k]) + Concat(chunks[k..])
  {
    if k == |chunks| {
      assert chunks[..k] == chunks;
    } else {
      var n := |chunks| - 1;
      ConcatSplit(chunks[..n], k);
      assert chunks[..n][..k] == chunks[..k] && chunks[..n][k..] == chunks[k..][..n - k];
    }
  }

  lemma ConcatSnoc(chunks: seq<seq<byte>>, c: seq<byte>)
    ensures Concat(chunks + [c]) == Concat(chunks) + c
    ensures Checksum(chunks + [c]) == Crc32.Update(Checksum(chunks), c)
  {
    assert (chunks + [c])[..|chunks|] == chunks;
  }

  // ----- writing

  ghost predicate SortedById(list: seq<SeriesPoints>) {
    forall i, j :: 0 <= i < j < |list| ==> list[i].id <= list[j].id
  }

  /** sort.Slice on series IDs. */
  method SortById(list: seq<SeriesPoints>) returns (r: seq<SeriesPoints>)
    ensures SortedById(r) && multiset(r) == multiset(list)
  {
    r := [];
    for n := 0 to |list|
      invariant SortedById(r) && multiset(r) == multiset(list[..n])
    {
      assert list[..n + 1] == list[..n] + [list[n]];
      r := InsertById(r, list[n]);
    }
    assert list[..|list|] == list;
  }

  method InsertById(r: seq<SeriesPoints>, s: SeriesPoints) returns (out: seq<SeriesPoints>)
    requires SortedById(r)
    ensures SortedById(out) && multiset(out) == multiset(r) + multiset{s}
  {
    var k := 0;
    while k < |r| && r[k].id < s.id
      invariant 0 <= k <= |r|
      invariant forall i :: 0 <= i < k ==> r[i].id < s.id
    {
      k := k + 1;
    }
    out := r[..k] + [s] + r[k..];
    MultisetInsert(r, k, s);
  }

  /** The file being written, how much of it is written and the checksum so far. */
  class Writer {
    var file: seq<byte>
    var offset: nat
    var crc: uint32
    const version: byte
    ghost var body: seq<seq<byte>>

    ghost predicate Valid()
      reads this
    {
      file == Concat(body) && crc == Checksum(body) && offset == |file|
    }

    constructor (version: byte)
      ensures Valid() && body == [] && this.version == version
    {
      file, offset, crc, body := [], 0, 0, [];
      this.version := version;
    }

    /** file.Write of one chunk with offset and checksum brought up to date. */
    method Emit(chunk: seq<byte>)
      requires Valid()
      modifies this
      ensures Valid() && body == old(body) + [chunk]
    {
      ConcatSnoc(body, chunk);
      file, offset, crc, body := file + chunk, offset + |chunk|, Crc32.Update(crc, chunk), body + [chunk];
    }

    method WriteHeader(blockStart: int64, blockEnd: int64)
      requires Valid()
      modifies this
      ensures Valid() && body == old(body) + [Header(version, blockStart, blockEnd)]
    {
      Emit(MAGIC + [version] + PutLE(ToUnsigned(blockStart), 8) + PutLE(ToUnsigned(blockEnd), 8));
    }

    method EncodePoints(points: seq<Point>) returns (buf: seq<byte>)
      ensures buf == EncodeSeries(version, points)
    {
      if version >= 2 {
        buf := V2.EncodeSeries(points);
      } else {
        buf := V1.EncodeSeries(points);
      }
    }

    /** The loop over series: one block per series with points, one index entry each. */
    method WriteBlocks(list: seq<SeriesPoints>, ghost header: seq<byte>) returns (entries: seq<seq<byte>>)
      requires Valid() && body == [header] && |header| == HEADER_SIZE
      modifies this
      ensures Valid() && body == [header] + DataChunks(version, Occupied(list))
      ensures entries == IndexChunks(version, Occupied(list))
    {
      hide EncodeSeries, PutLE, Checksum;
      entries := [];
      for i := 0 to |list|
        invariant Valid() && body == [header] + DataChunks(version, Occupied(list[..i]))
        invariant entries == IndexChunks(version, Occupied(list[..i]))
      {
        assert list[..i + 1][..i] == list[..i];
        ghost var done := Occupied(list[..i]);
        if |list[i].points| != 0 {
          BlocksExtend(version, done, list[i], header);
          entries := entries + [EntryChunk(list[i].id, offset, |list[i].points|)];
          var block := EncodePoints(list[i].points);
          Emit(block);
        }
      }
      assert list[..|list|] == list;
    }

    /** Writer.Write: sort, header, blocks, index, footer. */
    method Write(seriesList: seq<SeriesPoints>, blockStart: int64,
                 blockEnd: int64) returns (ghost sorted: seq<SeriesPoints>)
      requires Valid() && body == []
      modifies this
      ensures SortedById(sorted) && multiset(sorted) == multiset(seriesList)
      ensures file == FileBytes(version, Occupied(sorted), blockStart, blockEnd)
    {
      hide DataChunks, IndexChunks, Header, Occupied, SortedById, PutLE;
      var list := SortById(seriesList);
      sorted := list;
      ghost var header := Header(version, blockStart, blockEnd);
      ghost var data := DataChunks(version, Occupied(list));
      ghost var index := IndexChunks(version, Occupied(list));
      WriteHeader(blockStart, blockEnd);
      assert body == [header];
      var entries := WriteBlocks(list, header);
      var idxOffset := offset;
      assert idxOffset == OffsetOf(version, Occupied(list), |Occupied(list)|) by {
        HeaderFirst(header, data);
        assert data[..|data|] == data;
      }
      for i := 0 to |entries|
        invariant Valid() && body == [header] + data + index[..i]
      {
        Emit(entries[i]);
        assert index[..i + 1] == index[..i] + [index[i]];
      }
      assert index[..|index|] == index;
      file := file + PutLE(crc, 4) + PutLE(idxOffset, 8);
      offset := offset + FOOTER_SIZE;
    }
  }

  /** One more series at the end of the blocks and of the index. */
  lemma BlocksExtend(version: byte, done: seq<SeriesPoints>, s: SeriesPoints, header: seq<byte>)
    requires |header| == HEADER_SIZE
    ensures DataChunks(version, done + [s]) == DataChunks(version, done) + [EncodeSeries(version, s.points)]
    ensures var offset := |Concat([header] + DataChunks(version, done))|;
            IndexChunks(version, done + [s]) ==
            IndexChunks(version, done) + [EntryChunk(s.id, offset, |s.points|)]
  {
    hide EncodeSeries, EntryChunk, Concat;
    var data, data' := DataChunks(version, done), DataChunks(version, done + [s]);
    assert forall i :: 0 <= i <= |done| ==> data'[..i] == data[..i];
    assert data'[..|done|] == data;
    HeaderFirst(header, data);
  }

  lemma HeaderFirst(header: seq<byte>, data: seq<seq<byte>>)
    ensures Concat([header] + data) == header + Concat(data)
  {
    ConcatSplit([header] + data, 1);
    assert ([header] + data)[..1] == [] + [header] && ([header] + data)[1..] == data;
    ConcatSnoc([], header);
  }
}
