/** A segment file byte for byte (internal/segment/segment.go, lines 68 to 126). */
module SegmentLayout {
  import opened Words
  import opened Segment
  import opened SegmentReader
  import Crc32
  import V1 = SegmentV1

  lemma FirstChunk(version: byte, list: seq<SeriesPoints>, blockStart: int64, blockEnd: int64)
    returns (rest: seq<byte>)
    ensures FileBytes(version, list, blockStart, blockEnd) == Header(version, blockStart, blockEnd) + rest
  {
    hide Concat, Header, DataChunks, IndexChunks, Footer, Checksum, OffsetOf, FileBytes;
    FileParts(version, list, blockStart, blockEnd);
    rest := Concat(DataChunks(version, list)) + Concat(IndexChunks(version, list))
            + Footer(Checksum(Body(version, list, blockStart, blockEnd)), OffsetOf(version, list, |list|));
  }

  /** Magic "CHDB", the version and the two time bounds. */
  lemma HeaderLayout(version: byte, list: seq<SeriesPoints>, blockStart: int64, blockEnd: int64)
    ensures var file := FileBytes(version, list, blockStart, blockEnd);
            && |file| >= 21 && file[..4] == [67, 72, 68, 66] && file[4] == version
            && file[5..13] == PutLE(ToUnsigned(blockStart), 8) && file[13..21] == PutLE(ToUnsigned(blockEnd), 8)
  {
    hide FileBytes, PutLE;
    var rest := FirstChunk(version, list, blockStart, blockEnd);
    var h := Header(version, blockStart, blockEnd);
    assert (h + rest)[..4] == h[..4] && (h + rest)[5..13] == h[5..13] && (h + rest)[13..21] == h[13..21];
  }

  lemma NextOffset(version: byte, list: seq<SeriesPoints>, k: nat)
    requires k < |list|
    ensures OffsetOf(version, list, k + 1) == OffsetOf(version, list, k) + |EncodeSeries(version, list[k].points)|
  {
    hide Concat, EncodeSeries;
    var data := DataChunks(version, list);
    assert data[..k + 1] == data[..k] + [data[k]];
    ConcatSnoc(data[..k], data[k]);
  }

  lemma FirstOffset(version: byte, list: seq<SeriesPoints>)
    ensures OffsetOf(version, list, 0) == 21
  {
  }

  /** The blocks follow the header without gaps. */
  lemma BlockLayout(version: byte, list: seq<SeriesPoints>, blockStart: int64, blockEnd: int64, k: nat)
    requires k < |list|
    ensures var file := FileBytes(version, list, blockStart, blockEnd);
            var lo, hi := OffsetOf(version, list, k), OffsetOf(version, list, k + 1);
            lo <= hi <= |file| && file[lo..hi] == EncodeSeries(version, list[k].points)
  {
    hide FileBytes, OffsetOf, EncodeSeries;
    var rest := BlockAt(version, list, blockStart, blockEnd, k);
    NextOffset(version, list, k);
    var file := FileBytes(version, list, blockStart, blockEnd);
    var lo, block := OffsetOf(version, list, k), EncodeSeries(version, list[k].points);
    assert file[lo..lo + |block|] == file[lo..][..|block|];
  }

  /** Twenty bytes a series behind the blocks: ID, offset of its block, number of points. */
  lemma IndexLayout(version: byte, list: seq<SeriesPoints>, blockStart: int64, blockEnd: int64, k: nat)
    requires k < |list|
    ensures var file := FileBytes(version, list, blockStart, blockEnd);
            var at := OffsetOf(version, list, |list|) + 20 * k;
            && at + 20 <= |file| && file[at..at + 8] == PutLE(list[k].id, 8)
            && file[at + 8..at + 16] == PutLE(OffsetOf(version, list, k), 8)
            && file[at + 16..at + 20] == PutLE(|list[k].points|, 4)
  {
    hide Concat, Header, DataChunks, Footer, Checksum, FileBytes, OffsetOf, PutLE;
    FileParts(version, list, blockStart, blockEnd);
    var file := FileBytes(version, list, blockStart, blockEnd);
    var front := Header(version, blockStart, blockEnd) + Concat(DataChunks(version, list));
    var index := Concat(IndexChunks(version, list));
    var footer := Footer(Checksum(Body(version, list, blockStart, blockEnd)), OffsetOf(version, list, |list|));
    EntriesInPlace(IndexChunks(version, list), k);
    DataEnds(version, list);
    var at := |front| + 20 * k;
    var entry := EntryChunk(list[k].id, OffsetOf(version, list, k), |list[k].points|);
    assert file == front + index + footer;
    V1.Middle(front, index, footer, 20 * k, 20 * k + 20);
    assert file[at..at + 20] == entry;
    EntryParts(file, at, list[k].id, OffsetOf(version, list, k), |list[k].points|);
  }

  lemma EntryParts(file: seq<byte>, at: nat, id: nat, offset: nat, numPoints: nat)
    requires at + 20 <= |file| && file[at..at + 20] == EntryChunk(id, offset, numPoints)
    ensures file[at..at + 8] == PutLE(id, 8) && file[at + 8..at + 16] == PutLE(offset, 8)
    ensures file[at + 16..at + 20] == PutLE(numPoints, 4)
  {
    hide PutLE;
    SubSlice(file, at, at + 20, 0, 8);
    SubSlice(file, at, at + 20, 8, 16);
    SubSlice(file, at, at + 20, 16, 20);
  }

  lemma DataEnds(version: byte, list: seq<SeriesPoints>)
    ensures OffsetOf(version, list, |list|) == 21 + |Concat(DataChunks(version, list))|
  {
    hide Concat;
    var data := DataChunks(version, list);
    assert data[..|data|] == data;
  }

  lemma {:induction false} RunningChecksum(chunks: seq<seq<byte>>)
    ensures Checksum(chunks) == Crc32.Update(0, Concat(chunks))
  {
    if chunks != [] {
      var n := |chunks| - 1;
      RunningChecksum(chunks[..n]);
      Crc32.UpdateConcat(0, Concat(chunks[..n]), chunks[n]);
    }
  }

  /** The CRC-32 of everything before the footer, then the offset of the index. */
  lemma FooterLayout(version: byte, list: seq<SeriesPoints>, blockStart: int64, blockEnd: int64)
    ensures var file := FileBytes(version, list, blockStart, blockEnd);
            var n := |file| - 12;
            && n == OffsetOf(version, list, |list|) + 20 * |list|
            && file[n..n + 4] == PutLE(Crc32.Update(0, file[..n]), 4)
            && file[n + 4..] == PutLE(OffsetOf(version, list, |list|), 8)
  {
    hide Concat, Header, DataChunks, Checksum, OffsetOf, PutLE, Crc32.Update;
    FileParts(version, list, blockStart, blockEnd);
    DataEnds(version, list);
    IndexLength(IndexChunks(version, list));
    var body := Body(version, list, blockStart, blockEnd);
    RunningChecksum(body);
    var file := FileBytes(version, list, blockStart, blockEnd);
    assert file[..|file| - 12] == Concat(body);
  }

  lemma {:induction false} IndexLength(chunks: seq<seq<byte>>)
    requires forall c :: c in chunks ==> |c| == 20
    ensures |Concat(chunks)| == 20 * |chunks|
  {
    if chunks != [] {
      assert chunks[|chunks| - 1] in chunks;
      IndexLength(chunks[..|chunks| - 1]);
    }
  }

  // ----- which files open

  /** A file opens if and only if it has room for header and footer, the magic, and an index
      of whole entries between the footer's offset and the footer. */
  lemma OpenExactly(file: seq<byte>)
    ensures Open(file).Ok? <==>
            && |file| >= 33 && file[..4] == [67, 72, 68, 66]
            && var at := GetLE(file[|file| - 8..]);
               at < TWO_63 && at <= |file| - 12 && (|file| - 12 - at) % 20 == 0
  {
    hide GetLE, ParseIndex;
    if |file| >= 33 {
      GetLEBound(file[|file| - 8..]);
      assert Pow2(64) == TWO_64 by { Pow2Values(); }
    }
  }

  /** What it then says: version, bounds and the fields of every entry. */
  lemma OpenedFields(file: seq<byte>, k: nat)
    requires Open(file).Ok?
    ensures var r := Open(file).value;
            var at := GetLE(file[|file| - 8..]);
            && r.file == file && r.version == file[4]
            && ToUnsigned(r.blockStart) == GetLE(file[5..13]) && ToUnsigned(r.blockEnd) == GetLE(file[13..21])
            && 20 * |r.index| == |file| - 12 - at
            && (k < |r.index| ==>
                  && r.index[k].id == GetLE(file[at + 20 * k..at + 20 * k + 8])
                  && r.index[k].offset == GetLE(file[at + 20 * k + 8..at + 20 * k + 16])
                  && r.index[k].numPoints == GetLE(file[at + 20 * k + 16..at + 20 * k + 20]))
  {
    hide GetLE;
    OpenExactly(file);
    var r, at := Open(file).value, GetLE(file[|file| - 8..]);
    if k < |r.index| {
      SubSlice(file, at, |file| - 12, 20 * k, 20 * k + 20);
      EntryFields(file, at + 20 * k);
      assert r.index[k] == ParseEntry(file[at + 20 * k..at + 20 * k + 20]);
    }
  }

  lemma SubSlice(s: seq<byte>, a: nat, b: nat, lo: nat, hi: nat)
    requires a <= b <= |s| && lo <= hi <= b - a
    ensures s[a..b][lo..hi] == s[a + lo..a + hi]
  {
    forall i | 0 <= i < hi - lo
      ensures s[a..b][lo..hi][i] == s[a + lo..a + hi][i]
    {
      assert s[a..b][lo + i] == s[a + lo + i];
    }
  }

  lemma EntryFields(file: seq<byte>, at: nat)
    requires at + 20 <= |file|
    ensures ParseEntry(file[at..at + 20]) == IndexEntry(GetU64(file[at..at + 8]), GetU64(file[at + 8..at + 16]),
                                                        GetU32(file[at + 16..at + 20]))
  {
    hide ParseEntry, GetU64, GetU32;
    var a, b, c := file[at..at + 8], file[at + 8..at + 16], file[at + 16..at + 20];
    assert file[at..at + 20] == a + b + c;
    ThreeFields(a, b, c);
  }

  lemma ThreeFields(a: seq<byte>, b: seq<byte>, c: seq<byte>)
    requires |a| == 8 && |b| == 8 && |c| == 4
    ensures ParseEntry(a + b + c) == IndexEntry(GetU64(a), GetU64(b), GetU32(c))
  {
    hide GetU64, GetU32;
    var entry := a + b + c;
    assert entry[0..8] == a && entry[8..16] == b && entry[16..20] == c;
  }
}
