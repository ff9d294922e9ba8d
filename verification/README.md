# ChronoDB, verified model

ChronoDB is a small LSM-style time-series store. Writes go to a write-ahead log and an
in-memory table; full tables are rotated, flushed to immutable segment files and listed in a
manifest; small segments are merged, old ones removed; a restart replays the log from the
manifest's offset. This project models the storage engine as a state machine and its on-disk
formats byte by byte, and proves what the store keeps and where its guarantees end.

Files, bottom up:

- `Words`, `Varint`, `Crc32`, `Floats`, `BitStream`: 64-bit words with explicit wrap-around, Go's
  varints, CRC-32 bit by bit, the IEEE order of float64 patterns, and the bit writer and reader of
  the Gorilla codec, down to the OR into the last byte.
- `GorillaTimestamps`, `GorillaValues`, `GorillaValuesRoundTrip`, `GorillaCuts`, `GorillaSeries`,
  `SegmentV1`: the two series encodings, the encoder and decoder loops proved equal to functions
  on bit sequences. `GorillaWindows` says in plain arithmetic when a column reads back and what
  it costs, `GorillaAnswers` gives whole columns byte by byte.
- `Segment`, `SegmentReader`, `SegmentLayout`, `StoredTables`: segment files, written chunk by
  chunk and read through fixed-size windows, and where every byte of them stands.
- `Wal`, `Payload`: the framed log, its buffered writer, and the write commands inside it.
- `Tables`, `Memtable`, `Manifest`, `Retention`, `Compaction`, `Index`, `Query`, `Aggregate`,
  `SegmentQuery`: the engine's parts, classes and loops as in the source.
- `EngineLog`: the log as the engine sees it, and what recovery decodes from a log file.
- `EngineState`: the state machine (writes, sync, rotation, flush and compaction goroutines,
  retention, crash with recovery). A result is applied by two manifest saves, and a crash may
  fall between them. `Next` is what the code does, `Assumed` and `AppliedWithoutGap` the
  hypotheses.
- `EngineSums`, `EngineInvariant`, `EngineSteps`, `EngineResults`, `EngineCompaction`,
  `EngineRuns`: the accounting invariant and its preservation by every event.
- `EngineCrash`, `EngineLive`, `EngineLimits`: the theorems over runs, and the exact conditions
  under which steps still conserve points once a hypothesis is dropped.
- `EngineSamples`, `EngineExamples`: for each such failure a concrete run from an empty store
  that leads into it.
- `EngineAnswers`: what a query answers, point by point and in order.
- `Engine`: the handlers of the event loop over a real memtable, log writer, manifest and
  index; every method is proved to take a step of the state machine.

All sums are multisets of points per series, so "holds" always means "holds exactly once".

Hypotheses of a run (`EngineState.Assumed`): the log can frame each write; output files get
paths that the manifest does not list and respect the v1 size limits; one compaction at a time
and no retention of its candidates; after a crash the log ends at a record boundary that the
saved offset does not exceed. Flush results are applied without skipping log records that
hold points; `EngineLive.OrderlyRunIsRun` derives this from rotation order.

Findings about the code, each stated as a lemma:

- The timestamp decoder looks for a long delta-of-delta eight bytes too early
  (`GorillaTimestamps.LongStepLost`); exactly [-2047, 2048] is safe. This is the only defect
  of that codec (`CorrectedRoundTrip` is about a corrected decoder, not about the code).
- The value encoder stores a leading-zero count in five bits; the column reads back if and only
  if no window-opening XOR has 32 or more (`GorillaValuesRoundTrip.ValueRoundTripExactly`).
- A one-point v2 series takes 17 bytes of a 16-byte window and never reads back; from four
  points on the window always suffices (`GorillaSeries.WindowExactly`).
- The output of a compaction is named by the number of its candidates. If a candidate bears
  that name, applying the result deletes all candidates' points; if another listed segment
  does, that segment's points are lost and the candidates' are counted twice
  (`EngineLimits.CompactedPoints`, `CompactionNameExactly`, `EngineExamples.CandidateNameHappens`,
  `ListedNameHappens`).
- Flush numbers restart at zero with the process, so that a flush can overwrite a listed
  segment (`EngineLimits.FlushNameExactly`, `EngineExamples.FlushNameHappens`).
- Results applied away from the saved offset lose or double what lies between: a failed flush
  followed by a successful one loses the failed one's points (`EngineLimits.GapExactly`,
  `EngineExamples.GapHappens`).
- A second rotation hides the first flush from queries (`EngineLive.SecondRotationHides`,
  `EngineExamples.SecondRotationHappens`).
- The query merge takes the largest int64 for its end marker (`Query.MergeStableExactly`,
  `EngineAnswers.AnswerIsExact`).
- The checksum in a segment's footer is right (`SegmentLayout.FooterLayout`) but never read
  (`OpenExactly`); a log record with one wrong byte, in contrast, is always refused
  (`Wal.FlippedByte`).
- The index joins tags as key=value. A lookup is right on every history if and only if neither
  key nor value of the filter has a '=' (`Index.LookupExactly`, `ResolveExactly`); even a plain
  key with a '=' in its value can be confused. If all registered keys are plain, only the
  filter's key matters (`Index.PlainLookupExactly`).
- For negative timestamps buckets do not cover the intervals that they name
  (`Aggregate.BucketsMatchIntervalsExactly`), and spans beyond an int64 make the aggregation
  panic or go wrong (`Aggregate.AggregateExactly`).
- After a crash that cuts the log below the saved offset, the next recovery never returns all
  writes appended since, and none until the log has grown past that offset
  (`EngineLimits.UnsyncedOffsetLosesWrites`, `EngineExamples.UnsyncedOffsetHappens`).
- Records appended after a torn log tail are not replayed, unless torn and new bytes happen to
  parse as a record (`Wal.TornTailHidesLaterRecords`, `TornHeaderExactly`).

The repository's README promises crash recovery without these conditions; the model follows
the code.

## Model

| member | source | states |
|---|---|---|
| BitStream.AppendBit | internal/segment/gorilla.go:19-27 | growing the buffer at a byte boundary and ORing one bit in packs the old bits followed by the new one |
| BitStream.PacksUnique | internal/segment/gorilla.go:10-37 | the buffer is determined by its bits: length ceil(pos/8), zero padding |
| BitStream.PackAligned | internal/segment/gorilla.go:75-85 | whole bytes in front of a bit tail stay those bytes |
| BitStream.BitWriter.WriteBits | internal/segment/gorilla.go:29-33 | appends exactly the low nbits of val, most significant first, aligned or not |
| BitStream.BitWriter.AppendBytes | internal/segment/gorilla.go:76-85 | byte appends at an aligned position keep buffer and bit count in step |
| BitStream.BitReader.ReadBits | internal/segment/gorilla.go:57-63 | reads a number most significant bit first; past the end zeros, and the position stays |
| BitStream.ReadNumberWritten | internal/segment/gorilla.go:29-63 | a number written in n bits reads back wherever it stands |
| Varint.UvarintRoundTrip | internal/segment/gorilla.go:269-282 | an unsigned varint reads back with its length, whatever follows it |
| Varint.VarintRoundTrip | internal/segment/gorilla.go:81-85 | every int64 survives zigzag varint coding, whatever follows |
| Varint.VarintAtMostEight | internal/segment/segment.go:140-145 | a varint takes at most eight bytes if and only if the number is in [-2^55, 2^55) |
| Varint.UvarintDigits | internal/segment/gorilla.go:269-282 | the bytes are the base-128 digits, lowest first, 128 added to all but the last, none superfluous |
| Crc32.UpdateConcat | internal/segment/segment.go:77-112 | a checksum may be computed piece by piece |
| Crc32.OneByteDetected | internal/wal/wal.go:84-85 | a change of one byte anywhere changes the CRC-32 |
| Crc32.KnownAnswer | internal/wal/wal.go:84-85 | an entry of the IEEE table |
| GorillaTimestamps.EncodeTimestamps | internal/segment/gorilla.go:65-116 | the loop with its switch writes the specified column: head bytes, then prefix codes packed into bits |
| GorillaTimestamps.DecodeTimestamps | internal/segment/gorilla.go:118-168 | the loop returns what the specification reads, with the same corrupt-data errors |
| GorillaTimestamps.TimestampRoundTrip | internal/segment/gorilla.go:65-168 | every list whose wrapping delta-of-deltas are in [-2047, 2048] reads back exactly |
| GorillaTimestamps.SafeStepExactly | internal/segment/gorilla.go:92-113 | exactly the delta-of-deltas in [-2047, 2048] can occur in any list without spoiling it |
| GorillaTimestamps.LongStepLost | internal/segment/gorilla.go:150-163 | 0, 0, d with a long step d always reads back as 0, 0, 0 |
| GorillaTimestamps.CorrectedRoundTrip | internal/segment/gorilla.go:150-163 | with the varint looked up eight bytes later every list of timestamps would read back |
| GorillaTimestamps.CodeClasses | internal/segment/gorilla.go:92-113 | the five codes by the range of the delta-of-delta: flag bits, 1, 9, 12 or 16 bits in all, and the number they hold |
| GorillaValues.LeadingZeros64 | internal/segment/gorilla.go:302-312 | the shifting loop terminates and counts the zeros above the highest one bit |
| GorillaValues.TrailingZeros64 | internal/segment/gorilla.go:314-324 | the shifting loop terminates and counts the zeros below the lowest one bit |
| GorillaValues.EncodeValues | internal/segment/gorilla.go:170-216 | the loop writes the specified column, windows opened and reused as the flags say |
| GorillaValues.DecodeValues | internal/segment/gorilla.go:218-264 | the loop returns what the specification reads |
| GorillaValuesRoundTrip.TailRoundTripExactly | internal/segment/gorilla.go:184-263 | from any common window on, encoder and decoder stay in lockstep exactly while every opened window fits |
| GorillaValuesRoundTrip.ValueRoundTripExactly | internal/segment/gorilla.go:170-264 | with any trailing bytes every 64-bit pattern reads back if and only if each window-opening XOR has at most 31 leading zeros |
| GorillaWindows.ReusesExactly | internal/segment/gorilla.go:199-200 | a window is reused by exactly the XORs below 2^(64-leading) that are multiples of 2^trailing |
| GorillaWindows.CodeLength | internal/segment/gorilla.go:184-214 | one bit for a repetition, two and the window's width inside the window, thirteen and the new width otherwise |
| GorillaWindows.ColumnExactly | internal/segment/gorilla.go:170-264 | the same if-and-only-if in arithmetic: every change lies inside the current window or is at least 2^32 |
| GorillaWindows.WindowRestores | internal/segment/gorilla.go:184-263 | a column whose changes all lie inside its first window, of at most 31 leading zeros, reads back, and takes exactly the stated number of bytes |
| GorillaWindows.ConstantRestores | internal/segment/gorilla.go:188-191 | a column of one value reads back and takes one bit a repetition |
| GorillaAnswers.TimestampAnswer | internal/segment/gorilla.go:65-116 | the bytes of the column 0, 1, 3 |
| GorillaAnswers.ValueAnswer | internal/segment/gorilla.go:170-216 | the bytes of the column 0, 2^62 |
| GorillaAnswers.SeriesAnswer | internal/segment/gorilla.go:266-276 | the bytes of a series of one point |
| GorillaValuesRoundTrip.SmallDifferenceLost | internal/segment/gorilla.go:205-206 | the bit patterns 0 and 1 in a row are lost: their XOR has 63 leading zeros |
| GorillaCuts.CutColumnDiffers | internal/segment/gorilla.go:48-63 | a column cut inside its last window never reads back |
| GorillaSeries.EncodingFitsWindow | internal/segment/segment.go:270-278 | from four points on, with small steps, the encoding is at most 16 bytes a point whatever the values |
| GorillaSeries.WindowExactly | internal/segment/segment.go:270-278 | for series with delta-of-deltas in [-2047, 2048]: through the v2 window the points come back if and only if the encoding fits it and the value windows fit; one point takes 17 bytes |
| SegmentV1.EncodeSeries | internal/segment/segment.go:128-153 | first timestamp, delta varints, raw values |
| SegmentV1.SeriesLayout | internal/segment/segment.go:128-153 | where each delta varint and each value stands |
| SegmentV1.DecodePoints | internal/segment/segment.go:321-343 | the two loops read deltas, then values, and panic beyond the buffer's capacity |
| SegmentV1.WindowExactly | internal/segment/segment.go:280-286 | through the v1 window the points come back exactly if the encoding is at most 16n+8 bytes; otherwise the decoder panics |
| SegmentV1.ModestDeltasFit | internal/segment/segment.go:280-281 | deltas in [-2^55, 2^55) always fit the v1 window |
| Segment.Writer.Write | internal/segment/segment.go:48-126 | the file is header, blocks of the non-empty series by ID, index with true offsets, and footer with the running checksum |
| SegmentLayout.HeaderLayout | internal/segment/segment.go:102-114 | magic, version and bounds |
| SegmentLayout.BlockLayout | internal/segment/segment.go:65-84 | the blocks follow the header without gaps |
| SegmentLayout.IndexLayout | internal/segment/segment.go:85-97 | twenty bytes a series: ID, offset of its block, number of points |
| SegmentLayout.FooterLayout | internal/segment/segment.go:116-126 | the CRC-32 of all bytes before the footer, and the offset of the index |
| SegmentLayout.OpenExactly | internal/segment/segment.go:174-253 | a file opens if and only if size, magic and index offset are right, whatever its checksum |
| SegmentLayout.OpenedFields | internal/segment/segment.go:205-253 | version, bounds and index entries are the bytes at their places |
| SegmentReader.OpenWritten | internal/segment/segment.go:174-253 | a written file opens, with the version and the index entries that the writer recorded |
| SegmentReader.SearchSplits | internal/segment/segment.go:255-261 | the binary search finds the first entry not below the ID |
| SegmentReader.ReadSeries | internal/segment/segment.go:255-268 | the search loop and the decoder return the specified lookup |
| SegmentReader.ReadBackV1 | internal/segment/segment.go:255-287 | a v1 series reads back exactly if it fits the window, and otherwise panics, whatever else the file holds |
| SegmentReader.ReadBackV2 | internal/segment/segment.go:255-278 | a v2 series with small steps reads back if and only if value windows and read window fit |
| SegmentReader.ReadMissing | internal/segment/segment.go:259-261 | an ID that was not written has no points |
| SegmentReader.ReadAllV1 | internal/segment/segment.go:289-299 | reading all series of a written v1 file gives the written table if every series fits the 16n+8 window, and panics otherwise |
| StoredTables.HeldExactly | internal/segment/segment.go:48-299 | a v1 file written from a table's series in any order, with counts and offsets that fit the index, yields exactly that table, series by series and as a whole, if and only if every series fits the 16n+8 window |
| StoredTables.ModestTimestampsFit | internal/segment/segment.go:280-281 | timestamps within 2^54 of zero respect the v1 window |
| Wal.Writer.Append | internal/wal/wal.go:77-109 | one more record at the end, and fewer than the threshold's bytes unsynced; a closed log refuses |
| Wal.Writer.BufWrite | internal/wal/wal.go:61-91 | the buffered writer neither loses nor reorders bytes, whatever their number |
| Wal.Writer.FsyncTick | internal/wal/wal.go:123-135 | a tick leaves nothing unsynced |
| Wal.Writer.Close | internal/wal/wal.go:137-147 | closing leaves nothing unsynced and ends appending |
| Wal.LossWindow | internal/wal/wal.go:77-135 | a crash keeps the synced records, loses a suffix, and of it at most the unsynced bytes |
| Wal.Replay | internal/wal/wal.go:185-241 | the loop terminates and returns every record up to the first that does not parse |
| Wal.RecordReadsBackExactly | internal/wal/wal.go:83-91 | a framed record reads back if and only if its length field does not wrap |
| Wal.ParseExactly | internal/wal/wal.go:185-213 | exactly what has its length, its CRC-32 and its data at their places parses |
| Wal.DamageDetectedExactly | internal/wal/wal.go:208-211 | Replay ends before a record whose payload was replaced if and only if the CRC-32 of the two differ |
| Wal.FlippedByte | internal/wal/wal.go:208-211 | a record with one wrong byte is never replayed, nor anything behind it |
| Wal.TornRecord | internal/wal/wal.go:185-213 | a record cut anywhere reads as end of file |
| Wal.WholeIsGreatest | internal/wal/wal.go:166-241 | the count of whole records in a cut is the greatest one |
| Wal.PrefixRecovery | internal/wal/wal.go:166-241 | from every record boundary and every cut, Replay returns exactly the records after the one that lie wholly inside the other |
| Wal.TornTailHidesLaterRecords | internal/wal/wal.go:49-66 | behind a tail torn at any byte, Replay ends with the records before it, and finds nothing appended later, if and only if torn and new bytes do not parse as a record |
| Wal.TornHeaderExactly | internal/wal/wal.go:185-213 | with the torn header in the file, that takes as many bytes as the torn record had and its checksum |
| Payload.EncodePayload | internal/engine/engine.go:482-492 | the buffer loop writes ID, count and sixteen bytes a point |
| Payload.DecodePayload | internal/engine/engine.go:468-480 | the loop with its uint32 offsets returns what the specification reads, or panics |
| Payload.PayloadRoundTripExactly | internal/engine/engine.go:468-492 | a write survives its log encoding if and only if it has fewer than 2^28 points |
| Payload.PayloadLayout | internal/engine/engine.go:482-492 | where ID, count, timestamps and values stand |
| Payload.DecodeExactly | internal/engine/engine.go:468-480 | data decodes to a write if and only if it starts with its encoding, of fewer than 2^28 points; all other data panics |
| Memtable.Memtable.Insert | internal/memtable/memtable.go:26-50 | adds exactly the given points to one series, keeps every series sorted (skipping the sort is sound) and the size at 16 bytes a point |
| Memtable.Memtable.GetAll | internal/memtable/memtable.go:64-74 | copies the whole table, in any order of its series |
| Memtable.Memtable.Freeze | internal/memtable/memtable.go:82-92 | the snapshot has the same series and neither table takes inserts any more |
| Memtable.SnapshotIsStable | internal/memtable/memtable.go:82-100 | a snapshot keeps its points through a later clear and insert on the original |
| Tables.TotalAdded | internal/memtable/memtable.go:43-49 | the number of points grows by the number inserted |
| Manifest.Manifest.RemoveBatch | internal/manifest/manifest.go:61-76 | exactly the entries under the removed paths disappear, in one save |
| Retention.SweepSplits | internal/retention/retention.go:15-26 | a sweep loses no entry and puts none on both sides |
| Compaction.SelectCandidates | internal/compaction/compactor.go:27-45 | at most maxCount entries, never one alone, none with more series than any left behind |
| Compaction.Compact | internal/compaction/compactor.go:47-104 | succeeds exactly if all candidates read; the file holds the sorted union per series, its bounds are the least and the greatest timestamp of the union, its count that of all listed series |
| Compaction.WellFormedOutput | internal/compaction/compactor.go:47-104 | from candidates that list no empty series, every counted series is written, and the file reads back within the size limits |
| Index.Index.Insert | internal/index/index.go:17-33 | the maps reflect one more registration |
| Index.Index.Resolve | internal/index/index.go:35-83 | in every order of the filters, the strictly increasing list of exactly the matching IDs |
| Index.MatchingIsBruteForce | internal/index/index.go:17-83 | for filters without '=' (in values, only if some registered key has one), an ID matches if and only if each filter pair was registered for it under the metric |
| Index.LookupExactly | internal/index/index.go:17-33 | a tag is looked up right on every history if and only if it has no '=', neither in key nor in value |
| Index.PlainLookupExactly | internal/index/index.go:17-33 | among histories with plain keys, if and only if its key has none |
| Index.ResolveExactly | internal/index/index.go:35-83 | a set of filters agrees with brute force on every history if and only if none of them has a '=' |
| Index.AmbiguousKey | internal/index/index.go:26-31 | a concrete tag that matches a filter never registered |
| Query.StableMergeUnique | internal/query/query.go:35-80 | the stable merge of given lists is unique |
| Query.StableMergeContent | internal/query/query.go:35-80 | a stable merge has exactly the points of its lists |
| Query.Merge | internal/query/query.go:35-80 | sorted; at each time below the largest, the lists' points in list order, ties to the lower list |
| Query.MergeStableExactly | internal/query/query.go:53-80 | the merge is the stable merge if and only if at most one list has points or none stands at the largest timestamp |
| Query.Filter | internal/query/query.go:82-98 | the two binary searches equal the plain linear filter, also for start after end |
| Query.WithinContent | internal/query/query.go:82-98 | the filter keeps exactly the multiplicities of the points in range |
| SegmentQuery.ReadSegments | internal/query/query.go:140-155 | merges the series of every readable file, skipping the others |
| SegmentQuery.PruningLossless | internal/engine/engine.go:267-272 | skipping segments outside the time range loses no point of the range and keeps the order |
| Aggregate.Aggregate | internal/query/query.go:100-138 | the loops compute the specified array with all int64 wrap-around, or panic on a negative length or an index out of range |
| Aggregate.AggregateExactly | internal/query/query.go:105-124 | that is the array of true per-bucket folds if and only if the two differences of the index arithmetic fit an int64 |
| Aggregate.IndexInRange | internal/query/query.go:112-124 | every computed index is in range, for timestamps of any sign |
| Aggregate.NoWrap | internal/query/query.go:105-124 | no int64 operation wraps on input without overflow |
| Aggregate.BucketStarts | internal/query/query.go:105-118 | starts are multiples of the width, one width apart, from the truncated first to the truncated last timestamp |
| Aggregate.BucketContents | internal/query/query.go:110-137 | start, count and in-order sum; bounds of all values that are numbers, in their IEEE order, attained once one is finite; zeros when empty |
| Floats.LessExactly | internal/query/query.go:126-131 | the comparison of bit patterns is the order of the IEEE values by sign, exponent and fraction, and false for every NaN |
| Floats.LargestFinite | internal/query/query.go:114-115 | the start values are the greatest and the least finite number |
| Aggregate.CountsSumToInput | internal/query/query.go:100-138 | the counts add up to the number of points |
| Aggregate.BucketsMatchIntervalsExactly | internal/query/query.go:105-124 | each bucket holds exactly the points of its interval if and only if the first timestamp is not negative or a multiple of the width |
| EngineRuns.StepKeeps | internal/engine/engine.go:178-418 | every event keeps the books: segments and removed files against the covered log, active memtable against the rest, flushes and compactions in flight against what they took |
| EngineRuns.RunKeeps | internal/engine/engine.go:135-155 | the books balance in every state of every run |
| EngineSteps.WriteKeeps | internal/engine/engine.go:307-321 | append before insert keeps log and memtable in step |
| EngineSteps.RotateKeeps | internal/engine/engine.go:343-397 | offset and table are captured in the same step |
| EngineResults.AdvanceOffsetKeeps | internal/engine/engine.go:414-415 | the second save of a flush accounts for the first |
| EngineCompaction.RemoveCandidatesKeeps | internal/engine/engine.go:223-231 | the second save of a compaction removes one of two copies |
| EngineRuns.RetainKeeps | internal/engine/engine.go:234-252 | a sweep moves exactly the removed entries' points out of the store |
| EngineRuns.CrashKeeps | internal/engine/engine.go:110-124 | a crash at any event followed by recovery balances the books again |
| EngineLog.RecoveredExactly | internal/engine/engine.go:110-124 | from any log record on and any cut, recovery decodes exactly the whole writes after it |
| EngineCrash.CrashSafety | internal/engine/engine.go:110-124 | in every state of every run and for every cut behind the synced bytes, segments and replay hold every synced write, and every surviving one, not removed by retention, exactly once, up to the surplus between two saves |
| EngineCrash.SurplusExactly | internal/engine/engine.go:210-226 | that surplus is exactly the flushed table's or the candidates' points, and none outside the two saves |
| EngineCrash.ReplayEquivalence | internal/engine/engine.go:110-124 | the active memtable equals what recovery would build from the records since the last rotation |
| EngineCrash.BlockBounds | internal/engine/engine.go:362-374 | in every state each entry bounds all timestamps of its file |
| EngineCrash.BlockBoundsAttained | internal/engine/engine.go:362-374 | and both bounds are timestamps of points in it |
| EngineCrash.RetentionSpares | internal/engine/engine.go:234-252 | a sweep removes no point at or after the cutoff |
| EngineCrash.SweepExactly | internal/engine/engine.go:234-252 | a sweep keeps exactly the segments that have a point at or after the cutoff |
| EngineLive.OrderlyStep | internal/engine/engine.go:399-418 | results in rotation order never skip log records with points |
| EngineLive.OrderlyRunIsRun | internal/engine/engine.go:343-418 | runs in rotation order satisfy the gap hypothesis of the safety theorems |
| EngineLive.VisibleExactly | internal/engine/engine.go:274-283 | a query sees exactly the acknowledged points if and only if the frozen memtable stands for all flushes in flight |
| EngineLive.LiveConservation | internal/engine/engine.go:178-418 | with one flush in flight, active, frozen and segments hold every acknowledged point not removed by retention, once |
| EngineLive.SecondRotationHides | internal/engine/engine.go:347-349 | a second rotation hides exactly the first flush's points |
| EngineLimits.GapExactly | internal/engine/engine.go:399-418 | applying a flush, ahead of the saved offset or behind it, conserves points if and only if the log between the two holds none |
| EngineLimits.FlushedPoints | internal/engine/engine.go:376-415 | a flush under a fresh name adds its points; under a listed name it replaces that segment's points and counts its own twice |
| EngineLimits.FlushNameExactly | internal/engine/engine.go:351-415 | a flush in order conserves points if and only if its name is not listed, or listed for a file with exactly its points |
| EngineLimits.CompactedPoints | internal/engine/engine.go:188-231 | what a compaction does to a series in the three cases of its output name: fresh, a candidate's, another segment's |
| EngineLimits.CompactionNameExactly | internal/engine/engine.go:188-231 | it conserves points if and only if the name is not listed, or a candidate's while the candidates are empty, or another segment's that holds exactly their points |
| EngineLimits.UnsyncedOffsetLosesWrites | internal/engine/engine.go:110-113 | after a crash below the saved offset a further recovery returns all writes appended since if and only if there are none: it returns those from the offset on if one starts there, and nothing if and only if nothing parses there, as until the log has grown past it |
| EngineExamples.FlushNameHappens | internal/engine/engine.go:351-415 | a run: flush, restart, and a second flush that takes the first one's name |
| EngineExamples.CandidateNameHappens | internal/engine/engine.go:178-231 | a run: two flushes compacted, one more, and a compaction whose output replaces its own candidate |
| EngineExamples.ListedNameHappens | internal/engine/engine.go:178-231 | a run: five flushes compacted, five more, and a compaction that overwrites the large segment it did not choose |
| EngineExamples.GapHappens | internal/engine/engine.go:399-418 | a run: a failed flush given up and a later one applied |
| EngineExamples.SecondRotationHappens | internal/engine/engine.go:343-349 | a run: two rotations in a row, the first write no longer visible |
| EngineExamples.UnsyncedOffsetHappens | internal/engine/engine.go:110-113 | a run: a flush applied before its log was synced, a crash, and a synced write that the next crash loses |
| Engine.Engine.Recover | internal/engine/engine.go:110-124 | the active memtable takes in exactly the decoded records from the saved offset on |
| Engine.Restart | internal/engine/engine.go:76-124 | New and Recover after a cut anywhere behind the synced bytes rebuild exactly the whole writes behind the saved offset, and after a cut at a record boundary are the crash step |
| Engine.Engine.HandleWrite | internal/engine/engine.go:307-321 | is the write step; a failed append changes nothing |
| Engine.Engine.HandleBatchWrite | internal/engine/engine.go:323-341 | is one write step per payload, in order |
| Engine.Engine.MaybeRotate | internal/engine/engine.go:343-397 | rotates exactly at the size limit, and is then the rotation step |
| Engine.ListSeries | internal/engine/engine.go:362-374 | every series once, and the least and greatest timestamp of all points although only first and last ones are compared |
| Engine.Engine.RunFlush | internal/engine/engine.go:355-396 | the goroutine is the step that finishes or fails the flush |
| Engine.Engine.ApplyFlushResult | internal/engine/engine.go:399-418 | is the two saves of a written flush, or the discarding of any other result |
| Engine.Engine.HandleCompaction | internal/engine/engine.go:178-208 | starts a compaction of at most five entries with the fewest series |
| Engine.Engine.RunCompaction | internal/engine/engine.go:187-205 | finishes exactly if all candidates read, with their union as output |
| Engine.Engine.ApplyCompactionResult | internal/engine/engine.go:210-232 | is the two saves of a finished compaction, or the discarding of a failed one |
| Engine.Engine.HandleRetention | internal/engine/engine.go:234-252 | is the retention step, also when nothing is removed |
| EngineAnswers.AnswerIsExact | internal/engine/engine.go:276-283 | at every time of the range the points of the active memtable, the frozen one and the segments in manifest order, one after the other; at the largest timestamp those of a single source |
| EngineAnswers.AnswerUnique | internal/engine/engine.go:276-283 | which leaves only one answer |
| EngineAnswers.AnswerContent | internal/engine/engine.go:276-283 | each visible point of the range as often as it is visible, and no other |
| EngineAnswers.AnswerIsAcknowledged | internal/engine/engine.go:254-301 | in runs in order with one flush in flight, an answer has exactly the acknowledged points of the range that retention has not removed, but for the largest timestamp |
| Engine.Engine.HandleQuery | internal/engine/engine.go:254-301 | for each matching ID in increasing order, the one answer, or what the aggregation makes of it; it fails only where the aggregation panics, never if range and width fit an int64 |

## Left out

- HTTP server, command channel, back pressure, tickers, metrics and logging: I/O and plumbing.
- The agent (collectors, parsers, batching, shipping, configuration): no storage state.
- The series registry and its FNV hash: series IDs are given, collisions are not modelled.
- float64 addition is an uninterpreted function of bit patterns.
- crc32.ChecksumIEEE and crc32.Update are modelled bit by bit; that the library's tables compute the same is not.
- A manifest save (JSON, temporary file, rename) is one atomic change of the saved record.
- A segment file appears as a whole, or as arbitrary leftovers of a failed flush; fsync of segment files, and removals that fail, are not modelled.
- I/O errors of the log other than appending to a closed one, and errors of manifest saves, are not modelled.
- Mutexes: handlers are atomic steps, goroutines finish in steps of their own, as the event loop makes them.
- Sorting in place: Insert and Write reorder their caller's slice; here slices are values, so that aliasing does not show. The frozen table of a flush is passed as a value, which the freeze justifies.
- sort.Slice is an insertion sort with its contract (sorted, a permutation); its treatment of ties is not.
- Map iteration order: loops over maps take any order.
- Memory limits: lengths are unbounded, so that the 4 GiB allocation for a corrupt log record and a bucket array too large for memory do not fail; only an index size beyond the runtime's 2^48 bytes does.
- Torn tails over several crashes: runs assume a clean tail after a crash; one crash at any byte is covered by EngineCrash.CrashSafety.
- CompactCandidates, ListSeries, BlockRange, Memtable.Len and other accessors: they add only easy members.
- The v2 writer is not used by the engine; its files are covered by SegmentReader.ReadBackV2 for timestamps with small steps.
- GorillaSeries.WindowExactly: requires delta-of-deltas that fit the short codes, because the decoder loses the others (GorillaTimestamps.LongStepLost).
- Wal.Writer.Append: does not model a failing buffer write or flush, after which the source returns an error although the record may be in the log.
- Engine.Engine.HandleBatchWrite: does not model such a failure in the middle of a batch; in the model only a closed log fails, and then the first write does.
- Compaction.Compact: an output that cannot be written, which the source removes again, is not modelled.
- A panic inside a flush, compaction or query ends the process in Go; here it is a failed result.
