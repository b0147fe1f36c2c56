# LevelDB data-block builder with the SLR trailer, in Dafny

This project models `leveldb::BlockBuilder` from LevelDB-with-SLR-Prediction-Search in three revisions:

- `leveldb/table/block_builder.cc`;
- `leveldb/tablebup0516pagi/block_builder.cc`;
- `leveldb/table_bup_0511/block_builder.cc`.

A block builder collects key/value pairs in `buffer_`. Each key is prefix-compressed against the previous key. Every `block_restart_interval` pairs, the builder records a restart point: the key is stored whole and its offset is pushed onto `restarts_`.

`Finish` appends a trailer:

- **SLR revisions** (`table` and `tablebup0516pagi`, identical in logic):
  - the restart array;
  - ten segment triplets (dividend, divisor, first key) of a segmented linear model of the restart keys;
  - `segment_size + 1`;
  - the restart count.
- **`table_bup_0511`:**
  - the restart array;
  - a rescaled first key `skey_i_low`;
  - a key difference `diff`;
  - the restart count.

Finish reads the keys back out of its own buffer through `GetKey`, which uses `DecodeEntry` and `std::stoi`.

The files, in dependency order:

- `wrappers.dfy`: `Option`.
- `coding.dfy`: the util/coding.h primitives the builder relies on, as self-written specifications:
  - fixed32 little-endian words;
  - varint32 encoding, and decoding after `GetVarint32Ptr`;
  - uint32_t conversion (`Wrap32`).
- `keys.dfy`: the bytewise comparator, the common-prefix length, `std::stoi` and `std::to_string`.
- `entry.dfy`: the entry format and `DecodeEntry`, including the source's check as written (see Findings).
- `layout.dfy`: the builder state as a value:
  - `Image`;
  - `AddStep`, one `Add`;
  - `Build`, a fold of `AddStep`;
  - the restart array;
  - `GetKey`;
  - the proof that `GetKey` reads back the decimal value of every restart key `Add` stored.
- `segments.dfy`: the cut of the restart indices into ten segments and the triplet words.
- `two_key.dfy`: the digit-length rescaling of `table_bup_0511`.
- `block_builder.dfy`: the `BlockBuilder` class (`Add`, `Reset`, both `Finish` variants) and the loops of `Finish` as methods proved against the functions above.

**How the class is specified**

- `Valid()` ties the fields to `Build(interval, entries)`, where `entries` is a ghost list of the pairs added since construction or `Reset`.
- `Add`'s postcondition is one `AddStep`.
- Each `Finish` is specified by a predicate that gives the exact bytes of the finished block:
  - `SegmentedFinished` for the SLR revisions;
  - `TwoKeyFinished` for `table_bup_0511`.
- Values the source leaves uninitialised are left unconstrained:
  - `segment_size` on the zero path;
  - `skey_i_low` and `diff` at 50 or fewer restart gaps;
  - `GetKey` on an entry that does not decode.

**Conventions**

- Integers are unbounded.
- Every uint32_t conversion is written out as `Wrap32` (modulo 2^32, two's complement for negative ints).
- The parameters `interval`, `slr` and `newMetaSize` stand for `options_->block_restart_interval`, `SLR` and `new_meta_size`. The reader header gives the last two as `true` and `32`.

## Model

| member | source | states |
|---|---|---|
| Coding.Wrap32 | leveldb/table/block_builder.cc:129-130 | the uint32_t conversion keeps values in range, adds 2^32 to negative ints down to -2^32, and is congruent to its input modulo 2^32 |
| Coding.Fixed32 | leveldb/table/block_builder.cc:157-159 | PutFixed32 writes four bytes that DecodeFixed32 reads back as the value modulo 2^32 |
| Coding.DecodeFixed32 | leveldb/table/block_builder.cc:91-92 | DecodeFixed32 reads four bytes little-endian: each byte is one base-256 digit of the word, the first the least significant |
| Coding.DecodeFixed32At | leveldb/table/block_builder.cc:91-92 | a fixed32 word written anywhere in a buffer decodes at its position to the value written, modulo 2^32 |
| Coding.Varint32 | leveldb/table/block_builder.cc:219-221 | a varint32 is at least one byte, its first byte is below 128 exactly when the value is, and a value below 128 is that single byte |
| Coding.Varint32Length | leveldb/table/block_builder.cc:219-221 | a value below 128^k takes at most k bytes, so a uint32_t takes at most five |
| Coding.GetVarint32 | leveldb/table/block_builder.cc:79-81 | a successful varint read advances by one to five bytes and never past limit |
| Coding.VarintGroupsEncoded | leveldb/table/block_builder.cc:79-81 | reading the groups of an encoded varint returns the value and the position after it |
| Coding.GetVarint32Encoded | leveldb/table/block_builder.cc:219-221 | GetVarint32 reads back the value PutVarint32 wrote and stops right after it |
| Keys.CommonPrefixLength | leveldb/table/block_builder.cc:207-210 | the shared length is at most both lengths, the prefixes agree, and the next bytes differ when both keys go on |
| Keys.CommonPrefixLengthUnique | leveldb/table/block_builder.cc:208-210 | a common prefix that the loop cannot extend is the longest one |
| Keys.LessLeavesDelta | leveldb/table/block_builder.cc:202-203 | a key strictly greater than the last one is never a prefix of it, so a prefix-compressed entry keeps at least one key byte |
| Keys.LessIrreflexive | leveldb/table/block_builder.cc:202-203 | no key is greater than itself, so Add never accepts the same key twice in a row |
| Keys.DigitRun | leveldb/table/block_builder.cc:102-103 | the digit run stoi reads is all digits and is followed by a non-digit or the end |
| Keys.SpaceRun | leveldb/table/block_builder.cc:102-103 | the leading white space stoi skips is all white space and is followed by a non-space or the end |
| Keys.Stoi | leveldb/table/block_builder.cc:102-103 | a successful std::stoi yields an int in range; an empty key throws; a key starting with a digit gives a non-negative value |
| Keys.DecimalString | leveldb/table_bup_0511/block_builder.cc:278-279 | std::to_string of an unsigned value is a non-empty string of digits |
| Keys.StoiOfDecimalString | leveldb/table_bup_0511/block_builder.cc:278-279 | std::stoi reads back what std::to_string writes, for every value up to INT_MAX |
| Keys.DigitsValueOfDecimalString | leveldb/table_bup_0511/block_builder.cc:278-279 | the digits std::to_string writes have the value that was converted |
| Keys.DecimalLengthTimesTen | leveldb/table_bup_0511/block_builder.cc:294 | multiplying a nonzero value by ten adds exactly one decimal digit |
| Entry.DecodeLengths | leveldb/table/block_builder.cc:71-82 | the header reader fails on fewer than three bytes, and on success the key starts at least three bytes on and no later than limit |
| Entry.EncodeEntry | leveldb/table/block_builder.cc:216-225 | the bytes Add appends are the three varint32 lengths followed by the key delta and the value: their length is the header length plus both payloads, and the key delta starts right after the header |
| Entry.DecodeEntry | leveldb/table/block_builder.cc:68-88 | fewer than three bytes fail; a success never extends key delta and value past limit; with three first bytes below 128, the fast path consumes exactly three bytes and succeeds exactly when non_shared + value_length fit |
| Entry.DecodeEntryAsWritten | leveldb/table/block_builder.cc:84-86 | the check as the source writes it, in uint32_t arithmetic; fewer than three bytes fail |
| Entry.DecodeEntryAsWrittenOverruns | leveldb/table/block_builder.cc:84 | a header with non_shared = 2^32 - 1 and value_length = 1 passes the source's check, while the exact check rejects it |
| Entry.DecodeEntryAgreement | leveldb/table/block_builder.cc:84-87 | on a region below 4 GiB, the source's check agrees with the exact one whenever the exact one accepts, and whenever the source's accepts lengths whose sum fits in 32 bits |
| Entry.DecodeLengthsByVarints | leveldb/table/block_builder.cc:75-81 | three successive GetVarint32 reads give what the header reader returns, whichever path it takes |
| Entry.GetVarint32At | leveldb/table/block_builder.cc:79-81 | a varint written at data[p..q] is read back ending at q |
| Entry.DecodeEncodedLengths | leveldb/table/block_builder.cc:219-221 | the three length fields Add wrote are read back with the key starting right after them |
| Entry.DecodeEntryFits | leveldb/table/block_builder.cc:84-87 | a header whose key delta and value end by limit is accepted unchanged |
| Entry.DecodeEncodedEntry | leveldb/table/block_builder.cc:216-225 | DecodeEntry on an entry Add wrote returns the shared, non-shared and value lengths written, and the key delta and value follow the header |
| Entry.DecodeWrittenParts | leveldb/table/block_builder.cc:68-88 | from where the five fields of a written entry lie, DecodeEntry returns its header |
| Layout.AddStep | leveldb/table/block_builder.cc:198-232 | one Add keeps the existing bytes as a prefix, appends at least a three-byte header, keeps every restart point, and leaves the last key equal to the new key |
| Layout.Build | leveldb/table/block_builder.cc:43-47 | there is always a restart point; a builder holding no pair is in the constructor's state; otherwise its buffer is non-empty and its last key is the last key added |
| Layout.RestartEntryAtExtend | leveldb/table/block_builder.cc:224-225 | appending to the buffer keeps every stored restart entry in place |
| Layout.ShapeFirst | leveldb/table/block_builder.cc:46 | the first pair is stored whole at restart offset 0 |
| Layout.OldRestartsKept | leveldb/table/block_builder.cc:224-225 | appending an entry keeps every earlier restart entry in place |
| Layout.ShapeExtend | leveldb/table/block_builder.cc:205-210 | an Add below the restart interval keeps the shape of the block |
| Layout.ShapeRestart | leveldb/table/block_builder.cc:211-215 | an Add at the interval records the old buffer length as a restart that holds the new pair stored whole |
| Layout.NewRestartEntry | leveldb/table/block_builder.cc:213 | the new restart point is the pair number restarts * interval, stored whole at the old buffer length |
| Layout.BuildShape | leveldb/table/block_builder.cc:205-215 | after any sequence of Adds: restarts start at 0 and strictly increase; restart j holds pair j * interval stored whole; the counter is the number of pairs since the last restart; the last key is the last key added |
| Layout.RestartArray | leveldb/table/block_builder.cc:111-113 | the restart array is four bytes per restart point |
| Layout.RestartArrayWord | leveldb/table/block_builder.cc:111-113 | word j of the restart array decodes to restart offset j |
| Layout.WholeKeyAt | leveldb/table/block_builder.cc:94-104 | the key bytes of an entry that decodes and shares nothing are no longer than limit |
| Layout.GetKey | leveldb/table/block_builder.cc:90-107 | a key GetKey reads is an int |
| Layout.WholeKeyOfEncoded | leveldb/table/block_builder.cc:94-102 | an entry stored whole before limit decodes to its full key |
| Layout.WholeKeyOfHeader | leveldb/table/block_builder.cc:97-102 | a decoded header with no shared bytes yields the key bytes after it |
| Layout.GetKeyOfWord | leveldb/table/block_builder.cc:91-103 | GetKey follows the restart word to the entry and applies stoi to its key |
| Layout.GetKeyOfStoredEntry | leveldb/table/block_builder.cc:90-107 | GetKey on a restart word that locates an entry stored whole yields stoi of its key |
| Layout.GetKeyOfRestart | leveldb/table/block_builder.cc:90-107 | GetKey on restart j of the data followed by the restart array yields stoi of the pair stored there |
| Layout.GetKeyOfTail | leveldb/table/block_builder.cc:90-107 | the same for any trailer whose word j holds the offset |
| Layout.GetKeyOfBuilt | leveldb/tablebup0516pagi/block_builder.cc:90-107 | on a block the builder wrote, GetKey on restart j never reads an uninitialised value: it returns stoi of the key of pair j * interval |
| Layout.RestartIndices | leveldb/table/block_builder.cc:205-215 | on a block the builder wrote, pair j * interval exists for every restart point j, and restart j holds that pair stored whole |
| Layout.RestartKeysOfBuilt | leveldb/table/block_builder.cc:143-148 | when the restart keys parse, stoi succeeds on the key of the pair every restart point of a built block holds |
| Layout.RestartValues | leveldb/table/block_builder.cc:144-149 | there is one value per restart point, and each is what stoi reads from that restart's key |
| Layout.GetKeysOfBuilt | leveldb/table/block_builder.cc:144-149 | on a block the builder wrote, GetKey on every restart point returns the value of that restart's key |
| Layout.RestartCount | leveldb/table/block_builder.cc:205-215 | after k >= 1 Adds there are 1 + (k - 1) / interval restart points |
| Segments.SegmentsFrom | leveldb/table/block_builder.cc:141-176 | the loop writes exactly count segments, the first starting at s |
| Segments.Cut | leveldb/table/block_builder.cc:137-141 | Finish writes exactly ten segments |
| Segments.SegmentsFromShape | leveldb/table/block_builder.cc:143-148 | every segment ends at its start plus segment_size, clamped to high, and the next one starts right after |
| Segments.SegmentsFromBounds | leveldb/table/block_builder.cc:143-152 | every start is at most high + 1, every end at most high, and every divisor lies in -1 .. segment_size |
| Segments.SegmentsFromReachHigh | leveldb/table/block_builder.cc:146-148 | ten segments of segment_size + 1 indices always reach high, so the last one ends at high |
| Segments.CutPartitions | leveldb/table/block_builder.cc:119-176 | the segments start at 0, are consecutive and clamped, the last ends at high, and every GetKey index lies inside the restart array |
| Segments.SegmentsFromStep | leveldb/tablebup0516pagi/block_builder.cc:205-245 | one pass of the loop takes the next segment and continues from its end plus one |
| Segments.CutCovers | leveldb/table/block_builder.cc:137-176 | every restart index 0 .. high lies in one segment, and the segments do not overlap |
| Segments.EndsBelowLaterStarts | leveldb/table/block_builder.cc:175 | in consecutive segments every end lies below every later start |
| Segments.Triplet | leveldb/table/block_builder.cc:151-159 | a segment is written as three words |
| Segments.Triplets | leveldb/table/block_builder.cc:157-159 | the segments are written as twelve bytes each |
| Segments.TripletsSnoc | leveldb/table/block_builder.cc:157-159 | writing one more segment appends its triplet |
| Segments.SegmentsSoFarStart | leveldb/table/block_builder.cc:137-141 | before the first pass nothing is written and all ten segments are still to come |
| Segments.SegmentsSoFarStep | leveldb/table/block_builder.cc:141-176 | one pass of the segment loop keeps the loop state: the words written are the triplets of the segments done |
| Segments.TripletWords | leveldb/table/block_builder.cc:151-159 | a triplet reads back as dividend = key(end) - key(start), divisor = end - start and the first key, each modulo 2^32 |
| Segments.TripletsAt | leveldb/table/block_builder.cc:157-159 | the triplet of segment i lies at byte 12 * i |
| Segments.TripletsReadBack | leveldb/table/block_builder.cc:151-159 | words 3i, 3i + 1 and 3i + 2 of the segment trailer are the dividend, divisor and first key of segment i |
| Segments.SegmentTrailer | leveldb/table/block_builder.cc:141-176 | the segment trailer is 120 bytes |
| Segments.ZeroWords | leveldb/table/block_builder.cc:180-184 | the zero path writes four zero bytes per word |
| TwoKey.Rescale | leveldb/table_bup_0511/block_builder.cc:276-301 | only the value with fewer decimal digits changes; values of equal length are left as they are |
| TwoKey.Diff | leveldb/table_bup_0511/block_builder.cc:289-303 | diff = skey_i_high - skey_i_low after rescaling, in uint32_t: adding diff back to the rescaled skey_i_low gives the rescaled skey_i_high |
| TwoKey.DiffOfEqualLengths | leveldb/table_bup_0511/block_builder.cc:289-303 | for equal decimal lengths, diff is skey_i_high - skey_i_low modulo 2^32 |
| TwoKey.RescaleAlignsOneDigit | leveldb/table_bup_0511/block_builder.cc:292-300 | a one-digit difference is aligned by the rescaling when the product does not wrap |
| TwoKey.RescaleTwoDigitsMisaligns | leveldb/table_bup_0511/block_builder.cc:293-294 | the factor is rest * 10, not 10^rest: keys 1 and 100 become 20 and 100, still of different lengths |
| Builder.DataRegionOffset | leveldb/tablebup0516pagi/block_builder.cc:188-189 | res computed in uint32_t is the length of the entry data, whatever the number of meta words (3 in leveldb/table_bup_0511/block_builder.cc:150-151) |
| Builder.SegmentModelBuilt | leveldb/table/block_builder.cc:119-127 | the segment model is built exactly when SLR is on and there are at least 53 restart points (high = n - 2 > 50) |
| Builder.EstimateCoversFinished | leveldb/tablebup0516pagi/block_builder.cc:58-66 | with new_meta_size >= 32, CurrentSizeEstimate is at least the finished size: the data plus 4n + 128 bytes |
| Builder.SegmentedEstimate | leveldb/table/block_builder.cc:58-66 | CurrentSizeEstimate of the SLR revisions: with new_meta_size >= 32 it is at least the data, the restart array and the 128 trailer bytes |
| Builder.TwoKeyEstimate | leveldb/table_bup_0511/block_builder.cc:58-66 | CurrentSizeEstimate of table_bup_0511: the length of the data and the restart array, plus three words |
| Builder.EstimatesGrow | leveldb/tablebup0516pagi/block_builder.cc:58-66 | both revisions' CurrentSizeEstimate strictly grow with every Add |
| Builder.SharedPrefixLength | leveldb/table/block_builder.cc:207-210 | the while loop stops at the longest common prefix of the last key and the new key |
| Builder.AddPreservesBuild | leveldb/table/block_builder.cc:204-231 | the state Add computes is one AddStep, and the keys stay strictly increasing |
| Builder.AddStepParts | leveldb/table/block_builder.cc:216-229 | the rebuilt last key, last_key_[..shared] + key[shared..], equals the new key, and Add's bytes are AddStep's |
| Builder.AddExtendsBuild | leveldb/table/block_builder.cc:198-203 | one more Add extends the built image by one AddStep, and keeps the keys strictly increasing |
| Builder.ReadRestartKey | leveldb/table/block_builder.cc:144 | GetKey on restart pos returns that restart's key value |
| Builder.NextSegment | leveldb/tablebup0516pagi/block_builder.cc:207-228 | one pass of the loop: the clamped end, which indexes a restart, and the triplet of the segment, with both keys read through GetKey |
| Builder.SegmentWords | leveldb/table/block_builder.cc:137-176 | the segment loop computes segment_size = high / 10 and writes exactly the ten triplets of the cut of 0 .. high |
| Builder.BuiltKeysRead | leveldb/table/block_builder.cc:129-133 | on the data followed by the restart array, GetKey from the start of the restart array reads every restart key |
| Builder.ZeroSegmentWords | leveldb/table/block_builder.cc:180-184 | the zero path writes thirty zero words |
| Builder.SegmentedTrailer | leveldb/tablebup0516pagi/block_builder.cc:172-380 | with SLR on and more than fifty restart gaps, the thirty words are the segment triplets and segment_size = (n - 2) / 10; otherwise they are thirty zero words |
| Builder.TwoKeyTrailer | leveldb/table_bup_0511/block_builder.cc:150-310 | above fifty restart gaps: skey_i_low is the uint32_t key of restart 0, rescaled when it and the key of restart n - 2 are both nonzero; diff is then the rescaled difference |
| Builder.SegmentedFinished | leveldb/table/block_builder.cc:109-195 | the block the SLR Finish returns is 4n + 128 bytes past the data; whenever Finish can run, it begins with the entry data and its last word reads back num_restarts |
| Builder.TwoKeyFinished | leveldb/table_bup_0511/block_builder.cc:90-341 | the block the table_bup_0511 Finish returns is 4n + 12 bytes past the data, begins with the entry data, and its last word reads back num_restarts |
| Builder.SegmentedTail | leveldb/table/block_builder.cc:115-192 | the words appended after the restart array make the block SegmentedFinished describes |
| Builder.TwoKeyTail | leveldb/table_bup_0511/block_builder.cc:150-334 | the words appended after the restart array make the block TwoKeyFinished describes |
| Builder.TwoKeyTailFinished | leveldb/table_bup_0511/block_builder.cc:328-334 | skey_i_low, diff and num_restarts after the restart array are the last three words of the finished block |
| Builder.BlockBuilder.constructor | leveldb/table/block_builder.cc:43-47 | a new builder holds no pair: empty buffer, restarts [0], counter 0, not finished, empty last key |
| Builder.BlockBuilder.Reset | leveldb/table/block_builder.cc:49-56 | Reset leaves exactly the constructor's state, so the same Adds afterwards give the same bytes |
| Builder.BlockBuilder.SegmentedSizeEstimate | leveldb/tablebup0516pagi/block_builder.cc:58-66 | CurrentSizeEstimate of the builder: with new_meta_size >= 32 it covers the buffer, the restart array and the 128 trailer bytes |
| Builder.BlockBuilder.TwoKeySizeEstimate | leveldb/table_bup_0511/block_builder.cc:58-66 | CurrentSizeEstimate of the builder: the buffer, the restart array and three words |
| Builder.BlockBuilder.Add | leveldb/table/block_builder.cc:198-232 | Add requires an unfinished builder with counter <= interval and a key greater than the last one; the new state is one AddStep (prefix compression below the interval, restart at it, exact bytes appended); the last key becomes the key |
| Builder.BlockBuilder.AppendRestartArray | leveldb/table/block_builder.cc:111-113 | the loop appends the restart offsets as fixed32 words in insertion order and changes nothing else |
| Builder.BlockBuilder.FinishSegmented | leveldb/tablebup0516pagi/block_builder.cc:109-439 | Finish appends exactly 4n + 128 bytes (restart array, thirty segment or zero words, segment_size + 1, n), sets finished and returns the buffer; with new_meta_size >= 32 the size is within CurrentSizeEstimate |
| Builder.BlockBuilder.FinishTwoKey | leveldb/table_bup_0511/block_builder.cc:90-342 | Finish appends the restart array, skey_i_low, diff and n; the block length is exactly CurrentSizeEstimate; finished is set and the buffer returned |

## Left out

- Console output (`cout`), commented-out debug code, and the unused floating-point values (`coefs` in leveldb/tablebup0516pagi/block_builder.cc:223, `myFloatNum` in leveldb/table_bup_0511/block_builder.cc:327) are not modelled.
- util/coding.h is not part of this model. `PutFixed32`, `DecodeFixed32`, `PutVarint32` and `GetVarint32Ptr` are self-written specifications of LevelDB's documented formats.
- leveldb/comparator.h is not part of this model. The comparator is bytewise lexicographic order (`Keys.Less`).
- block_builder.h is not part of this model. `SLR`, `new_meta_size` and the restart interval are constructor parameters.
- The reader side (leveldb/tablebup0516pagi/block.h) and the database client leveldb/table/testku.cc are not modelled.
- The stale trailer comment at leveldb/table/block_builder.cc:24-27 is ignored. The model follows the code.
- `GetKey` reads a snapshot of the buffer taken right after the restart array is appended. The source keeps `buffer_.data()` while appending more words, which may reallocate. The bytes it reads are the same as long as the pointer stays valid.
- The trailer words after the restart array are collected in a sequence and appended to the buffer at once. The source appends them one by one; the bytes are the same.
- The 0511 `Finish` decodes the two keys inline (leveldb/table_bup_0511/block_builder.cc:238-272). The model reads them through `GetKey`, which takes the same steps except for the final bounds check of `DecodeEntry` (next line).
- Layout.GetKey: decodes through the corrected `Entry.DecodeEntry`, not the uint32_t check of leveldb/table/block_builder.cc:84. On a corrupt header whose lengths wrap (the Findings row) the source goes on to read the key and the model returns `Uninitialised`. `Entry.DecodeEntryAgreement` shows that the two checks agree whenever the lengths' sum fits; on every block the builder writes `Layout.GetKeyOfBuilt` reads the key, so `Finish` is unaffected.
- Builder.BlockBuilder.Add: requires keys and values shorter than 2^32 bytes. The source narrows `size_t` to uint32_t in `PutVarint32` without a check.
- Builder.BlockBuilder.FinishSegmented: requires the data below 2^32 bytes, because the source stores offsets as uint32_t. Calling Finish twice is excluded. When the segment model is built, it also requires every restart key to parse as an int. That is more than the source needs: its loop calls `std::stoi` (through `GetKey`) only on the keys at the segment bounds `s` and `hi` (leveldb/table/block_builder.cc:143-148). A block with a non-numeric key at a restart strictly inside a segment, which the source finishes, is outside this contract.
- Builder.BlockBuilder.FinishTwoKey: requires the data below 2^32 bytes. Above fifty restart gaps, it also requires every restart key to parse as an int. That is more than the source needs: it calls `std::stoi` only on the keys of restart 0 and restart n - 2 (leveldb/table_bup_0511/block_builder.cc:250, 271). A block with a non-numeric key at any other restart, which the source finishes, is outside this contract.
- Builder.SegmentedTrailer: does not model `int` overflow in `dividend` (`last_key - first_key`). The model writes the exact difference modulo 2^32, which is the word two's-complement wrap-around produces.
- Builder.TwoKeyTrailer: says nothing about `skey_i_low` and `diff` where the source leaves them uninitialised.

## Findings

| source | as written | input that shows it | evidently intended | confidence | as-written member | corrected member |
|---|---|---|---|---|---|---|
| leveldb/table/block_builder.cc:84 | `static_cast<uint32_t>(limit - p) < (*non_shared + *value_length)` adds the two lengths in uint32_t, so the sum wraps | the seven bytes 00 FF FF FF FF 0F 01 with limit 7: non_shared = 2^32 - 1 and value_length = 1 sum to 0, so the entry is accepted while claiming 2^32 bytes past limit | reject any entry whose key delta and value do not end by limit | not executed | Entry.DecodeEntryAsWrittenOverruns | Entry.DecodeEntry |
