# ChronosVector: a verified model

ChronosVector keeps a sliding window of vectors per sensor in a lock-free ring, moves aged entries into checksummed blocks
in an ordered key-value store, and answers exact top-K, range and anomaly queries over the live window. This project models
that behaviour in Dafny and proves what the pieces promise, alone and together.

Run `dafny verify dfyconfig.toml`.

## Layout

- `RingProtocol`, `RingRuns`, `RingWitness`: the ring as a step relation, one memory access per step, with half-written rows. A row is a
  sequence of cells (timestamp, vector words, norm, scale, payload). History variables record what was appended, what an
  eviction copied, and which appends were counted. The evictor may choose any new tail in its snapshot, which covers every
  timestamp scan.
- `SensorRing`, `Modular`: the same ring as a class with slot arrays, for calls that do not overlap.
- `Eviction`, `Evictor`, `BlockRecords`: the eviction rule, and `EvictSensor` over the ring, the grow-only scratch and the backend.
- `SensorLog`, `EngineLog`, `EvictionPass`: a sensor's whole life as a log, the proof that the imperative engine takes its
  steps, and a pass over all sensors.
- `Crc`, `CrcMachine`, `CrcBursts`, `BlockCodec`, `BlockBuffers`: CRC-32 on words of 32 bits (section 8 of RFC 1952), the block
  format, and the codec over byte arrays. `Formats`: the three stored formats byte by byte.
- `StorageKeys`, `SortedDb`, `ColdTier`, `RocksBackend`: byte keys, an ordered byte-string store, the map from sensors to
  blocks it stands for, and the backend's methods.
- `Metadata`, `Lifecycle`, `LifecycleEngine`: configuration, the metadata blob, and Create, Open, Close and Drop over whole runs.
- `Rehydration`, `Rehydrate`, `RecoveredNorms`, `RecoveredLog`: recovery of the hot window, and the log from there on.
- `TopK`, `Query`, `Anomaly`: queries. `Kernels`, `Int8`: the distance kernels over real numbers. `FloatQuery`, `Int8Query`: the two together.

`ioOk` parameters and `Access` values say whether the storage engine below accepts an operation; a refused one has no effect.
Stored floats are opaque 32-bit words; scores and kernel arithmetic are over `real`, with norms and square roots taken as exact.

## Where the code and its comments differ

The model follows the code.

- `include/chronosv/ring_buffer.h:172-176`: the producer never waits for the tail, so "copy before advance"
  (`src/engine.cpp:1102-1106`) is faithful only for entries not lapped during the copy. `RingWitness.SpoiledCopy` is a run;
  `RingProtocol.NoSilentLoss` is what does hold.
- `src/engine.cpp:1159`: `t_end_ms` is the last element of a scratch that never shrinks, so it can be left over from an earlier pass
  (`Evictor.Engine.TakeOut`; a consequence is `Rehydrate.LeftoverStampAbandons`).
- `src/engine.cpp:1250`: an old block makes recovery drop the newer ones as well (`Rehydration.StaleBlockDiscardsAll`);
  the comment says only that older blocks are skipped.
- `src/engine.cpp:771-779`: the truncation warning compares with the oldest entry scanned, not the oldest hot entry
  (`Query.WarningIsDocumentedIff`).
- `src/engine.cpp:1154`: the block's count is a 32-bit cast, so a pass of 2^32 rows or more writes fewer rows than it removes
  (`SensorLog.BlockReadsBack`); the configuration admits such rings.
- `src/engine.cpp:401-466`: `Create` does not resume block ids, only `Open` does (`Lifecycle.StepNumbered`
  gives the exact condition, `Lifecycle.SecondCreateLosesBlock` a run).
- `src/engine.cpp:1069-1071`: the comment says window 0 is reached from `Flush` only; `MaintainSlidingWindow(0)`
  (`src/engine.cpp:885-895`) stores it and evicts everything as well.
- `src/storage_rocksdb.cpp:399-402`: the comment says ids may not contain 0x02; `validate_sensor_id` rejects 0x01 only. The
  range is still exact (`StorageKeys.RangeIsOneSensor`).
- `include/chronosv/ring_buffer.h:208`: an append without a payload leaves the old entry's payload in the slot
  (`SensorRing.SensorRing.StalePayload`).

## Model

| member | source | states |
|---|---|---|
| `RingProtocol.NoSilentLoss` | include/chronosv/ring_buffer.h:159-236 | In every interleaving of one producer, one evictor and any number of readers, every appended entry is still in the window with its row intact in its slot, was copied faithfully by an eviction, or was overwritten by an append that was counted |
| `RingProtocol.SpoiledCopyIsCounted` | include/chronosv/ring_buffer.h:172-176 | A copy handed to the cold tier that differs from what was appended was spoiled by an append that was counted |
| `RingProtocol.LossIsBounded` | include/chronosv/ring_buffer.h:265-270 | The overwrite counters agree, count exactly the appends of `RingRuns.CountedIff`, and are never less than the number of entries that are gone, entries whose slot is only half overwritten included |
| `RingProtocol.CountedReusedSlot` | include/chronosv/ring_buffer.h:168-176 | No append is counted before the ring has filled once |
| `RingRuns.CountedIff` | include/chronosv/ring_buffer.h:168-176 | Over every run: an append is counted if and only if it is past its check and, when it loaded the tail, the entry in its slot was still at or above the tail |
| `RingRuns.DrainedRingCountsNothing` | include/chronosv/ring_buffer.h:168-176 | No false alarm: a run in which every append finds head below tail + capacity counts nothing |
| `RingRuns.PublishedIsInput` | include/chronosv/ring_buffer.h:202-214 | An append publishes, under the head it began at, exactly the cells it was given, and the slot's old ones where it was given none |
| `RingRuns.SnapshotIsExact` | include/chronosv/ring_buffer.h:225-230 | A snapshot contains exactly the published indices at or above the loaded tail whose slot no later append has been published into |
| `RingRuns.ProducerNeverWaits` | include/chronosv/ring_buffer.h:159-215 | In every reachable state the producer has a next step, whatever the other threads have done |
| `RingRuns.EvictorNeverWaits` | src/engine.cpp:1056-1145 | So has the evictor, and a copy that has begun goes on to the store of the tail |
| `RingProtocol.GuardedRead` | include/chronosv/ring_buffer.h:238-253 | A complete read of entry idx that ends while head < idx + capacity is exactly that entry, even with an append half written |
| `RingProtocol.SnapshotWindow` | include/chronosv/ring_buffer.h:217-230 | Whatever runs in between its two loads, a snapshot is a range of at most capacity entries that ends at or below the head |
| `RingProtocol.TailIsMonotone` | include/chronosv/ring_buffer.h:232-236 | No step lowers the tail, lets it pass the head, or changes what was published or counted before |
| `RingProtocol.StepKeeps` | src/engine.cpp:1056-1145 | Every single step of producer, evictor and readers keeps the invariant behind the four theorems above |
| `RingProtocol.DisturbedIsCounted` | include/chronosv/ring_buffer.h:168-176 | An entry the tail has not passed whose slot is being or has been reused has had that reuse counted already |
| `RingWitness.TornRead` | include/chronosv/ring_buffer.h:222-224 | The guard is needed: a reachable run in which a read at head == idx + capacity returns a row nobody appended |
| `RingWitness.SpoiledCopy` | src/engine.cpp:1102-1106 | Copying before advancing the tail is not enough: a reachable run whose copied entry differs from the appended one |
| `Modular.MaskIsRemainder` | include/chronosv/ring_buffer.h:222 | For a capacity with a single bit set, masking an index with capacity - 1 is taking its remainder |
| `Modular.SingleBitIsPower` | src/engine.cpp:217-218 | A capacity passes the single-bit test if and only if it is a power of two |
| `Modular.AndBits` | include/chronosv/ring_buffer.h:240-246 | Bit k of a masked index is bit k of the index and of the mask |
| `SensorRing.SensorRing.constructor` | include/chronosv/ring_buffer.h:101-131 | A fresh ring is empty; slots hold whatever the allocator returned |
| `SensorRing.SensorRing.Slot` | include/chronosv/ring_buffer.h:240-246 | The masked index is the index modulo the capacity |
| `SensorRing.SensorRing.Append` | include/chronosv/ring_buffer.h:159-215 | Appends exactly one entry to the history, keeps the newest capacity entries in their slots, and counts an overwrite exactly when head - tail had reached the capacity |
| `SensorRing.SensorRing.WriteSlot` | include/chronosv/ring_buffer.h:202-210 | The stores of one append change one slot and no other |
| `SensorRing.SensorRing.StalePayload` | include/chronosv/ring_buffer.h:208-210 | An append without a payload inherits the payload of the entry it overwrites |
| `SensorRing.AppendHolds` | include/chronosv/ring_buffer.h:178-205 | Writing the next slot keeps every other one of the newest capacity entries readable |
| `SensorRing.SensorRing.Snapshot` | include/chronosv/ring_buffer.h:225-230 | The window is the newest min(head - tail, capacity) entries of the history, in order |
| `SensorRing.SensorRing.AdvanceTail` | include/chronosv/ring_buffer.h:232-236 | Moves the tail and nothing else |
| `SensorRing.SensorRing.TimestampAt` | include/chronosv/ring_buffer.h:240-242 | For an index in the last capacity entries, the timestamp that was appended under it |
| `SensorRing.SensorRing.VectorAt` | include/chronosv/ring_buffer.h:243-246 | Likewise the vector |
| `SensorRing.SensorRing.NormAt` | include/chronosv/ring_buffer.h:247-249 | Likewise the norm |
| `SensorRing.SensorRing.PayloadAt` | include/chronosv/ring_buffer.h:250-253 | Likewise the payload; none for a ring without payloads |
| `SensorRing.SensorRing.ScaleAt` | src/engine.cpp:1133-1135 | Likewise the scale; none unless the ring is INT8 |
| `Eviction.CutIsLongestPrefix` | src/engine.cpp:1084-1091 | A windowed pass removes exactly the longest prefix older than max_ts - window, and never an entry at max_ts |
| `Eviction.MaxSurvives` | src/engine.cpp:1074-1082 | The frontier does not move: what is left has the same maximum timestamp |
| `Eviction.CutThenCut` | src/engine.cpp:1074-1093 | Evicting with one window and then another removes what the smaller one removes |
| `Eviction.EvictionIsIdempotent` | src/engine.cpp:1093 | A second pass with the same window removes nothing |
| `Eviction.SurvivorsAreTheWindow` | src/engine.cpp:1084-1088 | The survivors are exactly the entries inside the window if and only if no entry older than the cutoff comes after one inside it |
| `Eviction.InOrderSurvivors` | src/engine.cpp:1084-1091 | With non-decreasing timestamps an entry survives if and only if it is at or after the cutoff |
| `Eviction.CutIsAntitone` | src/engine.cpp:1082 | A larger window never removes more |
| `Eviction.LeadingIsLongest` | src/engine.cpp:1089-1091 | The prefix length is the only one with everything before it below the cutoff and the next entry not |
| `Evictor.NewestStamp` | src/engine.cpp:1077-1081 | The scan from INT64_MIN finds the maximum timestamp of the window |
| `Evictor.SkipOlder` | src/engine.cpp:1089-1091 | The prefix loop stops at the end of the leading run below the cutoff |
| `Evictor.ChooseTail` | src/engine.cpp:1063-1092 | The new tail cuts the window where the eviction rule says; window 0 takes everything |
| `Evictor.EvictScratch.CopyOut` | src/engine.cpp:1107-1141 | The grow-only scratch starts with exactly the evicted rows in every column, whatever earlier passes left in it |
| `Evictor.EvictScratch.CopyRow` | src/engine.cpp:1127-1141 | One slot is copied behind the rows copied before it |
| `Evictor.BlockIsItsRows` | src/engine.cpp:1151-1165 | A block that points at whole scratch buffers stands for its first count rows and nothing beyond them |
| `Evictor.Engine.TakeOut` | src/engine.cpp:1107-1144 | The copy is complete before the tail moves; the scratch is then the rows' timestamps followed by what a larger pass had left, so it ends in the last evicted timestamp, or in an older one when an earlier pass was larger |
| `Evictor.Engine.BlockFrom` | src/engine.cpp:1151-1165 | The block built from the scratch stands for the evicted rows, starting at the first one's timestamp |
| `Evictor.Engine.Persist` | src/engine.cpp:1149-1187 | A successful write adds one block under the next id; a failed one changes nothing in the store and is counted |
| `Evictor.Engine.EvictSensor` | src/engine.cpp:1056-1193 | One pass: the cut of the window leaves the ring and becomes the sensor's next block, or is lost and counted if the write fails |
| `EngineLog.Ingest` | src/engine.cpp:546-571 | An append on the imperative ring is the append step of the sensor log |
| `EngineLog.Pass` | src/engine.cpp:1056-1193 | An eviction pass of the imperative engine is the eviction step of the sensor log, for the same store |
| `SensorLog.LogIsHistoryMinusLoss` | src/engine.cpp:1056-1187 | Over any run and for any capacity, from a fresh or a recovered ring: the blocks read back followed by the window are the old blocks followed by the append history minus exactly the overwritten entries, those of failed writes and those a block's 32-bit count left out |
| `SensorLog.ListedLog` | src/storage_rocksdb.cpp:315-349 | The same, reading the blocks in the order ListBlocks gives |
| `SensorLog.EveryEntryIsAccountedFor` | src/engine.cpp:1143-1187 | head = persisted + failed + left out by the count + overwritten + live, and overwritten_entries is exact when operations do not overlap; the count leaves nothing out in a ring of fewer than 2^32 slots |
| `SensorLog.LogIsHistory` | src/engine.cpp:1056-1187 | With no overwrite, no failed write and nothing left out by the count, blocks and window are the whole history |
| `SensorLog.BlockKeepsRows` | src/engine.cpp:1154 | A block reads back as the first n mod 2^32 of its n rows |
| `SensorLog.BlockHeaderIs` | src/engine.cpp:1151-1165 | The block a pass writes carries the schema, the row count as far as 32 bits go, the first row's timestamp as t_start and the given t_end |
| `SensorLog.BlockReadsBack` | src/engine.cpp:1154 | A block reads back as the rows it was cut from if and only if there were fewer than 2^32 of them, the width of the count field |
| `SensorLog.PassWrites` | src/engine.cpp:1167-1169 | A successful pass appends its rows, as far as the count field reaches, to what the sensor's blocks read back as, and keeps the ids dense |
| `SensorLog.EvictKeeps` | src/engine.cpp:1056-1187 | An eviction pass keeps the log invariant, whether its write succeeds or not |
| `SensorLog.WritesHitFreshKeys` | src/engine.cpp:1153-1169 | No write lands on a key in use: stored ids are exactly 0..next_block_id-1 |
| `SensorLog.ListedInOrder` | src/engine.cpp:370-377 | ListBlocks gives 0..n-1 in order, so Open resumes at n |
| `SensorLog.HistoryGrows` | include/chronosv/ring_buffer.h:202-214 | Nothing appended, or recovered before, is ever changed in the history |
| `RecoveredLog.FilledRingStarts` | src/engine.cpp:1317 | A ring that recovery has filled is a start of the log |
| `RecoveredLog.RecoveredIsStored` | src/engine.cpp:1241-1314 | Everything recovered is in the blocks, as often as it is recovered |
| `RecoveredLog.RecoveredEntriesComeTwice` | src/engine.cpp:1241-1317 | After a recovery, with nothing lost since, the blocks and the window read back as the old blocks, the recovered entries again, then what was appended |
| `EvictionPass.PassIsEachSensors` | src/engine.cpp:1042-1054 | One pass over all sensors takes each to where its own pass takes it, with the t_end that the sensors before it in the walk leave for it; sensors not visited keep their state and blocks |
| `EvictionPass.FlushMovesWindow` | src/engine.cpp:873-883 | Flush empties every window, and where the write succeeds the window, as far as the count field reaches (all of it below 2^32 slots), is appended to what the blocks read back as |
| `EvictionPass.EvictInPlace` | src/engine.cpp:1056-1193 | The imperative pass over one sensor takes exactly the step of the walk, the shared scratch included |
| `EvictionPass.PassIsLocal` | src/engine.cpp:1056-1193 | What a sensor's pass does to it does not depend on the rest of the store |
| `Crc.PolynomialConstant` | src/block_codec.cpp:61 | The polynomial's word is 0xEDB88320 |
| `Crc.TableStep` | src/block_codec.cpp:73 | One table lookup is eight bit-serial steps (section 8 of RFC 1952) |
| `Crc.Crc32Table.constructor` | src/block_codec.cpp:55-67 | Every entry of the table is eight bit-serial steps of its index |
| `Crc.Crc32Ieee` | src/block_codec.cpp:70-76 | The table-driven loop computes the bit-serial CRC-32 of any input |
| `CrcMachine.IsCrc32` | src/block_codec.cpp:70-76 | The checksum in the code's 32-bit arithmetic: start at 0xFFFFFFFF, eight shift-and-subtract steps a byte with 0xEDB88320, complement |
| `CrcMachine.CheckValue` | src/block_codec.cpp:48-52 | The standard check value: the characters 1 to 9 have checksum 0xCBF43926 |
| `CrcMachine.EmptyChecksum` | src/block_codec.cpp:71-75 | The empty message has checksum 0 |
| `CrcMachine.Residue` | src/block_codec.cpp:70-76 | Any message with its checksum behind it has checksum 0x2144DF1C |
| `Crc.StepInjective` | src/block_codec.cpp:61 | A CRC step loses no information |
| `Crc.RegisterInjective` | src/block_codec.cpp:70-76 | Two different register values stay different through any message |
| `Crc.RegisterConcat` | src/block_codec.cpp:72-74 | The register of a concatenation continues from the register of its first part |
| `Crc.ChecksumIffResidue` | src/block_codec.cpp:238-242 | A message carries its right checksum if and only if message and checksum together leave the fixed residue |
| `Crc.BurstDetected` | src/block_codec.cpp:70-76 | Two messages of any length that differ only in one window of four bytes leave different registers |
| `Crc.BurstBreaksChecksum` | src/block_codec.cpp:238-242 | No change confined to four consecutive bytes, straddling the stored checksum or not, leaves the checksum right |
| `BlockCodec.ImageLength` | src/block_codec.cpp:82-100 | What is written is exactly block_serialized_size bytes long |
| `BlockCodec.DecodeImage` | src/block_codec.cpp:188-286 | Decoding a serialized block, with anything behind it, returns every header field and every section |
| `BlockCodec.ReserializeIffReservedZero` | src/block_codec.cpp:188-286 | Re-serializing an accepted input gives back its first expected bytes if and only if its reserved field was zero |
| `BlockCodec.AcceptedIffChecked` | src/block_codec.cpp:201-242 | Acceptance is a good header and a right checksum over the length the header implies, and nothing else |
| `BlockCodec.BurstRejected` | src/block_codec.cpp:201-242 | Any change confined to four consecutive bytes of a valid block that does not change the implied length is rejected, at any length |
| `BlockCodec.BurstOutsideLayoutRejected` | src/block_codec.cpp:201-242 | In particular any that leaves flags, dim, count and payload_size intact |
| `CrcBursts.RegisterIsBitwise` | src/block_codec.cpp:70-76 | The register taken byte by byte is the register taken bit by bit, low bit first |
| `CrcBursts.BurstChangesRegister` | src/block_codec.cpp:70-76 | Two messages of any length that differ only within 32 consecutive bits, at any bit offset, leave different registers |
| `CrcBursts.BitBurstBreaksChecksum` | src/block_codec.cpp:238-242 | No burst of at most 32 bits at any bit offset leaves a message's checksum right |
| `CrcBursts.BitBurstRejected` | src/block_codec.cpp:201-242 | A block damaged by such a burst is rejected unless the burst changes the length its header implies |
| `BlockBuffers.SerializeBlock` | src/block_codec.cpp:111-182 | The block's image goes to the front of the caller's buffer, the rest is untouched, and a refused block writes nothing |
| `BlockBuffers.DecodeBlock` | src/block_codec.cpp:188-286 | Sections go to the buffers that were passed and only if the bytes are accepted; otherwise no buffer changes |
| `BlockRecords.RecordsRoundTrip` | src/engine.cpp:1127-1141 | The rows cut back out of a block's columns are the rows the columns were filled from |
| `BlockRecords.StoredRecords` | src/engine.cpp:1151-1167 | A stored block decodes to exactly its rows, whatever its t_start and t_end say |
| `Bytes.FixedWidthRoundTrip` | src/block_codec.cpp:21-45 | Little-endian integers are read back as they were written |
| `Bytes.BEOrder` | src/storage_rocksdb.cpp:36-56 | Big-endian bytes compare as the numbers do |
| `Formats.HeaderBytesAre` | src/block_codec.cpp:127-140 | The 40 header bytes, field by field at their offsets, little-endian, with magic 0x30425643 and version 1 |
| `Formats.FrontBytesAre` | src/block_codec.cpp:142-154 | Timestamp i is the little-endian number at 40 + 8i; the vector bytes start at 40 + 8 count |
| `Formats.BackBytesAre` | src/block_codec.cpp:156-173 | The scales follow the vectors, for INT8 only, and the payloads follow them |
| `Formats.LastBytesAre` | src/block_codec.cpp:175-179 | The last four bytes are the checksum of all others, little-endian |
| `Formats.OversizeMeans` | src/block_codec.cpp:230-234 | An accepted header is set apart if and only if its implied size does not fit in 64 bits |
| `Formats.BlockSizeIs` | src/block_codec.cpp:82-100 | The size of a block as a formula in count, dimension, element size and payload size |
| `Formats.HeaderFieldsAre` | src/block_codec.cpp:205-213 | What is read from a header, field by field at its offset |
| `Formats.AcceptedHeaderMeans` | src/block_codec.cpp:215-230 | Which header bytes are accepted, and the shape they give the block |
| `Formats.AcceptedBlobMeans` | src/engine.cpp:142-165 | Which metadata bytes are accepted, and what is read from them |
| `Formats.BlobBytesAre` | src/engine.cpp:118-138 | The 59 metadata bytes, field by field at their offsets, with magic 0x4D564543 and version 1 |
| `Formats.KeyBytesAre` | src/storage_rocksdb.cpp:36-85 | A block key is the id, the byte 1, and the block id most significant byte first; the range ends at the byte 2 |
| `Formats.ValidIdMeans` | src/engine.cpp:227-238 | An id is 1 to 256 bytes long and contains neither 0 nor 1 |
| `StorageKeys.KeyParts` | src/storage_rocksdb.cpp:61-70 | A key determines its sensor and its block: encode_key is injective across sensors |
| `StorageKeys.KeyOfParts` | src/storage_rocksdb.cpp:373-376 | A block key is rebuilt from the prefix before its first separator and its last eight bytes |
| `StorageKeys.SameSensorOrder` | src/storage_rocksdb.cpp:27-30 | Within a sensor, key order is the numeric order of the ids as unsigned numbers, so of all non-negative ids |
| `StorageKeys.AcrossSensorsOrder` | src/storage_rocksdb.cpp:72-82 | Between sensors, key order is the order of the sensor ids, prefixes included |
| `StorageKeys.PrefixRange` | src/storage_rocksdb.cpp:72-92 | [p+01, p+02) holds exactly the strings that start with p+01 |
| `StorageKeys.RangeIsOneSensor` | src/storage_rocksdb.cpp:72-92 | The deletion range of a sensor meets exactly that sensor's keys, whatever bytes the block ids hold |
| `SortedDb.PutWf` | src/storage_rocksdb.cpp:251 | Put keeps the keys in strict order |
| `SortedDb.DeleteRangeWf` | src/storage_rocksdb.cpp:410-411 | DeleteRange removes one slice of the keys and keeps the rest in strict order |
| `ColdTier.PutRefines` | src/storage_rocksdb.cpp:223-252 | Writing a block is one map update in one sensor; every other sensor and the metadata stay as they are |
| `ColdTier.DeleteRefines` | src/storage_rocksdb.cpp:394-413 | Deleting a sensor empties it; every other sensor and the metadata stay as they are |
| `ColdTier.MetaRefines` | src/storage_rocksdb.cpp:447-455 | Writing the metadata touches no sensor's blocks |
| `ColdTier.NextSensor` | src/storage_rocksdb.cpp:369-382 | A prefix that differs from the last one emitted is above every one emitted before |
| `RocksBackend.Backend.Encode` | src/storage_rocksdb.cpp:227-237 | The grow-only scratch yields exactly the block's image |
| `RocksBackend.Backend.WriteBlock` | src/storage_rocksdb.cpp:223-252 | The store gains the block's image under its key, or nothing changes; the return code says which |
| `RocksBackend.Backend.ReadBlock` | src/storage_rocksdb.cpp:258-309 | The caller's buffers receive the stored block's sections, or an error and no change |
| `RocksBackend.WrittenIsRead` | src/storage_rocksdb.cpp:223-309 | A block that was written reads back as what was written |
| `RocksBackend.CorruptionMeans` | src/storage_rocksdb.cpp:268-292 | A read fails as corruption if and only if the stored bytes have a bad header, are too short for it, or fail their checksum |
| `RocksBackend.Backend.ListBlocks` | src/storage_rocksdb.cpp:315-349 | Exactly the sensor's block ids, each once, ascending as unsigned numbers |
| `RocksBackend.Backend.ListSensors` | src/storage_rocksdb.cpp:355-388 | Exactly the sensors that have blocks, each once, in strictly ascending order, with only the last prefix remembered |
| `RocksBackend.Backend.DeleteSensor` | src/storage_rocksdb.cpp:394-413 | Removes the keys of the sensor's range and no other, or nothing |
| `RocksBackend.Backend.WriteMetadata` | src/storage_rocksdb.cpp:447-455 | Replaces the metadata slot and nothing else |
| `RocksBackend.Backend.ReadMetadata` | src/storage_rocksdb.cpp:457-471 | The stored blob, or NOT_FOUND and an empty one |
| `Metadata.ValidationIsExact` | src/engine.cpp:200-223 | Accepts exactly the configurations whose defaulted form is usable; a usable configuration is left as it is, so validation is idempotent |
| `Metadata.AcceptedMeans` | src/engine.cpp:200-223 | In plain numbers: which configurations are accepted, which defaults zero stands for, and which error a refused one gets |
| `Metadata.BlobRoundTrip` | src/engine.cpp:118-165 | The 59-byte blob gives back every persisted field and the uuid |
| `Metadata.ReblobIffReservedZero` | src/engine.cpp:142-165 | An accepted blob is reproduced byte for byte if and only if its reserved field was zero |
| `Metadata.SerializeMetadata` | src/engine.cpp:118-138 | The blob is written in place, all 59 bytes |
| `Lifecycle.FirstCreate` | src/engine.cpp:401-466 | The first successful Create on an empty path establishes its schema and identity, and runs with and persists the defaulted configuration it was given |
| `Lifecycle.StepKeeps` | src/engine.cpp:314-462 | Every call, whatever its I/O does, keeps the path's schema and identity |
| `Lifecycle.StepFrame` | src/engine.cpp:314-541 | What a call may change in the store: Open, Close and registering nothing, Create the metadata only, a drop and a write the blocks of their own sensor only, and what those become |
| `Lifecycle.SchemaNeverChanges` | src/engine.cpp:416-462 | From the first Create on, over any run: stored uuid, dim, dtype, metric, payload size and ring capacity never change, every engine has them, and every stored block has that schema |
| `Lifecycle.CreateSucceedsIff` | src/engine.cpp:430-462 | Create succeeds exactly on a valid configuration with the path's schema and working I/O; then it runs with, and persists, the caller's window, interval and recovery flag under the path's identity and touches no other key; a refused one writes nothing |
| `Lifecycle.OpenRecovers` | src/engine.cpp:326-350 | Open is refused for I/O reasons only, changes nothing, and runs with exactly the last persisted configuration and uuid |
| `Lifecycle.OpenWithoutMetadata` | src/engine.cpp:314-350 | On a path without metadata Open runs with dimension 128, the default capacity, window and interval, and the identity it was given |
| `Lifecycle.IdsStayDense` | src/engine.cpp:370-377 | Over any run of careful calls (evictions, failed writes, reopens, drops that delete or have nothing to delete, Creates that are refused or find no blocks), each sensor's stored ids are exactly 0..next_block_id-1 |
| `Lifecycle.StepNumbered` | src/engine.cpp:401-541 | A call on a path numbered like that keeps the numbering if and only if it is a careful one: an admitted Create finds no blocks of any sensor, a drop deletes or has nothing to delete |
| `Lifecycle.EmptyPathIsNumbered` | src/engine.cpp:401-466 | Such runs may start from an empty path |
| `Lifecycle.WritesAreFresh` | src/engine.cpp:1153-1169 | So no write of such a run replaces a block |
| `Lifecycle.CreateReusesIds` | src/engine.cpp:401-466 | After a Create, a sensor's first write goes to id 0, and that is a fresh key if and only if the sensor had no blocks |
| `Lifecycle.SecondCreateLosesBlock` | src/engine.cpp:401-466 | A run from an empty path in which a second Create loses the first engine's only block |
| `Lifecycle.FailedDropReusesIds` | src/engine.cpp:511-541 | After a drop whose deletion failed, the sensor's first write goes to id 0, and that is a fresh key if and only if there was nothing to delete |
| `LifecycleEngine.CreateEngine` | src/engine.cpp:401-466 | The imperative Create takes exactly the Create step |
| `LifecycleEngine.ResumeIds` | src/engine.cpp:369-385 | The loop of Open resumes every stored sensor after its last listed id and no other sensor |
| `LifecycleEngine.OpenEngine` | src/engine.cpp:314-389 | The imperative Open takes exactly the Open step |
| `LifecycleEngine.Instance.DropSensor` | src/engine.cpp:511-541 | The imperative drop takes exactly the Drop step, ignoring whether the deletion succeeded |
| `LifecycleEngine.Instance.RegisterSensor` | src/engine.cpp:1364-1369 | A new sensor's slot takes exactly the Register step |
| `LifecycleEngine.EvictionIsWrite` | src/engine.cpp:1056-1193 | An imperative eviction pass that removes rows takes exactly the Write step for those rows |
| `Rehydration.InstalledIff` | src/engine.cpp:1241-1317 | A ring is installed if and only if no block has an I/O error or a t_end before the cutoff and everything eligible fits; it then holds exactly the eligible entries, newest block first, in stored order within a block |
| `Rehydration.EligibleIsInWindow` | src/engine.cpp:1283 | The entries kept of a block are exactly those at or after the cutoff, each as often as it is stored |
| `Rehydration.StaleBlockDiscardsAll` | src/engine.cpp:1250 | One block with a t_end before the cutoff discards every newer block too |
| `Rehydration.DamagedBlockIsSkipped` | src/engine.cpp:1244-1247 | A stored block hit by a burst of at most 32 bits that leaves its layout alone costs recovery that block and no other |
| `RecoveredNorms.NormFromBytesIsNorm` | src/engine.cpp:1292-1303 | The norm recomputed for an INT8 row is the norm of the vector its bytes and scale stand for |
| `RecoveredNorms.RecoveredNormIsNear` | src/engine.cpp:1292-1303 | It differs from the norm of the vector that was appended by at most sqrt(dim) * scale / 2 |
| `Rehydrate.LeftoverStampAbandons` | src/engine.cpp:1159 | A t_end left over from an earlier, larger pass makes recovery give up at a block whose every entry is in the window |
| `Rehydrate.ReplayRows` | src/engine.cpp:1282-1314 | The entries of one block inside the window go into the ring, each with its recomputed norm, or the loop stops because they do not fit |
| `Rehydrate.ReplayStored` | src/engine.cpp:1244-1314 | One block of the replay: skipped, replayed or given up at, as its two reads decide |
| `Rehydrate.RehydrateSensorRing` | src/engine.cpp:1212-1318 | The slot gets the filled ring, each entry with the norm recomputed from its row and nothing overwritten, exactly when the replay reaches its end; otherwise it is left as it was |
| `TopK.PushHeap` | src/engine.cpp:699-701 | The heap gains the element |
| `TopK.PopHeap` | src/engine.cpp:706 | The worst element moves to the back and the rest is a heap again |
| `TopK.FrontIsWorst` | src/engine.cpp:687-693 | The front of the heap is no better than any element of it |
| `TopK.SelectBest` | src/engine.cpp:697-711 | The loop keeps the best of what it has seen: nothing left out is strictly better than anything kept |
| `TopK.SortBestFirst` | src/engine.cpp:713-716 | The survivors, best first |
| `TopK.Best` | src/engine.cpp:683-716 | An exact answer: distinct entries with their own scores; for cosine the scores fall and none omitted is greater, for distance they rise and none omitted is smaller |
| `TopK.ScoresDetermined` | src/engine.cpp:683-716 | Any two exact answers have the same scores in the same places, so ties aside the answer is determined |
| `Query.QueryNearestN` | src/engine.cpp:632-731 | min(n, N) distinct window entries with matching timestamps and scores; cosine scores fall and none omitted is greater, distances rise and none omitted is smaller; the partial-result warning if and only if N < n |
| `FloatQuery.QueryNearest` | src/engine.cpp:632-731 | On a ring of floats with exact norms: the reported entries are the nearest ones, nearest first, with their true squared distances |
| `FloatQuery.QueryMostSimilar` | src/engine.cpp:632-731 | By cosine: the most similar ones, most similar first, and every score is a cosine in [-1, 1] |
| `Query.SplitSlots` | src/engine.cpp:1392-1398 | Where the i-th of consecutive indices lands in the arrays |
| `Query.FillScoresForRange` | src/engine.cpp:1382-1448 | For every start and every length up to the capacity, the two runs score logical index begin + i into output i as the per-index form does |
| `Query.QueryRange` | src/engine.cpp:733-781 | The first max in-range entries of the window in insertion order, and the code of Query.RangeCode: the warning if and only if t_start is below the oldest entry up to the max-th hit |
| `Query.Scan` | src/engine.cpp:757-767 | The scan stops exactly behind the max-th hit or at the end, and has then delivered the in-range entries of what it scanned |
| `Query.InRangeIs` | src/engine.cpp:764-767 | What a range query looks for: every entry with t_start <= ts <= t_end, in insertion order, and no other |
| `Query.RangeCodes` | src/engine.cpp:745-779 | INVALID_ARG exactly for an empty range; the warning exactly when every entry scanned is after t_start; OK otherwise |
| `Query.ScanIsFirst` | src/engine.cpp:759-767 | What a scan delivers is the first max in-range entries of the whole window |
| `Query.ScanEndIs` | src/engine.cpp:759 | The scan ends at the one position where the output is full or the window over, and was not full one entry before |
| `Query.WarningIsDocumentedIff` | src/engine.cpp:771-779 | The code's warning is the documented one if and only if not: the window has max hits, every entry up to the max-th is after t_start, and one behind it is not |
| `Query.WarningIsNeverMissed` | src/engine.cpp:771-779 | Whenever the documentation warns, the code does |
| `Query.InOrderWarning` | src/engine.cpp:771-779 | With non-decreasing timestamps, or fewer than max hits, the warning is the documented one |
| `Query.SpuriousWarning` | src/engine.cpp:771-779 | A window and arguments for which the query returns the warning and the documentation has none |
| `Query.WindowIsTwoRuns` | src/engine.cpp:816-837 | A window is one run to the end of the arrays followed by one from the front, each entry once |
| `Query.WindowMean` | src/engine.cpp:806-838 | Each live entry enters the mean exactly once, however the window wraps |
| `Anomaly.DetectAnomaly` | src/engine.cpp:783-867 | Anomalous if and only if the distance from the window mean exceeds the threshold; never on an empty window |
| `Kernels.CauchySchwarz` | src/kernels.cpp:57-66 | Cauchy-Schwarz, by induction on the dimension |
| `Kernels.NormIdentity` | src/kernels.cpp:99-101 | ||a - b||^2 = ||a||^2 + ||b||^2 - 2 a.b |
| `Kernels.FastIsDirect` | src/kernels.cpp:99-105 | With exact norms the fast form is the direct distance and its clamp never changes a value |
| `Kernels.CosineInRange` | src/kernels.cpp:61-68 | With exact norms a cosine score lies in [-1, 1] |
| `Kernels.CosineOfSelf` | src/kernels.cpp:61-68 | A vector has cosine 1 with itself unless it is zero; then 0 |
| `Kernels.CosineF32Chunk` | src/kernels.cpp:34-69 | Each row gets its dot product over the product of the norms, 0 where a norm is zero; the rest of the buffer is untouched |
| `Kernels.EuclideanSqF32Chunk` | src/kernels.cpp:75-106 | Each row gets the clamped norm identity; the rest of the buffer is untouched |
| `Kernels.ClampNeverHurts` | src/kernels.cpp:99-105 | With norms that are off, the clamp changes negative values only and brings them nearer to the true squared distance |
| `Kernels.FastChunkIsDirect` | src/kernels.cpp:75-106 | So with exact norms each row of the fast chunk is its direct squared distance |
| `Kernels.EuclideanSqF32ChunkDirect` | src/kernels.cpp:216-236 | Each row gets its squared distance, term by term |
| `Kernels.AnomalyDistanceMeans` | src/engine.cpp:840-858 | The cosine anomaly distance lies in [0, 2]; the Euclidean one squares to the squared distance |
| `Kernels.CosineOfMultiple` | src/kernels.cpp:61-68 | A nonzero vector and a multiple of it have cosine 1 or -1, by the sign of the factor |
| `Kernels.AnomalyDistanceOfMultiple` | src/engine.cpp:840-858 | The cosine anomaly distance is 0 for a positive multiple of the mean, 2 for a negative one, and 1 when the mean is zero |
| `Int8Kernels.QuantizeOneIsNear` | src/kernels.cpp:134-145 | A component is off by at most scale/2, fits [-127, 127], and the clamp never acts |
| `Int8Kernels.LroundTies` | src/kernels.cpp:134-145 | Rounding sends ties away from zero |
| `Int8Kernels.QuantizeF32ToI8` | src/kernels.cpp:117-147 | The output represents the input with scale max_abs / 127, each component within scale/2; a zero vector gives zeros and scale 0 |
| `Int8Kernels.DotI8` | src/kernels.cpp:149-160 | The 32-bit accumulator holds the exact dot product, no partial sum overflowing |
| `Int8Kernels.AccumulatorFitsIff` | src/kernels.cpp:149-150 | The accumulator fits for all byte vectors of a dimension if and only if it is at most 131071 |
| `Int8Kernels.DotError` | src/kernels.cpp:182-184 | The reconstructed dot product is off by at most 127 * dim * s_a * s_b |
| `Int8Kernels.ScoreError` | src/kernels.cpp:198-209 | An INT8 distance score is within 254 * dim * s * s_q of the true squared distance, clamp included |
| `Int8Kernels.NearestIsNearOptimal` | src/kernels.cpp:189-210 | The row an INT8 query ranks first is within the two rows' error bounds of every other row's true distance |
| `Int8Kernels.CosineError` | src/kernels.cpp:171-186 | An INT8 cosine score is within 127 * dim * s * s_q over the norms' product of the cosine |
| `Int8Query.AppendQuantized` | src/engine.cpp:562-568 | An INT8 append stores its timestamp, a faithful quantization of its vector, and its payload, or the overwritten entry's when it has none |
| `Int8Query.BestIsNearlyNearest` | src/engine.cpp:664-731 | The first answer over a window of faithful quantizations is within the two entries' error bounds of every other entry's true distance |
| `Int8Query.QueryNearestI8` | src/engine.cpp:632-731 | From quantized appends to the first reported timestamp: min(n, N) scores in rising order, and first an entry that no other one beats by more than the two error bounds |
| `Int8Query.NearestInChunk` | src/kernels.cpp:189-210 | The row with the least score in the buffer the INT8 kernel fills is within the two rows' error bounds of every other row |
| `Int8Kernels.EuclideanSqI8Chunk` | src/kernels.cpp:189-210 | Each row gets its clamped score from the exact integer dot product |
| `Int8Kernels.CosineI8Chunk` | src/kernels.cpp:162-187 | Each row gets its normalized score, 0 for a zero norm or scale |

## Left out

- SensorLog.WritesHitFreshKeys: block ids stay below 2^63 - 1; the wrap of the counter is not modelled.
- BlockCodec.DecodeImage: block sizes are exact integers; a header whose size would not fit 64 bits is a result of its own (`Oversize`), where the code would wrap around.
- RingProtocol.NoSilentLoss: steps are sequentially consistent and one cell at a time; memory orders and torn machine words are not modelled. Head and tail are unbounded.
- SensorRing.SensorRing.Append: a vector row is stored in one step; half-written rows are in `RingProtocol`.
- Evictor.Engine.EvictSensor: for a slot that has a ring; without one the source returns at once.
- EvictionPass.PassIsEachSensors: the loop over the sensor map is modelled on values; `Evictor.Engine.EvictSensor` is its body in place.
- Eviction.CutIsLongestPrefix: max_ts - window is taken without 64-bit underflow.
- Lifecycle.OpenRecovers: one read outcome for a whole Open; a listing that fails after the metadata was read is not told apart.
- LifecycleEngine.OpenEngine: rehydration is `Rehydrate.RehydrateSensorRing`, not called from it.
- Rehydrate.RehydrateSensorRing: the read buffers are allocated per block instead of grown, and the norm of a recovered row is a parameter, which `RecoveredNorms` gives for INT8.
- Query.QueryNearestN: the row score is a parameter over stored rows; `FloatQuery` and `Int8Query` instantiate it. The thread-local score buffer is allocated per query.
- Kernels.CosineInRange: real arithmetic; IEEE rounding, NaN and SIMD evaluation order are not modelled.
- RocksDB internals, write-ahead log, durability of Flush and Close, and status mapping: the store is an ordered map whose operations succeed or have no effect.
- NullStorageBackend, and Open on a path without metadata followed by writes: engines without a created path.
- QueryRange and DetectAnomaly on INT8 rings: the code reads INT8 rows as floats there, so there is nothing to state.
- Argument checks that return at once (closed engine, dimension, null pointers), max_sensors, statistics, metrics callbacks, latency fields.
- Threads, condition variables and locks as such; drops that race with appends or evictions.
- Allocation failure, alignment, prefetching, the debug producer check, uuid generation, the C wrapper, command line, examples and benchmarks.
