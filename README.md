# vanilla-extract core, modelled in Dafny

vanilla-extract ("vex") loads an OpenStreetMap PBF file into a database and
extracts rectangular regions of it again as PBF. This project models the
parts of it that decide what gets read, kept and written:

- **IdTracker** (`idtracker.c`): a bitset of node ids, one bit per id below
  2^32, used to remember which nodes the loaded ways refer to. It is a class
  over the static `bins` array. `Set` and `Get` are proved against the set of
  recorded ids.
- **HashMap** (`map.c`): a chained hash table from 64-bit keys to 32-bit
  values with FNV-1a hashing. Its head elements live in an array and its
  overflow elements are linked. The class keeps the heap shape, and each
  bucket is specified by a pure sequence of entries.
- **SlabAlloc** (`slab.c`): the bump allocator protobuf-c decodes into, as
  a class over the three static pointers.
- **Osm**, **PbfRead** (`pbf-read.c`): the framing of fileblocks, the
  blob checks, the phase ordering of nodes, ways and relations, the
  fast-forward/rewind seek, and dense-node decoding. The reader is a class
  over the static cursor, and the callbacks are recorded as events.
- **PbfWrite** (`pbf-write.c`): the buffered writer. It keeps blocks of
  8000 elements, delta codes the refs and members that end with a negated
  id, sub-allocates `kv_buff`, and writes the fileblocks.
- **Vex**, **VexLoad**, **VexMain** (`vex.c`):
  - database paths;
  - spatial bins;
  - the compact tag record of `write_tags`;
  - the way filter and way records of the load pass, with the marking of
    node refs;
  - the command line of `main`.
- **Varint**, **Delta**: protobuf varints and ZigZag, and delta coding with
  running sums, which the modules above share.
- **VexServer** (`vexserver.js`): the HTTP query validator and the command
  line it starts `vex` with.

Every step of the C program ends one of three ways, and `Status<T>` says
which:
- it returns a value (`Ok`);
- it terminates through `exit`/`die` with a status (`Exit`);
- it touches memory outside the object it addresses (`Fault`).

Calls into protobuf-c, zlib, `encode_tag`, `strtod` and JavaScript's
`Number` are parameters, and so is whatever `malloc` returns.

## Model

| member | source | states |
|---|---|---|
| Common.BigEndian32RoundTrip | pbf-read.c:385 | `ntohl` of the four bytes written by `htonl` gives back the length, whatever follows |
| Common.NaNComparesFalse | vex.c:344-353 | every ordering comparison with NaN is false |
| Common.LessTotal | vex.c:580-581 | on non-NaN doubles exactly one of `a < b` and `b <= a` holds |
| Delta.RunningSumsOfDeltas | pbf-write.c:310-316 | summing the stored differences gives back the original ids |
| Delta.DeltasOfRunningSums | pbf-read.c:257-261 | differencing the running sums gives back the deltas |
| Delta.DeltasSnoc | pbf-write.c:311-315 | coding one more id appends its difference from the previous one |
| Delta.RunningSumsAt | pbf-read.c:259-261 | entry `i` of the running sums is the start plus the first `i + 1` deltas |
| Delta.SumScaled | pbf-read.c:260-261 | summing deltas scaled by the granularity is the granularity times their sum |
| Varint.Encode | vex.c:134 | every byte but the last has its continuation bit set, and the last does not |
| Varint.DecodeEncode | vex.c:119 | a varint reads back as the value written and takes exactly its own bytes, whatever follows |
| Varint.EncodeSize | vex.c:134 | a value below 128^k takes at most k bytes |
| Varint.EncodeU64Size | vex.c:118-123 | the `uint64_pack` length prefix of `bd_write` takes between 1 and 10 bytes for every 64-bit length |
| Varint.ZigZag | vex.c:271 | ZigZag maps non-negative values to even codes and negative values to odd codes |
| Varint.UnZigZagZigZag | vex.c:271 | ZigZag decoding undoes encoding |
| Varint.ZigZagUnZigZag | vex.c:271 | ZigZag encoding undoes decoding, so the code is a bijection onto the naturals |
| Varint.ZigZagRange | vex.c:271 | ZigZag takes the signed 64-bit range into the unsigned one |
| Varint.DecodeEncodeSigned | vex.c:271 | a `sint64_pack` value reads back exactly, with its length |
| IdTracker.BinIndex | idtracker.c:35 | the word of `id` is inside `bins` exactly when `id < 2^32`, and it covers `id` |
| IdTracker.BitOfOr | idtracker.c:38-40 | or-ing in the flag of bit `k` sets bit `k` and leaves every other bit as it was |
| IdTracker.WithBitIdempotent | idtracker.c:40 | setting a bit that is already set leaves the word unchanged |
| IdTracker.SameWordBitIndex | idtracker.c:35-36 | two ids in one word share a bit exactly when they are equal |
| IdTracker.Tracker.constructor | idtracker.c:28 | the zeroed static array records no id |
| IdTracker.Tracker.Reset | idtracker.c:30-32 | after the reset no id is recorded |
| IdTracker.Tracker.Set | idtracker.c:34-42 | test-and-set: ids from 2^32 exit with −12 and change nothing; otherwise the result is whether the id was already recorded, the recorded set gains exactly that id, only its word changes, and setting it again changes nothing |
| IdTracker.Tracker.Get | idtracker.c:44-50 | ids from 2^32 exit with −12; otherwise the result is whether the id is recorded |
| IdTracker.Int32Wrap | idtracker.c:35 | the conversion to `int` lands in the 32-bit range and agrees with the value modulo 2^32 |
| IdTracker.CheckIntended | idtracker.c:35-37 | the intended range test rejects exactly the ids from 2^32, and otherwise names the word that covers the id |
| IdTracker.CheckAsWrittenAdmitsLargeIds | idtracker.c:35-37 | the truncated test lets 2^38 through as word 0, bit 0, the slot of id 0, and gives 2^37 a negative word |
| HashMap.HashCodeOfZero | map.c:93-108 | `hash_code` is FNV-1a: four zero bytes hash to the published value 0x4b95f515 |
| HashMap.HashCodeByteOrder | map.c:97-106 | the key's lowest byte is hashed first |
| HashMap.BucketOf | map.c:111 | the bucket index is below the table size |
| HashMap.HighBitsShareBucket | map.c:95 | keys that differ only above bit 32 fall into the same bucket, because `hash_code` takes a `uint32_t` |
| HashMap.Find | map.c:113-116 | the scan stops at the first element holding the key, and finds none exactly when no element holds it |
| HashMap.EmptyBucketLookups | map.c:31-37 | a fresh bucket yields `VAL_NONE` for every key and holds no key but the sentinel |
| HashMap.SentinelReported | map.c:110-118 | while a bucket's head is unused, `Map_contains_key(KEY_NONE)` reports the sentinel as present |
| HashMap.PutWellFormed | map.c:130-149 | a put keeps the bucket well formed: a head, no chain behind an unused head, no key twice |
| HashMap.GetAfterPut | map.c:130-149 | after a put, get returns the value put, and contains-key holds |
| HashMap.PutKeepsOtherKeys | map.c:130-149 | a put changes neither the value nor the presence of any other key except the sentinel |
| HashMap.PutOverwritesInPlace | map.c:135-138 | putting a present key overwrites its element and allocates nothing |
| HashMap.PutAppendsNewKey | map.c:140-148 | a new key behind a used head is appended at the tail of the chain |
| HashMap.HashedAfterPut | map.c:130-131 | a put into a key's own bucket keeps every key of the bucket in the bucket its hash selects |
| HashMap.Map.constructor | map.c:49-55 | a new table has `size` buckets, each with an unused head that ends its chain |
| HashMap.Map.Init | map.c:31-37 | every head is `KEY_NONE`/`VAL_NONE` and ends its chain |
| HashMap.Map.ContainsKey | map.c:110-118 | the result is whether the key's bucket holds the key |
| HashMap.Map.Get | map.c:120-128 | the result is the value of the key in its bucket, or `VAL_NONE` |
| HashMap.Map.Put | map.c:130-149 | only the key's bucket changes, as the bucket put says; get-after-put, and other keys keep their values |
| HashMap.Map.Walk | map.c:133-142 | the walk stops at the first element holding the key, or at the tail when no element holds it |
| HashMap.Map.PutInBucket | map.c:133-148 | the chosen bucket changes as the bucket put says, and the heap shape is kept |
| HashMap.Map.Overwrite | map.c:137 | the element holding the key gets the new value; nothing else changes |
| HashMap.Map.Append | map.c:143-148 | a fresh element holding the pair is linked after the tail and ends the chain |
| HashMap.Map.FillHead | map.c:146-148 | an unused head takes the pair and ends the chain |
| HashMap.Map.FreeLists | map.c:43-47 | exactly the overflow elements are released; the heads stay and still point at them |
| HashMap.Map.ReleaseOverflow | map.c:44-46 | the loop over the buckets releases the overflow elements of every bucket |
| HashMap.Map.FreeChain | map.c:45 | one bucket's pass releases exactly the elements behind its head |
| HashMap.FreeList | map.c:20-26 | `free_list` releases the element it is given and every element after it |
| HashMap.Map.Destroy | map.c:57-62 | what is released is exactly what the map owned: the overflow elements `Map_free_lists` frees and the heads of the table; nothing stays owned, and the caller's handle is NULL |
| HashMap.Map.OwnedSplits | map.c:57-62 | the map owns exactly its heads and the elements behind them |
| HashMap.Map.FreeingKeepsHeads | map.c:43-47 | after `Map_free_lists` an element of a chain is still owned exactly when it is a head |
| HashMap.OverflowExactly | map.c:43-47 | the released set is exactly the elements behind the heads |
| HashMap.OverflowBehindHeads | map.c:44-46 | every element released from the first `n` buckets lies behind one of their heads |
| HashMap.OverflowCovers | map.c:44-46 | every element behind a head of the first `n` buckets is released |
| SlabAlloc.InitStep | slab.c:20-28 | `slab_init` exits exactly when `slab` is already set; otherwise `next` is the block's start and `limit` its end |
| SlabAlloc.ResetStep | slab.c:31-33 | `slab_reset` moves `next` back to the start and changes nothing else |
| SlabAlloc.DoneStep | slab.c:36-38 | `slab_done` releases the memory but leaves `slab` set |
| SlabAlloc.DoneStepFixed | slab.c:36-38 | the intended `slab_done` also clears `slab` |
| SlabAlloc.AllocStep | slab.c:44-51 | `NULL` once `next >= limit`, else the old `next`, with `next` bumped by the size |
| SlabAlloc.AllocNullIff | slab.c:45-47 | on a set-up slab, allocation answers `NULL` exactly when `next` has reached `limit`, and the slab stays set up |
| SlabAlloc.AllocOverrunsLimit | slab.c:45-49 | the last block handed out can reach past `limit`, because only `next` is compared |
| SlabAlloc.AllocAfterReset | slab.c:31-33 | after a reset the next allocation returns the start of the slab |
| SlabAlloc.AllocRunDisjoint | slab.c:44-51 | between resets the blocks handed out do not overlap, and they come in increasing order |
| SlabAlloc.InitAfterDoneExits | slab.c:20-38 | `slab_init` after `slab_done` exits with `EXIT_FAILURE` |
| SlabAlloc.InitAfterFixedDoneSucceeds | slab.c:20-28 | with the intended `slab_done`, the slab can be set up again |
| SlabAlloc.Slab.constructor | slab.c:14-16 | the static pointers start out `NULL` |
| SlabAlloc.Slab.Init | slab.c:20-28 | the pointers change as `InitStep` says, or the call exits and nothing changes |
| SlabAlloc.Slab.Reset | slab.c:31-33 | the pointers change as `ResetStep` says |
| SlabAlloc.Slab.Done | slab.c:36-38 | the pointers change as `DoneStep` says |
| SlabAlloc.Slab.Alloc | slab.c:44-51 | the address and the pointers are as `AllocStep` says |
| SlabAlloc.Slab.Free | slab.c:54 | freeing one block changes nothing |
| Osm.Fileblock | pbf-write.c:86-90 | a fileblock is the four-byte length, the header and the blob |
| Osm.ReadFrame | pbf-read.c:383-397 | the next fileblock starts after the current position and inside the file; a header that does not unpack exits with `EXIT_FAILURE` |
| Osm.ReadFrameChecked | pbf-read.c:393-395 | the intended check passes only frames with a blob, agrees with the as-written step on them, and exits where no blob unpacked |
| Osm.ReadFrameAdmitsMissingBlob | pbf-read.c:393-395 | a blob that does not unpack gets through the as-written check, and the intended check exits |
| Osm.ReadFrameOfFileblock | pbf-read.c:383-397 | a fileblock laid out by the writer is read back with the same header and blob, and the next fileblock starts right after it |
| PbfRead.DetectElementType | pbf-read.c:103-122 | a group passes exactly when it holds one kind of element, and the result names that kind |
| PbfRead.NoCallbackForPhase | pbf-read.c:127-131 | true exactly in a phase whose callback is `NULL` |
| PbfRead.NoMoreCallbacks | pbf-read.c:133-148 | true exactly when no callback is left for this phase or any later one |
| PbfRead.OrderingMonotone | pbf-read.c:152-165 | an earlier element type exits; a later one raises the phase and reports a transition; the current one changes nothing |
| PbfRead.Rewound | pbf-read.c:175-187 | a rewind is allowed only while fast-forwarding, and restores the marked block, position and phase in slow-seek mode |
| PbfRead.MarkOnlyWhenSkipping | pbf-read.c:214-224 | the mark moves only in a phase without a callback and outside slow seek; it then records the current block, and fast-forward is on |
| PbfRead.ProcessOnlyWithCallback | pbf-read.c:214-226 | elements reach the callbacks only in a phase whose callback is set |
| PbfRead.TransitionWhileFastForwardRewinds | pbf-read.c:204-209 | a phase transition met while fast-forwarding rewinds to the mark |
| PbfRead.DenseTags | pbf-read.c:268-283 | at most 256 tags are kept, and the kept ones are copied in order; an index outside the string table faults |
| PbfRead.DenseTagsKeysNonEmpty | pbf-read.c:270 | every key kept names a non-empty string |
| PbfRead.NodeTags | pbf-read.c:266-283 | keys and values come in pairs, at most 256, and the read position moves past the terminator |
| PbfRead.DenseFrom | pbf-read.c:257-286 | one node is decoded per id delta |
| PbfRead.DenseFromIds | pbf-read.c:257-262 | node ids are the running sums of the id deltas (over unbounded integers; `int64_t` overflow is not modelled) |
| PbfRead.DenseFromCoordinates | pbf-read.c:255-264 | coordinates are the running sums of the deltas scaled by the granularity, from the block offsets (over unbounded integers; `int64_t` overflow is not modelled) |
| PbfRead.DenseDecodesRunningSums | pbf-read.c:242-287 | node `i` has id Σ id[0..i] and latitude `lat_offset + granularity·Σ lat[0..i]`, and likewise for longitude (over unbounded integers; `int64_t` overflow is not modelled) |
| PbfRead.DenseFromTags | pbf-read.c:266-283 | every dense node's tags are well formed: as many values as keys, at most 256, non-empty keys |
| PbfRead.Payload | pbf-read.c:313-326 | zlib data must inflate to exactly the recorded raw size; raw bytes pass as they are; a blob with neither exits |
| PbfRead.FastForwardSkips | pbf-read.c:304-306 | while fast-forwarding, only every 1000th block is inflated and decoded |
| PbfRead.BlobTypeChecked | pbf-read.c:313-346 | block 0 must be "OSMHeader", later blocks "OSMData"; a size mismatch exits |
| PbfRead.GroupStepProgress | pbf-read.c:202-225 | a group's checks keep the cursor invariant, and either leave the position alone or switch from fast-forward to slow seek at the mark |
| PbfRead.BlockFromProgress | pbf-read.c:202-296 | the same holds for a whole primitive block |
| PbfRead.FileblockStepProgress | pbf-read.c:378-414 | each turn of the loop moves forward by 4 + header length + datasize, and counts the block, or else switches to slow seek; so the loop ends |
| PbfRead.InBlockRewindMisnumbers | pbf-read.c:398-404 | after a rewind inside a block, the counter is one more than the number of the block at the cursor |
| PbfRead.FixedRewindKeepsNumbering | pbf-read.c:398-411 | with the intended step, after either kind of rewind the counter and the position agree with the mark |
| PbfRead.Reader.constructor | pbf-read.c:365-377 | reading starts at offset 0 in phase −1, neither fast-forwarding nor seeking slowly |
| PbfRead.Reader.EnforceOrdering | pbf-read.c:152-165 | the cursor and the result are as `Ordering` says |
| PbfRead.Reader.Rewind | pbf-read.c:175-187 | the cursor is as `Rewound` says, or the call exits |
| PbfRead.Reader.ReadTags | pbf-read.c:266-283 | the tag loop computes `NodeTags` |
| PbfRead.Reader.DecodeDense | pbf-read.c:242-287 | the dense loop computes `Dense`, and so the running sums (over unbounded integers; `int64_t` overflow is not modelled) |
| PbfRead.Reader.CheckGroup | pbf-read.c:204-225 | the group checks change the cursor as `GroupStep` says |
| PbfRead.Reader.EmitWays | pbf-read.c:229-234 | one way callback per way, in order, when the way callback is set |
| PbfRead.Reader.EmitNodes | pbf-read.c:235-241 | one node callback per plain node, with placed coordinates (over unbounded integers; `int64_t` overflow is not modelled) |
| PbfRead.Reader.EmitRelations | pbf-read.c:289-294 | one relation callback per relation, in order |
| PbfRead.Reader.Dispatch | pbf-read.c:229-294 | the callbacks of one group: ways, plain nodes, dense nodes, relations |
| PbfRead.Reader.HandleGroup | pbf-read.c:203-294 | one group's checks and callbacks, as `BlockFrom` says |
| PbfRead.Reader.HandlePrimitiveBlock | pbf-read.c:192-297 | the cursor, the result and the callbacks made are as `BlockFrom` says |
| PbfRead.Reader.ProcessPbfBlob | pbf-read.c:303-356 | the cursor, the result and the callbacks made are as `BlobStep` says |
| PbfRead.Reader.ReadFileblock | pbf-read.c:383-404 | one turn of the loop is as `FileblockStep` says, and the slab is reset |
| PbfRead.Reader.EndFileblock | pbf-read.c:404-413 | the block count moves on; reading stops when done or at the end, unless the end comes while fast-forwarding, which rewinds |
| PbfRead.Reader.Read | pbf-read.c:365-417 | a slab left set exits with `EXIT_FAILURE`; a finished read leaves the slab released but still set |
| PbfWrite.KvAllocStep | pbf-write.c:161-169 | `NULL` exactly when the chunk does not fit in `kv_buff`, else the old fill level, advanced by `n` |
| PbfWrite.KvChunksDisjoint | pbf-write.c:161-169 | two chunks handed out in turn lie inside the buffer and do not overlap |
| PbfWrite.LoadTagsStep | pbf-write.c:244-274 | keys and values are copied in order; a chunk that does not fit is written through `NULL` and faults |
| PbfWrite.SentinelLength | pbf-write.c:302-305 | the count runs up to and including the first negative id, and stops past the end when there is none |
| PbfWrite.DeltaCoded | pbf-write.c:310-316 | one delta per counted id; a list with no negative id faults |
| PbfWrite.DeltaCodedDecodes | pbf-write.c:310-316 | summing the stored deltas gives back the ids, the last with its sign dropped |
| PbfWrite.OneBlob | pbf-write.c:58-100 | a compression that fails or does not fit exits with −1; otherwise a fileblock is appended |
| PbfWrite.OneBlobReadsBack | pbf-write.c:58-100 | the reader takes back a fileblock of the given type whose blob inflates to the payload |
| PbfWrite.HeaderBlob | pbf-write.c:179-191 | the header blob fails only as `write_one_blob` does |
| PbfWrite.FreeOne | pbf-write.c:139 | `free` of `NULL` does nothing, of an allocated array releases it, and of anything else faults |
| PbfWrite.FreeRefs | pbf-write.c:137-140 | freeing the slots only releases arrays |
| PbfWrite.FreeRefsReleasesHeld | pbf-write.c:137-140 | freeing distinct allocated arrays releases exactly those arrays |
| PbfWrite.FreeRefsFaultStays | pbf-write.c:137-140 | once freeing a prefix of the slots faults, freeing any longer prefix faults |
| PbfWrite.DataBlock | pbf-write.c:197-224 | one block with one group, holding the element types asked for, and no offsets or granularity |
| PbfWrite.DataBlockElementType | pbf-write.c:194-224 | a block of one element type is read back as that type; a block of two makes the reader exit |
| PbfWrite.DataBlobStep | pbf-write.c:195-238 | the fileblock is appended, the blocks asked for are emptied, and `kv_buff` is emptied in every case |
| PbfWrite.DataBlobReadsBack | pbf-write.c:226-227 | the reader takes back an "OSMData" fileblock whose payload unpacks to the block |
| PbfWrite.FixedWayBlobFreesRefs | pbf-write.c:136-142 | with the intended bound, writing a way block releases exactly the refs arrays of its ways |
| PbfWrite.WayBlobLeaksRefs | pbf-write.c:136-142 | as written, a way block written while the node block is empty frees none of its refs arrays |
| PbfWrite.BeginStep | pbf-write.c:278-283 | the node and way counts restart, the relation count does not, and the header blob is the first fileblock |
| PbfWrite.BeginWritesHeader | pbf-write.c:179-191 | the first fileblock is "OSMHeader", and its payload unpacks to the VEX header block |
| PbfWrite.FlushStep | pbf-write.c:287-291 | nothing is written when every block is empty; otherwise all blocks are written and emptied |
| PbfWrite.CodedWay | pbf-write.c:302-328 | the way buffered has the delta-coded refs and the tags in order; refs with no negative entry fault |
| PbfWrite.WayStep | pbf-write.c:295-336 | the way is appended to the block, and the 8000th way writes the block out and empties it |
| PbfWrite.NodeStep | pbf-write.c:340-359 | the node is appended with its tags, and the 8000th node writes the block out |
| PbfWrite.CodedRelation | pbf-write.c:365-404 | the members up to the negated one: ids delta coded, roles and types in order |
| PbfWrite.RelationStep | pbf-write.c:362-412 | the relation is appended, and the 8000th relation writes the block out |
| PbfWrite.Writer.constructor | pbf-write.c:117-128 | the static state starts zeroed |
| PbfWrite.Writer.KvAlloc | pbf-write.c:161-169 | the chunk and the fill level are as `KvAllocStep` says |
| PbfWrite.Writer.KvFreeAll | pbf-write.c:172-174 | the fill level is 0 |
| PbfWrite.Writer.LoadTags | pbf-write.c:244-274 | the copied keys and values are as `LoadTagsStep` says |
| PbfWrite.Writer.CountToSentinel | pbf-write.c:302-305 | the counting loop computes `SentinelLength` |
| PbfWrite.Writer.DeltaCode | pbf-write.c:310-316 | the coding loop computes `DeltaCoded` |
| PbfWrite.Writer.CopyMembers | pbf-write.c:377-388 | the member loop delta codes the ids and copies roles and types, in order |
| PbfWrite.Writer.WriteOneBlob | pbf-write.c:58-100 | the output grows by `OneBlob`'s fileblock, or the call exits and nothing is written |
| PbfWrite.Writer.WriteHeaderBlob | pbf-write.c:179-191 | the output grows by the header fileblock |
| PbfWrite.Writer.ResetWayBlock | pbf-write.c:136-142 | the refs arrays of the first `node_block_count` slots are freed, and the way block is emptied |
| PbfWrite.Writer.WriteDataBlob | pbf-write.c:195-238 | the new state is as `DataBlobStep` says |
| PbfWrite.Writer.ResetAfterBlob | pbf-write.c:231-236 | the blocks asked for are reset, and `kv_buff` is emptied |
| PbfWrite.Writer.Begin | pbf-write.c:278-283 | the new state is as `BeginStep` says, and the writer invariant `Valid` is kept |
| PbfWrite.Writer.Flush | pbf-write.c:287-291 | the new state is as `FlushStep` says |
| PbfWrite.Writer.WriteWay | pbf-write.c:295-336 | the new state is as `WayStep` says, and the writer invariant holds |
| PbfWrite.Writer.WriteNode | pbf-write.c:340-359 | the new state is as `NodeStep` says |
| PbfWrite.Writer.WriteRelation | pbf-write.c:362-412 | the new state is as `RelationStep` says |
| Vex.Decimal | vex.c:63 | `%d` prints at least one character, and only decimal digits |
| Vex.DecimalLength | vex.c:63 | a number below 10^k prints in at most k digits |
| Vex.Padded3Length | vex.c:63 | `%03d` of an `int` takes at most 11 characters, and at most 10 when it is not negative |
| Vex.Directory | vex.c:57-59 | the directory is the path itself, or the path without one trailing '/' |
| Vex.DbPath | vex.c:49-66 | exits exactly when the unsigned length check fails or the path is empty; a path returned is under 512 characters and starts with directory/name |
| Vex.PathTextLength | vex.c:60-64 | the composed text is at most the directory, the name and 12 more characters |
| Vex.DbPathFixedFits | vex.c:49-66 | with the check in signed arithmetic every path let through fits, and a name is refused exactly when it cannot fit |
| Vex.DbPathAgreesOnShortDirectories | vex.c:50 | for directories of at most 500 characters, the unsigned check is the signed one |
| Vex.DbPathLongDirectoryOverflows | vex.c:50 | a 510-character directory makes the bound wrap, so "nodes" passes and `sprintf` writes past `path_buf` |
| Vex.PathBuffer.MakeDbPath | vex.c:49-66 | on success `path_buf` holds the path and a terminating NUL; otherwise the call exits or faults as `DbPath` says |
| Vex.Bin | vex.c:113-115 | the bin of a coordinate is below 2^14 |
| Vex.BinMonotone | vex.c:113-115 | coordinates of the same sign keep their order in bins |
| Vex.BinHalves | vex.c:113-115 | negative coordinates land in the upper half of the bins |
| Vex.BinCell | vex.c:113-115 | each bin covers 2^18 consecutive values of the unsigned reading |
| Vex.BdRoundTrip | vex.c:118-123 | a length-prefixed byte string reads back exactly, with its length |
| Vex.BdWrite | vex.c:118-123 | the copy loop writes the length varint and then the bytes |
| Vex.TagCode | vex.c:139-148 | tags with the five skipped keys are always coded 0 |
| Vex.CodeByteRoundTrip | vex.c:138-150 | the `int8_t` code survives being stored in a byte |
| Vex.ItemRoundTrip | vex.c:150-160 | every stored tag reads back as the same tag, with its length |
| Vex.FreetextRoundTrip | vex.c:151-156 | a free-text tag reads back as its key and value |
| Vex.KnownKeyRoundTrip | vex.c:157-159 | a known-key tag reads back as its code and value |
| Vex.TagsUpTo | vex.c:135-164 | as many stored tags as tags written; a stop is `die` with `EXIT_FAILURE` |
| Vex.TagsUpToItem | vex.c:135-160 | stored tag `i` is the key and value its indexes name, coded as `encode_tag` or the forced-free-text rule says |
| Vex.TagsUpToNoFault | vex.c:136-137 | only an index outside the string table or the value array faults |
| Vex.TagsUpToStops | vex.c:161-163 | once `write_tags` has stopped, later tags do not change how |
| Vex.TagRecord | vex.c:130-166 | no tags give the single count byte; a record returned with tags fits the limit |
| Vex.TagRecordCount | vex.c:133-134 | a record starts with the number of tags, and its tags fill the rest exactly |
| Vex.TagRecordBytes | vex.c:130-166 | a record is the count followed by the bytes of the tags |
| Vex.TagRecordItem | vex.c:135-164 | tag `t` reads back at the offset where the earlier tags end, as the key and value it was written from |
| Vex.ItemInRecord | vex.c:150-160 | each tag of a record reads back at its offset |
| Vex.WriteTag | vex.c:150-160 | one turn of the loop writes the code byte and what the code leaves spelled out |
| Vex.WriteTags | vex.c:130-166 | the loop computes `TagRecord`, including its exits and faults |
| Vex.TagsUpToExit | vex.c:161-163 | once the bytes pass the limit, `write_tags` dies with `EXIT_FAILURE` |
| Vex.TagsUpToFault | vex.c:136-137 | an index outside its array makes the whole record a fault |
| Vex.TagsUpToAll | vex.c:165 | with every tag written, the record is the count and the tags |
| Vex.WriteTagsStep | vex.c:150-163 | one turn extends the record by the tag's bytes, and the size check decides |
| VexLoad.AcceptFrom | vex.c:232-243 | the way is taken exactly when some tag matches before any bad index, and refused exactly when all indexes are good and no tag matches |
| VexLoad.AcceptWay | vex.c:232-243 | the loop computes `AcceptFrom` |
| VexLoad.AcceptExactFrom | vex.c:237-238 | the whole-string filter takes the way exactly when some tag's key is "highway" or its value "platform" |
| VexLoad.ExactMatchIsMatch | vex.c:237-238 | a whole-string match is a prefix match |
| VexLoad.AcceptExactImpliesAccept | vex.c:232-243 | every way the whole-string filter takes, the filter as written takes too |
| VexLoad.AcceptTakesPrefixes | vex.c:237-238 | a key "high" or an empty value is taken by the prefix test and refused by the whole-string one |
| VexLoad.RefsRoundTrip | vex.c:267-272 | the stored delta refs read back as the refs, and take exactly their own bytes |
| VexLoad.WayRecord | vex.c:258-276 | the record is the head followed by the tag record, and it fits `tempWay` when returned |
| VexLoad.WayRecordReadsBack | vex.c:258-276 | a stored way reads back as the ref count, the refs and the tag record |
| VexLoad.WayRecordFixedFits | vex.c:276 | with the limit reduced by the head, a stored way always fits, and only a bad index faults |
| VexLoad.OverflowTags | vex.c:161-163 | the two tags of the overflow example fit a limit of exactly `NODE_BUF_LEN`, and die under any smaller one |
| VexLoad.WayRecordOverflows | vex.c:276 | an accepted way whose tags fill `NODE_BUF_LEN` passes `write_tags`, so its record runs 3 bytes past `tempWay`; the corrected limit dies |
| VexLoad.MarksAreIds | vex.c:267-275 | for refs delta-coded from a list of ids, the ids marked are exactly those ids |
| VexLoad.MarkIsId | vex.c:273-274 | mark `r` is the `r`-th id |
| VexLoad.WriteRefs | vex.c:264-275 | the count and the refs are written, and the tracker gains exactly the running sums; an id from 2^32 exits with −12, with the earlier ids marked (the intended tracker check; as written only ids below 2^37 exit so) |
| VexLoad.RefStep | vex.c:268-275 | one pass grows the bytes, the running sum and the marks by ref `r` |
| VexLoad.Stored | vex.c:281-286 | a handler stores its record exactly when the record was made |
| VexLoad.HandleWay | vex.c:249-289 | a refused way or one with fewer than two refs changes nothing; otherwise the refs are marked and the record is stored, or the call exits with −12 (the intended tracker check; as written only ids below 2^37 exit so) |
| VexLoad.HandleNode | vex.c:202-227 | ids from 2^32 exit with −12 (the intended tracker check; as written only ids below 2^37 exit so); an unmarked node is skipped; a marked node is stored with its tag record |
| VexLoad.Load | vex.c:526-567 | the second pass always ends at `slab_init`'s exit, so the load action never completes |
| VexMain.RunLength | vex.c:571 | a token runs up to the next comma or the end |
| VexMain.Tokens | vex.c:571-574 | every `strtok` token is non-empty and has no comma |
| VexMain.TokensCons | vex.c:571-574 | a token followed by a comma is returned first |
| VexMain.TokensOfJoin | vex.c:571-574 | tokens joined with commas tokenise back into the same tokens, in order |
| VexMain.BoxCheckValid | vex.c:576-581 | on numbers the checks pass exactly the boxes in range with min below max |
| VexMain.BoxCheckPassesNaN | vex.c:576-581 | a box of NaNs passes every check |
| VexMain.LastDot | vex.c:597 | `strrchr` finds the last dot, and nothing when there is none |
| VexMain.VexFormatIffSuffix | vex.c:597-602 | the binary format is chosen exactly for names ending in ".vex" |
| VexMain.OutputOf | vex.c:592-603 | "-" is standard output; any other name is a file, in VEX format exactly when it ends in ".vex" |
| VexMain.Extract | vex.c:569-604 | fewer than four tokens fault; otherwise the box is the four numbers, accepted exactly when the checks pass |
| VexMain.Dispatch | vex.c:514-569 | three arguments load the file, four extract, and anything else prints the usage and exits with `EXIT_SUCCESS` |
| VexServer.Alias | vexserver.js:22-25 | the long name unless it is absent or empty, else the short name |
| VexServer.ToNumber | vexserver.js:22-25 | a missing parameter is NaN |
| VexServer.CheckPassesGoodBoxes | vexserver.js:27-52 | a request passes every check exactly when its box is numbers, north above south, east above west, all in range |
| VexServer.Handle | vexserver.js:19-69 | a refusal is 400 text/plain with the first failing check's text; a good box is 200 octet-stream, named `osm_export_<lat>_<lon>.pbf` after the box's centre, and starts `vex` with the database, south, west, north, east and "-" |
| VexServer.FilenameAtCentre | vexserver.js:56-59 | for a good box the latitude and longitude in the file name are finite and lie strictly inside the box |
| VexServer.SpawnedVexPrintsUsage | vexserver.js:65 | every request let through starts `vex` with seven arguments, which `main` answers with its usage text |
| VexServer.FixedSpawnExtracts | vexserver.js:65 | with the corrected command line, every request let through reaches the extract action with the same box, written to standard output |
| VexServer.CheckOrdersDiffer | vexserver.js:36-46 | for a box that is both inverted and out of range, the server names the inversion and `vex` names the latitude range |

## Left out

- File and network I/O are not modelled. This covers `mmap`/`munmap` of the input, `fwrite` of the output, LMDB (`mdb_*`, `err_trap`), progress messages on `stderr`, and streaming the `vex` process's output to the HTTP response. The written file is an accumulated byte sequence, and the mapped file is a byte sequence.
- protobuf-c, zlib, `Dedup_*`, `decode_tag`, `decode_role`, `encode_tag`, `strtod` and JavaScript's `Number` and number formatting are foreign code. They are function-typed parameters, and `Osm.Inverse` states the round trip assumed of the codecs.
- Floating point is reduced to the comparisons the checks make. `to_coord`, `get_lat`/`get_lon`, the midpoint rounding of the download name, and the nanodegree scaling in `pbf_write_node` are left out. So `VexLoad.HandleNode` does not store the coordinates, and `PbfWrite.NodeStep` takes the scaled integers.
- The extract action after its argument checks is left out: the spatial query, `vexbin_write_*`, `print_tags` and the output writers. So are `handle_relation` and code that is commented out.
- `Map_print` and `main_test` (the id tracker's demonstration, which sets multiples of 3 and prints them) only print, so they are left out.
- `IDTracker_init`/`IDTracker_free` are declared but have no definition in the source, so they are not modelled. `VexLoad.Load` takes the tracker as it is.
- IdTracker.Tracker.Set: the class uses the intended range check, and the truncated check as written is modelled beside it (finding F1).
- IdTracker.Tracker.Get: as for `Set`.
- VexLoad.WriteRefs: it marks ids through `IdTracker.Tracker.Set`, so it inherits the intended range check. As written, ids in [2^37, 2^38) index `bins` out of range and id 2^38 marks the word of id 0 (finding F1), where the model exits with −12.
- VexLoad.HandleWay: its −12 exit comes from `VexLoad.WriteRefs` and so inherits the intended tracker check (finding F1).
- VexLoad.HandleNode: it reads the mark through `IdTracker.Tracker.Get`, so ids from 2^32 exit with −12 by the intended check. As written, ids in [2^37, 2^38) index `bins` out of range and id 2^38 reads the mark of id 0 (finding F1).
- HashMap.Map.constructor: requires `0 < size < 2^31`, because `Map_new` takes an `int` and the hash is reduced modulo `size`. The `malloc` failure of `Map_new` is not modelled.
- HashMap.Map.FreeLists: the table is invalid after the call, as the source's comment says. So only the released set is stated, not a usable map.
- SlabAlloc.Slab.Alloc: addresses are naturals, so the arithmetic on `void *` does not wrap.
- PbfRead.Reader.Read: the post-condition states the slab and the cursor invariant, not the full event list. The `for (;;)` loop terminates by `PbfRead.FileblockStepProgress`: each turn moves forward, or switches once to slow seek.
- PbfRead.DenseFrom: dense ids and coordinates are unbounded integers. The source keeps `id`, `lat` and `lon` in `int64_t` and multiplies the deltas by the granularity in 64-bit arithmetic (pbf-read.c:253-261), where signed overflow is undefined. The same holds of `PbfRead.Dense`, `PbfRead.Placed` (`offset + lat * granularity` for plain nodes), `PbfRead.Reader.DecodeDense` and `PbfRead.Reader.EmitNodes`: on input that leaves the 64-bit range they state sums the source does not compute.
- PbfRead.Reader.DecodeDense: the loop computes `PbfRead.Dense` over unbounded integers, so the `int64_t` overflow of `id`, `lat` and `lon` (pbf-read.c:252-261) is not modelled.
- PbfRead.Reader.EmitNodes: the placed coordinates `lat_offset + lat * granularity` (pbf-read.c:238-239) are unbounded integers, so their `int64_t` overflow is not modelled.
- PbfRead.DenseFromIds: the ids are the running sums over unbounded integers; the `int64_t` overflow of the sum is not modelled.
- PbfRead.DenseFromCoordinates: the coordinates are computed over unbounded integers; the `int64_t` overflow of `lat += dense->lat[n] * granularity` and of the offsets added is not modelled.
- PbfRead.DenseDecodesRunningSums: the closed form holds over unbounded integers; it agrees with the source only while every running sum and product stays in the `int64_t` range.
- PbfRead: the read past the end of the mapping when the last fileblock is cut short is a `Fault`.
- PbfWrite: the writer's `malloc` failures (exit −1) and the contents of `kv_buff` beyond the indexes copied are not modelled. The arrays of relation members are not tracked as allocations, and `int64_t` overflow of the delta coding is not modelled.
- PbfWrite.BeginStep: `rel_block_count` is not restarted by `initialize_pointer_arrays`. The model keeps that as written and states it.
- Vex.DbPath: `database_path` is never assigned in the source. The model takes it as a parameter of `Vex.PathBuffer`.
- Vex.DbPathFixedFits: requires the subfile number below 2^31, because `%03d` reads the unsigned argument as an `int`.
- Vex.TagCode: the `memcmp` tests of vex.c:140-144 are modelled on the key's bytes alone (`Vex.MemPrefix`, `Vex.Head6`). Two cases differ from C. A key shorter than 6 bytes never matches "source" or "tiger:" in the model, where C compares 6 bytes and so reads past the key's end into whatever follows it. A key that is one of the three literals followed by a NUL byte ("created_by\0", 11 bytes) matches in C through the literal's terminator, where `MemPrefix` refuses any key longer than the literal; keys longer still make C read past the literal.
- Vex.WriteTags: the size check comes after each tag is written, so one tag can pass `buflen` before `die`. The model states the outcome and not the bytes written past the buffer.
- VexLoad.AcceptFrom: the `memcmp` tests of vex.c:237-238 are modelled by `Vex.MemPrefix`. A key "highway\0" or a value "platform\0" (the literal and a NUL byte) matches in C through the literal's terminator, but is refused in the model, which takes no key or value longer than the literal; longer keys and values make C read past the literal.
- VexLoad.HandleWay: the model follows the source. The head and the refs are written, and ids are marked, before the tags are checked, so an overflow of the head itself is not checked.
- VexLoad.Load: way callbacks are handled after the first pass has read the file rather than during it. The model states only that the action never completes (finding F2), so the node pass (`handle_node`) is modelled on its own as `VexLoad.HandleNode`.
- VexMain.Extract: NaN boxes are accepted as the source accepts them (`VexMain.BoxCheckPassesNaN`).
- VexServer: a query parameter given twice becomes an array in Node.js. That case is not modelled.

## Findings

The operations of the model follow the code as written, so that their
contracts describe what the program does. The one exception is the id
tracker's range check, where `IdTracker.Tracker.Set` and `Get` use the
intended check, and so do their callers `VexLoad.WriteRefs`,
`VexLoad.HandleWay` and `VexLoad.HandleNode`. Each corrected definition sits beside the as-written one,
and the intended property is proved of it. The rows are numbered F1 to F9 in
table order, and the sections above refer to them by those numbers.

| source | as written | input that shows it | evidently intended | confidence | as-written member | corrected member |
|---|---|---|---|---|---|---|
| idtracker.c:35-37 | `id >> BIN_BITS` is stored in an `int` before the range test | id 2^38 passes as word 0, bit 0, the slot of id 0; id 2^37 gives word −2^31 | ids from 2^32 exit with −12 | high, not executed | IdTracker.CheckAsWrittenAdmitsLargeIds | IdTracker.CheckIntended |
| slab.c:36-38 | `slab_done` frees the slab but leaves `slab` set | `vex db file.pbf`: the second `pbf_read` (vex.c:553) exits "Slab already initialized" before the commit | `slab = NULL` after `free` | high, not executed | SlabAlloc.InitAfterDoneExits | SlabAlloc.InitAfterFixedDoneSucceeds |
| pbf-read.c:393-395 | after unpacking the blob, the null test checks `blobh` again | a datasize range that does not unpack as a Blob: `NULL` is passed to `process_pbf_blob` | test `blob == NULL` | high, not executed | Osm.ReadFrameAdmitsMissingBlob | Osm.ReadFrameChecked |
| pbf-write.c:137 | `reset_way_block` frees the refs of the first `node_block_count` slots | 8000 ways written with an empty node block: none of their refs arrays is freed | loop to `way_block_count` | high, not executed | PbfWrite.WayBlobLeaksRefs | PbfWrite.FixedWayBlobFreesRefs |
| vex.c:50 | the bound `sizeof(path_buf) - strlen(database_path) - 12` is computed in `size_t` | a 510-character directory and the name "nodes": the check passes and `sprintf` writes past `path_buf` | refuse names that cannot fit | high, not executed | Vex.DbPathLongDirectoryOverflows | Vex.DbPathFixedFits |
| pbf-read.c:404 | `curr_block++` also follows a rewind made inside `handle_primitive_block` | a phase transition while fast-forwarding: the counter is the mark plus one at the mark's position | the counter equals the mark, as for the rewind at the end of the file | medium, not executed | PbfRead.InBlockRewindMisnumbers | PbfRead.FixedRewindKeepsNumbering |
| vexserver.js:65 | `vex` is started with six arguments after the command | any valid request: `argc == 7`, so `vex` prints its usage and the download is empty | `[dbname, "west,south,east,north", "-"]` | high, not executed | VexServer.SpawnedVexPrintsUsage | VexServer.FixedSpawnExtracts |
| vex.c:276 | `write_tags` gets the whole `NODE_BUF_LEN` though the head already used part of `tempWay` | a way with two refs and tags of exactly `NODE_BUF_LEN` bytes: the record is 3 bytes past `tempWay` | limit `NODE_BUF_LEN` minus the head | high, not executed | VexLoad.WayRecordOverflows | VexLoad.WayRecordFixedFits |
| vex.c:237-238 | `memcmp` over the stored length compares only a prefix of the literal | a key "high", or an empty value, makes the way accepted | whole-string comparison | medium, not executed | VexLoad.AcceptTakesPrefixes | VexLoad.AcceptExactFrom |
