# RisePIR: a verified model

RisePIR answers `eth_getBalance` without telling the server which account was asked for. A client pins a
hint at some block, rolls up the public deltas of later blocks, and corrects an answer computed at the
server's head back to the pinned block before decoding it. This project models that pipeline and the
protocols around it, and proves what each is for.

- **The response rewind** (`Rewind`, `Deltas`, `Coalesce`, `Scan`, `Client`, `ClientTheorems`, `Runs`,
  `CollectRuns`, `TableLookup`, `IdealBackend`, `IdealRun`). A segment is a table of cells, an answer is a
  vector-matrix product mod 2^32 through the SimplePIR reshape or, for Frodo, without one. The main results are
  `ClientTheorems.FinishEqualsDirectLookup`, `Runs.EveryFinishIsRight` over every interleaving of client and server
  steps, and `TableLookup.EveryLookupIsTrue`, which says in terms of the table's own cells what such a run finds.
- **The formats it rests on** (`Varint`, `Sorting`, `Codec`, `CodecTheorems`, `WirePath`, `U32s`, `Wire`,
  `WireSetup`, `SetupPrefix`, `Formats`, `Refusals`, `Fnv`, `Value`, `ValueIntegers`). Every encoder and decoder is a
  method proved against a specification function; parser and printer are proved inverse, the bytes are pinned by
  offset, and what is refused is stated by name; what the truncated checksum can miss is stated exactly.
- **The server's window and the download** (`Node`, `NodeTheorems`, `ServedSync`, `SyncRequest`, `Decimals`,
  `RangeHeader`, `Download`, `DownloadSession`): the delta
  ring, the per-block index, the set-up cache, the range handler and the browser's chunked cache.
- **Persistence and corrections** (`Autosave`, `AutosaveRuns`, `AutosaveProgress`, `Ledger`, `HardRefresh`,
  `RefreshHeights`): crash consistency and progress of the state file and journal, and the hard-refresh queue.
- **Two exact pieces** (`Rng`, `MockFeed`, `Geometry`): the mock feed as an oracle, and the bucket-count search.

`Words` and `Wrappers` hold machine words as bounded integers, bit operations on them, and result types.

Code that updates state is a class or a method with loops; its contract ties it to a specification function,
and the properties are proved about that function. Rust's widths and wrap-around are written out: `u32`, `u64`
and `i64` are bounded integers, a wrapping operation reduces mod 2^32 or 2^64, and a checked one has its
overflow branch. A `BTreeMap` walk takes the least remaining key; the order of a walk whose result does not
depend on it is left open, and that it does not depend on it is proved.

## What is taken as given

These are parameters or premises of the model, not part of it:

- the LWE backend: `Client.Sound` says that decoding an answer over the pinned segment returns the pinned row,
  and that patching a hint by a delta moves its pin. `IdealBackend.SoundIsPossible` shows the premise can be met;
- the cuckoo layout: candidate buckets and slot unpacking are functions;
- the address hash (xxh3), keccak and the file digest: functions. FNV-1a and SplitMix64 are modelled for real;
- the set-up decoder, in the download, is a function that takes whole bundles and nothing less;
  `SetupPrefix.DecoderTakesWholeOnly` shows that the modelled decoder is one;
- the outcome of every network read and every file or cache write is a parameter of the step that makes it;
- the randomness of a query is a parameter, and so is the reshape factor, which the code rounds from a square root.

## Where the code does not do what one would expect

Each of these is stated with the exact condition, as an equivalence, or as a concrete case with the condition beside it.

- A one-bit change of a stored balance is always caught only with at least eight checksum bits. With fewer, the
  flips that go unnoticed are exactly those at or above the checksum width within their byte
  (`Value.SingleBitFlip`). The deployed width is sixteen
  (`crates/risepir-rpc/src/mainnet.rs:202`).
- A delta refused with `DeltaOverflow` can leave earlier edits applied, in the overflowing segment
  (`Deltas.OverflowCanTear`) or in an earlier one (`Deltas.OverflowCanTearEarlierSegment`). The accumulator is
  unchanged exactly when every earlier segment's edits, and the overflowing segment's edits before the overflow,
  cancel in every cell (`Deltas.RefusedIngestKeepsIff`). Honest deltas never overflow.
- `ingest` checks only that a block lies ahead. A span from another block than the head is accepted, and the
  accumulator stays right exactly when the two databases agree (`ClientTheorems.SpanFromElsewhere`,
  `Runs.DeliverKeepsInvIff`). Two lookups that overlap in one browser tab can deliver such a span
  (`web/pir.js:981-990`, `ClientTheorems.OverlappingSpans`); the native client holds a lock over a whole lookup
  (`crates/risepir-rpc/src/private_eth.rs:255-277`, `Runs.OneSyncIsEnough`).
- A pending entry outside its segment, which `ingest` accepts, makes the next lookup index out of bounds
  (`Client.OutOfBoundsIff`). An honest delta never has one.
- `/sync` from a served bundle fails not only when it has aged out but also whenever a block number was skipped
  since (`NodeTheorems.RetainedIff`, `NodeTheorems.SkippedHeight`); `apply_block` allows skips, the follow loop does not make them.
- A cache that holds every byte of a bundle but is not marked complete makes the client ask for a range past the
  end; it is refused at every boot, and the cache stays as it is, for as long as the server serves that version
  (`DownloadSession.StuckBoots`). It comes about when the bundle is a whole number of chunks and either the last
  record write fails (`DownloadSession.GetsStuck`) or the session ends, by a stall or otherwise, after the last
  flush and before that record (`DownloadSession.PirSession.AttemptSetupDownload`, on a failure with every byte held).
- A stall after the last byte ends in the same refusal within the session: the next attempt asks for the empty rest
  (`DownloadSession.PirSession.AttemptSetupDownload`, `DownloadSession.PirSession.OneAttempt`).
- A body without a declared length that ends early is not noticed by the download. It is noticed by the set-up
  decoder, which takes no part of a bundle for the whole (`SetupPrefix.DecodesExactlyWhole`).
- A comment in the download loop says that a failed chunk write ends caching for the session; the code tries the
  same chunk again at the next read (`web/pir.js:777`). The model follows the code.
- Two corrections of one account drained into the same block both pass the staleness check, and the second
  replaces the first's value, not its baseline (`HardRefresh.ReplacesItsBaselineIff`).
- The providers are asked at a height fixed when the refresh starts, but the balance they are compared with is read
  later. A change in between makes a right balance look wrong, and it is overwritten with the older one
  (`RefreshHeights.LateRead`). A correction lands right exactly when the true balance just before its block is still
  what the providers gave, or the block sets the key (`RefreshHeights.LandsTrueIff`).
- A correction for an account that the block changes only by a withdrawal credit does apply, and the credit is
  added to the corrected value (`HardRefresh.BlockOutcome`).

## Model

| member | source | states |
|---|---|---|
| Rewind.RewindIdentity | crates/risepir-client/src/rewind.rs:55-87 | For every query, pinned and current segment and the map between them, an answer over the current segment, rewound, is bit for bit the answer over the pinned one mod 2^32, in any reshape; the reshape factor 1 is Frodo |
| Rewind.RewindSimple | crates/risepir-client/src/rewind.rs:72-86 | The in-place loop leaves in every response column the start minus the whole map's correction mod 2^32, whatever the order of the entries, for any map whose entries are addressable |
| Rewind.RewindFrodo | crates/risepir-client/src/rewind.rs:56-68 | The same for the backend without a reshape |
| Rewind.CorrectionWithout | crates/risepir-client/src/rewind.rs:79-85 | The correction does not depend on the order in which map entries are folded |
| Rewind.CorrectionOfOne | crates/risepir-client/src/rewind.rs:79-85 | One entry corrects its own wide column, (row mod k) * width + off, by its query value times its delta, and no other |
| Rewind.CorrectionIsDot | crates/risepir-client/src/rewind.rs:79-85 | Inside the segment, the entry-by-entry correction of a column is the matrix product of the query with the reshaped delta |
| Rewind.ReshapeInjective | crates/risepir-proto/src/geometry.rs:562-571 | Two in-range cells never share a wide row and wide column |
| Rewind.ReshapeInverse | crates/risepir-proto/src/geometry.rs:562-571 | Every wide entry comes from one row and offset, and gives them back |
| Rewind.ReshapedEntry | crates/risepir-proto/src/geometry.rs:562-571 | The reshape puts cell (row, off) at wide row row/k, wide column (row mod k) * width + off, and pads past the last row |
| Rewind.UnitQuery | crates/risepir-client/src/rewind.rs:13-20 | The product is the one it should be: a query that is one at wide row r and zero elsewhere reads that row |
| Rewind.InBoundsAddressable | crates/risepir-client/src/rewind.rs:79-85 | For R = ceil(n/k) and C = k * width, a delta inside the segment never indexes past the query or the response |
| Rewind.WrappingSub | crates/risepir-client/src/rewind.rs:82-84 | Truncating a negative delta to 32 bits and wrapping both operations is exact reduction mod 2^32 |
| Deltas.PendingDelta.Ingest | crates/risepir-client/src/delta.rs:115-156 | The accumulator after one delta, its new head and its error, for every input, accepted or not |
| Deltas.IngestMeaning | crates/risepir-client/src/delta.rs:115-156 | Ingestion succeeds exactly when the block lies ahead, the arities agree and no running sum leaves i64; then every cell has the delta's net sum added; otherwise the error is the first of these three faults, with its numbers; zero entries never appear |
| Deltas.OverflowCanTear | crates/risepir-client/src/delta.rs:140-146 | A delta refused for overflow can leave edits before the overflow applied (a concrete one does) |
| Deltas.RefusedIngestKeepsIff | crates/risepir-client/src/delta.rs:115-156 | A call refused for overflow has changed nothing if and only if every segment before the overflowing one, and that one up to the overflowing edit, sums to zero in every cell |
| Deltas.OverflowHasPlace | crates/risepir-client/src/delta.rs:140-146 | Every refusal for overflow has such a first overflowing edit |
| Deltas.OverflowCanTearEarlierSegment | crates/risepir-client/src/delta.rs:129-152 | The edits left behind can lie in an earlier segment alone (a concrete pair) |
| Deltas.OverflowKeepsCellsIff | crates/risepir-client/src/delta.rs:140-146 | Within one segment: the fold that overflows leaves it as it was if and only if its edits before the overflow cancel in every cell |
| Deltas.PendingDelta.AsRowDeltas | crates/risepir-client/src/delta.rs:90-99 | The accumulator written out is canonical (rows and offsets strictly ascending, no zero, no empty row) and sums to it in every cell |
| Deltas.CanonicalUnique | crates/risepir-client/src/delta.rs:90-99 | Two canonical deltas with equal sums in every cell are equal |
| Deltas.PendingDelta.IngestSegment | crates/risepir-client/src/delta.rs:129-152 | Folding one segment stops at the first overflow with exactly the edits before it folded in |
| Deltas.FoldMeaning | crates/risepir-client/src/delta.rs:129-152 | A fold succeeds exactly when no running sum overflows, and then adds the net edits cell by cell |
| Deltas.PendingDelta.constructor | crates/risepir-client/src/delta.rs:44-49 | A new accumulator has one empty map per segment |
| Coalesce.Coalesce | crates/risepir-proto/src/types.rs:130-186 | Coalescing fails in exactly the documented cases, in the documented order; otherwise the result is the last block, canonical, and the exact sum of the run in every cell |
| Coalesce.RunFaultNoneIff | crates/risepir-proto/src/types.rs:134-150 | A run has no fault exactly when its blocks are consecutive and its arities agree |
| Coalesce.RunFaultIs | crates/risepir-proto/src/types.rs:134-150 | Otherwise the fault is that of the first delta out of place: its height if that is wrong, else its arity, with the expected and the found number |
| Coalesce.CoalescedUnique | crates/risepir-proto/src/types.rs:130-186 | That description leaves one result |
| Coalesce.PathIndependence | crates/risepir-proto/src/types.rs:130-186 | Ingesting a run block by block and ingesting its coalesced span give the identical accumulator, map for map, wherever neither overflows |
| Coalesce.HonestIngest | crates/risepir-client/src/delta.rs:115-156 | A delta that is the difference of two databases never overflows and keeps the accumulator the difference between the pinned and the current one |
| Coalesce.Telescope | crates/risepir-proto/src/codec.rs:11-20 | Over any honest run the edits of a segment never overflow and sum to the difference of its two ends |
| Coalesce.TelescopingBound | crates/risepir-proto/src/codec.rs:11-20 | However many honest blocks are coalesced, the result exists, is the difference of the two ends, and stays below 2^plaintext_bits in magnitude |
| Varint.WriteUvarint | crates/risepir-proto/src/codec.rs:107-117 | The loop appends the shortest LEB128 form |
| Varint.ReadUvarintLoop | crates/risepir-proto/src/codec.rs:124-145 | Shifting and or-ing group by group with the overflow checks computes the recursive reading, its errors included, on every input |
| Varint.UvarintRoundTrip | crates/risepir-proto/src/codec.rs:107-145 | Reading at any position of a message gives back what was written there |
| Varint.ReadUvarintBounds | crates/risepir-proto/src/codec.rs:124-145 | Whatever is read fits 64 bits and took at least as many bytes as its shortest form |
| Refusals.EndedVarint | crates/risepir-proto/src/codec.rs:124-145 | A varint that ends is accepted exactly when it has at most ten bytes and the tenth, if any, is 0 or 1; anything else is malformed |
| Refusals.EndlessVarint | crates/risepir-proto/src/codec.rs:124-145 | One that runs into the end of the input is cut short, or malformed if ten bytes of it were there |
| Refusals.VarintDigits | crates/risepir-proto/src/codec.rs:124-145 | What is read has the bytes as its base-128 digits, least significant first |
| Formats.UvarintLayout | crates/risepir-proto/src/codec.rs:107-117 | What is written: seven bits to a byte, all but the last byte marked, no more bytes than the value needs |
| Varint.ZigzagRoundTrip | crates/risepir-proto/src/codec.rs:147-153 | Zigzag and its inverse undo each other on every i64 and every u64 |
| Formats.ZigzagCodes | crates/risepir-proto/src/codec.rs:147-153 | Nonnegative values get the even codes, negative ones the odd, in order of magnitude |
| Varint.UvarintLenLoop | crates/risepir-proto/src/codec.rs:155-162 | The counted length is the length of the encoding |
| Codec.EncodeBlockDelta | crates/risepir-proto/src/codec.rs:199-243 | The nested encoding loops produce the specified message for every delta, sorting rows and offsets stably |
| Codec.DecodeBlockDelta | crates/risepir-proto/src/codec.rs:260-341 | The nested decoding loops compute the specified parse, total on every byte string, with the same error in the same place |
| Sorting.SortIsStable | crates/risepir-proto/src/codec.rs:215-233 | The sort is ascending and keeps equal keys in their original order |
| Sorting.StableUnique | crates/risepir-proto/src/codec.rs:215-233 | Those two promises determine the result |
| CodecTheorems.DeltaRoundTrip | crates/risepir-proto/src/codec.rs:199-341 | decode(encode(d)) is d with rows and offsets stably sorted, for every in-range delta, unsorted rows and repeated cells included |
| CodecTheorems.AcceptedIsCanonical | crates/risepir-proto/src/codec.rs:260-341 | Anything accepted is in range and sorted; its own encoding is no longer and decodes to the same delta |
| CodecTheorems.DecodedSizeBounded | crates/risepir-proto/src/codec.rs:167-172 | An accepted message never yields more rows and cells than it has bytes |
| Formats.DeltaHeader | crates/risepir-proto/src/codec.rs:199-213 | The first thirteen bytes: magic, block as eight little-endian bytes, arity |
| Formats.SampleMessage | crates/risepir-proto/src/codec.rs:465-475 | The repository's own sample delta, byte for byte: rows and offsets sorted, gaps, zigzag, counts, an empty segment |
| Refusals.EncodingAcceptedIff | crates/risepir-proto/src/codec.rs:199-341 | Under any width from 1 to 31, the encoding of any delta decodes (to the delta sorted) if and only if every edit is below 2^width in magnitude, and is otherwise refused as out of range |
| Refusals.LongerDelta | crates/risepir-proto/src/codec.rs:336-338 | Whatever continues an accepted delta is refused for its trailing bytes |
| Refusals.OnlyWholeDelta | crates/risepir-proto/src/codec.rs:260-341 | A delta's encoding decodes from all of its bytes and from no fewer |
| Refusals.HeaderFaults | crates/risepir-proto/src/codec.rs:260-293 | After the magic: cut short before the arity, or another arity, each by its name |
| Refusals.CountTooLarge | crates/risepir-proto/src/codec.rs:167-172 | A count beyond the bytes left is refused as such before any element is read |
| Refusals.GapTooLarge | crates/risepir-proto/src/codec.rs:299-323 | A gap past the last row or past the last offset is refused as such |
| WirePath.SortKeepsTotals | crates/risepir-proto/src/codec.rs:199-243 | Sorting rows and offsets for the wire changes no cell's net delta |
| WirePath.WireIngest | crates/risepir-proto/src/codec.rs:199-341 | Sending any in-range delta over the wire before ingesting it changes nothing: it is accepted or refused alike, with the same error, and where accepted the accumulator is identical |
| WirePath.SortKeepsRunning | crates/risepir-proto/src/codec.rs:215-233 | Sorting for the wire keeps every cell's edits in their order, so folding overflows after it exactly when it does before |
| WirePath.CoalescedSurvivesWire | crates/risepir-proto/src/codec.rs:199-341 | A coalesced delta comes back from the wire exactly as it was |
| WirePath.PathIndependenceThroughWire | crates/risepir-client/src/delta.rs:115-156 | Block by block, coalesced, and coalesced then encoded and decoded: one accumulator |
| WirePath.HonestSpanAccepted | crates/risepir-proto/src/codec.rs:326-328 | The decoder's magnitude check never rejects an honest span, over however many blocks |
| WirePath.EncodedLen | crates/risepir-proto/src/codec.rs:347-369 | The length computed without encoding is the length of the encoding |
| U32s.WriteU32s | crates/risepir-proto/src/codec.rs:378-385 | The framing appended is the count and the values |
| U32s.ReadU32sLoop | crates/risepir-proto/src/codec.rs:412-434 | The loop computes the specified reading, with the ceiling and the remaining-bytes bound checked first |
| U32s.U32sRoundTrip | crates/risepir-proto/src/codec.rs:378-434 | Reading back what was written, anywhere in a message, under any ceiling that allows it |
| U32s.ReadU32sBounds | crates/risepir-proto/src/codec.rs:412-434 | Whatever is accepted obeys the ceiling and took at least its own encoding |
| U32s.DecodeU32sLoop | crates/risepir-proto/src/codec.rs:451-458 | One vector and nothing after it, or the first error |
| U32s.VectorRoundTrip | crates/risepir-proto/src/codec.rs:378-458 | A vector decodes to itself exactly when the ceiling allows it and nothing follows |
| Formats.VectorLayout | crates/risepir-proto/src/codec.rs:378-385 | A vector is its count as a varint and then its words, four little-endian bytes each |
| Fnv.Fnv1a64 | crates/risepir-proto/src/value.rs:183-190 | The loop is the fold of the byte step |
| Fnv.HashIs | crates/risepir-proto/src/value.rs:183-190 | The published offset basis and prime, written out: the hash of nothing, and of one byte more |
| Fnv.StepInjective | crates/risepir-proto/src/value.rs:183-190 | For every c up to 64 the low c bits of the state evolve on their own, and injectively |
| Fnv.OneByteChange | crates/risepir-proto/src/value.rs:257-269 | A change confined to one byte is missed by the low c bits if and only if that byte's low min(c, 8) bits are unchanged |
| Value.WriteBits | crates/risepir-proto/src/value.rs:202-211 | Exactly the field's bits are or-ed in and every other bit of the buffer is as before |
| Value.ReadBits | crates/risepir-proto/src/value.rs:217-228 | The loop returns the field at that offset and width |
| Value.ReadUndoesWrite | crates/risepir-proto/src/value.rs:202-228 | At every offset and width, reading undoes writing into a zeroed field, and disjoint fields read as before |
| Value.Encode | crates/risepir-proto/src/value.rs:316-337 | Encoding fails with each error exactly when the widths are invalid or the balance does not fit; else the bytes hold tag, balance and checksum |
| Value.Decode | crates/risepir-proto/src/value.rs:367-397 | The loops compute the specified decision for every byte string |
| Value.ExtractKeyTag | crates/risepir-proto/src/value.rs:301-304 | The stored tag is the first field |
| Value.RoundTrip | crates/risepir-proto/src/value.rs:316-397 | Every balance that fits is found by any address with the same tag, and no address with another tag sees it |
| Value.StoreThenLookUp | crates/risepir-proto/src/value.rs:316-397 | Encoding for one address and decoding for another: the encoder's two refusals, or the stored balance if and only if the two addresses' hashes agree mod 2^key_tag_bits, and NotFound otherwise |
| Value.OneBalanceByte | crates/risepir-proto/src/value.rs:257-269 | What any change confined to one byte of the balance does to an encoding: it goes unnoticed exactly when that byte's low min(checksum_bits, 8) bits are unchanged, so never with eight checksum bits or more |
| Value.LayoutUnique | crates/risepir-proto/src/value.rs:316-337 | The encoding of a value is unique, padding included |
| Value.TagsFit | crates/risepir-proto/src/value.rs:257-287 | The key tag is the address hash mod 2^key_tag_bits; the checksum is FNV-1a over the balance's bytes, reduced mod 2^checksum_bits |
| ValueIntegers.EncodingIsInteger | crates/risepir-proto/src/value.rs:316-337 | An encoded value, read as one little-endian integer, is hash mod 2^t + 2^t * balance + 2^(t+b) * checksum, and nothing else is set |
| ValueIntegers.FieldIsDigit | crates/risepir-proto/src/value.rs:202-228 | The field at a position and width is that digit of the buffer's integer |
| ValueIntegers.DecodedMeaning | crates/risepir-proto/src/value.rs:367-397 | What the decoder makes of any bytes, each outcome exactly, over the digits of their integer and the address hash |
| Value.SingleBitFlip | crates/risepir-proto/src/value.rs:605-627 | What one flipped bit does to any encoding: tag, checksum and padding flips are always safe, and a balance flip goes unnoticed exactly when its position in its byte is at or above the checksum width |
| Value.EightBitsSuffice | crates/risepir-proto/src/value.rs:605-627 | With at least eight checksum bits no single flip yields a different balance |
| Scan.CtEqMask | crates/risepir-client/src/client.rs:467-470 | All ones if the words are equal, zero otherwise, for every pair of 64-bit words |
| Scan.ScanSlot | crates/risepir-client/src/client.rs:432-442 | One branchless step adds the slot's bytes exactly when both fingerprint and tag match |
| Scan.SelectsTheOnlyMatch | crates/risepir-client/src/client.rs:381-452 | The or-select over all slots is the bytes of the only slot matching both |
| Scan.SelectedBits | crates/risepir-client/src/client.rs:432-442 | Whatever matches, a selected bit is set exactly when some slot matching both has it set |
| Scan.OthersContributeNothing | crates/risepir-client/src/client.rs:280-303 | A slot that matches on fingerprint alone contributes nothing wherever it sits |
| Scan.FindsBalance | crates/risepir-client/src/client.rs:381-452 | If exactly one candidate slot holds the key's encoded balance, the lookup finds that balance |
| Client.RisePirClient.FromSetup | crates/risepir-client/src/client.rs:95-130 | A fresh client holds the hints, is pinned at the bundle's block and has nothing pending |
| Client.RisePirClient.IngestDelta | crates/risepir-client/src/client.rs:148-150 | Only the accumulator changes, as its own ingestion says |
| Client.RisePirClient.CollectGarbage | crates/risepir-client/src/client.rs:176-196 | A wrong target is reported and changes nothing; a target equal to the pin changes nothing; otherwise every hint is patched by its whole pending map, the pin moves to the head and nothing is pending |
| Client.RisePirClient.BuildQuery | crates/risepir-client/src/client.rs:230-253 | One query per segment, and segment j is asked for row indices[j] mod segment_size of the key's own j-th candidate; every segment's in-flight secret is the new one |
| Client.RisePirClient.Finish | crates/risepir-client/src/client.rs:338-452 | The loop over segments and slots computes the specified outcome on any input: the checks in order, then rewind, decode, delta, joint scan, or an index out of bounds |
| Client.OutOfBoundsIff | crates/risepir-client/src/client.rs:381-401 | An index goes out of bounds exactly where a segment has a pending entry without a query row or response column and every earlier segment went well |
| Client.CellOutOfRangeIff | crates/risepir-client/src/client.rs:403-423 | A cell is reported out of range exactly where a segment's correction reports it and every earlier segment went well, with that segment, the row asked for and the offset |
| Client.RefusedBeforehand | crates/risepir-client/src/client.rs:346-372 | Before any response is touched: wrong counts first, then a block other than the head, then rows that are not the key's own candidates, each exactly |
| Client.AddRow | crates/risepir-client/src/client.rs:403-423 | Adding a row's pending delta reports the lowest offending offset, or gives each cell its sum |
| Client.FirstBad | crates/risepir-client/src/client.rs:403-423 | The reported offset is the lowest one past the row or out of plaintext range, and none is reported exactly when there is none |
| ClientTheorems.FinishEqualsDirectLookup | crates/risepir-client/src/client.rs:338-452 | Whatever the pin and however far the server has moved, an answer at the pending head finishes without error and equals a direct look into the database of that head |
| TableLookup.NoHitIsNotFound | crates/risepir-client/src/client.rs:381-452 | A key whose fingerprint and hash tag no slot of its candidate buckets has is NotFound |
| TableLookup.OnlyHitDecides | crates/risepir-client/src/client.rs:381-452 | If exactly one slot, unpacked from db[j][indices[j] mod segment_size] at cells s*cps to (s+1)*cps, has both, the lookup is what that slot's integer says: Found if its checksum digit is right, DecodeFailed otherwise |
| TableLookup.HeldKeyIsFound | crates/risepir-client/src/client.rs:381-452 | A key whose encoded balance is in any one slot of any one of its candidate buckets, and hit nowhere else, is found with that balance |
| ClientTheorems.SegmentHonest | crates/risepir-client/src/client.rs:390-423 | Rewind, decode against the stale hint and delta give the row as of the head |
| ClientTheorems.CollectKeepsMirror | crates/risepir-client/src/client.rs:176-196 | An accepted collection keeps "pinned database plus pending delta is the database at the head" |
| ClientTheorems.CollectIsInvisible | crates/risepir-client/src/client.rs:176-196 | A collection between query and answer does not change the outcome |
| ClientTheorems.IngestKeepsMirror | crates/risepir-client/src/client.rs:148-150 | An honest delta, one block or a span, keeps it too, and is never refused |
| ClientTheorems.SpanFromElsewhere | crates/risepir-client/src/delta.rs:115-121 | An accepted span that starts at another block keeps the mirror if and only if the two starting databases agree cell for cell |
| ClientTheorems.SpanAccepted | crates/risepir-client/src/delta.rs:115-121 | An honest span that ends ahead of the head is accepted wherever it starts |
| ClientTheorems.OverlappingSpans | web/pir.js:981-990 | Two honest spans from block 90, one delivered after the other, are both accepted and leave an accumulator that is wrong for its head (concrete databases) |
| IdealBackend.SoundIsPossible | crates/risepir-client/src/client.rs:82-92 | The promises asked of the upstream backend can be kept, in every valid geometry |
| Runs.StepKeepsInv | crates/risepir-client/src/client.rs:338-452 | Every step of client and server keeps the run invariant |
| Runs.DeliverKeepsInvIff | crates/risepir-client/src/client.rs:148-150 | Delivering any reply of the session keeps the run invariant if and only if the span is late or starts from a database that agrees with the one mirrored |
| Runs.EveryFinishIsRight | crates/risepir-http/src/node.rs:1991-2007 | Over every interleaving of applies, re-bootstraps, set-ups, late and overlapping syncs and answers, collections and queries, in which every span ingested starts from a database that agrees with the one mirrored: a finish either reports that the answer is not at the client's head, or equals the direct lookup in its own lineage at the block the answer names |
| TableLookup.EveryLookupIsTrue | crates/risepir-client/src/client.rs:338-452 | In every such run, an answer at the client's head finishes with the balance a slot of the table holds for the key at the block the answer names, and with NotFound for a key no slot has |
| Runs.OneSyncIsEnough | crates/risepir-rpc/src/private_eth.rs:255-277 | Asking for one sync at a time, as the session lock does, meets that premise in every run |
| CollectRuns.RunsStayAlike | crates/risepir-client/src/client.rs:176-196 | Two runs from one start that differ only in their collections have the same server, history, messages and heads throughout |
| CollectRuns.CollectionsNeverShow | crates/risepir-client/src/client.rs:176-196 | Inserting or removing collections anywhere in a run changes no lookup: the same answers can be finished, with the same error or result |
| CollectRuns.WithoutCollectsIsRun | crates/risepir-client/src/client.rs:176-196 | Leaving every collection out of a run leaves a run of the same deployment from the same start, with the same server, messages and heads |
| IdealRun.AskedAndAnswered | crates/risepir-client/src/client.rs:338-452 | The premises of the run theorem are met: for any good database and any key there is a run in which the client asks and an answer at its head is served |
| Node.DeltaRing.Push | crates/risepir-server/src/delta_ring.rs:65-70 | The ring keeps the latest capacity deltas |
| Node.DeltaRing.Range | crates/risepir-server/src/delta_ring.rs:89-110 | Something exactly when every block of the range is retained and adds up; then the range's coalesced sum, ending at the requested block |
| Node.FullSelection | crates/risepir-server/src/delta_ring.rs:93-107 | As many selected deltas as heights means exactly the heights, in order |
| Node.NodeState.ApplyBlock | crates/risepir-http/src/node.rs:997-1034 | The whole new ring, index and head after a block, or nothing changed when the server refuses it |
| Node.AppliedKeepsInv | crates/risepir-http/src/node.rs:1012-1020 | After every apply the per-block index holds exactly what the ring retains |
| Node.AppliedIs | crates/risepir-http/src/node.rs:1012-1020 | Besides the index: the oldest delta goes when the ring is full, the head is the block, and the cached bundle stays |
| Node.NodeState.SeedHistory | crates/risepir-http/src/node.rs:1053-1065 | Seeding replayed deltas keeps that, and the head and the cache |
| Node.NodeState.SetupBytes | crates/risepir-http/src/node.rs:1139-1170 | The bundle served is the true bundle of its block: the cached one exactly while it is at most an eighth of the ring behind the head, and otherwise a new one of the head |
| SyncRequest.RequestUnderstood | crates/risepir-http/src/node.rs:1991-2007 | The server reads a client's /sync request as the range the client meant, and lets it through exactly when it names the served lineage |
| SyncRequest.NoEpochIsMissing | crates/risepir-http/src/node.rs:1971-2007 | A query none of whose pairs has the key epoch is refused with EpochMissing |
| SyncRequest.FirstEpochDecides | crates/risepir-http/src/node.rs:1971-2007 | Otherwise the first such pair decides: let through if it names the served lineage, EpochMismatch if not |
| SyncRequest.ParseSyncQueryLoop | crates/risepir-http/src/node.rs:2103-2122 | The loop over the pairs computes the specified reading of any query string |
| SyncRequest.QueryMeaning | crates/risepir-http/src/node.rs:2103-2122 | A query is understood exactly when every pair that is not empty has its =, and the last from and the last to are numbers; those are the range |
| SyncRequest.SplitIsWhole | crates/risepir-http/src/node.rs:2103-2122 | The pairs joined by & are the query, and none of them contains one |
| Decimals.ParseMeaning | crates/risepir-http/src/node.rs:2112-2116 | What parses as a 64-bit number: digits, after one plus sign at most, whose value stays below 2^64 |
| Decimals.DigitsMeaning | crates/risepir-http/src/node.rs:2112-2116 | The value of digits: each counts ten times the next |
| SyncRequest.Sync | crates/risepir-http/src/node.rs:1437-1462 | The lineage gate comes first, then the query; past both, the reply is the coalesced range exactly when every block of it is retained and adds up |
| Node.NodeState.Sync | crates/risepir-http/src/node.rs:1437-1462 | A reply exactly when the whole range is retained |
| NodeTheorems.RetainedIff | crates/risepir-http/src/node.rs:1139-1170 | Syncing from a block to the head works if and only if no height was skipped since and it is at most capacity behind |
| NodeTheorems.SkippedHeight | crates/risepir-http/src/node.rs:997-1034 | With one height skipped and the ring far from full, the way from before it is not retained (a concrete node) |
| NodeTheorems.ServedBundleCatchesUp | crates/risepir-http/src/node.rs:1139-1170 | In every run without gaps, a served bundle is at most capacity/8 old, and the way from it to any later head is retained exactly while that head is within capacity |
| NodeTheorems.ServedBundleSyncs | crates/risepir-http/src/node.rs:1097-1170 | In every run without gaps of a node with true deltas, the deltas from a served bundle's block to any head within capacity add up to the difference of the two databases |
| NodeTheorems.CatchUp | crates/risepir-http/src/node.rs:1437-1462 | The sync call itself, from the block of any bundle served so far to the head, replies exactly within capacity, and the reply is that difference |
| NodeTheorems.SyncReplyBridges | crates/risepir-http/src/node.rs:1437-1462 | An honest server's reply exists for every retained range and is the difference of its two ends |
| ServedSync.NodeReplyIsServed | crates/risepir-http/src/node.rs:1437-1462 | What the node replies is a sync reply the run theorem takes the server to make |
| RangeHeader.ParseRange | crates/risepir-http/src/node.rs:2060-2097 | Every satisfiable outcome has first <= last < total, on any header |
| RangeHeader.ParseOpenRange | crates/risepir-http/src/node.rs:2060-2097 | The header a client sends to resume is read as exactly the rest of the bundle |
| RangeHeader.RangeMeaning | crates/risepir-http/src/node.rs:2060-2097 | The whole reading of bytes=first-rest, for every first, rest and total |
| RangeHeader.OtherRanges | crates/risepir-http/src/node.rs:2060-2075 | A header of any other form is unsupported |
| RangeHeader.ClosedRange | crates/risepir-http/src/node.rs:2060-2097 | A closed range in numbers: clamped to the resource, refused past its end, ignored when it runs backwards |
| Download.ResumeAnswer | crates/risepir-http/src/node.rs:1540-1624 | A resume gets the rest of the bundle it names, the current bundle in full if it names another, and a refusal exactly when it already has everything |
| Download.FullAnswer | crates/risepir-http/src/node.rs:1540-1624 | Without a range, or with an If-Range that does not name the current bundle, the current bundle goes out whole |
| Download.PutChunkKeeps | web/pir.js:302-313 | Writing a chunk of the held version never mixes versions under an epoch |
| Download.Idb.EvictEpoch | web/pir.js:339-344 | Eviction clears everything, and only when a record for the epoch exists |
| DownloadSession.PirSession.Flush | web/pir.js:772-793 | Flushing stores only whole chunks of the held version, whichever writes fail |
| DownloadSession.PirSession.ReadBody | web/pir.js:757-794 | However the body is cut up, the buffer stays a prefix of the held version |
| DownloadSession.PirSession.Resume | web/pir.js:653-694 | A previous session's prefix is used exactly when every chunk it claims is readable; it is a prefix of the version its record names |
| DownloadSession.PirSession.FlushNext | web/pir.js:772-793 | One whole chunk is stored and then recorded; if the chunk cannot be written, nothing is recorded |
| DownloadSession.PirSession.Finish | web/pir.js:806-829 | With every write good the cache is left ready; with only the last one failed and a bundle of whole chunks it is left stuck |
| DownloadSession.PirSession.OneAttempt | web/pir.js:701-841 | An attempt is refused exactly when every byte of the version still served is in hand; a 409 or a server error ends it; a stall leaves a prefix of one version and the last mode named |
| DownloadSession.PirSession.AttemptSetupDownload | web/pir.js:644-841 | Whatever stalls, fails or is regenerated, the cache never mixes versions, and success leaves one version sent in this session, or the start of one whose length was not declared; an undisturbed attempt succeeds if and only if the cache is not stuck; a stall after the last byte ends in a refusal; and which writes failed decides whether the cache is left ready or stuck |
| DownloadSession.PirSession.TryReadCache | web/pir.js:591-620 | A cache hit is exactly the version its record names, under a mode the server does not contradict; a ready cache whose mode agrees always hits, and a mode that disagrees clears it |
| DownloadSession.PirSession.Load | web/pir.js:849-942 | A boot that succeeds has one whole version, from the cache only one of the lineage the server named, and the mode the server says; a usable cache is always used; a stuck cache refuses the boot and stays as it is while that version is served |
| DownloadSession.StuckBoots | web/pir.js:870-942 | Over any number of boots with a stuck cache, none succeeds and the cache never changes while that version is served |
| DownloadSession.GetsStuck | web/pir.js:806-829 | An undisturbed first boot of a bundle of whole chunks, with only the last record write failing, succeeds and leaves a cache that the next boot is refused over |
| DownloadSession.Boots | web/pir.js:870-942 | Over any number of boots, interruptions and regenerations, nothing loaded is spliced |
| Autosave.StateSaver.AppendDelta | crates/risepir-rpc/src/autosave.rs:273-321 | The saver and the file after an append, for every gap and every way the write can end |
| Autosave.StateSaver.SaveWith | crates/risepir-rpc/src/autosave.rs:359-455 | The saver and the disk after a save, for every way the write and the rotation can end |
| Autosave.StateSaver.MaybeSave | crates/risepir-rpc/src/autosave.rs:330-344 | A periodic save happens exactly when it is enabled, free and due, and skips an unchanged height |
| Autosave.StateSaver.SaveNow | crates/risepir-rpc/src/autosave.rs:350-357 | A forced save writes even an unchanged height; a failed one changes nothing |
| Autosave.LoadWithJournalRestore | crates/risepir-rpc/src/state.rs:871-984 | The replay loop is the specified restore, fails exactly when a record fails to apply, and names a height to append from exactly when it succeeds with a journal bound to the base |
| Autosave.OtherJournal | crates/risepir-rpc/src/state.rs:871-984 | A journal bound to another base, by digest or by height, counts for nothing; one bound to this base is replayed onto it |
| Autosave.ReplayIs | crates/risepir-rpc/src/state.rs:871-984 | Replay ends at the first record that is not the next height, with the state the records before it lead to, and fails at the first that does not apply |
| AutosaveRuns.StepKeepsInv | crates/risepir-rpc/src/autosave.rs:273-455 | Every apply, parked append, save, rotation and crash keeps the invariant |
| AutosaveRuns.CrashConsistency | crates/risepir-rpc/src/autosave.rs:359-455 | At every point of every run, recovery succeeds with a state the server really was in, no older than the last completed base, with no block skipped, no record failing to apply and nothing acknowledged missing |
| AutosaveProgress.SavedThenEveryBlockCounts | crates/risepir-rpc/src/autosave.rs:273-455 | Progress: with a sound journal, after a save and a good rotation and any number of blocks each applied and appended with a good write, everything up to the head is durable and a crash recovers exactly the head |
| AutosaveProgress.CurrentRecoversHead | crates/risepir-rpc/src/state.rs:871-984 | Whenever a sound writer is at the head, a crash recovers the head |
| AutosaveProgress.LiveAppend | crates/risepir-rpc/src/autosave.rs:273-321 | What one append to a live journal leaves on disk, in the saver and among what was acknowledged, for each way the write can end |
| AutosaveProgress.EveryRotation | crates/risepir-rpc/src/autosave.rs:403-434 | What a rotation leaves: an empty journal bound to the new base and a writer at it when it succeeds, no writer otherwise |
| AutosaveRuns.OnlyBackwardGaps | crates/risepir-rpc/src/autosave.rs:286-311 | An append is never ahead of the journal; one it refuses is for a block recovery already has |
| AutosaveRuns.BrokenStaysBroken | crates/risepir-rpc/src/autosave.rs:399-420 | A broken journal is never written or resurrected before a restart |
| AutosaveRuns.ReplayFollowsHistory | crates/risepir-rpc/src/journal.rs:311-412 | Replaying a true chain of records leads through the server's own states |
| HardRefresh.AgreedIffUnanimous | crates/risepir-rpc/src/hard_refresh.rs:325-345 | A quorum agrees on a balance exactly when at least one provider was asked and all gave it, and errs exactly when none was asked or one failed |
| HardRefresh.DecideCorrection | crates/risepir-rpc/src/hard_refresh.rs:402-412 | A correction exactly when the agreed value differs from the current one, and with those two values |
| HardRefresh.EachOutcome | crates/risepir-rpc/src/hard_refresh.rs:402-412 | Each of the four outcomes by its own equivalence over what the providers answered |
| HardRefresh.CorrectionQueue.DrainUpTo | crates/risepir-rpc/src/hard_refresh.rs:477-481 | The drained are the front of the queue, at most the cap, and with what remains are the queue |
| HardRefresh.CorrectionQueue.PushOne | crates/risepir-rpc/src/hard_refresh.rs:456-461 | A push goes to the back |
| HardRefresh.CorrectionQueue.PushMany | crates/risepir-rpc/src/hard_refresh.rs:465-470 | Many go to the back in order |
| HardRefresh.FilterStaleCorrections | crates/risepir-rpc/src/hard_refresh.rs:548-563 | The loop keeps the still-current corrections in order and counts the rest |
| HardRefresh.SurvivorsAreCurrent | crates/risepir-rpc/src/hard_refresh.rs:548-563 | A correction survives exactly when the table still holds its baseline |
| HardRefresh.BlockOutcome | crates/risepir-rpc/src/hard_refresh.rs:507-516 | For every key the block ends with the feed's last change, else the last surviving correction, else the old value, plus its credits |
| HardRefresh.FilterCredits | crates/risepir-rpc/src/mainnet.rs:1573-1593 | The loop keeps the credits of the specified accounts |
| HardRefresh.KeptCreditsFor | crates/risepir-rpc/src/mainnet.rs:1573-1593 | Without a complete table an account gets all of its credits or none, exactly as the block changes it or the table holds it; with one, all |
| HardRefresh.ReplacesItsBaselineIff | crates/risepir-rpc/src/hard_refresh.rs:548-563 | Within a batch a survivor replaces exactly the value it was decided against if and only if no earlier survivor has its key |
| HardRefresh.DuplicateInBatch | crates/risepir-rpc/src/hard_refresh.rs:548-563 | Two corrections of one key in a batch both survive, and the second replaces the first's value (a concrete pair) |
| HardRefresh.EveryBlock | crates/risepir-rpc/src/mainnet.rs:1573-1645 | In every run: the cap, first in first out, every survivor unanimous and current, the feed's change wins, and without a complete table credits alone never bring an account in |
| HardRefresh.EveryReplacement | crates/risepir-rpc/src/mainnet.rs:1599-1645 | In every run, a correction replaces its own baseline unless its batch repeats the key |
| RefreshHeights.LandsTrueIff | crates/risepir-rpc/src/hard_refresh.rs:608-680 | A correction agreed on by truthful providers at one height, with all of the block's credits applied, lands right if and only if the block sets the key itself or the true balance is still the same just before the block |
| RefreshHeights.NothingBetween | crates/risepir-rpc/src/hard_refresh.rs:608-680 | No block in between mentioning the key is enough |
| RefreshHeights.LateRead | crates/risepir-rpc/src/hard_refresh.rs:641-680 | A run in which truthful providers lead to a right balance being overwritten by an older one (three blocks) |
| Ledger.LastChangeWins | crates/risepir-proto/src/types.rs:22-26 | The last entry for a key decides its balance, zero meaning deletion |
| HardRefresh.CreditsAccumulate | crates/risepir-server/src/server.rs:660-699 | Credits add up on top of the changes |
| HardRefresh.CreditsFit | crates/risepir-server/src/server.rs:660-699 | The 128-bit addition of credits overflows exactly when some credited account would end at 2^128 or more |
| Rng.MixInjective | crates/risepir-feed/src/lib.rs:185-191 | The generator's output mix is injective on 64-bit words |
| Rng.XorShiftInjective | crates/risepir-feed/src/lib.rs:188-190 | An xor with a right shift of itself determines the word |
| Rng.MulInjective | crates/risepir-feed/src/lib.rs:188-189 | Multiplication by an odd constant mod 2^64 is injective |
| Rng.SplitMix64.NextU64 | crates/risepir-feed/src/lib.rs:185-191 | The generator advances by its constant and returns the mix of the new state |
| Rng.MixIs | crates/risepir-feed/src/lib.rs:185-191 | The mix in plain arithmetic, with its published constants |
| Rng.MakeAddress | crates/risepir-feed/src/lib.rs:342-349 | The chunk loop writes four consecutive draws of a generator seeded by the id |
| Rng.AddressIs | crates/risepir-feed/src/lib.rs:342-349 | Each eight bytes of an address, from the state of that account's generator after so many steps |
| Rng.AddressInjective | crates/risepir-feed/src/lib.rs:342-349 | Distinct ids have distinct addresses |
| MockFeed.RandomBalance | crates/risepir-feed/src/lib.rs:206-213 | The first draw picks the number of bits from 40 to 89, the next two are the bits below the top one |
| MockFeed.Perturb | crates/risepir-feed/src/lib.rs:219-232 | The first draw picks a move of 43 to 63 bits, the second its bits, the third its direction; the exact result, stopped only at an end of [1, 2^96) |
| MockFeed.MockFeed.constructor | crates/risepir-feed/src/lib.rs:303-331 | Genesis holds exactly the addresses of the first ids, each once, with balances in range |
| MockFeed.MockFeed.NextBlock | crates/risepir-feed/src/lib.rs:375-427 | The emitted block replays to exactly the new balances; it is deletes, then inserts never generated before, then updates in range; the live list stays the duplicate-free key set |
| MockFeed.Follow | crates/risepir-feed/src/lib.rs:364-366 | After any number of blocks the oracle's answer is the last emitted balance of the key, or the starting one |
| MockFeed.NotGeneratedBefore | crates/risepir-feed/src/lib.rs:396-404 | An inserted address was never generated before, by any account live or deleted |
| MockFeed.SwapRemoveLists | crates/risepir-feed/src/lib.rs:386-392 | Swap-removal keeps the live list duplicate-free and removes exactly that key |
| Geometry.BucketCountIsLeast | crates/risepir-proto/src/geometry.rs:340-388 | The chosen bucket count has the required shape, meets the target load, and is the least that does |
| Geometry.SizingIsExact | crates/risepir-proto/src/geometry.rs:340-388 | Sizing succeeds exactly when the inputs are valid and some 32-bit count fits, then with the least such count, and names what is wrong otherwise |
| Geometry.GivenCountIsExact | crates/risepir-proto/src/geometry.rs:411-432 | From a given bucket count: exactly the valid inputs, each fault by its name and in order |
| Geometry.PinnedCounts | crates/xtask/src/geometry.rs:778-812 | The counts the repository's tests pin: 2^26 for the deployed pair of candidates, 3 * 2^25 for the triple it replaced |
| Geometry.NeededIff | crates/risepir-proto/src/geometry.rs:362-373 | The load bound is met by exactly the counts at or above the computed need |
| Geometry.NextPowerOfTwoIsLeast | crates/risepir-proto/src/geometry.rs:375-379 | The power of two chosen is the least that reaches the need |
| Geometry.EffectiveTargetLoad | crates/risepir-proto/src/geometry.rs:250-294 | The target stays below the published ceiling of its configuration, and the flat cap binds only where none is published or for four-way tables with buckets of three or more |
| Geometry.TargetTable | crates/risepir-proto/src/geometry.rs:879-928 | The target of each of the twelve published configurations, 0.8645 at the deployed one |
| Geometry.TargetMonotone | crates/risepir-proto/src/geometry.rs:250-294 | More candidates or larger buckets never lower the target |
| Wire.EncodeQueries | crates/risepir-http/src/wire.rs:561-574 | The encoder writes the specified query bundle |
| Wire.DecodeQueries | crates/risepir-http/src/wire.rs:602-643 | The decoder computes the specified parse of a query, total on every byte string |
| Wire.QueryRoundTrip | crates/risepir-http/src/wire.rs:561-643 | Every query bundle decodes back to itself |
| Wire.AcceptedQueryIsExact | crates/risepir-http/src/wire.rs:602-643 | An accepted query has exactly the required per-segment lengths and nothing left over; its own encoding is no longer |
| Refusals.QueryOfOtherLengths | crates/risepir-http/src/wire.rs:602-643 | A query of other lengths than the deployment's is refused for the first segment that differs: over the ceiling if longer, by its length if shorter |
| Wire.EncodeResponses | crates/risepir-http/src/wire.rs:661-675 | The encoder writes the specified response bundle |
| Wire.DecodeResponses | crates/risepir-http/src/wire.rs:699-741 | The decoder computes the specified parse of a response, total on every byte string |
| Wire.ResponseRoundTrip | crates/risepir-http/src/wire.rs:661-741 | Every response bundle decodes back to itself, block included |
| Wire.AcceptedResponseIsExact | crates/risepir-http/src/wire.rs:699-741 | An accepted response has exactly the required lengths and nothing left over |
| Refusals.ResponseOfOtherLengths | crates/risepir-http/src/wire.rs:699-741 | The same for a response |
| Refusals.LongerBundles | crates/risepir-http/src/wire.rs:602-741 | Whatever continues an accepted query or response is refused for its leftover bytes |
| Formats.QueryLayout | crates/risepir-http/src/wire.rs:561-574 | A query byte by byte: magic, arity, one vector per segment |
| Formats.ResponseLayout | crates/risepir-http/src/wire.rs:661-675 | A response byte by byte: magic, arity, block as eight little-endian bytes, one vector per segment |
| Formats.OtherMessages | crates/risepir-http/src/wire.rs:194-199 | Too short for its magic, or another one: every decoder says so before anything else |
| WireSetup.EncodeSetupBundle | crates/risepir-http/src/wire.rs:328-385 | The encoder writes the specified set-up bundle |
| WireSetup.SetupEncodedLen | crates/risepir-http/src/wire.rs:404-417 | The reserved length is the encoded length, whether or not the hints fit the geometry |
| WireSetup.DecodeSetupBundle | crates/risepir-http/src/wire.rs:453-543 | The decoder computes the specified parse, parameter checks before hints |
| WireSetup.SetupRoundTrip | crates/risepir-http/src/wire.rs:328-543 | Every geometry-consistent bundle decodes back to itself |
| WireSetup.AcceptedSetupIsExact | crates/risepir-http/src/wire.rs:453-543 | An accepted bundle is consistent, hint lengths exact and nothing left over; its own encoding is no longer |
| WireSetup.AcceptedHints | crates/risepir-http/src/wire.rs:512-531 | Acceptance implies, for every segment j, a hint of exactly lwe_dim * reshape_row_width values and valid parameters |
| WireSetup.ExactHintsRoundTrip | crates/risepir-http/src/wire.rs:328-543 | Every bundle of two to four segments with valid parameters and hints of exactly those lengths decodes to itself |
| Formats.SetupLayout | crates/risepir-http/src/wire.rs:355-362 | The fixed part of a set-up bundle, field by field |
| Formats.ParamsLayout | crates/risepir-http/src/wire.rs:364-374 | One segment's fifty-two bytes of parameters, field by field |
| Formats.ParamsInOrder | crates/risepir-http/src/wire.rs:364-374 | The parameters of segment j are the j-th fifty-two bytes |
| SetupPrefix.DecodesExactlyWhole | crates/risepir-http/src/wire.rs:453-543 | A consistent bundle decodes from all of its bytes and from no fewer |
| SetupPrefix.LongerIsRefused | crates/risepir-http/src/wire.rs:453-543 | Anything that continues an accepted message is refused for its leftover bytes |
| SetupPrefix.DecoderTakesWholeOnly | web/pir.js:901-918 | So the decoder keeps what the download relies on: no part of a bundle is taken for the whole |

## Left out

- Client.RisePirClient.Finish: column arithmetic that passes 2^32, which only an offset beyond the row can cause in a segment whose columns nearly fill 32 bits, counts as an index out of bounds; an optimised build would wrap it. Responses are shorter than 2^32 values.
- Coalesce.PathIndependence: assumes that neither path overflows; for honest runs that is proved, for arbitrary deltas the order of partial sums decides it.
- Runs.EveryFinishIsRight: assumes that every span ingested ahead of the head starts from a database that agrees with the one mirrored, which the code does not check; one sync at a time is enough, and `Runs.DeliverKeepsInvIff` says what happens otherwise. An answer belongs to the query now in flight; finishing an older query decodes garbage, as the source documents, and nothing in it detects that.
- DownloadSession.PirSession.AttemptSetupDownload: one tab at a time, clears that take effect, and cached records not edited by hand; a server that names no lineage, for which nothing is cached, is a session with an empty cache whose writes all fail.
- AutosaveRuns.CrashConsistency: one lineage on disk; starting without journal restore, and a journal left behind by another deployment, are not modelled.
- WireSetup.SetupRoundTrip: a float is its eight bytes, and which of them are finite and positive is a parameter; addresses are 64 bits wide, so the 32-bit saturation of a length ceiling does not occur.
- MockFeed.MockFeed.NextBlock: requires that the account ids do not run past 2^64.
- The LWE kernels, their noise and the cuckoo store's insertion and eviction: parameters with contracts, as above.
- The server's refusal of a block part-way through, after which it asks to be re-bootstrapped.
- The journal's record framing and checksum: a record is either whole or torn, and a torn one ends the scan.
- The set-up handler's `If-None-Match` answer.
- Geometry sizes in bytes and the plaintext width selector, which would only add multiplications and a parameter.
- HTTP plumbing, timeouts and retries, JSON-RPC calls, metrics, CSV and address-file parsing, and all user interface code.
- Timing, constant-time behaviour, memory footprints and the fairness of locks.
- Several browser tabs writing one cache at once, which the source is not written for.
