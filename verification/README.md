# A verified model of plum's codecs, substream handler, datastores and wallet

Plum is a Filecoin node written in Rust. This project models the parts of it that carry the most logic and proves,
for all inputs or all runs, what those parts are for:

- **RLE+ bit fields** (`Bits`, `BitSet`, `Varint`, `RleRuns`, `RleBlocks`, `RleEncode`, `RleDecode`, `RleTheorems`,
  `RleFormat`).
  A set of words is cut into alternating runs, the run lengths are written as bit blocks, and the decoder reads
  blocks until only zero bits are left. Encoder, decoder and bit set keep their loops and in-place updates and are
  proved against functions on bit sequences; the round trip is proved on those functions.
- **The RPC substream handler** (`RpcMessages`, `RpcMachine`, `RpcHistory`, `RpcFrames`, `RpcInvariants`, `RpcRuns`,
  `RpcReports`, `RpcScenarios`, `RpcHandlerClass`). A labelled state machine whose steps are the injected calls, the timers and the
  single actions of `poll`, with a history beside the state. Properties are proved over every run of the machine, and
  the class `RpcHandler`, written like the source, is proved to walk that machine. What a substream, a timer or the
  peer answers is arbitrary.
- **Datastore keys, prefixed stores and batches** (`Keys`, `Stores`, `Batches`, `RocksBatches`). The algebra of
  slash-separated keys, the store that puts its keys under a prefix, and deferred writes: what their order, their
  failures and a discard do to the store.
- **Tipsets** (`Orders`, `Tipsets`). Sorting, validating and keying block headers.
- **IPLD values as DAG-JSON trees** (`IpldJson`, `IpldMeaning`). Printing, and parsing with the reserved object shapes.
- **Addresses and the wallet** (`Base32`, `Decimal`, `Addresses`, `Wallets`). Address text with base32 (section 6 of
  RFC 4648), varint and decimal parts; a wallet whose memory and key store agree over every run.
- **Piece sizes** (`PieceSizes`). Padding, unpadding and the two validators within 64 bits.

Bits are sequences of booleans, least significant first (most significant first in `Base32`). Words are integers with
their 64-bit bound written out. An addition that would overflow, a subtraction that would underflow, an index out of
range, an `expect` and an `unreachable!` are outcomes of their own (`Overflowed`, `OutOfRange`, `Panicked`, `Aborted`,
`NoSuchColumn`, a `None`) or are proved not to happen. Hashes, checksums, signatures, cids and multibase strings are
arbitrary functions with the stated laws. Strings that are compared or measured by the source in bytes are sequences of
their UTF-8 bytes, one character for each.

## Findings

Where the code and its own description differ, the model follows the code.

- `libp2p/src/rpc/methods.rs:152-153` says a stream is terminated after an error is sent. That holds for an error sent
  directly; one that had to be queued is sent with the stream left open and further responses follow
  (`RpcRuns.WireSeals` gives the exact condition, `RpcRuns.QueuedErrorNotLast` a run).
- `libp2p/src/rpc/handler.rs:82` calls the dial limit a limit on substreams being opened. A failed upgrade is never taken
  off the count, so the count is the number of dials being opened only as long as no upgrade has failed
  (`RpcRuns.DialCountExact`), and after eight failures nothing is dialled again (`RpcRuns.DialsStarve`). Runs from the
  start with any number of failures up to eight are `RpcScenarios.FailedRounds` and `RpcScenarios.EightFailuresStarve`.
- `libp2p/src/rpc/handler.rs:577-585` drops an inbound stream whose send failed without its queue. The queued responses
  are never sent and never removed (`RpcRuns.QueueLeftIff`, `RpcRuns.OrphanForever`, and `RpcScenarios.QueueOutlivesStream`
  for a run).
- `libp2p/src/rpc/handler.rs:428-432` keeps one error of a failed dial at a time. A request given up while one is pending
  is told to nobody (`RpcReports.GivenUpIsTold`, `RpcReports.GivenUpIsLost`).
- `ipfs/datastore/src/store/mod.rs:113-116` says a discard throws changes away without committing them. After a commit
  that failed part-way, what it had written stays in the store (`Batches.BasicBatchDataStore.Discard`, with
  `Batches.DiscardLeavesWrite` an example). With single writes that fail cleanly, the store is restored wherever a commit
  fails exactly when at most one key is batched or the batch changes nothing (`Batches.DiscardRestoresIff`). The
  RocksDB store writes all or nothing and has no such case.
- The version check of the RLE+ decoder refuses version 1 and lets versions 0, 2 and 3 through
  (`RleTheorems.VersionRefused`).
- `Tipset::new` reports differing parents as an error. Parents that stop short of the first block's are accepted, and
  parents that go on past them are an index out of range (`Tipsets.BuiltIff`, `Tipsets.PanicIff`, and
  `Tipsets.LongerParentsPanic` for an input).
- `Address::from_str` returns an error for malformed text. It panics instead when the first or the second byte ends inside
  a character, and when the part after a checksummed protocol is valid base32 of fewer than seven symbols
  (`Addresses.ParsePanicIff`, with `Addresses.WideCharacterPanics` and `Addresses.ShortTextPanics` for inputs).
- A wallet default stays the info of a held key over every run exactly when no two keys share an address
  (`Wallets.DefaultHeldIff`); its address is held in any case (`Wallets.RunMirrored`).

## Model

| member | source | states |
|---|---|---|
| `BitSet.DynamicBitSet.constructor` | primitives/bitfield/rle/src/bitset.rs:29-34 | a new bit set is the empty bit sequence |
| `BitSet.DynamicBitSet.FromBytes` | primitives/bitfield/rle/src/bitset.rs:101-109 | a bit set made from bytes is their bits, low bit of the first byte first |
| `BitSet.DynamicBitSet.Push` | primitives/bitfield/rle/src/bitset.rs:37-48 | appends one bit to the sequence; bits past the end stay zero |
| `BitSet.DynamicBitSet.Clear` | primitives/bitfield/rle/src/bitset.rs:51-54 | leaves the empty sequence |
| `BitSet.DynamicBitSet.Bit` | primitives/bitfield/rle/src/bitset.rs:62-67 | the masked byte test reads the bit at the position |
| `BitSet.DynamicBitSet.FindNext` | primitives/bitfield/rle/src/bitset.rs:70-92 | the least set position strictly after the argument, or none when there is none; the recursion ends |
| `BitSet.DynamicBitSet.IntoBytes` | primitives/bitfield/rle/src/bitset.rs:95-99 | the bytes are exactly the bits, filled up with zeros to whole bytes |
| `BitSet.LowestSetBit` | primitives/bitfield/rle/src/bitset.rs:80-87 | the mask loop finds the lowest set bit |
| `RleRuns.RunsUnique` | primitives/bitfield/rle/src/encode.rs:36-70 | positive alternating run lengths that expand to the same set are the same |
| `RleRuns.ExpandIncreasing` | primitives/bitfield/rle/src/decode.rs:107-123 | expanded runs give strictly increasing numbers within the span of the runs |
| `RleRuns.BumpLast` | primitives/bitfield/rle/src/encode.rs:59-62 | lengthening a present last run adds exactly the next number |
| `RleRuns.AppendGap` | primitives/bitfield/rle/src/encode.rs:63-66 | a gap and a run of one add exactly the number after the gap |
| `RleRuns.ExpandLast` | primitives/bitfield/rle/src/encode.rs:47-69 | runs that end present end right after the last number of the set |
| `Varint.VarintShape` | primitives/bitfield/rle/src/encode.rs:92-98 | the packed form of every number has continuation bytes and one final byte, and denotes the number |
| `Varint.ContinuationByte` | primitives/bitfield/rle/src/encode.rs:94 | or-ing in the high bit and cutting to a byte gives the low seven bits with the high bit set |
| `Varint.ByteMasks` | primitives/bitfield/rle/src/decode.rs:135-166 | the two byte masks take the low seven bits and test the high bit |
| `RleBlocks.UnpackInverse` | primitives/bitfield/rle/src/decode.rs:152-170 | unpacking inverts packing for every 64-bit word, at every shift |
| `RleBlocks.ReadVarintBytes` | primitives/bitfield/rle/src/decode.rs:131-138 | reading bytes off a bit string stops exactly after the packed number written there |
| `RleBlocks.ReadWritten` | primitives/bitfield/rle/src/decode.rs:54-66 | reading a written block, whatever follows, gives its run length and what follows |
| `RleBlocks.BlockHasOne` | primitives/bitfield/rle/src/encode.rs:23-31 | the block of a positive run has a set bit, so no written block is taken for padding |
| `RleEncode.Encode` | primitives/bitfield/rle/src/encode.rs:11-34 | the bytes are version, first-run flag and one block a run of the set, zero-filled: the encoding of the set |
| `RleEncode.PushBlock` | primitives/bitfield/rle/src/encode.rs:24-30 | pushes the single, small or long block of the run length |
| `RleEncode.GetPeriods` | primitives/bitfield/rle/src/encode.rs:36-70 | the periods are positive, fit a word, and expand to exactly the input |
| `RleEncode.NextPeriods` | primitives/bitfield/rle/src/encode.rs:57-68 | one round of the loop extends the expansion by the item, by bumping the last run or adding a gap and a run |
| `RleEncode.FirstPeriods` | primitives/bitfield/rle/src/encode.rs:52-56 | the periods before the loop expand to the first item alone |
| `RleEncode.InitContent` | primitives/bitfield/rle/src/encode.rs:72-76 | the header is two zero bits |
| `RleEncode.PushSmallBlock` | primitives/bitfield/rle/src/encode.rs:78-87 | header bits 0, 1 and the four low bits of the run length |
| `RleEncode.PushLongBlock` | primitives/bitfield/rle/src/encode.rs:89-91 | header bits 0, 0 and the bits of the packed run length |
| `RleEncode.PushVarint` | primitives/bitfield/rle/src/encode.rs:92-98 | the loop appends exactly the bits of the packed number |
| `RleEncode.PushByte` | primitives/bitfield/rle/src/encode.rs:101-106 | appends the eight bits of the byte, low bit first |
| `RleEncode.MaskShift` | primitives/bitfield/rle/src/encode.rs:84 | mask, shift and comparison test the bit at the position |
| `RleDecode.Decode` | primitives/bitfield/rle/src/decode.rs:41-73 | the decoder computes the bit-level decoding function: version, flag, blocks until only zero bits are left, size limit |
| `RleDecode.GetSpan` | primitives/bitfield/rle/src/decode.rs:75-93 | reads the number in the next bits, or fails without moving when too few are left |
| `RleDecode.DecodeLoop` | primitives/bitfield/rle/src/decode.rs:52-66 | the loop computes the block-wise decoding of the remaining bits; the cursor strictly advances |
| `RleDecode.MoreBits` | primitives/bitfield/rle/src/decode.rs:54 | the loop condition holds exactly when a set bit is left |
| `RleDecode.DecodeBlock` | primitives/bitfield/rle/src/decode.rs:55-65 | one round reads one block, takes its run or fails as the block does, and moves the cursor on |
| `RleDecode.DecodeLongerBlock` | primitives/bitfield/rle/src/decode.rs:58-65 | the second header bit selects the long or the small block |
| `RleDecode.DecodeSingleBlock` | primitives/bitfield/rle/src/decode.rs:95-105 | takes a run of one and flips the magnitude |
| `RleDecode.DecodeSmallBlock` | primitives/bitfield/rle/src/decode.rs:107-123 | takes a run of the four-bit length, or fails for lack of bits |
| `RleDecode.DecodeLongBlock` | primitives/bitfield/rle/src/decode.rs:125-150 | takes a run of the packed length, or fails for lack of bits or on an overlong number |
| `RleDecode.ReadBytes` | primitives/bitfield/rle/src/decode.rs:131-138 | collects the bytes of one packed number and leaves the cursor after them |
| `RleDecode.UnpackBytes` | primitives/bitfield/rle/src/decode.rs:152-170 | the loop computes the unpacking function |
| `RleDecode.TakeRun` | primitives/bitfield/rle/src/decode.rs:113-120 | a present run outputs each of its numbers, an absent one moves the value; overflow is an outcome |
| `RleTheorems.RoundTrip` | primitives/bitfield/rle/src/decode.rs:41-73 | decoding the encoding of every set of words gives the set when it has at most 131072 elements, the size error when more; the one set of cases left, those that contain the largest word, overflow |
| `RleTheorems.DecodeRuns` | primitives/bitfield/rle/src/decode.rs:54-66 | decoding written runs and padding expands exactly those runs and stops at the padding |
| `RleTheorems.DecodeHeader` | primitives/bitfield/rle/src/decode.rs:45-50 | a written header leads to the blocks with the flag as first magnitude |
| `RleTheorems.RunsFit` | primitives/bitfield/rle/src/encode.rs:47-69 | the runs of a set of words fit a word and end after its last element |
| `RleTheorems.EncodingCanonical` | primitives/bitfield/rle/src/encode.rs:11-34 | two sets of words are equal exactly when their encodings are |
| `RleTheorems.RunsBitsUnique` | primitives/bitfield/rle/src/encode.rs:23-31 | written runs are told apart whatever padding follows |
| `RleTheorems.DecodeIncreases` | primitives/bitfield/rle/src/decode.rs:52-72 | whatever the bits, the output strictly increases below the largest word, and the only errors of the blocks are lack of bits and an overlong number |
| `RleTheorems.DecodedReproduced` | primitives/bitfield/rle/src/decode.rs:41-150 | what arbitrary bytes decode to is a set within the limits, and decoding its own encoding gives it again |
| `RleTheorems.VersionRefused` | primitives/bitfield/rle/src/decode.rs:45-48 | the version check refuses exactly the data whose first two bits read one |
| `RleTheorems.VersionTwoAccepted` | primitives/bitfield/rle/src/decode.rs:46 | a header of version two decodes, here to the empty set |
| `RleTheorems.EmptyRefused` | primitives/bitfield/rle/src/decode.rs:75-79 | data without a byte fails for lack of bits |
| `RleFormat.UnpackMeaning` | primitives/bitfield/rle/src/decode.rs:152-170 | unpacking any packed number gives its value cut to 64 bits, and fails exactly from the eleventh byte on |
| `RleFormat.PackedExample` | primitives/address/src/address.rs:266-269 | the packed form of one number, byte by byte |
| `RleFormat.BlockLength` | primitives/bitfield/rle/src/encode.rs:24-30 | one bit exactly for a run of one, six bits for the other runs below sixteen, two bits and whole bytes from there on |
| `RleFormat.ShortestBlock` | primitives/bitfield/rle/src/encode.rs:24-30 | no block that reads as a run is shorter than the one written for it |
| `RleFormat.PackedLength` | primitives/bitfield/rle/src/encode.rs:92-98 | no packed number is shorter than the one written for its value |
| `RleFormat.SmallExample` | primitives/bitfield/rle/src/encode.rs:11-34 | the bytes of the set of ten, with a small block |
| `RleFormat.LongExample` | primitives/bitfield/rle/src/encode.rs:11-34 | the bytes of the set of sixteen, with a long block |
| `RpcFrames.Frame` | libp2p/src/rpc/handler.rs:330-403 | a step changes the one inbound stream it touches, by the step function of that stream, and no other stream or queue; a new stream takes the next id |
| `RpcFrames.FrameOutbound` | libp2p/src/rpc/handler.rs:293-326 | which steps change which outbound streams and timers, and how |
| `RpcFrames.FrameDial` | libp2p/src/rpc/handler.rs:405-433 | which steps change the dial queue, the dial count and the retries, and how |
| `RpcFrames.FrameTimers` | libp2p/src/rpc/handler.rs:498-532 | which steps set, move or drop an inbound timer |
| `RpcInvariants.KeepsNoPoison` | libp2p/src/rpc/handler.rs:535-723 | no step stores a poisoned stream |
| `RpcInvariants.KeepsInboundTimers` | libp2p/src/rpc/handler.rs:278-286 | every step keeps inbound timers and inbound streams that hold a key in bijection |
| `RpcInvariants.KeepsOutboundTimers` | libp2p/src/rpc/handler.rs:310-322 | every step keeps the timer of every outbound stream live and filed under its id |
| `RpcInvariants.KeepsIdsSpent` | libp2p/src/rpc/handler.rs:278-290 | every step keeps all ids in use below the next one, so no id is reused |
| `RpcInvariants.KeepsLanes` | libp2p/src/rpc/handler.rs:744-769 | every step keeps: an idle stream has nothing queued, and a stream without a timer is closing or bound to close |
| `RpcInvariants.LaneStepOk` | libp2p/src/rpc/handler.rs:144-185 | one stream: closing on a timeout leaves it doomed, and nothing brings it back |
| `RpcInvariants.LogStep` | libp2p/src/rpc/handler.rs:330-399 | one stream: what it took on is what it put on the wire followed by its queue, before and after any step, and a termination is last |
| `RpcInvariants.KeepsOrdered` | libp2p/src/rpc/handler.rs:535-620 | every step keeps that order for every stream |
| `RpcInvariants.KeepsDials` | libp2p/src/rpc/handler.rs:405-433 | every step keeps the dial count and the partition of the submitted requests |
| `RpcInvariants.HeardStep` | libp2p/src/rpc/handler.rs:623-723 | one poll of an outbound stream reports at most one response, and goes on waiting only if more may come |
| `RpcInvariants.KeepsReplies` | libp2p/src/rpc/handler.rs:623-723 | every step keeps: responses heard for a request end with the first error, and are at most one if one is due |
| `RpcRuns.KeepsInv` | libp2p/src/rpc/handler.rs:261-740 | the whole invariant is inductive |
| `RpcRuns.RunInv` | libp2p/src/rpc/handler.rs:192-214 | every configuration reached from the start satisfies the whole invariant |
| `RpcRuns.ResponseOrder` | libp2p/src/rpc/handler.rs:330-399 | over every run, what a stream put on the wire is a prefix of what it took on, followed by exactly its queue while it lives; nothing follows a termination; an idle stream owes nothing |
| `RpcRuns.SealedForever` | libp2p/src/rpc/handler.rs:535-620 | however a run goes on, nothing more is put on the wire of a stream that is gone, closing, or closing after its send |
| `RpcRuns.WireSeals` | libp2p/src/rpc/handler.rs:343-356 | putting a response on the wire seals its stream exactly when it is a termination, or an error or single response that went out directly |
| `RpcRuns.QueuedErrorNotLast` | libp2p/src/rpc/handler.rs:744-769 | on a concrete run a queued error is followed by another chunk |
| `RpcRuns.DoomedForever` | libp2p/src/rpc/handler.rs:498-516 | a stream whose timer has fired never returns to idle: on every continuation it is gone, closing, or bound to close |
| `RpcRuns.QueueLeftIff` | libp2p/src/rpc/handler.rs:577-604 | a dropped stream leaves its queue behind exactly when a failed send drops it and it has one |
| `RpcRuns.OrphanForever` | libp2p/src/rpc/handler.rs:577-585 | a queue whose stream is gone stays as it is on every continuation: nothing in it is sent, and nothing removes it |
| `RpcRuns.HandlerWellFormed` | libp2p/src/rpc/handler.rs:261-403 | over every run no stored stream is poisoned, inbound timers are in bijection with the streams that hold a key, and outbound timers are live |
| `RpcRuns.DialAccounting` | libp2p/src/rpc/handler.rs:726-738 | over every run the dial count is open dials plus failed upgrades, between 0 and 8; submitted requests are exactly the queued, open, negotiated and given-up ones |
| `RpcRuns.DialCountExact` | libp2p/src/rpc/handler.rs:82-83 | the dial count is the number of open dials exactly when no upgrade has failed |
| `RpcRuns.DialsStarve` | libp2p/src/rpc/handler.rs:412-433 | after eight failed upgrades no later step of any run dials |
| `RpcRuns.RepliesWellFormed` | libp2p/src/rpc/handler.rs:623-723 | over every run, the responses heard since the last negotiation of an id end with the first error, and are at most one if one is due |
| `RpcRuns.AnsweredForever` | libp2p/src/rpc/handler.rs:635-654 | after an error, or the one response due, no response is reported for the id until it is negotiated anew |
| `RpcRuns.TimeoutAfterAnswer` | libp2p/src/rpc/handler.rs:519-532 | a stream whose request is answered is closing; its timer can still fire, which reports an error for it and no response |
| `RpcRuns.HeardIsOutput` | libp2p/src/rpc/handler.rs:652-676 | the responses on record are exactly the response events handed out, in order |
| `RpcRuns.EpisodeReplies` | libp2p/src/rpc/handler.rs:310-322 | from one negotiation of a request to the next, the response events handed out for it end with the first error, and are at most one if one is due |
| `RpcReports.MessageKinds` | libp2p/src/rpc/methods.rs:138-159 | which requests expect one response or many, and which responses may be followed by more or are errors |
| `RpcReports.ReadIsReported` | libp2p/src/rpc/handler.rs:633-702 | one poll of a pending stream hands out every response read, and a termination for the end of a stream that may carry many |
| `RpcReports.ResponsesAreReads` | libp2p/src/rpc/handler.rs:623-723 | over every path, the responses handed out for an id are exactly those read off its stream while one was awaited, in order |
| `RpcReports.FailureIsReported` | libp2p/src/rpc/handler.rs:656-701 | one step hands out as errors exactly its failed read, early end, timeout, failed dial or failed send |
| `RpcReports.ErrorsAreFailures` | libp2p/src/rpc/handler.rs:445-723 | over every path, the errors handed out for an id are exactly what went wrong for it, in order |
| `RpcReports.ReportedMeaning` | libp2p/src/rpc/handler.rs:447-484 | what each kind of failed dial is told as |
| `RpcReports.NewInbound` | libp2p/src/rpc/handler.rs:277-290 | a request that is no goodbye gets one new idle stream and a timer, and is reported under exactly the id of that stream |
| `RpcReports.RequestsInOrder` | libp2p/src/rpc/handler.rs:489-495 | over every path, the requests handed out and still queued are the injected ones, in order and each once, under the ids of their streams |
| `RpcReports.InjectedIds` | libp2p/src/rpc/handler.rs:290 | no two injected requests share an id, and none is under an earlier one |
| `RpcReports.ResponseTaken` | libp2p/src/rpc/handler.rs:340-391 | a response for a live stream is sent, queued, or only closes the stream, by its kind and the state of that stream |
| `RpcReports.ResponseDropped` | libp2p/src/rpc/handler.rs:392-398 | a response for a stream that is gone changes nothing |
| `RpcReports.TimeoutTold` | libp2p/src/rpc/handler.rs:144-185 | what the peer is told when the timer of its stream fires, in each state |
| `RpcReports.DialFails` | libp2p/src/rpc/handler.rs:405-433 | a failed dial is queued again exactly for an input or output error after fewer than two in a row; else it is given up, and its error kept under its own id unless one is pending |
| `RpcReports.RetriesAreStreak` | libp2p/src/rpc/handler.rs:412-419 | over every path, the retry counter is the number of input or output errors in a row |
| `RpcReports.GivenUpIsTold` | libp2p/src/rpc/handler.rs:445-485 | a request given up while no error is pending is the next pending error told, under its own id, on every continuation |
| `RpcReports.GivenUpIsLost` | libp2p/src/rpc/handler.rs:428-432 | of a request given up while an error is pending nothing is kept |
| `RpcScenarios.FailedRounds` | libp2p/src/rpc/handler.rs:405-433 | from the start, any number of failed dials up to eight can be had: the count is then that number with nothing being dialled |
| `RpcScenarios.EightFailuresStarve` | libp2p/src/rpc/handler.rs:726-738 | after eight failed dials a further request stays first in line on every continuation, and nothing is dialled |
| `RpcScenarios.ErrorThenTimeout` | libp2p/src/rpc/handler.rs:519-532 | for every request and every error response there is a run from the start that hands out the response and then a timeout error for the same request |
| `RpcScenarios.QueueOutlivesStream` | libp2p/src/rpc/handler.rs:577-585 | a run from the start drops a stream with two responses waiting, which stay queued on every continuation |
| `RpcHandlerClass.RpcHandler.constructor` | libp2p/src/rpc/handler.rs:192-214 | a new handler is the start configuration |
| `RpcHandlerClass.RpcHandler.InjectFullyNegotiatedInbound` | libp2p/src/rpc/handler.rs:261-291 | is one step of the machine: a goodbye is only reported, else a stream under a new id with a timer, and the request reported |
| `RpcHandlerClass.RpcHandler.InjectFullyNegotiatedOutbound` | libp2p/src/rpc/handler.rs:293-326 | is one step of the machine, and the dial count does not underflow |
| `RpcHandlerClass.RpcHandler.SendRequest` | libp2p/src/rpc/handler.rs:238-242 | appends to the dial queue |
| `RpcHandlerClass.RpcHandler.InjectEvent` | libp2p/src/rpc/handler.rs:330-403 | is one step of the machine |
| `RpcHandlerClass.RpcHandler.Respond` | libp2p/src/rpc/handler.rs:340-391 | the stream and its queue change as the machine says; the poisoned arm is not reached |
| `RpcHandlerClass.RpcHandler.InjectDialUpgradeError` | libp2p/src/rpc/handler.rs:405-433 | is one step of the machine: a retry below the limit, else a pending error |
| `RpcHandlerClass.CloseStream` | libp2p/src/rpc/handler.rs:144-185 | a timed-out stream closes, sends a timeout and closes, or gets a timeout and a termination queued; the poisoned arm is not reached |
| `RpcHandlerClass.InsertDelay` | libp2p/src/rpc/handler.rs:278-281 | a timer is filed under a key not in use |
| `RpcHandlerClass.RpcHandler.Poll` | libp2p/src/rpc/handler.rs:439-740 | walks a path of the machine and returns exactly the event handed out along it; a pending error goes first, then a queued event, then the phases in their order; when nothing is ready, every stream has been polled and a possible dial made |
| `RpcHandlerClass.RpcHandler.ExpireInboundStreams` | libp2p/src/rpc/handler.rs:498-516 | walks timer expiries only; no stream is added or dropped; ends |
| `RpcHandlerClass.RpcHandler.ExpireInboundStream` | libp2p/src/rpc/handler.rs:503-515 | is one expiry step, and the timer is gone |
| `RpcHandlerClass.RpcHandler.PollStreams` | libp2p/src/rpc/handler.rs:519-739 | walks the remaining phases in their order; when nothing is ready, every stream has been polled |
| `RpcHandlerClass.RpcHandler.PollOutbound` | libp2p/src/rpc/handler.rs:623-739 | walks the outbound phases; when nothing is ready, every outbound stream has been polled and a possible dial made |
| `RpcHandlerClass.RpcHandler.PollDial` | libp2p/src/rpc/handler.rs:726-739 | dials exactly when something is queued and the count is below the limit |
| `RpcHandlerClass.RpcHandler.DriveInboundStreams` | libp2p/src/rpc/handler.rs:535-620 | drives every inbound stream unless a send fails; the vacant arm is not reached |
| `RpcHandlerClass.RpcHandler.DriveInboundStream` | libp2p/src/rpc/handler.rs:538-619 | drives one stream until a round takes nothing more out of its queue; ends, with the queue length as measure |
| `RpcHandlerClass.RpcHandler.DriveInboundOnce` | libp2p/src/rpc/handler.rs:541-618 | one round is one step of the machine, and it repeats exactly when a queued response was taken |
| `RpcHandlerClass.RpcHandler.MoveInbound` | libp2p/src/rpc/handler.rs:543-615 | the arms of the inbound match do what the machine says; the poisoned arm is not reached |
| `RpcHandlerClass.RpcHandler.MoveSending` | libp2p/src/rpc/handler.rs:547-587 | the arm of a stream with a send under way does what the machine says |
| `RpcHandlerClass.DriveShrinks` | libp2p/src/rpc/handler.rs:538-619 | driving a stream drops no other, never lengthens its queue, and shortens it when a response is taken |
| `RpcHandlerClass.RpcHandler.DropInbound` | libp2p/src/rpc/handler.rs:577-581 | the stream goes, and its timer with it, which must be live |
| `RpcHandlerClass.RpcHandler.ApplyQueuedResponses` | libp2p/src/rpc/handler.rs:744-769 | the first queued response goes onto the stream and off the queue; a termination closes; with none the stream is idle |
| `RpcHandlerClass.RpcHandler.DriveOutboundStreams` | libp2p/src/rpc/handler.rs:623-723 | polls every outbound stream once unless one has an event; the vacant arm is not reached |
| `RpcHandlerClass.RpcHandler.DriveOutboundOnce` | libp2p/src/rpc/handler.rs:624-722 | one round is one step of the machine |
| `RpcHandlerClass.RpcHandler.MoveOutbound` | libp2p/src/rpc/handler.rs:626-719 | the arms of the outbound match do what the machine says, on a live timer; the poisoned arm is not reached |
| `RpcHandlerClass.RpcHandler.DropOutboundStream` | libp2p/src/rpc/handler.rs:663-665 | the stream and its live timer go |
| `Keys.ListRender` | ipfs/datastore/src/key.rs:226-232 | the component list of a rendered key is the one it was rendered from |
| `Keys.RenderList` | ipfs/datastore/src/key.rs:226-232 | a canonical key is the rendering of its own component list |
| `Keys.NewCanonical` | ipfs/datastore/src/key.rs:102-121 | every new key is canonical, and a canonical key is kept |
| `Keys.NewJoined` | ipfs/datastore/src/key.rs:339-341 | a key made from joined components is the key with those components |
| `Keys.ChildConcat` | ipfs/datastore/src/key.rs:356-365 | a child concatenates the component lists; the unchecked construction never panics |
| `Keys.ParentDrops` | ipfs/datastore/src/key.rs:334-343 | the parent drops the last component |
| `Keys.ParentOfChild` | ipfs/datastore/src/key.rs:334-343 | the parent undoes a child of one component |
| `Keys.ReverseInvolution` | ipfs/datastore/src/key.rs:209-213 | reversing reverses the component list, and twice gives the key back |
| `Keys.AncestorIffPrefix` | ipfs/datastore/src/key.rs:376-388 | the byte test holds exactly when one component list is a proper prefix of the other |
| `Keys.KeyOrder` | ipfs/datastore/src/key.rs:35-41 | the order is total, agrees with equality, and puts ancestors first |
| `Keys.KeyOrderAt` | ipfs/datastore/src/key.rs:35-41 | keys that differ first in one component are ordered as those components are, byte-wise ascending |
| `Keys.LexicalCleanMeetsContract` | ipfs/datastore/src/key.rs:102-114 | lexical path cleaning has the two properties relied on of path cleaning, for every rooted path |
| `Stores.MapDataStore.constructor` | ipfs/datastore/src/impls/map.rs:18-20 | a new map store is empty |
| `Stores.MapDataStore.Get` | ipfs/datastore/src/impls/map.rs:37-46 | the value under the key, or not found |
| `Stores.MapDataStore.Has` | ipfs/datastore/src/impls/map.rs:48-53 | whether the key is there |
| `Stores.MapDataStore.Size` | ipfs/datastore/src/impls/map.rs:55-64 | the length of the value under the key, or not found |
| `Stores.MapDataStore.Put` | ipfs/datastore/src/impls/map.rs:68-75 | is a map update |
| `Stores.MapDataStore.Delete` | ipfs/datastore/src/impls/map.rs:77-83 | is a map removal |
| `Stores.InvertConvert` | ipfs/datastore/src/impls/transform.rs:417-435 | converting never panics, and inverting gives the key back exactly when the prefix is the root or the key is not |
| `Stores.InvertPanicIff` | ipfs/datastore/src/impls/transform.rs:422-434 | inverting panics exactly on the keys that are not below a prefix other than the root |
| `Stores.ConvertInjective` | ipfs/datastore/src/impls/transform.rs:418-420 | different keys are converted to different keys |
| `Stores.ConvertList` | ipfs/datastore/src/impls/transform.rs:418-420 | converting prepends the components of the prefix |
| `Stores.ConvertRange` | ipfs/datastore/src/impls/transform.rs:418-420 | converted keys are exactly the prefix and the keys below it |
| `Stores.PutIsMapUpdate` | ipfs/datastore/src/impls/transform.rs:82-99 | a write or removal through a prefixed store is a map update of what that store shows, for every other key |
| `Stores.PrefixesDisjoint` | ipfs/datastore/src/impls/transform.rs:82-99 | stores under prefixes neither of which lies at or below the other never see each other's writes |
| `Stores.PrefixesDisjointIff` | ipfs/datastore/src/impls/transform.rs:418-420 | two prefixes share no key exactly when neither lies at or below the other |
| `Stores.InvertJoined` | ipfs/datastore/src/impls/transform.rs:422-434 | off the root, cutting the prefix off a joined key gives the key, without a panic |
| `Stores.TransformDataStore.constructor` | ipfs/datastore/src/impls/transform.rs:413-415 | a transformed store has the given prefix and store |
| `Stores.TransformDataStore.ConvertKey` | ipfs/datastore/src/impls/transform.rs:418-420 | converts without panicking |
| `Stores.TransformDataStore.Get` | ipfs/datastore/src/impls/transform.rs:57-63 | what the store shows under the key, or not found, naming the converted key |
| `Stores.TransformDataStore.Has` | ipfs/datastore/src/impls/transform.rs:65-71 | whether the store shows the key |
| `Stores.TransformDataStore.Size` | ipfs/datastore/src/impls/transform.rs:73-79 | the length of what the store shows under the key, or not found, naming the converted key |
| `Stores.TransformDataStore.Put` | ipfs/datastore/src/impls/transform.rs:83-90 | the store shows the value under the key and everything else as before; keys outside the prefix are untouched |
| `Stores.TransformDataStore.Delete` | ipfs/datastore/src/impls/transform.rs:92-98 | the store no longer shows the key and shows everything else as before; keys outside the prefix are untouched |
| `Batches.CoalesceAgrees` | ipfs/datastore/src/impls/basic.rs:62-79 | laying the last operation on each key over a store equals applying all operations in turn |
| `Batches.BatchEquivalence` | ipfs/datastore/src/impls/basic.rs:81-92 | committing the coalescing map in any iteration order, replaying the log, and applying the operations directly give the same store |
| `Batches.RetryConverges` | ipfs/datastore/src/impls/basic.rs:82-91 | a commit that failed part-way and is repeated, even after further writes, ends in the store that all writes applied to the original give |
| `Batches.NoChangeIff` | ipfs/datastore/src/impls/basic.rs:84-87 | an operation leaves a store as it was exactly when the value, or the absence, is there already |
| `Batches.OverlayIdentityIff` | ipfs/datastore/src/impls/basic.rs:83-88 | a batch leaves a store as it was exactly when each of its operations does |
| `Batches.WrittenIff` | ipfs/datastore/src/impls/basic.rs:192-209 | any sequence of completed writes leaves a store as it was exactly when the last one on each key does |
| `Batches.FailedCommitIff` | ipfs/datastore/src/impls/basic.rs:192-201 | a commit that failed after n writes of any iteration order has left the store as it was exactly when each of the n does |
| `Batches.DiscardRestoresIff` | ipfs/datastore/src/impls/basic.rs:192-209 | with single writes that fail cleanly, discarding after a failed commit restores the store, whatever the order and the place of the failure, exactly when at most one key is batched or the batch changes nothing |
| `Batches.DiscardLeavesWrite` | ipfs/datastore/src/impls/basic.rs:192-209 | with two puts and a failure between them, the first stays in the store |
| `Batches.FallibleStore.Apply` | ipfs/datastore/src/impls/basic.rs:84-87 | a single write succeeds, or fails and leaves the store or any value under its own key |
| `Batches.BasicBatchDataStore.constructor` | ipfs/datastore/src/impls/basic.rs:139-147 | a new batch is empty |
| `Batches.BasicBatchDataStore.Put` | ipfs/datastore/src/impls/basic.rs:173-180 | records a put as the latest operation on its key |
| `Batches.BasicBatchDataStore.Delete` | ipfs/datastore/src/impls/basic.rs:182-188 | records a delete as the latest operation on its key |
| `Batches.BasicBatchDataStore.Commit` | ipfs/datastore/src/impls/basic.rs:192-201 | on success, after any number of failures, the store is the original with every batched write applied in turn, and the batch is empty; a failure has written the beginning of some iteration order, and can be repeated |
| `Batches.BasicBatchDataStore.RecordFailure` | ipfs/datastore/src/impls/basic.rs:84-87 | what a failed commit wrote is the beginning of an iteration order and at most a torn value under the next key |
| `Batches.BasicBatchDataStore.Discard` | ipfs/datastore/src/impls/basic.rs:204-209 | the batch is empty; the store is the original with what failed commits wrote, and the original exactly when the last of these writes on each key changes nothing |
| `RocksBatches.DBTransaction.constructor` | ipfs/datastore-rocksdb/src/rocks/transaction.rs:50-61 | a new transaction is an empty log |
| `RocksBatches.DBTransaction.Put` | ipfs/datastore-rocksdb/src/rocks/transaction.rs:64-70 | appends a put to the log |
| `RocksBatches.DBTransaction.Delete` | ipfs/datastore-rocksdb/src/rocks/transaction.rs:73-78 | appends a delete to the log |
| `RocksBatches.DBTransaction.Clear` | ipfs/datastore-rocksdb/src/rocks/transaction.rs:81-83 | empties the log |
| `RocksBatches.Database.Write` | ipfs/datastore-rocksdb/src/rocks/mod.rs:269-298 | a successful write applies the whole log in its order, any other changes no value; it panics exactly when open and given an unknown column; the bytes are counted |
| `RocksBatches.TotalBytesMeaning` | ipfs/datastore-rocksdb/src/rocks/mod.rs:279-291 | the bytes of a transaction are those of its keys and of the values put |
| `RocksBatches.ColumnLog` | ipfs/datastore-rocksdb/src/lib.rs:239-271 | replaying a recorded log in the column is applying its operations to what the column holds, as the coalescing batch does |
| `RocksBatches.OtherColumns` | ipfs/datastore-rocksdb/src/lib.rs:388-392 | replaying a recorded log touches no other column |
| `RocksBatches.RocksDBTxnDataStore.constructor` | ipfs/datastore-rocksdb/src/lib.rs:166-174 | a new transaction store has recorded nothing |
| `RocksBatches.RocksDBTxnDataStore.Put` | ipfs/datastore-rocksdb/src/lib.rs:348-359 | records a put |
| `RocksBatches.RocksDBTxnDataStore.Delete` | ipfs/datastore-rocksdb/src/lib.rs:361-370 | records a delete |
| `RocksBatches.RocksDBTxnDataStore.Commit` | ipfs/datastore-rocksdb/src/lib.rs:373-379 | on success the column is what it was with every recorded write applied in turn and the record is empty; otherwise the database and the record are unchanged; other columns never change |
| `RocksBatches.RocksDBTxnDataStore.Discard` | ipfs/datastore-rocksdb/src/lib.rs:381-386 | the record is empty, and the database is not touched |
| `Tipsets.BlockOrder` | primitives/tipset/src/tipset.rs:45-54 | the comparison is total and transitive, and only blocks of one cid precede each other both ways |
| `Tipsets.TicketPreorder` | primitives/tipset/src/tipset.rs:45-54 | the comparison is what a sort demands of it |
| `Tipsets.Canonical` | primitives/tipset/src/tipset.rs:40-83 | without cid collisions, every permutation of the blocks sorts to the same blocks and gives the same outcome |
| `Tipsets.ParentsAccepted` | primitives/tipset/src/tipset.rs:66-73 | the parents check passes exactly prefixes of the first block's parents, and panics exactly on proper extensions of them |
| `Tipsets.BuiltIff` | primitives/tipset/src/tipset.rs:56-83 | a tipset is built exactly when there are blocks, of one height, with parents that are prefixes of the first block's; it holds the sorted blocks, their cids in order and the height |
| `Tipsets.PanicIff` | primitives/tipset/src/tipset.rs:58-76 | construction panics exactly when, among the sorted blocks, the first that fails a check has the right height and parents that go on past the first block's |
| `Tipsets.CheckPanics` | primitives/tipset/src/tipset.rs:58-76 | the same from any block on |
| `Tipsets.FirstFailure` | primitives/tipset/src/tipset.rs:58-76 | the first block that fails a check decides the outcome: both heights, the first parent that differs, expected and found, or the panic |
| `Tipsets.BlocksInOrder` | primitives/tipset/src/tipset.rs:45-54 | an earlier block has the smaller ticket, byte-wise, or the same ticket and no larger cid, and the key lists the cids so |
| `Tipsets.LongerParentsPanic` | primitives/tipset/src/tipset.rs:66-67 | two blocks in sorted order, the second with parents that go on past the first's, make construction panic |
| `Tipsets.New` | primitives/tipset/src/tipset.rs:40-83 | the outcome is that of validating some sorted permutation of the input |
| `Tipsets.MinTicketBlock` | primitives/tipset/src/tipset.rs:126-134 | the first block with the least ticket; the first block when the blocks are sorted |
| `IpldJson.KeyLessOrder` | ipld/src/value/map.rs:37-47 | map keys are strictly ordered by length, then byte-wise: connected, transitive, irreflexive |
| `IpldMeaning.KeyLessMeaning` | ipld/src/value/map.rs:37-47 | a key comes first when it is shorter, or as long and smaller at the first byte that differs |
| `IpldJson.PrintParse` | ipld/src/value/mod.rs:188-206 | parsing the printed tree gives back every well-formed value without a reserved shape |
| `IpldJson.PrintParseIff` | ipld/src/value/mod.rs:312-355 | parsing the printed tree gives the value back exactly when no map of a reserved shape is in it at any depth |
| `IpldJson.ParsedIsFree` | ipld/src/value/mod.rs:312-354 | every value parsed from any tree has sorted maps and no reserved shape at any depth |
| `IpldJson.ParsePrintParse` | ipld/src/value/mod.rs:298-354 | parsing what was printed from a parsed value gives that value again |
| `IpldJson.ParseBytesShape` | ipld/src/value/bytes.rs:69-77 | the printed shape of bytes is read by the reserved-shape rule |
| `IpldJson.InsertSorted` | ipld/src/value/mod.rs:320-324 | inserting an entry keeps the map sorted and brings in nothing but the entry |
| `IpldJson.InsertLast` | ipld/src/value/mod.rs:320-324 | inserting a key above all others appends it |
| `IpldJson.Visit` | ipld/src/value/mod.rs:219-296 | the visitor computes the parse of the tree |
| `IpldJson.VisitSeq` | ipld/src/value/mod.rs:299-310 | the loop collects the parsed elements or the first error |
| `IpldJson.VisitMap` | ipld/src/value/mod.rs:313-354 | the loop collects the parsed entries, the last of a repeated key winning, or the first error; then the reserved shapes are read |
| `IpldMeaning.FindInserted` | ipld/src/value/mod.rs:322-324 | inserting an entry is a map update |
| `IpldMeaning.EntriesMeaning` | ipld/src/value/mod.rs:320-324 | members are read exactly when each is; the map has under each name the value of the last member of that name |
| `IpldMeaning.MapKeys` | ipld/src/value/mod.rs:320-324 | a key is in the map exactly when a member has that name |
| `IpldMeaning.EntriesFailure` | ipld/src/value/mod.rs:322 | the first member that is not read decides the error |
| `IpldMeaning.ListMeaning` | ipld/src/value/mod.rs:299-310 | elements are read exactly when each is, each in its place |
| `IpldMeaning.ListFailure` | ipld/src/value/mod.rs:305 | the first element that is not read decides the error |
| `IpldMeaning.PrintMeaning` | ipld/src/value/mod.rs:193-204 | every value is printed as its tree: scalars as they are, elements and entries in order, bytes and links as the reserved shapes |
| `IpldMeaning.ObjectMeaning` | ipld/src/value/mod.rs:326-353 | an object of a reserved shape becomes a link or bytes or the error of its text, and any other object the map of its entries |
| `Base32.RoundTrip` | primitives/address/src/address.rs:251-259 | decoding inverts encoding for every byte string, with the length of the text |
| `Base32.Canonical` | primitives/address/src/address.rs:257-259 | case does not matter to decoding, and encoding what was decoded gives the text in lower case |
| `Base32.DecodedShape` | primitives/address/src/address.rs:257-259 | a decodable text of n symbols holds 5n/8 bytes and starts with an ASCII symbol |
| `Base32.Alphabet` | primitives/address/src/address.rs:251-255 | the symbols are those of table 3 of RFC 4648 in lower case |
| `Base32.OneByteExample` | primitives/address/src/address.rs:251-255 | the one-byte test vector of section 10 of RFC 4648 |
| `Base32.UngroupGroup` | primitives/address/src/address.rs:251-255 | regrouping bits loses none and fills up with fewer than a group of zeros |
| `Base32.GroupUngroup` | primitives/address/src/address.rs:257-259 | grouping inverts ungrouping, also with the filling cut off |
| `Decimal.ParsePrint` | primitives/address/src/address.rs:216 | parsing a printed 64-bit number gives it back |
| `Decimal.NumeralParsed` | primitives/address/src/address.rs:216 | a sign, zeros and the digits of a 64-bit number parse to the number |
| `Decimal.ParsedNumeral` | primitives/address/src/address.rs:216 | whatever parses to a 64-bit number is a sign, zeros and its digits |
| `Decimal.U64Length` | primitives/address/src/lib.rs:41-42 | a printed 64-bit number has at most twenty digits |
| `Addresses.DecodeVarint` | primitives/address/src/address.rs:50-54 | decoding the varint of every 64-bit id gives the id back |
| `Addresses.BytesRoundTrip` | primitives/address/src/address.rs:78-84 | the byte form of every proper address reads back as the address |
| `Addresses.BytesReadBack` | primitives/address/src/address.rs:115-120 | whatever bytes read as an address are its byte form |
| `Addresses.BytesRefusedIff` | primitives/address/src/address.rs:78-84 | which bytes are refused, and for which reason |
| `Addresses.CheckedRoundTrip` | primitives/address/src/address.rs:128-151 | payload and checksum in base32 pass the check and give the payload back |
| `Addresses.TextRoundTrip` | primitives/address/src/address.rs:153-234 | for every id and every 20- or 48-byte payload, the text has 3 to 86 characters and parses to the address |
| `Addresses.TextContents` | primitives/address/src/address.rs:153-182 | the text starts with f or t for the network and the digit of the protocol; the rest is the id, or the base32 of the payload and the checksum over the protocol's number and the payload |
| `Addresses.IdText` | primitives/address/src/address.rs:156-167 | the text of any id address that prints parses to the id in its shortest form |
| `Addresses.OtherNetwork` | primitives/address/src/address.rs:192-199 | on the other network the text is refused as a mismatch |
| `Addresses.TextInjective` | primitives/address/src/address.rs:153-182 | different proper addresses have different texts |
| `Addresses.ParsedIsProper` | primitives/address/src/address.rs:187-234 | whatever text parses, the address is a proper one |
| `Addresses.ParsedIffProper` | primitives/address/src/address.rs:187-234 | some text parses to an address exactly when it is a proper one |
| `Addresses.NewIffParsed` | primitives/address/src/address.rs:27-47 | what the constructor makes is what some text parses to: always for a checksummed protocol, for an id exactly when the payload is the varint of a word |
| `Addresses.UnreachableId` | primitives/address/src/address.rs:34 | the constructor makes an id address of an empty payload, which no text parses to |
| `Addresses.IdTextIff` | primitives/address/src/address.rs:211-220 | a text parses to an id exactly when it is the network, a zero, and at most twenty bytes of an optional plus sign, zeros and the digits of the id |
| `Addresses.CheckedTextIff` | primitives/address/src/address.rs:187-234 | a text parses to a checksummed address exactly when it has the prefix of the network and is that address's text up to case |
| `Addresses.RefusedIff` | primitives/address/src/address.rs:187-234 | where parsing does not panic, which texts are refused for their length, network, protocol or base32 |
| `Addresses.CheckRefusedIff` | primitives/address/src/address.rs:133-145 | which decodable texts are refused for their payload, and which for their checksum |
| `Addresses.CheckedPanicIff` | primitives/address/src/address.rs:133-134 | the checksum split panics exactly on a decodable text of fewer than seven symbols |
| `Addresses.ParsePanicIff` | primitives/address/src/address.rs:187-234 | parsing panics exactly when a cut falls inside a character or the part after a checksummed protocol is base32 of fewer than seven symbols |
| `Addresses.WideCharacterPanics` | primitives/address/src/address.rs:192-201 | a two-byte character first, or right after the network, makes parsing panic |
| `Addresses.ShortTextPanics` | primitives/address/src/address.rs:133-134 | parsing panics on the text of every one to three bytes under the first protocol |
| `Wallets.NewKey` | wallet/src/wallet.rs:30-36 | a key made has a proper address that is no id, and the kind asked for |
| `Wallets.KeyRebuilt` | wallet/src/wallet.rs:30-69 | a key is rebuilt from its own info |
| `Wallets.NameInjective` | wallet/src/wallet.rs:204-207 | store names start with the prefix, are never the default's name, and differ for different addresses |
| `Wallets.StepAgrees` | wallet/src/wallet.rs:201-304 | every import, key generation and default setting, also one that aborts, keeps store and memory in agreement |
| `Wallets.RunAgrees` | wallet/src/wallet.rs:152-157 | after every run from an empty store, memory and store agree |
| `Wallets.RunMirrored` | wallet/src/wallet.rs:201-304 | after every run, the prefixed entries are exactly the keys in memory with their infos, and the default, if any, has a held address |
| `Wallets.DefaultGot` | wallet/src/wallet.rs:256-304 | the default set is the default got, and the first key generated becomes the default |
| `Wallets.ExportImport` | wallet/src/wallet.rs:193-216 | what one wallet exports any wallet imports as the same key under the same address |
| `Wallets.MadeIsHeld` | wallet/src/wallet.rs:201-304 | a key that an import or a generation makes is held in memory and store under the address answered; nothing else is added, and no other key changes |
| `Wallets.OtherCallsAddNothing` | wallet/src/wallet.rs:201-304 | failed calls change nothing, and aborted ones and setting the default add no address |
| `Wallets.HeldAreGiven` | wallet/src/wallet.rs:201-304 | after every run the addresses held are exactly those answered by imports and generations |
| `Wallets.DefaultChanges` | wallet/src/wallet.rs:256-304 | the default changes only when it is set to a held key, or by a generation while there is none |
| `Wallets.KeyAddress` | wallet/src/wallet.rs:30-69 | of which kinds keys are made, and what their addresses are made of |
| `Wallets.NameText` | wallet/src/wallet.rs:13-14 | the names of the store entries |
| `Wallets.ImportKeepsDefaultIff` | wallet/src/wallet.rs:201-216 | an import keeps the default a held key's info exactly when it does not put another private key under the default's address |
| `Wallets.RunDefaultHeld` | wallet/src/wallet.rs:201-304 | without address collisions, the default is a held key's info after every run |
| `Wallets.DefaultLeftBehind` | wallet/src/wallet.rs:201-216 | with two keys of one address, a run of two calls leaves a default that is no held key's info |
| `Wallets.DefaultHeldIff` | wallet/src/wallet.rs:201-304 | the default is a held key's info after every run exactly when no two keys share an address |
| `Wallets.ListedCounts` | wallet/src/wallet.rs:229-236 | listing any store names gives each held address as often as its name occurs, and nothing else |
| `Wallets.ListedInOrder` | wallet/src/wallet.rs:224-236 | sorted names are listed as addresses in the order of their names |
| `Wallets.ListedOnce` | wallet/src/wallet.rs:219-237 | listing the store gives each held address exactly once, in the order of the names |
| `Wallets.MemKeyStore.constructor` | wallet/src/keystore/memory.rs:13-20 | a new key store is empty |
| `Wallets.MemKeyStore.List` | wallet/src/keystore/memory.rs:25-27 | lists every name once, in any order |
| `Wallets.MemKeyStore.Get` | wallet/src/keystore/memory.rs:29-31 | the info under the name, if any |
| `Wallets.MemKeyStore.Put` | wallet/src/keystore/memory.rs:33-36 | is a map update |
| `Wallets.MemKeyStore.Delete` | wallet/src/keystore/memory.rs:38-41 | is a map removal |
| `Wallets.WalletImpl.constructor` | wallet/src/wallet.rs:152-157 | a new wallet is empty and in agreement |
| `Wallets.WalletImpl.Import` | wallet/src/wallet.rs:201-216 | is one call of the wallet machine, and keeps agreement |
| `Wallets.WalletImpl.GenerateKey` | wallet/src/wallet.rs:276-328 | is one call of the wallet machine, and keeps agreement also when it aborts |
| `Wallets.WalletImpl.SetDefault` | wallet/src/wallet.rs:256-273 | is one call of the wallet machine, and keeps agreement |
| `Wallets.WalletImpl.GetDefault` | wallet/src/wallet.rs:240-253 | never fails: no address, or a held one |
| `Wallets.WalletImpl.ListAddrs` | wallet/src/wallet.rs:219-237 | never fails: each held address exactly once, in the order of the names |
| `Wallets.ParseNames` | wallet/src/wallet.rs:229-236 | the loop computes the listing of the names, with the first error |
| `Wallets.TrimStart` | wallet/src/wallet.rs:231 | takes the prefix off as often as it is there |
| `PieceSizes.UnpaddedValidIff` | primitives/piece/src/size.rs:70-81 | an unpadded size is valid exactly when it is 127 times a power of two |
| `PieceSizes.PaddedValidIff` | primitives/piece/src/size.rs:144-155 | a padded size is valid exactly when it is a power of two of at least 128 |
| `PieceSizes.UnpaddedOfPadded` | primitives/piece/src/size.rs:65-67 | unpadding undoes padding wherever padding does not overflow |
| `PieceSizes.PaddedOfUnpadded` | primitives/piece/src/size.rs:139-141 | padding undoes unpadding exactly off the residue 127 modulo 128 |
| `PieceSizes.ValidSizes` | primitives/piece/src/size.rs:65-81 | every valid unpadded size is 127 times 2^k with k up to 57; padding overflows exactly for k = 57, and else gives a valid padded size that unpads to it |
| `PieceSizes.WidestSize` | primitives/piece/src/size.rs:65-67 | 127 times 2^k fits a word exactly for k up to 57, and its padded size exactly below |
| `PieceSizes.ValidPaddedSizes` | primitives/piece/src/size.rs:139-155 | every valid padded size unpads to a valid unpadded size that pads to it |
| `PieceSizes.RefusedSizes` | primitives/piece/src/size.rs:70-81 | which sizes are refused as too small and which as invalid |

## Left out

- The libp2p swarm, gossip, discovery, sockets and codecs, and the node's `network/` code: input and output around the handler.
- Keep-alive deadlines of the handler: they depend on the wall clock and change no stream, queue or counter.
- The kinds of stream termination: the handler treats them alike, so the model has one.
- Timeouts as durations: a timer may fire whenever it is set, so resetting one changes nothing in the model.
- Wrap-around of the inbound id counter: ids are unbounded integers.
- Runs in which an issued dial is answered more than once: the swarm answers each once, and the dial count would underflow.
- The drop and trace messages of the handler, and shrinking its vectors.
- `find_next` on an empty bit set, where the source underflows: the decoder never calls it there.
- Item widths of the RLE+ codec other than 64 bits, and input that is no strictly increasing list, which its callers never give.
- Path cleaning: what is used of it is a contract that lexical cleaning is proved to meet.
- Key types, names, random keys and the other key accessors: one-branch claims about strings.
- The datastore wrappers that log, delay, fail or only delegate, and the garbage, scrub and disk-usage traits.
- RocksDB opening, repair, columns and statistics other than the bytes written: foreign calls and the file system.
- The standard library's sort is stood for by an insertion sort with the same contract.
- Tipset weights, states, tickets' proofs and CBOR forms.
- CBOR everywhere, and `Bytes` read as JSON outside a value.
- JSON text: number and string syntax, and floats other than as opaque bit patterns; the model works on the tree the serializer is given.
- Key derivation, signing and hashing: arbitrary functions; a serialized private key is assumed to parse to itself.
- The reader-writer lock around the wallet, key stores other than the one in memory, and wallets made with keys that were never stored.
- Id addresses made from raw bytes print and parse to the shortest form of their id; nothing more is promised for them.
- The messages of base32 errors: they are one error in the model.
- Gas prices, parameters, peer management, builtin actors, message pools, JSON-RPC clients and the command line: constants or one-branch claims.
