# Verification of the bridge indexer

A Dafny model of the three parts of the indexer that carry its logic, with proofs about all inputs, all
interleavings and all patterns of failing statements. Check it with `dafny verify dfyconfig.toml`.

**ABI decoder** (`Words`, `AbiTypes`, `AbiDecode`, `AbiLoops`, `AbiEncode`, `AbiRoundTrip`, `AbiSound`,
`AbiAcceptance`, `AbiLaws`, `AbiPanics`, `AbiFixtures`, `Hex`, `Base64`, `Zkgm`, `Items`). The decoder is
written down as functions with the 64-bit arithmetic of the Go code, and its loops as methods proved to
compute these functions. It is proved against the encoder of the Solidity Contract ABI Specification
(section "Formal Specification of the Encoding"): the round trip holds for every well-formed schema and
every value whose encoding fits a Go int, up to nesting 256, beyond which the depth error is the answer.
Whatever the decoder accepts has the type of its schema, wherever its offsets point, and every position it
reaches is a multiple of 32 inside the data: `Located`, the precondition of all its parts. `AbiAcceptance`
says for every schema which data are accepted and which make it panic, in terms of the numbers in the words
and without overflow. On top come the UCS03-ZKGM packets, orders and acknowledgements, and what the indexer
reads from them.

**Transfer lifecycle** (`Transfers`, `Duplicates`, `Lifecycle`, `LifecycleSafety`, `Scan`, `Ancestors`,
`DoneEffects`, `Retry`, `BridgeDatabase`, `RelayerDatabase`, `IndexerTasks`, `ItemEffects`, `Refinement`).
The SQL statements are functions on a table; `Lifecycle` is the state machine of the four concurrent tasks,
one statement a step, over all interleavings, restarts and new relayer rows; `Scan`, `DoneEffects` and
`Retry` say what sequences of statements come to; and the classes `BridgeDB`, `RelayerDB` and `Indexer` are
the source's objects, whose statements may fail at any point (`failures` counts the ones that did).
`Refinement` shows that what these methods make of the table, with failures or without, is reached by steps
of the state machine; `ItemEffects` says what each kind of item does to the table, in terms of the item.

**TTL cache** (`TtlCaches`). The cache class, and the protocol of its callers as steps of threads over a
clock that does not go back, with one registered flight per key.

## Where the code and its promises part

- The bound check of `bytesAt` overflows for lengths near 2^63: `make` or the slice then panics instead of
  an error being returned. `BytesAtExact` gives the exact condition for one byte string, `DecodeExact` for
  every schema, `AckDataPanics` and `PacketDataPanics` for the ones in use, `PanicExample` and `PanicItem`
  inputs. A panic ends the process: the scans stop on such a row, a queue row that panics is never passed
  (`PanicBlocks`), and completeness of `SyncDone` needs that no row in range panics.
- The encoder in `encode_test.go` calls itself the mirror image of the decoder. It is one exactly for the
  values `FixtureTupleAgrees` describes; `PairAndBytes` is a value whose fixture the decoder refuses.
- A struct without members takes no space, but is refused where no whole word is left: at the end of the
  data (`EmptyStruct`, `EmptyStructExample`). Schemas with such structs round-trip exactly for the values
  that `Fits` describes: `RoundTripExact`.
- `syncDone` uses the zero time for "no time yet"; `Oldest` states exactly when its loop still finds the
  minimum, and `OldestOfZeroAndFive` shows a list on which it does not.
- `syncDone` has no ORDER BY. That is harmless for a bridge unless the rows hold both a success and a
  failure for it, or one of them and a row that panics: `OrderIrrelevant`, `OrderDecides`,
  `ContestedExample`.
- A startup whose removal of duplicates failed goes on with them: `DuplicatedStart` is such a start. Hashes
  are unique exactly when the startup removed duplicates, or there were none, or a later restart removed
  them (`RunSafety`); all else holds either way.
- The text of rendered bytes does not always say which bytes they are: the byte 255 and the characters
  `0xff` are stored alike (`RenderCollision`). `RenderedAlike` says exactly which bytes share a text.
- `syncFailed` passes a row whose ancestor update failed, and never retries it: `SyncFailed` says which rows
  had the full effect and which the direct update alone, `LostExactly` when that misses something,
  `LostAncestor` shows such a row.
- `traceFailedAncestor` passes over an id whose parents it cannot read, so a bridge farther away can fail
  while a nearer one stays in flight: `FartherAncestor`. The search is exact in the graph without such ids
  (`TraceFailedAncestor`), and `MissedExactly` says exactly when that makes no difference.
- `Insert` would write a done or failed status without `done_at` or `err_msg`: `InsertKeepsRows`. The parser
  never gives it one.
- `getOrLoad` can return a value that had expired before the call: `ExpiredAnswer` is a run, and
  `RunHistory` gives the exact condition.
- The comment on `GetInFlightCreatedAt` speaks of bridges not yet done; the statement selects the ones
  neither done nor failed, and the model follows the statement.

## Model

The main results come first.

| member | source | states |
|---|---|---|
| AbiRoundTrip.RoundTrip | internal/tools/ethabi/decode.go:10-73 | without empty structs, decoding the specification's encoding gives the values back, or the depth error exactly when the nesting exceeds 256 |
| AbiRoundTrip.RoundTripExact | internal/tools/ethabi/decode.go:10-73 | with empty structs, the same exactly for the values that fit: a static struct has a whole word left from its position on, an array no more elements than words left; the others are refused |
| AbiAcceptance.DecodeExact | internal/tools/ethabi/decode.go:10-227 | for every schema, nested structs and arrays included, and all data: accepted exactly when every offset points into the data, every length and all heads of an array fit and every word is in range; a panic exactly when all that is read before it is accepted and a length word then overflows; all in exact arithmetic |
| AbiPanics.FlatPanics | internal/tools/ethabi/decode.go:211-227 | for every schema whose fields take one word of the head each, the decoder panics exactly when some field gets to a length word that overflows and all fields before it are accepted |
| AbiPanics.AckTextPanics | internal/indexer/parser.go:427-439 | decodeAckOutcome panics exactly on hex of data whose second word, once padded, leads to a length word that overflows |
| AbiPanics.PacketTextPanics | internal/indexer/parser.go:396-411 | decodePacketData panics exactly when the packet does, or its token order of a known version does |
| AbiLaws.Canonicalise | internal/tools/ethabi/decode.go:10-73 | whatever layout was accepted, re-encoding the values and decoding again gives the same values, exactly when they fit if structs may be empty |
| AbiLaws.Extension | internal/tools/ethabi/decode.go:23-227 | whole words appended to accepted data change nothing |
| AbiFixtures.FixtureTupleAgrees | internal/tools/ethabi/encode_test.go:69-107 | the test encoder gives the specification's encoding exactly for values in which every tuple with a dynamic member has a head of one word per member, empty structs or not |
| Zkgm.LayeredRoundTrip | internal/tools/ethabi/zkgm.go:116-226 | order as operand, packet around it, hex with or without 0x: the two decoding calls recover sender, receiver, tokens and amounts |
| LifecycleSafety.RunMoves | internal/db/bridge.go:151-202 | between any two moments of a run, started after a failed removal of duplicates or a successful one: no hash is lost, one with a done row keeps one, and its best status (done, failed, processing, detected) never gets worse; rows in both moved 0 to 1, 2, 3 or 1 to 2, 3 and kept outcome and tx_in; rows were deleted exactly when duplicates were removed in between and there were any |
| LifecycleSafety.RunSafety | internal/db/bridge.go:151-202 | at every moment of every run: done_at exactly with 2, err_msg exactly with 3, no processing bridge queued, a cause in the history for every outcome, completion time, error text and tx_in; one row per hash exactly when duplicates were removed or there were none |
| LifecycleSafety.RunUnique | internal/indexer/indexer.go:55-73 | once no hash occurs twice, none ever does again and no row is deleted |
| Refinement.DoneRowIsSteps | internal/indexer/sync.go:120-149 | what the scan, or the notification handler, makes of the table for a done row, whichever statements failed and whatever the queries answered, is reached by steps of the state machine that leave all else as it was, the task idle again |
| Refinement.FailedRowsAreSteps | internal/indexer/sync.go:153-208 | so is what the failed scan makes of it for its rows, whichever statements failed: the search becomes steps along a path to the ancestor |
| Refinement.InsertRowsAreSteps | internal/indexer/sync.go:30-47 | so is what inserting queue rows makes of it |
| Scan.OrderIrrelevant | internal/indexer/sync.go:109-149 | every permutation of the rows gives a bridge the same status, unless the rows hold both verdicts for it, or one and a row that panics |
| Scan.OrderDecides | internal/indexer/sync.go:109-149 | otherwise two permutations give it different ones: done and failed, or terminal and still in flight |
| Scan.LiveIsCatchUp | internal/indexer/listener.go:135-154 | the notification handler and the catch-up body make the same table of every row and state |
| Scan.ReplayHarmless | internal/indexer/sync.go:120-149 | scanning rows again that were handled, any of them in any order, changes nothing |
| Duplicates.DedupeCorrect | internal/db/bridge.go:126-149 | exactly one row of each hash stays, untouched, the least of the ranking that `DedupeRanks` spells out; as many rows stay as there are hashes; a second run deletes nothing |
| Duplicates.DedupeRanks | internal/db/bridge.go:72-149 | the row that stays is done if the hash had a done row, else failed if it had a failed one, else processing if it had one; among equal statuses the least id |
| Duplicates.IncrementalIsBatch | internal/db/bridge.go:70-149 | both ways give every hash the same status |
| Retry.RetriedQueue | internal/indexer/sync.go:14-56 | after any runs under any failures, once the cursor is at the end the table is that of one scan without failures |
| Retry.CleanRunsFinish | internal/indexer/sync.go:20-23 | as many runs without failure or panic as there are batches reach that table |
| Retry.PanicBlocks | internal/indexer/sync.go:38-47 | a row that panics stays beyond the cursor in all runs |
| Retry.RetriedFailed | internal/indexer/sync.go:153-208 | over any runs the direct update of all rows up to the cursor was made; as many clean runs as there are batches reach the end |
| IndexerTasks.Indexer.Start | internal/indexer/indexer.go:52-69 | the four parts one after the other, each up to the failures counted, with the tables in between; without failures and panics: no hash occurs twice, the whole queue batch is in, all rows in range are scanned, the failed batch is handled, and every bridge in flight after the queue scan with a write_ack in range is terminal at the end |
| IndexerTasks.Indexer.TraceFailedAncestor | internal/indexer/sync.go:210-242 | a nearest in-flight bridge within 7 parent edges, 0 exactly when there is none, in the graph without the ids whose parents could not be read, as many as parent queries failed; on any graph, each parent list fetched at most once |
| IndexerTasks.Indexer.SyncDone | internal/indexer/sync.go:96-151 | without failures and zero times exactly the relevant rows from a minute before the oldest in-flight bridge on are scanned; if none in range panics, every bridge with a write_ack among them is terminal; with failures the scan has the effect of all statements but the failed ones, and no more bridges than those stay in flight against a write_ack |
| IndexerTasks.Indexer.SyncFailed | internal/indexer/sync.go:153-208 | the cursor stops at the last row whose direct update went through; every row for which no update and no search for an in-flight row failed also failed a nearest in-flight ancestor as far as parents could be read; the others (no more than failures) failed their own bridge and nothing else |
| ItemEffects.AckHandled | internal/indexer/parser.go:131-187 | a write_ack in either message form settles the in-flight bridge of its hash: done at the time of its row, or failed with "ack error" and its text; tx_in becomes the formatted hash unless set or empty; nothing else changes |
| ItemEffects.RecvHandled | internal/indexer/listener.go:135-148 | a packet_recv shows its transaction on the bridge of its hash, also when that is done already; a failed one is left alone |
| ItemEffects.TimeoutHandled | internal/indexer/sync.go:127-129 | a packet_timeout datagram fails the bridge with exactly its timeout and channel, with the refund message; a bridge whose key is in none of them stays |
| ItemEffects.PromiseFailed | internal/indexer/listener.go:282-300 | a failed promise fails a bridge in flight with exactly timeout and channel of its first entry with a timeout, with the message of the row, or nothing if there is none |
| ItemEffects.PacketInserted | internal/indexer/parser.go:270-394 | a routed packet event, sent or received, in either message form, is inserted with its hash, timeout, channel and time, detected, when hash and id are new |
| ItemEffects.InsertedThenTimesOut | internal/indexer/sync.go:127-129 | a bridge inserted from a packet event fails by a packet_timeout of that packet |
| ItemEffects.InsertedThenAcknowledged | internal/indexer/sync.go:131-148 | and is done by a successful write_ack for it, with its time and transaction |
| TtlCaches.RunHistory | internal/server/ttlcache.go:35-58 | over all interleavings: the loads of a key come one at a time, and a value that one answered is stored, once and by its flight, before the next starts, which is strictly later than ttl after both; stored values are loaded ones, returned values are stored ones, and when they are fresh; all calls of a flight get one answer, the entry it stored if it stored one, and an error exactly if its load failed |
| TtlCaches.ExpiredAnswer | internal/server/ttlcache.go:38-57 | a run in which a call gets a value that had expired before it began |
| TtlCaches.NobodyStuck | internal/server/ttlcache.go:42-52 | in every reachable state each call, or the leader of the flight it waits for, can take a step |
| TtlCaches.CallsReturnOnce | internal/server/ttlcache.go:37-58 | in every run the calls of a key that began are those that returned, once each, and those still under way |
| Words.FromToBigEndian | internal/tools/ethabi/encode_test.go:12-16 | reading back a number written in k big-endian bytes gives the number |
| Words.ToFromBigEndian | internal/tools/ethabi/decode.go:123-124 | writing back the number read from bytes gives the bytes, so uint256 decoding loses nothing |
| Words.FromBigEndianConcat | internal/tools/ethabi/decode.go:229-239 | the number of a concatenation from the numbers of its parts |
| Words.WordFitsUint64 | internal/tools/ethabi/decode.go:229-239 | a word holds a number below 2^64 exactly when its first 24 bytes are zero, and then the last 8 bytes hold it |
| Words.AddUint64 | internal/tools/ethabi/decode.go:54 | start + int(offset): the true sum while it is below 2^63, and less than start as soon as it is not |
| Words.RoundUp32Exact | internal/tools/ethabi/decode.go:241-246 | the least multiple of 32 not below the argument, or 0 exactly when the argument is 0 or above 2^64 - 32 |
| AbiTypes.StaticSizeIsLeaves | internal/tools/ethabi/types.go:71-91 | a well-formed field has a size exactly when it is static, and it is one word per leaf |
| AbiTypes.SlotSize | internal/tools/ethabi/decode.go:36-44 | a dynamic field takes one word of the head whatever it contains |
| AbiTypes.WellFormedStaticSize | internal/tools/ethabi/types.go:71-91 | every well-formed static field has a size, of at least one word when no struct in it is empty |
| AbiDecode.OffsetTarget | internal/tools/ethabi/decode.go:50-57 | an accepted offset leads to a word-aligned position in the buffer, at or after the base |
| AbiDecode.OffsetTargetExact | internal/tools/ethabi/decode.go:50-57 | the wrap check is exact: accepted are the multiples of 32 whose true sum with the base is in the buffer, and no others |
| AbiDecode.BytesAtExact | internal/tools/ethabi/decode.go:211-227 | content when the padded length fits, panic exactly when start + padded length leaves the int range, error otherwise |
| AbiDecode.Product64Wraps | internal/tools/ethabi/decode.go:199-201 | count times element size plus base, as the int congruent to the true value modulo 2^64 |
| AbiEncode.PadTo32 | internal/tools/ethabi/zkgm.go:252-259 | the data, then the fewest zero bytes that make whole words |
| AbiEncode.EncodeLength | internal/tools/ethabi/types.go:69-91 | an encoding is whole words, and that of a static value has exactly the size the decoder takes from the schema |
| AbiEncode.EncodeTupleLength | internal/tools/ethabi/types.go:69-91 | a tuple is as long as its heads and tails together, and heads alone when static |
| AbiEncode.MemberFits | internal/tools/ethabi/decode.go:49-62 | the encoding of every dynamic member is one of the parts its tuple's tails are made of |
| AbiRoundTrip.TupleAlwaysFits | internal/tools/ethabi/decode.go:100-103 | without empty structs every value fits |
| AbiRoundTrip.TupleRoundTrip | internal/tools/ethabi/decode.go:23-73 | the same for a tuple encoded anywhere in a buffer, at any depth, with empty structs or without |
| AbiRoundTrip.FieldsRoundTrip | internal/tools/ethabi/decode.go:32-72 | heads at the cursor and tails at the running offset are read back member by member |
| AbiRoundTrip.SlotRoundTrip | internal/tools/ethabi/decode.go:49-70 | one head slot, inline or through its offset, is read back |
| AbiRoundTrip.ValueRoundTrip | internal/tools/ethabi/decode.go:75-98 | a dynamic value is read back from its tail |
| AbiRoundTrip.StaticRoundTrip | internal/tools/ethabi/decode.go:100-152 | a static value, inline structs included, is read back where it fits |
| AbiRoundTrip.ArrayRoundTrip | internal/tools/ethabi/decode.go:154-209 | an array of static or dynamic elements is read back, or refused exactly when its elements do not fit |
| AbiRoundTrip.ElemsAreFields | internal/tools/ethabi/decode.go:174-208 | an array body decodes as the tuple of as many equal fields |
| AbiRoundTrip.BytesRoundTrip | internal/tools/ethabi/decode.go:211-227 | a byte string of any length is read back without its padding |
| AbiSound.DecodeSound | internal/tools/ethabi/decode.go:10-73 | for every schema and input, a success has the schema's type and nests at most 256 deep; a panic has its cause in some word of the data, which `DecodeExact` says exactly |
| AbiSound.TupleSound | internal/tools/ethabi/decode.go:23-73 | the same for a tuple at any position and depth |
| AbiSound.ValueSound | internal/tools/ethabi/decode.go:75-98 | the same for a value that an offset leads to |
| AbiSound.StaticSound | internal/tools/ethabi/decode.go:100-152 | ranges of the integers and 20-byte addresses; the word of a bool is 0 or 1 |
| AbiSound.ArraySound | internal/tools/ethabi/decode.go:154-209 | an array has as many elements as its length word says, all of the element type |
| AbiSound.BytesSound | internal/tools/ethabi/decode.go:211-227 | an accepted byte string is shorter than the data by at least its length word |
| AbiAcceptance.TupleExact | internal/tools/ethabi/decode.go:23-73 | acceptance and panics of a tuple at any position and depth, exactly |
| AbiAcceptance.FieldsExact | internal/tools/ethabi/decode.go:32-72 | of its fields from a cursor on: one panics exactly when all before it are accepted and it overflows |
| AbiAcceptance.SlotExact | internal/tools/ethabi/decode.go:49-70 | of one head slot, through its offset or in place |
| AbiAcceptance.ValueExact | internal/tools/ethabi/decode.go:75-98 | of a value that an offset leads to |
| AbiAcceptance.StaticExact | internal/tools/ethabi/decode.go:100-152 | of a static value: the ranges of the words are all that matters, and it never panics |
| AbiAcceptance.ArrayExact | internal/tools/ethabi/decode.go:154-209 | of an array: room for its heads, without wrap-around although the code's product may wrap, and then its elements one by one |
| AbiPanics.OrderPanics | internal/tools/ethabi/zkgm.go:198-226 | the same for the token orders of both versions |
| AbiPanics.AckDataPanics | internal/tools/ethabi/zkgm.go:152-162 | acknowledgement data panics exactly when its second word leads to a length word that overflows |
| AbiPanics.PacketDataPanics | internal/tools/ethabi/zkgm.go:116-126 | packet data panics exactly when the instruction it leads to has a version and an opcode and an operand whose length word overflows |
| AbiPanics.PanicItem | internal/indexer/parser.go:158-163 | a write_ack on which reading the item panics |
| AbiLaws.EncodingInjective | internal/tools/ethabi/decode.go:10-73 | different values of a schema without empty structs never share an encoding |
| AbiLaws.StrippedRoundTrip | internal/tools/ethabi/zkgm.go:252-259 | an encoding that lost fewer than 32 trailing zero bytes decodes as before after padTo32 |
| AbiLaws.PanicExample | internal/tools/ethabi/decode.go:219-225 | a length word of 2^63 makes the decoder panic |
| AbiLaws.EmptyStruct | internal/tools/ethabi/decode.go:100-103 | a struct without members is refused exactly where no whole word is left, or below the depth limit |
| AbiLaws.EmptyStructExample | internal/tools/ethabi/decode.go:100-103 | at the end of a tuple its encoding is refused, before a word it is accepted |
| AbiLoops.SumStaticHeadSize | internal/tools/ethabi/types.go:79-87 | the summing loop computes StaticHeadSize, first error included |
| AbiLoops.DecodeWordUint64 | internal/tools/ethabi/decode.go:229-239 | the byte loop accepts exactly the 32-byte words below 2^64 and gives their number |
| AbiLoops.DecodeData | internal/tools/ethabi/decode.go:10-16 | the entry point computes Decode |
| AbiLoops.DecodeTuple | internal/tools/ethabi/decode.go:23-73 | the guards and the cursor loop compute TupleAt |
| AbiLoops.DecodeFields | internal/tools/ethabi/decode.go:32-72 | the loop that fills out and moves the cursor computes FieldsAt |
| AbiLoops.DecodeSlot | internal/tools/ethabi/decode.go:49-70 | following an offset or reading in place computes SlotAt |
| AbiLoops.FollowOffset | internal/tools/ethabi/decode.go:50-57 | the reads and checks of an offset compute OffsetTarget |
| AbiLoops.DecodeValue | internal/tools/ethabi/decode.go:75-98 | the dispatch computes ValueAt, nil schemas included |
| AbiLoops.DecodeStatic | internal/tools/ethabi/decode.go:100-152 | the reads, the address byte loop and the copies compute StaticValue |
| AbiLoops.DecodeArray | internal/tools/ethabi/decode.go:154-209 | length and bound checks and the element loop compute ArrayAt |
| AbiLoops.DecodeElems | internal/tools/ethabi/decode.go:174-208 | the element loop computes ElemsAt |
| AbiFixtures.FixtureAgrees | internal/tools/ethabi/encode_test.go:49-66 | the same for a single value |
| AbiFixtures.FixtureLength | internal/tools/ethabi/encode_test.go:18-116 | right or wrong, a fixture has the length of the encoding |
| AbiFixtures.NoEmptyCountable | internal/tools/ethabi/encode_test.go:69-107 | without empty structs every value whose encoding has a length is countable, so the law covers all of them |
| AbiFixtures.PairAndBytes | internal/tools/ethabi/encode_test.go:8-10 | a struct of two numbers beside a byte string: the decoder refuses the fixture and takes the encoding |
| AbiFixtures.EncodeTupleInLoops | internal/tools/ethabi/encode_test.go:69-107 | the loops over heads, tails and offsets compute the fixture of the tuple |
| AbiFixtures.BuildParts | internal/tools/ethabi/encode_test.go:71-84 | tails are collected in the order of the dynamic members, and each member knows its tail |
| AbiFixtures.SumOffsets | internal/tools/ethabi/encode_test.go:86-92 | offset k is the head size plus the lengths of the tails before tail k |
| AbiFixtures.FillOffsets | internal/tools/ethabi/encode_test.go:93-97 | dynamic members get the offset of their own tail as head, static ones keep theirs |
| Hex.DecodeEncodeHex | internal/tools/ethabi/zkgm.go:247-250 | hex of bytes reads back as the bytes |
| Hex.FromHexRoundTrip | internal/tools/ethabi/zkgm.go:247-250 | with and without the 0x prefix |
| Hex.ReadExactly | internal/tools/ethabi/zkgm.go:247-250 | read are exactly the texts of an even number of hex digits, of either case, and writing gives them back in lower case |
| Hex.CasesAlike | internal/tools/ethabi/zkgm.go:247-250 | upper-case digits read like lower-case ones |
| Zkgm.NoMismatch | internal/tools/ethabi/zkgm.go:116-177 | on every text the only errors are bad hex and ABI data refused with an error: the count and type branches are unreachable; a panic is no error |
| Zkgm.OrderMembers | internal/tools/ethabi/zkgm.go:198-226 | a decoded order is made of the decoded members themselves; the nil and zero fallbacks of asBytes and asBigInt are never used |
| Zkgm.PacketRoundTrip | internal/tools/ethabi/zkgm.go:116-149 | an encoded packet decodes to itself |
| Zkgm.OrderRoundTrip | internal/tools/ethabi/zkgm.go:181-226 | an order of either version, as padded operand, decodes to itself |
| Zkgm.AckRoundTrip | internal/tools/ethabi/zkgm.go:152-177 | an encoded acknowledgement decodes to itself |
| Base64.DecodeEncodeBase64 | internal/indexer/parser.go:462 | base64 of bytes reads back as the bytes |
| Items.TxHashFaithful | internal/indexer/parser.go:453-463 | the formatted hash stands for the same bytes or is the hash itself, and is empty exactly for an empty hash and for a bare 0x on gno |
| Items.ParsePacketTimeouts | internal/indexer/parser.go:234-268 | the keys of exactly the packet_timeout datagrams of a multicall item, in order |
| Items.NeverBoth | internal/indexer/parser.go:109-268 | no item yields both matching fields and timeouts |
| Items.PromiseRead | internal/indexer/parser.go:189-230 | a promise is read as its first entry with a timeout, batch by batch |
| Items.AckOutcomeOfEncoded | internal/indexer/parser.go:427-439 | an encoded acknowledgement is a success exactly when its 256-bit tag is nonzero; otherwise its content is the error text |
| Items.AckOutcomeExact | internal/indexer/parser.go:427-439 | a failure is hex of data that decodes with a tag of zero; absent text, text that is not hex and data refused with an error are successes |
| Items.RenderFaithful | internal/indexer/parser.go:483-494 | rendered text is printable ASCII: the characters of the bytes up to trailing zero bytes, or hex that reads back as the bytes |
| Items.RenderExactly | internal/indexer/parser.go:483-494 | bytes all from 32 to 126, but for zeros at the end, are kept as their characters; all others become 0x and hex |
| Items.RenderedAlike | internal/indexer/parser.go:483-494 | which bytes share a text: printable ones that agree up to trailing zeros, equal ones, and exactly an unprintable string and the characters of its hex |
| Items.RenderDetermines | internal/indexer/parser.go:483-494 | a text without 0x in front determines the bytes up to trailing zeros |
| Items.RenderCollision | internal/indexer/parser.go:483-494 | one unprintable byte and four characters with the same text |
| Items.DecimalRoundTrip | internal/indexer/parser.go:416-418 | the decimal text of an amount determines the amount |
| Items.BridgeRecord.DecodePacketData | internal/indexer/parser.go:396-421 | all six columns show the order, or none was touched; an error exactly when text that is not empty is refused, another opcode being none; a panic exactly when decoding panics |
| Items.DecodedOperandFits | internal/tools/ethabi/zkgm.go:185 | the operand of a decoded packet can always be padded and decoded again |
| Transfers.MarkProcessingMoves | internal/db/bridge.go:151-157 | the update adds and deletes no row, keeps rows consistent and moves statuses forward only |
| Transfers.MarkDoneMoves | internal/db/bridge.go:163-172 | the same; done_at goes with status 2, tx_in is set once and never to the empty string |
| Transfers.MarkFailedMoves | internal/db/bridge.go:193-202 | the same; err_msg goes with status 3 |
| Transfers.SetTxInMoves | internal/db/bridge.go:178-187 | the same; an existing tx_in stays |
| Transfers.InsertRowMoves | internal/db/bridge.go:97-113 | inserting a detected record adds its id and leaves every other row as it is |
| Duplicates.InsertSingle | internal/db/bridge.go:88-122 | on a table without duplicates Insert has a single outcome |
| Refinement.InsertWrites | internal/db/bridge.go:88-122 | the SELECT and the statement that follows its answer make of the table one of the outcomes of Insert, for a record of any status |
| Duplicates.IncrementalResolves | internal/db/bridge.go:88-122 | inserting records with distinct ids one by one leaves one row per hash, with the status of least priority |
| Duplicates.WinnerRanks | internal/db/bridge.go:72-83 | that status is done if some record of the hash is, else failed, else processing |
| Duplicates.AdvanceRanks | internal/db/bridge.go:88-122 | a row gives its status up only for done, for failed unless done, for processing if detected; nothing else of it changes |
| Duplicates.BatchResolves | internal/db/bridge.go:126-149 | so does having all rows and deduplicating |
| Duplicates.InsertKeepsRows | internal/db/bridge.go:88-122 | Insert keeps every consistent table consistent exactly for records that come as detected or processing |
| LifecycleSafety.TableStep | internal/db/bridge.go:85-202 | every statement of every task keeps rows consistent, moves them only as allowed and adds no second row of a hash; a removal of duplicates leaves one row per hash and loses no hash |
| LifecycleSafety.InsertStep | internal/db/bridge.go:88-122 | the SELECT and the INSERT of Insert, with the steps of other tasks in between, add no second row for a hash |
| LifecycleSafety.DoneStep | internal/indexer/listener.go:160-204 | a row found by hash or key still has that hash or key when it is marked |
| LifecycleSafety.FailedStep | internal/indexer/sync.go:210-242 | what a search in progress has reached is within as many parent levels of its failed row |
| LifecycleSafety.PollStep | internal/indexer/sync.go:58-94 | ids found gone are still gone when they are marked |
| LifecycleSafety.ProcessingStep | internal/indexer/sync.go:58-94 | no step leaves a processing bridge whose id is in the queue |
| LifecycleSafety.QueuedNotProcessing | internal/indexer/sync.go:58-94 | in every run an id is queued exactly from the moment the relayer puts it there until it takes it out, and as long as it is, its bridge is not processing |
| LifecycleSafety.RestartIsStart | internal/indexer/indexer.go:52-69 | a restart at any moment of any run, whatever the tasks were doing, is a start: all laws of runs hold of what follows as of a run of its own |
| LifecycleSafety.HistoryGrows | internal/indexer/indexer.go:14-21 | at every moment the done and the failed table hold what was there at the start and what has come in since |
| LifecycleSafety.NewStatus | internal/indexer/listener.go:160-300 | a new outcome has its cause in the history at that step, and takes completion time or error text from it |
| LifecycleSafety.NewTx | internal/db/bridge.go:159-202 | a new tx_in is the transaction of a done item with the hash, or of a failed item with the key |
| LifecycleSafety.InitialInv | internal/indexer/indexer.go:55-59 | the invariant holds at a start, whatever duplicates there were and whether or not removing them failed; hashes are unique if it did not |
| LifecycleSafety.StepKeepsInv | internal/indexer/indexer.go:71-88 | every step of every task, of the relayer and of a restart keeps the invariant |
| LifecycleSafety.IdsStep | migrations/001_init.sql:2-3 | a row keeps the id and the hash of its queue item |
| LifecycleSafety.NotInsertedAgain | internal/db/bridge.go:88-122 | a row that was deleted as a duplicate is never inserted again |
| LifecycleSafety.RunNeverWorse | internal/db/bridge.go:126-149 | for every row at one moment there is at any later one a row of its hash with its status or a better one: done, then failed, then processing |
| LifecycleSafety.DuplicatedStart | internal/indexer/indexer.go:55-59 | a start after a failed removal of duplicates at which two rows have one hash |
| LifecycleSafety.RunInv | internal/indexer/indexer.go:52-89 | the invariant holds at every moment of every run |
| Scan.CatchUpStatus | internal/indexer/sync.go:127-148 | the status of each bridge after one row, by what the row says about it |
| Scan.ScanKeeps | internal/indexer/sync.go:120-149 | a scan keeps rows, hashes and keys and only moves rows |
| Scan.ScanOutcome | internal/indexer/sync.go:120-149 | after a scan an uncontested bridge has the outcome of the verdicts the scan reached |
| Scan.ContestedExample | internal/indexer/sync.go:109-149 | a bridge whose write_ack and timeout are both among the rows is contested |
| Scan.ScanCompletes | internal/indexer/sync.go:136-148 | when no row panics, a write_ack for its hash anywhere among the rows leaves a bridge terminal |
| DoneEffects.ScanMadeDecides | internal/indexer/sync.go:120-149 | every failed statement of a scan leaves at most one bridge in flight that has a write_ack among the rows |
| DoneEffects.DecidesExactly | internal/indexer/parser.go:131-187 | which rows count as write_acks for a hash: those items in either message form, and promises that say so, for the empty hash |
| DoneEffects.ScanMadeKept | internal/indexer/sync.go:120-149 | whatever fails and whatever the queries answer, a scan keeps rows consistent and only moves them |
| DoneEffects.ScanMadeExact | internal/indexer/sync.go:120-149 | without failures, and with unique hashes and timeout keys, the table is the one of the scan function |
| DoneEffects.ScanIsMade | internal/indexer/sync.go:120-149 | that table is always one a scan can leave |
| DoneEffects.LiveMadeIsCatchUp | internal/indexer/listener.go:135-154 | the handler and the catch-up body can leave the same tables, with the same number of failures |
| Ancestors.WithinIsPath | internal/indexer/sync.go:215-240 | being within k parent edges is having a path of at most k edges |
| Ancestors.WithinClosed | internal/indexer/sync.go:218 | when a level adds nothing, the search may stop |
| Retry.RunKeepsTarget | internal/indexer/sync.go:14-56 | a run of syncQueue, wherever it failed, leaves the table that a full scan would still reach unchanged |
| Retry.FailedRunHandles | internal/indexer/sync.go:153-208 | the failed cursor never goes back nor passes a row whose direct update was not made, with its message |
| Retry.NeverRetried | internal/indexer/sync.go:160-162 | a row the cursor has passed is in no later batch |
| BridgeDatabase.BridgeDB.Insert | internal/db/bridge.go:88-122 | without an error, a new row or an advanced status as the record demands; with one, nothing |
| BridgeDatabase.BridgeDB.DedupeByPacketHash | internal/db/bridge.go:126-149 | the table deduplicated, and the number of deleted rows |
| BridgeDatabase.BridgeDB.MarkProcessing | internal/db/bridge.go:151-157 | the detected ones of the ids become processing |
| BridgeDatabase.BridgeDB.MarkDone | internal/db/bridge.go:163-172 | the table after the update, and matched exactly when an in-flight row had the id |
| BridgeDatabase.BridgeDB.SetTxIn | internal/db/bridge.go:178-187 | the table after the update; an empty hash never fails |
| BridgeDatabase.BridgeDB.MarkFailed | internal/db/bridge.go:193-202 | the table after the update, and matched exactly when an in-flight row had the id |
| BridgeDatabase.BridgeDB.GetCursor | internal/db/bridge.go:208-220 | 0 when unset; an error is reported and not taken for that |
| BridgeDatabase.BridgeDB.SetCursor | internal/db/bridge.go:222-229 | one cursor set, the others unchanged |
| BridgeDatabase.BridgeDB.FindByTimeoutAndChannel | internal/db/bridge.go:234-244 | some in-flight row with the key, or 0 exactly when there is none |
| BridgeDatabase.BridgeDB.FindByPacketHash | internal/db/bridge.go:251-261 | some row with the hash that has not failed, or 0 exactly when there is none |
| BridgeDatabase.BridgeDB.FindAncestor | internal/db/bridge.go:265-278 | some in-flight row among the ids, or 0 exactly when there is none |
| BridgeDatabase.BridgeDB.GetDetectedIDs | internal/db/bridge.go:280-298 | exactly the detected ids |
| BridgeDatabase.BridgeDB.GetInFlightCreatedAt | internal/db/bridge.go:302-321 | exactly the creation times of in-flight rows |
| RelayerDatabase.Batch | internal/indexer/sync.go:20-23 | the first rows beyond the cursor, as many as the limit allows |
| RelayerDatabase.RelayerDB.QueryQueue | internal/indexer/sync.go:20-27 | the batch, or a prefix of it when the iteration broke off |
| RelayerDatabase.RelayerDB.QueryFailed | internal/indexer/sync.go:159-166 | the batch, or a prefix of it when the iteration broke off |
| RelayerDatabase.RelayerDB.QueryQueueIds | internal/indexer/sync.go:64-82 | exactly the ids of the list that are queued |
| RelayerDatabase.RelayerDB.QueryDone | internal/indexer/sync.go:109-118 | every relevant row from a moment on, in no promised order, and no earlier row |
| RelayerDatabase.RelevantRows | internal/indexer/sync.go:109-113 | the LIKE filter keeps every row that handling does anything with |
| RelayerDatabase.RelayerDB.QueryParents | internal/indexer/sync.go:232-237 | the parents of a done row; each query is logged |
| IndexerTasks.Oldest | internal/indexer/sync.go:102-107 | the loop finds the minimum exactly when no time is zero, or the last one is, or one is before zero |
| IndexerTasks.OldestOfZeroAndFive | internal/indexer/sync.go:102-107 | on the times 0 and 5 the loop answers 5 |
| IndexerTasks.Indexer.SyncQueue | internal/indexer/sync.go:14-56 | a prefix of the batch without panicking rows was inserted, and the cursor moved only after all of it; without failures it panics exactly when a row of the batch does |
| IndexerTasks.Indexer.HandleQueue | internal/indexer/listener.go:57-77 | a queue notification does for its row what the scan does, and panics exactly when parsing it does |
| IndexerTasks.Indexer.SyncProcessing | internal/indexer/sync.go:58-94 | exactly the detected bridges that are not queued become processing, or nothing changes |
| IndexerTasks.Indexer.MarkPacketTimeoutFailed | internal/indexer/listener.go:160-178 | some in-flight bridge with the key fails as timed out, if there is one; a failed statement costs exactly that; for all tables |
| IndexerTasks.Indexer.MatchByHash | internal/indexer/sync.go:131-148 | some bridge with the hash that has not failed gets its outcome, or all with it their tx_in; a failed statement costs exactly that; panics exactly when reading the row does; for all tables |
| IndexerTasks.Indexer.MarkWriteAckResult | internal/indexer/listener.go:181-204 | done or failed as the acknowledgement says, with its time, hash and error text |
| IndexerTasks.Indexer.CatchUpRow | internal/indexer/sync.go:127-148 | the loop body of syncDone: timeouts first, then the match, less the statements that failed; the table CatchUp describes when none did and hashes and keys are unique; panics exactly when reading the row does |
| IndexerTasks.Indexer.HandleDone | internal/indexer/listener.go:135-154 | the notification handler, in the other order, can have exactly the same effects for all tables and failures, and panics on the same rows |
| IndexerTasks.Indexer.ScanRows | internal/indexer/sync.go:120-149 | the loop has the effects of the rows before the first that panics, less the statements that failed; it panics exactly when a row does |
| IndexerTasks.Indexer.CollectParents | internal/indexer/sync.go:225-239 | one level of the search: all parents of the ids not visited before, but for those that could not be read |
| IndexerTasks.Indexer.FailRows | internal/indexer/sync.go:169-199 | the loop of it, with what could not be read for each row |
| IndexerTasks.Indexer.FailRow | internal/indexer/sync.go:177-198 | the loop body: own bridge first, then the ancestor as far as parents could be read; own bridge alone when a later statement on the bridge database failed |
| IndexerTasks.LostExactly | internal/indexer/sync.go:186-197 | when a statement failed after the direct update, the effect is complete all the same exactly when there was no in-flight ancestor |
| IndexerTasks.LostAncestor | internal/indexer/sync.go:184-197 | a passed row whose ancestor stays in flight: no later run takes the row up |
| IndexerTasks.MissedExactly | internal/indexer/sync.go:232-237 | when unread parents make no difference: nothing found exactly when there is nothing by them either, a bridge found exactly when none is nearer by them |
| IndexerTasks.FartherAncestor | internal/indexer/sync.go:232-237 | a parent list that cannot be read: the bridge two edges away fails and the one a single edge away stays in flight |
| IndexerTasks.Indexer.HandleFailed | internal/indexer/listener.go:268-300 | the bridge of the row's id, or else an in-flight bridge with the key of its promise, fails, and nothing changes when a statement failed; panics exactly when reading the item does and the id matched nothing |
| IndexerTasks.InsertRowsKeep | internal/indexer/sync.go:30-47 | inserting queue rows adds no second row for a hash and leaves all rows there as they are |
| ItemEffects.NothingInserted | internal/indexer/parser.go:270-394 | a known hash, a known id, or an item that is no routed packet event, inserts nothing |
| ItemEffects.StopsExactly | internal/indexer/parser.go:387-391 | reading a queue row panics exactly for a routed packet event whose data makes decoding panic |
| ItemEffects.CrashesExactly | internal/indexer/parser.go:131-187 | reading a done row panics exactly for a write_ack that is hex of data whose second word leads to an overflowing length |
| ItemEffects.OthersIdle | internal/indexer/parser.go:109-230 | items of all other kinds leave the table alone |
| ItemEffects.ScanReceives | internal/indexer/sync.go:120-149 | after a scan a bridge with a packet_recv among the rows has failed or shows a transaction |
| ItemEffects.ScanTimesOut | internal/indexer/sync.go:120-149 | after a scan a bridge with a packet_timeout of its own key among the rows is terminal |
| ItemEffects.FailedKey | internal/indexer/parser.go:109-230 | the key a failed row is matched by: of the first timed entry of a promise, of a packet event, or zeros for a write_ack |
| ItemEffects.DirectFailed | internal/indexer/listener.go:268-280 | a failed row whose id is a bridge in flight fails that one and no other |
| IndexerTasks.Indexer.SyncRest | internal/indexer/indexer.go:64-69 | the done and the failed part of the startup |
| Refinement.RunGoesOn | internal/indexer/indexer.go:71-88 | steps from the last state of a run make a longer run, for which all the laws of runs hold |
| Refinement.ScanIsSteps | internal/indexer/sync.go:120-149 | a whole scan, up to the first row on which it panics, less the statements that failed, is steps of the state machine |
| Refinement.FailedRowIsSteps | internal/indexer/sync.go:177-198 | own bridge and ancestor of one failed row, or its own bridge alone, are steps of the state machine |
| Refinement.AncestorIsSteps | internal/indexer/sync.go:210-242 | failing an ancestor within 7 edges is a climb along a path to it and one update |
| Refinement.LevelIsSteps | internal/indexer/sync.go:210-242 | the steps of a search that reads the parents of all ids come to the whole of each level, up to the last |
| Refinement.BreakOffIsSteps | internal/indexer/sync.go:14-242 | whatever the tasks are doing, each may break off, alone and with nothing else changed |
| Refinement.NotifiedIsSteps | internal/indexer/listener.go:268-300 | so is what the notification of a failed row makes of the table |
| Refinement.ProcessingIsSteps | internal/indexer/sync.go:58-94 | marking the detected bridges that are not queued is steps of the state machine |
| TtlCaches.TtlCache.Get | internal/server/ttlcache.go:60-69 | the value unless it is missing or the clock is past its expiry |
| TtlCaches.TtlCache.Set | internal/server/ttlcache.go:71-75 | the entry expires ttl after the clock reading, the others are unchanged |
| TtlCaches.TtlCache.GetOrLoad | internal/server/ttlcache.go:37-58 | a leading call, with what other calls left by its second look: a first hit changes nothing, a second one answers what they stored, else the load is answered and stored, or fails and changes nothing |
| TtlCaches.StepKeepsInv | internal/server/ttlcache.go:37-75 | every step of every caller keeps the invariant of the protocol |
| TtlCaches.SpacedKept | internal/server/ttlcache.go:43-46 | a load starts strictly later than ttl after every earlier store of its key |
| TtlCaches.OneAtATimeKept | internal/server/ttlcache.go:42 | a load of a key starts only after the previous one ended |
| TtlCaches.PhasesKept | internal/server/ttlcache.go:42-52 | every step keeps the loads of each key in order: started, ended, and stored if they answered a value |
| TtlCaches.StoredFirstKept | internal/server/ttlcache.go:42-52 | a value that was loaded is stored before the next load of its key starts |
| TtlCaches.ReturnedRightKept | internal/server/ttlcache.go:37-58 | a returned value was stored for its key, and had expired when the call began exactly when the call joined a flight that held it already |
| TtlCaches.ErrorsRightKept | internal/server/ttlcache.go:42-57 | an error is only returned after the load of the flight the call led or waited for has failed |
| TtlCaches.OutcomesKept | internal/server/ttlcache.go:42-57 | what every flight answers fits what it stored or how its load ended |
| TtlCaches.RunInv | internal/server/ttlcache.go:37-75 | the invariant holds at every moment of every run |
| TtlCaches.OnlyStoresChange | internal/server/ttlcache.go:46-51 | only a successful load changes the entries, and only its own key |
| Items.BridgeRecord.constructor | internal/indexer/parser.go:373-385 | the columns of the token order start out empty |
| BridgeDatabase.BridgeDB.constructor | internal/db/bridge.go:64-66 | a database opens with the table and cursors that were stored |
| IndexerTasks.Indexer.constructor | internal/indexer/indexer.go:48-50 | the indexer holds the databases it was given |
| TtlCaches.TtlCache.constructor | internal/server/ttlcache.go:27-33 | a cache starts empty |

## Left out

- HTTP handlers, routing, pagination, summaries, `List` and the count queries: one-branch code.
- PostgreSQL itself, connections, LISTEN/NOTIFY, reconnect timers and logging: a statement is an atomic step
  that happens or fails without effect; a lost connection is a task that gives up or an iteration that
  breaks off.
- JSON decoding: items are an algebraic datatype of what the unmarshalling yields, with `BadEvent` and
  `BadTimeout` for values that do not unmarshal. The LIKE filter of `syncDone` is taken to keep every item
  of the three event kinds.
- Columns of a record that no step of the lifecycle reads (chains, height, tx_out).
- Parse: the chain of the plugin and the channel table enter as the single answer `routed`, and whether the
  plugin is a gno one as the flag `gno`.
- Decode: the parameter `end` is dropped from the functions because it is always the length of the data; the
  methods of `AbiLoops` keep it. Data is required to be shorter than 2^63 - 32 bytes; at that length `pos +
  32` overflows at the end of the data.
- StaticHeadSize: sizes are not wrapped at 2^63, which a schema would need 2^58 fields to reach.
- Cyclic schema pointers, on which the Go code does not terminate: schemas are finite.
- FixtureTupleAgrees: values with a list of 2^58 members or more, which no memory holds, are not covered.
- State: the tasks of `Lifecycle` may take up any row of the history at any time and give up anywhere, so it
  allows more runs than the notification loops and scans produce. That it allows those is `Refinement`.
  Queue ids are never reused, as the sequence of the queue guarantees.
- TraceFailedAncestor: other tasks do not act during the search; between its statements `Lifecycle` lets
  them.
- ScanAll: the same holds of a scan.
- RetriedQueue: the queue does not change between the runs.
- RetriedFailed: the failed table does not change between the runs.
- HandleFailed: live and catch-up handling of failed rows are not compared; they match differently by
  design.
- GetOrLoad: singleflight is one registered flight per key; its panic and Forget paths, and keys that
  `fmt.Sprint` would print alike, are not modelled.
