# Verification of the routing compiler and of what runs on its output

OpenBSW compiles a list of PDU routings into a binary blob on the host and forwards PDUs on the ECU by tables that
it loads from that blob. This project models both sides in Dafny and proves that they fit together: for every routing
list that compiles, what the ECU delivers is what the last routing of every key asks for, on exactly the conditions
listed below. Beside it stand models of the lock-free queue between the two sides of a channel, of the tools around the
build, and of a few third-party functions in the same repository. `dafny verify dfyconfig.toml` checks everything.

The path of a routing, module by module:

- `RoutingTable` and `Channels` number the channels, resolve names and normalise the routings into one sorted table
  (the last routing of a key wins). `Flatten` turns the table into index vectors: prefix sums, parallel vectors and
  group indexes. `Records` decides which vectors go into which record, `BlobFormat` frames and pads records, ends
  them with a checksum and puts them behind one header. `Layout` says with literal codes what stands where in the
  result, and compares a record with the blob that the repository generates for its tests.
- `BlobReader` and `TableReader` are the C++ readers of the format. `RoundTrip` connects both: every blob that the
  compiler writes is accepted, walked record by record to its end, and loaded back to the same vectors.
- `Ecu` holds the adapters, which extract PDUs from received messages or frames on demand; `Router` the round-robin
  router; `LegacyTx` the adapter that rebuilds messages in place. `EndToEnd` and `Frames` relate
  tables to rows; `Reception` is one channel of either kind, `Outgoing` the way out of one channel, `Gateway` the
  whole, and `Bus` what leaves it on a legacy channel: the main results are `Reception.CompiledBlobWorks`,
  `Gateway.GatewayDelivers`, `Gateway.ResetsExactly`, `Outgoing.BlobSendsExactly` and `Bus.BusHoldsDescribed`.
  `Example` applies them to the smallest gateway.
- `MemoryQueue` is the single-producer single-consumer queue that carries messages and PDUs, as a state machine
  whose steps are single memory accesses: what is released is what was published, and both sides make progress.
- `Visualize` (a reachability search with a cycle warning), `Tracing` (the trace recorder and its parser),
  `IntelHex` (the image extractor), `HeaderFixer` (copyright headers), `Features` (a feature closure), `Cortex`
  (interrupt priorities and cache maintenance) and `Fnv` (a hash) stand on their own. `Graphs`, `Bytes` and
  `Results` are shared.

Reader classes are modelled by what they will still hand out: `Pending()` is the whole future of an adapter, that is,
the PDUs to come and whether a reset follows them. `Peek` must return its head and leave it as it is, `Release` drops
that head, and what arrives appends to it. Conservation in the router is stated on the same footing: for every channel,
what has been delivered from it followed by what its pending PDUs will deliver, up to a reset that may cut this short,
never changes. `Gateway` carries this over to any interleaving of arriving messages and frames with runs.

The ECU code adds up offsets and lengths as `size_t`, which has 32 bits on the microcontrollers and 64 in simulation.
`SizeT.Target` is a parameter of the readers and adapters. Where a sum wraps around, the next access fails its
assertion, and `executables/referenceApp/application/src/main.cpp:31-36` resets the ECU. The adapters on both sides
have this outcome, and so has the router, which calls them: a legacy writer may reset the ECU while a PDU is written.

Several properties hold only under a condition that the code does not check. In each case the condition is exact,
and a lemma beside it shows an input that fails:

- Channel names are read back if and only if they are ASCII, because offsets count characters and the bytes are UTF-8
  (`RoundTrip.NamesReadBackExactly`).
- All channels can be looked up if and only if there are at most 256, because the reader takes the lower byte of a
  two-byte id (`EndToEnd.AllAddressableExactly`).
- On PDU transport channels a row is used for its own message length if and only if no row of the channel has a
  length, or all have one that depends on the message id alone (`Frames.LengthsRespectedExactly`).
- All channels are served if and only if there are at most 255, because the router counts them in a byte
  (`Gateway.AllServedExactly`).
- A legacy Tx channel sends every PDU as its own output describes it, if and only if among the outputs to this channel
  the message id determines the place of the payload, and, with 32 bits, the first output for each id fits
  (`Outgoing.BlobSendsExactly`).
- The ECU is reset if and only if the router is initialized and something that arrives makes an adapter on the way in
  reset it, or is extracted and routed to a legacy channel that takes it and whose first Tx entry for the message id
  does not fit (`Gateway.ResetsExactly`). With the Tx table of a compiled blob, a legacy channel never does so if and
  only if the first output to it for each message id fits (`Gateway.WriterSurvivesExactly`).
- With 32 bits, plain input never resets the adapter of a channel if and only if offset and length of every row add up
  to a `size_t`, or to more than any payload that the row is used for (`Reception.TableSuitsExactly`).
- A written blob is accepted if and only if it holds a record (`BlobReader.LoadOfBlobBytes`): the end of a span without
  bytes is not the null pointer that ends the iteration.
- With 32 bits, load() also accepts a header whose size wraps around (`BlobReader.LoadAcceptsExactly`).
- With 32 bits, a frame is read as it is laid out with every table whose sums fit, if and only if no length reached in
  it makes the message size wrap around (`Ecu.FrameReadExactly`).
- With 32 bits, a legacy Tx entry resets the ECU if and only if its length exceeds a `size_t` together with a header,
  and the offset is smaller (`LegacyTx.CommitResetsExactly`).
- The queue keeps element sizes if and only if the maximum fits `SIZE_TYPE` (`MemoryQueue.SizesKeptExactly`).
- The cycle warning is given if and only if outputs of reachable nodes lead to some routed node twice, or to the start
  once, cycle or not (`Visualize.WarningExactly`).
- The trace parser recovers a recorded trace if and only if no two events in a row fall on the same tick other than
  0: it takes a frame with no elapsed ticks for the end of the trace (`Tracing.TraceRoundTrip`).
- The image extractor reads a file as the format defines it if and only if no record wraps around in its segment and
  none with bytes stands behind the end-of-file record (`IntelHex.ImageIsMemoryExactly`).
- The early stop of the image extractor loses nothing if and only if no byte behind the stop lies in the range
  (`IntelHex.EarlyStopExactly`).
- The header fixer cuts out whole lines if and only if the old header does not run into its reading limit in the
  middle of a line (`HeaderFixer.WholeLinesExactly`).
- Cache maintenance by set and way names each line once if and only if there are at most 512 sets and 4 ways
  (`Cortex.WordsDistinctExactly`).

Where code and documentation disagree, the model follows the code: the routing example in the generator's
documentation names keys `pdu-length` and `output`, the code reads `length` and `outputs`. The same page promises that
every generated blob passes `load()`; one without records does not (`BlobReader.EmptyBlobIsRejected`).

Every lemma carries `{:induction false}`: each proof by induction is the recursion written in its body, and the solver
gets no induction hypotheses that a proof does not use. `hide` statements at the start of a proof keep definitions that
it does not need away from the solver.

## Model

| member | source | states |
|---|---|---|
| `Gateway.GatewayDelivers` | tools/blob/routing/table.py:268-310 | the main result for the whole path: for every routing list and every list of at most 256 distinctly named channels that compile, every gateway connected to the blob, with messages on CAN and FlexRay channels and frames on PDU transport channels, and any interleaving of what arrives with calls of run(): once enough runs follow, and short of a reset, what has been delivered from a served channel is exactly, in order, what the last routing of every key asks for what arrived there; plain input never resets the adapter if and only if the rows of the channel fit the target |
| `Gateway.ResetsExactly` | libs/bsw/routing/include/routing/Router.h:152-175 | the ECU is reset if and only if the router is initialized and on some channel something has arrived that makes its adapter reset the ECU, or of which a PDU is extracted and routed to a legacy channel with room for it, whose first Tx entry for the output's message id has a length that exceeds a size_t together with a header, and a smaller offset |
| `Gateway.GatewaySurvives` | libs/bsw/routing/include/routing/Router.h:152-175 | it is not reset by plain input on tables that never reset their adapters, with writers of which no message id makes commit() reset it |
| `Gateway.WriterSurvivesExactly` | libs/bsw/routing/src/routing/LegacyTxAdapter.cpp:111-181 | no message id makes a legacy writer on the Tx table of the compiled blob reset the ECU, if and only if the first output to its channel for each message id fits the target; sendable outputs do |
| `Gateway.OneRowResetsAll` | libs/bsw/routing/src/routing/RxAdapter.cpp:84-110 | a concrete row and message that reset a 32-bit gateway, whatever its other channels do |
| `Gateway.OneOutputResetsAll` | libs/bsw/routing/src/routing/LegacyTxAdapter.cpp:138-181 | a concrete gateway on 32 bits with a Tx entry of length 0xFFFFFFF8, and a plain message that resets it within run() |
| `Gateway.AllServedExactly` | libs/bsw/routing/include/routing/Router.h:83-98 | a router with as many readers and writers as there are channels has a place for all of them if and only if there are at most 255 |
| `Gateway.Channel255IsNotServed` | libs/bsw/routing/include/routing/Router.h:83-98 | channel 255 is never served, and nothing is delivered to it, in any interleaving |
| `Bus.BusHoldsDescribed` | libs/bsw/routing/src/routing/LegacyTxAdapter.cpp:87-206 | from bus to bus, for every interleaving: the whole sequence of messages that a legacy channel on the Tx table of the compiled blob puts on its bus, for all that is delivered to it, is what outputs of last routings to this channel with the right message ids describe, one by one and in order, if the outputs to this channel are sendable |
| `Bus.DeliveredIsSent` | libs/bsw/routing/src/routing/LegacyTxAdapter.cpp:87-206 | one delivery that some rows ask for: it leaves as an output of a last routing describes it |
| `Gateway.EventsConserve` | libs/bsw/routing/include/routing/Router.h:152-175 | conservation over any interleaving: until a reset, past and future deliveries of a channel, and the reset in an adapter or writer that may cut them off, change only by what arrives there |
| `Gateway.QueuesRunEmpty` | libs/bsw/routing/include/routing/Router.h:107-175 | as many runs as PDUs wait leave every queue of an initialized router empty, unless an adapter or writer resets the ECU |
| `Gateway.AllIsDelivered` | libs/bsw/routing/include/routing/Router.h:107-175 | short of a reset by an adapter or writer, what came from a channel is exactly what all that arrived there leads to; also for a router that is not initialized, whose table leads to nothing |
| `Gateway.Arrive` | libs/bsw/routing/src/routing/RxAdapter.cpp:118-120 | what arrives at one reader changes the state of the router just as the event of the state machine does |
| `Reception.CompiledBlobWorks` | tools/blob/routing/table.py:268-310 | for every routing list and every list of at most 256 distinctly named channels that compile: the blob is accepted by load() with anything behind it; each channel is found in it under its own id and with its own type, which chooses the adapter; what the adapter extracts from plain input, short of a reset, is delivered exactly, in order, as the last routing of every key of that channel asks for; and there is never a reset if and only if the rows fit |
| `Example.OneRoutingWorks` | tools/blob/routing/table.py:268-310 | a channel list with one routing compiles, and the result for one channel applies to it |
| `Example.OneRoutingGateway` | tools/blob/routing/table.py:268-310 | a gateway is connected to its blob, is not reset, and delivers all its messages, with any writer that never resets the ECU: the hypotheses of the main result are not empty |
| `Example.OneRoutingBus` | tools/blob/routing/table.py:268-310 | the same with the legacy writer of its own blob, whose bus holds what the output describes |
| `Reception.BlobDelivers` | tools/blob/routing/utils.py:25-144 | the same for any number of channels, for the first listed channel with a given id modulo 256 |
| `EndToEnd.ChannelTables` | libs/bsw/routing/src/routing/util.cpp:18-44 | the routing table and the Rx table that the ECU finds by type and channel stand, entry by entry, for the rows of the compiled table |
| `Reception.SpansDelivered` | libs/bsw/routing/src/routing/RxAdapter.cpp:48-190 | for tables that stand for some rows, on either target: short of a reset, what is extracted from plain messages or frames and routed is what the rows ask for |
| `Reception.KindRead` | libs/bsw/routing/include/routing/Integration.h:165-182 | the header of the Rx record found for a channel tells the type by which its adapter is chosen |
| `EndToEnd.PdusOfMessageDeliver` | libs/bsw/routing/src/routing/pduRouting.cpp:46-110 | the PDUs laid out in one message, routed, are what the rows ask for: bad header, unknown id, PDUs outside the payload, missing or too small writers included |
| `EndToEnd.CompiledRoutingMeans` | tools/blob/routing/table.py:46-51 | every range between two destination offsets holds the channels and ids of one row's outputs; the offsets are monotone and in bounds, as the unchecked indexing of the ECU needs |
| `EndToEnd.CompiledRxMeans` | tools/blob/routing/table.py:76-86 | the compiled Rx vectors have the shape that the unchecked indexing of the Rx adapter needs, and group the rows by message id |
| `Reception.TableSuitsExactly` | libs/bsw/routing/src/routing/RxAdapter.cpp:84-110 | no plain input resets the adapter of a channel, if and only if offset and length of each of its rows add up to a size_t, or to more than any payload that the row is used for; with 64 bits they do |
| `Reception.GroupResets` | libs/bsw/routing/src/routing/RxAdapter.cpp:84-110 | a message resets the ECU if and only if for one of its rows the sum wraps around to a value within the payload |
| `EndToEnd.GroupHoldsAllRows` | libs/bsw/routing/src/routing/RxAdapter.cpp:67-79 | the rows of a message's group are all rows that its deliveries depend on: the group index loses none |
| `EndToEnd.AllAddressableExactly` | libs/bsw/routing/src/routing/Header.cpp:41-61 | every channel can be looked up under its id modulo 256, if and only if there are at most 256 channels |
| `EndToEnd.Channel256IsTakenForChannel0` | libs/bsw/routing/src/routing/Header.cpp:41-61 | with 257 channels in id order, a lookup for channel 256 finds the record of channel 0, and only that |
| `EndToEnd.RxIdsDistinct` | tools/blob/routing/channel.py:90-110 | the ids of the compiled channels are distinct and below the number of channels |
| `Frames.PdusOfFramesDeliver` | libs/bsw/routing/include/routing/PduTransportRxAdapter.h:120-213 | the PDUs laid out in any sequence of frames, routed, are what the rows ask for its whole messages, in order; bytes that no whole message covers lead to nothing |
| `Frames.FrameMessageDelivered` | libs/bsw/routing/include/routing/PduTransportRxAdapter.h:215-245 | one message of a frame gives the deliveries of its rows if its length passes, else none |
| `Frames.LengthOfGroup` | tools/blob/routing/utils.py:123-133 | entry k of the message lengths is positive, and the length of the first row of message id k |
| `Frames.LengthsRespectedExactly` | tools/blob/routing/utils.py:123-133 | every row is used for just the message lengths that its own key names, if and only if no row of the channel has a length, or all have one and it depends on the message id alone |
| `Frames.LengthIsIgnored` | tools/blob/routing/utils.py:123-133 | a concrete pair of rows with one message id, of which the second is used for messages of a length that it does not name |
| `RoutingTable.InputTable` | tools/blob/routing/utils.py:25-54 | the loops that resolve names, fill the dictionaries and sort compute the specified table, or the first error |
| `RoutingTable.ResolveAllMeaning` | tools/blob/routing/utils.py:25-49 | resolving gives every routing, one for one and in order, the channel id of its name and a key with its id, offset, length and message length, or 0 without one; its outputs, as many and in order, have the ids of their names, their message ids, the given offset or 0, and the given length or that of the input; it fails, with a missing key, if and only if some channel name is unknown |
| `RoutingTable.OffsetAndLengthKept` | libs/bsw/routing/test/routing.jsonl:16 | a routing of the tests, resolved: the output keeps its offset 4 and its length 8 |
| `RoutingTable.InputTableExistsExactly` | tools/blob/routing/utils.py:26-29 | the table exists if and only if every channel name is known |
| `RoutingTable.LastOutputsIsLast` | tools/blob/routing/utils.py:33-49 | the outputs of a key are those of a routing with this channel and key behind which there is no other one |
| `RoutingTable.InputTableMeaning` | tools/blob/routing/utils.py:25-54 | the result is sorted by channel and key, has one row per key that occurs, and each row holds the outputs of the last routing with its key, resolved as the routing describes them |
| `RoutingTable.FillTablesHoldLast` | tools/blob/routing/utils.py:34-49 | after entering routings one by one, a key's entry is that of the last routing with the key |
| `RoutingTable.SortKeysSorts` | tools/blob/routing/utils.py:52 | the rows of a channel are strictly ordered by id, message length, offset and descending PDU length, and none is lost |
| `RoutingTable.SortedKeysUnique` | tools/blob/routing/utils.py:52 | a sorted key sequence is determined by the set of its keys |
| `RoutingTable.TableIsCanonical` | tools/blob/routing/utils.py:31-54 | two routing lists with the same last outputs for every key give the same table |
| `Records.CompileIsCanonical` | tools/blob/routing/table.py:268-310 | ... and byte-identical blobs |
| `Flatten.FlatteningPreservesMeaning` | tools/blob/routing/utils.py:73-112 | for every row i of every channel, slicing destinations and output ids at global id first_id + i gives the outputs of the last routing with the row's key, in order |
| `Flatten.DestinationOffsetGenerator` | tools/blob/routing/utils.py:97-103 | the nested loops yield, for every row, the number of outputs in front of it |
| `Flatten.GetFirstId` | tools/blob/routing/utils.py:106-112 | the loop counts the rows of the channels in front |
| `Flatten.GlobalIdOfRow` | tools/blob/routing/utils.py:106-112 | the first id plus the row number is the position of the row among all rows |
| `Flatten.OffsetsSliceOutputs` | tools/blob/routing/utils.py:97-103 | two neighbouring offsets cut exactly one row's outputs out of the flat outputs |
| `Flatten.OutputGenerator` | tools/blob/routing/utils.py:79-94 | the nested loops of the output generators yield the outputs of one channel, in table order |
| `Flatten.TxVectorsAreStablePartition` | tools/blob/routing/utils.py:79-94 | output j is the entry of its channel whose index is j's rank among that channel's outputs |
| `Flatten.TxEntryHasOutput` | tools/blob/routing/utils.py:79-94 | conversely, every entry is that of the one output of which it is the rank |
| `Flatten.TxLengthsSumUp` | tools/blob/routing/table.py:134-141 | over distinct channels that cover all outputs, the Tx lengths sum to the number of outputs |
| `Flatten.MessageIdGenerator` | tools/blob/routing/utils.py:115-120 | the loop over `prev` yields the ids at the group starts |
| `Flatten.PduLengthOffsetGenerator` | tools/blob/routing/utils.py:136-144 | the loop yields the group starts and the row count |
| `Flatten.MessageLengthGenerator` | tools/blob/routing/utils.py:123-133 | the loop yields one length per group if all are positive, else nothing |
| `Flatten.GroupIndexCorrect` | tools/blob/routing/utils.py:115-144 | ids strictly increase, offsets run strictly from 0 to the row count, and rows off[k]..off[k+1] are those of id k |
| `Flatten.GroupOfRow` | tools/blob/routing/utils.py:115-144 | every row lies in the group of its own message id |
| `Flatten.MessageLengthsCorrect` | tools/blob/routing/utils.py:123-133 | lengths are empty or one per id, each positive and the smallest of its group |
| `Channels.ChannelIdsNumber` | tools/blob/routing/channel.py:90-110 | for distinct names, an accepted channel list is numbered 0..n-1 in dictionary order, one entry per channel, static ids kept |
| `Channels.ChannelIdsExactly` | tools/blob/routing/channel.py:90-110 | in an accepted list the static channels keep their ids, and each PDU transport channel gets the number of static channels plus that of the PDU transport channels listed in front of it |
| `Channels.ChannelIdsAcceptsExactly` | tools/blob/routing/channel.py:91-100 | a list is accepted if and only if the static ids are distinct and below their number |
| `Channels.SortByIdSorts` | tools/blob/routing/channel.py:91-96 | the stable sort by id orders the entries and keeps all of them |
| `Channels.IdMapHolds` | tools/blob/routing/channel.py:107-110 | the dictionary maps every entry's name to its id, and nothing else |
| `Channels.ChannelNameList` | tools/blob/routing/channel.py:60-65 | the loop with `previous_id` builds the list of names with gaps |
| `Channels.NoGaps` | tools/blob/routing/channel.py:60-65 | for ids 0..n-1 the gap filling never fires: entry i is the NUL-terminated name of channel i |
| `Channels.NamesAtIds` | tools/blob/routing/channel.py:60-65 | for increasing ids from 0 on, the name of every id stands at this index, and empty names stand at all others |
| `Channels.AccumulateLengths` | tools/blob/routing/channel.py:71-76 | the offsets are the numbers of characters in front of each name |
| `Channels.StringTableBytes` | tools/blob/routing/channel.py:67-84 | a name or metadata record holds count, offsets and the UTF-8 names |
| `Channels.EncodedLength` | tools/blob/routing/channel.py:79 | encoding keeps the length of a string if and only if it is ASCII |
| `Channels.Utf8Exactly` | tools/blob/routing/channel.py:79 | the bytes of one character as UTF-8 defines them |
| `RoundTrip.NamesReadBackExactly` | libs/bsw/routing/src/routing/ChannelNames.cpp:19-41 | offsets count characters, the bytes are UTF-8: all addressable names are read back if and only if all of them are ASCII |
| `RoundTrip.UmlautIsCutOff` | tools/blob/routing/channel.py:72-79 | a concrete name beyond ASCII that is read back without its terminator |
| `RoundTrip.NamesReadBack` | libs/bsw/routing/src/routing/ChannelNames.cpp:19-79 | the same for the name record found in the compiled blob, under the ids that channel_ids gave |
| `BlobFormat.MakeConfig` | tools/blob/utils.py:79-101 | config() returns an element with exactly the specified record bytes, or fails if the size field overflows; it modifies no object that existed before, so not the caller's list |
| `BlobFormat.Validate` | tools/blob/utils.py:68-76 | appends the checksum of the whole record to its last list, in place |
| `BlobFormat.AppendPaddingToList` | tools/blob/utils.py:53-65 | a padding element is appended to a new list, or the very list is handed on |
| `BlobFormat.PrependSizeToList` | tools/blob/utils.py:43-50 | a new list with the size in front; sizes beyond 32 bits fail |
| `BlobFormat.MakePadding` | tools/blob/utils.py:27-28 | under 4 bytes of 0xFF that complete the length to a multiple of 4 |
| `BlobFormat.RecordFraming` | tools/blob/utils.py:79-101 | length, size field, type, reserved bytes, payload, padding bytes and checksum of every record stand where the reader looks |
| `BlobFormat.RecordsAligned` | tools/blob/__main__.py:46-57 | every record of a blob starts on a 4-byte boundary, directly behind the records in front of it |
| `BlobFormat.FlatAllAppend` | tools/blob/__init__.py:71-76 | the bytes of a list of elements are the bytes of its parts in order |
| `Records.RoutingRecordBytes` | tools/blob/routing/table.py:58-68 | the payload of a routing record, as bytes |
| `Records.RxRecordBytes` | tools/blob/routing/table.py:108-126 | the payload and the reserved bytes of an Rx record, as bytes |
| `Records.TxRecordBytes` | tools/blob/routing/table.py:157-170 | the payload and the reserved bytes of a Tx record, as bytes |
| `Records.Column32Bytes` | tools/blob/utils.py:39-50 | a size-prefixed vector fails exactly if a value or the size does not fit 32 bits, and else has the specified bytes |
| `Records.Column8Bytes` | tools/blob/utils.py:39-50 | the same for vectors of bytes |
| `Records.ReservedBytes` | tools/blob/utils.py:83-93 | channel-specific records keep their reserved elements, which always have the full eight bytes; the others get zeros |
| `Layout.RecordStandsAs` | tools/blob/utils.py:79-101 | a record is its type, eight reserved bytes, the size of what follows, the payload, up to three 0xFF, and the checksum of all that |
| `Layout.BlobStandsAs` | tools/blob/__main__.py:40-57 | a blob is the bytes 00 00 00 01 DE AD BE EF, the size of the records, and the records; it exists if and only if they and their sizes fit |
| `Layout.RoutingStandsAs` | tools/blob/routing/table.py:58-68 | the routing record: type 0, zeros, destination offsets, output message ids, destinations; it exists if and only if the numbers fit |
| `Layout.RxStandsAs` | tools/blob/routing/table.py:108-126 | an Rx record: type 1, channel type and id, first id, and the five vectors in this order; it exists if and only if the numbers fit |
| `Layout.TxStandsAs` | tools/blob/routing/table.py:157-170 | a Tx record: type 2, channel type and id, and the three vectors in this order |
| `Layout.RangesExactly` | tools/blob/utils.py:30-50 | which numbers fit a vector of four, two and one bytes each |
| `Bytes.BigEndian` | tools/blob/utils.py:31-50 | numbers of two and four bytes have the most significant byte first |
| `Bytes.Be32sAt` | tools/blob/utils.py:31-40 | number i of a vector of four-byte numbers stands in its bytes 4i to 4i + 3 |
| `Bytes.Be16sAt` | tools/blob/routing/channel.py:71-76 | the same for the two-byte offsets of names |
| `Layout.ReservedStandsAs` | tools/blob/routing/channel.py:46-52 | the reserved bytes of a channel: 0 for PDU transport, 1 for CAN, 2 for FlexRay, then the id and zeros |
| `Layout.ChannelsStandAs` | tools/blob/routing/table.py:292-307 | one record of type 0xCC for each channel of a type, in order, with its own id and configuration |
| `Layout.MetaStandsAs` | tools/blob/__main__.py:60-95 | no record without metadata, else one of type 0xFE, in which every value ends with a 0 |
| `Layout.StringsStandAs` | tools/blob/routing/channel.py:67-84 | a record of strings exists if and only if their number and offsets fit two bytes, and has them in front of the strings |
| `Layout.RecordsStandAs` | tools/blob/routing/table.py:268-310 | the records in file order: metadata, routing table, Rx and Tx tables of all channels, PDU transport and then FlexRay configurations, names |
| `Layout.EmptyRxAsGenerated` | libs/bsw/routing/test/include/blob/configuration.h:45-48 | an Rx record of the blob that is generated for the tests, byte for byte up to its checksum |
| `BlobReader.LoadOfBlobBytes` | libs/bsw/blob/src/blob/Blob.cpp:20-62 | whole-blob round trip: the ECU accepts a written blob, and drops only what follows it, if and only if it holds at least one record; it visits exactly the written records |
| `BlobReader.EmptyBlobIsRejected` | libs/bsw/blob/include/blob/Blob.h:51-93 | the twelve bytes that are written if there is nothing to write are rejected |
| `BlobReader.LoadAcceptsExactly` | libs/bsw/blob/src/blob/Blob.cpp:20-62 | load() accepts a memory region if and only if it starts with a blob assembled from at least one configuration, each with valid type, size and checksum, and then returns just that blob; or, with 32 bits, if the declared size wraps around |
| `BlobReader.WrappedIsLoaded` | libs/bsw/blob/src/blob/Blob.cpp:28-41 | in that case less than a header is returned, and no configuration is found in it |
| `BlobReader.WrappedSizeIsAccepted` | libs/bsw/blob/src/blob/Blob.cpp:28-41 | a concrete header of which eleven bytes are taken for a blob with 32 bits, and nothing with 64 |
| `BlobReader.HeaderExactly` | libs/bsw/blob/src/blob/Header.cpp:25-65 | a header is accepted with some size if and only if it is the version, the magic number and this size, byte for byte |
| `BlobReader.CheckCrcExactly` | libs/bsw/blob/src/blob/util.cpp:34-48 | the last four bytes of a span, big-endian, have to be the checksum of the bytes in front of them; shorter spans never pass |
| `BlobReader.Load` | libs/bsw/blob/src/blob/Blob.cpp:20-62 | the loop that goes on after a failed check computes just that |
| `BlobReader.Find` | libs/bsw/blob/src/blob/util.cpp:21-32 | the lookup loop returns the first visited configuration that matches |
| `BlobReader.ConfigsOfBody` | libs/bsw/blob/include/blob/Blob.h:32-60 | stepping by the size field visits the written records and ends at the end of the blob |
| `BlobReader.ConfigsOfNothing` | libs/bsw/blob/include/blob/Blob.h:51-93 | a region without bytes is not at its end: one unreadable configuration is visited, and fails the checksum test |
| `BlobReader.FromBytesOfRecord` | libs/bsw/blob/src/blob/Config.cpp:37-68 | the first configuration of a span that starts with a record is that record, and its checksum is valid |
| `BlobReader.SealedPartsAreVisited` | libs/bsw/blob/include/blob/Blob.h:32-60 | there is one way to cut a region into valid configurations, at least one, and the iterator finds it |
| `BlobReader.VisitedPartsAreSealed` | libs/bsw/blob/include/blob/Blob.h:32-60 | if all visited configurations pass, they make up the whole region, and there is at least one |
| `BlobReader.LoadColumn32OfBytes` | libs/bsw/blob/include/blob/util.h:23-42 | a written vector of 32-bit values is loaded, and what follows it is left |
| `BlobReader.LoadColumn8OfBytes` | libs/bsw/blob/include/blob/util.h:23-42 | the same for bytes |
| `TableReader.HeaderOfRecord` | libs/bsw/routing/src/routing/Header.cpp:18-64 | type and channel fields are read back from a record |
| `TableReader.ReservedRead` | libs/bsw/routing/src/routing/Header.cpp:41-61 | of the two bytes of a channel id the reader takes the lower one: the id modulo 256 |
| `TableReader.LoadRoutingOfRecord` | libs/bsw/routing/src/routing/pduRouting.cpp:26-44 | loading a routing record gives its vectors |
| `TableReader.LoadRxOfRecord` | libs/bsw/routing/src/routing/RxAdapterTable.cpp:22-53 | loading an Rx record gives its vectors |
| `TableReader.LoadTxOfRecord` | libs/bsw/routing/src/routing/TxAdapterTable.cpp:21-44 | loading a Tx record gives its vectors |
| `TableReader.FirstMatchExactly` | libs/bsw/blob/src/blob/util.cpp:21-32 | a search comes back with the first match, and with none if and only if there is none |
| `TableReader.LookUp` | libs/bsw/blob/src/blob/util.cpp:21-32 | the lookup by type returns the first configuration of this type that the blob visits, or none if there is none |
| `TableReader.LookUpFor` | libs/bsw/routing/src/routing/util.cpp:18-44 | the lookup by type and channel returns the first configuration of this type whose header names the channel, or none if there is none |
| `RoundTrip.RxMissingExactly` | libs/bsw/routing/src/routing/util.cpp:18-44 | in a compiled blob, no Rx record is found for a byte if and only if no listed channel has a congruent id |
| `RoundTrip.RoutingTableReadBack` | libs/bsw/routing/src/routing/pduRouting.cpp:26-44 | the ECU loads exactly the compiled routing vectors from the compiled blob |
| `RoundTrip.RxTableReadBack` | libs/bsw/routing/src/routing/RxAdapterTable.cpp:22-53 | for any byte c: the Rx record found for c is that of the first listed channel whose id is c modulo 256 |
| `RoundTrip.RxHeaderReadBack` | libs/bsw/routing/src/routing/Header.cpp:18-64 | ... and its header tells the type of that channel |
| `RoundTrip.TxTableReadBack` | libs/bsw/routing/src/routing/TxAdapterTable.cpp:21-44 | the same for Tx records |
| `RoundTrip.FindChannelConfig` | libs/bsw/routing/src/routing/util.cpp:18-44 | the first matching configuration is that of the first channel with a congruent id |
| `RoundTrip.CompileSteps` | tools/blob/routing/table.py:268-310 | what a successful compilation establishes about its intermediate results |
| `Ecu.RxAdapter.Peek` | libs/bsw/routing/src/routing/RxAdapter.cpp:112-188 | returns the head of all PDUs still to be extracted, or nothing if there are none, and what is pending does not change; it resets the ECU exactly if a reset is all that is left to come |
| `Ecu.RxAdapter.Release` | libs/bsw/routing/src/routing/RxAdapter.cpp:190 | drops the PDU that peek() returned, and only that |
| `Ecu.RxAdapter.Receive` | libs/bsw/routing/src/routing/RxAdapter.cpp:118-120 | a message that arrives at the underlying reader adds its PDUs, or the reset it causes, at the end of what is pending |
| `Ecu.RxAdapter.TryFront` | libs/bsw/routing/src/routing/RxAdapter.cpp:121-186 | one round of peek(): the PDU it yields is the next one, and each round without a PDU consumes a message |
| `Ecu.ExtractNext` | libs/bsw/routing/src/routing/RxAdapter.cpp:144-159 | the inner loop finds the next PDU of the group that can be extracted, or the reset that comes first |
| `Ecu.ExtractResetsExactly` | libs/bsw/routing/src/routing/RxAdapter.cpp:84-110 | no message makes extract() run into the assertion of take(), if and only if offset and length add up to a size_t, or to more than any payload; with 64 bits they do |
| `Ecu.ExtractOnAgrees` | libs/bsw/routing/src/routing/RxAdapter.cpp:84-110 | short of a reset, the computation with sums that wrap gives the PDU that lies within the payload and fits the buffer, or none; if the sum fits there is no reset |
| `Ecu.LargeOffsetResets` | libs/bsw/routing/src/routing/RxAdapter.cpp:84-110 | a concrete table and message size that reset a 32-bit ECU |
| `Ecu.FrameReadExactly` | libs/bsw/routing/include/routing/PduTransportRxAdapter.h:88-118 | with every table whose sums fit, a frame is read message by message as it is laid out and without a reset, if and only if no length that is reached makes the message size wrap around; with 64 bits none does, and all sums fit |
| `Ecu.LookupOnShort` | libs/bsw/routing/include/routing/PduTransportRxAdapter.h:215-228 | on a span that is too short for a header, lookup() resets the ECU if the id is missing, or known, and else discards it |
| `Ecu.LargeLengthResets` | libs/bsw/routing/include/routing/PduTransportRxAdapter.h:103-118 | a concrete frame with the length 0xFFFFFFF8 that resets a 32-bit ECU |
| `Ecu.PduTransportRxAdapter.Peek` | libs/bsw/routing/include/routing/PduTransportRxAdapter.h:120-213 | the same as for RxAdapter, over frames of several messages with any length fields and either size_t: it terminates, returns the next pending PDU, and resets the ECU exactly if a reset is all that is left to come |
| `Ecu.PduTransportRxAdapter.Receive` | libs/bsw/routing/include/routing/PduTransportRxAdapter.h:129-132 | a frame that arrives adds the PDUs of its messages, or the reset it causes, at the end |
| `Ecu.PduTransportRxAdapter.TryFront` | libs/bsw/routing/include/routing/PduTransportRxAdapter.h:134-211 | one round of peek(), over the message in front of what is left of a frame |
| `Ecu.PduTransportRxAdapter.ProcessMessage` | libs/bsw/routing/include/routing/PduTransportRxAdapter.h:88-118 | determines the extent of the message in front, with a sum that may wrap around, and looks it up, discards it or resets the ECU |
| `Ecu.PduTransportRxAdapter.Advance` | libs/bsw/routing/include/routing/PduTransportRxAdapter.h:181-191 | moves behind the message, and on to the next frame if nothing is left |
| `Ecu.PduTransportRxAdapter.Release` | libs/bsw/routing/src/routing/RxAdapter.cpp:190 | drops the PDU that peek() returned, and only that |
| `Ecu.UnextractedSplit` | libs/bsw/routing/include/routing/PduTransportRxAdapter.h:163-191 | what is still to come is the rest of the message in front and all behind it |
| `Router.Router.Run` | libs/bsw/routing/include/routing/Router.h:152-175 | run() asks the readers in turn from the current one, serves the first that has a PDU with a route, drops unknown PDUs in front of it, and moves on; it resets the ECU if and only if a reader does so first or a writer does while the PDU is served, with the deliveries made until then; it does nothing if the router is not initialized |
| `Router.Router.Attempt` | libs/bsw/routing/include/routing/Router.h:160-172 | one round of run(): log, queues and current channel afterwards, and whether a reader or writer resets the ECU |
| `Router.Router.Route` | libs/bsw/routing/src/routing/pduRouting.cpp:46-110 | one PDU of one reader is delivered or dropped, or the reader or a writer resets the ECU; no other reader is touched |
| `Router.Router.Deliver` | libs/bsw/routing/src/routing/pduRouting.cpp:88-127 | the loop over the destinations writes to every writer that exists and has room, in order, up to a legacy writer whose commit() resets the ECU |
| `Router.PduServedExactly` | libs/bsw/routing/src/routing/pduRouting.cpp:74-127 | an unknown PDU leads to nothing; of a known one, up to the first destination that resets the ECU, every destination of its range gets exactly one delivery, in order, with its own message id and the payload, if and only if its channel has a writer, of either kind, that takes 8 bytes more than the payload, and the others get none; a destination resets the ECU if and only if it is a legacy channel that takes the PDU and whose first Tx entry for the message id has a place for it in a message whose size exceeds a size_t |
| `Router.WriteExactly` | libs/bsw/routing/src/routing/pduRouting.cpp:97-127 | the same for one destination |
| `Router.QueueGetsPdu` | libs/bsw/routing/test/routing.jsonl:13 | a routing of the tests from a CAN to a PDU transport channel: the PDU arrives in the queue |
| `Router.Router.constructor` | libs/bsw/routing/include/routing/Router.h:83-129 | when a router is initialized, and for how many channels: at most 255, as many as there are readers and writers |
| `Router.LedToReset` | libs/bsw/routing/src/routing/pduRouting.cpp:88-127 | what is to come from a channel leads to a reset if and only if it ends with one, or some PDU in it is routed to a writer that resets the ECU; if not, all of it is delivered |
| `Router.RunConserves` | libs/bsw/routing/include/routing/Router.h:152-175 | for every channel, what has been delivered from it followed by what its pending PDUs will deliver up to a reset, and whether there is one, are the same before and after any run, also one that a reader or writer cuts off |
| `Router.ReadyChannelIsServed` | libs/bsw/routing/include/routing/Router.h:160-172 | bounded waiting: of n channels, one that is ready is served within n runs, unless a reader or writer resets the ECU before |
| `Router.ReadyChannelIsServedSoon` | libs/bsw/routing/include/routing/Router.h:160-172 | step by step: each run serves it, or brings its turn closer and leaves its queue alone, or a reader or writer resets the ECU |
| `Router.FirstStopIsFirst` | libs/bsw/routing/include/routing/Router.h:160-172 | the channel at which a run stops is the first in turn that is ready or due for a reset |
| `Router.FromServed` | libs/bsw/routing/src/routing/pduRouting.cpp:95-105 | deliveries of one channel are recorded for that channel only |
| `LegacyTx.LegacyTxAdapter.Commit` | libs/bsw/routing/src/routing/LegacyTxAdapter.cpp:87-206 | the message is built in place around the payload: id, length, filler, payload as far as it fits, filler; otherwise memory and output are untouched, or a size that wraps around resets the ECU |
| `LegacyTx.CommitResetsExactly` | libs/bsw/routing/src/routing/LegacyTxAdapter.cpp:138-181 | a PDU with a known id resets the ECU if and only if the length in its entry, with a header, exceeds a size_t and the offset is smaller than the length; never with 64 bits |
| `LegacyTx.PduResetsExactly` | libs/bsw/routing/src/routing/LegacyTxAdapter.cpp:111-181 | so a PDU that can be allocated resets the ECU, whatever its payload, if and only if the first entry for its id does not fit |
| `LegacyTx.OutputPdu` | libs/bsw/routing/src/routing/pduRouting.cpp:112-127 | allocating, copying a PDU and committing adds the message of the PDU's first Tx entry to the output, nothing, or resets the ECU exactly as the router assumes |
| `LegacyTx.CommittedOnAgrees` | libs/bsw/routing/src/routing/LegacyTxAdapter.cpp:138-181 | else it is sent or dropped as it would be with unbounded sizes |
| `LegacyTx.LargeLengthResets` | libs/bsw/routing/src/routing/LegacyTxAdapter.cpp:138-181 | a concrete table entry that resets a 32-bit ECU |
| `LegacyTx.BuildMessage` | libs/bsw/routing/src/routing/LegacyTxAdapter.cpp:183-198 | the overlapping move and the two fills, in this order, leave exactly the message in memory |
| `LegacyTx.MessageByteForByte` | libs/bsw/routing/src/routing/LegacyTxAdapter.cpp:183-198 | every byte of a message: id, length, and a body in which the payload stands at the offset, as far as it fits, with 0xFF around it |
| `LegacyTx.LegacyTxAdapter.Allocate` | libs/bsw/routing/src/routing/LegacyTxAdapter.cpp:47-85 | fails for more than the maximum size, and leaves no buffer behind |
| `LegacyTx.SentIsReceived` | libs/bsw/routing/src/routing/LegacyTxAdapter.cpp:183-198 | a receiver with the sender's offset and the PDU's length extracts the payload that was sent, if and only if all of it fits the message |
| `LegacyTx.PassedOnUnchanged` | libs/bsw/routing/src/routing/LegacyTxAdapter.cpp:132-198 | an output without offset whose length is the PDU's is passed on byte for byte, unless it is empty or too large |
| `Outgoing.BlobSendsExactly` | libs/bsw/routing/src/routing/LegacyTxAdapter.cpp:87-206 | the main result for the way out: driven by the Tx table in the compiled blob, a channel sends every PDU routed to it as the output of the last routing describes it, if and only if among the outputs to this channel, in table order, the message id determines the place of the payload, where an output without a sendable message has none, and the first output for each id fits the target; with 64 bits the former is enough |
| `Outgoing.BlobCommitsExactly` | libs/bsw/routing/src/routing/LegacyTxAdapter.cpp:111-181 | driven by the Tx table in the compiled blob, no message id makes commit() reset the ECU, if and only if the first output to the channel for each id fits the target |
| `Outgoing.SentExactly` | libs/bsw/routing/src/routing/LegacyTxAdapter.cpp:111-181 | every output is followed exactly if the outputs are sendable, for any table made from a list of outputs: the first entry for a message id counts |
| `Outgoing.OrderMatters` | libs/bsw/routing/src/routing/LegacyTxAdapter.cpp:111-181 | two concrete outputs that are sent as described with 32 bits in one order, and not in the other |
| `Outgoing.DescribedAlike` | libs/bsw/routing/src/routing/LegacyTxAdapter.cpp:141-198 | two outputs with one message id give the same messages for all payloads and writers, if and only if they have the same length and offset, or neither has a place in a message that can be sent |
| `Outgoing.OutputsAreRouted` | tools/blob/routing/utils.py:73-94 | the flat list of outputs holds the outputs of the last routings of all keys, and no others |
| `Outgoing.SecondPlaceIsIgnored` | libs/bsw/routing/src/routing/LegacyTxAdapter.cpp:111-135 | a concrete table with two offsets for one message id: the second is ignored |
| `MemoryQueue.ReleasedAsPublished` | libs/bsw/io/include/io/MemoryQueue.h:239-353 | in every interleaving of the steps of writer and reader: released elements are the published ones, in order and unharmed; the queue is empty exactly if the indexes are equal; a slice that the reader is being given shows the first element |
| `MemoryQueue.PeekedStays` | libs/bsw/io/include/io/MemoryQueue.h:327-353 | the slice that peek() has returned stays the first element, byte for byte, until the reader releases it, whatever both sides do in between |
| `MemoryQueue.StepKeeps` | libs/bsw/io/include/io/MemoryQueue.h:239-353 | every single memory access keeps the invariant: publishing appends the slice, releasing takes the first element, everything else keeps the contents |
| `MemoryQueue.RunKeeps` | libs/bsw/io/include/io/MemoryQueue.h:239-353 | after any run, what was published is what was released followed by the contents |
| `MemoryQueue.SliceIsPrivate` | libs/bsw/io/include/io/MemoryQueue.h:239-260 | while its owner has a slice, only his own writes change it |
| `MemoryQueue.CommitKeepsSlice` | libs/bsw/io/include/io/MemoryQueue.h:263-281 | the steps of commit() before the store of `sent` keep the slice as it is |
| `MemoryQueue.NextDistance` | libs/bsw/io/include/io/MemoryQueue.h:72-84 | skipping the end of the array never runs into what has not been released |
| `MemoryQueue.SlotIsFree` | libs/bsw/io/include/io/MemoryQueue.h:378-399 | the slot that available() grants overlaps no element between the indexes |
| `MemoryQueue.AdvanceIndexIsNext` | libs/bsw/io/include/io/MemoryQueue.h:72-84 | the two remainders of advanceIndex() keep the index at a place with room for a slot |
| `MemoryQueue.AllocateGrantsExactly` | libs/bsw/io/include/io/MemoryQueue.h:239-260 | in every state that is reached, with the writer at rest: a slice is granted if and only if its size is allowed and the bytes between the indexes leave room for a slot |
| `MemoryQueue.RoomByContents` | libs/bsw/io/include/io/MemoryQueue.h:378-399 | it is granted for sure if the elements with their size fields and two slots exceed the capacity by at most one byte, ends of the array that are skipped included, and never if they exceed it with one slot |
| `MemoryQueue.ChainLength` | libs/bsw/io/include/io/MemoryQueue.h:72-84 | between the indexes lie the elements with their size fields, and less than a slot more if the end of the array is skipped |
| `MemoryQueue.AnyIsPublished` | libs/bsw/io/include/io/MemoryQueue.h:239-281 | progress of the writer: with a free slot, allocating, filling and committing publishes just the bytes that were written, behind the elements that are there |
| `MemoryQueue.FirstIsReleased` | libs/bsw/io/include/io/MemoryQueue.h:315-353 | progress of the reader: if there is an element, it is seen, and released as it was published |
| `MemoryQueue.EmptyQueueAccepts` | libs/bsw/io/include/io/MemoryQueue.h:378-399 | an empty queue takes an element of any size up to the maximum: no space is lost for good |
| `MemoryQueue.SizeFieldExactly` | libs/bsw/io/include/io/MemoryQueue.h:273-275 | the size field is big-endian, and cuts off what does not fit |
| `MemoryQueue.SizesKeptExactly` | libs/bsw/io/include/io/MemoryQueue.h:273-275 | commit() keeps the size of every slice if and only if the maximum element size fits SIZE_TYPE |
| `MemoryQueue.SliceIsLost` | libs/bsw/io/include/io/MemoryQueue.h:273-280 | otherwise a slice of 256^sizeof(SIZE_TYPE) bytes is granted, and committed as an empty one |
| `Visualize.Visualize` | tools/blob/routing/__main__.py:159-194 | from the table to the drawn edges: nothing is drawn without a routing for the input; else the popped nodes are exactly the reachable ones |
| `Visualize.Explore` | tools/blob/routing/__main__.py:174-191 | the worklist terminates on every graph, cyclic or not, pops exactly the reachable nodes, warns exactly if a routed node is popped twice, and draws each edge from the channel popped before |
| `Visualize.DrawnExactly` | tools/blob/routing/__main__.py:176-182 | one edge for each popped node, in order, from the channel popped before it |
| `Visualize.PopsAreOutputs` | tools/blob/routing/__main__.py:178-191 | every reachable routed node is expanded exactly once, and the number of pops is 1 plus the outputs of these |
| `Visualize.WarningExactly` | tools/blob/routing/__main__.py:183-186 | the warning is given if and only if two outputs of reachable nodes lead to one and the same routed node, or one leads back to the start, which has a routing |
| `Visualize.CycleIsWarnedAbout` | tools/blob/routing/__main__.py:174-191 | a cycle in the reachable part is always warned about |
| `Visualize.DiamondIsWarnedAbout` | tools/blob/routing/__main__.py:183-186 | a concrete graph without a cycle for which the warning is given |
| `Visualize.DropLengths` | tools/blob/routing/__main__.py:159-163 | the loops that drop the message length from the keys |
| `Visualize.ViewHoldsLastRow` | tools/blob/routing/__main__.py:159-163 | a key without message length has the outputs of the last row that agrees with it |
| `Visualize.LastRowIsLongest` | tools/blob/routing/__main__.py:159-163 | that row is the one with the greatest message length, with its last outputs |
| `Graphs.ClosedHoldsReachable` | tools/blob/routing/__main__.py:178-191 | a set with the start that no edge leaves holds everything reachable |
| `Features.Dependents` | libs/3rdparty/cargo-vendor/document-features/lib.rs:373-387 | the recursion over the shared set terminates on every dependency map, adds only reachable features, and leaves nothing missing behind what it added |
| `Features.AddedToEmptyIsReachable` | libs/3rdparty/cargo-vendor/document-features/lib.rs:373-387 | started with an empty set it collects exactly the reachable features |
| `Features.EnabledByDefault` | libs/3rdparty/cargo-vendor/document-features/lib.rs:490-504 | a feature is enabled by default if and only if it is reachable from the default list |
| `Tracing.TraceRoundTrip` | tools/tracing/trace_convert.py:52-92 | the parser recovers all events recorded in a buffer if and only if no two events in a row have the same tick other than 0; what it returns is always a right prefix, with the tick counter modulo 2^32 |
| `Tracing.AnyFramesRoundTrip` | tools/tracing/trace_convert.py:52-92 | for every choice of absolute and relative frames with nonzero distances, of which the first is absolute, the parser recovers all events with their exact cycle counts |
| `Tracing.SameTickEndsTrace` | tools/tracing/trace_convert.py:74-77 | of two events at one tick, the second and all that follow are lost to the parser |
| `Tracing.DumpIsDecoded` | tools/tracing/trace_convert.py:52-92 | what the parser makes of every buffer, event by event |
| `Tracing.Read` | tools/tracing/trace_convert.py:61-90 | the loop over the file position computes the specified events, or fails on an unbound cycle count |
| `Tracing.ParserFailsExactly` | tools/tracing/trace_convert.py:74-79 | the parser fails if and only if the first frame of the file is a relative one |
| `Tracing.CutGivesPrefix` | tools/tracing/trace_convert.py:61-90 | cutting any readable file behind the clock field gives a prefix of its events |
| `Tracing.ParseOfFrame` | tools/tracing/trace_convert.py:105-113 | the bit fields of a written frame are read back |
| `Tracing.LittleEndian` | tools/tracing/trace_convert.py:62-71 | the words of a dump have the least significant byte first |
| `Tracing.Tracer.TraceEvent` | libs/bsw/runtime/src/runtime/Tracer.cpp:88-128 | recording an event appends its frame to the buffer, if tracing is on and two words are free, and else does nothing |
| `Tracing.Tracer.StoreFrame` | libs/bsw/runtime/src/runtime/Tracer.cpp:110-126 | a normal frame of one word or an extended one of two |
| `Tracing.FrameExactly` | libs/bsw/runtime/src/runtime/Tracer.cpp:107-126 | a frame has one word if and only if the previous tick is not 0 and the distance to it, modulo 2^32, is below 2^20; event, argument and distance, or the tick in a second word, stand in their bits |
| `Tracing.Tracer.Init` | libs/bsw/runtime/src/runtime/Tracer.cpp:23-34 | clears the buffer and writes the frequency |
| `IntelHex.ParseHexFile` | tools/safety/crcCheck.py:60-92 | the loops over lines compute the specified extraction, or the first error |
| `IntelHex.OtherTypesIgnored` | tools/safety/crcCheck.py:69-91 | a readable line of any type but 00, 02 and 04 contributes nothing, leaves the offset alone, and does not end the reading |
| `IntelHex.EntryPointIsNoData` | tools/safety/crcCheck.py:55-91 | a file with a base address, data, a start address and an end, as objcopy writes it: just the data in the range is extracted |
| `IntelHex.DigitsExactly` | tools/safety/crcCheck.py:70-86 | the sixteen digits in either case, and no other characters |
| `IntelHex.CollectBytes` | tools/safety/crcCheck.py:83-89 | the loop over one data record collects its bytes in the range |
| `IntelHex.AscendingIsExtracted` | tools/safety/crcCheck.py:60-92 | for files whose records ascend, empty ones included, the result is exactly the image bytes in the range, in address order: stopping early loses nothing |
| `IntelHex.EarlyStopExactly` | tools/safety/crcCheck.py:90-91 | for any readable file: stopping early loses nothing if and only if no byte behind the stop lies in the range |
| `IntelHex.UnorderedIsMissed` | tools/safety/crcCheck.py:90-91 | a concrete file out of order of which a byte in the range is missed |
| `IntelHex.AdjacentRanges` | tools/safety/crcCheck.py:174-183 | extracting [a, b) and then [b, c) equals extracting [a, c) |
| `IntelHex.MemoryIsExtracted` | tools/safety/crcCheck.py:60-92 | for every written file whose records ascend, do not wrap around and do not follow the end-of-file record, the extractor returns the memory in the range that the format defines, in address order |
| `IntelHex.ImageIsMemoryExactly` | tools/safety/crcCheck.py:69-89 | text round trip: the image read from the lines is the memory that the format defines for the records, if and only if no data record wraps around (at 64 KiB in a segment, at 4 GiB else) and none with bytes follows the end-of-file record |
| `IntelHex.ReadsFormatExactly` | tools/safety/crcCheck.py:69-89 | the same for the records themselves, from any base address |
| `IntelHex.SegmentIsOverrun` | tools/safety/crcCheck.py:69-89 | a concrete record over the end of a segment, which the reader puts elsewhere than the format |
| `IntelHex.ConvertToLittleEndian` | tools/safety/crcCheck.py:95-102 | the loop reverses each word of four bytes, and a shorter last one |
| `IntelHex.SwappedTwice` | tools/safety/crcCheck.py:95-102 | swapping twice restores the data, whatever its length |
| `HeaderFixer.FixFile` | tools/cr_checker/cr_checker.py:762-782 | measure, cut, insert: it always succeeds; without a shebang the new file is the header, a newline and the text behind the counted old header; with one, these follow the shebang line and the empty lines behind it |
| `HeaderFixer.DetectedOffsetAccepted` | tools/cr_checker/cr_checker.py:657-673 | the detected offset is the one that fix_copyright() expects, in the file and after any number of characters have been cut out behind it |
| `HeaderFixer.DetectShebangOffset` | tools/cr_checker/cr_checker.py:292-309 | the reading loop measures the shebang line and the empty lines behind it |
| `HeaderFixer.OffsetExactly` | tools/cr_checker/cr_checker.py:292-309 | without "#!" in front of the text the offset is 0; with it, the text in front of the offset is the first line, up to and with its only line end or all of the text, and line ends only, and none stands at the offset |
| `HeaderFixer.CommentIsNoShebang` | tools/cr_checker/cr_checker.py:292-309 | a text that starts with a comment sign and a blank has the offset 0 |
| `HeaderFixer.RemoveOldHeader` | tools/cr_checker/cr_checker.py:622-630 | cuts out the characters behind the preserved ones, in place |
| `HeaderFixer.FixCopyright` | tools/cr_checker/cr_checker.py:655-690 | inserts the header behind the prefix if the offset is its length, else leaves the file as it was |
| `HeaderFixer.ExtractOldHeaderLength` | tools/cr_checker/cr_checker.py:493-514 | the loops count the lines up to the copyright line and the blank lines behind it |
| `HeaderFixer.OldHeaderExactly` | tools/cr_checker/cr_checker.py:488-514 | the lines are those of the first 4096 characters behind the offset; the old header is what stands in front of the end of the first matching line, which is among the first 20, and of the lines of white space behind it, at most four; without a match it is empty |
| `HeaderFixer.WholeLinesExactly` | tools/cr_checker/cr_checker.py:488-512 | only whole lines are cut out, if and only if the counted header does not run into the limit of what is read in the middle of a line |
| `HeaderFixer.LongLineIsCutInTwo` | tools/cr_checker/cr_checker.py:488-512 | a long matching line without an end is cut in two |
| `Cortex.SetAndGet` | libs/3rdparty/cmsis/core_cm4.h:1931-2016 | encode, set, get, decode: both priorities, reduced to their field widths, for every interrupt with a priority register |
| `Cortex.DecodeOfEncode` | libs/3rdparty/cmsis/core_cm4.h:1978-2016 | decoding gives back what was encoded, which fits the implemented bits |
| `Cortex.WidthsSumUp` | libs/3rdparty/cmsis/core_cm4.h:1984-1985 | the two widths sum to the priority bits, despite the subtraction that wraps around |
| `Cortex.SplitExactly` | libs/3rdparty/cmsis/core_cm4.h:1984-1985 | the preemption field is what is implemented above the group bit, and the subpriority field the rest |
| `Cortex.EncodeKeepsOrder` | libs/3rdparty/cmsis/core_cm4.h:1987-1990 | encoded priorities compare as the reduced pairs do, by preemption first |
| `Cortex.Nvic.SetPriority` | libs/3rdparty/cmsis/core_cm4.h:1931-1941 | sets the register of this interrupt and no other |
| `Cortex.RegisterExactly` | libs/3rdparty/cmsis/core_cm4.h:1931-1941 | device interrupts have the registers of their numbers, the system exceptions -12 to -1 the registers 0 to 11 |
| `Cortex.MaintainByAddress` | libs/3rdparty/cmsis/m-profile/armv7m_cachel1.h:356-375 | the do-while over a signed size that is computed unsigned: it terminates for every size, and for every block within the address space it touches exactly the overlapping lines, each once, also if the first sum does not fit an int32_t |
| `Cortex.AsSignedExactly` | libs/3rdparty/cmsis/m-profile/armv7m_cachel1.h:356-375 | the conversion between uint32_t and int32_t keeps the value modulo 2^32 |
| `Cortex.BlockIsCovered` | libs/3rdparty/cmsis/m-profile/armv7m_cachel1.h:356-375 | the lines from that of the first byte on, as many as the size counted from its start takes, are exactly those that overlap the block |
| `Cortex.MaintainAll` | libs/3rdparty/cmsis/m-profile/armv7m_cachel1.h:247-275 | the two loops that count down to 0 write the words of the pairs in order, and stop |
| `Cortex.AllPairsOnce` | libs/3rdparty/cmsis/m-profile/armv7m_cachel1.h:260-270 | these are all pairs of a set and a way, each exactly once |
| `Cortex.PairsInOrder` | libs/3rdparty/cmsis/m-profile/armv7m_cachel1.h:260-270 | the order of the loops: the ways of a set from the last one down, then those of the set before it |
| `Cortex.WordExactly` | libs/3rdparty/cmsis/m-profile/armv7m_cachel1.h:262-263 | the set stands in bits 5 to 13 of a word, the way in bits 30 and 31, and all other bits are 0 |
| `Cortex.WordsDistinctExactly` | libs/3rdparty/cmsis/m-profile/armv7m_cachel1.h:262-263 | the words that are written are pairwise distinct if and only if the cache has at most 512 sets and 4 ways |
| `Fnv.OneByteMatters` | libs/3rdparty/cargo-vendor/fnv/lib.rs:115-124 | two byte strings of one length that differ in exactly one place have different hashes |
| `Fnv.StepInjective` | libs/3rdparty/cargo-vendor/fnv/lib.rs:118-121 | a step is injective in the state and in the byte |
| `Fnv.StepExactly` | libs/3rdparty/cargo-vendor/fnv/lib.rs:118-121 | a byte goes into the low eight bits by exclusive or, bit by bit, and the product with the prime modulo 2^64 is taken of the result |
| `Fnv.KnownHashes` | libs/3rdparty/cargo-vendor/fnv/lib.rs:163-171 | four hashes that the tests of the crate name |
| `Fnv.PrimeIsInvertible` | libs/3rdparty/cargo-vendor/fnv/lib.rs:120 | the product with the prime modulo 2^64 determines the factor |
| `Fnv.HashAppend` | libs/3rdparty/cargo-vendor/fnv/lib.rs:115-124 | writing in pieces is writing the whole |
| `Fnv.FnvHasher.Write` | libs/3rdparty/cargo-vendor/fnv/lib.rs:115-124 | the loop updates the state as specified |

## Left out

- Argument parsing, JSON reading, pretty-printing and the generated C++ headers: formatting only. Routings and
  channels are typed values, so a missing key in the JSON text, other than an unknown channel name, does not arise.
- The CRC-32 itself: its libraries are not part of the repository. It is a parameter, and all results hold for every
  function from bytes to 32 bits.
- The rewriting of the routing dictionaries in `input_table` (`pop` of the name, insertion of the id): the model
  builds resolved routings instead, and does not capture that the caller's dictionaries change.
- The payloads of PDU transport and FlexRay channel records: a flat list of fields over an IP address library that
  is not part of this model; any bytes stand for them. Channel types are the three that the tool supports, in lower
  case.
- Channels with equal names: `channel_ids` merges them; the compiler results require distinct names.
- Statistics counters, error callbacks and log output of the ECU classes, and the initialization flag of the error
  reporting in the legacy Tx adapter.
- The packing of PDUs into frames by `PduTransportBufferedWriter`, which has a timeout: a delivery to such a channel is
  what is written to it.
- Writers that are temporarily full: a writer in the router takes every PDU up to its maximum size.
- A table whose shape the code indexes without a check: the adapters and the router require it, and compiled tables
  have it (`EndToEnd.CompiledRoutingMeans`, `EndToEnd.CompiledRxMeans`).
- `Integration.h`: how many channels of each type are built in, and channels that it skips for lack of a reader, writer
  or table; a gateway is given by what it connects.
- Flatten.OutputGenerator: the three output generators of a channel share one loop in the model, which yields whole
  outputs; the projections to id, length and offset are taken from its result.
- Reception.CompiledBlobWorks: does not speak of more than 256 channels; `Reception.BlobDelivers` does, and says which
  channel is found then.
- Queues so large that twice the capacity and an element exceed a `size_t`.
- Memory ordering weaker than sequential consistency in the queue, and `minAvailable`, a statistic. The size field is
  written byte by byte but read in one step; what is read does not change in between.
- Visualize.Visualize: labels nodes by channel id; the tool prints the name at that position of its name list, which
  is the channel's name only if the static channels are listed in the order of their ids.
- Tracing.Read: keeps cycle counts instead of times in nanoseconds, and therefore does not model the division by a
  recorded frequency of zero.
- IntelHex.ParseHexFile: numbers consist of digits only; `int(text, 16)` also accepts blanks, signs, underscores and
  a `0x` prefix.
- HeaderFixer.FixFile: ASCII text with LF line ends; the regular expression is a parameter, and the template text is
  given. Choosing which files to fix, and templates as regular expressions, are left out.
- Parsing of the feature table in document-features: the dependency map and the default list are given.
- Cortex.MaintainAll: counts from the numbers of sets and ways that the cache reports, which are parameters.
- Gateway.GatewayDelivers: queues between bus and adapter that overflow are left out, as are frames in which a length
  wraps around: what they are read as is given by `Ecu.SpanFuture`, but not related to the routings.
- Where an assertion of the container library resets the ECU, the state before the reset is not modelled further.
- UDS, SOME/IP, CAN FD and babeltrace clients, FreeRTOS, the Rust demo, register maps and compiler headers: thin
  clients of libraries that are not part of the repository, or configuration.
