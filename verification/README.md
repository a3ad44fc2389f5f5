# Dreamboat, modelled and proved

Dreamboat is a relay between block builders and proposers on Ethereum. Builders submit blocks with a
bid, a proposer asks for the best header for its slot, signs a blinded block with that header, and
gets the payload in exchange. Several relays may share a datastore and stream bids and blocks to each
other.

This project models in Dafny the parts of it whose correctness is not plain from reading one function,
and proves what they promise for all inputs, all runs and all interleavings.

| file | what it models |
|---|---|
| `Bytes.dfy`, `Ssz.dfy` | little-endian numbers; SSZ containers as the consensus specification defines them, as a reference for every encoder |
| `Transactions.dfy`, `Withdrawals.dfy`, `ExecutionPayload.dfy` | the hand-written codec of Capella execution payloads |
| `Bids.dfy`, `BlockTraces.dfy` | the codecs of headers, builder bids and streamed blocks |
| `Stream.dfy`, `Forks.dfy` | the formats in which bids and blocks are published and handled; fork versions |
| `Auction.dfy` | the ring of auctions, with its two maps for each slot |
| `Beacon.dfy` | the ring of beacon state and the events that drive it; the window of slots |
| `Verify.dfy`, `Stores.dfy` | batches of registrations; the registration store; the scan for delivered payloads |
| `Relay.dfy`, `RelayService.dfy`, `Cluster.dfy` | the decisions of a relay, the relay object, and any number of relays in every interleaving of their steps |
| `Scripts.dfy` | pieces of runs, from which the runs that show a failure are put together |
| `Provenance.dfy`, `Revealed.dfy`, `Availability.dfy`, `Deliveries.dfy`, `Eviction.dfy`, `Admission.dfy` | what holds over every run of them |

Objects whose methods update fields are classes (`Auctioneer`, `MultiSlotState`, `StoreResp`,
`Datastore`, `Relay`); each method is proved against a function on values, and the results over whole
runs are lemmas about those functions.

Where a promise does not hold of the code as it stands, there is an input or a run that shows it, and the
exact condition under which it does hold:

- A payload within all list limits can still be too large for four-byte offsets. The round trip holds
  if and only if the withdrawals offset is below 2^32 (`ExecutionPayloads.RoundTrip`,
  `ExecutionPayloads.WithinLimitsIsNotEnough`).
- Nil withdrawals pass through the codec as an empty list, and the header projection tells the two
  apart. A payload that is revealed has the signed header's root if and only if it is the payload that was
  submitted, or both lists give it one root (`RevealedPayloads.MatchesExactlyWhen`,
  `RevealedPayloads.RevealedMatchesSigned`, `RevealedPayloads.NilWithdrawalsBreakIt`). A relay that takes no
  blocks from the stream always returns what was submitted (`RevealedPayloads.WithoutStreamMatches`).
- The bid that rolls an auction over is recorded in the auction it replaces, against the comment beside
  that code (`AuctionRuns.RunCharacterized` and `AuctionRuns.IntendedRunCharacterized`,
  `AuctionRuns.IntendedExactlyWhen`, `AuctionRuns.LoneBidLost`).
- verifyBlock's second read returns before the trace checks, so a payload may be stored under another key
  than GetHeader builds. Where the submissions that touch its key agree on the payload, a bid can be redeemed
  if and only if its key is in the cache or the datastore
  (`PayloadAvailability.RedeemableExactlyWhen`, `PayloadAvailability.StoredExactlyWhen`,
  `PayloadAvailability.SecondReadBreaksIt`).
- A put of an older registration whose read of the time key fails is not turned away. With all writes
  succeeding, a key holds its latest registration if and only if no read of a later put failed
  (`RegistrationStore.StoresLatest`, `RegistrationStore.FailedReadRegresses`); the time key falls below the stored
  registration exactly when such a put's second write fails too (`RegistrationStore.TimeNeverBelow`,
  `RegistrationStore.FailedReadFallsBehind`).
- A bid leaves the ring while its slot is still asked for if and only if the relay took a bid at its
  place that was past the slot after the head, which only the stream can bring
  (`NoEarlyEviction.KeptExactlyWhen`, `NoEarlyEviction.EvictsExactlyWhen`,
  `NoEarlyEviction.StreamedBidEvictsEarly`).
- An empty batch of registrations waits until it is cancelled (`RegistrationBatch.EmptyBatchWaits`).

Assumptions that the model makes explicit. These are single steps: AddBlock; one event of the slot manager; one
call on the collector; the checks of verifyBlock with its first read of the beacon state, its second read, and
likewise the two reads of verifyWithdrawals; and in GetPayload the lookup, the validation, the publication and the load,
compare and store of the last delivery. Everything else may happen between steps. Tree hashing, signatures,
simulation, JSON and the clock are parameters. A panic inside a request ends that request with an error, as the HTTP
server recovers it; a panic in the slot manager ends the relay. `U256Str` values are compared as little-endian
numbers. The fastssz helpers, which are not in the repository, are written from the SSZ specification (section
"Serialization" and section "Deserialization" of `ssz/simple-serialize.md` in the Ethereum consensus
specifications).

## Model

| member | source | states |
|---|---|---|
| `Ssz.ContainerMatches` | structs/forks/capella/capella.go:559-653 | in the serialization of a container, as the consensus specification defines it, every fixed part and every offset is at its position in the fixed-length section and every variable part at its own offset |
| `Ssz.MatchesIsContainer` | structs/forks/capella/capella.go:656-774 | the converse: a buffer with every part in its place is the serialization of those parts, so the layout determines the bytes |
| `Ssz.OffsetsLocateFields` | structs/forks/capella/capella.go:559-653 | every offset written, read back, is the position from the start of its container where that field begins, whenever that position fits four bytes |
| `Ssz.ContainerSize` | structs/forks/capella/capella.go:777-793 | the length of a serialization is the fixed-length section plus all variable parts |
| `Ssz.OffsetRoundTrip` | structs/forks/capella/capella.go:593-611 | an offset written in four bytes is read back modulo 2^32, so unchanged exactly when it is below 2^32 |
| `Ssz.OffsetBytes` | structs/forks/capella/capella.go:696-719 | four bytes are the encoding of the offset they are read as, which is below 2^32 |
| `Ssz.Uint64RoundTrip` | structs/forks/capella/capella.go:581-591 | an eight-byte field is read back as the number written |
| `Transactions.EncodedSize` | structs/forks/capella/capella.go:603-614 | the sum over all transactions that the offset loop and the size loop compute is the length of the encoded list |
| `Transactions.TxsRoundTrip` | structs/forks/capella/capella.go:733-754 | a list of transactions within the limits, whatever their number and lengths, is decoded from its encoding if and only if the offset of the last one is below 2^32 |
| `Transactions.TxsCanonical` | structs/forks/capella/capella.go:733-754 | every accepted transactions section is within the limits and is the encoding of the list it decodes to, except that an empty list encodes to nothing |
| `Transactions.TxsAccepted` | structs/forks/capella/capella.go:733-754 | a section is accepted as a non-empty list if and only if it is the encoding of that list, of at most 1048576 transactions of at most 1073741824 bytes, with offsets that fit; as the empty list if and only if it is empty or starts with a zero offset |
| `Transactions.UnmarshalDynamic` | structs/forks/capella/capella.go:741-753 | the walk over the offset table hands out consecutive slices that stay in bounds, or the first error |
| `Transactions.UnmarshalTransactions` | structs/forks/capella/capella.go:733-754 | the decoder loop computes the decoding function, error cases included |
| `Transactions.WriteOffsetTable` | structs/forks/capella/capella.go:626-632 | the first loop appends exactly the offset table |
| `Transactions.AppendTransactions` | structs/forks/capella/capella.go:633-639 | the second loop appends the transactions, or stops at the first that is too long |
| `Transactions.MarshalTransactionsTo` | structs/forks/capella/capella.go:621-639 | appends the serialization of the list exactly when it is within the limits, and reports which limit it exceeds otherwise |
| `Transactions.SizeOfTransactions` | structs/forks/capella/capella.go:784-787 | the size loop adds the length of the encoded list |
| `Withdrawals.RecordRoundTrip` | structs/withdrawals.go:73-110 | a withdrawal is decoded from its 44 bytes |
| `Withdrawals.RecordBytes` | structs/withdrawals.go:73-88 | the bytes at which each field of a record is written |
| `Withdrawals.RecordCanonical` | structs/withdrawals.go:90-110 | 44 bytes are the encoding of the withdrawal they decode to |
| `Withdrawals.MarshalSSZTo` | structs/withdrawals.go:73-88 | appends the record encoding |
| `Withdrawals.MarshalRecordTo` | structs/forks/capella/capella.go:646-650 | appends the next record |
| `Withdrawals.UnmarshalSSZ` | structs/withdrawals.go:90-110 | fills every field of the receiver from 44 bytes, and rejects any other length |
| `Withdrawals.ListRoundTrip` | structs/forks/capella/capella.go:756-772 | 0 to 16 withdrawals are decoded from their section, which has 44 bytes for each |
| `Withdrawals.ListCanonical` | structs/forks/capella/capella.go:756-772 | an accepted withdrawals section is the encoding of the at most 16 withdrawals it decodes to |
| `Withdrawals.ListAccepted` | structs/forks/capella/capella.go:756-772 | a section is accepted if and only if it is the encoding of at most 16 withdrawals, which are what it decodes to; the two errors otherwise |
| `Withdrawals.MarshalListTo` | structs/forks/capella/capella.go:641-650 | appends all records, or rejects more than 16 |
| `Withdrawals.UnmarshalList` | structs/forks/capella/capella.go:756-772 | the decoder loop computes the decoding function, error cases included |
| `ExecutionFields.FieldsRoundTrip` | structs/forks/capella/capella.go:563-709 | the twelve fixed fields and the extra-data offset are read back from any buffer that starts with their encoding |
| `ExecutionFields.FieldsCanonical` | structs/forks/capella/capella.go:656-709 | the first 504 bytes of any buffer are the encoding of the fields read from them |
| `ExecutionFields.FieldBytes` | structs/forks/capella/capella.go:563-601 | the bytes at which each of the thirteen fields is written |
| `ExecutionFields.FieldsHeld` | structs/forks/capella/capella.go:663-709 | the decoder reads exactly the fields that are at those bytes |
| `ExecutionFields.Shape` | structs/forks/capella/capella.go:559-653 | the serialization of a container that starts with these thirteen fields, as consecutive sections |
| `ExecutionFields.MarshalHashesTo` | structs/forks/capella/capella.go:563-579 | appends fields 0 to 5 in order |
| `ExecutionFields.MarshalFieldsTo` | structs/forks/capella/capella.go:563-601 | appends fields 0 to 12 in order with the given extra-data offset |
| `ExecutionPayloads.RoundTrip` | structs/forks/capella/capella.go:559-774 | a payload within the list limits is decoded from its encoding if and only if the offset of its withdrawals is below 2^32, and is rejected otherwise; nil withdrawals come back as an empty list |
| `ExecutionPayloads.WithinLimitsIsNotEnough` | structs/forks/capella/capella.go:559-653 | a payload within all list limits, with four transactions of the greatest length, whose encoding the decoder rejects |
| `ExecutionPayloads.NormalForm` | structs/forks/capella/capella.go:656-774 | every accepted buffer re-encodes to a buffer that decodes to the same payload; it is the same buffer if and only if the first offset is 512 and an empty transaction list has an empty section, and shorter otherwise |
| `ExecutionPayloads.AcceptedExactlyWhen` | structs/forks/capella/capella.go:656-774 | a buffer decodes to a payload if and only if its offsets, in order and inside it, cut it into the fields, at most 32 bytes of extra data, an accepted transactions section and the encoding of at most 16 withdrawals |
| `ExecutionPayloads.Rejected` | structs/forks/capella/capella.go:656-727 | the error for a short buffer, for each kind of bad offset, and for too much extra data |
| `ExecutionPayloads.EncodeShape` | structs/forks/capella/capella.go:559-653 | the serialization of a payload is its fixed section of 512 bytes followed by extra data, transactions and withdrawals |
| `ExecutionPayloads.EncodedBytes` | structs/forks/capella/capella.go:559-653 | the bytes at which every field, offset and section of a payload is written |
| `ExecutionPayloads.LimitsAgree` | structs/forks/capella/capella.go:614-650 | the encoder reports no error exactly for 0 to 32 bytes of extra data, 1048576 transactions of at most 1073741824 bytes and 16 withdrawals, and which error for each limit otherwise |
| `ExecutionPayloads.MarshalFixedTo` | structs/forks/capella/capella.go:559-612 | appends the fixed section with offsets that add up the sizes of the sections |
| `ExecutionPayloads.MarshalWithOffsetsTo` | structs/forks/capella/capella.go:563-611 | appends fields and offsets in order |
| `ExecutionPayloads.MarshalVariableTo` | structs/forks/capella/capella.go:614-652 | appends the three variable sections, or reports the first limit exceeded |
| `ExecutionPayloads.MarshalSSZTo` | structs/forks/capella/capella.go:559-653 | appends the serialization of the payload if and only if it is within the limits |
| `ExecutionPayloads.UnmarshalSSZ` | structs/forks/capella/capella.go:656-774 | computes the decoding function, with every error case, and appends the extra data to what the receiver held |
| `ExecutionPayloads.SizeSSZ` | structs/forks/capella/capella.go:777-793 | SizeSSZ is the length of the encoding |
| `BuilderBids.HeaderRoundTrip` | structs/forks/capella/capella.go:1161-1295 | a header is decoded from its encoding whenever the encoder accepts it |
| `BuilderBids.HeaderBytes` | structs/forks/capella/capella.go:1161-1219 | the bytes at which everything in a header is written |
| `BuilderBids.HeaderNormalForm` | structs/forks/capella/capella.go:1222-1295 | an accepted header buffer is canonical if and only if its offset is 568, and longer than its re-encoding otherwise |
| `BuilderBids.HeaderAccepted` | structs/forks/capella/capella.go:1222-1295 | a buffer decodes to a header if and only if it holds its fields and roots, and ends with its extra data where the offset says; the errors otherwise |
| `BuilderBids.MarshalHeaderTo` | structs/forks/capella/capella.go:1161-1219 | appends the serialization of the header, or rejects extra data over 32 bytes |
| `BuilderBids.UnmarshalHeader` | structs/forks/capella/capella.go:1222-1295 | computes the decoding function, appending to the extra data of the receiver |
| `BuilderBids.SizeOfHeader` | structs/forks/capella/capella.go:1298-1305 | SizeSSZ is the length of the encoding |
| `BuilderBids.BidRoundTrip` | structs/forks/capella/capella.go:313-382 | a bid with its byte-reversed value is decoded from its encoding |
| `BuilderBids.BidBytes` | structs/forks/capella/capella.go:313-338 | the bytes at which everything in a bid is written, the value most significant byte first |
| `BuilderBids.BidNormalForm` | structs/forks/capella/capella.go:341-382 | an accepted bid buffer is canonical if and only if its offsets are 84 and 568 |
| `BuilderBids.BidAccepted` | structs/forks/capella/capella.go:341-382 | the same as for headers: exactly which buffers decode to which bids |
| `BuilderBids.AppendReversed` | structs/forks/capella/capella.go:324-327 | the loop appends the value in reversed byte order |
| `BuilderBids.MarshalBidTo` | structs/forks/capella/capella.go:313-338 | appends the serialization of the bid |
| `BuilderBids.UnmarshalBid` | structs/forks/capella/capella.go:341-382 | computes the decoding function |
| `BuilderBids.SizeOfBid` | structs/forks/capella/capella.go:385-395 | SizeSSZ is the length of the encoding |
| `BuilderBids.RoundTrip` | structs/forks/capella/capella.go:441-494 | an extended bid, three nested containers with header, value, key, proposer and slot, is decoded from its encoding |
| `BuilderBids.EncodedBytes` | structs/forks/capella/capella.go:441-460 | the bytes at which everything in a streamed bid is written |
| `BuilderBids.NormalForm` | structs/forks/capella/capella.go:463-494 | an accepted extended bid re-encodes to a no longer buffer that decodes to the same bid, the same one if and only if all three offsets are canonical |
| `BuilderBids.Accepted` | structs/forks/capella/capella.go:463-494 | exactly which buffers decode to which streamed bids |
| `BuilderBids.MarshalSSZTo` | structs/forks/capella/capella.go:441-460 | appends the serialization of the extended bid |
| `BuilderBids.UnmarshalSSZ` | structs/forks/capella/capella.go:463-494 | computes the decoding function |
| `BuilderBids.SizeSSZ` | structs/forks/capella/capella.go:497-504 | SizeSSZ is the length of the encoding |
| `BlockTraces.TraceIsContainer` | structs/forks/capella/capella.go:2272-2301 | the nine fixed fields written are the container serialization of the bid trace |
| `BlockTraces.SignedIsContainer` | structs/forks/capella/capella.go:2226-2232 | a signed bid trace is the container serialization of signature and trace |
| `BlockTraces.TraceRoundTrip` | structs/forks/capella/capella.go:2272-2337 | a bid trace is decoded from its 236 bytes |
| `BlockTraces.TraceBytes` | structs/forks/capella/capella.go:2272-2300 | the bytes at which each field of a trace is written |
| `BlockTraces.TraceHeld` | structs/forks/capella/capella.go:2303-2337 | the decoder reads exactly the trace that is there |
| `BlockTraces.TraceCanonical` | structs/forks/capella/capella.go:2303-2337 | 236 bytes are the encoding of the trace they decode to |
| `BlockTraces.MarshalTraceTo` | structs/forks/capella/capella.go:2272-2301 | appends the nine fields in order |
| `BlockTraces.SignedRoundTrip` | structs/forks/capella/capella.go:2226-2249 | a signed bid trace is decoded from its 332 bytes |
| `BlockTraces.ResponseRoundTrip` | structs/forks/capella/capella.go:1581-1630 | version and payload are decoded from their encoding if and only if the data offset and the withdrawals offset of the payload are below 2^32; with a version that fits, anything else is rejected |
| `BlockTraces.RoundTrip` | structs/forks/capella/capella.go:1443-1502 | a block with trace, header root, version and payload is decoded from its encoding, nil withdrawals now empty, if and only if its data offset and the withdrawals offset of its payload are below 2^32 |
| `BlockTraces.ResponseNormalForm` | structs/forks/capella/capella.go:1597-1630 | the same for a response: canonical if and only if its offset is 8 and its payload is canonical, and longer than its re-encoding otherwise |
| `BlockTraces.ResponseAccepted` | structs/forks/capella/capella.go:1597-1630 | exactly which buffers decode to which responses, and the errors otherwise |
| `BlockTraces.NormalForm` | structs/forks/capella/capella.go:1466-1502 | every accepted block buffer re-encodes to one that is no longer and decodes to the same block; it is the same buffer if and only if its offsets are 368 and 8 and its payload is canonical |
| `BlockTraces.EncodedBytes` | structs/forks/capella/capella.go:1443-1463 | the bytes at which everything in a streamed block is written |
| `BlockTraces.Accepted` | structs/forks/capella/capella.go:1466-1502 | exactly which buffers decode to which blocks, and the errors otherwise |
| `BlockTraces.MarshalResponseTo` | structs/forks/capella/capella.go:1581-1595 | appends the serialization, or passes on the limit that the payload exceeds |
| `BlockTraces.UnmarshalResponse` | structs/forks/capella/capella.go:1597-1630 | computes the decoding function |
| `BlockTraces.MarshalSSZTo` | structs/forks/capella/capella.go:1443-1463 | appends the serialization, or passes on the limit that the payload exceeds |
| `BlockTraces.EncodeIsNested` | structs/forks/capella/capella.go:1443-1463 | what the encoder writes is the serialization of nested containers, down to the bid trace and the payload |
| `BlockTraces.UnmarshalSSZ` | structs/forks/capella/capella.go:1466-1502 | computes the decoding function |
| `BlockTraces.SizeOfResponse` | structs/forks/capella/capella.go:1566-1574 | SizeSSZ is the length of the encoding |
| `BlockTraces.SizeSSZ` | structs/forks/capella/capella.go:1505-1512 | SizeSSZ is the length of the encoding |
| `Streaming.BidArrives` | stream/stream.go:161-195 | whatever Capella bid could be published arrives unchanged, and the handler rejects a format as unknown exactly for forks before Bellatrix |
| `Streaming.JsonIsHandled` | stream/stream.go:94-195 | bids and blocks in the Bellatrix and Capella JSON formats are decoded as JSON |
| `Streaming.PublishedFormats` | stream/stream.go:270-322 | the format in which each fork is published, and exactly when a Capella bid or block can be |
| `Streaming.HandleBidMessage` | stream/stream.go:161-195 | the handler decodes into a fresh value, so nothing of an earlier message remains |
| `Streaming.BlockArrives` | stream/stream.go:94-128 | a published Capella block within the limits and with fitting offsets arrives with trace, header root, version and payload, nil withdrawals now empty |
| `Streaming.BlockArrivesExactlyWhen` | stream/stream.go:270-322 | a published Capella block arrives, nil withdrawals now empty, if and only if its offsets fit; where only the payload does not fit, nothing is delivered |
| `Forks.VersionMonotone` | structs/structs.go:323-347 | for every fork schedule, epochs unset or out of order included, the version never goes back as slots go on |
| `Forks.VersionExactly` | structs/structs.go:323-347 | the slots of each fork: Capella from slot 32 times its epoch on, if that is set, and likewise the others |
| `Auctions.LastBidsLast` | auction/auctioneer.go:65 | the entry for a builder and parent is a bid that was recorded, and no later bid has the same builder and parent |
| `Auctions.ValueIs` | structs/forks/capella/capella.go:295-297 | the value that bids are compared by is the number written in 32 bytes, least significant first |
| `Auctions.IndexAnswers` | auction/auctioneer.go:101-114 | the best-bid map answers exactly for parents that have a bid, with a last bid of its builder that no other last bid for the parent exceeds |
| `Auctions.BestExactlyWhen` | auction/auctioneer.go:60-98 | from the bids alone: a bid is best if and only if it is for the parent, the last of its builder for it, and not below any last bid of a builder for it |
| `Auctions.IndexAfterHigher` | auction/auctioneer.go:66-78 | a first or no lower bid taking the place of the best keeps the index right |
| `Auctions.IndexAfterLower` | auction/auctioneer.go:80-98 | a lower bid of a builder that is not winning may be left out of the best-bid map |
| `Auctions.IndexAfterRerank` | auction/auctioneer.go:80-97 | after a builder lowered its own winning bid, any greatest last bid for the parent restores the index |
| `Auctions.BeatsBest` | auction/auctioneer.go:66-78 | comparing with the best bid alone decides whether a bid is at least every last bid for its parent |
| `Auctions.Rerank` | auction/auctioneer.go:83-96 | whatever the order in which the map is visited, the loop ends with a greatest last bid for the parent |
| `Auctions.Rank` | auction/auctioneer.go:65-98 | keeps the best-bid map an index of the last-bid map in all three cases, and reports a new maximum exactly when the bid is at least every last bid for its parent |
| `Auctions.Record` | auction/auctioneer.go:65-98 | after a bid for the slot of the auction both maps say what the log with that bid says |
| `Auctions.Auctioneer.constructor` | auction/auctioneer.go:26-38 | one empty auction for each place, for slots 0 to n-1 |
| `Auctions.Auctioneer.Roll` | auction/auctioneer.go:53-63 | as written: the live auction is replaced by an empty one, and the bid is written to the one replaced |
| `Auctions.Auctioneer.RecordAt` | auction/auctioneer.go:65-98 | a bid for the live slot is recorded in the live auction and nowhere else |
| `Auctions.Auctioneer.AddBlock` | auction/auctioneer.go:40-99 | the ring afterwards, whether the bid is a new maximum, that a new maximum is offered from then on, and that the lower bid of another builder leaves the offer alone |
| `Auctions.Auctioneer.MaxProfitBlock` | auction/auctioneer.go:101-114 | answers exactly when the live slot has a bid for the parent, with the best bid that AddBlock last left there |
| `AuctionRuns.RunCharacterized` | auction/auctioneer.go:40-99 | after any run of bids the live auction of a place is for the latest slot bid for there, and stands for the bids of that slot without the one that rolled the ring over |
| `AuctionRuns.IntendedRunCharacterized` | auction/auctioneer.go:53-63 | with the bid that rolls the ring over recorded, as the comment intends: after any run the auction of a place is for the latest slot bid for there and stands for all bids of that slot |
| `AuctionRuns.IntendedExactlyWhen` | auction/auctioneer.go:53-63 | after any run the code may offer for a parent exactly the bids that are intended if and only if the slot is one of the first n, or the bid that rolled the ring over was for another parent, was followed by another of its builder for it, or is below the last bid of some builder |
| `AuctionRuns.OfferWithoutFirst` | auction/auctioneer.go:101-114 | leaving out the first bid of a log changes which bids may be offered for a parent exactly when that bid decided it |
| `AuctionRuns.LoneBidLost` | auction/auctioneer.go:53-63 | a single bid for a slot past the first n is not offered, although it was reported as the new maximum |
| `Provenance.StepKeepsInv` | relay/submit.go:229-267 | every step of every relay, expiry and second reads included, keeps all that is stored, cached, streamed, bid or delivered going back to a submission that was stored, under one of its two keys |
| `Provenance.RunInv` | relay/relay.go:302-326 | the same after every run of any number of relays |
| `Provenance.BidsCarryPayloads` | structs/forks/capella/capella.go:182-292 | in every run, every bid in every auction has the header of the payload of a stored submission, field by field and root by root, and value, builder, proposer and slot of its trace |
| `Provenance.EntriesCarryPayloads` | structs/forks/capella/capella.go:153-180 | in every run, everything in the datastore is the payload and signed trace of a submission, under block hash, proposer and slot of the trace, with the root of the header of the payload |
| `SlotWindow.WindowBounds` | relay/submit.go:314-318 | the range check on wrapping counters admits exactly the n slots up to the one after the head, and nothing where its lower end wraps; the old-slot check is exactly below that window |
| `BeaconState.MultiSlotState.SetHeadSlotIfHigher` | beacon/state.go:80-91 | the head is set when there is none or the slot is higher, and the head then held is returned |
| `BeaconState.MultiSlotState.SetWithdrawals` | beacon/state.go:104-120 | the entry of another slot at the place is replaced by an empty one; then the withdrawals are recorded under their parent |
| `BeaconState.MultiSlotState.SetRandao` | beacon/state.go:132-148 | the same for randao |
| `SlotManager.ProcessNewSlot` | beacon/manager.go:253-319 | one event over the mutable state computes the event function, with every early return and with the write that panics |
| `SlotManager.UpdateWithdrawalsAndRandao` | beacon/manager.go:321-335 | both records are made, or neither; writing slot 0 over an entry that was never written panics |
| `BeaconRuns.StepShape` | beacon/manager.go:253-335 | an event keeps the greater head, changes the ring only to record at the head slot, and changes the parent that later events are compared with exactly when it goes on past the first checks |
| `BeaconRuns.OutcomeExactlyWhen` | beacon/manager.go:253-335 | exactly when the handler of an event fails and when it panics |
| `BeaconRuns.RunInvariant` | beacon/manager.go:177-229 | over every run of events: the head is the greatest slot received; every entry is at the place of its slot, no later than the head, and has withdrawals for exactly the parents it has randao for |
| `BeaconRuns.StepKeepsRecord` | beacon/state.go:93-148 | one event for another slot or another parent leaves a record readable and unchanged while the head is less than n past its slot |
| `BeaconRuns.WindowKept` | beacon/state.go:93-148 | the same over every run of events, so a second parent at the same slot keeps what was recorded for the first |
| `BeaconRuns.RecordedReads` | beacon/state.go:93-148 | what an event records is read back at once under its slot and parent |
| `BeaconRuns.RecordsComeFrom` | beacon/manager.go:321-335 | every record in the state of every run was made by an event of the run for its slot and parent, and reads as that event |
| `BeaconRuns.AdmittedInWindow` | relay/submit.go:314-320 | every slot that the range check admits is read, one slot back, inside the window in which records are kept |
| `BeaconRuns.AdmittedReadsRecorded` | relay/submit.go:314-320 | a submission that the range check admits reads exactly the randao and withdrawals root of the event it builds on, whatever events came before and after, unless one was for the same slot and parent |
| `RegistrationStore.Datastore.PutNewerRegistration` | datastore/validator/badger/badger.go:43-68 | both keys after one put, whichever of its three database calls fail, when it reports success, and that the store holds what the run of all puts so far leaves |
| `RegistrationStore.PutExactly` | datastore/validator/badger/badger.go:43-68 | what one put does: nothing where a later timestamp is read from eight bytes; otherwise both keys as far as the writes succeed; nothing to other validators |
| `RegistrationStore.Datastore.constructor` | datastore/validator/badger/badger.go:36-41 | an empty store |
| `RegistrationStore.Datastore.GetRegistration` | datastore/validator/badger/badger.go:70-81 | what is returned was put for its key; after puts whose writes succeed there is a registration exactly for keys that were put, and it is the latest of the puts since the last one whose read failed |
| `RegistrationStore.StoresLatest` | datastore/validator/badger/badger.go:43-68 | after any run of puts whose writes succeed, a key holds the put with the greatest timestamp, the last of ties, if and only if no read of a later put for it failed; the same for the timestamp |
| `RegistrationStore.StoredSince` | datastore/validator/badger/badger.go:43-68 | after any run of puts whose writes succeed, a key that was put holds the latest of the puts since the last one whose read failed |
| `RegistrationStore.FailedReadRegresses` | datastore/validator/badger/badger.go:51-67 | two puts with a failed read after which the older registration is stored |
| `RegistrationStore.OrdersAgree` | datastore/validator/badger/badger.go:43-68 | any two orders of the same puts, with all writes succeeding, have one greatest timestamp; if one order leaves it stored, the other leaves the same exactly when no read failed there after the latest put |
| `RegistrationStore.TimeNeverBelow` | datastore/validator/badger/badger.go:43-68 | over every run, whatever fails: the time key is never below the timestamp of the stored registration if and only if no put of an older registration had its read and its second write fail while its first write succeeded |
| `RegistrationStore.BehindExactlyWhen` | datastore/validator/badger/badger.go:51-67 | from any state in which it is not below, a put leaves it below in exactly that case |
| `RegistrationStore.FailedReadFallsBehind` | datastore/validator/badger/badger.go:51-67 | two puts after which it is |
| `RegistrationStore.RegressesExactlyWhen` | datastore/validator/badger/badger.go:51-67 | from any such state, a put takes the stored timestamp back if and only if its read failed, its writes did not, and it is older |
| `DeliveredScan.GetLatestDelivered` | datastore/evidence/badger/payload.go:133-171 | at most 351 probes even when the counter wraps; without a database error exactly the traces from the start down 350 slots, one more if the last of them was found, newest first and cut at the limit; with one, the traces found before the probe that failed |
| `DeliveredScan.ReadEnough` | datastore/evidence/badger/payload.go:133-171 | stopping at the limit or at the end of the span gives the same result as reading the whole span and cutting it |
| `DeliveredScan.ProbesDown` | datastore/evidence/badger/payload.go:134-169 | the slots probed go down one by one, and wrap below slot 0 |
| `DeliveredScan.FoundExactly` | datastore/evidence/badger/payload.go:140-170 | the traces found are those of the probes that found one, in the order of the probes |
| `DeliveredScan.SpanIs` | datastore/evidence/badger/payload.go:144-169 | 350 slots are looked at, and one more if the last of them had a trace |
| `ResultCollector.StoreResp.SendResult` | verify/verify.go:68-87 | a result counts only while open; an error or the last missing success closes |
| `ResultCollector.StoreResp.CloseWith` | verify/verify.go:93-101 | an error is kept even when already closed, and the done channel is closed only once |
| `ResultCollector.StoreResp.Skip` | verify/verify.go:103-116 | one fewer result is awaited while open |
| `ResultCollector.StoreResp.CloseDone` | verify/verify.go:118-123 | closes once |
| `RegistrationBatch.StepInv` | validators/validators.go:84-146 | every step of producer, worker and cancellation keeps the invariant: nothing is held twice, all that is held passed the checks, and the counts add up |
| `RegistrationBatch.RunInv` | validators/validators.go:84-146 | the invariant holds after every interleaving |
| `RegistrationBatch.StoredAreGenuine` | validators/validators.go:130-146 | for every interleaving the store request holds each index at most once, and only registrations at most ten seconds ahead, of a known validator, not skipped and with a good signature |
| `RegistrationBatch.ReturnStores` | validators/validators.go:114-159 | over every run: a return without error has every registration skipped or in the store request; a return with an error stores what was verified, a cancelled one nothing |
| `RegistrationBatch.GoodBatchSucceeds` | validators/validators.go:72-159 | over every run without cancellation, with acceptable and signed registrations: a return is without error and stores all that was not skipped |
| `RegistrationBatch.ErrorHasCause` | validators/validators.go:85-176 | over every run, an error goes back to a cancellation, a message without signing root, a registration that is not acceptable at that moment, or a bad signature |
| `RegistrationBatch.SkippedWasHit` | validators/validators.go:94-98 | over every run, a registration is skipped only by a hit on it |
| `RegistrationBatch.ProducerErrorWins` | validators/validators.go:100-105 | the error of the producer is returned, whatever the workers reported before |
| `RegistrationBatch.RunsEnd` | validators/validators.go:84-159 | a schedule whose every action does something has at most three actions for each registration, and two more |
| `RegistrationBatch.StuckMeansReturned` | validators/validators.go:123-159 | when nothing but cancellation can do anything, a batch that is not empty has returned |
| `RegistrationBatch.FrozenOnceClosed` | verify/verify.go:68-123 | once closed, the collected indexes never change, whatever happens after |
| `RegistrationBatch.Conservation` | verify/verify.go:49-123 | while open, successes and skips are fewer than the batch; the done channel is closed exactly once when closed and never before |
| `RegistrationBatch.ClosedCleanlyCoversAll` | verify/verify.go:49-123 | closed without an error, every registration of the batch was skipped or verified |
| `RegistrationBatch.AllProcessedMeansClosed` | validators/validators.go:84-129 | when the producer is done and all queued work is processed, the collector is closed, for batches that are not empty |
| `RegistrationBatch.EmptyBatchWaits` | validators/validators.go:124-129 | for an empty batch it never is: only cancellation ends the wait |
| `RevealedPayloads.RevealedMatchesSigned` | relay/relay.go:460-480 | in every run, without restriction: the header of a payload returned has the root that was signed, or its withdrawals are empty and the signed root is that of the same payload with nil withdrawals; where nil and empty give different roots, exactly one of the two |
| `RevealedPayloads.MatchesExactlyWhen` | structs/forks/capella/capella.go:241-286 | in every run, every payload returned goes back to a stored submission whose header has the signed root; its own header has that root if and only if it is the payload submitted, or nil and empty withdrawals give it one root |
| `RevealedPayloads.WithWithdrawalsMatches` | structs/forks/capella/capella.go:241-286 | if every submission that was stored had withdrawals, every payload returned matches |
| `RevealedPayloads.WithoutStreamMatches` | relay/relay.go:302-316 | a relay that takes no blocks from the stream returns the payload that was submitted, matching, whatever is submitted and whatever the other relays do |
| `RevealedPayloads.WithoutStreamCaches` | relay/relay.go:302-326 | in every run, a relay that takes no blocks from the stream caches only Capella entries, each as it was stored for a submission under the key of its trace |
| `RevealedPayloads.NilWithdrawalsBreakIt` | relay/relay.go:182-196 | a run of two new relays: one learns of a parent and accepts a submission that builds on it and has nil withdrawals, whose bid is the best when GetHeader fetches and publishes its payload; the other receives it, is sent its header and returns a payload whose header has another root |
| `PayloadAvailability.OfferedIsStored` | relay/relay.go:272-275 | in every run, a bid in any auction whose key did not expire and of which no submission with differing hashes was accepted on a second read has its payload in the datastore under the key GetHeader builds |
| `PayloadAvailability.OfferedIsRedeemable` | relay/relay.go:460-480 | then, if the submissions that touch its key agree on the payload, its header, signed and sent to any relay that may still deliver for the slot, gets the payload of the submission that made the bid |
| `PayloadAvailability.RedeemableExactlyWhen` | relay/relay.go:460-480 | in every run, expiry and second reads included: for a bid in any auction on whose payload the submissions that touch its key agree, a relay that may still deliver for the slot answers if and only if the key of the bid is in its cache or in the datastore, with the payload of a submission that made the bid |
| `PayloadAvailability.StoredExactlyWhen` | relay/submit.go:241-243 | unless it expired, a key is in the datastore exactly when a submission was stored under it, in every run |
| `PayloadAvailability.StoredIsChecked` | relay/submit.go:305-345 | in every run, whatever is stored is for a slot above 0 with the timestamp of that slot; unless accepted on a second read, it pays or has transactions, and its trace names the block hash and the parent of its payload |
| `PayloadAvailability.FetchedIsFound` | relay/relay.go:302-326 | a payload that was fetched for a header is found after it expired in the datastore |
| `PayloadAvailability.SecondReadBreaksIt` | relay/submit.go:320-331 | a run of a new relay: two submissions of a block whose trace names another block hash do not find their randao, the event they build on is recorded, their second read of the state passes, their payload is stored, their bid is the best in the auction, and the relay refuses whoever signed its header |
| `OneBlockPerSlot.DeliveriesOrdered` | relay/relay.go:534-543 | in every run, at every relay, delivered slots never go back and no slot is delivered with two block hashes |
| `OneBlockPerSlot.AnsweredAgain` | relay/relay.go:534-543 | a request that was answered is answered again with the same payload, as long as its entry is found and nothing else was delivered |
| `OneBlockPerSlot.SentTwice` | relay/relay.go:538-540 | so a block sent twice gets its payload twice |
| `OneBlockPerSlot.OtherForkCounts` | relay/relay.go:534-595 | a request for a slot of another fork gets no payload, and moves the last delivery exactly when its entry is cached, valid and may be delivered |
| `NoEarlyEviction.EvictedOnlyWhenOld` | relay/relay.go:228-231 | for every ring size and run, at a relay that takes no bid from the stream that is past the slot after its head at that moment, a bid that left the ring is for a slot for which GetHeader answers that it is old |
| `NoEarlyEviction.KeptExactlyWhen` | auction/auctioneer.go:40-63 | for every ring size and run, whatever is streamed: a bid for a slot up to the one after the head that is not old later is still in the ring if and only if every bid the relay took since at its place was, when taken, for at most the slot after the head |
| `NoEarlyEviction.EvictsExactlyWhen` | auction/auctioneer.go:53-63 | a bid from anywhere throws out one of its place that can still be asked for if and only if it is for a slot past the one after the head |
| `NoEarlyEviction.StreamedBidEvictsEarly` | relay/relay.go:198-207 | a run of two new relays: one has the best bid for the slot after its head; the other, n slots ahead, accepts and publishes a bid for the same place; the first takes it and loses its bid while a header for its slot can still be asked for |
| `NoEarlyEviction.VerifiedBound` | relay/submit.go:314-318 | a submission that gets past the range check, whether or not it must read again, is for at most the slot after the head |
| `AdmittedBids.BeaconOfRun` | beacon/manager.go:177-229 | in every run, the beacon state of a relay is what the slot manager makes of its events |
| `AdmittedBids.AdmittedBuildsOnEvents` | relay/submit.go:320-378 | in every run, the random of an admitted submission, on whichever read it passed, is the randao of an event the relay recorded for the slot before and its parent, and the header of its bid has the withdrawals root of such an event, unless its withdrawals are nil |
| `AdmittedBids.AdmittedPassedChecks` | relay/submit.go:53-104 | in every run, nothing is admitted for which registration, signature or simulation failed |
| `RelayRules.VerdictExactlyWhen` | relay/submit.go:305-345 | exactly when verifyBlock passes, must read again, and returns each error, on its first read |
| `RelayRules.AgainExactlyWhen` | relay/submit.go:321-329 | exactly when its second read passes |
| `RelayRules.WithdrawalsExactlyWhen` | relay/submit.go:347-378 | nil withdrawals pass; others exactly when their root is the recorded one, which is not zero |
| `RelayRules.HashStringDigits` | relay/submit.go:320 | the text that a randao is compared with is 0x and two lower-case hexadecimal digits for each byte |
| `RelayRules.HeaderExactlyWhen` | structs/forks/capella/capella.go:241-292 | a payload has a header exactly when its lists can be hashed, and it is the one with its fields, extra data, root of transactions, and root of withdrawals, zero for nil |
| `RelayRules.RootExactlyWhen` | structs/forks/capella/capella.go:153-180 | the root stored for a payload is that of this header |
| `RelayRules.EntryExactlyWhen` | structs/forks/capella/capella.go:153-180 | what is stored for a submission: its payload, marked capella, its signed trace, and that root |
| `RelayRules.BidCarries` | structs/forks/capella/capella.go:182-216 | what is bid for a submission: that header, and value, builder, proposer and slot of the trace |
| `RelayRules.DeliverExactlyWhen` | relay/relay.go:534-543 | a later slot may be delivered, and the last block again; exactly when each error is returned |
| `RelayService.VerifiedWhen` | relay/submit.go:305-345 | verifyBlock passes if and only if the submission is in time and either its random is recorded at the first read, it pays or has transactions, and its trace names the block hash and parent of its payload, or its random is recorded at the second read |
| `RelayService.RootedWhen` | relay/submit.go:347-378 | verifyWithdrawals passes if and only if the withdrawals are nil or have the root recorded at the first read, or at the second where the first found none |
| `RelayService.SubmittedWhen` | relay/submit.go:33-137 | a submission gets through if and only if both pass, registration, signature, simulation and datastore are in order, the payload has a header root and the slot is a Capella slot |
| `RelayService.Relay.constructor` | relay/relay.go:152-173 | a new relay is the initial state of the cluster model |
| `RelayService.CheckBeforeRead` | relay/submit.go:306-318 | the checks of verifyBlock before it reads: the error if one fails, whatever the read would give |
| `RelayService.Relay.ReadFirst` | relay/submit.go:305-345 | verifyBlock up to its first read: exactly when it passes, when it must read again, and which error it returns |
| `RelayService.Relay.VerifySubmission` | relay/submit.go:305-345 | the same as a step of the cluster model; reading a slot that was never written ends the request |
| `RelayService.Relay.VerifySubmissionLater` | relay/submit.go:321-329 | its second read of the beacon state, as it is then: passes exactly when the randao is the one of the submission, whatever the trace says; which error otherwise |
| `RelayService.Relay.CheckWithdrawals` | relay/submit.go:347-378 | verifyWithdrawals up to its first read: exactly when it passes, when it must read again, and which error it returns |
| `RelayService.Relay.CheckWithdrawalsLater` | relay/submit.go:355-376 | its second read of the beacon state, as it is then, and which error |
| `RelayService.Relay.Sleep` | beacon/manager.go:177-229 | while a request waits, the beacon state moves on by the events that arrive |
| `RelayService.Relay.Verify` | relay/submit.go:305-345 | verifyBlock with the events that arrive while it waits: what it returns, as a run of the cluster model |
| `RelayService.Relay.Root` | relay/submit.go:347-378 | verifyWithdrawals with the events that arrive while it waits, and the simulation after it: what it returns, as a run of the cluster model |
| `RelayService.Relay.Admit` | relay/submit.go:33-104 | the first check that a submission fails, if any, in the order of the source; the call is a run of the cluster model |
| `RelayService.Relay.PutPayload` | relay/submit.go:241-243 | the entry is stored under the key of the trace |
| `RelayService.Relay.RecordBid` | relay/submit.go:247-251 | the bid enters the auction exactly for Capella slots |
| `RelayService.Relay.StoreSubmission` | relay/submit.go:229-267 | the payload is stored before the bid enters the auction; exactly when each failure happens and what it leaves behind |
| `RelayService.Relay.SubmitBlock` | relay/submit.go:33-137 | the first thing that goes wrong, if any; the call is a run of the cluster model, which then ends with putting the payload and recording the bid; one that is turned away before that changes neither datastore nor auction |
| `RelayService.Relay.GetHeader` | relay/relay.go:219-395 | exactly when each of the five errors is returned, which change nothing; otherwise the answer carries header and value of a best bid for slot and parent, for this proposer, with the key of the relay, and its payload is cached |
| `RelayService.Relay.GetPayload` | relay/relay.go:399-595 | exactly when each of the nine errors is returned; the relay after the call is that of the reveal step of the cluster model, or unchanged; an answer is given exactly when a delivery is recorded, and is its payload |
| `RelayService.Relay.TakeBid` | relay/relay.go:198-207 | a bid from the stream goes into the auction like any other |
| `RelayService.Relay.TakeBlock` | relay/relay.go:182-196 | a block from the stream is cached under the hash of its payload unless that key is cached already |

## Left out

- `RelayService.Relay.GetPayload`: for requests decoded as Capella blocks, whatever their slot; requests decoded as Bellatrix blocks, and Bellatrix entries in the cache, are not modelled.
- `RelayService.Relay.Admit`: registration, signature and simulation are given as verdicts; the events that arrive while a request waits are parameters.
- `RelayService.Relay.GetHeader`: the payload is cached before the answer is returned, although the code does it in the background; in `Cluster` the fetch is a step of its own that may come at any time or not at all. For a Capella bid at a Bellatrix slot the code may besides cache the entry read as a Bellatrix one.
- `BeaconState.MultiSlotState.SetWithdrawals`: not for slot 0 over an entry that was never written, where the call panics.
- `BeaconState.MultiSlotState.SetRandao`: not for slot 0 over an entry that was never written, where the call panics.
- `SlotManager.ProcessNewSlot`: not for proposal slot 0, which the event loop skips; fetching and storing proposer duties is a verdict of the event.
- `SlotManager.UpdateWithdrawalsAndRandao`: not for proposal slot 0, which the event loop skips.
- `Streaming.BidArrives`: says of Bellatrix only that the handler knows the format, because Bellatrix bids are decoded into another type.
- `PayloadAvailability.OfferedIsRedeemable`: for bids of which no submission with differing hashes was accepted on a second read, with equal keys meaning equal payloads and no expiry of their key, because it is false otherwise; `PayloadAvailability.RedeemableExactlyWhen` says what holds in every run.
- `RegistrationBatch.AllProcessedMeansClosed`: a worker that panics inside a signature check and recovers reports nothing, and is not modelled.
- HTTP handlers, logging, metrics, configuration, Redis, Badger and Postgres access, and the warehouse.
- BLS signatures and tree hashing, which are third-party code.
- Bellatrix types, whose encoder has no decoder and no matching offsets.
- Transport framing of streamed messages, and JSON beyond being an encoding with a decoder.
- The order in which the payload cache evicts entries: in `Cluster` it may drop any entry at any time.
- checkRegistration and its cache, whose ageing depends on the clock and a random number.
- The decoder of SubmitBlockRequest, which calls a third-party bid trace decoder, and the BeaconBlock encoders, which call third-party element encoders.
- VerificationManager.Enqueue, whose result is not the verification result.
- Publication of the block to the beacon node, which comes before the check of the last delivery, so that one block published for each slot is not promised.
- Proposer duties, known validators and genesis in the beacon state, which are plain atomic values.
- Nil pointers inside bids and headers that did not come from a decoder.
- Receivers of the codecs, which the code updates through a reference: a decoder takes the receiver as a value and returns it filled.
