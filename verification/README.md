# Bitswap, verified

A Dafny model of the state machines behind Bitswap, the want/cancel protocol for
exchanging content-addressed blocks: what a client tells its peers to want and to
cancel, how messages are written and read, how a session picks the peer for each
block, and how a server finds the peers that want a new block.

Most of these components keep redundant state: an index, a gauge, a memoized
listing, a mirror of what the remote believes. The theorems say that it agrees with
something simpler after every sequence of steps, for every input and every map
iteration order. Where the source releases a lock in the middle of a call and the
agreement can break there, the theorems say exactly when it does.

## How the project is laid out

| file | component |
|---|---|
| `Types.dfy` | peer and content identifiers, machine integers, lists of keys |
| `PeerWants.dfy`, `PeerWantManager.dfy` | which wants and cancels each peer's queue is told; the reverse index and the gauges |
| `Varints.dfy`, `Wire.dfy`, `Messages.dfy`, `Marshal.dfy`, `Unmarshal.dfy` | the protobuf codec: a forward serializer and a fold over fields as reference, the right-to-left writer and the looped parsers proved equal to them |
| `BitswapMessages.dfy` | messages as maps, to protobuf and back |
| `Wantlists.dfy` | the wantlist with its memoized sorted listing |
| `QueueModel.dfy`, `SplitExtraction.dfy`, `MessageQueue.dfy` | the message queue of one peer and the two locked parts of an extraction |
| `QueueMessages.dfy` | what goes on the wire, and what becomes pending, entry by entry |
| `QueueRuns.dfy` | runs that interleave with an extraction, and the remote wantlist |
| `MessageSizes.dfy` | accounted size and size on the wire |
| `ConnectEvents.dfy` | connection events with a worker that drops the lock during callbacks |
| `SessionTrackers.dfy`, `SessionModel.dfy`, `SessionBatches.dfy`, `SessionWantSender.dfy` | the want sender of a session, what it promises, and the objects it works with |
| `SessionRuns.dfy` | runs of batches, and who is asked for a block |
| `DontHaveTimeout.dfy` | simulated DONT_HAVEs after a timeout |
| `EngineModel.dfy`, `Engine.dfy` | the server's ledgers and inverted index |
| `EngineRuns.dfy` | runs that interleave with a received message |
| `ProviderQuery.dfy` | provider queries and their listener channels |

Objects that the source updates in place are classes, with their loops, arrays and
shared references. Each method is proved against a function on values, and what the
component promises is proved about those functions: `Step` and `IsRun` (or `Run`)
give the state machine, `...KeepsInv`, `...Synced` and `...Covered` what every run
keeps. What a run amounts to is also told by folds over its calls alone: what was asked
of each peer (`RunTellsAsked`), which wants are outstanding (`RunHolds`), which requests
are in progress (`RunIsTold`), what is recorded about a want (`RunKeepsRecords`). Where
the promise is about history, the object keeps a ghost log that a fold explains: the
queue calls of a peer, the events of a want, the operations on a channel.

## Conventions of the model

- A region that holds a lock, or the handling of one message, is one step. The
  connection worker's pop, each callback and its return under the lock are separate
  steps. The two locked parts of message extraction are separate steps in `QueueRuns`,
  and the three of a received message in `EngineRuns`, with anything in between.
- Map iteration order is arbitrary: a loop over a map or a set may take any element next.
- A random draw, the clock, the answer of the block store, the peer filter, the check
  that bytes form a CID and the hash functions are parameters.
- Integers are unbounded except where width matters: int32 fields, 64-bit varints, and
  lengths below 2^63. Shifts and masks are written as arithmetic.
- Message latency and the weights of peers are reals; converting to a duration truncates.
- Slices are sequences where nobody else can see them, and arrays where sharing is the
  point (the memoized listing of a wantlist, the marshalling buffer). `nil` and empty
  slices are the same.
- Sorting is insertion into a sorted list; the order among equal priorities is arbitrary
  in the source.

## What turned out to have a condition

- The want gauges stay exact under a cancel exactly if no wanted key is repeated in the
  list (`CancelKeepsGaugeExact`, `CancelKeepsBlockGaugeExact`, with the failing input in
  `RepeatedCancelBreaksGauge`).
- A disconnected peer is still tracked, with nothing queued, exactly if the worker found it
  disconnected in its last turn for it and in the one before, if there was one
  (`TrackedIff`, `QuickDisconnectIsKept`).
- A message comes back from its protobuf form exactly if its CIDs are defined
  (`ProtoRoundTripIff`).
- A received message keeps the server's index covering exactly if it does not both want
  and cancel one CID (`ReceiveKeepsCoveredIff`); messages hold one entry for a CID, so
  they never do (`MessageHasOneEach`). With other calls between its parts, exactly if
  the pair of no want is dropped in between (`RunCoveredIff`, `PairGoneIff`, with the
  failing run in `NotifiedInBetweenIsMissed`).
- Every want recorded as sent is at the remote, with anything between the two parts of an
  extraction, exactly if no finish loses a want from the message that the remote lacks
  (`RunInStepIff`, and `RunInStepIffHarmless` without looking at the remote). A finish
  loses nothing exactly if a key listed twice is still pending twice or not at all
  (`MarkedAreSentIff`; failing runs `UpgradeInBetweenLosesWant`,
  `CancelAndBroadcastLosesWant`).
- The remote wants no more than the queue knows of exactly if no cancel and no drop for an
  old peer strands a key: one that is at the remote, and neither recorded as sent nor to be
  cancelled, or of which only the dropped want-have is known (`RunNoLargerIff`, in every
  run; failing runs `WithdrawnCancelIsForgotten`, `OldPeerDropIsForgotten`).
- Want-blocks go to session peers, whatever the draws, exactly if every recorded peer outside
  the session lacks the block or is outranked by a session peer (`RunStaysInSessionIff`;
  such peers are those of `OutsidersAre`, failing batch in `OutsiderIsAsked`).
- The size limit of a message is documented as its maximum size. The code compares it with
  an accounted size that leaves out framing; the exact difference is `WireSizeOfMessage`.
  Every message that leaves something behind and repeats no key is over the limit
  (`LeftBehindIsOver`; one over the limit that is set, `MaxMessageSizeIsExceeded`).
- A check for timeouts expires every want over the timeout exactly if none is queued behind
  one that is not (`ExpiresAllIff`), which holds in order of sending; concurrent calls can
  break the order (`MixedUpIsExpiredLate`). Every call keeps the scheduled check in time for
  the front of the queue, except that a first start may shorten the timeout of wants that
  were added before it (`Start`, `StartAfterAddingIsLate`).
- A finish message ends the request of another query exactly if its own query was still
  running when that request was made (`FinishIsForeignIff`; failing run in
  `StaleFinishEndsNewRequest`). While no CID is requested anew during an earlier query for
  it, and only then, every running query belongs to its CID's request (`RunOwnOnlyIff`).

## Model

| member | source | states |
|---|---|---|
| `PeerWants.RunSynced` | client/internal/peermanager/peerwantmanager.go:59-338 | After every run of the five operations, for every connected peer, the CIDs its queue was told to want and not since told to cancel are exactly its want-blocks, want-haves and the broadcast wants; no call repeats an outstanding want-have or cancels what is not outstanding |
| `PeerWants.StepSynced` | client/internal/peermanager/peerwantmanager.go:59-338 | Each of the five operations keeps that agreement between a peer's queue and what is recorded for it |
| `PeerWants.RunTellsAsked` | client/internal/peermanager/peerwantmanager.go:59-338 | After every run the connected peers are those that connected and did not disconnect since, and what a peer's queue is told to want, as want-blocks and in any form, is exactly what the calls asked of that peer since it connected and of everybody, without what was cancelled since |
| `PeerWants.StepTellsAsked` | client/internal/peermanager/peerwantmanager.go:59-338 | Each of the five operations keeps that |
| `PeerWants.SendIsTold` | client/internal/peermanager/peerwantmanager.go:160-230 | A send adds exactly the given want-blocks to the want-blocks outstanding at the peer's queue, and all given keys to what is outstanding there; every other peer is left alone |
| `PeerWants.BroadcastIsTold` | client/internal/peermanager/peerwantmanager.go:118-156 | A broadcast adds exactly the given keys to what is outstanding at every connected peer's queue |
| `PeerWants.CancelIsTold` | client/internal/peermanager/peerwantmanager.go:234-338 | A cancel takes exactly the given keys from what is outstanding at every connected peer's queue |
| `PeerWants.NewPeerSynced` | client/internal/peermanager/peerwantmanager.go:59-75 | A fresh queue that is told the broadcast wants agrees with an empty record |
| `PeerWants.BroadcastSynced` | client/internal/peermanager/peerwantmanager.go:118-156 | Filtering a broadcast by what the peer was already sent keeps the queue and the record in agreement |
| `PeerWants.SendSynced` | client/internal/peermanager/peerwantmanager.go:160-230 | Filtering want-blocks and want-haves keeps the queue and the record in agreement, want-block upgrades included |
| `PeerWants.CancelSynced` | client/internal/peermanager/peerwantmanager.go:234-283 | Cancelling keeps the queue and the record in agreement |
| `PeerWants.CancelsForElems` | client/internal/peermanager/peerwantmanager.go:257-283 | The cancels sent to a peer are exactly the given keys that are wanted there or broadcast; none is sent if there are none |
| `PeerWants.PeerCancelIsExact` | client/internal/peermanager/peerwantmanager.go:257-283 | The keys a peer's queue is told to cancel are exactly those outstanding there, and none of the given keys is outstanding afterwards |
| `PeerWants.CancelReachesExactlyTheOutstanding` | client/internal/peermanager/peerwantmanager.go:234-338 | In every run, a cancel reaches each peer for exactly the keys outstanding at that peer |
| `PeerWantManagement.PeerWantManager.AddPeer` | client/internal/peermanager/peerwantmanager.go:59-75 | The new peer is sent the broadcast wants in some order; index and gauges stay exact |
| `PeerWantManagement.PeerWantManager.RemovePeer` | client/internal/peermanager/peerwantmanager.go:78-115 | The peer goes, the reverse index stays exact, and each gauge moves by exactly the change in the number it counts |
| `PeerWantManagement.PeerWantManager.BroadcastWantHaves` | client/internal/peermanager/peerwantmanager.go:118-156 | Each peer is told only what it was not sent; the gauge counts newly wanted CIDs |
| `PeerWantManagement.PeerWantManager.SendWants` | client/internal/peermanager/peerwantmanager.go:160-230 | New want-blocks and want-haves are recorded and sent once; index and gauges stay exact; a peer that is not known changes nothing |
| `PeerWantManagement.PeerWantManager.SendCancelsTo` | client/internal/peermanager/peerwantmanager.go:257-283 | One peer's cancels, and the removal of its wants |
| `PeerWantManagement.PeerWantManager.SendCancelsToPeers` | client/internal/peermanager/peerwantmanager.go:285-309 | Visiting only the peers the index names has the effect of visiting all peers |
| `PeerWantManagement.PeerWantManager.SendCancels` | client/internal/peermanager/peerwantmanager.go:234-338 | Every peer is left as by the per-peer cancel, the index stays exact, and the gauges drop by the number of occurrences of wanted keys in the list |
| `PeerWantManagement.PeerWantManager.WantPeerCounts` | client/internal/peermanager/peerwantmanager.go:357-375 | The counts are the numbers of indexed peers with a want-block and with a want-have for the CID |
| `PeerWantManagement.PeerWantManager.CountsTell` | client/internal/peermanager/peerwantmanager.go:351-375 | As the index is exact, the counts tell whether some peer has a want-block for the CID and whether it is wanted at all |
| `PeerWantManagement.PeerWantManager.ReverseIndexAdd` | client/internal/peermanager/peerwantmanager.go:378-386 | The peer is added under the CID, and the result says whether the CID was new |
| `PeerWantManagement.PeerWantManager.ReverseIndexRemove` | client/internal/peermanager/peerwantmanager.go:389-396 | The peer is removed, and a CID without peers is forgotten |
| `PeerWantManagement.PeerWantManager.GetWants` | client/internal/peermanager/peerwantmanager.go:437-450 | Every wanted CID is listed exactly once |
| `PeerWantManagement.WantAdded` | client/internal/peermanager/peerwantmanager.go:179-226 | Recording a want keeps the index exact and says by how much each gauge must move |
| `PeerWantManagement.WantDropped` | client/internal/peermanager/peerwantmanager.go:86-113 | Dropping a want says by how much each gauge must move |
| `PeerWantManagement.IndexRemoveExact` | client/internal/peermanager/peerwantmanager.go:389-396 | Unindexing a dropped want keeps the index exact |
| `PeerWantManagement.IndexKeysAreTargeted` | client/internal/peermanager/peerwantmanager.go:437-450 | The keys of an exact index are the CIDs targeted at some peer |
| `PeerWantManagement.UntouchedByCancel` | client/internal/peermanager/peerwantmanager.go:285-309 | A peer the index does not name for any cancelled key is left alone by the cancel when nothing of it was broadcast |
| `PeerWantManagement.WantedAfterCancel` | client/internal/peermanager/peerwantmanager.go:234-338 | After a cancel the wanted CIDs are those before without the cancelled ones |
| `PeerWantManagement.CancelKeepsGaugeExact` | client/internal/peermanager/peerwantmanager.go:311-326 | A cancel keeps the want gauge exact if and only if the wanted keys in the list are not repeated; otherwise it falls short |
| `PeerWantManagement.CancelKeepsBlockGaugeExact` | client/internal/peermanager/peerwantmanager.go:311-326 | The same for the want-block gauge and keys with a want-block |
| `PeerWantManagement.RunGaugeExactIff` | client/internal/peermanager/peerwantmanager.go:59-338 | Over every run the want gauge is the number of wanted CIDs all along, if and only if no cancel list repeats a wanted CID |
| `PeerWantManagement.RunBlockGaugeExactIff` | client/internal/peermanager/peerwantmanager.go:59-338 | The same for the want-block gauge and the CIDs with a want-block at some peer |
| `PeerWantManagement.RunWantedIsAsked` | client/internal/peermanager/peerwantmanager.go:59-338 | In every run the CIDs that the gauges count are those asked for, of somebody or of everybody, and not cancelled since |
| `PeerWantManagement.RepeatedCancelBreaksGauge` | client/internal/peermanager/peerwantmanager.go:311-326 | One broadcast want cancelled twice in one call leaves the gauge at -1 with nothing wanted |
| `PeerWantManagement.PeerManager.Connected` | client/internal/peermanager/peermanager.go:87-98 | Queues and want records have the same peers, before and after |
| `PeerWantManagement.PeerManager.Disconnected` | client/internal/peermanager/peermanager.go:101-118 | Queue and want record of the peer go together |
| `PeerWantManagement.PeerManager.SendWants` | client/internal/peermanager/peermanager.go:146-153 | Wants for a connected peer are passed on, for any other peer dropped |
| `PeerWantManagement.PeerManager.BroadcastWantHaves` | client/internal/peermanager/peermanager.go:137-142 | Broadcasts are passed on |
| `PeerWantManagement.PeerManager.SendCancels` | client/internal/peermanager/peermanager.go:157-163 | Cancels are passed on |
| `Varints.SovIsVarintLength` | message/pb/message.pb.go:793-795 | The size formula on the bit length gives the number of bytes of the varint |
| `Varints.EncodeVarint` | message/pb/message.pb.go:678-688 | The bytes before the offset are overwritten with the varint of the value, and nothing else |
| `Varints.DecodeVarint` | message/pb/message.pb.go:805-818 | The shift-and-or loop reads the varint, with the same errors, into a word of 32 or 64 bits |
| `Varints.VarintReadsBack` | message/pb/message.pb.go:678-688 | The bytes of a varint have its value and end where they should, at every position within ten bytes |
| `Varints.VarintRoundTrip` | message/pb/message.pb.go:678-688 | Every 64-bit word is read back from its varint, whatever follows |
| `Varints.Int32RoundTrip` | message/pb/message.pb.go:584-590 | A signed 32-bit value survives sign extension to 64 bits and truncation, so negative priorities round-trip |
| `Varints.SignedLength` | message/pb/message.pb.go:678-688 | A negative value takes ten bytes, any other at most five |
| `Varints.VarintLenIs` | message/pb/message.pb.go:805-818 | A varint ends with its first byte below 128, which is among the first ten; otherwise it is refused as too long, or as cut off by the end of the input |
| `Wire.DecodeConcat` | message/pb/message.pb.go:799-1000 | The decoder is a fold: if `a` parses, decoding `a + b` equals decoding `b` from the result of `a`, error or not |
| `Wire.DecodeShift` | message/pb/message.pb.go:799-1000 | Decoding does not depend on what stands before the position |
| `Wire.DecodePrefix` | message/pb/message.pb.go:799-1000 | What stands behind a part that parses does not change how it parses |
| `Wire.FieldRefused` | message/pb/message.pb.go:799-860 | Which tags, wire types and lengths are refused, with which error and in which order |
| `Wire.SkipField` | message/pb/message.pb.go:1486-1563 | Skipping a well-formed field, nested groups included, ends exactly behind it |
| `Wire.SkipList` | message/pb/message.pb.go:1486-1563 | Inside a group, well-formed fields are skipped one after the other |
| `Wire.UnknownFieldDecodes` | message/pb/message.pb.go:980-993 | A message consisting of one unknown field decodes to no change |
| `Wire.UnknownFieldChangesNothing` | message/pb/message.pb.go:980-993 | Inserting any well-formed unknown field, nested groups included, between fields changes nothing |
| `Messages.MessagesIgnoreUnknown` | message/pb/message.pb.go:799-1485 | All five message types ignore skipped fields |
| `Messages.EntryRoundTrip` | message/pb/message.pb.go:555-601 | A wantlist entry decodes from its encoding, for every int32 priority and want type |
| `Messages.BlockRoundTrip` | message/pb/message.pb.go:618-638 | A block decodes from its encoding |
| `Messages.PresenceRoundTrip` | message/pb/message.pb.go:655-676 | A block presence decodes from its encoding |
| `Messages.WantlistRoundTrip` | message/pb/message.pb.go:508-538 | A wantlist decodes from its encoding |
| `Messages.RepeatedDecodes` | message/pb/message.pb.go:1030-1063 | A repeated field decodes element by element into the list |
| `Messages.MessageRoundTrip` | message/pb/message.pb.go:418-1485 | Every message with well-formed CIDs and a size that fits decodes from its encoding |
| `Messages.EntryFields` | message/pb/message.proto:15-21 | The fields of an entry are read under their numbers in the format, from any state of the entry |
| `Messages.WantlistFields` | message/pb/message.proto:9-25 | The fields of a wantlist are read under their numbers |
| `Messages.BlockFields` | message/pb/message.proto:27-39 | The fields of a block and of a block presence are read under their numbers |
| `Messages.MessageFields` | message/pb/message.proto:41-45 | The fields of a message are read under their numbers; repeated ones are appended |
| `Messages.WireValues` | message/pb/message.proto:10-13 | The values of the enums on the wire |
| `Messages.BadCidIsRefused` | message/pb/message.pb.go:1149-1182 | Bytes that are no CID are refused, in an entry and in a presence |
| `Marshalling.EntrySize` | message/pb/message.pb.go:739-760 | The size pass counts the bytes of the encoding |
| `Marshalling.BlockSize` | message/pb/message.pb.go:762-777 | The size pass counts the bytes of the encoding |
| `Marshalling.PresenceSize` | message/pb/message.pb.go:779-791 | The size pass counts the bytes of the encoding |
| `Marshalling.WantlistSize` | message/pb/message.pb.go:721-737 | The size pass counts the bytes of the encoding |
| `Marshalling.MessageSize` | message/pb/message.pb.go:689-719 | The size pass counts the bytes of the encoding |
| `Marshalling.MarshalEntry` | message/pb/message.pb.go:555-601 | Written from right to left, the bytes before `end` are those of the forward encoding, with no gap and nothing else touched |
| `Marshalling.MarshalBlock` | message/pb/message.pb.go:618-638 | The same for a block |
| `Marshalling.MarshalPresence` | message/pb/message.pb.go:655-676 | The same for a block presence |
| `Marshalling.MarshalEntries` | message/pb/message.pb.go:523-536 | The same for the entries of a wantlist, written last to first |
| `Marshalling.MarshalPayload` | message/pb/message.pb.go:457-470 | The same for the payload blocks |
| `Marshalling.MarshalPresences` | message/pb/message.pb.go:443-456 | The same for the block presences |
| `Marshalling.MarshalRawBlocks` | message/pb/message.pb.go:471-479 | The same for the raw blocks |
| `Marshalling.MarshalWantlist` | message/pb/message.pb.go:508-538 | The same for a wantlist |
| `Marshalling.MarshalMessage` | message/pb/message.pb.go:433-491 | The same for a message, at every nesting level |
| `Marshalling.Marshal` | message/pb/message.pb.go:418-426 | A buffer of the computed size is filled exactly with the forward encoding |
| `Unmarshalling.SkipMessage` | message/pb/message.pb.go:1486-1563 | The loop with its depth counter finds the end of the field, or its error, as the recursive definition does |
| `Unmarshalling.ReadInt32` | message/pb/message.pb.go:965-979 | A varint is read into a signed 32-bit field |
| `Unmarshalling.ReadTag` | message/pb/message.pb.go:805-825 | Field number and wire type of a tag, with the errors for an end group and an illegal tag |
| `Unmarshalling.SkipUnknown` | message/pb/message.pb.go:980-993 | An unknown field is passed over, with the length and end-of-input errors |
| `Unmarshalling.UnmarshalEntry` | message/pb/message.pb.go:1105-1265 | The parser loop computes the fold over the fields, errors included |
| `Unmarshalling.UnmarshalWantlist` | message/pb/message.pb.go:1001-1104 | The parser loop computes the fold over the fields, errors included |
| `Unmarshalling.UnmarshalBlock` | message/pb/message.pb.go:1266-1383 | The parser loop computes the fold over the fields, errors included |
| `Unmarshalling.UnmarshalPresence` | message/pb/message.pb.go:1384-1485 | The parser loop computes the fold over the fields, errors included |
| `Unmarshalling.UnmarshalMessage` | message/pb/message.pb.go:799-1000 | The parser loop computes the fold over the fields, errors included |
| `BitswapMessages.ProtoRoundTrip` | message/message.go:199-463 | For every consistent message with defined CIDs and blocks that hash to their CIDs, reading the protobuf form gives the same message, for any map iteration order |
| `BitswapMessages.ProtoRoundTripIff` | message/message.go:199-463 | Without assuming defined CIDs: the message comes back if and only if its CIDs are defined, otherwise reading fails |
| `BitswapMessages.ProtoHolds` | message/message.go:435-463 | The protobuf form holds each want with all its fields, each block with its prefix and each presence exactly once |
| `BitswapMessages.ReadableIff` | message/message.go:199-245 | A protobuf message is read if and only if its CIDs are defined and its prefixes can be parsed |
| `BitswapMessages.ReadHolds` | message/message.go:199-245 | What is read: wants for exactly the listed CIDs, raw and prefixed blocks under the CIDs they hash to, presences for the listed CIDs without a block |
| `BitswapMessages.UndefinedIsRefused` | message/message.go:201-206 | A message with a want for an undefined CID does not come back |
| `BitswapMessages.NetRoundTrip` | message/message.go:397-489 | Through the wire: encoding to bytes, decoding and reading gives the same message |
| `BitswapMessages.BitswapMessage.AddEntry` | message/message.go:317-352 | Entries merge by CID, the size is that of a new entry or zero, and the message stays consistent |
| `BitswapMessages.BitswapMessage.RemoveEntry` | message/message.go:305-307 | The entry goes |
| `BitswapMessages.BitswapMessage.AddBlock` | message/message.go:354-357 | The block replaces a presence of the same CID, so that blocks and presences stay disjoint |
| `BitswapMessages.BitswapMessage.AddBlockPresence` | message/message.go:359-364 | A presence is not added for a CID with a block, so that blocks and presences stay disjoint |
| `BitswapMessages.BitswapMessage.SetPendingBytes` | message/message.go:301-303 | Only the number of pending bytes changes |
| `BitswapMessages.BitswapMessage.Reset` | message/message.go:183-195 | The message is as new |
| `BitswapMessages.BitswapMessage.ToProtoV1` | message/message.go:435-463 | The protobuf form lists the three maps, each in some order |
| `BitswapMessages.ReadEntries` | message/message.go:201-206 | Wantlist entries are read in order, an undefined CID fails |
| `BitswapMessages.ReadBlocks` | message/message.go:208-233 | Raw and prefixed blocks are read in order, a prefix that cannot be hashed fails |
| `BitswapMessages.ReadPresences` | message/message.go:235-240 | Presences are read in order, an undefined CID fails |
| `BitswapMessages.NewMessageFromProto` | message/message.go:199-245 | A protobuf message is read, or refused, as specified; the result is consistent whatever the lists held |
| `Wantlists.Wantlist.Add` | client/wantlist/wantlist.go:56-71 | A want-have never replaces an entry and a want-block is never replaced; the cached listing is dropped when the entries change |
| `Wantlists.Wantlist.Remove` | client/wantlist/wantlist.go:74-82 | The entry goes, and the result says whether there was one |
| `Wantlists.Wantlist.RemoveType` | client/wantlist/wantlist.go:86-99 | Removing a want-have leaves a want-block alone; the cache is dropped exactly when an entry goes |
| `Wantlists.Wantlist.Entries` | client/wantlist/wantlist.go:121-132 | The result lists the entries by descending priority, each once, and is the cached array itself |
| `Wantlists.Wantlist.Absorb` | client/wantlist/wantlist.go:135-142 | Every entry of the other list is added; the other list is unchanged |
| `Wantlists.SortedEntries` | client/wantlist/wantlist.go:121-132 | Any map of entries gets a listing by descending priority, each entry once |
| `Wantlists.AbsorbOrderIrrelevant` | client/wantlist/wantlist.go:135-142 | Adding the entries of a list in any order gives the same wantlist |
| `Wantlists.FirstBlockWins` | client/wantlist/wantlist.go:56-71 | Of all wants added for a CID the first want-block is kept, or the first want-have if there is no want-block |
| `Wantlists.ListingLength` | client/wantlist/wantlist.go:121-132 | A listing is as long as the map |
| `QueueModel.RunKeepsSynced` | client/internal/messagequeue/messagequeue.go:127-799 | Over every run with each send atomic, cancels stay disjoint from pending and sent wants, and a remote wantlist that applies each delivered message has every sent CID with at least the sent want type |
| `QueueModel.StepKeepsSynced` | client/internal/messagequeue/messagequeue.go:127-799 | Each operation keeps that |
| `QueueModel.ExtractionKeepsSynced` | client/internal/messagequeue/messagequeue.go:695-799 | Extracting a message and applying it at the remote keeps that |
| `QueueModel.ExtractionKeepsInv` | client/internal/messagequeue/messagequeue.go:695-799 | Extraction keeps cancels apart from wants, and broadcasts want-haves only |
| `QueueModel.PeerWantsConserved` | client/internal/messagequeue/messagequeue.go:695-799 | A pending peer want is in the message and sent, or still pending unchanged, or a want-have dropped for a peer that does not know them; nothing else becomes pending |
| `QueueModel.BcstWantsConserved` | client/internal/messagequeue/messagequeue.go:695-799 | A pending broadcast want is in the message and sent, or still pending unchanged; nothing else becomes pending |
| `QueueModel.CancelsConserved` | client/internal/messagequeue/messagequeue.go:695-799 | A cancel is cleared if and only if it is in the message |
| `QueueModel.MessageIsFromPending` | client/internal/messagequeue/messagequeue.go:695-799 | All that is in the message was pending |
| `QueueModel.CancelsGoFirst` | client/internal/messagequeue/messagequeue.go:731-740 | While a cancel is left behind the message holds cancels only, and no want has moved |
| `QueueModel.PeerWantsGoByPriority` | client/internal/messagequeue/messagequeue.go:742-753 | While a peer want is left behind no broadcast want has moved, nor a peer want of lower priority |
| `QueueModel.BcstWantsGoByPriority` | client/internal/messagequeue/messagequeue.go:755-770 | While a broadcast want is left behind none of lower priority has moved |
| `QueueModel.ExtractionDrains` | client/internal/messagequeue/messagequeue.go:682-799 | If there is pending work, extraction leaves strictly less |
| `QueueMessages.EntryOfTaken` | client/internal/messagequeue/messagequeue.go:727-774 | The entry of every key that an extraction takes, from the pending lists: a cancel; a peer want with its priority and type, asking for a DONT_HAVE; a broadcast want with its priority, as a want-have or for an old peer as a want-block, not asking for one; for a key in both lists the peer want, with the broadcast's priority if both are of one type |
| `QueueMessages.OnlyTakenAreEntries` | client/internal/messagequeue/messagequeue.go:727-774 | Nothing else is in the message, and an old peer is sent no want-have |
| `QueueMessages.PeerSentAs` | client/internal/messagequeue/messagequeue.go:777-783 | A peer want that is taken is recorded as sent as it was pending, unless it was sent in as strong a form; no other record changes, but for want-haves dropped for an old peer |
| `QueueMessages.BcstSentAs` | client/internal/messagequeue/messagequeue.go:785-790 | The same for broadcast wants |
| `QueueMessages.WantsArePending` | client/internal/messagequeue/messagequeue.go:293-320 | The given keys are pending, as want-blocks or want-haves, a want-block never replaced and a want-have replacing nothing; new entries have the next priorities, want-haves first, wrapping around as an int32; cancels of the keys are withdrawn and nothing else changes |
| `QueueMessages.BroadcastsArePending` | client/internal/messagequeue/messagequeue.go:271-290 | The same for broadcast wants |
| `MessageQueues.RecallWantlist.Add` | client/internal/messagequeue/messagequeue.go:127-129 | The want becomes pending |
| `MessageQueues.RecallWantlist.Remove` | client/internal/messagequeue/messagequeue.go:132-136 | The want goes from pending and sent |
| `MessageQueues.RecallWantlist.RemoveType` | client/internal/messagequeue/messagequeue.go:139-145 | The want goes from pending and sent by type |
| `MessageQueues.RecallWantlist.MarkSent` | client/internal/messagequeue/messagequeue.go:151-157 | A want still pending moves to sent; one that is no longer pending is refused |
| `MessageQueues.RecallWantlist.RecordSentAt` | client/internal/messagequeue/messagequeue.go:160-167 | The time of the first sending is kept |
| `SplitExtraction.AtomicFinish` | client/internal/messagequeue/messagequeue.go:776-799 | When nothing happens between the two locked parts, every item put in the message is moved to sent or cleared |
| `SplitExtraction.FinishKeepsInv` | client/internal/messagequeue/messagequeue.go:776-799 | The second locked part keeps cancels apart from wants whatever happened in between |
| `SplitExtraction.MarkAllIs` | client/internal/messagequeue/messagequeue.go:777-790 | Marking a list of entries as sent, in closed form: exactly those still pending move, exactly those that changed leave the message |
| `SplitExtraction.BlankedIs` | client/internal/messagequeue/messagequeue.go:777-790 | An entry is blanked if and only if its want is gone, or was upgraded since it was listed |
| `SplitExtraction.ClearAllIs` | client/internal/messagequeue/messagequeue.go:792-798 | Clearing cancels, in closed form |
| `SplitExtraction.CutFlightOk` | client/internal/messagequeue/messagequeue.go:695-774 | The lists and the message built from them fit together: each key is to be cancelled or wanted, and the message holds exactly the listed keys |
| `SplitExtraction.MarkedAreSentIff` | client/internal/messagequeue/messagequeue.go:776-799 | Everything marked as sent is in the message that goes out, if and only if every key listed both as a peer want and as a broadcast is still pending as both or as neither |
| `SplitExtraction.FinishKeepsSyncedIff` | client/internal/messagequeue/messagequeue.go:776-799 | After an interrupted extraction the remote has every want recorded as sent, if and only if it already had what was lost from the message |
| `QueueRuns.StepInStepIff` | client/internal/messagequeue/messagequeue.go:127-799 | The same for each step of a run in which anything may happen between the two locked parts |
| `QueueRuns.RunInStepIff` | client/internal/messagequeue/messagequeue.go:127-799 | Over every such run the remote has every want recorded as sent, all along, if and only if no finish loses a want that the remote does not have |
| `QueueRuns.RunInStepIffHarmless` | client/internal/messagequeue/messagequeue.go:127-799 | The same with a condition told by the queue's own history: what a finish loses was sent before or is in limbo, with its type |
| `QueueRuns.AgreeingRunInStep` | client/internal/messagequeue/messagequeue.go:127-799 | It does when at every finish the two lists agree on the keys in both, which needs no knowledge of the remote |
| `QueueRuns.ImmediateFinishAgrees` | client/internal/messagequeue/messagequeue.go:695-799 | An extraction that is not interrupted finds the lists in agreement |
| `QueueRuns.UpgradeInBetweenLosesWant` | client/internal/messagequeue/messagequeue.go:776-790 | A run in which an upgrade between the two parts leaves a want recorded as sent that the remote never gets |
| `QueueRuns.CancelAndBroadcastLosesWant` | client/internal/messagequeue/messagequeue.go:776-790 | A run in which a cancel and a new broadcast in between do so |
| `QueueRuns.RunKeepsRemoteKnown` | client/internal/messagequeue/messagequeue.go:127-799 | Over every run that loses nothing, the keys at the remote are those sent, those to be cancelled and those in limbo, where limbo is told by the queue's own history |
| `QueueRuns.RunNoLargerIff` | client/internal/messagequeue/messagequeue.go:127-799 | Over every run, whatever is lost: the remote never wants more than the queue knows of, if and only if no cancel hits a key that is at the remote but neither recorded as sent nor to be cancelled, and no drop for an old peer hits a key at the remote of which only a pending want-have is known |
| `QueueRuns.RunKeepsThere` | client/internal/messagequeue/messagequeue.go:127-799 | Over every run, whatever is lost, the messages sent tell which keys are at the remote |
| `QueueRuns.StepNoLargerIff` | client/internal/messagequeue/messagequeue.go:305-350 | The same for one step, from any state in which the remote wants no more than the queue knows of |
| `QueueRuns.NoLargerIff` | client/internal/messagequeue/messagequeue.go:305-350 | In a state of a run that loses nothing: the remote wants no more than the queue knows of, if and only if every key in limbo is pending |
| `QueueRuns.WithdrawnCancelIsForgotten` | client/internal/messagequeue/messagequeue.go:305-350 | A run in which a want is sent, cancelled, wanted again and cancelled again, and the remote is never told |
| `QueueRuns.OldPeerDropIsForgotten` | client/internal/messagequeue/messagequeue.go:701-719 | A run in which a want-have that was sent is dropped for an old peer, and the remote is never told |
| `MessageSizes.AccountedIs` | client/internal/messagequeue/messagequeue.go:731-774 | The entries of a message take exactly the accounted size plus what merged entries grew by, in any order of listing |
| `MessageSizes.GrowthBound` | message/message.go:317-352 | Merging grows an entry by at most fifteen bytes, and nothing grows when no key repeats |
| `MessageSizes.WireSizeOfMessage` | client/internal/messagequeue/messagequeue.go:731-774 | The exact number of bytes of an extracted message on the wire: accounted size, growth, and the framing of entries and wantlist |
| `MessageSizes.WireSizeBound` | client/internal/messagequeue/messagequeue.go:731-774 | How far a message can go over the limit: its last item, growth for repeated keys, and framing; a message of one item is bounded by that item alone |
| `MessageSizes.LeftBehindIsOver` | client/internal/messagequeue/messagequeue.go:731-774 | For every queue and every limit: a message that leaves something behind and repeats no key is over the limit on the wire |
| `MessageSizes.LimitIsExceeded` | client/internal/messagequeue/messagequeue.go:731-774 | For every limit just above the accounted size of one want, the message of that want is over the limit |
| `MessageSizes.MaxMessageSizeIsExceeded` | client/internal/messagequeue/messagequeue.go:30-31 | With the limit that is set, two mebibytes: a want whose accounted size is one byte below it, in a message that is over it |
| `MessageQueues.DropEachAll` | client/internal/messagequeue/messagequeue.go:701-719 | Dropping want-haves entry by entry drops all of them |
| `MessageQueues.BlocksOnlyLists` | client/internal/messagequeue/messagequeue.go:701-719 | The filtered prefix of the listing lists what is left pending |
| `MessageQueues.BuildMessage` | client/internal/messagequeue/messagequeue.go:731-774 | The three loops with their jump to the end take the longest run of items the limit allows, and the message is the one whose entries `EntryOfTaken` gives |
| `MessageQueues.MarkEntries` | client/internal/messagequeue/messagequeue.go:777-790 | Exactly the entries no longer pending are taken out of the message and blanked in the array |
| `MessageQueues.MessageQueue.AddBroadcastWantHaves` | client/internal/messagequeue/messagequeue.go:271-290 | Broadcast wants become pending with falling priorities and are no longer cancelled; memoized listings stay right |
| `MessageQueues.MessageQueue.AddWants` | client/internal/messagequeue/messagequeue.go:293-320 | Want-haves, then want-blocks become pending with falling priorities and are no longer cancelled |
| `MessageQueues.MessageQueue.CancelOne` | client/internal/messagequeue/messagequeue.go:336-350 | A want goes; if it was sent it is to be cancelled |
| `QueueModel.CancelAllIs` | client/internal/messagequeue/messagequeue.go:336-350 | After a list of cancels, repetitions or not, all given wants are gone and exactly those that were sent are to be cancelled at the remote |
| `MessageQueues.MessageQueue.AddCancels` | client/internal/messagequeue/messagequeue.go:323-360 | All given wants go; work is signalled if and only if some of them was sent |
| `MessageQueues.MessageQueue.TransferRebroadcastWants` | client/internal/messagequeue/messagequeue.go:484-498 | Everything sent becomes pending again and stays recorded as sent; the result says whether there was anything |
| `MessageQueues.MessageQueue.FilterHaves` | client/internal/messagequeue/messagequeue.go:701-719 | The want-haves are removed in place from the shared listing, and it is still the listing of what is pending |
| `MessageQueues.MessageQueue.BeginExtract` | client/internal/messagequeue/messagequeue.go:695-720 | The listings taken under the lock list what is pending, and share no array with another list |
| `MessageQueues.MessageQueue.FinishExtract` | client/internal/messagequeue/messagequeue.go:776-799 | Marking as sent blanks entries of shared arrays, yet leaves every memoized listing right |
| `MessageQueues.MessageQueue.ClearCancels` | client/internal/messagequeue/messagequeue.go:792-798 | Cancels in the message are cleared, and one that was withdrawn meanwhile is taken out of the message |
| `MessageQueues.MessageQueue.ExtractOutgoingMessage` | client/internal/messagequeue/messagequeue.go:695-826 | The message and the new state are those of one atomic extraction, entry by entry as in `EntryOfTaken` |
| `ConnectEvents.RunKeepsInv` | network/connecteventmanager.go:61-218 | Under any interleaving with the worker's pop and unlocked delivery: a peer is pending if and only if queued, the queue has no duplicates and only tracked peers, and each listener hears each peer's events in strict alternation starting with connected |
| `ConnectEvents.StepKeepsInv` | network/connecteventmanager.go:61-218 | Each step keeps that |
| `ConnectEvents.QuiescentIsTold` | network/connecteventmanager.go:92-146 | With an empty queue and no callback in progress, the last event of a peer is "connected" if and only if the peer is responsive |
| `ConnectEvents.PopKeepsQueue` | network/connecteventmanager.go:98-110 | The popped peer is tracked, so the error branch is dead |
| `ConnectEvents.PopRaises` | network/connecteventmanager.go:113-144 | A pop raises an event exactly when the peer changed between responsive and not |
| `ConnectEvents.TurnKeeps` | network/connecteventmanager.go:92-146 | One turn of the worker shortens the queue and changes no peer's state |
| `ConnectEvents.WorkerCatchesUp` | network/connecteventmanager.go:92-146 | If nothing else happens, the worker empties the queue and every listener has heard the state of every peer |
| `ConnectEvents.TrackedIff` | network/connecteventmanager.go:69-146 | In every run, a disconnected peer with nothing queued is still tracked, if and only if the worker had a turn for it and the turn before its last, if any, found it disconnected already |
| `ConnectEvents.RunTells` | network/connecteventmanager.go:60-212 | In every run, the calls alone tell the state of a peer, and the state the worker acted on is the one its last turn for the peer found |
| `ConnectEvents.QuickDisconnectIsKept` | network/connecteventmanager.go:115-126 | A peer that connects and disconnects before it is popped stays tracked |
| `ConnectEvents.ConnectEventManager.ChangeState` | network/connecteventmanager.go:69-81 | The peer gets the state, and is queued once |
| `ConnectEvents.ConnectEventManager.Connected` | network/connecteventmanager.go:149-159 | The method makes the step of the same name |
| `ConnectEvents.ConnectEventManager.Disconnect` | network/connecteventmanager.go:162-173 | The method makes the step for a disconnect |
| `ConnectEvents.ConnectEventManager.MarkUnresponsive` | network/connecteventmanager.go:176-187 | Only a responsive peer becomes unresponsive |
| `ConnectEvents.ConnectEventManager.MessageFrom` | network/connecteventmanager.go:195-218 | Only an unresponsive peer becomes responsive |
| `ConnectEvents.ConnectEventManager.WorkerPop` | network/connecteventmanager.go:92-143 | Pop under the lock, up to the callback |
| `ConnectEvents.ConnectEventManager.WorkerDeliver` | network/connecteventmanager.go:132-143 | One callback without the lock |
| `ConnectEvents.ConnectEventManager.WorkerResume` | network/connecteventmanager.go:132-144 | Back under the lock after the callbacks |
| `ConnectEvents.ConnectEventManager.Shutdown` | network/connecteventmanager.go:52-59 | The worker is told to stop |
| `SessionTrackers.BlockPresenceManager.UpdateBlockPresence` | client/internal/blockpresencemanager/blockpresencemanager.go:37-49 | A HAVE is never taken back, and no other answer changes |
| `SessionTrackers.BlockPresenceManager.ReceiveFrom` | client/internal/blockpresencemanager/blockpresencemanager.go:25-35 | Exactly the given answers are added, a HAVE winning over a DONT_HAVE |
| `SessionTrackers.BlockPresenceManager.AllPeersDoNotHaveBlock` | client/internal/blockpresencemanager/blockpresencemanager.go:74-85 | Exactly the keys for which all peers answered DONT_HAVE |
| `SessionTrackers.BlockPresenceManager.AllDontHave` | client/internal/blockpresencemanager/blockpresencemanager.go:87-101 | Whether all peers answered DONT_HAVE; a key nobody answered for does not count |
| `SessionTrackers.BlockPresenceManager.RemoveKeys` | client/internal/blockpresencemanager/blockpresencemanager.go:104-111 | All answers for the keys go |
| `SessionTrackers.SessionPeerManager.AddPeer` | client/internal/sessionpeermanager/sessionpeermanager.go:52-70 | The peer is in, and the result says whether it is new |
| `SessionTrackers.SessionPeerManager.RemovePeer` | client/internal/sessionpeermanager/sessionpeermanager.go:86-100 | The peer is out, and the result says whether it was in |
| `SessionTrackers.SentWantBlocksTracker.AddSentWantBlocksTo` | client/internal/session/sentwantblockstracker.go:19-28 | The keys are added for this peer only |
| `SessionTrackers.PeerResponseTracker.ReceivedBlockFrom` | client/internal/session/peerresponsetracker.go:23-25 | The peer is credited with one more block |
| `SessionTrackers.PeerResponseTracker.Choose` | client/internal/session/peerresponsetracker.go:29-57 | The chosen candidate is the one whose share of the total the draw falls into, for every draw |
| `SessionTrackers.CountUpToGrows` | client/internal/session/peerresponsetracker.go:61-70 | Every candidate has a positive share |
| `SessionTrackers.CountStep` | client/internal/session/peerresponsetracker.go:59-70 | The share of a candidate is the number of blocks it was first with, or one if it never was |
| `SessionModel.OneWantBlockOut` | client/internal/session/sessionwantsender.go:393-423 | Between two want-blocks for a CID in one tracking epoch, the first target answered DONT_HAVE for it or left the session |
| `SessionModel.ReportedOncePerHave` | client/internal/session/sessionwantsender.go:504-623 | Between two reports of a CID in one tracking epoch, some peer was recorded as having it |
| `SessionModel.ReportsAreJustified` | client/internal/session/sessionwantsender.go:467-509 | A report names tracked wants, each once, that every session peer lacks (or the session has no peers) |
| `SessionModel.RoundLeavesNothingDue` | client/internal/session/sessionwantsender.go:531-569 | After a send round every want is out to a peer, or every recorded presence is DONT_HAVE |
| `SessionModel.OneBlockAndHavesElsewhere` | client/internal/session/sessionwantsender.go:531-594 | In a round a due want-block goes to one peer, and every other session peer gets a want-have |
| `SessionModel.RoundTellsAll` | client/internal/session/sessionwantsender.go:531-608 | A peer that is sent anything in a round has then been told of every want, by a want-block now or before or by a want-have; which want-blocks and want-haves these are, exactly |
| `SessionModel.PrunedIffOverLimit` | client/internal/session/sessionwantsender.go:393-400 | With counts that never pass sixteen, which every step keeps, a peer is put up for pruning if and only if its DONT_HAVEs in a row exceed sixteen |
| `SessionBatches.BatchPrunesIffOverLimit` | client/internal/session/sessionwantsender.go:391-400 | The same for all DONT_HAVEs of all updates of a batch |
| `SessionBatches.PrunedIff` | client/internal/session/sessionwantsender.go:367-463 | After a batch a peer is pruned if and only if its DONT_HAVEs in a row, counted anew if it came, went or sent a block, exceed sixteen, it sent no HAVE, and it is not known to have a wanted block |
| `SessionBatches.CreditsAre` | client/internal/session/sessionwantsender.go:369-388 | A peer is credited with exactly the wanted blocks that it was the first to send in the batch |
| `SessionBatches.PresenceIsKnown` | client/internal/session/sessionwantsender.go:648-663 | What is recorded about a peer and a block: DONT_HAVE, HAVE or unknown, if and only if that is the answer known, or there is none |
| `SessionBatches.DeclinedNotAsked` | client/internal/session/sessionwantsender.go:531-565 | A peer whose answer in the batch left it known as lacking the block is not asked for it |
| `SessionRuns.EffectIsNoted` | client/internal/session/sessionwantsender.go:246-438 | After a batch, of every tracked want, a peer that joined or answered about it is recorded with what is known about it, and so is every session peer if the want is new |
| `SessionBatches.KeysAre` | client/internal/session/sessionwantsender.go:256-266 | A want is tracked after the changes if and only if it was, or was added, and was not cancelled since |
| `SessionBatches.CancelsAre` | client/internal/session/sessionwantsender.go:256-266 | The cancels passed on are those of the changes |
| `SessionBatches.UpdatesAre` | client/internal/session/sessionwantsender.go:268-280 | The updates processed are those of the changes that come from a peer |
| `SessionBatches.AvailabilityIs` | client/internal/session/sessionwantsender.go:268-283 | A peer is available or not as the last change says that says anything about it; blocks and HAVEs say that it is |
| `SessionBatches.UpdateSets` | client/internal/session/sessionwantsender.go:367-438 | The keys and peers that updates are sorted into are those that some update holds |
| `SessionBatches.OutsidersAre` | client/internal/session/sessionwantsender.go:312-438 | The peers recorded for a want that are not in the session, after a batch: those recorded before that did not join, and exactly the senders of an answer in the batch that are not in the session after it |
| `SessionRuns.RoundStaysInSessionIff` | client/internal/session/sessionwantsender.go:246-565 | Whatever the draws, all want-blocks of the round of a batch go to session peers, if and only if every recorded peer outside the session, carried over or just answering, lacks the block or is outranked by a session peer, for each want that is not out |
| `SessionRuns.RunStaysInSessionIff` | client/internal/session/sessionwantsender.go:246-565 | The same over every run of batches, with who is recorded and as what told by the batches and the presences known at each |
| `SessionRuns.RunKeepsRecords` | client/internal/session/sessionwantsender.go:246-438 | In every run the recorded presences are those that the fold over the batches gives, however the draws fall |
| `SessionRuns.RunOutToSession` | client/internal/session/sessionwantsender.go:246-565 | In such a run every want is out to a session peer or to none after each batch |
| `SessionBatches.HaveAndLeaveHappens` | client/internal/session/sessionwantsender.go:246-305 | A batch in which a peer sends a HAVE and leaves has an outcome |
| `SessionBatches.HaveAndLeaveSession` | client/internal/session/sessionwantsender.go:246-305 | That batch leaves the session without the peer |
| `SessionBatches.OutsiderIsAsked` | client/internal/session/sessionwantsender.go:246-305 | In every outcome of that batch the want-block goes to the peer that left |
| `SessionTrackers.EveryCandidateCanBeDrawn` | client/internal/session/peerresponsetracker.go:29-57 | Every candidate is chosen by some draw |
| `SessionSender.SessionWantSender.CalculateBestPeer` | client/internal/session/sessionwantsender.go:728-766 | No peer if and only if every presence is DONT_HAVE; otherwise, among the peers with a HAVE, or with nothing known if there is none, the one whose share the draw falls into |
| `SessionSender.SessionWantSender.SetPeerBlockPresence` | client/internal/session/sessionwantsender.go:705-714 | The presence is recorded, the best peer recomputed, and a HAVE ends exhaustion |
| `SessionSender.SessionWantSender.UpdateWantBlockPresence` | client/internal/session/sessionwantsender.go:648-663 | The answer known from the peer, or that there is none, is recorded, if the CID is tracked |
| `SessionSender.SessionWantSender.TrackWant` | client/internal/session/sessionwantsender.go:344-358 | A new want is recorded with the answers known from every session peer; a tracked one is unchanged |
| `SessionSender.SessionWantSender.UntrackWant` | client/internal/session/sessionwantsender.go:361-363 | The want goes |
| `SessionSender.SessionWantSender.PeerJoined` | client/internal/session/sessionwantsender.go:636-644 | The peer is recorded in every want |
| `SessionSender.SessionWantSender.PeerLeft` | client/internal/session/sessionwantsender.go:717-725 | The peer is forgotten in every want, and none waits for it |
| `SessionSender.SessionWantSender.SetAvailability` | client/internal/session/sessionwantsender.go:316-337 | One peer joins or leaves: it is recorded in, or forgotten by, every want, and its count of DONT_HAVEs restarts; if that changed nothing, nothing happens |
| `SessionSender.SessionWantSender.ProcessAvailability` | client/internal/session/sessionwantsender.go:312-341 | The session's peers, the newly available and unavailable ones, and what they change in every want, exactly |
| `SessionSender.SessionWantSender.ReceiveBlocks` | client/internal/session/sessionwantsender.go:369-388 | The wants go, and the sender is credited once for each want it satisfied |
| `SessionSender.SessionWantSender.Decline` | client/internal/session/sessionwantsender.go:415-422 | A want waiting for this peer waits no more |
| `SessionSender.SessionWantSender.ReceiveDontHaves` | client/internal/session/sessionwantsender.go:393-423 | Presences, counters and waiting wants after one peer's DONT_HAVEs, exactly |
| `SessionSender.SessionWantSender.ReceiveHaves` | client/internal/session/sessionwantsender.go:426-438 | Presences and counters after one peer's HAVEs, exactly |
| `SessionSender.SessionWantSender.KeepUseful` | client/internal/session/sessionwantsender.go:442-451 | A peer that has a wanted block is not pruned |
| `SessionSender.SessionWantSender.ProcessUpdates` | client/internal/session/sessionwantsender.go:367-463 | Wants, presences, counters, DONT_HAVE keys and peers to prune after all updates of a batch, exactly |
| `SessionSender.SessionWantSender.ProcessExhaustedWants` | client/internal/session/sessionwantsender.go:504-623 | Exactly the given wants not yet marked are marked and reported, each once |
| `SessionSender.SessionWantSender.CheckForExhaustedWants` | client/internal/session/sessionwantsender.go:467-500 | Exactly the unreported wants that every session peer lacks, or all when the last peer left, despite the zero CIDs in the list |
| `SessionSender.SessionWantSender.CollectSends` | client/internal/session/sessionwantsender.go:531-565 | What goes to whom, exactly, and each due want is recorded as sent to its best peer |
| `SessionSender.SessionWantSender.GetPiggybackWantHaves` | client/internal/session/sessionwantsender.go:598-608 | The wants never sent to the peer as want-blocks |
| `SessionSender.SessionWantSender.SendWants` | client/internal/session/sessionwantsender.go:572-594 | The piggybacked want-haves are added, and the want-blocks remembered as sent |
| `SessionSender.SessionWantSender.SendNextWants` | client/internal/session/sessionwantsender.go:531-594 | One send round: the exact want-blocks and want-haves for each peer |
| `SessionSender.SessionWantSender.ApplyWants` | client/internal/session/sessionwantsender.go:257-266 | Adds and cancels of one change |
| `SessionSender.SessionWantSender.CollectChanges` | client/internal/session/sessionwantsender.go:252-284 | A batch amounts to one map of availabilities, one list of cancels and one of updates |
| `SessionSender.SessionWantSender.ApplyChanges` | client/internal/session/sessionwantsender.go:246-294 | All of a batch but the send round: every answer is recorded as what is known from it, senders of blocks are credited, no want waits for a peer that left or declined it, every want left without hope is reported, counters and pruned peers are exact; everything logged is justified by the batch or by the report |
| `SessionSender.SessionWantSender.OnChange` | client/internal/session/sessionwantsender.go:246-305 | After a batch with session peers, every session peer is recorded in every want and each want is out or every recorded presence is DONT_HAVE; the want-blocks and want-haves sent are exactly those of one round; no want-block goes to a peer whose answer in the batch left it known as lacking the block; the want-blocks sent are logged, and all that is logged is justified by the batch, the report or what was sent |
| `DontHaveTimeouts.ExpiryIsJustified` | client/internal/messagequeue/donthavetimeoutmgr.go:224-341 | In every history a want that expires was added at least the timeout before and neither cancelled nor expired since: reported at most once, not early, not after a cancel |
| `DontHaveTimeouts.WhereAdded` | client/internal/messagequeue/donthavetimeoutmgr.go:296-341 | An active want was added at its send time, with nothing about it since |
| `DontHaveTimeouts.LatencyEwma.Update` | client/internal/messagequeue/donthavetimeoutmgr.go:388-398 | The new average is the weighted mean without its fraction, with an equal share for the sample at first and the fixed weight later; the first sample counts alone, later the average moves towards the sample without passing it |
| `DontHaveTimeouts.MixBetween` | client/internal/messagequeue/donthavetimeoutmgr.go:397-397 | A weighted mean lies between its parts |
| `DontHaveTimeouts.FrontIsOldest` | client/internal/messagequeue/donthavetimeoutmgr.go:224-279 | In a queue in order of sending no active want is older than the front, so a check in time for the front is in time for all |
| `DontHaveTimeouts.ExpiresAllIff` | client/internal/messagequeue/donthavetimeoutmgr.go:232-253 | A check expires every active want over the timeout, if and only if none of them is queued behind an active one that is not |
| `DontHaveTimeouts.UndroppedIs` | client/internal/messagequeue/donthavetimeoutmgr.go:232-253 | A check drops the queue up to the first active want that is not over the timeout: all active wants before it are |
| `DontHaveTimeouts.InOrderHidesNone` | client/internal/messagequeue/donthavetimeoutmgr.go:238-242 | In a queue in order of sending that is so |
| `DontHaveTimeouts.MixedUpIsExpiredLate` | client/internal/messagequeue/donthavetimeoutmgr.go:296-327 | Two calls whose times and locks are taken in opposite order: a want over the timeout survives a check |
| `DontHaveTimeouts.StartAfterAddingIsLate` | client/internal/messagequeue/donthavetimeoutmgr.go:147-167 | A want added before the first start is checked after its deadline |
| `DontHaveTimeouts.DropHead` | client/internal/messagequeue/donthavetimeoutmgr.go:246-252 | Dropping the front keeps active wants and active queue entries in bijection |
| `DontHaveTimeouts.DontHaveTimeoutManager.constructor` | client/internal/messagequeue/donthavetimeoutmgr.go:101-131 | Nothing is pending |
| `DontHaveTimeouts.DontHaveTimeoutManager.CalculateTimeoutFromPingLatency` | client/internal/messagequeue/donthavetimeoutmgr.go:360-369 | Never over the maximum |
| `DontHaveTimeouts.DontHaveTimeoutManager.CalculateTimeoutFromMessageLatency` | client/internal/messagequeue/donthavetimeoutmgr.go:372-378 | Never over the maximum |
| `DontHaveTimeouts.DontHaveTimeoutManager.Start` | client/internal/messagequeue/donthavetimeoutmgr.go:147-167 | Only the first call counts; it takes a known latency or asks for a ping. A check that is in time for the front of the queue stays so if and only if it is in time under the new timeout |
| `DontHaveTimeouts.DontHaveTimeoutManager.Shutdown` | client/internal/messagequeue/donthavetimeoutmgr.go:134-144 | The timer is stopped |
| `DontHaveTimeouts.DontHaveTimeoutManager.DropExpired` | client/internal/messagequeue/donthavetimeoutmgr.go:232-253 | The queue is dropped up to the first active want that is not over the timeout; the active wants among what is dropped expire, each once and each logged |
| `DontHaveTimeouts.DontHaveTimeoutManager.CheckForTimeouts` | client/internal/messagequeue/donthavetimeoutmgr.go:224-279 | The same, the log grows by exactly the expired keys, and the next check is scheduled for the deadline of the front of the queue |
| `DontHaveTimeouts.DontHaveTimeoutManager.TimerFires` | client/internal/messagequeue/donthavetimeoutmgr.go:281-292 | A timer that ran out leaves a tick to be seen |
| `DontHaveTimeouts.DontHaveTimeoutManager.ConsumeTimeout` | client/internal/messagequeue/donthavetimeoutmgr.go:281-292 | A tick, even a stale one, leads to a check, and the log grows by exactly the expired keys |
| `DontHaveTimeouts.DontHaveTimeoutManager.AddPending` | client/internal/messagequeue/donthavetimeoutmgr.go:296-327 | Keys not yet active become active at the start time and are logged, then what expires at once; a first want is scheduled for its deadline, and the queue stays in order if the time is not before that of a queued want |
| `DontHaveTimeouts.DontHaveTimeoutManager.CancelPending` | client/internal/messagequeue/donthavetimeoutmgr.go:330-341 | The keys are active no more and will not be reported |
| `DontHaveTimeouts.DontHaveTimeoutManager.UpdateMessageLatency` | client/internal/messagequeue/donthavetimeoutmgr.go:172-187 | A shorter timeout is applied at once and what expires is logged; the schedule stays in time |
| `DontHaveTimeouts.DontHaveTimeoutManager.PingMeasured` | client/internal/messagequeue/donthavetimeoutmgr.go:206-220 | A ping counts only while no message was answered; then it is applied at once and what expires is logged |
| `EngineModel.RunKeepsCovered` | server/internal/decision/engine.go:661-980 | After every run of whole calls every CID in a peer's wantlist is in the inverted index |
| `EngineModel.StepKeepsCovered` | server/internal/decision/engine.go:661-980 | Each call keeps that |
| `EngineModel.ReceiveKeepsCoveredIff` | server/internal/decision/engine.go:661-728 | A message keeps that if and only if it does not both want and cancel a CID |
| `EngineModel.NotifiedIsExact` | server/internal/decision/engine.go:825-918 | After every run that ends in a notification, the index is exact for the notified CIDs |
| `EngineModel.RunHolds` | server/internal/decision/engine.go:661-980 | After every run a peer's wantlist holds exactly its outstanding wants: what it asked for, unless it cancelled or replaced it, was sent the block, was sent a HAVE for a want-have, or disconnected |
| `EngineModel.AddAllHolds` | server/internal/decision/engine.go:722-728 | In one message a want-have replaces nothing and a want-block is not replaced |
| `EngineModel.TasksAnswerMessage` | server/internal/decision/engine.go:690-768 | The tasks of a message answer the denied entries, then the others, in their order: a found block is offered, as the block for a want-block or if small, else as a HAVE; a missing one is declined if that is asked for |
| `EngineModel.WantTasksAnswer` | server/internal/decision/engine.go:722-762 | The same for the entries that pass the filter |
| `EngineModel.DenialTasksAnswer` | server/internal/decision/engine.go:690-720 | The same for the denied ones |
| `EngineModel.BlockTaskOffers` | server/internal/decision/engine.go:734-760 | Topic, priority, size, kind and work of the task for a found block |
| `EngineModel.LastSizeIs` | server/internal/decision/engine.go:830-834 | The size of a block is that of the last block with its CID |
| `EngineModel.EntriesAre` | server/internal/decision/engine.go:772-783 | Wants and cancels are the entries without and with the flag, in the order of the message |
| `EngineModel.FilteredAre` | server/internal/decision/engine.go:786-803 | Allowed and denied are the wants that pass the filter and those that do not, in the order of the message |
| `EngineRuns.StepCoveredIff` | server/internal/decision/engine.go:661-728 | With other calls between updating the index, finding the ledger and updating its wantlist: a step keeps every want in the index, or its cancel under way, if and only if it does not end a message whose pair is gone |
| `EngineRuns.RunCoveredIff` | server/internal/decision/engine.go:661-980 | Over every such run the wants stay covered all along, if and only if no message ends with the pair of one of its wants gone |
| `EngineRuns.PairGoneIff` | server/internal/decision/engine.go:661-980 | The pair is gone if and only if a step since then removed it and none put it back: a notification that found no want, a disconnect, or a cancel in another message |
| `EngineRuns.AtRestCovered` | server/internal/decision/engine.go:661-728 | When no message is under way, covered means that every want is in the index |
| `EngineRuns.NotifiedInBetweenIsMissed` | server/internal/decision/engine.go:661-728 | A run in which a notification falls between the parts of a message, and the want is missing from the index |
| `EngineRuns.StaysUncovered` | server/internal/decision/engine.go:661-980 | Nothing but a new want from the peer brings a missing pair back |
| `EngineRuns.HalvesAreReceive` | server/internal/decision/engine.go:661-728 | The parts without anything between them are one received message |
| `EngineRuns.DropIsNotify` | server/internal/decision/engine.go:894-913 | The second look of a notification, with nothing in between, drops exactly the stale pairs of its CIDs |
| `EngineModel.MessageHasOneEach` | message/message.go:255-261 | The entries of a consistent message have one for each CID, so it never both wants and cancels one |
| `EngineModel.AddAllKeys` | server/internal/decision/engine.go:722-728 | The wantlist then holds what it held and the new wants |
| `DecisionEngine.PeerLedger.Wants` | server/internal/decision/peer_ledger.go:16-23 | One pair is added to the index |
| `DecisionEngine.PeerLedger.CancelWant` | server/internal/decision/peer_ledger.go:25-34 | One pair is taken from the index, and no empty set stays |
| `DecisionEngine.PeerLedger.Peers` | server/internal/decision/peer_ledger.go:36-46 | Exactly the peers indexed for the CID, each once |
| `DecisionEngine.Ledger.CancelWants` | server/internal/decision/ledger.go:36-38 | The cancelled wants go; the result names those there were |
| `DecisionEngine.Engine.SplitWantsCancels` | server/internal/decision/engine.go:772-783 | The entries that are no cancels, and those that are, in order |
| `DecisionEngine.Engine.SplitWantsDenials` | server/internal/decision/engine.go:786-803 | The entries the filter lets through, and those it denies, in order; without a filter none is denied |
| `DecisionEngine.Engine.UpdateIndex` | server/internal/decision/engine.go:661-668 | The wants are indexed, then the cancels unindexed |
| `DecisionEngine.Engine.MakeBlockTask` | server/internal/decision/engine.go:984-987 | A want-block is answered with the block, a want-have with the block if and only if it is small enough, else with a HAVE; the work is the size of what is sent |
| `DecisionEngine.Engine.Deny` | server/internal/decision/engine.go:716-720 | A denied entry is answered only if the requester wants a DONT_HAVE |
| `DecisionEngine.Engine.AddWants` | server/internal/decision/engine.go:722-762 | Each want enters the ledger, and its task says whether the block is there |
| `DecisionEngine.Engine.FindOrCreate` | server/internal/decision/engine.go:998-1018 | The peer's ledger, made if there was none |
| `DecisionEngine.Engine.MessageReceived` | server/internal/decision/engine.go:619-769 | Ledger, index, tasks pushed in order and keys removed after a message; nothing changes when block sizes cannot be had |
| `DecisionEngine.Engine.MessageSent` | server/internal/decision/engine.go:928-946 | Sent blocks answer any want, a HAVE only a want that is not a want-block; the index stays a superset |
| `DecisionEngine.Engine.PeerConnected` | server/internal/decision/engine.go:950-960 | The peer has a ledger |
| `DecisionEngine.Engine.PeerDisconnected` | server/internal/decision/engine.go:963-980 | The peer's ledger and the index entries of its wants go |
| `DecisionEngine.Engine.NotifyBlock` | server/internal/decision/engine.go:841-888 | Looking the block up in the index pushes one task for exactly the peers whose wantlist has it; all other indexed peers are noted as missing |
| `DecisionEngine.Engine.DropMissing` | server/internal/decision/engine.go:894-913 | Exactly the noted pairs that no wantlist has leave the index |
| `DecisionEngine.Engine.NotifyNewBlocks` | server/internal/decision/engine.go:825-918 | For every block the tasks are those of a full scan of all wantlists, and afterwards the index is exact for the notified CIDs |
| `ProviderQueries.ChannelsAreWellUsed` | client/internal/providerquerymanager/providerquerymanager.go:309-430 | In every run, the cleanup included, no listener channel is closed twice or sent to after its close |
| `ProviderQueries.RunIsTold` | client/internal/providerquerymanager/providerquerymanager.go:341-430 | In every run the requests in progress, their providers and their listeners are those that the messages tell |
| `ProviderQueries.StepIsTold` | client/internal/providerquerymanager/providerquerymanager.go:341-430 | Each handled message keeps that |
| `ProviderQueries.ProvidersAre` | client/internal/providerquerymanager/providerquerymanager.go:341-407 | The providers of a request are those received since it was made, in the order they came in |
| `ProviderQueries.OpenIff` | client/internal/providerquerymanager/providerquerymanager.go:309-430 | The open channels are exactly those of the listeners of requests in progress, until the cleanup |
| `ProviderQueries.SubscribersAgree` | client/internal/providerquerymanager/providerquerymanager.go:341-407 | While the manager runs, all listeners of a request have seen the same providers in the same order: those received since the request was made |
| `ProviderQueries.FinishedSawAll` | client/internal/providerquerymanager/providerquerymanager.go:361-372 | When a request is finished, each listener has seen every provider received since the request was made, its channel is closed and the request is forgotten |
| `ProviderQueries.RunOwnOnlyIff` | client/internal/providerquerymanager/providerquerymanager.go:361-430 | Over every run the query running for a requested CID is that of its request, if and only if no CID is requested anew while an earlier query for it runs |
| `ProviderQueries.FinishIsForeignIff` | client/internal/providerquerymanager/providerquerymanager.go:361-430 | Over every run a finish message ends the request of another query, if and only if its own query was still running when that request was made |
| `ProviderQueries.FinishIsOwn` | client/internal/providerquerymanager/providerquerymanager.go:361-372 | When no CID is requested anew too early, a finish message ends the request its own query was started for, or none |
| `ProviderQueries.StaleFinishEndsNewRequest` | client/internal/providerquerymanager/providerquerymanager.go:361-430 | A run in which a CID is requested, cancelled and requested again, and the first query's finish message ends the second request |
| `ProviderQueries.CleanupClosesAll` | client/internal/providerquerymanager/providerquerymanager.go:309-316 | After the cleanup no channel ever made is open |
| `ProviderQueries.RunKeepsInv` | client/internal/providerquerymanager/providerquerymanager.go:309-430 | The open channels are exactly those of the listeners, each of one request, in every run |
| `ProviderQueries.StepKeepsInv` | client/internal/providerquerymanager/providerquerymanager.go:309-430 | Each handled message keeps that |
| `ProviderQueries.ClosingKeepsInv` | client/internal/providerquerymanager/providerquerymanager.go:361-430 | Closing channels and forgetting their listeners keeps that |
| `ProviderQueries.ProviderQueryManager.HandleNew` | client/internal/providerquerymanager/providerquerymanager.go:378-407 | A listener joins a request with the providers found so far; a stopped manager may not dispatch a new request |
| `ProviderQueries.ProviderQueryManager.HandleReceived` | client/internal/providerquerymanager/providerquerymanager.go:341-355 | Every listener is sent the provider; a stopped manager may reach only some |
| `ProviderQueries.ProviderQueryManager.HandleFinished` | client/internal/providerquerymanager/providerquerymanager.go:361-372 | All channels of the request are closed, and it is forgotten |
| `ProviderQueries.ProviderQueryManager.HandleCancel` | client/internal/providerquerymanager/providerquerymanager.go:413-430 | The listener's channel is closed, unless the request finished meanwhile; the last listener ends the request |
| `ProviderQueries.ProviderQueryManager.CleanupInProcessRequests` | client/internal/providerquerymanager/providerquerymanager.go:309-316 | All channels still open are closed, each once |
| `ProviderQueries.ReceiveProviders` | client/internal/providerquerymanager/providerquerymanager.go:155-200 | For any sequence of choices, what is delivered and what is buffered make up the snapshot and what came in, in order; it ends normally if and only if the buffer is empty and the incoming channel closed |
| `ProviderQueries.TakenStep` | client/internal/providerquerymanager/providerquerymanager.go:155-200 | What each choice of the receiving loop does to what came in and to what is buffered |

## Left out

- Streams, retries, dialing and provider routing: network I/O, not part of this model.
- PeerTaskQueue, the block store, `cid.Cast` and `Prefix.Sum`: foreign code. Tasks are returned by the engine's methods in the order they are pushed; CID checks and hashing are parameters.
- Merging of tasks in the request queue, byte accounting of score ledgers, the CID queues of a session and the routing of received blocks to interested sessions.
- The engine's task workers, which pop tasks and assemble envelopes.
- Logging, tracing, metrics histograms and options.
- `ToProtoV0`, `Clone`, `Loggable` and the other accessors of a message.
- The fields a decoder has already set when it returns an error: the model returns only the error.
- The callback that stamps send times and the matching of responses to them in the message queue (lines 800-826 and 591-635 of messagequeue.go); `RecordSentAt` models the stamping of one key. What the queue's own methods do to the stamps is not stated, only what those of its recall wantlists do.
- When the message queue sends: work signals, rebroadcast timing, send retries and shutdown. In `QueueRuns` a message is delivered at the moment its extraction is finished.
- QueueModel.RunKeepsSynced: takes extraction as one step; `QueueRuns.RunInStepIff` is the theorem for interrupted extraction.
- MessageQueues.MessageQueue.ExtractOutgoingMessage: is the uninterrupted call, without the callback that stamps send times.
- DontHaveTimeouts.DontHaveTimeoutManager.CheckForTimeouts: an expiry is recorded when it is decided under the lock, and the clock is read once for a check. The callback comes later on another goroutine, and is dropped after shutdown.
- DontHaveTimeouts.LatencyEwma.Update: reals instead of floats, so rounding other than the final truncation is not modelled.
- SessionTrackers.PeerResponseTracker.Choose: reals instead of floats, so the fallback to the last candidate is not reached.
- DecisionEngine.Engine.MessageReceived: takes the call as one step. The index and the wantlist are updated under different locks; when a notification for a wanted CID falls in between, the want is missing from the index until the peer wants the CID anew (`EngineRuns`).
- DecisionEngine.Engine.NotifyNewBlocks: takes the call as one step, so that its second look at the wantlists never finds what the first missed; in `EngineRuns` the second look is a step of its own, and the lookups that push tasks are left out.
- EngineModel.RunKeepsCovered: is about whole calls; `EngineRuns.RunCoveredIff` is the theorem for interleaved ones.
- ProviderQueries.ProviderQueryManager.HandleNew: the rate-limited workers that look for providers are left out; dispatching is a flag.
- ProviderQueries.FinishedSawAll: is about the providers received before the finish message, whichever query sent it.
