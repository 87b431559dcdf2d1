# Morton, verified model

Morton is an authoritative game server. Its hard logic is separate from its
sockets: a delta-snapshot protocol, a reliable message channel over datagrams, a
bit stream, a Z-order spatial grid, and the handing of players from one shard to
another. This project models that logic in Dafny and proves what it is for.

## What is proved

**Replication.** The encoder and the decoder are classes over the byte-level bit
stream, refined by functions on values. In every session, under any loss,
duplication and reordering, whatever the client accepts is exactly the frame the
server recorded for that tick (`Session.ReplicationSafety`). On a link that keeps
order, with rings of equal size, nothing is ever rejected, whatever happens to the
acks (`OrderedSession.NeverRejected`). A changed entity waits at most
N·(D+0.01)/0.01 + N encodes (`Fairness.BoundedWaiting`), however rivals come and go
and whatever set of best candidates is picked; if all that differs fits, the client
has the scene as it is (`Freshness.CaughtUp`), and both sides always know the newest
tick there is to know (`Freshness.NewestKnown`).

**Reliable messages.** Two endpoints over a hostile network, with 16-bit ids and
sequence numbers that wrap: what is handed out is always a prefix of what was
queued (`ReliableRun.ReliableDelivery`), and a message leaves the sender only after
the peer has read a packet that carried it (`Retention.RetiredWasRead`). It leaves as
soon as an ack names such a packet: the front of the queue is the furthest end of an
acked packet, no more and no less (`Acknowledged.FrontIsAcked`). Of all byte strings
exactly those that begin with a packet are accepted (`Datagrams.AcceptedExactly`).

**Bits.** Any list of fields that fits is read back identically through the
accumulator-based writer and the byte-walking reader (`Fields.StreamRoundTrip`).

**Grid.** Codes tile the cell array, the counting sort groups a permutation of all
indices, a radius query with the distance check is brute force, and the pair walk
calls back exactly once for each close pair.

**Shards.** At most one shard holds a live copy of a player, and presence names it
(`Clusters.AtMostOneShard`) and its session (`Reconnects.PresenceIsSession`); no input
is consumed twice along a chain of handoffs and resumes (`Clusters.InputsOnce`); a
shard's tables agree through connect, replacement, disconnect and expiry; queued inputs
move the player one after the other (`Worlds.InputsInOrder`); a player that comes back
or is handed on stands where it stood (`ShardServers.ReturnsWhereItWas`), keeps its
session (`Reconnects.ReconnectResumes`) and misses no input (`Clusters.HandoffArrives`);
region hysteresis bounds how often a player can change hands; a ticket decodes to itself
and every one-byte change is rejected.

## Layout

Each file holds the module of its name.

- `Sequence`, `SequenceBuffers`: wrapping numbers and the window over them.
- `Bits`, `BitStream`, `Fields`, `Emission`: bit fields as values (`Pen`, `Cursor`),
  the writer and reader classes, whole streams.
- `Reliability`, `ReliableWire`, `Datagrams`, `ReliableRun`, `Retention`,
  `Acknowledged`: the endpoint as functions, as a class over bytes, and in two-party
  runs.
- `Snapshot`, `Recording`, `Replication`, `SnapshotEncoder`, `SnapshotDecoder`,
  `Session`, `OrderedSession`, `Freshness`, `Fairness`: the codec, the encoder, the
  decoder, and sessions.
- `Morton`, `Grid`, `SpatialQueries`, `Regions`: space.
- `Checksums`, `Tickets`, `InputLedger`, `Clusters`, `Reconnects`: handoff.
- `EntityStores`, `Worlds`, `ShardTables`, `ShardServers`: one shard's state; what
  its handlers do to the tables is tied to the cluster model by `ShardServer.Shows`.

A class is tied to its specification by `View()`, its abstract value: each method
says `View() == F(old(View()))`, and the theorems are about `F`. Positions and
priorities are reals; a float on the wire is its 32-bit pattern.

## Where the code does less than it says

Each of these is modelled as the code has it, and the theorem named says exactly when
the code meets the property.

- A peer that has received nothing still acks packet 0 (src/net/reliability.cpp:67)
  and the reader acts on it (src/net/reliability.cpp:199). `ReliableRun.NullAckLoses`
  is a run in which a message is forgotten that nobody has;
  `ReliableRun.NullAckRetires` says exactly when that happens.
- The include loop holds every message against the same remaining space
  (src/net/reliability.cpp:85-90), so a packet can overflow; its number is used up
  all the same. `ReliableRun.IncludeLoop`: for any pending messages, the first of
  them that each fit alone ride, and the packet goes out if and only if they also fit
  together; `ReliableRun.OverflowRun` is a run in which they do not.
- The kind of an entity already in the baseline is never sent
  (src/proto/snapshot.cpp:231-253): the codec is exact if and only if kinds are
  fixed (`Recording.DecodedIsRecorded`).
- Going from region A to B and back need not cost two margins when regions that do
  not touch can exchange players: `Regions.ReturnCostsTwoExactly` gives the exact
  condition, and `Regions.CheapReturn` a cheap return in every other map.
- Releasing a session clears presence even if a shard still holds the player
  (src/cluster/matchmaker.cpp:204-207). `Clusters.ReleaseExact`: no run that follows
  has two live copies if and only if no shard holds the player.
- A handoff sends the ticket and the presence transfer in one pipeline
  (src/cluster/migration.cpp:100-108): if the token is taken, the ticket is not
  stored but presence has moved; and if the redirect event is too long to encode
  (src/app/world_server.cpp:466-468), the player stays after presence has moved.
  `Clusters.HandoffExact`: no run that follows has two live copies if and only if the
  token is free and the event can be encoded; `Clusters.TokenTakenReachable` is a run
  that leads to a taken token.
- A shard remembers redeemed tickets and admits them again
  (src/app/world_server.cpp:188-195). `Clusters.TicketGuardExact`: presenting a ticket
  that the shard does not remember is safe in every run that keeps to that, and
  presenting one that it does remember can consume an input twice;
  `Clusters.ReuseReachable` is a run that gets there.
- An input numbered 0 is queued as often as it comes while nothing else has been
  received (src/sim/world.cpp:136-139). `InputLedger.QueueKeeps` and
  `Worlds.World.Queue` say exactly when a queue stays in order;
  `InputLedger.ZeroRepeats` consumes a zero twice.
- The entity table, `spawn_player` and `adopt_entity` trust their callers about ids and
  owners (src/sim/world.cpp:22-129): `EntityStores.EntityStore.Add`,
  `Worlds.World.SpawnPlayer` and `Worlds.World.Adopt` say what they do in any case, and
  exactly when the tables still match.

## Hypotheses on runs

- Reliable channel (`ReliableRun.Enabled`): no packet is read 32768 or more numbers
  away from the newest read, no ack 32768 or more numbers late, fewer than 57344
  messages pending, no harmful null ack.
- Replication session (`Session.Enabled`): kinds fixed per id and below 4, ticks
  strictly increasing, and no more removals and updates than the decoder takes, which
  every budget of up to 65535 bytes ensures (`Replication.BudgetHolds`).
  `Freshness.NewestKnown` also needs that the ticks span at most 2^31, beyond which the
  order of ticks is not theirs (`Freshness.TickOrderExactly`).
- Cluster (`Clusters.Enabled`): atomic store commands without retry, no presence
  expiry while in use, the token of a handoff not in the store, a shard judged dead is
  dead, redirect events always encode, one client that acts on its latest credential,
  no zero as the first input, release only of a player nobody holds.
  `Clusters.InputsOnce` also needs that no ticket is presented to a shard that
  remembers it; `Clusters.AtMostOneShard` does not.
- Grid: the claims are for the positions the grid was built from. The collision pass
  moves entities while it walks the pairs (src/sim/world.cpp:208-233).

## Model

| member | source | states |
|---|---|---|
| `Sequence.GreaterIsOrder` | src/core/types.h:74-76 | the wrapping comparison is the order of the unbounded numbers, for numbers less than half a ring apart |
| `Sequence.GreaterIsTotal` | src/core/types.h:74-76 | of two different sequences exactly one is greater, the half-ring distance included |
| `Sequence.AheadIsDifference` | src/net/sequence_buffer.h:28-29 | the 16-bit difference is the true distance below a full ring |
| `SequenceBuffers.WindowIsExact` | src/net/sequence_buffer.h:27-75 | after every history of inserts the window holds exactly the numbers less than the capacity behind the newest, each with its last record |
| `SequenceBuffers.InsertTracks` | src/net/sequence_buffer.h:27-41 | one insert keeps the window exact, ahead, behind or too old |
| `SequenceBuffers.TracksFinds` | src/net/sequence_buffer.h:43-53 | a lookup finds a number exactly when it was inserted and is still in the window |
| `SequenceBuffers.ClearedIsAged` | src/net/sequence_buffer.h:64-75 | advancing clears the slot of a live entry exactly when it falls out of the window |
| `SequenceBuffers.NoAlias` | src/net/sequence_buffer.h:37-46 | two live sequences never share a slot |
| `SequenceBuffers.SequenceBuffer.Insert` | src/net/sequence_buffer.h:27-41 | the arrays implement the window's insert; refused exactly if too old |
| `SequenceBuffers.SequenceBuffer.RemoveRange` | src/net/sequence_buffer.h:64-75 | exactly the slots on the way from begin to end are cleared, across the wrap |
| `SequenceBuffers.SequenceBuffer.Advance` | src/net/sequence_buffer.h:32-36 | the new latest drops exactly what is too far behind it |
| `SequenceBuffers.SequenceBuffer.Find` | src/net/sequence_buffer.h:43-51 | finds what the window holds |
| `SequenceBuffers.SequenceBuffer.Exists` | src/net/sequence_buffer.h:53-53 | true exactly for what the window holds |
| `BitStream.BitWriter.WriteBits` | src/proto/bitstream.h:16-29 | the accumulator path appends exactly the field's bits, or only latches the flag; bytes past the capacity are not touched |
| `BitStream.BitWriter.Flush` | src/proto/bitstream.h:24-28 | flushing whole bytes does not change what was written |
| `BitStream.BitWriter.WriteRanged` | src/proto/bitstream.h:48-53 | writes the clamped offset in just enough bits |
| `BitStream.BitWriter.WriteVarint` | src/proto/bitstream.h:56-62 | writes groups of seven bits, low first |
| `BitStream.BitWriter.WriteBytes` | src/proto/bitstream.h:70-82 | the block copy and the bytewise path write the same bits |
| `Bits.PutBytesWrote` | src/proto/bitstream.h:70-82 | the two paths of a block agree and overflow on the same inputs |
| `BitStream.BitWriter.WriteString` | src/proto/bitstream.h:64-68 | length and bytes of the first 1023 bytes |
| `BitStream.BitWriter.Align` | src/proto/bitstream.h:84-87 | zeros up to the next byte |
| `BitStream.BitWriter.BytesWritten` | src/proto/bitstream.h:91-96 | the bytes hold what was written and zeros; the stream is undisturbed |
| `BitStream.CountBits` | src/proto/bitstream.h:101-106 | the smallest width that holds the range, at least 1 |
| `BitStream.BitReader.ReadBits` | src/proto/bitstream.h:123-141 | the byte-walking loop reads the next bits as a number; past the end it reads zero and latches the flag |
| `BitStream.BitReader.ReadVarint` | src/proto/bitstream.h:166-176 | up to five groups, truncated to 32 bits |
| `BitStream.BitReader.ReadRanged` | src/proto/bitstream.h:161-164 | the offset plus the minimum |
| `BitStream.BitReader.ReadString` | src/proto/bitstream.h:178-185 | the bytes of the announced length; more than 1023 latches the flag |
| `BitStream.BitReader.ReadBytes` | src/proto/bitstream.h:187-198 | a block copy reads what reading byte by byte reads; past the end the caller's buffer is left as it was |
| `BitStream.BlockIsEach` | src/proto/bitstream.h:187-198 | copying whole bytes is reading them one at a time |
| `Fields.StreamRoundTrip` | src/proto/bitstream.h:16-203 | any list of fields that fits reads back as what the source keeps of each (masked, clamped, the first 1023 bytes), so as itself if it is in range, padding or not, and stays inside the buffer |
| `Fields.WriteThenRead` | src/proto/bitstream.h:11-203 | the same through both classes and the bytes between them; it fails exactly on overflow |
| `ReliableWire.ReliableEndpoint.Queue` | src/net/reliability.cpp:49-59 | appends a message with the next id, or drops one of invalid size |
| `ReliableWire.ReliableEndpoint.CollectAcks` | src/net/reliability.cpp:69-75 | bit i is set exactly if the packet i + 1 before the highest was received |
| `ReliableWire.ReliableEndpoint.CountIncluded` | src/net/reliability.cpp:84-90 | how many of the oldest messages ride along |
| `ReliableWire.ReliableEndpoint.WritePacket` | src/net/reliability.cpp:61-118 | the bytes are those of the next packet, written exactly if it fits; its number and messages are recorded either way, and an oversized payload's size is truncated |
| `ReliableWire.PacketRoundTrip` | src/net/reliability.cpp:61-186 | reading a written packet's bytes does exactly what reading the packet means |
| `Datagrams.AcceptedExactly` | src/net/reliability.cpp:120-186 | of all byte strings exactly those are accepted that begin with a well-formed packet which is not refused, and they are read as that packet |
| `ReliableWire.ReliableEndpoint.ReadPacket` | src/net/reliability.cpp:120-186 | parses any datagram, well formed or not, up to the point where it goes wrong |
| `ReliableWire.ReliableEndpoint.Note` | src/net/reliability.cpp:130-145 | a duplicate or too old packet is refused, any other remembered |
| `ReliableWire.ReliableEndpoint.ReadMessages` | src/net/reliability.cpp:156-171 | buffers each message that is neither delivered nor buffered |
| `ReliableWire.ReliableEndpoint.Deliver` | src/net/reliability.cpp:188-196 | hands out buffered messages while the next expected one is there |
| `ReliableWire.ReliableEndpoint.Acks` | src/net/reliability.cpp:198-205 | acts on the ack and each set bit in turn |
| `ReliableWire.ReliableEndpoint.OnAcked` | src/net/reliability.cpp:207-239 | the first ack of a remembered packet retires its messages |
| `ReliableWire.ReliableEndpoint.Retire` | src/net/reliability.cpp:230-238 | erases the first pending message with the id |
| `ReliableRun.ReliableDelivery` | src/net/reliability.cpp:49-239 | in every run, what each side has handed out is a prefix of what the other queued |
| `ReliableRun.SenderRetention` | src/net/reliability.cpp:61-118 | the queue is one interval of the messages, the receiver is never behind its front, and at most 7 messages wait out of order, all still pending |
| `Retention.RetiredWasRead` | src/net/reliability.cpp:207-239 | a message that left the queue was in a packet the peer read |
| `Retention.DeliveredExactly` | src/net/reliability.cpp:156-196 | in every run exactly the messages before the first one that no packet read so far carried have been handed out |
| `Acknowledged.FrontIsAcked` | src/net/reliability.cpp:198-239 | in every run the front of the queue is exactly the furthest end of an acked packet, and each packet of the window is remembered with the right flag |
| `Acknowledged.ReadMarks` | src/net/reliability.cpp:120-239 | reading a packet that is not refused marks exactly the remembered packets that its ack or a bit of it names, and moves the front to the furthest of their ends |
| `Acknowledged.NamesExactly` | src/net/reliability.cpp:198-205 | what a packet read on time names: the newest packet its writer had read, and each one further back whose bit is set |
| `Acknowledged.WritesExactly` | src/net/reliability.cpp:66-75 | a packet's bits say exactly which of the 32 packets before the newest its writer has read |
| `Acknowledged.RefusedExactly` | src/net/reliability.cpp:130-133 | a packet is refused exactly if it was read before or is 1024 or more behind the newest; out of order is no reason |
| `ReliableRun.StepKeeps` | src/net/reliability.cpp:49-239 | every queue, write and read keeps the two-sided invariant |
| `ReliableRun.NullAckExact` | src/net/reliability.cpp:198-239 | acting on a null ack keeps the front behind the receiver exactly if every message it retires has arrived |
| `ReliableRun.NullAckRetires` | src/net/reliability.cpp:120-239 | the same for reading the whole packet |
| `ReliableRun.NullAckLoses` | src/net/reliability.cpp:66-67 | a run of three steps after which reading a null ack loses a message |
| `ReliableRun.IncludeLoop` | src/net/reliability.cpp:84-112 | for any number of pending messages and any payload: exactly the longest run of them, up to 8, that each fit alone rides, and the packet goes out if and only if its number is not too old and they also fit together |
| `ReliableRun.OverflowRun` | src/net/reliability.cpp:84-111 | a run in which a packet is numbered and recorded but not sent |
| `Recording.SnapshotRoundTrip` | src/proto/snapshot.cpp:311-401 | the decoder accepts an encoded snapshot and arrives at the recorded list, if and only if no kind changed |
| `Replication.SceneRoundTrip` | src/proto/snapshot.cpp:168-254 | the same for any scene, baseline and selection that fits the counts |
| `Recording.DecodedIsRecorded` | src/proto/snapshot.cpp:265-282 | removals and updates applied to the baseline give the recorded list exactly if kinds are stable |
| `Recording.NothingDeferred` | src/proto/snapshot.cpp:275-281 | if nothing is deferred the recorded list is the current one |
| `Freshness.CandidateExactly` | src/proto/snapshot.cpp:154-154 | an entity is a candidate exactly if the baseline does not have it as it is now |
| `Freshness.FitExactly` | src/proto/snapshot.cpp:191-194 | the number of records allowed is the largest whose 101 bits each fit after the count |
| `Freshness.SendsWhatFits` | src/proto/snapshot.cpp:190-207 | only what differs is sent, and if any of it is not, one more record would not have fitted |
| `Freshness.RoomSendsAll` | src/proto/snapshot.cpp:144-282 | if all that differs fits, the frame recorded is the current list |
| `Freshness.CaughtUp` | src/proto/snapshot.cpp:72-401 | and a client that accepts it has the current list |
| `Freshness.CloserFirst` | src/proto/snapshot.cpp:156-201 | with equal credit a farther entity is not sent before a closer one |
| `Freshness.ViewerFirst` | src/proto/snapshot.cpp:162-162 | the viewer's own entity goes before any that has not a million more credit |
| `Freshness.BaselineExactly` | src/proto/snapshot.cpp:62-110 | in every session an encode has a baseline exactly if the newest acked frame still has its slot and will keep it, and then it is that frame |
| `Freshness.NewestKnown` | src/sim/client_view.cpp:127-131 | in every session the client's latest tick is the newest it accepted, and the server's acked tick the newest acked |
| `Freshness.TickOrderExactly` | src/core/types.h:78-80 | the wrapping order of ticks is their order exactly if they are at most half the ring apart |
| `Snapshot.DecodeEncoded` | src/proto/snapshot.cpp:311-401 | decoding applies exactly the removals and the updates |
| `Snapshot.UpsertKeeps` | src/proto/snapshot.cpp:359-397 | the in-order insert keeps the list sorted and changes only its id |
| `Snapshot.DecodedInOrder` | src/proto/snapshot.cpp:311-401 | whatever the bytes, an accepted list is in id order, and a delta is accepted only against the frame it names |
| `Snapshot.AcceptedIsWhole` | src/proto/snapshot.cpp:311-401 | whatever the bytes, an accepted snapshot has all its parts: every removal and every record that its counts announce, and no more removals than are allowed |
| `SnapshotEncoder.MergeBaseline` | src/proto/snapshot.cpp:112-134 | one merge yields each entity's baseline state and exactly the departed ids |
| `SnapshotEncoder.Rank` | src/proto/snapshot.cpp:136-166 | the cursor finds each entity's credit; exactly the changed entities get a priority |
| `SnapshotEncoder.Select` | src/proto/snapshot.cpp:190-207 | a best set of the size that fits, in id order |
| `SnapshotEncoder.EmitRecords` | src/proto/snapshot.cpp:209-254 | the bits of the selected records, as gaps and flags |
| `SnapshotEncoder.RecordFrame` | src/proto/snapshot.cpp:268-282 | what was sent as it is now, what was not as the baseline has it |
| `SnapshotEncoder.CarryCredits` | src/proto/snapshot.cpp:284-292 | the unsent candidates keep their priority, in id order |
| `SnapshotEncoder.ReplicationState.Acknowledge` | src/proto/snapshot.cpp:66-70 | only a newer tick moves the ack |
| `SnapshotEncoder.ReplicationState.Encode` | src/proto/snapshot.cpp:72-295 | fails without change exactly when the header leaves no room for the count; else the bytes are a best choice that fits, and that choice is recorded; bytes past the budget are not touched |
| `Replication.BudgetHolds` | src/proto/snapshot.cpp:19-24 | the selected records never overflow any budget; both counts fit their fields for budgets of up to 65535 bytes |
| `Replication.RecordSize` | src/proto/snapshot.cpp:19-22 | every form of record needs at most 101 bits |
| `Replication.StoredIsFound` | src/proto/snapshot.h:65-76 | a ring slot answers only for the exact tick it holds |
| `SnapshotDecoder.Decode` | src/proto/snapshot.cpp:311-401 | the decoder over bytes, all rejections included |
| `SnapshotDecoder.ClientView.ApplySnapshot` | src/sim/client_view.cpp:84-131 | the client's ring, latest tick and acceptance |
| `Session.AcceptsExactly` | src/sim/client_view.cpp:84-131 | a packet is accepted exactly if it is full or its baseline is held, and then gives the server's frame |
| `Session.ReplicationSafety` | src/proto/snapshot.cpp:72-401 | in every session each frame the client holds is the one the server recorded for its tick |
| `OrderedSession.NeverRejected` | src/proto/snapshot.cpp:62-70 | on an order-preserving link with equal rings of any size no snapshot is rejected |
| `OrderedSession.Accepted` | src/proto/snapshot.cpp:105-110 | the client still holds whatever baseline a packet in order needs |
| `Fairness.NoStarvation` | src/proto/snapshot.cpp:136-207 | under the priority bounds no candidate waits longer than the bound |
| `Fairness.BoundedWaiting` | src/proto/snapshot.cpp:284-292 | the encoder's own credits, priorities and choices meet those bounds, so the waiting is bounded |
| `Fairness.EncodeIsFair` | src/proto/snapshot.cpp:144-166 | each encode raises the rank of what it defers and prefers higher ranks |
| `Morton.EncodeDecode` | src/spatial/morton.h:30-37 | decoding inverts encoding on all 16-bit coordinates |
| `Morton.DecodeEncode` | src/spatial/morton.h:30-37 | encoding inverts decoding on all 32-bit codes |
| `Morton.EncodeIsInterleave` | src/spatial/morton.h:12-32 | the bit tricks compute the interleaving of the coordinates |
| `Morton.CodesBelow` | src/spatial/morton.h:30-32 | a code is below 4^k exactly if both coordinates are below 2^k |
| `Morton.CodesTile` | src/spatial/morton.h:30-37 | every number below n * n is the code of exactly one cell of the n-by-n grid |
| `Grid.CellMonotone` | src/spatial/grid.h:27-32 | cells follow the order of coordinates, clamped positions included |
| `Grid.CellNear` | src/spatial/grid.h:27-32 | points at most a cell width apart are in the same or adjacent cells |
| `Grid.CountCells` | src/spatial/grid.cpp:39-43 | the codes, and how often each occurs |
| `Grid.SumCounts` | src/spatial/grid.cpp:45-45 | running sums give where each bucket starts |
| `Grid.Scatter` | src/spatial/grid.cpp:47-48 | each index ends up in its place in its bucket, and disturbs no other |
| `Grid.GroupedIsPermutation` | src/spatial/grid.cpp:31-49 | the sorted list holds each index exactly once |
| `Grid.BucketExact` | src/spatial/grid.cpp:31-49 | a bucket holds exactly the indices of its code, in order |
| `SpatialQueries.SpatialGrid.Configure` | src/spatial/grid.cpp:9-22 | an empty grid of a power of two of cells |
| `SpatialQueries.SpatialGrid.Build` | src/spatial/grid.cpp:31-49 | the arrays group all positions by cell, with correct offsets |
| `SpatialQueries.CellSlice` | src/spatial/grid.h:47-53 | the slice of a cell holds exactly the indices of its positions, in order |
| `SpatialQueries.SpatialGrid.QueryRadius` | src/spatial/grid.h:40-57 | calls back exactly once for each entity in the block of cells around the circle |
| `SpatialQueries.QueryIsBruteForce` | src/spatial/grid.h:38-57 | with the distance check, each entity in range is seen exactly once and no other |
| `SpatialQueries.BoxExactly` | src/spatial/grid.h:40-57 | a query visits a cell exactly if a point of the square around its circle is in it |
| `SpatialQueries.SpatialGrid.ForEachPair` | src/spatial/grid.h:61-105 | calls back exactly once for each pair the half-neighbourhood rule selects |
| `SpatialQueries.PairsOnce` | src/spatial/grid.h:59-105 | one call for each unordered pair within the radius and none for any other |
| `SpatialQueries.OneOrder` | src/spatial/grid.h:83-91 | of two close positions the walk takes exactly one order |
| `Regions.InsideOwn` | src/sim/region.h:26-47 | an in-world position lies within the bounds of its region |
| `Regions.ChangesCostMargins` | src/sim/region.h:49-60 | k region changes, two or more, need a path longer than k - 1 margins in the max norm |
| `Regions.HandoffExactly` | src/sim/region.h:49-60 | a player is handed on exactly if it is more than the margin away from every point of its region, and to the region it is in |
| `Regions.ReturnCostsTwo` | src/sim/region.h:49-60 | a change from A to B and back costs more than two margins, in maps that meet the condition |
| `Regions.ReturnCostsTwoExactly` | src/sim/region.h:49-60 | the condition is exact: touching regions, a margin of at most half a region, or one that rules out handoffs |
| `Regions.CheapReturn` | src/sim/region.h:49-60 | in every other map some return is cheaper |
| `Checksums.MixInjective` | src/cluster/migration.cpp:12-15 | one FNV-1a step is injective in the hash and in the byte |
| `Checksums.OneByteChanges` | src/cluster/migration.cpp:10-17 | changing exactly one byte changes the checksum |
| `Checksums.ComputeChecksum` | src/cluster/migration.cpp:10-17 | the loop computes the checksum |
| `Checksums.KnownValue` | src/cluster/migration.cpp:10-17 | the FNV-1a value of one byte |
| `Tickets.EncodeTicket` | src/cluster/migration.cpp:21-48 | the ticket's bits and their checksum, or nothing exactly if that exceeds 512 bytes |
| `Tickets.ParseTicket` | src/cluster/migration.cpp:50-82 | the decoder, all rejections included |
| `Tickets.TicketRoundTrip` | src/cluster/migration.cpp:21-82 | every ticket that encodes decodes to itself, or to nothing exactly if it has no player id |
| `Tickets.OneByteRejected` | src/cluster/migration.cpp:50-60 | changing exactly one byte of a blob that decodes makes it be rejected |
| `Tickets.AcceptedIsWhole` | src/cluster/migration.cpp:50-82 | whatever the blob, an accepted one has the right size, checksum and version, a player id, and room for every field |
| `EntityStores.RemovedKeeps` | src/sim/world.cpp:35-62 | swap-and-pop keeps the index an exact inverse and every other entity as it was |
| `EntityStores.AddedKeeps` | src/sim/world.cpp:22-33 | appending keeps the index exact and adds just the one entity |
| `EntityStores.EntityStore.Add` | src/sim/world.cpp:22-33 | appends the row; the entity is there and nothing else changed, exactly if its id is new |
| `EntityStores.AddedTwice` | src/sim/world.cpp:22-33 | a second row with the same id breaks the index |
| `EntityStores.EntityStore.Remove` | src/sim/world.cpp:35-62 | exactly the one entity is gone; false if it was not there |
| `EntityStores.EntityStore.Find` | src/sim/world.h:38-41 | the row of an entity, if it is there |
| `Worlds.World.SpawnPlayer` | src/sim/world.cpp:82-91 | a fresh entity and slot for the client; slots and entities still match exactly if it had none |
| `Worlds.World.SpawnDrifter` | src/sim/world.cpp:93-97 | a fresh entity without owner |
| `Worlds.World.Despawn` | src/sim/world.cpp:99-105 | the entity and its owner's slot are gone, and no other |
| `Worlds.World.Adopt` | src/sim/world.cpp:107-129 | the entity is where it was left and its slot goes on from the given input; slots and entities still match exactly if the client may take it |
| `Worlds.World.Queue` | src/sim/world.cpp:131-147 | queues a newer input, dropping the oldest of 32; stale ones and unknown clients change nothing; the queue stays in order exactly if this is not a zero before anything else |
| `Worlds.World.ApplyInputs` | src/sim/world.cpp:149-179 | each player consumes its oldest input and its entity reports it; nobody else changes |
| `Worlds.InputsInOrder` | src/sim/world.cpp:149-179 | k ticks take a client's entity where its first k queued inputs take it, one after the other; the rest stay queued |
| `Worlds.OthersStay` | src/sim/world.cpp:149-179 | meanwhile no entity without a player is touched |
| `InputLedger.QueueKeeps` | src/sim/world.cpp:131-147 | a queue stays strictly increasing and above what was applied, exactly if the input is not a zero before anything else |
| `InputLedger.TicksDrain` | src/sim/world.cpp:157-160 | k ticks consume exactly the first k queued inputs, in order, and leave the rest |
| `InputLedger.ZeroRepeats` | src/sim/world.cpp:131-147 | a zero before anything else is consumed as often as it comes |
| `ShardServers.ShardServer.RemoveConnection` | src/app/world_server.cpp:320-350 | the player leaves every table and the world; a ghost stays unless it was redirected; it is `Leave` in the cluster model |
| `ShardServers.ReturnsWhereItWas` | src/app/world_server.cpp:266-336 | a player that drops out and comes back with its session's token resumes exactly if it is in time, and then has its position, velocity, last input and region |
| `ShardServers.ReplacedWhereItWas` | src/app/world_server.cpp:238-336 | the same if its old session is still there when it comes back |
| `ShardServers.ResumesExactly` | src/app/world_server.cpp:266-285 | without a ticket a player resumes exactly from its own unexpired ghost of the same session, and else starts at rest at the spawn point |
| `ShardServers.ArrivesAsTicketSays` | src/app/world_server.cpp:259-262 | with a ticket it stands where the ticket says |
| `ShardServers.ShardServer.Connect` | src/app/world_server.cpp:232-293 | a fresh client for the player, its previous session replaced, started from ticket, ghost or spawn point; all tables agree, and it is `Leave` and then `Settled` in the cluster model |
| `ShardServers.ShardServer.Redeem` | src/app/world_server.cpp:186-197 | the ticket comes from the cache, or from the store and is then remembered for the player it names, and for no one else |
| `ShardServers.ShardServer.ConnectTicket` | src/app/world_server.cpp:186-197 | a player is let in exactly if the ticket is found and is its own, and then the shard is as the cluster model's `TakenIn` after `Leave` has it |
| `ShardServers.ShardServer.Payload` | src/app/world_server.cpp:352-370 | queues the inputs and reports the highest, unless the player is redirected; the tables agree exactly if no zero comes first, and it is `Heard` in the cluster model |
| `ShardServers.ShardServer.Redirect` | src/app/world_server.cpp:471-473 | marks the player as handed off; it is `SentOff` in the cluster model |
| `ShardServers.ShardServer.CheckMigration` | src/app/world_server.cpp:429-473 | a player that left its region crosses into another of the shard's own, or is offered to another shard with a ticket of its position, velocity and highest input received, and redirected if that works |
| `ShardServers.ShardServer.ExpireRedirects` | src/app/world_server.cpp:429-492 | drops exactly the redirected players whose deadline has passed; each of them goes to `Leave` in the cluster model and every other player stays as it was |
| `ShardServers.ShardServer.ExpireRedeemed` | src/app/world_server.cpp:515-518 | forgets exactly the tickets issued more than 30 s ago, for every player alike |
| `ShardServers.ShardServer.ExpireGhosts` | src/app/world_server.cpp:523-527 | forgets exactly the ghosts whose time has passed |
| `ShardServers.ShardServer.ApplyInputs` | src/sim/world.cpp:149-179 | applying a tick's inputs keeps all tables in agreement, and is `Ticked` in the cluster model |
| `ShardTables.OnePlayerPerId` | src/app/world_server.cpp:232-350 | two players never share an id or an entity |
| `ShardTables.LeaveReflects` | src/app/world_server.cpp:320-350 | the tables after a player left hold what the cluster model holds after `Leave`, and the same of everyone else |
| `ShardTables.EnterReflects` | src/app/world_server.cpp:254-293 | the same for an arrival with a ticket, a ghost or neither |
| `ShardTables.TicketArrives` | src/app/world_server.cpp:186-293 | remembering a ticket, ending the previous session and starting from the ticket are together the cluster model's `TakenIn` |
| `ShardTables.QueueAllExact` | src/app/world_server.cpp:362-368 | a packet's inputs keep the queue in order exactly if no zero comes first |
| `ShardTables.QueueAllNewest` | src/sim/world.cpp:131-147 | the queue after a packet holds the newest 32 of what was there and what is fresh: only the oldest inputs of a full queue are lost |
| `ShardTables.LeavesAlone` | src/app/world_server.cpp:320-350 | whoever leaves is gone from every table, and no one else is |
| `ShardTables.GhostKeepsApplied` | src/app/world_server.cpp:326-339 | a ghost goes on from the last input applied |
| `ShardTables.ReceiveIsQueueAll` | src/app/world_server.cpp:362-368 | what a copy receives is what its slot queues, and it reports the highest |
| `InputLedger.Passes` | src/app/world_server.cpp:259-293 | the right to a chain passes to a holder that starts no earlier, and nothing is consumed twice |
| `InputLedger.HandOffKeeps` | src/app/world_server.cpp:453-473 | a handoff leaves the source only inputs that the destination will not take |
| `InputLedger.DeliverKeeps` | src/app/world_server.cpp:352-370 | new inputs are past everything other copies still have to drain |
| `InputLedger.TickKeeps` | src/sim/world.cpp:149-179 | applying an input consumes it for the first time |
| `Clusters.StepKeeps` | src/app/world_server.cpp:154-302 | every step of matchmaker, client and shards keeps presence naming the live copy |
| `Clusters.StepSound` | src/app/world_server.cpp:154-370 | every step keeps the input ledger sound |
| `Clusters.AtMostOneShard` | src/cluster/migration.cpp:88-133 | in every reachable state at most one shard holds a non-redirecting copy, and presence names it |
| `Clusters.InputsOnce` | src/sim/world.cpp:107-179 | no input is consumed twice along a chain; nothing queued has been consumed, and no two copies wait for the same input |
| `Clusters.ReleaseExact` | src/cluster/matchmaker.cpp:204-207 | after a release no run has two live copies, if and only if no shard held the player |
| `Clusters.ReleaseSplits` | src/cluster/matchmaker.cpp:204-207 | from every state in which a shard holds the player some run does |
| `Clusters.HandoffExact` | src/cluster/migration.cpp:88-119 | after a handoff no run has two live copies, and the invariant holds, if and only if the token was free and the redirect event can be encoded |
| `Clusters.HandoffSplits` | src/cluster/migration.cpp:100-108 | otherwise, from every state, some run does |
| `Clusters.HandoffArrives` | src/cluster/migration.cpp:88-133 | otherwise the run that uses the ticket ends with the player live at the destination, which goes on after exactly the inputs that the source received |
| `Clusters.HandoffKeepsSession` | src/cluster/matchmaker.cpp:129-142 | a player that asks for its session instead is sent to the destination under its old token |
| `Reconnects.PresenceIsSession` | src/app/world_server.cpp:289-297 | in every reachable state presence names the shard and also the session of the live copy |
| `Reconnects.ReconnectResumes` | src/cluster/matchmaker.cpp:129-142 | a player that lost its connection, noticed or not, asks again and is in the same session on the same shard, on its chain from the last input applied, or on a new one if its ghost had expired |
| `Reconnects.Reassigned` | src/cluster/matchmaker.cpp:129-201 | a player whose shard has died is given a session on a shard that is up, and gets in |
| `Reconnects.LostClaim` | src/cluster/matchmaker.cpp:172-193 | a claim that comes too late changes nothing and leads to the winner's session |
| `Clusters.TokenTakenReachable` | src/cluster/migration.cpp:100-108 | such a state is reachable |
| `Clusters.TicketGuardExact` | src/app/world_server.cpp:186-197 | a ticket that the shard does not remember is safe; presenting one that it remembers can consume an input twice |
| `Clusters.ReuseReachable` | src/app/world_server.cpp:188-197 | a state in which a redeemed ticket can be used again is reachable |
| `Clusters.ReuseRepeats` | src/app/world_server.cpp:188-197 | using it again consumes the same input again |

## Left out

- UDP, HTTP, WebSocket, the RESP client, logging, metrics and clocks are I/O.
- Round-trip time, jitter, loss and rate statistics of the endpoint.
- Float rounding, the quantizers, square roots and the numeric outcome of movement
  and collisions: positions and priorities are reals, movement is a parameter of
  `Worlds.World.ApplyInputs`, and a conversion to integer does not overflow.
- The gathering of entities around the viewer inside `encode`: the sorted wire
  states and their closeness are an input (`Scene`); the grid query is proved apart.
- The standard library's partial sort is replaced by a selection loop that yields
  some best set; the fairness claims hold for every best set.
- Reconciliation, replay, interpolation and rendering on the client.
- Liveness of packet writing: a packet that overflows is not sent.
- Rejection of truncated tickets: a 32-bit checksum can collide there.
- Roster sets, heartbeats, the choice of a shard by load, and the assignment of
  regions to shards; any shard may be chosen and any shard may be a target.
- Draining shards: no process in the repository sets the flag.
- Capacity checks and the expiry of pending admissions: a refused connect changes
  nothing.
- The branch of redirect expiry for a player without a connection
  (src/app/world_server.cpp:485-490) cannot be taken when the tables agree.
- The entity counter, the client counter and 32-bit bit positions do not wrap.
- ShardServers.ShardServer.Connect: does not model the presence write, which is part of
  `Clusters.ConnectSession` and `Clusters.ConnectTicket`, nor the configuration event
  sent to the client.
- ShardServers.ShardServer.ApplyInputs: models the input phase of a tick; drifters, the
  grid rebuild and collisions move entities and touch no table.
- SnapshotEncoder.ReplicationState.Encode: takes fewer than 2^32 relevant entities, and
  takes them gathered and sorted, where the source first queries the grid for them.
- SnapshotDecoder.ClientView.ApplySnapshot: does not keep the interpolation frames and
  the local entity, which only rendering and prediction read.
