# Cluster IPC core, modelled in Dafny

The Echore Cluster plugin links several game servers ("clusters") over UDP.
Each server runs two objects. The controller, `ClusterIPC`, lives on the
main thread. The worker, `ClusterThread`, owns the socket. This project
models the path a packet takes between those servers:

- **Wire format.** A packet goes on the wire as a frame: an unsigned varint
  holding the length of the packet's type id, the id itself, then the
  payload. All frames queued for one peer are sent together, concatenated
  into one datagram.
- **Control packets.** There are four: SessionStart, SessionHandshake,
  SessionClose and KeepAlive.
- **Packet pool.** The registry that maps a type id to a packet class.
- **Configuration.** The directory of configured nodes.
- **Worker.** Its tables:
  - connections, keyed by sender address;
  - recorded addresses per node identifier;
  - the per-peer send queue;
  - the receive table.

  Its operations:
  - the hello round;
  - the send, broadcast and flush operations;
  - one pass of its receive loop, including the branches for unconnected
    and connected senders.
- **Controller.** The notifier closure that drains the worker's receive
  table, and the periodic `tick`. The tick runs the membership diff, which
  fires events, and the keep-alive sweep, which disconnects silent nodes.

The modules follow the program:

| module | source |
|---|---|
| `BinaryStream` | the stream primitives the packets use |
| `Packets` | the packet classes and their encoding |
| `PacketPool` | `ClusterPacketPool` |
| `Configuration` | `ClusterServerInfo`, `ClusterConfiguration` |
| `Framing` | the frame and datagram readers |
| `WorkerState`, `Worker` | `ClusterThread` |
| `ControllerState`, `Ipc` | `ClusterIPC` |

`OrderedMaps` models PHP's insertion-ordered arrays. `Options` and
`SeqFacts` are small helpers.

`ClusterThread`, `ClusterIPC`, `ClusterPacketPool` and the stream are
classes whose methods update their fields in place. Each method is proved
to leave its state exactly as a function over values says. The properties
the source promises are proved about those functions as lemmas. Examples:

- round trips of every packet, frame and multi-frame datagram;
- what each receive branch does to the tables;
- what a drain delivers, abandons and skips;
- which nodes the diff reports and which nodes the sweep drops.

The following quirks of the source are modelled as written:

- Newly seen connections fire `ClusterDisconnectedEvent`, just like
  vanished ones.
- `lastCheckConnections` is never assigned after construction, so the diff
  runs on every tick once more than five seconds have passed since time 0.
- KeepAlive packets are handled by the controller and are still passed on
  to the receive event.
- The sweep disconnects by a node's configured ipc address, not by the key
  its connection is stored under.
- `disconnectClient` keeps the node's recorded address.
- `lastKeepAliveResponse` is never initialised; it starts as an empty map.

The receive table does not work as written. The record type
`PacketReceivingObject` types its `packet` field and constructor parameter
as a decoded `ClusterPacket` (`src/ipc/PacketReceivingObject.php:19`, `:27`).
The worker passes the re-encoded frame bytes, a string, at
`src/ipc/ClusterThread.php:164`. PHP rejects a string for a class-typed
parameter with a `TypeError`. Nothing catches it there, so the first packet
stored from a connected node ends the worker. The controller reads the field
back as bytes (`src/ipc/ClusterIPC.php:84`). The model follows that evident
intent: the field holds the frame bytes, and storing succeeds.

## Model

| member | source | states |
|---|---|---|
| BinaryStream.VarIntRoundTrip | src/ipc/packet/ClusterPacketSessionStart.php:18-23 | reading a varint back from any offset inside a larger buffer yields the value written and stops right after its encoding |
| BinaryStream.ReadUnsignedVarInt | src/ipc/ClusterThread.php:265 | a varint that reads successfully ends strictly after the offset and inside the buffer (also used at ClusterPacketSessionStart.php:23) |
| BinaryStream.ReadVarIntFailsIffUnterminated | src/ipc/ClusterThread.php:265 | reading a varint fails exactly when no byte with the high bit clear follows the offset |
| BinaryStream.ReadBytes | src/ipc/packet/ClusterPacketSessionStart.php:23 | a read of n bytes succeeds iff n bytes remain, and then returns n bytes and moves the cursor by n |
| BinaryStream.ReadBytesRoundTrip | src/ipc/packet/ClusterPacketSessionStart.php:19-23 | bytes put into a stream are read back unchanged from the offset they were put at |
| BinaryStream.ReadBool | src/ipc/packet/ClusterPacketKeepAlive.php:22 | reading a bool succeeds iff a byte remains, consumes exactly that byte and reads any non-zero byte as true |
| BinaryStream.BoolRoundTrip | src/ipc/packet/ClusterPacketKeepAlive.php:18-22 | a bool put into a stream reads back as the same bool, for true and for false |
| BinaryStream.Stream.constructor | src/ipc/ClusterThread.php:260 | a stream over a buffer starts with its cursor at offset 0 |
| BinaryStream.Stream.PutUnsignedVarInt | src/ipc/packet/ClusterPacketSessionStart.php:18 | appends the varint encoding and leaves earlier bytes and the cursor alone |
| BinaryStream.Stream.Put | src/ipc/packet/ClusterPacketSessionStart.php:19 | appends exactly the given bytes and leaves earlier bytes and the cursor alone |
| BinaryStream.Stream.PutBool | src/ipc/packet/ClusterPacketKeepAlive.php:18 | appends exactly one 0/1 byte and leaves earlier bytes and the cursor alone |
| BinaryStream.Stream.GetUnsignedVarInt | src/ipc/packet/ClusterPacketSessionStart.php:23 | returns the varint at the cursor and moves past it; on an unterminated varint it fails having consumed the rest of the buffer |
| BinaryStream.Stream.Get | src/ipc/packet/ClusterPacketSessionStart.php:23 | returns the next n bytes and moves past them, or fails without moving when fewer remain |
| BinaryStream.Stream.GetBool | src/ipc/packet/ClusterPacketKeepAlive.php:22 | returns the next byte as a bool and moves past it, or fails at the end of the buffer |
| OrderedMaps.OrderedMap.Get | src/ipc/ClusterThread.php:336-340 | the value under a key, or nothing exactly when the key is absent |
| OrderedMaps.OrderedMap.Put | src/ipc/ClusterThread.php:312 | assigning sets the key's value; an existing key keeps its place, a new key goes last |
| OrderedMaps.OrderedMap.Remove | src/ipc/ClusterThread.php:296 | unset removes exactly that key, the other keys keeping their order |
| OrderedMaps.OrderedMap.DiffKey | src/ipc/ClusterIPC.php:168-169 | array_diff_key keeps exactly the entries whose keys the other map lacks, with their values, in this map's order |
| OrderedMaps.OrderedMap.Values | src/ipc/ClusterThread.php:351 | iteration visits every value once, in key order |
| OrderedMaps.Empty | src/ipc/ClusterThread.php:241 | a new array has no keys |
| Packets.IdsSpellTheirText | src/ipc/packet/ClusterPacketSessionStart.php:13-15 | the type ids are the texts "cluster:session_start", "cluster:session_close" and "cluster:keep_alive" (ClusterPacketSessionClose.php:11-13, ClusterPacketKeepAlive.php:13-15), plus the assumed handshake id |
| Packets.IdInjective | src/ipc/ClusterIPC.php:55-59 | two packet classes have the same type id only if they are the same class, so all four register without a clash |
| Packets.DecodePayload | src/ipc/packet/ClusterPacketKeepAlive.php:21-23 | decoding yields a packet of the class asked for. A KeepAlive decodes iff a byte remains and consumes exactly one byte. A SessionClose always decodes and consumes nothing (ClusterPacketSessionClose.php:18-19) |
| Packets.ReadIdentifier | src/ipc/packet/ClusterPacketSessionStart.php:22-24 | a length-prefixed identifier that reads successfully lies strictly after the offset and inside the buffer |
| Packets.IdentifierRoundTrip | src/ipc/packet/ClusterPacketSessionStart.php:17-24 | decoding what encode wrote restores the identifier and leaves the cursor just past the encoded bytes |
| Packets.PayloadRoundTrip | src/ipc/packet/ClusterPacketKeepAlive.php:17-23 | for every packet, decoding what encode wrote restores the packet and leaves the cursor just past it, wherever it sits in the stream |
| Packets.Encode | src/ipc/packet/ClusterPacketSessionStart.php:17-20 | encode only appends the packet's payload: the identifier's length and bytes, one bool byte, or nothing for SessionClose (ClusterPacketSessionClose.php:15-16) |
| Packets.Decode | src/ipc/packet/ClusterPacketSessionStart.php:22-24 | decode on a fresh instance yields the packet and cursor position the payload reader gives, and fails exactly where that reader fails |
| Packets.ReadLengthPrefixed | src/ipc/packet/ClusterPacketSessionStart.php:23 | reads a varint n and then n bytes, as the identifier reader says |
| Packets.EncodeFrame | src/ipc/ClusterThread.php:160-163 | a packet framed into a fresh stream is its length-prefixed type id followed by its payload |
| Packets.WriteFrame | src/ipc/ClusterThread.php:210-214 | the frame header for an id, then the payload, written to a fresh stream |
| PacketPool.Lookup | src/ipc/packet/ClusterPacketPool.php:29-39 | get yields a class exactly when the id is registered, and then the class registered under it |
| PacketPool.ControlRegistryHoldsAllKinds | src/ipc/ClusterIPC.php:55-59 | after the constructor's four registrations, each control packet class is found under its own id and every entry is keyed by its class's id |
| PacketPool.RegisteredIsFound | src/ipc/packet/ClusterPacketPool.php:25-37 | after a successful register, get of that id finds the class, and get of every other id is unchanged |
| PacketPool.ClusterPacketPool.constructor | src/ipc/packet/ClusterPacketPool.php:15-17 | the pool starts empty |
| PacketPool.ClusterPacketPool.Register | src/ipc/packet/ClusterPacketPool.php:19-27 | registering a taken id fails and leaves the map unchanged; otherwise it adds exactly that id's entry |
| PacketPool.ClusterPacketPool.Get | src/ipc/packet/ClusterPacketPool.php:29-39 | get returns null for an unregistered id and otherwise an instance of the class under it, and never changes the map |
| Configuration.ClusterConfiguration.GetMap | src/ClusterConfiguration.php:24-26 | getMap exposes exactly the configured entries, one per key, in configuration order |
| Configuration.ClusterConfiguration.Get | src/ClusterConfiguration.php:28-30 | get returns the entry stored under the key, or null when there is none |
| Configuration.LookupIgnoresRecordIdentifier | src/ClusterConfiguration.php:17-30 | lookup is by key alone: whatever record is stored under a key is returned, whatever its own identifier says |
| Framing.ReadFrame | src/ipc/ClusterThread.php:265-277 | a frame that reads successfully ends strictly after the offset and inside the buffer |
| Framing.FrameRoundTrip | src/ipc/ClusterIPC.php:84-94 | a frame whose class is registered under its id reads back as the packet it came from, wherever it sits in the buffer |
| Framing.DatagramAt | src/ipc/ClusterThread.php:264-280 | the frames of a packet sequence are decoded one by one, in buffer order, ahead of whatever the rest of the buffer yields |
| Framing.DatagramRoundTrip | src/ipc/ClusterThread.php:229-233 | concatenated frames decode to exactly the packets they came from, in order |
| Framing.UnknownIdStops | src/ipc/ClusterThread.php:266-271 | a frame naming an unregistered id ends the read with the unknown-id result |
| Framing.UnknownFrameDropsDatagram | src/ipc/ClusterThread.php:262-271 | an unregistered id makes the whole datagram unusable, including the packets decoded before it |
| Framing.BadPayloadKeepsEarlierFrames | src/ipc/ClusterThread.php:273-290 | a payload that fails to decode ends the read successfully, and the packets decoded before it are kept |
| Framing.ReadFrames | src/ipc/ClusterThread.php:260-290 | an unknown-id result names an id that is not registered; a successful read yields at most one packet per remaining byte |
| Framing.ReadFrameFrom | src/ipc/ClusterThread.php:265-274 | reading the id, fetching its class from the pool and decoding from the stream gives the same result as the pure frame reader, and leaves the cursor after the frame |
| WorkerState.Initial | src/ipc/ClusterThread.php:49-55 | the worker starts with empty tables, packet id 0 and both flags false |
| WorkerState.Queued | src/ipc/ClusterThread.php:208-215 | sendPacketTo appends exactly one frame to the destination's queue and leaves every other destination alone; a new destination is queued last |
| WorkerState.EnqueueAllPending | src/ipc/ClusterThread.php:351-353 | queueing a frame for several destinations adds it once per occurrence of each destination, after what was already waiting there |
| WorkerState.Datagrams | src/ipc/ClusterThread.php:220-233 | one datagram per destination in queue order, holding its frames concatenated in order |
| WorkerState.FirstRefused | src/ipc/ClusterThread.php:235-238 | the position of the first destination whose send fails: every earlier destination succeeds |
| WorkerState.Flush | src/ipc/ClusterThread.php:218-243 | if every send succeeds, every datagram goes out and the queue ends empty. Otherwise only a proper prefix of the datagrams goes out and the error escapes |
| WorkerState.FramesConcat | src/ipc/ClusterThread.php:229-233 | concatenating the queued frames of a packet sequence gives that sequence's datagram |
| WorkerState.SentPacketsArriveInOrder | src/ipc/ClusterThread.php:207-243 | packets sent to one node before a flush leave as one datagram, which decodes to exactly those packets in send order |
| WorkerState.EnqueueFramesPending | src/ipc/ClusterThread.php:209-214 | frames queued for one destination wait there in the order they were queued, and nowhere else |
| WorkerState.SendTo | src/ipc/ClusterThread.php:207-216 | sendPacketTo adds one frame of the packet after what already waits for the destination, and changes nothing else |
| WorkerState.SendPacket | src/ipc/ClusterThread.php:318-334 | sendPacket queues to the address recorded for the node, and drops the packet when none is recorded |
| WorkerState.Broadcast | src/ipc/ClusterThread.php:349-355 | broadcastPacket changes only the send queue. Each destination gains one frame of the packet per connection whose configured ipc address it is, after what was waiting |
| WorkerState.BroadcastTargetAt | src/ipc/ClusterThread.php:351-353 | the broadcast's i-th destination is the configured ipc address of the i-th connection |
| WorkerState.Kill | src/ipc/ClusterThread.php:342-347 | kill first queues one SessionClose frame to the configured ipc address of every connection, after what was waiting for each destination, then sets both flags; nothing else changes |
| WorkerState.Hello | src/ipc/ClusterThread.php:189-205 | helloToClusters changes only the send queue. Each destination gains one SessionStart frame with this node's identifier per hello target at it, after what was waiting |
| WorkerState.HelloTargetsExactly | src/ipc/ClusterThread.php:189-205 | the hello goes to a node's ipc address exactly when some configured entry for it is neither this node nor one with a recorded address |
| WorkerState.GreetedQueueEnqueues | src/ipc/ClusterThread.php:191-202 | considering the configured entries one at a time queues the greeting to exactly the hello targets, in order |
| WorkerState.Disconnect | src/ipc/ClusterThread.php:293-298 | disconnectClient removes exactly that one connection key and keeps the recorded addresses and every other table |
| WorkerState.Register | src/ipc/ClusterThread.php:300-316 | an unconfigured id yields null and changes nothing. Otherwise the node's address is recorded under its entry's own identifier and the connection stored under the sender's address; the queues are untouched |
| WorkerState.HandleHello | src/ipc/ClusterThread.php:119-141 | one packet from an unconnected sender stops the batch iff its identifier is unconfigured. SessionClose and KeepAlive change nothing. Otherwise connections and recorded addresses only grow, and the receive table, packet counter, flags and wakeups are unchanged |
| WorkerState.HandleUnconnected | src/ipc/ClusterThread.php:115-145 | a batch from an unconnected sender only adds connections and recorded addresses. It never stores a packet, wakes the controller or touches the flags |
| WorkerState.HelloConnectsAndAnswers | src/ipc/ClusterThread.php:120-130 | a SessionStart from a configured node connects it under the sender's address, records that address, and queues back a handshake with this node's identifier, for the sender only |
| WorkerState.HandshakeConnectsSilently | src/ipc/ClusterThread.php:131-137 | a SessionHandshake from a configured node connects and records it without queueing anything |
| WorkerState.UnconfiguredStopsBatch | src/ipc/ClusterThread.php:121-124 | an unconfigured identifier ends the batch: the packet and everything after it change nothing |
| WorkerState.OtherKindsCreateNothing | src/ipc/ClusterThread.php:138-141 | SessionClose and KeepAlive packets from an unconnected address change nothing |
| WorkerState.IsOnline | src/ipc/ClusterThread.php:65-75 | a node is online iff it is configured and a connection exists under its configured ipc address |
| WorkerState.HelloFromConfiguredAddressIsOnline | src/ipc/ClusterThread.php:65-75 | a configured node whose hello comes from its configured ipc address is online afterwards |
| WorkerState.HelloFromElsewhereStaysOffline | src/ipc/ClusterThread.php:73 | isClusterOnline looks under the configured ipc address, so a node that connects from any other address stays offline |
| WorkerState.HandleConnected | src/ipc/ClusterThread.php:147-173 | a batch from an address with no connection changes nothing. From a connected address, one entry is stored per packet and the controller is woken once. Connections only shrink, and the recorded addresses and queues are unchanged |
| WorkerState.Dispatch | src/ipc/ClusterThread.php:114-173 | an unconnected sender's batch stores nothing and wakes nobody; a connected sender's batch leaves the recorded addresses and send queue alone |
| WorkerState.ConnectedBatchStored | src/ipc/ClusterThread.php:155-165 | every packet of a batch from a connected node is stored re-framed after the existing entries, which keep their ids; the i-th packet gets id nextPacketId + i |
| WorkerState.ConnectedBatchCloses | src/ipc/ClusterThread.php:147-173 | a batch from a connected node wakes the controller once. Its connection is removed, after the whole batch is stored, iff the batch holds a SessionClose |
| WorkerState.Step | src/ipc/ClusterThread.php:97-174 | one loop pass sends what the flush sends. It faults iff a send fails or, if not killed, the receive or decode throws, and exits iff the flush succeeds with the kill flag set |
| WorkerState.UnknownDatagramIgnored | src/ipc/ClusterThread.php:106-111 | a datagram with an unregistered id is dropped whole: after the flush nothing changes, whoever sent it |
| WorkerState.UnknownBufferIgnored | src/ipc/ClusterThread.php:106-111 | a buffer whose read yields an unknown id leaves everything but the flushed queue unchanged |
| Worker.ClusterThread.constructor | src/ipc/ClusterThread.php:41-56 | the tables start as the initial state, over the given info, configuration and pool |
| Worker.ClusterThread.IsClusterOnline | src/ipc/ClusterThread.php:65-75 | false for an unconfigured id, otherwise whether a connection exists under the node's configured ipc address |
| Worker.ClusterThread.FetchPackets | src/ipc/ClusterThread.php:80-84 | returns every stored entry in id order and leaves the receive table empty, all else unchanged |
| Worker.ClusterThread.SendPacketTo | src/ipc/ClusterThread.php:207-216 | the fields end as sendPacketTo's state function says |
| Worker.ClusterThread.DisconnectClient | src/ipc/ClusterThread.php:293-298 | the fields end as disconnectClient's state function says |
| Worker.ClusterThread.RegisterClientInfo | src/ipc/ClusterThread.php:300-316 | the result and fields are as registerClientInfo's state function says |
| Worker.ClusterThread.SendPacket | src/ipc/ClusterThread.php:318-334 | the fields end as sendPacket's state function says |
| Worker.ClusterThread.GetConnectedClusterInfo | src/ipc/ClusterThread.php:336-340 | the connection's info exactly when the address is connected |
| Worker.ClusterThread.HelloToClusters | src/ipc/ClusterThread.php:189-205 | a SessionStart with this node's identifier is queued to each hello target, in configuration order |
| Worker.ClusterThread.QueueToGreeted | src/ipc/ClusterThread.php:190-204 | the loop queues the frame to exactly the hello targets and changes nothing but the send queue |
| Worker.ClusterThread.BroadcastPacket | src/ipc/ClusterThread.php:349-355 | the fields end as the broadcast state function says |
| Worker.ClusterThread.QueueToConnected | src/ipc/ClusterThread.php:350-354 | the loop queues the frame to each connection's ipc address, in connection order, and changes nothing else |
| Worker.ClusterThread.FlushQueuedPackets | src/ipc/ClusterThread.php:218-243 | the datagrams sent, the error and the remaining queue are as the flush function says; nothing else changes |
| Worker.ShiftFrames | src/ipc/ClusterThread.php:229-233 | shifting every frame out of a queue into a stream gives the frames concatenated in order |
| Worker.ClusterThread.ReadPackets | src/ipc/ClusterThread.php:260-290 | the decode loop gives what the pure datagram reader gives |
| Worker.ClusterThread.HandleUnconnected | src/ipc/ClusterThread.php:115-145 | the fields end as the unconnected branch's state function says |
| Worker.ClusterThread.HandleHello | src/ipc/ClusterThread.php:119-141 | stops exactly on an unconfigured identifier, and then changes nothing; otherwise it acts as the per-packet state function says |
| Worker.ClusterThread.HandleConnected | src/ipc/ClusterThread.php:147-173 | the fields end as the connected branch's state function says |
| Worker.ClusterThread.Step | src/ipc/ClusterThread.php:97-174 | the outcome, the datagrams sent and the fields are as the one-pass function says |
| Worker.ClusterThread.Kill | src/ipc/ClusterThread.php:342-347 | the fields end as kill's state function says |
| ControllerState.InitialController | src/ipc/ClusterIPC.php:61-65 | the controller starts with no keep-alive entries and no events |
| ControllerState.HandleEntry | src/ipc/ClusterIPC.php:99-111 | a decoded packet fires exactly one receive event with the sender's info; no controller field but the keep-alive map changes |
| ControllerState.HandleStored | src/ipc/ClusterIPC.php:84-97 | an entry stops the drain iff its id is unknown or its header is cut short; a payload that fails to decode changes nothing. Otherwise at most one event is appended, and only the events, the keep-alive map and the worker's send queue change |
| ControllerState.DrainEntries | src/ipc/ClusterIPC.php:83-112 | handling fetched entries appends at most one event per entry to the log. Of the controller it changes only the events and the keep-alive map, and of the worker only the send queue |
| ControllerState.Drain | src/ipc/ClusterIPC.php:82-113 | a drain empties the receive table and leaves the connections and recorded addresses alone. It appends at most one event per stored entry, and of the controller changes only the events and the keep-alive map |
| ControllerState.DrainDeliversStoredPackets | src/ipc/ClusterIPC.php:83-112 | entries holding registered frames drain to completion, firing one receive event per entry, in order, with the stored sender and the packet |
| ControllerState.ConnectedBatchReachesHost | src/ipc/ClusterIPC.php:82-113 | a connected node's batch, stored by the worker and drained with the control registry, finishes and fires a receive event for each packet, in order, carrying the node's info |
| ControllerState.UnknownEntryAbandonsRest | src/ipc/ClusterIPC.php:88-92 | an entry with an unknown id ends the drain: it and the entries after it change nothing |
| ControllerState.BadEntrySkipped | src/ipc/ClusterIPC.php:93-97 | an entry that fails to decode is skipped, as if it were not there |
| ControllerState.KeepAliveResponseRecorded | src/ipc/ClusterIPC.php:99-101 | a KeepAlive response records now as the sender's last response and still fires the receive event |
| ControllerState.KeepAliveRequestAnswered | src/ipc/ClusterIPC.php:102-106 | a KeepAlive request queues a KeepAlive response to the sender's recorded address and still fires the receive event |
| ControllerState.ForgetExactly | src/ipc/ClusterIPC.php:179 | the vanished loop removes exactly the keep-alive entries of the vanished nodes |
| ControllerState.RememberExactly | src/ipc/ClusterIPC.php:192 | the new-node loop sets exactly the new nodes' keep-alive entries to now |
| ControllerState.MembershipDiff | src/ipc/ClusterIPC.php:165-199 | after the diff both connection copies equal the snapshot |
| ControllerState.MissingHolds | src/ipc/ClusterIPC.php:168-169 | each entry under a key the other map lacks is among the diff's entries |
| ControllerState.DiffEvents | src/ipc/ClusterIPC.php:171-195 | the diff fires the events of the vanished entries, then those of the new entries |
| ControllerState.DiffFiresForVanished | src/ipc/ClusterIPC.php:171-177 | a connection that vanished fires a ClusterDisconnectedEvent carrying its info |
| ControllerState.DiffFiresForNew | src/ipc/ClusterIPC.php:184-190 | a connection that is new fires a ClusterDisconnectedEvent too, carrying its info |
| ControllerState.DiffResetsKeepAlive | src/ipc/ClusterIPC.php:171-198 | after the diff a new node's keep-alive time is now; a vanished node that is not also new has none; every other entry is unchanged |
| ControllerState.Sweep | src/ipc/ClusterIPC.php:204-217 | the sweep only removes keep-alive entries and connection keys; every other worker table is unchanged |
| ControllerState.SweepOne | src/ipc/ClusterIPC.php:209-215 | one visit only removes a keep-alive entry and a connection key; every other worker table is unchanged |
| ControllerState.SweepOnlyRemoves | src/ipc/ClusterIPC.php:205-216 | the sweep only removes connections and keep-alive entries; every other table, the recorded addresses included, is unchanged |
| ControllerState.SweepKeepsLiveConnections | src/ipc/ClusterIPC.php:209-211 | when every visited node answered within 15 + 5 seconds, the sweep changes nothing |
| ControllerState.SweepDropsSilentNode | src/ipc/ClusterIPC.php:209-215 | a visited node with no response for more than 15 + 5 seconds (0 if never) loses its connection at its ipc address and its keep-alive entry |
| ControllerState.SweepMissesConnectionKeyedElsewhere | src/ipc/ClusterIPC.php:213 | the sweep disconnects by configured ipc address, so a silent node connected under any other address stays connected, though its keep-alive entry is cleared |
| ControllerState.KeepAliveSweep | src/ipc/ClusterIPC.php:201-222 | the sweep stamps lastKeepAlive with now and changes no other controller field but the keep-alive map, which only loses keys. The worker only loses connections. Then one KeepAlive request is queued to the ipc address of every connection left, after what was waiting |
| ControllerState.TickSendsKeepAliveRequests | src/ipc/ClusterIPC.php:164-222 | a tick with the sweep due stamps lastKeepAlive with now. It sweeps the keep-alive map the diff left, when the diff ran, and otherwise the old one. It then queues one KeepAlive request to the ipc address of each connection the sweep left, after what was waiting |
| ControllerState.Tick | src/ipc/ClusterIPC.php:164-225 | lastKeepAlive becomes now iff more than 15 seconds have passed, and otherwise the worker is unchanged. When more than 5 seconds have passed since the last check, both connection copies become the worker's table, and otherwise they are kept. The recorded addresses and receive table are never touched, and connections only shrink |
| ControllerState.DiffRunsOnEveryTickAfterFive | src/ipc/ClusterIPC.php:164-199 | lastCheckConnections stays 0, so every tick after time 5 runs the diff and copies the worker's table |
| ControllerState.QuietTick | src/ipc/ClusterIPC.php:164-225 | with neither interval passed, a tick changes nothing |
| Ipc.ClusterIPC.constructor | src/ipc/ClusterIPC.php:55-123 | the pool holds exactly the four control classes, the fields are initialised, and the worker starts empty over the same pool |
| Ipc.ClusterIPC.Drain | src/ipc/ClusterIPC.php:82-113 | the drain ends with the result and state the drain function gives for the fields as they were |
| Ipc.ClusterIPC.DrainEntry | src/ipc/ClusterIPC.php:84-97 | one fetched entry is handled as the per-entry function says |
| Ipc.ClusterIPC.HandlePacket | src/ipc/ClusterIPC.php:99-111 | the keep-alive bookkeeping and the event are as the per-packet function says |
| Ipc.ClusterIPC.Tick | src/ipc/ClusterIPC.php:164-225 | the controller and the worker end as the tick function says |
| Ipc.ClusterIPC.CheckConnections | src/ipc/ClusterIPC.php:165-199 | the controller ends as the diff function says |
| Ipc.ClusterIPC.ReportVanished | src/ipc/ClusterIPC.php:171-182 | one event per vanished entry, in order, and exactly their keep-alive entries removed |
| Ipc.ClusterIPC.ReportArrived | src/ipc/ClusterIPC.php:184-195 | one event per new entry, in order, and exactly their keep-alive entries set to now |
| Ipc.ClusterIPC.SweepKeepAlive | src/ipc/ClusterIPC.php:204-217 | the keep-alive entries and the worker end as the sweep function says for a snapshot of the connections |
| Ipc.ClusterIPC.VisitConnection | src/ipc/ClusterIPC.php:209-215 | one sweep visit extends the swept prefix by one connection; the other controller fields are unchanged |
| Ipc.ClusterIPC.SendPacket | src/ipc/ClusterIPC.php:126-128 | delegates unchanged to the worker's sendPacket |
| Ipc.ClusterIPC.BroadcastPacket | src/ipc/ClusterIPC.php:227-229 | delegates unchanged to the worker's broadcastPacket |
| Ipc.ClusterIPC.IsClusterOnline | src/ipc/ClusterIPC.php:149-151 | answers as the worker's isClusterOnline |
| Ipc.ClusterIPC.Shutdown | src/ipc/ClusterIPC.php:231-236 | kills the worker with the force-kill option |
| Ipc.ClusterIPC.SetOptionForceKill | src/ipc/ClusterIPC.php:138-140 | sets the option and nothing else |

## Left out

- Sockets: creating, binding and configuring the socket (`src/ipc/ClusterIPC.php:67-80`) is not modelled. A send becomes an `Outgoing` record returned to the caller. The set of refused destinations is a parameter. What `socket_recvfrom` produced is the `Receive` parameter of a loop pass.
- Threads: start, `wait`/`notify`, `synchronized` and the sleeper notifier are not modelled. The atomic steps are whole calls: one pass of the `onRun` loop from the moment `wait` returns (WorkerState.Step), and each of kill, a tick, a drain and a send. Interleavings inside a pass are not modelled. A notifier wakeup is counted in the ghost field `wakeups`. The `notify` calls after a tick and a shutdown are not modelled.
- Teardown: the end of `onRun` (`socket_close`, the `unset` list, the forced process kill) is process control and is not modelled.
- Clock: `time()` is the parameter `now`. The source reads the clock several times within one tick; the model uses one value for the whole tick.
- The plugin entry point, file and JSON loading, and the event classes are host API. `src/Main.php` is not part of this model. Fired events are appended to a ghost log.
- Logger calls carry no state and are left out.
- The stream library: pocketmine's BinaryStream is not part of this model. Its varint, byte-run and bool primitives are defined here; nothing else of it is modelled.
- BinaryStream.UnsignedVarInt: the varint is unbounded; the library's limit of five bytes (32-bit values) is not modelled.
- Packets.Id: the handshake packet's class is not part of this model. Its id is assumed to be "cluster:session_handshake"; any id distinct from the other three behaves the same. Its payload is assumed to be a length-prefixed identifier like SessionStart's.
- Packets.Decode: decode fills a blank instance in the source. Here it returns a new packet value.
- Receive table: the ThreadSafeArray keyed by packet id is modelled as a sequence in id order. The entries always sit under the last consecutive ids below `nextPacketId`, because `fetchPackets` takes every entry at once.
- Worker.ClusterThread.HelloToClusters: the greeting frame is encoded once before the loop, where the source encodes it per destination. The bytes are the same every time.
- Worker.ClusterThread.BroadcastPacket: the frame is encoded once before the loop, for the same reason.
- "ip:port" keys are modelled as an `Endpoint(ip, port)` pair. Splitting the key with `explode` and casting the port in the flush is not modelled.
- WorkerState.Step: a pass always starts after `wait` returns, so a kill seen by the pass is seen at the check after the flush (`src/ipc/ClusterThread.php:102-104`), and the SessionClose frames kill queued go out first. The loop-head test `while (!$this->kill)` (`src/ipc/ClusterThread.php:97`) is not modelled: in the source, a kill that lands while the worker reads or dispatches ends the loop at the head without `wait` and without a flush, so those SessionClose frames are never sent.
- ControllerState.Sweep: the source iterates the live connection table while removing from it. The model visits a snapshot of the table's values taken at the start of the sweep.
- Ipc.ClusterIPC.Shutdown: removing the notifier, notifying the thread and unsetting it are not modelled; only the kill is.
- Exceptions: an exception that escapes the worker's loop is modelled as the `Faulted` result of a pass. One that escapes the drain closure is the `Escaped` end of a drain. A send failure is a flush that is not `ok`.
- PacketPool.ClusterPacketPool.Register: the source throws a `RuntimeException` when the id is already registered (`src/ipc/packet/ClusterPacketPool.php:22`). The model returns `false` and leaves the map unchanged.
- WorkerState.HandleConnected: as written, storing a packet throws a `TypeError` at `src/ipc/ClusterThread.php:164`, because the string it passes is not a `ClusterPacket` (`src/ipc/PacketReceivingObject.php:19`, `:27`). The model stores the frame bytes instead, as `src/ipc/ClusterIPC.php:84` reads them. The same holds for Worker.ClusterThread.HandleConnected.
- The getters and setters with no logic are not modelled: `setName`, `getPacketPool`, `getOnlineClusters`, `isOptionForceKill`, `getConnections`, `getThreadName`. Neither is `start`.
