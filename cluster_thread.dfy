/** ClusterThread: the worker that owns the UDP socket. Its tables are fields
    that its methods update in place; each method is proved to leave the
    tables as the matching function of module WorkerState says. The socket
    itself is not modelled: a send is an `Outgoing` record handed back to the
    caller, and what `socket_recvfrom` returned is a `Receive` parameter. */
module Worker {
  import opened Options
  import opened SeqFacts
  import opened BinaryStream
  import opened OrderedMaps
  import opened Packets
  import opened PacketPool
  import opened Configuration
  import opened Framing
  import opened WorkerState

  class ClusterThread {
    const info: ServerInfo
    const config: ClusterConfiguration
    const packetPool: ClusterPacketPool

    var connections: OrderedMap<Endpoint, ServerInfo>
    var clientInfos: map<Bytes, Endpoint>
    var sendQueue: Queue
    var receivedPackets: seq<Received>
    var nextPacketId: nat
    var kill: bool
    var forceKillEnabled: bool
    /** How often the notifier woke the controller. */
    ghost var wakeups: nat

    /** The tables as one value. */
    ghost function Snapshot(): State
      reads this
    {
      State(connections, clientInfos, sendQueue, receivedPackets, nextPacketId, kill, forceKillEnabled, wakeups)
    }

    ghost predicate Valid()
      reads this, packetPool
    {
      Snapshot().Valid() && config.Valid() && packetPool.Valid()
    }

    constructor (info: ServerInfo, config: ClusterConfiguration, packetPool: ClusterPacketPool)
      requires config.Valid() && packetPool.Valid()
      ensures Valid() && Snapshot() == Initial()
      ensures this.info == info && this.config == config && this.packetPool == packetPool
    {
      this.info := info;
      this.config := config;
      this.packetPool := packetPool;
      connections := Empty();
      clientInfos := map[];
      sendQueue := Empty();
      receivedPackets := [];
      nextPacketId := 0;
      kill := false;
      forceKillEnabled := false;
      wakeups := 0;
    }

    /** `isClusterOnline`: it only reads the tables. */
    method IsClusterOnline(clusterIdentifier: Bytes) returns (online: bool)
      requires Valid()
      ensures online == IsOnline(Snapshot(), config, clusterIdentifier)
    {
      var entry := config.Get(clusterIdentifier);
      if entry.None? {
        return false;
      }
      online := IpcEndpoint(entry.value) in connections.items;
    }

    /** `fetchPackets`: every stored entry, in id order, taken out at once. */
    method FetchPackets() returns (batch: seq<Received>)
      requires Valid()
      modifies this
      ensures Valid()
      ensures batch == old(receivedPackets)
      ensures Snapshot() == old(Snapshot()).(receivedPackets := [])
    {
      batch := receivedPackets;
      receivedPackets := [];
    }

    /** `sendPacketTo`: the packet framed and appended to the queue of `to`. */
    method SendPacketTo(to: Endpoint, packet: Packet)
      requires Valid()
      modifies this
      ensures Valid() && Snapshot() == SendTo(old(Snapshot()), to, packet)
    {
      var frame := EncodeFrame(packet);
      QueueFrame(to, frame);
    }

    /** The second half of `sendPacketTo`: `frame` appended to the queue of
        `to`, a queue created for a destination seen for the first time. */
    method QueueFrame(to: Endpoint, frame: Bytes)
      requires Valid()
      modifies this
      ensures Valid() && Snapshot() == old(Snapshot()).(sendQueue := Queued(old(sendQueue), to, frame))
    {
      var waiting := if to in sendQueue.items then sendQueue.items[to] else [];
      sendQueue := sendQueue.Put(to, waiting + [frame]);
    }

    /** `disconnectClient` */
    method DisconnectClient(ep: Endpoint)
      requires Valid()
      modifies this
      ensures Valid() && Snapshot() == Disconnect(old(Snapshot()), ep)
    {
      connections := connections.Remove(ep);
    }

    /** `registerClientInfo` */
    method RegisterClientInfo(clusterIdentifier: Bytes, from: Endpoint) returns (r: Option<ServerInfo>)
      requires Valid()
      modifies this
      ensures Valid() && (r, Snapshot()) == Register(old(Snapshot()), config, clusterIdentifier, from)
    {
      r := config.Get(clusterIdentifier);
      if r.None? {
        return;
      }
      clientInfos := clientInfos[r.value.identifier := from];
      connections := connections.Put(from, r.value);
    }

    /** `sendPacket`: to the address recorded for `targetCluster`, if any. */
    method SendPacket(targetCluster: Bytes, packet: Packet)
      requires Valid()
      modifies this
      ensures Valid() && Snapshot() == WorkerState.SendPacket(old(Snapshot()), targetCluster, packet)
    {
      if targetCluster !in clientInfos {
        return;
      }
      SendPacketTo(clientInfos[targetCluster], packet);
    }

    /** `getConnectedClusterInfo`: it only reads the tables. */
    method GetConnectedClusterInfo(from: Endpoint) returns (r: Option<ServerInfo>)
      requires Valid()
      ensures r.Some? <==> from in connections.items
      ensures r.Some? ==> r.value == connections.items[from]
    {
      r := connections.Get(from);
    }
    /** `helloToClusters`: a SessionStart to every other configured node
        whose address is not yet recorded, in configuration order. The source
        builds and encodes the same greeting for each node; it is encoded once
        here. */
    method HelloToClusters()
      requires Valid()
      modifies this
      ensures Valid() && Snapshot() == Hello(old(Snapshot()), info.identifier, config.GetMap())
    {
      var frame := EncodeFrame(SessionStart(info.identifier));
      QueueToGreeted(config.GetMap(), frame);
    }

    /** The loop of `helloToClusters`, for any encoded greeting `frame`. */
    method QueueToGreeted(infos: seq<ServerInfo>, frame: Bytes)
      requires Valid()
      modifies this
      ensures Valid()
      ensures sendQueue == EnqueueAll(old(sendQueue), HelloTargets(infos, info.identifier, old(clientInfos)), frame)
      ensures connections == old(connections) && clientInfos == old(clientInfos)
      ensures receivedPackets == old(receivedPackets) && nextPacketId == old(nextPacketId)
      ensures kill == old(kill) && forceKillEnabled == old(forceKillEnabled) && wakeups == old(wakeups)
    {
      ghost var known := clientInfos;
      ghost var q0 := sendQueue;
      var i := 0;
      while i < |infos|
        invariant 0 <= i <= |infos| && Valid()
        invariant connections == old(connections) && clientInfos == known
        invariant receivedPackets == old(receivedPackets) && nextPacketId == old(nextPacketId)
        invariant kill == old(kill) && forceKillEnabled == old(forceKillEnabled) && wakeups == old(wakeups)
        invariant sendQueue == GreetedQueue(q0, infos[..i], info.identifier, known, frame)
      {
        GreetEntry(infos, i, frame, q0);
        i := i + 1;
      }
      assert infos[..i] == infos;
      GreetedQueueEnqueues(q0, infos, info.identifier, known, frame);
    }

    /** One pass of the loop of `helloToClusters`: `frame` queued to the ipc
        address of entry `i` when it is another node not yet recorded. */
    method GreetEntry(infos: seq<ServerInfo>, i: nat, frame: Bytes, ghost q0: Queue)
      requires Valid() && q0.Valid() && i < |infos|
      requires sendQueue == GreetedQueue(q0, infos[..i], info.identifier, clientInfos, frame)
      modifies this
      ensures Valid()
      ensures sendQueue == GreetedQueue(q0, infos[..i + 1], info.identifier, clientInfos, frame)
      ensures connections == old(connections) && clientInfos == old(clientInfos)
      ensures receivedPackets == old(receivedPackets) && nextPacketId == old(nextPacketId)
      ensures kill == old(kill) && forceKillEnabled == old(forceKillEnabled) && wakeups == old(wakeups)
    {
      GreetedQueueStep(q0, infos, i, info.identifier, clientInfos, frame);
      var entry := infos[i];
      if entry.identifier != info.identifier && entry.identifier !in clientInfos {
        QueueFrame(IpcEndpoint(entry), frame);
      }
    }

    /** `broadcastPacket`: the packet queued to every connected node's
        configured ipc address, in connection order. The source encodes the
        packet again for each node; every encoding gives the same frame, so it
        is encoded once here. */
    method BroadcastPacket(packet: Packet)
      requires Valid()
      modifies this
      ensures Valid() && Snapshot() == Broadcast(old(Snapshot()), packet)
    {
      var frame := EncodeFrame(packet);
      QueueToConnected(frame);
    }

    /** The loop of `broadcastPacket`, for any encoded `frame`. */
    method QueueToConnected(frame: Bytes)
      requires Valid()
      modifies this
      ensures Valid()
      ensures Snapshot() == old(Snapshot()).(sendQueue := EnqueueAll(old(sendQueue), BroadcastTargets(connections), frame))
    {
      var peers := connections.Values();
      ghost var q0 := sendQueue;
      var i := 0;
      while i < |peers|
        invariant 0 <= i <= |peers| && Valid()
        invariant connections == old(connections) && clientInfos == old(clientInfos)
        invariant receivedPackets == old(receivedPackets) && nextPacketId == old(nextPacketId)
        invariant kill == old(kill) && forceKillEnabled == old(forceKillEnabled) && wakeups == old(wakeups)
        invariant sendQueue == EnqueueAll(q0, IpcEndpoints(peers[..i]), frame)
      {
        QueueToConnection(peers, i, frame, q0);
        i := i + 1;
      }
      BroadcastDone(q0, connections, frame);
    }

    /** One pass of the loop of `broadcastPacket`: `frame` queued to the
        configured ipc address of connection `peers[i]`. */
    method QueueToConnection(peers: seq<ServerInfo>, i: nat, frame: Bytes, ghost q0: Queue)
      requires Valid() && q0.Valid() && i < |peers|
      requires sendQueue == EnqueueAll(q0, IpcEndpoints(peers[..i]), frame)
      modifies this
      ensures Valid()
      ensures Snapshot() == old(Snapshot()).(sendQueue := EnqueueAll(q0, IpcEndpoints(peers[..i + 1]), frame))
    {
      BroadcastStep(q0, peers, i, frame);
      QueueFrame(IpcEndpoint(peers[i]), frame);
    }

    /** `flushQueuedPackets`: for each destination in queue order, its
        frames are shifted out into one datagram, which is then sent. A send
        to a member of `refused` fails: the SocketException escapes (`ok` is
        false) with the queues shifted so far left empty. When every send
        succeeds the queue is replaced by an empty one. */
    method FlushQueuedPackets(refused: set<Endpoint>) returns (sent: seq<Outgoing>, ok: bool)
      requires Valid()
      modifies this
      ensures Valid()
      ensures FlushResult(sent, ok, sendQueue) == Flush(old(sendQueue), refused)
      ensures Snapshot() == old(Snapshot()).(sendQueue := sendQueue)
    {
      var order := sendQueue.order;
      ghost var q0 := sendQueue;
      sent := [];
      var i := 0;
      while i < |order|
        invariant 0 <= i <= |order| && Valid()
        invariant connections == old(connections) && clientInfos == old(clientInfos)
        invariant receivedPackets == old(receivedPackets) && nextPacketId == old(nextPacketId)
        invariant kill == old(kill) && forceKillEnabled == old(forceKillEnabled) && wakeups == old(wakeups)
        invariant order == q0.order && sendQueue == Emptied(q0, i)
        invariant sent == Datagrams(q0)[..i]
        invariant forall j :: 0 <= j < i ==> order[j] !in refused
      {
        var datagram := ShiftQueue(order[i], i, q0);
        if order[i] in refused {
          FlushStopsAt(q0, refused, i);
          return sent, false;
        }
        DatagramsStep(q0, i);
        sent := sent + [Outgoing(order[i], datagram)];
        i := i + 1;
      }
      FlushSendsAll(q0, refused);
      sendQueue := Empty();
      ok := true;
    }

    /** One pass of the loop of `flushQueuedPackets`: the queue of `dest`,
        the `i`-th destination, shifted out into one datagram. */
    method ShiftQueue(dest: Endpoint, i: nat, ghost q0: Queue) returns (datagram: Bytes)
      requires Valid() && q0.Valid() && i < |q0.order| && dest == q0.order[i]
      requires sendQueue == Emptied(q0, i)
      modifies this
      ensures Valid()
      ensures datagram == Concat(q0.items[dest])
      ensures Snapshot() == old(Snapshot()).(sendQueue := Emptied(q0, i + 1))
    {
      EmptiedStep(q0, i);
      datagram := ShiftFrames(sendQueue.items[dest]);
      sendQueue := sendQueue.Put(dest, []);
    }

    /** `readPackets` on a received buffer: frames are read until the buffer
        ends; an unregistered id abandons the datagram, a payload that fails
        to decode ends it, and a header that runs past the buffer throws. */
    method ReadPackets(buffer: Bytes) returns (r: ReadResult)
      requires packetPool.Valid()
      ensures r == ReadFrames(packetPool.registry, buffer, 0)
    {
      var stream := new Stream(buffer);
      var packets: seq<Packet> := [];
      if ReadFrames(packetPool.registry, buffer, 0).Decoded? {
        EmptyLeft(ReadFrames(packetPool.registry, buffer, 0).packets);
      }
      while !stream.Feof()
        invariant stream.Valid() && stream.buffer == buffer
        invariant ReadFrames(packetPool.registry, buffer, 0) == Prepend(packets, ReadFrames(packetPool.registry, buffer, stream.offset))
        decreases |buffer| - stream.offset
      {
        ghost var at := stream.offset;
        var frame := ReadFrameFrom(packetPool, stream);
        match frame
        case Truncated =>
          return Malformed;
        case UnknownId(id) =>
          return Unknown(id);
        case BadPayload =>
          EmptyRight(packets);
          return Decoded(packets);
        case Framed(p, next) =>
          ReadFramesStep(packetPool.registry, buffer, at, p, next);
          PrependTwice(packets, [p], ReadFrames(packetPool.registry, buffer, next));
          packets := packets + [p];
      }
      EmptyRight(packets);
      r := Decoded(packets);
    }

    /** The unconnected branch of `onRun`: each packet of a batch from an
        address with no connection handled in turn, until an identifier the
        directory does not hold. */
    method HandleUnconnected(from: Endpoint, ps: seq<Packet>)
      requires Valid()
      modifies this
      ensures Valid()
      ensures Snapshot() == WorkerState.HandleUnconnected(old(Snapshot()), config, info.identifier, from, ps)
    {
      var i := 0;
      while i < |ps|
        invariant 0 <= i <= |ps| && Valid()
        invariant WorkerState.HandleUnconnected(old(Snapshot()), config, info.identifier, from, ps)
               == WorkerState.HandleUnconnected(Snapshot(), config, info.identifier, from, ps[i..])
      {
        HandleUnconnectedStep(Snapshot(), config, info.identifier, from, ps, i);
        var stop := HandleHello(from, ps[i]);
        if stop {
          return;
        }
        i := i + 1;
      }
    }

    /** One packet of the unconnected branch. `stop`: it named an identifier
        the directory does not hold, and the rest of the batch is dropped. */
    method HandleHello(from: Endpoint, p: Packet) returns (stop: bool)
      requires Valid()
      modifies this
      ensures Valid()
      ensures stop <==> WorkerState.HandleHello(old(Snapshot()), config, info.identifier, from, p).None?
      ensures stop ==> Snapshot() == old(Snapshot())
      ensures !stop ==> WorkerState.HandleHello(old(Snapshot()), config, info.identifier, from, p) == Some(Snapshot())
    {
      match p
      case SessionStart(id) =>
        var peer := RegisterClientInfo(id, from);
        if peer.None? {
          return true;
        }
        SendPacket(peer.value.identifier, SessionHandshake(info.identifier));
        return false;
      case SessionHandshake(id) =>
        var peer := RegisterClientInfo(id, from);
        return peer.None?;
      case _ =>
        return false;
    }

    /** The connected branch of `onRun`: every packet of the batch encoded
        again and stored under the next id, one wakeup, and the connection
        dropped afterwards if the batch held a SessionClose. */
    method HandleConnected(from: Endpoint, ps: seq<Packet>)
      requires Valid()
      modifies this
      ensures Valid()
      ensures Snapshot() == WorkerState.HandleConnected(old(Snapshot()), from, ps)
    {
      var peer := GetConnectedClusterInfo(from);
      if peer.None? {
        return;
      }
      var afterDisconnect := false;
      var i := 0;
      while i < |ps|
        invariant 0 <= i <= |ps| && Valid()
        invariant connections == old(connections) && clientInfos == old(clientInfos) && sendQueue == old(sendQueue)
        invariant kill == old(kill) && forceKillEnabled == old(forceKillEnabled) && wakeups == old(wakeups)
        invariant receivedPackets == old(receivedPackets) + Receipts(from, peer.value, Frames(ps[..i]))
        invariant nextPacketId == old(nextPacketId) + i
        invariant afterDisconnect <==> SessionClose in ps[..i]
      {
        if ps[i] == SessionClose {
          afterDisconnect := true;
        }
        FramesSnoc(ps, i);
        DeliverStep(old(receivedPackets), from, peer.value, Frames(ps[..i]), Frame(ps[i]));
        var frame := EncodeFrame(ps[i]);
        StoreReceived(from, peer.value, frame);
        i := i + 1;
      }
      assert ps[..i] == ps;
      wakeups := wakeups + 1;
      if afterDisconnect {
        DisconnectClient(from);
      }
    }

    /** `receivedPackets[nextPacketId++] = ...`: one entry stored under the next id. */
    method StoreReceived(from: Endpoint, peer: ServerInfo, frame: Bytes)
      requires Valid()
      modifies this
      ensures Valid()
      ensures Snapshot() == old(Snapshot()).(receivedPackets := old(receivedPackets) + [Received(from.ip, from.port, peer, frame)],
                                             nextPacketId := old(nextPacketId) + 1)
    {
      receivedPackets := receivedPackets + [Received(from.ip, from.port, peer, frame)];
      nextPacketId := nextPacketId + 1;
    }

    /** One pass of the `onRun` loop after `wait` returns: the queued packets
        flushed (sends to `refused` fail), the kill check, then what
        `socket_recvfrom` produced (`recv`) read and handled by the branch the
        sender's address selects. */
    method Step(recv: Receive, refused: set<Endpoint>) returns (result: StepResult, sent: seq<Outgoing>)
      requires Valid()
      modifies this
      ensures Valid()
      ensures StepOutcome(result, sent, Snapshot())
           == WorkerState.Step(old(Snapshot()), config, info.identifier, packetPool.registry, recv, refused)
    {
      var ok;
      sent, ok := FlushQueuedPackets(refused);
      if !ok {
        return Faulted, sent;
      }
      if kill {
        return Exited, sent;
      }
      match recv
      case WouldBlock =>
        result := Continued;
      case Reset(peer) =>
        if peer.Some? {
          DisconnectClient(peer.value);
        }
        result := Continued;
      case RecvFailed =>
        result := Faulted;
      case Data(from, buffer) =>
        var read := ReadPackets(buffer);
        match read
        case Malformed =>
          result := Faulted;
        case Unknown(_) =>
          result := Continued;
        case Decoded(ps) =>
          var unconnected := from !in connections.items;
          if unconnected {
            HandleUnconnected(from, ps);
          } else {
            HandleConnected(from, ps);
          }
          result := Continued;
    }

    /** `kill`: a SessionClose to every connected node, then the flags. */
    method Kill(forceKill: bool)
      requires Valid()
      modifies this
      ensures Valid() && Snapshot() == WorkerState.Kill(old(Snapshot()), forceKill)
    {
      BroadcastPacket(SessionClose);
      kill := true;
      forceKillEnabled := forceKill;
    }
  }

  /** The inner loop of `flushQueuedPackets`: the frames of one queue shifted
      out one at a time and written to a fresh stream, giving one datagram. */
  method ShiftFrames(queue: seq<Bytes>) returns (datagram: Bytes)
    ensures datagram == Concat(queue)
  {
    var stream := new Stream([]);
    var rest := queue;
    EmptyLeft(Concat(queue));
    while |rest| > 0
      invariant stream.Valid()
      invariant Concat(queue) == stream.buffer + Concat(rest)
    {
      var frame := rest[0];
      Assoc(stream.buffer, frame, Concat(rest[1..]));
      rest := rest[1..];
      stream.Put(frame);
    }
    EmptyRight(stream.buffer);
    datagram := stream.buffer;
  }
}
