/** ClusterIPC: the controller object on the server's main thread. It owns
    the packet pool and the worker, and keeps its own fields, which `tick`
    and the drain closure update in place; each method is proved to leave
    the controller and the worker's tables as module ControllerState says.
    The host events it fires are appended to the ghost log `events`. */
module Ipc {
  import opened Options
  import opened BinaryStream
  import opened OrderedMaps
  import opened Packets
  import opened PacketPool
  import opened Configuration
  import opened Framing
  import opened WorkerState
  import opened ControllerState
  import opened Worker

  class ClusterIPC {
    const info: ServerInfo
    const config: ClusterConfiguration
    const packetPool: ClusterPacketPool
    const thread: ClusterThread

    var lastKeepAlive: int
    var lastCheckConnections: int
    var lastKeepAliveResponse: map<Bytes, int>
    var lastSeenConnections: OrderedMap<Endpoint, ServerInfo>
    var onlineClusters: OrderedMap<Endpoint, ServerInfo>
    var optionForceKill: bool
    /** The ClusterDisconnectedEvents and ClusterPacketReceiveEvents called so far. */
    ghost var events: seq<Event>

    /** The controller's fields as one value. */
    ghost function Controller(): ControllerState.Controller
      reads this
    {
      ControllerState.Controller(lastKeepAlive, lastCheckConnections, lastKeepAliveResponse,
                                 lastSeenConnections, onlineClusters, optionForceKill, events)
    }

    /** The worker shares this node's info, configuration and packet pool. */
    ghost predicate Valid()
      reads this, thread, packetPool
    {
      && Controller().Valid()
      && thread.info == info && thread.config == config && thread.packetPool == packetPool
      && thread.Valid()
    }

    /** The four control packet classes registered, the fields set, and the
        worker created over the same pool. */
    constructor (info: ServerInfo, config: ClusterConfiguration)
      requires config.Valid()
      ensures Valid()
      ensures Controller() == InitialController()
      ensures packetPool.registry == ControlRegistry()
      ensures thread.Snapshot() == Initial()
      ensures this.info == info && this.config == config
    {
      var pool := new ClusterPacketPool();
      var ok := pool.Register(SessionStartKind);
      ok := pool.Register(SessionHandshakeKind);
      ok := pool.Register(SessionCloseKind);
      ok := pool.Register(KeepAliveKind);
      ControlRegistryHoldsAllKinds(KeepAliveKind);
      IdInjective(SessionStartKind, SessionHandshakeKind);
      IdInjective(SessionStartKind, SessionCloseKind);
      IdInjective(SessionStartKind, KeepAliveKind);
      IdInjective(SessionHandshakeKind, SessionCloseKind);
      IdInjective(SessionHandshakeKind, KeepAliveKind);
      IdInjective(SessionCloseKind, KeepAliveKind);
      var worker := new ClusterThread(info, config, pool);
      this.info := info;
      this.config := config;
      this.packetPool := pool;
      this.thread := worker;
      lastKeepAlive := 0;
      lastCheckConnections := 0;
      lastKeepAliveResponse := map[];
      lastSeenConnections := Empty();
      onlineClusters := Empty();
      optionForceKill := false;
      events := [];
    }

    // ----- the drain closure -----

    /** The notifier's closure: the worker's stored entries fetched, then
        handled one by one until one stops the drain. */
    method Drain(now: int) returns (end: DrainEnd)
      requires Valid()
      modifies this, thread
      ensures Valid()
      ensures Drained(end, Controller(), thread.Snapshot())
           == ControllerState.Drain(old(Controller()), old(thread.Snapshot()), packetPool.registry, now)
    {
      ghost var goal := ControllerState.Drain(Controller(), thread.Snapshot(), packetPool.registry, now);
      var batch := thread.FetchPackets();
      var i := 0;
      while i < |batch|
        invariant Valid() && i <= |batch|
        invariant DrainEntries(Controller(), thread.Snapshot(), packetPool.registry, batch[i..], now) == goal
      {
        DrainEntriesStep(Controller(), thread.Snapshot(), packetPool.registry, batch, i, now);
        var stop := DrainEntry(batch[i], now);
        if stop.Some? {
          return stop.value;
        }
        i := i + 1;
      }
      end := Finished;
    }

    /** One fetched entry: its id read with `getUnsignedVarInt` and `get`,
        looked up in the pool, its payload decoded; a stop when the header is
        cut short or the id unknown, nothing more when the payload fails. */
    method DrainEntry(entry: Received, now: int) returns (stop: Option<DrainEnd>)
      requires Valid()
      modifies this, thread
      ensures Valid()
      ensures var o := HandleStored(old(Controller()), old(thread.Snapshot()), packetPool.registry, entry, now);
              && (stop.Some? <==> o.Stop?)
              && (o.Stop? ==> stop.value == o.end && Controller() == old(Controller()) && thread.Snapshot() == old(thread.Snapshot()))
              && (o.Go? ==> Controller() == o.ctl && thread.Snapshot() == o.worker)
    {
      var stream := new Stream(entry.packet);
      var frame := ReadFrameFrom(packetPool, stream);
      match frame
      case Truncated =>
        return Some(Escaped);
      case UnknownId(id) =>
        return Some(Abandoned(id));
      case BadPayload =>
        return None;
      case Framed(p, _) =>
        HandlePacket(entry.clusterInfo, p, now);
        return None;
    }

    /** A decoded packet from `from`: the KeepAlive bookkeeping, then the
        ClusterPacketReceiveEvent. */
    method HandlePacket(from: ServerInfo, p: Packet, now: int)
      requires Valid()
      modifies this, thread
      ensures Valid()
      ensures (Controller(), thread.Snapshot()) == HandleEntry(old(Controller()), old(thread.Snapshot()), from, p, now)
    {
      match p {
        case KeepAlive(true) =>
          lastKeepAliveResponse := lastKeepAliveResponse[from.identifier := now];
        case KeepAlive(false) =>
          thread.SendPacket(from.identifier, KeepAlive(true));
        case _ =>
      }
      events := events + [ClusterPacketReceived(from, p)];
    }

    // ----- tick -----

    /** `tick` at time `now`: the membership diff and the keep-alive sweep,
        each when its interval has passed. */
    method Tick(now: int)
      requires Valid()
      modifies this, thread
      ensures Valid()
      ensures System(Controller(), thread.Snapshot()) == ControllerState.Tick(old(Controller()), old(thread.Snapshot()), now)
    {
      if now - lastCheckConnections > 5 {
        CheckConnections(now);
      }
      if now - lastKeepAlive > 15 {
        lastKeepAlive := now;
        SweepKeepAlive(now);
        thread.BroadcastPacket(KeepAlive(false));
      }
    }

    /** The membership diff against the worker's connection table. */
    method CheckConnections(now: int)
      requires Valid()
      modifies this
      ensures Valid()
      ensures Controller() == MembershipDiff(old(Controller()), thread.connections, now)
    {
      var seen := thread.connections;
      var gone := lastSeenConnections.DiffKey(seen).Values();
      var arrived := seen.DiffKey(lastSeenConnections).Values();
      ReportVanished(gone);
      ReportArrived(arrived, now);
      lastSeenConnections := seen;
      onlineClusters := seen;
    }

    /** The diff's first loop: each vanished entry fires its event and loses
        its keep-alive entry. */
    method ReportVanished(gone: seq<ServerInfo>)
      requires Valid()
      modifies this
      ensures Valid()
      ensures events == old(events) + DisconnectedEvents(gone)
      ensures lastKeepAliveResponse == Forget(old(lastKeepAliveResponse), gone)
      ensures Controller() == old(Controller()).(events := events, lastKeepAliveResponse := lastKeepAliveResponse)
    {
      ghost var events0 := events;
      ghost var resp0 := lastKeepAliveResponse;
      var i := 0;
      while i < |gone|
        invariant i <= |gone|
        invariant events == events0 + DisconnectedEvents(gone[..i])
        invariant lastKeepAliveResponse == Forget(resp0, gone[..i])
        invariant lastSeenConnections == old(lastSeenConnections) && onlineClusters == old(onlineClusters)
        invariant lastKeepAlive == old(lastKeepAlive) && lastCheckConnections == old(lastCheckConnections)
        invariant optionForceKill == old(optionForceKill)
      {
        ForgetStep(resp0, events0, gone, i);
        events := events + [ClusterDisconnected(gone[i])];
        lastKeepAliveResponse := lastKeepAliveResponse - {gone[i].identifier};
        i := i + 1;
      }
      assert gone[..i] == gone;
    }

    /** The diff's second loop: each new entry fires a ClusterDisconnectedEvent
        too and has its keep-alive time set to `now`. */
    method ReportArrived(arrived: seq<ServerInfo>, now: int)
      requires Valid()
      modifies this
      ensures Valid()
      ensures events == old(events) + DisconnectedEvents(arrived)
      ensures lastKeepAliveResponse == Remember(old(lastKeepAliveResponse), arrived, now)
      ensures Controller() == old(Controller()).(events := events, lastKeepAliveResponse := lastKeepAliveResponse)
    {
      ghost var events1 := events;
      ghost var resp1 := lastKeepAliveResponse;
      var i := 0;
      while i < |arrived|
        invariant i <= |arrived|
        invariant events == events1 + DisconnectedEvents(arrived[..i])
        invariant lastKeepAliveResponse == Remember(resp1, arrived[..i], now)
        invariant lastSeenConnections == old(lastSeenConnections) && onlineClusters == old(onlineClusters)
        invariant lastKeepAlive == old(lastKeepAlive) && lastCheckConnections == old(lastCheckConnections)
        invariant optionForceKill == old(optionForceKill)
      {
        RememberStep(resp1, events1, arrived, i, now);
        events := events + [ClusterDisconnected(arrived[i])];
        lastKeepAliveResponse := lastKeepAliveResponse[arrived[i].identifier := now];
        i := i + 1;
      }
      assert arrived[..i] == arrived;
    }

    /** The keep-alive sweep over a snapshot of the worker's connections. */
    method SweepKeepAlive(now: int)
      requires Valid()
      modifies this, thread
      ensures Valid()
      ensures (lastKeepAliveResponse, thread.Snapshot())
           == Sweep(old(lastKeepAliveResponse), old(thread.Snapshot()), old(thread.connections).Values(), now)
      ensures Controller() == old(Controller()).(lastKeepAliveResponse := lastKeepAliveResponse)
    {
      var infos := thread.connections.Values();
      ghost var resp0 := lastKeepAliveResponse;
      ghost var w0 := thread.Snapshot();
      var i := 0;
      while i < |infos|
        invariant Valid() && i <= |infos|
        invariant (lastKeepAliveResponse, thread.Snapshot()) == Sweep(resp0, w0, infos[..i], now)
        invariant lastSeenConnections == old(lastSeenConnections) && onlineClusters == old(onlineClusters)
        invariant lastKeepAlive == old(lastKeepAlive) && lastCheckConnections == old(lastCheckConnections)
        invariant optionForceKill == old(optionForceKill) && events == old(events)
      {
        VisitConnection(infos, i, now, resp0, w0);
        i := i + 1;
      }
      assert infos[..i] == infos;
    }

    /** The sweep's visit of the `i`-th connection. */
    method VisitConnection(infos: seq<ServerInfo>, i: nat, now: int, ghost resp0: map<Bytes, int>, ghost w0: State)
      requires Valid() && w0.Valid() && i < |infos|
      requires (lastKeepAliveResponse, thread.Snapshot()) == Sweep(resp0, w0, infos[..i], now)
      modifies this, thread
      ensures Valid()
      ensures (lastKeepAliveResponse, thread.Snapshot()) == Sweep(resp0, w0, infos[..i + 1], now)
      ensures lastSeenConnections == old(lastSeenConnections) && onlineClusters == old(onlineClusters)
      ensures lastKeepAlive == old(lastKeepAlive) && lastCheckConnections == old(lastCheckConnections)
      ensures optionForceKill == old(optionForceKill) && events == old(events)
    {
      SweepSnoc(resp0, w0, infos, i, now);
      var id := infos[i].identifier;
      var lastResponseTime := if id in lastKeepAliveResponse then lastKeepAliveResponse[id] else 0;
      if now - lastResponseTime > 15 + 5 {
        thread.DisconnectClient(IpcEndpoint(infos[i]));
        lastKeepAliveResponse := lastKeepAliveResponse - {id};
      }
    }

    // ----- delegations -----

    /** `sendPacket`: handed to the worker. */
    method SendPacket(toCluster: Bytes, packet: Packet)
      requires Valid()
      modifies thread
      ensures Valid()
      ensures thread.Snapshot() == WorkerState.SendPacket(old(thread.Snapshot()), toCluster, packet)
    {
      thread.SendPacket(toCluster, packet);
    }

    /** `broadcastPacket`: handed to the worker. */
    method BroadcastPacket(packet: Packet)
      requires Valid()
      modifies thread
      ensures Valid()
      ensures thread.Snapshot() == Broadcast(old(thread.Snapshot()), packet)
    {
      thread.BroadcastPacket(packet);
    }

    /** `isClusterOnline`: asked of the worker. */
    method IsClusterOnline(cluster: Bytes) returns (online: bool)
      requires Valid()
      ensures online == IsOnline(thread.Snapshot(), config, cluster)
    {
      online := thread.IsClusterOnline(cluster);
    }

    /** `shutdown`: the worker killed with the force-kill option. */
    method Shutdown()
      requires Valid()
      modifies thread
      ensures Valid()
      ensures thread.Snapshot() == WorkerState.Kill(old(thread.Snapshot()), optionForceKill)
    {
      thread.Kill(optionForceKill);
    }

    method SetOptionForceKill(optionForceKill: bool)
      requires Valid()
      modifies this
      ensures Valid()
      ensures Controller() == old(Controller()).(optionForceKill := optionForceKill)
    {
      this.optionForceKill := optionForceKill;
    }
  }

  /** One more vanished entry handled by the diff. */
  lemma ForgetStep(resp0: map<Bytes, int>, events0: seq<Event>, gone: seq<ServerInfo>, i: nat)
    requires i < |gone|
    ensures Forget(resp0, gone[..i + 1]) == Forget(resp0, gone[..i]) - {gone[i].identifier}
    ensures events0 + DisconnectedEvents(gone[..i + 1]) == events0 + DisconnectedEvents(gone[..i]) + [ClusterDisconnected(gone[i])]
  {
    assert gone[..i + 1][..i] == gone[..i];
  }

  /** One more new entry handled by the diff. */
  lemma RememberStep(resp1: map<Bytes, int>, events1: seq<Event>, arrived: seq<ServerInfo>, i: nat, now: int)
    requires i < |arrived|
    ensures Remember(resp1, arrived[..i + 1], now) == Remember(resp1, arrived[..i], now)[arrived[i].identifier := now]
    ensures events1 + DisconnectedEvents(arrived[..i + 1]) == events1 + DisconnectedEvents(arrived[..i]) + [ClusterDisconnected(arrived[i])]
  {
    assert arrived[..i + 1][..i] == arrived[..i];
  }
}
