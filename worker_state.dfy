/** The worker's tables as one value, and what each of ClusterThread's
    operations does to them, as functions. The class in module Worker keeps
    the same tables in fields and its methods are proved to act as these
    functions say. */
module WorkerState {
  import opened Options
  import opened SeqFacts
  import opened BinaryStream
  import opened OrderedMaps
  import opened Packets
  import opened Configuration
  import opened Framing

  /** PacketReceivingObject as the worker fills it: the sender's address, its
      directory entry, and the packet framed again as bytes. */
  datatype Received = Received(ip: string, port: int, clusterInfo: ServerInfo, packet: Bytes)

  /** One datagram handed to `socket_sendto`. */
  datatype Outgoing = Outgoing(to: Endpoint, buffer: Bytes)

  /** Frames waiting per destination, destinations in first-queued order. */
  type Queue = OrderedMap<Endpoint, seq<Bytes>>

  /** The worker's mutable tables. `wakeups` counts the notifier's
      `wakeupSleeper` calls. The receive table is keyed by consecutive ids
      handed out from `nextPacketId`, and `fetchPackets` takes every entry at
      once, so its entries always sit under the last `|receivedPackets|` ids
      below `nextPacketId`, in id order: `receivedPackets` lists them. */
  datatype State = State(
    connections: OrderedMap<Endpoint, ServerInfo>,
    clientInfos: map<Bytes, Endpoint>,
    sendQueue: Queue,
    receivedPackets: seq<Received>,
    nextPacketId: nat,
    kill: bool,
    forceKillEnabled: bool,
    wakeups: nat)
  {
    /** The ordered tables are well formed, and the stored entries' ids are
        ids already handed out. */
    ghost predicate Valid()
    {
      && connections.Valid()
      && sendQueue.Valid()
      && |receivedPackets| <= nextPacketId
    }

    /** The id of the oldest stored entry: entry `i` of `receivedPackets` is
        the one under id `FirstId() + i`. */
    function FirstId(): nat
      requires Valid()
    {
      nextPacketId - |receivedPackets|
    }
  }

  /** The state the constructor leaves. */
  function Initial(): (s: State)
    ensures s.Valid()
  {
    State(Empty(), map[], Empty(), [], 0, false, false, 0)
  }

  // ----- send queue -----

  /** The frames waiting for `to`. */
  function Pending(q: Queue, to: Endpoint): seq<Bytes>
  {
    if to in q.items then q.items[to] else []
  }

  /** `sendPacketTo`: one frame appended to the queue of `to`; a destination
      seen for the first time goes after all others. */
  function Queued(q: Queue, to: Endpoint, frame: Bytes): (r: Queue)
    requires q.Valid()
    ensures r.Valid()
    ensures Pending(r, to) == Pending(q, to) + [frame]
    ensures forall d :: d != to ==> Pending(r, d) == Pending(q, d)
    ensures r.items.Keys == q.items.Keys + {to}
    ensures r.order == if to in q.items then q.order else q.order + [to]
  {
    q.Put(to, Pending(q, to) + [frame])
  }

  /** `sendPacketTo` once per destination of `dests`, in that order. */
  function EnqueueAll(q: Queue, dests: seq<Endpoint>, frame: Bytes): (r: Queue)
    requires q.Valid()
    ensures r.Valid()
    decreases |dests|
  {
    if dests == [] then q
    else Queued(EnqueueAll(q, dests[..|dests| - 1], frame), dests[|dests| - 1], frame)
  }

  lemma EnqueueAllSnoc(q: Queue, dests: seq<Endpoint>, d: Endpoint, frame: Bytes)
    requires q.Valid()
    ensures EnqueueAll(q, dests + [d], frame) == Queued(EnqueueAll(q, dests, frame), d, frame)
  {
    assert (dests + [d])[..|dests|] == dests;
  }

  /** One more destination of `dests` served. */
  lemma EnqueueAllStep(q: Queue, dests: seq<Endpoint>, i: nat, frame: Bytes)
    requires q.Valid() && i < |dests|
    ensures EnqueueAll(q, dests[..i + 1], frame) == Queued(EnqueueAll(q, dests[..i], frame), dests[i], frame)
  {
    assert dests[..i + 1][..i] == dests[..i];
  }

  /** How often `d` occurs in `s`. */
  function Count(s: seq<Endpoint>, d: Endpoint): nat
    decreases |s|
  {
    if s == [] then 0
    else Count(s[..|s| - 1], d) + (if s[|s| - 1] == d then 1 else 0)
  }

  function Copies(frame: Bytes, n: nat): (r: seq<Bytes>)
    ensures |r| == n && forall i :: 0 <= i < n ==> r[i] == frame
  {
    seq(n, _ => frame)
  }

  /** Queueing a frame for several destinations adds it once per occurrence of
      each destination, after what was already waiting there. */
  lemma {:induction false} EnqueueAllPending(q: Queue, dests: seq<Endpoint>, frame: Bytes, d: Endpoint)
    requires q.Valid()
    ensures Pending(EnqueueAll(q, dests, frame), d) == Pending(q, d) + Copies(frame, Count(dests, d))
    decreases |dests|
  {
    if dests == [] {
      EmptyRight(Pending(q, d));
    } else {
      var init := dests[..|dests| - 1];
      EnqueueAllPending(q, init, frame, d);
      var n := Count(init, d);
      if dests[|dests| - 1] == d {
        assert Copies(frame, n + 1) == Copies(frame, n) + [frame];
        Assoc(Pending(q, d), Copies(frame, n), [frame]);
      }
    }
  }

  /** `EnqueueAllPending` for every destination at once. */
  lemma EnqueueAllPendingEverywhere(q: Queue, dests: seq<Endpoint>, frame: Bytes)
    requires q.Valid()
    ensures forall d :: Pending(EnqueueAll(q, dests, frame), d) == Pending(q, d) + Copies(frame, Count(dests, d))
  {
    forall d ensures Pending(EnqueueAll(q, dests, frame), d) == Pending(q, d) + Copies(frame, Count(dests, d)) {
      EnqueueAllPending(q, dests, frame, d);
    }
  }

  // ----- flush -----

  /** One datagram per destination, its frames concatenated in queue order. */
  function Datagrams(q: Queue): (r: seq<Outgoing>)
    requires q.Valid()
    ensures |r| == |q.order|
    ensures forall i :: 0 <= i < |r| ==> r[i] == Outgoing(q.order[i], Concat(q.items[q.order[i]]))
  {
    seq(|q.order|, i requires 0 <= i < |q.order| => Outgoing(q.order[i], Concat(q.items[q.order[i]])))
  }

  /** The position of the first destination whose send fails, or the length
      when every send succeeds. */
  function FirstRefused(order: seq<Endpoint>, refused: set<Endpoint>): (r: nat)
    ensures r <= |order|
    ensures forall j :: 0 <= j < r ==> order[j] !in refused
    ensures r < |order| ==> order[r] in refused
  {
    if order == [] then 0
    else if order[0] in refused then 0
    else 1 + FirstRefused(order[1..], refused)
  }

  /** The queue once the first `n` destinations have had every frame shifted
      out of their queues. */
  function Emptied(q: Queue, n: nat): (r: Queue)
    requires q.Valid() && n <= |q.order|
    ensures r.Valid() && r.order == q.order && r.items.Keys == q.items.Keys
  {
    OrderedMap(q.order, map k | k in q.items :: if k in q.order[..n] then [] else q.items[k])
  }

  /** Shifting out the queue of the `n`-th destination: it still holds its
      original frames, and emptying it extends the emptied prefix by one. */
  lemma EmptiedStep(q: Queue, n: nat)
    requires q.Valid() && n < |q.order|
    ensures q.order[n] in Emptied(q, n).items
    ensures Emptied(q, n).items[q.order[n]] == q.items[q.order[n]]
    ensures Emptied(q, n).Put(q.order[n], []) == Emptied(q, n + 1)
  {
    var d := q.order[n];
    assert d !in q.order[..n] by {
      forall j | 0 <= j < n ensures q.order[..n][j] != d {
        assert q.order[..n][j] == q.order[j];
      }
    }
    assert q.order[..n + 1] == q.order[..n] + [d];
  }

  /** One more datagram sent by `flushQueuedPackets`. */
  lemma DatagramsStep(q: Queue, n: nat)
    requires q.Valid() && n < |q.order|
    ensures Datagrams(q)[..n + 1] == Datagrams(q)[..n] + [Outgoing(q.order[n], Concat(q.items[q.order[n]]))]
  {
    assert Datagrams(q)[..n + 1] == Datagrams(q)[..n] + [Datagrams(q)[n]];
  }

  /** A flush that meets its first refused destination at `n`: the
      datagrams before it went out, and the queues up to it are empty. */
  lemma FlushStopsAt(q: Queue, refused: set<Endpoint>, n: nat)
    requires q.Valid() && n < |q.order| && q.order[n] in refused
    requires forall j :: 0 <= j < n ==> q.order[j] !in refused
    ensures Flush(q, refused) == FlushResult(Datagrams(q)[..n], false, Emptied(q, n + 1))
  {
    assert FirstRefused(q.order, refused) == n;
  }

  /** A flush that meets no refused destination sends every datagram. */
  lemma FlushSendsAll(q: Queue, refused: set<Endpoint>)
    requires q.Valid()
    requires forall j :: 0 <= j < |q.order| ==> q.order[j] !in refused
    ensures Flush(q, refused) == FlushResult(Datagrams(q)[..|q.order|], true, Empty())
  {
    assert Datagrams(q)[..|q.order|] == Datagrams(q);
  }

  /** `flushQueuedPackets`. All sends succeed: every datagram goes out and the
      queue is replaced by an empty one. A send fails: the datagrams before it
      went out, the SocketException escapes, and the queues shifted so far,
      the failing one included, stay empty. */
  datatype FlushResult = FlushResult(sent: seq<Outgoing>, ok: bool, queue: Queue)

  function Flush(q: Queue, refused: set<Endpoint>): (r: FlushResult)
    requires q.Valid()
    ensures r.queue.Valid()
    ensures r.ok <==> forall j :: 0 <= j < |q.order| ==> q.order[j] !in refused
    ensures r.ok ==> r.sent == Datagrams(q) && r.queue.items == map[]
    ensures !r.ok ==> r.sent < Datagrams(q)
  {
    var j := FirstRefused(q.order, refused);
    if j == |q.order| then FlushResult(Datagrams(q), true, Empty())
    else FlushResult(Datagrams(q)[..j], false, Emptied(q, j + 1))
  }

  /** The frames of `ps`, one after another. */
  function Frames(ps: seq<Packet>): (r: seq<Bytes>)
    ensures |r| == |ps| && forall i :: 0 <= i < |ps| ==> r[i] == Frame(ps[i])
  {
    seq(|ps|, i requires 0 <= i < |ps| => Frame(ps[i]))
  }

  lemma {:induction false} FramesConcat(ps: seq<Packet>)
    ensures Concat(Frames(ps)) == Datagram(ps)
    decreases |ps|
  {
    if ps != [] {
      FramesConcat(ps[1..]);
      assert Frames(ps)[1..] == Frames(ps[1..]);
    }
  }

  /** Packets sent to one node before a flush arrive there as one datagram
      that decodes to exactly those packets, in the order they were sent. */
  lemma SentPacketsArriveInOrder(registry: map<Bytes, Kind>, to: Endpoint, ps: seq<Packet>)
    requires AllRegistered(registry, ps)
    ensures Flush(EnqueueFrames(Empty(), to, Frames(ps)), {}).sent == [Outgoing(to, Datagram(ps))] || ps == []
    ensures ps != [] ==> ReadFrames(registry, Datagram(ps), 0) == Decoded(ps)
  {
    if ps != [] {
      var q := EnqueueFrames(Empty(), to, Frames(ps));
      EnqueueFramesPending(to, Frames(ps));
      FramesConcat(ps);
      DatagramRoundTrip(registry, ps);
      assert Datagrams(q)[0] == Outgoing(to, Datagram(ps));
    }
  }

  /** `sendPacketTo(to, ...)` for each of `frames` in turn. */
  function EnqueueFrames(q: Queue, to: Endpoint, frames: seq<Bytes>): (r: Queue)
    requires q.Valid()
    ensures r.Valid()
    decreases |frames|
  {
    if frames == [] then q
    else Queued(EnqueueFrames(q, to, frames[..|frames| - 1]), to, frames[|frames| - 1])
  }

  /** Frames queued for one destination wait there in the order they were
      queued, and nowhere else. */
  lemma {:induction false} EnqueueFramesPending(to: Endpoint, frames: seq<Bytes>)
    ensures frames != [] ==> EnqueueFrames(Empty(), to, frames).order == [to]
    ensures EnqueueFrames(Empty(), to, frames).items.Keys <= {to}
    ensures Pending(EnqueueFrames(Empty(), to, frames), to) == frames
    decreases |frames|
  {
    if frames != [] {
      var init := frames[..|frames| - 1];
      EnqueueFramesPending(to, init);
      InitLast(frames);
    }
  }

  // ----- the directory side of the worker -----

  /** The state after `sendPacketTo(to, p)`: one frame of `p` after what
      already waits for `to`, every other destination and table untouched. */
  function SendTo(s: State, to: Endpoint, p: Packet): (r: State)
    requires s.Valid()
    ensures r.Valid()
    ensures Pending(r.sendQueue, to) == Pending(s.sendQueue, to) + [Frame(p)]
    ensures forall d :: d != to ==> Pending(r.sendQueue, d) == Pending(s.sendQueue, d)
    ensures r.(sendQueue := s.sendQueue) == s
  {
    s.(sendQueue := Queued(s.sendQueue, to, Frame(p)))
  }

  /** `sendPacket(target, p)`: queued to the address recorded for `target`,
      or dropped when there is none. */
  function SendPacket(s: State, target: Bytes, p: Packet): (r: State)
    requires s.Valid()
    ensures r.Valid()
    ensures target !in s.clientInfos ==> r == s
    ensures target in s.clientInfos ==> r == SendTo(s, s.clientInfos[target], p)
  {
    if target in s.clientInfos then SendTo(s, s.clientInfos[target], p) else s
  }

  /** The configured ipc address of each connection, in connection order. */
  function BroadcastTargets(connections: OrderedMap<Endpoint, ServerInfo>): (r: seq<Endpoint>)
    requires connections.Valid()
  {
    IpcEndpoints(connections.Values())
  }

  /** The ipc address of each of `infos`, in order. */
  function IpcEndpoints(infos: seq<ServerInfo>): (r: seq<Endpoint>)
    ensures |r| == |infos|
    decreases |infos|
  {
    if infos == [] then []
    else IpcEndpoints(infos[..|infos| - 1]) + [IpcEndpoint(infos[|infos| - 1])]
  }

  /** Entry `i` of the broadcast targets is the ipc address of the `i`-th
      connection. */
  lemma {:induction false} BroadcastTargetAt(connections: OrderedMap<Endpoint, ServerInfo>, i: nat)
    requires connections.Valid() && i < |connections.order|
    ensures BroadcastTargets(connections)[i] == IpcEndpoint(connections.items[connections.order[i]])
  {
    IpcEndpointsAt(connections.Values(), i);
  }

  lemma {:induction false} IpcEndpointsAt(infos: seq<ServerInfo>, i: nat)
    requires i < |infos|
    ensures IpcEndpoints(infos)[i] == IpcEndpoint(infos[i])
    decreases |infos|
  {
    if i < |infos| - 1 {
      var init := infos[..|infos| - 1];
      IpcEndpointsAt(init, i);
      assert init[i] == infos[i];
    }
  }

  /** Once the loop of `broadcastPacket` has served every connection. */
  lemma BroadcastDone(q: Queue, connections: OrderedMap<Endpoint, ServerInfo>, frame: Bytes)
    requires q.Valid() && connections.Valid()
    ensures EnqueueAll(q, IpcEndpoints(connections.Values()[..|connections.order|]), frame)
         == EnqueueAll(q, BroadcastTargets(connections), frame)
  {
    assert connections.Values()[..|connections.order|] == connections.Values();
  }

  /** One more connection served by `broadcastPacket`. */
  lemma BroadcastStep(q: Queue, infos: seq<ServerInfo>, i: nat, frame: Bytes)
    requires q.Valid() && i < |infos|
    ensures EnqueueAll(q, IpcEndpoints(infos[..i + 1]), frame)
         == Queued(EnqueueAll(q, IpcEndpoints(infos[..i]), frame), IpcEndpoint(infos[i]), frame)
  {
    assert infos[..i + 1][..i] == infos[..i];
    EnqueueAllSnoc(q, IpcEndpoints(infos[..i]), IpcEndpoint(infos[i]), frame);
  }

  /** `broadcastPacket(p)`: `p` queued to every connected node's configured
      ipc address, in connection order. */
  function Broadcast(s: State, p: Packet): (r: State)
    requires s.Valid()
    ensures r.Valid()
    ensures r.(sendQueue := s.sendQueue) == s
    ensures forall d :: Pending(r.sendQueue, d) == Pending(s.sendQueue, d) + Copies(Frame(p), Count(BroadcastTargets(s.connections), d))
  {
    EnqueueAllPendingEverywhere(s.sendQueue, BroadcastTargets(s.connections), Frame(p));
    s.(sendQueue := EnqueueAll(s.sendQueue, BroadcastTargets(s.connections), Frame(p)))
  }

  /** `kill(forceKill)`: a SessionClose broadcast, then the flags set. Each
      destination gains one SessionClose frame per connection whose configured
      ipc address it is, after what was waiting; apart from the send queue and
      the two flags nothing changes. */
  function Kill(s: State, forceKill: bool): (r: State)
    requires s.Valid()
    ensures r.Valid() && r.kill && r.forceKillEnabled == forceKill
    ensures r.(sendQueue := s.sendQueue, kill := s.kill, forceKillEnabled := s.forceKillEnabled) == s
    ensures forall d :: Pending(r.sendQueue, d)
                        == Pending(s.sendQueue, d) + Copies(Frame(SessionClose), Count(BroadcastTargets(s.connections), d))
  {
    Broadcast(s, SessionClose).(kill := true, forceKillEnabled := forceKill)
  }

  /** The nodes `helloToClusters` greets: every configured node other than
      this one that has no recorded address yet, in configuration order. */
  function HelloTargets(infos: seq<ServerInfo>, self: Bytes, known: map<Bytes, Endpoint>): (r: seq<Endpoint>)
    decreases |infos|
  {
    if infos == [] then []
    else
      var init := HelloTargets(infos[..|infos| - 1], self, known);
      var info := infos[|infos| - 1];
      if info.identifier == self || info.identifier in known then init else init + [IpcEndpoint(info)]
  }

  /** A node is greeted exactly when some entry for it is neither this node
      nor already known. */
  lemma {:induction false} HelloTargetsExactly(infos: seq<ServerInfo>, self: Bytes, known: map<Bytes, Endpoint>, e: Endpoint)
    ensures e in HelloTargets(infos, self, known)
        <==> exists i :: 0 <= i < |infos| && infos[i].identifier != self && infos[i].identifier !in known
                         && IpcEndpoint(infos[i]) == e
    decreases |infos|
  {
    if infos != [] {
      var init := infos[..|infos| - 1];
      HelloTargetsExactly(init, self, known, e);
      var last := |infos| - 1;
      if exists i :: 0 <= i < |init| && init[i].identifier != self && init[i].identifier !in known
                     && IpcEndpoint(init[i]) == e {
        var i :| 0 <= i < |init| && init[i].identifier != self && init[i].identifier !in known
                 && IpcEndpoint(init[i]) == e;
        assert infos[i] == init[i];
      }
      if exists i :: 0 <= i < |infos| && infos[i].identifier != self && infos[i].identifier !in known
                     && IpcEndpoint(infos[i]) == e {
        var i :| 0 <= i < |infos| && infos[i].identifier != self && infos[i].identifier !in known
                 && IpcEndpoint(infos[i]) == e;
        if i < last {
          assert init[i] == infos[i];
        }
      }
    }
  }

  lemma HelloTargetsSnoc(infos: seq<ServerInfo>, i: nat, self: Bytes, known: map<Bytes, Endpoint>)
    requires i < |infos|
    ensures HelloTargets(infos[..i + 1], self, known)
         == if infos[i].identifier == self || infos[i].identifier in known then HelloTargets(infos[..i], self, known)
            else HelloTargets(infos[..i], self, known) + [IpcEndpoint(infos[i])]
  {
    assert infos[..i + 1][..i] == infos[..i];
  }

  /** Whether `helloToClusters` greets the node of configuration entry `entry`. */
  predicate Greets(entry: ServerInfo, self: Bytes, known: map<Bytes, Endpoint>)
  {
    entry.identifier != self && entry.identifier !in known
  }

  /** The queue after `helloToClusters` considered one configuration entry. */
  function GreetQueue(q: Queue, entry: ServerInfo, self: Bytes, known: map<Bytes, Endpoint>, frame: Bytes): (r: Queue)
    requires q.Valid()
    ensures r.Valid()
    ensures Greets(entry, self, known) ==> r == Queued(q, IpcEndpoint(entry), frame)
    ensures !Greets(entry, self, known) ==> r == q
  {
    if Greets(entry, self, known) then Queued(q, IpcEndpoint(entry), frame) else q
  }

  /** The queue after `helloToClusters` considered each of `infos` in turn. */
  function GreetedQueue(q: Queue, infos: seq<ServerInfo>, self: Bytes, known: map<Bytes, Endpoint>, frame: Bytes): (r: Queue)
    requires q.Valid()
    ensures r.Valid()
    decreases |infos|
  {
    if infos == [] then q
    else GreetQueue(GreetedQueue(q, infos[..|infos| - 1], self, known, frame), infos[|infos| - 1], self, known, frame)
  }

  /** Considering the entries one at a time queues to exactly the greeted nodes. */
  lemma {:induction false} GreetedQueueEnqueues(q: Queue, infos: seq<ServerInfo>, self: Bytes, known: map<Bytes, Endpoint>, frame: Bytes)
    requires q.Valid()
    ensures GreetedQueue(q, infos, self, known, frame) == EnqueueAll(q, HelloTargets(infos, self, known), frame)
    decreases |infos|
  {
    if infos != [] {
      var n := |infos| - 1;
      GreetedQueueEnqueues(q, infos[..n], self, known, frame);
      HelloStep(q, infos, n, self, known, frame);
      assert infos[..n + 1] == infos;
    }
  }

  lemma GreetedQueueStep(q: Queue, infos: seq<ServerInfo>, i: nat, self: Bytes, known: map<Bytes, Endpoint>, frame: Bytes)
    requires q.Valid() && i < |infos|
    ensures GreetedQueue(q, infos[..i + 1], self, known, frame)
         == GreetQueue(GreetedQueue(q, infos[..i], self, known, frame), infos[i], self, known, frame)
  {
    assert infos[..i + 1][..i] == infos[..i];
  }

  /** One more configuration entry considered by `helloToClusters`. */
  lemma HelloStep(q: Queue, infos: seq<ServerInfo>, i: nat, self: Bytes, known: map<Bytes, Endpoint>, frame: Bytes)
    requires q.Valid() && i < |infos|
    ensures EnqueueAll(q, HelloTargets(infos[..i + 1], self, known), frame)
         == GreetQueue(EnqueueAll(q, HelloTargets(infos[..i], self, known), frame), infos[i], self, known, frame)
  {
    HelloTargetsSnoc(infos, i, self, known);
    if Greets(infos[i], self, known) {
      EnqueueAllSnoc(q, HelloTargets(infos[..i], self, known), IpcEndpoint(infos[i]), frame);
    }
  }

  /** `helloToClusters`: a SessionStart carrying this node's identifier queued
      to each node it greets. */
  function Hello(s: State, self: Bytes, infos: seq<ServerInfo>): (r: State)
    requires s.Valid()
    ensures r.Valid()
    ensures r.(sendQueue := s.sendQueue) == s
    ensures forall d :: Pending(r.sendQueue, d)
                     == Pending(s.sendQueue, d) + Copies(Frame(SessionStart(self)), Count(HelloTargets(infos, self, s.clientInfos), d))
  {
    EnqueueAllPendingEverywhere(s.sendQueue, HelloTargets(infos, self, s.clientInfos), Frame(SessionStart(self)));
    s.(sendQueue := EnqueueAll(s.sendQueue, HelloTargets(infos, self, s.clientInfos), Frame(SessionStart(self))))
  }

  /** `disconnectClient`: the connection under `ep` is removed; the recorded
      addresses stay. */
  function Disconnect(s: State, ep: Endpoint): (r: State)
    requires s.Valid()
    ensures r.Valid()
    ensures r.connections.items == s.connections.items - {ep}
    ensures r.clientInfos == s.clientInfos
    ensures r.(connections := s.connections) == s
  {
    s.(connections := s.connections.Remove(ep))
  }

  /** `registerClientInfo(id, ip, port)`: None for an unconfigured id, and then
      nothing changes. Otherwise the address is recorded under the entry's own
      identifier and the connection under the address. */
  function Register(s: State, config: ClusterConfiguration, id: Bytes, from: Endpoint): (r: (Option<ServerInfo>, State))
    requires s.Valid()
    ensures r.1.Valid()
    ensures r.0 == config.Get(id)
    ensures r.0.None? ==> r.1 == s
    ensures r.0.Some? ==> && r.1.connections.items == s.connections.items[from := r.0.value]
                          && r.1.clientInfos == s.clientInfos[r.0.value.identifier := from]
                          && r.1.sendQueue == s.sendQueue
                          && r.1.receivedPackets == s.receivedPackets
  {
    match config.Get(id)
    case None => (None, s)
    case Some(info) =>
      (Some(info), s.(clientInfos := s.clientInfos[info.identifier := from],
                      connections := s.connections.Put(from, info)))
  }

  /** `isClusterOnline(id)`: the configured entry under `id` has a connection
      under its configured ipc address. */
  function IsOnline(s: State, config: ClusterConfiguration, id: Bytes): (r: bool)
    ensures r ==> id in config.entries.items && IpcEndpoint(config.entries.items[id]) in s.connections.items
    ensures id in config.entries.items && IpcEndpoint(config.entries.items[id]) in s.connections.items ==> r
  {
    match config.Get(id)
    case None => false
    case Some(info) => IpcEndpoint(info) in s.connections.items
  }

  // ----- packets from an unconnected address -----

  /** One packet of a batch from an address with no connection. None: an
      unknown identifier, which drops the rest of the batch. */
  function HandleHello(s: State, config: ClusterConfiguration, self: Bytes, from: Endpoint, p: Packet): (r: Option<State>)
    requires s.Valid()
    ensures r.Some? ==> r.value.Valid()
    ensures r.None? <==> Unconfigured(config, p)
    ensures (p.SessionClose? || p.KeepAlive?) ==> r == Some(s)
    ensures r.Some? ==> && s.connections.items.Keys <= r.value.connections.items.Keys
                        && s.clientInfos.Keys <= r.value.clientInfos.Keys
                        && r.value.receivedPackets == s.receivedPackets && r.value.nextPacketId == s.nextPacketId
                        && r.value.kill == s.kill && r.value.forceKillEnabled == s.forceKillEnabled
                        && r.value.wakeups == s.wakeups
  {
    match p
    case SessionStart(id) =>
      (match Register(s, config, id, from)
       case (None, _) => None
       case (Some(info), s') => Some(SendPacket(s', info.identifier, SessionHandshake(self))))
    case SessionHandshake(id) =>
      (match Register(s, config, id, from)
       case (None, _) => None
       case (Some(_), s') => Some(s'))
    case _ => Some(s)
  }

  /** The unconnected branch of `onRun`: the batch handled packet by packet
      until an unknown identifier. */
  function HandleUnconnected(s: State, config: ClusterConfiguration, self: Bytes, from: Endpoint, ps: seq<Packet>): (r: State)
    requires s.Valid()
    ensures r.Valid()
    ensures s.connections.items.Keys <= r.connections.items.Keys && s.clientInfos.Keys <= r.clientInfos.Keys
    ensures r.receivedPackets == s.receivedPackets && r.nextPacketId == s.nextPacketId && r.wakeups == s.wakeups
    ensures r.kill == s.kill && r.forceKillEnabled == s.forceKillEnabled
    decreases |ps|
  {
    if ps == [] then s
    else
      match HandleHello(s, config, self, from, ps[0])
      case None => s
      case Some(s') => HandleUnconnected(s', config, self, from, ps[1..])
  }

  /** The unconnected branch with `i` packets handled: what is left to do is
      the `i`-th packet, then the rest. */
  lemma HandleUnconnectedStep(s: State, config: ClusterConfiguration, self: Bytes, from: Endpoint, ps: seq<Packet>, i: nat)
    requires s.Valid() && i < |ps|
    ensures HandleUnconnected(s, config, self, from, ps[i..])
         == match HandleHello(s, config, self, from, ps[i])
            case None => s
            case Some(s') => HandleUnconnected(s', config, self, from, ps[i + 1..])
  {
    assert ps[i..][1..] == ps[i + 1..];
  }

  /** A hello from a configured node connects it under the sender's address,
      records that address under the node's identifier and queues a handshake
      carrying this node's identifier back to the sender. */
  lemma HelloConnectsAndAnswers(s: State, config: ClusterConfiguration, self: Bytes, from: Endpoint, id: Bytes, info: ServerInfo)
    requires s.Valid() && config.Get(id) == Some(info)
    ensures var r := HandleUnconnected(s, config, self, from, [SessionStart(id)]);
            && r.connections.items == s.connections.items[from := info]
            && r.clientInfos == s.clientInfos[info.identifier := from]
            && Pending(r.sendQueue, from) == Pending(s.sendQueue, from) + [Frame(SessionHandshake(self))]
            && (forall d :: d != from ==> Pending(r.sendQueue, d) == Pending(s.sendQueue, d))
  {
    assert [SessionStart(id)][1..] == [];
  }

  /** A handshake from a configured node connects it without answering. */
  lemma HandshakeConnectsSilently(s: State, config: ClusterConfiguration, self: Bytes, from: Endpoint, id: Bytes, info: ServerInfo)
    requires s.Valid() && config.Get(id) == Some(info)
    ensures var r := HandleUnconnected(s, config, self, from, [SessionHandshake(id)]);
            && r.connections.items == s.connections.items[from := info]
            && r.clientInfos == s.clientInfos[info.identifier := from]
            && r.sendQueue == s.sendQueue
  {
    assert [SessionHandshake(id)][1..] == [];
  }

  /** Whether `p` names an identifier the directory does not hold. */
  predicate Unconfigured(config: ClusterConfiguration, p: Packet)
  {
    match p
    case SessionStart(id) => config.Get(id).None?
    case SessionHandshake(id) => config.Get(id).None?
    case _ => false
  }

  /** An unknown identifier ends the batch: what follows it is not looked at,
      and the packet itself changes nothing. */
  lemma {:induction false} UnconfiguredStopsBatch(s: State, config: ClusterConfiguration, self: Bytes, from: Endpoint, ps: seq<Packet>, j: nat)
    requires s.Valid() && j < |ps| && Unconfigured(config, ps[j])
    ensures HandleUnconnected(s, config, self, from, ps) == HandleUnconnected(s, config, self, from, ps[..j])
    decreases j
  {
    if j > 0 {
      match HandleHello(s, config, self, from, ps[0])
      case None =>
      case Some(s') =>
        assert ps[1..][j - 1] == ps[j];
        UnconfiguredStopsBatch(s', config, self, from, ps[1..], j - 1);
        assert ps[1..][..j - 1] == ps[..j][1..];
    }
  }

  /** Packets other than SessionStart and SessionHandshake from an unconnected
      address change nothing. */
  lemma {:induction false} OtherKindsCreateNothing(s: State, config: ClusterConfiguration, self: Bytes, from: Endpoint, ps: seq<Packet>)
    requires s.Valid()
    requires forall i :: 0 <= i < |ps| ==> ps[i].SessionClose? || ps[i].KeepAlive?
    ensures HandleUnconnected(s, config, self, from, ps) == s
    decreases |ps|
  {
    if ps != [] {
      assert ps[0].SessionClose? || ps[0].KeepAlive?;
      OtherKindsCreateNothing(s, config, self, from, ps[1..]);
    }
  }

  /** A configured node that says hello from its configured ipc address is
      online afterwards. */
  lemma HelloFromConfiguredAddressIsOnline(s: State, config: ClusterConfiguration, self: Bytes, id: Bytes, info: ServerInfo)
    requires s.Valid() && config.Get(id) == Some(info)
    ensures IsOnline(HandleUnconnected(s, config, self, IpcEndpoint(info), [SessionStart(id)]), config, id)
  {
    HelloConnectsAndAnswers(s, config, self, IpcEndpoint(info), id, info);
  }

  /** Connections are keyed by the sender's address, but `isClusterOnline`
      looks under the configured ipc address: a node whose hello comes from
      any other address stays offline however the session goes. */
  lemma HelloFromElsewhereStaysOffline(s: State, config: ClusterConfiguration, self: Bytes, from: Endpoint, id: Bytes, info: ServerInfo)
    requires s.Valid() && config.Get(id) == Some(info)
    requires from != IpcEndpoint(info) && !IsOnline(s, config, id)
    ensures !IsOnline(HandleUnconnected(s, config, self, from, [SessionStart(id)]), config, id)
    ensures !IsOnline(HandleUnconnected(s, config, self, from, [SessionHandshake(id)]), config, id)
  {
    HelloConnectsAndAnswers(s, config, self, from, id, info);
    HandshakeConnectsSilently(s, config, self, from, id, info);
  }

  // ----- packets from a connected address -----

  /** The receive-table entries for `frames` received from `from`, known as `info`. */
  function Receipts(from: Endpoint, info: ServerInfo, frames: seq<Bytes>): (r: seq<Received>)
    ensures |r| == |frames|
    ensures forall i :: 0 <= i < |frames| ==> r[i] == Received(from.ip, from.port, info, frames[i])
  {
    seq(|frames|, i requires 0 <= i < |frames| => Received(from.ip, from.port, info, frames[i]))
  }

  /** One more packet of a batch stored: the table gains its entry. */
  lemma DeliverStep(rp0: seq<Received>, from: Endpoint, info: ServerInfo, frames: seq<Bytes>, frame: Bytes)
    ensures rp0 + Receipts(from, info, frames) + [Received(from.ip, from.port, info, frame)]
         == rp0 + Receipts(from, info, frames + [frame])
  {
    assert Receipts(from, info, frames + [frame])
        == Receipts(from, info, frames) + [Received(from.ip, from.port, info, frame)];
  }

  lemma FramesSnoc(ps: seq<Packet>, i: nat)
    requires i < |ps|
    ensures Frames(ps[..i + 1]) == Frames(ps[..i]) + [Frame(ps[i])]
    ensures (SessionClose in ps[..i + 1]) <==> (SessionClose in ps[..i] || ps[i] == SessionClose)
  {
    assert ps[..i + 1] == ps[..i] + [ps[i]];
  }

  /** The connected branch of `onRun`: every packet stored for the controller
      under consecutive ids, one wakeup for the batch, and the connection
      removed afterwards if the batch held a SessionClose. An address that is
      no longer connected changes nothing. */
  function HandleConnected(s: State, from: Endpoint, ps: seq<Packet>): (r: State)
    requires s.Valid()
    ensures r.Valid()
    ensures from !in s.connections.items ==> r == s
    ensures from in s.connections.items ==> && |r.receivedPackets| == |s.receivedPackets| + |ps|
                                            && r.wakeups == s.wakeups + 1
    ensures r.connections.items.Keys <= s.connections.items.Keys
    ensures r.clientInfos == s.clientInfos && r.sendQueue == s.sendQueue
  {
    match s.connections.Get(from)
    case None => s
    case Some(info) => Deliver(s, from, info, Frames(ps), SessionClose in ps)
  }

  /** The frames of a batch from the connection `from`, known as `info`,
      stored under the next ids with one wakeup; the connection dropped after
      them when `closing`. */
  function Deliver(s: State, from: Endpoint, info: ServerInfo, frames: seq<Bytes>, closing: bool): (r: State)
    requires s.Valid()
    ensures r.Valid()
  {
    var stored := s.(receivedPackets := s.receivedPackets + Receipts(from, info, frames),
                     nextPacketId := s.nextPacketId + |frames|,
                     wakeups := s.wakeups + 1);
    if closing then Disconnect(stored, from) else stored
  }

  /** Every packet of a batch from a connected node is stored after the
      entries already there, which keep their ids, the `i`-th packet under id
      `nextPacketId + i`. */
  lemma ConnectedBatchStored(s: State, from: Endpoint, ps: seq<Packet>, info: ServerInfo)
    requires s.Valid() && s.connections.Get(from) == Some(info)
    ensures var r := HandleConnected(s, from, ps);
            && r.nextPacketId == s.nextPacketId + |ps|
            && r.FirstId() == s.FirstId()
            && |r.receivedPackets| == |s.receivedPackets| + |ps|
            && r.receivedPackets[..|s.receivedPackets|] == s.receivedPackets
            && (forall i :: 0 <= i < |ps| ==>
                  r.receivedPackets[|s.receivedPackets| + i] == Received(from.ip, from.port, info, Frame(ps[i])))
  {
    var frames := Frames(ps);
    var r := Deliver(s, from, info, frames, SessionClose in ps);
    assert HandleConnected(s, from, ps) == r;
    DeliverStores(s, from, info, frames, SessionClose in ps);
    forall i | 0 <= i < |ps|
      ensures r.receivedPackets[|s.receivedPackets| + i] == Received(from.ip, from.port, info, Frame(ps[i]))
    {
      assert frames[i] == Frame(ps[i]);
    }
  }

  /** A batch from a connected node wakes the controller once, and the node
      stays connected unless the batch held a SessionClose; the recorded
      addresses and the send queue are untouched. */
  lemma ConnectedBatchCloses(s: State, from: Endpoint, ps: seq<Packet>, info: ServerInfo)
    requires s.Valid() && s.connections.Get(from) == Some(info)
    ensures var r := HandleConnected(s, from, ps);
            && r.wakeups == s.wakeups + 1
            && r.connections.items == (if SessionClose in ps then s.connections.items - {from} else s.connections.items)
            && r.clientInfos == s.clientInfos && r.sendQueue == s.sendQueue
  {
    DeliverStores(s, from, info, Frames(ps), SessionClose in ps);
  }

  lemma DeliverStores(s: State, from: Endpoint, info: ServerInfo, frames: seq<Bytes>, closing: bool)
    requires s.Valid()
    ensures var r := Deliver(s, from, info, frames, closing);
            && r.nextPacketId == s.nextPacketId + |frames|
            && r.FirstId() == s.FirstId()
            && |r.receivedPackets| == |s.receivedPackets| + |frames|
            && r.receivedPackets[..|s.receivedPackets|] == s.receivedPackets
            && (forall i :: 0 <= i < |frames| ==>
                  r.receivedPackets[|s.receivedPackets| + i] == Received(from.ip, from.port, info, frames[i]))
            && r.wakeups == s.wakeups + 1
            && r.connections.items == (if closing then s.connections.items - {from} else s.connections.items)
            && r.clientInfos == s.clientInfos && r.sendQueue == s.sendQueue
  {
    var r := Deliver(s, from, info, frames, closing);
    PrefixSlice(s.receivedPackets, Receipts(from, info, frames));
  }

  // ----- one iteration of onRun -----

  /** What `socket_recvfrom` produced. `Reset`: errno 10054, with the address
      it left behind, if any. `RecvFailed`: any other error, whose
      SocketException escapes the thread. */
  datatype Receive =
    | WouldBlock
    | Reset(peer: Option<Endpoint>)
    | RecvFailed
    | Data(from: Endpoint, buffer: Bytes)

  /** `Continued`: the loop goes round again. `Exited`: `kill` stopped it.
      `Faulted`: an exception escaped `onRun` and the thread is dead. */
  datatype StepResult = Continued | Exited | Faulted

  datatype StepOutcome = StepOutcome(result: StepResult, sent: seq<Outgoing>, state: State)

  /** A received batch handled by the branch the sender's address selects. */
  function Dispatch(s: State, config: ClusterConfiguration, self: Bytes, from: Endpoint, ps: seq<Packet>): (r: State)
    requires s.Valid()
    ensures r.Valid()
    ensures from !in s.connections.items ==> r.receivedPackets == s.receivedPackets && r.wakeups == s.wakeups
    ensures from in s.connections.items ==> r.clientInfos == s.clientInfos && r.sendQueue == s.sendQueue
  {
    if from !in s.connections.items then HandleUnconnected(s, config, self, from, ps)
    else HandleConnected(s, from, ps)
  }

  /** One pass of the `onRun` loop after `wait` returns: flush, the kill
      check, one receive and its handling. */
  function Step(s: State, config: ClusterConfiguration, self: Bytes, registry: map<Bytes, Kind>,
                recv: Receive, refused: set<Endpoint>): (r: StepOutcome)
    requires s.Valid()
    ensures r.state.Valid()
    ensures r.sent == Flush(s.sendQueue, refused).sent
    ensures r.result == Faulted <==> || !Flush(s.sendQueue, refused).ok
                                     || (!s.kill && (recv.RecvFailed? || (recv.Data? && ReadFrames(registry, recv.buffer, 0).Malformed?)))
    ensures r.result == Exited <==> Flush(s.sendQueue, refused).ok && s.kill
  {
    var f := Flush(s.sendQueue, refused);
    var s1 := s.(sendQueue := f.queue);
    if !f.ok then StepOutcome(Faulted, f.sent, s1)
    else if s1.kill then StepOutcome(Exited, f.sent, s1)
    else
      match recv
      case WouldBlock => StepOutcome(Continued, f.sent, s1)
      case Reset(from) => StepOutcome(Continued, f.sent, if from.Some? then Disconnect(s1, from.value) else s1)
      case RecvFailed => StepOutcome(Faulted, f.sent, s1)
      case Data(from, buffer) =>
        match ReadFrames(registry, buffer, 0)
        case Malformed => StepOutcome(Faulted, f.sent, s1)
        case Unknown(_) => StepOutcome(Continued, f.sent, s1)
        case Decoded(ps) => StepOutcome(Continued, f.sent, Dispatch(s1, config, self, from, ps))
  }

  /** A datagram holding a frame with an unregistered id is dropped whole:
      after the flush nothing changes, whoever sent it, even when frames
      before the bad one decoded. */
  lemma UnknownDatagramIgnored(s: State, config: ClusterConfiguration, self: Bytes, registry: map<Bytes, Kind>,
                               from: Endpoint, ps: seq<Packet>, id: Bytes, tail: Bytes)
    requires s.Valid() && !s.kill && AllRegistered(registry, ps) && id !in registry
    ensures var buffer := Datagram(ps) + (UnsignedVarInt(|id|) + id + tail);
            Step(s, config, self, registry, Data(from, buffer), {})
              == StepOutcome(Continued, Datagrams(s.sendQueue), s.(sendQueue := Empty()))
  {
    var buffer := Datagram(ps) + (UnsignedVarInt(|id|) + id + tail);
    UnknownFrameDropsDatagram(registry, ps, id, tail);
    FlushNothingRefused(s.sendQueue);
    UnknownBufferIgnored(s, config, self, registry, from, buffer, {});
  }

  /** With no send refused, the flush sends every datagram and empties the queue. */
  lemma FlushNothingRefused(q: Queue)
    requires q.Valid()
    ensures Flush(q, {}) == FlushResult(Datagrams(q), true, Empty())
  {
  }

  lemma UnknownBufferIgnored(s: State, config: ClusterConfiguration, self: Bytes, registry: map<Bytes, Kind>,
                             from: Endpoint, buffer: Bytes, refused: set<Endpoint>)
    requires s.Valid() && !s.kill && Flush(s.sendQueue, refused).ok && ReadFrames(registry, buffer, 0).Unknown?
    ensures Step(s, config, self, registry, Data(from, buffer), refused)
         == StepOutcome(Continued, Flush(s.sendQueue, refused).sent, s.(sendQueue := Flush(s.sendQueue, refused).queue))
  {
  }
}
