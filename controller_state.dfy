/** ClusterIPC, the controller on the server's main thread, as values: what
    the drain closure and `tick` do to the controller's own fields and to the
    worker's tables. Time is the integer `now` passed in; the host events the
    controller fires are appended to `events`. */
module ControllerState {
  import opened Options
  import opened SeqFacts
  import opened BinaryStream
  import opened OrderedMaps
  import opened Packets
  import opened PacketPool
  import opened Configuration
  import opened Framing
  import opened WorkerState

  /** ClusterDisconnectedEvent and ClusterPacketReceiveEvent, with what they carry. */
  datatype Event =
    | ClusterDisconnected(info: ServerInfo)
    | ClusterPacketReceived(info: ServerInfo, packet: Packet)

  /** The controller's fields. `lastKeepAliveResponse` is keyed by cluster
      identifier; the two connection tables are copies of the worker's
      `connections`, keyed by "ip:port". */
  datatype Controller = Controller(
    lastKeepAlive: int,
    lastCheckConnections: int,
    lastKeepAliveResponse: map<Bytes, int>,
    lastSeenConnections: OrderedMap<Endpoint, ServerInfo>,
    onlineClusters: OrderedMap<Endpoint, ServerInfo>,
    optionForceKill: bool,
    events: seq<Event>)
  {
    ghost predicate Valid()
    {
      lastSeenConnections.Valid() && onlineClusters.Valid()
    }
  }

  /** The fields as the constructor leaves them; `lastKeepAliveResponse`,
      which it does not assign, starts empty. */
  function InitialController(): (r: Controller)
    ensures r.Valid() && r.lastKeepAliveResponse == map[] && r.events == []
  {
    Controller(0, 0, map[], Empty(), Empty(), false, [])
  }

  // ----- the drain closure -----

  /** A decoded packet from the node `from`, handled: a KeepAlive response
      records the time, a KeepAlive request is answered, and every packet,
      KeepAlive included, is passed to a ClusterPacketReceiveEvent. */
  function HandleEntry(c: Controller, w: State, from: ServerInfo, p: Packet, now: int): (r: (Controller, State))
    requires w.Valid()
    ensures r.1.Valid()
    ensures r.0.events == c.events + [ClusterPacketReceived(from, p)]
    ensures r.0.(events := c.events, lastKeepAliveResponse := c.lastKeepAliveResponse) == c
    ensures r.1.(sendQueue := w.sendQueue) == w
  {
    var c' := c.(events := c.events + [ClusterPacketReceived(from, p)]);
    match p
    case KeepAlive(true) => (c'.(lastKeepAliveResponse := c.lastKeepAliveResponse[from.identifier := now]), w)
    case KeepAlive(false) => (c', WorkerState.SendPacket(w, from.identifier, KeepAlive(true)))
    case _ => (c', w)
  }

  /** How a drain ended. `Abandoned`: an entry named an unregistered id and
      the closure returned. `Escaped`: an entry's header ran past its bytes
      and the exception left the closure. */
  datatype DrainEnd = Finished | Abandoned(id: Bytes) | Escaped

  datatype Drained = Drained(end: DrainEnd, ctl: Controller, worker: State)

  /** What one fetched entry does: the drain either stops with `end` or goes
      on from the new controller and worker. */
  datatype EntryOutcome = Stop(end: DrainEnd) | Go(ctl: Controller, worker: State)

  /** One fetched entry handled: its bytes read from offset 0 with the
      packet pool; an entry too short for its header escapes, an unknown id
      abandons the drain, a payload that fails to decode is skipped. */
  function HandleStored(c: Controller, w: State, registry: map<Bytes, Kind>, entry: Received, now: int): (r: EntryOutcome)
    requires w.Valid()
    ensures r.Go? ==> r.worker.Valid()
    ensures r.Stop? <==> ReadFrame(registry, entry.packet, 0).Truncated? || ReadFrame(registry, entry.packet, 0).UnknownId?
    ensures ReadFrame(registry, entry.packet, 0) == BadPayload ==> r == Go(c, w)
    ensures r.Go? ==> && c.events <= r.ctl.events && |r.ctl.events| <= |c.events| + 1
                      && r.ctl.(events := c.events, lastKeepAliveResponse := c.lastKeepAliveResponse) == c
                      && r.worker.(sendQueue := w.sendQueue) == w
  {
    match ReadFrame(registry, entry.packet, 0)
    case Truncated => Stop(Escaped)
    case UnknownId(id) => Stop(Abandoned(id))
    case BadPayload => Go(c, w)
    case Framed(p, _) =>
      var h := HandleEntry(c, w, entry.clusterInfo, p, now);
      Go(h.0, h.1)
  }

  /** The fetched entries handled in order. */
  function DrainEntries(c: Controller, w: State, registry: map<Bytes, Kind>, batch: seq<Received>, now: int): (r: Drained)
    requires w.Valid()
    ensures r.worker.Valid()
    ensures c.events <= r.ctl.events && |r.ctl.events| <= |c.events| + |batch|
    ensures r.ctl.(events := c.events, lastKeepAliveResponse := c.lastKeepAliveResponse) == c
    ensures r.worker.(sendQueue := w.sendQueue) == w
    decreases |batch|
  {
    if batch == [] then Drained(Finished, c, w)
    else
      var o := HandleStored(c, w, registry, batch[0], now);
      if o.Stop? then Drained(o.end, c, w)
      else DrainEntries(o.ctl, o.worker, registry, batch[1..], now)
  }

  /** The drain closure: every stored entry fetched from the worker at once,
      then handled in id order. */
  function Drain(c: Controller, w: State, registry: map<Bytes, Kind>, now: int): (r: Drained)
    requires w.Valid()
    ensures r.worker.Valid()
    ensures r.worker.receivedPackets == []
    ensures r.worker.connections == w.connections && r.worker.clientInfos == w.clientInfos
    ensures c.events <= r.ctl.events && |r.ctl.events| <= |c.events| + |w.receivedPackets|
    ensures r.ctl.(events := c.events, lastKeepAliveResponse := c.lastKeepAliveResponse) == c
  {
    DrainEntries(c, w.(receivedPackets := []), registry, w.receivedPackets, now)
  }

  /** The drain with `i` entries handled: what is left is entry `i`, then the rest. */
  lemma DrainEntriesStep(c: Controller, w: State, registry: map<Bytes, Kind>, batch: seq<Received>, i: nat, now: int)
    requires w.Valid() && i < |batch|
    ensures HandleStored(c, w, registry, batch[i], now).Stop? ==>
              DrainEntries(c, w, registry, batch[i..], now)
              == Drained(HandleStored(c, w, registry, batch[i], now).end, c, w)
    ensures HandleStored(c, w, registry, batch[i], now).Go? ==>
              DrainEntries(c, w, registry, batch[i..], now)
              == DrainEntries(HandleStored(c, w, registry, batch[i], now).ctl,
                              HandleStored(c, w, registry, batch[i], now).worker, registry, batch[i + 1..], now)
  {
    assert batch[i..][0] == batch[i];
    assert batch[i..][1..] == batch[i + 1..];
  }

  /** The ClusterPacketReceiveEvents for `ps`, each with the sender stored beside it. */
  function ReceiveEvents(batch: seq<Received>, ps: seq<Packet>): (r: seq<Event>)
    requires |batch| == |ps|
    ensures |r| == |ps|
    ensures forall i :: 0 <= i < |ps| ==> r[i] == ClusterPacketReceived(batch[i].clusterInfo, ps[i])
  {
    seq(|ps|, i requires 0 <= i < |ps| => ClusterPacketReceived(batch[i].clusterInfo, ps[i]))
  }

  /** Entries holding the frames of registered packets, as the worker stores
      them, are all delivered: the drain finishes and fires one
      ClusterPacketReceiveEvent per entry, in order, with the entry's sender
      and the packet its frame carries. */
  lemma {:induction false} DrainDeliversStoredPackets(c: Controller, w: State, registry: map<Bytes, Kind>,
                                                      batch: seq<Received>, ps: seq<Packet>, now: int)
    requires w.Valid() && |batch| == |ps|
    requires forall i :: 0 <= i < |ps| ==> batch[i].packet == Frame(ps[i])
    requires forall i :: 0 <= i < |ps| ==> Lookup(registry, ps[i].GetId()) == Some(ps[i].KindOf())
    ensures DrainEntries(c, w, registry, batch, now).end == Finished
    ensures DrainEntries(c, w, registry, batch, now).ctl.events == c.events + ReceiveEvents(batch, ps)
    decreases |batch|
  {
    if batch == [] {
      EmptyRight(c.events);
    } else {
      var h := HandleEntry(c, w, batch[0].clusterInfo, ps[0], now);
      DrainHead(c, w, registry, batch, ps[0], now);
      StoredTail(registry, batch, ps);
      DrainDeliversStoredPackets(h.0, h.1, registry, batch[1..], ps[1..], now);
      ReceiveEventsCons(batch, ps);
      Assoc(c.events, [ClusterPacketReceived(batch[0].clusterInfo, ps[0])], ReceiveEvents(batch[1..], ps[1..]));
    }
  }

  /** A first entry holding a registered packet's frame is handled and the drain goes on. */
  lemma DrainHead(c: Controller, w: State, registry: map<Bytes, Kind>, batch: seq<Received>, p: Packet, now: int)
    requires w.Valid() && batch != [] && batch[0].packet == Frame(p)
    requires Lookup(registry, p.GetId()) == Some(p.KindOf())
    ensures var h := HandleEntry(c, w, batch[0].clusterInfo, p, now);
            DrainEntries(c, w, registry, batch, now) == DrainEntries(h.0, h.1, registry, batch[1..], now)
  {
    FrameRoundTrip(registry, p, [], []);
    EmptyLeft(Frame(p));
    EmptyRight(Frame(p));
  }

  /** The rest of a batch of stored frames is a batch of stored frames. */
  lemma StoredTail(registry: map<Bytes, Kind>, batch: seq<Received>, ps: seq<Packet>)
    requires |batch| == |ps| && ps != []
    requires forall i :: 0 <= i < |ps| ==> batch[i].packet == Frame(ps[i])
    requires forall i :: 0 <= i < |ps| ==> Lookup(registry, ps[i].GetId()) == Some(ps[i].KindOf())
    ensures forall i :: 0 <= i < |ps| - 1 ==> batch[1..][i].packet == Frame(ps[1..][i])
    ensures forall i :: 0 <= i < |ps| - 1 ==> Lookup(registry, ps[1..][i].GetId()) == Some(ps[1..][i].KindOf())
  {
    forall i | 0 <= i < |ps| - 1
      ensures batch[1..][i].packet == Frame(ps[1..][i])
      ensures Lookup(registry, ps[1..][i].GetId()) == Some(ps[1..][i].KindOf())
    {
      assert batch[1..][i] == batch[i + 1] && ps[1..][i] == ps[i + 1];
    }
  }

  lemma ReceiveEventsCons(batch: seq<Received>, ps: seq<Packet>)
    requires |batch| == |ps| && ps != []
    ensures ReceiveEvents(batch, ps) == [ClusterPacketReceived(batch[0].clusterInfo, ps[0])] + ReceiveEvents(batch[1..], ps[1..])
  {
  }

  /** From a connected node's datagram to the host: with nothing stored
      before, every packet of a batch the worker accepted from connection
      `from`, known as `info`, reaches the controller's drain, which finishes
      and fires one ClusterPacketReceiveEvent per packet, in order, naming
      `info`. */
  lemma {:induction false} ConnectedBatchReachesHost(c: Controller, s: State, from: Endpoint, info: ServerInfo,
                                                     ps: seq<Packet>, now: int)
    requires s.Valid() && s.connections.Get(from) == Some(info) && s.receivedPackets == []
    ensures var w := HandleConnected(s, from, ps);
            var d := Drain(c, w, ControlRegistry(), now);
            && d.end == Finished
            && d.ctl.events == c.events + ReceiveEvents(w.receivedPackets, ps)
            && forall i :: 0 <= i < |ps| ==> d.ctl.events[|c.events| + i] == ClusterPacketReceived(info, ps[i])
  {
    var w := HandleConnected(s, from, ps);
    ConnectedBatchStored(s, from, ps, info);
    var batch := w.receivedPackets;
    forall i | 0 <= i < |ps|
      ensures batch[i].packet == Frame(ps[i])
      ensures Lookup(ControlRegistry(), ps[i].GetId()) == Some(ps[i].KindOf())
    {
      assert batch[0 + i] == Received(from.ip, from.port, info, Frame(ps[i]));
      ControlRegistryHoldsAllKinds(ps[i].KindOf());
    }
    DrainDeliversStoredPackets(c, w.(receivedPackets := []), ControlRegistry(), batch, ps, now);
    forall i | 0 <= i < |ps|
      ensures batch[i].clusterInfo == info
    {
      assert batch[0 + i] == Received(from.ip, from.port, info, Frame(ps[i]));
    }
  }

  /** An entry whose id is not registered ends the drain: the entries after
      it are lost, and it changes nothing itself. */
  lemma {:induction false} UnknownEntryAbandonsRest(c: Controller, w: State, registry: map<Bytes, Kind>,
                                                    batch: seq<Received>, j: nat, now: int)
    requires w.Valid() && j < |batch| && ReadFrame(registry, batch[j].packet, 0).UnknownId?
    ensures var r, before := DrainEntries(c, w, registry, batch, now), DrainEntries(c, w, registry, batch[..j], now);
            && r.ctl == before.ctl && r.worker == before.worker
            && r.end == if before.end == Finished then Abandoned(ReadFrame(registry, batch[j].packet, 0).id) else before.end
    decreases j
  {
    if j > 0 {
      assert batch[..j][0] == batch[0];
      assert batch[..j][1..] == batch[1..][..j - 1];
      assert batch[1..][j - 1] == batch[j];
      var o := HandleStored(c, w, registry, batch[0], now);
      if o.Go? {
        UnknownEntryAbandonsRest(o.ctl, o.worker, registry, batch[1..], j - 1, now);
      }
    }
  }

  /** An entry whose payload fails to decode is skipped: the drain goes on
      as if it were not there. */
  lemma {:induction false} BadEntrySkipped(c: Controller, w: State, registry: map<Bytes, Kind>,
                                           batch: seq<Received>, j: nat, now: int)
    requires w.Valid() && j < |batch| && ReadFrame(registry, batch[j].packet, 0) == BadPayload
    ensures DrainEntries(c, w, registry, batch, now) == DrainEntries(c, w, registry, batch[..j] + batch[j + 1..], now)
    decreases j
  {
    var rest := batch[..j] + batch[j + 1..];
    if j == 0 {
      assert rest == batch[1..];
    } else {
      assert rest[0] == batch[0];
      assert rest[1..] == batch[1..][..j - 1] + batch[1..][j..];
      assert batch[1..][j - 1] == batch[j];
      var o := HandleStored(c, w, registry, batch[0], now);
      if o.Go? {
        BadEntrySkipped(o.ctl, o.worker, registry, batch[1..], j - 1, now);
      }
    }
  }

  /** A stored KeepAlive response from `from` records `now` as that node's
      last response and is still passed to the event. */
  lemma KeepAliveResponseRecorded(c: Controller, w: State, registry: map<Bytes, Kind>, entry: Received, now: int)
    requires w.Valid() && entry.packet == Frame(KeepAlive(true))
    requires Lookup(registry, KeepAliveId) == Some(KeepAliveKind)
    ensures DrainEntries(c, w, registry, [entry], now)
         == Drained(Finished,
                    c.(lastKeepAliveResponse := c.lastKeepAliveResponse[entry.clusterInfo.identifier := now],
                       events := c.events + [ClusterPacketReceived(entry.clusterInfo, KeepAlive(true))]),
                    w)
  {
    FrameRoundTrip(registry, KeepAlive(true), [], []);
    EmptyLeft(Frame(KeepAlive(true)));
    EmptyRight(Frame(KeepAlive(true)));
  }

  /** A stored KeepAlive request from `from` queues a KeepAlive response to
      the address recorded for that node, and is still passed to the event. */
  lemma KeepAliveRequestAnswered(c: Controller, w: State, registry: map<Bytes, Kind>, entry: Received, now: int)
    requires w.Valid() && entry.packet == Frame(KeepAlive(false))
    requires Lookup(registry, KeepAliveId) == Some(KeepAliveKind)
    ensures DrainEntries(c, w, registry, [entry], now)
         == Drained(Finished,
                    c.(events := c.events + [ClusterPacketReceived(entry.clusterInfo, KeepAlive(false))]),
                    WorkerState.SendPacket(w, entry.clusterInfo.identifier, KeepAlive(true)))
  {
    FrameRoundTrip(registry, KeepAlive(false), [], []);
    EmptyLeft(Frame(KeepAlive(false)));
    EmptyRight(Frame(KeepAlive(false)));
  }

  // ----- tick: the membership diff -----

  /** A ClusterDisconnectedEvent for each of `infos`, in order. */
  function DisconnectedEvents(infos: seq<ServerInfo>): (r: seq<Event>)
    ensures |r| == |infos|
    decreases |infos|
  {
    if infos == [] then []
    else DisconnectedEvents(infos[..|infos| - 1]) + [ClusterDisconnected(infos[|infos| - 1])]
  }

  lemma {:induction false} DisconnectedEventsAt(infos: seq<ServerInfo>, i: nat)
    requires i < |infos|
    ensures DisconnectedEvents(infos)[i] == ClusterDisconnected(infos[i])
    decreases |infos|
  {
    if i < |infos| - 1 {
      var init := infos[..|infos| - 1];
      DisconnectedEventsAt(init, i);
      assert init[i] == infos[i];
    }
  }

  /** The keep-alive entries of `infos`' identifiers removed, one after another. */
  function Forget(resp: map<Bytes, int>, infos: seq<ServerInfo>): (r: map<Bytes, int>)
    decreases |infos|
  {
    if infos == [] then resp
    else Forget(resp, infos[..|infos| - 1]) - {infos[|infos| - 1].identifier}
  }

  /** The keep-alive entries of `infos`' identifiers set to `now`, one after another. */
  function Remember(resp: map<Bytes, int>, infos: seq<ServerInfo>, now: int): (r: map<Bytes, int>)
    decreases |infos|
  {
    if infos == [] then resp
    else Remember(resp, infos[..|infos| - 1], now)[infos[|infos| - 1].identifier := now]
  }

  /** Whether some member of `infos` carries the identifier `id`. */
  predicate Names(infos: seq<ServerInfo>, id: Bytes)
  {
    exists i :: 0 <= i < |infos| && infos[i].identifier == id
  }

  /** `Forget` removes exactly the identifiers of `infos`. */
  lemma {:induction false} ForgetExactly(resp: map<Bytes, int>, infos: seq<ServerInfo>, id: Bytes)
    ensures id in Forget(resp, infos) <==> id in resp && !Names(infos, id)
    ensures id in Forget(resp, infos) ==> Forget(resp, infos)[id] == resp[id]
    decreases |infos|
  {
    if infos != [] {
      var init := infos[..|infos| - 1];
      ForgetExactly(resp, init, id);
      NamesSnoc(infos, id);
    }
  }

  /** `Remember` sets exactly the identifiers of `infos` to `now`. */
  lemma {:induction false} RememberExactly(resp: map<Bytes, int>, infos: seq<ServerInfo>, now: int, id: Bytes)
    ensures id in Remember(resp, infos, now) <==> id in resp || Names(infos, id)
    ensures Names(infos, id) ==> Remember(resp, infos, now)[id] == now
    ensures !Names(infos, id) && id in resp ==> Remember(resp, infos, now)[id] == resp[id]
    decreases |infos|
  {
    if infos != [] {
      var init := infos[..|infos| - 1];
      RememberExactly(resp, init, now, id);
      NamesSnoc(infos, id);
    }
  }

  lemma NamesSnoc(infos: seq<ServerInfo>, id: Bytes)
    requires infos != []
    ensures Names(infos, id) <==> Names(infos[..|infos| - 1], id) || infos[|infos| - 1].identifier == id
  {
    var init := infos[..|infos| - 1];
    if Names(init, id) {
      var i :| 0 <= i < |init| && init[i].identifier == id;
      assert infos[i] == init[i];
    }
    if Names(infos, id) {
      var i :| 0 <= i < |infos| && infos[i].identifier == id;
      if i < |init| {
        assert init[i] == infos[i];
      }
    }
  }

  /** The entries of `seen` whose key `other` lacks, as `array_diff_key`
      gives them, in `seen`'s order. */
  function Missing(seen: OrderedMap<Endpoint, ServerInfo>, other: OrderedMap<Endpoint, ServerInfo>): (r: seq<ServerInfo>)
    requires seen.Valid()
  {
    seen.DiffKey(other).Values()
  }

  /** The membership diff of `tick` against the worker's connection table
      `seen`: a ClusterDisconnectedEvent for every entry that vanished and
      then for every entry that is new (both kinds fire the same event), the
      keep-alive entries of the vanished cleared and those of the new set to
      `now`, and both copies replaced by `seen`. */
  function MembershipDiff(c: Controller, seen: OrderedMap<Endpoint, ServerInfo>, now: int): (r: Controller)
    requires c.Valid() && seen.Valid()
    ensures r.Valid()
    ensures r.lastSeenConnections == seen && r.onlineClusters == seen
    ensures r.lastKeepAlive == c.lastKeepAlive && r.lastCheckConnections == c.lastCheckConnections
    ensures r.optionForceKill == c.optionForceKill && c.events <= r.events
  {
    var gone := Missing(c.lastSeenConnections, seen);
    var arrived := Missing(seen, c.lastSeenConnections);
    c.(events := c.events + DisconnectedEvents(gone) + DisconnectedEvents(arrived),
       lastKeepAliveResponse := Remember(Forget(c.lastKeepAliveResponse, gone), arrived, now),
       lastSeenConnections := seen,
       onlineClusters := seen)
  }

  /** A member of `Missing(seen, other)`: exactly the entries of `seen` under
      keys `other` lacks. */
  lemma MissingHolds(seen: OrderedMap<Endpoint, ServerInfo>, other: OrderedMap<Endpoint, ServerInfo>, k: Endpoint)
    requires seen.Valid() && k in seen.items && k !in other.items
    ensures exists i :: 0 <= i < |Missing(seen, other)| && Missing(seen, other)[i] == seen.items[k]
  {
    var d := seen.DiffKey(other);
    assert k in d.items;
    assert k in d.order;
    var i :| 0 <= i < |d.order| && d.order[i] == k;
    assert Missing(seen, other)[i] == seen.items[k];
  }

  /** A member of `infos` has its ClusterDisconnectedEvent among `DisconnectedEvents(infos)`. */
  lemma DisconnectedEventFor(infos: seq<ServerInfo>, k: Endpoint, m: OrderedMap<Endpoint, ServerInfo>, other: OrderedMap<Endpoint, ServerInfo>)
    requires m.Valid() && k in m.items && k !in other.items && infos == Missing(m, other)
    ensures ClusterDisconnected(m.items[k]) in DisconnectedEvents(infos)
  {
    MissingHolds(m, other, k);
    var i :| 0 <= i < |infos| && infos[i] == m.items[k];
    DisconnectedEventsAt(infos, i);
  }

  /** The events the diff adds: those for the vanished entries, then those for the new. */
  lemma DiffEvents(c: Controller, seen: OrderedMap<Endpoint, ServerInfo>, now: int)
    requires c.Valid() && seen.Valid()
    ensures MembershipDiff(c, seen, now).events[|c.events|..]
         == DisconnectedEvents(Missing(c.lastSeenConnections, seen)) + DisconnectedEvents(Missing(seen, c.lastSeenConnections))
  {
    var added := DisconnectedEvents(Missing(c.lastSeenConnections, seen)) + DisconnectedEvents(Missing(seen, c.lastSeenConnections));
    Assoc(c.events, DisconnectedEvents(Missing(c.lastSeenConnections, seen)), DisconnectedEvents(Missing(seen, c.lastSeenConnections)));
    assert (c.events + added)[|c.events|..] == added;
  }

  /** A connection that vanished fires a ClusterDisconnectedEvent carrying its info. */
  lemma DiffFiresForVanished(c: Controller, seen: OrderedMap<Endpoint, ServerInfo>, now: int, k: Endpoint)
    requires c.Valid() && seen.Valid()
    requires k in c.lastSeenConnections.items && k !in seen.items
    ensures ClusterDisconnected(c.lastSeenConnections.items[k]) in MembershipDiff(c, seen, now).events[|c.events|..]
  {
    DiffEvents(c, seen, now);
    DisconnectedEventFor(Missing(c.lastSeenConnections, seen), k, c.lastSeenConnections, seen);
  }

  /** A connection that is new fires a ClusterDisconnectedEvent too, carrying its info. */
  lemma DiffFiresForNew(c: Controller, seen: OrderedMap<Endpoint, ServerInfo>, now: int, k: Endpoint)
    requires c.Valid() && seen.Valid()
    requires k in seen.items && k !in c.lastSeenConnections.items
    ensures ClusterDisconnected(seen.items[k]) in MembershipDiff(c, seen, now).events[|c.events|..]
  {
    DiffEvents(c, seen, now);
    DisconnectedEventFor(Missing(seen, c.lastSeenConnections), k, seen, c.lastSeenConnections);
  }

  /** After the diff, a node that is new has its keep-alive time set to
      `now`; a node that only vanished has none; every other entry is kept. */
  lemma DiffResetsKeepAlive(c: Controller, seen: OrderedMap<Endpoint, ServerInfo>, now: int, id: Bytes)
    requires c.Valid() && seen.Valid()
    ensures var gone, arrived := Missing(c.lastSeenConnections, seen), Missing(seen, c.lastSeenConnections);
            var resp, old_ := MembershipDiff(c, seen, now).lastKeepAliveResponse, c.lastKeepAliveResponse;
            && (Names(arrived, id) ==> id in resp && resp[id] == now)
            && (!Names(arrived, id) && Names(gone, id) ==> id !in resp)
            && (!Names(arrived, id) && !Names(gone, id) ==> (id in resp <==> id in old_))
            && (!Names(arrived, id) && !Names(gone, id) && id in old_ ==> resp[id] == old_[id])
  {
    var gone, arrived := Missing(c.lastSeenConnections, seen), Missing(seen, c.lastSeenConnections);
    ForgetExactly(c.lastKeepAliveResponse, gone, id);
    RememberExactly(Forget(c.lastKeepAliveResponse, gone), arrived, now, id);
  }

  // ----- tick: the keep-alive sweep -----

  /** Keep-alive entries and worker tables after a sweep visiting `infos` in
      order: a node whose last response (0 when none) is more than 15 + 5
      seconds old is disconnected under its configured ipc address, and its
      keep-alive entry cleared. */
  function Sweep(resp: map<Bytes, int>, w: State, infos: seq<ServerInfo>, now: int): (r: (map<Bytes, int>, State))
    requires w.Valid()
    ensures r.1.Valid()
    ensures r.1.connections.items.Keys <= w.connections.items.Keys && r.0.Keys <= resp.Keys
    ensures r.1.(connections := w.connections) == w
    decreases |infos|
  {
    if infos == [] then (resp, w)
    else
      var (resp', w') := Sweep(resp, w, infos[..|infos| - 1], now);
      SweepOne(resp', w', infos[|infos| - 1], now)
  }

  /** The sweep's visit of one connection, known as `info`. */
  function SweepOne(resp: map<Bytes, int>, w: State, info: ServerInfo, now: int): (r: (map<Bytes, int>, State))
    requires w.Valid()
    ensures r.1.Valid()
    ensures r.1.connections.items.Keys <= w.connections.items.Keys && r.0.Keys <= resp.Keys
    ensures r.1.(connections := w.connections) == w
  {
    var lastResponse := if info.identifier in resp then resp[info.identifier] else 0;
    if now - lastResponse > 15 + 5 then (resp - {info.identifier}, Disconnect(w, IpcEndpoint(info)))
    else (resp, w)
  }

  lemma SweepSnoc(resp: map<Bytes, int>, w: State, infos: seq<ServerInfo>, i: nat, now: int)
    requires w.Valid() && i < |infos|
    ensures Sweep(resp, w, infos[..i + 1], now)
         == SweepOne(Sweep(resp, w, infos[..i], now).0, Sweep(resp, w, infos[..i], now).1, infos[i], now)
  {
    assert infos[..i + 1][..i] == infos[..i];
  }

  /** The sweep only removes: connections and keep-alive entries, nothing
      else in the worker's tables changes, and the recorded addresses stay. */
  lemma {:induction false} SweepOnlyRemoves(resp: map<Bytes, int>, w: State, infos: seq<ServerInfo>, now: int)
    requires w.Valid()
    ensures var (resp', w') := Sweep(resp, w, infos, now);
            && w'.connections.items.Keys <= w.connections.items.Keys
            && (forall k :: k in w'.connections.items ==> w'.connections.items[k] == w.connections.items[k])
            && w'.(connections := w.connections) == w
            && resp'.Keys <= resp.Keys
            && (forall id :: id in resp' ==> resp'[id] == resp[id])
    decreases |infos|
  {
    if infos != [] {
      SweepOnlyRemoves(resp, w, infos[..|infos| - 1], now);
    }
  }

  /** When every visited node has answered within 15 + 5 seconds, the sweep
      disconnects nothing. */
  lemma {:induction false} SweepKeepsLiveConnections(resp: map<Bytes, int>, w: State, infos: seq<ServerInfo>, now: int)
    requires w.Valid()
    requires forall i :: 0 <= i < |infos| ==> infos[i].identifier in resp && now - resp[infos[i].identifier] <= 15 + 5
    ensures Sweep(resp, w, infos, now) == (resp, w)
    decreases |infos|
  {
    if infos != [] {
      var init := infos[..|infos| - 1];
      forall i | 0 <= i < |init|
        ensures init[i].identifier in resp && now - resp[init[i].identifier] <= 15 + 5
      {
        assert init[i] == infos[i];
      }
      SweepKeepsLiveConnections(resp, w, init, now);
    }
  }

  /** A visited node with no response for more than 15 + 5 seconds loses the
      connection under its configured ipc address, and its keep-alive entry.
      (Response times are never negative.) */
  lemma {:induction false} SweepDropsSilentNode(resp: map<Bytes, int>, w: State, infos: seq<ServerInfo>, now: int, j: nat)
    requires w.Valid() && j < |infos|
    requires forall id :: id in resp ==> 0 <= resp[id]
    requires now - (if infos[j].identifier in resp then resp[infos[j].identifier] else 0) > 15 + 5
    ensures IpcEndpoint(infos[j]) !in Sweep(resp, w, infos, now).1.connections.items
    ensures infos[j].identifier !in Sweep(resp, w, infos, now).0
    decreases |infos|
  {
    var init := infos[..|infos| - 1];
    if j < |init| {
      assert init[j] == infos[j];
      SweepDropsSilentNode(resp, w, init, now, j);
      SweepLast(resp, w, infos, now);
    } else {
      SweepDropsLast(resp, w, infos, now);
    }
  }

  /** The last visit of a sweep drops a silent node. */
  lemma SweepDropsLast(resp: map<Bytes, int>, w: State, infos: seq<ServerInfo>, now: int)
    requires w.Valid() && infos != []
    requires forall id :: id in resp ==> 0 <= resp[id]
    requires now - (if infos[|infos| - 1].identifier in resp then resp[infos[|infos| - 1].identifier] else 0) > 15 + 5
    ensures IpcEndpoint(infos[|infos| - 1]) !in Sweep(resp, w, infos, now).1.connections.items
    ensures infos[|infos| - 1].identifier !in Sweep(resp, w, infos, now).0
  {
    var init := infos[..|infos| - 1];
    var info := infos[|infos| - 1];
    var before := Sweep(resp, w, init, now);
    SweepOnlyRemoves(resp, w, init, now);
    var id := info.identifier;
    assert id in before.0 ==> before.0[id] == resp[id];
    assert now - (if id in before.0 then before.0[id] else 0) > 15 + 5;
  }

  /** The last visit of a sweep, and what it can remove. */
  lemma SweepLast(resp: map<Bytes, int>, w: State, infos: seq<ServerInfo>, now: int)
    requires w.Valid() && infos != []
    ensures var before := Sweep(resp, w, infos[..|infos| - 1], now);
            var after := Sweep(resp, w, infos, now);
            && after == SweepOne(before.0, before.1, infos[|infos| - 1], now)
            && after.1.connections.items.Keys <= before.1.connections.items.Keys
            && after.0.Keys <= before.0.Keys
  {
    var before := Sweep(resp, w, infos[..|infos| - 1], now);
    SweepOneOnlyRemoves(before.0, before.1, infos[|infos| - 1], now);
  }

  /** One visit only removes, from the connections and the keep-alive entries. */
  lemma SweepOneOnlyRemoves(resp: map<Bytes, int>, w: State, info: ServerInfo, now: int)
    requires w.Valid()
    ensures SweepOne(resp, w, info, now).1.connections.items.Keys <= w.connections.items.Keys
    ensures SweepOne(resp, w, info, now).0.Keys <= resp.Keys
  {
  }

  /** The sweep disconnects by configured ipc address, not by table key: a
      silent node whose only connection sits under another address (the one
      its hello came from) stays connected, though its keep-alive entry is
      cleared. */
  lemma SweepMissesConnectionKeyedElsewhere(resp: map<Bytes, int>, w: State, k: Endpoint, info: ServerInfo, now: int)
    requires w.Valid() && w.connections == OrderedMap([k], map[k := info])
    requires k != IpcEndpoint(info)
    requires now - (if info.identifier in resp then resp[info.identifier] else 0) > 15 + 5
    ensures var (resp', w') := Sweep(resp, w, w.connections.Values(), now);
            && k in w'.connections.items && info.identifier !in resp'
  {
    var infos := w.connections.Values();
    assert infos == [info];
    assert infos[..0] == [];
  }

  /** The keep-alive sweep: `lastKeepAlive` set to `now`, every connection
      visited in table order, then a KeepAlive request broadcast to the
      connections that remain. */
  function KeepAliveSweep(c: Controller, w: State, now: int): (r: (Controller, State))
    requires w.Valid()
    ensures r.1.Valid()
    ensures r.0.lastKeepAlive == now
    ensures r.0.(lastKeepAlive := c.lastKeepAlive, lastKeepAliveResponse := c.lastKeepAliveResponse) == c
    ensures r.0.lastKeepAliveResponse.Keys <= c.lastKeepAliveResponse.Keys
    ensures r.1.connections.items.Keys <= w.connections.items.Keys
    ensures r.1.(connections := w.connections, sendQueue := w.sendQueue) == w
    ensures forall d :: Pending(r.1.sendQueue, d)
                     == Pending(w.sendQueue, d) + Copies(Frame(KeepAlive(false)), Count(BroadcastTargets(r.1.connections), d))
  {
    var swept := Sweep(c.lastKeepAliveResponse, w, w.connections.Values(), now);
    (c.(lastKeepAlive := now, lastKeepAliveResponse := swept.0), Broadcast(swept.1, KeepAlive(false)))
  }

  /** The controller and the worker's tables together. */
  datatype System = System(ctl: Controller, worker: State)

  /** `tick`: the membership diff when more than 5 seconds have passed since
      `lastCheckConnections`, then the keep-alive sweep when more than 15
      have passed since `lastKeepAlive`. */
  function Tick(c: Controller, w: State, now: int): (r: System)
    requires c.Valid() && w.Valid()
    ensures r.ctl.Valid() && r.worker.Valid()
    ensures r.ctl.lastCheckConnections == c.lastCheckConnections && r.ctl.optionForceKill == c.optionForceKill
    ensures r.ctl.lastKeepAlive == if now - c.lastKeepAlive > 15 then now else c.lastKeepAlive
    ensures now - c.lastCheckConnections > 5 ==> r.ctl.lastSeenConnections == w.connections && r.ctl.onlineClusters == w.connections
    ensures now - c.lastCheckConnections <= 5 ==> r.ctl.lastSeenConnections == c.lastSeenConnections && r.ctl.onlineClusters == c.onlineClusters
    ensures now - c.lastKeepAlive <= 15 ==> r.worker == w
    ensures r.worker.clientInfos == w.clientInfos && r.worker.receivedPackets == w.receivedPackets
    ensures r.worker.connections.items.Keys <= w.connections.items.Keys
  {
    var c1 := if now - c.lastCheckConnections > 5 then MembershipDiff(c, w.connections, now) else c;
    if now - c1.lastKeepAlive > 15 then
      var (c2, w2) := KeepAliveSweep(c1, w, now);
      System(c2, w2)
    else System(c1, w)
  }

  /** `tick` never assigns `lastCheckConnections`: from the constructor's 0,
      every tick after the fifth second runs the diff, and leaves both
      connection copies equal to the worker's table as it was before the
      sweep. */
  lemma DiffRunsOnEveryTickAfterFive(c: Controller, w: State, now: int)
    requires c.Valid() && w.Valid() && c.lastCheckConnections == 0 && now > 5
    ensures Tick(c, w, now).ctl.lastCheckConnections == 0
    ensures Tick(c, w, now).ctl.lastSeenConnections == w.connections
    ensures Tick(c, w, now).ctl.onlineClusters == w.connections
  {
  }

  /** A tick with the sweep due, after the diff when that is due too, stamps
      `lastKeepAlive` and queues one KeepAlive request to the ipc address of
      each connection the sweep left, after what was already waiting; the
      sweep itself queues nothing. */
  lemma TickSendsKeepAliveRequests(c: Controller, w: State, now: int, d: Endpoint)
    requires c.Valid() && w.Valid() && now - c.lastKeepAlive > 15
    ensures var c1 := if now - c.lastCheckConnections > 5 then MembershipDiff(c, w.connections, now) else c;
            var swept := Sweep(c1.lastKeepAliveResponse, w, w.connections.Values(), now).1;
            && Tick(c, w, now).ctl.lastKeepAlive == now
            && Tick(c, w, now).worker.connections == swept.connections
            && Pending(Tick(c, w, now).worker.sendQueue, d)
               == Pending(w.sendQueue, d) + Copies(Frame(KeepAlive(false)), Count(BroadcastTargets(swept.connections), d))
  {
  }

  /** Without the diff and the sweep due, a tick changes nothing. */
  lemma QuietTick(c: Controller, w: State, now: int)
    requires c.Valid() && w.Valid()
    requires now - c.lastCheckConnections <= 5 && now - c.lastKeepAlive <= 15
    ensures Tick(c, w, now) == System(c, w)
  {
  }
}
