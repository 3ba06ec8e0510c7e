/** Reading frames back: one frame (`varint(|id|) ++ id ++ payload`) looked up
    in the registry and decoded, and a whole datagram decoded frame by frame
    until the buffer ends, as the worker's `readPackets` does. */
module Framing {
  import opened Options
  import opened SeqFacts
  import opened BinaryStream
  import opened Packets
  import opened PacketPool

  /** The outcome of reading one frame. `Truncated`: the header's length or id
      runs past the buffer (the stream throws outside any handler).
      `UnknownId`: no class is registered under the id. `BadPayload`: the
      class's `decode` throws. */
  datatype FrameRead =
    | Framed(packet: Packet, next: nat)
    | Truncated
    | UnknownId(id: Bytes)
    | BadPayload

  function ReadFrame(registry: map<Bytes, Kind>, buf: Bytes, offset: nat): (r: FrameRead)
    requires offset <= |buf|
    ensures r.Framed? ==> offset < r.next <= |buf|
  {
    match ReadIdentifier(buf, offset)
    case None => Truncated
    case Some((id, afterId)) =>
      if id !in registry then UnknownId(id)
      else
        match DecodePayload(registry[id], buf, afterId)
        case None => BadPayload
        case Some((p, next)) => Framed(p, next)
  }

  /** A frame whose class is registered under its id reads back as the packet
      it came from, wherever it sits in the buffer. */
  lemma FrameRoundTrip(registry: map<Bytes, Kind>, p: Packet, pre: Bytes, post: Bytes)
    requires Lookup(registry, p.GetId()) == Some(p.KindOf())
    ensures ReadFrame(registry, pre + Frame(p) + post, |pre|) == Framed(p, |pre| + |Frame(p)|)
  {
    var id, payload := p.GetId(), Payload(p);
    var len := UnsignedVarInt(|id|);
    var head := pre + len + id;
    Assoc(pre, len + id, payload);
    Assoc(pre, len, id);
    Assoc(head, payload, post);
    IdentifierRoundTrip(id, pre, payload + post);
    PayloadRoundTrip(p, head, post);
    FrameParts(registry, pre + Frame(p) + post, |pre|, id, |head|, p, |head| + |payload|);
  }

  /** `ReadFrame` from its three steps: the id, its class, the payload. */
  lemma FrameParts(registry: map<Bytes, Kind>, buf: Bytes, off: nat, id: Bytes, afterId: nat, p: Packet, next: nat)
    requires off <= |buf|
    requires ReadIdentifier(buf, off) == Some((id, afterId))
    requires Lookup(registry, id) == Some(p.KindOf())
    requires afterId <= |buf| && DecodePayload(p.KindOf(), buf, afterId) == Some((p, next))
    ensures ReadFrame(registry, buf, off) == Framed(p, next)
  {
  }

  /** What `readPackets` returns for a received buffer. `Malformed`: an
      exception escapes it. `Unknown`: it returns false and the whole datagram
      is dropped. `Decoded`: it returns true with the packets decoded before
      the buffer ended or a payload failed to decode. */
  datatype ReadResult = Decoded(packets: seq<Packet>) | Unknown(id: Bytes) | Malformed

  function ReadFrames(registry: map<Bytes, Kind>, buf: Bytes, offset: nat): (r: ReadResult)
    requires offset <= |buf|
    ensures r.Unknown? ==> r.id !in registry
    ensures r.Decoded? ==> |r.packets| <= |buf| - offset
    decreases |buf| - offset
  {
    if offset == |buf| then Decoded([])
    else
      match ReadFrame(registry, buf, offset)
      case Truncated => Malformed
      case UnknownId(id) => Unknown(id)
      case BadPayload => Decoded([])
      case Framed(p, next) => Prepend([p], ReadFrames(registry, buf, next))
  }

  /** Packets decoded before a later outcome: kept only if that outcome is a success. */
  function Prepend(ps: seq<Packet>, r: ReadResult): (r': ReadResult)
    ensures r.Decoded? <==> r'.Decoded?
    ensures r.Decoded? ==> r'.packets == ps + r.packets
    ensures !r.Decoded? ==> r' == r
  {
    match r
    case Decoded(qs) => Decoded(ps + qs)
    case _ => r
  }

  /** A datagram carrying `ps`: their frames concatenated in order. */
  function Datagram(ps: seq<Packet>): Bytes
  {
    if ps == [] then [] else Frame(ps[0]) + Datagram(ps[1..])
  }

  /** Every packet of `ps` has its class registered under its own id. */
  ghost predicate AllRegistered(registry: map<Bytes, Kind>, ps: seq<Packet>)
  {
    ps == [] || (Lookup(registry, ps[0].GetId()) == Some(ps[0].KindOf()) && AllRegistered(registry, ps[1..]))
  }

  lemma ReadFramesStep(registry: map<Bytes, Kind>, buf: Bytes, offset: nat, p: Packet, next: nat)
    requires offset < |buf| && ReadFrame(registry, buf, offset) == Framed(p, next)
    ensures ReadFrames(registry, buf, offset) == Prepend([p], ReadFrames(registry, buf, next))
  {
  }

  lemma PrependTwice(ps: seq<Packet>, qs: seq<Packet>, r: ReadResult)
    ensures Prepend(ps, Prepend(qs, r)) == Prepend(ps + qs, r)
  {
    if r.Decoded? {
      assert ps + (qs + r.packets) == (ps + qs) + r.packets;
    }
  }

  /** A frame read at `off`, followed by reads that yield `tail` before `end`:
      together they yield `p` then `tail` before `end`. */
  lemma ChainFrames(registry: map<Bytes, Kind>, buf: Bytes, off: nat, p: Packet, mid: nat, tail: seq<Packet>, end: nat)
    requires off < mid <= end <= |buf|
    requires ReadFrame(registry, buf, off) == Framed(p, mid)
    requires ReadFrames(registry, buf, mid) == Prepend(tail, ReadFrames(registry, buf, end))
    ensures ReadFrames(registry, buf, off) == Prepend([p] + tail, ReadFrames(registry, buf, end))
  {
    ReadFramesStep(registry, buf, off, p, mid);
    PrependTwice([p], tail, ReadFrames(registry, buf, end));
  }

  /** `FrameRoundTrip` for a frame found at `off` inside any buffer. */
  lemma FrameAt(registry: map<Bytes, Kind>, p: Packet, buf: Bytes, off: nat)
    requires Lookup(registry, p.GetId()) == Some(p.KindOf())
    requires off + |Frame(p)| <= |buf| && buf[off..off + |Frame(p)|] == Frame(p)
    ensures ReadFrame(registry, buf, off) == Framed(p, off + |Frame(p)|)
  {
    SliceAround(buf, off, off + |Frame(p)|);
    FrameRoundTrip(registry, p, buf[..off], buf[off + |Frame(p)|..]);
  }

  /** The frames of `ps`, found at `off`, are read back one by one, in order,
      whatever follows them: their packets come before the outcome of the rest
      of the buffer. */
  lemma {:induction false} DatagramAt(registry: map<Bytes, Kind>, ps: seq<Packet>, buf: Bytes, off: nat)
    requires AllRegistered(registry, ps)
    requires off + |Datagram(ps)| <= |buf| && buf[off..off + |Datagram(ps)|] == Datagram(ps)
    ensures ReadFrames(registry, buf, off) == Prepend(ps, ReadFrames(registry, buf, off + |Datagram(ps)|))
    decreases |ps|
  {
    if ps == [] {
      var r := ReadFrames(registry, buf, off);
      if r.Decoded? {
        EmptyLeft(r.packets);
      }
    } else {
      var p, tail := ps[0], ps[1..];
      var f, d := Frame(p), Datagram(tail);
      DatagramCons(ps);
      var mid, end := off + |f|, off + |f| + |d|;
      SliceSplit(buf, off, mid, end);
      AppendCancel(buf[off..mid], buf[mid..end], f, d);
      FrameAt(registry, p, buf, off);
      DatagramAt(registry, tail, buf, mid);
      ChainFrames(registry, buf, off, p, mid, tail, end);
      HeadTail(ps);
    }
  }

  lemma DatagramCons(ps: seq<Packet>)
    requires ps != []
    ensures Datagram(ps) == Frame(ps[0]) + Datagram(ps[1..])
  {
  }

  /** Multi-frame datagram: encoding packets and concatenating their frames,
      then decoding, yields exactly those packets in order. */
  lemma DatagramRoundTrip(registry: map<Bytes, Kind>, ps: seq<Packet>)
    requires AllRegistered(registry, ps)
    ensures ReadFrames(registry, Datagram(ps), 0) == Decoded(ps)
  {
    DatagramThen(registry, ps, []);
    EmptyRight(Datagram(ps));
    EmptyRight(ps);
  }

  /** `DatagramAt` for a datagram at the start of the buffer. */
  lemma DatagramThen(registry: map<Bytes, Kind>, ps: seq<Packet>, rest: Bytes)
    requires AllRegistered(registry, ps)
    ensures |Datagram(ps)| <= |Datagram(ps) + rest|
    ensures ReadFrames(registry, Datagram(ps) + rest, 0)
         == Prepend(ps, ReadFrames(registry, Datagram(ps) + rest, |Datagram(ps)|))
  {
    PrefixSlice(Datagram(ps), rest);
    DatagramAt(registry, ps, Datagram(ps) + rest, 0);
  }

  /** A frame header naming an unregistered id stops the read with `Unknown`. */
  lemma UnknownIdStops(registry: map<Bytes, Kind>, pre: Bytes, id: Bytes, tail: Bytes)
    requires id !in registry
    ensures ReadFrames(registry, pre + (UnsignedVarInt(|id|) + id + tail), |pre|) == Unknown(id)
  {
    var len := UnsignedVarInt(|id|);
    Assoc(pre, len + id, tail);
    Assoc(pre, len, id);
    IdentifierRoundTrip(id, pre, tail);
  }

  /** A frame with an unregistered id makes the whole datagram unusable,
      including the packets decoded before it. */
  lemma UnknownFrameDropsDatagram(registry: map<Bytes, Kind>, ps: seq<Packet>, id: Bytes, tail: Bytes)
    requires AllRegistered(registry, ps)
    requires id !in registry
    ensures ReadFrames(registry, Datagram(ps) + (UnsignedVarInt(|id|) + id + tail), 0) == Unknown(id)
  {
    DatagramThen(registry, ps, UnsignedVarInt(|id|) + id + tail);
    UnknownIdStops(registry, Datagram(ps), id, tail);
  }

  /** A payload that fails to decode ends the datagram there; the packets
      decoded before it are still delivered. */
  lemma BadPayloadKeepsEarlierFrames(registry: map<Bytes, Kind>, ps: seq<Packet>, rest: Bytes)
    requires AllRegistered(registry, ps)
    requires rest != [] && ReadFrame(registry, Datagram(ps) + rest, |Datagram(ps)|) == BadPayload
    ensures ReadFrames(registry, Datagram(ps) + rest, 0) == Decoded(ps)
  {
    DatagramThen(registry, ps, rest);
    EmptyRight(ps);
  }


  /** One frame read from the stream's cursor, as `readPackets` and the
      controller's drain both do: the id, its class from the pool, then `decode`. */
  method ReadFrameFrom(pool: ClusterPacketPool, stream: Stream) returns (r: FrameRead)
    requires pool.Valid() && stream.Valid()
    modifies stream
    ensures stream.Valid() && stream.buffer == old(stream.buffer)
    ensures r == ReadFrame(pool.registry, old(stream.buffer), old(stream.offset))
    ensures r.Framed? ==> stream.offset == r.next
  {
    var id := ReadLengthPrefixed(stream);
    if id.None? {
      return Truncated;
    }
    var kind := pool.Get(id.value);
    if kind.None? {
      return UnknownId(id.value);
    }
    var p := Decode(kind.value, stream);
    if p.None? {
      return BadPayload;
    }
    r := Framed(p.value, stream.offset);
  }
}
