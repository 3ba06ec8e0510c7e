/** The four control packets of the cluster protocol, their type ids, their
    payload encodings and the frame that carries one of them on the wire:
    `varint(|id|) ++ id ++ payload`. */
module Packets {
  import opened Options
  import opened BinaryStream

  /** A packet class, as the registry stores it. */
  datatype Kind = SessionStartKind | SessionHandshakeKind | SessionCloseKind | KeepAliveKind

  datatype Packet =
    | SessionStart(clusterIdentifier: Bytes)
    | SessionHandshake(clusterIdentifier: Bytes)
    | SessionClose
    | KeepAlive(response: bool)
  {
    function KindOf(): Kind
    {
      match this
      case SessionStart(_) => SessionStartKind
      case SessionHandshake(_) => SessionHandshakeKind
      case SessionClose => SessionCloseKind
      case KeepAlive(_) => KeepAliveKind
    }

    /** `getId()` */
    function GetId(): Bytes
    {
      Id(KindOf())
    }
  }

  /** The bytes of a string written in 8-bit characters. */
  function Ascii(s: string): (r: Bytes)
    requires forall i :: 0 <= i < |s| ==> s[i] as int < 256
    ensures |r| == |s| && forall i :: 0 <= i < |s| ==> r[i] as int == s[i] as int
  {
    seq(|s|, i requires 0 <= i < |s| => s[i] as int as byte)
  }

  /** The type id of each packet class, as the bytes of its text. The
      handshake's id is an assumption: its class is not part of this model,
      and any id distinct from the other three behaves the same. */
  function Id(k: Kind): Bytes
  {
    match k
    case SessionStartKind => SessionStartId
    case SessionHandshakeKind => SessionHandshakeId
    case SessionCloseKind => SessionCloseId
    case KeepAliveKind => KeepAliveId
  }

  /** "cluster:session_start" */
  const SessionStartId: Bytes :=
    [99, 108, 117, 115, 116, 101, 114, 58, 115, 101, 115, 115, 105, 111, 110, 95, 115, 116, 97, 114, 116]

  /** "cluster:session_handshake" */
  const SessionHandshakeId: Bytes :=
    [99, 108, 117, 115, 116, 101, 114, 58, 115, 101, 115, 115, 105, 111, 110, 95, 104, 97, 110, 100, 115, 104, 97, 107, 101]

  /** "cluster:session_close" */
  const SessionCloseId: Bytes :=
    [99, 108, 117, 115, 116, 101, 114, 58, 115, 101, 115, 115, 105, 111, 110, 95, 99, 108, 111, 115, 101]

  /** "cluster:keep_alive" */
  const KeepAliveId: Bytes :=
    [99, 108, 117, 115, 116, 101, 114, 58, 107, 101, 101, 112, 95, 97, 108, 105, 118, 101]

  /** `getId()` of each class returns its constant text. */
  lemma IdsSpellTheirText()
    ensures Id(SessionStartKind) == Ascii("cluster:session_start")
    ensures Id(SessionHandshakeKind) == Ascii("cluster:session_handshake")
    ensures Id(SessionCloseKind) == Ascii("cluster:session_close")
    ensures Id(KeepAliveKind) == Ascii("cluster:keep_alive")
  {
  }

  /** No two packet classes share a type id, so the registry can hold all four. */
  lemma IdInjective(a: Kind, b: Kind)
    ensures Id(a) == Id(b) <==> a == b
  {
    assert |Id(SessionStartKind)| == 21 && |Id(SessionCloseKind)| == 21;
    assert |Id(SessionHandshakeKind)| == 25 && |Id(KeepAliveKind)| == 18;
    assert Id(SessionStartKind)[16] != Id(SessionCloseKind)[16];
  }

  /** What `encode` appends to the stream after the frame header. */
  function Payload(p: Packet): Bytes
  {
    match p
    case SessionStart(id) => UnsignedVarInt(|id|) + id
    case SessionHandshake(id) => UnsignedVarInt(|id|) + id
    case SessionClose => []
    case KeepAlive(response) => [BoolByte(response)]
  }

  /** What `decode` does to a fresh instance of class `k`: the packet it
      produces and where the cursor stops, or None where it throws. */
  function DecodePayload(k: Kind, buf: Bytes, offset: nat): (r: Option<(Packet, nat)>)
    requires offset <= |buf|
    ensures r.Some? ==> r.value.0.KindOf() == k && offset <= r.value.1 <= |buf|
    ensures k == SessionCloseKind ==> r == Some((SessionClose, offset))
    ensures k == KeepAliveKind ==> (r.Some? <==> offset < |buf|) && (r.Some? ==> r.value.1 == offset + 1)
  {
    match k
    case SessionStartKind =>
      (match ReadIdentifier(buf, offset)
       case None => None
       case Some((id, next)) => Some((SessionStart(id), next)))
    case SessionHandshakeKind =>
      (match ReadIdentifier(buf, offset)
       case None => None
       case Some((id, next)) => Some((SessionHandshake(id), next)))
    case SessionCloseKind => Some((SessionClose, offset))
    case KeepAliveKind =>
      (match ReadBool(buf, offset)
       case None => None
       case Some((b, next)) => Some((KeepAlive(b), next)))
  }

  /** `$in->get($in->getUnsignedVarInt())`: a length-prefixed byte string. */
  function ReadIdentifier(buf: Bytes, offset: nat): (r: Option<(Bytes, nat)>)
    ensures r.Some? ==> offset < r.value.1 <= |buf|
  {
    match ReadUnsignedVarInt(buf, offset)
    case None => None
    case Some((n, afterLength)) => ReadBytes(buf, afterLength, n)
  }

  /** One packet as a frame: the length-prefixed type id, then the payload. */
  function Frame(p: Packet): Bytes
  {
    UnsignedVarInt(|p.GetId()|) + p.GetId() + Payload(p)
  }

  lemma IdentifierRoundTrip(id: Bytes, pre: Bytes, post: Bytes)
    ensures ReadIdentifier(pre + UnsignedVarInt(|id|) + id + post, |pre|)
         == Some((id, |pre| + |UnsignedVarInt(|id|)| + |id|))
  {
    var len := UnsignedVarInt(|id|);
    assert pre + len + id + post == pre + len + (id + post);
    VarIntRoundTrip(|id|, pre, id + post);
    assert pre + len + id + post == (pre + len) + id + post;
    ReadBytesRoundTrip(id, pre + len, post);
  }

  /** Decoding, from anywhere in a stream, the bytes `encode` wrote restores
      the packet and leaves the cursor just past them. */
  lemma PayloadRoundTrip(p: Packet, pre: Bytes, post: Bytes)
    ensures DecodePayload(p.KindOf(), pre + Payload(p) + post, |pre|)
         == Some((p, |pre| + |Payload(p)|))
  {
    match p
    case SessionStart(id) =>
      assert pre + Payload(p) + post == pre + UnsignedVarInt(|id|) + id + post;
      IdentifierRoundTrip(id, pre, post);
    case SessionHandshake(id) =>
      assert pre + Payload(p) + post == pre + UnsignedVarInt(|id|) + id + post;
      IdentifierRoundTrip(id, pre, post);
    case SessionClose =>
    case KeepAlive(response) =>
      BoolRoundTrip(response, pre, post);
  }

  /** `ClusterPacket::encode`: appends the payload and nothing else. */
  method Encode(p: Packet, out: Stream)
    requires out.Valid()
    modifies out
    ensures out.Valid() && out.buffer == old(out.buffer) + Payload(p) && out.offset == old(out.offset)
  {
    match p
    case SessionStart(id) =>
      out.PutUnsignedVarInt(|id|);
      out.Put(id);
    case SessionHandshake(id) =>
      out.PutUnsignedVarInt(|id|);
      out.Put(id);
    case SessionClose =>
    case KeepAlive(response) =>
      out.PutBool(response);
  }

  /** `ClusterPacket::decode` on a fresh instance of class `k`; None where it throws. */
  method Decode(k: Kind, input: Stream) returns (p: Option<Packet>)
    requires input.Valid()
    modifies input
    ensures input.Valid() && input.buffer == old(input.buffer)
    ensures match DecodePayload(k, old(input.buffer), old(input.offset))
            case Some((q, next)) => p == Some(q) && input.offset == next
            case None => p == None
  {
    match k
    case SessionStartKind =>
      var id := ReadLengthPrefixed(input);
      p := if id.Some? then Some(SessionStart(id.value)) else None;
    case SessionHandshakeKind =>
      var id := ReadLengthPrefixed(input);
      p := if id.Some? then Some(SessionHandshake(id.value)) else None;
    case SessionCloseKind =>
      p := Some(SessionClose);
    case KeepAliveKind =>
      var b := input.GetBool();
      p := if b.Some? then Some(KeepAlive(b.value)) else None;
  }

  method ReadLengthPrefixed(input: Stream) returns (id: Option<Bytes>)
    requires input.Valid()
    modifies input
    ensures input.Valid() && input.buffer == old(input.buffer)
    ensures match ReadIdentifier(old(input.buffer), old(input.offset))
            case Some((s, next)) => id == Some(s) && input.offset == next
            case None => id == None
  {
    var n := input.GetUnsignedVarInt();
    if n.None? {
      return None;
    }
    id := input.Get(n.value);
  }

  /** The framing the worker does before queueing or storing a packet:
      a fresh stream, the length-prefixed id, then `encode`. */
  method EncodeFrame(p: Packet) returns (frame: Bytes)
    ensures frame == Frame(p)
  {
    frame := WriteFrame(p.GetId(), p);
  }

  /** The frame header for type id `id`, then `p`'s payload, written to a
      fresh stream. */
  method WriteFrame(id: Bytes, p: Packet) returns (frame: Bytes)
    ensures frame == UnsignedVarInt(|id|) + id + Payload(p)
  {
    var stream := new Stream([]);
    stream.PutUnsignedVarInt(|id|);
    stream.Put(id);
    Encode(p, stream);
    assert [] + UnsignedVarInt(|id|) == UnsignedVarInt(|id|);
    frame := stream.buffer;
  }
}
