/** ClusterPacketPool: the registry from packet type id to packet class. */
module PacketPool {
  import opened Options
  import opened BinaryStream
  import opened Packets

  /** `get`'s answer for a registry state: the class stored under `id`, if any. */
  function Lookup(registry: map<Bytes, Kind>, id: Bytes): (r: Option<Kind>)
    ensures r.Some? <==> id in registry
    ensures r.Some? ==> r.value == registry[id]
  {
    if id in registry then Some(registry[id]) else None
  }

  /** The registry the controller builds: the four control packet classes. */
  function ControlRegistry(): map<Bytes, Kind>
  {
    map[Id(SessionStartKind) := SessionStartKind,
        Id(SessionHandshakeKind) := SessionHandshakeKind,
        Id(SessionCloseKind) := SessionCloseKind,
        Id(KeepAliveKind) := KeepAliveKind]
  }

  /** Every class is stored under its own type id. */
  ghost predicate WellKeyed(registry: map<Bytes, Kind>)
  {
    forall id :: id in registry ==> Id(registry[id]) == id
  }

  lemma ControlRegistryHoldsAllKinds(k: Kind)
    ensures WellKeyed(ControlRegistry())
    ensures Lookup(ControlRegistry(), Id(k)) == Some(k)
  {
    IdInjective(k, SessionStartKind);
    IdInjective(k, SessionHandshakeKind);
    IdInjective(k, SessionCloseKind);
    IdInjective(k, KeepAliveKind);
  }

  /** A successful registration is visible to every later `get` of that id. */
  lemma RegisteredIsFound(registry: map<Bytes, Kind>, k: Kind)
    requires Id(k) !in registry
    ensures Lookup(registry[Id(k) := k], Id(k)) == Some(k)
    ensures forall id :: id != Id(k) ==> Lookup(registry[Id(k) := k], id) == Lookup(registry, id)
  {
  }

  class ClusterPacketPool {
    var registry: map<Bytes, Kind>

    ghost predicate Valid()
      reads this
    {
      WellKeyed(registry)
    }

    constructor ()
      ensures Valid() && registry == map[]
    {
      registry := map[];
    }

    /** `register`: false where the source throws because the id is taken,
        and then the registry is unchanged. */
    method Register(k: Kind) returns (ok: bool)
      requires Valid()
      modifies this
      ensures Valid()
      ensures ok <==> Id(k) !in old(registry)
      ensures registry == if ok then old(registry)[Id(k) := k] else old(registry)
    {
      if Id(k) in registry {
        return false;
      }
      registry := registry[Id(k) := k];
      ok := true;
    }

    /** `get`: a new instance of the class registered under `id`, or null.
        It only reads the registry. */
    method Get(id: Bytes) returns (r: Option<Kind>)
      requires Valid()
      ensures r == Lookup(registry, id)
      ensures r.Some? ==> Id(r.value) == id
    {
      if id !in registry {
        return None;
      }
      r := Some(registry[id]);
    }
  }
}
