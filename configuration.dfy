/** The node directory: ClusterServerInfo records and the read-only
    ClusterConfiguration built from them once, at startup. */
module Configuration {
  import opened Options
  import opened BinaryStream
  import opened OrderedMaps

  /** ClusterServerInfo: five fields, all fixed at construction. */
  datatype ServerInfo = ServerInfo(identifier: Bytes, address: string, port: int, ipcAddress: string, ipcPort: int)

  /** A UDP peer, written "ip:port" as a key in the source. */
  datatype Endpoint = Endpoint(ip: string, port: int)

  /** Where a node listens for IPC traffic. */
  function IpcEndpoint(info: ServerInfo): Endpoint
  {
    Endpoint(info.ipcAddress, info.ipcPort)
  }

  /** ClusterConfiguration: a map from identifier to info, in the order the
      configuration listed it. No member changes it. */
  datatype ClusterConfiguration = ClusterConfiguration(entries: OrderedMap<Bytes, ServerInfo>)
  {
    ghost predicate Valid()
    {
      entries.Valid()
    }

    /** `getMap`: every configured entry, in configuration order. */
    function GetMap(): (r: seq<ServerInfo>)
      requires Valid()
      ensures |r| == |entries.order|
      ensures forall info :: info in r <==> info in entries.items.Values
      ensures forall i :: 0 <= i < |r| ==> r[i] == entries.items[entries.order[i]]
    {
      var r := entries.Values();
      assert forall info :: info in entries.items.Values ==> info in r by {
        forall info | info in entries.items.Values ensures info in r {
          var k :| k in entries.items && entries.items[k] == info;
          var i :| 0 <= i < |entries.order| && entries.order[i] == k;
          assert r[i] == info;
        }
      }
      r
    }

    /** `get`: the entry stored under key `identifier`, or null. */
    function Get(identifier: Bytes): (r: Option<ServerInfo>)
      ensures r.Some? <==> identifier in entries.items
      ensures r.Some? ==> r.value == entries.items[identifier]
    {
      entries.Get(identifier)
    }
  }

  /** Lookup is by key alone: whatever record sits under a key is returned,
      whether or not its own identifier equals that key. */
  lemma LookupIgnoresRecordIdentifier(c: ClusterConfiguration, key: Bytes, info: ServerInfo)
    requires c.Valid()
    ensures ClusterConfiguration(c.entries.Put(key, info)).Get(key) == Some(info)
    ensures forall other :: other != key ==> ClusterConfiguration(c.entries.Put(key, info)).Get(other) == c.Get(other)
  {
  }
}
