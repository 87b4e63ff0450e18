/** The wrapper around the kernel's virtual-server interface: pkg/util/ipvs/ipvs.go. It converts
    services and servers to the kernel's own records and back, and turns the kernel's answers into
    the behaviour that `Host.Kernel` promises the proxy. */
module IpvsConversion {
  import opened ProxyTypes
  import opened Host

  const IpProtoTCP := 6
  const IpProtoUDP := 17
  const FlagPersistent := 0x1
  const DefaultMask := 0xFFFF_FFFF
  const DefaultTimeoutSeconds := 180 * 60
  const DefaultWeight := 1

  type Uint16 = n: int | 0 <= n < 0x1_0000

  datatype Service =
    Service(clusterIP: IP, port: int, protocol: string, scheduler: string, sessionAffinity: bool)

  datatype Server = Server(ip: IP, port: int, weight: int)

  datatype LibService =
    LibService(address: IP, protocol: Uint16, port: Uint16, schedName: string, flags: nat, netmask: nat, timeout: nat)

  datatype LibDestination = LibDestination(address: IP, port: Uint16, weight: int)

  // ---------------------------------------------------------------- conversions

  /** A Go conversion to `uint16`. */
  function Truncated(n: int): Uint16 {
    n % 0x1_0000
  }

  function ToProtocolNumber(service: Service): Uint16 {
    if service.protocol == "tcp" then IpProtoTCP else IpProtoUDP
  }

  function ToProtocolString(service: LibService): string {
    if service.protocol == IpProtoTCP then "tcp"
    else if service.protocol == IpProtoUDP then "udp"
    else "unknow"
  }

  function CreateLibIpvsService(service: Service): LibService {
    var persistent := service.sessionAffinity;
    LibService(service.clusterIP, ToProtocolNumber(service), Truncated(service.port), service.scheduler,
               if persistent then FlagPersistent else 0,
               if persistent then DefaultMask else 0,
               if persistent then DefaultTimeoutSeconds else 0)
  }

  function CreateInterService(service: LibService): Service {
    Service(service.address, service.port, ToProtocolString(service), service.schedName, false)
  }

  function CreateLibIpvsServer(server: Server): LibDestination {
    LibDestination(server.ip, Truncated(server.port), DefaultWeight)
  }

  function CreateInterServer(destination: LibDestination): Server {
    Server(destination.address, destination.port, destination.weight)
  }

  /** What the kernel tells virtual servers apart by. */
  datatype LibKey = LibKey(address: IP, protocol: Uint16, port: Uint16)

  function KeyOf(service: LibService): LibKey {
    LibKey(service.address, service.protocol, service.port)
  }

  /** The kernel's record, field by field: protocol numbers 6 and 17, the port modulo 2^16, and with
      affinity the persistence flag, a full mask and three hours. */
  lemma LibServiceIs(service: Service)
    ensures var l := CreateLibIpvsService(service);
            && l.address == service.clusterIP && l.schedName == service.scheduler
            && l.protocol == (if service.protocol == "tcp" then 6 else 17)
            && l.port == service.port % 65536
            && (l.flags, l.netmask, l.timeout) == (if service.sessionAffinity then (1, 4294967295, 10800) else (0, 0, 0))
  {
  }

  /** A listed record, field by field. */
  lemma ListedServiceIs(l: LibService)
    ensures var s := CreateInterService(l);
            && s.clusterIP == l.address && s.port == l.port && s.scheduler == l.schedName && !s.sessionAffinity
            && s.protocol == (if l.protocol == 6 then "tcp" else if l.protocol == 17 then "udp" else "unknow")
  {
  }

  /** A service is listed as it was created if and only if its protocol is one of the two, its port
      is a port and it asks for no affinity. */
  lemma ServiceRoundTripIff(service: Service)
    ensures CreateInterService(CreateLibIpvsService(service)) == service <==>
            && (service.protocol == "tcp" || service.protocol == "udp")
            && 0 <= service.port < 0x1_0000 && !service.sessionAffinity
  {
    var back := CreateInterService(CreateLibIpvsService(service));
    assert back.port == service.port <==> 0 <= service.port < 0x1_0000;
  }

  /** A listed virtual server is found again under its own key if and only if it is TCP or UDP;
      any other is listed with an unknown protocol and looked for as UDP. */
  lemma ListedKeyRoundTripIff(service: LibService)
    ensures KeyOf(CreateLibIpvsService(CreateInterService(service))) == KeyOf(service) <==>
            service.protocol == IpProtoTCP || service.protocol == IpProtoUDP
  {
    var back := CreateLibIpvsService(CreateInterService(service));
    assert back.port == service.port && back.address == service.address;
    assert "unknow"[0] != "tcp"[0];
    assert "udp"[0] != "tcp"[0];
  }

  lemma ServerRoundTripIff(server: Server)
    ensures CreateInterServer(CreateLibIpvsServer(server)) == server <==>
            0 <= server.port < 0x1_0000 && server.weight == DefaultWeight
  {
    var back := CreateInterServer(CreateLibIpvsServer(server));
    assert back.port == server.port <==> 0 <= server.port < 0x1_0000;
  }

  // ---------------------------------------------------------------- the kernel's records, as the proxy sees them

  type LibTable = map<LibKey, set<Destination>>

  predicate Known(k: LibKey) {
    k.protocol == IpProtoTCP || k.protocol == IpProtoUDP
  }

  function Seen(k: LibKey): ServerKey {
    ServerKey(k.address, k.port, if k.protocol == IpProtoTCP then TCP else UDP)
  }

  predicate IsPort(n: int) {
    0 <= n < 0x1_0000
  }

  /** The service that the proxy passes for a key. */
  function Asked(k: ServerKey, scheduler: string, affinity: bool): Service {
    Service(k.ip, k.port, if k.protocol == TCP then "tcp" else "udp", scheduler, affinity)
  }

  function LibKeyOf(service: Service): LibKey {
    KeyOf(CreateLibIpvsService(service))
  }

  /** The TCP and UDP virtual servers of a kernel table. */
  function View(table: LibTable): ServerTable {
    SeenAreDistinct(table.Keys);
    map k | k in table && Known(k) :: Seen(k) := table[k]
  }

  lemma SeenAreDistinct(keys: set<LibKey>)
    ensures forall a <- keys, b <- keys :: Known(a) && Known(b) && Seen(a) == Seen(b) ==> a == b
  {
  }

  /** The kernel's key for a key of the proxy. */
  function Stored(k: ServerKey): LibKey
    requires IsPort(k.port)
  {
    LibKey(k.ip, if k.protocol == TCP then IpProtoTCP else IpProtoUDP, k.port)
  }

  lemma AskedIsStored(k: ServerKey, scheduler: string, affinity: bool)
    requires IsPort(k.port)
    ensures LibKeyOf(Asked(k, scheduler, affinity)) == Stored(k)
  {
    assert "udp"[0] != "tcp"[0];
  }

  /** The proxy's keys and the kernel's, field by field. */
  lemma StoredIs(k: ServerKey)
    requires IsPort(k.port)
    ensures Stored(k) == LibKey(k.ip, if k.protocol == TCP then 6 else 17, k.port)
    ensures Seen(Stored(k)) == k && Known(Stored(k))
    ensures Asked(k, "rr", false).protocol == if k.protocol == TCP then "tcp" else "udp"
  {
  }

  lemma ViewAt(table: LibTable, k: ServerKey)
    ensures Lookup(View(table), k) == if IsPort(k.port) then Lookup(table, Stored(k)) else None
  {
    SeenAreDistinct(table.Keys);
    if IsPort(k.port) {
      assert Seen(Stored(k)) == k && Known(Stored(k));
      assert forall l :: Known(l) && Seen(l) == k ==> l == Stored(k);
    }
  }

  lemma ViewSet(table: LibTable, k: ServerKey, ds: set<Destination>)
    requires IsPort(k.port)
    ensures View(table[Stored(k) := ds]) == View(table)[k := ds]
  {
    var more := table[Stored(k) := ds];
    forall x ensures Lookup(View(more), x) == Lookup(View(table)[k := ds], x) {
      ViewAt(more, x);
      ViewAt(table, x);
    }
    SameLookups(View(more), View(table)[k := ds]);
  }

  lemma ViewCut(table: LibTable, k: ServerKey)
    requires IsPort(k.port)
    ensures View(table - {Stored(k)}) == View(table) - {k}
  {
    var less := table - {Stored(k)};
    forall x ensures Lookup(View(less), x) == Lookup(View(table) - {k}, x) {
      ViewAt(less, x);
      ViewAt(table, x);
    }
    SameLookups(View(less), View(table) - {k});
  }

  // ---------------------------------------------------------------- the kernel and the wrapper

  datatype Answer = Done | Exists | Failed

  /** The kernel itself: it refuses to create what exists and to touch what does not. Ghost fault
      counts tell calls that failed for another reason. */
  class Netlink {
    var table: LibTable
    ghost var faults: nat

    method GetServices() returns (ok: bool, keys: set<LibKey>)
      modifies `faults
      ensures ok ==> keys == table.Keys && faults == old(faults)
      ensures !ok ==> faults > old(faults)
    {
      var fault: bool := *;
      if fault {
        faults := faults + 1;
        return false, {};
      }
      return true, table.Keys;
    }

    method NewService(service: LibService) returns (answer: Answer)
      modifies this
      ensures answer.Done? ==> KeyOf(service) !in old(table) && table == old(table)[KeyOf(service) := {}]
      ensures !answer.Done? ==> table == old(table)
      ensures answer.Exists? ==> KeyOf(service) in table
      ensures faults == old(faults) + if answer.Failed? then 1 else 0
    {
      if KeyOf(service) in table {
        return Exists;
      }
      var fault: bool := *;
      if fault {
        faults := faults + 1;
        return Failed;
      }
      table := table[KeyOf(service) := {}];
      return Done;
    }

    method DelService(service: LibService) returns (ok: bool)
      modifies this
      ensures ok ==> KeyOf(service) in old(table)
      ensures table == (if ok then old(table) - {KeyOf(service)} else old(table))
      ensures !ok && KeyOf(service) in old(table) ==> faults > old(faults)
      ensures faults >= old(faults)
    {
      if KeyOf(service) !in table {
        return false;
      }
      var fault: bool := *;
      if fault {
        faults := faults + 1;
        return false;
      }
      table := table - {KeyOf(service)};
      return true;
    }

    method NewDestination(service: LibService, d: LibDestination) returns (answer: Answer)
      modifies this
      ensures var k, dest := KeyOf(service), Destination(d.address, d.port);
              && (answer.Done? ==> k in old(table) && table == old(table)[k := old(table)[k] + {dest}])
              && (answer.Exists? ==> k in old(table) && dest in old(table)[k] && table == old(table))
              && (answer.Failed? ==> table == old(table) && (k in table ==> faults > old(faults)))
      ensures !answer.Failed? ==> faults == old(faults)
      ensures faults >= old(faults)
    {
      var k, dest := KeyOf(service), Destination(d.address, d.port);
      if k !in table {
        return Failed;
      }
      if dest in table[k] {
        return Exists;
      }
      var fault: bool := *;
      if fault {
        faults := faults + 1;
        return Failed;
      }
      table := table[k := table[k] + {dest}];
      return Done;
    }

    method DelDestination(service: LibService, d: LibDestination) returns (ok: bool)
      modifies this
      ensures var k, dest := KeyOf(service), Destination(d.address, d.port);
              && (ok ==> k in old(table) && dest in old(table)[k])
              && table == (if ok then old(table)[k := old(table)[k] - {dest}] else old(table))
              && (!ok && k in table && dest in table[k] ==> faults > old(faults))
    {
      var k, dest := KeyOf(service), Destination(d.address, d.port);
      if k !in table || dest !in table[k] {
        return false;
      }
      var fault: bool := *;
      if fault {
        faults := faults + 1;
        return false;
      }
      table := table[k := table[k] - {dest}];
      return true;
    }
  }

  /** Looks for the service among the listed ones. */
  method IsListed(service: Service, listed: set<LibKey>) returns (found: bool)
    ensures found <==> LibKeyOf(service) in listed
  {
    var protocol := ToProtocolNumber(service);
    var rest := listed;
    while rest != {}
      invariant rest <= listed && LibKeyOf(service) !in listed - rest
      decreases rest
    {
      var svc :| svc in rest;
      rest := rest - {svc};
      if service.clusterIP == svc.address && protocol == svc.protocol && Truncated(service.port) == svc.port {
        return true;
      }
    }
    return false;
  }

  /** `None` is the panic when the services cannot be listed. Seen from the proxy, adding is what
      `Host.Kernel.AddService` promises. */
  method AddIpvsService(net: Netlink, k: ServerKey, scheduler: string, affinity: bool) returns (ok: Option<bool>)
    requires IsPort(k.port)
    modifies net
    ensures var before, after := old(View(net.table)), View(net.table);
            && (ok == Some(true) ==> after == (if k in before then before else before[k := {}]))
            && (ok != Some(true) ==> after == before && net.faults > old(net.faults))
            && (ok == Some(false) ==> k !in after)
  {
    var service := Asked(k, scheduler, affinity);
    AskedIsStored(k, scheduler, affinity);
    ViewAt(net.table, k);
    ViewSet(net.table, k, {});
    var listed, keys := net.GetServices();
    if !listed {
      return None;
    }
    var found := IsListed(service, keys);
    if found {
      return Some(true);
    }
    var answer := net.NewService(CreateLibIpvsService(service));
    return Some(answer.Done?);
  }

  method DeleteIpvsService(net: Netlink, k: ServerKey, scheduler: string, affinity: bool) returns (ok: bool)
    requires IsPort(k.port)
    modifies net
    ensures var before, after := old(View(net.table)), View(net.table);
            && (ok ==> k in before)
            && after == (if ok then before - {k} else before)
            && (!ok && k in before ==> net.faults > old(net.faults))
  {
    AskedIsStored(k, scheduler, affinity);
    ViewAt(net.table, k);
    ViewCut(net.table, k);
    ok := net.DelService(CreateLibIpvsService(Asked(k, scheduler, affinity)));
  }

  /** Adding a destination that is there already succeeds. */
  method AddIpvsServer(net: Netlink, k: ServerKey, d: Destination, scheduler: string, affinity: bool) returns (ok: bool)
    requires IsPort(k.port) && IsPort(d.port)
    modifies net
    ensures var before, after := old(View(net.table)), View(net.table);
            && (ok ==> k in before)
            && after == (if ok then before[k := before[k] + {d}] else before)
            && (!ok && k in before ==> net.faults > old(net.faults))
  {
    var service := Asked(k, scheduler, affinity);
    AskedIsStored(k, scheduler, affinity);
    ViewAt(net.table, k);
    ghost var ds := if k in View(net.table) then View(net.table)[k] else {};
    ViewSet(net.table, k, ds + {d});
    assert d in ds ==> ds + {d} == ds;
    var answer := net.NewDestination(CreateLibIpvsService(service), CreateLibIpvsServer(Server(d.ip, d.port, DefaultWeight)));
    return !answer.Failed?;
  }

  method DeleteIpvsServer(net: Netlink, k: ServerKey, d: Destination, scheduler: string, affinity: bool) returns (ok: bool)
    requires IsPort(k.port) && IsPort(d.port)
    modifies net
    ensures var before, after := old(View(net.table)), View(net.table);
            && (ok ==> k in before && d in before[k])
            && after == (if ok then before[k := before[k] - {d}] else before)
            && (!ok && k in before && d in before[k] ==> net.faults > old(net.faults))
  {
    var service := Asked(k, scheduler, affinity);
    AskedIsStored(k, scheduler, affinity);
    ViewAt(net.table, k);
    ghost var ds := if k in View(net.table) then View(net.table)[k] else {};
    ViewSet(net.table, k, ds - {d});
    ok := net.DelDestination(CreateLibIpvsService(service), CreateLibIpvsServer(Server(d.ip, d.port, DefaultWeight)));
  }
}
