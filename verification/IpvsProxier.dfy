/** The reconciler: pkg/proxy/ipvs/proxier.go. */
module IpvsProxier {
  import opened ProxyTypes
  import opened ChangeTracking
  import opened ServiceIndex
  import opened EndpointIndex
  import opened Host
  import opened WantedState
  import opened HeldPorts
  import opened SyncRuns

  /** Held ports and open sockets correspond one to one. */
  ghost predicate Holds(held: map<LocalPort, Socket>, open: map<Socket, LocalPort>) {
    && (forall lp :: lp in held ==> held[lp] in open && open[held[lp]] == lp)
    && (forall s :: s in open ==> open[s] in held && held[open[s]] == s)
  }

  ghost predicate Consistent(ports: map<LocalPort, Socket>, replacement: map<LocalPort, Socket>) {
    forall lp :: lp in ports && lp in replacement ==> ports[lp] == replacement[lp]
  }

  /** The cluster IPs of the UDP service ports among `names`. */
  ghost function FilledUDP(services: ServiceMap, names: set<ServicePortName>): set<IP> {
    set q | q in names && q in services && services[q].protocol == UDP :: services[q].clusterIP
  }

  /** Nothing needs to be done for these keys. */
  ghost predicate InPlace(table: ServerTable, endpoints: EndpointMap, q: ServicePortName, keys: set<ServerKey>) {
    forall k :: k in keys ==> k in table && table[k] == DestinationsOf(endpoints, q)
  }

  /** A service port for which the kernel is as it should be. */
  ghost predicate SettledPort(table: ServerTable, bound: set<IP>, endpoints: EndpointMap, nodeIPs: seq<IP>,
                              q: ServicePortName, info: ServiceInfo)
  {
    info.clusterIP in bound && InPlace(table, endpoints, q, KeysOf(info, nodeIPs))
  }

  lemma WantedIsSettled(services: ServiceMap, endpoints: EndpointMap, nodeIPs: seq<IP>, q: ServicePortName)
    requires DistinctKeys(services, nodeIPs) && q in services
    ensures SettledPort(Wanted(services, endpoints, nodeIPs), ClusterIPs(services), endpoints, nodeIPs, q, services[q])
  {
    WantedForPort(services, endpoints, nodeIPs, q);
  }

  /** The state at the start of a sync, for comparison: whether keys are distinct, whether the
      kernel is as it should be, the counters so far, and the bound addresses. */
  datatype Baseline = Baseline(
    tracked: bool, settled: bool, hard: nat, soft: nat, refusals: nat,
    kernelCommands: nat, portCommands: nat, bound: set<IP>)

  /** The view of a new proxier. */
  ghost function NewView(kernel: Kernel): View
    reads kernel
  {
    View(map[], map[], map[], map[], kernel.servers, kernel.bound, {}, kernel.commands, 0,
         kernel.hardFaults, kernel.softFaults, 0)
  }

  class Proxier {
    const kernel: Kernel
    const opener: PortOpener
    const serviceChanges: ServiceChangeMap
    const endpointsChanges: EndpointsChangeMap
    const serviceMap: ProxyServiceMap
    const endpointsMap: ProxyEndpointMap
    const nodeIPs: seq<IP>

    var portsMap: map<LocalPort, Socket>
    var kernelIpvsMap: ServerTable
    var kernelClusterMap: set<IP>
    var endpointsSynced: bool
    var servicesSynced: bool
    var initialized: bool

    /** The indexes are those of the last sync, pending items lead from there to the live objects,
        and open sockets and held ports correspond one to one. */
    ghost predicate Valid()
      reads this, serviceChanges, endpointsChanges, serviceMap, endpointsMap, opener
    {
      && serviceChanges.Valid() && endpointsChanges.Valid() && opener.Valid()
      && serviceMap.entries == ServiceIndexOf(serviceChanges.synced)
      && endpointsMap.entries == EndpointIndexOf(endpointsChanges.synced, endpointsChanges.hostname)
      && Holds(portsMap, opener.open)
    }

    /** The maps are those of the live objects. */
    ghost predicate UpToDate()
      reads this, serviceChanges, endpointsChanges, serviceMap, endpointsMap
    {
      && NamedServices(serviceChanges.live) && NamedEndpoints(endpointsChanges.live)
      && serviceMap.entries == ServiceIndexOf(serviceChanges.live)
      && endpointsMap.entries == EndpointIndexOf(endpointsChanges.live, endpointsChanges.hostname)
    }

    ghost function Facts(): Setting {
      Setting(nodeIPs, kernel.interfaceIPs)
    }

    ghost function CurrentView(): View
      reads this, serviceChanges, endpointsChanges, serviceMap, endpointsMap, kernel, opener
    {
      View(serviceMap.entries, endpointsMap.entries, serviceChanges.items, endpointsChanges.items,
           kernel.servers, kernel.bound, portsMap.Keys, kernel.commands, opener.commands,
           kernel.hardFaults, kernel.softFaults, opener.refusals)
    }

    constructor (kernel: Kernel, hostname: string, nodeIPs: seq<IP>)
      ensures Valid() && UpToDate() && !servicesSynced && !endpointsSynced && !initialized
      ensures this.kernel == kernel && this.nodeIPs == nodeIPs && endpointsChanges.hostname == hostname
      ensures CurrentView() == NewView(kernel)
      ensures serviceChanges.live == map[] && endpointsChanges.live == map[]
      ensures fresh(opener) && fresh(serviceChanges) && fresh(endpointsChanges)
      ensures fresh(serviceMap) && fresh(endpointsMap)
    {
      this.kernel := kernel;
      this.nodeIPs := nodeIPs;
      opener := new PortOpener();
      serviceChanges := new ServiceChangeMap();
      endpointsChanges := new EndpointsChangeMap(hostname);
      serviceMap := new ProxyServiceMap();
      endpointsMap := new ProxyEndpointMap();
      portsMap, kernelIpvsMap, kernelClusterMap := map[], map[], {};
      endpointsSynced, servicesSynced, initialized := false, false, false;
      new;
      SameLookups(serviceMap.entries, ServiceIndexOf(map[]));
      SameLookups(endpointsMap.entries, EndpointIndexOf(map[], hostname));
    }

    // ---------------------------------------------------------------- faults since the start of a sync

    ghost predicate Since(start: Baseline)
      reads kernel, opener
    {
      && start.hard <= kernel.hardFaults
      && start.soft <= kernel.softFaults
      && start.refusals <= opener.refusals
    }

    ghost predicate NoHard(start: Baseline)
      reads kernel
    {
      kernel.hardFaults == start.hard
    }

    ghost predicate Clean(start: Baseline)
      reads kernel, opener
    {
      NoHard(start) && kernel.softFaults == start.soft && opener.refusals == start.refusals
    }

    ghost predicate Tracking(start: Baseline, want: ServerTable, active: set<ServerKey>)
      reads this, kernel, opener
    {
      && Since(start)
      && (start.tracked && NoHard(start) ==>
            QuietProgress(kernelIpvsMap, kernel.servers, active, want, Clean(start)))
    }

    /** Sockets and held ports, old and new, correspond one to one; as long as no port was refused,
        one has been opened if and only if a new one is held. */
    ghost predicate Holding(start: Baseline, replacement: map<LocalPort, Socket>)
      reads this, opener
    {
      && opener.Valid() && Holds(portsMap + replacement, opener.open) && Consistent(portsMap, replacement)
      && start.refusals <= opener.refusals && start.portCommands <= opener.commands
      && (start.refusals == opener.refusals ==>
            (opener.commands == start.portCommands <==> replacement.Keys <= portsMap.Keys))
    }

    /** The addresses on the host. */
    ghost function LocalNow(): set<IP>
      reads kernel
    {
      kernel.interfaceIPs + kernel.bound
    }

    /** What the service ports visited so far mean for the bound addresses and the held ports. */
    ghost predicate Visited(start: Baseline, done: ServiceMap, replacement: map<LocalPort, Socket>)
      reads kernel, opener
    {
      && kernel.bound <= start.bound + ClusterIPs(done)
      && (Clean(start) ==>
            && kernel.bound == start.bound + ClusterIPs(done)
            && Arises(done, kernel.interfaceIPs + start.bound, replacement.Keys))
    }

    lemma VisitedOneMore(start: Baseline, done: ServiceMap, held: set<LocalPort>, replacement: map<LocalPort, Socket>,
                         q: ServicePortName, info: ServiceInfo)
      requires q !in done && kernel.bound <= start.bound + ClusterIPs(done) + {info.clusterIP}
      requires Clean(start) ==>
                 && kernel.bound == start.bound + ClusterIPs(done) + {info.clusterIP}
                 && Arises(done, kernel.interfaceIPs + start.bound, held)
                 && replacement.Keys == held + PortsOf(q, info, LocalNow())
      ensures Visited(start, done[q := info], replacement)
    {
      DoneGrows(done, q, info, nodeIPs);
      if Clean(start) {
        var near := kernel.interfaceIPs + start.bound;
        ArisesStep(done, near, held, q, info);
        assert near + (ClusterIPs(done) + {info.clusterIP}) == LocalNow();
      }
    }

    // ---------------------------------------------------------------- rules for one virtual server

    method CreateServiceRule(hasCluster: bool, k: ServerKey) returns (ok: bool)
      modifies kernel`servers, kernel`commands, kernel`softFaults
      ensures kernel.softFaults >= old(kernel.softFaults)
      ensures hasCluster ==> ok && kernel.servers == old(kernel.servers) && kernel.commands == old(kernel.commands)
      ensures ok ==> kernel.softFaults == old(kernel.softFaults)
      ensures ok && !hasCluster ==>
                kernel.servers == (if k in old(kernel.servers) then old(kernel.servers) else old(kernel.servers)[k := {}])
      ensures !ok ==> k !in kernel.servers && kernel.servers == old(kernel.servers)
                      && kernel.softFaults > old(kernel.softFaults)
    {
      ok := true;
      if !hasCluster {
        ok := kernel.AddService(k);
      }
    }

    method EndpointDestinations(q: ServicePortName) returns (destinations: set<Destination>)
      ensures destinations == DestinationsOf(endpointsMap.entries, q)
    {
      destinations := {};
      var list := ListAt(endpointsMap.entries, q);
      for i := 0 to |list|
        invariant destinations == set ep | ep in list[..i] :: Destination(ep.ip, ep.port)
      {
        assert list[..i + 1] == list[..i] + [list[i]];
        destinations := destinations + {Destination(list[i].ip, list[i].port)};
      }
      assert list[..|list|] == list;
    }

    method AddDestinations(k: ServerKey, missing: set<Destination>)
      modifies kernel`servers, kernel`commands, kernel`softFaults
      ensures kernel.softFaults >= old(kernel.softFaults)
      ensures kernel.servers.Keys == old(kernel.servers).Keys
      ensures forall j :: j in kernel.servers && j != k ==> kernel.servers[j] == old(kernel.servers)[j]
      ensures k in kernel.servers ==> old(kernel.servers)[k] <= kernel.servers[k] <= old(kernel.servers)[k] + missing
      ensures k in kernel.servers && kernel.softFaults == old(kernel.softFaults) ==>
                kernel.servers[k] == old(kernel.servers)[k] + missing
      ensures missing == {} ==> kernel.commands == old(kernel.commands)
    {
      var todo := missing;
      while todo != {}
        invariant todo <= missing
        invariant kernel.softFaults >= old(kernel.softFaults)
        invariant kernel.servers.Keys == old(kernel.servers).Keys
        invariant forall j :: j in kernel.servers && j != k ==> kernel.servers[j] == old(kernel.servers)[j]
        invariant k in kernel.servers ==>
                    old(kernel.servers)[k] <= kernel.servers[k] <= old(kernel.servers)[k] + (missing - todo)
        invariant k in kernel.servers && kernel.softFaults == old(kernel.softFaults) ==>
                    kernel.servers[k] == old(kernel.servers)[k] + (missing - todo)
        invariant missing == {} ==> kernel.commands == old(kernel.commands)
      {
        var d :| d in todo;
        todo := todo - {d};
        var ok := kernel.AddServer(k, d);
      }
    }

    method DeleteDestinations(k: ServerKey, stale: set<Destination>)
      modifies kernel`servers, kernel`commands, kernel`hardFaults
      ensures kernel.hardFaults >= old(kernel.hardFaults)
      ensures kernel.servers.Keys == old(kernel.servers).Keys
      ensures forall j :: j in kernel.servers && j != k ==> kernel.servers[j] == old(kernel.servers)[j]
      ensures k in kernel.servers && kernel.hardFaults == old(kernel.hardFaults) ==>
                kernel.servers[k] == old(kernel.servers)[k] - stale
      ensures stale == {} ==> kernel.commands == old(kernel.commands)
    {
      var todo := stale;
      while todo != {}
        invariant todo <= stale
        invariant kernel.hardFaults >= old(kernel.hardFaults)
        invariant kernel.servers.Keys == old(kernel.servers).Keys
        invariant forall j :: j in kernel.servers && j != k ==> kernel.servers[j] == old(kernel.servers)[j]
        invariant k in kernel.servers && kernel.hardFaults == old(kernel.hardFaults) ==>
                    kernel.servers[k] == old(kernel.servers)[k] - (stale - todo)
        invariant stale == {} ==> kernel.commands == old(kernel.commands)
      {
        var d :| d in todo;
        todo := todo - {d};
        var ok := kernel.DeleteServer(k, d);
      }
    }

    /** Adds the endpoints missing from the listing and deletes the listed ones that are gone. */
    method CreateEndpointRule(k: ServerKey, q: ServicePortName, kernelEndpoints: set<Destination>)
      modifies kernel`servers, kernel`commands, kernel`softFaults, kernel`hardFaults
      ensures kernel.softFaults >= old(kernel.softFaults) && kernel.hardFaults >= old(kernel.hardFaults)
      ensures kernel.servers.Keys == old(kernel.servers).Keys
      ensures forall j :: j in kernel.servers && j != k ==> kernel.servers[j] == old(kernel.servers)[j]
      ensures k in kernel.servers && kernel.hardFaults == old(kernel.hardFaults) ==>
                Between(old(kernel.servers)[k], kernelEndpoints, DestinationsOf(endpointsMap.entries, q), kernel.servers[k])
      ensures k in kernel.servers && kernel.hardFaults == old(kernel.hardFaults)
              && kernel.softFaults == old(kernel.softFaults) ==>
                kernel.servers[k] ==
                Reconciled(old(kernel.servers)[k], kernelEndpoints, DestinationsOf(endpointsMap.entries, q))
      ensures kernelEndpoints == DestinationsOf(endpointsMap.entries, q) ==> kernel.commands == old(kernel.commands)
    {
      var newDst := EndpointDestinations(q);
      AddDestinations(k, newDst - kernelEndpoints);
      DeleteDestinations(k, kernelEndpoints - newDst);
    }

    // ---------------------------------------------------------------- held ports

    method HoldPort(lp: LocalPort, replacement: map<LocalPort, Socket>, ghost start: Baseline)
      returns (ok: bool, replacement': map<LocalPort, Socket>)
      requires Holding(start, replacement)
      modifies opener
      ensures Holding(start, replacement')
      ensures replacement'.Keys == replacement.Keys + (if ok then {lp} else {})
      ensures opener.refusals >= old(opener.refusals) && (!ok ==> opener.refusals > old(opener.refusals))
    {
      if lp in portsMap {
        replacement' := replacement[lp := portsMap[lp]];
        assert portsMap + replacement' == portsMap + replacement;
        return true, replacement';
      }
      ghost var held := portsMap + replacement;
      var socket := opener.Open(lp);
      if socket.None? {
        return false, replacement;
      }
      HoldsWith(held, old(opener.open), lp, socket.value);
      replacement' := replacement[lp := socket.value];
      assert portsMap + replacement' == held[lp := socket.value];
      assert lp in replacement'.Keys && lp !in portsMap.Keys;
      return true, replacement';
    }

    /** Closes the sockets that are no longer needed and keeps the rest. */
    method ReplacePorts(replacement: map<LocalPort, Socket>, ghost start: Baseline)
      requires Holding(start, replacement)
      modifies this`portsMap, opener
      ensures opener.Valid() && portsMap == replacement && Holds(portsMap, opener.open)
      ensures opener.refusals == old(opener.refusals)
      ensures opener.refusals == start.refusals ==>
                (opener.commands == start.portCommands <==> portsMap.Keys == old(portsMap).Keys)
    {
      ghost var held := portsMap + replacement;
      var ports := portsMap;
      var todo := ports.Keys;
      while todo != {}
        invariant todo <= ports.Keys && portsMap == ports
        invariant opener.Valid() && opener.refusals == old(opener.refusals)
        invariant forall lp :: lp in held <==> lp in replacement || lp in todo
        invariant forall lp :: lp in held ==> held[lp] == if lp in replacement then replacement[lp] else ports[lp]
        invariant Holds(held, opener.open)
        invariant opener.commands >= old(opener.commands)
        invariant opener.commands == old(opener.commands) <==> ports.Keys - todo <= replacement.Keys
      {
        var lp :| lp in todo;
        todo := todo - {lp};
        assert ports.Keys - todo == ports.Keys - (todo + {lp}) + {lp};
        if lp !in replacement {
          assert lp in held && held[lp] == ports[lp];
          HoldsWithout(held, opener.open, lp);
          opener.Close(ports[lp]);
          held := held - {lp};
          assert lp in ports.Keys - todo;
        }
      }
      assert held == replacement;
      assert ports.Keys - todo == ports.Keys;
      portsMap := replacement;
    }

    /** Holds the port of an external IP that is local to this machine. */
    method HoldExternalIP(q: ServicePortName, info: ServiceInfo, ip: IP, replacement: map<LocalPort, Socket>,
                          ghost start: Baseline)
      returns (ok: bool, replacement': map<LocalPort, Socket>)
      requires Holding(start, replacement) && Since(start)
      modifies kernel`softFaults, opener
      ensures Holding(start, replacement') && Since(start)
      ensures Clean(start) ==> old(Clean(start)) && ok
      ensures Clean(start) ==> replacement'.Keys == replacement.Keys + ExternalPorts(q, info, [ip], LocalNow())
    {
      var local := kernel.IsLocalIP(ip);
      if !local {
        return true, replacement;
      }
      var lp := ExternalHold(q, info, ip);
      assert ip in [ip] && lp in ExternalPorts(q, info, [ip], LocalNow());
      ok, replacement' := HoldPort(lp, replacement, start);
    }

    // ---------------------------------------------------------------- listing the kernel

    method BuildIpvsMap()
      modifies this`kernelIpvsMap, kernel`hardFaults
      ensures kernel.hardFaults >= old(kernel.hardFaults)
      ensures kernel.hardFaults == old(kernel.hardFaults) ==> kernelIpvsMap == kernel.servers
    {
      var ipvsMap: ServerTable := map[];
      var ok, keys := kernel.ListServices();
      if !ok {
        kernelIpvsMap := ipvsMap;
        return;
      }
      var todo := keys;
      while todo != {}
        invariant todo <= keys == kernel.servers.Keys
        invariant kernel.hardFaults >= old(kernel.hardFaults)
        invariant ipvsMap.Keys == keys - todo
        invariant kernel.hardFaults == old(kernel.hardFaults) ==>
                    forall k :: k in ipvsMap ==> ipvsMap[k] == kernel.servers[k]
      {
        var k :| k in todo;
        todo := todo - {k};
        var listed, destinations := kernel.ListServers(k);
        ipvsMap := ipvsMap[k := if listed then destinations else {}];
      }
      kernelIpvsMap := ipvsMap;
    }

    method BuildClusterMap()
      modifies this`kernelClusterMap, kernel`hardFaults
      ensures kernel.hardFaults >= old(kernel.hardFaults)
      ensures kernel.hardFaults == old(kernel.hardFaults) ==> kernelClusterMap == kernel.bound
    {
      var ok, ips := kernel.ListBound();
      if ok {
        kernelClusterMap := ips;
      }
    }

    // ---------------------------------------------------------------- the quiet sync

    method SyncKey(k: ServerKey, q: ServicePortName, ghost active: set<ServerKey>, ghost start: Baseline,
                   ghost want: ServerTable)
      requires Tracking(start, want, active)
      requires start.tracked ==> k in want && want[k] == DestinationsOf(endpointsMap.entries, q)
      modifies kernel`servers, kernel`commands, kernel`softFaults, kernel`hardFaults
      ensures Tracking(start, want, active + {k})
      ensures NoHard(start) ==> old(NoHard(start))
      ensures Clean(start) ==> old(Clean(start))
      ensures k in kernelIpvsMap && kernelIpvsMap[k] == DestinationsOf(endpointsMap.entries, q) ==>
                kernel.commands == old(kernel.commands)
    {
      ghost var before := kernel.servers;
      ghost var wasClean := Clean(start);
      var ok := CreateServiceRule(k in kernelIpvsMap, k);
      if ok {
        CreateEndpointRule(k, q, SeenAt(kernelIpvsMap, k));
      }
      if start.tracked && NoHard(start) {
        QuietStep(kernelIpvsMap, before, kernel.servers, active, want, wasClean, Clean(start), k, ok);
      }
    }

    ghost predicate WantsFor(start: Baseline, want: ServerTable, q: ServicePortName, keys: set<ServerKey>)
      reads endpointsMap
    {
      start.tracked ==> forall k :: k in keys ==> k in want && want[k] == DestinationsOf(endpointsMap.entries, q)
    }

    method SyncExternalIP(q: ServicePortName, info: ServiceInfo, ip: IP, active: set<ServerKey>,
                          replacement: map<LocalPort, Socket>, ghost start: Baseline, ghost want: ServerTable)
      returns (active': set<ServerKey>, replacement': map<LocalPort, Socket>)
      requires Tracking(start, want, active) && Holding(start, replacement)
      requires WantsFor(start, want, q, {ExternalKey(info, ip)})
      modifies kernel`servers, kernel`commands, kernel`softFaults, kernel`hardFaults, opener
      ensures Tracking(start, want, active') && Holding(start, replacement')
      ensures NoHard(start) ==> old(NoHard(start))
      ensures Clean(start) ==> old(Clean(start)) && active' == active + {ExternalKey(info, ip)}
      ensures Clean(start) ==> replacement'.Keys == replacement.Keys + ExternalPorts(q, info, [ip], LocalNow())
      ensures InPlace(kernelIpvsMap, endpointsMap.entries, q, {ExternalKey(info, ip)}) ==> kernel.commands == old(kernel.commands)
    {
      active' := active;
      var ok;
      ok, replacement' := HoldExternalIP(q, info, ip, replacement, start);
      if ok {
        var k := ExternalKey(info, ip);
        SyncKey(k, q, active, start, want);
        active' := active + {k};
      }
    }

    method SyncExternalIPs(q: ServicePortName, info: ServiceInfo, active: set<ServerKey>,
                           replacement: map<LocalPort, Socket>, ghost start: Baseline, ghost want: ServerTable)
      returns (active': set<ServerKey>, replacement': map<LocalPort, Socket>)
      requires Tracking(start, want, active) && Holding(start, replacement)
      requires WantsFor(start, want, q, ExternalKeys(info, info.externalIPs))
      modifies kernel`servers, kernel`commands, kernel`softFaults, kernel`hardFaults, opener
      ensures Tracking(start, want, active') && Holding(start, replacement')
      ensures NoHard(start) ==> old(NoHard(start))
      ensures Clean(start) ==> old(Clean(start)) && active' == active + ExternalKeys(info, info.externalIPs)
      ensures Clean(start) ==>
                replacement'.Keys == replacement.Keys + ExternalPorts(q, info, info.externalIPs, LocalNow())
      ensures InPlace(kernelIpvsMap, endpointsMap.entries, q, ExternalKeys(info, info.externalIPs)) ==> kernel.commands == old(kernel.commands)
    {
      active', replacement' := active, replacement;
      var ips := info.externalIPs;
      for i := 0 to |ips|
        invariant Tracking(start, want, active') && Holding(start, replacement')
        invariant NoHard(start) ==> old(NoHard(start))
        invariant Clean(start) ==> old(Clean(start)) && active' == active + ExternalKeys(info, ips[..i])
        invariant Clean(start) ==>
                    replacement'.Keys == replacement.Keys + ExternalPorts(q, info, ips[..i], LocalNow())
        invariant InPlace(kernelIpvsMap, endpointsMap.entries, q, ExternalKeys(info, ips)) ==> kernel.commands == old(kernel.commands)
      {
        ExternalsGrow(q, info, ips, i, LocalNow());
        active', replacement' := SyncExternalIP(q, info, ips[i], active', replacement', start, want);
      }
      assert ips[..|ips|] == ips;
    }

    method SyncNodePort(q: ServicePortName, info: ServiceInfo, active: set<ServerKey>,
                        replacement: map<LocalPort, Socket>, ghost start: Baseline, ghost want: ServerTable)
      returns (active': set<ServerKey>, replacement': map<LocalPort, Socket>)
      requires Tracking(start, want, active) && Holding(start, replacement)
      requires WantsFor(start, want, q, NodeKeys(info, nodeIPs))
      modifies kernel`servers, kernel`commands, kernel`softFaults, kernel`hardFaults, opener
      ensures Tracking(start, want, active') && Holding(start, replacement')
      ensures NoHard(start) ==> old(NoHard(start))
      ensures Clean(start) ==>
                && old(Clean(start))
                && active' == active + NodeKeys(info, nodeIPs)
                && replacement'.Keys == replacement.Keys + {NodePortHold(q, info)}
      ensures InPlace(kernelIpvsMap, endpointsMap.entries, q, NodeKeys(info, nodeIPs)) ==> kernel.commands == old(kernel.commands)
    {
      active' := active;
      var ok;
      ok, replacement' := HoldPort(NodePortHold(q, info), replacement, start);
      if !ok {
        return;
      }
      for i := 0 to |nodeIPs|
        invariant Tracking(start, want, active') && Holding(start, replacement')
        invariant NoHard(start) ==> old(NoHard(start))
        invariant Clean(start) ==> old(Clean(start)) && active' == active + NodeKeys(info, nodeIPs[..i])
        invariant InPlace(kernelIpvsMap, endpointsMap.entries, q, NodeKeys(info, nodeIPs)) ==> kernel.commands == old(kernel.commands)
      {
        assert nodeIPs[..i + 1] == nodeIPs[..i] + [nodeIPs[i]];
        var k := NodeKey(info, nodeIPs[i]);
        assert k in NodeKeys(info, nodeIPs);
        SyncKey(k, q, active', start, want);
        active' := active' + {k};
      }
      assert nodeIPs[..|nodeIPs|] == nodeIPs;
    }

    ghost predicate Binding(start: Baseline, bind: set<IP>)
      reads this, kernel
    {
      NoHard(start) ==> kernelClusterMap <= kernel.bound && bind <= kernel.bound
    }

    /** The virtual servers of one service port; a port that cannot be held skips the rules that
        need it. */
    method SyncRules(q: ServicePortName, info: ServiceInfo, active: set<ServerKey>,
                     replacement: map<LocalPort, Socket>, ghost start: Baseline, ghost want: ServerTable)
      returns (active': set<ServerKey>, replacement': map<LocalPort, Socket>)
      requires Tracking(start, want, active) && Holding(start, replacement)
      requires WantsFor(start, want, q, KeysOf(info, nodeIPs))
      modifies kernel`servers, kernel`commands, kernel`softFaults, kernel`hardFaults, opener
      ensures Tracking(start, want, active') && Holding(start, replacement')
      ensures NoHard(start) ==> old(NoHard(start))
      ensures Clean(start) ==>
                && old(Clean(start))
                && active' == active + KeysOf(info, nodeIPs)
                && replacement'.Keys == replacement.Keys + PortsOf(q, info, LocalNow())
      ensures InPlace(kernelIpvsMap, endpointsMap.entries, q, KeysOf(info, nodeIPs)) ==>
                kernel.commands == old(kernel.commands)
    {
      SyncKey(ClusterKey(info), q, active, start, want);
      active' := active + {ClusterKey(info)};

      active', replacement' := SyncExternalIPs(q, info, active', replacement, start, want);

      if info.nodePort != 0 {
        active', replacement' := SyncNodePort(q, info, active', replacement', start, want);
      }
    }

    /** Brings one service port up to date; a failed bind skips it. */
    method SyncServicePort(q: ServicePortName, info: ServiceInfo, active: set<ServerKey>, bind: set<IP>,
                           replacement: map<LocalPort, Socket>, ghost start: Baseline, ghost want: ServerTable)
      returns (active': set<ServerKey>, bind': set<IP>, replacement': map<LocalPort, Socket>)
      requires Tracking(start, want, active) && Holding(start, replacement) && Binding(start, bind)
      requires WantsFor(start, want, q, KeysOf(info, nodeIPs))
      modifies kernel, opener
      ensures Tracking(start, want, active') && Holding(start, replacement') && Binding(start, bind')
      ensures NoHard(start) ==> old(NoHard(start))
      ensures bind' <= bind + {info.clusterIP} && kernel.bound <= old(kernel.bound) + {info.clusterIP}
      ensures Clean(start) ==>
                && old(Clean(start))
                && active' == active + KeysOf(info, nodeIPs)
                && bind' == bind + {info.clusterIP}
                && kernel.bound == old(kernel.bound) + {info.clusterIP}
                && replacement'.Keys == replacement.Keys + PortsOf(q, info, LocalNow())
      ensures SettledPort(kernelIpvsMap, kernelClusterMap, endpointsMap.entries, nodeIPs, q, info) ==>
                kernel.commands == old(kernel.commands)
    {
      active', bind', replacement' := active, bind, replacement;
      if info.clusterIP !in kernelClusterMap {
        var ok := kernel.Bind(info.clusterIP);
        if !ok {
          return;
        }
      }
      bind' := bind' + {info.clusterIP};
      active', replacement' := SyncRules(q, info, active', replacement', start, want);
    }

    /** Deletes the listed virtual servers that are not active and unbinds the unused addresses. */
    method CheckUnusedRule(active: set<ServerKey>, activeBindIP: set<IP>)
      modifies kernel`servers, kernel`bound, kernel`commands, kernel`hardFaults
      ensures kernel.hardFaults >= old(kernel.hardFaults) && kernel.bound <= old(kernel.bound)
      ensures kernel.hardFaults == old(kernel.hardFaults) ==>
                && kernel.servers == old(kernel.servers) - (old(kernel.servers).Keys - active)
                && kernel.bound == old(kernel.bound) * activeBindIP
      ensures old(kernel.servers).Keys <= active && old(kernel.bound) <= activeBindIP ==>
                kernel.commands == old(kernel.commands)
    {
      var ok, oldSvcs := kernel.ListServices();
      if !ok {
        return;
      }
      var todo := oldSvcs;
      while todo != {}
        invariant todo <= oldSvcs && kernel.bound == old(kernel.bound)
        invariant kernel.hardFaults >= old(kernel.hardFaults)
        invariant kernel.hardFaults == old(kernel.hardFaults) ==>
                    kernel.servers == old(kernel.servers) - (oldSvcs - todo - active)
        invariant oldSvcs <= active ==> kernel.commands == old(kernel.commands)
      {
        var k :| k in todo;
        todo := todo - {k};
        if k !in active {
          var deleted := kernel.DeleteService(k);
        }
      }
      UnbindUnused(activeBindIP);
    }

    method UnbindUnused(activeBindIP: set<IP>)
      modifies kernel`bound, kernel`commands, kernel`hardFaults
      ensures kernel.hardFaults >= old(kernel.hardFaults) && kernel.bound <= old(kernel.bound)
      ensures kernel.hardFaults == old(kernel.hardFaults) ==> kernel.bound == old(kernel.bound) * activeBindIP
      ensures old(kernel.bound) <= activeBindIP ==> kernel.commands == old(kernel.commands)
    {
      var listed, oldBindIPs := kernel.ListBound();
      var rest := oldBindIPs;
      while rest != {}
        invariant rest <= oldBindIPs <= old(kernel.bound)
        invariant kernel.hardFaults >= old(kernel.hardFaults)
        invariant kernel.hardFaults == old(kernel.hardFaults) ==> listed
        invariant kernel.bound <= old(kernel.bound) && rest <= kernel.bound
        invariant kernel.hardFaults == old(kernel.hardFaults) ==>
                    kernel.bound == old(kernel.bound) - (oldBindIPs - rest - activeBindIP)
        invariant old(kernel.bound) <= activeBindIP ==> kernel.commands == old(kernel.commands)
      {
        var ip :| ip in rest;
        rest := rest - {ip};
        if ip !in activeBindIP {
          var unbound := kernel.Unbind(ip);
        }
      }
    }

    /** What holds after the service ports in `done` have been brought up to date. */
    ghost predicate Progress(start: Baseline, want: ServerTable, done: ServiceMap, active: set<ServerKey>,
                             bind: set<IP>, replacement: map<LocalPort, Socket>)
      reads this, kernel, opener
    {
      && Tracking(start, want, active) && Holding(start, replacement) && Binding(start, bind)
      && Visited(start, done, replacement)
      && bind <= ClusterIPs(done)
      && (Clean(start) ==> active == KeysIn(done, nodeIPs) && bind == ClusterIPs(done))
      && (start.settled ==> kernel.commands == start.kernelCommands)
    }

    /** What the start of the sync has established about one service port. */
    ghost predicate Prepared(start: Baseline, want: ServerTable, q: ServicePortName, info: ServiceInfo)
      reads this, endpointsMap
    {
      && WantsFor(start, want, q, KeysOf(info, nodeIPs))
      && (start.settled ==> SettledPort(kernelIpvsMap, kernelClusterMap, endpointsMap.entries, nodeIPs, q, info))
    }

    method SyncNextPort(q: ServicePortName, ghost done: ServiceMap, active: set<ServerKey>, bind: set<IP>,
                        replacement: map<LocalPort, Socket>, ghost start: Baseline, ghost want: ServerTable)
      returns (active': set<ServerKey>, bind': set<IP>, replacement': map<LocalPort, Socket>)
      requires q in serviceMap.entries && q !in done
      requires Progress(start, want, done, active, bind, replacement)
      requires Prepared(start, want, q, serviceMap.entries[q])
      modifies kernel, opener
      ensures Progress(start, want, done[q := serviceMap.entries[q]], active', bind', replacement')
      ensures NoHard(start) ==> old(NoHard(start))
      ensures Clean(start) ==> old(Clean(start))
    {
      var info := serviceMap.entries[q];
      active', bind', replacement' := SyncServicePort(q, info, active, bind, replacement, start, want);
      DoneGrows(done, q, info, nodeIPs);
      VisitedOneMore(start, done, replacement.Keys, replacement', q, info);
    }

    /** Every service port in any order. */
    method SyncServicePorts(ghost start: Baseline, ghost want: ServerTable)
      returns (active: set<ServerKey>, bind: set<IP>, replacement: map<LocalPort, Socket>)
      requires forall q :: q in serviceMap.entries ==> Prepared(start, want, q, serviceMap.entries[q])
      requires Progress(start, want, map[], {}, {}, map[])
      modifies kernel, opener
      ensures Progress(start, want, serviceMap.entries, active, bind, replacement)
      ensures NoHard(start) ==> old(NoHard(start))
      ensures Clean(start) ==> old(Clean(start))
    {
      active, bind, replacement := {}, {}, map[];
      ghost var done: ServiceMap := map[];
      var todo := serviceMap.entries.Keys;
      while todo != {}
        invariant todo <= serviceMap.entries.Keys && done == serviceMap.entries - todo
        invariant Progress(start, want, done, active, bind, replacement)
        invariant NoHard(start) ==> old(NoHard(start))
        invariant Clean(start) ==> old(Clean(start))
      {
        var q :| q in todo;
        active, bind, replacement := SyncNextPort(q, done, active, bind, replacement, start, want);
        todo := todo - {q};
        done := done[q := serviceMap.entries[q]];
        assert done == serviceMap.entries - todo;
      }
      assert done == serviceMap.entries;
    }

    /** The kernel is what the maps call for. */
    ghost predicate Settled()
      reads this, kernel, serviceMap, endpointsMap
    {
      && DistinctKeys(serviceMap.entries, nodeIPs)
      && kernel.servers == Wanted(serviceMap.entries, endpointsMap.entries, nodeIPs)
      && kernel.bound == ClusterIPs(serviceMap.entries)
    }

    /** The listings are current, and the baseline says what is the case. */
    ghost predicate Started(start: Baseline, want: ServerTable)
      reads this, kernel, opener, serviceMap, endpointsMap
    {
      && want == Wanted(serviceMap.entries, endpointsMap.entries, nodeIPs)
      && start.bound == kernel.bound && start.kernelCommands == kernel.commands
      && (NoHard(start) ==> kernelIpvsMap == kernel.servers && kernelClusterMap == kernel.bound)
      && (start.tracked <==> DistinctKeys(serviceMap.entries, nodeIPs))
      && (start.settled <==> NoHard(start) && Settled())
    }

    /** How the kernel stands at the end of a quiet sync. */
    ghost predicate KernelSynced(start: Baseline, want: ServerTable)
      reads this, kernel, opener, serviceMap
    {
      && Since(start)
      && (NoHard(start) ==> kernel.bound <= ClusterIPs(serviceMap.entries))
      && (NoHard(start) && start.tracked ==> Below(kernel.servers, want))
      && (Clean(start) ==> kernel.bound == ClusterIPs(serviceMap.entries))
      && (Clean(start) && start.tracked ==> kernel.servers == want)
      && (Clean(start) && start.settled ==> kernel.commands == start.kernelCommands)
    }

    /** The clean-up at the end of a quiet sync. */
    method FinishWholeSync(active: set<ServerKey>, bind: set<IP>, ghost replacement: map<LocalPort, Socket>,
                           ghost start: Baseline, ghost want: ServerTable)
      requires Progress(start, want, serviceMap.entries, active, bind, replacement)
      requires want.Keys == KeysIn(serviceMap.entries, nodeIPs)
      requires start.settled ==>
                 start.tracked && kernelIpvsMap == want && start.bound <= ClusterIPs(serviceMap.entries)
      modifies kernel`servers, kernel`bound, kernel`commands, kernel`hardFaults
      ensures KernelSynced(start, want)
      ensures NoHard(start) ==> old(NoHard(start))
    {
      if start.tracked && NoHard(start) {
        CleanedUp(kernelIpvsMap, kernel.servers, active, want, Clean(start));
      }
      CheckUnusedRule(active, bind);
    }

    lemma ReadyForPorts(start: Baseline, want: ServerTable)
      requires Started(start, want) && Since(start) && Holding(start, map[])
      ensures Progress(start, want, map[], {}, {}, map[])
    {
      assert Tracking(start, want, {});
      NothingArises(kernel.interfaceIPs + start.bound);
    }

    /** The quiet sync, up to the closing of ports. */
    method SyncWholeRules(ghost start: Baseline, ghost want: ServerTable) returns (replacement: map<LocalPort, Socket>)
      requires Started(start, want) && Since(start) && Holding(start, map[])
      modifies kernel, opener
      ensures Holding(start, replacement) && KernelSynced(start, want)
      ensures NoHard(start) ==> old(NoHard(start))
      ensures Clean(start) ==>
                Arises(serviceMap.entries, kernel.interfaceIPs + start.bound, replacement.Keys)
    {
      EveryPortIsPrepared(start, want);
      ReadyForPorts(start, want);
      var active, bind;
      active, bind, replacement := SyncServicePorts(start, want);
      FinishWholeSync(active, bind, replacement, start, want);
    }

    lemma EveryPortIsPrepared(start: Baseline, want: ServerTable)
      requires Started(start, want)
      ensures forall q :: q in serviceMap.entries ==> Prepared(start, want, q, serviceMap.entries[q])
    {
      forall q | q in serviceMap.entries
        ensures Prepared(start, want, q, serviceMap.entries[q])
      {
        if start.tracked {
          WantedIsSettled(serviceMap.entries, endpointsMap.entries, nodeIPs, q);
        }
      }
    }

    // ---------------------------------------------------------------- the incremental sync: services

    /** Deletes the virtual servers of one service port. */
    method DeleteServiceRules(info: ServiceInfo)
      modifies kernel`servers, kernel`commands, kernel`hardFaults
      ensures kernel.hardFaults >= old(kernel.hardFaults)
      ensures kernel.hardFaults == old(kernel.hardFaults) ==>
                kernel.servers == old(kernel.servers) - KeysOf(info, nodeIPs)
    {
      var ok := kernel.DeleteService(ClusterKey(info));
      ghost var gone := {ClusterKey(info)};
      var ips := info.externalIPs;
      for i := 0 to |ips|
        invariant gone == {ClusterKey(info)} + ExternalKeys(info, ips[..i])
        invariant kernel.hardFaults >= old(kernel.hardFaults)
        invariant kernel.hardFaults == old(kernel.hardFaults) ==> kernel.servers == old(kernel.servers) - gone
      {
        assert ips[..i + 1] == ips[..i] + [ips[i]];
        ok := kernel.DeleteService(ExternalKey(info, ips[i]));
        gone := gone + {ExternalKey(info, ips[i])};
      }
      assert ips[..|ips|] == ips;
      if info.nodePort != 0 {
        ghost var before := gone;
        for i := 0 to |nodeIPs|
          invariant gone == before + NodeKeys(info, nodeIPs[..i])
          invariant kernel.hardFaults >= old(kernel.hardFaults)
          invariant kernel.hardFaults == old(kernel.hardFaults) ==> kernel.servers == old(kernel.servers) - gone
        {
          assert nodeIPs[..i + 1] == nodeIPs[..i] + [nodeIPs[i]];
          ok := kernel.DeleteService(NodeKey(info, nodeIPs[i]));
          gone := gone + {NodeKey(info, nodeIPs[i])};
        }
        assert nodeIPs[..|nodeIPs|] == nodeIPs;
      }
      assert gone == KeysOf(info, nodeIPs);
    }

    method DeletePrevious(previous: ServiceMap)
      modifies kernel`servers, kernel`commands, kernel`hardFaults
      ensures kernel.hardFaults >= old(kernel.hardFaults)
      ensures kernel.hardFaults == old(kernel.hardFaults) ==>
                kernel.servers == old(kernel.servers) - KeysIn(previous, nodeIPs)
    {
      ghost var done: ServiceMap := map[];
      var todo := previous.Keys;
      while todo != {}
        invariant todo <= previous.Keys && done == previous - todo
        invariant kernel.hardFaults >= old(kernel.hardFaults)
        invariant kernel.hardFaults == old(kernel.hardFaults) ==>
                    kernel.servers == old(kernel.servers) - KeysIn(done, nodeIPs)
      {
        var q :| q in todo;
        DoneGrows(done, q, previous[q], nodeIPs);
        DeleteServiceRules(previous[q]);
        todo := todo - {q};
        done := done[q := previous[q]];
        assert done == previous - todo;
      }
      assert done == previous;
    }

    /** What holds while virtual servers are being added on top of `before`. */
    ghost predicate Adding(start: Baseline, before: ServerTable, done: set<ServerKey>,
                           replacement: map<LocalPort, Socket>)
      reads this, kernel, opener
    {
      && Since(start) && Holding(start, replacement)
      && Grew(before, kernel.servers, done)
      && (Clean(start) ==> done <= kernel.servers.Keys)
    }

    method AddKey(k: ServerKey, ghost start: Baseline, ghost before: ServerTable, ghost done: set<ServerKey>,
                  ghost replacement: map<LocalPort, Socket>)
      requires Adding(start, before, done, replacement)
      modifies kernel`servers, kernel`commands, kernel`softFaults
      ensures Adding(start, before, done + {k}, replacement)
      ensures Clean(start) ==> old(Clean(start))
    {
      var ok := CreateServiceRule(false, k);
    }

    method AddExternalIPs(q: ServicePortName, info: ServiceInfo, replacement: map<LocalPort, Socket>,
                          ghost start: Baseline, ghost before: ServerTable, ghost done: set<ServerKey>)
      returns (replacement': map<LocalPort, Socket>)
      requires Adding(start, before, done, replacement)
      modifies kernel`servers, kernel`commands, kernel`softFaults, opener
      ensures Adding(start, before, done + ExternalKeys(info, info.externalIPs), replacement')
      ensures Clean(start) ==> old(Clean(start))
      ensures Clean(start) ==>
                replacement'.Keys == replacement.Keys + ExternalPorts(q, info, info.externalIPs, LocalNow())
    {
      replacement' := replacement;
      var ips := info.externalIPs;
      for i := 0 to |ips|
        invariant Adding(start, before, done + ExternalKeys(info, ips[..i]), replacement')
        invariant Clean(start) ==> old(Clean(start))
        invariant Clean(start) ==>
                    replacement'.Keys == replacement.Keys + ExternalPorts(q, info, ips[..i], LocalNow())
      {
        ExternalsGrow(q, info, ips, i, LocalNow());
        ghost var keys := done + ExternalKeys(info, ips[..i]);
        assert keys + {ExternalKey(info, ips[i])} == done + ExternalKeys(info, ips[..i + 1]);
        var ok;
        ok, replacement' := HoldExternalIP(q, info, ips[i], replacement', start);
        if ok {
          AddKey(ExternalKey(info, ips[i]), start, before, keys, replacement');
        }
      }
      assert ips[..|ips|] == ips;
    }

    method AddNodePort(q: ServicePortName, info: ServiceInfo, replacement: map<LocalPort, Socket>,
                       ghost start: Baseline, ghost before: ServerTable, ghost done: set<ServerKey>)
      returns (replacement': map<LocalPort, Socket>)
      requires Adding(start, before, done, replacement)
      modifies kernel`servers, kernel`commands, kernel`softFaults, opener
      ensures Adding(start, before, done + NodeKeys(info, nodeIPs), replacement')
      ensures Clean(start) ==> old(Clean(start)) && replacement'.Keys == replacement.Keys + {NodePortHold(q, info)}
    {
      var ok;
      ok, replacement' := HoldPort(NodePortHold(q, info), replacement, start);
      if !ok {
        return;
      }
      for i := 0 to |nodeIPs|
        invariant Adding(start, before, done + NodeKeys(info, nodeIPs[..i]), replacement')
        invariant Clean(start) ==> old(Clean(start))
      {
        assert nodeIPs[..i + 1] == nodeIPs[..i] + [nodeIPs[i]];
        ghost var keys := done + NodeKeys(info, nodeIPs[..i]);
        assert keys + {NodeKey(info, nodeIPs[i])} == done + NodeKeys(info, nodeIPs[..i + 1]);
        AddKey(NodeKey(info, nodeIPs[i]), start, before, keys, replacement');
      }
      assert nodeIPs[..|nodeIPs|] == nodeIPs;
    }

    /** Adds and holds for one service port. */
    method AddRules(q: ServicePortName, info: ServiceInfo, replacement: map<LocalPort, Socket>,
                    ghost start: Baseline, ghost before: ServerTable, ghost done: set<ServerKey>)
      returns (replacement': map<LocalPort, Socket>)
      requires Adding(start, before, done, replacement)
      modifies kernel`servers, kernel`commands, kernel`softFaults, opener
      ensures Adding(start, before, done + KeysOf(info, nodeIPs), replacement')
      ensures Clean(start) ==> old(Clean(start)) && replacement'.Keys == replacement.Keys + PortsOf(q, info, LocalNow())
    {
      AddKey(ClusterKey(info), start, before, done, replacement);
      ghost var keys := done + {ClusterKey(info)};
      replacement' := AddExternalIPs(q, info, replacement, start, before, keys);
      keys := keys + ExternalKeys(info, info.externalIPs);
      if info.nodePort != 0 {
        replacement' := AddNodePort(q, info, replacement', start, before, keys);
        keys := keys + NodeKeys(info, nodeIPs);
      }
      assert keys == done + KeysOf(info, nodeIPs);
    }

    /** Binds, adds and holds for one service port. */
    method AddServicePort(q: ServicePortName, info: ServiceInfo, replacement: map<LocalPort, Socket>,
                          ghost start: Baseline, ghost before: ServerTable, ghost done: set<ServerKey>)
      returns (replacement': map<LocalPort, Socket>)
      requires Adding(start, before, done, replacement)
      modifies kernel`servers, kernel`bound, kernel`commands, kernel`softFaults, opener
      ensures Adding(start, before, done + KeysOf(info, nodeIPs), replacement')
      ensures old(kernel.bound) <= kernel.bound <= old(kernel.bound) + {info.clusterIP}
      ensures Clean(start) ==>
                && old(Clean(start))
                && kernel.bound == old(kernel.bound) + {info.clusterIP}
                && replacement'.Keys == replacement.Keys + PortsOf(q, info, LocalNow())
    {
      replacement' := replacement;
      var ok := kernel.Bind(info.clusterIP);
      if !ok {
        return;
      }
      replacement' := AddRules(q, info, replacement', start, before, done);
    }

    /** What holds after the service ports in `done` have been added on top of a table, when those
        in `earlier` had been visited before. */
    ghost predicate AddedOnTop(start: Baseline, table: ServerTable, earlier: ServiceMap, done: ServiceMap,
                               replacement: map<LocalPort, Socket>)
      reads this, kernel, opener
    {
      && Adding(start, table, KeysIn(done, nodeIPs), replacement)
      && start.bound <= kernel.bound
      && Visited(start, earlier + done, replacement)
    }

    method AddNextPort(q: ServicePortName, info: ServiceInfo, replacement: map<LocalPort, Socket>,
                       ghost start: Baseline, ghost table: ServerTable, ghost earlier: ServiceMap, ghost done: ServiceMap)
      returns (replacement': map<LocalPort, Socket>)
      requires AddedOnTop(start, table, earlier, done, replacement)
      requires q !in earlier && q !in done
      modifies kernel`servers, kernel`bound, kernel`commands, kernel`softFaults, opener
      ensures AddedOnTop(start, table, earlier, done[q := info], replacement')
      ensures Clean(start) ==> old(Clean(start))
    {
      DoneGrows(done, q, info, nodeIPs);
      replacement' := AddServicePort(q, info, replacement, start, table, KeysIn(done, nodeIPs));
      VisitedOneMore(start, earlier + done, replacement.Keys, replacement', q, info);
      assert (earlier + done)[q := info] == earlier + done[q := info];
    }

    method AddCurrent(current: ServiceMap, replacement: map<LocalPort, Socket>, ghost start: Baseline,
                      ghost earlier: ServiceMap)
      returns (replacement': map<LocalPort, Socket>)
      requires Since(start) && Holding(start, replacement) && start.bound <= kernel.bound
      requires Visited(start, earlier, replacement) && earlier.Keys !! current.Keys
      modifies kernel`servers, kernel`bound, kernel`commands, kernel`softFaults, opener
      ensures AddedOnTop(start, old(kernel.servers), earlier, current, replacement')
      ensures Clean(start) ==> old(Clean(start))
    {
      replacement' := replacement;
      ghost var table := kernel.servers;
      ghost var done: ServiceMap := map[];
      assert earlier + done == earlier;
      var todo := current.Keys;
      while todo != {}
        invariant todo <= current.Keys && done == current - todo
        invariant AddedOnTop(start, table, earlier, done, replacement')
        invariant Clean(start) ==> old(Clean(start))
      {
        var q :| q in todo;
        replacement' := AddNextPort(q, current[q], replacement', start, table, earlier, done);
        todo := todo - {q};
        done := done[q := current[q]];
        assert done == current - todo;
      }
      assert done == current;
    }

    /** What holds after the service changes in `done` have been replayed. */
    ghost predicate Replayed(start: Baseline, table: ServerTable, done: Items<ServiceInfo>,
                             replacement: map<LocalPort, Socket>)
      reads this, kernel, opener, serviceMap
    {
      && Since(start) && Holding(start, replacement)
      && start.bound <= kernel.bound
      && Visited(start, Pending(serviceMap.entries, done), replacement)
      && (NoHard(start) ==>
            ServicePassed(table, kernel.servers, PreviousKeys(done, nodeIPs), CurrentKeys(done, nodeIPs)))
      && (Clean(start) && NoKeyMoves(done, nodeIPs) ==> CurrentKeys(done, nodeIPs) <= kernel.servers.Keys)
    }

    /** First deletes, then adds. */
    method ReplayServiceChange(name: NamespacedName, change: Change<ServiceInfo>,
                               replacement: map<LocalPort, Socket>, ghost start: Baseline,
                               ghost table: ServerTable, ghost done: Items<ServiceInfo>)
      returns (replacement': map<LocalPort, Socket>)
      requires name !in done && Replayed(start, table, done, replacement)
      requires CurrentOf(serviceMap.entries, name, change)
      modifies kernel, opener
      ensures Replayed(start, table, done[name := change], replacement')
      ensures NoHard(start) ==> old(NoHard(start))
      ensures Clean(start) ==> old(Clean(start))
    {
      ItemsGrow(done, name, change, nodeIPs);
      PendingGrows(serviceMap.entries, done, name, change);
      ghost var before := kernel.servers;
      DeletePrevious(Entries(change.previous));
      replacement' := AddCurrent(Entries(change.current), replacement, start, Pending(serviceMap.entries, done));
      if NoHard(start) {
        ServicePassStep(table, before, kernel.servers, PreviousKeys(done, nodeIPs), CurrentKeys(done, nodeIPs),
                        KeysIn(Entries(change.previous), nodeIPs), KeysIn(Entries(change.current), nodeIPs));
      }
      if NoKeyMoves(done[name := change], nodeIPs) {
        LastItemTakesNoKey(done, name, change, nodeIPs);
      }
    }

    /** Replays the pending service changes in any order. */
    method ReplayServiceChanges(ghost start: Baseline) returns (replacement: map<LocalPort, Socket>)
      requires Replayed(start, kernel.servers, map[], map[])
      requires forall n :: n in serviceChanges.items ==> CurrentOf(serviceMap.entries, n, serviceChanges.items[n])
      modifies kernel, opener
      ensures Replayed(start, old(kernel.servers), serviceChanges.items, replacement)
      ensures NoHard(start) ==> old(NoHard(start))
      ensures Clean(start) ==> old(Clean(start))
    {
      replacement := map[];
      ghost var table := kernel.servers;
      var items := serviceChanges.items;
      ghost var done: Items<ServiceInfo> := map[];
      var todo := items.Keys;
      while todo != {}
        invariant todo <= items.Keys && done == items - todo
        invariant Replayed(start, table, done, replacement)
        invariant NoHard(start) ==> old(NoHard(start))
        invariant Clean(start) ==> old(Clean(start))
      {
        var name :| name in todo;
        replacement := ReplayServiceChange(name, items[name], replacement, start, table, done);
        todo := todo - {name};
        done := done[name := items[name]];
        assert done == items - todo;
      }
      assert done == items;
    }

    // ---------------------------------------------------------------- the incremental sync: endpoints

    ghost predicate Reconciling(start: Baseline, mid: ServerTable, want: ServerTable, touched: set<ServerKey>)
      reads this, kernel, opener
    {
      && Since(start)
      && (start.tracked && NoHard(start) ==>
            EndpointPassed(mid, kernel.servers, kernelIpvsMap, want, touched, Clean(start)))
    }

    method SyncEndpointChange(k: ServerKey, q: ServicePortName, ghost start: Baseline, ghost mid: ServerTable,
                              ghost want: ServerTable, ghost touched: set<ServerKey>)
      requires Reconciling(start, mid, want, touched) && WantsFor(start, want, q, {k})
      modifies kernel`servers, kernel`commands, kernel`softFaults, kernel`hardFaults
      ensures Reconciling(start, mid, want, touched + {k})
      ensures NoHard(start) ==> old(NoHard(start))
      ensures Clean(start) ==> old(Clean(start))
    {
      ghost var before := kernel.servers;
      ghost var wasClean := Clean(start);
      assert k in {k};
      CreateEndpointRule(k, q, SeenAt(kernelIpvsMap, k));
      if start.tracked && NoHard(start) {
        EndpointStep(mid, before, kernel.servers, kernelIpvsMap, want, touched, wasClean, Clean(start), k);
      }
    }

    /** Reconciles every virtual server of one service port. */
    method SyncPortEndpoints(q: ServicePortName, info: ServiceInfo, ghost start: Baseline, ghost mid: ServerTable,
                             ghost want: ServerTable, ghost touched: set<ServerKey>)
      requires Reconciling(start, mid, want, touched) && WantsFor(start, want, q, KeysOf(info, nodeIPs))
      modifies kernel`servers, kernel`commands, kernel`softFaults, kernel`hardFaults
      ensures Reconciling(start, mid, want, touched + KeysOf(info, nodeIPs))
      ensures NoHard(start) ==> old(NoHard(start))
      ensures Clean(start) ==> old(Clean(start))
    {
      SyncEndpointChange(ClusterKey(info), q, start, mid, want, touched);
      ghost var keys := touched + {ClusterKey(info)};
      var ips := info.externalIPs;
      for i := 0 to |ips|
        invariant keys == touched + {ClusterKey(info)} + ExternalKeys(info, ips[..i])
        invariant Reconciling(start, mid, want, keys)
        invariant NoHard(start) ==> old(NoHard(start))
        invariant Clean(start) ==> old(Clean(start))
      {
        ExternalsGrow(q, info, ips, i, {});
        SyncEndpointChange(ExternalKey(info, ips[i]), q, start, mid, want, keys);
        keys := keys + {ExternalKey(info, ips[i])};
      }
      assert ips[..|ips|] == ips;
      if info.nodePort != 0 {
        ghost var before := keys;
        for i := 0 to |nodeIPs|
          invariant keys == before + NodeKeys(info, nodeIPs[..i])
          invariant Reconciling(start, mid, want, keys)
          invariant NoHard(start) ==> old(NoHard(start))
          invariant Clean(start) ==> old(Clean(start))
        {
          assert nodeIPs[..i + 1] == nodeIPs[..i] + [nodeIPs[i]];
          assert NodeKey(info, nodeIPs[i]) in NodeKeys(info, nodeIPs);
          SyncEndpointChange(NodeKey(info, nodeIPs[i]), q, start, mid, want, keys);
          keys := keys + {NodeKey(info, nodeIPs[i])};
        }
        assert nodeIPs[..|nodeIPs|] == nodeIPs;
      }
      assert keys == touched + KeysOf(info, nodeIPs);
    }

    /** Reconciles the named service ports that are known, in any order. */
    method SyncNamedPorts(names: set<ServicePortName>, ghost start: Baseline, ghost mid: ServerTable,
                          ghost want: ServerTable, ghost seen: set<ServicePortName>)
      requires Reconciling(start, mid, want, TouchedKeys(seen, serviceMap.entries, nodeIPs))
      requires forall q :: q in serviceMap.entries ==> WantsFor(start, want, q, KeysOf(serviceMap.entries[q], nodeIPs))
      modifies kernel`servers, kernel`commands, kernel`softFaults, kernel`hardFaults
      ensures Reconciling(start, mid, want, TouchedKeys(seen + names, serviceMap.entries, nodeIPs))
      ensures NoHard(start) ==> old(NoHard(start))
      ensures Clean(start) ==> old(Clean(start))
    {
      ghost var all := seen;
      var todo := names;
      while todo != {}
        invariant todo <= names && all == seen + (names - todo)
        invariant Reconciling(start, mid, want, TouchedKeys(all, serviceMap.entries, nodeIPs))
        invariant NoHard(start) ==> old(NoHard(start))
        invariant Clean(start) ==> old(Clean(start))
      {
        var q :| q in todo;
        todo := todo - {q};
        TouchedGrows(all, serviceMap.entries, nodeIPs, q);
        if q in serviceMap.entries {
          SyncPortEndpoints(q, serviceMap.entries[q], start, mid, want,
                            TouchedKeys(all, serviceMap.entries, nodeIPs));
        }
        all := all + {q};
      }
      assert all == seen + names;
    }

    /** Replays the pending endpoints changes in any order: ports that vanished first. */
    method ReplayEndpointsChanges(ghost start: Baseline, ghost mid: ServerTable, ghost want: ServerTable)
      requires Reconciling(start, mid, want, {})
      requires forall q :: q in serviceMap.entries ==> WantsFor(start, want, q, KeysOf(serviceMap.entries[q], nodeIPs))
      modifies kernel`servers, kernel`commands, kernel`softFaults, kernel`hardFaults
      ensures Reconciling(start, mid, want,
                          TouchedKeys(NamesIn(endpointsChanges.items), serviceMap.entries, nodeIPs))
      ensures NoHard(start) ==> old(NoHard(start))
      ensures Clean(start) ==> old(Clean(start))
    {
      var items := endpointsChanges.items;
      ghost var seen: set<ServicePortName> := {};
      ghost var done: Items<seq<EndpointsInfo>> := map[];
      var todo := items.Keys;
      assert TouchedKeys(seen, serviceMap.entries, nodeIPs) == {};
      while todo != {}
        invariant todo <= items.Keys && done == items - todo && seen == NamesIn(done)
        invariant Reconciling(start, mid, want, TouchedKeys(seen, serviceMap.entries, nodeIPs))
        invariant NoHard(start) ==> old(NoHard(start))
        invariant Clean(start) ==> old(Clean(start))
      {
        var name :| name in todo;
        var previous, current := Entries(items[name].previous), Entries(items[name].current);
        NamesGrow(done, name, items[name]);
        SyncNamedPorts(previous.Keys - current.Keys, start, mid, want, seen);
        seen := seen + (previous.Keys - current.Keys);
        SyncNamedPorts(current.Keys, start, mid, want, seen);
        seen := seen + current.Keys;
        todo := todo - {name};
        done := done[name := items[name]];
        assert done == items - todo;
      }
      assert done == items;
    }

    // ---------------------------------------------------------------- one sync

    /** Folds the pending changes into the two maps and collects what has gone stale. */
    method UpdateMaps() returns (staleServices: set<IP>, staleEndpoints: set<StaleEndpoint>)
      requires Valid()
      modifies serviceMap, endpointsMap
      ensures UpToDate()
      ensures Covers(serviceChanges.items, old(serviceMap.entries), serviceMap.entries)
      ensures Covers(endpointsChanges.items, old(endpointsMap.entries), endpointsMap.entries)
      ensures staleServices == StaleUDP(old(serviceMap.entries), serviceMap.entries) +
                               FilledUDP(serviceMap.entries, FilledNames(old(endpointsMap.entries), endpointsMap.entries))
      ensures staleEndpoints == StalePairs(old(endpointsMap.entries), endpointsMap.entries)
    {
      staleServices := SyncServiceMap(serviceMap, serviceChanges);
      var names;
      staleEndpoints, names := SyncEndpointsMap(endpointsMap, endpointsChanges);
      var filled := StaleByFilling(names);
      staleServices := staleServices + filled;
    }

    method StaleByFilling(names: set<ServicePortName>) returns (stale: set<IP>)
      ensures stale == FilledUDP(serviceMap.entries, names)
    {
      stale := {};
      var todo := names;
      while todo != {}
        invariant todo <= names
        invariant stale == FilledUDP(serviceMap.entries, names - todo)
      {
        var q :| q in todo;
        todo := todo - {q};
        if q in serviceMap.entries && serviceMap.entries[q].protocol == UDP {
          stale := stale + {serviceMap.entries[q].clusterIP};
        }
      }
      assert names - todo == names;
    }

    /** `v` is the state before this sync, in which only the maps and the listings have been
        brought up to date so far. */
    ghost predicate JustListed(v: View)
      reads this, kernel, opener, serviceChanges, endpointsChanges
    {
      && opener.Valid() && Holds(portsMap, opener.open)
      && v.serviceItems == serviceChanges.items && v.endpointItems == endpointsChanges.items
      && v.servers == kernel.servers && v.bound == kernel.bound && v.ports == portsMap.Keys
      && v.kernelCommands == kernel.commands && v.portCommands == opener.commands
      && v.hardFaults <= kernel.hardFaults && v.softFaults == kernel.softFaults && v.refusals == opener.refusals
      && (v.hardFaults == kernel.hardFaults ==> kernelIpvsMap == kernel.servers && kernelClusterMap == kernel.bound)
    }

    ghost function BaselineOf(v: View): Baseline
      reads this, kernel, serviceMap, endpointsMap
    {
      Baseline(DistinctKeys(serviceMap.entries, nodeIPs), v.hardFaults == kernel.hardFaults && Settled(),
               v.hardFaults, v.softFaults, v.refusals, v.kernelCommands, v.portCommands, v.bound)
    }

    lemma ReadyToHold(v: View)
      requires JustListed(v)
      ensures Since(BaselineOf(v)) && Holding(BaselineOf(v), map[])
    {
      assert portsMap + map[] == portsMap;
    }

    method ReconcileQuietly(ghost v: View)
      requires JustListed(v) && Quiet(v)
      requires v.services == serviceMap.entries && v.endpoints == endpointsMap.entries
      modifies this`portsMap, kernel, opener
      ensures opener.Valid() && Holds(portsMap, opener.open)
      ensures Sync(Facts(), v, CurrentView())
    {
      ghost var start := BaselineOf(v);
      ghost var want := Wanted(serviceMap.entries, endpointsMap.entries, nodeIPs);
      ReadyToHold(v);
      assert NoHard(start) && Distinct(Facts(), v) && ExactRules(Facts(), v) ==> start.settled;
      var replacement := SyncWholeRules(start, want);
      ReplacePorts(replacement, start);
      QuietOutcome(Facts(), v, CurrentView(), start);
    }

    lemma ReadyToReplay(v: View, start: Baseline)
      requires JustListed(v) && start == BaselineOf(v)
      ensures Replayed(start, v.servers, map[], map[])
    {
      ReadyToHold(v);
      assert Pending(serviceMap.entries, map[]) == map[];
      NothingArises(kernel.interfaceIPs + start.bound);
    }

    /** What the service pass has left, when `mid` was the table after it. */
    ghost predicate ServicesReplayed(v: View, start: Baseline, replacement: map<LocalPort, Socket>, mid: ServerTable)
      reads this, kernel, opener, serviceChanges, serviceMap
    {
      && start.bound <= kernel.bound
      && Visited(start, Pending(serviceMap.entries, serviceChanges.items), replacement)
      && (NoHard(start) ==>
            ServicePassed(v.servers, mid, PreviousKeys(serviceChanges.items, nodeIPs),
                          CurrentKeys(serviceChanges.items, nodeIPs)))
      && (Clean(start) && NoKeyMoves(serviceChanges.items, nodeIPs) ==>
            CurrentKeys(serviceChanges.items, nodeIPs) <= mid.Keys)
    }

    method ReplayServices(ghost v: View, ghost start: Baseline)
      returns (replacement: map<LocalPort, Socket>, ghost mid: ServerTable)
      requires JustListed(v) && start == BaselineOf(v)
      requires Covers(serviceChanges.items, v.services, serviceMap.entries)
      modifies kernel, opener
      ensures Since(start) && Holding(start, replacement)
      ensures mid == kernel.servers && ServicesReplayed(v, start, replacement, mid)
      ensures NoHard(start) ==> kernelIpvsMap == v.servers
    {
      ReadyToReplay(v, start);
      CoveredIsCurrent(serviceChanges.items, v.services, serviceMap.entries);
      replacement := ReplayServiceChanges(start);
      mid := kernel.servers;
    }

    /** Both passes: the service changes, then the endpoints changes against the listing taken
        before. */
    method ReplayChanges(ghost v: View, ghost start: Baseline, ghost want: ServerTable)
      returns (replacement: map<LocalPort, Socket>, ghost mid: ServerTable)
      requires JustListed(v) && start == BaselineOf(v)
      requires want == Wanted(serviceMap.entries, endpointsMap.entries, nodeIPs)
      requires Covers(serviceChanges.items, v.services, serviceMap.entries)
      modifies kernel, opener
      ensures Holding(start, replacement) && ServicesReplayed(v, start, replacement, mid)
      ensures Reconciling(start, mid, want, TouchedKeys(NamesIn(endpointsChanges.items), serviceMap.entries, nodeIPs))
      ensures NoHard(start) ==> kernelIpvsMap == v.servers
    {
      replacement, mid := ReplayServices(v, start);
      ReadyForEndpoints(start, want);
      ReplayEndpointsChanges(start, mid, want);
    }

    /** The incremental sync, with the closing of ports. */
    method ReconcileIncrementally(ghost v: View)
      requires JustListed(v) && !Quiet(v)
      requires Covers(serviceChanges.items, v.services, serviceMap.entries)
      requires Covers(endpointsChanges.items, v.endpoints, endpointsMap.entries)
      modifies this`portsMap, kernel, opener
      ensures opener.Valid() && Holds(portsMap, opener.open)
      ensures Sync(Facts(), v, CurrentView())
    {
      ghost var mid, start;
      var replacement;
      replacement, mid, start := ReplayOnView(v);
      ghost var x := CurrentView();
      ReplacePorts(replacement, start);
      IncrementalOutcome(Facts(), v, x, CurrentView(), mid);
    }

    method ReplayOnView(ghost v: View)
      returns (replacement: map<LocalPort, Socket>, ghost mid: ServerTable, ghost start: Baseline)
      requires JustListed(v) && Covers(serviceChanges.items, v.services, serviceMap.entries)
      modifies kernel, opener
      ensures start.refusals == v.refusals && start.portCommands == v.portCommands && Holding(start, replacement)
      ensures TablesReplayed(Facts(), v, CurrentView(), mid) && RestReplayed(Facts(), v, CurrentView(), replacement.Keys)
    {
      start := BaselineOf(v);
      ghost var want := Wanted(serviceMap.entries, endpointsMap.entries, nodeIPs);
      replacement, mid := ReplayChanges(v, start, want);
      TablesOfReplay(v, start, want, replacement, mid);
      RestOfReplay(v, start, replacement, mid);
    }

    ghost predicate SameBaseline(v: View, start: Baseline)
      reads this, serviceMap, serviceChanges
    {
      && start.hard == v.hardFaults && start.soft == v.softFaults && start.refusals == v.refusals
      && start.bound == v.bound && v.serviceItems == serviceChanges.items
      && start.tracked == DistinctKeys(serviceMap.entries, nodeIPs)
    }

    lemma TablesOfReplay(v: View, start: Baseline, want: ServerTable, replacement: map<LocalPort, Socket>,
                         mid: ServerTable)
      requires SameBaseline(v, start) && ServicesReplayed(v, start, replacement, mid)
      requires Reconciling(start, mid, want, TouchedKeys(NamesIn(endpointsChanges.items), serviceMap.entries, nodeIPs))
      requires NoHard(start) ==> kernelIpvsMap == v.servers
      requires want == Wanted(serviceMap.entries, endpointsMap.entries, nodeIPs)
      requires v.endpointItems == endpointsChanges.items
      ensures TablesReplayed(Facts(), v, CurrentView(), mid)
    {
    }

    lemma RestOfReplay(v: View, start: Baseline, replacement: map<LocalPort, Socket>, mid: ServerTable)
      requires SameBaseline(v, start) && ServicesReplayed(v, start, replacement, mid) && Since(start)
      ensures RestReplayed(Facts(), v, CurrentView(), replacement.Keys)
    {
    }

    lemma ReadyForEndpoints(start: Baseline, want: ServerTable)
      requires want == Wanted(serviceMap.entries, endpointsMap.entries, nodeIPs) && Since(start)
      requires start.tracked ==> DistinctKeys(serviceMap.entries, nodeIPs)
      ensures Reconciling(start, kernel.servers, want, {})
      ensures TouchedKeys(NamesIn(map[]), serviceMap.entries, nodeIPs) == {}
      ensures forall q :: q in serviceMap.entries ==> WantsFor(start, want, q, KeysOf(serviceMap.entries[q], nodeIPs))
    {
      forall q | q in serviceMap.entries
        ensures WantsFor(start, want, q, KeysOf(serviceMap.entries[q], nodeIPs))
      {
        if start.tracked {
          WantedForPort(serviceMap.entries, endpointsMap.entries, nodeIPs, q);
        }
      }
    }

    /** Lists the kernel and then drives it one way or the other. */
    method Reconcile(ghost v: View)
      requires opener.Valid() && Holds(portsMap, opener.open)
      requires CurrentView() == v.(services := serviceMap.entries, endpoints := endpointsMap.entries)
      requires Covers(serviceChanges.items, v.services, serviceMap.entries)
      requires Covers(endpointsChanges.items, v.endpoints, endpointsMap.entries)
      modifies this`portsMap, this`kernelIpvsMap, this`kernelClusterMap, kernel, opener
      ensures opener.Valid() && Holds(portsMap, opener.open)
      ensures Sync(Facts(), v, CurrentView())
    {
      BuildIpvsMap();
      BuildClusterMap();
      if |serviceChanges.items| == 0 && |endpointsChanges.items| == 0 {
        NothingPending(serviceChanges.items, v.services, serviceMap.entries);
        NothingPending(endpointsChanges.items, v.endpoints, endpointsMap.entries);
        ReconcileQuietly(v);
      } else {
        ReconcileIncrementally(v);
      }
    }

    method ClearServiceChanges()
      requires serviceChanges.Valid() && serviceMap.entries == ServiceIndexOf(serviceChanges.live)
      requires serviceChanges.items == map[] ==> serviceMap.entries == ServiceIndexOf(serviceChanges.synced)
      modifies serviceChanges
      ensures serviceChanges.Valid() && serviceChanges.items == map[]
      ensures serviceMap.entries == ServiceIndexOf(serviceChanges.synced)
      ensures serviceChanges.live == old(serviceChanges.live)
    {
      if |serviceChanges.items| > 0 {
        serviceChanges.Clear();
      }
    }

    method ClearEndpointsChanges()
      requires endpointsChanges.Valid()
      requires endpointsMap.entries == EndpointIndexOf(endpointsChanges.live, endpointsChanges.hostname)
      requires endpointsChanges.items == map[] ==>
                 endpointsMap.entries == EndpointIndexOf(endpointsChanges.synced, endpointsChanges.hostname)
      modifies endpointsChanges
      ensures endpointsChanges.Valid() && endpointsChanges.items == map[]
      ensures endpointsMap.entries == EndpointIndexOf(endpointsChanges.synced, endpointsChanges.hostname)
      ensures endpointsChanges.live == old(endpointsChanges.live)
    {
      if |endpointsChanges.items| > 0 {
        endpointsChanges.Clear();
      }
    }

    /** Forgets the changes that have been replayed. */
    method ClearChanges()
      requires serviceChanges.Valid() && endpointsChanges.Valid() && UpToDate()
      requires serviceChanges.items == map[] ==> serviceMap.entries == ServiceIndexOf(serviceChanges.synced)
      requires endpointsChanges.items == map[] ==>
                 endpointsMap.entries == EndpointIndexOf(endpointsChanges.synced, endpointsChanges.hostname)
      modifies serviceChanges, endpointsChanges
      ensures serviceChanges.Valid() && endpointsChanges.Valid()
      ensures serviceMap.entries == ServiceIndexOf(serviceChanges.synced)
      ensures endpointsMap.entries == EndpointIndexOf(endpointsChanges.synced, endpointsChanges.hostname)
      ensures Quiet(CurrentView()) && Recorded(old(CurrentView()), CurrentView())
      ensures serviceChanges.live == old(serviceChanges.live) && endpointsChanges.live == old(endpointsChanges.live)
    {
      ClearServiceChanges();
      assert serviceChanges.Valid();
      ClearEndpointsChanges();
      assert serviceChanges.Valid();
    }

    /** Folds the changes in and drives the kernel; the changes are still there. */
    method FoldAndReconcile() returns (staleServices: set<IP>, staleEndpoints: set<StaleEndpoint>)
      requires Valid()
      modifies this`portsMap, this`kernelIpvsMap, this`kernelClusterMap, kernel, opener, serviceMap, endpointsMap
      ensures opener.Valid() && Holds(portsMap, opener.open) && UpToDate()
      ensures serviceChanges.items == map[] ==> serviceMap.entries == ServiceIndexOf(serviceChanges.synced)
      ensures endpointsChanges.items == map[] ==>
                endpointsMap.entries == EndpointIndexOf(endpointsChanges.synced, endpointsChanges.hostname)
      ensures Sync(Facts(), old(CurrentView()), CurrentView())
      ensures staleServices == StaleUDP(old(serviceMap.entries), serviceMap.entries) +
                               FilledUDP(serviceMap.entries, FilledNames(old(endpointsMap.entries), endpointsMap.entries))
      ensures staleEndpoints == StalePairs(old(endpointsMap.entries), endpointsMap.entries)
    {
      ghost var v := CurrentView();
      staleServices, staleEndpoints := UpdateMaps();
      PendingEmpty(serviceChanges.items, v.services, serviceMap.entries);
      PendingEmpty(endpointsChanges.items, v.endpoints, endpointsMap.entries);
      Reconcile(v);
    }

    method SyncNow() returns (staleServices: set<IP>, staleEndpoints: set<StaleEndpoint>)
      requires Valid()
      modifies this`portsMap, this`kernelIpvsMap, this`kernelClusterMap
      modifies kernel, opener, serviceMap, endpointsMap, serviceChanges, endpointsChanges
      ensures Valid() && UpToDate() && Quiet(CurrentView())
      ensures serviceChanges.live == old(serviceChanges.live) && endpointsChanges.live == old(endpointsChanges.live)
      ensures Sync(Facts(), old(CurrentView()), CurrentView())
      ensures staleServices == StaleUDP(old(serviceMap.entries), serviceMap.entries) +
                               FilledUDP(serviceMap.entries, FilledNames(old(endpointsMap.entries), endpointsMap.entries))
      ensures staleEndpoints == StalePairs(old(endpointsMap.entries), endpointsMap.entries)
    {
      ghost var v := CurrentView();
      staleServices, staleEndpoints := FoldAndReconcile();
      ghost var w := CurrentView();
      ClearChanges();
      ItemsDoNotMatter(Facts(), v, w, CurrentView());
    }

    /** One whole sync. Nothing happens until both caches have been filled. */
    method SyncProxyRules() returns (staleServices: set<IP>, staleEndpoints: set<StaleEndpoint>)
      requires Valid()
      modifies this`portsMap, this`kernelIpvsMap, this`kernelClusterMap
      modifies kernel, opener, serviceMap, endpointsMap, serviceChanges, endpointsChanges
      ensures Valid()
      ensures serviceChanges.live == old(serviceChanges.live) && endpointsChanges.live == old(endpointsChanges.live)
      ensures SyncedSince(old(CurrentView()), endpointsSynced && servicesSynced)
      ensures endpointsSynced && servicesSynced ==>
                && staleServices == StaleUDP(old(serviceMap.entries), serviceMap.entries) +
                                    FilledUDP(serviceMap.entries,
                                              FilledNames(old(endpointsMap.entries), endpointsMap.entries))
                && staleEndpoints == StalePairs(old(endpointsMap.entries), endpointsMap.entries)
    {
      staleServices, staleEndpoints := {}, {};
      if !endpointsSynced || !servicesSynced {
        return;
      }
      staleServices, staleEndpoints := SyncNow();
    }

    // ---------------------------------------------------------------- events

    /** Since the view `v` there was one sync, if `sync` says so, or nothing. */
    ghost predicate SyncedSince(v: View, sync: bool)
      reads this, serviceChanges, endpointsChanges, serviceMap, endpointsMap, kernel, opener
    {
      if sync then Sync(Facts(), v, CurrentView()) && UpToDate() && Quiet(CurrentView()) else CurrentView() == v
    }

    method RecordService(name: NamespacedName, previous: Option<Service>, current: Option<Service>)
      returns (pending: bool, ghost recorded: View)
      requires Valid() && previous == Lookup(serviceChanges.live, name)
      requires current.Some? ==> current.value.name == name
      modifies serviceChanges
      ensures Valid()
      ensures serviceChanges.live ==
              if current.Some? then old(serviceChanges.live)[name := current.value] else old(serviceChanges.live) - {name}
      ensures recorded == CurrentView() && Recorded(old(CurrentView()), recorded)
      ensures pending <==> recorded.serviceItems != map[]
    {
      pending := serviceChanges.Update(name, previous, current);
      recorded := CurrentView();
    }

    method RecordEndpoints(name: NamespacedName, previous: Option<Endpoints>, current: Option<Endpoints>)
      returns (pending: bool, ghost recorded: View)
      requires Valid() && previous == Lookup(endpointsChanges.live, name)
      requires current.Some? ==> current.value.name == name
      modifies endpointsChanges
      ensures Valid()
      ensures endpointsChanges.live ==
              if current.Some? then old(endpointsChanges.live)[name := current.value] else old(endpointsChanges.live) - {name}
      ensures recorded == CurrentView() && Recorded(old(CurrentView()), recorded)
      ensures pending <==> recorded.endpointItems != map[]
    {
      pending := endpointsChanges.Update(name, previous, current);
      recorded := CurrentView();
    }

    method SyncIf(pending: bool)
      requires Valid()
      modifies this`portsMap, this`kernelIpvsMap, this`kernelClusterMap
      modifies kernel, opener, serviceMap, endpointsMap, serviceChanges, endpointsChanges
      ensures Valid()
      ensures serviceChanges.live == old(serviceChanges.live) && endpointsChanges.live == old(endpointsChanges.live)
      ensures SyncedSince(old(CurrentView()), pending && initialized && endpointsSynced && servicesSynced)
    {
      if pending && initialized {
        var _, _ := SyncProxyRules();
      }
    }

    /** A service was added, updated or deleted. Each handler returns the view between recording
        the event and the sync it may trigger. */
    method OnServiceEvent(name: NamespacedName, previous: Option<Service>, current: Option<Service>)
      returns (ghost recorded: View)
      requires Valid() && previous == Lookup(serviceChanges.live, name)
      requires current.Some? ==> current.value.name == name
      modifies this`portsMap, this`kernelIpvsMap, this`kernelClusterMap
      modifies kernel, opener, serviceMap, endpointsMap, serviceChanges, endpointsChanges
      ensures Valid()
      ensures serviceChanges.live ==
              if current.Some? then old(serviceChanges.live)[name := current.value] else old(serviceChanges.live) - {name}
      ensures endpointsChanges.live == old(endpointsChanges.live)
      ensures Recorded(old(CurrentView()), recorded)
      ensures SyncedSince(recorded,
                          recorded.serviceItems != map[] && initialized && endpointsSynced && servicesSynced)
    {
      var pending;
      pending, recorded := RecordService(name, previous, current);
      SyncIf(pending);
    }

    /** An endpoints object was added, updated or deleted. */
    method OnEndpointsEvent(name: NamespacedName, previous: Option<Endpoints>, current: Option<Endpoints>)
      returns (ghost recorded: View)
      requires Valid() && previous == Lookup(endpointsChanges.live, name)
      requires current.Some? ==> current.value.name == name
      modifies this`portsMap, this`kernelIpvsMap, this`kernelClusterMap
      modifies kernel, opener, serviceMap, endpointsMap, serviceChanges, endpointsChanges
      ensures Valid()
      ensures endpointsChanges.live ==
              if current.Some? then old(endpointsChanges.live)[name := current.value] else old(endpointsChanges.live) - {name}
      ensures serviceChanges.live == old(serviceChanges.live)
      ensures Recorded(old(CurrentView()), recorded)
      ensures SyncedSince(recorded,
                          recorded.endpointItems != map[] && initialized && endpointsSynced && servicesSynced)
    {
      var pending;
      pending, recorded := RecordEndpoints(name, previous, current);
      SyncIf(pending);
    }

    method OnServiceSynced()
      requires Valid()
      modifies this, kernel, opener, serviceMap, endpointsMap, serviceChanges, endpointsChanges
      ensures Valid() && servicesSynced && endpointsSynced == old(endpointsSynced)
      ensures initialized == endpointsSynced
      ensures serviceChanges.live == old(serviceChanges.live) && endpointsChanges.live == old(endpointsChanges.live)
      ensures SyncedSince(old(CurrentView()), endpointsSynced)
    {
      servicesSynced := true;
      initialized := servicesSynced && endpointsSynced;
      var _, _ := SyncProxyRules();
    }

    /** Unlike the services handler, this one leaves `initialized` as it is. */
    method OnEndpointsSynced()
      requires Valid()
      modifies this, kernel, opener, serviceMap, endpointsMap, serviceChanges, endpointsChanges
      ensures Valid() && endpointsSynced && servicesSynced == old(servicesSynced)
      ensures initialized == old(initialized)
      ensures serviceChanges.live == old(serviceChanges.live) && endpointsChanges.live == old(endpointsChanges.live)
      ensures SyncedSince(old(CurrentView()), servicesSynced)
    {
      endpointsSynced := true;
      var _, _ := SyncProxyRules();
    }
  }

  lemma HoldsWith(held: map<LocalPort, Socket>, open: map<Socket, LocalPort>, lp: LocalPort, s: Socket)
    requires Holds(held, open) && s !in open && !Taken(open, lp)
    ensures lp !in held
    ensures Holds(held[lp := s], open[s := lp])
  {
  }

  lemma HoldsWithout(held: map<LocalPort, Socket>, open: map<Socket, LocalPort>, lp: LocalPort)
    requires Holds(held, open) && lp in held
    ensures Holds(held - {lp}, open - {held[lp]})
  {
  }

  lemma WantedForPort(services: ServiceMap, endpoints: EndpointMap, nodeIPs: seq<IP>, q: ServicePortName)
    requires DistinctKeys(services, nodeIPs) && q in services
    ensures forall k :: k in KeysOf(services[q], nodeIPs) ==>
                          && k in Wanted(services, endpoints, nodeIPs)
                          && Wanted(services, endpoints, nodeIPs)[k] == DestinationsOf(endpoints, q)
  {
    forall k | k in KeysOf(services[q], nodeIPs)
      ensures k in Wanted(services, endpoints, nodeIPs)
      ensures Wanted(services, endpoints, nodeIPs)[k] == DestinationsOf(endpoints, q)
    {
      WantedAt(services, endpoints, nodeIPs, q, k);
    }
  }

  /** Dropping what is not active from a finished quiet sync leaves nothing unwanted, and all
      that is wanted if every key was handled without failures. */
  lemma CleanedUp(snapshot: ServerTable, table: ServerTable, active: set<ServerKey>, want: ServerTable, clean: bool)
    requires QuietProgress(snapshot, table, active, want, clean)
    ensures Below(table - (table.Keys - active), want)
    ensures clean && active == want.Keys ==> table - (table.Keys - active) == want
    ensures active == want.Keys && snapshot == want ==> table.Keys <= active
  {
  }

  lemma TouchedGrows(names: set<ServicePortName>, services: ServiceMap, nodeIPs: seq<IP>, q: ServicePortName)
    ensures TouchedKeys(names + {q}, services, nodeIPs) ==
            TouchedKeys(names, services, nodeIPs) + if q in services then KeysOf(services[q], nodeIPs) else {}
  {
  }

  lemma NamesGrow(items: Items<seq<EndpointsInfo>>, n: NamespacedName, change: Change<seq<EndpointsInfo>>)
    requires n !in items
    ensures NamesIn(items[n := change]) ==
            NamesIn(items) + (Entries(change.previous).Keys - Entries(change.current).Keys) + Entries(change.current).Keys
  {
    var more := items[n := change];
    assert more[n] == change && forall m :: m in items ==> m in more && more[m] == items[m];
    assert NamesIn(more) == NamesIn(items) + Mentioned(change);
  }

  /** The outcome of a quiet sync, gathered from its parts. */
  /** The outcome of a quiet sync, gathered from its parts. */
  lemma QuietOutcome(h: Setting, v: View, w: View, start: Baseline)
    requires Quiet(v) && w.services == v.services && w.endpoints == v.endpoints
    requires v.hardFaults <= w.hardFaults && v.softFaults <= w.softFaults && v.refusals <= w.refusals
    requires start.tracked <==> Distinct(h, v)
    requires NoFault(v, w) && Distinct(h, v) && ExactRules(h, v) ==> start.settled
    requires NoHardFault(v, w) ==> w.bound <= ClusterIPs(w.services)
    requires NoHardFault(v, w) && start.tracked ==> Below(w.servers, WantedBy(h, w))
    requires NoFault(v, w) ==> w.bound == ClusterIPs(w.services)
    requires NoFault(v, w) && start.tracked ==> w.servers == WantedBy(h, w)
    requires NoFault(v, w) && start.settled ==> w.kernelCommands == v.kernelCommands
    requires NoFault(v, w) ==> Arises(w.services, LocalIPs(h, v), w.ports) && PortsCounted(v, w)
    ensures Sync(h, v, w)
  {
  }

  /** What the two passes make of the virtual servers, seen as views. */
  ghost predicate TablesReplayed(h: Setting, v: View, w: View, mid: ServerTable) {
    && (NoHardFault(v, w) ==>
          ServicePassed(v.servers, mid, PreviousKeys(v.serviceItems, h.nodeIPs), CurrentKeys(v.serviceItems, h.nodeIPs)))
    && (NoFault(v, w) && NoKeyMoves(v.serviceItems, h.nodeIPs) ==> CurrentKeys(v.serviceItems, h.nodeIPs) <= mid.Keys)
    && (NoHardFault(v, w) && Distinct(h, w) ==>
          EndpointPassed(mid, w.servers, v.servers, WantedBy(h, w),
                         TouchedKeys(NamesIn(v.endpointItems), w.services, h.nodeIPs), NoFault(v, w)))
  }

  /** What they make of the bound addresses and, with `ports`, of the held ports. */
  ghost predicate RestReplayed(h: Setting, v: View, w: View, ports: set<LocalPort>) {
    && v.hardFaults <= w.hardFaults && v.softFaults <= w.softFaults && v.refusals <= w.refusals
    && v.bound <= w.bound <= v.bound + ClusterIPs(PendingIn(v, w))
    && (NoFault(v, w) ==>
          w.bound == v.bound + ClusterIPs(PendingIn(v, w)) && Arises(PendingIn(v, w), LocalIPs(h, v), ports))
  }

  lemma TableOutcome(h: Setting, v: View, w: View, mid: ServerTable)
    requires TablesReplayed(h, v, w, mid) && NoHardFault(v, w) && Distinct(h, w)
    ensures TableSynced(BatchOf(h, v, w), v.servers, w.servers, NoFault(v, w))
  {
    assert IncrementallySynced(BatchOf(h, v, w), v.servers, mid, w.servers, NoFault(v, w));
  }

  lemma ReplayedAlso(h: Setting, v: View, x: View, w: View, mid: ServerTable)
    requires TablesReplayed(h, v, x, mid) && RestReplayed(h, v, x, w.ports) && OnlyPortsDiffer(x, w)
    ensures TablesReplayed(h, v, w, mid) && RestReplayed(h, v, w, w.ports)
  {
  }

  /** The outcome of an incremental sync, gathered from its parts. */
  lemma IncrementalOutcome(h: Setting, v: View, x: View, w: View, mid: ServerTable)
    requires !Quiet(v) && TablesReplayed(h, v, x, mid) && RestReplayed(h, v, x, w.ports) && OnlyPortsDiffer(x, w)
    requires NoFault(v, w) ==> PortsCounted(v, w)
    requires Covers(v.serviceItems, v.services, w.services) && Covers(v.endpointItems, v.endpoints, w.endpoints)
    ensures Sync(h, v, w)
  {
    ReplayedAlso(h, v, x, w, mid);
    if NoHardFault(v, w) && Distinct(h, w) {
      TableOutcome(h, v, w, mid);
    }
    assert IncrementalSync(h, v, w);
  }

  /** Without pending items, applying them changes nothing. */
  lemma NothingPending<V>(items: Items<V>, m: Ports<V>, m': Ports<V>)
    requires Covers(items, m, m') && items == map[]
    ensures m == m'
  {
    forall q
      ensures Lookup(m, q) == Lookup(m', q)
    {
    }
    SameLookups(m, m');
  }

  lemma PendingEmpty<V>(items: Items<V>, m: Ports<V>, m': Ports<V>)
    requires Covers(items, m, m')
    ensures items == map[] ==> m == m'
  {
    if items == map[] {
      NothingPending(items, m, m');
    }
  }

  /** The outcome of a sync does not mention the items left pending. */
  lemma ItemsDoNotMatter(h: Setting, v: View, w: View, w': View)
    requires Sync(h, v, w) && Recorded(w, w')
    ensures Sync(h, v, w')
  {
    assert BatchOf(h, v, w') == BatchOf(h, v, w);
  }

  lemma CoveredIsCurrent(items: Items<ServiceInfo>, s0: ServiceMap, s1: ServiceMap)
    requires Covers(items, s0, s1)
    ensures forall n :: n in items ==> CurrentOf(s1, n, items[n])
  {
  }

  lemma DoneGrows(done: ServiceMap, q: ServicePortName, info: ServiceInfo, nodeIPs: seq<IP>)
    requires q !in done
    ensures KeysIn(done[q := info], nodeIPs) == KeysIn(done, nodeIPs) + KeysOf(info, nodeIPs)
    ensures ClusterIPs(done[q := info]) == ClusterIPs(done) + {info.clusterIP}
  {
    var more := done[q := info];
    assert forall p :: p in more <==> p in done || p == q;
    assert more[q] == info && forall p :: p in done ==> more[p] == done[p];
  }

  lemma ExternalsGrow(q: ServicePortName, info: ServiceInfo, ips: seq<IP>, i: nat, local: set<IP>)
    requires i < |ips|
    ensures ExternalKeys(info, ips[..i + 1]) == ExternalKeys(info, ips[..i]) + {ExternalKey(info, ips[i])}
    ensures ExternalPorts(q, info, ips[..i + 1], local) ==
            ExternalPorts(q, info, ips[..i], local) + ExternalPorts(q, info, [ips[i]], local)
    ensures ExternalKey(info, ips[i]) in ExternalKeys(info, ips)
    ensures ExternalPorts(q, info, [ips[i]], local) <= ExternalPorts(q, info, ips, local)
    ensures ips[i] in ips
  {
    assert ips[..i + 1] == ips[..i] + [ips[i]];
  }

}
