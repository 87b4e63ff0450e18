/** Whole runs of the reconciler. A run is a sequence of views of its state; each step records an
    event or is one sync, quiet or incremental. */
module SyncRuns {
  import opened ProxyTypes
  import opened ChangeTracking
  import opened ServiceIndex
  import opened EndpointIndex
  import opened Host
  import opened WantedState
  import opened HeldPorts

  /** The host facts that stay fixed over a run. */
  datatype Setting = Setting(nodeIPs: seq<IP>, interfaceIPs: set<IP>)

  datatype View = View(
    services: ServiceMap, endpoints: EndpointMap,
    serviceItems: Items<ServiceInfo>, endpointItems: Items<seq<EndpointsInfo>>,
    servers: ServerTable, bound: set<IP>, ports: set<LocalPort>,
    kernelCommands: nat, portCommands: nat,
    hardFaults: nat, softFaults: nat, refusals: nat)

  /** No list or delete call failed between the two views. */
  ghost predicate NoHardFault(v: View, w: View) {
    v.hardFaults == w.hardFaults
  }

  /** No call at all failed between the two views. */
  ghost predicate NoFault(v: View, w: View) {
    v.hardFaults == w.hardFaults && v.softFaults == w.softFaults && v.refusals == w.refusals
  }

  ghost function WantedBy(h: Setting, v: View): ServerTable {
    Wanted(v.services, v.endpoints, h.nodeIPs)
  }

  ghost predicate Distinct(h: Setting, v: View) {
    DistinctKeys(v.services, h.nodeIPs)
  }

  /** The addresses on the host, those of the dummy link included. */
  ghost function LocalIPs(h: Setting, v: View): set<IP> {
    h.interfaceIPs + v.bound
  }

  /** The kernel is exactly what the maps call for. */
  ghost predicate ExactRules(h: Setting, v: View) {
    v.servers == WantedBy(h, v) && v.bound == ClusterIPs(v.services)
  }

  /** The held ports are exactly what the maps and the addresses on the host call for. */
  ghost predicate ExactPorts(h: Setting, v: View) {
    v.ports == PortsIn(v.services, LocalIPs(h, v))
  }

  /** Nothing in the kernel table is unwanted. */
  ghost predicate Safe(h: Setting, v: View) {
    Below(v.servers, WantedBy(h, v))
  }

  ghost predicate Quiet(v: View) {
    v.serviceItems == map[] && v.endpointItems == map[]
  }

  /** Ports are opened or closed only if the held ones change. */
  ghost predicate PortsCounted(v: View, w: View) {
    w.portCommands == v.portCommands <==> w.ports == v.ports
  }

  /** What a quiet sync does: no unwanted rule survives unless a list or delete call failed, the
      rules are exact if no call failed and are then left alone by the next one, and the held ports
      are those of some order of visiting. */
  ghost predicate QuietSync(h: Setting, v: View, w: View) {
    && Quiet(v)
    && w.services == v.services && w.endpoints == v.endpoints
    && (NoHardFault(v, w) && Distinct(h, v) ==> Safe(h, w))
    && (NoHardFault(v, w) ==> w.bound <= ClusterIPs(w.services))
    && (NoFault(v, w) ==> w.bound == ClusterIPs(w.services))
    && (NoFault(v, w) && Distinct(h, v) ==> w.servers == WantedBy(h, w))
    && (NoFault(v, w) && Distinct(h, v) && ExactRules(h, v) ==> w.kernelCommands == v.kernelCommands)
    && (NoFault(v, w) ==> Arises(w.services, LocalIPs(h, v), w.ports) && PortsCounted(v, w))
  }

  ghost function BatchOf(h: Setting, v: View, w: View): Batch {
    Batch(v.serviceItems, v.endpointItems, v.services, w.services, v.endpoints, w.endpoints, h.nodeIPs)
  }

  /** The service ports that an incremental sync adds. */
  ghost function PendingIn(v: View, w: View): ServiceMap {
    Pending(w.services, v.serviceItems)
  }

  /** What an incremental sync does, in terms of the pending items it replays. */
  ghost predicate IncrementalSync(h: Setting, v: View, w: View) {
    var b := BatchOf(h, v, w);
    && !Quiet(v)
    && b.ServicesCovered() && b.EndpointsCovered()
    && (NoHardFault(v, w) && Distinct(h, w) ==> TableSynced(b, v.servers, w.servers, NoFault(v, w)))
    && v.bound <= w.bound <= v.bound + ClusterIPs(PendingIn(v, w))
    && (NoFault(v, w) ==> w.bound == v.bound + ClusterIPs(PendingIn(v, w)))
    && (NoFault(v, w) ==> Arises(PendingIn(v, w), LocalIPs(h, v), w.ports) && PortsCounted(v, w))
  }

  ghost predicate Sync(h: Setting, v: View, w: View) {
    && v.hardFaults <= w.hardFaults && v.softFaults <= w.softFaults && v.refusals <= w.refusals
    && (QuietSync(h, v, w) || IncrementalSync(h, v, w))
  }

  /** Recording an event changes the pending items only. */
  ghost predicate Recorded(v: View, w: View) {
    w == v.(serviceItems := w.serviceItems, endpointItems := w.endpointItems)
  }

  ghost predicate Step(h: Setting, v: View, w: View) {
    Recorded(v, w) || Sync(h, v, w)
  }

  ghost predicate IsRun(h: Setting, run: seq<View>) {
    forall i :: 0 <= i < |run| - 1 ==> StepAt(h, run, i)
  }

  ghost predicate StepAt(h: Setting, run: seq<View>, i: int)
    requires 0 <= i < |run| - 1
  {
    Step(h, run[i], run[i + 1])
  }

  ghost predicate NoHardFaultAt(run: seq<View>, i: int)
    requires 0 <= i < |run| - 1
  {
    NoHardFault(run[i], run[i + 1])
  }

  ghost predicate NoFaultAt(run: seq<View>, i: int)
    requires 0 <= i < |run| - 1
  {
    NoFault(run[i], run[i + 1])
  }

  // ---------------------------------------------------------------- safety

  lemma StepIsSafe(h: Setting, v: View, w: View)
    requires Step(h, v, w) && NoHardFault(v, w) && Safe(h, v) && Distinct(h, w)
    ensures Safe(h, w)
  {
    if IncrementalSync(h, v, w) {
      var b := BatchOf(h, v, w);
      var mid :| IncrementallySynced(b, v.servers, mid, w.servers, NoFault(v, w));
      IncrementalSyncIsSafe(b, v.servers, mid, w.servers, NoFault(v, w));
    }
  }

  /** Once a quiet sync has happened, every later view of the run is safe: every virtual server
      belongs to a known service port and every destination is a current endpoint of it. Binds,
      additions and port openings may fail throughout. */
  lemma {:induction false} SafeEverAfter(h: Setting, run: seq<View>, q: nat, j: nat)
    requires IsRun(h, run) && q < j < |run|
    requires QuietSync(h, run[q], run[q + 1])
    requires forall i :: q <= i < j ==> NoHardFaultAt(run, i)
    requires forall i :: q < i <= j ==> Distinct(h, run[i])
    ensures Safe(h, run[j])
  {
    if j == q + 1 {
      assert NoHardFaultAt(run, q) && Distinct(h, run[q + 1]);
    } else {
      SafeEverAfter(h, run, q, j - 1);
      assert StepAt(h, run, j - 1) && NoHardFaultAt(run, j - 1);
      StepIsSafe(h, run[j - 1], run[j]);
    }
  }

  /** What safety means, field by field. */
  lemma SafeMeans(h: Setting, v: View, k: ServerKey, d: Destination)
    requires Safe(h, v) && Distinct(h, v) && k in v.servers
    ensures exists q :: Serves(v.services, h.nodeIPs, q, k)
    ensures d in v.servers[k] ==> exists q :: ServesWith(v.services, v.endpoints, h.nodeIPs, q, k, d)
  {
    WantedIff(v.services, v.endpoints, h.nodeIPs, k, d);
  }

  // ---------------------------------------------------------------- convergence

  /** From any kernel state, one quiet sync without failures makes the rules exact. */
  lemma QuietSyncStabilises(h: Setting, v: View, w: View)
    requires QuietSync(h, v, w) && NoFault(v, w) && Distinct(h, v)
    ensures ExactRules(h, w)
  {
  }

  /** The table it leaves, field by field. */
  lemma QuietTableIff(h: Setting, v: View, w: View, k: ServerKey, d: Destination)
    requires QuietSync(h, v, w) && NoFault(v, w) && Distinct(h, v)
    ensures k in w.servers <==> exists q :: Serves(v.services, h.nodeIPs, q, k)
    ensures k in w.servers && d in w.servers[k] <==>
            exists q :: ServesWith(v.services, v.endpoints, h.nodeIPs, q, k, d)
  {
    WantedIff(v.services, v.endpoints, h.nodeIPs, k, d);
  }

  /** A second quiet sync without failures issues no kernel command and leaves the kernel alone. */
  lemma KernelFixpoint(h: Setting, u: View, v: View, w: View)
    requires QuietSync(h, u, v) && NoFault(u, v) && Distinct(h, u)
    requires QuietSync(h, v, w) && NoFault(v, w)
    ensures w.kernelCommands == v.kernelCommands
    ensures w.servers == v.servers && w.bound == v.bound
  {
    QuietSyncStabilises(h, u, v);
    QuietSyncStabilises(h, v, w);
  }

  // ---------------------------------------------------------------- held ports after a quiet sync

  /** Every quiet sync without failures holds at least the ports that the addresses found at the
      start call for, and at most those that these and the cluster IPs call for. */
  lemma QuietPortsBetween(h: Setting, v: View, w: View)
    requires QuietSync(h, v, w) && NoFault(v, w)
    ensures PortsIn(w.services, LocalIPs(h, v)) <= w.ports <=
            PortsIn(w.services, LocalIPs(h, v) + ClusterIPs(w.services))
  {
    ArisesBetween(w.services, LocalIPs(h, v), w.ports);
  }

  /** The two views differ in the held ports only. */
  ghost predicate OnlyPortsDiffer(w: View, w': View) {
    w' == w.(ports := w'.ports, portCommands := w'.portCommands)
  }

  /** Each external IP that is on no interface is on the dummy link if and only if it is a cluster
      IP; one that is its own service's cluster IP may be missing. */
  ghost predicate SteadyFor(h: Setting, v: View) {
    Steady(v.services, LocalIPs(h, v), h.interfaceIPs + ClusterIPs(v.services))
  }

  lemma OtherPorts(h: Setting, v: View, w: View, order: seq<ServicePortName>) returns (w': View)
    requires QuietSync(h, v, w) && NoFault(v, w) && IsOrder(order, w.services)
    ensures OnlyPortsDiffer(w, w') && QuietSync(h, v, w')
    ensures w'.ports == HeldInOrder(w.services, order, LocalIPs(h, v))
  {
    var ports := HeldInOrder(w.services, order, LocalIPs(h, v));
    w' := w.(ports := ports, portCommands := if ports == v.ports then v.portCommands else v.portCommands + 1);
  }

  /** Whatever the order of visiting, the quiet sync leaves exact ports. */
  ghost predicate QuietPortsExact(h: Setting, v: View, w: View) {
    forall w' :: OnlyPortsDiffer(w, w') && QuietSync(h, v, w') ==> ExactPorts(h, w')
  }

  lemma HeldWhenExact(h: Setting, v: View, w: View, order: seq<ServicePortName>)
    requires QuietSync(h, v, w) && NoFault(v, w) && QuietPortsExact(h, v, w) && IsOrder(order, w.services)
    ensures HeldInOrder(w.services, order, LocalIPs(h, v)) == PortsIn(w.services, LocalIPs(h, w))
  {
    var w' := OtherPorts(h, v, w, order);
    assert ExactPorts(h, w');
  }

  lemma ExactWhenHeld(h: Setting, v: View, w: View)
    requires QuietSync(h, v, w) && NoFault(v, w)
    requires AlwaysHeld(w.services, LocalIPs(h, v), PortsIn(w.services, LocalIPs(h, w)))
    ensures ExactPorts(h, w)
  {
    var order :| IsOrder(order, w.services) && w.ports == HeldInOrder(w.services, order, LocalIPs(h, v));
  }

  /** A quiet sync without failures leaves exact ports in every order of visiting if and only if
      the external IPs are steady at its start. */
  lemma QuietPortsExactIff(h: Setting, v: View, w: View)
    requires QuietSync(h, v, w) && NoFault(v, w) && Distinct(h, v)
    ensures QuietPortsExact(h, v, w) <==> SteadyFor(h, v)
  {
    AlwaysHeldIff(w.services, LocalIPs(h, v), LocalIPs(h, w), h.nodeIPs);
    if QuietPortsExact(h, v, w) {
      forall order | IsOrder(order, w.services)
        ensures HeldInOrder(w.services, order, LocalIPs(h, v)) == PortsIn(w.services, LocalIPs(h, w))
      {
        HeldWhenExact(h, v, w, order);
      }
    } else {
      var w' :| OnlyPortsDiffer(w, w') && QuietSync(h, v, w') && !ExactPorts(h, w');
      if SteadyFor(h, v) {
        ExactWhenHeld(h, v, w');
      }
    }
  }

  /** When exactly the cluster IPs are bound, as after any quiet sync without failures, a quiet sync
      leaves exact ports, and it opens or closes a port if and only if they were not exact. */
  lemma PortFixpointIff(h: Setting, v: View, w: View)
    requires QuietSync(h, v, w) && NoFault(v, w) && v.bound == ClusterIPs(v.services)
    ensures ExactPorts(h, w)
    ensures w.portCommands == v.portCommands <==> ExactPorts(h, v)
  {
    ArisesBetween(w.services, LocalIPs(h, v), w.ports);
    assert LocalIPs(h, v) + ClusterIPs(w.services) == LocalIPs(h, v) == LocalIPs(h, w);
  }

  /** From any state, a third quiet sync without failures issues no command at all. */
  lemma QuietFixpoint(h: Setting, u: View, v: View, w: View, x: View)
    requires QuietSync(h, u, v) && NoFault(u, v) && Distinct(h, u)
    requires QuietSync(h, v, w) && NoFault(v, w) && QuietSync(h, w, x) && NoFault(w, x)
    ensures x.kernelCommands == w.kernelCommands == v.kernelCommands && x.portCommands == w.portCommands
    ensures ExactRules(h, x) && ExactPorts(h, x)
  {
    KernelFixpoint(h, u, v, w);
    KernelFixpoint(h, v, w, x);
    PortFixpointIff(h, v, w);
    PortFixpointIff(h, w, x);
  }

  /** A service whose external IP is no cluster IP. */
  ghost function StrayService(q: ServicePortName): ServiceMap {
    map[q := ServiceInfo("10.0.0.1", 80, TCP, 0, false, ["10.9.9.9"])]
  }

  lemma StrayPort(q: ServicePortName, local: set<IP>)
    ensures ClusterIPs(StrayService(q)) == {"10.0.0.1"} && "10.0.0.1" != "10.9.9.9"
    ensures LocalPort(ExternalIPFor(q.owner), "10.9.9.9", 80, TCP) in PortsIn(StrayService(q), local) <==> "10.9.9.9" in local
  {
    var info := StrayService(q)[q];
    assert "10.0.0.1"[3] != "10.9.9.9"[3];
    assert "10.9.9.9" in info.externalIPs;
    if "10.9.9.9" in local {
      assert ExternalHold(q, info, "10.9.9.9") in PortsOf(q, info, local);
    }
  }

  /** A second one may still close a port: an external IP that is on the dummy link and is no
      cluster IP is held by the first quiet sync and given up by the second. */
  lemma StrayAddressIsHeldThenClosed(h: Setting, q: ServicePortName, u: View, v: View, w: View)
    requires h.interfaceIPs == {} && u.bound == {"10.9.9.9"} && u.services == StrayService(q)
    requires QuietSync(h, u, v) && NoFault(u, v) && QuietSync(h, v, w) && NoFault(v, w)
    ensures var lp := LocalPort(ExternalIPFor(q.owner), "10.9.9.9", 80, TCP); lp in v.ports && lp !in w.ports
    ensures w.portCommands != v.portCommands
  {
    QuietPortsBetween(h, u, v);
    StrayPort(q, LocalIPs(h, u));
    PortFixpointIff(h, v, w);
    StrayPort(q, LocalIPs(h, w));
  }

  // ---------------------------------------------------------------- keys and bound addresses over runs

  ghost predicate ExactKeys(h: Setting, v: View) {
    v.servers.Keys == KeysIn(v.services, h.nodeIPs)
  }

  /** Virtual servers have one owner, and none passes to another service in the pending batch. */
  ghost predicate Orderly(h: Setting, v: View) {
    Distinct(h, v) && NoKeyMoves(v.serviceItems, h.nodeIPs)
  }

  lemma QuietSyncMakesExactKeys(h: Setting, v: View, w: View)
    requires QuietSync(h, v, w) && NoFault(v, w) && Orderly(h, v)
    ensures ExactKeys(h, w)
  {
    assert WantedBy(h, w).Keys == KeysIn(w.services, h.nodeIPs);
  }

  lemma StepKeepsExactKeys(h: Setting, v: View, w: View)
    requires Step(h, v, w) && NoFault(v, w) && ExactKeys(h, v) && Orderly(h, v) && Orderly(h, w)
    ensures ExactKeys(h, w)
  {
    if IncrementalSync(h, v, w) {
      var b := BatchOf(h, v, w);
      var mid :| IncrementallySynced(b, v.servers, mid, w.servers, true);
      IncrementalKeysAreExact(b, v.servers, mid, w.servers);
    }
  }

  lemma ExactKeysAt(h: Setting, run: seq<View>, i: nat)
    requires i < |run| - 1 && StepAt(h, run, i) && NoFaultAt(run, i)
    requires ExactKeys(h, run[i]) && Orderly(h, run[i]) && Orderly(h, run[i + 1])
    ensures ExactKeys(h, run[i + 1])
  {
    StepKeepsExactKeys(h, run[i], run[i + 1]);
  }

  /** Without failures, and as long as no virtual server passes from one service to another within
      a batch, the virtual servers are exactly the wanted ones after every later step. */
  lemma {:induction false} ExactKeysEverAfter(h: Setting, run: seq<View>, q: nat, j: nat)
    requires IsRun(h, run) && q < j < |run|
    requires QuietSync(h, run[q], run[q + 1])
    requires forall i :: q <= i < j ==> NoFaultAt(run, i)
    requires forall i :: q <= i <= j ==> Orderly(h, run[i])
    ensures ExactKeys(h, run[j])
  {
    if j == q + 1 {
      assert NoFaultAt(run, q);
      QuietSyncMakesExactKeys(h, run[q], run[q + 1]);
    } else {
      ExactKeysEverAfter(h, run, q, j - 1);
      ExactKeysAt(h, run, j - 1);
    }
  }

  lemma StepKeepsBound(h: Setting, v: View, w: View)
    requires Step(h, v, w) && NoFault(v, w) && ClusterIPs(v.services) <= v.bound
    ensures ClusterIPs(w.services) <= w.bound
  {
    if IncrementalSync(h, v, w) {
      forall q | q in w.services
        ensures w.services[q].clusterIP in w.bound
      {
        if q.owner in v.serviceItems {
          assert q in PendingIn(v, w) && PendingIn(v, w)[q] == w.services[q];
        } else {
          assert Lookup(v.services, q) == Lookup(w.services, q);
          assert v.services[q].clusterIP in ClusterIPs(v.services);
        }
      }
    }
  }

  /** Without failures, every cluster IP stays bound after every later step, even when services
      share an address and some are deleted. */
  lemma {:induction false} BoundEverAfter(h: Setting, run: seq<View>, q: nat, j: nat)
    requires IsRun(h, run) && q < j < |run|
    requires QuietSync(h, run[q], run[q + 1])
    requires forall i :: q <= i < j ==> NoFaultAt(run, i)
    ensures ClusterIPs(run[j].services) <= run[j].bound
  {
    if j == q + 1 {
      assert NoFaultAt(run, q);
    } else {
      BoundEverAfter(h, run, q, j - 1);
      assert StepAt(h, run, j - 1) && NoFaultAt(run, j - 1);
      StepKeepsBound(h, run[j - 1], run[j]);
    }
  }

  // ---------------------------------------------------------------- destinations

  /** From any table, an incremental sync without failures leaves the wanted table if and only if
      nothing is lost and nothing left behind. */
  lemma IncrementalSyncExactIff(h: Setting, v: View, w: View)
    requires IncrementalSync(h, v, w) && NoFault(v, w) && Distinct(h, w) && NoKeyMoves(v.serviceItems, h.nodeIPs)
    ensures w.servers == WantedBy(h, w) <==> NothingLost(BatchOf(h, v, w), v.servers)
  {
    var b := BatchOf(h, v, w);
    var mid :| IncrementallySynced(b, v.servers, mid, w.servers, true);
    IncrementalSyncIsExactIff(b, v.servers, mid, w.servers);
  }

  /** From the wanted table, if and only if all destinations of changed services come back. */
  lemma IncrementalSyncStaysExactIff(h: Setting, v: View, w: View)
    requires IncrementalSync(h, v, w) && NoFault(v, w) && Distinct(h, v) && Distinct(h, w)
    requires NoKeyMoves(v.serviceItems, h.nodeIPs) && v.servers == WantedBy(h, v)
    ensures w.servers == WantedBy(h, w) <==> AllComesBack(BatchOf(h, v, w))
  {
    IncrementalSyncExactIff(h, v, w);
    FromWantedIff(BatchOf(h, v, w));
  }

  /** A service with one endpoint turns session affinity on. */
  ghost function AffinityBatch(name: NamespacedName): Batch {
    var q := ServicePortName(name, "http");
    var off := ServiceInfo("10.0.0.1", 80, TCP, 0, false, []);
    var on := off.(sessionAffinity := true);
    var endpoints := map[q := [EndpointsInfo("10.1.0.1", 8080, false)]];
    Batch(map[name := Change(Some(map[q := off]), Some(map[q := on]))], map[],
          map[q := off], map[q := on], endpoints, endpoints, [])
  }

  /** Destinations are lost by a change as small as that, with nothing else in the way: the virtual
      server comes back without its endpoint. */
  lemma ServiceChangeLosesDestinations(name: NamespacedName)
    ensures var b := AffinityBatch(name);
            && b.ServicesCovered() && b.EndpointsCovered() && NoKeyMoves(b.serviceItems, b.nodeIPs)
            && DistinctKeys(b.s0, b.nodeIPs) && DistinctKeys(b.s1, b.nodeIPs)
            && !AllComesBack(b) && IncrementalTableOf(b, b.Want0()) != b.Want1()
  {
    var b := AffinityBatch(name);
    var q := ServicePortName(name, "http");
    var k := ClusterKey(b.s1[q]);
    assert b.e1[q][0] in ListAt(b.e1, q);
    assert Destination("10.1.0.1", 8080) in DestinationsOf(b.e1, q);
    assert k in KeysOf(b.s1[q], b.nodeIPs) && !ComesBackAt(b, q, k);
    FromWantedIff(b);
    if IncrementalTableOf(b, b.Want0()) == b.Want1() {
      ExactLosesNothing(b, b.Want0());
    }
  }

  /** In particular a sync with endpoints changes only keeps the rules exact. */
  lemma EndpointsOnlySyncIsExact(h: Setting, v: View, w: View)
    requires IncrementalSync(h, v, w) && NoFault(v, w) && Distinct(h, v) && Distinct(h, w)
    requires v.serviceItems == map[]
    requires v.servers == WantedBy(h, v)
    ensures w.servers == WantedBy(h, w)
  {
    IncrementalSyncStaysExactIff(h, v, w);
  }

  lemma CoversDetermines<V>(items: Items<V>, m: Ports<V>, m1: Ports<V>, m2: Ports<V>)
    requires Covers(items, m, m1) && Covers(items, m, m2)
    ensures m1 == m2
  {
    forall q: ServicePortName
      ensures Lookup(m1, q) == Lookup(m2, q)
    {
    }
    SameLookups(m1, m2);
  }

  /** The order in which a batch is replayed does not show: from any state, two syncs of the same
      batch without failures leave the same maps, table and bound addresses. */
  lemma ReplayOrderDoesNotShow(h: Setting, v: View, w: View, w': View)
    requires IncrementalSync(h, v, w) && NoFault(v, w)
    requires IncrementalSync(h, v, w') && NoFault(v, w')
    requires Distinct(h, w) && NoKeyMoves(v.serviceItems, h.nodeIPs)
    ensures w.services == w'.services && w.endpoints == w'.endpoints
    ensures w.servers == w'.servers && w.bound == w'.bound
  {
    CoversDetermines(v.serviceItems, v.services, w.services, w'.services);
    CoversDetermines(v.endpointItems, v.endpoints, w.endpoints, w'.endpoints);
    var b := BatchOf(h, v, w);
    assert BatchOf(h, v, w') == b;
    var mid :| IncrementallySynced(b, v.servers, mid, w.servers, true);
    var mid' :| IncrementallySynced(b, v.servers, mid', w'.servers, true);
    IncrementalTable(b, v.servers, mid, w.servers);
    IncrementalTable(b, v.servers, mid', w'.servers);
  }

  // ---------------------------------------------------------------- held ports after an incremental sync

  function ServiceOf(lp: LocalPort): NamespacedName {
    lp.purpose.service
  }

  lemma PendingPortsAt(services: ServiceMap, items: Items<ServiceInfo>, local: set<IP>, lp: LocalPort)
    ensures lp in PortsIn(Pending(services, items), local) <==> lp in PortsIn(services, local) && ServiceOf(lp) in items
  {
    var some := Pending(services, items);
    if lp in PortsIn(some, local) {
      var q :| q in some && lp in PortsOf(q, some[q], local);
    }
    if lp in PortsIn(services, local) && ServiceOf(lp) in items {
      var q :| q in services && lp in PortsOf(q, services[q], local);
      assert q in some && some[q] == services[q];
    }
  }

  /** Services without a pending change hold no port. */
  ghost predicate OthersHoldNothing(services: ServiceMap, items: Items<ServiceInfo>, local: set<IP>) {
    forall q :: q in services && q.owner !in items ==> PortsOf(q, services[q], local) == {}
  }

  lemma OthersHoldNothingIff(services: ServiceMap, items: Items<ServiceInfo>, local: set<IP>)
    ensures OthersHoldNothing(services, items, local) <==>
            PortsIn(Pending(services, items), local) == PortsIn(services, local)
  {
    forall lp
      ensures lp in PortsIn(Pending(services, items), local) <==> lp in PortsIn(services, local) && ServiceOf(lp) in items
    {
      PendingPortsAt(services, items, local, lp);
    }
    if PortsIn(Pending(services, items), local) == PortsIn(services, local) {
      forall q | q in services && q.owner !in items
        ensures PortsOf(q, services[q], local) == {}
      {
        assert PortsOf(q, services[q], local) <= PortsIn(services, local);
        assert forall lp :: lp in PortsOf(q, services[q], local) ==> ServiceOf(lp) == q.owner;
      }
    }
  }

  /** Whatever the order, only ports of services with a pending change are held. */
  lemma AlwaysHeldByPending(services: ServiceMap, items: Items<ServiceInfo>, near: set<IP>, local: set<IP>)
    requires AlwaysHeld(Pending(services, items), near, PortsIn(services, local))
    ensures OthersHoldNothing(services, items, local)
  {
    var some := Pending(services, items);
    var order := OrderOf(some.Keys);
    assert IsOrder(order, some);
    HeldBelow(some, order, near);
    forall lp | lp in PortsIn(services, local)
      ensures ServiceOf(lp) in items
    {
      PendingPortsAt(services, items, near + ClusterIPs(some), lp);
    }
    forall lp
      ensures lp in PortsIn(some, local) <==> lp in PortsIn(services, local)
    {
      PendingPortsAt(services, items, local, lp);
    }
    OthersHoldNothingIff(services, items, local);
  }

  lemma OtherIncrementalPorts(h: Setting, v: View, w: View, order: seq<ServicePortName>) returns (w': View)
    requires IncrementalSync(h, v, w) && NoFault(v, w) && IsOrder(order, PendingIn(v, w))
    ensures OnlyPortsDiffer(w, w') && IncrementalSync(h, v, w')
    ensures w'.ports == HeldInOrder(PendingIn(v, w), order, LocalIPs(h, v))
  {
    var ports := HeldInOrder(PendingIn(v, w), order, LocalIPs(h, v));
    w' := w.(ports := ports, portCommands := if ports == v.ports then v.portCommands else v.portCommands + 1);
    assert BatchOf(h, v, w') == BatchOf(h, v, w);
  }

  /** Whatever the order of visiting, the incremental sync leaves exact ports. */
  ghost predicate IncrementalPortsExact(h: Setting, v: View, w: View) {
    forall w' :: OnlyPortsDiffer(w, w') && IncrementalSync(h, v, w') ==> ExactPorts(h, w')
  }

  lemma PendingHeldWhenExact(h: Setting, v: View, w: View, order: seq<ServicePortName>)
    requires IncrementalSync(h, v, w) && NoFault(v, w) && IncrementalPortsExact(h, v, w)
    requires IsOrder(order, PendingIn(v, w))
    ensures HeldInOrder(PendingIn(v, w), order, LocalIPs(h, v)) == PortsIn(w.services, LocalIPs(h, w))
  {
    var w' := OtherIncrementalPorts(h, v, w, order);
    assert ExactPorts(h, w');
  }

  lemma ExactWhenPendingHeld(h: Setting, v: View, w: View)
    requires IncrementalSync(h, v, w) && NoFault(v, w)
    requires AlwaysHeld(PendingIn(v, w), LocalIPs(h, v), PortsIn(w.services, LocalIPs(h, w)))
    ensures ExactPorts(h, w)
  {
    var order :| IsOrder(order, PendingIn(v, w)) && w.ports == HeldInOrder(PendingIn(v, w), order, LocalIPs(h, v));
  }

  lemma PendingAlwaysHeldIff(services: ServiceMap, items: Items<ServiceInfo>, near: set<IP>, local: set<IP>, nodeIPs: seq<IP>)
    requires DistinctKeys(services, nodeIPs)
    ensures AlwaysHeld(Pending(services, items), near, PortsIn(services, local)) <==>
            OthersHoldNothing(services, items, local) && Steady(Pending(services, items), near, local)
  {
    var some := Pending(services, items);
    assert DistinctKeys(some, nodeIPs);
    AlwaysHeldIff(some, near, local, nodeIPs);
    OthersHoldNothingIff(services, items, local);
    if AlwaysHeld(some, near, PortsIn(services, local)) {
      AlwaysHeldByPending(services, items, near, local);
    }
  }

  /** An incremental sync closes every port that no pending service change asks for. Without
      failures it leaves exact ports in every order if and only if the services without a pending
      change hold none and the external IPs of the others are steady. */
  lemma IncrementalPortsExactIff(h: Setting, v: View, w: View)
    requires IncrementalSync(h, v, w) && NoFault(v, w) && Distinct(h, w)
    ensures IncrementalPortsExact(h, v, w) <==>
            && OthersHoldNothing(w.services, v.serviceItems, LocalIPs(h, w))
            && Steady(PendingIn(v, w), LocalIPs(h, v), LocalIPs(h, w))
  {
    var near, wanted := LocalIPs(h, v), PortsIn(w.services, LocalIPs(h, w));
    PendingAlwaysHeldIff(w.services, v.serviceItems, near, LocalIPs(h, w), h.nodeIPs);
    if IncrementalPortsExact(h, v, w) {
      forall order | IsOrder(order, PendingIn(v, w))
        ensures HeldInOrder(PendingIn(v, w), order, near) == wanted
      {
        PendingHeldWhenExact(h, v, w, order);
      }
    } else {
      var w' :| OnlyPortsDiffer(w, w') && IncrementalSync(h, v, w') && !ExactPorts(h, w');
      if AlwaysHeld(PendingIn(v, w), near, wanted) {
        ExactWhenPendingHeld(h, v, w');
      }
    }
  }

  /** A service with a node port and no pending change loses its port to any incremental sync. */
  lemma IncrementalSyncClosesNodePort(h: Setting, v: View, w: View, q: ServicePortName)
    requires IncrementalSync(h, v, w) && NoFault(v, w)
    requires q in v.services && v.services[q].nodePort != 0 && q.owner !in v.serviceItems
    ensures NodePortHold(q, v.services[q]) in PortsIn(w.services, LocalIPs(h, w))
    ensures NodePortHold(q, v.services[q]) !in w.ports
    ensures !ExactPorts(h, w)
  {
    var lp := NodePortHold(q, v.services[q]);
    assert Lookup(v.services, q) == Lookup(w.services, q);
    assert lp in PortsOf(q, w.services[q], LocalIPs(h, w));
    ArisesBetween(PendingIn(v, w), LocalIPs(h, v), w.ports);
    PendingPortsAt(w.services, v.serviceItems, LocalIPs(h, v) + ClusterIPs(PendingIn(v, w)), lp);
  }
}
