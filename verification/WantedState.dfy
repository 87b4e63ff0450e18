/** The kernel state that belongs to a service map and an endpoints map, and what the two kinds
    of sync do to a kernel table, key by key. Everything here is about values. */
module WantedState {
  import opened ProxyTypes
  import opened ChangeTracking
  import opened ServiceIndex
  import opened EndpointIndex
  import opened Host

  function ClusterKey(info: ServiceInfo): ServerKey {
    ServerKey(info.clusterIP, info.port, info.protocol)
  }

  function ExternalKey(info: ServiceInfo, ip: IP): ServerKey {
    ServerKey(ip, info.port, info.protocol)
  }

  function NodeKey(info: ServiceInfo, ip: IP): ServerKey {
    ServerKey(ip, info.nodePort, info.protocol)
  }

  /** The virtual servers one service port expands to. */
  ghost function KeysOf(info: ServiceInfo, nodeIPs: seq<IP>): set<ServerKey> {
    {ClusterKey(info)} + ExternalKeys(info, info.externalIPs) +
    if info.nodePort != 0 then NodeKeys(info, nodeIPs) else {}
  }

  ghost function ExternalKeys(info: ServiceInfo, ips: seq<IP>): set<ServerKey> {
    set ip | ip in ips :: ExternalKey(info, ip)
  }

  ghost function NodeKeys(info: ServiceInfo, ips: seq<IP>): set<ServerKey> {
    set ip | ip in ips :: NodeKey(info, ip)
  }

  ghost function KeysIn(services: ServiceMap, nodeIPs: seq<IP>): set<ServerKey> {
    set q, k | q in services && k in KeysOf(services[q], nodeIPs) :: k
  }

  /** No two service ports expand to the same virtual server. */
  ghost predicate DistinctKeys(services: ServiceMap, nodeIPs: seq<IP>) {
    forall p, q, k ::
      (p in services && q in services && k in KeysOf(services[p], nodeIPs) && k in KeysOf(services[q], nodeIPs)) ==>
        p == q
  }

  /** A service port that a virtual server belongs to. */
  ghost function OwnerOf(services: ServiceMap, nodeIPs: seq<IP>, k: ServerKey): (q: ServicePortName)
    requires k in KeysIn(services, nodeIPs)
    ensures q in services && k in KeysOf(services[q], nodeIPs)
  {
    var q :| q in services && k in KeysOf(services[q], nodeIPs);
    q
  }

  ghost function DestinationsOf(endpoints: EndpointMap, q: ServicePortName): set<Destination> {
    set ep | ep in ListAt(endpoints, q) :: Destination(ep.ip, ep.port)
  }

  /** The table the two maps call for. */
  ghost function Wanted(services: ServiceMap, endpoints: EndpointMap, nodeIPs: seq<IP>): ServerTable {
    map k | k in KeysIn(services, nodeIPs) :: DestinationsOf(endpoints, OwnerOf(services, nodeIPs, k))
  }

  ghost function ClusterIPs(services: ServiceMap): set<IP> {
    set q | q in services :: services[q].clusterIP
  }

  /** The local ports to hold for one service port, when `local` are the host's addresses. */
  ghost function PortsOf(q: ServicePortName, info: ServiceInfo, local: set<IP>): set<LocalPort> {
    ExternalPorts(q, info, info.externalIPs, local) +
    if info.nodePort != 0 then {NodePortHold(q, info)} else {}
  }

  function ExternalHold(q: ServicePortName, info: ServiceInfo, ip: IP): LocalPort {
    LocalPort(ExternalIPFor(q.owner), ip, info.port, info.protocol)
  }

  function NodePortHold(q: ServicePortName, info: ServiceInfo): LocalPort {
    LocalPort(NodePortFor(q.owner), "", info.nodePort, info.protocol)
  }

  ghost function ExternalPorts(q: ServicePortName, info: ServiceInfo, ips: seq<IP>, local: set<IP>): set<LocalPort> {
    set ip | ip in ips && ip in local :: ExternalHold(q, info, ip)
  }

  ghost function PortsIn(services: ServiceMap, local: set<IP>): set<LocalPort> {
    set q, lp | q in services && lp in PortsOf(q, services[q], local) :: lp
  }

  lemma WantedAt(services: ServiceMap, endpoints: EndpointMap, nodeIPs: seq<IP>, q: ServicePortName, k: ServerKey)
    requires DistinctKeys(services, nodeIPs)
    requires q in services && k in KeysOf(services[q], nodeIPs)
    ensures k in Wanted(services, endpoints, nodeIPs)
    ensures OwnerOf(services, nodeIPs, k) == q
    ensures Wanted(services, endpoints, nodeIPs)[k] == DestinationsOf(endpoints, q)
  {
  }

  // ---------------------------------------------------------------- field by field

  /** A service port expands to its cluster IP and external IPs on its port, and to the node IPs on
      its node port if it has one; always with its protocol. */
  lemma KeysOfIff(info: ServiceInfo, nodeIPs: seq<IP>, k: ServerKey)
    ensures k in KeysOf(info, nodeIPs) <==>
            && k.protocol == info.protocol
            && (|| (k.port == info.port && (k.ip == info.clusterIP || k.ip in info.externalIPs))
                || (info.nodePort != 0 && k.port == info.nodePort && k.ip in nodeIPs))
  {
    if k == ServerKey(k.ip, info.port, info.protocol) && k.ip in info.externalIPs {
      assert k in ExternalKeys(info, info.externalIPs);
    }
    if k == ServerKey(k.ip, info.nodePort, info.protocol) && k.ip in nodeIPs {
      assert k in NodeKeys(info, nodeIPs);
    }
  }

  /** It holds its port on each external IP that is local, and its node port on all addresses. */
  lemma PortsOfIff(q: ServicePortName, info: ServiceInfo, local: set<IP>, lp: LocalPort)
    ensures lp in PortsOf(q, info, local) <==>
            && lp.protocol == info.protocol && lp.purpose.service == q.owner
            && (|| (lp.purpose.ExternalIPFor? && lp.port == info.port && lp.ip in info.externalIPs && lp.ip in local)
                || (lp.purpose.NodePortFor? && info.nodePort != 0 && lp.port == info.nodePort && lp.ip == ""))
  {
    if lp.ip in info.externalIPs && lp == LocalPort(ExternalIPFor(q.owner), lp.ip, info.port, info.protocol) {
      assert lp.ip in local ==> lp in ExternalPorts(q, info, info.externalIPs, local);
    }
  }

  lemma DestinationsOfIff(endpoints: EndpointMap, q: ServicePortName, d: Destination)
    ensures d in DestinationsOf(endpoints, q) <==>
            q in endpoints && exists ep :: ep in endpoints[q] && d.ip == ep.ip && d.port == ep.port
  {
    if q in endpoints {
      if ep :| ep in endpoints[q] && d.ip == ep.ip && d.port == ep.port {
        assert d == Destination(ep.ip, ep.port);
      }
    }
  }

  /** Virtual server `k` is one that service port `q` expands to, field by field. */
  ghost predicate Serves(services: ServiceMap, nodeIPs: seq<IP>, q: ServicePortName, k: ServerKey) {
    && q in services
    && var info := services[q];
       && k.protocol == info.protocol
       && (|| (k.port == info.port && (k.ip == info.clusterIP || k.ip in info.externalIPs))
           || (info.nodePort != 0 && k.port == info.nodePort && k.ip in nodeIPs))
  }

  /** Service port `q` serves `k` and has `d` in its list. */
  ghost predicate ServesWith(services: ServiceMap, endpoints: EndpointMap, nodeIPs: seq<IP>, q: ServicePortName,
                             k: ServerKey, d: Destination)
  {
    && Serves(services, nodeIPs, q, k)
    && q in endpoints && exists ep: EndpointsInfo :: ep in endpoints[q] && d.ip == ep.ip && d.port == ep.port
  }

  /** The wanted table, without naming how it is built. */
  lemma WantedIff(services: ServiceMap, endpoints: EndpointMap, nodeIPs: seq<IP>, k: ServerKey, d: Destination)
    requires DistinctKeys(services, nodeIPs)
    ensures var want := Wanted(services, endpoints, nodeIPs);
            && (k in want <==> exists q :: Serves(services, nodeIPs, q, k))
            && (k in want && d in want[k] <==> exists q :: ServesWith(services, endpoints, nodeIPs, q, k, d))
  {
    var want := Wanted(services, endpoints, nodeIPs);
    forall q | q in services
      ensures Serves(services, nodeIPs, q, k) <==> k in KeysOf(services[q], nodeIPs)
    {
      KeysOfIff(services[q], nodeIPs, k);
    }
    if k in want {
      var q := OwnerOf(services, nodeIPs, k);
      assert Serves(services, nodeIPs, q, k);
      DestinationsOfIff(endpoints, q, d);
      assert d in want[k] ==> ServesWith(services, endpoints, nodeIPs, q, k, d);
    }
    if q :| Serves(services, nodeIPs, q, k) {
      WantedAt(services, endpoints, nodeIPs, q, k);
    }
    if q :| ServesWith(services, endpoints, nodeIPs, q, k, d) {
      WantedAt(services, endpoints, nodeIPs, q, k);
      DestinationsOfIff(endpoints, q, d);
    }
  }

  /** Nothing in the table is unwanted. */
  ghost predicate Below(table: ServerTable, want: ServerTable) {
    && table.Keys <= want.Keys
    && forall k :: k in table ==> table[k] <= want[k]
  }

  /** What remains of `current` when the difference between `seen` and `wanted` is applied. */
  ghost function Reconciled(current: set<Destination>, seen: set<Destination>, wanted: set<Destination>)
    : set<Destination>
  {
    current + (wanted - seen) - (seen - wanted)
  }

  /** The outcome when additions may fail. */
  ghost predicate Between(current: set<Destination>, seen: set<Destination>, wanted: set<Destination>,
                          result: set<Destination>)
  {
    current - (seen - wanted) <= result <= Reconciled(current, seen, wanted)
  }

  function SeenAt(snapshot: ServerTable, k: ServerKey): set<Destination> {
    if k in snapshot then snapshot[k] else {}
  }

  // ---------------------------------------------------------------- the quiet sync

  /** Where a quiet sync stands: keys not yet handled are as in the snapshot, handled ones hold
      only wanted destinations, and exactly those if every call succeeded. */
  ghost predicate QuietProgress(snapshot: ServerTable, table: ServerTable, active: set<ServerKey>,
                                want: ServerTable, clean: bool)
  {
    && active <= want.Keys
    && (forall k :: k in snapshot ==> k in table)
    && (forall k :: k in table && k !in active ==> k in snapshot && table[k] == snapshot[k])
    && (forall k :: k in table && k in active ==> table[k] <= want[k])
    && (clean ==> forall k :: k in active ==> k in table && table[k] == want[k])
  }

  /** Handling one more key. */
  lemma QuietStep(snapshot: ServerTable, before: ServerTable, after: ServerTable, active: set<ServerKey>,
                  want: ServerTable, wasClean: bool, clean: bool, k: ServerKey, added: bool)
    requires QuietProgress(snapshot, before, active, want, wasClean)
    requires k in want && (clean ==> wasClean)
    requires after.Keys == before.Keys + (if added then {k} else {})
    requires forall j :: j in before && j != k ==> after[j] == before[j]
    requires clean ==> added
    requires k in before ==> added
    requires added ==>
               var current := if k in before then before[k] else {};
               && Between(current, SeenAt(snapshot, k), want[k], after[k])
               && (clean ==> after[k] == Reconciled(current, SeenAt(snapshot, k), want[k]))
    ensures QuietProgress(snapshot, after, active + {k}, want, clean)
  {
    if added {
      var current := if k in before then before[k] else {};
      var seen := SeenAt(snapshot, k);
      assert current <= seen || current <= want[k];
      assert after[k] <= want[k];
    }
  }

  // ---------------------------------------------------------------- the incremental sync

  ghost function PreviousKeys(items: Items<ServiceInfo>, nodeIPs: seq<IP>): set<ServerKey> {
    set n, k | n in items && k in KeysIn(Entries(items[n].previous), nodeIPs) :: k
  }

  ghost function CurrentKeys(items: Items<ServiceInfo>, nodeIPs: seq<IP>): set<ServerKey> {
    set n, k | n in items && k in KeysIn(Entries(items[n].current), nodeIPs) :: k
  }

  /** No virtual server passes from one service to another within the batch. */
  ghost predicate NoKeyMoves(items: Items<ServiceInfo>, nodeIPs: seq<IP>) {
    forall a, b, k ::
      (a in items && b in items
       && k in KeysIn(Entries(items[a].previous), nodeIPs)
       && k in KeysIn(Entries(items[b].current), nodeIPs)) ==> a == b
  }

  /** The table after deleting some keys and adding some, in whatever order: deleted keys are
      gone unless added again, and then empty; the others kept what they had. */
  ghost predicate ServicePassed(before: ServerTable, after: ServerTable,
                                deleted: set<ServerKey>, added: set<ServerKey>)
  {
    && (forall k :: k in after && (k in deleted || k !in before) ==> k in added && after[k] == {})
    && (forall k :: k in before && k !in deleted ==> k in after && after[k] == before[k])
  }

  /** `after` extends `before` with empty virtual servers among `keys`. */
  ghost predicate Grew(before: ServerTable, after: ServerTable, keys: set<ServerKey>) {
    && (forall k :: k in before ==> k in after && after[k] == before[k])
    && (forall k :: k in after && k !in before ==> k in keys && after[k] == {})
  }

  /** Replaying one more item: its old keys go, its new keys come. */
  lemma ServicePassStep(before: ServerTable, table: ServerTable, after: ServerTable,
                        deleted: set<ServerKey>, added: set<ServerKey>, gone: set<ServerKey>, keys: set<ServerKey>)
    requires ServicePassed(before, table, deleted, added)
    requires Grew(table - gone, after, keys)
    ensures ServicePassed(before, after, deleted + gone, added + keys)
  {
  }

  /** The entries of the services with a pending change. */
  ghost function Pending(services: ServiceMap, items: Items<ServiceInfo>): ServiceMap {
    map q | q in services && q.owner in items :: services[q]
  }

  /** What a change says of its service is what the map has. */
  ghost predicate CurrentOf(services: ServiceMap, name: NamespacedName, change: Change<ServiceInfo>) {
    && OwnedBy(Entries(change.current), name)
    && forall q: ServicePortName :: q.owner == name ==> Lookup(services, q) == Lookup(Entries(change.current), q)
  }

  lemma PendingGrows(services: ServiceMap, items: Items<ServiceInfo>, n: NamespacedName, change: Change<ServiceInfo>)
    requires n !in items && CurrentOf(services, n, change)
    ensures Pending(services, items).Keys !! Entries(change.current).Keys
    ensures Pending(services, items[n := change]) == Pending(services, items) + Entries(change.current)
  {
    var more, sum := Pending(services, items[n := change]), Pending(services, items) + Entries(change.current);
    forall q
      ensures Lookup(more, q) == Lookup(sum, q)
    {
      assert q.owner == n ==> Lookup(services, q) == Lookup(Entries(change.current), q);
    }
    SameLookups(more, sum);
  }

  lemma ItemsGrow(items: Items<ServiceInfo>, n: NamespacedName, change: Change<ServiceInfo>, nodeIPs: seq<IP>)
    requires n !in items
    ensures PreviousKeys(items[n := change], nodeIPs) ==
            PreviousKeys(items, nodeIPs) + KeysIn(Entries(change.previous), nodeIPs)
    ensures CurrentKeys(items[n := change], nodeIPs) ==
            CurrentKeys(items, nodeIPs) + KeysIn(Entries(change.current), nodeIPs)
  {
    var more := items[n := change];
    assert more[n] == change && forall m :: m in items ==> m in more && more[m] == items[m];
  }

  lemma LastItemTakesNoKey(items: Items<ServiceInfo>, n: NamespacedName, change: Change<ServiceInfo>,
                           nodeIPs: seq<IP>)
    requires n !in items && NoKeyMoves(items[n := change], nodeIPs)
    ensures NoKeyMoves(items, nodeIPs)
    ensures CurrentKeys(items, nodeIPs) !! KeysIn(Entries(change.previous), nodeIPs)
  {
    var more := items[n := change];
    assert more[n] == change && forall m :: m in items ==> m in more && more[m] == items[m];
  }

  /** The table after reconciling the touched keys against the snapshot. */
  ghost predicate EndpointPassed(before: ServerTable, after: ServerTable, snapshot: ServerTable,
                                 want: ServerTable, touched: set<ServerKey>, clean: bool)
  {
    && after.Keys == before.Keys
    && touched <= want.Keys
    && (forall k :: k in after && k !in touched ==> after[k] == before[k])
    && (forall k :: k in after && k in touched ==>
                      && Between(before[k], SeenAt(snapshot, k), want[k], after[k])
                      && (clean ==> after[k] == Reconciled(before[k], SeenAt(snapshot, k), want[k])))
  }

  /** Reconciling one more key, or the same key again. */
  lemma EndpointStep(before: ServerTable, mid: ServerTable, after: ServerTable, snapshot: ServerTable,
                     want: ServerTable, touched: set<ServerKey>, wasClean: bool, clean: bool, k: ServerKey)
    requires EndpointPassed(before, mid, snapshot, want, touched, wasClean)
    requires k in want && (clean ==> wasClean)
    requires after.Keys == mid.Keys
    requires forall j :: j in mid && j != k ==> after[j] == mid[j]
    requires k in mid ==>
               && Between(mid[k], SeenAt(snapshot, k), want[k], after[k])
               && (clean ==> after[k] == Reconciled(mid[k], SeenAt(snapshot, k), want[k]))
    ensures EndpointPassed(before, after, snapshot, want, touched + {k}, clean)
  {
    forall j | j in after && j in touched + {k}
      ensures Between(before[j], SeenAt(snapshot, j), want[j], after[j])
      ensures clean ==> after[j] == Reconciled(before[j], SeenAt(snapshot, j), want[j])
    {
      if j == k {
        ReconciledTwice(before[k], mid[k], SeenAt(snapshot, k), want[k], after[k]);
      }
    }
  }

  lemma ReconciledTwice(current: set<Destination>, once: set<Destination>, seen: set<Destination>,
                        wanted: set<Destination>, twice: set<Destination>)
    requires once == current || Between(current, seen, wanted, once)
    requires Between(once, seen, wanted, twice)
    ensures Between(current, seen, wanted, twice)
    ensures once == current || once == Reconciled(current, seen, wanted) ==>
              Reconciled(once, seen, wanted) == Reconciled(current, seen, wanted)
  {
  }

  /** The service ports mentioned by pending endpoints changes. */
  ghost function NamesIn(items: Items<seq<EndpointsInfo>>): set<ServicePortName> {
    set n, q | n in items && q in Mentioned(items[n]) :: q
  }

  ghost function Mentioned(change: Change<seq<EndpointsInfo>>): set<ServicePortName> {
    Entries(change.previous).Keys + Entries(change.current).Keys
  }

  ghost function TouchedKeys(names: set<ServicePortName>, services: ServiceMap, nodeIPs: seq<IP>): set<ServerKey> {
    set q, k | q in names && q in services && k in KeysOf(services[q], nodeIPs) :: k
  }

  /** One batch of pending changes: the items, and the maps before and after applying them. */
  datatype Batch = Batch(
    serviceItems: Items<ServiceInfo>, endpointItems: Items<seq<EndpointsInfo>>,
    s0: ServiceMap, s1: ServiceMap, e0: EndpointMap, e1: EndpointMap, nodeIPs: seq<IP>)
  {
    ghost predicate ServicesCovered() {
      Covers(serviceItems, s0, s1)
    }

    ghost predicate EndpointsCovered() {
      Covers(endpointItems, e0, e1)
    }

    ghost function Want0(): ServerTable {
      Wanted(s0, e0, nodeIPs)
    }

    ghost function Want1(): ServerTable {
      Wanted(s1, e1, nodeIPs)
    }

    ghost function Deleted(): set<ServerKey> {
      PreviousKeys(serviceItems, nodeIPs)
    }

    ghost function Added(): set<ServerKey> {
      CurrentKeys(serviceItems, nodeIPs)
    }

    ghost function Touched(): set<ServerKey> {
      TouchedKeys(NamesIn(endpointItems), s1, nodeIPs)
    }
  }

  /** An incremental sync as a change of the table. */
  ghost predicate IncrementallySynced(b: Batch, before: ServerTable, mid: ServerTable, after: ServerTable, clean: bool) {
    && ServicePassed(before, mid, b.Deleted(), b.Added())
    && (clean && NoKeyMoves(b.serviceItems, b.nodeIPs) ==> b.Added() <= mid.Keys)
    && EndpointPassed(mid, after, before, b.Want1(), b.Touched(), clean)
  }

  ghost predicate TableSynced(b: Batch, before: ServerTable, after: ServerTable, clean: bool) {
    exists mid :: IncrementallySynced(b, before, mid, after, clean)
  }

  // ---------------------------------------------------------------- consequences

  /** What a changed service had, and has, among its keys. */
  lemma ItemKeys(b: Batch, q: ServicePortName, k: ServerKey)
    requires b.ServicesCovered() && q.owner in b.serviceItems
    ensures q in b.s0 && k in KeysOf(b.s0[q], b.nodeIPs) ==> k in b.Deleted()
    ensures q in b.s1 && k in KeysOf(b.s1[q], b.nodeIPs) ==> k in b.Added()
  {
    var change := b.serviceItems[q.owner];
    assert Lookup(b.s0, q) == Lookup(Entries(change.previous), q);
    assert Lookup(b.s1, q) == Lookup(Entries(change.current), q);
    if q in b.s0 && k in KeysOf(b.s0[q], b.nodeIPs) {
      assert k in KeysIn(Entries(change.previous), b.nodeIPs);
    }
    if q in b.s1 && k in KeysOf(b.s1[q], b.nodeIPs) {
      assert k in KeysIn(Entries(change.current), b.nodeIPs);
    }
  }

  lemma AddedKeyOwner(b: Batch, k: ServerKey) returns (q: ServicePortName)
    requires b.ServicesCovered() && k in b.Added()
    ensures q in b.s1 && k in KeysOf(b.s1[q], b.nodeIPs) && q.owner in b.serviceItems
    ensures k in KeysIn(b.s1, b.nodeIPs)
  {
    var n :| n in b.serviceItems && k in KeysIn(Entries(b.serviceItems[n].current), b.nodeIPs);
    q := OwnerOf(Entries(b.serviceItems[n].current), b.nodeIPs, k);
    assert OwnedBy(Entries(b.serviceItems[n].current), n);
    assert Lookup(b.s1, q) == Lookup(Entries(b.serviceItems[n].current), q);
  }

  lemma DeletedKeyOwner(b: Batch, k: ServerKey) returns (q: ServicePortName)
    requires b.ServicesCovered() && k in b.Deleted()
    ensures q in b.s0 && k in KeysOf(b.s0[q], b.nodeIPs) && q.owner in b.serviceItems
  {
    var n :| n in b.serviceItems && k in KeysIn(Entries(b.serviceItems[n].previous), b.nodeIPs);
    q := OwnerOf(Entries(b.serviceItems[n].previous), b.nodeIPs, k);
    assert OwnedBy(Entries(b.serviceItems[n].previous), n);
    assert Lookup(b.s0, q) == Lookup(Entries(b.serviceItems[n].previous), q);
  }

  /** A key wanted before and not deleted belongs to a service without a pending change, so it
      has the same owner afterwards. */
  lemma UndeletedKeyKeepsOwner(b: Batch, k: ServerKey)
    requires b.ServicesCovered() && DistinctKeys(b.s1, b.nodeIPs)
    requires k in KeysIn(b.s0, b.nodeIPs) && k !in b.Deleted()
    ensures k in KeysIn(b.s1, b.nodeIPs)
    ensures OwnerOf(b.s1, b.nodeIPs, k) == OwnerOf(b.s0, b.nodeIPs, k)
    ensures OwnerOf(b.s0, b.nodeIPs, k).owner !in b.serviceItems
  {
    var q := OwnerOf(b.s0, b.nodeIPs, k);
    if q.owner in b.serviceItems {
      ItemKeys(b, q, k);
    }
    assert Lookup(b.s0, q) == Lookup(b.s1, q);
    assert q in b.s1 && k in KeysOf(b.s1[q], b.nodeIPs);
  }

  /** A service port that no pending endpoints change mentions keeps its destinations. */
  lemma UnmentionedPortKeepsDestinations(b: Batch, q: ServicePortName)
    requires b.EndpointsCovered() && q !in NamesIn(b.endpointItems)
    ensures DestinationsOf(b.e0, q) == DestinationsOf(b.e1, q)
  {
    if q.owner in b.endpointItems {
      var change := b.endpointItems[q.owner];
      assert q !in Mentioned(change);
      assert Lookup(b.e0, q) == Lookup(Entries(change.previous), q);
      assert Lookup(b.e1, q) == Lookup(Entries(change.current), q);
    } else {
      assert Lookup(b.e0, q) == Lookup(b.e1, q);
    }
  }

  lemma MentionedPortIsTouched(b: Batch, k: ServerKey)
    requires DistinctKeys(b.s1, b.nodeIPs) && k in KeysIn(b.s1, b.nodeIPs)
    ensures k in b.Touched() <==> OwnerOf(b.s1, b.nodeIPs, k) in NamesIn(b.endpointItems)
  {
  }

  /** The two passes, seen from one key. */
  lemma PassesAt(b: Batch, before: ServerTable, mid: ServerTable, after: ServerTable, clean: bool, k: ServerKey)
    requires IncrementallySynced(b, before, mid, after, clean)
    requires k in after
    ensures k in mid
    ensures if k in before && k !in b.Deleted() then mid[k] == before[k] else k in b.Added() && mid[k] == {}
    ensures k !in b.Touched() ==> after[k] == mid[k]
    ensures k in b.Touched() ==>
              && k in b.Want1()
              && after[k] <= Reconciled(mid[k], SeenAt(before, k), b.Want1()[k])
              && (clean ==> after[k] == Reconciled(mid[k], SeenAt(before, k), b.Want1()[k]))
  {
  }

  /** Between the two passes a key is empty, or it is untouched and keeps its owner. */
  lemma KeyAfterServicePass(b: Batch, before: ServerTable, mid: ServerTable, k: ServerKey)
    requires b.ServicesCovered() && DistinctKeys(b.s1, b.nodeIPs)
    requires before.Keys <= KeysIn(b.s0, b.nodeIPs)
    requires ServicePassed(before, mid, b.Deleted(), b.Added())
    requires k in mid
    ensures k in KeysIn(b.s1, b.nodeIPs)
    ensures if k in before && k !in b.Deleted() then
              mid[k] == before[k] && OwnerOf(b.s1, b.nodeIPs, k) == OwnerOf(b.s0, b.nodeIPs, k)
            else mid[k] == {}
  {
    if k in before && k !in b.Deleted() {
      UndeletedKeyKeepsOwner(b, k);
    } else {
      var _ := AddedKeyOwner(b, k);
    }
  }

  /** One incremental sync keeps the table below what is wanted, even when additions fail. */
  lemma IncrementalSyncIsSafe(b: Batch, before: ServerTable, mid: ServerTable, after: ServerTable, clean: bool)
    requires b.ServicesCovered() && b.EndpointsCovered()
    requires DistinctKeys(b.s1, b.nodeIPs)
    requires Below(before, b.Want0())
    requires IncrementallySynced(b, before, mid, after, clean)
    ensures Below(after, b.Want1())
  {
    forall k | k in after
      ensures k in b.Want1() && after[k] <= b.Want1()[k]
    {
      PassesAt(b, before, mid, after, clean, k);
      KeyAfterServicePass(b, before, mid, k);
      var q := OwnerOf(b.s1, b.nodeIPs, k);
      MentionedPortIsTouched(b, k);
      if q !in NamesIn(b.endpointItems) {
        UnmentionedPortKeepsDestinations(b, q);
      }
    }
  }

  /** A key of a service without a pending change survives the service pass as it was. */
  lemma UnchangedServiceKey(b: Batch, before: ServerTable, mid: ServerTable, q: ServicePortName, k: ServerKey)
    requires b.ServicesCovered() && DistinctKeys(b.s0, b.nodeIPs)
    requires KeysIn(b.s0, b.nodeIPs) <= before.Keys
    requires ServicePassed(before, mid, b.Deleted(), b.Added())
    requires q in b.s1 && k in KeysOf(b.s1[q], b.nodeIPs) && q.owner !in b.serviceItems
    ensures q in b.s0 && k in KeysOf(b.s0[q], b.nodeIPs)
    ensures k in mid && k in before && mid[k] == before[k]
  {
    assert Lookup(b.s0, q) == Lookup(b.s1, q);
    if k in b.Deleted() {
      var p := DeletedKeyOwner(b, k);
    }
  }

  /** If no call fails and no key moves between services, an incremental sync takes exact keys
      to exact keys, even when ports are renamed or reused within one service. */
  lemma IncrementalKeysAreExact(b: Batch, before: ServerTable, mid: ServerTable, after: ServerTable)
    requires b.ServicesCovered()
    requires DistinctKeys(b.s0, b.nodeIPs) && DistinctKeys(b.s1, b.nodeIPs)
    requires NoKeyMoves(b.serviceItems, b.nodeIPs)
    requires before.Keys == KeysIn(b.s0, b.nodeIPs)
    requires IncrementallySynced(b, before, mid, after, true)
    ensures after.Keys == KeysIn(b.s1, b.nodeIPs)
  {
    forall k | k in after
      ensures k in KeysIn(b.s1, b.nodeIPs)
    {
      KeyAfterServicePass(b, before, mid, k);
    }
    forall k | k in KeysIn(b.s1, b.nodeIPs)
      ensures k in after
    {
      var q := OwnerOf(b.s1, b.nodeIPs, k);
      if q.owner in b.serviceItems {
        ItemKeys(b, q, k);
      } else {
        UnchangedServiceKey(b, before, mid, q, k);
      }
    }
  }

  /** The table after a service pass without failures. */
  ghost function ServicePass(before: ServerTable, deleted: set<ServerKey>, added: set<ServerKey>): ServerTable {
    map k | k in before.Keys - deleted + added :: if k in before && k !in deleted then before[k] else {}
  }

  /** The table after an endpoint pass without failures. */
  ghost function EndpointPass(mid: ServerTable, snapshot: ServerTable, want: ServerTable, touched: set<ServerKey>)
    : ServerTable
    requires touched <= want.Keys
  {
    map k | k in mid :: if k in touched then Reconciled(mid[k], SeenAt(snapshot, k), want[k]) else mid[k]
  }

  /** The table after an incremental sync without failures: virtual servers of changed services
      start empty, and those that an endpoints change mentions are reconciled against the listing
      taken before. */
  ghost function IncrementalTableOf(b: Batch, before: ServerTable): ServerTable {
    EndpointPass(ServicePass(before, b.Deleted(), b.Added()), before, b.Want1(), b.Touched())
  }

  lemma ServicePassIs(before: ServerTable, mid: ServerTable, deleted: set<ServerKey>, added: set<ServerKey>)
    requires ServicePassed(before, mid, deleted, added) && added <= mid.Keys
    ensures mid == ServicePass(before, deleted, added)
  {
    forall k
      ensures Lookup(mid, k) == Lookup(ServicePass(before, deleted, added), k)
    {
    }
    SameLookups(mid, ServicePass(before, deleted, added));
  }

  lemma EndpointPassIs(mid: ServerTable, after: ServerTable, snapshot: ServerTable, want: ServerTable,
                       touched: set<ServerKey>)
    requires EndpointPassed(mid, after, snapshot, want, touched, true)
    ensures after == EndpointPass(mid, snapshot, want, touched)
  {
  }

  /** From any table, an incremental sync without failures leaves a table that depends on the batch
      and that table alone, and not on the order in which changes are replayed. */
  lemma IncrementalTable(b: Batch, before: ServerTable, mid: ServerTable, after: ServerTable)
    requires NoKeyMoves(b.serviceItems, b.nodeIPs)
    requires IncrementallySynced(b, before, mid, after, true)
    ensures after == IncrementalTableOf(b, before)
  {
    ServicePassIs(before, mid, b.Deleted(), b.Added());
    EndpointPassIs(mid, after, before, b.Want1(), b.Touched());
  }

  // ---------------------------------------------------------------- exactly when nothing is lost

  /** A virtual server of `q` ends up with the endpoints of `q`: it is kept and either reconciled or
      right already, or it is new and none of its endpoints is taken for present. */
  ghost predicate NothingLostAt(b: Batch, before: ServerTable, q: ServicePortName, k: ServerKey) {
    var wanted := DestinationsOf(b.e1, q);
    if k in before && k !in b.Deleted() then q in NamesIn(b.endpointItems) || before[k] == wanted
    else
      k in b.Added() && if q in NamesIn(b.endpointItems) then wanted !! SeenAt(before, k) else wanted == {}
  }

  ghost predicate NothingLost(b: Batch, before: ServerTable) {
    && before.Keys - b.Deleted() <= KeysIn(b.s1, b.nodeIPs)
    && forall q, k :: q in b.s1 && k in KeysOf(b.s1[q], b.nodeIPs) ==> NothingLostAt(b, before, q, k)
  }

  lemma ReconciledFrom(seen: set<Destination>, wanted: set<Destination>)
    ensures Reconciled(seen, seen, wanted) == wanted
    ensures Reconciled({}, seen, wanted) == wanted <==> wanted !! seen
  {
    if Reconciled({}, seen, wanted) == wanted {
      assert forall d :: d in wanted ==> d in Reconciled({}, seen, wanted);
    }
  }

  lemma ExactAtIff(b: Batch, before: ServerTable, q: ServicePortName, k: ServerKey)
    requires DistinctKeys(b.s1, b.nodeIPs) && q in b.s1 && k in KeysOf(b.s1[q], b.nodeIPs)
    ensures Lookup(IncrementalTableOf(b, before), k) == Some(DestinationsOf(b.e1, q)) <==> NothingLostAt(b, before, q, k)
  {
    WantedAt(b.s1, b.e1, b.nodeIPs, q, k);
    MentionedPortIsTouched(b, k);
    ReconciledFrom(SeenAt(before, k), DestinationsOf(b.e1, q));
  }

  /** From any table, an incremental sync without failures leaves exactly the wanted table if and
      only if nothing is lost and nothing is left behind. */
  lemma IncrementalSyncIsExactIff(b: Batch, before: ServerTable, mid: ServerTable, after: ServerTable)
    requires b.ServicesCovered() && DistinctKeys(b.s1, b.nodeIPs) && NoKeyMoves(b.serviceItems, b.nodeIPs)
    requires IncrementallySynced(b, before, mid, after, true)
    ensures after == b.Want1() <==> NothingLost(b, before)
  {
    IncrementalTable(b, before, mid, after);
    if NothingLost(b, before) {
      NothingLostIsExact(b, before);
    }
    if after == b.Want1() {
      ExactLosesNothing(b, before);
    }
  }

  lemma ExactLosesNothing(b: Batch, before: ServerTable)
    requires DistinctKeys(b.s1, b.nodeIPs) && IncrementalTableOf(b, before) == b.Want1()
    ensures NothingLost(b, before)
  {
    forall q, k | q in b.s1 && k in KeysOf(b.s1[q], b.nodeIPs)
      ensures NothingLostAt(b, before, q, k)
    {
      WantedAt(b.s1, b.e1, b.nodeIPs, q, k);
      ExactAtIff(b, before, q, k);
    }
    assert forall k :: k in before.Keys - b.Deleted() ==> k in IncrementalTableOf(b, before);
  }

  lemma NothingLostIsExact(b: Batch, before: ServerTable)
    requires b.ServicesCovered() && DistinctKeys(b.s1, b.nodeIPs) && NothingLost(b, before)
    ensures IncrementalTableOf(b, before) == b.Want1()
  {
    var after := IncrementalTableOf(b, before);
    forall k
      ensures Lookup(after, k) == Lookup(b.Want1(), k)
    {
      if k in b.Added() {
        var _ := AddedKeyOwner(b, k);
      }
      if k in KeysIn(b.s1, b.nodeIPs) {
        ExactAtIff(b, before, OwnerOf(b.s1, b.nodeIPs, k), k);
      }
    }
    SameLookups(after, b.Want1());
  }

  /** The destinations of one port of a changed service all come back. */
  ghost predicate ComesBackAt(b: Batch, q: ServicePortName, k: ServerKey) {
    if q in NamesIn(b.endpointItems) then DestinationsOf(b.e1, q) !! SeenAt(b.Want0(), k)
    else DestinationsOf(b.e1, q) == {}
  }

  ghost predicate AllComesBack(b: Batch) {
    forall q, k :: q in b.s1 && q.owner in b.serviceItems && k in KeysOf(b.s1[q], b.nodeIPs) ==> ComesBackAt(b, q, k)
  }

  /** From the wanted table, only changed services can lose anything. */
  lemma FromWantedAt(b: Batch, q: ServicePortName, k: ServerKey)
    requires b.ServicesCovered() && b.EndpointsCovered()
    requires DistinctKeys(b.s0, b.nodeIPs) && DistinctKeys(b.s1, b.nodeIPs)
    requires q in b.s1 && k in KeysOf(b.s1[q], b.nodeIPs)
    ensures NothingLostAt(b, b.Want0(), q, k) <==> q.owner in b.serviceItems ==> ComesBackAt(b, q, k)
  {
    if q.owner in b.serviceItems {
      ItemKeys(b, q, k);
      if k in b.Want0() && k !in b.Deleted() {
        UndeletedKeyKeepsOwner(b, k);
      }
    } else {
      assert Lookup(b.s0, q) == Lookup(b.s1, q);
      WantedAt(b.s0, b.e0, b.nodeIPs, q, k);
      if k in b.Deleted() {
        var p := DeletedKeyOwner(b, k);
      }
      if q !in NamesIn(b.endpointItems) {
        UnmentionedPortKeepsDestinations(b, q);
      }
    }
  }

  lemma FromWantedIff(b: Batch)
    requires b.ServicesCovered() && b.EndpointsCovered()
    requires DistinctKeys(b.s0, b.nodeIPs) && DistinctKeys(b.s1, b.nodeIPs)
    ensures NothingLost(b, b.Want0()) <==> AllComesBack(b)
  {
    forall k | k in b.Want0().Keys - b.Deleted()
      ensures k in KeysIn(b.s1, b.nodeIPs)
    {
      UndeletedKeyKeepsOwner(b, k);
    }
    forall q, k | q in b.s1 && k in KeysOf(b.s1[q], b.nodeIPs)
      ensures NothingLostAt(b, b.Want0(), q, k) <==> q.owner in b.serviceItems ==> ComesBackAt(b, q, k)
    {
      FromWantedAt(b, q, k);
    }
  }
}
