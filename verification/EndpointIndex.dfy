/** The endpoints half of the proxy's index: pkg/proxy/util/endpoints.go. */
module EndpointIndex {
  import opened ProxyTypes
  import opened ChangeTracking

  datatype EndpointPort = EndpointPort(name: string, port: int)

  datatype EndpointAddress = EndpointAddress(ip: string, nodeName: Option<string>)

  datatype EndpointSubset = EndpointSubset(addresses: seq<EndpointAddress>, ports: seq<EndpointPort>)

  datatype Endpoints = Endpoints(name: NamespacedName, subsets: seq<EndpointSubset>)

  datatype EndpointsInfo = EndpointsInfo(ip: IP, port: int, isLocal: bool)

  type EndpointMap = Ports<seq<EndpointsInfo>>

  /** A backend that a service port no longer has. */
  datatype StaleEndpoint = StaleEndpoint(endpoint: Destination, name: ServicePortName)

  function ListAt(m: EndpointMap, q: ServicePortName): seq<EndpointsInfo> {
    if q in m then m[q] else []
  }

  function NewEndpointsInfo(address: EndpointAddress, port: EndpointPort, hostname: string): EndpointsInfo {
    EndpointsInfo(address.ip, port.port, address.nodeName == Some(hostname))
  }

  /** A list after appending the usable addresses of a subset, behind one port. */
  function AddressInfos(list: seq<EndpointsInfo>, addresses: seq<EndpointAddress>, port: EndpointPort,
                        hostname: string): seq<EndpointsInfo>
  {
    if addresses == [] then list
    else
      var last := addresses[|addresses| - 1];
      AddressInfos(list, addresses[..|addresses| - 1], port, hostname) +
      (if last.ip == "" then [] else [NewEndpointsInfo(last, port, hostname)])
  }

  /** A list after appending what one subset has under a port name, over all its ports of that name. */
  function SubsetInfos(list: seq<EndpointsInfo>, addresses: seq<EndpointAddress>, ports: seq<EndpointPort>,
                       name: string, hostname: string): seq<EndpointsInfo>
  {
    if ports == [] then list
    else
      var last := ports[|ports| - 1];
      var shorter := SubsetInfos(list, addresses, ports[..|ports| - 1], name, hostname);
      if last.name == name && last.port != 0 then AddressInfos(shorter, addresses, last, hostname) else shorter
  }

  /** What all subsets list under a port name, in order. */
  function ListedInfos(subsets: seq<EndpointSubset>, name: string, hostname: string): seq<EndpointsInfo> {
    if subsets == [] then []
    else
      var last := subsets[|subsets| - 1];
      SubsetInfos(ListedInfos(subsets[..|subsets| - 1], name, hostname), last.addresses, last.ports, name, hostname)
  }

  function PortNames(endpoints: Endpoints): set<ServicePortName> {
    set i, j | 0 <= i < |endpoints.subsets| && 0 <= j < |endpoints.subsets[i].ports| ::
      ServicePortName(endpoints.name, endpoints.subsets[i].ports[j].name)
  }

  lemma {:induction false} SubsetInfosNeedPort(list: seq<EndpointsInfo>, addresses: seq<EndpointAddress>,
                                               ports: seq<EndpointPort>, name: string, hostname: string)
    requires SubsetInfos(list, addresses, ports, name, hostname) != list
    ensures exists j :: 0 <= j < |ports| && ports[j].name == name
  {
    var init := ports[..|ports| - 1];
    if ports[|ports| - 1].name != name {
      SubsetInfosNeedPort(list, addresses, init, name, hostname);
      var j :| 0 <= j < |init| && init[j].name == name;
      assert ports[j].name == name;
    }
  }

  lemma {:induction false} ListedInfosNeedPort(subsets: seq<EndpointSubset>, name: string, hostname: string)
    requires ListedInfos(subsets, name, hostname) != []
    ensures exists i, j :: 0 <= i < |subsets| && 0 <= j < |subsets[i].ports| && subsets[i].ports[j].name == name
  {
    var last, init := subsets[|subsets| - 1], subsets[..|subsets| - 1];
    var earlier := ListedInfos(init, name, hostname);
    if earlier == [] {
      SubsetInfosNeedPort(earlier, last.addresses, last.ports, name, hostname);
      var j :| 0 <= j < |last.ports| && last.ports[j].name == name;
      assert subsets[|subsets| - 1].ports[j].name == name;
    } else {
      ListedInfosNeedPort(init, name, hostname);
      var i, j :| 0 <= i < |init| && 0 <= j < |init[i].ports| && init[i].ports[j].name == name;
      assert subsets[i].ports[j].name == name;
    }
  }

  ghost function ContributedList(endpoints: Endpoints, hostname: string, q: ServicePortName): seq<EndpointsInfo> {
    if q.owner == endpoints.name then ListedInfos(endpoints.subsets, q.port, hostname) else []
  }

  /** The projection of an endpoints object: every port name with at least one usable address. */
  ghost function Projection(endpoints: Option<Endpoints>, hostname: string): (p: Option<EndpointMap>)
    ensures p.Some? <==> endpoints.Some?
    ensures forall q :: q in Entries(p) ==> Entries(p)[q] != []
    ensures forall q :: ListAt(Entries(p), q) ==
                        if endpoints.None? then [] else ContributedList(endpoints.value, hostname, q)
  {
    if endpoints.None? then None
    else
      var e := endpoints.value;
      assert forall q :: ContributedList(e, hostname, q) != [] ==> q in PortNames(e) by {
        forall q | ContributedList(e, hostname, q) != []
          ensures q in PortNames(e)
        {
          ListedInfosNeedPort(e.subsets, q.port, hostname);
          var i, j :| 0 <= i < |e.subsets| && 0 <= j < |e.subsets[i].ports| && e.subsets[i].ports[j].name == q.port;
          assert ServicePortName(e.name, e.subsets[i].ports[j].name) == q;
        }
      }
      Some(map q | q in PortNames(e) && ContributedList(e, hostname, q) != [] :: ContributedList(e, hostname, q))
  }

  /** Two indexes without empty lists that list the same are equal. */
  lemma SameLists(a: EndpointMap, b: EndpointMap)
    requires forall q :: q in a ==> a[q] != []
    requires forall q :: q in b ==> b[q] != []
    requires forall q :: ListAt(a, q) == ListAt(b, q)
    ensures a == b
  {
    forall q
      ensures Lookup(a, q) == Lookup(b, q)
    {
      assert ListAt(a, q) == ListAt(b, q);
    }
    SameLookups(a, b);
  }

  method AppendAddresses(m: EndpointMap, q: ServicePortName, addresses: seq<EndpointAddress>,
                         port: EndpointPort, hostname: string) returns (m': EndpointMap)
    requires forall r :: r in m ==> m[r] != []
    ensures forall r :: r in m' ==> m'[r] != []
    ensures ListAt(m', q) == AddressInfos(ListAt(m, q), addresses, port, hostname)
    ensures forall r :: r != q ==> ListAt(m', r) == ListAt(m, r)
  {
    m' := m;
    for k := 0 to |addresses|
      invariant forall r :: r in m' ==> m'[r] != []
      invariant forall r :: r != q ==> ListAt(m', r) == ListAt(m, r)
      invariant ListAt(m', q) == AddressInfos(ListAt(m, q), addresses[..k], port, hostname)
    {
      assert addresses[..k + 1][..k] == addresses[..k];
      if addresses[k].ip == "" {
        continue;
      }
      m' := m'[q := ListAt(m', q) + [NewEndpointsInfo(addresses[k], port, hostname)]];
    }
    assert addresses[..|addresses|] == addresses;
  }

  method AppendSubset(m: EndpointMap, name: NamespacedName, ss: EndpointSubset, hostname: string)
    returns (m': EndpointMap)
    requires forall q :: q in m ==> m[q] != []
    ensures forall q :: q in m' ==> m'[q] != []
    ensures forall q :: ListAt(m', q) ==
                        if q.owner == name then SubsetInfos(ListAt(m, q), ss.addresses, ss.ports, q.port, hostname)
                        else ListAt(m, q)
  {
    m' := m;
    for j := 0 to |ss.ports|
      invariant forall q :: q in m' ==> m'[q] != []
      invariant forall q ::
          ListAt(m', q) ==
          if q.owner == name then SubsetInfos(ListAt(m, q), ss.addresses, ss.ports[..j], q.port, hostname)
          else ListAt(m, q)
    {
      assert ss.ports[..j + 1][..j] == ss.ports[..j];
      if ss.ports[j].port == 0 {
        continue;
      }
      m' := AppendAddresses(m', ServicePortName(name, ss.ports[j].name), ss.addresses, ss.ports[j], hostname);
    }
    assert ss.ports[..|ss.ports|] == ss.ports;
  }

  method EndpointsToEndpointsMap(endpoints: Option<Endpoints>, hostname: string) returns (p: Option<EndpointMap>)
    ensures p == Projection(endpoints, hostname)
  {
    if endpoints.None? {
      return None;
    }
    var name, subsets := endpoints.value.name, endpoints.value.subsets;
    var m: EndpointMap := map[];
    for i := 0 to |subsets|
      invariant forall q :: q in m ==> m[q] != []
      invariant forall q :: ListAt(m, q) ==
                            if q.owner == name then ListedInfos(subsets[..i], q.port, hostname) else []
    {
      assert subsets[..i + 1][..i] == subsets[..i];
      m := AppendSubset(m, name, subsets[i], hostname);
    }
    assert subsets[..|subsets|] == subsets;
    forall q
      ensures ListAt(m, q) == ListAt(Projection(endpoints, hostname).value, q)
    {
      assert ListAt(Entries(Projection(endpoints, hostname)), q) == ContributedList(endpoints.value, hostname, q);
    }
    SameLists(m, Projection(endpoints, hostname).value);
    return Some(m);
  }

  type LiveEndpoints = map<NamespacedName, Endpoints>

  ghost predicate NamedEndpoints(live: LiveEndpoints) {
    forall name :: name in live ==> live[name].name == name
  }

  ghost function Projected(live: LiveEndpoints, hostname: string): (p: Projections<seq<EndpointsInfo>>)
    ensures forall name :: At(p, name) == Projection(Lookup(live, name), hostname)
    ensures NamedEndpoints(live) ==> WellNamed(p)
  {
    var p := map name | name in live :: Projection(Some(live[name]), hostname);
    assert NamedEndpoints(live) ==> WellNamed(p) by {
      if NamedEndpoints(live) {
        forall name | name in p
          ensures OwnedBy(Entries(p[name]), name)
        {
          forall q | q in Entries(p[name])
            ensures q.owner == name
          {
            assert ListAt(Entries(p[name]), q) == ContributedList(live[name], hostname, q);
          }
        }
      }
    }
    p
  }

  /** The endpoints map that belongs to the live objects. */
  ghost function EndpointIndexOf(live: LiveEndpoints, hostname: string): EndpointMap
    requires NamedEndpoints(live)
  {
    Index(Projected(live, hostname))
  }

  // ---------------------------------------------------------------- what the lists contain

  /** The place of an address behind a port in an endpoints object. */
  datatype Place = Place(subset: nat, port: nat, address: nat)

  /** Subset by subset, port by port, address by address. */
  predicate Before(a: Place, b: Place) {
    || a.subset < b.subset
    || (a.subset == b.subset && a.port < b.port)
    || (a.subset == b.subset && a.port == b.port && a.address < b.address)
  }

  /** There is a usable address behind a usable port of that name. */
  predicate Usable(subsets: seq<EndpointSubset>, name: string, p: Place) {
    && p.subset < |subsets|
    && p.port < |subsets[p.subset].ports| && p.address < |subsets[p.subset].addresses|
    && subsets[p.subset].ports[p.port].name == name && subsets[p.subset].ports[p.port].port != 0
    && subsets[p.subset].addresses[p.address].ip != ""
  }

  /** `ep` is what is at that place, field by field. */
  predicate IsAt(subsets: seq<EndpointSubset>, p: Place, hostname: string, ep: EndpointsInfo)
    requires p.subset < |subsets|
    requires p.port < |subsets[p.subset].ports| && p.address < |subsets[p.subset].addresses|
  {
    var port, address := subsets[p.subset].ports[p.port], subsets[p.subset].addresses[p.address];
    ep.ip == address.ip && ep.port == port.port && (ep.isLocal <==> address.nodeName == Some(hostname))
  }

  /** The list has what is at the usable places before `end`, each once and in order. */
  ghost predicate ListsBefore(subsets: seq<EndpointSubset>, name: string, hostname: string,
                              list: seq<EndpointsInfo>, places: seq<Place>, end: Place)
  {
    && |places| == |list|
    && (forall m, n :: 0 <= m < n < |places| ==> Before(places[m], places[n]))
    && (forall p :: p in places <==> Usable(subsets, name, p) && Before(p, end))
    && (forall n :: 0 <= n < |places| ==> Usable(subsets, name, places[n]) && IsAt(subsets, places[n], hostname, list[n]))
  }

  /** The list has what is at the usable places, each once and in order. */
  ghost predicate Enumerates(subsets: seq<EndpointSubset>, name: string, hostname: string,
                             list: seq<EndpointsInfo>, places: seq<Place>)
  {
    && |places| == |list|
    && (forall m, n :: 0 <= m < n < |places| ==> Before(places[m], places[n]))
    && (forall p :: p in places <==> Usable(subsets, name, p))
    && (forall n :: 0 <= n < |places| ==> Usable(subsets, name, places[n]) && IsAt(subsets, places[n], hostname, list[n]))
  }

  /** Moving the end over places that are not usable. */
  lemma ListsFurther(subsets: seq<EndpointSubset>, name: string, hostname: string,
                     list: seq<EndpointsInfo>, places: seq<Place>, end: Place, end': Place)
    requires ListsBefore(subsets, name, hostname, list, places, end)
    requires forall p :: Usable(subsets, name, p) ==> (Before(p, end) <==> Before(p, end'))
    ensures ListsBefore(subsets, name, hostname, list, places, end')
  {
  }

  lemma ListsOneMore(subsets: seq<EndpointSubset>, name: string, hostname: string, list: seq<EndpointsInfo>,
                     places: seq<Place>, end: Place, ep: EndpointsInfo)
    requires ListsBefore(subsets, name, hostname, list, places, end)
    requires Usable(subsets, name, end) && IsAt(subsets, end, hostname, ep)
    ensures ListsBefore(subsets, name, hostname, list + [ep], places + [end], end.(address := end.address + 1))
  {
    var more, next := places + [end], end.(address := end.address + 1);
    forall p
      ensures p in more <==> Usable(subsets, name, p) && Before(p, next)
    {
      assert Before(p, next) <==> Before(p, end) || p == end;
    }
    forall n | 0 <= n < |places|
      ensures Before(places[n], end)
    {
      assert places[n] in places;
    }
  }

  lemma {:induction false} AddressesListed(subsets: seq<EndpointSubset>, name: string, hostname: string,
                                           list: seq<EndpointsInfo>, places: seq<Place>, i: nat, j: nat, k: nat)
    returns (places': seq<Place>)
    requires i < |subsets| && j < |subsets[i].ports| && k <= |subsets[i].addresses|
    requires subsets[i].ports[j].name == name && subsets[i].ports[j].port != 0
    requires ListsBefore(subsets, name, hostname, list, places, Place(i, j, 0))
    ensures ListsBefore(subsets, name, hostname,
                        AddressInfos(list, subsets[i].addresses[..k], subsets[i].ports[j], hostname), places', Place(i, j, k))
  {
    if k == 0 {
      places' := places;
    } else {
      var upTo := subsets[i].addresses[..k];
      var before := AddressesListed(subsets, name, hostname, list, places, i, j, k - 1);
      assert upTo[..k - 1] == subsets[i].addresses[..k - 1];
      var shorter := AddressInfos(list, upTo[..k - 1], subsets[i].ports[j], hostname);
      var last := upTo[k - 1];
      if last.ip == "" {
        places' := before;
        assert AddressInfos(list, upTo, subsets[i].ports[j], hostname) == shorter;
        ListsFurther(subsets, name, hostname, shorter, before, Place(i, j, k - 1), Place(i, j, k));
      } else {
        places' := before + [Place(i, j, k - 1)];
        ListsOneMore(subsets, name, hostname, shorter, before, Place(i, j, k - 1),
                     NewEndpointsInfo(last, subsets[i].ports[j], hostname));
      }
    }
  }

  lemma {:induction false} PortsListed(subsets: seq<EndpointSubset>, name: string, hostname: string,
                                       list: seq<EndpointsInfo>, places: seq<Place>, i: nat, j: nat)
    returns (places': seq<Place>)
    requires i < |subsets| && j <= |subsets[i].ports|
    requires ListsBefore(subsets, name, hostname, list, places, Place(i, 0, 0))
    ensures ListsBefore(subsets, name, hostname,
                        SubsetInfos(list, subsets[i].addresses, subsets[i].ports[..j], name, hostname), places', Place(i, j, 0))
  {
    if j == 0 {
      places' := places;
    } else {
      var ss, upTo := subsets[i], subsets[i].ports[..j];
      var before := PortsListed(subsets, name, hostname, list, places, i, j - 1);
      assert upTo[..j - 1] == ss.ports[..j - 1];
      var shorter := SubsetInfos(list, ss.addresses, upTo[..j - 1], name, hostname);
      var last := upTo[j - 1];
      if last.name == name && last.port != 0 {
        var n := |ss.addresses|;
        places' := AddressesListed(subsets, name, hostname, shorter, before, i, j - 1, n);
        assert ss.addresses[..n] == ss.addresses;
        ListsFurther(subsets, name, hostname, AddressInfos(shorter, ss.addresses, last, hostname), places',
                     Place(i, j - 1, n), Place(i, j, 0));
      } else {
        places' := before;
        ListsFurther(subsets, name, hostname, shorter, before, Place(i, j - 1, 0), Place(i, j, 0));
      }
    }
  }

  lemma {:induction false} SubsetsListed(subsets: seq<EndpointSubset>, name: string, hostname: string, i: nat)
    returns (places: seq<Place>)
    requires i <= |subsets|
    ensures ListsBefore(subsets, name, hostname, ListedInfos(subsets[..i], name, hostname), places, Place(i, 0, 0))
  {
    if i == 0 {
      places := [];
    } else {
      var upTo := subsets[..i];
      var before := SubsetsListed(subsets, name, hostname, i - 1);
      assert upTo[..i - 1] == subsets[..i - 1];
      var shorter := ListedInfos(upTo[..i - 1], name, hostname);
      var ss := subsets[i - 1];
      places := PortsListed(subsets, name, hostname, shorter, before, i - 1, |ss.ports|);
      assert ss.ports[..|ss.ports|] == ss.ports;
      ListsFurther(subsets, name, hostname, SubsetInfos(shorter, ss.addresses, ss.ports, name, hostname), places,
                   Place(i - 1, |ss.ports|, 0), Place(i, 0, 0));
    }
  }

  /** Under each name the map of the live objects lists exactly the usable addresses of the object,
      over all its subsets and ports of that port name, each once and in order. */
  lemma EndpointListIs(live: LiveEndpoints, hostname: string, q: ServicePortName) returns (places: seq<Place>)
    requires NamedEndpoints(live)
    ensures var subsets := if q.owner in live then live[q.owner].subsets else [];
            Enumerates(subsets, q.port, hostname, ListAt(EndpointIndexOf(live, hostname), q), places)
    ensures q in EndpointIndexOf(live, hostname) <==> places != []
  {
    var subsets := if q.owner in live then live[q.owner].subsets else [];
    var n := |subsets|;
    places := SubsetsListed(subsets, q.port, hostname, n);
    assert subsets[..n] == subsets;
    assert forall p :: Usable(subsets, q.port, p) ==> Before(p, Place(n, 0, 0));
    assert At(Projected(live, hostname), q.owner) == Projection(Lookup(live, q.owner), hostname);
    var list := ListAt(EndpointIndexOf(live, hostname), q);
    assert list == ListAt(Entries(At(Projected(live, hostname), q.owner)), q);
  }

  /** Membership, in both directions. */
  lemma EndpointMemberIff(live: LiveEndpoints, hostname: string, q: ServicePortName, ep: EndpointsInfo)
    requires NamedEndpoints(live)
    ensures ep in ListAt(EndpointIndexOf(live, hostname), q) <==>
            q.owner in live &&
            exists p :: Usable(live[q.owner].subsets, q.port, p) && IsAt(live[q.owner].subsets, p, hostname, ep)
  {
    var places := EndpointListIs(live, hostname, q);
    var list := ListAt(EndpointIndexOf(live, hostname), q);
    if ep in list {
      var n :| 0 <= n < |list| && list[n] == ep;
      assert Usable(if q.owner in live then live[q.owner].subsets else [], q.port, places[n]);
    }
    if q.owner in live {
      if p :| Usable(live[q.owner].subsets, q.port, p) && IsAt(live[q.owner].subsets, p, hostname, ep) {
        assert p in places;
        var n :| 0 <= n < |places| && places[n] == p;
        assert list[n] == ep;
      }
    }
  }

  lemma ProjectedAfterEvent(was: LiveEndpoints, live: LiveEndpoints, hostname: string, name: NamespacedName,
                            current: Option<Endpoints>)
    requires live == if current.Some? then was[name := current.value] else was - {name}
    ensures At(Projected(live, hostname), name) == Projection(current, hostname)
    ensures At(Projected(was, hostname), name) == Projection(Lookup(was, name), hostname)
    ensures forall other :: other != name ==>
                              At(Projected(live, hostname), other) == At(Projected(was, hostname), other)
  {
    forall other
      ensures Lookup(live, other) == if other == name then current else Lookup(was, other)
    {
    }
  }

  /** One event, recorded as `Update` records it, keeps the tracking. */
  lemma EventKeepsTracking(items: Items<seq<EndpointsInfo>>, items': Items<seq<EndpointsInfo>>, synced: LiveEndpoints, was: LiveEndpoints,
                           live: LiveEndpoints, hostname: string, name: NamespacedName, current: Option<Endpoints>)
    requires Tracks(items, Projected(synced, hostname), Projected(was, hostname))
    requires live == if current.Some? then was[name := current.value] else was - {name}
    requires
      var before := if name in items then items[name].previous else Projection(Lookup(was, name), hostname);
      items' == if before == Projection(current, hostname) then items - {name}
                else items[name := Change(before, Projection(current, hostname))]
    ensures Tracks(items', Projected(synced, hostname), Projected(live, hostname))
  {
    assert forall other :: other != name ==> Lookup(items', other) == Lookup(items, other);
    ProjectedAfterEvent(was, live, hostname, name, current);
    RecordKeepsTracking(items, items', Projected(synced, hostname), Projected(was, hostname), Projected(live, hostname), name);
  }

  /** The pending endpoints changes, with the objects at the last sync and now as ghosts. */
  class EndpointsChangeMap {
    const hostname: string
    var items: Items<seq<EndpointsInfo>>
    ghost var synced: LiveEndpoints
    ghost var live: LiveEndpoints

    ghost predicate Valid()
      reads this
    {
      && NamedEndpoints(synced)
      && NamedEndpoints(live)
      && Tracks(items, Projected(synced, hostname), Projected(live, hostname))
    }

    constructor (hostname: string)
      ensures Valid() && items == map[] && synced == map[] && live == map[] && this.hostname == hostname
    {
      this.hostname := hostname;
      items, synced, live := map[], map[], map[];
    }

    method Update(name: NamespacedName, previous: Option<Endpoints>, current: Option<Endpoints>)
      returns (pending: bool)
      requires Valid()
      requires previous == Lookup(live, name)
      requires current.Some? ==> current.value.name == name
      modifies this
      ensures Valid()
      ensures synced == old(synced)
      ensures live == if current.Some? then old(live)[name := current.value] else old(live) - {name}
      ensures pending <==> items != map[]
    {
      ghost var before := items;
      var change;
      if name in items {
        change := items[name];
      } else {
        var p := EndpointsToEndpointsMap(previous, hostname);
        change := Change(p, None);
      }
      var c := EndpointsToEndpointsMap(current, hostname);
      change := change.(current := c);
      if change.previous == change.current {
        items := items - {name};
      } else {
        items := items[name := change];
      }
      ghost var was := live;
      live := if current.Some? then live[name := current.value] else live - {name};
      EventKeepsTracking(before, items, synced, was, live, hostname, name, current);
      pending := |items| > 0;
    }

    method Clear()
      requires Valid()
      modifies this
      ensures Valid() && items == map[] && synced == live && live == old(live)
    {
      items := map[];
      synced := live;
    }
  }

  /** The endpoints map, changed in place. */
  class ProxyEndpointMap {
    var entries: EndpointMap

    constructor ()
      ensures entries == map[]
    {
      entries := map[];
    }

    method Merge(other: EndpointMap)
      modifies this
      ensures entries == old(entries) + other
    {
      var todo := other.Keys;
      while todo != {}
        invariant todo <= other.Keys
        invariant forall q :: Lookup(entries, q) ==
                              if q in other && q !in todo then Some(other[q]) else Lookup(old(entries), q)
      {
        var q :| q in todo;
        todo := todo - {q};
        entries := entries[q := other[q]];
      }
      SameLookups(entries, old(entries) + other);
    }

    method Unmerge(other: EndpointMap)
      modifies this
      ensures entries == old(entries) - other.Keys
    {
      var todo := other.Keys;
      while todo != {}
        invariant todo <= other.Keys
        invariant entries == old(entries) - (other.Keys - todo)
      {
        var q :| q in todo;
        todo := todo - {q};
        entries := entries - {q};
      }
    }
  }

  /** The backends, per port, that the old lists have and the new ones lack. */
  ghost function StalePairs(before: EndpointMap, after: EndpointMap): set<StaleEndpoint> {
    set q, ep | q in before && ep in before[q] && ep !in ListAt(after, q) ::
      StaleEndpoint(Destination(ep.ip, ep.port), q)
  }

  /** The ports that go from no backend to some. */
  ghost function FilledNames(before: EndpointMap, after: EndpointMap): set<ServicePortName> {
    set q | q in after && after[q] != [] && ListAt(before, q) == []
  }

  method IsListed(ep: EndpointsInfo, list: seq<EndpointsInfo>) returns (listed: bool)
    ensures listed <==> ep in list
  {
    listed := false;
    for i := 0 to |list|
      invariant listed == (ep in list[..i])
    {
      if list[i] == ep {
        return true;
      }
    }
    assert list[..|list|] == list;
  }

  method DetectStaleConnections(oldMap: EndpointMap, newMap: EndpointMap,
                                staleEndpoints: set<StaleEndpoint>, staleServiceNames: set<ServicePortName>)
    returns (stale: set<StaleEndpoint>, names: set<ServicePortName>)
    ensures stale == staleEndpoints + StalePairs(oldMap, newMap)
    ensures names == staleServiceNames + FilledNames(oldMap, newMap)
  {
    stale := CollectStalePairs(oldMap, newMap, staleEndpoints);
    names := staleServiceNames;
    var rest := newMap.Keys;
    while rest != {}
      invariant rest <= newMap.Keys
      invariant names == staleServiceNames +
                         set q | q in newMap && q !in rest && newMap[q] != [] && ListAt(oldMap, q) == []
    {
      var q :| q in rest;
      rest := rest - {q};
      if |newMap[q]| > 0 && |ListAt(oldMap, q)| == 0 {
        names := names + {q};
      }
    }
  }

  method CollectStalePairs(oldMap: EndpointMap, newMap: EndpointMap, staleEndpoints: set<StaleEndpoint>)
    returns (stale: set<StaleEndpoint>)
    ensures stale == staleEndpoints + StalePairs(oldMap, newMap)
  {
    stale := staleEndpoints;
    var todo := oldMap.Keys;
    while todo != {}
      invariant todo <= oldMap.Keys
      invariant stale == staleEndpoints + StalePairs(oldMap - todo, newMap)
    {
      var q :| q in todo;
      StalePairsGrow(oldMap, todo, newMap, q);
      todo := todo - {q};
      stale := CollectStaleOf(q, oldMap[q], ListAt(newMap, q), stale);
    }
    assert oldMap - todo == oldMap;
  }

  ghost function StaleOf(q: ServicePortName, list: seq<EndpointsInfo>, newList: seq<EndpointsInfo>): set<StaleEndpoint> {
    set ep | ep in list && ep !in newList :: StaleEndpoint(Destination(ep.ip, ep.port), q)
  }

  method CollectStaleOf(q: ServicePortName, list: seq<EndpointsInfo>, newList: seq<EndpointsInfo>,
                        staleEndpoints: set<StaleEndpoint>) returns (stale: set<StaleEndpoint>)
    ensures stale == staleEndpoints + StaleOf(q, list, newList)
  {
    stale := staleEndpoints;
    for i := 0 to |list|
      invariant stale == staleEndpoints + StaleOf(q, list[..i], newList)
    {
      assert list[..i + 1] == list[..i] + [list[i]];
      var listed := IsListed(list[i], newList);
      if !listed {
        stale := stale + {StaleEndpoint(Destination(list[i].ip, list[i].port), q)};
      }
    }
    assert list[..|list|] == list;
  }

  lemma StalePairsGrow(m: EndpointMap, todo: set<ServicePortName>, after: EndpointMap, q: ServicePortName)
    requires q in todo && q in m
    ensures StalePairs(m - (todo - {q}), after) == StalePairs(m - todo, after) + StaleOf(q, m[q], ListAt(after, q))
  {
    var fewer, more := m - todo, m - (todo - {q});
    forall r, ep | r in more && ep in more[r] && ep !in ListAt(after, r)
      ensures StaleEndpoint(Destination(ep.ip, ep.port), r) in
              StalePairs(fewer, after) + StaleOf(q, m[q], ListAt(after, q))
    {
      if r != q {
        assert r in fewer && ep in fewer[r];
      }
    }
    forall r, ep | r in fewer && ep in fewer[r] && ep !in ListAt(after, r)
      ensures StaleEndpoint(Destination(ep.ip, ep.port), r) in StalePairs(more, after)
    {
      assert r in more && ep in more[r];
    }
    forall ep | ep in m[q] && ep !in ListAt(after, q)
      ensures StaleEndpoint(Destination(ep.ip, ep.port), q) in StalePairs(more, after)
    {
      assert ep in more[q];
    }
  }

  /** The stale backends of all items together. */
  ghost predicate StaleInItems(items: Items<seq<EndpointsInfo>>, names: set<NamespacedName>, pair: StaleEndpoint)
    requires names <= items.Keys
  {
    var n := pair.name.owner;
    n in names && pair in StalePairs(Entries(items[n].previous), Entries(items[n].current))
  }

  ghost predicate FilledInItems(items: Items<seq<EndpointsInfo>>, names: set<NamespacedName>, q: ServicePortName)
    requires names <= items.Keys
  {
    q.owner in names && q in FilledNames(Entries(items[q.owner].previous), Entries(items[q.owner].current))
  }

  /** Applies the pending items in any order. */
  method UpdateEndpointsMap(endpointsMap: ProxyEndpointMap, changes: EndpointsChangeMap)
    returns (staleEndpoints: set<StaleEndpoint>, staleServiceNames: set<ServicePortName>)
    requires WellNamedItems(changes.items)
    modifies endpointsMap
    ensures IsPatch(old(endpointsMap.entries), changes.items, endpointsMap.entries)
    ensures forall pair :: pair in staleEndpoints <==> StaleInItems(changes.items, changes.items.Keys, pair)
    ensures forall q :: q in staleServiceNames <==> FilledInItems(changes.items, changes.items.Keys, q)
  {
    ghost var m := endpointsMap.entries;
    ghost var items := changes.items;
    staleEndpoints, staleServiceNames := {}, {};
    var todo := changes.items.Keys;
    while todo != {}
      invariant todo <= items.Keys
      invariant forall q :: Lookup(endpointsMap.entries, q) ==
                            if q.owner in todo then Lookup(m, q) else PatchedAt(m, items, q)
      invariant forall pair :: pair in staleEndpoints <==> StaleInItems(items, items.Keys - todo, pair)
      invariant forall q :: q in staleServiceNames <==> FilledInItems(items, items.Keys - todo, q)
    {
      var name :| name in todo;
      todo := todo - {name};
      var change := changes.items[name];
      ghost var before := endpointsMap.entries;
      endpointsMap.Unmerge(Entries(change.previous));
      endpointsMap.Merge(Entries(change.current));
      forall q
        ensures Lookup(endpointsMap.entries, q) ==
                if q.owner in todo then Lookup(m, q) else PatchedAt(m, items, q)
      {
        assert Lookup(before, q) == if q.owner in todo + {name} then Lookup(m, q) else PatchedAt(m, items, q);
      }
      staleEndpoints, staleServiceNames := DetectStaleConnections(
        Entries(change.previous), Entries(change.current), staleEndpoints, staleServiceNames);
    }
    assert items.Keys - todo == items.Keys;
    forall q
      ensures Lookup(endpointsMap.entries, q) == PatchedAt(m, items, q)
    {
    }
  }

  /** Items that cover the difference of two maps report exactly the whole-map differences. */
  lemma StaleOverWholeMap(items: Items<seq<EndpointsInfo>>, before: EndpointMap, after: EndpointMap)
    requires Covers(items, before, after)
    ensures forall pair :: pair in StalePairs(before, after) <==> StaleInItems(items, items.Keys, pair)
    ensures forall q :: q in FilledNames(before, after) <==> FilledInItems(items, items.Keys, q)
  {
    forall q: ServicePortName
      ensures q.owner in items ==> ListAt(before, q) == ListAt(Entries(items[q.owner].previous), q)
      ensures q.owner in items ==> ListAt(after, q) == ListAt(Entries(items[q.owner].current), q)
      ensures q.owner !in items ==> ListAt(before, q) == ListAt(after, q)
    {
      if q.owner in items {
        assert Lookup(before, q) == Lookup(Entries(items[q.owner].previous), q);
        assert Lookup(after, q) == Lookup(Entries(items[q.owner].current), q);
      } else {
        assert Lookup(before, q) == Lookup(after, q);
      }
    }
    forall pair
      ensures pair in StalePairs(before, after) <==> StaleInItems(items, items.Keys, pair)
    {
      StaleAt(before, after, pair);
      if pair.name.owner in items {
        StaleAt(Entries(items[pair.name.owner].previous), Entries(items[pair.name.owner].current), pair);
      }
    }
  }

  /** Along every run the map after a sync is the union over the live objects, and the stale sets
      are the whole-map differences. */
  method SyncEndpointsMap(endpointsMap: ProxyEndpointMap, changes: EndpointsChangeMap)
    returns (staleEndpoints: set<StaleEndpoint>, staleServiceNames: set<ServicePortName>)
    requires changes.Valid() && endpointsMap.entries == EndpointIndexOf(changes.synced, changes.hostname)
    modifies endpointsMap
    ensures endpointsMap.entries == EndpointIndexOf(changes.live, changes.hostname)
    ensures Covers(changes.items, old(endpointsMap.entries), endpointsMap.entries)
    ensures staleEndpoints == StalePairs(old(endpointsMap.entries), endpointsMap.entries)
    ensures staleServiceNames == FilledNames(old(endpointsMap.entries), endpointsMap.entries)
  {
    ghost var before := endpointsMap.entries;
    ghost var base, live := Projected(changes.synced, changes.hostname), Projected(changes.live, changes.hostname);
    TrackedItemsAreWellNamed(changes.items, base, live);
    staleEndpoints, staleServiceNames := UpdateEndpointsMap(endpointsMap, changes);
    PatchReachesLive(before, changes.items, endpointsMap.entries, base, live);
    StaleOverWholeMap(changes.items, before, endpointsMap.entries);
  }

  lemma StaleAt(before: EndpointMap, after: EndpointMap, pair: StaleEndpoint)
    ensures pair in StalePairs(before, after) <==>
            exists ep :: ep in ListAt(before, pair.name) && ep !in ListAt(after, pair.name)
                         && Destination(ep.ip, ep.port) == pair.endpoint
  {
  }
}
