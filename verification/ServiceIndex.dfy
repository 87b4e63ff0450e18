/** The service half of the proxy's index: pkg/proxy/util/services.go. */
module ServiceIndex {
  import opened ProxyTypes
  import opened ChangeTracking

  datatype ServicePort = ServicePort(name: string, protocol: Protocol, port: int, nodePort: int)

  datatype Service = Service(
    name: NamespacedName,
    clusterIP: string,
    serviceType: string,
    ports: seq<ServicePort>,
    externalIPs: seq<IP>,
    sessionAffinity: string)

  datatype ServiceInfo = ServiceInfo(
    clusterIP: IP,
    port: int,
    protocol: Protocol,
    nodePort: int,
    sessionAffinity: bool,
    externalIPs: seq<IP>)

  type ServiceMap = Ports<ServiceInfo>

  function NewServiceInfo(port: ServicePort, service: Service): ServiceInfo {
    ServiceInfo(service.clusterIP, port.port, port.protocol, port.nodePort,
                service.sessionAffinity == "ClientIP", service.externalIPs)
  }

  predicate IsServiceIPSet(service: Service) {
    service.clusterIP != "None" && service.clusterIP != ""
  }

  predicate ShouldSkipService(service: Service) {
    !IsServiceIPSet(service) || service.serviceType == "ExternalName"
  }

  /** The last of the ports with the given name, if any: later ports replace earlier ones. */
  function LastPort(ports: seq<ServicePort>, name: string): Option<ServicePort> {
    if ports == [] then None
    else if ports[|ports| - 1].name == name then Some(ports[|ports| - 1])
    else LastPort(ports[..|ports| - 1], name)
  }

  /** The entry a service contributes under `q`. */
  function ContributedAt(service: Service, q: ServicePortName): Option<ServiceInfo> {
    if ShouldSkipService(service) || q.owner != service.name then None
    else
      match LastPort(service.ports, q.port)
      case None => None
      case Some(port) => Some(NewServiceInfo(port, service))
  }

  function PortNames(service: Service): set<ServicePortName> {
    set i | 0 <= i < |service.ports| :: ServicePortName(service.name, service.ports[i].name)
  }

  lemma {:induction false} LastPortExists(ports: seq<ServicePort>, name: string)
    ensures LastPort(ports, name).Some? <==> exists i :: 0 <= i < |ports| && ports[i].name == name
  {
    if ports != [] {
      var init := ports[..|ports| - 1];
      LastPortExists(init, name);
      if i :| 0 <= i < |ports| && ports[i].name == name {
        if i < |init| {
          assert init[i].name == name;
        }
      }
      if LastPort(ports, name).Some? && ports[|ports| - 1].name != name {
        var i :| 0 <= i < |init| && init[i].name == name;
        assert ports[i].name == name;
      }
    }
  }

  lemma ContributedNames(service: Service)
    requires !ShouldSkipService(service)
    ensures forall q :: q in PortNames(service) <==> ContributedAt(service, q).Some?
  {
    forall q
      ensures q in PortNames(service) <==> ContributedAt(service, q).Some?
    {
      LastPortExists(service.ports, q.port);
      if ContributedAt(service, q).Some? {
        var i :| 0 <= i < |service.ports| && service.ports[i].name == q.port;
        assert ServicePortName(service.name, service.ports[i].name) == q;
      }
    }
  }

  lemma ContributedGrows(service: Service, i: nat)
    requires i < |service.ports| && !ShouldSkipService(service)
    ensures forall q :: ContributedAt(service.(ports := service.ports[..i + 1]), q) ==
                        if q == ServicePortName(service.name, service.ports[i].name)
                        then Some(NewServiceInfo(service.ports[i], service))
                        else ContributedAt(service.(ports := service.ports[..i]), q)
  {
    var upTo := service.ports[..i + 1];
    assert upTo[|upTo| - 1] == service.ports[i] && upTo[..|upTo| - 1] == service.ports[..i];
    var longer, shorter := service.(ports := upTo), service.(ports := service.ports[..i]);
    forall q
      ensures ContributedAt(longer, q) ==
              if q == ServicePortName(service.name, service.ports[i].name)
              then Some(NewServiceInfo(service.ports[i], service))
              else ContributedAt(shorter, q)
    {
      assert LastPort(longer.ports, q.port) ==
             if q.port == service.ports[i].name then Some(service.ports[i]) else LastPort(shorter.ports, q.port);
    }
  }

  /** The projection of an object onto the index; `None` for a missing or skipped service. */
  ghost function Projection(service: Option<Service>): (p: Option<ServiceMap>)
    ensures p.Some? <==> service.Some? && !ShouldSkipService(service.value)
    ensures forall q :: Lookup(Entries(p), q) ==
                        if service.None? then None else ContributedAt(service.value, q)
  {
    if service.None? || ShouldSkipService(service.value) then None
    else
      ContributedNames(service.value);
      Some(map q | q in PortNames(service.value) :: ContributedAt(service.value, q).value)
  }

  method ServiceToServiceMap(service: Option<Service>) returns (p: Option<ServiceMap>)
    ensures p == Projection(service)
  {
    if service.None? || ShouldSkipService(service.value) {
      return None;
    }
    var s := service.value;
    var serviceMap: ServiceMap := map[];
    for i := 0 to |s.ports|
      invariant forall q :: Lookup(serviceMap, q) == ContributedAt(s.(ports := s.ports[..i]), q)
    {
      ContributedGrows(s, i);
      ghost var before := serviceMap;
      serviceMap := serviceMap[ServicePortName(s.name, s.ports[i].name) := NewServiceInfo(s.ports[i], s)];
      assert forall q :: Lookup(serviceMap, q) ==
                         if q == ServicePortName(s.name, s.ports[i].name) then Some(NewServiceInfo(s.ports[i], s))
                         else Lookup(before, q);
    }
    assert s.(ports := s.ports[..|s.ports|]) == s by { assert s.ports[..|s.ports|] == s.ports; }
    SameLookups(serviceMap, Projection(service).value);
    return Some(serviceMap);
  }

  /** The live services, by name, as the watch cache lists them. */
  type Services = map<NamespacedName, Service>

  ghost predicate NamedServices(live: Services) {
    forall name :: name in live ==> live[name].name == name
  }

  ghost function Projected(live: Services): (p: Projections<ServiceInfo>)
    ensures forall name :: At(p, name) == Projection(Lookup(live, name))
    ensures NamedServices(live) ==> WellNamed(p)
  {
    var p := map name | name in live :: Projection(Some(live[name]));
    assert NamedServices(live) ==> WellNamed(p) by {
      if NamedServices(live) {
        forall name | name in p
          ensures OwnedBy(Entries(p[name]), name)
        {
          forall q | q in Entries(p[name])
            ensures q.owner == name
          {
            assert Lookup(Entries(p[name]), q) == ContributedAt(live[name], q);
          }
        }
      }
    }
    p
  }

  /** The service map that belongs to the live services. */
  ghost function ServiceIndexOf(live: Services): ServiceMap
    requires NamedServices(live)
  {
    Index(Projected(live))
  }

  lemma {:induction false} LastPortIs(ports: seq<ServicePort>, name: string, i: nat)
    requires i < |ports| && ports[i].name == name && forall j :: i < j < |ports| ==> ports[j].name != name
    ensures LastPort(ports, name) == Some(ports[i])
    decreases |ports|
  {
    if i < |ports| - 1 {
      LastPortIs(ports[..|ports| - 1], name, i);
    }
  }

  lemma {:induction false} LastPortAt(ports: seq<ServicePort>, name: string) returns (i: nat)
    requires LastPort(ports, name).Some?
    ensures i < |ports| && ports[i].name == name && forall j :: i < j < |ports| ==> ports[j].name != name
  {
    if ports[|ports| - 1].name == name {
      i := |ports| - 1;
    } else {
      i := LastPortAt(ports[..|ports| - 1], name);
    }
  }

  /** Entry `info` of `q` is that of port `i` of a live service with an address of its own, the last
      port of that name, field by field. */
  ghost predicate PortEntry(live: Services, q: ServicePortName, i: nat, info: ServiceInfo) {
    && q.owner in live
    && var s := live[q.owner];
       && s.clusterIP != "" && s.clusterIP != "None" && s.serviceType != "ExternalName"
       && i < |s.ports| && s.ports[i].name == q.port && (forall j :: i < j < |s.ports| ==> s.ports[j].name != q.port)
       && info.clusterIP == s.clusterIP && info.externalIPs == s.externalIPs
       && info.port == s.ports[i].port && info.nodePort == s.ports[i].nodePort
       && info.protocol == s.ports[i].protocol
       && (info.sessionAffinity <==> s.sessionAffinity == "ClientIP")
  }

  /** The map of the live services has exactly these entries. */
  lemma ServiceEntryIff(live: Services, q: ServicePortName, info: ServiceInfo)
    requires NamedServices(live)
    ensures Lookup(ServiceIndexOf(live), q) == Some(info) <==> exists i: nat :: PortEntry(live, q, i, info)
  {
    assert At(Projected(live), q.owner) == Projection(Lookup(live, q.owner));
    if Lookup(ServiceIndexOf(live), q) == Some(info) {
      var i := LastPortAt(live[q.owner].ports, q.port);
      LastPortIs(live[q.owner].ports, q.port, i);
      assert PortEntry(live, q, i, info);
    }
    if i: nat :| PortEntry(live, q, i, info) {
      LastPortIs(live[q.owner].ports, q.port, i);
    }
  }

  /** The cluster IPs of UDP entries that one index has and the other lacks. */
  ghost function StaleUDP(before: ServiceMap, after: ServiceMap): set<IP> {
    set q | q in before && q !in after && before[q].protocol == UDP :: before[q].clusterIP
  }

  /** The from-scratch build, visiting services and old entries in any order. */
  method BuildServiceMap(live: Services, oldServiceMap: ServiceMap)
    returns (newServiceMap: ServiceMap, staleUDPServices: set<IP>)
    requires NamedServices(live)
    ensures newServiceMap == ServiceIndexOf(live)
    ensures staleUDPServices == StaleUDP(oldServiceMap, newServiceMap)
  {
    newServiceMap := map[];
    var todo := live.Keys;
    while todo != {}
      invariant todo <= live.Keys
      invariant forall q :: Lookup(newServiceMap, q) ==
                            if q.owner in live && q.owner !in todo then ContributedAt(live[q.owner], q) else None
    {
      var name :| name in todo;
      todo := todo - {name};
      var service := live[name];
      if !IsServiceIPSet(service) || service.serviceType == "ExternalName" {
        continue;
      }
      ghost var before := newServiceMap;
      for i := 0 to |service.ports|
        invariant forall q :: Lookup(newServiceMap, q) ==
                              if q.owner == name then ContributedAt(service.(ports := service.ports[..i]), q)
                              else Lookup(before, q)
      {
        ContributedGrows(service, i);
        newServiceMap := newServiceMap[ServicePortName(name, service.ports[i].name) :=
          NewServiceInfo(service.ports[i], service)];
      }
      assert service.(ports := service.ports[..|service.ports|]) == service by {
        assert service.ports[..|service.ports|] == service.ports;
      }
    }
    forall q
      ensures Lookup(newServiceMap, q) == Lookup(ServiceIndexOf(live), q)
    {
      assert At(Projected(live), q.owner) == Projection(Lookup(live, q.owner));
    }
    SameLookups(newServiceMap, ServiceIndexOf(live));

    staleUDPServices := {};
    var rest := oldServiceMap.Keys;
    while rest != {}
      invariant rest <= oldServiceMap.Keys
      invariant staleUDPServices == set q | q in oldServiceMap && q !in rest && q !in newServiceMap
                                            && oldServiceMap[q].protocol == UDP :: oldServiceMap[q].clusterIP
    {
      var q :| q in rest;
      rest := rest - {q};
      if q !in newServiceMap && oldServiceMap[q].protocol == UDP {
        staleUDPServices := staleUDPServices + {oldServiceMap[q].clusterIP};
      }
    }
  }

  lemma ProjectedAfterEvent(was: Services, live: Services, name: NamespacedName, current: Option<Service>)
    requires live == if current.Some? then was[name := current.value] else was - {name}
    ensures At(Projected(live), name) == Projection(current)
    ensures At(Projected(was), name) == Projection(Lookup(was, name))
    ensures forall other :: other != name ==> At(Projected(live), other) == At(Projected(was), other)
  {
    forall other
      ensures Lookup(live, other) == if other == name then current else Lookup(was, other)
    {
    }
  }

  /** One event, recorded as `Update` records it, keeps the tracking. */
  lemma EventKeepsTracking(items: Items<ServiceInfo>, items': Items<ServiceInfo>, synced: Services, was: Services,
                           live: Services, name: NamespacedName, current: Option<Service>)
    requires Tracks(items, Projected(synced), Projected(was))
    requires live == if current.Some? then was[name := current.value] else was - {name}
    requires
      var before := if name in items then items[name].previous else Projection(Lookup(was, name));
      items' == if before == Projection(current) then items - {name}
                else items[name := Change(before, Projection(current))]
    ensures Tracks(items', Projected(synced), Projected(live))
  {
    assert forall other :: other != name ==> Lookup(items', other) == Lookup(items, other);
    ProjectedAfterEvent(was, live, name, current);
    RecordKeepsTracking(items, items', Projected(synced), Projected(was), Projected(live), name);
  }

  /** The pending service changes. The ghost fields remember the services at the last sync and
      the services now. */
  class ServiceChangeMap {
    var items: Items<ServiceInfo>
    ghost var synced: Services
    ghost var live: Services

    ghost predicate Valid()
      reads this
    {
      && NamedServices(synced)
      && NamedServices(live)
      && Tracks(items, Projected(synced), Projected(live))
    }

    constructor ()
      ensures Valid() && items == map[] && synced == map[] && live == map[]
    {
      items, synced, live := map[], map[], map[];
    }

    /** Records one event; `previous` is the object as last seen. */
    method Update(name: NamespacedName, previous: Option<Service>, current: Option<Service>) returns (pending: bool)
      requires Valid()
      requires previous == Lookup(live, name)
      requires current.Some? ==> current.value.name == name
      modifies this
      ensures Valid()
      ensures synced == old(synced)
      ensures live == if current.Some? then old(live)[name := current.value] else old(live) - {name}
      ensures pending <==> items != map[]
    {
      ghost var before := items;
      var change;
      if name in items {
        change := items[name];
      } else {
        var p := ServiceToServiceMap(previous);
        change := Change(p, None);
      }
      var c := ServiceToServiceMap(current);
      change := change.(current := c);
      if change.previous == change.current {
        items := items - {name};
      } else {
        items := items[name := change];
      }
      ghost var was := live;
      live := if current.Some? then live[name := current.value] else live - {name};
      EventKeepsTracking(before, items, synced, was, live, name, current);
      pending := |items| > 0;
    }

    /** Forgets the pending items once they have been replayed. */
    method Clear()
      requires Valid()
      modifies this
      ensures Valid() && items == map[] && synced == live && live == old(live)
    {
      items := map[];
      synced := live;
    }
  }

  /** The service map, changed in place. */
  class ProxyServiceMap {
    var entries: ServiceMap

    constructor ()
      ensures entries == map[]
    {
      entries := map[];
    }

    method Merge(other: ServiceMap) returns (existingPorts: set<string>)
      modifies this
      ensures entries == old(entries) + other
      ensures existingPorts == set q | q in other :: q.port
    {
      existingPorts := {};
      var todo := other.Keys;
      while todo != {}
        invariant todo <= other.Keys
        invariant existingPorts == set q | q in other && q !in todo :: q.port
        invariant forall q :: Lookup(entries, q) ==
                              if q in other && q !in todo then Some(other[q]) else Lookup(old(entries), q)
      {
        var q :| q in todo;
        todo := todo - {q};
        existingPorts := existingPorts + {q.port};
        entries := entries[q := other[q]];
      }
      SameLookups(entries, old(entries) + other);
    }

    method Unmerge(other: ServiceMap, existingPorts: set<string>, staleServices: set<IP>)
      returns (stale: set<IP>)
      modifies this
      ensures entries == old(entries) - (set q | q in other && q.port !in existingPorts)
      ensures stale == staleServices +
                       set q | q in other && q.port !in existingPorts && q in old(entries)
                               && old(entries)[q].protocol == UDP :: old(entries)[q].clusterIP
    {
      stale := staleServices;
      var todo := other.Keys;
      while todo != {}
        invariant todo <= other.Keys
        invariant entries == old(entries) - (set q | q in other && q !in todo && q.port !in existingPorts)
        invariant stale == staleServices +
                           set q | q in other && q !in todo && q.port !in existingPorts && q in old(entries)
                                   && old(entries)[q].protocol == UDP :: old(entries)[q].clusterIP
      {
        var q :| q in todo;
        todo := todo - {q};
        if q.port in existingPorts {
          continue;
        }
        if q in entries {
          if entries[q].protocol == UDP {
            stale := stale + {entries[q].clusterIP};
          }
          entries := entries - {q};
        }
      }
    }
  }

  /** Because every item's entries carry the item's own name, one item's merge and unmerge
      only concern that name, and matching on the bare port name is as precise as matching on
      the full name. */
  lemma OneItemPatches(before: ServiceMap, change: Change<ServiceInfo>, name: NamespacedName,
                       removed: set<ServicePortName>)
    requires OwnedBy(Entries(change.previous), name) && OwnedBy(Entries(change.current), name)
    requires
      var existingPorts := set q | q in Entries(change.current) :: q.port;
      removed == set q | q in Entries(change.previous) && q.port !in existingPorts
    ensures forall q :: Lookup(before + Entries(change.current) - removed, q) ==
                        PatchedAt(before, map[name := change], q)
    ensures forall q :: q in removed <==> q in Entries(change.previous) && q !in Entries(change.current)
  {
    var current, previous := Entries(change.current), Entries(change.previous);
    var existingPorts := set q | q in current :: q.port;
    forall q | q in previous
      ensures q.port in existingPorts <==> q in current
    {
      if q.port in existingPorts {
        var r :| r in current && r.port == q.port;
        assert r == q;
      }
    }
  }

  /** Applies the pending items in any order. */
  method UpdateServiceMap(serviceMap: ProxyServiceMap, changes: ServiceChangeMap) returns (staleServices: set<IP>)
    requires WellNamedItems(changes.items)
    modifies serviceMap
    ensures IsPatch(old(serviceMap.entries), changes.items, serviceMap.entries)
    ensures staleServices == StaleUDP(old(serviceMap.entries), serviceMap.entries)
  {
    ghost var m := serviceMap.entries;
    ghost var items := changes.items;
    staleServices := {};
    var todo := changes.items.Keys;
    while todo != {}
      invariant todo <= items.Keys
      invariant forall q :: Lookup(serviceMap.entries, q) ==
                            if q.owner in todo then Lookup(m, q) else PatchedAt(m, items, q)
      invariant staleServices == StaleUDP(m, serviceMap.entries)
    {
      var name :| name in todo;
      todo := todo - {name};
      var change := changes.items[name];
      ghost var before := serviceMap.entries;
      var existingPorts := serviceMap.Merge(Entries(change.current));
      ghost var merged := serviceMap.entries;
      ghost var removed := set q | q in Entries(change.previous) && q.port !in existingPorts;
      staleServices := serviceMap.Unmerge(Entries(change.previous), existingPorts, staleServices);
      OneItemPatches(before, change, name, removed);
      StaleGrows(m, before, merged, serviceMap.entries, removed, name, change);
      forall q
        ensures Lookup(serviceMap.entries, q) ==
                if q.owner in todo then Lookup(m, q) else PatchedAt(m, items, q)
      {
        assert Lookup(serviceMap.entries, q) == PatchedAt(before, map[name := change], q);
      }
    }
    forall q
      ensures Lookup(serviceMap.entries, q) == PatchedAt(m, items, q)
    {
    }
  }

  /** Along every run the map after a sync is the one built from scratch: well-formed events keep
      `changes` valid, and applying its items to the index of the last sync gives the index of
      the live services, with the same stale addresses as the from-scratch build. */
  method SyncServiceMap(serviceMap: ProxyServiceMap, changes: ServiceChangeMap) returns (staleServices: set<IP>)
    requires changes.Valid() && serviceMap.entries == ServiceIndexOf(changes.synced)
    modifies serviceMap
    ensures serviceMap.entries == ServiceIndexOf(changes.live)
    ensures staleServices == StaleUDP(old(serviceMap.entries), serviceMap.entries)
    ensures Covers(changes.items, old(serviceMap.entries), serviceMap.entries)
  {
    ghost var before := serviceMap.entries;
    TrackedItemsAreWellNamed(changes.items, Projected(changes.synced), Projected(changes.live));
    staleServices := UpdateServiceMap(serviceMap, changes);
    PatchReachesLive(before, changes.items, serviceMap.entries, Projected(changes.synced), Projected(changes.live));
  }

  lemma StaleGrows(m: ServiceMap, before: ServiceMap, merged: ServiceMap, after: ServiceMap,
                   removed: set<ServicePortName>, name: NamespacedName, change: Change<ServiceInfo>)
    requires OwnedBy(Entries(change.previous), name) && OwnedBy(Entries(change.current), name)
    requires merged == before + Entries(change.current)
    requires after == merged - removed
    requires forall q :: q in removed <==> q in Entries(change.previous) && q !in Entries(change.current)
    requires forall q: ServicePortName :: q.owner == name ==> Lookup(before, q) == Lookup(m, q)
    ensures StaleUDP(m, after) ==
            StaleUDP(m, before) + set q | q in removed && q in merged && merged[q].protocol == UDP :: merged[q].clusterIP
  {
    var more := set q | q in removed && q in merged && merged[q].protocol == UDP :: merged[q].clusterIP;
    forall q | q in m && q !in after && m[q].protocol == UDP
      ensures m[q].clusterIP in StaleUDP(m, before) + more
    {
      if q in before {
        assert q in removed && q in merged;
        assert Lookup(before, q) == Lookup(m, q);
        assert merged[q].clusterIP in more;
      }
    }
    forall q | q in m && q !in before && m[q].protocol == UDP
      ensures m[q].clusterIP in StaleUDP(m, after)
    {
      assert q.owner == name ==> Lookup(before, q) == Lookup(m, q);
    }
    forall q | q in removed && q in merged && merged[q].protocol == UDP
      ensures merged[q].clusterIP in StaleUDP(m, after)
    {
      assert Lookup(before, q) == Lookup(m, q);
      assert q in m && q !in after;
    }
  }

  /** Returning after the items were applied but before they are cleared leaves a deleted
      service in the map: a service is added, the sync aborts, the service is deleted. */
  lemma AbortedSyncLeaksService(name: NamespacedName, m: ServiceMap)
    requires
      var service := Service(name, "10.0.0.1", "ClusterIP", [ServicePort("http", TCP, 80, 0)], [], "None");
      IsPatch(ServiceIndexOf(map[name := service]), map[], m)
    ensures m != ServiceIndexOf(map[])
  {
    var service := Service(name, "10.0.0.1", "ClusterIP", [ServicePort("http", TCP, 80, 0)], [], "None");
    var q := ServicePortName(name, "http");
    assert ContributedAt(service, q).Some?;
    assert At(Projected(map[name := service]), name) == Projection(Some(service)) by {
      assert Lookup(map[name := service], name) == Some(service);
    }
    assert At(Projected(map[]), name) == None by { assert Lookup<NamespacedName, Service>(map[], name) == None; }
    assert Lookup(ServiceIndexOf(map[]), q) == None;
    assert Lookup(m, q) == PatchedAt(ServiceIndexOf(map[name := service]), map[], q);
  }
}
