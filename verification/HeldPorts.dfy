/** Which local ports a sync holds. An external IP counts as local when it is on an interface or on
    the dummy link at that moment, and a sync binds cluster IPs as it goes, so the ports depend on
    the order in which service ports are visited. */
module HeldPorts {
  import opened ProxyTypes
  import opened ChangeTracking
  import opened ServiceIndex
  import opened Host
  import opened WantedState

  /** `order` names every service port once. */
  ghost predicate IsOrder(order: seq<ServicePortName>, services: ServiceMap) {
    && (forall i, j :: 0 <= i < j < |order| ==> order[i] != order[j])
    && (forall q :: q in order <==> q in services)
  }

  ghost function IPsOf(services: ServiceMap, order: seq<ServicePortName>): set<IP> {
    set q | q in order && q in services :: services[q].clusterIP
  }

  /** The ports held when service ports are visited in `order`, each after binding its cluster IP,
      when `near` are the addresses on the host at the start. */
  ghost function HeldInOrder(services: ServiceMap, order: seq<ServicePortName>, near: set<IP>): set<LocalPort>
    requires forall q :: q in order ==> q in services
  {
    if order == [] then {}
    else
      var last := order[|order| - 1];
      HeldInOrder(services, order[..|order| - 1], near) + PortsOf(last, services[last], near + IPsOf(services, order))
  }

  /** These ports are held after visiting the service ports in some order. */
  ghost predicate Arises(services: ServiceMap, near: set<IP>, ports: set<LocalPort>) {
    exists order :: IsOrder(order, services) && ports == HeldInOrder(services, order, near)
  }

  lemma NothingArises(near: set<IP>)
    ensures Arises(map[], near, {})
  {
    assert IsOrder([], map[]);
    assert HeldInOrder(map[], [], near) == {};
  }

  lemma {:induction false} HeldIsLocal(services: ServiceMap, more: ServiceMap, order: seq<ServicePortName>, near: set<IP>)
    requires forall q :: q in order ==> q in services && q in more && services[q] == more[q]
    ensures HeldInOrder(services, order, near) == HeldInOrder(more, order, near)
  {
    if order != [] {
      var init := order[..|order| - 1];
      assert forall q :: q in init ==> q in order;
      HeldIsLocal(services, more, init, near);
      assert order[|order| - 1] in order;
      assert IPsOf(services, order) == IPsOf(more, order);
    }
  }

  lemma OrderedIPs(order: seq<ServicePortName>, services: ServiceMap)
    requires IsOrder(order, services)
    ensures IPsOf(services, order) == ClusterIPs(services)
  {
  }

  lemma LongerOrder(order: seq<ServicePortName>, services: ServiceMap, q: ServicePortName, info: ServiceInfo)
    requires IsOrder(order, services) && q !in services
    ensures IsOrder(order + [q], services[q := info])
    ensures IPsOf(services[q := info], order + [q]) == ClusterIPs(services) + {info.clusterIP}
  {
    var more := services[q := info];
    assert forall p :: p in order + [q] <==> p in order || p == q;
    assert IsOrder(order + [q], more);
    OrderedIPs(order + [q], more);
    assert more[q] == info && forall p :: p in services ==> p in more && more[p] == services[p];
  }

  lemma {:induction false} HeldOneMore(services: ServiceMap, order: seq<ServicePortName>, near: set<IP>, q: ServicePortName)
    requires forall p :: p in order + [q] ==> p in services
    ensures (forall p :: p in order ==> p in services)
    ensures HeldInOrder(services, order + [q], near) ==
            HeldInOrder(services, order, near) + PortsOf(q, services[q], near + IPsOf(services, order + [q]))
  {
    var longer := order + [q];
    assert longer[..|longer| - 1] == order && longer[|longer| - 1] == q;
    assert forall p :: p in order ==> p in longer;
  }

  lemma {:induction false} HeldStep(services: ServiceMap, order: seq<ServicePortName>, near: set<IP>,
                                    q: ServicePortName, info: ServiceInfo)
    requires IsOrder(order, services) && q !in services
    ensures IsOrder(order + [q], services[q := info])
    ensures HeldInOrder(services[q := info], order + [q], near) ==
            HeldInOrder(services, order, near) +
            PortsOf(q, info, near + (ClusterIPs(services) + {info.clusterIP}))
  {
    LongerOrder(order, services, q, info);
    HeldOneMore(services[q := info], order, near, q);
    HeldIsLocal(services, services[q := info], order, near);
  }

  /** Visiting one more service port. */
  lemma {:induction false} ArisesStep(services: ServiceMap, near: set<IP>, ports: set<LocalPort>,
                                      q: ServicePortName, info: ServiceInfo)
    requires Arises(services, near, ports) && q !in services
    ensures Arises(services[q := info], near,
                   ports + PortsOf(q, info, near + (ClusterIPs(services) + {info.clusterIP})))
  {
    var order :| IsOrder(order, services) && ports == HeldInOrder(services, order, near);
    HeldStep(services, order, near, q, info);
  }

  // ---------------------------------------------------------------- bounds

  lemma PortsOfMonotone(q: ServicePortName, info: ServiceInfo, a: set<IP>, b: set<IP>)
    requires a <= b
    ensures PortsOf(q, info, a) <= PortsOf(q, info, b)
  {
  }

  /** The ports held for any service port lie between those for its own cluster IP alone and those
      for the cluster IPs of all. */
  lemma {:induction false} HeldBetween(services: ServiceMap, order: seq<ServicePortName>, near: set<IP>, q: ServicePortName)
    requires (forall p :: p in order ==> p in services) && q in order
    ensures PortsOf(q, services[q], near + {services[q].clusterIP}) <= HeldInOrder(services, order, near)
  {
    var init, last := order[..|order| - 1], order[|order| - 1];
    if q == last {
      assert services[q].clusterIP in IPsOf(services, order);
      PortsOfMonotone(q, services[q], near + {services[q].clusterIP}, near + IPsOf(services, order));
    } else {
      assert q in init && forall p :: p in init ==> p in order;
      HeldBetween(services, init, near, q);
    }
  }

  lemma {:induction false} HeldBelow(services: ServiceMap, order: seq<ServicePortName>, near: set<IP>)
    requires forall p :: p in order ==> p in services
    ensures HeldInOrder(services, order, near) <= PortsIn(services, near + ClusterIPs(services))
  {
    if order != [] {
      var init, last := order[..|order| - 1], order[|order| - 1];
      assert forall p :: p in init ==> p in order;
      HeldBelow(services, init, near);
      assert last in order;
      PortsOfMonotone(last, services[last], near + IPsOf(services, order), near + ClusterIPs(services));
    }
  }

  /** In every order the ports are at least those that the addresses of the start call for and at
      most those that these and all cluster IPs call for; where the two agree, so do all orders. */
  lemma ArisesBetween(services: ServiceMap, near: set<IP>, ports: set<LocalPort>)
    requires Arises(services, near, ports)
    ensures PortsIn(services, near) <= ports <= PortsIn(services, near + ClusterIPs(services))
  {
    var order :| IsOrder(order, services) && ports == HeldInOrder(services, order, near);
    HeldBelow(services, order, near);
    forall lp | lp in PortsIn(services, near)
      ensures lp in ports
    {
      var q :| q in services && lp in PortsOf(q, services[q], near);
      PortsOfMonotone(q, services[q], near, near + {services[q].clusterIP});
      HeldBetween(services, order, near, q);
    }
  }

  // ---------------------------------------------------------------- exactly when the order does not matter

  /** Whether an external IP is among `local` is what is found when its service port is visited
      first, and what is found when it is visited last. */
  ghost predicate Steady(services: ServiceMap, near: set<IP>, local: set<IP>) {
    forall q, ip :: q in services && ip in services[q].externalIPs ==>
                      && (ip in local <==> ip in near + {services[q].clusterIP})
                      && (ip in local <==> ip in near + ClusterIPs(services))
  }

  ghost predicate AlwaysHeld(services: ServiceMap, near: set<IP>, ports: set<LocalPort>) {
    forall order :: IsOrder(order, services) ==> HeldInOrder(services, order, near) == ports
  }

  lemma SteadyPorts(services: ServiceMap, near: set<IP>, local: set<IP>, q: ServicePortName, at: set<IP>)
    requires Steady(services, near, local) && q in services
    requires near + {services[q].clusterIP} <= at <= near + ClusterIPs(services)
    ensures PortsOf(q, services[q], at) == PortsOf(q, services[q], local)
  {
    assert forall ip :: ip in services[q].externalIPs ==> (ip in at <==> ip in local);
  }

  lemma {:induction false} SteadyIsHeld(services: ServiceMap, order: seq<ServicePortName>, near: set<IP>, local: set<IP>)
    requires Steady(services, near, local) && forall p :: p in order ==> p in services
    ensures HeldInOrder(services, order, near) == set q, lp | q in order && lp in PortsOf(q, services[q], local) :: lp
  {
    if order != [] {
      var init, last := order[..|order| - 1], order[|order| - 1];
      assert order == init + [last];
      SteadyIsHeld(services, init, near, local);
      assert services[last].clusterIP in IPsOf(services, order);
      SteadyPorts(services, near, local, last, near + IPsOf(services, order));
    }
  }

  lemma {:induction false} OrderOf(names: set<ServicePortName>) returns (order: seq<ServicePortName>)
    ensures forall i, j :: 0 <= i < j < |order| ==> order[i] != order[j]
    ensures forall q :: q in order <==> q in names
  {
    if names == {} {
      order := [];
    } else {
      var q :| q in names;
      var rest := OrderOf(names - {q});
      order := rest + [q];
    }
  }

  /** What is held for a service port that is visited first. */
  lemma {:induction false} HeldFirst(services: ServiceMap, q: ServicePortName, rest: seq<ServicePortName>, near: set<IP>)
    requires q in services && forall p :: p in rest ==> p in services
    ensures HeldInOrder(services, [q] + rest, near) <=
            PortsOf(q, services[q], near + {services[q].clusterIP}) +
            set p, lp | p in rest && lp in PortsOf(p, services[p], near + ClusterIPs(services)) :: lp
  {
    var order := [q] + rest;
    if rest == [] {
      assert order == [q];
      assert IPsOf(services, order) == {services[q].clusterIP};
      assert HeldInOrder(services, order[..0], near) == {};
    } else {
      var init, last := rest[..|rest| - 1], rest[|rest| - 1];
      assert rest == init + [last];
      assert order[..|order| - 1] == [q] + init;
      HeldFirst(services, q, init, near);
      PortsOfMonotone(last, services[last], near + IPsOf(services, order), near + ClusterIPs(services));
    }
  }

  /** With distinct virtual servers, no other service port asks for the same external port. */
  lemma OneAsksForExternal(services: ServiceMap, nodeIPs: seq<IP>, q: ServicePortName, ip: IP, p: ServicePortName, near: set<IP>)
    requires DistinctKeys(services, nodeIPs) && q in services && p in services && ip in services[q].externalIPs
    requires ExternalHold(q, services[q], ip) in PortsOf(p, services[p], near)
    ensures p == q
  {
    assert ExternalKey(services[q], ip) in KeysOf(services[q], nodeIPs);
    assert ExternalKey(services[p], ip) in KeysOf(services[p], nodeIPs);
  }

  /** Visited first, a service port does not get a port for an external IP that is not there yet. */
  lemma MissedWhenFirst(services: ServiceMap, near: set<IP>, nodeIPs: seq<IP>, q: ServicePortName, ip: IP)
    returns (order: seq<ServicePortName>)
    requires DistinctKeys(services, nodeIPs) && q in services && ip in services[q].externalIPs
    requires ip !in near + {services[q].clusterIP}
    ensures IsOrder(order, services)
    ensures ExternalHold(q, services[q], ip) !in HeldInOrder(services, order, near)
  {
    var lp := ExternalHold(q, services[q], ip);
    var rest := OrderOf(services.Keys - {q});
    order := [q] + rest;
    HeldFirst(services, q, rest, near);
    forall p, l | p in rest && l in PortsOf(p, services[p], near + ClusterIPs(services))
      ensures l != lp
    {
      if l == lp {
        OneAsksForExternal(services, nodeIPs, q, ip, p, near + ClusterIPs(services));
      }
    }
  }

  /** Visited last, a service port gets all its ports. */
  lemma VisitedLast(services: ServiceMap, near: set<IP>, q: ServicePortName) returns (order: seq<ServicePortName>)
    requires q in services
    ensures IsOrder(order, services)
    ensures PortsOf(q, services[q], near + ClusterIPs(services)) <= HeldInOrder(services, order, near)
  {
    var rest := OrderOf(services.Keys - {q});
    order := rest + [q];
    assert IsOrder(order, services);
    OrderedIPs(order, services);
    HeldOneMore(services, rest, near, q);
  }

  /** An external IP that is not steady is held wrongly in some order. */
  lemma UnsteadyOrder(services: ServiceMap, near: set<IP>, local: set<IP>, nodeIPs: seq<IP>, q: ServicePortName, ip: IP)
    returns (order: seq<ServicePortName>)
    requires DistinctKeys(services, nodeIPs) && q in services && ip in services[q].externalIPs
    requires !((ip in local <==> ip in near + {services[q].clusterIP}) && (ip in local <==> ip in near + ClusterIPs(services)))
    ensures IsOrder(order, services)
    ensures ExternalHold(q, services[q], ip) in HeldInOrder(services, order, near) <==> ip !in local
  {
    if ip in local {
      order := MissedWhenFirst(services, near, nodeIPs, q, ip);
    } else {
      order := VisitedLast(services, near, q);
      assert ExternalHold(q, services[q], ip) in PortsOf(q, services[q], near + ClusterIPs(services));
    }
  }

  lemma OnlyExternalHolds(services: ServiceMap, nodeIPs: seq<IP>, local: set<IP>, q: ServicePortName, ip: IP)
    requires DistinctKeys(services, nodeIPs) && q in services && ip in services[q].externalIPs
    ensures ExternalHold(q, services[q], ip) in PortsIn(services, local) <==> ip in local
  {
    var lp := ExternalHold(q, services[q], ip);
    if lp in PortsIn(services, local) {
      var p :| p in services && lp in PortsOf(p, services[p], local);
    }
    if ip in local {
      assert lp in PortsOf(q, services[q], local);
    }
  }

  /** Every order holds exactly the ports that the addresses `local` call for if and only if the
      external IPs are steady. */
  lemma AlwaysHeldIff(services: ServiceMap, near: set<IP>, local: set<IP>, nodeIPs: seq<IP>)
    requires DistinctKeys(services, nodeIPs)
    ensures AlwaysHeld(services, near, PortsIn(services, local)) <==> Steady(services, near, local)
  {
    if Steady(services, near, local) {
      forall order | IsOrder(order, services)
        ensures HeldInOrder(services, order, near) == PortsIn(services, local)
      {
        SteadyIsHeld(services, order, near, local);
      }
    }
    if AlwaysHeld(services, near, PortsIn(services, local)) {
      forall q, ip | q in services && ip in services[q].externalIPs
        ensures (ip in local <==> ip in near + {services[q].clusterIP})
        ensures (ip in local <==> ip in near + ClusterIPs(services))
      {
        if !((ip in local <==> ip in near + {services[q].clusterIP}) && (ip in local <==> ip in near + ClusterIPs(services))) {
          var order := UnsteadyOrder(services, near, local, nodeIPs, q, ip);
          OnlyExternalHolds(services, nodeIPs, local, q, ip);
        }
      }
    }
  }

  /** The order does not matter if and only if no external IP is the cluster IP of another service
      port and not yet on the host. */
  lemma OrderDoesNotMatterIff(services: ServiceMap, near: set<IP>, nodeIPs: seq<IP>)
    requires DistinctKeys(services, nodeIPs)
    ensures (exists ports :: AlwaysHeld(services, near, ports)) <==>
            Steady(services, near, near + ClusterIPs(services))
  {
    var all := near + ClusterIPs(services);
    AlwaysHeldIff(services, near, all, nodeIPs);
    if ports :| AlwaysHeld(services, near, ports) {
      forall lp | lp in PortsIn(services, all)
        ensures lp in ports
      {
        var q :| q in services && lp in PortsOf(q, services[q], all);
        var order := VisitedLast(services, near, q);
      }
      var order := OrderOf(services.Keys);
      assert IsOrder(order, services);
      HeldBelow(services, order, near);
      assert ports == PortsIn(services, all);
    }
  }
}
