/** Whole runs of the reconciler's own code: what a sequence of events, notifications and periodic
    syncs does to a new proxier, as a run in the sense of `SyncRuns`. */
module ProxierRuns {
  import opened ProxyTypes
  import opened ChangeTracking
  import opened ServiceIndex
  import opened EndpointIndex
  import opened Host
  import opened WantedState
  import opened SyncRuns
  import opened IpvsProxier

  /** What can happen to a proxier: events from the caches, the two cache notifications, and the
      periodic sync. */
  datatype Action =
    | ServiceEvent(service: NamespacedName, newService: Option<Service>)
    | EndpointsEvent(endpoints: NamespacedName, newEndpoints: Option<Endpoints>)
    | ServicesFilled
    | EndpointsFilled
    | Periodic

  predicate IsEvent(action: Action) {
    action.ServiceEvent? || action.EndpointsEvent?
  }

  predicate WellFormed(action: Action) {
    && (action.ServiceEvent? && action.newService.Some? ==> action.newService.value.name == action.service)
    && (action.EndpointsEvent? && action.newEndpoints.Some? ==> action.newEndpoints.value.name == action.endpoints)
  }

  function ServicesWith(services: Services, action: Action): Services {
    if !action.ServiceEvent? then services
    else if action.newService.Some? then services[action.service := action.newService.value]
    else services - {action.service}
  }

  function EndpointsWith(endpoints: LiveEndpoints, action: Action): LiveEndpoints {
    if !action.EndpointsEvent? then endpoints
    else if action.newEndpoints.Some? then endpoints[action.endpoints := action.newEndpoints.value]
    else endpoints - {action.endpoints}
  }

  /** The services that a sequence of events leaves. */
  function ServicesAfter(actions: seq<Action>): Services {
    if actions == [] then map[] else ServicesWith(ServicesAfter(actions[..|actions| - 1]), actions[|actions| - 1])
  }

  function EndpointsAfter(actions: seq<Action>): LiveEndpoints {
    if actions == [] then map[] else EndpointsWith(EndpointsAfter(actions[..|actions| - 1]), actions[|actions| - 1])
  }

  // ---------------------------------------------------------------- when the code syncs

  /** Both caches have been filled. */
  predicate Filled(actions: seq<Action>) {
    ServicesFilled in actions && EndpointsFilled in actions
  }

  /** The endpoints were filled before a notification that the services were. */
  ghost predicate Initialised(actions: seq<Action>) {
    exists j :: 0 <= j < |actions| && actions[j] == ServicesFilled && EndpointsFilled in actions[..j]
  }

  /** Action `i` syncs, when `recorded` is the view after recording it. */
  ghost predicate Syncs(actions: seq<Action>, i: nat, recorded: View)
    requires i < |actions|
  {
    match actions[i]
    case ServiceEvent(_, _) => recorded.serviceItems != map[] && Initialised(actions[..i])
    case EndpointsEvent(_, _) => recorded.endpointItems != map[] && Initialised(actions[..i])
    case _ => Filled(actions[..i + 1])
  }

  lemma {:induction false} LaterInitialised(actions: seq<Action>, action: Action)
    ensures Initialised(actions + [action]) <==>
            Initialised(actions) || (action == ServicesFilled && EndpointsFilled in actions)
  {
    var more := actions + [action];
    if Initialised(more) {
      var j :| 0 <= j < |more| && more[j] == ServicesFilled && EndpointsFilled in more[..j];
      if j < |actions| {
        assert more[..j] == actions[..j];
      } else {
        assert more[..j] == actions;
      }
    }
    if Initialised(actions) {
      var j :| 0 <= j < |actions| && actions[j] == ServicesFilled && EndpointsFilled in actions[..j];
      assert more[..j] == actions[..j] && more[j] == ServicesFilled;
    }
    if action == ServicesFilled && EndpointsFilled in actions {
      assert more[|actions|] == ServicesFilled && more[..|actions|] == actions;
    }
  }

  /** The flags of a proxier say what has happened. */
  ghost predicate Flagged(p: Proxier, actions: seq<Action>)
    reads p
  {
    && (p.servicesSynced <==> ServicesFilled in actions)
    && (p.endpointsSynced <==> EndpointsFilled in actions)
    && (p.initialized <==> Initialised(actions))
  }

  // ---------------------------------------------------------------- traces

  /** The maps are those of the objects that the actions leave. */
  ghost predicate MapsAfter(w: View, actions: seq<Action>, hostname: string) {
    && NamedServices(ServicesAfter(actions)) && NamedEndpoints(EndpointsAfter(actions))
    && w.services == ServiceIndexOf(ServicesAfter(actions))
    && w.endpoints == EndpointIndexOf(EndpointsAfter(actions), hostname)
  }

  /** What action `i` does: an event changes the pending items only, then there is one sync or
      nothing. */
  ghost predicate TraceAt(h: Setting, hostname: string, run: seq<View>, actions: seq<Action>, i: nat)
    requires i < |actions| && |run| == 2 * |actions| + 1
  {
    var v, r, w := run[2 * i], run[2 * i + 1], run[2 * i + 2];
    && (if IsEvent(actions[i]) then Recorded(v, r) else r == v)
    && if Syncs(actions, i, r) then Sync(h, r, w) && Quiet(w) && MapsAfter(w, actions[..i + 1], hostname) else w == r
  }

  ghost predicate Traces(h: Setting, hostname: string, run: seq<View>, actions: seq<Action>) {
    |run| == 2 * |actions| + 1 && forall i: nat :: i < |actions| ==> TraceAt(h, hostname, run, actions, i)
  }

  lemma {:induction false} LongerTrace(h: Setting, hostname: string, run: seq<View>, actions: seq<Action>,
                                       action: Action, r: View, w: View)
    requires Traces(h, hostname, run, actions)
    requires var v := run[|run| - 1]; if IsEvent(action) then Recorded(v, r) else r == v
    requires if Syncs(actions + [action], |actions|, r)
             then Sync(h, r, w) && Quiet(w) && MapsAfter(w, actions + [action], hostname) else w == r
    ensures Traces(h, hostname, run + [r] + [w], actions + [action])
  {
    var more, all := run + [r] + [w], actions + [action];
    forall i: nat | i < |all|
      ensures TraceAt(h, hostname, more, all, i)
    {
      if i < |actions| {
        assert TraceAt(h, hostname, run, actions, i);
        assert all[..i] == actions[..i] && all[..i + 1] == actions[..i + 1];
      } else {
        assert all[..i + 1] == all;
      }
    }
  }

  // ---------------------------------------------------------------- the code

  method ActOnEvent(p: Proxier, action: Action, services: Services, endpoints: LiveEndpoints)
    returns (ghost recorded: View)
    requires p.Valid() && WellFormed(action) && IsEvent(action)
    requires services == p.serviceChanges.live && endpoints == p.endpointsChanges.live
    modifies p`portsMap, p`kernelIpvsMap, p`kernelClusterMap
    modifies p.kernel, p.opener, p.serviceMap, p.endpointsMap, p.serviceChanges, p.endpointsChanges
    ensures p.Valid()
    ensures p.serviceChanges.live == ServicesWith(services, action)
    ensures p.endpointsChanges.live == EndpointsWith(endpoints, action)
    ensures Recorded(old(p.CurrentView()), recorded)
    ensures p.SyncedSince(recorded, (if action.ServiceEvent? then recorded.serviceItems != map[] else recorded.endpointItems != map[])
                                    && p.initialized && p.endpointsSynced && p.servicesSynced)
  {
    match action {
      case ServiceEvent(name, current) =>
        recorded := p.OnServiceEvent(name, Lookup(services, name), current);
      case EndpointsEvent(name, current) =>
        recorded := p.OnEndpointsEvent(name, Lookup(endpoints, name), current);
    }
  }

  method ActOnNotice(p: Proxier, action: Action)
    requires p.Valid() && !IsEvent(action)
    modifies p, p.kernel, p.opener, p.serviceMap, p.endpointsMap, p.serviceChanges, p.endpointsChanges
    ensures p.Valid()
    ensures p.serviceChanges.live == old(p.serviceChanges.live) && p.endpointsChanges.live == old(p.endpointsChanges.live)
    ensures p.servicesSynced == (old(p.servicesSynced) || action.ServicesFilled?)
    ensures p.endpointsSynced == (old(p.endpointsSynced) || action.EndpointsFilled?)
    ensures p.initialized == if action.ServicesFilled? then old(p.endpointsSynced) else old(p.initialized)
    ensures p.SyncedSince(old(p.CurrentView()), p.servicesSynced && p.endpointsSynced)
  {
    match action {
      case ServicesFilled =>
        p.OnServiceSynced();
      case EndpointsFilled =>
        p.OnEndpointsSynced();
      case Periodic =>
        var _, _ := p.SyncProxyRules();
    }
  }

  lemma {:induction false} FlagsAfter(actions: seq<Action>, action: Action)
    ensures Filled(actions + [action]) <==>
            && (ServicesFilled in actions || action == ServicesFilled)
            && (EndpointsFilled in actions || action == EndpointsFilled)
    ensures Initialised(actions) ==> Filled(actions)
    ensures forall r: View :: Syncs(actions + [action], |actions|, r) <==>
                              if action.ServiceEvent? then r.serviceItems != map[] && Initialised(actions)
                              else if action.EndpointsEvent? then r.endpointItems != map[] && Initialised(actions)
                              else Filled(actions + [action])
  {
    var more := actions + [action];
    assert more[..|actions|] == actions && more[..|actions| + 1] == more;
  }

  /** Takes one action; the caches supply the object as last seen. */
  method Act(p: Proxier, action: Action, services: Services, endpoints: LiveEndpoints, ghost actions: seq<Action>)
    returns (ghost recorded: View)
    requires p.Valid() && WellFormed(action) && Flagged(p, actions)
    requires services == p.serviceChanges.live && endpoints == p.endpointsChanges.live
    modifies p, p.kernel, p.opener, p.serviceMap, p.endpointsMap, p.serviceChanges, p.endpointsChanges
    ensures p.Valid() && Flagged(p, actions + [action])
    ensures p.serviceChanges.live == ServicesWith(services, action)
    ensures p.endpointsChanges.live == EndpointsWith(endpoints, action)
    ensures if IsEvent(action) then Recorded(old(p.CurrentView()), recorded) else recorded == old(p.CurrentView())
    ensures p.SyncedSince(recorded, Syncs(actions + [action], |actions|, recorded))
  {
    LaterInitialised(actions, action);
    FlagsAfter(actions, action);
    if IsEvent(action) {
      recorded := ActOnEvent(p, action, services, endpoints);
    } else {
      recorded := p.CurrentView();
      ActOnNotice(p, action);
    }
  }

  /** Every sequence of actions on a new proxier, whatever fails on the way and in whatever order
      maps are visited, has a trace from the initial view, two steps for each action; a run of
      `SyncRuns` that ends safe if a quiet sync is in it and no list or delete call failed since. */
  method Drive(kernel: Kernel, hostname: string, nodeIPs: seq<IP>, actions: seq<Action>)
    returns (p: Proxier, ghost run: seq<View>)
    requires forall i :: 0 <= i < |actions| ==> WellFormed(actions[i])
    modifies kernel
    ensures p.Valid() && p.kernel == kernel && p.nodeIPs == nodeIPs && Flagged(p, actions)
    ensures p.serviceChanges.live == ServicesAfter(actions) && p.endpointsChanges.live == EndpointsAfter(actions)
    ensures Traces(Setting(nodeIPs, kernel.interfaceIPs), hostname, run, actions)
    ensures run[0] == old(NewView(kernel)) && run[2 * |actions|] == p.CurrentView()
    ensures forall i: nat :: SettledSince(Setting(nodeIPs, kernel.interfaceIPs), run, actions, i) ==>
                               Safe(Setting(nodeIPs, kernel.interfaceIPs), p.CurrentView())
  {
    p := new Proxier(kernel, hostname, nodeIPs);
    var services: Services, endpoints: LiveEndpoints := map[], map[];
    run := [p.CurrentView()];
    for i := 0 to |actions|
      invariant fresh(p) && fresh(p.opener) && fresh(p.serviceMap) && fresh(p.endpointsMap)
      invariant fresh(p.serviceChanges) && fresh(p.endpointsChanges)
      invariant p.kernel == kernel && p.nodeIPs == nodeIPs
      invariant Driven(p, hostname, run, actions[..i], services, endpoints)
      invariant run[0] == old(NewView(kernel))
    {
      assert actions[..i + 1] == actions[..i] + [actions[i]];
      services, endpoints, run := DriveOne(p, hostname, run, actions[..i], actions[i], services, endpoints);
    }
    assert actions[..|actions|] == actions;
    forall i: nat | SettledSince(p.Facts(), run, actions, i)
      ensures Safe(p.Facts(), p.CurrentView())
    {
      CodeStaysSafe(p.Facts(), hostname, run, actions, i);
    }
  }

  /** What holds after a sequence of actions; the caches are `services` and `endpoints`. */
  ghost predicate Driven(p: Proxier, hostname: string, run: seq<View>, actions: seq<Action>, services: Services,
                         endpoints: LiveEndpoints)
    reads p, p.kernel, p.opener, p.serviceMap, p.endpointsMap, p.serviceChanges, p.endpointsChanges
  {
    && p.Valid() && Flagged(p, actions) && p.endpointsChanges.hostname == hostname
    && services == p.serviceChanges.live == ServicesAfter(actions)
    && endpoints == p.endpointsChanges.live == EndpointsAfter(actions)
    && Traces(p.Facts(), hostname, run, actions) && run[2 * |actions|] == p.CurrentView()
  }

  lemma {:induction false} AfterOneMore(actions: seq<Action>, action: Action)
    ensures ServicesAfter(actions + [action]) == ServicesWith(ServicesAfter(actions), action)
    ensures EndpointsAfter(actions + [action]) == EndpointsWith(EndpointsAfter(actions), action)
  {
    assert (actions + [action])[..|actions|] == actions;
  }

  method DriveOne(p: Proxier, hostname: string, ghost run: seq<View>, ghost actions: seq<Action>, action: Action,
                  services: Services, endpoints: LiveEndpoints)
    returns (services': Services, endpoints': LiveEndpoints, ghost run': seq<View>)
    requires Driven(p, hostname, run, actions, services, endpoints) && WellFormed(action)
    modifies p, p.kernel, p.opener, p.serviceMap, p.endpointsMap, p.serviceChanges, p.endpointsChanges
    ensures Driven(p, hostname, run', actions + [action], services', endpoints') && run'[0] == run[0]
  {
    AfterOneMore(actions, action);
    ghost var recorded := Act(p, action, services, endpoints, actions);
    services', endpoints' := ServicesWith(services, action), EndpointsWith(endpoints, action);
    LongerTrace(p.Facts(), hostname, run, actions, action, recorded, p.CurrentView());
    run' := run + [recorded] + [p.CurrentView()];
  }

  // ---------------------------------------------------------------- safety of the code

  lemma {:induction false} TraceIsRun(h: Setting, hostname: string, run: seq<View>, actions: seq<Action>)
    requires Traces(h, hostname, run, actions)
    ensures IsRun(h, run)
  {
    forall k | 0 <= k < |run| - 1
      ensures StepAt(h, run, k)
    {
      assert TraceAt(h, hostname, run, actions, k / 2);
    }
  }

  /** Action `i` is a sync for sure and the next one is periodic, so it finds nothing pending. */
  ghost predicate Settles(actions: seq<Action>, i: nat) {
    i + 1 < |actions| && !IsEvent(actions[i]) && Filled(actions[..i + 1]) && actions[i + 1] == Periodic
  }

  /** A notification or periodic sync after both caches are filled. */
  lemma {:induction false} SyncedAt(h: Setting, hostname: string, run: seq<View>, actions: seq<Action>, i: nat)
    requires Traces(h, hostname, run, actions) && i < |actions| && !IsEvent(actions[i]) && Filled(actions[..i + 1])
    ensures run[2 * i + 1] == run[2 * i] && Sync(h, run[2 * i + 1], run[2 * i + 2]) && Quiet(run[2 * i + 2])
  {
    assert TraceAt(h, hostname, run, actions, i);
  }

  /** After it the maps are those of the objects that the events so far have left. */
  lemma {:induction false} MapsAt(h: Setting, hostname: string, run: seq<View>, actions: seq<Action>, i: nat)
    requires Traces(h, hostname, run, actions) && i < |actions| && !IsEvent(actions[i]) && Filled(actions[..i + 1])
    ensures MapsAfter(run[2 * i + 2], actions[..i + 1], hostname)
  {
    assert TraceAt(h, hostname, run, actions, i);
  }

  lemma {:induction false} FilledStays(actions: seq<Action>, i: nat)
    requires i < |actions| && Filled(actions[..i])
    ensures Filled(actions[..i + 1])
  {
    assert actions[..i + 1] == actions[..i] + [actions[i]];
  }

  lemma {:induction false} SettlingIsQuiet(h: Setting, hostname: string, run: seq<View>, actions: seq<Action>, i: nat)
    requires Traces(h, hostname, run, actions) && Settles(actions, i)
    ensures QuietSync(h, run[2 * i + 3], run[2 * i + 4])
  {
    SyncedAt(h, hostname, run, actions, i);
    FilledStays(actions, i + 1);
    SyncedAt(h, hostname, run, actions, i + 1);
  }

  /** A quiet sync comes right after action `i`; since then no list or delete call has failed and
      no two service ports have shared a virtual server. */
  ghost predicate SettledSince(h: Setting, run: seq<View>, actions: seq<Action>, i: nat) {
    && |run| == 2 * |actions| + 1 && Settles(actions, i)
    && NoHardFault(run[2 * i + 3], run[|run| - 1])
    && forall k :: 2 * i + 3 < k < |run| ==> Distinct(h, run[k])
  }

  lemma {:induction false} FaultsGrow(h: Setting, run: seq<View>, i: nat, j: nat)
    requires IsRun(h, run) && i <= j < |run|
    ensures run[i].hardFaults <= run[j].hardFaults && run[i].softFaults <= run[j].softFaults
    ensures run[i].refusals <= run[j].refusals
    decreases j - i
  {
    if i < j {
      FaultsGrow(h, run, i, j - 1);
      assert StepAt(h, run, j - 1);
    }
  }

  /** The code's own runs end safe. */
  lemma {:induction false} CodeStaysSafe(h: Setting, hostname: string, run: seq<View>, actions: seq<Action>, i: nat)
    requires Traces(h, hostname, run, actions) && SettledSince(h, run, actions, i)
    ensures Safe(h, run[|run| - 1])
  {
    var q, last := 2 * i + 3, |run| - 1;
    TraceIsRun(h, hostname, run, actions);
    SettlingIsQuiet(h, hostname, run, actions, i);
    forall k | q <= k < last
      ensures NoHardFaultAt(run, k)
    {
      FaultsGrow(h, run, q, k);
      FaultsGrow(h, run, k, k + 1);
      FaultsGrow(h, run, k + 1, last);
    }
    SafeEverAfter(h, run, q, last);
  }

  lemma {:induction false} NoFaultBetween(h: Setting, run: seq<View>, q: nat, k: nat, last: nat)
    requires IsRun(h, run) && q <= k < last < |run| && NoFault(run[q], run[last])
    ensures NoFaultAt(run, k)
  {
    FaultsGrow(h, run, q, k);
    FaultsGrow(h, run, k, k + 1);
    FaultsGrow(h, run, k + 1, last);
  }

  /** Without failures since a quiet sync, every cluster IP of the code's map is bound, and the
      virtual servers are exactly the wanted ones as long as none passes between services. */
  lemma {:induction false} CodeStaysExactOnKeys(h: Setting, hostname: string, run: seq<View>, actions: seq<Action>, i: nat)
    requires Traces(h, hostname, run, actions) && Settles(actions, i)
    requires NoFault(run[2 * i + 3], run[|run| - 1])
    ensures var w := run[|run| - 1]; ClusterIPs(w.services) <= w.bound
    ensures (forall k :: 2 * i + 3 <= k < |run| ==> Orderly(h, run[k])) ==> ExactKeys(h, run[|run| - 1])
  {
    var q, last := 2 * i + 3, |run| - 1;
    TraceIsRun(h, hostname, run, actions);
    SettlingIsQuiet(h, hostname, run, actions, i);
    forall k | q <= k < last
      ensures NoFaultAt(run, k)
    {
      NoFaultBetween(h, run, q, k, last);
    }
    BoundEverAfter(h, run, q, last);
    if forall k :: q <= k < |run| ==> Orderly(h, run[k]) {
      ExactKeysEverAfter(h, run, q, last);
    }
  }

  /** Two syncs in a row, the second periodic and without failures, make the rules exactly those of
      the live objects, whatever state the kernel was in. */
  lemma {:induction false} CodeStabilises(h: Setting, hostname: string, run: seq<View>, actions: seq<Action>, i: nat)
    requires Traces(h, hostname, run, actions) && Settles(actions, i)
    requires NoFault(run[2 * i + 3], run[2 * i + 4]) && Distinct(h, run[2 * i + 4])
    ensures ExactRules(h, run[2 * i + 4]) && MapsAfter(run[2 * i + 4], actions[..i + 2], hostname)
  {
    SettlingIsQuiet(h, hostname, run, actions, i);
    QuietSyncStabilises(h, run[2 * i + 3], run[2 * i + 4]);
    SettledMaps(h, hostname, run, actions, i);
  }

  lemma {:induction false} SettledMaps(h: Setting, hostname: string, run: seq<View>, actions: seq<Action>, i: nat)
    requires Traces(h, hostname, run, actions) && Settles(actions, i)
    ensures MapsAfter(run[2 * i + 4], actions[..i + 2], hostname)
  {
    FilledStays(actions, i + 1);
    MapsAt(h, hostname, run, actions, i + 1);
    assert 2 * (i + 1) + 2 == 2 * i + 4;
  }

  // ---------------------------------------------------------------- from the objects to the kernel

  /** Virtual server `k` is called for by port `n` of the live service `name`: the service has an
      address of its own, the port is the last of its name, and `k` is a cluster or external IP on the
      port or a node IP on the node port. */
  ghost predicate CallsFor(live: Services, nodeIPs: seq<IP>, name: NamespacedName, n: nat, k: ServerKey) {
    && name in live
    && var s := live[name];
       && s.clusterIP != "" && s.clusterIP != "None" && s.serviceType != "ExternalName"
       && n < |s.ports| && (forall j :: n < j < |s.ports| ==> s.ports[j].name != s.ports[n].name)
       && k.protocol == s.ports[n].protocol
       && (|| (k.port == s.ports[n].port && (k.ip == s.clusterIP || k.ip in s.externalIPs))
           || (s.ports[n].nodePort != 0 && k.port == s.ports[n].nodePort && k.ip in nodeIPs))
  }

  /** Destination `d` is a usable address of the endpoints object `name` behind a port of that name. */
  ghost predicate Backs(live: LiveEndpoints, name: NamespacedName, port: string, p: Place, d: Destination) {
    && name in live && Usable(live[name].subsets, port, p)
    && d.ip == live[name].subsets[p.subset].addresses[p.address].ip
    && d.port == live[name].subsets[p.subset].ports[p.port].port
  }

  /** The service port of `q` calls for `k`. */
  ghost predicate PortCallsFor(live: Services, nodeIPs: seq<IP>, q: ServicePortName, n: nat, k: ServerKey) {
    CallsFor(live, nodeIPs, q.owner, n, k) && live[q.owner].ports[n].name == q.port
  }

  lemma {:induction false} ServedIsCalledFor(live: Services, nodeIPs: seq<IP>, q: ServicePortName, k: ServerKey)
    returns (n: nat)
    requires NamedServices(live) && Serves(ServiceIndexOf(live), nodeIPs, q, k)
    ensures PortCallsFor(live, nodeIPs, q, n, k)
  {
    var info := ServiceIndexOf(live)[q];
    ServiceEntryIff(live, q, info);
    n :| PortEntry(live, q, n, info);
  }

  lemma {:induction false} CalledForIsServed(live: Services, nodeIPs: seq<IP>, q: ServicePortName, n: nat, k: ServerKey)
    requires NamedServices(live) && PortCallsFor(live, nodeIPs, q, n, k)
    ensures Serves(ServiceIndexOf(live), nodeIPs, q, k)
  {
    var s := live[q.owner];
    var info := ServiceInfo(s.clusterIP, s.ports[n].port, s.ports[n].protocol, s.ports[n].nodePort,
                            s.sessionAffinity == "ClientIP", s.externalIPs);
    assert PortEntry(live, q, n, info);
    ServiceEntryIff(live, q, info);
  }

  lemma {:induction false} ServesIffCalledFor(live: Services, nodeIPs: seq<IP>, q: ServicePortName, k: ServerKey)
    requires NamedServices(live)
    ensures Serves(ServiceIndexOf(live), nodeIPs, q, k) <==> exists n: nat :: PortCallsFor(live, nodeIPs, q, n, k)
  {
    if Serves(ServiceIndexOf(live), nodeIPs, q, k) {
      var n := ServedIsCalledFor(live, nodeIPs, q, k);
    }
    if n: nat :| PortCallsFor(live, nodeIPs, q, n, k) {
      CalledForIsServed(live, nodeIPs, q, n, k);
    }
  }

  lemma {:induction false} ListedIffBacked(live: LiveEndpoints, hostname: string, q: ServicePortName, d: Destination)
    requires NamedEndpoints(live)
    ensures var endpoints := EndpointIndexOf(live, hostname);
            (q in endpoints && exists ep: EndpointsInfo :: ep in endpoints[q] && d.ip == ep.ip && d.port == ep.port) <==>
            exists p :: Backs(live, q.owner, q.port, p, d)
  {
    var endpoints := EndpointIndexOf(live, hostname);
    if q in endpoints {
      if ep: EndpointsInfo :| ep in endpoints[q] && d.ip == ep.ip && d.port == ep.port {
        EndpointMemberIff(live, hostname, q, ep);
        var p :| Usable(live[q.owner].subsets, q.port, p) && IsAt(live[q.owner].subsets, p, hostname, ep);
        assert Backs(live, q.owner, q.port, p, d);
      }
    }
    if p :| Backs(live, q.owner, q.port, p, d) {
      var node := live[q.owner].subsets[p.subset].addresses[p.address].nodeName;
      var ep := EndpointsInfo(d.ip, d.port, node == Some(hostname));
      assert IsAt(live[q.owner].subsets, p, hostname, ep);
      EndpointMemberIff(live, hostname, q, ep);
    }
  }

  /** Some port of a live service calls for `k`. */
  ghost predicate Called(services: Services, nodeIPs: seq<IP>, k: ServerKey) {
    exists name, n: nat :: CallsFor(services, nodeIPs, name, n, k)
  }

  /** One calls for `k`, and the endpoints object of its service has `d` behind its name. */
  ghost predicate CalledAndBacked(services: Services, endpoints: LiveEndpoints, nodeIPs: seq<IP>, k: ServerKey,
                                  d: Destination)
  {
    exists name, n: nat, p ::
      CallsFor(services, nodeIPs, name, n, k) && Backs(endpoints, name, services[name].ports[n].name, p, d)
  }

  lemma {:induction false} WantedIsCalled(services: Services, endpoints: EndpointMap, nodeIPs: seq<IP>, k: ServerKey)
    requires NamedServices(services) && DistinctKeys(ServiceIndexOf(services), nodeIPs)
    ensures k in Wanted(ServiceIndexOf(services), endpoints, nodeIPs) <==> Called(services, nodeIPs, k)
  {
    var s := ServiceIndexOf(services);
    WantedIff(s, endpoints, nodeIPs, k, Destination("", 0));
    if q :| Serves(s, nodeIPs, q, k) {
      ServesIffCalledFor(services, nodeIPs, q, k);
    }
    if name, n: nat :| CallsFor(services, nodeIPs, name, n, k) {
      CalledForIsServed(services, nodeIPs, ServicePortName(name, services[name].ports[n].name), n, k);
    }
  }

  lemma {:induction false} ServedIsBacked(services: Services, endpoints: LiveEndpoints, hostname: string,
                                          nodeIPs: seq<IP>, q: ServicePortName, k: ServerKey, d: Destination)
    requires NamedServices(services) && NamedEndpoints(endpoints)
    requires ServesWith(ServiceIndexOf(services), EndpointIndexOf(endpoints, hostname), nodeIPs, q, k, d)
    ensures CalledAndBacked(services, endpoints, nodeIPs, k, d)
  {
    ServesIffCalledFor(services, nodeIPs, q, k);
    ListedIffBacked(endpoints, hostname, q, d);
    var n: nat :| PortCallsFor(services, nodeIPs, q, n, k);
    var p :| Backs(endpoints, q.owner, q.port, p, d);
  }

  lemma {:induction false} BackedIsServed(services: Services, endpoints: LiveEndpoints, hostname: string,
                                          nodeIPs: seq<IP>, k: ServerKey, d: Destination) returns (q: ServicePortName)
    requires NamedServices(services) && NamedEndpoints(endpoints)
    requires CalledAndBacked(services, endpoints, nodeIPs, k, d)
    ensures ServesWith(ServiceIndexOf(services), EndpointIndexOf(endpoints, hostname), nodeIPs, q, k, d)
  {
    var name, n: nat, p :| CallsFor(services, nodeIPs, name, n, k) && Backs(endpoints, name, services[name].ports[n].name, p, d);
    q := ServicePortName(name, services[name].ports[n].name);
    CalledForIsServed(services, nodeIPs, q, n, k);
    ListedIffBacked(endpoints, hostname, q, d);
  }

  lemma {:induction false} WantedIsBacked(services: Services, endpoints: LiveEndpoints, hostname: string,
                                          nodeIPs: seq<IP>, k: ServerKey, d: Destination)
    requires NamedServices(services) && NamedEndpoints(endpoints) && DistinctKeys(ServiceIndexOf(services), nodeIPs)
    ensures var want := Wanted(ServiceIndexOf(services), EndpointIndexOf(endpoints, hostname), nodeIPs);
            k in want && d in want[k] <==> CalledAndBacked(services, endpoints, nodeIPs, k, d)
  {
    var s, e := ServiceIndexOf(services), EndpointIndexOf(endpoints, hostname);
    WantedIff(s, e, nodeIPs, k, d);
    if q :| ServesWith(s, e, nodeIPs, q, k, d) {
      ServedIsBacked(services, endpoints, hostname, nodeIPs, q, k, d);
    }
    if CalledAndBacked(services, endpoints, nodeIPs, k, d) {
      var q := BackedIsServed(services, endpoints, hostname, nodeIPs, k, d);
    }
  }

  /** There is a virtual server exactly where a port of a live service calls for one, and behind it
      exactly the usable addresses of the endpoints object of the same name. */
  ghost predicate Installed(servers: ServerTable, services: Services, endpoints: LiveEndpoints, nodeIPs: seq<IP>) {
    && (forall k :: k in servers <==> Called(services, nodeIPs, k))
    && (forall k, d :: k in servers && d in servers[k] <==> CalledAndBacked(services, endpoints, nodeIPs, k, d))
  }

  lemma {:induction false} WantedIsInstalled(services: Services, endpoints: LiveEndpoints, hostname: string, nodeIPs: seq<IP>)
    requires NamedServices(services) && NamedEndpoints(endpoints) && DistinctKeys(ServiceIndexOf(services), nodeIPs)
    ensures Installed(Wanted(ServiceIndexOf(services), EndpointIndexOf(endpoints, hostname), nodeIPs),
                      services, endpoints, nodeIPs)
  {
    var want := Wanted(ServiceIndexOf(services), EndpointIndexOf(endpoints, hostname), nodeIPs);
    forall k
      ensures k in want <==> Called(services, nodeIPs, k)
    {
      WantedIsCalled(services, EndpointIndexOf(endpoints, hostname), nodeIPs, k);
    }
    forall k, d
      ensures k in want && d in want[k] <==> CalledAndBacked(services, endpoints, nodeIPs, k, d)
    {
      WantedIsBacked(services, endpoints, hostname, nodeIPs, k, d);
    }
  }

  /** From the events to the kernel, without naming any map in between: two syncs in a row, the second
      periodic and without failures, install exactly what the live objects call for. */
  lemma {:induction false} CodeInstallsObjects(h: Setting, hostname: string, run: seq<View>, actions: seq<Action>, i: nat)
    requires Traces(h, hostname, run, actions) && Settles(actions, i)
    requires NoFault(run[2 * i + 3], run[2 * i + 4]) && Distinct(h, run[2 * i + 4])
    ensures Installed(run[2 * i + 4].servers, ServicesAfter(actions[..i + 2]), EndpointsAfter(actions[..i + 2]), h.nodeIPs)
  {
    var w, so := run[2 * i + 4], actions[..i + 2];
    CodeStabilises(h, hostname, run, actions, i);
    assert MapsAfter(w, so, hostname);
    WantedIsInstalled(ServicesAfter(so), EndpointsAfter(so), hostname, h.nodeIPs);
  }

  /** What a service is after some actions: the last object that an event gave it. */
  lemma {:induction false} ServiceIsLastGiven(actions: seq<Action>, name: NamespacedName, k: nat)
    requires k < |actions| && actions[k].ServiceEvent? && actions[k].service == name
    requires forall j :: k < j < |actions| ==> !(actions[j].ServiceEvent? && actions[j].service == name)
    ensures Lookup(ServicesAfter(actions), name) == actions[k].newService
    decreases |actions|
  {
    var init := actions[..|actions| - 1];
    if k < |init| {
      ServiceIsLastGiven(init, name, k);
    }
  }

  lemma {:induction false} EndpointsAreLastGiven(actions: seq<Action>, name: NamespacedName, k: nat)
    requires k < |actions| && actions[k].EndpointsEvent? && actions[k].endpoints == name
    requires forall j :: k < j < |actions| ==> !(actions[j].EndpointsEvent? && actions[j].endpoints == name)
    ensures Lookup(EndpointsAfter(actions), name) == actions[k].newEndpoints
    decreases |actions|
  {
    var init := actions[..|actions| - 1];
    if k < |init| {
      EndpointsAreLastGiven(init, name, k);
    }
  }

  // ---------------------------------------------------------------- events that wait

  /** An event that leaves something pending is followed by a sync at once if and only if the
      endpoints were filled before a notification that the services were. */
  lemma {:induction false} PendingEventSyncsIff(h: Setting, hostname: string, run: seq<View>, actions: seq<Action>, i: nat)
    requires Traces(h, hostname, run, actions) && i < |actions| && actions[i].ServiceEvent?
    requires run[2 * i + 1].serviceItems != map[]
    ensures run[2 * i + 2].serviceItems == map[] <==> Initialised(actions[..i])
    ensures !Initialised(actions[..i]) ==> run[2 * i + 2] == run[2 * i + 1]
  {
    assert TraceAt(h, hostname, run, actions, i);
  }

  lemma {:induction false} PendingEndpointsSyncIff(h: Setting, hostname: string, run: seq<View>, actions: seq<Action>, i: nat)
    requires Traces(h, hostname, run, actions) && i < |actions| && actions[i].EndpointsEvent?
    requires run[2 * i + 1].endpointItems != map[]
    ensures run[2 * i + 2].endpointItems == map[] <==> Initialised(actions[..i])
    ensures !Initialised(actions[..i]) ==> run[2 * i + 2] == run[2 * i + 1]
  {
    assert TraceAt(h, hostname, run, actions, i);
  }

  /** When the services are filled first and the endpoints second, both caches are filled and yet
      no event ever triggers a sync, unless the services are announced again. */
  lemma {:induction false} ServicesFirstNeverInitialises(rest: seq<Action>)
    requires ServicesFilled !in rest
    ensures var actions := [ServicesFilled, EndpointsFilled] + rest;
            Filled(actions[..2]) && !Initialised(actions)
  {
    var actions := [ServicesFilled, EndpointsFilled] + rest;
    assert actions[..2] == [ServicesFilled, EndpointsFilled];
    assert actions[0] in actions[..2] && actions[1] in actions[..2];
    assert forall j :: 2 <= j < |actions| ==> actions[j] == rest[j - 2] && rest[j - 2] in rest;
  }
}
