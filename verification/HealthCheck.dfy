/** The health-check server: pkg/proxy/healthcheck/healthcheck.go. */
module HealthCheck {
  import opened ProxyTypes

  type Port = p: int | 0 <= p < 65536

  /** One health check: its port, its listener and the number of local endpoints it reports. */
  datatype Instance = Instance(port: Port, listener: nat, endpoints: int)

  type Instances = map<NamespacedName, Instance>

  /** The host's listening sockets that belong to this server; sockets are numbered as they open. */
  class Listeners {
    var open: map<nat, Port>
    var next: nat
    ghost var refusals: nat // of ports that this server does not hold: an outsider has them, or worse

    ghost predicate Valid()
      reads this
    {
      && (forall id <- open :: id < next)
      && (forall a <- open, b <- open :: open[a] == open[b] ==> a == b)
    }

    constructor ()
      ensures Valid() && open == map[] && next == 0 && refusals == 0
    {
      open, next, refusals := map[], 0, 0;
    }

    method Listen(port: Port) returns (id: Option<nat>)
      requires Valid()
      modifies this
      ensures Valid()
      ensures id.Some? ==>
                && id.value == old(next) && next == old(next) + 1 && refusals == old(refusals)
                && port !in old(open).Values && open == old(open)[id.value := port]
      ensures id.None? ==>
                && open == old(open) && next == old(next) && refusals >= old(refusals)
                && (port in open.Values || refusals > old(refusals))
    {
      if port in open.Values {
        return None;
      }
      var taken: bool := *;
      if taken {
        refusals := refusals + 1;
        return None;
      }
      id := Some(next);
      open, next := open[next := port], next + 1;
    }

    /** Closing releases the port. */
    method Close(id: nat)
      requires Valid() && id in open
      modifies this`open
      ensures Valid() && open == old(open) - {id}
    {
      open := open - {id};
    }
  }

  // ---------------------------------------------------------------- what one sync does

  /** Open listeners and entries correspond one to one, each on its entry's port. */
  ghost predicate OneToOne(services: Instances, open: map<nat, Port>) {
    && (forall n <- services :: services[n].listener in open && open[services[n].listener] == services[n].port)
    && (forall m <- services, n <- services :: services[m].listener == services[n].listener ==> m == n)
    && (forall id <- open :: exists n <- services :: services[n].listener == id)
  }

  predicate Wanted(request: map<NamespacedName, Port>, n: NamespacedName, i: Instance) {
    n in request && request[n] == i.port
  }

  /** The entries that a request leaves alone. */
  function Kept(services: Instances, request: map<NamespacedName, Port>): Instances {
    map n | n in services && Wanted(request, n, services[n]) :: services[n]
  }

  ghost predicate HoldsPort(services: Instances, n: NamespacedName, port: Port) {
    exists m <- services :: m != n && services[m].port == port
  }

  /** What the second loop has made of `kept` when the names in `done` are behind it. */
  ghost predicate Opened(kept: Instances, request: map<NamespacedName, Port>, done: set<NamespacedName>,
                         first: nat, refused: bool, services: Instances)
  {
    && (forall n <- kept :: n in services && services[n] == kept[n])
    && (forall n <- services :: n in request && services[n].port == request[n])
    && (forall n <- services | n !in kept :: services[n].endpoints == 0 && services[n].listener >= first)
    && (forall n <- done | n in request && n !in services :: refused || HoldsPort(services, n, request[n]))
  }

  /** The whole effect of `SyncServices`: entries that keep their port are untouched, all others
      are new with a fresh listener and no endpoints, and a requested entry is missing only when
      its port was refused by an outsider or another entry has it. */
  ghost predicate ServicesSynced(before: Instances, request: map<NamespacedName, Port>, first: nat, refused: bool,
                                 after: Instances)
  {
    Opened(Kept(before, request), request, request.Keys, first, refused, after)
  }

  /** The whole effect of `SyncEndpoints`. */
  function Reported(services: Instances, counts: map<NamespacedName, int>): Instances {
    map n <- services :: services[n].(endpoints := if n in counts then counts[n] else 0)
  }

  function PortsOf(services: Instances): map<NamespacedName, Port> {
    map n <- services :: services[n].port
  }

  predicate DistinctPorts(request: map<NamespacedName, Port>) {
    forall m <- request, n <- request :: request[m] == request[n] ==> m == n
  }

  /** With distinct ports and no outsider in the way the entries are the request, whatever was
      open before: services may swap ports. */
  lemma RequestIsMet(before: Instances, request: map<NamespacedName, Port>, first: nat, after: Instances)
    requires DistinctPorts(request) && ServicesSynced(before, request, first, false, after)
    ensures PortsOf(after) == request
  {
    forall n <- request ensures n in after {
      if n !in after {
        NotHeld(request, after, n);
      }
    }
  }

  lemma NotHeld(request: map<NamespacedName, Port>, services: Instances, n: NamespacedName)
    requires DistinctPorts(request) && n in request
    requires forall m <- services :: m in request && services[m].port == request[m]
    ensures !HoldsPort(services, n, request[n])
  {
  }

  // ---------------------------------------------------------------- the server

  lemma CloseKeepsOneToOne(services: Instances, open: map<nat, Port>, n: NamespacedName)
    requires OneToOne(services, open) && n in services
    ensures OneToOne(services - {n}, open - {services[n].listener})
  {
    var rest := services - {n};
    forall id <- open - {services[n].listener} ensures exists m <- rest :: rest[m].listener == id {
      var m :| m in services && services[m].listener == id;
      assert m in rest;
    }
  }

  lemma OpenKeepsOneToOne(services: Instances, open: map<nat, Port>, n: NamespacedName, i: Instance)
    requires OneToOne(services, open) && n !in services && i.listener !in open
    ensures OneToOne(services[n := i], open[i.listener := i.port])
  {
    var more, open' := services[n := i], open[i.listener := i.port];
    forall id <- open' ensures exists m <- more :: more[m].listener == id {
      if id == i.listener {
        assert more[n].listener == id;
      } else {
        var m :| m in services && services[m].listener == id;
        assert more[m].listener == id;
      }
    }
  }

  lemma ReportKeepsOneToOne(services: Instances, after: Instances, open: map<nat, Port>)
    requires OneToOne(services, open) && after.Keys == services.Keys
    requires forall n <- services :: after[n].port == services[n].port && after[n].listener == services[n].listener
    ensures OneToOne(after, open)
  {
    forall id <- open ensures exists n <- after :: after[n].listener == id {
      var n :| n in services && services[n].listener == id;
      assert after[n].listener == id;
    }
  }

  lemma {:induction false} OpenOne(kept: Instances, request: map<NamespacedName, Port>, done: set<NamespacedName>,
                                   first: nat, refused: bool, services: Instances, n: NamespacedName, i: Instance)
    requires Opened(kept, request, done, first, refused, services) && n in request && n !in services
    requires i.port == request[n] && i.endpoints == 0 && i.listener >= first
    ensures Opened(kept, request, done + {n}, first, refused, services[n := i])
  {
    var more := services[n := i];
    forall d <- done + {n} | d in request && d !in more ensures refused || HoldsPort(more, d, request[d]) {
      if !refused {
        var m :| m in services && m != d && services[m].port == request[d];
        assert more[m].port == request[d];
      }
    }
  }

  lemma {:induction false} RefuseOne(kept: Instances, request: map<NamespacedName, Port>, done: set<NamespacedName>,
                                     first: nat, refused: bool, refused': bool, services: Instances,
                                     open: map<nat, Port>, n: NamespacedName)
    requires Opened(kept, request, done, first, refused, services) && n in request && n !in services
    requires OneToOne(services, open) && (refused ==> refused') && (request[n] in open.Values || refused')
    ensures Opened(kept, request, done + {n}, first, refused', services)
  {
    if !refused' {
      var id :| id in open && open[id] == request[n];
      var m :| m in services && services[m].listener == id;
      assert HoldsPort(services, n, request[n]);
    }
  }

  /** The entries while those in `rest` have not been looked at. */
  function Closing(services: Instances, request: map<NamespacedName, Port>, rest: set<NamespacedName>): Instances {
    map n | n in services && (n in rest || Wanted(request, n, services[n])) :: services[n]
  }

  lemma CloseStep(services: Instances, request: map<NamespacedName, Port>, rest: set<NamespacedName>, n: NamespacedName)
    requires n in rest && n in services
    ensures var now := Closing(services, request, rest);
            && n in now && now[n] == services[n]
            && Closing(services, request, rest - {n}) ==
               if Wanted(request, n, services[n]) then now else now - {n}
  {
  }

  /** The entries when the counts of those in `done` are settled. */
  function Reporting(services: Instances, counts: map<NamespacedName, int>, done: set<NamespacedName>): Instances {
    map n <- services :: if n in done then services[n].(endpoints := if n in counts then counts[n] else 0) else services[n]
  }

  lemma ReportStep(services: Instances, counts: map<NamespacedName, int>, done: set<NamespacedName>, n: NamespacedName)
    ensures var now := Reporting(services, counts, done);
            Reporting(services, counts, done + {n}) ==
            if n in now then now[n := now[n].(endpoints := if n in counts then counts[n] else 0)] else now
  {
  }

  class Server {
    const net: Listeners
    var services: Instances

    ghost predicate Valid()
      reads this, net
    {
      net.Valid() && OneToOne(services, net.open)
    }

    constructor ()
      ensures Valid() && fresh(net) && services == map[] && net.next == 0
    {
      net := new Listeners();
      services := map[];
    }

    method CloseOne(n: NamespacedName)
      requires Valid() && n in services
      modifies this, net`open
      ensures Valid() && services == old(services) - {n}
    {
      CloseKeepsOneToOne(services, net.open, n);
      net.Close(services[n].listener);
      services := services - {n};
    }

    /** Removes the entries that are not needed any more. */
    method CloseUnwanted(request: map<NamespacedName, Port>)
      requires Valid()
      modifies this, net`open
      ensures Valid() && services == Kept(old(services), request)
    {
      var rest := services.Keys;
      while rest != {}
        invariant Valid() && rest <= old(services).Keys
        invariant services == Closing(old(services), request, rest)
        decreases rest
      {
        var n :| n in rest;
        CloseStep(old(services), request, rest, n);
        rest := rest - {n};
        if n !in request || request[n] != services[n].port {
          CloseOne(n);
        }
      }
    }

    method OpenNext(request: map<NamespacedName, Port>, n: NamespacedName, ghost kept: Instances,
                    ghost done: set<NamespacedName>, ghost first: nat, ghost refusals: nat)
      requires Valid() && n in request && first <= net.next && refusals <= net.refusals
      requires Opened(kept, request, done, first, net.refusals > refusals, services)
      modifies this, net
      ensures Valid() && first <= net.next && refusals <= net.refusals
      ensures Opened(kept, request, done + {n}, first, net.refusals > refusals, services)
    {
      if n in services {
        return;
      }
      var port := request[n];
      var id := net.Listen(port);
      if id.None? {
        RefuseOne(kept, request, done, first, old(net.refusals) > refusals, net.refusals > refusals, services, net.open, n);
        return;
      }
      var i := Instance(port, id.value, 0);
      OpenKeepsOneToOne(services, old(net.open), n, i);
      OpenOne(kept, request, done, first, net.refusals > refusals, services, n, i);
      services := services[n := i];
    }

    method SyncServices(request: map<NamespacedName, Port>)
      requires Valid()
      modifies this, net
      ensures Valid() && net.next >= old(net.next) && net.refusals >= old(net.refusals)
      ensures ServicesSynced(old(services), request, old(net.next), net.refusals > old(net.refusals), services)
      ensures DistinctPorts(request) && net.refusals == old(net.refusals) ==> PortsOf(services) == request
    {
      CloseUnwanted(request);
      ghost var kept := services;
      var rest := request.Keys;
      while rest != {}
        invariant Valid() && rest <= request.Keys && net.next >= old(net.next) && net.refusals >= old(net.refusals)
        invariant Opened(kept, request, request.Keys - rest, old(net.next), net.refusals > old(net.refusals), services)
        decreases rest
      {
        var n :| n in rest;
        OpenNext(request, n, kept, request.Keys - rest, old(net.next), old(net.refusals));
        assert request.Keys - (rest - {n}) == request.Keys - rest + {n};
        rest := rest - {n};
      }
      assert request.Keys - rest == request.Keys;
      if DistinctPorts(request) && net.refusals == old(net.refusals) {
        RequestIsMet(old(services), request, old(net.next), services);
      }
    }

    method SyncEndpoints(counts: map<NamespacedName, int>)
      requires Valid()
      modifies this
      ensures Valid() && services == Reported(old(services), counts)
    {
      SaveCounts(counts);
      ZeroMissing(counts, old(services));
      ReportKeepsOneToOne(old(services), services, net.open);
    }

    method SaveCounts(counts: map<NamespacedName, int>)
      modifies this
      ensures services == Reporting(old(services), counts, counts.Keys)
    {
      var rest := counts.Keys;
      while rest != {}
        invariant rest <= counts.Keys
        invariant services == Reporting(old(services), counts, counts.Keys - rest)
        decreases rest
      {
        var n :| n in rest;
        ReportStep(old(services), counts, counts.Keys - rest, n);
        assert counts.Keys - (rest - {n}) == counts.Keys - rest + {n};
        rest := rest - {n};
        if n in services {
          services := services[n := services[n].(endpoints := counts[n])];
        }
      }
      assert counts.Keys - rest == counts.Keys;
    }

    method ZeroMissing(counts: map<NamespacedName, int>, ghost start: Instances)
      requires services == Reporting(start, counts, counts.Keys)
      modifies this
      ensures services == Reported(start, counts)
    {
      var rest := services.Keys;
      ghost var done := counts.Keys;
      while rest != {}
        invariant rest <= start.Keys && counts.Keys <= done && start.Keys <= done + rest
        invariant services == Reporting(start, counts, done)
        decreases rest
      {
        var n :| n in rest;
        rest := rest - {n};
        if n !in counts {
          ReportStep(start, counts, done, n);
          done := done + {n};
          services := services[n := services[n].(endpoints := 0)];
        }
      }
    }
  }

  // ---------------------------------------------------------------- whole runs

  datatype Op = Services(request: map<NamespacedName, Port>) | Endpoints(counts: map<NamespacedName, int>)

  datatype State = State(services: Instances, next: nat, refusals: nat)

  ghost predicate Step(before: State, op: Op, after: State) {
    && before.next <= after.next && before.refusals <= after.refusals
    && (forall n <- after.services :: after.services[n].listener < after.next)
    && match op
       case Services(request) =>
         ServicesSynced(before.services, request, before.next, after.refusals > before.refusals, after.services)
       case Endpoints(counts) => after.services == Reported(before.services, counts)
  }

  /** `states[k]` is the state before operation `k`. */
  ghost predicate IsRun(states: seq<State>, ops: seq<Op>) {
    && |states| == |ops| + 1 && states[0].services == map[]
    && forall k :: 0 <= k < |ops| ==> Step(states[k], ops[k], states[k + 1])
  }

  /** The last operation before `j` for which `services` tells the kind. */
  ghost predicate IsLast(ops: seq<Op>, j: nat, k: nat, services: bool) {
    && k < j <= |ops| && ops[k].Services? == services
    && forall i :: k < i < j ==> ops[i].Services? != services
  }

  /** Every entry has the port that the last `SyncServices` asked for. */
  lemma {:induction false} PortIsLastRequested(states: seq<State>, ops: seq<Op>, j: nat, n: NamespacedName)
    requires IsRun(states, ops) && j <= |ops| && n in states[j].services
    ensures exists k: nat :: IsLast(ops, j, k, true) && n in ops[k].request && states[j].services[n].port == ops[k].request[n]
    decreases j
  {
    if j > 0 {
      assert Step(states[j - 1], ops[j - 1], states[j - 1 + 1]);
      if ops[j - 1].Services? {
        assert IsLast(ops, j, j - 1, true);
      } else {
        PortIsLastRequested(states, ops, j - 1, n);
        var k: nat :| IsLast(ops, j - 1, k, true) && n in ops[k].request && states[j - 1].services[n].port == ops[k].request[n];
        assert IsLast(ops, j, k, true);
      }
    }
  }

  /** The entry of `n` after `j` operations was there, with the same listener, before operation `k`. */
  predicate SameListener(states: seq<State>, k: nat, j: nat, n: NamespacedName)
    requires k < |states| && j < |states| && n in states[j].services
  {
    n in states[k].services && states[k].services[n].listener == states[j].services[n].listener
  }

  /** Listeners are never reused. */
  lemma {:induction false} ListenersAreOld(states: seq<State>, ops: seq<Op>, k: nat, j: nat)
    requires IsRun(states, ops) && k <= j <= |ops|
    ensures states[k].next <= states[j].next
    ensures forall n <- states[k].services :: states[k].services[n].listener < states[k].next
    decreases j - k
  {
    if k > 0 {
      assert Step(states[k - 1], ops[k - 1], states[k - 1 + 1]);
    }
    if k < j {
      ListenersAreOld(states, ops, k, j - 1);
      assert Step(states[j - 1], ops[j - 1], states[j - 1 + 1]);
    }
  }

  /** Each count is the last `SyncEndpoints` value, 0 if it was missing there, when the entry has
      been open since; otherwise the entry was opened later and the count is 0. */
  lemma {:induction false} CountIsLastReported(states: seq<State>, ops: seq<Op>, j: nat, n: NamespacedName)
    requires IsRun(states, ops) && j <= |ops| && n in states[j].services
    ensures forall k: nat | IsLast(ops, j, k, false) ::
              states[j].services[n].endpoints ==
              if SameListener(states, k, j, n) && n in ops[k].counts then ops[k].counts[n] else 0
    ensures (forall k :: 0 <= k < j ==> ops[k].Services?) ==> states[j].services[n].endpoints == 0
    decreases j
  {
    if j > 0 {
      var before, op, after := states[j - 1], ops[j - 1], states[j];
      assert Step(states[j - 1], ops[j - 1], states[j - 1 + 1]);
      if op.Services? {
        if n in Kept(before.services, op.request) {
          CountIsLastReported(states, ops, j - 1, n);
          forall k: nat | IsLast(ops, j, k, false)
            ensures IsLast(ops, j - 1, k, false) && (SameListener(states, k, j, n) <==> SameListener(states, k, j - 1, n))
          {
          }
        } else {
          forall k: nat | IsLast(ops, j, k, false) ensures !SameListener(states, k, j, n) {
            ListenersAreOld(states, ops, k, j - 1);
          }
        }
      } else {
        assert forall k: nat | IsLast(ops, j, k, false) :: k == j - 1;
      }
    }
  }

  lemma {:induction false} ExtendRun(states: seq<State>, ops: seq<Op>, op: Op, after: State)
    requires IsRun(states, ops) && Step(states[|ops|], op, after)
    ensures IsRun(states + [after], ops + [op])
  {
    var more, all := states + [after], ops + [op];
    forall k | 0 <= k < |all| ensures Step(more[k], all[k], more[k + 1]) {
      assert k < |ops| ==> Step(states[k], ops[k], states[k + 1]);
    }
  }

  ghost function StateOf(server: Server): State
    reads server, server.net
  {
    State(server.services, server.net.next, server.net.refusals)
  }

  method Act(server: Server, op: Op)
    requires server.Valid()
    modifies server, server.net
    ensures server.Valid() && Step(old(StateOf(server)), op, StateOf(server))
  {
    match op {
      case Services(request) => server.SyncServices(request);
      case Endpoints(counts) => server.SyncEndpoints(counts);
    }
  }

  /** Any sequence of operations on a new server is a run, and keeps listeners and entries one to
      one. */
  method Drive(ops: seq<Op>) returns (server: Server, ghost states: seq<State>)
    ensures fresh(server) && fresh(server.net) && server.Valid()
    ensures IsRun(states, ops) && states[|ops|] == StateOf(server)
  {
    server := new Server();
    states := [StateOf(server)];
    for k := 0 to |ops|
      invariant fresh(server) && fresh(server.net) && server.Valid()
      invariant IsRun(states, ops[..k]) && states[k] == StateOf(server)
    {
      Act(server, ops[k]);
      ExtendRun(states, ops[..k], ops[k], StateOf(server));
      assert ops[..k + 1] == ops[..k] + [ops[k]];
      states := states + [StateOf(server)];
    }
    assert ops[..|ops|] == ops;
  }
}
