/** What the proxy drives: the kernel's virtual servers, the addresses on the dummy link, and
    the local ports it holds. Calls may fail at any time; ghost counters record the failures,
    so that results can say which failures they tolerate. */
module Host {
  import opened ProxyTypes

  /** The key of a virtual server. */
  datatype ServerKey = ServerKey(ip: IP, port: int, protocol: Protocol)

  type ServerTable = map<ServerKey, set<Destination>>

  class Kernel {
    var servers: ServerTable
    var bound: set<IP>
    /** The addresses of the host's other interfaces. */
    const interfaceIPs: set<IP>
    /** How many add, delete, bind and unbind calls were made. */
    ghost var commands: nat
    /** How many add, bind and interface-list calls failed. */
    ghost var softFaults: nat
    /** How many delete, unbind and list calls failed. */
    ghost var hardFaults: nat

    method ListServices() returns (ok: bool, keys: set<ServerKey>)
      modifies `hardFaults
      ensures ok ==> keys == servers.Keys && hardFaults == old(hardFaults)
      ensures !ok ==> keys == {} && hardFaults > old(hardFaults)
    {
      var fault: bool := *;
      if fault {
        hardFaults := hardFaults + 1;
        return false, {};
      }
      return true, servers.Keys;
    }

    method ListServers(k: ServerKey) returns (ok: bool, destinations: set<Destination>)
      requires k in servers
      modifies `hardFaults
      ensures ok ==> destinations == servers[k] && hardFaults == old(hardFaults)
      ensures !ok ==> destinations == {} && hardFaults > old(hardFaults)
    {
      var fault: bool := *;
      if fault {
        hardFaults := hardFaults + 1;
        return false, {};
      }
      return true, servers[k];
    }

    method ListBound() returns (ok: bool, ips: set<IP>)
      modifies `hardFaults
      ensures ok ==> ips == bound && hardFaults == old(hardFaults)
      ensures !ok ==> ips == {} && hardFaults > old(hardFaults)
    {
      var fault: bool := *;
      if fault {
        hardFaults := hardFaults + 1;
        return false, {};
      }
      return true, bound;
    }

    /** Adding a virtual server that exists leaves it and its destinations alone. */
    method AddService(k: ServerKey) returns (ok: bool)
      modifies `servers, `commands, `softFaults
      ensures commands == old(commands) + 1
      ensures ok ==> servers == (if k in old(servers) then old(servers) else old(servers)[k := {}])
      ensures ok ==> softFaults == old(softFaults)
      ensures !ok ==> k !in servers && servers == old(servers) && softFaults > old(softFaults)
    {
      commands := commands + 1;
      if k in servers {
        return true;
      }
      var fault: bool := *;
      if fault {
        softFaults := softFaults + 1;
        return false;
      }
      servers := servers[k := {}];
      return true;
    }

    /** Deleting a virtual server drops its destinations; deleting an absent one fails. */
    method DeleteService(k: ServerKey) returns (ok: bool)
      modifies `servers, `commands, `hardFaults
      ensures commands == old(commands) + 1
      ensures hardFaults == old(hardFaults) ==> servers == old(servers) - {k}
      ensures hardFaults > old(hardFaults) ==> servers == old(servers)
      ensures hardFaults >= old(hardFaults)
    {
      commands := commands + 1;
      var fault: bool := *;
      if fault {
        hardFaults := hardFaults + 1;
        return false;
      }
      ok := k in servers;
      servers := servers - {k};
    }

    /** Adding a destination needs the virtual server; adding an existing one succeeds. */
    method AddServer(k: ServerKey, d: Destination) returns (ok: bool)
      modifies `servers, `commands, `softFaults
      ensures commands == old(commands) + 1
      ensures ok ==> k in old(servers) && softFaults == old(softFaults)
      ensures servers == if ok then old(servers)[k := old(servers)[k] + {d}] else old(servers)
      ensures !ok && k in old(servers) ==> softFaults > old(softFaults)
      ensures softFaults >= old(softFaults)
    {
      commands := commands + 1;
      if k !in servers {
        return false;
      }
      var fault: bool := *;
      if fault {
        softFaults := softFaults + 1;
        return false;
      }
      servers := servers[k := servers[k] + {d}];
      return true;
    }

    /** Deleting an absent destination fails and changes nothing. */
    method DeleteServer(k: ServerKey, d: Destination) returns (ok: bool)
      modifies `servers, `commands, `hardFaults
      ensures commands == old(commands) + 1
      ensures hardFaults == old(hardFaults) ==>
                servers == if k in old(servers) then old(servers)[k := old(servers)[k] - {d}] else old(servers)
      ensures hardFaults > old(hardFaults) ==> servers == old(servers)
      ensures hardFaults >= old(hardFaults)
    {
      commands := commands + 1;
      var fault: bool := *;
      if fault {
        hardFaults := hardFaults + 1;
        return false;
      }
      if k !in servers || d !in servers[k] {
        assert k in servers ==> servers[k] - {d} == servers[k];
        return false;
      }
      servers := servers[k := servers[k] - {d}];
      return true;
    }

    /** Binding an address that is bound already succeeds. */
    method Bind(ip: IP) returns (ok: bool)
      modifies `bound, `commands, `softFaults
      ensures commands == old(commands) + 1
      ensures ok ==> bound == old(bound) + {ip} && softFaults == old(softFaults)
      ensures !ok ==> bound == old(bound) && softFaults > old(softFaults)
    {
      commands := commands + 1;
      var fault: bool := *;
      if fault {
        softFaults := softFaults + 1;
        return false;
      }
      bound := bound + {ip};
      return true;
    }

    method Unbind(ip: IP) returns (ok: bool)
      requires ip in bound
      modifies `bound, `commands, `hardFaults
      ensures commands == old(commands) + 1
      ensures ok ==> bound == old(bound) - {ip} && hardFaults == old(hardFaults)
      ensures !ok ==> bound == old(bound) && hardFaults > old(hardFaults)
    {
      commands := commands + 1;
      var fault: bool := *;
      if fault {
        hardFaults := hardFaults + 1;
        return false;
      }
      bound := bound - {ip};
      return true;
    }

    /** Whether an address is on some interface, the dummy link included; an address is taken
        not to be local when the interfaces cannot be listed. */
    method IsLocalIP(ip: IP) returns (local: bool)
      modifies `softFaults
      ensures softFaults == old(softFaults) ==> (local <==> ip in interfaceIPs || ip in bound)
      ensures local ==> ip in interfaceIPs || ip in bound
      ensures softFaults >= old(softFaults)
    {
      var fault: bool := *;
      if fault {
        softFaults := softFaults + 1;
        return false;
      }
      return ip in interfaceIPs || ip in bound;
    }
  }

  /** Why a port is held. The description names the service, not the service port. */
  datatype Purpose = ExternalIPFor(service: NamespacedName) | NodePortFor(service: NamespacedName)

  datatype LocalPort = LocalPort(purpose: Purpose, ip: IP, port: int, protocol: Protocol)

  datatype Address = Address(ip: IP, port: int, protocol: Protocol)

  datatype Socket = Socket(id: nat)

  function AddressOf(lp: LocalPort): Address {
    Address(lp.ip, lp.port, lp.protocol)
  }

  predicate Taken(open: map<Socket, LocalPort>, lp: LocalPort) {
    exists s :: s in open && AddressOf(open[s]) == AddressOf(lp)
  }

  /** Opens and closes the sockets that hold local ports; `open` has what each one was opened for. */
  class PortOpener {
    var open: map<Socket, LocalPort>
    var next: nat
    ghost var commands: nat
    ghost var refusals: nat

    ghost predicate Valid()
      reads this
    {
      forall s :: s in open ==> s.id < next
    }

    constructor ()
      ensures Valid() && open == map[] && commands == 0 && refusals == 0
    {
      open, next, commands, refusals := map[], 0, 0, 0;
    }

    /** Refuses an address that is held already, and possibly others. */
    method Open(lp: LocalPort) returns (socket: Option<Socket>)
      requires Valid()
      modifies this
      ensures Valid()
      ensures commands == old(commands) + 1
      ensures socket.None? ==> open == old(open) && refusals > old(refusals)
      ensures socket.Some? ==>
                && refusals == old(refusals)
                && socket.value !in old(open)
                && !Taken(old(open), lp)
                && open == old(open)[socket.value := lp]
    {
      commands := commands + 1;
      var fault: bool := *;
      if fault || Taken(open, lp) {
        refusals := refusals + 1;
        return None;
      }
      var s := Socket(next);
      open := open[s := lp];
      next := next + 1;
      return Some(s);
    }

    /** A socket may be closed once only. */
    method Close(s: Socket)
      requires Valid() && s in open
      modifies this
      ensures Valid()
      ensures commands == old(commands) + 1
      ensures open == old(open) - {s} && refusals == old(refusals)
    {
      commands := commands + 1;
      open := open - {s};
    }
  }
}
