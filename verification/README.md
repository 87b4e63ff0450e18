# A verified model of the IPVS service proxy

This project models the logic of a Kubernetes service proxy that drives the kernel's IPVS virtual
servers, and proves what that logic keeps and reaches. Every theorem is about all inputs, all
orders in which maps are visited, and all points at which calls into the host may fail.

`dafny verify dfyconfig.toml` checks the whole project.

## The parts

- **The change maps and the two indexes** (`ChangeTracking`, `ServiceIndex`, `EndpointIndex`).
  Events are coalesced into pending items; a sync folds the items into `serviceMap` and
  `endpointsMap`. The invariant is that an item holds the object's projection at the last sync and
  its projection now, and that an absent item means no net change. From it the incremental maps
  equal the maps built from scratch, and the stale sets are differences over the whole maps.
- **The reconciler** (`Host`, `WantedState`, `HeldPorts`, `IpvsProxier`, `SyncRuns`, `ProxierRuns`). `Host` is the contract of
  the kernel and of the opener of local ports; every call may fail, and ghost counters record it:
  `softFaults` for add, bind and interface-list calls, `hardFaults` for list, delete and unbind
  calls, `refusals` for ports that could not be opened. `WantedState` says, on values, which table
  two maps call for and what the two kinds of sync do to a table; `HeldPorts` says which local
  ports a sync holds, which depends on the order of visiting. `IpvsProxier` is the code: the class
  `Proxier` with the quiet sync, the incremental sync and the event handlers. `SyncRuns` has the
  theorems about whole runs of syncs, and `ProxierRuns` ties them to the code: `Drive` gives every
  sequence of events, notifications and periodic syncs its trace from the initial view.
- **The wrapper around the kernel interface** (`IpvsConversion`): the conversions with their exact
  round trips, and the proof that the wrapper turns the kernel's own answers into `Host`'s contract.
- **The rate-limited runner** (`FrequencyRunner`): a timed state machine over real time with a
  token bucket, a one-slot channel, a timer and stale ticks.
- **Versions** (`VersionText`, `VersionNumber`, `VersionGrammar`, `VersionOrder`): parsing against a
  grammar, printing, comparing.
- **Scanning of iptables-save output** (`SaveRestore`, `ChainLines`).
- **The health-check server** (`HealthCheck`): listeners and counts over arbitrary syncs.

Loops over Go maps pick any remaining key at each turn, so results hold for every iteration order.
Results on exact rules and on safety are for maps in which no two service ports share a virtual
server. A nil Go map is `None`, because the deep comparison in the change maps tells it from an empty one.

## Where the code and its comments disagree

The model follows the code.

- The comments on `UpdateServiceMap` and `UpdateEndpointsMap` say the change maps are cleared after
  applying them. They are cleared later, by the caller. A return in between leaves items that are
  applied twice: `ServiceIndex.AbortedSyncLeaksService` shows the damage, and
  `ChangeTracking.ReplayReachesLiveIff` says exactly when there is none.
- The runner's comment promises `minInterval` from completion to next start. The limiter is charged
  before the function runs, so the bound holds from start to start. With burst 1 the promise holds
  for a run if and only if the run took no time (`FrequencyRunner.CompletionSpacingIff`);
  `FrequencyRunner.RunBackToBack` is a schedule with no gap at all.
- An incremental service change deletes and re-creates virtual servers and does not restore their
  destinations. `SyncRuns.IncrementalSyncExactIff` says exactly when nothing is lost,
  `SyncRuns.ServiceChangeLosesDestinations` gives a batch that loses destinations.
- An incremental sync closes the held ports of services without a pending change;
  `SyncRuns.IncrementalPortsExactIff` says exactly when that does no harm,
  `SyncRuns.IncrementalSyncClosesNodePort` when it does.
- `OnEndpointsSynced` does not set `initialized`, unlike `OnServiceSynced`, so whether a pending event
  triggers a sync depends on the order in which the caches are filled:
  `ProxierRuns.PendingEventSyncsIff` and `ProxierRuns.ServicesFirstNeverInitialises`.
- The description of a held port names the service and not the service port, because the string
  method of the port name is that of the embedded object name.
- Whether an external IP is local is asked of all interfaces, the dummy link included, while a sync
  binds and unbinds addresses there. The held ports can therefore depend on the order of visiting
  (`HeldPorts.OrderDoesNotMatterIff`) and on addresses that the same sync unbinds:
  `SyncRuns.QuietPortsExactIff` has the exact condition for exact ports,
  `SyncRuns.StrayAddressIsHeldThenClosed` an input on which a second quiet sync closes a port.
- A last line without a line break is not read as the split-and-trim reading would have it:
  `SaveRestore.ReadLinesIff` has the exact condition, `SaveRestore.LoneCharacterIsLost` an input.
- The comment on `AtLeast` says missing components count as 0. That holds for the minimum's and not
  always for the version's own: `VersionOrder.AtLeastIsNumericIff` has the exact condition,
  `VersionOrder.MissingComponentPasses` an input.
- Leading zeros in a numeric pre-release identifier are rejected within 64 bits only, against
  section 9 of Semantic Versioning 2.0.0: `VersionOrder.LongZeroIsAccepted`.
- A pre-release that the other version's continues compares as equal, and byte order is used where
  precedence is numeric or puts numbers first: `VersionOrder.ComparedIsPrecedenceIff` has the exact
  condition, `VersionOrder.HyphenComparesWrongly` an input.

## Model

| member | source | states |
|---|---|---|
| `ChangeTracking.RecordKeepsTracking` | pkg/proxy/util/services.go:151-169 | Recording an event keeps the invariant that the pending items are exactly the objects whose projection differs from the last sync, each with both projections; events that cancel out leave no item. |
| `ChangeTracking.PatchReachesLive` | pkg/proxy/util/services.go:209-220 | Patching the index of the last sync with tracked items gives the index of the live objects, and the items say exactly how the two differ. |
| `ChangeTracking.ReplayReachesLiveIff` | pkg/proxy/ipvs/proxier.go:370-389 | After a sync that returned between applying and clearing, the next sync reaches the live index if and only if for every object the entries added by the aborted sync are mentioned by the new change, or there is none and they are the live ones. |
| `ServiceIndex.ServiceToServiceMap` | pkg/proxy/util/services.go:171-187 | Nil for a missing, headless or external-name service; otherwise each port name has the entry of the last port of that name, under the service's own name. |
| `ServiceIndex.Projection` | pkg/proxy/util/services.go:171-205 | The projection is present exactly for services that are not skipped, and looks up every name as the service contributes it. |
| `ServiceIndex.BuildServiceMap` | pkg/proxy/util/services.go:49-120 | The from-scratch build yields the index of the live services, and the stale addresses are those of UDP entries the old map has and the new one lacks. |
| `ServiceIndex.ServiceEntryIff` | pkg/proxy/util/services.go:49-205 | Entry by entry and field by field: the map of the live services has an entry if and only if a service with an address of its own, not external-name, has a last port of that name, with that port's port, node port and protocol and the service's cluster IP, external IPs and affinity. |
| `ServiceIndex.EventKeepsTracking` | pkg/proxy/util/services.go:151-169 | One service event, recorded as the code does, keeps the tracking between the services of the last sync and the live ones. |
| `ServiceIndex.ServiceChangeMap.Update` | pkg/proxy/util/services.go:151-169 | Keeps the tracking invariant for every well-formed event and reports whether anything is pending. |
| `ServiceIndex.ServiceChangeMap.Clear` | pkg/proxy/ipvs/proxier.go:758-759 | With the items forgotten, tracking starts again from the live services. |
| `ServiceIndex.ProxyServiceMap.Merge` | pkg/proxy/util/services.go:234-247 | The map is overridden by the other map; the result is the set of the other's port names. |
| `ServiceIndex.ProxyServiceMap.Unmerge` | pkg/proxy/util/services.go:249-264 | Exactly the other map's entries whose port name is not among the existing ones go, and the cluster IPs of UDP entries among them become stale. |
| `ServiceIndex.OneItemPatches` | pkg/proxy/util/services.go:215-218 | Merging and unmerging one item patches the map as intended: comparing port names alone is as precise as comparing full names, since an item's entries all carry its own name. |
| `ServiceIndex.UpdateServiceMap` | pkg/proxy/util/services.go:209-220 | In every iteration order the map becomes the patch of the old map by the items, and the stale set is the UDP difference of the whole maps. |
| `ServiceIndex.SyncServiceMap` | pkg/proxy/util/services.go:209-220 | From the index of the last sync the map becomes the one `BuildServiceMap` builds from the live services, with the same stale set. |
| `ServiceIndex.AbortedSyncLeaksService` | pkg/proxy/ipvs/proxier.go:370-389 | A service added, applied by a sync that aborts, and deleted again stays in the map. |
| `EndpointIndex.EndpointsToEndpointsMap` | pkg/proxy/util/endpoints.go:171-214 | Every port name maps to the usable addresses of all subsets in order, appended port by port; ports 0 and empty addresses are skipped and no name has an empty list. |
| `EndpointIndex.EndpointListIs` | pkg/proxy/util/endpoints.go:171-214 | The list under a name enumerates the usable addresses behind usable ports of that name, over all subsets, each once and in order, field by field; a name is present exactly if there is one. |
| `EndpointIndex.EndpointMemberIff` | pkg/proxy/util/endpoints.go:171-214 | A backend is in the list if and only if some subset, port and address have exactly its IP, its port and its locality. |
| `EndpointIndex.AppendSubset` | pkg/proxy/util/endpoints.go:179-212 | One subset appends to every list what it has under that port name and leaves other objects' lists alone. |
| `EndpointIndex.EventKeepsTracking` | pkg/proxy/util/endpoints.go:150-169 | One endpoints event, recorded as the code does, keeps the tracking. |
| `EndpointIndex.EndpointsChangeMap.Update` | pkg/proxy/util/endpoints.go:150-169 | Keeps the tracking invariant for every well-formed event and reports whether anything is pending. |
| `EndpointIndex.ProxyEndpointMap.Merge` | pkg/proxy/util/endpoints.go:276-280 | The map is overridden by the other map. |
| `EndpointIndex.ProxyEndpointMap.Unmerge` | pkg/proxy/util/endpoints.go:282-286 | The other map's names are removed. |
| `EndpointIndex.DetectStaleConnections` | pkg/proxy/util/endpoints.go:250-274 | Adds exactly the backends of a name that the new list lacks, and exactly the names that went from empty to non-empty. |
| `EndpointIndex.UpdateEndpointsMap` | pkg/proxy/util/endpoints.go:218-246 | In every iteration order the map becomes the patch of the old map by the items; the stale sets are those of the items. |
| `EndpointIndex.StaleOverWholeMap` | pkg/proxy/util/endpoints.go:225-229 | Detecting item by item finds exactly the per-port differences, and the filled names, of the whole maps. |
| `EndpointIndex.SyncEndpointsMap` | pkg/proxy/util/endpoints.go:218-246 | From the index of the last sync the map becomes the union of the projections of the live objects; stale backends and filled names are exact over the whole maps. |
| `Host.Kernel.AddService` | pkg/util/ipvs/ipvs.go:163-204 | Adding an existing virtual server leaves it and its destinations alone; a failure changes nothing and is counted. |
| `Host.Kernel.DeleteService` | pkg/util/ipvs/ipvs.go:206-233 | A deleted virtual server is gone with its destinations; deleting an absent one changes nothing. |
| `Host.Kernel.AddServer` | pkg/util/ipvs/ipvs.go:235-272 | Adding a destination needs the virtual server; adding an existing one succeeds. |
| `Host.Kernel.DeleteServer` | pkg/util/ipvs/ipvs.go:274-305 | Deletes the one destination, or fails and changes nothing. |
| `WantedState.QuietStep` | pkg/proxy/ipvs/proxier.go:436-457 | Handling one more virtual server in a quiet sync keeps: handled ones are at most as wanted and, without failures, exactly as wanted; the others are as listed. |
| `WantedState.KeysOfIff` | pkg/proxy/ipvs/proxier.go:405-579 | A service port expands to exactly its cluster IP and external IPs on its port and, with a node port, the node IPs on the node port, with its protocol. |
| `WantedState.PortsOfIff` | pkg/proxy/ipvs/proxier.go:460-546 | It holds exactly its port on its local external IPs and its node port on all addresses. |
| `WantedState.WantedIff` | pkg/proxy/ipvs/proxier.go:405-579 | The wanted table, field by field: which virtual servers and which destinations behind each. |
| `WantedState.ServicePassStep` | pkg/proxy/ipvs/proxier.go:590-756 | Replaying one more service change keeps the description of the pass: deleted virtual servers are gone or re-added empty, the others kept what they had. |
| `WantedState.EndpointStep` | pkg/proxy/ipvs/proxier.go:890-910 | Reconciling one more virtual server against the earlier listing, or the same one again, keeps the description of the endpoint pass. |
| `WantedState.IncrementalSyncIsSafe` | pkg/proxy/ipvs/proxier.go:585-830 | An incremental sync takes a table with nothing unwanted to a table with nothing unwanted for the new maps, even when additions fail. |
| `WantedState.IncrementalKeysAreExact` | pkg/proxy/ipvs/proxier.go:585-760 | Without failures, and if no virtual server passes between services in the batch, exact virtual servers become exact virtual servers, also when ports are renamed or reused in a service. |
| `WantedState.IncrementalTable` | pkg/proxy/ipvs/proxier.go:585-830 | From any table, the whole table after an incremental sync without failures is a function of the batch and that table, when no virtual server passes between services. |
| `WantedState.IncrementalSyncIsExactIff` | pkg/proxy/ipvs/proxier.go:585-830 | From any table, that result is the wanted one if and only if every kept virtual server is wanted, and each wanted one is kept and reconciled or right already, or is added and none of its endpoints was in the earlier listing. |
| `WantedState.FromWantedIff` | pkg/proxy/ipvs/proxier.go:585-830 | From the wanted table only ports of changed services can lose destinations, and they lose none if and only if they have none or an endpoints change mentions them and shares no endpoint with the listing. |
| `IpvsProxier.Proxier.CreateServiceRule` | pkg/proxy/ipvs/proxier.go:912-926 | A listed virtual server costs no command; another one is added, or the failure is reported and counted. |
| `IpvsProxier.Proxier.CreateEndpointRule` | pkg/proxy/ipvs/proxier.go:928-1000 | Destinations move to the endpoints relative to the listing: exactly without failures, never beyond with failing additions, without a command when they agree; other virtual servers are untouched. |
| `IpvsProxier.Proxier.BuildIpvsMap` | pkg/proxy/ipvs/proxier.go:1056-1099 | The listing is the kernel's table unless a list call failed. |
| `IpvsProxier.Proxier.BuildClusterMap` | pkg/proxy/ipvs/proxier.go:1101-1116 | The listing is the set of bound addresses unless the list call failed. |
| `IpvsProxier.Proxier.HoldPort` | pkg/proxy/ipvs/proxier.go:469-489 | A port held before is kept without opening anything; otherwise a socket is opened or the refusal counted; sockets and held ports stay one to one, and unless one was refused a port has been opened exactly if a new one is held. |
| `IpvsProxier.Proxier.ReplacePorts` | pkg/proxy/ipvs/proxier.go:834-840 | Sockets that are not kept are closed, each once, the open sockets are then exactly those of the new table of held ports, and without a refusal the sync opened or closed something exactly if the held ports changed. |
| `IpvsProxier.Proxier.CheckUnusedRule` | pkg/proxy/ipvs/proxier.go:1002-1053 | Listed virtual servers that are not active are deleted and listed addresses not in use are unbound; nothing else changes. |
| `IpvsProxier.Proxier.SyncServicePort` | pkg/proxy/ipvs/proxier.go:405-579 | One service port in a quiet sync: its cluster, external and node keys become active and as wanted, its address bound, and its ports held as the addresses on the host then call for, whatever fails on the way. |
| `IpvsProxier.Proxier.SyncWholeRules` | pkg/proxy/ipvs/proxier.go:403-583 | The quiet sync over all service ports in any order and the removal of unused rules: nothing unwanted unless a list or delete call failed, exact rules without failures, no kernel command when they were exact, and the ports of the order of visiting. |
| `IpvsProxier.Proxier.DeleteServiceRules` | pkg/proxy/ipvs/proxier.go:597-617 | Exactly the virtual servers of one previous service port are deleted. |
| `IpvsProxier.Proxier.AddServicePort` | pkg/proxy/ipvs/proxier.go:620-755 | One current service port: its virtual servers are added empty, its address bound, its ports held, whatever fails on the way. |
| `IpvsProxier.Proxier.ReplayServiceChanges` | pkg/proxy/ipvs/proxier.go:585-760 | Replaying the service changes in any order gives the service pass of the batch. |
| `IpvsProxier.Proxier.SyncEndpointChange` | pkg/proxy/ipvs/proxier.go:890-910 | One virtual server is reconciled against the listing taken before the service pass. |
| `IpvsProxier.Proxier.ReplayEndpointsChanges` | pkg/proxy/ipvs/proxier.go:762-830 | Replaying the endpoints changes in any order reconciles exactly the virtual servers of the mentioned ports. |
| `IpvsProxier.Proxier.ReconcileQuietly` | pkg/proxy/ipvs/proxier.go:403-583 | A sync with nothing pending is a quiet sync in the sense of `SyncRuns`. |
| `IpvsProxier.Proxier.ReconcileIncrementally` | pkg/proxy/ipvs/proxier.go:585-840 | A sync with pending changes is an incremental sync in the sense of `SyncRuns`. |
| `IpvsProxier.Proxier.SyncProxyRules` | pkg/proxy/ipvs/proxier.go:345-851 | Does nothing before both caches are filled; afterwards the maps are those of the live objects, the stale sets exact, the change maps empty, sockets and held ports one to one, and the kernel step is a sync of `SyncRuns`. |
| `IpvsProxier.Proxier.OnServiceEvent` | pkg/proxy/ipvs/proxier.go:220-245 | Adding, updating or deleting a service changes the pending items only, and is followed by one sync exactly if something is pending and the proxier is initialized. |
| `IpvsProxier.Proxier.OnEndpointsEvent` | pkg/proxy/ipvs/proxier.go:259-284 | The same for endpoints objects. |
| `IpvsProxier.Proxier.OnServiceSynced` | pkg/proxy/ipvs/proxier.go:247-257 | Marks the services filled, sets `initialized` if both are, and then there is one sync, or nothing if the endpoints are not filled. |
| `IpvsProxier.Proxier.OnEndpointsSynced` | pkg/proxy/ipvs/proxier.go:286-292 | Marks the endpoints filled, leaves `initialized` as it was, and then there is one sync, or nothing if the services are not filled. |
| `ProxierRuns.Act` | pkg/proxy/ipvs/proxier.go:220-345 | Each action records and then syncs exactly when the actions so far and the pending items say so; the three flags are functions of the actions. |
| `ProxierRuns.Drive` | pkg/proxy/ipvs/proxier.go:220-345 | Every sequence of well-formed actions on a new proxier, with any failures and in any order of visiting, has a trace of two steps for each action from the initial view to the final one; after each sync the maps are those of the live objects; `initialized` holds exactly if the endpoints were filled before a notification of the services; and the final kernel state is safe if a quiet sync is in the trace and no list or delete call failed since. |
| `ProxierRuns.TraceIsRun` | pkg/proxy/ipvs/proxier.go:345-851 | Every trace of the code is a run of `SyncRuns`. |
| `ProxierRuns.SettlingIsQuiet` | pkg/proxy/ipvs/proxier.go:403-583 | After both caches are filled, a periodic sync right after another sync is quiet. |
| `ProxierRuns.CodeStaysSafe` | pkg/proxy/ipvs/proxier.go:403-830 | The code's own runs end safe after such a sync, with failures of binds, additions and port openings allowed. |
| `ProxierRuns.CodeStaysExactOnKeys` | pkg/proxy/ipvs/proxier.go:403-830 | Without failures since, they end with every cluster IP bound, and with exactly the wanted virtual servers if none passed between services. |
| `ProxierRuns.CodeStabilises` | pkg/proxy/ipvs/proxier.go:403-583 | Two syncs in a row, the second periodic and without failures, leave exactly the rules of the live objects, from any kernel state. |
| `ProxierRuns.CodeInstallsObjects` | pkg/proxy/ipvs/proxier.go:345-851 | From the events to the kernel, with no map in between named: two syncs in a row, the second periodic and without failures, leave a virtual server exactly where a port of a live service calls for one, and behind it exactly the usable addresses of the endpoints object of the same name. |
| `ProxierRuns.WantedIsInstalled` | pkg/proxy/ipvs/proxier.go:403-583 | The table that two maps of live objects call for is exactly that. |
| `ProxierRuns.ServiceIsLastGiven` | pkg/proxy/ipvs/proxier.go:220-245 | After any actions a service is what the last event for its name made it. |
| `ProxierRuns.EndpointsAreLastGiven` | pkg/proxy/ipvs/proxier.go:259-284 | The same for endpoints objects. |
| `ProxierRuns.PendingEventSyncsIff` | pkg/proxy/ipvs/proxier.go:220-292 | A service event that leaves something pending is synced at once if and only if the endpoints were filled before a notification of the services; otherwise nothing happens. |
| `ProxierRuns.PendingEndpointsSyncIff` | pkg/proxy/ipvs/proxier.go:259-292 | The same for endpoints events. |
| `ProxierRuns.ServicesFirstNeverInitialises` | pkg/proxy/ipvs/proxier.go:247-292 | Services filled first and endpoints second: both are filled and yet, unless the services are announced again, no event ever triggers a sync. |
| `SyncRuns.StepIsSafe` | pkg/proxy/ipvs/proxier.go:403-830 | Any step without failing list or delete calls keeps the kernel free of unwanted virtual servers and destinations. |
| `SyncRuns.SafeEverAfter` | pkg/proxy/ipvs/proxier.go:403-830 | Safety over whole runs: once a quiet sync has happened, at every later point every virtual server belongs to a known service port and each destination is a current endpoint of it, although binds, additions and port openings may fail. |
| `SyncRuns.SafeMeans` | pkg/proxy/ipvs/proxier.go:403-830 | Safety, field by field: every virtual server is one that some service port expands to, and every destination behind it has the IP and port of an endpoint of that port. |
| `SyncRuns.QuietSyncStabilises` | pkg/proxy/ipvs/proxier.go:403-583 | Self-stabilisation: from any kernel state one quiet sync without failures leaves exactly the wanted virtual servers and destinations and exactly the cluster IPs bound. The work is in `ReconcileQuietly`, whose contract is the quiet sync; this reads the result off. |
| `SyncRuns.QuietTableIff` | pkg/proxy/ipvs/proxier.go:403-583 | The table after a quiet sync without failures, field by field. |
| `SyncRuns.KernelFixpoint` | pkg/proxy/ipvs/proxier.go:403-583 | A second quiet sync issues no add, delete, bind or unbind and leaves the kernel alone. |
| `SyncRuns.QuietPortsBetween` | pkg/proxy/ipvs/proxier.go:460-546 | Every quiet sync without failures holds at least the ports that the addresses found at its start call for and at most those that these and the cluster IPs call for. |
| `SyncRuns.QuietPortsExactIff` | pkg/proxy/ipvs/proxier.go:460-546 | A quiet sync without failures leaves exact held ports in every order of visiting if and only if at its start each external IP on no interface is on the dummy link exactly when it is a cluster IP, its own service's excepted. |
| `SyncRuns.PortFixpointIff` | pkg/proxy/ipvs/proxier.go:460-546 | When exactly the cluster IPs are bound, a quiet sync leaves exact held ports, and opens or closes one if and only if they were not exact. |
| `SyncRuns.QuietFixpoint` | pkg/proxy/ipvs/proxier.go:403-583 | From any state, a third quiet sync issues no kernel or port command, and rules and held ports are exact. |
| `SyncRuns.StrayAddressIsHeldThenClosed` | pkg/proxy/ipvs/proxier.go:460-489 | An external IP that is on the dummy link and no cluster IP is held by the first quiet sync and closed by the second. |
| `HeldPorts.ArisesBetween` | pkg/proxy/ipvs/proxier.go:460-546 | The bounds on held ports, for every order of visiting. |
| `HeldPorts.AlwaysHeldIff` | pkg/proxy/ipvs/proxier.go:460-546 | Every order holds exactly the ports that given local addresses call for if and only if for each external IP they agree with what is found when its service port is visited first, and last. |
| `HeldPorts.OrderDoesNotMatterIff` | pkg/proxy/ipvs/proxier.go:460-546 | All orders hold the same ports if and only if no external IP is another service port's cluster IP that is not yet on the host. |
| `SyncRuns.StepKeepsExactKeys` | pkg/proxy/ipvs/proxier.go:585-760 | A step without failures keeps the virtual servers exact when none passes between services in the batch. |
| `SyncRuns.ExactKeysEverAfter` | pkg/proxy/ipvs/proxier.go:585-760 | The same over whole runs after a quiet sync. |
| `SyncRuns.BoundEverAfter` | pkg/proxy/ipvs/proxier.go:597-645 | Without failures every cluster IP stays bound at every later point of a run, even when services share an address and some are deleted. |
| `SyncRuns.IncrementalSyncExactIff` | pkg/proxy/ipvs/proxier.go:585-830 | From any table, an incremental sync without failures leaves the wanted rules if and only if nothing is lost and nothing is left behind. |
| `SyncRuns.IncrementalSyncStaysExactIff` | pkg/proxy/ipvs/proxier.go:585-830 | From the wanted rules, if and only if all destinations of changed services come back. |
| `SyncRuns.ServiceChangeLosesDestinations` | pkg/proxy/ipvs/proxier.go:590-700 | Turning on session affinity for one service with an endpoint: the table after the incremental sync is not the wanted one. |
| `SyncRuns.IncrementalPortsExactIff` | pkg/proxy/ipvs/proxier.go:834-840 | An incremental sync without failures leaves exact held ports in every order if and only if services without a pending change hold none and the external IPs of the others are steady. |
| `SyncRuns.IncrementalSyncClosesNodePort` | pkg/proxy/ipvs/proxier.go:834-840 | Any service port with a node port and no pending change loses its held port to an incremental sync without failures. |
| `SyncRuns.EndpointsOnlySyncIsExact` | pkg/proxy/ipvs/proxier.go:762-830 | A sync with endpoints changes only keeps the rules exact. |
| `SyncRuns.ReplayOrderDoesNotShow` | pkg/proxy/ipvs/proxier.go:590-830 | From any state, two incremental syncs of the same batch without failures leave the same maps, table and bound addresses, in whatever order changes were replayed. |
| `IpvsConversion.ServiceRoundTripIff` | pkg/util/ipvs/ipvs.go:478-533 | A service converted to the kernel's record and back is the same if and only if it is TCP or UDP, its port fits 16 bits and it has no affinity. |
| `IpvsConversion.ListedKeyRoundTripIff` | pkg/util/ipvs/ipvs.go:550-572 | A listed virtual server is addressed under its own key again if and only if it is TCP or UDP. |
| `IpvsConversion.ServerRoundTripIff` | pkg/util/ipvs/ipvs.go:502-548 | A destination converted and back is the same if and only if its port fits 16 bits and its weight is the default. |
| `IpvsConversion.LibServiceIs` | pkg/util/ipvs/ipvs.go:478-500 | The kernel's record field by field: protocol numbers 6 and 17, the port modulo 2^16, and with affinity flag 1, a full mask and 10800 seconds. |
| `IpvsConversion.ListedServiceIs` | pkg/util/ipvs/ipvs.go:519-533 | A listed record field by field, with its protocol as text. |
| `IpvsConversion.StoredIs` | pkg/util/ipvs/ipvs.go:550-572 | The kernel's key for a key of the proxy, and back. |
| `IpvsConversion.AddIpvsService` | pkg/util/ipvs/ipvs.go:163-204 | On the kernel's own table, seen through the proxy's keys: an existing virtual server is left alone, an absent one is added empty, and any other outcome is a counted fault that changes nothing. |
| `IpvsConversion.IsListed` | pkg/util/ipvs/ipvs.go:172-178 | The search of the listing finds the service exactly when its key is listed. |
| `IpvsConversion.DeleteIpvsService` | pkg/util/ipvs/ipvs.go:206-233 | Deletes exactly that key with its destinations; failing without a fault means it was absent. |
| `IpvsConversion.AddIpvsServer` | pkg/util/ipvs/ipvs.go:235-272 | Succeeds for a destination that is there already; otherwise adds it, or changes nothing. |
| `IpvsConversion.DeleteIpvsServer` | pkg/util/ipvs/ipvs.go:274-305 | Deletes exactly that destination, or changes nothing. |
| `FrequencyRunner.BoundedFrequencyRunner.TryAccept` | pkg/util/async/bounded_frequency_runner.go:157-163 | Accepts if and only if a start now keeps the rate bound of every window; refusal implies that less than `minInterval` has passed since the last run ended. |
| `FrequencyRunner.BoundedFrequencyRunner.Reschedule` | pkg/util/async/bounded_frequency_runner.go:225-238 | A refused attempt leaves the timer armed for `lastRun + minInterval`, also when the two intervals are equal. |
| `FrequencyRunner.BoundedFrequencyRunner.TryRun` | pkg/util/async/bounded_frequency_runner.go:211-239 | Runs if and only if a start now keeps the rate bound, so always at least `minInterval` after the last run; the whole new state in both cases; the timer stays armed in time and every refused request served or scheduled. |
| `FrequencyRunner.BoundedFrequencyRunner.Run` | pkg/util/async/bounded_frequency_runner.go:191-200 | A request is queued; a second one is dropped. |
| `FrequencyRunner.BoundedFrequencyRunner.NeverStuck` | pkg/util/async/bounded_frequency_runner.go:169-184 | Whenever the loop waits there is something to take or an armed timer no later than `lastRun + maxInterval`. |
| `FrequencyRunner.Loop` | pkg/util/async/bounded_frequency_runner.go:169-184 | Plays every schedule of waiting, requests, ticks and stale ticks move by move, and keeps all guarantees. |
| `FrequencyRunner.HistoryGrows` | pkg/util/async/bounded_frequency_runner.go:169-184 | Recorded starts, ends and refusals stay. |
| `FrequencyRunner.NothingIsLost` | pkg/util/async/bounded_frequency_runner.go:169-200 | Under every schedule, a request or a tick in its channel stays there until a move takes it and makes an attempt, which starts or is refused at that time. |
| `FrequencyRunner.RequestIsAnswered` | pkg/util/async/bounded_frequency_runner.go:186-200 | Every request is still queued at the end, or an attempt is made for it, no earlier than it was made. |
| `FrequencyRunner.RequestStays` | pkg/util/async/bounded_frequency_runner.go:186-200 | A queued request stays as long as no move takes requests. |
| `FrequencyRunner.RequestDuringRun` | pkg/util/async/bounded_frequency_runner.go:186-200 | A request that arrives during a run is queued. |
| `FrequencyRunner.TakingAttempts` | pkg/util/async/bounded_frequency_runner.go:178-181 | Taking a request or a tick uses it up and makes an attempt: a run of the given length if and only if a start keeps the rate bound. |
| `FrequencyRunner.DueTimerTicks` | pkg/util/async/bounded_frequency_runner.go:217-220 | A timer that comes due during a run or a wait leaves its tick. |
| `FrequencyRunner.AwaitTimer` | pkg/util/async/bounded_frequency_runner.go:169-239 | If nothing else happens, an armed timer is followed by a run at exactly its deadline. |
| `FrequencyRunner.TokenIff` | pkg/util/async/bounded_frequency_runner.go:157-163 | The bucket has a token if and only if one more start keeps the rate bound. |
| `FrequencyRunner.BurstOneAcceptsIff` | pkg/util/async/bounded_frequency_runner.go:112-126 | With burst 1 an attempt is accepted if and only if `minInterval` has passed since the last start. |
| `FrequencyRunner.CompletionSpacingIff` | pkg/util/async/bounded_frequency_runner.go:112-126 | With burst 1 the spacing from completion to next start holds after a run if and only if the run took no time. |
| `FrequencyRunner.RunBackToBack` | pkg/util/async/bounded_frequency_runner.go:112-126 | A run of length `minInterval` and the next start at its completion. |
| `FrequencyRunner.WindowBound` | pkg/util/async/bounded_frequency_runner.go:112-117 | In every window of length T at most `burstRuns + T / minInterval` runs start. |
| `FrequencyRunner.PairIsSpaced` | pkg/util/async/bounded_frequency_runner.go:122-126 | With burst 1 consecutive starts are at least `minInterval` apart. |
| `FrequencyRunner.Guarantees` | pkg/util/async/bounded_frequency_runner.go:112-130 | In every reachable state: the timer is armed or its tick is there, runs are never more than `maxInterval` apart, every window keeps the rate bound, and every refused request was served by its due time. |
| `VersionText.DecimalRoundTrip` | pkg/util/version/version.go:163-168 | A number within 64 bits, printed in decimal and parsed, is itself; the text is digits without a leading zero. |
| `VersionText.FurtherDigit` | pkg/util/version/version.go:58-67 | A further digit counts once and the digits before it ten times. |
| `VersionText.ParsesWithin64Bits` | pkg/util/version/version.go:62-65 | Printed numbers are parsed up to 2^64 - 1 and no further. |
| `VersionText.SplitJoin` | pkg/util/version/version.go:42-86 | Splitting at dots undoes joining parts without dots. |
| `VersionNumber.Parse` | pkg/util/version/version.go:42-86 | Returns what the text denotes, and nothing for every error. |
| `VersionGrammar.ParsedIff` | pkg/util/version/version.go:35-86 | The parser accepts exactly the texts of the grammar: white space, an optional v, the longest run of dotted numbers allowed in the mode, and for semantic versions pre-release, build metadata and white space; with exactly the version they denote. |
| `VersionGrammar.ExtraIff` | pkg/util/version/version.go:69-83 | The second pattern matches exactly an optional pre-release and optional build metadata, each of dotted identifiers, and white space. |
| `VersionNumber.ParseComponents` | pkg/util/version/version.go:49-67 | Accepts exactly the component lists that the mode allows, with their values. |
| `VersionNumber.CheckPreRelease` | pkg/util/version/version.go:76-82 | Rejects exactly the pre-releases with a numeric identifier, within 64 bits, that has a leading zero. |
| `VersionNumber.String` | pkg/util/version/version.go:160-179 | Prints the components joined with dots, then the marked pre-release and build metadata. |
| `VersionNumber.ParsedIsParseable` | pkg/util/version/version.go:42-86 | Every parsed version is well formed. |
| `VersionNumber.ParseableRoundTrip` | pkg/util/version/version.go:42-179 | Every well-formed version, printed and parsed in its mode, is itself. |
| `VersionNumber.PrintedRoundTrip` | pkg/util/version/version.go:42-179 | For every text that either parser accepts, parsing the printed version in the same mode gives an equal version. |
| `VersionOrder.CompareInternal` | pkg/util/version/version.go:183-238 | The early-return loops compute the recursive comparison. |
| `VersionOrder.AtLeastIsNumericIff` | pkg/util/version/version.go:183-246 | For generic versions `AtLeast` is zero-padded numeric comparison if and only if the minimum does not go on with a non-zero component after the version ended. |
| `VersionOrder.AtLeastIsNumeric` | pkg/util/version/version.go:244-253 | In particular, with at least as many components as the minimum, both `AtLeast` and `LessThan` are numeric. |
| `VersionOrder.AtLeastIsNotLess` | pkg/util/version/version.go:240-253 | The two questions are opposites, for all versions. |
| `VersionOrder.TrailingZeroIsIgnored` | pkg/util/version/version.go:240-253 | A trailing zero in the minimum changes neither answer. |
| `VersionOrder.MissingComponentPasses` | pkg/util/version/version.go:183-246 | Version 1.4 passes for at least 1.4.1. |
| `VersionOrder.IdentifiersCompareIff` | pkg/util/version/version.go:216-234 | Two different identifiers compare as section 11 of Semantic Versioning 2.0.0 says if and only if byte order does not misplace a number. |
| `VersionOrder.ListsCompareIff` | pkg/util/version/version.go:210-237 | Pre-release lists compare by precedence if and only if the first is no proper prefix of the second and the first difference is not misordered, or is a tie of numbers that byte order breaks as the rest would. |
| `VersionOrder.ComparedIsPrecedenceIff` | pkg/util/version/version.go:183-238 | Any two texts that parse as semantic versions compare by precedence if and only if their pre-releases are not misjudged in one of these ways. |
| `VersionOrder.AtLeastIsPrecedenceIff` | pkg/util/version/version.go:240-253 | For any two texts that parse as semantic versions, `AtLeast` and `LessThan` answer as precedence does if and only if the pre-releases are not misjudged or are a tie of long numbers that leaves the first at least as high. |
| `VersionOrder.LexicalMeans` | pkg/util/version/version.go:230-234 | The comparison of strings is by bytes: the first difference decides, and a proper prefix comes first. |
| `VersionOrder.IdentifierPrecedenceMeans` | pkg/util/version/version.go:210-237 | The precedence the results refer to: numbers by value, numbers before the rest, the rest by bytes. |
| `VersionOrder.LongZeroIsAccepted` | pkg/util/version/version.go:76-82 | The parser accepts numeric pre-release identifiers with leading zeros beyond 64 bits. |
| `VersionOrder.PlainVersionsCompareIff` | pkg/util/version/version.go:183-238 | For any two texts that parse as semantic versions with identifiers that are 64-bit numbers or start with a letter, the only exception is a pre-release compared to one that continues it, which gives 0. |
| `VersionOrder.HyphenComparesWrongly` | pkg/util/version/version.go:183-238 | Pre-release `1` comes out above pre-release `-`, against precedence. |
| `SaveRestore.ReadLine` | pkg/util/iptables/save_restore.go:64-110 | The index scan returns the text up to the next line break, trimmed of spaces, and the place after it; on a last line without a break it returns the tail reading. |
| `SaveRestore.TailReadIff` | pkg/util/iptables/save_restore.go:85-107 | A last line without a break is read trimmed if and only if it is blank or ends in two characters that are no spaces. |
| `SaveRestore.TailReadOtherwise` | pkg/util/iptables/save_restore.go:85-107 | Otherwise everything is lost if the text ends in a space, and else the last character. |
| `SaveRestore.ReadLinesIff` | pkg/util/iptables/save_restore.go:64-110 | Repeated reading yields the trimmed lines of the buffer if and only if its last line is read well. |
| `SaveRestore.TerminatedBufferReads` | pkg/util/iptables/save_restore.go:64-110 | On every buffer that ends with a line break, repeated reading is the split at line breaks with spaces trimmed. |
| `SaveRestore.LoneCharacterIsLost` | pkg/util/iptables/save_restore.go:85-91 | A buffer of one character without a line break reads as an empty line. |
| `ChainLines.GetChainLines` | pkg/util/iptables/save_restore.go:31-62 | Panics exactly when a chain line of the table's section has no space; otherwise maps each chain to the last line that gives it and nothing else. On terminated buffers the section is one of the trimmed lines. |
| `ChainLines.FindTable` | pkg/util/iptables/save_restore.go:36-42 | Stops after the first line that starts with the table's header. |
| `ChainLines.PrintedTableReadsBack` | pkg/util/iptables/save_restore.go:25-62 | A table printed with chain lines for names free of spaces and line breaks, after other lines and before any text, parses back to exactly its chains, each with the line `:name - [0:0]`. |
| `HealthCheck.Server.SyncServices` | pkg/proxy/healthcheck/healthcheck.go:122-178 | Entries whose port is still requested are untouched, all others are closed or reopened with a fresh listener and no endpoints; a requested entry is missing only if an outsider refused its port or another entry has it; listeners and entries stay one to one. |
| `HealthCheck.RequestIsMet` | pkg/proxy/healthcheck/healthcheck.go:122-178 | With distinct ports and no refusal by outsiders the entries are the request, even when services swap ports. |
| `HealthCheck.Server.SyncEndpoints` | pkg/proxy/healthcheck/healthcheck.go:216-234 | Every entry's count becomes the reported one, or 0 when it is missing; nothing else changes. |
| `HealthCheck.PortIsLastRequested` | pkg/proxy/healthcheck/healthcheck.go:122-178 | Over every sequence of syncs, each entry has the port of the last request. |
| `HealthCheck.CountIsLastReported` | pkg/proxy/healthcheck/healthcheck.go:122-234 | Over every sequence of syncs, each count is the last reported value if the entry has kept its listener since, and 0 otherwise. |
| `HealthCheck.Drive` | pkg/proxy/healthcheck/healthcheck.go:122-234 | Every sequence of syncs on a new server is a run in that sense and keeps listeners and entries one to one. |

## Left out

- Events between applying and clearing the change maps: each sync is one atomic step. The failure
  that such an event, or the early return on a missing dummy link, causes is characterised by
  `ChangeTracking.ReplayReachesLiveIff`; the reconciler itself assumes the dummy link is there.
- Malformed event streams: each event's old object is the one last seen for that name.
- Changing node IPs: they are fixed over a run; addresses are in canonical text form.
- `Host.Kernel.AddService`: a list failure, on which the source panics, is one of the soft faults here.
- Virtual servers that are neither TCP nor UDP: `Host` has none; `IpvsConversion.ListedKeyRoundTripIff`
  says why they cannot be deleted.
- Scheduler, weights and session affinity of virtual servers in the kernel table: a quiet sync never
  updates them on an existing key.
- `IpvsProxier.Proxier.HoldPort`: the clearing of UDP connection tracking after opening a node port is a foreign effect.
- Connection tracking, iptables rules, netlink and D-Bus: only the stale sets that drive them are modelled.
- `HcServices` of `UpdateServiceMap`, the sync throttle, logging, events and error texts.
- `BuildEndPointsMap`: it overwrites lists across subsets and is not the reference for the incremental map.
- `FrequencyRunner.BoundedFrequencyRunner.TryAccept`: an exact token bucket in units of time; the
  rounding of the rate to a 32-bit float is not modelled.
- Stopping the runner, and delays between a tick becoming available and the loop taking it.
- The regular-expression engine: the two version patterns are hand-written matchers.
- `HealthCheck.Server.SyncServices`: instances are values in the map and not shared objects; closing a
  listener always releases its port; HTTP answers are not modelled.
- The fake kernel, command-line tools, options, start-up checks, informer wiring and broadcasting.
- `cleanUpIptablesMASQ`, which deletes by index from a listing that shifts.
