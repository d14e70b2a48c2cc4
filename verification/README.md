# Verification model of kuidapps

kuidapps is a set of Kubernetes controllers that compile a network design and a topology of nodes and links
into per-device configuration. This project models the parts whose correctness depends on more than one
function, and proves their properties for all inputs, all interleavings and all iteration orders.

**The device-configuration compiler** (`pkg/devbuilder`, `apis/network/v1alpha1/device.go`).
`Builder.DeviceBuilder` is the builder object: its methods are the loops over links, link ends, nodes,
reflectors, bridges and routers, and they update the device trees, the nodes and reflectors maps, the node set
and the design's BFD cells in place. A Go map is iterated by choosing any remaining key.

`Devices.Devices` holds the nested records: each `Add*` method gets or creates its way down and assigns fields. Every
group of fields that one call assigns also has a location by path (`ConfigTree`); one call is a patch, and a build is
a log of patches. Each `Add*` method is proved to keep the records equal to the merged patches at every node and cell,
each builder method to extend the log by exactly what `Underlay` and `Overlay` describe, and the theorems are about
those logs and hence about the records a build leaves:

- `UnderlayContents`: every entry that a finished underlay holds, by device, name and value, in terms of links, design,
  inventory and claims alone;
- `UnderlayOrder`: exactly when the result depends neither on the order of the link list nor on map iteration;
- `UnderlaySessions`, `UnderlayAgreement`: both ends of every EBGP session and every IGP adjacency agree;
- `UnderlayDevices`: AS, router id and system addresses of a device agree across its protocols and sessions;
- `UnderlayMesh`: the overlay sessions are edges times reflectors in both directions and nothing else;
- `UnderlayTheorems`: every reference resolves after every single call, and the processed-node guard is a pure
  speed-up under an exact condition;
- `UnderlayFailures`: when a build ends with an error and when at a nil dereference, exactly;
- `Inventory`: which links a build takes from the inventory, and what links of another topology do to it;
- `OverlayContents`: when an overlay can be built, and every entry that it then holds, in terms of bridges, routers and
  inventory alone;
- `OverlayTheorems`: which instances, interfaces, EVIs and route targets a finished overlay holds, exactly;
- `SameRecords`: equal merged patches mean the same records, up to the order of the one unsorted list, and the same
  sorted lists; so order independence holds of the records and lists that two builders leave.

`KeyedList` and `InterfaceList` are the slices behind the paths: the sorted lists are the canonical listing of a
map; the one unsorted list shows the order of the calls. `BfdCells` keeps the pointers that `getBFDLinkParameters`
shares between the design and all interfaces.

**The pipeline** (`Pipeline`, `PipelineOutcomes`, `PipelineDeploys`, `PipelineStale`, `PipelineRuns`). Three controllers read snapshots
of one Network object through one cache, make a side effect and write the status back under the resource-version
check. Every read, side effect and write is a step; edits of spec and design, cache progress, failures and crashes are
steps of the environment. The object's versions are an index into the history of stored objects. A spec value never
recurs and its hash is injective; an absent condition is False. `BuildDevices` takes the stored claims at once and as
they are, where the builder reads them one by one and through the cache.

**The claims** (`Claims`): the IP and AS claims that the first stage creates, their names, the design's own AS claims
that may share them, and that they are what the builder looks up.

**The lease** (`Lease`) and **the link claim protocol** (`LinkClaims`, `LinkProgress`, `LinkRollback`): state machines over the
separate API calls of `AcquireLease` and of the link controller, with any number of clients or links, lost replies and
crashes. The link controller's reads go through a cache with a position of its own for every endpoint.

## What the code does differently from its intent

The model follows the code. Where a property one would expect is false of it, the exact condition or a
counterexample is proved.

- Calm progress takes up to five stage-changing status writes, not three: the first two stages may both finish
  before the references are first recorded and then be reset (`PipelineRuns.FiveMovesHappen`). From rest three suffice
  exactly when the references are current or both stages are already done (`PipelineRuns.ThreeExactly`).
- A deployment can be stale. Exactly the risky reads let it in: the params controller starts from a snapshot older than
  its own last write of True while the stored references are current, or the device controller does so when the
  references were current at that write (`PipelineStale.StaleDeployExactly`; concrete runs in `PipelineRuns`). The
  network controller's reads, and reads behind writes of Processing or Failed, are never to blame.
- A link can rest owning one of its two endpoints without a crash and without an error: a release read from a cache
  behind the link's own claim shows the endpoint as free, and the rollback goes on
  (`LinkRollback.StaleRollbackLeavesOneClaimed`). A rollback leaves owned exactly what its reads missed.
- `SetOverallStatus` overwrites the condition set from the deploy's outcome, so a failed deploy is reported Ready
  (`Pipeline.FailedDeployIsReportedReady`).
- `NetworkDeviceFailed` writes the parameter condition, which sends the pipeline back to its first stage
  (`Pipeline.DeviceFailureRestartsClaims`).
- Links that override a BFD timer change it for every interface, and do so even where they switch BFD off for
  themselves (`BfdCells.IsolatedExactly`, `BfdCells.OneOverrideReachesAll`).
- An endpoint called `system0` breaks the guard's harmlessness; `irb0` does not
  (`UnderlayTheorems.GuardIsPureSpeedupExactly`).
- A design with an EBGP section but no AS pool creates no AS claims for nodes, although the builder looks them up
  (`Claims.ServedExactly`, `Claims.ClaimsSufficeExactly`).
- The design claims its IBGP AS and its AS pool as `<network>.ibgp` and `<network>.aspool`, the names of the AS claims of
  nodes called `ibgp` and `aspool`. With a pool, both claim one object (`Claims.DesignClaimsApart`); without one, a node
  called `ibgp` finds the design's AS (`Claims.ClaimsSufficeExactly`).
- An irb interface on a device without a static interface of its bridge leaves an instance without type
  (`OverlayTheorems.TypedExactly`).
- A node without device-type label is gathered without error, is not added, and is then dereferenced: outcome
  `Panic`. So is an override of a timer the design leaves nil (`UnderlayFailures.OutcomeExactly`,
  `UnderlayFailures.SmallPanics`).
- EVPN names the VXLAN interface whether or not the design has VXLAN, without which there is no such interface
  (`OverlayTheorems.EvpnResolvesExactly`).
- Irb interfaces of one router on one device share a sub-interface and overwrite each other's addresses
  (`OverlayTheorems.PortsKeptExactly`).
- An edge that has to peer with a reflector of a family without loopbacks dereferences nil, for instance where a
  reflector is named by an IPv4 router id and loopbacks are IPv6 only (`UnderlayFailures.MeshPanicsExactly`).
- The per-level IS-IS settings that are computed per interface are dropped by the upsert, so an entry is what was
  computed exactly when there is nothing to set per level (`UnderlayAgreement.LevelsAreDropped`).
- `GetLinks` does not filter by topology, because its `continue` belongs to the inner loop. It returns the topology's
  own links exactly when no infra link of the namespace has an end elsewhere (`Inventory.OwnLinksExactly`); a foreign
  end is looked up as a node of this topology, and fails the build exactly when there is none of its identifier
  (`Inventory.ForeignEndsFail`).

## Model

| member | source | states |
|---|---|---|
| Lease.StepKeepsInv | pkg/reconcilers/lease/lease.go:74-130 | every API call of every client keeps the invariant on the stored leases and on what each client has seen |
| Lease.HoldersApart | pkg/reconcilers/lease/lease.go:82-129 | any two stored leases of different holders are more than one lease interval apart |
| Lease.UpdateReplacesWhatWasChecked | pkg/reconcilers/lease/lease.go:104-128 | an update that takes effect appends the caller's lease to exactly the lease whose holder and expiry were checked, which was its own, or had no renew time, or had run out at the reading |
| Lease.MutualExclusion | pkg/reconcilers/lease/lease.go:82-129 | after one identity stored the lease at a reading, no other identity stores it with a reading at most one second later, over all runs |
| Lease.TakeoverExactly | pkg/reconcilers/lease/lease.go:74-130 | a call that nobody overtakes stores its lease if and only if the last stored one has a holder, which is the caller, or has no renew time, or has run out before the caller's reading |
| Lease.CreateExactly | pkg/reconcilers/lease/lease.go:82-96 | a call that finds no lease stores one from its first reading, unless another has been created by then |
| LinkClaims.StepKeepsInv | pkg/reconcilers/link/reconciler.go:62-283 | every step of every worker, reading each endpoint at any position of the cache, keeps what the worker's position implies about ownership |
| LinkClaims.OwnerChangesOnlyThroughFree | pkg/reconcilers/link/reconciler.go:204-283 | over every run an endpoint never passes directly from one link to another |
| LinkClaims.ReadyOwnsEverything | pkg/reconcilers/link/reconciler.go:122-143 | at the step that writes Ready the link owns every endpoint it names |
| LinkProgress.AttemptExactly | pkg/reconcilers/link/reconciler.go:87-227 | an undisturbed reconcile with a current cache ends Ready, owning all it names, if and only if every named endpoint exists and is free or its own and the two are not the same; otherwise it changes no owner, or starts a rollback where only they are the same |
| LinkProgress.DeletionExactly | pkg/reconcilers/link/reconciler.go:229-283 | an undisturbed deletion with a current cache frees exactly the endpoints that the link names and owns |
| LinkRollback.MissesOnlyBehind | pkg/reconcilers/link/reconciler.go:229-262 | over every run a release read misses what the link owns only if the cache is behind the link's own last write of that endpoint |
| LinkRollback.ReachingOwnWritesSuffices | pkg/reconcilers/link/reconciler.go:229-262 | if every release read comes from a cache that has reached the link's own last write, none misses |
| LinkRollback.RollbackOwnsMissed | pkg/reconcilers/link/reconciler.go:229-283 | a finished rollback leaves the link owning exactly the endpoints that its release reads missed |
| LinkRollback.AtRestOwnsAllOrMissed | pkg/reconcilers/link/reconciler.go:122-143 | a link at rest owns all of its endpoints or exactly the missed ones, unless it crashed or failed a release since it was last sound |
| LinkRollback.AllOrNothing | pkg/reconcilers/link/reconciler.go:122-143 | over runs without a missing read a link at rest owns all or none of its endpoints, with the same exception |
| LinkRollback.AllOrNothingExactly | pkg/reconcilers/link/reconciler.go:122-143 | all or nothing holds at rest if and only if the link owns everything or none of its endpoints was missed |
| LinkRollback.MissCanLeaveOwned | pkg/reconcilers/link/reconciler.go:229-283 | the converse: from any missing read of a rollback without failure some continuation ends the rollback with that endpoint still owned |
| LinkRollback.StaleRollbackLeavesOneClaimed | pkg/reconcilers/link/reconciler.go:122-143 | a concrete run without crash or release error that rests owning one of two endpoints |
| LinkRollback.RollbackOwnsNothing | pkg/reconcilers/link/reconciler.go:229-283 | without a missing read a finished rollback leaves the link owning none of its endpoints, whatever went before |
| LinkRollback.CrashLeavesOneClaimed | pkg/reconcilers/link/reconciler.go:204-215 | a crash between the two claims leaves one of two endpoints owned, so the exception is needed |
| Pipeline.StepKeepsBase | pkg/reconcilers/network/reconciler.go:98-213 | every step keeps the history monotone, stage-ordered and with references never ahead |
| Pipeline.StageOrder | pkg/reconcilers/networkdevice/reconciler.go:146-193 | over every run no stored object has its devices ready while its parameters are not |
| Pipeline.ReadyAfterNetworkWrite | apis/network/v1alpha1/network_interfaces.go:41-59 | after a status write of the network controller Ready is true exactly when both child conditions are |
| PipelineOutcomes.ReadyOnlyAfterSuccess | pkg/reconcilers/networkdevice/reconciler.go:166-193 | over every run, wherever a child condition turns True its own controller wrote it, and that worker's last outcome was that all devices are ready, or that the claims are applied |
| PipelineOutcomes.DeviceWriteTellsOutcome | pkg/reconcilers/networkdevice/reconciler.go:166-206 | over every run, a device status write that takes effect sets the device condition True exactly after a check that found all devices ready, and after any failure leaves neither condition True |
| PipelineOutcomes.ParamsWriteTellsOutcome | pkg/reconcilers/networkparams/reconciler.go:174-207 | over every run, a parameter status write that takes effect sets the parameter condition True exactly after the claims were applied |
| PipelineOutcomes.ParamsReconcile | pkg/reconcilers/networkparams/reconciler.go:153-193 | the stored claims and conditions after an undisturbed reconcile of the params controller, for every outcome |
| PipelineOutcomes.DeviceReconcile | pkg/reconcilers/networkdevice/reconciler.go:146-193 | the stored device specs and conditions after an undisturbed reconcile of the device controller, for every outcome of building, applying and checking |
| PipelineOutcomes.NetworkReconcile | pkg/reconcilers/network/reconciler.go:140-213 | the stored conditions after an undisturbed reconcile of the network controller: a reset exactly when the references have changed, else Ready recomputed, whatever the deployment returns |
| PipelineDeploys.DeploysFresh | pkg/reconcilers/network/reconciler.go:154-190 | where the network controller decides to deploy, the stored derivations match its snapshot and both deriving workers are idle |
| PipelineDeploys.NoStaleDeploy | pkg/reconcilers/network/reconciler.go:154-190 | in every interleaving without a risky read, while deploying, the stored claims and device specs were derived from exactly the spec and design of the snapshot |
| PipelineStale.RiskyReadLeadsToStaleDeploy | pkg/reconcilers/networkparams/reconciler.go:141-193 | from any risky read, a continuation without another one reaches a deployment of derivations that do not match its snapshot |
| PipelineStale.StaleDeployExactly | pkg/reconcilers/network/reconciler.go:154-190 | after any run without risky reads an action can be continued to a stale deployment, without a later risky read, if and only if it is itself a risky read |
| Pipeline.FailedDeployIsReportedReady | pkg/reconcilers/network/reconciler.go:185-227 | the condition set from the deploy's outcome says whether it succeeded, and the status written after it is Ready in every case |
| Pipeline.DeviceFailureRestartsClaims | pkg/reconcilers/networkdevice/reconciler.go:195-206 | the write of a device failure clears the parameter condition: the params controller starts over, the device controller stops, and one more stage is needed |
| Pipeline.CalmStepLowersRank | pkg/reconcilers/network/reconciler.go:154-183 | with spec and design fixed and no failure, a step leaves the stage alone or lowers the rank |
| Pipeline.MovesBoundedByRank | pkg/reconcilers/networkparams/reconciler.go:153-193 | at most as many stage-changing writes as the rank, five at most and two once the references are current |
| Pipeline.DeploysExactlyAtRankZero | pkg/reconcilers/network/reconciler.go:154-190 | a reconcile that reads the stored object deploys if and only if the rank is zero |
| PipelineRuns.StaleDeployThroughParams | pkg/reconcilers/networkparams/reconciler.go:141-193 | a concrete run to a risky read of the params controller and on to a stale deployment |
| PipelineRuns.StaleDeployThroughDevice | pkg/reconcilers/networkdevice/reconciler.go:146-193 | the same through the device controller |
| PipelineRuns.CalmRoundLowersRank | pkg/reconcilers/network/reconciler.go:154-183 | from rest with a rank above zero, some round of calm steps by one controller changes the stage once, lowers the rank by exactly one and ends at rest |
| PipelineRuns.BoundIsMet | pkg/reconcilers/network/reconciler.go:154-190 | from rest, some calm run changes the stage exactly as often as the rank says and then deploys |
| PipelineRuns.BoundExactly | pkg/reconcilers/network/reconciler.go:154-183 | from rest, no calm run changes the stage more than k times if and only if the rank is at most k |
| PipelineRuns.ThreeExactly | pkg/reconcilers/network/reconciler.go:154-183 | from rest, three stage changes suffice for every calm run if and only if the references are current or both children are ready |
| PipelineRuns.FiveMovesHappen | pkg/reconcilers/network/reconciler.go:154-183 | a fresh Network has a calm run with five stage changes that ends in the deployment |
| Names.LastDot | apis/network/v1alpha1/networkdesign_interfaces.go:216-321 | dotted names with dot-free last parts are equal only part by part |
| Names.LastPartOfDotted | apis/network/v1alpha1/network_interfaces.go:90-96 | the last part of a dotted name with a dot-free last part is that part |
| Names.CutAfterLastDot | pkg/reconcilers/networkdevice/reconciler.go:303-310 | the backward scan returns the part after the last dot, or the whole name without one |
| Names.PrintedInjective | apis/network/v1alpha1/device.go:86-90 | the printed sort key of a sub-interface determines its name and id |
| Names.LessExactly | apis/network/v1alpha1/device.go:86-90 | string comparison is decided by the first differing character, or by the end of a proper prefix |
| Names.DecimalExactly | apis/network/v1alpha1/device.go:86-90 | the printed id consists of digits that stand for it, most significant first and without leading zero |
| KeyedList.BeforeIsTotal | apis/network/v1alpha1/device.go:86-90 | the comparison given to the sort is a strict total order on the lookup keys, so sort key and lookup key agree |
| KeyedList.OneListing | apis/network/v1alpha1/device.go:77-92 | a set of keys has exactly one ascending listing |
| KeyedList.ListOrder | apis/network/v1alpha1/device.go:351-366 | a list ascends by names as strings, ids as numbers, and sub-interfaces as the strings name.id |
| KeyedList.SortStable | apis/network/v1alpha1/device.go:351-366 | the sort returns a permutation in which no later key comes before an earlier one and entries of equal key keep their order |
| KeyedList.SortedIn | apis/network/v1alpha1/device.go:351-366 | sorting an ascending list with one new key appended gives an ascending list of the same entries |
| KeyedList.Store.GetOrCreate | apis/network/v1alpha1/device.go:77-92 | returns the one entry of the key, the same object every time, creates and sorts in a missing one, and keeps all others |
| KeyedList.Store.AddOrUpdate | apis/network/v1alpha1/device.go:62-75 | changes the map the list stands for at exactly the given key |
| KeyedList.EqualViewsEqualLists | apis/network/v1alpha1/device.go:77-92 | lists of equal maps are equal entry by entry |
| InterfaceList.Interfaces.Add | pkg/devbuilder/devices.go:165-182 | replaces an equal entry where it stands and appends any other |
| InterfaceList.AddedAllExact | pkg/devbuilder/devices.go:165-182 | after any calls the list holds exactly the entries added, each once |
| InterfaceList.ListShowsCallOrder | pkg/devbuilder/devices.go:165-182 | for distinct entries the list is equal for two call orders only if the orders are equal |
| ConfigTree.LastWriter | pkg/devbuilder/devices.go:50-372 | a location is in the tree exactly when some call writes it, with the value of the last such call |
| ConfigTree.MergeOrderFree | pkg/devbuilder/devices.go:50-372 | calls that pairwise agree give one tree in any order and number |
| ConfigTree.GroundedExtend | pkg/devbuilder/devices.go:50-372 | calls that refer only to what is declared keep every reference resolving after each of them |
| Devices.PatchInstance | pkg/devbuilder/devices.go:153-195 | storing a changed network instance changes the device at exactly the cells of that instance that were patched |
| Devices.OspfItfPatched | apis/network/v1alpha1/device.go:432-489 | get-or-create of area and interface changes an OSPF instance at exactly the area and that interface |
| Devices.Devices.Store | pkg/devbuilder/devices.go:50-58 | a call on one node leaves the records of all nodes equal to the merged patches of all calls |
| Devices.Devices.AddInterface | pkg/devbuilder/devices.go:100-108 | creates the entry unless its name is empty, clears its VLAN tagging, and changes nothing else |
| Devices.Devices.AddSubInterface | pkg/devbuilder/devices.go:120-138 | replaces the sub-interface's fields, tags the interface when there is a VLAN, and changes nothing else |
| Devices.Devices.AddTunnelSubInterface | pkg/devbuilder/devices.go:140-151 | creates the tunnel interface if needed and sets the sub-interface's type, and changes nothing else |
| Devices.Devices.AddInstanceItf | pkg/devbuilder/devices.go:165-182 | adds the interface to the instance's list once, and changes nothing else |
| Devices.Devices.AddOspfItf | pkg/devbuilder/devices.go:261-274 | creates instance and area if needed and replaces the interface's fields, and changes nothing else |
| Devices.Devices.AddIsisItf | pkg/devbuilder/devices.go:216-228 | creates the instance if needed and replaces the interface's fields, and changes nothing else |
| Devices.Devices.AddNeighbor | pkg/devbuilder/devices.go:276-284 | replaces the neighbor of the peer address unless that is empty, and changes nothing else |
| Devices.Devices.AddPeerGroup | pkg/devbuilder/devices.go:296-304 | replaces the peer group's fields unless its name is empty, and changes nothing else |
| Underlay.EndNodesGathered | pkg/devbuilder/builder.go:314-368 | after successful links the processed-node set is the domain of the nodes map |
| UnderlayEntries.ItfTreeEntries | pkg/devbuilder/builder.go:371-406 | a link end writes only entries of its own node, sub-interface and addresses |
| UnderlayEntries.BaseTreeEntries | pkg/devbuilder/builder.go:314-369 | a node's base configuration writes only entries of that node and its system interface |
| UnderlayEntries.ItfGrounded | pkg/devbuilder/builder.go:371-406 | within a per-interface function every reference resolves after every call |
| UnderlayEntries.ItfGroups | pkg/devbuilder/builder.go:550-604 | at the end of a per-interface function every neighbor's peer group exists |
| UnderlayLayers.LinkTreeLayered | pkg/devbuilder/builder.go:74-82 | every location holds what some link end writes, or else the base configuration of its node, or nothing |
| UnderlayLayers.OutcomeByLink | pkg/devbuilder/builder.go:186-312 | with distinct node names the loop succeeds exactly when each link succeeds on its own |
| UnderlayFailures.OutcomeExactly | pkg/devbuilder/builder.go:186-312 | the first link that is not buildable decides: an error if and only if an end lacks its inventory node or a claim, a nil dereference if and only if both ends gather but one has no device type or a nil timer is overridden |
| UnderlayFailures.SmallPanics | pkg/devbuilder/builder.go:303-312 | one link between two nodes builds, or dereferences nil exactly when the label is missing or a timer is overridden that the design leaves nil |
| UnderlayFailures.MeshPanicsExactly | pkg/devbuilder/builder.go:92-165 | once links and reflector claims are gathered, the build dereferences nil if and only if some node is an edge and some reflector's address is of a family in which the design gives nodes no loopback |
| UnderlayLayers.NodesAreGathered | pkg/devbuilder/builder.go:242-312 | each node in the map is what some link end's identifier gathers to |
| UnderlayLayers.NodesOrderFree | pkg/devbuilder/node.go:47-74 | the gathered nodes do not depend on the order of the links |
| UnderlayTheorems.GuardIsPureSpeedup | pkg/devbuilder/builder.go:314-369 | without the guard the build ends with an equal tree when no link meets a node with an earlier endpoint called system0 |
| UnderlayTheorems.GuardIsPureSpeedupExactly | pkg/devbuilder/builder.go:314-369 | for links that share no endpoint the guard is a pure speed-up if and only if that condition holds |
| UnderlayTheorems.LinksGrounded | pkg/devbuilder/builder.go:314-604 | the loop over the links keeps every reference resolving after every call and every peer group present |
| UnderlayTheorems.UnderlayIntegrity | pkg/devbuilder/builder.go:69-604 | after every single call of a successful build every reference resolves on its device, and at the end every neighbor's peer group exists |
| UnderlayContents.UnderlayHolds | pkg/devbuilder/builder.go:69-604 | after a successful build an entry is there if and only if a reflector's host, an edge, a link end or its node gives it, and it has the value of the first of these, stated by link, design and claim for every kind of entry |
| UnderlayContents.EndFields | pkg/devbuilder/link.go:117-283 | the final sub-interface, OSPF and IS-IS entry of every link end, field by field: addresses by numbering, network type, passive and BFD from the link's setting or the default |
| UnderlayContents.NodesHold | pkg/devbuilder/builder.go:242-312 | every node that holds configuration is named by a link end, was found, and carries its own claims' values and the inventory's provider, system id and role |
| UnderlayContents.GatheredExactly | pkg/devbuilder/builder.go:242-312 | a node is gathered if and only if its inventory record, system id and needed claims are there, and added if and only if it is labelled too |
| UnderlayContents.EndClaimedExactly | pkg/devbuilder/builder.go:204-238 | a link end gathers if and only if the claims under its own names have values |
| UnderlayOrder.ItfTreesAgree | pkg/devbuilder/builder.go:371-604 | in a well-posed build no two link ends write different values to one location |
| UnderlayOrder.SuccessOrderFree | pkg/devbuilder/builder.go:69-90 | whether a build succeeds does not depend on the order of the links |
| UnderlayOrder.OrderFreeExactly | pkg/devbuilder/builder.go:69-165 | with distinct node names, all orders of links and map iterations leave one tree if and only if no two links, edges or reflector hosts write different values to a location that no later phase overwrites |
| UnderlayOrder.WellPosedIsHarmonious | pkg/devbuilder/builder.go:69-165 | distinct names, endpoints and addresses, uniform BGP BFD per node and one reflector per node suffice for that |
| UnderlayOrder.TimersOrderFreeExactly | pkg/devbuilder/link.go:143-169 | the BFD timers that the links leave do not depend on their order if and only if BFD is off or links that override one timer give it one value |
| UnderlayOrder.OrderIndependence | pkg/devbuilder/builder.go:69-165 | for any permutation of well-posed links and any map iteration orders successful builds leave equal trees, and equal BFD timers if the overrides agree |
| SameRecords.CellsFixDevice | pkg/devbuilder/devices.go:50-372 | two devices that hold the same at every path have the same records, up to the order of an instance's interface list |
| SameRecords.EqualTreesSameRecords | pkg/devbuilder/devices.go:50-372 | equal merged patches of all calls mean the same records on every device |
| SameRecords.BuildsLeaveSameRecords | pkg/devbuilder/builder.go:69-165 | two successful builds of links for which no order matters, in any order of links and map iterations, leave the same records on every device |
| SameRecords.BuildsLeaveSameLists | apis/network/v1alpha1/device.go:62-92 | and the same sorted lists, entry by entry, shown for the interfaces of any device and the neighbors of any instance |
| UnderlaySessions.SessionOfEveryEnd | pkg/devbuilder/builder.go:550-587 | every numbered link end has its session in the final tree with exactly its own values, overwritten by nothing |
| UnderlaySessions.EndOwnsAddress | pkg/devbuilder/link.go:117-141 | the device of a numbered link end has a sub-interface with the address its sessions use |
| UnderlaySessions.SessionComesFromEnd | pkg/devbuilder/builder.go:550-587 | every underlay session of the final tree is some link end's |
| UnderlaySessions.EbgpSessionsAreSymmetric | pkg/devbuilder/builder.go:550-587 | every underlay neighbor has its mirror, with addresses and AS numbers exchanged, on the device owning its peer address |
| UnderlayMesh.LoopbackClaimInjective | pkg/devbuilder/builder.go:136-140 | a reflector name is the loopback claim of at most one node and family |
| UnderlayMesh.EdgeEnd | pkg/devbuilder/builder.go:97-131 | an edge's session with a reflector ends in the tree with the edge's own loopback as local address |
| UnderlayMesh.HostEnd | pkg/devbuilder/builder.go:132-163 | the reflector's session with an edge ends in the tree with the reflector's address as local address |
| UnderlayMesh.MeshSessionsMatch | pkg/devbuilder/builder.go:92-165 | each edge and reflector pair has both ends of its session, and each end's local address is the address the other peers with |
| UnderlayMesh.MeshIsExact | pkg/devbuilder/builder.go:92-184 | the overlay neighbors are exactly the edge and reflector pairs in both directions |
| UnderlayAgreement.EndDecides | pkg/devbuilder/builder.go:371-406 | an entry that names a link end's sub-interface keeps that end's value in the final tree |
| UnderlayAgreement.IgpEndsAgree | pkg/devbuilder/builder.go:444-468 | both ends of a link have equal OSPF entries in one area and equal IS-IS entries in the final tree |
| UnderlayAgreement.LevelsAreDropped | apis/network/v1alpha1/device.go:339-349 | the final IS-IS entry of a link end has no level settings, and is what was computed for it if and only if the design's levels meet no metric and no exclusion of the link |
| UnderlayAgreement.BfdEntriesExact | pkg/devbuilder/builder.go:387-395 | a sub-interface has a BFD entry if and only if a link with BFD switched on ends there |
| UnderlayDevices.BaseDecides | pkg/devbuilder/builder.go:314-369 | base values that no link end writes survive every later link and the mesh |
| UnderlayDevices.DeviceAs | pkg/devbuilder/builder.go:528-548 | every gathered device runs BGP in the AS of its own AS claim under EBGP, and in the design's AS otherwise |
| UnderlayDevices.SessionAsIsDeviceAs | pkg/devbuilder/builder.go:550-587 | a session's local and peer AS are the AS numbers its two devices run BGP in |
| UnderlayDevices.RouterIdsAgree | pkg/devbuilder/builder.go:419-443 | OSPF and BGP of a device use one router id, the address of the node's IPv4 loopback or router id claim |
| UnderlayDevices.SystemOwnsLoopback | pkg/devbuilder/builder.go:330-344 | a device's system interface ends owning its loopback address unless an endpoint is called system0 there |
| UnderlayDevices.MeshSessionsOwned | pkg/devbuilder/builder.go:92-165 | the local address of an edge's mesh session is owned by the edge and the reflector's address by the device that hosts it |
| BfdCells.OverrideAll | pkg/devbuilder/link.go:148-167 | writes exactly the overridden timers through the cells, and fails exactly when one of them is nil |
| BfdCells.BfdTable.GetUnderlayBfdParameters | apis/network/v1alpha1/networkdesign_interfaces.go:743-751 | returns the design's own record, or a fresh empty one |
| BfdCells.BfdTable.GetBfdLinkParameters | pkg/devbuilder/link.go:143-169 | sets a fresh enabled flag and overrides the design's own timer cells |
| BfdCells.BfdTable.AddBfdEnd | pkg/devbuilder/builder.go:387-395 | adds a copy of the record under the end's sub-interface exactly when BFD is on, sharing the timer cells |
| BfdCells.TimersAreLastOverrides | pkg/devbuilder/link.go:148-167 | each timer holds the value that the last link to override it gives it, switched on or off, and the design's value if none does |
| BfdCells.BfdTable.AddLinks | pkg/devbuilder/builder.go:387-395 | after all links the entries are exactly those of links with BFD on, each with its own flag and each timer as last overridden; the entries read what their own links mean if and only if the links have one meaning |
| BfdCells.IsolatedExactly | pkg/devbuilder/link.go:143-169 | every link with an interface entry finds its own timers if and only if all such links mean one record and each timer was last overridden, by any link, to that record's value, in particular without overrides |
| BfdCells.OneOverrideReachesAll | pkg/devbuilder/link.go:143-169 | two links built in turn, the second overriding a timer and switched on or off: the first link's entry reads that value instead of its own |
| Builder.DeviceBuilder.GatherNodeInfo | pkg/devbuilder/builder.go:242-312 | succeeds exactly when the inventory node, its system id and every needed claim are there, adds the node exactly when it has a device type, and then with the values of its own claims |
| Builder.DeviceBuilder.GatherLinkAndNodeInfo | pkg/devbuilder/builder.go:186-240 | succeeds exactly when both ends gather in turn, and then holds both ends' nodes and returns each end's AS and addresses |
| Builder.GatheredLink.GetUnderlaySubInterface | pkg/devbuilder/link.go:117-141 | builds the sub-interface of an end from the gathered addresses, named after the other end |
| Builder.DeviceBuilder.GetIsisInterface | pkg/devbuilder/link.go:218-283 | creates a level's settings exactly where the design runs the level and the link excludes it or has a metric |
| Builder.DeviceBuilder.UpdateBaseDeviceConfig | pkg/devbuilder/builder.go:314-369 | adds the base configuration of exactly the ends not processed before, and dereferences nil exactly when an end's node is absent |
| Builder.DeviceBuilder.UpdateUnderlayEbgpInterface | pkg/devbuilder/builder.go:550-604 | extends the log by the end's neighbors or dynamic neighbors per family and its peer group |
| Builder.DeviceBuilder.UpdateUnderlayInterfaceDeviceConfig | pkg/devbuilder/builder.go:371-406 | extends the log by both link ends and the timers by one override, or dereferences a nil timer |
| Builder.DeviceBuilder.GatherRRInfo | pkg/devbuilder/builder.go:167-184 | succeeds exactly when every reflector name has a ready claim, and then holds each reflector's address and family |
| Builder.DeviceBuilder.ProcessEdges | pkg/devbuilder/builder.go:96-130 | in any iteration order fails exactly when an edge lacks a loopback of a reflector's family, and else writes exactly the edge phase's entries and collects exactly the edges' addresses per reflector |
| Builder.DeviceBuilder.ProcessHosts | pkg/devbuilder/builder.go:131-163 | in any iteration order fails exactly when a host with edges to peer with lacks such a loopback, and else writes exactly the reflector phase's entries |
| Builder.DeviceBuilder.BuildUnderlay | pkg/devbuilder/builder.go:69-90 | returns the specified outcome, nil dereferences of links and mesh included, and on success leaves trees of a log that the underlay theorems speak of |
| Builder.DeviceBuilder.AddBridgePort | pkg/devbuilder/builder.go:606-681 | fails exactly when endpoint, node id or inventory record is missing, else extends the log by the bridge port |
| Builder.DeviceBuilder.AddRouterItf | pkg/devbuilder/builder.go:682-818 | fails exactly when the interface cannot be placed or its bridge is absent, else extends the log by the router interface |
| Builder.DeviceBuilder.SplitAddresses | pkg/devbuilder/builder.go:753-765 | splits the parsable addresses by family, in order |
| Builder.DeviceBuilder.BuildOverlay | pkg/devbuilder/builder.go:606-818 | succeeds exactly when every static interface passes its checks, and then leaves exactly their log |
| Builder.DeviceBuilder.Build | pkg/devbuilder/builder.go:62-67 | builds the underlay for the default network and the overlay for every other |
| Overlay.ItemsExact | pkg/devbuilder/builder.go:606-690 | the processed interfaces are exactly the static interfaces of the bridges and routers |
| OverlayContents.SuccessExactly | pkg/devbuilder/builder.go:606-818 | the overlay succeeds if and only if every static interface has its node and endpoint with a record, or as an irb its node and a bridge of the network |
| OverlayContents.OverlayHolds | pkg/devbuilder/builder.go:606-818 | an entry is there if and only if some static interface gives it, with the value that one of them gives, stated by bridge, router and inventory for every kind of entry |
| OverlayContents.PortsPlaced | pkg/devbuilder/builder.go:643-813 | the sub-interfaces are exactly those of the recorded endpoints, the routers' endpoints and irb0 under their network ids, each with type, VLAN and addresses, and listed in its instance |
| OverlayTheorems.ItemTreeExact | pkg/devbuilder/builder.go:606-814 | the exact locations one static interface writes, and its values in its own network instance |
| OverlayTheorems.OverlayIntegrity | pkg/devbuilder/builder.go:606-818 | after every single call of an overlay build every sub-interface and VXLAN tunnel that an entry refers to is on its device |
| OverlayTheorems.EvpnResolvesExactly | pkg/devbuilder/builder.go:669-673 | the interface that every EVPN entry names exists on its device if and only if the design has VXLAN or there is no static interface, and with VXLAN after every call |
| OverlayTheorems.InstancesExact | pkg/devbuilder/builder.go:606-818 | a device has an instance if and only if a static interface of it or an irb into it is on the device |
| OverlayTheorems.InterfacesExact | pkg/devbuilder/builder.go:606-818 | an instance's interfaces are exactly its declared ports and the irb entries joining it |
| OverlayTheorems.PortsExact | pkg/devbuilder/builder.go:752-812 | the sub-interfaces are exactly the static interfaces' ports, each with the VLAN and exactly the parsable addresses by family of one of the interfaces it stands for, and of all of them if they agree |
| OverlayTheorems.PortsKeptExactly | pkg/devbuilder/builder.go:752-812 | every static interface keeps its own VLAN and addresses if and only if interfaces that share a sub-interface of a device have equal values |
| OverlayTheorems.TaggedExactly | pkg/devbuilder/devices.go:120-138 | an interface is VLAN-tagged if and only if it carries a port other than irb |
| OverlayTheorems.DevicesAgree | pkg/devbuilder/builder.go:669-677 | all devices with a static interface of a service carry its EVI, route targets and type, and no other device does |
| OverlayTheorems.TypedExactly | pkg/devbuilder/builder.go:785-812 | every instance has a type if and only if each irb's bridge also has a static interface on that device |
| Inventory.GetLinks | pkg/devbuilder/api.go:50-80 | returns the infra links of the namespace in list order, whatever the node groups of their ends |
| Inventory.InfraLinksExact | pkg/reconcilers/networkparams/reconciler.go:305-333 | a link is returned if and only if some link of the namespace labelled infra is it |
| Inventory.OwnLinksExactly | pkg/devbuilder/api.go:60-79 | the returned list is the topology's own links if and only if no infra link of the namespace has an end in another node group |
| Inventory.ForeignEndsFail | pkg/devbuilder/builder.go:242-250 | for a fully described topology with served claims the links end in an error if and only if some infra link of the namespace has an end whose identifier is not a node of this topology |
| Claims.PathInjective | apis/network/v1alpha1/networkdesign_interfaces.go:321-330 | under one network name dotted paths of dot-free parts are equal only part by part |
| Claims.ClaimNamesDistinct | apis/network/v1alpha1/networkdesign_interfaces.go:216-435 | for dot-free names and each endpoint on one link, two created claims of one kind with one name are one claim |
| Claims.SelectorNamesCreatedClaim | apis/network/v1alpha1/networkdesign_interfaces.go:365-385 | an endpoint's address is taken from the link prefix claimed in the same set |
| Claims.AppliedExactly | pkg/reconcilers/networkparams/reconciler.go:209-244 | the applied set holds every created claim under its name with its own labels |
| Claims.AppliedHolds | apis/network/v1alpha1/networkdesign_interfaces.go:216-435 | a claim with its name and labels is applied if and only if a node or a link is given it, stated by node, endpoint and family |
| Claims.ApplyDefaultNetwork | pkg/reconcilers/networkparams/reconciler.go:209-244 | the loops over nodes and links apply exactly the claims of the nodes and links |
| Claims.NodeServed | pkg/devbuilder/builder.go:242-300 | once the applied claims are served a node finds its loopback or router id, and its AS if there is a pool |
| Claims.DesignClaimsApart | apis/network/v1alpha1/networkdesign_interfaces.go:114-152 | the design's own AS claims and the network's are different objects unless there is a pool and a node is called aspool, or ibgp beside an IBGP AS; node claims select the design's pool claim |
| Claims.ServedExactly | pkg/devbuilder/builder.go:186-312 | once the applied claims are served the builder gets through all links of a described topology, unless EBGP has no pool and some end node's AS claim does not come from elsewhere |
| Claims.ClaimsSufficeExactly | pkg/devbuilder/builder.go:186-312 | where the end nodes' AS claims come from the network or its design alone, it gets through if and only if the EBGP section, if any, has a pool, or every end node is called ibgp beside an IBGP AS |
| Claims.DeviceNameRoundTrip | apis/network/v1alpha1/device.go:28-42 | getNodeName undoes the device name of exactly the dot-free node names |

## Left out

- PipelineDeploys.NoStaleDeploy: the provider that fills the rendered configuration is external, so the theorem covers the derived claims and device specs.
- UnderlayOrder.OrderFreeExactly: assumes distinct node names; of two identifiers with one node name the first that is gathered stays, and which that is depends on the order.
- UnderlayOrder.OrderIndependence: the well-posedness it assumes is sufficient only; OrderFreeExactly has the exact condition.
- SameRecords.BuildsLeaveSameRecords: two builds may still differ in network instances in which nothing was ever set, and in the order of an instance's interface list, which shows the order of the calls.
- Claims.ClaimsSufficeExactly: where a network's claim and the design's have one name, which of the two controllers' specs the stored object carries is not modelled; that it has a value is assumed with the other claims.
- Claims.AppliedExactly: the resource set is a map by kind and name in which a later claim replaces an earlier one; the set's library code is not part of this model.
- Devices: the nested records are values that the class's map field is reassigned with, not structs updated through pointers; the sorted lists are held as the maps that KeyedList proves them to be, and the BFD timers are covered by BfdCells. A sub-interface's, neighbor's or interface entry's field group is one value. Locks are left out, since one build is one goroutine.
- Deletion, finalizers, requeueing, events, logging and the gitops annotation of the Network object.
- The device-package, topology, network-design and containerlab code, and generated API code.
- IP parsing, SHA-1, JSON and KuidString are parameters or assumed injective; an address that does not parse on the underlay path is not modelled, except the missing loopback of a mesh session.
- Address-family lists, loopback prefix lists and IS-IS net identifiers are taken from the design as given.
- A link has exactly two endpoints. Where a node identifier is the same in two topologies, KuidString does not tell them apart, as in the code.
- Non-default networks create no claims, as in the code.
