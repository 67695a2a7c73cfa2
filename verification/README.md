# Verified model of proxmox-k3s

proxmox-k3s creates and deletes K3s clusters on a Proxmox server. It keeps no state of its own: which VMs belong to a
cluster, in which role and pool, is read back from tag strings on the VMs. This project models the engine that lists,
plans, provisions, rolls back and deletes, together with the small algorithms it rests on, and proves what they keep over
whole histories of runs in which any call may fail.

## How the model is built

| file | what it models |
|---|---|
| `Wrappers`, `Collections` | Option and Result; facts about finite maps and sets |
| `Text`, `Tags` | splitting, trimming, decimal printing; the tags that carry cluster, role and pool |
| `Modular`, `Addresses`, `Ipam` | 16-byte addresses as counters modulo 2^128; the pool with its aliased cursor; the allocator |
| `Domain`, `Plan` | pools and node names; the address plan of a configuration |
| `Placement`, `PlacementSteps` | round-robin placement, called in sequence and by concurrent callers |
| `Server`, `Provider` | the Proxmox server as a table of VMs; listing, creating and deleting one node |
| `Create`, `Delete` | the pipelines: provisioning with rollback, deletion with its failure list |
| `History`, `Addressing`, `Convergence`, `Leftovers`, `Ownership` | properties of every sequence of runs |
| `Scenarios` | whole runs against servers that serve everything, or refuse configurations or stops |
| `CloneSemaphore` | the per-host clone semaphore as a step system of concurrent calls |
| `Kubeconfig`, `WaitTask` | rewriting and merging kubeconfig files; task polling with a doubling pause |

The server is a map from VMID to VM (name, host, tags, template flag, running, `ipconfig0`). `Server.Effect` gives the effect
of each request, as in the repository's fake server, with `ipconfig0` stored as well. Any call may go wrong: a server has a
script, an arbitrary function that says of the k-th call whether a read is answered and, of a request, whether it is rejected,
accepted at once or accepted with a task, whether it takes effect, how many polls find the task running and what the last
poll sees. A rejected request may have taken effect all the same. Only this is relied on: an accepted request without a task,
and a task that ended well, have taken effect; a request has settled by the time the next one is sent; and `nextid` answers
with a positive id that no VM has (the fake's own counter would arrive at the id of its template). The server keeps the
list of all calls and, for the specification, the list of those that went wrong.

The imperative classes (`Proxmox`, `ProxmoxProvider`, the two `Pipeline`s, `RoundRobin`, `IPPool`, `StaticAllocator`, the
semaphore `Table`) are proved to do what the calls that went wrong say: a step fails only for a bad call of its own, or for a
missing host or template; a deletion fails exactly on a fatal fault for its VM; a create run succeeds exactly when it is
feasible (`Create.Feasible`: targets online, template there, plan possible, a host for whatever is missing) and nothing went
wrong. Their effects on the VM table are the relations `Create.CreateRun` and `Delete.DeleteRun`. The theorems about histories
are about every sequence of states that those relations allow, for any clusters in any order. The relation for a failed run
also covers a run that is killed at any call (`History.KilledRunCovered`, `Delete.KilledRunCovered`). `Scenarios` runs the
pipelines against servers that serve every call well, refuse every configuration, refuse stops, or let only the deletes end
well.

Text functions of Go's `net` package are parameters (`Ipam.Codec`): the parser, the formatter and the prefix length of a
CIDR. Where it matters, the formatter is required to be inverse to the parser and to write no "/". Case folding of one character is a parameter
of the kubeconfig merge.

What a configuration must satisfy is collected in `History.ValidCluster`: positive counts, which validation ensures; the
master pool named "master", which the loader ensures; pairwise different pool names, a cluster name without ';' and
without trailing white space, and pool names without ';', which nothing checks. What happens without them is stated too:
`Domain.NamesDistinctIff`, `History.UniqueAfterFirstRunIff`, `Tags.FoundAgainIff` and `Tags.PoolAddsTags`.

## Where code and documentation disagree

The model follows the code.

* ROADMAP.md:75 and README.md:73 promise that a failure while provisioning leaves no orphaned VM. The node whose creation
  failed is not rolled back, since only completed nodes are (create.go:250-260). `Create.NoOrphanIff` gives the exact
  condition, in terms of what is there before the run: the promise holds if and only if the run is not feasible or has
  nothing to create, so exactly when it never gets as far as a clone. `Scenarios.OrphanRun` is the run of the pipeline that
  breaks it in every other case. A leftover that stopped between clone and configuration has no tags, so no later run, create
  or delete, ever sees it (`Leftovers.HistoryLeaves`); one that stopped after configuration is adopted by the next run and
  never started (`Convergence.HalfMadeIsAdopted`).
* docs/configuration.md:449 requires unique pool names; no code checks it, nor that no worker pool is called "master".
* The planner collects the addresses of existing nodes and never reads them (create.go:144-149). The plan is a function of
  the configuration alone, so an address moves as soon as a configuration grows anywhere but at its tail
  (`Plan.AddressesKeptIff`), and a new VM then gets the address of one that is there exactly when some new name stands where
  the old configuration has one (`Addressing.CollidesIff`), as after enlarging any pool but the last
  (`Addressing.EnlargingDisplaces`).
* A range whose end lies before its start is no error; it wraps around the address space (`Addresses.ReversedRange`).
* Merging a kubeconfig refreshes clusters but never contexts or users, so a re-created cluster keeps the old credentials
  (`Kubeconfig.CredentialsUsed`), and a context that differs only by case keeps the new one out
  (`Kubeconfig.NewContextIff`).
* docs/architecture.md:165-166 describes `--no-rollback` and a rollback after a timeout in phase 5; the flag only changes a
  printed hint, and a failure in phase 5 rolls nothing back.

## Model

| member | source | states |
|---|---|---|
| `Tags.PrintedMatches` | internal/adapter/proxmox/provider.go:319-339 | a printed tag string matches a tag exactly when that is one of its three tags, less trailing white space |
| `Tags.ClusterRoundTrip` | internal/adapter/proxmox/provider.go:319-339 | a printed tag string matches the tag of exactly one cluster name: the printed one without trailing white space |
| `Tags.RoleRoundTrip` | internal/adapter/proxmox/provider.go:118-121 | a printed tag string matches the master tag exactly for the master role |
| `Tags.PoolRoundTrip` | internal/adapter/proxmox/provider.go:319-349 | the pool extracted from a printed tag string is the printed pool without trailing white space |
| `Tags.FoundAgainIff` | internal/adapter/proxmox/provider.go:107-116 | a VM is listed under the cluster name it was tagged with if and only if that name has no ';' and no trailing white space |
| `Tags.PoolAddsTags` | internal/adapter/proxmox/provider.go:319-326 | a ';' in a pool name puts the VM into every cluster whose tag follows it |
| `Tags.TagText` | internal/adapter/proxmox/provider.go:319-326 | the very text of the tags |
| `Addresses.SpaceSize` | internal/adapter/ipam/static.go:21-22 | 16-byte addresses form a space of 2^128 |
| `Addresses.IncrementValue` | internal/adapter/ipam/static.go:68-75 | incrementing with carry is plus one modulo 256^n |
| `Addresses.RangeClosedForm` | internal/adapter/ipam/static.go:31-39 | a range has ((end - start) mod 2^128) + 1 entries and entry i is start + i modulo 2^128 |
| `Addresses.RangeInjective` | internal/adapter/ipam/static.go:31-39 | no address occurs twice in a range |
| `Addresses.RangeMembership` | internal/adapter/ipam/static.go:55-66 | x is in the range exactly when (x - start) mod 2^128 is below its size |
| `Addresses.RangeEnds` | internal/adapter/ipam/static.go:31-39 | a range begins with its start and ends with its end |
| `Addresses.ReversedRange` | internal/adapter/ipam/static.go:21-39 | swapping the end points gives a valid range of 2^128 + 2 less the original size |
| `Ipam.IncrementIP` | internal/adapter/ipam/static.go:68-75 | the byte loop, in place, leaves the array incremented with carry |
| `Ipam.Enumerate` | internal/adapter/ipam/static.go:31-39 | although the cursor is the start array itself, the loop ends and the entries are the range from the original start; start ends up equal to end |
| `Ipam.ParsePool` | internal/adapter/ipam/static.go:15-42 | which part of a range text is rejected, and the entries of the pool for every accepted one |
| `Ipam.RangeAsWritten` | internal/adapter/ipam/static.go:16-29 | in "x-y", with any white space around each, the start is what x parses to and the end what y parses to; an unparsable x or y is its own error |
| `Ipam.NoDash` | internal/adapter/ipam/static.go:16-19 | a text without a dash is no range |
| `Ipam.PoolAsWritten` | internal/adapter/ipam/static.go:15-42 | the pool of "x-y" goes from the address x to the address y |
| `Ipam.IPPool.Get` | internal/adapter/ipam/static.go:44-49 | entry index as text, or the range error for every other index |
| `Ipam.IPPool.Contains` | internal/adapter/ipam/static.go:55-66 | true exactly for texts that parse to an entry |
| `Ipam.GetInjective` | internal/adapter/ipam/static.go:44-66 | different indices give different texts, and each parses back to its entry, so it is contained |
| `Ipam.StaticAllocator.IPConfigForIndex` | internal/adapter/ipam/static.go:95-115 | the setting for an index, or the pool's error; the setting reads as the entry's address, the digits of the CIDR's prefix length (24 without one) and the gateway, if there is one |
| `Ipam.IPConfigReads` | internal/adapter/ipam/static.go:101-114 | every setting reads like that |
| `Ipam.ReadsOneWay` | internal/adapter/ipam/static.go:110-113 | a setting reads in one way only: address, prefix length and gateway come back |
| `Text.DecimalValue` | internal/adapter/ipam/static.go:106 | decimal printing gives digits that stand for the number, without leading zeros |
| `Text.TrimPadded` | internal/adapter/ipam/static.go:21-22 | trimming takes off exactly the white space around a text |
| `Text.TrimResult` | internal/adapter/ipam/static.go:21-22 | every text is its trimmed text with white space around it, and that has none at its ends |
| `Ipam.IPConfigInjective` | internal/adapter/ipam/static.go:95-115 | within one network, settings agree exactly when the addresses do |
| `Domain.NameInjective` | internal/usecase/create/create.go:155 | node names agree exactly when "cluster-pool" and the index agree, whatever dashes and digits the parts contain |
| `Domain.NameInjectiveInCluster` | internal/usecase/create/create.go:155-168 | within a cluster a name determines pool and index |
| `Domain.NamesMeetAcrossClusters` | internal/usecase/create/create.go:155 | two clusters can have nodes of the same name |
| `Domain.PositionOf` | internal/usecase/create/create.go:152-176 | node i of pool p has the position (sum of earlier counts) + i |
| `Domain.PoolAt` | internal/usecase/create/create.go:152-176 | every position belongs to a pool and an index, so nothing else is named |
| `Domain.NamesDistinctIff` | internal/usecase/create/create.go:154-176 | no name is produced twice if and only if the pool names are pairwise different |
| `Plan.PlanIPs` | internal/usecase/create/create.go:121-179 | computes the plan of the configuration, or its error, whatever nodes exist |
| `Plan.AddPool` | internal/usecase/create/create.go:154-164 | one pool's loop extends the plan by its names and the next settings |
| `Plan.PlanSucceedsIff` | internal/usecase/create/create.go:126-142 | a static plan fails exactly on a bad range or on fewer addresses than nodes |
| `Plan.PlanKeys` | internal/usecase/create/create.go:151-178 | the keys of a plan are exactly the names the provisioning loops produce |
| `Plan.PlanExact` | internal/usecase/create/create.go:151-178 | the name at position k gets the address start + k |
| `Plan.PlanByPool` | internal/usecase/create/create.go:154-176 | node i of pool p gets start + (sum of earlier counts) + i |
| `Plan.PlanReads` | internal/usecase/create/create.go:126-178 | the whole plan for a range "x-y": the name at position k reads address x + k, the CIDR's prefix length and the gateway |
| `Plan.PlanInjective` | internal/usecase/create/create.go:151-178 | no two names of a plan share a setting |
| `Plan.PositionsKeptIff` | internal/usecase/create/create.go:152-176 | all old names keep their positions if and only if the configuration grows at the tail |
| `Plan.AddressesKeptIff` | internal/usecase/create/create.go:144-176 | a second plan keeps every address of the first if and only if the configuration grows at the tail |
| `Placement.FilterOnline` | internal/adapter/proxmox/placement/placement.go:78-91 | the two loops compute the usable hosts in listing order |
| `Placement.EligibleIff` | internal/adapter/proxmox/placement/placement.go:84-89 | a host is eligible exactly when listed, online and not excluded |
| `Placement.EligibleOnceEach` | internal/adapter/proxmox/placement/placement.go:84-89 | each usable host is eligible as often as it is listed |
| `Placement.EligibleInOrder` | internal/adapter/proxmox/placement/placement.go:84-89 | the eligible hosts stand in listing order |
| `Placement.RoundRobin.Pick` | internal/adapter/proxmox/placement/placement.go:23-35 | the host at the counter modulo the eligible hosts, the counter moved on by one; no host and no change when none is eligible |
| `Placement.PickIsUsable` | internal/adapter/proxmox/placement/placement.go:23-35 | every pick is a listed host that is online and not excluded |
| `Placement.PicksGoRound` | internal/adapter/proxmox/placement/placement.go:30-34 | picks go round the eligible hosts in order, beginning with the first |
| `Placement.PickedClosedForm` | internal/adapter/proxmox/placement/placement.go:29-32 | how often a host is picked in a window, as a difference of two quotients |
| `Placement.Fairness` | internal/adapter/proxmox/placement/placement.go:23-35 | in any window of n picks over m hosts each is picked floor(n/m) or ceil(n/m) times |
| `Placement.FairnessOfHosts` | internal/adapter/proxmox/placement/placement.go:23-35 | the same from the listing, for distinct host names |
| `PlacementSteps.FairInAnyInterleaving` | internal/adapter/proxmox/placement/placement.go:29-34 | the same for any number of concurrent callers, in every interleaving of their steps |
| `PlacementSteps.OwnPickReturned` | internal/adapter/proxmox/placement/placement.go:29-34 | a caller gets the host of its own latest pick, whatever others do in between |
| `PlacementSteps.UndisturbedPick` | internal/adapter/proxmox/placement/placement.go:29-34 | a caller nobody disturbs takes four steps to the result and the counter of `RoundRobin.Pick` |
| `Server.Proxmox.ListResources` | internal/adapter/proxmox/testserver/server.go:201-235 | a listing shows every VM once and nothing else |
| `Server.Proxmox.NextID` | internal/adapter/proxmox/testserver/server.go:237-240 | an id, if given, is positive and unused (the contract, stronger than the fake's counter) |
| `Server.Proxmox.Perform` | internal/adapter/proxmox/testserver/server.go:339-436 | a request has the effect of its kind or none, as the script says; the reply and the record of what went wrong follow the script |
| `Server.Proxmox.WaitTask` | internal/adapter/proxmox/client/task.go:16-46 | the polling loop on a task's polls: good exactly if there is such a task and its last poll sees it stopped with OK |
| `Provider.ProxmoxProvider.Preflight` | internal/adapter/proxmox/provider.go:71-99 | passes exactly when every call is answered, all targets are online and the template exists; changes nothing |
| `Provider.ProxmoxProvider.ListNodes` | internal/adapter/proxmox/provider.go:101-137 | each tagged VM that is no template exactly once, with the role and pool its tags say; no template is listed, whatever its tags |
| `Provider.ListedAs` | internal/adapter/proxmox/provider.go:110-132 | a VM tagged for a cluster, a role and a pool is listed with exactly that role and pool, under its own name, id and host |
| `Provider.ListedOnly` | internal/adapter/proxmox/provider.go:110-116 | whatever is listed is no template and carries the cluster's tag |
| `Provider.OnlineIffEligible` | internal/adapter/proxmox/provider.go:81-92 | a target counts as online exactly if it could be picked |
| `Provider.ProxmoxProvider.FindTemplate` | internal/adapter/proxmox/node/node.go:54-65 | the first template of the configured name in the listing; none exactly if the listing is not answered or shows none |
| `Provider.FirstTemplateAt` | internal/adapter/proxmox/node/node.go:59-63 | it is a template of the name, and no listed resource before it is |
| `Provider.TemplateListed` | internal/adapter/proxmox/node/node.go:54-65 | a listing shows a template of the name exactly if there is one |
| `Provider.ListingNames` | internal/adapter/proxmox/provider.go:101-137 | the names in a listing are exactly those of the cluster's tagged VMs |
| `Provider.ProxmoxProvider.CreateNode` | internal/adapter/proxmox/provider.go:139-251 | touches one unused id only, on the template's host; the calls made, in order; a failing step is explained by one bad call of that step, or by no host or no template, and step and call together give the stage left behind; success is a running, tagged, addressed VM reported on the round-robin pick; the slot is given back on every path |
| `Provider.ProxmoxProvider.Prepare` | internal/adapter/proxmox/provider.go:140-162 | host, template and id, or the step that failed and why; the counter moves exactly if a host was picked |
| `Provider.ProxmoxProvider.Build` | internal/adapter/proxmox/provider.go:168-237 | the part inside the semaphore; tags and address are set together, so no VM ever has one without the other; fails only for a bad call, a clone without a task among them |
| `Provider.ProxmoxProvider.Request` | internal/adapter/proxmox/provider.go:208-217 | one request and the wait for its task: good exactly if nothing went wrong with it, and then it has taken effect |
| `Provider.ProxmoxProvider.DeleteNode` | internal/adapter/proxmox/provider.go:288-307 | fails exactly if the stop is refused for another reason than "not running", or the delete is refused or its task goes wrong; the VM is gone exactly if the delete was sent and took effect; no other VM changes |
| `Create.ToCreateNames` | internal/usecase/create/create.go:187-241 | the names to create are exactly the desired ones that are not listed |
| `Create.ToCreateSpecs` | internal/usecase/create/create.go:187-241 | no name is created twice, and each spec belongs to the configuration |
| `Create.ToCreateInOrder` | internal/usecase/create/create.go:187-241 | nodes are created in the order of the desired names |
| `Create.SpecsMatchNames` | internal/usecase/create/create.go:189-241 | the provisioning loops and the planning loops produce the same names in the same order |
| `Create.Pipeline.PlanCreation` | internal/usecase/create/create.go:182-241 | the loops compute the list of missing nodes |
| `Create.Pipeline.AddMissing` | internal/usecase/create/create.go:189-213 | one pool's loop appends its missing nodes |
| `Create.Pipeline.Rollback` | internal/usecase/create/create.go:382-394 | every node of the session is tried; exactly those are reported for which a call went fatally wrong; exactly those remain whose deletion had no effect, and nothing else changes |
| `Create.Pipeline.CreateAll` | internal/usecase/create/create.go:247-262 | all nodes made in order, configured, started and reported, with nothing wrong; or the failing name, its step, why, and the exact state after the rollback |
| `Create.Pipeline.ProvisionNodes` | internal/usecase/create/create.go:181-263 | diff and create, with the same account of a failure; with nothing to create, no call is made |
| `Create.Pipeline.Run` | internal/usecase/create/create.go:26-59 | succeeds exactly when the run is feasible and no call goes wrong; has the effect `CreateRun`; success reports existing and created nodes split by role; every failure is accounted for, with the calls that were made; with nothing missing, or no plan, no changing request is sent, whatever the outcome |
| `Create.GaveUp` | internal/usecase/create/create.go:252-256 | an attempt that failed, then the rollback of the completed ones: which node, which step, why, what is left and whose deletion failed |
| `Create.SplitByRole` | internal/usecase/create/create.go:400-409 | the two sublists by role, in order |
| `Create.ByRoleIff` | internal/usecase/create/create.go:400-409 | every node is in exactly the sublist of its role |
| `Create.SplitComplete` | internal/usecase/create/create.go:400-409 | the two sublists hold every node once |
| `Create.RunKeeps` | internal/usecase/create/create.go:181-263 | a create run of any outcome changes no VM that was there |
| `Create.RollbackExact` | internal/usecase/create/create.go:247-263 | after a failed run: the initial table, plus VMs whose rollback was reported as failed, plus at most the VM of the failing attempt |
| `Create.NoOrphanIff` | internal/usecase/create/create.go:247-260 | all failed runs leave the VM table as it was if and only if the run is not feasible or has nothing to create |
| `Create.LeftByStep` | internal/usecase/create/create.go:250-256 | after a failed creation the VM of the failing attempt is there if and only if its clone took effect, an earlier one if and only if its deletion had no effect, and the table is the old one if and only if there is none of either |
| `Scenarios.OrphanRun` | internal/usecase/create/create.go:250-256 | on a server that refuses configurations, every feasible run with something to create fails and leaves a VM without tags, one more that no listing shows |
| `Scenarios.CleanRun` | internal/usecase/create/create.go:26-59 | on a server that serves every call well, every feasible run succeeds, all desired names are listed, and every new VM is tagged and running |
| `Scenarios.PatientDelete` | internal/adapter/proxmox/provider.go:289-306 | stops refused because a VM is not running, or stop tasks that go wrong, keep no delete run from removing the cluster |
| `Scenarios.StubbornDelete` | internal/adapter/proxmox/provider.go:289-292 | with every stop refused for another reason a delete run removes nothing, and fails if there is anything to remove |
| `Scenarios.CleanDelete` | internal/usecase/delete/delete.go:21-57 | on such a server a delete run leaves no VM of the cluster |
| `Delete.Pipeline.DeleteAll` | internal/usecase/delete/delete.go:41-49 | every node is tried despite failures, with a delete unless its stop was refused; the failure list is exactly the names of those that met a fatal fault, in order; exactly those remain whose deletion had no effect |
| `Delete.Pipeline.Run` | internal/usecase/delete/delete.go:21-57 | succeeds exactly when the listing is answered and no node of the cluster meets a fatal fault, and then leaves no VM of it; VMs of others, untagged VMs and templates, tagged or not, never change; an error after the listing names exactly the nodes that met one, and exactly those remain whose deletion had no effect |
| `Delete.DeleteKeepsTemplates` | internal/usecase/delete/delete.go:21-57 | a delete run of any outcome leaves every template as it was |
| `Delete.ProgressEnds` | internal/usecase/delete/delete.go:41-56 | going through a complete listing is a complete delete run |
| `Delete.KilledRunCovered` | internal/usecase/delete/delete.go:41-49 | a delete run killed at any call leaves a state that failed delete runs can leave |
| `History.KilledRunCovered` | internal/usecase/create/create.go:247-260 | a run killed at any call, also during rollback, leaves a state that failed runs can leave |
| `History.MadeMember` | internal/adapter/proxmox/provider.go:101-137 | a VM made for a spec is listed for its own cluster alone, from configuration on |
| `History.NewMember` | internal/usecase/create/create.go:181-263 | a newly listed VM belongs to the run's cluster and has a name that was not listed |
| `History.CreateKeepsUnique` | internal/usecase/create/create.go:181-263 | a create run, whatever its outcome, keeps names unique within every cluster |
| `History.DeleteKeepsUnique` | internal/usecase/delete/delete.go:21-57 | so does a delete run |
| `History.HistoryUnique` | internal/usecase/create/create.go:181-263 | in every state that any sequence of runs for any clusters reaches, no two VMs tagged for one cluster share a name |
| `History.HistoryUniqueFor` | internal/usecase/create/create.go:181-263 | the same for one cluster, whatever the names of the others |
| `History.HistoryTemplates` | internal/adapter/proxmox/provider.go:110-113 | over any history no run changes a template and no listing shows one, whatever tags it carries |
| `History.UniqueAfterFirstRunIff` | internal/usecase/create/create.go:187-262 | the VMs of a complete first run have different names if and only if the pool names are pairwise different |
| `Addressing.MadeHolds` | internal/adapter/proxmox/provider.go:182-208 | a tagged VM made under an earlier configuration holds its address under the latest one, whatever became of gateway and CIDR, as tags and address come in one request |
| `Addressing.StepwiseGrowth` | internal/usecase/create/create.go:144-176 | configurations that grow at the tail from run to run all grow at the tail into the latest one |
| `Addressing.HistoryAddressed` | internal/usecase/create/create.go:121-263 | over any sequence of runs, if the cluster's configurations grow at the tail over one range, every VM listed for it holds the address start + its position, written as one of the networks used writes it, if that is so at first, as with no VMs |
| `Addressing.NoSharedAddress` | internal/usecase/create/create.go:121-263 | then no two VMs of the cluster share an address, not even with different gateways or prefixes |
| `Addressing.OneAddressEach` | internal/usecase/create/create.go:121-263 | the whole: with no VM of the cluster at first and growth at the tail from run to run, no two VMs listed for it ever share an address, over any sequence of runs |
| `Addressing.AddressesAgree` | internal/usecase/create/create.go:121-263 | if the network never changed, each has the very setting the latest plan gives its name |
| `Addressing.CollidesIff` | internal/usecase/create/create.go:144-176 | a run after a complete first run of another configuration gives a new VM the address of an existing one if and only if a name only the second asks for stands at a position the first fills |
| `Addressing.EnlargingDisplaces` | internal/usecase/create/create.go:152-176 | enlarging any pool but the last puts a new name at such a position, so addresses collide |
| `Addressing.TailGrowthDisplacesNothing` | internal/usecase/create/create.go:144-176 | growth at the tail never does that |
| `Addressing.DhcpRun` | internal/adapter/proxmox/provider.go:196-200 | in DHCP mode planning succeeds with no setting, and every VM a run adds carries "ip=dhcp" |
| `Convergence.NamesGrow` | internal/usecase/create/create.go:181-263 | any create run keeps the listed names and adds desired ones only |
| `Convergence.SuccessNames` | internal/usecase/create/create.go:33-58 | after a complete run the listed names are the old ones and the desired ones |
| `Convergence.NothingMissingIff` | internal/usecase/create/create.go:243-245 | there is nothing to create exactly when all desired names are listed |
| `Convergence.SecondRunChangesNothing` | internal/usecase/create/create.go:181-245 | a further run of the same configuration, whatever its outcome, leaves the VM table as it is |
| `Convergence.FailuresDoNotMatter` | internal/usecase/create/create.go:33-58 | any number of failed runs before a complete one give the same names |
| `Convergence.HalfMadeIsAdopted` | internal/usecase/create/create.go:182-193 | a VM left configured but not started counts as existing and stays stopped after the next complete run |
| `Leftovers.CompleteLeavesNone` | internal/usecase/create/create.go:247-262 | a complete run adds no VM that listings do not show |
| `Leftovers.BrokenLeaves` | internal/usecase/create/create.go:250-256 | a failed run adds exactly one such VM if its last attempt stopped between clone and configuration, else none |
| `Leftovers.HistoryLeaves` | internal/usecase/create/create.go:250-256 | over any history at most one more such VM for each failed create run, and no run removes or changes one |
| `Leftovers.LeftoverPossible` | internal/usecase/create/create.go:250-256 | any feasible run with something to create may leave one, as `Scenarios.OrphanRun` does |
| `Ownership.ProperDetermines` | internal/adapter/proxmox/provider.go:319-349 | name and tags of a cluster's node match that cluster alone, and a master's name implies the master tag |
| `Ownership.HistoryProper` | internal/usecase/create/create.go:181-263 | in every reachable state a listed VM carries name and tags of one node of the cluster that lists it |
| `Ownership.HistoryOneCluster` | internal/adapter/proxmox/provider.go:101-137 | in every reachable state a VM is listed for at most one cluster |
| `Ownership.RunsAreIsolated` | internal/usecase/delete/delete.go:41-49 | a run for one cluster neither changes the VMs listed for another nor lists a new one for it |
| `Ownership.MastersPresent` | internal/usecase/create/create.go:58-59 | after provisioning every desired master is among the masters, so there is a first one to bootstrap |
| `Ownership.SplitByName` | internal/usecase/create/create.go:58-59 | after provisioning a node is among the masters exactly if its name is that of a master of the cluster, and among the workers exactly if it is not |
| `Ownership.DesiredPresent` | internal/usecase/create/create.go:58-59 | every desired name is in one of the two |
| `CloneSemaphore.Table.CloneSemaphore` | internal/adapter/proxmox/provider.go:309-317 | the lookup under the mutex is the system's step: the host's channel, or a new one |
| `CloneSemaphore.Table.Send` | internal/adapter/proxmox/provider.go:165 | with a free slot, the system's step into the section; without one the thread cannot get on |
| `CloneSemaphore.Table.Receive` | internal/adapter/proxmox/provider.go:166 | the system's step that gives the slot back |
| `CloneSemaphore.StepKeepsInv` | internal/adapter/proxmox/provider.go:164-166 | every step keeps mutual exclusion, one channel per host, and counts equal to the threads inside, at most two |
| `CloneSemaphore.AtMostTwo` | internal/adapter/proxmox/provider.go:164-166 | in every interleaving a host's occupancy is the number of threads in its section, and at most two |
| `CloneSemaphore.OneChannelForEver` | internal/adapter/proxmox/provider.go:309-317 | a host never gets a second channel |
| `CloneSemaphore.NoDeadlock` | internal/adapter/proxmox/provider.go:164-166 | while some call has not returned, some call can get on, by more than a poll and without failing; a thread waiting for the mutex has its holder to wait for, one waiting for a slot the threads inside |
| `CloneSemaphore.AlwaysFinite` | internal/adapter/proxmox/provider.go:164-237 | besides polls of running tasks, no interleaving has more steps than the sum of the calls' ranks |
| `CloneSemaphore.Finished` | internal/adapter/proxmox/provider.go:164-166 | an interleaving in which no call can get on, failures aside, has returned from every call and all slots are free |
| `Kubeconfig.RewriteKubeconfig` | internal/adapter/k3s/kubeconfig.go:42-64 | every cluster gets the new name and "https://VIP:6443", every context the new name and user, every user NAME-admin, and the current context is the new name; everything else is kept |
| `Kubeconfig.MergeConfigs` | internal/adapter/k3s/kubeconfig.go:105-133 | the loops compute the merge on which the following rows are proved |
| `Kubeconfig.ClusterExists` | internal/adapter/k3s/kubeconfig.go:135-142 | finds a cluster of that name if there is one |
| `Kubeconfig.ContextExists` | internal/adapter/k3s/kubeconfig.go:144-151 | finds a context of that name up to case if there is one |
| `Kubeconfig.UserExists` | internal/adapter/k3s/kubeconfig.go:153-160 | finds a user of that name if there is one |
| `Kubeconfig.MergeClustersClosed` | internal/adapter/k3s/kubeconfig.go:108-118 | clusters: base order, then new names at their first occurrence, each shared or new name with its last entry |
| `Kubeconfig.AppendNewClosed` | internal/adapter/k3s/kubeconfig.go:120-130 | contexts and users: the base list, then new entries at their first occurrence |
| `Kubeconfig.FirstNewMeans` | internal/adapter/k3s/kubeconfig.go:108-130 | each appended entry is the first of its name: neither the base nor an earlier entry has it |
| `Kubeconfig.EqualFoldIff` | internal/adapter/k3s/kubeconfig.go:146 | names are equal up to case exactly if they are so character by character |
| `Kubeconfig.OneUpToCase` | internal/adapter/k3s/kubeconfig.go:120-124 | contexts whose names differ by case only count as one |
| `Kubeconfig.LatestMeans` | internal/adapter/k3s/kubeconfig.go:108-118 | the entry a name ends up with is the last one of that name |
| `Kubeconfig.MergeIdempotent` | internal/adapter/k3s/kubeconfig.go:105-133 | merging the same file again changes nothing |
| `Kubeconfig.MergeKeepsUnique` | internal/adapter/k3s/kubeconfig.go:105-133 | merging keeps names unique, contexts up to case, whatever the new file holds |
| `Kubeconfig.MergeKeepsClosed` | internal/adapter/k3s/kubeconfig.go:105-133 | every context still names a present cluster and user |
| `Kubeconfig.RewrittenClosedIff` | internal/adapter/k3s/kubeconfig.go:49-60 | a rewritten file is closed exactly when it has no context, or a cluster and a user |
| `Kubeconfig.BaseClusters` | internal/adapter/k3s/kubeconfig.go:108-118 | after rewrite and merge, base clusters stay in place; those of the new name point at the VIP, the others are untouched |
| `Kubeconfig.PointsAtVipIff` | internal/adapter/k3s/kubeconfig.go:48-52 | every cluster of the new name points at the VIP if and only if the new file has a cluster or the old ones pointed there |
| `Kubeconfig.OldEntriesStay` | internal/adapter/k3s/kubeconfig.go:120-132 | contexts, users and current context of the base are never refreshed |
| `Kubeconfig.NewContextIff` | internal/adapter/k3s/kubeconfig.go:120-124 | when the merged file has a context of the new name |
| `Kubeconfig.CredentialsUsed` | internal/adapter/k3s/kubeconfig.go:126-130 | which credentials are found under the new user name: the old ones if there were any |
| `Kubeconfig.TwoClusters` | internal/adapter/k3s/kubeconfig.go:126-130 | two clusters merged one after the other each keep their own credentials |
| `WaitTask.WaitTask` | internal/adapter/proxmox/client/task.go:16-46 | the wait watched up to any number of polls: still going on exactly if no poll so far ends it; else the result, the number of polls and the time slept, by the first poll that does; success exactly if that poll, not cancelled, saw exit status OK; a cancellation, a failed poll and another exit status are each their own error |
| `WaitTask.PollTimes` | internal/adapter/proxmox/client/task.go:17-45 | when poll k is made, in closed form |
| `WaitTask.PollingBound` | internal/adapter/proxmox/client/task.go:16-46 | a task that stops at T is reported at D with D - T <= 3000, D <= 2T + 500, after at most D/3000 + 2 polls |
| `WaitTask.StoppedTaskIsSeen` | internal/adapter/proxmox/client/task.go:20-45 | a task that stops does end the wait |

## Left out

- Server.Proxmox.NextID: assumes that `nextid` returns an unused id; the fake server's counter would reach its own template.
- Server.Proxmox.Perform: a request that has been answered takes no effect later on, and one client uses the server at a time.
- Placement.RoundRobin.Pick: does not model the counter's overflow after 2^63 picks.
- Server.Proxmox.WaitTask: in a whole run every wait ends; a task that never does would keep the run going for ever. The time a request takes is not modelled.
- Provider.ProxmoxProvider.Acquire: the pipelines make one call at a time, so it finds a free slot; waiting for one is the subject of the step system.
- Plan.PlanIPs: the set of existing addresses is not built, since nothing reads it.
- Kubeconfig.MergeConfigs: works on values, so that the result may overwrite the backing array of the base's cluster slice is not captured.
- Provider.ProxmoxProvider.CreateNode: sizes, nameservers, SSH keys, storage and network devices, labels and taints are not modelled; like in the fake server, a clone's host is its template's, whatever host was asked for.
- Phases 5 to 9 of a create run (waiting for guests, bootstrap, workers, addons, writing the kubeconfig): remote shell commands and foreign code; bootstrap depends on a listing order and on probes that the code does not control.
- Least-loaded placement, the size catalog, defaults and field validation: single-branch checks that would only add easy members.
- HTTP, TLS, JSON, authentication, SSH, YAML, files, prompts and logging: input and output. An empty kubeconfig file is not merged into but replaced by the new one.
- IP parsing and printing, and Unicode case folding: parameters of the model.
- VMID range, target nodes during creation, anti-affinity, retries and parallel clones in the pipeline: described in the documentation, without effect on the modelled code.
