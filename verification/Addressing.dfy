/** Static addresses over histories of runs: every listed VM holds the address the latest plan gives its name. */
module Addressing {
  import opened Wrappers
  import opened Addresses
  import opened Ipam
  import opened Domain
  import opened Placement
  import opened Plan
  import opened Server
  import opened Provider
  import opened Create
  import opened Delete
  import opened History
  import opened Convergence

  /** Growth at the tail with one range, in static mode. The gateway and the CIDR may change. */
  predicate GrowsInto(c: Cluster, d: Cluster) {
    && c.name == d.name && c.network.mode == "static" && d.network.mode == "static" && c.network.range == d.network.range
    && TailGrowth(c.Pools(), d.Pools())
  }

  /** The VM's name stands at position k of the configuration, and the VM holds the address start + k, written as one of the
      given networks writes it. */
  ghost predicate HoldsAddress(codec: Codec, c: Cluster, networks: set<Network>, vm: VM, k: nat) {
    && k < |c.DesiredNames()| && vm.name == c.DesiredNames()[k]
    && exists n :: n in networks && SettingAt(codec, n, k, vm.ipConfig)
  }

  ghost predicate Addressed(codec: Codec, c: Cluster, networks: set<Network>, vms: VMs) {
    forall id :: id in vms && Member(vms[id], c.name) ==> exists k: nat :: HoldsAddress(codec, c, networks, vms[id], k)
  }

  /** Every create run of the cluster used a configuration that grows at the tail into the latest one, with one of the given
      networks. */
  ghost predicate GrowInto(events: seq<Event>, networks: set<Network>, latest: Cluster) {
    forall i :: 0 <= i < |events| && events[i].Created? && events[i].cluster.name == latest.name ==>
                  GrowsInto(events[i].cluster, latest) && events[i].cluster.network in networks
  }

  // The configurations used for a cluster, in order.
  function ConfigsOf(events: seq<Event>, name: string): seq<Cluster> {
    if events == [] then []
    else
      var e := events[|events| - 1];
      ConfigsOf(events[..|events| - 1], name) + if e.Created? && e.cluster.name == name then [e.cluster] else []
  }

  // Each configuration grows at the tail into the next one.
  predicate GrowsStepwise(configs: seq<Cluster>) {
    forall i :: 0 <= i < |configs| - 1 ==> GrowsInto(configs[i], configs[i + 1])
  }

  lemma {:induction false} ConfigsHold(events: seq<Event>, name: string, i: nat)
    requires i < |events| && events[i].Created? && events[i].cluster.name == name
    ensures events[i].cluster in ConfigsOf(events, name)
  {
    if i >= |events| - 1 {
    } else {
      ConfigsHold(events[..|events| - 1], name, i);
    }
  }

  lemma {:induction false} GrowsIntoLater(configs: seq<Cluster>, i: nat, j: nat)
    requires GrowsStepwise(configs) && i < j < |configs|
    ensures GrowsInto(configs[i], configs[j])
  {
    if i >= j - 1 {
    } else {
      GrowsIntoLater(configs, i, j - 1);
      TailGrowthTransitive(configs[i].Pools(), configs[j - 1].Pools(), configs[j].Pools());
    }
  }

  // The networks of some configurations.
  ghost function NetworksOf(configs: seq<Cluster>): set<Network> {
    set c | c in configs :: c.network
  }

  /** Growing at the tail from run to run is growing at the tail into the latest configuration. */
  lemma StepwiseGrowth(events: seq<Event>, latest: Cluster)
    requires GrowsStepwise(ConfigsOf(events, latest.name) + [latest])
    ensures GrowInto(events, NetworksOf(ConfigsOf(events, latest.name)), latest)
    ensures forall n :: n in NetworksOf(ConfigsOf(events, latest.name)) ==> n.range == latest.network.range
  {
    var configs := ConfigsOf(events, latest.name);
    forall c | c in configs ensures c.network.range == latest.network.range {
      var j :| 0 <= j < |configs| && configs[j] == c;
      GrowsIntoLater(configs + [latest], j, |configs|);
    }
    forall i | 0 <= i < |events| && events[i].Created? && events[i].cluster.name == latest.name
      ensures GrowsInto(events[i].cluster, latest) && events[i].cluster.network in NetworksOf(configs)
    {
      ConfigsHold(events, latest.name, i);
      var j :| 0 <= j < |configs| && configs[j] == events[i].cluster;
      GrowsIntoLater(configs + [latest], j, |configs|);
    }
  }

  // The spec of a name carries the setting of the name's position.
  lemma SpecSettingAt(codec: Codec, c: Cluster, spec: NodeSpec, p: nat, i: nat)
    requires ValidCluster(c) && c.network.mode == "static" && PlanOf(codec, c).Ok?
    requires IsSpec(c, PlanOf(codec, c).value, p, i, spec)
    ensures spec.name == NodeName(c.name, c.Pools()[p].name, i + 1) && spec.mode == "static"
    ensures SettingAt(codec, c.network, TotalCount(c.Pools()[..p]) + i, spec.ipConfig)
  {
    hide PlanOf, NodeName, TotalCount, SettingAt;
    PlanByPool(codec, c, p, i);
  }

  lemma SpecSetting(codec: Codec, c: Cluster, spec: NodeSpec) returns (k: nat)
    requires ValidCluster(c) && c.network.mode == "static"
    requires PlanOf(codec, c).Ok? && SpecIn(c, PlanOf(codec, c).value, spec)
    ensures k < |c.DesiredNames()| && c.DesiredNames()[k] == spec.name
    ensures SettingAt(codec, c.network, k, spec.ipConfig) && spec.mode == "static"
  {
    hide PlanOf, NodeName, TotalCount, SettingAt, NamesOf;
    var p: nat, i: nat :| IsSpec(c, PlanOf(codec, c).value, p, i, spec);
    k := TotalCount(c.Pools()[..p]) + i;
    PositionOf(c.name, c.Pools(), p, i);
    SpecSettingAt(codec, c, spec, p, i);
  }

  lemma SettingNotEmpty(codec: Codec, network: Network, k: nat, setting: string)
    requires SettingAt(codec, network, k, setting)
    ensures setting != ""
  {
  }

  // A VM made for a spec of an earlier configuration holds its address under the latest one.
  lemma MadeHolds(codec: Codec, c: Cluster, latest: Cluster, networks: set<Network>, spec: NodeSpec, vm: VM, stage: Stage)
    requires ValidCluster(c) && ValidCluster(latest) && GrowsInto(c, latest) && c.network in networks
    requires PlanOf(codec, c).Ok? && SpecIn(c, PlanOf(codec, c).value, spec)
    requires MadeFor(vm, spec, stage) && (stage == Configured || stage == Started)
    ensures exists k: nat :: HoldsAddress(codec, latest, networks, vm, k)
  {
    var k := SpecSetting(codec, c, spec);
    PositionsKeptIff(c.name, c.Pools(), latest.Pools());
    assert latest.DesiredNames()[k] == c.DesiredNames()[k];
    SettingNotEmpty(codec, c.network, k, spec.ipConfig);
    assert HoldsAddress(codec, latest, networks, vm, k);
  }

  lemma CreateKeepsAddressed(codec: Codec, hosts: seq<Host>, before: VMs, after: VMs, c: Cluster, ok: bool,
                             networks: set<Network>,
                             latest: Cluster)
    requires ValidCluster(c) && ValidCluster(latest)
    requires CreateRun(codec, hosts, before, after, c, ok) && Addressed(codec, latest, networks, before)
    requires c.name == latest.name ==> GrowsInto(c, latest) && c.network in networks
    ensures Addressed(codec, latest, networks, after)
  {
    hide HoldsAddress;
    var specs, ids := CreateGrows(codec, hosts, before, after, c, ok);
    assert Untouched(before, after);
    forall id | id in after && Member(after[id], latest.name)
      ensures exists k: nat :: HoldsAddress(codec, latest, networks, after[id], k)
    {
      if id !in before {
        var i := NewMember(codec, before, after, c, specs, ids, id, latest.name);
        var stage := if MadeFor(after[id], specs[i], Configured) then Configured else Started;
        MadeHolds(codec, c, latest, networks, specs[i], after[id], stage);
      } else {
        assert Member(before[id], latest.name);
      }
    }
  }

  lemma DeleteKeepsAddressed(codec: Codec, before: VMs, after: VMs, name: string, ok: bool, networks: set<Network>,
                             latest: Cluster)
    requires DeleteRun(before, after, name, ok) && Addressed(codec, latest, networks, before)
    ensures Addressed(codec, latest, networks, after)
  {
    DeleteKeepsIdentity(before, after, name, ok);
    forall id | id in after && Member(after[id], latest.name)
      ensures exists k: nat :: HoldsAddress(codec, latest, networks, after[id], k)
    {
      var k: nat :| HoldsAddress(codec, latest, networks, before[id], k);
      assert HoldsAddress(codec, latest, networks, after[id], k);
    }
  }

  lemma StepKeepsAddressed(codec: Codec, before: VMs, e: Event, after: VMs, networks: set<Network>, latest: Cluster)
    requires StepOf(codec, before, e, after) && ValidCluster(latest) && Addressed(codec, latest, networks, before)
    requires e.Created? && e.cluster.name == latest.name ==> GrowsInto(e.cluster, latest) && e.cluster.network in networks
    ensures Addressed(codec, latest, networks, after)
  {
    match e
    case Created(c, hosts, ok) => CreateKeepsAddressed(codec, hosts, before, after, c, ok, networks, latest);
    case Deleted(name, ok) => DeleteKeepsAddressed(codec, before, after, name, ok, networks, latest);
  }

  /** Over any sequence of runs for any clusters whose configurations for this cluster grow at the tail into the latest one,
      in static mode and with one range, every VM listed for the cluster holds the address start + its position under the
      latest configuration, written as one of the networks used writes it. They do in the beginning if there are none. */
  lemma {:induction false} HistoryAddressed(codec: Codec, states: seq<VMs>, events: seq<Event>, networks: set<Network>,
                                            latest: Cluster, k: nat)
    requires Runs(codec, states, events) && ValidCluster(latest) && GrowInto(events, networks, latest) && k <= |events|
    requires Addressed(codec, latest, networks, states[0])
    ensures Addressed(codec, latest, networks, states[k])
  {
    hide Addressed, StepOf;
    if k == 0 {
    } else {
      HistoryAddressed(codec, states, events, networks, latest, k - 1);
      assert StepOf(codec, states[k - 1], events[k - 1], states[k - 1 + 1]);
      StepKeepsAddressed(codec, states[k - 1], events[k - 1], states[k], networks, latest);
    }
  }

  /** So no two VMs of the cluster share an address, not even in different spellings, if the networks have one range. */
  lemma NoSharedAddress(codec: Codec, vms: VMs, networks: set<Network>, latest: Cluster, i: nat, j: nat, cidr: string,
                        gateway: string, cidr': string, gateway': string, a: Address)
    requires codec.Valid() && forall b: Address :: '/' !in codec.format(b)
    requires forall n :: n in networks ==> n.range == latest.network.range
    requires Addressed(codec, latest, networks, vms) && UniqueFor(vms, latest.name)
    requires i in vms && j in vms && Member(vms[i], latest.name) && Member(vms[j], latest.name)
    requires vms[i].ipConfig == IPConfig(codec, cidr, gateway, a) && vms[j].ipConfig == IPConfig(codec, cidr', gateway', a)
    ensures i == j
  {
    var k: nat :| HoldsAddress(codec, latest, networks, vms[i], k);
    var l: nat :| HoldsAddress(codec, latest, networks, vms[j], l);
    HeldAddress(codec, latest, networks, vms[i], k, cidr, gateway, a);
    HeldAddress(codec, latest, networks, vms[j], l, cidr', gateway', a);
    AddressAtInjective(codec, latest.network.range, k, l, a);
  }

  // The address of a VM that holds one, however it is written.
  lemma HeldAddress(codec: Codec, c: Cluster, networks: set<Network>, vm: VM, k: nat, cidr: string, gateway: string, a: Address)
    requires codec.Valid() && forall b: Address :: '/' !in codec.format(b)
    requires forall n :: n in networks ==> n.range == c.network.range
    requires HoldsAddress(codec, c, networks, vm, k) && vm.ipConfig == IPConfig(codec, cidr, gateway, a)
    ensures AddressAt(codec, c.network.range, k, a)
  {
    var n :| n in networks && SettingAt(codec, n, k, vm.ipConfig);
    var b: Address :| vm.ipConfig == IPConfig(codec, n.cidr, n.gateway, b) && AddressAt(codec, n.range, k, b);
    SettingTellsAddress(codec, cidr, gateway, a, n.cidr, n.gateway, b);
  }

  /** Static addressing, from the start: if no VM is listed for the cluster at first and its configurations grow at the tail
      from run to run, then after any number of runs, for whatever clusters and with whatever outcome, no two VMs listed for
      the cluster share an address. */
  lemma OneAddressEach(codec: Codec, states: seq<VMs>, events: seq<Event>, latest: Cluster, k: nat, i: nat, j: nat, cidr: string,
                       gateway: string, cidr': string, gateway': string, a: Address)
    requires codec.Valid() && forall b: Address :: '/' !in codec.format(b)
    requires Runs(codec, states, events) && k <= |events| && ValidCluster(latest)
    requires Names(states[0], latest.name) == {} && GrowsStepwise(ConfigsOf(events, latest.name) + [latest])
    requires i in states[k] && j in states[k] && Member(states[k][i], latest.name) && Member(states[k][j], latest.name)
    requires states[k][i].ipConfig == IPConfig(codec, cidr, gateway, a)
    requires states[k][j].ipConfig == IPConfig(codec, cidr', gateway', a)
    ensures i == j
  {
    hide StepOf, GrowsStepwise, GrowInto, HoldsAddress, IPConfig;
    var networks := NetworksOf(ConfigsOf(events, latest.name));
    MembersNamed(states[0], latest.name);
    StepwiseGrowth(events, latest);
    HistoryAddressed(codec, states, events, networks, latest, k);
    HistoryUniqueFor(codec, states, events, latest.name, k);
    NoSharedAddress(codec, states[k], networks, latest, i, j, cidr, gateway, cidr', gateway', a);
  }

  /** If the network never changed, each of those VMs has the very setting the latest plan gives its name, and no two share
      one. */
  lemma AddressesAgree(codec: Codec, vms: VMs, latest: Cluster)
    requires codec.Valid() && ValidCluster(latest) && latest.network.mode == "static"
    requires Addressed(codec, latest, {latest.network}, vms) && UniqueFor(vms, latest.name)
    ensures PlanOf(codec, latest).Ok? ==>
              forall id :: id in vms && Member(vms[id], latest.name) ==>
                vms[id].name in PlanOf(codec, latest).value && PlanOf(codec, latest).value[vms[id].name] == vms[id].ipConfig
    ensures forall i, j | i in vms && j in vms && Member(vms[i], latest.name) && Member(vms[j], latest.name) ::
              vms[i].ipConfig == vms[j].ipConfig ==> i == j
  {
    hide PlanOf, SettingAt;
    if PlanOf(codec, latest).Ok? {
      forall id | id in vms && Member(vms[id], latest.name)
        ensures vms[id].name in PlanOf(codec, latest).value && PlanOf(codec, latest).value[vms[id].name] == vms[id].ipConfig
      {
        PlanAgrees(codec, vms[id], latest);
      }
    }
    forall i, j | i in vms && j in vms && Member(vms[i], latest.name) && Member(vms[j], latest.name)
                  && vms[i].ipConfig == vms[j].ipConfig
      ensures i == j
    {
      var a: nat :| HoldsAddress(codec, latest, {latest.network}, vms[i], a);
      var b: nat :| HoldsAddress(codec, latest, {latest.network}, vms[j], b);
      SettingAtInjective(codec, latest.network, a, b, vms[i].ipConfig);
    }
  }

  lemma PlanAgrees(codec: Codec, vm: VM, latest: Cluster)
    requires codec.Valid() && ValidCluster(latest) && latest.network.mode == "static" && PlanOf(codec, latest).Ok?
    requires exists k: nat :: HoldsAddress(codec, latest, {latest.network}, vm, k)
    ensures vm.name in PlanOf(codec, latest).value && PlanOf(codec, latest).value[vm.name] == vm.ipConfig
  {
    hide PlanOf, SettingAt;
    var k: nat :| HoldsAddress(codec, latest, {latest.network}, vm, k);
    PlanExact(codec, latest, k);
    assert latest.DesiredNames()[k] in latest.DesiredNames();
    SettingAtUnique(codec, latest.network, k, PlanOf(codec, latest).value[vm.name], vm.ipConfig);
  }

  // --- growth elsewhere than at the tail ---

  // A name that only d asks for stands where c has one of its names.
  predicate Displaced(c: Cluster, d: Cluster, k: nat) {
    k < |c.DesiredNames()| && k < |d.DesiredNames()| && d.DesiredNames()[k] !in c.DesiredNames()
  }

  /** A new VM of one run has the setting of a VM that was there. */
  ghost predicate Collides(cluster: string, mid: VMs, after: VMs, i: nat, j: nat) {
    && i in after && i !in mid && Member(after[i], cluster) && j in mid && Member(mid[j], cluster)
    && after[i].ipConfig == mid[j].ipConfig
  }

  lemma GrowsIntoSelf(c: Cluster)
    requires c.network.mode == "static"
    ensures GrowsInto(c, c)
  {
  }

  // A new VM of the cluster holds the address of its name.
  lemma NewHolds(codec: Codec, hosts: seq<Host>, before: VMs, after: VMs, c: Cluster, id: nat) returns (k: nat)
    requires ValidCluster(c) && c.network.mode == "static" && CreateRun(codec, hosts, before, after, c, true)
    requires id in after && id !in before && Member(after[id], c.name)
    ensures HoldsAddress(codec, c, {c.network}, after[id], k) && after[id].name !in Names(before, c.name)
  {
    hide HoldsAddress, SettingAt, PlanOf, GrowsInto, CreateRun, ToCreateOn, Member;
    GrowsIntoSelf(c);
    var specs, ids := CreateGrows(codec, hosts, before, after, c, true);
    var i := NewMember(codec, before, after, c, specs, ids, id, c.name);
    var stage := if MadeFor(after[id], specs[i], Configured) then Configured else Started;
    MadeHolds(codec, c, c, {c.network}, specs[i], after[id], stage);
    k :| HoldsAddress(codec, c, {c.network}, after[id], k);
  }

  // The new VM of a desired name, and its position.
  lemma NewOfName(codec: Codec, hosts: seq<Host>, before: VMs, after: VMs, c: Cluster, k: nat) returns (id: nat)
    requires ValidCluster(c) && c.network.mode == "static" && CreateRun(codec, hosts, before, after, c, true)
    requires k < |c.DesiredNames()| && c.DesiredNames()[k] !in Names(before, c.name)
    ensures id in after && id !in before && Member(after[id], c.name)
    ensures SettingAt(codec, c.network, k, after[id].ipConfig)
  {
    hide SettingAt, PlanOf, CreateRun, NamesOf;
    SuccessNames(codec, hosts, before, after, c);
    var name := c.DesiredNames()[k];
    assert name in c.DesiredNames();
    assert name in Desired(c);
    id :| id in after && Member(after[id], c.name) && after[id].name == name;
    CreateKeeps(codec, hosts, before, after, c);
    var l := NewHolds(codec, hosts, before, after, c, id);
    NamesDistinctIff(c.name, c.Pools());
  }

  lemma CreateKeeps(codec: Codec, hosts: seq<Host>, before: VMs, after: VMs, c: Cluster)
    requires ValidCluster(c) && CreateRun(codec, hosts, before, after, c, true)
    ensures Untouched(before, after)
  {
    var specs, ids := CreateGrows(codec, hosts, before, after, c, true);
  }

  /** When does a run of d, after a complete first run of c over the same network, give a new VM the address of a VM that is
      there? Exactly if some name that only d asks for stands at a position that c fills. */
  lemma CollidesIff(codec: Codec, hosts: seq<Host>, hosts': seq<Host>, before: VMs, mid: VMs, after: VMs, c: Cluster,
                    d: Cluster)
    requires codec.Valid() && ValidCluster(c) && ValidCluster(d)
    requires c.name == d.name && c.network == d.network && c.network.mode == "static"
    requires Names(before, c.name) == {} && CreateRun(codec, hosts, before, mid, c, true)
    requires CreateRun(codec, hosts', mid, after, d, true)
    ensures (exists i, j :: Collides(c.name, mid, after, i, j)) <==> (exists k: nat :: Displaced(c, d, k))
  {
    hide CreateRun, HoldsAddress, SettingAt, NamesOf;
    SuccessNames(codec, hosts, before, mid, c);
    if k: nat :| Displaced(c, d, k) {
      assert d.DesiredNames()[k] !in Names(mid, c.name);
      var i := NewOfName(codec, hosts', mid, after, d, k);
      var j := NewOfName(codec, hosts, before, mid, c, k);
      SettingAtUnique(codec, c.network, k, after[i].ipConfig, mid[j].ipConfig);
      assert Collides(c.name, mid, after, i, j);
    }
    if i, j :| Collides(c.name, mid, after, i, j) {
      var k := CollisionAt(codec, hosts, hosts', before, mid, after, c, d, i, j);
    }
  }

  lemma CollisionAt(codec: Codec, hosts: seq<Host>, hosts': seq<Host>, before: VMs, mid: VMs, after: VMs, c: Cluster,
                    d: Cluster,
                    i: nat, j: nat)
      returns (k: nat)
    requires codec.Valid() && ValidCluster(c) && ValidCluster(d)
    requires c.name == d.name && c.network == d.network && c.network.mode == "static"
    requires Names(before, c.name) == {} && CreateRun(codec, hosts, before, mid, c, true)
    requires CreateRun(codec, hosts', mid, after, d, true) && Collides(c.name, mid, after, i, j)
    ensures Displaced(c, d, k)
  {
    hide CreateRun, SettingAt, NamesOf;
    SuccessNames(codec, hosts, before, mid, c);
    CreateKeeps(codec, hosts, before, mid, c);
    MembersNamed(before, c.name);
    k := NewHolds(codec, hosts', mid, after, d, i);
    var l := NewHolds(codec, hosts, before, mid, c, j);
    SettingAtInjective(codec, c.network, k, l, after[i].ipConfig);
    assert after[i].name !in Desired(c);
  }

  /** Enlarging any pool but the last displaces the name after it, so addresses then do collide. */
  lemma EnlargingDisplaces(c: Cluster, d: Cluster, p: nat)
    requires DistinctPools(c.Pools()) && PositiveCounts(c.Pools()) && c.name == d.name
    requires p + 1 < |c.Pools()| && p < |d.Pools()| && c.Pools()[..p] == d.Pools()[..p]
    requires c.Pools()[p].name == d.Pools()[p].name && c.Pools()[p].count < d.Pools()[p].count
    ensures Displaced(c, d, TotalCount(c.Pools()[..p]) + c.Pools()[p].count)
  {
    hide NamesOf, NodeName, TotalCount, PoolNames;
    var ps, n := c.Pools(), c.Pools()[p].count;
    PositionOf(c.name, d.Pools(), p, n);
    PositionOf(c.name, ps, p + 1, 0);
    NamesTake(c.name, ps, p);
    var name := NodeName(c.name, ps[p].name, n + 1);
    forall j | 0 <= j < |c.DesiredNames()| ensures c.DesiredNames()[j] != name {
      var q, i := PoolAt(c.name, ps, j);
      NameInjectiveInCluster(c.name, ps[q].name, i + 1, ps[p].name, n + 1);
      assert q < p ==> ps[q].name != ps[p].name;
      assert p < q ==> ps[p].name != ps[q].name;
    }
  }

  /** Growing at the tail displaces no name, so it never makes addresses collide. */
  lemma TailGrowthDisplacesNothing(c: Cluster, d: Cluster, k: nat)
    requires PositiveCounts(c.Pools()) && PositiveCounts(d.Pools())
    requires c.name == d.name && TailGrowth(c.Pools(), d.Pools())
    ensures !Displaced(c, d, k)
  {
    PositionsKeptIff(c.name, c.Pools(), d.Pools());
    if k < |c.DesiredNames()| && k < |d.DesiredNames()| {
      assert d.DesiredNames()[k] == c.DesiredNames()[k];
    }
  }

  // --- DHCP ---

  // A VM made for a spec of a configuration in DHCP mode asks for its address there.
  lemma MadeForDhcp(c: Cluster, plan: IPPlan, spec: NodeSpec, vm: VM, stage: Stage)
    requires c.network.mode == "dhcp" && SpecIn(c, plan, spec)
    requires MadeFor(vm, spec, stage) && (stage == Configured || stage == Started)
    ensures vm.ipConfig == "ip=dhcp"
  {
  }

  /** In DHCP mode planning always succeeds, with no setting for any name, and every VM that a run adds to the listing carries
      "ip=dhcp". */
  lemma DhcpRun(codec: Codec, hosts: seq<Host>, before: VMs, after: VMs, c: Cluster, ok: bool)
    requires ValidCluster(c) && c.network.mode == "dhcp"
    ensures PlanOf(codec, c) == Ok(map[])
    ensures CreateRun(codec, hosts, before, after, c, ok) ==>
              forall id :: id in after && id !in before && Member(after[id], c.name) ==> after[id].ipConfig == "ip=dhcp"
  {
    if CreateRun(codec, hosts, before, after, c, ok) {
      var specs, ids := CreateGrows(codec, hosts, before, after, c, ok);
      forall id | id in after && id !in before && Member(after[id], c.name) ensures after[id].ipConfig == "ip=dhcp" {
        var i := NewMember(codec, before, after, c, specs, ids, id, c.name);
        var stage := if MadeFor(after[id], specs[i], Configured) then Configured else Started;
        MadeForDhcp(c, PlanOf(codec, c).value, specs[i], after[id], stage);
      }
    }
  }
}
