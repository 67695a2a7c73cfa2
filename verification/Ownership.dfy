/** Which cluster a VM belongs to, and in which role, over histories of runs. */
module Ownership {
  import opened Text
  import opened Tags
  import opened Ipam
  import opened Domain
  import opened Placement
  import opened Plan
  import opened Server
  import opened Provider
  import opened Create
  import opened Delete
  import opened History
  import opened Convergence

  /** The VM carries the tags and the name of some node of the cluster; only masters are in the pool "master". */
  ghost predicate NodeOfCluster(vm: VM, name: string, role: Role, pool: string, index: nat) {
    && ';' !in pool && (role == Master <==> pool == MASTER_POOL)
    && vm.tags == BuildTags(name, role, pool) && vm.name == NodeName(name, pool, index)
  }

  ghost predicate Proper(vm: VM, name: string) {
    CleanName(name) && exists role, pool, index: nat :: NodeOfCluster(vm, name, role, pool, index)
  }

  /** Every listed VM is a node of the cluster that lists it. */
  ghost predicate AllProper(vms: VMs) {
    forall id, name: string :: id in vms && Member(vms[id], name) ==> Proper(vms[id], name)
  }

  // Name and tags of a proper VM determine its one cluster, and its role.
  lemma ProperDetermines(vm: VM, name: string, other: string)
    requires Proper(vm, name)
    ensures HasTag(vm.tags, ClusterTag(other)) <==> other == name
    ensures forall index: nat :: vm.name == NodeName(name, MASTER_POOL, index) ==> HasTag(vm.tags, ROLE_KEY + "master")
  {
    var role, pool, index: nat :| NodeOfCluster(vm, name, role, pool, index);
    ClusterRoundTrip(name, role, pool, other);
    TrimRightResult(name);
    RoleRoundTrip(name, role, pool);
    forall i: nat | vm.name == NodeName(name, MASTER_POOL, i) ensures HasTag(vm.tags, ROLE_KEY + "master") {
      NameInjectiveInCluster(name, pool, index, MASTER_POOL, i);
    }
  }

  lemma OnlyFirstIsMaster(c: Cluster, p: nat)
    requires ValidCluster(c) && p < |c.Pools()|
    ensures c.Pools()[p].name == MASTER_POOL <==> p == 0
  {
    assert c.Pools()[0].name == MASTER_POOL;
    if p > 0 {
      assert c.Pools()[0].name != c.Pools()[p].name;
    }
  }

  lemma MadeProper(c: Cluster, plan: IPPlan, spec: NodeSpec, vm: VM, stage: Stage)
    requires ValidCluster(c) && SpecIn(c, plan, spec) && MadeFor(vm, spec, stage) && (stage == Configured || stage == Started)
    ensures Proper(vm, c.name)
  {
    var p: nat, i: nat :| IsSpec(c, plan, p, i, spec);
    assert c.Pools()[p] in c.Pools();
    OnlyFirstIsMaster(c, p);
    assert NodeOfCluster(vm, c.name, spec.role, spec.pool, i + 1);
  }

  lemma CreateKeepsProper(codec: Codec, hosts: seq<Host>, before: VMs, after: VMs, c: Cluster, ok: bool)
    requires ValidCluster(c) && CreateRun(codec, hosts, before, after, c, ok) && AllProper(before)
    ensures AllProper(after)
  {
    var specs, ids := CreateGrows(codec, hosts, before, after, c, ok);
    assert Untouched(before, after);
    forall id, name: string | id in after && Member(after[id], name) ensures Proper(after[id], name) {
      if id !in before {
        var i := NewMember(codec, before, after, c, specs, ids, id, name);
        var stage := if MadeFor(after[id], specs[i], Configured) then Configured else Started;
        MadeProper(c, PlanOf(codec, c).value, specs[i], after[id], stage);
      } else {
        assert Member(before[id], name);
      }
    }
  }

  lemma DeleteKeepsProper(before: VMs, after: VMs, name: string, ok: bool)
    requires DeleteRun(before, after, name, ok) && AllProper(before)
    ensures AllProper(after)
  {
    DeleteKeepsIdentity(before, after, name, ok);
    forall id, other: string | id in after && Member(after[id], other) ensures Proper(after[id], other) {
      var role, pool, index: nat :| NodeOfCluster(before[id], other, role, pool, index);
      assert NodeOfCluster(after[id], other, role, pool, index);
    }
  }

  lemma StepKeepsProper(codec: Codec, before: VMs, e: Event, after: VMs)
    requires StepOf(codec, before, e, after) && AllProper(before)
    ensures AllProper(after)
  {
    match e
    case Created(c, hosts, ok) => CreateKeepsProper(codec, hosts, before, after, c, ok);
    case Deleted(name, ok) => DeleteKeepsProper(before, after, name, ok);
  }

  lemma {:induction false} HistoryProper(codec: Codec, states: seq<VMs>, events: seq<Event>, k: nat)
    requires Runs(codec, states, events) && AllProper(states[0]) && k <= |events|
    ensures AllProper(states[k])
  {
    if k == 0 {
    } else {
      HistoryProper(codec, states, events, k - 1);
      assert StepOf(codec, states[k - 1], events[k - 1], states[k - 1 + 1]);
      StepKeepsProper(codec, states[k - 1], events[k - 1], states[k]);
    }
  }

  /** In every reachable state a VM is listed for at most one cluster. */
  lemma HistoryOneCluster(codec: Codec, states: seq<VMs>, events: seq<Event>, k: nat, id: nat, a: string, b: string)
    requires Runs(codec, states, events) && AllProper(states[0]) && k <= |events|
    requires id in states[k] && Member(states[k][id], a) && Member(states[k][id], b)
    ensures a == b
  {
    HistoryProper(codec, states, events, k);
    ProperDetermines(states[k][id], a, b);
  }

  /** So a run for one cluster, create or delete, whatever its outcome, leaves every VM listed for another cluster as it
      is and lists no new one for it. */
  lemma RunsAreIsolated(codec: Codec, before: VMs, e: Event, after: VMs, name: string, id: nat)
    requires StepOf(codec, before, e, after) && AllProper(before)
    requires name != (if e.Created? then e.cluster.name else e.name)
    ensures (id in after && Member(after[id], name)) <==> (id in before && Member(before[id], name))
    ensures id in before && Member(before[id], name) ==> after[id] == before[id]
  {
    match e
    case Created(c, hosts, ok) =>
      var specs, ids := CreateGrows(codec, hosts, before, after, c, ok);
      assert Untouched(before, after);
      if id in after && id !in before && Member(after[id], name) {
        var i := NewMember(codec, before, after, c, specs, ids, id, name);
      }
    case Deleted(n, ok) =>
      DeleteKeepsIdentity(before, after, n, ok);
      if id in before && Member(before[id], name) {
        ProperDetermines(before[id], name, n);
      }
  }

  /** The name of some master of the cluster. */
  ghost predicate IsMasterName(cluster: string, name: string) {
    exists i: nat :: name == NodeName(cluster, "master", i)
  }

  // A proper VM is listed in the role its name says.
  lemma ListedRole(vms: VMs, cluster: string, nodes: seq<Node>, n: Node)
    requires AllProper(vms) && Listing(vms, cluster, nodes) && n in nodes
    ensures n.role == Master <==> IsMasterName(cluster, n.name)
  {
    hide HasTag, ExtractTag, BuildTags, NodeName;
    var vm := vms[n.vmid];
    assert Proper(vm, cluster);
    var role, pool, index: nat :| NodeOfCluster(vm, cluster, role, pool, index);
    ListedAs(vms, cluster, nodes, n.vmid, role, pool);
    MasterNameIff(cluster, pool, index);
  }

  lemma MasterNameIff(cluster: string, pool: string, index: nat)
    ensures IsMasterName(cluster, NodeName(cluster, pool, index)) <==> pool == "master"
  {
    forall i: nat ensures NodeName(cluster, pool, index) == NodeName(cluster, "master", i) <==> pool == "master" && index == i {
      NameInjectiveInCluster(cluster, pool, index, "master", i);
    }
  }

  // So is a created one.
  lemma CreatedRole(codec: Codec, hosts: seq<Host>, before: VMs, after: VMs, c: Cluster, created: seq<Node>, n: Node)
    requires ValidCluster(c) && Reports(codec, hosts, before, after, c, created) && n in created
    ensures n.role == Master <==> IsMasterName(c.name, n.name)
  {
    var ids :| Completes(codec, hosts, before, after, c, ids) && CreatedFor(created, ToCreateOn(codec, c, before), ids);
    var i :| 0 <= i < |created| && created[i] == n;
    ToCreateSpecs(c, PlanOf(codec, c).value, Names(before, c.name));
    var spec := ToCreateOn(codec, c, before)[i];
    assert spec in ToCreateOn(codec, c, before);
    SpecRole(c, PlanOf(codec, c).value, spec);
  }

  lemma SpecRole(c: Cluster, plan: IPPlan, spec: NodeSpec)
    requires ValidCluster(c) && SpecIn(c, plan, spec)
    ensures spec.role == Master <==> IsMasterName(c.name, spec.name)
  {
    hide NodeName;
    var p: nat, i: nat :| IsSpec(c, plan, p, i, spec);
    OnlyFirstIsMaster(c, p);
    MasterNameIff(c.name, c.Pools()[p].name, i + 1);
  }

  /** The split after provisioning: a node is among the masters exactly if its name is that of a master of the cluster, and
      among the workers exactly if it is not. */
  lemma SplitByName(codec: Codec, hosts: seq<Host>, before: VMs, after: VMs, c: Cluster, existing: seq<Node>, created: seq<Node>,
                    n: Node)
    requires ValidCluster(c) && AllProper(before)
    requires Listing(before, c.name, existing) && Reports(codec, hosts, before, after, c, created)
    requires n in existing + created
    ensures n in ByRole(existing + created, true) <==> IsMasterName(c.name, n.name)
    ensures n in ByRole(existing + created, false) <==> !IsMasterName(c.name, n.name)
  {
    hide Reports, Listing, AllProper, ByRole, IsMasterName;
    ByRoleIff(existing + created, true, n);
    ByRoleIff(existing + created, false, n);
    if n in existing {
      ListedRole(before, c.name, existing, n);
    } else {
      CreatedRole(codec, hosts, before, after, c, created, n);
    }
  }

  /** And every desired name is in it. */
  lemma DesiredPresent(codec: Codec, hosts: seq<Host>, before: VMs, after: VMs, c: Cluster, existing: seq<Node>,
                       created: seq<Node>, name: string)
      returns (n: Node)
    requires ValidCluster(c) && name in c.DesiredNames()
    requires Listing(before, c.name, existing) && Reports(codec, hosts, before, after, c, created)
    ensures n in existing + created && n.name == name
  {
    if name in Names(before, c.name) {
      var id :| id in before && Member(before[id], c.name) && before[id].name == name;
      n := NodeOf(id, before[id]);
      assert n in existing;
    } else {
      n := CreatedNode(codec, hosts, before, after, c, created, name);
    }
  }

  lemma CreatedNode(codec: Codec, hosts: seq<Host>, before: VMs, after: VMs, c: Cluster, created: seq<Node>, name: string)
      returns (n: Node)
    requires ValidCluster(c) && name in c.DesiredNames() && name !in Names(before, c.name)
    requires Reports(codec, hosts, before, after, c, created)
    ensures n in created && n.name == name
  {
    var ids :| Completes(codec, hosts, before, after, c, ids) && CreatedFor(created, ToCreateOn(codec, c, before), ids);
    var j := DesiredSpec(c, PlanOf(codec, c).value, Names(before, c.name), name);
    n := created[j];
  }

  /** After provisioning, every master the configuration asks for is among the masters the later phases start from, so
      there is a first master to bootstrap. */
  lemma MastersPresent(codec: Codec, hosts: seq<Host>, before: VMs, after: VMs, c: Cluster, existing: seq<Node>,
                       created: seq<Node>, i: nat)
      returns (n: Node)
    requires ValidCluster(c) && AllProper(before) && i < c.masters.count
    requires Listing(before, c.name, existing) && Reports(codec, hosts, before, after, c, created)
    ensures n in ByRole(existing + created, true) && n.name == NodeName(c.name, MASTER_POOL, i + 1)
  {
    var name := NodeName(c.name, MASTER_POOL, i + 1);
    if name in Names(before, c.name) {
      var id :| id in before && Member(before[id], c.name) && before[id].name == name;
      ProperDetermines(before[id], c.name, c.name);
      n := NodeOf(id, before[id]);
      assert n in existing;
    } else {
      n := CreatedMaster(codec, hosts, before, after, c, created, i);
    }
    ByRoleIff(existing + created, true, n);
  }

  lemma CreatedMaster(codec: Codec, hosts: seq<Host>, before: VMs, after: VMs, c: Cluster, created: seq<Node>,
                      i: nat) returns (n: Node)
    requires ValidCluster(c) && i < c.masters.count && Reports(codec, hosts, before, after, c, created)
    requires NodeName(c.name, MASTER_POOL, i + 1) !in Names(before, c.name)
    ensures n in created && n.name == NodeName(c.name, MASTER_POOL, i + 1) && n.role == Master
  {
    var ids :| Completes(codec, hosts, before, after, c, ids) && CreatedFor(created, ToCreateOn(codec, c, before), ids);
    var j := MasterSpec(c, PlanOf(codec, c).value, Names(before, c.name), i);
    n := created[j];
  }

  lemma MasterSpec(c: Cluster, plan: IPPlan, existing: set<string>, i: nat) returns (j: nat)
    requires ValidCluster(c) && i < c.masters.count && NodeName(c.name, MASTER_POOL, i + 1) !in existing
    ensures var specs := ToCreate(c, plan, existing);
            j < |specs| && specs[j].name == NodeName(c.name, MASTER_POOL, i + 1) && specs[j].role == Master
  {
    PositionOf(c.name, c.Pools(), 0, i);
    j := DesiredSpec(c, plan, existing, NodeName(c.name, MASTER_POOL, i + 1));
    var spec := ToCreate(c, plan, existing)[j];
    var p: nat, l: nat :| IsSpec(c, plan, p, l, spec);
    NameInjectiveInCluster(c.name, c.Pools()[p].name, l + 1, MASTER_POOL, i + 1);
    OnlyFirstIsMaster(c, p);
  }
}
