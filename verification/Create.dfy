/** Provisioning and rollback (internal/usecase/create/create.go). */
module Create {
  import opened Collections
  import opened Wrappers
  import opened Tags
  import opened Domain
  import opened Ipam
  import opened Plan
  import opened Placement
  import opened Server
  import opened Provider

  // --- which nodes are missing ---

  function RoleOf(poolIndex: nat): Role {
    if poolIndex == 0 then Master else Worker
  }

  function SpecFor(cluster: Cluster, plan: IPPlan, role: Role, pool: string, index: nat): NodeSpec {
    var name := NodeName(cluster.name, pool, index);
    NodeSpec(name, cluster.name, role, pool, cluster.network.mode, if name in plan then plan[name] else "")
  }

  function PoolSpecs(cluster: Cluster, plan: IPPlan, p: nat): (r: seq<NodeSpec>)
    requires p < |cluster.Pools()|
    ensures |r| == cluster.Pools()[p].count
  {
    var pool := cluster.Pools()[p];
    seq(pool.count, i requires 0 <= i => SpecFor(cluster, plan, RoleOf(p), pool.name, i + 1))
  }

  // The specs of the first k pools, in the order of the desired names.
  function SpecsOf(cluster: Cluster, plan: IPPlan, k: nat): seq<NodeSpec>
    requires k <= |cluster.Pools()|
  {
    if k == 0 then [] else SpecsOf(cluster, plan, k - 1) + PoolSpecs(cluster, plan, k - 1)
  }

  function Missing(specs: seq<NodeSpec>, existing: set<string>): seq<NodeSpec> {
    if specs == [] then []
    else
      var last := |specs| - 1;
      Missing(specs[..last], existing) + if specs[last].name in existing then [] else [specs[last]]
  }

  /** What a run creates: a spec for every desired name that no listed node has. */
  function ToCreate(cluster: Cluster, plan: IPPlan, existing: set<string>): seq<NodeSpec> {
    Missing(SpecsOf(cluster, plan, |cluster.Pools()|), existing)
  }

  predicate IsSpec(cluster: Cluster, plan: IPPlan, p: nat, i: nat, spec: NodeSpec) {
    && p < |cluster.Pools()| && i < cluster.Pools()[p].count
    && spec == SpecFor(cluster, plan, RoleOf(p), cluster.Pools()[p].name, i + 1)
  }

  // A spec belongs to the configuration it was made from.
  ghost predicate SpecIn(cluster: Cluster, plan: IPPlan, spec: NodeSpec) {
    exists p: nat, i: nat :: IsSpec(cluster, plan, p, i, spec)
  }

  lemma {:induction false} SpecsLength(cluster: Cluster, plan: IPPlan, k: nat)
    requires k <= |cluster.Pools()|
    ensures |SpecsOf(cluster, plan, k)| == |NamesOf(cluster.name, cluster.Pools()[..k])|
  {
    if k == 0 {
    } else {
      SpecsLength(cluster, plan, k - 1);
      NamesTake(cluster.name, cluster.Pools(), k - 1);
    }
  }

  lemma PoolSpecAt(cluster: Cluster, plan: IPPlan, p: nat, i: nat)
    requires p < |cluster.Pools()| && i < cluster.Pools()[p].count
    ensures PoolSpecs(cluster, plan, p)[i].name == PoolNames(cluster.name, cluster.Pools()[p])[i]
    ensures SpecIn(cluster, plan, PoolSpecs(cluster, plan, p)[i])
  {
    assert IsSpec(cluster, plan, p, i, PoolSpecs(cluster, plan, p)[i]);
  }

  // Specs and desired names run in step.
  lemma {:induction false} SpecNameAt(cluster: Cluster, plan: IPPlan, k: nat, j: nat)
    requires k <= |cluster.Pools()| && j < |SpecsOf(cluster, plan, k)| == |NamesOf(cluster.name, cluster.Pools()[..k])|
    ensures SpecsOf(cluster, plan, k)[j].name == NamesOf(cluster.name, cluster.Pools()[..k])[j]
  {
    hide NamesOf, PoolNames, NodeName, PoolSpecs, SpecFor;
    var specs := SpecsOf(cluster, plan, k - 1);
    SpecsLength(cluster, plan, k - 1);
    NamesTake(cluster.name, cluster.Pools(), k - 1);
    if j < |specs| {
      SpecNameAt(cluster, plan, k - 1, j);
    } else {
      PoolSpecAt(cluster, plan, k - 1, j - |specs|);
    }
  }

  lemma {:induction false} SpecAt(cluster: Cluster, plan: IPPlan, k: nat, j: nat)
    requires k <= |cluster.Pools()| && j < |SpecsOf(cluster, plan, k)|
    ensures SpecIn(cluster, plan, SpecsOf(cluster, plan, k)[j])
  {
    var specs := SpecsOf(cluster, plan, k - 1);
    if j < |specs| {
      SpecAt(cluster, plan, k - 1, j);
    } else {
      PoolSpecAt(cluster, plan, k - 1, j - |specs|);
    }
  }

  lemma SpecsMatchNames(cluster: Cluster, plan: IPPlan)
    ensures var specs, names := SpecsOf(cluster, plan, |cluster.Pools()|), cluster.DesiredNames();
            |specs| == |names| && forall j :: 0 <= j < |specs| ==> specs[j].name == names[j] && SpecIn(cluster, plan, specs[j])
  {
    var k := |cluster.Pools()|;
    assert cluster.Pools()[..k] == cluster.Pools();
    SpecsLength(cluster, plan, k);
    forall j | 0 <= j < |SpecsOf(cluster, plan, k)|
      ensures SpecsOf(cluster, plan, k)[j].name == cluster.DesiredNames()[j]
      ensures SpecIn(cluster, plan, SpecsOf(cluster, plan, k)[j])
    {
      SpecNameAt(cluster, plan, k, j);
      SpecAt(cluster, plan, k, j);
    }
  }

  lemma NoSpecs(cluster: Cluster, plan: IPPlan, names: set<string>)
    ensures Missing(SpecsOf(cluster, plan, 0), names) == []
    ensures |cluster.Pools()| == |cluster.workers| + 1
  {
  }

  lemma {:induction false} MissingConcat(a: seq<NodeSpec>, b: seq<NodeSpec>, existing: set<string>)
    ensures Missing(a + b, existing) == Missing(a, existing) + Missing(b, existing)
  {
    if b == [] {
      assert a + b == a;
    } else {
      var last := |b| - 1;
      MissingConcat(a, b[..last], existing);
      assert (a + b)[..|a + b| - 1] == a + b[..last];
    }
  }

  lemma {:induction false} MissingIff(specs: seq<NodeSpec>, existing: set<string>, s: NodeSpec)
    ensures s in Missing(specs, existing) <==> s in specs && s.name !in existing
  {
    if specs == [] {
    } else {
      var last := |specs| - 1;
      MissingIff(specs[..last], existing, s);
      assert specs == specs[..last] + [specs[last]];
    }
  }

  // One more pool.
  lemma MissingPool(cluster: Cluster, plan: IPPlan, p: nat, existing: set<string>)
    requires p < |cluster.Pools()|
    ensures Missing(SpecsOf(cluster, plan, p + 1), existing) ==
            Missing(SpecsOf(cluster, plan, p), existing) + Missing(PoolSpecs(cluster, plan, p), existing)
  {
    MissingConcat(SpecsOf(cluster, plan, p), PoolSpecs(cluster, plan, p), existing);
  }

  // One more index of a pool.
  lemma MissingNext(cluster: Cluster, plan: IPPlan, p: nat, i: nat, existing: set<string>, spec: NodeSpec)
    requires IsSpec(cluster, plan, p, i, spec)
    ensures var specs := PoolSpecs(cluster, plan, p);
            Missing(specs[..i + 1], existing) == Missing(specs[..i], existing) + if spec.name in existing then [] else [spec]
  {
    var specs := PoolSpecs(cluster, plan, p);
    assert specs[i] == spec;
    assert specs[..i + 1][..i] == specs[..i];
  }

  predicate DistinctNames(specs: seq<NodeSpec>) {
    forall i, j :: 0 <= i < j < |specs| ==> specs[i].name != specs[j].name
  }

  lemma {:induction false} MissingDistinct(specs: seq<NodeSpec>, existing: set<string>)
    requires DistinctNames(specs)
    ensures DistinctNames(Missing(specs, existing))
  {
    if specs == [] {
    } else {
      var last := |specs| - 1;
      MissingDistinct(specs[..last], existing);
      var rest := Missing(specs[..last], existing);
      forall i | 0 <= i < |rest| ensures rest[i].name != specs[last].name {
        MissingIff(specs[..last], existing, rest[i]);
        assert rest[i] in rest;
        var j :| 0 <= j < last && specs[j] == rest[i];
      }
    }
  }

  // Which names a run creates, which specs they come with, and that none is created twice.
  lemma ToCreateNames(cluster: Cluster, plan: IPPlan, existing: set<string>, name: string)
    ensures (exists s :: s in ToCreate(cluster, plan, existing) && s.name == name)
            <==> name in cluster.DesiredNames() && name !in existing
  {
    var specs, names := SpecsOf(cluster, plan, |cluster.Pools()|), cluster.DesiredNames();
    SpecsMatchNames(cluster, plan);
    forall s | s in ToCreate(cluster, plan, existing) && s.name == name
      ensures name in names && name !in existing
    {
      MissingIff(specs, existing, s);
      var j :| 0 <= j < |specs| && specs[j] == s;
      assert names[j] == name;
    }
    if name in names && name !in existing {
      var j :| 0 <= j < |names| && names[j] == name;
      MissingIff(specs, existing, specs[j]);
      assert specs[j] in ToCreate(cluster, plan, existing);
    }
  }

  // Where a missing spec stands among all.
  function PlaceOfMissing(specs: seq<NodeSpec>, existing: set<string>, i: nat): (k: nat)
    requires i < |Missing(specs, existing)|
    ensures k < |specs| && specs[k] == Missing(specs, existing)[i]
  {
    var last := |specs| - 1;
    if i < |Missing(specs[..last], existing)| then PlaceOfMissing(specs[..last], existing, i) else last
  }

  lemma {:induction false} MissingInOrder(specs: seq<NodeSpec>, existing: set<string>, i: nat, j: nat)
    requires i < j < |Missing(specs, existing)|
    ensures PlaceOfMissing(specs, existing, i) < PlaceOfMissing(specs, existing, j)
  {
    var last := |specs| - 1;
    if j < |Missing(specs[..last], existing)| {
      MissingInOrder(specs[..last], existing, i, j);
    }
  }

  /** Nodes are created in the order of the desired names: masters first, then pool by pool. */
  lemma ToCreateInOrder(cluster: Cluster, plan: IPPlan, existing: set<string>, i: nat, j: nat) returns (k: nat, l: nat)
    requires i < j < |ToCreate(cluster, plan, existing)|
    ensures k < l < |cluster.DesiredNames()|
    ensures cluster.DesiredNames()[k] == ToCreate(cluster, plan, existing)[i].name
    ensures cluster.DesiredNames()[l] == ToCreate(cluster, plan, existing)[j].name
  {
    var specs := SpecsOf(cluster, plan, |cluster.Pools()|);
    SpecsMatchNames(cluster, plan);
    MissingInOrder(specs, existing, i, j);
    k, l := PlaceOfMissing(specs, existing, i), PlaceOfMissing(specs, existing, j);
  }

  lemma ToCreateSpecs(cluster: Cluster, plan: IPPlan, existing: set<string>)
    requires DistinctPools(cluster.Pools()) && PositiveCounts(cluster.Pools())
    ensures DistinctNames(ToCreate(cluster, plan, existing))
    ensures forall s :: s in ToCreate(cluster, plan, existing) ==> SpecIn(cluster, plan, s) && s.name !in existing
  {
    var specs := SpecsOf(cluster, plan, |cluster.Pools()|);
    SpecsMatchNames(cluster, plan);
    NamesDistinctIff(cluster.name, cluster.Pools());
    MissingDistinct(specs, existing);
    forall s | s in ToCreate(cluster, plan, existing) ensures SpecIn(cluster, plan, s) && s.name !in existing {
      MissingIff(specs, existing, s);
    }
  }

  // --- what a run leaves behind ---

  ghost predicate FreshIds(ids: seq<nat>, before: VMs) {
    Distinct(ids) && forall id :: id in ids ==> id !in before
  }

  ghost predicate Untouched(before: VMs, after: VMs) {
    forall id :: id in before ==> id in after && after[id] == before[id]
  }

  /** A complete creation: one running VM per spec, and nothing else changed. */
  ghost predicate AllMade(before: VMs, after: VMs, specs: seq<NodeSpec>, ids: seq<nat>) {
    && |ids| == |specs| && FreshIds(ids, before) && Untouched(before, after)
    && (forall id :: id in after ==> id in before || id in ids)
    && (forall i :: 0 <= i < |ids| ==> ids[i] in after && MadeFor(after[ids[i]], specs[i], Started))
  }

  /** A failed creation after its rollback. The last id is that of the attempt that failed, at the given stage; it is
      not rolled back. An earlier id is still there only if its deletion was reported as failed. */
  ghost predicate RolledBack(before: VMs, after: VMs, specs: seq<NodeSpec>, ids: seq<nat>, stage: Stage, warned: set<nat>) {
    && 0 < |ids| <= |specs| && FreshIds(ids, before) && Untouched(before, after)
    && (forall id :: id in after ==> id in before || id in ids)
    && (forall i :: 0 <= i < |ids| - 1 && ids[i] in after ==>
          ids[i] in warned && (MadeFor(after[ids[i]], specs[i], Started) || MadeFor(after[ids[i]], specs[i], Configured)))
    && var last := |ids| - 1;
    && (ids[last] in after <==> stage != Absent)
    && (ids[last] in after ==> MadeFor(after[ids[last]], specs[last], stage))
  }

  // What deleting a list of VMs leaves behind.
  ghost predicate Undone(before: VMs, after: VMs, doomed: set<nat>, warned: set<nat>) {
    && (forall id :: id in after ==> id in before)
    && (forall id :: id in before && id !in doomed ==> id in after && after[id] == before[id])
    && (forall id :: id in after && id in doomed ==>
          id in warned && (after[id] == before[id] || after[id] == before[id].(running := false)))
  }

  ghost function Elements(ids: seq<nat>): set<nat> {
    set id | id in ids
  }

  /** Every VM that is new is on the template's host, with a positive id, and there was a host to place it on. */
  ghost predicate OnSite(hosts: seq<Host>, template: string, before: VMs, after: VMs) {
    forall id :: id in after && id !in before ==> Grounded(hosts, template, before, id, after[id])
  }

  // --- whole runs, up to the end of provisioning ---

  /** What a run would create on a server in the given state. */
  ghost function ToCreateOn(codec: Codec, cluster: Cluster, vms: VMs): seq<NodeSpec>
    requires PlanOf(codec, cluster).Ok?
  {
    ToCreate(cluster, PlanOf(codec, cluster).value, Names(vms, cluster.name))
  }

  /** What preflight has checked. */
  ghost predicate Checked(hosts: seq<Host>, vms: VMs, cluster: Cluster) {
    AllOnline(hosts, cluster.targets) && HasTemplate(vms, cluster.template)
  }

  ghost predicate Completes(codec: Codec, hosts: seq<Host>, before: VMs, after: VMs, cluster: Cluster, ids: seq<nat>) {
    && Checked(hosts, before, cluster) && PlanOf(codec, cluster).Ok?
    && AllMade(before, after, ToCreateOn(codec, cluster, before), ids) && OnSite(hosts, cluster.template, before, after)
  }

  ghost predicate Breaks(codec: Codec, hosts: seq<Host>, before: VMs, after: VMs, cluster: Cluster, ids: seq<nat>, stage: Stage,
                         warned: set<nat>)
  {
    && Checked(hosts, before, cluster) && PlanOf(codec, cluster).Ok?
    && RolledBack(before, after, ToCreateOn(codec, cluster, before), ids, stage, warned)
    && OnSite(hosts, cluster.template, before, after)
  }

  /** The effect of a create run on the VM table: complete; or failed, either before provisioning or during it. */
  ghost predicate CreateRun(codec: Codec, hosts: seq<Host>, before: VMs, after: VMs, cluster: Cluster, ok: bool) {
    if ok then exists ids :: Completes(codec, hosts, before, after, cluster, ids)
    else after == before || exists ids, stage, warned :: Breaks(codec, hosts, before, after, cluster, ids, stage, warned)
  }

  function ByRole(nodes: seq<Node>, master: bool): seq<Node> {
    if nodes == [] then []
    else
      var last := |nodes| - 1;
      ByRole(nodes[..last], master) + if nodes[last].role.Master? == master then [nodes[last]] else []
  }

  lemma {:induction false} ByRoleIff(nodes: seq<Node>, master: bool, n: Node)
    ensures n in ByRole(nodes, master) <==> n in nodes && n.role.Master? == master
  {
    if nodes == [] {
    } else {
      var last := |nodes| - 1;
      ByRoleIff(nodes[..last], master, n);
      assert nodes == nodes[..last] + [nodes[last]];
    }
  }

  /** The two sublists hold every node once. */
  lemma {:induction false} SplitComplete(nodes: seq<Node>)
    ensures multiset(ByRole(nodes, true)) + multiset(ByRole(nodes, false)) == multiset(nodes)
  {
    if nodes == [] {
    } else {
      SplitComplete(nodes[..|nodes| - 1]);
      assert nodes == nodes[..|nodes| - 1] + [nodes[|nodes| - 1]];
    }
  }

  method SplitByRole(nodes: seq<Node>) returns (masters: seq<Node>, workers: seq<Node>)
    ensures masters == ByRole(nodes, true) && workers == ByRole(nodes, false)
  {
    masters, workers := [], [];
    for i := 0 to |nodes|
      invariant masters == ByRole(nodes[..i], true) && workers == ByRole(nodes[..i], false)
    {
      assert nodes[..i + 1][..i] == nodes[..i];
      if nodes[i].role == Master {
        masters := masters + [nodes[i]];
      } else {
        workers := workers + [nodes[i]];
      }
    }
    assert nodes[..|nodes|] == nodes;
  }

  lemma NodeNamesAppend(nodes: seq<Node>, n: Node)
    ensures NodeNames(nodes + [n]) == NodeNames(nodes) + {n.name}
  {
    forall name | name in NodeNames(nodes) + {n.name} ensures name in NodeNames(nodes + [n]) {
      if name == n.name {
        assert n in nodes + [n];
      } else {
        var m :| m in nodes && m.name == name;
        assert m in nodes + [n];
      }
    }
  }

  // --- creating in order ---

  // The nodes reported for a complete creation.
  ghost predicate CreatedFor(created: seq<Node>, specs: seq<NodeSpec>, ids: seq<nat>) {
    && |created| == |specs| == |ids|
    && forall i :: 0 <= i < |created| ==>
         created[i] == Node(specs[i].name, specs[i].role, specs[i].pool, ids[i], created[i].host)
  }

  lemma CreatedIds(created: seq<Node>, specs: seq<NodeSpec>, ids: seq<nat>)
    requires CreatedFor(created, specs, ids)
    ensures Ids(created) == set id | id in ids
  {
    forall id | id in ids ensures id in Ids(created) {
      var i :| 0 <= i < |ids| && ids[i] == id;
      assert created[i] in created;
    }
  }

  // The VM was cloned under its name, configured for the spec, resized and started.
  predicate FullyAsked(spec: NodeSpec, id: nat, calls: seq<Call>) {
    && (exists c :: c in calls && c.Sent? && c.op.Clone? && c.op.id == id && c.op.name == spec.name)
    && Sent(Op.Resize(id)) in calls
    && Sent(Op.Config(id, BuildTags(spec.cluster, spec.role, spec.pool), IPSetting(spec))) in calls
    && Sent(Op.Start(id)) in calls
  }

  ghost predicate AllAsked(specs: seq<NodeSpec>, ids: seq<nat>, calls: seq<Call>) {
    |ids| == |specs| && forall i :: 0 <= i < |ids| ==> FullyAsked(specs[i], ids[i], calls)
  }

  // The specs dealt with so far have each been made, and reported, in order.
  ghost predicate Session(hosts: seq<Host>, template: string, before: VMs, now: VMs, specs: seq<NodeSpec>, created: seq<Node>,
                          ids: seq<nat>, calls: seq<Call>)
  {
    && AllMade(before, now, specs, ids) && CreatedFor(created, specs, ids) && OnSite(hosts, template, before, now)
    && AllAsked(specs, ids, calls)
  }

  // Making nodes makes no templates.
  lemma MadeNoTemplate(before: VMs, now: VMs, specs: seq<NodeSpec>, ids: seq<nat>)
    requires AllMade(before, now, specs, ids)
    ensures forall id :: id in now && id !in before ==> !now[id].template
  {
    forall id | id in now && id !in before ensures !now[id].template {
      var i :| 0 <= i < |ids| && ids[i] == id;
      assert MadeFor(now[ids[i]], specs[i], Started);
    }
  }

  lemma TemplatesKept(before: VMs, now: VMs, specs: seq<NodeSpec>, ids: seq<nat>, template: string)
    requires AllMade(before, now, specs, ids)
    ensures forall id :: id in now && IsTemplate(now[id], template) ==> id in before && before[id] == now[id]
    ensures HasTemplate(now, template) <==> HasTemplate(before, template)
  {
    MadeNoTemplate(before, now, specs, ids);
    if HasTemplate(before, template) {
      var id :| id in before && IsTemplate(before[id], template);
      assert now[id] == before[id];
    }
  }

  lemma GroundedBefore(hosts: seq<Host>, template: string, before: VMs, now: VMs, id: nat, vm: VM)
    requires Grounded(hosts, template, now, id, vm)
    requires forall t :: t in now && IsTemplate(now[t], template) ==> t in before && before[t] == now[t]
    ensures Grounded(hosts, template, before, id, vm)
  {
    var t :| t in now && IsTemplate(now[t], template) && now[t].node == vm.node;
    assert before[t] == now[t];
  }

  // What a further attempt leaves is on site too.
  lemma StillOnSite(hosts: seq<Host>, template: string, before: VMs, now: VMs, after: VMs, specs: seq<NodeSpec>, ids: seq<nat>,
                    spec: NodeSpec, trial: Trial, failed: Option<Step>)
    requires AllMade(before, now, specs, ids) && OnSite(hosts, template, before, now)
    requires Went(hosts, template, now, after, spec, trial, failed)
    ensures OnSite(hosts, template, before, after)
  {
    TemplatesKept(before, now, specs, ids, template);
    AttemptFrame(now, after, spec, trial.id, trial.stage);
    forall id | id in after && id !in before ensures Grounded(hosts, template, before, id, after[id]) {
      if id !in now {
        GroundedBefore(hosts, template, before, now, id, after[id]);
      }
    }
  }

  lemma AllMadeStep(before: VMs, now: VMs, after: VMs, specs: seq<NodeSpec>, ids: seq<nat>, id: nat)
    requires |ids| < |specs| && AllMade(before, now, specs[..|ids|], ids)
    requires Attempt(now, after, specs[|ids|], id, Started)
    ensures AllMade(before, after, specs[..|ids| + 1], ids + [id])
  {
    AttemptFrame(now, after, specs[|ids|], id, Started);
  }

  // An attempt keeps every VM that was there.
  lemma AttemptFrame(before: VMs, after: VMs, spec: NodeSpec, id: nat, stage: Stage)
    requires Attempt(before, after, spec, id, stage)
    ensures Untouched(before, after) && forall k :: k in after ==> k in before || k == id
  {
    assert forall k :: k in before ==> k in after - {id} && (after - {id})[k] == after[k];
    assert forall k :: k in after && k != id ==> k in after - {id};
  }

  lemma CreatedStep(created: seq<Node>, specs: seq<NodeSpec>, ids: seq<nat>, n: Node, id: nat)
    requires |ids| < |specs| && CreatedFor(created, specs[..|ids|], ids)
    requires n == Node(specs[|ids|].name, specs[|ids|].role, specs[|ids|].pool, id, n.host)
    ensures CreatedFor(created + [n], specs[..|ids| + 1], ids + [id])
  {
  }

  lemma AskedStep(specs: seq<NodeSpec>, ids: seq<nat>, id: nat, home: string, calls: seq<Call>)
    requires |ids| < |specs| && AllAsked(specs[..|ids|], ids, calls)
    ensures AllAsked(specs[..|ids| + 1], ids + [id], calls + CallsOf(specs[|ids|], id, home, None))
  {
    var spec, more := specs[|ids|], CallsOf(specs[|ids|], id, home, None);
    assert more[3] == Sent(Op.Clone(id, spec.name, home)) && more[5] == Sent(Op.Resize(id));
    assert more[4] == Sent(Op.Config(id, BuildTags(spec.cluster, spec.role, spec.pool), IPSetting(spec)));
    assert more[6] == Sent(Op.Start(id));
    assert forall i :: 0 <= i < |ids| ==> FullyAsked(specs[..|ids|][i], ids[i], calls);
  }

  lemma SessionIds(hosts: seq<Host>, template: string, before: VMs, now: VMs, specs: seq<NodeSpec>, created: seq<Node>,
                   ids: seq<nat>, calls: seq<Call>)
    requires Session(hosts, template, before, now, specs, created, ids, calls)
    ensures Ids(created) == Elements(ids) && DistinctIds(created) && Elements(ids) <= now.Keys
  {
    CreatedIds(created, specs, ids);
    assert forall i :: 0 <= i < |ids| ==> ids[i] in now;
  }

  lemma WentKeeps(hosts: seq<Host>, template: string, now: VMs, broken: VMs, spec: NodeSpec, trial: Trial, step: Step)
    requires Went(hosts, template, now, broken, spec, trial, Some(step))
    ensures now.Keys <= broken.Keys
  {
    AttemptFrame(now, broken, spec, trial.id, trial.stage);
  }

  lemma EmptySession(hosts: seq<Host>, template: string, vms: VMs)
    ensures Session(hosts, template, vms, vms, [], [], [], [])
  {
  }

  lemma SessionStep(hosts: seq<Host>, template: string, before: VMs, now: VMs, after: VMs, specs: seq<NodeSpec>,
                    created: seq<Node>, ids: seq<nat>, calls: seq<Call>, n: Node, trial: Trial)
    requires |ids| < |specs| && Session(hosts, template, before, now, specs[..|ids|], created, ids, calls)
    requires Went(hosts, template, now, after, specs[|ids|], trial, None)
    requires n == Node(specs[|ids|].name, specs[|ids|].role, specs[|ids|].pool, trial.id, n.host)
    ensures Session(hosts, template, before, after, specs[..|ids| + 1], created + [n], ids + [trial.id],
                    calls + CallsOf(specs[|ids|], trial.id, trial.home, None))
    ensures trial.why == []
  {
    CreatedStep(created, specs, ids, n, trial.id);
    AllMadeStep(before, now, after, specs, ids, trial.id);
    AskedStep(specs, ids, trial.id, trial.home, calls);
    StillOnSite(hosts, template, before, now, after, specs[..|ids|], ids, specs[|ids|], trial, None);
  }

  // --- giving up ---

  /** Where a rollback stands: every VM so far was tried; one is reported exactly if a call for it went fatally wrong, and
      is gone otherwise. */
  ghost predicate Undoing(before: VMs, now: VMs, doomed: set<nat>, warned: set<nat>, why: seq<Fault>, calls: seq<Call>) {
    && Undone(before, now, doomed, warned) && Tried(doomed, why, calls) && OnlyAbout(why, doomed)
    && forall id :: id in warned <==> id in doomed && Fatal(why, id)
  }

  lemma UndoneStep(before: VMs, now: VMs, after: VMs, doomed: set<nat>, warned: set<nat>, id: nat, fate: Fate, ok: bool)
    requires Undone(before, now, doomed, warned)
    requires after == AfterDelete(now, id, fate) && (ok ==> fate == Removed)
    ensures Undone(before, after, doomed + {id}, if ok then warned else warned + {id})
  {
  }

  // A node whose turn comes once is there until then.
  lemma NotYetTried(before: VMs, now: VMs, nodes: seq<Node>, i: nat, warned: set<nat>, why: seq<Fault>, calls: seq<Call>)
    requires i < |nodes| && DistinctIds(nodes) && Ids(nodes) <= before.Keys
    requires Undoing(before, now, Ids(nodes[..i]), warned, why, calls)
    ensures nodes[i].vmid !in Ids(nodes[..i]) && nodes[i].vmid in now && OnlyAbout(why, Ids(nodes[..i]))
  {
    assert nodes[i] in nodes && nodes[i].vmid in Ids(nodes);
  }

  lemma UndoingNothing(vms: VMs)
    ensures Undoing(vms, vms, Ids([]), Ids([]), [], [])
  {
  }

  lemma UndoingStep(before: VMs, now: VMs, after: VMs, doomed: set<nat>, warned: set<nat>, why: seq<Fault>, calls: seq<Call>,
                    id: nat, fate: Fate, ok: bool, more: seq<Fault>)
    requires Undoing(before, now, doomed, warned, why, calls)
    requires after == AfterDelete(now, id, fate) && (ok ==> fate == Removed)
    requires OnlyAbout(more, {id}) && (ok <==> !Fatal(more, id))
    ensures Undoing(before, after, doomed + {id}, if ok then warned else warned + {id}, why + more, calls + DeleteCalls(id, more))
  {
    hide Fatal, CutShort, Tried, DeleteCalls, Undone;
    UndoneStep(before, now, after, doomed, warned, id, fate, ok);
    TriedStep(doomed, why, calls, id, more);
    forall k ensures (Fatal(why + more, k) <==> Fatal(why, k) || (k == id && !ok)) && (Fatal(why, k) ==> k in doomed) {
      FaultsConcat(why, more, k);
      if k != id {
        NotAbout(more, {id}, k);
      }
      if k !in doomed {
        NotAbout(why, doomed, k);
      }
    }
  }

  /** Rollback exactness: after a failed creation the VM table is the initial one, plus VMs whose rollback was reported
      as failed, plus at most the VM of the failing attempt. */
  lemma RollbackExact(before: VMs, now: VMs, failed: VMs, after: VMs, specs: seq<NodeSpec>, made: seq<nat>, id: nat,
                      stage: Stage, warned: set<nat>)
    requires |made| < |specs| && AllMade(before, now, specs[..|made|], made)
    requires Attempt(now, failed, specs[|made|], id, stage)
    requires Undone(failed, after, (set k | k in made), warned)
    ensures RolledBack(before, after, specs, made + [id], stage, warned)
  {
    AttemptFrame(now, failed, specs[|made|], id, stage);
    var ids := made + [id];
    assert id !in made;
    forall i | 0 <= i < |ids| - 1 && ids[i] in after
      ensures ids[i] in warned
      ensures MadeFor(after[ids[i]], specs[i], Started) || MadeFor(after[ids[i]], specs[i], Configured)
    {
      assert ids[i] == made[i] && made[i] in (set k | k in made) && specs[..|made|][i] == specs[i];
      assert MadeFor(now[made[i]], specs[i], Started) && failed[made[i]] == now[made[i]];
    }
  }

  datatype RunError = Preflight | ListingNodes | Allocation(error: PlanError) | Creating(name: string, step: Step)

  /** A creation as it went: the ids used, the stage of the last one, what went wrong with it, what went wrong in the
      rollback, the ids reported there, and all calls. */
  datatype Story = Story(ids: seq<nat>, stage: Stage, why: seq<Fault>, undo: seq<Fault>, warned: set<nat>, calls: seq<Call>)

  const NO_STORY := Story([], Absent, [], [], {}, [])

  /** A failed creation, exactly: which node failed at which step and why, what is left, and whose rollback failed. */
  ghost predicate FailedAs(hosts: seq<Host>, template: string, before: VMs, after: VMs, specs: seq<NodeSpec>, e: RunError,
                           story: Story)
  {
    && RolledBack(before, after, specs, story.ids, story.stage, story.warned) && OnSite(hosts, template, before, after)
    && var last, made := |story.ids| - 1, Elements(story.ids[..|story.ids| - 1]);
    && e.Creating? && e.name == specs[last].name && story.stage == StageLeft(e.step, story.why)
    && Explained(e.step, story.ids[last], story.why, hosts, template, before)
    && Tried(made, story.undo, story.calls) && OnlyAbout(story.undo, made)
    && (forall id :: id in story.warned <==> id in made && Fatal(story.undo, id)) && KeptExactly(after, made, story.undo)
  }

  // Undoing keeps what is left on site.
  lemma UndoneOnSite(hosts: seq<Host>, template: string, before: VMs, broken: VMs, after: VMs, doomed: set<nat>,
                     warned: set<nat>)
    requires OnSite(hosts, template, before, broken) && Undone(broken, after, doomed, warned)
    ensures OnSite(hosts, template, before, after)
  {
    forall id | id in after && id !in before ensures Grounded(hosts, template, before, id, after[id]) {
      assert after[id].node == broken[id].node;
      assert Grounded(hosts, template, before, id, broken[id]);
    }
  }

  lemma GaveUp(hosts: seq<Host>, template: string, before: VMs, now: VMs, broken: VMs, after: VMs, specs: seq<NodeSpec>,
               created: seq<Node>, made: seq<nat>, calls: seq<Call>, trial: Trial, step: Step, warned: set<nat>, undo: seq<Fault>,
               more: seq<Call>)
    requires |made| < |specs| && Session(hosts, template, before, now, specs[..|made|], created, made, calls)
    requires Went(hosts, template, now, broken, specs[|made|], trial, Some(step))
    requires Undoing(broken, after, Elements(made), warned, undo, more) && KeptExactly(after, Elements(made), undo)
    ensures FailedAs(hosts, template, before, after, specs, Creating(specs[|made|].name, step),
                     Story(made + [trial.id], trial.stage, trial.why, undo, warned,
                           calls + CallsOf(specs[|made|], trial.id, trial.home, Some(step)) + more))
  {
    hide Fatal, Keeps, Tried, Grounded, MadeFor, StageLeft;
    var ids := made + [trial.id];
    assert ids[..|ids| - 1] == made;
    TriedLater(Elements(made), undo, calls + CallsOf(specs[|made|], trial.id, trial.home, Some(step)), more);
    RollbackExact(before, now, broken, after, specs, made, trial.id, trial.stage, warned);
    TemplatesKept(before, now, specs[..|made|], made, template);
    StillOnSite(hosts, template, before, now, broken, specs[..|made|], made, specs[|made|], trial, Some(step));
    UndoneOnSite(hosts, template, before, broken, after, Elements(made), warned);
  }

  // --- when a run succeeds ---

  /** A run of the configuration can succeed: the targets are online, the template is there, the plan is possible, and there
      is a host for whatever is missing. */
  ghost predicate Feasible(codec: Codec, hosts: seq<Host>, vms: VMs, cluster: Cluster) {
    && Checked(hosts, vms, cluster) && PlanOf(codec, cluster).Ok?
    && (ToCreateOn(codec, cluster, vms) == [] || Eligible(hosts, []) != [])
  }

  // The created nodes a complete run reports, for the VMs it made.
  ghost predicate Reports(codec: Codec, hosts: seq<Host>, before: VMs, after: VMs, cluster: Cluster, created: seq<Node>) {
    exists ids ::
      Completes(codec, hosts, before, after, cluster, ids) && CreatedFor(created, ToCreateOn(codec, cluster, before), ids)
  }

  /** Why a run failed, and with what effect; why is everything that went wrong. */
  ghost predicate FailedFor(codec: Codec, hosts: seq<Host>, before: VMs, after: VMs, cluster: Cluster, e: RunError,
                            why: seq<Fault>, calls: seq<Call>, story: Story)
  {
    match e
    case Preflight =>
      && after == before && OnlyReads(calls)
      && ((|why| == 1 && why[0].Unanswered?) || (why == [] && !Checked(hosts, before, cluster)))
    case ListingNodes => after == before && OnlyReads(calls) && why == [Unanswered(ResourceList)]
    case Allocation(error) => after == before && OnlyReads(calls) && why == [] && PlanOf(codec, cluster) == Err(error)
    case Creating(_, _) =>
      && PlanOf(codec, cluster).Ok? && why == story.why + story.undo
      && |story.calls| <= |calls| && story.calls == calls[|calls| - |story.calls|..]
      && FailedAs(hosts, cluster.template, before, after, ToCreateOn(codec, cluster, before), e, story)
  }

  // A complete creation of anything had a host.
  lemma MadeSomewhere(codec: Codec, hosts: seq<Host>, before: VMs, after: VMs, cluster: Cluster, ids: seq<nat>)
    requires Completes(codec, hosts, before, after, cluster, ids) && ToCreateOn(codec, cluster, before) != []
    ensures Eligible(hosts, []) != []
  {
    assert ids[0] in after && ids[0] in ids;
    assert Grounded(hosts, cluster.template, before, ids[0], after[ids[0]]);
  }

  /** A run never changes a VM that was there, template or not. */
  lemma RunKeeps(codec: Codec, hosts: seq<Host>, before: VMs, after: VMs, cluster: Cluster, ok: bool)
    requires CreateRun(codec, hosts, before, after, cluster, ok)
    ensures Untouched(before, after) && TemplatesUntouched(before, after)
  {
    hide PlanOf, ToCreateOn, MadeFor, OnSite, Checked;
  }

  // A run that stops before creating anything, without any bad call, was not feasible.
  lemma LookFailed(codec: Codec, hosts: seq<Host>, vms: VMs, cluster: Cluster, e: RunError, why: seq<Fault>, calls: seq<Call>)
    requires FailedFor(codec, hosts, vms, vms, cluster, e, why, calls, NO_STORY) && !e.Creating?
    ensures OnlyReads(calls) && CreateRun(codec, hosts, vms, vms, cluster, false)
    ensures why == [] ==> !Feasible(codec, hosts, vms, cluster)
  {
  }

  lemma BrokenRun(codec: Codec, hosts: seq<Host>, before: VMs, after: VMs, cluster: Cluster, e: RunError, story: Story)
    requires PlanOf(codec, cluster).Ok? && Checked(hosts, before, cluster)
    requires FailedAs(hosts, cluster.template, before, after, ToCreateOn(codec, cluster, before), e, story)
    ensures CreateRun(codec, hosts, before, after, cluster, false)
    ensures e.Creating? && ToCreateOn(codec, cluster, before) != []
    ensures story.why == [] ==> !Feasible(codec, hosts, before, cluster)
  {
    assert Breaks(codec, hosts, before, after, cluster, story.ids, story.stage, story.warned);
  }

  lemma FailedCreating(codec: Codec, hosts: seq<Host>, before: VMs, after: VMs, cluster: Cluster, e: RunError, why: seq<Fault>,
                       calls: seq<Call>, story: Story)
    requires PlanOf(codec, cluster).Ok? && e.Creating? && why == story.why + story.undo
    requires |story.calls| <= |calls| && story.calls == calls[|calls| - |story.calls|..]
    requires FailedAs(hosts, cluster.template, before, after, ToCreateOn(codec, cluster, before), e, story)
    ensures FailedFor(codec, hosts, before, after, cluster, e, why, calls, story)
  {
  }

  lemma CompleteRun(codec: Codec, hosts: seq<Host>, before: VMs, after: VMs, cluster: Cluster, created: seq<Node>,
                    ids: seq<nat>,
                    calls: seq<Call>)
    requires PlanOf(codec, cluster).Ok?
    requires Session(hosts, cluster.template, before, after, ToCreateOn(codec, cluster, before), created, ids, calls)
    requires Checked(hosts, before, cluster)
    ensures CreateRun(codec, hosts, before, after, cluster, true) && Reports(codec, hosts, before, after, cluster, created)
    ensures Feasible(codec, hosts, before, cluster) && AllAsked(ToCreateOn(codec, cluster, before), ids, calls)
  {
    assert Completes(codec, hosts, before, after, cluster, ids);
    if ToCreateOn(codec, cluster, before) != [] {
      MadeSomewhere(codec, hosts, before, after, cluster, ids);
    }
  }

  // The clone of the failing attempt took effect.
  predicate CloneTook(step: Step, why: seq<Fault>) {
    || step.Configuring? || step.Resizing? || step.Starting?
    || (step.Cloning? && |why| == 1 && Bad(why[0]) && why[0].took)
  }

  /** What a failed creation leaves, exactly, from what went wrong: the VM of the failing attempt if its clone took effect,
      and the completed ones whose deletion had no effect. */
  lemma LeftByStep(hosts: seq<Host>, template: string, before: VMs, after: VMs, specs: seq<NodeSpec>, e: RunError, story: Story)
    requires FailedAs(hosts, template, before, after, specs, e, story)
    ensures var last := |story.ids| - 1;
            && (story.ids[last] in after <==> CloneTook(e.step, story.why))
            && (forall i :: 0 <= i < last ==> (story.ids[i] in after <==> Keeps(story.undo, story.ids[i])))
    ensures after == before <==>
            !CloneTook(e.step, story.why) && forall i :: 0 <= i < |story.ids| - 1 ==> !Keeps(story.undo, story.ids[i])
  {
    hide Keeps, Grounded, Explained, Tried, Fatal, MadeFor;
    var ids := story.ids;
    var last := |ids| - 1;
    forall i | 0 <= i < last ensures ids[i] in after <==> Keeps(story.undo, ids[i]) {
      assert ids[..last][i] in Elements(ids[..last]);
    }
    assert forall i :: 0 <= i <= last ==> ids[i] in ids && ids[i] !in before;
    if !CloneTook(e.step, story.why) && forall i :: 0 <= i < last ==> !Keeps(story.undo, ids[i]) {
      forall id | id in ids ensures id !in after {
        var i :| 0 <= i < |ids| && ids[i] == id;
      }
      SameMap(before, after);
    }
  }

  // A run that can get as far as a clone may break down right after it.
  lemma FirstCloneLeft(codec: Codec, hosts: seq<Host>, before: VMs, cluster: Cluster) returns (after: VMs, id: nat)
    requires Feasible(codec, hosts, before, cluster) && ToCreateOn(codec, cluster, before) != []
    ensures id !in before && id in after && Breaks(codec, hosts, before, after, cluster, [id], Bare, {})
  {
    var t :| t in before && IsTemplate(before[t], cluster.template);
    id := UnusedId(before.Keys);
    after := before[id := VM(ToCreateOn(codec, cluster, before)[0].name, before[t].node, "", false, false, "")];
    assert TemplateHome(before, cluster.template, after[id].node);
  }

  /** ROADMAP.md asks that a failed run leave no VM behind. For which inputs do all failed runs leave the table as it was?
      Exactly those with which no run can get as far as a clone: not feasible, or nothing missing. */
  lemma NoOrphanIff(codec: Codec, hosts: seq<Host>, before: VMs, cluster: Cluster)
    ensures (forall after :: CreateRun(codec, hosts, before, after, cluster, false) ==> after == before) <==>
            !Feasible(codec, hosts, before, cluster) || ToCreateOn(codec, cluster, before) == []
  {
    if Feasible(codec, hosts, before, cluster) && ToCreateOn(codec, cluster, before) != [] {
      var after, id := FirstCloneLeft(codec, hosts, before, cluster);
      assert CreateRun(codec, hosts, before, after, cluster, false) && after != before;
    } else {
      forall after | CreateRun(codec, hosts, before, after, cluster, false) ensures after == before {
        NothingLeft(codec, hosts, before, after, cluster);
      }
    }
  }

  lemma NothingLeft(codec: Codec, hosts: seq<Host>, before: VMs, after: VMs, cluster: Cluster)
    requires CreateRun(codec, hosts, before, after, cluster, false)
    requires !Feasible(codec, hosts, before, cluster) || ToCreateOn(codec, cluster, before) == []
    ensures after == before
  {
    if after != before {
      var ids, stage, warned :| Breaks(codec, hosts, before, after, cluster, ids, stage, warned);
      assert Eligible(hosts, []) == [];
      assert forall id :: id in after ==> id in before;
      SameMap(before, after);
    }
  }

  lemma AskedLater(specs: seq<NodeSpec>, ids: seq<nat>, earlier: seq<Call>, calls: seq<Call>)
    requires AllAsked(specs, ids, calls)
    ensures AllAsked(specs, ids, earlier + calls)
  {
  }

  class Pipeline {
    const provider: ProxmoxProvider

    constructor (provider: ProxmoxProvider)
      ensures this.provider == provider
    {
      this.provider := provider;
    }

    method ExistingNames(existing: seq<Node>) returns (existingNames: map<string, bool>)
      ensures forall n :: n in existingNames <==> n in NodeNames(existing)
      ensures forall n :: n in existingNames ==> existingNames[n]
    {
      existingNames := map[];
      for i := 0 to |existing|
        invariant forall n :: n in existingNames <==> n in NodeNames(existing[..i])
        invariant forall n :: n in existingNames ==> existingNames[n]
      {
        NodeNamesAppend(existing[..i], existing[i]);
        assert existing[..i + 1] == existing[..i] + [existing[i]];
        existingNames := existingNames[existing[i].name := true];
      }
      assert existing[..|existing|] == existing;
    }

    // The two loops that build the list of missing nodes.
    method PlanCreation(cluster: Cluster, plan: IPPlan, existing: seq<Node>) returns (toCreate: seq<NodeSpec>)
      ensures toCreate == ToCreate(cluster, plan, NodeNames(existing))
    {
      var existingNames := ExistingNames(existing);
      toCreate := CreationList(cluster, plan, existingNames, NodeNames(existing));
    }

    method CreationList(cluster: Cluster, plan: IPPlan, existingNames: map<string, bool>, ghost names: set<string>)
      returns (toCreate: seq<NodeSpec>)
      requires forall n :: n in existingNames <==> n in names
      requires forall n :: n in existingNames ==> existingNames[n]
      ensures toCreate == ToCreate(cluster, plan, names)
    {
      hide Missing, SpecsOf;
      NoSpecs(cluster, plan, names);
      toCreate := AddMissing(cluster, plan, existingNames, 0, [], names);
      for w := 0 to |cluster.workers|
        invariant toCreate == Missing(SpecsOf(cluster, plan, w + 1), names)
      {
        toCreate := AddMissing(cluster, plan, existingNames, w + 1, toCreate, names);
      }
    }

    // The loop over one pool, the same for the masters and for each worker pool.
    method AddMissing(cluster: Cluster, plan: IPPlan, existingNames: map<string, bool>, p: nat, before: seq<NodeSpec>,
                      ghost names: set<string>)
      returns (toCreate: seq<NodeSpec>)
      requires forall n :: n in existingNames <==> n in names
      requires forall n :: n in existingNames ==> existingNames[n]
      requires p < |cluster.Pools()| && before == Missing(SpecsOf(cluster, plan, p), names)
      ensures toCreate == Missing(SpecsOf(cluster, plan, p + 1), names)
    {
      hide SpecsOf, NodeName;
      var pool := cluster.Pools()[p];
      ghost var specs := PoolSpecs(cluster, plan, p);
      toCreate := before;
      for i := 0 to pool.count
        invariant toCreate == before + Missing(specs[..i], names)
      {
        var name := NodeName(cluster.name, pool.name, i + 1);
        var ipConfig := if name in plan then plan[name] else "";
        var spec := NodeSpec(name, cluster.name, if p == 0 then Master else Worker, pool.name, cluster.network.mode, ipConfig);
        MissingNext(cluster, plan, p, i, names, spec);
        if name in existingNames && existingNames[name] {
          continue;
        }
        toCreate := toCreate + [spec];
      }
      assert specs[..pool.count] == specs;
      MissingPool(cluster, plan, p, names);
    }

    /** Deletes the nodes of this session one after the other; a failure is only reported, and the next node is
        tried. */
    method Rollback(nodes: seq<Node>) returns (warned: seq<Node>, ghost why: seq<Fault>, ghost calls: seq<Call>)
      requires provider.server.Faithful()
      modifies provider.server
      ensures provider.server.Faithful() && provider.server.hosts == old(provider.server.hosts)
      ensures provider.server.faults == old(provider.server.faults) + why
      ensures provider.server.calls == old(provider.server.calls) + calls
      ensures Undoing(old(provider.server.vms), provider.server.vms, Ids(nodes), Ids(warned), why, calls)
      ensures forall n :: n in warned ==> n in nodes
      ensures DistinctIds(nodes) && Ids(nodes) <= old(provider.server.vms).Keys ==>
                KeptExactly(provider.server.vms, Ids(nodes), why)
    {
      hide FaultsOf, Undoing, KeptExactly, Fatal, Keeps, OnlyAbout, DeleteCalls, Ids;
      ghost var before := provider.server.vms;
      warned, why, calls := [], [], [];
      UndoingNothing(before);
      NoneKept(before);
      for i := 0 to |nodes|
        invariant provider.server.Faithful() && provider.server.hosts == old(provider.server.hosts)
        invariant provider.server.faults == old(provider.server.faults) + why
        invariant provider.server.calls == old(provider.server.calls) + calls
        invariant Undoing(before, provider.server.vms, Ids(nodes[..i]), Ids(warned), why, calls)
        invariant forall n :: n in warned ==> n in nodes
        invariant DistinctIds(nodes) && Ids(nodes) <= before.Keys ==> KeptExactly(provider.server.vms, Ids(nodes[..i]), why)
      {
        ghost var now := provider.server.vms;
        var ok, fate, more := provider.DeleteNode(nodes[i]);
        UndoingStep(before, now, provider.server.vms, Ids(nodes[..i]), Ids(warned), why, calls, nodes[i].vmid, fate, ok, more);
        if DistinctIds(nodes) && Ids(nodes) <= before.Keys {
          NotYetTried(before, now, nodes, i, Ids(warned), why, calls);
          KeptStep(now, provider.server.vms, Ids(nodes[..i]), why, nodes[i].vmid, fate, more);
        }
        IdsAppend(nodes[..i], nodes[i]);
        IdsAppend(warned, nodes[i]);
        assert nodes[..i + 1] == nodes[..i] + [nodes[i]];
        why, calls := why + more, calls + DeleteCalls(nodes[i].vmid, more);
        if !ok {
          warned := warned + [nodes[i]];
        }
      }
      assert nodes[..|nodes|] == nodes;
    }

    // Gives up after a failed attempt: the completed nodes are rolled back, the failed one is not.
    method Abandon(completed: seq<Node>, ghost before: VMs, ghost now: VMs, ghost specs: seq<NodeSpec>, ghost made: seq<nat>,
                   ghost calls: seq<Call>, ghost trial: Trial, step: Step)
      returns (ghost story: Story)
      requires provider.server.Faithful() && |made| < |specs|
      requires Session(provider.server.hosts, provider.templateName, before, now, specs[..|made|], completed, made, calls)
      requires Went(provider.server.hosts, provider.templateName, now, provider.server.vms, specs[|made|], trial, Some(step))
      modifies provider.server
      ensures provider.server.Faithful() && provider.server.hosts == old(provider.server.hosts)
      ensures provider.server.faults == old(provider.server.faults) + story.undo && story.why == trial.why
      ensures calls + CallsOf(specs[|made|], trial.id, trial.home, Some(step)) <= story.calls
      ensures provider.server.calls == old(provider.server.calls)
                                       + story.calls[|calls + CallsOf(specs[|made|], trial.id, trial.home, Some(step))|..]
      ensures FailedAs(provider.server.hosts, provider.templateName, before, provider.server.vms, specs,
                       Creating(specs[|made|].name, step), story)
    {
      hide FaultsOf, Session, Went, FailedAs, CallsOf, Undoing, AllMade, CreatedFor;
      ghost var broken := provider.server.vms;
      SessionIds(provider.server.hosts, provider.templateName, before, now, specs[..|made|], completed, made, calls);
      WentKeeps(provider.server.hosts, provider.templateName, now, broken, specs[|made|], trial, step);
      var warned;
      ghost var undo, more;
      warned, undo, more := Rollback(completed);
      GaveUp(provider.server.hosts, provider.templateName, before, now, broken, provider.server.vms, specs, completed, made, calls,
             trial, step, Ids(warned), undo, more);
      story := Story(made + [trial.id], trial.stage, trial.why, undo, Ids(warned),
                     calls + CallsOf(specs[|made|], trial.id, trial.home, Some(step)) + more);
    }

    /** Creates the missing nodes in order; at the first failure, rolls back the completed ones. */
    method CreateAll(toCreate: seq<NodeSpec>) returns (r: Result<seq<Node>, RunError>, ghost story: Story)
      requires provider.Ready()
      modifies provider.server, provider.strategy, provider.table
      ensures provider.Ready() && provider.server.hosts == old(provider.server.hosts)
      ensures provider.server.faults == old(provider.server.faults) + story.why + story.undo
      ensures provider.server.calls == old(provider.server.calls) + story.calls
      ensures match r
              case Ok(created) =>
                && story.why == [] && story.undo == []
                && Session(provider.server.hosts, provider.templateName, old(provider.server.vms), provider.server.vms, toCreate,
                           created, story.ids, story.calls)
              case Err(e) =>
                FailedAs(provider.server.hosts, provider.templateName, old(provider.server.vms), provider.server.vms, toCreate, e,
                         story)
    {
      hide FaultsOf, Session, Went, FailedAs, CallsOf;
      ghost var before := provider.server.vms;
      var created: seq<Node> := [];
      var rollback: seq<Node> := [];
      ghost var ids: seq<nat>, calls: seq<Call> := [], [];
      EmptySession(provider.server.hosts, provider.templateName, before);
      for i := 0 to |toCreate|
        invariant provider.Ready() && provider.server.hosts == old(provider.server.hosts)
        invariant provider.server.faults == old(provider.server.faults)
        invariant provider.server.calls == old(provider.server.calls) + calls
        invariant Session(provider.server.hosts, provider.templateName, before, provider.server.vms, toCreate[..i], created, ids,
                          calls)
        invariant |ids| == i && rollback == created
      {
        ghost var now := provider.server.vms;
        var n, trial := provider.CreateNode(toCreate[i]);
        if n.Err? {
          story := Abandon(rollback, before, now, toCreate, ids, calls, trial, n.error);
          return Err(Creating(toCreate[i].name, n.error)), story;
        }
        SessionStep(provider.server.hosts, provider.templateName, before, now, provider.server.vms, toCreate, created, ids, calls,
                    n.value, trial);
        ids, calls := ids + [trial.id], calls + CallsOf(toCreate[i], trial.id, trial.home, None);
        created := created + [n.value];
        rollback := rollback + [n.value];
      }
      assert toCreate[..|toCreate|] == toCreate;
      return Ok(created), Story(ids, Started, [], [], {}, calls);
    }

    // With nothing to create, nothing is asked of the server.
    method ProvisionNodes(cluster: Cluster, plan: IPPlan, existing: seq<Node>)
      returns (r: Result<seq<Node>, RunError>, ghost story: Story)
      requires provider.Ready()
      modifies provider.server, provider.strategy, provider.table
      ensures provider.Ready() && provider.server.hosts == old(provider.server.hosts)
      ensures provider.server.faults == old(provider.server.faults) + story.why + story.undo
      ensures provider.server.calls == old(provider.server.calls) + story.calls
      ensures var specs := ToCreate(cluster, plan, NodeNames(existing));
              && (specs == [] ==> r.Ok? && story.calls == [])
              && match r
                 case Ok(created) =>
                   && story.why == [] && story.undo == []
                   && Session(provider.server.hosts, provider.templateName, old(provider.server.vms), provider.server.vms, specs,
                              created, story.ids, story.calls)
                 case Err(e) =>
                   FailedAs(provider.server.hosts, provider.templateName, old(provider.server.vms), provider.server.vms, specs, e,
                            story)
    {
      hide FaultsOf, ToCreate;
      var toCreate := PlanCreation(cluster, plan, existing);
      if |toCreate| == 0 {
        return Ok([]), NO_STORY;
      }
      r, story := CreateAll(toCreate);
    }

    // Phases 1 to 3: preflight, listing, address plan. They change nothing.
    method Look(codec: Codec, cluster: Cluster)
      returns (r: Result<(seq<Node>, IPPlan), RunError>, ghost why: seq<Fault>, ghost calls: seq<Call>)
      requires provider.Ready() && cluster.template == provider.templateName
      modifies provider.server`calls, provider.server`faults
      ensures provider.Ready() && OnlyReads(calls)
      ensures provider.server.faults == old(provider.server.faults) + why
      ensures provider.server.calls == old(provider.server.calls) + calls
      ensures match r
              case Ok((existing, plan)) =>
                && why == [] && PlanOf(codec, cluster) == Ok(plan) && Listing(provider.server.vms, cluster.name, existing)
                && Checked(provider.server.hosts, provider.server.vms, cluster)
              case Err(e) =>
                && !e.Creating?
                && FailedFor(codec, provider.server.hosts, provider.server.vms, provider.server.vms, cluster, e, why,
                             calls, NO_STORY)
    {
      hide FaultsOf, PlanOf, Feasible;
      var checked;
      checked, why, calls := provider.Preflight(cluster.targets);
      if !checked {
        return Err(RunError.Preflight), why, calls;
      }
      var listed := provider.ListNodes(cluster.name);
      calls := calls + [Asked(ResourceList)];
      if listed.None? {
        return Err(ListingNodes), [Unanswered(ResourceList)], calls;
      }
      var plan := PlanIPs(codec, cluster, listed.value);
      if plan.Err? {
        return Err(Allocation(plan.error)), [], calls;
      }
      return Ok((listed.value, plan.value)), [], calls;
    }

    /** Phases 1 to 4 of a create run, and the split that the later phases start from. The run succeeds exactly when it is
        feasible and no call goes wrong. */
    method Run(codec: Codec, cluster: Cluster)
      returns (r: Result<(seq<Node>, seq<Node>), RunError>, ghost existing: seq<Node>, ghost created: seq<Node>,
               ghost why: seq<Fault>, ghost calls: seq<Call>, ghost story: Story)
      requires provider.Ready() && cluster.template == provider.templateName
      modifies provider.server, provider.strategy, provider.table
      ensures provider.Ready() && provider.server.hosts == old(provider.server.hosts)
      ensures provider.server.faults == old(provider.server.faults) + why
      ensures provider.server.calls == old(provider.server.calls) + calls
      ensures CreateRun(codec, provider.server.hosts, old(provider.server.vms), provider.server.vms, cluster, r.Ok?)
      ensures Untouched(old(provider.server.vms), provider.server.vms)
      ensures r.Ok? <==> why == [] && Feasible(codec, provider.server.hosts, old(provider.server.vms), cluster)
      ensures match r
              case Ok(split) =>
                && Listing(old(provider.server.vms), cluster.name, existing)
                && Reports(codec, provider.server.hosts, old(provider.server.vms), provider.server.vms, cluster, created)
                && split == (ByRole(existing + created, true), ByRole(existing + created, false))
                && AllAsked(ToCreateOn(codec, cluster, old(provider.server.vms)), story.ids, calls)
              case Err(e) =>
                FailedFor(codec, provider.server.hosts, old(provider.server.vms), provider.server.vms, cluster, e, why,
                          calls, story)
      ensures PlanOf(codec, cluster).Err? || ToCreateOn(codec, cluster, old(provider.server.vms)) == [] ==> OnlyReads(calls)
    {
      hide FaultsOf, ByRole, ToCreate, PlanOf, Eligible, FailedAs, FailedFor, Session, Feasible, Checked, CreateRun, Reports,
           AllAsked, Untouched, OnlyReads, Names, NodeNames, Listing;
      existing, created, story := [], [], NO_STORY;
      ghost var hosts, before := provider.server.hosts, provider.server.vms;
      var looked;
      looked, why, calls := Look(codec, cluster);
      if looked.Err? {
        LookFailed(codec, hosts, before, cluster, looked.error, why, calls);
        RunKeeps(codec, hosts, before, before, cluster, false);
        return Err(looked.error), existing, created, why, calls, story;
      }
      var (listed, plan) := looked.value;
      existing := listed;
      ListingNames(before, cluster.name, existing);
      var made;
      made, story := ProvisionNodes(cluster, plan, listed);
      why := story.why + story.undo;
      if made.Err? {
        BrokenRun(codec, hosts, before, provider.server.vms, cluster, made.error, story);
        RunKeeps(codec, hosts, before, provider.server.vms, cluster, false);
        FailedCreating(codec, hosts, before, provider.server.vms, cluster, made.error, why, calls + story.calls, story);
        return Err(made.error), existing, created, why, calls + story.calls, story;
      }
      assert calls + [] == calls;
      created := made.value;
      CompleteRun(codec, hosts, before, provider.server.vms, cluster, created, story.ids, story.calls);
      RunKeeps(codec, hosts, before, provider.server.vms, cluster, true);
      AskedLater(ToCreateOn(codec, cluster, before), story.ids, calls, story.calls);
      var masters, workers := SplitByRole(listed + made.value);
      return Ok((masters, workers)), existing, created, why, calls + story.calls, story;
    }
  }
}
