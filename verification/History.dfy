/** Sequences of create and delete runs, each of which may have failed at any call. */
module History {
  import opened Text
  import opened Tags
  import opened Ipam
  import opened Domain
  import opened Placement
  import opened Plan
  import opened Server
  import opened Provider
  import opened Create
  import opened Delete

  /** A run that has ended, for a configuration and the hosts it found or, when deleting, for a cluster name. */
  datatype Event = Created(cluster: Cluster, hosts: seq<Host>, ok: bool) | Deleted(name: string, ok: bool)

  /** Names that survive being tags. */
  predicate CleanTags(c: Cluster) {
    CleanName(c.name) && forall p :: p in c.Pools() ==> ';' !in p.name
  }

  /** What the documentation asks of a configuration and the code does not check: names without ';', a cluster name
      without trailing white space, pool names pairwise different. */
  predicate ValidCluster(c: Cluster) {
    CleanTags(c) && c.masters.name == MASTER_POOL && DistinctPools(c.Pools()) && PositiveCounts(c.Pools())
  }

  ghost predicate StepOf(codec: Codec, before: VMs, e: Event, after: VMs) {
    match e
    case Created(c, hosts, ok) => ValidCluster(c) && CreateRun(codec, hosts, before, after, c, ok)
    case Deleted(name, ok) => DeleteRun(before, after, name, ok)
  }

  /** A history: the VM table before, between and after the runs. */
  ghost predicate Runs(codec: Codec, states: seq<VMs>, events: seq<Event>) {
    && |states| == |events| + 1
    && forall i :: 0 <= i < |events| ==> StepOf(codec, states[i], events[i], states[i + 1])
  }

  // --- what one create run adds ---

  predicate Made(vm: VM, spec: NodeSpec) {
    MadeFor(vm, spec, Bare) || MadeFor(vm, spec, Configured) || MadeFor(vm, spec, Started)
  }

  // The part that complete and rolled back runs have in common.
  ghost predicate Grown(before: VMs, after: VMs, specs: seq<NodeSpec>, ids: seq<nat>) {
    && |ids| <= |specs| && FreshIds(ids, before) && Untouched(before, after)
    && (forall id :: id in after ==> id in before || id in ids)
    && (forall i :: 0 <= i < |ids| && ids[i] in after ==> Made(after[ids[i]], specs[i]))
  }

  // What a create run adds: VMs made for specs of its configuration whose names were missing.
  ghost predicate RunAdds(codec: Codec, before: VMs, after: VMs, c: Cluster, specs: seq<NodeSpec>, ids: seq<nat>) {
    && ValidCluster(c) && Grown(before, after, specs, ids)
    && (specs == [] || (PlanOf(codec, c).Ok? && specs == ToCreateOn(codec, c, before)))
  }

  lemma RolledBackGrows(before: VMs, after: VMs, specs: seq<NodeSpec>, ids: seq<nat>, stage: Stage, warned: set<nat>)
    requires RolledBack(before, after, specs, ids, stage, warned)
    ensures Grown(before, after, specs, ids)
  {
  }

  lemma AllMadeGrows(before: VMs, after: VMs, specs: seq<NodeSpec>, ids: seq<nat>)
    requires AllMade(before, after, specs, ids)
    ensures Grown(before, after, specs, ids)
  {
  }

  lemma CreateGrows(codec: Codec, hosts: seq<Host>, before: VMs, after: VMs, c: Cluster,
                    ok: bool) returns (specs: seq<NodeSpec>, ids: seq<nat>)
    requires ValidCluster(c) && CreateRun(codec, hosts, before, after, c, ok)
    ensures RunAdds(codec, before, after, c, specs, ids)
  {
    if ok {
      ids :| Completes(codec, hosts, before, after, c, ids);
      specs := ToCreateOn(codec, c, before);
      AllMadeGrows(before, after, specs, ids);
    } else if after == before {
      specs, ids := [], [];
      assert AllMade(before, after, [], []);
    } else {
      var stage, warned;
      ids, stage, warned :| Breaks(codec, hosts, before, after, c, ids, stage, warned);
      specs := ToCreateOn(codec, c, before);
      RolledBackGrows(before, after, specs, ids, stage, warned);
    }
  }

  /** A run that is killed, rather than failing, also leaves a state of this kind, so the histories cover it: the first
      specs made, one more attempt at any stage, and a rollback that may have been cut short. */
  lemma KilledRunCovered(codec: Codec, hosts: seq<Host>, before: VMs, now: VMs, broken: VMs, after: VMs, c: Cluster,
                         made: seq<nat>, id: nat, stage: Stage)
    requires Checked(hosts, before, c) && PlanOf(codec, c).Ok? && |made| < |ToCreateOn(codec, c, before)|
    requires var specs := ToCreateOn(codec, c, before);
             && AllMade(before, now, specs[..|made|], made)
             && Attempt(now, broken, specs[|made|], id, stage)
    requires OnSite(hosts, c.template, before, broken)
    requires Undone(broken, after, Elements(made), Elements(made))
    ensures CreateRun(codec, hosts, before, after, c, false)
  {
    hide ToCreateOn, RolledBack, AllMade, Attempt;
    RollbackExact(before, now, broken, after, ToCreateOn(codec, c, before), made, id, stage, Elements(made));
    UndoneOnSite(hosts, c.template, before, broken, after, Elements(made), Elements(made));
    assert Breaks(codec, hosts, before, after, c, made + [id], stage, Elements(made));
  }

  // A VM made for a spec is listed for the spec's cluster alone, and only once it is tagged.
  lemma MadeMember(c: Cluster, plan: IPPlan, spec: NodeSpec, vm: VM, stage: Stage, name: string)
    requires CleanTags(c) && SpecIn(c, plan, spec) && MadeFor(vm, spec, stage)
    ensures Member(vm, name) <==> stage != Bare && name == c.name
  {
    var p: nat, i: nat :| IsSpec(c, plan, p, i, spec);
    assert c.Pools()[p] in c.Pools();
    if stage == Bare {
      BareTags(name);
    } else {
      ClusterRoundTrip(spec.cluster, spec.role, spec.pool, name);
      TrimRightResult(c.name);
    }
  }

  lemma BareTags(name: string)
    ensures !HasTag("", ClusterTag(name))
  {
    SplitWhole("", ';');
    assert [""][1..] == [];
    assert !AnyTrimmed([""][1..], ClusterTag(name));
    assert Trim("") == "" && |ClusterTag(name)| > 0;
  }

  // A new member of some cluster belongs to the run's cluster and was made for one of its missing names.
  lemma NewMember(codec: Codec, before: VMs, after: VMs, c: Cluster, specs: seq<NodeSpec>, ids: seq<nat>, id: nat, name: string)
      returns (i: nat)
    requires RunAdds(codec, before, after, c, specs, ids)
    requires id in after && id !in before && Member(after[id], name)
    ensures name == c.name && i < |ids| && ids[i] == id && specs != []
    ensures SpecIn(c, PlanOf(codec, c).value, specs[i]) && specs[i].name !in Names(before, name)
    ensures MadeFor(after[id], specs[i], Configured) || MadeFor(after[id], specs[i], Started)
    ensures DistinctNames(specs)
  {
    i :| 0 <= i < |ids| && ids[i] == id;
    ToCreateSpecs(c, PlanOf(codec, c).value, Names(before, c.name));
    assert specs[i] in specs;
    var stage := if MadeFor(after[id], specs[i], Bare) then Bare
                 else if MadeFor(after[id], specs[i], Configured) then Configured else Started;
    MadeMember(c, PlanOf(codec, c).value, specs[i], after[id], stage, name);
  }

  // --- names stay unique ---

  /** No two VMs listed for a cluster have the same name. */
  ghost predicate UniqueFor(vms: VMs, name: string) {
    forall i, j :: i in vms && j in vms && Member(vms[i], name) && Member(vms[j], name) && vms[i].name == vms[j].name ==> i == j
  }

  ghost predicate UniqueNames(vms: VMs) {
    forall name: string :: UniqueFor(vms, name)
  }

  lemma NewNameIsNew(codec: Codec, before: VMs, after: VMs, c: Cluster, specs: seq<NodeSpec>, ids: seq<nat>, id: nat,
                     name: string)
    requires RunAdds(codec, before, after, c, specs, ids)
    requires id in after && id !in before && Member(after[id], name)
    ensures after[id].name !in Names(before, name)
  {
    var i := NewMember(codec, before, after, c, specs, ids, id, name);
  }

  lemma NewNamesDiffer(before: VMs, after: VMs, specs: seq<NodeSpec>, ids: seq<nat>, i: nat, j: nat)
    requires Grown(before, after, specs, ids) && DistinctNames(specs)
    requires i in after && i !in before && j in after && j !in before && after[i].name == after[j].name
    ensures i == j
  {
    var a :| 0 <= a < |ids| && ids[a] == i;
    var b :| 0 <= b < |ids| && ids[b] == j;
    assert after[i].name == specs[a].name && after[j].name == specs[b].name;
  }

  // What a delete run leaves has kept its name, tags, address and template flag.
  lemma DeleteKeepsIdentity(before: VMs, after: VMs, name: string, ok: bool)
    requires DeleteRun(before, after, name, ok)
    ensures forall id :: id in after ==> id in before && after[id].(running := before[id].running) == before[id]
    ensures forall id, other: string :: id in after ==> (Member(after[id], other) <==> Member(before[id], other))
  {
  }

  /** A run, whatever its outcome, keeps names unique for any cluster, its own or another. */
  lemma CreateKeepsUnique(codec: Codec, hosts: seq<Host>, before: VMs, after: VMs, c: Cluster, ok: bool, name: string)
    requires ValidCluster(c) && CreateRun(codec, hosts, before, after, c, ok) && UniqueFor(before, name)
    ensures UniqueFor(after, name)
  {
    var specs, ids := CreateGrows(codec, hosts, before, after, c, ok);
    assert Untouched(before, after);
    forall i, j | i in after && j in after && Member(after[i], name) && Member(after[j], name) && after[i].name == after[j].name
      ensures i == j
    {
      if i !in before {
        NewNameIsNew(codec, before, after, c, specs, ids, i, name);
      }
      if j !in before {
        NewNameIsNew(codec, before, after, c, specs, ids, j, name);
      }
      if i !in before && j !in before {
        ToCreateSpecs(c, PlanOf(codec, c).value, Names(before, c.name));
        NewNamesDiffer(before, after, specs, ids, i, j);
      }
      assert i in before ==> before[i].name in Names(before, name);
      assert j in before ==> before[j].name in Names(before, name);
    }
  }

  lemma DeleteKeepsUnique(before: VMs, after: VMs, deleted: string, ok: bool, name: string)
    requires DeleteRun(before, after, deleted, ok) && UniqueFor(before, name)
    ensures UniqueFor(after, name)
  {
    DeleteKeepsIdentity(before, after, deleted, ok);
  }

  lemma StepKeepsUnique(codec: Codec, before: VMs, e: Event, after: VMs, name: string)
    requires StepOf(codec, before, e, after) && UniqueFor(before, name)
    ensures UniqueFor(after, name)
  {
    match e
    case Created(c, hosts, ok) => CreateKeepsUnique(codec, hosts, before, after, c, ok, name);
    case Deleted(deleted, ok) => DeleteKeepsUnique(before, after, deleted, ok, name);
  }

  lemma {:induction false} HistoryUniqueFor(codec: Codec, states: seq<VMs>, events: seq<Event>, name: string, k: nat)
    requires Runs(codec, states, events) && UniqueFor(states[0], name) && k <= |events|
    ensures UniqueFor(states[k], name)
  {
    hide UniqueFor, StepOf;
    if k == 0 {
    } else {
      HistoryUniqueFor(codec, states, events, name, k - 1);
      assert StepOf(codec, states[k - 1], events[k - 1], states[k - 1 + 1]);
      StepKeepsUnique(codec, states[k - 1], events[k - 1], states[k], name);
    }
  }

  /** In every state that any sequence of create and delete runs reaches, names are unique within each cluster. */
  lemma HistoryUnique(codec: Codec, states: seq<VMs>, events: seq<Event>, k: nat)
    requires Runs(codec, states, events) && UniqueNames(states[0]) && k <= |events|
    ensures UniqueNames(states[k])
  {
    hide UniqueFor, StepOf;
    forall name: string ensures UniqueFor(states[k], name) {
      assert UniqueFor(states[0], name);
      HistoryUniqueFor(codec, states, events, name, k);
    }
  }

  // --- templates ---

  lemma StepKeepsTemplates(codec: Codec, before: VMs, e: Event, after: VMs)
    requires StepOf(codec, before, e, after)
    ensures TemplatesUntouched(before, after)
  {
    match e
    case Created(c, hosts, ok) => RunKeeps(codec, hosts, before, after, c, ok);
    case Deleted(name, ok) => DeleteKeepsTemplates(before, after, name, ok);
  }

  /** Over any history a template stays as it was, whatever tags it carries, and no listing ever shows it. */
  lemma {:induction false} HistoryTemplates(codec: Codec, states: seq<VMs>, events: seq<Event>, k: nat)
    requires Runs(codec, states, events) && k <= |events|
    ensures TemplatesUntouched(states[0], states[k])
    ensures forall name: string, nodes: seq<Node>, n: Node :: Listing(states[k], name, nodes) && n in nodes ==>
              !(n.vmid in states[0] && states[0][n.vmid].template)
  {
    hide StepOf, Listing;
    if k == 0 {
    } else {
      HistoryTemplates(codec, states, events, k - 1);
      assert StepOf(codec, states[k - 1], events[k - 1], states[k - 1 + 1]);
      StepKeepsTemplates(codec, states[k - 1], events[k - 1], states[k]);
    }
    forall name: string, nodes: seq<Node>, n: Node | Listing(states[k], name, nodes) && n in nodes
      ensures !(n.vmid in states[0] && states[0][n.vmid].template)
    {
      ListedOnly(states[k], name, nodes);
    }
  }

  // With no node listed, every spec is missing.
  lemma {:induction false} AllMissing(specs: seq<NodeSpec>)
    ensures Missing(specs, {}) == specs
  {
    if specs == [] {
    } else {
      AllMissing(specs[..|specs| - 1]);
    }
  }

  // The VMs of a complete first run, one for each desired name.
  lemma FirstRunMade(codec: Codec, hosts: seq<Host>, before: VMs, after: VMs, c: Cluster, ids: seq<nat>, i: nat)
    requires CleanTags(c) && Names(before, c.name) == {} && Completes(codec, hosts, before, after, c, ids) && i < |ids|
    ensures |ids| == |c.DesiredNames()|
    ensures ids[i] in after && Member(after[ids[i]], c.name) && after[ids[i]].name == c.DesiredNames()[i]
  {
    var plan := PlanOf(codec, c).value;
    var specs := SpecsOf(c, plan, |c.Pools()|);
    AllMissing(specs);
    SpecsMatchNames(c, plan);
    MadeMember(c, plan, specs[i], after[ids[i]], Started, c.name);
  }

  /** Pool names that repeat are not checked. What they do: the VMs of a complete first run have different names if and only
      if the pool names are pairwise different. */
  lemma UniqueAfterFirstRunIff(codec: Codec, hosts: seq<Host>, before: VMs, after: VMs, c: Cluster, ids: seq<nat>)
    requires CleanTags(c) && PositiveCounts(c.Pools())
    requires Names(before, c.name) == {} && Completes(codec, hosts, before, after, c, ids)
    ensures UniqueFor(after, c.name) <==> DistinctPools(c.Pools())
  {
    hide PlanOf, SpecsOf, NamesOf, ToCreateOn, Member, UniqueFor, DistinctPools, OnSite, Checked;
    NamesDistinctIff(c.name, c.Pools());
    FirstRunLength(codec, hosts, before, after, c, ids);
    forall i | 0 <= i < |ids|
      ensures ids[i] in after && Member(after[ids[i]], c.name) && after[ids[i]].name == c.DesiredNames()[i]
    {
      FirstRunMade(codec, hosts, before, after, c, ids, i);
    }
    UniqueIffDistinct(before, after, c.name, ids, c.DesiredNames());
  }

  // New VMs listed under some names have unique names exactly if the names are distinct.
  lemma UniqueIffDistinct(before: VMs, after: VMs, cluster: string, ids: seq<nat>, names: seq<string>)
    requires Names(before, cluster) == {} && Untouched(before, after) && FreshIds(ids, before) && |ids| == |names|
    requires forall id :: id in after ==> id in before || id in ids
    requires forall i :: 0 <= i < |ids| ==>
               ids[i] in after && Member(after[ids[i]], cluster) && after[ids[i]].name == names[i]
    ensures UniqueFor(after, cluster) <==> Distinct(names)
  {
    hide Member;
    if Distinct(names) {
      MembersNamed(before, cluster);
      forall i, j | i in after && j in after && Member(after[i], cluster) && Member(after[j], cluster)
                    && after[i].name == after[j].name
        ensures i == j
      {
        var a :| 0 <= a < |ids| && ids[a] == i;
        var b :| 0 <= b < |ids| && ids[b] == j;
        assert names[a] == names[b];
      }
    }
    if UniqueFor(after, cluster) {
      forall j, k | 0 <= j < k < |names| ensures names[j] != names[k] {
        assert ids[j] != ids[k];
      }
    }
  }

  lemma FirstRunLength(codec: Codec, hosts: seq<Host>, before: VMs, after: VMs, c: Cluster, ids: seq<nat>)
    requires Names(before, c.name) == {} && Completes(codec, hosts, before, after, c, ids)
    ensures |ids| == |c.DesiredNames()|
  {
    var plan := PlanOf(codec, c).value;
    AllMissing(SpecsOf(c, plan, |c.Pools()|));
    SpecsMatchNames(c, plan);
  }
}
