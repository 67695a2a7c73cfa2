/** Whole runs of the pipelines against servers with a given script: servers that serve every call well, refuse every
    configuration, as the fake server's error injector does, refuse every stop, or let only the deletes end well. */
module Scenarios {
  import opened Tags
  import opened Domain
  import opened Ipam
  import opened Plan
  import opened Placement
  import opened Server
  import opened Provider
  import opened Create
  import opened Convergence
  import opened History
  import opened Leftovers
  import Deleting = Delete

  function Well(k: nat, op: Op): Answer {
    Tasked(true, 2, Polling.Stopped("OK"))
  }

  function ConfigRefused(k: nat, op: Op): Answer {
    if op.Config? then Rejected(false, false) else Well(k, op)
  }

  function Never(k: nat): bool {
    false
  }

  lemma {:induction false} NoFaults(calls: seq<Call>)
    ensures FaultsOf(calls, Well, Never) == []
  {
    if calls == [] {
    } else {
      NoFaults(calls[..|calls| - 1]);
    }
  }

  // The faults are the refused configurations, and each of those is one.
  lemma {:induction false} OnlyConfigFaults(calls: seq<Call>)
    ensures forall f :: f in FaultsOf(calls, ConfigRefused, Never) ==> f.Refusal? && f.op.Config? && !f.took
    ensures FaultsOf(calls, ConfigRefused, Never) == [] ==> forall op: Op :: Sent(op) in calls ==> !op.Config?
  {
    if calls == [] {
    } else {
      var last := |calls| - 1;
      OnlyConfigFaults(calls[..last]);
      assert calls == calls[..last] + [calls[last]];
    }
  }

  /** On a server that serves every call well, a feasible run succeeds: all desired names are listed afterwards. */
  method CleanRun(codec: Codec, c: Cluster, vms: VMs, hosts: seq<Host>) returns (after: VMs)
    requires ValidCluster(c) && Feasible(codec, hosts, vms, c)
    ensures CreateRun(codec, hosts, vms, after, c, true)
    ensures Names(after, c.name) == Names(vms, c.name) + Desired(c)
    ensures forall id :: id in after && id !in vms ==>
              after[id].running && !after[id].template && HasTag(after[id].tags, "k3s-cluster=" + c.name)
  {
    hide Feasible, CreateRun, AllAsked, Reports, ToCreateOn, PlanOf;
    var server := new Proxmox(vms, hosts, Well, Never);
    var strategy := new RoundRobin();
    var provider := new ProxmoxProvider(server, strategy, c.template);
    var pipeline := new Create.Pipeline(provider);
    var r, existing, created, why, calls, story := pipeline.Run(codec, c);
    NoFaults(server.calls);
    after := server.vms;
    SuccessNames(codec, hosts, vms, after, c);
    NewAreRunning(codec, hosts, vms, after, c);
  }

  lemma NewAreRunning(codec: Codec, hosts: seq<Host>, before: VMs, after: VMs, c: Cluster)
    requires ValidCluster(c) && CreateRun(codec, hosts, before, after, c, true)
    ensures forall id :: id in after && id !in before ==>
              after[id].running && !after[id].template && HasTag(after[id].tags, "k3s-cluster=" + c.name)
  {
    var ids :| Completes(codec, hosts, before, after, c, ids);
    var plan, specs := PlanOf(codec, c).value, ToCreateOn(codec, c, before);
    ToCreateSpecs(c, plan, Names(before, c.name));
    forall id | id in after && id !in before
      ensures after[id].running && !after[id].template && HasTag(after[id].tags, "k3s-cluster=" + c.name)
    {
      var i :| 0 <= i < |ids| && ids[i] == id;
      assert specs[i] in specs;
      MadeMember(c, plan, specs[i], after[id], Started, c.name);
    }
  }

  /** On a server that refuses every configuration, every run that has something to create and can get as far as a clone
      fails and leaves a VM without tags behind, which no run for a valid configuration will ever see. */
  method OrphanRun(codec: Codec, c: Cluster, vms: VMs, hosts: seq<Host>) returns (after: VMs, ghost id: nat)
    requires Feasible(codec, hosts, vms, c) && ToCreateOn(codec, c, vms) != []
    ensures CreateRun(codec, hosts, vms, after, c, false)
    ensures id !in vms && id in after && after[id].tags == ""
    ensures ValidCluster(c) ==> UnlistedIds(after) == UnlistedIds(vms) + {id}
  {
    hide CreateRun, ToCreateOn, PlanOf;
    var server := new Proxmox(vms, hosts, ConfigRefused, Never);
    var strategy := new RoundRobin();
    var provider := new ProxmoxProvider(server, strategy, c.template);
    var pipeline := new Create.Pipeline(provider);
    var r, existing, created, why, calls, story := pipeline.Run(codec, c);
    after := server.vms;
    OnlyConfigFaults(server.calls);
    if r.Ok? {
      var op := AskedConfig(ToCreateOn(codec, c, vms), story.ids, calls);
    } else {
      FailsConfiguring(codec, hosts, vms, after, c, r.error, why, calls, story);
      id := LeftByConfig(codec, hosts, vms, after, c, story);
    }
  }

  lemma AskedConfig(specs: seq<NodeSpec>, ids: seq<nat>, calls: seq<Call>) returns (op: Op)
    requires specs != [] && AllAsked(specs, ids, calls)
    ensures Sent(op) in calls && op.Config?
  {
    assert FullyAsked(specs[0], ids[0], calls);
    op := Op.Config(ids[0], BuildTags(specs[0].cluster, specs[0].role, specs[0].pool), IPSetting(specs[0]));
  }

  // A feasible run that fails on a refusal fails while creating.
  lemma FailsCreating(codec: Codec, hosts: seq<Host>, before: VMs, after: VMs, c: Cluster, e: RunError, why: seq<Fault>,
                      calls: seq<Call>, story: Story)
    requires Feasible(codec, hosts, before, c) && FailedFor(codec, hosts, before, after, c, e, why, calls, story)
    requires why == [] || why[0].Refusal?
    ensures e.Creating?
  {
  }

  lemma BlamedOnConfig(step: Step, id: nat, why: seq<Fault>, hosts: seq<Host>, template: string, before: VMs)
    requires Explained(step, id, why, hosts, template, before) && Eligible(hosts, []) != [] && HasTemplate(before, template)
    requires why != [] ==> why[0].Refusal? && why[0].op.Config? && !why[0].took
    ensures step.Configuring? && StageLeft(step, why) == Bare
  {
  }

  // If the refusal is of a configuration, it fails at configuring, with a clone that has no tags.
  lemma FailsConfiguring(codec: Codec, hosts: seq<Host>, before: VMs, after: VMs, c: Cluster, e: RunError, why: seq<Fault>,
                         calls: seq<Call>, story: Story)
    requires Feasible(codec, hosts, before, c) && FailedFor(codec, hosts, before, after, c, e, why, calls, story)
    requires forall f :: f in why ==> f.Refusal? && f.op.Config? && !f.took
    ensures e.Creating? && story.stage == Bare
    ensures RolledBack(before, after, ToCreateOn(codec, c, before), story.ids, Bare, story.warned)
    ensures OnSite(hosts, c.template, before, after)
  {
    hide OnSite, Tried, OnlyAbout, Fatal, KeptExactly, Explained, MadeFor, StageLeft, HasTemplate;
    assert why != [] ==> why[0] in why;
    FailsCreating(codec, hosts, before, after, c, e, why, calls, story);
    assert story.why != [] ==> story.why[0] == why[0];
    BlamedOnConfig(e.step, story.ids[|story.ids| - 1], story.why, hosts, c.template, before);
  }

  // So it leaves that clone.
  lemma LeftByConfig(codec: Codec, hosts: seq<Host>, before: VMs, after: VMs, c: Cluster, story: Story) returns (id: nat)
    requires Feasible(codec, hosts, before, c) && OnSite(hosts, c.template, before, after)
    requires RolledBack(before, after, ToCreateOn(codec, c, before), story.ids, Bare, story.warned)
    ensures id !in before && id in after && after[id].tags == ""
    ensures ValidCluster(c) ==> UnlistedIds(after) == UnlistedIds(before) + {id}
  {
    hide OnSite, Checked, UnlistedIds;
    id := story.ids[|story.ids| - 1];
    assert id in story.ids;
    if ValidCluster(c) {
      BrokenLeaves(codec, hosts, before, after, c, story.ids, Bare, story.warned);
    }
  }

  /** On a server that serves every call well, a delete run removes the cluster. */
  method CleanDelete(vms: VMs, hosts: seq<Host>, name: string) returns (after: VMs)
    ensures Deleting.DeleteRun(vms, after, name, true)
    ensures Names(after, name) == {}
  {
    var server := new Proxmox(vms, hosts, Well, Never);
    var strategy := new RoundRobin();
    var provider := new ProxmoxProvider(server, strategy, "");
    var pipeline := new Deleting.Pipeline(provider);
    var r, nodes, why, calls := pipeline.Run(name);
    NoFaults(server.calls);
    after := server.vms;
    DeleteKeepsIdentity(vms, after, name, true);
  }

  // Faults that end no deletion.
  predicate Harmless(f: Fault) {
    !f.Unanswered? && (f.Refusal? && f.op.Stop? ==> f.notRunning) && !f.op.Delete?
  }

  lemma {:induction false} OnlyHarmless(calls: seq<Call>, answers: (nat, Op) -> Answer)
    requires forall k: nat, op: Op :: op.Stop? && answers(k, op).Rejected? ==> answers(k, op).notRunning
    requires forall k: nat, op: Op :: op.Delete? ==>
               answers(k, op).Immediate?
               || (answers(k, op).Tasked? && answers(k, op).took && answers(k, op).last == Polling.Stopped("OK"))
    ensures forall f :: f in FaultsOf(calls, answers, Never) ==> Harmless(f)
  {
    if calls == [] {
    } else {
      OnlyHarmless(calls[..|calls| - 1], answers);
    }
  }

  lemma NoneFatal(vms: VMs, name: string, why: seq<Fault>)
    requires forall f :: f in why ==> Harmless(f)
    ensures Deleting.NoFatal(vms, name, why)
  {
    hide Member;
  }

  /** Stops may be refused because a VM is not running, and stop tasks may go wrong: as long as the deletes end well, a delete
      run removes the cluster. */
  method PatientDelete(vms: VMs, hosts: seq<Host>, name: string, answers: (nat, Op) -> Answer) returns (after: VMs)
    requires forall k: nat, op: Op :: op.Stop? && answers(k, op).Rejected? ==> answers(k, op).notRunning
    requires forall k: nat, op: Op :: op.Delete? ==>
               answers(k, op).Immediate?
               || (answers(k, op).Tasked? && answers(k, op).took && answers(k, op).last == Polling.Stopped("OK"))
    ensures forall id :: id in after ==> !(HasTag(after[id].tags, "k3s-cluster=" + name) && !after[id].template)
    ensures TemplatesUntouched(vms, after)
  {
    hide HasTag;
    var server := new Proxmox(vms, hosts, answers, Never);
    var strategy := new RoundRobin();
    var provider := new ProxmoxProvider(server, strategy, "");
    var pipeline := new Deleting.Pipeline(provider);
    var r, nodes, why, calls := pipeline.Run(name);
    OnlyHarmless(server.calls, answers);
    assert server.faults == why;
    NoneFatal(vms, name, why);
    after := server.vms;
    DeleteKeepsIdentity(vms, after, name, true);
  }

  function StopsRefused(k: nat, op: Op): Answer {
    if op.Stop? then Rejected(false, false) else Well(k, op)
  }

  lemma {:induction false} EveryStopRefused(calls: seq<Call>, id: nat)
    requires Sent(Op.Stop(id)) in calls
    ensures Refusal(Op.Stop(id), false, false) in FaultsOf(calls, StopsRefused, Never)
  {
    var last := |calls| - 1;
    if calls[last] != Sent(Op.Stop(id)) {
      assert Sent(Op.Stop(id)) in calls[..last];
      EveryStopRefused(calls[..last], id);
    }
  }

  /** On a server that refuses every stop for some other reason, a delete run removes nothing, and fails if there is anything
      to remove. */
  method StubbornDelete(vms: VMs, hosts: seq<Host>, name: string) returns (after: VMs, failed: bool)
    ensures after.Keys == vms.Keys && (failed <==> Names(vms, name) != {})
  {
    hide HasTag, CutShort;
    var server := new Proxmox(vms, hosts, StopsRefused, Never);
    var strategy := new RoundRobin();
    var provider := new ProxmoxProvider(server, strategy, "");
    var pipeline := new Deleting.Pipeline(provider);
    var r, nodes, why, calls := pipeline.Run(name);
    NoneUnanswered(server.calls);
    assert server.faults == why;
    assert why != [] ==> why[0] in why;
    after, failed := server.vms, r.Err?;
    forall id | id in Ids(nodes) ensures Fatal(why, id) && Keeps(why, id) {
      EveryStopRefused(server.calls, id);
    }
    AllStayed(vms, after, name, nodes, why, r.Ok?);
  }

  lemma {:induction false} NoneUnanswered(calls: seq<Call>)
    ensures forall f :: f in FaultsOf(calls, StopsRefused, Never) ==> !f.Unanswered?
  {
    if calls == [] {
    } else {
      NoneUnanswered(calls[..|calls| - 1]);
    }
  }

  lemma AllStayed(vms: VMs, after: VMs, name: string, nodes: seq<Node>, why: seq<Fault>, ok: bool)
    requires Listing(vms, name, nodes) && Deleting.DeleteRun(vms, after, name, ok)
    requires KeptExactly(after, Ids(nodes), why) && forall id :: id in Ids(nodes) ==> Fatal(why, id) && Keeps(why, id)
    requires ok <==> Deleting.NoFatal(vms, name, why)
    requires Unanswered(ResourceList) !in why
    ensures after.Keys == vms.Keys && (ok <==> Names(vms, name) == {})
  {
    hide HasTag, Keeps, Fatal;
    MembersNamed(vms, name);
    forall id | id in vms && Member(vms[id], name) ensures id in Ids(nodes) {
      assert NodeOf(id, vms[id]) in nodes;
    }
  }
}
