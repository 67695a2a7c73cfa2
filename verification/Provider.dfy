/** Creating, listing and deleting nodes (internal/adapter/proxmox/provider.go). */
module Provider {
  import opened Wrappers
  import opened Text
  import opened Tags
  import opened Domain
  import opened Placement
  import opened Server
  import CloneSemaphore

  // --- what a creation can leave behind ---

  /** How far a creation got on the server: nothing cloned, an untagged clone, a tagged and addressed VM, or that VM
      running. */
  datatype Stage = Absent | Bare | Configured | Started

  /** The step at which CreateNode gave up. */
  datatype Step = Hosts | Placing | Template | NextID | Cloning | Configuring | Resizing | Starting

  // The stages the server may be at when a step fails: the failing request itself may or may not have taken effect.
  predicate MayLeave(step: Step, stage: Stage) {
    match step
    case Cloning => stage == Absent || stage == Bare
    case Configuring => stage == Bare || stage == Configured
    case Resizing => stage == Configured
    case Starting => stage == Configured || stage == Started
    case _ => stage == Absent
  }

  /** The stage that a failing step leaves, from what went wrong: nothing, or one bad call, which may have taken effect. */
  function StageLeft(step: Step, why: seq<Fault>): (stage: Stage)
    ensures MayLeave(step, stage)
  {
    var took := |why| == 1 && (why[0].Refusal? || why[0].BadTask?) && why[0].took;
    match step
    case Cloning => if took then Bare else Absent
    case Configuring => if took then Configured else Bare
    case Resizing => Configured
    case Starting => if took then Started else Configured
    case _ => Absent
  }

  function IPSetting(spec: NodeSpec): string {
    if spec.mode == "static" && spec.ipConfig != "" then spec.ipConfig else "ip=dhcp"
  }

  /** The VM made for a spec at a stage. Tags and address come together, never one without the other. */
  predicate MadeFor(vm: VM, spec: NodeSpec, stage: Stage) {
    && vm.name == spec.name
    && !vm.template
    && vm.running == stage.Started?
    && if stage.Bare? then vm.tags == "" && vm.ipConfig == ""
       else vm.tags == BuildTags(spec.cluster, spec.role, spec.pool) && vm.ipConfig == IPSetting(spec)
  }

  /** One creation attempt: it touches only the new id, and leaves there what its stage says. */
  ghost predicate Attempt(before: VMs, after: VMs, spec: NodeSpec, id: nat, stage: Stage) {
    && id !in before
    && after - {id} == before
    && (id in after <==> stage != Absent)
    && (id in after ==> MadeFor(after[id], spec, stage))
  }

  lemma AttemptAbsent(before: VMs, spec: NodeSpec, id: nat)
    requires id !in before
    ensures Attempt(before, before, spec, id, Absent)
  {
    assert before - {id} == before;
  }

  // The requests of a creation move an attempt from stage to stage, on the template's host.
  lemma AttemptClone(before: VMs, spec: NodeSpec, id: nat, home: string)
    requires id !in before
    ensures var after := Effect(before, Op.Clone(id, spec.name, home));
            Attempt(before, after, spec, id, Bare) && after[id].node == home
  {
    assert Effect(before, Op.Clone(id, spec.name, home)) - {id} == before;
  }

  lemma AttemptConfig(before: VMs, now: VMs, spec: NodeSpec, id: nat)
    requires Attempt(before, now, spec, id, Bare)
    ensures var after := Effect(now, Op.Config(id, BuildTags(spec.cluster, spec.role, spec.pool), IPSetting(spec)));
            Attempt(before, after, spec, id, Configured) && after[id].node == now[id].node
  {
  }

  lemma AttemptStart(before: VMs, now: VMs, spec: NodeSpec, id: nat)
    requires Attempt(before, now, spec, id, Configured)
    ensures var after := Effect(now, Op.Start(id));
            Attempt(before, after, spec, id, Started) && after[id].node == now[id].node
  {
  }

  // --- where a creation takes place, and why it fails ---

  predicate IsTemplate(vm: VM, name: string) {
    vm.template && vm.name == name
  }

  ghost predicate HasTemplate(vms: VMs, name: string) {
    exists id :: id in vms && IsTemplate(vms[id], name)
  }

  ghost predicate TemplateHome(vms: VMs, name: string, node: string) {
    exists id :: id in vms && IsTemplate(vms[id], name) && vms[id].node == node
  }

  /** What is true of every VM that a creation leaves: its id is positive, it lives where the template does, and there was a
      host to place it on. */
  ghost predicate Grounded(hosts: seq<Host>, template: string, before: VMs, id: nat, vm: VM) {
    id > 0 && TemplateHome(before, template, vm.node) && Eligible(hosts, []) != []
  }

  // A request that was refused, or whose task did not end well.
  predicate Bad(f: Fault) {
    f.Refusal? || f.BadTask?
  }

  // The bad call that makes a creation of the given id fail at a step.
  predicate Blames(f: Fault, step: Step, id: nat) {
    match step
    case Hosts => f == Unanswered(HostList)
    case Placing => false
    case Template => f == Unanswered(ResourceList)
    case NextID => f == Unanswered(FreeId)
    case Cloning => Bad(f) && f.op.Clone? && f.op.id == id
    case Configuring => Bad(f) && f.op.Config? && f.op.id == id
    case Resizing => Bad(f) && f.op.Resize? && f.op.id == id
    case Starting => Bad(f) && f.op.Start? && f.op.id == id
  }

  /** Why a creation failed: one bad call at that very step; or, with no bad call, no host or no template. */
  ghost predicate Explained(step: Step, id: nat, why: seq<Fault>, hosts: seq<Host>, template: string, before: VMs) {
    || (|why| == 1 && Blames(why[0], step, id))
    || (why == [] && step.Placing? && Eligible(hosts, []) == [])
    || (why == [] && step.Template? && !HasTemplate(before, template))
  }

  // The calls of a creation that gave up at a step, or completed: first it looks, then it acts.
  function LooksOf(failed: Option<Step>): seq<Call> {
    match failed
    case Some(Hosts) => [Asked(HostList)]
    case Some(Placing) => [Asked(HostList)]
    case Some(Template) => [Asked(HostList), Asked(ResourceList)]
    case _ => [Asked(HostList), Asked(ResourceList), Asked(FreeId)]
  }

  function RequestsOf(spec: NodeSpec, id: nat, home: string, failed: Option<Step>): seq<Call> {
    var clone := Sent(Op.Clone(id, spec.name, home));
    var config := Sent(Op.Config(id, BuildTags(spec.cluster, spec.role, spec.pool), IPSetting(spec)));
    match failed
    case None => [clone, config, Sent(Op.Resize(id)), Sent(Op.Start(id))]
    case Some(Starting) => [clone, config, Sent(Op.Resize(id)), Sent(Op.Start(id))]
    case Some(Resizing) => [clone, config, Sent(Op.Resize(id))]
    case Some(Configuring) => [clone, config]
    case Some(Cloning) => [clone]
    case Some(_) => []
  }

  function CallsOf(spec: NodeSpec, id: nat, home: string, failed: Option<Step>): seq<Call> {
    LooksOf(failed) + RequestsOf(spec, id, home, failed)
  }

  // Where a creation takes place.
  datatype Site = Site(host: string, template: Resource, vmid: nat)

  /** One creation as it went: the id it used, the template's host, the stage it reached, and what went wrong. */
  datatype Trial = Trial(id: nat, home: string, stage: Stage, why: seq<Fault>)

  ghost predicate Went(hosts: seq<Host>, template: string, before: VMs, after: VMs, spec: NodeSpec, trial: Trial,
                       failed: Option<Step>) {
    && Attempt(before, after, spec, trial.id, trial.stage)
    && (trial.id in after ==> Grounded(hosts, template, before, trial.id, after[trial.id]))
    && match failed
       case None => trial.stage == Started && trial.why == []
       case Some(step) =>
         trial.stage == StageLeft(step, trial.why) && Explained(step, trial.id, trial.why, hosts, template, before)
  }

  // --- what a deletion can leave behind ---

  datatype Fate = Kept | Halted | Removed

  function AfterDelete(vms: VMs, id: nat, fate: Fate): VMs {
    match fate
    case Kept => vms
    case Halted => AfterRun(vms, id, false)
    case Removed => vms - {id}
  }

  ghost function Ids(nodes: seq<Node>): set<nat> {
    set n | n in nodes :: n.vmid
  }

  lemma IdsAppend(nodes: seq<Node>, n: Node)
    ensures Ids(nodes + [n]) == Ids(nodes) + {n.vmid}
  {
    forall id | id in Ids(nodes) + {n.vmid} ensures id in Ids(nodes + [n]) {
      if id == n.vmid {
        assert n in nodes + [n];
      } else {
        var m :| m in nodes && m.vmid == id;
        assert m in nodes + [n];
      }
    }
  }

  predicate DistinctIds(nodes: seq<Node>) {
    forall i, j :: 0 <= i < j < |nodes| ==> nodes[i].vmid != nodes[j].vmid
  }

  // What went wrong with one VM's deletion: only calls for that VM.
  predicate OnlyAbout(why: seq<Fault>, ids: set<nat>) {
    forall f :: f in why ==> Bad(f) && f.op.id in ids
  }

  // The stop of a VM was refused, for another reason than that it is not running.
  predicate StopRefused(f: Fault, id: nat) {
    f.Refusal? && f.op == Op.Stop(id) && !f.notRunning
  }

  // The delete was refused, or its task did not end well.
  predicate DeleteBad(f: Fault, id: nat) {
    Bad(f) && f.op == Op.Delete(id)
  }

  // The deletion got no further than the stop.
  predicate CutShort(why: seq<Fault>, id: nat) {
    exists f :: f in why && StopRefused(f, id)
  }

  /** The bad calls that make the deletion of a VM fail. A stop whose task goes wrong is none. */
  predicate Fatal(why: seq<Fault>, id: nat) {
    exists f :: f in why && (StopRefused(f, id) || DeleteBad(f, id))
  }

  /** The bad calls after which the VM is still there: a bad delete may have taken effect. */
  predicate Keeps(why: seq<Fault>, id: nat) {
    exists f :: f in why && (StopRefused(f, id) || (DeleteBad(f, id) && !f.took))
  }

  function DeleteCalls(id: nat, why: seq<Fault>): seq<Call> {
    if CutShort(why, id) then [Sent(Op.Stop(id))] else [Sent(Op.Stop(id)), Sent(Op.Delete(id))]
  }

  // What went wrong with a stop, and with the delete after it.
  lemma StopFaults(id: nat, why: seq<Fault>, a: Answer)
    requires why == FaultOf(Op.Stop(id), a)
    ensures OnlyAbout(why, {id})
    ensures CutShort(why, id) <==> a.Rejected? && !a.notRunning
    ensures Fatal(why, id) <==> CutShort(why, id)
    ensures Keeps(why, id) <==> CutShort(why, id)
  {
    assert forall f :: f in why ==> f == why[0];
    assert a.Rejected? ==> why[0] in why;
  }

  lemma DeleteFaults(id: nat, stop: seq<Fault>, more: seq<Fault>)
    requires OnlyAbout(stop, {id}) && !Fatal(stop, id)
    requires more == [] || (|more| == 1 && DeleteBad(more[0], id))
    ensures OnlyAbout(stop + more, {id}) && !CutShort(stop + more, id)
    ensures Fatal(stop + more, id) <==> more != []
    ensures Keeps(stop + more, id) <==> more != [] && !more[0].took
  {
    assert more != [] ==> more[0] in stop + more;
    assert forall f :: f in stop + more ==> f in stop || (more != [] && f == more[0]);
  }

  // Two deletions: each VM's outcome is that of its own.
  lemma FaultsConcat(why: seq<Fault>, more: seq<Fault>, id: nat)
    ensures CutShort(why + more, id) <==> CutShort(why, id) || CutShort(more, id)
    ensures Fatal(why + more, id) <==> Fatal(why, id) || Fatal(more, id)
    ensures Keeps(why + more, id) <==> Keeps(why, id) || Keeps(more, id)
  {
    assert forall f :: f in why + more <==> f in why || f in more;
  }

  lemma NotAbout(why: seq<Fault>, ids: set<nat>, id: nat)
    requires OnlyAbout(why, ids) && id !in ids
    ensures !CutShort(why, id) && !Fatal(why, id) && !Keeps(why, id)
  {
  }

  /** Which VMs are still there, exactly, if each was there and is tried once. */
  predicate KeptExactly(now: VMs, doomed: set<nat>, why: seq<Fault>) {
    forall id :: id in doomed ==> (id in now <==> Keeps(why, id))
  }

  lemma KeptStep(now: VMs, after: VMs, doomed: set<nat>, why: seq<Fault>, id: nat, fate: Fate, more: seq<Fault>)
    requires KeptExactly(now, doomed, why) && OnlyAbout(why, doomed) && OnlyAbout(more, {id})
    requires id !in doomed && id in now
    requires after == AfterDelete(now, id, fate) && (fate == Removed <==> !Keeps(more, id))
    ensures KeptExactly(after, doomed + {id}, why + more)
  {
    hide Keeps, OnlyAbout;
    forall k | k in doomed + {id} ensures k in after <==> Keeps(why + more, k) {
      FaultsConcat(why, more, k);
      if k == id {
        NotAbout(why, doomed, id);
      } else {
        NotAbout(more, {id}, k);
      }
    }
  }

  lemma NoneKept(vms: VMs)
    ensures KeptExactly(vms, Ids([]), [])
  {
  }

  // A stop was sent for each of these VMs, and a delete unless the stop was refused.
  predicate Tried(ids: set<nat>, why: seq<Fault>, calls: seq<Call>) {
    forall id :: id in ids ==> Sent(Op.Stop(id)) in calls && (Sent(Op.Delete(id)) in calls || CutShort(why, id))
  }

  lemma TriedStep(ids: set<nat>, why: seq<Fault>, calls: seq<Call>, id: nat, more: seq<Fault>)
    requires Tried(ids, why, calls)
    ensures Tried(ids + {id}, why + more, calls + DeleteCalls(id, more))
  {
    hide CutShort;
    var last := DeleteCalls(id, more);
    assert last[0] == Sent(Op.Stop(id));
    assert !CutShort(more, id) ==> last[1] == Sent(Op.Delete(id));
    forall k ensures CutShort(why + more, k) <==> CutShort(why, k) || CutShort(more, k) {
      FaultsConcat(why, more, k);
    }
  }

  lemma TriedLater(ids: set<nat>, why: seq<Fault>, earlier: seq<Call>, calls: seq<Call>)
    requires Tried(ids, why, calls)
    ensures Tried(ids, why, earlier + calls)
  {
  }

  // --- what a listing says ---

  predicate Member(vm: VM, cluster: string) {
    !vm.template && HasTag(vm.tags, ClusterTag(cluster))
  }

  function NodeOf(id: nat, vm: VM): Node {
    Node(vm.name, if HasTag(vm.tags, ROLE_KEY + "master") then Master else Worker, ExtractTag(vm.tags, POOL_KEY), id, vm.node)
  }

  /** The nodes of a cluster: its tagged VMs that are not templates, each exactly once, in any order. */
  ghost predicate Listing(vms: VMs, cluster: string, nodes: seq<Node>) {
    && (forall n :: n in nodes ==> n.vmid in vms && Member(vms[n.vmid], cluster) && n == NodeOf(n.vmid, vms[n.vmid]))
    && (forall i, j :: 0 <= i < j < |nodes| ==> nodes[i].vmid != nodes[j].vmid)
    && (forall id :: id in vms && Member(vms[id], cluster) ==> NodeOf(id, vms[id]) in nodes)
  }

  /** The names under which a cluster's VMs are listed. */
  ghost function Names(vms: VMs, cluster: string): set<string> {
    set id | id in vms && Member(vms[id], cluster) :: vms[id].name
  }

  ghost function NodeNames(nodes: seq<Node>): set<string> {
    set n | n in nodes :: n.name
  }

  lemma ListingNames(vms: VMs, cluster: string, nodes: seq<Node>)
    requires Listing(vms, cluster, nodes)
    ensures NodeNames(nodes) == Names(vms, cluster)
  {
    forall name | name in Names(vms, cluster) ensures name in NodeNames(nodes) {
      var id :| id in vms && Member(vms[id], cluster) && vms[id].name == name;
      assert NodeOf(id, vms[id]) in nodes;
    }
  }

  lemma MembersNamed(vms: VMs, cluster: string)
    ensures forall id :: id in vms && Member(vms[id], cluster) ==> vms[id].name in Names(vms, cluster)
  {
  }

  /** What a VM is listed as, from what it was tagged with: the very role and pool, under its own name, id and host. */
  lemma ListedAs(vms: VMs, cluster: string, nodes: seq<Node>, id: nat, role: Role, pool: string)
    requires Listing(vms, cluster, nodes) && id in vms && !vms[id].template
    requires vms[id].tags == BuildTags(cluster, role, pool) && CleanName(cluster) && ';' !in pool
    ensures var n := Node(vms[id].name, role, TrimRight(pool), id, vms[id].node);
            n in nodes && forall m :: m in nodes && m.vmid == id ==> m == n
  {
    hide HasTag, ExtractTag, BuildTags;
    FoundAgainIff(cluster, role, pool);
    RoleRoundTrip(cluster, role, pool);
    PoolRoundTrip(cluster, role, pool);
    assert NodeOf(id, vms[id]) in nodes;
  }

  /** Whatever is listed is no template and carries the cluster's tag. */
  lemma ListedOnly(vms: VMs, cluster: string, nodes: seq<Node>)
    requires Listing(vms, cluster, nodes)
    ensures forall n :: n in nodes ==>
              n.vmid in vms && !vms[n.vmid].template && HasTag(vms[n.vmid].tags, "k3s-cluster=" + cluster)
  {
    hide HasTag;
  }

  predicate Online(hosts: seq<Host>, name: string) {
    exists h :: h in hosts && h.name == name && h.status == "online"
  }

  predicate AllOnline(hosts: seq<Host>, targets: seq<string>) {
    forall t :: t in targets ==> Online(hosts, t)
  }

  lemma OnlineAppend(hosts: seq<Host>, h: Host)
    ensures forall n :: Online(hosts + [h], n) <==> Online(hosts, n) || (h.status == "online" && h.name == n)
  {
    assert h in hosts + [h];
    forall n | Online(hosts, n) ensures Online(hosts + [h], n) {
      var g :| g in hosts && g.name == n && g.status == "online";
      assert g in hosts + [h];
    }
  }

  /** A target is online exactly if it could be picked. */
  lemma OnlineIffEligible(hosts: seq<Host>, name: string)
    ensures Online(hosts, name) <==> exists h :: h in Eligible(hosts, []) && h.name == name
  {
    forall h: Host ensures h in Eligible(hosts, []) <==> h in hosts && h.status == "online" {
      EligibleIff(hosts, [], h);
    }
  }

  // A creation that fails before its clone.
  lemma NotStarted(hosts: seq<Host>, template: string, vms: VMs, spec: NodeSpec, id: nat, why: seq<Fault>, step: Step)
    requires id !in vms && (step.Hosts? || step.Placing? || step.Template? || step.NextID?)
    requires Explained(step, 0, why, hosts, template, vms)
    ensures Went(hosts, template, vms, vms, spec, Trial(id, "", Absent, why), Some(step))
    ensures CallsOf(spec, id, "", Some(step)) == LooksOf(Some(step))
  {
    AttemptAbsent(vms, spec, id);
  }

  predicate OnlyReads(calls: seq<Call>) {
    forall c :: c in calls ==> c.Asked?
  }

  // The nodes found among the first i listed resources.
  ghost predicate ListingSoFar(vms: VMs, cluster: string, rs: seq<Resource>, i: nat, nodes: seq<Node>) {
    && Lists(vms, rs) && i <= |rs|
    && (forall n :: n in nodes ==> n.vmid in vms && Member(vms[n.vmid], cluster) && n == NodeOf(n.vmid, vms[n.vmid]))
    && (forall n :: n in nodes ==> exists k :: 0 <= k < i && rs[k].vmid == n.vmid)
    && (forall a, b :: 0 <= a < b < |nodes| ==> nodes[a].vmid != nodes[b].vmid)
    && (forall k :: 0 <= k < i ==> rs[k].vmid in vms)
    && (forall k :: 0 <= k < i && Member(vms[rs[k].vmid], cluster) ==> NodeOf(rs[k].vmid, vms[rs[k].vmid]) in nodes)
  }

  lemma NothingListed(vms: VMs, cluster: string, rs: seq<Resource>)
    requires Lists(vms, rs)
    ensures ListingSoFar(vms, cluster, rs, 0, [])
  {
  }

  lemma ListingSkips(vms: VMs, cluster: string, rs: seq<Resource>, i: nat, nodes: seq<Node>)
    requires ListingSoFar(vms, cluster, rs, i, nodes) && i < |rs|
    requires rs[i].vmid in vms && !Member(vms[rs[i].vmid], cluster)
    ensures ListingSoFar(vms, cluster, rs, i + 1, nodes)
  {
    hide Member, NodeOf;
  }

  lemma ListingAdds(vms: VMs, cluster: string, rs: seq<Resource>, i: nat, nodes: seq<Node>)
    requires ListingSoFar(vms, cluster, rs, i, nodes) && i < |rs|
    requires rs[i].vmid in vms && Member(vms[rs[i].vmid], cluster)
    ensures ListingSoFar(vms, cluster, rs, i + 1, nodes + [NodeOf(rs[i].vmid, vms[rs[i].vmid])])
  {
    hide Member, HasTag, ExtractTag;
    var more := nodes + [NodeOf(rs[i].vmid, vms[rs[i].vmid])];
    forall k | 0 <= k < i + 1 && Member(vms[rs[k].vmid], cluster) ensures NodeOf(rs[k].vmid, vms[rs[k].vmid]) in more {
      assert k < i ==> NodeOf(rs[k].vmid, vms[rs[k].vmid]) in nodes;
      assert more[|nodes|] in more;
    }
  }

  lemma ListingComplete(vms: VMs, cluster: string, rs: seq<Resource>, nodes: seq<Node>)
    requires ListingSoFar(vms, cluster, rs, |rs|, nodes)
    ensures Listing(vms, cluster, nodes)
  {
    hide Member, NodeOf;
    forall id | id in vms && Member(vms[id], cluster) ensures NodeOf(id, vms[id]) in nodes {
      var k :| 0 <= k < |rs| && rs[k] == ResourceOf(id, vms[id]);
    }
  }

  // The first template of a name in a listing.
  function FirstTemplate(resources: seq<Resource>, name: string): Option<Resource> {
    if resources == [] then None
    else if resources[0].name == name && resources[0].template then Some(resources[0])
    else FirstTemplate(resources[1..], name)
  }

  lemma {:induction false} FirstTemplateIs(resources: seq<Resource>, name: string)
    ensures FirstTemplate(resources, name).Some? <==> exists r :: r in resources && r.name == name && r.template
    ensures FirstTemplate(resources, name).Some? ==>
              var t := FirstTemplate(resources, name).value; t in resources && t.name == name && t.template
  {
    if resources == [] {
    } else {
      FirstTemplateIs(resources[1..], name);
      assert resources == [resources[0]] + resources[1..];
    }
  }

  /** It is the first: no listed resource before it is a template of the name. */
  lemma {:induction false} FirstTemplateAt(resources: seq<Resource>, name: string) returns (i: nat)
    requires FirstTemplate(resources, name).Some?
    ensures i < |resources| && resources[i] == FirstTemplate(resources, name).value
    ensures resources[i].template && resources[i].name == name
    ensures forall j :: 0 <= j < i ==> !(resources[j].template && resources[j].name == name)
  {
    if resources[0].name == name && resources[0].template {
      i := 0;
    } else {
      i := FirstTemplateAt(resources[1..], name);
      i := i + 1;
    }
  }

  // A listing shows a template of the name exactly if there is one.
  lemma TemplateListed(vms: VMs, resources: seq<Resource>, name: string)
    requires Lists(vms, resources)
    ensures FirstTemplate(resources, name).Some? <==> HasTemplate(vms, name)
    ensures FirstTemplate(resources, name).Some? ==> TemplateHome(vms, name, FirstTemplate(resources, name).value.node)
  {
    FirstTemplateIs(resources, name);
    if HasTemplate(vms, name) {
      var id :| id in vms && IsTemplate(vms[id], name);
      assert ResourceOf(id, vms[id]) in resources;
    }
    if FirstTemplate(resources, name).Some? {
      var t := FirstTemplate(resources, name).value;
      assert IsTemplate(vms[t.vmid], name);
    }
  }

  class ProxmoxProvider {
    const server: Server.Proxmox
    const strategy: RoundRobin
    const templateName: string
    const table: CloneSemaphore.Table

    constructor (server: Server.Proxmox, strategy: RoundRobin, templateName: string)
      requires server.Faithful()
      ensures this.server == server && this.strategy == strategy && this.templateName == templateName && fresh(table)
      ensures Ready()
    {
      this.server, this.strategy, this.templateName := server, strategy, templateName;
      this.table := new CloneSemaphore.Table();
    }

    // Between calls no clone slot is held.
    ghost predicate Ready()
      reads server, table
    {
      server.Faithful() && table.Idle()
    }

    /** The checks before a run: they pass exactly when every call is answered, all targets are online and there is a
        template. They change nothing. */
    method Preflight(targets: seq<string>) returns (ok: bool, ghost why: seq<Fault>, ghost calls: seq<Call>)
      requires server.Faithful()
      modifies server`calls, server`faults
      ensures server.Faithful() && server.faults == old(server.faults) + why && |why| <= 1
      ensures ok <==> why == [] && AllOnline(server.hosts, targets) && HasTemplate(server.vms, templateName)
      ensures server.calls == old(server.calls) + calls && OnlyReads(calls)
      ensures forall f :: f in why ==> f.Unanswered?
    {
      hide FaultsOf, Eligible;
      var up := server.Ask(Version);
      if !up {
        return false, [Unanswered(Version)], [Asked(Version)];
      }
      var hosts := server.ListHosts();
      if hosts.None? {
        return false, [Unanswered(HostList)], [Asked(Version), Asked(HostList)];
      }
      var online := TargetsOnline(hosts.value, targets);
      if !online {
        return false, [], [Asked(Version), Asked(HostList)];
      }
      var tmpl, listed := FindTemplate();
      why := if listed.None? then [Unanswered(ResourceList)] else [];
      if listed.Some? {
        TemplateListed(server.vms, listed.value, templateName);
      }
      return tmpl.Some?, why, [Asked(Version), Asked(HostList), Asked(ResourceList)];
    }

    method TargetsOnline(hosts: seq<Host>, targets: seq<string>) returns (ok: bool)
      ensures ok <==> AllOnline(hosts, targets)
    {
      var online: map<string, bool> := map[];
      for i := 0 to |hosts|
        invariant forall n :: n in online <==> Online(hosts[..i], n)
      {
        assert hosts[..i + 1] == hosts[..i] + [hosts[i]];
        OnlineAppend(hosts[..i], hosts[i]);
        if hosts[i].status == "online" {
          online := online[hosts[i].name := true];
        }
      }
      assert hosts[..|hosts|] == hosts;
      for i := 0 to |targets|
        invariant AllOnline(hosts, targets[..i])
      {
        if targets[i] !in online {
          assert targets[i] in targets;
          return false;
        }
      }
      return true;
    }

    method ListNodes(cluster: string) returns (r: Option<seq<Node>>)
      requires server.Faithful()
      modifies server`calls, server`faults
      ensures server.Faithful() && server.calls == old(server.calls) + [Asked(ResourceList)]
      ensures server.faults == old(server.faults) + if r.Some? then [] else [Unanswered(ResourceList)]
      ensures r.Some? ==> Listing(server.vms, cluster, r.value)
      ensures r.Some? ==> forall n :: n in r.value ==> n.vmid in server.vms && !server.vms[n.vmid].template
    {
      var resources := server.ListResources();
      if resources.None? {
        return None;
      }
      var nodes := NodesIn(resources.value, server.vms, cluster);
      ListedOnly(server.vms, cluster, nodes);
      return Some(nodes);
    }

    // The loop over the listed resources.
    method NodesIn(rs: seq<Resource>, ghost vms: VMs, cluster: string) returns (nodes: seq<Node>)
      requires Lists(vms, rs)
      ensures Listing(vms, cluster, nodes)
    {
      hide HasTag, ExtractTag, ClusterTag, ListingSoFar, Listing;
      var tag := ClusterTag(cluster);
      nodes := [];
      NothingListed(vms, cluster, rs);
      for i := 0 to |rs|
        invariant ListingSoFar(vms, cluster, rs, i, nodes)
      {
        var r := rs[i];
        assert r in rs;
        if r.template {
          ListingSkips(vms, cluster, rs, i, nodes);
          continue;
        }
        if !HasTag(r.tags, tag) {
          ListingSkips(vms, cluster, rs, i, nodes);
          continue;
        }
        var role := Worker;
        if HasTag(r.tags, ROLE_KEY + "master") {
          role := Master;
        }
        var pool := ExtractTag(r.tags, POOL_KEY);
        ListingAdds(vms, cluster, rs, i, nodes);
        nodes := nodes + [Node(r.name, role, pool, r.vmid, r.node)];
      }
      ListingComplete(vms, cluster, rs, nodes);
    }

    /** The first template of the configured name in the listing, if the listing is answered. */
    method FindTemplate() returns (r: Option<Resource>, ghost listed: Option<seq<Resource>>)
      requires server.Faithful()
      modifies server`calls, server`faults
      ensures server.Faithful() && server.calls == old(server.calls) + [Asked(ResourceList)]
      ensures server.faults == old(server.faults) + if listed.Some? then [] else [Unanswered(ResourceList)]
      ensures match listed
              case None => r == None
              case Some(resources) => Lists(server.vms, resources) && r == FirstTemplate(resources, templateName)
      ensures r.Some? ==> r.value.template && r.value.name == templateName
    {
      var resources := server.ListResources();
      if resources.None? {
        return None, None;
      }
      for i := 0 to |resources.value|
        modifies {}
        invariant FirstTemplate(resources.value, templateName) == FirstTemplate(resources.value[i..], templateName)
      {
        if resources.value[i].name == templateName && resources.value[i].template {
          return Some(resources.value[i]), resources;
        }
      }
      return None, resources;
    }

    // cloneSemaphore followed by the send. A single caller finds a free slot.
    method Acquire(host: string) returns (chan: nat)
      requires table.Idle()
      modifies table
      ensures table.Valid() && chan in table.occupied
      ensures forall c :: c in table.occupied ==> table.occupied[c] == if c == chan then 1 else 0
    {
      chan := table.CloneSemaphore(host, 0, map[0 := CloneSemaphore.Locked(host)]);
      var sent := table.Send(chan, host, 0, None, map[0 := CloneSemaphore.Waiting(host, chan)]);
      assert sent;
    }

    method Release(chan: nat, ghost host: string)
      requires table.Valid() && chan in table.occupied
      requires forall c :: c in table.occupied ==> table.occupied[c] == if c == chan then 1 else 0
      modifies table
      ensures table.Idle()
    {
      table.Receive(chan, host, 0, None, map[0 := CloneSemaphore.Leaving(host, chan)]);
    }

    // A request and the wait for its task. A clone is waited for in any case, the others if they name a task.
    method Request(op: Op) returns (ok: bool, ghost why: seq<Fault>)
      requires server.Faithful()
      modifies server
      ensures server.Faithful() && server.hosts == old(server.hosts) && server.calls == old(server.calls) + [Sent(op)]
      ensures server.faults == old(server.faults) + why
      ensures if ok then why == [] else |why| == 1 && Bad(why[0]) && why[0].op == op
      ensures server.vms == if ok || why[0].took then Effect(old(server.vms), op) else old(server.vms)
    {
      why := FaultOf(op, server.answers(|server.calls|, op));
      var reply := server.Perform(op);
      if reply.Refused? {
        return false, why;
      }
      ok := true;
      if op.Clone? || reply.task != 0 {
        ok := server.WaitTask(reply.task);
      }
    }

    /** Creates one node. Whatever fails, only the new id is touched, the slot is given back, and the failing step
        bounds what is left behind. There is no clean-up of a partly made VM. */
    method CreateNode(spec: NodeSpec) returns (r: Result<Node, Step>, ghost trial: Trial)
      requires Ready()
      modifies server, strategy, table
      ensures Ready() && server.hosts == old(server.hosts) && server.faults == old(server.faults) + trial.why
      ensures var failed := if r.Err? then Some(r.error) else None;
              && Went(server.hosts, templateName, old(server.vms), server.vms, spec, trial, failed)
              && server.calls == old(server.calls) + CallsOf(spec, trial.id, trial.home, failed)
              && strategy.counter ==
                 old(strategy.counter) + if failed == Some(Hosts) || failed == Some(Placing) then 0 else 1
      ensures r.Ok? ==>
                && Eligible(server.hosts, []) != []
                && r.value == Node(spec.name, spec.role, spec.pool, trial.id,
                                PickAt(Eligible(server.hosts, []), old(strategy.counter)))
    {
      hide FaultsOf, Eligible, BuildTags, FirstTemplate, Went, RequestsOf;
      ghost var unused := UnusedId(server.vms.Keys);
      AttemptAbsent(server.vms, spec, unused);
      var site;
      ghost var why;
      site, why := Prepare();
      if site.Err? {
        NotStarted(server.hosts, templateName, server.vms, spec, unused, why, site.error);
        return Err(site.error), Trial(unused, "", Absent, why);
      }
      var chan := Acquire(site.value.host);
      var failed;
      failed, trial := Build(spec, site.value.vmid, site.value.template);
      Release(chan, site.value.host);
      if failed.Some? {
        return Err(failed.value), trial;
      }
      return Ok(Node(spec.name, spec.role, spec.pool, site.value.vmid, site.value.host)), trial;
    }

    // The part of CreateNode before the semaphore: the host, the template and the id.
    method Prepare() returns (r: Result<Site, Step>, ghost why: seq<Fault>)
      requires server.Faithful()
      modifies server`calls, server`faults, strategy
      ensures server.Faithful() && server.faults == old(server.faults) + why
      ensures server.calls == old(server.calls) + LooksOf(if r.Err? then Some(r.error) else None)
      ensures strategy.counter == old(strategy.counter) + if r == Err(Hosts) || r == Err(Placing) then 0 else 1
      ensures match r
              case Err(step) =>
                && (step.Hosts? || step.Placing? || step.Template? || step.NextID?)
                && Explained(step, 0, why, server.hosts, templateName, server.vms)
              case Ok(site) =>
                && why == [] && site.vmid > 0 && site.vmid !in server.vms
                && TemplateHome(server.vms, templateName, site.template.node)
                && Eligible(server.hosts, []) != [] && site.host == PickAt(Eligible(server.hosts, []), old(strategy.counter))
    {
      hide FaultsOf, Eligible, FirstTemplate;
      var hosts := server.ListHosts();
      if hosts.None? {
        return Err(Hosts), [Unanswered(HostList)];
      }
      var host := strategy.Pick(hosts.value, []);
      if host.None? {
        return Err(Placing), [];
      }
      var tmpl, listed := FindTemplate();
      if listed.Some? {
        TemplateListed(server.vms, listed.value, templateName);
      }
      if tmpl.None? {
        return Err(Template), if listed.None? then [Unanswered(ResourceList)] else [];
      }
      var vmid := server.NextID();
      if vmid.None? {
        return Err(NextID), [Unanswered(FreeId)];
      }
      return Ok(Site(host.value, tmpl.value, vmid.value)), [];
    }

    // The part of CreateNode inside the semaphore: clone, configure, resize, start, waiting after each.
    method Build(spec: NodeSpec, vmid: nat, tmpl: Resource) returns (failed: Option<Step>, ghost trial: Trial)
      requires server.Faithful() && vmid > 0 && vmid !in server.vms && Eligible(server.hosts, []) != []
      requires TemplateHome(server.vms, templateName, tmpl.node)
      modifies server
      ensures server.Faithful() && server.hosts == old(server.hosts) && server.faults == old(server.faults) + trial.why
      ensures trial.id == vmid && trial.home == tmpl.node
      ensures Went(server.hosts, templateName, old(server.vms), server.vms, spec, trial, failed)
      ensures server.calls == old(server.calls) + RequestsOf(spec, vmid, tmpl.node, failed)
      ensures failed.Some? ==>
                failed.value.Cloning? || failed.value.Configuring? || failed.value.Resizing? || failed.value.Starting?
    {
      hide FaultsOf, Eligible;
      failed, trial := CloneAndConfigure(spec, vmid, tmpl);
      if failed.None? {
        failed, trial := ResizeAndStart(old(server.vms), spec, vmid, tmpl.node);
      }
    }

    method CloneAndConfigure(spec: NodeSpec, vmid: nat, tmpl: Resource) returns (failed: Option<Step>, ghost trial: Trial)
      requires server.Faithful() && vmid > 0 && vmid !in server.vms && Eligible(server.hosts, []) != []
      requires TemplateHome(server.vms, templateName, tmpl.node)
      modifies server
      ensures server.Faithful() && server.hosts == old(server.hosts) && server.faults == old(server.faults) + trial.why
      ensures trial.id == vmid && trial.home == tmpl.node
      ensures match failed
              case None =>
                && trial.why == [] && Attempt(old(server.vms), server.vms, spec, vmid, Configured)
                && Grounded(server.hosts, templateName, old(server.vms), vmid, server.vms[vmid])
                && server.calls == old(server.calls) + RequestsOf(spec, vmid, tmpl.node, Some(Configuring))
              case Some(step) =>
                && (step.Cloning? || step.Configuring?)
                && Went(server.hosts, templateName, old(server.vms), server.vms, spec, trial, failed)
                && server.calls == old(server.calls) + RequestsOf(spec, vmid, tmpl.node, failed)
    {
      hide FaultsOf, Eligible;
      ghost var before := server.vms;
      var ok;
      ghost var why;
      ok, why := Request(Op.Clone(vmid, spec.name, tmpl.node));
      AttemptClone(before, spec, vmid, tmpl.node);
      AttemptAbsent(before, spec, vmid);
      if !ok {
        return Some(Cloning), Trial(vmid, tmpl.node, StageLeft(Cloning, why), why);
      }

      var tags := BuildTags(spec.cluster, spec.role, spec.pool);
      var ipConfig0 := "ip=dhcp";
      if spec.mode == "static" && spec.ipConfig != "" {
        ipConfig0 := spec.ipConfig;
      }
      ghost var clone := server.vms;
      ok, why := Request(Op.Config(vmid, tags, ipConfig0));
      AttemptConfig(before, clone, spec, vmid);
      return if ok then None else Some(Configuring), Trial(vmid, tmpl.node, StageLeft(Configuring, why), why);
    }

    method ResizeAndStart(ghost before: VMs, spec: NodeSpec, vmid: nat, ghost home: string)
      returns (failed: Option<Step>, ghost trial: Trial)
      requires server.Faithful() && Attempt(before, server.vms, spec, vmid, Configured)
      requires Grounded(server.hosts, templateName, before, vmid, server.vms[vmid])
      modifies server
      ensures server.Faithful() && server.hosts == old(server.hosts) && server.faults == old(server.faults) + trial.why
      ensures trial.id == vmid && trial.home == home
      ensures Went(server.hosts, templateName, before, server.vms, spec, trial, failed)
      ensures match failed
              case Some(Resizing) => server.calls == old(server.calls) + [Sent(Op.Resize(vmid))]
              case Some(step) => step.Starting? && server.calls == old(server.calls) + [Sent(Op.Resize(vmid)), Sent(Op.Start(vmid))]
              case None => server.calls == old(server.calls) + [Sent(Op.Resize(vmid)), Sent(Op.Start(vmid))]
    {
      hide FaultsOf, Eligible;
      var ok;
      ghost var why;
      ok, why := Request(Op.Resize(vmid));
      if !ok {
        return Some(Resizing), Trial(vmid, home, Configured, why);
      }

      ghost var configured := server.vms;
      ok, why := Request(Op.Start(vmid));
      AttemptStart(before, configured, spec, vmid);
      return if ok then None else Some(Starting), Trial(vmid, home, if ok then Started else StageLeft(Starting, why), why);
    }

    /** Deletes one VM: stop it, then remove it. It fails exactly when a call for this VM goes fatally wrong. Success means
        the VM is gone; no other VM is touched. */
    method DeleteNode(n: Node) returns (ok: bool, ghost fate: Fate, ghost why: seq<Fault>)
      requires server.Faithful()
      modifies server
      ensures server.Faithful() && server.hosts == old(server.hosts) && server.faults == old(server.faults) + why
      ensures OnlyAbout(why, {n.vmid}) && (ok <==> !Fatal(why, n.vmid))
      ensures server.calls == old(server.calls) + DeleteCalls(n.vmid, why)
      ensures server.vms == AfterDelete(old(server.vms), n.vmid, fate)
      ensures (fate == Removed <==> !Keeps(why, n.vmid)) && (ok ==> fate == Removed)
    {
      hide FaultsOf, Fatal, Keeps, CutShort, OnlyAbout;
      ghost var answer := server.answers(|server.calls|, Op.Stop(n.vmid));
      why := FaultOf(Op.Stop(n.vmid), answer);
      StopFaults(n.vmid, why, answer);
      var reply := server.Perform(Op.Stop(n.vmid));
      fate := if Took(answer) then Halted else Kept;
      if reply.Refused? && !reply.notRunning {
        return false, fate, why;
      }
      if reply.Accepted? && reply.task != 0 {
        var _ := server.WaitTask(reply.task);
      }

      ghost var more;
      ok, more := Request(Op.Delete(n.vmid));
      DeleteFaults(n.vmid, why, more);
      why := why + more;
      fate := if ok || more[0].took then Removed else fate;
      assert server.vms == AfterDelete(old(server.vms), n.vmid, fate);
    }
  }
}
