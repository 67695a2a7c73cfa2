/** Deleting a cluster (internal/usecase/delete/delete.go). */
module Delete {
  import opened Wrappers
  import opened Domain
  import opened Server
  import opened Provider

  datatype DeleteError = ListingNodes | Failed(names: seq<string>)

  /** The effect of a delete run: only VMs of the cluster are touched, and each of them is gone, unless the run fails,
      when some may still be there, at most stopped. */
  ghost predicate DeleteRun(before: VMs, after: VMs, cluster: string, ok: bool) {
    && (forall id :: id in after ==> id in before)
    && (forall id :: id in before && !Member(before[id], cluster) ==> id in after && after[id] == before[id])
    && (forall id :: id in after && Member(before[id], cluster) ==>
          !ok && (after[id] == before[id] || after[id] == before[id].(running := false)))
  }

  /** A delete run never touches a template, tagged or not. */
  lemma DeleteKeepsTemplates(before: VMs, after: VMs, cluster: string, ok: bool)
    requires DeleteRun(before, after, cluster, ok)
    ensures TemplatesUntouched(before, after)
  {
  }

  /** The names of the nodes whose deletion met a fatal fault, in listing order. */
  function FailedNames(nodes: seq<Node>, why: seq<Fault>): seq<string> {
    if nodes == [] then []
    else
      var last := |nodes| - 1;
      FailedNames(nodes[..last], why) + if Fatal(why, nodes[last].vmid) then [nodes[last].name] else []
  }

  // Faults about other VMs do not change the list.
  lemma {:induction false} FailedNamesKept(nodes: seq<Node>, why: seq<Fault>, id: nat, more: seq<Fault>)
    requires OnlyAbout(more, {id}) && id !in Ids(nodes)
    ensures FailedNames(nodes, why + more) == FailedNames(nodes, why)
  {
    if nodes == [] {
    } else {
      var last := |nodes| - 1;
      assert nodes[last] in nodes && forall n :: n in nodes[..last] ==> n in nodes;
      FailedNamesKept(nodes[..last], why, id, more);
    }
  }

  lemma FailedNamesStep(nodes: seq<Node>, n: Node, why: seq<Fault>, more: seq<Fault>)
    requires OnlyAbout(why, Ids(nodes)) && OnlyAbout(more, {n.vmid}) && n.vmid !in Ids(nodes)
    ensures FailedNames(nodes + [n], why + more) == FailedNames(nodes, why) + if Fatal(more, n.vmid) then [n.name] else []
    ensures OnlyAbout(why + more, Ids(nodes + [n]))
  {
    assert (nodes + [n])[..|nodes|] == nodes;
    FailedNamesKept(nodes, why, n.vmid, more);
    assert n in nodes + [n];
    assert forall m :: m in nodes ==> m in nodes + [n];
  }

  lemma {:induction false} NoFailedNames(nodes: seq<Node>, why: seq<Fault>)
    ensures FailedNames(nodes, why) == [] <==> forall n :: n in nodes ==> !Fatal(why, n.vmid)
  {
    if nodes == [] {
    } else {
      var last := |nodes| - 1;
      NoFailedNames(nodes[..last], why);
      assert nodes == nodes[..last] + [nodes[last]];
    }
  }

  // The failure list names only nodes of the cluster, and every one that is still there.
  ghost predicate NamesFailures(before: VMs, after: VMs, cluster: string, names: seq<string>) {
    && (forall name :: name in names ==> name in Names(before, cluster))
    && (forall id :: id in after && id in before && Member(before[id], cluster) ==> before[id].name in names)
  }

  /** The listing is answered and the deletion of no VM of the cluster meets a fatal fault. */
  ghost predicate NoFatal(vms: VMs, cluster: string, why: seq<Fault>) {
    && Unanswered(ResourceList) !in why
    && forall id :: id in vms && Member(vms[id], cluster) ==> !Fatal(why, id)
  }

  lemma NoFatalIff(vms: VMs, cluster: string, nodes: seq<Node>, why: seq<Fault>)
    requires Listing(vms, cluster, nodes) && OnlyAbout(why, Ids(nodes))
    ensures NoFatal(vms, cluster, why) <==> forall n :: n in nodes ==> !Fatal(why, n.vmid)
  {
    forall id | id in vms && Member(vms[id], cluster) ensures NodeOf(id, vms[id]) in nodes {
    }
  }

  // The table after the first nodes of a listing have been dealt with: only they are touched.
  ghost predicate Touched(before: VMs, now: VMs, done: seq<Node>) {
    && (forall id :: id in now ==> id in before)
    && (forall id :: id in before && (forall n :: n in done ==> n.vmid != id) ==> id in now && now[id] == before[id])
    && (forall id :: id in now ==> now[id] == before[id] || now[id] == before[id].(running := false))
  }

  // The failure list: those of them that are still there, and no other names.
  ghost predicate Reported(now: VMs, done: seq<Node>, failed: seq<string>) {
    && (forall n :: n in done && n.vmid in now ==> n.name in failed)
    && (forall name :: name in failed ==> exists n :: n in done && n.name == name)
  }

  ghost predicate Progress(before: VMs, now: VMs, done: seq<Node>, failed: seq<string>) {
    Touched(before, now, done) && Reported(now, done, failed)
  }

  lemma TouchedStep(before: VMs, now: VMs, after: VMs, done: seq<Node>, n: Node, fate: Fate)
    requires Touched(before, now, done) && after == AfterDelete(now, n.vmid, fate)
    ensures Touched(before, after, done + [n])
  {
    assert forall m :: m in done ==> m in done + [n];
    assert n in done + [n];
  }

  lemma ReportedStep(now: VMs, after: VMs, done: seq<Node>, failed: seq<string>, n: Node, fate: Fate, ok: bool)
    requires Reported(now, done, failed)
    requires after == AfterDelete(now, n.vmid, fate) && (ok ==> fate == Removed)
    ensures Reported(after, done + [n], if ok then failed else failed + [n.name])
  {
    var failed' := if ok then failed else failed + [n.name];
    assert forall m :: m in done + [n] <==> m in done || m == n;
    forall name | name in failed' ensures exists m :: m in done + [n] && m.name == name {
      if name in failed {
        var m :| m in done && m.name == name;
        assert m in done + [n];
      } else {
        assert n in done + [n] && n.name == name;
      }
    }
  }

  lemma ProgressStep(before: VMs, now: VMs, after: VMs, done: seq<Node>, failed: seq<string>, n: Node, fate: Fate, ok: bool)
    requires Progress(before, now, done, failed)
    requires after == AfterDelete(now, n.vmid, fate) && (ok ==> fate == Removed)
    ensures Progress(before, after, done + [n], if ok then failed else failed + [n.name])
  {
    TouchedStep(before, now, after, done, n, fate);
    ReportedStep(now, after, done, failed, n, fate, ok);
  }

  /** Where the loop stands: the table, the failure list and the calls, for the nodes dealt with so far. */
  ghost predicate Deleting(before: VMs, now: VMs, done: seq<Node>, failed: seq<string>, why: seq<Fault>, calls: seq<Call>) {
    && Progress(before, now, done, failed)
    && failed == FailedNames(done, why) && OnlyAbout(why, Ids(done))
    && Tried(Ids(done), why, calls) && KeptExactly(now, Ids(done), why)
  }

  lemma DeletingNothing(vms: VMs)
    ensures Deleting(vms, vms, [], [], [], [])
  {
  }

  // A node whose turn has not come is there.
  lemma StillThere(before: VMs, now: VMs, done: seq<Node>, failed: seq<string>, n: Node)
    requires Progress(before, now, done, failed) && n.vmid in before && n.vmid !in Ids(done)
    ensures n.vmid in now
  {
    assert forall m :: m in done ==> m.vmid in Ids(done);
  }

  lemma DeletingStep(before: VMs, now: VMs, after: VMs, done: seq<Node>, failed: seq<string>, why: seq<Fault>, calls: seq<Call>,
                     n: Node, fate: Fate, ok: bool, more: seq<Fault>)
    requires Deleting(before, now, done, failed, why, calls) && n.vmid !in Ids(done) && n.vmid in before
    requires after == AfterDelete(now, n.vmid, fate) && (ok ==> fate == Removed)
    requires fate == Removed <==> !Keeps(more, n.vmid)
    requires OnlyAbout(more, {n.vmid}) && (ok <==> !Fatal(more, n.vmid))
    ensures Deleting(before, after, done + [n], if ok then failed else failed + [n.name], why + more,
                     calls + DeleteCalls(n.vmid, more))
  {
    hide Progress, FailedNames, Fatal, CutShort, Keeps, DeleteCalls;
    StillThere(before, now, done, failed, n);
    ProgressStep(before, now, after, done, failed, n, fate, ok);
    FailedNamesStep(done, n, why, more);
    TriedStep(Ids(done), why, calls, n.vmid, more);
    KeptStep(now, after, Ids(done), why, n.vmid, fate, more);
    IdsAppend(done, n);
  }

  lemma ProgressEnds(before: VMs, after: VMs, cluster: string, nodes: seq<Node>, failed: seq<string>)
    requires Listing(before, cluster, nodes) && Progress(before, after, nodes, failed)
    ensures DeleteRun(before, after, cluster, failed == [])
    ensures NamesFailures(before, after, cluster, failed)
  {
    forall id | id in after && Member(before[id], cluster) ensures before[id].name in failed {
      assert NodeOf(id, before[id]) in nodes;
    }
    forall id | id in before && !Member(before[id], cluster) ensures id in after && after[id] == before[id] {
      assert forall n :: n in nodes ==> n.vmid != id;
    }
    forall name | name in failed ensures name in Names(before, cluster) {
      var n :| n in nodes && n.name == name;
      assert before[n.vmid].name == name;
    }
  }

  lemma ListingDistinct(vms: VMs, cluster: string, nodes: seq<Node>)
    requires Listing(vms, cluster, nodes)
    ensures DistinctIds(nodes) && Ids(nodes) <= vms.Keys
  {
  }

  // Without a listing nothing happens.
  lemma ListingFailed(vms: VMs, cluster: string)
    ensures DeleteRun(vms, vms, cluster, false) && !NoFatal(vms, cluster, [Unanswered(ResourceList)])
  {
  }

  lemma NotInFront(nodes: seq<Node>, i: nat)
    requires DistinctIds(nodes) && i < |nodes|
    ensures nodes[i].vmid !in Ids(nodes[..i]) && nodes[i].vmid in Ids(nodes)
  {
    assert nodes[i] in nodes;
  }

  lemma DeletingEnds(before: VMs, after: VMs, cluster: string, nodes: seq<Node>, failed: seq<string>, why: seq<Fault>,
                     calls: seq<Call>, earlier: seq<Call>)
    requires Listing(before, cluster, nodes) && Deleting(before, after, nodes, failed, why, calls)
    ensures DeleteRun(before, after, cluster, failed == []) && NamesFailures(before, after, cluster, failed)
    ensures failed == FailedNames(nodes, why) && Tried(Ids(nodes), why, earlier + calls)
    ensures KeptExactly(after, Ids(nodes), why)
    ensures failed == [] <==> NoFatal(before, cluster, why)
  {
    TriedLater(Ids(nodes), why, earlier, calls);
    ProgressEnds(before, after, cluster, nodes, failed);
    NoFailedNames(nodes, why);
    NoFatalIff(before, cluster, nodes, why);
  }

  /** A delete run that is killed at any call, at any node of its listing, leaves a state that failed runs can leave. */
  lemma KilledRunCovered(before: VMs, now: VMs, after: VMs, cluster: string, nodes: seq<Node>, i: nat, failed: seq<string>,
                         fate: Fate)
    requires Listing(before, cluster, nodes) && i < |nodes|
    requires Progress(before, now, nodes[..i], failed) && after == AfterDelete(now, nodes[i].vmid, fate)
    ensures DeleteRun(before, after, cluster, false)
  {
    hide Reported, NodeOf, AfterDelete, Member;
    ProgressStep(before, now, after, nodes[..i], failed, nodes[i], fate, false);
    var done := nodes[..i] + [nodes[i]];
    forall id | id in before && !Member(before[id], cluster) ensures id in after && after[id] == before[id] {
      assert forall n :: n in done ==> n in nodes && n.vmid != id;
    }
  }

  class Pipeline {
    const provider: ProxmoxProvider

    constructor (provider: ProxmoxProvider)
      ensures this.provider == provider
    {
      this.provider := provider;
    }

    /** The loop: every node is tried, whatever happened to the ones before it; the failure list names exactly those whose
        deletion met a fatal fault. */
    method DeleteAll(nodes: seq<Node>) returns (failed: seq<string>, ghost why: seq<Fault>, ghost calls: seq<Call>)
      requires provider.server.Faithful() && DistinctIds(nodes) && Ids(nodes) <= provider.server.vms.Keys
      modifies provider.server
      ensures provider.server.Faithful()
      ensures provider.server.faults == old(provider.server.faults) + why
      ensures provider.server.calls == old(provider.server.calls) + calls
      ensures Deleting(old(provider.server.vms), provider.server.vms, nodes, failed, why, calls)
    {
      hide FaultsOf, Deleting;
      ghost var before := provider.server.vms;
      failed, why, calls := [], [], [];
      DeletingNothing(before);
      for i := 0 to |nodes|
        invariant provider.server.Faithful()
        invariant provider.server.faults == old(provider.server.faults) + why
        invariant provider.server.calls == old(provider.server.calls) + calls
        invariant Deleting(before, provider.server.vms, nodes[..i], failed, why, calls)
      {
        ghost var now := provider.server.vms;
        var ok, fate, more := provider.DeleteNode(nodes[i]);
        NotInFront(nodes, i);
        DeletingStep(before, now, provider.server.vms, nodes[..i], failed, why, calls, nodes[i], fate, ok, more);
        assert nodes[..i + 1] == nodes[..i] + [nodes[i]];
        why, calls := why + more, calls + DeleteCalls(nodes[i].vmid, more);
        if !ok {
          failed := failed + [nodes[i].name];
        }
      }
      assert nodes[..|nodes|] == nodes;
    }

    /** Deletes every listed VM, going on after failures. It succeeds exactly when the listing is answered and no node of
        the cluster meets a fatal fault. An error after the listing names exactly the nodes that did. */
    method Run(cluster: string)
      returns (r: Result<(), DeleteError>, ghost nodes: seq<Node>, ghost why: seq<Fault>, ghost calls: seq<Call>)
      requires provider.server.Faithful()
      modifies provider.server
      ensures provider.server.Faithful()
      ensures provider.server.faults == old(provider.server.faults) + why
      ensures provider.server.calls == old(provider.server.calls) + calls
      ensures DeleteRun(old(provider.server.vms), provider.server.vms, cluster, r.Ok?)
      ensures TemplatesUntouched(old(provider.server.vms), provider.server.vms)
      ensures r.Ok? <==> NoFatal(old(provider.server.vms), cluster, why)
      ensures match r
              case Err(ListingNodes) =>
                provider.server.vms == old(provider.server.vms) && why == [Unanswered(ResourceList)] && OnlyReads(calls)
              case Ok(_) => Listing(old(provider.server.vms), cluster, nodes) && Tried(Ids(nodes), why, calls)
              case Err(Failed(names)) =>
                && Listing(old(provider.server.vms), cluster, nodes) && Tried(Ids(nodes), why, calls)
                && KeptExactly(provider.server.vms, Ids(nodes), why)
                && names == FailedNames(nodes, why)
                && NamesFailures(old(provider.server.vms), provider.server.vms, cluster, names)
    {
      hide FaultsOf, Deleting, Listing, NoFatal, TemplatesUntouched, Tried, KeptExactly, NamesFailures, DeleteRun, FailedNames;
      ghost var before := provider.server.vms;
      var listed := provider.ListNodes(cluster);
      calls := [Asked(ResourceList)];
      if listed.None? {
        ListingFailed(before, cluster);
        DeleteKeepsTemplates(before, before, cluster, false);
        return Err(ListingNodes), [], [Unanswered(ResourceList)], calls;
      }
      nodes, why := listed.value, [];
      if |listed.value| == 0 {
        DeletingNothing(before);
        DeletingEnds(before, before, cluster, nodes, [], [], [], calls);
        DeleteKeepsTemplates(before, before, cluster, true);
        assert calls + [] == calls;
        return Ok(()), nodes, why, calls;
      }
      ListingDistinct(before, cluster, nodes);
      var failed;
      ghost var more;
      failed, why, more := DeleteAll(listed.value);
      DeletingEnds(before, provider.server.vms, cluster, nodes, failed, why, more, calls);
      DeleteKeepsTemplates(before, provider.server.vms, cluster, failed == []);
      calls := calls + more;
      if |failed| > 0 {
        return Err(Failed(failed)), nodes, why, calls;
      }
      return Ok(()), nodes, why, calls;
    }
  }
}
