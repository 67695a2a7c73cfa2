/** Convergence and idempotence of create runs, in terms of the names listed for the cluster. */
module Convergence {
  import opened Collections
  import opened Ipam
  import opened Domain
  import opened Placement
  import opened Plan
  import opened Server
  import opened Provider
  import opened Create
  import opened History

  ghost function Desired(c: Cluster): set<string> {
    set n | n in c.DesiredNames()
  }

  // Existing names stay, and new ones are desired ones.
  lemma NamesGrow(codec: Codec, hosts: seq<Host>, before: VMs, after: VMs, c: Cluster, ok: bool)
    requires ValidCluster(c) && CreateRun(codec, hosts, before, after, c, ok)
    ensures Names(before, c.name) <= Names(after, c.name) <= Names(before, c.name) + Desired(c)
  {
    var specs, ids := CreateGrows(codec, hosts, before, after, c, ok);
    assert Untouched(before, after);
    forall name | name in Names(before, c.name) ensures name in Names(after, c.name) {
      var id :| id in before && Member(before[id], c.name) && before[id].name == name;
      assert after[id] == before[id];
    }
    forall name | name in Names(after, c.name) ensures name in Names(before, c.name) + Desired(c) {
      var id :| id in after && Member(after[id], c.name) && after[id].name == name;
      if id !in before {
        var i := NewMember(codec, before, after, c, specs, ids, id, c.name);
        assert specs[i] in specs && specs[i].name == name;
        ToCreateNames(c, PlanOf(codec, c).value, Names(before, c.name), name);
      }
    }
  }

  // A complete run leaves every desired name listed.
  lemma CompleteHasDesired(codec: Codec, hosts: seq<Host>, before: VMs, after: VMs, c: Cluster, name: string)
    requires ValidCluster(c) && CreateRun(codec, hosts, before, after, c, true) && name in c.DesiredNames()
    requires name !in Names(before, c.name)
    ensures name in Names(after, c.name)
  {
    var ids :| Completes(codec, hosts, before, after, c, ids);
    var i := DesiredSpec(c, PlanOf(codec, c).value, Names(before, c.name), name);
    var spec := ToCreateOn(codec, c, before)[i];
    MadeMember(c, PlanOf(codec, c).value, spec, after[ids[i]], Started, c.name);
    assert after[ids[i]].name == name;
  }

  // The spec that a missing desired name gets.
  lemma DesiredSpec(c: Cluster, plan: IPPlan, existing: set<string>, name: string) returns (i: nat)
    requires ValidCluster(c) && name in c.DesiredNames() && name !in existing
    ensures var specs := ToCreate(c, plan, existing);
            i < |specs| && specs[i].name == name && SpecIn(c, plan, specs[i])
  {
    ToCreateNames(c, plan, existing, name);
    var specs := ToCreate(c, plan, existing);
    var s :| s in specs && s.name == name;
    i :| 0 <= i < |specs| && specs[i] == s;
    ToCreateSpecs(c, plan, existing);
  }

  /** Convergence: after a complete run the listed names are the old ones together with the desired ones. */
  lemma SuccessNames(codec: Codec, hosts: seq<Host>, before: VMs, after: VMs, c: Cluster)
    requires ValidCluster(c) && CreateRun(codec, hosts, before, after, c, true)
    ensures Names(after, c.name) == Names(before, c.name) + Desired(c)
  {
    NamesGrow(codec, hosts, before, after, c, true);
    forall name | name in Desired(c) ensures name in Names(after, c.name) {
      if name !in Names(before, c.name) {
        CompleteHasDesired(codec, hosts, before, after, c, name);
      }
    }
  }

  /** A run has nothing to create exactly when all desired names are listed. */
  lemma NothingMissingIff(codec: Codec, vms: VMs, c: Cluster)
    requires PlanOf(codec, c).Ok?
    ensures ToCreateOn(codec, c, vms) == [] <==> Desired(c) <= Names(vms, c.name)
  {
    var plan, specs := PlanOf(codec, c).value, ToCreateOn(codec, c, vms);
    if specs != [] {
      ToCreateNames(c, plan, Names(vms, c.name), specs[0].name);
      assert specs[0] in specs;
      assert specs[0].name in Desired(c) && specs[0].name !in Names(vms, c.name);
    }
    forall name | name in Desired(c) && name !in Names(vms, c.name) ensures specs != [] {
      ToCreateNames(c, plan, Names(vms, c.name), name);
    }
  }

  /** Idempotence: after a complete run, any further run of the same configuration, whether it succeeds or fails, leaves
      the VM table as it is. */
  lemma SecondRunChangesNothing(codec: Codec, hosts: seq<Host>, hosts': seq<Host>, before: VMs, after: VMs, later: VMs,
                                c: Cluster, ok: bool)
    requires ValidCluster(c) && CreateRun(codec, hosts, before, after, c, true)
    requires CreateRun(codec, hosts', after, later, c, ok)
    ensures PlanOf(codec, c).Ok? && ToCreateOn(codec, c, after) == []
    ensures later == after
  {
    SuccessNames(codec, hosts, before, after, c);
    NothingMissingIff(codec, after, c);
    NoWorkNoChange(codec, hosts', after, later, c, ok);
  }

  lemma NoWorkNoChange(codec: Codec, hosts: seq<Host>, before: VMs, after: VMs, c: Cluster, ok: bool)
    requires PlanOf(codec, c).Ok? && ToCreateOn(codec, c, before) == [] && CreateRun(codec, hosts, before, after, c, ok)
    ensures after == before
  {
    if ok {
      var ids :| Completes(codec, hosts, before, after, c, ids);
      SameMap(before, after);
    }
  }

  lemma {:induction false} NamesBetween(codec: Codec, states: seq<VMs>, events: seq<Event>, c: Cluster, k: nat)
    requires Runs(codec, states, events) && k <= |events|
    requires forall e :: e in events ==> e.Created? && e.cluster == c
    ensures Names(states[0], c.name) <= Names(states[k], c.name) <= Names(states[0], c.name) + Desired(c)
  {
    if k == 0 {
    } else {
      NamesBetween(codec, states, events, c, k - 1);
      assert StepOf(codec, states[k - 1], events[k - 1], states[k - 1 + 1]) && events[k - 1] in events;
      NamesGrow(codec, events[k - 1].hosts, states[k - 1], states[k], c, events[k - 1].ok);
    }
  }

  /** Any number of runs of one configuration, failed or not, before a complete one give the same names. */
  lemma FailuresDoNotMatter(codec: Codec, states: seq<VMs>, events: seq<Event>, c: Cluster)
    requires Runs(codec, states, events) && events != []
    requires forall e :: e in events ==> e.Created? && e.cluster == c
    requires events[|events| - 1].ok
    ensures Names(states[|events|], c.name) == Names(states[0], c.name) + Desired(c)
  {
    var last := |events| - 1;
    NamesBetween(codec, states, events, c, last);
    assert StepOf(codec, states[last], events[last], states[last + 1]) && events[last] in events;
    SuccessNames(codec, events[last].hosts, states[last], states[last + 1], c);
  }

  /** Convergence is about names only: a VM that was tagged but not started when a run broke down counts as existing,
      and is still not running after the next complete run. */
  lemma HalfMadeIsAdopted(codec: Codec, hosts: seq<Host>, hosts': seq<Host>, before: VMs, broken: VMs, after: VMs,
                          c: Cluster, ids: seq<nat>, warned: set<nat>)
    requires ValidCluster(c) && Breaks(codec, hosts, before, broken, c, ids, Configured, warned)
    requires CreateRun(codec, hosts', broken, after, c, true)
    ensures var id := ids[|ids| - 1];
            id in after && Member(after[id], c.name) && !after[id].running && after[id].name in Desired(c)
  {
    var last, plan := |ids| - 1, PlanOf(codec, c).value;
    var specs := ToCreateOn(codec, c, before);
    ToCreateSpecs(c, plan, Names(before, c.name));
    assert specs[last] in specs;
    ToCreateNames(c, plan, Names(before, c.name), specs[last].name);
    MadeMember(c, plan, specs[last], broken[ids[last]], Configured, c.name);
    var made :| Completes(codec, hosts', broken, after, c, made);
    assert ids[last] in broken && Untouched(broken, after);
  }
}
