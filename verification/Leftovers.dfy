/** What failed runs leave behind, over whole histories: VMs that no listing shows. */
module Leftovers {
  import opened Ipam
  import opened Domain
  import opened Placement
  import opened Plan
  import opened Server
  import opened Provider
  import opened Create
  import opened Delete
  import opened History

  /** No run of any cluster will ever see this VM. */
  ghost predicate Unlisted(vm: VM) {
    forall name: string :: !Member(vm, name)
  }

  ghost function UnlistedIds(vms: VMs): set<nat> {
    set id | id in vms && Unlisted(vms[id])
  }

  function Failures(events: seq<Event>): nat {
    if events == [] then 0
    else
      var e := events[|events| - 1];
      Failures(events[..|events| - 1]) + if e.Created? && !e.ok then 1 else 0
  }

  // Whether a VM made for a spec is unlisted depends on the stage alone.
  lemma MadeUnlisted(c: Cluster, plan: IPPlan, spec: NodeSpec, vm: VM, stage: Stage)
    requires ValidCluster(c) && SpecIn(c, plan, spec) && MadeFor(vm, spec, stage)
    ensures Unlisted(vm) <==> stage == Bare
  {
    forall name: string ensures Member(vm, name) <==> stage != Bare && name == c.name {
      MadeMember(c, plan, spec, vm, stage, name);
    }
    assert Member(vm, c.name) <==> stage != Bare;
  }

  // The unlisted VMs after a run that leaves the old VMs alone: the old ones and the new unlisted ones.
  lemma UnlistedAfter(before: VMs, after: VMs, news: set<nat>)
    requires Untouched(before, after)
    requires forall id :: id in after && id !in before ==> (Unlisted(after[id]) <==> id in news)
    requires forall id :: id in news ==> id in after && id !in before
    ensures UnlistedIds(after) == UnlistedIds(before) + news
  {
  }

  // The new VMs of a complete run are all listed.
  lemma CompleteLeavesNone(codec: Codec, hosts: seq<Host>, before: VMs, after: VMs, c: Cluster, ids: seq<nat>)
    requires ValidCluster(c) && Completes(codec, hosts, before, after, c, ids)
    ensures UnlistedIds(after) == UnlistedIds(before)
  {
    var specs := ToCreateOn(codec, c, before);
    ToCreateSpecs(c, PlanOf(codec, c).value, Names(before, c.name));
    forall id | id in after && id !in before ensures !Unlisted(after[id]) {
      var i :| 0 <= i < |ids| && ids[i] == id;
      assert specs[i] in specs;
      MadeUnlisted(c, PlanOf(codec, c).value, specs[i], after[id], Started);
    }
    UnlistedAfter(before, after, {});
  }

  /** A run that breaks down leaves exactly one more unlisted VM if its last attempt stopped between clone and
      configuration, and none otherwise. */
  lemma BrokenLeaves(codec: Codec, hosts: seq<Host>, before: VMs, after: VMs, c: Cluster, ids: seq<nat>, stage: Stage,
                     warned: set<nat>)
    requires ValidCluster(c) && Breaks(codec, hosts, before, after, c, ids, stage, warned)
    ensures UnlistedIds(after) == UnlistedIds(before) + if stage == Bare then {ids[|ids| - 1]} else {}
  {
    var last := |ids| - 1;
    var news := if stage == Bare then {ids[last]} else {};
    forall id | id in after && id !in before ensures Unlisted(after[id]) <==> id in news {
      var i :| 0 <= i < |ids| && ids[i] == id;
      BrokenAt(codec, hosts, before, after, c, ids, stage, warned, i);
    }
    UnlistedAfter(before, after, news);
  }

  lemma BrokenAt(codec: Codec, hosts: seq<Host>, before: VMs, after: VMs, c: Cluster, ids: seq<nat>, stage: Stage,
                 warned: set<nat>, i: nat)
    requires ValidCluster(c) && Breaks(codec, hosts, before, after, c, ids, stage, warned)
    requires i < |ids| && ids[i] in after
    ensures Unlisted(after[ids[i]]) <==> stage == Bare && i == |ids| - 1
  {
    var plan, specs := PlanOf(codec, c).value, ToCreateOn(codec, c, before);
    ToCreateSpecs(c, plan, Names(before, c.name));
    assert specs[i] in specs;
    if i == |ids| - 1 {
      MadeUnlisted(c, plan, specs[i], after[ids[i]], stage);
    } else {
      var s := if MadeFor(after[ids[i]], specs[i], Started) then Started else Configured;
      MadeUnlisted(c, plan, specs[i], after[ids[i]], s);
    }
  }

  // One run adds at most one unlisted VM, only by failing, and changes none.
  lemma StepLeaves(codec: Codec, before: VMs, e: Event, after: VMs)
    requires StepOf(codec, before, e, after)
    ensures UnlistedIds(before) <= UnlistedIds(after)
    ensures |UnlistedIds(after)| <= |UnlistedIds(before)| + if e.Created? && !e.ok then 1 else 0
    ensures forall id :: id in UnlistedIds(before) ==> after[id] == before[id]
  {
    match e
    case Created(c, hosts, ok) =>
      if ok {
        var ids :| Completes(codec, hosts, before, after, c, ids);
        CompleteLeavesNone(codec, hosts, before, after, c, ids);
      } else if after != before {
        var ids, stage, warned :| Breaks(codec, hosts, before, after, c, ids, stage, warned);
        BrokenLeaves(codec, hosts, before, after, c, ids, stage, warned);
      }
    case Deleted(name, ok) =>
      DeleteKeepsIdentity(before, after, name, ok);
      DeleteLeaves(before, after, name, ok);
  }

  lemma DeleteLeaves(before: VMs, after: VMs, name: string, ok: bool)
    requires DeleteRun(before, after, name, ok)
    ensures UnlistedIds(after) == UnlistedIds(before)
  {
    DeleteKeepsIdentity(before, after, name, ok);
    forall id | id in before && Unlisted(before[id]) ensures id in after && after[id] == before[id] {
      assert !Member(before[id], name);
    }
    forall id | id in after && Unlisted(after[id]) ensures Unlisted(before[id]) {
      assert forall other: string :: Member(after[id], other) <==> Member(before[id], other);
    }
  }

  /** Over any history, the unlisted VMs that were there stay and are never changed, and at most one more is left for
      each failed create run. No run removes one. */
  lemma {:induction false} HistoryLeaves(codec: Codec, states: seq<VMs>, events: seq<Event>, k: nat)
    requires Runs(codec, states, events) && k <= |events|
    ensures UnlistedIds(states[0]) <= UnlistedIds(states[k])
    ensures |UnlistedIds(states[k])| <= |UnlistedIds(states[0])| + Failures(events[..k])
    ensures forall id :: id in UnlistedIds(states[0]) ==> states[k][id] == states[0][id]
  {
    if k == 0 {
    } else {
      HistoryLeaves(codec, states, events, k - 1);
      assert StepOf(codec, states[k - 1], events[k - 1], states[k - 1 + 1]);
      StepLeaves(codec, states[k - 1], events[k - 1], states[k]);
      assert events[..k][..k - 1] == events[..k - 1];
    }
  }

  /** The bound is met: whenever a run can get as far as a clone, it may break down leaving one unlisted VM, on the
      template's host. */
  lemma LeftoverPossible(codec: Codec, hosts: seq<Host>, before: VMs, c: Cluster) returns (after: VMs, id: nat)
    requires ValidCluster(c) && Feasible(codec, hosts, before, c) && ToCreateOn(codec, c, before) != []
    ensures CreateRun(codec, hosts, before, after, c, false)
    ensures id !in before && UnlistedIds(after) == UnlistedIds(before) + {id}
  {
    after, id := FirstCloneLeft(codec, hosts, before, c);
    BrokenLeaves(codec, hosts, before, after, c, [id], Bare, {});
  }
}
