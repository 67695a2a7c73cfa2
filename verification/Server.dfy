/** The Proxmox server as the program sees it. The transitions are those of the fake server in
    internal/adapter/proxmox/testserver/server.go, with ipconfig0 stored too, and any call may go wrong. */
module Server {
  import opened Collections
  import opened Wrappers
  import opened Placement
  import Polling = WaitTask

  datatype VM = VM(name: string, node: string, tags: string, template: bool, running: bool, ipConfig: string)

  type VMs = map<nat, VM>

  datatype Resource = Resource(vmid: nat, name: string, node: string, tags: string, template: bool)

  function ResourceOf(id: nat, vm: VM): Resource {
    Resource(id, vm.name, vm.node, vm.tags, vm.template)
  }

  // A listing holds every VM exactly once, in any order.
  ghost predicate Lists(vms: VMs, resources: seq<Resource>) {
    && (forall r :: r in resources ==> r.vmid in vms && r == ResourceOf(r.vmid, vms[r.vmid]))
    && (forall i, j :: 0 <= i < j < |resources| ==> resources[i].vmid != resources[j].vmid)
    && (forall id :: id in vms ==> ResourceOf(id, vms[id]) in resources)
  }

  /** Every template is as it was. */
  ghost predicate TemplatesUntouched(before: VMs, after: VMs) {
    forall id :: id in before && before[id].template ==> id in after && after[id] == before[id]
  }

  // --- requests ---

  /** The requests that change something. */
  datatype Op =
    | Clone(id: nat, name: string, node: string)  // node is the template's
    | Config(id: nat, tags: string, ipConfig: string)
    | Resize(id: nat)
    | Start(id: nat)
    | Stop(id: nat)
    | Delete(id: nat)

  function AfterConfig(vms: VMs, id: nat, tags: string, ipConfig: string): VMs {
    if id in vms then vms[id := vms[id].(tags := tags, ipConfig := ipConfig)] else vms
  }

  function AfterRun(vms: VMs, id: nat, running: bool): VMs {
    if id in vms then vms[id := vms[id].(running := running)] else vms
  }

  /** The full effect of a request. */
  function Effect(vms: VMs, op: Op): VMs {
    match op
    case Clone(id, name, node) => vms[id := VM(name, node, "", false, false, "")]
    case Config(id, tags, ipConfig) => AfterConfig(vms, id, tags, ipConfig)
    case Resize(_) => vms
    case Start(id) => AfterRun(vms, id, true)
    case Stop(id) => AfterRun(vms, id, false)
    case Delete(id) => vms - {id}
  }

  /** What becomes of one request. A rejected one, or one whose answer is lost, may have taken effect all the same. A task
      is found running by some polls; the last one sees it stopped, or fails. */
  datatype Answer =
    | Rejected(took: bool, notRunning: bool)
    | Immediate
    | Tasked(took: bool, running: nat, last: Polling.Poll)

  function Took(a: Answer): bool {
    a.Immediate? || a.took
  }

  // A task that had no effect is never seen to have ended well.
  function LastPoll(a: Answer): Polling.Poll
    requires a.Tasked?
  {
    if a.last.Running? || (a.last == Polling.Stopped("OK") && !a.took) then Polling.Failed else a.last
  }

  predicate EndsWell(a: Answer) {
    a.Tasked? && LastPoll(a) == Polling.Stopped("OK")
  }

  // What the program gets to see of a request; task 0 stands for an answer that names no task.
  datatype Reply = Refused(notRunning: bool) | Accepted(task: nat)

  datatype Task = Task(running: nat, last: Polling.Poll)

  // --- calls that go wrong ---

  datatype Read = Version | HostList | ResourceList | FreeId

  datatype Call = Asked(read: Read) | Sent(op: Op)

  // A request that goes bad may have taken effect.
  datatype Fault = Unanswered(read: Read) | Refusal(op: Op, notRunning: bool, took: bool) | BadTask(op: Op, took: bool)

  // A clone is waited for in any case, so it needs a task.
  function FaultOf(op: Op, a: Answer): seq<Fault> {
    match a
    case Rejected(took, notRunning) => [Refusal(op, notRunning, took)]
    case Immediate => if op.Clone? then [BadTask(op, true)] else []
    case Tasked(took, _, _) => if EndsWell(a) then [] else [BadTask(op, took)]
  }

  function FaultsIn(k: nat, call: Call, answers: (nat, Op) -> Answer, silent: nat -> bool): seq<Fault> {
    match call
    case Asked(read) => if silent(k) then [Unanswered(read)] else []
    case Sent(op) => FaultOf(op, answers(k, op))
  }

  // The faults among some calls, when answers and silence are the server's script.
  function FaultsOf(calls: seq<Call>, answers: (nat, Op) -> Answer, silent: nat -> bool): seq<Fault> {
    if calls == [] then []
    else
      var last := |calls| - 1;
      FaultsOf(calls[..last], answers, silent) + FaultsIn(last, calls[last], answers, silent)
  }

  lemma FaultsAppend(calls: seq<Call>, call: Call, answers: (nat, Op) -> Answer, silent: nat -> bool)
    ensures FaultsOf(calls + [call], answers, silent) ==
            FaultsOf(calls, answers, silent) + FaultsIn(|calls|, call, answers, silent)
  {
    assert (calls + [call])[..|calls|] == calls;
  }

  lemma UnusedId(used: set<nat>) returns (id: nat)
    ensures id > 0 && id !in used
  {
    var b := UpperBound(used);
    id := b + 1;
  }

  /** The server. Its script says what becomes of every call, numbered in the order in which they are made. */
  class Proxmox {
    const answers: (nat, Op) -> Answer
    const silent: nat -> bool
    var vms: VMs
    var hosts: seq<Host>
    var tasks: map<nat, Task>
    var upidSeq: nat
    var calls: seq<Call>
    ghost var faults: seq<Fault>

    /** The faults are those of the calls so far. */
    ghost predicate Faithful()
      reads this
    {
      faults == FaultsOf(calls, answers, silent)
    }

    constructor (vms: VMs, hosts: seq<Host>, answers: (nat, Op) -> Answer, silent: nat -> bool)
      ensures this.vms == vms && this.hosts == hosts && this.answers == answers && this.silent == silent
      ensures calls == [] && faults == [] && Faithful()
    {
      this.vms, this.hosts, this.answers, this.silent := vms, hosts, answers, silent;
      this.tasks, this.upidSeq, this.calls, this.faults := map[], 0, [], [];
    }

    method Ask(read: Read) returns (answered: bool)
      requires Faithful()
      modifies this`calls, this`faults
      ensures Faithful() && calls == old(calls) + [Asked(read)]
      ensures faults == old(faults) + if answered then [] else [Unanswered(read)]
    {
      hide FaultsOf;
      FaultsAppend(calls, Asked(read), answers, silent);
      answered := !silent(|calls|);
      faults := faults + if answered then [] else [Unanswered(read)];
      calls := calls + [Asked(read)];
    }

    method ListHosts() returns (r: Option<seq<Host>>)
      requires Faithful()
      modifies this`calls, this`faults
      ensures Faithful() && calls == old(calls) + [Asked(HostList)]
      ensures faults == old(faults) + if r.Some? then [] else [Unanswered(HostList)]
      ensures r.Some? ==> r.value == hosts
    {
      hide FaultsOf;
      var answered := Ask(HostList);
      return if answered then Some(hosts) else None;
    }

    method ListResources() returns (r: Option<seq<Resource>>)
      requires Faithful()
      modifies this`calls, this`faults
      ensures Faithful() && calls == old(calls) + [Asked(ResourceList)]
      ensures faults == old(faults) + if r.Some? then [] else [Unanswered(ResourceList)]
      ensures r.Some? ==> Lists(vms, r.value)
    {
      hide FaultsOf;
      var answered := Ask(ResourceList);
      if !answered {
        return None;
      }
      var resources := AllResources();
      return Some(resources);
    }

    method AllResources() returns (resources: seq<Resource>)
      ensures Lists(vms, resources)
    {
      resources := [];
      var rest := vms.Keys;
      while rest != {}
        invariant rest <= vms.Keys
        invariant forall r :: r in resources ==> r.vmid in vms && r == ResourceOf(r.vmid, vms[r.vmid]) && r.vmid !in rest
        invariant forall i, j :: 0 <= i < j < |resources| ==> resources[i].vmid != resources[j].vmid
        invariant forall id :: id in vms && id !in rest ==> ResourceOf(id, vms[id]) in resources
        decreases |rest|
      {
        var id :| id in rest;
        resources := resources + [ResourceOf(id, vms[id])];
        rest := rest - {id};
      }
    }

    // The contract of nextid: some positive number that no VM has.
    method NextID() returns (r: Option<nat>)
      requires Faithful()
      modifies this`calls, this`faults
      ensures Faithful() && calls == old(calls) + [Asked(FreeId)]
      ensures faults == old(faults) + if r.Some? then [] else [Unanswered(FreeId)]
      ensures r.Some? ==> r.value > 0 && r.value !in vms
    {
      hide FaultsOf;
      var answered := Ask(FreeId);
      if !answered {
        return None;
      }
      ghost var some := UnusedId(vms.Keys);
      var id :| id > 0 && id !in vms;
      return Some(id);
    }

    /** One request. It has its full effect or none, as the script says; the answer names a task, or none, or is an
        error. */
    method Perform(op: Op) returns (r: Reply)
      requires Faithful()
      modifies this
      ensures Faithful() && hosts == old(hosts) && calls == old(calls) + [Sent(op)]
      ensures var a := answers(|old(calls)|, op);
              && vms == (if Took(a) then Effect(old(vms), op) else old(vms))
              && faults == old(faults) + FaultOf(op, a)
              && match a
                 case Rejected(_, notRunning) => r == Refused(notRunning)
                 case Immediate => r == Accepted(0)
                 case Tasked(_, running, _) =>
                   r.Accepted? && r.task > 0 && r.task in tasks && tasks[r.task] == Task(running, LastPoll(a))
    {
      hide FaultsOf;
      var a := answers(|calls|, op);
      FaultsAppend(calls, Sent(op), answers, silent);
      faults := faults + FaultOf(op, a);
      calls := calls + [Sent(op)];
      if Took(a) {
        vms := Effect(vms, op);
      }
      match a
      case Rejected(_, notRunning) =>
        r := Refused(notRunning);
      case Immediate =>
        r := Accepted(0);
      case Tasked(_, running, _) =>
        upidSeq := upidSeq + 1;
        tasks := tasks[upidSeq := Task(running, LastPoll(a))];
        r := Accepted(upidSeq);
    }

    /** Waits for a task, by the polling loop. There is no task 0, so waiting for it fails at the first poll. */
    method WaitTask(task: nat) returns (ok: bool)
      ensures ok <==> task != 0 && task in tasks && tasks[task].last == Polling.Stopped("OK")
    {
      var known := task != 0 && task in tasks;
      var running, last := if known then tasks[task].running else 0, if known then tasks[task].last else Polling.Failed;
      var poll := (k: nat) => if k < running then Polling.Running else last;
      var never := (k: nat) => false;
      assert !last.Running? ==> Polling.EndsAt(poll, never, running);
      var result, _, _ := Polling.WaitTask(poll, never, running + 1);
      ok := result == Some(Ok(()));
    }
  }
}
