/** Concurrent picks: any number of callers of RoundRobin.Pick over one list of eligible hosts, as a step system
    (placement.go). */
module PlacementSteps {
  import opened Wrappers
  import opened Placement

  /** Where a caller stands in Pick. */
  datatype Phase = Ready | Locked | Read(idx: nat) | Advanced(idx: nat) | Returned(host: string)

  // A pick that has chosen its index, in the order of the choices.
  datatype Pick = Pick(caller: nat, host: string)

  datatype State = State(counter: nat, mutex: Option<nat>, callers: map<nat, Phase>, picks: seq<Pick>) {
    function At(t: nat, p: Phase): State {
      this.(callers := callers[t := p])
    }
  }

  predicate Step(online: seq<Host>, s: State, t: nat, s': State)
    requires online != []
  {
    && t in s.callers
    && match s.callers[t]
       case Ready => s.mutex == None && s' == s.At(t, Locked).(mutex := Some(t))
       case Locked =>
         var idx := s.counter % |online|;
         s' == s.At(t, Read(idx)).(picks := s.picks + [Pick(t, online[idx].name)])
       case Read(idx) => s' == s.At(t, Advanced(idx)).(counter := s.counter + 1)
       case Advanced(idx) => idx < |online| && s' == s.At(t, Returned(online[idx].name)).(mutex := None)
       case Returned(_) => s' == s.At(t, Ready)  // the caller picks again
  }

  /** A caller that nobody disturbs takes four steps to the result of RoundRobin.Pick. */
  lemma UndisturbedPick(online: seq<Host>, s: State, t: nat) returns (s1: State, s2: State, s3: State, s4: State)
    requires online != [] && s.mutex == None && t in s.callers && s.callers[t] == Ready
    ensures Step(online, s, t, s1) && Step(online, s1, t, s2) && Step(online, s2, t, s3) && Step(online, s3, t, s4)
    ensures s4.callers[t] == Returned(PickAt(online, s.counter)) && s4.counter == s.counter + 1 && s4.mutex == None
  {
    var idx := s.counter % |online|;
    s1 := s.At(t, Locked).(mutex := Some(t));
    s2 := s1.At(t, Read(idx)).(picks := s.picks + [Pick(t, online[idx].name)]);
    s3 := s2.At(t, Advanced(idx)).(counter := s.counter + 1);
    s4 := s3.At(t, Returned(online[idx].name)).(mutex := None);
  }

  predicate Init(s: State, start: nat) {
    && s.counter == start && s.mutex == None && s.picks == []
    && forall t :: t in s.callers ==> s.callers[t] == Ready
  }

  predicate Interleaving(online: seq<Host>, start: nat, states: seq<State>, movers: seq<nat>)
    requires online != []
  {
    && |states| == |movers| + 1 && Init(states[0], start)
    && forall i :: 0 <= i < |movers| ==> Step(online, states[i], movers[i], states[i + 1])
  }

  predicate Busy(p: Phase) {
    p.Locked? || p.Read? || p.Advanced?
  }

  // The counter is ahead of the picks by none, unless a caller has chosen and not yet advanced it.
  predicate InStep(s: State, start: nat) {
    start + |s.picks| == s.counter + if s.mutex.Some? && s.mutex.value in s.callers && s.callers[s.mutex.value].Read? then 1 else 0
  }

  predicate Exclusive(s: State) {
    && (forall t :: t in s.callers ==> (Busy(s.callers[t]) <==> s.mutex == Some(t)))
    && (s.mutex.Some? ==> s.mutex.value in s.callers)
  }

  predicate Consecutive(online: seq<Host>, s: State, start: nat)
    requires online != []
  {
    forall i :: 0 <= i < |s.picks| ==> s.picks[i].host == PickAt(online, start + i)
  }

  // What a caller holds or has returned is the host of its own latest pick.
  predicate Own(online: seq<Host>, t: nat, p: Phase, picks: seq<Pick>)
    requires online != []
  {
    match p
    case Read(idx) => idx < |online| && Latest(picks, t) == Some(online[idx].name)
    case Advanced(idx) => idx < |online| && Latest(picks, t) == Some(online[idx].name)
    case Returned(host) => Latest(picks, t) == Some(host)
    case _ => true
  }

  function Latest(picks: seq<Pick>, t: nat): Option<string> {
    if picks == [] then None
    else
      var last := |picks| - 1;
      if picks[last].caller == t then Some(picks[last].host) else Latest(picks[..last], t)
  }

  predicate AllOwn(online: seq<Host>, s: State)
    requires online != []
  {
    forall t :: t in s.callers ==> Own(online, t, s.callers[t], s.picks)
  }

  lemma StepKeepsOrder(online: seq<Host>, s: State, t: nat, s': State, start: nat)
    requires online != [] && Step(online, s, t, s')
    requires Exclusive(s) && InStep(s, start) && Consecutive(online, s, start)
    ensures Exclusive(s') && InStep(s', start) && Consecutive(online, s', start)
  {
  }

  lemma StepKeepsOwn(online: seq<Host>, s: State, t: nat, s': State)
    requires online != [] && Step(online, s, t, s') && AllOwn(online, s)
    ensures AllOwn(online, s')
  {
    assert Own(online, t, s.callers[t], s.picks);
    if s.callers[t].Locked? {
      assert s'.picks[..|s'.picks| - 1] == s.picks;
    }
  }

  lemma {:induction false} AlwaysInStep(online: seq<Host>, start: nat, states: seq<State>, movers: seq<nat>, k: nat)
    requires online != [] && Interleaving(online, start, states, movers) && k <= |movers|
    ensures Exclusive(states[k]) && InStep(states[k], start) && Consecutive(online, states[k], start)
    ensures AllOwn(online, states[k])
  {
    if k == 0 {
    } else {
      AlwaysInStep(online, start, states, movers, k - 1);
      assert Step(online, states[k - 1], movers[k - 1], states[k - 1 + 1]);
      StepKeepsOrder(online, states[k - 1], movers[k - 1], states[k], start);
      StepKeepsOwn(online, states[k - 1], movers[k - 1], states[k]);
    }
  }

  function Times(picks: seq<Pick>, host: string): nat {
    if picks == [] then 0
    else Times(picks[..|picks| - 1], host) + if picks[|picks| - 1].host == host then 1 else 0
  }

  lemma {:induction false} WindowIsPicked(online: seq<Host>, picks: seq<Pick>, from: nat, host: string)
    requires online != [] && forall i :: 0 <= i < |picks| ==> picks[i].host == PickAt(online, from + i)
    ensures Times(picks, host) == Picked(online, host, from, |picks|)
  {
    if picks == [] {
    } else {
      WindowIsPicked(online, picks[..|picks| - 1], from, host);
    }
  }

  /** In every interleaving of callers, and from every starting counter, any window of n consecutive picks over m distinct
      hosts takes each host floor(n/m) or ceil(n/m) times. */
  lemma FairInAnyInterleaving(online: seq<Host>, start: nat, states: seq<State>, movers: seq<nat>, k: nat, from: nat,
                              n: nat, j: nat)
    requires online != [] && Interleaving(online, start, states, movers) && k <= |movers|
    requires from + n <= |states[k].picks| && j < |online| && DistinctHosts(online)
    ensures var m := |online|;
            n / m <= Times(states[k].picks[from..from + n], online[j].name) <= (n + m - 1) / m
  {
    AlwaysInStep(online, start, states, movers, k);
    var window := states[k].picks[from..from + n];
    forall i | 0 <= i < n ensures window[i].host == PickAt(online, start + from + i) {
      assert window[i] == states[k].picks[from + i];
    }
    WindowIsPicked(online, window, start + from, online[j].name);
    Fairness(online, j, start + from, n);
  }

  /** The host a caller gets is that of its own latest pick, whatever the others did in between. */
  lemma OwnPickReturned(online: seq<Host>, start: nat, states: seq<State>, movers: seq<nat>, k: nat, t: nat)
    requires online != [] && Interleaving(online, start, states, movers) && k <= |movers|
    requires t in states[k].callers && states[k].callers[t].Returned?
    ensures Latest(states[k].picks, t) == Some(states[k].callers[t].host)
  {
    AlwaysInStep(online, start, states, movers, k);
    assert Own(online, t, states[k].callers[t], states[k].picks);
  }
}
