/** The per-host clone semaphore of provider.go under concurrent CreateNode calls, as a step system. */
module CloneSemaphore {
  import opened Collections
  import opened Wrappers

  const MAX_CLONES := 2

  // The calls made while the slot is held: clone, configure, resize, start and their waits.
  const CALLS := 8

  /** Where a CreateNode call stands. */
  datatype Phase =
    | Begin(host: string)                     // before cloneSemaphore
    | Locking(host: string)                   // entering cloneSemaphore, waiting for the mutex
    | Locked(host: string)                    // inside cloneSemaphore, holding the mutex
    | Chosen(host: string, ch: nat)           // still holding it, the channel looked up or made
    | Waiting(host: string, ch: nat)          // about to send on the channel
    | Inside(host: string, ch: nat, left: nat)
    | Leaving(host: string, ch: nat)          // about to receive from the channel, in the deferred function
    | Done

  datatype State = State(cloneSem: map<string, nat>, occupied: map<nat, nat>, mutex: Option<nat>, threads: map<nat, Phase>) {
    function At(t: nat, p: Phase): State {
      this.(threads := threads[t := p])
    }
  }

  // A lookup: the host's channel, or a new one that does not exist yet.
  predicate LookUp(s: State, host: string, ch: nat, s': State) {
    if host in s.cloneSem then ch == s.cloneSem[host] && s' == s
    else ch !in s.occupied && s' == s.(cloneSem := s.cloneSem[host := ch], occupied := s.occupied[ch := 0])
  }

  // One step of thread t, with the channel it looks up where it looks one up.
  predicate StepWith(s: State, t: nat, s': State, found: State, chan: nat) {
    && t in s.threads
    && match s.threads[t]
       case Begin(h) =>
         || s' == s.At(t, Done)  // a call before the semaphore fails
         || s' == s.At(t, Locking(h))
       case Locking(h) => s.mutex == None && s' == s.At(t, Locked(h)).(mutex := Some(t))
       case Locked(h) => LookUp(s, h, chan, found) && s' == found.At(t, Chosen(h, chan))
       case Chosen(h, ch) => s' == s.At(t, Waiting(h, ch)).(mutex := None)
       case Waiting(h, ch) =>
         && ch in s.occupied && s.occupied[ch] < MAX_CLONES
         && s' == s.At(t, Inside(h, ch, CALLS)).(occupied := s.occupied[ch := s.occupied[ch] + 1])
       case Inside(h, ch, left) =>
         || s' == s                        // a wait polls, and the task is still running
         || s' == s.At(t, Leaving(h, ch))  // a call fails, if one is left
         || (left > 0 && s' == s.At(t, Inside(h, ch, left - 1)))
       case Leaving(h, ch) =>
         && ch in s.occupied && s.occupied[ch] > 0
         && s' == s.At(t, Done).(occupied := s.occupied[ch := s.occupied[ch] - 1])
       case Done => false
  }

  ghost predicate Step(s: State, t: nat, s': State) {
    exists found: State, chan: nat :: StepWith(s, t, s', found, chan)
  }

  ghost predicate Init(s: State) {
    && s.cloneSem == map[] && s.occupied == map[] && s.mutex == None
    && forall t :: t in s.threads ==> s.threads[t].Begin?
  }

  ghost predicate Interleaving(states: seq<State>, movers: seq<nat>) {
    && |states| == |movers| + 1 && Init(states[0])
    && forall i :: 0 <= i < |movers| ==> Step(states[i], movers[i], states[i + 1])
  }

  // --- the invariant ---

  predicate Holds(p: Phase, ch: nat) {
    (p.Inside? || p.Leaving?) && p.ch == ch
  }

  predicate HasChannel(p: Phase) {
    p.Chosen? || p.Waiting? || p.Inside? || p.Leaving?
  }

  ghost function Holders(s: State, ch: nat): set<nat> {
    set t | t in s.threads && Holds(s.threads[t], ch)
  }

  // The mutex belongs to the thread inside cloneSemaphore.
  predicate Exclusive(s: State) {
    && (forall t :: t in s.threads ==> (s.threads[t].Locked? || s.threads[t].Chosen? <==> s.mutex == Some(t)))
    && (s.mutex.Some? ==> s.mutex.value in s.threads)
  }

  // Hosts have different channels.
  predicate Channels(s: State) {
    && (forall h :: h in s.cloneSem ==> s.cloneSem[h] in s.occupied)
    && (forall h, g :: h in s.cloneSem && g in s.cloneSem && s.cloneSem[h] == s.cloneSem[g] ==> h == g)
  }

  // A thread uses the channel of its host.
  predicate Located(cloneSem: map<string, nat>, p: Phase) {
    HasChannel(p) ==> p.host in cloneSem && cloneSem[p.host] == p.ch
  }

  predicate AllLocated(s: State) {
    forall t :: t in s.threads ==> Located(s.cloneSem, s.threads[t])
  }

  ghost predicate Counted(s: State) {
    forall ch :: ch in s.occupied ==> s.occupied[ch] == |Holders(s, ch)| <= MAX_CLONES
  }

  ghost predicate Inv(s: State) {
    Exclusive(s) && Channels(s) && AllLocated(s) && Counted(s)
  }

  // The holders of a channel, thread by thread.
  lemma HoldersSplit(s: State, t: nat, ch: nat)
    requires t in s.threads
    ensures var others := Holders(s, ch) - {t};
            |Holders(s, ch)| == |others| + if Holds(s.threads[t], ch) then 1 else 0
  {
    var others := Holders(s, ch) - {t};
    if Holds(s.threads[t], ch) {
      assert Holders(s, ch) == others + {t};
    } else {
      assert Holders(s, ch) == others;
    }
  }

  lemma OthersStay(s: State, t: nat, p: Phase, ch: nat)
    requires t in s.threads
    ensures Holders(s, ch) - {t} == Holders(s.At(t, p), ch) - {t}
  {
  }

  // Moving one thread changes the holders of a channel by that thread at most.
  lemma HoldersMove(s: State, t: nat, p: Phase, ch: nat)
    requires t in s.threads
    ensures |Holders(s.At(t, p), ch)| ==
            |Holders(s, ch)| + (if Holds(p, ch) then 1 else 0) - (if Holds(s.threads[t], ch) then 1 else 0)
  {
    OthersStay(s, t, p, ch);
    HoldersSplit(s, t, ch);
    HoldersSplit(s.At(t, p), t, ch);
  }

  lemma HoldersKept(s: State, s': State, ch: nat)
    requires s.threads == s'.threads
    ensures Holders(s, ch) == Holders(s', ch)
  {
  }

  // The counting part of the invariant, for a step that turns the channel table into that of s'.
  lemma CountsKept(s: State, t: nat, p: Phase, s': State)
    requires Counted(s) && t in s.threads && s'.threads == s.threads[t := p]
    requires forall ch :: ch in s'.occupied && ch in s.occupied ==>
               s'.occupied[ch] == s.occupied[ch] + (if Holds(p, ch) then 1 else 0)
                                   - (if Holds(s.threads[t], ch) then 1 else 0) <= MAX_CLONES
    requires forall ch :: ch in s'.occupied && ch !in s.occupied ==> s'.occupied[ch] == 0 && Holders(s', ch) == {}
    ensures Counted(s')
  {
    forall ch | ch in s'.occupied ensures s'.occupied[ch] == |Holders(s', ch)| <= MAX_CLONES {
      HoldersMove(s, t, p, ch);
      HoldersKept(s.At(t, p), s', ch);
    }
  }

  lemma StepKeepsMutex(s: State, t: nat, s': State, found: State, chan: nat)
    requires Exclusive(s) && StepWith(s, t, s', found, chan)
    ensures Exclusive(s')
  {
  }

  lemma StepKeepsLocated(s: State, t: nat, s': State, found: State, chan: nat)
    requires Channels(s) && AllLocated(s) && StepWith(s, t, s', found, chan)
    ensures Channels(s') && AllLocated(s')
  {
    assert Located(s.cloneSem, s.threads[t]);
  }

  // A lookup changes no count: a new channel has no holder.
  lemma LookUpKeepsCounts(s: State, t: nat, h: string, chan: nat, found: State, s': State)
    requires Channels(s) && AllLocated(s) && Counted(s)
    requires t in s.threads && s.threads[t] == Locked(h)
    requires LookUp(s, h, chan, found) && s' == found.At(t, Chosen(h, chan))
    ensures Counted(s')
  {
    if h !in s.cloneSem {
      forall u | u in s'.threads ensures !Holds(s'.threads[u], chan) {
        assert u != t ==> Located(s.cloneSem, s.threads[u]);
      }
      assert Holders(s', chan) == {};
    }
    CountsKept(s, t, Chosen(h, chan), s');
  }

  lemma StepKeepsCounts(s: State, t: nat, s': State, found: State, chan: nat)
    requires Channels(s) && AllLocated(s) && Counted(s) && StepWith(s, t, s', found, chan)
    ensures Counted(s')
  {
    if s.threads[t].Locked? {
      LookUpKeepsCounts(s, t, s.threads[t].host, chan, found, s');
    } else {
      CountsKept(s, t, s'.threads[t], s');
    }
  }

  lemma StepKeepsInv(s: State, t: nat, s': State)
    requires Inv(s) && Step(s, t, s')
    ensures Inv(s')
  {
    var found: State, chan: nat :| StepWith(s, t, s', found, chan);
    StepKeepsMutex(s, t, s', found, chan);
    StepKeepsLocated(s, t, s', found, chan);
    StepKeepsCounts(s, t, s', found, chan);
  }

  lemma {:induction false} AlwaysInv(states: seq<State>, movers: seq<nat>, k: nat)
    requires Interleaving(states, movers) && k <= |movers|
    ensures Inv(states[k])
  {
    if k == 0 {
    } else {
      AlwaysInv(states, movers, k - 1);
      assert Step(states[k - 1], movers[k - 1], states[k - 1 + 1]);
      StepKeepsInv(states[k - 1], movers[k - 1], states[k]);
    }
  }

  // --- what the semaphore promises ---

  ghost function InSection(s: State, host: string): set<nat> {
    set t | t in s.threads && (s.threads[t].Inside? || s.threads[t].Leaving?) && s.threads[t].host == host
  }

  /** In every interleaving, a host's semaphore counts the threads inside the section for that host, and there are
      never more than two; without a semaphore there is none. */
  lemma AtMostTwo(states: seq<State>, movers: seq<nat>, k: nat, host: string)
    requires Interleaving(states, movers) && k <= |movers|
    ensures |InSection(states[k], host)| <= 2
    ensures var s := states[k];
            if host in s.cloneSem then s.cloneSem[host] in s.occupied && s.occupied[s.cloneSem[host]] == |InSection(s, host)|
            else InSection(s, host) == {}
  {
    AlwaysInv(states, movers, k);
    var s := states[k];
    if host in s.cloneSem {
      assert InSection(s, host) == Holders(s, s.cloneSem[host]);
    }
  }

  lemma StepKeepsChannels(s: State, t: nat, s': State)
    requires Step(s, t, s')
    ensures forall h :: h in s.cloneSem ==> h in s'.cloneSem && s'.cloneSem[h] == s.cloneSem[h]
  {
  }

  /** A host keeps its channel for ever. */
  lemma {:induction false} OneChannelForEver(states: seq<State>, movers: seq<nat>, i: nat, k: nat, host: string)
    requires Interleaving(states, movers) && i <= k <= |movers| && host in states[i].cloneSem
    ensures host in states[k].cloneSem && states[k].cloneSem[host] == states[i].cloneSem[host]
    decreases k - i
  {
    if i >= k {
    } else {
      assert Step(states[i], movers[i], states[i + 1]);
      StepKeepsChannels(states[i], movers[i], states[i + 1]);
      OneChannelForEver(states, movers, i + 1, k, host);
    }
  }

  // A call of the thread fails.
  predicate Fails(before: Phase, after: Phase) {
    || (before.Begin? && after.Done?)
    || (before.Inside? && before.left > 0 && after.Leaving?)
  }

  /** The thread can get on. Polling once more does not count, nor does a call that fails. */
  ghost predicate CanMove(s: State, t: nat) {
    exists s': State :: Step(s, t, s') && s' != s && t in s.threads && t in s'.threads && !Fails(s.threads[t], s'.threads[t])
  }

  lemma Moves(s: State, t: nat, s': State, found: State, chan: nat)
    requires StepWith(s, t, s', found, chan) && s'.threads[t] != s.threads[t] && !Fails(s.threads[t], s'.threads[t])
    ensures CanMove(s, t)
  {
    assert Step(s, t, s');
  }

  // The holder of the mutex, and any thread inside the section, can move.
  lemma BusyThreadMoves(s: State, t: nat)
    requires Inv(s) && t in s.threads
    requires s.threads[t].Locked? || s.threads[t].Chosen? || s.threads[t].Inside? || s.threads[t].Leaving?
    ensures CanMove(s, t)
  {
    match s.threads[t]
    case Locked(h) =>
      if h in s.cloneSem {
        Moves(s, t, s.At(t, Chosen(h, s.cloneSem[h])), s, s.cloneSem[h]);
      } else {
        var ch := UpperBound(s.occupied.Keys);
        assert ch !in s.occupied;
        var found := s.(cloneSem := s.cloneSem[h := ch], occupied := s.occupied[ch := 0]);
        Moves(s, t, found.At(t, Chosen(h, ch)), found, ch);
      }
    case Chosen(h, ch) =>
      Moves(s, t, s.At(t, Waiting(h, ch)).(mutex := None), s, 0);
    case Inside(h, ch, left) =>
      Moves(s, t, s.At(t, if left > 0 then Inside(h, ch, left - 1) else Leaving(h, ch)), s, 0);
    case Leaving(h, ch) =>
      assert t in Holders(s, ch);
      Moves(s, t, s.At(t, Done).(occupied := s.occupied[ch := s.occupied[ch] - 1]), s, 0);
  }

  /** As long as some call has not returned, some call can get on, without failing: no interleaving deadlocks. A thread that
      waits for the mutex has its holder to wait for, one that waits for a slot the threads inside. */
  lemma NoDeadlock(states: seq<State>, movers: seq<nat>, k: nat, t: nat) returns (mover: nat)
    requires Interleaving(states, movers) && k <= |movers|
    requires t in states[k].threads && states[k].threads[t] != Done
    ensures CanMove(states[k], mover)
  {
    AlwaysInv(states, movers, k);
    var s := states[k];
    mover := t;
    match s.threads[t]
    case Begin(h) =>
      Moves(s, t, s.At(t, Locking(h)), s, 0);
    case Locking(h) =>
      if s.mutex == None {
        Moves(s, t, s.At(t, Locked(h)).(mutex := Some(t)), s, 0);
      } else {
        mover := s.mutex.value;
        BusyThreadMoves(s, mover);
      }
    case Waiting(h, ch) =>
      if s.occupied[ch] < MAX_CLONES {
        Moves(s, t, s.At(t, Inside(h, ch, CALLS)).(occupied := s.occupied[ch := s.occupied[ch] + 1]), s, 0);
      } else {
        mover :| mover in Holders(s, ch);
        BusyThreadMoves(s, mover);
      }
    case _ => BusyThreadMoves(s, t);
  }

  // How many steps a call still has in front of it, at most, not counting polls.
  function Rank(p: Phase): nat {
    match p
    case Begin(_) => CALLS + 7
    case Locking(_) => CALLS + 6
    case Locked(_) => CALLS + 5
    case Chosen(_, _) => CALLS + 4
    case Waiting(_, _) => CALLS + 3
    case Inside(_, _, left) => left + 2
    case Leaving(_, _) => 1
    case Done => 0
  }

  function TotalRank(threads: map<nat, Phase>, n: nat): nat {
    if n == 0 then 0 else TotalRank(threads, n - 1) + if n - 1 in threads then Rank(threads[n - 1]) else 0
  }

  predicate Ranked(s: State) {
    forall u :: u in s.threads && s.threads[u].Inside? ==> s.threads[u].left <= CALLS
  }

  // A step that is no poll moves one thread, and to a lower rank.
  lemma StepLowers(s: State, t: nat, s': State)
    requires Step(s, t, s') && Ranked(s) && s' != s
    ensures t in s.threads && t in s'.threads && s'.threads == s.threads[t := s'.threads[t]]
    ensures Rank(s'.threads[t]) < Rank(s.threads[t])
    ensures s'.threads[t].Inside? ==> s'.threads[t].left <= CALLS
  {
  }

  lemma {:induction false} RankDrops(threads: map<nat, Phase>, t: nat, p: Phase, n: nat)
    requires t in threads && Rank(p) < Rank(threads[t])
    ensures TotalRank(threads[t := p], n) <= TotalRank(threads, n) - (if t < n then 1 else 0)
  {
    if n == 0 {
    } else {
      RankDrops(threads, t, p, n - 1);
    }
  }

  // How many of the first k steps were polls that found the task still running.
  function Polls(states: seq<State>, k: nat): nat
    requires k < |states|
  {
    if k == 0 then 0 else Polls(states, k - 1) + if states[k] == states[k - 1] then 1 else 0
  }

  /** An interleaving of calls numbered below n has, besides its polls, at most as many steps as the initial ranks: it can
      go on for ever only if some wait does. */
  lemma {:induction false} AlwaysFinite(states: seq<State>, movers: seq<nat>, n: nat, k: nat)
    requires Interleaving(states, movers) && k <= |movers|
    requires forall t :: t in states[0].threads ==> t < n
    ensures k + TotalRank(states[k].threads, n) <= TotalRank(states[0].threads, n) + Polls(states, k)
    ensures states[k].threads.Keys == states[0].threads.Keys && Ranked(states[k])
  {
    if k == 0 {
    } else {
      AlwaysFinite(states, movers, n, k - 1);
      assert Step(states[k - 1], movers[k - 1], states[k - 1 + 1]);
      var s, t, s' := states[k - 1], movers[k - 1], states[k];
      if s' != s {
        StepLowers(s, t, s');
        assert t in states[0].threads.Keys;
        RankDrops(s.threads, t, s'.threads[t], n);
      }
    }
  }

  /** An interleaving in which no call can get on has returned from every call, on whatever path, and has given every slot
      back. With AlwaysFinite: every run in which each wait ends gets there. */
  lemma Finished(states: seq<State>, movers: seq<nat>)
    requires Interleaving(states, movers)
    requires forall t :: !CanMove(states[|movers|], t)
    ensures var last := states[|movers|];
            && (forall t :: t in last.threads ==> last.threads[t] == Done)
            && (forall ch :: ch in last.occupied ==> last.occupied[ch] == 0)
  {
    var last := states[|movers|];
    forall t | t in last.threads ensures last.threads[t] == Done {
      if last.threads[t] != Done {
        var mover := NoDeadlock(states, movers, |movers|, t);
      }
    }
    AlwaysInv(states, movers, |movers|);
    forall ch | ch in last.occupied ensures last.occupied[ch] == 0 {
      assert Holders(last, ch) == {};
    }
  }

  // --- the table itself ---

  /** The provider's table of semaphores. Each method is a step of the system; the thread t, the others and the mutex are
      the specification's. */
  class Table {
    var cloneSem: map<string, nat>
    var occupied: map<nat, nat>
    var made: nat  // channels made so far

    ghost predicate Valid()
      reads this
    {
      && (forall ch :: ch in occupied ==> ch < made)
      && (forall h :: h in cloneSem ==> cloneSem[h] in occupied)
    }

    // No slot is held.
    ghost predicate Idle()
      reads this
    {
      Valid() && forall ch :: ch in occupied ==> occupied[ch] == 0
    }

    ghost function View(mutex: Option<nat>, threads: map<nat, Phase>): State
      reads this
    {
      State(cloneSem, occupied, mutex, threads)
    }

    constructor ()
      ensures Idle() && cloneSem == map[] && occupied == map[]
    {
      cloneSem, occupied, made := map[], map[], 0;
    }

    // The whole method runs under the mutex.
    method CloneSemaphore(hostNode: string, ghost t: nat, ghost threads: map<nat, Phase>) returns (chan: nat)
      requires Valid() && t in threads && threads[t] == Locked(hostNode)
      modifies this
      ensures Valid() && (old(Idle()) ==> Idle())
      ensures Step(old(View(Some(t), threads)), t, View(Some(t), threads).At(t, Chosen(hostNode, chan)))
      ensures hostNode in cloneSem && cloneSem[hostNode] == chan
    {
      ghost var s := View(Some(t), threads);
      if hostNode !in cloneSem {
        cloneSem := cloneSem[hostNode := made];
        occupied := occupied[made := 0];
        made := made + 1;
      }
      chan := cloneSem[hostNode];
      ghost var found := View(Some(t), threads);
      assert StepWith(s, t, found.At(t, Chosen(hostNode, chan)), found, chan);
    }

    // Sending on the channel: without a free slot the caller is stuck for now.
    method Send(chan: nat, ghost host: string, ghost t: nat, ghost mutex: Option<nat>, ghost threads: map<nat, Phase>)
      returns (sent: bool)
      requires Valid() && chan in occupied && t in threads && threads[t] == Waiting(host, chan)
      modifies this`occupied
      ensures Valid() && sent == (old(occupied)[chan] < 2)
      ensures if sent then
                && occupied == old(occupied)[chan := old(occupied)[chan] + 1]
                && Step(old(View(mutex, threads)), t, View(mutex, threads).At(t, Inside(host, chan, CALLS)))
              else
                occupied == old(occupied) && !CanMove(View(mutex, threads), t)
    {
      ghost var s := View(mutex, threads);
      sent := occupied[chan] < MAX_CLONES;
      if sent {
        occupied := occupied[chan := occupied[chan] + 1];
        assert StepWith(s, t, View(mutex, threads).At(t, Inside(host, chan, CALLS)), s, 0);
      }
    }

    // The deferred receive.
    method Receive(chan: nat, ghost host: string, ghost t: nat, ghost mutex: Option<nat>, ghost threads: map<nat, Phase>)
      requires Valid() && chan in occupied && occupied[chan] > 0 && t in threads && threads[t] == Leaving(host, chan)
      modifies this`occupied
      ensures Valid() && occupied == old(occupied)[chan := old(occupied)[chan] - 1]
      ensures Step(old(View(mutex, threads)), t, View(mutex, threads).At(t, Done))
    {
      ghost var s := View(mutex, threads);
      occupied := occupied[chan := occupied[chan] - 1];
      assert StepWith(s, t, View(mutex, threads).At(t, Done), s, 0);
    }
  }
}
