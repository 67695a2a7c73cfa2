/** Round-robin placement (internal/adapter/proxmox/placement/placement.go). */
module Placement {
  import opened Wrappers
  import Modular

  datatype Host = Host(name: string, status: string)

  predicate Usable(h: Host, exclude: seq<string>) {
    h.status == "online" && h.name !in exclude
  }

  // The usable hosts, in listing order.
  function Eligible(hosts: seq<Host>, exclude: seq<string>): seq<Host> {
    if hosts == [] then []
    else
      var rest := Eligible(hosts[..|hosts| - 1], exclude);
      var h := hosts[|hosts| - 1];
      if Usable(h, exclude) then rest + [h] else rest
  }

  lemma {:induction false} EligibleIff(hosts: seq<Host>, exclude: seq<string>, h: Host)
    ensures h in Eligible(hosts, exclude) <==> h in hosts && h.status == "online" && h.name !in exclude
  {
    if hosts == [] {
    } else {
      EligibleIff(hosts[..|hosts| - 1], exclude, h);
      assert hosts == hosts[..|hosts| - 1] + [hosts[|hosts| - 1]];
    }
  }

  // Where an eligible host stands in the listing.
  function PlaceOf(hosts: seq<Host>, exclude: seq<string>, i: nat): (k: nat)
    requires i < |Eligible(hosts, exclude)|
    ensures k < |hosts| && hosts[k] == Eligible(hosts, exclude)[i]
  {
    var last := |hosts| - 1;
    if i < |Eligible(hosts[..last], exclude)| then PlaceOf(hosts[..last], exclude, i) else last
  }

  /** The eligible hosts stand in listing order. */
  lemma {:induction false} EligibleInOrder(hosts: seq<Host>, exclude: seq<string>, i: nat, j: nat)
    requires i < j < |Eligible(hosts, exclude)|
    ensures PlaceOf(hosts, exclude, i) < PlaceOf(hosts, exclude, j)
  {
    var last := |hosts| - 1;
    if j < |Eligible(hosts[..last], exclude)| {
      EligibleInOrder(hosts[..last], exclude, i, j);
    }
  }

  /** Each usable host is eligible as often as it is listed, the others not at all. */
  lemma {:induction false} EligibleOnceEach(hosts: seq<Host>, exclude: seq<string>, h: Host)
    ensures multiset(Eligible(hosts, exclude))[h] ==
            if h.status == "online" && h.name !in exclude then multiset(hosts)[h] else 0
  {
    if hosts == [] {
    } else {
      var last := |hosts| - 1;
      EligibleOnceEach(hosts[..last], exclude, h);
      assert hosts == hosts[..last] + [hosts[last]];
    }
  }

  method FilterOnline(hosts: seq<Host>, exclude: seq<string>) returns (out: seq<Host>)
    ensures out == Eligible(hosts, exclude)
  {
    var excl: map<string, bool> := map[];
    for i := 0 to |exclude|
      invariant forall e :: e in excl <==> e in exclude[..i]
      invariant forall e :: e in excl ==> excl[e]
    {
      excl := excl[exclude[i] := true];
    }
    out := [];
    for i := 0 to |hosts|
      invariant out == Eligible(hosts[..i], exclude)
    {
      assert hosts[..i + 1][..i] == hosts[..i];
      var n := hosts[i];
      if n.status == "online" && !(n.name in excl && excl[n.name]) {
        out := out + [n];
      }
    }
    assert hosts[..|hosts|] == hosts;
  }

  /** The host a pick takes when the counter stands at c. */
  function PickAt(online: seq<Host>, c: nat): string
    requires online != []
  {
    online[c % |online|].name
  }

  class RoundRobin {
    var counter: nat

    constructor ()
      ensures counter == 0
    {
      counter := 0;
    }

    // Reading and advancing the counter happens under the mutex, so picks take consecutive counter values.
    method Pick(hosts: seq<Host>, exclude: seq<string>) returns (r: Option<string>)
      modifies this
      ensures var online := Eligible(hosts, exclude);
              if online == [] then r == None && counter == old(counter)
              else r == Some(PickAt(online, old(counter))) && counter == old(counter) + 1
    {
      var online := FilterOnline(hosts, exclude);
      if |online| == 0 {
        return None;
      }
      var idx := counter % |online|;
      counter := counter + 1;
      return Some(online[idx].name);
    }
  }

  /** Every pick is a listed host that is online and not excluded. */
  lemma PickIsUsable(hosts: seq<Host>, exclude: seq<string>, c: nat)
    requires Eligible(hosts, exclude) != []
    ensures exists h :: h in hosts && h.status == "online" && h.name !in exclude && h.name == PickAt(Eligible(hosts, exclude), c)
  {
    var online := Eligible(hosts, exclude);
    var h := online[c % |online|];
    assert h in online;
    EligibleIff(hosts, exclude, h);
  }

  /** Picks go round the eligible hosts in order, beginning with the first. */
  lemma PicksGoRound(online: seq<Host>, c: nat)
    requires c < |online|
    ensures PickAt(online, c) == online[c].name
    ensures forall rounds: nat :: PickAt(online, c + rounds * |online|) == online[c].name
  {
    forall rounds: nat ensures (c + rounds * |online|) % |online| == c {
      Modular.ModUnique(c + rounds * |online|, |online|, rounds, c);
    }
    assert c % |online| == c by { Modular.ModUnique(c, |online|, 0, c); }
  }

  // --- fairness over a window of consecutive picks ---

  // How many of the n picks from counter c on take a given host. Whichever caller makes a pick, the picks of a
  // window are those of n consecutive counter values.
  function Picked(online: seq<Host>, host: string, c: nat, n: nat): nat
    requires online != []
  {
    if n == 0 then 0
    else Picked(online, host, c, n - 1) + if PickAt(online, c + n - 1) == host then 1 else 0
  }

  predicate DistinctHosts(online: seq<Host>) {
    forall i, j :: 0 <= i < j < |online| ==> online[i].name != online[j].name
  }

  // How many numbers below x leave the residue j modulo m.
  function Before(x: nat, m: nat, j: nat): nat
    requires j < m
  {
    (x + (m - 1 - j)) / m
  }

  // Where a shifted number stands: with quotient q, or with q + 1 once the shift carries it over.
  lemma Shifted(x: nat, m: nat, shift: nat)
    requires m > 0 && shift <= m
    ensures (x + shift) / m == x / m + if x % m + shift < m then 0 else 1
  {
    var q, r := x / m, x % m;
    Modular.DivMod(x, m);
    if r + shift < m {
      Modular.ModUnique(x + shift, m, q, r + shift);
    } else {
      assert (q + 1) * m == q * m + m;
      Modular.ModUnique(x + shift, m, q + 1, r + shift - m);
    }
  }

  // The shifts of x and of x + 1 differ exactly if x leaves the residue j.
  lemma BeforeStep(x: nat, m: nat, j: nat)
    requires j < m
    ensures Before(x + 1, m, j) == Before(x, m, j) + if x % m == j then 1 else 0
  {
    Shifted(x, m, m - 1 - j);
    Shifted(x, m, m - j);
    assert x + 1 + (m - 1 - j) == x + (m - j);
  }

  lemma {:induction false} PickedClosedForm(online: seq<Host>, j: nat, c: nat, n: nat)
    requires j < |online| && DistinctHosts(online)
    ensures Picked(online, online[j].name, c, n) == Before(c + n, |online|, j) - Before(c, |online|, j)
  {
    if n == 0 {
    } else {
      PickedClosedForm(online, j, c, n - 1);
      BeforeStep(c + n - 1, |online|, j);
      var k := (c + n - 1) % |online|;
      assert online[k].name == online[j].name <==> k == j;
    }
  }

  /** In any window of n picks over m distinct hosts, from any counter, each host is taken floor(n/m) or ceil(n/m)
      times. */
  lemma Fairness(online: seq<Host>, j: nat, c: nat, n: nat)
    requires j < |online| && DistinctHosts(online)
    ensures var m := |online|;
            n / m <= Picked(online, online[j].name, c, n) <= (n + m - 1) / m
  {
    PickedClosedForm(online, j, c, n);
    BeforeSpread(c, n, |online|, j);
  }

  /** The same from the listing: if its host names are distinct, each usable host is picked floor(n/m) or ceil(n/m) times, m
      being the number of usable hosts. */
  lemma FairnessOfHosts(hosts: seq<Host>, exclude: seq<string>, h: Host, c: nat, n: nat)
    requires DistinctHosts(hosts) && h in hosts && h.status == "online" && h.name !in exclude
    ensures var online := Eligible(hosts, exclude);
            online != [] && n / |online| <= Picked(online, h.name, c, n) <= (n + |online| - 1) / |online|
  {
    var online := Eligible(hosts, exclude);
    EligibleIff(hosts, exclude, h);
    EligibleDistinct(hosts, exclude);
    var j :| 0 <= j < |online| && online[j] == h;
    Fairness(online, j, c, n);
  }

  lemma EligibleDistinct(hosts: seq<Host>, exclude: seq<string>)
    requires DistinctHosts(hosts)
    ensures DistinctHosts(Eligible(hosts, exclude))
  {
    var online := Eligible(hosts, exclude);
    forall i, j | 0 <= i < j < |online| ensures online[i].name != online[j].name {
      EligibleInOrder(hosts, exclude, i, j);
    }
  }

  lemma BeforeSpread(c: nat, n: nat, m: nat, j: nat)
    requires j < m
    ensures n / m <= Before(c + n, m, j) - Before(c, m, j) <= (n + m - 1) / m
  {
    var a := c + (m - 1 - j);
    Spread(a, n, m);
    assert c + n + (m - 1 - j) == a + n;
  }

  // A shift by n moves a quotient by n / m, rounded down or up.
  lemma Spread(a: nat, n: nat, m: nat)
    requires m > 0
    ensures n / m <= (a + n) / m - a / m <= (n + m - 1) / m
  {
    Modular.DivMod(a, m);
    Modular.DivMod(n, m);
    var r := a % m + n % m;
    var q := a / m + n / m;
    assert q * m == (a / m) * m + (n / m) * m;
    assert (q + 1) * m == q * m + m;
    if r < m {
      Modular.ModUnique(a + n, m, q, r);
    } else {
      Modular.ModUnique(a + n, m, q + 1, r - m);
    }
    RoundUp(n, m);
  }

  lemma RoundUp(n: nat, m: nat)
    requires m > 0
    ensures (n + m - 1) / m == n / m + if n % m == 0 then 0 else 1
  {
    Modular.DivMod(n, m);
    assert (n / m + 1) * m == (n / m) * m + m;
    if n % m == 0 {
      Modular.ModUnique(n + m - 1, m, n / m, m - 1);
    } else {
      Modular.ModUnique(n + m - 1, m, n / m + 1, n % m - 1);
    }
  }
}
