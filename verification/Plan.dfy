/** Address planning for a cluster (planIPs in internal/usecase/create/create.go). */
module Plan {
  import opened Wrappers
  import opened Text
  import opened Addresses
  import opened Ipam
  import opened Domain

  datatype PlanError = Pool(error: PoolError) | Exhausted(range: string)

  type IPPlan = map<string, string>

  // The map m, extended by settings[from + i] for names[i]; later names override earlier ones.
  function Extend(m: IPPlan, names: seq<string>, settings: seq<string>, from: nat): IPPlan
    requires from + |names| <= |settings|
  {
    if names == [] then m
    else
      var last := |names| - 1;
      Extend(m, names[..last], settings, from)[names[last] := settings[from + last]]
  }

  function Assign(names: seq<string>, settings: seq<string>): IPPlan
    requires |names| <= |settings|
  {
    Extend(map[], names, settings, 0)
  }

  /** The plan for a cluster. It does not depend on the VMs that exist. */
  function PlanOf(codec: Codec, cluster: Cluster): Result<IPPlan, PlanError> {
    if cluster.network.mode == "dhcp" then Ok(map[])
    else
      match ParseRange(codec, cluster.network.range)
      case Err(e) => Err(Pool(e))
      case Ok((first, last)) =>
        var entries, names := Range(first, last), cluster.DesiredNames();
        if |entries| < |names| then Err(Exhausted(cluster.network.range))
        else Ok(Assign(names, SettingsFor(codec, cluster.network.cidr, cluster.network.gateway, entries)))
  }

  // The set of existing addresses that the source collects here is never read, so it is not built.
  method PlanIPs(codec: Codec, cluster: Cluster, existing: seq<Node>) returns (r: Result<IPPlan, PlanError>)
    ensures r == PlanOf(codec, cluster)
  {
    hide ReadsAs, NamesOf, Range, Assign, SettingsFor;
    if cluster.network.mode == "dhcp" {
      return Ok(map[]);
    }
    var parsed := ParsePool(codec, cluster.network.range);
    if parsed.Err? {
      return Err(Pool(parsed.error));
    }
    var alloc := new StaticAllocator(parsed.value, cluster.network.cidr, cluster.network.gateway);

    ghost var pools := cluster.Pools();
    var totalNeeded := cluster.masters.count;
    for k := 0 to |cluster.workers|
      modifies {}
      invariant totalNeeded == TotalCount(pools[..k + 1])
    {
      NamesTake(cluster.name, pools, k + 1);
      totalNeeded := totalNeeded + cluster.workers[k].count;
    }
    assert pools[..|cluster.workers| + 1] == pools;
    NamesLength(cluster.name, pools);

    var total := alloc.TotalIPs();
    if total < totalNeeded {
      return Err(Exhausted(cluster.network.range));
    }
    var plan := FillPlan(codec, cluster, alloc);
    return Ok(plan);
  }

  // The two loops that fill the plan. Each index asked for is below TotalIPs, so the error of IPConfigForIndex
  // does not arise.
  method FillPlan(codec: Codec, cluster: Cluster, alloc: StaticAllocator) returns (plan: IPPlan)
    requires alloc.pool.Valid() && |cluster.DesiredNames()| <= |alloc.Settings(codec)|
    ensures plan == Assign(cluster.DesiredNames(), alloc.Settings(codec))
  {
    hide NamesOf, Extend;
    ghost var pools, settings := cluster.Pools(), alloc.Settings(codec);
    var idx := 0;
    plan := map[];
    CoversNothing(cluster, settings);
    PoolFits(cluster, settings, 0, plan, idx);
    plan, idx := AddPool(codec, cluster.name, cluster.masters, alloc, plan, idx);
    for w := 0 to |cluster.workers|
      modifies {}
      invariant Covers(cluster, settings, w + 1, plan, idx)
    {
      PoolFits(cluster, settings, w + 1, plan, idx);
      plan, idx := AddPool(codec, cluster.name, cluster.workers[w], alloc, plan, idx);
    }
    assert pools[..|cluster.workers| + 1] == pools;
  }

  // The plan covers the names of the first k pools.
  ghost predicate Covers(cluster: Cluster, settings: seq<string>, k: nat, plan: IPPlan, idx: nat) {
    && k <= |cluster.Pools()| && idx == |NamesOf(cluster.name, cluster.Pools()[..k])| <= |settings|
    && plan == Assign(NamesOf(cluster.name, cluster.Pools()[..k]), settings)
  }

  lemma CoversNothing(cluster: Cluster, settings: seq<string>)
    ensures Covers(cluster, settings, 0, map[], 0)
  {
  }

  // There is room for one more pool, and adding its names covers it.
  lemma PoolFits(cluster: Cluster, settings: seq<string>, k: nat, plan: IPPlan, idx: nat)
    requires Covers(cluster, settings, k, plan, idx) && k < |cluster.Pools()| && |cluster.DesiredNames()| <= |settings|
    ensures var names := PoolNames(cluster.name, cluster.Pools()[k]);
            && idx + |names| <= |settings|
            && Covers(cluster, settings, k + 1, Extend(plan, names, settings, idx), idx + |names|)
  {
    hide PoolNames, NodeName;
    NamesTake(cluster.name, cluster.Pools(), k);
    NamesPrefix(cluster.name, cluster.Pools(), k + 1);
    ExtendConcat(map[], NamesOf(cluster.name, cluster.Pools()[..k]), PoolNames(cluster.name, cluster.Pools()[k]), settings, 0);
  }

  lemma {:induction false} ExtendConcat(m: IPPlan, a: seq<string>, b: seq<string>, settings: seq<string>, from: nat)
    requires from + |a| + |b| <= |settings|
    ensures Extend(m, a + b, settings, from) == Extend(Extend(m, a, settings, from), b, settings, from + |a|)
  {
    if b == [] {
      assert a + b == a;
    } else {
      var last := |b| - 1;
      ExtendConcat(m, a, b[..last], settings, from);
      assert (a + b)[..|a + b| - 1] == a + b[..last];
    }
  }

  // The inner loop, the same for the masters and for each worker pool.
  method AddPool(codec: Codec, clusterName: string, pool: NodePool, alloc: StaticAllocator, before: IPPlan, from: nat)
    returns (plan: IPPlan, idx: nat)
    requires alloc.pool.Valid() && from + pool.count <= |alloc.Settings(codec)|
    ensures idx == from + pool.count
    ensures plan == Extend(before, PoolNames(clusterName, pool), alloc.Settings(codec), from)
  {
    hide ReadsAs, NamesOf, IPConfig;
    ghost var names, settings := PoolNames(clusterName, pool), alloc.Settings(codec);
    plan, idx := before, from;
    for i := 0 to pool.count
      modifies {}
      invariant idx == from + i && plan == Extend(before, names[..i], settings, from)
    {
      var name := NodeName(clusterName, pool.name, i + 1);
      var ipCfg := alloc.IPConfigForIndex(codec, idx);
      ExtendNext(before, names, settings, from, i, name);
      plan := plan[name := ipCfg.value];
      idx := idx + 1;
    }
    assert names[..pool.count] == names;
  }

  lemma ExtendNext(m: IPPlan, names: seq<string>, settings: seq<string>, from: nat, i: nat, name: string)
    requires from + |names| <= |settings| && i < |names| && name == names[i]
    ensures Extend(m, names[..i + 1], settings, from) == Extend(m, names[..i], settings, from)[name := settings[from + i]]
  {
    assert names[..i + 1][..i] == names[..i];
  }

  // --- what a plan says ---

  lemma {:induction false} AssignKeys(names: seq<string>, settings: seq<string>, n: string)
    requires |names| <= |settings|
    ensures n in Assign(names, settings) <==> n in names
  {
    if names == [] {
    } else {
      var last := |names| - 1;
      AssignKeys(names[..last], settings, n);
      assert names == names[..last] + [names[last]];
    }
  }

  lemma {:induction false} AssignAt(names: seq<string>, settings: seq<string>, k: nat)
    requires k < |names| <= |settings| && Distinct(names)
    ensures names[k] in Assign(names, settings) && Assign(names, settings)[names[k]] == settings[k]
  {
    if k >= |names| - 1 {
    } else {
      AssignAt(names[..|names| - 1], settings, k);
    }
  }

  predicate Static(cluster: Cluster) {
    cluster.network.mode != "dhcp"
  }

  /** A static plan fails exactly on a malformed range or one with fewer addresses than nodes. */
  lemma PlanSucceedsIff(codec: Codec, cluster: Cluster)
    requires Static(cluster)
    ensures PlanOf(codec, cluster).Ok? <==>
            var range := ParseRange(codec, cluster.network.range);
            range.Ok? && TotalCount(cluster.Pools()) <= Distance(range.value.0, range.value.1) + 1
  {
    NamesLength(cluster.name, cluster.Pools());
    match ParseRange(codec, cluster.network.range)
    case Err(_) =>
    case Ok((first, last)) => RangeLength(first, last);
  }

  /** The address of position k of the desired names: start + k, within the range. */
  predicate AddressAt(codec: Codec, range: string, k: nat, a: Address) {
    match ParseRange(codec, range)
    case Err(_) => false
    case Ok((first, last)) => Value(a) == (Value(first) + k) % SPACE && k <= Distance(first, last)
  }

  // The setting that belongs to position k of the desired names.
  ghost predicate SettingAt(codec: Codec, network: Network, k: nat, setting: string) {
    exists a: Address :: setting == IPConfig(codec, network.cidr, network.gateway, a) && AddressAt(codec, network.range, k, a)
  }

  // Positions with the same address are the same.
  lemma AddressAtInjective(codec: Codec, range: string, j: nat, k: nat, a: Address)
    requires AddressAt(codec, range, j, a) && AddressAt(codec, range, k, a)
    ensures j == k
  {
    Modular.OffsetsDiffer(Value(ParseRange(codec, range).value.0), SPACE, j, k);
  }

  /** The keys of a plan are exactly the desired names. */
  lemma PlanKeys(codec: Codec, cluster: Cluster, n: string)
    requires Static(cluster) && PlanOf(codec, cluster).Ok?
    ensures n in PlanOf(codec, cluster).value <==> n in cluster.DesiredNames()
  {
    var (first, last) := ParseRange(codec, cluster.network.range).value;
    AssignKeys(cluster.DesiredNames(), SettingsFor(codec, cluster.network.cidr, cluster.network.gateway, Range(first, last)), n);
  }

  // Entry k of a range, as a setting.
  lemma EntrySetting(codec: Codec, network: Network, k: nat)
    requires ParseRange(codec, network.range).Ok?
    requires var (first, last) := ParseRange(codec, network.range).value; k < |Range(first, last)|
    ensures var (first, last) := ParseRange(codec, network.range).value;
            SettingAt(codec, network, k, SettingsFor(codec, network.cidr, network.gateway, Range(first, last))[k])
  {
    hide Range, Value, ParseRange, IPConfig;
    var (first, last) := ParseRange(codec, network.range).value;
    RangeLength(first, last);
    RangeAt(first, last, k);
    var a: Address := Range(first, last)[k];
    assert SettingsFor(codec, network.cidr, network.gateway, Range(first, last))[k]
        == IPConfig(codec, network.cidr, network.gateway, a);
  }

  /** The name at position k of the desired names gets the address start + k. */
  lemma PlanExact(codec: Codec, cluster: Cluster, k: nat)
    requires Static(cluster) && DistinctPools(cluster.Pools()) && PositiveCounts(cluster.Pools())
    requires PlanOf(codec, cluster).Ok? && k < |cluster.DesiredNames()|
    ensures cluster.DesiredNames()[k] in PlanOf(codec, cluster).value
    ensures SettingAt(codec, cluster.network, k, PlanOf(codec, cluster).value[cluster.DesiredNames()[k]])
  {
    var names := cluster.DesiredNames();
    var (first, last) := ParseRange(codec, cluster.network.range).value;
    var settings := SettingsFor(codec, cluster.network.cidr, cluster.network.gateway, Range(first, last));
    NamesDistinctIff(cluster.name, cluster.Pools());
    AssignAt(names, settings, k);
    EntrySetting(codec, cluster.network, k);
  }

  /** Node i of pool p gets the address start + (sum of the earlier counts) + i. */
  lemma PlanByPool(codec: Codec, cluster: Cluster, p: nat, i: nat)
    requires Static(cluster) && DistinctPools(cluster.Pools()) && PositiveCounts(cluster.Pools())
    requires PlanOf(codec, cluster).Ok? && p < |cluster.Pools()| && i < cluster.Pools()[p].count
    ensures var name := NodeName(cluster.name, cluster.Pools()[p].name, i + 1);
            && name in PlanOf(codec, cluster).value
            && SettingAt(codec, cluster.network, TotalCount(cluster.Pools()[..p]) + i, PlanOf(codec, cluster).value[name])
  {
    PositionOf(cluster.name, cluster.Pools(), p, i);
    var k := TotalCount(cluster.Pools()[..p]) + i;
    assert cluster.DesiredNames()[k] in cluster.DesiredNames();
    PlanExact(codec, cluster, k);
  }

  /** The whole plan as it reads, for a range written "x-y" with any white space: the name at position k gets the address
      x + k, with the prefix length of the CIDR (24 without one) and the gateway, if there is one. */
  lemma PlanReads(codec: Codec, cluster: Cluster, a: string, x: string, b: string, c: string, y: string, d: string, k: nat)
      returns (address: Address)
    requires Static(cluster) && DistinctPools(cluster.Pools()) && PositiveCounts(cluster.Pools())
    requires AllSpace(a) && Tight(x) && AllSpace(b) && AllSpace(c) && Tight(y) && AllSpace(d) && '-' !in x
    requires cluster.network.range == (a + x + b) + "-" + (c + y + d)
    requires PlanOf(codec, cluster).Ok? && k < |cluster.DesiredNames()|
    ensures codec.parse(x).Some? && codec.parse(y).Some?
    ensures Value(address) == (Value(codec.parse(x).value) + k) % SPACE && k <= Distance(codec.parse(x).value, codec.parse(y).value)
    ensures cluster.DesiredNames()[k] in PlanOf(codec, cluster).value
    ensures var cidr := cluster.network.cidr;
            var prefix := if cidr != "" && codec.prefixLength(cidr).Some? then codec.prefixLength(cidr).value else 24;
            ReadsAs(PlanOf(codec, cluster).value[cluster.DesiredNames()[k]], codec.format(address), prefix, cluster.network.gateway)
  {
    hide ParseRange, NamesOf, ReadsAs, IPConfig, Assign;
    RangeAsWritten(codec, a, x, b, c, y, d);
    PlanExact(codec, cluster, k);
    var setting := PlanOf(codec, cluster).value[cluster.DesiredNames()[k]];
    address :| setting == IPConfig(codec, cluster.network.cidr, cluster.network.gateway, address)
               && AddressAt(codec, cluster.network.range, k, address);
    IPConfigReads(codec, cluster.network.cidr, cluster.network.gateway, address);
  }

  // Positions within one range have the same setting only when they are the same position.
  lemma SettingAtInjective(codec: Codec, network: Network, j: nat, k: nat, setting: string)
    requires codec.Valid() && SettingAt(codec, network, j, setting) && SettingAt(codec, network, k, setting)
    ensures j == k
  {
    var a: Address :| setting == IPConfig(codec, network.cidr, network.gateway, a) && AddressAt(codec, network.range, j, a);
    var b: Address :| setting == IPConfig(codec, network.cidr, network.gateway, b) && AddressAt(codec, network.range, k, b);
    IPConfigInjective(codec, network.cidr, network.gateway, a, b);
    AddressAtInjective(codec, network.range, j, k, a);
  }

  // The same position has the same setting, in any plan over the same network.
  lemma SettingAtUnique(codec: Codec, network: Network, k: nat, s: string, t: string)
    requires SettingAt(codec, network, k, s) && SettingAt(codec, network, k, t)
    ensures s == t
  {
    var a: Address :| s == IPConfig(codec, network.cidr, network.gateway, a) && AddressAt(codec, network.range, k, a);
    var b: Address :| t == IPConfig(codec, network.cidr, network.gateway, b) && AddressAt(codec, network.range, k, b);
    ValueInjective(a, b);
  }

  /** No two names of a plan share an address. */
  lemma PlanInjective(codec: Codec, cluster: Cluster, m: string, n: string)
    requires codec.Valid() && Static(cluster)
    requires DistinctPools(cluster.Pools()) && PositiveCounts(cluster.Pools()) && PlanOf(codec, cluster).Ok?
    requires m in PlanOf(codec, cluster).value && n in PlanOf(codec, cluster).value
    ensures PlanOf(codec, cluster).value[m] == PlanOf(codec, cluster).value[n] <==> m == n
  {
    var plan, names := PlanOf(codec, cluster).value, cluster.DesiredNames();
    PlanKeys(codec, cluster, m);
    PlanKeys(codec, cluster, n);
    var j :| 0 <= j < |names| && names[j] == m;
    var k :| 0 <= k < |names| && names[k] == n;
    PlanExact(codec, cluster, j);
    PlanExact(codec, cluster, k);
    if plan[m] == plan[n] {
      SettingAtInjective(codec, cluster.network, j, k, plan[m]);
    }
  }

  // --- growth of a configuration ---

  /** Growth at the tail: the last pool may be enlarged and pools may be appended, nothing else changes. */
  predicate TailGrowth(ps: seq<NodePool>, qs: seq<NodePool>) {
    && |ps| <= |qs|
    && (forall i :: 0 <= i < |ps| - 1 ==> ps[i] == qs[i])
    && (ps != [] ==> ps[|ps| - 1].name == qs[|ps| - 1].name && ps[|ps| - 1].count <= qs[|ps| - 1].count)
  }

  lemma TailGrowthTransitive(ps: seq<NodePool>, qs: seq<NodePool>, rs: seq<NodePool>)
    requires TailGrowth(ps, qs) && TailGrowth(qs, rs)
    ensures TailGrowth(ps, rs)
  {
  }

  /** The old names keep their positions exactly when the configuration grows at the tail. */
  lemma PositionsKeptIff(cluster: string, ps: seq<NodePool>, qs: seq<NodePool>)
    requires PositiveCounts(ps) && PositiveCounts(qs)
    ensures NamesOf(cluster, ps) <= NamesOf(cluster, qs) <==> TailGrowth(ps, qs)
  {
    if TailGrowth(ps, qs) {
      TailGrowthKeeps(cluster, ps, qs);
    }
    if NamesOf(cluster, ps) <= NamesOf(cluster, qs) {
      forall p | 0 <= p < |ps| ensures p < |qs| && ps[..p] == qs[..p] && ps[p].name == qs[p].name {
        KeptPools(cluster, ps, qs, p);
      }
      forall p | 0 <= p < |ps| - 1 ensures ps[p] == qs[p] {
        KeptPools(cluster, ps, qs, p + 1);
        assert ps[..p + 1][p] == qs[..p + 1][p];
      }
      if ps != [] {
        KeptLast(cluster, ps, qs, |ps| - 1);
      }
    }
  }

  lemma TailGrowthKeeps(cluster: string, ps: seq<NodePool>, qs: seq<NodePool>)
    requires TailGrowth(ps, qs)
    ensures NamesOf(cluster, ps) <= NamesOf(cluster, qs)
  {
    if ps != [] {
      var last := |ps| - 1;
      assert ps[..last] == qs[..last] && ps[..last + 1] == ps;
      NamesTake(cluster, ps, last);
      NamesTake(cluster, qs, last);
      NamesPrefix(cluster, qs, last + 1);
      assert PoolNames(cluster, ps[last]) <= PoolNames(cluster, qs[last]);
    }
  }

  // What stands right after the first p pools.
  lemma AfterPools(cluster: string, qs: seq<NodePool>, p: nat)
    requires PositiveCounts(qs) && p <= |qs|
    ensures var names, t := NamesOf(cluster, qs), TotalCount(qs[..p]);
            if p == |qs| then t == |names| else t < |names| && names[t] == NodeName(cluster, qs[p].name, 1)
  {
    if p == |qs| {
      NamesLength(cluster, qs);
      assert qs[..p] == qs;
    } else {
      PositionOf(cluster, qs, p, 0);
    }
  }

  // If positions are kept, the pools agree up to p, and pool p keeps its name.
  lemma {:induction false} KeptPools(cluster: string, ps: seq<NodePool>, qs: seq<NodePool>, p: nat)
    requires PositiveCounts(ps) && PositiveCounts(qs) && p < |ps|
    requires NamesOf(cluster, ps) <= NamesOf(cluster, qs)
    ensures p < |qs| && ps[..p] == qs[..p] && ps[p].name == qs[p].name
  {
    if p == 0 {
    } else {
      KeptPools(cluster, ps, qs, p - 1);
      KeptLast(cluster, ps, qs, p - 1);
      KeptInner(cluster, ps, qs, p - 1);
      assert ps[..p] == ps[..p - 1] + [ps[p - 1]] && qs[..p] == qs[..p - 1] + [qs[p - 1]];
    }
    SamePoolName(cluster, ps, qs, p);
  }

  lemma SamePoolName(cluster: string, ps: seq<NodePool>, qs: seq<NodePool>, p: nat)
    requires PositiveCounts(ps) && PositiveCounts(qs) && p < |ps| && p <= |qs| && ps[..p] == qs[..p]
    requires NamesOf(cluster, ps) <= NamesOf(cluster, qs)
    ensures p < |qs| && ps[p].name == qs[p].name
  {
    hide NamesOf, PoolNames, NodeName, TotalCount;
    AfterPools(cluster, ps, p);
    AfterPools(cluster, qs, p);
    if p < |qs| {
      NameInjectiveInCluster(cluster, ps[p].name, 1, qs[p].name, 1);
    }
  }

  // A pool that is not the last keeps its size: the name after it has index 1.
  lemma KeptInner(cluster: string, ps: seq<NodePool>, qs: seq<NodePool>, p: nat)
    requires PositiveCounts(ps) && PositiveCounts(qs) && p + 1 < |ps| && p < |qs| && ps[..p] == qs[..p]
    requires NamesOf(cluster, ps) <= NamesOf(cluster, qs)
    ensures qs[p].count <= ps[p].count
  {
    hide NamesOf, PoolNames, NodeName, TotalCount;
    var k := ps[p].count;
    if k < qs[p].count {
      AfterPools(cluster, ps, p + 1);
      NamesTake(cluster, ps, p);
      PositionOf(cluster, qs, p, k);
      NameInjectiveInCluster(cluster, ps[p + 1].name, 1, qs[p].name, k + 1);
    }
  }

  // Pool p of qs is at least as large as pool p of ps.
  lemma KeptLast(cluster: string, ps: seq<NodePool>, qs: seq<NodePool>, p: nat)
    requires PositiveCounts(ps) && PositiveCounts(qs) && p < |ps| && p < |qs| && ps[..p] == qs[..p]
    requires NamesOf(cluster, ps) <= NamesOf(cluster, qs)
    ensures ps[p].count <= qs[p].count
  {
    hide NamesOf, PoolNames, NodeName, TotalCount;
    if qs[p].count < ps[p].count {
      var t := TotalCount(ps[..p]) + qs[p].count;
      NameBeyondPool(cluster, ps, qs, p, t);
      AfterPools(cluster, qs, p + 1);
      NameInjectiveInCluster(cluster, ps[p].name, qs[p].count + 1, qs[p + 1].name, 1);
    }
  }

  lemma NameBeyondPool(cluster: string, ps: seq<NodePool>, qs: seq<NodePool>, p: nat, t: nat)
    requires PositiveCounts(qs) && p < |ps| && p < |qs| && ps[..p] == qs[..p]
    requires NamesOf(cluster, ps) <= NamesOf(cluster, qs)
    requires qs[p].count < ps[p].count && t == TotalCount(ps[..p]) + qs[p].count
    ensures t == TotalCount(qs[..p + 1]) < |NamesOf(cluster, qs)| && p + 1 < |qs|
    ensures NamesOf(cluster, qs)[t] == NodeName(cluster, ps[p].name, qs[p].count + 1)
  {
    hide NamesOf, PoolNames, NodeName, TotalCount;
    PositionOf(cluster, ps, p, qs[p].count);
    NamesTake(cluster, qs, p);
    AfterPools(cluster, qs, p + 1);
  }

  /** Every address of the old plan stays exactly when the configuration grows at the tail. */
  lemma AddressesKeptIff(codec: Codec, c: Cluster, d: Cluster)
    requires codec.Valid() && c.name == d.name && c.network == d.network && Static(c)
    requires DistinctPools(c.Pools()) && PositiveCounts(c.Pools()) && PlanOf(codec, c).Ok?
    requires DistinctPools(d.Pools()) && PositiveCounts(d.Pools()) && PlanOf(codec, d).Ok?
    ensures (forall n | n in PlanOf(codec, c).value :: n in PlanOf(codec, d).value
                                                    && PlanOf(codec, d).value[n] == PlanOf(codec, c).value[n])
            <==> TailGrowth(c.Pools(), d.Pools())
  {
    var earlier, later := PlanOf(codec, c).value, PlanOf(codec, d).value;
    var names, names' := c.DesiredNames(), d.DesiredNames();
    PositionsKeptIff(c.name, c.Pools(), d.Pools());
    if names <= names' {
      forall n | n in earlier ensures n in later && later[n] == earlier[n] {
        var k := PlanPosition(codec, c, n);
        PlanExact(codec, d, k);
        assert names'[k] in names';
        SettingAtUnique(codec, c.network, k, earlier[n], later[n]);
      }
    }
    if forall n | n in earlier :: n in later && later[n] == earlier[n] {
      forall k | 0 <= k < |names| ensures k < |names'| && names'[k] == names[k] {
        PlanExact(codec, c, k);
        assert names[k] in names;
        var j := PlanPosition(codec, d, names[k]);
        SettingAtInjective(codec, c.network, j, k, earlier[names[k]]);
      }
      assert names == names'[..|names|] by { KeptLength(names, names'); }
    }
  }

  lemma KeptLength(s: seq<string>, t: seq<string>)
    requires forall k :: 0 <= k < |s| ==> k < |t| && t[k] == s[k]
    ensures |s| <= |t| && s == t[..|s|]
  {
    if s != [] {
      var last := s[|s| - 1];
    }
  }

  lemma PlanPosition(codec: Codec, c: Cluster, n: string) returns (k: nat)
    requires Static(c) && DistinctPools(c.Pools()) && PositiveCounts(c.Pools())
    requires PlanOf(codec, c).Ok? && n in PlanOf(codec, c).value
    ensures k < |c.DesiredNames()| && c.DesiredNames()[k] == n
    ensures SettingAt(codec, c.network, k, PlanOf(codec, c).value[n])
  {
    var names := c.DesiredNames();
    PlanKeys(codec, c, n);
    k :| 0 <= k < |names| && names[k] == n;
    PlanExact(codec, c, k);
  }
}
