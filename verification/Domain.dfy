/** Clusters, pools and nodes, and how nodes are named (internal/domain). */
module Domain {
  import opened Text
  import opened Tags

  /** The master pool's name is fixed by config.ToModel; counts are validated to be positive. */
  const MASTER_POOL := "master"

  datatype NodePool = NodePool(name: string, count: nat)

  datatype Network = Network(mode: string, range: string, cidr: string, gateway: string)

  /** The template and the target hosts are those of the Proxmox section of the configuration. */
  datatype Cluster = Cluster(name: string, masters: NodePool, workers: seq<NodePool>, network: Network,
                             template: string, targets: seq<string>) {
    function Pools(): seq<NodePool> {
      [masters] + workers
    }

    // The names this configuration asks for, in the order both loops of create.go produce them.
    function DesiredNames(): seq<string> {
      NamesOf(name, Pools())
    }
  }

  datatype NodeSpec = NodeSpec(name: string, cluster: string, role: Role, pool: string, mode: string, ipConfig: string)

  datatype Node = Node(name: string, role: Role, pool: string, vmid: nat, host: string)

  function NodeName(cluster: string, pool: string, index: nat): string {
    cluster + "-" + pool + "-" + Decimal(index)
  }

  function PoolNames(cluster: string, pool: NodePool): seq<string> {
    seq(pool.count, i requires 0 <= i => NodeName(cluster, pool.name, i + 1))
  }

  function NamesOf(cluster: string, pools: seq<NodePool>): seq<string> {
    if pools == [] then []
    else NamesOf(cluster, pools[..|pools| - 1]) + PoolNames(cluster, pools[|pools| - 1])
  }

  function TotalCount(pools: seq<NodePool>): nat {
    if pools == [] then 0 else TotalCount(pools[..|pools| - 1]) + pools[|pools| - 1].count
  }

  predicate DistinctPools(pools: seq<NodePool>) {
    forall i, j :: 0 <= i < j < |pools| ==> pools[i].name != pools[j].name
  }

  predicate PositiveCounts(pools: seq<NodePool>) {
    forall i :: 0 <= i < |pools| ==> pools[i].count > 0
  }

  predicate Distinct<T(==)>(s: seq<T>) {
    forall i, j :: 0 <= i < j < |s| ==> s[i] != s[j]
  }

  // --- names determine pool and index ---

  // Splitting at the last dash: digits never contain one.
  lemma LastDash(p: string, d: string, q: string, e: string)
    requires '-' !in d && '-' !in e
    requires p + "-" + d == q + "-" + e
    ensures p == q && d == e
  {
    var s := p + "-" + d;
    assert s[|p|] == '-' && s[|q|] == '-';
    assert forall k | |p| < k < |s| :: s[k] in d;
    assert forall k | |q| < k < |s| :: s[k] in e;
    assert s[..|p|] == p && s[..|q|] == q;
    assert s[|p| + 1..] == d && s[|q| + 1..] == e;
  }

  /** Names agree exactly when index and "cluster-pool" agree, whatever dashes and digits the parts contain. */
  lemma NameInjective(cluster: string, pool: string, index: nat, cluster': string, pool': string, index': nat)
    ensures NodeName(cluster, pool, index) == NodeName(cluster', pool', index')
            <==> cluster + "-" + pool == cluster' + "-" + pool' && index == index'
  {
    if NodeName(cluster, pool, index) == NodeName(cluster', pool', index') {
      DecimalHasNoDash(index);
      DecimalHasNoDash(index');
      LastDash(cluster + "-" + pool, Decimal(index), cluster' + "-" + pool', Decimal(index'));
      DecimalInjective(index, index');
    }
  }

  /** Within one cluster a name determines its pool and its index. */
  lemma NameInjectiveInCluster(cluster: string, pool: string, index: nat, pool': string, index': nat)
    ensures NodeName(cluster, pool, index) == NodeName(cluster, pool', index') <==> pool == pool' && index == index'
  {
    NameInjective(cluster, pool, index, cluster, pool', index');
    var a, b := cluster + "-" + pool, cluster + "-" + pool';
    if a == b {
      assert a[|cluster| + 1..] == pool && b[|cluster| + 1..] == pool';
    }
  }

  // Across clusters names may coincide, so a name alone does not identify a cluster's VM.
  lemma NamesMeetAcrossClusters()
    ensures NodeName("a-b", "c", 1) == NodeName("a", "b-c", 1)
  {
    assert "a-b" + "-" + "c" == "a" + "-" + "b-c";
    NameInjective("a-b", "c", 1, "a", "b-c", 1);
  }

  // --- the list of desired names ---

  lemma {:induction false} NamesLength(cluster: string, pools: seq<NodePool>)
    ensures |NamesOf(cluster, pools)| == TotalCount(pools)
  {
    if pools == [] {
    } else {
      NamesLength(cluster, pools[..|pools| - 1]);
    }
  }

  // Taking one more pool appends its names.
  lemma NamesTake(cluster: string, pools: seq<NodePool>, k: nat)
    requires k < |pools|
    ensures NamesOf(cluster, pools[..k + 1]) == NamesOf(cluster, pools[..k]) + PoolNames(cluster, pools[k])
    ensures TotalCount(pools[..k + 1]) == TotalCount(pools[..k]) + pools[k].count
  {
    assert pools[..k + 1][..k] == pools[..k];
  }

  lemma {:induction false} NamesPrefix(cluster: string, pools: seq<NodePool>, k: nat)
    requires k <= |pools|
    ensures NamesOf(cluster, pools[..k]) <= NamesOf(cluster, pools)
    ensures TotalCount(pools[..k]) <= TotalCount(pools)
  {
    if k == |pools| {
      assert pools[..k] == pools;
    } else {
      var init := pools[..|pools| - 1];
      NamesPrefix(cluster, init, k);
      assert init[..k] == pools[..k];
    }
  }

  /** Node i of pool p stands at position (sum of the earlier counts) + i. */
  lemma PositionOf(cluster: string, pools: seq<NodePool>, p: nat, i: nat)
    requires p < |pools| && i < pools[p].count
    ensures TotalCount(pools[..p]) + i < |NamesOf(cluster, pools)|
    ensures NamesOf(cluster, pools)[TotalCount(pools[..p]) + i] == NodeName(cluster, pools[p].name, i + 1)
  {
    NamesTake(cluster, pools, p);
    NamesLength(cluster, pools[..p]);
    NamesPrefix(cluster, pools, p + 1);
    assert PoolNames(cluster, pools[p])[i] == NodeName(cluster, pools[p].name, i + 1);
  }

  /** Every position belongs to exactly the pool found by the running sums. */
  lemma {:induction false} PoolAt(cluster: string, pools: seq<NodePool>, k: nat) returns (p: nat, i: nat)
    requires k < |NamesOf(cluster, pools)|
    ensures p < |pools| && i < pools[p].count && k == TotalCount(pools[..p]) + i
    ensures NamesOf(cluster, pools)[k] == NodeName(cluster, pools[p].name, i + 1)
  {
    var last := |pools| - 1;
    NamesLength(cluster, pools[..last]);
    if k < |NamesOf(cluster, pools[..last])| {
      p, i := PoolAt(cluster, pools[..last], k);
      assert pools[..last][..p] == pools[..p];
    } else {
      p, i := last, k - TotalCount(pools[..last]);
    }
    PositionOf(cluster, pools, p, i);
  }

  lemma {:induction false} TotalCountGrows(pools: seq<NodePool>, p: nat, q: nat)
    requires p <= q <= |pools|
    ensures TotalCount(pools[..p]) <= TotalCount(pools[..q])
    decreases q
  {
    if p >= q {
    } else {
      TotalCountGrows(pools, p, q - 1);
      assert pools[..q][..q - 1] == pools[..q - 1];
    }
  }

  /** No name is asked for twice exactly when the pool names are pairwise different. */
  lemma NamesDistinctIff(cluster: string, pools: seq<NodePool>)
    requires PositiveCounts(pools)
    ensures Distinct(NamesOf(cluster, pools)) <==> DistinctPools(pools)
  {
    var names := NamesOf(cluster, pools);
    if DistinctPools(pools) {
      forall j, k | 0 <= j < k < |names| ensures names[j] != names[k] {
        var p, i := PoolAt(cluster, pools, j);
        var q, l := PoolAt(cluster, pools, k);
        NameInjectiveInCluster(cluster, pools[p].name, i + 1, pools[q].name, l + 1);
        assert p < q ==> pools[p].name != pools[q].name;
        assert q < p ==> pools[q].name != pools[p].name;
      }
    }
    if Distinct(names) {
      forall p, q | 0 <= p < q < |pools| ensures pools[p].name != pools[q].name {
        PositionOf(cluster, pools, p, 0);
        PositionOf(cluster, pools, q, 0);
        NamesTake(cluster, pools, p);
        TotalCountGrows(pools, p + 1, q);
        assert names[TotalCount(pools[..p])] != names[TotalCount(pools[..q])];
      }
    }
  }
}
