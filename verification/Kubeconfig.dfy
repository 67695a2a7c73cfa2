/** Rewriting and merging kubeconfig files, on parsed data (kubeconfig.go). */
module Kubeconfig {
  import opened Wrappers

  datatype Cluster = Cluster(name: string, server: string, caData: string)

  datatype Context = Context(name: string, cluster: string, user: string)

  /** The credentials are an opaque value of the file. */
  datatype User = User(name: string, credentials: string)

  datatype KubeConfig = KubeConfig(apiVersion: string, kind: string,
                                   clusters: seq<Cluster>, contexts: seq<Context>, users: seq<User>, currentContext: string)

  function ServerOf(vip: string): string {
    "https://" + vip + ":6443"
  }

  function AdminOf(clusterName: string): string {
    clusterName + "-admin"
  }

  // Different addresses and different clusters keep apart.
  lemma TextsInjective(a: string, b: string)
    ensures ServerOf(a) == ServerOf(b) <==> a == b
    ensures AdminOf(a) == AdminOf(b) <==> a == b
  {
    if ServerOf(a) == ServerOf(b) {
      assert |a| == |b|;
      assert ServerOf(a)[8..8 + |a|] == a && ServerOf(b)[8..8 + |b|] == b;
    }
    if AdminOf(a) == AdminOf(b) {
      assert |a| == |b|;
      assert AdminOf(a)[..|a|] == a && AdminOf(b)[..|b|] == b;
    }
  }

  // --- rewriting ---

  ghost predicate Rewritten(raw: KubeConfig, clusterName: string, vip: string, kc: KubeConfig) {
    && kc.apiVersion == raw.apiVersion && kc.kind == raw.kind && kc.currentContext == clusterName
    && |kc.clusters| == |raw.clusters| && |kc.contexts| == |raw.contexts| && |kc.users| == |raw.users|
    && (forall i :: 0 <= i < |kc.clusters| ==> kc.clusters[i] == Cluster(clusterName, ServerOf(vip), raw.clusters[i].caData))
    && (forall c :: c in kc.contexts ==> c == Context(clusterName, clusterName, AdminOf(clusterName)))
    && (forall i :: 0 <= i < |kc.users| ==> kc.users[i] == User(AdminOf(clusterName), raw.users[i].credentials))
  }

  method RewriteKubeconfig(raw: KubeConfig, clusterName: string, vip: string) returns (kc: KubeConfig)
    ensures Rewritten(raw, clusterName, vip, kc)
    ensures forall c :: c in kc.clusters ==> c.name == clusterName && c.server == "https://" + vip + ":6443"
    ensures forall c :: c in kc.contexts ==> c == Context(clusterName, clusterName, clusterName + "-admin")
    ensures forall u :: u in kc.users ==> u.name == clusterName + "-admin"
  {
    kc := raw;
    var newServer := ServerOf(vip);
    for i := 0 to |kc.clusters|
      invariant kc == raw.(clusters := kc.clusters) && |kc.clusters| == |raw.clusters|
      invariant forall j :: 0 <= j < i ==> kc.clusters[j] == Cluster(clusterName, newServer, raw.clusters[j].caData)
      invariant forall j :: i <= j < |raw.clusters| ==> kc.clusters[j] == raw.clusters[j]
    {
      kc := kc.(clusters := kc.clusters[i := kc.clusters[i].(server := newServer)]);
      kc := kc.(clusters := kc.clusters[i := kc.clusters[i].(name := clusterName)]);
    }
    for i := 0 to |kc.contexts|
      invariant kc == raw.(clusters := kc.clusters, contexts := kc.contexts) && |kc.contexts| == |raw.contexts|
      invariant |kc.clusters| == |raw.clusters|
      invariant forall j :: 0 <= j < |raw.clusters| ==> kc.clusters[j] == Cluster(clusterName, newServer, raw.clusters[j].caData)
      invariant forall j :: 0 <= j < i ==> kc.contexts[j] == Context(clusterName, clusterName, AdminOf(clusterName))
    {
      kc := kc.(contexts := kc.contexts[i := Context(clusterName, clusterName, AdminOf(clusterName))]);
    }
    ghost var half := kc;
    for i := 0 to |kc.users|
      invariant kc == half.(users := kc.users) && |kc.users| == |raw.users|
      invariant forall j :: 0 <= j < i ==> kc.users[j] == User(AdminOf(clusterName), raw.users[j].credentials)
      invariant forall j :: i <= j < |raw.users| ==> kc.users[j] == raw.users[j]
    {
      kc := kc.(users := kc.users[i := kc.users[i].(name := AdminOf(clusterName))]);
    }
    kc := kc.(currentContext := clusterName);
  }

  // --- lists with a key ---

  ghost predicate HasKey<T>(key: T -> string, s: seq<T>, k: string) {
    exists i :: 0 <= i < |s| && key(s[i]) == k
  }

  // The lookup-then-append of the loops over contexts and users.
  ghost function AppendNew<T>(key: T -> string, base: seq<T>, extra: seq<T>): seq<T> {
    if extra == [] then base
    else
      var before := AppendNew(key, base, extra[..|extra| - 1]);
      var e := extra[|extra| - 1];
      if HasKey(key, before, key(e)) then before else before + [e]
  }

  // The entries of extra whose key is new, each at its first occurrence.
  ghost function FirstNew<T>(key: T -> string, base: seq<T>, extra: seq<T>): seq<T> {
    if extra == [] then []
    else
      var rest := extra[..|extra| - 1];
      FirstNew(key, base, rest) + if HasKey(key, base + rest, key(extra[|extra| - 1])) then [] else [extra[|extra| - 1]]
  }

  lemma HasKeyConcat<T>(key: T -> string, s: seq<T>, t: seq<T>, k: string)
    ensures HasKey(key, s + t, k) <==> HasKey(key, s, k) || HasKey(key, t, k)
  {
    if HasKey(key, s, k) {
      var i :| 0 <= i < |s| && key(s[i]) == k;
      assert key((s + t)[i]) == k;
    }
    if HasKey(key, t, k) {
      var i :| 0 <= i < |t| && key(t[i]) == k;
      assert key((s + t)[|s| + i]) == k;
    }
  }

  lemma HasKeySnoc<T>(key: T -> string, s: seq<T>, k: string)
    requires s != []
    ensures HasKey(key, s, k) <==> HasKey(key, s[..|s| - 1], k) || key(s[|s| - 1]) == k
  {
    var init, e := s[..|s| - 1], s[|s| - 1];
    assert s == init + [e];
    HasKeyConcat(key, init, [e], k);
    assert [e][0] == e;
  }

  /** Base, then the new entries at their first occurrence, has the keys of both lists. */
  lemma {:induction false} FirstNewKeys<T>(key: T -> string, base: seq<T>, extra: seq<T>, k: string)
    ensures HasKey(key, base + FirstNew(key, base, extra), k) <==> HasKey(key, base, k) || HasKey(key, extra, k)
  {
    if extra == [] {
      assert base + FirstNew(key, base, extra) == base;
    } else {
      var rest, e := extra[..|extra| - 1], extra[|extra| - 1];
      FirstNewKeys(key, base, rest, k);
      HasKeySnoc(key, extra, k);
      HasKeyConcat(key, base, rest, key(e));
      var before := base + FirstNew(key, base, rest);
      if HasKey(key, base + rest, key(e)) {
        assert FirstNew(key, base, extra) == FirstNew(key, base, rest);
      } else {
        assert base + FirstNew(key, base, extra) == before + [e];
        HasKeyConcat(key, before, [e], k);
        assert [e][0] == e;
      }
    }
  }

  /** The append loop keeps the base list as it is and adds the new entries at their first occurrence. */
  lemma {:induction false} AppendNewClosed<T>(key: T -> string, base: seq<T>, extra: seq<T>)
    ensures AppendNew(key, base, extra) == base + FirstNew(key, base, extra)
  {
    if extra == [] {
    } else {
      var rest, e := extra[..|extra| - 1], extra[|extra| - 1];
      AppendNewClosed(key, base, rest);
      FirstNewKeys(key, base, rest, key(e));
      HasKeyConcat(key, base, rest, key(e));
    }
  }

  /** Nothing is new in a list whose keys are all there. */
  lemma {:induction false} NothingNew<T>(key: T -> string, base: seq<T>, extra: seq<T>)
    requires forall i :: 0 <= i < |extra| ==> HasKey(key, base, key(extra[i]))
    ensures FirstNew(key, base, extra) == []
  {
    if extra == [] {
    } else {
      var rest, e := extra[..|extra| - 1], extra[|extra| - 1];
      NothingNew(key, base, rest);
      HasKeyConcat(key, base, rest, key(e));
    }
  }

  ghost predicate Distinct<T>(key: T -> string, s: seq<T>) {
    forall i, j :: 0 <= i < j < |s| ==> key(s[i]) != key(s[j])
  }

  /** The appended entries repeat no key, and none of the base. */
  lemma {:induction false} FirstNewDistinct<T>(key: T -> string, base: seq<T>, extra: seq<T>)
    requires Distinct(key, base)
    ensures Distinct(key, base + FirstNew(key, base, extra))
  {
    if extra == [] {
      assert base + FirstNew(key, base, extra) == base;
    } else {
      var rest, e := extra[..|extra| - 1], extra[|extra| - 1];
      FirstNewDistinct(key, base, rest);
      var before := base + FirstNew(key, base, rest);
      if HasKey(key, base + rest, key(e)) {
        assert base + FirstNew(key, base, extra) == before;
      } else {
        assert base + FirstNew(key, base, extra) == before + [e];
        FirstNewKeys(key, base, rest, key(e));
        HasKeyConcat(key, base, rest, key(e));
      }
    }
  }

  lemma {:induction false} FirstNewFrom<T>(key: T -> string, base: seq<T>, extra: seq<T>)
    ensures forall e :: e in FirstNew(key, base, extra) ==> e in extra
  {
    if extra == [] {
    } else {
      FirstNewFrom(key, base, extra[..|extra| - 1]);
    }
  }

  /** Each appended entry is the first of its key: neither the base nor an earlier entry has it. */
  lemma {:induction false} FirstNewMeans<T>(key: T -> string, base: seq<T>, extra: seq<T>, i: nat) returns (j: nat)
    requires i < |FirstNew(key, base, extra)|
    ensures j < |extra| && extra[j] == FirstNew(key, base, extra)[i]
    ensures !HasKey(key, base, key(extra[j])) && !HasKey(key, extra[..j], key(extra[j]))
  {
    var rest, e := extra[..|extra| - 1], extra[|extra| - 1];
    if i < |FirstNew(key, base, rest)| {
      j := FirstNewMeans(key, base, rest, i);
      assert rest[..j] == extra[..j];
    } else {
      j := |extra| - 1;
      HasKeyConcat(key, base, rest, key(e));
    }
  }

  // --- clusters: replaced where present, appended where new ---

  function ClusterName(c: Cluster): string {
    c.name
  }

  ghost function ReplaceAll(clusters: seq<Cluster>, c: Cluster): seq<Cluster> {
    seq(|clusters|, i requires 0 <= i < |clusters| => if clusters[i].name == c.name then c else clusters[i])
  }

  ghost function MergeClusters(base: seq<Cluster>, extra: seq<Cluster>): seq<Cluster> {
    if extra == [] then base
    else
      var before := MergeClusters(base, extra[..|extra| - 1]);
      var c := extra[|extra| - 1];
      if HasKey(ClusterName, before, c.name) then ReplaceAll(before, c) else before + [c]
  }

  ghost function Latest(extra: seq<Cluster>, name: string): Option<Cluster> {
    if extra == [] then None
    else if extra[|extra| - 1].name == name then Some(extra[|extra| - 1])
    else Latest(extra[..|extra| - 1], name)
  }

  /** Latest is the last entry of that name. */
  lemma {:induction false} LatestMeans(extra: seq<Cluster>, name: string, j: nat)
    requires j < |extra| && extra[j].name == name
    requires forall k :: j < k < |extra| ==> extra[k].name != name
    ensures Latest(extra, name) == Some(extra[j])
  {
    if j >= |extra| - 1 {
    } else {
      LatestMeans(extra[..|extra| - 1], name, j);
    }
  }

  lemma {:induction false} LatestName(extra: seq<Cluster>, name: string)
    ensures Latest(extra, name).Some? <==> HasKey(ClusterName, extra, name)
    ensures Latest(extra, name).Some? ==> Latest(extra, name).value.name == name && Latest(extra, name).value in extra
  {
    if extra == [] {
    } else {
      LatestName(extra[..|extra| - 1], name);
      HasKeySnoc(ClusterName, extra, name);
    }
  }

  ghost function Refreshed(extra: seq<Cluster>, c: Cluster): Cluster {
    match Latest(extra, c.name) case Some(fresher) => fresher case None => c
  }

  /** The closed form: the base order, then the new names at their first occurrence, each with its last entry. */
  ghost function ClustersClosed(base: seq<Cluster>, extra: seq<Cluster>): seq<Cluster> {
    var order := base + FirstNew(ClusterName, base, extra);
    seq(|order|, i requires 0 <= i < |order| => Refreshed(extra, order[i]))
  }

  lemma RefreshedName(extra: seq<Cluster>, c: Cluster)
    ensures Refreshed(extra, c).name == c.name
  {
    LatestName(extra, c.name);
  }

  // The names of the closed form are those of its order.
  lemma ClosedKeys(base: seq<Cluster>, extra: seq<Cluster>, k: string)
    ensures HasKey(ClusterName, ClustersClosed(base, extra), k) <==> HasKey(ClusterName, base, k) || HasKey(ClusterName, extra, k)
  {
    var order := base + FirstNew(ClusterName, base, extra);
    FirstNewKeys(ClusterName, base, extra, k);
    forall i | 0 <= i < |order| ensures ClusterName(ClustersClosed(base, extra)[i]) == ClusterName(order[i]) {
      RefreshedName(extra, order[i]);
    }
  }

  /** The nested loops over clusters compute the closed form. */
  lemma {:induction false} MergeClustersClosed(base: seq<Cluster>, extra: seq<Cluster>)
    ensures MergeClusters(base, extra) == ClustersClosed(base, extra)
  {
    if extra == [] {
      assert base + FirstNew(ClusterName, base, extra) == base;
    } else {
      var rest, c := extra[..|extra| - 1], extra[|extra| - 1];
      MergeClustersClosed(base, rest);
      ClosedKeys(base, rest, c.name);
      HasKeyConcat(ClusterName, base, rest, c.name);
      ClosedStep(base, rest, c);
      assert extra == rest + [c];
    }
  }

  lemma ClosedStep(base: seq<Cluster>, rest: seq<Cluster>, c: Cluster)
    ensures var before := ClustersClosed(base, rest);
            ClustersClosed(base, rest + [c]) ==
            if HasKey(ClusterName, base + rest, c.name) then ReplaceAll(before, c) else before + [c]
  {
    var extra := rest + [c];
    assert extra[..|extra| - 1] == rest;
    var order, all := base + FirstNew(ClusterName, base, rest), base + FirstNew(ClusterName, base, extra);
    var before, after := ClustersClosed(base, rest), ClustersClosed(base, extra);
    forall i | 0 <= i < |order|
      ensures Refreshed(extra, order[i]) == if before[i].name == c.name then c else before[i]
    {
      RefreshedName(rest, order[i]);
    }
    if HasKey(ClusterName, base + rest, c.name) {
      assert all == order;
      assert after == ReplaceAll(before, c);
    } else {
      assert all == order + [c];
      FirstNewKeys(ClusterName, base, rest, c.name);
      HasKeyConcat(ClusterName, base, rest, c.name);
    }
  }

  // --- merging ---

  // Unicode case folding of one character is a parameter; EqualFold compares the folded names.
  function Folded(fold: char -> char, name: string): string {
    seq(|name|, i requires 0 <= i < |name| => fold(name[i]))
  }

  function EqualFold(fold: char -> char, a: string, b: string): bool {
    Folded(fold, a) == Folded(fold, b)
  }

  /** Names are equal up to case exactly if they are so character by character. */
  lemma EqualFoldIff(fold: char -> char, a: string, b: string)
    ensures EqualFold(fold, a, b) <==> |a| == |b| && forall i :: 0 <= i < |a| ==> fold(a[i]) == fold(b[i])
  {
    if EqualFold(fold, a, b) {
      assert |a| == |Folded(fold, a)| && |b| == |Folded(fold, b)|;
      forall i | 0 <= i < |a| ensures fold(a[i]) == fold(b[i]) {
        assert Folded(fold, a)[i] == Folded(fold, b)[i];
      }
    }
  }

  ghost function ContextKey(fold: char -> char): Context -> string {
    (c: Context) => Folded(fold, c.name)
  }

  function UserName(u: User): string {
    u.name
  }

  ghost function Merged(fold: char -> char, base: KubeConfig, extra: KubeConfig): KubeConfig {
    base.(clusters := MergeClusters(base.clusters, extra.clusters),
          contexts := AppendNew(ContextKey(fold), base.contexts, extra.contexts),
          users := AppendNew(UserName, base.users, extra.users))
  }

  method ClusterExists(clusters: seq<Cluster>, name: string) returns (found: bool)
    ensures found <==> HasKey(ClusterName, clusters, name)
  {
    for i := 0 to |clusters|
      invariant forall j :: 0 <= j < i ==> clusters[j].name != name
    {
      if clusters[i].name == name {
        assert ClusterName(clusters[i]) == name;
        return true;
      }
    }
    return false;
  }

  method ContextExists(fold: char -> char, contexts: seq<Context>, name: string) returns (found: bool)
    ensures found <==> HasKey(ContextKey(fold), contexts, Folded(fold, name))
  {
    for i := 0 to |contexts|
      invariant forall j :: 0 <= j < i ==> !EqualFold(fold, contexts[j].name, name)
    {
      if EqualFold(fold, contexts[i].name, name) {
        assert ContextKey(fold)(contexts[i]) == Folded(fold, name);
        return true;
      }
    }
    return false;
  }

  method UserExists(users: seq<User>, name: string) returns (found: bool)
    ensures found <==> HasKey(UserName, users, name)
  {
    for i := 0 to |users|
      invariant forall j :: 0 <= j < i ==> users[j].name != name
    {
      if users[i].name == name {
        assert UserName(users[i]) == name;
        return true;
      }
    }
    return false;
  }

  method Replace(clusters: seq<Cluster>, c: Cluster) returns (result: seq<Cluster>)
    ensures result == ReplaceAll(clusters, c)
  {
    result := clusters;
    for i := 0 to |result|
      invariant |result| == |clusters|
      invariant forall j :: 0 <= j < i ==> result[j] == ReplaceAll(clusters, c)[j]
      invariant forall j :: i <= j < |clusters| ==> result[j] == clusters[j]
    {
      if result[i].name == c.name {
        result := result[i := c];
      }
    }
  }

  method MergeConfigs(fold: char -> char, base: KubeConfig, extra: KubeConfig) returns (result: KubeConfig)
    ensures result == Merged(fold, base, extra)
  {
    var clusters := base.clusters;
    for i := 0 to |extra.clusters|
      invariant clusters == MergeClusters(base.clusters, extra.clusters[..i])
    {
      var c := extra.clusters[i];
      assert extra.clusters[..i + 1] == extra.clusters[..i] + [c];
      var found := ClusterExists(clusters, c.name);
      if !found {
        clusters := clusters + [c];
      } else {
        clusters := Replace(clusters, c);
      }
    }
    var contexts := base.contexts;
    for i := 0 to |extra.contexts|
      invariant contexts == AppendNew(ContextKey(fold), base.contexts, extra.contexts[..i])
    {
      var c := extra.contexts[i];
      assert extra.contexts[..i + 1] == extra.contexts[..i] + [c];
      var found := ContextExists(fold, contexts, c.name);
      if !found {
        contexts := contexts + [c];
      }
    }
    var users := base.users;
    for i := 0 to |extra.users|
      invariant users == AppendNew(UserName, base.users, extra.users[..i])
    {
      var u := extra.users[i];
      assert extra.users[..i + 1] == extra.users[..i] + [u];
      var found := UserExists(users, u.name);
      if !found {
        users := users + [u];
      }
    }
    assert extra.clusters[..|extra.clusters|] == extra.clusters;
    assert extra.contexts[..|extra.contexts|] == extra.contexts;
    assert extra.users[..|extra.users|] == extra.users;
    result := base.(clusters := clusters, contexts := contexts, users := users);
  }

  // --- what merging promises ---

  // Appending the same entries a second time does nothing.
  lemma AppendTwice<T>(key: T -> string, base: seq<T>, extra: seq<T>)
    ensures var once := AppendNew(key, base, extra); AppendNew(key, once, extra) == once
  {
    var once := AppendNew(key, base, extra);
    AppendNewClosed(key, base, extra);
    forall i | 0 <= i < |extra| ensures HasKey(key, once, key(extra[i])) {
      FirstNewKeys(key, base, extra, key(extra[i]));
    }
    AppendNewClosed(key, once, extra);
    NothingNew(key, once, extra);
  }

  lemma ClustersTwice(base: seq<Cluster>, extra: seq<Cluster>)
    ensures var once := MergeClusters(base, extra); MergeClusters(once, extra) == once
  {
    var once := MergeClusters(base, extra);
    MergeClustersClosed(base, extra);
    forall i | 0 <= i < |extra| ensures HasKey(ClusterName, once, ClusterName(extra[i])) {
      ClosedKeys(base, extra, extra[i].name);
    }
    MergeClustersClosed(once, extra);
    NothingNew(ClusterName, once, extra);
    assert once + [] == once;
    var order := base + FirstNew(ClusterName, base, extra);
    forall i | 0 <= i < |once| ensures Refreshed(extra, once[i]) == once[i] {
      RefreshedName(extra, order[i]);
    }
  }

  /** Merging the same file a second time changes nothing. */
  lemma MergeIdempotent(fold: char -> char, base: KubeConfig, extra: KubeConfig)
    ensures var once := Merged(fold, base, extra); Merged(fold, once, extra) == once
  {
    ClustersTwice(base.clusters, extra.clusters);
    AppendTwice(ContextKey(fold), base.contexts, extra.contexts);
    AppendTwice(UserName, base.users, extra.users);
  }

  /** No two clusters, no two users and no two contexts up to case have one name. */
  ghost predicate NamesUnique(fold: char -> char, kc: KubeConfig) {
    Distinct(ClusterName, kc.clusters) && Distinct(ContextKey(fold), kc.contexts) && Distinct(UserName, kc.users)
  }

  /** Merging keeps names unique, whatever the new file holds. */
  lemma MergeKeepsUnique(fold: char -> char, base: KubeConfig, extra: KubeConfig)
    requires NamesUnique(fold, base)
    ensures NamesUnique(fold, Merged(fold, base, extra))
  {
    AppendNewClosed(ContextKey(fold), base.contexts, extra.contexts);
    FirstNewDistinct(ContextKey(fold), base.contexts, extra.contexts);
    AppendNewClosed(UserName, base.users, extra.users);
    FirstNewDistinct(UserName, base.users, extra.users);
    MergeClustersClosed(base.clusters, extra.clusters);
    FirstNewDistinct(ClusterName, base.clusters, extra.clusters);
    var order := base.clusters + FirstNew(ClusterName, base.clusters, extra.clusters);
    forall i | 0 <= i < |order| ensures ClusterName(Refreshed(extra.clusters, order[i])) == ClusterName(order[i]) {
      RefreshedName(extra.clusters, order[i]);
    }
  }

  /** Every context names a cluster and a user of the file. */
  ghost predicate Closed(kc: KubeConfig) {
    forall c :: c in kc.contexts ==> HasKey(ClusterName, kc.clusters, c.cluster) && HasKey(UserName, kc.users, c.user)
  }

  /** A rewritten file is closed exactly when it has no context, or a cluster and a user. */
  lemma RewrittenClosedIff(raw: KubeConfig, clusterName: string, vip: string, kc: KubeConfig)
    requires Rewritten(raw, clusterName, vip, kc)
    ensures Closed(kc) <==> raw.contexts == [] || (raw.clusters != [] && raw.users != [])
  {
    if raw.clusters != [] {
      assert ClusterName(kc.clusters[0]) == clusterName;
    }
    if raw.users != [] {
      assert UserName(kc.users[0]) == AdminOf(clusterName);
    }
    if raw.contexts != [] {
      assert kc.contexts[0] in kc.contexts;
    }
  }

  /** Merging closed files gives a closed file. */
  lemma MergeKeepsClosed(fold: char -> char, base: KubeConfig, extra: KubeConfig)
    requires Closed(base) && Closed(extra)
    ensures Closed(Merged(fold, base, extra))
  {
    var merged := Merged(fold, base, extra);
    AppendNewClosed(ContextKey(fold), base.contexts, extra.contexts);
    FirstNewFrom(ContextKey(fold), base.contexts, extra.contexts);
    AppendNewClosed(UserName, base.users, extra.users);
    MergeClustersClosed(base.clusters, extra.clusters);
    forall c | c in merged.contexts
      ensures HasKey(ClusterName, merged.clusters, c.cluster) && HasKey(UserName, merged.users, c.user)
    {
      assert c in base.contexts || c in extra.contexts;
      ClosedKeys(base.clusters, extra.clusters, c.cluster);
      FirstNewKeys(UserName, base.users, extra.users, c.user);
    }
  }

  // --- rewriting, then merging ---

  lemma LatestRewritten(raw: KubeConfig, clusterName: string, vip: string, kc: KubeConfig, name: string)
    requires Rewritten(raw, clusterName, vip, kc)
    ensures Latest(kc.clusters, name).Some? <==> raw.clusters != [] && name == clusterName
    ensures Latest(kc.clusters, name).Some? ==> Latest(kc.clusters, name).value.server == ServerOf(vip)
  {
    LatestName(kc.clusters, name);
    if raw.clusters != [] {
      assert ClusterName(kc.clusters[0]) == clusterName;
    }
  }

  /** Where the clusters of the existing file end up: in place, those of the new name pointing at the VIP when the new file
      has a cluster at all, the others as they were. */
  lemma BaseClusters(fold: char -> char, base: KubeConfig, raw: KubeConfig, clusterName: string, vip: string,
                     kc: KubeConfig, i: nat)
    requires Rewritten(raw, clusterName, vip, kc) && i < |base.clusters|
    ensures var merged := Merged(fold, base, kc);
            && i < |merged.clusters| && merged.clusters[i].name == base.clusters[i].name
            && (base.clusters[i].name != clusterName ==> merged.clusters[i] == base.clusters[i])
            && (base.clusters[i].name == clusterName && raw.clusters != [] ==>
                  merged.clusters[i].server == "https://" + vip + ":6443")
  {
    MergeClustersClosed(base.clusters, kc.clusters);
    LatestRewritten(raw, clusterName, vip, kc, base.clusters[i].name);
    RefreshedName(kc.clusters, base.clusters[i]);
  }

  /** After rewriting and merging, every cluster of the new name points at the VIP, exactly when the new file has a cluster
      or the old entries of that name pointed there already. */
  lemma PointsAtVipIff(fold: char -> char, base: KubeConfig, raw: KubeConfig, clusterName: string, vip: string, kc: KubeConfig)
    requires Rewritten(raw, clusterName, vip, kc)
    ensures (forall c :: c in Merged(fold, base, kc).clusters && c.name == clusterName ==> c.server == "https://" + vip + ":6443") <==>
            raw.clusters != [] || (forall c :: c in base.clusters && c.name == clusterName ==> c.server == "https://" + vip + ":6443")
  {
    MergeClustersClosed(base.clusters, kc.clusters);
    var merged := Merged(fold, base, kc);
    if raw.clusters == [] {
      assert kc.clusters == [];
      assert merged.clusters == base.clusters;
    } else {
      var order := base.clusters + FirstNew(ClusterName, base.clusters, kc.clusters);
      forall i | 0 <= i < |order| && merged.clusters[i].name == clusterName ensures merged.clusters[i].server == ServerOf(vip) {
        RefreshedName(kc.clusters, order[i]);
        LatestRewritten(raw, clusterName, vip, kc, order[i].name);
      }
    }
  }

  /** Contexts and users of the existing file are never refreshed: they stay, in place, as the first entries. */
  lemma OldEntriesStay(fold: char -> char, base: KubeConfig, extra: KubeConfig)
    ensures var merged := Merged(fold, base, extra);
            && base.contexts <= merged.contexts && base.users <= merged.users
            && merged.currentContext == base.currentContext
  {
    AppendNewClosed(ContextKey(fold), base.contexts, extra.contexts);
    AppendNewClosed(UserName, base.users, extra.users);
  }

  ghost function FirstUser(users: seq<User>, name: string): Option<User> {
    if users == [] then None
    else if users[0].name == name then Some(users[0])
    else FirstUser(users[1..], name)
  }

  lemma {:induction false} FirstUserOf(users: seq<User>, more: seq<User>, name: string)
    ensures FirstUser(users, name).Some? <==> HasKey(UserName, users, name)
    ensures FirstUser(users + more, name) == if FirstUser(users, name).Some? then FirstUser(users, name) else FirstUser(more, name)
  {
    if users == [] {
      assert users + more == more;
    } else {
      assert (users + more)[1..] == users[1..] + more;
      assert users == [users[0]] + users[1..];
      HasKeyConcat(UserName, [users[0]], users[1..], name);
      assert UserName([users[0]][0]) == users[0].name;
      FirstUserOf(users[1..], more, name);
    }
  }

  // Entries that all have the key k are new exactly when the base has no entry of that key.
  lemma {:induction false} NewContext<T>(key: T -> string, base: seq<T>, extra: seq<T>, k: string)
    requires forall e :: e in extra ==> key(e) == k
    ensures FirstNew(key, base, extra) != [] <==> extra != [] && !HasKey(key, base, k)
  {
    if extra == [] {
    } else {
      var rest, e := extra[..|extra| - 1], extra[|extra| - 1];
      NewContext(key, base, rest, k);
      HasKeyConcat(key, base, rest, k);
      assert e in extra;
    }
  }

  ghost predicate HasContext(kc: KubeConfig, name: string) {
    exists c :: c in kc.contexts && c.name == name
  }

  /** The context of the new name is in the merged file exactly when the existing file had it, or the new file has one and
      the existing file has none that differs only by case. */
  lemma NewContextIff(fold: char -> char, base: KubeConfig, raw: KubeConfig, clusterName: string, vip: string, kc: KubeConfig)
    requires Rewritten(raw, clusterName, vip, kc)
    ensures HasContext(Merged(fold, base, kc), clusterName) <==>
            HasContext(base, clusterName)
            || (raw.contexts != [] && forall c :: c in base.contexts ==> !EqualFold(fold, c.name, clusterName))
  {
    var key := ContextKey(fold);
    AppendNewClosed(key, base.contexts, kc.contexts);
    FirstNewFrom(key, base.contexts, kc.contexts);
    var news := FirstNew(key, base.contexts, kc.contexts);
    NewContext(key, base.contexts, kc.contexts, Folded(fold, clusterName));
    if raw.contexts != [] && !HasKey(key, base.contexts, Folded(fold, clusterName)) {
      assert news[0] in Merged(fold, base, kc).contexts;
    }
  }

  /** The credentials a client of the merged file finds under the new user name: the old ones if there were any. */
  lemma CredentialsUsed(fold: char -> char, base: KubeConfig, raw: KubeConfig, clusterName: string, vip: string, kc: KubeConfig)
    requires Rewritten(raw, clusterName, vip, kc)
    ensures var found := FirstUser(Merged(fold, base, kc).users, clusterName + "-admin");
            found == if HasKey(UserName, base.users, clusterName + "-admin") then FirstUser(base.users, clusterName + "-admin")
                     else if raw.users == [] then None
                     else Some(User(clusterName + "-admin", raw.users[0].credentials))
  {
    var name := AdminOf(clusterName);
    AppendNewClosed(UserName, base.users, kc.users);
    FirstUserOf(base.users, FirstNew(UserName, base.users, kc.users), name);
    if !HasKey(UserName, base.users, name) {
      OnlyFirstNew(base.users, kc.users, name);
    }
  }

  // Of new users that all have one name, the first is appended.
  lemma {:induction false} OnlyFirstNew(base: seq<User>, extra: seq<User>, name: string)
    requires !HasKey(UserName, base, name)
    requires forall i :: 0 <= i < |extra| ==> extra[i].name == name
    ensures FirstNew(UserName, base, extra) == if extra == [] then [] else [extra[0]]
  {
    if extra == [] {
    } else {
      var rest := extra[..|extra| - 1];
      OnlyFirstNew(base, rest, name);
      HasKeyConcat(UserName, base, rest, name);
      if rest != [] {
        assert UserName(rest[0]) == name;
      }
    }
  }

  // Merging a rewritten file leaves the credentials under every other user name alone.
  lemma OtherUserKept(fold: char -> char, base: KubeConfig, raw: KubeConfig, clusterName: string, vip: string, kc: KubeConfig,
                      name: string)
    requires Rewritten(raw, clusterName, vip, kc) && name != clusterName + "-admin"
    ensures FirstUser(Merged(fold, base, kc).users, name) == FirstUser(base.users, name)
  {
    var news := FirstNew(UserName, base.users, kc.users);
    AppendNewClosed(UserName, base.users, kc.users);
    FirstUserOf(base.users, news, name);
    FirstNewFrom(UserName, base.users, kc.users);
    NoSuchUser(news, name);
  }

  lemma {:induction false} NoSuchUser(users: seq<User>, name: string)
    requires forall u :: u in users ==> u.name != name
    ensures FirstUser(users, name) == None
  {
    if users == [] {
    } else {
      NoSuchUser(users[1..], name);
    }
  }

  lemma {:induction false} NotFirst(users: seq<User>, name: string)
    ensures FirstUser(users, name).None? <==> !HasKey(UserName, users, name)
  {
    FirstUserOf(users, [], name);
    assert users + [] == users;
  }

  /** Two clusters merged one after the other each keep their own credentials. */
  lemma TwoClusters(fold: char -> char, base: KubeConfig, raw1: KubeConfig, name1: string, vip1: string, kc1: KubeConfig,
                    raw2: KubeConfig, name2: string, vip2: string, kc2: KubeConfig)
    requires Rewritten(raw1, name1, vip1, kc1) && Rewritten(raw2, name2, vip2, kc2) && name1 != name2
    requires raw1.users != [] && raw2.users != []
    requires !HasKey(UserName, base.users, name1 + "-admin") && !HasKey(UserName, base.users, name2 + "-admin")
    ensures var users := Merged(fold, Merged(fold, base, kc1), kc2).users;
            && FirstUser(users, name1 + "-admin") == Some(User(name1 + "-admin", raw1.users[0].credentials))
            && FirstUser(users, name2 + "-admin") == Some(User(name2 + "-admin", raw2.users[0].credentials))
  {
    var once := Merged(fold, base, kc1);
    TextsInjective(name1, name2);
    CredentialsUsed(fold, base, raw1, name1, vip1, kc1);
    OtherUserKept(fold, base, raw1, name1, vip1, kc1, name2 + "-admin");
    NotFirst(base.users, name2 + "-admin");
    NotFirst(once.users, name2 + "-admin");
    CredentialsUsed(fold, once, raw2, name2, vip2, kc2);
    OtherUserKept(fold, once, raw2, name2, vip2, kc2, name1 + "-admin");
  }

  /** Contexts whose names differ by case only count as one: if the existing file has one for each new one, none is added. */
  lemma OneUpToCase(fold: char -> char, base: KubeConfig, extra: KubeConfig)
    requires forall e :: e in extra.contexts ==>
               exists c :: c in base.contexts && |c.name| == |e.name|
                           && forall i :: 0 <= i < |c.name| ==> fold(c.name[i]) == fold(e.name[i])
    ensures Merged(fold, base, extra).contexts == base.contexts
  {
    var key := ContextKey(fold);
    forall i | 0 <= i < |extra.contexts| ensures HasKey(key, base.contexts, key(extra.contexts[i])) {
      var e := extra.contexts[i];
      assert e in extra.contexts;
      var c :| c in base.contexts && |c.name| == |e.name| && forall i :: 0 <= i < |c.name| ==> fold(c.name[i]) == fold(e.name[i]);
      EqualFoldIff(fold, c.name, e.name);
      var j :| 0 <= j < |base.contexts| && base.contexts[j] == c;
      assert key(base.contexts[j]) == key(e);
    }
    NothingNew(key, base.contexts, extra.contexts);
    AppendNewClosed(key, base.contexts, extra.contexts);
  }
}
