/** The tag strings that carry a VM's cluster, role and pool (provider.go). */
module Tags {
  import opened Text

  datatype Role = Master | Worker {
    function Text(): string {
      if Master? then "master" else "worker"
    }
  }

  const CLUSTER_KEY := "k3s-cluster="
  const ROLE_KEY := "k3s-role="
  const POOL_KEY := "k3s-pool="

  function ClusterTag(cluster: string): string {
    CLUSTER_KEY + cluster
  }

  function BuildTags(cluster: string, role: Role, pool: string): string {
    ClusterTag(cluster) + ";" + (ROLE_KEY + role.Text() + ";" + (POOL_KEY + pool))
  }

  predicate AnyTrimmed(parts: seq<string>, tag: string) {
    parts != [] && (Trim(parts[0]) == tag || AnyTrimmed(parts[1..], tag))
  }

  predicate HasTag(tags: string, tag: string) {
    AnyTrimmed(Split(tags, ';'), tag)
  }

  function FirstWithKey(parts: seq<string>, key: string): string {
    if parts == [] then ""
    else
      var t := Trim(parts[0]);
      if key <= t then t[|key|..] else FirstWithKey(parts[1..], key)
  }

  // Here key includes the '=' sign.
  function ExtractTag(tags: string, key: string): string {
    FirstWithKey(Split(tags, ';'), key)
  }

  // --- properties ---

  // The tags as they stand on a VM.
  lemma TagText(cluster: string, role: Role, pool: string)
    ensures BuildTags(cluster, role, pool) ==
            "k3s-cluster=" + cluster + ";k3s-role=" + (if role == Master then "master" else "worker") + ";k3s-pool=" + pool
  {
    Regroup(ClusterTag(cluster) + ";", ROLE_KEY + role.Text() + ";", POOL_KEY + pool);
    assert ";k3s-role=" == ";" + ROLE_KEY && ";k3s-pool=" == ";" + POOL_KEY;
  }

  lemma {:induction false} AnyTrimmedIff(parts: seq<string>, tag: string)
    ensures AnyTrimmed(parts, tag) <==> exists i :: 0 <= i < |parts| && Trim(parts[i]) == tag
  {
    if parts == [] {
    } else {
      AnyTrimmedIff(parts[1..], tag);
      if AnyTrimmed(parts[1..], tag) {
        var i :| 0 <= i < |parts[1..]| && Trim(parts[1..][i]) == tag;
        assert Trim(parts[i + 1]) == tag;
      }
      if i :| 0 < i < |parts| && Trim(parts[i]) == tag {
        assert Trim(parts[1..][i - 1]) == tag;
      }
    }
  }

  /** The cluster name a listing can find again: no ';' and no trailing white space. */
  predicate CleanName(name: string) {
    ';' !in name && !EndsInSpace(name)
  }

  // A leading part, up to the ';', is looked at first.
  lemma PeelTag(part: string, rest: string, tag: string)
    requires ';' !in part
    ensures HasTag(part + ";" + rest, tag) <==> Trim(part) == tag || HasTag(rest, tag)
    ensures HasTag(part, tag) <==> Trim(part) == tag
  {
    SplitFirst(part, ';', rest);
    SplitWhole(part, ';');
    assert ([part] + Split(rest, ';'))[1..] == Split(rest, ';');
    assert [part][1..] == [];
    assert !AnyTrimmed([part][1..], tag);
    assert AnyTrimmed([part], tag) <==> Trim(part) == tag;
  }

  lemma PeelThree(c: string, r: string, p: string, rest: string, tag: string)
    requires ';' !in c && ';' !in r && ';' !in p
    ensures HasTag(c + ";" + (r + ";" + (p + ";" + rest)), tag)
            <==> tag == Trim(c) || tag == Trim(r) || tag == Trim(p) || HasTag(rest, tag)
  {
    PeelTag(c, r + ";" + (p + ";" + rest), tag);
    PeelTag(r, p + ";" + rest, tag);
    PeelTag(p, rest, tag);
  }

  lemma ExtractWhole(part: string, key: string)
    requires ';' !in part && key <= Trim(part)
    ensures ExtractTag(part, key) == Trim(part)[|key|..]
  {
    SplitWhole(part, ';');
  }

  lemma ExtractThird(c: string, r: string, p: string, key: string)
    requires ';' !in c && ';' !in r && ';' !in p
    requires !(key <= Trim(c)) && !(key <= Trim(r)) && key <= Trim(p)
    ensures ExtractTag(c + ";" + (r + ";" + p), key) == Trim(p)[|key|..]
  {
    PeelKey(c, r + ";" + p, key);
    PeelKey(r, p, key);
    ExtractWhole(p, key);
  }

  lemma AfterKey(key: string, text: string)
    ensures key <= key + text && (key + text)[|key|..] == text
  {
  }

  lemma Regroup(a: string, b: string, c: string)
    ensures a + (b + c) == (a + b) + c
  {
  }

  lemma PeelKey(part: string, rest: string, key: string)
    requires ';' !in part && !(key <= Trim(part))
    ensures ExtractTag(part + ";" + rest, key) == ExtractTag(rest, key)
  {
    SplitFirst(part, ';', rest);
    assert ([part] + Split(rest, ';'))[1..] == Split(rest, ';');
  }

  // What the three printed parts become when they are trimmed.
  lemma TrimmedParts(cluster: string, role: Role, pool: string)
    ensures Trim(ClusterTag(cluster)) == ClusterTag(TrimRight(cluster))
    ensures Trim(ROLE_KEY + role.Text()) == ROLE_KEY + role.Text()
    ensures Trim(POOL_KEY + pool) == POOL_KEY + TrimRight(pool)
  {
    TrimAfter(CLUSTER_KEY, cluster);
    TrimAfter(ROLE_KEY, role.Text());
    TrimAfter(POOL_KEY, pool);
    TrimRightResult(role.Text());
  }

  // Keys of different kinds are told apart by their fifth character.
  lemma KeysDiffer(a: string, b: string)
    ensures ClusterTag(a) != ROLE_KEY + b && ClusterTag(a) != POOL_KEY + b && ROLE_KEY + a != POOL_KEY + b
    ensures !(POOL_KEY <= ClusterTag(a)) && !(POOL_KEY <= ROLE_KEY + a)
  {
    assert ClusterTag(a)[4] == 'c' && (ROLE_KEY + a)[4] == 'r' && (POOL_KEY + b)[4] == 'p';
    assert (ROLE_KEY + b)[4] == 'r' && POOL_KEY[4] == 'p';
  }

  lemma ClusterTagInjective(a: string, b: string)
    ensures ClusterTag(a) == ClusterTag(b) <==> a == b
  {
    assert ClusterTag(a)[|CLUSTER_KEY|..] == a && ClusterTag(b)[|CLUSTER_KEY|..] == b;
  }

  // The parts of a printed tag string, one match at a time.
  lemma PrintedMatches(cluster: string, role: Role, pool: string, tag: string)
    requires ';' !in cluster && ';' !in pool
    ensures HasTag(BuildTags(cluster, role, pool), tag)
            <==> tag == ClusterTag(TrimRight(cluster)) || tag == ROLE_KEY + role.Text() || tag == POOL_KEY + TrimRight(pool)
  {
    hide Trim, TrimRight, HasTag;
    TrimmedParts(cluster, role, pool);
    PeelTag(ClusterTag(cluster), ROLE_KEY + role.Text() + ";" + (POOL_KEY + pool), tag);
    PeelTag(ROLE_KEY + role.Text(), POOL_KEY + pool, tag);
    PeelTag(POOL_KEY + pool, "", tag);
  }

  /** Printing then matching the cluster tag: the printed name comes back without its trailing white space. */
  lemma ClusterRoundTrip(cluster: string, role: Role, pool: string, other: string)
    requires ';' !in cluster && ';' !in pool
    ensures HasTag(BuildTags(cluster, role, pool), ClusterTag(other)) <==> other == TrimRight(cluster)
  {
    hide TrimRight, HasTag, BuildTags;
    PrintedMatches(cluster, role, pool, ClusterTag(other));
    ClusterTagInjective(other, TrimRight(cluster));
    KeysDiffer(other, role.Text());
    KeysDiffer(other, TrimRight(pool));
  }

  /** Printing then matching the master tag tells the two roles apart. */
  lemma RoleRoundTrip(cluster: string, role: Role, pool: string)
    requires ';' !in cluster && ';' !in pool
    ensures HasTag(BuildTags(cluster, role, pool), ROLE_KEY + "master") <==> role == Master
  {
    hide TrimRight, HasTag, BuildTags;
    PrintedMatches(cluster, role, pool, ROLE_KEY + "master");
    KeysDiffer(TrimRight(cluster), "master");
    KeysDiffer("master", TrimRight(pool));
    assert (ROLE_KEY + role.Text())[|ROLE_KEY|] == (if role.Master? then 'm' else 'w');
    assert (ROLE_KEY + "master")[|ROLE_KEY|] == 'm';
  }

  /** Printing then extracting the pool: the pool comes back without its trailing white space. */
  lemma PoolRoundTrip(cluster: string, role: Role, pool: string)
    requires ';' !in cluster && ';' !in pool
    ensures ExtractTag(BuildTags(cluster, role, pool), POOL_KEY) == TrimRight(pool)
  {
    hide Trim, TrimRight, ExtractTag;
    TrimmedParts(cluster, role, pool);
    KeysDiffer(TrimRight(cluster), "");
    KeysDiffer(role.Text(), "");
    AfterKey(POOL_KEY, TrimRight(pool));
    ExtractThird(ClusterTag(cluster), ROLE_KEY + role.Text(), POOL_KEY + pool, POOL_KEY);
  }

  /** A pool name with a ';' adds whatever tags follow it, so it can name a second cluster. */
  lemma PoolAddsTags(cluster: string, role: Role, pool: string, more: string, other: string)
    requires ';' !in cluster && ';' !in pool
    ensures HasTag(BuildTags(cluster, role, pool + ";" + more), ClusterTag(other))
            <==> other == TrimRight(cluster) || HasTag(more, ClusterTag(other))
  {
    hide Trim, TrimRight, HasTag;
    var tag := ClusterTag(other);
    TrimmedParts(cluster, role, pool);
    Regroup(POOL_KEY, pool, ";" + more);
    Regroup(pool, ";", more);
    Regroup(POOL_KEY + pool, ";", more);
    PeelThree(ClusterTag(cluster), ROLE_KEY + role.Text(), POOL_KEY + pool, more, tag);
    ClusterTagInjective(other, TrimRight(cluster));
    KeysDiffer(other, role.Text());
    KeysDiffer(other, TrimRight(pool));
  }

  // A tag that a listing matches has no ';' and does not end in white space.
  lemma MatchedTag(tags: string, tag: string)
    requires HasTag(tags, tag)
    ensures ';' !in tag && !EndsInSpace(tag)
  {
    var parts := Split(tags, ';');
    AnyTrimmedIff(parts, tag);
    var i :| 0 <= i < |parts| && Trim(parts[i]) == tag;
    SplitParts(tags, ';');
    assert parts[i] in parts;
    TrimKeeps(parts[i], ';');
    TrimRightResult(TrimLeft(parts[i]));
  }

  // A VM is found again under its own cluster name exactly when that name is clean.
  lemma FoundAgainIff(cluster: string, role: Role, pool: string)
    ensures HasTag(BuildTags(cluster, role, pool), ClusterTag(cluster)) <==> CleanName(cluster)
  {
    var tags, tag := BuildTags(cluster, role, pool), ClusterTag(cluster);
    if HasTag(tags, tag) {
      MatchedTag(tags, tag);
      assert cluster == tag[|CLUSTER_KEY|..];
    }
    if CleanName(cluster) {
      PeelTag(tag, ROLE_KEY + role.Text() + ";" + (POOL_KEY + pool), tag);
      TrimmedParts(cluster, role, pool);
      TrimRightResult(cluster);
    }
  }
}
