/** Two facts about finite maps and sets. */
module Collections {

  lemma SameMap<K, V>(m: map<K, V>, n: map<K, V>)
    requires forall k :: k in m ==> k in n && n[k] == m[k]
    requires forall k :: k in n ==> k in m
    ensures n == m
  {
    assert n.Keys == m.Keys;
  }

  lemma UpperBound(s: set<nat>) returns (b: nat)
    ensures forall x :: x in s ==> x < b
  {
    b := 0;
    if s != {} {
      var e :| e in s;
      var rest := UpperBound(s - {e});
      b := if rest <= e then e + 1 else rest;
      forall x | x in s ensures x < b {
        assert x == e || x in s - {e};
      }
    }
  }
}
