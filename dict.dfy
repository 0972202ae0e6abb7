/** Python dictionaries as the modelled code uses them: insertion-ordered association
    lists, where storing under an existing key replaces its value in place. */
module Dict {
  import opened Maybe

  function Keys<K, V>(d: seq<(K, V)>): (r: seq<K>)
    ensures |r| == |d| && forall j :: 0 <= j < |d| ==> r[j] == d[j].0
  {
    seq(|d|, j requires 0 <= j < |d| => d[j].0)
  }

  function Lookup<K(==), V>(d: seq<(K, V)>, k: K): Option<V> {
    if d == [] then None
    else if d[0].0 == k then Some(d[0].1)
    else Lookup(d[1..], k)
  }

  /** `d[k] = v`. */
  function Put<K(==), V>(d: seq<(K, V)>, k: K, v: V): (r: seq<(K, V)>)
    ensures |r| == |d| || |r| == |d| + 1
    ensures r != []
  {
    if d == [] then [(k, v)]
    else if d[0].0 == k then [(k, v)] + d[1..]
    else [d[0]] + Put(d[1..], k, v)
  }

  /** After `d[k] = v`, `d[k]` is `v`. */
  lemma {:induction false} PutLookup<K, V>(d: seq<(K, V)>, k: K, v: V)
    ensures Lookup(Put(d, k, v), k) == Some(v)
  {
    if d != [] && d[0].0 != k {
      PutLookup(d[1..], k, v);
    }
  }

  /** `d[k] = v` leaves every other key's value alone. */
  lemma {:induction false} PutOther<K, V>(d: seq<(K, V)>, k: K, v: V, k': K)
    requires k' != k
    ensures Lookup(Put(d, k, v), k') == Lookup(d, k')
  {
    if d != [] && d[0].0 != k {
      PutOther(d[1..], k, v, k');
    }
  }

  /** A new key goes to the end; an existing key keeps its place. */
  lemma {:induction false} PutKeys<K, V>(d: seq<(K, V)>, k: K, v: V)
    ensures k in Keys(d) ==> Keys(Put(d, k, v)) == Keys(d)
    ensures k !in Keys(d) ==> Keys(Put(d, k, v)) == Keys(d) + [k]
  {
    if d != [] && d[0].0 != k {
      PutKeys(d[1..], k, v);
      assert Keys(d) == [d[0].0] + Keys(d[1..]);
    } else if d != [] {
      assert Keys(d) == [k] + Keys(d[1..]);
    }
  }

  /** A key has a value exactly when it is among the keys. */
  lemma {:induction false} LookupKeys<K, V>(d: seq<(K, V)>, k: K)
    ensures Lookup(d, k).Some? <==> k in Keys(d)
  {
    if d != [] {
      assert Keys(d) == [d[0].0] + Keys(d[1..]);
      LookupKeys(d[1..], k);
    }
  }
}
