/** JavaScript's `Map` (and string-keyed object): keys keep the position of their first insertion. */
module OrderedMap {
  import opened Outcomes

  datatype Pair<+K, +V> = Pair(key: K, value: V)

  function Get<K(==), V>(m: seq<Pair<K, V>>, k: K): Option<V> {
    if m == [] then None
    else if m[0].key == k then Some(m[0].value)
    else Get(m[1..], k)
  }

  function Put<K(==), V>(m: seq<Pair<K, V>>, k: K, v: V): (r: seq<Pair<K, V>>) {
    if m == [] then [Pair(k, v)]
    else if m[0].key == k then [Pair(k, v)] + m[1..]
    else [m[0]] + Put(m[1..], k, v)
  }

  ghost predicate Distinct<K, V>(m: seq<Pair<K, V>>) {
    forall i, j | 0 <= i < j < |m| :: m[i].key != m[j].key
  }

  lemma {:induction false} GetPut<K, V>(m: seq<Pair<K, V>>, k: K, v: V, x: K)
    ensures Get(Put(m, k, v), x) == if x == k then Some(v) else Get(m, x)
  {
    if m != [] && m[0].key != k {
      GetPut(m[1..], k, v, x);
    }
  }

  lemma {:induction false} PutAt<K, V>(m: seq<Pair<K, V>>, k: K, v: V)
    requires Distinct(m)
    ensures Distinct(Put(m, k, v))
    ensures forall p | p in Put(m, k, v) :: p == Pair(k, v) || (p in m && p.key != k)
  {
    if m == [] {
    } else if m[0].key == k {
      var r := Put(m, k, v);
      assert forall i | 1 <= i < |r| :: r[i] == m[i];
    } else {
      PutAt(m[1..], k, v);
    }
  }

  lemma {:induction false} GetHere<K, V>(m: seq<Pair<K, V>>, i: nat)
    requires Distinct(m) && i < |m|
    ensures Get(m, m[i].key) == Some(m[i].value)
  {
    if i > 0 {
      GetHere(m[1..], i - 1);
    }
  }

  lemma {:induction false} GetFound<K, V>(m: seq<Pair<K, V>>, k: K) returns (i: nat)
    requires Get(m, k).Some?
    ensures i < |m| && m[i] == Pair(k, Get(m, k).value)
  {
    if m[0].key == k {
      i := 0;
    } else {
      i := GetFound(m[1..], k);
      i := i + 1;
    }
  }

  lemma GetMember<K, V>(m: seq<Pair<K, V>>, k: K, v: V)
    requires Distinct(m) && Pair(k, v) in m
    ensures Get(m, k) == Some(v)
  {
    var i :| 0 <= i < |m| && m[i] == Pair(k, v);
    GetHere(m, i);
  }

  lemma GetAbsent<K, V>(m: seq<Pair<K, V>>, k: K)
    requires forall p | p in m :: p.key != k
    ensures Get(m, k) == None
  {
    if Get(m, k).Some? { var i := GetFound(m, k); }
  }

  lemma {:induction false} GetAppend<K, V>(m: seq<Pair<K, V>>, n: seq<Pair<K, V>>, k: K)
    ensures Get(m + n, k) == if Get(m, k).Some? then Get(m, k) else Get(n, k)
  {
    if m == [] {
      assert m + n == n;
    } else {
      assert (m + n)[1..] == m[1..] + n;
      GetAppend(m[1..], n, k);
    }
  }

  /** Several writes, in order. */
  function PutAll<K(==), V>(m: seq<Pair<K, V>>, updates: seq<Pair<K, V>>): seq<Pair<K, V>> {
    if updates == [] then m
    else
      var last := updates[|updates| - 1];
      Put(PutAll(m, updates[..|updates| - 1]), last.key, last.value)
  }

  lemma {:induction false} GetPutAll<K, V>(m: seq<Pair<K, V>>, updates: seq<Pair<K, V>>, x: K)
    requires Distinct(updates)
    ensures Get(PutAll(m, updates), x) == if Get(updates, x).Some? then Get(updates, x) else Get(m, x)
  {
    if updates != [] {
      var n := |updates| - 1;
      GetPutAll(m, updates[..n], x);
      GetPut(PutAll(m, updates[..n]), updates[n].key, updates[n].value, x);
      GetAppend(updates[..n], [updates[n]], x);
      assert updates == updates[..n] + [updates[n]];
      if Get(updates[..n], x).Some? { var i := GetFound(updates[..n], x); }
    }
  }

  lemma {:induction false} PutAllMembers<K, V>(m: seq<Pair<K, V>>, updates: seq<Pair<K, V>>)
    requires Distinct(m)
    ensures Distinct(PutAll(m, updates))
    ensures forall p | p in PutAll(m, updates) :: p in m || p in updates
  {
    if updates != [] {
      var n := |updates| - 1;
      PutAllMembers(m, updates[..n]);
      PutAt(PutAll(m, updates[..n]), updates[n].key, updates[n].value);
    }
  }

  lemma PutAllAppend<K, V>(m: seq<Pair<K, V>>, updates: seq<Pair<K, V>>, k: K, v: V)
    ensures PutAll(m, updates + [Pair(k, v)]) == Put(PutAll(m, updates), k, v)
  {
    assert (updates + [Pair(k, v)])[..|updates|] == updates;
  }
}
