/** A JavaScript `Map`: entries in insertion order, where setting an existing key keeps its place. */
module JsMaps {
  import opened Texts

  datatype Item<K, V> = Item(key: K, value: V)

  type JsMap<K, V> = seq<Item<K, V>>

  predicate Distinct<K(==), V>(m: JsMap<K, V>) {
    forall i, j :: 0 <= i < j < |m| ==> m[i].key != m[j].key
  }

  function Keys<K(==), V(==)>(m: JsMap<K, V>): set<K> {
    set x | x in m :: x.key
  }

  function Get<K(==), V>(m: JsMap<K, V>, k: K): Option<V> {
    if m == [] then None else if m[0].key == k then Some(m[0].value) else Get(m[1..], k)
  }

  function Put<K(==), V>(m: JsMap<K, V>, k: K, v: V): JsMap<K, V> {
    if m == [] then [Item(k, v)]
    else if m[0].key == k then [Item(k, v)] + m[1..]
    else [m[0]] + Put(m[1..], k, v)
  }

  function Delete<K(==), V>(m: JsMap<K, V>, k: K): JsMap<K, V> {
    if m == [] then [] else if m[0].key == k then m[1..] else [m[0]] + Delete(m[1..], k)
  }

  /**
   The sweep loops of the stores: walk the entries in order, delete those that expired, and stop
   after `budget` deletions.
   */
  function Sweep<K, V>(m: JsMap<K, V>, expired: V -> bool, budget: nat): JsMap<K, V> {
    if m == [] || budget == 0 then m
    else if expired(m[0].value) then Sweep(m[1..], expired, budget - 1)
    else [m[0]] + Sweep(m[1..], expired, budget)
  }

  // ----- Facts -----

  lemma DistinctTail<K(!new), V(!new)>(m: JsMap<K, V>)
    requires Distinct(m) && m != []
    ensures Distinct(m[1..]) && forall x | x in m[1..] :: x.key != m[0].key
    ensures m == [m[0]] + m[1..]
  {
  }

  lemma DistinctCons<K(!new), V(!new)>(x: Item<K, V>, m: JsMap<K, V>)
    requires Distinct(m) && forall y | y in m :: y.key != x.key
    ensures Distinct([x] + m)
  {
  }

  lemma {:induction false} GetIs<K(!new), V(!new)>(m: JsMap<K, V>, k: K)
    requires Distinct(m)
    ensures Get(m, k).None? <==> forall x | x in m :: x.key != k
    ensures forall v :: Item(k, v) in m <==> Get(m, k) == Some(v)
  {
    if m != [] {
      DistinctTail(m);
      GetIs(m[1..], k);
      if m[0].key == k {
        assert m[0] == Item(k, m[0].value);
      }
    }
  }

  lemma {:induction false} PutIs<K(!new), V(!new)>(m: JsMap<K, V>, k: K, v: V)
    requires Distinct(m)
    ensures Distinct(Put(m, k, v))
    ensures forall x :: x in Put(m, k, v) <==> x == Item(k, v) || (x in m && x.key != k)
    ensures |Put(m, k, v)| == |m| + if Get(m, k).Some? then 0 else 1
  {
    if m != [] {
      DistinctTail(m);
      if m[0].key == k {
        DistinctCons(Item(k, v), m[1..]);
      } else {
        PutIs(m[1..], k, v);
        forall y | y in Put(m[1..], k, v) ensures y.key != m[0].key {
          assert y == Item(k, v) || y in m[1..];
        }
        DistinctCons(m[0], Put(m[1..], k, v));
      }
    }
  }

  /** The keys in the order in which the map enumerates them. */
  function KeyOrder<K, V>(m: JsMap<K, V>): seq<K> {
    seq(|m|, i requires 0 <= i < |m| => m[i].key)
  }

  /** Setting an existing key keeps its place; a new key goes last. */
  lemma {:induction false} PutKeepsPlaces<K(!new), V(!new)>(m: JsMap<K, V>, k: K, v: V)
    requires Distinct(m)
    ensures KeyOrder(Put(m, k, v)) == if k in KeyOrder(m) then KeyOrder(m) else KeyOrder(m) + [k]
  {
    if m != [] {
      DistinctTail(m);
      assert KeyOrder(m) == [m[0].key] + KeyOrder(m[1..]);
      if m[0].key == k {
        assert KeyOrder([Item(k, v)] + m[1..]) == [k] + KeyOrder(m[1..]);
      } else {
        PutKeepsPlaces(m[1..], k, v);
        assert KeyOrder([m[0]] + Put(m[1..], k, v)) == [m[0].key] + KeyOrder(Put(m[1..], k, v));
      }
    }
  }

  /** Deleting a key leaves the others in their order. */
  lemma {:induction false} DeleteKeepsOrder<K(!new), V(!new)>(m: JsMap<K, V>, k: K)
    requires Distinct(m)
    ensures k !in KeyOrder(m) ==> Delete(m, k) == m
    ensures forall i | 0 <= i < |m| && m[i].key == k :: Delete(m, k) == m[..i] + m[i + 1..]
  {
    if m != [] {
      DistinctTail(m);
      assert KeyOrder(m) == [m[0].key] + KeyOrder(m[1..]);
      if m[0].key != k {
        DeleteKeepsOrder(m[1..], k);
        forall i | 0 <= i < |m| && m[i].key == k ensures Delete(m, k) == m[..i] + m[i + 1..] {
          assert m[1..][i - 1].key == k && m[1..][..i - 1] == m[1..i] && m[1..][i..] == m[i + 1..];
        }
      }
    }
  }

  lemma {:induction false} DeleteIs<K(!new), V(!new)>(m: JsMap<K, V>, k: K)
    requires Distinct(m)
    ensures Distinct(Delete(m, k))
    ensures forall x :: x in Delete(m, k) <==> x in m && x.key != k
    ensures |Delete(m, k)| == |m| - if Get(m, k).Some? then 1 else 0
  {
    if m != [] {
      DistinctTail(m);
      if m[0].key != k {
        DeleteIs(m[1..], k);
        forall y | y in Delete(m[1..], k) ensures y.key != m[0].key {
          assert y in m[1..];
        }
        DistinctCons(m[0], Delete(m[1..], k));
      }
    }
  }

  /** A sweep deletes expired entries only; if it deletes none, or fewer than its budget, none is left. */
  lemma {:induction false} SweepIs<K(!new), V(!new)>(m: JsMap<K, V>, expired: V -> bool, budget: nat)
    requires Distinct(m)
    ensures Distinct(Sweep(m, expired, budget))
    ensures forall x | x in Sweep(m, expired, budget) :: x in m
    ensures forall x | x in m && !expired(x.value) :: x in Sweep(m, expired, budget)
    ensures |m| - budget <= |Sweep(m, expired, budget)| <= |m|
    ensures |Sweep(m, expired, budget)| > |m| - budget ==> forall x | x in Sweep(m, expired, budget) :: !expired(x.value)
  {
    if m != [] && budget > 0 {
      DistinctTail(m);
      if expired(m[0].value) {
        SweepIs(m[1..], expired, budget - 1);
      } else {
        SweepIs(m[1..], expired, budget);
        DistinctCons(m[0], Sweep(m[1..], expired, budget));
      }
    }
  }

  /** How many entries have expired. */
  function Lapses<K, V>(m: JsMap<K, V>, expired: V -> bool): (n: nat)
    ensures n <= |m|
  {
    if m == [] then 0 else (if expired(m[0].value) then 1 else 0) + Lapses(m[1..], expired)
  }

  /** A sweep deletes as many expired entries as its budget allows. */
  lemma {:induction false} SweepDeletes<K(!new), V(!new)>(m: JsMap<K, V>, expired: V -> bool, budget: nat)
    ensures |Sweep(m, expired, budget)| == |m| - if Lapses(m, expired) < budget then Lapses(m, expired) else budget
  {
    if m != [] && budget > 0 {
      SweepDeletes(m[1..], expired, if expired(m[0].value) then budget - 1 else budget);
    }
  }

  lemma {:induction false} SameLapses<K(!new), V(!new)>(m: JsMap<K, V>, p: V -> bool, q: V -> bool)
    requires forall v :: p(v) == q(v)
    ensures Lapses(m, p) == Lapses(m, q)
  {
    if m != [] {
      SameLapses(m[1..], p, q);
    }
  }

  /** One round of a sweep loop at position `i`: an expired entry is cut out, another one is passed. */
  lemma SweepRound<K, V>(m: JsMap<K, V>, i: nat, expired: V -> bool, budget: nat)
    requires i < |m| && budget > 0
    ensures var cut := m[..i] + m[i + 1..];
      m[..i] + Sweep(m[i..], expired, budget) ==
      if expired(m[i].value) then cut[..i] + Sweep(cut[i..], expired, budget - 1) else m[..i + 1] + Sweep(m[i + 1..], expired, budget)
  {
    var rest, cut := m[i..], m[..i] + m[i + 1..];
    assert rest[0] == m[i] && rest[1..] == m[i + 1..];
    assert cut[..i] == m[..i] && cut[i..] == m[i + 1..];
    assert m[..i + 1] == m[..i] + [m[i]];
  }

  /** Distinct entries are as many as their keys. */
  lemma {:induction false} SizeIsKeys<K(!new), V(!new)>(m: JsMap<K, V>)
    requires Distinct(m)
    ensures |m| == |Keys(m)|
  {
    if m != [] {
      DistinctTail(m);
      SizeIsKeys(m[1..]);
      assert Keys(m) == {m[0].key} + Keys(m[1..]);
    }
  }

  lemma SubsetSize<T>(a: set<T>, b: set<T>)
    requires a <= b
    ensures |a| <= |b|
    ensures a != b ==> |a| < |b|
  {
    assert b == a + (b - a);
  }
}
