/** One cache shard: the `lru` crate seen as a recency list, most recently used first.
    Looking an entry up for writing moves it to the front; a full list drops its last item
    to make room.  Iterating and peeking leave the order alone. */
module Lru {
  import opened Dns

  datatype Item<K, V> = Item(key: K, value: V)

  type Shard<K, V> = seq<Item<K, V>>

  ghost predicate Distinct<K, V>(s: Shard<K, V>) {
    forall i, j :: 0 <= i < j < |s| ==> s[i].key != s[j].key
  }

  /** Position of a key, or the length of the list. */
  function Find<K(==), V>(s: Shard<K, V>, k: K): (i: nat)
    ensures i <= |s|
    ensures i < |s| ==> s[i].key == k
    ensures forall j :: 0 <= j < i ==> s[j].key != k
  {
    if s == [] then 0 else if s[0].key == k then 0 else 1 + Find(s[1..], k)
  }

  predicate Has<K(==), V>(s: Shard<K, V>, k: K) {
    Find(s, k) < |s|
  }

  function Get<K(==), V>(s: Shard<K, V>, k: K): V
    requires Has(s, k)
  {
    s[Find(s, k)].value
  }

  /** The list without a key. */
  function Pop<K(==), V>(s: Shard<K, V>, k: K): Shard<K, V> {
    var i := Find(s, k);
    if i < |s| then s[..i] + s[i + 1..] else s
  }

  /** Write to an entry, if it is there, and make it the most recently used. */
  function Update<K(==), V>(s: Shard<K, V>, k: K, f: V -> V): Shard<K, V> {
    if Has(s, k) then [Item(k, f(Get(s, k)))] + Pop(s, k) else s
  }

  function Put<K(==), V>(s: Shard<K, V>, cap: nat, k: K, v: V): Shard<K, V> {
    if Has(s, k) then [Item(k, v)] + Pop(s, k)
    else if |s| >= cap && |s| > 0 then [Item(k, v)] + s[..|s| - 1]
    else [Item(k, v)] + s
  }

  // ---------------------------------------------------------------- laws

  lemma HasMember<K, V>(s: Shard<K, V>, k: K)
    ensures Has(s, k) <==> exists i :: 0 <= i < |s| && s[i].key == k
  {
    if Has(s, k) {
      assert s[Find(s, k)].key == k;
    }
  }

  lemma GetAt<K, V>(s: Shard<K, V>, i: nat)
    requires Distinct(s) && i < |s|
    ensures Find(s, s[i].key) == i && Has(s, s[i].key) && Get(s, s[i].key) == s[i].value
  {
  }

  lemma PopAt<K, V>(s: Shard<K, V>, k: K)
    ensures |Pop(s, k)| == if Has(s, k) then |s| - 1 else |s|
    ensures forall j :: 0 <= j < |Pop(s, k)| ==> Pop(s, k)[j] == if j < Find(s, k) then s[j] else s[j + 1]
  {
  }

  lemma PopDistinct<K, V>(s: Shard<K, V>, k: K)
    requires Distinct(s)
    ensures Distinct(Pop(s, k)) && !Has(Pop(s, k), k)
  {
    PopAt(s, k);
    HasMember(Pop(s, k), k);
  }

  lemma PopOther<K, V>(s: Shard<K, V>, k: K, q: K)
    requires Distinct(s) && q != k
    ensures Has(Pop(s, k), q) <==> Has(s, q)
    ensures Has(s, q) ==> Get(Pop(s, k), q) == Get(s, q)
  {
    var p, i, j := Pop(s, k), Find(s, k), Find(s, q);
    PopAt(s, k);
    PopDistinct(s, k);
    HasMember(p, q);
    HasMember(s, q);
    if j < |s| {
      GetAt(p, if j < i then j else j - 1);
    }
  }

  /** Removing a key removes that key and nothing else. */
  lemma PopLaws<K, V>(s: Shard<K, V>, k: K)
    requires Distinct(s)
    ensures Distinct(Pop(s, k)) && !Has(Pop(s, k), k)
    ensures |Pop(s, k)| == if Has(s, k) then |s| - 1 else |s|
    ensures forall q :: q != k ==> (Has(Pop(s, k), q) <==> Has(s, q)) && (Has(s, q) ==> Get(Pop(s, k), q) == Get(s, q))
  {
    PopAt(s, k);
    PopDistinct(s, k);
    forall q | q != k
      ensures (Has(Pop(s, k), q) <==> Has(s, q)) && (Has(s, q) ==> Get(Pop(s, k), q) == Get(s, q))
    {
      PopOther(s, k, q);
    }
  }

  /** A key in front of a list that does not hold it. */
  lemma ConsLaws<K, V>(s: Shard<K, V>, k: K, v: V)
    requires Distinct(s) && !Has(s, k)
    ensures Distinct([Item(k, v)] + s)
    ensures Has([Item(k, v)] + s, k) && Get([Item(k, v)] + s, k) == v
    ensures forall q :: q != k ==> (Has([Item(k, v)] + s, q) <==> Has(s, q))
                                   && (Has(s, q) ==> Get([Item(k, v)] + s, q) == Get(s, q))
  {
    HasMember(s, k);
    assert ([Item(k, v)] + s)[1..] == s;
  }

  lemma UpdateLaws<K, V>(s: Shard<K, V>, k: K, f: V -> V)
    requires Distinct(s)
    ensures Distinct(Update(s, k, f)) && |Update(s, k, f)| == |s|
    ensures forall q :: Has(Update(s, k, f), q) <==> Has(s, q)
    ensures forall q :: Has(s, q) ==> Get(Update(s, k, f), q) == if q == k then f(Get(s, q)) else Get(s, q)
  {
    if Has(s, k) {
      PopLaws(s, k);
      ConsLaws(Pop(s, k), k, f(Get(s, k)));
    }
  }

  lemma DropLastLaws<K, V>(s: Shard<K, V>)
    requires Distinct(s) && s != []
    ensures Distinct(s[..|s| - 1])
    ensures forall q :: Has(s[..|s| - 1], q) <==> Has(s, q) && q != s[|s| - 1].key
    ensures forall q :: Has(s[..|s| - 1], q) ==> Get(s[..|s| - 1], q) == Get(s, q)
  {
    var t := s[..|s| - 1];
    forall q ensures (Has(t, q) <==> Has(s, q) && q != s[|s| - 1].key) && (Has(t, q) ==> Get(t, q) == Get(s, q)) {
      HasMember(t, q);
      HasMember(s, q);
      if Has(t, q) {
        GetAt(s, Find(t, q));
      }
      if Has(s, q) && q != s[|s| - 1].key {
        assert t[Find(s, q)] == s[Find(s, q)];
      }
    }
  }

  /** The key a write pushes out, if any: the last item of a full list that lacks the key. */
  function Evicted<K(==), V>(s: Shard<K, V>, cap: nat, k: K): Option<K> {
    if !Has(s, k) && |s| >= cap && |s| > 0 then Some(s[|s| - 1].key) else None
  }

  /** A write is readable at once, keeps the bound and disturbs no other key but the evicted one. */
  lemma PutLaws<K, V>(s: Shard<K, V>, cap: nat, k: K, v: V)
    requires Distinct(s) && |s| <= cap && cap > 0
    ensures Distinct(Put(s, cap, k, v)) && |Put(s, cap, k, v)| <= cap
    ensures Has(Put(s, cap, k, v), k) && Get(Put(s, cap, k, v), k) == v
    ensures forall q :: q != k ==> (Has(Put(s, cap, k, v), q) <==> Has(s, q) && Evicted(s, cap, k) != Some(q))
    ensures forall q :: q != k && Has(Put(s, cap, k, v), q) ==> Get(Put(s, cap, k, v), q) == Get(s, q)
  {
    if Has(s, k) {
      PopLaws(s, k);
      ConsLaws(Pop(s, k), k, v);
    } else if |s| >= cap {
      DropLastLaws(s);
      ConsLaws(s[..|s| - 1], k, v);
    } else {
      ConsLaws(s, k, v);
    }
  }
}
