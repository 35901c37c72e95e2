/** The suffix trie (src/collections.rs): keys are label sequences read from their last
    element, every node owning a hash map of children. */
module Trie {
  import opened Dns

  datatype Node<K, V> = Node(value: Option<V>, children: map<K, Node<K, V>>)

  function Fresh<K, V>(): Node<K, V> {
    Node(None, map[])
  }

  function Child<K(==), V>(children: map<K, Node<K, V>>, k: K): Node<K, V> {
    if k in children then children[k] else Fresh()
  }

  /** The stored value, looked up from the last element of the key. */
  function Get<K(==), V>(n: Node<K, V>, key: seq<K>): Option<V>
    decreases |key|
  {
    if key == [] then n.value
    else if key[|key| - 1] in n.children then Get(n.children[key[|key| - 1]], key[..|key| - 1])
    else None
  }

  function Inserted<K(==), V>(n: Node<K, V>, key: seq<K>, v: V): Node<K, V>
    decreases |key|
  {
    if key == [] then n.(value := Some(v))
    else
      var last := key[|key| - 1];
      n.(children := n.children[last := Inserted(Child(n.children, last), key[..|key| - 1], v)])
  }

  lemma {:induction false} GetInserted<K, V>(n: Node<K, V>, key: seq<K>, v: V, q: seq<K>)
    ensures Get(Inserted(n, key, v), q) == if q == key then Some(v) else Get(n, q)
    decreases |key|
  {
    if key != [] && q != [] {
      var last := key[|key| - 1];
      assert q == q[..|q| - 1] + [q[|q| - 1]] && key == key[..|key| - 1] + [last];
      if q[|q| - 1] == last {
        GetInserted(Child(n.children, last), key[..|key| - 1], v, q[..|q| - 1]);
        assert last !in n.children ==> Get(Fresh<K, V>(), q[..|q| - 1]) == None;
      }
    }
  }

  // ---------------------------------------------------------------- counting

  ghost function Len<K(!new), V>(n: Node<K, V>): nat
    decreases n
  {
    (if n.value.Some? then 1 else 0) + SumLen(n, n.children.Keys)
  }

  ghost function SumLen<K(!new), V>(n: Node<K, V>, keys: set<K>): nat
    requires keys <= n.children.Keys
    decreases n, |keys|
  {
    if keys == {} then 0
    else
      var k :| k in keys;
      Len(n.children[k]) + SumLen(n, keys - {k})
  }

  lemma {:induction false} SumLenWithout<K(!new), V>(n: Node<K, V>, keys: set<K>, k: K)
    requires keys <= n.children.Keys && k in keys
    ensures SumLen(n, keys) == Len(n.children[k]) + SumLen(n, keys - {k})
    decreases |keys|
  {
    var j :| j in keys && SumLen(n, keys) == Len(n.children[j]) + SumLen(n, keys - {j});
    if j != k {
      SumLenWithout(n, keys - {j}, k);
      SumLenWithout(n, keys - {k}, j);
      assert keys - {j} - {k} == keys - {k} - {j};
    }
  }

  lemma {:induction false} SumLenSame<K(!new), V>(a: Node<K, V>, b: Node<K, V>, keys: set<K>)
    requires keys <= a.children.Keys && keys <= b.children.Keys
    requires forall k :: k in keys ==> a.children[k] == b.children[k]
    ensures SumLen(a, keys) == SumLen(b, keys)
    decreases |keys|
  {
    if keys != {} {
      var k :| k in keys;
      SumLenWithout(a, keys, k);
      SumLenWithout(b, keys, k);
      SumLenSame(a, b, keys - {k});
    }
  }

  lemma FreshEmpty<K(!new), V>(key: seq<K>)
    ensures Len(Fresh<K, V>()) == 0 && Get(Fresh<K, V>(), key) == None
  {
  }

  /** Replacing one child changes the total by that child alone. */
  lemma LenWithChild<K(!new), V>(n: Node<K, V>, k: K, c: Node<K, V>)
    ensures Len(n.(children := n.children[k := c])) + Len(Child(n.children, k)) == Len(n) + Len(c)
  {
    var m := n.(children := n.children[k := c]);
    var others := n.children.Keys - {k};
    assert m.children.Keys - {k} == others;
    SumLenWithout(m, m.children.Keys, k);
    SumLenSame(m, n, others);
    if k in n.children {
      SumLenWithout(n, n.children.Keys, k);
    } else {
      assert others == n.children.Keys;
      FreshEmpty<K, V>([]);
    }
  }

  /** The count goes up by one exactly when the key was not stored. */
  lemma {:induction false} LenInserted<K(!new), V>(n: Node<K, V>, key: seq<K>, v: V)
    ensures Len(Inserted(n, key, v)) == Len(n) + (if Get(n, key).None? then 1 else 0)
    decreases |key|
  {
    if key == [] {
      SumLenSame(Inserted(n, key, v), n, n.children.Keys);
    } else {
      var last, init := key[|key| - 1], key[..|key| - 1];
      LenInserted(Child(n.children, last), init, v);
      LenWithChild(n, last, Inserted(Child(n.children, last), init, v));
      FreshEmpty<K, V>(init);
    }
  }

  // ---------------------------------------------------------------- the object

  method InsertNode<K(==), V>(n: Node<K, V>, key: seq<K>, v: V) returns (out: Node<K, V>, previous: Option<V>)
    ensures out == Inserted(n, key, v) && previous == Get(n, key)
    decreases |key|
  {
    if |key| == 0 {
      return n.(value := Some(v)), n.value;
    }
    var last := key[|key| - 1];
    var child := Child(n.children, last);
    FreshGet<K, V>(key[..|key| - 1]);
    var grown, old_ := InsertNode(child, key[..|key| - 1], v);
    return n.(children := n.children[last := grown]), old_;
  }

  lemma FreshGet<K, V>(key: seq<K>)
    ensures Get(Fresh<K, V>(), key) == None
  {
  }

  class TrieMap<K(==), V> {
    var roots: map<K, Node<K, V>>

    /** The whole trie as one node without a value of its own. */
    function Root(): Node<K, V>
      reads this
    {
      Node(None, roots)
    }

    constructor ()
      ensures roots == map[]
    {
      roots := map[];
    }

    /** The empty key is not stored: it is answered as if it had replaced itself. */
    method Insert(key: seq<K>, v: V) returns (previous: Option<V>)
      modifies this
      ensures key != [] ==> Root() == Inserted(old(Root()), key, v) && previous == Get(old(Root()), key)
      ensures key == [] ==> Root() == old(Root()) && previous == Some(v)
    {
      if |key| == 0 {
        return Some(v);
      }
      var last := key[|key| - 1];
      FreshGet<K, V>(key[..|key| - 1]);
      var grown, old_ := InsertNode(Child(roots, last), key[..|key| - 1], v);
      roots := roots[last := grown];
      return old_;
    }

    method Lookup(key: seq<K>) returns (r: Option<V>)
      ensures r == Get(Root(), key)
    {
      if |key| == 0 || key[|key| - 1] !in roots {
        return None;
      }
      return Get(roots[key[|key| - 1]], key[..|key| - 1]);
    }
  }

  // ---------------------------------------------------------------- histories

  /** The trie after a sequence of insertions. */
  function Filled<K(==), V>(h: seq<(seq<K>, V)>): Node<K, V> {
    if h == [] then Fresh()
    else
      var n := Filled(h[..|h| - 1]);
      var (key, v) := h[|h| - 1];
      if key == [] then n else Inserted(n, key, v)
  }

  /** A plain map built from the same insertions. */
  function Table<K(==), V>(h: seq<(seq<K>, V)>): map<seq<K>, V> {
    if h == [] then map[] else Table(h[..|h| - 1])[h[|h| - 1].0 := h[|h| - 1].1]
  }

  /** The trie answers like a map exactly on the non-empty keys: for the empty key it answers
      nothing, whatever was inserted. */
  lemma {:induction false} TrieIsMapExactly<K(!new), V>(h: seq<(seq<K>, V)>, q: seq<K>)
    ensures Get(Filled(h), q) == (if q in Table(h) then Some(Table(h)[q]) else None) <==> q != [] || q !in Table(h)
  {
    TrieAnswers(h, q);
  }

  lemma {:induction false} TrieAnswers<K(!new), V>(h: seq<(seq<K>, V)>, q: seq<K>)
    ensures Get(Filled(h), q) == if q != [] && q in Table(h) then Some(Table(h)[q]) else None
  {
    if h != [] {
      TrieAnswers(h[..|h| - 1], q);
      if h[|h| - 1].0 != [] {
        GetInserted(Filled(h[..|h| - 1]), h[|h| - 1].0, h[|h| - 1].1, q);
      }
    }
  }

  /** The trie counts each distinct non-empty key once. */
  lemma {:induction false} TrieCountsKeys<K(!new), V>(h: seq<(seq<K>, V)>)
    ensures Len(Filled(h)) == |Table(h).Keys - {[]}|
  {
    if h == [] {
      FreshEmpty<K, V>([]);
    } else {
      var init := h[..|h| - 1];
      var (key, v) := h[|h| - 1];
      TrieCountsKeys(init);
      TrieAnswers(init, key);
      if key == [] {
        assert Table(h).Keys - {[]} == Table(init).Keys - {[]};
      } else {
        LenInserted(Filled(init), key, v);
        assert Table(h).Keys - {[]} == (Table(init).Keys - {[]}) + {key};
      }
    }
  }
}
