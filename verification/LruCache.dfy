/** The least-recently-used cache of src/utils/lru_cache.hpp: a list of nodes, most recent first, and
    a map from each key to its node in the list. */
module LruCaches {
  import opened Wrappers

  // ---------------------------------------------------------------- the recency list as a value

  /** Keys and values, most recently used first. */
  type Entries<K, V> = seq<(K, V)>

  ghost function Find<K, V>(e: Entries<K, V>, k: K): Option<V> {
    if e == [] then None else if e[0].0 == k then Some(e[0].1) else Find(e[1..], k)
  }

  ghost function Without<K, V>(e: Entries<K, V>, k: K): Entries<K, V> {
    if e == [] then []
    else if e[0].0 == k then Without(e[1..], k)
    else [e[0]] + Without(e[1..], k)
  }

  ghost function Touched<K, V>(e: Entries<K, V>, k: K): Entries<K, V> {
    var v := Find(e, k);
    if v.None? then e else [(k, v.value)] + Without(e, k)
  }

  ghost function Inserted<K, V>(e: Entries<K, V>, k: K, v: V, maxSize: Option<nat>): Entries<K, V> {
    if Find(e, k).Some? then e else Cut([(k, v)] + e, maxSize)
  }

  ghost function Stored<K, V>(e: Entries<K, V>, k: K, v: V, maxSize: Option<nat>): Entries<K, V> {
    if Find(e, k).Some? then [(k, v)] + Without(e, k) else Cut([(k, v)] + e, maxSize)
  }

  ghost predicate UniqueKeys<K, V>(e: Entries<K, V>) {
    forall i, j :: 0 <= i < j < |e| ==> e[i].0 != e[j].0
  }

  // ---------------------------------------------------------------- the cache

  /** A list node. A reference to it is what the source hands out as a reference to the value. */
  class Node<K, V> {
    const key: K
    var value: V

    constructor (key: K, value: V)
      ensures this.key == key && this.value == value
    {
      this.key := key;
      this.value := value;
    }
  }

  ghost function Contents<K, V>(nodes: seq<Node<K, V>>): (e: Entries<K, V>)
    reads nodes
    ensures |e| == |nodes|
    ensures forall i :: 0 <= i < |nodes| ==> e[i] == (nodes[i].key, nodes[i].value)
  {
    if nodes == [] then [] else [(nodes[0].key, nodes[0].value)] + Contents(nodes[1..])
  }

  function Unlinked<K(==), V>(nodes: seq<Node<K, V>>, n: Node<K, V>): (r: seq<Node<K, V>>)
    ensures forall x | x in r :: x in nodes && x != n
    ensures forall x | x in nodes && x != n :: x in r
    ensures |r| <= |nodes|
  {
    if nodes == [] then []
    else if nodes[0] == n then Unlinked(nodes[1..], n)
    else [nodes[0]] + Unlinked(nodes[1..], n)
  }

  ghost predicate HasUniqueKeys<K, V>(nodes: seq<Node<K, V>>) {
    forall i, j :: 0 <= i < j < |nodes| ==> nodes[i].key != nodes[j].key
  }

  /** The map's keys are exactly the list's, each maps to the node of its own key, and no key is listed twice. */
  ghost predicate Linked<K, V>(lru: seq<Node<K, V>>, nodeOf: map<K, Node<K, V>>) {
    && (forall n :: n in lru ==> n.key in nodeOf && nodeOf[n.key] == n)
    && (forall k :: k in nodeOf ==> nodeOf[k] in lru && nodeOf[k].key == k)
    && HasUniqueKeys(lru)
  }

  /** Some node has the key. */
  ghost predicate Lists<K, V>(nodes: seq<Node<K, V>>, key: K) {
    exists i :: 0 <= i < |nodes| && nodes[i].key == key
  }

  /** The node of the key has moved to the front, past the ones before it. */
  ghost predicate IsMoved<K, V>(before: seq<Node<K, V>>, key: K, nodes: seq<Node<K, V>>) {
    exists i :: 0 <= i < |before| && before[i].key == key && nodes == [before[i]] + before[..i] + before[i + 1..]
  }

  lemma {:induction false} UnlinkedAt<K, V>(nodes: seq<Node<K, V>>, n: Node<K, V>, i: nat)
    requires i < |nodes| && nodes[i] == n && HasUniqueKeys(nodes)
    ensures Unlinked(nodes, n) == nodes[..i] + nodes[i + 1..]
  {
    if i == 0 {
      UnlinkedElsewhere(nodes[1..], n);
    } else {
      UnlinkedAt(nodes[1..], n, i - 1);
      assert nodes[..i] + nodes[i + 1..] == [nodes[0]] + (nodes[1..][..i - 1] + nodes[1..][i..]);
    }
  }

  lemma IsMovedByUnlinking<K, V>(nodes: seq<Node<K, V>>, n: Node<K, V>)
    requires n in nodes && HasUniqueKeys(nodes)
    ensures IsMoved(nodes, n.key, [n] + Unlinked(nodes, n))
  {
    var i :| 0 <= i < |nodes| && nodes[i] == n;
    UnlinkedAt(nodes, n, i);
    assert [n] + (nodes[..i] + nodes[i + 1..]) == [n] + nodes[..i] + nodes[i + 1..];
  }

  lemma LinkedAfterTouch<K, V>(lru: seq<Node<K, V>>, nodeOf: map<K, Node<K, V>>, n: Node<K, V>)
    requires Linked(lru, nodeOf) && n in lru
    ensures var r := [n] + Unlinked(lru, n);
            && Linked(r, nodeOf) && multiset(r) == multiset(lru) && |r| == |lru|
            && Contents(r) == Touched(Contents(lru), n.key)
  {
    hide Unlinked, Without, Find;
    UnlinkedContents(lru, n);
    UnlinkedMembers(lru, n);
    UnlinkedOrder(lru, n);
    var r := [n] + Unlinked(lru, n);
    assert r[1..] == Unlinked(lru, n);
    SameMembers(r, lru);
    hide Contents;
    LinkedReordered(lru, nodeOf, n, Unlinked(lru, n));
  }

  lemma LinkedReordered<K, V>(lru: seq<Node<K, V>>, nodeOf: map<K, Node<K, V>>, n: Node<K, V>, others: seq<Node<K, V>>)
    requires Linked(lru, nodeOf) && n in lru && n !in others
    requires forall x :: x in [n] + others <==> x in lru
    requires HasUniqueKeys(others)
    ensures Linked([n] + others, nodeOf)
  {
    var r := [n] + others;
    forall i, j | 0 <= i < j < |r|
      ensures r[i].key != r[j].key
    {
      assert r[j] in lru && r[j] == others[j - 1];
      assert i > 0 ==> r[i] == others[i - 1];
    }
  }

  lemma SameMembers<T>(r: seq<T>, s: seq<T>)
    requires multiset(r) == multiset(s)
    ensures |r| == |s| && forall x :: x in r <==> x in s
  {
    assert |multiset(r)| == |multiset(s)|;
    forall x
      ensures x in r <==> x in s
    {
      assert x in multiset(r) <==> x in multiset(s);
    }
  }

  lemma LinkedAfterPush<K, V>(lru: seq<Node<K, V>>, nodeOf: map<K, Node<K, V>>, n: Node<K, V>)
    requires Linked(lru, nodeOf) && n.key !in nodeOf
    ensures Linked([n] + lru, nodeOf[n.key := n])
    ensures Contents([n] + lru) == [(n.key, n.value)] + Contents(lru)
  {
    var r := [n] + lru;
    assert r[1..] == lru;
    forall i, j | 0 <= i < j < |r|
      ensures r[i].key != r[j].key
    {
      assert r[j] in lru;
      assert i > 0 ==> r[i] in lru;
    }
  }

  lemma LinkedAfterPop<K, V>(lru: seq<Node<K, V>>, nodeOf: map<K, Node<K, V>>)
    requires Linked(lru, nodeOf) && lru != []
    ensures Linked(lru[..|lru| - 1], nodeOf - {lru[|lru| - 1].key})
  {
    var r, last := lru[..|lru| - 1], lru[|lru| - 1];
    forall n | n in r
      ensures n.key in nodeOf && nodeOf[n.key] == n && n.key != last.key
    {
      var i :| 0 <= i < |r| && r[i] == n;
      assert lru[i] == n && n in lru;
    }
    forall k | k in nodeOf && k != last.key
      ensures nodeOf[k] in r
    {
      var i :| 0 <= i < |lru| && lru[i] == nodeOf[k];
      assert i < |r| && r[i] == nodeOf[k];
    }
  }

  lemma NodeIsFirst<K, V>(lru: seq<Node<K, V>>, nodeOf: map<K, Node<K, V>>, n: Node<K, V>)
    requires Linked(lru, nodeOf) && lru != [] && lru[0] == n
    ensures forall i :: 0 < i < |lru| ==> lru[i] != n
  {
  }

  lemma FirstAndStart<T>(s: seq<T>, t: seq<T>)
    requires s != [] && s[1..] <= t
    ensures forall x | x in s :: x == s[0] || x in t
  {
    assert s == [s[0]] + s[1..];
  }

  lemma FirstRewritten<T>(s: seq<T>, t: seq<T>, x: T)
    requires |s| == |t| > 0 && t[0] == x && forall i :: 0 < i < |s| ==> t[i] == s[i]
    ensures t == [x] + s[1..]
  {
  }

  lemma KeyIsFound<K, V>(lru: seq<Node<K, V>>, nodeOf: map<K, Node<K, V>>, key: K)
    requires Linked(lru, nodeOf)
    ensures Find(Contents(lru), key).Some? <==> key in nodeOf
    ensures key in nodeOf ==> nodeOf[key] in lru && nodeOf[key].key == key
    ensures Lists(lru, key) <==> key in nodeOf
  {
    FindInContents(lru, key);
    if key in nodeOf {
      var i :| 0 <= i < |lru| && lru[i] == nodeOf[key];
    }
  }

  datatype VerifyFailed = VerifyFailed

  class LruCache<K(==), V> {
    var lru: seq<Node<K, V>>
    var nodeOf: map<K, Node<K, V>>
    var maxSize: Option<nat>

    ghost predicate Valid()
      reads this
    {
      Linked(lru, nodeOf) && (maxSize.Some? ==> 0 < maxSize.value && |lru| <= maxSize.value)
    }

    ghost function Recency(): Entries<K, V>
      reads this, lru
    {
      Contents(lru)
    }

    constructor (maxSize: Option<nat>)
      requires maxSize.Some? ==> maxSize.value > 0
      ensures Valid() && Recency() == [] && this.maxSize == maxSize
    {
      lru := [];
      nodeOf := map[];
      this.maxSize := maxSize;
    }

    method SetMaxSize(size: Option<nat>) returns (r: Result<(), VerifyFailed>)
      requires Valid()
      modifies this
      ensures Valid() && lru <= old(lru)
      ensures r.Err? <==> size == Some(0)
      ensures r.Err? ==> maxSize == old(maxSize) && lru == old(lru)
      ensures r.Ok? ==> maxSize == size && Recency() == Cut(old(Recency()), size)
    {
      if size.Some? && !(size.value > 0) {
        return Err(VerifyFailed);
      }
      maxSize := size;
      MaybeTrim();
      return Ok(());
    }

    method MaybeTouch(key: K)
      requires Valid()
      modifies this
      ensures Valid() && maxSize == old(maxSize) && multiset(lru) == multiset(old(lru))
      ensures Recency() == Touched(old(Recency()), key)
      ensures if Lists(old(lru), key) then IsMoved(old(lru), key, lru) else lru == old(lru)
    {
      hide Linked, Contents, Find, Without;
      KeyIsFound(lru, nodeOf, key);
      if key !in nodeOf {
        return;
      }
      Touch(nodeOf[key]);
    }

    /** A reference to the value, whose key is now the most recent one. */
    method MaybeGet(key: K) returns (r: Option<Node<K, V>>)
      requires Valid()
      modifies this
      ensures Valid() && maxSize == old(maxSize) && multiset(lru) == multiset(old(lru))
      ensures Recency() == Touched(old(Recency()), key)
      ensures if Lists(old(lru), key) then IsMoved(old(lru), key, lru) else lru == old(lru)
      ensures r.Some? <==> Lists(old(lru), key)
      ensures r.Some? <==> Find(old(Recency()), key).Some?
      ensures r.Some? ==> lru != [] && r.value == lru[0] && r.value.key == key
    {
      hide Linked, Contents, Find, Without;
      KeyIsFound(lru, nodeOf, key);
      if key !in nodeOf {
        return None;
      }
      Touch(nodeOf[key]);
      return Some(nodeOf[key]);
    }

    method Set(key: K, value: V)
      requires Valid()
      modifies this, lru
      ensures Valid() && maxSize == old(maxSize) && forall n | n in lru :: n in old(lru) || fresh(n)
      ensures Recency() == Stored(old(Recency()), key, value, maxSize)
      ensures lru != [] && lru[0].key == key && lru[0].value == value
      ensures if Lists(old(lru), key) then IsMoved(old(lru), key, lru)
              else fresh(lru[0]) && lru[1..] <= old(lru) && |lru| == Fitting(|old(lru)| + 1, maxSize)
      ensures forall n | n in old(lru) && n.key != key :: n.value == old(n.value)
    {
      hide Linked, Contents, Unlinked, Find, Without, Lists, IsMoved;
      KeyIsFound(lru, nodeOf, key);
      if key !in nodeOf {
        var _ := Insert(key, value);
        FirstAndStart(lru, old(lru));
      } else {
        var node := nodeOf[key];
        Touch(node);
        NodeIsFirst(lru, nodeOf, node);
        SameMembers(lru, old(lru));
        ghost var entries := Recency();
        node.value := value;
        FirstRewritten(entries, Recency(), (key, value));
      }
    }

    /** Does nothing when the key is there. Otherwise the new entry is the first, and stays: only keys
        at the other end are trimmed. */
    method Insert(key: K, value: V) returns (r: Option<Node<K, V>>)
      requires Valid()
      modifies this
      ensures Valid() && maxSize == old(maxSize)
      ensures Recency() == Inserted(old(Recency()), key, value, maxSize)
      ensures r.Some? <==> Find(old(Recency()), key).None?
      ensures r.None? <==> Lists(old(lru), key)
      ensures r.None? ==> lru == old(lru)
      ensures r.Some? ==> lru != [] && lru[0] == r.value && fresh(r.value) && lru[1..] <= old(lru)
      ensures r.Some? ==> r.value.key == key && r.value.value == value && |lru| == Fitting(|old(lru)| + 1, maxSize)
    {
      hide Linked, Contents, Unlinked, Touched, Find, Without;
      KeyIsFound(lru, nodeOf, key);
      if key in nodeOf {
        return None;
      }
      var node := new Node(key, value);
      LinkedAfterPush(lru, nodeOf, node);
      assert Recency() == old(Recency());
      ghost var entries := Contents([node] + lru);
      nodeOf := nodeOf[key := node];
      lru := [node] + lru;
      assert Recency() == entries;
      MaybeTrim();
      return Some(lru[0]);
    }

    method Size() returns (n: nat)
      ensures n == |Recency()|
    {
      n := |lru|;
    }

    method Touch(node: Node<K, V>)
      requires Valid() && node in lru
      modifies this
      ensures Valid() && maxSize == old(maxSize) && nodeOf == old(nodeOf) && multiset(lru) == multiset(old(lru))
      ensures lru != [] && lru[0] == node && IsMoved(old(lru), node.key, lru)
      ensures Recency() == Touched(old(Recency()), node.key)
    {
      hide Contents, Unlinked, Touched, Find, Without, IsMoved;
      IsMovedByUnlinking(lru, node);
      hide Linked;
      LinkedAfterTouch(lru, nodeOf, node);
      ghost var entries := Contents([node] + Unlinked(lru, node));
      lru := [node] + Unlinked(lru, node);
      assert Recency() == entries;
    }

    method MaybeTrim()
      requires Linked(lru, nodeOf) && (maxSize.Some? ==> 0 < maxSize.value)
      modifies this
      ensures Valid() && maxSize == old(maxSize)
      ensures lru == Cut(old(lru), maxSize) && Recency() == Cut(old(Recency()), maxSize)
    {
      hide Linked, Contents, Unlinked, Touched, Find, Without;
      while maxSize.Some? && |lru| > maxSize.value
        invariant maxSize == old(maxSize) && Linked(lru, nodeOf)
        invariant Cut(lru, maxSize) == Cut(old(lru), maxSize)
        decreases |lru|
      {
        LinkedAfterPop(lru, nodeOf);
        var toRemove := lru[|lru| - 1];
        nodeOf := nodeOf - {toRemove.key};
        lru := lru[..|lru| - 1];
      }
    }
  }

  /** How many of n nodes a cache keeps. */
  ghost function Fitting(n: nat, maxSize: Option<nat>): nat {
    if maxSize.Some? && maxSize.value < n then maxSize.value else n
  }

  ghost function Cut<T>(s: seq<T>, maxSize: Option<nat>): seq<T> {
    if maxSize.Some? && |s| > maxSize.value then s[..maxSize.value] else s
  }

  lemma {:induction false} FindInContents<K, V>(nodes: seq<Node<K, V>>, key: K)
    ensures Find(Contents(nodes), key).Some? <==> exists n :: n in nodes && n.key == key
  {
    if nodes != [] {
      FindInContents(nodes[1..], key);
      assert Contents(nodes)[1..] == Contents(nodes[1..]);
    }
  }

  lemma {:induction false} UnlinkedContents<K, V>(nodes: seq<Node<K, V>>, n: Node<K, V>)
    requires n in nodes
    requires HasUniqueKeys(nodes)
    ensures Contents(Unlinked(nodes, n)) == Without(Contents(nodes), n.key)
    ensures Find(Contents(nodes), n.key) == Some(n.value)
  {
    var e := Contents(nodes);
    assert e[1..] == Contents(nodes[1..]);
    if nodes[0] == n {
      UnlinkedElsewhere(nodes[1..], n);
    } else {
      UnlinkedContents(nodes[1..], n);
      var r := Unlinked(nodes, n);
      assert r[1..] == Unlinked(nodes[1..], n);
    }
  }

  lemma {:induction false} UnlinkedElsewhere<K, V>(nodes: seq<Node<K, V>>, n: Node<K, V>)
    requires forall i :: 0 <= i < |nodes| ==> nodes[i].key != n.key
    ensures Unlinked(nodes, n) == nodes && Without(Contents(nodes), n.key) == Contents(nodes)
  {
    if nodes != [] {
      UnlinkedElsewhere(nodes[1..], n);
      assert Contents(nodes)[1..] == Contents(nodes[1..]);
    }
  }

  lemma {:induction false} UnlinkedMembers<K, V>(nodes: seq<Node<K, V>>, n: Node<K, V>)
    requires forall i, j :: 0 <= i < j < |nodes| ==> nodes[i] != nodes[j]
    ensures var r := Unlinked(nodes, n);
            (n in nodes ==> multiset([n] + r) == multiset(nodes)) && (n !in nodes ==> r == nodes)
  {
    if nodes != [] {
      UnlinkedMembers(nodes[1..], n);
      assert nodes == [nodes[0]] + nodes[1..];
    }
  }

  lemma {:induction false} UnlinkedOrder<K, V>(nodes: seq<Node<K, V>>, n: Node<K, V>)
    requires HasUniqueKeys(nodes)
    ensures HasUniqueKeys(Unlinked(nodes, n))
  {
    if nodes != [] {
      UnlinkedOrder(nodes[1..], n);
      var r := Unlinked(nodes[1..], n);
      forall j | 0 <= j < |r|
        ensures r[j].key != nodes[0].key
      {
        assert r[j] in nodes[1..];
      }
    }
  }
}
