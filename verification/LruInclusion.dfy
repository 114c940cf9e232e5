/** Capacity only cuts the tail: the inclusion property of least-recently-used caches. */
module LruInclusion {
  import opened Wrappers
  import opened LruCaches

  /** One use of a cache: get, and insert what the key stands for on a miss. */
  ghost function Used<K, V>(e: Entries<K, V>, k: K, load: K -> V, maxSize: Option<nat>): Entries<K, V> {
    if Find(e, k).Some? then Touched(e, k) else Inserted(e, k, load(k), maxSize)
  }

  ghost function Run<K, V>(keys: seq<K>, load: K -> V, maxSize: Option<nat>): Entries<K, V> {
    if keys == [] then [] else Used(Run(keys[..|keys| - 1], load, maxSize), keys[|keys| - 1], load, maxSize)
  }

  ghost predicate Loaded<K, V>(e: Entries<K, V>, load: K -> V) {
    forall i :: 0 <= i < |e| ==> e[i].1 == load(e[i].0)
  }

  lemma {:induction false} FindIsMembership<K, V>(e: Entries<K, V>, k: K)
    ensures Find(e, k).Some? <==> exists i :: 0 <= i < |e| && e[i].0 == k
    ensures Find(e, k).Some? ==> exists i :: 0 <= i < |e| && e[i] == (k, Find(e, k).value)
  {
    if e != [] && e[0].0 != k {
      FindIsMembership(e[1..], k);
      if Find(e, k).Some? {
        var i :| 0 <= i < |e[1..]| && e[1..][i] == (k, Find(e, k).value);
        assert e[i + 1] == (k, Find(e, k).value);
      }
      if i :| 0 <= i < |e| && e[i].0 == k {
        assert e[1..][i - 1].0 == k;
      }
    } else if e != [] {
      assert e[0] == (k, Find(e, k).value);
    }
  }

  lemma {:induction false} WithoutAbsent<K, V>(e: Entries<K, V>, k: K)
    requires forall i :: 0 <= i < |e| ==> e[i].0 != k
    ensures Find(e, k).None? && Without(e, k) == e
  {
    if e != [] {
      WithoutAbsent(e[1..], k);
    }
  }

  lemma {:induction false} WithoutPresent<K, V>(e: Entries<K, V>, k: K, i: nat)
    requires UniqueKeys(e) && i < |e| && e[i].0 == k
    ensures Find(e, k) == Some(e[i].1) && Without(e, k) == e[..i] + e[i + 1..]
  {
    if i == 0 {
      WithoutAbsent(e[1..], k);
    } else {
      assert e[1..][i - 1] == e[i];
      WithoutPresent(e[1..], k, i - 1);
      assert e[..i] + e[i + 1..] == [e[0]] + (e[1..][..i - 1] + e[1..][i..]);
    }
  }

  lemma {:induction false} RunIsWellFormed<K, V>(keys: seq<K>, load: K -> V, maxSize: Option<nat>)
    requires maxSize.Some? ==> maxSize.value > 0
    ensures UniqueKeys(Run(keys, load, maxSize)) && Loaded(Run(keys, load, maxSize), load)
    ensures forall i :: 0 <= i < |Run(keys, load, maxSize)| ==> Run(keys, load, maxSize)[i].0 in keys
  {
    if keys != [] {
      var before, k := Run(keys[..|keys| - 1], load, maxSize), keys[|keys| - 1];
      RunIsWellFormed(keys[..|keys| - 1], load, maxSize);
      FindIsMembership(before, k);
      WithoutIsSubset(before, k);
      var w := Without(before, k);
      forall i | 0 <= i < |w|
        ensures w[i].1 == load(w[i].0) && w[i].0 in keys
      {
        var j :| 0 <= j < |before| && before[j] == w[i];
      }
    }
  }

  lemma {:induction false} WithoutIsSubset<K, V>(e: Entries<K, V>, k: K)
    requires UniqueKeys(e)
    ensures UniqueKeys(Without(e, k))
    ensures forall i :: 0 <= i < |Without(e, k)| ==> Without(e, k)[i] in e && Without(e, k)[i].0 != k
  {
    if e != [] {
      assert UniqueKeys(e[1..]);
      WithoutIsSubset(e[1..], k);
    }
  }

  ghost function Prefix<K, V>(e: Entries<K, V>, n: nat): Entries<K, V> {
    if |e| <= n then e else e[..n]
  }

  /** A cache of capacity c holds the first c entries of the unbounded cache, after any accesses. */
  lemma {:induction false} CapacityIsPrefix<K, V>(keys: seq<K>, load: K -> V, c: nat)
    requires c > 0
    ensures Run(keys, load, Some(c)) == Prefix(Run(keys, load, None), c)
  {
    if keys != [] {
      var shorter, k := keys[..|keys| - 1], keys[|keys| - 1];
      CapacityIsPrefix(shorter, load, c);
      RunIsWellFormed(shorter, load, None);
      var whole := Run(shorter, load, None);
      var n := if |whole| <= c then |whole| else c;
      assert whole[..|whole|] == whole;
      assert Prefix(whole, c) == whole[..n];
      UsePrefix(whole, n, k, load, c);
    }
  }

  lemma UsePrefix<K, V>(whole: Entries<K, V>, n: nat, k: K, load: K -> V, c: nat)
    requires UniqueKeys(whole) && Loaded(whole, load) && c > 0
    requires n == (if |whole| <= c then |whole| else c)
    ensures Used(whole[..n], k, load, Some(c)) == Prefix(Used(whole, k, load, None), c)
  {
    hide Find, Without;
    if i :| 0 <= i < |whole| && whole[i].0 == k {
      UsePresent(whole, n, k, i, load, c);
    } else {
      UseAbsent(whole, n, k, load, c);
    }
  }

  lemma UsePresent<K, V>(whole: Entries<K, V>, n: nat, k: K, i: nat, load: K -> V, c: nat)
    requires UniqueKeys(whole) && Loaded(whole, load) && c > 0 && i < |whole| && whole[i].0 == k
    requires n == (if |whole| <= c then |whole| else c)
    ensures Used(whole[..n], k, load, Some(c)) == Prefix(Used(whole, k, load, None), c)
  {
    hide Find, Without;
    var first, w := [(k, load(k))], whole[..i] + whole[i + 1..];
    WithoutPresent(whole, k, i);
    if i < n {
      WithoutPresent(whole[..n], k, i);
      Removed(whole, i, n);
    } else {
      WithoutAbsent(whole[..n], k);
      Removed(whole, i, n);
    }
    assert (first + w)[..n] == first + w[..n - 1];
  }

  /** The start of a sequence without its element i. */
  lemma Removed<T>(s: seq<T>, i: nat, n: nat)
    requires i < |s| && 0 < n <= |s|
    ensures var w := s[..i] + s[i + 1..];
            w[..n - 1] == if i < n then s[..n][..i] + s[..n][i + 1..] else s[..n - 1]
  {
  }

  lemma UseAbsent<K, V>(whole: Entries<K, V>, n: nat, k: K, load: K -> V, c: nat)
    requires c > 0 && n == (if |whole| <= c then |whole| else c)
    requires forall i :: 0 <= i < |whole| ==> whole[i].0 != k
    ensures Used(whole[..n], k, load, Some(c)) == Prefix(Used(whole, k, load, None), c)
  {
    hide Find, Without;
    var first := [(k, load(k))];
    WithoutAbsent(whole, k);
    WithoutAbsent(whole[..n], k);
    if |whole| >= c {
      assert (first + whole[..n])[..c] == (first + whole)[..c];
    } else {
      assert whole[..n] == whole;
    }
  }

  /** A larger cache holds everything a smaller one does, so every hit stays a hit. */
  lemma LargerHoldsMore<K, V>(keys: seq<K>, load: K -> V, c: nat, d: nat)
    requires 0 < c <= d
    ensures Run(keys, load, Some(c)) == Prefix(Run(keys, load, Some(d)), c)
    ensures forall k :: Find(Run(keys, load, Some(c)), k).Some? ==> Find(Run(keys, load, Some(d)), k).Some?
  {
    CapacityIsPrefix(keys, load, c);
    CapacityIsPrefix(keys, load, d);
    var whole := Run(keys, load, None);
    var small, large := Prefix(whole, c), Prefix(whole, d);
    assert small == Prefix(large, c);
    forall k | Find(small, k).Some?
      ensures Find(large, k).Some?
    {
      FindIsMembership(small, k);
      FindIsMembership(large, k);
      var i :| 0 <= i < |small| && small[i].0 == k;
      assert large[i].0 == k;
    }
  }

  // ---------------------------------------------------------------- recency

  /** Position of the last access to k; -1 if there was none. */
  ghost function LastUse<K>(keys: seq<K>, k: K): int {
    if keys == [] then -1 else if keys[|keys| - 1] == k then |keys| - 1 else LastUse(keys[..|keys| - 1], k)
  }

  /** Without a limit the list holds exactly the keys accessed, latest access first. */
  lemma {:induction false} OrderIsRecency<K, V>(keys: seq<K>, load: K -> V)
    ensures var e := Run(keys, load, None);
            && (forall k :: k in keys <==> Find(e, k).Some?)
            && (forall i, j :: 0 <= i < j < |e| ==> LastUse(keys, e[i].0) > LastUse(keys, e[j].0))
  {
    hide Find, Used;
    if keys != [] {
      var shorter, last := keys[..|keys| - 1], keys[|keys| - 1];
      var before := Run(shorter, load, None);
      OrderIsRecency(shorter, load);
      RunIsWellFormed(shorter, load, None);
      KeysAfterUse(before, shorter, last, load);
      UsedComesFirst(before, shorter, last, load);
      assert keys == shorter + [last];
    } else {
      assert Run(keys, load, None) == [];
      NothingFound<K, V>();
    }
  }

  lemma NothingFound<K, V>()
    ensures forall k: K :: Find<K, V>([], k).None?
  {
  }

  lemma UsedComesFirst<K, V>(before: Entries<K, V>, keys: seq<K>, last: K, load: K -> V)
    requires Ordered(before, keys) && UniqueKeys(before)
    ensures Ordered(Used(before, last, load, None), keys + [last])
  {
    hide Without;
    var e, longer := Used(before, last, load, None), keys + [last];
    FindIsMembership(before, last);
    WithoutKeepsOrder(before, last, keys);
    WithoutIsSubset(before, last);
    var others := if Find(before, last).Some? then Without(before, last) else before;
    assert e == [(last, e[0].1)] + others;
    forall i | 0 <= i < |others|
      ensures LastUse(longer, others[i].0) == LastUse(keys, others[i].0) < LastUse(longer, last)
    {
      assert others[i].0 != last;
      OneMoreUse(keys, last, others[i].0);
    }
    OneMoreUse(keys, last, last);
  }

  lemma OneMoreUse<K>(keys: seq<K>, last: K, k: K)
    ensures LastUse(keys + [last], k) == if k == last then |keys| else LastUse(keys, k)
    ensures LastUse(keys, k) < |keys|
  {
    assert (keys + [last])[..|keys|] == keys;
    LastUseInRange(keys, k);
  }

  lemma KeysAfterUse<K, V>(e: Entries<K, V>, keys: seq<K>, last: K, load: K -> V)
    requires forall k :: k in keys <==> Find(e, k).Some?
    ensures forall k :: k in keys + [last] <==> Find(Used(e, last, load, None), k).Some?
  {
    hide Find, Used;
    forall k
      ensures k in keys + [last] <==> Find(Used(e, last, load, None), k).Some?
    {
      FindAfterUse(e, last, k, load);
    }
  }

  lemma {:induction false} LastUseInRange<K>(keys: seq<K>, k: K)
    ensures LastUse(keys, k) < |keys|
  {
    if keys != [] {
      LastUseInRange(keys[..|keys| - 1], k);
    }
  }

  lemma FindAfterUse<K, V>(e: Entries<K, V>, last: K, k: K, load: K -> V)
    ensures Find(Used(e, last, load, None), k).Some? <==> k == last || Find(e, k).Some?
  {
    FindWithout(e, last, k);
    var used := Used(e, last, load, None);
    assert used[0].0 == last;
    assert used[1..] == if Find(e, last).Some? then Without(e, last) else e;
  }

  lemma {:induction false} FindWithout<K, V>(e: Entries<K, V>, last: K, k: K)
    ensures Find(Without(e, last), k) == if k == last then None else Find(e, k)
  {
    if e != [] {
      FindWithout(e[1..], last, k);
    }
  }

  ghost predicate Ordered<K, V>(e: Entries<K, V>, keys: seq<K>) {
    forall i, j :: 0 <= i < j < |e| ==> LastUse(keys, e[i].0) > LastUse(keys, e[j].0)
  }

  lemma {:induction false} WithoutKeepsOrder<K, V>(e: Entries<K, V>, k: K, keys: seq<K>)
    requires Ordered(e, keys) && UniqueKeys(e)
    ensures Ordered(Without(e, k), keys)
  {
    if e != [] {
      assert Ordered(e[1..], keys) && UniqueKeys(e[1..]);
      WithoutKeepsOrder(e[1..], k, keys);
      WithoutIsSubset(e[1..], k);
      var w := Without(e[1..], k);
      forall i | 0 <= i < |w|
        ensures LastUse(keys, e[0].0) > LastUse(keys, w[i].0)
      {
        var j :| 0 <= j < |e[1..]| && e[1..][j] == w[i];
        assert e[j + 1] == w[i];
      }
    }
  }
}
