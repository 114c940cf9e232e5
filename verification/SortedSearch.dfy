/** The shared binary search of src/utils/utils.hpp, and sorting by a key as the lookup structures do it. */
module SortedSearch {
  import opened Wrappers

  ghost predicate Sorted(keys: seq<nat>) {
    forall i, j :: 0 <= i < j < |keys| ==> keys[i] <= keys[j]
  }

  /** The position of the last key that is at most value; none if every key is larger. */
  ghost predicate IsLastAtMost(keys: seq<nat>, value: nat, r: Option<nat>) {
    match r
    case None => forall j :: 0 <= j < |keys| ==> keys[j] > value
    case Some(i) => i < |keys| && keys[i] <= value && forall j :: i < j < |keys| ==> keys[j] > value
  }

  ghost function LastAtMost(keys: seq<nat>, value: nat): (r: Option<nat>)
    ensures IsLastAtMost(keys, value, r)
  {
    if keys == [] then None
    else
      var n := |keys| - 1;
      if keys[n] <= value then Some(n) else LastAtMost(keys[..n], value)
  }

  lemma LastAtMostIsUnique(keys: seq<nat>, value: nat, r: Option<nat>, r': Option<nat>)
    requires IsLastAtMost(keys, value, r) && IsLastAtMost(keys, value, r')
    ensures r == r'
  {
    if r.Some? && r'.Some? {
      assert !(r.value < r'.value) && !(r'.value < r.value);
    }
  }

  /** The first position whose key is larger than value, as std::upper_bound finds it. */
  method UpperBound(keys: seq<nat>, value: nat) returns (first: nat)
    requires Sorted(keys)
    ensures first <= |keys|
    ensures forall j :: 0 <= j < first ==> keys[j] <= value
    ensures forall j :: first <= j < |keys| ==> keys[j] > value
  {
    first := 0;
    var count := |keys|;
    while count > 0
      invariant 0 <= first <= first + count <= |keys|
      invariant forall j :: 0 <= j < first ==> keys[j] <= value
      invariant forall j :: first + count <= j < |keys| ==> keys[j] > value
      decreases count
    {
      var step := count / 2;
      if !(value < keys[first + step]) {
        first := first + step + 1;
        count := count - (step + 1);
      } else {
        count := step;
      }
    }
  }

  method FirstLessThanOrEqual(keys: seq<nat>, value: nat) returns (r: Option<nat>)
    requires Sorted(keys)
    ensures IsLastAtMost(keys, value, r)
  {
    var it := UpperBound(keys, value);
    // one step back from the first larger key
    if it != 0 {
      return Some(it - 1);
    }
    return None;
  }

  ghost function Keys<T>(items: seq<T>, key: T -> nat): (r: seq<nat>)
    ensures |r| == |items| && forall i :: 0 <= i < |items| ==> r[i] == key(items[i])
  {
    seq(|items|, i requires 0 <= i < |items| => key(items[i]))
  }

  ghost predicate SortedBy<T>(items: seq<T>, key: T -> nat) {
    forall i, j :: 0 <= i < j < |items| ==> key(items[i]) <= key(items[j])
  }

  /** Stands for std::sort. Callers know only that the result is sorted and a permutation: std::sort
      may order equal keys either way. */
  method Sort<T>(items: seq<T>, key: T -> nat) returns (r: seq<T>)
    ensures SortedBy(r, key) && multiset(r) == multiset(items)
  {
    r := [];
    for n := 0 to |items|
      invariant SortedBy(r, key) && multiset(r) == multiset(items[..n])
    {
      r := InsertSorted(r, items[n], key);
      assert items[..n + 1] == items[..n] + [items[n]];
    }
    assert items[..|items|] == items;
  }

  /** Inserts after every item whose key is not larger, where std::upper_bound points. */
  method InsertSorted<T>(items: seq<T>, x: T, key: T -> nat) returns (r: seq<T>)
    requires SortedBy(items, key)
    ensures SortedBy(r, key) && multiset(r) == multiset(items) + multiset{x}
    ensures exists i :: 0 <= i <= |items| && r == items[..i] + [x] + items[i..]
  {
    var keys := seq(|items|, i requires 0 <= i < |items| => key(items[i]));
    var i := UpperBound(keys, key(x));
    assert forall j :: 0 <= j < i ==> key(items[j]) == keys[j] <= key(x);
    assert forall j :: i <= j < |items| ==> key(items[j]) == keys[j] > key(x);
    InsertedInOrder(items, x, i, key);
    r := items[..i] + [x] + items[i..];
  }

  lemma InsertedInOrder<T>(items: seq<T>, x: T, i: nat, key: T -> nat)
    requires SortedBy(items, key) && i <= |items|
    requires forall j :: 0 <= j < i ==> key(items[j]) <= key(x)
    requires forall j :: i <= j < |items| ==> key(items[j]) > key(x)
    ensures var r := items[..i] + [x] + items[i..];
            SortedBy(r, key) && multiset(r) == multiset(items) + multiset{x}
  {
    var r := items[..i] + [x] + items[i..];
    forall j, k | 0 <= j < k < |r|
      ensures key(r[j]) <= key(r[k])
    {
      assert r[j] == if j < i then items[j] else if j == i then x else items[j - 1];
      assert r[k] == if k < i then items[k] else if k == i then x else items[k - 1];
    }
    assert items == items[..i] + items[i..];
  }

  /** Where an item goes that is to come last among equals. */
  lemma {:induction false} PlaceFor<T>(items: seq<T>, x: T, key: T -> nat) returns (i: nat)
    requires SortedBy(items, key)
    ensures i <= |items|
    ensures forall j :: 0 <= j < i ==> key(items[j]) <= key(x)
    ensures forall j :: i <= j < |items| ==> key(items[j]) > key(x)
  {
    if items == [] || key(items[|items| - 1]) <= key(x) {
      i := |items|;
    } else {
      i := PlaceFor(items[..|items| - 1], x, key);
    }
  }

  lemma {:induction false} SortedPermutation<T>(items: seq<T>, key: T -> nat) returns (r: seq<T>)
    ensures SortedBy(r, key) && multiset(r) == multiset(items)
  {
    if items == [] {
      r := [];
    } else {
      var n := |items| - 1;
      var front := SortedPermutation(items[..n], key);
      var i := PlaceFor(front, items[n], key);
      InsertedInOrder(front, items[n], i, key);
      r := front[..i] + [items[n]] + front[i..];
      assert items == items[..n] + [items[n]];
    }
  }

  /** An item can come last among its equals. */
  lemma SortedWithLast<T>(items: seq<T>, g: nat, key: T -> nat) returns (r: seq<T>, k: nat)
    requires g < |items|
    ensures SortedBy(r, key) && multiset(r) == multiset(items)
    ensures k < |r| && r[k] == items[g] && forall j :: k < j < |r| ==> key(r[j]) > key(items[g])
  {
    var others := items[..g] + items[g + 1..];
    assert items == items[..g] + [items[g]] + items[g + 1..];
    var front := SortedPermutation(others, key);
    k := PlaceFor(front, items[g], key);
    InsertedInOrder(front, items[g], k, key);
    r := front[..k] + [items[g]] + front[k..];
  }
}
