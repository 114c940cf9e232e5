/** The JIT object manager of src/jit/jit_objects.cpp. */
module JitObjects {
  import opened Wrappers
  import opened SortedSearch

  /** Up to but not including high. */
  datatype PcRange = PcRange(low: nat, high: nat)

  /** A parsed object file, told apart by where it is allocated. Its ranges may fail to parse when they
      are first asked for. */
  datatype JitObject = JitObject(allocatedAt: nat, pcRanges: Option<seq<PcRange>>) {
    ghost function Ranges(): seq<PcRange> {
      if pcRanges.Some? then pcRanges.value else []
    }
  }

  datatype ObjectEntry = ObjectEntry(objectStart: nat, file: JitObject)

  datatype RangeEntry = RangeEntry(low: nat, high: nat, objectStart: nat, file: JitObject)

  function Low(e: RangeEntry): nat {
    e.low
  }

  ghost predicate Holds(e: RangeEntry, pc: nat) {
    e.low <= pc < e.high
  }

  // ---------------------------------------------------------------- the ranges of the live objects

  ghost function EntriesOf(o: ObjectEntry, ranges: seq<PcRange>): multiset<RangeEntry> {
    if ranges == [] then multiset{}
    else
      var r := ranges[|ranges| - 1];
      EntriesOf(o, ranges[..|ranges| - 1]) + multiset{RangeEntry(r.low, r.high, o.objectStart, o.file)}
  }

  ghost function AllEntries(objects: seq<ObjectEntry>): multiset<RangeEntry> {
    if objects == [] then multiset{}
    else
      var o := objects[|objects| - 1];
      AllEntries(objects[..|objects| - 1]) + EntriesOf(o, o.file.Ranges())
  }

  function ObjectsElsewhere(objects: seq<ObjectEntry>, ptr: nat): seq<ObjectEntry> {
    if objects == [] then []
    else
      var o := objects[|objects| - 1];
      ObjectsElsewhere(objects[..|objects| - 1], ptr) + (if o.objectStart == ptr then [] else [o])
  }

  function RangesElsewhere(ranges: seq<RangeEntry>, ptr: nat): seq<RangeEntry> {
    if ranges == [] then []
    else
      var r := ranges[|ranges| - 1];
      RangesElsewhere(ranges[..|ranges| - 1], ptr) + (if r.objectStart == ptr then [] else [r])
  }

  /** The places at which the live objects list an entry: an object and one of its ranges. */
  ghost function Places(objects: seq<ObjectEntry>, e: RangeEntry): set<(int, int)> {
    set i, k | 0 <= i < |objects| && k in Numbers(objects[i], objects[i].file.Ranges(), e) :: (i, k)
  }

  /** The numbers of the ranges that make the entry. */
  ghost function Numbers(o: ObjectEntry, ranges: seq<PcRange>, e: RangeEntry): set<int> {
    set k | 0 <= k < |ranges| && e == RangeEntry(ranges[k].low, ranges[k].high, o.objectStart, o.file)
  }

  class JitObjectManager {
    var objects: seq<ObjectEntry>
    var rangeList: seq<RangeEntry>

    /** Sorted, and exactly the ranges of the live objects: every entry points to an object that is alive. */
    ghost predicate Valid()
      reads this
    {
      SortedBy(rangeList, Low) && multiset(rangeList) == AllEntries(objects)
    }

    constructor ()
      ensures Valid() && objects == [] && rangeList == []
    {
      objects := [];
      rangeList := [];
    }

    /** Opening may fail, and nothing changes; so may reading the ranges, and then the object has none. */
    method AddJitObject(ptr: nat, parsed: Option<JitObject>)
      requires Valid()
      modifies this
      ensures Valid()
      ensures objects == old(objects) + (if parsed.Some? then [ObjectEntry(ptr, parsed.value)] else [])
      ensures RangesElsewhere(rangeList, ptr) == RangesElsewhere(old(rangeList), ptr)
      ensures parsed.None? || parsed.value.pcRanges.None? ==> rangeList == old(rangeList)
      ensures parsed.Some? && parsed.value.pcRanges.Some? ==>
                && |rangeList| == |old(rangeList)| + |parsed.value.pcRanges.value|
                && (forall e | e in old(rangeList) :: e in rangeList)
                && forall p | p in parsed.value.pcRanges.value :: RangeEntry(p.low, p.high, ptr, parsed.value) in rangeList
    {
      if parsed.None? {
        return;
      }
      var file := parsed.value;
      ghost var before := objects;
      objects := objects + [ObjectEntry(ptr, file)];
      assert objects[..|before|] == before;
      if file.pcRanges.None? {
        return;
      }
      InsertRanges(ptr, file, file.pcRanges.value);
      ghost var added := EntriesOf(ObjectEntry(ptr, file), file.pcRanges.value);
      assert |rangeList| == |multiset(rangeList)|;
      EntriesAreListed(ObjectEntry(ptr, file), file.pcRanges.value);
      forall e | e in multiset(old(rangeList)) + added
        ensures e in rangeList
      {
        assert e in multiset(rangeList);
      }
    }

    method InsertRanges(ptr: nat, file: JitObject, ranges: seq<PcRange>)
      requires SortedBy(rangeList, Low)
      modifies this`rangeList
      ensures SortedBy(rangeList, Low)
      ensures multiset(rangeList) == multiset(old(rangeList)) + EntriesOf(ObjectEntry(ptr, file), ranges)
      ensures RangesElsewhere(rangeList, ptr) == RangesElsewhere(old(rangeList), ptr)
    {
      hide RangesElsewhere, SortedBy;
      for i := 0 to |ranges|
        invariant SortedBy(rangeList, Low)
        invariant multiset(rangeList) == multiset(old(rangeList)) + EntriesOf(ObjectEntry(ptr, file), ranges[..i])
        invariant RangesElsewhere(rangeList, ptr) == RangesElsewhere(old(rangeList), ptr)
      {
        var x := RangeEntry(ranges[i].low, ranges[i].high, ptr, file);
        ghost var list := rangeList;
        rangeList := InsertSorted(rangeList, x, Low);
        InsertedDoesNotShow(list, rangeList, x, ptr);
        assert ranges[..i + 1][..i] == ranges[..i];
      }
      assert ranges[..|ranges|] == ranges;
    }

    method RemoveJitObject(ptr: nat)
      requires Valid()
      modifies this
      ensures Valid()
      ensures objects == ObjectsElsewhere(old(objects), ptr)
      ensures rangeList == RangesElsewhere(old(rangeList), ptr)
      ensures forall o :: multiset(objects)[o] == if o.objectStart == ptr then 0 else multiset(old(objects))[o]
      ensures forall e :: multiset(rangeList)[e] == if e.objectStart == ptr then 0 else multiset(old(rangeList))[e]
    {
      forall o
        ensures multiset(ObjectsElsewhere(objects, ptr))[o] == if o.objectStart == ptr then 0 else multiset(objects)[o]
      {
        OthersStay(objects, ptr, o);
      }
      forall e
        ensures multiset(RangesElsewhere(rangeList, ptr))[e] == if e.objectStart == ptr then 0 else multiset(rangeList)[e]
      {
        RemovedRanges(rangeList, ptr, e);
      }
      objects := RemoveObjects(objects, ptr);
      rangeList := RemoveRanges(rangeList, ptr);
      RemovalKeepsCorrespondence(old(objects), old(rangeList), ptr);
    }

    /** Unregistering what was registered under a pointer of no live object restores both lists, order
        included, whether or not the object could be parsed. */
    method RegisterAndUnregister(ptr: nat, parsed: Option<JitObject>)
      requires Valid() && forall o | o in objects :: o.objectStart != ptr
      modifies this
      ensures Valid() && objects == old(objects) && rangeList == old(rangeList)
    {
      hide ObjectsElsewhere, RangesElsewhere, AllEntries, SortedBy;
      FreshPointer(objects, rangeList, ptr);
      AddJitObject(ptr, parsed);
      if parsed.Some? {
        OneMoreObject(old(objects), ObjectEntry(ptr, parsed.value), ptr);
      } else {
        assert objects == old(objects) + [] == old(objects);
      }
      RemoveJitObject(ptr);
    }

    /** The last range that starts at or before the pc, if the pc is in it. */
    method Lookup(pc: nat) returns (r: Option<RangeEntry>)
      requires Valid()
      ensures r.Some? ==> r.value in rangeList && r.value.low <= pc < r.value.high
      ensures r.Some? ==> forall e | e in rangeList && Holds(e, pc) :: e.low <= r.value.low
      ensures r.Some? <==> (exists e :: e in rangeList && Holds(e, pc)) && !IsHidden(rangeList, pc)
      ensures NonEmptyAndDisjoint(rangeList) ==>
                (r.None? <==> forall e | e in rangeList :: !Holds(e, pc))
                && forall e | e in rangeList && Holds(e, pc) :: r == Some(e)
      ensures NonEmptyAndDisjoint(rangeList) ==>
                forall o, p | o in objects && p in o.file.Ranges() && p.low <= pc < p.high ::
                  r == Some(RangeEntry(p.low, p.high, o.objectStart, o.file))
    {
      var lows := seq(|rangeList|, i requires 0 <= i < |rangeList| reads this => Low(rangeList[i]));
      assert lows == Keys(rangeList, Low);
      var it := FirstLessThanOrEqual(lows, pc);
      LookupIsExact(rangeList, pc, it);
      if NonEmptyAndDisjoint(rangeList) {
        LookupIsScan(rangeList, pc, it);
      }
      LiveRangesAreListed(objects, rangeList);
      if it.None? {
        return None;
      }
      if pc < rangeList[it.value].high {
        return Some(rangeList[it.value]);
      }
      return None;
    }

    method ClearAllJitObjects()
      modifies this
      ensures Valid() && objects == [] && rangeList == []
    {
      objects := [];
      rangeList := [];
    }
  }

  /** std::remove_if: the others, in order. */
  method RemoveObjects(objects: seq<ObjectEntry>, ptr: nat) returns (r: seq<ObjectEntry>)
    ensures r == ObjectsElsewhere(objects, ptr)
  {
    r := [];
    for i := 0 to |objects|
      invariant r == ObjectsElsewhere(objects[..i], ptr)
    {
      assert objects[..i + 1][..i] == objects[..i];
      if objects[i].objectStart != ptr {
        r := r + [objects[i]];
      }
    }
    assert objects[..|objects|] == objects;
  }

  method RemoveRanges(ranges: seq<RangeEntry>, ptr: nat) returns (r: seq<RangeEntry>)
    ensures r == RangesElsewhere(ranges, ptr)
  {
    r := [];
    for i := 0 to |ranges|
      invariant r == RangesElsewhere(ranges[..i], ptr)
    {
      assert ranges[..i + 1][..i] == ranges[..i];
      if ranges[i].objectStart != ptr {
        r := r + [ranges[i]];
      }
    }
    assert ranges[..|ranges|] == ranges;
  }

  // ---------------------------------------------------------------- listing

  lemma {:induction false} EntriesAreListed(o: ObjectEntry, ranges: seq<PcRange>)
    ensures |EntriesOf(o, ranges)| == |ranges|
    ensures forall p | p in ranges :: RangeEntry(p.low, p.high, o.objectStart, o.file) in EntriesOf(o, ranges)
  {
    if ranges != [] {
      EntriesAreListed(o, ranges[..|ranges| - 1]);
    }
  }

  lemma {:induction false} EntriesAreNumbered(o: ObjectEntry, ranges: seq<PcRange>, e: RangeEntry)
    ensures EntriesOf(o, ranges)[e] == |Numbers(o, ranges, e)|
  {
    if ranges != [] {
      var n := |ranges| - 1;
      EntriesAreNumbered(o, ranges[..n], e);
      var last := RangeEntry(ranges[n].low, ranges[n].high, o.objectStart, o.file);
      assert Numbers(o, ranges, e) == Numbers(o, ranges[..n], e) + if e == last then {n} else {};
    }
  }

  /** An entry is among those of the live objects as often as they list it. */
  lemma {:induction false} EntriesAreCounted(objects: seq<ObjectEntry>, e: RangeEntry)
    ensures AllEntries(objects)[e] == |Places(objects, e)|
  {
    hide EntriesOf, Numbers;
    if objects == [] {
      assert Places(objects, e) == {};
    } else {
      var n := |objects| - 1;
      var o := objects[n];
      EntriesAreCounted(objects[..n], e);
      EntriesAreNumbered(o, o.file.Ranges(), e);
      OneMorePlaced(objects, e);
    }
  }

  lemma OneMorePlaced(objects: seq<ObjectEntry>, e: RangeEntry)
    requires objects != []
    ensures var o := objects[|objects| - 1];
            |Places(objects, e)| == |Places(objects[..|objects| - 1], e)| + |Numbers(o, o.file.Ranges(), e)|
  {
    hide Numbers;
    var n := |objects| - 1;
    var numbers := Numbers(objects[n], objects[n].file.Ranges(), e);
    PairedWith(n, numbers);
    var last := set k | k in numbers :: (n, k);
    assert Places(objects, e) == Places(objects[..n], e) + last;
    assert Places(objects[..n], e) !! last;
  }

  lemma {:induction false} PairedWith(n: int, numbers: set<int>)
    ensures |set k | k in numbers :: (n, k)| == |numbers|
  {
    if numbers == {} {
      assert (set k | k in numbers :: (n, k)) == {};
    } else {
      var k := OneOf(numbers);
      PairedWith(n, numbers - {k});
      var pairs := set j | j in numbers :: (n, j);
      assert pairs == (set j | j in numbers - {k} :: (n, j)) + {(n, k)};
    }
  }

  lemma OneOf<T>(s: set<T>) returns (x: T)
    requires s != {}
    ensures x in s
  {
    x :| x in s;
  }

  /** Every range of a live object is listed. */
  lemma RangeIsListed(objects: seq<ObjectEntry>, o: ObjectEntry, p: PcRange)
    requires o in objects && p in o.file.Ranges()
    ensures RangeEntry(p.low, p.high, o.objectStart, o.file) in AllEntries(objects)
  {
    var e := RangeEntry(p.low, p.high, o.objectStart, o.file);
    EntriesAreCounted(objects, e);
    var i :| 0 <= i < |objects| && objects[i] == o;
    var ranges := o.file.Ranges();
    var k :| 0 <= k < |ranges| && ranges[k] == p;
    assert k in Numbers(o, ranges, e);
    assert (i, k) in Places(objects, e);
  }

  lemma LiveRangesAreListed(objects: seq<ObjectEntry>, ranges: seq<RangeEntry>)
    requires multiset(ranges) == AllEntries(objects)
    ensures forall o, p | o in objects && p in o.file.Ranges() ::
              RangeEntry(p.low, p.high, o.objectStart, o.file) in ranges
  {
    forall o, p | o in objects && p in o.file.Ranges()
      ensures RangeEntry(p.low, p.high, o.objectStart, o.file) in ranges
    {
      RangeIsListed(objects, o, p);
      assert RangeEntry(p.low, p.high, o.objectStart, o.file) in multiset(ranges);
    }
  }

  // ---------------------------------------------------------------- removal

  lemma {:induction false} EntriesHaveTheirPointer(o: ObjectEntry, ranges: seq<PcRange>, e: RangeEntry)
    ensures e in EntriesOf(o, ranges) ==>
              e.objectStart == o.objectStart && e.file == o.file && PcRange(e.low, e.high) in ranges
  {
    if ranges != [] {
      EntriesHaveTheirPointer(o, ranges[..|ranges| - 1], e);
    }
  }

  lemma {:induction false} OthersStay(objects: seq<ObjectEntry>, ptr: nat, o: ObjectEntry)
    ensures multiset(ObjectsElsewhere(objects, ptr))[o] == if o.objectStart == ptr then 0 else multiset(objects)[o]
  {
    if objects != [] {
      var front, last := objects[..|objects| - 1], objects[|objects| - 1];
      assert objects == front + [last];
      OthersStay(front, ptr, o);
    }
  }

  lemma {:induction false} RemovedRanges(ranges: seq<RangeEntry>, ptr: nat, e: RangeEntry)
    ensures multiset(RangesElsewhere(ranges, ptr))[e] == if e.objectStart == ptr then 0 else multiset(ranges)[e]
  {
    if ranges != [] {
      var front, last := ranges[..|ranges| - 1], ranges[|ranges| - 1];
      assert ranges == front + [last];
      RemovedRanges(front, ptr, e);
    }
  }

  lemma {:induction false} RemovalKeepsOrder(ranges: seq<RangeEntry>, ptr: nat)
    requires SortedBy(ranges, Low)
    ensures SortedBy(RangesElsewhere(ranges, ptr), Low)
    ensures forall x | x in RangesElsewhere(ranges, ptr) :: x in ranges
  {
    if ranges != [] {
      var front, last := ranges[..|ranges| - 1], ranges[|ranges| - 1];
      RemovalKeepsOrder(front, ptr);
      var kept := RangesElsewhere(front, ptr);
      forall i | 0 <= i < |kept|
        ensures Low(kept[i]) <= Low(last)
      {
        assert kept[i] in front;
        var j :| 0 <= j < |front| && front[j] == kept[i];
        assert ranges[j] == kept[i];
      }
    }
  }

  lemma {:induction false} RemovedObjects(objects: seq<ObjectEntry>, ptr: nat, e: RangeEntry)
    ensures AllEntries(ObjectsElsewhere(objects, ptr))[e] == if e.objectStart == ptr then 0 else AllEntries(objects)[e]
  {
    if objects != [] {
      var front, o := objects[..|objects| - 1], objects[|objects| - 1];
      RemovedObjects(front, ptr, e);
      EntriesHaveTheirPointer(o, o.file.Ranges(), e);
      var kept := ObjectsElsewhere(front, ptr);
      assert (kept + [o])[..|kept|] == kept;
      assert AllEntries(kept + [o]) == AllEntries(kept) + EntriesOf(o, o.file.Ranges());
      assert kept + [] == kept;
    }
  }

  lemma RemovalKeepsCorrespondence(objects: seq<ObjectEntry>, ranges: seq<RangeEntry>, ptr: nat)
    requires SortedBy(ranges, Low) && multiset(ranges) == AllEntries(objects)
    ensures SortedBy(RangesElsewhere(ranges, ptr), Low)
    ensures multiset(RangesElsewhere(ranges, ptr)) == AllEntries(ObjectsElsewhere(objects, ptr))
  {
    RemovalKeepsOrder(ranges, ptr);
    var left, right := multiset(RangesElsewhere(ranges, ptr)), AllEntries(ObjectsElsewhere(objects, ptr));
    forall e: RangeEntry
      ensures left[e] == right[e]
    {
      RemovedRanges(ranges, ptr, e);
      RemovedObjects(objects, ptr, e);
    }
    assert left == right;
  }

  /** Inserting an entry for ptr does not show once the entries for ptr are taken out. */
  lemma {:induction false} SkipsInserted(ranges: seq<RangeEntry>, k: nat, x: RangeEntry, ptr: nat)
    requires k <= |ranges| && x.objectStart == ptr
    ensures RangesElsewhere(ranges[..k] + [x] + ranges[k..], ptr) == RangesElsewhere(ranges, ptr)
    decreases |ranges| - k
  {
    var longer := ranges[..k] + [x] + ranges[k..];
    if k == |ranges| {
      assert longer[..|ranges|] == ranges;
    } else {
      var front := ranges[..|ranges| - 1];
      assert longer[..|ranges|] == front[..k] + [x] + front[k..];
      SkipsInserted(front, k, x, ptr);
    }
  }

  lemma InsertedDoesNotShow(list: seq<RangeEntry>, longer: seq<RangeEntry>, x: RangeEntry, ptr: nat)
    requires x.objectStart == ptr
    requires exists i :: 0 <= i <= |list| && longer == list[..i] + [x] + list[i..]
    ensures RangesElsewhere(longer, ptr) == RangesElsewhere(list, ptr)
  {
    var i :| 0 <= i <= |list| && longer == list[..i] + [x] + list[i..];
    SkipsInserted(list, i, x, ptr);
  }

  /** A pointer of no live object is in neither list, so removing it removes nothing. */
  lemma FreshPointer(objects: seq<ObjectEntry>, ranges: seq<RangeEntry>, ptr: nat)
    requires multiset(ranges) == AllEntries(objects) && forall o | o in objects :: o.objectStart != ptr
    ensures ObjectsElsewhere(objects, ptr) == objects && RangesElsewhere(ranges, ptr) == ranges
  {
    NoObjectToRemove(objects, ptr);
    forall e | e in ranges
      ensures e.objectStart != ptr
    {
      assert e in multiset(ranges);
      NoDanglingRanges(objects, e);
    }
    NoneToRemove(ranges, ptr);
  }

  lemma OneMoreObject(objects: seq<ObjectEntry>, o: ObjectEntry, ptr: nat)
    requires o.objectStart == ptr
    ensures ObjectsElsewhere(objects + [o], ptr) == ObjectsElsewhere(objects, ptr)
  {
    assert (objects + [o])[..|objects|] == objects;
  }

  lemma {:induction false} NoObjectToRemove(objects: seq<ObjectEntry>, ptr: nat)
    requires forall o | o in objects :: o.objectStart != ptr
    ensures ObjectsElsewhere(objects, ptr) == objects
  {
    if objects != [] {
      var front, last := objects[..|objects| - 1], objects[|objects| - 1];
      assert objects == front + [last] && last in objects;
      NoObjectToRemove(front, ptr);
    }
  }

  lemma {:induction false} NoneToRemove(ranges: seq<RangeEntry>, ptr: nat)
    requires forall e | e in ranges :: e.objectStart != ptr
    ensures RangesElsewhere(ranges, ptr) == ranges
  {
    if ranges != [] {
      var front, last := ranges[..|ranges| - 1], ranges[|ranges| - 1];
      assert ranges == front + [last] && last in ranges;
      NoneToRemove(front, ptr);
    }
  }

  /** Every listed range belongs to an object that is still registered. */
  lemma {:induction false} NoDanglingRanges(objects: seq<ObjectEntry>, e: RangeEntry)
    requires e in AllEntries(objects)
    ensures exists o :: o in objects && o.objectStart == e.objectStart && o.file == e.file
                        && PcRange(e.low, e.high) in o.file.Ranges()
  {
    var front, o := objects[..|objects| - 1], objects[|objects| - 1];
    EntriesHaveTheirPointer(o, o.file.Ranges(), e);
    if e in EntriesOf(o, o.file.Ranges()) {
      assert o in objects;
    } else {
      NoDanglingRanges(front, e);
      var o' :| o' in front && o'.objectStart == e.objectStart && o'.file == e.file
                && PcRange(e.low, e.high) in o'.file.Ranges();
      assert o' in objects;
    }
  }

  // ---------------------------------------------------------------- lookup

  ghost predicate NonEmptyAndDisjoint(ranges: seq<RangeEntry>) {
    && (forall i :: 0 <= i < |ranges| ==> ranges[i].low < ranges[i].high)
    && (forall i, j :: 0 <= i < j < |ranges| ==> ranges[i].high <= ranges[j].low || ranges[j].high <= ranges[i].low)
  }

  /** Behind every range that holds the pc is one that starts at or before the pc as well, and has ended. */
  ghost predicate IsHidden(ranges: seq<RangeEntry>, pc: nat) {
    exists i :: 0 <= i < |ranges| && ranges[i].low <= pc && !Holds(ranges[i], pc)
                && forall j :: i < j < |ranges| ==> !Holds(ranges[j], pc)
  }

  /** The search ends at a range that holds the pc exactly if there is one and none is hidden by a range that
      starts later and ends earlier. */
  lemma LookupIsExact(ranges: seq<RangeEntry>, pc: nat, it: Option<nat>)
    requires SortedBy(ranges, Low) && IsLastAtMost(Keys(ranges, Low), pc, it)
    ensures it.Some? && Holds(ranges[it.value], pc) <==> (exists e :: e in ranges && Holds(e, pc)) && !IsHidden(ranges, pc)
    ensures forall j :: 0 <= j < |ranges| && Holds(ranges[j], pc) ==>
                          it.Some? && j <= it.value && ranges[j].low <= ranges[it.value].low
  {
    forall j | 0 <= j < |ranges| && Holds(ranges[j], pc)
      ensures it.Some? && j <= it.value && ranges[j].low <= ranges[it.value].low
    {
      assert Keys(ranges, Low)[j] == ranges[j].low <= pc;
    }
    if it.Some? {
      assert Keys(ranges, Low)[it.value] == ranges[it.value].low <= pc;
      if Holds(ranges[it.value], pc) {
        assert ranges[it.value] in ranges;
        HeldLast(ranges, pc, it.value);
      }
    }
  }

  lemma HeldLast(ranges: seq<RangeEntry>, pc: nat, k: nat)
    requires SortedBy(ranges, Low) && IsLastAtMost(Keys(ranges, Low), pc, Some(k)) && Holds(ranges[k], pc)
    ensures !IsHidden(ranges, pc)
  {
    forall i | 0 <= i < |ranges| && ranges[i].low <= pc && !Holds(ranges[i], pc)
      ensures exists j :: i < j < |ranges| && Holds(ranges[j], pc)
    {
      assert Keys(ranges, Low)[i] == ranges[i].low;
      assert i < k;
    }
  }

  /** A range inside another one hides it, from its own end on. */
  lemma InnerRangeHides(outer: RangeEntry, inner: RangeEntry, pc: nat)
    requires outer.low <= inner.low && inner.high <= pc < outer.high && inner.low <= inner.high
    ensures Holds(outer, pc) && IsHidden([outer, inner], pc)
  {
    assert [outer, inner][1] == inner;
  }

  lemma LookupIsScan(ranges: seq<RangeEntry>, pc: nat, it: Option<nat>)
    requires SortedBy(ranges, Low) && NonEmptyAndDisjoint(ranges)
    requires IsLastAtMost(Keys(ranges, Low), pc, it)
    ensures forall j :: 0 <= j < |ranges| && Holds(ranges[j], pc) ==> it == Some(j)
  {
    forall j | 0 <= j < |ranges| && Holds(ranges[j], pc)
      ensures it == Some(j)
    {
      assert Keys(ranges, Low)[j] == ranges[j].low <= pc;
      assert it.Some? && j <= it.value;
      assert Keys(ranges, Low)[it.value] == ranges[it.value].low;
    }
  }
}
