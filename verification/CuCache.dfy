/** The range map of src/symbols/dwarf/dwarf_utils.hpp, and finding the compilation unit of a pc by
    walking the units or through the map (src/symbols/dwarf/dwarf_resolver.cpp). */
module CuCache {
  import opened Wrappers
  import opened SortedSearch
  import opened DwarfRanges

  datatype RangeEntry = RangeEntry(item: nat, low: Address, high: Address)

  function Low(e: RangeEntry): nat {
    e.low
  }

  datatype VerifyFailed = VerifyFailed

  const MAX_HANDLE := 0xffff_ffff

  class RangeMap<V> {
    var items: seq<V>
    var rangeEntries: seq<RangeEntry>

    ghost predicate Valid()
      reads this
    {
      forall e | e in rangeEntries :: e.item < |items|
    }

    constructor ()
      ensures Valid() && items == [] && rangeEntries == []
    {
      items := [];
      rangeEntries := [];
    }

    /** The handle of the new item. Handles are 32-bit; the item is there even when they run out. */
    method AddItem(item: V) returns (r: Result<nat, VerifyFailed>)
      requires Valid()
      modifies this
      ensures Valid() && items == old(items) + [item] && rangeEntries == old(rangeEntries)
      ensures r == if |items| < 0xffff_ffff then Ok(|items| - 1) else Err(VerifyFailed)
    {
      items := items + [item];
      if !(|items| < MAX_HANDLE) {
        return Err(VerifyFailed);
      }
      return Ok(|items| - 1);
    }

    method Insert(handle: nat, low: Address, high: Address)
      requires Valid() && handle < |items|
      modifies this
      ensures Valid() && items == old(items)
      ensures rangeEntries == old(rangeEntries) + [RangeEntry(handle, low, high)]
    {
      rangeEntries := rangeEntries + [RangeEntry(handle, low, high)];
    }

    method Finalize()
      requires Valid()
      modifies this
      ensures Valid() && items == old(items)
      ensures SortedBy(rangeEntries, Low) && multiset(rangeEntries) == multiset(old(rangeEntries))
    {
      var sorted := Sort(rangeEntries, Low);
      assert forall e | e in sorted :: e in multiset(sorted);
      rangeEntries := sorted;
    }

    /** The item of the last entry that starts at or before the key, whether or not it reaches the key. */
    method Lookup(key: Address) returns (r: Option<V>, ghost position: Option<nat>)
      requires Valid() && SortedBy(rangeEntries, Low)
      ensures r.None? <==> forall i :: 0 <= i < |rangeEntries| ==> rangeEntries[i].low > key
      ensures IsLastAtMost(Keys(rangeEntries, Low), key, position)
      ensures position.Some? ==> rangeEntries[position.value].item < |items|
      ensures r == if position.None? then None else Some(items[rangeEntries[position.value].item])
    {
      var lows := seq(|rangeEntries|, i requires 0 <= i < |rangeEntries| reads this => Low(rangeEntries[i]));
      assert lows == Keys(rangeEntries, Low);
      var it := FirstLessThanOrEqual(lows, key);
      position := it;
      if it.None? {
        return None, position;
      }
      assert rangeEntries[it.value] in rangeEntries;
      return Some(items[rangeEntries[it.value].item]), position;
    }
  }

  // ---------------------------------------------------------------- compilation units

  /** A unit, as the list of ranges its entry has. */
  datatype Unit = Unit(ranges: seq<Range>)

  ghost predicate UnitHolds(units: seq<Unit>, u: nat, pc: Address) {
    u < |units| && InRanges(pc, units[u].ranges)
  }

  /** The last unit that holds the pc. */
  ghost predicate IsLastHolder(units: seq<Unit>, pc: Address, r: Option<nat>) {
    match r
    case None => forall u :: !UnitHolds(units, u, pc)
    case Some(u) => UnitHolds(units, u, pc) && forall v :: u < v < |units| ==> !UnitHolds(units, v, pc)
  }

  /** The same of each unit's ranges. */
  ghost predicate IsLastWithRange(units: seq<Unit>, pc: Address, r: Option<nat>) {
    && (r.Some? ==> r.value < |units| && exists x :: x in units[r.value].ranges && x.low <= pc < x.high)
    && forall v, x | 0 <= v < |units| && x in units[v].ranges && x.low <= pc < x.high :: r.Some? && v <= r.value
  }

  lemma HolderHasRange(units: seq<Unit>, pc: Address, r: Option<nat>)
    ensures IsLastHolder(units, pc, r) <==> IsLastWithRange(units, pc, r)
  {
    forall u | 0 <= u < |units|
      ensures UnitHolds(units, u, pc) <==> exists x :: x in units[u].ranges && x.low <= pc < x.high
    {
      HeldByMember(units[u].ranges, pc);
    }
  }

  /** A range of another unit that starts at or before the pc, with no range of u starting between, comes
      last in the search. */
  ghost predicate Hides(f: Range, ranges: seq<Range>, pc: Address) {
    f.low <= pc && forall e | e in ranges :: !(f.low < e.low <= pc)
  }

  /** Some other unit has a coalesced range that the search may stop at instead of one of u. */
  ghost predicate HiddenByOther(units: seq<Unit>, u: nat, pc: Address)
    requires u < |units|
  {
    exists v, f :: 0 <= v < |units| && v != u && f in Coalesced(units[v].ranges) && Hides(f, Coalesced(units[u].ranges), pc)
  }

  /** The search may miss u: none of its coalesced ranges starts at or before the pc, or one of another unit
      comes last. */
  ghost predicate Hidden(units: seq<Unit>, u: nat, pc: Address)
    requires u < |units|
  {
    (forall e | e in Coalesced(units[u].ranges) :: pc < e.low) || HiddenByOther(units, u, pc)
  }

  /** The unit that the walk finds, if it finds one, is not hidden. */
  ghost predicate NotHidden(units: seq<Unit>, pc: Address) {
    forall u :: 0 <= u < |units| && IsLastHolder(units, pc, Some(u)) ==> !Hidden(units, u, pc)
  }

  /** Non-empty coalesced ranges that do not overlap across units. */
  ghost predicate NonEmptyAndDisjoint(units: seq<Unit>) {
    && (forall u, e :: 0 <= u < |units| && e in Coalesced(units[u].ranges) ==> e.low < e.high)
    && (forall u, v, pc: Address :: 0 <= u < |units| && 0 <= v < |units|
          && InRanges(pc, Coalesced(units[u].ranges)) && InRanges(pc, Coalesced(units[v].ranges))
          ==> u == v)
  }

  ghost predicate AllProper(units: seq<Unit>) {
    forall u :: 0 <= u < |units| ==> Forward(units[u].ranges) && NoWrap(units[u].ranges)
  }

  lemma DisjointUnitsAreNotHidden(units: seq<Unit>, pc: Address)
    requires NonEmptyAndDisjoint(units) && AllProper(units)
    ensures NotHidden(units, pc)
  {
    hide Coalesced, Forward, NoWrap;
    forall u | 0 <= u < |units| && IsLastHolder(units, pc, Some(u))
      ensures !Hidden(units, u, pc)
    {
      CoalescingIsExact(units[u].ranges, pc);
      var k :| 0 <= k < |Coalesced(units[u].ranges)| && InRange(pc, Coalesced(units[u].ranges)[k]);
      var e := Coalesced(units[u].ranges)[k];
      assert e in Coalesced(units[u].ranges) && e.low <= pc;
      forall v, f | 0 <= v < |units| && v != u && f in Coalesced(units[v].ranges) && f.low <= pc
        ensures f.low < e.low <= pc
      {
        StartsOutside(units, u, v, e, f);
      }
    }
  }

  lemma StartsOutside(units: seq<Unit>, u: nat, v: nat, e: Range, f: Range)
    requires NonEmptyAndDisjoint(units) && u < |units| && v < |units| && v != u
    requires e in Coalesced(units[u].ranges) && f in Coalesced(units[v].ranges)
    ensures !InRange(f.low, e)
  {
    hide Coalesced;
    HeldByOne(f.low, Coalesced(units[v].ranges), f);
    if InRange(f.low, e) {
      HeldByOne(f.low, Coalesced(units[u].ranges), e);
      assert false;
    }
  }

  lemma HeldByOne(pc: Address, ranges: seq<Range>, r: Range)
    requires r in ranges && InRange(pc, r)
    ensures InRanges(pc, ranges)
  {
    var i :| 0 <= i < |ranges| && ranges[i] == r;
  }

  // ---------------------------------------------------------------- the index

  ghost function Tagged(handle: nat, ranges: seq<Range>): (r: seq<RangeEntry>)
    ensures |r| == |ranges| && forall k :: 0 <= k < |r| ==> r[k] == RangeEntry(handle, ranges[k].low, ranges[k].high)
  {
    seq(|ranges|, k requires 0 <= k < |ranges| => RangeEntry(handle, ranges[k].low, ranges[k].high))
  }

  lemma TaggedOneMore(handle: nat, ranges: seq<Range>, i: nat)
    requires i < |ranges|
    ensures Tagged(handle, ranges[..i + 1]) == Tagged(handle, ranges[..i]) + [RangeEntry(handle, ranges[i].low, ranges[i].high)]
  {
  }

  /** The units with ranges, among the first n: a handle is a position here. */
  ghost function BuiltItems(units: seq<Unit>, n: nat): seq<nat>
    requires n <= |units|
  {
    if n == 0 then []
    else BuiltItems(units, n - 1) + if Coalesced(units[n - 1].ranges) == [] then [] else [n - 1]
  }

  /** The coalesced ranges of the first n units, each under the handle of its unit. */
  ghost function BuiltEntries(units: seq<Unit>, n: nat): seq<RangeEntry>
    requires n <= |units|
  {
    if n == 0 then []
    else BuiltEntries(units, n - 1) + Tagged(|BuiltItems(units, n - 1)|, Coalesced(units[n - 1].ranges))
  }

  /** The entries of all units, sorted in some way. */
  ghost predicate IsIndex(entries: seq<RangeEntry>, units: seq<Unit>) {
    SortedBy(entries, Low) && multiset(entries) == multiset(BuiltEntries(units, |units|))
  }

  ghost predicate IsBuilt(entries: seq<RangeEntry>, items: seq<nat>, units: seq<Unit>, n: nat)
    requires n <= |units|
  {
    entries == BuiltEntries(units, n) && items == BuiltItems(units, n)
  }

  /** The entry stands for a coalesced range of the unit. */
  ghost predicate IsEntryOf(e: RangeEntry, items: seq<nat>, units: seq<Unit>, u: nat) {
    && e.item < |items| && items[e.item] == u < |units|
    && Range(e.low, e.high) in Coalesced(units[u].ranges)
  }

  lemma {:induction false} BuiltAreEntries(units: seq<Unit>, n: nat, e: RangeEntry)
    requires n <= |units| && e in BuiltEntries(units, n)
    ensures e.item < |BuiltItems(units, n)| && IsEntryOf(e, BuiltItems(units, n), units, BuiltItems(units, n)[e.item])
  {
    hide Coalesced;
    if n > 0 {
      var items, ranges := BuiltItems(units, n - 1), Coalesced(units[n - 1].ranges);
      if e in BuiltEntries(units, n - 1) {
        BuiltAreEntries(units, n - 1, e);
        assert BuiltItems(units, n)[e.item] == items[e.item];
      } else {
        var k :| 0 <= k < |ranges| && Tagged(|items|, ranges)[k] == e;
        assert Range(e.low, e.high) == ranges[k];
        assert BuiltItems(units, n)[|items|] == n - 1;
      }
    }
  }

  lemma {:induction false} EntryIsBuilt(units: seq<Unit>, n: nat, u: nat, r: Range) returns (e: RangeEntry)
    requires u < n <= |units| && r in Coalesced(units[u].ranges)
    ensures e in BuiltEntries(units, n) && IsEntryOf(e, BuiltItems(units, n), units, u) && e.low == r.low
  {
    hide Coalesced;
    var items, ranges := BuiltItems(units, n - 1), Coalesced(units[n - 1].ranges);
    if u < n - 1 {
      e := EntryIsBuilt(units, n - 1, u, r);
      assert BuiltItems(units, n)[e.item] == items[e.item];
    } else {
      var k :| 0 <= k < |ranges| && ranges[k] == r;
      e := Tagged(|items|, ranges)[k];
      assert e in Tagged(|items|, ranges);
      assert BuiltItems(units, n)[|items|] == u;
    }
  }

  /** The unit an entry belongs to. */
  ghost function Owner(e: RangeEntry, units: seq<Unit>): nat
    requires e in BuiltEntries(units, |units|)
    ensures Owner(e, units) < |units| && IsEntryOf(e, BuiltItems(units, |units|), units, Owner(e, units))
  {
    BuiltAreEntries(units, |units|, e);
    BuiltItems(units, |units|)[e.item]
  }

  lemma InIndex(entries: seq<RangeEntry>, units: seq<Unit>, e: RangeEntry)
    requires IsIndex(entries, units)
    ensures e in entries <==> e in BuiltEntries(units, |units|)
  {
    hide BuiltEntries;
    assert e in entries <==> e in multiset(entries);
    assert e in BuiltEntries(units, |units|) <==> e in multiset(BuiltEntries(units, |units|));
  }

  // ---------------------------------------------------------------- what the search answers

  ghost predicate Found(entries: seq<RangeEntry>, pc: Address, position: Option<nat>) {
    IsLastAtMost(Keys(entries, Low), pc, position)
  }

  /** The unit of the entry found, if it does hold the pc. */
  ghost function Answer(entries: seq<RangeEntry>, units: seq<Unit>, pc: Address, position: Option<nat>): Option<nat>
    requires IsIndex(entries, units) && Found(entries, pc, position)
  {
    if position.None? then None
    else
      InIndex(entries, units, entries[position.value]);
      var u := Owner(entries[position.value], units);
      if UnitHolds(units, u, pc) then Some(u) else None
  }

  /** Of a unit that holds the pc and is not hidden, the search finds an entry. */
  lemma EntryOfHolder(entries: seq<RangeEntry>, units: seq<Unit>, pc: Address, u: nat, position: Option<nat>)
    requires IsIndex(entries, units) && Found(entries, pc, position)
    requires UnitHolds(units, u, pc) && !Hidden(units, u, pc)
    ensures Answer(entries, units, pc, position) == Some(u)
  {
    hide Coalesced, BuiltEntries, BuiltItems, HiddenByOther;
    var r :| r in Coalesced(units[u].ranges) && r.low <= pc;
    var i := KeyOf(entries, units, u, r);
    assert position.Some? && i <= position.value;
    var g := entries[position.value];
    InIndex(entries, units, g);
    var v := Owner(g, units);
    if v != u {
      var f := Range(g.low, g.high);
      assert Keys(entries, Low)[position.value] == f.low <= pc;
      var e := UnhidingRange(units, u, v, f, pc);
      var j := KeyOf(entries, units, u, e);
      assert false;
    }
  }

  lemma UnhidingRange(units: seq<Unit>, u: nat, v: nat, f: Range, pc: Address) returns (e: Range)
    requires u < |units| && v < |units| && v != u && f in Coalesced(units[v].ranges) && f.low <= pc
    requires !HiddenByOther(units, u, pc)
    ensures e in Coalesced(units[u].ranges) && f.low < e.low <= pc
  {
    hide Coalesced;
    assert !Hides(f, Coalesced(units[u].ranges), pc);
    e :| e in Coalesced(units[u].ranges) && f.low < e.low <= pc;
  }

  lemma KeyOf(entries: seq<RangeEntry>, units: seq<Unit>, u: nat, r: Range) returns (i: nat)
    requires IsIndex(entries, units) && u < |units| && r in Coalesced(units[u].ranges)
    ensures i < |entries| && Keys(entries, Low)[i] == Low(entries[i]) == r.low
  {
    hide Coalesced, BuiltEntries;
    var e := EntryIsBuilt(units, |units|, u, r);
    InIndex(entries, units, e);
    i :| 0 <= i < |entries| && entries[i] == e;
  }

  lemma {:induction false} LastHolder(units: seq<Unit>, pc: Address, n: nat) returns (r: Option<nat>)
    requires n <= |units|
    requires forall v: nat :: n <= v ==> !UnitHolds(units, v, pc)
    ensures IsLastHolder(units, pc, r)
  {
    if n == 0 {
      r := None;
    } else if UnitHolds(units, n - 1, pc) {
      r := Some(n - 1);
    } else {
      r := LastHolder(units, pc, n - 1);
    }
  }

  /** While the unit that the walk finds is not hidden, the search finds it, however equal keys are sorted;
      and where no unit holds the pc, neither finds one. */
  lemma CacheAgrees(entries: seq<RangeEntry>, units: seq<Unit>, pc: Address, position: Option<nat>)
    requires NotHidden(units, pc)
    requires IsIndex(entries, units) && Found(entries, pc, position)
    ensures IsLastHolder(units, pc, Answer(entries, units, pc, position))
  {
    hide Hidden, IsIndex, Found;
    var r := LastHolder(units, pc, |units|);
    if r.Some? {
      EntryOfHolder(entries, units, pc, r.value, position);
    }
  }

  /** Of the entries at or before the pc, one with the greatest low. */
  lemma {:induction false} GreatestLow(entries: seq<RangeEntry>, pc: Address, n: nat) returns (g: nat)
    requires n <= |entries| && exists i :: 0 <= i < n && entries[i].low <= pc
    ensures g < n && entries[g].low <= pc
    ensures forall j :: 0 <= j < n && entries[j].low <= pc ==> entries[j].low <= entries[g].low
  {
    if i :| 0 <= i < n - 1 && entries[i].low <= pc {
      g := GreatestLow(entries, pc, n - 1);
      if entries[g].low <= entries[n - 1].low <= pc {
        g := n - 1;
      }
    } else {
      g := n - 1;
    }
  }

  /** Of a hidden unit, an entry of another unit may come last. */
  lemma HidingEntry(units: seq<Unit>, u: nat, pc: Address) returns (g: nat)
    requires u < |units| && HiddenByOther(units, u, pc)
    ensures var built := BuiltEntries(units, |units|);
            && g < |built| && built[g].low <= pc && Owner(built[g], units) != u
            && forall j :: 0 <= j < |built| && built[j].low <= pc ==> built[j].low <= built[g].low
  {
    hide Coalesced, BuiltEntries, BuiltItems;
    var built := BuiltEntries(units, |units|);
    var v, f :| 0 <= v < |units| && v != u && f in Coalesced(units[v].ranges) && Hides(f, Coalesced(units[u].ranges), pc);
    var e := EntryIsBuilt(units, |units|, v, f);
    var i :| 0 <= i < |built| && built[i] == e;
    g := GreatestLow(built, pc, |built|);
    var w := Owner(built[g], units);
    if w == u {
      assert Range(built[g].low, built[g].high) in Coalesced(units[u].ranges);
      assert built[g].low == f.low;
      g := i;
    }
  }

  lemma HiddenGoesWrong(units: seq<Unit>, u: nat, pc: Address) returns (entries: seq<RangeEntry>, position: Option<nat>)
    requires u < |units| && IsLastHolder(units, pc, Some(u)) && Hidden(units, u, pc)
    ensures IsIndex(entries, units) && Found(entries, pc, position)
    ensures !IsLastHolder(units, pc, Answer(entries, units, pc, position))
  {
    hide Coalesced, BuiltEntries, BuiltItems, HiddenByOther;
    if HiddenByOther(units, u, pc) {
      entries, position := OtherGoesLast(units, u, pc);
    } else {
      entries, position := NoneGoesFirst(units, u, pc);
    }
  }

  /** Without an entry of the unit at or before the pc, no index finds it. */
  lemma NoneGoesFirst(units: seq<Unit>, u: nat, pc: Address) returns (entries: seq<RangeEntry>, position: Option<nat>)
    requires u < |units| && IsLastHolder(units, pc, Some(u)) && forall e | e in Coalesced(units[u].ranges) :: pc < e.low
    ensures IsIndex(entries, units) && Found(entries, pc, position)
    ensures !IsLastHolder(units, pc, Answer(entries, units, pc, position))
  {
    hide Coalesced, BuiltEntries, BuiltItems;
    entries := SortedPermutation(BuiltEntries(units, |units|), Low);
    position := LastAtMost(Keys(entries, Low), pc);
    if position.Some? {
      var g := entries[position.value];
      InIndex(entries, units, g);
      assert Keys(entries, Low)[position.value] == g.low;
      assert Owner(g, units) == u ==> Range(g.low, g.high) in Coalesced(units[u].ranges);
    }
  }

  /** With an entry of another unit last, that unit is looked at. */
  lemma OtherGoesLast(units: seq<Unit>, u: nat, pc: Address) returns (entries: seq<RangeEntry>, position: Option<nat>)
    requires u < |units| && IsLastHolder(units, pc, Some(u)) && HiddenByOther(units, u, pc)
    ensures IsIndex(entries, units) && Found(entries, pc, position)
    ensures !IsLastHolder(units, pc, Answer(entries, units, pc, position))
  {
    hide Coalesced, BuiltEntries, BuiltItems, HiddenByOther;
    var built := BuiltEntries(units, |units|);
    var g := HidingEntry(units, u, pc);
    var k;
    entries, k := SortedWithLast(built, g, Low);
    position := Some(k);
    forall j | k < j < |entries|
      ensures entries[j].low > pc
    {
      InIndex(entries, units, entries[j]);
      var m :| 0 <= m < |built| && built[m] == entries[j];
      assert Low(entries[j]) > Low(built[g]);
    }
    assert Keys(entries, Low)[k] == built[g].low;
    InIndex(entries, units, entries[k]);
  }

  /** The cached lookup is right, whichever way equal keys are sorted, exactly if the unit that the walk
      finds is not hidden. */
  lemma CachedLookupIsExact(units: seq<Unit>, pc: Address)
    ensures (forall entries, position | IsIndex(entries, units) && Found(entries, pc, position) ::
               IsLastHolder(units, pc, Answer(entries, units, pc, position)))
       <==> NotHidden(units, pc)
  {
    hide IsIndex, Found, Hidden;
    if NotHidden(units, pc) {
      forall entries, position | IsIndex(entries, units) && Found(entries, pc, position)
        ensures IsLastHolder(units, pc, Answer(entries, units, pc, position))
      {
        CacheAgrees(entries, units, pc, position);
      }
    } else {
      var u :| 0 <= u < |units| && IsLastHolder(units, pc, Some(u)) && Hidden(units, u, pc);
      var entries, position := HiddenGoesWrong(units, u, pc);
    }
  }

  // ---------------------------------------------------------------- the resolver

  ghost predicate HasRanges(units: seq<Unit>) {
    exists u :: 0 <= u < |units| && Coalesced(units[u].ranges) != []
  }

  class DwarfResolver {
    const units: seq<Unit>
    const cuCache: RangeMap<nat>
    var generatedCuCache: bool

    /** Before it is generated the cache is empty, unless the handles have run out in an attempt. */
    ghost predicate Valid()
      reads this, cuCache
    {
      && cuCache.Valid()
      && (generatedCuCache ==>
            cuCache.items == BuiltItems(units, |units|) && IsIndex(cuCache.rangeEntries, units))
      && (!generatedCuCache ==>
            || (cuCache.items == [] && cuCache.rangeEntries == [])
            || (HasRanges(units) && |cuCache.items| >= MAX_HANDLE))
    }

    constructor (units: seq<Unit>)
      ensures Valid() && this.units == units && fresh(cuCache)
    {
      this.units := units;
      cuCache := new RangeMap<nat>();
      generatedCuCache := false;
    }

    /** Walks every unit. The visitor asks to stop when it finds the pc, but the list walk drops the
        answer to its first call, so the last unit that holds the pc wins. */
    method LookupCuByWalk(pc: Address) returns (info: Option<nat>)
      ensures IsLastHolder(units, pc, info)
    {
      info := None;
      for u := 0 to |units|
        invariant match info
                  case None => forall v :: 0 <= v < u ==> !UnitHolds(units, v, pc)
                  case Some(w) => w < u && UnitHolds(units, w, pc) && forall v :: w < v < u ==> !UnitHolds(units, v, pc)
      {
        var holds := PcInDie(units[u].ranges, pc);
        if holds {
          info := Some(u);
        }
      }
    }

    /** Fails only when the handles run out. */
    method LazyGenerateCuCache() returns (r: Result<(), VerifyFailed>)
      requires Valid()
      modifies this, cuCache
      ensures Valid() && (r.Ok? ==> generatedCuCache)
      ensures |old(cuCache.items)| + |units| < MAX_HANDLE || old(generatedCuCache) ==> r.Ok?
    {
      hide Coalesced, BuiltItems, BuiltEntries;
      if !generatedCuCache {
        ghost var usable := cuCache.items == [];
        NothingBuilt(units);
        for u := 0 to |units|
          invariant cuCache.Valid() && !generatedCuCache
          invariant |cuCache.items| <= |old(cuCache.items)| + u
          invariant usable ==> IsBuilt(cuCache.rangeEntries, cuCache.items, units, u)
          invariant !usable ==> cuCache.items == old(cuCache.items) && forall v :: 0 <= v < u ==> Coalesced(units[v].ranges) == []
        {
          BuiltOneMore(units, u);
          var _ :- AddUnit(u);
        }
        cuCache.Finalize();
        generatedCuCache := true;
      }
      return Ok(());
    }

    /** What the walk does at one unit: its coalesced ranges go under one handle. */
    method AddUnit(u: nat) returns (r: Result<(), VerifyFailed>)
      requires cuCache.Valid() && u < |units|
      modifies cuCache
      ensures cuCache.Valid()
      ensures r.Err? <==> Coalesced(units[u].ranges) != [] && |old(cuCache.items)| + 1 >= MAX_HANDLE
      ensures cuCache.items == old(cuCache.items) + if Coalesced(units[u].ranges) == [] then [] else [u]
      ensures cuCache.rangeEntries == old(cuCache.rangeEntries)
           + if r.Ok? then Tagged(|old(cuCache.items)|, Coalesced(units[u].ranges)) else []
    {
      hide Coalesced;
      var ranges := GetRangelistEntries(units[u].ranges);
      ghost var entries, items := cuCache.rangeEntries, cuCache.items;
      if ranges != [] {
        var handle :- cuCache.AddItem(u);
        for i := 0 to |ranges|
          invariant cuCache.Valid() && cuCache.items == items + [u] && handle == |items|
          invariant cuCache.rangeEntries == entries + Tagged(handle, ranges[..i])
        {
          cuCache.Insert(handle, ranges[i].low, ranges[i].high);
          TaggedOneMore(handle, ranges, i);
        }
        assert ranges[..|ranges|] == ranges;
      } else {
        assert entries + Tagged(|items|, []) == entries;
      }
      return Ok(());
    }

    /** With the cache, while the unit that the walk finds is not hidden: that unit. */
    method LookupCu(pc: Address, prioritizeMemory: bool) returns (r: Result<Option<nat>, VerifyFailed>)
      requires Valid()
      modifies this, cuCache
      ensures Valid()
      ensures r.Ok? && r.value.Some? ==> UnitHolds(units, r.value.value, pc)
      ensures prioritizeMemory ==> r.Ok? && IsLastHolder(units, pc, r.value)
      ensures |old(cuCache.items)| + |units| < 0xffff_ffff || old(generatedCuCache) ==> r.Ok?
      ensures r.Ok? && (prioritizeMemory || NotHidden(units, pc)) ==> IsLastWithRange(units, pc, r.value)
      ensures r.Ok? && !prioritizeMemory ==>
                IsIndex(cuCache.rangeEntries, units)
                && exists i :: Found(cuCache.rangeEntries, pc, i) && r.value == Answer(cuCache.rangeEntries, units, pc, i)
      ensures r.Ok? && NotHidden(units, pc) ==> IsLastHolder(units, pc, r.value)
    {
      hide Coalesced, BuiltItems, BuiltEntries, NotHidden;
      if prioritizeMemory {
        var walked := LookupCuByWalk(pc);
        HolderHasRange(units, pc, walked);
        return Ok(walked);
      }
      var _ :- LazyGenerateCuCache();
      assert SortedBy(cuCache.rangeEntries, Low);
      var res, position := cuCache.Lookup(pc);
      var info := None;
      if res.Some? {
        InIndex(cuCache.rangeEntries, units, cuCache.rangeEntries[position.value]);
        assert res.value == Owner(cuCache.rangeEntries[position.value], units);
        var holds := PcInDie(units[res.value].ranges, pc);
        if holds {
          info := res;
        }
      }
      assert Found(cuCache.rangeEntries, pc, position) && info == Answer(cuCache.rangeEntries, units, pc, position);
      if NotHidden(units, pc) {
        CacheAgrees(cuCache.rangeEntries, units, pc, position);
        HolderHasRange(units, pc, info);
      }
      return Ok(info);
    }
  }

  lemma NothingBuilt(units: seq<Unit>)
    ensures IsBuilt([], [], units, 0)
  {
  }

  lemma BuiltOneMore(units: seq<Unit>, u: nat)
    requires u < |units|
    ensures BuiltItems(units, u + 1) == BuiltItems(units, u) + if Coalesced(units[u].ranges) == [] then [] else [u]
    ensures BuiltEntries(units, u + 1) == BuiltEntries(units, u) + Tagged(|BuiltItems(units, u)|, Coalesced(units[u].ranges))
  {
  }

  /** An empty range hides the unit around it. */
  lemma EmptyRangeHidesUnit()
    ensures var units := [Unit([Range(0x10, 0x40)]), Unit([Range(0x20, 0x20)])];
            AllProper(units) && IsLastHolder(units, 0x30, Some(0)) && Hidden(units, 0, 0x30)
  {
    InnerRangeHidesUnit([Unit([Range(0x10, 0x40)]), Unit([Range(0x20, 0x20)])], Range(0x10, 0x40), Range(0x20, 0x20), 0x30);
  }

  /** So does any range inside, from its end on. */
  lemma InnerRangeHidesUnit(units: seq<Unit>, outer: Range, inner: Range, pc: Address)
    requires units == [Unit([outer]), Unit([inner])]
    requires outer.low <= inner.low <= inner.high <= pc < outer.high
    ensures AllProper(units) && IsLastHolder(units, pc, Some(0)) && Hidden(units, 0, pc)
  {
    OneRange(outer, pc);
    OneRange(inner, pc);
    hide Coalesced, InRanges;
    assert Hides(inner, [outer], pc);
    assert inner in Coalesced(units[1].ranges);
  }

  lemma OneRange(r: Range, pc: Address)
    ensures Coalesced([r]) == [r]
    ensures InRanges(pc, [r]) <==> InRange(pc, r)
  {
    assert [r][0] == r;
    assert [r][..0] == [];
    assert Coalesced([]) == [];
  }
}
