/** Address ranges of DWARF entries: the membership test, and the coalescing of range lists in
    src/symbols/dwarf/dwarf.hpp. */
module DwarfRanges {
  const ADDRESS_SPACE: int := 0x1_0000_0000_0000_0000
  const MAX_ADDRESS: int := ADDRESS_SPACE - 1

  type Address = a: int | 0 <= a < ADDRESS_SPACE

  /** From low up to but not including high. */
  datatype Range = Range(low: Address, high: Address)

  predicate InRange(pc: Address, r: Range) {
    r.low <= pc < r.high
  }

  ghost predicate InRanges(pc: Address, ranges: seq<Range>) {
    exists i :: 0 <= i < |ranges| && InRange(pc, ranges[i])
  }

  /** Unsigned subtraction. */
  function Minus(a: Address, b: Address): Address {
    (a - b) % ADDRESS_SPACE
  }

  /** The ranges arrive one by one; pc_in_die stops at the first that holds the pc. */
  method PcInDie(ranges: seq<Range>, pc: Address) returns (found: bool)
    ensures found <==> exists r :: r in ranges && r.low <= pc < r.high
    ensures found <==> InRanges(pc, ranges)
  {
    HeldByMember(ranges, pc);
    found := false;
    var i := 0;
    while i < |ranges| && !found
      invariant 0 <= i <= |ranges|
      invariant found ==> InRanges(pc, ranges)
      invariant !found ==> forall j :: 0 <= j < i ==> !InRange(pc, ranges[j])
    {
      if InRange(pc, ranges[i]) {
        found := true;
      }
      i := i + 1;
    }
  }

  lemma HeldByMember(ranges: seq<Range>, pc: Address)
    ensures InRanges(pc, ranges) <==> exists r :: r in ranges && r.low <= pc < r.high
  {
    if InRanges(pc, ranges) {
      var i :| 0 <= i < |ranges| && InRange(pc, ranges[i]);
      assert ranges[i] in ranges;
    }
    if r :| r in ranges && r.low <= pc < r.high {
      var i :| 0 <= i < |ranges| && ranges[i] == r;
      assert InRange(pc, ranges[i]);
    }
  }

  // ---------------------------------------------------------------- coalescing

  function Extend(ranges: seq<Range>, r: Range): (s: seq<Range>)
    ensures s != []
  {
    if ranges != [] && Minus(r.low, ranges[|ranges| - 1].high) <= 1 then
      ranges[..|ranges| - 1] + [Range(ranges[|ranges| - 1].low, r.high)]
    else ranges + [r]
  }

  function Coalesced(ranges: seq<Range>): seq<Range> {
    if ranges == [] then [] else Extend(Coalesced(ranges[..|ranges| - 1]), ranges[|ranges| - 1])
  }

  method GetRangelistEntries(ranges: seq<Range>) returns (vec: seq<Range>)
    ensures vec == Coalesced(ranges)
  {
    vec := [];
    for i := 0 to |ranges|
      invariant vec == Coalesced(ranges[..i])
    {
      var low, high := ranges[i].low, ranges[i].high;
      assert ranges[..i + 1][..i] == ranges[..i];
      if vec != [] && Minus(low, vec[|vec| - 1].high) <= 1 {
        vec := vec[|vec| - 1 := vec[|vec| - 1].(high := high)];
      } else {
        vec := vec + [Range(low, high)];
      }
    }
    assert ranges[..|ranges|] == ranges;
  }

  ghost predicate Forward(ranges: seq<Range>) {
    forall i :: 0 <= i < |ranges| ==> ranges[i].low <= ranges[i].high
  }

  /** No range that ends at the last address is followed by one that starts at 0. */
  ghost predicate NoWrap(ranges: seq<Range>) {
    forall i :: 0 < i < |ranges| ==> !(ranges[i - 1].high == MAX_ADDRESS && ranges[i].low == 0)
  }

  /** The pc is the one byte between two ranges listed one after the other. */
  ghost predicate IsGap(pc: Address, ranges: seq<Range>) {
    exists i :: 0 < i < |ranges| && ranges[i - 1].high == pc && ranges[i].low == pc + 1
  }

  /** Coalescing keeps every address and adds only single-byte gaps. */
  lemma {:induction false} CoalescingIsExact(ranges: seq<Range>, pc: Address)
    requires Forward(ranges) && NoWrap(ranges)
    ensures Forward(Coalesced(ranges))
    ensures ranges != [] ==> Coalesced(ranges)[|Coalesced(ranges)| - 1].high == ranges[|ranges| - 1].high
    ensures InRanges(pc, ranges) ==> InRanges(pc, Coalesced(ranges))
    ensures InRanges(pc, Coalesced(ranges)) ==> InRanges(pc, ranges) || IsGap(pc, ranges)
  {
    if ranges != [] {
      hide InRanges, IsGap, Extend, Minus;
      var front, r := ranges[..|ranges| - 1], ranges[|ranges| - 1];
      assert front + [r] == ranges;
      CoalescingIsExact(front, pc);
      KeepsAddresses(Coalesced(front), r, pc);
      OneMoreRange(front, r, pc);
      assert front == [] ==> Coalesced(front) == [];
    }
  }

  /** Between the end of each range and the start of the next, going up and around, lie two bytes or more. */
  ghost predicate AreTwoApart(ranges: seq<Range>) {
    forall i :: 0 <= i < |ranges| - 1 ==> (ranges[i + 1].low - ranges[i].high) % 0x1_0000_0000_0000_0000 >= 2
  }

  lemma OneMoreApart(before: seq<Range>, r: Range)
    requires AreTwoApart(before)
    ensures AreTwoApart(Extend(before, r))
  {
    var after := Extend(before, r);
    forall i | 0 <= i < |after| - 1
      ensures (after[i + 1].low - after[i].high) % 0x1_0000_0000_0000_0000 >= 2
    {
      assert after[i] == before[i];
      if i + 1 < |before| {
        assert after[i + 1].low == before[i + 1].low;
      } else {
        assert after[i + 1].low == r.low && Minus(r.low, before[i].high) > 1;
      }
    }
  }

  /** What coalescing leaves cannot be coalesced. */
  lemma {:induction false} CoalescedAreApart(ranges: seq<Range>)
    ensures AreTwoApart(Coalesced(ranges))
  {
    hide AreTwoApart, Extend;
    if ranges == [] {
      NoneApart();
    } else {
      CoalescedAreApart(ranges[..|ranges| - 1]);
      OneMoreApart(Coalesced(ranges[..|ranges| - 1]), ranges[|ranges| - 1]);
    }
  }

  lemma NoneApart()
    ensures AreTwoApart([])
  {
  }

  lemma OneMoreRange(front: seq<Range>, r: Range, pc: Address)
    ensures InRanges(pc, front + [r]) <==> InRanges(pc, front) || InRange(pc, r)
    ensures IsGap(pc, front) ==> IsGap(pc, front + [r])
    ensures front != [] && front[|front| - 1].high == pc && r.low == pc + 1 ==> IsGap(pc, front + [r])
  {
    var ranges := front + [r];
    assert forall i :: 0 <= i < |front| ==> ranges[i] == front[i];
    assert ranges[|front|] == r;
    if i :| 0 <= i < |front| && InRange(pc, front[i]) {
      assert InRange(pc, ranges[i]);
    }
    if i :| 0 < i < |front| && front[i - 1].high == pc && front[i].low == pc + 1 {
      assert ranges[i - 1].high == pc && ranges[i].low == pc + 1;
    }
    if front != [] && front[|front| - 1].high == pc && r.low == pc + 1 {
      assert ranges[|front| - 1].high == pc && ranges[|front|].low == pc + 1;
    }
  }

  /** One step: what was covered stays covered, and only the byte before the new range may be added. */
  lemma KeepsAddresses(before: seq<Range>, r: Range, pc: Address)
    requires Forward(before) && r.low <= r.high
    requires before != [] ==> !(before[|before| - 1].high == MAX_ADDRESS && r.low == 0)
    ensures var after := Extend(before, r);
            && Forward(after) && after[|after| - 1].high == r.high
            && (InRanges(pc, before) || InRange(pc, r) ==> InRanges(pc, after))
            && (InRanges(pc, after) ==>
                  InRanges(pc, before) || InRange(pc, r)
                  || (before != [] && before[|before| - 1].high == pc && r.low == pc + 1))
  {
    var after := Extend(before, r);
    var n := |before| - 1;
    if before != [] && Minus(r.low, before[n].high) <= 1 {
      assert r.low == before[n].high || r.low == before[n].high + 1;
      assert forall i :: 0 <= i < n ==> after[i] == before[i];
      assert after[n] == Range(before[n].low, r.high);
      if InRange(pc, before[n]) || InRange(pc, r) {
        assert InRange(pc, after[n]);
      }
    } else {
      assert after[|before|] == r;
      assert forall i :: 0 <= i < |before| ==> after[i] == before[i];
    }
    if InRanges(pc, before) {
      var i :| 0 <= i < |before| && InRange(pc, before[i]);
      assert InRange(pc, after[i]);
    }
    if InRanges(pc, after) {
      var i :| 0 <= i < |after| && InRange(pc, after[i]);
      assert i < |before| ==> InRange(pc, before[i]) || i == n;
    }
  }

  // ---------------------------------------------------------------- when coalescing loses addresses

  ghost predicate NonEmptyAndApart(ranges: seq<Range>) {
    && (forall i :: 0 <= i < |ranges| ==> ranges[i].low < ranges[i].high)
    && forall i, j :: 0 <= i < j < |ranges| ==> ranges[i].high <= ranges[j].low || ranges[j].high <= ranges[i].low
  }

  /** Range i is taken for the continuation of the one before. */
  predicate Merges(ranges: seq<Range>, i: int)
    requires 0 < i < |ranges|
  {
    Minus(ranges[i].low, ranges[i - 1].high) <= 1
  }

  /** Where the coalesced range e ends: with range j, behind which nothing was merged. */
  ghost predicate EndsWith(e: Range, ranges: seq<Range>, j: int) {
    0 <= j < |ranges| && e.high == ranges[j].high && (j + 1 < |ranges| ==> !Merges(ranges, j + 1))
  }

  lemma {:induction false} CoalescedEnd(ranges: seq<Range>, k: nat) returns (j: int)
    requires k < |Coalesced(ranges)|
    ensures EndsWith(Coalesced(ranges)[k], ranges, j)
    ensures k == |Coalesced(ranges)| - 1 <==> j == |ranges| - 1
  {
    var front, r := ranges[..|ranges| - 1], ranges[|ranges| - 1];
    var before := Coalesced(front);
    assert front == [] ==> before == [];
    var merged := before != [] && Minus(r.low, before[|before| - 1].high) <= 1;
    if k == |Coalesced(ranges)| - 1 {
      j := |ranges| - 1;
    } else {
      j := CoalescedEnd(front, k);
      var last := CoalescedEnd(front, |before| - 1);
      assert j == |front| - 1 ==> !merged;
    }
  }

  /** Of non-empty ranges that do not overlap, coalescing keeps every address exactly if no range that
      ends at the last address is followed by one that starts at 0. */
  lemma KeepsExactlyWithoutWrap(ranges: seq<Range>)
    requires NonEmptyAndApart(ranges)
    ensures (forall pc: Address :: InRanges(pc, ranges) ==> InRanges(pc, Coalesced(ranges))) <==> NoWrap(ranges)
  {
    ApartIsForward(ranges);
    hide *;
    if NoWrap(ranges) {
      forall pc: Address | InRanges(pc, ranges)
        ensures InRanges(pc, Coalesced(ranges))
      {
        CoalescingIsExact(ranges, pc);
      }
    } else {
      WrapLosesAddress(ranges);
    }
  }

  lemma ApartIsForward(ranges: seq<Range>)
    requires NonEmptyAndApart(ranges)
    ensures Forward(ranges)
  {
  }

  lemma WrapLosesAddress(ranges: seq<Range>)
    requires NonEmptyAndApart(ranges) && !NoWrap(ranges)
    ensures exists pc: Address :: InRanges(pc, ranges) && !InRanges(pc, Coalesced(ranges))
  {
    hide InRanges, Coalesced;
    var i :| 0 < i < |ranges| && ranges[i - 1].high == MAX_ADDRESS && ranges[i].low == 0;
    LastAddressIsLost(ranges, i);
  }

  lemma LastAddressIsLost(ranges: seq<Range>, i: nat)
    requires NonEmptyAndApart(ranges) && 0 < i < |ranges| && ranges[i - 1].high == MAX_ADDRESS && ranges[i].low == 0
    ensures InRanges(MAX_ADDRESS - 1, ranges) && !InRanges(MAX_ADDRESS - 1, Coalesced(ranges))
  {
    assert InRange(MAX_ADDRESS - 1, ranges[i - 1]);
    assert Minus(0, MAX_ADDRESS) == 1;
    forall k | 0 <= k < |Coalesced(ranges)|
      ensures !InRange(MAX_ADDRESS - 1, Coalesced(ranges)[k])
    {
      var j := CoalescedEnd(ranges, k);
      if ranges[j].high == MAX_ADDRESS {
        assert j == i - 1;
        assert Merges(ranges, i);
        assert false;
      }
    }
  }

  /** Such a pair of ranges merges into an empty one. */
  lemma WrappingLosesAddresses()
    ensures var ranges := [Range(0x10, MAX_ADDRESS), Range(0, 5)];
            Coalesced(ranges) == [Range(0x10, 5)] && forall pc: Address :: !InRanges(pc, Coalesced(ranges))
  {
    var first, second := Range(0x10, MAX_ADDRESS), Range(0, 5);
    var ranges := [first, second];
    assert ranges[..1] == [first] && [first][..0] == [];
    assert Coalesced([]) == [];
    assert Coalesced([first]) == Extend(Coalesced([]), first) == [first];
    assert Minus(0, MAX_ADDRESS) == 1;
    assert Coalesced(ranges) == Extend([first], second) == [Range(0x10, 5)];
  }
}
