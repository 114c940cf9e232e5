/** Completing the frames that one resolver left incomplete with what another one finds
    (src/symbols/symbols_core.cpp). */
module BlankFrames {
  import opened Inlines

  predicate IsBlank(f: Frame) {
    f.symbol == "" || f.location.filename == ""
  }

  /** Only what is missing is taken over. */
  function Merged(f: Frame, found: Frame): Frame {
    if f.symbol == "" && f.location.filename == "" then found
    else if f.symbol == "" then f.(symbol := found.symbol)
    else f.(location := found.location)
  }

  function BlankAddresses(frames: seq<Frame>): seq<nat> {
    if frames == [] then []
    else
      var n := |frames| - 1;
      BlankAddresses(frames[..n]) + if IsBlank(frames[n]) then [frames[n].rawAddress] else []
  }

  /** A resolver that gives one frame for each address, in order. */
  ghost predicate IsPointwise(resolver: seq<nat> -> seq<Frame>, one: nat -> Frame) {
    forall addresses :: IsPointwiseAt(resolver(addresses), addresses, one)
  }

  ghost predicate IsPointwiseAt(found: seq<Frame>, addresses: seq<nat>, one: nat -> Frame) {
    |found| == |addresses| && forall i :: 0 <= i < |found| ==> found[i] == one(addresses[i])
  }

  lemma {:induction false} BlankAddressAt(frames: seq<Frame>, k: nat)
    requires k < |frames| && IsBlank(frames[k])
    ensures var n := |BlankAddresses(frames[..k])|;
            n < |BlankAddresses(frames)| && BlankAddresses(frames)[n] == frames[k].rawAddress
  {
    var last := |frames| - 1;
    if k < last {
      assert frames[..last][..k] == frames[..k];
      BlankAddressAt(frames[..last], k);
    }
  }

  /** Each blank frame is completed with what was found for its own address. */
  method FillBlanks(vec: array<Frame>, resolver: seq<nat> -> seq<Frame>, ghost one: nat -> Frame)
    requires IsPointwise(resolver, one)
    modifies vec
    ensures forall k :: 0 <= k < vec.Length ==> IsCompleted(vec[k], old(vec[k]), one(old(vec[k].rawAddress)))
  {
    hide Merged, IsCompleted;
    ghost var before := vec[..];
    var addresses: seq<nat> := [];
    for k := 0 to vec.Length
      invariant addresses == BlankAddresses(before[..k])
    {
      assert before[..k + 1][..k] == before[..k];
      if IsBlank(vec[k]) {
        addresses := addresses + [vec[k].rawAddress];
      }
    }
    assert before[..vec.Length] == before;
    var newFrames := resolver(addresses);
    assert IsPointwiseAt(newFrames, addresses, one);
    var i := 0;
    for k := 0 to vec.Length
      invariant i == |BlankAddresses(before[..k])|
      invariant forall m :: 0 <= m < vec.Length ==>
                  vec[m] == if m < k && IsBlank(before[m]) then Merged(before[m], one(before[m].rawAddress)) else before[m]
    {
      assert before[..k + 1][..k] == before[..k];
      if IsBlank(vec[k]) {
        BlankAddressAt(before, k);
        vec[k] := Merged(vec[k], newFrames[i]);
        i := i + 1;
      }
    }
    forall k | 0 <= k < vec.Length
      ensures IsCompleted(vec[k], before[k], one(before[k].rawAddress))
    {
      MergedIsCompleted(before[k], one(before[k].rawAddress));
    }
  }

  /** A symbol or a file that is there stays, and one that is missing is the one found; line and column go with the
      file. The rest of the frame changes only if both are missing, and then all of it is what was found. */
  ghost predicate IsCompleted(f: Frame, before: Frame, found: Frame) {
    && f.symbol == (if before.symbol == "" then found.symbol else before.symbol)
    && f.location == (if before.location.filename == "" then found.location else before.location)
    && (if before.symbol == "" && before.location.filename == "" then f == found
        else f.(symbol := before.symbol, location := before.location) == before)
  }

  lemma MergedIsCompleted(f: Frame, found: Frame)
    ensures IsCompleted(if IsBlank(f) then Merged(f, found) else f, f, found)
  {
  }
}
