/** Inlined calls: the iterative walk of src/symbols/dwarf/dwarf_resolver.cpp over an entry's children,
    and the flattening of a trace in src/symbols/symbols_with_libdwarf.cpp. */
module Inlines {
  import opened Wrappers
  import opened DwarfRanges
  import opened Words

  // ---------------------------------------------------------------- entries

  datatype Tag = Subprogram | InlinedSubroutine | LexicalBlock | OtherTag

  /** A debugging information entry with its name resolved. */
  datatype Die = Die(
    tag: Tag, ranges: seq<Range>, name: string,
    callFile: Option<nat>, callLine: Option<nat>, callColumn: Option<nat>, children: seq<Die>)

  /** What the file numbers of a unit mean: the version of its line table, if it has one, and its files. */
  datatype Files = Files(tableVersion: Option<nat>, names: seq<string>)

  datatype Location = Location(line: nat, column: nat, filename: string)

  datatype Frame = Frame(rawAddress: nat, objectAddress: nat, location: Location, symbol: string, isInline: bool)

  function Uint32Or0(value: Option<nat>): nat {
    if value.Some? then Uint32(value.value) else 0
  }

  /** File numbers start at 1 before version 5, where 0 means no file, and at 0 from version 5 on. */
  function CallFile(number: Option<nat>, files: Files): string {
    if number.None? then ""
    else
      var oneBased := files.tableVersion.Some? && files.tableVersion.value != 5;
      if oneBased && number.value == 0 then ""
      else
        var i := if oneBased then number.value - 1 else number.value;
        if i < |files.names| then files.names[i] else ""
  }

  function CallSite(d: Die, files: Files): Location {
    Location(Uint32Or0(d.callLine), Uint32Or0(d.callColumn), CallFile(d.callFile, files))
  }

  function InlineFrame(d: Die, files: Files): Frame {
    Frame(0, 0, CallSite(d, files), d.name, true)
  }

  predicate MayHoldInlines(d: Die) {
    d.tag.InlinedSubroutine? || d.tag.LexicalBlock?
  }

  ghost predicate IsTarget(d: Die, pc: Address) {
    MayHoldInlines(d) && InRanges(pc, d.ranges)
  }

  // ---------------------------------------------------------------- the walk

  /** From an entry down: the first child that is an inlined call or a block and holds the pc, and so on. */
  ghost function Descent(d: Die, pc: Address): seq<Die>
    decreases d, 1
  {
    DescentFrom(d.children, pc)
  }

  ghost function DescentFrom(siblings: seq<Die>, pc: Address): seq<Die>
    decreases siblings, 0
  {
    if siblings == [] then []
    else if IsTarget(siblings[0], pc) then [siblings[0]] + Descent(siblings[0], pc)
    else DescentFrom(siblings[1..], pc)
  }

  ghost predicate IsInlined(d: Die) {
    d.tag.InlinedSubroutine?
  }

  /** The inlined calls of a list, in order. */
  ghost function Inlined(dies: seq<Die>): seq<Die> {
    if dies == [] then []
    else (if IsInlined(dies[0]) then [dies[0]] else []) + Inlined(dies[1..])
  }

  ghost function InlineFrames(dies: seq<Die>, files: Files): (r: seq<Frame>)
    ensures |r| == |dies| && forall i :: 0 <= i < |r| ==> r[i] == InlineFrame(dies[i], files)
  {
    seq(|dies|, i requires 0 <= i < |dies| => InlineFrame(dies[i], files))
  }

  /** The inlined calls at the pc, outermost first. */
  ghost function InlinesAt(d: Die, pc: Address): seq<Die> {
    Inlined(Descent(d, pc))
  }

  lemma {:induction false} InlinedConcat(a: seq<Die>, b: seq<Die>)
    ensures Inlined(a + b) == Inlined(a) + Inlined(b)
  {
    if a == [] {
      assert a + b == b;
    } else {
      assert (a + b)[1..] == a[1..] + b && (a + b)[0] == a[0];
      InlinedConcat(a[1..], b);
      var first := if IsInlined(a[0]) then [a[0]] else [];
      assert first + (Inlined(a[1..]) + Inlined(b)) == (first + Inlined(a[1..])) + Inlined(b);
    }
  }

  lemma StepDown(d: Die, t: Die, pc: Address)
    requires Descent(d, pc) == [t] + Descent(t, pc)
    ensures InlinesAt(d, pc) == (if IsInlined(t) then [t] else []) + InlinesAt(t, pc)
  {
    hide Descent;
    InlinedConcat([t], Descent(t, pc));
  }

  lemma OneMoreFrame(dies: seq<Die>, d: Die, files: Files)
    ensures InlineFrames(dies + [d], files) == InlineFrames(dies, files) + [InlineFrame(d, files)]
  {
  }

  /** The recursion broken out into a loop. */
  method GetInlinesInfo(die: Die, pc: Address, files: Files) returns (inlines: seq<Frame>)
    ensures inlines == InlineFrames(InlinesAt(die, pc), files)
  {
    hide InlinesAt, InlineFrames, Descent, InlineFrame;
    inlines := [];
    ghost var found: seq<Die> := [];
    var current := Some(die);
    while current.Some?
      invariant inlines == InlineFrames(found, files)
      invariant InlinesAt(die, pc) == found + (if current.Some? then InlinesAt(current.value, pc) else [])
      decreases current.Some?, if current.Some? then current.value else die
    {
      var target := WalkToTarget(current.value, pc);
      if target.Some? {
        StepDown(current.value, target.value, pc);
        if target.value.tag.InlinedSubroutine? {
          OneMoreFrame(found, target.value, files);
          inlines := inlines + [InlineFrame(target.value, files)];
          found := found + [target.value];
        }
      } else {
        NoDescent(current.value, pc);
      }
      current := target;
    }
  }

  lemma NoDescent(d: Die, pc: Address)
    requires Descent(d, pc) == []
    ensures InlinesAt(d, pc) == []
  {
  }

  /** Visits the children until one is a target. */
  method WalkToTarget(die: Die, pc: Address) returns (target: Option<Die>)
    ensures match target
            case None => Descent(die, pc) == []
            case Some(t) => t in die.children && IsTarget(t, pc) && Descent(die, pc) == [t] + Descent(t, pc)
  {
    target := None;
    var i := 0;
    while i < |die.children| && target.None?
      invariant 0 <= i <= |die.children|
      invariant match target
                case None => Descent(die, pc) == DescentFrom(die.children[i..], pc)
                case Some(t) => t in die.children && IsTarget(t, pc) && Descent(die, pc) == [t] + Descent(t, pc)
    {
      var child := die.children[i];
      var holds := PcInDie(child.ranges, pc);
      if MayHoldInlines(child) && holds {
        target := Some(child);
      }
      i := i + 1;
    }
  }

  // ---------------------------------------------------------------- the way down

  /** What the walk goes into. */
  ghost predicate IsOnWay(d: Die, pc: Address) {
    && (d.tag == InlinedSubroutine || d.tag == LexicalBlock)
    && exists r :: r in d.ranges && r.low <= pc < r.high
  }

  /** From d down to an entry that has no child to go into, each entry the first such child of the one before. */
  ghost predicate IsWayDown(d: Die, pc: Address, path: seq<Die>)
    decreases |path|
  {
    if path == [] then forall c | c in d.children :: !IsOnWay(c, pc)
    else
      && (exists i :: 0 <= i < |d.children| && path[0] == d.children[i] && IsOnWay(path[0], pc)
                      && forall j :: 0 <= j < i ==> !IsOnWay(d.children[j], pc))
      && IsWayDown(path[0], pc, path[1..])
  }

  lemma TargetsAreOnWay(d: Die, pc: Address)
    ensures IsTarget(d, pc) <==> IsOnWay(d, pc)
  {
    if IsTarget(d, pc) {
      var i :| 0 <= i < |d.ranges| && InRange(pc, d.ranges[i]);
      assert d.ranges[i] in d.ranges;
    }
    if IsOnWay(d, pc) {
      var r :| r in d.ranges && r.low <= pc < r.high;
      var i :| 0 <= i < |d.ranges| && d.ranges[i] == r;
      assert InRange(pc, d.ranges[i]);
    }
  }

  lemma {:induction false} FirstOnWay(d: Die, k: nat, pc: Address)
    requires k <= |d.children| && forall j :: 0 <= j < k ==> !IsOnWay(d.children[j], pc)
    ensures var path := DescentFrom(d.children[k..], pc);
            if path == [] then forall c | c in d.children :: !IsOnWay(c, pc)
            else
              && path[1..] == Descent(path[0], pc) && path[0] in d.children
              && exists i :: 0 <= i < |d.children| && path[0] == d.children[i] && IsOnWay(path[0], pc)
                             && forall j :: 0 <= j < i ==> !IsOnWay(d.children[j], pc)
    decreases |d.children| - k
  {
    hide IsTarget, IsOnWay;
    if k < |d.children| {
      TargetsAreOnWay(d.children[k], pc);
      assert d.children[k..][1..] == d.children[k + 1..];
      if !IsOnWay(d.children[k], pc) {
        FirstOnWay(d, k + 1, pc);
      }
    }
  }

  lemma {:induction false} DescentIsWayDown(d: Die, pc: Address)
    ensures IsWayDown(d, pc, Descent(d, pc))
    decreases d
  {
    hide IsOnWay;
    FirstOnWay(d, 0, pc);
    assert d.children[0..] == d.children;
    var path := Descent(d, pc);
    if path != [] {
      DescentIsWayDown(path[0], pc);
    }
  }

  /** js are the positions of the inlined calls among the entries, in order. */
  ghost predicate AreCalls(js: seq<nat>, dies: seq<Die>, calls: seq<Die>) {
    && |js| == |calls|
    && (forall k :: 0 <= k < |js| ==> js[k] < |dies| && calls[k] == dies[js[k]] && dies[js[k]].tag == InlinedSubroutine)
    && (forall k, m :: 0 <= k < m < |js| ==> js[k] < js[m])
    && (forall i :: 0 <= i < |dies| && dies[i].tag == InlinedSubroutine ==> i in js)
  }

  lemma {:induction false} InlinedAreCalls(dies: seq<Die>) returns (js: seq<nat>)
    ensures AreCalls(js, dies, Inlined(dies))
  {
    if dies == [] {
      js := [];
    } else {
      var n := |dies| - 1;
      var front, d := dies[..n], dies[n];
      js := InlinedAreCalls(front);
      InlinedConcat(front, [d]);
      assert dies == front + [d];
      assert Inlined([d]) == if d.tag == InlinedSubroutine then [d] else [];
      if d.tag == InlinedSubroutine {
        js := js + [n];
        assert n in js;
      }
    }
  }

  /** What GetInlinesInfo finds: the inlined calls on the way down, outermost first. */
  lemma InlinesAreOnWayDown(d: Die, pc: Address) returns (path: seq<Die>, js: seq<nat>)
    ensures IsWayDown(d, pc, path) && AreCalls(js, path, InlinesAt(d, pc))
  {
    path := Descent(d, pc);
    DescentIsWayDown(d, pc);
    js := InlinedAreCalls(path);
  }

  /** What is reported of a call: numbers that do not fit 32 bits wrap around, missing ones are 0, and there is no
      address. */
  lemma CallIsReported(d: Die, files: Files)
    ensures var f := InlineFrame(d, files);
            && f.symbol == d.name && f.isInline && f.rawAddress == 0 && f.objectAddress == 0
            && f.location.line == (if d.callLine == None then 0 else d.callLine.value % 0x1_0000_0000)
            && f.location.column == (if d.callColumn == None then 0 else d.callColumn.value % 0x1_0000_0000)
  {
  }

  /** File numbers name the files of a unit: from 1 on in line tables of versions 2 to 4, from 0 on in version 5
      and where there is no table. Any other number names none. */
  lemma CallNamesFile(d: Die, files: Files, i: nat)
    requires i < |files.names|
    ensures var filename := InlineFrame(d, files).location.filename;
            && (files.tableVersion == Some(5) || files.tableVersion == None ==>
                  (d.callFile == Some(i) ==> filename == files.names[i])
                  && (d.callFile == Some(|files.names| + i) ==> filename == ""))
            && (files.tableVersion != Some(5) && files.tableVersion != None ==>
                  (d.callFile == Some(i + 1) ==> filename == files.names[i])
                  && (d.callFile == Some(0) || d.callFile == Some(|files.names| + 1 + i) ==> filename == ""))
            && (d.callFile == None ==> filename == "")
  {
  }

  // ---------------------------------------------------------------- what the walk finds

  /** Everything below a list of siblings that can be reached through inlined calls and blocks, parents first. */
  ghost function Reachable(siblings: seq<Die>): seq<Die>
    decreases siblings
  {
    if siblings == [] then []
    else
      (if MayHoldInlines(siblings[0]) then [siblings[0]] + Reachable(siblings[0].children) else [])
      + Reachable(siblings[1..])
  }

  /** The reachable inlined calls whose ranges hold the pc. */
  ghost function Holding(dies: seq<Die>, pc: Address): seq<Die> {
    if dies == [] then []
    else (if IsInlined(dies[0]) && InRanges(pc, dies[0].ranges) then [dies[0]] else []) + Holding(dies[1..], pc)
  }

  /** What DWARF says of the ranges: a child that holds the pc lies in a parent that holds it, and of the
      siblings at most one holds it. Only inlined calls and blocks matter here. */
  ghost predicate WellNested(siblings: seq<Die>, pc: Address)
    decreases siblings
  {
    siblings != [] ==>
      && (MayHoldInlines(siblings[0]) ==>
            && WellNested(siblings[0].children, pc)
            && forall c | c in siblings[0].children && IsTarget(c, pc) :: InRanges(pc, siblings[0].ranges))
      && (IsTarget(siblings[0], pc) ==> forall d | d in siblings[1..] :: !IsTarget(d, pc))
      && WellNested(siblings[1..], pc)
  }

  /** Where no sibling holds the pc, nothing below them does. */
  lemma {:induction false} NothingHolds(siblings: seq<Die>, pc: Address)
    requires WellNested(siblings, pc) && forall d | d in siblings :: !IsTarget(d, pc)
    ensures Holding(Reachable(siblings), pc) == []
    decreases siblings
  {
    if siblings != [] {
      var d := siblings[0];
      assert !IsTarget(d, pc);
      NothingHolds(siblings[1..], pc);
      if MayHoldInlines(d) {
        NothingHolds(d.children, pc);
        HoldingConcat([d], Reachable(d.children), pc);
        HoldingConcat([d] + Reachable(d.children), Reachable(siblings[1..]), pc);
      } else {
        assert [] + Reachable(siblings[1..]) == Reachable(siblings[1..]);
      }
    }
  }

  lemma {:induction false} HoldingConcat(a: seq<Die>, b: seq<Die>, pc: Address)
    ensures Holding(a + b, pc) == Holding(a, pc) + Holding(b, pc)
  {
    if a == [] {
      assert a + b == b;
    } else {
      assert (a + b)[1..] == a[1..] + b && (a + b)[0] == a[0];
      HoldingConcat(a[1..], b, pc);
      var first := if IsInlined(a[0]) && InRanges(pc, a[0].ranges) then [a[0]] else [];
      assert first + (Holding(a[1..], pc) + Holding(b, pc)) == (first + Holding(a[1..], pc)) + Holding(b, pc);
    }
  }

  /** On well nested entries one path down finds every inlined call at the pc, and only those. */
  lemma {:induction false} DescentFindsAll(siblings: seq<Die>, pc: Address)
    requires WellNested(siblings, pc)
    ensures Inlined(DescentFrom(siblings, pc)) == Holding(Reachable(siblings), pc)
    decreases siblings
  {
    if siblings != [] {
      var d := siblings[0];
      if MayHoldInlines(d) {
        HoldingConcat([d] + Reachable(d.children), Reachable(siblings[1..]), pc);
        HoldingConcat([d], Reachable(d.children), pc);
      } else {
        assert [] + Reachable(siblings[1..]) == Reachable(siblings[1..]);
      }
      if IsTarget(d, pc) {
        DescentFindsAll(d.children, pc);
        InlinedConcat([d], Descent(d, pc));
        NothingHolds(siblings[1..], pc);
      } else {
        if MayHoldInlines(d) {
          NothingHolds(d.children, pc);
        }
        DescentFindsAll(siblings[1..], pc);
      }
    }
  }

  // ---------------------------------------------------------------- flattening

  datatype FrameWithInlines = FrameWithInlines(frame: Frame, inlines: seq<Frame>)

  ghost function Reversed<T>(s: seq<T>): (r: seq<T>)
    ensures |r| == |s| && forall i :: 0 <= i < |s| ==> r[i] == s[|s| - 1 - i]
  {
    seq(|s|, i requires 0 <= i < |s| => s[|s| - 1 - i])
  }

  ghost function Locations(frames: seq<Frame>): (r: seq<Location>)
    ensures |r| == |frames| && forall i :: 0 <= i < |r| ==> r[i] == frames[i].location
  {
    seq(|frames|, i requires 0 <= i < |frames| => frames[i].location)
  }

  /** Functions innermost first. The pc's own location goes to the innermost one, and each call site to
      the function that made the call. */
  ghost function FlatEntry(e: FrameWithInlines): (r: seq<Frame>)
    ensures |r| == |e.inlines| + 1
  {
    var functions := Reversed(e.inlines) + [e.frame];
    var locations := [e.frame.location] + Locations(Reversed(e.inlines));
    seq(|functions|, i requires 0 <= i < |functions| => functions[i].(location := locations[i]))
  }

  /** How many frames the first k entries become. */
  ghost function Offset(trace: seq<FrameWithInlines>, k: nat): nat
    requires k <= |trace|
  {
    if k == 0 then 0 else Offset(trace, k - 1) + 1 + |trace[k - 1].inlines|
  }

  /** The trace entry by entry, in order. */
  ghost predicate IsFlat(flat: seq<Frame>, trace: seq<FrameWithInlines>) {
    && |flat| == Offset(trace, |trace|)
    && forall k :: 0 <= k < |trace| ==> IsFlatFrom(flat, Offset(trace, k), trace[k])
  }

  /** From position start on, what one entry becomes: its functions innermost first and the frame's own function
      last, where the innermost one has the location of the pc and each other one that of the call in it. */
  ghost predicate IsFlatFrom(flat: seq<Frame>, start: nat, e: FrameWithInlines) {
    var n := |e.inlines|;
    && start + n < |flat|
    && (forall i :: start <= i < start + n ==>
          flat[i] == e.inlines[start + n - 1 - i].(location :=
                       if i == start then e.frame.location else e.inlines[start + n - i].location))
    && flat[start + n] == e.frame.(location := if n == 0 then e.frame.location else e.inlines[0].location)
  }

  ghost function FlatTrace(trace: seq<FrameWithInlines>): seq<Frame> {
    if trace == [] then [] else FlatTrace(trace[..|trace| - 1]) + FlatEntry(trace[|trace| - 1])
  }

  lemma {:induction false} OffsetOfPrefix(trace: seq<FrameWithInlines>, n: nat, k: nat)
    requires k <= n <= |trace|
    ensures Offset(trace[..n], k) == Offset(trace, k)
  {
    if k > 0 {
      OffsetOfPrefix(trace, n, k - 1);
    }
  }

  lemma EntryIsFlat(before: seq<Frame>, e: FrameWithInlines)
    ensures IsFlatFrom(before + FlatEntry(e), |before|, e)
  {
    var n, flat := |e.inlines|, before + FlatEntry(e);
    assert flat[|before| + n] == FlatEntry(e)[n];
    forall i | |before| <= i < |before| + n
      ensures flat[i] == FlatEntry(e)[i - |before|]
    {
    }
  }

  lemma OneMoreEntry(trace: seq<FrameWithInlines>, e: FrameWithInlines)
    ensures FlatTrace(trace + [e]) == FlatTrace(trace) + FlatEntry(e)
  {
    hide FlatEntry;
    assert (trace + [e])[..|trace|] == trace;
  }

  lemma FlatStays(flat: seq<Frame>, more: seq<Frame>, start: nat, e: FrameWithInlines)
    requires IsFlatFrom(flat, start, e)
    ensures IsFlatFrom(flat + more, start, e)
  {
  }

  lemma OneMoreIsFlat(flat: seq<Frame>, trace: seq<FrameWithInlines>, e: FrameWithInlines)
    requires IsFlat(flat, trace)
    ensures IsFlat(flat + FlatEntry(e), trace + [e])
  {
    var longer, n := trace + [e], |trace|;
    OffsetsOfLonger(trace, e);
    EntryIsFlat(flat, e);
    hide FlatEntry, IsFlatFrom, Offset;
    forall k | 0 <= k < |longer|
      ensures IsFlatFrom(flat + FlatEntry(e), Offset(longer, k), longer[k])
    {
      if k < n {
        FlatStays(flat, FlatEntry(e), Offset(trace, k), trace[k]);
      }
    }
  }

  lemma OffsetsOfLonger(trace: seq<FrameWithInlines>, e: FrameWithInlines)
    ensures forall k :: 0 <= k <= |trace| ==> Offset(trace + [e], k) == Offset(trace, k)
    ensures Offset(trace + [e], |trace| + 1) == Offset(trace, |trace|) + 1 + |e.inlines|
  {
    var longer, n := trace + [e], |trace|;
    assert longer[..n] == trace;
    forall k | 0 <= k <= n
      ensures Offset(longer, k) == Offset(trace, k)
    {
      OffsetOfPrefix(longer, n, k);
    }
  }

  /** The first entry starts the trace, and each other one follows its predecessor. */
  lemma OffsetsAreInOrder(trace: seq<FrameWithInlines>, k: nat)
    requires k < |trace|
    ensures Offset(trace, 0) == 0 && Offset(trace, k + 1) == Offset(trace, k) + 1 + |trace[k].inlines|
  {
  }

  lemma NothingFlat()
    ensures FlatTrace([]) == [] && IsFlat([], [])
  {
  }

  /** Traces one after the other become flat traces one after the other. */
  lemma {:induction false} FlatConcat(a: seq<FrameWithInlines>, b: seq<FrameWithInlines>)
    ensures FlatTrace(a + b) == FlatTrace(a) + FlatTrace(b)
    decreases |b|
  {
    hide *;
    NothingFlat();
    if b == [] {
      assert a + b == a;
    } else {
      var n := |b| - 1;
      var front, e := b[..n], b[n];
      assert b == front + [e] && a + b == (a + front) + [e];
      FlatConcat(a, front);
      OneMoreEntry(a + front, e);
      OneMoreEntry(front, e);
    }
  }

  /** Locations move one place on and the last comes to the front, in place. */
  method RotateLocations(frames: seq<Frame>, begin: nat) returns (r: seq<Frame>)
    requires begin < |frames|
    ensures |r| == |frames| && r[..begin] == frames[..begin]
    ensures r[begin] == frames[begin].(location := frames[|frames| - 1].location)
    ensures forall i :: begin < i < |r| ==> r[i] == frames[i].(location := frames[i - 1].location)
  {
    r := frames;
    var end := |frames| - 1;
    var carry := r[end].location;
    var it := end;
    while it != begin
      invariant begin <= it <= end && |r| == |frames|
      invariant r[..it] == frames[..it]
      invariant r[it].(location := frames[it].location) == frames[it]
      invariant forall i :: it < i <= end ==> r[i] == frames[i].(location := frames[i - 1].location)
    {
      r := r[it := r[it].(location := r[it - 1].location)];
      it := it - 1;
    }
    r := r[begin := r[begin].(location := carry)];
  }

  /** The entries come out in the order of the trace, each where the frames of the earlier ones end. */
  method FlattenInlines(trace: seq<FrameWithInlines>) returns (finalTrace: seq<Frame>)
    ensures IsFlat(finalTrace, trace) && finalTrace == FlatTrace(trace)
  {
    hide FlatTrace, FlatEntry, IsFlat;
    NothingFlat();
    finalTrace := [];
    for n := 0 to |trace|
      invariant finalTrace == FlatTrace(trace[..n]) && IsFlat(finalTrace, trace[..n])
    {
      var entry := trace[n];
      ghost var before := finalTrace;
      // innermost first
      var reversed := seq(|entry.inlines|, i requires 0 <= i < |entry.inlines| => entry.inlines[|entry.inlines| - 1 - i]);
      finalTrace := finalTrace + reversed + [entry.frame];
      assert reversed == Reversed(entry.inlines);
      if entry.inlines != [] {
        finalTrace := RotateLocations(finalTrace, |finalTrace| - (1 + |entry.inlines|));
        RotationFlattens(before, entry, before + reversed + [entry.frame], finalTrace);
      } else {
        NoInlines(before, entry);
      }
      assert trace[..n + 1] == trace[..n] + [entry];
      OneMoreEntry(trace[..n], entry);
      OneMoreIsFlat(before, trace[..n], entry);
    }
    assert trace[..|trace|] == trace;
  }

  lemma NoInlines(before: seq<Frame>, e: FrameWithInlines)
    requires e.inlines == []
    ensures before + Reversed(e.inlines) + [e.frame] == before + FlatEntry(e)
  {
    assert FlatEntry(e) == [e.frame];
  }

  lemma RotationFlattens(before: seq<Frame>, e: FrameWithInlines, joined: seq<Frame>, rotated: seq<Frame>)
    requires joined == before + Reversed(e.inlines) + [e.frame] && |rotated| == |joined|
    requires rotated[..|before|] == joined[..|before|]
    requires rotated[|before|] == joined[|before|].(location := joined[|joined| - 1].location)
    requires forall i :: |before| < i < |rotated| ==> rotated[i] == joined[i].(location := joined[i - 1].location)
    ensures rotated == before + FlatEntry(e)
  {
    var n := |before|;
    assert joined[..n] == before;
    forall i | n <= i < |rotated|
      ensures rotated[i] == FlatEntry(e)[i - n]
    {
      assert joined[i] == (Reversed(e.inlines) + [e.frame])[i - n];
      if i > n {
        assert joined[i - 1] == Reversed(e.inlines)[i - 1 - n];
      }
    }
  }

  /** Resolving a function and flattening: the innermost inlined function comes first with the pc's own
      location, then each function that inlined it, located at the call it made, and last the function itself. */
  lemma FlattenedInlines(die: Die, pc: Address, files: Files, frame: Frame)
    ensures var inlined := InlinesAt(die, pc);
            var flat := FlatEntry(FrameWithInlines(frame, InlineFrames(inlined, files)));
            var n := |inlined|;
            && |flat| == n + 1
            && flat[0].location == frame.location
            && (forall i :: 0 <= i < n ==> flat[i].symbol == inlined[n - 1 - i].name && flat[i].isInline)
            && (forall i :: 0 < i <= n ==> flat[i].location == CallSite(inlined[n - i], files))
            && flat[n].symbol == frame.symbol && flat[n].rawAddress == frame.rawAddress && flat[n].isInline == frame.isInline
  {
    var inlined := InlinesAt(die, pc);
    var frames := InlineFrames(inlined, files);
    var n := |inlined|;
    var flat := FlatEntry(FrameWithInlines(frame, frames));
    forall i | 0 < i <= n
      ensures flat[i].location == CallSite(inlined[n - i], files)
    {
      assert Reversed(frames)[i - 1] == frames[n - i];
    }
  }
}
