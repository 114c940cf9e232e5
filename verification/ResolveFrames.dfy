/** Resolving a trace: frames are grouped by object, resolved group by group through references into one
    vector, completed and flattened (src/symbols/symbols_core.cpp, src/symbols/symbols_with_libdwarf.cpp). */
module ResolveFrames {
  import opened Wrappers
  import opened Inlines
  import opened Words

  datatype ObjectFrame = ObjectFrame(rawAddress: nat, objectAddress: nat, objectPath: string)

  datatype Exception = Exception

  /** Line and column numbers use the largest 32-bit value for none. */
  const NO_NUMBER := UINT32 - 1

  const NULL_FRAME := Frame(0, 0, Location(NO_NUMBER, NO_NUMBER, ""), "", false)

  const NULL_ENTRY := FrameWithInlines(NULL_FRAME, [])

  function BasicFrame(f: ObjectFrame): Frame {
    Frame(f.rawAddress, f.objectAddress, Location(NO_NUMBER, NO_NUMBER, f.objectPath), "", false)
  }

  /** What the object files and the loaded code have to say. Anything may fail with an exception; the
      library option absorb says whether exceptions are swallowed. */
  datatype Environment = Environment(
    absorb: bool,
    jitSymbol: nat -> Result<Option<string>, Exception>,
    openObject: string -> Result<bool, Exception>,
    resolveFrame: ObjectFrame -> Result<FrameWithInlines, Exception>,
    tableSymbol: (string, nat) -> Result<string, Exception>)

  // ---------------------------------------------------------------- grouping

  /** The positions of the frames of one object, in the order of the trace. */
  function Positions(frames: seq<ObjectFrame>, path: string): seq<nat> {
    if frames == [] then []
    else
      var n := |frames| - 1;
      Positions(frames[..n], path) + if frames[n].objectPath == path then [n] else []
  }

  lemma {:induction false} PositionsAreExact(frames: seq<ObjectFrame>, path: string)
    ensures forall i, j :: 0 <= i < j < |Positions(frames, path)| ==> Positions(frames, path)[i] < Positions(frames, path)[j]
    ensures forall k: nat :: k in Positions(frames, path) <==> k < |frames| && frames[k].objectPath == path
  {
    if frames != [] {
      var n := |frames| - 1;
      PositionsAreExact(frames[..n], path);
      var front, last := Positions(frames[..n], path), if frames[n].objectPath == path then [n] else [];
      assert Positions(frames, path) == front + last;
      hide Positions;
      assert forall k :: k in front + last <==> k in front || k in last;
      assert forall i :: 0 <= i < |front| ==> front[i] in front;
    }
  }

  /** Each object of the trace has a group, which lists its frames in order; so the groups are a partition. */
  ghost predicate IsCollation(groups: map<string, seq<nat>>, frames: seq<ObjectFrame>) {
    && (forall i :: 0 <= i < |frames| ==> frames[i].objectPath in groups)
    && forall path | path in groups :: groups[path] == Positions(frames, path) && groups[path] != []
  }

  lemma OneMoreFrame(frames: seq<ObjectFrame>, f: ObjectFrame, path: string)
    ensures Positions(frames + [f], path) == Positions(frames, path) + if f.objectPath == path then [|frames|] else []
  {
    assert (frames + [f])[..|frames|] == frames;
  }

  /** A reference to a frame and its slot is a position. */
  method CollateFrames(frames: seq<ObjectFrame>) returns (groups: map<string, seq<nat>>)
    ensures IsCollation(groups, frames)
  {
    hide Positions;
    groups := map[];
    NoPositions();
    for i := 0 to |frames|
      invariant forall k :: 0 <= k < i ==> frames[k].objectPath in groups
      invariant forall path | path in groups :: groups[path] == Positions(frames[..i], path) && groups[path] != []
      invariant forall path | path !in groups :: Positions(frames[..i], path) == []
    {
      var path := frames[i].objectPath;
      assert frames[..i + 1] == frames[..i] + [frames[i]];
      forall p {
        OneMoreFrame(frames[..i], frames[i], p);
      }
      groups := groups[path := (if path in groups then groups[path] else []) + [i]];
    }
    assert frames[..|frames|] == frames;
  }

  lemma NoPositions()
    ensures forall path :: Positions([], path) == []
  {
  }

  // ---------------------------------------------------------------- one frame

  /** A slot after its frame was tried, and whether an exception cut the group short there. */
  datatype Attempt = Attempt(slot: FrameWithInlines, thrown: bool)

  function Tried(f: ObjectFrame, hasObject: bool, env: Environment): Attempt {
    if f.objectPath == "" then
      match env.jitSymbol(f.rawAddress)
      case Ok(Some(symbol)) => Attempt(NULL_ENTRY.(frame := NULL_FRAME.(symbol := symbol)), false)
      case Ok(None) => Attempt(NULL_ENTRY, false)
      case Err(_) => Attempt(NULL_ENTRY, true)
    else
      var resolved := env.resolveFrame(f);
      if resolved.Err? && !env.absorb then Attempt(NULL_ENTRY, true)
      else
        var slot := if resolved.Ok? then resolved.value else FrameWithInlines(BasicFrame(f), []);
        if slot.frame.symbol == "" && hasObject then
          var symbol := env.tableSymbol(f.objectPath, f.objectAddress);
          if symbol.Ok? then Attempt(slot.(frame := slot.frame.(symbol := symbol.value)), false) else Attempt(slot, true)
        else Attempt(slot, false)
  }

  method TryResolveJitFrame(f: ObjectFrame, trace: array<FrameWithInlines>, i: nat, env: Environment)
    returns (r: Result<(), Exception>)
    requires i < trace.Length && trace[i] == NULL_ENTRY && f.objectPath == ""
    modifies trace
    ensures trace[..] == old(trace[..])[i := Tried(f, false, env).slot]
    ensures r.Err? <==> Tried(f, false, env).thrown
  {
    var symbol :- env.jitSymbol(f.rawAddress);
    if symbol.Some? {
      trace[i] := trace[i].(frame := trace[i].frame.(symbol := symbol.value));
    }
    return Ok(());
  }

  /** Resolves the frame and falls back to the symbol tables. */
  method TryResolveFrame(f: ObjectFrame, hasObject: bool, trace: array<FrameWithInlines>, i: nat, env: Environment)
    returns (r: Result<(), Exception>)
    requires i < trace.Length && trace[i] == NULL_ENTRY && f.objectPath != ""
    modifies trace
    ensures trace[..] == old(trace[..])[i := Tried(f, hasObject, env).slot]
    ensures r.Err? <==> Tried(f, hasObject, env).thrown
  {
    var resolved := env.resolveFrame(f);
    if resolved.Ok? {
      trace[i] := resolved.value;
    } else {
      if !env.absorb {
        return Err(Exception);
      }
      var location := trace[i].frame.location.(filename := f.objectPath);
      trace[i] := trace[i].(frame := trace[i].frame.(
        rawAddress := f.rawAddress, objectAddress := f.objectAddress, location := location));
    }
    // an empty symbol is looked up in the symbol table of the object
    if trace[i].frame.symbol == "" && hasObject {
      var symbol :- env.tableSymbol(f.objectPath, f.objectAddress);
      trace[i] := trace[i].(frame := trace[i].frame.(symbol := symbol));
    }
    return Ok(());
  }

  // ---------------------------------------------------------------- one group

  ghost predicate Opens(path: string, env: Environment) {
    path == "" || env.openObject(path).Ok?
  }

  ghost predicate HasObject(path: string, env: Environment) {
    path != "" && env.openObject(path) == Ok(true)
  }

  ghost predicate Throws(f: ObjectFrame, env: Environment) {
    Tried(f, HasObject(f.objectPath, env), env).thrown
  }

  ghost predicate Fails(f: ObjectFrame, env: Environment) {
    !Opens(f.objectPath, env) || Throws(f, env)
  }

  /** An earlier frame of the same object threw, which ends the group there. */
  ghost predicate CutShort(frames: seq<ObjectFrame>, i: nat, env: Environment)
    requires i < |frames|
  {
    exists j :: 0 <= j < i && frames[j].objectPath == frames[i].objectPath && Throws(frames[j], env)
  }

  ghost function SlotBeforeFilling(frames: seq<ObjectFrame>, i: nat, env: Environment): FrameWithInlines
    requires i < |frames|
  {
    if Opens(frames[i].objectPath, env) && !CutShort(frames, i, env)
    then Tried(frames[i], HasObject(frames[i].objectPath, env), env).slot
    else NULL_ENTRY
  }

  method ResolveGroup(frames: seq<ObjectFrame>, path: string, group: seq<nat>, trace: array<FrameWithInlines>, env: Environment)
    returns (r: Result<(), Exception>)
    requires trace.Length == |frames| && group == Positions(frames, path) && group != []
    requires forall i :: 0 <= i < |frames| && frames[i].objectPath == path ==> trace[i] == NULL_ENTRY
    modifies trace
    ensures forall i :: 0 <= i < |frames| ==>
              trace[i] == if frames[i].objectPath == path then SlotBeforeFilling(frames, i, env) else old(trace[i])
    ensures r.Err? <==> exists i :: 0 <= i < |frames| && frames[i].objectPath == path && Fails(frames[i], env)
  {
    hide Positions, Tried, SlotBeforeFilling, CutShort, Throws;
    PositionsAreExact(frames, path);
    assert group[0] in group;
    var hasObject := false;
    if path != "" {
      var opening := env.openObject(path);
      if opening.Err? {
        NothingOpened(frames, path, env);
        assert Fails(frames[group[0]], env);
        return Err(Exception);
      }
      hasObject := opening.value;
    }
    for k := 0 to |group|
      invariant forall i :: 0 <= i < |frames| ==>
                  trace[i] == if i in group[..k] then SlotBeforeFilling(frames, i, env) else old(trace[i])
      invariant forall i | 0 <= i < |frames| && i in group[..k] :: !Throws(frames[i], env)
    {
      var i := group[k];
      EarlierInGroup(frames, path, group, k);
      SlotReached(frames, i, env);
      var tried;
      if path == "" {
        tried := TryResolveJitFrame(frames[i], trace, i, env);
      } else {
        tried := TryResolveFrame(frames[i], hasObject, trace, i, env);
      }
      assert tried.Err? == Throws(frames[i], env) by {
        ThrowsHere(frames[i], hasObject, env);
      }
      if tried.Err? {
        RestIsCutShort(frames, i, env);
        return Err(Exception);
      }
    }
    assert group[..|group|] == group;
    return Ok(());
  }

  lemma ThrowsHere(f: ObjectFrame, hasObject: bool, env: Environment)
    requires hasObject == HasObject(f.objectPath, env)
    ensures Throws(f, env) == Tried(f, hasObject, env).thrown
  {
  }

  lemma NothingOpened(frames: seq<ObjectFrame>, path: string, env: Environment)
    requires !Opens(path, env)
    ensures forall i :: 0 <= i < |frames| && frames[i].objectPath == path ==> SlotBeforeFilling(frames, i, env) == NULL_ENTRY
  {
  }

  lemma SlotReached(frames: seq<ObjectFrame>, i: nat, env: Environment)
    requires i < |frames| && Opens(frames[i].objectPath, env)
    requires forall j :: 0 <= j < i && frames[j].objectPath == frames[i].objectPath ==> !Throws(frames[j], env)
    ensures SlotBeforeFilling(frames, i, env) == Tried(frames[i], HasObject(frames[i].objectPath, env), env).slot
  {
  }

  lemma RestIsCutShort(frames: seq<ObjectFrame>, i: nat, env: Environment)
    requires i < |frames| && Throws(frames[i], env)
    ensures forall j :: i < j < |frames| && frames[j].objectPath == frames[i].objectPath ==>
              SlotBeforeFilling(frames, j, env) == NULL_ENTRY
  {
  }

  lemma EarlierInGroup(frames: seq<ObjectFrame>, path: string, group: seq<nat>, k: nat)
    requires group == Positions(frames, path) && k < |group|
    ensures group[k] < |frames| && frames[group[k]].objectPath == path && group[k] !in group[..k]
    ensures forall j: nat :: j < group[k] < |frames| && frames[j].objectPath == path ==> j in group[..k]
    ensures group[..k + 1] == group[..k] + [group[k]]
  {
    PositionsAreExact(frames, path);
    hide Positions;
    assert group[k] in group;
    forall j: nat | j < group[k] < |frames| && frames[j].objectPath == path
      ensures j in group[..k]
    {
      assert j in group;
      var m :| 0 <= m < |group| && group[m] == j;
      assert m < k;
    }
  }

  // ---------------------------------------------------------------- the whole trace

  /** Frames compare without the inline mark. */
  predicate IsNull(f: Frame) {
    f.(isInline := false) == NULL_FRAME
  }

  /** What slot i holds before the trace is flattened. */
  ghost function Slot(frames: seq<ObjectFrame>, i: nat, env: Environment): FrameWithInlines
    requires i < |frames|
  {
    var slot := SlotBeforeFilling(frames, i, env);
    if IsNull(slot.frame) then FrameWithInlines(BasicFrame(frames[i]), []) else slot
  }

  ghost function Slots(frames: seq<ObjectFrame>, env: Environment): (r: seq<FrameWithInlines>)
    ensures |r| == |frames| && forall i :: 0 <= i < |r| ==> r[i] == Slot(frames, i, env)
  {
    seq(|frames|, i requires 0 <= i < |frames| => Slot(frames, i, env))
  }

  /** The groups are visited in any order; the trace is the same for all of them. Exceptions escape exactly
      if some frame fails and they are not absorbed. */
  method Resolve(frames: seq<ObjectFrame>, env: Environment) returns (r: Result<seq<Frame>, Exception>)
    ensures r.Err? <==> !env.absorb && exists i :: 0 <= i < |frames| && Fails(frames[i], env)
    ensures r.Ok? ==> r.value == FlatTrace(Slots(frames, env)) && IsFlat(r.value, Slots(frames, env))
  {
    hide Positions, Tried, SlotBeforeFilling, CutShort, Fails;
    var trace := new FrameWithInlines[|frames|](_ => NULL_ENTRY);
    var groups := CollateFrames(frames);
    var left := groups.Keys;
    while left != {}
      invariant left <= groups.Keys
      invariant forall i :: 0 <= i < |frames| ==>
                  trace[i] == if frames[i].objectPath in left then NULL_ENTRY else SlotBeforeFilling(frames, i, env)
      invariant env.absorb || forall i :: 0 <= i < |frames| && frames[i].objectPath !in left ==> !Fails(frames[i], env)
      decreases |left|
    {
      var path :| path in left;
      var resolved := ResolveGroup(frames, path, groups[path], trace, env);
      if resolved.Err? && !env.absorb {
        return Err(Exception);
      }
      left := left - {path};
    }
    // frames that no resolver placed keep their addresses and object
    for i := 0 to |frames|
      invariant forall k :: 0 <= k < |frames| ==>
                  trace[k] == if k < i then Slot(frames, k, env) else SlotBeforeFilling(frames, k, env)
    {
      if IsNull(trace[i].frame) {
        trace[i] := FrameWithInlines(BasicFrame(frames[i]), []);
      }
    }
    assert trace[..] == Slots(frames, env);
    var flat := FlattenInlines(trace[..]);
    return Ok(flat);
  }

  // ---------------------------------------------------------------- grouping is invisible

  /** What a frame becomes in a trace of its own. */
  ghost function Alone(f: ObjectFrame, env: Environment): FrameWithInlines {
    Slot([f], 0, env)
  }

  /** A slot depends on its own frame only, unless an exception of an earlier frame of the same object
      ended the group; then it has the basic information. */
  lemma SlotsAreLocal(frames: seq<ObjectFrame>, i: nat, env: Environment)
    requires i < |frames|
    ensures Slot(frames, i, env)
         == if CutShort(frames, i, env) then FrameWithInlines(BasicFrame(frames[i]), []) else Alone(frames[i], env)
  {
    hide Tried;
    assert !CutShort([frames[i]], 0, env);
  }

  /** So when no lookup throws, traces can be resolved piece by piece. */
  lemma PiecesResolveAlone(a: seq<ObjectFrame>, b: seq<ObjectFrame>, env: Environment)
    requires forall i :: 0 <= i < |a| ==> !Throws(a[i], env)
    ensures Slots(a + b, env) == Slots(a, env) + Slots(b, env)
  {
    hide Tried, Throws, Slot;
    forall i | 0 <= i < |a + b|
      ensures Slots(a + b, env)[i] == (Slots(a, env) + Slots(b, env))[i]
    {
      SlotsAreLocal(a + b, i, env);
      if i < |a| {
        SlotsAreLocal(a, i, env);
        SameCut(a, b, i, env);
      } else {
        SlotsAreLocal(b, i - |a|, env);
        SameCutBehind(a, b, i - |a|, env);
      }
    }
  }

  lemma SameCut(a: seq<ObjectFrame>, b: seq<ObjectFrame>, i: nat, env: Environment)
    requires i < |a|
    ensures CutShort(a + b, i, env) == CutShort(a, i, env)
  {
    assert forall j :: 0 <= j <= i ==> (a + b)[j] == a[j];
  }

  lemma SameCutBehind(a: seq<ObjectFrame>, b: seq<ObjectFrame>, i: nat, env: Environment)
    requires i < |b| && forall j :: 0 <= j < |a| ==> !Throws(a[j], env)
    ensures CutShort(a + b, |a| + i, env) == CutShort(b, i, env)
  {
    hide Throws;
    if CutShort(a + b, |a| + i, env) {
      var j :| 0 <= j < |a| + i && (a + b)[j].objectPath == b[i].objectPath && Throws((a + b)[j], env);
      assert j >= |a| && b[j - |a|] == (a + b)[j];
    }
    if CutShort(b, i, env) {
      var j :| 0 <= j < i && b[j].objectPath == b[i].objectPath && Throws(b[j], env);
      assert (a + b)[|a| + j] == b[j];
    }
  }

  lemma AloneIsTried(f: ObjectFrame, env: Environment)
    ensures var slot := if Opens(f.objectPath, env) then Tried(f, HasObject(f.objectPath, env), env).slot else NULL_ENTRY;
            Alone(f, env) == if IsNull(slot.frame) then FrameWithInlines(BasicFrame(f), []) else slot
  {
    hide Tried;
    assert !CutShort([f], 0, env);
  }

  /** The addresses of the frame and the path of its object, and nothing else. */
  ghost predicate IsBasic(e: FrameWithInlines, f: ObjectFrame) {
    && e.inlines == [] && e.frame.symbol == "" && !e.frame.isInline
    && e.frame.rawAddress == f.rawAddress && e.frame.objectAddress == f.objectAddress
    && e.frame.location.filename == f.objectPath
    && e.frame.location.line == 0xffff_ffff && e.frame.location.column == 0xffff_ffff
  }

  /** A frame of an object file: what the resolver found, if it found a symbol. Otherwise the symbol comes from the
      symbol table of the object, if there is one; and if the resolver failed and failures are absorbed, everything
      else is what was known before. */
  lemma ObjectFrameAlone(f: ObjectFrame, env: Environment)
    requires f.objectPath != ""
    ensures var e, found, opening := Alone(f, env), env.resolveFrame(f), env.openObject(f.objectPath);
            var table := env.tableSymbol(f.objectPath, f.objectAddress);
            && (opening.Err? ==> IsBasic(e, f))
            && (opening.Ok? && found.Ok? && found.value.frame.symbol != "" ==> e == found.value)
            && (opening == Ok(true) && found.Ok? && found.value.frame.symbol == "" && table.Ok? && table.value != "" ==>
                  e == found.value.(frame := found.value.frame.(symbol := table.value)))
            && (opening == Ok(false) && found.Ok? && found.value.frame.symbol == "" && found.value.frame.rawAddress != 0 ==>
                  e == found.value)
            && (opening.Ok? && found.Err? && !env.absorb ==> IsBasic(e, f))
            && (opening == Ok(false) && found.Err? && env.absorb ==> IsBasic(e, f))
            && (opening == Ok(true) && found.Err? && env.absorb && table.Err? ==> IsBasic(e, f))
            && (opening == Ok(true) && found.Err? && env.absorb && table.Ok? ==>
                  e.frame.symbol == table.value && IsBasic(e.(frame := e.frame.(symbol := "")), f))
  {
    AloneIsTried(f, env);
  }

  /** What makes the group of a frame end there. */
  lemma ThrowsExactly(f: ObjectFrame, env: Environment)
    ensures Throws(f, env) <==>
              if f.objectPath == "" then env.jitSymbol(f.rawAddress).Err?
              else
                var found := env.resolveFrame(f);
                || (found.Err? && !env.absorb)
                || (env.openObject(f.objectPath) == Ok(true) && env.tableSymbol(f.objectPath, f.objectAddress).Err?
                    && (found.Ok? ==> found.value.frame.symbol == ""))
    ensures Fails(f, env) <==> Throws(f, env) || (f.objectPath != "" && env.openObject(f.objectPath).Err?)
  {
  }

  /** A frame of generated code: its symbol, if one is found, and nothing else; otherwise what was known before. */
  lemma GeneratedFrameAlone(f: ObjectFrame, env: Environment)
    requires f.objectPath == ""
    ensures var e, found := Alone(f, env), env.jitSymbol(f.rawAddress);
            if found.Ok? && found.value.Some? && found.value.value != "" then
              && e.frame.symbol == found.value.value && e.inlines == [] && !e.frame.isInline
              && e.frame.rawAddress == 0 && e.frame.objectAddress == 0
              && e.frame.location == Location(0xffff_ffff, 0xffff_ffff, "")
            else IsBasic(e, f)
  {
    AloneIsTried(f, env);
  }

  /** So a trace without inlined calls has one frame for each address, in the order of the addresses. */
  lemma TraceInOrder(frames: seq<ObjectFrame>, env: Environment, flat: seq<Frame>)
    requires IsFlat(flat, Slots(frames, env)) && forall f | f in frames :: !Throws(f, env) && Alone(f, env).inlines == []
    ensures |flat| == |frames| && forall i :: 0 <= i < |frames| ==> flat[i] == Alone(frames[i], env).frame
  {
    hide Throws, Slot, Alone;
    var slots := Slots(frames, env);
    forall i | 0 <= i < |frames|
      ensures slots[i] == Alone(frames[i], env)
    {
      SlotsAreLocal(frames, i, env);
      NotCutShort(frames, i, env);
    }
    hide Slots;
    FlatInOrder(flat, slots);
  }

  lemma FlatInOrder(flat: seq<Frame>, trace: seq<FrameWithInlines>)
    requires IsFlat(flat, trace) && forall i :: 0 <= i < |trace| ==> trace[i].inlines == []
    ensures |flat| == |trace| && forall i :: 0 <= i < |trace| ==> flat[i] == trace[i].frame
  {
    hide IsFlatFrom, Offset;
    SingleFrames(trace, |trace|);
    forall i | 0 <= i < |trace|
      ensures i < |flat| && flat[i] == trace[i].frame
    {
      SingleFrames(trace, i);
      OneFrame(flat, i, trace[i]);
    }
  }

  lemma NotCutShort(frames: seq<ObjectFrame>, i: nat, env: Environment)
    requires i < |frames| && forall f | f in frames :: !Throws(f, env)
    ensures !CutShort(frames, i, env)
  {
    hide Throws;
  }

  lemma {:induction false} SingleFrames(trace: seq<FrameWithInlines>, k: nat)
    requires k <= |trace| && forall i :: 0 <= i < |trace| ==> trace[i].inlines == []
    ensures Offset(trace, k) == k
  {
    if k > 0 {
      SingleFrames(trace, k - 1);
    }
  }

  lemma OneFrame(flat: seq<Frame>, i: nat, e: FrameWithInlines)
    requires IsFlatFrom(flat, i, e) && e.inlines == []
    ensures i < |flat| && flat[i] == e.frame
  {
  }

  /** A frame of generated code keeps its address exactly if no symbol is found for it. */
  lemma GeneratedCodeAddress(f: ObjectFrame, env: Environment)
    requires f.objectPath == "" && f.rawAddress != 0
    ensures Alone(f, env).frame.rawAddress == f.rawAddress
       <==> !(env.jitSymbol(f.rawAddress).Ok? && env.jitSymbol(f.rawAddress).value.Some? && env.jitSymbol(f.rawAddress).value.value != "")
  {
    assert !CutShort([f], 0, env);
  }
}
