/** What a run of events leaves behind, told from the events alone. */
module RethrowHistory {
  import opened CurrentException

  function RunFrom(s: State, run: seq<Event>, resolve: Resolve): State {
    if run == [] then s else Step(RunFrom(s, run[..|run| - 1], resolve), run[|run| - 1], resolve)
  }

  function Run(run: seq<Event>, resolve: Resolve): State {
    RunFrom(INITIAL, run, resolve)
  }

  // ---------------------------------------------------------------- history

  /** Whether a rethrow is under way after the first n events. */
  ghost predicate SwitchOn(run: seq<Event>, n: int) {
    exists i :: 0 <= i < n <= |run| && run[i].RethrowBegin? && forall j :: i < j < n ==> !run[j].RethrowEnd?
  }

  /** Event i stores a trace in a holder. */
  ghost predicate Stores(run: seq<Event>, which: Which, i: int) {
    0 <= i < |run| && (run[i].Clear? || (run[i].Save? && (which.Rethrow? || !SwitchOn(run, i))))
  }

  /** The trace it stores: a save with the switch off empties the rethrow trace. */
  ghost function Stored(run: seq<Event>, which: Which, i: int): RawTrace
    requires Stores(run, which, i)
  {
    if run[i].Save? && (which.Rethrow? <==> SwitchOn(run, i)) then run[i].trace else []
  }

  ghost predicate AskedSince(run: seq<Event>, which: Which, i: int) {
    exists j :: i < j < |run| && 0 <= j && run[j] == Ask(which)
  }

  ghost predicate NoneSince(run: seq<Event>, which: Which, i: int) {
    forall j :: i < j < |run| ==> !Stores(run, which, j)
  }

  /** The trace comes from the last event that stores one, if there is any. */
  ghost predicate ComesFrom(run: seq<Event>, which: Which, i: int, trace: RawTrace) {
    && NoneSince(run, which, i)
    && if i == -1 then trace == [] else Stores(run, which, i) && trace == Stored(run, which, i)
  }

  lemma SwitchOnPrefix(run: seq<Event>, e: Event, n: int)
    requires n <= |run|
    ensures SwitchOn(run + [e], n) == SwitchOn(run, n)
  {
    var run' := run + [e];
    if SwitchOn(run', n) {
      var i :| 0 <= i < n <= |run'| && run'[i].RethrowBegin? && forall j :: i < j < n ==> !run'[j].RethrowEnd?;
      assert run[i].RethrowBegin? && forall j :: i < j < n ==> run[j] == run'[j];
    }
    if SwitchOn(run, n) {
      var i :| 0 <= i < n <= |run| && run[i].RethrowBegin? && forall j :: i < j < n ==> !run[j].RethrowEnd?;
      assert run'[i].RethrowBegin? && forall j :: i < j < n ==> run[j] == run'[j];
    }
  }

  lemma {:induction false} SwitchHistory(run: seq<Event>, resolve: Resolve)
    ensures Run(run, resolve).rethrowSwitch == SwitchOn(run, |run|)
  {
    if run != [] {
      var front, e := run[..|run| - 1], run[|run| - 1];
      SwitchHistory(front, resolve);
      assert run == front + [e];
      if e.RethrowBegin? {
        assert run[|front|].RethrowBegin?;
      } else if !e.RethrowEnd? {
        SwitchStays(front, e);
      }
    }
  }

  lemma SwitchStays(run: seq<Event>, e: Event)
    requires !e.RethrowBegin? && !e.RethrowEnd?
    ensures SwitchOn(run + [e], |run| + 1) == SwitchOn(run, |run|)
  {
    var run' := run + [e];
    if SwitchOn(run', |run'|) {
      var i :| 0 <= i < |run'| && run'[i].RethrowBegin? && forall j :: i < j < |run'| ==> !run'[j].RethrowEnd?;
      assert run[i].RethrowBegin? && forall j :: i < j < |run| ==> run[j] == run'[j];
    }
    if SwitchOn(run, |run|) {
      var i :| 0 <= i < |run| && run[i].RethrowBegin? && forall j :: i < j < |run| ==> !run[j].RethrowEnd?;
      assert run'[i].RethrowBegin? && forall j :: i < j < |run| ==> run[j] == run'[j];
    }
  }

  lemma StoresPrefix(run: seq<Event>, e: Event, which: Which, i: int)
    requires i < |run|
    ensures Stores(run + [e], which, i) == Stores(run, which, i)
    ensures Stores(run, which, i) ==> Stored(run + [e], which, i) == Stored(run, which, i)
  {
    SwitchOnPrefix(run, e, i);
  }

  /** In every run each holder has the trace of the last event that stored one, and if it was asked for since,
      the resolver's answer for that trace; nothing is left of an empty trace or if the resolver failed. */
  lemma {:induction false} TraceHistory(run: seq<Event>, which: Which, resolve: Resolve) returns (i: int, trace: RawTrace)
    ensures ComesFrom(run, which, i, trace)
    ensures var held := HeldFor(Run(run, resolve), which);
            && (!AskedSince(run, which, i) ==> held == Raw(trace))
            && (AskedSince(run, which, i) && trace != [] && resolve(trace).Ok? ==> held == Resolved(resolve(trace).value))
            && (AskedSince(run, which, i) && (trace == [] || resolve(trace).Err?) ==> held == Resolved([]))
  {
    if run == [] {
      i, trace := -1, [];
    } else {
      var front, e := run[..|run| - 1], run[|run| - 1];
      assert run == front + [e];
      i, trace := TraceHistory(front, which, resolve);
      SwitchHistory(front, resolve);
      SwitchOnPrefix(front, e, |front|);
      if Stores(run, which, |front|) {
        i, trace := |front|, Stored(run, which, |front|);
      } else {
        HistoryStays(front, e, which, i, trace);
      }
    }
  }

  lemma HistoryStays(run: seq<Event>, e: Event, which: Which, i: int, trace: RawTrace)
    requires ComesFrom(run, which, i, trace) && !Stores(run + [e], which, |run|)
    ensures ComesFrom(run + [e], which, i, trace)
    ensures i < |run| && (AskedSince(run + [e], which, i) <==> AskedSince(run, which, i) || e == Ask(which))
  {
    var run' := run + [e];
    forall j | i < j < |run'|
      ensures !Stores(run', which, j)
    {
      if j < |run| {
        StoresPrefix(run, e, which, j);
      }
    }
    if i >= 0 {
      StoresPrefix(run, e, which, i);
    }
    if AskedSince(run, which, i) {
      var j :| i < j < |run| && 0 <= j && run[j] == Ask(which);
      assert run'[j] == Ask(which);
    }
    if e == Ask(which) {
      assert run'[|run|] == Ask(which);
    }
    if AskedSince(run', which, i) {
      var j :| i < j < |run'| && 0 <= j && run'[j] == Ask(which);
      assert j < |run| ==> run[j] == Ask(which);
    }
  }

  // ---------------------------------------------------------------- resolving once

  /** A resolver runs only when a stored trace is asked for the first time, and not for an empty one. */
  lemma ResolvedAtFirstAsk(run: seq<Event>, e: Event, resolve: Resolve) returns (i: int, trace: RawTrace)
    ensures e.Ask? ==> ComesFrom(run, e.which, i, trace)
    ensures Run(run + [e], resolve).calls
         == Run(run, resolve).calls + if !e.Ask? || AskedSince(run, e.which, i) || trace == [] then [] else [trace]
  {
    i, trace := TraceHistory(run, if e.Ask? then e.which else Current, resolve);
    assert (run + [e])[..|run|] == run;
  }

  function Saves(run: seq<Event>): nat {
    if run == [] then 0 else Saves(run[..|run| - 1]) + if run[|run| - 1].Save? then 1 else 0
  }

  function Pending(h: Held): nat {
    |CallsAtAsking(h)|
  }

  /** No stored trace is resolved twice: calls made and calls still possible never exceed the saves. */
  lemma {:induction false} ResolvedAtMostOnce(run: seq<Event>, resolve: Resolve)
    ensures var s := Run(run, resolve); |s.calls| + Pending(s.current) + Pending(s.rethrow) <= Saves(run)
  {
    if run != [] {
      ResolvedAtMostOnce(run[..|run| - 1], resolve);
    }
  }

  // ---------------------------------------------------------------- rethrowing

  /** A trace resolves to nothing. */
  ghost predicate ComesToNothing(trace: RawTrace, resolve: Resolve) {
    trace != [] && (resolve(trace).Err? || resolve(trace).value == [])
  }

  /** The answer says whether a non-empty rethrow trace is stored, unless that trace was resolved to nothing. */
  lemma WasRethrownHistory(run: seq<Event>, resolve: Resolve) returns (i: int, trace: RawTrace)
    ensures ComesFrom(run, Rethrow, i, trace)
    ensures (WasRethrown(Run(run, resolve)) <==> trace != [])
       <==> !(AskedSince(run, Rethrow, i) && ComesToNothing(trace, resolve))
  {
    i, trace := TraceHistory(run, Rethrow, resolve);
  }

  /** Asking for the rethrow trace changes the answer exactly if it is not empty and resolves to nothing. */
  lemma AskingMayChangeTheAnswer(s: State, resolve: Resolve)
    ensures WasRethrown(Step(s, Ask(Rethrow), resolve)) != WasRethrown(s)
       <==> s.rethrow.Raw? && ComesToNothing(s.rethrow.trace, resolve)
  {
  }

  ghost predicate OnlySaves(saves: seq<Event>) {
    forall i :: 0 <= i < |saves| ==> saves[i].Save?
  }

  /** A rethrow keeps the trace of the throw, resolved or not, and the last trace collected on the way
      becomes the rethrow trace. */
  lemma {:induction false} RethrowKeepsTrace(s: State, saves: seq<Event>, resolve: Resolve)
    requires OnlySaves(saves)
    ensures var t := RunFrom(Step(s, RethrowBegin, resolve), saves, resolve);
            && t.rethrowSwitch && t.current == s.current && t.calls == s.calls
            && t.rethrow == (if saves == [] then s.rethrow else Raw(saves[|saves| - 1].trace))
            && Step(t, RethrowEnd, resolve) == t.(rethrowSwitch := false)
  {
    if saves != [] {
      RethrowKeepsTrace(s, saves[..|saves| - 1], resolve);
    }
  }
}
