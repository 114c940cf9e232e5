/** The traces of the current exception and of its last rethrow: the thread's state in src/from_current.cpp
    and the holder that resolves a trace when it is first asked for (src/exceptions.cpp). */
module CurrentException {
  import opened Wrappers

  type RawTrace = seq<nat>
  type Stacktrace = seq<string>

  /** How resolving can fail: with a standard exception, which is logged, or with any other, which escapes. */
  datatype ResolveError = StandardException | OtherException

  type Resolve = RawTrace -> Result<Stacktrace, ResolveError>

  datatype LogicError = LogicError

  // ---------------------------------------------------------------- the holder

  /** The active member of the holder's union. */
  datatype Held = Raw(trace: RawTrace) | Resolved(stacktrace: Stacktrace)

  /** The resolver, with a record of what it was asked. */
  class Resolver {
    const resolve: Resolve
    ghost var calls: seq<RawTrace>

    constructor (resolve: Resolve)
      ensures this.resolve == resolve && calls == []
    {
      this.resolve := resolve;
      calls := [];
    }

    method Run(trace: RawTrace) returns (r: Result<Stacktrace, ResolveError>)
      modifies this
      ensures r == resolve(trace) && calls == old(calls) + [trace]
    {
      r := resolve(trace);
      calls := calls + [trace];
    }
  }

  /** What a holder has after it was asked for its stack trace; a failure leaves an empty one. */
  function AfterAsking(h: Held, resolve: Resolve): Held {
    match h
    case Resolved(_) => h
    case Raw(trace) => Resolved(if trace == [] || resolve(trace).Err? then [] else resolve(trace).value)
  }

  function CallsAtAsking(h: Held): seq<RawTrace> {
    if h.Raw? && h.trace != [] then [h.trace] else []
  }

  /** What the caller is given for what was held, and what is held then: the resolver's own answer for a trace
      that is not empty, but an empty stack trace if it failed with a standard exception. Any other exception
      goes to the caller, and an empty stack trace is held. */
  ghost predicate IsAnswer(was: Held, resolve: Resolve, r: Result<Stacktrace, ResolveError>, held: Held) {
    && (was.Resolved? ==> r == Ok(was.stacktrace) && held == was)
    && (was == Raw([]) ==> r == Ok([]) && held == Resolved([]))
    && (was.Raw? && was.trace != [] ==>
      match resolve(was.trace)
      case Ok(stacktrace) => r == Ok(stacktrace) && held == Resolved(stacktrace)
      case Err(StandardException) => r == Ok([]) && held == Resolved([])
      case Err(OtherException) => r == Err(OtherException) && held == Resolved([]))
  }

  class LazyTraceHolder {
    var held: Held

    constructor (held: Held)
      ensures this.held == held
    {
      this.held := held;
    }

    /** From another holder: the source destroys what this one holds before it copies. */
    method Assign(other: LazyTraceHolder)
      requires other != this
      modifies this
      ensures held == old(other.held)
    {
      held := other.held;
    }

    method GetRawTrace() returns (r: Result<RawTrace, LogicError>)
      ensures r == if held.Raw? then Ok(held.trace) else Err(LogicError)
    {
      if held.Resolved? {
        return Err(LogicError);
      }
      return Ok(held.trace);
    }

    method GetResolvedTrace(resolver: Resolver) returns (r: Result<Stacktrace, ResolveError>)
      modifies this, resolver
      ensures IsAnswer(old(held), resolver.resolve, r, held)
      ensures held == AfterAsking(old(held), resolver.resolve)
      ensures resolver.calls == old(resolver.calls) + CallsAtAsking(old(held))
    {
      if held.Raw? {
        var oldTrace := held.trace;
        var empty := new LazyTraceHolder(Resolved([]));
        Assign(empty);
        if oldTrace != [] {
          var resolved := resolver.Run(oldTrace);
          match resolved {
            case Ok(stacktrace) => held := Resolved(stacktrace);
            case Err(OtherException) => return Err(OtherException);
            case Err(StandardException) => // absorbed or logged
          }
        }
      }
      return Ok(held.stacktrace);
    }

    method IsResolved() returns (r: bool)
      ensures r == held.Resolved?
    {
      return held.Resolved?;
    }
  }

  // ---------------------------------------------------------------- the thread's state

  datatype Which = Current | Rethrow

  datatype State = State(current: Held, rethrow: Held, rethrowSwitch: bool, calls: seq<RawTrace>)

  datatype Event = Save(trace: RawTrace) | RethrowBegin | RethrowEnd | Ask(which: Which) | Clear

  const INITIAL := State(Raw([]), Raw([]), false, [])

  function HeldFor(s: State, which: Which): Held {
    if which.Current? then s.current else s.rethrow
  }

  function Step(s: State, e: Event, resolve: Resolve): State {
    match e
    case Save(trace) =>
      if s.rethrowSwitch then s.(rethrow := Raw(trace)) else s.(current := Raw(trace), rethrow := Raw([]))
    case RethrowBegin => s.(rethrowSwitch := true)
    case RethrowEnd => s.(rethrowSwitch := false)
    case Ask(Current) => s.(current := AfterAsking(s.current, resolve), calls := s.calls + CallsAtAsking(s.current))
    case Ask(Rethrow) => s.(rethrow := AfterAsking(s.rethrow, resolve), calls := s.calls + CallsAtAsking(s.rethrow))
    case Clear => s.(current := Raw([]), rethrow := Raw([]))
  }

  function WasRethrown(s: State): bool {
    match s.rethrow
    case Raw(trace) => trace != []
    case Resolved(stacktrace) => stacktrace != []
  }

  class ThreadState {
    const currentExceptionTrace: LazyTraceHolder
    const savedRethrowTrace: LazyTraceHolder
    const resolver: Resolver
    var rethrowSwitch: bool

    ghost predicate Valid() {
      currentExceptionTrace != savedRethrowTrace
    }

    ghost function View(): State
      reads this, currentExceptionTrace, savedRethrowTrace, resolver
    {
      State(currentExceptionTrace.held, savedRethrowTrace.held, rethrowSwitch, resolver.calls)
    }

    constructor (resolver: Resolver)
      requires resolver.calls == []
      ensures Valid() && this.resolver == resolver && View() == INITIAL
    {
      this.resolver := resolver;
      currentExceptionTrace := new LazyTraceHolder(Raw([]));
      savedRethrowTrace := new LazyTraceHolder(Raw([]));
      rethrowSwitch := false;
    }

    method SaveCurrentTrace(trace: RawTrace)
      requires Valid()
      modifies currentExceptionTrace, savedRethrowTrace
      ensures View() == Step(old(View()), Save(trace), resolver.resolve)
    {
      var saved := new LazyTraceHolder(Raw(trace));
      if rethrowSwitch {
        savedRethrowTrace.Assign(saved);
      } else {
        currentExceptionTrace.Assign(saved);
        var empty := new LazyTraceHolder(Raw([]));
        savedRethrowTrace.Assign(empty);
      }
    }

    method SetupRethrow()
      modifies this
      ensures View() == Step(old(View()), RethrowBegin, resolver.resolve)
    {
      rethrowSwitch := true;
    }

    method RethrowScopeCleanup()
      modifies this
      ensures View() == Step(old(View()), RethrowEnd, resolver.resolve)
    {
      rethrowSwitch := false;
    }

    method RawTraceFromCurrentException() returns (r: Result<RawTrace, LogicError>)
      ensures r == if View().current.Raw? then Ok(View().current.trace) else Err(LogicError)
    {
      r := currentExceptionTrace.GetRawTrace();
    }

    method FromCurrentException() returns (r: Result<Stacktrace, ResolveError>)
      requires Valid()
      modifies currentExceptionTrace, resolver
      ensures View() == Step(old(View()), Ask(Current), resolver.resolve)
      ensures IsAnswer(old(View()).current, resolver.resolve, r, View().current)
    {
      r := currentExceptionTrace.GetResolvedTrace(resolver);
    }

    method RawTraceFromCurrentExceptionRethrow() returns (r: Result<RawTrace, LogicError>)
      ensures r == if View().rethrow.Raw? then Ok(View().rethrow.trace) else Err(LogicError)
    {
      r := savedRethrowTrace.GetRawTrace();
    }

    method FromCurrentExceptionRethrow() returns (r: Result<Stacktrace, ResolveError>)
      requires Valid()
      modifies savedRethrowTrace, resolver
      ensures View() == Step(old(View()), Ask(Rethrow), resolver.resolve)
      ensures IsAnswer(old(View()).rethrow, resolver.resolve, r, View().rethrow)
    {
      r := savedRethrowTrace.GetResolvedTrace(resolver);
    }

    method CurrentExceptionWasRethrown() returns (r: bool)
      requires Valid()
      modifies savedRethrowTrace, resolver
      ensures View() == old(View()) && r == WasRethrown(View())
    {
      var isResolved := savedRethrowTrace.IsResolved();
      if isResolved {
        var stacktrace := savedRethrowTrace.GetResolvedTrace(resolver);
        return stacktrace.value != [];
      } else {
        var trace := savedRethrowTrace.GetRawTrace();
        return trace.value != [];
      }
    }

    method ClearCurrentExceptionTraces()
      requires Valid()
      modifies currentExceptionTrace, savedRethrowTrace
      ensures View() == Step(old(View()), Clear, resolver.resolve)
    {
      var empty := new LazyTraceHolder(Raw([]));
      currentExceptionTrace.Assign(empty);
      var alsoEmpty := new LazyTraceHolder(Raw([]));
      savedRethrowTrace.Assign(alsoEmpty);
    }
  }
}
