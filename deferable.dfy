/** The `deferable` class of src/deferable.js: a queue of steps run over one current
    value, synchronously until the value becomes a promise and through `.then` after.
    A promise is modelled by what it settles to. */
module Deferables {

  import opened Wrappers
  import opened Values

  /** The current value: a plain value, or a promise and the result it settles to. */
  datatype Held = Sync(value: Value) | Async(settled: Result<Value>)

  /** A queued step: `Err` is what it throws, `Ok` what it returns, which may be a
      promise. */
  type Func = Value -> Result<Held>

  /** A catch handler: what it recovers with, which may be a promise. */
  type Handler = Error -> Held

  datatype Status = Pending | Resolved | Promisified | Rejected

  /** The fields `execute` reads but never writes: the catch handler and the two
      promisify hooks, each unset (`undefined`) until assigned. */
  datatype Settings = Settings(
    catchFunc: Option<Handler>,
    promisifyCondition: Option<Value -> bool>,
    promisifyConversion: Option<Value -> Held>)

  /** Calling a hook that was never assigned. */
  const NoCondition := TypeError("this.promisifyCondition is not a function")
  const NoConversion := TypeError("this.promisifyConversion is not a function")

  /** Where the loop over the queue stopped: the value it held and, when it stopped
      early, what was thrown. */
  datatype Run = Run(value: Held, thrown: Option<Error>)

  /** The promisify check at the top of each pass: a plain value for which the condition
      holds is converted. */
  function Promisify(h: Held, st: Settings): Run {
    if h.Async? then Run(h, None)
    else if st.promisifyCondition.None? then Run(h, Some(NoCondition))
    else if !st.promisifyCondition.value(h.value) then Run(h, None)
    else if st.promisifyConversion.None? then Run(h, Some(NoConversion))
    else Run(st.promisifyConversion.value(h.value), None)
  }

  /** What a promise resolved with `h` settles to: a promise returned from a callback is
      adopted, a plain value fulfils. */
  function Settled(h: Held): Result<Value> {
    match h
    case Sync(v) => Ok(v)
    case Async(settled) => settled
  }

  /** What a `.then` callback's outcome settles the chained promise to: a throw rejects it. */
  function Adopted(r: Result<Held>): Result<Value> {
    match r
    case Err(e) => Err(e)
    case Ok(h) => Settled(h)
  }

  /** `promise.then(func)`, followed by `.catch(handler)` when a handler is set: a
      rejection skips `func`, and the handler turns it back into a value. */
  function Chain(settled: Result<Value>, func: Func, catchFunc: Option<Handler>): Result<Value> {
    var next := if settled.Ok? then Adopted(func(settled.value)) else settled;
    if catchFunc.Some? && next.Err? then Settled(catchFunc.value(next.error)) else next
  }

  /** One pass of the loop: a promise is chained, a plain value is passed to the step. */
  function StepOf(h: Held, func: Func, st: Settings): Run {
    var p := Promisify(h, st);
    if p.thrown.Some? then p
    else
      match p.value
      case Async(settled) => Run(Async(Chain(settled, func, st.catchFunc)), None)
      case Sync(v) =>
        match func(v)
        case Err(e) => Run(p.value, Some(e))
        case Ok(w) => Run(w, None)
  }

  /** The loop over the queue, in queue order, stopping at the first synchronous throw;
      a throw only ever comes from a pass over a plain value. */
  function RunAll(h: Held, funcs: seq<Func>, st: Settings): (r: Run)
    ensures r.thrown.Some? ==> r.value.Sync?
    decreases |funcs|
  {
    if funcs == [] then Run(h, None)
    else
      var before := RunAll(h, funcs[..|funcs| - 1], st);
      if before.thrown.Some? then before else StepOf(before.value, funcs[|funcs| - 1], st)
  }

  /** What `execute` leaves behind: the value, the status and what it returns (`None`
      for `undefined`) or rethrows. */
  datatype Execution = Execution(value: Held, status: Status, result: Result<Option<Held>>)

  /** `execute` once the final step is queued: a normal run marks the status after the
      kind of the final value; a throw goes to `catcher`. */
  function Executed(h: Held, funcs: seq<Func>, st: Settings): Execution {
    var r := RunAll(h, funcs, st);
    if r.thrown.None? then
      Execution(r.value, if r.value.Async? then Promisified else Resolved, Ok(Some(r.value)))
    else if st.catchFunc.None? then Execution(r.value, Rejected, Err(r.thrown.value))
    else Execution(st.catchFunc.value(r.thrown.value), Rejected, Ok(None))
  }

  class Deferable {
    var value: Held
    var thens: seq<Func>
    var status: Status
    var catchFunc: Option<Handler>
    var promisifyCondition: Option<Value -> bool>
    var promisifyConversion: Option<Value -> Held>

    function Config(): Settings
      reads this
    {
      Settings(catchFunc, promisifyCondition, promisifyConversion)
    }

    constructor (initial: Held)
      ensures value == initial && thens == [] && status == Pending
      ensures Config() == Settings(None, None, None)
    {
      value := initial;
      thens := [];
      status := Pending;
      catchFunc := None;
      promisifyCondition := None;
      promisifyConversion := None;
    }

    /** `then(func)`: queues the step at the end and returns the same object. */
    method Then(func: Func) returns (self: Deferable)
      modifies this
      ensures self == this
      ensures thens == old(thens) + [func]
      ensures value == old(value) && status == old(status) && Config() == old(Config())
    {
      thens := thens + [func];
      return this;
    }

    /** `catch(func)`: records the handler and nothing else. */
    method Catch(func: Handler) returns (self: Deferable)
      modifies this
      ensures self == this
      ensures catchFunc == Some(func)
      ensures value == old(value) && thens == old(thens) && status == old(status)
      ensures promisifyCondition == old(promisifyCondition) && promisifyConversion == old(promisifyConversion)
    {
      catchFunc := Some(func);
      return this;
    }

    /** `catcher(error)`: the status becomes rejected; without a handler the error is
        rethrown, with one the handler's result becomes the value. */
    method Catcher(error: Error) returns (r: Result<()>)
      modifies this
      ensures status == Rejected
      ensures thens == old(thens) && Config() == old(Config())
      ensures catchFunc.None? ==> r == Err(error) && value == old(value)
      ensures catchFunc.Some? ==> r == Ok(()) && value == catchFunc.value(error)
    {
      status := Rejected;
      if catchFunc.None? {
        return Err(error);
      }
      value := catchFunc.value(error);
      return Ok(());
    }

    /** `execute(finalFunc)`. */
    method Execute(finalFunc: Option<Func>) returns (r: Result<Option<Held>>)
      modifies this
      ensures thens == old(thens) + (if finalFunc.Some? then [finalFunc.value] else [])
      ensures Config() == old(Config())
      ensures Execution(value, status, r) == Executed(old(value), thens, Config())
    {
      if finalFunc.Some? {
        thens := thens + [finalFunc.value];
      }
      ghost var start := value;
      ghost var st := Config();
      for i := 0 to |thens|
        invariant Config() == st && thens == old(thens) + (if finalFunc.Some? then [finalFunc.value] else [])
        invariant RunAll(start, thens[..i], st) == Run(value, None)
      {
        assert thens[..i + 1][..i] == thens[..i];
        var thrown := RunPass(thens[i]);
        if thrown.Some? {
          RunAllPrefixThrows(start, thens, st, i + 1);
          var caught := Catcher(thrown.value);
          if caught.Err? {
            return Err(caught.error);
          }
          return Ok(None);
        }
      }
      assert thens[..|thens|] == thens;
      status := if value.Async? then Promisified else Resolved;
      return Ok(Some(value));
    }

    /** The body of `execute`'s loop for one step. */
    method RunPass(func: Func) returns (thrown: Option<Error>)
      modifies this
      ensures thens == old(thens) && status == old(status) && Config() == old(Config())
      ensures Run(value, thrown) == StepOf(old(value), func, Config())
    {
      if value.Sync? {
        if promisifyCondition.None? {
          return Some(NoCondition);
        }
        if promisifyCondition.value(value.value) {
          if promisifyConversion.None? {
            return Some(NoConversion);
          }
          value := promisifyConversion.value(value.value);
        }
      }
      if value.Async? {
        value := Async(Chain(value.settled, func, catchFunc));
        return None;
      }
      var out := func(value.value);
      if out.Err? {
        return Some(out.error);
      }
      value := out.value;
      return None;
    }
  }

  // ---------------------------------------------------------------------------
  // Properties of the pipeline.

  /** Once a prefix of the queue throws, the rest of the queue does not run. */
  lemma {:induction false} RunAllPrefixThrows(h: Held, funcs: seq<Func>, st: Settings, i: nat)
    requires i <= |funcs| && RunAll(h, funcs[..i], st).thrown.Some?
    ensures RunAll(h, funcs, st) == RunAll(h, funcs[..i], st)
    decreases |funcs|
  {
    if i < |funcs| {
      var front := funcs[..|funcs| - 1];
      assert front[..i] == funcs[..i];
      RunAllPrefixThrows(h, front, st, i);
    } else {
      assert funcs[..i] == funcs;
    }
  }

  /** The steps run strictly in queue order: running `a + b` is running `a`, then `b`
      from where `a` left the value, unless `a` threw. */
  lemma {:induction false} RunAllAppend(h: Held, a: seq<Func>, b: seq<Func>, st: Settings)
    ensures RunAll(h, a + b, st)
      == (var ra := RunAll(h, a, st); if ra.thrown.Some? then ra else RunAll(ra.value, b, st))
    decreases |b|
  {
    if b == [] {
      assert a + b == a;
    } else {
      var front := b[..|b| - 1];
      assert (a + b)[..|a + b| - 1] == a + front;
      assert (a + b)[|a + b| - 1] == b[|b| - 1];
      RunAllAppend(h, a, front, st);
    }
  }

  /** Once a promise, always a promise: every later step is chained, none throws, and
      the value never becomes plain again. */
  lemma {:induction false} AsyncStaysAsync(h: Held, funcs: seq<Func>, st: Settings)
    requires h.Async?
    ensures RunAll(h, funcs, st).thrown.None? && RunAll(h, funcs, st).value.Async?
    decreases |funcs|
  {
    if funcs != [] {
      AsyncStaysAsync(h, funcs[..|funcs| - 1], st);
    }
  }

  /** A queue whose run becomes a promise part way ends as a promise, without a throw. */
  lemma OnceAsyncAlwaysAsync(h: Held, a: seq<Func>, b: seq<Func>, st: Settings)
    requires RunAll(h, a, st).thrown.None? && RunAll(h, a, st).value.Async?
    ensures RunAll(h, a + b, st).thrown.None? && RunAll(h, a + b, st).value.Async?
  {
    RunAllAppend(h, a, b, st);
    AsyncStaysAsync(RunAll(h, a, st).value, b, st);
  }

  /** How a run ends up settling: a throw rejects, a promise settles as it does, a
      plain value fulfils. */
  function Outcome(r: Run): Result<Value> {
    if r.thrown.Some? then Err(r.thrown.value) else Settled(r.value)
  }

  /** Without a handler and with a condition that never holds, a promise of `v` settles
      to what the synchronous pipeline on `v` ends in: its plain result, the promise a
      step returned, or the error a step threw. */
  lemma {:induction false} AsyncMirrorsSync(v: Value, funcs: seq<Func>, st: Settings)
    requires st.catchFunc.None? && st.promisifyCondition.Some?
    requires forall x :: !st.promisifyCondition.value(x)
    ensures RunAll(Async(Ok(v)), funcs, st) == Run(Async(Outcome(RunAll(Sync(v), funcs, st))), None)
    decreases |funcs|
  {
    if funcs != [] {
      var front, f := funcs[..|funcs| - 1], funcs[|funcs| - 1];
      AsyncMirrorsSync(v, front, st);
      var rs := RunAll(Sync(v), front, st);
      if rs.thrown.None? && rs.value.Sync? {
        assert Promisify(rs.value, st) == Run(rs.value, None);
      }
    }
  }

  /** With a handler, a rejection is recovered at the next step: the handler's result
      is what the remaining steps see. */
  lemma RejectionRecovered(e: Error, f: Func, rest: seq<Func>, st: Settings)
    requires st.catchFunc.Some?
    ensures RunAll(Async(Err(e)), [f] + rest, st) == RunAll(Async(Settled(st.catchFunc.value(e))), rest, st)
  {
    RunAllAppend(Async(Err(e)), [f], rest, st);
    assert [f][..0] == [];
    assert RunAll(Async(Err(e)), [f], st) == Run(Async(Settled(st.catchFunc.value(e))), None);
  }

  /** Steps that never return a promise. */
  ghost predicate PlainSteps(funcs: seq<Func>) {
    forall i, x :: 0 <= i < |funcs| && funcs[i](x).Ok? ==> funcs[i](x).value.Sync?
  }

  /** The steps applied one after another to a plain value, stopping at a throw. */
  function Composed(v: Value, funcs: seq<Func>): Result<Value>
    requires PlainSteps(funcs)
    decreases |funcs|
  {
    if funcs == [] then Ok(v)
    else
      match funcs[0](v)
      case Err(e) => Err(e)
      case Ok(w) => Composed(w.value, funcs[1..])
  }

  /** With a condition that never holds and steps that never return a promise, a plain
      value stays plain and the loop computes the composition of the steps: it throws
      exactly when the composition does. */
  lemma {:induction false} SyncRunComposes(v: Value, funcs: seq<Func>, st: Settings)
    requires st.promisifyCondition.Some? && forall x :: !st.promisifyCondition.value(x)
    requires PlainSteps(funcs)
    ensures var r := RunAll(Sync(v), funcs, st);
      r.value.Sync? && (r.thrown.None? <==> Composed(v, funcs).Ok?)
      && (r.thrown.None? ==> r.value.value == Composed(v, funcs).value)
      && (r.thrown.Some? ==> r.thrown.value == Composed(v, funcs).error)
    decreases |funcs|
  {
    if funcs != [] {
      var f, rest := funcs[0], funcs[1..];
      assert funcs == [f] + rest;
      RunAllAppend(Sync(v), [f], rest, st);
      assert [f][..0] == [];
      assert Promisify(Sync(v), st) == Run(Sync(v), None);
      match f(v)
      case Err(e) =>
      case Ok(w) =>
        assert w.Sync? by { assert funcs[0](v).Ok?; }
        assert PlainSteps(rest) by {
          forall i, x | 0 <= i < |rest| && rest[i](x).Ok? ensures rest[i](x).value.Sync? {
            assert rest[i] == funcs[i + 1];
          }
        }
        SyncRunComposes(w.value, rest, st);
    }
  }

  /** A plain value whose composed steps succeed, with a condition that never holds and
      steps that never return a promise, ends resolved with their result. */
  lemma SyncPipelineResolves(v: Value, funcs: seq<Func>, st: Settings)
    requires st.promisifyCondition.Some? && forall x :: !st.promisifyCondition.value(x)
    requires PlainSteps(funcs) && Composed(v, funcs).Ok?
    ensures Executed(Sync(v), funcs, st) == Execution(Sync(Composed(v, funcs).value), Resolved, Ok(Some(Sync(Composed(v, funcs).value))))
  {
    SyncRunComposes(v, funcs, st);
  }

  /** A step that returns a promise turns a plain pipeline asynchronous: every later step
      is chained, and `execute` ends promisified with no throw. */
  lemma PromiseStepPromisifies(v: Value, before: seq<Func>, f: Func, after: seq<Func>, st: Settings)
    requires RunAll(Sync(v), before, st) == Run(Sync(v), None)
    requires st.promisifyCondition.Some? && !st.promisifyCondition.value(v)
    requires f(v).Ok? && f(v).value.Async?
    ensures RunAll(Sync(v), before + [f], st) == Run(f(v).value, None)
    ensures var e := Executed(Sync(v), before + [f] + after, st);
      e.status == Promisified && e.value.Async? && e.result == Ok(Some(e.value))
  {
    assert (before + [f])[..|before|] == before;
    OnceAsyncAlwaysAsync(Sync(v), before + [f], after, st);
  }

  /** A plain value with no promisify condition throws at the first step: the condition
      is called before every step on a plain value. */
  lemma MissingConditionThrows(v: Value, funcs: seq<Func>, st: Settings)
    requires st.promisifyCondition.None? && funcs != []
    ensures RunAll(Sync(v), funcs, st) == Run(Sync(v), Some(NoCondition))
  {
    var first := funcs[..1];
    assert first[..0] == [];
    assert RunAll(Sync(v), first, st) == Run(Sync(v), Some(NoCondition));
    RunAllPrefixThrows(Sync(v), funcs, st, 1);
  }
}
