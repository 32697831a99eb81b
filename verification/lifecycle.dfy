/**
 * The executor built by `system(components)`: a context shared by its start
 * calls, a start loop that injects dependency values from that context, and a
 * stop loop over the reversed order; both stop at the first failure.
 */
module Lifecycle {
  import opened Wrappers
  import opened Seqs
  import opened Components
  import opened Sequence

  /** An invocation of a component's start or stop operation, as the component observes it. */
  datatype Call = StartCall(key: string, args: seq<Value>) | StopCall(key: string)

  /** Why `start()` failed. */
  datatype StartError =
    | Cyclic(cycle: seq<string>)              // thrown by the sort, before the loop
    | UnknownComponent(name: string)          // "Unknown component: <name>"
    | StartThrew(id: string, message: string) // a synchronous throw, rethrown as "<id>: <message>"
    | StartRejected(message: string)          // a rejected promise, surfacing unchanged at the await

  /** Why `stop()` failed. */
  datatype StopError =
    | StopCyclic(cycle: seq<string>)          // thrown by the sort, before the loop
    | NotAComponent(name: string)             // `components[key]` is undefined: reading `.stop` throws
    | StopFailed(id: string, message: string) // rethrown as "<id>: <message>"

  function JoinChain(names: seq<string>): string {
    if names == [] then ""
    else if |names| == 1 then names[0]
    else names[0] + " -> " + JoinChain(names[1..])
  }

  /** How the sorter's error message begins. */
  const CyclePrefix := "Cyclic dependency found"

  function CycleMessage(cycle: seq<string>): (m: string)
    ensures CyclePrefix <= m
  {
    var m := CyclePrefix + ". Dependency chain: " + JoinChain(cycle);
    assert m[..|CyclePrefix|] == CyclePrefix;
    m
  }

  /** How `start()` reports an error. */
  const UnknownPrefix := "Unknown component: "

  /**
   * The message of a `start()` failure. The component's own message follows
   * the "<id>: " prefix of a synchronous throw and the "Unknown component: "
   * prefix, and a rejection's message is passed on unchanged.
   */
  function StartMessage(e: StartError): (r: string)
    ensures e.Cyclic? ==> CyclePrefix <= r
    ensures e.UnknownComponent? ==> UnknownPrefix <= r && r[|UnknownPrefix|..] == e.name
    ensures e.StartThrew? ==> e.id + ": " <= r && r[|e.id| + 2..] == e.message
    ensures e.StartRejected? ==> r == e.message
  {
    match e
    case Cyclic(cycle) => CycleMessage(cycle)
    case UnknownComponent(name) =>
      var r := UnknownPrefix + name;
      assert r[..|UnknownPrefix|] == UnknownPrefix;
      r
    case StartThrew(id, message) =>
      var r := id + ": " + message;
      assert r[..|id| + 2] == id + ": ";
      r
    case StartRejected(message) => message
  }

  /**
   * The message of a `stop()` failure: the component's own message follows
   * the "<id>: " prefix.
   */
  function StopMessage(e: StopError): (r: string)
    ensures e.StopCyclic? ==> CyclePrefix <= r
    ensures e.StopFailed? ==> e.id + ": " <= r && r[|e.id| + 2..] == e.message
  {
    match e
    case StopCyclic(cycle) => CycleMessage(cycle)
    case NotAComponent(name) => "Cannot read properties of undefined (reading 'stop')"
    case StopFailed(id, message) =>
      var r := id + ": " + message;
      assert r[..|id| + 2] == id + ": ";
      r
  }

  predicate HasStart(cs: Registry, key: string) {
    Lookup(cs, key).Some? && Lookup(cs, key).value.start.Some?
  }

  predicate HasStop(cs: Registry, key: string) {
    Lookup(cs, key).Some? && Lookup(cs, key).value.stop.Some?
  }

  /** What the start operation registered under key does with given arguments. */
  function RunStart(cs: Registry, key: string, args: seq<Value>): StartOutcome
    requires HasStart(cs, key)
  {
    Lookup(cs, key).value.start.value.run(args)
  }

  /** The arguments for a start operation: the context's value of each declared name, `undefined` when absent. */
  function Args(ctx: map<string, Value>, params: seq<string>): (r: seq<Value>)
    ensures |r| == |params|
    ensures forall i :: 0 <= i < |params| ==> r[i] == (if params[i] in ctx then ctx[params[i]] else Undefined)
  {
    seq(|params|, i requires 0 <= i < |params| => if params[i] in ctx then ctx[params[i]] else Undefined)
  }

  // ---------------------------------------------------------------------------
  // The start loop

  /** The state of the start loop: the context, the calls made, and the failure that ended it, if any. */
  datatype StartRun = StartRun(ctx: map<string, Value>, calls: seq<Call>, error: Option<StartError>)

  /** One iteration of the start loop for `key`. */
  function StartStep(cs: Registry, run: StartRun, key: string): (r: StartRun)
    ensures r.calls == run.calls || r.calls == run.calls + [StartCall(key, Args(run.ctx, Params(cs, key)))]
    ensures r.error.Some? && r.error != run.error ==> !r.error.value.Cyclic?
  {
    match Lookup(cs, key)
    case None => run.(error := Some(UnknownComponent(key)))
    case Some(component) =>
      if component.start.None? then run
      else
        var args := Args(run.ctx, component.start.value.params);
        var calls := run.calls + [StartCall(key, args)];
        match component.start.value.run(args)
        case Returned(v) => StartRun(run.ctx[key := v], calls, None)
        case Threw(message) => StartRun(run.ctx, calls, Some(StartThrew(key, message)))
        case Rejected(message) => StartRun(run.ctx, calls, Some(StartRejected(message)))
  }

  /** An iteration calls the start operation of `key` if it has one, and stores its value only when it returns. */
  lemma StartStepShape(cs: Registry, run: StartRun, key: string)
    ensures var next := StartStep(cs, run, key);
      && next.calls == run.calls + (if HasStart(cs, key) then [StartCall(key, Args(run.ctx, Params(cs, key)))] else [])
      && (HasStart(cs, key) && next.error.None? ==>
            && key in next.ctx && next.ctx == run.ctx[key := next.ctx[key]]
            && RunStart(cs, key, Args(run.ctx, Params(cs, key))) == Returned(next.ctx[key]))
      && (!(HasStart(cs, key) && next.error.None?) ==> next.ctx == run.ctx)
  {
  }

  /** The start loop over `keys` from context ctx, ending at the first failure. */
  function StartFrom(cs: Registry, ctx: map<string, Value>, keys: seq<string>): (r: StartRun)
    ensures |r.calls| <= |keys|
    ensures r.error.Some? ==> !r.error.value.Cyclic?
    decreases |keys|
  {
    if keys == [] then StartRun(ctx, [], None)
    else
      var prev := StartFrom(cs, ctx, keys[..|keys| - 1]);
      if prev.error.Some? then prev else StartStep(cs, prev, keys[|keys| - 1])
  }

  /** `start()` on a system whose context is ctx: the order is computed first, then the loop runs. */
  function StartSpec(cs: Registry, ctx: map<string, Value>): (r: StartRun)
    ensures (r.error.Some? && r.error.value.Cyclic?) <==> StartSequence(cs).Failure?
    ensures r.error.Some? && r.error.value.Cyclic? ==> r.calls == [] && r.ctx == ctx
  {
    match StartSequence(cs)
    case Failure(cycle) => StartRun(ctx, [], Some(Cyclic(cycle)))
    case Success(keys) => StartFrom(cs, ctx, keys)
  }

  // ---------------------------------------------------------------------------
  // The stop loop

  /** The state of the stop loop: the calls made, and the failure that ended it, if any. */
  datatype StopRun = StopRun(calls: seq<Call>, error: Option<StopError>)

  /** One iteration of the stop loop for `key`. */
  function StopStep(cs: Registry, run: StopRun, key: string): (r: StopRun)
    ensures r.calls == run.calls || r.calls == run.calls + [StopCall(key)]
    ensures r.error.Some? && r.error != run.error ==> !r.error.value.StopCyclic?
  {
    match Lookup(cs, key)
    case None => run.(error := Some(NotAComponent(key)))
    case Some(component) =>
      if component.stop.None? then run
      else
        var calls := run.calls + [StopCall(key)];
        match component.stop.value
        case Completed => StopRun(calls, None)
        case Failed(message) => StopRun(calls, Some(StopFailed(key, message)))
  }

  /** An iteration calls the stop operation of `key` if it has one. */
  lemma StopStepShape(cs: Registry, run: StopRun, key: string)
    ensures StopStep(cs, run, key).calls == run.calls + (if HasStop(cs, key) then [StopCall(key)] else [])
  {
  }

  /** The stop loop over `keys`, ending at the first failure. */
  function StopFrom(cs: Registry, keys: seq<string>): (r: StopRun)
    ensures |r.calls| <= |keys|
    ensures r.error.Some? ==> !r.error.value.StopCyclic?
    decreases |keys|
  {
    if keys == [] then StopRun([], None)
    else
      var prev := StopFrom(cs, keys[..|keys| - 1]);
      if prev.error.Some? then prev else StopStep(cs, prev, keys[|keys| - 1])
  }

  /** `stop()`: the stop order is computed first, then the loop runs. */
  function StopSpec(cs: Registry): (r: StopRun)
    ensures (r.error.Some? && r.error.value.StopCyclic?) <==> StopSequence(cs).Failure?
    ensures r.error.Some? && r.error.value.StopCyclic? ==> r.calls == []
  {
    match StopSequence(cs)
    case Failure(cycle) => StopRun([], Some(StopCyclic(cycle)))
    case Success(keys) => StopFrom(cs, keys)
  }

  // ---------------------------------------------------------------------------
  // The system object

  /** The object `system(components)` returns, with the context its start calls share. */
  class System {
    const components: Registry
    var ctx: map<string, Value>
    /** Every start and stop operation invoked so far, in order. */
    ghost var trace: seq<Call>

    constructor (components: Registry)
      ensures this.components == components && ctx == map[] && trace == []
    {
      this.components := components;
      ctx := map[];
      trace := [];
    }

    method Start() returns (r: Result<map<string, Value>, StartError>)
      modifies this`ctx, this`trace
      ensures var run := StartSpec(components, old(ctx));
        && ctx == run.ctx
        && trace == old(trace) + run.calls
        && r == (if run.error.Some? then Failure(run.error.value) else Success(ctx))
    {
      var sequence := StartSequence(components);
      if sequence.Failure? {
        return Failure(Cyclic(sequence.error));
      }
      r := StartAll(sequence.value);
    }

    /** The loop of `start()` over the start order `keys`. */
    method StartAll(keys: seq<string>) returns (r: Result<map<string, Value>, StartError>)
      modifies this`ctx, this`trace
      ensures var run := StartFrom(components, old(ctx), keys);
        && ctx == run.ctx
        && trace == old(trace) + run.calls
        && r == (if run.error.Some? then Failure(run.error.value) else Success(ctx))
    {
      ghost var ctx0 := ctx;
      ghost var calls: seq<Call> := [];
      var i := 0;
      while i < |keys|
        invariant 0 <= i <= |keys|
        invariant trace == old(trace) + calls
        invariant StartFrom(components, ctx0, keys[..i]) == StartRun(ctx, calls, None)
      {
        var key := keys[i];
        StartFromExtend(components, ctx0, keys, i);
        ghost var next := StartStep(components, StartRun(ctx, calls, None), key);
        var component := Lookup(components, key);
        if component.None? {
          assert next.error == Some(UnknownComponent(key));
          StartFailureEndsLoop(components, ctx0, keys, i + 1);
          return Failure(UnknownComponent(key));
        }
        if component.value.start.Some? {
          calls := calls + [StartCall(key, Args(ctx, component.value.start.value.params))];
          assert next.calls == calls;
          var result := StartComponent(key, component.value.start.value);
          assert trace == old(trace) + calls;
          if result.Failure? {
            assert next.error == Some(result.error);
            StartFailureEndsLoop(components, ctx0, keys, i + 1);
            return Failure(result.error);
          }
          ctx := ctx[key := result.value];
          assert next == StartRun(ctx, calls, None);
        } else {
          assert next == StartRun(ctx, calls, None);
        }
        i := i + 1;
      }
      assert keys[..i] == keys;
      return Success(ctx);
    }

    /**
     * `startComponent`: calls the start operation of `id` with the context's
     * values of its parameters. A throw during the call is reported as
     * "<id>: <message>"; a rejected promise reaches the caller's `await`
     * with its message unchanged.
     */
    method StartComponent(id: string, start: Start) returns (r: Result<Value, StartError>)
      modifies this`trace
      ensures trace == old(trace) + [StartCall(id, Args(ctx, start.params))]
      ensures r == match start.run(Args(ctx, start.params))
        case Returned(v) => Success(v)
        case Threw(message) => Failure(StartThrew(id, message))
        case Rejected(message) => Failure(StartRejected(message))
    {
      var args := Args(ctx, start.params);
      trace := trace + [StartCall(id, args)];
      match start.run(args)
      case Returned(v) =>
        r := Success(v);
      case Threw(message) =>
        r := Failure(StartThrew(id, message));
      case Rejected(message) =>
        r := Failure(StartRejected(message));
    }

    method Stop() returns (r: Outcome<StopError>)
      modifies this`trace
      ensures var run := StopSpec(components);
        && trace == old(trace) + run.calls
        && r == (if run.error.Some? then Fail(run.error.value) else Pass)
    {
      var sequence := StopSequence(components);
      if sequence.Failure? {
        return Fail(StopCyclic(sequence.error));
      }
      r := StopAll(sequence.value);
    }

    /** The loop of `stop()` over the stop order `keys`. */
    method StopAll(keys: seq<string>) returns (r: Outcome<StopError>)
      modifies this`trace
      ensures var run := StopFrom(components, keys);
        && trace == old(trace) + run.calls
        && r == (if run.error.Some? then Fail(run.error.value) else Pass)
    {
      ghost var calls: seq<Call> := [];
      var i := 0;
      while i < |keys|
        invariant 0 <= i <= |keys|
        invariant trace == old(trace) + calls
        invariant StopFrom(components, keys[..i]) == StopRun(calls, None)
      {
        var key := keys[i];
        StopFromExtend(components, keys, i);
        ghost var next := StopStep(components, StopRun(calls, None), key);
        var component := Lookup(components, key);
        if component.None? {
          assert next.error == Some(NotAComponent(key));
          StopFailureEndsLoop(components, keys, i + 1);
          return Fail(NotAComponent(key));
        }
        if component.value.stop.Some? {
          calls := calls + [StopCall(key)];
          assert next.calls == calls;
          var failure := StopComponent(key, component.value.stop.value);
          assert trace == old(trace) + calls;
          if failure.Some? {
            assert next.error == failure;
            StopFailureEndsLoop(components, keys, i + 1);
            return Fail(failure.value);
          }
          assert next == StopRun(calls, None);
        } else {
          assert next == StopRun(calls, None);
        }
        i := i + 1;
      }
      assert keys[..i] == keys;
      return Pass;
    }

    /** `stopComponent`: runs the stop operation of `id`; a failure is reported as "<id>: <message>". */
    method StopComponent(id: string, stop: StopOutcome) returns (failure: Option<StopError>)
      modifies this`trace
      ensures trace == old(trace) + [StopCall(id)]
      ensures failure == (if stop.Failed? then Some(StopFailed(id, stop.message)) else None)
    {
      trace := trace + [StopCall(id)];
      if stop.Failed? {
        return Some(StopFailed(id, stop.message));
      }
      return None;
    }
  }

  // ---------------------------------------------------------------------------
  // Properties of the loops

  /** After the first failure the start loop does nothing more: later keys change neither the context nor the calls. */
  lemma {:induction false} StartErrorIsFinal(cs: Registry, ctx: map<string, Value>, p: seq<string>, q: seq<string>)
    requires StartFrom(cs, ctx, p).error.Some?
    ensures StartFrom(cs, ctx, p + q) == StartFrom(cs, ctx, p)
    decreases |q|
  {
    if q != [] {
      var q' := q[..|q| - 1];
      assert (p + q)[..|p + q| - 1] == p + q';
      StartErrorIsFinal(cs, ctx, p, q');
    } else {
      assert p + q == p;
    }
  }

  /** After the first failure the stop loop stops nothing more. */
  lemma {:induction false} StopErrorIsFinal(cs: Registry, p: seq<string>, q: seq<string>)
    requires StopFrom(cs, p).error.Some?
    ensures StopFrom(cs, p + q) == StopFrom(cs, p)
    decreases |q|
  {
    if q != [] {
      var q' := q[..|q| - 1];
      assert (p + q)[..|p + q| - 1] == p + q';
      StopErrorIsFinal(cs, p, q');
    } else {
      assert p + q == p;
    }
  }

  /** Running the start loop over one more key. */
  lemma StartFromExtend(cs: Registry, ctx: map<string, Value>, keys: seq<string>, i: nat)
    requires i < |keys| && StartFrom(cs, ctx, keys[..i]).error.None?
    ensures StartFrom(cs, ctx, keys[..i + 1]) == StartStep(cs, StartFrom(cs, ctx, keys[..i]), keys[i])
  {
    assert keys[..i + 1][..i] == keys[..i];
  }

  /** Running the stop loop over one more key. */
  lemma StopFromExtend(cs: Registry, keys: seq<string>, i: nat)
    requires i < |keys| && StopFrom(cs, keys[..i]).error.None?
    ensures StopFrom(cs, keys[..i + 1]) == StopStep(cs, StopFrom(cs, keys[..i]), keys[i])
  {
    assert keys[..i + 1][..i] == keys[..i];
  }

  /** Once the loop over a prefix of keys has failed, so has the loop over all of keys, with the same outcome. */
  lemma StartFailureEndsLoop(cs: Registry, ctx: map<string, Value>, keys: seq<string>, i: nat)
    requires i <= |keys| && StartFrom(cs, ctx, keys[..i]).error.Some?
    ensures StartFrom(cs, ctx, keys) == StartFrom(cs, ctx, keys[..i])
  {
    assert keys[..i] + keys[i..] == keys;
    StartErrorIsFinal(cs, ctx, keys[..i], keys[i..]);
  }

  lemma StopFailureEndsLoop(cs: Registry, keys: seq<string>, i: nat)
    requires i <= |keys| && StopFrom(cs, keys[..i]).error.Some?
    ensures StopFrom(cs, keys) == StopFrom(cs, keys[..i])
  {
    assert keys[..i] + keys[i..] == keys;
    StopErrorIsFinal(cs, keys[..i], keys[i..]);
  }
}
