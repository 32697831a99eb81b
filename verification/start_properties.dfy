/** What the start loop guarantees: call order, the context it leaves, and where it stops. */
module StartProperties {
  import opened Wrappers
  import opened Seqs
  import opened Components
  import opened Sequence
  import opened Lifecycle

  /** The calls were made for names of `keys`, in the order of `keys`. */
  ghost predicate InOrder(keys: seq<string>, calls: seq<Call>) {
    && (forall j :: 0 <= j < |calls| ==> calls[j].key in keys)
    && (forall i, j :: 0 <= i < j < |calls| && calls[i].key in keys && calls[j].key in keys ==>
          IndexOf(keys, calls[i].key) < IndexOf(keys, calls[j].key))
  }

  /** Extending a call list in order with a call for a key that follows every earlier one keeps it in order. */
  lemma InOrderExtend(keys: seq<string>, calls: seq<Call>, c: Call)
    requires Distinct(keys) && keys != [] && c.key == keys[|keys| - 1]
    requires InOrder(keys[..|keys| - 1], calls)
    ensures InOrder(keys, calls + [c])
  {
    var p := keys[..|keys| - 1];
    var calls' := calls + [c];
    IndexOfDistinct(keys, |keys| - 1);
    forall j | 0 <= j < |calls|
      ensures calls[j].key in keys && IndexOf(keys, calls[j].key) == IndexOf(p, calls[j].key) < |keys| - 1
    {
      IndexOfPrefix(keys, |keys| - 1, calls[j].key);
    }
    forall i, j | 0 <= i < j < |calls'|
      ensures IndexOf(keys, calls'[i].key) < IndexOf(keys, calls'[j].key)
    {
      assert calls'[i] == calls[i];
      if j < |calls| {
        assert calls'[j] == calls[j];
      }
    }
  }

  lemma InOrderWiden(keys: seq<string>, calls: seq<Call>)
    requires keys != [] && InOrder(keys[..|keys| - 1], calls)
    ensures InOrder(keys, calls)
  {
    forall j | 0 <= j < |calls| ensures calls[j].key in keys && IndexOf(keys[..|keys| - 1], calls[j].key) == IndexOf(keys, calls[j].key) {
      IndexOfPrefix(keys, |keys| - 1, calls[j].key);
    }
  }

  /** Start operations are invoked only for components that have one, each at most once, in the order of `keys`. */
  lemma {:induction false} StartCallsInOrder(cs: Registry, ctx: map<string, Value>, keys: seq<string>)
    requires Distinct(keys)
    ensures var calls := StartFrom(cs, ctx, keys).calls;
      InOrder(keys, calls) && forall j :: 0 <= j < |calls| ==> calls[j].StartCall? && HasStart(cs, calls[j].key)
    decreases |keys|
  {
    if keys != [] {
      var p := keys[..|keys| - 1];
      StartCallsInOrder(cs, ctx, p);
      var prev := StartFrom(cs, ctx, p);
      var run := StartFrom(cs, ctx, keys);
      var key := keys[|keys| - 1];
      StartStepShape(cs, prev, key);
      if prev.error.None? && HasStart(cs, key) {
        var c := StartCall(key, Args(prev.ctx, Params(cs, key)));
        assert run.calls == prev.calls + [c];
        InOrderExtend(keys, prev.calls, c);
      } else {
        assert run.calls == prev.calls;
        InOrderWiden(keys, prev.calls);
      }
    }
  }

  /** The loop changes the context only at the keys it starts: every other entry keeps its presence and value. */
  lemma {:induction false} StartContextFrame(cs: Registry, ctx: map<string, Value>, keys: seq<string>)
    ensures var run := StartFrom(cs, ctx, keys);
      forall x :: !(x in keys && HasStart(cs, x)) ==>
        (x in run.ctx <==> x in ctx) && (x in ctx ==> run.ctx[x] == ctx[x])
    decreases |keys|
  {
    if keys != [] {
      var p := keys[..|keys| - 1];
      StartContextFrame(cs, ctx, p);
      StartStepShape(cs, StartFrom(cs, ctx, p), keys[|keys| - 1]);
      assert forall x :: x in p ==> x in keys;
    }
  }

  /** The loop stopped at `key`: what that iteration did, with the failure it reports. */
  ghost predicate FailedAt(cs: Registry, prev: StartRun, run: StartRun, key: string) {
    && run.ctx == prev.ctx
    && run.error.Some?
    && match run.error.value
       case Cyclic(_) => false
       case UnknownComponent(name) =>
         name == key && Lookup(cs, key).None? && run.calls == prev.calls
       case StartThrew(id, message) =>
         id == key && HasStart(cs, key) && run.calls == prev.calls + [StartCall(key, Args(prev.ctx, Params(cs, key)))]
         && RunStart(cs, key, Args(prev.ctx, Params(cs, key))) == Threw(message)
         && StartMessage(run.error.value) == key + ": " + message
       case StartRejected(message) =>
         HasStart(cs, key) && run.calls == prev.calls + [StartCall(key, Args(prev.ctx, Params(cs, key)))]
         && RunStart(cs, key, Args(prev.ctx, Params(cs, key))) == Rejected(message)
         && StartMessage(run.error.value) == message
  }

  /** A failing iteration fails as `FailedAt` describes. */
  lemma StepFailure(cs: Registry, prev: StartRun, key: string)
    requires prev.error.None? && StartStep(cs, prev, key).error.Some?
    ensures FailedAt(cs, prev, StartStep(cs, prev, key), key)
  {
  }

  /** A failed loop over `keys` ran without failure over some prefix keys[..n] and failed at keys[n]. */
  lemma {:induction false} StartFailsAtSome(cs: Registry, ctx: map<string, Value>, keys: seq<string>)
    requires StartFrom(cs, ctx, keys).error.Some?
    ensures exists n :: (0 <= n < |keys| && StartFrom(cs, ctx, keys[..n]).error.None?
      && StartFrom(cs, ctx, keys) == StartFrom(cs, ctx, keys[..n + 1]))
    decreases |keys|
  {
    var p := keys[..|keys| - 1];
    if StartFrom(cs, ctx, p).error.Some? {
      assert StartFrom(cs, ctx, keys) == StartFrom(cs, ctx, p);
      StartFailsAtSome(cs, ctx, p);
      var n :| 0 <= n < |p| && StartFrom(cs, ctx, p[..n]).error.None?
        && StartFrom(cs, ctx, p) == StartFrom(cs, ctx, p[..n + 1]);
      assert p[..n] == keys[..n] && p[..n + 1] == keys[..n + 1];
      assert StartFrom(cs, ctx, keys) == StartFrom(cs, ctx, keys[..n + 1]);
    } else {
      var n := |keys| - 1;
      assert keys[..n] == p && keys[..n + 1] == keys;
      assert StartFrom(cs, ctx, keys[..n]).error.None?;
    }
  }

  /**
   * A failed loop over `keys` ran without failure over some prefix keys[..n],
   * failed at keys[n], and nothing after keys[n] was looked at.
   */
  lemma StartStopsAtFailure(cs: Registry, ctx: map<string, Value>, keys: seq<string>)
    requires StartFrom(cs, ctx, keys).error.Some?
    ensures exists n :: (0 <= n < |keys| && StartFrom(cs, ctx, keys[..n]).error.None?
      && StartFrom(cs, ctx, keys) == StartFrom(cs, ctx, keys[..n + 1])
      && FailedAt(cs, StartFrom(cs, ctx, keys[..n]), StartFrom(cs, ctx, keys), keys[n]))
  {
    StartFailsAtSome(cs, ctx, keys);
    var n :| 0 <= n < |keys| && StartFrom(cs, ctx, keys[..n]).error.None?
      && StartFrom(cs, ctx, keys) == StartFrom(cs, ctx, keys[..n + 1]);
    StartFromExtend(cs, ctx, keys, n);
    StepFailure(cs, StartFrom(cs, ctx, keys[..n]), keys[n]);
  }

  /**
   * The calls a start loop over `keys` makes when every start operation
   * returns: one per key with a start, in order, each with its dependencies'
   * values in ctx.
   */
  function StartedCalls(cs: Registry, ctx: map<string, Value>, keys: seq<string>): seq<Call>
    decreases |keys|
  {
    if keys == [] then []
    else
      var key := keys[|keys| - 1];
      StartedCalls(cs, ctx, keys[..|keys| - 1])
        + (if HasStart(cs, key) then [StartCall(key, Args(ctx, Params(cs, key)))] else [])
  }

  lemma ArgsIgnore(ctx: map<string, Value>, params: seq<string>, x: string, v: Value)
    requires x !in params
    ensures Args(ctx[x := v], params) == Args(ctx, params)
  {
  }

  lemma {:induction false} StartedCallsIgnore(cs: Registry, ctx: map<string, Value>, keys: seq<string>, x: string, v: Value)
    requires forall i :: 0 <= i < |keys| ==> x !in Params(cs, keys[i])
    ensures StartedCalls(cs, ctx[x := v], keys) == StartedCalls(cs, ctx, keys)
    decreases |keys|
  {
    if keys != [] {
      var p := keys[..|keys| - 1];
      assert forall i :: 0 <= i < |p| ==> p[i] == keys[i];
      StartedCallsIgnore(cs, ctx, p, x, v);
      ArgsIgnore(ctx, Params(cs, keys[|keys| - 1]), x, v);
    }
  }

  /** Every name of `keys` is a key of the component map. */
  ghost predicate AllKnown(cs: Registry, keys: seq<string>) {
    forall k :: k in keys ==> Lookup(cs, k).Some?
  }

  /** Each component of `keys` with a start has the value its start returned on its dependencies' entries. */
  ghost predicate HoldsReturned(cs: Registry, ctx: map<string, Value>, keys: seq<string>) {
    forall k :: k in keys && HasStart(cs, k) ==>
      k in ctx && RunStart(cs, k, Args(ctx, Params(cs, k))) == Returned(ctx[k])
  }

  /**
   * After a failure-free start loop over `keys`: every key was known, each
   * started component's entry is what its start returned on its dependencies'
   * entries, and the calls are exactly `StartedCalls` on the final context.
   */
  ghost predicate StartedWell(cs: Registry, run: StartRun, keys: seq<string>) {
    && AllKnown(cs, keys)
    && HoldsReturned(cs, run.ctx, keys)
    && run.calls == StartedCalls(cs, run.ctx, keys)
  }

  /** The key `keys[|keys| - 1]` is a dependency of no element of `keys`. */
  ghost predicate LastIsNoDependency(cs: Registry, keys: seq<string>) {
    keys != [] && forall i :: 0 <= i < |keys| ==> keys[|keys| - 1] !in Params(cs, keys[i])
  }

  lemma KnownStep(cs: Registry, prev: StartRun, keys: seq<string>)
    requires keys != [] && AllKnown(cs, keys[..|keys| - 1])
    requires StartStep(cs, prev, keys[|keys| - 1]).error.None?
    ensures AllKnown(cs, keys)
  {
    assert forall x :: x in keys ==> x in keys[..|keys| - 1] || x == keys[|keys| - 1];
  }

  lemma ValuesStep(cs: Registry, prev: StartRun, keys: seq<string>)
    requires LastIsNoDependency(cs, keys) && prev.error.None?
    requires StartStep(cs, prev, keys[|keys| - 1]).error.None?
    requires HoldsReturned(cs, prev.ctx, keys[..|keys| - 1])
    ensures HoldsReturned(cs, StartStep(cs, prev, keys[|keys| - 1]).ctx, keys)
  {
    var n := |keys| - 1;
    var p, k := keys[..n], keys[n];
    var run := StartStep(cs, prev, k);
    StartStepShape(cs, prev, k);
    if HasStart(cs, k) {
      var v := run.ctx[k];
      assert k !in Params(cs, keys[n]);
      ArgsIgnore(prev.ctx, Params(cs, k), k, v);
      forall k' | k' in keys && HasStart(cs, k')
        ensures k' in run.ctx && RunStart(cs, k', Args(run.ctx, Params(cs, k'))) == Returned(run.ctx[k'])
      {
        if k' != k {
          var i :| 0 <= i < |keys| && keys[i] == k';
          assert k !in Params(cs, keys[i]);
          assert k' in p by {
            assert p[i] == k';
          }
          ArgsIgnore(prev.ctx, Params(cs, k'), k, v);
        }
      }
    } else {
      assert forall x :: x in keys ==> x in p || x == k;
    }
  }

  lemma CallsStep(cs: Registry, prev: StartRun, keys: seq<string>)
    requires LastIsNoDependency(cs, keys) && prev.error.None?
    requires StartStep(cs, prev, keys[|keys| - 1]).error.None?
    requires prev.calls == StartedCalls(cs, prev.ctx, keys[..|keys| - 1])
    ensures StartStep(cs, prev, keys[|keys| - 1]).calls == StartedCalls(cs, StartStep(cs, prev, keys[|keys| - 1]).ctx, keys)
  {
    var n := |keys| - 1;
    var p, k := keys[..n], keys[n];
    var run := StartStep(cs, prev, k);
    StartStepShape(cs, prev, k);
    if HasStart(cs, k) {
      var v := run.ctx[k];
      assert k !in Params(cs, keys[n]);
      ArgsIgnore(prev.ctx, Params(cs, k), k, v);
      assert forall i :: 0 <= i < |p| ==> k !in Params(cs, p[i]) by {
        forall i | 0 <= i < |p| ensures k !in Params(cs, p[i]) {
          assert keys[i] == p[i];
        }
      }
      StartedCallsIgnore(cs, prev.ctx, p, k, v);
    }
  }

  /** One failure-free iteration for a key that no earlier key (nor itself) depends on keeps `StartedWell`. */
  lemma StartedWellStep(cs: Registry, prev: StartRun, keys: seq<string>)
    requires LastIsNoDependency(cs, keys) && prev.error.None?
    requires StartStep(cs, prev, keys[|keys| - 1]).error.None?
    requires StartedWell(cs, prev, keys[..|keys| - 1])
    ensures StartedWell(cs, StartStep(cs, prev, keys[|keys| - 1]), keys)
  {
    KnownStep(cs, prev, keys);
    ValuesStep(cs, prev, keys);
    CallsStep(cs, prev, keys);
  }

  /** A start loop over distinct keys, each after its dependencies, that ends without failure is `StartedWell`. */
  lemma {:induction false} SuccessfulStart(cs: Registry, ctx: map<string, Value>, keys: seq<string>)
    requires Distinct(keys) && DepsBefore(cs, keys)
    requires StartFrom(cs, ctx, keys).error.None?
    ensures StartedWell(cs, StartFrom(cs, ctx, keys), keys)
    decreases |keys|
  {
    if keys != [] {
      var n := |keys| - 1;
      var p := keys[..n];
      assert Distinct(p);
      assert DepsBefore(cs, p) by {
        forall i, d | 0 <= i < |p| && d in Params(cs, p[i]) ensures d in p[..i] {
          assert p[i] == keys[i] && p[..i] == keys[..i];
        }
      }
      SuccessfulStart(cs, ctx, p);
      assert keys[..n + 1] == keys;
      StartFromExtend(cs, ctx, keys, n);
      assert LastIsNoDependency(cs, keys);
      StartedWellStep(cs, StartFrom(cs, ctx, p), keys);
    }
  }

  // ---------------------------------------------------------------------------
  // `start()` on a component map

  /**
   * `start()` reports a cycle exactly when the declared dependencies contain
   * one; it then names a cycle, starts nothing and leaves the context alone.
   */
  lemma CycleStartsNothing(cs: Registry, ctx: map<string, Value>)
    requires DistinctKeys(cs)
    ensures var run := StartSpec(cs, ctx);
      (run.error.Some? && run.error.value.Cyclic?) <==> (exists p :: IsDependencyCycle(cs, p))
    ensures var run := StartSpec(cs, ctx);
      run.error.Some? && run.error.value.Cyclic? ==>
        && run.calls == [] && run.ctx == ctx
        && IsDependencyCycle(cs, run.error.value.cycle)
        && CyclePrefix <= StartMessage(run.error.value)
  {
    StartSequenceFailsIffCycle(cs);
    if StartSequence(cs).Failure? {
      assert StartSpec(cs, ctx) == StartRun(ctx, [], Some(Cyclic(StartSequence(cs).error)));
    }
  }

  /**
   * A `start()` that succeeds found every declared dependency among the keys,
   * stored for each component with a start what that start returned when given
   * its dependencies' context entries in declared order, changed no other
   * entry, and called the start operations in start order.
   */
  lemma StartContext(cs: Registry, ctx: map<string, Value>)
    requires DistinctKeys(cs)
    ensures var run := StartSpec(cs, ctx);
      run.error.None? ==>
        && StartSequence(cs).Success?
        && DeclaredDeps(cs) <= Elems(Keys(cs))
        && (forall k :: k in Keys(cs) && HasStart(cs, k) ==>
              k in run.ctx && RunStart(cs, k, Args(run.ctx, Params(cs, k))) == Returned(run.ctx[k]))
        && (forall x :: !(x in Keys(cs) && HasStart(cs, x)) ==>
              (x in run.ctx <==> x in ctx) && (x in ctx ==> run.ctx[x] == ctx[x]))
        && run.calls == StartedCalls(cs, run.ctx, StartSequence(cs).value)
  {
    var run := StartSpec(cs, ctx);
    if run.error.None? && StartSequence(cs).Success? {
      var s := StartSequence(cs).value;
      StartSequenceOrder(cs);
      SuccessfulStart(cs, ctx, s);
      StartContextFrame(cs, ctx, s);
      forall d | d in DeclaredDeps(cs) ensures d in Elems(Keys(cs)) {
        assert d in Elems(s);
      }
      forall x | !(x in Keys(cs) && HasStart(cs, x)) ensures !(x in s && HasStart(cs, x)) {
      }
      forall k | k in Keys(cs) && HasStart(cs, k) ensures k in s {
        assert k in Elems(Keys(cs));
      }
    }
  }

  /**
   * Each start operation is called at most once per `start()`, and never
   * before the start operation of one of its dependencies.
   */
  lemma StartOrder(cs: Registry, ctx: map<string, Value>)
    requires DistinctKeys(cs)
    ensures var calls := StartSpec(cs, ctx).calls;
      forall i, j :: 0 <= i < j < |calls| ==>
        calls[i].key != calls[j].key && calls[j].key !in Params(cs, calls[i].key)
  {
    if StartSequence(cs).Success? {
      var s := StartSequence(cs).value;
      StartSequenceOrder(cs);
      StartCallsInOrder(cs, ctx, s);
      var calls := StartSpec(cs, ctx).calls;
      forall i, j | 0 <= i < j < |calls|
        ensures calls[i].key != calls[j].key && calls[j].key !in Params(cs, calls[i].key)
      {
        var a, b := IndexOf(s, calls[i].key), IndexOf(s, calls[j].key);
        assert a < b;
      }
    }
  }

  /** A loop over distinct keys that reaches an unknown name fails there at the latest, before any later key. */
  lemma UnknownNameStopsLoop(cs: Registry, ctx: map<string, Value>, keys: seq<string>, j: nat)
    requires Distinct(keys) && j < |keys| && Lookup(cs, keys[j]).None?
    ensures var run := StartFrom(cs, ctx, keys);
      run.error.Some? && forall c :: 0 <= c < |run.calls| ==> run.calls[c].key in keys[..j]
  {
    var prev := StartFrom(cs, ctx, keys[..j]);
    if prev.error.None? {
      StartFromExtend(cs, ctx, keys, j);
      assert StartFrom(cs, ctx, keys[..j + 1]) == prev.(error := Some(UnknownComponent(keys[j])));
    } else {
      assert keys[..j + 1][..j] == keys[..j];
      assert StartFrom(cs, ctx, keys[..j + 1]) == prev;
    }
    StartFailureEndsLoop(cs, ctx, keys, j + 1);
    assert Distinct(keys[..j]) by {
      forall a, b | 0 <= a < b < j ensures keys[..j][a] != keys[..j][b] {
        assert keys[..j][a] == keys[a] && keys[..j][b] == keys[b];
      }
    }
    StartCallsInOrder(cs, ctx, keys[..j]);
    assert StartFrom(cs, ctx, keys).calls == prev.calls;
  }

  /**
   * When a component declares a dependency that is not a key, `start()` fails
   * and that component's start is never called.
   */
  lemma UnknownDependencyNeverStarts(cs: Registry, ctx: map<string, Value>, k: string, d: string)
    requires DistinctKeys(cs)
    requires d in Params(cs, k) && d !in Keys(cs)
    ensures var run := StartSpec(cs, ctx);
      run.error.Some? && forall j :: 0 <= j < |run.calls| ==> run.calls[j].key != k
  {
    if StartSequence(cs).Success? {
      var s := StartSequence(cs).value;
      StartSequenceOrder(cs);
      assert k in Elems(Keys(cs));
      var i := IndexOf(s, k);
      assert d in s[..i];
      var j := IndexOf(s, d);
      UnknownNameStopsLoop(cs, ctx, s, j);
      assert k !in s[..j];
    }
  }

  /**
   * A failed loop over distinct keys ran without failure up to some position
   * n, failed at keys[n] as `FailedAt` describes, and called no start
   * operation of a later key.
   */
  lemma StartFromStopsAtFailure(cs: Registry, ctx: map<string, Value>, keys: seq<string>)
    requires Distinct(keys) && StartFrom(cs, ctx, keys).error.Some?
    ensures var run := StartFrom(cs, ctx, keys);
      exists n :: (0 <= n < |keys| && StartFrom(cs, ctx, keys[..n]).error.None?
        && FailedAt(cs, StartFrom(cs, ctx, keys[..n]), run, keys[n])
        && forall j :: 0 <= j < |run.calls| ==> run.calls[j].key in keys[..n + 1])
  {
    var run := StartFrom(cs, ctx, keys);
    StartStopsAtFailure(cs, ctx, keys);
    var n :| 0 <= n < |keys| && StartFrom(cs, ctx, keys[..n]).error.None?
      && run == StartFrom(cs, ctx, keys[..n + 1])
      && FailedAt(cs, StartFrom(cs, ctx, keys[..n]), run, keys[n]);
    var pre := keys[..n + 1];
    assert Distinct(pre) by {
      forall a, b | 0 <= a < b < |pre| ensures pre[a] != pre[b] {
        assert pre[a] == keys[a] && pre[b] == keys[b];
      }
    }
    StartCallsInOrder(cs, ctx, pre);
    assert run.calls == StartFrom(cs, ctx, pre).calls;
    assert InOrder(pre, run.calls);
  }

  /**
   * A `start()` that fails after computing its order ran the loop without
   * failure up to some position n, failed at the n-th name as `FailedAt`
   * describes (unknown name, prefixed throw, or unprefixed rejection), and
   * called no start operation of a later name.
   */
  lemma StartFailureStopsLoop(cs: Registry, ctx: map<string, Value>)
    ensures var run := StartSpec(cs, ctx);
      run.error.Some? && !run.error.value.Cyclic? ==>
        && StartSequence(cs).Success?
        && var s := StartSequence(cs).value;
           exists n :: (0 <= n < |s| && StartFrom(cs, ctx, s[..n]).error.None?
             && FailedAt(cs, StartFrom(cs, ctx, s[..n]), run, s[n])
             && forall j :: 0 <= j < |run.calls| ==> run.calls[j].key in s[..n + 1])
  {
    var run := StartSpec(cs, ctx);
    if run.error.Some? && !run.error.value.Cyclic? {
      StartFromStopsAtFailure(cs, ctx, StartSequence(cs).value);
    }
  }
}
