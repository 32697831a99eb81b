/** What the stop loop guarantees: which stop operations run, in which order, and where it stops. */
module StopProperties {
  import opened Wrappers
  import opened Seqs
  import opened Components
  import opened Sequence
  import opened Lifecycle
  import opened StartProperties

  /** The stop calls a loop over `keys` makes when no stop fails: one per key with a stop, in order. */
  function StoppedCalls(cs: Registry, keys: seq<string>): seq<Call>
    decreases |keys|
  {
    if keys == [] then []
    else
      var key := keys[|keys| - 1];
      StoppedCalls(cs, keys[..|keys| - 1]) + (if HasStop(cs, key) then [StopCall(key)] else [])
  }

  /** Stop operations are invoked only for components that have one, each at most once, in the order of `keys`. */
  lemma {:induction false} StopCallsInOrder(cs: Registry, keys: seq<string>)
    requires Distinct(keys)
    ensures var calls := StopFrom(cs, keys).calls;
      InOrder(keys, calls) && forall j :: 0 <= j < |calls| ==> calls[j].StopCall? && HasStop(cs, calls[j].key)
    decreases |keys|
  {
    if keys != [] {
      var p := keys[..|keys| - 1];
      StopCallsInOrder(cs, p);
      var prev := StopFrom(cs, p);
      var run := StopFrom(cs, keys);
      StopStepShape(cs, prev, keys[|keys| - 1]);
      if prev.error.None? && HasStop(cs, keys[|keys| - 1]) {
        assert run.calls == prev.calls + [StopCall(keys[|keys| - 1])];
        InOrderExtend(keys, prev.calls, StopCall(keys[|keys| - 1]));
      } else {
        assert run.calls == prev.calls;
        InOrderWiden(keys, prev.calls);
      }
    }
  }

  /** A stop loop that ends without failure met only known names and stopped every component with a stop, in order. */
  lemma {:induction false} StopCoversAll(cs: Registry, keys: seq<string>)
    requires StopFrom(cs, keys).error.None?
    ensures forall k :: k in keys ==> Lookup(cs, k).Some?
    ensures StopFrom(cs, keys).calls == StoppedCalls(cs, keys)
    decreases |keys|
  {
    if keys != [] {
      var p := keys[..|keys| - 1];
      assert StopFrom(cs, p).error.None?;
      StopCoversAll(cs, p);
      assert forall k :: k in keys ==> k in p || k == keys[|keys| - 1];
    }
  }

  /** Every key with a stop in `keys` has its stop call among `StoppedCalls(cs, keys)`. */
  lemma {:induction false} StoppedCallsCover(cs: Registry, keys: seq<string>, k: string)
    requires k in keys && HasStop(cs, k)
    ensures StopCall(k) in StoppedCalls(cs, keys)
    decreases |keys|
  {
    var p := keys[..|keys| - 1];
    if k != keys[|keys| - 1] {
      assert k in p;
      StoppedCallsCover(cs, p, k);
    }
  }

  /** The loop stopped at `key`: what that iteration did, with the failure it reports. */
  ghost predicate StopFailedAt(cs: Registry, prev: StopRun, run: StopRun, key: string) {
    && run.error.Some?
    && match run.error.value
       case StopCyclic(_) => false
       case NotAComponent(name) =>
         name == key && Lookup(cs, key).None? && run.calls == prev.calls
       case StopFailed(id, message) =>
         id == key && HasStop(cs, key) && Lookup(cs, key).value.stop == Some(Failed(message))
         && run.calls == prev.calls + [StopCall(key)]
         && StopMessage(run.error.value) == key + ": " + message
  }

  /** A failing iteration fails as `StopFailedAt` describes. */
  lemma StopStepFailure(cs: Registry, prev: StopRun, key: string)
    requires prev.error.None? && StopStep(cs, prev, key).error.Some?
    ensures StopFailedAt(cs, prev, StopStep(cs, prev, key), key)
  {
  }

  /** A failed stop loop over `keys` ran without failure over some prefix keys[..n] and failed at keys[n]. */
  lemma {:induction false} StopFailsAtSome(cs: Registry, keys: seq<string>)
    requires StopFrom(cs, keys).error.Some?
    ensures exists n :: (0 <= n < |keys| && StopFrom(cs, keys[..n]).error.None?
      && StopFrom(cs, keys) == StopFrom(cs, keys[..n + 1]))
    decreases |keys|
  {
    var p := keys[..|keys| - 1];
    if StopFrom(cs, p).error.Some? {
      assert StopFrom(cs, keys) == StopFrom(cs, p);
      StopFailsAtSome(cs, p);
      var n :| 0 <= n < |p| && StopFrom(cs, p[..n]).error.None? && StopFrom(cs, p) == StopFrom(cs, p[..n + 1]);
      assert p[..n] == keys[..n] && p[..n + 1] == keys[..n + 1];
      assert StopFrom(cs, keys) == StopFrom(cs, keys[..n + 1]);
    } else {
      var n := |keys| - 1;
      assert keys[..n] == p && keys[..n + 1] == keys;
      assert StopFrom(cs, keys[..n]).error.None?;
    }
  }

  /**
   * A failed stop loop over `keys` ran without failure over some prefix
   * keys[..n], failed at keys[n], and nothing after keys[n] was looked at.
   */
  lemma StopStopsAtFailure(cs: Registry, keys: seq<string>)
    requires StopFrom(cs, keys).error.Some?
    ensures exists n :: (0 <= n < |keys| && StopFrom(cs, keys[..n]).error.None?
      && StopFrom(cs, keys) == StopFrom(cs, keys[..n + 1])
      && StopFailedAt(cs, StopFrom(cs, keys[..n]), StopFrom(cs, keys), keys[n]))
  {
    StopFailsAtSome(cs, keys);
    var n :| 0 <= n < |keys| && StopFrom(cs, keys[..n]).error.None? && StopFrom(cs, keys) == StopFrom(cs, keys[..n + 1]);
    StopFromExtend(cs, keys, n);
    StopStepFailure(cs, StopFrom(cs, keys[..n]), keys[n]);
  }

  /**
   * A failed stop loop over distinct keys failed at some keys[n] as
   * `StopFailedAt` describes and stopped no component after keys[n].
   */
  lemma StopFromStopsAtFailure(cs: Registry, keys: seq<string>)
    requires Distinct(keys) && StopFrom(cs, keys).error.Some?
    ensures var run := StopFrom(cs, keys);
      exists n :: (0 <= n < |keys| && StopFrom(cs, keys[..n]).error.None?
        && StopFailedAt(cs, StopFrom(cs, keys[..n]), run, keys[n])
        && forall j :: 0 <= j < |run.calls| ==> run.calls[j].key in keys[..n + 1])
  {
    var run := StopFrom(cs, keys);
    StopStopsAtFailure(cs, keys);
    var n :| 0 <= n < |keys| && StopFrom(cs, keys[..n]).error.None?
      && run == StopFrom(cs, keys[..n + 1])
      && StopFailedAt(cs, StopFrom(cs, keys[..n]), run, keys[n]);
    var pre := keys[..n + 1];
    assert Distinct(pre) by {
      forall a, b | 0 <= a < b < |pre| ensures pre[a] != pre[b] {
        assert pre[a] == keys[a] && pre[b] == keys[b];
      }
    }
    StopCallsInOrder(cs, pre);
    assert run.calls == StopFrom(cs, pre).calls;
  }

  // ---------------------------------------------------------------------------
  // `stop()` on a component map

  /** `stop()` reports a cycle exactly when the declared dependencies contain one; it then stops nothing. */
  lemma CycleStopsNothing(cs: Registry)
    requires DistinctKeys(cs)
    ensures var run := StopSpec(cs);
      (run.error.Some? && run.error.value.StopCyclic?) <==> (exists p :: IsDependencyCycle(cs, p))
    ensures var run := StopSpec(cs);
      run.error.Some? && run.error.value.StopCyclic? ==>
        && run.calls == []
        && IsDependencyCycle(cs, run.error.value.cycle)
        && CyclePrefix <= StopMessage(run.error.value)
  {
    StartSequenceFailsIffCycle(cs);
    if StopSequence(cs).Failure? {
      assert StopSpec(cs) == StopRun([], Some(StopCyclic(StopSequence(cs).error)));
    }
  }

  /**
   * Each stop operation is called at most once per `stop()`, and never
   * before the stop operation of a component that depends on it.
   */
  lemma StopOrder(cs: Registry)
    requires DistinctKeys(cs)
    ensures var calls := StopSpec(cs).calls;
      forall i, j :: 0 <= i < j < |calls| ==>
        calls[i].key != calls[j].key && calls[i].key !in Params(cs, calls[j].key)
  {
    if StopSequence(cs).Success? {
      var s := StopSequence(cs).value;
      StopSequenceDependentsFirst(cs);
      StopCallsInOrder(cs, s);
      var calls := StopSpec(cs).calls;
      forall i, j | 0 <= i < j < |calls|
        ensures calls[i].key != calls[j].key && calls[i].key !in Params(cs, calls[j].key)
      {
        var a, b := IndexOf(s, calls[i].key), IndexOf(s, calls[j].key);
        assert a < b;
      }
    }
  }

  /**
   * A `stop()` that succeeds stopped exactly the components that have a stop
   * operation, each once, in stop order, which is the start order reversed.
   */
  lemma StopSuccess(cs: Registry)
    requires DistinctKeys(cs)
    ensures var run := StopSpec(cs);
      run.error.None? ==>
        && StopSequence(cs).Success?
        && StopSequence(cs).value == Reverse(StartSequence(cs).value)
        && run.calls == StoppedCalls(cs, StopSequence(cs).value)
        && forall k :: k in Keys(cs) && HasStop(cs, k) ==> StopCall(k) in run.calls
  {
    var run := StopSpec(cs);
    if run.error.None? && StopSequence(cs).Success? {
      var s := StopSequence(cs).value;
      StopSequenceDependentsFirst(cs);
      StopCoversAll(cs, s);
      forall k | k in Keys(cs) && HasStop(cs, k) ensures StopCall(k) in run.calls {
        assert k in Elems(Keys(cs));
        StoppedCallsCover(cs, s, k);
      }
    }
  }

  /**
   * A `stop()` that fails after computing its order failed at the n-th name
   * as `StopFailedAt` describes (an unregistered name, or a stop failure
   * reported as "<id>: <message>"), and stopped no component after it.
   */
  lemma StopFailureStopsLoop(cs: Registry)
    ensures var run := StopSpec(cs);
      run.error.Some? && !run.error.value.StopCyclic? ==>
        && StopSequence(cs).Success?
        && var s := StopSequence(cs).value;
           exists n :: (0 <= n < |s| && StopFrom(cs, s[..n]).error.None?
             && StopFailedAt(cs, StopFrom(cs, s[..n]), run, s[n])
             && forall j :: 0 <= j < |run.calls| ==> run.calls[j].key in s[..n + 1])
  {
    var run := StopSpec(cs);
    if run.error.Some? && !run.error.value.StopCyclic? {
      ReverseDistinct(StartSequence(cs).value);
      StopFromStopsAtFailure(cs, StopSequence(cs).value);
    }
  }
}
