/** The behaviours the repository's test suite checks, on concrete component maps. */
module Scenarios {
  import opened Wrappers
  import opened Seqs
  import opened Components
  import opened Toposort
  import opened Sequence
  import opened Lifecycle
  import opened StartProperties
  import opened StopProperties
  import opened SortSteps

  /** A start operation with the given parameters that returns `undefined`. */
  function Plain(params: seq<string>): Start {
    Start(params, (args: seq<Value>) => Returned(Undefined))
  }

  /** The sorter's graph when only component a declares a dependency, on b. */
  function SingleEdge(a: string, b: string): Edges {
    [(a, [b])]
  }

  lemma SingleEdgeGraph(a: string, b: string)
    requires a != b
    ensures var g := SingleEdge(a, b);
      && Names(g) == [a] && Deps(g, a) == [b] && Deps(g, b) == []
      && a in Universe(g) && b in Universe(g)
      && IsChain(g, [a]) && IsChain(g, [a, b]) && Emitted(g, [])
  {
    var g := SingleEdge(a, b);
    assert g[1..] == [];
    assert b in Deps(g, a);
  }

  lemma VisitDependency(a: string, b: string)
    requires a != b
    ensures CanVisit(SingleEdge(a, b), b, [a], []) && Visit(SingleEdge(a, b), b, [a], []) == Success([b])
  {
    SingleEdgeGraph(a, b);
    assert [a] + [b] == [a, b] && [] + [b] == [b];
    VisitLeaf(SingleEdge(a, b), b, [a], []);
  }

  lemma DependencyOfDependent(a: string, b: string)
    requires a != b
    ensures CanVisitDeps(SingleEdge(a, b), [b], [a], [])
      && VisitDeps(SingleEdge(a, b), [b], [a], []) == Success([b])
  {
    var g := SingleEdge(a, b);
    SingleEdgeGraph(a, b);
    DepsInUniverse(g, a);
    VisitDependency(a, b);
    assert [b] + [] == [b];
    VisitDepsVisits(g, b, [], [a], [], [b]);
    assert VisitDeps(g, [], [a], [b]) == Success([b]);
  }

  lemma VisitDependent(a: string, b: string)
    requires a != b
    ensures CanVisit(SingleEdge(a, b), a, [], []) && Visit(SingleEdge(a, b), a, [], []) == Success([b, a])
  {
    var g := SingleEdge(a, b);
    SingleEdgeGraph(a, b);
    DependencyOfDependent(a, b);
    assert [] + [a] == [a] && [b] + [a] == [b, a];
    VisitAfterDeps(g, a, [], [], [b]);
  }

  /** With a single dependency of a on b, the sorter lists a before b. */
  lemma SortSingleEdge(a: string, b: string)
    requires a != b
    ensures Sort(SingleEdge(a, b)) == Success([a, b])
  {
    var g := SingleEdge(a, b);
    SingleEdgeGraph(a, b);
    VisitDependent(a, b);
    assert [a] + [] == [a];
    SortFromVisits(g, a, [], [], [b, a]);
    SortIs(g, [b, a]);
    assert Reverse([b, a]) == [a, b];
  }

  // ---------------------------------------------------------------------------
  // The test suite's `{ one, two, three }`: one depends on two, three is independent

  /** a depends on b; c is independent; all three have start and stop operations. */
  function Three(a: string, b: string, c: string): Registry {
    [ (a, Component(Some(Plain([b])), Some(Completed))),
      (b, Component(Some(Plain([])), Some(Completed))),
      (c, Component(Some(Plain([])), Some(Completed))) ]
  }

  lemma PartitionThree(a: string, b: string, c: string)
    ensures Partition(Three(a, b, c)) == (SingleEdge(a, b), [b, c])
  {
    var cs := Three(a, b, c);
    var x1, x2, x3 := cs[0], cs[1], cs[2];
    assert cs == [x1] + ([x2] + ([x3] + []));
    PartitionCons(x3, []);
    PartitionCons(x2, [x3] + []);
    PartitionCons(x1, [x2] + ([x3] + []));
    assert Signature(x1.1) == [b] && Signature(x2.1) == [] && Signature(x3.1) == [];
    assert [c] + [] == [c] && [b] + [c] == [b, c] && [(a, [b])] + [] == SingleEdge(a, b);
  }

  lemma DedupThree(a: string, b: string, c: string)
    requires a != b && b != c && a != c
    ensures Dedup([b, a, b, c]) == [b, a, c]
  {
    var s1, s2, s3 := [b], [b, a], [b, a, b];
    assert s1 == [] + [b] && s2 == s1 + [a] && s3 == s2 + [b] && [b, a, b, c] == s3 + [c];
    DedupAppendsNew([], [], b);
    DedupAppendsNew(s1, [b], a);
    DedupSkipsSeen(s2, [b, a], b);
    DedupAppendsNew(s3, [b, a], c);
  }

  /** The start order is b, a, c; the stop order is c, a, b. */
  lemma ThreeSequences(a: string, b: string, c: string)
    requires a != b && b != c && a != c
    ensures StartSequence(Three(a, b, c)) == Success([b, a, c])
    ensures StopSequence(Three(a, b, c)) == Success([c, a, b])
  {
    PartitionThree(a, b, c);
    SortSingleEdge(a, b);
    ReversePair(a, b);
    assert [b, a] + [b, c] == [b, a, b, c];
    DedupThree(a, b, c);
    SequencesAre(Three(a, b, c), SingleEdge(a, b), [b, c], [a, b], [b, a, c]);
    ReverseTriple(b, a, c);
  }

  lemma ThreeLookups(a: string, b: string, c: string)
    requires a != b && b != c && a != c
    ensures var cs := Three(a, b, c);
      Lookup(cs, a) == Some(cs[0].1) && Lookup(cs, b) == Some(cs[1].1) && Lookup(cs, c) == Some(cs[2].1)
  {
    var cs := Three(a, b, c);
    assert cs[1..][0] == cs[1] && cs[1..][1..] == cs[2..] && cs[2..][0] == cs[2];
    assert Lookup(cs[2..], c) == Some(cs[2].1);
    assert Lookup(cs[1..], c) == Some(cs[2].1);
  }

  /** An iteration of the start loop whose start operation returns v. */
  lemma ReturnedStep(cs: Registry, run: StartRun, key: string, params: seq<string>, v: Value)
    requires Lookup(cs, key).Some? && Lookup(cs, key).value.start.Some?
    requires Lookup(cs, key).value.start.value.params == params
    requires Lookup(cs, key).value.start.value.run(Args(run.ctx, params)) == Returned(v)
    ensures StartStep(cs, run, key) == StartRun(run.ctx[key := v], run.calls + [StartCall(key, Args(run.ctx, params))], None)
  {
  }

  /** An iteration of the start loop for a component whose start returns `undefined`. */
  lemma PlainStep(cs: Registry, run: StartRun, key: string, params: seq<string>)
    requires Lookup(cs, key).Some? && Lookup(cs, key).value.start == Some(Plain(params))
    ensures StartStep(cs, run, key) == StartRun(run.ctx[key := Undefined], run.calls + [StartCall(key, Args(run.ctx, params))], None)
  {
    ReturnedStep(cs, run, key, params, Undefined);
  }

  /** The start loop over one more key whose start returns without dependencies. */
  lemma StartsLeaf(cs: Registry, ctx: map<string, Value>, keys: seq<string>, key: string)
    requires StartFrom(cs, ctx, keys).error.None?
    requires Lookup(cs, key).Some? && Lookup(cs, key).value.start == Some(Plain([]))
    ensures var prev := StartFrom(cs, ctx, keys);
      StartFrom(cs, ctx, keys + [key]) == StartRun(prev.ctx[key := Undefined], prev.calls + [StartCall(key, [])], None)
  {
    var prev := StartFrom(cs, ctx, keys);
    assert (keys + [key])[..|keys|] == keys;
    PlainStep(cs, prev, key, []);
    assert Args(prev.ctx, []) == [];
  }

  /** The start loop over one more key whose start takes the value of `dep`, already in the context. */
  lemma StartsAfter(cs: Registry, ctx: map<string, Value>, keys: seq<string>, key: string, dep: string)
    requires StartFrom(cs, ctx, keys).error.None? && dep in StartFrom(cs, ctx, keys).ctx
    requires Lookup(cs, key).Some? && Lookup(cs, key).value.start == Some(Plain([dep]))
    ensures var prev := StartFrom(cs, ctx, keys);
      StartFrom(cs, ctx, keys + [key])
        == StartRun(prev.ctx[key := Undefined], prev.calls + [StartCall(key, [prev.ctx[dep]])], None)
  {
    var prev := StartFrom(cs, ctx, keys);
    assert (keys + [key])[..|keys|] == keys;
    PlainStep(cs, prev, key, [dep]);
    assert Args(prev.ctx, [dep]) == [prev.ctx[dep]];
  }

  /** The stop loop over one more key whose stop completes. */
  lemma StopsOne(cs: Registry, keys: seq<string>, key: string, start: Start)
    requires StopFrom(cs, keys).error.None?
    requires Lookup(cs, key) == Some(Component(Some(start), Some(Completed)))
    ensures StopFrom(cs, keys + [key]) == StopRun(StopFrom(cs, keys).calls + [StopCall(key)], None)
  {
    assert (keys + [key])[..|keys|] == keys;
  }

  /** The start loop over one more key that is not a component: the loop fails there. */
  lemma StartsUnknown(cs: Registry, ctx: map<string, Value>, keys: seq<string>, key: string)
    requires StartFrom(cs, ctx, keys).error.None? && Lookup(cs, key).None?
    ensures var prev := StartFrom(cs, ctx, keys);
      StartFrom(cs, ctx, keys + [key]) == StartRun(prev.ctx, prev.calls, Some(UnknownComponent(key)))
  {
    assert (keys + [key])[..|keys|] == keys;
  }

  /** The stop loop over one more key whose stop throws `message`: the loop fails there. */
  lemma StopsFailing(cs: Registry, keys: seq<string>, key: string, start: Start, message: string)
    requires StopFrom(cs, keys).error.None?
    requires Lookup(cs, key) == Some(Component(Some(start), Some(Failed(message))))
    ensures StopFrom(cs, keys + [key])
      == StopRun(StopFrom(cs, keys).calls + [StopCall(key)], Some(StopFailed(key, message)))
  {
    assert (keys + [key])[..|keys|] == keys;
  }

  /** The start and stop orders of a map, from the partition, the sort and the de-duplication. */
  lemma SequencesAre(cs: Registry, edges: Edges, noDeps: seq<string>, sorted: seq<string>, start: seq<string>)
    requires Partition(cs) == (edges, noDeps) && Sort(edges) == Success(sorted)
    requires Dedup(Reverse(sorted) + noDeps) == start
    ensures StartSequence(cs) == Success(start) && StopSequence(cs) == Success(Reverse(start))
  {
  }

  lemma ReversePair<T>(x: T, y: T)
    ensures Reverse([x, y]) == [y, x]
  {
  }

  lemma ReverseTriple<T>(x: T, y: T, z: T)
    ensures Reverse([x, y, z]) == [z, y, x]
  {
  }

  /** The start loop over b, a, c, where a's start takes b's value. */
  lemma StartsInOrder(cs: Registry, a: string, b: string, c: string)
    requires Lookup(cs, a) == Some(Component(Some(Plain([b])), Some(Completed)))
    requires Lookup(cs, b) == Some(Component(Some(Plain([])), Some(Completed)))
    requires Lookup(cs, c) == Some(Component(Some(Plain([])), Some(Completed)))
    ensures StartFrom(cs, map[], [b, a, c])
      == StartRun(map[b := Undefined, a := Undefined, c := Undefined],
                  [StartCall(b, []), StartCall(a, [Undefined]), StartCall(c, [])], None)
  {
    var k1, k2, k3 := [b], [b, a], [b, a, c];
    assert k1 == [] + [b] && k2 == k1 + [a] && k3 == k2 + [c];
    StartsLeaf(cs, map[], [], b);
    var r1 := StartFrom(cs, map[], k1);
    assert r1 == StartRun(map[b := Undefined], [StartCall(b, [])], None);
    StartsAfter(cs, map[], k1, a, b);
    var r2 := StartFrom(cs, map[], k2);
    assert r2 == StartRun(map[b := Undefined, a := Undefined], [StartCall(b, []), StartCall(a, [Undefined])], None);
    StartsLeaf(cs, map[], k2, c);
  }

  /** The stop loop over c, a, b, whose stops all complete. */
  lemma StopsInOrder(cs: Registry, a: string, b: string, c: string)
    requires Lookup(cs, a) == Some(Component(Some(Plain([b])), Some(Completed)))
    requires Lookup(cs, b) == Some(Component(Some(Plain([])), Some(Completed)))
    requires Lookup(cs, c) == Some(Component(Some(Plain([])), Some(Completed)))
    ensures StopFrom(cs, [c, a, b]) == StopRun([StopCall(c), StopCall(a), StopCall(b)], None)
  {
    var k1, k2, k3 := [c], [c, a], [c, a, b];
    assert k1 == [] + [c] && k2 == k1 + [a] && k3 == k2 + [b];
    StopsOne(cs, [], c, Plain([]));
    assert StopFrom(cs, k1) == StopRun([StopCall(c)], None);
    StopsOne(cs, k1, a, Plain([b]));
    assert StopFrom(cs, k2) == StopRun([StopCall(c), StopCall(a)], None);
    StopsOne(cs, k2, b, Plain([]));
  }

  /** `start()` calls b's start, then a's with b's value, then c's. */
  lemma ThreeStarts(a: string, b: string, c: string)
    requires a != b && b != c && a != c
    ensures StartSpec(Three(a, b, c), map[])
      == StartRun(map[b := Undefined, a := Undefined, c := Undefined],
                  [StartCall(b, []), StartCall(a, [Undefined]), StartCall(c, [])], None)
  {
    ThreeSequences(a, b, c);
    ThreeLookups(a, b, c);
    StartsInOrder(Three(a, b, c), a, b, c);
  }

  /** `stop()` calls c's stop, then a's, then b's. */
  lemma ThreeStops(a: string, b: string, c: string)
    requires a != b && b != c && a != c
    ensures StopSpec(Three(a, b, c)) == StopRun([StopCall(c), StopCall(a), StopCall(b)], None)
  {
    ThreeSequences(a, b, c);
    ThreeLookups(a, b, c);
    StopsInOrder(Three(a, b, c), a, b, c);
  }

  /** The orders of the test suite's example: start two, one, three; stop three, one, two. */
  method TestDependencyOrder() returns (start: seq<string>, stop: seq<string>)
    ensures start == ["two", "one", "three"] && stop == ["three", "one", "two"]
  {
    var one, two, three := "one", "two", "three";
    ThreeSequences(one, two, three);
    start := StartSequence(Three(one, two, three)).value;
    stop := StopSequence(Three(one, two, three)).value;
  }

  /** `start()` and then `stop()` on a fresh system of `cs`: the two loops' calls, one after the other. */
  method StartThenStop(cs: Registry)
    returns (system: System, started: Result<map<string, Value>, StartError>, stopped: Outcome<StopError>)
    ensures var run := StartSpec(cs, map[]);
      started == (if run.error.Some? then Failure(run.error.value) else Success(run.ctx))
    ensures stopped == (if StopSpec(cs).error.Some? then Fail(StopSpec(cs).error.value) else Pass)
    ensures system.trace == StartSpec(cs, map[]).calls + StopSpec(cs).calls
  {
    system := new System(cs);
    ghost var startRun, stopRun := StartSpec(cs, map[]), StopSpec(cs);
    started := system.Start();
    assert system.trace == startRun.calls;
    stopped := system.Stop();
    assert system.trace == startRun.calls + stopRun.calls;
  }

  /** Starting and then stopping a fresh system of `Three` calls the operations in those orders. */
  method ThreeStartThenStop(a: string, b: string, c: string) returns (system: System)
    requires a != b && b != c && a != c
    ensures system.trace == [StartCall(b, []), StartCall(a, [Undefined]), StartCall(c, []),
                             StopCall(c), StopCall(a), StopCall(b)]
  {
    ThreeStarts(a, b, c);
    ThreeStops(a, b, c);
    var started, stopped;
    system, started, stopped := StartThenStop(Three(a, b, c));
  }

  /** The test suite's example: starts two, one, three, then stops three, one, two. */
  method TestStopsInDependencyOrder() returns (system: System)
    ensures system.trace == [StartCall("two", []), StartCall("one", [Undefined]), StartCall("three", []),
                             StopCall("three"), StopCall("one"), StopCall("two")]
  {
    var one, two, three := "one", "two", "three";
    system := ThreeStartThenStop(one, two, three);
  }

  // ---------------------------------------------------------------------------
  // Systems of one component

  /** A component without declared dependencies is the whole start and stop order of a system of its own. */
  lemma SingleSequences(key: string, c: Component)
    requires Signature(c) == []
    ensures StartSequence([(key, c)]) == Success([key])
    ensures StopSequence([(key, c)]) == Success([key])
  {
    var cs := [(key, c)];
    assert cs == [(key, c)] + [];
    PartitionCons((key, c), []);
    assert [key] + [] == [key];
    assert Sort([]) == Success([]);
    assert Reverse<string>([]) + [key] == [key];
    DedupOfDistinct([key]);
    SequencesAre(cs, [], [key], [], [key]);
  }

  /** In a system of one component without dependencies, `start()` and `stop()` are one iteration each. */
  lemma SingleRuns(key: string, c: Component, ctx: map<string, Value>)
    requires Signature(c) == []
    ensures StartSpec([(key, c)], ctx) == StartStep([(key, c)], StartRun(ctx, [], None), key)
    ensures StopSpec([(key, c)]) == StopStep([(key, c)], StopRun([], None), key)
    ensures Lookup([(key, c)], key) == Some(c)
  {
    SingleSequences(key, c);
    assert [key][..0] == [] && [key][..1] == [key];
    StartFromExtend([(key, c)], ctx, [key], 0);
    StopFromExtend([(key, c)], [key], 0);
  }

  /** The first iteration of the start loop, for a start without parameters that throws or rejects. */
  lemma FirstStep(cs: Registry, key: string, outcome: StartOutcome)
    requires Lookup(cs, key).Some? && Lookup(cs, key).value.start.Some?
    requires Lookup(cs, key).value.start.value.params == []
    requires Lookup(cs, key).value.start.value.run([]) == outcome && !outcome.Returned?
    ensures StartStep(cs, StartRun(map[], [], None), key)
      == StartRun(map[], [StartCall(key, [])],
                  Some(if outcome.Threw? then StartThrew(key, outcome.message) else StartRejected(outcome.message)))
  {
    assert Args(map[], []) == [];
  }

  /** A system of one component whose start throws `message` while being called. */
  function Throwing(key: string, message: string): Registry {
    [(key, Component(Some(Start([], (args: seq<Value>) => Threw(message))), None))]
  }

  /** `start()` calls the start once and fails with "<key>: <message>". */
  lemma ThrowingStartIsPrefixed(key: string, message: string)
    ensures StartSpec(Throwing(key, message), map[]) == StartRun(map[], [StartCall(key, [])], Some(StartThrew(key, message)))
    ensures StartMessage(StartThrew(key, message)) == key + ": " + message
  {
    var cs := Throwing(key, message);
    SingleRuns(key, cs[0].1, map[]);
    assert cs[0].1.start.value.run([]) == Threw(message);
    FirstStep(cs, key, Threw(message));
  }

  /** On a fresh system whose start throws, `start()` fails with "<key>: <message>". */
  method StartThrowing(key: string, message: string) returns (r: Result<map<string, Value>, StartError>)
    ensures r == Failure(StartThrew(key, message))
    ensures StartMessage(r.error) == key + ": " + message
  {
    ThrowingStartIsPrefixed(key, message);
    var system := new System(Throwing(key, message));
    r := system.Start();
  }

  /** The start failure of the test suite: "comp: Test Error". */
  method TestErrorOnStart() returns (r: Result<map<string, Value>, StartError>)
    ensures r.Failure? && StartMessage(r.error) == "comp: Test Error"
  {
    var key, message := "comp", "Test Error";
    r := StartThrowing(key, message);
  }

  /** A system of one component whose start returns a promise rejected with `message`. */
  function Rejecting(key: string, message: string): Registry {
    [(key, Component(Some(Start([], (args: seq<Value>) => Rejected(message))), None))]
  }

  /** `start()` calls the start once and fails with `message` itself, without the component's name. */
  lemma RejectedStartIsNotPrefixed(key: string, message: string)
    ensures StartSpec(Rejecting(key, message), map[]) == StartRun(map[], [StartCall(key, [])], Some(StartRejected(message)))
    ensures StartMessage(StartRejected(message)) == message
  {
    var cs := Rejecting(key, message);
    SingleRuns(key, cs[0].1, map[]);
    assert cs[0].1.start.value.run([]) == Rejected(message);
    FirstStep(cs, key, Rejected(message));
  }

  /** `{ comp: {} }`: a system of one component with neither operation. */
  function Bare(key: string): Registry {
    [(key, Component(None, None))]
  }

  /** `start()` calls nothing and leaves the component out of the context; `stop()` calls nothing. */
  lemma BareIsSkipped(key: string)
    ensures StartSpec(Bare(key), map[]) == StartRun(map[], [], None)
    ensures key !in StartSpec(Bare(key), map[]).ctx
    ensures StopSpec(Bare(key)) == StopRun([], None)
  {
    SingleRuns(key, Bare(key)[0].1, map[]);
  }

  /** A system of one component with a start and a stop that throws `message`. */
  function FailingStop(key: string, message: string): Registry {
    [(key, Component(Some(Plain([])), Some(Failed(message))))]
  }

  /** An iteration of the stop loop whose stop throws `message`. */
  lemma FailingStopStep(cs: Registry, run: StopRun, key: string, message: string)
    requires Lookup(cs, key).Some? && Lookup(cs, key).value.stop == Some(Failed(message))
    ensures StopStep(cs, run, key) == StopRun(run.calls + [StopCall(key)], Some(StopFailed(key, message)))
  {
  }

  /** `start()` succeeds; `stop()` calls the stop once and fails with "<key>: <message>". */
  lemma FailingStopIsPrefixed(key: string, message: string)
    ensures StartSpec(FailingStop(key, message), map[]) == StartRun(map[key := Undefined], [StartCall(key, [])], None)
    ensures StopSpec(FailingStop(key, message)) == StopRun([StopCall(key)], Some(StopFailed(key, message)))
    ensures StopMessage(StopFailed(key, message)) == key + ": " + message
  {
    var cs := FailingStop(key, message);
    SingleRuns(key, cs[0].1, map[]);
    PlainStep(cs, StartRun(map[], [], None), key, []);
    assert Args(map[], []) == [];
    FailingStopStep(cs, StopRun([], None), key, message);
  }

  /** On a fresh system, `start()` succeeds and a throwing stop makes `stop()` fail with "<key>: <message>". */
  method StartThenFailingStop(key: string, message: string)
    returns (started: Result<map<string, Value>, StartError>, stopped: Outcome<StopError>)
    ensures started == Success(map[key := Undefined])
    ensures stopped == Fail(StopFailed(key, message))
    ensures StopMessage(stopped.error) == key + ": " + message
  {
    FailingStopIsPrefixed(key, message);
    var system;
    system, started, stopped := StartThenStop(FailingStop(key, message));
  }

  /** The stop failure of the test suite: after `start()`, `stop()` fails with "comp: Test Error". */
  method TestErrorOnStop() returns (stopped: Outcome<StopError>)
    ensures stopped.Fail? && StopMessage(stopped.error) == "comp: Test Error"
  {
    var key, message := "comp", "Test Error";
    var started;
    started, stopped := StartThenFailingStop(key, message);
  }

  /** `system({})`: `start()` yields the empty context and `stop()` succeeds. */
  method EmptySystem() returns (started: Result<map<string, Value>, StartError>, stopped: Outcome<StopError>)
    ensures started == Success(map[])
    ensures stopped == Pass
  {
    assert Partition([]) == ([], []) && Sort([]) == Success([]);
    assert Reverse<string>([]) + [] == [];
    var system := new System([]);
    started := system.Start();
    stopped := system.Stop();
  }

  // ---------------------------------------------------------------------------
  // Dependencies between components

  /** A system of one component whose start declares the dependency `dep`, which is not a component. */
  function Missing(key: string, dep: string): Registry {
    [(key, Component(Some(Plain([dep])), None))]
  }

  lemma MissingSequence(key: string, dep: string)
    requires key != dep
    ensures StartSequence(Missing(key, dep)) == Success([dep, key])
  {
    var cs := Missing(key, dep);
    assert cs == [cs[0]] + [];
    PartitionCons(cs[0], []);
    assert [(key, [dep])] + [] == SingleEdge(key, dep);
    SortSingleEdge(key, dep);
    ReversePair(key, dep);
    assert [dep, key] + [] == [dep, key];
    DedupOfDistinct([dep, key]);
    SequencesAre(cs, SingleEdge(key, dep), [], [key, dep], [dep, key]);
  }

  /**
   * `start()` fails with "Unknown component: <dep>" when it reaches the
   * missing name, before the dependent component, so nothing is started.
   */
  lemma UnknownDependencyReported(key: string, dep: string, ctx: map<string, Value>)
    requires key != dep
    ensures StartSpec(Missing(key, dep), ctx) == StartRun(ctx, [], Some(UnknownComponent(dep)))
    ensures StartMessage(UnknownComponent(dep)) == "Unknown component: " + dep
  {
    var cs := Missing(key, dep);
    MissingSequence(key, dep);
    assert Lookup(cs, dep) == None;
    StartsUnknown(cs, ctx, [], dep);
    assert [] + [dep] == [dep, key][..1];
    StartFailureEndsLoop(cs, ctx, [dep, key], 1);
  }

  /** On a fresh system, `start()` fails with "Unknown component: <dep>". */
  method StartWithMissing(key: string, dep: string) returns (r: Result<map<string, Value>, StartError>)
    requires key != dep
    ensures r == Failure(UnknownComponent(dep))
    ensures StartMessage(r.error) == "Unknown component: " + dep
  {
    UnknownDependencyReported(key, dep, map[]);
    var system := new System(Missing(key, dep));
    r := system.Start();
  }

  /** The missing dependency of the test suite: `start()` fails with "Unknown component: missing". */
  method TestMissingDependency() returns (r: Result<map<string, Value>, StartError>)
    ensures r.Failure? && StartMessage(r.error) == "Unknown component: missing"
  {
    var key, dep := "comp", "missing";
    r := StartWithMissing(key, dep);
  }

  /** Two components whose starts depend on each other. */
  function CyclicPair(a: string, b: string): Registry {
    [(a, Component(Some(Plain([b])), None)), (b, Component(Some(Plain([a])), None))]
  }

  /** `start()` reports the cycle before calling either start operation. */
  lemma CyclicPairStartsNothing(a: string, b: string, ctx: map<string, Value>)
    requires a != b
    ensures var run := StartSpec(CyclicPair(a, b), ctx);
      && run.error.Some? && run.error.value.Cyclic?
      && run.calls == [] && run.ctx == ctx
      && CyclePrefix <= StartMessage(run.error.value)
  {
    var cs := CyclicPair(a, b);
    assert cs[1..][1..] == [];
    assert Keys(cs) == [a, b];
    assert DistinctKeys(cs);
    assert cs[1..][0] == cs[1];
    assert Lookup(cs, a) == Some(cs[0].1) && Lookup(cs, b) == Some(cs[1].1);
    assert Params(cs, a) == [b] && Params(cs, b) == [a];
    assert IsDependencyCycle(cs, [a, b, a]);
    CycleStartsNothing(cs, ctx);
  }

  /** On a fresh system of two components that depend on each other, `start()` reports the cycle. */
  method StartCyclicPair(a: string, b: string) returns (r: Result<map<string, Value>, StartError>)
    requires a != b
    ensures r.Failure? && r.error.Cyclic? && CyclePrefix <= StartMessage(r.error)
  {
    CyclicPairStartsNothing(a, b, map[]);
    var system := new System(CyclicPair(a, b));
    r := system.Start();
  }

  /** The cycle of the test suite: `start()` on A and B fails with a message starting "Cyclic dependency found". */
  method TestCycle() returns (r: Result<map<string, Value>, StartError>)
    ensures r.Failure? && "Cyclic dependency found" <= StartMessage(r.error)
  {
    var a, b := "A", "B";
    r := StartCyclicPair(a, b);
  }

  /** b's start returns 2; a's start depends on b and returns the list of b's value and 1. */
  function Propagating(a: string, b: string): Registry {
    [ (a, Component(Some(Start([b], (args: seq<Value>) => Returned(List(args + [Num(1)])))), None)),
      (b, Component(Some(Start([], (args: seq<Value>) => Returned(Num(2)))), None)) ]
  }

  lemma PartitionPropagating(a: string, b: string)
    ensures Partition(Propagating(a, b)) == (SingleEdge(a, b), [b])
  {
    var cs := Propagating(a, b);
    var x1, x2 := cs[0], cs[1];
    assert cs == [x1] + ([x2] + []);
    PartitionCons(x2, []);
    PartitionCons(x1, [x2] + []);
    assert Signature(x1.1) == [b] && Signature(x2.1) == [];
    assert [b] + [] == [b] && [(a, [b])] + [] == SingleEdge(a, b);
  }

  lemma PropagatingSequence(a: string, b: string)
    requires a != b
    ensures StartSequence(Propagating(a, b)) == Success([b, a])
  {
    PartitionPropagating(a, b);
    SortSingleEdge(a, b);
    ReversePair(a, b);
    assert [b, a] + [b] == [b, a, b];
    DedupOfDistinct([b, a]);
    DedupSnoc([b, a], b);
    SequencesAre(Propagating(a, b), SingleEdge(a, b), [b], [a, b], [b, a]);
  }

  lemma PropagatingLookups(a: string, b: string)
    requires a != b
    ensures var cs := Propagating(a, b);
      && Lookup(cs, a).Some? && Lookup(cs, a).value.start.Some?
      && Lookup(cs, a).value.start.value.params == [b]
      && Lookup(cs, a).value.start.value.run([Num(2)]) == Returned(List([Num(2), Num(1)]))
      && Lookup(cs, b).Some? && Lookup(cs, b).value.start.Some?
      && Lookup(cs, b).value.start.value.params == []
      && Lookup(cs, b).value.start.value.run([]) == Returned(Num(2))
  {
    var cs := Propagating(a, b);
    assert cs[1..][0] == cs[1];
    assert Lookup(cs, a) == Some(cs[0].1) && Lookup(cs, b) == Some(cs[1].1);
    assert [Num(2)] + [Num(1)] == [Num(2), Num(1)];
  }

  /** The start loop over b, then a, which receives b's value 2. */
  lemma PropagatesInOrder(cs: Registry, a: string, b: string)
    requires a != b
    requires Lookup(cs, a).Some? && Lookup(cs, a).value.start.Some?
    requires Lookup(cs, a).value.start.value.params == [b]
    requires Lookup(cs, a).value.start.value.run([Num(2)]) == Returned(List([Num(2), Num(1)]))
    requires Lookup(cs, b).Some? && Lookup(cs, b).value.start.Some?
    requires Lookup(cs, b).value.start.value.params == []
    requires Lookup(cs, b).value.start.value.run([]) == Returned(Num(2))
    ensures StartFrom(cs, map[], [b, a]).ctx == map[b := Num(2), a := List([Num(2), Num(1)])]
    ensures StartFrom(cs, map[], [b, a]).error == None
  {
    var k1, k2 := [b], [b, a];
    assert k1 == [][..0] + [b] && k2 == k1 + [a];
    var r0 := StartRun(map[], [], None);
    assert Args(r0.ctx, []) == [];
    ReturnedStep(cs, r0, b, [], Num(2));
    var r1 := StartRun(map[b := Num(2)], [StartCall(b, [])], None);
    assert StartFrom(cs, map[], k1) == r1 by {
      assert k1[..0] == [];
    }
    assert Args(r1.ctx, [b]) == [Num(2)];
    ReturnedStep(cs, r1, a, [b], List([Num(2), Num(1)]));
    assert k2[..1] == k1;
  }

  /** a's context entry is computed from the value b's start returned. */
  lemma PropagatingRun(a: string, b: string)
    requires a != b
    ensures StartSpec(Propagating(a, b), map[]).ctx == map[b := Num(2), a := List([Num(2), Num(1)])]
    ensures StartSpec(Propagating(a, b), map[]).error == None
  {
    PropagatingSequence(a, b);
    PropagatingLookups(a, b);
    PropagatesInOrder(Propagating(a, b), a, b);
  }

  /** On a fresh system, `start()` yields a context where a holds the list computed from b's value. */
  method StartPropagating(a: string, b: string) returns (r: Result<map<string, Value>, StartError>)
    requires a != b
    ensures r == Success(map[b := Num(2), a := List([Num(2), Num(1)])])
  {
    PropagatingRun(a, b);
    var system := new System(Propagating(a, b));
    r := system.Start();
  }

  /** `one` depends on `two`, whose start returns 2: the context holds 2 for `two` and `[2, 1]` for `one`. */
  method TestContextPropagation() returns (r: Result<map<string, Value>, StartError>)
    ensures r == Success(map["two" := Num(2), "one" := List([Num(2), Num(1)])])
  {
    var one, two := "one", "two";
    r := StartPropagating(one, two);
  }

  // ---------------------------------------------------------------------------
  // A chain whose middle stop fails

  /** a, then b depending on a, then c depending on b; b's stop throws `message`. */
  function Chain(a: string, b: string, c: string, message: string): Registry {
    [ (a, Component(Some(Plain([])), Some(Completed))),
      (b, Component(Some(Plain([a])), Some(Failed(message)))),
      (c, Component(Some(Plain([b])), Some(Completed))) ]
  }

  /** The sorter's graph of `Chain`. */
  function ChainEdges(a: string, b: string, c: string): Edges {
    [(b, [a]), (c, [b])]
  }

  lemma ChainGraph(a: string, b: string, c: string)
    requires a != b && b != c && a != c
    ensures var g := ChainEdges(a, b, c);
      && Names(g) == [b, c] && Deps(g, a) == [] && Deps(g, b) == [a] && Deps(g, c) == [b]
      && a in Universe(g) && b in Universe(g) && c in Universe(g)
      && IsChain(g, [b]) && IsChain(g, [c]) && IsChain(g, [b, a]) && Emitted(g, [])
  {
    var g := ChainEdges(a, b, c);
    var h := g[1..];
    assert h == [(c, [b])] && h[1..] == [];
    assert Names(h[1..]) == [] && Deps(h[1..], a) == [];
    assert Names(h) == [c] && Deps(h, a) == [] && Deps(h, c) == [b];
    assert Names(g) == [b] + Names(h) && Deps(g, a) == Deps(h, a) && Deps(g, c) == Deps(h, c);
    assert Names(g) == [b, c];
    assert a in Deps(g, b) && b in Deps(g, c);
  }

  /** Visiting a, the dependency of b, emits it. */
  lemma VisitChainFirst(a: string, b: string, c: string)
    requires a != b && b != c && a != c
    ensures CanVisit(ChainEdges(a, b, c), a, [b], []) && Visit(ChainEdges(a, b, c), a, [b], []) == Success([a])
  {
    ChainGraph(a, b, c);
    assert [b] + [a] == [b, a] && [] + [a] == [a];
    VisitLeaf(ChainEdges(a, b, c), a, [b], []);
  }

  /** Visiting b visits its dependency a first. */
  lemma VisitChainMiddle(a: string, b: string, c: string)
    requires a != b && b != c && a != c
    ensures CanVisit(ChainEdges(a, b, c), b, [], []) && Visit(ChainEdges(a, b, c), b, [], []) == Success([a, b])
  {
    var g := ChainEdges(a, b, c);
    ChainGraph(a, b, c);
    DepsInUniverse(g, b);
    VisitChainFirst(a, b, c);
    assert [a] == [a] + [];
    VisitDepsVisits(g, a, [], [b], [], [a]);
    assert VisitDeps(g, [], [b], [a]) == Success([a]);
    assert [] + [b] == [b] && [a] + [b] == [a, b];
    VisitAfterDeps(g, b, [], [], [a]);
  }

  /** Visiting c after a and b finds its dependency b already emitted. */
  lemma VisitChainLast(a: string, b: string, c: string)
    requires a != b && b != c && a != c
    ensures Emitted(ChainEdges(a, b, c), [a, b])
    ensures CanVisit(ChainEdges(a, b, c), c, [], [a, b])
      && Visit(ChainEdges(a, b, c), c, [], [a, b]) == Success([a, b, c])
  {
    var g := ChainEdges(a, b, c);
    ChainGraph(a, b, c);
    VisitChainMiddle(a, b, c);
    DepsInUniverse(g, c);
    VisitChainLastDeps(a, b, c);
    assert [] + [c] == [c] && [a, b] + [c] == [a, b, c];
    VisitAfterDeps(g, c, [], [a, b], [a, b]);
  }

  /** The dependency b of c is already emitted when c is visited after a and b. */
  lemma VisitChainLastDeps(a: string, b: string, c: string)
    requires a != b && b != c && a != c
    requires Emitted(ChainEdges(a, b, c), [a, b])
    ensures CanVisitDeps(ChainEdges(a, b, c), [b], [c], [a, b])
      && VisitDeps(ChainEdges(a, b, c), [b], [c], [a, b]) == Success([a, b])
  {
    var g := ChainEdges(a, b, c);
    ChainGraph(a, b, c);
    DepsInUniverse(g, c);
    assert [b] == [b] + [];
    VisitDepsSkips(g, b, [], [c], [a, b]);
    assert VisitDeps(g, [], [c], [a, b]) == Success([a, b]);
  }

  /** The sorter lists c, b, a: dependents first. */
  lemma ChainSort(a: string, b: string, c: string)
    requires a != b && b != c && a != c
    ensures Sort(ChainEdges(a, b, c)) == Success([c, b, a])
  {
    var g := ChainEdges(a, b, c);
    ChainGraph(a, b, c);
    VisitChainMiddle(a, b, c);
    VisitChainLast(a, b, c);
    assert [b] + [c] == [b, c] && [c] + [] == [c];
    SortFromVisits(g, b, [c], [], [a, b]);
    SortFromVisits(g, c, [], [a, b], [a, b, c]);
    assert SortFrom(g, [], [a, b, c]) == Success([a, b, c]);
    SortIs(g, [a, b, c]);
    ReverseTriple(a, b, c);
  }

  lemma PartitionChain(a: string, b: string, c: string, message: string)
    ensures Partition(Chain(a, b, c, message)) == (ChainEdges(a, b, c), [a])
  {
    var cs := Chain(a, b, c, message);
    var x1, x2, x3 := cs[0], cs[1], cs[2];
    assert cs == [x1] + ([x2] + ([x3] + []));
    PartitionCons(x3, []);
    PartitionCons(x2, [x3] + []);
    PartitionCons(x1, [x2] + ([x3] + []));
    assert Signature(x1.1) == [] && Signature(x2.1) == [a] && Signature(x3.1) == [b];
    assert [(c, [b])] + [] == [(c, [b])] && [(b, [a])] + [(c, [b])] == ChainEdges(a, b, c) && [a] + [] == [a];
  }

  lemma ChainSequences(a: string, b: string, c: string, message: string)
    requires a != b && b != c && a != c
    ensures StartSequence(Chain(a, b, c, message)) == Success([a, b, c])
    ensures StopSequence(Chain(a, b, c, message)) == Success([c, b, a])
  {
    PartitionChain(a, b, c, message);
    ChainSort(a, b, c);
    ReverseTriple(c, b, a);
    assert [a, b, c] + [a] == [a, b, c, a];
    DedupOfDistinct([a, b, c]);
    DedupSnoc([a, b, c], a);
    SequencesAre(Chain(a, b, c, message), ChainEdges(a, b, c), [a], [c, b, a], [a, b, c]);
    ReverseTriple(a, b, c);
  }

  lemma ChainLookups(a: string, b: string, c: string, message: string)
    requires a != b && b != c && a != c
    ensures var cs := Chain(a, b, c, message);
      Lookup(cs, a) == Some(cs[0].1) && Lookup(cs, b) == Some(cs[1].1) && Lookup(cs, c) == Some(cs[2].1)
  {
    var cs := Chain(a, b, c, message);
    assert cs[1..][0] == cs[1] && cs[1..][1..] == cs[2..] && cs[2..][0] == cs[2];
    assert Lookup(cs[2..], c) == Some(cs[2].1);
    assert Lookup(cs[1..], c) == Some(cs[2].1);
  }

  /** The start loop over a, b, c, each receiving the value of the one before. */
  lemma ChainStartsInOrder(cs: Registry, a: string, b: string, c: string, message: string)
    requires Lookup(cs, a) == Some(Component(Some(Plain([])), Some(Completed)))
    requires Lookup(cs, b) == Some(Component(Some(Plain([a])), Some(Failed(message))))
    requires Lookup(cs, c) == Some(Component(Some(Plain([b])), Some(Completed)))
    ensures StartFrom(cs, map[], [a, b, c])
      == StartRun(map[a := Undefined, b := Undefined, c := Undefined],
                  [StartCall(a, []), StartCall(b, [Undefined]), StartCall(c, [Undefined])], None)
  {
    var k1, k2, k3 := [a], [a, b], [a, b, c];
    assert k1 == [] + [a] && k2 == k1 + [b] && k3 == k2 + [c];
    StartsLeaf(cs, map[], [], a);
    var r1 := StartFrom(cs, map[], k1);
    assert r1 == StartRun(map[a := Undefined], [StartCall(a, [])], None);
    StartsAfter(cs, map[], k1, b, a);
    var r2 := StartFrom(cs, map[], k2);
    assert r2 == StartRun(map[a := Undefined, b := Undefined], [StartCall(a, []), StartCall(b, [Undefined])], None);
    assert b in r2.ctx && r2.ctx[b] == Undefined;
    StartsAfter(cs, map[], k2, c, b);
    var r3 := StartFrom(cs, map[], k3);
    assert r3 == StartRun(r2.ctx[c := Undefined], r2.calls + [StartCall(c, [Undefined])], None);
  }

  /** The stop loop over c, b, a: c stops, b's stop fails, a is never reached. */
  lemma ChainStopsInOrder(cs: Registry, a: string, b: string, c: string, message: string)
    requires Lookup(cs, b) == Some(Component(Some(Plain([a])), Some(Failed(message))))
    requires Lookup(cs, c) == Some(Component(Some(Plain([b])), Some(Completed)))
    ensures StopFrom(cs, [c, b, a]) == StopRun([StopCall(c), StopCall(b)], Some(StopFailed(b, message)))
  {
    var keys := [c, b, a];
    var k1, k2 := [c], [c, b];
    assert k1 == [] + [c] && k2 == k1 + [b] && keys[..2] == k2;
    StopsOne(cs, [], c, Plain([b]));
    assert StopFrom(cs, k1) == StopRun([StopCall(c)], None);
    StopsFailing(cs, k1, b, Plain([a]), message);
    StopFailureEndsLoop(cs, keys, 2);
  }

  /** `start()` starts a, b and c, in that order. */
  lemma ChainStarts(a: string, b: string, c: string, message: string)
    requires a != b && b != c && a != c
    ensures StartSpec(Chain(a, b, c, message), map[])
      == StartRun(map[a := Undefined, b := Undefined, c := Undefined],
                  [StartCall(a, []), StartCall(b, [Undefined]), StartCall(c, [Undefined])], None)
  {
    ChainSequences(a, b, c, message);
    ChainLookups(a, b, c, message);
    ChainStartsInOrder(Chain(a, b, c, message), a, b, c, message);
  }

  /** `stop()` stops c, then b, which fails, and never calls a's stop. */
  lemma ChainStops(a: string, b: string, c: string, message: string)
    requires a != b && b != c && a != c
    ensures StopSpec(Chain(a, b, c, message)) == StopRun([StopCall(c), StopCall(b)], Some(StopFailed(b, message)))
  {
    ChainSequences(a, b, c, message);
    ChainLookups(a, b, c, message);
    ChainStopsInOrder(Chain(a, b, c, message), a, b, c, message);
  }

  /** After a successful `start()`, `stop()` fails at b with "<b>: <message>". */
  method ChainStartThenStop(a: string, b: string, c: string, message: string)
    returns (started: Result<map<string, Value>, StartError>, stopped: Outcome<StopError>)
    requires a != b && b != c && a != c
    ensures started == Success(map[a := Undefined, b := Undefined, c := Undefined])
    ensures stopped == Fail(StopFailed(b, message))
    ensures StopMessage(stopped.error) == b + ": " + message
  {
    ChainStarts(a, b, c, message);
    ChainStops(a, b, c, message);
    var system;
    system, started, stopped := StartThenStop(Chain(a, b, c, message));
  }

  /** The chain 1, 2, 3 whose middle stop throws: `stop()` fails with "2: Test Error". */
  method TestStopShortCircuit() returns (stopped: Outcome<StopError>)
    ensures stopped.Fail? && StopMessage(stopped.error) == "2: Test Error"
  {
    var one, two, three, message := "1", "2", "3", "Test Error";
    var started;
    started, stopped := ChainStartThenStop(one, two, three, message);
  }

  // ---------------------------------------------------------------------------
  // An unknown name met after other components started

  /** x has no dependencies; comp depends on x and on `missing`, which is not a component. */
  function LateUnknown(x: string, comp: string, missing: string): Registry {
    [(x, Component(Some(Plain([])), None)), (comp, Component(Some(Plain([x, missing])), None))]
  }

  /** The sorter's graph of `LateUnknown`. */
  function LateUnknownEdges(x: string, comp: string, missing: string): Edges {
    [(comp, [x, missing])]
  }

  lemma LateUnknownGraph(x: string, comp: string, missing: string)
    requires x != comp && comp != missing && x != missing
    ensures var g := LateUnknownEdges(x, comp, missing);
      && Names(g) == [comp] && Deps(g, comp) == [x, missing] && Deps(g, x) == [] && Deps(g, missing) == []
      && x in Universe(g) && comp in Universe(g) && missing in Universe(g)
      && IsChain(g, [comp]) && IsChain(g, [comp, x]) && IsChain(g, [comp, missing]) && Emitted(g, [])
  {
    var g := LateUnknownEdges(x, comp, missing);
    assert g[1..] == [];
    assert x in Deps(g, comp) && missing in Deps(g, comp);
  }

  /** Visiting x, the first dependency of comp, emits it. */
  lemma VisitLateUnknownFirst(x: string, comp: string, missing: string)
    requires x != comp && comp != missing && x != missing
    ensures CanVisit(LateUnknownEdges(x, comp, missing), x, [comp], [])
      && Visit(LateUnknownEdges(x, comp, missing), x, [comp], []) == Success([x])
      && Emitted(LateUnknownEdges(x, comp, missing), [x])
  {
    LateUnknownGraph(x, comp, missing);
    assert [comp] + [x] == [comp, x] && [] + [x] == [x];
    VisitLeaf(LateUnknownEdges(x, comp, missing), x, [comp], []);
  }

  /** Visiting `missing`, the second dependency of comp, emits it after x. */
  lemma VisitLateUnknownSecond(x: string, comp: string, missing: string)
    requires x != comp && comp != missing && x != missing
    ensures CanVisit(LateUnknownEdges(x, comp, missing), missing, [comp], [x])
      && Visit(LateUnknownEdges(x, comp, missing), missing, [comp], [x]) == Success([x, missing])
  {
    LateUnknownGraph(x, comp, missing);
    VisitLateUnknownFirst(x, comp, missing);
    assert [comp] + [missing] == [comp, missing] && [x] + [missing] == [x, missing];
    VisitLeaf(LateUnknownEdges(x, comp, missing), missing, [comp], [x]);
  }

  /** The dependencies of comp are visited in order: x, then `missing`. */
  lemma VisitLateUnknownDeps(x: string, comp: string, missing: string)
    requires x != comp && comp != missing && x != missing
    ensures CanVisitDeps(LateUnknownEdges(x, comp, missing), [x, missing], [comp], [])
      && VisitDeps(LateUnknownEdges(x, comp, missing), [x, missing], [comp], []) == Success([x, missing])
  {
    var g := LateUnknownEdges(x, comp, missing);
    LateUnknownGraph(x, comp, missing);
    DepsInUniverse(g, comp);
    VisitLateUnknownFirst(x, comp, missing);
    VisitLateUnknownSecond(x, comp, missing);
    assert [x, missing] == [x] + [missing] && [missing] == [missing] + [];
    VisitDepsVisits(g, x, [missing], [comp], [], [x]);
    VisitDepsVisits(g, missing, [], [comp], [x], [x, missing]);
    assert VisitDeps(g, [], [comp], [x, missing]) == Success([x, missing]);
  }

  /** Visiting comp visits x, then `missing`, then emits comp. */
  lemma VisitLateUnknown(x: string, comp: string, missing: string)
    requires x != comp && comp != missing && x != missing
    ensures CanVisit(LateUnknownEdges(x, comp, missing), comp, [], [])
      && Visit(LateUnknownEdges(x, comp, missing), comp, [], []) == Success([x, missing, comp])
  {
    var g := LateUnknownEdges(x, comp, missing);
    LateUnknownGraph(x, comp, missing);
    DepsInUniverse(g, comp);
    VisitLateUnknownDeps(x, comp, missing);
    assert [] + [comp] == [comp] && [x, missing] + [comp] == [x, missing, comp];
    VisitAfterDeps(g, comp, [], [], [x, missing]);
  }

  lemma LateUnknownSort(x: string, comp: string, missing: string)
    requires x != comp && comp != missing && x != missing
    ensures Sort(LateUnknownEdges(x, comp, missing)) == Success([comp, missing, x])
  {
    var g := LateUnknownEdges(x, comp, missing);
    LateUnknownGraph(x, comp, missing);
    VisitLateUnknown(x, comp, missing);
    assert [comp] + [] == [comp];
    SortFromVisits(g, comp, [], [], [x, missing, comp]);
    SortIs(g, [x, missing, comp]);
    ReverseTriple(x, missing, comp);
  }

  lemma PartitionLateUnknown(x: string, comp: string, missing: string)
    ensures Partition(LateUnknown(x, comp, missing)) == (LateUnknownEdges(x, comp, missing), [x])
  {
    var cs := LateUnknown(x, comp, missing);
    var x1, x2 := cs[0], cs[1];
    assert cs == [x1] + ([x2] + []);
    PartitionCons(x2, []);
    PartitionCons(x1, [x2] + []);
    assert Signature(x1.1) == [] && Signature(x2.1) == [x, missing];
    assert [x] + [] == [x] && [(comp, [x, missing])] + [] == LateUnknownEdges(x, comp, missing);
  }

  lemma LateUnknownSequence(x: string, comp: string, missing: string)
    requires x != comp && comp != missing && x != missing
    ensures StartSequence(LateUnknown(x, comp, missing)) == Success([x, missing, comp])
  {
    PartitionLateUnknown(x, comp, missing);
    LateUnknownSort(x, comp, missing);
    ReverseTriple(comp, missing, x);
    assert [x, missing, comp] + [x] == [x, missing, comp, x];
    DedupOfDistinct([x, missing, comp]);
    DedupSnoc([x, missing, comp], x);
    SequencesAre(LateUnknown(x, comp, missing), LateUnknownEdges(x, comp, missing), [x], [comp, missing, x], [x, missing, comp]);
  }

  /** The start loop over x, `missing`, comp: x starts, then the loop fails at `missing`. */
  lemma LateUnknownLoop(cs: Registry, x: string, comp: string, missing: string)
    requires Lookup(cs, x) == Some(Component(Some(Plain([])), None)) && Lookup(cs, missing) == None
    ensures StartFrom(cs, map[], [x, missing, comp])
      == StartRun(map[x := Undefined], [StartCall(x, [])], Some(UnknownComponent(missing)))
  {
    var keys := [x, missing, comp];
    var k1, k2 := [x], [x, missing];
    assert k1 == [] + [x] && k2 == k1 + [missing] && keys[..2] == k2;
    PlainStep(cs, StartRun(map[], [], None), x, []);
    assert Args(map[], []) == [];
    assert k1[..0] == [];
    assert StartFrom(cs, map[], k1) == StartRun(map[x := Undefined], [StartCall(x, [])], None);
    StartsUnknown(cs, map[], k1, missing);
    StartFailureEndsLoop(cs, map[], keys, 2);
  }

  /**
   * `start()` calls x's start and only then fails with "Unknown component:
   * <missing>": unknown names are found when the loop reaches them, not
   * before the first component starts. That x comes first is this sorter's
   * choice between the unrelated x and `missing`; an order with `missing`
   * first would fail before any start.
   */
  lemma LateUnknownStartsFirst(x: string, comp: string, missing: string)
    requires x != comp && comp != missing && x != missing
    ensures StartSpec(LateUnknown(x, comp, missing), map[])
      == StartRun(map[x := Undefined], [StartCall(x, [])], Some(UnknownComponent(missing)))
  {
    var cs := LateUnknown(x, comp, missing);
    LateUnknownSequence(x, comp, missing);
    assert cs[1..][0] == cs[1] && cs[1..][1..] == [];
    assert Lookup(cs, x) == Some(cs[0].1) && Lookup(cs, missing) == None;
    LateUnknownLoop(cs, x, comp, missing);
  }
}
