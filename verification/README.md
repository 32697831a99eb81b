# magician: a verified model of the lifecycle core

`magician` starts and stops a system of components. Each component is an
object that may have a `start` and a `stop` operation. The names of the
parameters of `start` are the names of the components it depends on.
`system(components)` returns an object with two operations:

- `start()` computes a start order. Dependencies come first, then the
  components without dependencies, and each name appears once. It then
  calls each component's `start` in that order. The arguments are the
  values that the named dependencies' starts returned. Each result is
  stored in a shared context under the component's name, and `start()`
  returns that context.
- `stop()` walks the reverse order and calls each component's `stop`.

Both operations stop at the first failure. A synchronous throw from a
component is re-thrown with its message prefixed by `"<id>: "`. A cycle
fails before anything runs, with a message starting `Cyclic dependency
found`. A name in the order that is not a component fails with `Unknown
component: <name>`.

The model has these modules:

- `Seqs` — sequence helpers: `Reverse` (Array.prototype.reverse),
  first-occurrence de-duplication `Dedup` (`[...new Set(…)]`) and `IndexOf`.
- `Toposort` — the dependency sorter as a depth-first search over the
  registered edges. Nodes are visited in registration order, and
  dependencies in declared order. It yields dependents first, or fails
  with a dependency cycle.
- `Components` — component values. A start operation is its parameter
  names plus its behaviour on given arguments: it returns a value, throws
  synchronously, or returns a rejected promise. A stop operation completes
  or throws. The registry is the component map in `Object.entries` order.
- `Sequence` — `startSequence` (`Partition`, `Sort`, `Reverse`, `Dedup`)
  and `stopSequence`, with the ordering theorems.
- `Lifecycle` — the executor. `StartFrom`/`StopFrom` specify the two
  loops. The class `System` holds the component map and the mutable
  context `ctx`. Its `Start`/`Stop` loops are proved against those
  specifications. A ghost `trace` records every start and stop call a
  component observes.
- `StartProperties`, `StopProperties` — what the loops guarantee: order,
  coverage, the context, error precedence and short-circuiting.
- `SortSteps`, `Scenarios` — one-step facts about the sorter. They are
  used to evaluate the component maps of the repository's tests, whose
  expected orders, contexts and messages are proved.

## Model

| member | source | states |
|---|---|---|
| Seqs.Reverse | index.js:19 | the reversed list has the same length and holds at position k the element at position length-1-k |
| Seqs.ReverseDistinct | index.js:19 | reversing keeps a list duplicate-free and keeps its elements |
| Seqs.ReverseReverse | index.js:19 | reversing twice gives back the original list |
| Seqs.Dedup | index.js:16 | `[...new Set(xs)]` lists every element of xs and each exactly once |
| Seqs.DedupOrder | index.js:16 | `[...new Set(xs)]` keeps each element at its first occurrence: any two elements of the result come in the order in which they first occur in xs |
| Seqs.AppendOrderStep | index.js:16 | appending an element not yet seen, or skipping one already seen, keeps the result in first-occurrence order |
| Seqs.IndexOfLast | index.js:16 | an element that occurs only at the end of a list is first found at its last position |
| Seqs.Unseen | index.js:16 | the elements of one list that do not occur in another are exactly the difference of their element sets |
| Seqs.DedupAppend | index.js:16 | de-duplicating the concatenation of two duplicate-free lists keeps the first unchanged and appends the unseen elements of the second, in their order |
| Seqs.DedupOfDistinct | index.js:16 | de-duplicating a duplicate-free list changes nothing |
| Seqs.DedupKeepsDistinctPrefix | index.js:16 | first occurrences win: a duplicate-free prefix stays unchanged at the front |
| Toposort.Visit | index.js:16 | a successful visit extends the emitted list with well-formed output containing the node and nothing on the current path; a failure is a real dependency cycle |
| Toposort.VisitDeps | index.js:16 | visiting a dependency list emits all of them, or fails with a real cycle |
| Toposort.SortFrom | index.js:16 | the outer loop emits every registered name, keeping the emitted list closed under dependencies, or fails with a real cycle |
| Toposort.Sort | index.js:6-16 | a successful sort lists every node once, each before its dependencies; a failure is a cycle |
| Toposort.PostOrderCovers | index.js:16 | an emitted list that holds every registered name holds every node of the graph |
| Toposort.ReverseOfClosed | index.js:16 | reversing a dependencies-first list gives a dependents-first one |
| Toposort.ReverseOfDependentsFirst | index.js:16 | reversing a dependents-first list gives a dependencies-first one |
| Toposort.ChainMovesRight | index.js:16 | in a dependents-first order, every dependency chain moves strictly right |
| Toposort.OrderRulesOutCycle | index.js:16 | a graph with a complete dependents-first order has no cycle |
| Toposort.SortFailsIffCycle | index.js:16 | the sort fails exactly when the graph has a dependency cycle |
| Components.Keys | index.js:8 | the keys of the map, one per entry, in entry order |
| Components.Lookup | index.js:50 | `components[key]` is defined exactly when key is a key of the map, and then it is a component registered under key |
| Components.LookupFinds | index.js:50 | with unique keys, `components[key]` is exactly the component registered under key |
| Sequence.Partition | index.js:8-15 | every component lands on exactly one side, and only a component whose start declares parameters is registered with the sorter |
| Sequence.StartSequence | index.js:5-17 | a computed start order has no duplicates (`StartSequenceOrder` and `StartSequenceLayout` characterise it) |
| Sequence.StopSequence | index.js:19 | the stop order exists exactly when the start order does, fails with the same cycle, and is the start order reversed |
| Sequence.PartitionDeps | index.js:8-15 | the sorter sees, for every name, exactly the dependencies that component declares |
| Sequence.PartitionNames | index.js:8-15 | every key is either registered with the sorter or listed as having no dependencies |
| Sequence.UniverseOfPartition | index.js:8-16 | the sorter's nodes plus the dependency-free keys are exactly the keys plus every declared dependency |
| Sequence.NoDepsDistinct | index.js:7-15 | the list of components without dependencies names each at most once, since the keys are distinct |
| Sequence.StartSequenceLayout | index.js:13-16 | the start order succeeds exactly when the sort does; it is then the sorted nodes reversed, followed by the components without dependencies that the sorted part does not already hold, in map order (so an independent component such as the test suite's `three` comes last) |
| Sequence.StartSequenceOrder | index.js:5-17 | the start order lists every key and every declared dependency exactly once, every dependency before its dependents |
| Sequence.DependenciesFirstSurviveDedup | index.js:16 | appending the dependency-free names and de-duplicating keeps dependencies first |
| Sequence.DependencyInPrefix | index.js:16 | a name with dependencies lies in the sorted prefix of the de-duplicated list, after all its dependencies |
| Sequence.StartSequenceFailsIffCycle | index.js:16 | the start order fails exactly when the declared dependencies contain a cycle, and the failure is such a cycle |
| Sequence.StopSequenceDependentsFirst | index.js:19 | the stop order lists every name once, each component before everything it depends on |
| Sequence.ReversedDepsBefore | index.js:19 | reversing a dependencies-first order gives a dependents-first one |
| Lifecycle.CycleMessage | test/index.test.js:279 | the sorter's cycle message starts with "Cyclic dependency found" |
| Lifecycle.StartMessage | index.js:28-30 | a synchronous throw's message follows the "<id>: " prefix and an unknown name follows "Unknown component: " (index.js:53), each recoverable from the text; a rejection's message is passed on unchanged; a cycle's starts with "Cyclic dependency found" |
| Lifecycle.StopMessage | index.js:38-40 | a failed stop's message follows the "<id>: " prefix and is recoverable from the text; a cycle's starts with "Cyclic dependency found" |
| Lifecycle.Args | index.js:22-24 | one argument per declared parameter, in order; that each argument is the context's value under that name, `undefined` when absent, is carried by `StartProperties.StartContext` and `StartProperties.ArgsIgnore` |
| Lifecycle.StartStep | index.js:50-57 | one iteration makes no call or exactly one, to this key's start with the context values of its parameters, and never reports a cycle (exact shape: `StartStepShape`) |
| Lifecycle.StartFrom | index.js:49-58 | the loop makes at most one call per step, so no more calls than names, and never reports a cycle |
| Lifecycle.StartSpec | index.js:47-60 | `start()` reports a cycle exactly when no order can be computed, and then calls nothing and leaves the context unchanged |
| Lifecycle.StopStep | index.js:65-68 | one stop iteration makes no call or exactly one, to this key's stop, and never reports a cycle (exact shape: `StopStepShape`) |
| Lifecycle.StopFrom | index.js:64-69 | the stop loop makes at most one call per step, so no more calls than names, and never reports a cycle |
| Lifecycle.StopSpec | index.js:62-70 | `stop()` reports a cycle exactly when no order can be computed, and then calls nothing |
| Lifecycle.StartStepShape | index.js:49-57 | one iteration calls start with the context values of its declared names exactly when the component has a start, and on success stores the returned value under its key and changes nothing else in the context |
| Lifecycle.StopStepShape | index.js:64-68 | one stop iteration calls the stop operation exactly when the component has one |
| Lifecycle.System.constructor | index.js:44-45 | a new system holds the map, an empty context and no calls yet |
| Lifecycle.System.Start | index.js:47-60 | `start()` leaves the context and the calls as the order-then-loop specification says, and returns the context or the first error |
| Lifecycle.System.StartAll | index.js:49-59 | the loop over the order updates the context and the calls as `StartFrom` specifies, and returns the context or the first error |
| Lifecycle.System.StartComponent | index.js:21-32 | calls start with the context values of its declared names (`undefined` when absent); a synchronous throw becomes "<id>: <message>", a rejection keeps its message |
| Lifecycle.System.Stop | index.js:62-70 | `stop()` makes the calls the reversed-order specification says, and reports the first error |
| Lifecycle.System.StopAll | index.js:64-69 | the stop loop makes the calls `StopFrom` specifies, aborting at an unknown name or the first failing stop |
| Lifecycle.System.StopComponent | index.js:34-42 | calls the stop operation once; a failure is reported as "<id>: <message>" |
| Lifecycle.StartErrorIsFinal | index.js:49-58 | after the first start failure, later names change neither the context nor the calls |
| Lifecycle.StopErrorIsFinal | index.js:64-69 | after the first stop failure, later names make no calls |
| Lifecycle.StartFailureEndsLoop | index.js:49-58 | a loop that failed over a prefix of the order has the same outcome over the whole order |
| Lifecycle.StopFailureEndsLoop | index.js:64-69 | a stop loop that failed over a prefix has the same outcome over the whole order |
| StartProperties.InOrderExtend | index.js:49 | a call for the next name keeps the call list in the order of the names |
| StartProperties.StartCallsInOrder | index.js:49-57 | over distinct names, start is called only for components that have one, at most once each, in the order of the names |
| StartProperties.StartContextFrame | index.js:55-57 | the loop changes the context only under names it started |
| StartProperties.StepFailure | index.js:52-56 | an iteration fails either at an unknown name without calling anything, or after calling start, with "<id>: <message>" for a throw and the bare message for a rejection |
| StartProperties.StartFailsAtSome | index.js:49-58 | a failed loop succeeded up to some name and failed exactly there |
| StartProperties.StartStopsAtFailure | index.js:49-58 | a failed loop failed at some name as `StepFailure` describes, and nothing after it was looked at |
| StartProperties.ArgsIgnore | index.js:22-24 | a start's arguments depend only on the context entries it names |
| StartProperties.StartedCallsIgnore | index.js:22-24 | the calls of a loop do not depend on context entries none of its components name |
| StartProperties.StartedWellStep | index.js:55-57 | each successful iteration keeps every started component's entry equal to what its start returned on its arguments |
| StartProperties.SuccessfulStart | index.js:49-59 | a successful loop over a dependencies-first order met only known names, stored each start's result under its key, and made exactly the expected calls |
| StartProperties.CycleStartsNothing | index.js:47-49 | `start()` reports a cycle exactly when the declared dependencies have one; it then calls nothing, leaves the context unchanged, and its message starts with "Cyclic dependency found" |
| StartProperties.StartContext | index.js:47-60 | after a successful `start()` every dependency is a key, every component with a start holds the value its start returned on its dependencies' values, the rest of the context is unchanged, and the calls are exactly the expected ones |
| StartProperties.StartOrder | index.js:48-57 | in `start()` each start runs at most once, and never before the start of a component it depends on |
| StartProperties.UnknownNameStopsLoop | index.js:52-54 | a loop that reaches an unknown name fails, having called only components before that name |
| StartProperties.UnknownDependencyNeverStarts | index.js:48-54 | when a component declares a dependency that is not a key, `start()` fails and never calls that component's start |
| StartProperties.StartFromStopsAtFailure | index.js:49-58 | a failed loop failed at one name as `FailedAt` describes and called nothing after it |
| StartProperties.StartFailureStopsLoop | index.js:47-60 | a `start()` failure other than a cycle happened at one name of the computed order, and nothing after that name was called |
| StopProperties.StopCallsInOrder | index.js:64-68 | stop is called only for components that have one, at most once each, in the order of the names |
| StopProperties.StopCoversAll | index.js:64-69 | a stop loop without failure met only known names and stopped every component with a stop, in order |
| StopProperties.StoppedCallsCover | index.js:64-68 | every name with a stop has its call among the expected stop calls |
| StopProperties.StopStepFailure | index.js:65-67 | a stop iteration fails at a name that is not a component, or with "<id>: <message>" after calling its stop |
| StopProperties.StopFailsAtSome | index.js:64-69 | a failed stop loop succeeded up to some name and failed exactly there |
| StopProperties.StopStopsAtFailure | index.js:64-69 | a failed stop loop failed at some name as `StopStepFailure` describes |
| StopProperties.StopFromStopsAtFailure | index.js:64-69 | a failed stop loop called nothing after the failing name |
| StopProperties.CycleStopsNothing | index.js:62-63 | `stop()` reports a cycle exactly when the dependencies have one, then calls nothing |
| StopProperties.StopOrder | index.js:62-69 | each stop runs at most once, and never before the stop of a component that depends on it |
| StopProperties.StopSuccess | index.js:62-70 | a successful `stop()` uses the start order reversed and stopped every component that has a stop |
| StopProperties.StopFailureStopsLoop | index.js:62-70 | a failed `stop()` failed at one name of the stop order and called nothing after it |
| Scenarios.ThreeSequences | test/index.test.js:87-110 | for `{ one(two), two, three }` the start order is two, one, three and the stop order is three, one, two |
| Scenarios.TestDependencyOrder | test/index.test.js:109 | the concrete orders `["two", "one", "three"]` and `["three", "one", "two"]` |
| Scenarios.ThreeStarts | test/index.test.js:87-110 | `start()` calls two, then one with two's value, then three |
| Scenarios.ThreeStops | test/index.test.js:207-237 | `stop()` calls three, one, two |
| Scenarios.TestStopsInDependencyOrder | test/index.test.js:236 | starting and then stopping the example calls exactly two, one, three, then three, one, two |
| Scenarios.StartThenStop | index.js:44-76 | `start()` then `stop()` on a new system make the two loops' calls, one after the other, and report their outcomes |
| Scenarios.SingleSequences | index.js:5-19 | a component without dependencies is the whole start and stop order of its own system |
| Scenarios.ThrowingStartIsPrefixed | test/index.test.js:167-182 | a throwing start is called once and `start()` fails with "<key>: <message>" |
| Scenarios.TestErrorOnStart | test/index.test.js:180 | the message is exactly "comp: Test Error" |
| Scenarios.RejectedStartIsNotPrefixed | index.js:26-31 | a rejected start's message reaches the caller without the component's name |
| Scenarios.BareIsSkipped | test/index.test.js:239-244 | a component with neither operation is neither started nor stopped and is absent from the context |
| Scenarios.FailingStopIsPrefixed | test/index.test.js:147-165 | `start()` succeeds and `stop()` fails with "<key>: <message>" after calling the stop once |
| Scenarios.TestErrorOnStop | test/index.test.js:163 | the stop message is exactly "comp: Test Error" |
| Scenarios.EmptySystem | index.js:44-70 | a system over the empty map starts with an empty context and stops without error |
| Scenarios.UnknownDependencyReported | test/index.test.js:283-297 | a missing dependency makes `start()` fail with "Unknown component: <dep>" before the dependent's start is called |
| Scenarios.TestMissingDependency | test/index.test.js:295 | the message is exactly "Unknown component: missing" |
| Scenarios.CyclicPairStartsNothing | test/index.test.js:261-281 | for A(B) and B(A), `start()` reports the cycle without calling either start |
| Scenarios.TestCycle | test/index.test.js:279 | the message starts with "Cyclic dependency found" |
| Scenarios.PropagatingRun | index.js:21-27 | a dependent's start receives the value its dependency's start returned, and the context holds both results |
| Scenarios.TestContextPropagation | index.js:55-59 | with `one` depending on `two`, whose start returns 2, `start()` returns a context holding 2 for `two` and `[2, 1]` for `one` |
| Scenarios.ChainStarts | index.js:47-60 | for the chain 1 ← 2 ← 3, `start()` starts 1, 2, 3 in order |
| Scenarios.ChainStops | index.js:62-70 | when 2's stop throws, `stop()` stops 3, then 2, fails there, and never calls 1's stop |
| Scenarios.TestStopShortCircuit | index.js:34-42 | the chain's stop message is exactly "2: Test Error" |
| Scenarios.LateUnknownStartsFirst | index.js:49-54 | an unknown dependency is reported only when the loop reaches it; on this sorter's order a component before it has already started |

## Left out

- Reading parameter names from a function's source (`fn-args`, index.js:9 and 23) is not modelled. A start operation carries its parameter names as data.
- The `toposort-class` library is not part of this model. `Toposort` is a depth-first sort that gives the same guarantees: every node once, dependents first, and failure exactly on a cycle.
- Toposort.Sort: the order it gives to nodes unrelated by dependencies is not claimed to match the library's tie-breaking. On the test suite's maps it gives the orders the tests expect.
- Lifecycle.CycleMessage: only the leading "Cyclic dependency found" of the library's message is stated. The rest of the text is the library's.
- Lifecycle.StopMessage: stopping a name that is not a component fails as in index.js:65-66 (reading `.stop` of `undefined`). The exact TypeError text is the JavaScript engine's, so the model uses a fixed string.
- The `debug` logging (index.js:1, 25, 35 and 51) is left out because it has no effect on behaviour.
- Promises and `await` are not modelled. The loops run one operation at a time, and each start or stop outcome is known when the operation is called.
- A stop operation's outcome is fixed per component. A stop whose behaviour depends on earlier calls is not modelled.
- A start operation's outcome is a fixed function of its arguments (`Start.run`). A start whose result depends on earlier calls is not modelled, for example when `start()` runs a second time on the same system, whose context carries over (index.js:45).
- `Object.entries` puts integer-like keys first. The model takes the map's entry order as given.
- Lookups through the object prototype (keys such as `constructor`) are not modelled. Only own keys are components.
- A component value that is present but falsy (`null`, `0`) is not modelled. A key either holds a component or is absent.
- `start()` returns the shared `ctx` object itself (index.js:59). In the model it returns the context as a map value, so aliasing through the returned reference is not modelled.
- A thrown value that is not an `Error` with a `message` is not modelled.
- `examples/basic.js` is not part of this model.

## Notes on the code's behaviour

- The code computes the order before checking names. When the dependencies contain both a cycle and an unknown name, `start()` reports the cycle (`CycleStartsNothing`).
- An unknown dependency name is not rejected before the first component starts. index.js:52-54 checks each name only when the loop reaches it, so components earlier in the order have already been started (`LateUnknownStartsFirst`). That example relies on this sorter placing the unrelated component before the missing name; an order with the missing name first would fail before any start. The general point does not depend on the order: index.js:52-54 checks a name only when the loop reaches it. In the repository's own test the missing name comes first, so nothing starts (`UnknownDependencyReported`). The model follows the code.
- A start operation's dependency that has no start of its own is absent from the context, so the start receives `undefined` for it (index.js:24, `Args`).
