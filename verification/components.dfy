/**
 * The component map handed to `system`: named components, each with an
 * optional start operation (with the names of its parameters, which are the
 * names of the components it depends on) and an optional stop operation.
 */
module Components {
  import opened Wrappers

  /** What a start operation can return; the context stores these untyped. */
  datatype Value = Undefined | Num(n: int) | Str(s: string) | List(items: seq<Value>)

  /**
   * How a call of a start operation ends: it returns a value, throws while
   * being called, or returns a promise that is later rejected.
   */
  datatype StartOutcome = Returned(value: Value) | Threw(message: string) | Rejected(message: string)

  /** A start operation: its parameter names, in declared order, and its behaviour on given arguments. */
  datatype Start = Start(params: seq<string>, run: seq<Value> -> StartOutcome)

  /** How a call of a stop operation ends (a throw and a rejection are treated alike). */
  datatype StopOutcome = Completed | Failed(message: string)

  datatype Component = Component(start: Option<Start>, stop: Option<StopOutcome>)

  /** The component map, in the order in which `Object.entries` lists it. */
  type Registry = seq<(string, Component)>

  /** Keys of a JavaScript object are unique. */
  predicate DistinctKeys(cs: Registry) {
    forall i, j :: 0 <= i < j < |cs| ==> cs[i].0 != cs[j].0
  }

  function Keys(cs: Registry): (ks: seq<string>)
    ensures |ks| == |cs| && forall i :: 0 <= i < |cs| ==> ks[i] == cs[i].0
  {
    if cs == [] then [] else [cs[0].0] + Keys(cs[1..])
  }

  /** `components[key]`: the component registered under key, if any. */
  function Lookup(cs: Registry, key: string): (r: Option<Component>)
    ensures r.Some? <==> key in Keys(cs)
    ensures r.Some? ==> (key, r.value) in cs
  {
    if cs == [] then None
    else if cs[0].0 == key then Some(cs[0].1)
    else
      var r := Lookup(cs[1..], key);
      assert r.Some? ==> (key, r.value) in cs[1..];
      r
  }

  /** With unique keys, `components[key]` is the component registered under key. */
  lemma LookupFinds(cs: Registry, i: int)
    requires DistinctKeys(cs) && 0 <= i < |cs|
    ensures Lookup(cs, cs[i].0) == Some(cs[i].1)
  {
  }


  /** The dependency names a component declares: its start operation's parameters. */
  function Signature(c: Component): seq<string> {
    if c.start.Some? then c.start.value.params else []
  }

  /** The dependency names declared by the component registered under key (none for an unknown key). */
  function Params(cs: Registry, key: string): seq<string> {
    match Lookup(cs, key)
    case None => []
    case Some(c) => Signature(c)
  }
}
