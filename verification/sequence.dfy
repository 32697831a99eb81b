/** The start and stop orders of a component map (`startSequence`, `stopSequence`). */
module Sequence {
  import opened Wrappers
  import opened Seqs
  import opened Components
  import opened Toposort

  /**
   * The loop over the component map: a component whose start declares
   * parameters is registered with the sorter together with them, every
   * other component goes to the list of components without dependencies.
   */
  function Partition(cs: Registry): (r: (Edges, seq<string>))
    ensures |r.0| + |r.1| == |cs|
    ensures forall i :: 0 <= i < |r.0| ==> r.0[i].1 != []
  {
    if cs == [] then ([], [])
    else
      var rest := Partition(cs[1..]);
      var (name, component) := cs[0];
      if Signature(component) != [] then ([(name, Signature(component))] + rest.0, rest.1)
      else (rest.0, [name] + rest.1)
  }

  /**
   * The start order: the sorted nodes reversed (dependencies first), then the
   * components without dependencies, each name kept at its first occurrence.
   * Fails with the dependency cycle the sort found.
   */
  function StartSequence(cs: Registry): (r: Result<seq<string>, seq<string>>)
    ensures r.Success? ==> Distinct(r.value)
  {
    var (edges, noDeps) := Partition(cs);
    match Sort(edges)
    case Failure(cycle) => Failure(cycle)
    case Success(sorted) => Success(Dedup(Reverse(sorted) + noDeps))
  }

  /** The stop order: the start order reversed. */
  function StopSequence(cs: Registry): (r: Result<seq<string>, seq<string>>)
    ensures r.Success? <==> StartSequence(cs).Success?
    ensures r.Failure? ==> r.error == StartSequence(cs).error
    ensures r.Success? ==>
      var start := StartSequence(cs).value;
      |r.value| == |start| && forall k :: 0 <= k < |start| ==> r.value[k] == start[|start| - 1 - k]
  {
    match StartSequence(cs)
    case Failure(cycle) => Failure(cycle)
    case Success(start) => Success(Reverse(start))
  }

  /** Every name a component of the map declares as a dependency. */
  ghost function DeclaredDeps(cs: Registry): set<string> {
    set k, d | k in Keys(cs) && d in Params(cs, k) :: d
  }

  /** Every declared dependency of s[i] occurs before position i. */
  ghost predicate DepsBefore(cs: Registry, s: seq<string>) {
    forall i, d :: 0 <= i < |s| && d in Params(cs, s[i]) ==> d in s[..i]
  }

  /** Every declared dependency of s[i] occurs after position i. */
  ghost predicate DepsAfter(cs: Registry, s: seq<string>) {
    forall i, d :: 0 <= i < |s| && d in Params(cs, s[i]) ==> d in s[i + 1..]
  }

  /** A chain of declared dependencies that returns to where it started. */
  ghost predicate IsDependencyCycle(cs: Registry, p: seq<string>) {
    |p| >= 2 && p[0] == p[|p| - 1] && forall i :: 0 <= i < |p| - 1 ==> p[i + 1] in Params(cs, p[i])
  }

  /** The sorter sees exactly the dependencies the components declare. */
  lemma {:induction false} PartitionDeps(cs: Registry, n: string)
    requires DistinctKeys(cs)
    ensures Deps(Partition(cs).0, n) == Params(cs, n)
  {
    if cs != [] {
      assert DistinctKeys(cs[1..]) by {
        forall i, j | 0 <= i < j < |cs[1..]| ensures cs[1..][i].0 != cs[1..][j].0 {
          assert cs[1..][i] == cs[i + 1] && cs[1..][j] == cs[j + 1];
        }
      }
      PartitionDeps(cs[1..], n);
      if cs[0].0 != n && Signature(cs[0].1) != [] {
        assert Deps(Partition(cs).0, n) == Deps(Partition(cs[1..]).0, n);
      }
      if cs[0].0 == n && Signature(cs[0].1) == [] {
        assert n !in Keys(cs[1..]) by {
          forall i | 0 <= i < |cs[1..]| ensures Keys(cs[1..])[i] != n {
            assert cs[1..][i] == cs[i + 1];
          }
        }
        PartitionNames(cs[1..]);
        assert n !in Elems(Names(Partition(cs[1..]).0));
        UnregisteredHasNoDeps(Partition(cs[1..]).0, n);
      }
    }
  }

  /** Each key is either registered with the sorter or listed as having no dependencies. */
  lemma {:induction false} PartitionNames(cs: Registry)
    ensures Elems(Names(Partition(cs).0)) + Elems(Partition(cs).1) == Elems(Keys(cs))
  {
    if cs != [] {
      PartitionNames(cs[1..]);
      var rest := Partition(cs[1..]);
      assert Keys(cs) == [cs[0].0] + Keys(cs[1..]);
      if Signature(cs[0].1) != [] {
        assert Names(Partition(cs).0) == [cs[0].0] + Names(rest.0);
        assert Elems(Names(Partition(cs).0)) == {cs[0].0} + Elems(Names(rest.0));
      } else {
        assert Partition(cs).1 == [cs[0].0] + rest.1;
        assert Elems(Partition(cs).1) == {cs[0].0} + Elems(rest.1);
      }
      assert Elems(Keys(cs)) == {cs[0].0} + Elems(Keys(cs[1..]));
    }
  }

  /** The start order lists every key and every declared dependency exactly once, dependencies first. */
  lemma StartSequenceOrder(cs: Registry)
    requires DistinctKeys(cs)
    ensures StartSequence(cs).Success? ==>
      var s := StartSequence(cs).value;
      Distinct(s) && Elems(s) == Elems(Keys(cs)) + DeclaredDeps(cs) && DepsBefore(cs, s)
  {
    var g := Partition(cs).0;
    var noDeps := Partition(cs).1;
    if Sort(g).Success? {
      var post := Reverse(Sort(g).value);
      ReverseDistinct(Sort(g).value);
      ReverseOfDependentsFirst(g, Sort(g).value);
      assert StartSequence(cs).value == Dedup(post + noDeps);
      assert Elems(post + noDeps) == Elems(post) + Elems(noDeps);
      UniverseOfPartition(cs);
      DependenciesFirstSurviveDedup(cs, post, noDeps);
    }
  }

  /** The components without dependencies are listed once each, since the keys are. */
  lemma {:induction false} NoDepsDistinct(cs: Registry)
    requires DistinctKeys(cs)
    ensures Distinct(Partition(cs).1)
  {
    if cs != [] {
      assert DistinctKeys(cs[1..]) by {
        forall i, j | 0 <= i < j < |cs[1..]| ensures cs[1..][i].0 != cs[1..][j].0 {
          assert cs[1..][i] == cs[i + 1] && cs[1..][j] == cs[j + 1];
        }
      }
      NoDepsDistinct(cs[1..]);
      var rest := Partition(cs[1..]);
      if Signature(cs[0].1) == [] {
        assert cs[0].0 !in Keys(cs[1..]) by {
          forall i | 0 <= i < |cs[1..]| ensures Keys(cs[1..])[i] != cs[0].0 {
            assert cs[1..][i] == cs[i + 1];
          }
        }
        PartitionNames(cs[1..]);
        assert cs[0].0 !in Elems(rest.1);
        assert Partition(cs).1 == [cs[0].0] + rest.1;
      }
    }
  }

  /**
   * The shape of a computed start order: the sorted nodes reversed, then
   * those components without dependencies that the sorted part does not
   * already hold, in map order.
   */
  lemma StartSequenceLayout(cs: Registry)
    requires DistinctKeys(cs)
    ensures StartSequence(cs).Success? <==> Sort(Partition(cs).0).Success?
    ensures StartSequence(cs).Success? ==>
      var g, noDeps := Partition(cs).0, Partition(cs).1;
      var post := Reverse(Sort(g).value);
      Elems(post) == Universe(g) && StartSequence(cs).value == post + Unseen(noDeps, post)
  {
    var g, noDeps := Partition(cs).0, Partition(cs).1;
    if Sort(g).Success? {
      var post := Reverse(Sort(g).value);
      ReverseDistinct(Sort(g).value);
      NoDepsDistinct(cs);
      DedupAppend(post, noDeps);
    }
  }

  /** Appending the dependency-free names and de-duplicating keeps the sorted part dependencies first. */
  lemma DependenciesFirstSurviveDedup(cs: Registry, post: seq<string>, noDeps: seq<string>)
    requires DistinctKeys(cs)
    requires Distinct(post) && Closed(Partition(cs).0, post) && Elems(post) == Universe(Partition(cs).0)
    ensures DepsBefore(cs, Dedup(post + noDeps))
  {
    var s := Dedup(post + noDeps);
    DedupKeepsDistinctPrefix(post, noDeps);
    forall i, d | 0 <= i < |s| && d in Params(cs, s[i]) ensures d in s[..i] {
      DependencyInPrefix(cs, post, s, i, d);
    }
  }

  /** A component with dependencies lies in the sorted prefix, after all of them. */
  lemma DependencyInPrefix(cs: Registry, post: seq<string>, s: seq<string>, i: int, d: string)
    requires DistinctKeys(cs)
    requires Closed(Partition(cs).0, post) && Elems(post) == Universe(Partition(cs).0)
    requires Distinct(s) && |post| <= |s| && s[..|post|] == post
    requires 0 <= i < |s| && d in Params(cs, s[i])
    ensures d in s[..i]
  {
    var g := Partition(cs).0;
    PartitionDeps(cs, s[i]);
    DepsInUniverse(g, s[i]);
    assert s[i] in Elems(post);
    var j := IndexOf(post, s[i]);
    assert s[j] == post[j];
    assert i == j;
    assert d in post[..j];
    assert post[..j] == s[..j];
  }

  /** The sorter's nodes together with the dependency-free components are the keys and the declared dependencies. */
  lemma UniverseOfPartition(cs: Registry)
    requires DistinctKeys(cs)
    ensures Universe(Partition(cs).0) + Elems(Partition(cs).1) == Elems(Keys(cs)) + DeclaredDeps(cs)
  {
    var (g, noDeps) := Partition(cs);
    forall n ensures Deps(g, n) == Params(cs, n) {
      PartitionDeps(cs, n);
    }
    PartitionNames(cs);
    var D := set n, d | n in Names(g) && d in Deps(g, n) :: d;
    assert Universe(g) == Elems(Names(g)) + D;
    forall d | d in DeclaredDeps(cs) ensures d in D {
      var k :| k in Keys(cs) && d in Params(cs, k);
      if k !in Names(g) {
        UnregisteredHasNoDeps(g, k);
      }
    }
    forall d | d in D ensures d in DeclaredDeps(cs) {
      var n :| n in Names(g) && d in Deps(g, n);
      assert n in Elems(Keys(cs));
    }
  }

  /** The start order is computed exactly when the declared dependencies have no cycle; otherwise the failure names one. */
  lemma StartSequenceFailsIffCycle(cs: Registry)
    requires DistinctKeys(cs)
    ensures StartSequence(cs).Failure? ==> IsDependencyCycle(cs, StartSequence(cs).error)
    ensures StartSequence(cs).Failure? <==> exists p :: IsDependencyCycle(cs, p)
  {
    var g := Partition(cs).0;
    forall n ensures Deps(g, n) == Params(cs, n) {
      PartitionDeps(cs, n);
    }
    assert forall p :: IsCycle(g, p) <==> IsDependencyCycle(cs, p);
    SortFailsIffCycle(g);
  }

  /** The stop order lists every name once, each component before everything it depends on. */
  lemma StopSequenceDependentsFirst(cs: Registry)
    requires DistinctKeys(cs)
    ensures StopSequence(cs).Success? ==>
      var s := StopSequence(cs).value;
      Distinct(s) && Elems(s) == Elems(Keys(cs)) + DeclaredDeps(cs) && DepsAfter(cs, s)
  {
    if StartSequence(cs).Success? {
      var start := StartSequence(cs).value;
      StartSequenceOrder(cs);
      ReverseDistinct(start);
      ReversedDepsBefore(cs, start);
    }
  }

  /**
   * Reversing a dependencies-first order gives a dependents-first one. This is
   * the registry-level counterpart of `ReverseOfClosed`; stated over the
   * declared parameters, it holds without the unique keys that `PartitionDeps`
   * needs to move between the two levels.
   */
  lemma ReversedDepsBefore(cs: Registry, start: seq<string>)
    requires DepsBefore(cs, start)
    ensures DepsAfter(cs, Reverse(start))
  {
    var s := Reverse(start);
    forall i, d | 0 <= i < |s| && d in Params(cs, s[i]) ensures d in s[i + 1..] {
      var j := |start| - 1 - i;
      assert s[i] == start[j];
      var m :| 0 <= m < j && start[m] == d;
      assert s[|start| - 1 - m] == d;
    }
  }
}
