/**
 * A deterministic depth-first topological sort over registered edges, in the
 * role `toposort-class` plays for the lifecycle runner: `add(name, deps)`
 * registers that `name` depends on each of `deps`, and `sort()` lists the nodes
 * dependents first, or fails when the dependencies form a cycle.
 */
module Toposort {
  import opened Wrappers
  import opened Seqs

  /** The registered items, in registration order, each with the names it depends on. */
  type Edges = seq<(string, seq<string>)>

  /**
   * The registered item names, in registration order. The sorter keeps its own
   * registrations, as the library it stands for does: only the components that
   * declare dependencies are registered, so these are not the component keys.
   */
  function Names(g: Edges): seq<string> {
    if g == [] then [] else [g[0].0] + Names(g[1..])
  }

  /** What node n depends on: the names registered with n (none when n was not registered). */
  function Deps(g: Edges, n: string): seq<string> {
    if g == [] then [] else if g[0].0 == n then g[0].1 else Deps(g[1..], n)
  }

  /** Every node of the graph: the registered items and everything they depend on. */
  ghost function Universe(g: Edges): set<string> {
    Elems(Names(g)) + (set n, d | n in Names(g) && d in Deps(g, n) :: d)
  }

  lemma UnregisteredHasNoDeps(g: Edges, n: string)
    requires n !in Names(g)
    ensures Deps(g, n) == []
  {
  }

  lemma DepsInUniverse(g: Edges, n: string)
    ensures Elems(Deps(g, n)) <= Universe(g)
    ensures Deps(g, n) != [] ==> n in Universe(g)
  {
    if n !in Names(g) {
      UnregisteredHasNoDeps(g, n);
    }
  }

  /** A path along dependency edges: each node depends on the next. */
  ghost predicate IsChain(g: Edges, p: seq<string>) {
    forall i :: 0 <= i < |p| - 1 ==> p[i + 1] in Deps(g, p[i])
  }

  /** A dependency path that returns to where it started. */
  ghost predicate IsCycle(g: Edges, p: seq<string>) {
    |p| >= 2 && p[0] == p[|p| - 1] && IsChain(g, p)
  }

  ghost predicate HasCycle(g: Edges) {
    exists p :: IsCycle(g, p)
  }

  /** Every dependency of an element of `out` occurs earlier in `out` (dependencies first). */
  ghost predicate Closed(g: Edges, out: seq<string>) {
    forall i, d :: 0 <= i < |out| && d in Deps(g, out[i]) ==> d in out[..i]
  }

  /** Every dependency of an element of `r` occurs later in `r` (dependents first). */
  ghost predicate DependentsFirst(g: Edges, r: seq<string>) {
    forall i, d :: 0 <= i < |r| && d in Deps(g, r[i]) ==> d in r[i + 1..]
  }

  /** The emitted list is well formed. */
  ghost predicate Emitted(g: Edges, out: seq<string>) {
    Distinct(out) && Closed(g, out) && Elems(out) <= Universe(g)
  }

  /** `out'` extends `out` with well-formed output and adds nothing that lies on `path`. */
  ghost predicate Grows(g: Edges, path: seq<string>, out: seq<string>, out': seq<string>) {
    && out <= out'
    && Emitted(g, out')
    && forall i :: |out| <= i < |out'| ==> out'[i] !in path
  }

  /** The nodes neither on the current path nor emitted yet: the depth-first search shrinks this. */
  ghost function Unvisited(g: Edges, path: seq<string>, out: seq<string>): set<string> {
    Universe(g) - Elems(path) - Elems(out)
  }

  /**
   * Depth-first visit of `node`, reached along `path`: visits its dependencies
   * in declared order, then emits `node`. Fails with the cycle when a
   * dependency lies on the current path.
   */
  function Visit(g: Edges, node: string, path: seq<string>, out: seq<string>): (r: Result<seq<string>, seq<string>>)
    requires node in Universe(g) && node !in path && node !in out
    requires IsChain(g, path + [node])
    requires Emitted(g, out)
    ensures r.Success? ==> Grows(g, path, out, r.value) && node in r.value
    ensures r.Failure? ==> IsCycle(g, r.error)
    decreases Unvisited(g, path, out), 0, 0
  {
    var path' := path + [node];
    assert Elems(path') == Elems(path) + {node};
    assert Unvisited(g, path', out) < Unvisited(g, path, out) by {
      assert node in Unvisited(g, path, out) && node !in Unvisited(g, path', out);
    }
    DepsInUniverse(g, node);
    match VisitDeps(g, Deps(g, node), path', out)
    case Failure(cycle) => Failure(cycle)
    case Success(out') =>
      assert node !in out' by {
        forall i | 0 <= i < |out'| ensures out'[i] != node {
          if i < |out| { assert out'[i] == out[i]; } else { assert out'[i] !in path'; }
        }
      }
      var out'' := out' + [node];
      assert Elems(out'') == Elems(out') + {node};
      assert Closed(g, out'') by {
        forall i, d | 0 <= i < |out''| && d in Deps(g, out''[i]) ensures d in out''[..i] {
          if i < |out'| {
            assert out''[..i] == out'[..i];
          } else {
            assert out''[..i] == out';
          }
        }
      }
      Success(out'')
  }

  /**
   * Visits the dependencies `cs` of the last node on `path` in order; a
   * dependency already on `path` closes a cycle, one already emitted is skipped.
   */
  function VisitDeps(g: Edges, cs: seq<string>, path: seq<string>, out: seq<string>): (r: Result<seq<string>, seq<string>>)
    requires path != [] && IsChain(g, path)
    requires forall c :: c in cs ==> c in Deps(g, path[|path| - 1])
    requires Elems(Deps(g, path[|path| - 1])) <= Universe(g)
    requires Emitted(g, out)
    ensures r.Success? ==> Grows(g, path, out, r.value) && forall c :: c in cs ==> c in r.value
    ensures r.Failure? ==> IsCycle(g, r.error)
    decreases Unvisited(g, path, out), 1, |cs|
  {
    if cs == [] then Success(out)
    else
      var c := cs[0];
      assert forall x :: x in cs[1..] ==> x in cs;
      assert c in cs && c in Deps(g, path[|path| - 1]);
      assert c in Elems(Deps(g, path[|path| - 1]));
      if c in path then
        var j := IndexOf(path, c);
        var cycle := path[j..] + [c];
        assert IsChain(g, cycle) by {
          forall i | 0 <= i < |cycle| - 1 ensures cycle[i + 1] in Deps(g, cycle[i]) {
            if i < |path| - j - 1 {
              assert cycle[i] == path[j + i] && cycle[i + 1] == path[j + i + 1];
              assert path[(j + i) + 1] in Deps(g, path[j + i]);
            } else {
              assert cycle[i] == path[|path| - 1];
            }
          }
        }
        Failure(cycle)
      else if c in out then
        VisitDeps(g, cs[1..], path, out)
      else
        assert IsChain(g, path + [c]) by {
          var p := path + [c];
          forall i | 0 <= i < |p| - 1 ensures p[i + 1] in Deps(g, p[i]) {
            if i < |path| - 1 {
              assert p[i] == path[i] && p[i + 1] == path[i + 1];
              assert path[i + 1] in Deps(g, path[i]);
            }
          }
        }
        match Visit(g, c, path, out)
        case Failure(cycle) => Failure(cycle)
        case Success(out') =>
          assert Elems(out) <= Elems(out') by {
            forall x | x in out ensures x in out' {
              var k :| 0 <= k < |out| && out[k] == x;
              assert out'[k] == x;
            }
          }
          assert Unvisited(g, path, out') <= Unvisited(g, path, out);
          match VisitDeps(g, cs[1..], path, out')
          case Failure(cycle) => Failure(cycle)
          case Success(out'') =>
            assert c in out'' by {
              var k := IndexOf(out', c);
              assert out''[k] == c;
            }
            Success(out'')
  }

  /** The outer loop: visits each registered name in registration order, skipping emitted ones. */
  function SortFrom(g: Edges, names: seq<string>, out: seq<string>): (r: Result<seq<string>, seq<string>>)
    requires forall n :: n in names ==> n in Universe(g)
    requires Emitted(g, out)
    ensures r.Success? ==> out <= r.value && Emitted(g, r.value) && forall n :: n in names ==> n in r.value
    ensures r.Failure? ==> IsCycle(g, r.error)
    decreases |names|
  {
    if names == [] then Success(out)
    else if names[0] in out then
      SortFrom(g, names[1..], out)
    else
      match Visit(g, names[0], [], out)
      case Failure(cycle) => Failure(cycle)
      case Success(out') =>
        match SortFrom(g, names[1..], out')
        case Failure(cycle) => Failure(cycle)
        case Success(out'') =>
          assert names[0] in out'' by {
            var k := IndexOf(out', names[0]);
            assert out''[k] == names[0];
          }
          Success(out'')
  }

  /**
   * `sort()`: every node exactly once, dependents before their dependencies,
   * or the cycle that makes such an order impossible.
   */
  function Sort(g: Edges): (r: Result<seq<string>, seq<string>>)
    ensures r.Success? ==> Distinct(r.value) && Elems(r.value) == Universe(g) && DependentsFirst(g, r.value)
    ensures r.Failure? ==> IsCycle(g, r.error)
  {
    assert forall n :: n in Names(g) ==> n in Universe(g);
    match SortFrom(g, Names(g), [])
    case Failure(cycle) => Failure(cycle)
    case Success(post) =>
      PostOrderCovers(g, post);
      ReverseDistinct(post);
      ReverseOfClosed(g, post);
      Success(Reverse(post))
  }

  lemma PostOrderCovers(g: Edges, post: seq<string>)
    requires Emitted(g, post) && forall n :: n in Names(g) ==> n in post
    ensures Elems(post) == Universe(g)
  {
    forall d | d in Universe(g) ensures d in post {
      if d !in Names(g) {
        var n :| n in Names(g) && d in Deps(g, n);
        var i := IndexOf(post, n);
        assert d in post[..i];
      }
    }
  }

  lemma ReverseOfClosed(g: Edges, post: seq<string>)
    requires Closed(g, post)
    ensures DependentsFirst(g, Reverse(post))
  {
    var r := Reverse(post);
    forall i, d | 0 <= i < |r| && d in Deps(g, r[i]) ensures d in r[i + 1..] {
      var j := |post| - 1 - i;
      assert r[i] == post[j];
      var m :| 0 <= m < j && post[m] == d;
      assert r[|post| - 1 - m] == d;
    }
  }

  lemma ReverseOfDependentsFirst(g: Edges, r: seq<string>)
    requires DependentsFirst(g, r)
    ensures Closed(g, Reverse(r))
  {
    var post := Reverse(r);
    forall i, d | 0 <= i < |post| && d in Deps(g, post[i]) ensures d in post[..i] {
      var j := |r| - 1 - i;
      assert post[i] == r[j];
      var m :| j < m < |r| && r[m] == d;
      assert post[|r| - 1 - m] == d;
    }
  }

  /** Along a dependency chain, positions in a dependents-first order strictly increase. */
  lemma {:induction false} ChainMovesRight(g: Edges, r: seq<string>, p: seq<string>)
    requires Distinct(r) && DependentsFirst(g, r)
    requires IsChain(g, p) && |p| >= 2 && p[0] in r
    ensures p[|p| - 1] in r && IndexOf(r, p[0]) < IndexOf(r, p[|p| - 1])
    decreases |p|
  {
    var i := IndexOf(r, p[0]);
    assert p[1] in Deps(g, p[0]);
    assert p[1] in r[i + 1..];
    var m :| i < m < |r| && r[m] == p[1];
    assert IndexOf(r, p[1]) == m;
    if |p| > 2 {
      var q := p[1..];
      assert IsChain(g, q) by {
        forall k | 0 <= k < |q| - 1 ensures q[k + 1] in Deps(g, q[k]) {
          assert q[k] == p[k + 1] && q[k + 1] == p[k + 2];
        }
      }
      ChainMovesRight(g, r, q);
    }
  }

  /** A graph with a dependents-first order of all its nodes has no cycle. */
  lemma OrderRulesOutCycle(g: Edges, r: seq<string>, p: seq<string>)
    requires Distinct(r) && DependentsFirst(g, r) && Elems(r) == Universe(g)
    ensures !IsCycle(g, p)
  {
    if IsCycle(g, p) {
      assert p[1] in Deps(g, p[0]);
      DepsInUniverse(g, p[0]);
      ChainMovesRight(g, r, p);
      assert false;
    }
  }

  /** The sort fails exactly when the registered dependencies contain a cycle. */
  lemma SortFailsIffCycle(g: Edges)
    ensures Sort(g).Failure? <==> HasCycle(g)
  {
    var r := Sort(g);
    if r.Success? && HasCycle(g) {
      var p :| IsCycle(g, p);
      OrderRulesOutCycle(g, r.value, p);
      assert false;
    }
  }
}
