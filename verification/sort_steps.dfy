/**
 * Single evaluation steps of the sorter, de-duplication and the component-map
 * partition, stated once so that concrete systems can be evaluated step by step.
 */
module SortSteps {
  import opened Wrappers
  import opened Seqs
  import opened Components
  import opened Toposort
  import opened Sequence

  /** What `Visit(g, n, path, out)` requires. */
  ghost predicate CanVisit(g: Edges, n: string, path: seq<string>, out: seq<string>) {
    n in Universe(g) && n !in path && n !in out && IsChain(g, path + [n]) && Emitted(g, out)
  }

  /** What `VisitDeps(g, cs, path, out)` requires. */
  ghost predicate CanVisitDeps(g: Edges, cs: seq<string>, path: seq<string>, out: seq<string>) {
    && path != [] && IsChain(g, path) && Emitted(g, out)
    && (forall c :: c in cs ==> c in Deps(g, path[|path| - 1]))
    && Elems(Deps(g, path[|path| - 1])) <= Universe(g)
  }

  /** A node without dependencies is emitted as soon as it is visited. */
  lemma VisitLeaf(g: Edges, n: string, path: seq<string>, out: seq<string>)
    requires CanVisit(g, n, path, out) && Deps(g, n) == []
    ensures Visit(g, n, path, out) == Success(out + [n])
  {
    assert VisitDeps(g, [], path + [n], out) == Success(out);
  }

  /** A node is emitted right after the output of the visit of its dependencies. */
  lemma VisitAfterDeps(g: Edges, n: string, path: seq<string>, out: seq<string>, out': seq<string>)
    requires CanVisit(g, n, path, out)
    requires Elems(Deps(g, n)) <= Universe(g)
    requires VisitDeps(g, Deps(g, n), path + [n], out) == Success(out')
    ensures Visit(g, n, path, out) == Success(out' + [n])
  {
  }

  /** A dependency that is neither on the path nor emitted yet is visited, then the rest follow. */
  lemma VisitDepsVisits(g: Edges, c: string, cs: seq<string>, path: seq<string>, out: seq<string>, out': seq<string>)
    requires path != [] && IsChain(g, path) && Emitted(g, out)
    requires Elems(Deps(g, path[|path| - 1])) <= Universe(g)
    requires c in Deps(g, path[|path| - 1]) && forall x :: x in cs ==> x in Deps(g, path[|path| - 1])
    requires c !in path && c !in out && c in Universe(g) && IsChain(g, path + [c])
    requires Visit(g, c, path, out) == Success(out')
    ensures VisitDeps(g, [c] + cs, path, out) == VisitDeps(g, cs, path, out')
  {
    assert ([c] + cs)[0] == c && ([c] + cs)[1..] == cs;
  }

  /** A dependency already emitted is skipped. */
  lemma VisitDepsSkips(g: Edges, c: string, cs: seq<string>, path: seq<string>, out: seq<string>)
    requires path != [] && IsChain(g, path) && Emitted(g, out)
    requires Elems(Deps(g, path[|path| - 1])) <= Universe(g)
    requires c in Deps(g, path[|path| - 1]) && forall x :: x in cs ==> x in Deps(g, path[|path| - 1])
    requires c !in path && c in out
    ensures VisitDeps(g, [c] + cs, path, out) == VisitDeps(g, cs, path, out)
  {
    assert ([c] + cs)[0] == c && ([c] + cs)[1..] == cs;
  }

  /** The outer loop visits a registered name that is not emitted yet. */
  lemma SortFromVisits(g: Edges, n: string, names: seq<string>, out: seq<string>, out': seq<string>)
    requires n in Universe(g) && forall x :: x in names ==> x in Universe(g)
    requires Emitted(g, out) && n !in out && IsChain(g, [n])
    requires Visit(g, n, [], out) == Success(out')
    ensures SortFrom(g, [n] + names, out) == SortFrom(g, names, out')
  {
    assert ([n] + names)[0] == n && ([n] + names)[1..] == names;
    assert [] + [n] == [n];
  }

  /** The outer loop skips a registered name already emitted. */
  lemma SortFromSkips(g: Edges, n: string, names: seq<string>, out: seq<string>)
    requires n in Universe(g) && forall x :: x in names ==> x in Universe(g)
    requires Emitted(g, out) && n in out
    ensures SortFrom(g, [n] + names, out) == SortFrom(g, names, out)
  {
    assert ([n] + names)[0] == n && ([n] + names)[1..] == names;
  }

  /** The sort of a graph whose outer loop produced `post`. */
  lemma SortIs(g: Edges, post: seq<string>)
    requires forall n :: n in Names(g) ==> n in Universe(g)
    requires SortFrom(g, Names(g), []) == Success(post)
    ensures Sort(g) == Success(Reverse(post))
  {
  }

  /** De-duplicating one more element. */
  lemma DedupSnoc<T>(s: seq<T>, x: T)
    ensures Dedup(s + [x]) == if x in Dedup(s) then Dedup(s) else Dedup(s) + [x]
  {
    assert (s + [x])[..|s|] == s;
  }

  /** De-duplicating one more element not seen before appends it. */
  lemma DedupAppendsNew<T>(s: seq<T>, r: seq<T>, x: T)
    requires Dedup(s) == r && x !in r
    ensures Dedup(s + [x]) == r + [x]
  {
    DedupSnoc(s, x);
  }

  /** De-duplicating one more element already seen changes nothing. */
  lemma DedupSkipsSeen<T>(s: seq<T>, r: seq<T>, x: T)
    requires Dedup(s) == r && x in r
    ensures Dedup(s + [x]) == r
  {
    DedupSnoc(s, x);
  }

  /** Partitioning one more component. */
  lemma PartitionCons(entry: (string, Component), rest: Registry)
    ensures Partition([entry] + rest) ==
      if Signature(entry.1) != [] then ([(entry.0, Signature(entry.1))] + Partition(rest).0, Partition(rest).1)
      else (Partition(rest).0, [entry.0] + Partition(rest).1)
  {
    assert ([entry] + rest)[0] == entry && ([entry] + rest)[1..] == rest;
  }
}
