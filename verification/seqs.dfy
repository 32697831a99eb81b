/** Sequence helpers: distinctness, reversal and first-occurrence de-duplication. */
module Seqs {

  predicate Distinct<T(==)>(s: seq<T>) {
    forall i, j :: 0 <= i < j < |s| ==> s[i] != s[j]
  }

  function Elems<T(==)>(s: seq<T>): set<T> {
    set x | x in s
  }

  /** Array.prototype.reverse on a sequence. */
  function Reverse<T>(s: seq<T>): (r: seq<T>)
    ensures |r| == |s|
    ensures forall k :: 0 <= k < |s| ==> r[k] == s[|s| - 1 - k]
  {
    if s == [] then [] else Reverse(s[1..]) + [s[0]]
  }

  lemma ReverseDistinct<T>(s: seq<T>)
    requires Distinct(s)
    ensures Distinct(Reverse(s)) && Elems(Reverse(s)) == Elems(s)
  {
    var r := Reverse(s);
    forall x | x in s ensures x in r {
      var k :| 0 <= k < |s| && s[k] == x;
      assert r[|s| - 1 - k] == x;
    }
  }

  lemma {:induction false} ReverseReverse<T>(s: seq<T>)
    ensures Reverse(Reverse(s)) == s
  {
    var r := Reverse(Reverse(s));
    assert |r| == |s|;
    forall k | 0 <= k < |s| ensures r[k] == s[k] {
      assert r[k] == Reverse(s)[|s| - 1 - k];
    }
  }

  /** The first index at which x occurs in s. */
  function IndexOf<T(==)>(s: seq<T>, x: T): (i: nat)
    requires x in s
    ensures i < |s| && s[i] == x && x !in s[..i]
  {
    if s[0] == x then 0 else 1 + IndexOf(s[1..], x)
  }

  lemma IndexOfDistinct<T>(s: seq<T>, i: nat)
    requires Distinct(s) && i < |s|
    ensures IndexOf(s, s[i]) == i
  {
    var k := IndexOf(s, s[i]);
    assert s[k] == s[i];
  }

  lemma IndexOfPrefix<T>(s: seq<T>, n: nat, x: T)
    requires n <= |s| && x in s[..n]
    ensures x in s && IndexOf(s[..n], x) == IndexOf(s, x)
  {
    var k := IndexOf(s[..n], x);
    assert s[k] == x;
    assert s[..k] == s[..n][..k];
  }

  /**
   * The elements of s in the order of their first occurrence, as
   * `[...new Set(s)]` lists them.
   */
  function Dedup<T(==)>(s: seq<T>): (r: seq<T>)
    ensures Distinct(r) && Elems(r) == Elems(s)
    decreases |s|
  {
    if s == [] then []
    else
      var init, last := s[..|s| - 1], s[|s| - 1];
      var prev := Dedup(init);
      assert s == init + [last];
      assert Elems(s) == Elems(init) + {last};
      if last in prev then prev else prev + [last]
  }

  lemma {:induction false} DedupOfDistinct<T>(s: seq<T>)
    requires Distinct(s)
    ensures Dedup(s) == s
    decreases |s|
  {
    if s != [] {
      var init := s[..|s| - 1];
      DedupOfDistinct(init);
      assert s[|s| - 1] !in init;
      assert s == init + [s[|s| - 1]];
    }
  }

  /** Every element of r occurs in s, and r lists them in the order of their first occurrence in s. */
  ghost predicate FirstOccurrenceOrder<T>(r: seq<T>, s: seq<T>)
  {
    forall i, j :: 0 <= i < j < |r| ==> Precedes(s, r[i], r[j])
  }

  /** x and y both occur in s, and x occurs first. */
  ghost predicate Precedes<T>(s: seq<T>, x: T, y: T) {
    x in s && y in s && IndexOf(s, x) < IndexOf(s, y)
  }

  /**
   * De-duplication keeps each element at its first occurrence: the result
   * lists the elements in the order in which they first occur in s.
   */
  lemma {:induction false} DedupOrder<T>(s: seq<T>)
    ensures FirstOccurrenceOrder(Dedup(s), s)
    decreases |s|
  {
    if s != [] {
      var init, last := s[..|s| - 1], s[|s| - 1];
      var prev, r := Dedup(init), Dedup(s);
      DedupOrder(init);
      assert r == if last in prev then prev else prev + [last];
      forall i, j | 0 <= i < j < |r| ensures Precedes(s, r[i], r[j]) {
        if j < |prev| {
          assert Precedes(init, prev[i], prev[j]);
        }
        AppendOrderStep(s, prev, r, i, j);
      }
    }
  }

  /**
   * One pair of positions of r, where r extends prev, the de-duplicated
   * s without its last element, by that element unless prev already has it.
   */
  lemma AppendOrderStep<T>(s: seq<T>, prev: seq<T>, r: seq<T>, i: int, j: int)
    requires s != [] && Elems(prev) == Elems(s[..|s| - 1])
    requires r == if s[|s| - 1] in prev then prev else prev + [s[|s| - 1]]
    requires 0 <= i < j < |r|
    requires j < |prev| ==> Precedes(s[..|s| - 1], prev[i], prev[j])
    ensures Precedes(s, r[i], r[j])
  {
    var init, last := s[..|s| - 1], s[|s| - 1];
    var x := prev[i];
    assert x in init by { assert x in Elems(prev); }
    IndexOfPrefix(s, |s| - 1, x);
    if j < |prev| {
      var y := prev[j];
      assert y in init by { assert y in Elems(prev); }
      IndexOfPrefix(s, |s| - 1, y);
    } else {
      assert last !in init by { assert last !in Elems(prev); }
      IndexOfLast(s);
    }
  }

  /** An element occurring only at the end of s is first found there. */
  lemma IndexOfLast<T>(s: seq<T>)
    requires s != [] && s[|s| - 1] !in s[..|s| - 1]
    ensures IndexOf(s, s[|s| - 1]) == |s| - 1
  {
  }

  lemma ElemsConcat<T>(a: seq<T>, b: seq<T>)
    ensures Elems(a + b) == Elems(a) + Elems(b)
  {
  }

  /** The elements of b that do not occur in a, in the order of b. */
  function Unseen<T(==)>(b: seq<T>, a: seq<T>): (r: seq<T>)
    ensures Elems(r) == Elems(b) - Elems(a)
    decreases |b|
  {
    if b == [] then []
    else
      var init, last := b[..|b| - 1], b[|b| - 1];
      var rest, tail := Unseen(init, a), if last in a then [] else [last];
      assert b == init + [last];
      ElemsConcat(init, [last]);
      ElemsConcat(rest, tail);
      rest + tail
  }

  /**
   * De-duplicating a + b, for a and b each without repeats, keeps a and
   * appends the elements of b not already in a, in the order of b.
   */
  lemma {:induction false} DedupAppend<T>(a: seq<T>, b: seq<T>)
    requires Distinct(a) && Distinct(b)
    ensures Dedup(a + b) == a + Unseen(b, a)
    decreases |b|
  {
    if b == [] {
      assert a + b == a;
      DedupOfDistinct(a);
    } else {
      var init, last := b[..|b| - 1], b[|b| - 1];
      assert Distinct(init);
      DedupAppend(a, init);
      var u := Unseen(init, a);
      assert last !in init;
      assert last !in Elems(u);
      assert (last in a + u) == (last in a);
      assert (a + b)[..|a + b| - 1] == a + init;
      assert (a + b)[|a + b| - 1] == last;
      assert Unseen(b, a) == u + (if last in a then [] else [last]);
    }
  }

  /** De-duplicating a + b keeps a distinct a unchanged as the prefix. */
  lemma {:induction false} DedupKeepsDistinctPrefix<T>(a: seq<T>, b: seq<T>)
    requires Distinct(a)
    ensures |a| <= |Dedup(a + b)| && Dedup(a + b)[..|a|] == a
    decreases |b|
  {
    if b == [] {
      assert a + b == a;
      DedupOfDistinct(a);
    } else {
      var b' := b[..|b| - 1];
      DedupKeepsDistinctPrefix(a, b');
      assert (a + b)[..|a + b| - 1] == a + b';
    }
  }
}
