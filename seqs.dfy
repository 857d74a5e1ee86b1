/**
 * Sequence operations the search route performs on JavaScript arrays: `map`, `filter`,
 * pushing several values per element (`flatMap`), and `Array.from(new Set(xs))`.
 * Every function recurses on the last element, so that a loop that pushes onto an
 * array element by element extends the function's value one step at a time.
 * Element functions are passed as named functions (never lambdas), so that two
 * occurrences of the same call are the same term to the verifier.
 */
module Seqs {

  /** No element occurs twice. */
  predicate NoDups<T(==)>(s: seq<T>) {
    forall i, j :: 0 <= i < j < |s| ==> s[i] != s[j]
  }

  /** `s.map(f)` */
  function MapSeq<A, B>(s: seq<A>, f: A -> B): (r: seq<B>)
    ensures |r| == |s|
    ensures forall i :: 0 <= i < |s| ==> r[i] == f(s[i])
    decreases |s|
  {
    if s == [] then [] else MapSeq(s[..|s| - 1], f) + [f(s[|s| - 1])]
  }

  /** The pushes `f(x)` made for each `x` of `s`, in order. */
  function FlatMap<A, B>(s: seq<A>, f: A -> seq<B>): (r: seq<B>)
    decreases |s|
  {
    if s == [] then [] else FlatMap(s[..|s| - 1], f) + f(s[|s| - 1])
  }

  /** `s.filter(x => keep(c, x))`: the elements of `s` that `keep` accepts in context `c`, in order. */
  function Filter<C, A>(c: C, s: seq<A>, keep: (C, A) -> bool): (r: seq<A>)
    ensures |r| <= |s|
    decreases |s|
  {
    if s == [] then []
    else Filter(c, s[..|s| - 1], keep) + (if keep(c, s[|s| - 1]) then [s[|s| - 1]] else [])
  }

  /** `Array.from(new Set(s))`: the first occurrence of each element, in order of first occurrence. */
  function Dedup<T(==)>(s: seq<T>): (r: seq<T>)
    ensures NoDups(r)
    ensures forall i :: 0 <= i < |r| ==> r[i] in s
    ensures forall i :: 0 <= i < |s| ==> s[i] in r
    decreases |s|
  {
    if s == [] then []
    else
      var d := Dedup(s[..|s| - 1]);
      if s[|s| - 1] in d then d else d + [s[|s| - 1]]
  }

  lemma {:induction false} MapSeqMember<A, B>(s: seq<A>, f: A -> B, y: B)
    ensures y in MapSeq(s, f) <==> exists x :: x in s && f(x) == y
  {
    var r := MapSeq(s, f);
    if y in r {
      var i :| 0 <= i < |r| && r[i] == y;
      assert s[i] in s && f(s[i]) == y;
    }
    if exists x :: x in s && f(x) == y {
      var x :| x in s && f(x) == y;
      var i :| 0 <= i < |s| && s[i] == x;
      assert r[i] == y;
    }
  }

  lemma {:induction false} FlatMapMember<A, B>(s: seq<A>, f: A -> seq<B>, y: B)
    ensures y in FlatMap(s, f) <==> exists x :: x in s && y in f(x)
    decreases |s|
  {
    if s != [] {
      var init, last := s[..|s| - 1], s[|s| - 1];
      FlatMapMember(init, f, y);
      assert s == init + [last];
      if exists x :: x in init && y in f(x) {
        var x :| x in init && y in f(x);
        assert x in s;
      }
    }
  }

  lemma {:induction false} FilterMember<C, A>(c: C, s: seq<A>, keep: (C, A) -> bool, x: A)
    ensures x in Filter(c, s, keep) <==> x in s && keep(c, x)
    decreases |s|
  {
    if s != [] {
      FilterMember(c, s[..|s| - 1], keep, x);
      assert s == s[..|s| - 1] + [s[|s| - 1]];
    }
  }

  /** Filtering distributes over concatenation: the kept elements stay in input order. */
  lemma {:induction false} FilterAppend<C, A>(c: C, s: seq<A>, t: seq<A>, keep: (C, A) -> bool)
    ensures Filter(c, s + t, keep) == Filter(c, s, keep) + Filter(c, t, keep)
    decreases |t|
  {
    if t == [] {
      assert s + t == s;
    } else {
      var t' := t[..|t| - 1];
      FilterAppend(c, s, t', keep);
      assert (s + t)[..|s + t| - 1] == s + t';
    }
  }

  /** On a duplicate-free sequence `Array.from(new Set(s))` changes nothing. */
  lemma {:induction false} DedupOfNoDups<T>(s: seq<T>)
    requires NoDups(s)
    ensures Dedup(s) == s
    decreases |s|
  {
    if s != [] {
      var init := s[..|s| - 1];
      DedupOfNoDups(init);
      assert s[|s| - 1] !in init;
      assert s == init + [s[|s| - 1]];
    }
  }

  // One step of a loop that pushes onto an array: the function of the longer prefix.

  lemma MapSeqStep<A, B>(s: seq<A>, i: nat, f: A -> B)
    requires i < |s|
    ensures MapSeq(s[..i + 1], f) == MapSeq(s[..i], f) + [f(s[i])]
  {
    assert s[..i + 1][..i] == s[..i];
  }

  lemma FlatMapStep<A, B>(s: seq<A>, i: nat, f: A -> seq<B>)
    requires i < |s|
    ensures FlatMap(s[..i + 1], f) == FlatMap(s[..i], f) + f(s[i])
  {
    assert s[..i + 1][..i] == s[..i];
  }

  lemma FilterStep<C, A>(c: C, s: seq<A>, i: nat, keep: (C, A) -> bool)
    requires i < |s|
    ensures Filter(c, s[..i + 1], keep) == Filter(c, s[..i], keep) + (if keep(c, s[i]) then [s[i]] else [])
  {
    assert s[..i + 1][..i] == s[..i];
  }

  lemma FilterSnoc<C, A>(c: C, s: seq<A>, x: A, keep: (C, A) -> bool)
    ensures Filter(c, s + [x], keep) == Filter(c, s, keep) + (if keep(c, x) then [x] else [])
  {
    assert (s + [x])[..|s|] == s;
  }

  lemma MapSeqSnoc<A, B>(s: seq<A>, x: A, f: A -> B)
    ensures MapSeq(s + [x], f) == MapSeq(s, f) + [f(x)]
  {
    assert (s + [x])[..|s|] == s;
  }

  lemma FlatMapSnoc<A, B>(s: seq<A>, x: A, f: A -> seq<B>)
    ensures FlatMap(s + [x], f) == FlatMap(s, f) + f(x)
  {
    assert (s + [x])[..|s|] == s;
  }

  /** A filter that keeps nothing yields the empty array. */
  lemma {:induction false} FilterNone<C, A>(c: C, s: seq<A>, keep: (C, A) -> bool)
    requires forall x :: x in s ==> !keep(c, x)
    ensures Filter(c, s, keep) == []
    decreases |s|
  {
    if s != [] {
      assert s[|s| - 1] in s;
      forall x | x in s[..|s| - 1] ensures !keep(c, x) {
        assert x in s;
      }
      FilterNone(c, s[..|s| - 1], keep);
    }
  }

  lemma DedupMember<T>(s: seq<T>, x: T)
    ensures x in Dedup(s) <==> x in s
  {
  }
}
