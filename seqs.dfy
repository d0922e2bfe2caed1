/** Sequence combinators for the relational parts of the model: the rows a join produces, in order. */
module Seqs {
  import opened Wrappers

  /** `s.flat_map(f)`: the concatenation of `f(a)` for every `a` of `s`, in order. */
  function FlatMap<A, B>(s: seq<A>, f: A -> seq<B>): seq<B>
  {
    if s == [] then [] else f(s[0]) + FlatMap(s[1..], f)
  }

  /** The rows a LEFT JOIN pairs with one outer row: every match, or a single NULL when there is none. */
  function Options<T>(s: seq<T>): (r: seq<Option<T>>)
    ensures |r| == if s == [] then 1 else |s|
    ensures s == [] ==> r == [None]
    ensures forall i :: 0 <= i < |s| ==> r[i] == Some(s[i])
  {
    if s == [] then [None] else seq(|s|, i requires 0 <= i < |s| => Some(s[i]))
  }

  lemma {:induction false} FlatMapUniformLength<A, B>(s: seq<A>, f: A -> seq<B>, k: nat)
    requires forall i :: 0 <= i < |s| ==> |f(s[i])| == k
    ensures |FlatMap(s, f)| == |s| * k
  {
    if s != [] {
      FlatMapUniformLength(s[1..], f, k);
    }
  }

  lemma {:induction false} FlatMapMember<A, B>(s: seq<A>, f: A -> seq<B>, b: B)
    ensures b in FlatMap(s, f) <==> exists i :: 0 <= i < |s| && b in f(s[i])
  {
    if s != [] {
      FlatMapMember(s[1..], f, b);
      if b in FlatMap(s[1..], f) {
        var i :| 0 <= i < |s[1..]| && b in f(s[1..][i]);
        assert b in f(s[i + 1]);
      }
      if exists i :: 0 <= i < |s| && b in f(s[i]) {
        var i :| 0 <= i < |s| && b in f(s[i]);
        if i > 0 {
          assert b in f(s[1..][i - 1]);
        }
      }
    }
  }

  /** Every element of a FlatMap satisfies `P` when every inner sequence does. */
  lemma FlatMapAll<A, B>(s: seq<A>, f: A -> seq<B>, P: B -> bool)
    requires forall i, j :: 0 <= i < |s| && 0 <= j < |f(s[i])| ==> P(f(s[i])[j])
    ensures forall b :: b in FlatMap(s, f) ==> P(b)
  {
    forall b | b in FlatMap(s, f) ensures P(b) {
      FlatMapMember(s, f, b);
      var i :| 0 <= i < |s| && b in f(s[i]);
      var j :| 0 <= j < |f(s[i])| && f(s[i])[j] == b;
    }
  }

  /** Every inner sequence non-empty and the outer one non-empty: the FlatMap is non-empty. */
  lemma FlatMapNonEmpty<A, B>(s: seq<A>, f: A -> seq<B>)
    requires s != [] && forall i :: 0 <= i < |s| ==> f(s[i]) != []
    ensures FlatMap(s, f) != []
  {
    assert FlatMap(s, f) == f(s[0]) + FlatMap(s[1..], f);
  }

  /** The rows of `inner` that an outer row `a` is joined with, in order. */
  function Matches<A, B(==), C(==,!new)>(a: A, inner: seq<B>, on: (A, B) -> bool, sel: (A, B) -> C): (r: seq<C>)
    ensures forall c :: c in r <==> exists b :: b in inner && on(a, b) && c == sel(a, b)
  {
    if inner == [] then []
    else
      var rest := Matches(a, inner[1..], on, sel);
      assert inner == [inner[0]] + inner[1..];
      (if on(a, inner[0]) then [sel(a, inner[0])] else []) + rest
  }

  /** The select list `sel` of an inner join `outer JOIN inner ON on`, outer rows in order. */
  function InnerJoin<A(==), B(==), C(==,!new)>(outer: seq<A>, inner: seq<B>, on: (A, B) -> bool, sel: (A, B) -> C): (r: seq<C>)
    ensures forall c :: c in r <==> exists a, b :: a in outer && b in inner && on(a, b) && c == sel(a, b)
  {
    if outer == [] then []
    else
      var rest := InnerJoin(outer[1..], inner, on, sel);
      assert outer == [outer[0]] + outer[1..];
      Matches(outer[0], inner, on, sel) + rest
  }

  lemma FilterMember<T>(s: seq<T>, p: T -> bool, x: T)
    ensures x in Filter(s, p) <==> x in s && p(x)
  {
    if x in Filter(s, p) {
      var i :| 0 <= i < |Filter(s, p)| && Filter(s, p)[i] == x;
    }
    if x in s && p(x) {
      var i :| 0 <= i < |s| && s[i] == x;
    }
  }

  lemma DistinctMember<T>(s: seq<T>, x: T)
    ensures x in Distinct(s) <==> x in s
  {
    if x in Distinct(s) {
      var i :| 0 <= i < |Distinct(s)| && Distinct(s)[i] == x;
    }
    if x in s {
      var i :| 0 <= i < |s| && s[i] == x;
    }
  }

  /** DISTINCT over a join whose outer rows are first filtered by `p`. */
  lemma DistinctJoinMember<A, B, C(!new)>(outer: seq<A>, p: A -> bool, inner: seq<B>, on: (A, B) -> bool, sel: (A, B) -> C, c: C)
    ensures c in Distinct(InnerJoin(Filter(outer, p), inner, on, sel)) <==>
              exists a, b :: a in outer && p(a) && b in inner && on(a, b) && c == sel(a, b)
  {
    DistinctMember(InnerJoin(Filter(outer, p), inner, on, sel), c);
    forall a ensures a in Filter(outer, p) <==> a in outer && p(a) {
      FilterMember(outer, p, a);
    }
  }

  lemma AppendAssociative<T>(a: seq<T>, b: seq<T>, c: seq<T>)
    ensures a + (b + c) == (a + b) + c
  {
  }

  /** `s.map(f)`. */
  function Map<A, B>(s: seq<A>, f: A -> B): (r: seq<B>)
    ensures |r| == |s| && forall i :: 0 <= i < |s| ==> r[i] == f(s[i])
  {
    seq(|s|, i requires 0 <= i < |s| => f(s[i]))
  }

  /** A LEFT JOIN's NULL row appears exactly when there is no match; every match appears. */
  lemma OptionsMember<T>(s: seq<T>, o: Option<T>)
    ensures o in Options(s) <==> (o.None? && s == []) || (o.Some? && o.value in s)
  {
    if o.Some? && o.value in s {
      var i :| 0 <= i < |s| && s[i] == o.value;
      assert Options(s)[i] == o;
    }
  }

  /** SQL's DISTINCT: the first occurrence of every row, in order of first appearance. */
  function Distinct<T(==)>(s: seq<T>): (r: seq<T>)
    ensures forall i :: 0 <= i < |r| ==> r[i] in s
    ensures forall i :: 0 <= i < |s| ==> s[i] in r
    ensures NoDuplicates(r)
  {
    if s == [] then []
    else
      var rest := Distinct(s[..|s| - 1]);
      if s[|s| - 1] in rest then rest else rest + [s[|s| - 1]]
  }

  predicate NoDuplicates<T(==)>(s: seq<T>)
  {
    forall i, j :: 0 <= i < j < |s| ==> s[i] != s[j]
  }

  /** The elements of `s` that satisfy `p`, in order; SQL's WHERE. */
  function Filter<T>(s: seq<T>, p: T -> bool): (r: seq<T>)
    ensures |r| <= |s|
    ensures forall i :: 0 <= i < |r| ==> r[i] in s && p(r[i])
    ensures forall i :: 0 <= i < |s| && p(s[i]) ==> s[i] in r
  {
    if s == [] then []
    else if p(s[0]) then [s[0]] + Filter(s[1..], p)
    else Filter(s[1..], p)
  }

  lemma {:induction false} FilterAppend<T>(a: seq<T>, b: seq<T>, p: T -> bool)
    ensures Filter(a + b, p) == Filter(a, p) + Filter(b, p)
  {
    if a == [] {
      assert a + b == b;
    } else {
      assert (a + b)[1..] == a[1..] + b;
      FilterAppend(a[1..], b, p);
    }
  }

  lemma {:induction false} FilterNone<T>(s: seq<T>, p: T -> bool)
    requires forall i :: 0 <= i < |s| ==> !p(s[i])
    ensures Filter(s, p) == []
  {
    if s != [] {
      FilterNone(s[1..], p);
    }
  }

  lemma {:induction false} FilterAll<T>(s: seq<T>, p: T -> bool)
    requires forall i :: 0 <= i < |s| ==> p(s[i])
    ensures Filter(s, p) == s
  {
    if s != [] {
      FilterAll(s[1..], p);
    }
  }

  /** FlatMap over one more element appends that element's sequence. */
  lemma {:induction false} FlatMapSnoc<A, B>(s: seq<A>, f: A -> seq<B>, x: A)
    ensures FlatMap(s + [x], f) == FlatMap(s, f) + f(x)
  {
    if s == [] {
      assert [] + [x] == [x];
    } else {
      assert (s + [x])[1..] == s[1..] + [x];
      FlatMapSnoc(s[1..], f, x);
    }
  }

  /** DISTINCT of a sequence without repetitions is that sequence. */
  lemma {:induction false} DistinctOfNoDuplicates<T>(s: seq<T>)
    requires NoDuplicates(s)
    ensures Distinct(s) == s
  {
    if s != [] {
      var init := s[..|s| - 1];
      DistinctOfNoDuplicates(init);
      assert s[|s| - 1] !in init;
      assert init + [s[|s| - 1]] == s;
    }
  }
}
