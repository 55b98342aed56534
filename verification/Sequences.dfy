/** Facts about sequences used throughout: filtering, mapping and summing. */
module Sequences {

  function Filter<T>(f: T -> bool, s: seq<T>): seq<T> {
    if s == [] then []
    else Filter(f, s[..|s|-1]) + if f(s[|s|-1]) then [s[|s|-1]] else []
  }

  lemma {:induction false} FilterMembers<T>(f: T -> bool, s: seq<T>, x: T)
    ensures x in Filter(f, s) <==> x in s && f(x)
  {
    if s != [] {
      FilterMembers(f, s[..|s|-1], x);
      assert s == s[..|s|-1] + [s[|s|-1]];
    }
  }

  // out consists of the elements of s at the positions kept, which are those at which f holds.
  ghost predicate Picks<T>(f: T -> bool, s: seq<T>, out: seq<T>, kept: seq<nat>) {
    && |kept| == |out|
    && (forall k :: 0 <= k < |kept| ==> kept[k] < |s| && out[k] == s[kept[k]] && f(out[k]))
    && (forall i, k :: 0 <= i < k < |kept| ==> kept[i] < kept[k])
    && (forall n :: 0 <= n < |s| && f(s[n]) ==> n in kept)
  }

  // Filtering keeps exactly the positions at which f holds, in order.
  lemma {:induction false} FilterMeans<T>(f: T -> bool, s: seq<T>) returns (kept: seq<nat>)
    ensures Picks(f, s, Filter(f, s), kept)
  {
    kept := [];
    if s != [] {
      var front, x := s[..|s|-1], s[|s|-1];
      assert s == front + [x];
      kept := FilterMeans(f, front);
      PicksSnoc(f, front, x, Filter(f, front), kept);
      kept := kept + if f(x) then [|front|] else [];
    }
  }

  lemma PicksSnoc<T>(f: T -> bool, s: seq<T>, x: T, out: seq<T>, kept: seq<nat>)
    requires Picks(f, s, out, kept)
    ensures Picks(f, s + [x], out + if f(x) then [x] else [], kept + if f(x) then [|s|] else [])
  {
    var kept' := kept + if f(x) then [|s|] else [];
    forall n | 0 <= n < |s + [x]| && f((s + [x])[n])
      ensures n in kept'
    {
      if n < |s| {
        assert n in kept;
      } else {
        assert kept'[|kept|] == n;
      }
    }
  }

  lemma FilterSnoc<T>(f: T -> bool, s: seq<T>)
    requires s != []
    ensures Filter(f, s) == Filter(f, s[..|s|-1]) + (if f(s[|s|-1]) then [s[|s|-1]] else [])
  {
  }

  lemma FilterNext<T>(f: T -> bool, s: seq<T>, n: nat)
    requires n < |s|
    ensures Filter(f, s[..n+1]) == Filter(f, s[..n]) + (if f(s[n]) then [s[n]] else [])
  {
    assert s[..n+1][..n] == s[..n];
  }

  lemma {:induction false} FilterConcat<T>(f: T -> bool, s: seq<T>, t: seq<T>)
    ensures Filter(f, s + t) == Filter(f, s) + Filter(f, t)
  {
    if t == [] {
      assert s + t == s;
    } else {
      var last := |t| - 1;
      FilterConcat(f, s, t[..last]);
      FilterSnoc(f, s + t);
      FilterSnoc(f, t);
      assert (s + t)[..|s + t| - 1] == s + t[..last];
    }
  }

  lemma FilterCons<T>(f: T -> bool, x: T, s: seq<T>)
    ensures Filter(f, [x] + s) == (if f(x) then [x] else []) + Filter(f, s)
  {
    FilterConcat(f, [x], s);
    assert [x][..0] == [] && Filter(f, [x]) == if f(x) then [x] else [];
  }

  lemma {:induction false} FilterAll<T>(f: T -> bool, s: seq<T>)
    requires forall i :: 0 <= i < |s| ==> f(s[i])
    ensures Filter(f, s) == s
  {
    if s != [] {
      FilterAll(f, s[..|s|-1]);
    }
  }

  lemma {:induction false} FilterFilter<T(!new)>(f: T -> bool, g: T -> bool, s: seq<T>)
    requires forall x :: g(x) ==> f(x)
    ensures Filter(g, Filter(f, s)) == Filter(g, s)
  {
    if s != [] {
      var x := s[|s|-1];
      FilterFilter(f, g, s[..|s|-1]);
      FilterConcat(g, Filter(f, s[..|s|-1]), [x]);
      assert [x][..0] == [];
      assert Filter(g, [x]) == if g(x) then [x] else [];
      if f(x) {
        assert Filter(f, s) == Filter(f, s[..|s|-1]) + [x];
      } else {
        assert Filter(f, s) == Filter(f, s[..|s|-1]);
      }
    }
  }

  function Map<T, U>(f: T -> U, s: seq<T>): (r: seq<U>)
    ensures |r| == |s| && forall i :: 0 <= i < |s| ==> r[i] == f(s[i])
  {
    seq(|s|, i requires 0 <= i < |s| => f(s[i]))
  }

  lemma MapSnoc<T, U>(f: T -> U, s: seq<T>, x: T)
    ensures Map(f, s + [x]) == Map(f, s) + [f(x)]
  {
  }

  lemma MapCons<T, U>(f: T -> U, x: T, s: seq<T>)
    ensures Map(f, [x] + s) == [f(x)] + Map(f, s)
  {
  }

  lemma TakeSnoc<T>(s: seq<T>, n: nat)
    requires n < |s|
    ensures s[..n+1] == s[..n] + [s[n]]
    ensures s[..n+1][..n] == s[..n]
  {
  }
}
