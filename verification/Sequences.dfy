/** Sequence combinators shared by the models: mapping, filtering and flat-mapping, with the
    laws by which they commute.  The meanings of tuple chains and of paths are built from them,
    and so are the streams that the iterators deliver. */
module Sequences {

  function Map<A, B>(f: A -> B, s: seq<A>): (r: seq<B>)
    ensures |r| == |s|
    ensures forall i :: 0 <= i < |s| ==> r[i] == f(s[i])
  {
    if s == [] then [] else [f(s[0])] + Map(f, s[1..])
  }

  function Filter<A>(p: A -> bool, s: seq<A>): (r: seq<A>)
    ensures forall x :: x in r ==> x in s && p(x)
    ensures forall x :: x in s && p(x) ==> x in r
  {
    if s == [] then []
    else if p(s[0]) then [s[0]] + Filter(p, s[1..])
    else Filter(p, s[1..])
  }

  function FlatMap<A, B>(f: A -> seq<B>, s: seq<A>): (r: seq<B>) {
    if s == [] then [] else f(s[0]) + FlatMap(f, s[1..])
  }

  lemma {:induction false} FilterConcat<A>(p: A -> bool, s: seq<A>, t: seq<A>)
    ensures Filter(p, s + t) == Filter(p, s) + Filter(p, t)
  {
    if s == [] {
      assert s + t == t;
    } else {
      assert (s + t)[1..] == s[1..] + t;
      FilterConcat(p, s[1..], t);
    }
  }

  lemma {:induction false} FlatMapConcat<A, B>(f: A -> seq<B>, s: seq<A>, t: seq<A>)
    ensures FlatMap(f, s + t) == FlatMap(f, s) + FlatMap(f, t)
  {
    if s == [] {
      assert s + t == t;
    } else {
      assert (s + t)[1..] == s[1..] + t;
      FlatMapConcat(f, s[1..], t);
    }
  }

  lemma {:induction false} FlatMapMember<A, B>(f: A -> seq<B>, s: seq<A>, y: B)
    ensures y in FlatMap(f, s) <==> exists x :: x in s && y in f(x)
  {
    if s != [] {
      FlatMapMember(f, s[1..], y);
      assert s == [s[0]] + s[1..];
      if x :| x in s && y in f(x) {
        assert x == s[0] || x in s[1..];
      }
    }
  }

  // A map that commutes with each expansion commutes with the flat-map.
  lemma {:induction false} MapFlatMap<A>(g: A -> A, f: A -> seq<A>, s: seq<A>)
    requires forall x :: x in s ==> Map(g, f(x)) == f(g(x))
    ensures Map(g, FlatMap(f, s)) == FlatMap(f, Map(g, s))
  {
    if s != [] {
      MapFlatMap(g, f, s[1..]);
      MapConcat(g, f(s[0]), FlatMap(f, s[1..]));
    }
  }

  lemma {:induction false} MapMap<A>(g: A -> A, h: A -> A, s: seq<A>)
    requires forall x :: x in s ==> g(h(x)) == h(g(x))
    ensures Map(g, Map(h, s)) == Map(h, Map(g, s))
  {
    if s != [] {
      MapMap(g, h, s[1..]);
    }
  }

  lemma MapConcat<A, B>(g: A -> B, s: seq<A>, t: seq<A>)
    ensures Map(g, s + t) == Map(g, s) + Map(g, t)
  {
    assert forall i :: 0 <= i < |s + t| ==> Map(g, s + t)[i] == (Map(g, s) + Map(g, t))[i];
  }

  // A test that cannot tell a tuple from its expansions commutes with the flat-map.
  lemma {:induction false} FilterFlatMap<A>(p: A -> bool, f: A -> seq<A>, s: seq<A>)
    requires forall x, y :: x in s && y in f(x) ==> p(y) == p(x)
    ensures Filter(p, FlatMap(f, s)) == FlatMap(f, Filter(p, s))
  {
    if s != [] {
      FilterFlatMap(p, f, s[1..]);
      FilterConcat(p, f(s[0]), FlatMap(f, s[1..]));
      FilterAllOrNone(p, f(s[0]), p(s[0]));
    }
  }

  lemma {:induction false} FilterAllOrNone<A>(p: A -> bool, s: seq<A>, keep: bool)
    requires forall x :: x in s ==> p(x) == keep
    ensures Filter(p, s) == if keep then s else []
  {
    if s != [] {
      FilterAllOrNone(p, s[1..], keep);
    }
  }

  lemma {:induction false} FilterMap<A>(p: A -> bool, g: A -> A, s: seq<A>)
    requires forall x :: x in s ==> p(g(x)) == p(x)
    ensures Filter(p, Map(g, s)) == Map(g, Filter(p, s))
  {
    if s != [] {
      FilterMap(p, g, s[1..]);
    }
  }

  lemma {:induction false} FilterFilter<A>(p: A -> bool, q: A -> bool, s: seq<A>)
    ensures Filter(p, Filter(q, s)) == Filter(q, Filter(p, s))
  {
    if s != [] {
      FilterFilter(p, q, s[1..]);
    }
  }

  // Filtering by both of two tests is filtering by one and then by the other.
  lemma {:induction false} FilterBoth<A>(p: A -> bool, q: A -> bool, both: A -> bool, s: seq<A>)
    requires forall x :: x in s ==> both(x) == (p(x) && q(x))
    ensures Filter(both, s) == Filter(q, Filter(p, s))
  {
    if s != [] {
      FilterBoth(p, q, both, s[1..]);
    }
  }

  lemma Singleton<A, B>(p: A -> bool, f: A -> seq<B>, x: A)
    ensures Filter(p, [x]) == if p(x) then [x] else []
    ensures FlatMap(f, [x]) == f(x)
  {
    assert FlatMap(f, []) == [];
    assert f(x) + [] == f(x);
  }
}
