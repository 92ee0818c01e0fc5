/** The stable sort of a sequence under a strict weak order, and how it commutes with the
    other sequence combinators.  Order-by sorts tuples with it, path expressions sort nodes, and
    the distance filter sorts positions. */
module StableSort {
  import opened Sequences

  // Names three elements, so that the laws below are used only where a proof asks for them.
  ghost predicate Triple<A>(x: A, y: A, z: A) {
    true
  }

  /** Irreflexive and transitive, with a transitive complement. */
  ghost predicate StrictWeakOrder<A(!new)>(lt: (A, A) -> bool) {
    forall x, y, z {:trigger Triple(x, y, z)} :: Triple(x, y, z) ==>
      && !lt(x, x)
      && (lt(x, y) && lt(y, z) ==> lt(x, z))
      && (!lt(x, y) && !lt(y, z) ==> !lt(x, z))
  }

  lemma OrderLaws<A(!new)>(lt: (A, A) -> bool, x: A, y: A, z: A)
    requires StrictWeakOrder(lt)
    ensures !lt(x, x)
    ensures lt(x, y) && lt(y, z) ==> lt(x, z)
    ensures !lt(x, y) && !lt(y, z) ==> !lt(x, z)
    ensures lt(x, y) ==> !lt(y, x)
  {
    assert Triple(x, y, z) && Triple(x, y, x);
  }

  // x goes in front of the first element that it does not have to follow.
  function Insert<A>(lt: (A, A) -> bool, x: A, s: seq<A>): (r: seq<A>)
    ensures |r| == |s| + 1
  {
    if s == [] then [x]
    else if lt(s[0], x) then [s[0]] + Insert(lt, x, s[1..])
    else [x] + s
  }

  function Sort<A>(lt: (A, A) -> bool, s: seq<A>): (r: seq<A>)
    ensures |r| == |s|
  {
    if s == [] then [] else Insert(lt, s[0], Sort(lt, s[1..]))
  }

  ghost predicate Sorted<A>(lt: (A, A) -> bool, s: seq<A>) {
    forall i, j :: 0 <= i < j < |s| ==> !lt(s[j], s[i])
  }

  ghost predicate Tied<A>(lt: (A, A) -> bool, x: A, y: A) {
    !lt(x, y) && !lt(y, x)
  }

  // The elements that tie with x, in the order in which they occur.
  ghost function Ties<A>(lt: (A, A) -> bool, x: A, s: seq<A>): seq<A> {
    Filter(y => Tied(lt, x, y), s)
  }

  /** Where Insert puts x: after exactly the elements less than x. */
  lemma {:induction false} InsertSplit<A(!new)>(lt: (A, A) -> bool, x: A, s: seq<A>) returns (k: nat)
    requires StrictWeakOrder(lt) && Sorted(lt, s)
    ensures k <= |s|
    ensures Insert(lt, x, s) == s[..k] + [x] + s[k..]
    ensures forall i :: 0 <= i < k ==> lt(s[i], x)
    ensures forall i :: k <= i < |s| ==> !lt(s[i], x)
  {
    if s == [] || !lt(s[0], x) {
      k := 0;
      forall i | 0 <= i < |s| ensures !lt(s[i], x) {
        OrderLaws(lt, s[i], s[0], x);
      }
    } else {
      var tail := s[1..];
      assert forall i :: 0 <= i < |tail| ==> tail[i] == s[i + 1];
      var k' := InsertSplit(lt, x, tail);
      k := k' + 1;
      assert forall i :: 1 <= i < |s| ==> s[i] == tail[i - 1];
      assert s[..k] + [x] + s[k..] == [s[0]] + (tail[..k'] + [x] + tail[k'..]);
    }
  }

  lemma {:induction false} SortMembers<A>(lt: (A, A) -> bool, s: seq<A>)
    ensures multiset(Sort(lt, s)) == multiset(s)
    ensures forall x :: x in Sort(lt, s) ==> x in s
  {
    if s != [] {
      SortMembers(lt, s[1..]);
      assert s == [s[0]] + s[1..];
      InsertMembers(lt, s[0], Sort(lt, s[1..]));
      forall x | x in Sort(lt, s) ensures x in s {
        assert x in multiset(Sort(lt, s));
      }
    }
  }

  lemma {:induction false} InsertMembers<A>(lt: (A, A) -> bool, x: A, s: seq<A>)
    ensures multiset(Insert(lt, x, s)) == multiset{x} + multiset(s)
  {
    if s != [] {
      assert s == [s[0]] + s[1..];
      InsertMembers(lt, x, s[1..]);
    }
  }

  lemma {:induction false} SortIsSorted<A(!new)>(lt: (A, A) -> bool, s: seq<A>)
    requires StrictWeakOrder(lt)
    ensures Sorted(lt, Sort(lt, s))
  {
    if s != [] {
      SortIsSorted(lt, s[1..]);
      InsertIsSorted(lt, s[0], Sort(lt, s[1..]));
    }
  }

  lemma InsertIsSorted<A(!new)>(lt: (A, A) -> bool, x: A, t: seq<A>)
    requires StrictWeakOrder(lt) && Sorted(lt, t)
    ensures Sorted(lt, Insert(lt, x, t))
  {
    var k := InsertSplit(lt, x, t);
    var r := Insert(lt, x, t);
    forall i, j | 0 <= i < j < |r| ensures !lt(r[j], r[i]) {
      if i < k {
        assert lt(r[i], x);
        assert j == k || !lt(r[j], r[i]);
        OrderLaws(lt, r[i], x, r[i]);
      } else if i > k {
        assert r[i] == t[i - 1] && r[j] == t[j - 1];
      } else {
        assert r[j] == t[j - 1];
      }
    }
  }

  lemma {:induction false} SortIsStable<A(!new)>(lt: (A, A) -> bool, x: A, s: seq<A>)
    requires StrictWeakOrder(lt)
    ensures Ties(lt, x, Sort(lt, s)) == Ties(lt, x, s)
  {
    if s != [] {
      var p := y => Tied(lt, x, y);
      SortIsStable(lt, x, s[1..]);
      SortIsSorted(lt, s[1..]);
      FilterInsertFirst(lt, p, s[0], Sort(lt, s[1..]), x);
    }
  }

  // An inserted element that passes the test comes first among those that do.
  lemma {:induction false} FilterInsertFirst<A(!new)>(lt: (A, A) -> bool, p: A -> bool, x: A, t: seq<A>, tie: A)
    requires StrictWeakOrder(lt)
    requires forall y :: p(y) <==> Tied(lt, tie, y)
    ensures Filter(p, Insert(lt, x, t)) == if p(x) then [x] + Filter(p, t) else Filter(p, t)
  {
    if t != [] && lt(t[0], x) {
      FilterInsertFirst(lt, p, x, t[1..], tie);
      if p(x) {
        assert !p(t[0]) by {
          OrderLaws(lt, x, tie, t[0]);
          OrderLaws(lt, tie, t[0], x);
          OrderLaws(lt, t[0], tie, x);
          OrderLaws(lt, t[0], x, tie);
        }
      }
    }
  }

  /** Sorted order and the order of ties fix the sequence: a stable sort has one result. */
  lemma {:induction false} StableSortUnique<A(!new)>(lt: (A, A) -> bool, s: seq<A>, t: seq<A>)
    requires StrictWeakOrder(lt)
    requires Sorted(lt, s) && Sorted(lt, t)
    requires multiset(s) == multiset(t)
    requires forall x :: Ties(lt, x, s) == Ties(lt, x, t)
    ensures s == t
  {
    hide Ties, Tied, Sorted;
    if s == [] {
      assert |multiset(t)| == 0;
    } else {
      assert Sorted(lt, s[1..]) && Sorted(lt, t[1..]) by { TailSorted(lt, s); TailSorted(lt, t); }
      SameHead(lt, s, t);
      TailMultiset(s);
      TailMultiset(t);
      forall x ensures Ties(lt, x, s[1..]) == Ties(lt, x, t[1..]) {
        TiesOfTail(lt, x, s);
        TiesOfTail(lt, x, t);
      }
      StableSortUnique(lt, s[1..], t[1..]);
    }
  }

  lemma TailMultiset<A>(s: seq<A>)
    requires s != []
    ensures multiset(s[1..]) == multiset(s) - multiset{s[0]}
  {
    assert s == [s[0]] + s[1..];
  }

  lemma TailSorted<A>(lt: (A, A) -> bool, s: seq<A>)
    requires Sorted(lt, s)
    ensures s != [] ==> Sorted(lt, s[1..])
  {
  }

  lemma TiesOfTail<A(!new)>(lt: (A, A) -> bool, x: A, s: seq<A>)
    requires s != []
    ensures Ties(lt, x, s[1..]) == if Tied(lt, x, s[0]) then Ties(lt, x, s)[1..] else Ties(lt, x, s)
  {
  }

  lemma SameHead<A(!new)>(lt: (A, A) -> bool, s: seq<A>, t: seq<A>)
    requires StrictWeakOrder(lt)
    requires Sorted(lt, s) && Sorted(lt, t)
    requires s != [] && multiset(s) == multiset(t)
    requires forall x :: Ties(lt, x, s) == Ties(lt, x, t)
    ensures t != [] && s[0] == t[0]
  {
    assert |multiset(s)| == |multiset(t)|;
    assert s[0] in multiset(t) && t[0] in multiset(s);
    var i :| 0 <= i < |s| && s[i] == t[0];
    var j :| 0 <= j < |t| && t[j] == s[0];
    OrderLaws(lt, s[0], t[0], s[0]);
    OrderLaws(lt, t[0], s[0], t[0]);
    assert Tied(lt, s[0], s[0]) && Tied(lt, s[0], t[0]);
    assert Ties(lt, s[0], s)[0] == s[0];
    assert Ties(lt, s[0], t)[0] == t[0];
  }

  // Sorting and filtering commute.
  lemma {:induction false} FilterSort<A(!new)>(lt: (A, A) -> bool, p: A -> bool, s: seq<A>)
    requires StrictWeakOrder(lt)
    ensures Filter(p, Sort(lt, s)) == Sort(lt, Filter(p, s))
  {
    if s != [] {
      FilterSort(lt, p, s[1..]);
      SortIsSorted(lt, s[1..]);
      FilterInsert(lt, p, s[0], Sort(lt, s[1..]));
    }
  }

  lemma {:induction false} FilterInsert<A(!new)>(lt: (A, A) -> bool, p: A -> bool, x: A, s: seq<A>)
    requires StrictWeakOrder(lt) && Sorted(lt, s)
    ensures Filter(p, Insert(lt, x, s)) == if p(x) then Insert(lt, x, Filter(p, s)) else Filter(p, s)
  {
    if s != [] {
      if lt(s[0], x) {
        FilterInsert(lt, p, x, s[1..]);
      } else {
        var k := InsertSplit(lt, x, s);
        assert Insert(lt, x, s) == [x] + s;
        var t := Filter(p, s);
        if t != [] {
          assert t[0] in s;
          var i :| 0 <= i < |s| && s[i] == t[0];
          OrderLaws(lt, s[i], s[0], x);
        }
      }
    }
  }

  // Sorting commutes with a map that does not change how elements compare.
  lemma {:induction false} MapSort<A>(lt: (A, A) -> bool, g: A -> A, s: seq<A>)
    requires forall x, y :: x in s && y in s ==> lt(g(x), g(y)) == lt(x, y)
    ensures Map(g, Sort(lt, s)) == Sort(lt, Map(g, s))
  {
    if s != [] {
      MapSort(lt, g, s[1..]);
      var t := Sort(lt, s[1..]);
      SortMembers(lt, s[1..]);
      MapInsert(lt, g, s[0], t);
    }
  }

  lemma {:induction false} MapInsert<A>(lt: (A, A) -> bool, g: A -> A, x: A, s: seq<A>)
    requires forall y :: y in s ==> lt(g(y), g(x)) == lt(y, x)
    ensures Map(g, Insert(lt, x, s)) == Insert(lt, g(x), Map(g, s))
  {
    if s != [] {
      MapInsert(lt, g, x, s[1..]);
    }
  }

  // Sorting commutes with an expansion whose elements compare as their origin does.
  lemma {:induction false} FlatMapSort<A(!new)>(lt: (A, A) -> bool, f: A -> seq<A>, s: seq<A>)
    requires StrictWeakOrder(lt)
    requires forall a, x :: a in s && x in f(a) ==> Tied(lt, a, x)
    ensures FlatMap(f, Sort(lt, s)) == Sort(lt, FlatMap(f, s))
  {
    if s != [] {
      FlatMapSort(lt, f, s[1..]);
      SortIsSorted(lt, s[1..]);
      SortMembers(lt, s[1..]);
      FlatMapInsert(lt, f, s[0], Sort(lt, s[1..]), FlatMap(f, s[1..]));
    }
  }

  lemma FlatMapInsert<A(!new)>(lt: (A, A) -> bool, f: A -> seq<A>, x: A, t: seq<A>, rest: seq<A>)
    requires StrictWeakOrder(lt) && Sorted(lt, t)
    requires Sort(lt, rest) == FlatMap(f, t)
    requires forall a, y :: (a == x || a in t) && y in f(a) ==> Tied(lt, a, y)
    ensures FlatMap(f, Insert(lt, x, t)) == Sort(lt, f(x) + rest)
  {
    var k := InsertSplit(lt, x, t);
    var pre, post := FlatMap(f, t[..k]), FlatMap(f, t[k..]);
    assert FlatMap(f, Insert(lt, x, t)) == pre + f(x) + post by {
      FlatMapConcat(f, t[..k] + [x], t[k..]);
      FlatMapConcat(f, t[..k], [x]);
      assert FlatMap(f, [x]) == f(x);
    }
    assert FlatMap(f, t) == pre + post by {
      FlatMapConcat(f, t[..k], t[k..]);
      assert t == t[..k] + t[k..];
    }
    forall y | y in pre ensures lt(y, x) {
      FlatMapMember(f, t[..k], y);
      var a :| a in t[..k] && y in f(a);
      TiedCompare(lt, a, y, x);
    }
    forall y | y in post ensures !lt(y, x) {
      FlatMapMember(f, t[k..], y);
      var a :| a in t[k..] && y in f(a);
      TiedCompare(lt, a, y, x);
    }
    SortBlock(lt, x, f(x), rest, pre, post);
  }

  lemma TiedCompare<A(!new)>(lt: (A, A) -> bool, a: A, x: A, y: A)
    requires StrictWeakOrder(lt) && Tied(lt, a, x)
    ensures lt(x, y) == lt(a, y) && lt(y, x) == lt(y, a)
  {
    OrderLaws(lt, x, a, y);
    OrderLaws(lt, a, x, y);
    OrderLaws(lt, y, a, x);
    OrderLaws(lt, y, x, a);
  }

  // Putting a block of tied elements in front of s puts it, as a block, into the sorted s.
  lemma {:induction false} SortBlock<A(!new)>(lt: (A, A) -> bool, a: A, block: seq<A>, s: seq<A>, pre: seq<A>,
      post: seq<A>)
    requires StrictWeakOrder(lt)
    requires Sort(lt, s) == pre + post
    requires forall x :: x in block ==> Tied(lt, a, x)
    requires forall x :: x in pre ==> lt(x, a)
    requires forall x :: x in post ==> !lt(x, a)
    ensures Sort(lt, block + s) == pre + block + post
  {
    if block == [] {
      assert block + s == s;
      assert pre + block + post == pre + post;
    } else {
      assert (block + s)[1..] == block[1..] + s;
      SortBlock(lt, a, block[1..], s, pre, post);
      var x := block[0];
      forall y | y in pre ensures lt(y, x) {
        TiedCompare(lt, a, x, y);
      }
      forall y | y in block[1..] + post ensures !lt(y, x) {
        TiedCompare(lt, a, x, y);
      }
      assert pre + block[1..] + post == pre + (block[1..] + post);
      InsertAfter(lt, x, pre, block[1..] + post);
      assert pre + [x] + (block[1..] + post) == pre + block + post;
    }
  }

  lemma {:induction false} InsertAfter<A>(lt: (A, A) -> bool, x: A, pre: seq<A>, post: seq<A>)
    requires forall y :: y in pre ==> lt(y, x)
    requires post != [] ==> !lt(post[0], x)
    ensures Insert(lt, x, pre + post) == pre + [x] + post
  {
    if pre == [] {
      assert pre + post == post;
    } else {
      assert (pre + post)[1..] == pre[1..] + post;
      InsertAfter(lt, x, pre[1..], post);
      assert [pre[0]] + (pre[1..] + [x] + post) == pre + [x] + post;
    }
  }
}
