/** What clauses deliver. */
module FlworMeaning {
  // The tuple streams of the clauses, said by index; and the order of the keys that an order-by
  // delivers.

  import opened Options
  import opened Sequences
  import opened Places
  import opened StableSort
  import opened Flwor

  // ----- order-by

  /** Of two keys, the first may come before the second: by greater-than on the items, ascending
      or descending; and empty keys and NaN come first exactly if the empty key is least and the
      order ascending, or greatest and descending. */
  predicate InKeyOrder(spec: OrderSpec, a: Key, b: Key) {
    if a.Atomic? && b.Atomic? then
      if spec.descending then !spec.gt(b.item, a.item) else !spec.gt(a.item, b.item)
    else if spec.emptyLeast != spec.descending then !b.Atomic? ==> !a.Atomic?
    else b.Atomic? ==> a.Atomic?
  }

  ghost predicate KeysInOrder(spec: OrderSpec, r: seq<Env>) {
    forall i, j :: 0 <= i < j < |r| ==> InKeyOrder(spec, spec.key(r[i]), spec.key(r[j]))
  }

  // Neither comes before the other.
  predicate Tied(spec: OrderSpec, a: Key, b: Key) {
    if a.Atomic? && b.Atomic? then !spec.gt(a.item, b.item) && !spec.gt(b.item, a.item) else a.Atomic? == b.Atomic?
  }

  lemma NotAfter(spec: OrderSpec, x: Env, y: Env)
    requires !Precedes(spec)(y, x)
    ensures InKeyOrder(spec, spec.key(x), spec.key(y))
  {
  }

  lemma TieIs(spec: OrderSpec, x: Env, y: Env)
    ensures Tied(spec, spec.key(x), spec.key(y)) <==> !Precedes(spec)(x, y) && !Precedes(spec)(y, x)
  {
  }

  /** An order-by delivers its tuples in the order of their keys. */
  lemma OrderByDelivers(spec: OrderSpec, s: seq<Env>)
    requires StrictWeakOrder(spec.gt)
    ensures var r := Denote(OrderBy(spec), s);
            multiset(r) == multiset(s) && KeysInOrder(spec, r)
  {
    hide Sort, Precedes, Filter;
    var r := Denote(OrderBy(spec), s);
    PrecedesIsStrictWeakOrder(spec);
    SortIsSorted(Precedes(spec), s);
    SortMembers(Precedes(spec), s);
    forall i, j | 0 <= i < j < |r| ensures InKeyOrder(spec, spec.key(r[i]), spec.key(r[j])) {
      NotAfter(spec, r[i], r[j]);
    }
  }

  /** Tuples with tied keys stay in the order in which they came. */
  lemma OrderByIsStable(spec: OrderSpec, s: seq<Env>, key: Key, x: Env)
    requires StrictWeakOrder(spec.gt) && spec.key(x) == key
    ensures var tied := (y: Env) => Tied(spec, key, spec.key(y));
            Filter(tied, Denote(OrderBy(spec), s)) == Filter(tied, s)
  {
    hide Sort, Precedes;
    PrecedesIsStrictWeakOrder(spec);
    SortIsStable(Precedes(spec), x, s);
    forall y ensures Tied(spec, key, spec.key(y)) <==> StableSort.Tied(Precedes(spec), x, y) {
      TieIs(spec, x, y);
    }
    var tied, ties := (y: Env) => Tied(spec, key, spec.key(y)), (y: Env) => StableSort.Tied(Precedes(spec), x, y);
    SameFilter(tied, ties, s);
    SameFilter(tied, ties, Sort(Precedes(spec), s));
    TiesAre(Precedes(spec), x, s);
    TiesAre(Precedes(spec), x, Sort(Precedes(spec), s));
  }

  lemma TiesAre(lt: (Env, Env) -> bool, x: Env, s: seq<Env>)
    ensures Ties(lt, x, s) == Filter((y: Env) => StableSort.Tied(lt, x, y), s)
  {
    SameFilter((y: Env) => StableSort.Tied(lt, x, y), y => StableSort.Tied(lt, x, y), s);
  }

  lemma {:induction false} SameFilter(p: Env -> bool, q: Env -> bool, s: seq<Env>)
    requires forall x :: p(x) == q(x)
    ensures Filter(p, s) == Filter(q, s)
  {
    if s != [] {
      SameFilter(p, q, s[1..]);
    }
  }

  /** So do the tuples of every chain that ends in an order-by come out. */
  lemma ChainInOrder(spec: OrderSpec, p: Chain, outer: Env)
    requires StrictWeakOrder(spec.gt)
    ensures KeysInOrder(spec, Meaning(Node(OrderBy(spec), p), outer))
  {
    OrderByDelivers(spec, Meaning(p, outer));
  }

  // ----- the other clauses

  /** For each tuple a for delivers as many as its expression has items, in their order, each with
      one item and, counted from one, its position; other variables keep their values. */
  lemma ForDelivers(n: Name, pos: Option<Name>, e: Expr, env: Env)
    ensures var r, items := Denote(For(n, pos, e), [env]), e.eval(env);
            && |r| == |items|
            && forall k :: 0 <= k < |items| ==>
                 && n in r[k] && r[k][n] == [items[k]]
                 && (pos != None && pos.value != n ==> pos.value in r[k] && r[k][pos.value] == [Integer(k + 1)])
                 && r[k].Keys == env.Keys + {n} + (if pos == None then {} else {pos.value})
                 && forall v :: v in env && v != n && pos != Some(v) ==> r[k][v] == env[v]
  {
    hide FlatMap;
    Singleton(_ => true, Expand(n, pos, e), env);
    BindItemsAt(n, pos, env, e.eval(env), 1);
  }

  /** The tuples of a for over several are those of each, in turn. */
  lemma ForInTurn(n: Name, pos: Option<Name>, e: Expr, a: seq<Env>, b: seq<Env>)
    ensures Denote(For(n, pos, e), a + b) == Denote(For(n, pos, e), a) + Denote(For(n, pos, e), b)
  {
    FlatMapConcat(Expand(n, pos, e), a, b);
  }

  /** A let binds the value of its expression in each tuple; a count binds the tuple's number,
      from one. */
  lemma LetAndCountDeliver(n: Name, e: Expr, s: seq<Env>)
    ensures var r := Denote(Let(n, e), s);
            |r| == |s| && forall k :: 0 <= k < |s| ==> r[k] == s[k][n := e.eval(s[k])]
    ensures var r := Denote(Count(n), s);
            |r| == |s| && forall k :: 0 <= k < |s| ==> r[k] == s[k][n := [Integer(k + 1)]]
  {
  }

  /** A where keeps, in order, exactly the tuples for which its test holds; and an And holds where
      all its operands do. */
  lemma WhereDelivers(test: Env -> bool, uses: set<Name>, s: seq<Env>) returns (ks: seq<nat>)
    ensures TakenAt(s, ks, Denote(Where(Test(test, uses)), s))
    ensures forall k: nat :: k in ks <==> k < |s| && test(s[k])
  {
    var cond := Test(test, uses);
    ks := FilterTaken(Holds(cond), s);
    assert forall k: nat | k < |s| :: Holds(cond)(s[k]) == test(s[k]);
  }

  lemma {:induction false} AndHolds(args: seq<Condition>, env: Env)
    ensures ConditionHolds(And(args), env) <==> forall k :: 0 <= k < |args| ==> ConditionHolds(args[k], env)
  {
    if args != [] {
      AndHolds(args[1..], env);
      assert forall k :: 0 < k < |args| ==> args[k] == args[1..][k - 1];
      assert ConditionHolds(And(args[1..]), env) == AllHold(args[1..], env);
    }
  }

  // What an And reads is what its operands read.
  lemma {:induction false} AndReads(args: seq<Condition>, n: Name)
    ensures n in ConditionUses(And(args)) <==> exists k :: 0 <= k < |args| && n in ConditionUses(args[k])
  {
    if args != [] {
      AndReads(args[1..], n);
      assert forall k :: 0 < k < |args| ==> args[k] == args[1..][k - 1];
      assert ConditionUses(And(args[1..])) == AllUses(args[1..]);
      if n in AllUses(args[1..]) {
        var k :| 0 <= k < |args[1..]| && n in ConditionUses(args[1..][k]);
        assert args[k + 1] == args[1..][k];
      }
    }
  }
}
