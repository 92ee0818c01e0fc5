/** The names that the push-back checks do not look at. */
module PushBackScope {
  // canPushLetBack asks whether the moved expression uses the skipped variables, but not whether
  // the skipped clause uses, or binds, the moved variable; canPushCountBack asks nothing at all.
  // Each lemma below gives the exact condition on the names under which the swap is right for
  // every expression.

  import opened Options
  import opened Sequences
  import opened StableSort
  import opened Flwor
  import opened PushBack

  // The expression that returns the value of v.
  function Read(v: Name, uses: set<Name>): Expr {
    Expr(env => if v in env then env[v] else [], uses, false)
  }

  function Constant(value: Value, uses: set<Name>): Expr {
    Expr(_ => value, uses, false)
  }

  const ONE: Value := [Integer(1)]
  const TWO: Value := [Integer(1), Integer(2)]

  ghost predicate SoundExpr(e: Expr, uses: set<Name>) {
    e.uses == uses && ReadsOnly(e.eval, e.uses)
  }

  // An expression of a let that may be moved.
  ghost predicate MovedExpr(e: Expr, uses: set<Name>) {
    SoundExpr(e, uses) && !e.creative
  }

  // let v := e, written after "for n at pos in f", may be evaluated before it.
  ghost predicate LetForSwap(v: Name, eUses: set<Name>, n: Name, pos: Option<Name>, fUses: set<Name>) {
    forall e, f, s :: MovedExpr(e, eUses) && SoundExpr(f, fUses) ==>
      Denote(For(n, pos, f), Denote(Let(v, e), s)) == Denote(Let(v, e), Denote(For(n, pos, f), s))
  }

  lemma LetForSwapExact(v: Name, eUses: set<Name>, n: Name, pos: Option<Name>, fUses: set<Name>)
    requires n !in eUses && PosNames(pos) !! eUses && pos != Some(n)
    ensures LetForSwap(v, eUses, n, pos, fUses) <==> v !in fUses && v != n && v !in PosNames(pos)
  {
    if v !in fUses && v != n && v !in PosNames(pos) {
      forall e, f, s | MovedExpr(e, eUses) && SoundExpr(f, fUses)
        ensures Denote(For(n, pos, f), Denote(Let(v, e), s)) == Denote(Let(v, e), Denote(For(n, pos, f), s))
      {
        LetPastFor(v, e, n, pos, f, s);
      }
    } else {
      var e := Constant(TWO, eUses);
      var f := if v in fUses then Read(v, fUses) else Constant(ONE, fUses);
      var env: Env := map[];
      assert MovedExpr(e, eUses) && SoundExpr(f, fUses);
      assert Denote(Let(v, e), [env]) == [env[v := TWO]];
      Singleton(_ => true, Expand(n, pos, f), env);
      Singleton(_ => true, Expand(n, pos, f), env[v := TWO]);
      var l, r := Denote(For(n, pos, f), Denote(Let(v, e), [env])), Denote(Let(v, e), Denote(For(n, pos, f), [env]));
      assert l == Expand(n, pos, f)(env[v := TWO]);
      assert r == Map(Bind(v, e), Expand(n, pos, f)(env));
      if v in fUses {
        assert |l| == 2 && |r| == 0;
      } else {
        assert r[0] == BindItem(n, pos, env, Integer(1), 1)[v := TWO];
        assert l[0] == BindItem(n, pos, env[v := TWO], Integer(1), 1);
        assert l[0][v] == ONE && r[0][v] == TWO;
      }
    }
  }

  ghost predicate LetLetSwap(v: Name, eUses: set<Name>, n: Name, fUses: set<Name>) {
    forall e, f, s :: MovedExpr(e, eUses) && SoundExpr(f, fUses) ==>
      Denote(Let(n, f), Denote(Let(v, e), s)) == Denote(Let(v, e), Denote(Let(n, f), s))
  }

  lemma LetLetSwapExact(v: Name, eUses: set<Name>, n: Name, fUses: set<Name>)
    requires n !in eUses
    ensures LetLetSwap(v, eUses, n, fUses) <==> v !in fUses && v != n
  {
    if v !in fUses && v != n {
      forall e, f, s | MovedExpr(e, eUses) && SoundExpr(f, fUses)
        ensures Denote(Let(n, f), Denote(Let(v, e), s)) == Denote(Let(v, e), Denote(Let(n, f), s))
      {
        LetPastLet(v, e, n, f, s);
      }
    } else {
      var e := Constant(TWO, eUses);
      var f := if v in fUses then Read(v, fUses) else Constant(ONE, fUses);
      assert MovedExpr(e, eUses) && SoundExpr(f, fUses);
      var env: Env := map[];
      assert Denote(Let(n, f), Denote(Let(v, e), [env]))[0] == env[v := TWO][n := f.eval(env[v := TWO])];
      assert Denote(Let(v, e), Denote(Let(n, f), [env]))[0] == env[n := f.eval(env)][v := TWO];
      if v == n {
        var e1 := Constant(ONE, eUses);
        var f2 := Constant(TWO, fUses);
        assert SoundExpr(e1, eUses) && SoundExpr(f2, fUses);
        assert Denote(Let(n, f2), Denote(Let(v, e1), [env]))[0][v] == TWO;
        assert Denote(Let(v, e1), Denote(Let(n, f2), [env]))[0][v] == ONE;
      } else {
        assert Denote(Let(n, f), Denote(Let(v, e), [env]))[0][n] == TWO;
        assert Denote(Let(v, e), Denote(Let(n, f), [env]))[0][n] == [];
      }
    }
  }

  // count n, written after "let v := f", may be evaluated before it.
  ghost predicate CountLetSwap(n: Name, v: Name, fUses: set<Name>) {
    forall f, s :: SoundExpr(f, fUses) ==>
      Denote(Let(v, f), Denote(Count(n), s)) == Denote(Count(n), Denote(Let(v, f), s))
  }

  lemma CountLetSwapExact(n: Name, v: Name, fUses: set<Name>)
    ensures CountLetSwap(n, v, fUses) <==> n !in fUses && n != v
  {
    if n !in fUses && n != v {
      forall f, s | SoundExpr(f, fUses)
        ensures Denote(Let(v, f), Denote(Count(n), s)) == Denote(Count(n), Denote(Let(v, f), s))
      {
        LetPastCount(v, f, n, s);
      }
    } else {
      var f := if n == v then Constant(TWO, fUses) else Read(n, fUses);
      assert SoundExpr(f, fUses);
      var env: Env := map[];
      var l, r := Denote(Let(v, f), Denote(Count(n), [env])), Denote(Count(n), Denote(Let(v, f), [env]));
      assert l[0] == env[n := ONE][v := f.eval(env[n := ONE])];
      assert r[0] == env[v := f.eval(env)][n := ONE];
      assert l[0][v] != r[0][v];
    }
  }

  ghost predicate LetCountSwap(v: Name, eUses: set<Name>, n: Name) {
    forall e, s :: MovedExpr(e, eUses) ==>
      Denote(Count(n), Denote(Let(v, e), s)) == Denote(Let(v, e), Denote(Count(n), s))
  }

  lemma LetCountSwapExact(v: Name, eUses: set<Name>, n: Name)
    requires n !in eUses
    ensures LetCountSwap(v, eUses, n) <==> v != n
  {
    if v != n {
      forall e, s | MovedExpr(e, eUses)
        ensures Denote(Count(n), Denote(Let(v, e), s)) == Denote(Let(v, e), Denote(Count(n), s))
      {
        LetPastCount(v, e, n, s);
      }
    } else {
      var e, env: Env := Constant(TWO, eUses), map[];
      assert MovedExpr(e, eUses);
      var l, r := Denote(Count(n), Denote(Let(v, e), [env])), Denote(Let(v, e), Denote(Count(n), [env]));
      assert l[0][v] == ONE && r[0][v] == TWO;
    }
  }

  ghost predicate LetWhereSwap(v: Name, eUses: set<Name>, condUses: set<Name>) {
    forall e, cond, s :: MovedExpr(e, eUses) && SoundCondition(cond) && ConditionUses(cond) == condUses ==>
      Denote(Where(cond), Denote(Let(v, e), s)) == Denote(Let(v, e), Denote(Where(cond), s))
  }

  lemma LetWhereSwapExact(v: Name, eUses: set<Name>, condUses: set<Name>)
    ensures LetWhereSwap(v, eUses, condUses) <==> v !in condUses
  {
    if v !in condUses {
      forall e, cond, s | MovedExpr(e, eUses) && SoundCondition(cond) && ConditionUses(cond) == condUses
        ensures Denote(Where(cond), Denote(Let(v, e), s)) == Denote(Let(v, e), Denote(Where(cond), s))
      {
        LetPastWhere(v, e, cond, s);
      }
    } else {
      var e := Constant(ONE, eUses);
      var cond := Test(env => v in env, condUses);
      assert MovedExpr(e, eUses) && SoundCondition(cond);
      var env: Env := map[];
      assert Denote(Let(v, e), [env]) == [env[v := ONE]];
      Singleton(Holds(cond), _ => [env], env);
      Singleton(Holds(cond), _ => [env], env[v := ONE]);
      assert |Denote(Where(cond), Denote(Let(v, e), [env]))| == 1;
      assert |Denote(Let(v, e), Denote(Where(cond), [env]))| == 0;
    }
  }

  ghost predicate LetOrderBySwap(v: Name, eUses: set<Name>, keyUses: set<Name>) {
    forall e, spec, s :: MovedExpr(e, eUses) && Sound(OrderBy(spec)) && spec.uses == keyUses ==>
      Denote(OrderBy(spec), Denote(Let(v, e), s)) == Denote(Let(v, e), Denote(OrderBy(spec), s))
  }

  lemma LetOrderBySwapExact(v: Name, eUses: set<Name>, keyUses: set<Name>)
    ensures LetOrderBySwap(v, eUses, keyUses) <==> v !in keyUses
  {
    if v !in keyUses {
      forall e, spec, s | MovedExpr(e, eUses) && Sound(OrderBy(spec)) && spec.uses == keyUses
        ensures Denote(OrderBy(spec), Denote(Let(v, e), s)) == Denote(Let(v, e), Denote(OrderBy(spec), s))
      {
        LetPastOrderBy(v, e, spec, s);
      }
    } else {
      // Before the let the tuples differ in the key, and after it they do not
      var e := Constant(ONE, eUses);
      var spec := OrderSpec(
        env => if v in env then Atomic(Integer(1)) else Empty, keyUses, (_, _) => false, false, true);
      assert MovedExpr(e, eUses) && Sound(OrderBy(spec));
      var bound: Env, free: Env := map[v := ONE, v + "'" := ONE], map[];
      var late := free[v := ONE];
      assert Bind(v, e)(bound) == bound && Bind(v, e)(free) == late;
      assert Denote(Let(v, e), [bound, free]) == [bound, late] && Denote(Let(v, e), [free, bound]) == [late, bound];
      SortTwo(Precedes(spec), bound, late);
      SortTwo(Precedes(spec), bound, free);
      assert v + "'" in bound && v + "'" !in late;
      assert spec.key(bound) == spec.key(late) == Atomic(Integer(1)) && spec.key(free) == Empty;
      assert Precedes(spec)(free, bound) && !Precedes(spec)(late, bound);
      assert Denote(OrderBy(spec), [bound, free]) == [free, bound];
      assert Denote(OrderBy(spec), [bound, late]) == [bound, late];
    }
  }

  lemma SortTwo<A>(lt: (A, A) -> bool, x: A, y: A)
    ensures Sort(lt, [x, y]) == if lt(y, x) then [y, x] else [x, y]
  {
    assert [x, y][1..] == [y] && [y][1..] == [];
    assert Insert(lt, y, []) == [y] && Sort(lt, [y]) == [y];
    assert Insert(lt, x, []) == [x];
    assert Sort(lt, [x, y]) == Insert(lt, x, [y]);
  }

  // ----- all kinds of swaps

  // d is c with other expressions: the names it binds and reads are the same.
  predicate SameNames(c: Clause, d: Clause) {
    Uses(d) == Uses(c) &&
    match c
    case For(n, pos, _) => d.For? && d.name == n && d.pos == pos
    case Let(n, _) => d.Let? && d.name == n
    case Where(_) => d.Where?
    case OrderBy(_) => d.OrderBy?
    case Count(n) => d.Count? && d.name == n
  }

  /** Whatever the expressions, with these names, c may change places with the clause p that it
      is written after. */
  ghost predicate SwapSound(c: Clause, p: Clause) {
    forall d, q, s ::
      SameNames(c, d) && SameNames(p, q) && Sound(d) && Sound(q) && (d.Let? ==> !d.expr.creative) ==>
        Denote(q, Denote(d, s)) == Denote(d, Denote(q, s))
  }

  /** Of the swaps that the code makes, those that capture no name are sound, and only those. */
  lemma SwapExact(c: Clause, p: Clause, grand: Chain)
    requires Pushable(c, Node(p, grand)) && (p.For? ==> p.pos != Some(p.name))
    ensures SwapSound(c, p) <==> NameSafe(c, p)
  {
    if NameSafe(c, p) {
      forall d, q, s | SameNames(c, d) && SameNames(p, q) && Sound(d) && Sound(q) && (d.Let? ==> !d.expr.creative)
        ensures Denote(q, Denote(d, s)) == Denote(d, Denote(q, s))
      {
        SwapMeaning(d, q, grand, s);
      }
    } else {
      CaptureIsUnsound(c, p, grand);
    }
  }

  lemma CaptureIsUnsound(c: Clause, p: Clause, grand: Chain)
    requires Pushable(c, Node(p, grand)) && (p.For? ==> p.pos != Some(p.name)) && !NameSafe(c, p)
    ensures !SwapSound(c, p)
  {
    hide Denote;
    match c {
      case Let(v, e) =>
        match p {
          case For(n, pos, f) =>
            LetForSwapExact(v, e.uses, n, pos, f.uses);
            var d, g, s :| MovedExpr(d, e.uses) && SoundExpr(g, f.uses)
              && Denote(For(n, pos, g), Denote(Let(v, d), s)) != Denote(Let(v, d), Denote(For(n, pos, g), s));
            assert SameNames(c, Let(v, d)) && SameNames(p, For(n, pos, g));
          case Let(n, f) =>
            LetLetSwapExact(v, e.uses, n, f.uses);
            var d, g, s :| MovedExpr(d, e.uses) && SoundExpr(g, f.uses)
              && Denote(Let(n, g), Denote(Let(v, d), s)) != Denote(Let(v, d), Denote(Let(n, g), s));
            assert SameNames(c, Let(v, d)) && SameNames(p, Let(n, g));
          case Where(cond) =>
            LetWhereSwapExact(v, e.uses, ConditionUses(cond));
            var d, q, s :| MovedExpr(d, e.uses) && SoundCondition(q) && ConditionUses(q) == ConditionUses(cond)
              && Denote(Where(q), Denote(Let(v, d), s)) != Denote(Let(v, d), Denote(Where(q), s));
            assert SameNames(c, Let(v, d)) && SameNames(p, Where(q));
          case OrderBy(spec) =>
            LetOrderBySwapExact(v, e.uses, spec.uses);
            var d, q, s :| MovedExpr(d, e.uses) && Sound(OrderBy(q)) && q.uses == spec.uses
              && Denote(OrderBy(q), Denote(Let(v, d), s)) != Denote(Let(v, d), Denote(OrderBy(q), s));
            assert SameNames(c, Let(v, d)) && SameNames(p, OrderBy(q));
          case Count(n) =>
            LetCountSwapExact(v, e.uses, n);
            var d, s :| MovedExpr(d, e.uses)
              && Denote(Count(n), Denote(Let(v, d), s)) != Denote(Let(v, d), Denote(Count(n), s));
            assert SameNames(c, Let(v, d)) && SameNames(p, Count(n));
        }
      case Count(m) =>
        CountLetSwapExact(m, p.name, p.expr.uses);
        var g, s :| SoundExpr(g, p.expr.uses)
          && Denote(Let(p.name, g), Denote(Count(m), s)) != Denote(Count(m), Denote(Let(p.name, g), s));
        assert SameNames(c, Count(m)) && SameNames(p, Let(p.name, g));
      case For(_, _, _) =>
      case Where(_) =>
      case OrderBy(_) =>
    }
  }

  /** A let that shadows an outer variable of an earlier for: the optimiser moves the let in
      front of the for, and the for then runs over the wrong sequence. */
  lemma ShadowingChangesMeaning()
    returns (ch: Chain, outer: Env)
    ensures AllSound(ch) && !SafeToOptimize(ch, true)
    ensures Meaning(Optimize(ch, true), outer) != Meaning(ch, outer)
  {
    var f, e := Read("x", {"x"}), Constant(ONE, {});
    var loop := Node(For("y", None, f), Root);
    ch := Node(Let("x", e), loop);
    outer := map["x" := TWO];
    assert Optimize(loop, true) == loop;
    assert Type(Let("x", e), Root, true) == Node(Let("x", e), Root);
    assert Optimize(ch, true) == Node(For("y", None, f), Node(Let("x", e), Root));
    Singleton(_ => true, Expand("y", None, f), outer);
    var inner := outer["x" := ONE];
    assert Meaning(Node(Let("x", e), Root), outer) == [inner];
    Singleton(_ => true, Expand("y", None, f), inner);
    assert Meaning(ch, outer) == Map(Bind("x", e), BindItems("y", None, outer, TWO, 1));
    assert Meaning(Optimize(ch, true), outer) == BindItems("y", None, inner, ONE, 1);
    assert |Meaning(ch, outer)| == 2 && |Meaning(Optimize(ch, true), outer)| == 1;
  }
}
