/** Declared tuple members. */
module TupleTypes {
  // The cardinalities that static typing declares the variables of a tuple with, and where they
  // are those of the bindings in scope.

  import opened Options
  import opened Sequences
  import opened StableSort
  import opened Flwor
  import opened PushBackNormal

  // The variables that a clause binds, and whether it binds exactly one item; of a let that is
  // known from its expression.
  function Members(c: Clause, one: Expr -> bool): map<Name, bool> {
    match c
    case For(n, pos, _) => map[n := true] + (match pos case None => map[] case Some(p) => map[p := true])
    case Let(n, e) => map[n := one(e)]
    case Count(n) => map[n := true]
    case _ => map[]
  }

  /** What is declared: the members of the earlier clauses overwrite the clause's own. */
  function Declared(ch: Chain, one: Expr -> bool): map<Name, bool> {
    match ch
    case Root => map[]
    case Node(c, p) => Members(c, one) + Declared(p, one)
  }

  /** What is in scope: a clause hides the members of the earlier ones. */
  function InScope(ch: Chain, one: Expr -> bool): map<Name, bool> {
    match ch
    case Root => map[]
    case Node(c, p) => InScope(p, one) + Members(c, one)
  }

  // The members say of a tuple only what is so.
  ghost predicate True(members: map<Name, bool>, env: Env) {
    forall n :: n in members && members[n] ==> n in env && |env[n]| == 1
  }

  // Static types of expressions are right.
  ghost predicate WellTyped(ch: Chain, one: Expr -> bool) {
    match ch
    case Root => true
    case Node(c, p) =>
      && WellTyped(p, one)
      && (c.Let? && one(c.expr) ==> forall env :: |c.expr.eval(env)| == 1)
  }

  /** Of every tuple the types in scope are right. */
  lemma {:induction false} InScopeIsTrue(ch: Chain, one: Expr -> bool, outer: Env)
    requires WellTyped(ch, one)
    ensures forall env :: env in Meaning(ch, outer) ==> True(InScope(ch, one), env)
  {
    match ch {
      case Root =>
      case Node(c, p) =>
        InScopeIsTrue(p, one, outer);
        forall env | env in Meaning(ch, outer) ensures True(InScope(ch, one), env) {
          ClauseIsTrue(c, Meaning(p, outer), InScope(p, one), one, env);
        }
    }
  }

  lemma ClauseIsTrue(c: Clause, s: seq<Env>, members: map<Name, bool>, one: Expr -> bool, env: Env)
    requires forall e :: e in s ==> True(members, e)
    requires c.Let? && one(c.expr) ==> forall e :: |c.expr.eval(e)| == 1
    requires env in Denote(c, s)
    ensures True(members + Members(c, one), env)
  {
    var before := Origin(c, s, env);
    assert True(members, before);
  }

  // A tuple of the clause comes from one of its parent's, by binding the clause's variables.
  lemma Origin(c: Clause, s: seq<Env>, env: Env) returns (before: Env)
    requires env in Denote(c, s)
    ensures before in s && forall n :: n in before && n !in Binders(c) ==> n in env && env[n] == before[n]
    ensures forall n :: n in Binders(c) ==> n in env && if c.Let? then env[n] == c.expr.eval(before) else |env[n]| == 1
    ensures Binders(c) == {} ==> env == before
  {
    hide Sort, Filter, FlatMap;
    match c {
      case For(n, pos, e) =>
        FlatMapMember(Expand(n, pos, e), s, env);
        before :| before in s && env in Expand(n, pos, e)(before);
        BindItemsAt(n, pos, before, e.eval(before), 1);
      case Let(n, e) =>
        var k :| 0 <= k < |Denote(c, s)| && Denote(c, s)[k] == env;
        before := s[k];
      case Where(cond) =>
        FilterMember(Holds(cond), s, env);
        before := env;
      case OrderBy(spec) =>
        SortMembers(Precedes(spec), s);
        before := env;
      case Count(n) =>
        var k :| 0 <= k < |Denote(c, s)| && Denote(c, s)[k] == env;
        before := s[k];
    }
  }

  lemma {:induction false} FilterMember(p: Env -> bool, s: seq<Env>, env: Env)
    requires env in Filter(p, s)
    ensures env in s
  {
    if s != [] && env != s[0] {
      FilterMember(p, s[1..], env);
    }
  }

  /** A clause other than let keeps right declarations right, also where it re-binds a name. */
  lemma OthersDeclaredTrue(c: Clause, p: Chain, one: Expr -> bool, s: seq<Env>, env: Env)
    requires !c.Let? && env in Denote(c, s)
    requires forall e :: e in s ==> True(Declared(p, one), e)
    ensures True(Declared(Node(c, p), one), env)
  {
    var before := Origin(c, s, env);
    assert True(Declared(p, one), before);
  }

  /** A let keeps them right exactly if it does not bind other than one item to a name that an
      earlier clause has declared to be one item. */
  lemma LetDeclaredExact(n: Name, e: Expr, p: Chain, one: Expr -> bool, env: Env)
    requires True(Declared(p, one), env) && (one(e) ==> |e.eval(env)| == 1)
    ensures True(Declared(Node(Let(n, e), p), one), Bind(n, e)(env)) <==>
              (n in Declared(p, one) && Declared(p, one)[n] ==> |e.eval(env)| == 1)
  {
    var declared, after := Declared(Node(Let(n, e), p), one), Bind(n, e)(env);
    if n in Declared(p, one) && Declared(p, one)[n] {
      assert n in declared && declared[n] && after[n] == e.eval(env);
    }
  }

  // No clause binds a name that an earlier clause binds.
  predicate Distinct(ch: Chain) {
    match ch
    case Root => true
    case Node(c, p) => Distinct(p) && Bound(p) !! Binders(c)
  }

  function Bound(ch: Chain): set<Name> {
    match ch
    case Root => {}
    case Node(c, p) => Bound(p) + Binders(c)
  }

  /** Where no name is bound twice, what is declared is what is in scope, and so it is right. */
  lemma {:induction false} DistinctDeclared(ch: Chain, one: Expr -> bool)
    requires Distinct(ch)
    ensures Declared(ch, one) == InScope(ch, one) && Declared(ch, one).Keys == Bound(ch)
  {
    match ch {
      case Root =>
      case Node(c, p) =>
        DistinctDeclared(p, one);
        assert Members(c, one).Keys == Binders(c);
    }
  }

  // ----- which clause declares a name

  predicate BindsName(c: Clause, n: Name) {
    match c
    case For(v, pos, _) => v == n || pos == Some(n)
    case Let(v, _) => v == n
    case Count(v) => v == n
    case _ => false
  }

  /** A name is declared by the first clause that binds it: one item if that is a for or a count,
      or a let of an expression of one item. */
  lemma {:induction false} FirstDeclares(ch: Chain, one: Expr -> bool, n: Name, i: nat)
    requires var s := Clauses(ch); i < |s| && BindsName(s[i], n) && forall m :: 0 <= m < i ==> !BindsName(s[m], n)
    ensures n in Declared(ch, one)
    ensures Declared(ch, one)[n] <==> (Clauses(ch)[i].Let? ==> one(Clauses(ch)[i].expr))
  {
    var s, p := Clauses(ch), ch.parent;
    assert s == Clauses(p) + [ch.clause];
    if i == |s| - 1 {
      assert forall m :: 0 <= m < |Clauses(p)| ==> Clauses(p)[m] == s[m];
      NotDeclared(p, one, n);
    } else {
      assert forall m :: 0 <= m <= i ==> Clauses(p)[m] == s[m];
      FirstDeclares(p, one, n, i);
    }
  }

  lemma {:induction false} NotDeclared(ch: Chain, one: Expr -> bool, n: Name)
    requires forall m :: 0 <= m < |Clauses(ch)| ==> !BindsName(Clauses(ch)[m], n)
    ensures n !in Declared(ch, one)
  {
    if ch.Node? {
      var s, p := Clauses(ch), ch.parent;
      assert s == Clauses(p) + [ch.clause] && s[|s| - 1] == ch.clause;
      assert forall m :: 0 <= m < |Clauses(p)| ==> Clauses(p)[m] == s[m];
      NotDeclared(p, one, n);
    }
  }
}
