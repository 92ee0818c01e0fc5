/** FLWOR tuple chains. */
module Flwor {
  // The clauses, the tuple stream each one denotes, and the laws by which two neighbouring
  // clauses may change places.

  import opened Options
  import opened Sequences
  import opened StableSort

  type Name = string

  datatype Item = Integer(value: int) | Opaque(id: nat)

  type Value = seq<Item>

  // A tuple of variable bindings, together with the variables in scope outside the FLWOR.
  type Env = map<Name, Value>

  /** An expression with what its static analysis reports: the variables it may read and
      whether it constructs nodes. */
  datatype Expr = Expr(eval: Env -> Value, uses: set<Name>, creative: bool)

  // A where condition: a test, or the And operator over further conditions.
  datatype Condition =
    | Test(holds: Env -> bool, reads_: set<Name>)
    | And(args: seq<Condition>)

  // The first item of an order key; nothing and NaN are both kept as "no sort item".
  datatype Key = Empty | NaN | Atomic(item: Item)

  datatype OrderSpec = OrderSpec(
    key: Env -> Key, uses: set<Name>, gt: (Item, Item) -> bool, descending: bool, emptyLeast: bool)

  datatype Clause =
    | For(name: Name, pos: Option<Name>, expr: Expr)
    | Let(name: Name, expr: Expr)
    | Where(cond: Condition)
    | OrderBy(spec: OrderSpec)
    | Count(name: Name)

  /** A clause linked to the clause its tuples come from; Root stands for the context tuple. */
  datatype Chain = Root | Node(clause: Clause, parent: Chain)

  // ----- what static analysis reports

  function ConditionUses(c: Condition): set<Name> {
    match c
    case Test(_, u) => u
    case And(args) => AllUses(args)
  }

  function AllUses(args: seq<Condition>): set<Name> {
    if args == [] then {} else ConditionUses(args[0]) + AllUses(args[1..])
  }

  function PosNames(pos: Option<Name>): set<Name> {
    match pos case None => {} case Some(n) => {n}
  }

  function Binders(c: Clause): set<Name> {
    match c
    case For(n, pos, _) => {n} + PosNames(pos)
    case Let(n, _) => {n}
    case Count(n) => {n}
    case _ => {}
  }

  function Uses(c: Clause): set<Name> {
    match c
    case For(_, _, e) => e.uses
    case Let(_, e) => e.uses
    case Where(cond) => ConditionUses(cond)
    case OrderBy(spec) => spec.uses
    case Count(_) => {}
  }

  // ----- denotation

  function ConditionHolds(c: Condition, env: Env): bool {
    match c
    case Test(h, _) => h(env)
    case And(args) => AllHold(args, env)
  }

  function AllHold(args: seq<Condition>, env: Env): bool {
    args == [] || (ConditionHolds(args[0], env) && AllHold(args[1..], env))
  }

  function Holds(c: Condition): Env -> bool {
    env => ConditionHolds(c, env)
  }

  // The for variable hides a positional variable of the same name.
  function BindItem(n: Name, pos: Option<Name>, env: Env, item: Item, position: nat): Env {
    match pos
    case None => env[n := [item]]
    case Some(p) => env[p := [Integer(position)]][n := [item]]
  }

  function BindItems(n: Name, pos: Option<Name>, env: Env, items: seq<Item>, first: nat): (r: seq<Env>)
    ensures |r| == |items|
  {
    if items == [] then []
    else [BindItem(n, pos, env, items[0], first)] + BindItems(n, pos, env, items[1..], first + 1)
  }

  lemma {:induction false} BindItemsAt(n: Name, pos: Option<Name>, env: Env, items: seq<Item>, first: nat)
    ensures forall i :: 0 <= i < |items| ==>
              BindItems(n, pos, env, items, first)[i] == BindItem(n, pos, env, items[i], first + i)
  {
    if items != [] {
      BindItemsAt(n, pos, env, items[1..], first + 1);
    }
  }

  function Expand(n: Name, pos: Option<Name>, e: Expr): Env -> seq<Env> {
    env => BindItems(n, pos, env, e.eval(env), 1)
  }

  function Bind(n: Name, e: Expr): Env -> Env {
    env => env[n := e.eval(env)]
  }

  function Numbered(n: Name, s: seq<Env>, first: nat): (r: seq<Env>)
    ensures |r| == |s|
    ensures forall i :: 0 <= i < |r| ==> r[i] == s[i][n := [Integer(first + i)]]
  {
    if s == [] then [] else [s[0][n := [Integer(first)]]] + Numbered(n, s[1..], first + 1)
  }

  predicate GreaterThan(spec: OrderSpec, w: Key, v: Key) {
    if spec.emptyLeast then
      if !w.Atomic? then false
      else if !v.Atomic? then true
      else spec.gt(w.item, v.item)
    else
      if !v.Atomic? then false
      else if !w.Atomic? then true
      else spec.gt(w.item, v.item)
  }

  // The comparison the sort uses: whether a's tuple goes before b's.
  function Precedes(spec: OrderSpec): (Env, Env) -> bool {
    (a, b) =>
      if spec.descending then GreaterThan(spec, spec.key(a), spec.key(b))
      else GreaterThan(spec, spec.key(b), spec.key(a))
  }

  function Denote(c: Clause, s: seq<Env>): seq<Env> {
    match c
    case For(n, pos, e) => FlatMap(Expand(n, pos, e), s)
    case Let(n, e) => Map(Bind(n, e), s)
    case Where(cond) => Filter(Holds(cond), s)
    case OrderBy(spec) => Sort(Precedes(spec), s)
    case Count(n) => Numbered(n, s, 1)
  }

  /** The tuple stream of a chain in the scope of the outer variables. */
  function Meaning(ch: Chain, outer: Env): seq<Env> {
    match ch
    case Root => [outer]
    case Node(c, p) => Denote(c, Meaning(p, outer))
  }

  // ----- well-formed clauses

  ghost predicate AgreeOn(a: Env, b: Env, names: set<Name>) {
    forall n :: n in names ==> (n in a <==> n in b) && (n in a ==> a[n] == b[n])
  }

  // The static analysis of f is right: f reads no variable outside uses.
  ghost predicate ReadsOnly<R>(f: Env -> R, uses: set<Name>) {
    forall a, b {:trigger AgreeOn(a, b, uses)} :: AgreeOn(a, b, uses) ==> f(a) == f(b)
  }

  lemma Unread<R>(f: Env -> R, uses: set<Name>, env: Env, n: Name, v: Value)
    requires ReadsOnly(f, uses) && n !in uses
    ensures f(env[n := v]) == f(env)
  {
    assert AgreeOn(env[n := v], env, uses);
  }

  ghost predicate SoundCondition(c: Condition) {
    match c
    case Test(h, u) => ReadsOnly(h, u)
    case And(args) => SoundConditions(args)
  }

  ghost predicate SoundConditions(args: seq<Condition>) {
    args == [] || (SoundCondition(args[0]) && SoundConditions(args[1..]))
  }

  ghost predicate Sound(c: Clause) {
    match c
    case For(n, pos, e) => ReadsOnly(e.eval, e.uses) && pos != Some(n)
    case Let(_, e) => ReadsOnly(e.eval, e.uses)
    case Where(cond) => SoundCondition(cond)
    case OrderBy(spec) => ReadsOnly(spec.key, spec.uses) && StrictWeakOrder(spec.gt)
    case Count(_) => true
  }

  lemma {:induction false} UnreadCondition(c: Condition, env: Env, n: Name, v: Value)
    requires SoundCondition(c) && n !in ConditionUses(c)
    ensures ConditionHolds(c, env[n := v]) == ConditionHolds(c, env)
    decreases c, 0
  {
    match c
    case Test(h, u) => Unread(h, u, env, n, v);
    case And(args) => UnreadConditions(args, env, n, v);
  }

  lemma {:induction false} UnreadConditions(args: seq<Condition>, env: Env, n: Name, v: Value)
    requires SoundConditions(args) && n !in AllUses(args)
    ensures AllHold(args, env[n := v]) == AllHold(args, env)
    decreases args, 1
  {
    if args != [] {
      UnreadCondition(args[0], env, n, v);
      UnreadConditions(args[1..], env, n, v);
    }
  }

  /** The order-by comparison is a strict weak order whenever gt is one on items, for both
      directions and both places of the empty key. */
  lemma PrecedesIsStrictWeakOrder(spec: OrderSpec)
    requires StrictWeakOrder(spec.gt)
    ensures StrictWeakOrder(Precedes(spec))
  {
    forall x: Env, y: Env, z: Env | Triple(x, y, z)
      ensures !Precedes(spec)(x, x)
      ensures Precedes(spec)(x, y) && Precedes(spec)(y, z) ==> Precedes(spec)(x, z)
      ensures !Precedes(spec)(x, y) && !Precedes(spec)(y, z) ==> !Precedes(spec)(x, z)
    {
      var a, b, c := spec.key(x), spec.key(y), spec.key(z);
      GreaterThanLaws(spec, a, b, c);
      GreaterThanLaws(spec, c, b, a);
    }
  }

  lemma GreaterThanLaws(spec: OrderSpec, a: Key, b: Key, c: Key)
    requires StrictWeakOrder(spec.gt)
    ensures !GreaterThan(spec, a, a)
    ensures GreaterThan(spec, a, b) && GreaterThan(spec, b, c) ==> GreaterThan(spec, a, c)
    ensures !GreaterThan(spec, a, b) && !GreaterThan(spec, b, c) ==> !GreaterThan(spec, a, c)
  {
    if a.Atomic? {
      OrderLaws(spec.gt, a.item, a.item, a.item);
      if b.Atomic? && c.Atomic? {
        OrderLaws(spec.gt, a.item, b.item, c.item);
      }
    }
  }

  // ----- the swap laws: clause c, which read p's tuples, now feeds p

  lemma BindItemComm(n: Name, pos: Option<Name>, env: Env, item: Item, position: nat, m: Name, v: Value)
    requires m != n && m !in PosNames(pos)
    ensures BindItem(n, pos, env, item, position)[m := v] == BindItem(n, pos, env[m := v], item, position)
  {
  }

  lemma UnreadBindItem<R>(f: Env -> R, uses: set<Name>, n: Name, pos: Option<Name>, env: Env, item: Item, position: nat)
    requires ReadsOnly(f, uses) && n !in uses && PosNames(pos) !! uses
    ensures f(BindItem(n, pos, env, item, position)) == f(env)
  {
    assert AgreeOn(BindItem(n, pos, env, item, position), env, uses);
  }

  lemma LetPastFor(v: Name, e: Expr, n: Name, pos: Option<Name>, f: Expr, s: seq<Env>)
    requires ReadsOnly(e.eval, e.uses) && ReadsOnly(f.eval, f.uses)
    requires n !in e.uses && PosNames(pos) !! e.uses
    requires v !in f.uses && v != n && v !in PosNames(pos)
    ensures Denote(For(n, pos, f), Denote(Let(v, e), s)) == Denote(Let(v, e), Denote(For(n, pos, f), s))
  {
    var g, x := Bind(v, e), Expand(n, pos, f);
    forall env | env in s ensures Map(g, x(env)) == x(g(env)) {
      Unread(f.eval, f.uses, env, v, e.eval(env));
      var items := f.eval(env);
      BindItemsAt(n, pos, env, items, 1);
      BindItemsAt(n, pos, g(env), items, 1);
      forall i | 0 <= i < |items| ensures Map(g, x(env))[i] == x(g(env))[i] {
        UnreadBindItem(e.eval, e.uses, n, pos, env, items[i], 1 + i);
        BindItemComm(n, pos, env, items[i], 1 + i, v, e.eval(env));
      }
    }
    MapFlatMap(g, x, s);
  }

  lemma LetPastLet(v: Name, e: Expr, n: Name, f: Expr, s: seq<Env>)
    requires ReadsOnly(e.eval, e.uses) && ReadsOnly(f.eval, f.uses)
    requires n !in e.uses && v !in f.uses && v != n
    ensures Denote(Let(n, f), Denote(Let(v, e), s)) == Denote(Let(v, e), Denote(Let(n, f), s))
  {
    forall env | env in s ensures Bind(n, f)(Bind(v, e)(env)) == Bind(v, e)(Bind(n, f)(env)) {
      var a, b := e.eval(env), f.eval(env);
      Unread(f.eval, f.uses, env, v, a);
      Unread(e.eval, e.uses, env, n, b);
      assert env[v := a][n := b] == env[n := b][v := a];
    }
    MapMap(Bind(n, f), Bind(v, e), s);
  }

  lemma LetPastCount(v: Name, e: Expr, n: Name, s: seq<Env>)
    requires ReadsOnly(e.eval, e.uses)
    requires n !in e.uses && v != n
    ensures Denote(Count(n), Denote(Let(v, e), s)) == Denote(Let(v, e), Denote(Count(n), s))
  {
    MapNumbered(v, e, n, s, 1);
  }

  lemma {:induction false} MapNumbered(v: Name, e: Expr, n: Name, s: seq<Env>, first: nat)
    requires ReadsOnly(e.eval, e.uses)
    requires n !in e.uses && v != n
    ensures Numbered(n, Map(Bind(v, e), s), first) == Map(Bind(v, e), Numbered(n, s, first))
  {
    if s != [] {
      var env, k := s[0], [Integer(first)];
      Unread(e.eval, e.uses, env, n, k);
      assert env[v := e.eval(env)][n := k] == env[n := k][v := e.eval(env)];
      MapNumbered(v, e, n, s[1..], first + 1);
    }
  }

  lemma LetPastWhere(v: Name, e: Expr, cond: Condition, s: seq<Env>)
    requires SoundCondition(cond) && v !in ConditionUses(cond)
    ensures Denote(Where(cond), Denote(Let(v, e), s)) == Denote(Let(v, e), Denote(Where(cond), s))
  {
    forall env | env in s ensures Holds(cond)(Bind(v, e)(env)) == Holds(cond)(env) {
      UnreadCondition(cond, env, v, e.eval(env));
    }
    FilterMap(Holds(cond), Bind(v, e), s);
  }

  lemma LetPastOrderBy(v: Name, e: Expr, spec: OrderSpec, s: seq<Env>)
    requires ReadsOnly(spec.key, spec.uses) && v !in spec.uses
    ensures Denote(OrderBy(spec), Denote(Let(v, e), s)) == Denote(Let(v, e), Denote(OrderBy(spec), s))
  {
    forall env | env in s ensures spec.key(Bind(v, e)(env)) == spec.key(env) {
      Unread(spec.key, spec.uses, env, v, e.eval(env));
    }
    MapSort(Precedes(spec), Bind(v, e), s);
  }

  lemma WherePastFor(cond: Condition, n: Name, pos: Option<Name>, f: Expr, s: seq<Env>)
    requires SoundCondition(cond)
    requires n !in ConditionUses(cond) && PosNames(pos) !! ConditionUses(cond)
    ensures Denote(For(n, pos, f), Denote(Where(cond), s)) == Denote(Where(cond), Denote(For(n, pos, f), s))
  {
    forall env, y | env in s && y in Expand(n, pos, f)(env) ensures Holds(cond)(y) == Holds(cond)(env) {
      BindItemsAt(n, pos, env, f.eval(env), 1);
      var i :| 0 <= i < |f.eval(env)| && y == BindItem(n, pos, env, f.eval(env)[i], 1 + i);
      match pos
      case None => UnreadCondition(cond, env, n, [f.eval(env)[i]]);
      case Some(p) =>
        UnreadCondition(cond, env, p, [Integer(1 + i)]);
        UnreadCondition(cond, env[p := [Integer(1 + i)]], n, [f.eval(env)[i]]);
    }
    FilterFlatMap(Holds(cond), Expand(n, pos, f), s);
  }

  lemma WherePastOrderBy(cond: Condition, spec: OrderSpec, s: seq<Env>)
    requires StrictWeakOrder(spec.gt)
    ensures Denote(OrderBy(spec), Denote(Where(cond), s)) == Denote(Where(cond), Denote(OrderBy(spec), s))
  {
    PrecedesIsStrictWeakOrder(spec);
    FilterSort(Precedes(spec), Holds(cond), s);
  }

  /** Order-by commutes with for: if the key reads neither the for variable nor its position,
      sorting the expanded stream is expanding the sorted stream. */
  lemma OrderByPastFor(spec: OrderSpec, n: Name, pos: Option<Name>, f: Expr, s: seq<Env>)
    requires ReadsOnly(spec.key, spec.uses) && StrictWeakOrder(spec.gt)
    requires n !in spec.uses && PosNames(pos) !! spec.uses
    ensures Denote(For(n, pos, f), Denote(OrderBy(spec), s)) == Denote(OrderBy(spec), Denote(For(n, pos, f), s))
  {
    PrecedesIsStrictWeakOrder(spec);
    var lt := Precedes(spec);
    forall env, y | env in s && y in Expand(n, pos, f)(env) ensures Tied(lt, env, y) {
      BindItemsAt(n, pos, env, f.eval(env), 1);
      var i :| 0 <= i < |f.eval(env)| && y == BindItem(n, pos, env, f.eval(env)[i], 1 + i);
      UnreadBindItem(spec.key, spec.uses, n, pos, env, f.eval(env)[i], 1 + i);
      OrderLaws(lt, env, env, env);
    }
    FlatMapSort(lt, Expand(n, pos, f), s);
  }

  lemma CountPastCount(n: Name, m: Name, s: seq<Env>)
    ensures Denote(Count(m), Denote(Count(n), s)) == Denote(Count(n), Denote(Count(m), s))
  {
    NumberedNumbered(n, m, s, 1);
  }

  lemma {:induction false} NumberedNumbered(n: Name, m: Name, s: seq<Env>, first: nat)
    ensures Numbered(m, Numbered(n, s, first), first) == Numbered(n, Numbered(m, s, first), first)
  {
    if s != [] {
      var k := [Integer(first)];
      assert s[0][n := k][m := k] == s[0][m := k][n := k];
      NumberedNumbered(n, m, s[1..], first + 1);
    }
  }
}
