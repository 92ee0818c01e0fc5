/** The normal form of tuple chains. */
module PushBackNormal {
  // Which clauses the optimiser leaves behind which, said of the clauses in their order and of
  // the names they bind and read.

  import opened Options
  import opened Sequences
  import opened StableSort
  import opened Flwor
  import opened PushBack

  // The clauses of a chain, first to last.
  function Clauses(ch: Chain): seq<Clause> {
    match ch
    case Root => []
    case Node(c, p) => Clauses(p) + [c]
  }

  predicate ReadsVariable(pos: Option<Name>, n: Name, uses: set<Name>) {
    n in uses || (pos != None && pos.value in uses)
  }

  // Only wheres stand between clauses i and j.
  predicate OnlyWheres(s: seq<Clause>, i: int, j: int)
    requires 0 <= i <= j <= |s|
  {
    forall m :: i < m < j ==> s[m].Where?
  }

  predicate OnlyCounts(s: seq<Clause>, i: int, j: int)
    requires 0 <= i <= j <= |s|
  {
    forall m :: i < m < j ==> s[m].Count?
  }

  predicate NoFors(s: seq<Clause>, i: int, j: int)
    requires 0 <= i <= j <= |s|
  {
    forall m :: i < m < j ==> !s[m].For?
  }

  // What a where that reads uses stays behind.
  predicate StopsWhere(c: Clause, uses: set<Name>) {
    match c
    case For(n, pos, _) => ReadsVariable(pos, n, uses)
    case Let(n, _) => n in uses
    case OrderBy(_) => false
    case _ => true
  }

  predicate StopsOrderBy(c: Clause, uses: set<Name>) {
    match c
    case For(n, pos, _) => ReadsVariable(pos, n, uses)
    case Let(n, _) => n in uses
    case _ => true
  }

  // One of the clauses from i up to j binds a name in uses.
  predicate BindsRead(s: seq<Clause>, i: int, j: int, uses: set<Name>)
    requires 0 <= i <= j <= |s|
  {
    exists m :: i <= m < j &&
      match s[m]
      case For(n, pos, _) => ReadsVariable(pos, n, uses)
      case Let(n, _) => n in uses
      case Count(n) => n in uses
      case _ => false
  }

  predicate WhereSettled(s: seq<Clause>, j: int, uses: set<Name>)
    requires 0 <= j <= |s|
  {
    forall i :: 0 <= i < j && OnlyWheres(s, i, j) ==> StopsWhere(s[i], uses)
  }

  predicate OrderBySettled(s: seq<Clause>, j: int, uses: set<Name>)
    requires 0 <= j <= |s|
  {
    forall i :: 0 <= i < j && OnlyWheres(s, i, j) ==> StopsOrderBy(s[i], uses)
  }

  predicate CountSettled(s: seq<Clause>, j: int)
    requires 0 <= j <= |s|
  {
    forall i :: 0 <= i < j && OnlyCounts(s, i, j) ==> !s[i].Let?
  }

  predicate LetSettled(s: seq<Clause>, j: int, uses: set<Name>)
    requires 0 <= j <= |s|
  {
    forall i :: 0 <= i < j && s[i].For? && NoFors(s, i, j) ==> BindsRead(s, i, j, uses)
  }

  /** Past other wheres, a where stands behind nothing but a for or a let of which it reads a
      variable, a count, or nothing at all, and no where is an And that can be split; past
      wheres, an order-by stands behind no for or let of which it reads no variable; past
      counts, no count stands behind a let; and a let that creates no nodes reads a name that
      is bound from the last for on, if there is a for. */
  predicate SettledAt(s: seq<Clause>, j: int, ctx: bool)
    requires 0 <= j < |s|
  {
    match s[j]
    case For(_, _, _) => true
    case Let(_, e) => e.creative || LetSettled(s, j, e.uses)
    case Where(cond) => !(ctx && cond.And?) && WhereSettled(s, j, ConditionUses(cond))
    case OrderBy(spec) => OrderBySettled(s, j, spec.uses)
    case Count(_) => CountSettled(s, j)
  }

  predicate Settled(s: seq<Clause>, ctx: bool) {
    forall j :: 0 <= j < |s| ==> SettledAt(s, j, ctx)
  }

  // ----- each kind of clause behind a chain

  lemma {:induction false} WhereStays(p: Chain, uses: set<Name>)
    ensures CanPushWhere(p, uses) <==> !WhereSettled(Clauses(p), |Clauses(p)|, uses)
  {
    var s, n := Clauses(p), |Clauses(p)| - 1;
    if p.Node? {
      assert s[n] == p.clause && OnlyWheres(s, n, n + 1);
      var above := Clauses(p.parent);
      if p.clause.Where? {
        WhereStays(p.parent, uses);
        forall i | 0 <= i < n ensures s[i] == above[i] && OnlyWheres(s, i, n + 1) == OnlyWheres(above, i, n) {
          SameUpTo(s, above, i, n);
        }
      }
    }
  }

  lemma SameUpTo(s: seq<Clause>, above: seq<Clause>, i: int, n: int)
    requires 0 <= i < n && |above| == n && |s| == n + 1 && s[..n] == above
    ensures s[i] == above[i]
    ensures OnlyWheres(s, i, n + 1) <==> s[n].Where? && OnlyWheres(above, i, n)
    ensures OnlyCounts(s, i, n + 1) <==> s[n].Count? && OnlyCounts(above, i, n)
    ensures NoFors(s, i, n + 1) <==> !s[n].For? && NoFors(above, i, n)
  {
    assert forall m :: 0 <= m < n ==> s[m] == s[..n][m];
  }

  lemma {:induction false} OrderByStays(p: Chain, uses: set<Name>)
    ensures CanPushOrderBy(p, uses) <==> !OrderBySettled(Clauses(p), |Clauses(p)|, uses)
  {
    var s, n := Clauses(p), |Clauses(p)| - 1;
    if p.Node? {
      assert s[n] == p.clause && OnlyWheres(s, n, n + 1);
      var above := Clauses(p.parent);
      if p.clause.Where? {
        OrderByStays(p.parent, uses);
        forall i | 0 <= i < n ensures s[i] == above[i] && OnlyWheres(s, i, n + 1) == OnlyWheres(above, i, n) {
          SameUpTo(s, above, i, n);
        }
      }
    }
  }

  lemma {:induction false} CountStays(p: Chain)
    ensures CanPushCount(p) <==> !CountSettled(Clauses(p), |Clauses(p)|)
  {
    var s, n := Clauses(p), |Clauses(p)| - 1;
    if p.Node? {
      assert s[n] == p.clause && OnlyCounts(s, n, n + 1);
      var above := Clauses(p.parent);
      if p.clause.Count? {
        CountStays(p.parent);
        forall i | 0 <= i < n ensures s[i] == above[i] && OnlyCounts(s, i, n + 1) == OnlyCounts(above, i, n) {
          SameUpTo(s, above, i, n);
        }
      }
    }
  }

  lemma {:induction false} LetStays(p: Chain, uses: set<Name>)
    ensures CanPushLet(p, uses) <==> !LetSettled(Clauses(p), |Clauses(p)|, uses)
  {
    var s, n := Clauses(p), |Clauses(p)| - 1;
    if p.Node? {
      assert s[n] == p.clause && NoFors(s, n, n + 1);
      var above := Clauses(p.parent);
      if !p.clause.For? {
        LetStays(p.parent, uses);
        forall i | 0 <= i < n
          ensures s[i] == above[i] && NoFors(s, i, n + 1) == NoFors(above, i, n)
          ensures BindsRead(s, i, n + 1, uses) <==> BindsRead(above, i, n, uses) || BindsRead(s, n, n + 1, uses)
        {
          SameUpTo(s, above, i, n);
          BindsReadSplit(s, above, i, n, uses);
        }
      }
    }
  }

  lemma BindsReadSplit(s: seq<Clause>, above: seq<Clause>, i: int, n: int, uses: set<Name>)
    requires 0 <= i < n && |above| == n && |s| == n + 1 && s[..n] == above
    ensures BindsRead(s, i, n + 1, uses) <==> BindsRead(above, i, n, uses) || BindsRead(s, n, n + 1, uses)
  {
    assert forall m :: 0 <= m < n ==> s[m] == s[..n][m];
  }

  // ----- the whole chain

  // What is said of the first j clauses does not depend on the later ones.
  lemma SameFront(s: seq<Clause>, above: seq<Clause>, i: int, j: int)
    requires above <= s && 0 <= i < j <= |above|
    ensures s[i] == above[i]
    ensures OnlyWheres(s, i, j) == OnlyWheres(above, i, j) && OnlyCounts(s, i, j) == OnlyCounts(above, i, j)
    ensures NoFors(s, i, j) == NoFors(above, i, j)
    ensures forall uses :: BindsRead(s, i, j, uses) == BindsRead(above, i, j, uses)
  {
    assert forall m :: 0 <= m < |above| ==> s[m] == above[m];
  }

  lemma FrontSettled(s: seq<Clause>, above: seq<Clause>, j: int)
    requires above <= s && 0 <= j <= |above|
    ensures forall uses :: WhereSettled(s, j, uses) == WhereSettled(above, j, uses)
    ensures forall uses :: OrderBySettled(s, j, uses) == OrderBySettled(above, j, uses)
    ensures forall uses :: LetSettled(s, j, uses) == LetSettled(above, j, uses)
    ensures CountSettled(s, j) == CountSettled(above, j)
  {
    hide OnlyWheres, OnlyCounts, NoFors, BindsRead, StopsWhere, StopsOrderBy;
    forall i | 0 <= i < j
      ensures s[i] == above[i]
      ensures OnlyWheres(s, i, j) == OnlyWheres(above, i, j) && OnlyCounts(s, i, j) == OnlyCounts(above, i, j)
      ensures NoFors(s, i, j) == NoFors(above, i, j)
      ensures forall uses :: BindsRead(s, i, j, uses) == BindsRead(above, i, j, uses)
    {
      SameFront(s, above, i, j);
    }
  }

  lemma PrefixSettled(p: Chain, c: Clause, j: int, ctx: bool)
    requires 0 <= j < |Clauses(p)|
    ensures SettledAt(Clauses(Node(c, p)), j, ctx) == SettledAt(Clauses(p), j, ctx)
  {
    hide WhereSettled, OrderBySettled, LetSettled, CountSettled;
    FrontSettled(Clauses(Node(c, p)), Clauses(p), j);
  }

  lemma LastSettled(p: Chain, c: Clause, ctx: bool)
    ensures SettledAt(Clauses(Node(c, p)), |Clauses(p)|, ctx) <==> !Splits(c, ctx) && !Pushable(c, p)
  {
    hide WhereSettled, OrderBySettled, LetSettled, CountSettled, CanPushWhere, CanPushLet, CanPushOrderBy, CanPushCount;
    FrontSettled(Clauses(Node(c, p)), Clauses(p), |Clauses(p)|);
    match c {
      case For(_, _, _) =>
      case Let(_, e) => LetStays(p, e.uses);
      case Where(cond) => WhereStays(p, ConditionUses(cond));
      case OrderBy(spec) => OrderByStays(p, spec.uses);
      case Count(_) => CountStays(p);
    }
  }

  lemma {:induction false} NormalIsSettled(ch: Chain, ctx: bool)
    ensures Normal(ch, ctx) <==> Settled(Clauses(ch), ctx)
  {
    hide SettledAt, Pushable, Splits;
    if ch.Node? {
      NormalIsSettled(ch.parent, ctx);
      LastSettled(ch.parent, ch.clause, ctx);
      forall j | 0 <= j < |Clauses(ch.parent)|
        ensures SettledAt(Clauses(ch), j, ctx) == SettledAt(Clauses(ch.parent), j, ctx)
      {
        PrefixSettled(ch.parent, ch.clause, j, ctx);
      }
    }
  }

  /** The optimised chain is settled; and the optimiser leaves a chain alone exactly if it is. */
  lemma OptimizeSettles(ch: Chain, ctx: bool)
    ensures Settled(Clauses(Optimize(ch, ctx)), ctx)
    ensures Optimize(ch, ctx) == ch <==> Settled(Clauses(ch), ctx)
  {
    hide Settled, Normal, Optimize;
    OptimizeIsNormal(ch, ctx);
    NormalIsSettled(ch, ctx);
    NormalIsSettled(Optimize(ch, ctx), ctx);
  }

  // ----- what stays in order

  // Clauses that cannot pass one another: those of one kind, where and let by what they read.
  datatype Kind =
    | IsFor | IsOrderBy | IsCount | IsWhere(uses: set<Name>) | IsLet(uses: set<Name>, creative: bool)

  function KindOf(c: Clause): Kind {
    match c
    case For(_, _, _) => IsFor
    case Let(_, e) => IsLet(e.uses, e.creative)
    case Where(cond) => IsWhere(ConditionUses(cond))
    case OrderBy(_) => IsOrderBy
    case Count(_) => IsCount
  }

  // The clause, or the tests that it splits into.
  function Single(c: Clause, ctx: bool): seq<Clause> {
    if Splits(c, ctx) then Singles(c.cond.args) else [c]
  }

  function Singles(args: seq<Condition>): seq<Clause> {
    if args == [] then []
    else (if args[0].And? then Singles(args[0].args) else [Where(args[0])]) + Singles(args[1..])
  }

  // The clauses of one kind, first to last.
  function OfKind(kind: Kind, s: seq<Clause>): seq<Clause> {
    Filter((c: Clause) => KindOf(c) == kind, s)
  }

  function Split(ch: Chain, ctx: bool): seq<Clause> {
    match ch
    case Root => []
    case Node(c, p) => Split(p, ctx) + Single(c, ctx)
  }

  lemma OfKindConcat(kind: Kind, s: seq<Clause>, t: seq<Clause>)
    ensures OfKind(kind, s + t) == OfKind(kind, s) + OfKind(kind, t)
  {
    FilterConcat((c: Clause) => KindOf(c) == kind, s, t);
  }

  // No clause moves past one of its kind.
  lemma DifferentKinds(c: Clause, tmp: Clause, grand: Chain)
    requires Pushable(c, Node(tmp, grand)) && !Pushable(tmp, grand)
    ensures KindOf(c) != KindOf(tmp)
  {
  }

  lemma OneOfKind(kind: Kind, c: Clause)
    ensures OfKind(kind, [c]) == if KindOf(c) == kind then [c] else []
  {
    var p := (x: Clause) => KindOf(x) == kind;
    assert [c][1..] == [] && Filter(p, []) == [];
    assert Filter(p, [c]) == (if p(c) then [c] else []) + [];
  }

  lemma SingleAnd(c: Clause, ctx: bool)
    ensures Splits(c, ctx) ==> Single(c, ctx) == Singles(c.cond.args)
    ensures !Splits(c, ctx) ==> Single(c, ctx) == [c]
    ensures Splits(c, ctx) ==> ctx && c.Where? && c.cond.And?
  {
  }

  lemma HasParent(c: Clause, parent: Chain)
    ensures Pushable(c, parent) ==> parent.Node?
  {
  }

  lemma {:induction false} TypeInOrder(c: Clause, parent: Chain, ctx: bool, kind: Kind)
    requires Normal(parent, ctx)
    ensures OfKind(kind, Split(Type(c, parent, ctx), ctx))
         == OfKind(kind, Split(parent, ctx)) + OfKind(kind, Single(c, ctx))
    decreases Steps(c, parent, ctx)
  {
    hide OfKind, Single, Singles, Pushable, Splits;
    SingleAnd(c, ctx);
    HasParent(c, parent);
    if Splits(c, ctx) {
      TypeAllInOrder(c.cond.args, parent, ctx, kind);
    } else if Pushable(c, parent) {
      var tmp, grand := parent.clause, parent.parent;
      var pushed := Type(c, grand, ctx);
      TypeInOrder(c, grand, ctx, kind);
      TypeIsNormal(c, grand, ctx);
      TypeInOrder(tmp, pushed, ctx, kind);
      SingleAnd(tmp, ctx);
      DifferentKinds(c, tmp, grand);
      OneOfKind(kind, c);
      OneOfKind(kind, tmp);
      OfKindConcat(kind, Split(grand, ctx), Single(tmp, ctx));
      var s := OfKind(kind, Split(grand, ctx));
      assert s + OfKind(kind, [c]) + OfKind(kind, [tmp]) == s + OfKind(kind, [tmp]) + OfKind(kind, [c]);
    } else {
      OfKindConcat(kind, Split(parent, ctx), Single(c, ctx));
    }
  }

  lemma {:induction false} TypeAllInOrder(args: seq<Condition>, parent: Chain, ctx: bool, kind: Kind)
    requires Normal(parent, ctx) && ctx
    ensures OfKind(kind, Split(TypeAll(args, parent, ctx), ctx))
         == OfKind(kind, Split(parent, ctx)) + OfKind(kind, Singles(args))
    decreases StepsAll(args, parent, ctx)
  {
    hide OfKind, Type, Single, Singles, Split, Normal, KindOf, ConditionUses;
    SinglesCons(args, ctx, kind);
    if args == [] {
      assert OfKind(kind, Split(parent, ctx)) + [] == OfKind(kind, Split(parent, ctx));
    } else {
      var first := Where(args[0]);
      TypeInOrder(first, parent, ctx, kind);
      TypeIsNormal(first, parent, ctx);
      TypeAllInOrder(args[1..], Type(first, parent, ctx), ctx, kind);
      var s := OfKind(kind, Split(parent, ctx));
      assert s + OfKind(kind, Single(first, ctx)) + OfKind(kind, Singles(args[1..]))
          == s + (OfKind(kind, Single(first, ctx)) + OfKind(kind, Singles(args[1..])));
    }
  }

  lemma SinglesCons(args: seq<Condition>, ctx: bool, kind: Kind)
    requires ctx
    ensures args == [] ==> OfKind(kind, Singles(args)) == []
    ensures args != [] ==>
              OfKind(kind, Singles(args))
              == OfKind(kind, Single(Where(args[0]), ctx)) + OfKind(kind, Singles(args[1..]))
  {
    if args != [] {
      OfKindConcat(kind, Single(Where(args[0]), ctx), Singles(args[1..]));
    }
  }

  /** The optimiser keeps the fors, the order-bys, the counts, the lets that read the same names
      and create nothing, and the wheres that read the same names in their order; where an And is
      split, its operands come in theirs. */
  lemma {:induction false} OptimizeInOrder(ch: Chain, ctx: bool, kind: Kind)
    ensures OfKind(kind, Split(Optimize(ch, ctx), ctx)) == OfKind(kind, Split(ch, ctx))
  {
    hide OfKind, Single, Type;
    if ch.Node? {
      OptimizeInOrder(ch.parent, ctx, kind);
      OptimizeIsNormal(ch.parent, ctx);
      TypeInOrder(ch.clause, Optimize(ch.parent, ctx), ctx, kind);
      OfKindConcat(kind, Split(ch.parent, ctx), Single(ch.clause, ctx));
    }
  }
}
