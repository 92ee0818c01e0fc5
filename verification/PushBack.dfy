/** The push-back optimiser of tuple chains. */
module PushBack {
  // Static typing of a tuple node may swap the node with its parent and type both again.  Typing
  // terminates on every chain, keeps the clauses, ends in a chain that no swap applies to, and
  // keeps the tuple stream.

  import opened Options
  import opened Sequences
  import opened StableSort
  import opened Flwor

  // ----- when a clause may move in front of its ancestor

  predicate CanPushLet(a: Chain, uses: set<Name>) {
    match a
    case Root => false
    case Node(For(n, pos, _), _) => n !in uses && PosNames(pos) !! uses
    case Node(Let(n, _), p) => n !in uses && CanPushLet(p, uses)
    case Node(Count(n), p) => n !in uses && CanPushLet(p, uses)
    case Node(_, p) => CanPushLet(p, uses)
  }

  predicate CanPushWhere(a: Chain, uses: set<Name>) {
    match a
    case Root => false
    case Node(For(n, pos, _), _) => n !in uses && PosNames(pos) !! uses
    case Node(Let(n, _), _) => n !in uses
    case Node(Where(_), p) => CanPushWhere(p, uses)
    case Node(Count(_), _) => false
    case Node(OrderBy(_), _) => true
  }

  predicate CanPushOrderBy(a: Chain, uses: set<Name>) {
    match a
    case Root => false
    case Node(For(n, pos, _), _) => n !in uses && PosNames(pos) !! uses
    case Node(Let(n, _), _) => n !in uses
    case Node(Where(_), p) => CanPushOrderBy(p, uses)
    case Node(Count(_), _) => false
    case Node(OrderBy(_), _) => false
  }

  predicate CanPushCount(a: Chain) {
    match a
    case Root => false
    case Node(Count(_), p) => CanPushCount(p)
    case Node(Let(_, _), _) => true
    case Node(_, _) => false
  }

  predicate Pushable(c: Clause, parent: Chain) {
    match c
    case For(_, _, _) => false
    case Let(_, e) => !e.creative && CanPushLet(parent, e.uses)
    case Where(cond) => CanPushWhere(parent, ConditionUses(cond))
    case OrderBy(spec) => CanPushOrderBy(parent, spec.uses)
    case Count(_) => CanPushCount(parent)
  }

  // A condition that typing splits into one where clause per operand.
  predicate Splits(c: Clause, ctx: bool) {
    ctx && c.Where? && c.cond.And?
  }

  // ----- the termination measure

  ghost function ConditionSize(c: Condition): nat
    ensures ConditionSize(c) >= 1
  {
    match c
    case Test(_, _) => 1
    case And(args) => 1 + ConditionsSize(args)
  }

  ghost function ConditionsSize(args: seq<Condition>): nat {
    if args == [] then 0 else ConditionSize(args[0]) + ConditionsSize(args[1..])
  }

  ghost function Size(c: Clause): nat
    ensures Size(c) >= 1
  {
    match c
    case Where(cond) => ConditionSize(cond)
    case _ => 1
  }

  ghost function Fors(ch: Chain): nat {
    match ch
    case Root => 0
    case Node(c, p) => Fors(p) + (if c.For? then 1 else 0)
  }

  ghost function Lets(ch: Chain): nat {
    match ch
    case Root => 0
    case Node(c, p) => Lets(p) + (if c.Let? then 1 else 0)
  }

  ghost function Orders(ch: Chain): nat {
    match ch
    case Root => 0
    case Node(c, p) => Orders(p) + (if c.OrderBy? then 1 else 0)
  }

  ghost function TotalSize(ch: Chain): nat {
    match ch
    case Root => 0
    case Node(c, p) => TotalSize(p) + Size(c)
  }

  // How many units of a clause are out of order with respect to an earlier for, an earlier
  // let, and an earlier order-by.
  ghost function LetWeight(c: Clause): nat {
    if c.Let? then 1 else 0
  }

  ghost function FilterWeight(c: Clause): nat {
    if c.Where? || c.OrderBy? then Size(c) else 0
  }

  ghost function OtherWeight(c: Clause): nat {
    if c.Where? || c.OrderBy? || c.Count? then Size(c) else 0
  }

  ghost function WhereWeight(c: Clause): nat {
    if c.Where? then Size(c) else 0
  }

  // For before let.
  ghost function M1(ch: Chain): nat {
    match ch
    case Root => 0
    case Node(c, p) => M1(p) + LetWeight(c) * Fors(p)
  }

  // For before where or order-by.
  ghost function M2(ch: Chain): nat {
    match ch
    case Root => 0
    case Node(c, p) => M2(p) + FilterWeight(c) * Fors(p)
  }

  // Let before where, order-by or count.
  ghost function M3(ch: Chain): nat {
    match ch
    case Root => 0
    case Node(c, p) => M3(p) + OtherWeight(c) * Lets(p)
  }

  // Order-by before where.
  ghost function M4(ch: Chain): nat {
    match ch
    case Root => 0
    case Node(c, p) => M4(p) + WhereWeight(c) * Orders(p)
  }

  // a is no larger than b in the lexicographic order of the four pair counts and the size.
  ghost predicate NoLarger(a: Chain, b: Chain) {
    || Smaller(a, b)
    || (M1(a) == M1(b) && M2(a) == M2(b) && M3(a) == M3(b) && M4(a) == M4(b) && TotalSize(a) <= TotalSize(b))
  }

  ghost predicate Smaller3(a: Chain, b: Chain) {
    || M1(a) < M1(b)
    || (M1(a) == M1(b) && M2(a) < M2(b))
    || (M1(a) == M1(b) && M2(a) == M2(b) && M3(a) < M3(b))
  }

  // Smaller in the pair counts alone.
  ghost predicate Smaller(a: Chain, b: Chain) {
    || Smaller3(a, b)
    || (M1(a) == M1(b) && M2(a) == M2(b) && M3(a) == M3(b) && M4(a) < M4(b))
  }

  ghost predicate SameCounts(a: Chain, b: Chain) {
    Fors(a) == Fors(b) && Lets(a) == Lets(b) && Orders(a) == Orders(b)
  }

  // The progress that pushing a clause makes.
  ghost predicate Progress(c: Clause, a: Chain, b: Chain) {
    match c
    case For(_, _, _) => false
    case Let(_, _) => M1(a) < M1(b)
    case Where(_) => Smaller(a, b)
    case OrderBy(_) => Smaller3(a, b)
    case Count(_) => Smaller3(a, b)
  }

  lemma ShorterIsSmaller(c: Clause, p: Clause, grand: Chain)
    ensures M1(Node(c, grand)) <= M1(Node(c, Node(p, grand)))
    ensures M2(Node(c, grand)) <= M2(Node(c, Node(p, grand)))
    ensures M3(Node(c, grand)) <= M3(Node(c, Node(p, grand)))
    ensures M4(Node(c, grand)) <= M4(Node(c, Node(p, grand)))
    ensures TotalSize(Node(c, grand)) < TotalSize(Node(c, Node(p, grand)))
  {
    Grows(LetWeight(c), LetWeight(p), Fors(grand), Fors(Node(p, grand)));
    Grows(FilterWeight(c), FilterWeight(p), Fors(grand), Fors(Node(p, grand)));
    Grows(OtherWeight(c), OtherWeight(p), Lets(grand), Lets(Node(p, grand)));
    Grows(WhereWeight(c), WhereWeight(p), Orders(grand), Orders(Node(p, grand)));
  }

  lemma Grows(w: nat, v: nat, m: nat, n: nat)
    requires m <= n
    ensures w * m <= v * m + w * n
  {
    assert w * n == w * m + w * (n - m);
  }

  // What swapping c with p does to the pair counts: only the pair of c and p changes.
  lemma SwapCounts(c: Clause, p: Clause, grand: Chain)
    ensures SameCounts(Node(p, Node(c, grand)), Node(c, Node(p, grand)))
    ensures TotalSize(Node(p, Node(c, grand))) == TotalSize(Node(c, Node(p, grand)))
    ensures M1(Node(p, Node(c, grand))) + (if p.For? then LetWeight(c) else 0)
         == M1(Node(c, Node(p, grand))) + (if c.For? then LetWeight(p) else 0)
    ensures M2(Node(p, Node(c, grand))) + (if p.For? then FilterWeight(c) else 0)
         == M2(Node(c, Node(p, grand))) + (if c.For? then FilterWeight(p) else 0)
    ensures M3(Node(p, Node(c, grand))) + (if p.Let? then OtherWeight(c) else 0)
         == M3(Node(c, Node(p, grand))) + (if c.Let? then OtherWeight(p) else 0)
    ensures M4(Node(p, Node(c, grand))) + (if p.OrderBy? then WhereWeight(c) else 0)
         == M4(Node(c, Node(p, grand))) + (if c.OrderBy? then WhereWeight(p) else 0)
  {
    OneMore(LetWeight(c), Fors(grand));
    OneMore(LetWeight(p), Fors(grand));
    OneMore(FilterWeight(c), Fors(grand));
    OneMore(FilterWeight(p), Fors(grand));
    OneMore(OtherWeight(c), Lets(grand));
    OneMore(OtherWeight(p), Lets(grand));
    OneMore(WhereWeight(c), Orders(grand));
    OneMore(WhereWeight(p), Orders(grand));
  }

  lemma OneMore(w: nat, n: nat)
    ensures w * (n + 1) == w * n + w
  {
  }

  // A swap that the optimiser makes, followed by typing c over what was p's parent, is progress.
  lemma SwapProgress(c: Clause, p: Clause, grand: Chain, pushed: Chain)
    requires Pushable(c, Node(p, grand))
    requires SameCounts(pushed, Node(c, grand)) && NoLarger(pushed, Node(c, grand))
    requires Pushable(c, grand) ==> Progress(c, pushed, Node(c, grand))
    ensures SameCounts(Node(p, pushed), Node(c, Node(p, grand)))
    ensures Progress(c, Node(p, pushed), Node(c, Node(p, grand)))
  {
    SwapCounts(c, p, grand);
  }

  // ----- static typing

  /** Static typing of a node with clause c over the already linked chain parent.  The flag
      says whether a static context is present; without one, And is not split. */
  function Type(c: Clause, parent: Chain, ctx: bool): (r: Chain)
    ensures SameCounts(r, Node(c, parent)) && NoLarger(r, Node(c, parent))
    ensures Pushable(c, parent) && !Splits(c, ctx) ==> Progress(c, r, Node(c, parent))
    decreases M1(Node(c, parent)), M2(Node(c, parent)), M3(Node(c, parent)), M4(Node(c, parent)),
      TotalSize(Node(c, parent)), 1, 0
  {
    hide M1, M2, M3, M4, TotalSize, Fors, Lets, Orders;
    if Splits(c, ctx) then
      TypeAll(c.cond.args, parent, ctx)
    else if Pushable(c, parent) then
      var tmp, grand := parent.clause, parent.parent;
      ShorterIsSmaller(c, tmp, grand);
      var pushed := Type(c, grand, ctx);
      SwapProgress(c, tmp, grand, pushed);
      Type(tmp, pushed, ctx)
    else
      Node(c, parent)
  }

  lemma SplitIsSmaller(args: seq<Condition>, parent: Chain)
    requires args != []
    ensures NoLarger(Node(Where(args[0]), parent), Node(Where(And(args)), parent))
    ensures TotalSize(Node(Where(args[0]), parent)) < TotalSize(Node(Where(And(args)), parent))
  {
    var w, v := ConditionSize(args[0]), ConditionSize(And(args));
    assert ConditionsSize(args) >= w;
    MoreWeight(w, v, Fors(parent));
    MoreWeight(w, v, Lets(parent));
    MoreWeight(w, v, Orders(parent));
  }

  lemma MoreWeight(w: nat, v: nat, n: nat)
    requires w <= v
    ensures w * n <= v * n
  {
  }

  lemma RestIsNoLarger(args: seq<Condition>, parent: Chain, typed: Chain)
    requires args != []
    requires SameCounts(typed, Node(Where(args[0]), parent)) && NoLarger(typed, Node(Where(args[0]), parent))
    ensures SameCounts(Node(Where(And(args[1..])), typed), Node(Where(And(args)), parent))
    ensures NoLarger(Node(Where(And(args[1..])), typed), Node(Where(And(args)), parent))
  {
    var w, v := ConditionSize(args[0]), ConditionSize(And(args[1..]));
    assert ConditionSize(And(args)) == w + v;
    Distributes(w, v, Fors(parent));
    Distributes(w, v, Lets(parent));
    Distributes(w, v, Orders(parent));
  }

  lemma Distributes(w: nat, v: nat, n: nat)
    ensures (w + v) * n == w * n + v * n
  {
  }

  lemma NothingIsNoLarger(parent: Chain)
    ensures SameCounts(parent, Node(Where(And([])), parent)) && NoLarger(parent, Node(Where(And([])), parent))
  {
    var c := Where(And([]));
    assert ConditionSize(And([])) == 1;
    SmallWhere(c, parent);
    hide M1, M2, M3, M4, TotalSize, Fors, Lets, Orders, ConditionSize;
  }

  lemma SmallWhere(c: Clause, parent: Chain)
    requires c.Where? && Size(c) == 1
    ensures M1(Node(c, parent)) == M1(parent) && M2(Node(c, parent)) == M2(parent) + Fors(parent)
    ensures M3(Node(c, parent)) == M3(parent) + Lets(parent) && M4(Node(c, parent)) == M4(parent) + Orders(parent)
    ensures SameCounts(parent, Node(c, parent)) && TotalSize(Node(c, parent)) == TotalSize(parent) + 1
  {
    var w := Size(c);
    assert LetWeight(c) == 0 && FilterWeight(c) == OtherWeight(c) == WhereWeight(c) == w;
    hide Size, LetWeight, FilterWeight, OtherWeight, WhereWeight;
    assert w * Fors(parent) == Fors(parent) && w * Lets(parent) == Lets(parent) && w * Orders(parent) == Orders(parent);
  }

  // The operands of a split And, each typed over the result of the one before it.
  function TypeAll(args: seq<Condition>, parent: Chain, ctx: bool): (r: Chain)
    ensures SameCounts(r, Node(Where(And(args)), parent)) && NoLarger(r, Node(Where(And(args)), parent))
    decreases M1(Node(Where(And(args)), parent)), M2(Node(Where(And(args)), parent)),
      M3(Node(Where(And(args)), parent)), M4(Node(Where(And(args)), parent)),
      TotalSize(Node(Where(And(args)), parent)), 0, |args|
  {
    hide M1, M2, M3, M4, TotalSize, Fors, Lets, Orders;
    if args == [] then
      NothingIsNoLarger(parent);
      parent
    else
      SplitIsSmaller(args, parent);
      var typed := Type(Where(args[0]), parent, ctx);
      RestIsNoLarger(args, parent, typed);
      TypeAll(args[1..], typed, ctx)
  }

  // How many calls the recursion of Type makes: what the proofs about Type count down.
  ghost function Steps(c: Clause, parent: Chain, ctx: bool): nat
    decreases M1(Node(c, parent)), M2(Node(c, parent)), M3(Node(c, parent)), M4(Node(c, parent)),
      TotalSize(Node(c, parent)), 1, 0
  {
    if Splits(c, ctx) then
      1 + StepsAll(c.cond.args, parent, ctx)
    else if Pushable(c, parent) then
      var tmp, grand := parent.clause, parent.parent;
      ShorterIsSmaller(c, tmp, grand);
      var pushed := Type(c, grand, ctx);
      SwapProgress(c, tmp, grand, pushed);
      1 + Steps(c, grand, ctx) + Steps(tmp, pushed, ctx)
    else
      0
  }

  ghost function StepsAll(args: seq<Condition>, parent: Chain, ctx: bool): nat
    decreases M1(Node(Where(And(args)), parent)), M2(Node(Where(And(args)), parent)),
      M3(Node(Where(And(args)), parent)), M4(Node(Where(And(args)), parent)),
      TotalSize(Node(Where(And(args)), parent)), 0, |args|
  {
    if args == [] then 0
    else
      SplitIsSmaller(args, parent);
      var typed := Type(Where(args[0]), parent, ctx);
      RestIsNoLarger(args, parent, typed);
      1 + Steps(Where(args[0]), parent, ctx) + StepsAll(args[1..], typed, ctx)
  }

  /** Static typing of a whole chain: every parent is typed before its child. */
  function Optimize(ch: Chain, ctx: bool): Chain {
    match ch
    case Root => Root
    case Node(c, p) => Type(c, Optimize(p, ctx), ctx)
  }

  // ----- typing ends in a normal form

  /** No clause of the chain can be split or moved in front of its parent. */
  predicate Normal(ch: Chain, ctx: bool) {
    match ch
    case Root => true
    case Node(c, p) => !Splits(c, ctx) && !Pushable(c, p) && Normal(p, ctx)
  }

  lemma {:induction false} TypeIsNormal(c: Clause, parent: Chain, ctx: bool)
    requires Normal(parent, ctx)
    ensures Normal(Type(c, parent, ctx), ctx)
    decreases Steps(c, parent, ctx)
  {
    if Splits(c, ctx) {
      TypeAllIsNormal(c.cond.args, parent, ctx);
    } else if Pushable(c, parent) {
      var pushed := Type(c, parent.parent, ctx);
      TypeIsNormal(c, parent.parent, ctx);
      TypeIsNormal(parent.clause, pushed, ctx);
    }
  }

  lemma {:induction false} TypeAllIsNormal(args: seq<Condition>, parent: Chain, ctx: bool)
    requires Normal(parent, ctx)
    ensures Normal(TypeAll(args, parent, ctx), ctx)
    decreases StepsAll(args, parent, ctx)
  {
    if args != [] {
      TypeIsNormal(Where(args[0]), parent, ctx);
      TypeAllIsNormal(args[1..], Type(Where(args[0]), parent, ctx), ctx);
    }
  }

  /** The optimised chain is normal, and optimising a chain leaves it alone exactly when it
      is normal; so a second pass changes nothing. */
  lemma {:induction false} OptimizeIsNormal(ch: Chain, ctx: bool)
    ensures Normal(Optimize(ch, ctx), ctx)
    ensures Optimize(Optimize(ch, ctx), ctx) == Optimize(ch, ctx)
    ensures Optimize(ch, ctx) == ch <==> Normal(ch, ctx)
  {
    if ch.Node? {
      OptimizeIsNormal(ch.parent, ctx);
      TypeIsNormal(ch.clause, Optimize(ch.parent, ctx), ctx);
    }
    NormalIsFixed(Optimize(ch, ctx), ctx);
    if Normal(ch, ctx) {
      NormalIsFixed(ch, ctx);
    }
  }

  lemma {:induction false} NormalIsFixed(ch: Chain, ctx: bool)
    requires Normal(ch, ctx)
    ensures Optimize(ch, ctx) == ch
  {
    if ch.Node? {
      NormalIsFixed(ch.parent, ctx);
    }
  }

  // ----- typing keeps the clauses

  // A where clause counts as the operands it may be split into.
  ghost function ConditionPieces(c: Condition): multiset<Clause> {
    match c
    case Test(_, _) => multiset{Where(c)}
    case And(args) => ConditionsPieces(args)
  }

  ghost function ConditionsPieces(args: seq<Condition>): multiset<Clause> {
    if args == [] then multiset{} else ConditionPieces(args[0]) + ConditionsPieces(args[1..])
  }

  ghost function ClausePieces(c: Clause): multiset<Clause> {
    match c
    case Where(cond) => ConditionPieces(cond)
    case _ => multiset{c}
  }

  ghost function Pieces(ch: Chain): multiset<Clause> {
    match ch
    case Root => multiset{}
    case Node(c, p) => ClausePieces(c) + Pieces(p)
  }

  lemma {:induction false} TypeKeepsPieces(c: Clause, parent: Chain, ctx: bool)
    ensures Pieces(Type(c, parent, ctx)) == Pieces(Node(c, parent))
    decreases Steps(c, parent, ctx)
  {
    if Splits(c, ctx) {
      TypeAllKeepsPieces(c.cond.args, parent, ctx);
    } else if Pushable(c, parent) {
      var pushed := Type(c, parent.parent, ctx);
      TypeKeepsPieces(c, parent.parent, ctx);
      TypeKeepsPieces(parent.clause, pushed, ctx);
    }
  }

  lemma {:induction false} TypeAllKeepsPieces(args: seq<Condition>, parent: Chain, ctx: bool)
    ensures Pieces(TypeAll(args, parent, ctx)) == ConditionsPieces(args) + Pieces(parent)
    decreases StepsAll(args, parent, ctx)
  {
    if args != [] {
      TypeKeepsPieces(Where(args[0]), parent, ctx);
      TypeAllKeepsPieces(args[1..], Type(Where(args[0]), parent, ctx), ctx);
    }
  }

  /** Optimising permutes the clauses, up to the splitting of And. */
  lemma {:induction false} OptimizeKeepsPieces(ch: Chain, ctx: bool)
    ensures Pieces(Optimize(ch, ctx)) == Pieces(ch)
  {
    if ch.Node? {
      OptimizeKeepsPieces(ch.parent, ctx);
      TypeKeepsPieces(ch.clause, Optimize(ch.parent, ctx), ctx);
    }
  }

  // ----- typing keeps the tuple stream

  // Moving c in front of p captures no name: what the code does not ask.
  predicate NameSafe(c: Clause, p: Clause) {
    match c
    case Let(v, _) => v !in Uses(p) && v !in Binders(p)
    case Count(n) => p.Count? || (n !in Uses(p) && n !in Binders(p))
    case _ => true
  }

  // Every static analysis is right.
  ghost predicate AllSound(ch: Chain) {
    match ch
    case Root => true
    case Node(c, p) => AllSound(p) && Sound(c)
  }

  /** No swap that typing makes captures a name. */
  predicate SafeToType(c: Clause, parent: Chain, ctx: bool)
    decreases Steps(c, parent, ctx)
  {
    if Splits(c, ctx) then SafeToTypeAll(c.cond.args, parent, ctx)
    else Pushable(c, parent) ==>
      && NameSafe(c, parent.clause)
      && SafeToType(c, parent.parent, ctx)
      && SafeToType(parent.clause, Type(c, parent.parent, ctx), ctx)
  }

  predicate SafeToTypeAll(args: seq<Condition>, parent: Chain, ctx: bool)
    decreases StepsAll(args, parent, ctx)
  {
    args == [] ||
    (SafeToType(Where(args[0]), parent, ctx) && SafeToTypeAll(args[1..], Type(Where(args[0]), parent, ctx), ctx))
  }

  /** No swap that the whole pass makes captures a name. */
  predicate SafeToOptimize(ch: Chain, ctx: bool) {
    match ch
    case Root => true
    case Node(c, p) => SafeToOptimize(p, ctx) && SafeToType(c, Optimize(p, ctx), ctx)
  }

  // The two orders of a swap that captures nothing denote the same stream.
  lemma SwapMeaning(c: Clause, p: Clause, grand: Chain, s: seq<Env>)
    requires Pushable(c, Node(p, grand)) && NameSafe(c, p) && Sound(c) && Sound(p)
    ensures Denote(p, Denote(c, s)) == Denote(c, Denote(p, s))
  {
    match c {
      case Let(v, e) =>
        match p {
          case For(n, pos, f) => LetPastFor(v, e, n, pos, f, s);
          case Let(n, f) => LetPastLet(v, e, n, f, s);
          case Where(cond) => LetPastWhere(v, e, cond, s);
          case OrderBy(spec) => LetPastOrderBy(v, e, spec, s);
          case Count(n) => LetPastCount(v, e, n, s);
        }
      case Where(cond) =>
        match p {
          case For(n, pos, f) => WherePastFor(cond, n, pos, f, s);
          case Let(n, f) => LetPastWhere(n, f, cond, s);
          case Where(other) => FilterFilter(Holds(cond), Holds(other), s);
          case OrderBy(spec) => WherePastOrderBy(cond, spec, s);
          case Count(_) =>
        }
      case OrderBy(spec) =>
        match p {
          case For(n, pos, f) => OrderByPastFor(spec, n, pos, f, s);
          case Let(n, f) => LetPastOrderBy(n, f, spec, s);
          case Where(cond) => WherePastOrderBy(cond, spec, s);
          case _ =>
        }
      case Count(m) =>
        match p {
          case Let(n, f) => LetPastCount(n, f, m, s);
          case Count(n) => CountPastCount(n, m, s);
          case _ =>
        }
      case For(_, _, _) =>
    }
  }

  lemma {:induction false} TypeKeepsSound(c: Clause, parent: Chain, ctx: bool)
    requires Sound(c) && AllSound(parent)
    ensures AllSound(Type(c, parent, ctx))
    decreases Steps(c, parent, ctx)
  {
    if Splits(c, ctx) {
      TypeAllKeepsSound(c.cond.args, parent, ctx);
    } else if Pushable(c, parent) {
      TypeKeepsSound(c, parent.parent, ctx);
      TypeKeepsSound(parent.clause, Type(c, parent.parent, ctx), ctx);
    }
  }

  lemma {:induction false} TypeAllKeepsSound(args: seq<Condition>, parent: Chain, ctx: bool)
    requires SoundConditions(args) && AllSound(parent)
    ensures AllSound(TypeAll(args, parent, ctx))
    decreases StepsAll(args, parent, ctx)
  {
    if args != [] {
      TypeKeepsSound(Where(args[0]), parent, ctx);
      TypeAllKeepsSound(args[1..], Type(Where(args[0]), parent, ctx), ctx);
    }
  }

  lemma {:induction false} TypeKeepsMeaning(c: Clause, parent: Chain, ctx: bool, outer: Env)
    requires Sound(c) && AllSound(parent) && SafeToType(c, parent, ctx)
    ensures Meaning(Type(c, parent, ctx), outer) == Denote(c, Meaning(parent, outer))
    decreases Steps(c, parent, ctx)
  {
    if Splits(c, ctx) {
      TypeAllKeepsMeaning(c.cond.args, parent, ctx, outer);
    } else if Pushable(c, parent) {
      var tmp, grand := parent.clause, parent.parent;
      var pushed := Type(c, grand, ctx);
      TypeKeepsMeaning(c, grand, ctx, outer);
      SwapMeaning(c, tmp, grand, Meaning(grand, outer));
      TypeKeepsSound(c, grand, ctx);
      TypeKeepsMeaning(tmp, pushed, ctx, outer);
    }
  }

  lemma {:induction false} TypeAllKeepsMeaning(args: seq<Condition>, parent: Chain, ctx: bool, outer: Env)
    requires AllSound(parent) && SoundConditions(args) && SafeToTypeAll(args, parent, ctx)
    ensures Meaning(TypeAll(args, parent, ctx), outer) == Denote(Where(And(args)), Meaning(parent, outer))
    decreases StepsAll(args, parent, ctx)
  {
    var s := Meaning(parent, outer);
    if args == [] {
      forall env | env in s ensures Holds(And(args))(env) == true {
        assert AllHold(args, env);
      }
      FilterAllOrNone(Holds(And(args)), s, true);
    } else {
      var typed := Type(Where(args[0]), parent, ctx);
      TypeKeepsMeaning(Where(args[0]), parent, ctx, outer);
      TypeKeepsSound(Where(args[0]), parent, ctx);
      TypeAllKeepsMeaning(args[1..], typed, ctx, outer);
      forall env | env in s
        ensures Holds(And(args))(env) == (Holds(args[0])(env) && Holds(And(args[1..]))(env))
      {
        assert AllHold(args, env) == (ConditionHolds(args[0], env) && AllHold(args[1..], env));
      }
      FilterBoth(Holds(args[0]), Holds(And(args[1..])), Holds(And(args)), s);
    }
  }

  /** Unless a swap captures a name, the optimiser keeps the tuple stream, tuple by tuple and in
      order, in every outer scope. */
  lemma {:induction false} OptimizeKeepsMeaning(ch: Chain, ctx: bool, outer: Env)
    requires AllSound(ch) && SafeToOptimize(ch, ctx)
    ensures Meaning(Optimize(ch, ctx), outer) == Meaning(ch, outer)
    ensures AllSound(Optimize(ch, ctx))
  {
    if ch.Node? {
      OptimizeKeepsMeaning(ch.parent, ctx, outer);
      TypeKeepsSound(ch.clause, Optimize(ch.parent, ctx), ctx);
      TypeKeepsMeaning(ch.clause, Optimize(ch.parent, ctx), ctx, outer);
    }
  }

  // ----- a condition on the names alone

  function ChainBinders(ch: Chain): set<Name> {
    match ch case Root => {} case Node(c, p) => Binders(c) + ChainBinders(p)
  }

  function ChainUses(ch: Chain): set<Name> {
    match ch case Root => {} case Node(c, p) => Uses(c) + ChainUses(p)
  }

  // A clause that binds a name and may be moved.
  predicate Moves(c: Clause) {
    c.Count? || (c.Let? && !c.expr.creative)
  }

  /** No clause that may be moved binds a name that an earlier clause binds or uses. */
  predicate WellScoped(ch: Chain) {
    match ch
    case Root => true
    case Node(c, p) => WellScoped(p) && (Moves(c) ==> Binders(c) !! (ChainBinders(p) + ChainUses(p)))
  }

  lemma SwapKeepsScope(c: Clause, p: Clause, grand: Chain, pushed: Chain)
    requires Pushable(c, Node(p, grand)) && WellScoped(Node(c, Node(p, grand))) && WellScoped(pushed)
    requires ChainBinders(pushed) == Binders(c) + ChainBinders(grand)
    requires ChainUses(pushed) == Uses(c) + ChainUses(grand)
    ensures NameSafe(c, p) && WellScoped(Node(p, pushed))
    ensures ChainBinders(Node(p, pushed)) == ChainBinders(Node(c, Node(p, grand)))
    ensures ChainUses(Node(p, pushed)) == ChainUses(Node(c, Node(p, grand)))
  {
  }

  lemma {:induction false} TypeKeepsScope(c: Clause, parent: Chain, ctx: bool)
    requires WellScoped(Node(c, parent))
    ensures SafeToType(c, parent, ctx) && WellScoped(Type(c, parent, ctx))
    ensures ChainBinders(Type(c, parent, ctx)) == ChainBinders(Node(c, parent))
    ensures ChainUses(Type(c, parent, ctx)) == ChainUses(Node(c, parent))
    decreases Steps(c, parent, ctx)
  {
    if Splits(c, ctx) {
      TypeAllKeepsScope(c.cond.args, parent, ctx);
    } else if Pushable(c, parent) {
      var tmp, grand := parent.clause, parent.parent;
      var pushed := Type(c, grand, ctx);
      TypeKeepsScope(c, grand, ctx);
      SwapKeepsScope(c, tmp, grand, pushed);
      TypeKeepsScope(tmp, pushed, ctx);
    }
  }

  lemma {:induction false} TypeAllKeepsScope(args: seq<Condition>, parent: Chain, ctx: bool)
    requires WellScoped(parent)
    ensures SafeToTypeAll(args, parent, ctx) && WellScoped(TypeAll(args, parent, ctx))
    ensures ChainBinders(TypeAll(args, parent, ctx)) == ChainBinders(parent)
    ensures ChainUses(TypeAll(args, parent, ctx)) == AllUses(args) + ChainUses(parent)
    decreases StepsAll(args, parent, ctx)
  {
    if args != [] {
      TypeKeepsScope(Where(args[0]), parent, ctx);
      TypeAllKeepsScope(args[1..], Type(Where(args[0]), parent, ctx), ctx);
    }
  }

  /** Where the clauses that may be moved bind names of their own, no swap captures one. */
  lemma {:induction false} WellScopedIsSafe(ch: Chain, ctx: bool)
    requires WellScoped(ch)
    ensures SafeToOptimize(ch, ctx) && WellScoped(Optimize(ch, ctx))
    ensures ChainBinders(Optimize(ch, ctx)) == ChainBinders(ch)
    ensures ChainUses(Optimize(ch, ctx)) == ChainUses(ch)
  {
    if ch.Node? {
      WellScopedIsSafe(ch.parent, ctx);
      TypeKeepsScope(ch.clause, Optimize(ch.parent, ctx), ctx);
    }
  }
}
