/** Path expressions: their meaning, the properties inferred for them, and what static typing
    does to them. */
module PathExpressions {
  import opened Options
  import opened Sequences
  import opened FastXdm
  import opened FastXdmNavigation
  import opened DocumentOrder
  import opened Axes

  datatype Kind = DocumentKind | ElementKind | AttributeKind | TextKind | CommentKind | PIKind

  // AnyNode is the type wildcard, which may have been told that only nodes with children matter.
  datatype NodeTest = AnyNode(hasChildren: bool) | OnlyKind(kind: Kind, name: Item -> bool)

  // A predicate tests the item alone, or also its position and the number of items.
  datatype Keep = ByItem(test: Item -> bool) | ByPosition(positional: (Item, nat, nat) -> bool)

  // What static typing knows besides the properties: that there are no atomic results, that
  // nodes are created, and that nothing may be folded around the expression.
  datatype Traits = Traits(nodes: bool, creates: bool, forced: bool)

  const PLAIN := Traits(true, false, false)

  // A call may use the context, a constant does not; each has the properties that the function
  // declares.  A variable stands for its value, with the properties it was declared with.
  datatype Expr =
    | Step(axis: Axis, test: NodeTest)
    | Filtered(inner: Expr, keep: Keep)
    | Nav(steps: seq<Expr>)
    | Sorted(inner: Expr)
    | Mapped(first: Expr, each: Expr)
    | Call(walk: Walk, declared: Props, traits: Traits)
    | Constant(items: seq<Item>, declared: Props, traits: Traits)
    | Variable(items: seq<Item>, flags: Props, traits: Traits)

  predicate KindIs(w: World, kind: Kind, y: Item)
    requires In(w, y)
  {
    if kind.AttributeKind? then y.slot > 0
    else
      && y.slot == 0
      && var data := w[y.doc].nodes[y.node].data;
      match kind
      case DocumentKind => data.DocumentData?
      case ElementKind => data.ElementData?
      case TextKind => data.TextData?
      case CommentKind => data.CommentData?
      case PIKind => data.PIData?
  }

  // A node that may have children.
  predicate HasKids(w: World, y: Item)
    requires In(w, y)
  {
    y.slot == 0 && IsContainer(w[y.doc].nodes[y.node])
  }

  predicate Accepts(w: World, test: NodeTest, y: Item) {
    && In(w, y)
    && match test
       case AnyNode(hasChildren) => hasChildren ==> HasKids(w, y)
       case OnlyKind(kind, name) => KindIs(w, kind, y) && name(y)
  }

  function Tester(w: World, test: NodeTest): Item -> bool {
    y => Accepts(w, test, y)
  }

  // The items that pass, where the first of them has the given position.
  function KeepFrom(test: (Item, nat, nat) -> bool, s: seq<Item>, position: nat, size: nat): seq<Item> {
    if s == [] then []
    else if test(s[0], position, size) then [s[0]] + KeepFrom(test, s[1..], position + 1, size)
    else KeepFrom(test, s[1..], position + 1, size)
  }

  function Kept(keep: Keep, s: seq<Item>): seq<Item> {
    match keep
    case ByItem(test) => Filter(test, s)
    case ByPosition(positional) => KeepFrom(positional, s, 1, |s|)
  }

  /** What an expression selects from a context item. */
  ghost function Eval(w: World, e: Expr, x: Item): seq<Item>
    decreases e, 0
  {
    match e
    case Step(axis, test) => if In(w, x) then Filter(Tester(w, test), OnAxisFrom(w, axis, x)) else []
    case Filtered(inner, keep) => Kept(keep, Eval(w, inner, x))
    case Nav(steps) => if steps == [] then [] else EvalSteps(w, steps, [x])
    case Sorted(inner) => Ordered(Eval(w, inner, x))
    case Mapped(first, each) => FlatMap(WalkOf(w, each), Eval(w, first, x))
    case Call(walk, _, _) => walk(x)
    case Constant(items, _, _) => items
    case Variable(items, _, _) => items
  }

  ghost function WalkOf(w: World, e: Expr): Walk
    decreases e, 1
  {
    x => Eval(w, e, x)
  }

  // The steps in turn, each from every result of the one before it.
  ghost function EvalSteps(w: World, steps: seq<Expr>, r: seq<Item>): seq<Item>
    decreases steps, 1
  {
    if steps == [] then r else EvalSteps(w, steps[1..], FlatMap(WalkOf(w, steps[0]), r))
  }

  // Calls, constants and variables deliver nodes of the stored documents.
  ghost predicate Within(w: World, e: Expr) {
    match e
    case Step(_, _) => true
    case Filtered(inner, _) => Within(w, inner)
    case Nav(steps) => forall k :: 0 <= k < |steps| ==> Within(w, steps[k])
    case Sorted(inner) => Within(w, inner)
    case Mapped(first, each) => Within(w, first) && Within(w, each)
    case Call(walk, _, _) => forall x :: In(w, x) ==> Stays(w, walk(x))
    case Constant(items, _, _) => Stays(w, items)
    case Variable(items, _, _) => Stays(w, items)
  }

  // ----- inferred properties

  /** The properties that static typing infers. */
  function Properties(e: Expr): Props
    decreases e, 0
  {
    match e
    case Step(axis, _) => AxisProperties(axis)
    case Filtered(inner, _) => Properties(inner)
    case Nav(steps) => FoldSteps(ALL, steps)
    case Sorted(inner) =>
      if DocOrder in Properties(inner) then Properties(inner) else Properties(inner) + {DocOrder, Grouped}
    case Mapped(first, each) => CombineProperties(Properties(first), Properties(each))
    case Call(_, declared, _) => declared
    case Constant(_, declared, _) => declared
    case Variable(_, flags, _) => Inherited(flags)
  }

  // What the use of a variable takes over from its declaration.
  function Inherited(flags: Props): Props {
    flags - {Subtree, SameDoc}
  }

  // The declaration of a for, let or quantified variable, of exactly one item or not.
  function DeclaredFlags(one: bool): Props {
    if one then ALL + {Self} else {}
  }

  function FoldSteps(ps: Props, steps: seq<Expr>): Props
    decreases steps, 1
  {
    if steps == [] then ps else FoldSteps(CombineProperties(ps, Properties(steps[0])), steps[1..])
  }

  lemma {:induction false} FoldStepsAt(ps: Props, steps: seq<Expr>, k: nat)
    requires k < |steps|
    ensures FoldSteps(ps, steps[..k + 1]) == CombineProperties(FoldSteps(ps, steps[..k]), Properties(steps[k]))
    ensures FoldSteps(ps, steps) == FoldSteps(FoldSteps(ps, steps[..k + 1]), steps[k + 1..])
    decreases k
  {
    hide Properties, CombineProperties;
    if k == 0 {
      assert steps[..1][1..] == [] && steps[..0] == [];
    } else {
      var tail, next := steps[1..], CombineProperties(ps, Properties(steps[0]));
      FoldStepsAt(next, tail, k - 1);
      assert steps[..k + 1][1..] == tail[..k] && steps[..k][1..] == tail[..k - 1] && steps[k + 1..] == tail[k..];
    }
  }

  // ----- the steps of a path in turn

  lemma NoSteps(w: World, r: seq<Item>)
    ensures EvalSteps(w, [], r) == r
  {
  }

  lemma EvalStepsCons(w: World, e: Expr, rest: seq<Expr>, r: seq<Item>)
    ensures EvalSteps(w, [e] + rest, r) == EvalSteps(w, rest, FlatMap(WalkOf(w, e), r))
  {
    assert ([e] + rest)[1..] == rest;
  }

  lemma {:induction false} EvalStepsConcat(w: World, a: seq<Expr>, b: seq<Expr>, r: seq<Item>)
    ensures EvalSteps(w, a + b, r) == EvalSteps(w, b, EvalSteps(w, a, r))
    decreases |a|
  {
    hide FlatMap, Eval, WalkOf;
    if a == [] {
      assert a + b == b;
    } else {
      assert (a + b)[1..] == a[1..] + b;
      EvalStepsConcat(w, a[1..], b, FlatMap(WalkOf(w, a[0]), r));
    }
  }

  lemma StepsFromOne(w: World, steps: seq<Expr>, x: Item)
    requires steps != []
    ensures EvalSteps(w, steps, [x]) == EvalSteps(w, steps[1..], Eval(w, steps[0], x))
  {
    Singleton((_: Item) => true, WalkOf(w, steps[0]), x);
  }

  lemma {:induction false} StepsFromNothing(w: World, steps: seq<Expr>)
    ensures EvalSteps(w, steps, []) == []
    decreases |steps|
  {
    if steps != [] {
      StepsFromNothing(w, steps[1..]);
      NothingMapped(WalkOf(w, steps[0]));
    }
  }

  lemma NothingMapped(f: Walk)
    ensures FlatMap(f, []) == []
  {
  }

  lemma FirstMember(r: seq<Item>)
    ensures r != [] ==> r[0] in r
  {
  }

  lemma {:induction false} FlatMapSame<A, B>(f: A -> seq<B>, g: A -> seq<B>, s: seq<A>)
    requires forall x :: x in s ==> f(x) == g(x)
    ensures FlatMap(f, s) == FlatMap(g, s)
  {
    if s != [] {
      FlatMapSame(f, g, s[1..]);
    }
  }

  // Flat-mapping respects sets of items.
  lemma FlatMapItems(f: Walk, g: Walk, a: seq<Item>, b: seq<Item>)
    requires SameItems(a, b) && forall x :: x in a ==> SameItems(f(x), g(x))
    ensures SameItems(FlatMap(f, a), FlatMap(g, b))
  {
    forall y ensures y in FlatMap(f, a) <==> y in FlatMap(g, b) {
      FlatMapMember(f, a, y);
      FlatMapMember(g, b, y);
    }
  }

  lemma {:induction false} EvalStepsItems(w: World, steps: seq<Expr>, a: seq<Item>, b: seq<Item>)
    requires SameItems(a, b)
    ensures SameItems(EvalSteps(w, steps, a), EvalSteps(w, steps, b))
    decreases |steps|
  {
    hide FlatMap, Eval, WalkOf;
    if steps != [] {
      var f := WalkOf(w, steps[0]);
      FlatMapItems(f, f, a, b);
      EvalStepsItems(w, steps[1..], FlatMap(f, a), FlatMap(f, b));
    }
  }

  // ----- steps that do not use the context

  // The context item matters for what the expression selects.
  predicate UsesContext(e: Expr) {
    match e
    case Step(_, _) => true
    case Filtered(inner, _) => UsesContext(inner)
    case Nav(steps) => steps != [] && UsesContext(steps[0])
    case Sorted(inner) => UsesContext(inner)
    case Mapped(first, _) => UsesContext(first)
    case Call(_, _, _) => true
    case Constant(_, _, _) => false
    case Variable(_, _, _) => false
  }

  /** A step that does not use the context selects the same from every item. */
  lemma {:induction false} ConstantEverywhere(w: World, e: Expr, x: Item, y: Item)
    requires !UsesContext(e)
    ensures Eval(w, e, x) == Eval(w, e, y)
  {
    hide Ordered, EvalSteps, FlatMap;
    match e {
      case Filtered(inner, _) => ConstantEverywhere(w, inner, x, y);
      case Nav(steps) =>
        if steps != [] {
          ConstantEverywhere(w, steps[0], x, y);
          StepsFromOne(w, steps, x);
          StepsFromOne(w, steps, y);
        }
      case Sorted(inner) => ConstantEverywhere(w, inner, x, y);
      case Mapped(first, _) => ConstantEverywhere(w, first, x, y);
      case Constant(_, _, _) =>
      case Variable(_, _, _) =>
      case Step(_, _) =>
      case Call(_, _, _) =>
    }
  }

  lemma FromEach(w: World, e: Expr, r: seq<Item>, x: Item)
    requires !UsesContext(e) && r != []
    ensures SameItems(FlatMap(WalkOf(w, e), r), Eval(w, e, x))
  {
    hide Eval, FlatMap;
    forall y ensures y in FlatMap(WalkOf(w, e), r) <==> y in Eval(w, e, x) {
      FlatMapMember(WalkOf(w, e), r, y);
      assert r[0] in r;
      forall z ensures WalkOf(w, e)(z) == Eval(w, e, x) {
        ConstantEverywhere(w, e, z, x);
      }
    }
  }

  // The static type has no atomic types.
  predicate OnlyNodes(e: Expr) {
    match e
    case Step(_, _) => true
    case Filtered(inner, _) => OnlyNodes(inner)
    case Nav(steps) => steps == [] || OnlyNodes(steps[|steps| - 1])
    case Sorted(inner) => OnlyNodes(inner)
    case Mapped(_, each) => OnlyNodes(each)
    case Call(_, _, traits) => traits.nodes
    case Constant(_, _, traits) => traits.nodes
    case Variable(_, _, traits) => traits.nodes
  }

  predicate Creates(e: Expr) {
    match e
    case Step(_, _) => false
    case Filtered(inner, _) => Creates(inner)
    case Nav(steps) => exists k :: 0 <= k < |steps| && Creates(steps[k])
    case Sorted(inner) => Creates(inner)
    case Mapped(first, each) => Creates(first) || Creates(each)
    case Call(_, _, traits) => traits.creates
    case Constant(_, _, traits) => traits.creates
    case Variable(_, _, traits) => traits.creates
  }

  predicate Forced(e: Expr) {
    match e
    case Step(_, _) => false
    case Filtered(inner, _) => Forced(inner)
    case Nav(steps) => AnyForced(steps)
    case Sorted(inner) => Forced(inner)
    case Mapped(first, each) => Forced(first) || Forced(each)
    case Call(_, _, traits) => traits.forced
    case Constant(_, _, traits) => traits.forced
    case Variable(_, _, traits) => traits.forced
  }

  predicate AnyForced(steps: seq<Expr>) {
    exists k :: 0 <= k < |steps| && Forced(steps[k])
  }

  // A step that clears the ones before it, unless one of them forbids folding.
  predicate Cuts(e: Expr) {
    !UsesContext(e) && OnlyNodes(e) && !Creates(e)
  }

  predicate CutsAt(steps: seq<Expr>, k: nat)
    requires k < |steps|
  {
    Cuts(steps[k]) && !AnyForced(steps[..k])
  }

  // The last of the steps after the first that clears the ones before it, or the first step.
  function LastConstant(steps: seq<Expr>): (k: nat)
    ensures k == 0 || (k < |steps| && CutsAt(steps, k))
    ensures forall j :: k < j < |steps| ==> !CutsAt(steps, j)
  {
    LastCutBefore(steps, |steps|)
  }

  function LastCutBefore(steps: seq<Expr>, n: nat): (k: nat)
    requires n <= |steps|
    ensures k == 0 || (k < n && CutsAt(steps, k))
    ensures forall j :: k < j < n ==> !CutsAt(steps, j)
  {
    if n <= 1 then 0 else if CutsAt(steps, n - 1) then n - 1 else LastCutBefore(steps, n - 1)
  }

  // ----- where the inferred properties are right

  /** The properties inferred for the expression are right at every context item: calls are what
      they declare, and every simple map combines properties for which the rule is sound; or
      nothing is said of the context item at all. */
  ghost predicate Earned(w: World, e: Expr)
    decreases e, 1
  {
    || (Carries(w, e) && Properties(e) !! {Subtree, SameDoc, Self})
    || match e
       case Step(_, _) => true
       case Filtered(inner, _) => Earned(w, inner)
       case Nav(steps) => forall k :: 0 <= k < |steps| ==> Earned(w, steps[k])
       case Sorted(inner) => Earned(w, inner)
       case Mapped(first, each) =>
         Earned(w, first) && Earned(w, each) && SubtreeEarned(Properties(first), Properties(each))
       case Call(walk, declared, _) => Holds(w, declared, walk)
       case Constant(items, declared, _) => forall x :: In(w, x) ==> Has(w, declared, x, items)
       case Variable(_, _, _) => false
  }

  /** What they say regardless of the context item is right: of calls, constants and variables
      what they declare; and only steps that are taken from more than one item need be right
      altogether. */
  ghost predicate Carries(w: World, e: Expr)
    decreases e, 0
  {
    match e
    case Step(_, _) => true
    case Filtered(inner, _) => Carries(w, inner)
    case Nav(steps) => FoldCarries(w, ALL, steps)
    case Sorted(inner) => if inner.Nav? then CutCarries(w, inner.steps) else Carries(w, inner)
    case Mapped(first, each) => Carries(w, first) && StepCarries(w, Properties(first), each)
    case Call(walk, declared, _) => forall x :: In(w, x) ==> Has(w, Carried(declared), x, walk(x))
    case Constant(items, declared, _) => forall x :: In(w, x) ==> Has(w, Carried(declared), x, items)
    case Variable(items, flags, _) => forall x :: In(w, x) ==> Has(w, Carried(Inherited(flags)), x, items)
  }

  // A step from results with the properties ps.
  ghost predicate StepCarries(w: World, ps: Props, e: Expr)
    decreases e, 2
  {
    Earned(w, e) || (OneNode in Carried(ps) && Carries(w, e))
  }

  ghost predicate FoldCarries(w: World, ps: Props, steps: seq<Expr>)
    decreases steps, 0
  {
    || steps == []
    || (StepCarries(w, ps, steps[0]) && FoldCarries(w, CombineProperties(ps, Properties(steps[0])), steps[1..]))
  }

  // The set of results of a path depends on its last constant step and what follows only.
  ghost predicate CutCarries(w: World, steps: seq<Expr>)
    decreases steps, 1
  {
    || steps == []
    || var k := LastConstant(steps);
       Carries(w, steps[k]) && FoldCarries(w, FoldSteps(ALL, steps[..k + 1]), steps[k + 1..])
  }

  lemma {:induction false} KeepIsSub(test: (Item, nat, nat) -> bool, s: seq<Item>, position: nat, size: nat)
    ensures Sub(KeepFrom(test, s, position, size), s)
  {
    if s != [] {
      var rest := KeepFrom(test, s[1..], position + 1, size);
      KeepIsSub(test, s[1..], position + 1, size);
      assert ([s[0]] + rest)[1..] == rest;
    }
  }

  lemma KeptIsSub(keep: Keep, s: seq<Item>)
    ensures Sub(Kept(keep, s), s)
  {
    match keep {
      case ByItem(test) => FilterIsSub(test, s);
      case ByPosition(positional) => KeepIsSub(positional, s, 1, |s|);
    }
  }

  // Sorting keeps every property of the results.
  lemma OrderedHas(w: World, ps: Props, x: Item, r: seq<Item>)
    requires In(w, x) && Has(w, ps, x, r)
    ensures Has(w, ps + {DocOrder, Grouped}, x, Ordered(r))
  {
    hide Ordered, InGroups, Under;
    OrderedMeans(r);
    IncreasingIsGrouped(Ordered(r));
    if Increasing(r) {
      OrderedIsIdentity(r);
    }
    forall p | p in ps + {DocOrder, Grouped} ensures HoldsAt(w, p, x, Ordered(r)) {
      assert p in ps ==> HoldsAt(w, p, x, r);
    }
  }

  lemma StepSound(w: World, axis: Axis, test: NodeTest, x: Item)
    requires In(w, x)
    ensures Has(w, AxisProperties(axis), x, Eval(w, Step(axis, test), x))
  {
    hide Has, Sub, OnAxisFrom;
    AxisSound(w, axis, x);
    FilterIsSub(Tester(w, test), OnAxisFrom(w, axis, x));
    SubHas(w, AxisProperties(axis), x, Eval(w, Step(axis, test), x), OnAxisFrom(w, axis, x));
  }

  /** Every inferred property that is earned holds of the results at their context item. */
  lemma {:induction false} PropertiesSound(w: World, e: Expr, x: Item)
    requires In(w, x) && Within(w, e) && Earned(w, e)
    ensures Has(w, Properties(e), x, Eval(w, e, x))
    decreases e, 1
  {
    hide Has, Ordered, FlatMap, Sub, OnAxisFrom, Carries;
    if Carries(w, e) && Properties(e) !! {Subtree, SameDoc, Self} {
      CarriesSound(w, e, x);
      ApartOnly(Properties(e));
      HasFewer(w, Carried(Properties(e)), Properties(e), x, Eval(w, e, x));
    } else {
      match e {
        case Step(axis, test) => StepSound(w, axis, test, x);
        case Filtered(inner, keep) =>
          PropertiesSound(w, inner, x);
          KeptIsSub(keep, Eval(w, inner, x));
          SubHas(w, Properties(e), x, Eval(w, e, x), Eval(w, inner, x));
        case Nav(steps) =>
          OneItem(w, ALL, x);
          if steps != [] {
            StepsSound(w, steps, ALL, x, [x]);
          } else {
            NothingHas(w, ALL, x);
          }
        case Sorted(inner) =>
          PropertiesSound(w, inner, x);
          OrderedHas(w, Properties(inner), x, Eval(w, inner, x));
          if DocOrder in Properties(inner) {
            HasFewer(w, Properties(inner) + {DocOrder, Grouped}, Properties(inner), x, Eval(w, e, x));
          }
        case Mapped(first, each) =>
          PropertiesSound(w, first, x);
          WalkSound(w, each);
          CombineSound(w, x, Eval(w, first, x), WalkOf(w, each), Properties(first), Properties(each));
        case Call(_, _, _) =>
        case Constant(_, _, _) =>
        case Variable(_, _, _) =>
      }
    }
  }

  lemma ApartOnly(p: Props)
    requires p !! {Subtree, SameDoc, Self}
    ensures p <= Carried(p)
  {
    forall c | c in p ensures c in Carried(p) {
      EveryProperty(c);
    }
  }

  lemma NothingHas(w: World, ps: Props, x: Item)
    requires In(w, x)
    ensures Has(w, ps, x, [])
  {
  }

  lemma {:induction false} WalkSound(w: World, e: Expr)
    requires Within(w, e) && Earned(w, e)
    ensures Holds(w, Properties(e), WalkOf(w, e))
    decreases e, 2
  {
    hide Has, Earned;
    forall x | In(w, x) ensures Has(w, Properties(e), x, WalkOf(w, e)(x)) {
      PropertiesSound(w, e, x);
    }
  }

  lemma {:induction false} StepsSound(w: World, steps: seq<Expr>, ps: Props, x: Item, r: seq<Item>)
    requires In(w, x) && Has(w, ps, x, r) && PeersBelow(ps)
    requires forall k :: 0 <= k < |steps| ==> Within(w, steps[k]) && Earned(w, steps[k])
    ensures Has(w, FoldSteps(ps, steps), x, EvalSteps(w, steps, r))
    decreases steps, 1
  {
    hide Has, FlatMap, CombineProperties, Properties, Earned;
    if steps != [] {
      var q := Properties(steps[0]);
      WalkSound(w, steps[0]);
      FoldEarns(ps, q);
      CombineSound(w, x, r, WalkOf(w, steps[0]), ps, q);
      StepsSound(w, steps[1..], CombineProperties(ps, q), x, FlatMap(WalkOf(w, steps[0]), r));
    }
  }

  /** What the inferred properties say regardless of the context item holds of the results. */
  lemma {:induction false} CarriesSound(w: World, e: Expr, x: Item)
    requires In(w, x) && Within(w, e) && Carries(w, e)
    ensures Has(w, Carried(Properties(e)), x, Eval(w, e, x))
    decreases e, 0
  {
    hide Has, Ordered, FlatMap, Sub, OnAxisFrom, EvalSteps, Carried, CombineProperties;
    hide StepCarries, FoldCarries, CutCarries;
    match e {
      case Step(axis, test) =>
        StepSound(w, axis, test, x);
        CarriedHolds(w, AxisProperties(axis), x, x, Eval(w, e, x));
      case Filtered(inner, keep) =>
        CarriesSound(w, inner, x);
        KeptIsSub(keep, Eval(w, inner, x));
        SubHas(w, Carried(Properties(e)), x, Eval(w, e, x), Eval(w, inner, x));
      case Nav(steps) =>
        OneItem(w, Carried(ALL), x);
        if steps != [] {
          FoldSound(w, steps, ALL, x, [x]);
        } else {
          NothingHas(w, Carried(Properties(e)), x);
        }
      case Sorted(inner) =>
        if inner.Nav? {
          CutSound(w, inner.steps, x);
        } else {
          CarriesSound(w, inner, x);
          OrderedHas(w, Carried(Properties(inner)), x, Eval(w, inner, x));
        }
        SortedCarried(Properties(inner));
        HasFewer(w, Carried(Properties(inner)) + {DocOrder, Grouped}, Carried(Properties(e)), x, Eval(w, e, x));
      case Mapped(first, each) =>
        CarriesSound(w, first, x);
        CarriedStep(w, Properties(first), each, x, Eval(w, first, x));
      case Call(_, _, _) =>
      case Constant(_, _, _) =>
      case Variable(_, _, _) =>
    }
  }

  lemma InheritedCarried(flags: Props)
    ensures Carried(Inherited(flags)) <= Carried(flags)
  {
  }

  lemma SortedCarried(p: Props)
    ensures Carried(p) <= Carried(p) + {DocOrder, Grouped}
    ensures Carried(p + {DocOrder, Grouped}) <= Carried(p) + {DocOrder, Grouped}
  {
  }

  lemma {:induction false} CarriedStep(w: World, ps: Props, e: Expr, x: Item, r: seq<Item>)
    requires In(w, x) && Has(w, Carried(ps), x, r) && Within(w, e) && StepCarries(w, ps, e)
    ensures Has(w, Carried(CombineProperties(ps, Properties(e))), x, FlatMap(WalkOf(w, e), r))
    decreases e, 3
  {
    hide Has, FlatMap, CombineProperties, Properties, Earned, Carries, Carried;
    if Earned(w, e) {
      WalkSound(w, e);
      CarriedCombines(w, x, r, WalkOf(w, e), ps, Properties(e));
    } else {
      forall z | In(w, z) ensures Has(w, Carried(Properties(e)), z, WalkOf(w, e)(z)) {
        CarriesSound(w, e, z);
      }
      CarriedFromOne(w, x, r, WalkOf(w, e), ps, Properties(e));
    }
  }

  lemma {:induction false} FoldSound(w: World, steps: seq<Expr>, ps: Props, x: Item, r: seq<Item>)
    requires In(w, x) && Has(w, Carried(ps), x, r) && FoldCarries(w, ps, steps)
    requires forall k :: 0 <= k < |steps| ==> Within(w, steps[k])
    ensures Has(w, Carried(FoldSteps(ps, steps)), x, EvalSteps(w, steps, r))
    decreases steps, 0
  {
    hide Has, FlatMap, CombineProperties, Properties, StepCarries, Carried;
    if steps != [] {
      CarriedStep(w, ps, steps[0], x, r);
      FoldSound(w, steps[1..], CombineProperties(ps, Properties(steps[0])), x, FlatMap(WalkOf(w, steps[0]), r));
    }
  }

  /** From its last constant step on, a path delivers results of which the properties inferred
      for the whole path say the truth. */
  lemma {:induction false} LastPartSound(w: World, steps: seq<Expr>, x: Item)
    requires In(w, x) && steps != [] && CutCarries(w, steps)
    requires forall k :: 0 <= k < |steps| ==> Within(w, steps[k])
    ensures Has(w, Carried(FoldSteps(ALL, steps)), x, EvalSteps(w, steps[LastConstant(steps)..], [x]))
    decreases steps, 1
  {
    hide Has, FlatMap, CombineProperties, Properties, Carried, EvalSteps, Carries, FoldCarries, UsesContext;
    var k := LastConstant(steps);
    var e, before := steps[k], FoldSteps(ALL, steps[..k]);
    FoldStepsAt(ALL, steps, k);
    assert steps[k..][1..] == steps[k + 1..];
    StepsFromOne(w, steps[k..], x);
    CarriesSound(w, e, x);
    CombineCarries(before, Properties(e));
    HasFewer(w, Carried(Properties(e)), Carried(CombineProperties(before, Properties(e))), x, Eval(w, e, x));
    FoldSound(w, steps[k + 1..], FoldSteps(ALL, steps[..k + 1]), x, Eval(w, e, x));
  }

  // A sorted path.
  lemma {:induction false} CutSound(w: World, steps: seq<Expr>, x: Item)
    requires In(w, x) && CutCarries(w, steps)
    requires forall k :: 0 <= k < |steps| ==> Within(w, steps[k])
    ensures Has(w, Carried(FoldSteps(ALL, steps)) + {DocOrder, Grouped}, x, Ordered(Eval(w, Nav(steps), x)))
    decreases steps, 2
  {
    hide Has, CombineProperties, Properties, Carried, EvalSteps, CutCarries, Ordered, FoldSteps;
    var ps := Carried(FoldSteps(ALL, steps)) + {DocOrder, Grouped};
    if Eval(w, Nav(steps), x) == [] {
      NothingSorted();
      NothingHas(w, ps, x);
    } else {
      var last := EvalSteps(w, steps[LastConstant(steps)..], [x]);
      LastPartSound(w, steps, x);
      OrderedHas(w, Carried(FoldSteps(ALL, steps)), x, last);
      LastPartItems(w, steps, x);
      OrderedOfSame(Eval(w, Nav(steps), x), last);
    }
  }

  lemma NothingSorted()
    ensures Ordered([]) == []
  {
  }

  // A path that selects something selects what its last part does.
  lemma LastPartItems(w: World, steps: seq<Expr>, x: Item)
    requires steps != [] && EvalSteps(w, steps, [x]) != []
    ensures SameItems(EvalSteps(w, steps, [x]), EvalSteps(w, steps[LastConstant(steps)..], [x]))
  {
    hide EvalSteps, UsesContext, FlatMap, Eval;
    var k := LastConstant(steps);
    if k == 0 {
      assert steps[0..] == steps;
    } else {
      var r, e, rest := EvalSteps(w, steps[..k], [x]), steps[k], steps[k + 1..];
      assert steps == steps[..k] + ([e] + rest) && steps[k..] == [e] + rest;
      EvalStepsConcat(w, steps[..k], [e] + rest, [x]);
      StepsFromNothing(w, [e] + rest);
      EvalStepsCons(w, e, rest, r);
      EvalStepsCons(w, e, rest, [x]);
      FromEach(w, e, r, x);
      FromEach(w, e, [x], x);
      EvalStepsItems(w, rest, FlatMap(WalkOf(w, e), r), FlatMap(WalkOf(w, e), [x]));
    }
  }

  /** Where document order is inferred, the sort can be left out. */
  lemma SortIsNotNeeded(w: World, e: Expr, x: Item)
    requires In(w, x) && Within(w, e) && Carries(w, e) && DocOrder in Properties(e)
    ensures Eval(w, Sorted(e), x) == Eval(w, e, x)
  {
    hide Carries, HoldsAt;
    CarriesSound(w, e, x);
    OrderIsCarried(Properties(e));
    assert HoldsAt(w, DocOrder, x, Eval(w, e, x));
    IsIncreasing(w, x, Eval(w, e, x));
    OrderedIsIdentity(Eval(w, e, x));
  }

  lemma IsIncreasing(w: World, x: Item, r: seq<Item>)
    requires In(w, x) && HoldsAt(w, DocOrder, x, r)
    ensures Increasing(r)
  {
  }

  /** Properties that are right altogether are right regardless of the context item. */
  lemma {:induction false} EarnedCarries(w: World, e: Expr)
    requires Earned(w, e)
    ensures Carries(w, e)
    decreases e, 0
  {
    match e {
      case Filtered(inner, _) =>
        if !Carries(w, e) {
          EarnedCarries(w, inner);
        }
      case Nav(steps) =>
        if !Carries(w, e) {
          EarnedSteps(w, ALL, steps);
        }
      case Sorted(inner) =>
        if !Carries(w, e) {
          EarnedCarries(w, inner);
          if inner.Nav? {
            UncutCarries(w, inner.steps);
          }
        }
      case Mapped(first, _) =>
        if !Carries(w, e) {
          EarnedCarries(w, first);
        }
      case Call(walk, declared, _) =>
        if !Carries(w, e) {
          forall x | In(w, x) ensures Has(w, Carried(declared), x, walk(x)) {
            CarriedHolds(w, declared, x, x, walk(x));
          }
        }
      case Constant(items, declared, _) =>
        if !Carries(w, e) {
          forall x | In(w, x) ensures Has(w, Carried(declared), x, items) {
            CarriedHolds(w, declared, x, x, items);
          }
        }
      case _ =>
    }
  }

  lemma {:induction false} EarnedSteps(w: World, ps: Props, steps: seq<Expr>)
    requires forall k :: 0 <= k < |steps| ==> Earned(w, steps[k])
    ensures FoldCarries(w, ps, steps)
    decreases |steps|
  {
    hide Earned, Properties;
    if steps != [] {
      EarnedSteps(w, CombineProperties(ps, Properties(steps[0])), steps[1..]);
    }
  }

  lemma {:induction false} FoldCarriesAt(w: World, ps: Props, steps: seq<Expr>, k: nat)
    requires FoldCarries(w, ps, steps) && k < |steps|
    ensures StepCarries(w, FoldSteps(ps, steps[..k]), steps[k])
    ensures FoldCarries(w, FoldSteps(ps, steps[..k + 1]), steps[k + 1..])
    decreases k
  {
    hide Properties, CombineProperties, StepCarries;
    if k == 0 {
      assert steps[..1][1..] == [] && steps[..0] == [];
    } else {
      var tail, next := steps[1..], CombineProperties(ps, Properties(steps[0]));
      FoldCarriesAt(w, next, tail, k - 1);
      assert steps[..k + 1][1..] == tail[..k] && steps[..k][1..] == tail[..k - 1] && steps[k + 1..] == tail[k..];
    }
  }

  // A path whose properties say the truth without a sort does so with one.
  lemma {:induction false} UncutCarries(w: World, steps: seq<Expr>)
    requires Carries(w, Nav(steps))
    ensures CutCarries(w, steps)
    decreases steps, 1
  {
    hide Earned, UsesContext, FoldCarries;
    if steps != [] {
      var k := LastConstant(steps);
      FoldCarriesAt(w, ALL, steps, k);
      if Earned(w, steps[k]) {
        EarnedCarries(w, steps[k]);
      }
    }
  }

  /** So the order inferred for a path is right whatever it starts from, if that carries its
      properties: a variable, fn:doc, or fn:root. */
  lemma FirstPath(w: World, e: Expr, rest: seq<Expr>)
    requires Carries(w, e) && forall k :: 0 <= k < |rest| ==> Earned(w, rest[k])
    ensures Carries(w, Nav([e] + rest))
  {
    hide Earned, Properties;
    assert ([e] + rest)[0] == e && ([e] + rest)[1..] == rest;
    EarnedSteps(w, CombineProperties(ALL, Properties(e)), rest);
    assert FoldCarries(w, ALL, [e] + rest) by {
      assert Carries(w, e) && OneNode in Carried(ALL);
    }
  }

  // ----- variables

  /** The properties that the use of a variable takes over are right for every value, declared
      with these properties at some context item, and for every use, exactly if they do not
      say that the variable is the context item. */
  lemma InheritedExact(w: World, flags: Props)
    ensures FixedSound(flags, Inherited(flags)) <==> Self !in flags
    ensures forall items, traits :: var v := Variable(items, flags, traits);
              Earned(w, v) <==> Carries(w, v) && Self !in flags
  {
    hide FixedSound;
    FixedExact(flags, Inherited(flags));
    EveryCarried(flags);
  }

  lemma EveryCarried(flags: Props)
    ensures Inherited(flags) <= Carried(flags) <==> Self !in flags
  {
    if Self in flags {
      assert Self in Inherited(flags) && Self !in Carried(flags);
    }
    forall c | c in Inherited(flags) && Self !in flags ensures c in Carried(flags) {
      EveryProperty(c);
    }
  }

  /** A variable that takes over the properties inferred for the expression it is bound to. */
  lemma BoundVariable(w: World, e: Expr, x: Item, traits: Traits)
    requires In(w, x) && Within(w, e) && Carries(w, e)
    ensures var v := Variable(Eval(w, e, x), Properties(e), traits);
            Within(w, v) && Carries(w, v)
  {
    hide Properties, Eval, Has;
    var flags, items := Properties(e), Eval(w, e, x);
    CarriesSound(w, e, x);
    forall y | In(w, y) ensures Has(w, Carried(Inherited(flags)), y, items) {
      ApartHolds(w, flags, x, y, items);
      InheritedCarried(flags);
      HasFewer(w, Carried(flags), Carried(Inherited(flags)), y, items);
    }
    EvalStays(w, e, x);
  }

  /** A for, let or quantified variable: whatever it is bound to, what its declaration says
      regardless of the context item is right, exactly if it does have at most one item where
      it is declared to have one. */
  lemma DeclaredVariable(w: World, items: seq<Item>, one: bool, traits: Traits, x: Item)
    requires In(w, x) && Stays(w, items)
    ensures Carries(w, Variable(items, DeclaredFlags(one), traits)) <==> (one ==> |items| <= 1)
  {
    var v, flags := Variable(items, DeclaredFlags(one), traits), Inherited(DeclaredFlags(one));
    if one {
      assert Carried(flags) == APART;
    }
    if one ==> |items| <= 1 {
      forall y | In(w, y) ensures Has(w, Carried(flags), y, items) {
        if one {
          FewItems(w, y, items);
        }
      }
    }
    if Carries(w, v) && one {
      assert Has(w, APART, x, items);
      HasOne(w, APART, OneNode, x, items);
    }
  }

  /** On the right of a simple map a variable is right if the map is taken from at most one
      item, or if it is not declared to be the context item. */
  lemma MappedVariable(w: World, first: Expr, v: Expr)
    requires v.Variable?
    ensures Carries(w, Mapped(first, v)) <==>
              && Carries(w, first) && Carries(w, v)
              && (Self !in v.flags || OneNode in Carried(Properties(first)))
  {
    InheritedExact(w, v.flags);
    assert v == Variable(v.items, v.flags, v.traits);
    assert Earned(w, v) <==> Carries(w, v) && Self !in v.flags;
  }

  // ----- calls that declare properties

  // What fn:root, fn:doc and fn:collection declare.
  const ROOT_FLAGS: Props := {DocOrder, Grouped, Peer, SameDoc, OneNode}
  const DOC_FLAGS: Props := {DocOrder, Grouped, Peer, Subtree, OneNode}
  const COLLECTION_FLAGS: Props := {DocOrder, Grouped, Subtree}

  function RootOf(): Walk {
    (x: Item) => [Item(x.doc, 0, 0)]
  }

  /** What fn:root declares is right at every context item. */
  lemma RootEarned(w: World, traits: Traits)
    ensures Within(w, Call(RootOf(), ROOT_FLAGS, traits)) && Earned(w, Call(RootOf(), ROOT_FLAGS, traits))
  {
    hide Carried;
    forall x | In(w, x) ensures Has(w, ROOT_FLAGS, x, RootOf()(x)) {
      FewItems(w, x, RootOf()(x));
    }
  }

  /** What fn:doc declares, and fn:document, is right regardless of the context item exactly if
      it never delivers more than one node. */
  lemma DocCarries(w: World, walk: Walk, traits: Traits)
    requires Within(w, Call(walk, DOC_FLAGS, traits))
    ensures Carries(w, Call(walk, DOC_FLAGS, traits)) <==> forall x :: In(w, x) ==> |walk(x)| <= 1
  {
    hide InGroups, Increasing, Peers;
    assert Carried(DOC_FLAGS) == APART;
    forall x | In(w, x) ensures Has(w, APART, x, walk(x)) <==> |walk(x)| <= 1 {
      if |walk(x)| <= 1 {
        FewItems(w, x, walk(x));
      } else {
        assert !HoldsAt(w, OneNode, x, walk(x)) && OneNode in APART;
      }
    }
  }

  // The same where the name of the document does not use the context.
  lemma DocConstantCarries(w: World, items: seq<Item>, traits: Traits, x: Item)
    requires In(w, x) && Stays(w, items)
    ensures Carries(w, Constant(items, DOC_FLAGS, traits)) <==> |items| <= 1
  {
    DocCarries(w, _ => items, traits);
    assert Carries(w, Call(_ => items, DOC_FLAGS, traits)) <==> Carries(w, Constant(items, DOC_FLAGS, traits));
  }

  /** It is right altogether exactly if, besides, what it delivers is in the subtree of the
      context item. */
  lemma DocEarned(w: World, walk: Walk, traits: Traits)
    requires Within(w, Call(walk, DOC_FLAGS, traits))
    ensures Earned(w, Call(walk, DOC_FLAGS, traits)) <==>
              forall x :: In(w, x) ==> |walk(x)| <= 1 && forall y :: y in walk(x) ==> Under(w, y, x)
  {
    hide InGroups, Increasing, Peers, Under, Carries;
    forall x | In(w, x)
      ensures Has(w, DOC_FLAGS, x, walk(x)) <==> |walk(x)| <= 1 && forall y :: y in walk(x) ==> Under(w, y, x)
    {
      if |walk(x)| <= 1 {
        FewItems(w, x, walk(x));
        forall c | c in APART ensures HoldsAt(w, c, x, walk(x)) {
        }
        assert HoldsAt(w, Subtree, x, walk(x)) <==> Has(w, DOC_FLAGS, x, walk(x));
      } else {
        assert !HoldsAt(w, OneNode, x, walk(x)) && OneNode in DOC_FLAGS;
      }
    }
    assert Subtree in DOC_FLAGS;
  }

  /** What fn:collection declares is right regardless of the context item exactly if it delivers
      in document order. */
  lemma CollectionCarries(w: World, walk: Walk, traits: Traits)
    requires Within(w, Call(walk, COLLECTION_FLAGS, traits))
    ensures Carries(w, Call(walk, COLLECTION_FLAGS, traits)) <==> forall x :: In(w, x) ==> Increasing(walk(x))
  {
    hide InGroups, Increasing;
    assert Carried(COLLECTION_FLAGS) == {DocOrder, Grouped};
    forall x | In(w, x) ensures Has(w, {DocOrder, Grouped}, x, walk(x)) <==> Increasing(walk(x)) {
      if Increasing(walk(x)) {
        IncreasingIsGrouped(walk(x));
      } else {
        assert !HoldsAt(w, DocOrder, x, walk(x));
      }
    }
  }

  /** The order inferred for a path that starts at fn:doc is right. */
  lemma DocPath(w: World, walk: Walk, traits: Traits, rest: seq<Expr>)
    requires Within(w, Call(walk, DOC_FLAGS, traits)) && forall x :: In(w, x) ==> |walk(x)| <= 1
    requires forall k :: 0 <= k < |rest| ==> Earned(w, rest[k])
    ensures Carries(w, Nav([Call(walk, DOC_FLAGS, traits)] + rest))
  {
    hide Earned, Carries;
    DocCarries(w, walk, traits);
    FirstPath(w, Call(walk, DOC_FLAGS, traits), rest);
  }

  // ----- what an expression delivers stays in the stored documents

  lemma {:induction false} EvalStays(w: World, e: Expr, x: Item)
    requires In(w, x) && Within(w, e)
    ensures Stays(w, Eval(w, e, x))
    decreases e, 0
  {
    hide Ordered, FlatMap, Sub, OnAxisFrom, EvalSteps;
    match e {
      case Step(axis, test) => StepSound(w, axis, test, x);
      case Filtered(inner, keep) =>
        EvalStays(w, inner, x);
        KeptIsSub(keep, Eval(w, inner, x));
        SubMembers(Eval(w, e, x), Eval(w, inner, x));
      case Nav(steps) => EvalStepsStay(w, steps, [x]);
      case Sorted(inner) =>
        EvalStays(w, inner, x);
        OrderedMeans(Eval(w, inner, x));
      case Mapped(first, each) =>
        EvalStays(w, first, x);
        WalkStays(w, each, Eval(w, first, x));
      case _ =>
    }
  }

  lemma {:induction false} WalkStays(w: World, e: Expr, r: seq<Item>)
    requires Within(w, e) && Stays(w, r)
    ensures Stays(w, FlatMap(WalkOf(w, e), r))
    decreases e, 1
  {
    hide FlatMap, Eval;
    forall x | In(w, x) ensures Has(w, {}, x, WalkOf(w, e)(x)) {
      EvalStays(w, e, x);
    }
    FlatStays(w, WalkOf(w, e), r);
  }

  lemma {:induction false} EvalStepsStay(w: World, steps: seq<Expr>, r: seq<Item>)
    requires Stays(w, r) && forall k :: 0 <= k < |steps| ==> Within(w, steps[k])
    ensures Stays(w, EvalSteps(w, steps, r))
    decreases steps, 1
  {
    hide FlatMap, Eval, WalkOf;
    if steps != [] {
      WalkStays(w, steps[0], r);
      EvalStepsStay(w, steps[1..], FlatMap(WalkOf(w, steps[0]), r));
    }
  }
}
