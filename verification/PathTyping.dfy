/** What static typing does to a path. */
module PathTyping {
  // Nested paths are joined, constant steps cut off what comes before them, wildcard steps are
  // narrowed or absorbed by the next step, and sorts that are not needed are dropped.  The
  // results stay the same.

  import opened Options
  import opened Sequences
  import opened FastXdm
  import opened FastXdmNavigation
  import opened DocumentOrder
  import opened Axes
  import opened PathExpressions

  // The expression under the predicates.
  function Inner(e: Expr): Expr {
    match e
    case Filtered(inner, _) => Inner(inner)
    case _ => e
  }

  // Some predicate uses the context position or size.
  predicate Positional(e: Expr) {
    match e
    case Filtered(inner, keep) => keep.ByPosition? || Positional(inner)
    case _ => false
  }

  function WithAxis(e: Expr, axis: Axis): Expr {
    match e
    case Filtered(inner, keep) => Filtered(WithAxis(inner, axis), keep)
    case Step(_, test) => Step(axis, test)
    case _ => e
  }

  predicate IsWild(e: Expr) {
    e.Step? && e.test.AnyNode?
  }

  predicate IsDown(axis: Axis) {
    axis == ChildAxis || axis == DescendantAxis
  }

  const ANY_ELEMENT := OnlyKind(ElementKind, _ => true)

  // The wildcard step in front of the step next is absorbed by it.
  predicate Absorbed(e: Expr, next: Expr) {
    && IsWild(e) && e.axis == DescendantOrSelfAxis
    && Inner(next).Step? && IsDown(Inner(next).axis) && !Positional(next)
  }

  // What is left of a step in front of next that does not absorb it.
  function Narrowed(e: Expr, next: Expr): Expr {
    if !IsWild(e) || !Inner(next).Step? then e
    else if IsDown(Inner(next).axis) then Step(e.axis, AnyNode(true))
    else if Inner(next).axis == AttributeAxis then Step(e.axis, ANY_ELEMENT)
    else e
  }

  /** The pass over adjacent steps. */
  function Rewrite(steps: seq<Expr>): seq<Expr>
    decreases |steps|
  {
    if |steps| < 2 then steps
    else if Absorbed(steps[0], steps[1]) then [WithAxis(steps[1], DescendantAxis)] + Rewrite(steps[2..])
    else [Narrowed(steps[0], steps[1])] + Rewrite(steps[1..])
  }

  function Parts(e: Expr): seq<Expr> {
    if e.Nav? then e.steps else [e]
  }

  /** The pass over the steps: each is typed; a constant one clears the ones before it, unless
      one of them, or one before this pass, forbids folding. */
  function Gather(done: seq<Expr>, steps: seq<Expr>, forced: bool): seq<Expr>
    decreases steps, 1
  {
    if steps == [] then done
    else Gather(Left(done, steps[0], forced) + Parts(Typed(steps[0])), steps[1..], forced || Forced(steps[0]))
  }

  // What the step leaves of the ones before it.
  function Left(done: seq<Expr>, e: Expr, forced: bool): seq<Expr> {
    if Cuts(e) && !forced then [] else done
  }

  /** Static typing. */
  function Typed(e: Expr): Expr
    decreases e, 0
  {
    match e
    case Filtered(inner, keep) => Filtered(Typed(inner), keep)
    case Nav(steps) => Nav(Rewrite(Gather([], steps, false)))
    case Sorted(inner) => if DocOrder in Properties(inner) then Typed(inner) else Sorted(Typed(inner))
    case Mapped(first, each) => Mapped(Typed(first), Typed(each))
    case _ => e
  }

  // ----- what the source looks like

  // Static resolution puts every path under a sort.
  predicate Resolved(e: Expr) {
    match e
    case Filtered(inner, _) => Resolved(inner)
    case Nav(_) => false
    case Sorted(inner) =>
      if inner.Nav? then inner.steps != [] && forall k :: 0 <= k < |inner.steps| ==> Resolved(inner.steps[k])
      else Resolved(inner)
    case Mapped(first, each) => Resolved(first) && Resolved(each)
    case _ => true
  }

  // No step but the first of a path is constant: one way not to cut off anything.
  predicate Dependent(e: Expr) {
    match e
    case Filtered(inner, _) => Dependent(inner)
    case Nav(steps) =>
      && (forall k :: 0 <= k < |steps| ==> Dependent(steps[k]))
      && forall k :: 1 <= k < |steps| ==> UsesContext(steps[k])
    case Sorted(inner) => Dependent(inner)
    case Mapped(first, each) => Dependent(first) && Dependent(each)
    case _ => true
  }

  // Nodes with something below them are documents or elements.
  ghost predicate Containers(nodes: seq<Node>) {
    forall p, k :: 0 <= p < |nodes| && 0 <= k < |nodes| && IsChild(nodes, k, p) ==> IsContainer(nodes[p])
  }

  ghost predicate Documents(w: World) {
    forall d :: 0 <= d < |w| ==> Levels(w[d].nodes) && Containers(w[d].nodes)
  }

  // ----- narrowing loses nothing

  lemma NothingSelected(w: World, axis: Axis, x: Item)
    requires In(w, x) && forall y :: !Selected(w, axis, x, y)
    ensures OnAxisFrom(w, axis, x) == []
  {
    hide OnAxisFrom, Selected;
    AxisSelects(w, axis, x);
    FirstMember(OnAxisFrom(w, axis, x));
  }

  /** Only documents and elements have children or descendants, only elements attributes. */
  lemma DeadEnds(w: World, axis: Axis, x: Item)
    requires In(w, x)
    ensures IsDown(axis) && !HasKids(w, x) ==> OnAxisFrom(w, axis, x) == []
    ensures axis == AttributeAxis && !KindIs(w, ElementKind, x) ==> OnAxisFrom(w, axis, x) == []
  {
    hide OnAxisFrom;
    if (IsDown(axis) && !HasKids(w, x)) || (axis == AttributeAxis && !KindIs(w, ElementKind, x)) {
      NothingSelected(w, axis, x);
    }
  }

  lemma {:induction false} NothingFiltered(w: World, e: Expr, x: Item)
    requires In(w, x) && Inner(e).Step? && OnAxisFrom(w, Inner(e).axis, x) == []
    ensures Eval(w, e, x) == []
  {
    hide OnAxisFrom;
    if e.Filtered? {
      NothingFiltered(w, e.inner, x);
    }
  }

  lemma {:induction false} FlatMapSkips<A, B>(f: A -> seq<B>, p: A -> bool, q: A -> bool, s: seq<A>)
    requires forall y :: y in s && p(y) ==> q(y)
    requires forall y :: y in s && q(y) && !p(y) ==> f(y) == []
    ensures FlatMap(f, Filter(p, s)) == FlatMap(f, Filter(q, s))
  {
    if s != [] {
      assert s[0] in s;
      FlatMapSkips(f, p, q, s[1..]);
    }
  }

  lemma {:induction false} FlatMapNested<A, B, C>(f: B -> seq<C>, g: A -> seq<B>, h: A -> seq<B>, s: seq<A>)
    requires forall x :: x in s ==> FlatMap(f, g(x)) == FlatMap(f, h(x))
    ensures FlatMap(f, FlatMap(g, s)) == FlatMap(f, FlatMap(h, s))
  {
    if s != [] {
      FlatMapNested(f, g, h, s[1..]);
      FlatMapConcat(f, g(s[0]), FlatMap(g, s[1..]));
      FlatMapConcat(f, h(s[0]), FlatMap(h, s[1..]));
    }
  }

  // From one context item.
  lemma NarrowedAt(w: World, e: Expr, next: Expr, x: Item)
    requires IsWild(e)
    ensures FlatMap(WalkOf(w, next), Eval(w, Narrowed(e, next), x)) == FlatMap(WalkOf(w, next), Eval(w, e, x))
  {
    hide OnAxisFrom, FlatMap;
    if In(w, x) && Narrowed(e, next) != e {
      var r, n := OnAxisFrom(w, e.axis, x), Narrowed(e, next);
      AxisStays(w, e.axis, x);
      forall y | y in r
        ensures Accepts(w, n.test, y) ==> Accepts(w, e.test, y)
        ensures Accepts(w, e.test, y) && !Accepts(w, n.test, y) ==> WalkOf(w, next)(y) == []
      {
        DeadEnds(w, Inner(next).axis, y);
        if OnAxisFrom(w, Inner(next).axis, y) == [] {
          NothingFiltered(w, next, y);
        }
      }
      FlatMapSkips(WalkOf(w, next), Tester(w, n.test), Tester(w, e.test), r);
    }
  }

  /** Narrowing a wildcard step to the nodes that the next step can leave from changes nothing
      after that step. */
  lemma NarrowedLosesNothing(w: World, e: Expr, next: Expr, r: seq<Item>)
    ensures FlatMap(WalkOf(w, next), FlatMap(WalkOf(w, Narrowed(e, next)), r))
         == FlatMap(WalkOf(w, next), FlatMap(WalkOf(w, e), r))
  {
    hide FlatMap, Eval;
    if IsWild(e) {
      forall x | x in r
        ensures FlatMap(WalkOf(w, next), WalkOf(w, Narrowed(e, next))(x)) == FlatMap(WalkOf(w, next), WalkOf(w, e)(x))
      {
        NarrowedAt(w, e, next, x);
      }
      FlatMapNested(WalkOf(w, next), WalkOf(w, Narrowed(e, next)), WalkOf(w, e), r);
    }
  }

  // ----- absorbing keeps the set

  // y passes the step's node test and the predicates.
  ghost predicate Passes(w: World, e: Expr, y: Item) {
    match e
    case Step(_, test) => Accepts(w, test, y)
    case Filtered(inner, keep) => keep.ByItem? && keep.test(y) && Passes(w, inner, y)
    case _ => false
  }

  lemma {:induction false} WithoutPosition(w: World, e: Expr, x: Item)
    requires In(w, x) && Inner(e).Step? && !Positional(e)
    ensures forall y :: y in Eval(w, e, x) <==> y in OnAxisFrom(w, Inner(e).axis, x) && Passes(w, e, y)
  {
    hide OnAxisFrom, Accepts;
    if e.Filtered? {
      WithoutPosition(w, e.inner, x);
    }
  }

  lemma {:induction false} WithAxisPasses(w: World, e: Expr, axis: Axis)
    requires Inner(e).Step?
    ensures Inner(WithAxis(e, axis)).Step? && Inner(WithAxis(e, axis)).axis == axis
    ensures Positional(WithAxis(e, axis)) == Positional(e)
    ensures forall y :: Passes(w, WithAxis(e, axis), y) == Passes(w, e, y)
  {
    hide Accepts;
    if e.Filtered? {
      WithAxisPasses(w, e.inner, axis);
    }
  }

  // The parent of a proper descendant of i is i or below it.
  lemma ParentBelow(nodes: seq<Node>, k: nat, i: nat)
    requires Levels(nodes) && i < k < |nodes| && Below(nodes, k, i)
    ensures Parent(nodes, k) != None
    ensures IsChild(nodes, k, Parent(nodes, k).value) && Below(nodes, Parent(nodes, k).value, i)
  {
    ParentIsOneUp(nodes, k);
  }

  // A step down from z, which descendant-or-self selects from x.
  ghost predicate Via(w: World, axis: Axis, x: Item, z: Item, y: Item)
    requires In(w, x)
  {
    Selected(w, DescendantOrSelfAxis, x, z) && Selected(w, axis, z, y)
  }

  // Steps down, from the nodes that descendant-or-self selects, reach the descendants.
  lemma DescendantVia(w: World, axis: Axis, x: Item, y: Item) returns (z: Item)
    requires Documents(w) && In(w, x) && IsDown(axis) && Selected(w, DescendantAxis, x, y)
    ensures Via(w, axis, x, z, y)
  {
    var nodes := w[x.doc].nodes;
    ParentBelow(nodes, y.node, x.node);
    z := if axis == ChildAxis then Item(x.doc, Parent(nodes, y.node).value, 0) else x;
  }

  lemma ViaDescendant(w: World, axis: Axis, x: Item, z: Item, y: Item)
    requires Documents(w) && In(w, x) && IsDown(axis) && Via(w, axis, x, z, y)
    ensures Selected(w, DescendantAxis, x, y) && In(w, z) && HasKids(w, z)
  {
    if x.slot == 0 {
      var nodes := w[x.doc].nodes;
      BelowTrans(nodes, y.node, z.node, x.node);
      HasBelow(nodes, y.node, x.node);
    }
  }

  lemma HasBelow(nodes: seq<Node>, k: nat, i: nat)
    requires Levels(nodes) && Containers(nodes) && i < k < |nodes| && Below(nodes, k, i)
    ensures IsContainer(nodes[i])
  {
    assert StepsDown(nodes, i + 1);
    assert IsChild(nodes, i + 1, i);
  }

  lemma AbsorbedAt(w: World, e: Expr, next: Expr, x: Item)
    requires Documents(w) && Absorbed(e, next)
    ensures SameItems(FlatMap(WalkOf(w, next), Eval(w, e, x)), Eval(w, WithAxis(next, DescendantAxis), x))
  {
    hide FlatMap, Documents, Absorbed, WalkOf;
    if In(w, x) {
      forall y
        ensures y in FlatMap(WalkOf(w, next), Eval(w, e, x)) <==> y in Eval(w, WithAxis(next, DescendantAxis), x)
      {
        AbsorbedOne(w, e, next, x, y);
      }
    } else {
      AbsorbedShape(e, next);
      WithAxisPasses(w, next, DescendantAxis);
      NotIn(w, WithAxis(next, DescendantAxis), x);
      NotIn(w, e, x);
      NothingMapped(WalkOf(w, next));
    }
  }

  lemma AbsorbedShape(e: Expr, next: Expr)
    requires Absorbed(e, next)
    ensures e.Step? && Inner(next).Step?
  {
  }

  lemma AbsorbedOne(w: World, e: Expr, next: Expr, x: Item, y: Item)
    requires Documents(w) && In(w, x) && Absorbed(e, next)
    ensures y in FlatMap(WalkOf(w, next), Eval(w, e, x)) <==> y in Eval(w, WithAxis(next, DescendantAxis), x)
  {
    hide FlatMap, Documents, Selected, Eval, OnAxisFrom, Passes, HasKids;
    var axis, into := Inner(next).axis, WithAxis(next, DescendantAxis);
    FlatMapMember(WalkOf(w, next), Eval(w, e, x), y);
    WithAxisPasses(w, next, DescendantAxis);
    DownFrom(w, into, x, y);
    if z :| z in Eval(w, e, x) && y in WalkOf(w, next)(z) {
      WildStep(w, e, x, z);
      DownFrom(w, next, z, y);
      ViaDescendant(w, axis, x, z, y);
    }
    if Selected(w, DescendantAxis, x, y) && Passes(w, next, y) {
      var z := DescendantVia(w, axis, x, y);
      ViaDescendant(w, axis, x, z, y);
      WildStep(w, e, x, z);
      DownFrom(w, next, z, y);
      assert z in Eval(w, e, x) && y in WalkOf(w, next)(z);
    }
  }

  lemma WildStep(w: World, e: Expr, x: Item, z: Item)
    requires In(w, x) && IsWild(e)
    ensures z in Eval(w, e, x) ==> In(w, z) && Selected(w, e.axis, x, z)
    ensures In(w, z) && HasKids(w, z) && Selected(w, e.axis, x, z) ==> z in Eval(w, e, x)
  {
    hide OnAxisFrom, Selected;
    AxisSelects(w, e.axis, x);
  }

  lemma DownFrom(w: World, next: Expr, z: Item, y: Item)
    requires In(w, z) && Inner(next).Step? && !Positional(next)
    ensures y in Eval(w, next, z) <==> Selected(w, Inner(next).axis, z, y) && Passes(w, next, y)
  {
    hide OnAxisFrom, Selected;
    AxisSelects(w, Inner(next).axis, z);
    WithoutPosition(w, next, z);
  }

  lemma {:induction false} NotIn(w: World, e: Expr, x: Item)
    requires !In(w, x) && Inner(e).Step?
    ensures Eval(w, e, x) == []
  {
    if e.Filtered? {
      NotIn(w, e.inner, x);
    }
  }

  lemma {:induction false} FlatMapTwice(f: Walk, g: Walk, s: seq<Item>)
    ensures FlatMap(f, FlatMap(g, s)) == FlatMap((x: Item) => FlatMap(f, g(x)), s)
  {
    if s != [] {
      FlatMapTwice(f, g, s[1..]);
      FlatMapConcat(f, g(s[0]), FlatMap(g, s[1..]));
    }
  }

  /** A wildcard descendant-or-self step and the step down after it select the same set as
      one descendant step. */
  lemma AbsorbedKeepsItems(w: World, e: Expr, next: Expr, r: seq<Item>)
    requires Documents(w) && Absorbed(e, next)
    ensures var descend := WithAxis(next, DescendantAxis);
            SameItems(FlatMap(WalkOf(w, next), FlatMap(WalkOf(w, e), r)), FlatMap(WalkOf(w, descend), r))
  {
    hide FlatMap, Eval;
    var both: Walk := x => FlatMap(WalkOf(w, next), WalkOf(w, e)(x));
    FlatMapTwice(WalkOf(w, next), WalkOf(w, e), r);
    var into := WithAxis(next, DescendantAxis);
    forall x | x in r ensures SameItems(both(x), WalkOf(w, into)(x)) {
      AbsorbedAt(w, e, next, x);
    }
    FlatMapItems(both, WalkOf(w, into), r, r);
    assert FlatMap(both, r) == FlatMap(WalkOf(w, next), FlatMap(WalkOf(w, e), r));
  }

  // ----- the pass over adjacent steps

  // No step is absorbed by the one after it.
  predicate NoneAbsorbed(steps: seq<Expr>)
    decreases |steps|
  {
    |steps| < 2 || (!Absorbed(steps[0], steps[1]) && NoneAbsorbed(steps[1..]))
  }

  lemma NarrowedThenRest(w: World, steps: seq<Expr>, r: seq<Item>)
    requires |steps| >= 2
    ensures EvalSteps(w, steps[1..], FlatMap(WalkOf(w, Narrowed(steps[0], steps[1])), r)) == EvalSteps(w, steps, r)
  {
    hide FlatMap, Eval, WalkOf, Narrowed;
    var e, next, rest := steps[0], steps[1], steps[2..];
    assert steps[1..] == [next] + rest && steps == [e] + ([next] + rest);
    EvalStepsCons(w, e, [next] + rest, r);
    EvalStepsCons(w, next, rest, FlatMap(WalkOf(w, e), r));
    EvalStepsCons(w, next, rest, FlatMap(WalkOf(w, Narrowed(e, next)), r));
    NarrowedLosesNothing(w, e, next, r);
  }

  /** The pass keeps the set of results; if no step is absorbed, it keeps their order too. */
  lemma {:induction false} RewriteMeans(w: World, steps: seq<Expr>, r: seq<Item>)
    requires Documents(w)
    ensures SameItems(EvalSteps(w, Rewrite(steps), r), EvalSteps(w, steps, r))
    ensures NoneAbsorbed(steps) ==> EvalSteps(w, Rewrite(steps), r) == EvalSteps(w, steps, r)
    decreases |steps|
  {
    hide FlatMap, Eval, WalkOf, Narrowed, Absorbed, EvalSteps, Documents;
    if |steps| >= 2 {
      var e, next, rest := steps[0], steps[1], steps[2..];
      if Absorbed(e, next) {
        var into := WithAxis(next, DescendantAxis);
        var direct, stepped := FlatMap(WalkOf(w, into), r), FlatMap(WalkOf(w, next), FlatMap(WalkOf(w, e), r));
        assert steps == [e] + ([next] + rest);
        EvalStepsCons(w, into, Rewrite(rest), r);
        EvalStepsCons(w, e, [next] + rest, r);
        EvalStepsCons(w, next, rest, FlatMap(WalkOf(w, e), r));
        RewriteMeans(w, rest, direct);
        AbsorbedKeepsItems(w, e, next, r);
        EvalStepsItems(w, rest, direct, stepped);
      } else {
        var narrow := FlatMap(WalkOf(w, Narrowed(e, next)), r);
        EvalStepsCons(w, Narrowed(e, next), Rewrite(steps[1..]), r);
        RewriteMeans(w, steps[1..], narrow);
        NarrowedThenRest(w, steps, r);
      }
    }
  }

  // ----- where document order is inferred, no step is absorbed

  // Nothing in the properties lets document order come back once it is lost.
  predicate Dull(ps: Props) {
    Peer !in ps && OneNode !in ps && Self !in ps
  }

  lemma {:induction false} DullForever(ps: Props, steps: seq<Expr>)
    requires Dull(ps) && DocOrder !in ps
    ensures DocOrder !in FoldSteps(ps, steps)
    decreases |steps|
  {
    hide Properties;
    if steps != [] {
      DullForever(CombineProperties(ps, Properties(steps[0])), steps[1..]);
    }
  }

  lemma {:induction false} FoldNoSelf(ps: Props, steps: seq<Expr>)
    requires Self !in ps
    ensures Self !in FoldSteps(ps, steps)
    decreases |steps|
  {
    hide Properties;
    if steps != [] {
      FoldNoSelf(CombineProperties(ps, Properties(steps[0])), steps[1..]);
    }
  }

  // A wildcard descendant-or-self step.
  predicate IsOpen(e: Expr) {
    IsWild(e) && e.axis == DescendantOrSelfAxis
  }

  // A step down whose predicates do not use the position.
  predicate GoesDown(e: Expr) {
    Inner(e).Step? && IsDown(Inner(e).axis) && !Positional(e)
  }

  predicate EndsOpen(steps: seq<Expr>) {
    steps != [] && IsOpen(steps[|steps| - 1])
  }

  predicate StartsDown(steps: seq<Expr>) {
    steps != [] && GoesDown(steps[0])
  }

  lemma {:induction false} NoneAbsorbedConcat(a: seq<Expr>, b: seq<Expr>)
    requires NoneAbsorbed(a) && NoneAbsorbed(b) && !(EndsOpen(a) && StartsDown(b))
    ensures NoneAbsorbed(a + b)
    decreases |a|
  {
    hide Absorbed;
    if |a| <= 1 {
      OneAndRest(a, b);
    } else {
      assert (a + b)[1..] == a[1..] + b;
      NoneAbsorbedConcat(a[1..], b);
    }
  }

  lemma OneAndRest(a: seq<Expr>, b: seq<Expr>)
    requires |a| <= 1 && NoneAbsorbed(b) && !(EndsOpen(a) && StartsDown(b))
    ensures NoneAbsorbed(a + b)
  {
    if a == [] {
      assert a + b == b;
    } else {
      assert (a + b)[1..] == b;
    }
  }

  // The pass narrows node tests only; the last step stays as it is.
  lemma {:induction false} RewriteShape(steps: seq<Expr>)
    requires NoneAbsorbed(steps)
    ensures NoneAbsorbed(Rewrite(steps)) && |Rewrite(steps)| == |steps|
    ensures StartsDown(Rewrite(steps)) ==> StartsDown(steps)
    ensures EndsOpen(Rewrite(steps)) ==> EndsOpen(steps)
    decreases |steps|
  {
    hide Absorbed;
    if |steps| >= 2 {
      var n, rest := Narrowed(steps[0], steps[1]), Rewrite(steps[1..]);
      RewriteShape(steps[1..]);
      NarrowedShape(steps[0], steps[1]);
      NotAbsorbed(steps[0], steps[1]);
      NoneAbsorbedConcat([n], rest);
    }
  }

  lemma NarrowedShape(e: Expr, next: Expr)
    ensures IsOpen(Narrowed(e, next)) ==> IsOpen(e)
    ensures GoesDown(Narrowed(e, next)) ==> GoesDown(e)
  {
  }

  lemma NotAbsorbed(e: Expr, next: Expr)
    ensures Absorbed(e, next) <==> IsOpen(e) && GoesDown(next)
  {
  }

  lemma {:induction false} InnerProperties(e: Expr)
    requires Resolved(e) && Inner(Typed(e)).Step?
    ensures Properties(e) == AxisProperties(Inner(Typed(e)).axis)
  {
    match e {
      case Filtered(inner, _) => InnerProperties(inner);
      case Sorted(inner) =>
        if !inner.Nav? && DocOrder in Properties(inner) {
          InnerProperties(inner);
        }
      case Step(_, _) =>
      case Nav(_) =>
      case Mapped(_, _) =>
      case Call(_, _, _) =>
      case Constant(_, _, _) =>
      case Variable(_, _, _) =>
    }
  }

  ghost predicate Shaped(ps: Props, parts: seq<Expr>) {
    && parts != [] && NoneAbsorbed(parts)
    && (EndsOpen(parts) ==> Dull(ps))
    && (StartsDown(parts) ==> Self !in ps)
  }

  lemma {:induction false} TypedShape(e: Expr)
    requires Resolved(e)
    ensures Shaped(Properties(e), Parts(Typed(e)))
    decreases e, 0
  {
    hide NoneAbsorbed;
    if e.Sorted? && DocOrder in Properties(e.inner) {
      if e.inner.Nav? {
        var steps := e.inner.steps;
        NoneHere();
        GatherShape([], steps, ALL, false);
        RewriteShape(Gather([], steps, false));
        FoldNoSelf(ALL, steps);
      } else {
        TypedShape(e.inner);
      }
    } else {
      OnePart(e);
    }
  }

  lemma OnePart(e: Expr)
    requires Resolved(e) && !(e.Sorted? && DocOrder in Properties(e.inner))
    ensures Shaped(Properties(e), Parts(Typed(e)))
  {
    hide Gather, Rewrite;
    if GoesDown(Typed(e)) || IsOpen(Typed(e)) {
      InnerProperties(e);
    }
  }

  lemma {:induction false} GatherShape(done: seq<Expr>, steps: seq<Expr>, ps: Props, forced: bool)
    requires forall k :: 0 <= k < |steps| ==> Resolved(steps[k])
    requires NoneAbsorbed(done) && (EndsOpen(done) ==> Dull(ps)) && DocOrder in FoldSteps(ps, steps)
    ensures var parts := Gather(done, steps, forced);
            && NoneAbsorbed(parts) && (EndsOpen(parts) ==> Dull(FoldSteps(ps, steps)))
            && (done != [] || steps != [] ==> parts != [])
    decreases steps, 1
  {
    hide NoneAbsorbed, Properties, Typed, CombineProperties, Parts, Cuts, Forced, Resolved;
    if steps != [] {
      var q, parts := Properties(steps[0]), Parts(Typed(steps[0]));
      var before := Left(done, steps[0], forced);
      TypedShape(steps[0]);
      assert NoneAbsorbed([]) by { NoneHere(); }
      DullCombines(ps, q);
      if EndsOpen(before) && StartsDown(parts) {
        DullForever(CombineProperties(ps, q), steps[1..]);
      }
      NoneAbsorbedConcat(before, parts);
      GatherShape(before + parts, steps[1..], CombineProperties(ps, q), forced || Forced(steps[0]));
    }
  }

  lemma NoneHere()
    ensures NoneAbsorbed([])
  {
  }

  lemma DullCombines(ps: Props, q: Props)
    ensures Dull(q) ==> Dull(CombineProperties(ps, q))
    ensures Dull(ps) && Self !in q ==> Dull(CombineProperties(ps, q)) && DocOrder !in CombineProperties(ps, q)
  {
  }

  // ----- static typing keeps the results

  // Evaluating steps from several items is evaluating them from each.
  lemma {:induction false} EvalStepsFromEach(w: World, steps: seq<Expr>, r: seq<Item>)
    ensures EvalSteps(w, steps, r) == FlatMap((x: Item) => EvalSteps(w, steps, [x]), r)
    decreases |r|
  {
    hide EvalSteps;
    if r == [] {
      StepsFromNothing(w, steps);
    } else {
      EvalStepsFromEach(w, steps, r[1..]);
      EvalStepsSplit(w, steps, [r[0]], r[1..]);
      assert r == [r[0]] + r[1..];
    }
  }

  lemma {:induction false} EvalStepsSplit(w: World, steps: seq<Expr>, a: seq<Item>, b: seq<Item>)
    ensures EvalSteps(w, steps, a + b) == EvalSteps(w, steps, a) + EvalSteps(w, steps, b)
    decreases |steps|
  {
    hide FlatMap, Eval, WalkOf;
    if steps != [] {
      var f := WalkOf(w, steps[0]);
      FlatMapConcat(f, a, b);
      EvalStepsSplit(w, steps[1..], FlatMap(f, a), FlatMap(f, b));
    }
  }

  // The parts of a typed step, in turn, are that step.
  lemma PartsMean(w: World, t: Expr, r: seq<Item>)
    requires t.Nav? ==> t.steps != []
    ensures EvalSteps(w, Parts(t), r) == FlatMap(WalkOf(w, t), r)
  {
    hide FlatMap;
    if t.Nav? {
      EvalStepsFromEach(w, t.steps, r);
      assert forall x :: WalkOf(w, t)(x) == EvalSteps(w, t.steps, [x]) by { PathWalk(w, t); }
      FlatMapSame((x: Item) => EvalSteps(w, t.steps, [x]), WalkOf(w, t), r);
    } else {
      EvalStepsCons(w, t, [], r);
      assert [t] + [] == [t];
    }
  }

  lemma PathWalk(w: World, t: Expr)
    requires t.Nav? && t.steps != []
    ensures forall x :: WalkOf(w, t)(x) == EvalSteps(w, t.steps, [x])
  {
    hide EvalSteps;
  }

  // ----- constant steps cut off what comes before them

  /** Cutting off the steps before a constant one keeps the set of results exactly if those
      steps select something, or nothing follows from the constant. */
  lemma ConstantStepExact(w: World, prefix: seq<Expr>, e: Expr, rest: seq<Expr>, x: Item)
    requires !UsesContext(e)
    ensures SameItems(EvalSteps(w, prefix + [e] + rest, [x]), EvalSteps(w, [e] + rest, [x]))
      <==> EvalSteps(w, prefix, [x]) != [] || EvalSteps(w, [e] + rest, [x]) == []
  {
    hide EvalSteps, FlatMap, UsesContext, Eval;
    var r, c := EvalSteps(w, prefix, [x]), Eval(w, e, x);
    assert prefix + [e] + rest == prefix + ([e] + rest);
    EvalStepsConcat(w, prefix, [e] + rest, [x]);
    EvalStepsCons(w, e, rest, r);
    EvalStepsCons(w, e, rest, [x]);
    FromEach(w, e, [x], x);
    if r == [] {
      NothingMapped(WalkOf(w, e));
      StepsFromNothing(w, rest);
      FirstMember(EvalSteps(w, [e] + rest, [x]));
    } else {
      FromEach(w, e, r, x);
      EvalStepsItems(w, rest, FlatMap(WalkOf(w, e), r), FlatMap(WalkOf(w, e), [x]));
    }
  }

  /** From x the steps before the last constant one select something, or nothing follows from
      the constant. */
  ghost predicate Kept(w: World, steps: seq<Expr>, x: Item) {
    var k := LastConstant(steps);
    EvalSteps(w, steps[..k], [x]) != [] || EvalSteps(w, steps[k..], [x]) == []
  }

  // That holds of every path of the expression, wherever it is evaluated.
  ghost predicate AllKept(w: World, e: Expr) {
    match e
    case Filtered(inner, _) => AllKept(w, inner)
    case Nav(steps) =>
      && (forall k :: 0 <= k < |steps| ==> AllKept(w, steps[k]))
      && forall x :: In(w, x) ==> Kept(w, steps, x)
    case Sorted(inner) => AllKept(w, inner)
    case Mapped(first, each) => AllKept(w, first) && AllKept(w, each)
    case _ => true
  }

  /** Without constant steps after the first, nothing is cut off. */
  lemma {:induction false} DependentIsKept(w: World, e: Expr)
    requires Dependent(e)
    ensures AllKept(w, e)
  {
    hide EvalSteps;
    match e {
      case Filtered(inner, _) => DependentIsKept(w, inner);
      case Nav(steps) =>
        forall k | 0 <= k < |steps| ensures AllKept(w, steps[k]) {
          DependentIsKept(w, steps[k]);
        }
        forall x | In(w, x) ensures Kept(w, steps, x) {
          NoSteps(w, [x]);
        }
      case Sorted(inner) => DependentIsKept(w, inner);
      case Mapped(first, each) =>
        DependentIsKept(w, first);
        DependentIsKept(w, each);
      case Step(_, _) =>
      case Call(_, _, _) =>
      case Constant(_, _, _) =>
      case Variable(_, _, _) =>
    }
  }

  // The steps before the last constant one leave no trace.
  lemma {:induction false} GatherCut(done: seq<Expr>, steps: seq<Expr>, k: nat)
    requires k < |steps| && CutsAt(steps, k)
    ensures Gather(done, steps, false) == Gather([], steps[k..], false)
    decreases k
  {
    hide Cuts, Typed, Parts, Forced;
    if k == 0 {
      assert steps[0..] == steps;
    } else {
      assert steps[1..][k - 1..] == steps[k..] && steps[..k][0] == steps[0];
      NoneForced(steps, k);
      GatherCut(Left(done, steps[0], false) + Parts(Typed(steps[0])), steps[1..], k - 1);
    }
  }

  lemma NoneForced(steps: seq<Expr>, k: nat)
    requires 0 < k < |steps| && !AnyForced(steps[..k])
    ensures !Forced(steps[0]) && !AnyForced(steps[1..][..k - 1])
  {
    assert steps[..k][0] == steps[0];
    var tail := steps[1..][..k - 1];
    assert forall j :: 0 <= j < |tail| ==> tail[j] == steps[..k][j + 1];
  }

  lemma GatherFromLast(steps: seq<Expr>)
    ensures Gather([], steps, false) == Gather([], steps[LastConstant(steps)..], false)
  {
    var k := LastConstant(steps);
    if k > 0 {
      GatherCut([], steps, k);
    } else {
      assert steps[0..] == steps;
    }
  }

  // No step after the last constant one clears anything.
  ghost predicate NoCuts(steps: seq<Expr>, forced: bool) {
    forall k :: 0 < k < |steps| && !forced ==> !CutsAt(steps, k)
  }

  lemma NoneAfterLast(steps: seq<Expr>)
    requires steps != []
    ensures NoCuts(steps[LastConstant(steps)..], false)
  {
    var last := LastConstant(steps);
    var left := steps[last..];
    forall k | 0 < k < |left| ensures !CutsAt(left, k) {
      assert !CutsAt(steps, last + k) && left[k] == steps[last + k];
      ForcedSplit(steps, last, k);
      assert last == 0 ==> steps[..last] == [];
    }
  }

  lemma ForcedSplit(steps: seq<Expr>, m: nat, k: nat)
    requires m + k <= |steps|
    ensures AnyForced(steps[..m + k]) ==> AnyForced(steps[..m]) || AnyForced(steps[m..][..k])
  {
    if AnyForced(steps[..m + k]) {
      var j :| 0 <= j < m + k && Forced(steps[..m + k][j]);
      assert if j < m then steps[..m][j] == steps[j] else steps[m..][..k][j - m] == steps[j];
    }
  }

  lemma NoCutsTail(steps: seq<Expr>, forced: bool)
    requires steps != [] && NoCuts(steps, forced)
    ensures NoCuts(steps[1..], forced || Forced(steps[0]))
    ensures |steps| > 1 && !forced && !Forced(steps[0]) ==> !Cuts(steps[1])
  {
    if !forced && !Forced(steps[0]) {
      forall k | 1 <= k < |steps| ensures AnyForced(steps[..k]) ==> AnyForced(steps[1..][..k - 1]) {
        if AnyForced(steps[..k]) {
          var j :| 0 <= j < k && Forced(steps[..k][j]);
          assert j > 0 && steps[1..][..k - 1][j - 1] == steps[j];
        }
      }
      forall k | 0 < k < |steps[1..]| ensures !CutsAt(steps[1..], k) {
        assert !CutsAt(steps, k + 1) && steps[1..][k] == steps[k + 1];
      }
      if |steps| > 1 {
        assert !CutsAt(steps, 1);
      }
    }
  }

  // Cutting at the last constant keeps the set exactly if that is Kept.
  lemma CutExact(w: World, steps: seq<Expr>, x: Item)
    requires steps != []
    ensures SameItems(EvalSteps(w, steps[LastConstant(steps)..], [x]), EvalSteps(w, steps, [x])) <==> Kept(w, steps, x)
  {
    hide EvalSteps, UsesContext;
    var k := LastConstant(steps);
    if k > 0 {
      assert steps[..k] + [steps[k]] + steps[k + 1..] == steps && steps[k..] == [steps[k]] + steps[k + 1..];
      ConstantStepExact(w, steps[..k], steps[k], steps[k + 1..], x);
    } else {
      assert steps[0..] == steps && steps[..0] == [];
      NoSteps(w, [x]);
    }
  }

  // ----- static typing keeps the results of proper expressions

  // Where a sort is dropped, the order that is inferred is right.
  ghost predicate Fit(w: World, e: Expr) {
    match e
    case Filtered(inner, _) => Fit(w, inner)
    case Nav(steps) => forall k :: 0 <= k < |steps| ==> Fit(w, steps[k])
    case Sorted(inner) => Fit(w, inner) && (DocOrder in Properties(inner) ==> Carries(w, e))
    case Mapped(first, each) => Fit(w, first) && Fit(w, each)
    case _ => true
  }

  // What the lemmas about typing ask of an expression.
  ghost predicate Proper(w: World, e: Expr) {
    Resolved(e) && Within(w, e) && Fit(w, e) && AllKept(w, e)
  }

  lemma PathProper(w: World, steps: seq<Expr>)
    requires Proper(w, Sorted(Nav(steps)))
    ensures steps != [] && forall k :: 0 <= k < |steps| ==> Proper(w, steps[k])
    ensures forall x :: In(w, x) ==> Kept(w, steps, x)
    ensures DocOrder in Properties(Nav(steps)) ==> CutCarries(w, steps)
  {
    hide Kept, CutCarries;
    assert Within(w, Nav(steps)) && Fit(w, Nav(steps)) && AllKept(w, Nav(steps));
  }

  lemma ProperStays(w: World, e: Expr)
    requires Proper(w, e)
    ensures Within(w, e)
  {
  }

  lemma {:induction false} GatherMeans(w: World, done: seq<Expr>, steps: seq<Expr>, forced: bool, r: seq<Item>)
    requires Documents(w) && Stays(w, EvalSteps(w, done, r))
    requires forall k :: 0 <= k < |steps| ==> Proper(w, steps[k])
    requires NoCuts(steps, forced) && (done != [] && steps != [] ==> forced || !Cuts(steps[0]))
    ensures EvalSteps(w, Gather(done, steps, forced), r) == EvalSteps(w, steps, EvalSteps(w, done, r))
    decreases steps, 1
  {
    hide FlatMap, Eval, WalkOf, Typed, Cuts, Proper, Parts, Documents, NoCuts;
    if steps != [] {
      var e, sofar := steps[0], EvalSteps(w, done, r);
      var t := Typed(e);
      assert Left(done, e, forced) == done;
      NoCutsTail(steps, forced);
      TypedPart(w, e, sofar);
      EvalStepsConcat(w, done, Parts(t), r);
      assert Within(w, e) by { ProperStays(w, e); }
      WalkStays(w, e, sofar);
      GatherMeans(w, done + Parts(t), steps[1..], forced || Forced(e), r);
    }
  }

  lemma {:induction false} TypedPart(w: World, e: Expr, r: seq<Item>)
    requires Documents(w) && Proper(w, e) && Stays(w, r)
    ensures EvalSteps(w, Parts(Typed(e)), r) == FlatMap(WalkOf(w, e), r)
    ensures Parts(Typed(e)) != []
    decreases e, 1
  {
    hide FlatMap, Eval, Documents, EvalSteps, Typed;
    TypedShape(e);
    PartsMean(w, Typed(e), r);
    forall x | x in r ensures WalkOf(w, Typed(e))(x) == WalkOf(w, e)(x) {
      TypedMeans(w, e, x);
    }
    FlatMapSame(WalkOf(w, Typed(e)), WalkOf(w, e), r);
  }

  /** A path of proper steps selects the same set after typing exactly if what is cut off in
      front of a constant step is no loss; and then, where order is inferred, it delivers what
      the sorted path does. */
  lemma {:induction false} PathTyped(w: World, steps: seq<Expr>, x: Item)
    requires Documents(w) && In(w, x) && steps != []
    requires forall k :: 0 <= k < |steps| ==> Proper(w, steps[k])
    ensures SameItems(Eval(w, Typed(Nav(steps)), x), Eval(w, Nav(steps), x)) <==> Kept(w, steps, x)
    ensures DocOrder in Properties(Nav(steps)) && CutCarries(w, steps) && Kept(w, steps, x) ==>
      Eval(w, Typed(Nav(steps)), x) == Ordered(Eval(w, Nav(steps), x))
    decreases steps, 3
  {
    hide Documents, EvalSteps, Kept, CutCarries, Ordered, Typed, LastConstant;
    TypedIsLastPart(w, steps, x);
    CutExact(w, steps, x);
    if DocOrder in FoldSteps(ALL, steps) && CutCarries(w, steps) && Kept(w, steps, x) {
      LastPartIncreases(w, steps, x);
      OrderedMeans(EvalSteps(w, steps, [x]));
      IncreasingUnique(EvalSteps(w, steps[LastConstant(steps)..], [x]), Ordered(EvalSteps(w, steps, [x])));
    }
  }

  // Where order is inferred, a path is typed to what delivers its last part, unsorted.
  lemma {:induction false} TypedIsLastPart(w: World, steps: seq<Expr>, x: Item)
    requires Documents(w) && In(w, x) && steps != []
    requires forall k :: 0 <= k < |steps| ==> Proper(w, steps[k])
    ensures SameItems(Eval(w, Typed(Nav(steps)), x), EvalSteps(w, steps[LastConstant(steps)..], [x]))
    ensures DocOrder in Properties(Nav(steps)) ==>
      Eval(w, Typed(Nav(steps)), x) == EvalSteps(w, steps[LastConstant(steps)..], [x])
    decreases steps, 2
  {
    hide FlatMap, WalkOf, Documents, UsesContext, EvalSteps, Rewrite, Gather, NoneAbsorbed, Has;
    var parts, left := Gather([], steps, false), steps[LastConstant(steps)..];
    assert left == steps || LastConstant(steps) > 0;
    assert EvalSteps(w, [], [x]) == [x] by { NoSteps(w, [x]); }
    GatherFromLast(steps);
    NoneAfterLast(steps);
    GatherMeans(w, [], left, false, [x]);
    RewriteMeans(w, parts, [x]);
    GatherNotEmpty([], steps, false);
    if DocOrder in FoldSteps(ALL, steps) {
      NoneHere();
      GatherShape([], steps, ALL, false);
    }
  }

  lemma LastPartIncreases(w: World, steps: seq<Expr>, x: Item)
    requires In(w, x) && steps != [] && DocOrder in FoldSteps(ALL, steps) && CutCarries(w, steps)
    requires forall k :: 0 <= k < |steps| ==> Proper(w, steps[k])
    ensures Increasing(EvalSteps(w, steps[LastConstant(steps)..], [x]))
  {
    hide EvalSteps, CutCarries, HoldsAt, Fit, AllKept, Resolved;
    var r := EvalSteps(w, steps[LastConstant(steps)..], [x]);
    LastPartSound(w, steps, x);
    OrderIsCarried(FoldSteps(ALL, steps));
    assert HoldsAt(w, DocOrder, x, r);
    IsIncreasing(w, x, r);
  }

  /** Where the steps carry their properties themselves, the sorted path is the path. */
  lemma UncutPathTyped(w: World, steps: seq<Expr>, x: Item)
    requires Documents(w) && In(w, x) && steps != []
    requires forall k :: 0 <= k < |steps| ==> Proper(w, steps[k])
    requires DocOrder in Properties(Nav(steps)) && Carries(w, Nav(steps)) && Kept(w, steps, x)
    ensures Eval(w, Typed(Nav(steps)), x) == Eval(w, Nav(steps), x)
  {
    hide Documents, Kept, Carries, CutCarries, Ordered, EvalSteps, Rewrite, Gather, Fit, AllKept;
    assert Within(w, Nav(steps));
    UncutCarries(w, steps);
    PathTyped(w, steps, x);
    SortIsNotNeeded(w, Nav(steps), x);
  }

  // Without constant steps after the first, the results are delivered as they come.
  lemma SortDropped(w: World, steps: seq<Expr>, x: Item)
    requires Documents(w) && In(w, x) && steps != [] && LastConstant(steps) == 0
    requires forall k :: 0 <= k < |steps| ==> Proper(w, steps[k])
    requires DocOrder in Properties(Nav(steps))
    ensures Eval(w, Typed(Sorted(Nav(steps))), x) == Eval(w, Nav(steps), x)
  {
    hide Documents, EvalSteps, Rewrite, Gather, LastConstant;
    TypedIsLastPart(w, steps, x);
    assert steps[0..] == steps;
  }

  /** A sorted path of proper steps keeps its results exactly if what is cut off is no loss. */
  lemma SortedPathExact(w: World, steps: seq<Expr>, x: Item)
    requires Documents(w) && In(w, x) && steps != []
    requires forall k :: 0 <= k < |steps| ==> Proper(w, steps[k])
    requires DocOrder in Properties(Nav(steps)) ==> CutCarries(w, steps)
    ensures Eval(w, Typed(Sorted(Nav(steps))), x) == Eval(w, Sorted(Nav(steps)), x) <==> Kept(w, steps, x)
  {
    hide Documents, EvalSteps, Rewrite, Gather, Ordered, Kept, CutCarries;
    var before, after := Eval(w, Nav(steps), x), Eval(w, Typed(Nav(steps)), x);
    PathTyped(w, steps, x);
    OrderedMeans(before);
    OrderedMeans(after);
    if Kept(w, steps, x) {
      OrderedOfSame(after, before);
    }
  }

  lemma {:induction false} GatherNotEmpty(done: seq<Expr>, steps: seq<Expr>, forced: bool)
    requires (forall k :: 0 <= k < |steps| ==> Resolved(steps[k])) && (done != [] || steps != [])
    ensures Gather(done, steps, forced) != [] && Rewrite(Gather(done, steps, forced)) != []
    decreases |steps|
  {
    hide NoneAbsorbed, Typed, Parts, Cuts, Forced, Resolved;
    if steps != [] {
      TypedShape(steps[0]);
      GatherNotEmpty(Left(done, steps[0], forced) + Parts(Typed(steps[0])), steps[1..], forced || Forced(steps[0]));
    }
  }

  /** Static typing keeps the results of every proper expression, item for item. */
  lemma {:induction false} TypedMeans(w: World, e: Expr, x: Item)
    requires Documents(w) && In(w, x) && Proper(w, e)
    ensures Eval(w, Typed(e), x) == Eval(w, e, x)
    decreases e, 0
  {
    hide FlatMap, Documents, EvalSteps, Rewrite, Gather, Ordered, OnAxisFrom, Kept, CutCarries;
    match e {
      case Filtered(inner, _) => TypedMeans(w, inner, x);
      case Sorted(inner) =>
        if inner.Nav? {
          PathProper(w, inner.steps);
          PathTyped(w, inner.steps, x);
          OrderedOfSame(Eval(w, Typed(inner), x), Eval(w, inner, x));
        } else {
          TypedMeans(w, inner, x);
        }
        if DocOrder in Properties(inner) && !inner.Nav? {
          SortIsNotNeeded(w, inner, x);
        }
      case Mapped(first, each) =>
        TypedMeans(w, first, x);
        MappedTyped(w, first, each, x);
      case Step(_, _) =>
      case Nav(_) =>
      case Call(_, _, _) =>
      case Constant(_, _, _) =>
      case Variable(_, _, _) =>
    }
  }

  lemma {:induction false} MappedTyped(w: World, first: Expr, each: Expr, x: Item)
    requires Documents(w) && In(w, x) && Proper(w, Mapped(first, each))
    ensures FlatMap(WalkOf(w, Typed(each)), Eval(w, first, x)) == FlatMap(WalkOf(w, each), Eval(w, first, x))
    decreases each, 1
  {
    hide FlatMap, Documents, Typed, Eval;
    var r := Eval(w, first, x);
    EvalStays(w, first, x);
    forall y | y in r ensures WalkOf(w, Typed(each))(y) == WalkOf(w, each)(y) {
      TypedMeans(w, each, y);
    }
    FlatMapSame(WalkOf(w, Typed(each)), WalkOf(w, each), r);
  }
}
