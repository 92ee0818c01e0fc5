/** Where static typing of paths does not keep the results. */
module PathLimits {
  // Simple maps whose combined properties claim too much, and variables that are declared to be
  // the context item.

  import opened Options
  import opened Events
  import opened Sequences
  import opened FastXdm
  import opened FastXdmNavigation
  import opened DocumentOrder
  import opened Axes
  import opened PathExpressions
  import opened PathTyping
  import opened StoredDocuments

  // ----- simple maps

  lemma TwiceIsNotIncreasing(f: Walk, r: seq<Item>, i: nat, j: nat, y: Item)
    requires i < j < |r| && y in f(r[i]) && y in f(r[j])
    ensures !Increasing(FlatMap(f, r))
  {
    hide FlatMap;
    var a, b := r[..j], r[j..];
    assert a + b == r;
    FlatMapConcat(f, a, b);
    FlatMapMember(f, a, y);
    FlatMapMember(f, b, y);
    assert a[i] in a && b[0] in b && a[i] == r[i] && b[0] == r[j];
    var p :| 0 <= p < |FlatMap(f, a)| && FlatMap(f, a)[p] == y;
    var q :| 0 <= q < |FlatMap(f, b)| && FlatMap(f, b)[q] == y;
    var all := FlatMap(f, r);
    assert all[p] == y && all[|FlatMap(f, a)| + q] == y;
  }

  // The siblings that follow, and then their children.
  const NEPHEWS := Mapped(Step(FollowingSiblingAxis, AnyNode(false)), Step(ChildAxis, AnyNode(false)))

  // The children's nephews.
  const COUSINS := Nav([Step(ChildAxis, AnyNode(false)), NEPHEWS])

  // A root with three children, the last of which has a child.
  const FAMILY: World := [Doc([E(0, None), E(1, Some(2)), E(1, Some(3)), E(1, None), E(2, None)], [])]

  function E(level: nat, next: Option<nat>): Node {
    Node(ElementData(Tag("", "", "e"), None, None, Some(UNTYPED)), level, next)
  }

  lemma FamilyIsDocument()
    ensures IsDocument(FAMILY[0])
  {
    var nodes := FAMILY[0].nodes;
    forall k | 1 <= k < |nodes| ensures StepsDown(nodes, k) {
    }
    forall i | 0 <= i < |nodes| ensures LinkOf(nodes, i) {
      FamilyLinks(i);
    }
  }

  lemma FamilyLinks(i: nat)
    requires i < 5
    ensures LinkOf(FAMILY[0].nodes, i)
  {
    var nodes := FAMILY[0].nodes;
    ScanOnMisses(nodes, 1, 0);
    ScanOnFinds(nodes, 2, 1, 2);
    ScanOnFinds(nodes, 3, 1, 3);
    ScanOnMisses(nodes, 4, 1);
    ScanOnMisses(nodes, 5, 2);
  }

  lemma FamilySteps()
    ensures In(FAMILY, Item(0, 0, 0))
    ensures Item(0, 1, 0) in Eval(FAMILY, Step(ChildAxis, AnyNode(false)), Item(0, 0, 0))
    ensures Item(0, 2, 0) in Eval(FAMILY, Step(ChildAxis, AnyNode(false)), Item(0, 0, 0))
  {
    hide OnAxisFrom;
    AxisSelects(FAMILY, ChildAxis, Item(0, 0, 0));
  }

  lemma FamilyNephew(k: nat)
    requires k == 1 || k == 2
    ensures Item(0, 4, 0) in Eval(FAMILY, NEPHEWS, Item(0, k, 0))
  {
    hide OnAxisFrom, Eval, FlatMap;
    var child, sibling := Step(ChildAxis, AnyNode(false)), Step(FollowingSiblingAxis, AnyNode(false));
    assert Selected(FAMILY, FollowingSiblingAxis, Item(0, k, 0), Item(0, 3, 0));
    assert Selected(FAMILY, ChildAxis, Item(0, 3, 0), Item(0, 4, 0));
    StepSelects(FollowingSiblingAxis, Item(0, k, 0), Item(0, 3, 0));
    StepSelects(ChildAxis, Item(0, 3, 0), Item(0, 4, 0));
    assert Item(0, 4, 0) in WalkOf(FAMILY, child)(Item(0, 3, 0));
    FlatMapMember(WalkOf(FAMILY, child), Eval(FAMILY, sibling, Item(0, k, 0)), Item(0, 4, 0));
    NephewsAre(Item(0, k, 0));
  }

  lemma StepSelects(axis: Axis, x: Item, y: Item)
    requires In(FAMILY, x) && Selected(FAMILY, axis, x, y)
    ensures y in Eval(FAMILY, Step(axis, AnyNode(false)), x)
  {
    hide OnAxisFrom, Selected;
    AxisSelects(FAMILY, axis, x);
    AxisStays(FAMILY, axis, x);
  }

  lemma NephewsAre(x: Item)
    ensures var child, sibling := Step(ChildAxis, AnyNode(false)), Step(FollowingSiblingAxis, AnyNode(false));
            Eval(FAMILY, NEPHEWS, x) == FlatMap(WalkOf(FAMILY, child), Eval(FAMILY, sibling, x))
  {
    hide FlatMap, OnAxisFrom;
  }

  /** Under a simple map that gains the subtree property, document order can be inferred for
      results that are not in order, and the sort is dropped from them. */
  lemma SimpleMapLosesOrder()
    ensures IsDocument(FAMILY[0]) && In(FAMILY, Item(0, 0, 0)) && Within(FAMILY, Sorted(COUSINS))
    ensures DocOrder in Properties(COUSINS) && !Carries(FAMILY, COUSINS)
    ensures Eval(FAMILY, Typed(Sorted(COUSINS)), Item(0, 0, 0)) != Eval(FAMILY, Sorted(COUSINS), Item(0, 0, 0))
  {
    hide Eval, OnAxisFrom, Ordered, FlatMap, IsDocument;
    var x, child := Item(0, 0, 0), Step(ChildAxis, AnyNode(false));
    FamilyIsDocument();
    FamilySteps();
    FamilyNephew(1);
    FamilyNephew(2);
    var kids := Eval(FAMILY, child, x);
    var i :| 0 <= i < |kids| && kids[i] == Item(0, 1, 0);
    var j :| 0 <= j < |kids| && kids[j] == Item(0, 2, 0);
    if i < j {
      TwiceIsNotIncreasing(WalkOf(FAMILY, NEPHEWS), kids, i, j, Item(0, 4, 0));
    } else {
      TwiceIsNotIncreasing(WalkOf(FAMILY, NEPHEWS), kids, j, i, Item(0, 4, 0));
    }
    CousinsAre(x);
    OrderedMeans(Eval(FAMILY, COUSINS, x));
    SortedIs(COUSINS, x);
    CousinProperties();
    CousinsProper();
    DocumentsHold(FAMILY);
    SortDropped(FAMILY, [child, NEPHEWS], x);
  }

  lemma CousinsProper()
    ensures var child := Step(ChildAxis, AnyNode(false));
            Proper(FAMILY, child) && Proper(FAMILY, NEPHEWS) && LastConstant([child, NEPHEWS]) == 0
  {
  }

  lemma SortedIs(e: Expr, x: Item)
    ensures Eval(FAMILY, Sorted(e), x) == Ordered(Eval(FAMILY, e, x))
  {
  }

  lemma CousinsAre(x: Item)
    ensures Eval(FAMILY, COUSINS, x)
         == FlatMap(WalkOf(FAMILY, NEPHEWS), Eval(FAMILY, Step(ChildAxis, AnyNode(false)), x))
  {
    var child := Step(ChildAxis, AnyNode(false));
    hide FlatMap, WalkOf, EvalSteps;
    assert Eval(FAMILY, COUSINS, x) == EvalSteps(FAMILY, [child, NEPHEWS], [x]);
    StepsFromOne(FAMILY, [child, NEPHEWS], x);
    assert [child, NEPHEWS][1..] == [NEPHEWS] + [];
    EvalStepsCons(FAMILY, NEPHEWS, [], Eval(FAMILY, child, x));
    NoSteps(FAMILY, FlatMap(WalkOf(FAMILY, NEPHEWS), Eval(FAMILY, child, x)));
  }

  lemma CousinProperties()
    ensures DocOrder in Properties(COUSINS) && !Carries(FAMILY, COUSINS) && Within(FAMILY, Sorted(COUSINS))
  {
    TwoSteps(Step(ChildAxis, AnyNode(false)), NEPHEWS);
    NephewProperties();
  }

  lemma NephewProperties()
    ensures var after := CombineProperties(ALL, Properties(Step(ChildAxis, AnyNode(false))));
            DocOrder in CombineProperties(after, Properties(NEPHEWS)) && !StepCarries(FAMILY, after, NEPHEWS)
  {
    var after := CombineProperties(ALL, Properties(Step(ChildAxis, AnyNode(false))));
    assert {DocOrder, Peer} <= after && {DocOrder, Subtree} <= Properties(NEPHEWS);
    assert OneNode !in Carried(after);
  }

  // The properties of a path of two steps.
  lemma TwoSteps(a: Expr, b: Expr)
    ensures var after := CombineProperties(ALL, Properties(a));
            && Properties(Nav([a, b])) == CombineProperties(after, Properties(b))
            && (Carries(FAMILY, Nav([a, b])) ==> StepCarries(FAMILY, after, b))
  {
    hide CombineProperties, Earned, Carried, StepCarries;
    var steps, after := [a, b], CombineProperties(ALL, Properties(a));
    assert steps[1..] == [b] && [b][1..] == [];
    assert FoldSteps(ALL, steps) == FoldSteps(after, [b]);
    assert FoldSteps(after, [b]) == CombineProperties(after, Properties(b));
    assert FoldCarries(FAMILY, ALL, steps) ==> FoldCarries(FAMILY, after, [b]);
  }

  // ----- variables

  // A variable of one item, for each child.
  function Repeated(y: Item): Expr {
    Mapped(Step(ChildAxis, AnyNode(false)), Variable([y], DeclaredFlags(true), PLAIN))
  }

  function RepeatedPath(y: Item): Expr {
    Nav([Step(SelfAxis, AnyNode(false)), Repeated(y)])
  }

  /** A variable of exactly one item is declared to be the context item, whatever its value;
      so, on the right of a simple map, document order can be inferred for results that repeat
      it, and the sort that would remove the repetition is dropped. */
  lemma VariableLosesOrder(y: Item)
    requires In(FAMILY, y)
    ensures var x := Item(0, 0, 0);
            && IsDocument(FAMILY[0]) && In(FAMILY, x) && Within(FAMILY, Sorted(RepeatedPath(y)))
            && DocOrder in Properties(RepeatedPath(y)) && !Carries(FAMILY, RepeatedPath(y))
            && Eval(FAMILY, Typed(Sorted(RepeatedPath(y))), x) != Eval(FAMILY, Sorted(RepeatedPath(y)), x)
  {
    hide Eval, OnAxisFrom, Ordered, FlatMap, IsDocument, Typed, Carries, Properties, Within, Proper;
    var x, child := Item(0, 0, 0), Step(ChildAxis, AnyNode(false));
    var v := Variable([y], DeclaredFlags(true), PLAIN);
    FamilyIsDocument();
    FamilySteps();
    var kids := Eval(FAMILY, child, x);
    var i :| 0 <= i < |kids| && kids[i] == Item(0, 1, 0);
    var j :| 0 <= j < |kids| && kids[j] == Item(0, 2, 0);
    forall z ensures y in WalkOf(FAMILY, v)(z) {
      VariableDelivers(FAMILY, v, z);
    }
    if i < j {
      TwiceIsNotIncreasing(WalkOf(FAMILY, v), kids, i, j, y);
    } else {
      TwiceIsNotIncreasing(WalkOf(FAMILY, v), kids, j, i, y);
    }
    RepeatedIs(FAMILY, x, y);
    RepeatedOrder(y);
    RepeatedProper(y);
    OrderedMeans(Eval(FAMILY, RepeatedPath(y), x));
    SortedIs(RepeatedPath(y), x);
    DocumentsHold(FAMILY);
    SortDropped(FAMILY, [Step(SelfAxis, AnyNode(false)), Repeated(y)], x);
  }

  lemma VariableDelivers(w: World, v: Expr, y: Item)
    requires v.Variable?
    ensures WalkOf(w, v)(y) == v.items
  {
  }

  lemma RepeatedIs(w: World, x: Item, y: Item)
    requires In(w, x)
    ensures Eval(w, RepeatedPath(y), x)
         == FlatMap(WalkOf(w, Variable([y], DeclaredFlags(true), PLAIN)), Eval(w, Step(ChildAxis, AnyNode(false)), x))
  {
    var self := Step(SelfAxis, AnyNode(false));
    hide FlatMap, EvalSteps, OnAxisFrom;
    assert Eval(w, self, x) == [x] by { SelfDelivers(w, x); }
    StepsFromOne(w, [self, Repeated(y)], x);
    assert [self, Repeated(y)][1..] == [Repeated(y)];
    StepsFromOne(w, [Repeated(y)], x);
    assert [Repeated(y)][1..] == [];
    NoSteps(w, Eval(w, Repeated(y), x));
  }

  lemma SelfDelivers(w: World, x: Item)
    requires In(w, x)
    ensures Eval(w, Step(SelfAxis, AnyNode(false)), x) == [x]
  {
    hide OnAxisFrom;
    SelfAxisIsSelf(w, x);
    AxisSelects(w, SelfAxis, x);
    Singleton(Tester(w, AnyNode(false)), (_: Item) => [x], x);
  }

  lemma RepeatedProper(y: Item)
    requires In(FAMILY, y)
    ensures Within(FAMILY, Sorted(RepeatedPath(y)))
    ensures Proper(FAMILY, Step(SelfAxis, AnyNode(false))) && Proper(FAMILY, Repeated(y))
    ensures LastConstant([Step(SelfAxis, AnyNode(false)), Repeated(y)]) == 0
  {
    hide Has;
    var self, child := Step(SelfAxis, AnyNode(false)), Step(ChildAxis, AnyNode(false));
    var v := Variable([y], DeclaredFlags(true), PLAIN);
    assert Within(FAMILY, v) by { assert Stays(FAMILY, [y]); }
    assert Proper(FAMILY, v) && Proper(FAMILY, child);
    assert Proper(FAMILY, Mapped(child, v));
    assert Within(FAMILY, Nav([self, Repeated(y)]));
    assert UsesContext(Repeated(y));
  }

  lemma RepeatedOrder(y: Item)
    ensures DocOrder in Properties(RepeatedPath(y)) && !Carries(FAMILY, RepeatedPath(y))
  {
    TwoSteps(Step(SelfAxis, AnyNode(false)), Repeated(y));
    RepeatedFlags(y);
  }

  lemma RepeatedFlags(y: Item)
    ensures var after := CombineProperties(ALL, Properties(Step(SelfAxis, AnyNode(false))));
            && DocOrder in CombineProperties(after, Properties(Repeated(y)))
            && !StepCarries(FAMILY, after, Repeated(y))
  {
    hide FoldSteps, CombineProperties, Earned, Carries;
    var child, v := Step(ChildAxis, AnyNode(false)), Variable([y], DeclaredFlags(true), PLAIN);
    FlagsMapped();
    NotMapped(child, v);
  }

  lemma NotMapped(first: Expr, v: Expr)
    requires v.Variable? && Self in v.flags && OneNode !in Carried(Properties(first))
    ensures !Carries(FAMILY, Mapped(first, v)) && !Earned(FAMILY, Mapped(first, v))
  {
    MappedVariable(FAMILY, first, v);
    assert !Earned(FAMILY, v) by { assert Self in Properties(v); }
    NotEarned(first, v);
  }

  lemma FlagsMapped()
    ensures var child, one := AxisProperties(ChildAxis), Inherited(DeclaredFlags(true));
            && var after := CombineProperties(ALL, AxisProperties(SelfAxis));
            && DocOrder in CombineProperties(child, one) && OneNode !in Carried(child)
            && OneNode in after && DocOrder in CombineProperties(after, CombineProperties(child, one))
  {
  }

  // Maps that carry nothing can only be earned by their parts.
  lemma NotEarned(first: Expr, each: Expr)
    requires !Carries(FAMILY, Mapped(first, each)) && !Earned(FAMILY, each)
    ensures !Earned(FAMILY, Mapped(first, each))
  {
  }

  // ----- steps that deliver one and the same node from each child

  // Where order is inferred for such a step, and it does not clear the one before it.
  lemma RepeatedStep(a: Expr, e: Expr, y: Item)
    requires In(FAMILY, y) && Proper(FAMILY, a) && Proper(FAMILY, e) && LastConstant([a, e]) == 0
    requires DocOrder in Properties(Nav([a, e])) && forall z :: WalkOf(FAMILY, e)(z) == [y]
    requires Eval(FAMILY, a, Item(0, 0, 0)) == Eval(FAMILY, Step(ChildAxis, AnyNode(false)), Item(0, 0, 0))
    ensures var path, x := Sorted(Nav([a, e])), Item(0, 0, 0);
            Eval(FAMILY, Typed(path), x) != Eval(FAMILY, path, x)
  {
    hide Eval, OnAxisFrom, Ordered, FlatMap, IsDocument, Typed, Properties, Proper, LastConstant;
    var x := Item(0, 0, 0);
    FamilyIsDocument();
    FamilySteps();
    var kids := Eval(FAMILY, a, x);
    var i :| 0 <= i < |kids| && kids[i] == Item(0, 1, 0);
    var j :| 0 <= j < |kids| && kids[j] == Item(0, 2, 0);
    if i < j {
      TwiceIsNotIncreasing(WalkOf(FAMILY, e), kids, i, j, y);
    } else {
      TwiceIsNotIncreasing(WalkOf(FAMILY, e), kids, j, i, y);
    }
    TwoStepsAre(a, e, x);
    OrderedMeans(Eval(FAMILY, Nav([a, e]), x));
    SortedIs(Nav([a, e]), x);
    DocumentsHold(FAMILY);
    SortDropped(FAMILY, [a, e], x);
  }

  lemma TwoStepsAre(a: Expr, e: Expr, x: Item)
    ensures Eval(FAMILY, Nav([a, e]), x) == FlatMap(WalkOf(FAMILY, e), Eval(FAMILY, a, x))
  {
    hide FlatMap, WalkOf, EvalSteps;
    assert Eval(FAMILY, Nav([a, e]), x) == EvalSteps(FAMILY, [a, e], [x]);
    StepsFromOne(FAMILY, [a, e], x);
    assert [a, e][1..] == [e] + [];
    EvalStepsCons(FAMILY, e, [], Eval(FAMILY, a, x));
    NoSteps(FAMILY, FlatMap(WalkOf(FAMILY, e), Eval(FAMILY, a, x)));
  }

  lemma OrderAfterChild(e: Expr)
    requires {DocOrder, Subtree} <= Properties(e) || Self in Properties(e)
    ensures DocOrder in Properties(Nav([Step(ChildAxis, AnyNode(false)), e]))
  {
    TwoSteps(Step(ChildAxis, AnyNode(false)), e);
  }

  /** fn:doc, called with each child and for the same document each time: document order is
      inferred of the repeated node, and static typing changes the results. */
  lemma DocLosesOrder(y: Item)
    requires In(FAMILY, y)
    ensures var doc := Call(_ => [y], DOC_FLAGS, PLAIN);
            var path, x := Sorted(Nav([Step(ChildAxis, AnyNode(false)), doc])), Item(0, 0, 0);
            && IsDocument(FAMILY[0]) && In(FAMILY, x) && Within(FAMILY, path) && Carries(FAMILY, doc)
            && Eval(FAMILY, Typed(path), x) != Eval(FAMILY, path, x)
  {
    hide Typed, IsDocument, Ordered, OnAxisFrom, EvalSteps;
    var child, doc := Step(ChildAxis, AnyNode(false)), Call(_ => [y], DOC_FLAGS, PLAIN);
    FamilyIsDocument();
    assert Within(FAMILY, doc) && Within(FAMILY, Nav([child, doc]));
    DocCarries(FAMILY, doc.walk, PLAIN);
    OrderAfterChild(doc);
    CallsDeliver(doc);
    assert LastConstant([child, doc]) == 0 && Proper(FAMILY, child) && Proper(FAMILY, doc);
    RepeatedStep(child, doc, y);
  }

  lemma CallsDeliver(e: Expr)
    requires e.Call? || e.Variable?
    ensures forall z :: WalkOf(FAMILY, e)(z) == if e.Call? then e.walk(z) else e.items
  {
  }

  /** A variable of one item as a later step, of which static typing cannot tell that it is a
      node, so that it does not clear the steps before it. */
  lemma UntypedLosesOrder(y: Item)
    requires In(FAMILY, y)
    ensures var v := Variable([y], DeclaredFlags(true), Traits(false, false, false));
            var path, x := Sorted(Nav([Step(ChildAxis, AnyNode(false)), v])), Item(0, 0, 0);
            && In(FAMILY, x) && Within(FAMILY, path) && Carries(FAMILY, v)
            && Eval(FAMILY, Typed(path), x) != Eval(FAMILY, path, x)
  {
    hide Typed, IsDocument, Ordered, OnAxisFrom, EvalSteps;
    var child, v := Step(ChildAxis, AnyNode(false)), Variable([y], DeclaredFlags(true), Traits(false, false, false));
    assert Stays(FAMILY, [y]) && Within(FAMILY, v) && Within(FAMILY, Nav([child, v]));
    DeclaredVariable(FAMILY, [y], true, v.traits, y);
    OrderAfterChild(v);
    CallsDeliver(v);
    assert LastConstant([child, v]) == 0 && Proper(FAMILY, child) && Proper(FAMILY, v);
    RepeatedStep(child, v, y);
  }

  /** The same for a typed variable after a step that is traced, which forbids folding. */
  lemma TracedLosesOrder(y: Item)
    requires In(FAMILY, y)
    ensures var child, v := Step(ChildAxis, AnyNode(false)), Variable([y], DeclaredFlags(true), PLAIN);
            var traced := Call(WalkOf(FAMILY, child), Properties(child), Traits(true, false, true));
            var path, x := Sorted(Nav([traced, v])), Item(0, 0, 0);
            && In(FAMILY, x) && Within(FAMILY, path) && Earned(FAMILY, traced) && Carries(FAMILY, v) && Cuts(v)
            && Eval(FAMILY, Typed(path), x) != Eval(FAMILY, path, x)
  {
    hide Typed, IsDocument, Ordered, OnAxisFrom, EvalSteps;
    var child, v := Step(ChildAxis, AnyNode(false)), Variable([y], DeclaredFlags(true), PLAIN);
    var traced := Call(WalkOf(FAMILY, child), Properties(child), Traits(true, false, true));
    assert Stays(FAMILY, [y]) && Within(FAMILY, v);
    DeclaredVariable(FAMILY, [y], true, PLAIN, y);
    TracedIs(traced);
    OrderAfterChild(v);
    SameProperties(child, traced, v);
    CallsDeliver(v);
    ForcedFirst(traced, v);
    assert Within(FAMILY, Nav([traced, v])) && Proper(FAMILY, v) && Proper(FAMILY, traced);
    hide Properties, Eval, FoldSteps, Earned, Carries, Proper, Within;
    RepeatedStep(traced, v, y);
  }

  lemma ForcedFirst(traced: Expr, e: Expr)
    requires Forced(traced)
    ensures LastConstant([traced, e]) == 0
  {
    assert Forced([traced, e][..1][0]) && AnyForced([traced, e][..1]);
    assert !CutsAt([traced, e], 1);
  }

  lemma TracedIs(traced: Expr)
    requires traced.Call? && traced.walk == WalkOf(FAMILY, Step(ChildAxis, AnyNode(false)))
    requires traced.declared == AxisProperties(ChildAxis)
    ensures Within(FAMILY, traced) && Earned(FAMILY, traced)
    ensures forall x :: Eval(FAMILY, traced, x) == Eval(FAMILY, Step(ChildAxis, AnyNode(false)), x)
  {
    hide OnAxisFrom, Has;
    forall x | In(FAMILY, x) ensures Stays(FAMILY, traced.walk(x)) && Has(FAMILY, traced.declared, x, traced.walk(x)) {
      StepSound(FAMILY, ChildAxis, AnyNode(false), x);
      EvalStays(FAMILY, Step(ChildAxis, AnyNode(false)), x);
    }
  }

  lemma SameProperties(a: Expr, b: Expr, e: Expr)
    requires Properties(a) == Properties(b)
    ensures Properties(Nav([a, e])) == Properties(Nav([b, e]))
  {
    TwoSteps(a, e);
    TwoSteps(b, e);
  }

  // ----- a declaration that is wrong by itself

  // Two documents.
  const LIBRARY: World := [FAMILY[0], FAMILY[0]]

  /** fn:document, called with the names of two documents, delivers both, in the order of the
      names, but declares one node in document order; static typing drops the sort. */
  lemma DocumentLosesOrder()
    ensures var both := Constant([Item(1, 0, 0), Item(0, 0, 0)], DOC_FLAGS, PLAIN);
            var path, x := Sorted(Nav([both])), Item(0, 0, 0);
            && Documents(LIBRARY) && In(LIBRARY, x) && Within(LIBRARY, path) && !Carries(LIBRARY, both)
            && Eval(LIBRARY, Typed(path), x) != Eval(LIBRARY, path, x)
  {
    hide Typed, IsDocument, Ordered, EvalSteps, Documents, InGroups;
    var r, x := [Item(1, 0, 0), Item(0, 0, 0)], Item(0, 0, 0);
    var both := Constant(r, DOC_FLAGS, PLAIN);
    FamilyIsDocument();
    DocumentsHold(LIBRARY);
    assert In(LIBRARY, Item(1, 0, 0)) && In(LIBRARY, x) && Within(LIBRARY, both) && Within(LIBRARY, Nav([both]));
    assert OneNode in Carried(DOC_FLAGS) && !HoldsAt(LIBRARY, OneNode, x, r);
    assert !Has(LIBRARY, Carried(DOC_FLAGS), x, r);
    OneStepIs(both, x);
    assert !Increasing(r) by { assert !Before(r[0], r[1]); }
    OrderedMeans(r);
    assert Proper(LIBRARY, both) && DocOrder in Properties(Nav([both]));
    SortDropped(LIBRARY, [both], x);
  }

  lemma OneStepIs(e: Expr, x: Item)
    ensures Eval(LIBRARY, Nav([e]), x) == Eval(LIBRARY, e, x)
    ensures Eval(LIBRARY, Sorted(Nav([e])), x) == Ordered(Eval(LIBRARY, e, x))
    ensures Properties(Nav([e])) == CombineProperties(ALL, Properties(e))
  {
    hide EvalSteps, Ordered;
    StepsFromOne(LIBRARY, [e], x);
    assert [e][1..] == [];
    NoSteps(LIBRARY, Eval(LIBRARY, e, x));
    assert FoldSteps(ALL, [e]) == FoldSteps(CombineProperties(ALL, Properties(e)), [e][1..]);
  }
}
