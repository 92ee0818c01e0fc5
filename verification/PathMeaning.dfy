/** What paths select. */
module PathMeaning {
  // Said by index and by items: which results a predicate keeps, which nodes a node test accepts,
  // and which items a path of steps leads to.

  import opened Options
  import opened Sequences
  import opened Places
  import opened FastXdm
  import opened FastXdmNavigation
  import opened DocumentOrder
  import opened Axes
  import opened PathExpressions

  // ----- predicates

  // ks are the places whose items pass with their positions, the first item having position.
  ghost predicate PassAt(test: (Item, nat, nat) -> bool, s: seq<Item>, position: nat, size: nat, ks: seq<nat>) {
    forall k: nat :: k in ks <==> k < |s| && test(s[k], position + k, size)
  }

  lemma {:induction false} PositionsTaken(test: (Item, nat, nat) -> bool, s: seq<Item>, position: nat, size: nat)
    returns (ks: seq<nat>)
    ensures TakenAt(s, ks, KeepFrom(test, s, position, size)) && PassAt(test, s, position, size, ks)
  {
    hide TakenAt, KeepFrom, PassAt;
    KeepOn(test, s, position, size);
    if s == [] {
      ks := [];
      NothingTaken(s);
      assert PassAt(test, s, position, size, ks) by { NonePass(test, position, size); }
    } else {
      var rest := PositionsTaken(test, s[1..], position + 1, size);
      var keep, r := test(s[0], position, size), KeepFrom(test, s[1..], position + 1, size);
      ks := if keep then [0] + Shifted(rest) else Shifted(rest);
      TakenRest(s, rest, r);
      if keep {
        TakenFirst(s, Shifted(rest), r);
      }
      PlacesMove(test, s, position, size, rest);
    }
  }

  lemma NonePass(test: (Item, nat, nat) -> bool, position: nat, size: nat)
    ensures PassAt(test, [], position, size, [])
  {
  }

  lemma KeepOn(test: (Item, nat, nat) -> bool, s: seq<Item>, position: nat, size: nat)
    ensures s == [] ==> KeepFrom(test, s, position, size) == []
    ensures s != [] ==>
              var r := KeepFrom(test, s[1..], position + 1, size);
              KeepFrom(test, s, position, size) == if test(s[0], position, size) then [s[0]] + r else r
  {
  }

  lemma PlacesMove(test: (Item, nat, nat) -> bool, s: seq<Item>, position: nat, size: nat, rest: seq<nat>)
    requires s != [] && PassAt(test, s[1..], position + 1, size, rest)
    ensures var ks := if test(s[0], position, size) then [0] + Shifted(rest) else Shifted(rest);
            PassAt(test, s, position, size, ks)
  {
    var ks := if test(s[0], position, size) then [0] + Shifted(rest) else Shifted(rest);
    forall k: nat ensures k in ks <==> k < |s| && test(s[k], position + k, size) {
      ShiftedHas(rest, if k == 0 then 0 else k - 1);
      assert 0 < k < |s| ==> s[1..][k - 1] == s[k];
    }
  }

  /** A positional predicate keeps, in order, exactly the results that pass its test with their
      position, counted from one, and the number of all. */
  lemma PredicateKeeps(w: World, e: Expr, test: (Item, nat, nat) -> bool, x: Item) returns (ks: seq<nat>)
    ensures TakenAt(Eval(w, e, x), ks, Eval(w, Filtered(e, ByPosition(test)), x))
    ensures var s := Eval(w, e, x); forall k: nat :: k in ks <==> k < |s| && test(s[k], k + 1, |s|)
  {
    var s := Eval(w, e, x);
    ks := PositionsTaken(test, s, 1, |s|);
  }

  /** Any other predicate keeps, in order, exactly the results that pass. */
  lemma TestKeeps(w: World, e: Expr, test: Item -> bool, x: Item) returns (ks: seq<nat>)
    ensures TakenAt(Eval(w, e, x), ks, Eval(w, Filtered(e, ByItem(test)), x))
    ensures var s := Eval(w, e, x); forall k: nat :: k in ks <==> k < |s| && test(s[k])
  {
    ks := FilterTaken(test, Eval(w, e, x));
  }

  /** The predicate [n] keeps the result at position n, if there is one. */
  lemma NthKept(w: World, e: Expr, n: nat, x: Item)
    ensures var s := Eval(w, e, x);
            Eval(w, Filtered(e, ByPosition((_: Item, position: nat, _: nat) => position == n)), x)
            == if 1 <= n <= |s| then [s[n - 1]] else []
  {
    var test := (_: Item, position: nat, _: nat) => position == n;
    var ks := PredicateKeeps(w, e, test, x);
    OneTaken(Eval(w, e, x), ks, Eval(w, Filtered(e, ByPosition(test)), x), n);
  }

  // Only one place is taken.
  lemma OneTaken(s: seq<Item>, ks: seq<nat>, r: seq<Item>, n: nat)
    requires TakenAt(s, ks, r) && forall k: nat :: k in ks <==> k < |s| && k + 1 == n
    ensures r == if 1 <= n <= |s| then [s[n - 1]] else []
  {
    var only: seq<nat> := if 1 <= n <= |s| then [n - 1] else [];
    assert forall k: nat :: k in ks <==> k in only;
    SameRising(ks, only);
  }

  /** The predicate [last()] keeps the last result. */
  lemma LastKept(w: World, e: Expr, x: Item)
    ensures var s := Eval(w, e, x);
            Eval(w, Filtered(e, ByPosition((_: Item, position: nat, size: nat) => position == size)), x)
            == if s == [] then [] else [s[|s| - 1]]
  {
    var test := (_: Item, position: nat, size: nat) => position == size;
    var ks := PredicateKeeps(w, e, test, x);
    OneTaken(Eval(w, e, x), ks, Eval(w, Filtered(e, ByPosition(test)), x), |Eval(w, e, x)|);
  }

  // ----- node tests

  /** A node is what the tree that it encodes is; and attributes are attributes. */
  lemma KindOfTree(w: World, d: nat, i: nat, t: Tree, level: nat)
    requires d < |w| && Encodes(w[d].nodes, w[d].attrs, i, t, level)
    ensures In(w, Item(d, i, 0))
    ensures KindIs(w, DocumentKind, Item(d, i, 0)) <==> t.DocumentTree?
    ensures KindIs(w, ElementKind, Item(d, i, 0)) <==> t.ElementTree?
    ensures KindIs(w, TextKind, Item(d, i, 0)) <==> t.TextTree?
    ensures KindIs(w, CommentKind, Item(d, i, 0)) <==> t.CommentTree?
    ensures KindIs(w, PIKind, Item(d, i, 0)) <==> t.PITree?
    ensures !KindIs(w, AttributeKind, Item(d, i, 0))
  {
  }

  lemma KindOfAttribute(w: World, y: Item, kind: Kind)
    requires In(w, y) && y.slot > 0
    ensures KindIs(w, kind, y) <==> kind == AttributeKind
  {
  }

  /** A step selects exactly the nodes on its axis that are of its kind and pass its name test;
      the wildcard takes them all, or those that may have children if only they matter. */
  lemma StepSelects(w: World, axis: Axis, x: Item, y: Item)
    requires In(w, x)
    ensures forall kind, name ::
              y in Eval(w, Step(axis, OnlyKind(kind, name)), x) <==>
                Selected(w, axis, x, y) && KindIs(w, kind, y) && name(y)
    ensures y in Eval(w, Step(axis, AnyNode(false)), x) <==> Selected(w, axis, x, y)
    ensures y in Eval(w, Step(axis, AnyNode(true)), x) <==>
              Selected(w, axis, x, y) && (KindIs(w, DocumentKind, y) || KindIs(w, ElementKind, y))
  {
    hide OnAxisFrom;
    AxisSelects(w, axis, x);
  }

  // ----- paths

  // Each item is selected by its step from the one before.
  ghost predicate Leads(w: World, steps: seq<Expr>, c: seq<Item>) {
    && |c| == |steps| + 1
    && forall k :: 0 <= k < |steps| ==> c[k + 1] in Eval(w, steps[k], c[k])
  }

  lemma {:induction false} StepsLead(w: World, steps: seq<Expr>, r: seq<Item>, y: Item)
    ensures y in EvalSteps(w, steps, r) <==> exists c :: Leads(w, steps, c) && c[0] in r && c[|steps|] == y
    decreases |steps|
  {
    hide FlatMap, Eval;
    if steps == [] {
      NoSteps(w, r);
      if y in r {
        assert Leads(w, steps, [y]);
      }
    } else {
      var e, rest := steps[0], steps[1..];
      assert steps == [e] + rest;
      EvalStepsCons(w, e, rest, r);
      StepsLead(w, rest, FlatMap(WalkOf(w, e), r), y);
      if c :| Leads(w, steps, c) && c[0] in r && c[|steps|] == y {
        LeadsTail(w, steps, c);
        assert WalkOf(w, e)(c[0]) == Eval(w, e, c[0]);
        FlatMapMember(WalkOf(w, e), r, c[1]);
        assert c[1..][0] in FlatMap(WalkOf(w, e), r) && c[1..][|rest|] == y;
      }
      if y in EvalSteps(w, steps, r) {
        var c :| Leads(w, rest, c) && c[0] in FlatMap(WalkOf(w, e), r) && c[|rest|] == y;
        FlatMapMember(WalkOf(w, e), r, c[0]);
        var z :| z in r && c[0] in WalkOf(w, e)(z);
        LeadsCons(w, steps, z, c);
        assert ([z] + c)[|steps|] == y;
      }
    }
  }

  lemma LeadsTail(w: World, steps: seq<Expr>, c: seq<Item>)
    requires Leads(w, steps, c) && steps != []
    ensures Leads(w, steps[1..], c[1..]) && c[1] in Eval(w, steps[0], c[0])
  {
    hide Eval;
    assert c[0 + 1] in Eval(w, steps[0], c[0]);
    forall k | 0 <= k < |steps[1..]| ensures c[1..][k + 1] in Eval(w, steps[1..][k], c[1..][k]) {
      assert c[(k + 1) + 1] in Eval(w, steps[k + 1], c[k + 1]);
    }
  }

  lemma LeadsCons(w: World, steps: seq<Expr>, z: Item, c: seq<Item>)
    requires steps != [] && Leads(w, steps[1..], c) && c[0] in Eval(w, steps[0], z)
    ensures Leads(w, steps, [z] + c)
  {
    hide Eval;
    var all := [z] + c;
    forall k | 0 <= k < |steps| ensures all[k + 1] in Eval(w, steps[k], all[k]) {
      if k > 0 {
        assert c[(k - 1) + 1] in Eval(w, steps[1..][k - 1], c[k - 1]);
      }
    }
  }

  /** A path selects exactly the items that its steps, one after the other, lead to; sorted,
      each once and in document order. */
  lemma PathSelects(w: World, steps: seq<Expr>, x: Item, y: Item)
    requires steps != []
    ensures y in Eval(w, Nav(steps), x) <==> exists c :: Leads(w, steps, c) && c[0] == x && c[|steps|] == y
    ensures y in Eval(w, Sorted(Nav(steps)), x) <==> y in Eval(w, Nav(steps), x)
    ensures Increasing(Eval(w, Sorted(Nav(steps)), x))
  {
    hide EvalSteps, Ordered, Leads;
    StepsLead(w, steps, [x], y);
    OrderedMeans(Eval(w, Nav(steps), x));
    assert forall z :: z in [x] <==> z == x;
  }

  // ----- for which paths order is inferred

  // The axes of a path of steps, without the self axis.
  function Moves(axes: seq<Axis>): seq<Axis> {
    if axes == [] then [] else Then(Moves(axes[..|axes| - 1]), axes[|axes| - 1])
  }

  function Then(moves: seq<Axis>, axis: Axis): seq<Axis> {
    if axis == SelfAxis then moves else moves + [axis]
  }

  predicate Upward(axes: seq<Axis>) {
    forall a :: a in axes ==> a == ParentAxis
  }

  predicate Downward(axes: seq<Axis>) {
    forall a :: a in axes ==> a == ChildAxis || a == AttributeAxis
  }

  predicate GoesOn(axis: Axis) {
    || axis == ChildAxis || axis == AttributeAxis || axis == DescendantAxis || axis == DescendantOrSelfAxis
    || axis == FollowingSiblingAxis || axis == FollowingAxis || axis == ParentAxis
  }

  predicate StaysBelow(axis: Axis) {
    axis == ChildAxis || axis == AttributeAxis || axis == DescendantAxis || axis == DescendantOrSelfAxis
  }

  /** After a step with the properties ps, order is kept up to a last move that is forward, or to
      the parent, after moves to the parent only, if there is one node; or that stays in the
      subtree, after moves to children and attributes only, if they are peers in order. */
  predicate OrderAfter(ps: Props, moves: seq<Axis>) {
    if moves == [] then DocOrder in ps
    else
      var front, last := moves[..|moves| - 1], moves[|moves| - 1];
      || (OneNode in ps && Upward(front) && GoesOn(last))
      || (DocOrder in ps && Peer in ps && Downward(front) && StaysBelow(last))
  }

  // A step along the axis, under any predicates.
  predicate StepAlong(e: Expr, axis: Axis) {
    match e
    case Step(along, _) => along == axis
    case Filtered(inner, _) => StepAlong(inner, axis)
    case _ => false
  }

  predicate StepsAlong(steps: seq<Expr>, axes: seq<Axis>) {
    |steps| == |axes| && forall k :: 0 <= k < |steps| ==> StepAlong(steps[k], axes[k])
  }

  lemma {:induction false} AlongProperties(e: Expr, axis: Axis)
    requires StepAlong(e, axis)
    ensures Properties(e) == AxisProperties(axis)
  {
    if e.Filtered? {
      AlongProperties(e.inner, axis);
    }
  }

  // What decides on the order, after ps and the moves.
  ghost predicate Tracks(ps: Props, moves: seq<Axis>, qs: Props) {
    && Self !in qs
    && (DocOrder in qs <==> OrderAfter(ps, moves))
    && (DocOrder in qs && Peer in qs <==> DocOrder in ps && Peer in ps && Downward(moves))
    && (OneNode in qs <==> OneNode in ps && Upward(moves))
  }

  lemma {:induction false} FoldAlong(ps: Props, steps: seq<Expr>, axes: seq<Axis>)
    requires StepsAlong(steps, axes) && Self !in ps && (OneNode in ps ==> DocOrder in ps)
    ensures Tracks(ps, Moves(axes), FoldSteps(ps, steps))
    decreases |steps|
  {
    hide Tracks;
    if steps == [] {
      StartsHere(ps);
    } else {
      var n := |steps| - 1;
      var front, last := steps[..n], axes[n];
      FoldAlong(ps, front, axes[..n]);
      FoldStepsAt(ps, steps, n);
      assert steps[..n + 1] == steps;
      AlongProperties(steps[n], last);
      MoveOn(ps, FoldSteps(ps, front), Moves(axes[..n]), last);
    }
  }

  lemma StartsHere(ps: Props)
    requires Self !in ps
    ensures Tracks(ps, [], ps)
  {
  }

  // One more step, by its axis alone.
  lemma SelfFlags(ps: Props, axis: Axis)
    requires Self !in ps && (OneNode in ps ==> DocOrder in ps) && axis == SelfAxis
    ensures var qs := CombineProperties(ps, AxisProperties(axis));
            && Self !in qs && (DocOrder in qs <==> DocOrder in ps)
            && (Peer in qs <==> Peer in ps) && (OneNode in qs <==> OneNode in ps)
  {
  }

  lemma MoveFlags(ps: Props, axis: Axis)
    requires Self !in ps && axis != SelfAxis
    ensures var qs := CombineProperties(ps, AxisProperties(axis));
            && Self !in qs
            && (DocOrder in qs <==>
                  (OneNode in ps && GoesOn(axis)) || (DocOrder in ps && Peer in ps && StaysBelow(axis)))
            && (Peer in qs <==> DocOrder in ps && Peer in ps && (axis == ChildAxis || axis == AttributeAxis))
            && (OneNode in qs <==> OneNode in ps && axis == ParentAxis)
  {
    AxisFlags(axis);
    hide AxisProperties;
  }

  lemma AxisFlags(axis: Axis)
    requires axis != SelfAxis
    ensures var q := AxisProperties(axis);
            && Self !in q && (DocOrder in q <==> GoesOn(axis)) && (Subtree in q <==> StaysBelow(axis))
            && (DocOrder in q && Subtree in q && Peer in q <==> axis == ChildAxis || axis == AttributeAxis)
            && (OneNode in q <==> axis == ParentAxis)
  {
  }

  lemma MovesSnoc(moves: seq<Axis>, axis: Axis)
    ensures Downward(moves + [axis]) <==> Downward(moves) && (axis == ChildAxis || axis == AttributeAxis)
    ensures Upward(moves + [axis]) <==> Upward(moves) && axis == ParentAxis
  {
    var more := moves + [axis];
    assert axis in more && forall a :: a in moves ==> a in more;
    assert forall a :: a in more ==> a in moves || a == axis;
  }

  lemma MoveOn(ps: Props, qs: Props, moves: seq<Axis>, axis: Axis)
    requires Tracks(ps, moves, qs) && (OneNode in ps ==> DocOrder in ps)
    ensures Tracks(ps, Then(moves, axis), CombineProperties(qs, AxisProperties(axis)))
  {
    hide CombineProperties;
    var more := Then(moves, axis);
    if axis == SelfAxis {
      StayOn(ps, qs, moves);
    } else {
      MoveFlags(qs, axis);
      assert more[..|more| - 1] == moves && more[|more| - 1] == axis;
      MovesSnoc(moves, axis);
    }
  }

  lemma StayOn(ps: Props, qs: Props, moves: seq<Axis>)
    requires Tracks(ps, moves, qs) && (OneNode in ps ==> DocOrder in ps)
    ensures Tracks(ps, moves, CombineProperties(qs, AxisProperties(SelfAxis)))
  {
    if OneNode in qs {
      UpwardOrder(ps, moves);
    }
    SelfFlags(qs, SelfAxis);
  }

  lemma UpwardOrder(ps: Props, moves: seq<Axis>)
    requires OneNode in ps && DocOrder in ps && Upward(moves)
    ensures OrderAfter(ps, moves)
  {
    if moves != [] {
      var front, last := moves[..|moves| - 1], moves[|moves| - 1];
      assert moves == front + [last];
      MovesSnoc(front, last);
    }
  }

  /** For exactly these paths of steps is order inferred, and so the sort dropped. */
  lemma OrderInferred(steps: seq<Expr>, axes: seq<Axis>)
    requires StepsAlong(steps, axes)
    ensures DocOrder in Properties(Nav(steps)) <==> OrderAfter(ALL, Moves(axes))
  {
    FoldAlong(ALL, steps, axes);
  }

  predicate KeepsBelow(axes: seq<Axis>) {
    forall a :: a in axes ==> StaysBelow(a)
  }

  lemma {:induction false} FoldBelow(steps: seq<Expr>, axes: seq<Axis>)
    requires StepsAlong(steps, axes)
    ensures var qs := FoldSteps(ALL, steps);
            && Grouped in qs && SameDoc in qs && (Subtree in qs <==> KeepsBelow(Moves(axes)))
            && (Peer in qs ==> DocOrder in qs)
    decreases |steps|
  {
    hide KeepsBelow, CombineProperties, AxisProperties, Downward, OrderAfter, Upward;
    if steps == [] {
      assert KeepsBelow([]) by { NothingBelow(); }
    } else {
      var n := |steps| - 1;
      var front, last := steps[..n], axes[n];
      FoldBelow(front, axes[..n]);
      FoldAlong(ALL, front, axes[..n]);
      FoldStepsAt(ALL, steps, n);
      assert steps[..n + 1] == steps;
      AlongProperties(steps[n], last);
      BelowOn(FoldSteps(ALL, front), Moves(axes[..n]), last);
    }
  }

  lemma NothingBelow()
    ensures KeepsBelow([])
  {
  }

  lemma BelowOn(ps: Props, moves: seq<Axis>, axis: Axis)
    requires Grouped in ps && SameDoc in ps && (Subtree in ps <==> KeepsBelow(moves))
    requires (Peer in ps ==> DocOrder in ps) && (DocOrder in ps && Peer in ps ==> Downward(moves)) && Self !in ps
    ensures var qs := CombineProperties(ps, AxisProperties(axis));
            && Grouped in qs && SameDoc in qs && (Subtree in qs <==> KeepsBelow(Then(moves, axis)))
            && (Peer in qs ==> DocOrder in qs)
  {
    if axis != SelfAxis {
      AxisFlags(axis);
      assert Grouped in AxisProperties(axis) && SameDoc in AxisProperties(axis);
      hide AxisProperties;
      var more := moves + [axis];
      assert axis in more && forall a :: a in moves ==> a in more;
      assert forall a :: a in more ==> a in moves || a == axis;
      assert KeepsBelow(more) <==> KeepsBelow(moves) && StaysBelow(axis);
    }
  }

  /** All that is inferred for a path of steps, by its axes alone. */
  lemma PropertiesInferred(steps: seq<Expr>, axes: seq<Axis>)
    requires StepsAlong(steps, axes)
    ensures var moves := Moves(axes);
            Properties(Nav(steps)) ==
              {Grouped, SameDoc}
              + (if OrderAfter(ALL, moves) then {DocOrder} else {})
              + (if Downward(moves) then {Peer} else {})
              + (if KeepsBelow(moves) then {Subtree} else {})
              + (if Upward(moves) then {OneNode} else {})
  {
    FoldAlong(ALL, steps, axes);
    FoldBelow(steps, axes);
    SameFlags(FoldSteps(ALL, steps), Moves(axes));
  }

  lemma SameFlags(ps: Props, moves: seq<Axis>)
    requires Tracks(ALL, moves, ps) && Grouped in ps && SameDoc in ps && (Subtree in ps <==> KeepsBelow(moves))
    requires Peer in ps ==> DocOrder in ps
    ensures ps == {Grouped, SameDoc}
                  + (if OrderAfter(ALL, moves) then {DocOrder} else {})
                  + (if Downward(moves) then {Peer} else {})
                  + (if KeepsBelow(moves) then {Subtree} else {})
                  + (if Upward(moves) then {OneNode} else {})
  {
    hide OrderAfter, Upward, Downward, KeepsBelow;
    assert DocOrder in ALL && Peer in ALL && OneNode in ALL;
    var qs := {Grouped, SameDoc}
              + (if OrderAfter(ALL, moves) then {DocOrder} else {})
              + (if Downward(moves) then {Peer} else {})
              + (if KeepsBelow(moves) then {Subtree} else {})
              + (if Upward(moves) then {OneNode} else {});
    forall q: Property ensures q in ps <==> q in qs {
      match q {
        case DocOrder =>
        case Grouped =>
        case Peer =>
        case Subtree =>
        case SameDoc =>
        case OneNode =>
        case Self =>
      }
    }
  }

  /** And for exactly these paths that start with anything else. */
  lemma OrderAfterFirst(first: Expr, steps: seq<Expr>, axes: seq<Axis>)
    requires StepsAlong(steps, axes)
    requires OneNode in Properties(first) ==> DocOrder in Properties(first)
    ensures DocOrder in Properties(Nav([first] + steps)) <==>
              OrderAfter(CombineProperties(ALL, Properties(first)), Moves(axes))
  {
    hide CombineProperties, Upward, Downward, GoesOn, StaysBelow, Moves;
    var all, start := [first] + steps, CombineProperties(ALL, Properties(first));
    assert all[0] == first && all[1..] == steps;
    NoSelf(Properties(first));
    FoldAlong(start, steps, axes);
    assert Properties(Nav(all)) == FoldSteps(start, steps);
  }

  lemma NoSelf(ps: Props)
    requires OneNode in ps ==> DocOrder in ps
    ensures var qs := CombineProperties(ALL, ps); Self !in qs && (OneNode in qs ==> DocOrder in qs)
  {
  }

  /** A variable declared to be one item and fn:doc start a path as its context item does; after
      fn:root, order is kept only up to one move on from its ancestors; after a variable declared
      without properties never. */
  lemma StartsOfPaths(items: seq<Item>, walk: Walk, traits: Traits, steps: seq<Expr>, axes: seq<Axis>)
    requires StepsAlong(steps, axes)
    ensures DocOrder in Properties(Nav([Variable(items, DeclaredFlags(true), traits)] + steps)) <==>
              OrderAfter(ALL, Moves(axes))
    ensures DocOrder in Properties(Nav([Call(walk, DOC_FLAGS, traits)] + steps)) <==> OrderAfter(ALL, Moves(axes))
    ensures DocOrder in Properties(Nav([Call(walk, ROOT_FLAGS, traits)] + steps)) <==>
              var moves := Moves(axes);
              moves == [] || (Upward(moves[..|moves| - 1]) && GoesOn(moves[|moves| - 1]))
    ensures DocOrder !in Properties(Nav([Variable(items, DeclaredFlags(false), traits)] + steps))
  {
    hide Properties, OrderAfter, CombineProperties, Moves;
    var one, none := Variable(items, DeclaredFlags(true), traits), Variable(items, DeclaredFlags(false), traits);
    var doc, root := Call(walk, DOC_FLAGS, traits), Call(walk, ROOT_FLAGS, traits);
    StartFlags(items, walk, traits);
    StartOrders(Moves(axes));
    OrderAfterFirst(one, steps, axes);
    OrderAfterFirst(doc, steps, axes);
    OrderAfterFirst(root, steps, axes);
    OrderAfterFirst(none, steps, axes);
  }

  /** After a simple map from a variable to a step, order is inferred exactly if the variable is
      declared to be one node, and the step goes on; or peers in order, and it stays below. */
  lemma MapInferred(items: seq<Item>, flags: Props, traits: Traits, e: Expr, axis: Axis)
    requires StepAlong(e, axis) && axis != SelfAxis && Self !in flags
    ensures DocOrder in Properties(Mapped(Variable(items, flags, traits), e)) <==>
              (OneNode in flags && GoesOn(axis)) || (DocOrder in flags && Peer in flags && StaysBelow(axis))
  {
    AlongProperties(e, axis);
    MoveFlags(Inherited(flags), axis);
  }

  lemma StartFlags(items: seq<Item>, walk: Walk, traits: Traits)
    ensures Properties(Variable(items, DeclaredFlags(true), traits)) == Inherited(DeclaredFlags(true))
    ensures Properties(Variable(items, DeclaredFlags(false), traits)) == {}
    ensures Properties(Call(walk, DOC_FLAGS, traits)) == DOC_FLAGS
    ensures Properties(Call(walk, ROOT_FLAGS, traits)) == ROOT_FLAGS
    ensures DocOrder in Inherited(DeclaredFlags(true)) && DocOrder in DOC_FLAGS && DocOrder in ROOT_FLAGS
  {
  }

  lemma StartOrders(moves: seq<Axis>)
    ensures OrderAfter(CombineProperties(ALL, Inherited(DeclaredFlags(true))), moves) <==> OrderAfter(ALL, moves)
    ensures OrderAfter(CombineProperties(ALL, DOC_FLAGS), moves) <==> OrderAfter(ALL, moves)
    ensures OrderAfter(CombineProperties(ALL, ROOT_FLAGS), moves) <==>
              moves == [] || (Upward(moves[..|moves| - 1]) && GoesOn(moves[|moves| - 1]))
    ensures !OrderAfter(CombineProperties(ALL, {}), moves)
  {
    hide Upward, Downward, GoesOn, StaysBelow;
  }
}
