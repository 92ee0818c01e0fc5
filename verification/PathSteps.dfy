/** What static typing makes of the steps of a path. */
module PathSteps {
  // Said by index and by the parts of expressions: which steps are cut off, which are absorbed,
  // which are narrowed, and when the sort is dropped.

  import opened Options
  import opened Sequences
  import opened Places
  import opened FastXdm
  import opened FastXdmNavigation
  import opened DocumentOrder
  import opened Axes
  import opened PathExpressions
  import opened PathTyping
  import opened PathMeaning

  // ----- the pass over adjacent steps

  // A step down, under predicates that do not use the position or the size.
  predicate Descends(e: Expr) {
    match e
    case Step(axis, _) => axis == ChildAxis || axis == DescendantAxis
    case Filtered(inner, keep) => keep.ByItem? && Descends(inner)
    case _ => false
  }

  // The step at k, descendant-or-self::node(), goes into the one after it.
  predicate Goes(steps: seq<Expr>, k: nat) {
    && k + 1 < |steps|
    && steps[k].Step? && steps[k].axis == DescendantOrSelfAxis && steps[k].test.AnyNode?
    && Descends(steps[k + 1])
  }

  // The same predicates on the same test along another axis.
  ghost predicate MovedTo(axis: Axis, e: Expr, r: Expr) {
    match e
    case Step(_, test) => r == Step(axis, test)
    case Filtered(inner, keep) => r.Filtered? && r.keep == keep && MovedTo(axis, inner, r.inner)
    case _ => false
  }

  // What the step e becomes in front of next, if it does not go into it: a wildcard takes nodes
  // with children, or elements, where the next step, with or without predicates, needs those.
  ghost predicate NarrowedTo(e: Expr, next: Expr, r: Expr) {
    if e.Step? && e.test.AnyNode? && (StepAlong(next, ChildAxis) || StepAlong(next, DescendantAxis)) then
      r == Step(e.axis, AnyNode(true))
    else if e.Step? && e.test.AnyNode? && StepAlong(next, AttributeAxis) then
      && r.Step? && r.axis == e.axis && r.test.OnlyKind? && r.test.kind == ElementKind
      && forall y :: r.test.name(y)
    else
      r == e
  }

  // What is left of the step at k.
  ghost predicate LeftOf(steps: seq<Expr>, k: nat, r: Expr)
    requires k < |steps|
  {
    if k > 0 && Goes(steps, k - 1) then MovedTo(DescendantAxis, steps[k], r)
    else if k + 1 < |steps| then NarrowedTo(steps[k], steps[k + 1], r)
    else r == steps[k]
  }

  lemma {:induction false} DescendsIs(e: Expr)
    ensures Descends(e) <==> Inner(e).Step? && IsDown(Inner(e).axis) && !Positional(e)
  {
    if e.Filtered? {
      DescendsIs(e.inner);
    }
  }

  lemma {:induction false} InnerAlong(e: Expr, axis: Axis)
    ensures StepAlong(e, axis) <==> Inner(e).Step? && Inner(e).axis == axis
  {
    if e.Filtered? {
      InnerAlong(e.inner, axis);
    }
  }

  lemma {:induction false} WithAxisMoves(e: Expr, axis: Axis)
    requires Inner(e).Step?
    ensures MovedTo(axis, e, WithAxis(e, axis))
  {
    if e.Filtered? {
      WithAxisMoves(e.inner, axis);
    }
  }

  lemma NarrowedIs(e: Expr, next: Expr)
    ensures NarrowedTo(e, next, Narrowed(e, next))
  {
    InnerAlong(next, ChildAxis);
    InnerAlong(next, DescendantAxis);
    InnerAlong(next, AttributeAxis);
  }

  lemma GoesIs(steps: seq<Expr>, k: nat)
    requires k + 1 < |steps|
    ensures Goes(steps, k) <==> Absorbed(steps[k], steps[k + 1])
  {
    DescendsIs(steps[k + 1]);
  }

  lemma GoesInRest(steps: seq<Expr>, m: nat, k: nat)
    requires m <= |steps|
    ensures Goes(steps[m..], k) <==> Goes(steps, m + k)
  {
  }

  // Steps that do not go are not shifted by what comes before them, if nothing goes into the first.
  lemma LeftInRest(steps: seq<Expr>, m: nat, k: nat, r: Expr)
    requires m + k < |steps| && (k == 0 && m > 0 ==> !Goes(steps, m - 1))
    ensures LeftOf(steps[m..], k, r) <==> LeftOf(steps, m + k, r)
  {
    hide NarrowedTo, MovedTo;
    if k > 0 {
      GoesInRest(steps, m, k - 1);
    }
  }

  lemma GoesOnce(steps: seq<Expr>, k: nat)
    ensures Goes(steps, k) ==> !Goes(steps, k + 1)
  {
  }

  ghost predicate Keeps(steps: seq<Expr>, ks: seq<nat>, r: seq<Expr>) {
    && Rises(ks) && |r| == |ks| && (forall k: nat :: k in ks <==> k < |steps| && !Goes(steps, k))
    && forall i :: 0 <= i < |ks| ==> ks[i] < |steps| && LeftOf(steps, ks[i], r[i])
  }

  /** The pass leaves, in order, exactly the steps that do not go into the next; a step that
      another goes into moves to the descendant axis, and the others are narrowed by the next. */
  lemma {:induction false} RewriteByPlace(steps: seq<Expr>) returns (ks: seq<nat>)
    ensures Keeps(steps, ks, Rewrite(steps))
    decreases |steps|
  {
    hide Keeps, NarrowedTo, MovedTo, Absorbed, Narrowed, WithAxis, Goes;
    if |steps| < 2 {
      ks := if steps == [] then [] else [0];
      assert Keeps(steps, ks, steps) by { FewKept(steps, ks); }
    } else {
      GoesIs(steps, 0);
      var m := if Goes(steps, 0) then 2 else 1;
      var rest := RewriteByPlace(steps[m..]);
      var first := if m == 2 then WithAxis(steps[1], DescendantAxis) else Narrowed(steps[0], steps[1]);
      ks := KeptWithRest(steps, m, rest, Rewrite(steps[m..]), first);
    }
  }

  lemma FewKept(steps: seq<Expr>, ks: seq<nat>)
    requires |steps| < 2 && ks == if steps == [] then [] else [0]
    ensures Keeps(steps, ks, steps)
  {
  }

  lemma FirstLeft(steps: seq<Expr>, m: nat)
    requires |steps| >= 2 && m == if Goes(steps, 0) then 2 else 1
    ensures var first := if m == 2 then WithAxis(steps[1], DescendantAxis) else Narrowed(steps[0], steps[1]);
            LeftOf(steps, m - 1, first)
  {
    if m == 2 {
      DescendsIs(steps[1]);
      WithAxisMoves(steps[1], DescendantAxis);
    } else {
      NarrowedIs(steps[0], steps[1]);
    }
  }

  lemma KeptWithRest(steps: seq<Expr>, m: nat, rest: seq<nat>, r: seq<Expr>, first: Expr) returns (ks: seq<nat>)
    requires |steps| >= 2 && m == (if Goes(steps, 0) then 2 else 1) && Keeps(steps[m..], rest, r)
    requires first == if m == 2 then WithAxis(steps[1], DescendantAxis) else Narrowed(steps[0], steps[1])
    ensures Keeps(steps, ks, [first] + r)
  {
    hide NarrowedTo, MovedTo, WithAxis, Narrowed, Goes, LeftOf;
    FirstLeft(steps, m);
    ks := [m - 1] + Later(rest, m);
    forall k: nat ensures k in ks <==> k < |steps| && !Goes(steps, k) {
      KeptAt(steps, m, rest, k);
    }
    forall i, j | 0 <= i < j < |ks| ensures ks[i] < ks[j] {
      assert i > 0 ==> rest[i - 1] < rest[j - 1];
    }
    GoesOnce(steps, 0);
    forall i | 0 <= i < |ks| ensures ks[i] < |steps| && LeftOf(steps, ks[i], ([first] + r)[i]) {
      if i > 0 {
        LeftInRest(steps, m, rest[i - 1], r[i - 1]);
      }
    }
  }

  function Later(ks: seq<nat>, m: nat): (r: seq<nat>)
    ensures |r| == |ks| && forall i :: 0 <= i < |ks| ==> r[i] == ks[i] + m
  {
    seq(|ks|, i requires 0 <= i < |ks| => ks[i] + m)
  }

  lemma KeptAt(steps: seq<Expr>, m: nat, rest: seq<nat>, k: nat)
    requires |steps| >= 2 && m == if Goes(steps, 0) then 2 else 1
    requires forall j: nat :: j in rest <==> j < |steps| - m && !Goes(steps[m..], j)
    ensures k in [m - 1] + Later(rest, m) <==> k < |steps| && !Goes(steps, k)
  {
    hide Goes;
    var ks := Later(rest, m);
    GoesOnce(steps, 0);
    if k >= m {
      GoesInRest(steps, m, k - m);
      if k - m in rest {
        var i :| 0 <= i < |rest| && rest[i] == k - m;
        assert ks[i] == k;
      }
    }
  }

  // ----- which steps are cut off

  // The parts of an expression that are neither paths nor sorts, maps nor predicates.
  function Leaves(e: Expr): seq<Expr>
    decreases e, 0
  {
    match e
    case Filtered(inner, _) => Leaves(inner)
    case Nav(steps) => LeavesOf(steps)
    case Sorted(inner) => Leaves(inner)
    case Mapped(first, each) => Leaves(first) + Leaves(each)
    case _ => [e]
  }

  function LeavesOf(steps: seq<Expr>): seq<Expr>
    decreases steps, 1
  {
    if steps == [] then [] else Leaves(steps[0]) + LeavesOf(steps[1..])
  }

  // No path without steps.
  predicate NoEmptyPath(e: Expr) {
    match e
    case Filtered(inner, _) => NoEmptyPath(inner)
    case Nav(steps) => steps != [] && forall k :: 0 <= k < |steps| ==> NoEmptyPath(steps[k])
    case Sorted(inner) => NoEmptyPath(inner)
    case Mapped(first, each) => NoEmptyPath(first) && NoEmptyPath(each)
    case _ => true
  }

  predicate Reads(leaf: Expr) {
    leaf.Step? || leaf.Call?
  }

  predicate HasAtoms(leaf: Expr) {
    !leaf.Step? && LeafTraits(leaf).nodes == false
  }

  function LeafTraits(leaf: Expr): Traits {
    match leaf
    case Call(_, _, traits) => traits
    case Constant(_, _, traits) => traits
    case Variable(_, _, traits) => traits
    case _ => PLAIN
  }

  // Whether a step clears those before it: it starts with a constant or a variable, ends with
  // something that has nodes only, and nothing in it creates nodes.
  ghost predicate Clears(e: Expr) {
    var leaves := Leaves(e);
    && leaves != []
    && !Reads(leaves[0]) && !HasAtoms(leaves[|leaves| - 1])
    && forall leaf :: leaf in leaves ==> !LeafTraits(leaf).creates
  }

  ghost predicate Forbids(e: Expr) {
    exists leaf :: leaf in Leaves(e) && LeafTraits(leaf).forced
  }

  ghost predicate LeavesTell(leaves: seq<Expr>, uses: bool, nodes: bool, creates: bool, forced: bool) {
    && leaves != []
    && uses == Reads(leaves[0]) && nodes == !HasAtoms(leaves[|leaves| - 1])
    && creates == (exists leaf :: leaf in leaves && LeafTraits(leaf).creates)
    && forced == (exists leaf :: leaf in leaves && LeafTraits(leaf).forced)
  }

  lemma TellConcat(a: seq<Expr>, b: seq<Expr>, ua: bool, na: bool, ca: bool, fa: bool, ub: bool, nb: bool, cb: bool,
                   fb: bool)
    requires LeavesTell(a, ua, na, ca, fa) && LeavesTell(b, ub, nb, cb, fb)
    ensures LeavesTell(a + b, ua, nb, ca || cb, fa || fb)
  {
    hide Reads, HasAtoms, LeafTraits;
    assert (a + b)[|a + b| - 1] == b[|b| - 1];
    assert forall leaf :: leaf in a + b <==> leaf in a || leaf in b;
  }

  lemma {:induction false} LeavesAre(e: Expr)
    requires NoEmptyPath(e)
    ensures LeavesTell(Leaves(e), UsesContext(e), OnlyNodes(e), Creates(e), Forced(e))
    decreases e, 0
  {
    hide LeavesTell;
    match e {
      case Filtered(inner, _) => LeavesAre(inner);
      case Nav(steps) => StepLeavesAre(steps);
      case Sorted(inner) => LeavesAre(inner);
      case Mapped(first, each) =>
        LeavesAre(first);
        LeavesAre(each);
        TellConcat(Leaves(first), Leaves(each), UsesContext(first), OnlyNodes(first), Creates(first), Forced(first),
                   UsesContext(each), OnlyNodes(each), Creates(each), Forced(each));
      case Step(_, _) => LeafTells(e);
      case Call(_, _, _) => LeafTells(e);
      case Constant(_, _, _) => LeafTells(e);
      case Variable(_, _, _) => LeafTells(e);
    }
  }

  lemma LeafTells(e: Expr)
    requires e.Step? || e.Call? || e.Constant? || e.Variable?
    ensures LeavesTell([e], UsesContext(e), OnlyNodes(e), Creates(e), Forced(e))
  {
    assert forall leaf :: leaf in [e] <==> leaf == e;
  }

  lemma {:induction false} StepLeavesAre(steps: seq<Expr>)
    requires steps != [] && forall k :: 0 <= k < |steps| ==> NoEmptyPath(steps[k])
    ensures LeavesTell(LeavesOf(steps), UsesContext(steps[0]), OnlyNodes(steps[|steps| - 1]), Creates(Nav(steps)),
                       AnyForced(steps))
    decreases steps, 1
  {
    hide LeavesTell;
    var e, rest := steps[0], steps[1..];
    LeavesAre(e);
    FirstOrRest(steps);
    if rest == [] {
      assert LeavesOf(rest) == [] && Leaves(e) + [] == Leaves(e);
    } else {
      StepLeavesAre(rest);
      TellConcat(Leaves(e), LeavesOf(rest), UsesContext(e), OnlyNodes(e), Creates(e), Forced(e),
                 UsesContext(rest[0]), OnlyNodes(rest[|rest| - 1]), Creates(Nav(rest)), AnyForced(rest));
    }
  }

  lemma FirstOrRest(steps: seq<Expr>)
    requires steps != []
    ensures Creates(Nav(steps)) <==> Creates(steps[0]) || Creates(Nav(steps[1..]))
    ensures AnyForced(steps) <==> Forced(steps[0]) || AnyForced(steps[1..])
    ensures |steps| == 1 ==> !Creates(Nav(steps[1..])) && !AnyForced(steps[1..])
  {
    var rest := steps[1..];
    assert forall k :: 0 <= k < |rest| ==> rest[k] == steps[k + 1];
    if Creates(Nav(steps)) {
      var k :| 0 <= k < |steps| && Creates(steps[k]);
      assert k > 0 ==> rest[k - 1] == steps[k];
    }
    if AnyForced(steps) {
      var k :| 0 <= k < |steps| && Forced(steps[k]);
      assert k > 0 ==> rest[k - 1] == steps[k];
    }
  }

  /** A step clears the ones before it, and one forbids that, exactly by what their leaves are. */
  lemma CutsByLeaves(e: Expr)
    requires NoEmptyPath(e)
    ensures Cuts(e) <==> Clears(e)
    ensures Forced(e) <==> Forbids(e)
  {
    LeavesAre(e);
  }

  // The step at k clears the ones before it.
  ghost predicate ClearsAt(steps: seq<Expr>, k: nat)
    requires k < |steps|
  {
    Clears(steps[k]) && forall j :: 0 <= j < k ==> !Forbids(steps[j])
  }

  lemma ClearsAtIs(steps: seq<Expr>, k: nat)
    requires k < |steps| && forall j :: 0 <= j < |steps| ==> NoEmptyPath(steps[j])
    ensures ClearsAt(steps, k) <==> CutsAt(steps, k)
  {
    hide Clears, Forbids, Cuts;
    CutsByLeaves(steps[k]);
    forall j | 0 <= j < k ensures Forced(steps[j]) <==> Forbids(steps[j]) {
      CutsByLeaves(steps[j]);
    }
    assert forall j :: 0 <= j < k ==> steps[..k][j] == steps[j];
  }

  // ----- the typed path

  // The steps, with the steps of paths among them in their place.
  function Joined(steps: seq<Expr>): seq<Expr> {
    if steps == [] then [] else (if steps[0].Nav? then steps[0].steps else [steps[0]]) + Joined(steps[1..])
  }

  function TypedAll(steps: seq<Expr>): (r: seq<Expr>)
    ensures |r| == |steps| && forall k :: 0 <= k < |steps| ==> r[k] == Typed(steps[k])
  {
    seq(|steps|, k requires 0 <= k < |steps| => Typed(steps[k]))
  }

  lemma {:induction false} GatherJoins(done: seq<Expr>, steps: seq<Expr>, forced: bool)
    requires steps != [] ==> done == [] || forced || !Cuts(steps[0])
    requires NoCuts(steps, forced)
    ensures Gather(done, steps, forced) == done + Joined(TypedAll(steps))
    decreases |steps|
  {
    hide Typed, Cuts, Forced, NoCuts, Gather, Joined, TypedAll, Parts;
    if steps == [] {
      NothingJoined(done, forced);
    } else {
      var parts, rest, more := Parts(Typed(steps[0])), steps[1..], forced || Forced(steps[0]);
      NoCutsTail(steps, forced);
      GatherJoins(done + parts, rest, more);
      JoinedNext(done, steps, forced);
      assert done + parts + Joined(TypedAll(rest)) == done + (parts + Joined(TypedAll(rest)));
    }
  }

  lemma NothingJoined(done: seq<Expr>, forced: bool)
    ensures Gather(done, [], forced) == done + Joined(TypedAll([]))
  {
  }

  lemma JoinedNext(done: seq<Expr>, steps: seq<Expr>, forced: bool)
    requires steps != [] && (done == [] || forced || !Cuts(steps[0]))
    ensures Joined(TypedAll(steps)) == Parts(Typed(steps[0])) + Joined(TypedAll(steps[1..]))
    ensures Gather(done, steps, forced) ==
              Gather(done + Parts(Typed(steps[0])), steps[1..], forced || Forced(steps[0]))
  {
    hide Typed, Cuts, Forced;
    assert TypedAll(steps)[1..] == TypedAll(steps[1..]);
    assert Left(done, steps[0], forced) == done;
  }

  // Nothing clears what is before the steps from k on, but for the one at k.
  ghost predicate CutTo(steps: seq<Expr>, k: nat) {
    && k < |steps|
    && (k > 0 ==> ClearsAt(steps, k))
    && forall j :: k < j < |steps| ==> !ClearsAt(steps, j)
  }

  /** Typing a path leaves the typed steps from the last one on that clears those before it,
      joined, and then the pass over adjacent steps. */
  lemma PathKeeps(steps: seq<Expr>) returns (k: nat)
    requires steps != [] && forall j :: 0 <= j < |steps| ==> NoEmptyPath(steps[j])
    ensures CutTo(steps, k)
    ensures Typed(Nav(steps)) == Nav(Rewrite(Joined(TypedAll(steps[k..]))))
  {
    hide ClearsAt, Cuts, CutsAt, Joined, TypedAll, NoCuts;
    k := LastConstant(steps);
    forall j: nat | j < |steps| ensures ClearsAt(steps, j) <==> CutsAt(steps, j) {
      ClearsAtIs(steps, j);
    }
    GatherFromLast(steps);
    NoneAfterLast(steps);
    GatherJoins([], steps[k..], false);
    assert [] + Joined(TypedAll(steps[k..])) == Joined(TypedAll(steps[k..]));
  }

  predicate NoPaths(steps: seq<Expr>) {
    forall k :: 0 <= k < |steps| ==> !steps[k].Nav?
  }

  /** No step of a typed path is a path. */
  lemma {:induction false} TypedIsFlat(e: Expr)
    ensures Typed(e).Nav? ==> NoPaths(Typed(e).steps)
    decreases e, 0
  {
    hide Rewrite, Gather, NoPaths;
    match e {
      case Nav(steps) =>
        NoneOfThem();
        GatherIsFlat([], steps, false);
        RewriteIsFlat(Gather([], steps, false));
      case Sorted(inner) => TypedIsFlat(inner);
      case Filtered(_, _) =>
      case Mapped(_, _) =>
      case Step(_, _) =>
      case Call(_, _, _) =>
      case Constant(_, _, _) =>
      case Variable(_, _, _) =>
    }
  }

  lemma NoneOfThem()
    ensures NoPaths([])
  {
  }

  lemma {:induction false} GatherIsFlat(done: seq<Expr>, steps: seq<Expr>, forced: bool)
    requires NoPaths(done)
    ensures NoPaths(Gather(done, steps, forced))
    decreases steps, 1
  {
    hide Typed, Cuts, Forced, Rewrite;
    if steps != [] {
      TypedIsFlat(steps[0]);
      GatherIsFlat(Left(done, steps[0], forced) + Parts(Typed(steps[0])), steps[1..], forced || Forced(steps[0]));
    }
  }

  lemma {:induction false} RewriteIsFlat(steps: seq<Expr>)
    requires NoPaths(steps)
    ensures NoPaths(Rewrite(steps))
    decreases |steps|
  {
    hide Absorbed;
    if |steps| >= 2 {
      var m := if Absorbed(steps[0], steps[1]) then 2 else 1;
      RewriteIsFlat(steps[m..]);
      assert !WithAxis(steps[1], DescendantAxis).Nav? && !Narrowed(steps[0], steps[1]).Nav?;
    }
  }

  /** A path of steps loses its sort exactly where order is inferred. */
  lemma SortGoes(steps: seq<Expr>, axes: seq<Axis>)
    requires StepsAlong(steps, axes)
    ensures Typed(Sorted(Nav(steps))) ==
              if OrderAfter(ALL, Moves(axes)) then Typed(Nav(steps)) else Sorted(Typed(Nav(steps)))
  {
    hide OrderAfter, Gather, Rewrite;
    OrderInferred(steps, axes);
  }
}
