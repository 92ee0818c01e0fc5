/** The path nodes and results as objects that are updated in place, proved against the
    functions of the path modules. */
module PathNodes {
  import opened Options
  import opened Sequences
  import opened FastXdm
  import opened DocumentOrder
  import opened Axes
  import opened PathExpressions
  import opened PathTyping

  class XQNav {
    var steps: seq<Expr>
    var properties: Props

    constructor (steps: seq<Expr>)
      ensures this.steps == steps
    {
      this.steps, properties := steps, {};
    }

    ghost function Contents(): Expr
      reads this
    {
      Nav(steps)
    }

    /** Types the steps in turn, joins nested paths and lets constant steps clear the ones
        before, then makes the pass over adjacent steps. */
    method StaticTypingImpl()
      modifies this
      ensures Contents() == Typed(old(Contents())) && properties == Properties(old(Contents()))
    {
      ghost var all := steps;
      var props, newSteps: seq<Expr>, forced, it := ALL, [], false, 0;
      assert steps[0..] == steps;
      while it < |steps|
        invariant it <= |steps| && steps == all
        invariant FoldSteps(props, steps[it..]) == FoldSteps(ALL, all)
        invariant Gather(newSteps, steps[it..], forced) == Gather([], all, false)
      {
        var step := steps[it];
        assert steps[it..][1..] == steps[it + 1..];
        props := CombineProperties(props, Properties(step));
        if Cuts(step) && !forced {
          newSteps := [];
        }
        newSteps, forced := newSteps + Parts(Typed(step)), forced || Forced(step);
        it := it + 1;
      }
      assert steps[it..] == [];
      steps := newSteps;
      RewriteSteps();
      properties := props;
    }

    /** The pass over adjacent steps. */
    method RewriteSteps()
      modifies this`steps
      ensures steps == Rewrite(old(steps))
    {
      hide Rewrite, Absorbed, Narrowed, WithAxis;
      var newSteps, it := [], 0;
      assert steps[0..] == steps;
      while it < |steps|
        invariant it <= |steps| && steps == old(steps)
        invariant newSteps + Rewrite(steps[it..]) == Rewrite(steps)
      {
        RewriteAt(steps, it);
        if it + 1 < |steps| && Absorbed(steps[it], steps[it + 1]) {
          it := it + 1;
          newSteps := newSteps + [WithAxis(steps[it], DescendantAxis)];
        } else if it + 1 < |steps| {
          newSteps := newSteps + [Narrowed(steps[it], steps[it + 1])];
        } else {
          newSteps := newSteps + [steps[it]];
        }
        it := it + 1;
      }
      RewriteAt(steps, it);
      steps := newSteps;
    }
  }

  // The pass from one step on.
  lemma RewriteAt(steps: seq<Expr>, it: nat)
    requires it <= |steps|
    ensures it == |steps| ==> Rewrite(steps[it..]) == []
    ensures it + 1 == |steps| ==> Rewrite(steps[it..]) == [steps[it]] + Rewrite(steps[it + 1..])
    ensures it + 1 < |steps| && Absorbed(steps[it], steps[it + 1]) ==>
      Rewrite(steps[it..]) == [WithAxis(steps[it + 1], DescendantAxis)] + Rewrite(steps[it + 2..])
    ensures it + 1 < |steps| && !Absorbed(steps[it], steps[it + 1]) ==>
      Rewrite(steps[it..]) == [Narrowed(steps[it], steps[it + 1])] + Rewrite(steps[it + 1..])
  {
    hide Absorbed, Narrowed, WithAxis;
    assert it < |steps| ==> steps[it..][1..] == steps[it + 1..];
    assert it + 1 < |steps| ==> steps[it..][2..] == steps[it + 2..];
  }

  // What a step selects from an item at a position of the outer path.
  type PositionedWalk = (Item, nat) -> seq<Item>

  /** The results of a step from each item, the first of which has the given position. */
  function StepFrom(step: PositionedWalk, items: seq<Item>, position: nat): seq<Item> {
    if items == [] then [] else step(items[0], position) + StepFrom(step, items[1..], position + 1)
  }

  /** A step that does not look at the position delivers the steps of the path modules. */
  lemma {:induction false} StepFromIsFlatMap(step: PositionedWalk, f: Walk, items: seq<Item>, position: nat)
    requires forall x, k :: x in items ==> step(x, k) == f(x)
    ensures StepFrom(step, items, position) == FlatMap(f, items)
  {
    if items != [] {
      assert items[0] in items;
      StepFromIsFlatMap(step, f, items[1..], position + 1);
    }
  }

  lemma {:induction false} StepFromConcat(step: PositionedWalk, a: seq<Item>, b: seq<Item>, position: nat)
    ensures StepFrom(step, a + b, position) == StepFrom(step, a, position) + StepFrom(step, b, position + |a|)
  {
    if a == [] {
      assert a + b == b;
    } else {
      assert (a + b)[1..] == a[1..] + b;
      StepFromConcat(step, a[1..], b, position + 1);
    }
  }

  /** The item at index k of the parent is stepped from at position k + 1. */
  lemma StepFromAt(step: PositionedWalk, items: seq<Item>, k: nat)
    requires k < |items|
    ensures StepFrom(step, items, 1)
         == StepFrom(step, items[..k], 1) + step(items[k], k + 1) + StepFrom(step, items[k + 1..], k + 2)
  {
    hide StepFrom;
    var before, rest, after := items[..k], items[k..], items[k + 1..];
    SplitAt(items, k);
    StepFromConcat(step, before, rest, 1);
    StepFromFirst(step, rest, k + 1);
    Associate(StepFrom(step, before, 1), step(items[k], k + 1), StepFrom(step, after, k + 2));
  }

  lemma SplitAt(items: seq<Item>, k: nat)
    requires k < |items|
    ensures items == items[..k] + items[k..] && items[k..][0] == items[k] && items[k..][1..] == items[k + 1..]
  {
  }

  lemma Associate(a: seq<Item>, b: seq<Item>, c: seq<Item>)
    ensures a + (b + c) == a + b + c
  {
  }

  lemma StepFromFirst(step: PositionedWalk, items: seq<Item>, position: nat)
    requires items != []
    ensures StepFrom(step, items, position) == step(items[0], position) + StepFrom(step, items[1..], position + 1)
  {
  }

  /** The results of a step from each item of a parent stream, with the position of the item. */
  class NavStepResult {
    const step: PositionedWalk
    var parent: seq<Item>
    var stepResult: seq<Item>
    var contextPos: nat

    constructor (parent: seq<Item>, step: PositionedWalk)
      ensures Remaining() == StepFrom(step, parent, 1)
    {
      this.step, this.parent, stepResult, contextPos := step, parent, [], 0;
    }

    // What is still to come.
    ghost function Remaining(): seq<Item>
      reads this
    {
      stepResult + StepFrom(step, parent, contextPos + 1)
    }

    method Next() returns (result: Option<Item>)
      modifies this
      ensures result == None ==> old(Remaining()) == [] && Remaining() == []
      ensures result != None ==> old(Remaining()) == [result.value] + Remaining()
    {
      while stepResult == []
        invariant Remaining() == old(Remaining())
        decreases |parent|
      {
        if parent == [] {
          return None;
        }
        var item := parent[0];
        parent, contextPos := parent[1..], contextPos + 1;
        stepResult := step(item, contextPos);
      }
      result := Some(stepResult[0]);
      stepResult := stepResult[1..];
    }
  }

  // The items that have not occurred before, in the order in which they come.
  function Fresh(s: seq<Item>, seen: set<Item>): (r: seq<Item>)
    ensures forall x :: x in r <==> x in s && x !in seen
    ensures forall i, j :: 0 <= i < j < |r| ==> r[i] != r[j]
  {
    if s == [] then []
    else if s[0] in seen then Fresh(s[1..], seen)
    else [s[0]] + Fresh(s[1..], seen + {s[0]})
  }

  /** The parent's items without the repeated ones. */
  class UniqueNodesResult {
    var parent: seq<Item>
    var noDups: set<Item>

    constructor (parent: seq<Item>)
      ensures Remaining() == Fresh(parent, {})
    {
      this.parent, noDups := parent, {};
    }

    ghost function Remaining(): seq<Item>
      reads this
    {
      Fresh(parent, noDups)
    }

    method Next() returns (result: Option<Item>)
      modifies this
      ensures result == None ==> old(Remaining()) == [] && Remaining() == []
      ensures result != None ==> old(Remaining()) == [result.value] + Remaining()
    {
      while parent != []
        invariant Remaining() == old(Remaining())
        decreases |parent|
      {
        var item := parent[0];
        parent := parent[1..];
        if item !in noDups {
          noDups := noDups + {item};
          return Some(item);
        }
      }
      return None;
    }
  }

  /** Results in document order lose nothing by the removal of repeated items. */
  lemma {:induction false} FreshIsIdentity(s: seq<Item>, seen: set<Item>)
    requires Increasing(s) && forall x :: x in s ==> x !in seen
    ensures Fresh(s, seen) == s
  {
    if s != [] {
      forall x | x in s[1..] ensures x !in seen + {s[0]} {
        OtherItem(s, x);
      }
      FreshIsIdentity(s[1..], seen + {s[0]});
    }
  }

  /** In unordered mode too, a path in which document order is inferred needs no removal of
      repeated items, and the result has the same items as the sorted one. */
  lemma UnorderedMeans(w: World, e: Expr, x: Item)
    ensures SameItems(Fresh(Eval(w, e, x), {}), Eval(w, Sorted(e), x))
    ensures In(w, x) && Within(w, e) && Carries(w, e) && DocOrder in Properties(e) ==>
              Fresh(Eval(w, e, x), {}) == Eval(w, e, x)
  {
    hide Eval, Ordered, Carries;
    OrderedMeans(Eval(w, e, x));
    SortedEval(w, e, x);
    if In(w, x) && Within(w, e) && Carries(w, e) && DocOrder in Properties(e) {
      SortIsNotNeeded(w, e, x);
      FreshIsIdentity(Eval(w, e, x), {});
    }
  }

  lemma SortedEval(w: World, e: Expr, x: Item)
    ensures Eval(w, Sorted(e), x) == Ordered(Eval(w, e, x))
  {
  }
}
