/** The tuple nodes as the parser links them. */
module TupleNodes {
  // Objects with a parent pointer that static typing rewrites in place.  Every method is proved
  // against the functions of module PushBack.

  import opened Options
  import opened Flwor
  import opened PushBack

  class TupleNode {
    const clause: Option<Clause>   // None for the context tuple
    var parent: TupleNode?

    constructor (clause: Option<Clause>, parent: TupleNode?)
      ensures this.clause == clause && this.parent == parent
    {
      this.clause := clause;
      this.parent := parent;
    }

    /** Static typing of this node.  The clauses c over above are what the parent pointers
        spell out, and nodes are the objects they may pass through; the result heads a chain
        that spells out Type(c, above, ctx) over the same objects and fresh ones. */
    method StaticTypingImpl(ctx: bool, ghost c: Clause, ghost above: Chain, ghost nodes: set<TupleNode>)
      returns (r: TupleNode, ghost out: set<TupleNode>)
      requires Links(this, Node(c, above), nodes)
      modifies nodes
      ensures Links(r, Type(c, above, ctx), out) && fresh(out - nodes)
      decreases Steps(c, above, ctx), 1
    {
      if ctx && clause.value.Where? && clause.value.cond.And? {
        r, out := SplitAnd(clause.value.cond.args, above, nodes);
        return;
      }
      var pushable := CanPushBack(c, above, nodes);
      if !pushable {
        return this, nodes;
      }
      // Swap the parent and this node, typing both again
      var tmp := parent;
      ghost var tmpClause, grand := above.clause, above.parent;
      ghost var rest := nodes - {tmp};
      assert rest - {this} == nodes - {this} - {tmp};
      parent := tmp.parent;
      var pushed, pushedNodes := StaticTypingImpl(ctx, c, grand, rest);
      tmp.parent := pushed;
      ghost var pushedChain := Type(c, grand, ctx);
      assert tmp !in pushedNodes;
      assert pushedNodes + {tmp} - {tmp} == pushedNodes;
      r, out := tmp.StaticTypingImpl(ctx, tmpClause, pushedChain, pushedNodes + {tmp});
    }

    // The push-back test of each kind of node.
    method CanPushBack(ghost c: Clause, ghost above: Chain, ghost nodes: set<TupleNode>) returns (b: bool)
      requires Links(this, Node(c, above), nodes)
      ensures b == Pushable(c, above)
    {
      match clause.value {
        case For(_, _, _) => b := false;
        case Let(_, e) =>
          b := !e.creative;
          if b {
            b := CanPushLetBack(parent, e.uses, above, nodes - {this});
          }
        case Where(cond) => b := CanPushWhereBack(parent, ConditionUses(cond), above, nodes - {this});
        case OrderBy(spec) => b := CanPushOrderByBack(parent, spec.uses, above, nodes - {this});
        case Count(_) => b := CanPushCountBack(parent, above, nodes - {this});
      }
    }

    // A where node whose condition is And becomes one where node per operand.
    method SplitAnd(args: seq<Condition>, ghost above: Chain, ghost nodes: set<TupleNode>)
      returns (result: TupleNode, ghost out: set<TupleNode>)
      requires Links(this, Node(Where(And(args)), above), nodes)
      modifies nodes
      ensures Links(result, TypeAll(args, above, true), out) && fresh(out - nodes)
      decreases StepsAll(args, above, true) + 1, 0
    {
      result, out := parent, nodes - {this};
      ghost var done := above;
      var index := 0;
      assert args[0..] == args;
      while index < |args|
        invariant index <= |args|
        invariant Links(result, done, out) && fresh(out - nodes)
        invariant TypeAll(args[index..], done, true) == TypeAll(args, above, true)
        invariant StepsAll(args[index..], done, true) <= StepsAll(args, above, true)
      {
        ghost var left := args[index..];
        assert left[1..] == args[index + 1..];
        var node := new TupleNode(Some(Where(args[index])), result);
        assert out + {node} - {node} == out;
        ghost var typed := Type(Where(args[index]), done, true);
        result, out := node.StaticTypingImpl(true, Where(args[index]), done, out + {node});
        done := typed;
        index := index + 1;
      }
    }
  }

  /** The parent pointers from n spell out ch, through distinct objects of nodes. */
  ghost predicate Links(n: TupleNode, ch: Chain, nodes: set<TupleNode>)
    reads nodes
    decreases ch
  {
    n in nodes &&
    match ch
    case Root => n.clause == None
    case Node(c, p) => n.clause == Some(c) && n.parent != null && Links(n.parent, p, nodes - {n})
  }

  method CanPushLetBack(ancestor: TupleNode, uses: set<Name>, ghost ch: Chain, ghost nodes: set<TupleNode>)
    returns (b: bool)
    requires Links(ancestor, ch, nodes)
    ensures b == CanPushLet(ch, uses)
    decreases ch
  {
    match ancestor.clause {
      case None => b := false;
      case Some(For(n, pos, _)) => b := n !in uses && PosNames(pos) !! uses;
      case Some(Let(n, _)) =>
        b := n !in uses;
        if b {
          b := CanPushLetBack(ancestor.parent, uses, ch.parent, nodes - {ancestor});
        }
      case Some(Count(n)) =>
        b := n !in uses;
        if b {
          b := CanPushLetBack(ancestor.parent, uses, ch.parent, nodes - {ancestor});
        }
      case Some(_) => b := CanPushLetBack(ancestor.parent, uses, ch.parent, nodes - {ancestor});
    }
  }

  method CanPushWhereBack(ancestor: TupleNode, uses: set<Name>, ghost ch: Chain, ghost nodes: set<TupleNode>)
    returns (b: bool)
    requires Links(ancestor, ch, nodes)
    ensures b == CanPushWhere(ch, uses)
    decreases ch
  {
    match ancestor.clause {
      case None => b := false;
      case Some(For(n, pos, _)) => b := n !in uses && PosNames(pos) !! uses;
      case Some(Let(n, _)) => b := n !in uses;
      case Some(Where(_)) => b := CanPushWhereBack(ancestor.parent, uses, ch.parent, nodes - {ancestor});
      case Some(Count(_)) => b := false;
      case Some(OrderBy(_)) => b := true;
    }
  }

  method CanPushOrderByBack(ancestor: TupleNode, uses: set<Name>, ghost ch: Chain, ghost nodes: set<TupleNode>)
    returns (b: bool)
    requires Links(ancestor, ch, nodes)
    ensures b == CanPushOrderBy(ch, uses)
    decreases ch
  {
    match ancestor.clause {
      case None => b := false;
      case Some(For(n, pos, _)) => b := n !in uses && PosNames(pos) !! uses;
      case Some(Let(n, _)) => b := n !in uses;
      case Some(Where(_)) => b := CanPushOrderByBack(ancestor.parent, uses, ch.parent, nodes - {ancestor});
      case Some(_) => b := false;
    }
  }

  method CanPushCountBack(ancestor: TupleNode, ghost ch: Chain, ghost nodes: set<TupleNode>)
    returns (b: bool)
    requires Links(ancestor, ch, nodes)
    ensures b == CanPushCount(ch)
    decreases ch
  {
    match ancestor.clause {
      case Some(Count(_)) => b := CanPushCountBack(ancestor.parent, ch.parent, nodes - {ancestor});
      case Some(Let(_, _)) => b := true;
      case _ => b := false;
    }
  }

  /** The static typer's walk: types the parent, relinks the node, then types the node. */
  method OptimizeTupleNode(item: TupleNode, ctx: bool, ghost ch: Chain, ghost nodes: set<TupleNode>)
    returns (r: TupleNode, ghost out: set<TupleNode>)
    requires Links(item, ch, nodes)
    modifies nodes
    ensures Links(r, Optimize(ch, ctx), out) && fresh(out - nodes)
    decreases ch
  {
    if item.clause == None {
      return item, nodes;
    }
    var p, above := OptimizeTupleNode(item.parent, ctx, ch.parent, nodes - {item});
    item.parent := p;
    assert above + {item} - {item} == above;
    r, out := item.StaticTypingImpl(ctx, ch.clause, Optimize(ch.parent, ctx), above + {item});
  }
}
