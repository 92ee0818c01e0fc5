/** Pull iterators over a chain. */
module TupleIterators {
  // One object per tuple node computes its next tuple from the object of its parent.  The stream
  // they deliver is the denotation of the chain.

  import opened Options
  import opened Sequences
  import opened StableSort
  import opened Flwor
  import opened PushBack
  import opened FlworMeaning

  // What the order-by iterator keeps of a tuple: its sort item and its bindings.
  datatype OrderPair = OrderPair(sortItem: Key, tuple: Env)

  function PairPrecedes(spec: OrderSpec): (OrderPair, OrderPair) -> bool {
    (a: OrderPair, b: OrderPair) =>
      if spec.descending then GreaterThan(spec, a.sortItem, b.sortItem)
      else GreaterThan(spec, b.sortItem, a.sortItem)
  }

  function Tuples(pairs: seq<OrderPair>): (r: seq<Env>)
    ensures |r| == |pairs|
    ensures forall i :: 0 <= i < |r| ==> r[i] == pairs[i].tuple
  {
    if pairs == [] then [] else [pairs[0].tuple] + Tuples(pairs[1..])
  }

  function Pair(spec: OrderSpec, env: Env): OrderPair {
    OrderPair(spec.key(env), env)
  }

  lemma {:induction false} SortPairs(spec: OrderSpec, pairs: seq<OrderPair>)
    requires forall p :: p in pairs ==> p == Pair(spec, p.tuple)
    ensures Tuples(Sort(PairPrecedes(spec), pairs)) == Sort(Precedes(spec), Tuples(pairs))
  {
    if pairs != [] {
      SortPairs(spec, pairs[1..]);
      SortMembers(PairPrecedes(spec), pairs[1..]);
      InsertPair(spec, pairs[0], Sort(PairPrecedes(spec), pairs[1..]));
    }
  }

  lemma {:induction false} InsertPair(spec: OrderSpec, x: OrderPair, pairs: seq<OrderPair>)
    requires x == Pair(spec, x.tuple)
    requires forall p :: p in pairs ==> p == Pair(spec, p.tuple)
    ensures Tuples(Insert(PairPrecedes(spec), x, pairs)) == Insert(Precedes(spec), x.tuple, Tuples(pairs))
  {
    if pairs != [] {
      InsertPair(spec, x, pairs[1..]);
    }
  }

  lemma {:induction false} BindItemsWithoutPosition(n: Name, env: Env, items: seq<Item>, i: nat, j: nat)
    ensures BindItems(n, None, env, items, i) == BindItems(n, None, env, items, j)
  {
    if items != [] {
      BindItemsWithoutPosition(n, env, items[1..], i + 1, j + 1);
    }
  }

  lemma NumberedFirst(n: Name, s: seq<Env>, first: nat)
    ensures if s == [] then Numbered(n, s, first) == []
            else Numbered(n, s, first) == [s[0][n := [Integer(first)]]] + Numbered(n, s[1..], first + 1)
  {
  }

  // With no item left, the rest of a for comes from the expansion of its parent's next tuple.
  lemma FirstTuple(n: Name, pos: Option<Name>, e: Expr, env: Env, s: seq<Env>, first: nat)
    ensures BindItems(n, pos, env, [], first) + FlatMap(Expand(n, pos, e), s)
         == if s == [] then [] else BindItems(n, pos, s[0], e.eval(s[0]), 1) + FlatMap(Expand(n, pos, e), s[1..])
  {
  }

  // Handing out the first item leaves the others, numbered from the next position.
  lemma FirstItem(n: Name, pos: Option<Name>, env: Env, items: seq<Item>, position: nat, more: seq<Env>)
    requires items != []
    ensures var r := BindItems(n, pos, env, items, position + 1) + more;
            && r[0] == BindItem(n, pos, env, items[0], position + 1)
            && r[1..] == BindItems(n, pos, env, items[1..], position + (if pos == None then 1 else 2)) + more
  {
    var all, tail := BindItems(n, pos, env, items, position + 1), BindItems(n, pos, env, items[1..], position + 2);
    assert all == [BindItem(n, pos, env, items[0], position + 1)] + tail;
    assert (all + more)[1..] == tail + more;
    if pos == None {
      BindItemsWithoutPosition(n, env, items[1..], position + 2, position + 1);
    }
  }

  ghost predicate Open(depth: nat) {
    true
  }

  /** An iterator over tuples.  The class hierarchy of the program is one class here, with the
      clause of its tuple node telling which kind it is. */
  class TupleResult {
    const clause: Option<Clause>      // None for the context tuple
    const parent: TupleResult?

    var varStore: Option<Env>         // context tuple: the outer variables, once taken
    var values: seq<Item>             // for: the items still to come; let: the bound value
    var item: Item                    // for: the current item
    var position: nat                 // for and count: the last position given out
    var toDo: bool                    // order-by: nothing has been read yet
    var tuples: seq<OrderPair>        // order-by: the sorted tuples
    var tupleIt: nat                  // order-by: the current tuple

    ghost const outer: Env            // the variables in scope outside the FLWOR
    ghost const nodes: set<TupleResult>
    ghost const depth: nat
    ghost var rest: seq<Env>          // the tuples still to come
    ghost var env: Env                // the current tuple
    ghost var live: bool              // there is a current tuple
    ghost var finished: bool          // Next has reported the end

    // This object and those it pulls from, all distinct.
    ghost predicate Linked() {
      && this in nodes
      && (clause == None <==> parent == null)
      && (parent == null ==> nodes == {this})
      && (parent != null ==>
            && parent in parent.nodes && nodes == {this} + parent.nodes && this !in parent.nodes
            && parent.depth < depth && parent.outer == outer)
    }

    ghost predicate Valid()
      reads this, nodes
      decreases depth
    {
      Linked() && (finished ==> rest == [] && !live) && Sealed() && (parent != null ==> parent.Valid())
    }

    // Local, for a proof about the object of this depth only: a method that pulls from its
    // parent is not distracted by how the parent keeps its promise.
    ghost predicate Sealed()
      requires Linked()
      reads this, nodes
    {
      forall d {:trigger Open(d)} :: Open(d) && d == depth ==> Local()
    }

    // How the fields of this object and of its parent fix the tuples still to come.
    ghost predicate Local()
      requires Linked()
      reads this, nodes
    {
      match clause
      case None => LocalContext()
      case Some(For(n, pos, e)) => FromParent() && LocalFor(n, pos, e)
      case Some(Let(n, e)) =>
        FromParent() && (live ==> env == parent.env[n := values]) && rest == Map(Bind(n, e), parent.rest)
      case Some(Where(cond)) => FromParent() && (live ==> env == parent.env) && rest == Filter(Holds(cond), parent.rest)
      case Some(OrderBy(spec)) => if toDo then LocalUnsorted(spec) else LocalSorted()
      case Some(Count(n)) =>
        && FromParent()
        && (live ==> env == parent.env[n := [Integer(position)]])
        && rest == Numbered(n, parent.rest, position + 1)
    }

    ghost predicate FromParent()
      requires Linked() && parent != null
      reads this, nodes
    {
      (live ==> parent.live) && (!finished ==> !parent.finished)
    }

    ghost predicate LocalContext()
      reads this
    {
      && (varStore == None || varStore == Some(outer))
      && (live ==> varStore != None && env == outer)
      && rest == if varStore == None then [outer] else []
    }

    ghost predicate LocalFor(n: Name, pos: Option<Name>, e: Expr)
      requires Linked() && parent != null
      reads this, nodes
    {
      && (live ==> env == BindItem(n, pos, parent.env, item, position))
      && (values != [] ==> parent.live)
      && rest == BindItems(n, pos, parent.env, values, position + 1) + FlatMap(Expand(n, pos, e), parent.rest)
    }

    ghost predicate LocalUnsorted(spec: OrderSpec)
      requires Linked() && parent != null
      reads this, nodes
    {
      && !live
      && (!finished ==> !parent.finished)
      && rest == Sort(Precedes(spec), parent.rest)
    }

    ghost predicate LocalSorted()
      reads this
    {
      && (live ==> tupleIt < |tuples| && env == tuples[tupleIt].tuple)
      && (!finished ==> live)
      && rest == if tupleIt < |tuples| then Tuples(tuples)[tupleIt + 1..] else []
    }

    /** The bindings this object presents as a variable store: its own over its parent's. */
    function Current(): (r: Env)
      requires Valid() && live
      reads nodes
      ensures r == env
      decreases depth
    {
      assert Open(depth);
      match clause
      case None => varStore.value
      case Some(For(n, pos, _)) => BindItem(n, pos, parent.Current(), item, position)
      case Some(Let(n, _)) => parent.Current()[n := values]
      case Some(Where(_)) => parent.Current()
      case Some(OrderBy(_)) => tuples[tupleIt].tuple
      case Some(Count(n)) => parent.Current()[n := [Integer(position)]]
    }

    // What a call of Next has done to a stream that had the tuples before to come.
    ghost predicate Stepped(more: bool, before: seq<Env>)
      reads this, nodes
    {
      && Valid()
      && more == (before != [])
      && finished == !more
      && (more ==> live && env == before[0] && rest == before[1..])
    }

    constructor (clause: Option<Clause>, parent: TupleResult?, ghost outer: Env)
      requires clause == None <==> parent == null
      requires parent != null ==> parent.Valid() && !parent.finished && parent.outer == outer && parent.Untouched()
      ensures this.clause == clause && this.parent == parent && this.outer == outer
      ensures nodes == {this} + (if parent == null then {} else parent.nodes)
      ensures Valid() && !finished && Untouched()
      ensures rest == if clause == None then [outer] else Denote(clause.value, parent.rest)
    {
      this.clause, this.parent, this.outer := clause, parent, outer;
      varStore, values, item, position, toDo, tuples, tupleIt := None, [], Integer(0), 0, true, [], 0;
      nodes := {this} + (if parent == null then {} else parent.nodes);
      depth := if parent == null then 0 else parent.depth + 1;
      rest := if clause == None then [outer] else Denote(clause.value, parent.rest);
      env, live, finished := map[], false, false;
    }

    // Nothing has been read yet.
    ghost predicate Untouched()
      reads this
    {
      !live && toDo
    }

    /** Moves to the next tuple and says whether there is one.  It is not called again after
        it has reported the end. */
    method Next(scope: Env) returns (more: bool)
      requires Valid() && !finished && scope == outer
      modifies nodes
      ensures Stepped(more, old(rest))
      decreases depth, 3
    {
      match clause {
        case None => more := NextContext(scope);
        case Some(For(n, pos, e)) => more := NextFor(n, pos, e, scope);
        case Some(Let(n, e)) => more := NextLet(n, e, scope);
        case Some(Where(cond)) => more := NextWhere(cond, scope);
        case Some(OrderBy(spec)) => more := NextOrderBy(spec, scope);
        case Some(Count(n)) => more := NextCount(n, scope);
      }
    }

    method NextContext(scope: Env) returns (more: bool)
      requires clause == None
      requires Valid() && !finished && scope == outer
      modifies nodes
      ensures Stepped(more, old(rest))
      decreases depth, 1
    {
      assert Open(depth);
      if varStore != None {
        live, finished := false, true;
        return false;
      }
      varStore := Some(scope);
      live, env, rest := true, scope, [];
      return true;
    }

    method NextFor(n: Name, pos: Option<Name>, e: Expr, scope: Env) returns (more: bool)
      requires clause == Some(For(n, pos, e))
      requires Valid() && !finished && scope == outer
      modifies nodes
      ensures Stepped(more, old(rest))
      decreases depth, 2
    {
      assert Open(depth);
      more := Refill(n, pos, e, scope);
      if more {
        Take(n, pos, e);
      }
    }

    // Hands out the first of the items.
    method Take(n: Name, pos: Option<Name>, e: Expr)
      requires Linked() && parent != null && FromParent() && LocalFor(n, pos, e)
      requires !finished && values != []
      modifies this
      ensures FromParent() && LocalFor(n, pos, e) && live && !finished
      ensures old(rest) != [] && env == old(rest)[0] && rest == old(rest)[1..]
    {
      hide FlatMap, BindItems, Expand, Local;
      FirstItem(n, pos, parent.env, values, position, FlatMap(Expand(n, pos, e), parent.rest));
      item, values := values[0], values[1..];
      position := if pos == None then position else position + 1;
      live, env, rest := true, rest[0], rest[1..];
    }

    // Pulls from the parent until there is an item to hand out.
    method Refill(n: Name, pos: Option<Name>, e: Expr, scope: Env) returns (more: bool)
      requires Linked() && parent != null && parent.Valid() && FromParent() && LocalFor(n, pos, e)
      requires !finished && scope == outer
      modifies nodes
      ensures parent.Valid() && FromParent() && LocalFor(n, pos, e)
      ensures rest == old(rest) && finished == !more
      ensures if more then values != [] else rest == [] && !live
      decreases depth, 1
    {
      more := true;
      while more && values == []
        invariant parent.Valid() && FromParent() && LocalFor(n, pos, e)
        invariant rest == old(rest) && finished == !more
        invariant !more ==> rest == [] && !live
        decreases |parent.rest|, values == [], more
      {
        more := Pull(n, pos, e, scope);
      }
    }

    // Starts on the items of the parent's next tuple.
    method Pull(n: Name, pos: Option<Name>, e: Expr, scope: Env) returns (more: bool)
      requires Linked() && parent != null && parent.Valid() && FromParent() && LocalFor(n, pos, e)
      requires !finished && scope == outer && values == []
      modifies nodes
      ensures parent.Valid() && FromParent() && LocalFor(n, pos, e) && !live
      ensures rest == old(rest) && finished == !more
      ensures if more then |parent.rest| < |old(parent.rest)| else rest == [] == parent.rest
      decreases depth, 0
    {
      hide FlatMap, BindItems, Expand;
      FirstTuple(n, pos, e, parent.env, parent.rest, position + 1);
      more := parent.Next(scope);
      live, finished := false, !more;
      if more {
        values := e.eval(parent.Current());
        position := 0;
      }
    }

    method NextLet(n: Name, e: Expr, scope: Env) returns (more: bool)
      requires clause == Some(Let(n, e))
      requires Valid() && !finished && scope == outer
      modifies nodes
      ensures Stepped(more, old(rest))
      decreases depth, 1
    {
      assert Open(depth);
      more := parent.Next(scope);
      live, finished := more, !more;
      if more {
        values := e.eval(parent.Current());
        env, rest := rest[0], rest[1..];
      }
    }

    method NextWhere(cond: Condition, scope: Env) returns (more: bool)
      requires clause == Some(Where(cond))
      requires Valid() && !finished && scope == outer
      modifies nodes
      ensures Stepped(more, old(rest))
      decreases depth, 1
    {
      HasParent();
      hide Valid, Denote, Linked;
      var found := false;
      more := true;
      while more && !found
        invariant Valid() && clause == Some(Where(cond)) && scope == outer && parent != null
        invariant finished == !more && (found ==> more)
        invariant if found then Stepped(true, old(rest)) else rest == old(rest) && (finished ==> rest == [])
        decreases |parent.rest|, !found, more
      {
        found, more := TryNext(cond, scope);
      }
    }

    lemma HasParent()
      requires Valid() && clause != None
      ensures parent != null
    {
    }

    // Pulls one tuple of the parent, and hands it out if the condition holds of it.
    method TryNext(cond: Condition, scope: Env) returns (found: bool, more: bool)
      requires clause == Some(Where(cond))
      requires Valid() && !finished && scope == outer
      modifies nodes
      ensures Valid() && parent != null && finished == !more && (found ==> more)
      ensures found ==> Stepped(true, old(rest))
      ensures !found ==> rest == old(rest) && (finished ==> rest == [])
      ensures if more then |parent.rest| < |old(parent.rest)| else parent.rest == []
      decreases depth, 0
    {
      assert Open(depth);
      more := parent.Next(scope);
      found, live, finished := false, false, !more;
      if more && ConditionHolds(cond, parent.Current()) {
        found, live := true, true;
        env, rest := rest[0], rest[1..];
      }
    }

    method NextOrderBy(spec: OrderSpec, scope: Env) returns (more: bool)
      requires clause == Some(OrderBy(spec))
      requires Valid() && !finished && scope == outer
      modifies nodes
      ensures Stepped(more, old(rest))
      ensures StrictWeakOrder(spec.gt) && old(toDo) ==> KeysInOrder(spec, old(rest))
      decreases depth, 1
    {
      assert Open(depth);
      ghost var before := parent.rest;
      assert StrictWeakOrder(spec.gt) && toDo ==> KeysInOrder(spec, rest) by {
        if StrictWeakOrder(spec.gt) {
          OrderByDelivers(spec, before);
        }
      }
      if toDo {
        var pairs := ReadAll(spec, scope);
        SortPairs(spec, pairs);
        more := Arrive(Sort(PairPrecedes(spec), pairs), 0);
      } else {
        more := Arrive(tuples, tupleIt + 1);
      }
    }

    // Stands at place it of the sorted tuples, which are what is to come from there on.
    method Arrive(sorted: seq<OrderPair>, it: nat) returns (more: bool)
      requires it <= |sorted| && rest == Tuples(sorted)[it..]
      modifies this
      ensures LocalSorted() && !toDo && finished == !more && live == more
      ensures more == (old(rest) != [])
      ensures if more then env == old(rest)[0] && rest == old(rest)[1..] else rest == []
    {
      toDo, tuples, tupleIt := false, sorted, it;
      more := it < |sorted|;
      live, finished := more, !more;
      if more {
        env, rest := sorted[it].tuple, rest[1..];
      }
    }

    // Reads the parent to its end, keeping each tuple with its sort item.
    method ReadAll(spec: OrderSpec, scope: Env) returns (pairs: seq<OrderPair>)
      requires clause == Some(OrderBy(spec))
      requires Valid() && !finished && toDo && scope == outer
      modifies parent.nodes
      ensures parent.Valid()
      ensures Tuples(pairs) == old(parent.rest)
      ensures forall p :: p in pairs ==> p == Pair(spec, p.tuple)
      decreases depth, 0
    {
      assert Open(depth);
      pairs := [];
      var got := parent.Next(scope);
      while got
        invariant Linked() && parent.Valid() && parent.finished == !got
        invariant got ==> parent.live
        invariant old(parent.rest) == Tuples(pairs) + (if got then [parent.env] else []) + parent.rest
        invariant forall p :: p in pairs ==> p == Pair(spec, p.tuple)
        decreases |parent.rest|, got
      {
        ghost var before := pairs;
        pairs := pairs + [Pair(spec, parent.Current())];
        assert Tuples(pairs) == Tuples(before) + [parent.env];
        got := parent.Next(scope);
      }
    }

    method NextCount(n: Name, scope: Env) returns (more: bool)
      requires clause == Some(Count(n))
      requires Valid() && !finished && scope == outer
      modifies nodes
      ensures Stepped(more, old(rest))
      decreases depth, 1
    {
      hide FlatMap, BindItems, Sort, Filter, Map, Numbered;
      assert Open(depth);
      NumberedFirst(n, parent.rest, position + 1);
      more := parent.Next(scope);
      live, finished := more, !more;
      if more {
        position := position + 1;
        env, rest := rest[0], rest[1..];
      }
    }

    /** Looks a variable up along the iterators: the clause's own variables first. */
    method GetVar(name: Name) returns (v: Option<Value>)
      requires Valid() && live
      ensures v == if name in env then Some(env[name]) else None
      decreases depth
    {
      assert Open(depth);
      match clause {
        case None =>
          v := if name in varStore.value then Some(varStore.value[name]) else None;
        case Some(For(n, pos, _)) =>
          if name == n {
            v := Some([item]);
          } else if pos == Some(name) {
            v := Some([Integer(position)]);
          } else {
            v := parent.GetVar(name);
          }
        case Some(Let(n, _)) =>
          if name == n {
            v := Some(values);
          } else {
            v := parent.GetVar(name);
          }
        case Some(Where(_)) => v := parent.GetVar(name);
        case Some(OrderBy(_)) =>
          var tuple := tuples[tupleIt].tuple;
          v := if name in tuple then Some(tuple[name]) else None;
        case Some(Count(n)) =>
          if name == n {
            v := Some([Integer(position)]);
          } else {
            v := parent.GetVar(name);
          }
      }
    }
  }

  method CreateResult(ch: Chain, ghost outer: Env) returns (r: TupleResult)
    ensures r.Valid() && !r.finished && r.outer == outer && r.Untouched()
    ensures r.rest == Meaning(ch, outer) && fresh(r.nodes) && r in r.nodes
    decreases ch
  {
    match ch {
      case Root => r := new TupleResult(None, null, outer);
      case Node(c, p) =>
        var parent := CreateResult(p, outer);
        r := new TupleResult(Some(c), parent, outer);
    }
  }

  /** The iterator of a FLWOR's return clause: the return expression, once per tuple. */
  class ReturnResult {
    var parent: TupleResult?          // null once the tuples have ended
    var result: seq<Item>             // the items of the current tuple still to come
    const expr: Expr
    ghost const outer: Env
    ghost const nodes: set<TupleResult>
    ghost var rest: seq<Item>         // the items still to come

    ghost predicate Valid()
      reads this, nodes
    {
      if parent == null then rest == result == []
      else
        && parent in nodes && parent.nodes <= nodes
        && parent.Valid() && !parent.finished && parent.outer == outer
        && rest == result + FlatMap(expr.eval, parent.rest)
    }

    constructor (expr: Expr, parent: TupleResult)
      requires parent.Valid() && !parent.finished && parent in parent.nodes
      ensures Valid() && outer == parent.outer && nodes == parent.nodes
      ensures rest == FlatMap(expr.eval, parent.rest)
    {
      this.expr, this.parent, result := expr, parent, [];
      outer, nodes := parent.outer, parent.nodes;
      rest := FlatMap(expr.eval, parent.rest);
    }

    /** The next item, or nothing once there is none, however often it is asked. */
    method Next(scope: Env) returns (item: Option<Item>)
      requires Valid() && scope == outer
      modifies this, nodes
      ensures Valid()
      ensures old(rest) == [] ==> item == None && rest == []
      ensures old(rest) != [] ==> item == Some(old(rest)[0]) && rest == old(rest)[1..]
    {
      while result == []
        invariant Valid() && rest == old(rest)
        decreases if parent == null then 0 else |parent.rest| + 1, result == []
      {
        if parent == null {
          return None;
        }
        var more := parent.Next(scope);
        if !more {
          parent := null;
          return None;
        }
        result := expr.eval(parent.Current());
      }
      item := Some(result[0]);
      result, rest := result[1..], rest[1..];
    }
  }

  /** Pulling a FLWOR to its end delivers exactly the return expression over the tuples of
      its chain, and evaluating the optimised chain delivers the same items. */
  method Evaluate(ch: Chain, ctx: bool, expr: Expr, scope: Env) returns (items: seq<Item>)
    ensures items == FlatMap(expr.eval, Meaning(Optimize(ch, ctx), scope))
    ensures AllSound(ch) && SafeToOptimize(ch, ctx) ==> items == FlatMap(expr.eval, Meaning(ch, scope))
  {
    hide ReturnResult.Valid, Meaning, FlatMap;
    var tuples := CreateResult(Optimize(ch, ctx), scope);
    var results := new ReturnResult(expr, tuples);
    items := Drain(results, scope);
    if AllSound(ch) && SafeToOptimize(ch, ctx) {
      OptimizeKeepsMeaning(ch, ctx, scope);
    }
  }

  // Pulls the items to the end.
  method Drain(results: ReturnResult, scope: Env) returns (items: seq<Item>)
    requires results.Valid() && results.outer == scope
    modifies results, results.nodes
    ensures items == old(results.rest)
  {
    hide ReturnResult.Valid;
    items := [];
    var item := results.Next(scope);
    while item != None
      invariant results.Valid()
      invariant old(results.rest) == items + (if item == None then [] else [item.value]) + results.rest
      invariant item == None ==> results.rest == []
      decreases |results.rest|, item != None
    {
      items := items + [item.value];
      item := results.Next(scope);
    }
  }
}
