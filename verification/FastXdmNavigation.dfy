/** What the flat store's levels and links mean. */
module FastXdmNavigation {
  // The backward scan for the parent, the sibling links, and the attribute runs agree with the
  // tree that was open when each was written.

  import opened Options
  import opened Events
  import opened FastXdm

  // The last node before j at a level below the given one: where the parent scan stops.
  function ScanBack(nodes: seq<Node>, j: nat, level: nat): (r: Option<nat>)
    requires j <= |nodes|
    ensures r != None ==> r.value < j && nodes[r.value].level < level
    ensures forall k :: 0 <= k < j && (r == None || r.value < k) ==> nodes[k].level >= level
  {
    if j == 0 then None
    else if nodes[j - 1].level < level then Some(j - 1)
    else ScanBack(nodes, j - 1, level)
  }

  // The first node from k on at the given level or above it.
  function ScanOn(nodes: seq<Node>, k: nat, level: nat): (r: Option<nat>)
    requires k <= |nodes|
    ensures r != None ==> k <= r.value < |nodes| && nodes[r.value].level <= level
    ensures forall m :: k <= m < |nodes| && (r == None || m < r.value) ==> nodes[m].level > level
    decreases |nodes| - k
  {
    if k == |nodes| then None
    else if nodes[k].level <= level then Some(k)
    else ScanOn(nodes, k + 1, level)
  }

  function Parent(nodes: seq<Node>, j: nat): Option<nat>
    requires j < |nodes|
  {
    ScanBack(nodes, j, nodes[j].level)
  }

  // The next node at the level of i that comes before any node above that level.
  function Sibling(nodes: seq<Node>, i: nat): Option<nat>
    requires i < |nodes|
  {
    match ScanOn(nodes, i + 1, nodes[i].level)
    case None => None
    case Some(k) => if nodes[k].level == nodes[i].level then Some(k) else None
  }

  // The open nodes: each at the level of its depth, with only deeper nodes after it.
  ghost predicate StackLevels(nodes: seq<Node>, stack: seq<nat>) {
    forall d :: 0 <= d < |stack| ==>
      && stack[d] < |nodes| && nodes[stack[d]].level == d
      && forall k :: stack[d] < k < |nodes| ==> nodes[k].level > d
  }

  // Levels rise by at most one, and only the root is at level 0.
  ghost predicate Levels(nodes: seq<Node>) {
    && (nodes != [] ==> nodes[0].level == 0)
    && forall k :: 1 <= k < |nodes| ==> StepsDown(nodes, k)
  }

  ghost predicate StepsDown(nodes: seq<Node>, k: nat)
    requires 1 <= k < |nodes|
  {
    1 <= nodes[k].level <= nodes[k - 1].level + 1
  }

  // prev is the last child so far of the innermost open node.
  ghost predicate PrevIsLast(nodes: seq<Node>, stack: seq<nat>, prev: Option<nat>) {
    match prev
    case None => if stack == [] then nodes == [] else stack[|stack| - 1] == |nodes| - 1
    case Some(p) =>
      && p < |nodes| && nodes[p].level == |stack|
      && (stack != [] ==> stack[|stack| - 1] < p)
      && forall k :: p < k < |nodes| ==> nodes[k].level > |stack|
  }

  ghost predicate Linked(nodes: seq<Node>) {
    forall i :: 0 <= i < |nodes| ==> LinkOf(nodes, i)
  }

  ghost predicate LinkOf(nodes: seq<Node>, i: nat)
    requires i < |nodes|
  {
    nodes[i].nextSibling == Sibling(nodes, i)
  }

  ghost predicate Arranged(s: Store) {
    && Ok(s) && StackLevels(s.nodes, s.stack) && Levels(s.nodes)
    && PrevIsLast(s.nodes, s.stack, s.prev) && Linked(s.nodes)
  }

  /** The arrays are arranged as their levels and links say, and no text is buffered after
      the root. */
  ghost predicate Navigable(s: Store) {
    Arranged(s) && (s.pending && s.stack == [] ==> s.nodes == [])
  }

  lemma ScanBackFinds(nodes: seq<Node>, j: nat, level: nat, p: nat)
    requires p < j <= |nodes| && nodes[p].level < level
    requires forall k :: p < k < j ==> nodes[k].level >= level
    ensures ScanBack(nodes, j, level) == Some(p)
  {
  }

  lemma ScanOnFinds(nodes: seq<Node>, k: nat, level: nat, m: nat)
    requires k <= m < |nodes| && nodes[m].level <= level
    requires forall i :: k <= i < m ==> nodes[i].level > level
    ensures ScanOn(nodes, k, level) == Some(m)
  {
  }

  lemma ScanOnMisses(nodes: seq<Node>, k: nat, level: nat)
    requires k <= |nodes| && forall i :: k <= i < |nodes| ==> nodes[i].level > level
    ensures ScanOn(nodes, k, level) == None
  {
  }

  // Scans look at levels only.
  lemma ScanOnAppend(nodes: seq<Node>, more: seq<Node>, k: nat, level: nat)
    requires k <= |nodes| && |more| == |nodes| + 1
    requires forall i :: 0 <= i < |nodes| ==> more[i].level == nodes[i].level
    ensures ScanOn(more, k, level) ==
      match ScanOn(nodes, k, level)
      case Some(m) => Some(m)
      case None => if more[|nodes|].level <= level then Some(|nodes|) else None
  {
    var r := ScanOn(nodes, k, level);
    if r != None {
      ScanOnFinds(more, k, level, r.value);
    } else if more[|nodes|].level <= level {
      ScanOnFinds(more, k, level, |nodes|);
    } else {
      assert forall i :: k <= i < |nodes| ==> nodes[i].level > level;
      ScanOnMisses(more, k, level);
    }
  }

  /** A new node keeps the array navigable, and its parent is the node that is open. */
  lemma AppendNavigable(s: Store, data: NodeData)
    requires Arranged(s) && (s.stack == [] ==> s.nodes == [])
    ensures Arranged(Append(s, data))
    ensures Parent(Append(s, data).nodes, |s.nodes|) == if s.stack == [] then None else Some(Top(s))
  {
    hide Linked, ScanOn, ScanBack, Sibling, Levels;
    var r, n := Append(s, data), |s.nodes|;
    assert forall i :: 0 <= i < n ==> r.nodes[i].level == s.nodes[i].level;
    AppendLevels(s, data);
    AppendLinked(s, data);
    if s.stack != [] {
      ScanBackFinds(r.nodes, n, |s.stack|, Top(s));
    }
  }

  lemma AppendLevels(s: Store, data: NodeData)
    requires Arranged(s) && (s.stack == [] ==> s.nodes == [])
    ensures Levels(Append(s, data).nodes)
  {
    hide Linked, ScanOn, ScanBack, Sibling;
    var r, n := Append(s, data), |s.nodes|;
    forall k | 1 <= k < |r.nodes| ensures StepsDown(r.nodes, k) {
      if k < n {
        assert StepsDown(s.nodes, k);
      } else {
        assert s.nodes[n - 1].level >= |s.stack| - 1;
      }
    }
  }

  lemma AppendLinked(s: Store, data: NodeData)
    requires Arranged(s) && (s.stack == [] ==> s.nodes == [])
    ensures Linked(Append(s, data).nodes)
  {
    hide Levels, StackLevels, PrevIsLast, Sibling;
    var r, n := Append(s, data), |s.nodes|;
    forall i | 0 <= i <= n ensures LinkOf(r.nodes, i) {
      if i < n {
        assert LinkOf(s.nodes, i);
        SiblingAppended(s, r.nodes, i);
      } else {
        NoSibling(r.nodes);
      }
    }
  }

  lemma NoSibling(nodes: seq<Node>)
    requires nodes != []
    ensures Sibling(nodes, |nodes| - 1) == None
  {
  }

  // The new node is the next sibling of the previous last one, and of no other.
  lemma SiblingAppended(s: Store, more: seq<Node>, i: nat)
    requires Arranged(s) && (s.stack == [] ==> s.nodes == []) && i < |s.nodes|
    requires |more| == |s.nodes| + 1 && more[|s.nodes|].level == |s.stack|
    requires forall k :: 0 <= k < |s.nodes| ==> more[k].level == s.nodes[k].level
    ensures Sibling(more, i) == if s.prev == Some(i) then Some(|s.nodes|) else Sibling(s.nodes, i)
  {
    hide Levels, Linked, StackLevels, Ok;
    var level := s.nodes[i].level;
    ScanOnAppend(s.nodes, more, i + 1, level);
    if s.prev == Some(i) {
      ScanOnMisses(s.nodes, i + 1, level);
    } else if ScanOn(s.nodes, i + 1, level) == None && level == |s.stack| {
      LastAtLevel(s, i);
    }
  }

  lemma LastAtLevel(s: Store, i: nat)
    requires Arranged(s) && i < |s.nodes| && s.nodes[i].level == |s.stack| && s.stack != []
    requires forall k :: i < k < |s.nodes| ==> s.nodes[k].level > |s.stack|
    ensures s.prev == Some(i)
  {
    hide Linked, Levels;
    var n := |s.nodes|;
    assert i != Top(s) && (i < n - 1 ==> s.nodes[n - 1].level > |s.stack|);
    assert s.prev != None;
    SameLast(s.nodes, i, s.prev.value, |s.stack|);
  }

  lemma SameLast(nodes: seq<Node>, i: nat, p: nat, level: nat)
    requires i < |nodes| && nodes[i].level == level && forall k :: i < k < |nodes| ==> nodes[k].level > level
    requires p < |nodes| && nodes[p].level == level && forall k :: p < k < |nodes| ==> nodes[k].level > level
    ensures i == p
  {
  }

  lemma CheckTextNavigable(s: Store)
    requires Navigable(s)
    ensures Navigable(CheckText(s))
  {
    if s.pending && (s.nodes == [] || s.text != "") {
      AppendNavigable(s, TextData(s.text));
    }
  }

  lemma OpenNavigable(s: Store)
    requires Arranged(s) && s.nodes != [] && s.prev == Some(|s.nodes| - 1)
    ensures Arranged(Open(s))
  {
    hide Linked, Levels;
  }

  // Only the nodes' data may differ.
  ghost predicate SameLinks(nodes: seq<Node>, other: seq<Node>) {
    && |nodes| == |other|
    && forall k :: 0 <= k < |nodes| ==> nodes[k].level == other[k].level && nodes[k].nextSibling == other[k].nextSibling
  }

  // Closing the innermost node; its data may change.
  lemma CloseNavigable(s: Store, nodes: seq<Node>)
    requires Arranged(s) && s.stack != []
    requires SameLinks(nodes, s.nodes)
    ensures Arranged(s.(stack := s.stack[..|s.stack| - 1], prev := Some(Top(s)), nodes := nodes))
  {
    hide Linked, ScanOn;
    SameLevels(s.nodes, nodes);
    assert Levels(nodes) by {
      forall k | 1 <= k < |nodes| ensures StepsDown(nodes, k) {
        assert StepsDown(s.nodes, k);
      }
    }
  }

  lemma SameLevels(nodes: seq<Node>, other: seq<Node>)
    requires SameLinks(nodes, other)
    ensures Linked(nodes) ==> Linked(other)
  {
    hide ScanOn;
    if Linked(nodes) {
      forall i | 0 <= i < |other| ensures LinkOf(other, i) {
        assert LinkOf(nodes, i);
        var r := ScanOn(nodes, i + 1, nodes[i].level);
        if r != None {
          ScanOnFinds(other, i + 1, other[i].level, r.value);
        } else {
          ScanOnMisses(other, i + 1, other[i].level);
        }
      }
    }
  }

  // Changing an element's own data.
  lemma DataNavigable(s: Store, nodes: seq<Node>)
    requires Arranged(s) && SameLinks(nodes, s.nodes)
    ensures Arranged(s.(nodes := nodes))
  {
    hide Linked, ScanOn;
    SameLevels(s.nodes, nodes);
    assert Levels(nodes) by {
      forall k | 1 <= k < |nodes| ensures StepsDown(nodes, k) {
        assert StepsDown(s.nodes, k);
      }
    }
  }

  /** Every event of a single tree keeps the store navigable. */
  lemma HandleNavigable(s: Store, e: Event)
    requires Navigable(s) && Safe(s, e)
    ensures Navigable(Handle(s, e))
  {
    hide Arranged, Append, CheckText;
    NavigableIsOk(s);
    var t := CheckText(s);
    CheckTextNavigable(s);
    FlushedStore(s);
    match e {
      case StartDocument(u, enc) =>
        var start := s.(stack := [], prev := None, text := "", pending := false);
        EmptyNavigable(s);
        AppendedStore(start, DocumentData(u, enc));
        AppendNavigable(start, DocumentData(u, enc));
        OpenNavigable(Append(start, DocumentData(u, enc)));
      case StartElement(tag) =>
        AppendedStore(t, ElementData(tag, None, None, None));
        AppendNavigable(t, ElementData(tag, None, None, None));
        OpenNavigable(Append(t, ElementData(tag, None, None, None)));
      case EndDocument => CloseNavigable(t, t.nodes);
      case EndElement(_, _) => CloseNavigable(t, Handle(s, e).nodes);
      case Comment(v) =>
        AppendedStore(t, CommentData(v));
        AppendNavigable(t, CommentData(v));
      case ProcessingInstruction(target, v) =>
        AppendedStore(t, PIData(target, v));
        AppendNavigable(t, PIData(target, v));
      case Text(v) => BufferNavigable(s, s.text + v);
      case Attribute(tag, v, typed) => MemberNavigable(s, Handle(s, e));
      case Namespace(prefix, u) => MemberNavigable(s, Handle(s, e));
    }
  }

  lemma FlushedStore(s: Store)
    requires Ok(s)
    ensures var t := CheckText(s); !t.pending && (s.stack == [] && !s.pending ==> t == s)
  {
  }

  lemma AppendedStore(s: Store, data: NodeData)
    requires Ok(s)
    ensures var r := Append(s, data); r.nodes != [] && r.prev == Some(|r.nodes| - 1) && r.pending == s.pending
  {
  }

  lemma EmptyNavigable(s: Store)
    requires Navigable(s) && s.nodes == [] && s.stack == []
    ensures Arranged(s.(stack := [], prev := None, text := "", pending := false))
  {
  }

  lemma BufferNavigable(s: Store, text: string)
    requires Navigable(s) && (s.stack != [] || s.nodes == [])
    ensures Navigable(s.(text := text, pending := true))
  {
  }

  lemma MemberNavigable(s: Store, r: Store)
    requires Navigable(s) && Ok(r) && r.stack == s.stack && r.prev == s.prev && r.pending == s.pending
    requires SameLinks(r.nodes, s.nodes)
    ensures Navigable(r)
  {
    DataNavigable(s, r.nodes);
  }

  lemma {:induction false} RunNavigable(s: Store, events: seq<Event>)
    requires Navigable(s) && AllSafe(s, events)
    ensures Navigable(Run(s, events))
    decreases |events|
  {
    hide Navigable, Handle;
    assert Ok(s) by { NavigableIsOk(s); }
    if events != [] {
      HandleNavigable(s, events[0]);
      RunNavigable(Handle(s, events[0]), events[1..]);
    }
  }

  lemma NavigableIsOk(s: Store)
    requires Navigable(s)
    ensures Ok(s)
  {
  }

  /** The store of every well-formed tree is navigable. */
  lemma TreeNavigable(t: Tree)
    requires WellFormed(t)
    ensures AllSafe(EMPTY, TreeEvents(t))
    ensures Navigable(CheckText(Run(EMPTY, TreeEvents(t))))
  {
    hide Navigable;
    BuildsTree(t);
    assert Navigable(EMPTY) by { EmptyStoreNavigable(); }
    RunNavigable(EMPTY, TreeEvents(t));
    CheckTextNavigable(Run(EMPTY, TreeEvents(t)));
  }

  lemma EmptyStoreNavigable()
    ensures Navigable(EMPTY)
  {
  }

  /** The parent scan stops one level up, at a node with only deeper nodes in between. */
  lemma ParentIsOneUp(nodes: seq<Node>, j: nat)
    requires Levels(nodes) && 1 <= j < |nodes|
    ensures Parent(nodes, j) != None
    ensures var p := Parent(nodes, j).value;
            p < j && nodes[p].level == nodes[j].level - 1 && forall k :: p < k < j ==> nodes[k].level >= nodes[j].level
  {
    assert StepsDown(nodes, j);
    var p := Parent(nodes, j).value;
    assert StepsDown(nodes, p + 1);
  }

  /** A started element's parent is the node that was open, for as long as the store grows. */
  lemma StartedInOpen(s: Store, tag: Tag)
    requires Navigable(s) && Safe(s, StartElement(tag))
    ensures var r, i := Handle(s, StartElement(tag)), |CheckText(s).nodes|;
            && i < |r.nodes| && r.nodes[i].data == ElementData(tag, None, None, None)
            && Parent(r.nodes, i) == if s.stack == [] then None else Some(Top(s))
  {
    CheckTextNavigable(s);
    AppendNavigable(CheckText(s), ElementData(tag, None, None, None));
  }

  lemma ParentStays(s: Store, e: Event, j: nat)
    requires Ok(s) && Safe(s, e) && j < |s.nodes|
    ensures j < |Handle(s, e).nodes|
    ensures Parent(Handle(s, e).nodes, j) == Parent(s.nodes, j)
  {
    var r := Handle(s, e);
    assert forall k :: 0 <= k < |s.nodes| ==> r.nodes[k].level == s.nodes[k].level;
    ScanBackSame(s.nodes, r.nodes, j, s.nodes[j].level);
  }

  lemma {:induction false} ScanBackSame(nodes: seq<Node>, more: seq<Node>, j: nat, level: nat)
    requires j <= |nodes| <= |more| && forall k :: 0 <= k < j ==> more[k].level == nodes[k].level
    ensures ScanBack(more, j, level) == ScanBack(nodes, j, level)
  {
    if j > 0 {
      ScanBackSame(nodes, more, j - 1, level);
    }
  }
}