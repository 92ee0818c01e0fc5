/** The axes as they are walked on the stored arrays, by sibling links, levels and owners. */
module AxisIterators {
  import opened Options
  import opened FastXdm
  import opened FastXdmNavigation
  import opened FastXdmDocument
  import opened DocumentOrder
  import opened Axes
  import opened PathTyping
  import opened StoredDocuments

  // The document has been built, and its end markers are in place.
  ghost predicate Complete(document: FastXDMDocument)
    reads document, document.nodes, document.attributes, document.namespaces
  {
    && document.Valid()
    && var s := document.Contents();
    && IsDocument(DocOf(s)) && s.nodes == DocOf(s).nodes + [MARKER]
    && (s.attrs == [] || s.attrs == DocOf(s).attrs + [ATTR_MARKER])
  }

  ghost function Stored(document: FastXDMDocument): seq<Node>
    requires Complete(document)
    reads document, document.nodes, document.attributes, document.namespaces
  {
    DocOf(document.Contents()).nodes
  }

  ghost function StoredAttributes(document: FastXDMDocument): seq<Attr>
    requires Complete(document)
    reads document, document.nodes, document.attributes, document.namespaces
  {
    DocOf(document.Contents()).attrs
  }

  lemma {:induction false} AscendingSkips(p: nat -> bool, a: nat, b: nat)
    requires a <= b && forall k: nat :: a <= k < b ==> !p(k)
    ensures Ascending(b, p) == Ascending(a, p)
  {
    if a < b {
      AscendingSkips(p, a, b - 1);
    }
  }

  lemma AscendingNone(p: nat -> bool, n: nat)
    requires forall k: nat :: k < n ==> !p(k)
    ensures Ascending(n, p) == []
  {
    AscendingSkips(p, 0, n);
  }

  // c is taken, and none after it before next.
  lemma AscendingTakes(p: nat -> bool, c: nat, next: nat)
    requires c < next && p(c) && forall k: nat :: c < k < next ==> !p(k)
    ensures Ascending(next, p) == Ascending(c, p) + [c]
  {
    AscendingSkips(p, c + 1, next);
  }

  lemma {:induction false} DescendingSkips(p: nat -> bool, a: nat, b: nat)
    requires a <= b && forall k: nat :: a <= k < b ==> !p(k)
    ensures Descending(b, p) == Descending(a, p)
  {
    if a < b {
      DescendingSkips(p, a, b - 1);
    }
  }

  lemma DescendingNone(p: nat -> bool, n: nat)
    requires forall k: nat :: k < n ==> !p(k)
    ensures Descending(n, p) == []
  {
    DescendingSkips(p, 0, n);
  }

  // c is taken, and none before it from next on.
  lemma DescendingTakes(p: nat -> bool, next: nat, c: nat)
    requires next <= c && p(c) && forall k: nat :: next <= k < c ==> !p(k)
    ensures Descending(c + 1, p) == [c] + Descending(next, p)
  {
    DescendingSkips(p, next, c);
  }

  // What the methods need to know of the arrays.
  lemma CompleteArrays(document: FastXDMDocument)
    requires Complete(document)
    ensures var all := Stored(document);
            && document.numNodes == |all| + 1 <= document.nodes.Length && all != []
            && document.nodes[|all|] == MARKER
            && (forall k :: 0 <= k < |all| ==> document.nodes[k] == all[k])
            && Levels(all) && Linked(all) && Containers(all)
            && forall k :: 0 <= k < |all| ==> !all[k].data.MarkerData?
  {
    hide Levels, Linked, Containers, OwnersRise, FirstAttribute, Ok;
    var s := document.Contents();
    assert s.nodes[..|s.nodes|] == s.nodes;
    assert s.nodes[|s.nodes| - 1] == MARKER;
  }

  // ----- down

  lemma LinkedAt(nodes: seq<Node>, c: nat)
    requires Linked(nodes) && c < |nodes|
    ensures nodes[c].nextSibling == Sibling(nodes, c)
  {
    assert LinkOf(nodes, c);
  }

  // c has the sibling link of a node, and next is what it says.
  ghost predicate NextIs(nodes: seq<Node>, c: nat, next: Option<nat>)
    requires c < |nodes|
  {
    match next
    case None => forall k :: c < k < |nodes| ==> !IsLater(nodes, k, c)
    case Some(n) => c < n < |nodes| && IsLater(nodes, n, c) && forall k :: c < k < n ==> nodes[k].level > nodes[c].level
  }

  lemma SiblingIs(nodes: seq<Node>, c: nat)
    requires c < |nodes|
    ensures NextIs(nodes, c, Sibling(nodes, c))
  {
    var r := ScanOn(nodes, c + 1, nodes[c].level);
    hide ScanOn;
    if Sibling(nodes, c) == None {
      forall k | c < k < |nodes| ensures !IsLater(nodes, k, c) {
        assert r != None ==> nodes[r.value].level <= nodes[c].level;
      }
    }
  }

  // The next child after a child.
  lemma NextChild(nodes: seq<Node>, node: nat, c: nat, next: Option<nat>)
    requires node < c < |nodes| && IsChild(nodes, c, node) && NextIs(nodes, c, next)
    ensures next != None ==> IsChild(nodes, next.value, node)
    ensures forall k :: c < k < |nodes| && (next == None || k < next.value) ==> !IsChild(nodes, k, node)
  {
    forall k | c < k < |nodes| && IsChild(nodes, k, node) ensures IsLater(nodes, k, c) {
    }
  }

  method ChildAxisNodes(document: FastXDMDocument, node: nat) returns (r: seq<nat>)
    requires Complete(document) && node < |Stored(document)| && IsContainer(Stored(document)[node])
    ensures r == NodesOnAxis(Stored(document), ChildAxis, node)
  {
    hide Complete, Linked, Ascending, Below, NextIs;
    ghost var all := Stored(document);
    CompleteArrays(document);
    ghost var p := OnNode(all, ChildAxis, node);
    r := [];
    var next: Option<nat> := None;
    if document.nodes[node + 1].level > document.nodes[node].level {
      next := Some(node + 1);
    }
    FirstChild(all, node, next);
    AscendingNone(p, if next == None then |all| else next.value);
    while next != None
      invariant next != None ==> node < next.value < |all| && IsChild(all, next.value, node)
      invariant r == Ascending(if next == None then |all| else next.value, p)
      decreases if next == None then 0 else |all| - next.value
    {
      var c := next.value;
      LinkedAt(all, c);
      SiblingIs(all, c);
      next := document.nodes[c].nextSibling;
      NextChild(all, node, c, next);
      NextIsLater(all, c, next);
      AscendingTakes(p, c, if next == None then |all| else next.value);
      r := r + [c];
    }
  }

  lemma NextIsLater(nodes: seq<Node>, c: nat, next: Option<nat>)
    requires c < |nodes| && NextIs(nodes, c, next)
    ensures next != None ==> c < next.value < |nodes|
  {
  }

  lemma FirstChild(nodes: seq<Node>, node: nat, next: Option<nat>)
    requires Levels(nodes) && node < |nodes|
    requires next == if node + 1 < |nodes| && nodes[node + 1].level > nodes[node].level then Some(node + 1) else None
    ensures next != None ==> IsChild(nodes, next.value, node)
    ensures forall k :: 0 <= k < |nodes| && (next == None || k < next.value) ==> !IsChild(nodes, k, node)
  {
    if next != None {
      assert StepsDown(nodes, node + 1);
    }
  }

  // The nodes from start up to c are below node.
  ghost predicate AllBelow(nodes: seq<Node>, node: nat, c: nat) {
    && node < c <= |nodes|
    && forall k :: node < k < c ==> nodes[k].level > nodes[node].level
  }

  method DescendantAxisNodes(document: FastXDMDocument, node: nat) returns (r: seq<nat>)
    requires Complete(document) && node < |Stored(document)| && IsContainer(Stored(document)[node])
    ensures r == NodesOnAxis(Stored(document), DescendantAxis, node)
  {
    hide Complete, Linked, Ascending, Levels, Containers;
    ghost var all := Stored(document);
    CompleteArrays(document);
    ghost var p := OnNode(all, DescendantAxis, node);
    r := [];
    var c: nat := node + 1;
    AscendingNone(p, c);
    while document.nodes[c].level > document.nodes[node].level
      invariant AllBelow(all, node, c) && r == Ascending(c, p)
      decreases |all| - c
    {
      AscendingTakes(p, c, c + 1);
      r := r + [c];
      c := c + 1;
    }
    BelowEnds(all, node, c);
    AscendingSkips(p, c, |all|);
  }

  method DescendantOrSelfAxisNodes(document: FastXDMDocument, node: nat) returns (r: seq<nat>)
    requires Complete(document) && node < |Stored(document)|
    ensures r == NodesOnAxis(Stored(document), DescendantOrSelfAxis, node)
  {
    hide Complete, Linked, Ascending, Levels, Containers;
    ghost var all := Stored(document);
    CompleteArrays(document);
    ghost var p := OnNode(all, DescendantOrSelfAxis, node);
    AscendingNone(p, node);
    AscendingTakes(p, node, node + 1);
    r := [node];
    var c: nat := node + 1;
    while document.nodes[c].level > document.nodes[node].level
      invariant AllBelow(all, node, c) && r == Ascending(c, p)
      decreases |all| - c
    {
      AscendingTakes(p, c, c + 1);
      r := r + [c];
      c := c + 1;
    }
    BelowEnds(all, node, c);
    AscendingSkips(p, c, |all|);
  }

  lemma BelowEnds(nodes: seq<Node>, node: nat, c: nat)
    requires node < c <= |nodes| && (c < |nodes| ==> nodes[c].level <= nodes[node].level)
    ensures forall k :: c <= k < |nodes| ==> !Below(nodes, k, node)
  {
  }

  // ----- up

  // The parent of c is the next ancestor of node.
  lemma NextAncestor(nodes: seq<Node>, node: nat, c: nat, parent: Option<nat>)
    requires c <= node < |nodes| && Below(nodes, node, c) && parent == Parent(nodes, c)
    ensures parent != None ==> parent.value < c && Below(nodes, node, parent.value)
    ensures forall k :: 0 <= k < c && (parent == None || parent.value < k) ==> !Below(nodes, node, k)
  {
    hide ScanBack;
  }

  method ParentOf(document: FastXDMDocument, node: nat) returns (r: Option<nat>)
    requires Complete(document) && node < |Stored(document)|
    ensures r == Parent(Stored(document), node)
  {
    hide Linked, Containers, Attributed, Ok;
    ghost var all, s := Stored(document), document.Contents();
    LevelsOfPrefix(all, node + 1);
    assert s.nodes[..node + 1] == all[..node + 1];
    ScanBackSame(all, s.nodes, node, all[node].level);
    r := document.GetParent(node);
  }

  lemma LevelsOfPrefix(nodes: seq<Node>, n: nat)
    requires Levels(nodes) && n <= |nodes|
    ensures Levels(nodes[..n])
  {
    forall k | 1 <= k < n ensures StepsDown(nodes[..n], k) {
      assert StepsDown(nodes, k);
    }
  }

  method AncestorAxisNodes(document: FastXDMDocument, node: nat) returns (r: seq<nat>)
    requires Complete(document) && node < |Stored(document)|
    ensures r == NodesOnAxis(Stored(document), AncestorAxis, node)
  {
    hide Complete, Descending, Below, Parent;
    ghost var all := Stored(document);
    ghost var p := OnNode(all, AncestorAxis, node);
    r := [];
    BelowItself(all, node);
    var c: Option<nat> := ParentOf(document, node);
    NextAncestor(all, node, node, c);
    NotBelowEarlier(all, node);
    DescendingSkips(p, if c == None then 0 else c.value + 1, |all|);
    while c != None
      invariant c != None ==> c.value < node && Below(all, node, c.value)
      invariant r + Descending(if c == None then 0 else c.value + 1, p) == Descending(|all|, p)
      decreases if c == None then 0 else c.value + 1
    {
      var k: nat := c.value;
      c := ParentOf(document, k);
      NextAncestor(all, node, k, c);
      DescendingTakes(p, if c == None then 0 else c.value + 1, k);
      r := r + [k];
    }
    DescendingNone(p, 0);
  }

  method AncestorOrSelfAxisNodes(document: FastXDMDocument, node: nat) returns (r: seq<nat>)
    requires Complete(document) && node < |Stored(document)|
    ensures r == NodesOnAxis(Stored(document), AncestorOrSelfAxis, node)
  {
    hide Complete, Descending, Below, Parent;
    ghost var all := Stored(document);
    ghost var p := OnNode(all, AncestorOrSelfAxis, node);
    r := [];
    BelowItself(all, node);
    NotBelowEarlier(all, node);
    DescendingSkips(p, node + 1, |all|);
    var c: Option<nat> := Some(node);
    while c != None
      invariant c != None ==> c.value <= node && Below(all, node, c.value)
      invariant r + Descending(if c == None then 0 else c.value + 1, p) == Descending(|all|, p)
      decreases if c == None then 0 else c.value + 1
    {
      var k: nat := c.value;
      c := ParentOf(document, k);
      NextAncestor(all, node, k, c);
      DescendingTakes(p, if c == None then 0 else c.value + 1, k);
      r := r + [k];
    }
    DescendingNone(p, 0);
  }

  lemma BelowItself(nodes: seq<Node>, node: nat)
    requires node < |nodes|
    ensures Below(nodes, node, node)
  {
  }

  lemma NotBelowEarlier(nodes: seq<Node>, node: nat)
    requires node < |nodes|
    ensures forall k :: node < k < |nodes| ==> !Below(nodes, node, k)
  {
  }

  // ----- sideways

  method FollowingSiblingAxisNodes(document: FastXDMDocument, node: nat) returns (r: seq<nat>)
    requires Complete(document) && node < |Stored(document)|
    ensures r == NodesOnAxis(Stored(document), FollowingSiblingAxis, node)
  {
    hide Complete, Linked, Ascending, IsLater, NextIs, Levels, Containers;
    ghost var all := Stored(document);
    CompleteArrays(document);
    ghost var p := OnNode(all, FollowingSiblingAxis, node);
    r := [];
    LinkedAt(all, node);
    SiblingIs(all, node);
    var next := document.nodes[node].nextSibling;
    FirstSibling(all, node, next);
    AscendingNone(p, if next == None then |all| else next.value);
    while next != None
      invariant next != None ==> node < next.value < |all| && IsLater(all, next.value, node)
      invariant r == Ascending(if next == None then |all| else next.value, p)
      decreases if next == None then 0 else |all| - next.value
    {
      var c := next.value;
      LinkedAt(all, c);
      SiblingIs(all, c);
      next := document.nodes[c].nextSibling;
      NextSibling(all, node, c, next);
      AscendingTakes(p, c, if next == None then |all| else next.value);
      r := r + [c];
    }
  }

  lemma FirstSibling(nodes: seq<Node>, node: nat, next: Option<nat>)
    requires node < |nodes| && NextIs(nodes, node, next)
    ensures next != None ==> node < next.value < |nodes| && IsLater(nodes, next.value, node)
    ensures forall k :: 0 <= k < |nodes| && (next == None || k < next.value) ==> !IsLater(nodes, k, node)
  {
  }

  lemma NextSibling(nodes: seq<Node>, node: nat, c: nat, next: Option<nat>)
    requires node < c < |nodes| && IsLater(nodes, c, node) && NextIs(nodes, c, next)
    ensures next != None ==> c < next.value < |nodes| && IsLater(nodes, next.value, node)
    ensures forall k :: c < k < |nodes| && (next == None || k < next.value) ==> !IsLater(nodes, k, node)
  {
    forall k | c < k < |nodes| && IsLater(nodes, k, node) ensures IsLater(nodes, k, c) {
    }
  }

  method PrecedingSiblingAxisNodes(document: FastXDMDocument, node: nat) returns (r: seq<nat>)
    requires Complete(document) && node < |Stored(document)|
    ensures r == NodesOnAxis(Stored(document), PrecedingSiblingAxis, node)
  {
    hide Complete, Linked, Descending, IsLater, Levels, Containers;
    ghost var all := Stored(document);
    CompleteArrays(document);
    RootIsFirst(all);
    ghost var p := OnNode(all, PrecedingSiblingAxis, node);
    r := [];
    var level, c := document.nodes[node].level, node;
    NotLaterBefore(all, node);
    DescendingSkips(p, node, |all|);
    var done := level == 0;
    if done {
      DescendingNone(p, node);
    }
    while !done
      invariant 0 <= c <= node && all[c].level == level && (c < node ==> IsLater(all, node, c))
      invariant done == (level == 0) || done
      invariant r + Descending(c, p) == Descending(|all|, p)
      invariant done ==> Descending(c, p) == []
      decreases !done, c
    {
      var k := c - 1;
      while document.nodes[k].level > level
        invariant 0 <= k < c && forall m :: k < m < c ==> all[m].level > level
        decreases k
      {
        k := k - 1;
      }
      PreviousSibling(all, node, c, k);
      if document.nodes[k].level < level {
        done := true;
        DescendingNone(p, c);
      } else {
        DescendingSkips(p, k + 1, c);
        DescendingTakes(p, k, k);
        r := r + [k];
        c := k;
      }
    }
  }

  lemma RootIsFirst(nodes: seq<Node>)
    requires Levels(nodes) && nodes != []
    ensures nodes[0].level == 0 && forall k :: 0 < k < |nodes| ==> nodes[k].level > 0
  {
    forall k | 0 < k < |nodes| ensures nodes[k].level > 0 {
      assert StepsDown(nodes, k);
    }
  }

  lemma NotLaterBefore(nodes: seq<Node>, node: nat)
    requires node < |nodes|
    ensures forall k :: node <= k < |nodes| ==> !IsLater(nodes, node, k)
  {
  }

  // From a sibling c of node, or node itself, back to k, with only deeper nodes in between.
  lemma PreviousSibling(nodes: seq<Node>, node: nat, c: nat, k: nat)
    requires k < c <= node < |nodes| && nodes[c].level == nodes[node].level && (c < node ==> IsLater(nodes, node, c))
    requires nodes[k].level <= nodes[node].level && forall m :: k < m < c ==> nodes[m].level > nodes[node].level
    ensures nodes[k].level == nodes[node].level ==> IsLater(nodes, node, k)
    ensures forall m :: k < m < c ==> !IsLater(nodes, node, m)
    ensures nodes[k].level < nodes[node].level ==> forall m :: 0 <= m < c ==> !IsLater(nodes, node, m)
  {
  }

  // ----- before and after

  method FollowingAxisNodes(document: FastXDMDocument, node: nat) returns (r: seq<nat>)
    requires Complete(document) && node < |Stored(document)|
    ensures r == NodesOnAxis(Stored(document), FollowingAxis, node)
  {
    hide Complete, Linked, Ascending, NextIs, Levels, Containers;
    ghost var all := Stored(document);
    CompleteArrays(document);
    ghost var p := OnNode(all, FollowingAxis, node);
    r := [];
    LinkedAt(all, node);
    SiblingIs(all, node);
    var next := document.nodes[node].nextSibling;
    var c: nat := node + 1;
    if next != None {
      c := next.value;
      AfterSibling(all, node, c);
    } else {
      while document.nodes[c].level > document.nodes[node].level
        invariant AllBelow(all, node, c)
        decreases |all| - c
      {
        c := c + 1;
      }
    }
    assert AllBelow(all, node, c) && (c < |all| ==> all[c].level <= all[node].level);
    BelowEnds(all, node, c);
    AscendingNone(p, c);
    while document.nodes[c].data != MarkerData
      invariant node < c <= |all| && r == Ascending(c, p)
      invariant forall k :: c <= k < |all| ==> !Below(all, k, node)
      decreases |all| - c
    {
      AscendingTakes(p, c, c + 1);
      r := r + [c];
      c := c + 1;
    }
  }

  lemma AfterSibling(nodes: seq<Node>, node: nat, c: nat)
    requires node < |nodes| && NextIs(nodes, node, Some(c))
    ensures AllBelow(nodes, node, c) && nodes[c].level == nodes[node].level
  {
  }

  method PrecedingAxisNodes(document: FastXDMDocument, node: nat) returns (r: seq<nat>)
    requires Complete(document) && node < |Stored(document)|
    ensures r == NodesOnAxis(Stored(document), PrecedingAxis, node)
  {
    hide Complete, Linked, Descending, Levels, Containers, Below, UpFrom;
    ghost var all := Stored(document);
    CompleteArrays(document);
    RootIsFirst(all);
    ghost var p := OnNode(all, PrecedingAxis, node);
    r := [];
    DescendingSkips(p, node, |all|);
    var c: nat, level := node, document.nodes[node].level as int - 1;
    UpStarts(all, node);
    while document.nodes[c].level != 0
      invariant c <= node && UpFrom(all, node, c, level)
      invariant r + Descending(c, p) == Descending(|all|, p)
      decreases c
    {
      UpOne(all, node, c, level);
      c := c - 1;
      if document.nodes[c].level == level {
        level := document.nodes[c].level as int - 1;
        DescendingSkips(p, c, c + 1);
      } else {
        DescendingTakes(p, c, c);
        r := r + [c];
      }
    }
    DescendingNone(p, 0);
  }

  // The last ancestor met between c and node is one level below the given one, and no node
  // between c and that ancestor is above it.
  ghost predicate UpFrom(nodes: seq<Node>, node: nat, c: nat, level: int)
    requires c <= node < |nodes|
  {
    exists a :: c <= a <= node && LastMet(nodes, node, c, a, level)
  }

  ghost predicate LastMet(nodes: seq<Node>, node: nat, c: nat, a: nat, level: int)
    requires c <= a <= node < |nodes|
  {
    Below(nodes, node, a) && nodes[a].level == level + 1 && forall m :: c <= m < a ==> nodes[m].level > level
  }

  lemma UpStarts(nodes: seq<Node>, node: nat)
    requires node < |nodes|
    ensures UpFrom(nodes, node, node, nodes[node].level as int - 1)
  {
    assert LastMet(nodes, node, node, node, nodes[node].level as int - 1);
  }

  lemma UpOne(nodes: seq<Node>, node: nat, c: nat, level: int)
    requires Levels(nodes) && 0 < c <= node < |nodes| && UpFrom(nodes, node, c, level)
    ensures nodes[c - 1].level == level ==> Below(nodes, node, c - 1) && UpFrom(nodes, node, c - 1, level - 1)
    ensures nodes[c - 1].level != level ==> !Below(nodes, node, c - 1) && UpFrom(nodes, node, c - 1, level)
  {
    var a :| c <= a <= node && LastMet(nodes, node, c, a, level);
    assert StepsDown(nodes, c);
    assert nodes[c].level > level && nodes[c - 1].level >= level;
    if nodes[c - 1].level == level {
      assert LastMet(nodes, node, c - 1, c - 1, level - 1);
    } else {
      assert LastMet(nodes, node, c - 1, a, level);
    }
  }

  // ----- attributes

  method AttributeAxisNodes(document: FastXDMDocument, node: nat) returns (r: seq<nat>)
    requires Complete(document) && node < |Stored(document)| && Stored(document)[node].data.ElementData?
    ensures var attrs := StoredAttributes(document); r == Ascending(|attrs|, OwnedBy(attrs, node))
  {
    hide Complete, Ascending, Linked, Levels, Containers, OwnersRise;
    ghost var attrs := StoredAttributes(document);
    CompleteArrays(document);
    CompleteAttributes(document, node);
    ghost var p := OwnedBy(attrs, node);
    r := [];
    var first := document.nodes[node].data.attributes;
    if first == None {
      AscendingNone(p, |attrs|);
    } else {
      var attr := first.value;
      AscendingNone(p, attr);
      while document.attributes[attr].owner == Some(node)
        invariant first.value <= attr <= |attrs| && r == Ascending(attr, p)
        invariant attr < |attrs| ==> attrs[attr].owner == document.attributes[attr].owner
        decreases |attrs| - attr
      {
        AscendingTakes(p, attr, attr + 1);
        r := r + [attr];
        attr := attr + 1;
      }
      RunEnds(attrs, node, first.value, attr);
      AscendingSkips(p, attr, |attrs|);
    }
  }

  lemma CompleteAttributes(document: FastXDMDocument, node: nat)
    requires Complete(document) && node < |Stored(document)| && Stored(document)[node].data.ElementData?
    ensures var attrs := StoredAttributes(document);
            && FirstAttribute(attrs, node, Stored(document)[node].data.attributes)
            && OwnersRise(attrs) && (forall k :: 0 <= k < |attrs| ==> attrs[k].owner != None)
            && (attrs != [] ==> |attrs| < document.attributes.Length && document.attributes[|attrs|] == ATTR_MARKER)
            && |attrs| <= document.attributes.Length
            && forall k :: 0 <= k < |attrs| ==> document.attributes[k] == attrs[k]
  {
    hide Levels, Linked, Containers, Ok;
    var s := document.Contents();
    if s.attrs != [] {
      assert s.attrs[|s.attrs| - 1] == ATTR_MARKER;
      assert DocOf(s).attrs == s.attrs[..|s.attrs| - 1];
    }
  }

  // After the run of the node's attributes come later owners.
  lemma RunEnds(attrs: seq<Attr>, node: nat, first: nat, end: nat)
    requires OwnersRise(attrs) && first < end <= |attrs| && attrs[first].owner == Some(node)
    requires forall k :: 0 <= k < |attrs| ==> attrs[k].owner != None
    requires end < |attrs| ==> attrs[end].owner != Some(node)
    ensures forall k :: end <= k < |attrs| ==> attrs[k].owner != Some(node)
  {
    if end < |attrs| {
      assert attrs[first].owner.value <= attrs[end].owner.value;
    }
  }

  // ----- every axis

  method ParentAxisNodes(document: FastXDMDocument, node: nat) returns (r: seq<nat>)
    requires Complete(document) && node < |Stored(document)|
    ensures r == NodesOnAxis(Stored(document), ParentAxis, node)
  {
    hide Complete, Descending, Below, Parent, Linked, Containers;
    ghost var all := Stored(document);
    CompleteArrays(document);
    ghost var p := OnNode(all, ParentAxis, node);
    var c := ParentOf(document, node);
    OnlyParent(all, node, c);
    if c == None {
      r := [];
      DescendingNone(p, |all|);
    } else {
      r := [c.value];
      DescendingSkips(p, c.value + 1, |all|);
      DescendingTakes(p, 0, c.value);
      DescendingNone(p, 0);
    }
  }

  lemma OnlyParent(nodes: seq<Node>, node: nat, parent: Option<nat>)
    requires Levels(nodes) && node < |nodes| && parent == Parent(nodes, node)
    ensures parent != None ==> parent.value < node
    ensures forall k :: 0 <= k < |nodes| ==> (IsChild(nodes, node, k) <==> parent == Some(k))
  {
    hide ScanBack;
    if node > 0 {
      ParentIsOneUp(nodes, node);
    }
  }

  /** Whatever the axis, the walk over the stored arrays delivers its nodes, in its order. */
  method AxisNodes(document: FastXDMDocument, axis: Axis, node: nat) returns (r: seq<nat>)
    requires Complete(document) && node < |Stored(document)|
    ensures r == NodesOnAxis(Stored(document), axis, node)
  {
    hide Linked, Containers, Attributed, Levels, Ok, Ascending, Descending, Below;
    ghost var all := Stored(document);
    ghost var p := OnNode(all, axis, node);
    if (axis == ChildAxis || axis == DescendantAxis) && !IsContainer(document.nodes[node]) {
      AscendingNone(p, |all|);
      return [];
    }
    match axis {
      case SelfAxis =>
        r := [node];
        AscendingNone(p, node);
        AscendingTakes(p, node, |all|);
      case ChildAxis => r := ChildAxisNodes(document, node);
      case AttributeAxis =>
        r := [];
        AscendingNone(p, |all|);
      case DescendantAxis => r := DescendantAxisNodes(document, node);
      case DescendantOrSelfAxis => r := DescendantOrSelfAxisNodes(document, node);
      case FollowingSiblingAxis => r := FollowingSiblingAxisNodes(document, node);
      case PrecedingSiblingAxis => r := PrecedingSiblingAxisNodes(document, node);
      case FollowingAxis => r := FollowingAxisNodes(document, node);
      case PrecedingAxis => r := PrecedingAxisNodes(document, node);
      case ParentAxis => r := ParentAxisNodes(document, node);
      case AncestorAxis => r := AncestorAxisNodes(document, node);
      case AncestorOrSelfAxis => r := AncestorOrSelfAxisNodes(document, node);
    }
  }

  /** A document built from any well-formed tree is ready for its axes to be walked. */
  method BuildDocument(t: Tree, maxNodes: nat, maxAttributes: nat, maxNamespaces: nat)
      returns (document: FastXDMDocument)
    requires WellFormed(t) && HasSlots(TreeEvents(t), maxNodes, maxAttributes, maxNamespaces)
    ensures Complete(document) && fresh(document)
    ensures Encodes(Stored(document), StoredAttributes(document), 0, Merge(t), 0)
  {
    hide Run, AllSafe, TreeEvents, IsDocument, Encodes, Merge, Finish;
    document := new FastXDMDocument(maxNodes, maxAttributes, maxNamespaces);
    TreeIsDocument(t);
    BuildsTree(t);
    Feed(document, TreeEvents(t));
    WithoutMarkers(document.Contents(), t);
  }

  // The end markers are not part of the tree.
  lemma WithoutMarkers(s: Store, t: Tree)
    requires Finished(s, t) && s.nodes == DocOf(s).nodes + [MARKER]
    requires s.attrs == [] || s.attrs == DocOf(s).attrs + [ATTR_MARKER]
    ensures Encodes(DocOf(s).nodes, DocOf(s).attrs, 0, Merge(t), 0)
  {
    EncodesShrinks(s.nodes, s.attrs, DocOf(s).nodes, DocOf(s).attrs, 0, Merge(t), 0);
  }

  lemma {:induction false} EncodesShrinks(nodes: seq<Node>, attrs: seq<Attr>, less: seq<Node>, fewer: seq<Attr>,
      i: nat, t: Tree, level: nat)
    requires Encodes(nodes, attrs, i, t, level) && i + Size(t) <= |less|
    requires nodes == less + [MARKER] && (attrs == fewer || attrs == fewer + [ATTR_MARKER])
    ensures Encodes(less, fewer, i, t, level)
    decreases t, 0
  {
    match t {
      case DocumentTree(_, _, kids) => KidsShrink(nodes, attrs, less, fewer, i + 1, kids, level + 1);
      case ElementTree(_, members, kids, _) =>
        KidsShrink(nodes, attrs, less, fewer, i + 1, kids, level + 1);
        RunShrinks(attrs, fewer, i, nodes[i].data.attributes, members);
      case _ =>
    }
  }

  lemma {:induction false} KidsShrink(nodes: seq<Node>, attrs: seq<Attr>, less: seq<Node>, fewer: seq<Attr>, i: nat,
      kids: seq<Tree>, level: nat)
    requires EncodesAll(nodes, attrs, i, kids, level) && i + SizeAll(kids) <= |less|
    requires nodes == less + [MARKER] && (attrs == fewer || attrs == fewer + [ATTR_MARKER])
    ensures EncodesAll(less, fewer, i, kids, level)
    decreases kids, 1
  {
    if kids != [] {
      EncodesShrinks(nodes, attrs, less, fewer, i, kids[0], level);
      KidsShrink(nodes, attrs, less, fewer, i + Size(kids[0]), kids[1..], level);
    }
  }

  lemma RunShrinks(attrs: seq<Attr>, fewer: seq<Attr>, owner: nat, first: Option<nat>, run: seq<Member>)
    requires AttributeRun(attrs, owner, first, run) && (attrs == fewer || attrs == fewer + [ATTR_MARKER])
    ensures AttributeRun(fewer, owner, first, run)
  {
    assert forall k :: 0 <= k < |fewer| ==> fewer[k] == attrs[k];
    if first != None {
      assert attrs[first.value + |run| - 1].owner == Some(owner);
    }
  }
}
