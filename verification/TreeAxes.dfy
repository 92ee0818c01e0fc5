/** The axes in terms of trees. */
module TreeAxes {
  // Where the nodes of a tree stand in the store that encodes it, and what each axis selects,
  // said by the paths of child numbers that lead to the nodes.

  import opened Options
  import opened Events
  import opened FastXdm
  import opened FastXdmNavigation
  import opened DocumentOrder
  import opened Axes
  import opened PathExpressions
  import opened PathMeaning
  import opened StoredDocuments
  import opened AxisIterators

  // The number of the child to go to at each step.
  type Path = seq<nat>

  function Kids(t: Tree): seq<Tree> {
    match t
    case DocumentTree(_, _, kids) => kids
    case ElementTree(_, _, kids, _) => kids
    case _ => []
  }

  predicate IsPath(t: Tree, p: Path) {
    p == [] || (p[0] < |Kids(t)| && IsPath(Kids(t)[p[0]], p[1..]))
  }

  function Subtree(t: Tree, p: Path): Tree
    requires IsPath(t, p)
  {
    if p == [] then t else Subtree(Kids(t)[p[0]], p[1..])
  }

  // The index of the node at the path, if the tree starts at index i.
  function IndexOf(t: Tree, i: nat, p: Path): nat
    requires IsPath(t, p)
  {
    if p == [] then i else IndexOf(Kids(t)[p[0]], KidAt(t, i, p[0]), p[1..])
  }

  function KidAt(t: Tree, i: nat, j: nat): nat
    requires j <= |Kids(t)|
  {
    i + 1 + SizeAll(Kids(t)[..j])
  }

  predicate IsPrefix(p: Path, q: Path) {
    |p| <= |q| && p == q[..|p|]
  }

  // In preorder: a node before its children, and those from the first to the last.
  predicate Earlier(p: Path, q: Path) {
    q != [] && (p == [] || p[0] < q[0] || (p[0] == q[0] && Earlier(p[1..], q[1..])))
  }

  /** What the axes select, by the paths of the context node and of the result. */
  predicate OnTree(axis: Axis, p: Path, q: Path) {
    match axis
    case SelfAxis => q == p
    case ChildAxis => |q| == |p| + 1 && IsPrefix(p, q)
    case AttributeAxis => false
    case DescendantAxis => IsPrefix(p, q) && q != p
    case DescendantOrSelfAxis => IsPrefix(p, q)
    case FollowingSiblingAxis => AreSiblings(p, q) && p[|p| - 1] < q[|q| - 1]
    case PrecedingSiblingAxis => AreSiblings(p, q) && q[|q| - 1] < p[|p| - 1]
    case FollowingAxis => Earlier(p, q) && !IsPrefix(p, q)
    case PrecedingAxis => Earlier(q, p) && !IsPrefix(q, p)
    case ParentAxis => |p| == |q| + 1 && IsPrefix(q, p)
    case AncestorAxis => IsPrefix(q, p) && q != p
    case AncestorOrSelfAxis => IsPrefix(q, p)
  }

  predicate AreSiblings(p: Path, q: Path) {
    |p| == |q| && p != [] && p[..|p| - 1] == q[..|q| - 1]
  }

  // ----- sizes

  lemma {:induction false} SizesAt(kids: seq<Tree>, j: nat)
    requires j < |kids|
    ensures SizeAll(kids[..j + 1]) == SizeAll(kids[..j]) + Size(kids[j])
    ensures SizeAll(kids[..j + 1]) <= SizeAll(kids)
    decreases j
  {
    var rest := kids[1..];
    assert kids[..j + 1][1..] == rest[..j];
    if j > 0 {
      assert kids[..j][1..] == rest[..j - 1];
      SizesAt(rest, j - 1);
    } else {
      assert kids[..0] == [] && rest[..0] == [];
    }
  }

  lemma {:induction false} SizesRise(kids: seq<Tree>, j: nat, m: nat)
    requires j < m <= |kids|
    ensures SizeAll(kids[..j]) + Size(kids[j]) <= SizeAll(kids[..m]) <= SizeAll(kids)
    decreases m
  {
    SizesAt(kids, m - 1);
    if j < m - 1 {
      SizesRise(kids, j, m - 1);
    }
  }

  lemma SizeIs(t: Tree)
    ensures Size(t) == 1 + SizeAll(Kids(t))
  {
  }

  lemma {:induction false} SizePositive(t: Tree)
    ensures Size(t) >= 1
  {
  }

  // A child's place is within that of its parent.
  lemma KidWithin(t: Tree, i: nat, j: nat)
    requires j < |Kids(t)|
    ensures i < KidAt(t, i, j) && KidAt(t, i, j) + Size(Kids(t)[j]) == KidAt(t, i, j + 1) <= i + Size(t)
  {
    SizeIs(t);
    SizesAt(Kids(t), j);
  }

  lemma {:induction false} PathWithin(t: Tree, i: nat, p: Path)
    requires IsPath(t, p)
    ensures i <= IndexOf(t, i, p) && IndexOf(t, i, p) + Size(Subtree(t, p)) <= i + Size(t)
    ensures p != [] ==> i < IndexOf(t, i, p)
    decreases |p|
  {
    if p != [] {
      KidWithin(t, i, p[0]);
      PathWithin(Kids(t)[p[0]], KidAt(t, i, p[0]), p[1..]);
    }
  }

  // ----- places and paths

  lemma PrefixTail(p: Path, q: Path)
    requires p != [] && q != []
    ensures IsPrefix(p, q) <==> p[0] == q[0] && IsPrefix(p[1..], q[1..])
  {
    if p[0] == q[0] && IsPrefix(p[1..], q[1..]) {
      assert p == [p[0]] + p[1..] && q[..|p|] == [q[0]] + q[1..][..|p| - 1];
    }
    if IsPrefix(p, q) {
      assert p[1..] == q[1..][..|p| - 1];
    }
  }

  lemma KidsApart(t: Tree, i: nat, j: nat, m: nat)
    requires j < m < |Kids(t)|
    ensures KidAt(t, i, j) + Size(Kids(t)[j]) <= KidAt(t, i, m)
  {
    SizesRise(Kids(t), j, m);
  }

  /** The nodes at and below the node at a path are those in its place; and the order of places
      is preorder. */
  lemma {:induction false} PlacesOf(t: Tree, i: nat, p: Path, q: Path)
    requires IsPath(t, p) && IsPath(t, q)
    ensures IsPrefix(p, q) <==> IndexOf(t, i, p) <= IndexOf(t, i, q) < IndexOf(t, i, p) + Size(Subtree(t, p))
    ensures Earlier(p, q) <==> IndexOf(t, i, p) < IndexOf(t, i, q)
    decreases |p|
  {
    PathWithin(t, i, p);
    PathWithin(t, i, q);
    SizePositive(Subtree(t, q));
    if p != [] && q != [] {
      PrefixTail(p, q);
      var a, b := p[0], q[0];
      PathWithin(Kids(t)[a], KidAt(t, i, a), p[1..]);
      PathWithin(Kids(t)[b], KidAt(t, i, b), q[1..]);
      if a == b {
        PlacesOf(Kids(t)[a], KidAt(t, i, a), p[1..], q[1..]);
      } else if a < b {
        KidsApart(t, i, a, b);
      } else {
        KidsApart(t, i, b, a);
      }
    }
  }

  // Different paths lead to different places.
  lemma PlacesDiffer(t: Tree, i: nat, p: Path, q: Path)
    requires IsPath(t, p) && IsPath(t, q)
    ensures IndexOf(t, i, p) == IndexOf(t, i, q) <==> p == q
  {
    if IndexOf(t, i, p) == IndexOf(t, i, q) {
      SizePositive(Subtree(t, p));
      SizePositive(Subtree(t, q));
      PlacesOf(t, i, p, q);
      PlacesOf(t, i, q, p);
    }
  }

  lemma KidOf(t: Tree, i: nat, k: nat) returns (j: nat)
    requires i < k < i + Size(t)
    ensures j < |Kids(t)| && KidAt(t, i, j) <= k < KidAt(t, i, j) + Size(Kids(t)[j])
  {
    SizeIs(t);
    j := 0;
    var kids := Kids(t);
    assert kids[..0] == [] && kids[..|kids|] == kids;
    while k >= KidAt(t, i, j + 1)
      invariant j < |kids| && KidAt(t, i, j) <= k
      decreases |kids| - j
    {
      j := j + 1;
    }
    KidWithin(t, i, j);
  }

  /** Every place is that of some path. */
  lemma {:induction false} PathTo(t: Tree, i: nat, k: nat) returns (p: Path)
    requires i <= k < i + Size(t)
    ensures IsPath(t, p) && IndexOf(t, i, p) == k
    decreases t
  {
    if k == i {
      p := [];
    } else {
      var j := KidOf(t, i, k);
      var rest := PathTo(Kids(t)[j], KidAt(t, i, j), k);
      p := [j] + rest;
    }
  }

  // ----- the store

  // The nodes of the tree are deeper than its root, and what follows them is not.
  ghost predicate Closed(nodes: seq<Node>, i: nat, size: nat, level: nat) {
    && 0 < size && i + size <= |nodes| && nodes[i].level == level
    && (forall k :: i < k < i + size ==> nodes[k].level > level)
    && (i + size < |nodes| ==> nodes[i + size].level <= level)
  }

  lemma {:induction false} EncodedKid(nodes: seq<Node>, attrs: seq<Attr>, i: nat, kids: seq<Tree>, j: nat, level: nat)
    requires EncodesAll(nodes, attrs, i, kids, level) && j < |kids|
    ensures Encodes(nodes, attrs, i + SizeAll(kids[..j]), kids[j], level)
    decreases j
  {
    if j > 0 {
      EncodedKid(nodes, attrs, i + Size(kids[0]), kids[1..], j - 1, level);
      assert kids[..j][1..] == kids[1..][..j - 1];
    } else {
      assert kids[..0] == [];
    }
  }

  lemma {:induction false} LevelsWithin(nodes: seq<Node>, attrs: seq<Attr>, i: nat, t: Tree, level: nat)
    requires Encodes(nodes, attrs, i, t, level)
    ensures i + Size(t) <= |nodes| && forall k :: i < k < i + Size(t) ==> nodes[k].level > level
    decreases t, 0
  {
    SizeIs(t);
    if Kids(t) != [] {
      LevelsWithinAll(nodes, attrs, i + 1, Kids(t), level + 1);
    }
  }

  lemma {:induction false} LevelsWithinAll(nodes: seq<Node>, attrs: seq<Attr>, i: nat, kids: seq<Tree>, level: nat)
    requires EncodesAll(nodes, attrs, i, kids, level) && i <= |nodes|
    ensures i + SizeAll(kids) <= |nodes| && forall k :: i <= k < i + SizeAll(kids) ==> nodes[k].level >= level
    decreases kids, 1
  {
    if kids != [] {
      LevelsWithin(nodes, attrs, i, kids[0], level);
      LevelsWithinAll(nodes, attrs, i + Size(kids[0]), kids[1..], level);
    }
  }

  lemma KidClosed(nodes: seq<Node>, attrs: seq<Attr>, i: nat, t: Tree, j: nat, level: nat)
    requires Encodes(nodes, attrs, i, t, level) && Closed(nodes, i, Size(t), level) && j < |Kids(t)|
    ensures var k, kid := KidAt(t, i, j), Kids(t)[j];
            Encodes(nodes, attrs, k, kid, level + 1) && Closed(nodes, k, Size(kid), level + 1)
  {
    var kids, k := Kids(t), KidAt(t, i, j);
    EncodedKid(nodes, attrs, i + 1, kids, j, level + 1);
    LevelsWithin(nodes, attrs, k, kids[j], level + 1);
    SizePositive(kids[j]);
    KidWithin(t, i, j);
    if j + 1 < |kids| {
      EncodedKid(nodes, attrs, i + 1, kids, j + 1, level + 1);
    } else {
      assert kids[..j + 1] == kids;
      SizeIs(t);
    }
  }

  /** At the place of every path the store encodes the subtree there. */
  lemma {:induction false} PathEncoded(nodes: seq<Node>, attrs: seq<Attr>, i: nat, t: Tree, level: nat, p: Path)
    requires Encodes(nodes, attrs, i, t, level) && Closed(nodes, i, Size(t), level) && IsPath(t, p)
    ensures var k, sub := IndexOf(t, i, p), Subtree(t, p);
            Encodes(nodes, attrs, k, sub, level + |p|) && Closed(nodes, k, Size(sub), level + |p|)
    decreases |p|
  {
    hide Encodes, Closed;
    if p != [] {
      KidClosed(nodes, attrs, i, t, p[0], level);
      PathEncoded(nodes, attrs, KidAt(t, i, p[0]), Kids(t)[p[0]], level + 1, p[1..]);
    }
  }

  lemma BelowClosed(nodes: seq<Node>, k: nat, i: nat, size: nat, level: nat)
    requires Closed(nodes, i, size, level) && k < |nodes|
    ensures Below(nodes, k, i) <==> i <= k < i + size
  {
    if k >= i + size {
      assert nodes[i + size].level <= nodes[i].level;
    }
  }

  // A tree in a store, with the index and the level of its root.
  ghost predicate Stands(nodes: seq<Node>, attrs: seq<Attr>, t: Tree) {
    Encodes(nodes, attrs, 0, t, 0) && Closed(nodes, 0, Size(t), 0) && |nodes| == Size(t)
  }

  /** Below means: at the end of a path that goes on; and the level is the length of the path. */
  lemma BelowIs(nodes: seq<Node>, attrs: seq<Attr>, t: Tree, p: Path, q: Path)
    requires Stands(nodes, attrs, t) && IsPath(t, p) && IsPath(t, q)
    ensures var i, k := IndexOf(t, 0, p), IndexOf(t, 0, q);
            && i < |nodes| && k < |nodes| && nodes[i].level == |p| && nodes[k].level == |q|
            && (Below(nodes, k, i) <==> IsPrefix(p, q))
  {
    hide Encodes;
    PathEncoded(nodes, attrs, 0, t, 0, p);
    PathEncoded(nodes, attrs, 0, t, 0, q);
    BelowClosed(nodes, IndexOf(t, 0, q), IndexOf(t, 0, p), Size(Subtree(t, p)), |p|);
    PlacesOf(t, 0, p, q);
  }

  // ----- the axes

  lemma {:induction false} PrefixIsPath(t: Tree, p: Path, q: Path)
    requires IsPath(t, q) && IsPrefix(p, q)
    ensures IsPath(t, p) && (p != q ==> Kids(Subtree(t, p)) != [])
    decreases |p|
  {
    if p != [] {
      PrefixTail(p, q);
      assert p == [p[0]] + p[1..] && q == [q[0]] + q[1..];
      PrefixIsPath(Kids(t)[p[0]], p[1..], q[1..]);
    }
  }

  lemma {:induction false} SiblingOrder(p: Path, q: Path)
    requires AreSiblings(p, q)
    ensures Earlier(p, q) <==> p[|p| - 1] < q[|q| - 1]
    decreases |p|
  {
    var n := |p| - 1;
    if n > 0 {
      assert p[..n][0] == q[..n][0];
      assert p[1..][..n - 1] == p[..n][1..] && q[1..][..n - 1] == q[..n][1..];
      SiblingOrder(p[1..], q[1..]);
    }
  }

  // From sibling to sibling nothing is higher up.
  lemma SiblingsAreLater(nodes: seq<Node>, attrs: seq<Attr>, t: Tree, p: Path, q: Path)
    requires Stands(nodes, attrs, t) && IsPath(t, p) && IsPath(t, q) && AreSiblings(p, q) && Earlier(p, q)
    ensures IndexOf(t, 0, p) < |nodes| && IndexOf(t, 0, q) < |nodes|
    ensures IsLater(nodes, IndexOf(t, 0, q), IndexOf(t, 0, p))
  {
    hide Encodes, Earlier;
    var parent := p[..|p| - 1];
    PrefixIsPath(t, parent, p);
    PathEncoded(nodes, attrs, 0, t, 0, parent);
    BelowIs(nodes, attrs, t, p, q);
    PlacesOf(t, 0, parent, p);
    PlacesOf(t, 0, parent, q);
    PlacesOf(t, 0, p, q);
  }

  lemma LaterAreSiblings(nodes: seq<Node>, attrs: seq<Attr>, t: Tree, p: Path, q: Path)
    requires Stands(nodes, attrs, t) && IsPath(t, p) && IsPath(t, q)
    requires IndexOf(t, 0, p) < |nodes| && IndexOf(t, 0, q) < |nodes|
    requires IsLater(nodes, IndexOf(t, 0, q), IndexOf(t, 0, p))
    ensures AreSiblings(p, q) && Earlier(p, q)
  {
    hide Encodes, Earlier;
    BelowIs(nodes, attrs, t, p, q);
    PlacesOf(t, 0, p, q);
    var parent := if q == [] then [] else q[..|q| - 1];
    PrefixIsPath(t, parent, q);
    if q != [] {
      BelowIs(nodes, attrs, t, parent, q);
      PlacesOf(t, 0, parent, q);
      PlacesDiffer(t, 0, parent, q);
      PlacesDiffer(t, 0, parent, p);
      PlacesOf(t, 0, parent, p);
      assert !(IndexOf(t, 0, p) < IndexOf(t, 0, parent) < IndexOf(t, 0, q));
      assert IsPrefix(parent, p);
    }
  }

  /** Each axis selects, in the store that encodes a tree, what it is defined to select in the
      tree: children, descendants, siblings, and the nodes before and after in preorder. */
  lemma AxisOnTree(nodes: seq<Node>, attrs: seq<Attr>, t: Tree, axis: Axis, p: Path, q: Path)
    requires Stands(nodes, attrs, t) && IsPath(t, p) && IsPath(t, q)
    ensures IndexOf(t, 0, p) < |nodes| && IndexOf(t, 0, q) < |nodes|
    ensures OnAxis(nodes, axis, IndexOf(t, 0, q), IndexOf(t, 0, p)) <==> OnTree(axis, p, q)
  {
    var i, k := IndexOf(t, 0, p), IndexOf(t, 0, q);
    BelowIs(nodes, attrs, t, p, q);
    BelowIs(nodes, attrs, t, q, p);
    PlacesDiffer(t, 0, p, q);
    PlacesOf(t, 0, p, q);
    PlacesOf(t, 0, q, p);
    if IsPrefix(p, q) && p != q {
      PrefixIsPath(t, p, q);
      ParentsAreContainers(nodes, attrs, t, p);
    }
    hide Stands;
    LaterIs(nodes, attrs, t, p, q);
    LaterIs(nodes, attrs, t, q, p);
    hide Below, Earlier, IsLater;
  }

  lemma LaterIs(nodes: seq<Node>, attrs: seq<Attr>, t: Tree, p: Path, q: Path)
    requires Stands(nodes, attrs, t) && IsPath(t, p) && IsPath(t, q)
    requires IndexOf(t, 0, p) < |nodes| && IndexOf(t, 0, q) < |nodes|
    ensures IsLater(nodes, IndexOf(t, 0, q), IndexOf(t, 0, p)) <==>
              AreSiblings(p, q) && p[|p| - 1] < q[|q| - 1]
  {
    hide Stands, Earlier, IsLater;
    if AreSiblings(p, q) {
      SiblingOrder(p, q);
      if Earlier(p, q) {
        SiblingsAreLater(nodes, attrs, t, p, q);
      }
    }
    if IsLater(nodes, IndexOf(t, 0, q), IndexOf(t, 0, p)) {
      LaterAreSiblings(nodes, attrs, t, p, q);
    }
  }

  lemma ParentsAreContainers(nodes: seq<Node>, attrs: seq<Attr>, t: Tree, p: Path)
    requires Stands(nodes, attrs, t) && IsPath(t, p) && Kids(Subtree(t, p)) != []
    ensures IndexOf(t, 0, p) < |nodes| && IsContainer(nodes[IndexOf(t, 0, p)])
  {
    PathEncoded(nodes, attrs, 0, t, 0, p);
  }

  // ----- the stored documents

  /** The document of every well-formed tree, without the end marker, is the merged tree. */
  lemma TreeStands(t: Tree)
    requires WellFormed(t)
    ensures AllSafe(EMPTY, TreeEvents(t))
    ensures var d := DocOf(Finish(Run(EMPTY, TreeEvents(t)))); Stands(d.nodes, d.attrs, Merge(t))
  {
    hide Run, AllSafe, TreeEvents, Encodes, Merge, Finish, Size, IsDocument;
    BuildsTree(t);
    TreeIsDocument(t);
    var s := Finish(Run(EMPTY, TreeEvents(t)));
    var d := DocOf(s);
    WithoutMarkers(s, t);
    LevelsWithin(d.nodes, d.attrs, 0, Merge(t), 0);
    SizePositive(Merge(t));
    assert d.nodes[0].level == 0 by { RootLevel(d.nodes, d.attrs, Merge(t)); }
  }

  lemma RootLevel(nodes: seq<Node>, attrs: seq<Attr>, t: Tree)
    requires Encodes(nodes, attrs, 0, t, 0)
    ensures nodes[0].level == 0
  {
  }

  // A tree of this kind; attributes are no trees.
  predicate IsOfKind(kind: Kind, t: Tree) {
    match kind
    case DocumentKind => t.DocumentTree?
    case ElementKind => t.ElementTree?
    case AttributeKind => false
    case TextKind => t.TextTree?
    case CommentKind => t.CommentTree?
    case PIKind => t.PITree?
  }

  // The node at the path, in document d.
  function NodeAt(d: nat, t: Tree, p: Path): Item
    requires IsPath(t, p)
  {
    Item(d, IndexOf(t, 0, p), 0)
  }

  // Document d is the stored tree t.
  ghost predicate Stores(w: World, d: nat, t: Tree) {
    && d < |w| && WellFormed(t) && AllSafe(EMPTY, TreeEvents(t))
    && w[d] == DocOf(Finish(Run(EMPTY, TreeEvents(t))))
  }

  /** A step in the stored document of any tree selects exactly the nodes of the merged tree that
      stand on its axis, are of its kind and pass its name test; and every node of the document
      stands at a path. */
  lemma StepOnTree(w: World, d: nat, t: Tree, axis: Axis, kind: Kind, name: Item -> bool, p: Path, q: Path)
    requires Stores(w, d, t) && IsPath(Merge(t), p) && IsPath(Merge(t), q)
    ensures var x, y := NodeAt(d, Merge(t), p), NodeAt(d, Merge(t), q);
            && In(w, x) && In(w, y)
            && (y in Eval(w, Step(axis, OnlyKind(kind, name)), x) <==>
                  OnTree(axis, p, q) && IsOfKind(kind, Subtree(Merge(t), q)) && name(y))
  {
    hide Run, AllSafe, TreeEvents, Encodes, Merge, Finish, Closed, OnTree, OnAxis, OnAxisFrom, KindIs;
    TreeStands(t);
    var m, x, y := Merge(t), NodeAt(d, Merge(t), p), NodeAt(d, Merge(t), q);
    AxisOnTree(w[d].nodes, w[d].attrs, m, axis, p, q);
    PathEncoded(w[d].nodes, w[d].attrs, 0, m, 0, q);
    KindOfTree(w, d, IndexOf(m, 0, q), Subtree(m, q), |q|);
    StepSelects(w, axis, x, y);
    NotAnAttribute(axis, p, q);
    assert Selected(w, axis, x, y) <==> OnTree(axis, p, q);
  }

  lemma NotAnAttribute(axis: Axis, p: Path, q: Path)
    ensures axis == AttributeAxis ==> !OnTree(axis, p, q)
  {
  }

  lemma NodesStand(w: World, d: nat, t: Tree, y: Item) returns (q: Path)
    requires Stores(w, d, t) && In(w, y) && y.doc == d && y.slot == 0
    ensures IsPath(Merge(t), q) && y == NodeAt(d, Merge(t), q)
  {
    hide Run, AllSafe, TreeEvents, Encodes, Merge, Finish, Closed;
    TreeStands(t);
    q := PathTo(Merge(t), 0, y.node);
  }

  /** The attributes of an element in a stored document are those of the element in the tree, in
      their order; no other node has any. */
  lemma AttributesOnTree(w: World, d: nat, t: Tree, p: Path) returns (first: nat)
    requires Stores(w, d, t) && IsPath(Merge(t), p)
    ensures var x, sub := NodeAt(d, Merge(t), p), Subtree(Merge(t), p);
            var run := if sub.ElementTree? then sub.members else [];
            && In(w, x) && first + |run| <= |w[d].attrs|
            && (forall y :: y in Eval(w, Step(AttributeAxis, AnyNode(false)), x) <==>
                              y.doc == d && y.node == x.node && first < y.slot <= first + |run|)
            && forall k :: 0 <= k < |run| ==>
                 var attr := w[d].attrs[first + k];
                 run[k] == AttributeMember(attr.tag, attr.value, Some(attr.typed))
  {
    hide Run, AllSafe, TreeEvents, Merge, Finish, Closed, EncodesAll, OnAxisFrom, OnAxis;
    TreeStands(t);
    var m, x := Merge(t), NodeAt(d, Merge(t), p);
    PathEncoded(w[d].nodes, w[d].attrs, 0, m, 0, p);
    PathWithin(m, 0, p);
    SizePositive(Subtree(m, p));
    var link := if w[d].nodes[x.node].data.ElementData? then w[d].nodes[x.node].data.attributes else None;
    first := if link == None then 0 else link.value;
    forall y
      ensures y in Eval(w, Step(AttributeAxis, AnyNode(false)), x) <==> Selected(w, AttributeAxis, x, y)
    {
      StepSelects(w, AttributeAxis, x, y);
    }
  }
}
