/** The axes over stored documents, and the properties declared for each. */
module Axes {
  import opened Options
  import opened Sequences
  import opened FastXdm
  import opened FastXdmNavigation
  import opened DocumentOrder

  datatype Axis =
    | SelfAxis | ChildAxis | AttributeAxis | DescendantAxis | DescendantOrSelfAxis
    | FollowingSiblingAxis | PrecedingSiblingAxis | FollowingAxis | PrecedingAxis
    | ParentAxis | AncestorAxis | AncestorOrSelfAxis

  predicate IsForwardAxis(axis: Axis) {
    match axis
    case AncestorAxis => false
    case AncestorOrSelfAxis => false
    case ParentAxis => false
    case PrecedingAxis => false
    case PrecedingSiblingAxis => false
    case _ => true
  }

  /** The properties a step on the axis declares. */
  function AxisProperties(axis: Axis): Props {
    (match axis
     case SelfAxis => {OneNode, Self, Subtree, Peer}
     case ChildAxis => {Subtree, Peer}
     case AttributeAxis => {Subtree, Peer}
     case DescendantAxis => {Subtree}
     case DescendantOrSelfAxis => {Subtree}
     case FollowingSiblingAxis => {Peer}
     case PrecedingSiblingAxis => {Peer}
     case ParentAxis => {Peer, OneNode}
     case _ => {})
    + {Grouped, SameDoc}
    + (if IsForwardAxis(axis) || axis == ParentAxis then {DocOrder} else {})
  }

  // ----- the axes by index

  ghost predicate IsChild(nodes: seq<Node>, k: nat, i: nat)
    requires k < |nodes| && i < |nodes|
  {
    Below(nodes, k, i) && nodes[k].level == nodes[i].level + 1
  }

  // k comes after i under the same parent.
  ghost predicate IsLater(nodes: seq<Node>, k: nat, i: nat)
    requires k < |nodes| && i < |nodes|
  {
    i < k && nodes[k].level == nodes[i].level && forall m :: i < m < k ==> nodes[m].level >= nodes[i].level
  }

  predicate IsContainer(n: Node) {
    n.data.DocumentData? || n.data.ElementData?
  }

  ghost predicate OnAxis(nodes: seq<Node>, axis: Axis, k: nat, i: nat)
    requires k < |nodes| && i < |nodes|
  {
    match axis
    case SelfAxis => k == i
    case ChildAxis => IsContainer(nodes[i]) && IsChild(nodes, k, i)
    case AttributeAxis => false
    case DescendantAxis => IsContainer(nodes[i]) && Below(nodes, k, i) && k != i
    case DescendantOrSelfAxis => Below(nodes, k, i)
    case FollowingSiblingAxis => IsLater(nodes, k, i)
    case PrecedingSiblingAxis => IsLater(nodes, i, k)
    case FollowingAxis => i < k && !Below(nodes, k, i)
    case PrecedingAxis => k < i && !Below(nodes, i, k)
    case ParentAxis => IsChild(nodes, i, k)
    case AncestorAxis => Below(nodes, i, k) && k != i
    case AncestorOrSelfAxis => Below(nodes, i, k)
  }

  // The indices below n that satisfy p, in ascending order.
  ghost function Ascending(n: nat, p: nat -> bool): seq<nat> {
    if n == 0 then [] else Ascending(n - 1, p) + (if p(n - 1) then [n - 1] else [])
  }

  // The same in descending order.
  ghost function Descending(n: nat, p: nat -> bool): seq<nat> {
    if n == 0 then [] else (if p(n - 1) then [n - 1] else []) + Descending(n - 1, p)
  }

  lemma {:induction false} AscendingIs(n: nat, p: nat -> bool)
    ensures forall k: nat :: k in Ascending(n, p) <==> k < n && p(k)
    ensures forall i, j :: 0 <= i < j < |Ascending(n, p)| ==> Ascending(n, p)[i] < Ascending(n, p)[j]
  {
    if n > 0 {
      AscendingIs(n - 1, p);
      var a := Ascending(n - 1, p);
      forall i | 0 <= i < |a| ensures a[i] < n - 1 {
        assert a[i] in a;
      }
    }
  }

  lemma {:induction false} DescendingIs(n: nat, p: nat -> bool)
    ensures forall k: nat :: k in Descending(n, p) <==> k < n && p(k)
  {
    if n > 0 {
      DescendingIs(n - 1, p);
    }
  }

  // ----- the axes by item

  function NodesOf(doc: nat, ks: seq<nat>): seq<Item> {
    Map((k: nat) => Item(doc, k, 0), ks)
  }

  function AttributesOf(doc: nat, owner: nat, ks: seq<nat>): seq<Item> {
    Map((k: nat) => Item(doc, owner, k + 1), ks)
  }

  ghost function OnNode(nodes: seq<Node>, axis: Axis, i: nat): nat -> bool
    requires i < |nodes|
  {
    (k: nat) => k < |nodes| && OnAxis(nodes, axis, k, i)
  }

  function OwnedBy(attrs: seq<Attr>, owner: nat): nat -> bool {
    (k: nat) => k < |attrs| && attrs[k].owner == Some(owner)
  }

  ghost function NodesOnAxis(nodes: seq<Node>, axis: Axis, i: nat): seq<nat>
    requires i < |nodes|
  {
    if IsForwardAxis(axis) then Ascending(|nodes|, OnNode(nodes, axis, i))
    else Descending(|nodes|, OnNode(nodes, axis, i))
  }

  /** What an axis selects from a context item, in the order in which it is delivered. */
  ghost function OnAxisFrom(w: World, axis: Axis, x: Item): seq<Item>
    requires In(w, x)
  {
    var d := w[x.doc];
    if x.slot == 0 then
      if axis == AttributeAxis then
        if d.nodes[x.node].data.ElementData? then
          AttributesOf(x.doc, x.node, Ascending(|d.attrs|, OwnedBy(d.attrs, x.node)))
        else []
      else NodesOf(x.doc, NodesOnAxis(d.nodes, axis, x.node))
    else
      match axis
      case SelfAxis => [x]
      case DescendantOrSelfAxis => [x]
      case ParentAxis => [Item(x.doc, x.node, 0)]
      case AncestorAxis => NodesOf(x.doc, NodesOnAxis(d.nodes, AncestorOrSelfAxis, x.node))
      case AncestorOrSelfAxis => [x] + NodesOf(x.doc, NodesOnAxis(d.nodes, AncestorOrSelfAxis, x.node))
      case PrecedingAxis => NodesOf(x.doc, NodesOnAxis(d.nodes, PrecedingAxis, x.node))
      case FollowingAxis => NodesOf(x.doc, Ascending(|d.nodes|, k => k > x.node))
      case _ => []
  }

  lemma NodesOfIs(doc: nat, ks: seq<nat>)
    ensures forall y :: y in NodesOf(doc, ks) <==> y.doc == doc && y.slot == 0 && y.node in ks
  {
    forall y | y in NodesOf(doc, ks) ensures y.doc == doc && y.slot == 0 && y.node in ks {
      var i :| 0 <= i < |ks| && NodesOf(doc, ks)[i] == y;
    }
    forall k | k in ks ensures Item(doc, k, 0) in NodesOf(doc, ks) {
      var i :| 0 <= i < |ks| && ks[i] == k;
      assert NodesOf(doc, ks)[i] == Item(doc, k, 0);
    }
  }

  lemma AttributesOfIs(doc: nat, owner: nat, ks: seq<nat>)
    ensures forall y :: y in AttributesOf(doc, owner, ks) ==>
              y.doc == doc && y.node == owner && y.slot > 0 && y.slot - 1 in ks
    ensures forall k :: k in ks ==> Item(doc, owner, k + 1) in AttributesOf(doc, owner, ks)
  {
    forall y | y in AttributesOf(doc, owner, ks)
      ensures y.doc == doc && y.node == owner && y.slot > 0 && y.slot - 1 in ks
    {
      var i :| 0 <= i < |ks| && AttributesOf(doc, owner, ks)[i] == y;
    }
    forall k | k in ks ensures Item(doc, owner, k + 1) in AttributesOf(doc, owner, ks) {
      var i :| 0 <= i < |ks| && ks[i] == k;
      assert AttributesOf(doc, owner, ks)[i] == Item(doc, owner, k + 1);
    }
  }

  ghost predicate Selected(w: World, axis: Axis, x: Item, y: Item)
    requires In(w, x)
  {
    var d := w[x.doc];
    && y.doc == x.doc && In(w, y)
    && if x.slot == 0 then
         if axis == AttributeAxis then y.slot > 0 && y.node == x.node && d.nodes[x.node].data.ElementData?
         else y.slot == 0 && OnAxis(d.nodes, axis, y.node, x.node)
       else
         match axis
         case SelfAxis => y == x
         case DescendantOrSelfAxis => y == x
         case ParentAxis => y == Item(x.doc, x.node, 0)
         case AncestorAxis => y.slot == 0 && Below(d.nodes, x.node, y.node)
         case AncestorOrSelfAxis => y == x || (y.slot == 0 && Below(d.nodes, x.node, y.node))
         case PrecedingAxis => y.slot == 0 && OnAxis(d.nodes, PrecedingAxis, y.node, x.node)
         case FollowingAxis => y.slot == 0 && y.node > x.node
         case _ => false
  }

  lemma NodesOnAxisAre(nodes: seq<Node>, axis: Axis, i: nat)
    requires i < |nodes|
    ensures forall k: nat :: k in NodesOnAxis(nodes, axis, i) <==> k < |nodes| && OnAxis(nodes, axis, k, i)
  {
    hide OnAxis;
    AscendingIs(|nodes|, OnNode(nodes, axis, i));
    DescendingIs(|nodes|, OnNode(nodes, axis, i));
  }

  /** An axis delivers exactly the items on it. */
  lemma AxisSelects(w: World, axis: Axis, x: Item)
    requires In(w, x)
    ensures forall y :: y in OnAxisFrom(w, axis, x) <==> Selected(w, axis, x, y)
  {
    hide OnAxis, Below, NodesOf, AttributesOf, Ascending, NodesOnAxis;
    var d := w[x.doc];
    if x.slot == 0 && axis == AttributeAxis {
      AttributesAre(w, x);
    } else if x.slot == 0 {
      NodesOnAxisAre(d.nodes, axis, x.node);
      NodesOfIs(x.doc, NodesOnAxis(d.nodes, axis, x.node));
    } else {
      AttributeAxes(w, axis, x);
    }
  }

  lemma AttributesAre(w: World, x: Item)
    requires In(w, x) && x.slot == 0
    ensures forall y :: y in OnAxisFrom(w, AttributeAxis, x) <==> Selected(w, AttributeAxis, x, y)
  {
    hide Ascending, AttributesOf;
    var attrs := w[x.doc].attrs;
    var ks := Ascending(|attrs|, OwnedBy(attrs, x.node));
    AscendingIs(|attrs|, OwnedBy(attrs, x.node));
    AttributesOfIs(x.doc, x.node, ks);
    forall y | Selected(w, AttributeAxis, x, y) ensures y in AttributesOf(x.doc, x.node, ks) {
      assert y.slot - 1 in ks && y == Item(x.doc, x.node, y.slot - 1 + 1);
    }
  }

  lemma AttributeAxes(w: World, axis: Axis, x: Item)
    requires In(w, x) && x.slot > 0
    ensures forall y :: y in OnAxisFrom(w, axis, x) <==> Selected(w, axis, x, y)
  {
    hide Below, NodesOf, Ascending, NodesOnAxis;
    var nodes := w[x.doc].nodes;
    match axis {
      case AncestorAxis =>
        NodesOnAxisAre(nodes, AncestorOrSelfAxis, x.node);
        NodesOfIs(x.doc, NodesOnAxis(nodes, AncestorOrSelfAxis, x.node));
      case AncestorOrSelfAxis =>
        NodesOnAxisAre(nodes, AncestorOrSelfAxis, x.node);
        NodesOfIs(x.doc, NodesOnAxis(nodes, AncestorOrSelfAxis, x.node));
      case PrecedingAxis =>
        NodesOnAxisAre(nodes, PrecedingAxis, x.node);
        NodesOfIs(x.doc, NodesOnAxis(nodes, PrecedingAxis, x.node));
      case FollowingAxis =>
        AscendingIs(|nodes|, k => k > x.node);
        NodesOfIs(x.doc, Ascending(|nodes|, k => k > x.node));
      case _ =>
    }
  }

  // ----- the declared properties hold

  lemma {:induction false} OneDocGroups(r: seq<Item>, d: nat)
    requires forall y :: y in r ==> y.doc == d
    ensures InGroups(r) && Front(d, r)
  {
    if r != [] {
      assert r[0] in r;
      OneDocGroups(r[1..], d);
    }
  }

  lemma NodesRise(doc: nat, ks: seq<nat>)
    requires forall i, j :: 0 <= i < j < |ks| ==> ks[i] < ks[j]
    ensures Increasing(NodesOf(doc, ks))
    ensures forall owner :: Increasing(AttributesOf(doc, owner, ks))
  {
    forall owner ensures Increasing(AttributesOf(doc, owner, ks)) {
    }
  }

  /** Forward axes deliver in document order. */
  lemma ForwardIncreases(w: World, axis: Axis, x: Item)
    requires In(w, x) && IsForwardAxis(axis)
    ensures Increasing(OnAxisFrom(w, axis, x))
  {
    hide OnAxis, NodesOf, AttributesOf, Ascending;
    var d := w[x.doc];
    AscendingIs(|d.attrs|, OwnedBy(d.attrs, x.node));
    NodesRise(x.doc, Ascending(|d.attrs|, OwnedBy(d.attrs, x.node)));
    AscendingIs(|d.nodes|, OnNode(d.nodes, axis, x.node));
    NodesRise(x.doc, Ascending(|d.nodes|, OnNode(d.nodes, axis, x.node)));
    AscendingIs(|d.nodes|, k => k > x.node);
    NodesRise(x.doc, Ascending(|d.nodes|, k => k > x.node));
  }

  lemma SameLevelApart(nodes: seq<Node>, a: nat, b: nat)
    requires a < |nodes| && b < |nodes| && nodes[a].level == nodes[b].level && Below(nodes, b, a)
    ensures a == b
  {
  }

  // On these axes all results have one level, or are attributes.
  lemma AxisPeers(w: World, axis: Axis, x: Item, a: Item, b: Item)
    requires In(w, x) && Peer in AxisProperties(axis)
    requires Selected(w, axis, x, a) && Selected(w, axis, x, b) && Under(w, b, a)
    ensures a == b
  {
    var nodes := w[x.doc].nodes;
    if a.slot == 0 {
      if x.slot == 0 {
        assert nodes[a.node].level == nodes[b.node].level by { OneLevel(nodes, axis, x.node, a.node, b.node); }
        SameLevelApart(nodes, a.node, b.node);
      }
    }
  }

  lemma OneLevel(nodes: seq<Node>, axis: Axis, i: nat, a: nat, b: nat)
    requires i < |nodes| && a < |nodes| && b < |nodes| && Peer in AxisProperties(axis)
    requires OnAxis(nodes, axis, a, i) && OnAxis(nodes, axis, b, i)
    ensures nodes[a].level == nodes[b].level
  {
  }

  lemma AxisSubtree(w: World, axis: Axis, x: Item, y: Item)
    requires In(w, x) && Subtree in AxisProperties(axis) && Selected(w, axis, x, y)
    ensures Under(w, y, x)
  {
  }

  // A node has one parent.
  lemma OneParent(nodes: seq<Node>, i: nat, a: nat, b: nat)
    requires i < |nodes| && a < |nodes| && b < |nodes| && IsChild(nodes, i, a) && IsChild(nodes, i, b)
    ensures a == b
  {
  }

  lemma DescendingFalls(n: nat, p: nat -> bool)
    ensures forall i, j :: 0 <= i < j < |Descending(n, p)| ==> Descending(n, p)[i] > Descending(n, p)[j]
  {
    if n > 0 {
      DescendingFalls(n - 1, p);
      DescendingIs(n - 1, p);
      var d := Descending(n - 1, p);
      forall i | 0 <= i < |d| ensures d[i] < n - 1 {
        assert d[i] in d;
      }
    }
  }

  lemma AxisOneNode(w: World, axis: Axis, x: Item)
    requires In(w, x) && OneNode in AxisProperties(axis)
    ensures |OnAxisFrom(w, axis, x)| <= 1
  {
    hide OnAxis, Ascending, Descending;
    if x.slot == 0 {
      var nodes, i := w[x.doc].nodes, x.node;
      var ks := NodesOnAxis(nodes, axis, i);
      NodesOnAxisAre(nodes, axis, i);
      AscendingIs(|nodes|, OnNode(nodes, axis, i));
      DescendingFalls(|nodes|, OnNode(nodes, axis, i));
      forall a, b | a in ks && b in ks ensures a == b {
        OneOnAxis(nodes, axis, i, a, b);
      }
      AtMostOne(ks);
    }
  }

  lemma AtMostOne(ks: seq<nat>)
    requires forall a, b :: a in ks && b in ks ==> a == b
    requires forall i, j :: 0 <= i < j < |ks| ==> ks[i] != ks[j]
    ensures |ks| <= 1
  {
    FirstTwo(ks);
  }

  lemma FirstTwo(ks: seq<nat>)
    ensures |ks| > 1 ==> ks[0] in ks && ks[1] in ks
  {
  }

  lemma OneOnAxis(nodes: seq<Node>, axis: Axis, i: nat, a: nat, b: nat)
    requires i < |nodes| && a < |nodes| && b < |nodes| && OneNode in AxisProperties(axis)
    requires OnAxis(nodes, axis, a, i) && OnAxis(nodes, axis, b, i)
    ensures a == b
  {
    if axis == ParentAxis {
      OneParent(nodes, i, a, b);
    }
  }

  /** Every axis satisfies its declared properties at every context item. */
  lemma AxisSound(w: World, axis: Axis, x: Item)
    requires In(w, x)
    ensures Has(w, AxisProperties(axis), x, OnAxisFrom(w, axis, x))
  {
    hide OnAxisFrom, Selected, Under;
    var r := OnAxisFrom(w, axis, x);
    AxisSelects(w, axis, x);
    AxisStays(w, axis, x);
    forall p | p in AxisProperties(axis) ensures HoldsAt(w, p, x, r) {
      match p {
        case DocOrder => AxisIncreases(w, axis, x);
        case Peer =>
          forall a, b | a in r && b in r && In(w, a) && In(w, b) && Under(w, b, a) ensures a == b {
            AxisPeers(w, axis, x, a, b);
          }
        case Subtree =>
          forall y | y in r ensures In(w, y) && Under(w, y, x) {
            AxisSubtree(w, axis, x, y);
          }
        case Grouped => OneDocGroups(r, x.doc);
        case SameDoc =>
        case OneNode => AxisOneNode(w, axis, x);
        case Self => SelfAxisIsSelf(w, x);
      }
    }
  }

  lemma AxisStays(w: World, axis: Axis, x: Item)
    requires In(w, x)
    ensures Stays(w, OnAxisFrom(w, axis, x)) && forall y :: y in OnAxisFrom(w, axis, x) ==> y.doc == x.doc
  {
    hide OnAxisFrom, OnAxis, Below;
    AxisSelects(w, axis, x);
  }

  lemma AxisIncreases(w: World, axis: Axis, x: Item)
    requires In(w, x) && DocOrder in AxisProperties(axis)
    ensures Increasing(OnAxisFrom(w, axis, x))
  {
    if IsForwardAxis(axis) {
      ForwardIncreases(w, axis, x);
    } else {
      AxisOneNode(w, axis, x);
    }
  }

  lemma SelfAxisIsSelf(w: World, x: Item)
    requires In(w, x)
    ensures HoldsAt(w, Self, x, OnAxisFrom(w, SelfAxis, x))
  {
    hide OnAxisFrom;
    AxisSelects(w, SelfAxis, x);
    AxisOneNode(w, SelfAxis, x);
    var r := OnAxisFrom(w, SelfAxis, x);
    if r != [] {
      assert r[0] in r;
      assert Selected(w, SelfAxis, x, r[0]);
    }
  }
}
