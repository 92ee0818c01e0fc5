/** Document order. */
module DocumentOrder {
  // Over stored trees, with the algebra of properties from which the order of a path's results
  // is inferred.

  import opened Options
  import opened Sequences
  import StableSort
  import opened FastXdm
  import opened FastXdmNavigation

  /** A stored document. */
  datatype Doc = Doc(nodes: seq<Node>, attrs: seq<Attr>)

  // The documents, in the order of their addresses.
  type World = seq<Doc>

  // Slot 0 is the node itself; slot k + 1 is attribute k of the document, owned by the node.
  datatype Item = Item(doc: nat, node: nat, slot: nat)

  predicate In(w: World, x: Item) {
    && x.doc < |w| && x.node < |w[x.doc].nodes|
    && (x.slot > 0 ==> x.slot <= |w[x.doc].attrs| && w[x.doc].attrs[x.slot - 1].owner == Some(x.node))
  }

  predicate Before(x: Item, y: Item) {
    || x.doc < y.doc
    || (x.doc == y.doc && x.node < y.node)
    || (x.doc == y.doc && x.node == y.node && x.slot < y.slot)
  }

  /** The comparison of two nodes as the node classes make it. */
  predicate LessThan(x: Item, y: Item) {
    if x.doc != y.doc then x.doc < y.doc
    else if x.slot == 0 && y.slot == 0 then x.node < y.node
    else if x.slot == 0 then x.node == y.node || x.node < y.node
    else if y.slot == 0 then (if x.node == y.node then false else x.node < y.node)
    else x.slot < y.slot
  }

  // Attributes are stored in the order of their owners.
  ghost predicate OwnersRise(attrs: seq<Attr>) {
    forall i, j :: 0 <= i < j < |attrs| && attrs[i].owner != None && attrs[j].owner != None ==>
      attrs[i].owner.value <= attrs[j].owner.value
  }

  ghost predicate InOrder(w: World) {
    forall d :: 0 <= d < |w| ==> OwnersRise(w[d].attrs)
  }

  /** Where attributes are stored in the order of their owners, the comparison is document
      order: a node before its attributes, and those before its children. */
  lemma LessThanIsBefore(w: World, x: Item, y: Item)
    requires InOrder(w) && In(w, x) && In(w, y)
    ensures LessThan(x, y) == Before(x, y)
  {
    if x.doc == y.doc && x.slot > 0 && y.slot > 0 {
      var attrs := w[x.doc].attrs;
      assert OwnersRise(attrs);
      assert x.slot < y.slot ==> attrs[x.slot - 1].owner.value <= attrs[y.slot - 1].owner.value;
      assert y.slot < x.slot ==> attrs[y.slot - 1].owner.value <= attrs[x.slot - 1].owner.value;
    }
  }

  // Node k is i or below it.
  ghost predicate Below(nodes: seq<Node>, k: nat, i: nat)
    requires k < |nodes| && i < |nodes|
  {
    i <= k && forall m :: i < m <= k ==> nodes[m].level > nodes[i].level
  }

  /** y is in the subtree of x; an attribute is in the subtree of its owner. */
  ghost predicate Under(w: World, y: Item, x: Item)
    requires In(w, x) && In(w, y)
  {
    if x.slot > 0 then y == x else y.doc == x.doc && Below(w[x.doc].nodes, y.node, x.node)
  }

  lemma BelowTrans(nodes: seq<Node>, c: nat, b: nat, a: nat)
    requires a < |nodes| && b < |nodes| && c < |nodes| && Below(nodes, c, b) && Below(nodes, b, a)
    ensures Below(nodes, c, a)
  {
  }

  lemma UnderTrans(w: World, z: Item, y: Item, x: Item)
    requires In(w, x) && In(w, y) && In(w, z) && Under(w, z, y) && Under(w, y, x)
    ensures Under(w, z, x)
  {
    if x.slot == 0 && y.slot == 0 {
      BelowTrans(w[x.doc].nodes, z.node, y.node, x.node);
    }
  }

  lemma UnderIsNotBefore(w: World, y: Item, x: Item)
    requires In(w, x) && In(w, y) && Under(w, y, x)
    ensures x == y || Before(x, y)
  {
  }

  /** Two subtrees that are not nested keep the order of their roots. */
  lemma SubtreesKeepOrder(w: World, a: Item, b: Item, u: Item, v: Item)
    requires In(w, a) && In(w, b) && In(w, u) && In(w, v)
    requires Before(a, b) && !Under(w, b, a) && Under(w, u, a) && Under(w, v, b)
    ensures Before(u, v)
  {
    UnderIsNotBefore(w, v, b);
    if a.slot == 0 && a.doc == b.doc {
      var nodes := w[a.doc].nodes;
      assert !Below(nodes, b.node, a.node);
      var m :| a.node < m <= b.node && nodes[m].level <= nodes[a.node].level;
      assert u.node < m;
    }
  }

  // ----- the properties

  datatype Property = DocOrder | Peer | Subtree | Grouped | SameDoc | OneNode | Self

  type Props = set<Property>

  /** What the results of a step are known to satisfy when its input satisfies prev and each
      application of the step satisfies step. */
  function CombineProperties(prev: Props, step: Props): Props {
    (if Self in step then prev else {})
    + (if OneNode in prev && DocOrder in step then {DocOrder, Grouped} else {})
    + (if DocOrder in prev && Peer in prev && DocOrder in step && Subtree in step
       then {DocOrder, Grouped, Subtree} + (if Peer in step then {Peer} else {}) else {})
    + (if Grouped in prev && SameDoc in step then {Grouped} else {})
    + (if Subtree in prev && Subtree in step then {Subtree} else {})
    + (if SameDoc in prev && SameDoc in step then {SameDoc} else {})
    + (if OneNode in prev && OneNode in step then {OneNode} else {})
  }

  ghost predicate Increasing(r: seq<Item>) {
    forall i, j :: 0 <= i < j < |r| ==> Before(r[i], r[j])
  }

  ghost predicate Peers(w: World, r: seq<Item>) {
    forall a, b :: a in r && b in r && In(w, a) && In(w, b) && Under(w, b, a) ==> a == b
  }

  // The items of document d come first, if there are any.
  ghost predicate Front(d: nat, r: seq<Item>) {
    (forall y :: y in r ==> y.doc != d) || (r[0].doc == d && Front(d, r[1..]))
  }

  // The items of each document are next to each other.
  ghost predicate InGroups(r: seq<Item>) {
    r == [] || (Front(r[0].doc, r[1..]) && InGroups(r[1..]))
  }

  /** The meaning of a property of the results r at the context item x. */
  ghost predicate HoldsAt(w: World, p: Property, x: Item, r: seq<Item>)
    requires In(w, x)
  {
    match p
    case DocOrder => Increasing(r)
    case Peer => Peers(w, r)
    case Subtree => forall y :: y in r ==> In(w, y) && Under(w, y, x)
    case Grouped => InGroups(r)
    case SameDoc => forall y :: y in r ==> y.doc == x.doc
    case OneNode => |r| <= 1
    case Self => r == [] || r == [x]
  }

  // What an expression selects from a context item.
  type Walk = Item -> seq<Item>

  ghost predicate Stays(w: World, r: seq<Item>) {
    forall y :: y in r ==> In(w, y)
  }

  ghost predicate Has(w: World, ps: Props, x: Item, r: seq<Item>)
    requires In(w, x)
  {
    Stays(w, r) && forall p :: p in ps ==> HoldsAt(w, p, x, r)
  }

  /** The walk satisfies the properties at every context item. */
  ghost predicate Holds(w: World, ps: Props, g: Walk) {
    forall x :: In(w, x) ==> Has(w, ps, x, g(x))
  }

  // ----- each rule

  lemma {:induction false} FlatStays(w: World, f: Walk, r: seq<Item>)
    requires Stays(w, r) && Holds(w, {}, f)
    ensures Stays(w, FlatMap(f, r))
  {
    forall y | y in FlatMap(f, r) ensures In(w, y) {
      FlatMapMember(f, r, y);
      var z :| z in r && y in f(z);
      assert Has(w, {}, z, f(z));
    }
  }

  ghost predicate SelfOnly(f: Walk, r: seq<Item>) {
    forall x :: x in r ==> f(x) == [] || f(x) == [x]
  }

  // a is b without some of its items.
  ghost predicate Sub(a: seq<Item>, b: seq<Item>)
    decreases |b|
  {
    if b == [] then a == []
    else (a != [] && a[0] == b[0] && Sub(a[1..], b[1..])) || Sub(a, b[1..])
  }

  // Under a step that only ever returns its context node, the results lose some items.
  lemma {:induction false} SelfIsSub(f: Walk, r: seq<Item>)
    requires SelfOnly(f, r)
    ensures Sub(FlatMap(f, r), r)
  {
    if r != [] {
      assert r[0] in r && forall x :: x in r[1..] ==> x in r;
      SelfIsSub(f, r[1..]);
      var rest := FlatMap(f, r[1..]);
      if f(r[0]) == [] {
        assert [] + rest == rest;
      } else {
        assert ([r[0]] + rest)[1..] == rest;
      }
    }
  }

  lemma {:induction false} FilterIsSub(p: Item -> bool, r: seq<Item>)
    ensures Sub(Filter(p, r), r)
  {
    if r != [] {
      FilterIsSub(p, r[1..]);
      assert ([r[0]] + Filter(p, r[1..]))[1..] == Filter(p, r[1..]);
    }
  }

  lemma {:induction false} SubMembers(a: seq<Item>, b: seq<Item>)
    requires Sub(a, b)
    ensures |a| <= |b| && forall x :: x in a ==> x in b
  {
    if b != [] {
      assert b == [b[0]] + b[1..];
      if Sub(a, b[1..]) {
        SubMembers(a, b[1..]);
      } else {
        SubMembers(a[1..], b[1..]);
        assert a == [a[0]] + a[1..];
      }
    }
  }

  lemma {:induction false} SubIncreasing(a: seq<Item>, b: seq<Item>)
    requires Sub(a, b) && Increasing(b)
    ensures Increasing(a)
  {
    if b != [] {
      if Sub(a, b[1..]) {
        SubIncreasing(a, b[1..]);
      } else {
        SubIncreasing(a[1..], b[1..]);
        SubMembers(a[1..], b[1..]);
        forall i, j | 0 <= i < j < |a| ensures Before(a[i], a[j]) {
          if i == 0 {
            assert a[j] == a[1..][j - 1] && a[j] in a[1..];
            var k :| 0 <= k < |b[1..]| && b[1..][k] == a[j];
            assert Before(b[0], b[k + 1]);
          } else {
            assert Before(a[1..][i - 1], a[1..][j - 1]);
          }
        }
      }
    }
  }

  lemma {:induction false} SubFront(a: seq<Item>, b: seq<Item>, d: nat)
    requires Sub(a, b) && Front(d, b)
    ensures Front(d, a)
  {
    SubMembers(a, b);
    if b != [] && b[0].doc == d {
      assert b[0] in b;
      if Sub(a, b[1..]) {
        SubFront(a, b[1..], d);
      } else {
        SubFront(a[1..], b[1..], d);
      }
    }
  }

  lemma {:induction false} SubGroups(a: seq<Item>, b: seq<Item>)
    requires Sub(a, b) && InGroups(b)
    ensures InGroups(a)
  {
    if b != [] {
      if Sub(a, b[1..]) {
        SubGroups(a, b[1..]);
      } else {
        SubGroups(a[1..], b[1..]);
        SubFront(a[1..], b[1..], b[0].doc);
      }
    }
  }

  /** Dropping some of the results keeps every property. */
  lemma SubHas(w: World, ps: Props, x: Item, a: seq<Item>, b: seq<Item>)
    requires In(w, x) && Has(w, ps, x, b) && Sub(a, b)
    ensures Has(w, ps, x, a)
  {
    hide Sub, Increasing, InGroups;
    SubMembers(a, b);
    forall q | q in ps ensures HoldsAt(w, q, x, a) {
      assert HoldsAt(w, q, x, b);
      match q {
        case DocOrder => SubIncreasing(a, b);
        case Grouped => SubGroups(a, b);
        case Self =>
          if a != [] {
            assert a[0] in a;
          }
        case OneNode =>
        case Peer =>
        case Subtree =>
        case SameDoc =>
      }
    }
  }

  lemma {:induction false} IncreasingFront(d: nat, r: seq<Item>)
    requires Increasing(r) && forall y :: y in r ==> y.doc >= d
    ensures Front(d, r)
  {
    if r != [] {
      if r[0].doc == d {
        assert forall y :: y in r[1..] ==> y in r;
        IncreasingFront(d, r[1..]);
      } else {
        forall y | y in r ensures y.doc != d {
          var k :| 0 <= k < |r| && r[k] == y;
          assert k == 0 || Before(r[0], r[k]);
          assert r[0] in r;
        }
      }
    }
  }

  /** Results in document order are grouped by document. */
  lemma {:induction false} IncreasingIsGrouped(r: seq<Item>)
    requires Increasing(r)
    ensures InGroups(r)
  {
    if r != [] {
      forall y | y in r[1..] ensures y.doc >= r[0].doc {
        var k :| 0 <= k < |r[1..]| && r[1..][k] == y;
        assert Before(r[0], r[k + 1]);
      }
      IncreasingFront(r[0].doc, r[1..]);
      IncreasingIsGrouped(r[1..]);
    }
  }

  ghost predicate SameDocs(f: Walk, r: seq<Item>) {
    forall x, y :: x in r && y in f(x) ==> y.doc == x.doc
  }

  lemma {:induction false} FrontConcat(d: nat, a: seq<Item>, b: seq<Item>)
    requires (forall y :: y in a ==> y.doc == d) && Front(d, b)
    ensures Front(d, a + b)
  {
    if a == [] {
      assert a + b == b;
    } else {
      assert (a + b)[1..] == a[1..] + b;
      FrontConcat(d, a[1..], b);
      assert a[0] in a;
    }
  }

  lemma {:induction false} GroupsConcat(d: nat, a: seq<Item>, b: seq<Item>)
    requires (forall y :: y in a ==> y.doc == d) && Front(d, b) && InGroups(b)
    ensures InGroups(a + b)
  {
    if a == [] {
      assert a + b == b;
    } else {
      assert (a + b)[1..] == a[1..] + b;
      FrontConcat(d, a[1..], b);
      GroupsConcat(d, a[1..], b);
      assert a[0] in a;
    }
  }

  lemma {:induction false} FlatFront(f: Walk, d: nat, r: seq<Item>)
    requires Front(d, r) && SameDocs(f, r)
    ensures Front(d, FlatMap(f, r))
  {
    if r != [] && r[0].doc == d {
      assert r[0] in r && forall y :: y in r[1..] ==> y in r;
      FlatFront(f, d, r[1..]);
      FrontConcat(d, f(r[0]), FlatMap(f, r[1..]));
    } else if r != [] {
      assert r[0] in r;
      forall y | y in FlatMap(f, r) ensures y.doc != d {
        FlatMapMember(f, r, y);
      }
    }
  }

  lemma {:induction false} FlatGroups(f: Walk, r: seq<Item>)
    requires InGroups(r) && SameDocs(f, r)
    ensures InGroups(FlatMap(f, r))
  {
    if r != [] {
      assert r[0] in r && forall y :: y in r[1..] ==> y in r;
      FlatGroups(f, r[1..]);
      FlatFront(f, r[0].doc, r[1..]);
      GroupsConcat(r[0].doc, f(r[0]), FlatMap(f, r[1..]));
    }
  }

  // Every result of f from an item of r is in the subtree of that item.
  ghost predicate Subtrees(w: World, f: Walk, r: seq<Item>)
    requires Stays(w, r)
  {
    forall x, y :: x in r && y in f(x) ==> In(w, y) && Under(w, y, x)
  }

  lemma {:induction false} FlatIncreasing(w: World, f: Walk, r: seq<Item>)
    requires Stays(w, r) && Increasing(r) && Peers(w, r) && Subtrees(w, f, r)
    requires forall x :: x in r ==> Increasing(f(x))
    ensures Increasing(FlatMap(f, r))
  {
    if r != [] {
      var rest := r[1..];
      assert r[0] in r && forall y :: y in rest ==> y in r;
      FlatIncreasing(w, f, rest);
      HeadComesFirst(w, f, r);
      IncreasingConcat(f(r[0]), FlatMap(f, rest));
    }
  }

  lemma HeadComesFirst(w: World, f: Walk, r: seq<Item>)
    requires Stays(w, r) && Increasing(r) && Peers(w, r) && Subtrees(w, f, r) && r != []
    ensures forall u, v :: u in f(r[0]) && v in FlatMap(f, r[1..]) ==> Before(u, v)
  {
    hide FlatMap, Under, Before;
    var rest := r[1..];
    forall u, v | u in f(r[0]) && v in FlatMap(f, rest) ensures Before(u, v) {
      FlatMapMember(f, rest, v);
      var z :| z in rest && v in f(z);
      var k :| 0 <= k < |rest| && rest[k] == z;
      assert Before(r[0], r[k + 1]) && r[0] != r[k + 1] by { BeforeIsStrict(r[0]); }
      assert r[0] in r && r[k + 1] in r;
      SubtreesKeepOrder(w, r[0], z, u, v);
    }
  }

  lemma BeforeIsStrict(x: Item)
    ensures !Before(x, x)
  {
  }

  lemma IncreasingConcat(a: seq<Item>, b: seq<Item>)
    requires Increasing(a) && Increasing(b) && forall u, v :: u in a && v in b ==> Before(u, v)
    ensures Increasing(a + b)
  {
    forall i, j | 0 <= i < j < |a + b| ensures Before((a + b)[i], (a + b)[j]) {
      if i < |a| <= j {
        assert a[i] in a && b[j - |a|] in b;
      }
    }
  }

  lemma FlatPeers(w: World, f: Walk, r: seq<Item>)
    requires Stays(w, r) && Increasing(r) && Peers(w, r) && Subtrees(w, f, r)
    requires forall x :: x in r ==> Peers(w, f(x))
    ensures Peers(w, FlatMap(f, r))
  {
    var h := FlatMap(f, r);
    forall a, b | a in h && b in h && In(w, a) && In(w, b) && Under(w, b, a) ensures a == b {
      FlatMapMember(f, r, a);
      FlatMapMember(f, r, b);
      var x :| x in r && a in f(x);
      var y :| y in r && b in f(y);
      UnderTrans(w, b, a, x);
      if x == y {
        assert Peers(w, f(x));
      } else {
        OneRoot(w, r, x, y, b);
      }
    }
  }

  // The subtrees of two peers have nothing in common.
  lemma OneRoot(w: World, r: seq<Item>, x: Item, y: Item, b: Item)
    requires Stays(w, r) && Increasing(r) && Peers(w, r) && x in r && y in r && In(w, b)
    requires Under(w, b, x) && Under(w, b, y)
    ensures x == y
  {
    var i :| 0 <= i < |r| && r[i] == x;
    var j :| 0 <= j < |r| && r[j] == y;
    if i < j && x != y {
      SubtreesKeepOrder(w, x, y, b, b);
    } else if j < i && x != y {
      SubtreesKeepOrder(w, y, x, b, b);
    }
  }

  // ----- the whole rule

  /** Nothing else gives the subtree property: the step keeps to the subtree of each input, but
      the input may not be in the subtree of the context item. */
  predicate SubtreeEarned(prev: Props, step: Props) {
    Subtree in CombineProperties(prev, step) ==> Subtree in prev || Self in prev
  }

  lemma DocOrderCombines(w: World, x: Item, r: seq<Item>, f: Walk, p: Props, q: Props)
    requires In(w, x) && Has(w, p, x, r) && Holds(w, q, f)
    requires (OneNode in p && DocOrder in q) || (DocOrder in p && Peer in p && DocOrder in q && Subtree in q)
    ensures Increasing(FlatMap(f, r))
  {
    forall z | z in r ensures Increasing(f(z)) {
      assert Has(w, q, z, f(z)) && HoldsAt(w, DocOrder, z, f(z));
    }
    if OneNode in p && DocOrder in q {
      assert HoldsAt(w, OneNode, x, r);
      if r != [] {
        assert r == [r[0]];
        Singleton((_: Item) => true, f, r[0]);
      }
    } else {
      assert HoldsAt(w, DocOrder, x, r) && HoldsAt(w, Peer, x, r);
      StepSubtrees(w, r, f, q);
      FlatIncreasing(w, f, r);
    }
  }

  lemma StepSubtrees(w: World, r: seq<Item>, f: Walk, q: Props)
    requires Stays(w, r) && Holds(w, q, f) && Subtree in q
    ensures Subtrees(w, f, r)
  {
    forall z, y | z in r && y in f(z) ensures In(w, y) && Under(w, y, z) {
      assert Has(w, q, z, f(z)) && HoldsAt(w, Subtree, z, f(z));
    }
  }

  lemma PeerCombines(w: World, x: Item, r: seq<Item>, f: Walk, p: Props, q: Props)
    requires In(w, x) && Has(w, p, x, r) && Holds(w, q, f)
    requires DocOrder in p && Peer in p && Subtree in q && Peer in q
    ensures Peers(w, FlatMap(f, r))
  {
    assert HoldsAt(w, DocOrder, x, r) && HoldsAt(w, Peer, x, r);
    StepSubtrees(w, r, f, q);
    forall z | z in r ensures Peers(w, f(z)) {
      assert Has(w, q, z, f(z)) && HoldsAt(w, Peer, z, f(z));
    }
    FlatPeers(w, f, r);
  }

  lemma GroupedCombines(w: World, x: Item, r: seq<Item>, f: Walk, p: Props, q: Props)
    requires In(w, x) && Has(w, p, x, r) && Holds(w, q, f) && Grouped in p && SameDoc in q
    ensures InGroups(FlatMap(f, r))
  {
    assert HoldsAt(w, Grouped, x, r);
    forall z, y | z in r && y in f(z) ensures y.doc == z.doc {
      assert Has(w, q, z, f(z)) && HoldsAt(w, SameDoc, z, f(z));
    }
    FlatGroups(f, r);
  }

  lemma SubtreeCombines(w: World, x: Item, r: seq<Item>, f: Walk, p: Props, q: Props)
    requires In(w, x) && Has(w, p, x, r) && Holds(w, q, f) && (Subtree in p || Self in p) && Subtree in q
    ensures HoldsAt(w, Subtree, x, FlatMap(f, r))
  {
    assert Subtree in p ==> HoldsAt(w, Subtree, x, r);
    assert Self in p ==> HoldsAt(w, Self, x, r);
    StepSubtrees(w, r, f, q);
    forall y | y in FlatMap(f, r) ensures In(w, y) && Under(w, y, x) {
      FlatMapMember(f, r, y);
      var z :| z in r && y in f(z);
      UnderTrans(w, y, z, x);
    }
  }

  lemma SameDocCombines(w: World, x: Item, r: seq<Item>, f: Walk, p: Props, q: Props)
    requires In(w, x) && Has(w, p, x, r) && Holds(w, q, f) && SameDoc in p && SameDoc in q
    ensures HoldsAt(w, SameDoc, x, FlatMap(f, r))
  {
    assert HoldsAt(w, SameDoc, x, r);
    forall y | y in FlatMap(f, r) ensures y.doc == x.doc {
      FlatMapMember(f, r, y);
      var z :| z in r && y in f(z);
      assert Has(w, q, z, f(z)) && HoldsAt(w, SameDoc, z, f(z));
    }
  }

  lemma OneNodeCombines(w: World, x: Item, r: seq<Item>, f: Walk, p: Props, q: Props)
    requires In(w, x) && Has(w, p, x, r) && Holds(w, q, f) && OneNode in p && OneNode in q
    ensures |FlatMap(f, r)| <= 1
  {
    assert HoldsAt(w, OneNode, x, r);
    if r != [] {
      assert r == [r[0]] && r[0] in r;
      assert Has(w, q, r[0], f(r[0])) && HoldsAt(w, OneNode, r[0], f(r[0]));
      Singleton((_: Item) => true, f, r[0]);
    }
  }

  lemma SelfCombines(w: World, x: Item, r: seq<Item>, f: Walk, p: Props, q: Props)
    requires In(w, x) && Has(w, p, x, r) && Holds(w, q, f) && Self in q
    ensures Has(w, p, x, FlatMap(f, r))
  {
    forall z | z in r ensures f(z) == [] || f(z) == [z] {
      assert Has(w, q, z, f(z)) && HoldsAt(w, Self, z, f(z));
    }
    SelfIsSub(f, r);
    SubHas(w, p, x, FlatMap(f, r), r);
  }

  /** The combined properties hold of the composed walk, as long as the subtree property is
      not gained from the third rule alone. */
  lemma CombineSound(w: World, x: Item, r: seq<Item>, f: Walk, p: Props, q: Props)
    requires In(w, x) && Has(w, p, x, r) && Holds(w, q, f) && SubtreeEarned(p, q)
    ensures Has(w, CombineProperties(p, q), x, FlatMap(f, r))
  {
    hide HoldsAt, Has, Holds, In;
    var h := FlatMap(f, r);
    NothingHolds(w, x, r, f, p, q);
    FlatStays(w, f, r);
    forall c | c in CombineProperties(p, q) ensures HoldsAt(w, c, x, h) {
      RuleSound(w, x, r, f, p, q, c);
    }
    assert Has(w, CombineProperties(p, q), x, h) by { HasAll(w, CombineProperties(p, q), x, h); }
  }

  lemma HasAll(w: World, ps: Props, x: Item, r: seq<Item>)
    requires In(w, x) && Stays(w, r) && forall p :: p in ps ==> HoldsAt(w, p, x, r)
    ensures Has(w, ps, x, r)
  {
  }

  lemma NothingHolds(w: World, x: Item, r: seq<Item>, f: Walk, p: Props, q: Props)
    requires In(w, x) && Has(w, p, x, r) && Holds(w, q, f)
    ensures Stays(w, r) && Holds(w, {}, f)
  {
    forall z | In(w, z) ensures Has(w, {}, z, f(z)) {
      assert Has(w, q, z, f(z));
    }
  }

  lemma RuleSound(w: World, x: Item, r: seq<Item>, f: Walk, p: Props, q: Props, c: Property)
    requires In(w, x) && Has(w, p, x, r) && Holds(w, q, f)
    requires c in CombineProperties(p, q) && (c == Subtree ==> SubtreeEarned(p, q))
    ensures HoldsAt(w, c, x, FlatMap(f, r))
  {
    hide Holds, In;
    if Self in q && c in p {
      SelfCombines(w, x, r, f, p, q);
    } else {
      match c {
        case DocOrder => DocOrderCombines(w, x, r, f, p, q);
        case Peer => PeerCombines(w, x, r, f, p, q);
        case Subtree => SubtreeCombines(w, x, r, f, p, q);
        case Grouped =>
          if Grouped in p && SameDoc in q {
            GroupedCombines(w, x, r, f, p, q);
          } else {
            DocOrderCombines(w, x, r, f, p, q);
            IncreasingIsGrouped(FlatMap(f, r));
          }
        case SameDoc => SameDocCombines(w, x, r, f, p, q);
        case OneNode => OneNodeCombines(w, x, r, f, p, q);
        case Self =>
      }
    }
  }

  // ----- exactly which combinations are sound

  /** The rule for prev and step gives only properties that hold, of every walk. */
  ghost predicate SoundFor(p: Props, q: Props) {
    forall w: World, x, r, f :: In(w, x) && Has(w, p, x, r) && Holds(w, q, f) ==>
      Has(w, CombineProperties(p, q), x, FlatMap(f, r))
  }

  lemma OneItem(w: World, ps: Props, x: Item)
    requires In(w, x)
    ensures Has(w, ps, x, [x])
  {
    assert InGroups([x]);
  }

  lemma RootFromChild(w: World, p: Props, root: Item, x: Item)
    requires In(w, root) && In(w, x) && root.doc == x.doc && Subtree !in p && Self !in p
    ensures Has(w, p, x, [root])
  {
    hide InGroups, Under, Before;
    OneItem(w, p, root);
    forall c | c in p ensures HoldsAt(w, c, x, [root]) {
      assert HoldsAt(w, c, root, [root]);
    }
  }

  // From the child of a root, a step to the root.
  lemma SubtreeLost(p: Props, q: Props)
    requires !SubtreeEarned(p, q)
    ensures !SoundFor(p, q)
  {
    hide InGroups, Under, Before;
    var nodes := [Node(DocumentData("", ""), 0, None), Node(TextData(""), 1, None)];
    var w: World := [Doc(nodes, [])];
    var root, x, f: Walk := Item(0, 0, 0), Item(0, 1, 0), z => [z];
    assert In(w, root) && In(w, x);
    NotUnder(w, root, x);
    RootFromChild(w, p, root, x);
    forall z | In(w, z) ensures Has(w, q, z, f(z)) {
      OneItem(w, q, z);
    }
    assert Holds(w, q, f);
    Singleton((_: Item) => true, f, root);
    assert root in FlatMap(f, [root]);
    assert !HoldsAt(w, Subtree, x, FlatMap(f, [root]));
    assert !Has(w, CombineProperties(p, q), x, FlatMap(f, [root]));
  }

  lemma NotUnder(w: World, y: Item, x: Item)
    requires In(w, x) && In(w, y) && y.node < x.node
    ensures !Under(w, y, x)
  {
  }

  /** The rule is sound exactly where the subtree property is earned. */
  lemma CombineExact(p: Props, q: Props)
    ensures SoundFor(p, q) <==> SubtreeEarned(p, q)
  {
    hide HoldsAt, Has, Holds;
    if SubtreeEarned(p, q) {
      forall w: World, x, r, f | In(w, x) && Has(w, p, x, r) && Holds(w, q, f)
        ensures Has(w, CombineProperties(p, q), x, FlatMap(f, r))
      {
        CombineSound(w, x, r, f, p, q);
      }
    } else {
      SubtreeLost(p, q);
    }
  }

  // ----- folding over a path

  // The context item alone.
  const ALL: Props := {DocOrder, Grouped, Peer, Subtree, SameDoc, OneNode}

  predicate PeersBelow(ps: Props) {
    Peer in ps ==> Subtree in ps
  }

  /** On the way through a path the peer property never comes without the subtree property,
      so the rule is sound at every step. */
  lemma FoldEarns(ps: Props, step: Props)
    requires PeersBelow(ps)
    ensures SubtreeEarned(ps, step) && PeersBelow(CombineProperties(ps, step))
  {
  }

  // ----- what properties say regardless of the context item

  // The properties that do not speak of the context item.
  const APART: Props := {DocOrder, Grouped, Peer, OneNode}

  /** What the properties of a result say of it wherever it is used. */
  function Carried(p: Props): Props {
    if Self in p || OneNode in p then APART
    else p * {DocOrder, Grouped, Peer} + (if p !! {DocOrder, SameDoc, Subtree} then {} else {Grouped})
  }

  /** Results with the properties p at one context item have the properties q at every other. */
  ghost predicate FixedSound(p: Props, q: Props) {
    forall w: World, x0, x, r :: In(w, x0) && In(w, x) && Has(w, p, x0, r) ==> Has(w, q, x, r)
  }

  lemma HasFewer(w: World, ps: Props, qs: Props, x: Item, r: seq<Item>)
    requires In(w, x) && Has(w, ps, x, r) && qs <= ps
    ensures Has(w, qs, x, r)
  {
  }

  lemma FewItems(w: World, x: Item, r: seq<Item>)
    requires In(w, x) && Stays(w, r) && |r| <= 1
    ensures Has(w, APART, x, r)
  {
    if r != [] {
      assert r == [r[0]];
      assert InGroups(r);
    }
  }

  lemma {:induction false} OneDocument(r: seq<Item>, d: nat)
    requires forall y :: y in r ==> y.doc == d
    ensures InGroups(r)
  {
    if r != [] {
      assert r[0] in r && forall y :: y in r[1..] ==> y in r;
      OneDocument(r[1..], d);
      InOneDocument(r[1..], d);
    }
  }

  lemma {:induction false} InOneDocument(r: seq<Item>, d: nat)
    requires forall y :: y in r ==> y.doc == d
    ensures Front(d, r)
  {
    if r != [] {
      assert r[0] in r && forall y :: y in r[1..] ==> y in r;
      InOneDocument(r[1..], d);
    }
  }

  /** Properties hold at every context item of what they are carried by. */
  lemma CarriedHolds(w: World, p: Props, x0: Item, x: Item, r: seq<Item>)
    requires In(w, x0) && In(w, x) && Has(w, p, x0, r)
    ensures Has(w, Carried(p), x, r)
  {
    hide InGroups, Increasing, Peers, Under;
    forall c | c in p ensures HoldsAt(w, c, x0, r) {
    }
    if Self in p || OneNode in p {
      assert Self in p ==> HoldsAt(w, Self, x0, r);
      assert OneNode in p ==> HoldsAt(w, OneNode, x0, r);
      FewItems(w, x, r);
    } else {
      forall c | c in Carried(p) ensures HoldsAt(w, c, x, r) {
        if c in p {
          assert HoldsAt(w, c, x0, r);
        } else if DocOrder in p {
          assert HoldsAt(w, DocOrder, x0, r);
          IncreasingIsGrouped(r);
        } else {
          assert SameDoc in p ==> HoldsAt(w, SameDoc, x0, r);
          assert Subtree in p ==> HoldsAt(w, Subtree, x0, r);
          UnderStays(w, x0);
          OneDocument(r, x0.doc);
        }
      }
    }
  }

  lemma UnderStays(w: World, x: Item)
    requires In(w, x)
    ensures forall y :: In(w, y) && Under(w, y, x) ==> y.doc == x.doc
  {
  }

  /** Carried is exactly what the properties of a result say of it wherever it is used. */
  lemma FixedExact(p: Props, q: Props)
    ensures FixedSound(p, q) <==> q <= Carried(p)
  {
    hide HoldsAt, Has, Carried;
    if q <= Carried(p) {
      forall w: World, x0, x, r | In(w, x0) && In(w, x) && Has(w, p, x0, r) ensures Has(w, q, x, r) {
        CarriedHolds(w, p, x0, x, r);
        HasFewer(w, Carried(p), q, x, r);
      }
    } else {
      var c :| c in q && c !in Carried(p);
      assert c in APART + {Subtree, SameDoc, Self} by { EveryProperty(c); }
      if c in {Subtree, SameDoc, Self} {
        FixedLost(p, q, c);
      } else {
        NotCarried(p, q, c);
      }
    }
  }

  // One node of one document, seen from another document.
  lemma FixedLost(p: Props, q: Props, c: Property)
    requires c in q && c in {Subtree, SameDoc, Self}
    ensures !FixedSound(p, q)
  {
    hide InGroups;
    var d := Doc([Node(DocumentData("", ""), 0, None)], []);
    var w: World, x0, x := [d, d], Item(0, 0, 0), Item(1, 0, 0);
    assert In(w, x0) && In(w, x);
    OneItem(w, p, x0);
    assert x0 in [x0] && !HoldsAt(w, c, x, [x0]);
    assert !Has(w, q, x, [x0]);
  }

  // A root with two children, and another root.
  const TWINS: World := [
    Doc([Node(DocumentData("", ""), 0, None), Node(CommentData(""), 1, Some(2)), Node(CommentData(""), 1, None)], []),
    Doc([Node(DocumentData("", ""), 0, None)], [])]
  const TOP := Item(0, 0, 0)
  const LEFT := Item(0, 1, 0)
  const RIGHT := Item(0, 2, 0)
  const ELSEWHERE := Item(1, 0, 0)

  lemma EveryProperty(c: Property)
    ensures c in APART + {Subtree, SameDoc, Self}
  {
  }

  lemma TwinsAre()
    ensures In(TWINS, TOP) && In(TWINS, LEFT) && In(TWINS, RIGHT) && In(TWINS, ELSEWHERE)
    ensures Under(TWINS, LEFT, TOP) && Under(TWINS, RIGHT, TOP) && Under(TWINS, TOP, TOP)
    ensures !Under(TWINS, LEFT, RIGHT) && !Under(TWINS, RIGHT, LEFT)
    ensures !Under(TWINS, TOP, ELSEWHERE) && !Under(TWINS, ELSEWHERE, TOP)
  {
    var nodes := TWINS[0].nodes;
    assert nodes[2].level == nodes[1].level == 1 && nodes[0].level == 0;
    assert !Below(nodes, 2, 1);
  }

  lemma TwinsHave()
    ensures In(TWINS, TOP)
    ensures Has(TWINS, {DocOrder, Grouped, Peer, Subtree, SameDoc}, TOP, [LEFT, RIGHT])
    ensures Has(TWINS, {Grouped, Peer, Subtree, SameDoc}, TOP, [RIGHT, LEFT])
    ensures Has(TWINS, {DocOrder, Grouped, Subtree, SameDoc}, TOP, [TOP, LEFT])
    ensures Has(TWINS, {Peer}, TOP, [TOP, ELSEWHERE, TOP])
  {
    hide Under, InGroups;
    TwinsAre();
    OneDocument([LEFT, RIGHT], 0);
    OneDocument([RIGHT, LEFT], 0);
    OneDocument([TOP, LEFT], 0);
  }

  lemma TwinsLack()
    ensures !HoldsAt(TWINS, OneNode, TOP, [LEFT, RIGHT])
    ensures !HoldsAt(TWINS, DocOrder, TOP, [RIGHT, LEFT])
    ensures !HoldsAt(TWINS, Peer, TOP, [TOP, LEFT])
    ensures !HoldsAt(TWINS, Grouped, TOP, [TOP, ELSEWHERE, TOP])
  {
    assert !Before(RIGHT, LEFT) && [RIGHT, LEFT][0] == RIGHT && [RIGHT, LEFT][1] == LEFT;
    assert TOP in [TOP, LEFT] && LEFT in [TOP, LEFT] && Under(TWINS, LEFT, TOP);
    assert !Front(0, [ELSEWHERE, TOP]) by { assert TOP in [ELSEWHERE, TOP]; }
    assert [TOP, ELSEWHERE, TOP][1..] == [ELSEWHERE, TOP];
  }

  lemma NotCarried(p: Props, q: Props, c: Property)
    requires c in q && c in APART && c !in Carried(p)
    ensures !FixedSound(p, q)
  {
    hide HoldsAt;
    TwinsHave();
    TwinsLack();
    NotAlone(p);
    match c {
      case OneNode => TwinsShow(p, q, c, [LEFT, RIGHT], {DocOrder, Grouped, Peer, Subtree, SameDoc});
      case DocOrder => TwinsShow(p, q, c, [RIGHT, LEFT], {Grouped, Peer, Subtree, SameDoc});
      case Peer => TwinsShow(p, q, c, [TOP, LEFT], {DocOrder, Grouped, Subtree, SameDoc});
      case Grouped => TwinsShow(p, q, c, [TOP, ELSEWHERE, TOP], {Peer});
    }
  }

  lemma NotAlone(p: Props)
    requires OneNode !in p && Self !in p
    ensures p <= {DocOrder, Grouped, Peer, Subtree, SameDoc}
  {
    forall c | c in p ensures c in {DocOrder, Grouped, Peer, Subtree, SameDoc} {
      EveryProperty(c);
    }
  }

  lemma TwinsShow(p: Props, q: Props, c: Property, r: seq<Item>, ps: Props)
    requires In(TWINS, TOP) && Has(TWINS, ps, TOP, r) && p <= ps && c in q && !HoldsAt(TWINS, c, TOP, r)
    ensures !FixedSound(p, q)
  {
    hide HoldsAt;
    HasFewer(TWINS, ps, p, TOP, r);
    assert !Has(TWINS, q, TOP, r);
  }

  /** Whatever came before, nothing more is carried by the combined properties than by those of
      the step. */
  lemma CombineCarries(p: Props, q: Props)
    ensures Carried(CombineProperties(p, q)) <= Carried(q)
  {
  }

  lemma ApartHolds(w: World, p: Props, x0: Item, x: Item, r: seq<Item>)
    requires In(w, x0) && In(w, x) && Has(w, Carried(p), x0, r)
    ensures Has(w, Carried(p), x, r)
  {
    CarriedHolds(w, Carried(p), x0, x, r);
    HasFewer(w, Carried(Carried(p)), Carried(p), x, r);
  }

  /** What is carried so far and the properties of the step, at each of its context items, give
      what is carried by the combined properties; the subtree need not be earned. */
  lemma CarriedCombines(w: World, x: Item, r: seq<Item>, f: Walk, p: Props, q: Props)
    requires In(w, x) && Has(w, Carried(p), x, r) && Holds(w, q, f)
    ensures Has(w, Carried(CombineProperties(p, q)), x, FlatMap(f, r))
  {
    hide HoldsAt, Has, Holds, CombineProperties;
    var h, before := FlatMap(f, r), Carried(p);
    var step := if Subtree in q then q + {SameDoc} else q;
    SubtreeSameDoc(w, f, q);
    NothingHolds(w, x, r, f, before, step);
    FlatStays(w, f, r);
    var known := CombineProperties(before, step) - {Subtree};
    forall c | c in known ensures HoldsAt(w, c, x, h) {
      RuleSound(w, x, r, f, before, step, c);
    }
    HasAll(w, known, x, h);
    CarriedHolds(w, known, x, x, h);
    CarriedSoFar(p, q);
    HasFewer(w, Carried(known), Carried(CombineProperties(p, q)), x, h);
  }

  lemma SubtreeSameDoc(w: World, f: Walk, q: Props)
    requires Holds(w, q, f)
    ensures Subtree in q ==> Holds(w, q + {SameDoc}, f)
  {
    if Subtree in q {
      forall x | In(w, x) ensures Has(w, q + {SameDoc}, x, f(x)) {
        assert Has(w, q, x, f(x)) && HoldsAt(w, Subtree, x, f(x));
        UnderStays(w, x);
      }
    }
  }

  lemma CarriedSoFar(p: Props, q: Props)
    ensures var step := if Subtree in q then q + {SameDoc} else q;
            Carried(CombineProperties(p, q)) <= Carried(CombineProperties(Carried(p), step) - {Subtree})
  {
  }

  // A step from at most one item, of which only what it carries is known.
  lemma CarriedFromOne(w: World, x: Item, r: seq<Item>, f: Walk, p: Props, q: Props)
    requires In(w, x) && Has(w, Carried(p), x, r) && OneNode in Carried(p)
    requires forall z :: In(w, z) ==> Has(w, Carried(q), z, f(z))
    ensures Has(w, Carried(CombineProperties(p, q)), x, FlatMap(f, r))
  {
    hide CombineProperties, Carried;
    CombineCarries(p, q);
    assert HoldsAt(w, OneNode, x, r);
    if r == [] {
      FewItems(w, x, []);
      CarriedApart(CombineProperties(p, q));
      HasFewer(w, APART, Carried(CombineProperties(p, q)), x, []);
    } else {
      assert r == [r[0]] && r[0] in r;
      Singleton((_: Item) => true, f, r[0]);
      ApartHolds(w, q, r[0], x, f(r[0]));
      HasFewer(w, Carried(q), Carried(CombineProperties(p, q)), x, f(r[0]));
    }
  }

  lemma CarriedApart(p: Props)
    ensures Carried(p) <= APART
  {
  }

  // The order that is inferred for a step is right, though only what it carries is known of it.
  ghost predicate CarriedSound(p: Props, q: Props) {
    forall w: World, x, r, f: Walk ::
      In(w, x) && Has(w, p, x, r) && (forall z :: In(w, z) ==> Has(w, Carried(q), z, f(z))) ==>
        HoldsAt(w, DocOrder, x, FlatMap(f, r))
  }

  /** Where order is inferred for a step of whose properties only what they carry is known, it
      is right exactly if the step is taken from at most one item. */
  lemma CarriedExact(p: Props, q: Props)
    requires DocOrder in CombineProperties(p, q)
    ensures CarriedSound(p, q) <==> OneNode in Carried(p)
  {
    hide Has, Carried, CombineProperties, HoldsAt;
    if OneNode in Carried(p) {
      forall w: World, x, r, f: Walk
        | In(w, x) && Has(w, p, x, r) && (forall z :: In(w, z) ==> Has(w, Carried(q), z, f(z)))
        ensures HoldsAt(w, DocOrder, x, FlatMap(f, r))
      {
        CarriedHolds(w, p, x, x, r);
        CarriedFromOne(w, x, r, f, p, q);
        OrderIsCarried(CombineProperties(p, q));
        HasOne(w, Carried(CombineProperties(p, q)), DocOrder, x, FlatMap(f, r));
      }
    } else {
      OrderRepeated(p, q);
    }
  }

  lemma OrderIsCarried(p: Props)
    ensures DocOrder in p ==> DocOrder in Carried(p)
  {
  }

  lemma HasOne(w: World, ps: Props, c: Property, x: Item, r: seq<Item>)
    requires In(w, x) && Has(w, ps, x, r) && c in ps
    ensures HoldsAt(w, c, x, r)
  {
  }

  // One and the same node from each of two.
  lemma OrderRepeated(p: Props, q: Props)
    requires DocOrder in CombineProperties(p, q) && OneNode !in Carried(p)
    ensures !CarriedSound(p, q)
  {
    hide Has, HoldsAt;
    var f: Walk := _ => [ELSEWHERE];
    TwinsHave();
    NotAlone(p);
    HasFewer(TWINS, {DocOrder, Grouped, Peer, Subtree, SameDoc}, p, TOP, [LEFT, RIGHT]);
    forall z | In(TWINS, z) ensures Has(TWINS, Carried(q), z, f(z)) {
      OneItem(TWINS, Carried(q), ELSEWHERE);
      ApartHolds(TWINS, q, ELSEWHERE, z, [ELSEWHERE]);
    }
    assert FlatMap(f, [LEFT, RIGHT]) == [ELSEWHERE, ELSEWHERE] by { TwoMapped(f, LEFT, RIGHT); }
    NotTwice(ELSEWHERE);
  }

  lemma TwoMapped(f: Walk, a: Item, b: Item)
    ensures FlatMap(f, [a, b]) == f(a) + f(b)
  {
    assert [a, b][1..] == [b];
    Singleton((_: Item) => true, f, b);
  }

  lemma NotTwice(y: Item)
    ensures !HoldsAt(TWINS, DocOrder, TOP, [y, y])
  {
    assert In(TWINS, TOP);
    assert !Before([y, y][0], [y, y][1]);
  }

  // ----- sorting

  // One of each run of equal items.
  function Unique(s: seq<Item>): seq<Item> {
    if |s| <= 1 then s
    else if s[0] == s[1] then Unique(s[1..])
    else [s[0]] + Unique(s[1..])
  }

  /** Sorting into document order, without duplicates. */
  function Ordered(r: seq<Item>): seq<Item> {
    Unique(StableSort.Sort(Before, r))
  }

  ghost predicate SameItems(a: seq<Item>, b: seq<Item>) {
    forall x :: x in a <==> x in b
  }

  lemma BeforeIsOrder()
    ensures StableSort.StrictWeakOrder(Before)
  {
  }

  lemma {:induction false} UniqueIncreasing(s: seq<Item>)
    requires StableSort.Sorted(Before, s)
    ensures Increasing(Unique(s)) && SameItems(Unique(s), s)
    ensures s != [] ==> Unique(s) != [] && Unique(s)[0] == s[0]
  {
    if |s| > 1 {
      var u := Unique(s[1..]);
      UniqueIncreasing(s[1..]);
      assert !Before(s[1], s[0]);
      forall j | 0 <= j < |u| && s[0] != s[1] ensures Before(s[0], u[j]) {
        assert j == 0 || Before(u[0], u[j]);
      }
      assert s == [s[0]] + s[1..] && s[1] == s[1..][0];
    }
  }

  lemma {:induction false} IncreasingUnique(a: seq<Item>, b: seq<Item>)
    requires Increasing(a) && Increasing(b) && SameItems(a, b)
    ensures a == b
  {
    assert (a != [] ==> a[0] in a) && (b != [] ==> b[0] in b);
    if a != [] {
      FirstIsLeast(a, b[0]);
      FirstIsLeast(b, a[0]);
      TailItems(a, b);
      IncreasingUnique(a[1..], b[1..]);
      assert a == [a[0]] + a[1..] && b == [b[0]] + b[1..];
    }
  }

  lemma FirstIsLeast(a: seq<Item>, x: Item)
    requires Increasing(a) && x in a
    ensures a[0] == x || Before(a[0], x)
  {
    var k :| 0 <= k < |a| && a[k] == x;
    assert k == 0 || Before(a[0], a[k]);
  }

  lemma TailItems(a: seq<Item>, b: seq<Item>)
    requires Increasing(a) && Increasing(b) && SameItems(a, b) && a != [] && b != [] && a[0] == b[0]
    ensures SameItems(a[1..], b[1..])
  {
    forall x | x in a[1..] ensures x in b[1..] {
      OtherItem(a, x);
      assert x in a;
      assert b == [b[0]] + b[1..];
    }
    forall x | x in b[1..] ensures x in a[1..] {
      OtherItem(b, x);
      assert x in b;
      assert a == [a[0]] + a[1..];
    }
  }

  lemma OtherItem(a: seq<Item>, x: Item)
    requires Increasing(a) && a != [] && x in a[1..]
    ensures x != a[0]
  {
    var k :| 0 <= k < |a[1..]| && a[1..][k] == x;
    assert Before(a[0], a[k + 1]);
  }

  /** The sorted results: in document order, the same items. */
  lemma OrderedMeans(r: seq<Item>)
    ensures Increasing(Ordered(r)) && SameItems(Ordered(r), r)
  {
    hide StableSort.Sort, Unique;
    BeforeIsOrder();
    StableSort.SortIsSorted(Before, r);
    UniqueIncreasing(StableSort.Sort(Before, r));
    StableSort.SortMembers(Before, r);
    forall x ensures x in StableSort.Sort(Before, r) <==> x in r {
      assert x in multiset(r) <==> x in r;
    }
  }

  /** Sorting results that are in document order changes nothing, and sorting depends on the
      set of results only. */
  lemma OrderedIsIdentity(r: seq<Item>)
    requires Increasing(r)
    ensures Ordered(r) == r
  {
    OrderedMeans(r);
    IncreasingUnique(Ordered(r), r);
  }

  lemma OrderedOfSame(a: seq<Item>, b: seq<Item>)
    requires SameItems(a, b)
    ensures Ordered(a) == Ordered(b)
  {
    OrderedMeans(a);
    OrderedMeans(b);
    IncreasingUnique(Ordered(a), Ordered(b));
  }
}
