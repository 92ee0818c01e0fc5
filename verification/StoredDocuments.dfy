/** The stored form of every tree is a document for the axes. */
module StoredDocuments {
  // Levels, links, containers and attribute runs are as the axes need them.

  import opened Options
  import opened Events
  import opened FastXdm
  import opened FastXdmNavigation
  import opened DocumentOrder
  import opened Axes
  import opened PathTyping

  // The element's attributes start at first.
  ghost predicate FirstAttribute(attrs: seq<Attr>, owner: nat, first: Option<nat>) {
    match first
    case None => forall k :: 0 <= k < |attrs| ==> attrs[k].owner != Some(owner)
    case Some(a) =>
      && a < |attrs| && attrs[a].owner == Some(owner)
      && forall k :: 0 <= k < a ==> attrs[k].owner != Some(owner)
  }

  // Attributes are stored in the order of their owners, and each element has its first one;
  // there are no markers yet.
  ghost predicate Attributed(nodes: seq<Node>, attrs: seq<Attr>) {
    && OwnersRise(attrs)
    && (forall k :: 0 <= k < |nodes| ==> !nodes[k].data.MarkerData?)
    && (forall k :: 0 <= k < |attrs| ==> attrs[k].owner != None && attrs[k].owner.value < |nodes|)
    && forall i :: 0 <= i < |nodes| && nodes[i].data.ElementData? ==> FirstAttribute(attrs, i, nodes[i].data.attributes)
  }

  ghost predicate OpenContainers(nodes: seq<Node>, stack: seq<nat>) {
    forall d :: 0 <= d < |stack| ==> stack[d] < |nodes| && IsContainer(nodes[stack[d]])
  }

  /** What holds of the store after every event. */
  ghost predicate Shaped(s: Store) {
    Navigable(s) && Containers(s.nodes) && OpenContainers(s.nodes, s.stack) && Attributed(s.nodes, s.attrs)
  }

  // The nodes of more start like nodes, but for links and the data of elements.
  ghost predicate Alike(nodes: seq<Node>, more: seq<Node>) {
    && |nodes| <= |more|
    && forall k :: 0 <= k < |nodes| ==> more[k].level == nodes[k].level && IsContainer(more[k]) == IsContainer(nodes[k])
  }

  lemma ContainersSame(nodes: seq<Node>, more: seq<Node>)
    requires Alike(nodes, more) && |more| == |nodes| && Containers(nodes)
    ensures Containers(more)
  {
    forall p, k | 0 <= p < |more| && 0 <= k < |more| && IsChild(more, k, p) ensures IsContainer(more[p]) {
      assert IsChild(nodes, k, p);
    }
  }

  lemma ContainersGrow(nodes: seq<Node>, more: seq<Node>, parent: Option<nat>)
    requires Alike(nodes, more) && |more| == |nodes| + 1 && Containers(nodes)
    requires parent == Parent(more, |nodes|)
    requires parent != None ==> parent.value < |nodes| && IsContainer(nodes[parent.value])
    ensures Containers(more)
  {
    forall p, k | 0 <= p < |more| && 0 <= k < |more| && IsChild(more, k, p) ensures IsContainer(more[p]) {
      if k < |nodes| {
        assert IsChild(nodes, k, p);
      } else {
        ScanBackFinds(more, k, more[k].level, p);
      }
    }
  }

  lemma AppendAlike(s: Store, data: NodeData)
    requires Ok(s)
    ensures var r := Append(s, data);
            && Alike(s.nodes, r.nodes) && |r.nodes| == |s.nodes| + 1 && r.stack == s.stack && r.attrs == s.attrs
            && r.nodes[|s.nodes|].data == data && r.prev == Some(|s.nodes|) && r.pending == s.pending
            && forall k :: 0 <= k < |s.nodes| ==> r.nodes[k].data == s.nodes[k].data
  {
  }

  // As Shaped, but for what Navigable says about buffered text.
  ghost predicate Built(s: Store) {
    && Arranged(s) && Containers(s.nodes) && OpenContainers(s.nodes, s.stack) && Attributed(s.nodes, s.attrs)
  }

  lemma AppendBuilt(s: Store, data: NodeData)
    requires Built(s) && (s.stack == [] ==> s.nodes == [])
    requires !data.MarkerData? && (data.ElementData? ==> data.attributes == None)
    ensures Built(Append(s, data))
  {
    hide Arranged, Append, Containers, Parent;
    assert Ok(s) by { ArrangedIsOk(s); }
    var r := Append(s, data);
    AppendNavigable(s, data);
    AppendAlike(s, data);
    ContainersGrow(s.nodes, r.nodes, Parent(r.nodes, |s.nodes|));
    AttributedGrows(s.nodes, r.nodes, s.attrs);
  }

  lemma ArrangedIsOk(s: Store)
    requires Arranged(s)
    ensures Ok(s)
  {
  }

  lemma AttributedGrows(nodes: seq<Node>, more: seq<Node>, attrs: seq<Attr>)
    requires Attributed(nodes, attrs) && |more| == |nodes| + 1
    requires forall k :: 0 <= k < |nodes| ==> more[k].data == nodes[k].data
    requires !more[|nodes|].data.MarkerData?
    requires more[|nodes|].data.ElementData? ==> more[|nodes|].data.attributes == None
    ensures Attributed(more, attrs)
  {
  }

  // A new attribute of the last node.
  lemma AttributedAdds(nodes: seq<Node>, more: seq<Node>, attrs: seq<Attr>, attr: Attr)
    requires Attributed(nodes, attrs) && nodes != [] && |more| == |nodes| && attr.owner == Some(|nodes| - 1)
    requires forall k :: 0 <= k < |nodes| - 1 ==> more[k].data == nodes[k].data
    requires nodes[|nodes| - 1].data.ElementData? && more[|nodes| - 1].data.ElementData?
    requires more[|nodes| - 1].data.attributes ==
      if nodes[|nodes| - 1].data.attributes == None then Some(|attrs|) else nodes[|nodes| - 1].data.attributes
    ensures Attributed(more, attrs + [attr])
  {
    var all := attrs + [attr];
    forall i | 0 <= i < |more| && more[i].data.ElementData? ensures FirstAttribute(all, i, more[i].data.attributes) {
      assert FirstAttribute(attrs, i, nodes[i].data.attributes);
    }
  }

  // The data of nodes changes, but not where their attributes start.
  lemma AttributedSame(nodes: seq<Node>, more: seq<Node>, attrs: seq<Attr>)
    requires Attributed(nodes, attrs) && |more| == |nodes|
    requires forall k :: 0 <= k < |nodes| && more[k].data.ElementData? ==>
      nodes[k].data.ElementData? && more[k].data.attributes == nodes[k].data.attributes
    requires forall k :: 0 <= k < |nodes| && more[k].data.MarkerData? ==> nodes[k].data.MarkerData?
    ensures Attributed(more, attrs)
  {
  }

  lemma CheckTextShaped(s: Store)
    requires Shaped(s)
    ensures Shaped(CheckText(s))
  {
    hide Arranged, Containers, Append;
    CheckTextNavigable(s);
    assert Ok(s) by { NavigableIsOk(s); }
    if s.pending && (s.nodes == [] || s.text != "") {
      AppendBuilt(s, TextData(s.text));
    }
  }

  /** Every event of a single tree keeps the store well shaped. */
  lemma HandleShaped(s: Store, e: Event)
    requires Shaped(s) && Safe(s, e)
    ensures Ok(s) && Shaped(Handle(s, e))
  {
    hide Arranged, Append, CheckText, Containers, Attributed, Navigable;
    assert Ok(s) by { NavigableIsOk(s); }
    var t, r := CheckText(s), Handle(s, e);
    HandleNavigable(s, e);
    CheckTextShaped(s);
    FlushedStore(s);
    match e {
      case StartDocument(u, enc) =>
        var start := s.(stack := [], prev := None, text := "", pending := false);
        EmptyNavigable(s);
        OpenedShaped(start, DocumentData(u, enc));
      case StartElement(tag) =>
        NavigableIsArranged(t);
        OpenedShaped(t, ElementData(tag, None, None, None));
      case EndDocument =>
      case EndElement(_, typed) => EndedShaped(s, e);
      case Comment(v) =>
        NavigableIsArranged(t);
        AppendBuilt(t, CommentData(v));
      case ProcessingInstruction(target, v) =>
        NavigableIsArranged(t);
        AppendBuilt(t, PIData(target, v));
      case Text(v) =>
      case Attribute(_, _, _) => MemberShaped(s, e);
      case Namespace(_, _) => MemberShaped(s, e);
    }
  }

  lemma NavigableIsArranged(s: Store)
    requires Navigable(s)
    ensures Arranged(s)
  {
  }

  lemma OpenedShaped(s: Store, data: NodeData)
    requires Built(s) && (s.stack == [] ==> s.nodes == [])
    requires data.DocumentData? || (data.ElementData? && data.attributes == None)
    ensures Ok(s) && Append(s, data).attrs == s.attrs
    ensures Containers(Append(s, data).nodes) && Attributed(Append(s, data).nodes, s.attrs)
    ensures OpenContainers(Open(Append(s, data)).nodes, Open(Append(s, data)).stack)
  {
    hide Arranged, Append, Containers, Attributed;
    assert Ok(s) by { ArrangedIsOk(s); }
    AppendBuilt(s, data);
    AppendAlike(s, data);
  }

  lemma EndedShaped(s: Store, e: Event)
    requires Ok(s) && Safe(s, e) && e.EndElement?
    requires var t := CheckText(s);
             Containers(t.nodes) && OpenContainers(t.nodes, t.stack) && Attributed(t.nodes, t.attrs)
    ensures var r := Handle(s, e);
            Containers(r.nodes) && OpenContainers(r.nodes, r.stack) && Attributed(r.nodes, r.attrs)
  {
    hide Append, CheckText, Containers, Attributed;
    var t, r := CheckText(s), Handle(s, e);
    assert t.nodes[Top(t)].data.ElementData?;
    ContainersSame(t.nodes, r.nodes);
    AttributedSame(t.nodes, r.nodes, t.attrs);
  }

  lemma MemberShaped(s: Store, e: Event)
    requires Ok(s) && Safe(s, e) && (e.Attribute? || e.Namespace?)
    requires Containers(s.nodes) && OpenContainers(s.nodes, s.stack) && Attributed(s.nodes, s.attrs)
    ensures var r := Handle(s, e);
            Containers(r.nodes) && OpenContainers(r.nodes, r.stack) && Attributed(r.nodes, r.attrs)
  {
    hide Append, CheckText, Containers, Attributed;
    var r := Handle(s, e);
    ContainersSame(s.nodes, r.nodes);
    if e.Attribute? {
      AttributedAdds(s.nodes, r.nodes, s.attrs, Attr(Some(Top(s)), e.tag, e.value, TypeOr(e.typed, UNTYPED_ATOMIC)));
    } else {
      AttributedSame(s.nodes, r.nodes, s.attrs);
    }
  }

  lemma {:induction false} RunShaped(s: Store, events: seq<Event>)
    requires Shaped(s) && Ok(s) && AllSafe(s, events)
    ensures Shaped(Run(s, events))
    decreases |events|
  {
    hide Shaped, Handle;
    if events != [] {
      HandleShaped(s, events[0]);
      RunShaped(Handle(s, events[0]), events[1..]);
    }
  }

  // The document in a finished store: without the end markers.
  function DocOf(s: Store): Doc {
    Doc(if s.nodes == [] then [] else s.nodes[..|s.nodes| - 1], if s.attrs == [] then [] else s.attrs[..|s.attrs| - 1])
  }

  /** A stored document, as the axes need it. */
  ghost predicate IsDocument(d: Doc) {
    && d.nodes != [] && Levels(d.nodes) && Linked(d.nodes) && Containers(d.nodes) && Attributed(d.nodes, d.attrs)
  }

  /** The finished store of every well-formed tree is a document followed by the markers. */
  lemma TreeIsDocument(t: Tree)
    requires WellFormed(t)
    ensures AllSafe(EMPTY, TreeEvents(t))
    ensures var s := Finish(Run(EMPTY, TreeEvents(t)));
            && IsDocument(DocOf(s)) && s.nodes == DocOf(s).nodes + [MARKER]
            && (s.attrs == [] || s.attrs == DocOf(s).attrs + [ATTR_MARKER])
  {
    hide Shaped, Run, AllSafe, TreeEvents, IsDocument, Encodes, Merge;
    BuildsTree(t);
    assert Shaped(EMPTY) by { EmptyShaped(); }
    var s := Run(EMPTY, TreeEvents(t));
    RunShaped(EMPTY, TreeEvents(t));
    assert Finish(s).nodes != [];
    FinishIsDocument(s);
  }

  lemma EmptyShaped()
    ensures Shaped(EMPTY)
  {
  }

  lemma FinishIsDocument(s: Store)
    requires Ok(s) && Shaped(s) && Finish(s).nodes != []
    ensures var r := Finish(s);
            && IsDocument(DocOf(r)) && r.nodes == DocOf(r).nodes + [MARKER]
            && (r.attrs == [] || r.attrs == DocOf(r).attrs + [ATTR_MARKER])
  {
    hide CheckText, Containers, Attributed, Levels, Linked;
    var t, r := CheckText(s), Finish(s);
    CheckTextShaped(s);
    assert r.nodes == t.nodes + [MARKER] && DocOf(r).nodes == t.nodes;
    assert DocOf(r).attrs == t.attrs;
  }

  /** Stored documents are what typing paths asks for. */
  lemma DocumentsHold(w: World)
    requires forall d :: 0 <= d < |w| ==> IsDocument(w[d])
    ensures Documents(w) && InOrder(w)
  {
    hide Containers, Levels, Linked, OwnersRise;
  }
}
