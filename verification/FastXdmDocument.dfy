/** The store as an object over growing arrays, proved against the handlers of module FastXdm. */
module FastXdmDocument {
  import opened Options
  import opened Events
  import opened FastXdm
  import opened FastXdmNavigation

  class FastXDMDocument {
    var nodes: array<Node>
    var numNodes: nat
    var attributes: array<Attr>
    var numAttributes: nat
    var namespaces: array<Ns>
    var numNamespaces: nat
    var elementStack: seq<nat>
    var prevNode: Option<nat>
    var textBuffer: string
    var textToCreate: bool

    ghost predicate Valid()
      reads this, nodes, attributes, namespaces
    {
      && numNodes <= nodes.Length && numAttributes <= attributes.Length && numNamespaces <= namespaces.Length
      && Ok(Contents())
    }

    // What the arrays hold, up to their fill marks.
    ghost function Contents(): Store
      requires numNodes <= nodes.Length && numAttributes <= attributes.Length && numNamespaces <= namespaces.Length
      reads this, nodes, attributes, namespaces
    {
      Store(nodes[..numNodes], attributes[..numAttributes], namespaces[..numNamespaces],
            elementStack, prevNode, textBuffer, textToCreate)
    }

    // The arrays are the old ones or new ones, and none has shrunk.
    twostate predicate OwnArrays()
      reads this
    {
      && (nodes == old(nodes) || fresh(nodes))
      && (attributes == old(attributes) || fresh(attributes))
      && (namespaces == old(namespaces) || fresh(namespaces))
      && nodes.Length >= old(nodes.Length) && attributes.Length >= old(attributes.Length)
      && namespaces.Length >= old(namespaces.Length)
    }

    constructor (maxNodes: nat, maxAttributes: nat, maxNamespaces: nat)
      ensures Valid() && Contents() == EMPTY
      ensures nodes.Length == maxNodes && attributes.Length == maxAttributes && namespaces.Length == maxNamespaces
      ensures fresh(nodes) && fresh(attributes) && fresh(namespaces)
    {
      nodes := new Node[maxNodes](_ => MARKER);
      attributes := new Attr[maxAttributes](_ => ATTR_MARKER);
      namespaces := new Ns[maxNamespaces](_ => NS_MARKER);
      numNodes, numAttributes, numNamespaces := 0, 0, 0;
      elementStack, prevNode, textBuffer, textToCreate := [], None, "", false;
    }

    method ResizeNodes()
      requires Valid()
      modifies this`nodes
      ensures Valid() && Contents() == old(Contents())
      ensures fresh(nodes) && nodes.Length == 2 * old(nodes.Length)
    {
      var newMem := new Node[nodes.Length * 2](_ => MARKER);
      forall i | 0 <= i < numNodes {
        newMem[i] := nodes[i];
      }
      assert newMem[..numNodes] == nodes[..numNodes];
      nodes := newMem;
    }

    method ResizeAttributes()
      requires Valid()
      modifies this`attributes
      ensures Valid() && Contents() == old(Contents())
      ensures fresh(attributes) && attributes.Length == 2 * old(attributes.Length)
    {
      var newMem := new Attr[attributes.Length * 2](_ => ATTR_MARKER);
      forall i | 0 <= i < numAttributes {
        newMem[i] := attributes[i];
      }
      assert newMem[..numAttributes] == attributes[..numAttributes];
      attributes := newMem;
    }

    method ResizeNamespaces()
      requires Valid()
      modifies this`namespaces
      ensures Valid() && Contents() == old(Contents())
      ensures fresh(namespaces) && namespaces.Length == 2 * old(namespaces.Length)
    {
      var newMem := new Ns[namespaces.Length * 2](_ => NS_MARKER);
      forall i | 0 <= i < numNamespaces {
        newMem[i] := namespaces[i];
      }
      assert newMem[..numNamespaces] == namespaces[..numNamespaces];
      namespaces := newMem;
    }

    // Writes a node into the next slot and links it from the previous sibling.
    method AddNode(data: NodeData)
      requires Valid() && 0 < nodes.Length
      modifies this, nodes
      ensures Valid() && Contents() == Append(old(Contents()), data) && OwnArrays()
    {
      if numNodes == nodes.Length {
        ResizeNodes();
      }
      LinkPrevious();
      ghost var linked := nodes[..numNodes];
      nodes[numNodes] := Node(data, |elementStack|, None);
      prevNode := Some(numNodes);
      numNodes := numNodes + 1;
      assert nodes[..numNodes] == linked + [Node(data, |elementStack|, None)];
    }

    // Adds a node and opens it.
    method OpenNode(data: NodeData)
      requires Valid() && 0 < nodes.Length && (data.DocumentData? || data.ElementData?)
      modifies this, nodes
      ensures Valid() && Contents() == Open(Append(old(Contents()), data)) && OwnArrays()
    {
      AddNode(data);
      elementStack, prevNode := elementStack + [numNodes - 1], None;
    }

    // Links the previous sibling, if any, to the slot about to be written.
    method LinkPrevious()
      requires Valid()
      modifies nodes
      ensures Valid() && Contents() == old(Contents()).(nodes := LinkedFrom(old(Contents())))
    {
      if prevNode != None {
        ghost var was := nodes[..numNodes];
        nodes[prevNode.value] := nodes[prevNode.value].(nextSibling := Some(numNodes));
        assert nodes[..numNodes] == was[prevNode.value := was[prevNode.value].(nextSibling := Some(numNodes))];
      }
    }

    method CheckTextBuffer()
      requires Valid() && (textToCreate ==> 0 < nodes.Length)
      modifies this, nodes
      ensures Valid() && Contents() == CheckText(old(Contents())) && OwnArrays()
    {
      if textToCreate {
        if numNodes == 0 || textBuffer != "" {
          AddNode(TextData(textBuffer));
        }
        textBuffer, textToCreate := "", false;
      }
    }

    method StartDocumentEvent(documentUri: string, encoding: string)
      requires Valid() && Safe(Contents(), StartDocument(documentUri, encoding)) && 0 < nodes.Length
      modifies this, nodes
      ensures Valid() && Contents() == Handle(old(Contents()), StartDocument(documentUri, encoding)) && OwnArrays()
    {
      elementStack, prevNode, textBuffer, textToCreate := [], None, "", false;
      OpenNode(DocumentData(documentUri, encoding));
    }

    method EndDocumentEvent()
      requires Valid() && Safe(Contents(), EndDocument)
      modifies this, nodes
      ensures Valid() && Contents() == Handle(old(Contents()), EndDocument) && OwnArrays()
    {
      hide Append, CheckText;
      CheckTextBuffer();
      prevNode := Some(elementStack[|elementStack| - 1]);
      elementStack := elementStack[..|elementStack| - 1];
    }

    method StartElementEvent(tag: Tag)
      requires Valid() && Safe(Contents(), StartElement(tag)) && 0 < nodes.Length
      modifies this, nodes
      ensures Valid() && Contents() == Handle(old(Contents()), StartElement(tag)) && OwnArrays()
    {
      hide Append, CheckText;
      CheckTextBuffer();
      OpenNode(ElementData(tag, None, None, None));
    }

    method EndElementEvent(tag: Tag, typed: Option<TypeRef>)
      requires Valid() && Safe(Contents(), EndElement(tag, typed))
      modifies this, nodes
      ensures Valid() && Contents() == Handle(old(Contents()), EndElement(tag, typed)) && OwnArrays()
    {
      hide Append, CheckText;
      CheckTextBuffer();
      var i := elementStack[|elementStack| - 1];
      prevNode := Some(i);
      elementStack := elementStack[..|elementStack| - 1];
      ghost var was := nodes[..numNodes];
      nodes[i] := nodes[i].(data := nodes[i].data.(typed := Some(TypeOr(typed, UNTYPED))));
      assert nodes[..numNodes] == was[i := was[i].(data := was[i].data.(typed := Some(TypeOr(typed, UNTYPED))))];
    }

    method PiEvent(target: string, value: string)
      requires Valid() && Safe(Contents(), ProcessingInstruction(target, value)) && 0 < nodes.Length
      modifies this, nodes
      ensures Valid() && Contents() == Handle(old(Contents()), ProcessingInstruction(target, value)) && OwnArrays()
    {
      hide Append, CheckText;
      CheckTextBuffer();
      AddNode(PIData(target, value));
    }

    method TextEvent(value: string)
      requires Valid() && Safe(Contents(), Text(value))
      modifies this
      ensures Valid() && Contents() == Handle(old(Contents()), Text(value)) && OwnArrays()
    {
      textBuffer, textToCreate := textBuffer + value, true;
    }

    method CommentEvent(value: string)
      requires Valid() && Safe(Contents(), Comment(value)) && 0 < nodes.Length
      modifies this, nodes
      ensures Valid() && Contents() == Handle(old(Contents()), Comment(value)) && OwnArrays()
    {
      hide Append, CheckText;
      CheckTextBuffer();
      AddNode(CommentData(value));
    }

    method AttributeEvent(tag: Tag, value: string, typed: Option<TypeRef>)
      requires Valid() && (elementStack == [] || InElement(Contents())) && 0 < attributes.Length
      modifies this, nodes, attributes
      ensures Valid() && Contents() == AddAttribute(old(Contents()), tag, value, typed) && OwnArrays()
    {
      hide Append, CheckText;
      var owner := if elementStack == [] then None else Some(elementStack[|elementStack| - 1]);
      var first := numAttributes;
      PushAttribute(Attr(owner, tag, value, TypeOr(typed, UNTYPED_ATOMIC)));
      if owner != None && nodes[owner.value].data.attributes == None {
        var i := owner.value;
        ghost var was := nodes[..numNodes];
        var data := nodes[i].data.(attributes := Some(first));
        nodes[i] := nodes[i].(data := data);
        assert nodes[..numNodes] == was[i := was[i].(data := data)];
      }
    }

    // Writes an attribute into the next slot.
    method PushAttribute(attr: Attr)
      requires Valid() && 0 < attributes.Length && (attr.owner == None || attr.owner.value < numNodes)
      modifies this`attributes, this`numAttributes, attributes
      ensures Valid() && Contents() == old(Contents()).(attrs := old(Contents()).attrs + [attr]) && OwnArrays()
    {
      if numAttributes == attributes.Length {
        ResizeAttributes();
      }
      ghost var attrs := attributes[..numAttributes];
      attributes[numAttributes] := attr;
      numAttributes := numAttributes + 1;
      assert attributes[..numAttributes] == attrs + [attr];
    }

    method NamespaceEvent(prefix: string, uri: string)
      requires Valid() && Safe(Contents(), Namespace(prefix, uri)) && 0 < namespaces.Length
      modifies this, nodes, namespaces
      ensures Valid() && Contents() == Handle(old(Contents()), Namespace(prefix, uri)) && OwnArrays()
    {
      hide Append, CheckText;
      var owner := elementStack[|elementStack| - 1];
      if numNamespaces == namespaces.Length {
        ResizeNamespaces();
      }
      ghost var was, nss := nodes[..numNodes], namespaces[..numNamespaces];
      namespaces[numNamespaces] := Ns(Some(owner), prefix, uri);
      assert namespaces[..numNamespaces + 1] == nss + [Ns(Some(owner), prefix, uri)];
      if nodes[owner].data.namespaces == None {
        nodes[owner] := nodes[owner].(data := nodes[owner].data.(namespaces := Some(numNamespaces)));
        ghost var data := was[owner].data.(namespaces := Some(numNamespaces));
        assert nodes[..numNodes] == was[owner := was[owner].(data := data)];
      }
      numNamespaces := numNamespaces + 1;
    }

    // There is a slot for what the event adds, or doubling makes one.
    predicate HasRoom(e: Event)
      reads this
    {
      && 0 < nodes.Length && (e.Attribute? ==> 0 < attributes.Length) && (e.Namespace? ==> 0 < namespaces.Length)
    }

    /** One event of the stream. */
    method OnEvent(e: Event)
      requires Valid() && Safe(Contents(), e) && HasRoom(e)
      modifies this, nodes, attributes, namespaces
      ensures Valid() && Contents() == Handle(old(Contents()), e) && OwnArrays()
    {
      match e {
        case StartDocument(u, enc) => StartDocumentEvent(u, enc);
        case EndDocument => EndDocumentEvent();
        case StartElement(tag) => StartElementEvent(tag);
        case EndElement(tag, typed) => EndElementEvent(tag, typed);
        case Text(v) => TextEvent(v);
        case Comment(v) => CommentEvent(v);
        case ProcessingInstruction(target, v) => PiEvent(target, v);
        case Attribute(tag, v, typed) => AttributeEvent(tag, v, typed);
        case Namespace(prefix, u) => NamespaceEvent(prefix, u);
      }
    }

    /** The end of the stream: flushes the last text and adds the end markers. */
    method EndEvent()
      requires Valid() && (textToCreate ==> 0 < nodes.Length)
      modifies this, nodes, attributes, namespaces
      ensures Valid() && Contents() == Finish(old(Contents())) && OwnArrays()
    {
      hide Append, CheckText, Ok;
      FlushText();
      if numNodes > 0 {
        MarkNodes();
      }
      if numAttributes > 0 {
        MarkAttributes();
      }
      if numNamespaces > 0 {
        MarkNamespaces();
      }
    }

    method FlushText()
      requires Valid() && (textToCreate ==> 0 < nodes.Length)
      modifies this, nodes
      ensures Valid() && Contents() == CheckText(old(Contents())).(stack := []) && OwnArrays()
    {
      hide Append, CheckText;
      CheckTextBuffer();
      elementStack := [];
    }

    method MarkNodes()
      requires Valid() && 0 < numNodes
      modifies this`nodes, this`numNodes, nodes
      ensures Valid() && OwnArrays()
      ensures Contents() == old(Contents()).(nodes := old(Contents()).nodes + [MARKER])
    {
      if numNodes == nodes.Length {
        ResizeNodes();
      }
      ghost var was := nodes[..numNodes];
      nodes[numNodes] := MARKER;
      numNodes := numNodes + 1;
      assert nodes[..numNodes] == was + [MARKER];
    }

    method MarkAttributes()
      requires Valid() && 0 < numAttributes
      modifies this`attributes, this`numAttributes, attributes
      ensures Valid() && OwnArrays()
      ensures Contents() == old(Contents()).(attrs := old(Contents()).attrs + [ATTR_MARKER])
    {
      if numAttributes == attributes.Length {
        ResizeAttributes();
      }
      ghost var was := attributes[..numAttributes];
      attributes[numAttributes] := ATTR_MARKER;
      numAttributes := numAttributes + 1;
      assert attributes[..numAttributes] == was + [ATTR_MARKER];
    }

    method MarkNamespaces()
      requires Valid() && 0 < numNamespaces
      modifies this`namespaces, this`numNamespaces, namespaces
      ensures Valid() && OwnArrays()
      ensures Contents() == old(Contents()).(nss := old(Contents()).nss + [NS_MARKER])
    {
      if numNamespaces == namespaces.Length {
        ResizeNamespaces();
      }
      ghost var was := namespaces[..numNamespaces];
      namespaces[numNamespaces] := NS_MARKER;
      numNamespaces := numNamespaces + 1;
      assert namespaces[..numNamespaces] == was + [NS_MARKER];
    }

    /** The backward scan for a node's parent. */
    method GetParent(node: nat) returns (r: Option<nat>)
      requires Valid() && node < numNodes && Levels(Contents().nodes[..node + 1])
      ensures r == Parent(Contents().nodes, node)
    {
      ghost var all := Contents().nodes[..node + 1];
      ScanBackSame(all, Contents().nodes, node, nodes[node].level);
      var level := nodes[node].level;
      if level == 0 {
        assert node == 0 || StepsDown(all, node);
        return None;
      }
      ParentIsOneUp(all, node);
      var k := node - 1;
      while nodes[k].level >= level
        invariant 0 <= k < node
        invariant forall m :: k < m < node ==> all[m].level >= level
        invariant Parent(all, node).value <= k
        decreases k
      {
        k := k - 1;
      }
      ScanBackFinds(all, node, level, k);
      return Some(k);
    }

    // The stored tree t starts at node, and something follows it that is not below it.
    ghost predicate Holds(node: nat, t: Tree, level: nat)
      requires Valid()
      reads this, nodes, attributes, namespaces
    {
      && Encodes(Contents().nodes, Contents().attrs, node, t, level)
      && node + Size(t) < numNodes && nodes[node + Size(t)].level <= level
      && (numAttributes > 0 ==> attributes[numAttributes - 1] == ATTR_MARKER)
    }

    /** Writes the stored tree out as events, without namespaces, and returns the node after it. */
    method ToEventsImpl(node: nat, preserveType: bool, ghost t: Tree, ghost level: nat)
      returns (next: nat, events: seq<Event>)
      requires Valid() && Holds(node, t, level)
      ensures next == node + Size(t) && events == Output(t, preserveType)
      decreases t, 1
    {
      match nodes[node].data {
        case DocumentData(u, enc) =>
          var child, inner := KidsToEvents(node, preserveType, t.kids, level);
          return child, [StartDocument(u, enc)] + inner + [EndDocument];
        case ElementData(tag, _, _, typed) =>
          var attrs := AttributesToEvents(node, preserveType, t.members);
          var child, inner := KidsToEvents(node, preserveType, t.kids, level);
          var end := EndElement(tag, if preserveType then typed else Some(UNTYPED));
          return child, [StartElement(tag)] + attrs + inner + [end];
        case TextData(v) => return node + 1, [Text(v)];
        case CommentData(v) => return node + 1, [Comment(v)];
        case PIData(target, v) => return node + 1, [ProcessingInstruction(target, v)];
        case MarkerData => assert false;
      }
    }

    method KidsToEvents(node: nat, preserveType: bool, ghost kids: seq<Tree>, ghost level: nat)
      returns (child: nat, events: seq<Event>)
      requires Valid() && node < numNodes && nodes[node].level == level
      requires EncodesAll(Contents().nodes, Contents().attrs, node + 1, kids, level + 1)
      requires node + 1 + SizeAll(kids) < numNodes && nodes[node + 1 + SizeAll(kids)].level <= level
      requires numAttributes > 0 ==> attributes[numAttributes - 1] == ATTR_MARKER
      ensures child == node + 1 + SizeAll(kids) && events == OutputAll(kids, preserveType)
      decreases kids, 0
    {
      hide Ok, Encodes, EncodesAll, Output, Size, OutputAll, SizeAll;
      NoKidsLeft(kids, preserveType);
      child, events := node + 1, [];
      ghost var all, k := Contents(), 0;
      assert kids[0..] == kids;
      while nodes[child].level > nodes[node].level
        invariant k <= |kids| && child + SizeAll(kids[k..]) == node + 1 + SizeAll(kids)
        invariant EncodesAll(all.nodes, all.attrs, child, kids[k..], level + 1)
        invariant events + OutputAll(kids[k..], preserveType) == OutputAll(kids, preserveType)
        decreases |kids| - k
      {
        NextKid(all, child, kids, k, level + 1, preserveType);
        var inner;
        child, inner := ToEventsImpl(child, preserveType, kids[k], level + 1);
        events := events + inner;
        k := k + 1;
      }
      assert k == |kids| by {
        if k < |kids| {
          NextKid(all, child, kids, k, level + 1, preserveType);
        }
      }
    }

    method AttributesToEvents(node: nat, preserveType: bool, ghost run: seq<Member>) returns (events: seq<Event>)
      requires Valid() && node < numNodes && nodes[node].data.ElementData?
      requires AttributeRun(Contents().attrs, node, nodes[node].data.attributes, run)
      requires numAttributes > 0 ==> attributes[numAttributes - 1] == ATTR_MARKER
      ensures events == OutputMembers(run, preserveType)
    {
      hide OutputMembers;
      events := [];
      var first := nodes[node].data.attributes;
      OutputMembersAt(run, |run|, preserveType);
      if first != None {
        var attr := first.value;
        ghost var all := Contents().attrs;
        assert all[attr + |run| - 1].owner == Some(node) && attr + |run| < |all|;
        hide Ok;
        assert run[0..] == run;
        while attributes[attr].owner == Some(node)
          invariant first.value <= attr <= first.value + |run| < numAttributes
          invariant events + OutputMembers(run[attr - first.value..], preserveType) == OutputMembers(run, preserveType)
          decreases first.value + |run| - attr
        {
          var a := attributes[attr];
          assert all[attr] == a;
          OutputMembersAt(run, attr - first.value, preserveType);
          events := events + [Attribute(a.tag, a.value, if preserveType then Some(a.typed) else Some(UNTYPED_ATOMIC))];
          attr := attr + 1;
        }
        assert all[attr].owner != Some(node);
      }
    }
  }

  lemma NoKidsLeft(kids: seq<Tree>, preserveType: bool)
    ensures kids[|kids|..] == [] && SizeAll([]) == 0 && OutputAll([], preserveType) == []
  {
  }

  // The first of the kids that are left, and what it leaves.
  lemma NextKid(s: Store, child: nat, kids: seq<Tree>, k: nat, level: nat, preserveType: bool)
    requires k < |kids| && EncodesAll(s.nodes, s.attrs, child, kids[k..], level)
    requires child + SizeAll(kids[k..]) < |s.nodes| && s.nodes[child + SizeAll(kids[k..])].level <= level
    ensures child < |s.nodes| && s.nodes[child].level == level
    ensures Encodes(s.nodes, s.attrs, child, kids[k], level)
    ensures EncodesAll(s.nodes, s.attrs, child + Size(kids[k]), kids[k + 1..], level)
    ensures SizeAll(kids[k..]) == Size(kids[k]) + SizeAll(kids[k + 1..])
    ensures child + Size(kids[k]) < |s.nodes| && s.nodes[child + Size(kids[k])].level <= level
    ensures OutputAll(kids[k..], preserveType) == Output(kids[k], preserveType) + OutputAll(kids[k + 1..], preserveType)
  {
    assert kids[k..][1..] == kids[k + 1..];
    if kids[k + 1..] != [] {
      assert Encodes(s.nodes, s.attrs, child + Size(kids[k]), kids[k + 1..][0], level);
    }
  }

  lemma OutputMembersAt(run: seq<Member>, k: nat, preserveType: bool)
    requires k <= |run|
    ensures k == |run| ==> OutputMembers(run[k..], preserveType) == []
    ensures k < |run| && run[k].AttributeMember? ==>
      OutputMembers(run[k..], preserveType)
      == [Attribute(run[k].tag, run[k].value, if preserveType then run[k].typed else Some(UNTYPED_ATOMIC))]
         + OutputMembers(run[k + 1..], preserveType)
  {
    if k < |run| {
      assert run[k..][1..] == run[k + 1..];
    }
  }

  lemma RunStep(s: Store, e: Event, rest: seq<Event>)
    requires Ok(s) && AllSafe(s, [e] + rest)
    ensures Safe(s, e) && AllSafe(Handle(s, e), rest)
    ensures Run(s, [e] + rest) == Run(Handle(s, e), rest)
  {
    assert ([e] + rest)[1..] == rest;
  }

  lemma OutputOfText(t: Tree, preserveType: bool)
    requires t.TextTree?
    ensures Output(Merge(t), preserveType) == TreeEvents(t)
  {
  }

  /** What the arrays must have room for: doubling an array without slots makes none. */
  predicate HasSlots(events: seq<Event>, maxNodes: nat, maxAttributes: nat, maxNamespaces: nat) {
    && 0 < maxNodes
    && ((exists e :: e in events && e.Attribute?) ==> 0 < maxAttributes)
    && ((exists e :: e in events && e.Namespace?) ==> 0 < maxNamespaces)
  }

  /** Feeds the events to the document, one by one, and ends the stream. */
  method Feed(document: FastXDMDocument, events: seq<Event>)
    requires document.Valid() && AllSafe(document.Contents(), events)
    requires HasSlots(events, document.nodes.Length, document.attributes.Length, document.namespaces.Length)
    modifies document, document.nodes, document.attributes, document.namespaces
    ensures document.Valid() && document.Contents() == Finish(Run(old(document.Contents()), events))
  {
    hide Ok, Handle, AllSafe, Run, Finish;
    var i := 0;
    ghost var built := Run(document.Contents(), events);
    assert events[0..] == events;
    while i < |events|
      invariant i <= |events| && document.Valid() && document.OwnArrays()
      invariant AllSafe(document.Contents(), events[i..]) && Run(document.Contents(), events[i..]) == built
    {
      assert events[i] in events && events[i..] == [events[i]] + events[i + 1..];
      RunStep(document.Contents(), events[i], events[i + 1..]);
      document.OnEvent(events[i]);
      i := i + 1;
    }
    assert events[i..] == [];
    RunNothing(document.Contents());
    document.EndEvent();
  }

  /** Feeding the stream of any well-formed tree into a new store with room for what it has,
      whatever the initial sizes, and writing node 0 out again gives the stream without its
      namespaces, with adjacent text merged, empty text dropped and absent types defaulted; a
      root text is kept as it is. */
  method RoundTrip(t: Tree, preserveType: bool, maxNodes: nat, maxAttributes: nat, maxNamespaces: nat)
    returns (out: seq<Event>)
    requires WellFormed(t) && HasSlots(TreeEvents(t), maxNodes, maxAttributes, maxNamespaces)
    ensures out == if t.TextTree? then TreeEvents(t) else Clean(TreeEvents(t), "", preserveType)
  {
    hide Ok, Handle, AllSafe, Run, Clean, TreeEvents, Finish, Output, Merge, Encodes;
    var document := new FastXDMDocument(maxNodes, maxAttributes, maxNamespaces);
    BuildsTree(t);
    Feed(document, TreeEvents(t));
    var next;
    next, out := document.ToEventsImpl(0, preserveType, Merge(t), 0);
    if t.TextTree? {
      OutputOfText(t, preserveType);
    } else {
      OutputIsClean(t, preserveType);
    }
  }

  /** An attribute on its own, in a store that may have no room for nodes, is written out with
      its type defaulted. */
  method AttributeRoundTrip(
    tag: Tag, value: string, typed: Option<TypeRef>, preserveType: bool, maxNodes: nat, maxAttributes: nat,
    maxNamespaces: nat)
    returns (out: seq<Event>)
    requires 0 < maxAttributes
    ensures out == [Retype(Attribute(tag, value, typed), preserveType)]
  {
    var document := new FastXDMDocument(maxNodes, maxAttributes, maxNamespaces);
    document.AttributeEvent(tag, value, typed);
    ghost var all := document.Contents().attrs;
    document.EndEvent();
    assert document.Contents().attrs == all + [ATTR_MARKER];
    var attr := document.attributes[0];
    assert attr == document.Contents().attrs[0];
    out := [Attribute(attr.tag, attr.value, if preserveType then Some(attr.typed) else Some(UNTYPED_ATOMIC))];
  }

  /** The condition on the initial sizes is needed: the finished store has nodes, and attributes
      and namespaces exactly if the stream has. */
  lemma SlotsAreNeeded(t: Tree)
    requires WellFormed(t)
    ensures AllSafe(EMPTY, TreeEvents(t))
    ensures var s, events := Finish(Run(EMPTY, TreeEvents(t))), TreeEvents(t);
            && s.nodes != []
            && (s.attrs != [] <==> exists e :: e in events && e.Attribute?)
            && (s.nss != [] <==> exists e :: e in events && e.Namespace?)
  {
    hide TreeEvents, Run, AllSafe, Finish;
    BuildsTree(t);
    RunMembers(EMPTY, TreeEvents(t));
    FinishMembers(Run(EMPTY, TreeEvents(t)));
  }

  lemma FinishMembers(s: Store)
    requires Ok(s)
    ensures var r := Finish(s); (r.attrs != [] <==> s.attrs != []) && (r.nss != [] <==> s.nss != [])
  {
  }

  lemma HandleMembers(s: Store, e: Event)
    requires Ok(s) && Safe(s, e)
    ensures |Handle(s, e).attrs| == |s.attrs| + if e.Attribute? then 1 else 0
    ensures |Handle(s, e).nss| == |s.nss| + if e.Namespace? then 1 else 0
  {
  }

  lemma {:induction false} RunMembers(s: Store, events: seq<Event>)
    requires Ok(s) && AllSafe(s, events)
    ensures Run(s, events).attrs != [] <==> s.attrs != [] || exists e :: e in events && e.Attribute?
    ensures Run(s, events).nss != [] <==> s.nss != [] || exists e :: e in events && e.Namespace?
    decreases |events|
  {
    hide Handle;
    if events != [] {
      HandleMembers(s, events[0]);
      RunMembers(Handle(s, events[0]), events[1..]);
      assert events == [events[0]] + events[1..];
    }
  }
}
