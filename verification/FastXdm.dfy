/** The flat document store. */
module FastXdm {
  // A tree is kept as an array of nodes in document order, each with its level, a link to its
  // next sibling, and the start of its run in the attribute array.

  import opened Options
  import opened Events

  datatype NodeData =
    | DocumentData(documentUri: string, encoding: string)
    | ElementData(tag: Tag, attributes: Option<nat>, namespaces: Option<nat>, typed: Option<TypeRef>)
    | TextData(value: string)
    | CommentData(value: string)
    | PIData(target: string, value: string)
    | MarkerData

  datatype Node = Node(data: NodeData, level: nat, nextSibling: Option<nat>)

  // An attribute; the end marker has no owner.
  datatype Attr = Attr(owner: Option<nat>, tag: Tag, value: string, typed: TypeRef)

  datatype Ns = Ns(owner: Option<nat>, prefix: string, uri: string)

  const UNTYPED := TypeRef("http://www.w3.org/2001/XMLSchema", "untyped")
  const UNTYPED_ATOMIC := TypeRef("http://www.w3.org/2001/XMLSchema", "untypedAtomic")

  const MARKER := Node(MarkerData, 0, None)
  const ATTR_MARKER := Attr(None, Tag("", "", ""), "", UNTYPED_ATOMIC)
  const NS_MARKER := Ns(None, "", "")

  /** What the store holds while a document is being built. */
  datatype Store = Store(
    nodes: seq<Node>, attrs: seq<Attr>, nss: seq<Ns>, stack: seq<nat>, prev: Option<nat>, text: string, pending: bool)

  const EMPTY := Store([], [], [], [], None, "", false)

  function TypeOr(typed: Option<TypeRef>, default: TypeRef): TypeRef {
    match typed case None => default case Some(t) => t
  }

  predicate Ok(s: Store) {
    && (forall k :: 0 <= k < |s.stack| ==> s.stack[k] < |s.nodes|)
    && (s.prev != None ==> s.prev.value < |s.nodes|)
    && (!s.pending ==> s.text == "")
    && (forall k :: 0 <= k < |s.attrs| && s.attrs[k].owner != None ==> s.attrs[k].owner.value < |s.nodes|)
  }

  function Top(s: Store): nat
    requires s.stack != []
  {
    s.stack[|s.stack| - 1]
  }

  // ----- the event handlers

  // The nodes with the previous sibling linked to the next node to come.
  function LinkedFrom(s: Store): seq<Node>
    requires Ok(s)
  {
    if s.prev == None then s.nodes
    else s.nodes[s.prev.value := s.nodes[s.prev.value].(nextSibling := Some(|s.nodes|))]
  }

  // A new node, linked from its previous sibling.
  function Append(s: Store, data: NodeData): (r: Store)
    requires Ok(s)
    ensures Ok(r) && |r.nodes| == |s.nodes| + 1
  {
    s.(nodes := LinkedFrom(s) + [Node(data, |s.stack|, None)], prev := Some(|s.nodes|))
  }

  // The buffered text becomes a node, unless it is empty; an empty root text is kept.
  function CheckText(s: Store): (r: Store)
    requires Ok(s)
    ensures Ok(r) && r.stack == s.stack && |s.nodes| <= |r.nodes|
    ensures forall k :: 0 <= k < |s.nodes| ==> r.nodes[k].data == s.nodes[k].data
  {
    if !s.pending then s
    else if s.nodes == [] || s.text != "" then Append(s, TextData(s.text)).(text := "", pending := false)
    else s.(text := "", pending := false)
  }

  // Makes the node just appended the innermost open one.
  function Open(s: Store): (r: Store)
    requires Ok(s) && s.nodes != []
    ensures Ok(r)
  {
    s.(stack := s.stack + [|s.nodes| - 1], prev := None)
  }

  predicate InElement(s: Store) {
    s.stack != [] && Top(s) < |s.nodes| && s.nodes[Top(s)].data.ElementData?
  }

  predicate InDocument(s: Store) {
    s.stack != [] && Top(s) < |s.nodes| && s.nodes[Top(s)].data.DocumentData?
  }

  /** The event protocol of a single tree: one root, ends that match their starts, and the
      attributes and namespaces of an element right after its start. */
  predicate Safe(s: Store, e: Event) {
    match e
    case StartDocument(_, _) => s.nodes == [] && s.stack == [] && !s.pending
    case EndDocument => InDocument(s)
    case EndElement(_, _) => InElement(s)
    case Text(_) => s.stack != [] || s.nodes == []
    case Attribute(_, _, _) => InElement(s) && Top(s) == |s.nodes| - 1 && !s.pending
    case Namespace(_, _) => InElement(s) && Top(s) == |s.nodes| - 1 && !s.pending
    case _ => s.stack != [] || (s.nodes == [] && !s.pending)
  }

  // An attribute of the innermost element, or without an owner if nothing is open.
  function AddAttribute(s: Store, tag: Tag, v: string, typed: Option<TypeRef>): (r: Store)
    requires Ok(s) && (s.stack == [] || InElement(s))
    ensures Ok(r)
  {
    var attr := Attr(if s.stack == [] then None else Some(Top(s)), tag, v, TypeOr(typed, UNTYPED_ATOMIC));
    var added := s.(attrs := s.attrs + [attr]);
    if s.stack == [] || s.nodes[Top(s)].data.attributes != None then added
    else
      var data := s.nodes[Top(s)].data.(attributes := Some(|s.attrs|));
      added.(nodes := s.nodes[Top(s) := s.nodes[Top(s)].(data := data)])
  }

  function Handle(s: Store, e: Event): (r: Store)
    requires Ok(s) && Safe(s, e)
    ensures Ok(r)
  {
    match e
    case StartDocument(u, enc) =>
      Open(Append(s.(stack := [], prev := None, text := "", pending := false), DocumentData(u, enc)))
    case EndDocument =>
      var t := CheckText(s);
      t.(stack := t.stack[..|t.stack| - 1], prev := Some(Top(t)))
    case StartElement(tag) =>
      Open(Append(CheckText(s), ElementData(tag, None, None, None)))
    case EndElement(_, typed) =>
      var t := CheckText(s);
      var i := Top(t);
      t.(stack := t.stack[..|t.stack| - 1], prev := Some(i),
         nodes := t.nodes[i := t.nodes[i].(data := t.nodes[i].data.(typed := Some(TypeOr(typed, UNTYPED))))])
    case Text(v) => s.(text := s.text + v, pending := true)
    case Comment(v) => Append(CheckText(s), CommentData(v))
    case ProcessingInstruction(target, v) => Append(CheckText(s), PIData(target, v))
    case Attribute(tag, v, typed) => AddAttribute(s, tag, v, typed)
    case Namespace(prefix, u) =>
      var added := s.(nss := s.nss + [Ns(Some(Top(s)), prefix, u)]);
      if s.nodes[Top(s)].data.namespaces != None then added
      else
        var owner := s.nodes[Top(s)];
        added.(nodes := s.nodes[Top(s) := owner.(data := owner.data.(namespaces := Some(|s.nss|)))])
  }

  // The end of the stream: the last text, and the end markers.
  function Finish(s: Store): Store
    requires Ok(s)
  {
    var t := CheckText(s);
    t.(stack := [],
       nodes := if t.nodes == [] then [] else t.nodes + [MARKER],
       attrs := if t.attrs == [] then [] else t.attrs + [ATTR_MARKER],
       nss := if t.nss == [] then [] else t.nss + [NS_MARKER])
  }

  predicate AllSafe(s: Store, events: seq<Event>)
    requires Ok(s)
    decreases |events|
  {
    events == [] || (Safe(s, events[0]) && AllSafe(Handle(s, events[0]), events[1..]))
  }

  function Run(s: Store, events: seq<Event>): (r: Store)
    requires Ok(s) && AllSafe(s, events)
    ensures Ok(r)
    decreases |events|
  {
    if events == [] then s
    else Run(Handle(s, events[0]), events[1..])
  }

  lemma RunNothing(s: Store)
    requires Ok(s)
    ensures AllSafe(s, []) && Run(s, []) == s
  {
  }

  lemma RunCons(s: Store, e: Event, rest: seq<Event>)
    requires Ok(s) && Safe(s, e) && AllSafe(Handle(s, e), rest)
    ensures AllSafe(s, [e] + rest) && Run(s, [e] + rest) == Run(Handle(s, e), rest)
  {
    assert ([e] + rest)[1..] == rest;
  }

  lemma {:induction false} RunConcat(s: Store, a: seq<Event>, b: seq<Event>)
    requires Ok(s) && AllSafe(s, a) && AllSafe(Run(s, a), b)
    ensures AllSafe(s, a + b) && Run(s, a + b) == Run(Run(s, a), b)
    decreases |a|
  {
    hide Handle;
    if a == [] {
      assert a + b == b;
    } else {
      RunConcat(Handle(s, a[0]), a[1..], b);
      assert (a + b)[1..] == a[1..] + b;
    }
  }

  // ----- trees

  datatype Member =
    | AttributeMember(tag: Tag, value: string, typed: Option<TypeRef>)
    | NamespaceMember(prefix: string, uri: string)

  datatype Tree =
    | DocumentTree(documentUri: string, encoding: string, kids: seq<Tree>)
    | ElementTree(tag: Tag, members: seq<Member>, kids: seq<Tree>, typed: Option<TypeRef>)
    | TextTree(value: string)
    | CommentTree(value: string)
    | PITree(target: string, value: string)

  // No document below the root.
  predicate NoDocuments(kids: seq<Tree>) {
    forall k :: k in kids ==> !k.DocumentTree? && (k.ElementTree? ==> NoDocuments(k.kids))
  }

  predicate WellFormed(t: Tree) {
    t.DocumentTree? || t.ElementTree? ==> NoDocuments(t.kids)
  }

  function MemberEvents(members: seq<Member>): seq<Event> {
    if members == [] then [] else [MemberEvent(members[0])] + MemberEvents(members[1..])
  }

  function MemberEvent(m: Member): Event {
    match m
    case AttributeMember(tag, v, typed) => Attribute(tag, v, typed)
    case NamespaceMember(prefix, u) => Namespace(prefix, u)
  }

  /** The event stream of a tree. */
  function TreeEvents(t: Tree): seq<Event>
    decreases t, 0
  {
    match t
    case DocumentTree(u, enc, kids) => [StartDocument(u, enc)] + KidEvents(kids) + [EndDocument]
    case ElementTree(tag, members, kids, typed) =>
      [StartElement(tag)] + MemberEvents(members) + KidEvents(kids) + [EndElement(tag, typed)]
    case TextTree(v) => [Text(v)]
    case CommentTree(v) => [Comment(v)]
    case PITree(target, v) => [ProcessingInstruction(target, v)]
  }

  function KidEvents(kids: seq<Tree>): seq<Event>
    decreases kids, 1
  {
    if kids == [] then [] else TreeEvents(kids[0]) + KidEvents(kids[1..])
  }

  // ----- what the store keeps of a tree

  function TextKid(text: string): seq<Tree> {
    if text == "" then [] else [TextTree(text)]
  }

  /** Adjacent text merged, empty text dropped, absent types defaulted. */
  function Merge(t: Tree): Tree
    decreases t, 0
  {
    match t
    case DocumentTree(u, enc, kids) => DocumentTree(u, enc, MergeKids(kids, ""))
    case ElementTree(tag, members, kids, typed) =>
      ElementTree(tag, MergeMembers(members), MergeKids(kids, ""), Some(TypeOr(typed, UNTYPED)))
    case _ => t
  }

  function MergeKids(kids: seq<Tree>, text: string): seq<Tree>
    decreases kids, 1
  {
    if kids == [] then TextKid(text)
    else if kids[0].TextTree? then MergeKids(kids[1..], text + kids[0].value)
    else TextKid(text) + [Merge(kids[0])] + MergeKids(kids[1..], "")
  }

  // The attributes, in order.
  function MergeMembers(members: seq<Member>): seq<Member> {
    if members == [] then [] else MergeMember(members[0]) + MergeMembers(members[1..])
  }

  function MergeMember(m: Member): seq<Member> {
    match m
    case AttributeMember(tag, v, typed) => [AttributeMember(tag, v, Some(TypeOr(typed, UNTYPED_ATOMIC)))]
    case NamespaceMember(_, _) => []
  }

  function Size(t: Tree): nat
    decreases t, 0
  {
    match t
    case DocumentTree(_, _, kids) => 1 + SizeAll(kids)
    case ElementTree(_, _, kids, _) => 1 + SizeAll(kids)
    case _ => 1
  }

  function SizeAll(kids: seq<Tree>): nat
    decreases kids, 1
  {
    if kids == [] then 0 else Size(kids[0]) + SizeAll(kids[1..])
  }

  // The attributes of node owner are exactly the run that starts at first.
  ghost predicate AttributeRun(attrs: seq<Attr>, owner: nat, first: Option<nat>, run: seq<Member>) {
    match first
    case None => run == [] && forall k :: 0 <= k < |attrs| ==> attrs[k].owner != Some(owner)
    case Some(a) =>
      && run != [] && a + |run| <= |attrs|
      && (forall k :: 0 <= k < |attrs| ==> (attrs[k].owner == Some(owner) <==> a <= k < a + |run|))
      && forall k :: 0 <= k < |run| ==>
           run[k] == AttributeMember(attrs[a + k].tag, attrs[a + k].value, Some(attrs[a + k].typed))
  }

  /** The nodes from index i on encode the tree t, at the given level. */
  ghost predicate Encodes(nodes: seq<Node>, attrs: seq<Attr>, i: nat, t: Tree, level: nat)
    decreases t, 0
  {
    && i < |nodes| && nodes[i].level == level
    && match t
       case DocumentTree(u, enc, kids) =>
         nodes[i].data == DocumentData(u, enc) && EncodesAll(nodes, attrs, i + 1, kids, level + 1)
       case ElementTree(tag, members, kids, typed) =>
         && nodes[i].data.ElementData? && nodes[i].data.tag == tag && nodes[i].data.typed == typed && typed != None
         && AttributeRun(attrs, i, nodes[i].data.attributes, members)
         && EncodesAll(nodes, attrs, i + 1, kids, level + 1)
       case TextTree(v) => nodes[i].data == TextData(v)
       case CommentTree(v) => nodes[i].data == CommentData(v)
       case PITree(target, v) => nodes[i].data == PIData(target, v)
  }

  ghost predicate EncodesAll(nodes: seq<Node>, attrs: seq<Attr>, i: nat, kids: seq<Tree>, level: nat)
    decreases kids, 1
  {
    kids == [] ||
    (Encodes(nodes, attrs, i, kids[0], level) && EncodesAll(nodes, attrs, i + Size(kids[0]), kids[1..], level))
  }

  // From index lo on, the nodes of s are in r too, but for their sibling links; the attributes
  // of s are in r; and the new attributes of r belong to new nodes.
  ghost predicate GrownFrom(s: Store, r: Store, lo: nat) {
    && |s.nodes| <= |r.nodes|
    && (forall k :: lo <= k < |s.nodes| ==> r.nodes[k].data == s.nodes[k].data && r.nodes[k].level == s.nodes[k].level)
    && |s.attrs| <= |r.attrs|
    && (forall k :: 0 <= k < |s.attrs| ==> r.attrs[k] == s.attrs[k])
    && forall k :: |s.attrs| <= k < |r.attrs| ==> r.attrs[k].owner == None || r.attrs[k].owner.value >= |s.nodes|
  }

  ghost predicate Grown(s: Store, r: Store) {
    GrownFrom(s, r, 0)
  }

  lemma {:induction false} EncodesGrows(s: Store, r: Store, lo: nat, i: nat, t: Tree, level: nat)
    requires GrownFrom(s, r, lo) && lo <= i && Encodes(s.nodes, s.attrs, i, t, level)
    ensures Encodes(r.nodes, r.attrs, i, t, level)
    decreases t, 0
  {
    match t {
      case DocumentTree(_, _, kids) => EncodesAllGrows(s, r, lo, i + 1, kids, level + 1);
      case ElementTree(_, members, kids, _) =>
        EncodesAllGrows(s, r, lo, i + 1, kids, level + 1);
        RunGrows(s, r, lo, i, s.nodes[i].data.attributes, members);
      case _ =>
    }
  }

  lemma {:induction false} EncodesAllGrows(s: Store, r: Store, lo: nat, i: nat, kids: seq<Tree>, level: nat)
    requires GrownFrom(s, r, lo) && lo <= i && EncodesAll(s.nodes, s.attrs, i, kids, level)
    ensures EncodesAll(r.nodes, r.attrs, i, kids, level)
    decreases kids, 1
  {
    if kids != [] {
      EncodesGrows(s, r, lo, i, kids[0], level);
      EncodesAllGrows(s, r, lo, i + Size(kids[0]), kids[1..], level);
    }
  }

  lemma RunGrows(s: Store, r: Store, lo: nat, owner: nat, first: Option<nat>, run: seq<Member>)
    requires GrownFrom(s, r, lo) && owner < |s.nodes| && AttributeRun(s.attrs, owner, first, run)
    ensures AttributeRun(r.attrs, owner, first, run)
  {
  }

  lemma {:induction false} EncodesAllConcat(nodes: seq<Node>, attrs: seq<Attr>, i: nat, a: seq<Tree>, b: seq<Tree>,
      level: nat)
    requires EncodesAll(nodes, attrs, i, a, level) && EncodesAll(nodes, attrs, i + SizeAll(a), b, level)
    ensures EncodesAll(nodes, attrs, i, a + b, level) && SizeAll(a + b) == SizeAll(a) + SizeAll(b)
    decreases |a|
  {
    if a == [] {
      assert a + b == b;
    } else {
      assert (a + b)[1..] == a[1..] + b;
      EncodesAllConcat(nodes, attrs, i + Size(a[0]), a[1..], b, level);
    }
  }

  // ----- building

  // Nothing is buffered, and something is open.
  predicate Inside(s: Store) {
    Ok(s) && s.stack != []
  }

  // An element, comment or processing instruction may come: no text is buffered at the root.
  predicate Ready(s: Store) {
    Ok(s) && ((s.stack != [] && s.nodes != []) || (s.stack == [] && s.nodes == [] && !s.pending))
  }

  // r follows s in the same open element, with nothing buffered.
  ghost predicate Follows(s: Store, r: Store) {
    Ok(r) && r.stack == s.stack && !r.pending && Grown(s, r)
  }

  lemma GrownTrans(s: Store, r: Store, t: Store)
    requires Grown(s, r) && Grown(r, t)
    ensures Grown(s, t)
  {
  }

  lemma CheckTextBuilds(s: Store)
    requires Inside(s) && s.nodes != []
    ensures var r := CheckText(s);
            && Follows(s, r) && r.text == ""
            && |r.nodes| == |s.nodes| + SizeAll(TextKid(s.text))
            && EncodesAll(r.nodes, r.attrs, |s.nodes|, TextKid(s.text), |s.stack|)
  {
    var kids, r := TextKid(s.text), CheckText(s);
    if kids != [] {
      assert kids[1..] == [];
      assert Encodes(r.nodes, r.attrs, |s.nodes|, kids[0], |s.stack|);
    }
  }

  // A childless node.
  lemma LeafBuilds(s: Store, t: Tree)
    requires Ready(s) && (t.CommentTree? || t.PITree?)
    ensures AllSafe(s, TreeEvents(t))
    ensures Built(CheckText(s), Run(s, TreeEvents(t)), t)
  {
    var e := TreeEvents(t)[0];
    assert TreeEvents(t)[1..] == [];
  }

  // From s, which has nothing buffered, the events of t lead to r, which encodes t.
  ghost predicate Built(s: Store, r: Store, t: Tree)
  {
    && Follows(s, r) && r.text == ""
    && |r.nodes| == |s.nodes| + Size(Merge(t))
    && Encodes(r.nodes, r.attrs, |s.nodes|, Merge(t), |s.stack|)
  }

  // Right after the start of an element that has the attributes in run so far.
  ghost predicate AtStart(s: Store, run: seq<Member>) {
    && Inside(s) && !s.pending && Top(s) == |s.nodes| - 1
    && var i, data := Top(s), s.nodes[Top(s)].data;
    && data.ElementData?
    && AttributeRun(s.attrs, i, data.attributes, run)
    && (run != [] ==> data.attributes.value + |run| == |s.attrs|)
  }

  // r is s with more attributes and namespaces of the innermost element.
  ghost predicate MembersAdded(s: Store, r: Store)
    requires Inside(s)
  {
    && r.stack == s.stack && r.prev == s.prev && r.text == s.text
    && |r.nodes| == |s.nodes|
    && (forall k :: 0 <= k < |s.nodes| && k != Top(s) ==> r.nodes[k] == s.nodes[k])
    && r.nodes[Top(s)].level == s.nodes[Top(s)].level
    && s.nodes[Top(s)].data.ElementData? && r.nodes[Top(s)].data.ElementData?
    && r.nodes[Top(s)].data.tag == s.nodes[Top(s)].data.tag
    && |s.attrs| <= |r.attrs|
    && (forall k :: 0 <= k < |s.attrs| ==> r.attrs[k] == s.attrs[k])
    && forall k :: |s.attrs| <= k < |r.attrs| ==> r.attrs[k].owner == Some(Top(s))
  }

  lemma MemberStep(s: Store, m: Member, run: seq<Member>)
    requires AtStart(s, run)
    ensures Safe(s, MemberEvent(m)) && Inside(Handle(s, MemberEvent(m)))
    ensures AtStart(Handle(s, MemberEvent(m)), run + MergeMember(m))
    ensures MembersAdded(s, Handle(s, MemberEvent(m)))
  {
    hide Append, CheckText;
    match m {
      case AttributeMember(tag, v, typed) =>
        AttributeStep(s, tag, v, typed, run);
      case NamespaceMember(prefix, u) =>
        NamespaceStep(s, prefix, u, run);
        assert run + [] == run;
    }
  }

  lemma AttributeStep(s: Store, tag: Tag, v: string, typed: Option<TypeRef>, run: seq<Member>)
    requires AtStart(s, run)
    ensures Safe(s, Attribute(tag, v, typed))
    ensures var r := Handle(s, Attribute(tag, v, typed));
            && AtStart(r, run + [AttributeMember(tag, v, Some(TypeOr(typed, UNTYPED_ATOMIC)))])
            && MembersAdded(s, r)
  {
    hide Append, CheckText;
  }

  lemma NamespaceStep(s: Store, prefix: string, u: string, run: seq<Member>)
    requires AtStart(s, run)
    ensures Safe(s, Namespace(prefix, u))
    ensures var r := Handle(s, Namespace(prefix, u)); AtStart(r, run) && MembersAdded(s, r)
  {
    hide Append, CheckText;
  }

  lemma NothingAdded(s: Store, run: seq<Member>)
    requires AtStart(s, run)
    ensures MembersAdded(s, s)
  {
  }

  lemma MembersAddedTrans(s: Store, t: Store, r: Store)
    requires Inside(s) && Inside(t) && MembersAdded(s, t) && MembersAdded(t, r)
    ensures MembersAdded(s, r)
  {
  }

  // Attributes and namespaces right after the start of their element.
  lemma {:induction false} MembersBuild(s: Store, members: seq<Member>, run: seq<Member>)
    requires Inside(s) && AtStart(s, run)
    ensures AllSafe(s, MemberEvents(members)) && Inside(Run(s, MemberEvents(members)))
    ensures AtStart(Run(s, MemberEvents(members)), run + MergeMembers(members))
    ensures MembersAdded(s, Run(s, MemberEvents(members)))
    decreases |members|
  {
    hide Handle, AtStart, MembersAdded, AllSafe, Run, Ok;
    if members == [] {
      NothingAdded(s, run);
      RunNothing(s);
      assert run + [] == run;
    } else {
      hide MemberEvents, MergeMembers, MergeMember, MemberEvent;
      FirstEvent(members);
      FirstMerged(members);
      var rest := members[1..];
      MemberStep(s, members[0], run);
      var t := Handle(s, MemberEvent(members[0]));
      MembersBuild(t, rest, run + MergeMember(members[0]));
      RunCons(s, MemberEvent(members[0]), MemberEvents(rest));
      MembersAddedTrans(s, t, Run(t, MemberEvents(rest)));
      assert run + MergeMember(members[0]) + MergeMembers(rest) == run + MergeMembers(members);
    }
  }

  // The events of kids lead from s to m; with the last text flushed, m encodes the kids, the
  // first of them joined with the text buffered in s.
  ghost predicate KidsBuilt(s: Store, m: Store, kids: seq<Tree>) {
    && Ok(m) && m.stack == s.stack
    && var r, merged := CheckText(m), MergeKids(kids, s.text);
    && Follows(s, r) && r.text == ""
    && |r.nodes| == |s.nodes| + SizeAll(merged)
    && EncodesAll(r.nodes, r.attrs, |s.nodes|, merged, |s.stack|)
  }

  lemma {:induction false} KidsBuild(s: Store, kids: seq<Tree>)
    requires Inside(s) && s.nodes != [] && NoDocuments(kids)
    ensures AllSafe(s, KidEvents(kids))
    ensures KidsBuilt(s, Run(s, KidEvents(kids)), kids)
    decreases kids, 1
  {
    hide Handle, AllSafe, Run, Encodes, EncodesAll, Grown;
    if kids == [] {
      RunNothing(s);
      CheckTextBuilds(s);
    } else {
      var rest := kids[1..];
      if kids[0].TextTree? {
        TextBuilds(s, kids[0].value);
        var t := s.(text := s.text + kids[0].value, pending := true);
        KidsBuild(t, rest);
        RunConcat(s, TreeEvents(kids[0]), KidEvents(rest));
        KidsAfterText(s, kids);
      } else {
        TreeBuilds(s, kids[0]);
        var t := Run(s, TreeEvents(kids[0]));
        KidsBuild(t, rest);
        RunConcat(s, TreeEvents(kids[0]), KidEvents(rest));
        KidsAfterTree(s, kids);
      }
    }
  }

  lemma TextBuilds(s: Store, v: string)
    requires Ok(s) && Safe(s, Text(v))
    ensures AllSafe(s, [Text(v)]) && Run(s, [Text(v)]) == s.(text := s.text + v, pending := true)
  {
    RunCons(s, Text(v), []);
  }

  lemma KidsAfterText(s: Store, kids: seq<Tree>)
    requires Inside(s) && s.nodes != [] && kids != [] && kids[0].TextTree?
    requires var t := s.(text := s.text + kids[0].value, pending := true);
             AllSafe(t, KidEvents(kids[1..])) && KidsBuilt(t, Run(t, KidEvents(kids[1..])), kids[1..])
    ensures var t := s.(text := s.text + kids[0].value, pending := true);
            KidsBuilt(s, Run(t, KidEvents(kids[1..])), kids)
  {
  }

  lemma KidsAfterTree(s: Store, kids: seq<Tree>)
    requires Inside(s) && s.nodes != [] && kids != [] && !kids[0].TextTree?
    requires AllSafe(s, TreeEvents(kids[0])) && Built(CheckText(s), Run(s, TreeEvents(kids[0])), kids[0])
    requires var t := Run(s, TreeEvents(kids[0]));
             AllSafe(t, KidEvents(kids[1..])) && KidsBuilt(t, Run(t, KidEvents(kids[1..])), kids[1..])
    ensures KidsBuilt(s, Run(Run(s, TreeEvents(kids[0])), KidEvents(kids[1..])), kids)
  {
    hide Handle, AllSafe, Run, Encodes, EncodesAll, TreeEvents, KidEvents, Ok, CheckText, Grown, SizeAll, Merge;
    var s1 := CheckText(s);
    var t := Run(s, TreeEvents(kids[0]));
    var r := CheckText(Run(t, KidEvents(kids[1..])));
    CheckTextBuilds(s);
    Joins(s, s1, t, r, TextKid(s.text), Merge(kids[0]), MergeKids(kids[1..], ""), |s.stack|);
    GrownTrans(s, s1, r);
    assert TextKid(s.text) + ([Merge(kids[0])] + MergeKids(kids[1..], "")) == MergeKids(kids, s.text);
  }

  // Nodes that encode some text, a tree and more trees, one after the other.
  lemma Joins(s: Store, s1: Store, t: Store, r: Store, text: seq<Tree>, first: Tree, rest: seq<Tree>, level: nat)
    requires Grown(s1, t) && Grown(t, r)
    requires EncodesAll(s1.nodes, s1.attrs, |s.nodes|, text, level) && |s1.nodes| == |s.nodes| + SizeAll(text)
    requires Encodes(t.nodes, t.attrs, |s1.nodes|, first, level) && |t.nodes| == |s1.nodes| + Size(first)
    requires EncodesAll(r.nodes, r.attrs, |t.nodes|, rest, level) && |r.nodes| == |t.nodes| + SizeAll(rest)
    ensures Grown(s1, r)
    ensures EncodesAll(r.nodes, r.attrs, |s.nodes|, text + ([first] + rest), level)
    ensures |r.nodes| == |s.nodes| + SizeAll(text + ([first] + rest))
  {
    hide Encodes;
    GrownTrans(s1, t, r);
    EncodesAllGrows(s1, r, 0, |s.nodes|, text, level);
    EncodesGrows(t, r, 0, |s1.nodes|, first, level);
    hide Grown;
    var tail := [first] + rest;
    assert tail[1..] == rest;
    EncodesAllConcat(r.nodes, r.attrs, |s.nodes|, text, tail, level);
  }

  lemma {:induction false} TreeBuilds(s: Store, t: Tree)
    requires Ready(s) && WellFormed(t) && !t.TextTree? && !t.DocumentTree?
    ensures AllSafe(s, TreeEvents(t))
    ensures Built(CheckText(s), Run(s, TreeEvents(t)), t)
    decreases t, 0
  {
    hide Handle, AllSafe, Run, Built, KidsBuilt, AtStart, MembersAdded;
    if t.ElementTree? {
      var s2 := ElementStarts(s, t.tag);
      MembersBuild(s2, t.members, []);
      var s3 := Run(s2, MemberEvents(t.members));
      MembersAreInside(s2, s3, [] + MergeMembers(t.members));
      KidsBuild(s3, t.kids);
      var s4 := Run(s3, KidEvents(t.kids));
      ElementBuilt(s, t, s2, s3, s4);
      RunElement(s, t, s2, s3, s4);
    } else {
      LeafBuilds(s, t);
    }
  }

  // The events of an element, part by part.
  lemma RunElement(s: Store, t: Tree, s2: Store, s3: Store, s4: Store)
    requires t.ElementTree? && Ok(s) && Safe(s, StartElement(t.tag)) && s2 == Handle(s, StartElement(t.tag))
    requires AllSafe(s2, MemberEvents(t.members)) && s3 == Run(s2, MemberEvents(t.members))
    requires AllSafe(s3, KidEvents(t.kids)) && s4 == Run(s3, KidEvents(t.kids))
    requires Safe(s4, EndElement(t.tag, t.typed))
    ensures AllSafe(s, TreeEvents(t))
    ensures Run(s, TreeEvents(t)) == Handle(s4, EndElement(t.tag, t.typed))
  {
    hide Handle, AllSafe, Run;
    var start, end := StartElement(t.tag), EndElement(t.tag, t.typed);
    var members, kids := MemberEvents(t.members), KidEvents(t.kids);
    RunNothing(Handle(s4, end));
    RunCons(s4, end, []);
    assert [end] + [] == [end];
    RunConcat(s3, kids, [end]);
    RunConcat(s2, members, kids + [end]);
    RunCons(s, start, members + (kids + [end]));
    assert TreeEvents(t) == [start] + (members + (kids + [end]));
  }

  lemma ElementStarts(s: Store, tag: Tag) returns (s2: Store)
    requires Ready(s)
    ensures Safe(s, StartElement(tag)) && s2 == Handle(s, StartElement(tag))
    ensures Inside(s2) && AtStart(s2, []) && s2.text == ""
    ensures s2.stack == s.stack + [|CheckText(s).nodes|]
    ensures |s2.nodes| == |CheckText(s).nodes| + 1
    ensures s2.nodes[|s2.nodes| - 1] == Node(ElementData(tag, None, None, None), |s.stack|, None)
    ensures Grown(CheckText(s), s2) && s2.attrs == s.attrs
  {
    s2 := Handle(s, StartElement(tag));
  }

  lemma MembersAreInside(s: Store, r: Store, run: seq<Member>)
    requires Inside(s) && MembersAdded(s, r) && AtStart(r, run) && s.text == ""
    ensures Inside(r) && r.nodes != [] && r.text == "" && !r.pending
  {
  }

  lemma ElementBuilt(s: Store, t: Tree, s2: Store, s3: Store, s4: Store)
    requires Ready(s) && t.ElementTree?
    requires Inside(s2) && AtStart(s2, []) && s2.stack == s.stack + [|CheckText(s).nodes|] && s2.text == ""
    requires |s2.nodes| == |CheckText(s).nodes| + 1 && Grown(CheckText(s), s2)
    requires s2.nodes[|s2.nodes| - 1] == Node(ElementData(t.tag, None, None, None), |s.stack|, None)
    requires s2.attrs == s.attrs
    requires MembersAdded(s2, s3) && AtStart(s3, [] + MergeMembers(t.members)) && KidsBuilt(s3, s4, t.kids)
    ensures Ok(s4) && Safe(s4, EndElement(t.tag, t.typed)) && Ok(Handle(s4, EndElement(t.tag, t.typed)))
    ensures Built(CheckText(s), Handle(s4, EndElement(t.tag, t.typed)), t)
  {
    hide Append, CheckText, MergeKids, MergeMembers, EncodesAll, SizeAll;
    var s1, i := CheckText(s), Top(s2);
    var r := CheckText(s4);
    var end := EndElement(t.tag, t.typed);
    assert i == |s1.nodes| && r.stack == s2.stack;
    assert [] + MergeMembers(t.members) == MergeMembers(t.members);
    RunGrows(s3, r, 0, i, s3.nodes[i].data.attributes, MergeMembers(t.members));
    assert Safe(s4, end);
    var done := Handle(s4, end);
    EncodesAllGrows(r, done, i + 1, i + 1, MergeKids(t.kids, ""), |s.stack| + 1);
    assert done.stack == s.stack;
  }

  /** The finished store of a whole stream: the nodes encode the merged tree, and the markers
      follow. */
  ghost predicate Finished(r: Store, t: Tree) {
    && |r.nodes| == Size(Merge(t)) + 1 && r.nodes[|r.nodes| - 1] == MARKER
    && Encodes(r.nodes, r.attrs, 0, Merge(t), 0)
    && (r.attrs != [] ==> r.attrs[|r.attrs| - 1] == ATTR_MARKER)
  }

  lemma BuildsTree(t: Tree)
    requires WellFormed(t)
    ensures AllSafe(EMPTY, TreeEvents(t))
    ensures Finished(Finish(Run(EMPTY, TreeEvents(t))), t)
  {
    match t {
      case DocumentTree(u, enc, kids) => DocumentBuilds(u, enc, kids);
      case TextTree(v) => TextBuilds(EMPTY, v);
      case _ =>
        TreeBuilds(EMPTY, t);
        FinishKeeps(Run(EMPTY, TreeEvents(t)), t);
    }
  }

  lemma FinishKeeps(s: Store, t: Tree)
    requires Ok(s) && !s.pending && s.nodes != []
    requires |s.nodes| == Size(Merge(t)) && Encodes(s.nodes, s.attrs, 0, Merge(t), 0)
    ensures Finished(Finish(s), t)
  {
    EncodesGrows(s, Finish(s), 0, 0, Merge(t), 0);
  }

  lemma DocumentStarts(u: string, enc: string)
    ensures var s := Handle(EMPTY, StartDocument(u, enc));
            s.stack == [0] && s.nodes == [Node(DocumentData(u, enc), 0, None)] && s.text == "" && !s.pending
  {
  }

  lemma DocumentEnds(s: Store)
    requires Ok(s) && InDocument(s)
    ensures var r, done := CheckText(s), Handle(s, EndDocument);
            done.nodes == r.nodes && done.attrs == r.attrs && !done.pending && Grown(r, done)
  {
  }

  lemma DocumentBuilds(u: string, enc: string, kids: seq<Tree>)
    requires NoDocuments(kids)
    ensures AllSafe(EMPTY, TreeEvents(DocumentTree(u, enc, kids)))
    ensures Finished(Finish(Run(EMPTY, TreeEvents(DocumentTree(u, enc, kids)))), DocumentTree(u, enc, kids))
  {
    hide AllSafe, Run, Finish, EncodesAll, KidEvents, MergeKids, Handle;
    var start := StartDocument(u, enc);
    var s2 := Handle(EMPTY, start);
    assert s2.stack == [0] && s2.nodes == [Node(DocumentData(u, enc), 0, None)] && s2.text == "" by {
      DocumentStarts(u, enc);
    }
    KidsBuild(s2, kids);
    var s4 := Run(s2, KidEvents(kids));
    var r := CheckText(s4);
    assert InDocument(s4);
    var done := Handle(s4, EndDocument);
    DocumentEnds(s4);
    EncodesAllGrows(r, done, 1, 1, MergeKids(kids, ""), 1);
    assert Encodes(done.nodes, done.attrs, 0, Merge(DocumentTree(u, enc, kids)), 0);
    RunNothing(done);
    RunCons(s4, EndDocument, []);
    assert [EndDocument] + [] == [EndDocument];
    RunConcat(s2, KidEvents(kids), [EndDocument]);
    RunCons(EMPTY, start, KidEvents(kids) + [EndDocument]);
    assert TreeEvents(DocumentTree(u, enc, kids)) == [start] + (KidEvents(kids) + [EndDocument]);
    FinishKeeps(done, DocumentTree(u, enc, kids));
  }

  // ----- writing the tree out again, without namespaces

  function OutputMembers(members: seq<Member>, preserveType: bool): seq<Event> {
    if members == [] then []
    else
      (match members[0]
       case AttributeMember(tag, v, typed) =>
         [Attribute(tag, v, if preserveType then typed else Some(UNTYPED_ATOMIC))]
       case NamespaceMember(_, _) => [])
      + OutputMembers(members[1..], preserveType)
  }

  function Output(t: Tree, preserveType: bool): seq<Event>
    decreases t, 0
  {
    match t
    case DocumentTree(u, enc, kids) => [StartDocument(u, enc)] + OutputAll(kids, preserveType) + [EndDocument]
    case ElementTree(tag, members, kids, typed) =>
      [StartElement(tag)] + OutputMembers(members, preserveType) + OutputAll(kids, preserveType)
      + [EndElement(tag, if preserveType then typed else Some(UNTYPED))]
    case TextTree(v) => [Text(v)]
    case CommentTree(v) => [Comment(v)]
    case PITree(target, v) => [ProcessingInstruction(target, v)]
  }

  function OutputAll(kids: seq<Tree>, preserveType: bool): seq<Event>
    decreases kids, 1
  {
    if kids == [] then [] else Output(kids[0], preserveType) + OutputAll(kids[1..], preserveType)
  }

  // ----- the same on streams

  function TextEvent(text: string): seq<Event> {
    if text == "" then [] else [Text(text)]
  }

  const SCHEMA := "http://www.w3.org/2001/XMLSchema"

  // The type an event carries afterwards.
  function Retype(e: Event, preserveType: bool): Event {
    match e
    case EndElement(tag, typed) =>
      EndElement(tag, if preserveType && typed != None then typed else Some(TypeRef(SCHEMA, "untyped")))
    case Attribute(tag, v, typed) =>
      Attribute(tag, v, if preserveType && typed != None then typed else Some(TypeRef(SCHEMA, "untypedAtomic")))
    case _ => e
  }

  /** A stream with its namespace events erased, adjacent text merged, empty text dropped, and
      absent types defaulted (all types, unless they are preserved).  text is what has been
      read of the current run of text. */
  function Clean(events: seq<Event>, text: string, preserveType: bool): seq<Event> {
    if events == [] then TextEvent(text)
    else
      match events[0]
      case Text(v) => Clean(events[1..], text + v, preserveType)
      case Namespace(_, _) => Clean(events[1..], text, preserveType)
      case _ => TextEvent(text) + [Retype(events[0], preserveType)] + Clean(events[1..], "", preserveType)
  }

  lemma CleanCons(e: Event, rest: seq<Event>, text: string, preserveType: bool)
    ensures e.Text? ==> Clean([e] + rest, text, preserveType) == Clean(rest, text + e.value, preserveType)
    ensures e.Namespace? ==> Clean([e] + rest, text, preserveType) == Clean(rest, text, preserveType)
    ensures !e.Text? && !e.Namespace? ==>
      Clean([e] + rest, text, preserveType)
      == TextEvent(text) + [Retype(e, preserveType)] + Clean(rest, "", preserveType)
  {
    assert ([e] + rest)[1..] == rest;
  }

  lemma {:induction false} CleanMembers(members: seq<Member>, rest: seq<Event>, preserveType: bool)
    ensures Clean(MemberEvents(members) + rest, "", preserveType)
         == OutputMembers(MergeMembers(members), preserveType) + Clean(rest, "", preserveType)
    decreases |members|
  {
    hide Clean, OutputMembers;
    if members == [] {
      assert MemberEvents(members) + rest == rest;
      assert OutputMembers([], preserveType) == [] by { NoOutput(preserveType); }
    } else {
      hide MemberEvents;
      var more := members[1..];
      CleanMembers(more, rest, preserveType);
      CleanCons(MemberEvent(members[0]), MemberEvents(more) + rest, "", preserveType);
      assert MemberEvents(members) + rest == [MemberEvent(members[0])] + (MemberEvents(more) + rest) by {
        FirstEvent(members);
      }
      OutputMerged(members, preserveType);
    }
  }

  lemma NoOutput(preserveType: bool)
    ensures OutputMembers([], preserveType) == []
  {
  }

  lemma FirstMerged(members: seq<Member>)
    requires members != []
    ensures MergeMembers(members) == MergeMember(members[0]) + MergeMembers(members[1..])
  {
  }

  lemma FirstEvent(members: seq<Member>)
    requires members != []
    ensures MemberEvents(members) == [MemberEvent(members[0])] + MemberEvents(members[1..])
  {
  }

  lemma OutputMerged(members: seq<Member>, preserveType: bool)
    requires members != []
    ensures OutputMembers(MergeMembers(members), preserveType) ==
      (if members[0].AttributeMember? then [Retype(MemberEvent(members[0]), preserveType)] else [])
      + OutputMembers(MergeMembers(members[1..]), preserveType)
  {
    var more := MergeMembers(members[1..]);
    if members[0].AttributeMember? {
      assert MergeMembers(members)[1..] == more;
    } else {
      assert MergeMembers(members) == more;
    }
  }

  lemma {:induction false} CleanTree(t: Tree, rest: seq<Event>, text: string, preserveType: bool)
    requires !t.TextTree?
    ensures Clean(TreeEvents(t) + rest, text, preserveType)
         == TextEvent(text) + Output(Merge(t), preserveType) + Clean(rest, "", preserveType)
    decreases t, 0
  {
    hide Clean, MemberEvents, KidEvents, MergeKids, MergeMembers, OutputAll, OutputMembers, TreeEvents, Output, Merge;
    match t {
      case DocumentTree(u, enc, kids) =>
        var tail := [EndDocument] + rest;
        CleanCons(StartDocument(u, enc), KidEvents(kids) + tail, text, preserveType);
        CleanKids(kids, tail, "", preserveType);
        CleanCons(EndDocument, rest, "", preserveType);
        DocumentParts(t, rest, preserveType);
      case ElementTree(tag, members, kids, typed) =>
        var tail := [EndElement(tag, typed)] + rest;
        CleanCons(StartElement(tag), MemberEvents(members) + (KidEvents(kids) + tail), text, preserveType);
        CleanMembers(members, KidEvents(kids) + tail, preserveType);
        CleanKids(kids, tail, "", preserveType);
        CleanCons(EndElement(tag, typed), rest, "", preserveType);
        ElementEvents(t, rest);
        ElementOutput(t, preserveType);
      case CommentTree(v) =>
        LeafParts(t, preserveType);
        CleanCons(Comment(v), rest, text, preserveType);
      case PITree(target, v) =>
        LeafParts(t, preserveType);
        CleanCons(ProcessingInstruction(target, v), rest, text, preserveType);
      case TextTree(_) =>
    }
  }

  lemma DocumentParts(t: Tree, rest: seq<Event>, preserveType: bool)
    requires t.DocumentTree?
    ensures TreeEvents(t) + rest
         == [StartDocument(t.documentUri, t.encoding)] + (KidEvents(t.kids) + ([EndDocument] + rest))
    ensures Output(Merge(t), preserveType)
         == [StartDocument(t.documentUri, t.encoding)] + OutputAll(MergeKids(t.kids, ""), preserveType) + [EndDocument]
  {
  }

  lemma ElementOutput(t: Tree, preserveType: bool)
    requires t.ElementTree?
    ensures Output(Merge(t), preserveType)
         == [StartElement(t.tag)] + OutputMembers(MergeMembers(t.members), preserveType)
            + OutputAll(MergeKids(t.kids, ""), preserveType) + [Retype(EndElement(t.tag, t.typed), preserveType)]
  {
  }

  lemma LeafParts(t: Tree, preserveType: bool)
    requires t.CommentTree? || t.PITree?
    ensures Output(Merge(t), preserveType) == TreeEvents(t)
    ensures TreeEvents(t) == [if t.CommentTree? then Comment(t.value) else ProcessingInstruction(t.target, t.value)]
  {
  }

  lemma ElementEvents(t: Tree, rest: seq<Event>)
    requires t.ElementTree?
    ensures TreeEvents(t) + rest
         == [StartElement(t.tag)]
          + (MemberEvents(t.members) + (KidEvents(t.kids) + ([EndElement(t.tag, t.typed)] + rest)))
  {
  }

  lemma {:induction false} CleanKids(kids: seq<Tree>, rest: seq<Event>, text: string, preserveType: bool)
    requires rest != [] && !rest[0].Text? && !rest[0].Namespace?
    ensures Clean(KidEvents(kids) + rest, text, preserveType)
         == OutputAll(MergeKids(kids, text), preserveType) + Clean(rest, "", preserveType)
    decreases kids, 1
  {
    hide Clean, OutputAll, Output, MergeKids, KidEvents, TreeEvents, Merge;
    if kids == [] {
      NoKids(text, rest, preserveType);
    } else {
      var more := KidEvents(kids[1..]) + rest;
      FirstKid(kids, text);
      assert KidEvents(kids) + rest == TreeEvents(kids[0]) + more;
      if kids[0].TextTree? {
        CleanCons(Text(kids[0].value), more, text, preserveType);
        CleanKids(kids[1..], rest, text + kids[0].value, preserveType);
      } else {
        CleanTree(kids[0], more, text, preserveType);
        CleanKids(kids[1..], rest, "", preserveType);
        OutputKid(text, Merge(kids[0]), MergeKids(kids[1..], ""), preserveType);
      }
    }
  }

  lemma FirstKid(kids: seq<Tree>, text: string)
    requires kids != []
    ensures KidEvents(kids) == TreeEvents(kids[0]) + KidEvents(kids[1..])
    ensures kids[0].TextTree? ==>
      && TreeEvents(kids[0]) == [Text(kids[0].value)]
      && MergeKids(kids, text) == MergeKids(kids[1..], text + kids[0].value)
    ensures !kids[0].TextTree? ==>
      MergeKids(kids, text) == TextKid(text) + ([Merge(kids[0])] + MergeKids(kids[1..], ""))
  {
  }

  lemma NoKids(text: string, rest: seq<Event>, preserveType: bool)
    requires rest != [] && !rest[0].Text? && !rest[0].Namespace?
    ensures Clean(KidEvents([]) + rest, text, preserveType)
         == OutputAll(MergeKids([], text), preserveType) + Clean(rest, "", preserveType)
  {
    hide Clean, OutputAll, Output, Merge, TreeEvents;
    assert KidEvents([]) + rest == rest;
    assert rest == [rest[0]] + rest[1..];
    CleanCons(rest[0], rest[1..], text, preserveType);
    CleanCons(rest[0], rest[1..], "", preserveType);
    OutputTextAlone(text, preserveType);
  }

  lemma OutputTextAlone(text: string, preserveType: bool)
    ensures OutputAll(TextKid(text), preserveType) == TextEvent(text)
  {
    OutputTextKid(text, [], preserveType);
    assert TextKid(text) + [] == TextKid(text);
  }

  lemma OutputKid(text: string, t: Tree, more: seq<Tree>, preserveType: bool)
    ensures OutputAll(TextKid(text) + ([t] + more), preserveType)
         == TextEvent(text) + Output(t, preserveType) + OutputAll(more, preserveType)
  {
    hide Output;
    OutputTextKid(text, [t] + more, preserveType);
    assert ([t] + more)[1..] == more;
  }

  lemma OutputTextKid(text: string, tail: seq<Tree>, preserveType: bool)
    ensures OutputAll(TextKid(text) + tail, preserveType) == TextEvent(text) + OutputAll(tail, preserveType)
  {
    assert (TextKid(text) + tail)[|TextKid(text)|..] == tail;
    if text == "" {
      assert TextKid(text) + tail == tail;
    }
  }

  /** Writing out the merged tree is cleaning the tree's stream. */
  lemma OutputIsClean(t: Tree, preserveType: bool)
    requires !t.TextTree?
    ensures Output(Merge(t), preserveType) == Clean(TreeEvents(t), "", preserveType)
  {
    CleanTree(t, [], "", preserveType);
    assert TreeEvents(t) + [] == TreeEvents(t);
  }
}