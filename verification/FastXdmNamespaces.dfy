/** Stored namespaces. */
module FastXdmNamespaces {
  // The namespaces of a stored tree: one entry for each, with the node that it was declared on,
  // and at every element the first of its own.

  import opened Options
  import opened Events
  import opened FastXdm

  // The namespaces declared on node i.
  function OwnNamespaces(members: seq<Member>, i: nat): seq<Ns> {
    if members == [] then []
    else
      (if members[0].NamespaceMember? then [Ns(Some(i), members[0].prefix, members[0].uri)] else [])
      + OwnNamespaces(members[1..], i)
  }

  /** The namespaces of a tree whose root is node i, in document order. */
  function Namespaces(t: Tree, i: nat): seq<Ns>
    decreases t, 0
  {
    match t
    case DocumentTree(_, _, kids) => KidNamespaces(kids, "", i + 1)
    case ElementTree(_, members, kids, _) => OwnNamespaces(members, i) + KidNamespaces(kids, "", i + 1)
    case _ => []
  }

  // Of siblings after some text; a run of text that is not empty is one node.
  function KidNamespaces(kids: seq<Tree>, text: string, i: nat): seq<Ns>
    decreases kids, 1
  {
    if kids == [] then []
    else if kids[0].TextTree? then KidNamespaces(kids[1..], text + kids[0].value, i)
    else
      var at := i + if text == "" then 0 else 1;
      Namespaces(kids[0], at) + KidNamespaces(kids[1..], "", at + Size(Merge(kids[0])))
  }

  lemma CheckTextKeepsNamespaces(s: Store)
    requires Ok(s)
    ensures CheckText(s).nss == s.nss
    ensures Inside(s) && s.nodes != [] && s.pending ==>
              |CheckText(s).nodes| == |s.nodes| + if s.text == "" then 0 else 1
    ensures !s.pending ==> CheckText(s) == s && s.text == ""
  {
  }

  lemma {:induction false} MembersStored(s: Store, members: seq<Member>, run: seq<Member>)
    requires Inside(s) && AtStart(s, run)
    ensures AllSafe(s, MemberEvents(members))
    ensures Run(s, MemberEvents(members)).nss == s.nss + OwnNamespaces(members, Top(s))
    decreases |members|
  {
    hide Handle, AtStart, MembersAdded, AllSafe, Run, Ok, MemberEvents, MemberEvent, MergeMembers, MergeMember;
    hide OwnNamespaces;
    MembersBuild(s, members, run);
    if members == [] {
      NoneStored(s);
    } else {
      FirstEvent(members);
      var rest, m := members[1..], members[0];
      MemberStep(s, m, run);
      var t := Handle(s, MemberEvent(m));
      OneStored(s, m, run);
      MembersStored(t, rest, run + MergeMember(m));
      RunCons(s, MemberEvent(m), MemberEvents(rest));
      OwnFirst(members, Top(s));
      var own := if m.NamespaceMember? then [Ns(Some(Top(s)), m.prefix, m.uri)] else [];
      assert (s.nss + own) + OwnNamespaces(rest, Top(s)) == s.nss + (own + OwnNamespaces(rest, Top(s)));
    }
  }

  lemma OwnFirst(members: seq<Member>, i: nat)
    requires members != []
    ensures var m := members[0];
            OwnNamespaces(members, i)
            == (if m.NamespaceMember? then [Ns(Some(i), m.prefix, m.uri)] else []) + OwnNamespaces(members[1..], i)
  {
  }

  lemma NoneStored(s: Store)
    requires Ok(s)
    ensures AllSafe(s, MemberEvents([])) && Run(s, MemberEvents([])).nss == s.nss + OwnNamespaces([], 0)
    ensures forall i :: OwnNamespaces([], i) == []
  {
    RunNothing(s);
  }

  lemma OneStored(s: Store, m: Member, run: seq<Member>)
    requires AtStart(s, run) && Safe(s, MemberEvent(m))
    ensures var r := Handle(s, MemberEvent(m));
            && r.stack == s.stack
            && r.nss == s.nss + if m.NamespaceMember? then [Ns(Some(Top(s)), m.prefix, m.uri)] else []
  {
  }

  lemma {:induction false} KidsStored(s: Store, kids: seq<Tree>)
    requires Inside(s) && s.nodes != [] && NoDocuments(kids)
    ensures AllSafe(s, KidEvents(kids))
    ensures Run(s, KidEvents(kids)).nss == s.nss + KidNamespaces(kids, s.text, |s.nodes|)
    decreases kids, 1
  {
    hide Handle, AllSafe, Run, Encodes, EncodesAll, Grown, Built, KidsBuilt, Merge, Append, MergeKids, Namespaces;
    KidsBuild(s, kids);
    if kids == [] {
      RunNothing(s);
      assert s.nss + [] == s.nss;
    } else {
      var rest := kids[1..];
      CheckTextKeepsNamespaces(s);
      if kids[0].TextTree? {
        TextBuilds(s, kids[0].value);
        var t := s.(text := s.text + kids[0].value, pending := true);
        KidsStored(t, rest);
        RunConcat(s, TreeEvents(kids[0]), KidEvents(rest));
      } else {
        TreeBuilds(s, kids[0]);
        var t := Run(s, TreeEvents(kids[0]));
        TreeStored(s, kids[0]);
        BuiltShape(CheckText(s), t, kids[0]);
        KidsStored(t, rest);
        RunConcat(s, TreeEvents(kids[0]), KidEvents(rest));
        assert s.nss + Namespaces(kids[0], |CheckText(s).nodes|) + KidNamespaces(rest, "", |t.nodes|)
            == s.nss + (Namespaces(kids[0], |CheckText(s).nodes|) + KidNamespaces(rest, "", |t.nodes|));
      }
    }
  }

  lemma BuiltShape(s: Store, r: Store, t: Tree)
    requires Built(s, r, t) && Inside(s)
    ensures Inside(r) && r.nodes != [] && r.text == "" && |r.nodes| == |s.nodes| + Size(Merge(t))
  {
  }

  lemma {:induction false} TreeStored(s: Store, t: Tree)
    requires Ready(s) && WellFormed(t) && !t.TextTree? && !t.DocumentTree?
    ensures AllSafe(s, TreeEvents(t))
    ensures Run(s, TreeEvents(t)).nss == s.nss + Namespaces(t, |CheckText(s).nodes|)
    decreases t, 0
  {
    hide Handle, AllSafe, Run, Built, KidsBuilt, AtStart, MembersAdded, OwnNamespaces, KidNamespaces, Grown;
    hide MemberEvents, KidEvents, MergeMembers, MergeKids, Merge, Append, Encodes, EncodesAll, TreeEvents, AttributeRun;
    if t.ElementTree? {
      var s2 := ElementStarts(s, t.tag);
      MembersBuild(s2, t.members, []);
      MembersStored(s2, t.members, []);
      var s3 := Run(s2, MemberEvents(t.members));
      MembersAreInside(s2, s3, [] + MergeMembers(t.members));
      SameNodes(s2, s3);
      KidsBuild(s3, t.kids);
      KidsStored(s3, t.kids);
      var s4 := Run(s3, KidEvents(t.kids));
      ElementBuilt(s, t, s2, s3, s4);
      RunElement(s, t, s2, s3, s4);
      EdgesKeepNamespaces(s, t.tag);
      EndKeepsNamespaces(s4, EndElement(t.tag, t.typed));
    } else {
      LeafBuilds(s, t);
      LeafKeepsNamespaces(s, t);
    }
  }

  lemma SameNodes(s: Store, r: Store)
    requires Inside(s) && MembersAdded(s, r)
    ensures |r.nodes| == |s.nodes| && r.text == s.text && r.stack == s.stack
  {
  }

  lemma EdgesKeepNamespaces(s: Store, tag: Tag)
    requires Ok(s) && Safe(s, StartElement(tag))
    ensures Handle(s, StartElement(tag)).nss == s.nss
  {
  }

  lemma EndKeepsNamespaces(s: Store, end: Event)
    requires Ok(s) && Safe(s, end) && (end.EndElement? || end.EndDocument?)
    ensures Handle(s, end).nss == s.nss
  {
  }

  lemma LeafKeepsNamespaces(s: Store, t: Tree)
    requires Ready(s) && (t.CommentTree? || t.PITree?) && AllSafe(s, TreeEvents(t))
    ensures Run(s, TreeEvents(t)).nss == s.nss
  {
    var e := TreeEvents(t)[0];
    assert TreeEvents(t) == [e] + [] && TreeEvents(t)[1..] == [];
  }

  /** The finished store has the namespaces of the whole tree, in document order, each with the
      element that declares it, and the marker after them if there are any. */
  lemma NamespacesStored(t: Tree)
    requires WellFormed(t)
    ensures AllSafe(EMPTY, TreeEvents(t))
    ensures var all := Namespaces(t, 0);
            Finish(Run(EMPTY, TreeEvents(t))).nss == if all == [] then [] else all + [Ns(None, "", "")]
  {
    hide Run, AllSafe, TreeEvents, Handle;
    BuildsTree(t);
    FinishKeepsNamespaces(Run(EMPTY, TreeEvents(t)));
    assert EMPTY.nss + Namespaces(t, 0) == Namespaces(t, 0);
    match t {
      case DocumentTree(u, enc, kids) => DocumentStored(u, enc, kids);
      case TextTree(v) => TextStored(v);
      case _ => TreeStored(EMPTY, t);
    }
  }

  lemma FinishKeepsNamespaces(s: Store)
    requires Ok(s)
    ensures Finish(s).nss == if s.nss == [] then [] else s.nss + [Ns(None, "", "")]
  {
  }

  lemma TextStored(v: string)
    ensures AllSafe(EMPTY, TreeEvents(TextTree(v))) && Run(EMPTY, TreeEvents(TextTree(v))).nss == []
  {
    TextBuilds(EMPTY, v);
  }

  lemma DocumentStored(u: string, enc: string, kids: seq<Tree>)
    requires NoDocuments(kids)
    ensures AllSafe(EMPTY, TreeEvents(DocumentTree(u, enc, kids)))
    ensures Run(EMPTY, TreeEvents(DocumentTree(u, enc, kids))).nss == KidNamespaces(kids, "", 1)
  {
    hide AllSafe, Run, Finish, EncodesAll, KidEvents, MergeKids, Handle, KidNamespaces;
    var start := StartDocument(u, enc);
    DocumentBuilds(u, enc, kids);
    DocumentStarts(u, enc);
    var s2 := Handle(EMPTY, start);
    assert s2.stack == [0] && s2.nodes == [Node(DocumentData(u, enc), 0, None)] && s2.text == "";
    DocumentKeepsNamespaces(u, enc);
    KidsBuild(s2, kids);
    KidsStored(s2, kids);
    var s4 := Run(s2, KidEvents(kids));
    assert InDocument(s4);
    EndKeepsNamespaces(s4, EndDocument);
    RunNothing(Handle(s4, EndDocument));
    RunCons(s4, EndDocument, []);
    assert [EndDocument] + [] == [EndDocument];
    RunConcat(s2, KidEvents(kids), [EndDocument]);
    RunCons(EMPTY, start, KidEvents(kids) + [EndDocument]);
    assert TreeEvents(DocumentTree(u, enc, kids)) == [start] + (KidEvents(kids) + [EndDocument]);
    assert [] + KidNamespaces(kids, "", 1) == KidNamespaces(kids, "", 1);
  }

  lemma DocumentKeepsNamespaces(u: string, enc: string)
    ensures Handle(EMPTY, StartDocument(u, enc)).nss == []
  {
  }

  // ----- the first namespace of an element

  ghost predicate FirstOf(nss: seq<Ns>, i: nat, first: Option<nat>) {
    match first
    case None => forall k :: 0 <= k < |nss| ==> nss[k].owner != Some(i)
    case Some(a) => a < |nss| && nss[a].owner == Some(i) && forall k :: 0 <= k < a ==> nss[k].owner != Some(i)
  }

  ghost predicate FirstLinks(s: Store) {
    && (forall k :: 0 <= k < |s.nss| && s.nss[k].owner != None ==> s.nss[k].owner.value < |s.nodes|)
    && forall i :: 0 <= i < |s.nodes| && s.nodes[i].data.ElementData? ==> FirstOf(s.nss, i, s.nodes[i].data.namespaces)
  }

  lemma AppendKeepsFirst(s: Store, data: NodeData)
    requires Ok(s) && FirstLinks(s) && (data.ElementData? ==> data.namespaces == None)
    ensures FirstLinks(Append(s, data))
  {
  }

  lemma CheckTextKeepsFirst(s: Store)
    requires Ok(s) && FirstLinks(s)
    ensures FirstLinks(CheckText(s))
  {
    if s.pending && (s.nodes == [] || s.text != "") {
      AppendKeepsFirst(s, TextData(s.text));
    }
  }

  /** Every element is linked to the first namespace that it declares, and one that declares none
      is linked to none. */
  lemma HandleKeepsFirst(s: Store, e: Event)
    requires Ok(s) && Safe(s, e) && FirstLinks(s)
    ensures FirstLinks(Handle(s, e))
  {
    hide Append, CheckText;
    CheckTextKeepsFirst(s);
    match e {
      case StartDocument(u, enc) =>
        AppendKeepsFirst(s.(stack := [], prev := None, text := "", pending := false), DocumentData(u, enc));
      case StartElement(tag) => AppendKeepsFirst(CheckText(s), ElementData(tag, None, None, None));
      case Comment(v) => AppendKeepsFirst(CheckText(s), CommentData(v));
      case ProcessingInstruction(target, v) => AppendKeepsFirst(CheckText(s), PIData(target, v));
      case Namespace(_, _) => NamespaceKeepsFirst(s, e);
      case _ =>
    }
  }

  lemma NamespaceKeepsFirst(s: Store, e: Event)
    requires Ok(s) && Safe(s, e) && FirstLinks(s) && e.Namespace?
    ensures FirstLinks(Handle(s, e))
  {
    var r := Handle(s, e);
    forall i | 0 <= i < |r.nodes| && r.nodes[i].data.ElementData?
      ensures FirstOf(r.nss, i, r.nodes[i].data.namespaces)
    {
      assert FirstOf(s.nss, i, s.nodes[i].data.namespaces);
    }
  }

  lemma {:induction false} FirstStored(s: Store, events: seq<Event>)
    requires Ok(s) && AllSafe(s, events) && FirstLinks(s)
    ensures FirstLinks(Run(s, events))
    decreases |events|
  {
    hide Handle, FirstLinks;
    if events != [] {
      HandleKeepsFirst(s, events[0]);
      FirstStored(Handle(s, events[0]), events[1..]);
    }
  }
}
