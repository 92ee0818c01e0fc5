/** Query path trees and the matcher that says which nodes of an event stream they select. */
module PathTree {
  import opened Options
  import opened Events

  datatype StepType = AttributeStep | ChildStep | DescendantStep | DescendantAttrStep | RootStep

  /** A node of the path tree.  No name or URI is a wildcard; anyKind says that the test is not
      limited to elements.  The id tells nodes with equal tests apart. */
  datatype PathNode = PathNode(
    id: nat, kind: StepType, name: Option<string>, uri: Option<string>, anyKind: bool, children: seq<PathNode>)

  function ToSet(nodes: seq<PathNode>): set<PathNode> {
    set q | q in nodes
  }

  predicate NameMatches(q: PathNode, tag: Tag) {
    (q.name == None || q.name == Some(tag.name)) && (q.uri == None || q.uri == Some(tag.uri))
  }

  predicate TestsTree(q: PathNode) {
    q.kind == ChildStep || q.kind == DescendantStep
  }

  predicate Inherited(q: PathNode) {
    q.kind == DescendantStep || q.kind == DescendantAttrStep
  }

  // ----- the matcher: the path nodes expected below the current node

  function Hits(expected: set<PathNode>, tag: Tag): set<PathNode> {
    set q | q in expected && TestsTree(q) && NameMatches(q, tag)
  }

  function DocumentHits(expected: set<PathNode>): set<PathNode> {
    set q | q in expected && (q.kind == RootStep || (TestsTree(q) && q.anyKind))
  }

  function LeafHits(expected: set<PathNode>): set<PathNode> {
    set q | q in expected && TestsTree(q) && q.anyKind
  }

  predicate TestsAttributes(q: PathNode) {
    q.kind == AttributeStep || q.kind == DescendantAttrStep
  }

  function AttributeHits(expected: set<PathNode>, tag: Tag): set<PathNode> {
    set q | q in expected && TestsAttributes(q) && NameMatches(q, tag)
  }

  function Below(expected: set<PathNode>, hits: set<PathNode>): set<PathNode> {
    (set q | q in expected && Inherited(q)) + (set p, q | p in hits && q in p.children :: q)
  }

  // What a path tree selects: an event with the path nodes that select its node.
  datatype Pick = Pick(event: Event, nodes: set<PathNode>)

  /** The matcher after a stretch of events: what is expected at every open level, innermost
      last; and the elements and documents, the attributes, and the leaves selected so far. */
  datatype Matcher = Matcher(
    levels: seq<set<PathNode>>, picks: seq<Pick>, attributes: seq<Pick>, leaves: seq<Pick>)

  function AddPick(picks: seq<Pick>, event: Event, nodes: set<PathNode>): seq<Pick> {
    if nodes == {} then picks else picks + [Pick(event, nodes)]
  }

  function Enter(m: Matcher, event: Event, hits: set<PathNode>): Matcher
    requires m.levels != []
  {
    var top := m.levels[|m.levels| - 1];
    m.(levels := m.levels + [Below(top, hits)], picks := AddPick(m.picks, event, hits))
  }

  function MatchEvent(m: Matcher, event: Event): Matcher {
    if m.levels == [] then m
    else
      var top := m.levels[|m.levels| - 1];
      match event
      case StartDocument(_, _) => Enter(m, event, DocumentHits(top))
      case StartElement(tag) => Enter(m, event, Hits(top, tag))
      case EndDocument => m.(levels := m.levels[..|m.levels| - 1])
      case EndElement(_, _) => m.(levels := m.levels[..|m.levels| - 1])
      case Attribute(tag, _, _) => m.(attributes := AddPick(m.attributes, event, AttributeHits(top, tag)))
      case Text(_) => m.(leaves := AddPick(m.leaves, event, LeafHits(top)))
      case Comment(_) => m.(leaves := AddPick(m.leaves, event, LeafHits(top)))
      case ProcessingInstruction(_, _) => m.(leaves := AddPick(m.leaves, event, LeafHits(top)))
      case _ => m
  }

  /** The matcher of a forest of path trees after a stream of events. */
  function Match(roots: seq<PathNode>, events: seq<Event>): Matcher {
    if events == [] then Matcher([ToSet(roots)], [], [], [])
    else MatchEvent(Match(roots, events[..|events| - 1]), events[|events| - 1])
  }

  lemma MatchSnoc(roots: seq<PathNode>, events: seq<Event>, event: Event)
    ensures Match(roots, events + [event]) == MatchEvent(Match(roots, events), event)
  {
    assert (events + [event])[..|events|] == events;
  }

  // ----- well-nested streams

  datatype Frame = DocumentFrame | ElementFrame(tag: Tag)

  /** The nodes open after a stream, outermost first; nothing if the stream is not well
      nested: an end that closes another node, or an attribute or namespace outside an
      element. */
  function Nest(events: seq<Event>): Option<seq<Frame>> {
    if events == [] then Some([])
    else
      match Nest(events[..|events| - 1])
      case None => None
      case Some(frames) => NestEvent(frames, events[|events| - 1])
  }

  function NestEvent(frames: seq<Frame>, event: Event): Option<seq<Frame>> {
    match event
    case StartDocument(_, _) => Some(frames + [DocumentFrame])
    case StartElement(tag) => Some(frames + [ElementFrame(tag)])
    case EndDocument =>
      if frames != [] && frames[|frames| - 1] == DocumentFrame then Some(frames[..|frames| - 1]) else None
    case EndElement(tag, _) =>
      if frames != [] && frames[|frames| - 1] == ElementFrame(tag) then Some(frames[..|frames| - 1]) else None
    case Attribute(_, _, _) =>
      if frames != [] && frames[|frames| - 1].ElementFrame? then Some(frames) else None
    case Namespace(_, _) =>
      if frames != [] && frames[|frames| - 1].ElementFrame? then Some(frames) else None
    case _ => Some(frames)
  }

  lemma NestSnoc(events: seq<Event>, event: Event)
    ensures Nest(events + [event]) == match Nest(events) case None => None case Some(frames) => NestEvent(frames, event)
  {
    assert (events + [event])[..|events|] == events;
  }

  // ----- the matcher decides path selection

  // A document or element on the way to a node.
  predicate TestsFrame(q: PathNode, frame: Frame) {
    match frame
    case DocumentFrame => q.kind == RootStep || (TestsTree(q) && q.anyKind)
    case ElementFrame(tag) => TestsTree(q) && NameMatches(q, tag)
  }

  function FrameHits(expected: set<PathNode>, frame: Frame): set<PathNode> {
    match frame
    case DocumentFrame => DocumentHits(expected)
    case ElementFrame(tag) => Hits(expected, tag)
  }

  // What the matcher expects below the node at the end of a path.
  function ExpectedAt(roots: seq<PathNode>, path: seq<Frame>): set<PathNode> {
    if path == [] then ToSet(roots)
    else
      var above := ExpectedAt(roots, path[..|path| - 1]);
      Below(above, FrameHits(above, path[|path| - 1]))
  }

  /** XPath selection: steps lead from a root of the forest to their last path node, and they
      select the node at the end of path; a child step goes one level down, a descendant step
      any number of levels. */
  ghost predicate Selects(roots: seq<PathNode>, steps: seq<PathNode>, path: seq<Frame>)
    decreases |steps|
  {
    && steps != [] && path != []
    && var q := steps[|steps| - 1];
    && TestsFrame(q, path[|path| - 1])
    && if |steps| == 1 then
         q in roots && (q.kind == DescendantStep || |path| == 1)
       else
         && q in steps[|steps| - 2].children
         && if q.kind == DescendantStep then
              exists m :: 0 <= m < |path| && Selects(roots, steps[..|steps| - 1], path[..m])
            else
              Selects(roots, steps[..|steps| - 1], path[..|path| - 1])
  }

  ghost predicate Selected(roots: seq<PathNode>, q: PathNode, path: seq<Frame>) {
    exists steps :: Selects(roots, steps, path) && steps[|steps| - 1] == q
  }

  // q is expected right below the node at the end of path.
  ghost predicate Offered(roots: seq<PathNode>, q: PathNode, path: seq<Frame>) {
    if path == [] then q in roots else exists p :: Selected(roots, p, path) && q in p.children
  }

  lemma {:induction false} ExpectedIsOffered(roots: seq<PathNode>, path: seq<Frame>, q: PathNode)
    ensures q in ExpectedAt(roots, path) <==>
            Offered(roots, q, path) || (Inherited(q) && exists m :: 0 <= m < |path| && Offered(roots, q, path[..m]))
    decreases |path|, 1
  {
    if path != [] {
      var n := |path| - 1;
      var above, frame := path[..n], path[n];
      ExpectedIsOffered(roots, above, q);
      forall p ensures p in FrameHits(ExpectedAt(roots, above), frame) <==> Selected(roots, p, path) {
        HitsAreSelected(roots, path, p);
      }
      assert forall m :: 0 <= m < n ==> path[..m] == above[..m];
      assert path[..n] == above;
      if q in ExpectedAt(roots, path) && !Offered(roots, q, path) {
        assert Inherited(q) && q in ExpectedAt(roots, above);
        if !Offered(roots, q, above) {
          var m :| 0 <= m < |above| && Offered(roots, q, above[..m]);
          assert Offered(roots, q, path[..m]);
        }
      }
      if m :| Inherited(q) && 0 <= m < |path| && Offered(roots, q, path[..m]) {
        assert m == n || Offered(roots, q, above[..m]);
      }
    }
  }

  /** The matcher is exact: the path nodes it reports for a node are those that select it. */
  lemma {:induction false} HitsAreSelected(roots: seq<PathNode>, path: seq<Frame>, q: PathNode)
    requires path != []
    ensures q in FrameHits(ExpectedAt(roots, path[..|path| - 1]), path[|path| - 1]) <==> Selected(roots, q, path)
    decreases |path|, 0
  {
    hide Selected, Offered, ExpectedAt;
    var n := |path| - 1;
    var above := path[..n];
    ExpectedIsOffered(roots, above, q);
    assert forall m :: 0 <= m < n ==> path[..m] == above[..m];
    if q in FrameHits(ExpectedAt(roots, above), path[n]) {
      var m :| 0 <= m <= n && (m == n || Inherited(q)) && Offered(roots, q, path[..m]);
      assert TestsFrame(q, path[n]) && (Inherited(q) ==> q.kind == DescendantStep);
      OfferedIsSelected(roots, path, q, m);
    }
    if Selected(roots, q, path) {
      SelectedIsOffered(roots, path, q);
    }
  }

  lemma OfferedIsSelected(roots: seq<PathNode>, path: seq<Frame>, q: PathNode, m: nat)
    requires m < |path| && Offered(roots, q, path[..m])
    requires m == |path| - 1 || q.kind == DescendantStep
    requires TestsFrame(q, path[|path| - 1])
    ensures Selected(roots, q, path)
  {
    if m == 0 {
      assert Selects(roots, [q], path);
    } else {
      var p :| Selected(roots, p, path[..m]) && q in p.children;
      var steps :| Selects(roots, steps, path[..m]) && steps[|steps| - 1] == p;
      var longer := steps + [q];
      assert longer[..|longer| - 1] == steps;
      assert longer[|longer| - 2] == p;
      assert Selects(roots, longer, path);
    }
  }

  lemma SelectedIsOffered(roots: seq<PathNode>, path: seq<Frame>, q: PathNode)
    requires path != [] && Selected(roots, q, path)
    ensures TestsFrame(q, path[|path| - 1])
    ensures exists m :: 0 <= m < |path| && (m == |path| - 1 || q.kind == DescendantStep) && Offered(roots, q, path[..m])
  {
    var steps :| Selects(roots, steps, path) && steps[|steps| - 1] == q;
    if |steps| == 1 {
      assert path[..0] == [];
      assert Offered(roots, q, path[..0]);
    } else {
      var before := steps[..|steps| - 1];
      var p := steps[|steps| - 2];
      assert before[|before| - 1] == p;
      if q.kind == DescendantStep {
        var m :| 0 <= m < |path| && Selects(roots, before, path[..m]);
        assert Selected(roots, p, path[..m]);
        assert Offered(roots, q, path[..m]);
      } else {
        assert Selected(roots, p, path[..|path| - 1]);
        assert Offered(roots, q, path[..|path| - 1]);
      }
    }
  }

  // What is expected at the ends of the paths to the open nodes.
  ghost predicate FollowsPaths(roots: seq<PathNode>, levels: seq<set<PathNode>>, frames: seq<Frame>) {
    && |levels| == |frames| + 1
    && forall k :: 0 <= k < |levels| ==> levels[k] == ExpectedAt(roots, frames[..k])
  }

  lemma EnterFollows(roots: seq<PathNode>, levels: seq<set<PathNode>>, frames: seq<Frame>, frame: Frame)
    requires FollowsPaths(roots, levels, frames)
    ensures var top := levels[|frames|];
            FollowsPaths(roots, levels + [Below(top, FrameHits(top, frame))], frames + [frame])
  {
    var longer := frames + [frame];
    assert forall k :: 0 <= k <= |frames| ==> longer[..k] == frames[..k];
    assert longer[..|longer|] == longer && frames[..|frames|] == frames;
  }

  lemma LeaveFollows(roots: seq<PathNode>, levels: seq<set<PathNode>>, frames: seq<Frame>)
    requires FollowsPaths(roots, levels, frames) && frames != []
    ensures FollowsPaths(roots, levels[..|levels| - 1], frames[..|frames| - 1])
  {
    var shorter := frames[..|frames| - 1];
    assert forall k :: 0 <= k <= |shorter| ==> shorter[..k] == frames[..k];
  }

  /** On a well-nested stream the matcher's levels are what is expected at the ends of the
      paths to the open nodes, so its picks are exactly the XPath selections. */
  lemma {:induction false} MatchFollowsPaths(roots: seq<PathNode>, events: seq<Event>)
    requires Nest(events) != None
    ensures FollowsPaths(roots, Match(roots, events).levels, Nest(events).value)
  {
    if events != [] {
      var before, event := events[..|events| - 1], events[|events| - 1];
      MatchFollowsPaths(roots, before);
      var levels, frames := Match(roots, before).levels, Nest(before).value;
      match event {
        case StartDocument(_, _) => EnterFollows(roots, levels, frames, DocumentFrame);
        case StartElement(tag) => EnterFollows(roots, levels, frames, ElementFrame(tag));
        case EndDocument => LeaveFollows(roots, levels, frames);
        case EndElement(_, _) => LeaveFollows(roots, levels, frames);
        case _ =>
      }
    }
  }

  // The elements a start event is picked by are those that select it.
  lemma StartSelects(roots: seq<PathNode>, events: seq<Event>, tag: Tag, q: PathNode)
    requires Nest(events) != None
    ensures var levels, frames := Match(roots, events).levels, Nest(events).value;
            && |levels| == |frames| + 1
            && (q in Hits(levels[|frames|], tag) <==> Selected(roots, q, frames + [ElementFrame(tag)]))
  {
    MatchFollowsPaths(roots, events);
    var frames := Nest(events).value;
    var path := frames + [ElementFrame(tag)];
    assert path[..|path| - 1] == frames == frames[..|frames|];
    HitsAreSelected(roots, path, q);
  }

  /** The attributes a path node picks are those right below a node where the path tree offers
      it; or at any depth below one, for a descendant attribute step. */
  lemma AttributeSelects(roots: seq<PathNode>, events: seq<Event>, tag: Tag, q: PathNode)
    requires Nest(events) != None
    ensures var levels, frames := Match(roots, events).levels, Nest(events).value;
            && |levels| == |frames| + 1
            && (q in AttributeHits(levels[|frames|], tag) <==>
                && TestsAttributes(q) && NameMatches(q, tag)
                && exists m :: 0 <= m <= |frames| && (m == |frames| || q.kind == DescendantAttrStep)
                               && Offered(roots, q, frames[..m]))
  {
    hide Offered, Match, Nest;
    MatchFollowsPaths(roots, events);
    var frames := Nest(events).value;
    assert frames[..|frames|] == frames;
    ExpectedIsOffered(roots, frames, q);
  }
}
