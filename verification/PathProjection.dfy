/** What the streaming projection passes on, as a function of the stream. */
module PathProjection {
  // Of every open node it is known whether it has been passed on, and what the matcher expects
  // below it.

  import opened Options
  import opened Events
  import opened PathTree

  // Whether each open node has been passed on, outermost first and with an entry for the
  // surroundings of the stream; and what has been passed on.
  datatype Projection = Projection(flags: seq<bool>, out: seq<Event>)

  predicate Compatible(i: PathNode, j: PathNode) {
    && (i.name == None || j.name == None || i.name == j.name)
    && (i.uri == None || j.uri == None || i.uri == j.uri)
  }

  predicate ClashingPair(i: PathNode, j: PathNode) {
    i.kind == ChildStep && (j.kind == DescendantAttrStep || (TestsTree(j) && Compatible(i, j)))
  }

  // A node wanted below the real parent might be taken for an actual child of the pseudo-parent.
  ghost predicate Clashes(pseudo: set<PathNode>, actual: set<PathNode>) {
    exists i, j :: i in pseudo && j in actual && ClashingPair(i, j)
  }

  // The pseudo-parent: the last open node that has been passed on.
  ghost function Pseudo(flags: seq<bool>, p: nat): (s: nat)
    requires p < |flags| && flags[0]
    ensures s <= p && flags[s]
    ensures forall k :: s < k <= p ==> !flags[k]
  {
    if flags[p] then p else Pseudo(flags, p - 1)
  }

  function TagOf(frame: Frame): Tag {
    match frame
    case DocumentFrame => Tag("", "", "")
    case ElementFrame(tag) => tag
  }

  /** Skipped ancestors are passed on, outermost first, until nothing wanted below node p might
      be taken for a child of the pseudo-parent. */
  ghost function Disambiguated(levels: seq<set<PathNode>>, frames: seq<Frame>, p: nat, st: Projection): (r: Projection)
    requires p < |st.flags| && st.flags[0] && p < |levels| && p <= |frames|
    ensures |r.flags| == |st.flags| && r.flags[0]
    decreases p - Pseudo(st.flags, p)
  {
    var s := Pseudo(st.flags, p);
    if s == p || !Clashes(levels[s], levels[p]) then st
    else
      var flags := st.flags[s + 1 := true];
      assert flags[s + 1];
      Disambiguated(levels, frames, p, Projection(flags, st.out + [StartElement(TagOf(frames[s]))]))
  }

  /** The innermost node is passed on whatever its ancestors are. */
  ghost function TopPassed(frames: seq<Frame>, st: Projection): (r: Projection)
    requires |st.flags| == |frames| + 1 && st.flags[0]
    ensures |r.flags| == |st.flags| && r.flags[0]
  {
    var p := |frames|;
    if st.flags[p] then st
    else Projection(st.flags[p := true], st.out + [StartElement(TagOf(frames[p - 1]))])
  }

  function Passed(st: Projection, event: Event): Projection {
    st.(out := st.out + [event])
  }

  function Opened(st: Projection, passed: bool): Projection {
    st.(flags := st.flags + [passed])
  }

  ghost predicate Fits(levels: seq<set<PathNode>>, frames: seq<Frame>, st: Projection) {
    |levels| == |st.flags| == |frames| + 1 && st.flags[0]
  }

  ghost function ProjectEvent(levels: seq<set<PathNode>>, frames: seq<Frame>, st: Projection, event: Event):
      (r: Projection)
    requires Fits(levels, frames, st) && NestEvent(frames, event) != None
    ensures |r.flags| == |NestEvent(frames, event).value| + 1 && r.flags[0]
  {
    var p := |frames|;
    match event
    case StartDocument(_, _) => Opened(Passed(st, event), true)
    case StartElement(tag) =>
      if Hits(levels[p], tag) == {} then Opened(st, false)
      else Opened(Passed(Disambiguated(levels, frames, p, st), event), true)
    case EndDocument => Ended(st, event)
    case EndElement(_, _) => Ended(st, event)
    case Attribute(tag, _, _) =>
      if AttributeHits(levels[p], tag) == {} then st else Passed(TopPassed(frames, st), event)
    case Namespace(_, _) => Passed(TopPassed(frames, st), event)
    case _ => if LeafHits(levels[p]) == {} then st else Passed(Disambiguated(levels, frames, p, st), event)
  }

  function Ended(st: Projection, event: Event): Projection
    requires st.flags != []
  {
    var p := |st.flags| - 1;
    Projection(st.flags[..p], if st.flags[p] then st.out + [event] else st.out)
  }

  /** The projection of a stream by a forest of path trees. */
  ghost function Projected(roots: seq<PathNode>, events: seq<Event>): (r: Projection)
    requires Nest(events) != None
    ensures |r.flags| == |Nest(events).value| + 1 && r.flags[0]
    decreases |events|
  {
    if events == [] then Projection([true], [])
    else
      var before, event := events[..|events| - 1], events[|events| - 1];
      MatchFollowsPaths(roots, before);
      ProjectEvent(Match(roots, before).levels, Nest(before).value, Projected(roots, before), event)
  }

  lemma ProjectedSnoc(roots: seq<PathNode>, events: seq<Event>, event: Event)
    requires Nest(events) != None && Nest(events + [event]) != None
    ensures NestEvent(Nest(events).value, event) != None
    ensures Fits(Match(roots, events).levels, Nest(events).value, Projected(roots, events))
    ensures Projected(roots, events + [event])
         == ProjectEvent(Match(roots, events).levels, Nest(events).value, Projected(roots, events), event)
  {
    hide Match, ProjectEvent;
    assert (events + [event])[..|events|] == events;
    NestSnoc(events, event);
    MatchFollowsPaths(roots, events);
  }

  // ----- what an event can disturb

  /** The innermost node is passed on for the event although the pseudo-parent selects it by its
      name; or the event is a document that the pseudo-parent and the real parent do not select
      alike. */
  ghost predicate Disturbs(levels: seq<set<PathNode>>, frames: seq<Frame>, st: Projection, event: Event)
    requires Fits(levels, frames, st)
  {
    var p := |frames|;
    var s := Pseudo(st.flags, p);
    match event
    case StartDocument(_, _) => DocumentHits(levels[s]) != DocumentHits(levels[p])
    case Attribute(tag, _, _) => AttributeHits(levels[p], tag) != {} && Captured(levels, frames, st)
    case Namespace(_, _) => Captured(levels, frames, st)
    case _ => false
  }

  ghost predicate Captured(levels: seq<set<PathNode>>, frames: seq<Frame>, st: Projection)
    requires Fits(levels, frames, st)
  {
    var p := |frames|;
    !st.flags[p] && Hits(levels[Pseudo(st.flags, p)], TagOf(frames[p - 1])) != {}
  }

  // Event k of the stream does not disturb the projection.
  ghost predicate CalmAt(roots: seq<PathNode>, events: seq<Event>, k: nat)
    requires k < |events|
  {
    && Nest(events[..k]) != None
    && var levels, frames := Match(roots, events[..k]).levels, Nest(events[..k]).value;
    var st := Projected(roots, events[..k]);
    Fits(levels, frames, st) && !Disturbs(levels, frames, st, events[k])
  }

  ghost predicate Calm(roots: seq<PathNode>, events: seq<Event>) {
    forall k :: 0 <= k < |events| ==> CalmAt(roots, events, k)
  }

  /** The path trees select the same elements and documents, by the same path nodes and in the
      same order, from the projection as from the stream. */
  ghost predicate Agrees(roots: seq<PathNode>, events: seq<Event>) {
    Nest(events) != None && Match(roots, Projected(roots, events).out).picks == Match(roots, events).picks
  }

  ghost predicate AlwaysAgrees(roots: seq<PathNode>, events: seq<Event>) {
    forall k :: 0 <= k <= |events| ==> Agrees(roots, events[..k])
  }

  predicate IsLeaf(event: Event) {
    event.Text? || event.Comment? || event.ProcessingInstruction?
  }

  /** A leaf is passed on where the last output ancestor, once nothing can be confused by name,
      does not select it by the same path nodes as its parent. */
  ghost predicate Misleads(levels: seq<set<PathNode>>, frames: seq<Frame>, st: Projection, event: Event)
    requires Fits(levels, frames, st)
  {
    var p := |frames|;
    && IsLeaf(event) && LeafHits(levels[p]) != {}
    && LeafHits(levels[Pseudo(Disambiguated(levels, frames, p, st).flags, p)]) != LeafHits(levels[p])
  }

  // Event k of the stream is not such a leaf.
  ghost predicate LedAt(roots: seq<PathNode>, events: seq<Event>, k: nat)
    requires k < |events|
  {
    && Nest(events[..k]) != None
    && var levels, frames := Match(roots, events[..k]).levels, Nest(events[..k]).value;
    var st := Projected(roots, events[..k]);
    Fits(levels, frames, st) && !Misleads(levels, frames, st, events[k])
  }

  ghost predicate Led(roots: seq<PathNode>, events: seq<Event>) {
    forall k :: 0 <= k < |events| ==> LedAt(roots, events, k)
  }

  /** The path trees select the same leaves, by the same path nodes and in the same order. */
  ghost predicate LeavesAgree(roots: seq<PathNode>, events: seq<Event>) {
    Nest(events) != None && Match(roots, Projected(roots, events).out).leaves == Match(roots, events).leaves
  }

  ghost predicate LeavesAlwaysAgree(roots: seq<PathNode>, events: seq<Event>) {
    forall k :: 0 <= k <= |events| ==> LeavesAgree(roots, events[..k])
  }
}
