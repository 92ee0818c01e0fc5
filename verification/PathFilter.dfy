/** The streaming document projection. */
module PathFilter {
  // A stack machine that passes on only the parts of an event stream that a query path tree can
  // select from, and sometimes an ancestor, late.

  import opened Options
  import opened Events
  import opened PathTree
  import opened PathProjection

  // One open node.  The tag is kept for an element that has not been passed on.
  datatype Entry = Entry(
    tag: Tag, matched: bool, nonElementChildren: bool, attrChildren: bool, children: seq<PathNode>)

  const NO_TAG := Tag("", "", "")
  const NEW_ENTRY := Entry(NO_TAG, false, false, false, [])

  function AddNode(e: Entry, q: PathNode): (r: Entry) {
    var flagged :=
      match q.kind
      case DescendantStep => e.(nonElementChildren := e.nonElementChildren || q.anyKind)
      case ChildStep => e.(nonElementChildren := e.nonElementChildren || q.anyKind)
      case DescendantAttrStep => e.(attrChildren := true)
      case AttributeStep => e.(attrChildren := true)
      case RootStep => e;
    flagged.(children := e.children + [q])
  }

  // The flags say what kinds of node the children expect.
  ghost predicate Flagged(e: Entry) {
    && (e.nonElementChildren <==> LeafHits(ToSet(e.children)) != {})
    && (e.attrChildren <==> exists q :: q in e.children && TestsAttributes(q))
  }

  lemma AddNodeSets(e: Entry, q: PathNode)
    ensures ToSet(AddNode(e, q).children) == ToSet(e.children) + {q}
    ensures AddNode(e, q).matched == e.matched && AddNode(e, q).tag == e.tag
    ensures Flagged(e) ==> Flagged(AddNode(e, q))
  {
    var r := AddNode(e, q);
    assert forall x :: x in r.children <==> x in e.children || x == q;
    if Flagged(e) {
      if LeafHits(ToSet(e.children)) != {} {
        var x :| x in LeafHits(ToSet(e.children));
        assert x in LeafHits(ToSet(r.children));
      }
      if r.nonElementChildren && !e.nonElementChildren {
        assert q in LeafHits(ToSet(r.children));
      }
      if LeafHits(ToSet(r.children)) != {} {
        var x :| x in LeafHits(ToSet(r.children));
        assert x == q || x in LeafHits(ToSet(e.children));
      }
    }
  }

  method AddChildren(e: Entry, q: PathNode) returns (r: Entry)
    requires Flagged(e)
    ensures ToSet(r.children) == ToSet(e.children) + ToSet(q.children)
    ensures r.matched == e.matched && r.tag == e.tag && Flagged(r)
  {
    r := e;
    for i := 0 to |q.children|
      invariant ToSet(r.children) == ToSet(e.children) + ToSet(q.children[..i])
      invariant r.matched == e.matched && r.tag == e.tag && Flagged(r)
    {
      AddNodeSets(r, q.children[i]);
      r := AddNode(r, q.children[i]);
      assert q.children[..i + 1] == q.children[..i] + [q.children[i]];
    }
    assert q.children[..|q.children|] == q.children;
  }

  lemma BelowSnoc(s: set<PathNode>, q: PathNode, hits: set<PathNode>, hit: bool)
    ensures Below(s + {q}, hits + if hit then {q} else {})
         == Below(s, hits) + (if Inherited(q) then {q} else {}) + (if hit then ToSet(q.children) else {})
  {
  }

  lemma HitsSnoc(children: seq<PathNode>, i: nat, tag: Tag)
    requires i < |children|
    ensures var q, s := children[i], ToSet(children[..i]);
            && ToSet(children[..i + 1]) == s + {q}
            && Hits(s + {q}, tag) == Hits(s, tag) + if TestsTree(q) && NameMatches(q, tag) then {q} else {}
  {
    assert children[..i + 1] == children[..i] + [children[i]];
  }

  lemma MatchedFlags(e: Entry)
    ensures Flagged(e.(matched := true)) == Flagged(e)
  {
  }

  // The entry of an element with the given tag below an entry with the given children.
  method ElementEntry(children: seq<PathNode>, tag: Tag) returns (r: Entry)
    ensures Flagged(r) && r.tag == NO_TAG
    ensures r.matched <==> Hits(ToSet(children), tag) != {}
    ensures ToSet(r.children) == Below(ToSet(children), Hits(ToSet(children), tag))
  {
    r := NEW_ENTRY;
    for i := 0 to |children|
      invariant Flagged(r) && r.tag == NO_TAG
      invariant r.matched <==> Hits(ToSet(children[..i]), tag) != {}
      invariant ToSet(r.children) == Below(ToSet(children[..i]), Hits(ToSet(children[..i]), tag))
    {
      hide Below, LeafHits;
      var q := children[i];
      ghost var s := ToSet(children[..i]);
      ghost var hit := TestsTree(q) && NameMatches(q, tag);
      hide Hits, ToSet, Flagged;
      HitsSnoc(children, i, tag);
      BelowSnoc(s, q, Hits(s, tag), hit);
      if q.kind == DescendantAttrStep || q.kind == DescendantStep {
        AddNodeSets(r, q);
        r := AddNode(r, q);
      }
      if (q.kind == DescendantStep || q.kind == ChildStep) && NameMatches(q, tag) {
        MatchedFlags(r);
        r := AddChildren(r.(matched := true), q);
      }
    }
    assert children[..|children|] == children;
  }

  lemma DocumentHitsSnoc(children: seq<PathNode>, i: nat)
    requires i < |children|
    ensures var q, s := children[i], ToSet(children[..i]);
            && ToSet(children[..i + 1]) == s + {q}
            && DocumentHits(s + {q})
            == DocumentHits(s) + if q.kind == RootStep || (TestsTree(q) && q.anyKind) then {q} else {}
  {
    assert children[..i + 1] == children[..i] + [children[i]];
  }

  // The entry of a document node; a document is always passed on.
  method DocumentEntry(children: seq<PathNode>) returns (r: Entry)
    ensures Flagged(r) && r.tag == NO_TAG && r.matched
    ensures ToSet(r.children) == Below(ToSet(children), DocumentHits(ToSet(children)))
  {
    r := NEW_ENTRY;
    for i := 0 to |children|
      invariant Flagged(r) && r.tag == NO_TAG
      invariant ToSet(r.children) == Below(ToSet(children[..i]), DocumentHits(ToSet(children[..i])))
    {
      hide Below, LeafHits, Flagged;
      var q := children[i];
      ghost var s := ToSet(children[..i]);
      ghost var hit := q.kind == RootStep || (TestsTree(q) && q.anyKind);
      hide DocumentHits, ToSet;
      DocumentHitsSnoc(children, i);
      BelowSnoc(s, q, DocumentHits(s), hit);
      if q.kind == RootStep {
        MatchedFlags(r);
        r := AddChildren(r.(matched := true), q);
      }
      if q.kind == DescendantAttrStep || q.kind == DescendantStep {
        AddNodeSets(r, q);
        r := AddNode(r, q);
      }
      if (q.kind == DescendantStep || q.kind == ChildStep) && q.anyKind {
        MatchedFlags(r);
        r := AddChildren(r.(matched := true), q);
      }
    }
    assert children[..|children|] == children;
    MatchedFlags(r);
    r := r.(matched := true);
  }

  // ----- the pseudo-parent: the last open node that has been passed on

  ghost function LastMatched(entries: seq<Entry>, p: nat): (s: nat)
    requires p < |entries| && entries[0].matched
    ensures s <= p && entries[s].matched
    ensures forall k :: s < k <= p ==> !entries[k].matched
  {
    if entries[p].matched then p else LastMatched(entries, p - 1)
  }

  // A node wanted below the real parent might be taken for an actual child of the pseudo-parent.
  ghost predicate Clash(pseudo: seq<PathNode>, actual: seq<PathNode>) {
    exists i, j :: i in pseudo && j in actual && ClashingPair(i, j)
  }

  method FindClash(pseudo: seq<PathNode>, actual: seq<PathNode>) returns (found: bool)
    ensures found == Clash(pseudo, actual)
  {
    found := false;
    for a := 0 to |pseudo|
      invariant found <==> exists i, j :: i in pseudo[..a] && j in actual && ClashingPair(i, j)
    {
      assert pseudo[..a + 1] == pseudo[..a] + [pseudo[a]];
      if !found && pseudo[a].kind == ChildStep {
        for b := 0 to |actual|
          invariant found <==> exists j :: j in actual[..b] && ClashingPair(pseudo[a], j)
        {
          assert actual[..b + 1] == actual[..b] + [actual[b]];
          if !found && ClashingPair(pseudo[a], actual[b]) {
            found := true;
          }
        }
        assert actual[..|actual|] == actual;
      }
    }
    assert pseudo[..|pseudo|] == pseudo;
  }

  // ----- the stack as the projection has it

  ghost function FlagsOf(entries: seq<Entry>): (flags: seq<bool>)
    ensures |flags| == |entries| && forall k :: 0 <= k < |entries| ==> flags[k] == entries[k].matched
  {
    seq(|entries|, k requires 0 <= k < |entries| => entries[k].matched)
  }

  // The stack, with the events passed on, is the state of the projection.
  ghost predicate Follows(entries: seq<Entry>, levels: seq<set<PathNode>>, st: Projection, out: seq<Event>) {
    && FlagsOf(entries) == st.flags && out == st.out
    && Levelled(entries, levels)
  }

  ghost predicate Levelled(entries: seq<Entry>, levels: seq<set<PathNode>>) {
    |levels| == |entries| && forall k :: 0 <= k < |entries| ==> ToSet(entries[k].children) == levels[k]
  }

  lemma {:induction false} PseudoIsLastMatched(entries: seq<Entry>, p: nat)
    requires p < |entries| && entries[0].matched
    ensures Pseudo(FlagsOf(entries), p) == LastMatched(entries, p)
  {
  }

  lemma ClashIs(pseudo: seq<PathNode>, actual: seq<PathNode>)
    ensures Clash(pseudo, actual) == Clashes(ToSet(pseudo), ToSet(actual))
  {
    if Clash(pseudo, actual) {
      var i, j :| i in pseudo && j in actual && ClashingPair(i, j);
      assert i in ToSet(pseudo) && j in ToSet(actual);
    }
    if Clashes(ToSet(pseudo), ToSet(actual)) {
      var i, j :| i in ToSet(pseudo) && j in ToSet(actual) && ClashingPair(i, j);
      assert i in pseudo && j in actual;
    }
  }

  lemma PushFollows(entries: seq<Entry>, levels: seq<set<PathNode>>, st: Projection, out: seq<Event>, e: Entry,
      after: Projection)
    requires Follows(entries, levels, st, out) && after == Opened(st.(out := after.out), e.matched)
    ensures Follows(entries + [e], levels + [ToSet(e.children)], after, after.out)
  {
    hide ToSet;
  }

  lemma PopFollows(entries: seq<Entry>, levels: seq<set<PathNode>>, st: Projection, out: seq<Event>, end: Event)
    requires Follows(entries, levels, st, out) && entries != []
    ensures var after := out + if entries[|entries| - 1].matched then [end] else [];
            Follows(entries[..|entries| - 1], levels[..|levels| - 1], Ended(st, end), after)
  {
    hide ToSet;
    assert out + [] == out;
  }

  // Passing on entry u, late.
  lemma MaterializeFollows(entries: seq<Entry>, levels: seq<set<PathNode>>, st: Projection, out: seq<Event>, u: nat,
      start: Event)
    requires Follows(entries, levels, st, out) && u < |entries|
    ensures Follows(Materialized(entries, u), levels, Projection(st.flags[u := true], out + [start]), out + [start])
  {
    hide ToSet;
  }

  lemma PassFollows(entries: seq<Entry>, levels: seq<set<PathNode>>, st: Projection, out: seq<Event>, event: Event)
    requires Follows(entries, levels, st, out)
    ensures Follows(entries, levels, Passed(st, event), out + [event])
  {
  }

  // One round of the search for clashes.
  lemma CheckOnce(entries: seq<Entry>, frames: seq<Frame>, levels: seq<set<PathNode>>, st: Projection,
      out: seq<Event>, s: nat)
    requires Nested(entries, frames, out) && Follows(entries, levels, st, out)
    requires s < |frames| && entries[s].matched && forall k :: s < k <= |frames| ==> !entries[k].matched
    ensures var p, start := |frames|, StartElement(entries[s + 1].tag);
            if Clash(entries[s].children, entries[p].children) then
              var next := Projection(st.flags[s + 1 := true], out + [start]);
              Disambiguated(levels, frames, p, st) == Disambiguated(levels, frames, p, next)
            else Disambiguated(levels, frames, p, st) == st
  {
    hide Nest, Clash, Clashes, Flagged, OpenFrames;
    ClashIs(entries[s].children, entries[|frames|].children);
    PseudoIsLastMatched(entries, |frames|);
    assert frames[s] == ElementFrame(entries[s + 1].tag);
  }

  lemma FollowsFits(entries: seq<Entry>, frames: seq<Frame>, levels: seq<set<PathNode>>, st: Projection,
      out: seq<Event>)
    requires Nested(entries, frames, out) && Follows(entries, levels, st, out)
    ensures Fits(levels, frames, st)
  {
  }

  lemma CheckedAlready(entries: seq<Entry>, frames: seq<Frame>, levels: seq<set<PathNode>>, st: Projection,
      out: seq<Event>)
    requires Nested(entries, frames, out) && Follows(entries, levels, st, out) && entries[|frames|].matched
    ensures Disambiguated(levels, frames, |frames|, st) == st
  {
  }

  lemma TopIs(entries: seq<Entry>, frames: seq<Frame>, levels: seq<set<PathNode>>, st: Projection, out: seq<Event>)
    requires Nested(entries, frames, out) && Follows(entries, levels, st, out)
    ensures Fits(levels, frames, st) && ToSet(entries[|frames|].children) == levels[|frames|]
  {
  }

  lemma DocumentFollows(entries: seq<Entry>, frames: seq<Frame>, input: Matcher, st: Projection, out: seq<Event>,
      e: Entry, start: Event)
    requires Fits(input.levels, frames, st) && start.StartDocument? && Follows(entries, input.levels, st, out)
    requires var top := input.levels[|frames|]; e.matched && ToSet(e.children) == Below(top, DocumentHits(top))
    ensures Follows(entries + [e], MatchEvent(input, start).levels, ProjectEvent(input.levels, frames, st, start),
                    out + [start])
  {
    hide DocumentHits, Below, ToSet;
    PushFollows(entries, input.levels, st, out, e, Opened(Passed(st, start), true));
  }

  lemma MemberProjected(frames: seq<Frame>, input: Matcher, st: Projection, member: Event)
    requires Fits(input.levels, frames, st) && NestEvent(frames, member) != None
    requires member.Attribute? || member.Namespace?
    ensures MatchEvent(input, member).levels == input.levels
    ensures ProjectEvent(input.levels, frames, st, member)
         == if member.Attribute? && AttributeHits(input.levels[|frames|], member.tag) == {} then st
            else Passed(TopPassed(frames, st), member)
  {
  }

  // Passing on the innermost element late.
  lemma TopFollows(entries: seq<Entry>, frames: seq<Frame>, levels: seq<set<PathNode>>, st: Projection, out: seq<Event>)
    requires Nested(entries, frames, out) && Follows(entries, levels, st, out)
    ensures var p, start := |frames|, StartElement(entries[|frames|].tag);
            && Fits(levels, frames, st)
            && if entries[p].matched then TopPassed(frames, st) == st
               else Follows(Materialized(entries, p), levels, TopPassed(frames, st), out + [start])
  {
    hide Nest, OpenFrames;
    if !entries[|frames|].matched {
      MaterializeFollows(entries, levels, st, out, |frames|, StartElement(entries[|frames|].tag));
      assert frames[|frames| - 1] == ElementFrame(entries[|frames|].tag);
    }
  }

  lemma EndProjected(frames: seq<Frame>, input: Matcher, st: Projection, end: Event)
    requires Fits(input.levels, frames, st) && NestEvent(frames, end) != None && (end.EndElement? || end.EndDocument?)
    ensures ProjectEvent(input.levels, frames, st, end) == Ended(st, end)
    ensures MatchEvent(input, end).levels == input.levels[..|input.levels| - 1]
  {
  }

  // The start of an element, once its ancestors are checked.
  lemma StartFollows(entries: seq<Entry>, frames: seq<Frame>, input: Matcher, st: Projection, out: seq<Event>, e: Entry,
      tag: Tag)
    requires Fits(input.levels, frames, st) && |entries| == |frames| + 1
    requires var top := input.levels[|frames|];
             e.matched == (Hits(top, tag) != {}) && ToSet(e.children) == Below(top, Hits(top, tag))
    requires var now := if e.matched then Disambiguated(input.levels, frames, |frames|, st) else st;
             Follows(entries, input.levels, now, out)
    ensures var start := StartElement(tag);
            Follows(entries + [e], MatchEvent(input, start).levels, ProjectEvent(input.levels, frames, st, start),
                    out + if e.matched then [start] else [])
  {
    hide Disambiguated, Hits, Below, ToSet;
    var after := ProjectEvent(input.levels, frames, st, StartElement(tag));
    var now := if e.matched then Disambiguated(input.levels, frames, |frames|, st) else st;
    assert out + [] == out;
    assert after == Opened(now.(out := after.out), e.matched);
    PushFollows(entries, input.levels, now, out, e, after);
  }

  // ----- what the output has open

  ghost function OpenFrames(entries: seq<Entry>, frames: seq<Frame>): seq<Frame>
    requires |entries| == |frames| + 1
  {
    if frames == [] then []
    else
      OpenFrames(entries[..|entries| - 1], frames[..|frames| - 1])
      + if entries[|frames|].matched then [frames[|frames| - 1]] else []
  }

  ghost function OpenLevels(entries: seq<Entry>): seq<set<PathNode>> {
    if entries == [] then []
    else
      OpenLevels(entries[..|entries| - 1])
      + if entries[|entries| - 1].matched then [ToSet(entries[|entries| - 1].children)] else []
  }

  // Entries above s that have not been passed on leave no trace in the output.
  lemma {:induction false} UnmatchedAreClosed(entries: seq<Entry>, frames: seq<Frame>, s: nat)
    requires |entries| == |frames| + 1 && s < |entries|
    requires forall k :: s < k < |entries| ==> !entries[k].matched
    ensures OpenFrames(entries, frames) == OpenFrames(entries[..s + 1], frames[..s])
    ensures OpenLevels(entries) == OpenLevels(entries[..s + 1])
  {
    if s == |frames| {
      assert entries[..s + 1] == entries && frames[..s] == frames;
    } else {
      var shorter := entries[..|entries| - 1];
      UnmatchedAreClosed(shorter, frames[..|frames| - 1], s);
      assert shorter[..s + 1] == entries[..s + 1] && frames[..|frames| - 1][..s] == frames[..s];
    }
  }

  /** The output has open exactly the passed-on entries, in the order of the stack. */
  ghost predicate Nested(entries: seq<Entry>, frames: seq<Frame>, out: seq<Event>) {
    && |entries| == |frames| + 1
    && entries[0].matched
    && (forall k :: 0 <= k < |entries| ==> Flagged(entries[k]))
    && (forall k :: 1 <= k < |entries| && !entries[k].matched ==> frames[k - 1] == ElementFrame(entries[k].tag))
    && Nest(out) == Some(OpenFrames(entries, frames))
  }

  /** The output's matcher is where the input's is, with the entries that have not been passed
      on left out; and it has picked what the input's has picked. */
  ghost predicate Exact(entries: seq<Entry>, roots: seq<PathNode>, input: Matcher, out: seq<Event>) {
    && |input.levels| == |entries|
    && (forall k :: 0 <= k < |entries| ==> ToSet(entries[k].children) == input.levels[k])
    && (forall k :: 1 <= k < |entries| && !entries[k].matched ==>
          Hits(input.levels[k - 1], entries[k].tag) == {} && input.levels[k] == Below(input.levels[k - 1], {}))
    && Match(roots, out).levels == OpenLevels(entries)
    && Match(roots, out).picks == input.picks
    && Match(roots, out).attributes == input.attributes
  }

  // Passing on, late, the ancestor right above the pseudo-parent s.
  ghost function Materialized(entries: seq<Entry>, u: nat): seq<Entry>
    requires u < |entries|
  {
    entries[u := entries[u].(matched := true)]
  }

  lemma MaterializedIsOpen(entries: seq<Entry>, frames: seq<Frame>, s: nat)
    requires |entries| == |frames| + 1 && s + 1 < |entries| && entries[s].matched
    requires forall k :: s < k < |entries| ==> !entries[k].matched
    ensures OpenFrames(Materialized(entries, s + 1), frames) == OpenFrames(entries, frames) + [frames[s]]
    ensures OpenLevels(Materialized(entries, s + 1)) == OpenLevels(entries) + [ToSet(entries[s + 1].children)]
    ensures OpenLevels(entries) != []
    ensures OpenLevels(entries)[|OpenLevels(entries)| - 1] == ToSet(entries[s].children)
  {
    var later := Materialized(entries, s + 1);
    UnmatchedAreClosed(entries, frames, s);
    UnmatchedAreClosed(later, frames, s + 1);
    assert later[..s + 2][..|later[..s + 2]| - 1] == entries[..s + 1];
    assert frames[..s + 1][..|frames[..s + 1]| - 1] == frames[..s];
    TopLevel(entries[..s + 1]);
  }

  lemma MaterializeNests(entries: seq<Entry>, frames: seq<Frame>, out: seq<Event>, s: nat)
    requires Nested(entries, frames, out) && s + 1 < |entries| && entries[s].matched
    requires forall k :: s < k < |entries| ==> !entries[k].matched
    ensures Nested(Materialized(entries, s + 1), frames, out + [StartElement(entries[s + 1].tag)])
  {
    MaterializedIsOpen(entries, frames, s);
    NestSnoc(out, StartElement(entries[s + 1].tag));
  }

  lemma MaterializeIsExact(entries: seq<Entry>, frames: seq<Frame>, roots: seq<PathNode>, input: Matcher,
      out: seq<Event>, s: nat)
    requires |entries| == |frames| + 1 && s + 1 < |entries| && entries[s].matched
    requires forall k :: s < k < |entries| ==> !entries[k].matched
    requires Exact(entries, roots, input, out)
    ensures Exact(Materialized(entries, s + 1), roots, input, out + [StartElement(entries[s + 1].tag)])
  {
    var u := s + 1;
    MaterializedIsOpen(entries, frames, s);
    MatchSnoc(roots, out, StartElement(entries[u].tag));
    assert Hits(input.levels[u - 1], entries[u].tag) == {} && input.levels[u] == Below(input.levels[u - 1], {});
  }

  lemma TopLevel(entries: seq<Entry>)
    requires entries != [] && entries[|entries| - 1].matched
    ensures OpenLevels(entries) != []
    ensures OpenLevels(entries)[|OpenLevels(entries)| - 1] == ToSet(entries[|entries| - 1].children)
  {
  }

  // Below entries that have not been passed on, only inherited path nodes are expected.
  lemma {:induction false} SkippedExpectInherited(entries: seq<Entry>, roots: seq<PathNode>, input: Matcher,
      out: seq<Event>, s: nat, p: nat)
    requires Exact(entries, roots, input, out) && s < p < |entries|
    requires forall k :: s < k <= p ==> !entries[k].matched
    ensures input.levels[p] == Below(input.levels[s], {})
  {
    if s < p - 1 {
      SkippedExpectInherited(entries, roots, input, out, s, p - 1);
      assert input.levels[p] == Below(input.levels[p - 1], {});
    }
  }

  // No clash: what the real parent selects by name, the pseudo-parent selects too, and no more.
  lemma NoClashSameHits(pseudo: seq<PathNode>, actual: seq<PathNode>, tag: Tag)
    requires ToSet(actual) == Below(ToSet(pseudo), {}) && !Clash(pseudo, actual)
    requires Hits(ToSet(actual), tag) != {}
    ensures Hits(ToSet(pseudo), tag) == Hits(ToSet(actual), tag)
    ensures Below(ToSet(pseudo), Hits(ToSet(actual), tag)) == Below(ToSet(actual), Hits(ToSet(actual), tag))
  {
    var j :| j in Hits(ToSet(actual), tag);
    forall i | i in Hits(ToSet(pseudo), tag) ensures i in Hits(ToSet(actual), tag) {
      if i.kind == ChildStep {
        assert i in pseudo && j in actual && ClashingPair(i, j);
      } else {
        assert i in Below(ToSet(pseudo), {});
      }
    }
  }

  // ----- leaves: text, comments and processing instructions

  // Every test of the tree that is not limited to elements accepts every name.
  predicate Plain(q: PathNode) {
    && (TestsTree(q) && q.anyKind ==> q.name == None && q.uri == None)
    && forall c :: c in q.children ==> Plain(c)
  }

  predicate AllPlain(nodes: set<PathNode>) {
    forall q :: q in nodes ==> Plain(q)
  }

  // The same leaves, by the same path nodes.
  ghost predicate LeavesExact(roots: seq<PathNode>, input: Matcher, out: seq<Event>) {
    Match(roots, out).leaves == input.leaves
  }

  // Where the path trees are plain, so is all that they expect.
  lemma {:induction false} PlainLevels(roots: seq<PathNode>, events: seq<Event>)
    requires AllPlain(ToSet(roots))
    ensures forall k :: 0 <= k < |Match(roots, events).levels| ==> AllPlain(Match(roots, events).levels[k])
  {
    hide AllPlain;
    if events != [] {
      PlainLevels(roots, events[..|events| - 1]);
      PlainAfter(Match(roots, events[..|events| - 1]), events[|events| - 1]);
    }
  }

  lemma PlainAfter(m: Matcher, event: Event)
    requires forall k :: 0 <= k < |m.levels| ==> AllPlain(m.levels[k])
    ensures forall k :: 0 <= k < |MatchEvent(m, event).levels| ==> AllPlain(MatchEvent(m, event).levels[k])
  {
    hide AllPlain, Below, Hits, DocumentHits, AttributeHits, LeafHits, AddPick;
    if m.levels != [] {
      var top := m.levels[|m.levels| - 1];
      HitsExpected(top, event);
      PlainBelow(top, DocumentHits(top));
      if event.StartElement? {
        PlainBelow(top, Hits(top, event.tag));
      }
    }
  }

  lemma HitsExpected(top: set<PathNode>, event: Event)
    ensures DocumentHits(top) <= top && (event.StartElement? ==> Hits(top, event.tag) <= top)
  {
  }

  lemma PlainBelow(top: set<PathNode>, hits: set<PathNode>)
    requires AllPlain(top) && hits <= top
    ensures AllPlain(Below(top, hits))
  {
  }

  // A test that accepts every kind and name also accepts every element, so the parent of a
  // wanted leaf has always been passed on.
  lemma WantedParentIsMatched(above: set<PathNode>, tag: Tag)
    requires AllPlain(Below(above, {})) && Hits(above, tag) == {}
    ensures LeafHits(Below(above, {})) == {}
  {
    assert LeafHits(Below(above, {})) <= Hits(above, tag);
  }

  // ----- one event's effect on the stack and the output

  lemma OpenLast(entries: seq<Entry>, frames: seq<Frame>, e: Entry, frame: Frame)
    requires |entries| == |frames| + 1
    ensures OpenFrames(entries + [e], frames + [frame])
         == OpenFrames(entries, frames) + if e.matched then [frame] else []
    ensures OpenLevels(entries + [e]) == OpenLevels(entries) + if e.matched then [ToSet(e.children)] else []
  {
    assert (entries + [e])[..|entries|] == entries;
    assert (frames + [frame])[..|frames|] == frames;
  }

  function FrameOf(start: Event): Frame {
    if start.StartElement? then ElementFrame(start.tag) else DocumentFrame
  }

  predicate Closes(end: Event, frame: Frame) {
    if end.EndElement? then frame == ElementFrame(end.tag) else end.EndDocument? && frame == DocumentFrame
  }

  lemma PushNests(entries: seq<Entry>, frames: seq<Frame>, out: seq<Event>, e: Entry, start: Event)
    requires Nested(entries, frames, out) && Flagged(e)
    requires start.StartElement? || start.StartDocument?
    requires !e.matched ==> FrameOf(start) == ElementFrame(e.tag)
    ensures Nested(entries + [e], frames + [FrameOf(start)], out + if e.matched then [start] else [])
  {
    OpenLast(entries, frames, e, FrameOf(start));
    NestSnoc(out, start);
    assert out + [] == out && OpenFrames(entries, frames) + [] == OpenFrames(entries, frames);
    var longer := entries + [e];
    assert forall k :: 0 <= k < |longer| ==> longer[k] == e || (k < |entries| && longer[k] == entries[k]);
    forall k | 1 <= k < |longer| && !longer[k].matched
      ensures (frames + [FrameOf(start)])[k - 1] == ElementFrame(longer[k].tag)
    {
      assert k < |entries| ==> longer[k] == entries[k];
    }
  }

  lemma PopNests(entries: seq<Entry>, frames: seq<Frame>, out: seq<Event>, end: Event)
    requires Nested(entries, frames, out) && frames != [] && Closes(end, frames[|frames| - 1])
    ensures var after := out + if entries[|frames|].matched then [end] else [];
            Nested(entries[..|entries| - 1], frames[..|frames| - 1], after)
  {
    var below, last := OpenFrames(entries[..|frames|], frames[..|frames| - 1]), frames[|frames| - 1];
    assert (below + [last])[..|below|] == below && (below + [last])[|below|] == last;
    if entries[|frames|].matched {
      assert OpenFrames(entries, frames) == below + [last];
      NestSnoc(out, end);
    } else {
      assert OpenFrames(entries, frames) == below;
      assert out + [] == out;
    }
  }

  lemma PopIsExact(entries: seq<Entry>, roots: seq<PathNode>, input: Matcher, out: seq<Event>, end: Event)
    requires Exact(entries, roots, input, out) && |entries| > 1 && (end.EndElement? || end.EndDocument?)
    requires entries[0].matched
    ensures var after := out + if entries[|entries| - 1].matched then [end] else [];
            && Exact(entries[..|entries| - 1], roots, MatchEvent(input, end), after)
            && (LeavesExact(roots, input, out) ==> LeavesExact(roots, MatchEvent(input, end), after))
  {
    hide Match;
    MatchSnoc(roots, out, end);
    assert out + [] == out;
  }

  // The level of the output's matcher is that of the pseudo-parent.
  lemma OutputLevel(entries: seq<Entry>, frames: seq<Frame>, roots: seq<PathNode>, input: Matcher, out: seq<Event>)
    requires |entries| == |frames| + 1 && entries[0].matched && Exact(entries, roots, input, out)
    ensures var p, levels := |frames|, Match(roots, out).levels;
            var s := LastMatched(entries, p);
            && levels != [] && levels[|levels| - 1] == input.levels[s]
            && (s < p ==> input.levels[p] == Below(input.levels[s], {}))
  {
    var p := |frames|;
    var s := LastMatched(entries, p);
    UnmatchedAreClosed(entries, frames, s);
    TopLevel(entries[..s + 1]);
    if s < p {
      SkippedExpectInherited(entries, roots, input, out, s, p);
    }
  }

  // Once the ancestors are checked, the pseudo-parent does not clash with the real one.
  ghost predicate Clear(entries: seq<Entry>)
    requires entries != [] && entries[0].matched
  {
    var p := |entries| - 1;
    var s := LastMatched(entries, p);
    s == p || !Clash(entries[s].children, entries[p].children)
  }

  lemma {:induction false} ClearAt(entries: seq<Entry>, s: nat)
    requires s < |entries| && entries[0].matched && entries[s].matched
    requires forall k :: s < k < |entries| ==> !entries[k].matched
    requires s == |entries| - 1 || !Clash(entries[s].children, entries[|entries| - 1].children)
    ensures Clear(entries)
  {
    hide Clash;
    var r := LastMatched(entries, |entries| - 1);
    assert r == s;
  }

  lemma PushElementIsExact(entries: seq<Entry>, frames: seq<Frame>, roots: seq<PathNode>, input: Matcher,
      out: seq<Event>, e: Entry, tag: Tag)
    requires |entries| == |frames| + 1 && entries[0].matched && Exact(entries, roots, input, out)
    requires var top := ToSet(entries[|frames|].children);
             e.matched == (Hits(top, tag) != {}) && ToSet(e.children) == Below(top, Hits(top, tag))
    requires if e.matched then Clear(entries) else e.tag == tag
    ensures var after := out + if e.matched then [StartElement(tag)] else [];
            Exact(entries + [e], roots, MatchEvent(input, StartElement(tag)), after)
  {
    hide Match;
    var p := |frames|;
    var s := LastMatched(entries, p);
    OutputLevel(entries, frames, roots, input, out);
    OpenLast(entries, frames, e, ElementFrame(tag));
    MatchSnoc(roots, out, StartElement(tag));
    assert out + [] == out;
    if e.matched && s < p {
      NoClashSameHits(entries[s].children, entries[p].children, tag);
    }
  }

  lemma PushElementLeaves(roots: seq<PathNode>, input: Matcher, out: seq<Event>, emitted: bool, tag: Tag)
    requires LeavesExact(roots, input, out) && input.levels != [] && Match(roots, out).levels != []
    ensures LeavesExact(roots, MatchEvent(input, StartElement(tag)), out + if emitted then [StartElement(tag)] else [])
  {
    MatchSnoc(roots, out, StartElement(tag));
    assert out + [] == out;
  }

  // The path nodes that select a document here and below the pseudo-parent are not the same.
  ghost predicate DocumentClash(entries: seq<Entry>)
    requires entries != [] && entries[0].matched
  {
    var p := |entries| - 1;
    DocumentHits(ToSet(entries[LastMatched(entries, p)].children)) != DocumentHits(ToSet(entries[p].children))
  }

  // The matcher of the output when a document is passed on without looking at its ancestors.
  lemma DocumentIsMatched(entries: seq<Entry>, frames: seq<Frame>, roots: seq<PathNode>, input: Matcher,
      out: seq<Event>, start: Event)
    requires |entries| == |frames| + 1 && entries[0].matched && Exact(entries, roots, input, out)
    requires start.StartDocument?
    ensures var pseudo := ToSet(entries[LastMatched(entries, |frames|)].children);
            && var after := Match(roots, out + [start]);
            && after.levels == OpenLevels(entries) + [Below(pseudo, DocumentHits(pseudo))]
            && after.picks == AddPick(input.picks, start, DocumentHits(pseudo))
            && after.attributes == input.attributes && after.leaves == Match(roots, out).leaves
  {
    hide Match, Below, DocumentHits, OpenLevels, AddPick;
    OutputLevel(entries, frames, roots, input, out);
    MatchSnoc(roots, out, start);
  }

  lemma PushDocumentExact(entries: seq<Entry>, frames: seq<Frame>, roots: seq<PathNode>, input: Matcher,
      out: seq<Event>, e: Entry, start: Event)
    requires |entries| == |frames| + 1 && entries[0].matched && Exact(entries, roots, input, out)
    requires start.StartDocument?
    requires var top := ToSet(entries[|frames|].children);
             e.matched && ToSet(e.children) == Below(top, DocumentHits(top))
    ensures if DocumentClash(entries) then Match(roots, out + [start]).picks != MatchEvent(input, start).picks
            else Exact(entries + [e], roots, MatchEvent(input, start), out + [start])
  {
    hide Match, Below, DocumentHits, OpenLevels, AddPick;
    OutputLevel(entries, frames, roots, input, out);
    OpenLast(entries, frames, e, DocumentFrame);
    DocumentIsMatched(entries, frames, roots, input, out, start);
    var pseudo := ToSet(entries[LastMatched(entries, |frames|)].children);
    var actual := ToSet(entries[|frames|].children);
    if actual == Below(pseudo, {}) {
      SameBelow(pseudo, actual, DocumentHits(actual));
    }
    PicksTell(input.picks, start, DocumentHits(pseudo), DocumentHits(actual));
  }

  lemma PushDocumentLeaves(roots: seq<PathNode>, input: Matcher, out: seq<Event>, start: Event)
    requires LeavesExact(roots, input, out) && input.levels != [] && Match(roots, out).levels != []
    requires start.StartDocument?
    ensures LeavesExact(roots, MatchEvent(input, start), out + [start])
  {
    hide Match;
    MatchSnoc(roots, out, start);
  }

  lemma PicksTell(picks: seq<Pick>, event: Event, s: set<PathNode>, t: set<PathNode>)
    ensures AddPick(picks, event, s) == AddPick(picks, event, t) <==> s == t
  {
    assert (picks + [Pick(event, s)])[|picks|].nodes == s;
    assert (picks + [Pick(event, t)])[|picks|].nodes == t;
  }

  lemma SameBelow(pseudo: set<PathNode>, actual: set<PathNode>, hits: set<PathNode>)
    requires actual == Below(pseudo, {})
    ensures Below(actual, hits) == Below(pseudo, hits)
  {
  }

  lemma LeafFollows(entries: seq<Entry>, frames: seq<Frame>, input: Matcher, st: Projection, out: seq<Event>,
      leaf: Event)
    requires Fits(input.levels, frames, st) && IsLeaf(leaf) && Nested(entries, frames, out)
    requires ToSet(entries[|frames|].children) == input.levels[|frames|]
    requires var p := |frames|;
             var now := if LeafHits(input.levels[p]) != {} then Disambiguated(input.levels, frames, p, st) else st;
             Follows(entries, input.levels, now, out)
    ensures entries[|frames|].nonElementChildren <==> LeafHits(input.levels[|frames|]) != {}
    ensures Follows(entries, MatchEvent(input, leaf).levels, ProjectEvent(input.levels, frames, st, leaf),
                    out + if entries[|frames|].nonElementChildren then [leaf] else [])
  {
    hide Disambiguated, LeafHits, OpenFrames, Nest;
    assert Flagged(entries[|frames|]);
    assert out + [] == out;
  }

  lemma LeafIsExact(entries: seq<Entry>, frames: seq<Frame>, roots: seq<PathNode>, input: Matcher, out: seq<Event>,
      leaf: Event)
    requires Nested(entries, frames, out) && Exact(entries, roots, input, out) && IsLeaf(leaf)
    ensures var after := out + if entries[|frames|].nonElementChildren then [leaf] else [];
            && Exact(entries, roots, MatchEvent(input, leaf), after)
            && (LeavesExact(roots, input, out) ==>
                  (LeavesExact(roots, MatchEvent(input, leaf), after) <==> !LeafClash(entries)))
  {
    hide Match, LeafHits, AddPick, ToSet, OpenFrames;
    var p := |frames|;
    var s := LastMatched(entries, p);
    OutputLevel(entries, frames, roots, input, out);
    MatchSnoc(roots, out, leaf);
    assert out + [] == out;
    assert Flagged(entries[p]);
    PicksTell(input.leaves, leaf, LeafHits(input.levels[s]), LeafHits(input.levels[p]));
    NothingPicked(input.leaves, leaf);
  }

  lemma NothingPicked(picks: seq<Pick>, event: Event)
    ensures AddPick(picks, event, {}) == picks
  {
  }

  // A leaf is wanted here, but not by the path nodes that select one below the pseudo-parent.
  ghost predicate LeafClash(entries: seq<Entry>)
    requires entries != [] && entries[0].matched
  {
    var p := |entries| - 1;
    && entries[p].nonElementChildren
    && LeafHits(ToSet(entries[LastMatched(entries, p)].children)) != LeafHits(ToSet(entries[p].children))
  }

  // The stack once the ancestors are checked says of a leaf what the projection says.
  lemma MisleadsIs(entries: seq<Entry>, frames: seq<Frame>, input: Matcher, st: Projection, out: seq<Event>,
      leaf: Event)
    requires Fits(input.levels, frames, st) && IsLeaf(leaf) && Nested(entries, frames, out)
    requires var now := if entries[|frames|].nonElementChildren
                        then Disambiguated(input.levels, frames, |frames|, st) else st;
             Follows(entries, input.levels, now, out)
    ensures Misleads(input.levels, frames, st, leaf) <==> LeafClash(entries)
  {
    hide Disambiguated, LeafHits, OpenFrames, Nest;
    assert Flagged(entries[|frames|]);
    PseudoIsLastMatched(entries, |frames|);
  }

  // Passing on the innermost element late, for one of its attributes or namespaces.
  lemma MatchTopNests(entries: seq<Entry>, frames: seq<Frame>, out: seq<Event>)
    requires Nested(entries, frames, out) && !entries[|frames|].matched
    ensures Nested(Materialized(entries, |frames|), frames, out + [StartElement(entries[|frames|].tag)])
  {
    NestSnoc(out, StartElement(entries[|frames|].tag));
    var later := Materialized(entries, |frames|);
    assert later[..|frames|] == entries[..|frames|];
    var below := OpenFrames(entries[..|frames|], frames[..|frames| - 1]);
    assert below + [] == below;
  }

  // An outer level, though not the innermost element's own, selects that element by its name,
  // and the element has not been passed on.
  ghost predicate Captures(entries: seq<Entry>)
    requires entries != [] && entries[0].matched
  {
    var p := |entries| - 1;
    !entries[p].matched && Hits(ToSet(entries[LastMatched(entries, p)].children), entries[p].tag) != {}
  }

  /** Passing on the innermost element for an attribute or namespace, without looking at its
      ancestors, keeps the matches exactly if the pseudo-parent does not capture it. */
  lemma LateTopExact(entries: seq<Entry>, frames: seq<Frame>, roots: seq<PathNode>, input: Matcher, out: seq<Event>)
    requires |entries| == |frames| + 1 && entries[0].matched && !entries[|frames|].matched
    requires Exact(entries, roots, input, out)
    ensures var after := out + [StartElement(entries[|frames|].tag)];
            if Captures(entries) then |Match(roots, after).picks| != |input.picks|
            else Exact(Materialized(entries, |frames|), roots, input, after)
    ensures LeavesExact(roots, input, out) ==> LeavesExact(roots, input, out + [StartElement(entries[|frames|].tag)])
  {
    hide Match;
    var tag, later := entries[|frames|].tag, Materialized(entries, |frames|);
    OutputLevel(entries, frames, roots, input, out);
    MatchSnoc(roots, out, StartElement(tag));
    assert later[..|frames|] == entries[..|frames|];
    assert OpenLevels(entries) + [] == OpenLevels(entries);
  }

  // A member that is passed on is selected by the same path nodes in the output.
  lemma MemberIsExact(entries: seq<Entry>, roots: seq<PathNode>, input: Matcher, out: seq<Event>, member: Event)
    requires (member.Attribute? || member.Namespace?) && entries != [] && entries[|entries| - 1].matched
    ensures Match(roots, out + [member]).picks == Match(roots, out).picks
    ensures MatchEvent(input, member).picks == input.picks
    ensures Exact(entries, roots, input, out) ==> Exact(entries, roots, MatchEvent(input, member), out + [member])
    ensures LeavesExact(roots, input, out) ==> LeavesExact(roots, MatchEvent(input, member), out + [member])
  {
    hide Match;
    MatchSnoc(roots, out, member);
    TopLevel(entries);
  }

  // An attribute or namespace goes to the innermost element, which is open in the output.
  lemma MemberNests(entries: seq<Entry>, frames: seq<Frame>, out: seq<Event>, member: Event)
    requires Nested(entries, frames, out) && (member.Attribute? || member.Namespace?)
    requires frames != [] && frames[|frames| - 1].ElementFrame? && entries[|frames|].matched
    ensures Nested(entries, frames, out + [member])
  {
    NestSnoc(out, member);
    var below, last := OpenFrames(entries[..|frames|], frames[..|frames| - 1]), frames[|frames| - 1];
    assert (below + [last])[|below|] == last;
  }

  lemma LeafNests(entries: seq<Entry>, frames: seq<Frame>, out: seq<Event>, leaf: Event)
    requires Nested(entries, frames, out) && IsLeaf(leaf)
    ensures Nested(entries, frames, out + [leaf])
  {
    NestSnoc(out, leaf);
  }

  // Nothing but matched flags, at or below p, differs.
  ghost predicate OnlyMatched(before: seq<Entry>, after: seq<Entry>, p: nat) {
    && |after| == |before|
    && (forall k :: p < k < |after| ==> after[k] == before[k])
    && (forall k :: 0 <= k < |after| ==> after[k] == before[k].(matched := after[k].matched))
  }

  predicate ExpectsAttribute(q: PathNode, tag: Tag) {
    TestsAttributes(q) && NameMatches(q, tag)
  }

  lemma AttributeWanted(children: seq<PathNode>, tag: Tag)
    ensures AttributeHits(ToSet(children), tag) != {} <==> exists q :: q in children && ExpectsAttribute(q, tag)
  {
    if q :| q in children && ExpectsAttribute(q, tag) {
      assert q in AttributeHits(ToSet(children), tag);
    }
  }

  /** The filter, with the events it passes on in out. */
  class QueryPathTreeFilter {
    var stack: seq<Entry>
    var out: seq<Event>
    ghost const roots: seq<PathNode>
    ghost var seen: seq<Event>

    /** The input so far is well nested, what the output has open is the matched entries of
        the stack, in stack order, and the stack and the output are those of the projection. */
    ghost predicate Valid()
      reads this
    {
      && Nest(seen) != None && Nested(stack, Nest(seen).value, out)
      && Follows(stack, Match(roots, seen).levels, Projected(roots, seen), out)
    }

    ghost predicate IsExact()
      reads this
    {
      Exact(stack, roots, Match(roots, seen), out)
    }

    // The same elements and documents, by the same path nodes.
    ghost predicate SamePicks()
      reads this
    {
      Match(roots, out).picks == Match(roots, seen).picks
    }

    lemma State()
      requires Valid()
      ensures out == Projected(roots, seen).out && (SamePicks() <==> Agrees(roots, seen))
      ensures Nest(out) != None && (Nest(seen) == Some([]) ==> Nest(out) == Some([]))
      ensures IsExact() ==> SamePicks()
      ensures HasExactLeaves() <==> LeavesAgree(roots, seen)
    {
      hide Match, Nest, Projected;
    }

    lemma ExactState()
      requires IsExact()
      ensures Match(roots, out).attributes == Match(roots, seen).attributes && SamePicks()
    {
      hide Match;
    }

    lemma LeafState()
      ensures HasExactLeaves() <==> Match(roots, out).leaves == Match(roots, seen).leaves
    {
    }

    lemma CalmIs(events: seq<Event>, i: nat)
      requires Valid() && i < |events| && seen == events[..i]
      ensures Fits(Match(roots, seen).levels, Nest(seen).value, Projected(roots, seen))
      ensures CalmAt(roots, events, i) <==> !IsDisturbed(events[i])
    {
      hide Match, Nest, Projected, Disturbs;
      FollowsFits(stack, Nest(seen).value, Match(roots, seen).levels, Projected(roots, seen), out);
    }

    lemma LedIs(events: seq<Event>, i: nat)
      requires Valid() && i < |events| && seen == events[..i]
      ensures Fits(Match(roots, seen).levels, Nest(seen).value, Projected(roots, seen))
      ensures LedAt(roots, events, i) <==> !IsMisled(events[i])
    {
      hide Match, Nest, Projected, Misleads;
      FollowsFits(stack, Nest(seen).value, Match(roots, seen).levels, Projected(roots, seen), out);
    }

    lemma PlainIsLed(events: seq<Event>, i: nat)
      requires Valid() && IsExact() && i < |events| && seen == events[..i] && AllPlain(ToSet(roots))
      ensures LedAt(roots, events, i)
    {
      hide Match, Nest, Projected, Disambiguated, OpenFrames, LeafHits, Hits, AllPlain, Below;
      var frames, input, st, p := Nest(seen).value, Match(roots, seen), Projected(roots, seen), |stack| - 1;
      LedIs(events, i);
      PlainLevels(roots, seen);
      if stack[p].matched {
        CheckedAlready(stack, frames, input.levels, st, out);
        PseudoIsLastMatched(stack, p);
      } else {
        WantedParentIsMatched(input.levels[p - 1], stack[p].tag);
      }
    }

    lemma LeafMisled(leaf: Event)
      requires Valid() && IsLeaf(leaf) && LeafHits(Top()) != {}
      requires var p := |stack| - 1;
               var s := LastMatched(stack, p);
               && !Clash(stack[s].children, stack[p].children)
               && LeafHits(ToSet(stack[s].children)) != LeafHits(ToSet(stack[p].children))
      ensures Fits(Match(roots, seen).levels, Nest(seen).value, Projected(roots, seen)) && IsMisled(leaf)
    {
      hide Match, Nest, Projected, OpenFrames, LeafHits, Clash;
      var frames, p := Nest(seen).value, |stack| - 1;
      TopIs(stack, frames, Match(roots, seen).levels, Projected(roots, seen), out);
      PseudoIsLastMatched(stack, p);
      ClashIs(stack[LastMatched(stack, p)].children, stack[p].children);
    }

    lemma SteadyIsCalm(events: seq<Event>, i: nat)
      requires Valid() && IsExact() && i < |events| && seen == events[..i] && Nest(seen + [events[i]]) != None
      requires SteadyStream(roots, events)
      ensures CalmAt(roots, events, i)
    {
      hide Match, Nest, Projected, Follows, Nested, Exact, Disturbs, Steady;
      var frames, input, st := Nest(seen).value, Match(roots, seen), Projected(roots, seen);
      NestSnoc(seen, events[i]);
      TopIs(stack, frames, input.levels, st, out);
      SteadyKeeps(stack, frames, roots, input, out, events[i]);
      DisturbedIs(stack, frames, input, st, out, events[i]);
    }

    // The event disturbs the projection.
    ghost predicate IsDisturbed(event: Event)
      requires Nest(seen) != None && Fits(Match(roots, seen).levels, Nest(seen).value, Projected(roots, seen))
      reads this
    {
      Disturbs(Match(roots, seen).levels, Nest(seen).value, Projected(roots, seen), event)
    }

    ghost predicate IsMisled(event: Event)
      requires Nest(seen) != None && Fits(Match(roots, seen).levels, Nest(seen).value, Projected(roots, seen))
      reads this
    {
      Misleads(Match(roots, seen).levels, Nest(seen).value, Projected(roots, seen), event)
    }

    ghost predicate HasExactLeaves()
      reads this
    {
      LeavesExact(roots, Match(roots, seen), out)
    }

    // What the innermost entry expects.
    ghost function Top(): set<PathNode>
      requires stack != []
      reads this
    {
      ToSet(stack[|stack| - 1].children)
    }

    constructor (qpns: seq<PathNode>)
      ensures Valid() && IsExact() && seen == out == [] && roots == qpns
      ensures |stack| == 1 && stack[0].matched && ToSet(stack[0].children) == ToSet(qpns)
      ensures HasExactLeaves()
    {
      var e := NEW_ENTRY.(matched := true);
      for i := 0 to |qpns|
        invariant Flagged(e) && e.matched && ToSet(e.children) == ToSet(qpns[..i])
      {
        AddNodeSets(e, qpns[i]);
        e := AddNode(e, qpns[i]);
        assert qpns[..i + 1] == qpns[..i] + [qpns[i]];
      }
      assert qpns[..|qpns|] == qpns;
      stack, out, roots, seen := [e], [], qpns, [];
    }

    /** Passes on, late, skipped ancestors of what is below entry p, until the pseudo-parent
        does not clash with the real parent p. */
    method CheckAncestors(p: nat, ghost frames: seq<Frame>, ghost input: Matcher, ghost exact: bool,
        ghost st: Projection)
      requires p < |stack| && Nested(stack[..p + 1], frames, out) && Follows(stack[..p + 1], input.levels, st, out)
      requires exact ==> Exact(stack[..p + 1], roots, input, out)
      modifies this`stack, this`out
      ensures OnlyMatched(old(stack), stack, p)
      ensures Nested(stack[..p + 1], frames, out) && Clear(stack[..p + 1])
      ensures Follows(stack[..p + 1], input.levels, Disambiguated(input.levels, frames, p, st), out)
      ensures exact ==> Exact(stack[..p + 1], roots, input, out)
      ensures Match(roots, out).leaves == Match(roots, old(out)).leaves
    {
      hide Match, Nest, Exact, Clash, OpenFrames, OpenLevels, Follows, Disambiguated, Clear, LastMatched;
      var s := PseudoParent(stack, p);
      ghost var now := st;
      FollowsFits(stack[..p + 1], frames, input.levels, st, out);
      while s != p
        invariant s <= p && OnlyMatched(old(stack), stack, p)
        invariant stack[s].matched && forall k :: s < k <= p ==> !stack[k].matched
        invariant Nested(stack[..p + 1], frames, out)
        invariant exact ==> Exact(stack[..p + 1], roots, input, out)
        invariant Match(roots, out).leaves == Match(roots, old(out)).leaves
        invariant Follows(stack[..p + 1], input.levels, now, out) && Fits(input.levels, frames, now)
        invariant Disambiguated(input.levels, frames, p, now) == Disambiguated(input.levels, frames, p, st)
      {
        CheckOnce(stack[..p + 1], frames, input.levels, now, out, s);
        var found := FindClash(stack[s].children, stack[p].children);
        if !found {
          ClearAt(stack[..p + 1], s);
          return;
        }
        Materialize(s, p, frames, input, exact, now);
        now := Projection(now.flags[s + 1 := true], out);
        s := s + 1;
      }
      ClearAt(stack[..p + 1], s);
      CheckedAlready(stack[..p + 1], frames, input.levels, now, out);
    }

    // Passes on entry s + 1, where s is the pseudo-parent.
    method Materialize(s: nat, ghost p: nat, ghost frames: seq<Frame>, ghost input: Matcher, ghost exact: bool,
        ghost st: Projection)
      requires s < p < |stack| && Nested(stack[..p + 1], frames, out)
      requires Follows(stack[..p + 1], input.levels, st, out) && s + 1 < |st.flags|
      requires stack[s].matched && forall k :: s < k <= p ==> !stack[k].matched
      requires exact ==> Exact(stack[..p + 1], roots, input, out)
      modifies this`stack, this`out
      ensures stack == Materialized(old(stack), s + 1) && out == old(out) + [StartElement(old(stack)[s + 1].tag)]
      ensures Follows(stack[..p + 1], input.levels, Projection(st.flags[s + 1 := true], out), out)
      ensures Nested(stack[..p + 1], frames, out)
      ensures exact ==> Exact(stack[..p + 1], roots, input, out)
      ensures Match(roots, out).leaves == Match(roots, old(out)).leaves
    {
      hide Match, Nest;
      hide Follows;
      ghost var entries := stack[..p + 1];
      MaterializeFollows(entries, input.levels, st, out, s + 1, StartElement(entries[s + 1].tag));
      MaterializeNests(entries, frames, out, s);
      if exact {
        MaterializeIsExact(entries, frames, roots, input, out, s);
      }
      MatchSnoc(roots, out, StartElement(stack[s + 1].tag));
      out := out + [StartElement(stack[s + 1].tag)];
      stack := stack[s + 1 := stack[s + 1].(matched := true)];
      assert stack[..p + 1] == Materialized(entries, s + 1);
    }

    // The last entry, from p down, that has been passed on.
    static method PseudoParent(entries: seq<Entry>, p: nat) returns (s: nat)
      requires p < |entries| && entries[0].matched
      ensures s <= p && entries[s].matched
      ensures forall k :: s < k <= p ==> !entries[k].matched
    {
      s := p;
      while !entries[s].matched
        invariant s <= p
        invariant forall k :: s < k <= p ==> !entries[k].matched
        decreases s
      {
        s := s - 1;
      }
    }

    method StartElementEvent(tag: Tag)
      requires Valid()
      modifies this
      ensures Valid() && seen == old(seen) + [StartElement(tag)]
      ensures |stack| == |old(stack)| + 1
      ensures ToSet(stack[|old(stack)|].children) == Below(old(Top()), Hits(old(Top()), tag))
      ensures if Hits(old(Top()), tag) == {} then
                && out == old(out) && stack[..|old(stack)|] == old(stack)
                && !stack[|old(stack)|].matched && stack[|old(stack)|].tag == tag
              else out != [] && out[|out| - 1] == StartElement(tag) && stack[|old(stack)|].matched
      ensures old(IsExact()) ==> IsExact()
      ensures old(IsExact() && HasExactLeaves()) ==> HasExactLeaves()
    {
      hide Match, Nest, Below, OpenFrames, OpenLevels, LastMatched, Follows, Projected, ProjectEvent, Disambiguated;
      ghost var frames, input, exact, st := Nest(seen).value, Match(roots, seen), IsExact(), Projected(roots, seen);
      NestSnoc(seen, StartElement(tag));
      MatchSnoc(roots, seen, StartElement(tag));
      ProjectedSnoc(roots, seen, StartElement(tag));
      TopIs(stack, frames, input.levels, st, out);
      var p := |stack| - 1;
      var e := ElementEntry(stack[p].children, tag);
      stack := stack + [e];
      assert stack[..p + 1] == old(stack);
      if e.matched {
        CheckAncestors(p, frames, input, exact, st);
        assert stack == stack[..p + 1] + [e];
      } else {
        e := e.(tag := tag);
        stack := stack[p + 1 := e];
        assert stack == old(stack) + [e];
      }
      ghost var below, before := stack[..p + 1], out;
      if e.matched {
        out := out + [StartElement(tag)];
      }
      PushNests(below, frames, before, e, StartElement(tag));
      assert before + [] == before;
      if exact {
        PushElementIsExact(below, frames, roots, input, before, e, tag);
        if old(HasExactLeaves()) {
          OutputLevel(below, frames, roots, input, before);
          PushElementLeaves(roots, input, before, e.matched, tag);
        }
      }
      StartFollows(below, frames, input, st, before, e, tag);
      seen := seen + [StartElement(tag)];
    }

    method EndElementEvent(tag: Tag, typed: Option<TypeRef>)
      requires Valid() && Nest(seen + [EndElement(tag, typed)]) != None
      modifies this
      ensures Valid() && seen == old(seen) + [EndElement(tag, typed)]
      ensures stack == old(stack)[..|old(stack)| - 1]
      ensures out == old(out) + if old(stack)[|old(stack)| - 1].matched then [EndElement(tag, typed)] else []
      ensures old(IsExact()) ==> IsExact()
      ensures old(IsExact() && HasExactLeaves()) ==> HasExactLeaves()
    {
      Leave(EndElement(tag, typed));
    }

    method EndDocumentEvent()
      requires Valid() && Nest(seen + [EndDocument]) != None
      modifies this
      ensures Valid() && seen == old(seen) + [EndDocument]
      ensures stack == old(stack)[..|old(stack)| - 1]
      ensures out == old(out) + if old(stack)[|old(stack)| - 1].matched then [EndDocument] else []
      ensures old(IsExact()) ==> IsExact()
      ensures old(IsExact() && HasExactLeaves()) ==> HasExactLeaves()
    {
      Leave(EndDocument);
    }

    // Passes an end event on if its start was, and pops the entry.
    method Leave(end: Event)
      requires Valid() && Nest(seen + [end]) != None && (end.EndElement? || end.EndDocument?)
      modifies this
      ensures Valid() && seen == old(seen) + [end]
      ensures stack == old(stack)[..|old(stack)| - 1]
      ensures out == old(out) + if old(stack)[|old(stack)| - 1].matched then [end] else []
      ensures old(IsExact()) ==> IsExact()
      ensures old(IsExact() && HasExactLeaves()) ==> HasExactLeaves()
    {
      hide Match, Nest, Follows, Projected, ProjectEvent, OpenFrames;
      ghost var frames, input, exact, st := Nest(seen).value, Match(roots, seen), IsExact(), Projected(roots, seen);
      NestSnoc(seen, end);
      MatchSnoc(roots, seen, end);
      ProjectedSnoc(roots, seen, end);
      TopIs(stack, frames, input.levels, st, out);
      PopNests(stack, frames, out, end);
      PopFollows(stack, input.levels, st, out, end);
      EndProjected(frames, input, st, end);
      if exact {
        PopIsExact(stack, roots, input, out, end);
      }
      assert out + [] == out;
      if stack[|stack| - 1].matched {
        out := out + [end];
      }
      stack := stack[..|stack| - 1];
      seen := seen + [end];
    }

    method StartDocumentEvent(documentUri: string, encoding: string)
      requires Valid()
      modifies this
      ensures Valid() && seen == old(seen) + [StartDocument(documentUri, encoding)]
      ensures out == old(out) + [StartDocument(documentUri, encoding)]
      ensures old(IsExact()) ==> if old(DocumentClash(stack)) then !SamePicks() else IsExact()
      ensures old(IsExact() && HasExactLeaves()) ==> HasExactLeaves()
    {
      hide Match, Nest, Follows, Projected, ProjectEvent, OpenFrames, Below, DocumentHits;
      var start := StartDocument(documentUri, encoding);
      ghost var frames, input, exact, st := Nest(seen).value, Match(roots, seen), IsExact(), Projected(roots, seen);
      NestSnoc(seen, start);
      MatchSnoc(roots, seen, start);
      ProjectedSnoc(roots, seen, start);
      TopIs(stack, frames, input.levels, st, out);
      var e := DocumentEntry(stack[|stack| - 1].children);
      PushNests(stack, frames, out, e, start);
      DocumentFollows(stack, frames, input, st, out, e, start);
      if exact {
        PushDocumentExact(stack, frames, roots, input, out, e, start);
        OutputLevel(stack, frames, roots, input, out);
        if HasExactLeaves() {
          PushDocumentLeaves(roots, input, out, start);
        }
      }
      stack, out := stack + [e], out + [start];
      seen := seen + [start];
    }

    /** Text, comments and processing instructions: passed on exactly where wanted. */
    method LeafEvent(leaf: Event)
      requires Valid() && IsLeaf(leaf)
      modifies this
      ensures Valid() && seen == old(seen) + [leaf]
      ensures if old(stack)[|old(stack)| - 1].nonElementChildren then out != [] && out[|out| - 1] == leaf
              else out == old(out)
      ensures old(IsExact()) ==> IsExact()
      ensures old(IsExact() && HasExactLeaves()) ==> if old(IsMisled(leaf)) then !HasExactLeaves() else HasExactLeaves()
    {
      hide Match, Nest, Follows, Projected, ProjectEvent, Disambiguated, OpenFrames, OpenLevels, Misleads, LeafClash;
      ghost var frames, input, exact, st := Nest(seen).value, Match(roots, seen), IsExact(), Projected(roots, seen);
      NestSnoc(seen, leaf);
      MatchSnoc(roots, seen, leaf);
      ProjectedSnoc(roots, seen, leaf);
      TopIs(stack, frames, input.levels, st, out);
      var p := |stack| - 1;
      var wanted := stack[p].nonElementChildren;
      assert stack[..p + 1] == stack;
      if wanted {
        CheckAncestors(p, frames, input, exact, st);
        assert stack[..p + 1] == stack;
        LeafNests(stack, frames, out, leaf);
      }
      MisleadsIs(stack, frames, input, st, out, leaf);
      if exact {
        LeafIsExact(stack, frames, roots, input, out, leaf);
      }
      LeafFollows(stack, frames, input, st, out, leaf);
      assert out + [] == out;
      if wanted {
        out := out + [leaf];
      }
      seen := seen + [leaf];
    }

    method AttributeEvent(tag: Tag, value: string, typed: Option<TypeRef>)
      requires Valid() && Nest(seen + [Attribute(tag, value, typed)]) != None
      modifies this
      ensures Valid() && seen == old(seen) + [Attribute(tag, value, typed)]
      ensures if AttributeHits(old(Top()), tag) == {} then out == old(out) && stack == old(stack)
              else out != [] && out[|out| - 1] == Attribute(tag, value, typed)
      ensures old(IsExact()) ==>
                if AttributeHits(old(Top()), tag) != {} && old(Captures(stack)) then !SamePicks() else IsExact()
      ensures old(IsExact() && HasExactLeaves()) ==> HasExactLeaves()
    {
      hide Match, Nest, Follows, Projected, ProjectEvent, TopPassed, OpenFrames;
      var event := Attribute(tag, value, typed);
      ghost var frames, input, st := Nest(seen).value, Match(roots, seen), Projected(roots, seen);
      NestSnoc(seen, event);
      MatchSnoc(roots, seen, event);
      ProjectedSnoc(roots, seen, event);
      TopIs(stack, frames, input.levels, st, out);
      MemberProjected(frames, input, st, event);
      var wanted := WantsAttribute(tag);
      if wanted {
        PassOnTop();
        PassFollows(stack, input.levels, TopPassed(frames, st), out, event);
        MemberNests(stack, frames, out, event);
        MemberIsExact(stack, roots, input, out, event);
        out := out + [event];
      }
      seen := seen + [event];
    }

    // The search for a path node that expects an attribute.
    method WantsAttribute(tag: Tag) returns (found: bool)
      requires Valid()
      ensures found <==> AttributeHits(Top(), tag) != {}
    {
      hide Match, Nest;
      var entry := stack[|stack| - 1];
      found := false;
      if entry.attrChildren {
        var i := 0;
        while i < |entry.children| && !found
          invariant i <= |entry.children|
          invariant found <==> exists q :: q in entry.children[..i] && ExpectsAttribute(q, tag)
        {
          found := ExpectsAttribute(entry.children[i], tag);
          i := i + 1;
          assert entry.children[..i] == entry.children[..i - 1] + [entry.children[i - 1]];
        }
        assert !found ==> entry.children[..i] == entry.children;
      }
      AttributeWanted(entry.children, tag);
    }

    method NamespaceEvent(prefix: string, uri: string)
      requires Valid() && Nest(seen + [Namespace(prefix, uri)]) != None
      modifies this
      ensures Valid() && seen == old(seen) + [Namespace(prefix, uri)]
      ensures out != [] && out[|out| - 1] == Namespace(prefix, uri)
      ensures old(IsExact()) ==> if old(Captures(stack)) then !SamePicks() else IsExact()
      ensures old(IsExact() && HasExactLeaves()) ==> HasExactLeaves()
    {
      hide Match, Nest, Follows, Projected, ProjectEvent, TopPassed, OpenFrames;
      var event := Namespace(prefix, uri);
      ghost var frames, input, st := Nest(seen).value, Match(roots, seen), Projected(roots, seen);
      NestSnoc(seen, event);
      MatchSnoc(roots, seen, event);
      ProjectedSnoc(roots, seen, event);
      TopIs(stack, frames, input.levels, st, out);
      MemberProjected(frames, input, st, event);
      PassOnTop();
      PassFollows(stack, input.levels, TopPassed(frames, st), out, event);
      MemberNests(stack, frames, out, event);
      MemberIsExact(stack, roots, input, out, event);
      out := out + [event];
      seen := seen + [event];
    }

    // Passes on the innermost element if it has not been.
    method PassOnTop()
      requires Valid()
      modifies this`stack, this`out
      ensures stack != [] && stack[|stack| - 1].matched && Nested(stack, Nest(seen).value, out)
      ensures |Projected(roots, seen).flags| == |Nest(seen).value| + 1
      ensures Follows(stack, Match(roots, seen).levels, TopPassed(Nest(seen).value, Projected(roots, seen)), out)
      ensures old(IsExact()) ==> if old(Captures(stack)) then !SamePicks() else IsExact()
      ensures old(IsExact() && HasExactLeaves()) ==> HasExactLeaves()
    {
      hide Match, Nest, Follows, Projected, TopPassed, OpenFrames, OpenLevels;
      var entry := stack[|stack| - 1];
      ghost var frames := Nest(seen).value;
      TopFollows(stack, frames, Match(roots, seen).levels, Projected(roots, seen), out);
      if !entry.matched {
        MatchTopNests(stack, frames, out);
        if IsExact() {
          LateTopExact(stack, frames, roots, Match(roots, seen), out);
        }
        stack := stack[|stack| - 1 := entry.(matched := true)];
        out := out + [StartElement(entry.tag)];
      }
    }

    /** One event of the stream. */
    method OnEvent(event: Event)
      requires Valid() && Nest(seen + [event]) != None
      modifies this
      ensures Valid() && seen == old(seen) + [event]
      ensures old(IsExact()) ==> if old(IsDisturbed(event)) then !SamePicks() else IsExact()
      ensures old(IsExact() && HasExactLeaves()) ==>
                if old(IsMisled(event)) then !HasExactLeaves() else HasExactLeaves()
    {
      hide Match, Nest, Projected, Follows, OpenFrames, Disturbs, LeavesExact, Disambiguated;
      NestSnoc(seen, event);
      DisturbedIs(stack, Nest(seen).value, Match(roots, seen), Projected(roots, seen), out, event);
      match event {
        case StartDocument(u, e) => StartDocumentEvent(u, e);
        case EndDocument => EndDocumentEvent();
        case StartElement(tag) => StartElementEvent(tag);
        case EndElement(tag, typed) => EndElementEvent(tag, typed);
        case Attribute(tag, v, typed) => AttributeEvent(tag, v, typed);
        case Namespace(prefix, u) => NamespaceEvent(prefix, u);
        case leaf => LeafEvent(leaf);
      }
    }
  }

  // An outer level selects an element by its name, though its own level does not.
  ghost predicate Confusable(levels: seq<set<PathNode>>, tag: Tag) {
    && (|levels| >= 2 ==> Hits(levels[|levels| - 2], tag) == {})
    && exists k :: 0 <= k < |levels| - 2 && Hits(levels[k], tag) != {}
  }

  // Events at which nothing can be captured: an attribute is not expected or it belongs, as a
  // namespace does, to an element that cannot be confused; a document is selected alike at
  // every open level.
  ghost predicate Steady(levels: seq<set<PathNode>>, frames: seq<Frame>, event: Event) {
    var n := |levels| - 1;
    && levels != []
    && (event.StartDocument? ==> forall k :: 0 <= k <= n ==> DocumentHits(levels[k]) == DocumentHits(levels[n]))
    && (event.Attribute? && AttributeHits(levels[n], event.tag) != {} ==> Apart(levels, frames))
    && (event.Namespace? ==> Apart(levels, frames))
  }

  ghost predicate Apart(levels: seq<set<PathNode>>, frames: seq<Frame>) {
    frames != [] && frames[|frames| - 1].ElementFrame? ==> !Confusable(levels, frames[|frames| - 1].tag)
  }

  ghost predicate SteadyStream(roots: seq<PathNode>, events: seq<Event>) {
    forall k :: 0 <= k < |events| && Nest(events[..k]) != None ==>
      Steady(Match(roots, events[..k]).levels, Nest(events[..k]).value, events[k])
  }

  lemma SteadyKeeps(entries: seq<Entry>, frames: seq<Frame>, roots: seq<PathNode>, input: Matcher, out: seq<Event>,
      event: Event)
    requires Nested(entries, frames, out) && Exact(entries, roots, input, out)
    requires Steady(input.levels, frames, event)
    ensures event.StartDocument? ==> !DocumentClash(entries)
    ensures event.Attribute? && AttributeHits(ToSet(entries[|frames|].children), event.tag) != {} ==> !Captures(entries)
    ensures event.Namespace? ==> !Captures(entries)
  {
  }

  lemma {:induction false} NestPrefix(events: seq<Event>, k: nat)
    requires Nest(events) != None && k <= |events|
    ensures Nest(events[..k]) != None
  {
    if k < |events| {
      NestPrefix(events[..|events| - 1], k);
      assert events[..|events| - 1][..k] == events[..k];
    } else {
      assert events[..k] == events;
    }
  }

  // What the filter's own state says of an event is what the projection says.
  lemma DisturbedIs(entries: seq<Entry>, frames: seq<Frame>, input: Matcher, st: Projection, out: seq<Event>,
      event: Event)
    requires Nested(entries, frames, out) && Follows(entries, input.levels, st, out)
    requires NestEvent(frames, event) != None
    ensures Fits(input.levels, frames, st)
    ensures Disturbs(input.levels, frames, st, event) <==>
              || (event.StartDocument? && DocumentClash(entries))
              || (event.Attribute? && AttributeHits(input.levels[|frames|], event.tag) != {} && Captures(entries))
              || (event.Namespace? && Captures(entries))
  {
    hide Nest, OpenFrames, ToSet, Hits, DocumentHits, AttributeHits;
    PseudoIsLastMatched(entries, |frames|);
    if !entries[|frames|].matched {
      assert frames[|frames| - 1] == ElementFrame(entries[|frames|].tag);
    }
  }

  /** Projecting a whole stream.  The output is the projection; the output of a well-nested
      stream is well nested, and has everything closed if the input has.  The path trees select
      the same elements and documents, by the same path nodes and in the same order, from the
      output as from the input, after every event, if and only if no event disturbs the
      projection, and then they select the same attributes; and they select the same leaves too
      if and only if no leaf is passed on where it misleads. */
  method Project(qpns: seq<PathNode>, events: seq<Event>) returns (out: seq<Event>)
    requires Nest(events) != None
    ensures out == Projected(qpns, events).out
    ensures Nest(out) != None
    ensures Nest(events) == Some([]) ==> Nest(out) == Some([])
    ensures AlwaysAgrees(qpns, events) <==> Calm(qpns, events)
    ensures AlwaysAgrees(qpns, events) && LeavesAlwaysAgree(qpns, events) <==> Calm(qpns, events) && Led(qpns, events)
    ensures Calm(qpns, events) ==>
              && Match(qpns, out).picks == Match(qpns, events).picks
              && Match(qpns, out).attributes == Match(qpns, events).attributes
    ensures Calm(qpns, events) && Led(qpns, events) ==> Match(qpns, out).leaves == Match(qpns, events).leaves
    ensures SteadyStream(qpns, events) ==> Calm(qpns, events)
    ensures Calm(qpns, events) && AllPlain(ToSet(qpns)) ==> Led(qpns, events)
  {
    hide Match, Nest, Projected, Follows, Nested, Exact, LeavesExact, AllPlain, Steady, Agrees, LeavesAgree;
    hide Disturbs, Misleads, CalmAt, LedAt;
    var filter := new QueryPathTreeFilter(qpns);
    assert events[..0] == [];
    filter.State();
    for i := 0 to |events|
      invariant fresh(filter) && filter.Valid() && filter.roots == qpns && filter.seen == events[..i]
      invariant AgreesUpTo(qpns, events, i) <==> CalmUpTo(qpns, events, i)
      invariant AgreesUpTo(qpns, events, i) && LeavesAgreeUpTo(qpns, events, i) <==>
                CalmUpTo(qpns, events, i) && LedUpTo(qpns, events, i)
      invariant CalmUpTo(qpns, events, i) ==> filter.IsExact()
      invariant CalmUpTo(qpns, events, i) && LedUpTo(qpns, events, i) ==> filter.HasExactLeaves()
      invariant SteadyStream(qpns, events) ==> CalmUpTo(qpns, events, i)
      invariant CalmUpTo(qpns, events, i) && AllPlain(ToSet(qpns)) ==> LedUpTo(qpns, events, i)
    {
      NestPrefix(events, i + 1);
      assert events[..i + 1] == events[..i] + [events[i]];
      if filter.IsExact() && SteadyStream(qpns, events) {
        filter.SteadyIsCalm(events, i);
      }
      if filter.IsExact() && AllPlain(ToSet(qpns)) {
        filter.PlainIsLed(events, i);
      }
      filter.CalmIs(events, i);
      filter.LedIs(events, i);
      filter.OnEvent(events[i]);
      filter.State();
    }
    assert events[..|events|] == events;
    UpToAll(qpns, events);
    filter.State();
    if Calm(qpns, events) {
      filter.ExactState();
      filter.LeafState();
    }
    out := filter.out;
  }

  lemma UpToAll(roots: seq<PathNode>, events: seq<Event>)
    ensures Calm(roots, events) <==> CalmUpTo(roots, events, |events|)
    ensures Led(roots, events) <==> LedUpTo(roots, events, |events|)
    ensures AlwaysAgrees(roots, events) <==> AgreesUpTo(roots, events, |events|)
    ensures LeavesAlwaysAgree(roots, events) <==> LeavesAgreeUpTo(roots, events, |events|)
  {
    hide CalmAt, LedAt, Agrees, LeavesAgree;
  }

  ghost predicate LedUpTo(roots: seq<PathNode>, events: seq<Event>, i: nat)
    requires i <= |events|
  {
    forall k :: 0 <= k < i ==> LedAt(roots, events, k)
  }

  ghost predicate LeavesAgreeUpTo(roots: seq<PathNode>, events: seq<Event>, i: nat)
    requires i <= |events|
  {
    forall k :: 0 <= k <= i ==> LeavesAgree(roots, events[..k])
  }

  ghost predicate CalmUpTo(roots: seq<PathNode>, events: seq<Event>, i: nat)
    requires i <= |events|
  {
    forall k :: 0 <= k < i ==> CalmAt(roots, events, k)
  }

  ghost predicate AgreesUpTo(roots: seq<PathNode>, events: seq<Event>, i: nat)
    requires i <= |events|
  {
    forall k :: 0 <= k <= i ==> Agrees(roots, events[..k])
  }

  // ----- where projection does not keep the matches

  // The path trees of a child a, and of attributes id at any depth.
  const CHILD_A := PathNode(0, ChildStep, Some("a"), None, false, [])
  const ANY_ID := PathNode(1, DescendantAttrStep, Some("id"), None, false, [])

  function Named(name: string): Tag {
    Tag("", "", name)
  }

  lemma TwoOpen(outer: Tag, inner: Tag)
    ensures Nest([StartElement(outer), StartElement(inner)]) == Some([ElementFrame(outer), ElementFrame(inner)])
  {
    var events := [StartElement(outer), StartElement(inner)];
    assert events[..1] == [StartElement(outer)] && events[..1][..0] == [];
    var none: seq<Frame> := [];
    assert none + [ElementFrame(outer)] == [ElementFrame(outer)];
    assert Nest(events[..1]) == NestEvent(none, StartElement(outer)) == Some([ElementFrame(outer)]);
    assert [ElementFrame(outer)] + [ElementFrame(inner)] == [ElementFrame(outer), ElementFrame(inner)];
  }

  lemma SkippedAreCaptured(entries: seq<Entry>)
    requires |entries| == 3 && entries[0].matched && !entries[1].matched && !entries[2].matched
    requires Hits(ToSet(entries[0].children), entries[2].tag) != {}
    ensures Captures(entries)
  {
    assert LastMatched(entries, 2) == LastMatched(entries, 1) == 0;
  }

  lemma CaptureSets()
    ensures ToSet([CHILD_A, ANY_ID]) == {CHILD_A, ANY_ID}
    ensures Hits({CHILD_A, ANY_ID}, Named("x")) == {} && Hits({CHILD_A, ANY_ID}, Named("a")) != {}
    ensures Hits({ANY_ID}, Named("a")) == {} && AttributeHits({ANY_ID}, Named("id")) != {}
    ensures Below({CHILD_A, ANY_ID}, {}) == {ANY_ID} && Below({ANY_ID}, {}) == {ANY_ID}
  {
    assert CHILD_A in Hits({CHILD_A, ANY_ID}, Named("a"));
    assert ANY_ID in AttributeHits({ANY_ID}, Named("id"));
  }

  /** The element a is not a child of the root, and x is not passed on.  But a is, for its
      attribute, and so becomes a child in the output. */
  method AttributeCaptures() returns (filter: QueryPathTreeFilter)
    ensures fresh(filter) && filter.Valid() && filter.roots == [CHILD_A, ANY_ID]
    ensures filter.seen == [StartElement(Named("x")), StartElement(Named("a")), Attribute(Named("id"), "1", None)]
    ensures !Agrees(filter.roots, filter.seen)
  {
    hide Match, Nest, Nested, Exact, LeavesExact, LastMatched, Follows, Projected, Agrees;
    hide Hits, AttributeHits, Below, ToSet;
    var x, a, id := Named("x"), Named("a"), Named("id");
    CaptureSets();
    filter := new QueryPathTreeFilter([CHILD_A, ANY_ID]);
    filter.StartElementEvent(x);
    filter.StartElementEvent(a);
    SkippedAreCaptured(filter.stack);
    assert filter.seen == [StartElement(x), StartElement(a)];
    assert Nest(filter.seen) == Some([ElementFrame(x), ElementFrame(a)]) by { TwoOpen(x, a); }
    NestSnoc(filter.seen, Attribute(id, "1", None));
    filter.AttributeEvent(id, "1", None);
    filter.State();
  }

  // The path trees of a child processing instruction foo, and of those named bar at any depth.
  const CHILD_FOO := PathNode(0, ChildStep, Some("foo"), None, true, [])
  const ANY_BAR := PathNode(1, DescendantStep, Some("bar"), None, true, [])

  /** The element x is not passed on.  A processing instruction below it is wanted, though it is
      called foo, and becomes a child of the root, of which the first path takes it. */
  method LeafMisleads() returns (filter: QueryPathTreeFilter)
    ensures fresh(filter) && filter.Valid() && filter.roots == [CHILD_FOO, ANY_BAR]
    ensures filter.seen == [StartElement(Named("x")), ProcessingInstruction("foo", "")]
    ensures !LeavesAgree(filter.roots, filter.seen)
  {
    hide Match, Nest, Nested, Exact, LeavesExact, LastMatched, Follows, Projected, Agrees, LeavesAgree;
    hide Hits, LeafHits, Below, ToSet;
    var x, foo := Named("x"), ProcessingInstruction("foo", "");
    MisleadSets();
    filter := new QueryPathTreeFilter([CHILD_FOO, ANY_BAR]);
    filter.StartElementEvent(x);
    assert LastMatched(filter.stack, 1) == 0 by { OneSkipped(filter.stack); }
    ClashIs(filter.stack[0].children, filter.stack[1].children);
    filter.LeafMisled(foo);
    filter.LeafEvent(foo);
    filter.State();
  }

  lemma OneSkipped(entries: seq<Entry>)
    requires |entries| == 2 && entries[0].matched && !entries[1].matched
    ensures LastMatched(entries, 1) == 0
  {
  }

  lemma MisleadSets()
    ensures ToSet([CHILD_FOO, ANY_BAR]) == {CHILD_FOO, ANY_BAR} && Hits({CHILD_FOO, ANY_BAR}, Named("x")) == {}
    ensures Below({CHILD_FOO, ANY_BAR}, {}) == {ANY_BAR}
    ensures LeafHits({ANY_BAR}) == {ANY_BAR} && LeafHits({CHILD_FOO, ANY_BAR}) == {CHILD_FOO, ANY_BAR}
    ensures !Clashes({CHILD_FOO, ANY_BAR}, {ANY_BAR})
  {
  }
}
