/** Selection by places. */
module PathPlaces {
  // Which nodes a path of steps selects, said of places in the stream and of expanded names, and
  // what of them is passed on.

  import opened Options
  import opened Events
  import opened PathTree
  import opened PathProjection

  // The step accepts the open node: an element by its expanded name, of which it may leave out
  // either part; a document if it is not limited to elements.
  predicate StepAccepts(q: PathNode, frame: Frame) {
    match frame
    case ElementFrame(tag) =>
      && (q.kind == ChildStep || q.kind == DescendantStep)
      && (q.name == None || q.name.value == tag.name)
      && (q.uri == None || q.uri.value == tag.uri)
    case DocumentFrame =>
      q.kind == RootStep || ((q.kind == ChildStep || q.kind == DescendantStep) && q.anyKind)
  }

  // Step k stands on a node it accepts: a descendant step anywhere below the one before it, any
  // other right below.
  predicate StandsAt(steps: seq<PathNode>, path: seq<Frame>, at: seq<nat>, k: int)
    requires 0 <= k < |at| == |steps|
  {
    && at[k] < |path| && StepAccepts(steps[k], path[at[k]])
    && var above: int := if k == 0 then -1 else at[k - 1];
    if steps[k].kind == DescendantStep then at[k] > above else at[k] == above + 1
  }

  predicate Rising(steps: seq<PathNode>, path: seq<Frame>, at: seq<nat>) {
    && |at| == |steps| && (forall k :: 0 <= k < |at| ==> at[k] < |path|)
    && forall k :: 0 <= k < |at| ==> StandsAt(steps, path, at, k)
  }

  predicate Linked(roots: seq<PathNode>, steps: seq<PathNode>) {
    && steps != [] && steps[0] in roots
    && forall k :: 0 < k < |steps| ==> steps[k] in steps[k - 1].children
  }

  /** The steps lead from a root of the forest to the node at the end of path. */
  predicate Placed(roots: seq<PathNode>, steps: seq<PathNode>, path: seq<Frame>, at: seq<nat>) {
    Linked(roots, steps) && Rising(steps, path, at) && path != [] && at[|at| - 1] == |path| - 1
  }

  lemma TestIs(q: PathNode, frame: Frame)
    ensures TestsFrame(q, frame) <==> StepAccepts(q, frame)
  {
  }

  lemma {:induction false} RisingPlaces(steps: seq<PathNode>, path: seq<Frame>, at: seq<nat>)
    requires Rising(steps, path, at)
    ensures forall i, j :: 0 <= i < j < |at| ==> at[i] < at[j]
    decreases |at|
  {
    if |at| > 1 {
      var n := |at| - 1;
      var front := at[..n];
      RisingFront(steps, path, at, |path|);
      RisingPlaces(steps[..n], path, front);
      assert StandsAt(steps, path, at, n) && at[n - 1] == front[n - 1];
      forall i, j | 0 <= i < j < |at| ensures at[i] < at[j] {
        assert at[i] == front[i] && (i == n - 1 || front[i] < front[n - 1]);
        assert j == n || at[j] == front[j];
      }
    }
  }

  lemma RisingFront(steps: seq<PathNode>, path: seq<Frame>, at: seq<nat>, m: nat)
    requires Rising(steps, path, at) && at != [] && m <= |path|
    requires forall k :: 0 <= k < |at| - 1 ==> at[k] < m
    ensures path[..|path|] == path && Rising(steps[..|steps| - 1], path[..m], at[..|at| - 1])
  {
    var n := |at| - 1;
    forall k | 0 <= k < n ensures StandsAt(steps[..n], path[..m], at[..n], k) {
      assert StandsAt(steps, path, at, k);
    }
  }

  // One step fewer, up to where that one stands.
  lemma PlacedFront(roots: seq<PathNode>, steps: seq<PathNode>, path: seq<Frame>, at: seq<nat>)
    requires Placed(roots, steps, path, at) && |steps| > 1
    ensures var n := |steps| - 1;
            && at[n - 1] < |path| - 1
            && Placed(roots, steps[..n], path[..at[n - 1] + 1], at[..n])
            && (steps[n].kind != DescendantStep ==> at[n - 1] == |path| - 2)
            && StepAccepts(steps[n], path[|path| - 1])
  {
    var n := |steps| - 1;
    assert StandsAt(steps, path, at, n);
    RisingPlaces(steps, path, at);
    RisingFront(steps, path, at, at[n - 1] + 1);
  }

  lemma {:induction false} PlacedSelects(roots: seq<PathNode>, steps: seq<PathNode>, path: seq<Frame>, at: seq<nat>)
    requires Placed(roots, steps, path, at)
    ensures Selects(roots, steps, path)
    decreases |steps|
  {
    var n := |steps| - 1;
    assert StandsAt(steps, path, at, n);
    TestIs(steps[n], path[|path| - 1]);
    if n > 0 {
      PlacedFront(roots, steps, path, at);
      PlacedSelects(roots, steps[..n], path[..at[n - 1] + 1], at[..n]);
    }
  }

  lemma {:induction false} SelectsPlaced(roots: seq<PathNode>, steps: seq<PathNode>, path: seq<Frame>)
    returns (at: seq<nat>)
    requires Selects(roots, steps, path)
    ensures Placed(roots, steps, path, at)
    decreases |steps|
  {
    var n := |steps| - 1;
    TestIs(steps[n], path[|path| - 1]);
    if n == 0 {
      at := [|path| - 1];
    } else {
      var m: nat;
      if steps[n].kind == DescendantStep {
        m :| 0 <= m < |path| && Selects(roots, steps[..n], path[..m]);
      } else {
        m := |path| - 1;
      }
      var front := SelectsPlaced(roots, steps[..n], path[..m]);
      at := front + [|path| - 1];
      PlacedBack(roots, steps, path, m, front);
    }
  }

  lemma PlacedBack(roots: seq<PathNode>, steps: seq<PathNode>, path: seq<Frame>, m: nat, front: seq<nat>)
    requires m < |path| && |steps| > 1 && Placed(roots, steps[..|steps| - 1], path[..m], front)
    requires var q := steps[|steps| - 1];
             && StepAccepts(q, path[|path| - 1]) && q in steps[|steps| - 2].children
             && (q.kind == DescendantStep || m == |path| - 1)
    ensures Placed(roots, steps, path, front + [|path| - 1])
  {
    var n, at := |steps| - 1, front + [|path| - 1];
    assert forall k :: 0 <= k < n ==> at[k] == front[k] && steps[..n][k] == steps[k];
    assert StandsAt(steps[..n], path[..m], front, n - 1);
    forall k | 0 <= k < |at| ensures StandsAt(steps, path, at, k) {
      if k < n {
        assert StandsAt(steps[..n], path[..m], front, k);
      }
    }
    forall k | 0 < k < |steps| ensures steps[k] in steps[k - 1].children {
      assert k == n || steps[..n][k] in steps[..n][k - 1].children;
    }
  }

  /** What the steps of a path tree select, they select by places and expanded names. */
  lemma SelectsByPlace(roots: seq<PathNode>, steps: seq<PathNode>, path: seq<Frame>)
    ensures Selects(roots, steps, path) <==> exists at :: Placed(roots, steps, path, at)
  {
    if Selects(roots, steps, path) {
      var at := SelectsPlaced(roots, steps, path);
    }
    if at :| Placed(roots, steps, path, at) {
      PlacedSelects(roots, steps, path, at);
    }
  }

  /** Child steps with given names select a path of elements exactly if there are as many, and
      every element has the name and the namespace of its step. */
  lemma {:induction false} ChildStepsSelect(roots: seq<PathNode>, steps: seq<PathNode>, path: seq<Frame>)
    requires Linked(roots, steps) && forall k :: 0 <= k < |steps| ==> steps[k].kind == ChildStep
    requires forall k :: 0 <= k < |steps| ==> steps[k].name != None && steps[k].uri != None
    requires forall k :: 0 <= k < |path| ==> path[k].ElementFrame?
    ensures Selects(roots, steps, path) <==>
              && |steps| == |path|
              && forall k :: 0 <= k < |steps| ==>
                   steps[k].name.value == path[k].tag.name && steps[k].uri.value == path[k].tag.uri
  {
    hide Selects, Rising, StepAccepts;
    SelectsByPlace(roots, steps, path);
    if at :| Placed(roots, steps, path, at) {
      ChildPlaces(steps, path, at);
      assert at[|at| - 1] == |at| - 1;
      forall k | 0 <= k < |steps| ensures StepAccepts(steps[k], path[k]) {
        assert at[k] == k;
      }
    }
    if |steps| == |path| && forall k :: 0 <= k < |steps| ==> StepAccepts(steps[k], path[k]) {
      PlacedInTurn(roots, steps, path);
    }
    Accepting(steps, path);
  }

  lemma Accepting(steps: seq<PathNode>, path: seq<Frame>)
    requires forall k :: 0 <= k < |steps| ==> steps[k].kind == ChildStep
    requires forall k :: 0 <= k < |steps| ==> steps[k].name != None && steps[k].uri != None
    requires forall k :: 0 <= k < |path| ==> path[k].ElementFrame?
    ensures |steps| == |path| ==> forall k :: 0 <= k < |steps| ==>
              (StepAccepts(steps[k], path[k]) <==>
                 steps[k].name.value == path[k].tag.name && steps[k].uri.value == path[k].tag.uri)
  {
  }

  lemma PlacedInTurn(roots: seq<PathNode>, steps: seq<PathNode>, path: seq<Frame>)
    requires Linked(roots, steps) && |steps| == |path|
    requires forall k :: 0 <= k < |steps| ==> steps[k].kind == ChildStep && StepAccepts(steps[k], path[k])
    ensures exists at :: Placed(roots, steps, path, at)
  {
    var at: seq<nat> := seq(|steps|, k => k);
    assert Rising(steps, path, at);
    assert Placed(roots, steps, path, at);
  }

  lemma {:induction false} ChildPlaces(steps: seq<PathNode>, path: seq<Frame>, at: seq<nat>)
    requires Rising(steps, path, at) && forall k :: 0 <= k < |steps| ==> steps[k].kind == ChildStep
    ensures |at| == |steps| && forall k :: 0 <= k < |at| ==> at[k] == k && k < |path| && StepAccepts(steps[k], path[k])
    decreases |at|
  {
    if at != [] {
      var n := |at| - 1;
      assert forall k :: 0 <= k < n ==> at[..n][k] == at[k] && steps[..n][k] == steps[k];
      assert forall k :: 0 <= k < n ==> StandsAt(steps, path, at, k);
      RisingFront(steps, path, at, |path|);
      ChildPlaces(steps[..n], path, at[..n]);
      assert StandsAt(steps, path, at, n) && steps[n].kind == ChildStep;
      assert n > 0 ==> at[n - 1] == n - 1;
    }
  }

  // ----- what is passed on

  // Some path of the forest ends at the node.
  ghost predicate SomePlaced(roots: seq<PathNode>, path: seq<Frame>) {
    exists steps, at :: Placed(roots, steps, path, at)
  }

  ghost predicate EndsPlaced(roots: seq<PathNode>, path: seq<Frame>, q: PathNode) {
    exists steps, at :: Placed(roots, steps, path, at) && steps[|steps| - 1] == q
  }

  lemma SelectedIsPlaced(roots: seq<PathNode>, path: seq<Frame>, q: PathNode)
    ensures Selected(roots, q, path) <==> EndsPlaced(roots, path, q)
  {
    if Selected(roots, q, path) {
      var steps :| Selects(roots, steps, path) && steps[|steps| - 1] == q;
      SelectsByPlace(roots, steps, path);
    }
    if EndsPlaced(roots, path, q) {
      var steps, at :| Placed(roots, steps, path, at) && steps[|steps| - 1] == q;
      SelectsByPlace(roots, steps, path);
    }
  }

  /** A start event is picked by exactly the path nodes at the end of a path that is placed at
      the element; and the element is passed on exactly if there is one. */
  lemma PlacedIsPassed(roots: seq<PathNode>, events: seq<Event>, tag: Tag)
    requires Nest(events) != None
    ensures Nest(events + [StartElement(tag)]) != None
    ensures var path, start := Nest(events).value + [ElementFrame(tag)], StartElement(tag);
            var before, after := Projected(roots, events), Projected(roots, events + [start]);
            if SomePlaced(roots, path) then after.out != [] && after.out[|after.out| - 1] == start
            else after.out == before.out
    ensures var path, start := Nest(events).value + [ElementFrame(tag)], StartElement(tag);
            var before, after := Match(roots, events), Match(roots, events + [start]);
            if SomePlaced(roots, path) then
              && after.picks != [] && after.picks[..|after.picks| - 1] == before.picks
              && after.picks[|after.picks| - 1].event == start
              && forall q :: q in after.picks[|after.picks| - 1].nodes <==> EndsPlaced(roots, path, q)
            else after.picks == before.picks
  {
    hide Match, Nest, Projected, Placed, Hits, Disambiguated, EndsPlaced;
    var start, frames := StartElement(tag), Nest(events).value;
    var path := frames + [ElementFrame(tag)];
    NestSnoc(events, start);
    MatchSnoc(roots, events, start);
    ProjectedSnoc(roots, events, start);
    MatchFollowsPaths(roots, events);
    var hits := Hits(Match(roots, events).levels[|frames|], tag);
    forall q ensures q in hits <==> EndsPlaced(roots, path, q) {
      StartSelects(roots, events, tag, q);
      SelectedIsPlaced(roots, path, q);
    }
    SomeEnds(roots, path);
    assert hits != {} <==> exists q :: q in hits;
  }

  lemma SomeEnds(roots: seq<PathNode>, path: seq<Frame>)
    ensures SomePlaced(roots, path) <==> exists q :: EndsPlaced(roots, path, q)
  {
    if SomePlaced(roots, path) {
      var steps, at :| Placed(roots, steps, path, at);
      assert EndsPlaced(roots, path, steps[|steps| - 1]);
    }
  }

  // ----- attributes and leaves

  // A path ends right above, where the step is one of its children, or the step is a root.
  ghost predicate Expected(roots: seq<PathNode>, path: seq<Frame>, q: PathNode) {
    if path == [] then q in roots else exists p :: EndsPlaced(roots, path, p) && q in p.children
  }

  lemma PlaceIsOffered(roots: seq<PathNode>, path: seq<Frame>, q: PathNode)
    ensures Offered(roots, q, path) <==> Expected(roots, path, q)
  {
    hide EndsPlaced, Selected;
    forall p ensures Selected(roots, p, path) <==> EndsPlaced(roots, path, p) {
      SelectedIsPlaced(roots, path, p);
    }
  }

  // An attribute step with the attribute's name, of which it may leave out either part, expected
  // at its element or, for a descendant step, at or above it.
  ghost predicate AttributePlaced(roots: seq<PathNode>, path: seq<Frame>, tag: Tag, q: PathNode) {
    && (q.kind == AttributeStep || q.kind == DescendantAttrStep)
    && (q.name == None || q.name.value == tag.name) && (q.uri == None || q.uri.value == tag.uri)
    && exists m :: 0 <= m <= |path| && (m == |path| || q.kind == DescendantAttrStep) && Expected(roots, path[..m], q)
  }

  /** An attribute is picked by exactly such steps, and passed on exactly if there is one. */
  lemma AttributeIsPassed(roots: seq<PathNode>, events: seq<Event>, tag: Tag, value: string, typed: Option<TypeRef>)
    requires Nest(events) != None && Nest(events + [Attribute(tag, value, typed)]) != None
    ensures var event, path := Attribute(tag, value, typed), Nest(events).value;
            var before, after := Projected(roots, events).out, Projected(roots, events + [event]).out;
            if exists q :: AttributePlaced(roots, path, tag, q) then after != [] && after[|after| - 1] == event
            else after == before
    ensures var event, path := Attribute(tag, value, typed), Nest(events).value;
            var before, after := Match(roots, events).attributes, Match(roots, events + [event]).attributes;
            if exists q :: AttributePlaced(roots, path, tag, q) then
              && after != [] && after[..|after| - 1] == before && after[|after| - 1].event == event
              && forall q :: q in after[|after| - 1].nodes <==> AttributePlaced(roots, path, tag, q)
            else after == before
  {
    hide Match, Nest, Projected, Expected, AttributeHits, TopPassed, Offered;
    var event, path := Attribute(tag, value, typed), Nest(events).value;
    NestSnoc(events, event);
    MatchSnoc(roots, events, event);
    ProjectedSnoc(roots, events, event);
    MatchFollowsPaths(roots, events);
    var hits := AttributeHits(Match(roots, events).levels[|path|], tag);
    forall q ensures q in hits <==> AttributePlaced(roots, path, tag, q) {
      AttributeSelects(roots, events, tag, q);
      assert NameMatches(q, tag) <==>
        (q.name == None || q.name.value == tag.name) && (q.uri == None || q.uri.value == tag.uri);
      forall m | 0 <= m <= |path| ensures Offered(roots, q, path[..m]) <==> Expected(roots, path[..m], q) {
        PlaceIsOffered(roots, path[..m], q);
      }
    }
    if hits != {} {
      var q :| q in hits;
      assert AttributePlaced(roots, path, tag, q);
    }
  }

  // A step that is not limited to elements, expected at the leaf's parent or, for a descendant
  // step, at or above it.
  ghost predicate LeafPlaced(roots: seq<PathNode>, path: seq<Frame>, q: PathNode) {
    && (q.kind == ChildStep || q.kind == DescendantStep) && q.anyKind
    && exists m :: 0 <= m <= |path| && (m == |path| || q.kind == DescendantStep) && Expected(roots, path[..m], q)
  }

  /** A text, comment or processing instruction is picked by exactly such steps, and passed on
      exactly if there is one. */
  lemma LeafIsPassed(roots: seq<PathNode>, events: seq<Event>, leaf: Event)
    requires Nest(events) != None && IsLeaf(leaf)
    ensures Nest(events + [leaf]) != None
    ensures var path := Nest(events).value;
            var before, after := Projected(roots, events).out, Projected(roots, events + [leaf]).out;
            if exists q :: LeafPlaced(roots, path, q) then after != [] && after[|after| - 1] == leaf
            else after == before
    ensures var path := Nest(events).value;
            var before, after := Match(roots, events).leaves, Match(roots, events + [leaf]).leaves;
            if exists q :: LeafPlaced(roots, path, q) then
              && after != [] && after[..|after| - 1] == before && after[|after| - 1].event == leaf
              && forall q :: q in after[|after| - 1].nodes <==> LeafPlaced(roots, path, q)
            else after == before
  {
    hide Match, Nest, Projected, Expected, Disambiguated, Offered;
    var path := Nest(events).value;
    NestSnoc(events, leaf);
    MatchSnoc(roots, events, leaf);
    ProjectedSnoc(roots, events, leaf);
    MatchFollowsPaths(roots, events);
    assert path[..|path|] == path;
    var hits := LeafHits(Match(roots, events).levels[|path|]);
    forall q ensures q in hits <==> LeafPlaced(roots, path, q) {
      ExpectedIsOffered(roots, path, q);
      forall m | 0 <= m <= |path| ensures Offered(roots, q, path[..m]) <==> Expected(roots, path[..m], q) {
        PlaceIsOffered(roots, path[..m], q);
      }
    }
    if hits != {} {
      var q :| q in hits;
      assert LeafPlaced(roots, path, q);
    }
  }

  // ----- which skipped ancestors are passed on

  // An element that the child step i accepts and that is wanted for j too; any element may come
  // to be passed on for an attribute at any depth.
  ghost predicate Confuses(i: PathNode, j: PathNode) {
    && i.kind == ChildStep
    && (j.kind == DescendantAttrStep ||
          exists tag :: StepAccepts(i, ElementFrame(tag)) && StepAccepts(j, ElementFrame(tag)))
  }

  /** The test for clashes finds exactly the steps that some element could confuse. */
  lemma ClashesMean(pseudo: set<PathNode>, actual: set<PathNode>)
    ensures Clashes(pseudo, actual) <==> exists i, j :: i in pseudo && j in actual && Confuses(i, j)
  {
    forall i, j ensures ClashingPair(i, j) <==> Confuses(i, j) {
      PairConfuses(i, j);
    }
  }

  lemma PairConfuses(i: PathNode, j: PathNode)
    ensures ClashingPair(i, j) <==> Confuses(i, j)
  {
    if ClashingPair(i, j) && j.kind != DescendantAttrStep {
      var name := if i.name != None then i.name.value else if j.name != None then j.name.value else "";
      var uri := if i.uri != None then i.uri.value else if j.uri != None then j.uri.value else "";
      assert StepAccepts(i, ElementFrame(Tag("", uri, name))) && StepAccepts(j, ElementFrame(Tag("", uri, name)));
    }
  }

  ghost predicate Confused(levels: seq<set<PathNode>>, s: nat, p: nat)
    requires s < |levels| && p < |levels|
  {
    exists i, j :: i in levels[s] && j in levels[p] && Confuses(i, j)
  }

  // The start tags of the open elements from s to r.
  function StartsOf(frames: seq<Frame>, s: nat, r: nat): seq<Event>
    requires s <= r <= |frames|
    decreases r - s
  {
    if s == r then [] else [StartElement(TagOf(frames[s]))] + StartsOf(frames, s + 1, r)
  }

  /** From the pseudo-parent on, open elements are passed on one after the other, and no more than
      until nothing can be confused, or there is none left. */
  lemma {:induction false} AncestorsPassed(levels: seq<set<PathNode>>, frames: seq<Frame>, p: nat, st: Projection)
    requires p < |st.flags| && st.flags[0] && p < |levels| && p <= |frames|
    ensures var s, after := Pseudo(st.flags, p), Disambiguated(levels, frames, p, st);
            var r := Pseudo(after.flags, p);
            && s <= r && after.out == st.out + StartsOf(frames, s, r)
            && (r == p || !Confused(levels, r, p)) && (forall k :: s <= k < r ==> Confused(levels, k, p))
            && forall k :: 0 <= k < |st.flags| ==> after.flags[k] == (st.flags[k] || s < k <= r)
    decreases p - Pseudo(st.flags, p)
  {
    hide Clashes, Confused;
    var s := Pseudo(st.flags, p);
    ConfusedIs(levels, s, p);
    if s == p || !Clashes(levels[s], levels[p]) {
      assert st.out + [] == st.out;
    } else {
      var flags := st.flags[s + 1 := true];
      assert flags[s + 1];
      var next := Projection(flags, st.out + [StartElement(TagOf(frames[s]))]);
      PseudoNext(st.flags, s, p);
      AncestorsPassed(levels, frames, p, next);
      var r := Pseudo(Disambiguated(levels, frames, p, next).flags, p);
      assert next.out + StartsOf(frames, s + 1, r) == st.out + StartsOf(frames, s, r);
    }
  }

  lemma ConfusedIs(levels: seq<set<PathNode>>, s: nat, p: nat)
    requires s < |levels| && p < |levels|
    ensures Confused(levels, s, p) <==> Clashes(levels[s], levels[p])
  {
    ClashesMean(levels[s], levels[p]);
  }

  lemma {:induction false} PseudoNext(flags: seq<bool>, s: nat, p: nat)
    requires s < p < |flags| && flags[0] && s == Pseudo(flags, p)
    ensures Pseudo(flags[s + 1 := true], p) == s + 1
  {
    var more := flags[s + 1 := true];
    var r := Pseudo(more, p);
    assert more[s + 1] && more[r];
  }
}
