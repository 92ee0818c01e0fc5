/** fn:analyze-string: matched and unmatched regions of a string, and the nested elements that
    are written for them by a recursion over one shared iterator. */
module AnalyzeString {
  import opened Options
  import opened Events

  // Group -1 is a region that is not matched, group 0 a whole match.
  datatype Region = Region(start: int, end: int, group: int)

  predicate LessThan(p: Region, q: Region) {
    if p.start != q.start then p.start < q.start
    else if p.end != q.end then p.end > q.end
    else p.group < q.group
  }

  predicate Sorted(regions: seq<Region>) {
    forall i, j :: 0 <= i < j < |regions| ==> LessThan(regions[i], regions[j])
  }

  /** Adds a region to the ordered set, once. */
  function Insert(regions: seq<Region>, r: Region): seq<Region> {
    if regions == [] then [r]
    else if regions[0] == r then regions
    else if LessThan(regions[0], r) then [regions[0]] + Insert(regions[1..], r)
    else [r] + regions
  }

  lemma {:induction false} InsertIs(regions: seq<Region>, r: Region)
    requires Sorted(regions)
    ensures Sorted(Insert(regions, r)) && forall p :: p in Insert(regions, r) <==> p == r || p in regions
  {
    if regions != [] && regions[0] != r && LessThan(regions[0], r) {
      var rest := Insert(regions[1..], r);
      InsertIs(regions[1..], r);
      assert regions == [regions[0]] + regions[1..];
      forall j | 0 <= j < |rest| ensures LessThan(regions[0], rest[j]) {
        assert rest[j] in rest;
        if rest[j] != r {
          var k :| 0 <= k < |regions[1..]| && regions[1..][k] == rest[j];
          assert LessThan(regions[0], regions[k + 1]);
        }
      }
    } else if regions != [] && regions[0] != r {
      forall j | 0 <= j < |regions| ensures LessThan(r, regions[j]) {
        assert j > 0 ==> LessThan(regions[0], regions[j]);
      }
    }
  }

  // ----- building the regions

  // The groups of a match; a group that took no part starts below zero.
  datatype Span = Span(start: int, end: int)
  type Match = seq<Span>

  datatype Found = Found(regions: seq<Region>, tokStart: int)

  function WithGroup(f: Found, s: Span, j: nat): Found {
    if s.start < 0 then f
    else
      var before :=
        if j == 0 && f.tokStart < s.start then Insert(f.regions, Region(f.tokStart, s.start, -1)) else f.regions;
      Found(Insert(before, Region(s.start, s.end, j)), if s.end > f.tokStart then s.end else f.tokStart)
  }

  function WithGroups(f: Found, m: Match, j: nat): Found
    decreases |m| - j
  {
    if j >= |m| then f else WithGroups(WithGroup(f, m[j], j), m, j + 1)
  }

  function WithMatches(f: Found, matches: seq<Match>): Found
    decreases |matches|
  {
    if matches == [] then f else WithMatches(WithGroups(f, matches[0], 0), matches[1..])
  }

  /** The regions of a string of the given length. */
  function RegionsOf(matches: seq<Match>, length: nat): seq<Region> {
    var f := WithMatches(Found([], 0), matches);
    if f.tokStart < length then Insert(f.regions, Region(f.tokStart, length, -1)) else f.regions
  }

  // ----- the events

  const FUNCTION_URI := "http://www.w3.org/2005/xpath-functions"

  function ElementFor(group: int): Tag {
    Tag("", FUNCTION_URI, if group == -1 then "non-match" else if group == 0 then "match" else "group")
  }

  function Digits(n: nat): string {
    if n < 10 then [('0' as int + n) as char] else Digits(n / 10) + [('0' as int + n % 10) as char]
  }

  function Opening(group: int): seq<Event> {
    [StartElement(ElementFor(group))]
    + if group > 0 then [Attribute(Tag("", "", "nr"), Digits(group), None)] else []
  }

  // The text between two places, if there is any.
  function Between(input: string, start: int, end: int): seq<Event> {
    if 0 <= start < end <= |input| then [Text(input[start..end])] else []
  }

  // All regions lie in a string of this length.
  predicate InBounds(regions: seq<Region>, length: nat) {
    forall k :: 0 <= k < |regions| ==> 0 <= regions[k].start <= regions[k].end <= length
  }

  datatype Written = Written(events: seq<Event>, end: int, it: nat)

  /** What is written for the region at it, and where the iterator is then. */
  function OneRegion(input: string, regions: seq<Region>, start: int, it: nat): (r: Written)
    requires it < |regions| && InBounds(regions, |input|) && 0 <= start
    ensures it < r.it <= |regions| && r.end == regions[it].end
    decreases |regions| - it, 0
  {
    var region := regions[it];
    var inner := Nested(input, regions, region.start, it + 1, region.end);
    Written(Between(input, start, region.start) + Opening(region.group) + inner.events
              + Between(input, inner.end, region.end) + [EndElement(ElementFor(region.group), None)],
            region.end, inner.it)
  }

  // The regions from it on that start before limit.
  function Nested(input: string, regions: seq<Region>, start: int, it: nat, limit: int): (r: Written)
    requires it <= |regions| && InBounds(regions, |input|) && 0 <= start
    ensures it <= r.it <= |regions| && 0 <= r.end
    decreases |regions| - it, 1
  {
    if it < |regions| && regions[it].start < limit then
      var first := OneRegion(input, regions, start, it);
      var rest := Nested(input, regions, first.end, first.it, limit);
      Written(first.events + rest.events, rest.end, rest.it)
    else Written([], start, it)
  }

  function TextOf(events: seq<Event>): string {
    if events == [] then "" else (if events[0].Text? then events[0].value else "") + TextOf(events[1..])
  }

  lemma {:induction false} TextConcat(a: seq<Event>, b: seq<Event>)
    ensures TextOf(a + b) == TextOf(a) + TextOf(b)
  {
    if a == [] {
      assert a + b == b;
    } else {
      assert (a + b)[1..] == a[1..] + b;
      TextConcat(a[1..], b);
    }
  }

  // A region that starts inside another ends inside it too.
  predicate Laminar(regions: seq<Region>) {
    forall i, j :: 0 <= i < j < |regions| && regions[j].start < regions[i].end ==> regions[j].end <= regions[i].end
  }

  lemma OpeningHasNoText(group: int)
    ensures TextOf(Opening(group)) == "" && TextOf([EndElement(ElementFor(group), None)]) == ""
  {
    hide Digits, ElementFor;
    NoText(Opening(group));
    NoText([EndElement(ElementFor(group), None)]);
  }

  lemma {:induction false} NoText(events: seq<Event>)
    requires forall e :: e in events ==> !e.Text?
    ensures TextOf(events) == ""
  {
    if events != [] {
      assert events[0] in events;
      NoText(events[1..]);
    }
  }

  lemma BetweenText(input: string, start: int, end: int)
    requires 0 <= start <= |input| && end <= |input|
    ensures TextOf(Between(input, start, end)) == if start < end then input[start..end] else ""
  {
  }

  // The text that one region writes, part by part.
  lemma RegionText(input: string, regions: seq<Region>, start: int, it: nat)
    requires it < |regions| && InBounds(regions, |input|) && 0 <= start
    ensures var region := regions[it];
            var inner := Nested(input, regions, region.start, it + 1, region.end);
            TextOf(OneRegion(input, regions, start, it).events)
            == TextOf(Between(input, start, region.start)) + TextOf(inner.events)
             + TextOf(Between(input, inner.end, region.end))
  {
    hide Nested, TextOf, Between, Opening;
    var region := regions[it];
    var inner := Nested(input, regions, region.start, it + 1, region.end);
    var a, b, c := Between(input, start, region.start), Opening(region.group), Between(input, inner.end, region.end);
    var d := [EndElement(ElementFor(region.group), None)];
    OpeningHasNoText(region.group);
    TextConcat(a + b + inner.events + c, d);
    TextConcat(a + b + inner.events, c);
    TextConcat(a + b, inner.events);
    TextConcat(a, b);
  }

  // As Laminar, for the regions from a on and before b.
  predicate LaminarIn(regions: seq<Region>, a: nat, b: nat)
    requires b <= |regions|
  {
    forall i, j :: a <= i < j < b && regions[j].start < regions[i].end ==> regions[j].end <= regions[i].end
  }

  // What holds of the text w that is written from start on for the regions from a to b.
  ghost predicate Exact(input: string, regions: seq<Region>, start: int, w: Written, a: nat)
    requires a <= w.it <= |regions|
  {
    var text := TextOf(w.events);
    && 0 <= start <= w.end <= |input| && |text| >= w.end - start
    && (LaminarIn(regions, a, w.it) <==> |text| == w.end - start)
    && (LaminarIn(regions, a, w.it) ==>
          text == input[start..w.end] && forall k :: a <= k < w.it ==> regions[k].end <= w.end)
    && (w.it < |regions| ==> w.end <= regions[w.it].start)
  }

  lemma {:induction false} RegionExact(input: string, regions: seq<Region>, start: int, it: nat)
    requires Sorted(regions) && InBounds(regions, |input|) && it < |regions| && 0 <= start <= regions[it].start
    ensures Exact(input, regions, start, OneRegion(input, regions, start, it), it)
    decreases |regions| - it, 0
  {
    hide OneRegion, Nested, TextOf, Between, Sorted;
    var region := regions[it];
    var inner := Nested(input, regions, region.start, it + 1, region.end);
    var w := OneRegion(input, regions, start, it);
    assert w.it == inner.it && w.end == region.end by { OneRegionIs(input, regions, start, it); }
    StartsRise(regions, it);
    NestedExact(input, regions, region.start, it + 1, region.end);
    RegionText(input, regions, start, it);
    BetweenText(input, start, region.start);
    BetweenText(input, inner.end, region.end);
    LaminarInner(regions, it, inner.it, inner.end);
    Slices(input, start, region.start, inner.end, region.end);
  }

  lemma OneRegionIs(input: string, regions: seq<Region>, start: int, it: nat)
    requires it < |regions| && InBounds(regions, |input|) && 0 <= start
    ensures var w := OneRegion(input, regions, start, it);
            var inner := Nested(input, regions, regions[it].start, it + 1, regions[it].end);
            w.it == inner.it && w.end == regions[it].end
  {
  }

  lemma StartsRise(regions: seq<Region>, it: nat)
    requires Sorted(regions)
    ensures it + 1 < |regions| ==> regions[it].start <= regions[it + 1].start
  {
    assert it + 1 < |regions| ==> LessThan(regions[it], regions[it + 1]);
  }

  // A region and what is nested in it are laminar if what is nested is, and ends inside.
  lemma LaminarInner(regions: seq<Region>, it: nat, b: nat, end: int)
    requires it < b <= |regions|
    requires LaminarIn(regions, it + 1, b) ==> forall k :: it < k < b ==> regions[k].end <= end
    requires (b == it + 1 && end == regions[it].start <= regions[it].end)
          || exists k :: it < k < b && regions[k].start < regions[it].end && regions[k].end == end
    ensures LaminarIn(regions, it, b) <==> LaminarIn(regions, it + 1, b) && end <= regions[it].end
  {
  }

  lemma Slices(input: string, a: int, b: int, c: int, d: int)
    ensures 0 <= a <= b <= c <= d <= |input| ==> input[a..b] + input[b..c] + input[c..d] == input[a..d]
  {
  }

  lemma {:induction false} NestedExact(input: string, regions: seq<Region>, start: int, it: nat, limit: int)
    requires Sorted(regions) && InBounds(regions, |input|) && it <= |regions| && 0 <= start <= |input|
    requires it < |regions| ==> start <= regions[it].start
    ensures var w := Nested(input, regions, start, it, limit);
            && Exact(input, regions, start, w, it)
            && (w.it < |regions| ==> limit <= regions[w.it].start)
            && (w.it == it ==> w.end == start)
            && (w.it > it ==> exists k :: it <= k < w.it && regions[k].start < limit && regions[k].end == w.end)
    decreases |regions| - it, 1
  {
    hide OneRegion, TextOf, Sorted;
    if it < |regions| && regions[it].start < limit {
      var first := OneRegion(input, regions, start, it);
      var rest := Nested(input, regions, first.end, first.it, limit);
      RegionExact(input, regions, start, it);
      NestedExact(input, regions, first.end, first.it, limit);
      TextConcat(first.events, rest.events);
      LaminarSplit(regions, it, first.it, rest.it, first.end);
      TwoSlices(input, start, first.end, rest.end);
      assert first.end == regions[it].end;
    } else {
      assert TextOf([]) == "" by { NoText([]); }
    }
  }

  lemma TwoSlices(input: string, a: int, b: int, c: int)
    requires 0 <= a <= b <= c <= |input|
    ensures input[a..b] + input[b..c] == input[a..c]
  {
  }

  // Sibling regions do not overlap what comes after them.
  lemma LaminarSplit(regions: seq<Region>, a: nat, b: nat, c: nat, end: int)
    requires Sorted(regions) && a <= b <= c <= |regions|
    requires LaminarIn(regions, a, b) ==> forall k :: a <= k < b ==> regions[k].end <= end
    requires b < |regions| ==> end <= regions[b].start
    ensures LaminarIn(regions, a, c) <==> LaminarIn(regions, a, b) && LaminarIn(regions, b, c)
  {
    forall j | b <= j < c ensures end <= regions[j].start {
      assert j == b || LessThan(regions[b], regions[j]);
    }
  }

  /** All the events inside the result element. */
  function AllRegions(input: string, regions: seq<Region>): Written
    requires InBounds(regions, |input|)
  {
    Nested(input, regions, 0, 0, |input| + 1)
  }

  /** The recursion uses every region, and the text it writes is exactly the input, up to the
      end of the last outermost region, if and only if the regions are nested or disjoint. */
  lemma TextExact(input: string, regions: seq<Region>)
    requires Sorted(regions) && InBounds(regions, |input|)
    ensures var w := AllRegions(input, regions);
            && w.it == |regions| && 0 <= w.end <= |input|
            && (TextOf(w.events) == input[..w.end] <==> Laminar(regions))
  {
    hide Nested, TextOf, Sorted;
    NestedExact(input, regions, 0, 0, |input| + 1);
  }

  // ----- the elements

  // The open elements after the events, or None if an end does not match.
  function Stack(open: seq<Tag>, events: seq<Event>): Option<seq<Tag>>
    decreases |events|
  {
    if events == [] then Some(open)
    else
      match events[0]
      case StartElement(tag) => Stack([tag] + open, events[1..])
      case EndElement(tag, _) => if open != [] && open[0] == tag then Stack(open[1..], events[1..]) else None
      case _ => Stack(open, events[1..])
  }

  // The elements that are started, in order.
  function Started(events: seq<Event>): seq<Tag> {
    if events == [] then []
    else (if events[0].StartElement? then [events[0].tag] else []) + Started(events[1..])
  }

  lemma {:induction false} StackConcat(open: seq<Tag>, a: seq<Event>, b: seq<Event>)
    requires Stack(open, a) != None
    ensures Stack(open, a + b) == Stack(Stack(open, a).value, b)
    decreases |a|
  {
    if a == [] {
      assert a + b == b;
    } else {
      assert (a + b)[1..] == a[1..] + b;
      match a[0] {
        case StartElement(tag) => StackConcat([tag] + open, a[1..], b);
        case EndElement(_, _) => StackConcat(open[1..], a[1..], b);
        case _ => StackConcat(open, a[1..], b);
      }
    }
  }

  lemma StartedCons(e: Event, rest: seq<Event>)
    ensures Started([e] + rest) == (if e.StartElement? then [e.tag] else []) + Started(rest)
  {
    assert ([e] + rest)[1..] == rest;
  }

  lemma {:induction false} StartedConcat(a: seq<Event>, b: seq<Event>)
    ensures Started(a + b) == Started(a) + Started(b)
  {
    hide Started;
    if a == [] {
      assert a + b == b;
      assert Started([]) == [] by { NothingStarted(); }
    } else {
      var rest := a[1..];
      StartedConcat(rest, b);
      StartedCons(a[0], rest);
      StartedCons(a[0], rest + b);
      assert a == [a[0]] + rest && a + b == [a[0]] + (rest + b);
    }
  }

  lemma NothingStarted()
    ensures Started([]) == []
  {
  }

  // The elements of the regions from a on and before b.
  function ElementsOf(regions: seq<Region>, a: nat, b: nat): seq<Tag>
    requires a <= b <= |regions|
    decreases b - a
  {
    if a == b then [] else [ElementFor(regions[a].group)] + ElementsOf(regions, a + 1, b)
  }

  lemma {:induction false} ElementsSplit(regions: seq<Region>, a: nat, b: nat, c: nat)
    requires a <= b <= c <= |regions|
    ensures ElementsOf(regions, a, c) == ElementsOf(regions, a, b) + ElementsOf(regions, b, c)
    decreases b - a
  {
    hide ElementFor;
    if a < b {
      ElementsSplit(regions, a + 1, b, c);
    }
  }

  // The events leave the open elements as they were, and start one element for each region.
  ghost predicate Balanced(regions: seq<Region>, w: Written, a: nat)
    requires a <= w.it <= |regions|
  {
    && (forall open :: Stack(open, w.events) == Some(open))
    && Started(w.events) == ElementsOf(regions, a, w.it)
  }

  lemma TextIsBalanced(input: string, a: int, b: int, open: seq<Tag>)
    ensures Stack(open, Between(input, a, b)) == Some(open) && Started(Between(input, a, b)) == []
  {
  }

  lemma OpeningStarts(group: int, open: seq<Tag>)
    ensures Stack(open, Opening(group)) == Some([ElementFor(group)] + open)
    ensures Started(Opening(group)) == [ElementFor(group)]
    ensures Stack([ElementFor(group)] + open, [EndElement(ElementFor(group), None)]) == Some(open)
    ensures Started([EndElement(ElementFor(group), None)]) == []
  {
    hide Digits, ElementFor;
    var tag, attr := ElementFor(group), Attribute(Tag("", "", "nr"), if group > 0 then Digits(group) else "", None);
    StackCons(open, StartElement(tag), if group > 0 then [attr] else []);
    StackCons([tag] + open, attr, []);
    StackCons([tag] + open, EndElement(tag, None), []);
    assert [StartElement(tag)] + [] == [StartElement(tag)] && [attr] + [] == [attr];
    assert [EndElement(tag, None)] + [] == [EndElement(tag, None)];
    assert ([tag] + open)[1..] == open;
  }

  lemma StackCons(open: seq<Tag>, e: Event, rest: seq<Event>)
    ensures Stack(open, []) == Some(open)
    ensures Stack(open, [e] + rest) ==
      if e.StartElement? then Stack([e.tag] + open, rest)
      else if e.EndElement? then (if open != [] && open[0] == e.tag then Stack(open[1..], rest) else None)
      else Stack(open, rest)
    ensures Started([]) == [] && Started([e] + rest) == (if e.StartElement? then [e.tag] else []) + Started(rest)
  {
    assert ([e] + rest)[1..] == rest;
  }

  lemma {:induction false} RegionBalanced(input: string, regions: seq<Region>, start: int, it: nat)
    requires InBounds(regions, |input|) && it < |regions| && 0 <= start
    ensures Balanced(regions, OneRegion(input, regions, start, it), it)
    decreases |regions| - it, 0
  {
    hide Nested, Stack, Started, Opening, Between, ElementFor;
    var region, w := regions[it], OneRegion(input, regions, start, it);
    var inner := Nested(input, regions, region.start, it + 1, region.end);
    var a, b, d := Between(input, start, region.start), Opening(region.group), Between(input, inner.end, region.end);
    var e := [EndElement(ElementFor(region.group), None)];
    NestedBalanced(input, regions, region.start, it + 1, region.end);
    forall open ensures Stack(open, w.events) == Some(open) {
      var inside := [ElementFor(region.group)] + open;
      TextIsBalanced(input, start, region.start, open);
      OpeningStarts(region.group, open);
      TextIsBalanced(input, inner.end, region.end, inside);
      assert Stack(inside, inner.events) == Some(inside);
      StackConcat(open, a, b);
      StackConcat(open, a + b, inner.events);
      StackConcat(open, a + b + inner.events, d);
      StackConcat(open, a + b + inner.events + d, e);
    }
    TextIsBalanced(input, start, region.start, []);
    TextIsBalanced(input, inner.end, region.end, []);
    OpeningStarts(region.group, []);
    StartedConcat(a, b);
    StartedConcat(a + b, inner.events);
    StartedConcat(a + b + inner.events, d);
    StartedConcat(a + b + inner.events + d, e);
  }

  lemma {:induction false} NestedBalanced(input: string, regions: seq<Region>, start: int, it: nat, limit: int)
    requires InBounds(regions, |input|) && it <= |regions| && 0 <= start
    ensures Balanced(regions, Nested(input, regions, start, it, limit), it)
    decreases |regions| - it, 1
  {
    hide OneRegion;
    if it < |regions| && regions[it].start < limit {
      hide Stack, Started;
      var first := OneRegion(input, regions, start, it);
      var rest := Nested(input, regions, first.end, first.it, limit);
      RegionBalanced(input, regions, start, it);
      NestedBalanced(input, regions, first.end, first.it, limit);
      forall open ensures Stack(open, first.events + rest.events) == Some(open) {
        assert Stack(open, first.events) == Some(open);
        StackConcat(open, first.events, rest.events);
      }
      StartedConcat(first.events, rest.events);
      ElementsSplit(regions, it, first.it, rest.it);
    }
  }

  /** Whatever the regions, the elements are balanced, and each region has one element, in the
      order of the set. */
  lemma ElementsExact(input: string, regions: seq<Region>)
    requires Sorted(regions) && InBounds(regions, |input|)
    ensures var w := AllRegions(input, regions);
            && (forall open :: Stack(open, w.events) == Some(open))
            && Started(w.events) == ElementsOf(regions, 0, |regions|)
  {
    hide Nested, Stack, Started;
    TextExact(input, regions);
    NestedBalanced(input, regions, 0, 0, |input| + 1);
  }

  // ----- the regions of well-formed matches

  // The groups of a match are properly nested or disjoint, and lie in the match.
  predicate GoodMatch(m: Match, from: int, length: nat) {
    && |m| > 0 && from <= m[0].start < m[0].end <= length
    && (forall j :: 0 <= j < |m| && m[j].start >= 0 ==> m[0].start <= m[j].start <= m[j].end <= m[0].end)
    && forall j, k :: 0 <= j < |m| && 0 <= k < |m| && m[j].start >= 0 && m[j].start < m[k].start < m[j].end ==>
         m[k].end <= m[j].end
  }

  // Not empty, one after the other.
  predicate GoodMatches(matches: seq<Match>, from: int, length: nat)
    decreases |matches|
  {
    matches == [] || (GoodMatch(matches[0], from, length) && GoodMatches(matches[1..], matches[0][0].end, length))
  }

  // Neither of two regions starts strictly inside the other and ends outside.
  predicate Apart(p: Region, q: Region) {
    p.start < q.start < p.end ==> q.end <= p.end
  }

  // The regions up to the place reached, with nothing crossing.
  ghost predicate Progress(f: Found, length: nat) {
    && Sorted(f.regions) && 0 <= f.tokStart <= length
    && (forall p :: p in f.regions ==> 0 <= p.start <= p.end <= f.tokStart)
    && (forall p, q :: p in f.regions && q in f.regions ==> Apart(p, q))
    && (f.tokStart > 0 ==> exists p :: p in f.regions && p.end == f.tokStart)
  }

  lemma ProgressAdds(f: Found, r: Region, length: nat)
    requires Progress(f, length) && f.tokStart <= r.start <= r.end <= length
    ensures Progress(Found(Insert(f.regions, r), r.end), length)
  {
    hide Sorted, Insert;
    InsertIs(f.regions, r);
    if r.end > 0 {
      assert r in Insert(f.regions, r);
    }
  }

  // The groups from j on, when the match itself is in.
  ghost predicate InMatch(f: Found, m: Match, from: int, length: nat) {
    && |m| > 0 && Progress(f, length) && f.tokStart == m[0].end
    && forall p :: p in f.regions ==>
         p.end <= m[0].start || exists k :: 0 <= k < |m| && m[k].start == p.start && m[k].end == p.end
  }

  lemma {:induction false} GroupsProgress(f: Found, m: Match, j: nat, from: int, length: nat)
    requires GoodMatch(m, from, length) && 1 <= j && InMatch(f, m, from, length)
    ensures Progress(WithGroups(f, m, j), length) && WithGroups(f, m, j).tokStart == m[0].end
    decreases |m| - j
  {
    hide Insert, Sorted;
    if j < |m| {
      var g := WithGroup(f, m[j], j);
      if m[j].start >= 0 {
        InsertIs(f.regions, Region(m[j].start, m[j].end, j));
        GroupApart(f, m, j, from, length);
      }
      GroupsProgress(g, m, j + 1, from, length);
    }
  }

  // A group crosses no region that is there.
  lemma GroupApart(f: Found, m: Match, j: nat, from: int, length: nat)
    requires GoodMatch(m, from, length) && InMatch(f, m, from, length) && j < |m| && m[j].start >= 0
    ensures forall p :: p in f.regions ==>
              Apart(p, Region(m[j].start, m[j].end, j)) && Apart(Region(m[j].start, m[j].end, j), p)
  {
  }

  lemma MatchProgress(f: Found, m: Match, length: nat)
    requires Progress(f, length) && GoodMatch(m, f.tokStart, length)
    ensures Progress(WithGroups(f, m, 0), length) && WithGroups(f, m, 0).tokStart == m[0].end
  {
    hide Insert, Sorted, WithGroups;
    var start := m[0].start;
    var before := if f.tokStart < start then Found(Insert(f.regions, Region(f.tokStart, start, -1)), start) else f;
    if f.tokStart < start {
      ProgressAdds(f, Region(f.tokStart, start, -1), length);
    }
    ProgressAdds(before, Region(start, m[0].end, 0), length);
    var g := WithGroup(f, m[0], 0);
    InsertIs(before.regions, Region(start, m[0].end, 0));
    assert m[0].start == start && g == Found(Insert(before.regions, Region(start, m[0].end, 0)), m[0].end);
    FirstGroup(f, m);
    GroupsProgress(g, m, 1, f.tokStart, length);
  }

  lemma FirstGroup(f: Found, m: Match)
    requires |m| > 0
    ensures WithGroups(f, m, 0) == WithGroups(WithGroup(f, m[0], 0), m, 1)
  {
  }

  lemma {:induction false} MatchesProgress(f: Found, matches: seq<Match>, length: nat)
    requires Progress(f, length) && GoodMatches(matches, f.tokStart, length)
    ensures Progress(WithMatches(f, matches), length)
    decreases |matches|
  {
    hide Progress, WithGroups;
    if matches != [] {
      MatchProgress(f, matches[0], length);
      MatchesProgress(WithGroups(f, matches[0], 0), matches[1..], length);
    }
  }

  lemma ApartIsLaminar(regions: seq<Region>)
    requires Sorted(regions) && forall p, q :: p in regions && q in regions ==> Apart(p, q)
    ensures Laminar(regions)
  {
    forall i, j | 0 <= i < j < |regions| && regions[j].start < regions[i].end ensures regions[j].end <= regions[i].end {
      assert LessThan(regions[i], regions[j]) && Apart(regions[i], regions[j]);
    }
  }

  // The last outermost region ends where the last region of all ends.
  lemma EndReached(input: string, regions: seq<Region>)
    requires Sorted(regions) && InBounds(regions, |input|) && Laminar(regions)
    requires |input| > 0 ==> exists p :: p in regions && p.end == |input|
    ensures AllRegions(input, regions).end == |input|
  {
    hide Nested, TextOf, Sorted;
    NestedExact(input, regions, 0, 0, |input| + 1);
    var w := AllRegions(input, regions);
    assert LaminarIn(regions, 0, |regions|);
  }

  /** For ordered, disjoint, non-empty matches whose groups are nested or disjoint, the texts
      written are together exactly the input. */
  lemma TextConserved(input: string, matches: seq<Match>)
    requires GoodMatches(matches, 0, |input|)
    ensures var regions := RegionsOf(matches, |input|);
            && Sorted(regions) && Laminar(regions)
            && InBounds(regions, |input|) && TextOf(AllRegions(input, regions).events) == input
            && AllRegions(input, regions).it == |regions| && AllRegions(input, regions).end == |input|
            && (forall open :: Stack(open, AllRegions(input, regions).events) == Some(open))
            && Started(AllRegions(input, regions).events) == ElementsOf(regions, 0, |regions|)
  {
    hide Insert, Sorted, WithMatches, Nested, TextOf, Stack, Started, ElementsOf;
    assert Progress(Found([], 0), |input|) by { NoProgress(|input|); }
    MatchesProgress(Found([], 0), matches, |input|);
    var f := WithMatches(Found([], 0), matches);
    var regions := RegionsOf(matches, |input|);
    if f.tokStart < |input| {
      ProgressAdds(f, Region(f.tokStart, |input|, -1), |input|);
    }
    assert Progress(Found(regions, |input|), |input|);
    assert InBounds(regions, |input|) by { AllIn(regions, |input|); }
    ApartIsLaminar(regions);
    EndReached(input, regions);
    TextExact(input, regions);
    ElementsExact(input, regions);
    assert input[..|input|] == input;
  }

  lemma NoProgress(length: nat)
    ensures Progress(Found([], 0), length)
  {
  }

  lemma AllIn(regions: seq<Region>, length: nat)
    requires forall p :: p in regions ==> 0 <= p.start <= p.end <= length
    ensures InBounds(regions, length)
  {
  }

  // ----- the algorithms

  class SequenceBuilder {
    var events: seq<Event>

    constructor ()
      ensures events == []
    {
      events := [];
    }

    method OnEvent(e: Event)
      modifies this
      ensures events == old(events) + [e]
    {
      events := events + [e];
    }

    // The text between two places, if there is any.
    method OnText(input: string, start: int, end: int)
      requires 0 <= start && end <= |input|
      modifies this
      ensures events == old(events) + Between(input, start, end)
    {
      if start < end {
        OnEvent(Text(input[start..end]));
      }
    }

    method OnOpening(group: int)
      modifies this
      ensures events == old(events) + Opening(group)
    {
      OnEvent(StartElement(ElementFor(group)));
      if group > 0 {
        OnEvent(Attribute(Tag("", "", "nr"), Digits(group), None));
      }
    }
  }

  /** Writes the region at the iterator and, by recursion over the same iterator, those nested
      in it; returns the end of the region and where the iterator is. */
  method AnalyzeStringEvents(input: string, start: int, regions: seq<Region>, it: nat, handler: SequenceBuilder)
    returns (end: int, next: nat)
    requires it < |regions| && InBounds(regions, |input|) && 0 <= start
    modifies handler
    ensures var w := OneRegion(input, regions, start, it);
            end == w.end && next == w.it && handler.events == old(handler.events) + w.events
    decreases |regions| - it
  {
    hide Nested, Between, Opening, ElementFor, OneRegion;
    var region := regions[it];
    OneRegionParts(input, regions, start, it);
    handler.OnText(input, start, region.start);
    handler.OnOpening(region.group);
    ghost var before := handler.events;
    var place := region.start;
    next := it + 1;
    ghost var inner, done: seq<Event> := Nested(input, regions, region.start, it + 1, region.end), [];
    while next < |regions| && regions[next].start < region.end
      invariant it < next <= |regions| && 0 <= place && handler.events == before + done
      invariant inner == After(done, Nested(input, regions, place, next, region.end))
      decreases |regions| - next
    {
      NestedStep(input, regions, place, next, region.end);
      done := done + OneRegion(input, regions, place, next).events;
      place, next := AnalyzeStringEvents(input, place, regions, next, handler);
    }
    NestedStep(input, regions, place, next, region.end);
    handler.OnText(input, place, region.end);
    handler.OnEvent(EndElement(ElementFor(region.group), None));
    assert inner.events == done + [];
    Joined(old(handler.events), Between(input, start, region.start), Opening(region.group), done,
           Between(input, place, region.end), [EndElement(ElementFor(region.group), None)]);
    return region.end, next;
  }

  lemma Joined(o: seq<Event>, a: seq<Event>, b: seq<Event>, n: seq<Event>, c: seq<Event>, d: seq<Event>)
    ensures o + a + b + n + c + d == o + (a + b + n + c + d)
  {
  }

  lemma OneRegionParts(input: string, regions: seq<Region>, start: int, it: nat)
    requires it < |regions| && InBounds(regions, |input|) && 0 <= start
    ensures var region := regions[it];
            var inner := Nested(input, regions, region.start, it + 1, region.end);
            OneRegion(input, regions, start, it) ==
              Written(Between(input, start, region.start) + Opening(region.group) + inner.events
                        + Between(input, inner.end, region.end) + [EndElement(ElementFor(region.group), None)],
                      region.end, inner.it)
  {
  }

  function After(done: seq<Event>, w: Written): Written {
    Written(done + w.events, w.end, w.it)
  }

  /** Collects the regions of the matches and their groups, and the gaps between. */
  method CollectRegions(matches: seq<Match>, length: nat) returns (regions: seq<Region>)
    ensures regions == RegionsOf(matches, length)
  {
    hide Insert;
    regions := [];
    var tokStart, i := 0, 0;
    assert matches[0..] == matches;
    while i < |matches|
      invariant i <= |matches|
      invariant WithMatches(Found(regions, tokStart), matches[i..]) == WithMatches(Found([], 0), matches)
    {
      var m, j := matches[i], 0;
      ghost var before := Found(regions, tokStart);
      while j < |m|
        invariant j <= |m| && WithGroups(Found(regions, tokStart), m, j) == WithGroups(before, m, 0)
      {
        var matchStart, matchEnd := m[j].start, m[j].end;
        if matchStart >= 0 {
          if j == 0 && tokStart < matchStart {
            regions := Insert(regions, Region(tokStart, matchStart, -1));
          }
          regions := Insert(regions, Region(matchStart, matchEnd, j));
          if matchEnd > tokStart {
            tokStart := matchEnd;
          }
        }
        j := j + 1;
      }
      assert matches[i..][1..] == matches[i + 1..];
      i := i + 1;
    }
    assert matches[i..] == [];
    if tokStart < length {
      regions := Insert(regions, Region(tokStart, length, -1));
    }
  }

  /** The whole function: its texts are together the input, and its elements are balanced. */
  method AnalyzeString(input: string, matches: seq<Match>) returns (events: seq<Event>)
    requires GoodMatches(matches, 0, |input|)
    ensures InBounds(RegionsOf(matches, |input|), |input|) && events == ResultEvents(input, matches)
    ensures TextOf(events) == input && Stack([], events) == Some([])
  {
    hide Stack, TextOf, Nested, Started, ElementsOf, GoodMatches, Laminar;
    var regions := CollectRegions(matches, |input|);
    TextConserved(input, matches);
    var builder := new SequenceBuilder();
    var result := Tag("", FUNCTION_URI, "analyze-string-result");
    builder.OnEvent(StartElement(result));
    WriteRegions(input, regions, builder);
    builder.OnEvent(EndElement(result, None));
    ResultElement(result, AllRegions(input, regions).events);
    assert builder.events == [StartElement(result)] + AllRegions(input, regions).events + [EndElement(result, None)];
    return builder.events;
  }

  function ResultEvents(input: string, matches: seq<Match>): seq<Event>
    requires InBounds(RegionsOf(matches, |input|), |input|)
  {
    var result := Tag("", FUNCTION_URI, "analyze-string-result");
    [StartElement(result)] + AllRegions(input, RegionsOf(matches, |input|)).events + [EndElement(result, None)]
  }

  // Writes all the regions.
  method WriteRegions(input: string, regions: seq<Region>, builder: SequenceBuilder)
    requires InBounds(regions, |input|)
    modifies builder
    ensures builder.events == old(builder.events) + AllRegions(input, regions).events
  {
    hide Nested, OneRegion;
    var start, it := 0, 0;
    ghost var all, done: seq<Event> := AllRegions(input, regions), [];
    while it < |regions|
      invariant it <= |regions| && 0 <= start && builder.events == old(builder.events) + done
      invariant all == After(done, Nested(input, regions, start, it, |input| + 1))
      decreases |regions| - it
    {
      NestedStep(input, regions, start, it, |input| + 1);
      done := done + OneRegion(input, regions, start, it).events;
      start, it := AnalyzeStringEvents(input, start, regions, it, builder);
    }
    NestedStep(input, regions, start, it, |input| + 1);
    assert done + [] == done;
  }

  lemma NestedStep(input: string, regions: seq<Region>, start: int, it: nat, limit: int)
    requires it <= |regions| && InBounds(regions, |input|) && 0 <= start
    ensures Nested(input, regions, start, it, limit) ==
      if it < |regions| && regions[it].start < limit then
        var first := OneRegion(input, regions, start, it);
        var rest := Nested(input, regions, first.end, first.it, limit);
        Written(first.events + rest.events, rest.end, rest.it)
      else Written([], start, it)
  {
  }

  lemma ResultElement(tag: Tag, events: seq<Event>)
    requires forall open :: Stack(open, events) == Some(open)
    ensures var all := [StartElement(tag)] + events + [EndElement(tag, None)];
            TextOf(all) == TextOf(events) && Stack([], all) == Some([])
  {
    hide Stack, TextOf;
    var first, last := [StartElement(tag)], [EndElement(tag, None)];
    NoText(first);
    NoText(last);
    TextConcat(first + events, last);
    TextConcat(first, events);
    StackCons([], StartElement(tag), []);
    StackCons([tag], EndElement(tag, None), []);
    assert first + [] == first && last + [] == last;
    StackCons([tag], StartElement(tag), []);
    StackCons([], EndElement(tag, None), []);
    assert [tag] + [] == [tag];
    assert Stack([], first) == Some([tag]);
    StackConcat([], first, events);
    StackConcat([], first + events, last);
  }
}
