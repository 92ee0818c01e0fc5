/** Reading fn:analyze-string's result. */
module AnalyzeParts {
  // What the elements of the result say: their names, their places in the text, and their
  // attributes, read from the events alone.

  import opened Options
  import opened Events
  import opened Sequences
  import opened AnalyzeString

  // An element, its attributes, and where it starts and ends in the text of all the events.
  datatype Part = Part(tag: Tag, attrs: seq<Event>, start: int, end: int)

  /** The elements in the order in which they end; at is the length of the text so far. */
  function Scan(events: seq<Event>, at: int, open: seq<Part>): seq<Part>
    decreases |events|
  {
    if events == [] then []
    else
      var rest := events[1..];
      match events[0]
      case Text(v) => Scan(rest, at + |v|, open)
      case StartElement(tag) => Scan(rest, at, [Part(tag, [], at, at)] + open)
      case Attribute(_, _, _) =>
        Scan(rest, at, if open == [] then [] else [open[0].(attrs := open[0].attrs + [events[0]])] + open[1..])
      case EndElement(_, _) =>
        if open == [] then Scan(rest, at, open) else [open[0].(end := at)] + Scan(rest, at, open[1..])
      case _ => Scan(rest, at, open)
  }

  function Parts(events: seq<Event>): seq<Part> {
    Scan(events, 0, [])
  }

  lemma ScanOne(e: Event, rest: seq<Event>, at: int, open: seq<Part>)
    ensures Scan([e] + rest, at, open) ==
      match e
      case Text(v) => Scan(rest, at + |v|, open)
      case StartElement(tag) => Scan(rest, at, [Part(tag, [], at, at)] + open)
      case Attribute(_, _, _) =>
        Scan(rest, at, if open == [] then [] else [open[0].(attrs := open[0].attrs + [e])] + open[1..])
      case EndElement(_, _) =>
        if open == [] then Scan(rest, at, open) else [open[0].(end := at)] + Scan(rest, at, open[1..])
      case _ => Scan(rest, at, open)
  {
    assert ([e] + rest)[1..] == rest;
  }

  // ----- the parts of the regions

  function AttrsFor(group: int): seq<Event> {
    if group > 0 then [Attribute(Tag("", "", "nr"), Digits(group), None)] else []
  }

  function PartOf(r: Region): Part {
    Part(ElementFor(r.group), AttrsFor(r.group), r.start, r.end)
  }

  lemma ScanBetween(input: string, a: int, b: int, rest: seq<Event>, open: seq<Part>)
    requires 0 <= a <= b <= |input|
    ensures Scan(Between(input, a, b) + rest, a, open) == Scan(rest, b, open)
  {
    if a < b {
      ScanOne(Text(input[a..b]), rest, a, open);
    } else {
      assert [] + rest == rest;
    }
  }

  lemma ScanOpening(group: int, rest: seq<Event>, at: int, open: seq<Part>)
    ensures Scan(Opening(group) + rest, at, open)
         == Scan(rest, at, [Part(ElementFor(group), AttrsFor(group), at, at)] + open)
  {
    hide ElementFor, Digits, Scan;
    var tag := ElementFor(group);
    var part := Part(tag, [], at, at);
    if group > 0 {
      var attr := Attribute(Tag("", "", "nr"), Digits(group), None);
      assert Opening(group) + rest == [StartElement(tag)] + ([attr] + rest);
      ScanOne(StartElement(tag), [attr] + rest, at, open);
      ScanOne(attr, rest, at, [part] + open);
      assert ([part] + open)[1..] == open && [] + [attr] == [attr];
    } else {
      assert Opening(group) + rest == [StartElement(tag)] + rest;
      ScanOne(StartElement(tag), rest, at, open);
    }
  }

  ghost predicate Inside(rs: seq<Region>, low: int, high: int) {
    forall i :: 0 <= i < |rs| ==> low <= rs[i].start <= rs[i].end <= high
  }

  // In the order of their ends.
  ghost predicate Ends(rs: seq<Region>) {
    forall i, j :: 0 <= i < j < |rs| ==> rs[i].end <= rs[j].end
  }

  // Of regions that take up the same text, the later groups come first.
  ghost predicate InnerFirst(rs: seq<Region>) {
    forall i, j :: 0 <= i < j < |rs| && rs[i].start == rs[j].start < rs[i].end == rs[j].end
      ==> rs[i].group > rs[j].group
  }

  lemma EndsConcat(a: seq<Region>, b: seq<Region>, low: int, mid: int, high: int)
    requires Ends(a) && Ends(b) && Inside(a, low, mid) && Inside(b, mid, high) && low <= mid <= high
    ensures Ends(a + b) && Inside(a + b, low, high)
  {
    forall i, j | 0 <= i < j < |a + b| ensures (a + b)[i].end <= (a + b)[j].end {
      if i < |a| <= j {
        assert a[i].end <= mid <= b[j - |a|].end;
      } else if j < |a| {
        assert a[i].end <= a[j].end;
      } else {
        assert b[i - |a|].end <= b[j - |a|].end;
      }
    }
  }

  lemma InnerConcat(a: seq<Region>, b: seq<Region>)
    requires InnerFirst(a) && InnerFirst(b)
    requires forall p, q :: p in a && q in b && p.start == q.start < p.end == q.end ==> p.group > q.group
    ensures InnerFirst(a + b)
  {
    var c := a + b;
    forall i, j | 0 <= i < j < |c| && c[i].start == c[j].start < c[i].end == c[j].end ensures c[i].group > c[j].group {
      if i < |a| <= j {
        assert a[i] in a && b[j - |a|] in b;
      } else if j < |a| {
        assert a[i] == c[i] && a[j] == c[j];
      } else {
        assert b[i - |a|] == c[i] && b[j - |a|] == c[j];
      }
    }
  }

  // The regions from a on and before b, as they end, which lie between two places.
  ghost predicate RegionsFor(rs: seq<Region>, regions: seq<Region>, a: nat, b: nat, low: int, high: int) {
    && a <= b <= |regions| && multiset(rs) == multiset(regions[a..b])
    && Inside(rs, low, high) && Ends(rs) && InnerFirst(rs)
  }

  lemma RegionsSplit(regions: seq<Region>, a: nat, b: nat, c: nat)
    requires a <= b <= c <= |regions|
    ensures multiset(regions[a..c]) == multiset(regions[a..b]) + multiset(regions[b..c])
  {
    assert regions[a..b] + regions[b..c] == regions[a..c];
  }

  lemma MapConcat(a: seq<Region>, b: seq<Region>)
    ensures Map(PartOf, a + b) == Map(PartOf, a) + Map(PartOf, b)
  {
    hide PartOf, Map;
  }

  lemma RegionsEnd(inside: seq<Region>, regions: seq<Region>, it: nat, b: nat, high: int)
    requires Sorted(regions) && it < |regions|
    requires RegionsFor(inside, regions, it + 1, b, regions[it].start, high)
    requires regions[it].start <= high <= regions[it].end
    ensures RegionsFor(inside + [regions[it]], regions, it, b, regions[it].start, regions[it].end)
  {
    hide Ends, InnerFirst, Sorted;
    var last := [regions[it]];
    RegionsSplit(regions, it, it + 1, b);
    assert regions[it..it + 1] == last;
    OneEnds(last);
    LastEnds(inside, regions[it], high);
    forall p | p in inside && p.start == regions[it].start && p.end == regions[it].end && p.start < p.end
      ensures p.group > regions[it].group
    {
      assert p in multiset(inside);
      LaterIsInner(regions, it, b, p);
    }
    InnerConcat(inside, last);
  }

  lemma LastEnds(inside: seq<Region>, r: Region, high: int)
    requires Ends(inside) && Inside(inside, r.start, high) && r.start <= high <= r.end
    ensures Ends(inside + [r]) && Inside(inside + [r], r.start, r.end)
  {
    var c := inside + [r];
    forall i, j | 0 <= i < j < |c| ensures c[i].end <= c[j].end {
      assert c[i] == inside[i];
      assert j < |inside| ==> inside[i].end <= inside[j].end;
    }
  }

  lemma LaterIsInner(regions: seq<Region>, it: nat, b: nat, p: Region)
    requires Sorted(regions) && it < b <= |regions| && p in regions[it + 1..b]
    requires p.start == regions[it].start && p.end == regions[it].end
    ensures p.group > regions[it].group
  {
    var k :| 0 <= k < |regions[it + 1..b]| && regions[it + 1..b][k] == p;
    assert LessThan(regions[it], regions[it + 1 + k]);
  }

  lemma OneEnds(rs: seq<Region>)
    requires |rs| <= 1
    ensures Ends(rs) && InnerFirst(rs)
  {
  }

  lemma RegionsJoin(a: seq<Region>, b: seq<Region>, regions: seq<Region>, i: nat, j: nat, k: nat, low: int, mid: int,
      high: int)
    requires RegionsFor(a, regions, i, j, low, mid) && RegionsFor(b, regions, j, k, mid, high) && low <= mid <= high
    ensures RegionsFor(a + b, regions, i, k, low, high)
  {
    hide Ends, InnerFirst;
    RegionsSplit(regions, i, j, k);
    EndsConcat(a, b, low, mid, high);
    SpansApart(a, b, low, mid, high);
    InnerConcat(a, b);
  }

  lemma SpansApart(a: seq<Region>, b: seq<Region>, low: int, mid: int, high: int)
    requires Inside(a, low, mid) && Inside(b, mid, high)
    ensures forall p, q :: p in a && q in b ==> !(p.start == q.start < p.end == q.end)
  {
  }

  // The events of a region, after those nested in it have been read.
  lemma ScanAround(input: string, region: Region, start: int, inner: Written, inside: seq<Part>, rest: seq<Event>,
      open: seq<Part>)
    requires 0 <= start <= region.start <= inner.end <= region.end <= |input|
    requires var here := [Part(ElementFor(region.group), AttrsFor(region.group), region.start, region.start)] + open;
             var tail := Between(input, inner.end, region.end) + ([EndElement(ElementFor(region.group), None)] + rest);
             Scan(inner.events + tail, region.start, here) == inside + Scan(tail, inner.end, here)
    ensures var events := Between(input, start, region.start) + Opening(region.group) + inner.events
                          + Between(input, inner.end, region.end) + [EndElement(ElementFor(region.group), None)];
            Scan(events + rest, start, open) == (inside + [PartOf(region)]) + Scan(rest, region.end, open)
  {
    hide Between, Opening, Scan, ElementFor, AttrsFor;
    var end := [EndElement(ElementFor(region.group), None)];
    var tail := Between(input, inner.end, region.end) + (end + rest);
    var here := [Part(ElementFor(region.group), AttrsFor(region.group), region.start, region.start)] + open;
    Regroup(Between(input, start, region.start), Opening(region.group), inner.events,
            Between(input, inner.end, region.end), end, rest);
    ScanBetween(input, start, region.start, Opening(region.group) + (inner.events + tail), open);
    ScanOpening(region.group, inner.events + tail, region.start, open);
    ScanBetween(input, inner.end, region.end, end + rest, here);
    ScanOne(end[0], rest, region.end, here);
    assert here[1..] == open;
    assert inside + ([PartOf(region)] + Scan(rest, region.end, open))
        == (inside + [PartOf(region)]) + Scan(rest, region.end, open);
  }

  lemma {:induction false} RegionScan(input: string, regions: seq<Region>, start: int, it: nat, rest: seq<Event>,
      open: seq<Part>) returns (rs: seq<Region>)
    requires Sorted(regions) && InBounds(regions, |input|) && it < |regions| && 0 <= start <= regions[it].start
    requires LaminarIn(regions, it, OneRegion(input, regions, start, it).it)
    ensures var w := OneRegion(input, regions, start, it);
            && Scan(w.events + rest, start, open) == Map(PartOf, rs) + Scan(rest, w.end, open)
            && RegionsFor(rs, regions, it, w.it, regions[it].start, w.end)
    decreases |regions| - it, 0
  {
    hide Nested, OneRegion, Between, Opening, Scan, Sorted, ElementFor, AttrsFor, Exact, RegionsFor, LaminarIn, PartOf;
    var region := regions[it];
    var inner := Nested(input, regions, region.start, it + 1, region.end);
    var tail := Between(input, inner.end, region.end) + ([EndElement(ElementFor(region.group), None)] + rest);
    var here := [Part(ElementFor(region.group), AttrsFor(region.group), region.start, region.start)] + open;
    OneRegionParts(input, regions, start, it);
    InnerFits(input, regions, start, it);
    var inside := NestedScan(input, regions, region.start, it + 1, region.end, tail, here);
    rs := inside + [region];
    ScanAround(input, region, start, inner, Map(PartOf, inside), rest, open);
    RegionsEnd(inside, regions, it, inner.it, inner.end);
    MapConcat(inside, [region]);
    assert Map(PartOf, [region]) == [PartOf(region)];
  }

  lemma Regroup(a: seq<Event>, b: seq<Event>, c: seq<Event>, d: seq<Event>, e: seq<Event>, rest: seq<Event>)
    ensures (a + b + c + d + e) + rest == a + (b + (c + (d + (e + rest))))
  {
  }

  // What is nested in a region ends inside it.
  lemma InnerFits(input: string, regions: seq<Region>, start: int, it: nat)
    requires Sorted(regions) && InBounds(regions, |input|) && it < |regions| && 0 <= start <= regions[it].start
    requires LaminarIn(regions, it, OneRegion(input, regions, start, it).it)
    ensures var region := regions[it];
            var inner := Nested(input, regions, region.start, it + 1, region.end);
            && OneRegion(input, regions, start, it).it == inner.it && it < inner.it
            && LaminarIn(regions, it + 1, inner.it) && region.start <= inner.end <= region.end
            && (it + 1 < |regions| ==> region.start <= regions[it + 1].start)
  {
    hide Nested, OneRegion, Sorted;
    var region := regions[it];
    var inner := Nested(input, regions, region.start, it + 1, region.end);
    OneRegionIs(input, regions, start, it);
    StartsRise(regions, it);
    NestedExact(input, regions, region.start, it + 1, region.end);
  }

  lemma {:induction false} NestedScan(input: string, regions: seq<Region>, start: int, it: nat, limit: int,
      rest: seq<Event>, open: seq<Part>) returns (rs: seq<Region>)
    requires Sorted(regions) && InBounds(regions, |input|) && it <= |regions| && 0 <= start <= |input|
    requires it < |regions| ==> start <= regions[it].start
    requires LaminarIn(regions, it, Nested(input, regions, start, it, limit).it)
    ensures var w := Nested(input, regions, start, it, limit);
            && Scan(w.events + rest, start, open) == Map(PartOf, rs) + Scan(rest, w.end, open)
            && RegionsFor(rs, regions, it, w.it, start, w.end)
    decreases |regions| - it, 1
  {
    hide OneRegion, Scan, Sorted, Exact, LaminarIn, RegionsFor, PartOf;
    var w := Nested(input, regions, start, it, limit);
    if it < |regions| && regions[it].start < limit {
      var first := OneRegion(input, regions, start, it);
      var more := Nested(input, regions, first.end, first.it, limit);
      FirstFits(input, regions, start, it, limit);
      var a := RegionScan(input, regions, start, it, more.events + rest, open);
      var b := NestedScan(input, regions, first.end, first.it, limit, rest, open);
      rs := a + b;
      MapConcat(a, b);
      assert w.events + rest == first.events + (more.events + rest);
      assert Map(PartOf, a) + (Map(PartOf, b) + Scan(rest, w.end, open)) == Map(PartOf, rs) + Scan(rest, w.end, open);
      RegionsLower(a, regions, it, first.it, regions[it].start, first.end, start);
      RegionsJoin(a, b, regions, it, first.it, w.it, start, first.end, w.end);
    } else {
      rs := [];
      assert [] + rest == rest && Map(PartOf, rs) == [];
      NoRegions(regions, it, start);
    }
  }

  lemma RegionsLower(a: seq<Region>, regions: seq<Region>, i: nat, j: nat, low: int, high: int, lower: int)
    requires RegionsFor(a, regions, i, j, low, high) && lower <= low
    ensures RegionsFor(a, regions, i, j, lower, high)
  {
  }

  lemma NoRegions(regions: seq<Region>, it: nat, at: int)
    requires it <= |regions|
    ensures RegionsFor([], regions, it, it, at, at)
  {
    assert regions[it..it] == [];
    OneEnds([]);
  }

  lemma FirstFits(input: string, regions: seq<Region>, start: int, it: nat, limit: int)
    requires Sorted(regions) && InBounds(regions, |input|) && it < |regions| && 0 <= start <= |input|
    requires start <= regions[it].start < limit
    requires LaminarIn(regions, it, Nested(input, regions, start, it, limit).it)
    ensures var first := OneRegion(input, regions, start, it);
            var more := Nested(input, regions, first.end, first.it, limit);
            && LaminarIn(regions, it, first.it) && LaminarIn(regions, first.it, more.it)
            && start <= first.end <= more.end && first.end <= |input|
            && (first.it < |regions| ==> first.end <= regions[first.it].start)
  {
    hide OneRegion, Sorted;
    var first := OneRegion(input, regions, start, it);
    RegionExact(input, regions, start, it);
    NestedExact(input, regions, first.end, first.it, limit);
  }

  // ----- decimal numbers

  function Value(s: string): int {
    if s == "" then 0 else Value(s[..|s| - 1]) * 10 + (s[|s| - 1] as int - '0' as int)
  }

  // The digits of n, without a leading zero.
  predicate IsDecimal(s: string, n: int) {
    && s != "" && (forall k :: 0 <= k < |s| ==> '0' <= s[k] <= '9')
    && Value(s) == n && (|s| > 1 ==> s[0] != '0')
  }

  lemma {:induction false} DigitsAreDecimal(n: nat)
    ensures IsDecimal(Digits(n), n) && (n > 0 ==> Digits(n)[0] != '0')
  {
    if n < 10 {
      assert Digits(n)[..0] == "";
    } else {
      DigitsAreDecimal(n / 10);
      assert Digits(n)[..|Digits(n)| - 1] == Digits(n / 10);
    }
  }

  lemma {:induction false} DecimalIsDigits(s: string, n: int)
    requires IsDecimal(s, n)
    ensures n >= 0 && s == Digits(n) && (s[0] != '0' ==> n > 0)
    decreases |s|
  {
    var front := s[..|s| - 1];
    if |s| == 1 {
      assert front == "" && Value(s) == Value(front) * 10 + (s[0] as int - '0' as int);
      assert '0' <= s[0] <= '9' && s == [s[0]];
    } else {
      assert IsDecimal(front, Value(front));
      DecimalIsDigits(front, Value(front));
      assert s == front + [s[|s| - 1]];
    }
  }

  // ----- the regions of the matches

  function PrevEnd(matches: seq<Match>, i: int, from: int): int
    requires 0 <= i <= |matches|
  {
    if i == 0 || matches[i - 1] == [] then from else matches[i - 1][0].end
  }

  function NextStart(matches: seq<Match>, i: int, length: int): int
    requires 0 <= i <= |matches|
  {
    if i == |matches| || matches[i] == [] then length else matches[i][0].start
  }

  predicate IsGroup(m: Match, low: int, p: Region) {
    exists j :: low <= j < |m| && 0 <= j && m[j].start >= 0 && p == Region(m[j].start, m[j].end, j)
  }

  // What match i adds: the gap before it, if there is one, itself and its groups.
  predicate AddedAt(matches: seq<Match>, from: int, i: int, p: Region)
    requires 0 <= i < |matches|
  {
    var gap := Region(PrevEnd(matches, i, from), NextStart(matches, i, 0), -1);
    (p == gap && gap.start < gap.end) || IsGroup(matches[i], 0, p)
  }

  predicate Added(matches: seq<Match>, from: int, p: Region) {
    exists i :: 0 <= i < |matches| && AddedAt(matches, from, i, p)
  }

  lemma {:induction false} GroupsAre(f: Found, m: Match, j: nat)
    requires Sorted(f.regions) && 1 <= j
    ensures Sorted(WithGroups(f, m, j).regions)
    ensures forall p :: p in WithGroups(f, m, j).regions <==> p in f.regions || IsGroup(m, j, p)
    decreases |m| - j
  {
    hide Sorted, Insert;
    if j < |m| {
      if m[j].start >= 0 {
        InsertIs(f.regions, Region(m[j].start, m[j].end, j));
      }
      GroupsAre(WithGroup(f, m[j], j), m, j + 1);
      forall p ensures IsGroup(m, j, p) <==>
                         IsGroup(m, j + 1, p) || (m[j].start >= 0 && p == Region(m[j].start, m[j].end, j))
      {
      }
    }
  }

  lemma MatchIs(f: Found, m: Match, length: nat)
    requires Progress(f, length) && GoodMatch(m, f.tokStart, length)
    ensures Sorted(WithGroups(f, m, 0).regions)
    ensures forall p :: p in WithGroups(f, m, 0).regions <==>
              p in f.regions || (f.tokStart < m[0].start && p == Region(f.tokStart, m[0].start, -1)) || IsGroup(m, 0, p)
  {
    hide Sorted, Insert, Progress, WithGroups, GoodMatch;
    assert Sorted(f.regions) && m != [] && m[0].start >= 0 by { ProgressMeans(f, m, length); }
    FirstGroup(f, m);
    var gap, whole := Region(f.tokStart, m[0].start, -1), Region(m[0].start, m[0].end, 0);
    var before := if f.tokStart < m[0].start then Insert(f.regions, gap) else f.regions;
    InsertIs(f.regions, gap);
    InsertIs(before, whole);
    GroupsAre(WithGroup(f, m[0], 0), m, 1);
    forall p ensures IsGroup(m, 0, p) <==> IsGroup(m, 1, p) || p == whole {
    }
  }

  lemma ProgressMeans(f: Found, m: Match, length: nat)
    requires Progress(f, length) && GoodMatch(m, f.tokStart, length)
    ensures Sorted(f.regions) && m != [] && m[0].start >= 0
  {
  }

  lemma {:induction false} MatchesAre(f: Found, matches: seq<Match>, length: nat)
    requires Progress(f, length) && GoodMatches(matches, f.tokStart, length)
    ensures forall p :: p in WithMatches(f, matches).regions <==> p in f.regions || Added(matches, f.tokStart, p)
    ensures WithMatches(f, matches).tokStart == PrevEnd(matches, |matches|, f.tokStart)
    decreases |matches|
  {
    hide Sorted, Progress, WithGroups, GoodMatch, IsGroup, AddedAt;
    if matches != [] {
      var m, g := matches[0], WithGroups(f, matches[0], 0);
      MatchIs(f, m, length);
      MatchProgress(f, m, length);
      MatchesAre(g, matches[1..], length);
      GoodAll(matches, f.tokStart, length);
      forall p ensures Added(matches, f.tokStart, p) <==>
                         AddedAt(matches, f.tokStart, 0, p) || Added(matches[1..], m[0].end, p)
      {
        AddedLater(matches, f.tokStart, p);
      }
      forall p ensures AddedAt(matches, f.tokStart, 0, p) <==>
                 (f.tokStart < m[0].start && p == Region(f.tokStart, m[0].start, -1)) || IsGroup(m, 0, p)
      {
        FirstAdded(matches, f.tokStart, p);
      }
    }
  }

  lemma FirstAdded(matches: seq<Match>, from: int, p: Region)
    requires matches != [] && matches[0] != []
    ensures var m := matches[0];
            AddedAt(matches, from, 0, p) <==>
              (from < m[0].start && p == Region(from, m[0].start, -1)) || IsGroup(m, 0, p)
  {
    hide IsGroup;
  }

  // Matches are not empty, and come one after the other.
  lemma {:induction false} GoodAll(matches: seq<Match>, from: int, length: nat)
    requires GoodMatches(matches, from, length)
    ensures forall i :: 0 <= i < |matches| ==>
              matches[i] != [] && from <= matches[i][0].start < matches[i][0].end <= length
    ensures forall i, j :: 0 <= i < j < |matches| ==> matches[i][0].end <= matches[j][0].start
    decreases |matches|
  {
    if matches != [] {
      var rest := matches[1..];
      GoodAll(rest, matches[0][0].end, length);
      assert forall i :: 0 < i < |matches| ==> matches[i] == rest[i - 1];
    }
  }

  lemma AddedLater(matches: seq<Match>, from: int, p: Region)
    requires matches != [] && forall i :: 0 <= i < |matches| ==> matches[i] != []
    ensures Added(matches, from, p) <==> AddedAt(matches, from, 0, p) || Added(matches[1..], matches[0][0].end, p)
  {
    hide IsGroup;
    var rest := matches[1..];
    forall i | 0 <= i < |rest| ensures AddedAt(rest, matches[0][0].end, i, p) <==> AddedAt(matches, from, i + 1, p) {
      assert rest[i] == matches[i + 1] && (i > 0 ==> rest[i - 1] == matches[i]);
    }
    if Added(matches, from, p) && !AddedAt(matches, from, 0, p) {
      var i :| 0 <= i < |matches| && AddedAt(matches, from, i, p);
      assert AddedAt(rest, matches[0][0].end, i - 1, p);
    }
  }

  predicate IsRegion(matches: seq<Match>, length: int, p: Region) {
    var gap := Region(PrevEnd(matches, |matches|, 0), length, -1);
    Added(matches, 0, p) || (p == gap && gap.start < gap.end)
  }

  lemma RegionsAre(matches: seq<Match>, length: nat)
    requires GoodMatches(matches, 0, length)
    ensures forall p :: p in RegionsOf(matches, length) <==> IsRegion(matches, length, p)
  {
    hide Sorted, Insert, WithMatches, Added;
    assert Progress(Found([], 0), length) by { NoProgress(length); }
    MatchesProgress(Found([], 0), matches, length);
    MatchesAre(Found([], 0), matches, length);
    var f := WithMatches(Found([], 0), matches);
    InsertIs(f.regions, Region(f.tokStart, length, -1));
  }

  // ----- the elements of the result

  const URI := "http://www.w3.org/2005/xpath-functions"

  predicate IsMatchPart(matches: seq<Match>, p: Part) {
    && p.tag == Tag("", URI, "match") && p.attrs == []
    && exists i :: 0 <= i < |matches| && matches[i] != []
                   && p.start == matches[i][0].start && p.end == matches[i][0].end
  }

  // From the end of the match before, or the beginning, to the next match, or the end.
  predicate IsGapPart(matches: seq<Match>, length: int, p: Part) {
    && p.tag == Tag("", URI, "non-match") && p.attrs == [] && p.start < p.end
    && exists i :: 0 <= i <= |matches| && p.start == PrevEnd(matches, i, 0) && p.end == NextStart(matches, i, length)
  }

  predicate IsGroupPart(matches: seq<Match>, p: Part) {
    && p.tag == Tag("", URI, "group")
    && exists i, j :: 0 <= i < |matches| && 1 <= j < |matches[i]| && matches[i][j].start >= 0
                      && p.start == matches[i][j].start && p.end == matches[i][j].end && IsNumbered(p.attrs, j)
  }

  predicate IsNumbered(attrs: seq<Event>, j: int) {
    && |attrs| == 1 && attrs[0].Attribute?
    && attrs[0].tag == Tag("", "", "nr") && attrs[0].typed == None && IsDecimal(attrs[0].value, j)
  }

  predicate Described(matches: seq<Match>, length: int, p: Part) {
    IsMatchPart(matches, p) || IsGapPart(matches, length, p) || IsGroupPart(matches, p)
  }

  lemma NumberedIs(attrs: seq<Event>, j: nat)
    ensures IsNumbered(attrs, j) <==> attrs == [Attribute(Tag("", "", "nr"), Digits(j), None)]
  {
    DigitsAreDecimal(j);
    if IsNumbered(attrs, j) {
      DecimalIsDigits(attrs[0].value, j);
      assert attrs == [attrs[0]];
    }
  }

  lemma PartIs(r: Region, p: Part)
    ensures r.group == -1 ==>
              (PartOf(r) == p <==>
                 p.tag == Tag("", URI, "non-match") && p.attrs == [] && p.start == r.start && p.end == r.end)
    ensures r.group == 0 ==>
              (PartOf(r) == p <==>
                 p.tag == Tag("", URI, "match") && p.attrs == [] && p.start == r.start && p.end == r.end)
    ensures r.group > 0 ==>
              (PartOf(r) == p <==>
                 p.tag == Tag("", URI, "group") && IsNumbered(p.attrs, r.group) && p.start == r.start && p.end == r.end)
  {
    hide IsNumbered, Digits;
    if r.group > 0 {
      NumberedIs(p.attrs, r.group);
    }
  }

  // The parts of the regions are those described.
  lemma RegionDescribed(matches: seq<Match>, length: nat, r: Region)
    requires GoodMatches(matches, 0, length) && IsRegion(matches, length, r)
    ensures r.group >= -1 && Described(matches, length, PartOf(r))
  {
    hide IsNumbered, Digits, PartOf;
    GoodAll(matches, 0, length);
    PartIs(r, PartOf(r));
    if Added(matches, 0, r) {
      var i :| 0 <= i < |matches| && AddedAt(matches, 0, i, r);
      if r.group > 0 {
        assert IsGroup(matches[i], 0, r);
        assert IsGroupPart(matches, PartOf(r));
      } else if r.group == 0 {
        assert IsGroup(matches[i], 0, r);
        assert IsMatchPart(matches, PartOf(r));
      } else {
        assert IsGapPart(matches, length, PartOf(r));
      }
    } else {
      assert IsGapPart(matches, length, PartOf(r));
    }
  }

  lemma DescribedRegion(matches: seq<Match>, length: nat, p: Part) returns (r: Region)
    requires GoodMatches(matches, 0, length) && Described(matches, length, p)
    ensures IsRegion(matches, length, r) && PartOf(r) == p
  {
    hide IsNumbered, Digits, PartOf;
    GoodAll(matches, 0, length);
    if IsMatchPart(matches, p) {
      var i :| 0 <= i < |matches| && matches[i] != [] && p.start == matches[i][0].start && p.end == matches[i][0].end;
      r := Region(p.start, p.end, 0);
      assert IsGroup(matches[i], 0, r);
      assert AddedAt(matches, 0, i, r);
    } else if IsGapPart(matches, length, p) {
      var i :| 0 <= i <= |matches| && p.start == PrevEnd(matches, i, 0) && p.end == NextStart(matches, i, length);
      r := Region(p.start, p.end, -1);
      if i < |matches| {
        assert AddedAt(matches, 0, i, r);
      }
    } else {
      var i, j :| 0 <= i < |matches| && 1 <= j < |matches[i]| && matches[i][j].start >= 0
                  && p.start == matches[i][j].start && p.end == matches[i][j].end && IsNumbered(p.attrs, j);
      r := Region(p.start, p.end, j);
      assert IsGroup(matches[i], 0, r);
      assert AddedAt(matches, 0, i, r);
    }
    PartIs(r, p);
  }

  // ----- each once

  lemma PartOfInjective(r: Region, q: Region)
    requires r.group >= -1 && q.group >= -1 && PartOf(r) == PartOf(q)
    ensures r == q
  {
    if r.group > 0 && q.group > 0 {
      DigitsAreDecimal(r.group);
      DigitsAreDecimal(q.group);
      assert AttrsFor(r.group)[0].value == AttrsFor(q.group)[0].value;
    }
  }

  lemma {:induction false} CountOnce(s: seq<Region>, p: Part)
    requires (forall r :: multiset(s)[r] <= 1) && forall r :: r in s ==> r.group >= -1
    ensures multiset(Map(PartOf, s))[p] == if exists r :: r in s && PartOf(r) == p then 1 else 0
  {
    hide PartOf;
    if s != [] {
      var rest := s[1..];
      assert s == [s[0]] + rest;
      OnceTail(s);
      CountOnce(rest, p);
      MapConcat([s[0]], rest);
      assert Map(PartOf, [s[0]]) == [PartOf(s[0])];
      forall r | r in rest && PartOf(r) == PartOf(s[0]) ensures r == s[0] {
        PartOfInjective(r, s[0]);
      }
    }
  }

  lemma OnceTail(s: seq<Region>)
    requires s != [] && forall r :: multiset(s)[r] <= 1
    ensures s[0] !in s[1..] && forall r :: multiset(s[1..])[r] <= 1
  {
    assert s == [s[0]] + s[1..];
    assert multiset(s) == multiset{s[0]} + multiset(s[1..]);
    forall r ensures multiset(s[1..])[r] <= 1 {
      assert multiset(s)[r] == multiset{s[0]}[r] + multiset(s[1..])[r];
    }
    assert multiset(s)[s[0]] == 1 + multiset(s[1..])[s[0]];
    assert s[0] !in multiset(s[1..]);
  }

  lemma {:induction false} SortedOnce(s: seq<Region>, r: Region)
    requires Sorted(s)
    ensures multiset(s)[r] <= 1
  {
    if s != [] {
      assert s == [s[0]] + s[1..];
      SortedTail(s);
      SortedOnce(s[1..], r);
    }
  }

  lemma SortedTail(s: seq<Region>)
    requires Sorted(s) && s != []
    ensures Sorted(s[1..]) && s[0] !in s[1..]
  {
    assert forall k :: 0 <= k < |s[1..]| ==> LessThan(s[0], s[1..][k]);
    assert !LessThan(s[0], s[0]);
  }

  // ----- the order of the elements

  ghost predicate EndsRise(parts: seq<Part>) {
    forall i, j :: 0 <= i < j < |parts| ==> parts[i].end <= parts[j].end
  }

  // p is inside q, where both take up the same text: a group in its match, or in a group with a
  // smaller number.
  ghost predicate IsInner(p: Part, q: Part) {
    || q.tag == Tag("", URI, "non-match")
    || (p.tag == Tag("", URI, "group")
        && (q.tag == Tag("", URI, "match")
            || exists a, b :: IsNumbered(p.attrs, a) && IsNumbered(q.attrs, b) && a > b))
  }

  ghost predicate InnerEndFirst(parts: seq<Part>) {
    forall i, j :: 0 <= i < j < |parts| && parts[i].start == parts[j].start < parts[i].end == parts[j].end ==>
      IsInner(parts[i], parts[j])
  }

  lemma OrderOfParts(rs: seq<Region>)
    requires Ends(rs) && InnerFirst(rs) && forall r :: r in rs ==> r.group >= -1
    ensures EndsRise(Map(PartOf, rs)) && InnerEndFirst(Map(PartOf, rs))
  {
    hide PartOf, IsInner, Ends, InnerFirst, Map;
    var parts := Map(PartOf, rs);
    forall i, j | 0 <= i < j < |parts|
      ensures parts[i].end <= parts[j].end
      ensures parts[i].start == parts[j].start < parts[i].end == parts[j].end ==> IsInner(parts[i], parts[j])
    {
      PlaceOf(rs[i]);
      PlaceOf(rs[j]);
      assert rs[i] in rs && rs[j] in rs;
      TwoOfThese(rs, i, j);
      if rs[i].group > rs[j].group {
        InnerIs(rs[i], rs[j]);
      }
    }
  }

  lemma TwoOfThese(rs: seq<Region>, i: nat, j: nat)
    requires Ends(rs) && InnerFirst(rs) && i < j < |rs|
    ensures rs[i].end <= rs[j].end
    ensures rs[i].start == rs[j].start < rs[i].end == rs[j].end ==> rs[i].group > rs[j].group
  {
  }

  lemma InnerIs(r: Region, q: Region)
    requires r.group > q.group >= -1
    ensures IsInner(PartOf(r), PartOf(q))
  {
    hide IsNumbered, Digits;
    PartIs(r, PartOf(r));
    PartIs(q, PartOf(q));
    if q.group > 0 {
      assert IsNumbered(PartOf(r).attrs, r.group) && IsNumbered(PartOf(q).attrs, q.group);
    }
  }

  lemma PlaceOf(r: Region)
    ensures PartOf(r).start == r.start && PartOf(r).end == r.end
  {
  }

  /** The elements of the result are the matches, the non-empty gaps and the groups that took
      part, each exactly once, in the order of their ends, with groups inside what takes up the
      same text; and around them the result element. */
  lemma PartsExact(input: string, matches: seq<Match>)
    requires GoodMatches(matches, 0, |input|)
    ensures InBounds(RegionsOf(matches, |input|), |input|)
    ensures var parts := Parts(ResultEvents(input, matches)); var n := |parts| - 1;
            && n >= 0 && parts[n] == Part(Tag("", URI, "analyze-string-result"), [], 0, |input|)
            && (forall p :: multiset(parts[..n])[p] == if Described(matches, |input|, p) then 1 else 0)
            && EndsRise(parts[..n]) && InnerEndFirst(parts[..n])
  {
    hide Scan, Sorted, Nested, RegionsOf, TextOf, Described, IsRegion, PartOf, Laminar, Stack, Started, ElementsOf;
    hide GoodMatches, EndsRise, InnerEndFirst, Ends, InnerFirst, Inside, LaminarIn, Balanced, Exact, Progress, Map;
    TextConserved(input, matches);
    var regions, result := RegionsOf(matches, |input|), Tag("", FUNCTION_URI, "analyze-string-result");
    var all, start, end := AllRegions(input, regions), StartElement(result), EndElement(result, None);
    AllLaminar(regions);
    var open := [Part(result, [], 0, 0)];
    var rs := NestedScan(input, regions, 0, 0, |input| + 1, [end], open);
    var parts := Map(PartOf, rs);
    ScanOne(start, all.events + [end], 0, []);
    ScanOne(end, [], |input|, open);
    assert [start] + (all.events + [end]) == ResultEvents(input, matches);
    assert [end] + [] == [end] && open + [] == open && open[1..] == [];
    var last := Part(result, [], 0, |input|);
    ScanNothing();
    assert [last] + [] == [last];
    assert Parts(ResultEvents(input, matches)) == parts + [last];
    assert (parts + [last])[..|parts|] == parts;
    assert regions[0..|regions|] == regions;
    forall p ensures multiset(parts)[p] == if Described(matches, |input|, p) then 1 else 0 {
      PartCounted(input, matches, rs, p);
    }
    forall r | r in rs ensures r.group >= -1 {
      assert r in multiset(rs);
      RegionsAre(matches, |input|);
      RegionDescribed(matches, |input|, r);
    }
    OrderOfParts(rs);
  }

  lemma ScanNothing()
    ensures forall at, open :: Scan([], at, open) == []
  {
  }

  lemma AllLaminar(regions: seq<Region>)
    requires Laminar(regions)
    ensures LaminarIn(regions, 0, |regions|)
  {
  }

  lemma PartCounted(input: string, matches: seq<Match>, rs: seq<Region>, p: Part)
    requires GoodMatches(matches, 0, |input|) && multiset(rs) == multiset(RegionsOf(matches, |input|))
    ensures multiset(Map(PartOf, rs))[p] == if Described(matches, |input|, p) then 1 else 0
  {
    hide Sorted, RegionsOf, Described, IsRegion, PartOf, GoodMatches, Map, Nested, TextOf, Stack, Started, ElementsOf;
    hide Laminar;
    var regions := RegionsOf(matches, |input|);
    TextConserved(input, matches);
    RegionsAre(matches, |input|);
    forall r ensures r in rs <==> r in regions {
      assert r in rs <==> r in multiset(rs);
    }
    forall r ensures multiset(rs)[r] <= 1 {
      SortedOnce(regions, r);
    }
    forall r | r in rs ensures r.group >= -1 && Described(matches, |input|, PartOf(r)) {
      RegionDescribed(matches, |input|, r);
    }
    CountOnce(rs, p);
    if Described(matches, |input|, p) {
      var r := DescribedRegion(matches, |input|, p);
      assert r in rs;
    }
  }

  // ----- the texts, in order

  // The texts inside the elements with this name.
  function TextsNamed(input: string, parts: seq<Part>, name: string): seq<string>
    requires forall p :: p in parts ==> 0 <= p.start <= p.end <= |input|
  {
    if parts == [] then []
    else (if parts[0].tag.name == name then [input[parts[0].start..parts[0].end]] else [])
         + TextsNamed(input, parts[1..], name)
  }

  function MatchTexts(input: string, matches: seq<Match>): seq<string>
    requires forall i :: 0 <= i < |matches| ==>
               matches[i] != [] && 0 <= matches[i][0].start <= matches[i][0].end <= |input|
  {
    if matches == [] then []
    else [input[matches[0][0].start..matches[0][0].end]] + MatchTexts(input, matches[1..])
  }

  // The texts between the matches and around them that are not empty.
  function GapTexts(input: string, matches: seq<Match>, from: int): seq<string>
    requires 0 <= from <= |input| && GoodMatches(matches, from, |input|)
    decreases |matches|
  {
    if matches == [] then (if from < |input| then [input[from..]] else [])
    else (if from < matches[0][0].start then [input[from..matches[0][0].start]] else [])
         + GapTexts(input, matches[1..], matches[0][0].end)
  }

  predicate IsNamed(p: Part, name: string) {
    p.tag.name == name
  }

  function Named(parts: seq<Part>, name: string): seq<Part> {
    Filter((p: Part) => IsNamed(p, name), parts)
  }

  function Texts(input: string, parts: seq<Part>): seq<string>
    requires forall p :: p in parts ==> 0 <= p.start <= p.end <= |input|
  {
    if parts == [] then [] else [input[parts[0].start..parts[0].end]] + Texts(input, parts[1..])
  }

  lemma {:induction false} TextsOfNamed(input: string, parts: seq<Part>, name: string)
    requires forall p :: p in parts ==> 0 <= p.start <= p.end <= |input|
    ensures TextsNamed(input, parts, name) == Texts(input, Named(parts, name))
  {
    if parts != [] {
      TextsOfNamed(input, parts[1..], name);
      assert ([parts[0]] + Named(parts[1..], name))[1..] == Named(parts[1..], name);
    }
  }

  function MatchParts(matches: seq<Match>): seq<Part> {
    if matches == [] then []
    else if matches[0] == [] then MatchParts(matches[1..])
    else [Part(Tag("", URI, "match"), [], matches[0][0].start, matches[0][0].end)] + MatchParts(matches[1..])
  }

  function GapParts(matches: seq<Match>, from: int, length: int): seq<Part>
    decreases |matches|
  {
    var start, end := from, NextStart(matches, 0, length);
    (if start < end then [Part(Tag("", URI, "non-match"), [], start, end)] else [])
    + if matches == [] then [] else GapParts(matches[1..], PrevEnd(matches, 1, from), length)
  }

  // Strictly, and from a place on.
  ghost predicate EndsClimb(parts: seq<Part>, from: int) {
    && (forall i :: 0 <= i < |parts| ==> from < parts[i].end)
    && forall i, j :: 0 <= i < j < |parts| ==> parts[i].end < parts[j].end
  }

  lemma ClimbCons(p: Part, rest: seq<Part>, from: int)
    requires from < p.end && EndsClimb(rest, p.end)
    ensures EndsClimb([p] + rest, from)
  {
  }

  lemma ClimbFrom(parts: seq<Part>, from: int, low: int)
    requires EndsClimb(parts, from) && low <= from
    ensures EndsClimb(parts, low)
  {
  }

  lemma {:induction false} MatchPartsClimb(matches: seq<Match>, from: int, length: nat)
    requires GoodMatches(matches, from, length)
    ensures EndsClimb(MatchParts(matches), from)
    ensures forall p :: p in MatchParts(matches) ==> from <= p.start <= p.end <= length
    decreases |matches|
  {
    hide EndsClimb;
    if matches == [] {
      assert EndsClimb([], from) by { NoneClimb(from); }
    } else {
      var m := matches[0];
      MatchPartsClimb(matches[1..], m[0].end, length);
      ClimbCons(Part(Tag("", URI, "match"), [], m[0].start, m[0].end), MatchParts(matches[1..]), from);
      GoodAll(matches, from, length);
    }
  }

  lemma NoneClimb(from: int)
    ensures EndsClimb([], from)
  {
  }

  lemma {:induction false} GapPartsClimb(matches: seq<Match>, from: int, length: nat)
    requires GoodMatches(matches, from, length) && from <= length
    ensures EndsClimb(GapParts(matches, from, length), from)
    ensures forall p :: p in GapParts(matches, from, length) ==> from <= p.start <= p.end <= length
    decreases |matches|
  {
    hide EndsClimb;
    var end := NextStart(matches, 0, length);
    var gap := Part(Tag("", URI, "non-match"), [], from, end);
    NoneClimb(end);
    if matches == [] {
      NoneClimb(from);
      if from < end {
        ClimbCons(gap, [], from);
      }
      assert GapParts(matches, from, length) == if from < end then [gap] + [] else [];
    } else {
      var m := matches[0];
      var rest := GapParts(matches[1..], m[0].end, length);
      GoodAll(matches, from, length);
      GapPartsClimb(matches[1..], m[0].end, length);
      if from < end {
        ClimbFrom(rest, m[0].end, end);
        ClimbCons(gap, rest, from);
      } else {
        ClimbFrom(rest, m[0].end, from);
        assert [] + rest == rest;
      }
    }
  }

  lemma {:induction false} MatchPartsAre(matches: seq<Match>, p: Part)
    ensures p in MatchParts(matches) <==> IsMatchPart(matches, p)
  {
    if matches != [] {
      var rest := matches[1..];
      MatchPartsAre(rest, p);
      assert forall i :: 0 < i < |matches| ==> matches[i] == rest[i - 1];
      if IsMatchPart(rest, p) {
        var i :| 0 <= i < |rest| && rest[i] != [] && p.start == rest[i][0].start && p.end == rest[i][0].end;
        assert matches[i + 1] == rest[i];
      }
    }
  }

  predicate IsGapFrom(matches: seq<Match>, from: int, length: int, p: Part) {
    && p.tag == Tag("", URI, "non-match") && p.attrs == [] && p.start < p.end
    && exists i :: 0 <= i <= |matches| && p.start == PrevEnd(matches, i, from) && p.end == NextStart(matches, i, length)
  }

  lemma {:induction false} GapPartsAre(matches: seq<Match>, from: int, length: nat, p: Part)
    requires forall i :: 0 <= i < |matches| ==> matches[i] != []
    ensures p in GapParts(matches, from, length) <==> IsGapFrom(matches, from, length, p)
    decreases |matches|
  {
    if matches != [] {
      var rest, next := matches[1..], matches[0][0].end;
      GapPartsAre(rest, next, length, p);
      forall i | 0 <= i <= |rest|
        ensures PrevEnd(rest, i, next) == PrevEnd(matches, i + 1, from)
        ensures NextStart(rest, i, length) == NextStart(matches, i + 1, length)
      {
      }
      if IsGapFrom(matches, from, length, p) {
        var i :| 0 <= i <= |matches| && p.start == PrevEnd(matches, i, from) && p.end == NextStart(matches, i, length);
        if i > 0 {
          assert p.start == PrevEnd(rest, i - 1, next) && p.end == NextStart(rest, i - 1, length);
        }
      }
      if IsGapFrom(rest, next, length, p) {
        var i :| 0 <= i <= |rest| && p.start == PrevEnd(rest, i, next) && p.end == NextStart(rest, i, length);
        assert p.start == PrevEnd(matches, i + 1, from) && p.end == NextStart(matches, i + 1, length);
      }
    }
  }

  lemma {:induction false} ClimbCounts(t: seq<Part>, from: int, p: Part)
    requires EndsClimb(t, from)
    ensures multiset(t)[p] == if p in t then 1 else 0
  {
    if t != [] {
      var rest := t[1..];
      assert t == [t[0]] + rest;
      assert EndsClimb(rest, t[0].end);
      ClimbCounts(rest, t[0].end, p);
    }
  }

  lemma {:induction false} FilterCounts(s: seq<Part>, name: string, p: Part)
    ensures multiset(Named(s, name))[p] == if IsNamed(p, name) then multiset(s)[p] else 0
  {
    if s != [] {
      FilterCounts(s[1..], name, p);
      assert s == [s[0]] + s[1..];
    }
  }

  lemma {:induction false} FilterRises(s: seq<Part>, name: string)
    requires EndsRise(s)
    ensures EndsRise(Named(s, name)) && forall p :: p in Named(s, name) ==> p in s
  {
    if s != [] {
      var rest := Named(s[1..], name);
      FilterRises(s[1..], name);
      forall j | 0 <= j < |rest| ensures s[0].end <= rest[j].end {
        assert rest[j] in s[1..];
      }
      forall i, j | 0 <= i < j < |[s[0]] + rest| ensures ([s[0]] + rest)[i].end <= ([s[0]] + rest)[j].end {
        if i > 0 {
          assert rest[i - 1].end <= rest[j - 1].end;
        }
      }
    }
  }

  // The order of the ends determines a sequence of parts that end at different places.
  lemma {:induction false} RisingUnique(s: seq<Part>, t: seq<Part>, from: int)
    requires EndsRise(s) && EndsClimb(t, from) && multiset(s) == multiset(t)
    ensures s == t
    decreases |s|
  {
    hide EndsRise, EndsClimb;
    assert |s| == |multiset(s)| == |multiset(t)| == |t|;
    if s != [] {
      assert s[0] in multiset(t) && t[0] in multiset(s);
      FirstEnds(s, t, from);
      TailsRise(s, t, from);
      SameTails(s, t);
      RisingUnique(s[1..], t[1..], t[0].end);
      assert s == [s[0]] + s[1..] && t == [t[0]] + t[1..];
    }
  }

  lemma TailsRise(s: seq<Part>, t: seq<Part>, from: int)
    requires EndsRise(s) && EndsClimb(t, from) && s != [] && t != []
    ensures EndsRise(s[1..]) && EndsClimb(t[1..], t[0].end)
  {
    assert forall i :: 0 <= i < |s| - 1 ==> s[1..][i] == s[i + 1];
    assert forall i :: 0 <= i < |t| - 1 ==> t[1..][i] == t[i + 1];
  }

  lemma SameTails(s: seq<Part>, t: seq<Part>)
    requires s != [] && t != [] && s[0] == t[0] && multiset(s) == multiset(t)
    ensures multiset(s[1..]) == multiset(t[1..])
  {
    assert s == [s[0]] + s[1..] && t == [t[0]] + t[1..];
    assert multiset(s) == multiset{s[0]} + multiset(s[1..]);
    assert multiset(t) == multiset{t[0]} + multiset(t[1..]);
    assert multiset(s[1..]) == multiset(s) - multiset{s[0]};
  }

  lemma FirstEnds(s: seq<Part>, t: seq<Part>, from: int)
    requires EndsRise(s) && EndsClimb(t, from) && s != [] && t != [] && s[0] in t && t[0] in s
    ensures s[0] == t[0]
  {
    hide EndsRise, EndsClimb;
    FirstRises(s);
    FirstClimbs(t, from);
  }

  lemma FirstRises(s: seq<Part>)
    requires EndsRise(s) && s != []
    ensures forall p :: p in s ==> s[0].end <= p.end
  {
  }

  lemma FirstClimbs(t: seq<Part>, from: int)
    requires EndsClimb(t, from) && t != []
    ensures forall p :: p in t && p != t[0] ==> t[0].end < p.end
  {
  }

  /** The texts inside the elements named match are those of the matches, in order; the texts
      inside those named non-match are those of the gaps that are not empty, in order. */
  lemma TextsInOrder(input: string, matches: seq<Match>)
    requires GoodMatches(matches, 0, |input|)
    ensures InBounds(RegionsOf(matches, |input|), |input|)
    ensures forall i :: 0 <= i < |matches| ==>
               matches[i] != [] && 0 <= matches[i][0].start <= matches[i][0].end <= |input|
    ensures var parts := Parts(ResultEvents(input, matches));
            && |parts| > 0 && (forall p :: p in parts ==> 0 <= p.start <= p.end <= |input|)
            && TextsNamed(input, parts, "match") == MatchTexts(input, matches)
            && TextsNamed(input, parts, "non-match") == GapTexts(input, matches, 0)
  {
    hide Scan, RegionsOf, ResultEvents, Described, EndsRise, Named, GoodMatches;
    hide MatchParts, GapParts, MatchTexts, GapTexts;
    hide TextsNamed, Texts;
    GoodAll(matches, 0, |input|);
    PartsExact(input, matches);
    var all := Parts(ResultEvents(input, matches));
    var parts := all[..|all| - 1];
    assert all == parts + [all[|all| - 1]];
    PartsInBounds(input, matches, parts);
    NamedInOrder(matches, |input|, parts);
    TextsOfNamed(input, all, "match");
    TextsOfNamed(input, all, "non-match");
    LastNotNamed(parts, all[|all| - 1]);
    MatchPartsClimb(matches, 0, |input|);
    GapPartsClimb(matches, 0, |input|);
    TextsOfMatches(input, matches);
    TextsOfGaps(input, matches, 0);
  }

  lemma NamedInOrder(matches: seq<Match>, length: nat, parts: seq<Part>)
    requires GoodMatches(matches, 0, length) && EndsRise(parts)
    requires forall p :: multiset(parts)[p] == if Described(matches, length, p) then 1 else 0
    ensures Named(parts, "match") == MatchParts(matches) && Named(parts, "non-match") == GapParts(matches, 0, length)
  {
    hide Described, EndsRise, EndsClimb, Named, GoodMatches, MatchParts, GapParts;
    MatchPartsClimb(matches, 0, length);
    GapPartsClimb(matches, 0, length);
    forall p
      ensures multiset(Named(parts, "match"))[p] == multiset(MatchParts(matches))[p]
      ensures multiset(Named(parts, "non-match"))[p] == multiset(GapParts(matches, 0, length))[p]
    {
      NamedCounts(matches, length, parts, p);
    }
    FilterRises(parts, "match");
    FilterRises(parts, "non-match");
    RisingUnique(Named(parts, "match"), MatchParts(matches), 0);
    RisingUnique(Named(parts, "non-match"), GapParts(matches, 0, length), 0);
  }

  lemma LastNotNamed(parts: seq<Part>, last: Part)
    requires last.tag.name == "analyze-string-result"
    ensures Named(parts + [last], "match") == Named(parts, "match")
    ensures Named(parts + [last], "non-match") == Named(parts, "non-match")
  {
    FilterConcat((p: Part) => IsNamed(p, "match"), parts, [last]);
    FilterConcat((p: Part) => IsNamed(p, "non-match"), parts, [last]);
  }

  lemma PartsInBounds(input: string, matches: seq<Match>, parts: seq<Part>)
    requires GoodMatches(matches, 0, |input|)
    requires forall p :: multiset(parts)[p] == if Described(matches, |input|, p) then 1 else 0
    ensures forall p :: p in parts ==> 0 <= p.start <= p.end <= |input|
  {
    hide PartOf, IsRegion, RegionsOf, Described, Nested, TextOf, Stack, Started, ElementsOf, Laminar, Sorted;
    TextConserved(input, matches);
    RegionsAre(matches, |input|);
    forall p | p in parts ensures 0 <= p.start <= p.end <= |input| {
      assert p in multiset(parts);
      var r := DescribedRegion(matches, |input|, p);
      assert r in RegionsOf(matches, |input|);
      assert PartOf(r).start == r.start && PartOf(r).end == r.end by { PlaceOf(r); }
    }
  }

  lemma NamedCounts(matches: seq<Match>, length: nat, parts: seq<Part>, p: Part)
    requires GoodMatches(matches, 0, length)
    requires forall q :: multiset(parts)[q] == if Described(matches, length, q) then 1 else 0
    ensures multiset(Named(parts, "match"))[p] == multiset(MatchParts(matches))[p]
    ensures multiset(Named(parts, "non-match"))[p] == multiset(GapParts(matches, 0, length))[p]
  {
    hide EndsClimb, MatchParts, GapParts, Named, GoodMatches;
    FilterCounts(parts, "match", p);
    FilterCounts(parts, "non-match", p);
    GoodAll(matches, 0, length);
    MatchPartsClimb(matches, 0, length);
    GapPartsClimb(matches, 0, length);
    ClimbCounts(MatchParts(matches), 0, p);
    ClimbCounts(GapParts(matches, 0, length), 0, p);
    MatchPartsAre(matches, p);
    GapPartsAre(matches, 0, length, p);
  }

  lemma {:induction false} TextsOfMatches(input: string, matches: seq<Match>)
    requires forall i :: 0 <= i < |matches| ==>
               matches[i] != [] && 0 <= matches[i][0].start <= matches[i][0].end <= |input|
    requires forall p :: p in MatchParts(matches) ==> 0 <= p.start <= p.end <= |input|
    ensures Texts(input, MatchParts(matches)) == MatchTexts(input, matches)
  {
    if matches != [] {
      TextsOfMatches(input, matches[1..]);
      assert MatchParts(matches)[1..] == MatchParts(matches[1..]);
    }
  }

  lemma {:induction false} TextsOfGaps(input: string, matches: seq<Match>, from: int)
    requires 0 <= from <= |input| && GoodMatches(matches, from, |input|)
    requires forall p :: p in GapParts(matches, from, |input|) ==> 0 <= p.start <= p.end <= |input|
    ensures Texts(input, GapParts(matches, from, |input|)) == GapTexts(input, matches, from)
    decreases |matches|
  {
    hide GoodMatch;
    var gaps := GapParts(matches, from, |input|);
    if matches == [] {
      assert gaps == if from < |input| then [Part(Tag("", URI, "non-match"), [], from, |input|)] else [];
      assert input[from..|input|] == input[from..];
    } else {
      GoodAll(matches, from, |input|);
      var rest := GapParts(matches[1..], matches[0][0].end, |input|);
      var here: seq<Part> :=
        if from < matches[0][0].start then [Part(Tag("", URI, "non-match"), [], from, matches[0][0].start)] else [];
      assert gaps == here + rest;
      assert forall p :: p in rest ==> p in gaps;
      TextsOfGaps(input, matches[1..], matches[0][0].end);
      TextsJoin(input, here, rest);
    }
  }

  lemma TextsJoin(input: string, here: seq<Part>, rest: seq<Part>)
    requires |here| <= 1 && forall p :: p in here + rest ==> 0 <= p.start <= p.end <= |input|
    ensures forall p :: p in here ==> p in here + rest
    ensures forall p :: p in rest ==> p in here + rest
    ensures Texts(input, here + rest)
         == (if here == [] then [] else [input[here[0].start..here[0].end]]) + Texts(input, rest)
  {
    assert forall p :: p in here ==> p in here + rest;
    assert forall p :: p in rest ==> p in here + rest;
    if here != [] {
      assert (here + rest)[1..] == rest;
    } else {
      assert here + rest == rest;
    }
  }
}
