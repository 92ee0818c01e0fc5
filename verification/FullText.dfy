/** Full-text matches: what a conjunction delivers, what the order and distance filters keep,
    and when a phrase matches. */
module FullText {
  import opened Sequences
  import StableSort

  // One word of the query at one position of the text.
  datatype StringMatch = StringMatch(queryPos: nat, position: nat)

  type Match = seq<StringMatch>

  // ----- conjunction

  // One operand: the matches not fetched yet, those fetched, and where the reader is.
  datatype Buffered = Buffered(source: seq<Match>, buffer: seq<Match>, it: nat, reset: bool)

  predicate Sound(b: Buffered) {
    b.it <= |b.buffer|
  }

  function AllOf(b: Buffered): seq<Match> {
    b.buffer + b.source
  }

  function ResetOf(b: Buffered): Buffered {
    b.(it := 0, reset := true)
  }

  // Whether there is a next match, and the reader afterwards.
  function NextOf(b: Buffered): (bool, Buffered) {
    if b.it < |b.buffer| && (b.reset || b.it + 1 < |b.buffer|) then
      (true, if b.reset then b.(reset := false) else b.(it := b.it + 1))
    else if b.source == [] then
      (false, b.(it := |b.buffer|))
    else
      (true, b.(source := b.source[1..], buffer := b.buffer + [b.source[0]], it := |b.buffer|))
  }

  // What next will deliver, up to the end of this pass.
  function Rest(b: Buffered): seq<Match> {
    if b.it < |b.buffer| then (if b.reset then b.buffer[b.it..] else b.buffer[b.it + 1..]) + b.source
    else if b.reset && b.source != [] then [b.source[0]] + b.source
    else b.source
  }

  predicate HasCurrent(b: Buffered) {
    b.it < |b.buffer|
  }

  function Current(b: Buffered): Match
    requires HasCurrent(b)
  {
    b.buffer[b.it]
  }

  /** Reading on delivers the rest of the pass, one match at a time; nothing is lost. */
  lemma NextDelivers(b: Buffered)
    requires Sound(b)
    ensures var (found, c) := NextOf(b);
            && Sound(c) && AllOf(c) == AllOf(b) && (found <==> Rest(b) != [])
            && (found ==> HasCurrent(c) && Rest(b) == [Current(c)] + Rest(c))
            && (HasCurrent(b) ==> c.buffer != [])
            && (!found ==> c.buffer == b.buffer && c.source == b.source)
  {
    if b.it >= |b.buffer| || (!b.reset && b.it + 1 == |b.buffer|) {
      FetchDelivers(b);
    } else {
      StepDelivers(b);
    }
  }

  // Within the buffer, the next match is the one after the reader, or the one at it after a reset.
  lemma StepDelivers(b: Buffered)
    requires b.it < |b.buffer| && (b.reset || b.it + 1 < |b.buffer|)
    ensures var (found, c) := NextOf(b);
            && found && AllOf(c) == AllOf(b) && HasCurrent(c) && Rest(b) == [Current(c)] + Rest(c)
            && c.buffer == b.buffer
  {
    var k := if b.reset then b.it else b.it + 1;
    assert b.buffer[k..] == [b.buffer[k]] + b.buffer[k + 1..];
  }

  // Behind the buffer, the next match comes from the source.
  lemma FetchDelivers(b: Buffered)
    requires Sound(b) && (b.it == |b.buffer| || (!b.reset && b.it + 1 == |b.buffer|))
    ensures var (found, c) := NextOf(b);
            && AllOf(c) == AllOf(b) && found == (b.source != []) && (found <==> Rest(b) != [])
            && (found ==> HasCurrent(c) && Rest(b) == [Current(c)] + Rest(c))
  {
    if b.source != [] {
      var first, more := b.source[0], b.source[1..];
      var c := b.(source := more, buffer := b.buffer + [first], it := |b.buffer|);
      assert NextOf(b) == (true, c);
      FetchedRest(b.buffer, first, more);
      assert [first] + more == b.source;
    }
  }

  lemma FetchedRest(buffer: seq<Match>, first: Match, more: seq<Match>)
    ensures (buffer + [first])[|buffer|..] == [first] && (buffer + [first])[|buffer| + 1..] == []
    ensures buffer + [first] + more == buffer + ([first] + more) && [] + more == more
  {
  }

  // The matches of a pass that starts now: the first pass repeats the first match.
  function Pass(b: Buffered): seq<Match> {
    if b.buffer == [] then (if b.source == [] then [] else [b.source[0]] + b.source) else AllOf(b)
  }

  lemma ResetStarts(b: Buffered)
    requires Sound(b)
    ensures Sound(ResetOf(b)) && Rest(ResetOf(b)) == Pass(b) && AllOf(ResetOf(b)) == AllOf(b)
  {
  }

  type Combination = seq<Match>

  function Prefix(m: Match, rest: seq<Combination>): (r: seq<Combination>)
    ensures |r| == |rest|
  {
    if rest == [] then [] else [[m] + rest[0]] + Prefix(m, rest[1..])
  }

  function WithEach(ms: seq<Match>, rest: seq<Combination>): seq<Combination> {
    if ms == [] then [] else Prefix(ms[0], rest) + WithEach(ms[1..], rest)
  }

  /** Every combination of one match from each operand, the last operand changing fastest. */
  function Plain(operands: seq<seq<Match>>): seq<Combination> {
    if operands == [] then [[]] else WithEach(operands[0], Plain(operands[1..]))
  }

  /** What a conjunction delivers: as Plain, but each operand's first match comes twice in its
      first pass. */
  function Delivered(operands: seq<seq<Match>>): seq<Combination> {
    if operands == [] then [[]]
    else if operands[0] == [] then []
    else Prefix(operands[0][0], Delivered(operands[1..])) + WithEach(operands[0], Plain(operands[1..]))
  }

  // A combination of the operands' matches.
  ghost predicate Combines(c: Combination, operands: seq<seq<Match>>) {
    |c| == |operands| && forall k :: 0 <= k < |c| ==> c[k] in operands[k]
  }

  lemma {:induction false} PrefixMember(m: Match, rest: seq<Combination>, c: Combination)
    ensures c in Prefix(m, rest) <==> c != [] && c[0] == m && c[1..] in rest
  {
    if rest != [] {
      PrefixMember(m, rest[1..], c);
      assert rest == [rest[0]] + rest[1..];
      assert c != [] ==> c == [c[0]] + c[1..];
      assert ([m] + rest[0])[1..] == rest[0];
    }
  }

  lemma {:induction false} WithEachMember(ms: seq<Match>, rest: seq<Combination>, c: Combination)
    ensures c in WithEach(ms, rest) <==> c != [] && c[0] in ms && c[1..] in rest
  {
    if ms != [] {
      PrefixMember(ms[0], rest, c);
      WithEachMember(ms[1..], rest, c);
      assert ms == [ms[0]] + ms[1..];
    }
  }

  lemma {:induction false} PlainMember(operands: seq<seq<Match>>, c: Combination)
    ensures c in Plain(operands) <==> Combines(c, operands)
  {
    if operands != [] {
      WithEachMember(operands[0], Plain(operands[1..]), c);
      if c != [] {
        PlainMember(operands[1..], c[1..]);
        CombinesCons(c, operands);
      }
    }
  }

  lemma CombinesCons(c: Combination, operands: seq<seq<Match>>)
    requires c != [] && operands != []
    ensures Combines(c, operands) <==> c[0] in operands[0] && Combines(c[1..], operands[1..])
  {
    if c[0] in operands[0] && Combines(c[1..], operands[1..]) {
      forall k | 0 <= k < |c| ensures c[k] in operands[k] {
        if k > 0 {
          assert c[k] == c[1..][k - 1] && operands[k] == operands[1..][k - 1];
        }
      }
    }
    if Combines(c, operands) {
      forall k | 0 <= k < |c[1..]| ensures c[1..][k] in operands[1..][k] {
        assert c[1..][k] == c[k + 1] && operands[1..][k] == operands[k + 1];
      }
    }
  }

  /** A conjunction delivers every combination, and nothing else. */
  lemma {:induction false} DeliveredMember(operands: seq<seq<Match>>, c: Combination)
    ensures c in Delivered(operands) <==> Combines(c, operands)
  {
    PlainMember(operands, c);
    if operands != [] && operands[0] != [] {
      PrefixMember(operands[0][0], Delivered(operands[1..]), c);
      WithEachMember(operands[0], Plain(operands[1..]), c);
      if c != [] {
        DeliveredMember(operands[1..], c[1..]);
        CombinesCons(c, operands);
        PlainMember(operands[1..], c[1..]);
      }
    }
  }

  function Product(operands: seq<seq<Match>>): nat {
    if operands == [] then 1 else |operands[0]| * Product(operands[1..])
  }

  // How many combinations come again in the first passes: one sub-conjunction per operand.
  function Repeats(operands: seq<seq<Match>>): nat {
    if operands == [] || operands[0] == [] then 0
    else Product(operands[1..]) + Repeats(operands[1..])
  }

  lemma {:induction false} WithEachLength(ms: seq<Match>, rest: seq<Combination>)
    ensures |WithEach(ms, rest)| == |ms| * |rest|
  {
    if ms != [] {
      WithEachLength(ms[1..], rest);
    }
  }

  lemma {:induction false} PlainLength(operands: seq<seq<Match>>)
    ensures |Plain(operands)| == Product(operands)
  {
    if operands != [] {
      PlainLength(operands[1..]);
      WithEachLength(operands[0], Plain(operands[1..]));
    }
  }

  /** Exactly how many combinations are delivered more than once. */
  lemma {:induction false} DeliveredLength(operands: seq<seq<Match>>)
    ensures |Delivered(operands)| == Product(operands) + Repeats(operands)
  {
    if operands != [] && operands[0] != [] {
      DeliveredLength(operands[1..]);
      PlainLength(operands[1..]);
      WithEachLength(operands[0], Plain(operands[1..]));
    }
  }

  // ----- the filters

  // One after the other in the query, but not in the text.
  predicate Crossed(a: StringMatch, b: StringMatch) {
    (a.queryPos > b.queryPos && a.position < b.position) || (a.queryPos < b.queryPos && a.position > b.position)
  }

  predicate InQueryOrder(m: Match) {
    forall i, j :: 0 <= i < j < |m| ==> !Crossed(m[i], m[j])
  }

  /** A match is in query order exactly if no word stands before a word that is earlier in the
      query, wherever the two are in the match. */
  lemma OrderMeans(m: Match)
    ensures InQueryOrder(m) <==>
              forall i, j :: 0 <= i < |m| && 0 <= j < |m| && m[i].queryPos < m[j].queryPos ==>
                               m[i].position <= m[j].position
  {
    if InQueryOrder(m) {
      forall i, j | 0 <= i < |m| && 0 <= j < |m| && m[i].queryPos < m[j].queryPos
        ensures m[i].position <= m[j].position
      {
        assert !Crossed(if i < j then m[i] else m[j], if i < j then m[j] else m[i]);
      }
    }
  }

  const WORD_SIZE := 0x1_0000_0000

  /** The distance of two positions in words, in unsigned 32-bit arithmetic. */
  function TokenDistance(a: nat, b: nat): nat {
    ((if a >= b then a - b else b - a) + WORD_SIZE - 1) % WORD_SIZE
  }

  /** The number of tokens between two distinct positions; for one and the same position, the
      largest number there is. */
  lemma TokenDistanceIs(a: nat, b: nat)
    requires a < WORD_SIZE && b < WORD_SIZE
    ensures a < b ==> TokenDistance(a, b) == b - a - 1 && TokenDistance(b, a) == b - a - 1
    ensures TokenDistance(a, a) == WORD_SIZE - 1
  {
  }

  datatype Range = Exactly(n: nat) | AtLeast(n: nat) | AtMost(n: nat) | FromTo(n: nat, m: nat)

  predicate DistanceMatches(range: Range, actual: nat) {
    match range
    case Exactly(n) => actual == n
    case AtLeast(n) => actual >= n
    case AtMost(n) => actual <= n
    case FromTo(n, m) => n <= actual && actual <= m
  }

  predicate EarlierInText(a: StringMatch, b: StringMatch) {
    a.position < b.position
  }

  function ByPosition(m: Match): (r: Match)
    ensures |r| == |m|
  {
    StableSort.Sort(EarlierInText, m)
  }

  // Every two neighbours in the text are at a distance in the range.
  predicate WithinRange(range: Range, m: Match) {
    forall k :: 0 <= k < |m| - 1 ==>
      DistanceMatches(range, TokenDistance(ByPosition(m)[k].position, ByPosition(m)[k + 1].position))
  }

  /** Two words at one and the same position are at least any number of words apart, and at most
      no number but the largest: only the lower bound accepts them. */
  lemma SamePositionRange(m: Match, n: nat)
    requires |m| == 2 && m[0].position == m[1].position && m[0].position < WORD_SIZE && n < WORD_SIZE
    ensures WithinRange(AtLeast(n), m)
    ensures WithinRange(AtMost(n), m) <==> n == WORD_SIZE - 1
    ensures WithinRange(Exactly(n), m) <==> n == WORD_SIZE - 1
  {
    SortedStays(m);
    TokenDistanceIs(m[0].position, m[1].position);
  }

  /** Words at rising positions are within a range exactly if, between every two neighbours, the
      number of other tokens is exactly, at least, at most, or from and to what the range says. */
  lemma RangesMean(m: Match, n: nat, top: nat)
    requires forall i, j :: 0 <= i < j < |m| ==> m[i].position < m[j].position
    requires forall i :: 0 <= i < |m| ==> m[i].position < WORD_SIZE
    ensures WithinRange(Exactly(n), m) <==>
              forall k :: 0 <= k < |m| - 1 ==> m[k + 1].position - m[k].position - 1 == n
    ensures WithinRange(AtLeast(n), m) <==>
              forall k :: 0 <= k < |m| - 1 ==> m[k + 1].position - m[k].position - 1 >= n
    ensures WithinRange(AtMost(n), m) <==>
              forall k :: 0 <= k < |m| - 1 ==> m[k + 1].position - m[k].position - 1 <= n
    ensures WithinRange(FromTo(n, top), m) <==>
              forall k :: 0 <= k < |m| - 1 ==> n <= m[k + 1].position - m[k].position - 1 <= top
  {
    hide WithinRange;
    GapsMatch(Exactly(n), m);
    GapsMatch(AtLeast(n), m);
    GapsMatch(AtMost(n), m);
    GapsMatch(FromTo(n, top), m);
  }

  lemma GapsMatch(range: Range, m: Match)
    requires forall i, j :: 0 <= i < j < |m| ==> m[i].position < m[j].position
    requires forall i :: 0 <= i < |m| ==> m[i].position < WORD_SIZE
    ensures WithinRange(range, m) <==>
              forall k :: 0 <= k < |m| - 1 ==> DistanceMatches(range, m[k + 1].position - m[k].position - 1)
  {
    hide TokenDistance, DistanceMatches;
    SortedStays(m);
    forall k | 0 <= k < |m| - 1
      ensures TokenDistance(ByPosition(m)[k].position, ByPosition(m)[k + 1].position)
           == m[k + 1].position - m[k].position - 1
    {
      TokenDistanceIs(m[k].position, m[k + 1].position);
    }
  }

  function Nearby(range: Range): Match -> bool {
    m => WithinRange(range, m)
  }

  // ----- phrases

  // The positions of a word in the text.
  function Occurrences(text: seq<string>, word: string, from: nat): seq<nat>
    requires from <= |text|
    decreases |text| - from
  {
    if from == |text| then []
    else (if text[from] == word then [from] else []) + Occurrences(text, word, from + 1)
  }

  lemma {:induction false} OccurrencesAre(text: seq<string>, word: string, from: nat)
    requires from <= |text|
    ensures forall p: nat :: p in Occurrences(text, word, from) <==> from <= p < |text| && text[p] == word
    decreases |text| - from
  {
    if from < |text| {
      OccurrencesAre(text, word, from + 1);
    }
  }

  /** The matches of the query's word number queryPos. */
  function WordMatches(text: seq<string>, word: string, queryPos: nat): seq<Match> {
    Map((p: nat) => [StringMatch(queryPos, p)], Occurrences(text, word, 0))
  }

  // The operands for the words of the query, which are numbered from queryPos on.
  function Operands(text: seq<string>, query: seq<string>, queryPos: nat): (r: seq<seq<Match>>)
    ensures |r| == |query|
    ensures forall k :: 0 <= k < |query| ==> r[k] == WordMatches(text, query[k], queryPos + k)
  {
    if query == [] then [] else [WordMatches(text, query[0], queryPos)] + Operands(text, query[1..], queryPos + 1)
  }

  function Flatten(c: Combination): Match {
    if c == [] then [] else c[0] + Flatten(c[1..])
  }

  function Flattened(cs: seq<Combination>): seq<Match> {
    Map(Flatten, cs)
  }

  /** What the phrase pipeline delivers: the conjunction's matches that are in query order and
      at distance zero. */
  function PhraseMatches(text: seq<string>, query: seq<string>, queryPos: nat): seq<Match> {
    Filter(Nearby(Exactly(0)), Filter(InQueryOrder, Flattened(Delivered(Operands(text, query, queryPos)))))
  }

  // The match of the query's words at the positions from p on.
  function PhraseAt(query: seq<string>, queryPos: nat, p: nat): (r: Match)
    ensures |r| == |query|
    ensures forall k :: 0 <= k < |query| ==> r[k] == StringMatch(queryPos + k, p + k)
  {
    if query == [] then [] else [StringMatch(queryPos, p)] + PhraseAt(query[1..], queryPos + 1, p + 1)
  }

  predicate OccursAt(text: seq<string>, query: seq<string>, p: nat) {
    p + |query| <= |text| && forall k :: 0 <= k < |query| ==> text[p + k] == query[k]
  }

  lemma WordMatchIs(text: seq<string>, word: string, queryPos: nat, m: Match)
    ensures m in WordMatches(text, word, queryPos) <==>
      |m| == 1 && m[0].queryPos == queryPos && m[0].position < |text| && text[m[0].position] == word
  {
    var f := (p: nat) => [StringMatch(queryPos, p)];
    var ps := Occurrences(text, word, 0);
    OccurrencesAre(text, word, 0);
    if m in WordMatches(text, word, queryPos) {
      var k :| 0 <= k < |ps| && Map(f, ps)[k] == m;
      assert ps[k] in ps;
    }
    if |m| == 1 && m[0].queryPos == queryPos && m[0].position < |text| && text[m[0].position] == word {
      assert m[0].position in ps;
      var k :| 0 <= k < |ps| && ps[k] == m[0].position;
      assert Map(f, ps)[k] == m;
    }
  }

  // A match with one position for each word of the query, at which the word stands.
  predicate Spells(text: seq<string>, query: seq<string>, queryPos: nat, m: Match) {
    && |m| == |query|
    && forall k :: 0 <= k < |m| ==>
         m[k].queryPos == queryPos + k && m[k].position < |text| && text[m[k].position] == query[k]
  }

  lemma {:induction false} FlattenSpells(text: seq<string>, query: seq<string>, queryPos: nat, c: Combination)
    requires Combines(c, Operands(text, query, queryPos))
    ensures Spells(text, query, queryPos, Flatten(c))
    decreases |query|
  {
    if query != [] {
      var operands := Operands(text, query, queryPos);
      CombinesCons(c, operands);
      assert operands[1..] == Operands(text, query[1..], queryPos + 1);
      FlattenSpells(text, query[1..], queryPos + 1, c[1..]);
      WordMatchIs(text, query[0], queryPos, c[0]);
      var rest := Flatten(c[1..]);
      assert Flatten(c) == c[0] + rest;
      forall k | 0 < k < |query|
        ensures Flatten(c)[k].queryPos == queryPos + k
        ensures Flatten(c)[k].position < |text| && text[Flatten(c)[k].position] == query[k]
      {
        assert Flatten(c)[k] == rest[k - 1] && query[k] == query[1..][k - 1];
      }
    }
  }

  // A match as a combination of matches of one word each.
  function Singles(m: Match): (r: Combination)
    ensures |r| == |m| && forall k :: 0 <= k < |m| ==> r[k] == [m[k]]
  {
    if m == [] then [] else [[m[0]]] + Singles(m[1..])
  }

  lemma {:induction false} FlattenSingles(m: Match)
    ensures Flatten(Singles(m)) == m
  {
    if m != [] {
      FlattenSingles(m[1..]);
      assert Singles(m)[1..] == Singles(m[1..]);
    }
  }

  lemma SpellsCombines(text: seq<string>, query: seq<string>, queryPos: nat, m: Match)
    requires Spells(text, query, queryPos, m)
    ensures Combines(Singles(m), Operands(text, query, queryPos))
  {
    hide Operands, Singles, WordMatches;
    forall k | 0 <= k < |m| ensures Singles(m)[k] in Operands(text, query, queryPos)[k] {
      WordMatchIs(text, query[k], queryPos + k, [m[k]]);
    }
  }

  /** The conjunction of the query's words delivers exactly the matches that spell the query. */
  lemma ConjunctionSpells(text: seq<string>, query: seq<string>, queryPos: nat, m: Match)
    ensures m in Flattened(Delivered(Operands(text, query, queryPos))) <==> Spells(text, query, queryPos, m)
  {
    var all := Delivered(Operands(text, query, queryPos));
    hide Delivered, Operands, Spells;
    if m in Flattened(all) {
      var k :| 0 <= k < |all| && Flattened(all)[k] == m;
      DeliveredMember(Operands(text, query, queryPos), all[k]);
      FlattenSpells(text, query, queryPos, all[k]);
    }
    if Spells(text, query, queryPos, m) {
      SpellsCombines(text, query, queryPos, m);
      DeliveredMember(Operands(text, query, queryPos), Singles(m));
      FlattenSingles(m);
      var k :| 0 <= k < |all| && all[k] == Singles(m);
      assert Flattened(all)[k] == m;
    }
  }

  lemma {:induction false} SortedStays(m: Match)
    requires forall i, j :: 0 <= i < j < |m| ==> m[i].position <= m[j].position
    ensures ByPosition(m) == m
  {
    if m != [] {
      SortedStays(m[1..]);
    }
  }

  // In query order and at distance zero: consecutive positions.
  lemma FiltersAreConsecutive(text: seq<string>, query: seq<string>, queryPos: nat, m: Match)
    requires |text| <= WORD_SIZE && Spells(text, query, queryPos, m)
    ensures InQueryOrder(m) && WithinRange(Exactly(0), m) <==>
      forall k :: 0 <= k < |m| - 1 ==> m[k + 1].position == m[k].position + 1
  {
    hide ByPosition, TokenDistance;
    if forall k :: 0 <= k < |m| - 1 ==> m[k + 1].position == m[k].position + 1 {
      forall i, j | 0 <= i < j < |m| ensures m[i].position < m[j].position {
        ConsecutiveRises(m, i, j);
      }
      SortedStays(m);
      forall k | 0 <= k < |m| - 1 ensures TokenDistance(m[k].position, m[k + 1].position) == 0 {
        TokenDistanceIs(m[k].position, m[k + 1].position);
      }
    }
    if InQueryOrder(m) && WithinRange(Exactly(0), m) {
      assert forall i, j :: 0 <= i < j < |m| ==> !Crossed(m[i], m[j]);
      SortedStays(m);
      forall k | 0 <= k < |m| - 1 ensures m[k + 1].position == m[k].position + 1 {
        assert DistanceMatches(Exactly(0), TokenDistance(ByPosition(m)[k].position, ByPosition(m)[k + 1].position));
        assert !Crossed(m[k], m[k + 1]);
        TokenDistanceIs(m[k].position, m[k + 1].position);
      }
    }
  }

  lemma {:induction false} ConsecutiveRises(m: Match, i: nat, j: nat)
    requires i < j < |m| && forall k :: 0 <= k < |m| - 1 ==> m[k + 1].position == m[k].position + 1
    ensures m[j].position == m[i].position + (j - i)
  {
    if i + 1 < j {
      ConsecutiveRises(m, i, j - 1);
    }
    assert m[j - 1 + 1].position == m[j - 1].position + 1;
  }

  /** Phrase search is exact: the pipeline delivers the words' matches at the positions p,
      p + 1, ... exactly where the phrase stands in the text at p, and nothing else. */
  lemma PhraseExact(text: seq<string>, query: seq<string>, queryPos: nat, m: Match)
    requires |text| <= WORD_SIZE
    ensures m in PhraseMatches(text, query, queryPos) <==>
      exists p: nat :: OccursAt(text, query, p) && m == PhraseAt(query, queryPos, p)
  {
    hide Delivered, Operands, InQueryOrder, WithinRange;
    ConjunctionSpells(text, query, queryPos, m);
    if m in PhraseMatches(text, query, queryPos) {
      FiltersAreConsecutive(text, query, queryPos, m);
      var p := if m == [] then 0 else m[0].position;
      ConsecutiveIsPhrase(text, query, queryPos, m, p);
    }
    if p: nat :| OccursAt(text, query, p) && m == PhraseAt(query, queryPos, p) {
      FiltersAreConsecutive(text, query, queryPos, m);
    }
  }

  lemma ConsecutiveIsPhrase(text: seq<string>, query: seq<string>, queryPos: nat, m: Match, p: nat)
    requires Spells(text, query, queryPos, m) && (m != [] ==> m[0].position == p) && (m == [] ==> p == 0)
    requires forall k :: 0 <= k < |m| - 1 ==> m[k + 1].position == m[k].position + 1
    ensures OccursAt(text, query, p) && m == PhraseAt(query, queryPos, p)
  {
    forall k | 0 <= k < |m| ensures m[k].position == p + k {
      if k > 0 {
        ConsecutiveRises(m, 0, k);
      }
    }
    if m != [] {
      assert m[|m| - 1].position == p + |m| - 1;
    }
    assert forall k :: 0 <= k < |query| ==> text[m[k].position] == query[k];
  }

  /** So a text contains a phrase exactly if the pipeline delivers anything at all. */
  lemma PhraseFound(text: seq<string>, query: seq<string>, queryPos: nat)
    requires |text| <= WORD_SIZE
    ensures PhraseMatches(text, query, queryPos) != [] <==> exists p: nat :: OccursAt(text, query, p)
  {
    hide PhraseMatches, OccursAt;
    var all := PhraseMatches(text, query, queryPos);
    if all != [] {
      assert all[0] in all;
      PhraseExact(text, query, queryPos, all[0]);
    }
    if p: nat :| OccursAt(text, query, p) {
      PhraseExact(text, query, queryPos, PhraseAt(query, queryPos, p));
      assert PhraseAt(query, queryPos, p) in all;
    }
  }
}
