/** The full-text iterators as objects: buffered operands, the conjunction that backtracks over
    them, and the order and distance filters on top. */
module FullTextIterators {
  import opened Options
  import opened Sequences
  import opened FullText

  class BufferedMatches {
    // What the operand's own iterator has not delivered yet.
    var matches: seq<Match>
    var buffer: seq<Match>
    var it: nat
    var resetPending: bool

    ghost predicate Valid()
      reads this
    {
      Sound(Value())
    }

    ghost function Value(): Buffered
      reads this
    {
      Buffered(matches, buffer, it, resetPending)
    }

    constructor (matches: seq<Match>)
      ensures Valid() && Value() == Buffered(matches, [], 0, false)
    {
      this.matches, buffer, it, resetPending := matches, [], 0, false;
    }

    method Next() returns (found: bool)
      requires Valid()
      modifies this
      ensures Valid() && (found, Value()) == NextOf(old(Value()))
    {
      if it != |buffer| {
        if resetPending {
          resetPending := false;
        } else {
          it := it + 1;
        }
        if it != |buffer| {
          return true;
        }
      }
      if matches != [] {
        buffer, matches := buffer + [matches[0]], matches[1..];
        it := |buffer| - 1;
        return true;
      }
      return false;
    }

    method Reset()
      requires Valid()
      modifies this
      ensures Valid() && Value() == ResetOf(old(Value()))
    {
      resetPending, it := true, 0;
    }
  }

  // ----- what a row of operands still delivers

  function Lists(args: seq<Buffered>): (r: seq<seq<Match>>)
    ensures |r| == |args| && forall k :: 0 <= k < |r| ==> r[k] == AllOf(args[k])
  {
    if args == [] then [] else [AllOf(args[0])] + Lists(args[1..])
  }

  // The operands are reset, one after the other, now.
  function Starting(args: seq<Buffered>): seq<Combination> {
    if args == [] then [[]]
    else if Pass(args[0]) == [] then []
    else Prefix(Pass(args[0])[0], Starting(args[1..])) + WithEach(Pass(args[0])[1..], Plain(Lists(args[1..])))
  }

  /** Before anything is read, that is everything the conjunction delivers. */
  lemma {:induction false} StartingIsDelivered(args: seq<Buffered>)
    requires forall k :: 0 <= k < |args| ==> args[k].buffer == []
    ensures Starting(args) == Delivered(Lists(args))
  {
    if args != [] {
      StartingIsDelivered(args[1..]);
      assert AllOf(args[0]) == args[0].source;
      assert args[0].source != [] ==> Pass(args[0])[1..] == args[0].source;
      assert Lists(args)[1..] == Lists(args[1..]);
    }
  }

  ghost predicate AllCurrent(args: seq<Buffered>) {
    forall k :: 0 <= k < |args| ==> HasCurrent(args[k])
  }

  // The operands in front have a current match; those behind deliver inner with it, and after
  // it start again.
  ghost function Outer(args: seq<Buffered>, behind: seq<seq<Match>>, inner: seq<Combination>): seq<Combination>
    requires AllCurrent(args)
    decreases |args|
  {
    if args == [] then inner
    else
      var b := args[|args| - 1];
      Outer(args[..|args| - 1], [AllOf(b)] + behind, Prefix(Current(b), inner) + WithEach(Rest(b), Plain(behind)))
  }

  // The current matches.
  ghost function Currents(args: seq<Buffered>): (r: Combination)
    requires AllCurrent(args)
    ensures |r| == |args| && forall k :: 0 <= k < |args| ==> r[k] == Current(args[k])
  {
    seq(|args|, k requires 0 <= k < |args| => Current(args[k]))
  }

  lemma CurrentsSplit(args: seq<Buffered>, m: Combination)
    requires AllCurrent(args) && args != []
    ensures Currents(args) + m == Currents(args[..|args| - 1]) + ([Current(args[|args| - 1])] + m)
  {
    assert Currents(args) == Currents(args[..|args| - 1]) + [Current(args[|args| - 1])];
  }

  lemma {:induction false} OuterFirst(args: seq<Buffered>, behind: seq<seq<Match>>, m: Combination,
      inner: seq<Combination>)
    requires AllCurrent(args)
    ensures Outer(args, behind, [m] + inner) == [Currents(args) + m] + Outer(args, behind, inner)
    decreases |args|
  {
    if args != [] {
      var b, front := args[|args| - 1], args[..|args| - 1];
      var more := WithEach(Rest(b), Plain(behind));
      assert ([m] + inner)[1..] == inner;
      assert Prefix(Current(b), [m] + inner) + more == [[Current(b)] + m] + (Prefix(Current(b), inner) + more);
      OuterFirst(front, [AllOf(b)] + behind, [Current(b)] + m, Prefix(Current(b), inner) + more);
      CurrentsSplit(args, m);
    } else {
      assert Currents(args) + m == m;
    }
  }

  // Starting again delivers every combination once.
  ghost predicate Settled(args: seq<Buffered>) {
    Starting(args) == Plain(Lists(args))
  }

  lemma SettledCons(b: Buffered, args: seq<Buffered>)
    requires Settled(args) && b.buffer != []
    ensures Settled([b] + args)
  {
    assert ([b] + args)[1..] == args && Lists([b] + args)[1..] == Lists(args);
  }

  lemma SettledNothing(b: Buffered, args: seq<Buffered>)
    requires AllOf(b) == []
    ensures Settled([b] + args) && Starting([b] + args) == []
  {
    assert Lists([b] + args)[0] == [];
  }

  // ----- the work that is left, which bounds the number of steps

  function Work(lists: seq<seq<Match>>): nat {
    if lists == [] then 1 else 2 + (|lists[0]| + 1) * (Work(lists[1..]) + 2)
  }

  ghost function Left(args: seq<Buffered>, behind: seq<seq<Match>>, inner: nat): nat
    decreases |args|
  {
    if args == [] then inner
    else
      var b := args[|args| - 1];
      Left(args[..|args| - 1], [AllOf(b)] + behind, inner + 1 + |Rest(b)| * (Work(behind) + 2))
  }

  lemma {:induction false} LeftShrinks(args: seq<Buffered>, behind: seq<seq<Match>>, less: nat, more: nat)
    requires less < more
    ensures Left(args, behind, less) < Left(args, behind, more)
    decreases |args|
  {
    hide Work, Rest, AllOf;
    if args != [] {
      var b := args[|args| - 1];
      var w := |Rest(b)| * (Work(behind) + 2);
      LeftShrinks(args[..|args| - 1], [AllOf(b)] + behind, less + 1 + w, more + 1 + w);
    }
  }

  lemma ListsCons(b: Buffered, back: seq<Buffered>)
    ensures Lists([b] + back) == [AllOf(b)] + Lists(back)
  {
    assert ([b] + back)[1..] == back;
  }

  lemma OuterLast(front: seq<Buffered>, b: Buffered, behind: seq<seq<Match>>, inner: seq<Combination>)
    requires AllCurrent(front + [b])
    ensures AllCurrent(front) && HasCurrent(b)
    ensures Outer(front + [b], behind, inner)
         == Outer(front, [AllOf(b)] + behind, Prefix(Current(b), inner) + WithEach(Rest(b), Plain(behind)))
  {
    var all := front + [b];
    assert all[|all| - 1] == b && all[..|all| - 1] == front;
    assert forall k :: 0 <= k < |front| ==> front[k] == all[k];
  }

  lemma LeftLast(front: seq<Buffered>, b: Buffered, behind: seq<seq<Match>>, inner: nat)
    ensures Left(front + [b], behind, inner)
         == Left(front, [AllOf(b)] + behind, inner + 1 + |Rest(b)| * (Work(behind) + 2))
  {
    var all := front + [b];
    assert all[|all| - 1] == b && all[..|all| - 1] == front;
  }

  lemma AllCurrentLast(front: seq<Buffered>, b: Buffered)
    requires AllCurrent(front) && HasCurrent(b)
    ensures AllCurrent(front + [b])
  {
  }

  // What is left when the operands behind are to be reset, and when they are exhausted.
  ghost predicate StartState(front: seq<Buffered>, back: seq<Buffered>, all: seq<Combination>, left: nat) {
    && AllCurrent(front) && Outer(front, Lists(back), Starting(back)) == all
    && Left(front, Lists(back), Work(Lists(back))) == left
  }

  ghost predicate BackState(front: seq<Buffered>, back: seq<Buffered>, all: seq<Combination>, left: nat) {
    && AllCurrent(front) && Settled(back) && Outer(front, Lists(back), []) == all
    && Left(front, Lists(back), 0) == left
  }

  // The next operand is reset and read; c is what it is then.
  lemma StepIn(front: seq<Buffered>, b: Buffered, c: Buffered, back: seq<Buffered>, all: seq<Combination>,
      left: nat) returns (less: nat)
    requires Sound(b) && NextOf(ResetOf(b)) == (true, c) && StartState(front, [b] + back, all, left)
    ensures StartState(front + [c], back, all, less) && less < left
  {
    hide Outer, Left, Work, Plain, Prefix, WithEach, Starting, Lists;
    var behind := Lists(back);
    ResetStarts(b);
    NextDelivers(ResetOf(b));
    ListsCons(b, back);
    AllCurrentLast(front, c);
    OuterLast(front, c, behind, Starting(back));
    StartingCons(b, back);
    assert Rest(c) == Pass(b)[1..] && Current(c) == Pass(b)[0];
    LeftLast(front, c, behind, Work(behind));
    less := Left(front + [c], behind, Work(behind));
    WorkShrinks(|Rest(c)|, AllOf(b), behind);
    PassLength(b);
    var inner := Work(behind) + 1 + |Rest(c)| * (Work(behind) + 2);
    LeftShrinks(front, [AllOf(b)] + behind, inner, Work([AllOf(b)] + behind));
  }

  lemma PassLength(b: Buffered)
    ensures |Pass(b)| <= |AllOf(b)| + 1
  {
  }

  lemma StartingCons(b: Buffered, back: seq<Buffered>)
    ensures Starting([b] + back) ==
      if Pass(b) == [] then [] else Prefix(Pass(b)[0], Starting(back)) + WithEach(Pass(b)[1..], Plain(Lists(back)))
  {
    assert ([b] + back)[1..] == back;
  }

  lemma WorkShrinks(rest: nat, list: seq<Match>, behind: seq<seq<Match>>)
    requires rest <= |list|
    ensures Work(behind) + 1 + rest * (Work(behind) + 2) < Work([list] + behind)
  {
    assert ([list] + behind)[1..] == behind;
    var w := Work(behind) + 2;
    assert rest * w <= |list| * w;
    assert (|list| + 1) * w == |list| * w + w;
  }

  // The next operand has nothing at all.
  lemma StepInFails(front: seq<Buffered>, b: Buffered, c: Buffered, back: seq<Buffered>, all: seq<Combination>,
      left: nat) returns (less: nat)
    requires Sound(b) && NextOf(ResetOf(b)) == (false, c) && StartState(front, [b] + back, all, left)
    ensures BackState(front, [c] + back, all, less) && less < left
  {
    hide Outer, Left, Work, Plain, Prefix, WithEach;
    ResetStarts(b);
    NextDelivers(ResetOf(b));
    ListsCons(b, back);
    ListsCons(c, back);
    StartingCons(b, back);
    NoneSettled(c, back);
    less := Left(front, Lists([c] + back), 0);
    assert Work(Lists([b] + back)) > 0 by { WorkIsPositive(Lists([b] + back)); }
    LeftShrinks(front, Lists([c] + back), 0, Work(Lists([b] + back)));
  }

  lemma WorkIsPositive(lists: seq<seq<Match>>)
    ensures Work(lists) > 0
  {
  }

  lemma NoneSettled(c: Buffered, back: seq<Buffered>)
    requires AllOf(c) == []
    ensures Settled([c] + back)
  {
    SettledNothing(c, back);
  }

  // The last positioned operand has another match.
  lemma StepOn(front: seq<Buffered>, b: Buffered, c: Buffered, back: seq<Buffered>, all: seq<Combination>,
      left: nat) returns (less: nat)
    requires Sound(b) && NextOf(b) == (true, c) && BackState(front + [b], back, all, left)
    ensures StartState(front + [c], back, all, less) && less < left
  {
    hide Outer, Left, Work, Starting, Lists, Rest, NextOf;
    NextDelivers(b);
    assert AllCurrent(front) by { OuterLast(front, b, Lists(back), []); }
    AllCurrentLast(front, c);
    OuterOn(front, b, c, Lists(back));
    LeftOn(front, b, c, Lists(back));
    less := Left(front + [c], Lists(back), Work(Lists(back)));
  }

  lemma OuterOn(front: seq<Buffered>, b: Buffered, c: Buffered, behind: seq<seq<Match>>)
    requires AllCurrent(front + [b]) && AllCurrent(front + [c]) && HasCurrent(c)
    requires AllOf(c) == AllOf(b) && Rest(b) == [Current(c)] + Rest(c)
    ensures Outer(front + [b], behind, []) == Outer(front + [c], behind, Plain(behind))
  {
    hide Outer, Plain, Prefix, WithEach, Rest;
    OuterLast(front, b, behind, []);
    OuterLast(front, c, behind, Plain(behind));
    PrefixNothing(Current(b));
    WithEachCons(Current(c), Rest(c), Plain(behind));
    assert [] + WithEach(Rest(b), Plain(behind)) == WithEach(Rest(b), Plain(behind));
  }

  lemma LeftOn(front: seq<Buffered>, b: Buffered, c: Buffered, behind: seq<seq<Match>>)
    requires AllOf(c) == AllOf(b) && |Rest(b)| == |Rest(c)| + 1
    ensures Left(front + [c], behind, Work(behind)) < Left(front + [b], behind, 0)
  {
    hide Left, Work, Rest;
    LeftLast(front, b, behind, 0);
    LeftLast(front, c, behind, Work(behind));
    var w := Work(behind) + 2;
    assert (|Rest(c)| + 1) * w == |Rest(c)| * w + w;
    LeftShrinks(front, [AllOf(b)] + behind, Work(behind) + 1 + |Rest(c)| * w, 0 + 1 + |Rest(b)| * w);
  }

  lemma PrefixNothing(m: Match)
    ensures Prefix(m, []) == []
  {
  }

  lemma WithEachCons(m: Match, ms: seq<Match>, rest: seq<Combination>)
    ensures WithEach([m] + ms, rest) == Prefix(m, rest) + WithEach(ms, rest)
    ensures WithEach([], rest) == []
  {
    assert ([m] + ms)[1..] == ms;
  }

  // The last positioned operand is exhausted.
  lemma StepBack(front: seq<Buffered>, b: Buffered, c: Buffered, back: seq<Buffered>, all: seq<Combination>,
      left: nat) returns (less: nat)
    requires Sound(b) && NextOf(b) == (false, c) && BackState(front + [b], back, all, left)
    ensures BackState(front, [c] + back, all, less) && less < left
  {
    hide Outer, Left, Work, Plain, Prefix, WithEach, Starting, Lists;
    var behind := Lists(back);
    NextDelivers(b);
    OuterLast(front, b, behind, []);
    PrefixNothing(Current(b));
    WithEachCons(Current(b), [], Plain(behind));
    ListsCons(c, back);
    SettledCons(c, back);
    LeftLast(front, b, behind, 0);
    less := Left(front, Lists([c] + back), 0);
    assert 0 + 1 + |Rest(b)| * (Work(behind) + 2) > 0;
    LeftShrinks(front, Lists([c] + back), 0, 0 + 1 + |Rest(b)| * (Work(behind) + 2));
  }

  class FTConjunctionMatches {
    var toDo: bool
    var args: seq<BufferedMatches>

    ghost predicate Valid()
      reads this, args
    {
      && (forall i, j :: 0 <= i < j < |args| ==> args[i] != args[j])
      && (forall i :: 0 <= i < |args| ==> args[i].Valid())
      && (!toDo ==> AllCurrent(Values()))
    }

    ghost function Values(): (r: seq<Buffered>)
      reads this, args
      ensures |r| == |args| && forall k :: 0 <= k < |args| ==> r[k] == args[k].Value()
    {
      seq(|args|, k requires 0 <= k < |args| reads this, args => args[k].Value())
    }

    /** The combinations that are still to come. */
    ghost function Remaining(): seq<Combination>
      requires Valid()
      reads this, args
    {
      if toDo then Starting(Values()) else Outer(Values(), [], [])
    }

    constructor ()
      ensures Valid() && toDo && args == []
    {
      toDo, args := true, [];
    }

    method AddMatches(matches: seq<Match>)
      requires Valid() && toDo
      modifies this
      ensures Valid() && toDo
      ensures |args| == |old(args)| + 1 && args[..|old(args)|] == old(args) && fresh(args[|old(args)|])
      ensures Values() == old(Values()) + [Buffered(matches, [], 0, false)]
    {
      var buf := new BufferedMatches(matches);
      args := args + [buf];
    }

    // Where the backtracking is: the operands up to at have a current match, and those behind
    // are to be started again, or are exhausted.
    ghost predicate State(at: int, initialisation: bool, all: seq<Combination>, left: nat)
      reads this, args
    {
      && Separate() && !toDo && -1 <= at < |args|
      && if initialisation then StartState(Values()[..at + 1], Values()[at + 1..], all, left)
         else BackState(Values()[..at + 1], Values()[at + 1..], all, left)
    }

    /** The next combination: advances the last operand that has another match, and starts
        those behind it again. */
    method Next() returns (found: bool)
      requires Valid()
      modifies this, args
      ensures Valid() && !toDo && (args == old(args) || args == [])
      ensures !found ==> old(Remaining()) == [] && Remaining() == []
      ensures found ==>
                && args == old(args) && AllCurrent(Values())
                && old(Remaining()) == [Currents(Values())] + Remaining()
    {
      ghost var all := Remaining();
      var at, initialisation;
      ghost var left;
      at, initialisation, left := Begin();
      found, left := Backtrack(at, initialisation, all, left);
      if found {
        Positioned(all, left);
      } else {
        Exhausted(all, left);
        args := [];
        NothingRemains();
      }
    }

    // Runs the backtracking to the next combination, or to the end.
    method Backtrack(at: int, initialisation: bool, ghost all: seq<Combination>, ghost left: nat)
      returns (found: bool, ghost less: nat)
      requires State(at, initialisation, all, left)
      modifies args
      ensures State(if found then |args| - 1 else -1, found, all, less)
    {
      hide State;
      var it, starting := at, initialisation;
      less := left;
      AtWithin(it, starting, all, less);
      while (if starting then it < |args| - 1 else it >= 0)
        invariant State(it, starting, all, less) && -1 <= it < |args|
        decreases less
      {
        it, starting, less := Step(it, starting, all, less);
        AtWithin(it, starting, all, less);
      }
      found := starting;
    }

    lemma AtWithin(at: int, initialisation: bool, all: seq<Combination>, left: nat)
      requires State(at, initialisation, all, left)
      ensures -1 <= at < |args|
    {
    }

    // The state from which a call starts.
    method Begin() returns (at: int, initialisation: bool, ghost left: nat)
      requires Valid()
      modifies this`toDo
      ensures State(at, initialisation, old(Remaining()), left)
    {
      hide Starting, Outer, Left, Work, Lists, AllCurrent;
      ghost var vs := Values();
      if toDo {
        left := StartsAll(vs, Remaining());
      } else {
        left := BacksAll(vs, Remaining());
      }
      initialisation, at := toDo, if toDo then -1 else |args| - 1;
      toDo := false;
      assert Values() == vs;
    }

    lemma Exhausted(all: seq<Combination>, left: nat)
      requires State(-1, false, all, left)
      ensures all == [] && !toDo
    {
      NothingLeft(Values(), all, left);
    }

    lemma Positioned(all: seq<Combination>, left: nat)
      requires State(|args| - 1, true, all, left)
      ensures Valid() && !toDo && AllCurrent(Values()) && all == [Currents(Values())] + Remaining()
    {
      AllPositioned(Values(), all, left);
    }

    // One step of the backtracking.
    method Step(at: int, initialisation: bool, ghost all: seq<Combination>, ghost left: nat)
      returns (next: int, starting: bool, ghost less: nat)
      requires State(at, initialisation, all, left) && (if initialisation then at < |args| - 1 else at >= 0)
      modifies args
      ensures State(next, starting, all, less) && less < left
    {
      hide Starting, Outer, Left, Work, Lists, NextOf, AllCurrent, StartState, BackState, Sound, ResetOf, Settled;
      ghost var vs := Values();
      if initialisation {
        next := at + 1;
        starting := Read(next, true);
        SplitAt(vs, Values(), next);
        if starting {
          less := StepIn(vs[..next], vs[next], Values()[next], vs[next + 1..], all, left);
        } else {
          less := StepInFails(vs[..next], vs[next], Values()[next], vs[next + 1..], all, left);
          next := at;
        }
      } else {
        next := at;
        starting := Read(next, false);
        SplitAt(vs, Values(), next);
        if starting {
          less := StepOn(vs[..next], vs[next], Values()[next], vs[next + 1..], all, left);
        } else {
          less := StepBack(vs[..next], vs[next], Values()[next], vs[next + 1..], all, left);
          next := at - 1;
        }
      }
    }

    // Reads one operand, from its first match on or further.
    method Read(at: nat, reset: bool) returns (more: bool)
      requires Separate() && at < |args|
      modifies args[at]
      ensures Separate()
      ensures (more, Values()[at]) == NextOf(if reset then ResetOf(old(Values())[at]) else old(Values())[at])
      ensures Sound(old(Values())[at])
      ensures forall k :: 0 <= k < |args| && k != at ==> Values()[k] == old(Values())[k]
    {
      hide NextOf, ResetOf;
      if reset {
        args[at].Reset();
      }
      more := args[at].Next();
    }

    ghost predicate Separate()
      reads this, args
    {
      (forall i, j :: 0 <= i < j < |args| ==> args[i] != args[j]) && forall i :: 0 <= i < |args| ==> args[i].Valid()
    }

    lemma NothingRemains()
      requires !toDo && args == []
      ensures Valid() && Remaining() == []
    {
    }

    /** The string includes of the current combination. */
    method GetStringIncludes() returns (includes: Match)
      requires Valid() && !toDo
      ensures includes == Flatten(Currents(Values()))
    {
      includes := [];
      var k := 0;
      ghost var cs := Currents(Values());
      assert cs[0..] == cs;
      while k < |args|
        invariant k <= |args| && includes + Flatten(cs[k..]) == Flatten(cs)
      {
        assert HasCurrent(Values()[k]);
        assert cs[k..][1..] == cs[k + 1..];
        includes := includes + args[k].buffer[args[k].it];
        k := k + 1;
      }
      assert cs[k..] == [];
    }
  }

  // Before the first match.
  lemma StartsAll(vs: seq<Buffered>, all: seq<Combination>) returns (left: nat)
    requires all == Starting(vs)
    ensures StartState(vs[..0], vs[0..], all, left)
  {
    assert vs[0..] == vs;
    left := Left([], Lists(vs), Work(Lists(vs)));
  }

  // After a match.
  lemma BacksAll(vs: seq<Buffered>, all: seq<Combination>) returns (left: nat)
    requires AllCurrent(vs) && all == Outer(vs, [], [])
    ensures BackState(vs[..|vs|], vs[|vs|..], all, left)
  {
    assert vs[..|vs|] == vs && vs[|vs|..] == [];
    left := Left(vs, [], 0);
  }

  lemma NothingLeft(vs: seq<Buffered>, all: seq<Combination>, left: nat)
    requires BackState(vs[..0], vs[0..], all, left)
    ensures all == []
  {
  }

  lemma AllPositioned(vs: seq<Buffered>, all: seq<Combination>, left: nat)
    requires StartState(vs[..|vs|], vs[|vs|..], all, left)
    ensures AllCurrent(vs) && all == [Currents(vs)] + Outer(vs, [], [])
  {
    assert vs[..|vs|] == vs && vs[|vs|..] == [];
    OuterFirst(vs, [], [], []);
    assert [[]] + [] == Starting([]);
    assert Currents(vs) + [] == Currents(vs);
  }

  // One operand has changed.
  lemma SplitAt(vs: seq<Buffered>, ws: seq<Buffered>, at: nat)
    requires |vs| == |ws| && at < |vs| && forall k :: 0 <= k < |vs| && k != at ==> ws[k] == vs[k]
    ensures vs[at..] == [vs[at]] + vs[at + 1..] && vs[..at + 1] == vs[..at] + [vs[at]]
    ensures ws[..at] == vs[..at] && ws[at + 1..] == vs[at + 1..]
    ensures ws[at..] == [ws[at]] + vs[at + 1..] && ws[..at + 1] == vs[..at] + [ws[at]]
  {
  }

  /** The matches of one word: one for each token the store finds. */
  class FTStringSearchMatches {
    const queryPos: nat
    // The positions of the tokens still to come, until the stream has ended.
    var tokenStream: Option<seq<nat>>
    var includes: Match

    constructor (text: seq<string>, word: string, queryPos: nat)
      ensures Remaining() == WordMatches(text, word, queryPos)
    {
      this.queryPos, tokenStream, includes := queryPos, Some(Occurrences(text, word, 0)), [];
    }

    ghost function Remaining(): seq<Match>
      reads this
    {
      match tokenStream
      case None => []
      case Some(positions) => Map((p: nat) => [StringMatch(queryPos, p)], positions)
    }

    method Next() returns (found: bool)
      modifies this
      ensures !found ==> old(Remaining()) == [] && Remaining() == []
      ensures found ==> old(Remaining()) == [includes] + Remaining()
    {
      includes := [];
      if tokenStream == None {
        return false;
      }
      if tokenStream.value == [] {
        tokenStream := None;
        return false;
      }
      includes := [StringMatch(queryPos, tokenStream.value[0])];
      tokenStream := Some(tokenStream.value[1..]);
      return true;
    }
  }

  // Flattening and filtering, one combination at a time.
  lemma FlattenedCons(c: Combination, cs: seq<Combination>)
    ensures Flattened([c] + cs) == [Flatten(c)] + Flattened(cs) && Flattened([]) == []
  {
    assert ([c] + cs)[1..] == cs;
  }

  lemma FilterCons(p: Match -> bool, m: Match, ms: seq<Match>)
    ensures Filter(p, [m] + ms) == (if p(m) then [m] else []) + Filter(p, ms)
    ensures Filter(p, []) == []
  {
    assert ([m] + ms)[1..] == ms;
  }

  /** The matches of a conjunction that are in query order. */
  class FTOrderMatches {
    const arg: FTConjunctionMatches
    var ended: bool

    ghost predicate Valid()
      reads this, arg, arg.args
    {
      arg.Valid() && (!ended || arg.Remaining() == [])
    }

    ghost function Remaining(): seq<Match>
      requires Valid()
      reads this, arg, arg.args
    {
      Filter(InQueryOrder, Flattened(arg.Remaining()))
    }

    constructor (arg: FTConjunctionMatches)
      requires arg.Valid()
      ensures Valid() && this.arg == arg && Remaining() == Filter(InQueryOrder, Flattened(arg.Remaining()))
    {
      this.arg, ended := arg, false;
    }

    method Next() returns (found: bool, includes: Match)
      requires Valid()
      modifies this, arg, arg.args
      ensures Valid() && (arg.args == old(arg.args) || (!found && arg.args == []))
      ensures !found ==> old(Remaining()) == [] && Remaining() == []
      ensures found ==> old(Remaining()) == [includes] + Remaining()
    {
      hide Filter, InQueryOrder, Flattened, Flatten, AllCurrent, Currents;
      hide FTConjunctionMatches.Values, FTConjunctionMatches.Valid, FTConjunctionMatches.Remaining;
      includes := [];
      if ended {
        NothingKept();
        return false, [];
      }
      while true
        invariant Valid() && !ended && arg.args == old(arg.args)
        invariant Remaining() == old(Remaining())
        decreases |arg.Remaining()|
      {
        ghost var before := arg.Remaining();
        found := arg.Next();
        if !found {
          ended := true;
          NothingKept();
          return;
        }
        includes := arg.GetStringIncludes();
        FlattenedCons(Currents(arg.Values()), arg.Remaining());
        FilterCons(InQueryOrder, includes, Flattened(arg.Remaining()));
        var crossed := HasCrossed(includes);
        if !crossed {
          return;
        }
      }
    }

    lemma NothingKept()
      ensures Filter(InQueryOrder, Flattened([])) == []
    {
    }
  }

  // Looks for two words whose order differs.
  method HasCrossed(m: Match) returns (crossed: bool)
    ensures crossed <==> !InQueryOrder(m)
  {
    crossed := false;
    var i := 0;
    while i < |m| && !crossed
      invariant i <= |m|
      invariant crossed ==> !InQueryOrder(m)
      invariant !crossed ==> forall a, b :: 0 <= a < b < |m| && a < i ==> !Crossed(m[a], m[b])
    {
      var j := i + 1;
      while j < |m| && !crossed
        invariant i < j <= |m|
        invariant crossed ==> !InQueryOrder(m)
        invariant !crossed ==> forall b :: i < b < j ==> !Crossed(m[i], m[b])
      {
        crossed := Crossed(m[i], m[j]);
        j := j + 1;
      }
      i := i + 1;
    }
  }

  // Looks for two neighbours in the text whose distance is not in the range.
  method OutOfRange(range: Range, m: Match) returns (out: bool)
    ensures out <==> !WithinRange(range, m)
  {
    out := false;
    if |m| > 1 {
      var sMatches := ByPosition(m);
      var b := 1;
      while b < |sMatches| && !out
        invariant 1 <= b <= |sMatches|
        invariant out ==> !WithinRange(range, m)
        invariant !out ==> forall k :: 0 <= k < b - 1 ==>
          DistanceMatches(range, TokenDistance(sMatches[k].position, sMatches[k + 1].position))
      {
        var a := b - 1;
        var actual := TokenDistance(sMatches[a].position, sMatches[a + 1].position);
        out := !DistanceMatches(range, actual);
        b := b + 1;
      }
    }
  }

  /** The matches in query order whose neighbours are within a range of each other. */
  class FTDistanceMatches {
    const arg: FTOrderMatches
    const range: Range
    var ended: bool

    ghost predicate Valid()
      reads this, arg, arg.arg, arg.arg.args
    {
      arg.Valid() && (!ended || arg.Remaining() == [])
    }

    ghost function Remaining(): seq<Match>
      requires Valid()
      reads this, arg, arg.arg, arg.arg.args
    {
      Filter(Nearby(range), arg.Remaining())
    }

    constructor (arg: FTOrderMatches, range: Range)
      requires arg.Valid()
      ensures Valid() && this.arg == arg && Remaining() == Filter(Nearby(range), arg.Remaining())
    {
      this.arg, this.range, ended := arg, range, false;
    }

    method Next() returns (found: bool, includes: Match)
      requires Valid()
      modifies this, arg, arg.arg, arg.arg.args
      ensures Valid() && (arg.arg.args == old(arg.arg.args) || (!found && arg.arg.args == []))
      ensures !found ==> old(Remaining()) == [] && Remaining() == []
      ensures found ==> old(Remaining()) == [includes] + Remaining()
    {
      hide Filter, WithinRange, FTOrderMatches.Valid, FTOrderMatches.Remaining;
      includes := [];
      if ended {
        NothingKept();
        return false, [];
      }
      while true
        invariant Valid() && !ended && arg.arg.args == old(arg.arg.args)
        invariant Remaining() == old(Remaining())
        decreases |arg.Remaining()|
      {
        found, includes := arg.Next();
        if !found {
          ended := true;
          NothingKept();
          return;
        }
        FilterCons(Nearby(range), includes, arg.Remaining());
        var out := OutOfRange(range, includes);
        if !out {
          return;
        }
      }
    }

    lemma NothingKept()
      ensures Filter(Nearby(range), []) == []
    {
    }
  }

  lemma {:induction false} OperandsGrow(text: seq<string>, query: seq<string>, word: string, queryPos: nat)
    ensures Operands(text, query + [word], queryPos)
         == Operands(text, query, queryPos) + [WordMatches(text, word, queryPos + |query|)]
  {
  }

  /** Searches a text for a phrase: a conjunction of its words, in query order, at distance
      zero. */
  method ExecutePhrase(text: seq<string>, query: seq<string>, queryPos: nat) returns (all: seq<Match>)
    ensures all == PhraseMatches(text, query, queryPos)
  {
    hide Filter, Delivered, Outer, Starting, FTConjunctionMatches.Valid, FTConjunctionMatches.Remaining;
    var conjunction := ExecuteAllWords(text, query, queryPos);
    var order := new FTOrderMatches(conjunction);
    var distance := new FTDistanceMatches(order, Exactly(0));
    all := Drain(distance);
  }

  // Reads all matches.
  method Drain(matches: FTDistanceMatches) returns (all: seq<Match>)
    requires matches.Valid()
    modifies matches, matches.arg, matches.arg.arg, matches.arg.arg.args
    ensures all == old(matches.Remaining())
  {
    hide FTDistanceMatches.Valid, FTDistanceMatches.Remaining;
    all := [];
    while true
      invariant matches.Valid() && matches.arg.arg.args == old(matches.arg.arg.args)
      invariant all + matches.Remaining() == old(matches.Remaining())
      decreases |matches.Remaining()|
    {
      var found, includes := matches.Next();
      if !found {
        return;
      }
      all := all + [includes];
    }
  }

  /** The conjunction of the words of a query. */
  method ExecuteAllWords(text: seq<string>, query: seq<string>, queryPos: nat)
      returns (conjunction: FTConjunctionMatches)
    ensures conjunction.Valid() && fresh(conjunction) && fresh(conjunction.args)
    ensures conjunction.Remaining() == Delivered(Operands(text, query, queryPos))
  {
    hide Starting, Delivered, Lists, Operands, WordMatches;
    conjunction := new FTConjunctionMatches();
    var k := 0;
    assert Lists([]) == Operands(text, [], queryPos) by { NoOperands(text, queryPos); }
    while k < |query|
      invariant k <= |query| && conjunction.Valid() && conjunction.toDo && fresh(conjunction) && fresh(conjunction.args)
      invariant forall i :: 0 <= i < |conjunction.args| ==> conjunction.Values()[i].buffer == []
      invariant Lists(conjunction.Values()) == Operands(text, query[..k], queryPos)
    {
      ghost var was := conjunction.Values();
      conjunction.AddMatches(WordMatches(text, query[k], queryPos + k));
      assert [] + WordMatches(text, query[k], queryPos + k) == WordMatches(text, query[k], queryPos + k);
      ListsGrow(was, Buffered(WordMatches(text, query[k], queryPos + k), [], 0, false));
      OperandsGrow(text, query[..k], query[k], queryPos);
      assert query[..k + 1] == query[..k] + [query[k]];
      k := k + 1;
    }
    assert query[..k] == query;
    StartingIsDelivered(conjunction.Values());
  }

  lemma NoOperands(text: seq<string>, queryPos: nat)
    ensures Lists([]) == Operands(text, [], queryPos)
  {
  }

  lemma ListsGrow(args: seq<Buffered>, b: Buffered)
    ensures Lists(args + [b]) == Lists(args) + [AllOf(b)]
  {
  }
}
