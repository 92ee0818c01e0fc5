/** Places in sequences. */
module Places {
  // Some items of a sequence, in their order, given by their places.

  import opened Sequences

  predicate Rises(ks: seq<nat>) {
    forall i, j :: 0 <= i < j < |ks| ==> ks[i] < ks[j]
  }

  // r is the items of s at the places ks, which rise.
  ghost predicate TakenAt<A>(s: seq<A>, ks: seq<nat>, r: seq<A>) {
    Rises(ks) && |r| == |ks| && forall i :: 0 <= i < |ks| ==> ks[i] < |s| && r[i] == s[ks[i]]
  }

  function Shifted(ks: seq<nat>): (r: seq<nat>)
    ensures |r| == |ks| && forall i :: 0 <= i < |ks| ==> r[i] == ks[i] + 1
  {
    seq(|ks|, i requires 0 <= i < |ks| => ks[i] + 1)
  }

  lemma ShiftedHas(ks: seq<nat>, k: nat)
    ensures 0 !in Shifted(ks) && (k + 1 in Shifted(ks) <==> k in ks)
  {
    if k in ks {
      var i :| 0 <= i < |ks| && ks[i] == k;
      assert Shifted(ks)[i] == k + 1;
    }
  }

  lemma TakenRest<A>(s: seq<A>, ks: seq<nat>, r: seq<A>)
    requires s != [] && TakenAt(s[1..], ks, r)
    ensures TakenAt(s, Shifted(ks), r)
  {
    var more := Shifted(ks);
    forall i, j | 0 <= i < j < |more| ensures more[i] < more[j] {
      assert ks[i] < ks[j];
    }
    forall i | 0 <= i < |more| ensures more[i] < |s| && r[i] == s[more[i]] {
      assert s[1..][ks[i]] == s[more[i]];
    }
  }

  lemma TakenFirst<A>(s: seq<A>, ks: seq<nat>, r: seq<A>)
    requires s != [] && TakenAt(s, ks, r) && forall i :: 0 <= i < |ks| ==> ks[i] > 0
    ensures TakenAt(s, [0] + ks, [s[0]] + r)
  {
    var more, all := [0] + ks, [s[0]] + r;
    forall i, j | 0 <= i < j < |more| ensures more[i] < more[j] {
      assert i > 0 ==> ks[i - 1] < ks[j - 1];
    }
    forall i | 0 <= i < |more| ensures more[i] < |s| && all[i] == s[more[i]] {
      assert i > 0 ==> all[i] == r[i - 1] && more[i] == ks[i - 1];
    }
  }

  lemma NothingTaken<A>(s: seq<A>)
    ensures TakenAt(s, [], [])
  {
  }

  lemma {:induction false} FilterTaken<A>(test: A -> bool, s: seq<A>) returns (ks: seq<nat>)
    ensures TakenAt(s, ks, Filter(test, s))
    ensures forall k: nat :: k in ks <==> k < |s| && test(s[k])
  {
    hide TakenAt;
    if s == [] {
      ks := [];
      assert TakenAt(s, ks, []) by { NothingTaken(s); }
    } else {
      var rest := FilterTaken<A>(test, s[1..]);
      TakenRest(s, rest, Filter(test, s[1..]));
      if test(s[0]) {
        TakenFirst(s, Shifted(rest), Filter(test, s[1..]));
      }
      ks := if test(s[0]) then [0] + Shifted(rest) else Shifted(rest);
      forall k: nat ensures k in ks <==> k < |s| && test(s[k]) {
        ShiftedHas(rest, if k == 0 then 0 else k - 1);
      }
    }
  }

  // Rising places are determined by which there are.
  lemma {:induction false} SameRising(a: seq<nat>, b: seq<nat>)
    requires Rises(a) && Rises(b) && forall k: nat :: k in a <==> k in b
    ensures a == b
  {
    if a == [] {
      FirstPlace(b);
    } else {
      assert a[0] in b && b != [] && b[0] in a;
      assert a[0] == b[0];
      RisesTail(a);
      RisesTail(b);
      SameRising(a[1..], b[1..]);
      assert a == [a[0]] + a[1..] && b == [b[0]] + b[1..];
    }
  }

  lemma FirstPlace(a: seq<nat>)
    ensures a != [] ==> a[0] in a
  {
  }

  lemma RisesTail(a: seq<nat>)
    requires Rises(a) && a != []
    ensures Rises(a[1..]) && forall k: nat :: k in a[1..] <==> k in a && k != a[0]
  {
  }
}
