/** The string pool: a hash table of chains that hands out one reference for each content.
    The buckets are linked in place, and moved to a larger table without new references when
    the table fills up. */
module StringPool {
  import opened Options

  // A 16-bit character.
  type XMLCh = x: nat | x < 0x1_0000

  type Chars = seq<XMLCh>

  // A string in memory; two of them are the same only if they are the same object.
  class Text {
    const chars: Chars

    constructor (chars: Chars)
      ensures this.chars == chars
    {
      this.chars := chars;
    }
  }

  const INITIAL_MODULUS := 233
  const LENGTH_THRESHOLD := 100
  const WORD_SIZE := 0x1_0000_0000

  /** The hash, in unsigned 32-bit arithmetic. */
  function Hash(v: Chars): (h: nat)
    ensures h < WORD_SIZE
  {
    if v == [] then 0
    else
      var h := Hash(v[..|v| - 1]);
      (h + h * 37 + h / 0x100_0000 + v[|v| - 1]) % WORD_SIZE
  }

  /** Where nothing is shifted out or wraps, as in strings of up to three characters, the hash is
      the value of the characters as digits to the base 38. */
  lemma ShortHash(a: XMLCh, b: XMLCh, c: XMLCh)
    ensures Hash([]) == 0 && Hash([a]) == a && Hash([a, b]) == 38 * a + b && Hash([a, b, c]) == 38 * (38 * a + b) + c
    ensures forall v: Chars, d: XMLCh :: Hash(v) < 0x100_0000 ==> Hash(v + [d]) == 38 * Hash(v) + d
  {
    hide Hash;
    HashEmpty();
    HashNext([], a);
    HashNext([a], b);
    HashNext([a, b], c);
    assert [] + [a] == [a] && [a] + [b] == [a, b] && [a, b] + [c] == [a, b, c];
    forall v: Chars, d: XMLCh ensures Hash(v) < 0x100_0000 ==> Hash(v + [d]) == 38 * Hash(v) + d {
      HashNext(v, d);
    }
  }

  lemma HashEmpty()
    ensures Hash([]) == 0
  {
  }

  lemma HashNext(v: Chars, d: XMLCh)
    ensures Hash(v) < 0x100_0000 ==> Hash(v + [d]) == 38 * Hash(v) + d
  {
    assert (v + [d])[..|v|] == v;
  }

  method ComputeHash(v: Chars, length: nat) returns (hashVal: nat)
    requires length <= |v|
    ensures hashVal == Hash(v[..length])
  {
    hashVal := 0;
    var k := 0;
    while k < length
      invariant k <= length && hashVal == Hash(v[..k])
    {
      assert v[..k + 1][..k] == v[..k];
      hashVal := (hashVal + hashVal * 37 + hashVal / 0x100_0000 + v[k]) % WORD_SIZE;
      k := k + 1;
    }
  }

  // What a string is when it is read up to its first zero.
  function UpToZero(v: Chars): Chars {
    if v == [] || v[0] == 0 then [] else [v[0]] + UpToZero(v[1..])
  }

  lemma {:induction false} UpToZeroAll(v: Chars)
    ensures |UpToZero(v)| <= |v| && (UpToZero(v) == v <==> 0 !in v)
    ensures 0 in v ==> |UpToZero(v)| < |v|
  {
    if v != [] {
      UpToZeroAll(v[1..]);
      assert v == [v[0]] + v[1..];
    }
  }

  // Compares a terminated string with the first len characters of another.
  function EqualsN(str1: Chars, str2: Chars, len: nat): bool
    requires len <= |str2|
    decreases len
  {
    if len == 0 then str1 == [] || str1[0] == 0
    else if (if str1 == [] then 0 else str1[0]) != str2[0] then false
    else str1 != [] && EqualsN(str1[1..], str2[1..], len - 1)
  }

  /** Among strings of the given length, the comparison finds the one with the same content,
      even where there are zeros in it. */
  lemma {:induction false} EqualsNIs(str1: Chars, str2: Chars, len: nat)
    requires len <= |str2| && |str1| == len
    ensures EqualsN(str1, str2, len) <==> str1 == str2[..len]
    decreases len
  {
    if len > 0 {
      EqualsNIs(str1[1..], str2[1..], len - 1);
      assert str1 == [str1[0]] + str1[1..];
      assert str2[..len] == [str2[0]] + str2[1..][..len - 1];
    }
  }

  /** For a request without zeros, comparing up to the first zero comes to the same, so the two
      kinds of requests can share one table. */
  lemma ComparisonsAgree(v: Chars, src: Chars)
    requires |v| == |src| && 0 !in src
    ensures UpToZero(v) == src <==> EqualsN(v, src, |src|)
  {
    UpToZeroAll(v);
    EqualsNIs(v, src, |src|);
    assert src[..|src|] == src;
  }

  class Bucket {
    const value: Text
    const length: nat
    const hashValue: nat
    var next: Bucket?

    constructor (value: Text, length: nat, hashValue: nat, next: Bucket?)
      ensures this.value == value && this.length == length && this.hashValue == hashValue && this.next == next
    {
      this.value, this.length, this.hashValue, this.next := value, length, hashValue, next;
    }
  }

  // The buckets from head on are those of the chain.
  ghost predicate IsChain(head: Bucket?, chain: seq<Bucket>)
    reads set b | b in chain
  {
    && head == At(chain, 0)
    && forall k :: 0 <= k < |chain| ==> chain[k].next == At(chain, k + 1)
  }

  // The bucket at a place in the chain, or null at its end.
  ghost function At(chain: seq<Bucket>, k: nat): Bucket? {
    if k < |chain| then chain[k] else null
  }

  ghost predicate Once(chain: seq<Bucket>) {
    forall j, k :: 0 <= j < k < |chain| ==> chain[j] != chain[k]
  }

  // The bucket has the length and the hash of its value.
  predicate Proper(b: Bucket) {
    b.length == |b.value.chars| && b.hashValue == Hash(b.value.chars) && 0 < b.length <= LENGTH_THRESHOLD
  }

  // The chains hold these buckets, each in the chain of its hash.
  ghost predicate Table(chains: seq<seq<Bucket>>, buckets: set<Bucket>) {
    && |chains| > 0
    && (forall i :: 0 <= i < |chains| ==> InPlace(chains[i], i, |chains|, buckets))
    && forall b :: b in buckets ==> Proper(b) && b in chains[b.hashValue % |chains|]
  }

  ghost predicate InPlace(chain: seq<Bucket>, i: nat, modulus: nat, buckets: set<Bucket>)
    requires modulus > 0
  {
    Once(chain) && forall b :: b in chain ==> b in buckets && b.hashValue % modulus == i
  }

  // The references by content, and the buckets that hold them.
  ghost predicate Agree(buckets: set<Bucket>, entries: map<Chars, Text>) {
    && (forall b :: b in buckets ==> b.value.chars in entries && entries[b.value.chars] == b.value)
    && (forall s :: s in entries ==> entries[s].chars == s && exists b :: b in buckets && b.value == entries[s])
    && forall b, c :: b in buckets && c in buckets && b.value.chars == c.value.chars ==> b == c
  }

  // ----- the load of the table

  function Power(k: nat): nat {
    if k == 0 then 1 else 2 * Power(k - 1)
  }

  // The largest size reached by doubling with which three quarters can be computed in 32 bits.
  const LARGEST := 981467135

  ghost predicate Doubled(modulus: nat) {
    exists k :: 0 <= k <= 22 && modulus == DoubledBy(k)
  }

  function DoubledBy(k: nat): int {
    (INITIAL_MODULUS + 1) * Power(k) - 1
  }

  // Whether the table is enlarged before the next string goes in.
  predicate IsFull(count: nat, modulus: nat) {
    count >= modulus * 3 % WORD_SIZE / 4
  }

  function Enlarged(modulus: nat): nat {
    (modulus * 2 + 1) % WORD_SIZE
  }

  /** Below 736,100,351 strings the table is at most three quarters full. */
  ghost predicate Loaded(strings: nat, modulus: nat) {
    strings < LARGEST * 3 / 4 ==> Doubled(modulus) && strings <= modulus * 3 / 4
  }

  lemma {:induction false} PowerRises(k: nat, m: nat)
    requires k <= m
    ensures 0 < Power(k) <= Power(m)
    decreases m
  {
    if k < m {
      PowerRises(k, m - 1);
    } else if k > 0 {
      PowerRises(k - 1, m - 1);
    }
  }

  lemma {:induction false} PowerSum(k: nat, m: nat)
    ensures Power(k + m) == Power(k) * Power(m)
  {
    if m > 0 {
      PowerSum(k, m - 1);
    }
  }

  lemma DoubledIs(modulus: nat)
    requires Doubled(modulus)
    ensures INITIAL_MODULUS <= modulus <= LARGEST
    ensures modulus < LARGEST ==> Doubled(2 * modulus + 1)
  {
    var k :| 0 <= k <= 22 && modulus == DoubledBy(k);
    PowerSum(11, 11);
    assert Power(11) == 2048;
    PowerRises(0, k);
    PowerRises(k, 22);
    if modulus < LARGEST {
      assert k < 22 && 2 * modulus + 1 == DoubledBy(k + 1);
    }
  }

  /** Enlarging a full table keeps the load in bounds; wrapping around in the sizes starts only
      beyond them. */
  lemma EnlargedIsLoaded(strings: nat, modulus: nat)
    requires Loaded(strings, modulus) && IsFull(strings % WORD_SIZE, modulus)
    ensures Loaded(strings, Enlarged(modulus)) && Loaded(strings + 1, Enlarged(modulus))
  {
    hide Doubled;
    if strings < LARGEST * 3 / 4 {
      DoubledIs(modulus);
      DoubledIs(2 * modulus + 1);
    }
  }

  lemma AddedIsLoaded(strings: nat, modulus: nat)
    requires Loaded(strings, modulus) && !IsFull(strings % WORD_SIZE, modulus)
    ensures Loaded(strings + 1, modulus)
  {
    hide Doubled;
    if strings < LARGEST * 3 / 4 {
      DoubledIs(modulus);
    }
  }

  lemma CountUp(n: nat)
    ensures (n % WORD_SIZE + 1) % WORD_SIZE == (n + 1) % WORD_SIZE
  {
  }

  class StringPool {
    const zeroLenString: Text
    var bucketList: array<Bucket?>
    var modulus: nat
    var count: nat
    var hits: nat
    var misses: nat
    var tooBig: nat
    ghost var chains: seq<seq<Bucket>>
    ghost var buckets: set<Bucket>
    // The pooled references, by content.
    ghost var entries: map<Chars, Text>

    // The arithmetic of count and modulus is unsigned and 32 bits wide.
    ghost predicate Valid()
      reads this, bucketList, buckets
    {
      && modulus == bucketList.Length == |chains| && 0 < modulus < WORD_SIZE
      && Table(chains, buckets) && Agree(buckets, entries)
      && Chained(bucketList[..], chains, buckets)
      && count == |entries| % WORD_SIZE && Loaded(|entries|, modulus)
      && zeroLenString.chars == []
    }

    constructor ()
      ensures Valid() && entries == map[] && fresh(bucketList) && buckets == {} && modulus == 233
    {
      zeroLenString := new Text([]);
      bucketList := new Bucket?[INITIAL_MODULUS](_ => null);
      modulus, count, hits, misses, tooBig := INITIAL_MODULUS, 0, 0, 0, 0;
      chains, buckets, entries := seq(INITIAL_MODULUS, _ => []), {}, map[];
      assert DoubledBy(0) == INITIAL_MODULUS;
    }

    /** Walks the chain of the string's hash. */
    method Find(src: Chars, length: nat, hashVal: nat) returns (bucket: Bucket?)
      requires Valid() && 0 < length <= LENGTH_THRESHOLD && length <= |src| && hashVal == Hash(src[..length])
      ensures bucket == null <==> src[..length] !in entries
      ensures bucket != null ==> src[..length] in entries && bucket.value == entries[src[..length]]
    {
      hide Hash, EqualsN, Table, Agree, IsChain;
      ghost var s := src[..length];
      var i := hashVal % modulus;
      ghost var chain, k := chains[i], 0;
      bucket := bucketList[i];
      while bucket != null
        invariant k <= |chain| && IsChain(bucket, chain[k..])
        invariant forall j :: 0 <= j < k ==> chain[j].value.chars != s
        decreases |chain| - k
      {
        ChainHead(bucket, chain[k..]);
        BucketIn(chains, buckets, entries, i, k);
        if bucket.length == length {
          EqualsNIs(bucket.value.chars, src, length);
          if EqualsN(bucket.value.chars, src, length) {
            return;
          }
        }
        bucket := bucket.next;
        k := k + 1;
      }
      ChainEnd(chain[k..]);
      NotHere(chains, buckets, entries, s, chain);
    }

    /** Enlarges a full table; the buckets are moved, and the references stay. */
    method Resize()
      requires Valid() && IsFull(count, modulus)
      modifies this`bucketList, this`modulus, this`chains, buckets
      ensures Valid() && modulus == Enlarged(old(modulus)) && Loaded(|entries| + 1, modulus) && fresh(bucketList)
    {
      hide Table, Agree, Chained, Loaded;
      var newModulus := Enlarged(modulus);
      EnlargedIsOdd(modulus);
      EnlargedIsLoaded(|entries|, modulus);
      var newList := new Bucket?[newModulus](_ => null);
      ghost var newChains := Rehash(bucketList, newList, chains, buckets);
      bucketList, modulus, chains := newList, newModulus, newChains;
    }

    // Puts a copy of the string in the pool.
    method Add(src: Chars, length: nat, hashVal: nat) returns (result: Text)
      requires Valid() && 0 < length <= LENGTH_THRESHOLD && length <= |src|
      requires hashVal == Hash(src[..length]) && src[..length] !in entries
      modifies this`count, this`bucketList, this`modulus, this`chains, this`buckets, this`entries, bucketList, buckets
      ensures Valid() && entries == old(entries)[src[..length] := result]
      ensures fresh(result) && result.chars == src[..length]
      ensures bucketList == old(bucketList) || fresh(bucketList)
      ensures fresh(buckets - old(buckets))
    {
      hide Hash, Table, Agree, Chained, Loaded, IsFull;
      if IsFull(count, modulus) {
        Resize();
      } else {
        AddedIsLoaded(|entries|, modulus);
      }
      result := new Text(src[..length]);
      AddBucket(result, length, hashVal);
    }

    // A new bucket at the front of its chain.
    method AddBucket(value: Text, length: nat, hashVal: nat)
      requires Valid() && Loaded(|entries| + 1, modulus) && value.chars !in entries
      requires 0 < length && length == |value.chars| && length <= LENGTH_THRESHOLD && hashVal == Hash(value.chars)
      modifies this`count, this`chains, this`buckets, this`entries, bucketList
      ensures Valid() && entries == old(entries)[value.chars := value] && fresh(buckets - old(buckets))
    {
      hide Hash, Table, Agree, Chained, IsChain, Loaded;
      var m := hashVal % modulus;
      var bucket := new Bucket(value, length, hashVal, bucketList[m]);
      assert bucket !in buckets;
      ghost var heads := bucketList[..];
      bucketList[m] := bucket;
      assert bucketList[..] == heads[m := bucket];
      ChainedAdd(heads, chains, buckets, bucket, m);
      TableAdd(chains, buckets, bucket, m);
      AgreeAdd(buckets, entries, bucket);
      CountUp(|entries|);
      chains, buckets, entries := chains[m := [bucket] + chains[m]], buckets + {bucket}, entries[value.chars := value];
      count := (count + 1) % WORD_SIZE;
    }

    /** The reference for a terminated string; nothing for a null pointer. */
    method GetPooledString(src: Option<Chars>) returns (result: Text?)
      requires Valid() && (src != None ==> 0 !in src.value)
      modifies this, bucketList, buckets
      ensures Valid() && (bucketList == old(bucketList) || fresh(bucketList)) && fresh(buckets - old(buckets))
      ensures src == None ==> result == null && entries == old(entries)
      ensures src != None ==> result != null && Answers(old(entries), entries, zeroLenString, src.value, result)
      ensures src != None && IsNew(old(entries), src.value) ==> fresh(result)
      ensures (hits, misses, tooBig) ==
              if src == None then old((hits, misses, tooBig))
              else Tallied(old(entries), src.value, old(hits), old(misses), old(tooBig))
    {
      if src != None {
        assert src.value[..|src.value|] == src.value;
      }
      result := GetPooledStringN(src, if src == None then 0 else |src.value|);
    }

    /** The same for the first length characters, whatever they are. */
    method GetPooledStringN(src: Option<Chars>, length: nat) returns (result: Text?)
      requires Valid() && (src != None ==> length <= |src.value|)
      modifies this, bucketList, buckets
      ensures Valid() && (bucketList == old(bucketList) || fresh(bucketList)) && fresh(buckets - old(buckets))
      ensures src == None ==> result == null && entries == old(entries)
      ensures src != None ==>
        result != null && Answers(old(entries), entries, zeroLenString, src.value[..length], result)
      ensures src != None && IsNew(old(entries), src.value[..length]) ==> fresh(result)
      ensures (hits, misses, tooBig) ==
              if src == None then old((hits, misses, tooBig))
              else Tallied(old(entries), src.value[..length], old(hits), old(misses), old(tooBig))
    {
      hide Hash, Table, Agree, Chained, Loaded;
      if src == None {
        return null;
      }
      if length == 0 {
        return zeroLenString;
      }
      if length > LENGTH_THRESHOLD {
        tooBig := (tooBig + 1) % WORD_SIZE;
        result := new Text(src.value[..length]);
        return;
      }
      result := Intern(src.value, length);
    }

    // Looks the string up, and puts it in the pool if it is not there.
    method Intern(src: Chars, length: nat) returns (result: Text)
      requires Valid() && 0 < length <= LENGTH_THRESHOLD && length <= |src|
      modifies this, bucketList, buckets
      ensures Valid() && (bucketList == old(bucketList) || fresh(bucketList)) && fresh(buckets - old(buckets))
      ensures Answers(old(entries), entries, zeroLenString, src[..length], result)
      ensures IsNew(old(entries), src[..length]) ==> fresh(result)
      ensures (hits, misses, tooBig) == Tallied(old(entries), src[..length], old(hits), old(misses), old(tooBig))
    {
      hide Hash, Table, Agree, Chained, Loaded;
      var hashVal := ComputeHash(src, length);
      var bucket := Find(src, length, hashVal);
      if bucket != null {
        EntryIs(buckets, entries, src[..length]);
        result := bucket.value;
        hits := (hits + 1) % WORD_SIZE;
      } else {
        misses := (misses + 1) % WORD_SIZE;
        result := Add(src, length, hashVal);
      }
    }
  }

  lemma EnlargedIsOdd(modulus: nat)
    ensures Enlarged(modulus) % 2 == 1 && 0 < Enlarged(modulus) < WORD_SIZE
  {
  }

  // The string is not in the pool, or will not be.
  predicate IsNew(entries: map<Chars, Text>, s: Chars) {
    |s| > 100 || (s != [] && s !in entries)
  }

  /** The reference that a request for s gets, and what the pool holds then: one reference for
      the empty string, one for each poolable content, and long strings on their own. */
  ghost predicate Answers(before: map<Chars, Text>, after: map<Chars, Text>, zero: Text, s: Chars, result: Text) {
    && result.chars == s
    && if s == [] then result == zero && after == before
       else if |s| > 100 then after == before
       else if s in before then result == before[s] && after == before
       else after == before[s := result]
  }

  // The numbers of requests found, of requests put in the pool, and of those that are too long.
  function Tallied(before: map<Chars, Text>, s: Chars, hits: nat, misses: nat, tooBig: nat): (nat, nat, nat) {
    if s == [] then (hits, misses, tooBig)
    else if |s| > 100 then (hits, misses, (tooBig + 1) % 0x1_0000_0000)
    else if s in before then ((hits + 1) % 0x1_0000_0000, misses, tooBig)
    else (hits, (misses + 1) % 0x1_0000_0000, tooBig)
  }

  lemma EntryIs(buckets: set<Bucket>, entries: map<Chars, Text>, s: Chars)
    requires Agree(buckets, entries) && s in entries
    ensures entries[s].chars == s
  {
  }

  lemma TableAdd(chains: seq<seq<Bucket>>, buckets: set<Bucket>, bucket: Bucket, m: nat)
    requires Table(chains, buckets) && bucket !in buckets && Proper(bucket) && m == bucket.hashValue % |chains|
    ensures Table(chains[m := [bucket] + chains[m]], buckets + {bucket})
  {
    PlaceOne(chains, buckets, bucket, m);
  }

  lemma AgreeAdd(buckets: set<Bucket>, entries: map<Chars, Text>, bucket: Bucket)
    requires Agree(buckets, entries) && bucket !in buckets && bucket.value.chars !in entries
    ensures Agree(buckets + {bucket}, entries[bucket.value.chars := bucket.value])
  {
  }

  lemma ChainedAdd(heads: seq<Bucket?>, chains: seq<seq<Bucket>>, buckets: set<Bucket>, bucket: Bucket, m: nat)
    requires Chained(heads, chains, buckets) && m < |heads| && bucket !in buckets && bucket.next == heads[m]
    ensures Chained(heads[m := bucket], chains[m := [bucket] + chains[m]], buckets + {bucket})
  {
    ChainPush(bucket, chains[m]);
  }

  // Each slot of the list has its chain.
  ghost predicate Chained(heads: seq<Bucket?>, chains: seq<seq<Bucket>>, buckets: set<Bucket>)
    reads buckets
  {
    && |chains| == |heads|
    && forall i :: 0 <= i < |heads| ==> (forall b :: b in chains[i] ==> b in buckets) && IsChain(heads[i], chains[i])
  }

  // Moves all buckets from one list to another, chain by chain.
  method Rehash(oldList: array<Bucket?>, newList: array<Bucket?>, ghost chains: seq<seq<Bucket>>,
      ghost buckets: set<Bucket>)
    returns (ghost newChains: seq<seq<Bucket>>)
    requires Table(chains, buckets) && Chained(oldList[..], chains, buckets) && oldList != newList
    requires |chains| == oldList.Length > 0
    requires newList.Length > 0 && forall m :: 0 <= m < newList.Length ==> newList[m] == null
    modifies newList, buckets
    ensures |newChains| == newList.Length && Table(newChains, buckets) && Chained(newList[..], newChains, buckets)
  {
    hide Hash, Proper, Moving, Table, InPlace;
    ghost var moved: set<Bucket> := {};
    newChains := seq(newList.Length, _ => []);
    NothingMoved(newList, newChains);
    var i := 0;
    while i < oldList.Length
      invariant i <= oldList.Length && newList.Length == |newChains| && moved <= buckets
      invariant Moving(newList[..], newChains, moved)
      invariant forall b :: b in buckets ==> (b in moved <==> b.hashValue % |chains| < i)
      invariant forall b :: b in buckets && b !in moved ==> b.next == old(b.next)
    {
      ChainIn(chains, buckets, i);
      assert old(IsChain(oldList[i], chains[i]));
      newChains, moved := MoveChain(oldList[i], chains[i], newList, newChains, moved);
      i := i + 1;
    }
    AllMoved(newList, newChains, moved, chains, buckets);
  }

  // The moved buckets make up the new chains.
  ghost predicate Moving(heads: seq<Bucket?>, newChains: seq<seq<Bucket>>, moved: set<Bucket>)
    reads moved
  {
    && |newChains| == |heads| > 0
    && (forall m :: 0 <= m < |heads| ==> InPlace(newChains[m], m, |newChains|, moved))
    && (forall m :: 0 <= m < |heads| ==>
          (forall b :: b in newChains[m] ==> b in moved) && IsChain(heads[m], newChains[m]))
    && forall b :: b in moved ==> b in newChains[b.hashValue % |newChains|]
  }

  lemma NothingMoved(newList: array<Bucket?>, newChains: seq<seq<Bucket>>)
    requires |newChains| == newList.Length > 0
    requires forall m :: 0 <= m < newList.Length ==> newList[m] == null && newChains[m] == []
    ensures Moving(newList[..], newChains, {})
  {
  }

  // Moves the buckets of one chain, from the front.
  method MoveChain(head: Bucket?, ghost chain: seq<Bucket>, newList: array<Bucket?>,
      ghost newChains: seq<seq<Bucket>>, ghost moved: set<Bucket>)
    returns (ghost chains2: seq<seq<Bucket>>, ghost moved2: set<Bucket>)
    requires IsChain(head, chain) && Once(chain) && (forall b :: b in chain ==> b !in moved)
    requires newList.Length == |newChains| > 0 && Moving(newList[..], newChains, moved)
    modifies newList, set b | b in chain
    ensures |chains2| == newList.Length && Moving(newList[..], chains2, moved2)
    ensures forall b :: b in moved2 <==> b in moved || b in chain
  {
    hide Moving, Hash, Proper, IsChain, Once;
    chains2, moved2 := newChains, moved;
    ghost var rest := chain;
    var bucket := head;
    while bucket != null
      invariant IsChain(bucket, rest) && Once(rest)
      invariant forall b :: b in rest ==> b in chain && b !in moved2
      invariant newList.Length == |chains2| > 0 && Moving(newList[..], chains2, moved2)
      invariant forall b :: b in moved2 || b in rest <==> b in moved || b in chain
      decreases |rest|
    {
      RestOfChain(bucket, rest);
      var next := bucket.next;
      chains2 := MoveOne(bucket, newList, chains2, moved2);
      moved2, rest := moved2 + {bucket}, rest[1..];
      bucket := next;
    }
    ChainEnd(rest);
  }

  // The first bucket is apart from the rest of its chain.
  lemma RestOfChain(bucket: Bucket, chain: seq<Bucket>)
    requires IsChain(bucket, chain) && Once(chain)
    ensures chain != [] && chain[0] == bucket && IsChain(bucket.next, chain[1..]) && Once(chain[1..])
    ensures bucket !in chain[1..] && forall b :: b in chain <==> b == bucket || b in chain[1..]
  {
    ChainHead(bucket, chain);
    assert chain == [bucket] + chain[1..];
  }

  // Moves one bucket to the front of its new chain.
  method MoveOne(bucket: Bucket, newList: array<Bucket?>, ghost newChains: seq<seq<Bucket>>, ghost moved: set<Bucket>)
    returns (ghost chains2: seq<seq<Bucket>>)
    requires bucket !in moved && newList.Length > 0
    requires Moving(newList[..], newChains, moved) && |newChains| == newList.Length
    modifies newList, bucket`next
    ensures |chains2| == newList.Length && Moving(newList[..], chains2, moved + {bucket})
  {
    hide Moving;
    var m := bucket.hashValue % newList.Length;
    chains2 := newChains[m := [bucket] + newChains[m]];
    ghost var heads := newList[..];
    bucket.next := newList[m];
    newList[m] := bucket;
    assert newList[..] == heads[m := bucket];
    MovingAdd(heads, newChains, moved, bucket, m);
  }

  lemma MovingAdd(heads: seq<Bucket?>, newChains: seq<seq<Bucket>>, moved: set<Bucket>, bucket: Bucket, m: nat)
    requires Moving(heads, newChains, moved) && bucket !in moved
    requires m == bucket.hashValue % |heads| && bucket.next == heads[m]
    ensures Moving(heads[m := bucket], newChains[m := [bucket] + newChains[m]], moved + {bucket})
  {
    ChainPush(bucket, newChains[m]);
    PlaceOne(newChains, moved, bucket, m);
  }

  lemma ChainPush(bucket: Bucket, chain: seq<Bucket>)
    requires IsChain(bucket.next, chain)
    ensures IsChain(bucket, [bucket] + chain)
  {
  }

  lemma PlaceOne(chains: seq<seq<Bucket>>, moved: set<Bucket>, bucket: Bucket, m: nat)
    requires |chains| > 0 && bucket !in moved && m == bucket.hashValue % |chains|
    requires forall k :: 0 <= k < |chains| ==> InPlace(chains[k], k, |chains|, moved)
    requires forall b :: b in moved ==> b in chains[b.hashValue % |chains|]
    ensures var chains2 := chains[m := [bucket] + chains[m]];
            && (forall k :: 0 <= k < |chains| ==> InPlace(chains2[k], k, |chains|, moved + {bucket}))
            && forall b :: b in moved + {bucket} ==> b in chains2[b.hashValue % |chains|]
  {
    var chains2 := chains[m := [bucket] + chains[m]];
    assert bucket !in chains[m];
    assert InPlace(chains2[m], m, |chains|, moved + {bucket});
  }

  lemma AllMoved(newList: array<Bucket?>, newChains: seq<seq<Bucket>>, moved: set<Bucket>, chains: seq<seq<Bucket>>,
      buckets: set<Bucket>)
    requires Table(chains, buckets) && moved <= buckets && Moving(newList[..], newChains, moved)
    requires forall b :: b in buckets ==> (b in moved <==> b.hashValue % |chains| < |chains|)
    ensures moved == buckets && Table(newChains, buckets) && Chained(newList[..], newChains, buckets)
  {
  }

  lemma ChainHead(bucket: Bucket, chain: seq<Bucket>)
    requires IsChain(bucket, chain)
    ensures chain != [] && chain[0] == bucket && IsChain(bucket.next, chain[1..])
  {
  }

  lemma ChainEnd(chain: seq<Bucket>)
    requires IsChain(null, chain)
    ensures chain == []
  {
  }

  lemma ChainIn(chains: seq<seq<Bucket>>, buckets: set<Bucket>, i: nat)
    requires Table(chains, buckets) && i < |chains|
    ensures Once(chains[i])
    ensures forall b :: b in chains[i] <==> b in buckets && b.hashValue % |chains| == i
  {
  }

  lemma BucketIn(chains: seq<seq<Bucket>>, buckets: set<Bucket>, entries: map<Chars, Text>, i: nat, k: nat)
    requires Table(chains, buckets) && Agree(buckets, entries) && i < |chains| && k < |chains[i]|
    ensures var b := chains[i][k]; Proper(b) && b.value.chars in entries && entries[b.value.chars] == b.value
  {
    ChainIn(chains, buckets, i);
    assert chains[i][k] in chains[i];
  }

  // A string with no bucket in its chain is not there at all.
  lemma NotHere(chains: seq<seq<Bucket>>, buckets: set<Bucket>, entries: map<Chars, Text>, s: Chars, chain: seq<Bucket>)
    requires Table(chains, buckets) && Agree(buckets, entries) && chain == chains[Hash(s) % |chains|]
    requires forall j :: 0 <= j < |chain| ==> chain[j].value.chars != s
    ensures s !in entries
  {
    hide Hash;
    assert forall b :: b in buckets && b.hashValue == Hash(s) ==> b in chain;
  }

  /** Over any run of requests of poolable lengths, two get the same reference exactly if their
      contents are equal, and the references given before stay. */
  method InternAll(pool: StringPool, requests: seq<Chars>) returns (refs: seq<Text>)
    requires pool.Valid() && forall i :: 0 <= i < |requests| ==> 0 < |requests[i]| <= 100
    modifies pool, pool.bucketList, pool.buckets
    ensures pool.Valid() && |refs| == |requests| && forall i :: 0 <= i < |refs| ==> refs[i].chars == requests[i]
    ensures forall i, j :: 0 <= i < |refs| && 0 <= j < |refs| ==> (refs[i] == refs[j] <==> requests[i] == requests[j])
    ensures forall s :: s in old(pool.entries) ==> s in pool.entries && pool.entries[s] == old(pool.entries)[s]
    ensures forall s :: s in pool.entries <==> s in old(pool.entries) || s in requests
  {
    hide Hash, Table, Agree, Chained, StringPool.Valid;
    refs := [];
    while |refs| < |requests|
      invariant |refs| <= |requests| && pool.Valid()
      invariant pool.bucketList == old(pool.bucketList) || fresh(pool.bucketList)
      invariant fresh(pool.buckets - old(pool.buckets))
      invariant forall i :: 0 <= i < |refs| ==>
        refs[i].chars == requests[i] && requests[i] in pool.entries && refs[i] == pool.entries[requests[i]]
      invariant forall s :: s in old(pool.entries) ==> s in pool.entries && pool.entries[s] == old(pool.entries)[s]
      invariant forall s :: s in pool.entries <==> s in old(pool.entries) || s in requests[..|refs|]
    {
      var src := requests[|refs|];
      assert src[..|src|] == src;
      var ref := pool.GetPooledStringN(Some(src), |src|);
      assert requests[..|refs| + 1] == requests[..|refs|] + [src];
      refs := refs + [ref];
    }
    assert requests[..|refs|] == requests;
  }
}
