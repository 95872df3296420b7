/** The chained hash map of lib/libbpf/src/hashmap.c and hashmap.h.

    A bucket chain is a sequence with the chain's head first.  The abstract value of
    a map is the function `Values`, which gives for every key the values stored under
    it, in chain order.  Because every entry sits in the bucket its key hashes to,
    `Values` determines the whole contents. */
module HashMap {
  import opened Basics

  const WORD_SIZE: nat := 64
  const WORD: nat := 0x1_0000_0000_0000_0000
  const MIN_CAP_BITS: nat := 2
  // largest index calloc can return: 2^60 pointers of 8 bytes
  const MAX_CAP_BITS: nat := 60
  const GOLDEN: nat := 11400714819323198485

  datatype Entry<K, V> = Entry(key: K, value: V)

  datatype Strategy = Add | Set | Update | Append

  /** Return code of an insertion: 0, -EEXIST, -ENOENT or -ENOMEM. */
  datatype Status = Ok | Exists | NoEntry | NoMemory

  /** The 64-bit product that spreads the bits of a hash. */
  function Shuffle(h: nat): (r: nat)
    ensures r < WORD
  {
    h * GOLDEN % WORD
  }

  /** Upper `bits` bits of the shuffled hash. */
  function HashBits(h: nat, bits: nat): nat
    requires bits <= WORD_SIZE
  {
    Quotient(Shuffle(h), Pow2(WORD_SIZE - bits))
  }

  lemma DivBelow(x: nat, a: nat, b: nat)
    requires b > 0 && x < a * b
    ensures x / b < a
  {
    Divides(x, b);
    var q := x / b;
    if q > a {
      Gap(b, a, q);
    }
    assert b * a == a * b;
  }

  lemma HashBitsInRange(h: nat, bits: nat)
    requires bits <= WORD_SIZE
    ensures HashBits(h, bits) < Pow2(bits)
  {
    hide Pow2, Shuffle;
    Pow2Values();
    Pow2Adds(bits, WORD_SIZE - bits);
    DivBelow(Shuffle(h), Pow2(bits), Pow2(WORD_SIZE - bits));
  }

  /** One more bit refines the bucket: bucket b of the small table feeds only
      buckets 2b and 2b+1 of the doubled one. */
  lemma HashBitsHalve(h: nat, bits: nat)
    requires bits < WORD_SIZE
    ensures HashBits(h, bits + 1) / 2 == HashBits(h, bits)
  {
    hide Pow2, Shuffle;
    UnfoldPow2(WORD_SIZE - bits);
    HalfQuotient(Shuffle(h), Pow2(WORD_SIZE - bits - 1));
  }

  // ---------------------------------------------------------------- chains

  type Chain<K, V> = seq<Entry<K, V>>

  /** The values a chain holds under one key, head first. */
  function ValuesIn<K(==), V>(c: Chain<K, V>, key: K): seq<V> {
    if c == [] then []
    else (if c[0].key == key then [c[0].value] else []) + ValuesIn(c[1..], key)
  }

  /** The entries of a chain that a table of 2^bits buckets keeps in bucket j. */
  function Select<K, V>(c: Chain<K, V>, hash: K -> nat, bits: nat, j: nat): Chain<K, V>
    requires bits <= WORD_SIZE
  {
    if c == [] then []
    else (if HashBits(hash(c[0].key), bits) == j then [c[0]] else []) + Select(c[1..], hash, bits, j)
  }

  function Reverse<T>(s: seq<T>): (r: seq<T>)
    ensures |r| == |s|
  {
    if s == [] then [] else Reverse(s[1..]) + [s[0]]
  }

  function Total<K, V>(bs: seq<Chain<K, V>>): nat {
    if bs == [] then 0 else |bs[0]| + Total(bs[1..])
  }

  lemma {:induction false} ReverseAppend<T>(s: seq<T>, t: seq<T>)
    ensures Reverse(s + t) == Reverse(t) + Reverse(s)
  {
    if s == [] {
      assert s + t == t;
    } else {
      assert (s + t)[1..] == s[1..] + t;
      ReverseAppend(s[1..], t);
    }
  }

  lemma {:induction false} ReverseMultiset<T>(s: seq<T>)
    ensures multiset(Reverse(s)) == multiset(s)
  {
    if s != [] {
      ReverseMultiset(s[1..]);
      assert s == [s[0]] + s[1..];
    }
  }

  lemma {:induction false} ValuesInAppend<K, V>(c: Chain<K, V>, d: Chain<K, V>, key: K)
    ensures ValuesIn(c + d, key) == ValuesIn(c, key) + ValuesIn(d, key)
  {
    if c == [] {
      assert c + d == d;
    } else {
      assert (c + d)[1..] == c[1..] + d;
      ValuesInAppend(c[1..], d, key);
      var h := if c[0].key == key then [c[0].value] else [];
      assert (h + ValuesIn(c[1..], key)) + ValuesIn(d, key) == h + (ValuesIn(c[1..], key) + ValuesIn(d, key));
    }
  }

  lemma {:induction false} ValuesInReverse<K, V>(c: Chain<K, V>, key: K)
    ensures ValuesIn(Reverse(c), key) == Reverse(ValuesIn(c, key))
  {
    if c != [] {
      ValuesInReverse(c[1..], key);
      ValuesInAppend(Reverse(c[1..]), [c[0]], key);
      var h := if c[0].key == key then [c[0].value] else [];
      assert ValuesIn([c[0]], key) == h;
      ReverseAppend(h, ValuesIn(c[1..], key));
      assert Reverse(h) == h;
    }
  }

  lemma {:induction false} SelectAppend<K, V>(c: Chain<K, V>, d: Chain<K, V>, hash: K -> nat, bits: nat, j: nat)
    requires bits <= WORD_SIZE
    ensures Select(c + d, hash, bits, j) == Select(c, hash, bits, j) + Select(d, hash, bits, j)
  {
    if c == [] {
      assert c + d == d;
    } else {
      hide HashBits;
      assert (c + d)[1..] == c[1..] + d;
      SelectAppend(c[1..], d, hash, bits, j);
      var h := if HashBits(hash(c[0].key), bits) == j then [c[0]] else [];
      assert (h + Select(c[1..], hash, bits, j)) + Select(d, hash, bits, j)
          == h + (Select(c[1..], hash, bits, j) + Select(d, hash, bits, j));
    }
  }

  /** Selecting the bucket of a key loses none of the key's values. */
  lemma {:induction false} SelectKeeps<K, V>(c: Chain<K, V>, hash: K -> nat, bits: nat, key: K)
    requires bits <= WORD_SIZE
    ensures ValuesIn(Select(c, hash, bits, HashBits(hash(key), bits)), key) == ValuesIn(c, key)
  {
    if c != [] {
      SelectKeeps(c[1..], hash, bits, key);
      var j := HashBits(hash(key), bits);
      if HashBits(hash(c[0].key), bits) == j {
        assert Select(c, hash, bits, j) == [c[0]] + Select(c[1..], hash, bits, j);
        assert ([c[0]] + Select(c[1..], hash, bits, j))[1..] == Select(c[1..], hash, bits, j);
      } else {
        assert Select(c, hash, bits, j) == Select(c[1..], hash, bits, j);
      }
    }
  }

  lemma {:induction false} SelectMembers<K, V>(c: Chain<K, V>, hash: K -> nat, bits: nat, j: nat)
    requires bits <= WORD_SIZE
    ensures forall e :: e in Select(c, hash, bits, j) ==> HashBits(hash(e.key), bits) == j
  {
    if c != [] {
      SelectMembers(c[1..], hash, bits, j);
    }
  }

  lemma {:induction false} ReverseMembers<T>(s: seq<T>)
    ensures forall x :: x in Reverse(s) <==> x in s
  {
    if s != [] {
      ReverseMembers(s[1..]);
      assert s == [s[0]] + s[1..];
    }
  }

  lemma {:induction false} TotalUpdate<K, V>(bs: seq<Chain<K, V>>, b: nat, c: Chain<K, V>)
    requires b < |bs|
    ensures Total(bs[b := c]) == Total(bs) - |bs[b]| + |c|
  {
    if b > 0 {
      TotalUpdate(bs[1..], b - 1, c);
      assert bs[b := c][1..] == bs[1..][b - 1 := c];
    } else {
      assert bs[b := c][1..] == bs[1..];
    }
  }

  lemma {:induction false} TotalOfEmpty<K, V>(bs: seq<Chain<K, V>>)
    requires forall b :: 0 <= b < |bs| ==> bs[b] == []
    ensures Total(bs) == 0
  {
    if bs != [] {
      TotalOfEmpty(bs[1..]);
    }
  }

  lemma {:induction false} TotalPrefix<K, V>(bs: seq<Chain<K, V>>, n: nat)
    requires n < |bs|
    ensures Total(bs[..n + 1]) == Total(bs[..n]) + |bs[n]|
  {
    if n == 0 {
      assert bs[..1][1..] == [];
    } else {
      TotalPrefix(bs[1..], n - 1);
      assert bs[..n + 1][1..] == bs[1..][..n];
      assert bs[..n][1..] == bs[1..][..n - 1];
    }
  }

  // ---------------------------------------------------------------- growth

  ghost predicate ChainAt<K, V>(c: Chain<K, V>, hash: K -> nat, bits: nat, b: nat)
    requires bits <= WORD_SIZE
  {
    forall e :: e in c ==> HashBits(hash(e.key), bits) == b
  }

  ghost predicate PlacedIn<K, V>(bs: seq<Chain<K, V>>, hash: K -> nat, bits: nat)
    requires bits <= WORD_SIZE
  {
    forall b :: 0 <= b < |bs| ==> ChainAt(bs[b], hash, bits, b)
  }

  /** What a bucket array stores under one key. */
  ghost function Lookup<K, V>(bs: seq<Chain<K, V>>, hash: K -> nat, bits: nat, key: K): seq<V>
    requires bits <= WORD_SIZE
  {
    if HashBits(hash(key), bits) < |bs| then ValuesIn(bs[HashBits(hash(key), bits)], key) else []
  }

  /** Replacing one chain by a chain that differs only in what it holds under `key`. */
  lemma ReplaceChain<K(!new), V>(bs: seq<Chain<K, V>>, hash: K -> nat, bits: nat, b: nat, c: Chain<K, V>, key: K)
    requires bits <= WORD_SIZE && b < |bs| && PlacedIn(bs, hash, bits)
    requires b == HashBits(hash(key), bits) && ChainAt(c, hash, bits, b)
    requires forall k: K :: k != key ==> ValuesIn(c, k) == ValuesIn(bs[b], k)
    ensures PlacedIn(bs[b := c], hash, bits)
    ensures Total(bs[b := c]) == Total(bs) - |bs[b]| + |c|
    ensures Lookup(bs, hash, bits, key) == ValuesIn(bs[b], key)
    ensures Lookup(bs[b := c], hash, bits, key) == ValuesIn(c, key)
    ensures forall k: K :: k != key ==> Lookup(bs[b := c], hash, bits, k) == Lookup(bs, hash, bits, k)
  {
    hide HashBits, ChainAt, ValuesIn, Total;
    TotalUpdate(bs, b, c);
  }

  /** What doubling does: chain j is the reversed selection of old chain j/2. */
  ghost predicate Rehashed<K, V>(bs: seq<Chain<K, V>>, nbs: seq<Chain<K, V>>, hash: K -> nat, bits: nat)
    requires bits <= WORD_SIZE
  {
    && |nbs| == Pow2(bits)
    && (if bs == [] then forall j :: 0 <= j < |nbs| ==> nbs[j] == []
        else
          && |nbs| == 2 * |bs|
          && forall j :: 0 <= j < |nbs| ==> nbs[j] == Reverse(Select(bs[j / 2], hash, bits, j)))
  }

  lemma RehashedPlaced<K(!new), V>(bs: seq<Chain<K, V>>, nbs: seq<Chain<K, V>>, hash: K -> nat, bits: nat)
    requires bits <= WORD_SIZE
    requires Rehashed(bs, nbs, hash, bits)
    ensures PlacedIn(nbs, hash, bits)
  {
    hide HashBits;
    forall b | 0 <= b < |nbs|
      ensures ChainAt(nbs[b], hash, bits, b)
    {
      if bs != [] {
        ReverseMembers(Select(bs[b / 2], hash, bits, b));
        SelectMembers(bs[b / 2], hash, bits, b);
      }
    }
  }

  lemma RehashedValues<K, V>(bs: seq<Chain<K, V>>, nbs: seq<Chain<K, V>>, hash: K -> nat, bits: nat, key: K)
    requires 0 < bits <= WORD_SIZE
    requires Rehashed(bs, nbs, hash, bits)
    requires bs == [] || |bs| == Pow2(bits - 1)
    ensures bs != [] ==> Lookup(nbs, hash, bits, key) == Reverse(Lookup(bs, hash, bits - 1, key))
    ensures bs == [] ==> Lookup(nbs, hash, bits, key) == []
  {
    hide HashBits;
    HashBitsInRange(hash(key), bits);
    if bs != [] {
      HashBitsInRange(hash(key), bits - 1);
      HashBitsHalve(hash(key), bits - 1);
      var j := HashBits(hash(key), bits);
      var c := bs[j / 2];
      assert nbs[j] == Reverse(Select(c, hash, bits, j));
      SelectKeeps(c, hash, bits, key);
      ValuesInReverse(Select(c, hash, bits, j), key);
    }
  }

  /** Pushing the next entry of a chain extends its reversed selection. */
  lemma SelectPush<K, V>(c: Chain<K, V>, i: nat, hash: K -> nat, bits: nat, j: nat)
    requires bits <= WORD_SIZE && i < |c|
    ensures Reverse(Select(c[..i + 1], hash, bits, j))
         == (if HashBits(hash(c[i].key), bits) == j then [c[i]] else []) + Reverse(Select(c[..i], hash, bits, j))
  {
    hide HashBits;
    assert c[..i + 1] == c[..i] + [c[i]];
    SelectAppend(c[..i], [c[i]], hash, bits, j);
    ReverseAppend(Select(c[..i], hash, bits, j), Select([c[i]], hash, bits, j));
  }

  /** The new chains while old chain b is being moved and its first i entries are done. */
  ghost predicate Moved<K, V>(nbs: seq<Chain<K, V>>, start: seq<Chain<K, V>>, c: Chain<K, V>, i: nat,
                              hash: K -> nat, bits: nat, b: nat)
    requires bits <= WORD_SIZE && i <= |c|
  {
    && |nbs| == |start|
    && forall j :: 0 <= j < |nbs| ==>
         nbs[j] == if j / 2 == b then Reverse(Select(c[..i], hash, bits, j)) else start[j]
  }

  lemma MoveOne<K, V>(nbs: seq<Chain<K, V>>, start: seq<Chain<K, V>>, c: Chain<K, V>, i: nat,
                      hash: K -> nat, bits: nat, b: nat, h: nat)
    requires bits <= WORD_SIZE && i < |c| && Moved(nbs, start, c, i, hash, bits, b)
    requires h == HashBits(hash(c[i].key), bits) && h < |nbs| && h / 2 == b
    ensures Moved(nbs[h := [c[i]] + nbs[h]], start, c, i + 1, hash, bits, b)
  {
    hide HashBits, Select, Reverse;
    var after := nbs[h := [c[i]] + nbs[h]];
    forall j | 0 <= j < |after|
      ensures after[j] == if j / 2 == b then Reverse(Select(c[..i + 1], hash, bits, j)) else start[j]
    {
      SelectPush(c, i, hash, bits, j);
    }
  }

  lemma MoveNone<K, V>(start: seq<Chain<K, V>>, c: Chain<K, V>, hash: K -> nat, bits: nat, b: nat)
    requires bits <= WORD_SIZE
    requires forall j :: 0 <= j < |start| && j / 2 == b ==> start[j] == []
    ensures Moved(start, start, c, 0, hash, bits, b)
  {
    hide HashBits;
    assert c[..0] == [];
  }

  method RehashChain<K(!new), V>(c: Chain<K, V>, b: nat, hash: K -> nat, bits: nat, start: seq<Chain<K, V>>)
    returns (nbs: seq<Chain<K, V>>)
    requires 0 < bits <= WORD_SIZE && ChainAt(c, hash, bits - 1, b)
    requires |start| == Pow2(bits)
    requires forall j :: 0 <= j < |start| && j / 2 == b ==> start[j] == []
    ensures Total(nbs) == Total(start) + |c| && Moved(nbs, start, c, |c|, hash, bits, b)
  {
    hide HashBits, Pow2, Select, Reverse;
    nbs := start;
    MoveNone(start, c, hash, bits, b);
    for i := 0 to |c|
      invariant Total(nbs) == Total(start) + i && Moved(nbs, start, c, i, hash, bits, b)
    {
      var e := c[i];
      var h := HashBits(hash(e.key), bits);
      HashBitsInRange(hash(e.key), bits);
      HashBitsHalve(hash(e.key), bits - 1);
      assert e in c && h / 2 == b;
      TotalUpdate(nbs, h, [e] + nbs[h]);
      MoveOne(nbs, start, c, i, hash, bits, b, h);
      nbs := nbs[h := [e] + nbs[h]];
    }
  }

  /** The new chains once the first n old chains have been moved. */
  ghost predicate MovedUpTo<K, V>(bs: seq<Chain<K, V>>, nbs: seq<Chain<K, V>>, n: nat, hash: K -> nat, bits: nat)
    requires bits <= WORD_SIZE && n <= |bs|
  {
    forall j :: 0 <= j < |nbs| ==> nbs[j] == if j / 2 < n then Reverse(Select(bs[j / 2], hash, bits, j)) else []
  }

  lemma MoveChain<K, V>(bs: seq<Chain<K, V>>, start: seq<Chain<K, V>>, nbs: seq<Chain<K, V>>, b: nat,
                        hash: K -> nat, bits: nat)
    requires bits <= WORD_SIZE && b < |bs| && MovedUpTo(bs, start, b, hash, bits)
    requires Moved(nbs, start, bs[b], |bs[b]|, hash, bits, b)
    ensures MovedUpTo(bs, nbs, b + 1, hash, bits)
  {
    hide HashBits, Select, Reverse;
    assert bs[b][..|bs[b]|] == bs[b];
  }

  /** The loop of hashmap_grow: walk the old chains in order and push every entry on
      the front of its new chain. */
  method Rehash<K(!new), V>(bs: seq<Chain<K, V>>, hash: K -> nat, bits: nat) returns (nbs: seq<Chain<K, V>>)
    requires 0 < bits <= WORD_SIZE
    requires bs == [] || (|bs| == Pow2(bits - 1) && PlacedIn(bs, hash, bits - 1))
    ensures Rehashed(bs, nbs, hash, bits) && Total(nbs) == Total(bs)
  {
    hide HashBits, Select, Reverse;
    nbs := seq(Pow2(bits), _ => []);
    TotalOfEmpty(nbs);
    assert bs[..0] == [];
    for b := 0 to |bs|
      invariant |nbs| == Pow2(bits) && Total(nbs) == Total(bs[..b])
      invariant MovedUpTo(bs, nbs, b, hash, bits)
    {
      var start := nbs;
      nbs := RehashChain(bs[b], b, hash, bits, start);
      MoveChain(bs, start, nbs, b, hash, bits);
      TotalPrefix(bs, b);
    }
    assert bs[..|bs|] == bs;
  }

  // ---------------------------------------------------------------- the map

  class HashMap<K(==, !new), V> {
    const hash: K -> nat
    var buckets: seq<Chain<K, V>>
    var cap: nat
    var capBits: nat
    var sz: nat

    ghost predicate Valid()
      reads this
    {
      && cap == |buckets|
      && (if cap == 0 then capBits == 0 && sz == 0
          else MIN_CAP_BITS <= capBits <= MAX_CAP_BITS && cap == Pow2(capBits))
      && PlacedIn(buckets, hash, capBits)
      && sz == Total(buckets)
      && sz * 4 / 3 <= cap
    }

    /** Abstract value: what is stored under each key. */
    ghost function Values(key: K): seq<V>
      requires Valid()
      reads this
    {
      Lookup(buckets, hash, capBits, key)
    }

    constructor (hash: K -> nat)
      ensures Valid() && this.hash == hash && sz == 0
      ensures forall k: K :: Values(k) == []
    {
      this.hash := hash;
      buckets := [];
      cap, capBits, sz := 0, 0, 0;
    }

    predicate NeedsToGrow()
      reads this
    {
      cap == 0 || (sz + 1) * 4 / 3 > cap
    }

    /** The next insertion of an entry grows the index. */
    predicate Grows(memory: bool)
      reads this
    {
      NeedsToGrow() && memory && capBits < MAX_CAP_BITS
    }

    /** Doubling.  Every new chain is the reversed selection of one old chain. */
    method Grow(memory: bool) returns (ok: bool)
      requires Valid()
      modifies this`buckets, this`cap, this`capBits
      ensures Valid()
      ensures ok ==> cap == NextCap(old(cap)) && capBits == NextBits(old(capBits))
      ensures ok && old(cap) == 0 ==> forall j :: 0 <= j < cap ==> buckets[j] == []
      ensures ok && old(cap) > 0 ==> forall j :: 0 <= j < cap ==>
                buckets[j] == Reverse(Select(old(buckets)[j / 2], hash, capBits, j))
      ensures ok ==> forall k: K :: Values(k) == Reverse(old(Values(k)))
      ensures !ok ==> buckets == old(buckets) && cap == old(cap) && capBits == old(capBits)
      ensures ok <==> memory && old(capBits) < MAX_CAP_BITS
    {
      var newBits := if capBits + 1 < MIN_CAP_BITS then MIN_CAP_BITS else capBits + 1;
      // an index of 2^61 pointers exceeds the address space, so calloc fails
      if !memory || newBits > MAX_CAP_BITS {
        return false;
      }
      hide HashBits;
      var grown := Rehash(buckets, hash, newBits);
      RehashedPlaced(buckets, grown, hash, newBits);
      forall k: K
        ensures Lookup(grown, hash, newBits, k) == Reverse(Values(k))
      {
        RehashedValues(buckets, grown, hash, newBits, k);
      }
      cap, capBits, buckets := |grown|, newBits, grown;
      ok := true;
    }

    /** Position of the first entry with the given key in its chain. */
    method FindEntry(key: K) returns (found: bool, b: nat, i: nat)
      requires Valid()
      ensures found == (Values(key) != [])
      ensures found ==> b < cap && b == HashBits(hash(key), capBits) && i < |buckets[b]| && buckets[b][i].key == key
      ensures found ==> ValuesIn(buckets[b][..i], key) == []
      ensures found ==> Values(key)[0] == buckets[b][i].value
    {
      found, b, i := false, 0, 0;
      if cap == 0 {
        return;
      }
      HashBitsInRange(hash(key), capBits);
      b := HashBits(hash(key), capBits);
      var c := buckets[b];
      while i < |c|
        invariant i <= |c|
        invariant ValuesIn(c[..i], key) == []
        invariant ValuesIn(c[i..], key) == Values(key)
      {
        if c[i].key == key {
          found := true;
          return;
        }
        assert c[..i + 1] == c[..i] + [c[i]];
        ValuesInAppend(c[..i], [c[i]], key);
        i := i + 1;
      }
    }

    /** hashmap__insert.  `growMemory` and `entryMemory` say whether the two allocations
        would succeed. */
    method Insert(key: K, value: V, strategy: Strategy, growMemory: bool, entryMemory: bool)
      returns (r: Status, oldValue: Option<V>)
      requires Valid()
      modifies this`buckets, this`cap, this`capBits, this`sz
      ensures Valid()
      ensures r == Exists <==> strategy == Add && old(Values(key)) != []
      ensures (strategy == Set || strategy == Update) && old(Values(key)) != [] ==> r == Ok
      ensures r == NoEntry <==> strategy == Update && old(Values(key)) == []
      ensures oldValue == if strategy != Append && old(Values(key)) != [] then Some(old(Values(key))[0]) else None
      ensures r == Ok && oldValue.Some? ==>
                && Values(key) == [value] + old(Values(key))[1..]
                && (forall k: K :: k != key ==> Values(k) == old(Values(k)))
                && sz == old(sz) && cap == old(cap) && capBits == old(capBits)
      ensures r == Ok && oldValue.None? ==>
                && sz == old(sz) + 1
                && cap == (if old(NeedsToGrow()) then NextCap(old(cap)) else old(cap))
                && capBits == (if old(NeedsToGrow()) then NextBits(old(capBits)) else old(capBits))
                && Values(key) == [value] + Turned(old(NeedsToGrow()), old(Values(key)))
                && (forall k: K :: k != key ==> Values(k) == Turned(old(NeedsToGrow()), old(Values(k))))
      ensures r == Exists || r == NoEntry ==>
                && sz == old(sz) && cap == old(cap) && capBits == old(capBits)
                && forall k: K :: Values(k) == old(Values(k))
      ensures r == NoMemory ==>
                && sz == old(sz)
                && cap == (if old(Grows(growMemory)) then NextCap(old(cap)) else old(cap))
                && capBits == (if old(Grows(growMemory)) then NextBits(old(capBits)) else old(capBits))
                && forall k: K :: Values(k) == Turned(old(Grows(growMemory)), old(Values(k)))
      ensures r == NoMemory <==>
                && (strategy == Append || (strategy != Update && old(Values(key)) == []))
                && ((old(NeedsToGrow()) && !old(Grows(growMemory))) || !entryMemory)
      ensures old(capBits) == MAX_CAP_BITS ==> capBits == MAX_CAP_BITS
    {
      hide HashBits;
      oldValue := None;
      if strategy != Append {
        var found, b, i := FindEntry(key);
        if found {
          oldValue := Some(buckets[b][i].value);
          if strategy == Set || strategy == Update {
            Overwrite(b, i, key, value);
            return Ok, oldValue;
          } else {
            return Exists, oldValue;
          }
        }
      }
      if strategy == Update {
        return NoEntry, None;
      }
      if NeedsToGrow() {
        var ok := Grow(growMemory);
        if !ok {
            return NoMemory, None;
        }
      }
      if !entryMemory {
        return NoMemory, None;
      }
      PushFront(key, value);
      r := Ok;
    }

    /** The write of a replaced entry. */
    method Overwrite(b: nat, i: nat, key: K, value: V)
      requires Valid() && b < cap && b == HashBits(hash(key), capBits)
      requires i < |buckets[b]| && buckets[b][i].key == key && ValuesIn(buckets[b][..i], key) == []
      modifies this`buckets
      ensures Valid()
      ensures old(Values(key)) != [] && Values(key) == [value] + old(Values(key))[1..]
      ensures forall k: K :: k != key ==> Values(k) == old(Values(k))
    {
      var c := buckets[b];
      var c' := c[i := Entry(key, value)];
      hide HashBits;
      forall k: K
        ensures k == key ==> ValuesIn(c, k) != [] && ValuesIn(c', k) == [value] + ValuesIn(c, k)[1..]
        ensures k != key ==> ValuesIn(c', k) == ValuesIn(c, k)
      {
        ValuesInSplit(c, i, k);
        ValuesInSplit(c', i, k);
        assert c'[..i] == c[..i] && c'[i + 1..] == c[i + 1..];
      }
      ReplaceChain(buckets, hash, capBits, b, c', key);
      buckets := buckets[b := c'];
    }

    method PushFront(key: K, value: V)
      requires Valid() && cap > 0 && (sz + 1) * 4 / 3 <= cap
      modifies this`buckets, this`sz
      ensures Valid() && sz == old(sz) + 1
      ensures Values(key) == [value] + old(Values(key))
      ensures forall k: K :: k != key ==> Values(k) == old(Values(k))
    {
      HashBitsInRange(hash(key), capBits);
      var h := HashBits(hash(key), capBits);
      var c := [Entry(key, value)] + buckets[h];
      assert c[1..] == buckets[h];
      hide HashBits;
      ReplaceChain(buckets, hash, capBits, h, c, key);
      buckets := buckets[h := c];
      sz := sz + 1;
    }

    /** hashmap__append, as far as membership goes. */
    method AppendValue(key: K, value: V, growMemory: bool, entryMemory: bool) returns (r: Status)
      requires Valid()
      modifies this`buckets, this`cap, this`capBits, this`sz
      ensures Valid() && (r == Ok || r == NoMemory)
      ensures r == Ok <==> entryMemory && (old(NeedsToGrow()) ==> old(Grows(growMemory)))
      ensures sz == old(sz) + if r == Ok then 1 else 0
      ensures forall k: K, v: V :: v in Values(k) <==> v in old(Values(k)) || (r == Ok && k == key && v == value)
    {
      hide HashBits, Lookup, PlacedIn, Total, Pow2, Reverse;
      var previous;
      r, previous := Insert(key, value, Append, growMemory, entryMemory);
      forall k: K
        ensures forall v: V :: v in Values(k) <==> v in old(Values(k)) || (r == Ok && k == key && v == value)
      {
        ReverseMembers(old(Values(k)));
      }
    }

    method Find(key: K) returns (r: Option<V>)
      requires Valid()
      ensures r == if Values(key) == [] then None else Some(Values(key)[0])
    {
      var found, b, i := FindEntry(key);
      r := if found then Some(buckets[b][i].value) else None;
    }

    method Delete(key: K) returns (found: bool, oldValue: Option<V>)
      requires Valid()
      modifies this`buckets, this`sz
      ensures Valid()
      ensures found == (old(Values(key)) != [])
      ensures !found ==> oldValue == None && sz == old(sz) && forall k: K :: Values(k) == old(Values(k))
      ensures found ==>
                && oldValue == Some(old(Values(key))[0])
                && Values(key) == old(Values(key))[1..]
                && (forall k: K :: k != key ==> Values(k) == old(Values(k)))
                && sz + 1 == old(sz)
    {
      var b, i;
      found, b, i := FindEntry(key);
      if !found {
        return false, None;
      }
      var c := buckets[b];
      var c' := c[..i] + c[i + 1..];
      hide HashBits;
      forall k: K
        ensures k == key ==> ValuesIn(c, k) != [] && ValuesIn(c', k) == ValuesIn(c, k)[1..]
        ensures k != key ==> ValuesIn(c', k) == ValuesIn(c, k)
      {
        ValuesInSplit(c, i, k);
        ValuesInAppend(c[..i], c[i + 1..], k);
      }
      ReplaceChain(buckets, hash, capBits, b, c', key);
      oldValue := Some(c[i].value);
      buckets := buckets[b := c'];
      sz := sz - 1;
    }

    /** hashmap__for_each_key_entry: walk one chain, keeping the entries with equal keys. */
    method KeyEntries(key: K) returns (vs: seq<V>)
      requires Valid()
      ensures vs == Values(key)
    {
      vs := [];
      if cap == 0 {
        return;
      }
      HashBitsInRange(hash(key), capBits);
      var c := buckets[HashBits(hash(key), capBits)];
      for i := 0 to |c|
        invariant vs == ValuesIn(c[..i], key)
      {
        assert c[..i + 1] == c[..i] + [c[i]];
        ValuesInAppend(c[..i], [c[i]], key);
        if c[i].key == key {
          vs := vs + [c[i].value];
        }
      }
      assert c[..|c|] == c;
    }
  }

  function NextCap(cap: nat): nat { if cap == 0 then 4 else 2 * cap }

  function NextBits(bits: nat): nat { if bits + 1 < MIN_CAP_BITS then MIN_CAP_BITS else bits + 1 }

  /** A growth turns every chain around. */
  function Turned<V>(grew: bool, vs: seq<V>): seq<V> {
    if grew then Reverse(vs) else vs
  }

  lemma ValuesInSplit<K, V>(c: Chain<K, V>, i: nat, key: K)
    requires i < |c|
    ensures ValuesIn(c, key) == ValuesIn(c[..i], key)
                              + (if c[i].key == key then [c[i].value] else [])
                              + ValuesIn(c[i + 1..], key)
  {
    hide ValuesIn;
    var rest := c[i..];
    assert c == c[..i] + rest && rest[1..] == c[i + 1..] && rest[0] == c[i];
    ValuesInAppend(c[..i], rest, key);
    ValuesInHead(rest, key);
  }

  lemma ValuesInHead<K, V>(c: Chain<K, V>, key: K)
    requires c != []
    ensures ValuesIn(c, key) == (if c[0].key == key then [c[0].value] else []) + ValuesIn(c[1..], key)
  {
  }

  // ---------------------------------------------------------------- histories

  datatype Op<K, V> =
    | InsertOp(key: K, value: V, strategy: Strategy, growMemory: bool, entryMemory: bool)
    | DeleteOp(key: K)
    | FindOp(key: K)
    | EachOp(key: K)

  datatype Reply<V> =
    | Inserted(status: Status, oldValue: Option<V>)
    | Answered(hit: Option<V>)
    | Listed(values: seq<V>)

  function Get<K(==), V>(m: map<K, V>, key: K): Option<V> {
    if key in m then Some(m[key]) else None
  }

  /** One operation on a plain finite map; `reply` is what the caller sees.  Only an
      insertion of a new key may run out of memory, and then nothing changes. */
  ghost predicate MapStep<K, V>(m: map<K, V>, op: Op<K, V>, reply: Reply<V>, m': map<K, V>) {
    match op
    case FindOp(k) => m' == m && reply == Answered(Get(m, k))
    case EachOp(k) => m' == m && reply == Listed(if k in m then [m[k]] else [])
    case DeleteOp(k) => m' == m - {k} && reply == Answered(Get(m, k))
    case InsertOp(k, v, strategy, _, _) =>
      match strategy
      case Update =>
        if k in m then m' == m[k := v] && reply == Inserted(Ok, Some(m[k]))
        else m' == m && reply == Inserted(NoEntry, None)
      case Set =>
        if k in m then m' == m[k := v] && reply == Inserted(Ok, Some(m[k]))
        else NewKey(m, k, v, reply, m')
      case Add =>
        if k in m then m' == m && reply == Inserted(Exists, Some(m[k]))
        else NewKey(m, k, v, reply, m')
      case Append => NewKey(m, k, v, reply, m')
  }

  ghost predicate NewKey<K, V>(m: map<K, V>, k: K, v: V, reply: Reply<V>, m': map<K, V>) {
    || (m' == m[k := v] && reply == Inserted(Ok, None))
    || (m' == m && reply == Inserted(NoMemory, None))
  }

  /** A whole run over a plain finite map explains the replies. */
  ghost predicate MapRun<K, V>(ms: seq<map<K, V>>, ops: seq<Op<K, V>>, replies: seq<Reply<V>>) {
    && |ms| == |ops| + 1 && |replies| == |ops|
    && forall i :: 0 <= i < |ops| ==> MapStep(ms[i], ops[i], replies[i], ms[i + 1])
  }

  ghost predicate Represents<K(!new), V>(h: HashMap<K, V>, m: map<K, V>)
    reads h
  {
    h.Valid() && forall k: K :: h.Values(k) == if k in m then [m[k]] else []
  }

  /** One operation of the real structure is one operation of the finite map. */
  method Perform<K(==, !new), V>(h: HashMap<K, V>, op: Op<K, V>, ghost m: map<K, V>)
    returns (reply: Reply<V>, ghost m': map<K, V>)
    requires Represents(h, m)
    requires op.InsertOp? ==> op.strategy != Append
    modifies h
    ensures Represents(h, m') && MapStep(m, op, reply, m')
  {
    hide HashBits, Lookup, PlacedIn, Total, Pow2;
    match op
    case FindOp(k) =>
      var r := h.Find(k);
      reply, m' := Answered(r), m;
    case EachOp(k) =>
      var vs := h.KeyEntries(k);
      reply, m' := Listed(vs), m;
    case DeleteOp(k) =>
      var found, r := h.Delete(k);
      reply, m' := Answered(r), m - {k};
      assert k in m ==> old(h.Values(k)) == [m[k]];
      assert MapStep(m, op, reply, m');
    case InsertOp(k, v, strategy, gm, em) =>
      var status, r := h.Insert(k, v, strategy, gm, em);
      reply := Inserted(status, r);
      m' := if status == Ok then m[k := v] else m;
      forall x: K
        ensures h.Values(x) == if x in m' then [m'[x]] else []
      {
        TurnedShort(true, old(h.Values(x)));
        TurnedShort(false, old(h.Values(x)));
      }
      assert k in m ==> old(h.Values(k)) == [m[k]];
      assert MapStep(m, op, reply, m');
  }

  lemma TurnedShort<V>(grew: bool, vs: seq<V>)
    requires |vs| <= 1
    ensures Turned(grew, vs) == vs && Reverse(vs) == vs
  {
  }

  /** Refinement over every history of ADD, SET, UPDATE, delete, find and iteration. */
  method Replay<K(==, !new), V>(h: HashMap<K, V>, ops: seq<Op<K, V>>)
    returns (replies: seq<Reply<V>>, ghost ms: seq<map<K, V>>)
    requires Represents(h, map[])
    requires forall i :: 0 <= i < |ops| && ops[i].InsertOp? ==> ops[i].strategy != Append
    modifies h
    ensures MapRun(ms, ops, replies) && ms[0] == map[] && Represents(h, ms[|ops|])
  {
    replies, ms := [], [map[]];
    for i := 0 to |ops|
      invariant |ms| == i + 1 && |replies| == i && ms[0] == map[]
      invariant Represents(h, ms[i])
      invariant forall j :: 0 <= j < i ==> MapStep(ms[j], ops[j], replies[j], ms[j + 1])
    {
      ghost var m';
      var reply;
      reply, m' := Perform(h, ops[i], ms[i]);
      replies, ms := replies + [reply], ms + [m'];
    }
  }

  // ---------------------------------------------------------------- histories of all operations

  /** A map from keys to the values under them, in the order iteration yields them, and what decides
      when the index grows. */
  datatype Multi<K, V> = Multi(vals: map<K, seq<V>>, sz: int, cap: nat, bits: nat)

  function At<K(==), V>(s: Multi<K, V>, k: K): seq<V> { if k in s.vals then s.vals[k] else [] }

  function First<V>(vs: seq<V>): Option<V> { if vs == [] then None else Some(vs[0]) }

  predicate Full<K, V>(s: Multi<K, V>) { s.cap == 0 || (s.sz + 1) * 4 / 3 > s.cap }

  function Grown<K, V>(s: Multi<K, V>): Multi<K, V> {
    Multi(map k | k in s.vals :: Reverse(s.vals[k]), s.sz, NextCap(s.cap), NextBits(s.bits))
  }

  /** The effect and the reply of every operation, growth and failed allocations included. */
  function MultiStep<K(==), V>(s: Multi<K, V>, op: Op<K, V>): (Multi<K, V>, Reply<V>) {
    match op
    case FindOp(k) => (s, Answered(First(At(s, k))))
    case EachOp(k) => (s, Listed(At(s, k)))
    case DeleteOp(k) =>
      var vs := At(s, k);
      if vs == [] then (s, Answered(None))
      else (s.(vals := s.vals[k := vs[1..]], sz := s.sz - 1), Answered(Some(vs[0])))
    case InsertOp(k, v, strategy, growMemory, entryMemory) =>
      var vs := At(s, k);
      if strategy != Append && vs != [] then
        if strategy == Add then (s, Inserted(Exists, Some(vs[0])))
        else (s.(vals := s.vals[k := [v] + vs[1..]]), Inserted(Ok, Some(vs[0])))
      else if strategy == Update then (s, Inserted(NoEntry, None))
      else if Full(s) && (!growMemory || s.bits >= MAX_CAP_BITS) then (s, Inserted(NoMemory, None))
      else
        var t := if Full(s) then Grown(s) else s;
        if !entryMemory then (t, Inserted(NoMemory, None))
        else (t.(vals := t.vals[k := [v] + At(t, k)], sz := t.sz + 1), Inserted(Ok, None))
  }

  ghost predicate MultiRun<K, V>(states: seq<Multi<K, V>>, ops: seq<Op<K, V>>, replies: seq<Reply<V>>) {
    && |states| == |ops| + 1 && |replies| == |ops|
    && forall i :: 0 <= i < |ops| ==> MultiStep(states[i], ops[i]) == (states[i + 1], replies[i])
  }

  ghost predicate Shows<K(!new), V>(h: HashMap<K, V>, s: Multi<K, V>)
    reads h
  {
    && h.Valid() && h.sz == s.sz && h.cap == s.cap && h.capBits == s.bits
    && forall k: K :: h.Values(k) == At(s, k)
  }

  lemma ReverseNothing<V>()
    ensures Reverse<V>([]) == []
  {
  }

  lemma GrownAt<K, V>(s: Multi<K, V>, k: K)
    ensures At(Grown(s), k) == Reverse(At(s, k))
  {
    ReverseNothing<V>();
  }

  /** One operation of the structure is the same operation of the multimap, reply included. */
  method Act<K(==, !new), V>(h: HashMap<K, V>, op: Op<K, V>, ghost s: Multi<K, V>) returns (reply: Reply<V>)
    requires Shows(h, s)
    modifies h
    ensures Shows(h, MultiStep(s, op).0) && reply == MultiStep(s, op).1
  {
    hide HashBits, Lookup, PlacedIn, Total, Pow2, Reverse;
    match op
    case FindOp(k) =>
      var r := h.Find(k);
      reply := Answered(r);
    case EachOp(k) =>
      var vs := h.KeyEntries(k);
      reply := Listed(vs);
    case DeleteOp(k) =>
      var _, r := h.Delete(k);
      reply := Answered(r);
    case InsertOp(k, v, strategy, growMemory, entryMemory) =>
      forall x: K
        ensures At(Grown(s), x) == Reverse(At(s, x))
      {
        GrownAt(s, x);
      }
      var status, r := h.Insert(k, v, strategy, growMemory, entryMemory);
      reply := Inserted(status, r);
  }

  /** Refinement over every history of all operations and strategies, APPEND included. */
  method ReplayAll<K(==, !new), V>(h: HashMap<K, V>, ops: seq<Op<K, V>>, ghost start: Multi<K, V>)
    returns (replies: seq<Reply<V>>, ghost states: seq<Multi<K, V>>)
    requires Shows(h, start)
    modifies h
    ensures MultiRun(states, ops, replies) && states[0] == start && Shows(h, states[|ops|])
  {
    hide MultiStep, Shows;
    replies, states := [], [start];
    for i := 0 to |ops|
      invariant |states| == i + 1 && |replies| == i && states[0] == start && Shows(h, states[i])
      invariant forall j :: 0 <= j < i ==> MultiStep(states[j], ops[j]) == (states[j + 1], replies[j])
    {
      var reply := Act(h, ops[i], states[i]);
      replies, states := replies + [reply], states + [MultiStep(states[i], ops[i]).0];
    }
  }

  /** The capacity is the least power of two, from 4 on, that takes sz entries at four thirds; an index that
      was never used has none. */
  ghost predicate LeastCapacity<K, V>(s: Multi<K, V>) {
    if s.sz == 0 then s.cap == 0 && s.bits == 0
    else
      && s.bits >= 2 && s.cap == Pow2(s.bits) && s.sz * 4 / 3 <= s.cap
      && forall b: nat :: 2 <= b && s.sz * 4 / 3 <= Pow2(b) ==> s.cap <= Pow2(b)
  }

  /** While entries are only inserted, and each gets its memory, the index is as small as it can be, whatever
      strategies are used and however often it fails to grow. */
  lemma {:induction false} InsertionsKeepLeast<K, V>(states: seq<Multi<K, V>>, ops: seq<Op<K, V>>,
                                                     replies: seq<Reply<V>>, n: nat)
    requires MultiRun(states, ops, replies) && n <= |ops| && LeastCapacity(states[0]) && states[0].sz >= 0
    requires forall i :: 0 <= i < |ops| ==> ops[i].InsertOp? && ops[i].entryMemory
    ensures LeastCapacity(states[n]) && states[n].sz >= 0
    decreases n
  {
    hide MultiStep, LeastCapacity;
    if n > 0 {
      InsertionsKeepLeast(states, ops, replies, n - 1);
      assert MultiStep(states[n - 1], ops[n - 1]) == (states[n - 1 + 1], replies[n - 1]);
      LeastStep(states[n - 1], ops[n - 1]);
    }
  }

  lemma LeastStep<K, V>(s: Multi<K, V>, op: Op<K, V>)
    requires LeastCapacity(s) && s.sz >= 0 && op.InsertOp? && op.entryMemory
    ensures LeastCapacity(MultiStep(s, op).0) && MultiStep(s, op).0.sz >= 0
  {
    hide Pow2, LeastCapacity;
    LeastParts(s);
    var t := MultiStep(s, op).0;
    if t.sz == s.sz {
      SameCapacity(s, t);
    } else if s.sz == 0 {
      FirstCapacity(s, t);
    } else {
      NextCapacity(s, t);
    }
  }

  lemma LeastParts<K, V>(s: Multi<K, V>)
    requires LeastCapacity(s)
    ensures s.sz == 0 ==> s.cap == 0 && s.bits == 0
    ensures s.sz != 0 ==> s.cap > 0 && s.bits >= 2
  {
  }

  lemma SameCapacity<K, V>(s: Multi<K, V>, t: Multi<K, V>)
    requires LeastCapacity(s) && t.sz == s.sz && t.cap == s.cap && t.bits == s.bits
    ensures LeastCapacity(t)
  {
  }

  lemma FirstCapacity<K, V>(s: Multi<K, V>, t: Multi<K, V>)
    requires LeastCapacity(s) && s.sz == 0 && t.sz == 1 && t.cap == NextCap(s.cap) && t.bits == NextBits(s.bits)
    ensures LeastCapacity(t)
  {
    hide Pow2;
    Pow2Values();
    forall b: nat | 2 <= b
      ensures 4 <= Pow2(b)
    {
      Pow2Monotone(2, b);
    }
  }

  lemma NextCapacity<K, V>(s: Multi<K, V>, t: Multi<K, V>)
    requires LeastCapacity(s) && s.sz > 0 && t.sz == s.sz + 1
    requires if t.sz * 4 / 3 > s.cap then t.cap == 2 * s.cap && t.bits == s.bits + 1
             else t.cap == s.cap && t.bits == s.bits
    ensures LeastCapacity(t)
  {
    hide Pow2;
    UnfoldPow2(s.bits + 1);
    Pow2Values();
    Pow2Monotone(2, s.bits);
    forall b: nat | 2 <= b && t.sz * 4 / 3 <= Pow2(b)
      ensures t.cap <= Pow2(b)
    {
      if t.sz * 4 / 3 > s.cap {
        if b <= s.bits {
          Pow2Monotone(b, s.bits);
        } else {
          Pow2Monotone(s.bits + 1, b);
        }
      }
    }
  }

  lemma {:induction false} Pow2Monotone(a: nat, b: nat)
    requires a <= b
    ensures Pow2(a) <= Pow2(b)
    decreases b
  {
    hide Pow2;
    UnfoldPow2(b);
    if a < b {
      Pow2Monotone(a, b - 1);
    }
  }

  /** The values that the first n APPENDs of a history were told are stored under k. */
  function Accepted<K(==), V>(ops: seq<Op<K, V>>, replies: seq<Reply<V>>, k: K, n: nat): seq<V>
    requires n <= |ops| == |replies|
  {
    if n == 0 then []
    else
      var last := ops[n - 1];
      Accepted(ops, replies, k, n - 1)
      + (if last.InsertOp? && last.key == k && replies[n - 1] == Inserted(Ok, None) then [last.value] else [])
  }

  /** Under APPEND, whatever allocations fail, each key holds exactly the values accepted for it. */
  lemma {:induction false} AppendsAreMultimap<K, V>(states: seq<Multi<K, V>>, ops: seq<Op<K, V>>,
                                                    replies: seq<Reply<V>>, k: K, n: nat)
    requires MultiRun(states, ops, replies) && n <= |ops|
    requires forall i :: 0 <= i < |ops| ==> ops[i].InsertOp? && ops[i].strategy == Append
    ensures multiset(At(states[n], k)) == multiset(At(states[0], k)) + multiset(Accepted(ops, replies, k, n))
    decreases n
  {
    hide MultiStep, Turned, At, Accepted;
    AcceptedStep(ops, replies, k, n);
    if n > 0 {
      AppendsAreMultimap(states, ops, replies, k, n - 1);
      assert MultiStep(states[n - 1], ops[n - 1]) == (states[n - 1 + 1], replies[n - 1]);
      AppendStep(states[n - 1], ops[n - 1], k);
    }
  }

  lemma AcceptedStep<K, V>(ops: seq<Op<K, V>>, replies: seq<Reply<V>>, k: K, n: nat)
    requires n <= |ops| == |replies|
    ensures n == 0 ==> Accepted(ops, replies, k, n) == []
    ensures n > 0 ==>
              multiset(Accepted(ops, replies, k, n)) == multiset(Accepted(ops, replies, k, n - 1))
                + (if ops[n - 1].InsertOp? && ops[n - 1].key == k && replies[n - 1] == Inserted(Ok, None)
                   then multiset{ops[n - 1].value} else multiset{})
  {
  }

  /** The chain after one APPEND: pushed on the old chain, turned around if the index grew. */
  lemma AppendStep<K, V>(s: Multi<K, V>, op: Op<K, V>, k: K)
    requires op.InsertOp? && op.strategy == Append
    ensures var (s', reply) := MultiStep(s, op);
            && At(s', k) == (if reply == Inserted(Ok, None) && op.key == k then [op.value] else [])
              + Turned(s'.cap != s.cap, At(s, k))
            && multiset(At(s', k)) ==
               multiset(At(s, k)) + (if reply == Inserted(Ok, None) && op.key == k then multiset{op.value}
                                     else multiset{})
            && (reply == Inserted(Ok, None) || reply == Inserted(NoMemory, None))
  {
    hide Reverse;
    GrownAt(s, k);
    ReverseMultiset(At(s, k));
  }

  /** The operation changes what is stored under k, other than by growing the index. */
  predicate Changes<K(==), V(==)>(op: Op<K, V>, reply: Reply<V>, k: K) {
    || (op.InsertOp? && op.key == k && reply.Inserted? && reply.status == Ok)
    || (op.DeleteOp? && op.key == k && reply != Answered(None))
  }

  /** How often the index grew between two points of a history. */
  ghost function Growths<K, V>(states: seq<Multi<K, V>>, i: nat, n: nat): nat
    requires i <= n < |states|
    decreases n
  {
    if i == n then 0 else Growths(states, i, n - 1) + (if states[n].cap != states[n - 1].cap then 1 else 0)
  }

  lemma KeptStep<K, V>(s: Multi<K, V>, op: Op<K, V>, k: K)
    requires !Changes(op, MultiStep(s, op).1, k)
    ensures At(MultiStep(s, op).0, k) == Turned(MultiStep(s, op).0.cap != s.cap, At(s, k))
  {
    hide Reverse;
    GrownAt(s, k);
  }

  lemma {:induction false} ReverseTwice<V>(vs: seq<V>)
    ensures Reverse(Reverse(vs)) == vs
  {
    if vs != [] {
      ReverseTwice(vs[1..]);
      ReverseAppend(Reverse(vs[1..]), [vs[0]]);
      assert Reverse([vs[0]]) == [vs[0]];
      assert [vs[0]] + vs[1..] == vs;
    }
  }

  lemma ParityStep(g: nat, b: nat)
    requires b <= 1
    ensures ((g + b) % 2 == 1) == ((g % 2 == 1) != (b == 1))
  {
  }

  /** A chain that nothing changes is turned around once per growth. */
  lemma {:induction false} TurnedSince<K, V>(states: seq<Multi<K, V>>, ops: seq<Op<K, V>>, replies: seq<Reply<V>>,
                                             k: K, i: nat, n: nat)
    requires MultiRun(states, ops, replies) && i <= n <= |ops|
    requires forall j :: i <= j < n ==> !Changes(ops[j], replies[j], k)
    ensures At(states[n], k) == Turned(Growths(states, i, n) % 2 == 1, At(states[i], k))
    decreases n
  {
    hide MultiStep, Changes, Reverse;
    if i < n {
      TurnedSince(states, ops, replies, k, i, n - 1);
      assert MultiStep(states[n - 1], ops[n - 1]) == (states[n - 1 + 1], replies[n - 1]);
      KeptStep(states[n - 1], ops[n - 1], k);
      ReverseTwice(At(states[i], k));
      ParityStep(Growths(states, i, n - 1), if states[n].cap != states[n - 1].cap then 1 else 0);
    }
  }

  lemma {:induction false} ReverseEnds<V>(vs: seq<V>)
    requires vs != []
    ensures |Reverse(vs)| == |vs| && Reverse(vs)[0] == vs[|vs| - 1] && Reverse(vs)[|vs| - 1] == vs[0]
  {
    if |vs| > 1 {
      ReverseEnds(vs[1..]);
    }
  }

  /** The header promises that find returns the value appended last.  It does exactly when the index
      grew an even number of times since that append, or the two ends of the chain agree. */
  lemma FindReturnsLastAppended<K, V>(states: seq<Multi<K, V>>, ops: seq<Op<K, V>>, replies: seq<Reply<V>>, k: K,
                                      i: nat, n: nat)
    requires MultiRun(states, ops, replies) && i < n < |ops| && ops[n] == FindOp(k)
    requires ops[i].InsertOp? && ops[i].strategy == Append && ops[i].key == k && replies[i] == Inserted(Ok, None)
    requires forall j :: i < j < n ==> !Changes(ops[j], replies[j], k)
    ensures At(states[n], k) != []
    ensures var c := At(states[n], k);
            replies[n] == Answered(Some(ops[i].value)) <==> Growths(states, i + 1, n) % 2 == 0 || c[0] == c[|c| - 1]
  {
    hide Reverse, Changes;
    assert MultiStep(states[i], ops[i]) == (states[i + 1], replies[i]);
    assert MultiStep(states[n], ops[n]) == (states[n + 1], replies[n]);
    AppendStep(states[i], ops[i], k);
    var a := At(states[i + 1], k);
    assert a[0] == ops[i].value;
    TurnedSince(states, ops, replies, k, i + 1, n);
    ReverseEnds(a);
  }

  /** The header promises that find returns the value appended last.  A growth caused by
      another key turns the chain, so the oldest value comes back instead. */
  method DocumentedOrderFails<K(==, !new)>(h: HashMap<K, nat>, a: K, b: K) returns (hit: Option<nat>)
    requires Represents(h, map[]) && h.cap == 0 && a != b
    modifies h
    ensures hit == Some(1)
  {
    hide HashBits, Lookup, PlacedIn, Total;
    var r, previous := h.Insert(a, 1, Append, true, true);
    r, previous := h.Insert(a, 2, Append, true, true);
    r, previous := h.Insert(b, 3, Append, true, true);
    assert h.Values(a) == [2, 1];
    r, previous := h.Insert(b, 4, Append, true, true);
    assert h.Values(a) == Reverse([2, 1]) == [1, 2];
    hit := h.Find(a);
  }
}
