/**
The cuckoo filter that can hold the tombstones of evicted prefixes: buckets of four
one-byte fingerprints, two candidate buckets a key, and eviction chains of bounded
length.  The hash is a parameter, so every result holds for every hash function.
*/
module Cuckoo {
  import opened Common

  const BUCKET_SLOTS: nat := 4
  const MAX_KICKS: nat := 500
  const FP_RANGE: nat := 256

  type Hash = nat -> nat
  type Bucket = b: seq<nat> | |b| == BUCKET_SLOTS witness [0, 0, 0, 0]

  /** The low k bits of i xor h. */
  function XorLow(i: nat, h: nat, k: nat): (r: nat)
    ensures r < Pow2(k)
  {
    if k == 0 then 0 else (i % 2 + h % 2) % 2 + 2 * XorLow(i / 2, h / 2, k - 1)
  }

  lemma TwiceOdd(a: nat, b: nat)
    requires a < 2 && b < 2
    ensures ((a + b) % 2 + b) % 2 == a
  {}

  lemma Bits(b: nat, j: nat)
    requires b < 2
    ensures (b + 2 * j) % 2 == b && (b + 2 * j) / 2 == j
  {}

  lemma XorLowNone(i: nat, h: nat)
    ensures XorLow(i, h, 0) == 0
  {}

  lemma XorLowStep(i: nat, h: nat, k: nat)
    requires 0 < k
    ensures XorLow(i, h, k) == (i % 2 + h % 2) % 2 + 2 * XorLow(i / 2, h / 2, k - 1)
  {}

  lemma {:induction false} XorLowInvolution(i: nat, h: nat, k: nat)
    requires i < Pow2(k)
    ensures XorLow(XorLow(i, h, k), h, k) == i
  {
    hide XorLow;
    if k == 0 {
      XorLowNone(XorLow(i, h, 0), h);
    } else {
      var b, j := (i % 2 + h % 2) % 2, XorLow(i / 2, h / 2, k - 1);
      XorLowInvolution(i / 2, h / 2, k - 1);
      assert XorLow(j, h / 2, k - 1) == i / 2;
      XorLowStep(i, h, k);
      Bits(b, j);
      XorLowStep(b + 2 * j, h, k);
      TwiceOdd(i % 2, h % 2);
    }
  }

  /** Bit j of a number. */
  function Bit(x: nat, j: nat): nat {
    if j == 0 then x % 2 else Bit(x / 2, j - 1)
  }

  /** Bit by bit it is the exclusive or. */
  lemma {:induction false} XorLowBits(i: nat, h: nat, k: nat, j: nat)
    requires j < k
    ensures Bit(XorLow(i, h, k), j) == if Bit(i, j) == Bit(h, j) then 0 else 1
  {
    hide XorLow;
    var b, r := (i % 2 + h % 2) % 2, XorLow(i / 2, h / 2, k - 1);
    XorLowStep(i, h, k);
    Bits(b, r);
    if j > 0 {
      XorLowBits(i / 2, h / 2, k - 1, j - 1);
    }
  }

  function Count(b: seq<nat>, f: nat): (n: nat)
    ensures n > 0 <==> f in b
  {
    multiset(b)[f]
  }

  /** Fingerprint of a key, never the value 0 that marks an empty slot. */
  function Fingerprint(mix: Hash, key: nat): (f: nat)
    ensures 0 < f < FP_RANGE
  {
    var f := mix(key) % FP_RANGE;
    if f == 0 then 1 else f
  }

  /** Keys share a fingerprint exactly if their hashes have the same low byte, 0 and 1 being the same. */
  lemma SameFingerprint(mix: Hash, x: nat, y: nat)
    ensures Fingerprint(mix, x) == Fingerprint(mix, y) <==>
            mix(x) % 256 == mix(y) % 256 || (mix(x) % 256 <= 1 && mix(y) % 256 <= 1)
  {}

  /**
  The parameters of one filter: 2^k buckets, one hash for fingerprints and one for
  buckets (the source derives both from one mixing function).
  */
  datatype Params = Params(k: nat, fpMix: Hash, mix: Hash) {
    function Buckets(): nat { Pow2(k) }

    function Fp(key: nat): (f: nat)
      ensures 0 < f < FP_RANGE
    {
      Fingerprint(fpMix, key)
    }

    function Home(key: nat): (i: nat)
      ensures i < Buckets()
    {
      mix(key) % Pow2(k)
    }

    function Alt(i: nat, f: nat): (j: nat)
      ensures j < Buckets()
    {
      XorLow(i, mix(f), k)
    }

    /** Fingerprint f filed under the bucket pair {home, Alt(home, f)} can sit in bucket i. */
    predicate Pair(home: nat, f: nat, i: nat) {
      i == home || i == Alt(home, f)
    }

    lemma PairSymmetric(home: nat, f: nat, i: nat)
      requires home < Buckets() && i < Buckets()
      ensures Alt(Alt(home, f), f) == home
      ensures Pair(home, f, i) <==> Pair(Alt(home, f), f, i)
      ensures Pair(home, f, i) <==> Pair(i, f, home)
    {
      XorLowInvolution(home, mix(f), k);
      XorLowInvolution(i, mix(f), k);
    }

    /** Each fingerprint goes from the bucket it was kicked out of to its other bucket. */
    ghost predicate IsTrail(trail: seq<(nat, nat)>) {
      forall n :: 0 < n < |trail| ==> trail[n].0 == Alt(trail[n - 1].0, trail[n].1)
    }

    /** Stored copies of fingerprint f in the bucket pair of i. */
    function Copies(bs: seq<Bucket>, f: nat, i: nat): nat
      requires |bs| == Buckets() && i < |bs|
    {
      Count(bs[i], f) + if Alt(i, f) == i then 0 else Count(bs[Alt(i, f)], f)
    }

    /** Keys of the history that are filed under fingerprint f and the bucket pair of i. */
    function Expected(keys: seq<nat>, f: nat, i: nat): nat {
      if keys == [] then 0
      else
        Expected(keys[..|keys| - 1], f, i) + Weight(Fp(keys[|keys| - 1]), Home(keys[|keys| - 1]), f, i)
    }

    function Weight(g: nat, home: nat, f: nat, i: nat): nat {
      if g == f && Pair(home, f, i) then 1 else 0
    }

    lemma ExpectedMember(keys: seq<nat>, n: nat)
      requires n < |keys|
      ensures Expected(keys, Fp(keys[n]), Home(keys[n])) >= 1
    {
      if n < |keys| - 1 {
        ExpectedMember(keys[..|keys| - 1], n);
      }
    }

    lemma {:induction false} ExpectedRemove(keys: seq<nat>, n: nat, f: nat, i: nat)
      requires n < |keys|
      ensures Expected(keys, f, i) ==
              Expected(keys[..n] + keys[n + 1..], f, i) + Weight(Fp(keys[n]), Home(keys[n]), f, i)
    {
      var init, last := keys[..|keys| - 1], keys[|keys| - 1];
      if n == |keys| - 1 {
        assert keys[..n] + keys[n + 1..] == init;
      } else {
        ExpectedRemove(init, n, f, i);
        var cut := keys[..n] + keys[n + 1..];
        assert cut[..|cut| - 1] == init[..n] + init[n + 1..];
        assert cut[|cut| - 1] == last;
      }
    }

    /** Replacing one slot of bucket i moves the counts of exactly the pairs that contain i. */
    lemma CopiesUpdate(bs: seq<Bucket>, i: nat, b: Bucket, slot: nat, f: nat, j: nat)
      requires |bs| == Buckets() && i < |bs| && j < |bs| && slot < BUCKET_SLOTS
      requires bs[i][slot := b[slot]] == b
      ensures Copies(bs[i := b], f, j) + Weight(bs[i][slot], i, f, j) ==
              Copies(bs, f, j) + Weight(b[slot], i, f, j)
    {
      PairSymmetric(i, f, j);
      PairSymmetric(j, f, i);
      assert Count(b, f) + (if bs[i][slot] == f then 1 else 0) == Count(bs[i], f) + (if b[slot] == f then 1 else 0);
    }
  }

  /** Every slot of every bucket is taken. */
  ghost predicate AllFull(bs: seq<Bucket>) {
    forall i :: 0 <= i < |bs| ==> 0 !in bs[i]
  }

  class Filter {
    const p: Params
    const buckets: array<Bucket>
    var count: nat
    /** Keys inserted and not deleted, oldest first. */
    ghost var keys: seq<nat>
    /** No insertion failed and only inserted keys were deleted. */
    ghost var intact: bool

    ghost predicate Valid()
      reads this, buckets
    {
      && buckets.Length == p.Buckets()
      && (intact ==>
            && count == |keys|
            && forall f, i :: 0 < f && 0 <= i < buckets.Length ==> p.Copies(buckets[..], f, i) == p.Expected(keys, f, i))
    }

    constructor (p: Params)
      ensures this.p == p && fresh(buckets)
      ensures Valid() && intact && keys == []
    {
      this.p := p;
      buckets := new Bucket[Pow2(p.k)](_ => [0, 0, 0, 0]);
      count, keys, intact := 0, [], true;
    }

    /** Put f into the first empty slot of bucket i. */
    method BucketInsert(i: nat, f: nat) returns (ok: bool)
      requires buckets.Length == p.Buckets() && i < buckets.Length && 0 < f
      modifies buckets
      ensures !ok ==> buckets[..] == old(buckets[..]) && 0 !in buckets[i]
      ensures ok ==> 0 in old(buckets[i])
      ensures ok ==> forall g, j :: 0 < g && 0 <= j < buckets.Length ==>
                p.Copies(buckets[..], g, j) == p.Copies(old(buckets[..]), g, j) + p.Weight(f, i, g, j)
    {
      var n := 0;
      while n < BUCKET_SLOTS
        invariant n <= BUCKET_SLOTS
        invariant buckets[..] == old(buckets[..])
        invariant forall m :: 0 <= m < n ==> buckets[i][m] != 0
      {
        if buckets[i][n] == 0 {
          buckets[i] := buckets[i][n := f];
          ghost var before := old(buckets[..]);
          assert buckets[..] == before[i := before[i][n := f]];
          forall g, j | 0 < g && 0 <= j < buckets.Length
            ensures p.Copies(buckets[..], g, j) == p.Copies(before, g, j) + p.Weight(f, i, g, j)
          {
            p.CopiesUpdate(before, i, before[i][n := f], n, g, j);
          }
          return true;
        }
        n := n + 1;
      }
      return false;
    }

    /** Clear one slot of bucket i that holds f. */
    method BucketRemove(i: nat, f: nat) returns (ok: bool)
      requires buckets.Length == p.Buckets() && i < buckets.Length && 0 < f
      modifies buckets
      ensures !ok ==> buckets[..] == old(buckets[..]) && f !in buckets[i]
      ensures ok ==> forall g, j :: 0 < g && 0 <= j < buckets.Length ==>
                p.Copies(buckets[..], g, j) + p.Weight(f, i, g, j) == p.Copies(old(buckets[..]), g, j)
    {
      var n := 0;
      while n < BUCKET_SLOTS
        invariant n <= BUCKET_SLOTS
        invariant buckets[..] == old(buckets[..])
        invariant forall m :: 0 <= m < n ==> buckets[i][m] != f
      {
        if buckets[i][n] == f {
          buckets[i] := buckets[i][n := 0];
          ghost var before := old(buckets[..]);
          assert buckets[..] == before[i := before[i][n := 0]];
          forall g, j | 0 < g && 0 <= j < buckets.Length
            ensures p.Copies(buckets[..], g, j) + p.Weight(f, i, g, j) == p.Copies(before, g, j)
          {
            p.CopiesUpdate(before, i, before[i][n := 0], n, g, j);
          }
          return true;
        }
        n := n + 1;
      }
      return false;
    }

    /** Swap f into one slot of a full bucket; what came out is a real fingerprint. */
    method Kick(i: nat, slot: nat, f: nat) returns (victim: nat)
      requires buckets.Length == p.Buckets() && i < buckets.Length && slot < BUCKET_SLOTS && 0 < f
      requires 0 !in buckets[i]
      modifies buckets
      ensures 0 < victim
      ensures AllFull(old(buckets[..])) ==> AllFull(buckets[..])
      ensures forall g, j :: 0 < g && 0 <= j < buckets.Length ==>
                p.Copies(buckets[..], g, j) + p.Weight(victim, i, g, j) ==
                p.Copies(old(buckets[..]), g, j) + p.Weight(f, i, g, j)
    {
      victim := buckets[i][slot];
      assert victim in buckets[i];
      buckets[i] := buckets[i][slot := f];
      ghost var before := old(buckets[..]);
      assert buckets[..] == before[i := before[i][slot := f]];
      forall g, j | 0 < g && 0 <= j < buckets.Length
        ensures p.Copies(buckets[..], g, j) + p.Weight(victim, i, g, j) == p.Copies(before, g, j) + p.Weight(f, i, g, j)
      {
        p.CopiesUpdate(before, i, before[i][slot := f], slot, g, j);
      }
    }

    /**
    Insert a key.  `coin` is the clock bit that picks the first bucket to kick from.  `trail` lists
    the buckets with the fingerprint that is looking for a place: without a free slot in the two
    buckets of the key, each fingerprint that is kicked out goes to its own other bucket.
    On failure the filter holds the new key and has lost one fingerprint, `lost`, that
    was filed under the bucket pair of `lostAt`: a failed insertion is not a no-op.
    */
    method Insert(key: nat, coin: bool) returns (ok: bool, ghost lost: nat, ghost lostAt: nat, ghost trail: seq<(nat, nat)>)
      requires Valid()
      modifies this, buckets
      ensures Valid()
      ensures trail == [] <==> 0 in old(buckets[..])[p.Home(key)] || 0 in old(buckets[..])[p.Alt(p.Home(key), p.Fp(key))]
      ensures trail != [] ==> trail[0] == (if coin then p.Home(key) else p.Alt(p.Home(key), p.Fp(key)), p.Fp(key)) && p.IsTrail(trail)
      ensures !ok ==> |trail| == MAX_KICKS + 1 && trail[MAX_KICKS] == (lostAt, lost)
      ensures ok ==> intact == old(intact) && keys == old(keys) + [key] && count == old(count) + 1
      ensures !ok ==> !intact && keys == old(keys) && count == old(count)
      ensures !ok ==> 0 < lost && lostAt < buckets.Length
      ensures AllFull(old(buckets[..])) ==> !ok
      ensures forall f, i :: 0 < f && 0 <= i < buckets.Length ==>
                p.Copies(buckets[..], f, i) + (if ok then 0 else p.Weight(lost, lostAt, f, i)) ==
                p.Copies(old(buckets[..]), f, i) + p.Weight(p.Fp(key), p.Home(key), f, i)
    {
      hide Params.Weight, Params.Copies, Params.Alt;
      var f := p.Fp(key);
      var i1 := p.Home(key);
      var i2 := p.Alt(i1, f);
      lost, lostAt, trail := 0, 0, [];
      SamePair(i1, f);
      ok := BucketInsert(i1, f);
      if !ok {
        ok := BucketInsert(i2, f);
      }
      if ok {
        count, keys := count + 1, keys + [key];
        Filed(old(keys), key);
        return;
      }
      var cur: nat := if coin then i1 else i2;
      assert 0 !in buckets[cur];
      trail := [(cur, f)];
      var n := 0;
      while n < MAX_KICKS
        invariant n <= MAX_KICKS && cur < buckets.Length && 0 < f
        invariant |trail| == n + 1 && trail[n] == (cur, f) && p.IsTrail(trail)
        invariant trail[0] == (if coin then i1 else i2, p.Fp(key))
        invariant count == old(count) && keys == old(keys) && intact == old(intact)
        invariant 0 !in buckets[cur]
        invariant AllFull(old(buckets[..])) ==> AllFull(buckets[..])
        invariant forall g, j :: 0 < g && 0 <= j < buckets.Length ==>
                    p.Copies(buckets[..], g, j) + p.Weight(f, cur, g, j) ==
                    p.Copies(old(buckets[..]), g, j) + p.Weight(p.Fp(key), i1, g, j)
      {
        var victim := Kick(cur, p.mix(key + n) % BUCKET_SLOTS, f);
        f := victim;
        SamePair(cur, f);
        cur := p.Alt(cur, f);
        trail := trail + [(cur, f)];
        ok := BucketInsert(cur, f);
        if ok {
          count, keys := count + 1, keys + [key];
          Filed(old(keys), key);
          return;
        }
        n := n + 1;
      }
      lost, lostAt := f, cur;
      intact := false;
    }

    lemma SamePair(i: nat, f: nat)
      requires buckets.Length == p.Buckets() && i < buckets.Length
      ensures forall g, j :: 0 <= j < buckets.Length ==> p.Weight(f, i, g, j) == p.Weight(f, p.Alt(i, f), g, j)
    {
      forall g, j | 0 <= j < buckets.Length
        ensures p.Weight(f, i, g, j) == p.Weight(f, p.Alt(i, f), g, j)
      {
        p.PairSymmetric(i, f, j);
      }
    }

    lemma Filed(before: seq<nat>, key: nat)
      ensures forall f, i :: p.Expected(before + [key], f, i) ==
                             p.Expected(before, f, i) + p.Weight(p.Fp(key), p.Home(key), f, i)
    {
      assert (before + [key])[..|before|] == before;
    }

    lemma Present(key: nat)
      requires Valid()
      ensures intact && key in keys ==> p.Copies(buckets[..], p.Fp(key), p.Home(key)) > 0
      ensures intact && key in keys ==> count > 0
    {
      if key in keys {
        var n :| 0 <= n < |keys| && keys[n] == key;
        p.ExpectedMember(keys, n);
      }
    }

    /** No false negatives: in an intact filter every inserted key is found. */
    method Lookup(key: nat) returns (found: bool)
      requires Valid()
      ensures found <==> p.Copies(buckets[..], p.Fp(key), p.Home(key)) > 0
      ensures intact && key in keys ==> found
    {
      var f, i1 := p.Fp(key), p.Home(key);
      var i2 := p.Alt(i1, f);
      found := f in buckets[i1] || f in buckets[i2];
      Present(key);
    }

    /** Delete a key.  Deleting a key that was inserted removes exactly one stored copy of it. */
    method Delete(key: nat) returns (removed: bool)
      requires Valid()
      modifies this, buckets
      ensures Valid()
      ensures old(intact) && key in old(keys) ==>
                && removed && intact && count == old(count) - 1
                && exists n :: 0 <= n < |old(keys)| && old(keys)[n] == key
                               && keys == old(keys)[..n] + old(keys)[n + 1..]
      ensures !removed ==> buckets[..] == old(buckets[..]) && keys == old(keys) && count == old(count)
      ensures removed ==> forall g, j :: 0 < g && 0 <= j < buckets.Length ==>
                p.Copies(buckets[..], g, j) + p.Weight(p.Fp(key), p.Home(key), g, j) == p.Copies(old(buckets[..]), g, j)
      ensures removed && key !in old(keys) ==> !intact
    {
      var f, i1 := p.Fp(key), p.Home(key);
      var i2 := p.Alt(i1, f);
      SamePair(i1, f);
      Present(key);
      removed := BucketRemove(i1, f);
      if !removed {
        removed := BucketRemove(i2, f);
      }
      if removed {
        if count > 0 {
          count := count - 1;
        }
        if key in keys {
          ghost var n :| 0 <= n < |keys| && keys[n] == key;
          keys := keys[..n] + keys[n + 1..];
          forall g, j | 0 < g && 0 <= j < buckets.Length
            ensures p.Expected(old(keys), g, j) == p.Expected(keys, g, j) + p.Weight(p.Fp(key), p.Home(key), g, j)
          {
            p.ExpectedRemove(old(keys), n, g, j);
          }
        } else {
          intact := false;
        }
      }
    }
  }
}
