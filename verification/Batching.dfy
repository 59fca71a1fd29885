/** How a writer fills its next batch from the ring. */
module Batching {
  import opened Common
  import opened Chunks

  const MAX_REQUESTS: nat := 512

  /** Size of a batch buffer. */
  function BufferSize(threshold: nat, unit: nat): nat {
    Max(threshold, unit) + 4 * PAGE_SIZE
  }

  /** A request carries the whole payload of a put that is not striped, or one slice. */
  predicate Legal(len: nat, threshold: nat, unit: nat) {
    len <= threshold || len <= unit
  }

  lemma LegalFits(len: nat, threshold: nat, unit: nat)
    requires Legal(len, threshold, unit)
    ensures PageCount(len) * PAGE_SIZE <= BufferSize(threshold, unit)
  {
    assert PageCount(len) * PAGE_SIZE == len + Slack(len);
  }

  /** Bytes the requests take in the buffer. */
  function Filled(lens: seq<nat>): nat {
    if lens == [] then 0 else Filled(lens[..|lens| - 1]) + PageCount(lens[|lens| - 1]) * PAGE_SIZE
  }

  /** What still fits into a ring of `cap` places. */
  function Admitted(ring: seq<nat>, more: seq<nat>, cap: nat): (taken: seq<nat>)
    requires |ring| <= cap
    ensures taken <= more && |ring| + |taken| <= cap
  {
    more[..Min(|more|, cap - |ring|)]
  }

  /** The ring when i requests are taken: `arrivals(i)` is what the others have to push by then. */
  function RingAfter(ring: seq<nat>, cap: nat, arrivals: nat -> seq<nat>, i: nat): (r: seq<nat>)
    requires |ring| <= cap
    ensures |r| <= cap
  {
    if i == 0 then ring
    else
      var before := RingAfter(ring, cap, arrivals, i - 1);
      var rest := if before == [] then [] else before[1..];
      rest + Admitted(rest, arrivals(i), cap)
  }

  /** The writer goes on after the first j requests of a batch. */
  predicate GoesOn(batch: seq<nat>, j: nat, ready: nat -> bool, batchMin: nat)
    requires j <= |batch|
  {
    j < MAX_REQUESTS && Filled(batch[..j]) < batchMin && (0 < j ==> ready(j))
  }

  /**
  Take requests, given by their payload lengths, from a ring of `cap` places, while others push;
  `came` is all that got in.  The place at the head may be claimed and not yet filled: `ready(i)`
  says whether the pop after i requests finds something there.  The batch is a nonempty prefix of
  what was in the ring or came, fits the buffer, and ends where the writer does not go on.  A
  request that would not fit any more goes to the end of the ring and no other request moves; but
  if the ring has filled up meanwhile, that request is lost.
  */
  method FormBatch(ring: seq<nat>, cap: nat, arrivals: nat -> seq<nat>, ready: nat -> bool, batchMin: nat, threshold: nat, unit: nat)
    returns (batch: seq<nat>, ring': seq<nat>, back: bool, lost: bool, ghost came: seq<nat>)
    requires 0 < |ring| <= cap && 0 < batchMin && forall i :: 0 <= i < |ring| ==> Legal(ring[i], threshold, unit)
    requires forall n: nat, i :: 0 <= i < |arrivals(n)| ==> Legal(arrivals(n)[i], threshold, unit)
    ensures 0 < |batch| <= MAX_REQUESTS && batch <= ring + came && |ring'| <= cap
    ensures Filled(batch) <= BufferSize(threshold, unit)
    ensures forall j :: 0 <= j < |batch| ==> GoesOn(batch, j, ready, batchMin)
    ensures var all, k := ring + came, |batch|;
            if back then
              && k < |all| && GoesOn(batch, k, ready, batchMin)
              && Filled(batch) + PageCount(all[k]) * PAGE_SIZE > BufferSize(threshold, unit)
              && all[k + 1..] == RingAfter(ring, cap, arrivals, k + 1)
              && (lost <==> |all| - k - 1 == cap)
              && ring' == all[k + 1..] + if lost then [] else [all[k]]
            else
              && !lost && ring' == all[k..] == RingAfter(ring, cap, arrivals, k)
              && (ring' == [] || !GoesOn(batch, k, ready, batchMin))
    ensures came == [] ==> !lost
  {
    hide PageCount, Legal, BufferSize, Filled, RingAfter, GoesOn, Admitted;
    var used := 0;
    batch, ring', back, lost, came := [], ring, false, false, [];
    ghost var all := ring;
    FilledNothing();
    NoneTaken(ring, cap, arrivals);
    while |batch| < MAX_REQUESTS && used < batchMin && ring' != [] && (batch == [] || ready(|batch|))
      invariant all == ring + came && |batch| <= |all| && batch == all[..|batch|]
      invariant ring' == all[|batch|..] == RingAfter(ring, cap, arrivals, |batch|)
      invariant |batch| <= MAX_REQUESTS && |ring'| <= cap && (batch == [] ==> used == 0 && ring' != [])
      invariant forall i :: 0 <= i < |all| ==> Legal(all[i], threshold, unit)
      invariant used == Filled(batch) <= BufferSize(threshold, unit)
      invariant forall j :: 0 <= j < |batch| ==> GoesOn(batch, j, ready, batchMin)
      decreases MAX_REQUESTS - |batch|
    {
      var r := ring'[0];
      var bytes := PageCount(r) * PAGE_SIZE;
      assert r == all[|batch|];
      LegalFits(r, threshold, unit);
      var more := Admitted(ring'[1..], arrivals(|batch| + 1), cap);
      Taken(all, more, |batch|);
      OneTaken(ring, cap, arrivals, |batch|);
      assert forall i :: 0 <= i < |more| ==> Legal(more[i], threshold, unit);
      AtEnd(batch, ready, batchMin);
      came, all := came + more, all + more;
      ring' := ring'[1..] + more;
      if batch != [] && used + bytes > BufferSize(threshold, unit) {
        back, lost := true, |ring'| == cap;
        if !lost {
          ring' := ring' + [r];
        }
        return;
      }
      FilledNext(batch, r);
      WentOn(batch, r, ready, batchMin);
      batch, used := batch + [r], used + bytes;
    }
    AtEnd(batch, ready, batchMin);
  }

  lemma NoneTaken(ring: seq<nat>, cap: nat, arrivals: nat -> seq<nat>)
    requires |ring| <= cap
    ensures RingAfter(ring, cap, arrivals, 0) == ring
  {}

  lemma OneTaken(ring: seq<nat>, cap: nat, arrivals: nat -> seq<nat>, i: nat)
    requires |ring| <= cap && RingAfter(ring, cap, arrivals, i) != []
    ensures var rest := RingAfter(ring, cap, arrivals, i)[1..];
            RingAfter(ring, cap, arrivals, i + 1) == rest + Admitted(rest, arrivals(i + 1), cap)
  {}

  lemma AtEnd(batch: seq<nat>, ready: nat -> bool, batchMin: nat)
    ensures GoesOn(batch, |batch|, ready, batchMin) <==>
            |batch| < MAX_REQUESTS && Filled(batch) < batchMin && (batch == [] || ready(|batch|))
  {
    assert batch[..|batch|] == batch;
  }

  lemma WentOn(batch: seq<nat>, r: nat, ready: nat -> bool, batchMin: nat)
    requires forall j :: 0 <= j <= |batch| ==> GoesOn(batch, j, ready, batchMin)
    ensures forall j :: 0 <= j <= |batch| ==> GoesOn(batch + [r], j, ready, batchMin)
  {
    hide Filled;
    forall j | 0 <= j <= |batch|
      ensures GoesOn(batch + [r], j, ready, batchMin)
    {
      assert (batch + [r])[..j] == batch[..j] && GoesOn(batch, j, ready, batchMin);
    }
  }

  /** Places in the ring of a writer. */
  const RING: nat := 4096

  /** Nothing comes while the first two requests of three pages are taken, and a full ring with the third. */
  function Burst(i: nat): (more: seq<nat>)
    ensures forall j :: 0 <= j < |more| ==> more[j] == 1
  {
    if i == 3 then seq(RING, _ => 1) else []
  }

  /**
  One call that loses a request: a buffer of eight pages has room for two requests of three, and
  while the third is taken the ring fills up.
  */
  method LosesRequest() returns (batch: seq<nat>, ring': seq<nat>, lost: bool)
    ensures batch == [3 * PAGE_SIZE, 3 * PAGE_SIZE] && ring' == Burst(3) && |ring'| == RING && lost
  {
    var ring := [3 * PAGE_SIZE, 3 * PAGE_SIZE, 3 * PAGE_SIZE];
    var back;
    ghost var came;
    batch, ring', back, lost, came := FormBatch(ring, RING, Burst, _ => true, 8 * PAGE_SIZE, 4 * PAGE_SIZE, 4 * PAGE_SIZE);
    BurstRing(ring);
    BurstBatch(batch, ring + came);
  }

  lemma BurstRing(ring: seq<nat>)
    requires |ring| == 3
    ensures RingAfter(ring, RING, Burst, 1) == ring[1..] && RingAfter(ring, RING, Burst, 2) == ring[2..]
    ensures RingAfter(ring, RING, Burst, 3) == Burst(3)
  {
    assert RingAfter(ring, RING, Burst, 0) == ring;
    assert RingAfter(ring, RING, Burst, 1) == ring[1..] + [];
    assert RingAfter(ring, RING, Burst, 2) == ring[1..][1..] + [];
    assert ring[2..][1..] == [];
  }

  /** What fits of requests of three pages. */
  lemma BurstBatch(batch: seq<nat>, all: seq<nat>)
    requires batch <= all && |all| >= 3 && all[0] == all[1] == all[2] == 3 * PAGE_SIZE
    ensures |batch| == 1 ==> Filled(batch) == 3 * PAGE_SIZE
    ensures |batch| == 2 ==> Filled(batch) == 6 * PAGE_SIZE
    ensures |batch| >= 3 ==> Filled(batch) >= 9 * PAGE_SIZE
  {
    assert PageCount(3 * PAGE_SIZE) == 3;
    FilledPrefix(batch, 3);
  }

  lemma {:induction false} FilledPrefix(batch: seq<nat>, i: nat)
    ensures i <= |batch| ==> Filled(batch[..i]) <= Filled(batch)
  {
    if i < |batch| {
      FilledPrefix(batch[..|batch| - 1], i);
      assert batch[..|batch| - 1][..i] == batch[..i];
    } else {
      assert batch[..|batch|] == batch;
    }
  }

  lemma Taken(all: seq<nat>, more: seq<nat>, k: nat)
    requires k < |all|
    ensures all[k..][1..] + more == (all + more)[k + 1..]
    ensures (all + more)[..k] == all[..k] && (all + more)[..k + 1] == all[..k] + [all[k]] && (all + more)[k] == all[k]
  {}

  lemma FilledNothing()
    ensures Filled([]) == 0
  {}

  lemma FilledNext(batch: seq<nat>, r: nat)
    ensures Filled(batch + [r]) == Filled(batch) + PageCount(r) * PAGE_SIZE
  {
    assert (batch + [r])[..|batch|] == batch;
  }

  /** A batch that fits its buffer fits a region that is larger than the buffer by its header page. */
  lemma BatchFitsRegion(lens: seq<nat>, threshold: nat, unit: nat, size: nat)
    requires Filled(lens) <= BufferSize(threshold, unit) && BufferSize(threshold, unit) <= (size - 1) * PAGE_SIZE
    ensures 1 + PagesNeeded(lens) <= size
  {
    FilledPages(lens);
  }

  function PagesNeeded(lens: seq<nat>): nat {
    if lens == [] then 0 else PagesNeeded(lens[..|lens| - 1]) + PageCount(lens[|lens| - 1])
  }

  lemma {:induction false} FilledPages(lens: seq<nat>)
    ensures Filled(lens) == PagesNeeded(lens) * PAGE_SIZE
  {
    if lens != [] {
      FilledPages(lens[..|lens| - 1]);
    }
  }
}
