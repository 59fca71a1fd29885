/**
A put as the index and the journal see it against the bytes that were put: what its parts publish,
and what the leaf says of it that an opening finds after a crash.
*/
module Plans {
  import opened Common
  import opened Fields
  import opened Leaves
  import opened Chunks
  import opened NodeLife
  import opened Puts
  import M = Mutations
  import R = Recovery

  /** Bytes that part p of a put carries: the whole stream, or its slice. */
  function PartLength(put: Put, p: nat): nat
    requires PutOk(put) && p < Count(put)
  {
    if put.kind.Striped? then SliceStart(|Stream(put.recs)|, put.kind.unit, Count(put), p); |Slice(Stream(put.recs), put.kind.unit, p)|
    else |Stream(put.recs)|
  }

  /** The plan is one of the put, wherever its parts come to lie. */
  ghost predicate PlanOf(plan: M.Plan, put: Put, crc: Crc) {
    && PutOk(put) && M.PlanOk(plan) && plan.striped == put.kind.Striped? && |plan.at| == Count(put)
    && plan.expire == put.expire && plan.crc == Checksum(put, crc) && plan.shape == Some(Lens(put.recs))
    && forall p: nat :: p < Count(put) ==> plan.lens[p] == PartLength(put, p) && plan.at[p].len == |Chunk(put, p)|
  }

  /** The slices in front of slice p. */
  lemma {:induction false} SlicesAdd(plan: M.Plan, put: Put, crc: Crc, p: nat)
    requires PlanOf(plan, put, crc) && put.kind.Striped? && p <= Count(put)
    ensures Total(plan.lens[..p]) == Min(p * put.kind.unit, |Stream(put.recs)|)
  {
    hide Stream, PartCount, Checksum, Chunk;
    if p > 0 {
      SlicesAdd(plan, put, crc, p - 1);
      TotalNext(plan.lens, p - 1);
      SliceStart(|Stream(put.recs)|, put.kind.unit, Count(put), p - 1);
      assert plan.lens[p - 1] == PartLength(put, p - 1);
    }
  }

  /** The lengths of the slices add up to the stream. */
  lemma TotalIsStream(plan: M.Plan, put: Put, crc: Crc)
    requires PlanOf(plan, put, crc) && put.kind.Striped?
    ensures Total(plan.lens) == |Stream(put.recs)|
  {
    SlicesAdd(plan, put, crc, Count(put));
    assert plan.lens[..Count(put)] == plan.lens;
  }

  /** What part p publishes is what the put asked for it, at the place it came to lie. */
  lemma PublishesAsked(v: nat, plan: M.Plan, put: Put, crc: Crc, p: nat, ts: nat)
    requires PlanOf(plan, put, crc) && p < Count(put)
    ensures M.WriteOf(v, plan, p, ts) ==
            Asked(v, put, crc, p).(addr := Addr(plan.at[p].dev, plan.at[p].page, |Chunk(put, p)|, ts, put.expire, Checksum(put, crc)))
    ensures put.kind.Striped? ==> M.WriteOf(v, plan, p, ts).total == |Stream(put.recs)|
  {
    hide Stream, PartCount, Checksum, Chunk, PutOk;
    if put.kind.Striped? {
      TotalIsStream(plan, put, crc);
    }
  }

  /** The pages of all parts, by the extents of a leaf. */
  function AllPages(put: Put): map<nat, seq<Page>>
    requires PutOk(put)
  {
    map p | 0 <= p < Count(put) :: Place(put, p) := Chunk(put, p)
  }

  lemma PageOf(put: Put, p: nat)
    requires PutOk(put) && p < Count(put)
    ensures Place(put, p) in AllPages(put) && AllPages(put)[Place(put, p)] == Chunk(put, p)
  {
    hide Chunk, PutOk, Count;
  }

  /** The leaf says of the put what a leaf of a running store says when these parts were published. */
  ghost predicate Tells(l: Leaf, parts: set<nat>, put: Put, crc: Crc)
    requires PutOk(put)
  {
    && Outline(l, put, crc)
    && forall p: nat :: p < Slots(put) ==>
         if p in parts then p < Count(put) && Filled(Life(Some(l), AllPages(put)), put, crc, p)
         else Unused(Life(Some(l), AllPages(put)), put, p)
  }

  /**
  Up to write timestamps a sound leaf tells of its put: the outline, with the length of the whole
  stream, and part by part how long it is, when it expires and its checksum, with the places where
  the parts lie.  Only a stripe without any slice tells nothing.
  */
  lemma SoundLeaf(truth: M.Truth, k: Key, l: M.Slotted, put: Put, crc: Crc)
    requires M.Sound(truth, k, Some(l)) && PlanOf(truth[l.ver], put, crc) && M.Filled(l) != {}
    ensures Tells(M.Untimed(l), M.Filled(l), put, crc)
    ensures forall p: nat :: p in M.Filled(l) ==>
              && p < Count(put) && (put.kind.Striped? ==> l.stripe.Some? && p < |l.stripe.value.parts|)
              && (if put.kind.Striped? then l.stripe.value.parts[p] else PartOf(l.addr[p])) == truth[l.ver].at[p]
  {
    hide Stream, PartCount, Checksum, Chunk, PutOk, AllPages;
    var plan, parts := truth[l.ver], M.Filled(l);
    var b := M.Built(l.ver, plan, parts);
    assert M.Untimed(l) == b && |plan.at| == Count(put);
    if put.kind.Striped? {
      TotalIsStream(plan, put, crc);
    }
    forall p: nat | p < Slots(put)
      ensures if p in parts then p < Count(put) && Filled(Life(Some(b), AllPages(put)), put, crc, p)
              else Unused(Life(Some(b), AllPages(put)), put, p)
    {
      if p in parts {
        PageOf(put, p);
      }
    }
  }

  /** What any run with any crash leaves of a put: the leaf that the next opening finds tells what was put. */
  lemma RecoveredLeaf(states: seq<R.State>, steps: seq<R.Step>, n: nat, k: Key, put: Put, crc: Crc)
    requires R.Execution(states, steps) && n < |states| && k in R.Recover(states[n])
    requires var l := R.Recover(states[n])[k];
             l.ver in states[n].truth && PlanOf(states[n].truth[l.ver], put, crc) && M.Filled(l) != {}
    ensures var l := R.Recover(states[n])[k];
            && Tells(M.Untimed(l), M.Filled(l), put, crc)
            && (put.kind.Striped? ==> l.stripe.Some? && l.stripe.value.total == |Stream(put.recs)|)
  {
    hide PlanOf, Filled, Unused, AllPages, R.Recover;
    var s := states[n];
    R.ExecutionInv(states, steps, n);
    R.RecoverKey(s, k);
    SoundLeaf(s.truth, k, R.Recover(s)[k], put, crc);
  }
}
