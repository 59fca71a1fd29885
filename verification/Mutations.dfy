/**
Puts as the index and the journal see them: what each part of a put publishes and records, and
what a leaf of the index says about the put of its version.
*/
module Mutations {
  import opened Common
  import opened Leaves
  import opened Effects
  import C = Chunks

  type Slotted = l: Leaf | LeafOk(l) witness Leaf(0, [NO_ADDR, NO_ADDR], None, None)
  type Index = map<Key, Slotted>

  /**
  A put: plain with one part, hot with two, or striped with one part a slice; where its parts
  come to lie, and how many bytes each has.
  */
  datatype Plan = Plan(key: Key, striped: bool, at: seq<Part>, lens: seq<nat>, expire: nat, crc: nat, shape: Option<seq<nat>>)

  /** The put of each version. */
  type Truth = map<nat, Plan>

  predicate PlanOk(plan: Plan) {
    && |plan.lens| == |plan.at| && 0 < |plan.at| && (plan.striped || |plan.at| <= REPLICAS)
    && forall p :: 0 <= p < |plan.at| ==> plan.at[p].dev != INVALID_DEV
  }

  /** A journal record.  It carries no write timestamp. */
  datatype Mut =
    | Put(key: Key, ver: nat, addr: Addr, slot: nat, striped: bool, idx: nat, cnt: nat, len: nat, shape: Option<seq<nat>>)
    | Del(key: Key)

  /** What a deletion takes in the journal, and the least that a put takes. */
  const DEL_SIZE: nat := 64
  const PUT_SIZE: nat := 76

  function AddrAt(plan: Plan, p: nat, ts: nat): Addr
    requires p < |plan.at|
  {
    Addr(plan.at[p].dev, plan.at[p].page, plan.at[p].len, ts, plan.expire, plan.crc)
  }

  /** What part p publishes at time ts. */
  function WriteOf(v: nat, plan: Plan, p: nat, ts: nat): Write
    requires p < |plan.at|
  {
    if plan.striped then Write(v, AddrAt(plan, p, ts), 0, true, p, |plan.at|, C.Total(plan.lens), plan.shape)
    else Write(v, AddrAt(plan, p, ts), p, false, 0, 0, 0, plan.shape)
  }

  /** What the journal records of it. */
  function RecordOf(v: nat, plan: Plan, p: nat): Mut
    requires p < |plan.at| == |plan.lens|
  {
    if plan.striped then Put(plan.key, v, AddrAt(plan, p, 0), 0, true, p, |plan.at|, plan.lens[p], plan.shape)
    else Put(plan.key, v, AddrAt(plan, p, 0), p, false, 0, 0, plan.lens[p], plan.shape)
  }

  /** The part that a record is about. */
  function PartIdx(m: Mut): nat
    requires m.Put?
  {
    if m.striped then m.idx else m.slot
  }

  function Get(idx: Index, k: Key): Option<Slotted> {
    if k in idx then Some(idx[k]) else None
  }

  // ----- Leaves up to write timestamps -----

  function Untimed(l: Slotted): Slotted {
    l.(addr := [l.addr[0].(ts := 0), l.addr[1].(ts := 0)])
  }

  function Bare(x: Option<Slotted>): Option<Slotted> {
    if x.None? then None else Some(Untimed(x.value))
  }

  // ----- What a leaf says about the put of its version -----

  /** The replica slots or stripe parts that are written. */
  function Filled(l: Slotted): set<nat> {
    if l.stripe.Some? then set p: nat | p < |l.stripe.value.parts| && l.stripe.value.parts[p].dev != INVALID_DEV
    else set p: nat | p < REPLICAS && l.addr[p].dev != INVALID_DEV
  }

  function Abs(x: Option<Slotted>): Held {
    if x.None? then None else Some(Content(x.value.ver, Filled(x.value)))
  }

  /**
  The leaf of a put of which these parts are written.  A stripe without any part has no room for
  one either; replay makes such leaves.
  */
  function Built(v: nat, plan: Plan, parts: set<nat>): Slotted {
    if plan.striped then
      var stripe :=
        if parts == {} then Stripe([], 0)
        else Stripe(seq(|plan.at|, p requires 0 <= p < |plan.at| => if p in parts then plan.at[p] else NO_PART), C.Total(plan.lens));
      Leaf(v, [ZERO_ADDR.(crc := plan.crc), ZERO_ADDR], Some(stripe), plan.shape)
    else
      Leaf(v, [if 0 in parts && 0 < |plan.at| then AddrAt(plan, 0, 0) else NO_ADDR,
               if 1 in parts && 1 < |plan.at| then AddrAt(plan, 1, 0) else NO_ADDR], None, plan.shape)
  }

  /** Some of the parts of a put, all of them, or none if a replayed stripe has one slice only. */
  predicate PartsOk(plan: Plan, parts: set<nat>) {
    && PlanOk(plan)
    && (forall p :: p in parts ==> p < |plan.at|)
    && (parts != {} || (plan.striped && |plan.at| == 1))
  }

  lemma FilledBuilt(v: nat, plan: Plan, parts: set<nat>)
    requires PartsOk(plan, parts)
    ensures Filled(Built(v, plan, parts)) == parts && Untimed(Built(v, plan, parts)) == Built(v, plan, parts)
  {
    var l := Built(v, plan, parts);
    assert Untimed(l).addr == l.addr;
    forall p: nat
      ensures p in Filled(l) <==> p in parts
    {}
  }

  /** The leaf is one of key k and of the put of its version. */
  ghost predicate Sound(truth: Truth, k: Key, x: Option<Slotted>) {
    x.Some? ==>
      var l := x.value;
      && l.ver in truth && truth[l.ver].key == k && PartsOk(truth[l.ver], Filled(l))
      && Untimed(l) == Built(l.ver, truth[l.ver], Filled(l))
  }

  /** What a key holds, as a leaf. */
  function Shown(truth: Truth, h: Held): Option<Slotted> {
    if h.None? || h.value.ver !in truth then None else Some(Built(h.value.ver, truth[h.value.ver], h.value.parts))
  }

  ghost predicate HeldOk(truth: Truth, k: Key, h: Held) {
    h.Some? ==> h.value.ver in truth && truth[h.value.ver].key == k && PartsOk(truth[h.value.ver], h.value.parts)
  }

  /** Up to timestamps a leaf is determined by the version and the parts it has. */
  lemma SoundShown(truth: Truth, k: Key, x: Option<Slotted>, h: Held)
    requires Sound(truth, k, x) && HeldOk(truth, k, h)
    ensures HeldOk(truth, k, Abs(x)) && Bare(x) == Shown(truth, Abs(x))
    ensures Bare(x) == Shown(truth, h) <==> Abs(x) == h
  {
    if h.Some? {
      FilledBuilt(h.value.ver, truth[h.value.ver], h.value.parts);
    }
    if x.Some? {
      FilledBuilt(x.value.ver, truth[x.value.ver], Filled(x.value));
    }
  }

  lemma SameBare(truth: Truth, k: Key, x: Option<Slotted>, y: Option<Slotted>)
    requires Sound(truth, k, x) && Sound(truth, k, y)
    ensures Bare(x) == Bare(y) <==> Abs(x) == Abs(y)
  {
    SoundShown(truth, k, y, None);
    SoundShown(truth, k, x, Abs(y));
  }

  // ----- Publishing a part -----

  /**
  Publishing a part joins it to what the leaf has.  A leaf of its version must have a part
  already: then it is a leaf that publishing made.
  */
  lemma PublishJoins(truth: Truth, k: Key, x: Option<Slotted>, v: nat, p: nat, ts: nat)
    requires Sound(truth, k, x) && v in truth && truth[v].key == k && PlanOk(truth[v]) && p < |truth[v].at|
    requires x.Some? && x.value.ver == v ==> Filled(x.value) != {}
    ensures var w := WriteOf(v, truth[v], p, ts);
            && Publishable(x, w) && Sound(truth, k, Some(Publish(x, w)))
            && Abs(Some(Publish(x, w))) == Join(Abs(x), Some(Content(v, {p})))
  {
    var plan, w := truth[v], WriteOf(v, truth[v], p, ts);
    if Stale(x, w) {
    } else if x.Some? && x.value.ver == v {
      if plan.striped {
        StripedInPlace(x.value, v, plan, p, ts);
      } else {
        SlotInPlace(x.value, v, plan, p, ts);
      }
    } else {
      FreshPart(v, plan, p, ts);
    }
  }

  lemma FreshPart(v: nat, plan: Plan, p: nat, ts: nat)
    requires PlanOk(plan) && p < |plan.at|
    ensures var l := FreshLeaf(WriteOf(v, plan, p, ts));
            Untimed(l) == Built(v, plan, {p}) && Filled(l) == {p} && PartsOk(plan, {p})
  {
    var l, b := FreshLeaf(WriteOf(v, plan, p, ts)), Built(v, plan, {p});
    if plan.striped {
      assert l.stripe.value.parts == b.stripe.value.parts;
    }
    assert Untimed(l).addr == b.addr;
    FilledBuilt(v, plan, {p});
    FilledUntimed(l);
  }

  lemma FilledUntimed(l: Slotted)
    ensures Filled(Untimed(l)) == Filled(l)
  {
    forall p: nat
      ensures p in Filled(Untimed(l)) <==> p in Filled(l)
    {}
  }

  lemma SlotInPlace(l: Slotted, v: nat, plan: Plan, p: nat, ts: nat)
    requires PartsOk(plan, Filled(l)) && Untimed(l) == Built(v, plan, Filled(l)) && !plan.striped && p < |plan.at|
    ensures var l' := Publish(Some(l), WriteOf(v, plan, p, ts));
            && Filled(l') == Filled(l) + {p} && l'.ver == v
            && Untimed(l') == Built(v, plan, Filled(l) + {p}) && PartsOk(plan, Filled(l) + {p})
  {
    var l', b := Publish(Some(l), WriteOf(v, plan, p, ts)), Built(v, plan, Filled(l) + {p});
    assert l.ver == v && l.stripe == None;
    assert l'.addr == l.addr[p := AddrAt(plan, p, ts)];
    assert Untimed(l').addr == b.addr;
    FilledBuilt(v, plan, Filled(l) + {p});
    FilledUntimed(l');
  }

  lemma StripedInPlace(l: Slotted, v: nat, plan: Plan, p: nat, ts: nat)
    requires PartsOk(plan, Filled(l)) && Untimed(l) == Built(v, plan, Filled(l)) && plan.striped && p < |plan.at| && Filled(l) != {}
    ensures Publishable(Some(l), WriteOf(v, plan, p, ts))
    ensures var l' := Publish(Some(l), WriteOf(v, plan, p, ts));
            && Filled(l') == Filled(l) + {p} && l'.ver == v
            && Untimed(l') == Built(v, plan, Filled(l) + {p}) && PartsOk(plan, Filled(l) + {p})
  {
    var w, b := WriteOf(v, plan, p, ts), Built(v, plan, Filled(l) + {p});
    assert l.ver == v && l.stripe.Some? && |l.stripe.value.parts| == |plan.at|;
    var l' := Publish(Some(l), w);
    assert l'.stripe.value.parts == b.stripe.value.parts;
    assert Untimed(l').addr == b.addr;
    FilledBuilt(v, plan, Filled(l) + {p});
    FilledUntimed(l');
  }
}
