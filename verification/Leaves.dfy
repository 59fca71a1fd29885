/**
The leaf of one key and how a completed write is published into it: a plain put fills slot
0, a hot put fills two replica slots, a striped put fills one part a write.
*/
module Leaves {
  import opened Common

  const REPLICAS: nat := 2

  datatype Addr = Addr(dev: nat, page: nat, len: nat, ts: nat, expire: nat, crc: nat)
  datatype Part = Part(dev: nat, page: nat, len: nat)
  datatype Stripe = Stripe(parts: seq<Part>, total: nat)
  datatype Leaf = Leaf(ver: nat, addr: seq<Addr>, stripe: Option<Stripe>, shape: Option<seq<nat>>)

  /** A freshly zeroed address, an address slot marked unused, and a part not yet written. */
  const ZERO_ADDR: Addr := Addr(0, 0, 0, 0, 0, 0)
  const NO_ADDR: Addr := Addr(INVALID_DEV, 0, 0, 0, 0, 0)
  const NO_PART: Part := Part(INVALID_DEV, 0, 0)

  /** One finished chunk write: a whole chunk for a replica slot, or one part of a stripe. */
  datatype Write = Write(
    ver: nat, addr: Addr, slot: nat, striped: bool, idx: nat, cnt: nat, total: nat, shape: Option<seq<nat>>)

  function PartOf(a: Addr): Part {
    Part(a.dev, a.page, a.len)
  }

  predicate InPlace(was: Option<Leaf>, w: Write) {
    was.Some? && was.value.ver == w.ver && (w.striped ==> was.value.stripe.Some?)
  }

  predicate Stale(was: Option<Leaf>, w: Write) {
    was.Some? && was.value.ver > w.ver
  }

  predicate LeafOk(l: Leaf) {
    |l.addr| == REPLICAS
  }

  /** What the callers guarantee: a part index lies inside its stripe. */
  predicate Publishable(was: Option<Leaf>, w: Write) {
    && (was.Some? ==> LeafOk(was.value))
    && (w.striped ==> w.idx < w.cnt)
    && (w.striped && InPlace(was, w) ==> w.idx < |was.value.stripe.value.parts|)
  }

  function KeepShape(was: Option<seq<nat>>, shape: Option<seq<nat>>): Option<seq<nat>> {
    if was == None then shape else was
  }

  function FreshLeaf(w: Write): (l: Leaf)
    requires w.striped ==> w.idx < w.cnt
    ensures LeafOk(l)
  {
    if w.striped then
      Leaf(w.ver, [ZERO_ADDR.(crc := w.addr.crc), ZERO_ADDR],
           Some(Stripe(seq(w.cnt, _ => NO_PART)[w.idx := PartOf(w.addr)], w.total)), w.shape)
    else
      Leaf(w.ver, [NO_ADDR, NO_ADDR][if w.slot < REPLICAS then w.slot else 0 := w.addr], None, w.shape)
  }

  function Publish(was: Option<Leaf>, w: Write): (l: Leaf)
    requires Publishable(was, w)
    ensures LeafOk(l)
    ensures w.ver <= l.ver && (was.Some? ==> was.value.ver <= l.ver)
  {
    if Stale(was, w) then was.value
    else if InPlace(was, w) then
      var l := was.value;
      if w.striped then
        l.(stripe := Some(l.stripe.value.(parts := l.stripe.value.parts[w.idx := PartOf(w.addr)])),
           addr := l.addr[0 := l.addr[0].(crc := w.addr.crc)],
           shape := KeepShape(l.shape, w.shape))
      else if w.slot < REPLICAS then
        l.(addr := l.addr[w.slot := w.addr], shape := KeepShape(l.shape, w.shape))
      else l
    else FreshLeaf(w)
  }

  // ----- Completion order does not matter -----

  /** Writes of one version belong to one put: same kind, same shape, one write a slot or part. */
  predicate SamePut(v: Write, w: Write) {
    v.ver == w.ver ==>
      && v.striped == w.striped && v.shape == w.shape
      && (v.striped ==> v.cnt == w.cnt && v.total == w.total && v.addr.crc == w.addr.crc && (v.idx == w.idx ==> v == w))
      && (!v.striped ==> (v.slot == w.slot ==> v == w))
  }

  ghost predicate Coherent(ws: set<Write>) {
    && (forall w :: w in ws ==> (if w.striped then w.idx < w.cnt else w.slot < REPLICAS))
    && (forall v, w :: v in ws && w in ws ==> SamePut(v, w))
  }

  /** Publish the writes in the order in which they completed. */
  ghost function PublishAll(ws: seq<Write>): (l: Option<Leaf>)
    requires Coherent(set w | w in ws)
    ensures ws != [] ==> l.Some?
    ensures Describes(l, set w | w in ws)
  {
    if ws == [] then None
    else
      var init, w := ws[..|ws| - 1], ws[|ws| - 1];
      var done := set v | v in init;
      assert (set v | v in ws) == done + {w};
      PublishDescribes(PublishAll(init), done, w);
      Some(Publish(PublishAll(init), w))
  }

  /**
  The leaf says exactly what the newest version wrote: for each slot or part, the write of that
  version to it if there is one, and the unused mark otherwise.
  */
  ghost predicate Describes(l: Option<Leaf>, ws: set<Write>) {
    && (l == None <==> ws == {})
    && (l.Some? ==>
          && (exists w :: w in ws && w.ver == l.value.ver)
          && forall w :: w in ws ==> w.ver <= l.value.ver && (w.ver == l.value.ver ==> Agrees(l.value, w, ws)))
  }

  ghost predicate Agrees(l: Leaf, w: Write, ws: set<Write>) {
    && LeafOk(l)
    && l.shape == w.shape
    && (if w.striped then
          && l.stripe.Some? && |l.stripe.value.parts| == w.cnt && l.stripe.value.total == w.total
          && l.addr == [ZERO_ADDR.(crc := w.addr.crc), ZERO_ADDR]
          && forall i :: 0 <= i < w.cnt ==> PartAgrees(l, i, ws)
        else
          l.stripe == None && forall i :: 0 <= i < REPLICAS ==> SlotAgrees(l, i, ws))
  }

  ghost predicate PartAgrees(l: Leaf, i: nat, ws: set<Write>)
    requires l.stripe.Some? && i < |l.stripe.value.parts|
  {
    && (forall w :: w in ws && w.ver == l.ver && w.idx == i ==> l.stripe.value.parts[i] == PartOf(w.addr))
    && ((forall w :: w in ws && w.ver == l.ver ==> w.idx != i) ==> l.stripe.value.parts[i] == NO_PART)
  }

  ghost predicate SlotAgrees(l: Leaf, i: nat, ws: set<Write>)
    requires LeafOk(l) && i < REPLICAS
  {
    && (forall w :: w in ws && w.ver == l.ver && w.slot == i ==> l.addr[i] == w.addr)
    && ((forall w :: w in ws && w.ver == l.ver ==> w.slot != i) ==> l.addr[i] == NO_ADDR)
  }

  lemma PublishDescribes(l: Option<Leaf>, ws: set<Write>, w: Write)
    requires Describes(l, ws) && Coherent(ws + {w})
    ensures Publishable(l, w)
    ensures Describes(Some(Publish(l, w)), ws + {w})
  {
    if l.Some? {
      var v :| v in ws && v.ver == l.value.ver;
      assert Agrees(l.value, v, ws);
    }
    var l', ws' := Publish(l, w), ws + {w};
    if Stale(l, w) {
      StaleDescribes(l.value, ws, w);
    } else {
      forall v | v in ws'
        ensures v.ver <= l'.ver && (v.ver == l'.ver ==> Agrees(l', v, ws'))
      {
        assert SamePut(v, w) && SamePut(w, v);
        if v.ver == l'.ver {
          NewestAgrees(l, ws, w, v);
        }
      }
      assert w in ws';
    }
  }

  lemma StaleDescribes(l: Leaf, ws: set<Write>, w: Write)
    requires Describes(Some(l), ws) && w.ver < l.ver
    ensures Describes(Some(l), ws + {w})
  {
    var ws' := ws + {w};
    forall v | v in ws'
      ensures v.ver <= l.ver && (v.ver == l.ver ==> Agrees(l, v, ws'))
    {
      if v.ver == l.ver {
        assert Agrees(l, v, ws);
        if v.striped {
          forall i | 0 <= i < v.cnt
            ensures PartAgrees(l, i, ws')
          {
            assert PartAgrees(l, i, ws);
          }
        } else {
          forall i | 0 <= i < REPLICAS
            ensures SlotAgrees(l, i, ws')
          {
            assert SlotAgrees(l, i, ws);
          }
        }
      }
    }
  }

  /** The leaf before and the write belong to the same version. */
  lemma InPlaceFacts(l: Option<Leaf>, ws: set<Write>, w: Write)
    requires Describes(l, ws) && Coherent(ws + {w}) && l.Some? && l.value.ver == w.ver
    ensures Agrees(l.value, w, ws) && InPlace(l, w)
  {
    var u :| u in ws && u.ver == l.value.ver;
    assert SamePut(u, w) && Agrees(l.value, u, ws);
  }

  lemma NewestPart(l: Option<Leaf>, ws: set<Write>, w: Write, i: nat)
    requires Describes(l, ws) && Coherent(ws + {w}) && Publishable(l, w) && !Stale(l, w) && w.striped && i < w.cnt
    requires |Publish(l, w).stripe.value.parts| == w.cnt && Publish(l, w).stripe.Some?
    ensures PartAgrees(Publish(l, w), i, ws + {w})
  {
    var l', ws' := Publish(l, w), ws + {w};
    assert w in ws' && w.ver == l'.ver;
    forall x | x in ws'
      ensures SamePut(x, w)
    {}
    if l.Some? && l.value.ver == w.ver {
      InPlaceFacts(l, ws, w);
      assert PartAgrees(l.value, i, ws);
      assert forall x :: x in ws && x.ver == l'.ver ==> x in ws';
    }
  }

  lemma NewestSlot(l: Option<Leaf>, ws: set<Write>, w: Write, i: nat)
    requires Describes(l, ws) && Coherent(ws + {w}) && Publishable(l, w) && !Stale(l, w) && !w.striped && i < REPLICAS
    ensures SlotAgrees(Publish(l, w), i, ws + {w})
  {
    var l', ws' := Publish(l, w), ws + {w};
    assert w in ws' && w.ver == l'.ver;
    forall x | x in ws'
      ensures SamePut(x, w)
    {}
    if l.Some? && l.value.ver == w.ver {
      InPlaceFacts(l, ws, w);
      assert SlotAgrees(l.value, i, ws);
      assert forall x :: x in ws && x.ver == l'.ver ==> x in ws';
    }
  }

  lemma NewestAgrees(l: Option<Leaf>, ws: set<Write>, w: Write, v: Write)
    requires Describes(l, ws) && Coherent(ws + {w}) && Publishable(l, w) && !Stale(l, w)
    requires v in ws + {w} && v.ver == w.ver
    ensures Agrees(Publish(l, w), v, ws + {w})
  {
    var l', ws' := Publish(l, w), ws + {w};
    assert SamePut(v, w);
    if l.Some? && l.value.ver == w.ver {
      InPlaceFacts(l, ws, w);
    }
    hide PartAgrees, SlotAgrees, Coherent, Describes;
    if w.striped {
      forall i | 0 <= i < w.cnt
        ensures PartAgrees(l', i, ws')
      {
        NewestPart(l, ws, w, i);
      }
    } else {
      forall i | 0 <= i < REPLICAS
        ensures SlotAgrees(l', i, ws')
      {
        NewestSlot(l, ws, w, i);
      }
    }
  }

  lemma DescribedOnce(l: Option<Leaf>, m: Option<Leaf>, ws: set<Write>)
    requires Coherent(ws) && Describes(l, ws) && Describes(m, ws)
    ensures l == m
  {
    if l.Some? {
      var v :| v in ws && v.ver == l.value.ver;
      var w :| w in ws && w.ver == m.value.ver;
      assert Agrees(l.value, v, ws) && Agrees(m.value, v, ws);
      if v.striped {
        var p, q := l.value.stripe.value.parts, m.value.stripe.value.parts;
        forall i | 0 <= i < |p|
          ensures p[i] == q[i]
        {
          assert PartAgrees(l.value, i, ws) && PartAgrees(m.value, i, ws);
        }
        assert p == q;
      } else {
        forall i | 0 <= i < REPLICAS
          ensures l.value.addr[i] == m.value.addr[i]
        {
          assert SlotAgrees(l.value, i, ws) && SlotAgrees(m.value, i, ws);
        }
        assert l.value.addr == m.value.addr;
      }
    }
  }

  /**
  Publishing is confluent: two completion orders of the same writes of one key, with no drop
  in between, end in the same leaf.  The writes carry the times at which they completed; what
  different times change is below.
  */
  lemma PublishConfluent(ws: seq<Write>, vs: seq<Write>)
    requires (set w | w in ws) == (set w | w in vs)
    requires Coherent(set w | w in ws)
    ensures PublishAll(ws) == PublishAll(vs)
  {
    DescribedOnce(PublishAll(ws), PublishAll(vs), set w | w in ws);
  }

  // ----- Time stamps -----

  /** A write or a leaf without the times at which the writes completed. */
  function Unstamped(w: Write): Write {
    w.(addr := w.addr.(ts := 0))
  }

  function UnstampedLeaf(l: Option<Leaf>): Option<Leaf>
    requires l.Some? ==> LeafOk(l.value)
  {
    if l.None? then None else Some(l.value.(addr := [l.value.addr[0].(ts := 0), l.value.addr[1].(ts := 0)]))
  }

  function UnstampedAll(ws: seq<Write>): (us: seq<Write>)
    ensures |us| == |ws|
  {
    seq(|ws|, i requires 0 <= i < |ws| => Unstamped(ws[i]))
  }

  /** Publishing passes the times on and looks at none of them. */
  lemma PublishUnstamped(was: Option<Leaf>, w: Write)
    requires Publishable(was, w) && (if w.striped then w.idx < w.cnt else w.slot < REPLICAS)
    ensures Publishable(UnstampedLeaf(was), Unstamped(w))
    ensures UnstampedLeaf(Some(Publish(was, w))) == Some(Publish(UnstampedLeaf(was), Unstamped(w)))
  {
    var l, u := Publish(was, w), Publish(UnstampedLeaf(was), Unstamped(w));
    assert [l.addr[0].(ts := 0), l.addr[1].(ts := 0)] == u.addr;
  }

  lemma UnstampedCoherent(ws: seq<Write>)
    requires Coherent(set w | w in ws)
    ensures Coherent(set w | w in UnstampedAll(ws))
  {
    var us := UnstampedAll(ws);
    forall i | 0 <= i < |us|
      ensures us[i] == Unstamped(ws[i]) && ws[i] in (set w | w in ws)
    {}
    forall v, w | v in (set x | x in us) && w in (set x | x in us)
      ensures SamePut(v, w)
    {
      var i :| 0 <= i < |us| && us[i] == v;
      var j :| 0 <= j < |us| && us[j] == w;
      assert SamePut(ws[i], ws[j]);
    }
  }

  lemma PublishAllNext(ws: seq<Write>, w: Write)
    requires Coherent(set v | v in ws + [w])
    ensures Coherent(set v | v in ws) && Publishable(PublishAll(ws), w) && (if w.striped then w.idx < w.cnt else w.slot < REPLICAS)
    ensures PublishAll(ws + [w]) == Some(Publish(PublishAll(ws), w))
  {
    hide Describes, Agrees, Publish, SamePut;
    assert (ws + [w])[..|ws|] == ws;
    assert (set v | v in ws + [w]) == (set v | v in ws) + {w};
    assert w in (set v | v in ws + [w]);
    PublishDescribes(PublishAll(ws), (set v | v in ws), w);
  }

  lemma {:induction false} UnstampedPublishAll(ws: seq<Write>)
    requires Coherent(set w | w in ws) && Coherent(set w | w in UnstampedAll(ws))
    ensures PublishAll(ws).Some? ==> LeafOk(PublishAll(ws).value)
    ensures UnstampedLeaf(PublishAll(ws)) == PublishAll(UnstampedAll(ws))
  {
    if ws != [] {
      hide Coherent, Publish, PublishAll, Describes;
      var init, w := ws[..|ws| - 1], ws[|ws| - 1];
      assert ws == init + [w] && UnstampedAll(ws) == UnstampedAll(init) + [Unstamped(w)];
      PublishAllNext(init, w);
      PublishAllNext(UnstampedAll(init), Unstamped(w));
      UnstampedPublishAll(init);
      PublishUnstamped(PublishAll(init), w);
    }
  }

  /**
  Two completion orders of the same writes, each stamped when it completed, end in leaves that
  differ at most in those stamps.
  */
  lemma ConfluentUnstamped(ws: seq<Write>, vs: seq<Write>)
    requires Coherent(set w | w in ws) && Coherent(set w | w in vs)
    requires (set w | w in UnstampedAll(ws)) == (set w | w in UnstampedAll(vs))
    ensures PublishAll(ws).Some? ==> LeafOk(PublishAll(ws).value)
    ensures PublishAll(vs).Some? ==> LeafOk(PublishAll(vs).value)
    ensures UnstampedLeaf(PublishAll(ws)) == UnstampedLeaf(PublishAll(vs))
  {
    UnstampedCoherent(ws);
    UnstampedCoherent(vs);
    UnstampedPublishAll(ws);
    UnstampedPublishAll(vs);
    PublishConfluent(UnstampedAll(ws), UnstampedAll(vs));
  }
}
