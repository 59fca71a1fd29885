/**
A put and its parts: what each part publishes, and what the leaf of a node says about the put
after any history of publications and drops.
*/
module Puts {
  import opened Common
  import opened Fields
  import opened Leaves
  import opened Geometry
  import opened Regions
  import opened Batch
  import opened Chunks
  import opened NodeLife

  type Records = seq<seq<byte>>
  type Crc = seq<byte> -> nat

  datatype Kind = Plain | Hot | Striped(unit: nat)

  /** `slack` is what lies behind the stream of a striped put in the last page of its buffer. */
  datatype Put = Put(recs: Records, expire: nat, kind: Kind, slack: seq<byte>)

  /** Parts of a put: one, two replicas, or the slices of the stream. */
  function Count(put: Put): nat {
    match put.kind
    case Plain => 1
    case Hot => 2
    case Striped(unit) => if unit == 0 then 1 else PartCount(|Stream(put.recs)|, unit)
  }

  predicate PutOk(put: Put) {
    && |put.recs| <= MAX_LAYERS
    && (put.kind.Striped? ==>
          && Covered(|Stream(put.recs)|, put.kind.unit, Count(put))
          && |put.slack| == Slack(|Stream(put.recs)|))
  }

  /** The pages of part p. */
  function Chunk(put: Put, p: nat): seq<Page>
    requires PutOk(put) && p < Count(put)
  {
    var stream := Stream(put.recs);
    match put.kind
    case Striped(unit) => (SliceStart(|stream|, unit, Count(put), p); PagesOf(Slice(stream, unit, p)))
    case _ => PagesOf(stream)
  }

  /** The checksum of a put: of its whole pages, or of a stream with whatever lies behind it. */
  function Checksum(put: Put, crc: Crc): nat {
    if put.kind.Striped? then crc(Stream(put.recs) + put.slack) else crc(Flat(PagesOf(Stream(put.recs))))
  }

  /** What part p asks to publish; where it lies is not known yet. */
  function Asked(ver: nat, put: Put, crc: Crc, p: nat): Write {
    var addr := Addr(0, 0, 0, 0, put.expire, Checksum(put, crc));
    var shape := Some(Lens(put.recs));
    if put.kind.Striped? then Write(ver, addr, 0, true, p, Count(put), |Stream(put.recs)|, shape)
    else Write(ver, addr, p, false, 0, 0, 0, shape)
  }

  function PartRequest(n: nat, ver: nat, put: Put, crc: Crc, p: nat): Request
    requires PutOk(put) && p < Count(put)
  {
    Request(n, Asked(ver, put, crc, p), Chunk(put, p))
  }

  /** The extent of a leaf that part p fills. */
  function Place(put: Put, p: nat): nat {
    if put.kind.Striped? then 2 + p else p
  }

  // ----- Parts in a history -----

  /** The event is the publication of part p of the put. */
  predicate IsPart(e: Event, ver: nat, put: Put, crc: Crc, p: nat) {
    && PutOk(put) && p < Count(put) && e.Published? && e.pages == Chunk(put, p)
    && e.w == Asked(ver, put, crc, p).(addr := e.w.addr)
    && e.w.addr.dev != INVALID_DEV && e.w.addr.len == |e.pages|
    && e.w.addr.expire == put.expire && e.w.addr.crc == Checksum(put, crc)
  }

  ghost predicate SomePart(e: Event, ver: nat, put: Put, crc: Crc) {
    exists p: nat :: IsPart(e, ver, put, crc, p)
  }

  /** Whatever was published under the version belongs to the put. */
  ghost predicate Belongs(es: seq<Event>, ver: nat, put: Put, crc: Crc) {
    forall i :: 0 <= i < |es| && es[i].Published? && es[i].w.ver == ver ==> SomePart(es[i], ver, put, crc)
  }

  /** Part p has been published. */
  ghost predicate Present(es: seq<Event>, ver: nat, put: Put, crc: Crc, p: nat) {
    exists i :: 0 <= i < |es| && IsPart(es[i], ver, put, crc, p)
  }

  lemma PresentNext(es: seq<Event>, e: Event, ver: nat, put: Put, crc: Crc, p: nat)
    ensures Present(es + [e], ver, put, crc, p) <==> Present(es, ver, put, crc, p) || IsPart(e, ver, put, crc, p)
  {
    hide IsPart;
    if Present(es, ver, put, crc, p) {
      var i :| 0 <= i < |es| && IsPart(es[i], ver, put, crc, p);
      assert (es + [e])[i] == es[i];
    }
    assert (es + [e])[|es|] == e;
  }

  // ----- What the leaf says -----

  /** Slot or part p of the leaf is filled as the put asked. */
  ghost predicate Filled(l: Life, put: Put, crc: Crc, p: nat)
    requires PutOk(put) && p < Count(put)
  {
    && l.leaf.Some? && LeafOk(l.leaf.value)
    && Place(put, p) in l.pages && l.pages[Place(put, p)] == Chunk(put, p)
    && if put.kind.Striped? then
         && l.leaf.value.stripe.Some? && p < |l.leaf.value.stripe.value.parts|
         && l.leaf.value.stripe.value.parts[p].dev != INVALID_DEV && l.leaf.value.stripe.value.parts[p].len == |Chunk(put, p)|
       else
         && var a := l.leaf.value.addr[p];
         && a.dev != INVALID_DEV && a.len == |Chunk(put, p)| && a.expire == put.expire && a.crc == Checksum(put, crc)
  }

  /** Slot or part p of the leaf is marked as not written. */
  ghost predicate Unused(l: Life, put: Put, p: nat) {
    && l.leaf.Some? && LeafOk(l.leaf.value)
    && if put.kind.Striped? then
         l.leaf.value.stripe.Some? && p < |l.leaf.value.stripe.value.parts| && l.leaf.value.stripe.value.parts[p] == NO_PART
       else p < REPLICAS && l.leaf.value.addr[p] == NO_ADDR
  }

  /** Slots a leaf of the put has. */
  function Slots(put: Put): nat {
    if put.kind.Striped? then Count(put) else REPLICAS
  }

  /** What a leaf of the put has in common whichever parts are there. */
  ghost predicate Outline(l: Leaf, put: Put, crc: Crc) {
    && LeafOk(l) && l.shape == Some(Lens(put.recs))
    && if put.kind.Striped? then
         && l.addr == [ZERO_ADDR.(crc := Checksum(put, crc)), ZERO_ADDR]
         && l.stripe.Some? && |l.stripe.value.parts| == Count(put) && l.stripe.value.total == |Stream(put.recs)|
       else l.stripe == None
  }

  /** The leaf has exactly the parts that were published. */
  ghost predicate Composed(l: Life, es: seq<Event>, ver: nat, put: Put, crc: Crc)
    requires PutOk(put)
  {
    && l.leaf.Some? && Outline(l.leaf.value, put, crc)
    && (exists p: nat :: Present(es, ver, put, crc, p))
    && (forall p: nat :: p < Slots(put) && !Present(es, ver, put, crc, p) ==> Unused(l, put, p))
    && (forall p: nat :: p < Count(put) && Present(es, ver, put, crc, p) ==> Filled(l, put, crc, p))
  }

  /** The invariant of a history without drops. */
  ghost predicate Follows(l: Life, es: seq<Event>, ver: nat, put: Put, crc: Crc)
    requires PutOk(put)
  {
    && (l.leaf.Some? ==> LeafOk(l.leaf.value))
    && (l.leaf.None? || l.leaf.value.ver < ver ==> forall p: nat :: !Present(es, ver, put, crc, p))
    && (l.leaf.Some? && l.leaf.value.ver == ver ==> Composed(l, es, ver, put, crc))
  }

  /** A publication of another version. */
  lemma FollowsOther(l: Life, es: seq<Event>, e: Event, ver: nat, put: Put, crc: Crc)
    requires PutOk(put) && Follows(l, es, ver, put, crc) && e.Published? && e.w.ver != ver
    ensures Follows(Step(l, e), es + [e], ver, put, crc)
  {
    hide Filled, Unused, Outline, Chunk, Checksum, Count, PutOk;
    forall p: nat
      ensures Present(es + [e], ver, put, crc, p) == Present(es, ver, put, crc, p)
    {
      PresentNext(es, e, ver, put, crc, p);
    }
    hide Present, IsPart;
    if l.leaf.Some? && l.leaf.value.ver == ver && e.w.ver < ver {
      assert Step(l, e) == l;
    }
  }

  /** The first publication of the version. */
  lemma FollowsFirst(l: Life, es: seq<Event>, e: Event, ver: nat, put: Put, crc: Crc, p: nat)
    requires PutOk(put) && Follows(l, es, ver, put, crc) && IsPart(e, ver, put, crc, p)
    requires l.leaf.None? || l.leaf.value.ver < ver
    ensures Follows(Step(l, e), es + [e], ver, put, crc)
  {
    hide Chunk, Checksum, PartCount, PutOk, Stream;
    var l' := Step(l, e);
    forall q: nat
      ensures Present(es + [e], ver, put, crc, q) <==> IsPart(e, ver, put, crc, q)
    {
      PresentNext(es, e, ver, put, crc, q);
    }
    assert Present(es + [e], ver, put, crc, p);
    hide Present;
    assert l'.leaf == Some(FreshLeaf(e.w));
    assert l'.pages == map[Place(put, p) := e.pages];
    forall q: nat | IsPart(e, ver, put, crc, q)
      ensures q == p && Filled(l', put, crc, q)
    {
    }
  }

  /** A further publication of the version. */
  lemma FollowsPart(l: Life, es: seq<Event>, e: Event, ver: nat, put: Put, crc: Crc, p: nat)
    requires PutOk(put) && IsPart(e, ver, put, crc, p) && Composed(l, es, ver, put, crc) && l.leaf.value.ver == ver
    ensures Follows(Step(l, e), es + [e], ver, put, crc)
  {
    hide Chunk, Checksum, PartCount, PutOk, Stream;
    var l' := Step(l, e);
    forall q: nat
      ensures Present(es + [e], ver, put, crc, q) <==> Present(es, ver, put, crc, q) || q == p
    {
      PresentNext(es, e, ver, put, crc, q);
      assert IsPart(e, ver, put, crc, q) ==> q == p;
    }
    hide Present;
    assert Publishable(l.leaf, e.w) && InPlace(l.leaf, e.w);
    assert l'.leaf == Some(Publish(l.leaf, e.w)) && l'.pages == l.pages[Place(put, p) := e.pages];
    assert Outline(l'.leaf.value, put, crc);
    forall q: nat | q < Slots(put) && q != p && !Present(es, ver, put, crc, q)
      ensures Unused(l', put, q)
    {
      assert Unused(l, put, q);
    }
    forall q: nat | q < Count(put) && (q == p || Present(es, ver, put, crc, q))
      ensures Filled(l', put, crc, q)
    {
      assert q == p || Filled(l, put, crc, q);
    }
  }

  lemma {:induction false} LiveFollows(es: seq<Event>, ver: nat, put: Put, crc: Crc)
    requires PutOk(put) && Belongs(es, ver, put, crc) && forall i :: 0 <= i < |es| ==> es[i].Published?
    ensures Follows(Live(es), es, ver, put, crc)
  {
    if es != [] {
      hide Step, IsPart, Composed, PutOk;
      var init, e := es[..|es| - 1], es[|es| - 1];
      LiveFollows(init, ver, put, crc);
      assert es == init + [e];
      var l := Live(init);
      if e.w.ver != ver {
        FollowsOther(l, init, e, ver, put, crc);
      } else {
        assert SomePart(e, ver, put, crc);
        var p: nat :| IsPart(e, ver, put, crc, p);
        if l.leaf.None? || l.leaf.value.ver < ver {
          FollowsFirst(l, init, e, ver, put, crc, p);
        } else if l.leaf.value.ver == ver {
          FollowsPart(l, init, e, ver, put, crc, p);
        } else {
          FollowsStale(l, init, e, ver, put, crc);
        }
      }
    }
  }

  lemma FollowsStale(l: Life, es: seq<Event>, e: Event, ver: nat, put: Put, crc: Crc)
    requires PutOk(put) && Follows(l, es, ver, put, crc) && e.Published? && e.w.ver == ver
    requires l.leaf.Some? && l.leaf.value.ver > ver
    ensures Follows(Step(l, e), es + [e], ver, put, crc)
  {}

  /**
  Whatever else was published or dropped at the node: a leaf of the put's version has exactly
  the parts that were published since the leaf was last dropped, and every other slot is marked
  as not written.
  */
  lemma LeafOfPut(es: seq<Event>, ver: nat, put: Put, crc: Crc)
    requires PutOk(put) && Belongs(es, ver, put, crc)
    requires Live(es).leaf.Some? && Live(es).leaf.value.ver == ver
    ensures Composed(Live(es), Since(es), ver, put, crc)
  {
    hide Composed, PutOk, Step, SomePart, Live, Since;
    var tail := Since(es);
    LiveSince(es);
    var init := SinceTail(es);
    forall i | 0 <= i < |tail| && tail[i].Published? && tail[i].w.ver == ver
      ensures SomePart(tail[i], ver, put, crc)
    {
      assert tail[i] == es[|init| + i];
    }
    LiveFollows(tail, ver, put, crc);
  }

  // ----- Every history of a store -----

  /** What is put under each version; no two puts have the same. */
  type Script = nat -> Put

  /** Everything published at a node is a part of the put of its version. */
  ghost predicate Keeps(es: seq<Event>, script: Script, crc: Crc) {
    forall i :: 0 <= i < |es| && es[i].Published? ==> SomePart(es[i], es[i].w.ver, script(es[i].w.ver), crc)
  }

  ghost predicate Scripted(life: seq<seq<Event>>, script: Script, crc: Crc) {
    forall n: nat :: n < |life| ==> Keeps(life[n], script, crc)
  }

  /** The batch consists of parts of the script, no part twice. */
  ghost predicate FromScript(reqs: seq<Request>, script: Script, crc: Crc) {
    && (forall i :: 0 <= i < |reqs| ==> IsRequest(reqs[i], script, crc))
    && forall i, j :: 0 <= i < j < |reqs| && reqs[i].node == reqs[j].node && reqs[i].write.ver == reqs[j].write.ver ==>
         Position(reqs[i].write) != Position(reqs[j].write)
  }

  ghost predicate IsRequest(req: Request, script: Script, crc: Crc) {
    var put := script(req.write.ver);
    PutOk(put) && exists p: nat :: p < Count(put) && req == PartRequest(req.node, req.write.ver, put, crc, p)
  }

  /** A batch of the script suits whatever leaves the script has led to. */
  lemma ScriptSuits(nodes: Nodes, payload: Payload, life: seq<seq<Event>>, reqs: seq<Request>, script: Script, crc: Crc)
    requires Told(nodes, payload, life) && Scripted(life, script, crc) && FromScript(reqs, script, crc)
    requires forall i :: 0 <= i < |reqs| ==> reqs[i].node < |nodes|
    ensures BatchOk(nodes, reqs)
  {
    hide IsRequest, Told, Suits, Consistent;
    forall i | 0 <= i < |reqs|
      ensures Suits(nodes, reqs[i])
    {
      RequestSuits(nodes, payload, life, reqs[i], script, crc);
    }
    forall i, j | 0 <= i < j < |reqs|
      ensures Consistent(reqs[i], reqs[j])
    {
      RequestsConsistent(reqs[i], reqs[j], script, crc);
    }
  }

  lemma RequestsConsistent(a: Request, b: Request, script: Script, crc: Crc)
    requires IsRequest(a, script, crc) && IsRequest(b, script, crc)
    requires a.node == b.node && a.write.ver == b.write.ver ==> Position(a.write) != Position(b.write)
    ensures Consistent(a, b)
  {
    hide Chunk, Checksum, Stream, PutOk, PartCount;
  }

  lemma RequestSuits(nodes: Nodes, payload: Payload, life: seq<seq<Event>>, req: Request, script: Script, crc: Crc)
    requires Told(nodes, payload, life) && Scripted(life, script, crc) && IsRequest(req, script, crc) && req.node < |nodes|
    ensures Suits(nodes, req)
  {
    hide Chunk, Checksum, Stream, PutOk, PartCount, SomePart, Live, Since, Present;
    var n, ver := req.node, req.write.ver;
    var put := script(ver);
    if InPlace(nodes[n], req.write) {
      assert Keeps(life[n], script, crc);
      LeafOfPut(life[n], ver, put, crc);
    }
  }

  /** An event that publishes a request of the script is a part of it. */
  lemma PlacedPart(reqs: seq<Request>, i: nat, d: nat, start: nat, now: nat, script: Script, crc: Crc)
    requires i < |reqs| && IsRequest(reqs[i], script, crc) && d != INVALID_DEV
    ensures SomePart(Published(Placed(reqs, i, d, start, now), reqs[i].pages), reqs[i].write.ver,
                     script(reqs[i].write.ver), crc)
  {
    hide Chunk, Checksum, Stream, PutOk, PartCount, Offset;
    var put := script(reqs[i].write.ver);
    var p: nat :| p < Count(put) && reqs[i] == PartRequest(reqs[i].node, reqs[i].write.ver, put, crc, p);
    assert IsPart(Published(Placed(reqs, i, d, start, now), reqs[i].pages), reqs[i].write.ver, put, crc, p);
  }

  lemma EventsScripted(reqs: seq<Request>, m: nat, d: nat, start: nat, now: nat, script: Script, crc: Crc)
    requires FromScript(reqs, script, crc) && d != INVALID_DEV
    ensures Keeps(BatchEvents(reqs, m, |reqs|, d, start, now), script, crc)
  {
    hide IsRequest, SomePart, BatchEvents;
    var es := BatchEvents(reqs, m, |reqs|, d, start, now);
    forall i | 0 <= i < |es| && es[i].Published?
      ensures SomePart(es[i], es[i].w.ver, script(es[i].w.ver), crc)
    {
      BatchEventsExact(reqs, m, |reqs|, d, start, now, es[i]);
      var j :| 0 <= j < |reqs| && reqs[j].node == m && es[i] == Published(Placed(reqs, j, d, start, now), reqs[j].pages);
      PlacedPart(reqs, j, d, start, now, script, crc);
    }
  }

  /** After a batch of the script the history is still one of the script. */
  lemma ScriptedBatch(nodes: Nodes, life: seq<seq<Event>>, life': seq<seq<Event>>, reqs: seq<Request>, d: nat, start: nat, now: nat,
                      script: Script, crc: Crc)
    requires Scripted(life, script, crc) && FromScript(reqs, script, crc) && d != INVALID_DEV && |nodes| == |life'| == |life|
    requires forall m: nat :: m < |life| ==> AfterBatch(nodes[m], life[m], life'[m], BatchEvents(reqs, m, |reqs|, d, start, now))
    ensures Scripted(life', script, crc)
  {
    hide SomePart, FromScript, BatchEvents;
    forall m: nat | m < |life|
      ensures Keeps(life'[m], script, crc)
    {
      EventsScripted(reqs, m, d, start, now, script, crc);
      assert Keeps(life[m], script, crc);
    }
  }

  /** Drops do not disturb it either. */
  lemma ScriptedDrops(nodes: Nodes, life: seq<seq<Event>>, nodes': Nodes, life': seq<seq<Event>>, script: Script, crc: Crc)
    requires Scripted(life, script, crc) && |nodes| == |nodes'| == |life'| == |life|
    requires forall m: nat :: m < |life| ==> SparedOrDropped(nodes[m], life[m], nodes'[m], life'[m])
    ensures Scripted(life', script, crc)
  {
    hide SomePart;
    forall m: nat | m < |life|
      ensures Keeps(life'[m], script, crc)
    {
      assert Keeps(life[m], script, crc);
    }
  }

  /** Some event has this version, and none a newer one. */
  ghost predicate Newest(es: seq<Event>, ver: nat) {
    && (exists i :: 0 <= i < |es| && es[i].Published? && es[i].w.ver == ver)
    && forall i :: 0 <= i < |es| && es[i].Published? ==> es[i].w.ver <= ver
  }

  /** The leaf is there exactly if something was published since the last drop, and has the newest version of that. */
  lemma {:induction false} NewestWins(es: seq<Event>, script: Script, crc: Crc)
    requires Keeps(es, script, crc) && forall i :: 0 <= i < |es| ==> es[i].Published?
    ensures Live(es).leaf.Some? <==> es != []
    ensures es != [] ==> Newest(es, Live(es).leaf.value.ver)
  {
    if es != [] {
      hide SomePart, Publish, Live, Step, Newest;
      var init, e := es[..|es| - 1], es[|es| - 1];
      assert es == init + [e];
      NewestWins(init, script, crc);
      StepTakes(init, e, script, crc);
      LiveNext(init, e);
      NewestNext(init, e, Live(init).leaf);
    } else {
      assert Live(es) == UNBORN;
    }
  }

  lemma NewestNext(es: seq<Event>, e: Event, l: Option<Leaf>)
    requires e.Published? && (l.Some? <==> es != []) && (l.Some? ==> Newest(es, l.value.ver))
    ensures Newest(es + [e], if l.Some? && l.value.ver > e.w.ver then l.value.ver else e.w.ver)
  {
    assert (es + [e])[|es|] == e;
    if l.Some? && l.value.ver > e.w.ver {
      var i :| 0 <= i < |es| && es[i].Published? && es[i].w.ver == l.value.ver;
      assert (es + [e])[i] == es[i];
    }
  }

  lemma StepTakes(es: seq<Event>, e: Event, script: Script, crc: Crc)
    requires Keeps(es + [e], script, crc) && e.Published? && forall i :: 0 <= i < |es| ==> es[i].Published?
    ensures var l := Live(es).leaf;
            var l' := Step(Live(es), e).leaf;
            l'.Some? && l'.value.ver == if l.Some? && l.value.ver > e.w.ver then l.value.ver else e.w.ver
  {
    hide Chunk, Checksum, Stream, PutOk, PartCount, Live, Present, Filled, Unused;
    var ver, put := e.w.ver, script(e.w.ver);
    assert (es + [e])[|es|] == e;
    assert SomePart(e, ver, put, crc);
    forall i | 0 <= i < |es| && es[i].Published? && es[i].w.ver == ver
      ensures SomePart(es[i], ver, put, crc)
    {
      assert (es + [e])[i] == es[i];
    }
    LiveFollows(es, ver, put, crc);
  }

  // ----- When all of a put is there -----

  /** What a get needs: every part of a stripe, or the first replica. */
  ghost predicate Whole(es: seq<Event>, ver: nat, put: Put, crc: Crc) {
    if put.kind.Striped? then forall p: nat :: p < Count(put) ==> Present(es, ver, put, crc, p)
    else Present(es, ver, put, crc, 0)
  }

  /** A part stays present until the leaf is dropped. */
  lemma PresentStays(es: seq<Event>, more: seq<Event>, ver: nat, put: Put, crc: Crc, p: nat)
    requires Present(Since(es), ver, put, crc, p) && forall i :: 0 <= i < |more| ==> more[i].Published?
    ensures Present(Since(es + more), ver, put, crc, p)
  {
    hide IsPart, Since;
    SinceMore(es, more);
    var i :| 0 <= i < |Since(es)| && IsPart(Since(es)[i], ver, put, crc, p);
    assert (Since(es) + more)[i] == Since(es)[i];
  }

  lemma {:induction false} SinceMore(es: seq<Event>, more: seq<Event>)
    requires forall i :: 0 <= i < |more| ==> more[i].Published?
    ensures Since(es + more) == Since(es) + more
  {
    hide Since;
    if more == [] {
      assert es + more == es;
      assert Since(es) + [] == Since(es);
    } else {
      var k := |more| - 1;
      SinceMore(es, more[..k]);
      assert es + more == (es + more[..k]) + [more[k]];
      SinceNext(es + more[..k], more[k]);
      assert Since(es) + more == (Since(es) + more[..k]) + [more[k]];
    }
  }

  /**
  A drop between the parts: a stripe all of whose parts were published, and of which the leaf
  still has the version, is whole exactly if every part was published behind the drop.
  */
  lemma DropSplits(a: seq<Event>, b: seq<Event>, ver: nat, put: Put, crc: Crc)
    requires PutOk(put) && put.kind.Striped? && Belongs(a + [Dropped] + b, ver, put, crc) && forall i :: 0 <= i < |b| ==> b[i].Published?
    requires var l := Live(a + [Dropped] + b).leaf; l.Some? && l.value.ver == ver
    ensures Whole(Since(a + [Dropped] + b), ver, put, crc) <==> forall p: nat :: p < Count(put) ==> Present(b, ver, put, crc, p)
    ensures forall p: nat :: p < Count(put) && !Present(b, ver, put, crc, p) ==>
              var l := Live(a + [Dropped] + b);
              l.leaf.Some? && l.leaf.value.stripe.Some? && p < |l.leaf.value.stripe.value.parts| && l.leaf.value.stripe.value.parts[p] == NO_PART
  {
    hide Present, Belongs, Live, Stream, Chunk, Checksum, PutOk, PartCount;
    SinceMore(a + [Dropped], b);
    assert Since(a + [Dropped]) == [];
    assert [] + b == b;
    LeafOfPut(a + [Dropped] + b, ver, put, crc);
    forall p: nat | p < Count(put) && !Present(b, ver, put, crc, p)
      ensures Unused(Live(a + [Dropped] + b), put, p)
    {
    }
  }

  // ----- Expiry -----

  /** A get may serve the leaf at this time. */
  predicate Fresh(l: Leaf, now: nat)
    requires LeafOk(l)
  {
    l.ver != 0 && (l.addr[0].expire == 0 || now <= l.addr[0].expire)
  }

  /**
  The expiry of a put counts exactly if it is not striped and its first replica is there: a
  striped leaf, and one with the second replica only, never expire.
  */
  lemma Expires(es: seq<Event>, ver: nat, put: Put, crc: Crc, now: nat)
    requires PutOk(put) && Belongs(es, ver, put, crc) && Live(es).leaf.Some? && Live(es).leaf.value.ver == ver != 0
    ensures LeafOk(Live(es).leaf.value)
    ensures Fresh(Live(es).leaf.value, now) <==>
            put.kind.Striped? || !Present(Since(es), ver, put, crc, 0) || put.expire == 0 || now <= put.expire
  {
    hide Present, Live, Stream, Chunk, Checksum, PutOk, PartCount, Belongs, Since;
    LeafOfPut(es, ver, put, crc);
    var l := Live(es);
    if put.kind.Striped? {
      assert l.leaf.value.addr[0] == ZERO_ADDR.(crc := Checksum(put, crc));
    } else if Present(Since(es), ver, put, crc, 0) {
      assert Filled(l, put, crc, 0);
    } else {
      assert Unused(l, put, 0);
    }
  }

  /** The device of the first address is a device exactly if the first replica is there. */
  lemma FirstReplica(es: seq<Event>, ver: nat, put: Put, crc: Crc)
    requires PutOk(put) && !put.kind.Striped? && Belongs(es, ver, put, crc)
    requires Live(es).leaf.Some? && Live(es).leaf.value.ver == ver
    ensures LeafOk(Live(es).leaf.value)
    ensures Live(es).leaf.value.addr[0].dev != INVALID_DEV <==> Present(Since(es), ver, put, crc, 0)
    ensures put.kind.Plain? ==> Present(Since(es), ver, put, crc, 0)
  {
    hide Present, Live, Stream, Chunk, Checksum, PutOk, PartCount, Belongs, Since;
    LeafOfPut(es, ver, put, crc);
    if put.kind.Plain? {
      var p: nat :| Present(Since(es), ver, put, crc, p);
      PresentCounted(Since(es), ver, put, crc, p);
    }
  }

  lemma PresentCounted(es: seq<Event>, ver: nat, put: Put, crc: Crc, p: nat)
    requires Present(es, ver, put, crc, p)
    ensures p < Count(put)
  {}
}
