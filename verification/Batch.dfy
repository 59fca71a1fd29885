/** A batch of put requests: how it is laid out in pages and what publishing it achieves. */
module Batch {
  import opened Common
  import opened Leaves
  import opened Geometry
  import opened Regions

  /** A put request taken from the ring: its node, what it publishes, and its padded pages. */
  datatype Request = Request(node: nat, write: Write, pages: seq<Page>)

  /** First page of request i, counted from the start of the batch. */
  function Offset(reqs: seq<Request>, i: nat): nat
    requires i <= |reqs|
  {
    if i == 0 then 0 else Offset(reqs, i - 1) + |reqs[i - 1].pages|
  }

  /** The pages of the first i requests, back to back. */
  function Buffer(reqs: seq<Request>, i: nat): (buf: seq<Page>)
    requires i <= |reqs|
    ensures |buf| == Offset(reqs, i)
  {
    if i == 0 then [] else Buffer(reqs, i - 1) + reqs[i - 1].pages
  }

  lemma {:induction false} OffsetMonotone(reqs: seq<Request>, i: nat, j: nat)
    requires i < j <= |reqs|
    ensures Offset(reqs, i) + |reqs[i].pages| <= Offset(reqs, j)
  {
    if i < j - 1 {
      OffsetMonotone(reqs, i, j - 1);
    }
  }

  lemma {:induction false} BufferSlice(reqs: seq<Request>, i: nat, j: nat, k: nat)
    requires i < j <= |reqs| && k < |reqs[i].pages|
    ensures Offset(reqs, i) + k < |Buffer(reqs, j)|
    ensures Buffer(reqs, j)[Offset(reqs, i) + k] == reqs[i].pages[k]
  {
    OffsetMonotone(reqs, i, j);
    if i < j - 1 {
      BufferSlice(reqs, i, j - 1, k);
    }
  }

  /** What request i publishes once the batch lies at page `start` of device d. */
  function Placed(reqs: seq<Request>, i: nat, d: nat, start: nat, now: nat): Write
    requires i < |reqs|
  {
    var w := reqs[i].write;
    w.(addr := Addr(d, start + Offset(reqs, i), |reqs[i].pages|, now, w.addr.expire, w.addr.crc))
  }

  /** The request suits the leaf it finds: a stripe keeps its number of parts. */
  predicate Suits(nodes: Nodes, req: Request) {
    && req.node < |nodes|
    && (if req.write.striped then req.write.idx < req.write.cnt else req.write.slot < REPLICAS)
    && (InPlace(nodes[req.node], req.write) ==> Fits(nodes[req.node].value, req.write))
  }

  /** The leaf is of the put the write belongs to. */
  predicate Fits(l: Leaf, w: Write) {
    && (l.shape == None || l.shape == w.shape)
    && (if w.striped then l.stripe.Some? && |l.stripe.value.parts| == w.cnt && l.stripe.value.total == w.total
        else l.stripe == None)
  }

  /** The leaf has the address, the checksum, the length and the shape that the write brought. */
  predicate Notes(l: Leaf, w: Write) {
    && LeafOk(l) && l.shape == w.shape
    && (if w.striped then
          l.stripe.Some? && |l.stripe.value.parts| == w.cnt && l.stripe.value.total == w.total && l.addr[0].crc == w.addr.crc
        else w.slot < REPLICAS && l.stripe == None && l.addr[w.slot] == w.addr)
  }

  /** Requests of one put are of one kind and fill different slots. */
  predicate Consistent(v: Request, w: Request) {
    v.node == w.node && v.write.ver == w.write.ver ==>
      && v.write.striped == w.write.striped && v.write.shape == w.write.shape
      && (v.write.striped ==> v.write.cnt == w.write.cnt && v.write.total == w.write.total && v.write.addr.crc == w.write.addr.crc)
      && Position(v.write) != Position(w.write)
  }

  ghost predicate BatchOk(nodes: Nodes, reqs: seq<Request>) {
    && (forall i :: 0 <= i < |reqs| ==> Suits(nodes, reqs[i]))
    && (forall i, j :: 0 <= i < j < |reqs| ==> Consistent(reqs[i], reqs[j]))
  }

  /** Dropping leaves does not spoil a batch. */
  lemma BatchSurvives(nodes: Nodes, nodes': Nodes, reqs: seq<Request>)
    requires BatchOk(nodes, reqs) && |nodes'| == |nodes|
    requires forall n :: 0 <= n < |nodes| ==> nodes'[n] == nodes[n] || nodes'[n] == None
    ensures BatchOk(nodes', reqs)
  {
    forall i | 0 <= i < |reqs|
      ensures Suits(nodes', reqs[i])
    {
      assert Suits(nodes, reqs[i]);
    }
  }

  /** The request is in the index with its pages, or a newer version is. */
  ghost predicate Landed(nodes: Nodes, payload: Payload, req: Request, w: Write) {
    && req.node < |nodes| && nodes[req.node].Some?
    && w.ver <= nodes[req.node].value.ver
    && (w.ver == nodes[req.node].value.ver ==>
          && Notes(nodes[req.node].value, w)
          && Slot(nodes, req.node, Position(w)) && At(nodes, req.node, Position(w)) == PartOf(w.addr)
          && (req.node, Position(w)) in payload && payload[(req.node, Position(w))] == req.pages)
  }

  /** No request of the batch is for node m. */
  predicate Foreign(reqs: seq<Request>, m: nat) {
    forall i :: 0 <= i < |reqs| ==> reqs[i].node != m
  }

  /** The history of node m is the same. */
  ghost predicate SamePages(before: Payload, after: Payload, m: nat) {
    forall a: nat :: ((m, a) in before <==> (m, a) in after) && ((m, a) in before ==> before[(m, a)] == after[(m, a)])
  }

  lemma SameSelf(p: Payload)
    ensures forall m: nat :: SamePages(p, p, m)
  {}

  lemma SameStep(before: Payload, after: Payload, n: nat, a: nat, pages: seq<Page>)
    ensures forall m: nat :: m != n && SamePages(before, after, m) ==> SamePages(before, after[(n, a) := pages], m)
  {}

  /** Publishing request i does not disturb another request of the batch. */
  lemma PublishOther(nodes: Nodes, payload: Payload, req: Request, w: Write, other: Request, v: Write)
    requires NodesOk(nodes) && Suits(nodes, req) && w == req.write.(addr := w.addr)
    requires Consistent(other, req) || Consistent(req, other)
    requires v == other.write.(addr := v.addr) && v.addr.crc == other.write.addr.crc && w.addr.crc == req.write.addr.crc
    requires Publishable(nodes[req.node], w)
    ensures var nodes' := nodes[req.node := Some(Publish(nodes[req.node], w))];
            var payload' := if Stale(nodes[req.node], w) then payload else payload[(req.node, Position(w)) := req.pages];
            && (Landed(nodes, payload, other, v) ==> Landed(nodes', payload', other, v))
            && (Suits(nodes, other) ==> Suits(nodes', other))
  {
    var was := nodes[req.node];
    if !Stale(was, w) && InPlace(was, w) {
      PublishExtents(was, w, 0);
    }
  }

  lemma PublishThis(nodes: Nodes, payload: Payload, req: Request, w: Write)
    requires NodesOk(nodes) && Suits(nodes, req) && w == req.write.(addr := w.addr)
    requires Publishable(nodes[req.node], w)
    ensures Landed(nodes[req.node := Some(Publish(nodes[req.node], w))],
                   if Stale(nodes[req.node], w) then payload else payload[(req.node, Position(w)) := req.pages], req, w)
  {
    if !Stale(nodes[req.node], w) {
      PublishExtents(nodes[req.node], w, 0);
    }
  }

  lemma PlacedOk(nodes: Nodes, reqs: seq<Request>, i: nat, d: nat, start: nat, now: nat)
    requires NodesOk(nodes) && i < |reqs| && Suits(nodes, reqs[i])
    ensures Publishable(nodes[reqs[i].node], Placed(reqs, i, d, start, now)) && WriteOk(Placed(reqs, i, d, start, now))
  {}

  /** What publishing request i does to the other requests of its batch. */
  lemma BatchStep(nodes: Nodes, payload: Payload, reqs: seq<Request>, i: nat, j: nat,
                  d: nat, start: nat, now: nat)
    requires NodesOk(nodes) && i < |reqs| && j < |reqs| && i != j && Suits(nodes, reqs[i])
    requires forall k, l :: 0 <= k < l < |reqs| ==> Consistent(reqs[k], reqs[l])
    requires i < j ==> Apart(nodes, PartOf(Placed(reqs, j, d, start, now).addr))
    ensures var w := Placed(reqs, i, d, start, now);
            && Publishable(nodes[reqs[i].node], w)
            && var nodes' := nodes[reqs[i].node := Some(Publish(nodes[reqs[i].node], w))];
            && var payload' := if Stale(nodes[reqs[i].node], w) then payload
                               else payload[(reqs[i].node, Position(w)) := reqs[i].pages];
            && (Landed(nodes, payload, reqs[j], Placed(reqs, j, d, start, now)) ==>
                  Landed(nodes', payload', reqs[j], Placed(reqs, j, d, start, now)))
            && (Suits(nodes, reqs[j]) ==> Suits(nodes', reqs[j]))
            && (i < j ==> Apart(nodes', PartOf(Placed(reqs, j, d, start, now).addr)))
  {
    var w := Placed(reqs, i, d, start, now);
    PublishOther(nodes, payload, reqs[i], w, reqs[j], Placed(reqs, j, d, start, now));
    if i < j {
      OffsetMonotone(reqs, i, j);
      if Stale(nodes[reqs[i].node], w) {
        assert nodes == nodes[reqs[i].node := Some(Publish(nodes[reqs[i].node], w))];
      } else {
        PublishApart(nodes, reqs[i].node, w, PartOf(Placed(reqs, j, d, start, now).addr));
      }
    }
  }

  /** The requests from i on are on the device at pages that are theirs alone, and fit their leaves. */
  ghost predicate Awaited(t: Table, nodes: Nodes, disk: Disk, reqs: seq<Request>, i: nat, d: nat, start: nat, now: nat) {
    && t.Ok()
    && forall j :: i <= j < |reqs| ==>
         && var p := PartOf(Placed(reqs, j, d, start, now).addr);
         && Suits(nodes, reqs[j]) && t.Settled(p) && Apart(nodes, p) && Stored(disk, p, reqs[j].pages)
  }

  /** The first i requests have landed. */
  ghost predicate AllLanded(nodes: Nodes, payload: Payload, reqs: seq<Request>, i: nat, d: nat, start: nat, now: nat) {
    forall j :: 0 <= j < i <= |reqs| ==> Landed(nodes, payload, reqs[j], Placed(reqs, j, d, start, now))
  }

  /** Nodes that no request is for are as they were. */
  ghost predicate Untouched(nodes0: Nodes, payload0: Payload, nodes: Nodes, payload: Payload, reqs: seq<Request>) {
    && |nodes| == |nodes0|
    && forall m: nat :: m < |nodes| && Foreign(reqs, m) ==> nodes[m] == nodes0[m] && SamePages(payload0, payload, m)
  }

  lemma BatchStart(nodes: Nodes, payload: Payload, reqs: seq<Request>, d: nat, start: nat, now: nat)
    ensures AllLanded(nodes, payload, reqs, 0, d, start, now) && Untouched(nodes, payload, nodes, payload, reqs)
  {}

  /** Publishing request i: what it needs is there, it lands, and the other requests are not disturbed. */
  lemma AwaitedNext(t: Table, nodes: Nodes, payload: Payload, disk: Disk, reqs: seq<Request>, i: nat, d: nat, start: nat, now: nat)
    requires NodesOk(nodes) && i < |reqs| && Awaited(t, nodes, disk, reqs, i, d, start, now)
    requires AllLanded(nodes, payload, reqs, i, d, start, now)
    requires forall k, l :: 0 <= k < l < |reqs| ==> Consistent(reqs[k], reqs[l])
    ensures var n, w := reqs[i].node, Placed(reqs, i, d, start, now);
            && n < |nodes| && Publishable(nodes[n], w) && WriteOk(w)
            && t.Ok() && t.Settled(PartOf(w.addr)) && Apart(nodes, PartOf(w.addr)) && Stored(disk, PartOf(w.addr), reqs[i].pages)
            && var nodes' := nodes[n := Some(Publish(nodes[n], w))];
            && Awaited(t, nodes', disk, reqs, i + 1, d, start, now)
            && AllLanded(nodes', if Stale(nodes[n], w) then payload else payload[(n, Position(w)) := reqs[i].pages],
                         reqs, i + 1, d, start, now)
  {
    hide Landed, Publish, Stale, Stored, Apart, Table.Settled, Consistent, Offset;
    var n, w := reqs[i].node, Placed(reqs, i, d, start, now);
    PlacedOk(nodes, reqs, i, d, start, now);
    PublishThis(nodes, payload, reqs[i], w);
    var nodes' := nodes[n := Some(Publish(nodes[n], w))];
    forall j | i < j < |reqs|
      ensures Suits(nodes', reqs[j]) && Apart(nodes', PartOf(Placed(reqs, j, d, start, now).addr))
    {
      BatchStep(nodes, payload, reqs, i, j, d, start, now);
    }
    forall j | 0 <= j < i
      ensures Landed(nodes', if Stale(nodes[n], w) then payload else payload[(n, Position(w)) := reqs[i].pages],
                     reqs[j], Placed(reqs, j, d, start, now))
    {
      BatchStep(nodes, payload, reqs, i, j, d, start, now);
    }
  }

  lemma UntouchedNext(nodes0: Nodes, payload0: Payload, nodes: Nodes, payload: Payload, reqs: seq<Request>, i: nat, w: Write)
    requires Untouched(nodes0, payload0, nodes, payload, reqs) && i < |reqs|
    requires reqs[i].node < |nodes| && Publishable(nodes[reqs[i].node], w)
    ensures var n := reqs[i].node;
            Untouched(nodes0, payload0, nodes[n := Some(Publish(nodes[n], w))],
                      if Stale(nodes[n], w) then payload else payload[(n, Position(w)) := reqs[i].pages], reqs)
  {
    SameStep(payload0, payload, reqs[i].node, Position(w), reqs[i].pages);
  }

  lemma BatchEnd(nodes0: Nodes, payload0: Payload, nodes: Nodes, payload: Payload, reqs: seq<Request>, d: nat, start: nat, now: nat)
    requires AllLanded(nodes, payload, reqs, |reqs|, d, start, now) && Untouched(nodes0, payload0, nodes, payload, reqs)
    ensures forall i :: 0 <= i < |reqs| ==> Landed(nodes, payload, reqs[i], Placed(reqs, i, d, start, now))
    ensures forall m: nat :: m < |nodes| && Foreign(reqs, m) ==> nodes[m] == nodes0[m] && SamePages(payload0, payload, m)
  {}

  /** Behind page `next` of region r there is room for the batch, and an empty chunk has a region to be counted in. */
  predicate Room(g: Geo, r: nat, next: nat, reqs: seq<Request>) {
    && next + Offset(reqs, |reqs|) <= g.size
    && forall i :: 0 <= i < |reqs| && reqs[i].pages == [] ==> next + Offset(reqs, i) < g.size || r + 1 < g.regions
  }

  lemma PlacedSettled(t: Table, d: nat, reqs: seq<Request>, i: nat)
    requires t.Ok() && d < t.g.devs && i < |reqs| && 1 <= t.cursor[d].next && Room(t.g, t.cursor[d].region, t.cursor[d].next, reqs)
    requires t.cursor[d].region < t.g.regions && t.rg[d][t.cursor[d].region].state != Free
    ensures var c := t.cursor[d];
            t.Move(d, Cursor(c.region, c.next + Offset(reqs, |reqs|))).Settled(
              Part(d, t.g.Base(c.region) + c.next + Offset(reqs, i), |reqs[i].pages|))
  {
    hide Offset;
    var c := t.cursor[d];
    OffsetMonotone(reqs, i, |reqs|);
    ChunkRegion(t.g, c.region, c.next + Offset(reqs, i), |reqs[i].pages|);
  }

  /** Request i of a batch that was written ahead of the cursor. */
  lemma RequestPlaced(t: Table, nodes: Nodes, disk: Disk, d: nat, reqs: seq<Request>, i: nat, start: nat, now: nat)
    requires t.Ok() && t.Housed(nodes) && d < t.g.devs && i < |reqs| && Room(t.g, t.cursor[d].region, t.cursor[d].next, reqs)
    requires var c := t.cursor[d];
             && t.Ahead(Part(d, start, Offset(reqs, |reqs|)))
             && start == t.g.Base(c.region) + c.next && t.rg[d][c.region].state != Free
    requires Stored(disk, Part(d, start, Offset(reqs, |reqs|)), Buffer(reqs, |reqs|))
    ensures var p := PartOf(Placed(reqs, i, d, start, now).addr);
            var c := t.cursor[d];
            && t.Move(d, Cursor(c.region, c.next + Offset(reqs, |reqs|))).Settled(p)
            && Apart(nodes, p) && Stored(disk, p, reqs[i].pages)
  {
    hide Offset, Buffer, Table.Settled, Room, Apart;
    var p := PartOf(Placed(reqs, i, d, start, now).addr);
    OffsetMonotone(reqs, i, |reqs|);
    PlacedSettled(t, d, reqs, i);
    t.AheadApart(nodes, p);
    forall k: nat | k < p.len
      ensures PageStored(disk, p, reqs[i].pages, k)
    {
      BufferSlice(reqs, i, |reqs|, k);
      assert PageStored(disk, Part(d, start, Offset(reqs, |reqs|)), Buffer(reqs, |reqs|), Offset(reqs, i) + k);
    }
  }
}
