/**
What happened to one node of the index: which finished writes were published into its leaf and
when the leaf was dropped.  The leaf and the pages behind it follow from that.
*/
module NodeLife {
  import opened Common
  import opened Leaves
  import opened Geometry
  import opened Regions
  import opened Batch

  datatype Event = Published(w: Write, pages: seq<Page>) | Dropped

  /** A leaf, and for each of its extents that is in use the pages it was written with. */
  datatype Life = Life(leaf: Option<Leaf>, pages: map<nat, seq<Page>>)

  const UNBORN: Life := Life(None, map[])

  function Step(l: Life, e: Event): Life {
    match e
    case Dropped => UNBORN
    case Published(w, pages) =>
      if !Publishable(l.leaf, w) || Stale(l.leaf, w) then l
      else Life(Some(Publish(l.leaf, w)), (if InPlace(l.leaf, w) then l.pages else map[])[Position(w) := pages])
  }

  function Live(es: seq<Event>): Life {
    if es == [] then UNBORN else Step(Live(es[..|es| - 1]), es[|es| - 1])
  }

  lemma LiveNext(es: seq<Event>, e: Event)
    ensures Live(es + [e]) == Step(Live(es), e)
  {
    assert (es + [e])[..|es|] == es;
  }

  /** What happened since the leaf was last dropped. */
  function Since(es: seq<Event>): seq<Event> {
    if es == [] || es[|es| - 1].Dropped? then [] else Since(es[..|es| - 1]) + [es[|es| - 1]]
  }

  lemma SinceNext(es: seq<Event>, e: Event)
    ensures Since(es + [e]) == if e.Dropped? then [] else Since(es) + [e]
  {
    assert (es + [e])[..|es|] == es;
  }

  /** It is the end of the history, behind the last drop. */
  lemma {:induction false} SinceTail(es: seq<Event>) returns (init: seq<Event>)
    ensures es == init + Since(es) && (init != [] ==> init[|init| - 1].Dropped?)
    ensures forall i :: 0 <= i < |Since(es)| ==> Since(es)[i].Published?
  {
    if es == [] {
      return [];
    }
    var k := |es| - 1;
    assert es == es[..k] + [es[k]];
    SinceNext(es[..k], es[k]);
    hide Since;
    if es[k].Dropped? {
      init := es;
    } else {
      init := SinceTail(es[..k]);
      assert init + (Since(es[..k]) + [es[k]]) == (init + Since(es[..k])) + [es[k]];
    }
  }

  /** A leaf owes nothing to what was there before it was dropped. */
  lemma {:induction false} LiveSince(es: seq<Event>)
    ensures Live(es) == Live(Since(es))
  {
    if es != [] && es[|es| - 1].Published? {
      LiveSince(es[..|es| - 1]);
      LiveNext(Since(es[..|es| - 1]), es[|es| - 1]);
    }
  }

  // ----- The history of all nodes -----

  ghost predicate PagesTold(l: Life, payload: Payload, n: nat) {
    forall a: nat :: a in l.pages ==> (n, a) in payload && payload[(n, a)] == l.pages[a]
  }

  /** The history explains the leaves and the pages of the index. */
  ghost predicate Told(nodes: Nodes, payload: Payload, life: seq<seq<Event>>) {
    && |life| == |nodes|
    && forall n: nat :: n < |nodes| ==> Live(life[n]).leaf == nodes[n] && PagesTold(Live(life[n]), payload, n)
  }

  lemma ToldPublish(nodes: Nodes, payload: Payload, life: seq<seq<Event>>, n: nat, w: Write, pages: seq<Page>)
    requires Told(nodes, payload, life) && n < |nodes| && Publishable(nodes[n], w)
    ensures Told(nodes[n := Some(Publish(nodes[n], w))],
                 if Stale(nodes[n], w) then payload else payload[(n, Position(w)) := pages],
                 life[n := life[n] + [Published(w, pages)]])
  {
    LiveNext(life[n], Published(w, pages));
    var nodes' := nodes[n := Some(Publish(nodes[n], w))];
    var payload' := if Stale(nodes[n], w) then payload else payload[(n, Position(w)) := pages];
    var life' := life[n := life[n] + [Published(w, pages)]];
    forall m: nat | m < |nodes|
      ensures Live(life'[m]).leaf == nodes'[m] && PagesTold(Live(life'[m]), payload', m)
    {
      assert Live(life[m]).leaf == nodes[m] && PagesTold(Live(life[m]), payload, m);
    }
  }

  lemma ToldDrop(nodes: Nodes, payload: Payload, life: seq<seq<Event>>, n: nat)
    requires Told(nodes, payload, life) && n < |nodes|
    ensures Told(nodes[n := None], payload, life[n := life[n] + [Dropped]])
  {
    LiveNext(life[n], Dropped);
  }

  lemma ToldGrow(nodes: Nodes, payload: Payload, life: seq<seq<Event>>)
    requires Told(nodes, payload, life)
    ensures Told(nodes + [None], payload, life + [[]])
  {}

  // ----- What an operation adds to the history -----

  /** The leaf and its history are untouched, or the leaf was there and has been dropped. */
  predicate SparedOrDropped(l: Option<Leaf>, es: seq<Event>, l': Option<Leaf>, es': seq<Event>) {
    || (l' == l && es' == es)
    || (l.Some? && l' == None && es' == es + [Dropped])
  }

  /** After a batch: its publications come last, behind at most one drop. */
  predicate AfterBatch(l: Option<Leaf>, es: seq<Event>, es': seq<Event>, added: seq<Event>) {
    es' == es + added || (l.Some? && es' == es + [Dropped] + added)
  }

  /** The publications of the first i requests of a batch into node m. */
  function BatchEvents(reqs: seq<Request>, m: nat, i: nat, d: nat, start: nat, now: nat): seq<Event>
    requires i <= |reqs|
  {
    if i == 0 then []
    else
      BatchEvents(reqs, m, i - 1, d, start, now)
      + if reqs[i - 1].node == m then [Published(Placed(reqs, i - 1, d, start, now), reqs[i - 1].pages)] else []
  }

  lemma EventsStart(life: seq<seq<Event>>, reqs: seq<Request>, d: nat, start: nat, now: nat)
    ensures forall m: nat :: m < |life| ==> life[m] == life[m] + BatchEvents(reqs, m, 0, d, start, now)
  {
    assert forall m: nat :: m < |life| ==> life[m] + [] == life[m];
  }

  lemma EventsStep(was: seq<seq<Event>>, life: seq<seq<Event>>, reqs: seq<Request>, i: nat, d: nat, start: nat, now: nat)
    requires |was| == |life| && i < |reqs| && reqs[i].node < |life|
    requires forall m: nat :: m < |life| ==> life[m] == was[m] + BatchEvents(reqs, m, i, d, start, now)
    ensures var life' := life[reqs[i].node := life[reqs[i].node] + [Published(Placed(reqs, i, d, start, now), reqs[i].pages)]];
            forall m: nat :: m < |life'| ==> life'[m] == was[m] + BatchEvents(reqs, m, i + 1, d, start, now)
  {}

  /** Every request of the batch for node m, and nothing else, is published there. */
  lemma {:induction false} BatchEventsExact(reqs: seq<Request>, m: nat, i: nat, d: nat, start: nat, now: nat, e: Event)
    requires i <= |reqs|
    ensures e in BatchEvents(reqs, m, i, d, start, now) <==>
            exists j :: 0 <= j < i && reqs[j].node == m && e == Published(Placed(reqs, j, d, start, now), reqs[j].pages)
  {
    if i > 0 {
      BatchEventsExact(reqs, m, i - 1, d, start, now, e);
    }
  }

  // ----- The requests behind a history -----

  /** A request before it has a place. */
  predicate Unplaced(req: Request) {
    req.write.addr == Addr(0, 0, 0, 0, req.write.addr.expire, req.write.addr.crc)
  }

  /** The requests that the publications of a history of node m came from, in order. */
  function Requests(es: seq<Event>, m: nat): seq<Request> {
    if es == [] then []
    else
      var e := es[|es| - 1];
      Requests(es[..|es| - 1], m)
      + if e.Dropped? then []
        else [Request(m, e.w.(addr := Addr(0, 0, 0, 0, e.w.addr.expire, e.w.addr.crc)), e.pages)]
  }

  /** The requests for node m. */
  function For(reqs: seq<Request>, m: nat): seq<Request> {
    if reqs == [] then []
    else For(reqs[..|reqs| - 1], m) + if reqs[|reqs| - 1].node == m then [reqs[|reqs| - 1]] else []
  }

  lemma {:induction false} RequestsAppend(a: seq<Event>, b: seq<Event>, m: nat)
    ensures Requests(a + b, m) == Requests(a, m) + Requests(b, m)
  {
    if b == [] {
      assert a + b == a;
    } else {
      var k := |b| - 1;
      assert (a + b)[..|a| + k] == a + b[..k];
      RequestsAppend(a, b[..k], m);
    }
  }

  lemma RequestsNext(es: seq<Event>, w: Write, pages: seq<Page>, m: nat)
    ensures Requests(es + [Published(w, pages)], m) ==
            Requests(es, m) + [Request(m, w.(addr := Addr(0, 0, 0, 0, w.addr.expire, w.addr.crc)), pages)]
  {
    assert (es + [Published(w, pages)])[..|es|] == es;
  }

  lemma ForNext(reqs: seq<Request>, i: nat, m: nat)
    requires i < |reqs|
    ensures For(reqs[..i + 1], m) == For(reqs[..i], m) + if reqs[i].node == m then [reqs[i]] else []
  {
    assert reqs[..i + 1][..i] == reqs[..i];
  }

  lemma {:induction false} BatchRequests(reqs: seq<Request>, m: nat, i: nat, d: nat, start: nat, now: nat)
    requires i <= |reqs| && forall j :: 0 <= j < |reqs| ==> Unplaced(reqs[j])
    ensures Requests(BatchEvents(reqs, m, i, d, start, now), m) == For(reqs[..i], m)
  {
    if i > 0 {
      var es, w := BatchEvents(reqs, m, i - 1, d, start, now), Placed(reqs, i - 1, d, start, now);
      BatchRequests(reqs, m, i - 1, d, start, now);
      ForNext(reqs, i - 1, m);
      RequestsNext(es, w, reqs[i - 1].pages, m);
      assert Unplaced(reqs[i - 1]) && es + [] == es;
      assert BatchEvents(reqs, m, i, d, start, now) == es + if reqs[i - 1].node == m then [Published(w, reqs[i - 1].pages)] else [];
      hide Requests, For, BatchEvents, Offset;
    }
  }

  /** A batch adds its requests for the node, and nothing else, whether or not the leaf is dropped first. */
  lemma AfterBatchRequests(l: Option<Leaf>, es: seq<Event>, es': seq<Event>, reqs: seq<Request>, m: nat, d: nat, start: nat, now: nat)
    requires AfterBatch(l, es, es', BatchEvents(reqs, m, |reqs|, d, start, now)) && forall j :: 0 <= j < |reqs| ==> Unplaced(reqs[j])
    ensures Requests(es', m) == Requests(es, m) + For(reqs, m) && es <= es'
  {
    var added := BatchEvents(reqs, m, |reqs|, d, start, now);
    BatchRequests(reqs, m, |reqs|, d, start, now);
    assert reqs[..|reqs|] == reqs;
    DropRequests(es, m);
    RequestsAppend(es, added, m);
    RequestsAppend(es + [Dropped], added, m);
  }

  lemma DropRequests(es: seq<Event>, m: nat)
    ensures Requests(es + [Dropped], m) == Requests(es, m)
  {
    assert (es + [Dropped])[..|es|] == es;
  }
}
