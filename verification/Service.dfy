/**
The store behind its index: any run of batches and collections, the node at which a put lands
and the node at which a get looks.
*/
module Service {
  import opened Common
  import opened Chunks
  import opened Fields
  import opened Leaves
  import opened Geometry
  import opened Batch
  import opened Generations
  import opened NodeLife
  import opened Puts
  import R = Radix
  import RT = RadixTree
  import ST = SideTable
  import S = Store
  import C = DramCache
  import P = DataPath
  import A = Admission

  // ----- The index -----

  /** The tree of paths, and the table from a key to the node its puts go to. */
  class Index {
    const tree: RT.Tree
    const side: ST.Table<nat>
    /** History: the path that came with the first put of each key. */
    ghost var first: map<Key, R.Path>

    ghost predicate Valid()
      reads this, tree, side
    {
      && tree.Valid() && side.Valid() && R.Forward(tree.kids) && |tree.kids| == |tree.nodes|
      && side.bound.Keys == first.Keys
      && forall k :: k in side.bound ==>
           side.bound[k] < |tree.nodes| && (R.NoZero(first[k]) ==> R.Follow(tree.kids, first[k]) == Some(side.bound[k]))
    }

    constructor (mix: nat -> nat, hash: Key -> nat)
      ensures Valid() && side.bound == map[] && fresh(tree) && fresh(side)
    {
      tree := new RT.Tree(mix);
      side := new ST.Table(hash);
      first := map[];
      new;
      tree.TreeFacts();
    }

    /** Where a finished write goes: the node of its key, or a new one at the end of its path. */
    method NodeOf(k: Key, path: R.Path) returns (n: nat)
      requires Valid()
      modifies this, tree, side
      ensures Valid() && n < |tree.nodes| && |old(tree.nodes)| <= |tree.nodes|
      ensures side.bound == old(side.bound)[k := n] && (k in old(side.bound) ==> n == old(side.bound)[k])
      ensures first == if k in old(side.bound) then old(first) else old(first)[k := path]
    {
      var r := side.Get(k);
      if r.Some? {
        assert side.bound == side.bound[k := r.value];
        return r.value;
      }
      var made := tree.Walk(path, true);
      tree.TreeFacts();
      n := made.value;
      side.Put(k, n);
      first := first[k := path];
    }

    /**
    Where a get looks.  It is the node of key k if and only if the path is the one that came with
    the first put of the key.
    */
    method Find(path: R.Path) returns (r: Option<nat>)
      requires Valid()
      modifies tree
      ensures Valid() && tree.nodes == old(tree.nodes) && tree.kids == old(tree.kids)
      ensures r == R.Follow(tree.kids, path)
      ensures forall k :: k in side.bound && R.NoZero(first[k]) ==> (r == Some(side.bound[k]) <==> path == first[k])
    {
      r := tree.Walk(path, false);
      tree.TreeFacts();
      forall k | k in side.bound && R.NoZero(first[k]) && r == Some(side.bound[k])
        ensures path == first[k]
      {
        R.FollowUnique(tree.kids, tree.up, tree.tag, path, first[k]);
      }
    }
  }

  // ----- Runs -----

  /** A part of a put that is to be written: its key, the path that came with it, and the put. */
  datatype Order = Order(key: Key, path: R.Path, ver: nat, put: Put, part: nat)

  datatype Op = Submit(d: nat, orders: seq<Order>, now: nat) | Collect(cfg: GcConfig, now: nat, ttlDue: bool)

  /** The order is one of a part of the put of its version. */
  predicate OrderOk(o: Order, script: Script) {
    PutOk(o.put) && o.part < Count(o.put) && script(o.ver) == o.put
  }

  ghost predicate OrdersOk(orders: seq<Order>, script: Script) {
    && (forall i :: 0 <= i < |orders| ==> OrderOk(orders[i], script))
    && forall i, j :: 0 <= i < j < |orders| ==> orders[i].ver != orders[j].ver || orders[i].part != orders[j].part
  }

  /** The orders as requests for the nodes of their keys. */
  function Resolved(orders: seq<Order>, bound: map<Key, nat>, crc: Crc): (reqs: seq<Request>)
    requires forall i :: 0 <= i < |orders| ==> PutOk(orders[i].put) && orders[i].part < Count(orders[i].put)
    ensures |reqs| == |orders|
  {
    seq(|orders|, i requires 0 <= i < |orders| =>
      PartRequest(if orders[i].key in bound then bound[orders[i].key] else 0, orders[i].ver, orders[i].put, crc, orders[i].part))
  }

  /** A batch of parts that a region can hold. */
  ghost predicate OpOk(op: Op, g: Geo, script: Script, crc: Crc) {
    op.Submit? ==>
      && op.d < g.devs && OrdersOk(op.orders, script)
      && 1 + Offset(Resolved(op.orders, map[], crc), |op.orders|) <= g.size
  }

  ghost predicate OpsOk(ops: seq<Op>, g: Geo, script: Script, crc: Crc) {
    forall i :: 0 <= i < |ops| ==> OpOk(ops[i], g, script, crc)
  }

  /** The batch does not end in an empty chunk. */
  predicate Ends(op: Op) {
    op.Submit? && op.orders != [] ==>
      var o := op.orders[|op.orders| - 1];
      PutOk(o.put) && o.part < Count(o.put) && Chunk(o.put, o.part) != []
  }

  /** What is bound to a key stays bound to it. */
  ghost predicate Grows<V>(b: map<Key, V>, b': map<Key, V>) {
    forall k :: k in b ==> k in b' && b'[k] == b[k]
  }

  /** The history of a node, none if it is not there yet. */
  function Past(life: seq<seq<Event>>, m: nat): seq<Event> {
    if m < |life| then life[m] else []
  }

  /** Nodes may have been added, and no history has changed. */
  ghost predicate Still(life: seq<seq<Event>>, life': seq<seq<Event>>) {
    |life| <= |life'| && forall m: nat :: Past(life', m) == Past(life, m)
  }

  /** The requests of an operation for node m. */
  ghost function OpRequests(op: Op, bound: map<Key, nat>, crc: Crc, m: nat): seq<Request> {
    if op.Submit? && (forall i :: 0 <= i < |op.orders| ==> PutOk(op.orders[i].put) && op.orders[i].part < Count(op.orders[i].put))
    then For(Resolved(op.orders, bound, crc), m) else []
  }

  ghost function RunRequests(ops: seq<Op>, bound: map<Key, nat>, crc: Crc, m: nat): seq<Request> {
    if ops == [] then [] else RunRequests(ops[..|ops| - 1], bound, crc, m) + OpRequests(ops[|ops| - 1], bound, crc, m)
  }

  /** The keys of an operation have nodes. */
  ghost predicate Attached(op: Op, bound: map<Key, nat>) {
    op.Submit? ==> forall i :: 0 <= i < |op.orders| ==> op.orders[i].key in bound
  }

  lemma OpRequestsGrow(op: Op, b: map<Key, nat>, b': map<Key, nat>, crc: Crc, m: nat)
    requires Attached(op, b) && Grows(b, b')
    ensures OpRequests(op, b', crc, m) == OpRequests(op, b, crc, m)
  {
    hide For, PutOk, Count, PartRequest;
    if op.Submit? && (forall i :: 0 <= i < |op.orders| ==> PutOk(op.orders[i].put) && op.orders[i].part < Count(op.orders[i].put)) {
      assert Resolved(op.orders, b', crc) == Resolved(op.orders, b, crc);
    }
  }

  lemma {:induction false} RunRequestsGrow(ops: seq<Op>, b: map<Key, nat>, b': map<Key, nat>, crc: Crc, m: nat)
    requires (forall i :: 0 <= i < |ops| ==> Attached(ops[i], b)) && Grows(b, b')
    ensures RunRequests(ops, b', crc, m) == RunRequests(ops, b, crc, m)
  {
    if ops != [] {
      RunRequestsGrow(ops[..|ops| - 1], b, b', crc, m);
      OpRequestsGrow(ops[|ops| - 1], b, b', crc, m);
    }
  }

  lemma {:induction false} SameOffset(a: seq<Request>, b: seq<Request>, i: nat)
    requires |a| == |b| && i <= |a| && forall j :: 0 <= j < |a| ==> a[j].pages == b[j].pages
    ensures Offset(a, i) == Offset(b, i)
  {
    if i > 0 {
      SameOffset(a, b, i - 1);
    }
  }

  /** A batch that does not end in an empty chunk has room wherever it fits. */
  lemma TailRoom(g: Geo, r: nat, next: nat, reqs: seq<Request>)
    requires next + Offset(reqs, |reqs|) <= g.size && (reqs != [] ==> reqs[|reqs| - 1].pages != [])
    ensures Room(g, r, next, reqs)
  {
    forall i | 0 <= i < |reqs| && reqs[i].pages == []
      ensures next + Offset(reqs, i) < g.size
    {
      OffsetMonotone(reqs, i, |reqs| - 1);
    }
  }

  /** Orders resolved to nodes make a batch of the script. */
  lemma ResolvedScript(orders: seq<Order>, bound: map<Key, nat>, script: Script, crc: Crc)
    requires OrdersOk(orders, script)
    ensures FromScript(Resolved(orders, bound, crc), script, crc) && forall j :: 0 <= j < |orders| ==> Unplaced(Resolved(orders, bound, crc)[j])
    ensures Offset(Resolved(orders, bound, crc), |orders|) == Offset(Resolved(orders, map[], crc), |orders|)
  {
    hide PutOk, Count, Chunk, Checksum, Stream, Offset;
    var reqs := Resolved(orders, bound, crc);
    SameOffset(reqs, Resolved(orders, map[], crc), |orders|);
    forall j | 0 <= j < |orders|
      ensures IsRequest(reqs[j], script, crc) && Unplaced(reqs[j])
    {
      assert OrderOk(orders[j], script);
    }
    forall i, j | 0 <= i < j < |reqs| && reqs[i].node == reqs[j].node && reqs[i].write.ver == reqs[j].write.ver
      ensures Position(reqs[i].write) != Position(reqs[j].write)
    {
      assert OrderOk(orders[i], script) && OrderOk(orders[j], script);
    }
  }

  /** Room in the store for the leaves of new nodes. */
  method Grow(store: S.Store, size: nat, ghost script: Script, ghost crc: Crc)
    requires store.Valid() && |store.nodes| <= size && Scripted(store.life, script, crc)
    modifies store
    ensures store.Valid() && |store.nodes| == |store.life| == size && Scripted(store.life, script, crc)
    ensures store.cursor == old(store.cursor) && Still(old(store.life), store.life)
  {
    hide S.Store.Sound, Told, Keeps;
    KeepsNothing(script, crc);
    LifeSize(store);
    while |store.nodes| < size
      invariant store.Valid() && |store.nodes| == |store.life| <= size && store.cursor == old(store.cursor)
      invariant Scripted(store.life, script, crc) && Still(old(store.life), store.life)
    {
      var m := store.AddNode();
    }
  }

  /** The node of a key, with room for its leaf in the store. */
  method Attach(index: Index, store: S.Store, k: Key, path: R.Path, ghost script: Script, ghost crc: Crc) returns (n: nat)
    requires index.Valid() && store.Valid() && |store.nodes| == |index.tree.nodes| && Scripted(store.life, script, crc)
    modifies index, index.tree, index.side, store
    ensures index.Valid() && store.Valid() && |store.nodes| == |index.tree.nodes| == |store.life| && n < |store.nodes|
    ensures |old(store.nodes)| <= |store.nodes| && Scripted(store.life, script, crc) && store.cursor == old(store.cursor)
    ensures Still(old(store.life), store.life)
    ensures index.side.bound == old(index.side.bound)[k := n] && Grows(old(index.side.bound), index.side.bound)
    ensures index.first == if k in old(index.first) then old(index.first) else old(index.first)[k := path]
  {
    hide S.Store.Valid, Scripted, Still;
    n := index.NodeOf(k, path);
    Grow(store, |index.tree.nodes|, script, crc);
  }

  lemma KeepsNothing(script: Script, crc: Crc)
    ensures Keeps([], script, crc)
  {}

  lemma SparedRequests(l: Option<Leaf>, es: seq<Event>, l': Option<Leaf>, es': seq<Event>, m: nat)
    requires SparedOrDropped(l, es, l', es')
    ensures Requests(es', m) == Requests(es, m) && es <= es'
  {
    DropRequests(es, m);
  }

  /** The first i orders as requests for the nodes of their keys. */
  ghost predicate Placed(orders: seq<Order>, i: nat, reqs: seq<Request>, bound: map<Key, nat>, crc: Crc, size: nat)
    requires i <= |orders| && forall j :: 0 <= j < |orders| ==> PutOk(orders[j].put) && orders[j].part < Count(orders[j].put)
  {
    && |reqs| == i
    && forall j :: 0 <= j < i ==>
         && orders[j].key in bound && bound[orders[j].key] < size
         && reqs[j] == PartRequest(bound[orders[j].key], orders[j].ver, orders[j].put, crc, orders[j].part)
  }

  lemma PlacedNext(orders: seq<Order>, i: nat, reqs: seq<Request>, bound: map<Key, nat>, bound': map<Key, nat>, crc: Crc, size: nat, size': nat)
    requires i < |orders| && forall j :: 0 <= j < |orders| ==> PutOk(orders[j].put) && orders[j].part < Count(orders[j].put)
    requires Placed(orders, i, reqs, bound, crc, size) && Grows(bound, bound') && size <= size'
    requires orders[i].key in bound' && bound'[orders[i].key] < size'
    ensures var o := orders[i];
            Placed(orders, i + 1, reqs + [PartRequest(bound'[o.key], o.ver, o.put, crc, o.part)], bound', crc, size')
  {
    hide PutOk, Count, PartRequest;
  }

  lemma AllPlaced(orders: seq<Order>, reqs: seq<Request>, bound: map<Key, nat>, crc: Crc, size: nat)
    requires forall j :: 0 <= j < |orders| ==> PutOk(orders[j].put) && orders[j].part < Count(orders[j].put)
    requires Placed(orders, |orders|, reqs, bound, crc, size)
    ensures (forall j :: 0 <= j < |orders| ==> orders[j].key in bound) && reqs == Resolved(orders, bound, crc)
    ensures forall j :: 0 <= j < |reqs| ==> reqs[j].node < size
  {
    hide PutOk, Count, Chunk, Checksum;
  }

  /** The nodes of the keys of a batch, made where there is none. */
  method AttachAll(index: Index, store: S.Store, orders: seq<Order>, crc: Crc, ghost script: Script) returns (reqs: seq<Request>)
    requires index.Valid() && store.Valid() && |store.nodes| == |index.tree.nodes| && Scripted(store.life, script, crc)
    requires OrdersOk(orders, script)
    modifies index, index.tree, index.side, store
    ensures index.Valid() && store.Valid() && |store.nodes| == |index.tree.nodes| == |store.life| && Scripted(store.life, script, crc)
    ensures Grows(old(index.side.bound), index.side.bound) && Grows(old(index.first), index.first)
    ensures Still(old(store.life), store.life) && store.cursor == old(store.cursor)
    ensures (forall i :: 0 <= i < |orders| ==> orders[i].key in index.side.bound) && reqs == Resolved(orders, index.side.bound, crc)
    ensures forall i :: 0 <= i < |reqs| ==> reqs[i].node < |store.nodes|
  {
    hide S.Store.Valid, Index.Valid, Scripted, PutOk, Count, PartRequest, Resolved;
    OrdersParts(orders, script);
    reqs := [];
    LifeSize(store);
    for i := 0 to |orders|
      invariant index.Valid() && store.Valid() && |store.nodes| == |index.tree.nodes| == |store.life| && Scripted(store.life, script, crc)
      invariant Grows(old(index.side.bound), index.side.bound) && Grows(old(index.first), index.first)
      invariant Still(old(store.life), store.life) && store.cursor == old(store.cursor)
      invariant Placed(orders, i, reqs, index.side.bound, crc, |store.nodes|)
    {
      var o := orders[i];
      ghost var was, size := index.side.bound, |store.nodes|;
      var n := Attach(index, store, o.key, o.path, script, crc);
      PlacedNext(orders, i, reqs, was, index.side.bound, crc, size, |store.nodes|);
      reqs := reqs + [PartRequest(n, o.ver, o.put, crc, o.part)];
    }
    AllPlaced(orders, reqs, index.side.bound, crc, |store.nodes|);
  }

  lemma OrdersParts(orders: seq<Order>, script: Script)
    requires OrdersOk(orders, script)
    ensures forall j :: 0 <= j < |orders| ==> PutOk(orders[j].put) && orders[j].part < Count(orders[j].put)
  {
    hide PutOk, Count;
    forall j | 0 <= j < |orders|
      ensures PutOk(orders[j].put) && orders[j].part < Count(orders[j].put)
    {
      assert OrderOk(orders[j], script);
    }
  }

  lemma LifeSize(store: S.Store)
    requires store.Valid()
    ensures |store.life| == |store.nodes|
  {}

  /**
  One batch or one collection while nobody reads.  The batch is not done, and nothing but the nodes
  of its keys is made, only if it ends in an empty chunk that might come to lie behind the last page
  of the last region.
  */
  method RunOne(index: Index, store: S.Store, op: Op, crc: Crc, ghost script: Script) returns (ok: bool)
    requires index.Valid() && store.Valid() && |store.nodes| == |index.tree.nodes| && Scripted(store.life, script, crc)
    requires OpOk(op, store.g, script, crc)
    modifies index, index.tree, index.side, store
    ensures index.Valid() && store.Valid() && |store.nodes| == |index.tree.nodes| == |store.life| && Scripted(store.life, script, crc)
    ensures Grows(old(index.side.bound), index.side.bound) && Grows(old(index.first), index.first)
    ensures Attached(op, index.side.bound) && |old(store.life)| <= |store.life|
    ensures forall m: nat :: Past(old(store.life), m) <= Past(store.life, m)
    ensures forall m: nat ::
              Requests(Past(store.life, m), m) == Requests(Past(old(store.life), m), m) + if ok then OpRequests(op, index.side.bound, crc, m) else []
    ensures Ends(op) ==> ok
    ensures op.Collect? && op.ttlDue ==> forall n :: 0 <= n < |old(store.nodes)| && old(store.nodes)[n].Some? ==>
              store.Expired(old(store.nodes)[n].value, op.now) ==> store.nodes[n] == None
  {
    match op
    case Submit(d, orders, now) =>
      ok := RunBatch(index, store, d, orders, now, crc, script);
    case Collect(cfg, now, ttlDue) =>
      RunCollect(store, cfg, now, ttlDue, crc, script);
      ok := true;
  }

  method RunCollect(store: S.Store, cfg: GcConfig, now: nat, ttlDue: bool, ghost crc: Crc, ghost script: Script)
    requires store.Valid() && Scripted(store.life, script, crc)
    modifies store
    ensures store.Valid() && |store.nodes| == |old(store.nodes)| == |store.life| == |old(store.life)| && Scripted(store.life, script, crc)
    ensures forall m: nat :: Past(old(store.life), m) <= Past(store.life, m)
    ensures forall m: nat :: Requests(Past(store.life, m), m) == Requests(Past(old(store.life), m), m) + []
    ensures ttlDue ==> forall n :: 0 <= n < |old(store.nodes)| && old(store.nodes)[n].Some? ==>
              store.Expired(old(store.nodes)[n].value, now) ==> store.nodes[n] == None
  {
    hide S.Store.Sound, S.Store.Expired, Told, Scripted, Requests, SparedOrDropped;
    ghost var swept, mid := store.GcTick(cfg, now, ttlDue, {});
    ScriptedDrops(old(store.nodes), old(store.life), store.nodes, store.life, script, crc);
    forall m: nat
      ensures Past(old(store.life), m) <= Past(store.life, m)
      ensures Requests(Past(store.life, m), m) == Requests(Past(old(store.life), m), m) + []
    {
      if m < |store.life| {
        SparedRequests(old(store.nodes)[m], old(store.life)[m], store.nodes[m], store.life[m], m);
      }
    }
  }

  method RunBatch(index: Index, store: S.Store, d: nat, orders: seq<Order>, now: nat, crc: Crc, ghost script: Script) returns (ok: bool)
    requires index.Valid() && store.Valid() && |store.nodes| == |index.tree.nodes| && Scripted(store.life, script, crc)
    requires OpOk(Submit(d, orders, now), store.g, script, crc)
    modifies index, index.tree, index.side, store
    ensures index.Valid() && store.Valid() && |store.nodes| == |index.tree.nodes| == |store.life| && Scripted(store.life, script, crc)
    ensures Grows(old(index.side.bound), index.side.bound) && Grows(old(index.first), index.first)
    ensures Attached(Submit(d, orders, now), index.side.bound) && |old(store.life)| <= |store.life|
    ensures forall m: nat :: Past(old(store.life), m) <= Past(store.life, m)
    ensures forall m: nat ::
              Requests(Past(store.life, m), m) ==
              Requests(Past(old(store.life), m), m) + if ok then OpRequests(Submit(d, orders, now), index.side.bound, crc, m) else []
    ensures Ends(Submit(d, orders, now)) ==> ok
  {
    hide S.Store.Sound, Told, Scripted, Requests, For, AfterBatch, PutOk, Count, Chunk, Offset, PartRequest, Room;
    var reqs := AttachAll(index, store, orders, crc, script);
    ResolvedScript(orders, index.side.bound, script, crc);
    var g := store.g;
    var next := store.cursor[d].next;
    if !(next + Offset(reqs, |reqs|) <= g.size ==> Room(g, store.cursor[d].region, next, reqs)) || !Room(g, g.regions, 1, reqs) {
      NoTail(g, store.cursor[d].region, next, reqs, orders, index.side.bound, crc);
      return false;
    }
    ghost var life0 := store.life;
    SubmitRequests(store, d, reqs, now, crc, script);
    ok := true;
    forall m: nat
      ensures Past(old(store.life), m) <= Past(store.life, m)
      ensures Requests(Past(store.life, m), m) == Requests(Past(old(store.life), m), m) + For(reqs, m)
    {
      assert Past(life0, m) == Past(old(store.life), m);
      if m >= |store.life| {
        NoneFor(reqs, m);
        RequestsNone(m);
      }
    }
  }

  lemma RequestsNone(m: nat)
    ensures Requests([], m) == []
  {}

  lemma {:induction false} NoneFor(reqs: seq<Request>, m: nat)
    requires forall i :: 0 <= i < |reqs| ==> reqs[i].node != m
    ensures For(reqs, m) == []
  {
    if reqs != [] {
      NoneFor(reqs[..|reqs| - 1], m);
    }
  }

  /** Without room the batch ends in an empty chunk. */
  lemma NoTail(g: Geo, r: nat, next: nat, reqs: seq<Request>, orders: seq<Order>, bound: map<Key, nat>, crc: Crc)
    requires forall i :: 0 <= i < |orders| ==> PutOk(orders[i].put) && orders[i].part < Count(orders[i].put)
    requires reqs == Resolved(orders, bound, crc) && 1 + Offset(reqs, |reqs|) <= g.size
    requires (next + Offset(reqs, |reqs|) <= g.size && !Room(g, r, next, reqs)) || !Room(g, g.regions, 1, reqs)
    ensures forall d, now :: !Ends(Submit(d, orders, now))
  {
    hide PutOk, Count, Chunk, Checksum, Stream, Offset, Room;
    if reqs == [] || reqs[|reqs| - 1].pages != [] {
      if next + Offset(reqs, |reqs|) <= g.size {
        TailRoom(g, r, next, reqs);
      }
      TailRoom(g, g.regions, 1, reqs);
    }
  }

  /** Requests of the script with room: published, and nothing else but drops. */
  method SubmitRequests(store: S.Store, d: nat, reqs: seq<Request>, now: nat, ghost crc: Crc, ghost script: Script)
    requires store.Valid() && Scripted(store.life, script, crc) && d < store.g.devs && FromScript(reqs, script, crc)
    requires forall i :: 0 <= i < |reqs| ==> reqs[i].node < |store.nodes| && Unplaced(reqs[i])
    requires store.cursor[d].next + Offset(reqs, |reqs|) <= store.g.size ==> Room(store.g, store.cursor[d].region, store.cursor[d].next, reqs)
    requires Room(store.g, store.g.regions, 1, reqs)
    modifies store
    ensures store.Valid() && |store.nodes| == |old(store.nodes)| == |store.life| == |old(store.life)| && Scripted(store.life, script, crc)
    ensures forall m: nat :: m < |store.life| ==>
              old(store.life)[m] <= store.life[m] && Requests(store.life[m], m) == Requests(old(store.life)[m], m) + For(reqs, m)
  {
    hide S.Store.Sound, Told, Scripted, Requests, For, FromScript, AfterBatch, Room, Offset;
    ScriptSuits(store.nodes, store.payload, store.life, reqs, script, crc);
    var start := store.SubmitBatch(d, reqs, now, {});
    ScriptedBatch(old(store.nodes), old(store.life), store.life, reqs, d, start, now, script, crc);
    forall m: nat | m < |store.life|
      ensures Requests(store.life[m], m) == Requests(old(store.life)[m], m) + For(reqs, m)
      ensures old(store.life)[m] <= store.life[m]
    {
      AfterBatchRequests(old(store.nodes)[m], old(store.life)[m], store.life[m], reqs, m, d, start, now);
    }
  }

  /**
  Any run of batches and collections while nobody reads.  Store and index stay valid, and the
  history of each node is exactly the requests for it, in order, with drops between them; a key has
  the node that its first order found or made.  The run stops early only at such a batch.
  */
  method Run(index: Index, store: S.Store, ops: seq<Op>, crc: Crc, ghost script: Script) returns (done: nat)
    requires index.Valid() && store.Valid() && |store.nodes| == |index.tree.nodes| && Scripted(store.life, script, crc)
    requires OpsOk(ops, store.g, script, crc)
    modifies index, index.tree, index.side, store
    ensures index.Valid() && store.Valid() && |store.nodes| == |index.tree.nodes| == |store.life| && Scripted(store.life, script, crc)
    ensures Grows(old(index.side.bound), index.side.bound) && Grows(old(index.first), index.first)
    ensures done <= |ops| && (done < |ops| ==> !Ends(ops[done])) && |old(store.life)| <= |store.life|
    ensures forall m: nat ::
              && Past(old(store.life), m) <= Past(store.life, m)
              && Requests(Past(store.life, m), m) == Requests(Past(old(store.life), m), m) + RunRequests(ops[..done], index.side.bound, crc, m)
  {
    hide S.Store.Valid, Index.Valid, Scripted, RunRequests, OpRequests, Requests, OpOk, Ends, Attached;
    LifeSize(store);
    done := 0;
    NoRequests(index.side.bound, crc);
    while done < |ops|
      invariant 0 <= done <= |ops|
      invariant index.Valid() && store.Valid() && |store.nodes| == |index.tree.nodes| == |store.life| && Scripted(store.life, script, crc)
      invariant Grows(old(index.side.bound), index.side.bound)
      invariant Grows(old(index.first), index.first)
      invariant |old(store.life)| <= |store.life|
      invariant forall i :: 0 <= i < done ==> Attached(ops[i], index.side.bound)
      invariant forall m: nat :: Past(old(store.life), m) <= Past(store.life, m)
      invariant forall m: nat ::
                  Requests(Past(store.life, m), m) == Requests(Past(old(store.life), m), m) + RunRequests(ops[..done], index.side.bound, crc, m)
    {
      ghost var life0, bound0 := store.life, index.side.bound;
      var ok := RunOne(index, store, ops[done], crc, script);
      RunNext(old(store.life), life0, store.life, bound0, index.side.bound, ops, done, crc, ok);
      if !ok {
        return;
      }
      done := done + 1;
    }
  }

  lemma NoRequests(bound: map<Key, nat>, crc: Crc)
    ensures forall m: nat :: RunRequests([], bound, crc, m) == []
  {}

  lemma RunNext(was: seq<seq<Event>>, life: seq<seq<Event>>, life': seq<seq<Event>>, b: map<Key, nat>, b': map<Key, nat>,
                ops: seq<Op>, i: nat, crc: Crc, ok: bool)
    requires i < |ops| && Grows(b, b') && (forall j :: 0 <= j < i ==> Attached(ops[j], b)) && Attached(ops[i], b')
    requires forall m: nat :: Requests(Past(life, m), m) == Requests(Past(was, m), m) + RunRequests(ops[..i], b, crc, m)
    requires forall m: nat :: Requests(Past(life', m), m) == Requests(Past(life, m), m) + if ok then OpRequests(ops[i], b', crc, m) else []
    ensures forall j :: 0 <= j <= i ==> Attached(ops[j], b')
    ensures forall m: nat ::
              Requests(Past(life', m), m) == Requests(Past(was, m), m) + RunRequests(if ok then ops[..i + 1] else ops[..i], b', crc, m)
  {
    hide Requests, OpRequests, Past;
    forall j | 0 <= j < i
      ensures Attached(ops[j], b')
    {
      assert Attached(ops[j], b);
    }
    hide Attached;
    assert ops[..i + 1][..i] == ops[..i];
    forall m: nat
      ensures Requests(Past(life', m), m) == Requests(Past(was, m), m) + RunRequests(if ok then ops[..i + 1] else ops[..i], b', crc, m)
    {
      RunRequestsGrow(ops[..i], b, b', crc, m);
    }
  }

  // ----- Histories of the script -----

  /**
  Every part of a put that a run asked for has been published; so if no drop came behind the
  first of them, a get finds the put whole.
  */
  lemma AskedPresent(es: seq<Event>, n: nat, ver: nat, script: Script, crc: Crc, p: nat)
    requires Keeps(es, script, crc) && PutOk(script(ver)) && p < Count(script(ver))
    ensures PartRequest(n, ver, script(ver), crc, p) in Requests(es, n) <==> Present(es, ver, script(ver), crc, p)
  {
    var put := script(ver);
    if PartRequest(n, ver, put, crc, p) in Requests(es, n) {
      var i := RequestEvent(es, n, PartRequest(n, ver, put, crc, p));
      assert SomePart(es[i], ver, put, crc);
      SamePart(es[i], n, ver, put, crc, p);
    }
    if Present(es, ver, put, crc, p) {
      var i :| 0 <= i < |es| && IsPart(es[i], ver, put, crc, p);
      EventRequest(es, n, i);
    }
  }

  function RequestOf(e: Event, n: nat): Request
    requires e.Published?
  {
    Request(n, e.w.(addr := Addr(0, 0, 0, 0, e.w.addr.expire, e.w.addr.crc)), e.pages)
  }

  lemma {:induction false} RequestEvent(es: seq<Event>, n: nat, req: Request) returns (i: nat)
    requires req in Requests(es, n)
    ensures i < |es| && es[i].Published? && RequestOf(es[i], n) == req
  {
    i := |es| - 1;
    if es[i].Dropped? || RequestOf(es[i], n) != req {
      i := RequestEvent(es[..i], n, req);
    }
  }

  lemma {:induction false} EventRequest(es: seq<Event>, n: nat, i: nat)
    requires i < |es| && es[i].Published?
    ensures RequestOf(es[i], n) in Requests(es, n)
  {
    if i < |es| - 1 {
      EventRequest(es[..|es| - 1], n, i);
    }
  }

  /** A part is determined by its request. */
  lemma SamePart(e: Event, n: nat, ver: nat, put: Put, crc: Crc, p: nat)
    requires PutOk(put) && p < Count(put) && SomePart(e, ver, put, crc) && RequestOf(e, n) == PartRequest(n, ver, put, crc, p)
    ensures IsPart(e, ver, put, crc, p)
  {
    hide PutOk, Count, Chunk, Checksum, Stream;
    var q: nat :| IsPart(e, ver, put, crc, q);
    assert q == p;
  }

  /** A stripe is whole exactly if each of its requests was published since the last drop. */
  lemma StripeWhole(es: seq<Event>, n: nat, ver: nat, script: Script, crc: Crc)
    requires Keeps(es, script, crc) && PutOk(script(ver)) && script(ver).kind.Striped?
    ensures Whole(Since(es), ver, script(ver), crc) <==>
            forall p: nat :: p < Count(script(ver)) ==> PartRequest(n, ver, script(ver), crc, p) in Requests(Since(es), n)
  {
    hide PutOk, Count, Present, Since, PartRequest, SomePart;
    var put := script(ver);
    KeepsSince(es, script, crc);
    forall p: nat | p < Count(put)
      ensures PartRequest(n, ver, put, crc, p) in Requests(Since(es), n) <==> Present(Since(es), ver, put, crc, p)
    {
      AskedPresent(Since(es), n, ver, script, crc, p);
    }
  }

  lemma KeepsSince(es: seq<Event>, script: Script, crc: Crc)
    requires Keeps(es, script, crc)
    ensures Keeps(Since(es), script, crc) && forall i :: 0 <= i < |Since(es)| ==> Since(es)[i].Published?
  {
    hide SomePart, Since;
    var init := SinceTail(es);
    var tail := Since(es);
    forall i | 0 <= i < |tail| && tail[i].Published?
      ensures SomePart(tail[i], tail[i].w.ver, script(tail[i].w.ver), crc)
    {
      assert tail[i] == es[|init| + i];
    }
  }

  /** The leaf of a node belongs to a put of the script. */
  lemma LeafScripted(es: seq<Event>, script: Script, crc: Crc)
    requires Keeps(es, script, crc) && Live(es).leaf.Some?
    ensures var ver := Live(es).leaf.value.ver;
            Newest(Since(es), ver) && PutOk(script(ver)) && Belongs(es, ver, script(ver), crc)
  {
    hide SomePart, Live, Since, Step;
    LiveSince(es);
    KeepsSince(es, script, crc);
    NewestWins(Since(es), script, crc);
    var tail, ver := Since(es), Live(es).leaf.value.ver;
    var i :| 0 <= i < |tail| && tail[i].Published? && tail[i].w.ver == ver;
    PartOk(tail[i], ver, script(ver), crc);
  }

  lemma PartOk(e: Event, ver: nat, put: Put, crc: Crc)
    requires SomePart(e, ver, put, crc)
    ensures PutOk(put)
  {}

  // ----- From a put to a get -----

  /** What a get of a put asks of its caller: the buffers and the unit. */
  ghost predicate Ready(ver: nat, k: Key, put: Put, unit: nat, outs: seq<P.Outcome>, truth: P.Truth) {
    truth(k, ver) == put.recs && PutOk(put) && P.AllFill(put, outs) && (put.kind.Striped? ==> put.kind.unit == unit)
  }

  /** What a get of a leaf answers, `es` being what happened at the node since its last drop. */
  ghost predicate Answered(l: Leaf, es: seq<Event>, put: Put, now: nat, crc: Crc, outs: seq<P.Outcome>, behind: seq<byte>,
                           a: Option<P.Answer>, hit: bool, astray: bool)
  {
    && LeafOk(l) && PutOk(put) && P.AllFill(put, outs)
    && (hit ==> a.Some?)
    && (a.Some? <==> Fresh(l, now) && (hit || P.Served(es, l.ver, put, crc, outs, behind)))
    && (astray <==> Fresh(l, now) && !hit && !put.kind.Striped? && !Present(es, l.ver, put, crc, 0))
    && (a.Some? && !P.Deceived(put, crc, outs, behind) ==> P.Exact(a.value, put.recs))
  }

  /** A get by its path: nothing without a leaf at the end of the path, otherwise the get of that node. */
  method GetByPath(index: Index, store: S.Store, cache: C.Cache, k: Key, path: R.Path, now: nat, unit: nat, crc: Crc,
                   outs: seq<P.Outcome>, behind: seq<byte>, ghost script: Script, ghost truth: P.Truth)
    returns (n: Option<nat>, a: Option<P.Answer>, hit: bool, astray: bool)
    requires index.Valid() && store.Valid() && |store.nodes| == |index.tree.nodes| && Scripted(store.life, script, crc)
    requires cache.Valid() && P.Faithful(cache.history, truth)
    requires forall m: nat :: R.Follow(index.tree.kids, path) == Some(m) && m < |store.nodes| && store.nodes[m].Some? ==>
               Ready(store.nodes[m].value.ver, k, script(store.nodes[m].value.ver), unit, outs, truth)
    modifies index.tree, cache, cache.arena
    ensures index.Valid() && index.tree.nodes == old(index.tree.nodes) && cache.Valid()
    ensures n == R.Follow(index.tree.kids, path) && (n.Some? ==> n.value < |store.nodes|)
    ensures k in index.side.bound && R.NoZero(index.first[k]) ==> (n == Some(index.side.bound[k]) <==> path == index.first[k])
    ensures n.None? || store.nodes[n.value].None? ==> a.None? && !astray
    ensures n.Some? && store.nodes[n.value].Some? ==>
              var l := store.nodes[n.value].value;
              Answered(l, Since(store.life[n.value]), script(l.ver), now, crc, outs, behind, a, hit, astray)
  {
    hide S.Store.Sound, C.Cache.Valid, Told, Scripted, Fresh, P.Served, P.Deceived, P.Exact, P.AllFill, PutOk, P.Faithful, Since;
    n := index.Find(path);
    a, hit, astray := None, false, false;
    if n.None? || store.nodes[n.value].None? {
      return;
    }
    ghost var m, l := n.value, store.nodes[n.value].value;
    ScriptBelongs(store, m, script, crc);
    assert Ready(l.ver, k, script(l.ver), unit, outs, truth);
    a, hit, astray := P.Get(store, cache, n.value, k, now, unit, crc, outs, behind, script(l.ver), truth);
  }

  lemma ScriptBelongs(store: S.Store, n: nat, script: Script, crc: Crc)
    requires store.Valid() && Scripted(store.life, script, crc) && n < |store.nodes| && store.nodes[n].Some?
    ensures var ver := store.nodes[n].value.ver;
            LeafOk(store.nodes[n].value) && Belongs(store.life[n], ver, script(ver), crc) && Newest(Since(store.life[n]), ver)
  {
    hide S.Store.Sound, Newest, Belongs, Since, Keeps;
    P.NodeTold(store, n);
    LeafScripted(store.life[n], script, crc);
  }

  lemma OneAttached(d: nat, o: Order, now: nat, bound: map<Key, nat>)
    requires o.key in bound
    ensures Attached(Submit(d, [o], now), bound)
  {}

  /** A batch that is one part of a put. */
  lemma PartOp(g: Geo, d: nat, o: Order, now: nat, bound: map<Key, nat>, script: Script, crc: Crc)
    requires d < g.devs && OrderOk(o, script) && Stream(o.put.recs) != [] && 1 + |Chunk(o.put, o.part)| <= g.size && o.key in bound
    ensures OpOk(Submit(d, [o], now), g, script, crc) && Ends(Submit(d, [o], now))
    ensures OpRequests(Submit(d, [o], now), bound, crc, bound[o.key]) == [PartRequest(bound[o.key], o.ver, o.put, crc, o.part)]
  {
    var put, p := o.put, o.part;
    if put.kind.Striped? {
      SliceStart(|Stream(put.recs)|, put.kind.unit, Count(put), p);
      P.PagesEmpty(Slice(Stream(put.recs), put.kind.unit, p));
    } else {
      P.PagesEmpty(Stream(put.recs));
    }
    var reqs := Resolved([o], map[], crc);
    assert Offset(reqs, 1) == Offset(reqs, 0) + |reqs[0].pages|;
    var at := Resolved([o], bound, crc);
    assert at == [PartRequest(bound[o.key], o.ver, o.put, crc, o.part)];
    assert at[..0] == [] && For(at, bound[o.key]) == For(at[..0], bound[o.key]) + [at[0]];
  }

  /** The requests of the first `cnt` parts are there. */
  ghost predicate Asked(reqs: seq<Request>, n: nat, ver: nat, put: Put, crc: Crc, cnt: nat)
    requires PutOk(put)
  {
    forall p: nat :: p < cnt && p < Count(put) ==> PartRequest(n, ver, put, crc, p) in reqs
  }

  /**
  A put, part by part, each in a batch of its own to a device of its own, with any other batches
  and collections, of any keys, before, between and behind them.  All its parts end up in the
  history of the key's node behind whatever was there.
  */
  method PutParts(index: Index, store: S.Store, k: Key, path: R.Path, ver: nat, put: Put, crc: Crc, devs: seq<nat>,
                  work: seq<seq<Op>>, now: nat, ghost script: Script) returns (n: nat)
    requires index.Valid() && store.Valid() && |store.nodes| == |index.tree.nodes| && Scripted(store.life, script, crc)
    requires PutOk(put) && Stream(put.recs) != [] && script(ver) == put
    requires |devs| == Count(put) && |work| == Count(put) + 1
    requires forall p :: 0 <= p < Count(put) ==> devs[p] < store.g.devs && 1 + |Chunk(put, p)| <= store.g.size
    requires forall j :: 0 <= j < |work| ==> OpsOk(work[j], store.g, script, crc)
    modifies index, index.tree, index.side, store
    ensures index.Valid() && store.Valid() && |store.nodes| == |index.tree.nodes| && Scripted(store.life, script, crc)
    ensures Grows(old(index.side.bound), index.side.bound) && k in index.side.bound && index.side.bound[k] == n && n < |store.nodes| == |store.life|
    ensures k in index.first && index.first[k] == if k in old(index.first) then old(index.first)[k] else path
    ensures var es, before := store.life[n], Past(old(store.life), n);
            before <= es && Asked(Requests(es[|before|..], n), n, ver, put, crc, Count(put))
  {
    hide S.Store.Valid, Index.Valid, Scripted, OpsOk, PutOk, Stream, Count, Chunk, Requests, PartRequest, Asked;
    n := Attach(index, store, k, path, script, crc);
    ghost var base := store.life[n];
    AskedStart(base, n, ver, put, crc);
    for p := 0 to Count(put)
      invariant index.Valid() && store.Valid() && |store.nodes| == |index.tree.nodes| && Scripted(store.life, script, crc)
      invariant Grows(old(index.side.bound), index.side.bound) && k in index.side.bound && index.side.bound[k] == n
      invariant n < |store.nodes| == |store.life|
      invariant k in index.first && index.first[k] == if k in old(index.first) then old(index.first)[k] else path
      invariant base <= store.life[n] && Asked(Requests(store.life[n][|base|..], n), n, ver, put, crc, p)
    {
      PutPart(index, store, k, path, n, ver, put, crc, p, devs[p], work[p], now, base, script);
    }
    ghost var was := store.life[n];
    var done := Run(index, store, work[Count(put)], crc, script);
    AskedMore(base, was, store.life[n], RunRequests(work[Count(put)][..done], index.side.bound, crc, n), n, ver, put, crc, Count(put));
  }

  /** Other work, and then one part of the put. */
  method PutPart(index: Index, store: S.Store, k: Key, path: R.Path, n: nat, ver: nat, put: Put, crc: Crc, p: nat, d: nat, ops: seq<Op>, now: nat,
                 ghost base: seq<Event>, ghost script: Script)
    requires index.Valid() && store.Valid() && |store.nodes| == |index.tree.nodes| && Scripted(store.life, script, crc)
    requires OpsOk(ops, store.g, script, crc) && k in index.side.bound && index.side.bound[k] == n && k in index.first
    requires n < |store.nodes| == |store.life| && PutOk(put) && Stream(put.recs) != [] && script(ver) == put
    requires p < Count(put) && d < store.g.devs && 1 + |Chunk(put, p)| <= store.g.size
    requires base <= store.life[n] && Asked(Requests(store.life[n][|base|..], n), n, ver, put, crc, p)
    modifies index, index.tree, index.side, store
    ensures index.Valid() && store.Valid() && |store.nodes| == |index.tree.nodes| == |store.life| && Scripted(store.life, script, crc)
    ensures Grows(old(index.side.bound), index.side.bound) && n < |store.life|
    ensures k in index.side.bound && index.side.bound[k] == n && k in index.first && index.first[k] == old(index.first)[k]
    ensures base <= store.life[n] && Asked(Requests(store.life[n][|base|..], n), n, ver, put, crc, p + 1)
  {
    hide S.Store.Valid, Index.Valid, Scripted, OpsOk, OpOk, PutOk, Stream, Count, Chunk, Requests, PartRequest, Asked,
         RunRequests, OpRequests, Ends, Attached;
    ghost var was := store.life[n];
    var done := Run(index, store, ops, crc, script);
    AskedMore(base, was, store.life[n], RunRequests(ops[..done], index.side.bound, crc, n), n, ver, put, crc, p);
    ghost var mid, bound := store.life[n], index.side.bound;
    var o := Order(k, path, ver, put, p);
    PartOp(store.g, d, o, now, bound, script, crc);
    var ok := RunOne(index, store, Submit(d, [o], now), crc, script);
    OneAttached(d, o, now, bound);
    OpRequestsGrow(Submit(d, [o], now), bound, index.side.bound, crc, n);
    AskedNext(base, mid, store.life[n], n, ver, put, crc, p);
  }

  lemma AskedStart(base: seq<Event>, n: nat, ver: nat, put: Put, crc: Crc)
    requires PutOk(put)
    ensures Asked(Requests(base[|base|..], n), n, ver, put, crc, 0)
  {}

  /** What was added to a history came from what was added to its requests. */
  lemma SuffixRequests(base: seq<Event>, es: seq<Event>, es': seq<Event>, more: seq<Request>, n: nat)
    requires base <= es <= es' && Requests(es', n) == Requests(es, n) + more
    ensures Requests(es'[|base|..], n) == Requests(es[|base|..], n) + more
  {
    hide Requests;
    assert es == base + es[|base|..] && es' == base + es'[|base|..];
    RequestsAppend(base, es[|base|..], n);
    RequestsAppend(base, es'[|base|..], n);
    var x, a, b := Requests(base, n), Requests(es'[|base|..], n), Requests(es[|base|..], n);
    assert x + a == x + (b + more);
    assert a == (x + a)[|x|..] && b + more == (x + (b + more))[|x|..];
  }

  lemma AskedMore(base: seq<Event>, es: seq<Event>, es': seq<Event>, more: seq<Request>, n: nat, ver: nat, put: Put, crc: Crc, cnt: nat)
    requires PutOk(put) && base <= es <= es' && Requests(es', n) == Requests(es, n) + more
    requires Asked(Requests(es[|base|..], n), n, ver, put, crc, cnt)
    ensures Asked(Requests(es'[|base|..], n), n, ver, put, crc, cnt)
  {
    hide PartRequest, Requests;
    SuffixRequests(base, es, es', more, n);
  }

  lemma AskedNext(base: seq<Event>, es: seq<Event>, es': seq<Event>, n: nat, ver: nat, put: Put, crc: Crc, p: nat)
    requires PutOk(put) && p < Count(put) && base <= es <= es'
    requires Requests(es', n) == Requests(es, n) + [PartRequest(n, ver, put, crc, p)]
    requires Asked(Requests(es[|base|..], n), n, ver, put, crc, p)
    ensures Asked(Requests(es'[|base|..], n), n, ver, put, crc, p + 1)
  {
    hide PartRequest, Requests;
    var req, reqs := PartRequest(n, ver, put, crc, p), Requests(es[|base|..], n);
    SuffixRequests(base, es, es', [req], n);
    assert (reqs + [req])[|reqs|] == req;
    forall q: nat | q < p && q < Count(put)
      ensures PartRequest(n, ver, put, crc, q) in reqs + [req]
    {
      assert PartRequest(n, ver, put, crc, q) in reqs;
    }
  }

  /** A put whose parts were all asked for, and whose node was not dropped since, is whole. */
  lemma AskedWhole(es: seq<Event>, from: nat, n: nat, ver: nat, script: Script, crc: Crc)
    requires from <= |es| && Keeps(es, script, crc) && PutOk(script(ver))
    requires Asked(Requests(es[from..], n), n, ver, script(ver), crc, Count(script(ver)))
    requires forall i :: from <= i < |es| ==> es[i].Published?
    ensures Whole(Since(es), ver, script(ver), crc)
  {
    hide PutOk, Present, PartRequest, SomePart, Since;
    var put, more := script(ver), es[from..];
    assert es == es[..from] + more;
    SinceMore(es[..from], more);
    assert Keeps(more, script, crc);
    forall p: nat | p < Count(put)
      ensures Present(Since(es), ver, put, crc, p)
    {
      AskedPresent(more, n, ver, script, crc, p);
      PresentLater(Since(es[..from]), more, ver, put, crc, p);
    }
    FirstCounts(put);
  }

  lemma PresentLater(a: seq<Event>, b: seq<Event>, ver: nat, put: Put, crc: Crc, p: nat)
    requires Present(b, ver, put, crc, p)
    ensures Present(a + b, ver, put, crc, p)
  {
    hide IsPart;
    var i :| 0 <= i < |b| && IsPart(b[i], ver, put, crc, p);
    assert (a + b)[|a| + i] == b[i];
  }

  lemma FirstCounts(put: Put)
    requires PutOk(put)
    ensures 0 < Count(put)
  {}

  /**
  The whole way: a put as above, then a get by the path of the put.  If the leaf was not dropped
  since the put began, no newer version came and the put has not expired, devices that return
  what they should give back exactly what was put.
  */
  method PutThenGet(index: Index, store: S.Store, cache: C.Cache, k: Key, path: R.Path, ver: nat, put: Put, crc: Crc, devs: seq<nat>,
                    work: seq<seq<Op>>, now: nat, later: nat, outs: seq<P.Outcome>, behind: seq<byte>,
                    ghost script: Script, ghost truth: P.Truth) returns (n: nat, a: Option<P.Answer>)
    requires index.Valid() && store.Valid() && |store.nodes| == |index.tree.nodes| && Scripted(store.life, script, crc)
    requires cache.Valid() && P.Faithful(cache.history, truth) && truth(k, ver) == put.recs
    requires R.NoZero(path) && (k in index.first ==> index.first[k] == path)
    requires PutOk(put) && Stream(put.recs) != [] && script(ver) == put
    requires |devs| == Count(put) && |work| == Count(put) + 1
    requires forall p :: 0 <= p < Count(put) ==> devs[p] < store.g.devs && 1 + |Chunk(put, p)| <= store.g.size
    requires forall j :: 0 <= j < |work| ==> OpsOk(work[j], store.g, script, crc)
    requires P.AllFill(put, outs)
    modifies index, index.tree, index.side, store, cache, cache.arena
    ensures store.Valid() && n < |store.life|
    ensures var es, before := store.life[n], Past(old(store.life), n);
            && before <= es
            && ((forall i :: |before| <= i < |es| ==> es[i].Published?) && Newest(Since(es), ver)
                && ver != 0 && (put.kind.Striped? || put.expire == 0 || later <= put.expire)
                && (forall p :: 0 <= p < |outs| ==> outs[p].Good?) && (put.kind.Striped? ==> behind == put.slack) ==>
                  a.Some? && P.Exact(a.value, put.recs))
  {
    hide S.Store.Valid, C.Cache.Valid, Index.Valid, Scripted, OpsOk, PutOk, Stream, Count, Chunk, Requests, Asked, P.Exact, P.AllFill,
         P.Faithful, P.Served, P.Deceived, Newest, Since, Fresh, Whole;
    n := PutParts(index, store, k, path, ver, put, crc, devs, work, now, script);
    ghost var es := store.life[n];
    ghost var from := |Past(old(store.life), n)|;
    a := None;
    LeafThere(store, n, ver, put, from, later, script, crc);
    if store.nodes[n].None? || store.nodes[n].value.ver != ver {
      return;
    }
    var l := store.nodes[n].value;
    ScriptBelongs(store, n, script, crc);
    PathLeads(index, k, path);
    var m, hit, astray;
    m, a, hit, astray := GetByPath(index, store, cache, k, path, later, UnitOf(put), crc, outs, behind, script, truth);
    if Whole(Since(es), ver, put, crc) && (forall p :: 0 <= p < |outs| ==> outs[p].Good?) && (put.kind.Striped? ==> behind == put.slack) {
      P.GoodServed(Since(es), ver, put, crc, outs, behind);
    }
  }

  lemma PathLeads(index: Index, k: Key, path: R.Path)
    requires index.Valid() && k in index.side.bound && (k in index.first ==> index.first[k] == path) && R.NoZero(path)
    ensures k in index.first && R.Forward(index.tree.kids) && R.Follow(index.tree.kids, path) == Some(index.side.bound[k])
  {}

  function UnitOf(put: Put): nat {
    if put.kind.Striped? then put.kind.unit else 0
  }

  /** What the history of a put that was not dropped and not replaced says about its leaf. */
  lemma LeafThere(store: S.Store, n: nat, ver: nat, put: Put, from: nat, later: nat, script: Script, crc: Crc)
    requires store.Valid() && Scripted(store.life, script, crc) && n < |store.nodes| && PutOk(put) && script(ver) == put
    requires from <= |store.life[n]| && Asked(Requests(store.life[n][from..], n), n, ver, put, crc, Count(put))
    ensures store.nodes[n].Some? && store.nodes[n].value.ver == ver ==>
              LeafOk(store.nodes[n].value) && (store.nodes[n].value.stripe.Some? <==> put.kind.Striped?)
    ensures var es := store.life[n];
            (forall i :: from <= i < |es| ==> es[i].Published?) && Newest(Since(es), ver) ==>
              && store.nodes[n].Some? && store.nodes[n].value.ver == ver && LeafOk(store.nodes[n].value)
              && Whole(Since(es), ver, put, crc)
              && (ver != 0 ==>
                    (Fresh(store.nodes[n].value, later) <==> put.kind.Striped? || put.expire == 0 || later <= put.expire))
  {
    var es := store.life[n];
    P.NodeTold(store, n);
    assert Keeps(es, script, crc);
    hide S.Store.Valid, PutOk, Stream, Count, Chunk, Requests, Asked, Newest, Since, Fresh, Whole, Live, Keeps, Scripted;
    if store.nodes[n].Some? && store.nodes[n].value.ver == ver {
      LeafScripted(es, script, crc);
      LeafOfPut(es, ver, put, crc);
    }
    if (forall i :: from <= i < |es| ==> es[i].Published?) && Newest(Since(es), ver) {
      NewestLeaf(es, ver, script, crc);
      LeafScripted(es, script, crc);
      AskedWhole(es, from, n, ver, script, crc);
      FirstCounts(put);
      WholeFirst(Since(es), ver, put, crc);
      if ver != 0 {
        Expires(es, ver, put, crc, later);
      }
    }
  }

  lemma WholeFirst(es: seq<Event>, ver: nat, put: Put, crc: Crc)
    requires Whole(es, ver, put, crc) && 0 < Count(put)
    ensures Present(es, ver, put, crc, 0)
  {}

  /** The newest version since the last drop is the version of the leaf. */
  lemma NewestLeaf(es: seq<Event>, ver: nat, script: Script, crc: Crc)
    requires Keeps(es, script, crc) && Newest(Since(es), ver)
    ensures Live(es).leaf.Some? && Live(es).leaf.value.ver == ver
  {
    hide Live, Since, SomePart;
    LiveSince(es);
    KeepsSince(es, script, crc);
    NewestWins(Since(es), script, crc);
  }

  /** A put that is taken starts with one reference for each of its parts. */
  lemma AdmittedParts(put: Put, hot: bool, cfg: A.Config)
    requires |Stream(put.recs)| < B32 && 0 < cfg.unit < B32
    requires put.kind == if A.Large(|Stream(put.recs)|, cfg) then Striped(cfg.unit) else if hot then Hot else Plain
    ensures A.Shares(Lens(put.recs), hot, cfg) == Count(put)
    ensures put.kind.Striped? ==> Covered(|Stream(put.recs)|, cfg.unit, Count(put))
  {
    hide Stream, Lens, Total, PartCount, Covered;
    StreamLength(put.recs);
    if put.kind.Striped? {
      A.SharesCover(Lens(put.recs), hot, cfg);
    }
  }
}
