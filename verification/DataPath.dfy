/**
From a put to a get: the pages a put writes, what the leaf says about them, and how a get turns
them back into the records.
*/
module DataPath {
  import opened Common
  import opened Fields
  import opened Leaves
  import opened Geometry
  import opened Regions
  import opened Chunks
  import opened NodeLife
  import opened Puts
  import S = Store
  import D = Dram
  import C = DramCache

  /** What a get returns: a buffer and, for each layer, where its bytes are. */
  datatype Answer = Answer(buf: seq<byte>, recs: seq<D.RecDesc>)

  /** The answer has the bytes that were put, and says for each layer where its own are. */
  predicate Exact(a: Answer, recs: Records) {
    && a.buf == Stream(recs) && |a.recs| == |recs|
    && forall i :: 0 <= i < |recs| ==>
         && a.recs[i].layer == i && a.recs[i].off + a.recs[i].len <= |a.buf|
         && a.buf[a.recs[i].off..a.recs[i].off + a.recs[i].len] == recs[i]
  }

  /** Fill in where each record is; a leaf without a shape cannot be read. */
  method ShapeFill(shape: Option<seq<nat>>) returns (r: Option<seq<D.RecDesc>>)
    ensures r.Some? <==> shape.Some?
    ensures r.Some? ==> |r.value| == Min(|shape.value|, MAX_LAYERS)
    ensures r.Some? ==> forall i :: 0 <= i < |r.value| ==> r.value[i] == D.RecDesc(i, Total(shape.value[..i]), shape.value[i])
  {
    if shape == None {
      return None;
    }
    var lens := shape.value;
    assert Total(lens[..0]) == 0;
    hide Total;
    var n := if |lens| > MAX_LAYERS then MAX_LAYERS else |lens|;
    var out: seq<D.RecDesc>, off := [], 0;
    for i := 0 to n
      invariant |out| == i && off == Total(lens[..i])
      invariant forall j :: 0 <= j < i ==> out[j] == D.RecDesc(j, Total(lens[..j]), lens[j])
    {
      out := out + [D.RecDesc(i, off, lens[i])];
      TotalNext(lens, i);
      off := off + lens[i];
    }
    return Some(out);
  }

  /** The stream, described by the lengths of the records, is exact. */
  lemma FilledExact(buf: seq<byte>, descs: seq<D.RecDesc>, recs: Records)
    requires |recs| <= MAX_LAYERS && buf == Stream(recs) && |descs| == |recs|
    requires forall i :: 0 <= i < |descs| ==> descs[i] == D.RecDesc(i, Total(Lens(recs)[..i]), Lens(recs)[i])
    ensures Exact(Answer(buf, descs), recs)
  {
    hide Stream, Total;
    forall i | 0 <= i < |recs|
      ensures descs[i].off + descs[i].len <= |buf| && buf[descs[i].off..descs[i].off + descs[i].len] == recs[i]
    {
      StreamSlice(recs, i);
    }
  }

  // ----- Reading -----

  /** What the device does on one read: what it should, fail, or return other bytes. */
  datatype Outcome = Good | Fails | Alters(bytes: seq<byte>)

  /** A read that does not fail fills its buffer. */
  predicate Fills(o: Outcome, len: nat) {
    o.Alters? ==> |o.bytes| == len * PAGE_SIZE
  }

  /** What arrives when these pages are read. */
  function Arrived(o: Outcome, pages: seq<Page>): seq<byte> {
    if o.Alters? then o.bytes else Flat(pages)
  }

  /** The leaf of node n and its pages are what the history says. */
  lemma NodeTold(store: S.Store, n: nat)
    requires store.Valid() && n < |store.nodes|
    ensures n < |store.life| && Live(store.life[n]).leaf == store.nodes[n] && PagesTold(Live(store.life[n]), store.payload, n)
  {}

  /** Read one replica and check it. */
  method ReadChunk(store: S.Store, n: nat, slot: nat, crc: Crc, o: Outcome) returns (r: Option<seq<byte>>)
    requires store.Valid() && slot < REPLICAS && Slot(store.nodes, n, slot)
    ensures 0 < store.nodes[n].value.addr[slot].len ==> (n, slot) in store.payload
    ensures var addr := store.nodes[n].value.addr[slot];
            if addr.len == 0 || o.Fails? || crc(Arrived(o, store.payload[(n, slot)])) != addr.crc then r == None
            else r == Some(Arrived(o, store.payload[(n, slot)]))
  {
    var addr := store.nodes[n].value.addr[slot];
    assert At(store.nodes, n, slot) == PartOf(addr);
    if addr.len == 0 {
      return None;
    }
    var pages := store.ReadExtent(n, slot);
    if o.Fails? {
      return None;
    }
    var buf := Arrived(o, pages);
    return if crc(buf) == addr.crc then Some(buf) else None;
  }

  /** Turn a buffer that was read into an answer. */
  method Describe(buf: seq<byte>, shape: Option<seq<nat>>, ghost recs: Records) returns (a: Option<Answer>)
    requires |recs| <= MAX_LAYERS
    ensures a.Some? <==> shape.Some?
    ensures a.Some? && shape.value == Lens(recs) && buf == Stream(recs) ==> Exact(a.value, recs)
  {
    hide Exact, Stream, Total;
    var descs := ShapeFill(shape);
    if descs.None? {
      return None;
    }
    a := Some(Answer(buf, descs.value));
    if shape.value == Lens(recs) && buf == Stream(recs) {
      FilledExact(buf, descs.value, recs);
    }
  }

  /** The read passes the check of a replica. */
  predicate Passes(o: Outcome, put: Put, crc: Crc) {
    !o.Fails? && crc(Arrived(o, PagesOf(Stream(put.recs)))) == Checksum(put, crc)
  }

  /** Other bytes with the right checksum cannot be told from the right ones. */
  predicate Collides(o: Outcome, put: Put, crc: Crc) {
    o.Alters? && crc(o.bytes) == Checksum(put, crc)
  }

  /** Replica p of the leaf is what part p of the put wrote. */
  lemma ReplicaTold(store: S.Store, n: nat, put: Put, crc: Crc, p: nat)
    requires store.Valid() && n < |store.nodes| && store.nodes[n].Some? && PutOk(put) && !put.kind.Striped?
    requires var ver := store.nodes[n].value.ver;
             Belongs(store.life[n], ver, put, crc) && p < REPLICAS
    ensures Slot(store.nodes, n, p)
    ensures var l := store.nodes[n].value;
            && l.stripe == None && l.shape == Some(Lens(put.recs))
            && if Present(Since(store.life[n]), l.ver, put, crc, p) then
                 && l.addr[p].dev != INVALID_DEV && l.addr[p].len == PageCount(|Stream(put.recs)|) && l.addr[p].crc == Checksum(put, crc)
                 && (n, p) in store.payload && store.payload[(n, p)] == PagesOf(Stream(put.recs))
               else l.addr[p] == NO_ADDR
  {
    hide Present, Live, Since, Stream, Checksum, PutOk, PartCount, Belongs, store.Sound, Table.OneOpen;
    var ver := store.nodes[n].value.ver;
    NodeTold(store, n);
    LeafOfPut(store.life[n], ver, put, crc);
    if Present(Since(store.life[n]), ver, put, crc, p) {
      PresentCounted(Since(store.life[n]), ver, put, crc, p);
      assert Filled(Live(store.life[n]), put, crc, p);
    } else {
      assert Unused(Live(store.life[n]), put, p);
    }
  }

  /**
  Read a leaf that is not striped: the first replica and, if that fails, the second.  There is
  an answer exactly if one of the replicas that are there passes its check, and it is exact
  unless a device returned other bytes with the same checksum.  While the first replica is not
  there its address names no device, and the get goes astray: it takes that for an index of the
  table of devices, and nothing is said of what follows.
  */
  method GetPlain(store: S.Store, n: nat, crc: Crc, o0: Outcome, o1: Outcome, ghost put: Put) returns (a: Option<Answer>, astray: bool)
    requires store.Valid() && n < |store.nodes| && store.nodes[n].Some? && PutOk(put) && !put.kind.Striped?
    requires Belongs(store.life[n], store.nodes[n].value.ver, put, crc)
    requires LeafOk(store.nodes[n].value)
    requires Fills(o0, PageCount(|Stream(put.recs)|)) && Fills(o1, PageCount(|Stream(put.recs)|))
    ensures astray <==> !Present(Since(store.life[n]), store.nodes[n].value.ver, put, crc, 0)
    ensures a.Some? <==>
              && !astray && Stream(put.recs) != []
              && (Passes(o0, put, crc)
                  || (Present(Since(store.life[n]), store.nodes[n].value.ver, put, crc, 1) && Passes(o1, put, crc)))
    ensures a.Some? && !Collides(o0, put, crc) && !Collides(o1, put, crc) ==> Exact(a.value, put.recs)
  {
    hide Exact, Stream, Present, Since, Belongs, Flat, PagesOf, store.Sound, Told, Table.OneOpen;
    var l := store.nodes[n].value;
    ReplicaTold(store, n, put, crc, 0);
    ReplicaTold(store, n, put, crc, 1);
    PagesFlat(Stream(put.recs));
    PagesEmpty(Stream(put.recs));
    a, astray := None, l.addr[0].dev == INVALID_DEV;
    if astray {
      return;
    }
    var chunk := ReadChunk(store, n, 0, crc, o0);
    if chunk.None? && l.addr[1].dev != INVALID_DEV {
      chunk := ReadChunk(store, n, 1, crc, o1);
    }
    if chunk.None? {
      return;
    }
    StreamLength(put.recs);
    var buf := chunk.value;
    assert |buf| == PageCount(|Stream(put.recs)|) * PAGE_SIZE;
    a := Describe(buf[..Total(l.shape.value)], l.shape, put.recs);
  }

  lemma PagesEmpty(s: seq<byte>)
    ensures PageCount(|s|) == 0 <==> s == []
  {
    if s == [] {
      WholePages(0);
    }
  }

  /** The bytes of a stripe as they arrive. */
  ghost function Received(put: Put, outs: seq<Outcome>): seq<seq<byte>>
    requires PutOk(put) && |outs| == Count(put)
  {
    seq(|outs|, p requires 0 <= p < |outs| => Arrived(outs[p], Chunk(put, p)))
  }

  ghost predicate AllFill(put: Put, outs: seq<Outcome>)
    requires PutOk(put)
  {
    && |outs| == Slots(put)
    && forall p: nat :: p < |outs| ==> Fills(outs[p], if put.kind.Striped? then |Chunk(put, p)| else PageCount(|Stream(put.recs)|))
  }

  /** What arrives of a stripe is enough to fill the buffer of its stream. */
  lemma ReceivedEnough(put: Put, outs: seq<Outcome>)
    requires PutOk(put) && put.kind.Striped? && AllFill(put, outs)
    ensures Enough(Received(put, outs), |Stream(put.recs)|, put.kind.unit)
  {
    hide Stream, PagesOf, Flat, PartCount;
    var stream, unit := Stream(put.recs), put.kind.unit;
    forall p: nat | p < |outs|
      ensures Cut(|stream|, unit, p) <= |Arrived(outs[p], Chunk(put, p))|
    {
      SliceStart(|stream|, unit, Count(put), p);
      PagesFlat(Slice(stream, unit, p));
      assert Fills(outs[p], |Chunk(put, p)|) && Chunk(put, p) == PagesOf(Slice(stream, unit, p));
    }
  }

  /** The stream that a get puts together from what arrives. */
  ghost function Assembled(put: Put, outs: seq<Outcome>): seq<byte>
    requires PutOk(put) && put.kind.Striped? && AllFill(put, outs)
  {
    ReceivedEnough(put, outs);
    Joined(Received(put, outs), |Stream(put.recs)|, put.kind.unit, Count(put))
  }

  /** If every device returns what it should, that is the stream that was put. */
  lemma GoodAssembled(put: Put, outs: seq<Outcome>)
    requires PutOk(put) && put.kind.Striped? && AllFill(put, outs) && forall p :: 0 <= p < |outs| ==> outs[p].Good?
    ensures Assembled(put, outs) == Stream(put.recs)
  {
    hide Stream, PagesOf, Flat, PartCount, Slice;
    var stream, unit := Stream(put.recs), put.kind.unit;
    ReceivedEnough(put, outs);
    forall p: nat | p < |outs|
      ensures StartsWithSlice(Received(put, outs)[p], stream, unit, p)
    {
      SliceStart(|stream|, unit, Count(put), p);
      SliceRead(stream, unit, p);
    }
    SlicesJoin(Received(put, outs), stream, unit, Count(put));
    assert stream[..|stream|] == stream;
  }

  /** Part p of the leaf is what part p of the put wrote. */
  lemma StripeTold(store: S.Store, n: nat, put: Put, crc: Crc, p: nat)
    requires store.Valid() && n < |store.nodes| && store.nodes[n].Some? && PutOk(put) && put.kind.Striped?
    requires var ver := store.nodes[n].value.ver;
             Belongs(store.life[n], ver, put, crc) && p < Count(put)
    ensures Slot(store.nodes, n, 2 + p)
    ensures var l := store.nodes[n].value;
            && l.stripe.Some? && l.shape == Some(Lens(put.recs)) && l.addr[0].crc == Checksum(put, crc)
            && |l.stripe.value.parts| == Count(put) && l.stripe.value.total == |Stream(put.recs)|
            && At(store.nodes, n, 2 + p) == l.stripe.value.parts[p]
            && if Present(Since(store.life[n]), l.ver, put, crc, p) then
                 && 0 < l.stripe.value.parts[p].len == |Chunk(put, p)|
                 && (n, 2 + p) in store.payload && store.payload[(n, 2 + p)] == Chunk(put, p)
               else l.stripe.value.parts[p] == NO_PART
  {
    hide Present, Live, Since, Stream, Checksum, PartCount, Belongs, store.Sound, Table.OneOpen;
    var ver := store.nodes[n].value.ver;
    NodeTold(store, n);
    LeafOfPut(store.life[n], ver, put, crc);
    if Present(Since(store.life[n]), ver, put, crc, p) {
      SliceStart(|Stream(put.recs)|, put.kind.unit, Count(put), p);
      PagesEmpty(Slice(Stream(put.recs), put.kind.unit, p));
      assert Filled(Live(store.life[n]), put, crc, p);
    } else {
      assert Unused(Live(store.life[n]), put, p);
    }
  }

  /** An extent with pages is on a device and not at page 0. */
  lemma OnDevice(store: S.Store, n: nat, a: nat)
    requires store.Valid() && Slot(store.nodes, n, a) && 0 < At(store.nodes, n, a).len
    ensures At(store.nodes, n, a).dev < store.g.devs && At(store.nodes, n, a).page != 0
  {
    assert store.T().Home(At(store.nodes, n, a));
  }

  /** Read all parts of a stripe: a part that is not there, or that cannot be read, fails all. */
  method ReadParts(store: S.Store, n: nat, outs: seq<Outcome>, crc: Crc, ghost put: Put) returns (r: Option<seq<seq<byte>>>)
    requires store.Valid() && n < |store.nodes| && store.nodes[n].Some? && PutOk(put) && put.kind.Striped?
    requires Belongs(store.life[n], store.nodes[n].value.ver, put, crc) && AllFill(put, outs)
    ensures r.Some? <==>
              Whole(Since(store.life[n]), store.nodes[n].value.ver, put, crc) && forall p :: 0 <= p < |outs| ==> !outs[p].Fails?
    ensures r.Some? ==> r.value == Received(put, outs)
  {
    hide store.Sound, Told, Stream, Present, Since, Belongs, PartCount, Checksum, Chunk;
    var l := store.nodes[n].value;
    ghost var es := Since(store.life[n]);
    StripeTold(store, n, put, crc, 0);
    var pieces: seq<seq<byte>> := [];
    for p := 0 to |l.stripe.value.parts|
      invariant |pieces| == p <= Count(put)
      invariant forall q: nat :: q < p ==> Present(es, l.ver, put, crc, q) && !outs[q].Fails? && pieces[q] == Arrived(outs[q], Chunk(put, q))
    {
      var x := l.stripe.value.parts[p];
      StripeTold(store, n, put, crc, p);
      if Present(es, l.ver, put, crc, p) {
        OnDevice(store, n, 2 + p);
      }
      if x.dev >= store.g.devs || x.page == 0 {
        return None;
      }
      if outs[p].Fails? {
        return None;
      }
      var pages := store.ReadExtent(n, 2 + p);
      pieces := pieces + [Arrived(outs[p], pages)];
    }
    return Some(pieces);
  }

  /** Bytes that differ from the stream that was put, but pass its check. */
  ghost predicate StripeCollides(put: Put, outs: seq<Outcome>, crc: Crc, behind: seq<byte>)
    requires PutOk(put) && put.kind.Striped? && AllFill(put, outs)
  {
    Assembled(put, outs) != Stream(put.recs) && crc(Assembled(put, outs) + behind) == Checksum(put, crc)
  }

  /**
  Read a striped leaf.  The checksum covers whole pages of the stream's buffer, so it takes in
  the bytes behind its end: those behind the buffer of the put and those behind the buffer of
  this get.  There is an answer exactly if every part was published since the last drop, every
  part can be read and the checksum of what arrived, with what is behind it, is right.
  */
  method GetStriped(store: S.Store, n: nat, unit: nat, crc: Crc, outs: seq<Outcome>, behind: seq<byte>, ghost put: Put)
    returns (a: Option<Answer>)
    requires store.Valid() && n < |store.nodes| && store.nodes[n].Some? && PutOk(put) && put.kind == Striped(unit)
    requires Belongs(store.life[n], store.nodes[n].value.ver, put, crc) && AllFill(put, outs)
    ensures a.Some? <==>
              && Whole(Since(store.life[n]), store.nodes[n].value.ver, put, crc)
              && (forall p :: 0 <= p < |outs| ==> !outs[p].Fails?)
              && crc(Assembled(put, outs) + behind) == Checksum(put, crc)
    ensures a.Some? && !StripeCollides(put, outs, crc, behind) ==> Exact(a.value, put.recs)
  {
    hide store.Sound, Told, Stream, Exact, Present, Whole, Since, Belongs, PartCount, Checksum, Chunk, Joined, Enough, Table.OneOpen;
    var l := store.nodes[n].value;
    StripeTold(store, n, put, crc, 0);
    var pieces := ReadParts(store, n, outs, crc, put);
    if pieces.None? {
      return None;
    }
    ReceivedEnough(put, outs);
    var stream := Reassemble(pieces.value, l.stripe.value.total, unit);
    if crc(stream + behind) != l.addr[0].crc {
      return None;
    }
    a := Describe(stream, l.shape, put.recs);
  }

  lemma WholePages(len: nat)
    requires len % PAGE_SIZE == 0
    ensures Slack(len) == 0
  {
    ModUnique(len / PAGE_SIZE, PAGE_SIZE - 1, PAGE_SIZE, len + PAGE_SIZE - 1);
  }

  /** A stream that fills its last page passes its check whenever the devices return what they should. */
  lemma WholePagesPass(put: Put, outs: seq<Outcome>, crc: Crc, behind: seq<byte>)
    requires PutOk(put) && put.kind.Striped? && AllFill(put, outs) && forall p :: 0 <= p < |outs| ==> outs[p].Good?
    requires |Stream(put.recs)| % PAGE_SIZE == 0 && |behind| == Slack(|Stream(put.recs)|)
    ensures crc(Assembled(put, outs) + behind) == Checksum(put, crc)
  {
    GoodAssembled(put, outs);
    WholePages(|Stream(put.recs)|);
    assert behind == put.slack;
  }

  /** A stream that does not fill its last page can fail its own check. */
  lemma SlackDecides(stream: seq<byte>, crc: Crc, x: seq<byte>, y: seq<byte>)
    requires |x| == |y| == Slack(|stream|) && crc(stream + x) != crc(stream + y)
    ensures |stream| % PAGE_SIZE != 0 && x != y
  {
    if |stream| % PAGE_SIZE == 0 {
      WholePages(|stream|);
    }
  }

  // ----- Through the read cache -----

  /** The records of each version of each key. */
  type Truth = (Key, nat) -> Records

  /** Whatever was put into the read cache under a key and a version is right for them. */
  ghost predicate Faithful(history: set<(Key, D.Value)>, truth: Truth) {
    forall h :: h in history ==> Exact(Answer(h.1.data, h.1.recs), truth(h.0, h.1.ver))
  }

  /** The cache has a value of that version for the key, and it has not expired. */
  ghost predicate Remembers(ents: D.Entries, k: Key, ver: nat, now: nat) {
    exists v :: D.Cached(ents, k, v) && v.ver == ver && (v.expire == 0 || now <= v.expire)
  }

  /** The cache has a value of that or a later version for the key. */
  ghost predicate Supersedes(ents: D.Entries, k: Key, ver: nat) {
    exists v :: D.Cached(ents, k, v) && ver <= v.ver
  }

  /** The cache is large enough for an answer. */
  predicate Holds(cache: C.Cache, a: Answer) {
    var size := D.ENTRY_HEADER + D.RECORD_SIZE * |a.recs| + |a.buf|;
    a.buf != [] && size <= cache.entryMax && size <= cache.budget
  }

  /** It is a hit exactly if the cache has that version; no other is served, and what is served is exact. */
  method ServeCached(cache: C.Cache, k: Key, ver: nat, now: nat, ghost truth: Truth) returns (a: Option<Answer>)
    requires cache.Valid() && Faithful(cache.history, truth)
    modifies cache
    ensures cache.Valid() && cache.history == old(cache.history)
    ensures a.Some? ==> Exact(a.value, truth(k, ver))
    ensures a.Some? <==> Remembers(old(cache.ents), k, ver, now)
    ensures forall k', w :: D.Cached(cache.ents, k', w) <==> D.Cached(old(cache.ents), k', w)
  {
    hide Exact, D.Cached;
    var hit := cache.Get(k, ver, now);
    if hit.None? {
      return None;
    }
    assert D.Cached(old(cache.ents), k, hit.value);
    return Some(Answer(hit.value.data, hit.value.recs));
  }

  /** Keep an answer in the read cache. */
  method Remember(cache: C.Cache, k: Key, ver: nat, expire: nat, a: Answer, ghost truth: Truth)
    requires cache.Valid() && Faithful(cache.history, truth)
    modifies cache, cache.arena
    ensures cache.Valid() && (Exact(a, truth(k, ver)) ==> Faithful(cache.history, truth))
    ensures if Holds(cache, a) && !Supersedes(old(cache.ents), k, ver) then D.Cached(cache.ents, k, D.Value(ver, expire, a.buf, a.recs))
            else cache.ents == old(cache.ents)
  {
    hide Exact, D.UniqueKeys, D.Owned, D.Agreed, D.TotalBytes, D.Recorded, D.Cached, Faithful;
    var v := D.Value(ver, expire, a.buf, a.recs);
    if Exact(a, truth(k, ver)) {
      FaithfulAdd(cache.history, k, v, truth);
    }
    var r := cache.Put(k, v);
  }

  lemma FaithfulAdd(history: set<(Key, D.Value)>, k: Key, v: D.Value, truth: Truth)
    requires Faithful(history, truth) && Exact(Answer(v.data, v.recs), truth(k, v.ver))
    ensures Faithful(history + {(k, v)}, truth)
  {}

  /** The devices can serve the put. */
  ghost predicate Served(es: seq<Event>, ver: nat, put: Put, crc: Crc, outs: seq<Outcome>, behind: seq<byte>)
    requires PutOk(put) && AllFill(put, outs)
  {
    if put.kind.Striped? then
      && Whole(es, ver, put, crc) && (forall p :: 0 <= p < |outs| ==> !outs[p].Fails?)
      && crc(Assembled(put, outs) + behind) == Checksum(put, crc)
    else
      && Stream(put.recs) != [] && Present(es, ver, put, crc, 0)
      && (Passes(outs[0], put, crc) || (Present(es, ver, put, crc, 1) && Passes(outs[1], put, crc)))
  }

  /** Some device returned other bytes that pass the check. */
  ghost predicate Deceived(put: Put, crc: Crc, outs: seq<Outcome>, behind: seq<byte>)
    requires PutOk(put) && AllFill(put, outs)
  {
    if put.kind.Striped? then StripeCollides(put, outs, crc, behind)
    else Collides(outs[0], put, crc) || Collides(outs[1], put, crc)
  }

  /**
  A whole get of a node that has a leaf: the read cache first, then the devices, and what was
  read is remembered.  There is an answer exactly if the leaf has not expired and the cache has
  it or the devices can serve the put of the leaf's version; unless a device returned other
  bytes that pass the check, the answer is exactly what was put.  It goes astray exactly if it
  comes to the devices for a leaf that is not striped and has no first replica.
  */
  method Get(store: S.Store, cache: C.Cache, n: nat, k: Key, now: nat, unit: nat, crc: Crc, outs: seq<Outcome>, behind: seq<byte>,
             ghost put: Put, ghost truth: Truth) returns (a: Option<Answer>, hit: bool, astray: bool)
    requires store.Valid() && cache.Valid() && Faithful(cache.history, truth)
    requires n < |store.nodes| && store.nodes[n].Some? && LeafOk(store.nodes[n].value)
    requires PutOk(put) && Belongs(store.life[n], store.nodes[n].value.ver, put, crc) && AllFill(put, outs)
    requires truth(k, store.nodes[n].value.ver) == put.recs
    requires put.kind.Striped? ==> put.kind.unit == unit
    modifies cache, cache.arena
    ensures cache.Valid()
    ensures hit ==> a.Some?
    ensures a.Some? <==>
              && Fresh(store.nodes[n].value, now)
              && (hit || Served(Since(store.life[n]), store.nodes[n].value.ver, put, crc, outs, behind))
    ensures hit <==> Fresh(store.nodes[n].value, now) && Remembers(old(cache.ents), k, store.nodes[n].value.ver, now)
    ensures a.Some? && !hit && Holds(cache, a.value) && !Supersedes(old(cache.ents), k, store.nodes[n].value.ver) ==>
              D.Cached(cache.ents, k, D.Value(store.nodes[n].value.ver, store.nodes[n].value.addr[0].expire, a.value.buf, a.value.recs))
    ensures astray <==>
              && Fresh(store.nodes[n].value, now) && !hit && !put.kind.Striped?
              && !Present(Since(store.life[n]), store.nodes[n].value.ver, put, crc, 0)
    ensures !Deceived(put, crc, outs, behind) ==> Faithful(cache.history, truth) && (a.Some? ==> Exact(a.value, put.recs))
  {
    hide S.Store.Valid, C.Cache.Valid, Stream, Exact, Faithful, Whole, Present, Since, Belongs, Assembled, Checksum, PutOk, AllFill, StripeCollides;
    var l := store.nodes[n].value;
    hit, astray := false, false;
    if l.ver == 0 || (l.addr[0].expire != 0 && l.addr[0].expire < now) {
      return None, false, false;
    }
    a := ServeCached(cache, k, l.ver, now, truth);
    SameSupersedes(old(cache.ents), cache.ents, k, l.ver);
    if a.Some? {
      return a, true, false;
    }
    KindTold(store, n, put, crc, outs);
    if l.stripe.Some? {
      a := GetStriped(store, n, unit, crc, outs, behind, put);
    } else {
      a, astray := GetPlain(store, n, crc, outs[0], outs[1], put);
    }
    if a.Some? {
      Remember(cache, k, l.ver, l.addr[0].expire, a.value, truth);
    }
  }

  lemma SameSupersedes(a: D.Entries, b: D.Entries, k: Key, ver: nat)
    requires forall k', w :: D.Cached(b, k', w) <==> D.Cached(a, k', w)
    ensures Supersedes(a, k, ver) <==> Supersedes(b, k, ver)
  {
    hide D.Cached;
  }

  lemma KindTold(store: S.Store, n: nat, put: Put, crc: Crc, outs: seq<Outcome>)
    requires store.Valid() && n < |store.nodes| && store.nodes[n].Some? && PutOk(put) && AllFill(put, outs)
    requires Belongs(store.life[n], store.nodes[n].value.ver, put, crc)
    ensures store.nodes[n].value.stripe.Some? <==> put.kind.Striped?
    ensures !put.kind.Striped? ==>
              |outs| == 2 && Fills(outs[0], PageCount(|Stream(put.recs)|)) && Fills(outs[1], PageCount(|Stream(put.recs)|))
  {
    if put.kind.Striped? {
      StripeTold(store, n, put, crc, 0);
    } else {
      ReplicaTold(store, n, put, crc, 0);
    }
  }

  /**
  With a checksum that looks at the second byte, a stream of one byte cannot be read although
  all of it is there and every device returns what it should: the byte behind the buffer of the
  put was 0 and the one behind the buffer of the get is 1.
  */
  lemma SlackFails(es: seq<Event>, ver: nat) returns (put: Put, crc: Crc, behind: seq<byte>)
    ensures PutOk(put) && put.kind.Striped? && AllFill(put, [Good]) && |behind| == |put.slack|
    ensures !Served(es, ver, put, crc, [Good], behind) && !Deceived(put, crc, [Good], behind)
    ensures Served(es, ver, put, crc, [Good], put.slack) <==> Whole(es, ver, put, crc)
  {
    crc := (s: seq<byte>) => if |s| > 1 then s[1] as nat else 0;
    put := Put([[1]], 0, Striped(PAGE_SIZE), Zeros(Slack(1)));
    behind := [1] + Zeros(Slack(1) - 1);
    assert put.recs[..0] == [] && Stream(put.recs[..0]) == [];
    assert Stream(put.recs) == [1];
    ModUnique(1, 0, PAGE_SIZE, PAGE_SIZE);
    assert Count(put) == 1 && Slack(1) == PAGE_SIZE - 1;
    GoodAssembled(put, [Good]);
    assert ([1] + put.slack)[1] == 0 && ([1] + behind)[1] == 1;
  }

  /** A whole put is served by devices that return what they should, if the bytes behind the stream are the same. */
  lemma GoodServed(es: seq<Event>, ver: nat, put: Put, crc: Crc, outs: seq<Outcome>, behind: seq<byte>)
    requires PutOk(put) && AllFill(put, outs) && forall p :: 0 <= p < |outs| ==> outs[p].Good?
    requires Whole(es, ver, put, crc) && Stream(put.recs) != [] && (put.kind.Striped? ==> behind == put.slack)
    ensures Served(es, ver, put, crc, outs, behind) && !Deceived(put, crc, outs, behind)
  {
    if put.kind.Striped? {
      GoodAssembled(put, outs);
    } else {
      assert Present(es, ver, put, crc, 0);
    }
  }
}
