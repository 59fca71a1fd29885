/**
Runs in which a put has landed and a get cannot have it: the leaf is dropped between the two
slices of a striped put, and the second replica of a hot put comes before the first.
*/
module PutRuns {
  import opened Common
  import opened Chunks
  import opened Leaves
  import opened Geometry
  import opened Batch
  import opened NodeLife
  import opened Puts
  import P = DataPath
  import S = Store

  /** Two pages in slices of one page. */
  const TWO_SLICES: Put := Put([seq(2 * PAGE_SIZE, _ => 1)], 0, Striped(PAGE_SIZE), [])

  /** One byte in two replicas. */
  const HOT_BYTE: Put := Put([[1]], 0, Hot, [])

  lemma TwoSlices()
    ensures PutOk(TWO_SLICES) && Count(TWO_SLICES) == 2 && |Stream(TWO_SLICES.recs)| == 2 * PAGE_SIZE
    ensures |Chunk(TWO_SLICES, 0)| == |Chunk(TWO_SLICES, 1)| == 1
  {
    var put := TWO_SLICES;
    assert put.recs[..0] == [];
    assert |Stream(put.recs)| == |Stream(put.recs[..0])| + |put.recs[0]|;
    assert PartCount(2 * PAGE_SIZE, PAGE_SIZE) == 2;
    assert Slack(2 * PAGE_SIZE) == 0;
  }

  lemma HotByte()
    ensures PutOk(HOT_BYTE) && |Stream(HOT_BYTE.recs)| == 1 && |Chunk(HOT_BYTE, 1)| == 1
  {
    assert HOT_BYTE.recs[..0] == [];
    assert |Stream(HOT_BYTE.recs)| == |Stream(HOT_BYTE.recs[..0])| + |HOT_BYTE.recs[0]|;
  }

  // ----- Histories -----

  /** All slices were published under the version of the leaf, and the leaf has not got the first. */
  lemma SplitHistory(e: Event, f: Event, ver: nat, put: Put, crc: Crc)
    requires PutOk(put) && put.kind.Striped? && Count(put) == 2
    requires IsPart(e, ver, put, crc, 0) && IsPart(f, ver, put, crc, 1)
    ensures var es := [e, Dropped, f];
            && Belongs(es, ver, put, crc) && Present(es, ver, put, crc, 0) && Present(es, ver, put, crc, 1)
            && Live(es).leaf.Some? && Live(es).leaf.value.ver == ver && LeafOk(Live(es).leaf.value)
            && !Whole(Since(es), ver, put, crc)
  {
    hide Stream, Chunk, Checksum, PutOk, PartCount;
    var es := [e, Dropped, f];
    assert es == [e] + [Dropped] + [f];
    assert es[0] == e && es[2] == f;
    assert SomePart(e, ver, put, crc) && SomePart(f, ver, put, crc);
    LiveNext([e] + [Dropped], f);
    LiveNext([e], Dropped);
    LeafOfPut(es, ver, put, crc);
    DropSplits([e], [f], ver, put, crc);
    assert !Present([f], ver, put, crc, 0);
  }

  /** With the second replica only, the first address names no device. */
  lemma SecondOnly(f: Event, ver: nat, put: Put, crc: Crc)
    requires PutOk(put) && put.kind.Hot? && IsPart(f, ver, put, crc, 1)
    ensures Belongs([f], ver, put, crc) && !Present(Since([f]), ver, put, crc, 0)
    ensures var l := Live([f]).leaf;
            l.Some? && l.value.ver == ver && LeafOk(l.value) && l.value.addr[0] == NO_ADDR
  {
    hide Stream, Chunk, Checksum, PutOk, PartCount, Live, Since;
    assert SomePart(f, ver, put, crc);
    FirstPart(f, ver, put, crc, 1);
    LeafOfPut([f], ver, put, crc);
    assert !Present([f], ver, put, crc, 0);
    hide IsPart;
    assert Unused(Live([f]), put, 0);
  }

  /** The first part that is published makes the leaf. */
  lemma FirstPart(f: Event, ver: nat, put: Put, crc: Crc, p: nat)
    requires IsPart(f, ver, put, crc, p)
    ensures Since([f]) == [f] && Live([f]).leaf.Some? && Live([f]).leaf.value.ver == ver
  {
    hide Stream, Chunk, Checksum, PutOk, PartCount;
    assert [] + [f] == [f];
    LiveNext([], f);
    SinceNext([], f);
  }

  // ----- Runs of the store -----

  /** One part of a put in a batch of its own, for a node that has no leaf. */
  method SubmitPart(store: S.Store, d: nat, n: nat, ver: nat, put: Put, crc: Crc, p: nat, now: nat) returns (ghost e: Event)
    requires store.Valid() && d < store.g.devs && n < |store.nodes| && store.nodes[n] == None
    requires PutOk(put) && p < Count(put) && Chunk(put, p) != [] && 1 + |Chunk(put, p)| <= store.g.size
    modifies store
    ensures store.Valid() && |store.nodes| == |old(store.nodes)| && n < |store.life| == |old(store.life)|
    ensures store.life[n] == old(store.life)[n] + [e] && IsPart(e, ver, put, crc, p)
  {
    hide Stream, Chunk, Checksum, PutOk, PartCount, S.Store.Sound, Told;
    var reqs := [PartRequest(n, ver, put, crc, p)];
    assert reqs[..0] == [] && Offset(reqs, 0) == 0 && Offset(reqs, 1) == |Chunk(put, p)|;
    assert store.g.Ok() by {
      GeoOk(store);
    }
    var start := store.SubmitBatch(d, reqs, now, {});
    e := Published(Placed(reqs, 0, d, start, now), reqs[0].pages);
    assert BatchEvents(reqs, n, 0, d, start, now) == [];
    assert BatchEvents(reqs, n, 1, d, start, now) == [] + [e];
    assert AfterBatch(old(store.nodes)[n], old(store.life)[n], store.life[n], [e]);
  }

  lemma GeoOk(store: S.Store)
    requires store.Valid()
    ensures store.g.Ok() && |store.life| == |store.nodes|
  {}

  /**
  Slice 0, a drop of the leaf, slice 1: both slices were published, the leaf has their version,
  and a get with devices that return what they should has no answer.
  */
  method SplitPut(crc: Crc, now: nat) returns (store: S.Store, a: Option<P.Answer>)
    ensures fresh(store) && store.Valid() && |store.life| == |store.nodes| == 1
    ensures var es := store.life[0];
            && |es| == 3 && IsPart(es[0], 1, TWO_SLICES, crc, 0) && es[1] == Dropped && IsPart(es[2], 1, TWO_SLICES, crc, 1)
    ensures store.nodes[0].Some? && store.nodes[0].value.ver == 1
    ensures a == None
  {
    hide Stream, Chunk, Checksum, PutOk, PartCount, S.Store.Sound, Told, IsPart, Live, Since, Whole, P.AllFill;
    TwoSlices();
    store := new S.Store(Geo(1, 2, 8), now);
    var n := store.AddNode();
    ghost var e := SubmitPart(store, 0, 0, 1, TWO_SLICES, crc, 0, now);
    assert store.life[0] == [e];
    PartLeaf(store, e, 1, TWO_SLICES, crc);
    store.LeafDrop(0);
    ghost var f := SubmitPart(store, 0, 0, 1, TWO_SLICES, crc, 1, now);
    assert store.life[0] == [e, Dropped, f];
    SplitHistory(e, f, 1, TWO_SLICES, crc);
    P.NodeTold(store, 0);
    GoodFill();
    a := P.GetStriped(store, 0, PAGE_SIZE, crc, [P.Good, P.Good], [], TWO_SLICES);
  }

  lemma GoodFill()
    requires PutOk(TWO_SLICES) && Count(TWO_SLICES) == 2
    ensures P.AllFill(TWO_SLICES, [P.Good, P.Good])
  {}

  lemma PartLeaf(store: S.Store, e: Event, ver: nat, put: Put, crc: Crc)
    requires store.Valid() && |store.life| == |store.nodes| == 1 && store.life[0] == [e] && IsPart(e, ver, put, crc, 0)
    ensures store.nodes[0].Some?
  {
    hide IsPart, Live, S.Store.Sound;
    P.NodeTold(store, 0);
    FirstPart(e, ver, put, crc, 0);
  }

  /** The second replica first: a get goes astray. */
  method SecondFirst(crc: Crc, now: nat) returns (store: S.Store, a: Option<P.Answer>, astray: bool)
    ensures fresh(store) && store.Valid() && |store.life| == |store.nodes| == 1
    ensures |store.life[0]| == 1 && IsPart(store.life[0][0], 1, HOT_BYTE, crc, 1)
    ensures store.nodes[0].Some? && store.nodes[0].value.ver == 1 && LeafOk(store.nodes[0].value)
    ensures store.nodes[0].value.addr[0] == NO_ADDR && astray
  {
    hide Stream, Chunk, Checksum, PutOk, PartCount, S.Store.Sound, Told, IsPart, Live, Since, Present;
    HotByte();
    store := new S.Store(Geo(1, 2, 8), now);
    var n := store.AddNode();
    ghost var f := SubmitPart(store, 0, 0, 1, HOT_BYTE, crc, 1, now);
    assert store.life[0] == [f];
    SecondOnly(f, 1, HOT_BYTE, crc);
    P.NodeTold(store, 0);
    a, astray := P.GetPlain(store, 0, crc, P.Good, P.Good, HOT_BYTE);
  }
}
