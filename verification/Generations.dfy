/** Counting frozen regions and live bytes: what the collector looks at. */
module Generations {
  import opened Common
  import opened Leaves
  import opened Geometry
  import opened Regions

  datatype GcConfig = GcConfig(epochSecs: nat, startPct: nat, stopPct: nat, step: nat, minAge: nat) {
    function Start(): nat { if startPct == 0 then 80 else startPct }
    function Stop(): nat { if stopPct == 0 then 70 else stopPct }
    function Step(): nat { if step == 0 then 1 else step }
  }

  /** Region v is the first of the frozen regions but `avoid` with the fewest live bytes. */
  predicate IsVictim(row: seq<Region>, live: seq<int>, v: nat, avoid: nat)
    requires |row| == |live|
  {
    && v < |row| && v != avoid && row[v].state == Frozen
    && forall q :: 0 <= q < |row| && q != avoid && row[q].state == Frozen ==> live[v] <= live[q] && (q < v ==> live[v] < live[q])
  }

  lemma VictimKeeps(row: seq<Region>, row': seq<Region>, live: seq<int>, avoid: nat)
    requires |row| == |row'| == |live|
    requires forall r :: 0 <= r < |row| && r != avoid ==> row'[r] == row[r]
    ensures forall v: nat :: IsVictim(row', live, v, avoid) ==> IsVictim(row, live, v, avoid)
  {}

  function FrozenIn(row: seq<Region>): nat {
    if row == [] then 0 else FrozenIn(row[..|row| - 1]) + if row[|row| - 1].state == Frozen then 1 else 0
  }

  /** How many regions are frozen. */
  function FrozenCount(rg: seq<seq<Region>>): nat {
    if rg == [] then 0 else FrozenCount(rg[..|rg| - 1]) + FrozenIn(rg[|rg| - 1])
  }

  /** A region changed at most from frozen to free. */
  predicate AtMostFreed(x: Region, y: Region) {
    y == x || (x.state == Frozen && y.state == Free)
  }

  ghost predicate OnlyFrees(rg: seq<seq<Region>>, rg': seq<seq<Region>>) {
    && |rg'| == |rg|
    && forall d :: 0 <= d < |rg| ==>
         |rg'[d]| == |rg[d]| && forall r :: 0 <= r < |rg[d]| ==> AtMostFreed(rg[d][r], rg'[d][r])
  }

  lemma {:induction false} FrozenRowDrops(row: seq<Region>, row': seq<Region>)
    requires |row'| == |row| && forall r :: 0 <= r < |row| ==> AtMostFreed(row[r], row'[r])
    ensures FrozenIn(row') <= FrozenIn(row)
    ensures (exists r :: 0 <= r < |row| && row[r] != row'[r]) ==> FrozenIn(row') < FrozenIn(row)
  {
    if row != [] {
      FrozenRowDrops(row[..|row| - 1], row'[..|row| - 1]);
      if exists r :: 0 <= r < |row| - 1 && row[r] != row'[r] {
        var r :| 0 <= r < |row| - 1 && row[r] != row'[r];
        assert row[..|row| - 1][r] != row'[..|row| - 1][r];
      }
    }
  }

  /** Freeing regions lowers the number of frozen ones, strictly if there was a change. */
  lemma {:induction false} FrozenDrops(rg: seq<seq<Region>>, rg': seq<seq<Region>>)
    requires OnlyFrees(rg, rg')
    ensures FrozenCount(rg') <= FrozenCount(rg)
    ensures rg' != rg ==> FrozenCount(rg') < FrozenCount(rg)
  {
    if rg != [] {
      var n := |rg| - 1;
      FrozenDrops(rg[..n], rg'[..n]);
      FrozenRowDrops(rg[n], rg'[n]);
      hide FrozenIn, AtMostFreed;
      if forall r :: 0 <= r < |rg[n]| ==> rg[n][r] == rg'[n][r] {
        assert rg[n] == rg'[n];
      }
      assert rg == rg[..n] + [rg[n]] && rg' == rg'[..n] + [rg'[n]];
    }
  }

  lemma {:induction false} FrozenRowSome(row: seq<Region>)
    ensures FrozenIn(row) > 0 <==> exists r :: 0 <= r < |row| && row[r].state == Frozen
  {
    if row != [] {
      var init := row[..|row| - 1];
      FrozenRowSome(init);
      if FrozenIn(init) > 0 {
        var r :| 0 <= r < |init| && init[r].state == Frozen;
        assert row[r].state == Frozen;
      } else if exists r :: 0 <= r < |row| && row[r].state == Frozen {
        var r :| 0 <= r < |row| && row[r].state == Frozen;
        assert r < |init| ==> init[r].state == Frozen;
      }
    }
  }

  lemma {:induction false} FrozenSome(rg: seq<seq<Region>>)
    ensures FrozenCount(rg) > 0 ==> exists d, r :: 0 <= d < |rg| && 0 <= r < |rg[d]| && rg[d][r].state == Frozen
  {
    if rg != [] {
      var n := |rg| - 1;
      FrozenSome(rg[..n]);
      FrozenRowSome(rg[n]);
      if FrozenCount(rg[..n]) > 0 {
        var d, r :| 0 <= d < n && 0 <= r < |rg[..n][d]| && rg[..n][d][r].state == Frozen;
        assert rg[d][r].state == Frozen;
      }
    }
  }

  lemma OnlyFreesSame(a: seq<seq<Region>>)
    ensures OnlyFrees(a, a)
  {}

  lemma OnlyFreesTransitive(a: seq<seq<Region>>, b: seq<seq<Region>>, c: seq<seq<Region>>)
    requires OnlyFrees(a, b) && OnlyFrees(b, c)
    ensures OnlyFrees(a, c)
  {
    forall d, r | 0 <= d < |a| && 0 <= r < |a[d]|
      ensures AtMostFreed(a[d][r], c[d][r])
    {
      assert AtMostFreed(a[d][r], b[d][r]) && AtMostFreed(b[d][r], c[d][r]);
    }
  }

  // ----- Discarding generations -----

  /** A frozen region old enough to be discarded. */
  predicate Eligible(x: Region, now: nat, minAge: nat) {
    x.state == Frozen && x.epoch != 0 && (minAge == 0 || x.baseTs + minAge <= now)
  }

  ghost predicate NoneEligible(rg: seq<seq<Region>>, now: nat, minAge: nat) {
    forall d, r :: 0 <= d < |rg| && 0 <= r < |rg[d]| ==> !Eligible(rg[d][r], now, minAge)
  }

  /** Epoch e is the lowest one of an eligible region. */
  ghost predicate IsOldest(rg: seq<seq<Region>>, now: nat, minAge: nat, e: nat) {
    && (exists d, r :: 0 <= d < |rg| && 0 <= r < |rg[d]| && Eligible(rg[d][r], now, minAge) && rg[d][r].epoch == e)
    && forall d, r :: 0 <= d < |rg| && 0 <= r < |rg[d]| && Eligible(rg[d][r], now, minAge) ==> e <= rg[d][r].epoch
  }

  /** What becomes of a region when generation e is discarded. */
  function Discarded(x: Region, e: nat): Region {
    if x.state == Frozen && x.epoch == e then Region(Free, 0, x.baseTs, 0) else x
  }

  ghost predicate Discards(rg: seq<seq<Region>>, rg': seq<seq<Region>>, e: nat) {
    && |rg'| == |rg|
    && forall d :: 0 <= d < |rg| ==> |rg'[d]| == |rg[d]| && forall r :: 0 <= r < |rg[d]| ==> rg'[d][r] == Discarded(rg[d][r], e)
  }

  /** The oldest generation is discarded, if there is one. */
  ghost predicate Round(rg: seq<seq<Region>>, rg': seq<seq<Region>>, now: nat, minAge: nat) {
    if NoneEligible(rg, now, minAge) then rg' == rg else exists e :: IsOldest(rg, now, minAge, e) && Discards(rg, rg', e)
  }

  /** The n oldest generations are discarded, or all there are. */
  ghost predicate Rounds(rg: seq<seq<Region>>, rg': seq<seq<Region>>, n: nat, now: nat, minAge: nat)
    decreases n
  {
    if n == 0 then rg' == rg else exists mid :: Rounds(rg, mid, n - 1, now, minAge) && Round(mid, rg', now, minAge)
  }

  /** Without an eligible region further rounds change nothing. */
  lemma {:induction false} RoundsIdle(rg: seq<seq<Region>>, rg': seq<seq<Region>>, n: nat, m: nat, now: nat, minAge: nat)
    requires Rounds(rg, rg', n, now, minAge) && NoneEligible(rg', now, minAge) && n <= m
    ensures Rounds(rg, rg', m, now, minAge)
    decreases m
  {
    if n < m {
      RoundsIdle(rg, rg', n, m - 1, now, minAge);
      assert Round(rg', rg', now, minAge);
    }
  }

  /** A round that finds a generation lowers the number of frozen regions. */
  lemma DiscardsSome(rg: seq<seq<Region>>, rg': seq<seq<Region>>, now: nat, minAge: nat, e: nat)
    requires IsOldest(rg, now, minAge, e) && Discards(rg, rg', e)
    ensures Round(rg, rg', now, minAge) && FrozenCount(rg') < FrozenCount(rg)
  {
    hide FrozenCount;
    var d, r :| 0 <= d < |rg| && 0 <= r < |rg[d]| && Eligible(rg[d][r], now, minAge) && rg[d][r].epoch == e;
    assert rg'[d][r] == Discarded(rg[d][r], e);
    assert OnlyFrees(rg, rg');
    FrozenDrops(rg, rg');
  }

  /** Exactly the leaves that touch a changed region are gone. */
  ghost predicate Purged(g: Geo, nodes: Nodes, rg: seq<seq<Region>>, nodes': Nodes, rg': seq<seq<Region>>)
    requires NodesOk(nodes)
  {
    && |nodes'| == |nodes|
    && forall n :: 0 <= n < |nodes| ==> nodes'[n] == if nodes[n].Some? && Purges(g, nodes[n].value, rg, rg') then None else nodes[n]
  }

  /** The leaf touches a region that is not as it was. */
  ghost predicate Purges(g: Geo, l: Leaf, rg: seq<seq<Region>>, rg': seq<seq<Region>>)
    requires LeafOk(l)
  {
    exists d, r :: 0 <= d < |rg| && 0 <= r < |rg[d]| && d < |rg'| && r < |rg'[d]| && rg'[d][r] != rg[d][r] && g.Touches(l, d, r)
  }

  lemma PurgesTransitive(g: Geo, l: Leaf, a: seq<seq<Region>>, b: seq<seq<Region>>, c: seq<seq<Region>>)
    requires LeafOk(l) && OnlyFrees(a, b) && OnlyFrees(b, c)
    ensures Purges(g, l, a, c) <==> Purges(g, l, a, b) || Purges(g, l, b, c)
  {
    hide Geo.Touches;
    if Purges(g, l, a, b) {
      var d, r :| 0 <= d < |a| && 0 <= r < |a[d]| && b[d][r] != a[d][r] && g.Touches(l, d, r);
      assert AtMostFreed(a[d][r], b[d][r]) && AtMostFreed(b[d][r], c[d][r]);
      assert c[d][r] != a[d][r];
    }
    if Purges(g, l, b, c) {
      var d, r :| 0 <= d < |b| && 0 <= r < |b[d]| && c[d][r] != b[d][r] && g.Touches(l, d, r);
      assert AtMostFreed(a[d][r], b[d][r]) && AtMostFreed(b[d][r], c[d][r]);
      assert c[d][r] != a[d][r];
    }
    if Purges(g, l, a, c) {
      var d, r :| 0 <= d < |a| && 0 <= r < |a[d]| && c[d][r] != a[d][r] && g.Touches(l, d, r);
      assert b[d][r] != a[d][r] || c[d][r] != b[d][r];
    }
  }

  lemma PurgedTransitive(g: Geo, n0: Nodes, a: seq<seq<Region>>, n1: Nodes, b: seq<seq<Region>>, n2: Nodes, c: seq<seq<Region>>)
    requires NodesOk(n0) && NodesOk(n1) && OnlyFrees(a, b) && OnlyFrees(b, c) && Purged(g, n0, a, n1, b) && Purged(g, n1, b, n2, c)
    ensures Purged(g, n0, a, n2, c)
  {
    forall n | 0 <= n < |n0|
      ensures n2[n] == if n0[n].Some? && Purges(g, n0[n].value, a, c) then None else n0[n]
    {
      if n0[n].Some? {
        PurgesTransitive(g, n0[n].value, a, b, c);
      }
    }
  }

  lemma PurgedSame(g: Geo, nodes: Nodes, rg: seq<seq<Region>>)
    requires NodesOk(nodes)
    ensures Purged(g, nodes, rg, nodes, rg)
  {}

  function RowBytes(row: seq<Region>, live: seq<int>): int
    requires |row| == |live|
  {
    if row == [] then 0
    else
      var n := |row| - 1;
      RowBytes(row[..n], live[..n]) + if row[n].state == Free then 0 else live[n]
  }

  /** Live bytes of all regions that are not free. */
  function LiveBytes(rg: seq<seq<Region>>, live: seq<seq<int>>): int
    requires |rg| == |live| && forall d :: 0 <= d < |rg| ==> |rg[d]| == |live[d]|
  {
    if rg == [] then 0
    else
      var n := |rg| - 1;
      LiveBytes(rg[..n], live[..n]) + RowBytes(rg[n], live[n])
  }

  // ----- What the live bytes are -----

  /** Bytes of some extents. */
  function ExtentBytes(ps: seq<Part>): nat {
    if ps == [] then 0 else ExtentBytes(ps[..|ps| - 1]) + ps[|ps| - 1].len * PAGE_SIZE
  }

  /** Bytes of all indexed extents, wherever they lie. */
  function IndexedBytes(nodes: Nodes): nat
    requires NodesOk(nodes)
  {
    if nodes == [] then 0
    else
      var n := |nodes| - 1;
      IndexedBytes(nodes[..n]) + if nodes[n].Some? then ExtentBytes(Extents(nodes[n].value)) else 0
  }

  /** What some extents have in the first `to` regions of device d, and in all regions of the first `to` devices. */
  function RowShare(g: Geo, ps: seq<Part>, d: nat, to: nat): nat
    requires 0 < g.size
  {
    if to == 0 then 0 else RowShare(g, ps, d, to - 1) + g.ShareAll(ps, d, to - 1)
  }

  function GridShare(g: Geo, ps: seq<Part>, to: nat): nat
    requires 0 < g.size
  {
    if to == 0 then 0 else GridShare(g, ps, to - 1) + RowShare(g, ps, to - 1, g.regions)
  }

  /** The same for a whole index. */
  function RowTotal(g: Geo, nodes: Nodes, d: nat, to: nat): nat
    requires 0 < g.size && NodesOk(nodes)
  {
    if to == 0 then 0 else RowTotal(g, nodes, d, to - 1) + g.Total(nodes, d, to - 1)
  }

  function GridTotal(g: Geo, nodes: Nodes, to: nat): nat
    requires 0 < g.size && NodesOk(nodes)
  {
    if to == 0 then 0 else GridTotal(g, nodes, to - 1) + RowTotal(g, nodes, to - 1, g.regions)
  }

  /** One extent is counted once, in its own region. */
  lemma {:induction false} RowOne(g: Geo, ps: seq<Part>, p: Part, d: nat, to: nat)
    requires 0 < g.size
    ensures RowShare(g, ps + [p], d, to) == RowShare(g, ps, d, to) +
            if p.dev == d && REGION_BASE <= p.page && g.RegionOf(p.page) < to then p.len * PAGE_SIZE else 0
  {
    if to > 0 {
      RowOne(g, ps, p, d, to - 1);
      assert (ps + [p])[..|ps|] == ps;
    }
  }

  lemma {:induction false} GridOne(g: Geo, ps: seq<Part>, p: Part, to: nat)
    requires 0 < g.size
    ensures GridShare(g, ps + [p], to) == GridShare(g, ps, to) +
            if p.dev < to && REGION_BASE <= p.page && g.RegionOf(p.page) < g.regions then p.len * PAGE_SIZE else 0
  {
    if to > 0 {
      GridOne(g, ps, p, to - 1);
      RowOne(g, ps, p, to - 1, g.regions);
    }
  }

  lemma {:induction false} RowNone(g: Geo, d: nat, to: nat)
    requires 0 < g.size
    ensures RowShare(g, [], d, to) == 0
  {
    if to > 0 {
      RowNone(g, d, to - 1);
    }
  }

  lemma {:induction false} GridNone(g: Geo, to: nat)
    requires 0 < g.size
    ensures GridShare(g, [], to) == 0
  {
    if to > 0 {
      GridNone(g, to - 1);
      RowNone(g, to - 1, g.regions);
    }
  }

  lemma {:induction false} GridExtents(t: Table, ps: seq<Part>)
    requires t.Ok() && forall a :: 0 <= a < |ps| && ps[a].len > 0 ==> t.Home(ps[a])
    ensures GridShare(t.g, ps, t.g.devs) == ExtentBytes(ps)
  {
    if ps == [] {
      GridNone(t.g, t.g.devs);
    } else {
      var init, p := ps[..|ps| - 1], ps[|ps| - 1];
      GridExtents(t, init);
      GridOne(t.g, init, p, t.g.devs);
      assert ps == init + [p];
    }
  }

  lemma {:induction false} RowNodes(g: Geo, nodes: Nodes, d: nat, to: nat)
    requires 0 < g.size && NodesOk(nodes) && nodes != []
    ensures var n := |nodes| - 1;
            RowTotal(g, nodes, d, to) ==
            RowTotal(g, nodes[..n], d, to) + if nodes[n].Some? then RowShare(g, Extents(nodes[n].value), d, to) else 0
  {
    if to > 0 {
      RowNodes(g, nodes, d, to - 1);
    }
  }

  lemma {:induction false} GridNodes(g: Geo, nodes: Nodes, to: nat)
    requires 0 < g.size && NodesOk(nodes) && nodes != []
    ensures var n := |nodes| - 1;
            GridTotal(g, nodes, to) ==
            GridTotal(g, nodes[..n], to) + if nodes[n].Some? then GridShare(g, Extents(nodes[n].value), to) else 0
  {
    if to > 0 {
      GridNodes(g, nodes, to - 1);
      RowNodes(g, nodes, to - 1, g.regions);
    }
  }

  lemma {:induction false} RowEmpty(g: Geo, d: nat, to: nat)
    requires 0 < g.size
    ensures RowTotal(g, [], d, to) == 0
  {
    if to > 0 {
      RowEmpty(g, d, to - 1);
    }
  }

  lemma {:induction false} GridEmpty(g: Geo, to: nat)
    requires 0 < g.size
    ensures GridTotal(g, [], to) == 0
  {
    if to > 0 {
      GridEmpty(g, to - 1);
      RowEmpty(g, to - 1, g.regions);
    }
  }

  /** All regions together hold every indexed extent once. */
  lemma {:induction false} GridIndexed(t: Table, nodes: Nodes)
    requires t.Ok() && NodesOk(nodes) && t.Housed(nodes)
    ensures GridTotal(t.g, nodes, t.g.devs) == IndexedBytes(nodes)
  {
    if nodes == [] {
      GridEmpty(t.g, t.g.devs);
    } else {
      var n := |nodes| - 1;
      var init := nodes[..n];
      forall m: nat, a: nat | Slot(init, m, a) && At(init, m, a).len > 0
        ensures t.Home(At(init, m, a))
      {
        assert Slot(nodes, m, a) && At(nodes, m, a) == At(init, m, a);
      }
      GridIndexed(t, init);
      GridNodes(t.g, nodes, t.g.devs);
      if nodes[n].Some? {
        var ps := Extents(nodes[n].value);
        forall a: nat | a < |ps| && ps[a].len > 0
          ensures t.Home(ps[a])
        {
          assert Slot(nodes, n, a) && At(nodes, n, a) == ps[a];
        }
        GridExtents(t, ps);
      }
    }
  }

  lemma {:induction false} RowCounted(t: Table, nodes: Nodes, live: seq<seq<int>>, d: nat, to: nat)
    requires t.Ok() && Accounted(t.g, nodes, live) && t.Housed(nodes) && d < t.g.devs && to <= t.g.regions
    ensures RowBytes(t.rg[d][..to], live[d][..to]) == RowTotal(t.g, nodes, d, to)
  {
    if to > 0 {
      RowCounted(t, nodes, live, d, to - 1);
      assert t.rg[d][..to][..to - 1] == t.rg[d][..to - 1] && live[d][..to][..to - 1] == live[d][..to - 1];
      if t.rg[d][to - 1].state == Free {
        t.FreeVacant(nodes, d, to - 1);
        VacantTotal(t.g, nodes, d, to - 1);
      }
    }
  }

  lemma {:induction false} GridCounted(t: Table, nodes: Nodes, live: seq<seq<int>>, to: nat)
    requires t.Ok() && Accounted(t.g, nodes, live) && t.Housed(nodes) && to <= t.g.devs
    ensures LiveBytes(t.rg[..to], live[..to]) == GridTotal(t.g, nodes, to)
  {
    if to > 0 {
      GridCounted(t, nodes, live, to - 1);
      assert t.rg[..to][..to - 1] == t.rg[..to - 1] && live[..to][..to - 1] == live[..to - 1];
      RowCounted(t, nodes, live, to - 1, t.g.regions);
      assert t.rg[to - 1][..t.g.regions] == t.rg[to - 1] && live[to - 1][..t.g.regions] == live[to - 1];
    }
  }

  /** The bytes that the collector compares with its marks are those of the indexed extents, each once. */
  lemma LiveIsIndexed(t: Table, nodes: Nodes, live: seq<seq<int>>)
    requires t.Ok() && Accounted(t.g, nodes, live) && t.Housed(nodes)
    ensures LiveBytes(t.rg, live) == IndexedBytes(nodes)
  {
    GridCounted(t, nodes, live, t.g.devs);
    assert t.rg[..t.g.devs] == t.rg && live[..t.g.devs] == live;
    GridIndexed(t, nodes);
  }
}
