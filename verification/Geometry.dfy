/**
Regions of the devices, the extents that leaves occupy in them, and the facts about
extents that the store needs: byte counts, placement and disjointness.
*/
module Geometry {
  import opened Common
  import opened Leaves

  /** The two superblock pages come first on every device. */
  const REGION_BASE: nat := 2

  datatype Geo = Geo(devs: nat, regions: nat, size: nat) {
    predicate Ok() {
      1 <= devs < INVALID_DEV && 2 <= regions && 2 <= size
    }

    function Base(r: nat): (b: nat)
      ensures REGION_BASE <= b
    {
      REGION_BASE + r * size
    }

    function RegionOf(page: nat): nat
      requires REGION_BASE <= page && 0 < size
    {
      (page - REGION_BASE) / size
    }

    /** A page lies in region r exactly when it lies between the base of r and its end. */
    lemma RegionOfPage(r: nat, page: nat)
      requires 0 < size && REGION_BASE <= page
      ensures RegionOf(page) == r <==> Base(r) <= page < Base(r) + size
    {
      var x := page - REGION_BASE;
      if Base(r) <= page < Base(r) + size {
        ModUnique(r, x - r * size, size, x);
      }
    }

    /** Different regions share no page. */
    lemma RegionsApart(r: nat, q: nat)
      requires 0 < size && r != q
      ensures Base(r) + size <= Base(q) || Base(q) + size <= Base(r)
    {
      assert Base(q) - Base(r) == (q - r) * size;
      MulBound(q - r, size);
    }

    /** Bytes that extent p contributes to region r of device d. */
    function Share(p: Part, d: nat, r: nat): nat
      requires 0 < size
    {
      if p.dev == d && REGION_BASE <= p.page && RegionOf(p.page) == r then p.len * PAGE_SIZE else 0
    }

    function ShareAll(ps: seq<Part>, d: nat, r: nat): nat
      requires 0 < size
    {
      if ps == [] then 0 else ShareAll(ps[..|ps| - 1], d, r) + Share(ps[|ps| - 1], d, r)
    }

    /** Some extent of the leaf starts in region r of device d. */
    predicate Touches(l: Leaf, d: nat, r: nat)
      requires LeafOk(l)
    {
      exists a :: 0 <= a < |Extents(l)| && Extents(l)[a].dev == d && Base(r) <= Extents(l)[a].page < Base(r) + size
    }

    function LeafShare(l: Option<Leaf>, d: nat, r: nat): nat
      requires 0 < size
      requires l.Some? ==> LeafOk(l.value)
    {
      if l.None? then 0 else ShareAll(Extents(l.value), d, r)
    }

    /** What recomputation from the leaves gives for region r of device d. */
    function Total(nodes: seq<Option<Leaf>>, d: nat, r: nat): nat
      requires 0 < size && NodesOk(nodes)
    {
      if nodes == [] then 0 else Total(nodes[..|nodes| - 1], d, r) + LeafShare(nodes[|nodes| - 1], d, r)
    }

    lemma {:induction false} ShareUpdate(ps: seq<Part>, i: nat, p: Part, d: nat, r: nat)
      requires 0 < size && i < |ps|
      ensures ShareAll(ps[i := p], d, r) + Share(ps[i], d, r) == ShareAll(ps, d, r) + Share(p, d, r)
    {
      var n := |ps| - 1;
      if i == n {
        assert ps[i := p][..n] == ps[..n];
      } else {
        assert ps[i := p][..n] == ps[..n][i := p];
        ShareUpdate(ps[..n], i, p, d, r);
      }
    }

    /** A sum in which only extent i can be non-empty. */
    lemma {:induction false} ShareSingle(ps: seq<Part>, i: nat, d: nat, r: nat)
      requires 0 < size && i < |ps|
      requires forall j :: 0 <= j < |ps| && j != i ==> ps[j].len == 0
      ensures ShareAll(ps, d, r) == Share(ps[i], d, r)
    {
      ShareEmpty(ps[i := ps[i].(len := 0)], d, r);
      ShareUpdate(ps, i, ps[i].(len := 0), d, r);
    }

    lemma {:induction false} ShareEmpty(ps: seq<Part>, d: nat, r: nat)
      requires 0 < size
      requires forall j :: 0 <= j < |ps| ==> ps[j].len == 0
      ensures ShareAll(ps, d, r) == 0
    {
      if ps != [] {
        ShareEmpty(ps[..|ps| - 1], d, r);
      }
    }

    lemma {:induction false} TotalUpdate(nodes: seq<Option<Leaf>>, n: nat, l: Option<Leaf>, d: nat, r: nat)
      requires 0 < size && NodesOk(nodes) && n < |nodes| && (l.Some? ==> LeafOk(l.value))
      ensures NodesOk(nodes[n := l])
      ensures Total(nodes[n := l], d, r) + LeafShare(nodes[n], d, r) == Total(nodes, d, r) + LeafShare(l, d, r)
    {
      var m := |nodes| - 1;
      if n == m {
        assert nodes[n := l][..m] == nodes[..m];
      } else {
        assert nodes[n := l][..m] == nodes[..m][n := l];
        TotalUpdate(nodes[..m], n, l, d, r);
      }
    }

    lemma {:induction false} ShareMember(ps: seq<Part>, i: nat, d: nat, r: nat)
      requires 0 < size && i < |ps|
      ensures Share(ps[i], d, r) <= ShareAll(ps, d, r)
    {
      if i < |ps| - 1 {
        ShareMember(ps[..|ps| - 1], i, d, r);
      }
    }

    /** If a region counts no live byte, no extent of any leaf lies in it. */
    lemma {:induction false} ZeroTotal(nodes: seq<Option<Leaf>>, n: nat, a: nat, d: nat, r: nat)
      requires 0 < size && NodesOk(nodes) && Slot(nodes, n, a)
      requires Total(nodes, d, r) == 0
      ensures Share(At(nodes, n, a), d, r) == 0
    {
      var m := |nodes| - 1;
      if n == m {
        ShareMember(Extents(nodes[m].value), a, d, r);
      } else {
        assert nodes[..m][n] == nodes[n];
        ZeroTotal(nodes[..m], n, a, d, r);
      }
    }
  }

  /** No extent of the index lies in region r of device d. */
  ghost predicate Vacant(g: Geo, nodes: seq<Option<Leaf>>, d: nat, r: nat)
    requires 0 < g.size
  {
    forall n: nat, a: nat :: Slot(nodes, n, a) ==> g.Share(At(nodes, n, a), d, r) == 0
  }

  /** A region counts no live byte exactly when it is vacant. */
  lemma VacantTotal(g: Geo, nodes: seq<Option<Leaf>>, d: nat, r: nat)
    requires 0 < g.size && NodesOk(nodes)
    ensures Vacant(g, nodes, d, r) <==> g.Total(nodes, d, r) == 0
  {
    if g.Total(nodes, d, r) == 0 {
      forall n: nat, a: nat | Slot(nodes, n, a)
        ensures g.Share(At(nodes, n, a), d, r) == 0
      {
        g.ZeroTotal(nodes, n, a, d, r);
      }
    } else if Vacant(g, nodes, d, r) {
      VacantZero(g, nodes, d, r);
    }
  }

  lemma {:induction false} VacantZero(g: Geo, nodes: seq<Option<Leaf>>, d: nat, r: nat)
    requires 0 < g.size && NodesOk(nodes) && Vacant(g, nodes, d, r)
    ensures g.Total(nodes, d, r) == 0
  {
    if nodes != [] {
      var m := |nodes| - 1;
      forall n: nat, a: nat | Slot(nodes[..m], n, a)
        ensures g.Share(At(nodes[..m], n, a), d, r) == 0
      {
        assert Slot(nodes, n, a) && At(nodes, n, a) == At(nodes[..m], n, a);
      }
      VacantZero(g, nodes[..m], d, r);
      if nodes[m].Some? {
        var ps := Extents(nodes[m].value);
        forall a: nat | a < |ps|
          ensures g.Share(ps[a], d, r) == 0
        {
          assert Slot(nodes, m, a) && At(nodes, m, a) == ps[a];
        }
        AllZero(g, ps, d, r);
      }
    }
  }

  lemma {:induction false} AllZero(g: Geo, ps: seq<Part>, d: nat, r: nat)
    requires 0 < g.size
    requires forall a: nat :: a < |ps| ==> g.Share(ps[a], d, r) == 0
    ensures g.ShareAll(ps, d, r) == 0
  {
    if ps != [] {
      AllZero(g, ps[..|ps| - 1], d, r);
    }
  }

  // ----- Extents of leaves -----

  /** Both replica slots, then the stripe parts; unused ones have length 0. */
  function Extents(l: Leaf): (ps: seq<Part>)
    requires LeafOk(l)
    ensures |ps| >= 2
  {
    [PartOf(l.addr[0]), PartOf(l.addr[1])] + if l.stripe.Some? then l.stripe.value.parts else []
  }

  predicate NodesOk(nodes: seq<Option<Leaf>>) {
    forall n :: 0 <= n < |nodes| && nodes[n].Some? ==> LeafOk(nodes[n].value)
  }

  /** Extent a of node n exists. */
  predicate Slot(nodes: seq<Option<Leaf>>, n: nat, a: nat) {
    n < |nodes| && nodes[n].Some? && LeafOk(nodes[n].value) && a < |Extents(nodes[n].value)|
  }

  function At(nodes: seq<Option<Leaf>>, n: nat, a: nat): Part
    requires Slot(nodes, n, a)
  {
    Extents(nodes[n].value)[a]
  }

  predicate Overlap(p: Part, q: Part) {
    p.dev == q.dev && p.page < q.page + q.len && q.page < p.page + p.len
  }

  /** The byte counters accept the page of p: they ignore it, or have an entry for its region. */
  predicate Countable(g: Geo, p: Part)
    requires 0 < g.size
  {
    p.page < REGION_BASE || (p.dev < g.devs && g.RegionOf(p.page) < g.regions)
  }

  ghost predicate Counted(g: Geo, nodes: seq<Option<Leaf>>)
    requires 0 < g.size
  {
    forall n: nat, a: nat :: Slot(nodes, n, a) ==> Countable(g, At(nodes, n, a))
  }

  /** No two extents of the index share a page. */
  ghost predicate Disjoint(nodes: seq<Option<Leaf>>) {
    forall n: nat, a: nat, m: nat, b: nat {:trigger Overlap(At(nodes, n, a), At(nodes, m, b))} ::
      Slot(nodes, n, a) && Slot(nodes, m, b) && (n != m || a != b) ==>
      At(nodes, n, a).len == 0 || At(nodes, m, b).len == 0 || !Overlap(At(nodes, n, a), At(nodes, m, b))
  }

  /** Extent p shares no page with the index. */
  ghost predicate Apart(nodes: seq<Option<Leaf>>, p: Part) {
    forall n: nat, a: nat {:trigger Overlap(At(nodes, n, a), p)} :: Slot(nodes, n, a) && At(nodes, n, a).len > 0 ==> !Overlap(At(nodes, n, a), p)
  }

  // ----- What a publication does to the extents -----

  /** The position of the extent that write w fills. */
  function Position(w: Write): nat {
    if w.striped then 2 + w.idx else w.slot
  }

  predicate WriteOk(w: Write) {
    if w.striped then w.idx < w.cnt else w.slot < REPLICAS
  }

  /** One extent is the new one, every other one was there before or is blank. */
  lemma PublishExtents(was: Option<Leaf>, w: Write, a: nat)
    requires Publishable(was, w) && WriteOk(w) && !Stale(was, w)
    requires a < |Extents(Publish(was, w))|
    ensures Position(w) < |Extents(Publish(was, w))|
    ensures Extents(Publish(was, w))[Position(w)] == PartOf(w.addr)
    ensures InPlace(was, w) ==> Extents(Publish(was, w)) == Extents(was.value)[Position(w) := PartOf(w.addr)]
    ensures !InPlace(was, w) && a != Position(w) ==>
              Extents(Publish(was, w))[a].len == 0 && Extents(Publish(was, w))[a].page == 0
  {}

  /** The bytes of the leaf after a publication. */
  lemma PublishShare(g: Geo, was: Option<Leaf>, w: Write, d: nat, r: nat)
    requires 0 < g.size && Publishable(was, w) && WriteOk(w) && !Stale(was, w)
    ensures InPlace(was, w) ==> Position(w) < |Extents(was.value)|
    ensures g.LeafShare(Some(Publish(was, w)), d, r) ==
            if InPlace(was, w)
            then g.LeafShare(was, d, r) - g.Share(Extents(was.value)[Position(w)], d, r) + g.Share(PartOf(w.addr), d, r)
            else g.Share(PartOf(w.addr), d, r)
  {
    PublishExtents(was, w, 0);
    if InPlace(was, w) {
      g.ShareUpdate(Extents(was.value), Position(w), PartOf(w.addr), d, r);
    } else {
      var ps := Extents(Publish(was, w));
      forall j | 0 <= j < |ps| && j != Position(w)
        ensures ps[j].len == 0
      {
        PublishExtents(was, w, j);
      }
      g.ShareSingle(ps, Position(w), d, r);
    }
  }

  /** Where an extent of the new index comes from. */
  lemma PublishOrigin(nodes: seq<Option<Leaf>>, n: nat, w: Write, m: nat, a: nat)
    requires NodesOk(nodes) && n < |nodes| && Publishable(nodes[n], w) && WriteOk(w) && !Stale(nodes[n], w)
    requires Slot(nodes[n := Some(Publish(nodes[n], w))], m, a)
    ensures var nodes' := nodes[n := Some(Publish(nodes[n], w))];
            || (m == n && a == Position(w) && At(nodes', m, a) == PartOf(w.addr))
            || ((m != n || a != Position(w)) && Slot(nodes, m, a) && At(nodes, m, a) == At(nodes', m, a))
            || (m == n && a != Position(w) && At(nodes', m, a).len == 0 && At(nodes', m, a).page == 0)
  {
    if m == n {
      PublishExtents(nodes[n], w, a);
    }
  }

  /** A publication outside the pages of the index keeps the index disjoint. */
  lemma PublishDisjoint(nodes: seq<Option<Leaf>>, n: nat, w: Write)
    requires NodesOk(nodes) && n < |nodes| && Publishable(nodes[n], w) && WriteOk(w) && !Stale(nodes[n], w)
    requires Disjoint(nodes) && Apart(nodes, PartOf(w.addr))
    ensures Disjoint(nodes[n := Some(Publish(nodes[n], w))])
  {
    var nodes' := nodes[n := Some(Publish(nodes[n], w))];
    forall m: nat, a: nat, k: nat, b: nat | Slot(nodes', m, a) && Slot(nodes', k, b) && (m != k || a != b)
      ensures At(nodes', m, a).len == 0 || At(nodes', k, b).len == 0 || !Overlap(At(nodes', m, a), At(nodes', k, b))
    {
      PublishOrigin(nodes, n, w, m, a);
      PublishOrigin(nodes, n, w, k, b);
      assert Overlap(At(nodes', m, a), At(nodes', k, b)) == Overlap(At(nodes', k, b), At(nodes', m, a));
    }
  }

  lemma PublishCounted(g: Geo, nodes: seq<Option<Leaf>>, n: nat, w: Write)
    requires 0 < g.size && NodesOk(nodes) && n < |nodes| && Publishable(nodes[n], w) && WriteOk(w) && !Stale(nodes[n], w)
    requires Counted(g, nodes) && Countable(g, PartOf(w.addr))
    ensures Counted(g, nodes[n := Some(Publish(nodes[n], w))])
  {
    var nodes' := nodes[n := Some(Publish(nodes[n], w))];
    forall m: nat, a: nat | Slot(nodes', m, a)
      ensures Countable(g, At(nodes', m, a))
    {
      PublishOrigin(nodes, n, w, m, a);
    }
  }

  lemma PublishApart(nodes: seq<Option<Leaf>>, n: nat, w: Write, p: Part)
    requires NodesOk(nodes) && n < |nodes| && Publishable(nodes[n], w) && WriteOk(w) && !Stale(nodes[n], w)
    requires Apart(nodes, p) && !Overlap(PartOf(w.addr), p)
    ensures Apart(nodes[n := Some(Publish(nodes[n], w))], p)
  {
    var nodes' := nodes[n := Some(Publish(nodes[n], w))];
    forall m: nat, a: nat | Slot(nodes', m, a) && At(nodes', m, a).len > 0
      ensures !Overlap(At(nodes', m, a), p)
    {
      PublishOrigin(nodes, n, w, m, a);
    }
  }

  /** Removing a leaf keeps everything said about the remaining extents. */
  lemma DropKeeps(nodes: seq<Option<Leaf>>, n: nat)
    requires NodesOk(nodes) && n < |nodes|
    ensures NodesOk(nodes[n := None])
    ensures forall m: nat, a: nat :: Slot(nodes[n := None], m, a) ==> Slot(nodes, m, a) && At(nodes[n := None], m, a) == At(nodes, m, a)
    ensures Disjoint(nodes) ==> Disjoint(nodes[n := None])
  {
    var nodes' := nodes[n := None];
    assert forall m: nat, a: nat :: Slot(nodes', m, a) ==> Slot(nodes, m, a) && At(nodes', m, a) == At(nodes, m, a);
  }

  /**
  Where a chunk ends up: the chunk written at relative page `next` of region r is counted in
  region r exactly when it is not empty or the region is not full.  An empty chunk behind the
  last page of the last region would be counted outside the region table.
  */
  lemma ChunkRegion(g: Geo, r: nat, next: nat, len: nat)
    requires g.Ok() && r < g.regions && 1 <= next && next + len <= g.size
    ensures g.RegionOf(g.Base(r) + next) == r <==> 0 < len || next < g.size
    ensures len == 0 && next == g.size ==> g.RegionOf(g.Base(r) + next) == r + 1
  {
    g.RegionOfPage(r, g.Base(r) + next);
    if next == g.size {
      assert g.Base(r + 1) == g.Base(r) + g.size;
      g.RegionOfPage(r + 1, g.Base(r) + next);
    }
  }
}
