/**
The region table and the write cursors of all devices, and when the extents of the index
lie safely in them.
*/
module Regions {
  import opened Common
  import opened Fields
  import opened Leaves
  import opened Geometry

  datatype RegionState = Free | Open | Frozen
  datatype Region = Region(state: RegionState, epoch: nat, baseTs: nat, closeTs: nat)
  datatype Cursor = Cursor(region: nat, next: nat)

  type Page = seq<byte>
  type Nodes = seq<Option<Leaf>>
  type Disk = map<(nat, nat), Page>
  type Payload = map<(nat, nat), seq<Page>>

  datatype Table = Table(g: Geo, rg: seq<seq<Region>>, cursor: seq<Cursor>) {
    predicate Ok() {
      && g.Ok() && |rg| == |cursor| == g.devs
      && forall d :: 0 <= d < g.devs ==> |rg[d]| == g.regions
    }

    function Set(d: nat, r: nat, x: Region): Table
      requires Ok() && d < g.devs && r < g.regions
    {
      this.(rg := rg[d := rg[d][r := x]])
    }

    function Move(d: nat, c: Cursor): Table
      requires Ok() && d < g.devs
    {
      this.(cursor := cursor[d := c])
    }

    /** Extent p lies in one region that is not free, behind its header and before the cursor. */
    predicate Home(p: Part)
      requires Ok()
    {
      && p.dev < g.devs && REGION_BASE <= p.page
      && var r := g.RegionOf(p.page);
      && r < g.regions
      && g.Base(r) + 1 <= p.page && p.page + p.len <= g.Base(r) + g.size
      && rg[p.dev][r].state != Free
      && (r == cursor[p.dev].region ==> p.page + p.len <= g.Base(r) + cursor[p.dev].next)
    }

    /** A chunk may be published at p: it is counted in the table, and at home unless it is empty. */
    predicate Settled(p: Part)
      requires Ok()
    {
      Countable(g, p) && (0 < p.len ==> Home(p))
    }

    /** Every indexed extent is at home; so no free region holds one. */
    ghost predicate Housed(nodes: Nodes)
      requires Ok()
    {
      forall n: nat, a: nat :: Slot(nodes, n, a) && At(nodes, n, a).len > 0 ==> Home(At(nodes, n, a))
    }

    /** The cursor's region is the one open region of its device. */
    predicate OneOpen()
      requires Ok()
    {
      forall d :: 0 <= d < g.devs ==>
        && cursor[d].region < g.regions
        && 1 <= cursor[d].next <= g.size
        && forall r :: 0 <= r < g.regions ==> (rg[d][r].state == Open <==> r == cursor[d].region)
    }

    /** Between freezing and opening: device d has no open region, the others have theirs. */
    predicate NoneOpen(d: nat)
      requires Ok() && d < g.devs
    {
      && (forall r :: 0 <= r < g.regions ==> rg[d][r].state != Open)
      && forall e :: 0 <= e < g.devs && e != d ==>
           && cursor[e].region < g.regions
           && 1 <= cursor[e].next <= g.size
           && forall r :: 0 <= r < g.regions ==> (rg[e][r].state == Open <==> r == cursor[e].region)
    }

    /** Regions in use carry the epoch in which they were opened, one region an epoch. */
    predicate Dated(epochs: seq<nat>)
      requires Ok() && |epochs| == g.devs
    {
      forall d :: 0 <= d < g.devs ==>
        && (forall r :: 0 <= r < g.regions && rg[d][r].state != Free ==> 1 <= rg[d][r].epoch <= epochs[d])
        && (forall r, q :: 0 <= r < q < g.regions && rg[d][r].state != Free && rg[d][q].state != Free ==>
              rg[d][r].epoch != rg[d][q].epoch)
    }

    lemma OpenDated(epochs: seq<nat>, d: nat, r: nat, x: Region, c: Cursor)
      requires Ok() && |epochs| == g.devs && d < g.devs && r < g.regions
      requires Dated(epochs) && x.epoch == epochs[d] + 1
      ensures Set(d, r, x).Move(d, c).Dated(epochs[d := epochs[d] + 1])
    {}

    lemma FreeDated(epochs: seq<nat>, d: nat, r: nat, x: Region)
      requires Ok() && |epochs| == g.devs && d < g.devs && r < g.regions
      requires Dated(epochs) && x.state == Free
      ensures Set(d, r, x).Dated(epochs)
    {}

    /** A region can be marked free and stay harmless exactly when no extent lies in it. */
    lemma FreeOnlyVacant(nodes: Nodes, d: nat, r: nat, x: Region)
      requires Ok() && Housed(nodes) && d < g.devs && r < g.regions && x.state == Free
      ensures Set(d, r, x).Housed(nodes) <==> Vacant(g, nodes, d, r)
    {
      if Vacant(g, nodes, d, r) {
        forall n: nat, a: nat | Slot(nodes, n, a) && At(nodes, n, a).len > 0
          ensures Set(d, r, x).Home(At(nodes, n, a))
        {
          assert Home(At(nodes, n, a)) && g.Share(At(nodes, n, a), d, r) == 0;
        }
      } else {
        var n: nat, a: nat :| Slot(nodes, n, a) && g.Share(At(nodes, n, a), d, r) != 0;
        assert !Set(d, r, x).Home(At(nodes, n, a));
      }
    }

    /** Changing a region without freeing it disturbs nothing. */
    lemma SetHoused(nodes: Nodes, d: nat, r: nat, x: Region)
      requires Ok() && Housed(nodes) && d < g.devs && r < g.regions && x.state != Free
      ensures Set(d, r, x).Housed(nodes)
    {
      forall n: nat, a: nat | Slot(nodes, n, a) && At(nodes, n, a).len > 0
        ensures Set(d, r, x).Home(At(nodes, n, a))
      {
        assert Home(At(nodes, n, a));
      }
    }

    /** The cursor may move to a vacant region, or onward in its own. */
    lemma MoveHoused(nodes: Nodes, d: nat, c: Cursor)
      requires Ok() && Housed(nodes) && d < g.devs
      requires Vacant(g, nodes, d, c.region) || (c.region == cursor[d].region && cursor[d].next <= c.next)
      ensures Move(d, c).Housed(nodes)
    {
      forall n: nat, a: nat | Slot(nodes, n, a) && At(nodes, n, a).len > 0
        ensures Move(d, c).Home(At(nodes, n, a))
      {
        assert Home(At(nodes, n, a));
        assert Vacant(g, nodes, d, c.region) ==> g.Share(At(nodes, n, a), d, c.region) == 0;
      }
    }

    /** A free region is vacant. */
    lemma FreeVacant(nodes: Nodes, d: nat, r: nat)
      requires Ok() && Housed(nodes) && d < g.devs && r < g.regions && rg[d][r].state == Free
      ensures Vacant(g, nodes, d, r)
    {
      forall n: nat, a: nat | Slot(nodes, n, a)
        ensures g.Share(At(nodes, n, a), d, r) == 0
      {
        assert At(nodes, n, a).len > 0 ==> Home(At(nodes, n, a));
      }
    }

    /** So is a region in which the cursor stands at the start. */
    lemma StartVacant(nodes: Nodes, d: nat)
      requires Ok() && Housed(nodes) && d < g.devs && cursor[d].next == 1
      ensures Vacant(g, nodes, d, cursor[d].region)
    {
      forall n: nat, a: nat | Slot(nodes, n, a)
        ensures g.Share(At(nodes, n, a), d, cursor[d].region) == 0
      {
        assert At(nodes, n, a).len > 0 ==> Home(At(nodes, n, a));
      }
    }

    /** p lies in the region of its device's cursor, at or behind the cursor. */
    predicate Ahead(p: Part)
      requires Ok()
    {
      && p.dev < g.devs
      && var c := cursor[p.dev];
      && c.region < g.regions && 1 <= c.next
      && g.Base(c.region) + c.next <= p.page && p.page + p.len <= g.Base(c.region) + g.size
    }

    lemma AheadDisjoint(q: Part, p: Part)
      requires Ok() && Home(q) && Ahead(p)
      ensures !Overlap(q, p)
    {
      if q.dev == p.dev && g.RegionOf(q.page) != cursor[p.dev].region {
        g.RegionsApart(g.RegionOf(q.page), cursor[p.dev].region);
      }
    }

    /** The pages ahead of a cursor belong to nobody. */
    lemma AheadApart(nodes: Nodes, p: Part)
      requires Ok() && Housed(nodes) && Ahead(p)
      ensures Apart(nodes, p)
    {
      forall n: nat, a: nat | Slot(nodes, n, a) && At(nodes, n, a).len > 0
        ensures !Overlap(At(nodes, n, a), p)
      {
        AheadDisjoint(At(nodes, n, a), p);
      }
    }

    /** Publishing a chunk that is at home keeps the index at home. */
    lemma PublishHoused(nodes: Nodes, n: nat, w: Write)
      requires Ok() && NodesOk(nodes) && n < |nodes| && Publishable(nodes[n], w) && WriteOk(w) && !Stale(nodes[n], w)
      requires Housed(nodes) && Settled(PartOf(w.addr))
      ensures Housed(nodes[n := Some(Publish(nodes[n], w))])
    {
      var nodes' := nodes[n := Some(Publish(nodes[n], w))];
      forall m: nat, a: nat | Slot(nodes', m, a) && At(nodes', m, a).len > 0
        ensures Home(At(nodes', m, a))
      {
        PublishOrigin(nodes, n, w, m, a);
      }
    }
  }

  // ----- Byte counters -----

  /** The counters of every region equal what recomputation from the leaves gives. */
  ghost predicate Accounted(g: Geo, nodes: Nodes, live: seq<seq<int>>) {
    && 0 < g.size && NodesOk(nodes)
    && |live| == g.devs
    && (forall d :: 0 <= d < g.devs ==> |live[d]| == g.regions)
    && forall d, r :: 0 <= d < g.devs && 0 <= r < g.regions ==> live[d][r] == g.Total(nodes, d, r)
  }

  // ----- Device pages -----

  predicate PageStored(disk: Disk, p: Part, pages: seq<Page>, k: nat)
    requires k < |pages|
  {
    (p.dev, p.page + k) in disk && disk[(p.dev, p.page + k)] == pages[k]
  }

  /** The device holds `pages` in extent p. */
  predicate Stored(disk: Disk, p: Part, pages: seq<Page>) {
    |pages| == p.len && forall k: nat :: k < p.len ==> PageStored(disk, p, pages, k)
  }

  /** Every indexed extent holds the pages it was written with. */
  ghost predicate Intact(nodes: Nodes, disk: Disk, payload: Payload) {
    forall n: nat, a: nat :: Slot(nodes, n, a) && At(nodes, n, a).len > 0 ==>
      (n, a) in payload && Stored(disk, At(nodes, n, a), payload[(n, a)])
  }

  /** A page of region r of device d other than its header. */
  predicate DataPage(g: Geo, d: nat, r: nat, key: (nat, nat)) {
    key.0 == d && g.Base(r) + 1 <= key.1 < g.Base(r) + g.size
  }

  /** Discarding the pages of a vacant region loses nothing. */
  lemma TrimIntact(t: Table, nodes: Nodes, disk: Disk, payload: Payload, d: nat, r: nat)
    requires t.Ok() && t.Housed(nodes) && Intact(nodes, disk, payload) && Vacant(t.g, nodes, d, r)
    ensures Intact(nodes, map key | key in disk && !DataPage(t.g, d, r, key) :: disk[key], payload)
  {
    var g := t.g;
    var disk' := map key | key in disk && !DataPage(g, d, r, key) :: disk[key];
    forall n: nat, a: nat | Slot(nodes, n, a) && At(nodes, n, a).len > 0
      ensures (n, a) in payload && Stored(disk', At(nodes, n, a), payload[(n, a)])
    {
      var p := At(nodes, n, a);
      assert t.Home(p) && Stored(disk, p, payload[(n, a)]);
      assert g.Share(p, d, r) == 0;
      assert p.dev != d || g.RegionOf(p.page) != r;
      forall k: nat | k < p.len
        ensures PageStored(disk', p, payload[(n, a)], k)
      {
        assert PageStored(disk, p, payload[(n, a)], k);
        g.RegionOfPage(g.RegionOf(p.page), p.page + k);
        g.RegionOfPage(r, p.page + k);
        assert !DataPage(g, d, r, (p.dev, p.page + k));
      }
    }
  }

  /** Writing pages apart from the index leaves its content alone. */
  lemma WriteIntact(nodes: Nodes, disk: Disk, disk': Disk, payload: Payload, p: Part)
    requires Intact(nodes, disk, payload) && Apart(nodes, p)
    requires forall key :: key in disk && !(key.0 == p.dev && p.page <= key.1 < p.page + p.len) ==>
               key in disk' && disk'[key] == disk[key]
    ensures Intact(nodes, disk', payload)
  {
    forall n: nat, a: nat | Slot(nodes, n, a) && At(nodes, n, a).len > 0
      ensures Stored(disk', At(nodes, n, a), payload[(n, a)])
    {
      var q := At(nodes, n, a);
      assert Stored(disk, q, payload[(n, a)]) && !Overlap(q, p);
      forall k: nat | k < q.len
        ensures PageStored(disk', q, payload[(n, a)], k)
      {
        assert PageStored(disk, q, payload[(n, a)], k);
      }
    }
  }

  lemma PublishIntact(nodes: Nodes, disk: Disk, payload: Payload, n: nat, w: Write, pages: seq<Page>)
    requires NodesOk(nodes) && n < |nodes| && Publishable(nodes[n], w) && WriteOk(w) && !Stale(nodes[n], w)
    requires Intact(nodes, disk, payload) && Stored(disk, PartOf(w.addr), pages)
    ensures Intact(nodes[n := Some(Publish(nodes[n], w))], disk, payload[(n, Position(w)) := pages])
  {
    var nodes' := nodes[n := Some(Publish(nodes[n], w))];
    var payload' := payload[(n, Position(w)) := pages];
    forall m: nat, a: nat | Slot(nodes', m, a) && At(nodes', m, a).len > 0
      ensures (m, a) in payload' && Stored(disk, At(nodes', m, a), payload'[(m, a)])
    {
      PublishOrigin(nodes, n, w, m, a);
    }
  }

  /** Whatever holds of all extents still holds when a leaf is removed. */
  lemma DropKeepsAll(t: Table, nodes: Nodes, disk: Disk, payload: Payload, n: nat)
    requires t.Ok() && NodesOk(nodes) && n < |nodes|
    requires t.Housed(nodes) && Intact(nodes, disk, payload) && Disjoint(nodes) && Counted(t.g, nodes)
    ensures var nodes' := nodes[n := None];
            t.Housed(nodes') && Intact(nodes', disk, payload) && Disjoint(nodes') && Counted(t.g, nodes')
  {
    DropKeeps(nodes, n);
    var nodes' := nodes[n := None];
    assert forall m: nat, a: nat :: Slot(nodes', m, a) ==> Slot(nodes, m, a) && At(nodes', m, a) == At(nodes, m, a);
  }

  /** A node without a leaf changes nothing for the others. */
  lemma GrowKeepsAll(t: Table, nodes: Nodes, disk: Disk, payload: Payload, live: seq<seq<int>>)
    requires t.Ok() && Accounted(t.g, nodes, live)
    requires t.Housed(nodes) && Intact(nodes, disk, payload) && Disjoint(nodes) && Counted(t.g, nodes)
    ensures var nodes' := nodes + [None];
            && Accounted(t.g, nodes', live)
            && t.Housed(nodes') && Intact(nodes', disk, payload) && Disjoint(nodes') && Counted(t.g, nodes')
  {
    var nodes' := nodes + [None];
    GrowAccounted(t.g, nodes, live);
    hide Accounted, Table.Home, Stored, Countable;
    assert forall m: nat, a: nat :: Slot(nodes', m, a) ==> Slot(nodes, m, a) && At(nodes', m, a) == At(nodes, m, a);
  }

  lemma GrowAccounted(g: Geo, nodes: Nodes, live: seq<seq<int>>)
    requires Accounted(g, nodes, live)
    ensures Accounted(g, nodes + [None], live)
  {
    assert (nodes + [None])[..|nodes|] == nodes;
  }
}
