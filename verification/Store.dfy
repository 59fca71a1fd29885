/**
The store: the leaves of the index, the regions of the devices, the write cursors and the
device pages, and every operation that changes them.  An operation that holds the index
lock exclusively is one method here.  Which leaves readers have pinned is an input of the
operations that look at pins.
*/
module Store {
  import opened Common
  import opened Leaves
  import opened Geometry
  import opened Regions
  import opened Batch
  import opened Generations
  import opened NodeLife

  class Store {
    const g: Geo
    var rg: seq<seq<Region>>
    var live: seq<seq<int>>
    var epochs: seq<nat>
    var cursor: seq<Cursor>
    var nodes: Nodes
    var disk: Disk
    var draining: bool
    /** History: the pages each indexed extent was written with. */
    ghost var payload: Payload
    /** History: what was published into each node, and when its leaf was dropped. */
    ghost var life: seq<seq<Event>>

    function T(): Table
      reads `rg, `cursor
    {
      Table(g, rg, cursor)
    }

    ghost predicate Shaped()
      reads `rg, `live, `epochs, `cursor
    {
      && T().Ok()
      && |live| == |epochs| == g.devs
      && forall d :: 0 <= d < g.devs ==> |live[d]| == g.regions
    }

    ghost predicate Sound()
      requires Shaped() && NodesOk(nodes)
      reads `rg, `live, `epochs, `cursor, `nodes, `disk, `payload
    {
      && Accounted(g, nodes, live)
      && Counted(g, nodes) && Disjoint(nodes)
      && T().Housed(nodes)
      && Intact(nodes, disk, payload)
      && T().Dated(epochs)
    }

    /** Everything but the claim that each device has an open region. */
    ghost predicate Core()
      reads `rg, `live, `epochs, `cursor, `nodes, `disk, `payload, `life
    {
      Shaped() && NodesOk(nodes) && Sound() && |life| == |nodes| && Told(nodes, payload, life)
    }

    ghost predicate Valid()
      reads `rg, `live, `epochs, `cursor, `nodes, `disk, `payload, `life
    {
      Core() && T().OneOpen()
    }

    /** A freshly formatted cache: region 0 of every device is open, the index is empty. */
    constructor (g: Geo, now: nat)
      requires g.Ok()
      ensures this.g == g && Valid() && nodes == [] && !draining
    {
      this.g := g;
      rg := seq(g.devs, _ => seq(g.regions, r => if r == 0 then Region(Open, 1, now, 0) else Region(Free, 0, 0, 0)));
      live := seq(g.devs, _ => seq(g.regions, _ => 0));
      epochs := seq(g.devs, _ => 1);
      cursor := seq(g.devs, _ => Cursor(0, 1));
      nodes, disk, draining, payload, life := [], map[], false, map[], [];
    }

    // ----- Byte counters -----

    method LiveAdd(p: Part)
      requires Shaped() && Countable(g, p)
      modifies `live
      ensures Shaped()
      ensures forall d, r :: 0 <= d < g.devs && 0 <= r < g.regions ==> live[d][r] == old(live[d][r]) + g.Share(p, d, r)
    {
      if p.page < REGION_BASE {
        return;
      }
      var i := g.RegionOf(p.page);
      live := live[p.dev := live[p.dev][i := live[p.dev][i] + p.len * PAGE_SIZE]];
    }

    method LiveSub(p: Part)
      requires Shaped() && Countable(g, p)
      modifies `live
      ensures Shaped()
      ensures forall d, r :: 0 <= d < g.devs && 0 <= r < g.regions ==> live[d][r] == old(live[d][r]) - g.Share(p, d, r)
    {
      if p.page < REGION_BASE {
        return;
      }
      var i := g.RegionOf(p.page);
      live := live[p.dev := live[p.dev][i := live[p.dev][i] - p.len * PAGE_SIZE]];
    }

    method LeafSubLive(l: Leaf)
      requires Shaped() && LeafOk(l)
      requires forall a :: 0 <= a < |Extents(l)| ==> Countable(g, Extents(l)[a])
      modifies `live
      ensures Shaped()
      ensures forall d, r :: 0 <= d < g.devs && 0 <= r < g.regions ==>
                live[d][r] == old(live[d][r]) - g.LeafShare(Some(l), d, r)
    {
      var ps := Extents(l);
      for i := 0 to |ps|
        invariant Shaped()
        invariant forall d, r :: 0 <= d < g.devs && 0 <= r < g.regions ==>
                    live[d][r] == old(live[d][r]) - g.ShareAll(ps[..i], d, r)
      {
        LiveSub(ps[i]);
        assert ps[..i + 1][..i] == ps[..i];
      }
      assert ps[..|ps|] == ps;
    }

    /** Count every leaf again.  In a store whose counters are right this changes nothing. */
    method RecomputeLive()
      requires Shaped() && NodesOk(nodes)
      requires Counted(g, nodes)
      modifies `live
      ensures Shaped() && Accounted(g, nodes, live)
      ensures old(Accounted(g, nodes, live)) ==> live == old(live)
    {
      live := seq(g.devs, _ => seq(g.regions, _ => 0));
      for n := 0 to |nodes|
        invariant Shaped()
        invariant forall d, r :: 0 <= d < g.devs && 0 <= r < g.regions ==> live[d][r] == g.Total(nodes[..n], d, r)
      {
        assert nodes[..n + 1][..n] == nodes[..n];
        if nodes[n].Some? {
          var ps := Extents(nodes[n].value);
          for i := 0 to |ps|
            invariant Shaped()
            invariant forall d, r :: 0 <= d < g.devs && 0 <= r < g.regions ==>
                        live[d][r] == g.Total(nodes[..n], d, r) + g.ShareAll(ps[..i], d, r)
          {
            assert Slot(nodes, n, i) && At(nodes, n, i) == ps[i];
            LiveAdd(ps[i]);
            assert ps[..i + 1][..i] == ps[..i];
          }
          assert ps[..|ps|] == ps;
        }
      }
      assert nodes[..|nodes|] == nodes;
      if old(Accounted(g, nodes, live)) {
        assert forall d :: 0 <= d < g.devs ==> live[d] == old(live)[d];
      }
    }

    // ----- Leaves -----

    /**
    Publish a finished write.  Counters follow; `journalled` says whether the mutation is
    recorded, which is not the case for a write older than the leaf.
    */
    method LeafPublish(n: nat, w: Write) returns (journalled: bool)
      requires Shaped() && Accounted(g, nodes, live)
      requires Counted(g, nodes)
      requires n < |nodes| && Publishable(nodes[n], w) && WriteOk(w) && Countable(g, PartOf(w.addr))
      modifies `nodes, `live
      ensures Shaped() && Accounted(g, nodes, live)
      ensures nodes == old(nodes)[n := Some(Publish(old(nodes)[n], w))]
      ensures journalled <==> !Stale(old(nodes)[n], w)
    {
      var was := nodes[n];
      if Stale(was, w) {
        assert nodes == nodes[n := Some(Publish(was, w))];
        return false;
      }
      forall d, r | 0 <= d < g.devs && 0 <= r < g.regions
        ensures InPlace(was, w) ==> Position(w) < |Extents(was.value)|
        ensures g.LeafShare(Some(Publish(was, w)), d, r) ==
                if InPlace(was, w)
                then g.LeafShare(was, d, r) - g.Share(Extents(was.value)[Position(w)], d, r) + g.Share(PartOf(w.addr), d, r)
                else g.Share(PartOf(w.addr), d, r)
      {
        PublishShare(g, was, w, d, r);
      }
      forall d, r | 0 <= d < g.devs && 0 <= r < g.regions
        ensures g.Total(nodes[n := Some(Publish(was, w))], d, r) + g.LeafShare(was, d, r) ==
                g.Total(nodes, d, r) + g.LeafShare(Some(Publish(was, w)), d, r)
      {
        g.TotalUpdate(nodes, n, Some(Publish(was, w)), d, r);
      }
      if InPlace(was, w) {
        PublishShare(g, was, w, 0, 0);
        var p := Extents(was.value)[Position(w)];
        assert Slot(nodes, n, Position(w)) && At(nodes, n, Position(w)) == p;
        if p.dev != INVALID_DEV {
          LiveSub(p);
        }
        nodes := nodes[n := Some(Publish(was, w))];
        LiveAdd(PartOf(w.addr));
        return true;
      }
      if was.Some? {
        assert forall a :: 0 <= a < |Extents(was.value)| ==> Slot(nodes, n, a) && At(nodes, n, a) == Extents(was.value)[a];
        LeafSubLive(was.value);
      }
      nodes := nodes[n := Some(Publish(was, w))];
      LiveAdd(PartOf(w.addr));
      return true;
    }

    method LeafDrop(n: nat)
      requires Core() && n < |nodes|
      modifies `nodes, `live, `life
      ensures Core() && nodes == old(nodes)[n := None]
      ensures life == if old(nodes)[n].Some? then old(life)[n := old(life)[n] + [Dropped]] else old(life)
    {
      hide Table.Housed, Intact, Disjoint, Told;
      var was := nodes[n];
      ToldDrop(nodes, payload, life, n);
      forall d, r | 0 <= d < g.devs && 0 <= r < g.regions
        ensures g.Total(nodes[n := None], d, r) + g.LeafShare(was, d, r) == g.Total(nodes, d, r)
      {
        g.TotalUpdate(nodes, n, None, d, r);
      }
      DropKeepsAll(T(), nodes, disk, payload, n);
      if was.Some? {
        assert forall a: nat :: a < |Extents(was.value)| ==> Slot(nodes, n, a) && At(nodes, n, a) == Extents(was.value)[a];
        LeafSubLive(was.value);
        life := life[n := life[n] + [Dropped]];
      } else {
        assert nodes[n := None] == nodes;
      }
      nodes := nodes[n := None];
    }

    /** Publish a chunk whose pages are on the device and belong to nobody else. */
    method PublishChunk(n: nat, w: Write, pages: seq<Page>) returns (journalled: bool)
      requires Core() && n < |nodes| && Publishable(nodes[n], w) && WriteOk(w)
      requires T().Settled(PartOf(w.addr)) && Apart(nodes, PartOf(w.addr))
      requires Stored(disk, PartOf(w.addr), pages)
      modifies `nodes, `live, `payload, `life
      ensures Core() && life == old(life)[n := old(life)[n] + [Published(w, pages)]]
      ensures nodes == old(nodes)[n := Some(Publish(old(nodes)[n], w))]
      ensures journalled <==> !Stale(old(nodes)[n], w)
      ensures payload == if journalled then old(payload)[(n, Position(w)) := pages] else old(payload)
    {
      hide Table.Housed, Intact, Disjoint, Counted, Told;
      ToldPublish(nodes, payload, life, n, w, pages);
      life := life[n := life[n] + [Published(w, pages)]];
      if Stale(nodes[n], w) {
        assert nodes == nodes[n := Some(Publish(nodes[n], w))];
        return false;
      }
      T().PublishHoused(nodes, n, w);
      PublishIntact(nodes, disk, payload, n, w, pages);
      PublishDisjoint(nodes, n, w);
      PublishCounted(g, nodes, n, w);
      payload := payload[(n, Position(w)) := pages];
      journalled := LeafPublish(n, w);
    }

    // ----- Regions -----

    /** Give region r of device d back: its pages are discarded, which does no harm exactly if none is indexed. */
    method TrimRegion(d: nat, r: nat)
      requires Core() && d < g.devs && r < g.regions
      modifies `rg, `live, `disk
      ensures Shaped() && (Core() <==> Vacant(g, nodes, d, r))
      ensures rg == old(rg)[d := old(rg)[d][r := Region(Free, 0, old(rg)[d][r].baseTs, 0)]]
      ensures live == old(live)[d := old(live)[d][r := 0]] && (Vacant(g, nodes, d, r) ==> live == old(live))
      ensures disk == map key | key in old(disk) && !DataPage(g, d, r, key) :: old(disk)[key]
    {
      hide Table.Housed, Table.Dated, Intact, Disjoint, Counted, Told, Vacant;
      var x := Region(Free, 0, rg[d][r].baseTs, 0);
      T().FreeOnlyVacant(nodes, d, r, x);
      T().FreeDated(epochs, d, r, x);
      if Vacant(g, nodes, d, r) {
        TrimIntact(T(), nodes, disk, payload, d, r);
        VacantTotal(g, nodes, d, r);
        assert live[d] == live[d][r := 0];
      }
      ghost var t := T().Set(d, r, x);
      var first, count := g.Base(r) + 1, g.size - 1;
      disk := map key | key in disk && !(key.0 == d && first <= key.1 < first + count) :: disk[key];
      assert disk == map key | key in old(disk) && !DataPage(g, d, r, key) :: old(disk)[key];
      rg := rg[d := rg[d][r := x]];
      live := live[d := live[d][r := 0]];
      assert T() == t;
    }

    /** Look at both replicas and at every part of a leaf. */
    method InRegion(l: Leaf, d: nat, r: nat) returns (found: bool)
      requires LeafOk(l)
      ensures found <==> g.Touches(l, d, r)
    {
      var base := g.Base(r);
      var end := base + g.size;
      found := false;
      for a := 0 to REPLICAS
        invariant found <==> exists b :: 0 <= b < a && Extents(l)[b].dev == d && base <= Extents(l)[b].page < end
      {
        assert Extents(l)[a] == PartOf(l.addr[a]);
        if l.addr[a].dev == d && l.addr[a].page >= base && l.addr[a].page < end {
          found := true;
        }
      }
      if l.stripe.Some? {
        var parts := l.stripe.value.parts;
        for p := 0 to |parts|
          invariant found <==> exists b :: 0 <= b < REPLICAS + p && Extents(l)[b].dev == d && base <= Extents(l)[b].page < end
        {
          assert Extents(l)[REPLICAS + p] == parts[p];
          if parts[p].dev == d && parts[p].page >= base && parts[p].page < end {
            found := true;
          }
        }
      }
    }

    /** Drop every leaf that touches the region, except those a reader has pinned. */
    method DropRegion(d: nat, r: nat, pinned: set<nat>)
      requires Core() && d < g.devs && r < g.regions
      modifies `nodes, `live, `life
      ensures Core() && OnlyDrops()
      ensures forall n :: 0 <= n < |nodes| ==>
                nodes[n] == if old(nodes)[n].Some? && g.Touches(old(nodes)[n].value, d, r) && n !in pinned
                            then None else old(nodes)[n]
    {
      hide Sound;
      for i := 0 to |nodes|
        invariant Core() && OnlyDrops()
        invariant forall n :: 0 <= n < i ==>
                    nodes[n] == if old(nodes)[n].Some? && g.Touches(old(nodes)[n].value, d, r) && n !in pinned
                                then None else old(nodes)[n]
        invariant forall n :: i <= n < |nodes| ==> nodes[n] == old(nodes)[n]
      {
        if nodes[i].Some? {
          var found := InRegion(nodes[i].value, d, r);
          if found && i !in pinned {
            LeafDrop(i);
          }
        }
      }
    }

    /** With nothing pinned in it, a dropped region is vacant. */
    lemma DroppedVacant(d: nat, r: nat)
      requires Core() && d < g.devs && r < g.regions
      requires forall n :: 0 <= n < |nodes| && nodes[n].Some? ==> !g.Touches(nodes[n].value, d, r)
      ensures Vacant(g, nodes, d, r)
    {
      forall n: nat, a: nat | Slot(nodes, n, a)
        ensures g.Share(At(nodes, n, a), d, r) == 0
      {
        var p := At(nodes, n, a);
        assert Extents(nodes[n].value)[a] == p;
        if REGION_BASE <= p.page {
          g.RegionOfPage(r, p.page);
        }
      }
    }

    /** No pinned leaf has a page in region r of device d. */
    ghost predicate Unheld(nodes: Nodes, pinned: set<nat>, d: nat, r: nat)
      requires 0 < g.size
    {
      forall n: nat, a: nat :: n in pinned && Slot(nodes, n, a) ==> g.Share(At(nodes, n, a), d, r) == 0
    }

    /** After dropping a region something is left in it exactly if it belongs to a leaf that a reader has pinned. */
    lemma PinnedStays(before: Nodes, after: Nodes, d: nat, r: nat, pinned: set<nat>)
      requires g.Ok() && NodesOk(before) && |after| == |before|
      requires forall n :: 0 <= n < |before| ==>
                 after[n] == if before[n].Some? && g.Touches(before[n].value, d, r) && n !in pinned then None else before[n]
      ensures Vacant(g, after, d, r) <==> Unheld(before, pinned, d, r)
    {
      forall n: nat, a: nat | Slot(after, n, a) && n !in pinned
        ensures g.Share(At(after, n, a), d, r) == 0
      {
        var p := At(after, n, a);
        assert Extents(before[n].value)[a] == p;
        if REGION_BASE <= p.page {
          g.RegionOfPage(r, p.page);
        }
      }
      assert forall n: nat, a: nat :: n in pinned ==> Slot(before, n, a) == Slot(after, n, a);
      assert forall n: nat, a: nat :: n in pinned && Slot(before, n, a) ==> At(before, n, a) == At(after, n, a);
    }

    lemma ZeroVacant(d: nat, r: nat)
      requires Core() && d < g.devs && r < g.regions
      ensures live[d][r] == 0 <==> Vacant(g, nodes, d, r)
      ensures forall q :: 0 <= q < g.regions ==> live[d][q] >= 0
    {
      VacantTotal(g, nodes, d, r);
    }

    lemma FrozenDated()
      requires Core()
      ensures forall d, r :: 0 <= d < g.devs && 0 <= r < g.regions && rg[d][r].state == Frozen ==> rg[d][r].epoch != 0
    {}

    /** With no minimum age any frozen region can be drained. */
    lemma FrozenEligible(now: nat)
      requires Core()
      ensures FrozenCount(rg) > 0 ==> !NoneEligible(rg, now, 0)
    {
      FrozenDated();
      FrozenSome(rg);
    }

    /** Leaves only disappear. */
    twostate predicate OnlyDrops()
      reads this
    {
      && |nodes| == |old(nodes)| == |life| == |old(life)|
      && forall n :: 0 <= n < |nodes| ==> SparedOrDropped(old(nodes)[n], old(life)[n], nodes[n], life[n])
    }

    /**
    Free a frozen region other than `avoid`, the one with the fewest live bytes.  It fails only
    if there is none.  Leaves that a reader has pinned stay, and their pages are discarded all the
    same: the invariant survives exactly if there are none.
    */
    method ForceFree(d: nat, avoid: nat, pinned: set<nat>) returns (v: int)
      requires Core() && d < g.devs
      modifies `rg, `live, `disk, `nodes, `life
      ensures Shaped() && NodesOk(nodes) && OnlyDrops()
      ensures Core() <==> v < 0 || Vacant(g, nodes, d, v)
      ensures 0 <= v ==> (Vacant(g, nodes, d, v) <==> Unheld(old(nodes), pinned, d, v))
      ensures v < 0 <==> forall r :: 0 <= r < g.regions && r != avoid ==> old(rg)[d][r].state != Frozen
      ensures v < 0 ==> rg == old(rg) && nodes == old(nodes) && life == old(life)
      ensures 0 <= v ==> IsVictim(old(rg)[d], old(live)[d], v, avoid)
      ensures 0 <= v ==> rg == old(rg)[d := old(rg)[d][v := Region(Free, 0, old(rg)[d][v].baseTs, 0)]]
      ensures old(T().NoneOpen(d)) ==> T().NoneOpen(d)
    {
      hide Sound, Told, Vacant, Unheld;
      var i := 0;
      while i < g.regions
        invariant 0 <= i <= g.regions
        invariant rg == old(rg) && live == old(live) && nodes == old(nodes) && disk == old(disk) && life == old(life)
        invariant forall q :: 0 <= q < i && q != avoid && rg[d][q].state == Frozen ==> live[d][q] != 0
      {
        if i != avoid && rg[d][i].state == Frozen && live[d][i] == 0 {
          ZeroVacant(d, i);
          VacantUnheld(nodes, pinned, d, i);
          TrimRegion(d, i);
          return i;
        }
        i := i + 1;
      }
      v := -1;
      i := 0;
      while i < g.regions
        invariant 0 <= i <= g.regions
        invariant rg == old(rg) && live == old(live) && nodes == old(nodes) && disk == old(disk) && life == old(life)
        invariant -1 <= v < i
        invariant v == -1 ==> forall q :: 0 <= q < i && q != avoid ==> rg[d][q].state != Frozen
        invariant 0 <= v ==> v != avoid && rg[d][v].state == Frozen
        invariant 0 <= v ==> forall q :: 0 <= q < i && q != avoid && rg[d][q].state == Frozen ==>
                    live[d][v] <= live[d][q] && (q < v ==> live[d][v] < live[d][q])
      {
        if i != avoid && rg[d][i].state == Frozen && (v == -1 || live[d][i] < live[d][v]) {
          v := i;
        }
        i := i + 1;
      }
      if v >= 0 {
        assert IsVictim(rg[d], live[d], v, avoid);
        DropRegion(d, v, pinned);
        PinnedStays(old(nodes), nodes, d, v, pinned);
        TrimRegion(d, v);
      }
    }

    lemma VacantUnheld(nodes: Nodes, pinned: set<nat>, d: nat, r: nat)
      requires 0 < g.size && Vacant(g, nodes, d, r)
      ensures Unheld(nodes, pinned, d, r)
    {}

    /** Open a free region of device d and move the cursor there. */
    method OpenRegion(d: nat, r: nat, now: nat)
      requires Shaped() && d < g.devs && r < g.regions && rg[d][r].state == Free
      modifies `rg, `live, `epochs, `cursor
      ensures Shaped() && (old(Core()) ==> Core()) && live == old(live)[d := old(live)[d][r := 0]]
      ensures epochs == old(epochs)[d := old(epochs)[d] + 1]
      ensures rg == old(rg)[d := old(rg)[d][r := Region(Open, epochs[d], now, 0)]]
      ensures cursor == old(cursor)[d := Cursor(r, 1)]
      ensures old(T().NoneOpen(d)) ==> T().OneOpen()
    {
      hide Table.Housed, Table.Dated, Intact, Disjoint, Counted, Told;
      if Core() {
        T().FreeVacant(nodes, d, r);
        T().SetHoused(nodes, d, r, Region(Open, epochs[d] + 1, now, 0));
        T().Set(d, r, Region(Open, epochs[d] + 1, now, 0)).MoveHoused(nodes, d, Cursor(r, 1));
        T().OpenDated(epochs, d, r, Region(Open, epochs[d] + 1, now, 0), Cursor(r, 1));
        VacantTotal(g, nodes, d, r);
        assert live[d] == live[d][r := 0];
      }
      epochs := epochs[d := epochs[d] + 1];
      rg := rg[d := rg[d][r := Region(Open, epochs[d], now, 0)]];
      live := live[d := live[d][r := 0]];
      cursor := cursor[d := Cursor(r, 1)];
    }

    method Freeze(d: nat, now: nat)
      requires Valid() && d < g.devs
      modifies `rg
      ensures Core()
      ensures var was := cursor[d].region;
              rg == old(rg)[d := old(rg)[d][was := old(rg)[d][was].(state := Frozen, closeTs := now)]]
      ensures T().NoneOpen(d)
    {
      hide Table.Housed, Intact, Disjoint, Counted, Accounted;
      var was := cursor[d].region;
      T().SetHoused(nodes, d, was, rg[d][was].(state := Frozen, closeTs := now));
      rg := rg[d := rg[d][was := rg[d][was].(state := Frozen, closeTs := now)]];
    }

    /**
    Freeze the region of the cursor and open the next one, freeing one first if need be.
    With one open region a device this always succeeds.  The invariant survives exactly if no
    pinned leaf has a page in the region that is opened.
    */
    method FreezeAndRotate(d: nat, now: nat, pinned: set<nat>) returns (ok: bool)
      requires Valid() && d < g.devs
      modifies `rg, `live, `disk, `nodes, `life, `epochs, `cursor
      ensures Shaped() && OnlyDrops() && ok
      ensures Valid() <==> Unheld(old(nodes), pinned, d, cursor[d].region)
      ensures var was, r := old(cursor)[d].region, cursor[d].region;
              && was < g.regions && r < g.regions
              && if old(rg)[d][(was + 1) % g.regions].state == Free then r == (was + 1) % g.regions && nodes == old(nodes) && Valid()
                 else IsVictim(old(rg)[d], old(live)[d], r, was)
      ensures var was, r := old(cursor)[d].region, cursor[d].region;
              && was != r && rg[d][was] == old(rg)[d][was].(state := Frozen, closeTs := now) && rg[d][r] == Region(Open, epochs[d], now, 0)
              && forall q :: 0 <= q < g.regions && q != was && q != r ==> rg[d][q] == old(rg)[d][q]
      ensures cursor == old(cursor)[d := Cursor(cursor[d].region, 1)]
      ensures epochs == old(epochs)[d := old(epochs)[d] + 1]
      ensures forall e :: 0 <= e < g.devs && e != d ==> rg[e] == old(rg)[e]
    {
      hide Sound, Told, Vacant, Unheld;
      var was := cursor[d].region;
      assert was < g.regions;
      hide Table.OneOpen;
      Freeze(d, now);
      NextOnRing(was, g.regions);
      var next: int := (was + 1) % g.regions;
      if rg[d][next].state != Free {
        VictimKeeps(old(rg)[d], rg[d], live[d], was);
        next := ForceFree(d, was, pinned);
      } else {
        FreeRegionVacant(d, next);
        VacantUnheld(nodes, pinned, d, next);
      }
      ok := next >= 0;
      if ok {
        OpenRegion(d, next, now);
        if Core() {
          OpenedVacant(d);
        }
      }
    }

    lemma FreeRegionVacant(d: nat, r: nat)
      requires Core() && d < g.devs && r < g.regions && rg[d][r].state == Free
      ensures Vacant(g, nodes, d, r)
    {
      T().FreeVacant(nodes, d, r);
    }

    lemma OpenedVacant(d: nat)
      requires Core() && d < g.devs && cursor[d].next == 1
      ensures Vacant(g, nodes, d, cursor[d].region)
    {
      T().StartVacant(nodes, d);
    }

    // ----- Writing -----

    method DeviceWrite(d: nat, start: nat, buf: seq<Page>)
      modifies `disk
      ensures Stored(disk, Part(d, start, |buf|), buf)
      ensures forall key :: key in old(disk) && !(key.0 == d && start <= key.1 < start + |buf|) ==>
                key in disk && disk[key] == old(disk)[key]
    {
      for i := 0 to |buf|
        invariant forall k: nat :: k < i ==> PageStored(disk, Part(d, start, |buf|), buf, k)
        invariant forall key :: key in old(disk) && !(key.0 == d && start <= key.1 < start + |buf|) ==>
                    key in disk && disk[key] == old(disk)[key]
      {
        ghost var before := disk;
        disk := disk[(d, start + i) := buf[i]];
        forall k: nat | k <= i
          ensures PageStored(disk, Part(d, start, |buf|), buf, k)
        {
          assert k < i ==> PageStored(before, Part(d, start, |buf|), buf, k);
        }
      }
    }

    /** Publish the requests of a batch that is on the device, in order. */
    method PublishBatch(d: nat, start: nat, reqs: seq<Request>, now: nat)
      requires Core() && BatchOk(nodes, reqs) && Awaited(T(), nodes, disk, reqs, 0, d, start, now)
      modifies `nodes, `live, `payload, `life
      ensures Core() && |nodes| == |old(nodes)| == |life| == |old(life)|
      ensures forall m: nat :: m < |life| ==> life[m] == old(life)[m] + BatchEvents(reqs, m, |reqs|, d, start, now)
      ensures forall i :: 0 <= i < |reqs| ==> Landed(nodes, payload, reqs[i], Placed(reqs, i, d, start, now))
      ensures forall m: nat :: m < |nodes| && Foreign(reqs, m) ==> nodes[m] == old(nodes)[m] && SamePages(old(payload), payload, m)
    {
      hide Sound, Landed, SamePages, Publish, Stale, Told, Awaited, AllLanded, Untouched, BatchEvents;
      BatchStart(nodes, payload, reqs, d, start, now);
      EventsStart(life, reqs, d, start, now);
      for i := 0 to |reqs|
        invariant Core() && |nodes| == |old(nodes)| == |life| == |old(life)|
        invariant forall m: nat :: m < |life| ==> life[m] == old(life)[m] + BatchEvents(reqs, m, i, d, start, now)
        invariant Awaited(T(), nodes, disk, reqs, i, d, start, now)
        invariant AllLanded(nodes, payload, reqs, i, d, start, now)
        invariant Untouched(old(nodes), old(payload), nodes, payload, reqs)
      {
        ghost var life0 := life;
        AwaitedNext(T(), nodes, payload, disk, reqs, i, d, start, now);
        UntouchedNext(old(nodes), old(payload), nodes, payload, reqs, i, Placed(reqs, i, d, start, now));
        var journalled := PublishChunk(reqs[i].node, Placed(reqs, i, d, start, now), reqs[i].pages);
        EventsStep(old(life), life0, reqs, i, d, start, now);
      }
      BatchEnd(old(nodes), old(payload), nodes, payload, reqs, d, start, now);
    }

    /** Put the pages of a batch that fits behind the cursor, and advance the cursor. */
    method PlaceBatch(d: nat, reqs: seq<Request>, now: nat) returns (start: nat)
      requires Valid() && d < g.devs && Room(g, cursor[d].region, cursor[d].next, reqs)
      modifies `disk, `cursor
      ensures Valid()
      ensures cursor[d] == Cursor(old(cursor)[d].region, old(cursor)[d].next + Offset(reqs, |reqs|))
      ensures forall e :: 0 <= e < g.devs && e != d ==> cursor[e] == old(cursor)[e]
      ensures start == g.Base(cursor[d].region) + old(cursor)[d].next
      ensures BatchOk(nodes, reqs) ==> Awaited(T(), nodes, disk, reqs, 0, d, start, now)
    {
      hide Table.Housed, Intact, Disjoint, Counted, Accounted, Apart, Stored, Offset, Buffer;
      var region, next, need := cursor[d].region, cursor[d].next, Offset(reqs, |reqs|);
      start := g.Base(region) + next;
      ghost var before, t := disk, T();
      DeviceWrite(d, start, Buffer(reqs, |reqs|));
      t.AheadApart(nodes, Part(d, start, need));
      WriteIntact(nodes, before, disk, payload, Part(d, start, need));
      assert T() == t;
      cursor := cursor[d := Cursor(region, next + need)];
      t.MoveHoused(nodes, d, Cursor(region, next + need));
      assert T() == t.Move(d, Cursor(region, next + need));
      forall i | 0 <= i < |reqs|
        ensures var p := PartOf(Placed(reqs, i, d, start, now).addr);
                T().Settled(p) && Apart(nodes, p) && Stored(disk, p, reqs[i].pages)
      {
        RequestPlaced(t, nodes, disk, d, reqs, i, start, now);
      }
    }

    /**
    Write a batch and publish it, rotating first if it does not fit behind the cursor.
    Afterwards each request is in the index with exactly its pages, unless a newer version is.
    */
    method SubmitBatch(d: nat, reqs: seq<Request>, now: nat, pinned: set<nat>) returns (start: nat)
      requires Valid() && d < g.devs && BatchOk(nodes, reqs)
      requires cursor[d].next + Offset(reqs, |reqs|) <= g.size ==> Room(g, cursor[d].region, cursor[d].next, reqs)
      requires Room(g, g.regions, 1, reqs)
      requires forall r: nat :: IsVictim(rg[d], live[d], r, cursor[d].region) ==> Unheld(nodes, pinned, d, r)
      modifies this
      ensures Valid() && |nodes| == |old(nodes)| == |life| == |old(life)|
      ensures forall m: nat :: m < |life| ==> AfterBatch(old(nodes)[m], old(life)[m], life[m], BatchEvents(reqs, m, |reqs|, d, start, now))
      ensures forall i :: 0 <= i < |reqs| ==> Landed(nodes, payload, reqs[i], Placed(reqs, i, d, start, now))
      ensures forall m: nat :: m < |nodes| && Foreign(reqs, m) ==>
                (nodes[m] == old(nodes)[m] || nodes[m] == None) && SamePages(old(payload), payload, m)
      ensures reqs != [] ==>
                var was, need := old(cursor)[d], Offset(reqs, |reqs|);
                if was.next + need <= g.size then cursor[d] == Cursor(was.region, was.next + need) && start == g.Base(was.region) + was.next
                else cursor[d] == Cursor(cursor[d].region, 1 + need) && cursor[d].region != was.region && start == g.Base(cursor[d].region) + 1
      ensures reqs == [] || old(cursor)[d].next + Offset(reqs, |reqs|) <= g.size ==>
                forall m: nat :: m < |life| ==> life[m] == old(life)[m] + BatchEvents(reqs, m, |reqs|, d, start, now)
    {
      hide Sound, SamePages, Landed, Foreign, Fits, Told, Awaited, Suits, Consistent;
      SameSelf(payload);
      start := 0;
      assert forall m: nat :: m < |life| ==> life[m] + [] == life[m];
      if reqs == [] {
        return;
      }
      if cursor[d].next + Offset(reqs, |reqs|) > g.size {
        var ok := FreezeAndRotate(d, now, pinned);
        BatchSurvives(old(nodes), nodes, reqs);
      }
      start := PlaceBatch(d, reqs, now);
      PublishBatch(d, start, reqs, now);
    }

    // ----- Nodes and reads -----

    /** A new node of the index tree, without a leaf. */
    method AddNode() returns (n: nat)
      requires Valid()
      modifies `nodes, `life
      ensures Valid() && n == |old(nodes)| && nodes == old(nodes) + [None] && life == old(life) + [[]]
    {
      n := |nodes|;
      hide Table.Housed, Intact, Disjoint, Counted, Accounted, Told;
      GrowKeepsAll(T(), nodes, disk, payload, live);
      ToldGrow(nodes, payload, life);
      nodes, life := nodes + [None], life + [[]];
    }

    /** Read an indexed extent: the device returns exactly the pages it was written with. */
    method ReadExtent(n: nat, a: nat) returns (pages: seq<Page>)
      requires Valid() && Slot(nodes, n, a) && 0 < At(nodes, n, a).len
      ensures (n, a) in payload && pages == payload[(n, a)]
    {
      var p := At(nodes, n, a);
      assert Stored(disk, p, payload[(n, a)]);
      pages := [];
      for k := 0 to p.len
        invariant |pages| == k && pages == payload[(n, a)][..k]
      {
        assert PageStored(disk, p, payload[(n, a)], k);
        pages := pages + [disk[(p.dev, p.page + k)]];
      }
    }

    // ----- Garbage collection -----

    predicate Expired(l: Leaf, now: nat)
      requires LeafOk(l)
    {
      l.addr[0].expire != 0 && l.addr[0].expire < now
    }

    method SweepExpired(now: nat, pinned: set<nat>)
      requires Valid()
      modifies `nodes, `live, `life
      ensures Valid() && OnlyDrops()
      ensures forall n :: 0 <= n < |nodes| ==>
                nodes[n] == if old(nodes)[n].Some? && Expired(old(nodes)[n].value, now) && n !in pinned
                            then None else old(nodes)[n]
    {
      hide Sound;
      for i := 0 to |nodes|
        invariant Valid() && OnlyDrops()
        invariant forall n :: 0 <= n < i ==>
                    nodes[n] == if old(nodes)[n].Some? && Expired(old(nodes)[n].value, now) && n !in pinned
                                then None else old(nodes)[n]
        invariant forall n :: i <= n < |nodes| ==> nodes[n] == old(nodes)[n]
      {
        if nodes[i].Some? {
          var expire := nodes[i].value.addr[0].expire;
          if expire != 0 && expire < now && i !in pinned {
            LeafDrop(i);
          }
        }
      }
    }

    /** A frozen region without a live byte whose epoch is over is given back. */
    function Trimmed(x: Region, liveBytes: int, now: nat, epochSecs: nat): Region {
      if x.state == Frozen && liveBytes == 0 && x.closeTs != 0 && now > x.baseTs + epochSecs then Region(Free, 0, x.baseTs, 0) else x
    }

    /** Give back exactly the frozen regions without a live byte whose epoch is over. */
    method TrimEmpty(now: nat, epochSecs: nat)
      requires Valid()
      modifies `rg, `live, `disk
      ensures Valid() && OnlyFrees(old(rg), rg) && live == old(live)
      ensures forall d, r :: 0 <= d < g.devs && 0 <= r < g.regions ==> rg[d][r] == Trimmed(old(rg)[d][r], live[d][r], now, epochSecs)
    {
      hide Sound;
      for d := 0 to g.devs
        invariant Valid() && OnlyFrees(old(rg), rg) && live == old(live)
        invariant forall e, q :: 0 <= e < d && 0 <= q < g.regions ==> rg[e][q] == Trimmed(old(rg)[e][q], live[e][q], now, epochSecs)
        invariant forall e :: d <= e < g.devs ==> rg[e] == old(rg)[e]
      {
        TrimDevice(d, now, epochSecs);
        assert forall e :: 0 <= e < g.devs && e != d ==> rg[e] == old(rg)[e] || e < d;
      }
    }

    method TrimDevice(d: nat, now: nat, epochSecs: nat)
      requires Valid() && d < g.devs
      modifies `rg, `live, `disk
      ensures Valid() && live == old(live)
      ensures forall e :: 0 <= e < g.devs && e != d ==> rg[e] == old(rg)[e]
      ensures forall r :: 0 <= r < g.regions ==> rg[d][r] == Trimmed(old(rg)[d][r], live[d][r], now, epochSecs)
    {
      hide Sound;
      for r := 0 to g.regions
        invariant Valid() && live == old(live)
        invariant forall e :: 0 <= e < g.devs && e != d ==> rg[e] == old(rg)[e]
        invariant forall q :: 0 <= q < r ==> rg[d][q] == Trimmed(old(rg)[d][q], live[d][q], now, epochSecs)
        invariant forall q :: r <= q < g.regions ==> rg[d][q] == old(rg)[d][q]
      {
        var x := rg[d][r];
        if x.state == Frozen && live[d][r] == 0 && x.closeTs != 0 && now > x.baseTs + epochSecs {
          ZeroVacant(d, r);
          TrimRegion(d, r);
        }
      }
    }

    /** Add up what all regions can hold and what those that are not free hold. */
    method SumLive() returns (total: int, cap: nat)
      requires Shaped()
      ensures total == LiveBytes(rg, live) && cap == Capacity()
    {
      total, cap := 0, 0;
      ghost var region := g.size * PAGE_SIZE;
      ghost var device := g.regions * region;
      for d := 0 to g.devs
        invariant total == LiveBytes(rg[..d], live[..d]) && cap == d * device
      {
        ghost var cap0 := cap;
        for r := 0 to g.regions
          invariant total == LiveBytes(rg[..d], live[..d]) + RowBytes(rg[d][..r], live[d][..r])
          invariant cap == cap0 + r * region
        {
          OneMore(r, region);
          assert rg[d][..r + 1][..r] == rg[d][..r] && live[d][..r + 1][..r] == live[d][..r];
          cap := cap + g.size * PAGE_SIZE;
          if rg[d][r].state != Free {
            total := total + live[d][r];
          }
        }
        assert rg[d][..g.regions] == rg[d] && live[d][..g.regions] == live[d];
        assert rg[..d + 1][..d] == rg[..d] && live[..d + 1][..d] == live[..d];
        OneMore(d, device);
      }
      assert rg[..g.devs] == rg && live[..g.devs] == live;
      DeviceCapacity();
    }

    lemma OneMore(n: nat, x: nat)
      ensures (n + 1) * x == n * x + x
    {}

    lemma DeviceCapacity()
      ensures g.devs * (g.regions * (g.size * PAGE_SIZE)) == Capacity()
    {
      assert g.regions * (g.size * PAGE_SIZE) == g.regions * g.size * PAGE_SIZE;
      assert g.devs * (g.regions * g.size) == g.devs * g.regions * g.size;
      assert g.devs * (g.regions * g.size * PAGE_SIZE) == g.devs * (g.regions * g.size) * PAGE_SIZE;
    }

    function Capacity(): nat {
      g.devs * g.regions * g.size * PAGE_SIZE
    }

    /** The lowest epoch of a region that is frozen, dated and old enough. */
    method OldestEpoch(now: nat, minAge: nat) returns (oldest: Option<nat>)
      requires Shaped()
      ensures oldest.None? <==> NoneEligible(rg, now, minAge)
      ensures oldest.Some? ==> IsOldest(rg, now, minAge, oldest.value)
    {
      oldest := None;
      ghost var wd, wr := 0, 0;
      for d := 0 to g.devs
        invariant forall e, q :: 0 <= e < d && 0 <= q < g.regions && Eligible(rg[e][q], now, minAge) ==>
                    oldest.Some? && oldest.value <= rg[e][q].epoch
        invariant oldest.Some? ==>
                    0 <= wd < g.devs && 0 <= wr < g.regions && Eligible(rg[wd][wr], now, minAge) && rg[wd][wr].epoch == oldest.value
      {
        for r := 0 to g.regions
          invariant forall e, q :: 0 <= e <= d && 0 <= q < g.regions && (e < d || q < r) && Eligible(rg[e][q], now, minAge) ==>
                      oldest.Some? && oldest.value <= rg[e][q].epoch
          invariant oldest.Some? ==>
                      0 <= wd < g.devs && 0 <= wr < g.regions && Eligible(rg[wd][wr], now, minAge) && rg[wd][wr].epoch == oldest.value
        {
          var x := rg[d][r];
          if x.state != Frozen || x.epoch == 0 || (minAge != 0 && now < x.baseTs + minAge) {
            continue;
          }
          if oldest.None? || x.epoch < oldest.value {
            oldest := Some(x.epoch);
            wd, wr := d, r;
          }
        }
      }
    }

    /** Drop a frozen region and give it back if nothing is left in it. */
    method DrainRegion(d: nat, r: nat, pinned: set<nat>)
      requires Valid() && d < g.devs && r < g.regions && rg[d][r].state == Frozen
      modifies `rg, `live, `disk, `nodes, `life
      ensures Valid() && OnlyDrops() && Spared(old(nodes), nodes, pinned)
      ensures || rg == old(rg)
              || rg == old(rg)[d := old(rg)[d][r := Region(Free, 0, old(rg)[d][r].baseTs, 0)]]
      ensures pinned == {} ==> rg[d][r] == Region(Free, 0, old(rg)[d][r].baseTs, 0) && Purged(g, old(nodes), old(rg), nodes, rg)
    {
      hide Sound, Geo.Touches;
      DropRegion(d, r, pinned);
      if pinned == {} {
        DroppedVacant(d, r);
      }
      ZeroVacant(d, r);
      if live[d][r] == 0 {
        TrimRegion(d, r);
      }
    }

    /** What is pinned stays. */
    ghost predicate Spared(before: Nodes, after: Nodes, pinned: set<nat>) {
      |after| == |before| && forall n :: n in pinned && n < |before| ==> after[n] == before[n]
    }

    /** Discard the frozen regions of device d that belong to one generation. */
    method DrainDevice(d: nat, epoch: nat, pinned: set<nat>)
      requires Valid() && d < g.devs
      modifies `rg, `live, `disk, `nodes, `life
      ensures Valid() && OnlyDrops() && OnlyFrees(old(rg), rg) && Spared(old(nodes), nodes, pinned)
      ensures forall e :: 0 <= e < g.devs && e != d ==> rg[e] == old(rg)[e]
      ensures forall r :: 0 <= r < g.regions && rg[d][r] != old(rg)[d][r] ==> rg[d][r] == Discarded(old(rg)[d][r], epoch)
      ensures pinned == {} ==> Purged(g, old(nodes), old(rg), nodes, rg)
      ensures pinned == {} ==> forall r :: 0 <= r < g.regions ==> rg[d][r] == Discarded(old(rg)[d][r], epoch)
    {
      hide Sound, Table.OneOpen, Purged;
      PurgedSame(g, nodes, rg);
      for r := 0 to g.regions
        invariant Valid() && OnlyDrops() && OnlyFrees(old(rg), rg) && Spared(old(nodes), nodes, pinned)
        invariant forall e :: 0 <= e < g.devs && e != d ==> rg[e] == old(rg)[e]
        invariant forall q :: r <= q < g.regions ==> rg[d][q] == old(rg)[d][q]
        invariant forall q :: 0 <= q < g.regions && rg[d][q] != old(rg)[d][q] ==> rg[d][q] == Discarded(old(rg)[d][q], epoch)
        invariant pinned == {} ==> Purged(g, old(nodes), old(rg), nodes, rg)
        invariant pinned == {} ==> forall q :: 0 <= q < r ==> rg[d][q] == Discarded(old(rg)[d][q], epoch)
      {
        if rg[d][r].state == Frozen && rg[d][r].epoch == epoch {
          ghost var nodes1, rg1 := nodes, rg;
          DrainRegion(d, r, pinned);
          if pinned == {} {
            PurgedTransitive(g, old(nodes), old(rg), nodes1, rg1, nodes, rg);
          }
        }
      }
    }

    /**
    One round of draining: the oldest generation goes.  With nothing pinned every region of it
    becomes free, no other region changes, and exactly the leaves that touch one of them are gone.
    */
    method DrainRound(now: nat, minAge: nat, pinned: set<nat>) returns (oldest: Option<nat>)
      requires Valid()
      modifies `rg, `live, `disk, `nodes, `life
      ensures Valid() && OnlyDrops() && OnlyFrees(old(rg), rg) && Spared(old(nodes), nodes, pinned)
      ensures oldest.None? <==> NoneEligible(old(rg), now, minAge)
      ensures oldest.None? ==> rg == old(rg)
      ensures oldest.Some? ==> IsOldest(old(rg), now, minAge, oldest.value)
      ensures forall d, r :: 0 <= d < g.devs && 0 <= r < g.regions && rg[d][r] != old(rg)[d][r] ==>
                oldest.Some? && rg[d][r] == Discarded(old(rg)[d][r], oldest.value)
      ensures pinned == {} ==> Round(old(rg), rg, now, minAge) && Purged(g, old(nodes), old(rg), nodes, rg)
      ensures pinned == {} && oldest.Some? ==> FrozenCount(rg) < FrozenCount(old(rg))
    {
      hide Sound, Table.OneOpen, Purged;
      oldest := OldestEpoch(now, minAge);
      PurgedSame(g, nodes, rg);
      if oldest.None? {
        return;
      }
      for d := 0 to g.devs
        invariant Valid() && OnlyDrops() && OnlyFrees(old(rg), rg) && Spared(old(nodes), nodes, pinned)
        invariant forall e :: d <= e < g.devs ==> rg[e] == old(rg)[e]
        invariant forall e, q :: 0 <= e < g.devs && 0 <= q < g.regions && rg[e][q] != old(rg)[e][q] ==>
                    rg[e][q] == Discarded(old(rg)[e][q], oldest.value)
        invariant pinned == {} ==> Purged(g, old(nodes), old(rg), nodes, rg)
        invariant pinned == {} ==>
                    forall e, q :: 0 <= e < d && 0 <= q < g.regions ==> rg[e][q] == Discarded(old(rg)[e][q], oldest.value)
      {
        ghost var nodes1, rg1 := nodes, rg;
        DrainDevice(d, oldest.value, pinned);
        if pinned == {} {
          PurgedTransitive(g, old(nodes), old(rg), nodes1, rg1, nodes, rg);
        }
      }
      if pinned == {} {
        DiscardsSome(old(rg), rg, now, minAge, oldest.value);
      }
    }

    /** At most that many rounds, stopping early when no generation is left to discard. */
    method DrainRounds(rounds: nat, now: nat, minAge: nat, pinned: set<nat>)
      requires Valid() && 0 < rounds
      modifies `rg, `live, `disk, `nodes, `life
      ensures Valid() && OnlyDrops() && OnlyFrees(old(rg), rg) && Spared(old(nodes), nodes, pinned)
      ensures pinned == {} ==> Rounds(old(rg), rg, rounds, now, minAge) && Purged(g, old(nodes), old(rg), nodes, rg)
      ensures pinned == {} && minAge == 0 && FrozenCount(old(rg)) > 0 ==> FrozenCount(rg) < FrozenCount(old(rg))
    {
      hide Sound, Table.OneOpen, Purged, Round, NoneEligible, IsOldest, Discarded, OnlyFrees, FrozenCount;
      var n := 0;
      OnlyFreesSame(rg);
      PurgedSame(g, nodes, rg);
      while n < rounds
        invariant 0 <= n <= rounds
        invariant Valid() && OnlyDrops() && OnlyFrees(old(rg), rg) && Spared(old(nodes), nodes, pinned)
        invariant n == 0 ==> rg == old(rg)
        invariant pinned == {} ==> Rounds(old(rg), rg, n, now, minAge) && Purged(g, old(nodes), old(rg), nodes, rg)
        invariant n > 0 && pinned == {} && minAge == 0 ==> FrozenCount(rg) < FrozenCount(old(rg))
      {
        ghost var nodes1, rg1 := nodes, rg;
        FrozenEligible(now);
        var oldest := DrainRound(now, minAge, pinned);
        OnlyFreesTransitive(old(rg), rg1, rg);
        FrozenDrops(rg1, rg);
        if pinned == {} {
          PurgedTransitive(g, old(nodes), old(rg), nodes1, rg1, nodes, rg);
        }
        if oldest.None? {
          if pinned == {} {
            RoundsIdle(old(rg), rg, n, rounds, now, minAge);
          }
          break;
        }
        n := n + 1;
      }
    }

    predicate Above(pct: nat)
      requires |rg| == |live| == g.devs
      requires forall d :: 0 <= d < g.devs ==> |rg[d]| == |live[d]|
      reads this
    {
      LiveBytes(rg, live) * 100 > Capacity() * pct
    }

    /** A mark is exceeded exactly if the indexed pages take more than that percentage of all pages of all regions. */
    lemma AboveMeans(pct: nat)
      requires Valid()
      ensures Above(pct) <==> IndexedBytes(nodes) * 100 > g.devs * g.regions * g.size * PAGE_SIZE * pct
    {
      LiveIsIndexed(T(), nodes, live);
    }

    /**
    The watermark part of a collection tick.  Without draining it starts exactly above the start
    mark; with draining it goes on exactly above the stop mark.  A draining tick above the stop
    mark discards, with nothing pinned, as many of the oldest generations as configured and
    exactly the leaves in them; any other tick changes nothing.
    */
    method DrainTick(cfg: GcConfig, now: nat, pinned: set<nat>)
      requires Valid()
      modifies `rg, `live, `disk, `nodes, `life, `draining
      ensures Valid() && OnlyDrops() && OnlyFrees(old(rg), rg) && Spared(old(nodes), nodes, pinned)
      ensures draining <==> if old(draining) then old(Above(cfg.Stop())) else old(Above(cfg.Start()))
      ensures !(draining && old(Above(cfg.Stop()))) ==> rg == old(rg) && live == old(live) && nodes == old(nodes) && life == old(life)
      ensures draining && old(Above(cfg.Stop())) && pinned == {} ==>
                Rounds(old(rg), rg, cfg.Step(), now, cfg.minAge) && Purged(g, old(nodes), old(rg), nodes, rg)
      ensures draining && old(Above(cfg.Stop())) && pinned == {} && cfg.minAge == 0 && FrozenCount(old(rg)) > 0 ==>
                FrozenCount(rg) < FrozenCount(old(rg))
    {
      hide Sound, Purged, Rounds;
      var total, cap := SumLive();
      var start := if cfg.startPct != 0 then cfg.startPct else 80;
      var stop := if cfg.stopPct != 0 then cfg.stopPct else 70;
      var step := if cfg.step != 0 then cfg.step else 1;
      var overStart := cap != 0 && total * 100 > cap * start;
      var overStop := cap != 0 && total * 100 > cap * stop;
      CapacityPositive();
      if overStart && !draining {
        draining := true;
      } else if !overStop && draining {
        draining := false;
      }
      if draining && overStop {
        DrainRounds(step, now, cfg.minAge, pinned);
      }
    }

    lemma CapacityPositive()
      requires g.Ok()
      ensures Capacity() > 0
    {
      assert g.devs * g.regions > 0;
      assert g.devs * g.regions * g.size > 0;
    }

    /**
    A whole collection tick: expiry, empty regions, then the watermarks.  `swept` are the counters
    behind the first step and `mid` the regions behind the second; the watermarks judge by them.
    */
    method GcTick(cfg: GcConfig, now: nat, ttlDue: bool, pinned: set<nat>) returns (ghost swept: seq<seq<int>>, ghost mid: seq<seq<Region>>)
      requires Valid()
      modifies this
      ensures Valid() && OnlyDrops() && OnlyFrees(old(rg), rg) && cursor == old(cursor) && payload == old(payload)
      ensures ttlDue ==> forall n :: 0 <= n < |nodes| && old(nodes)[n].Some? && Expired(old(nodes)[n].value, now) && n !in pinned ==> nodes[n] == None
      ensures !ttlDue ==> swept == old(live)
      ensures |mid| == |swept| == g.devs && forall d :: 0 <= d < g.devs ==> |mid[d]| == |swept[d]| == g.regions
      ensures forall d, r :: 0 <= d < g.devs && 0 <= r < g.regions ==> mid[d][r] == Trimmed(old(rg)[d][r], swept[d][r], now, cfg.epochSecs)
      ensures draining <==> LiveBytes(mid, swept) * 100 > Capacity() * if old(draining) then cfg.Stop() else cfg.Start()
      ensures !(draining && LiveBytes(mid, swept) * 100 > Capacity() * cfg.Stop()) ==> rg == mid && live == swept
      ensures draining && LiveBytes(mid, swept) * 100 > Capacity() * cfg.Stop() && pinned == {} ==>
                Rounds(mid, rg, cfg.Step(), now, cfg.minAge)
      ensures pinned == {} ==> forall n :: 0 <= n < |nodes| ==>
                nodes[n] == if old(nodes)[n].Some? && ((ttlDue && Expired(old(nodes)[n].value, now)) || Purges(g, old(nodes)[n].value, mid, rg))
                            then None else old(nodes)[n]
    {
      hide Sound, Table.OneOpen, Expired, Rounds;
      if ttlDue {
        SweepExpired(now, pinned);
      }
      swept := live;
      ghost var left := nodes;
      TrimEmpty(now, cfg.epochSecs);
      mid := rg;
      DrainTick(cfg, now, pinned);
      if rg == mid {
        PurgedSame(g, left, rg);
      }
      OnlyFreesTransitive(old(rg), mid, rg);
    }

    /**
    Ticks while nobody writes or reads, from any store, draining or not: above the start mark it is
    drained until it is at or below the stop mark or has no frozen region left.
    */
    method DrainToStop(cfg: GcConfig, now: nat)
      requires Valid() && cfg.minAge == 0 && cfg.Stop() <= cfg.Start()
      modifies `rg, `live, `disk, `nodes, `life, `draining
      ensures Valid() && (FrozenCount(rg) == 0 || (!draining && !Above(cfg.Start())))
      ensures old(draining || Above(cfg.Start())) ==> FrozenCount(rg) == 0 || !Above(cfg.Stop())
      ensures !old(draining || Above(cfg.Start())) ==> rg == old(rg) && nodes == old(nodes)
    {
      hide Sound, Rounds, Purged;
      MarksOrdered(cfg);
      while FrozenCount(rg) > 0 && (draining || Above(cfg.Start()))
        invariant Valid()
        invariant old(draining || Above(cfg.Start())) ==> draining || Above(cfg.Start()) || !Above(cfg.Stop())
        invariant !old(draining || Above(cfg.Start())) ==> rg == old(rg) && nodes == old(nodes) && !draining && !Above(cfg.Start())
        decreases FrozenCount(rg), draining
      {
        MarksOrdered(cfg);
        DrainTick(cfg, now, {});
      }
      MarksOrdered(cfg);
    }

    lemma MarksOrdered(cfg: GcConfig)
      requires Shaped() && cfg.Stop() <= cfg.Start()
      ensures Above(cfg.Start()) ==> Above(cfg.Stop())
    {
      MulOrder(Capacity(), cfg.Stop(), cfg.Start());
    }
  }

  lemma MulOrder(c: nat, a: nat, b: nat)
    requires a <= b
    ensures c * a <= c * b
  {}
}
