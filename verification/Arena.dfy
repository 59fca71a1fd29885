/**
The size-class allocator of the read cache: blocks are carved from the arena one behind the
other and recycled through one free list a class; when the arena is used up, or for large
entries, blocks come from the heap.
*/
module Arena {
  const CLASSES: nat := 6

  function Cap(cls: nat): nat
    requires cls < CLASSES
  {
    [4 * 1024, 16 * 1024, 64 * 1024, 256 * 1024, 1024 * 1024, 8 * 1024 * 1024][cls]
  }

  /** The smallest class that holds `total` bytes, or CLASSES. */
  function PickClass(total: nat): (c: nat)
    ensures c <= CLASSES
    ensures c < CLASSES ==> total <= Cap(c)
    ensures forall d :: 0 <= d < c ==> Cap(d) < total
    ensures c < CLASSES <==> total <= 8 * 1024 * 1024
  {
    if total <= Cap(0) then 0 else if total <= Cap(1) then 1 else if total <= Cap(2) then 2
    else if total <= Cap(3) then 3 else if total <= Cap(4) then 4 else if total <= Cap(5) then 5 else 6
  }

  datatype Block = InArena(off: nat, cls: nat) | Heap
  datatype Tile = Tile(off: nat, cls: nat)

  // ----- What holds of the allocator's fields -----

  /** The carved blocks lie one behind the other and fill the arena up to `bump`. */
  ghost predicate Tiled(tiles: seq<Tile>, bump: nat) {
    && (forall i :: 0 <= i < |tiles| ==> tiles[i].cls < CLASSES)
    && (forall i :: 0 < i < |tiles| ==> tiles[i].off == tiles[i - 1].off + Cap(tiles[i - 1].cls))
    && (if tiles == [] then bump == 0
        else tiles[0].off == 0 && tiles[|tiles| - 1].off + Cap(tiles[|tiles| - 1].cls) == bump)
  }

  /** `cls` gives the class of each carved block by its offset. */
  ghost predicate Indexed(tiles: seq<Tile>, cls: map<nat, nat>, bump: nat) {
    && (forall i :: 0 <= i < |tiles| ==> tiles[i].off in cls && cls[tiles[i].off] == tiles[i].cls)
    && (forall off :: off in cls ==> Tile(off, cls[off]) in tiles && off < bump)
  }

  /** Every carved block is either handed out or exactly once in the free list of its class. */
  ghost predicate Partitioned(free: seq<seq<nat>>, cls: map<nat, nat>, live: set<nat>) {
    && |free| == CLASSES
    && live <= cls.Keys
    && (forall c, i, j :: 0 <= c < CLASSES && 0 <= i < j < |free[c]| ==> free[c][i] != free[c][j])
    && (forall c, i :: 0 <= c < CLASSES && 0 <= i < |free[c]| ==>
          free[c][i] in cls && cls[free[c][i]] == c && free[c][i] !in live)
    && (forall off :: off in cls && off !in live ==> cls[off] < CLASSES && off in free[cls[off]])
  }

  lemma {:induction false} TileOrder(tiles: seq<Tile>, bump: nat, i: nat, j: nat)
    requires Tiled(tiles, bump) && i < j < |tiles|
    ensures tiles[i].off + Cap(tiles[i].cls) <= tiles[j].off
    decreases j
  {
    if i < j - 1 {
      TileOrder(tiles, bump, i, j - 1);
    }
  }

  lemma PopPartitioned(free: seq<seq<nat>>, cls: map<nat, nat>, live: set<nat>, c: nat)
    requires Partitioned(free, cls, live) && c < CLASSES && free[c] != []
    ensures Partitioned(free[c := free[c][1..]], cls, live + {free[c][0]})
    ensures free[c][0] in cls && cls[free[c][0]] == c && free[c][0] !in live
  {
    var free', live' := free[c := free[c][1..]], live + {free[c][0]};
    forall off | off in cls && off !in live'
      ensures cls[off] < CLASSES && off in free'[cls[off]]
    {
      if cls[off] == c {
        var i :| 0 <= i < |free[c]| && free[c][i] == off;
        assert free'[c][i - 1] == off;
      }
    }
  }

  lemma PushPartitioned(free: seq<seq<nat>>, cls: map<nat, nat>, live: set<nat>, off: nat)
    requires Partitioned(free, cls, live) && off in live && cls[off] < CLASSES
    ensures Partitioned(free[cls[off] := [off] + free[cls[off]]], cls, live - {off})
  {
    var c := cls[off];
    var free', live' := free[c := [off] + free[c]], live - {off};
    forall x | x in cls && x !in live'
      ensures cls[x] < CLASSES && x in free'[cls[x]]
    {
      if x != off {
        var i :| 0 <= i < |free[cls[x]]| && free[cls[x]][i] == x;
        assert cls[x] == c ==> free'[c][i + 1] == x;
      }
    }
  }

  lemma CarveTiled(tiles: seq<Tile>, bump: nat, c: nat)
    requires Tiled(tiles, bump) && c < CLASSES
    ensures Tiled(tiles + [Tile(bump, c)], bump + Cap(c))
  {
    hide Cap;
    var tiles' := tiles + [Tile(bump, c)];
    assert tiles'[|tiles|] == Tile(bump, c);
    assert forall i :: 0 <= i < |tiles| ==> tiles'[i] == tiles[i];
  }

  lemma CarveTile(tiles: seq<Tile>, cls: map<nat, nat>, bump: nat, c: nat)
    requires Tiled(tiles, bump) && Indexed(tiles, cls, bump) && c < CLASSES
    ensures Tiled(tiles + [Tile(bump, c)], bump + Cap(c))
    ensures Indexed(tiles + [Tile(bump, c)], cls[bump := c], bump + Cap(c))
    ensures bump !in cls
  {
    assert Cap(c) > 0;
    CarveTiled(tiles, bump, c);
    hide Tiled, Cap;
    var tiles', cls' := tiles + [Tile(bump, c)], cls[bump := c];
    assert tiles'[|tiles|] == Tile(bump, c);
    forall off | off in cls'
      ensures Tile(off, cls'[off]) in tiles' && off < bump + Cap(c)
    {
      assert off != bump ==> Tile(off, cls[off]) in tiles;
    }
  }

  lemma CarvePartitioned(free: seq<seq<nat>>, cls: map<nat, nat>, live: set<nat>, bump: nat, c: nat)
    requires Partitioned(free, cls, live) && bump !in cls
    ensures Partitioned(free, cls[bump := c], live + {bump}) && bump !in live
  {}

  class Arena {
    const len: nat
    var bump: nat
    var free: seq<seq<nat>>
    // History: the blocks carved so far, their classes, and the offsets handed out.
    ghost var tiles: seq<Tile>
    ghost var cls: map<nat, nat>
    ghost var live: set<nat>

    ghost predicate Valid()
      reads this
    {
      && bump <= len && |free| == CLASSES
      && Tiled(tiles, bump) && Indexed(tiles, cls, bump) && Partitioned(free, cls, live)
    }

    constructor (len: nat)
      ensures Valid() && live == {} && this.len == len
    {
      this.len := len;
      bump := 0;
      free := seq(CLASSES, _ => []);
      tiles, cls, live := [], map[], {};
    }

    /** No carved block reaches beyond the arena. */
    lemma BlockInside(a: nat)
      requires Valid() && a in cls
      ensures cls[a] < CLASSES && a + Cap(cls[a]) <= bump <= len
    {
      var i :| 0 <= i < |tiles| && tiles[i] == Tile(a, cls[a]);
      if i < |tiles| - 1 {
        TileOrder(tiles, bump, i, |tiles| - 1);
      }
    }

    /** Two different carved blocks never overlap. */
    lemma BlocksDisjoint(a: nat, b: nat)
      requires Valid() && a in cls && b in cls && a != b
      ensures cls[a] < CLASSES && cls[b] < CLASSES
      ensures a + Cap(cls[a]) <= b || b + Cap(cls[b]) <= a
    {
      var i :| 0 <= i < |tiles| && tiles[i] == Tile(a, cls[a]);
      var j :| 0 <= j < |tiles| && tiles[j] == Tile(b, cls[b]);
      if i < j {
        TileOrder(tiles, bump, i, j);
      } else {
        TileOrder(tiles, bump, j, i);
      }
    }

    /** A block of the class: recycled, carved, or from the heap when the arena is used up. */
    method Alloc(c: nat) returns (b: Block)
      requires Valid() && c <= CLASSES
      modifies this
      ensures Valid()
      ensures b.InArena? ==> c < CLASSES && b.cls == c && b.off in cls && cls[b.off] == c
      ensures b.InArena? ==> b.off !in old(live) && live == old(live) + {b.off}
      ensures b.Heap? ==> live == old(live)
      ensures b.Heap? <==> c == CLASSES || (old(free)[c] == [] && old(bump) + Cap(c) > len)
      ensures b.InArena? ==> if old(free)[c] != [] then b.off == old(free)[c][0] && bump == old(bump) else b.off == old(bump)
      ensures forall off :: off in old(cls) ==> off in cls && cls[off] == old(cls)[off]
    {
      hide Tiled, Indexed, Partitioned;
      if c == CLASSES {
        return Heap;
      }
      if free[c] != [] {
        PopPartitioned(free, cls, live, c);
        b := InArena(free[c][0], c);
        free, live := free[c := free[c][1..]], live + {free[c][0]};
        return;
      }
      if bump + Cap(c) <= len {
        b := InArena(bump, c);
        Carve(c);
        return;
      }
      return Heap;
    }

    method Carve(c: nat)
      requires Valid() && c < CLASSES && bump + Cap(c) <= len
      modifies this
      ensures Valid() && old(bump) !in old(cls) && old(bump) !in old(live)
      ensures cls == old(cls)[old(bump) := c] && live == old(live) + {old(bump)} && bump == old(bump) + Cap(c) && free == old(free)
    {
      hide Tiled, Indexed, Partitioned;
      CarveTile(tiles, cls, bump, c);
      CarvePartitioned(free, cls, live, bump, c);
      tiles := tiles + [Tile(bump, c)];
      cls, live := cls[bump := c], live + {bump};
      bump := bump + Cap(c);
    }

    method Free(b: Block)
      requires Valid() && (b.InArena? ==> b.off in live && cls[b.off] == b.cls)
      modifies this
      ensures Valid() && cls == old(cls)
      ensures live == if b.InArena? then old(live) - {b.off} else old(live)
      ensures bump == old(bump) && free == if b.InArena? then old(free)[b.cls := [b.off] + old(free)[b.cls]] else old(free)
    {
      if b.InArena? {
        assert Tile(b.off, cls[b.off]) in tiles;
        PushPartitioned(free, cls, live, b.off);
        free, live := free[b.cls := [b.off] + free[b.cls]], live - {b.off};
      }
    }
  }
}
