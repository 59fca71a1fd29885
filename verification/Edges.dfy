/**
The edges of a radix node: eight slots in the node, then an open-addressing table.  A hash of
zero marks an empty slot.
*/
module Edges {
  import opened Common
  import opened Probe

  type Id = nat

  const SLOTS: nat := 8
  const FIRST_CAP: nat := 16

  /** An inline slot; the child of a slot with hash zero is only seen by a lookup of zero. */
  datatype Link = Link(hash: nat, child: Option<Id>)

  datatype Edges = Inline(slots: seq<Link>) | Overflow(cells: Cells<nat, Id>, used: nat)

  const NO_EDGES: Edges := Inline(seq(SLOTS, _ => Link(0, None)))

  /** Slots are filled from the front, with different hashes; only the first empty one may have a child. */
  predicate SlotsOk(slots: seq<Link>) {
    && |slots| == SLOTS
    && (forall i :: 0 <= i < SLOTS && slots[i].hash != 0 ==> slots[i].child.Some?)
    && (forall i, j :: 0 <= i < j < SLOTS && slots[i].hash == 0 ==> slots[j] == Link(0, None))
    && (forall i, j :: 0 <= i < j < SLOTS && slots[i].hash == slots[j].hash ==> slots[i].hash == 0)
  }

  /** The slots give exactly the bindings of m. */
  ghost predicate SlotsHold(slots: seq<Link>, m: map<nat, Id>)
    requires |slots| == SLOTS
  {
    && (forall i :: 0 <= i < SLOTS && slots[i].child.Some? ==> slots[i].hash in m && m[slots[i].hash] == slots[i].child.value)
    && (forall h :: h in m ==> exists i :: 0 <= i < SLOTS && slots[i] == Link(h, Some(m[h])))
  }

  /** The edges are those of m; lookups in the overflow table end, as it is at most 70 percent full. */
  ghost predicate EdgesOk(e: Edges, mix: nat -> nat, m: map<nat, Id>) {
    match e
    case Inline(slots) => SlotsOk(slots) && SlotsHold(slots, m)
    case Overflow(cells, used) =>
      && Holds(cells, mix, m) && 0 !in m
      && Load(cells) <= used <= |cells| * 7 / 10 && |cells| >= FIRST_CAP
  }

  /** Search the inline slots. */
  method FindInline(slots: seq<Link>, ghost m: map<nat, Id>, h: nat) returns (r: Option<Id>)
    requires SlotsOk(slots) && SlotsHold(slots, m)
    ensures r == if h in m then Some(m[h]) else None
  {
    for i := 0 to SLOTS
      invariant forall j :: 0 <= j < i ==> slots[j].hash != h
    {
      if slots[i].hash == h {
        return slots[i].child;
      }
    }
    return None;
  }

  method FindOverflow(cells: Cells<nat, Id>, mix: nat -> nat, ghost m: map<nat, Id>, h: nat) returns (r: Option<Id>)
    requires Holds(cells, mix, m) && Load(cells) < |cells|
    ensures r == if h in m then Some(m[h]) else None
  {
    hide Holds;
    var j := Seek(cells, mix, m, h);
    return if cells[j].Used? then Some(cells[j].val) else None;
  }

  method GetEdge(e: Edges, mix: nat -> nat, ghost m: map<nat, Id>, h: nat) returns (r: Option<Id>)
    requires EdgesOk(e, mix, m)
    ensures r == if h in m then Some(m[h]) else None
  {
    match e
    case Inline(slots) => r := FindInline(slots, m, h);
    case Overflow(cells, _) => r := FindOverflow(cells, mix, m, h);
  }

  /**
  The bindings after an edge was added.  Hash zero is not stored: its binding lasts only while
  the slot it was written to counts as empty, that is until the next edge, and an overflow
  table drops it at once.
  */
  function Bound(e: Edges, m: map<nat, Id>, h: nat, child: Id): map<nat, Id> {
    if h == 0 && !HasRoom(e) then m - {0} else (m - {0})[h := child]
  }

  /** Cells of the overflow table after another edge: 16 at first, and twice as many when it would be more than 70 percent full. */
  function CellsFor(e: Edges): nat {
    if e.Inline? then 16 else if e.used + 1 > |e.cells| * 7 / 10 then 2 * |e.cells| else |e.cells|
  }

  predicate HasRoom(e: Edges) {
    e.Inline? && exists i :: 0 <= i < |e.slots| && e.slots[i].hash == 0
  }

  lemma InlineAdded(slots: seq<Link>, m: map<nat, Id>, i: nat, h: nat, child: Id)
    requires SlotsOk(slots) && SlotsHold(slots, m) && h !in m
    requires i < SLOTS && slots[i].hash == 0 && forall j :: 0 <= j < i ==> slots[j].hash != 0
    ensures SlotsOk(slots[i := Link(h, Some(child))])
    ensures SlotsHold(slots[i := Link(h, Some(child))], (m - {0})[h := child])
  {
    var slots', m' := slots[i := Link(h, Some(child))], (m - {0})[h := child];
    forall x | x in m'
      ensures exists j :: 0 <= j < SLOTS && slots'[j] == Link(x, Some(m'[x]))
    {
      if x == h {
        assert slots'[i] == Link(x, Some(m'[x]));
      } else {
        var j :| 0 <= j < SLOTS && slots[j] == Link(x, Some(m[x]));
        assert slots'[j] == Link(x, Some(m'[x]));
      }
    }
  }

  /** The bindings of the first i slots. */
  ghost predicate Copied(slots: seq<Link>, i: nat, part: map<nat, Id>)
    requires i <= |slots|
  {
    && (forall j :: 0 <= j < i && slots[j].child.Some? ==> slots[j].hash in part && part[slots[j].hash] == slots[j].child.value)
    && forall h :: h in part ==> exists j :: 0 <= j < i && slots[j] == Link(h, Some(part[h]))
  }

  lemma CopiedNext(slots: seq<Link>, i: nat, part: map<nat, Id>)
    requires SlotsOk(slots) && i < SLOTS && slots[i].hash != 0 && Copied(slots, i, part)
    ensures slots[i].hash !in part
    ensures Copied(slots, i + 1, part[slots[i].hash := slots[i].child.value])
  {
    var part' := part[slots[i].hash := slots[i].child.value];
    forall h | h in part'
      ensures exists j :: 0 <= j < i + 1 && slots[j] == Link(h, Some(part'[h]))
    {
      if h == slots[i].hash {
        assert slots[i] == Link(h, Some(part'[h]));
      } else {
        var j :| 0 <= j < i && slots[j] == Link(h, Some(part[h]));
      }
    }
  }

  lemma CopiedAll(slots: seq<Link>, m: map<nat, Id>, part: map<nat, Id>)
    requires |slots| == SLOTS && SlotsHold(slots, m) && Copied(slots, SLOTS, part)
    ensures part == m
  {
    forall h
      ensures h in part <==> h in m
      ensures h in m ==> part[h] == m[h]
    {
      if h in m {
        var j :| 0 <= j < SLOTS && slots[j] == Link(h, Some(m[h]));
      }
      if h in part {
        var j :| 0 <= j < SLOTS && slots[j] == Link(h, Some(part[h]));
      }
    }
  }

  /** Move full inline slots to a new overflow table. */
  method Migrate(slots: seq<Link>, mix: nat -> nat, ghost m: map<nat, Id>) returns (e: Edges)
    requires SlotsOk(slots) && SlotsHold(slots, m) && forall i :: 0 <= i < SLOTS ==> slots[i].hash != 0
    ensures e.Overflow? && EdgesOk(e, mix, m) && e.used == SLOTS && |e.cells| == FIRST_CAP
  {
    hide Holds;
    var cells: Cells<nat, Id> := seq(FIRST_CAP, _ => Free);
    EmptyHolds(cells, mix);
    ghost var part: map<nat, Id> := map[];
    var used := 0;
    for i := 0 to SLOTS
      invariant |cells| == FIRST_CAP && Holds(cells, mix, part) && Load(cells) == used == i
      invariant Copied(slots, i, part)
    {
      var h, child := slots[i].hash, slots[i].child.value;
      CopiedNext(slots, i, part);
      var j := Seek(cells, mix, part, h);
      Written(cells, mix, part, h, child, j);
      cells, part, used := cells[j := Used(h, child)], part[h := child], used + 1;
    }
    CopiedAll(slots, m, part);
    e := Overflow(cells, used);
  }

  /** Add to the overflow table, which is doubled when it would be more than 70 percent full. */
  method AddOverflow(e: Edges, mix: nat -> nat, ghost m: map<nat, Id>, h: nat, child: Id) returns (e': Edges)
    requires e.Overflow? && EdgesOk(e, mix, m) && h !in m
    ensures EdgesOk(e', mix, Bound(e, m, h, child))
    ensures e'.Overflow? && e'.used == e.used + 1
    ensures |e'.cells| == if e.used + 1 > |e.cells| * 7 / 10 then 2 * |e.cells| else |e.cells|
  {
    hide Holds;
    var cells := e.cells;
    if e.used + 1 > |cells| * 7 / 10 {
      cells := Rehash(cells, mix, m, 2 * |cells|);
    }
    assert m - {0} == m;
    if h == 0 {
      return Overflow(cells, e.used + 1);
    }
    var j := Seek(cells, mix, m, h);
    Written(cells, mix, m, h, child, j);
    return Overflow(cells[j := Used(h, child)], e.used + 1);
  }

  /** Add an edge that is not there yet. */
  method AddEdge(e: Edges, mix: nat -> nat, ghost m: map<nat, Id>, h: nat, child: Id) returns (e': Edges)
    requires EdgesOk(e, mix, m) && h !in m
    ensures EdgesOk(e', mix, Bound(e, m, h, child))
    ensures e'.Inline? <==> HasRoom(e)
    ensures e'.Overflow? ==> e'.used == (if e.Overflow? then e.used else SLOTS) + 1 && |e'.cells| == CellsFor(e)
  {
    hide Holds;
    var o := e;
    if e.Inline? {
      for i := 0 to SLOTS
        invariant forall j :: 0 <= j < i ==> e.slots[j].hash != 0
      {
        if e.slots[i].hash == 0 {
          InlineAdded(e.slots, m, i, h, child);
          return Inline(e.slots[i := Link(h, Some(child))]);
        }
      }
      o := Migrate(e.slots, mix, m);
    }
    e' := AddOverflow(o, mix, m, h, child);
  }

  /**
  The checkpoint loader has its own way to add an edge: from full slots it goes to the new table
  without asking whether that has to grow.  The bindings are those that AddEdge gives.
  */
  method LoadEdge(e: Edges, mix: nat -> nat, ghost m: map<nat, Id>, h: nat, child: Id) returns (e': Edges)
    requires EdgesOk(e, mix, m) && h !in m
    ensures EdgesOk(e', mix, Bound(e, m, h, child))
    ensures e'.Inline? <==> HasRoom(e)
    ensures e'.Overflow? ==> e'.used == (if e.Overflow? then e.used else SLOTS) + 1 && |e'.cells| == CellsFor(e)
  {
    hide Holds;
    if e.Overflow? {
      e' := AddOverflow(e, mix, m, h, child);
      return;
    }
    for i := 0 to SLOTS
      invariant forall j :: 0 <= j < i ==> e.slots[j].hash != 0
    {
      if e.slots[i].hash == 0 {
        InlineAdded(e.slots, m, i, h, child);
        return Inline(e.slots[i := Link(h, Some(child))]);
      }
    }
    var o := Migrate(e.slots, mix, m);
    assert m - {0} == m;
    if h == 0 {
      return Overflow(o.cells, o.used + 1);
    }
    var j := Seek(o.cells, mix, m, h);
    Written(o.cells, mix, m, h, child, j);
    return Overflow(o.cells[j := Used(h, child)], o.used + 1);
  }

  /** The edges of one node in a checkpoint: none for hash zero, and no hash twice. */
  predicate Listable(hashes: seq<nat>) {
    NoDup(hashes) && 0 !in hashes
  }

  /** The hashes lead to one child after the other, from `from` on. */
  function Numbering(hashes: seq<nat>, from: Id): map<nat, Id> {
    if hashes == [] then map[]
    else Numbering(hashes[..|hashes| - 1], from)[hashes[|hashes| - 1] := from + |hashes| - 1]
  }

  /** Each hash of the list leads to its own child, and no other hash to any. */
  lemma {:induction false} NumberingMeans(hashes: seq<nat>, from: Id)
    requires NoDup(hashes)
    ensures forall j :: 0 <= j < |hashes| ==> hashes[j] in Numbering(hashes, from) && Numbering(hashes, from)[hashes[j]] == from + j
    ensures forall h :: h in Numbering(hashes, from) ==> h in hashes
  {
    if hashes != [] {
      NumberingMeans(hashes[..|hashes| - 1], from);
    }
  }

  /** All edges of a node as the loader adds them. */
  method LoadEdges(mix: nat -> nat, hashes: seq<nat>, from: Id) returns (e: Edges)
    requires Listable(hashes)
    ensures EdgesOk(e, mix, Numbering(hashes, from))
  {
    hide EdgesOk;
    e := NO_EDGES;
    NoEdges(mix);
    for i := 0 to |hashes|
      invariant EdgesOk(e, mix, Numbering(hashes[..i], from))
    {
      NumberingNext(e, hashes, i, from);
      e := LoadEdge(e, mix, Numbering(hashes[..i], from), hashes[i], from + i);
    }
    assert hashes[..|hashes|] == hashes;
  }

  lemma NoEdges(mix: nat -> nat)
    ensures EdgesOk(NO_EDGES, mix, map[])
  {}

  lemma NumberingNext(e: Edges, hashes: seq<nat>, i: nat, from: Id)
    requires Listable(hashes) && i < |hashes|
    ensures var m := Numbering(hashes[..i], from);
            hashes[i] !in m && Bound(e, m, hashes[i], from + i) == Numbering(hashes[..i + 1], from)
  {
    NumberingMeans(hashes[..i], from);
    assert hashes[..i + 1][..i] == hashes[..i] && hashes[i] in hashes;
    var m := Numbering(hashes[..i], from);
    assert m - {0} == m;
  }

  /** Every hash but zero keeps its edge, and the added one is found exactly when it was stored. */
  lemma AddKeeps(e: Edges, m: map<nat, Id>, h: nat, child: Id, x: nat)
    requires h !in m
    ensures x != 0 && x in m ==> x in Bound(e, m, h, child) && Bound(e, m, h, child)[x] == m[x]
    ensures x in Bound(e, m, h, child) ==> x == h || (x in m && x != 0)
    ensures h in Bound(e, m, h, child) <==> h != 0 || HasRoom(e)
  {}

  /** An edge for hash zero is lost with the next edge. */
  lemma ZeroHashLost(e: Edges, e': Edges, m: map<nat, Id>, a: Id, h: nat, b: Id)
    requires h != 0
    ensures 0 !in Bound(e', Bound(e, m, 0, a), h, b)
  {}

  // ----- Listing the children -----

  /** c is the child of some edge a traversal sees. */
  ghost predicate Child(m: map<nat, Id>, c: Id) {
    exists h :: h != 0 && h in m && m[h] == c
  }

  ghost predicate Injective(m: map<nat, Id>) {
    forall g, h :: g in m && h in m && m[g] == m[h] ==> g == h
  }

  /** s lists, once each, the children in the first i slots. */
  ghost predicate InlineListed(slots: seq<Link>, i: nat, s: seq<Id>)
    requires i <= |slots|
  {
    NoDup(s) && forall c :: c in s <==> exists j :: 0 <= j < i && slots[j].hash != 0 && slots[j].child == Some(c)
  }

  method InlineChildren(slots: seq<Link>, ghost m: map<nat, Id>) returns (s: seq<Id>)
    requires SlotsOk(slots) && SlotsHold(slots, m) && Injective(m)
    ensures NoDup(s) && forall c :: c in s <==> Child(m, c)
  {
    s := [];
    for i := 0 to SLOTS
      invariant InlineListed(slots, i, s)
    {
      if slots[i].hash != 0 {
        InlineNext(slots, m, i, s);
        s := s + [slots[i].child.value];
      }
    }
    InlineAll(slots, m, s);
  }

  lemma InlineNext(slots: seq<Link>, m: map<nat, Id>, i: nat, s: seq<Id>)
    requires SlotsOk(slots) && SlotsHold(slots, m) && Injective(m) && i < SLOTS && slots[i].hash != 0
    requires InlineListed(slots, i, s)
    ensures InlineListed(slots, i + 1, s + [slots[i].child.value])
  {
    var x := slots[i].child.value;
    assert x !in s;
    forall c
      ensures c in s + [x] <==> exists j :: 0 <= j < i + 1 && slots[j].hash != 0 && slots[j].child == Some(c)
    {
      if c in s {
        var j :| 0 <= j < i && slots[j].hash != 0 && slots[j].child == Some(c);
      }
      if c == x {
        assert slots[i].child == Some(c);
      }
    }
  }

  lemma InlineAll(slots: seq<Link>, m: map<nat, Id>, s: seq<Id>)
    requires SlotsOk(slots) && SlotsHold(slots, m) && InlineListed(slots, SLOTS, s)
    ensures forall c :: c in s <==> Child(m, c)
  {
    forall c
      ensures c in s <==> Child(m, c)
    {
      if c in s {
        var j :| 0 <= j < SLOTS && slots[j].hash != 0 && slots[j].child == Some(c);
        assert m[slots[j].hash] == c;
      }
      if Child(m, c) {
        var h :| h != 0 && h in m && m[h] == c;
        var j :| 0 <= j < SLOTS && slots[j] == Link(h, Some(m[h]));
        assert slots[j].child == Some(c);
      }
    }
  }

  /** s lists, once each, the children in the first i cells. */
  ghost predicate OverflowListed(cells: Cells<nat, Id>, i: nat, s: seq<Id>)
    requires i <= |cells|
  {
    NoDup(s) && forall c :: c in s <==> exists j :: 0 <= j < i && cells[j].Used? && cells[j].val == c
  }

  method OverflowChildren(cells: Cells<nat, Id>, mix: nat -> nat, ghost m: map<nat, Id>) returns (s: seq<Id>)
    requires Holds(cells, mix, m) && 0 !in m && Injective(m)
    ensures NoDup(s) && forall c :: c in s <==> Child(m, c)
  {
    hide Holds;
    s := [];
    for i := 0 to |cells|
      invariant OverflowListed(cells, i, s)
    {
      if cells[i].Used? {
        OverflowNext(cells, mix, m, i, s);
        s := s + [cells[i].val];
      }
    }
    OverflowAll(cells, mix, m, s);
  }

  lemma OverflowNext(cells: Cells<nat, Id>, mix: nat -> nat, m: map<nat, Id>, i: nat, s: seq<Id>)
    requires Holds(cells, mix, m) && Injective(m) && i < |cells| && cells[i].Used?
    requires OverflowListed(cells, i, s)
    ensures OverflowListed(cells, i + 1, s + [cells[i].val])
  {
    var x := cells[i].val;
    assert x !in s;
    forall c
      ensures c in s + [x] <==> exists j :: 0 <= j < i + 1 && cells[j].Used? && cells[j].val == c
    {
      if c in s {
        var j :| 0 <= j < i && cells[j].Used? && cells[j].val == c;
      }
      if c == x {
        assert cells[i].val == c;
      }
    }
  }

  lemma OverflowAll(cells: Cells<nat, Id>, mix: nat -> nat, m: map<nat, Id>, s: seq<Id>)
    requires Holds(cells, mix, m) && 0 !in m && OverflowListed(cells, |cells|, s)
    ensures forall c :: c in s <==> Child(m, c)
  {
    forall c
      ensures c in s <==> Child(m, c)
    {
      if c in s {
        var j :| 0 <= j < |cells| && cells[j].Used? && cells[j].val == c;
        Hit(cells, mix, m, j);
      }
      if Child(m, c) {
        var h :| h != 0 && h in m && m[h] == c;
        var j: nat :| j < |cells| && cells[j] == Used(h, m[h]);
        assert cells[j].val == c;
      }
    }
  }

  /** The children a traversal pushes, each once. */
  method Children(e: Edges, mix: nat -> nat, ghost m: map<nat, Id>) returns (s: seq<Id>)
    requires EdgesOk(e, mix, m) && Injective(m)
    ensures NoDup(s) && forall c :: c in s <==> Child(m, c)
  {
    match e
    case Inline(slots) => s := InlineChildren(slots, m);
    case Overflow(cells, _) => s := OverflowChildren(cells, mix, m);
  }
}
