/** The side table: an index from (prefix, group) to the radix node of that group. */
module SideTable {
  import opened Common
  import opened Probe

  const INITIAL_CAP: nat := 4096

  class Table<V(!new)> {
    const hash: Key -> nat
    var cells: Cells<Key, V>
    var count: nat
    // The bindings put so far.
    ghost var bound: map<Key, V>

    ghost predicate Valid()
      reads this
    {
      && Holds(cells, hash, bound) && count == Load(cells) && |cells| >= INITIAL_CAP
      && count * 10 < |cells| * 7 + 10
    }

    constructor (hash: Key -> nat)
      ensures Valid() && bound == map[] && this.hash == hash
    {
      this.hash := hash;
      cells := seq(INITIAL_CAP, _ => Free);
      count, bound := 0, map[];
      new;
      EmptyHolds(cells, hash);
    }

    /** Double the table; no binding changes. */
    method Grow()
      requires Valid()
      modifies `cells
      ensures Valid() && |cells| == 2 * |old(cells)|
    {
      hide Holds;
      cells := Rehash(cells, hash, bound, 2 * |cells|);
    }

    method Put(k: Key, v: V)
      requires Valid()
      modifies this
      ensures Valid() && bound == old(bound)[k := v]
      ensures |cells| == if old(count) * 10 >= |old(cells)| * 7 then 2 * |old(cells)| else |old(cells)|
    {
      hide Holds;
      if count * 10 >= |cells| * 7 {
        Grow();
      }
      var j := Seek(cells, hash, bound, k);
      Written(cells, hash, bound, k, v, j);
      if cells[j].Free? {
        count := count + 1;
      }
      cells, bound := cells[j := Used(k, v)], bound[k := v];
    }

    method Get(k: Key) returns (r: Option<V>)
      requires Valid()
      ensures r == if k in bound then Some(bound[k]) else None
    {
      hide Holds;
      var j := Seek(cells, hash, bound, k);
      return if cells[j].Used? then Some(cells[j].val) else None;
    }
  }
}
