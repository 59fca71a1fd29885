/** Open addressing with linear probing, as the overflow edges and the side table use it. */
module Probe {
  import opened Common

  datatype Cell<K, V> = Free | Used(key: K, val: V)

  type Cells<K, V> = seq<Cell<K, V>>

  /** The d-th cell a probe that starts at cell h looks at. */
  function Slot(h: nat, d: nat, cap: nat): (j: nat)
    requires 0 < cap
    ensures j < cap
  {
    (h + d) % cap
  }

  function Home<K(!new)>(hash: K -> nat, k: K, cap: nat): (h: nat)
    requires 0 < cap
    ensures h < cap
  {
    hash(k) % cap
  }

  /** The first d cells of the probe that starts at h are used. */
  ghost predicate Busy<K, V>(c: Cells<K, V>, h: nat, d: nat)
    requires 0 < |c|
  {
    forall e: nat :: e < d ==> c[Slot(h, e, |c|)].Used?
  }

  /** Key k sits at cell j, and a probe for it gets there. */
  ghost predicate Lodged<K(!new), V>(c: Cells<K, V>, hash: K -> nat, k: K, j: nat)
    requires 0 < |c| && j < |c|
  {
    && c[j].Used? && c[j].key == k
    && exists d: nat :: Slot(Home(hash, k, |c|), d, |c|) == j && Busy(c, Home(hash, k, |c|), d)
  }

  /** The cells hold exactly the bindings of m, each where a probe finds it. */
  ghost predicate Holds<K(!new), V(!new)>(c: Cells<K, V>, hash: K -> nat, m: map<K, V>) {
    && 0 < |c|
    && (forall j: nat :: j < |c| && c[j].Used? ==> c[j].key in m && m[c[j].key] == c[j].val && Lodged(c, hash, c[j].key, j))
    && (forall i: nat, j: nat :: i < |c| && j < |c| && c[i].Used? && c[j].Used? && c[i].key == c[j].key ==> i == j)
    && (forall k :: k in m ==> exists j: nat :: j < |c| && c[j] == Used(k, m[k]))
  }

  /** Number of used cells. */
  function Load<K, V>(c: Cells<K, V>): (n: nat)
    ensures n <= |c|
  {
    if c == [] then 0 else (if c[0].Used? then 1 else 0) + Load(c[1..])
  }

  lemma {:induction false} FreeExists<K, V>(c: Cells<K, V>) returns (j: nat)
    requires Load(c) < |c|
    ensures j < |c| && c[j].Free?
  {
    if c[0].Free? {
      j := 0;
    } else {
      j := FreeExists(c[1..]);
      j := j + 1;
    }
  }

  lemma {:induction false} LoadUpdate<K, V>(c: Cells<K, V>, j: nat, x: Cell<K, V>)
    requires j < |c|
    ensures Load(c[j := x]) + (if c[j].Used? then 1 else 0) == Load(c) + if x.Used? then 1 else 0
  {
    if j == 0 {
      assert c[j := x][1..] == c[1..];
    } else {
      assert c[j := x][1..] == c[1..][j - 1 := x];
      LoadUpdate(c[1..], j - 1, x);
    }
  }

  lemma {:induction false} LoadAppend<K, V>(c: Cells<K, V>, x: Cell<K, V>)
    ensures Load(c + [x]) == Load(c) + if x.Used? then 1 else 0
  {
    if c == [] {
      assert c + [x] == [x] && [x][1..] == [];
    } else {
      assert (c + [x])[1..] == c[1..] + [x];
      LoadAppend(c[1..], x);
    }
  }

  lemma {:induction false} LoadFree<K, V>(c: Cells<K, V>)
    requires forall j :: 0 <= j < |c| ==> c[j].Free?
    ensures Load(c) == 0
  {
    if c != [] {
      LoadFree(c[1..]);
    }
  }

  lemma SlotNext(h: nat, d: nat, cap: nat)
    requires 0 < cap
    ensures (Slot(h, d, cap) + 1) % cap == Slot(h, d + 1, cap)
  {
    var q, r := (h + d) / cap, (h + d) % cap;
    if r + 1 < cap {
      ModUnique(q, r + 1, cap, h + d + 1);
      ModUnique(0, r + 1, cap, r + 1);
    } else {
      assert (q + 1) * cap == q * cap + cap;
      ModUnique(q + 1, 0, cap, h + d + 1);
      ModUnique(1, 0, cap, r + 1);
    }
  }

  lemma SlotZero(h: nat, cap: nat)
    requires h < cap
    ensures Slot(h, 0, cap) == h
  {
    ModUnique(0, h, cap, h);
  }

  /** Every cell is on every probe. */
  lemma SlotReaches(h: nat, j: nat, cap: nat) returns (d: nat)
    requires 0 < cap && j < cap && h < cap
    ensures d < cap && Slot(h, d, cap) == j
  {
    if h <= j {
      d := j - h;
      ModUnique(0, j, cap, j);
    } else {
      d := j + cap - h;
      ModUnique(1, j, cap, j + cap);
    }
  }

  /** A key cannot be lodged behind a free cell, nor among cells that hold other keys. */
  lemma NotLodged<K(!new), V(!new)>(c: Cells<K, V>, hash: K -> nat, m: map<K, V>, k: K, d: nat)
    requires Holds(c, hash, m)
    requires c[Slot(Home(hash, k, |c|), d, |c|)].Free?
    requires forall e: nat :: e < d ==> c[Slot(Home(hash, k, |c|), e, |c|)].Used? && c[Slot(Home(hash, k, |c|), e, |c|)].key != k
    ensures k !in m
  {}

  lemma Hit<K(!new), V(!new)>(c: Cells<K, V>, hash: K -> nat, m: map<K, V>, j: nat)
    requires Holds(c, hash, m) && j < |c| && c[j].Used?
    ensures c[j].key in m && c[j] == Used(c[j].key, m[c[j].key])
  {}

  /** The probe loop: it stops at the key or at the free cell where the key belongs. */
  method Seek<K(!new, ==), V(!new)>(c: Cells<K, V>, hash: K -> nat, ghost m: map<K, V>, k: K) returns (j: nat)
    requires Holds(c, hash, m) && Load(c) < |c|
    ensures j < |c|
    ensures c[j].Used? ==> k in m && c[j] == Used(k, m[k])
    ensures c[j].Free? ==> k !in m
    ensures exists d: nat :: Slot(Home(hash, k, |c|), d, |c|) == j && Busy(c, Home(hash, k, |c|), d)
  {
    assert 0 < |c|;
    hide Holds, Load, Slot, Home;
    var h := Home(hash, k, |c|);
    ghost var f := FreeExists(c);
    ghost var stop := SlotReaches(h, f, |c|);
    ghost var d: nat := 0;
    j := h;
    SlotZero(h, |c|);
    while c[j].Used? && c[j].key != k
      invariant j < |c| && j == Slot(h, d, |c|) && d <= stop
      invariant forall e: nat :: e < d ==> c[Slot(h, e, |c|)].Used? && c[Slot(h, e, |c|)].key != k
      decreases stop - d
    {
      SlotNext(h, d, |c|);
      j := (j + 1) % |c|;
      d := d + 1;
    }
    assert Busy(c, h, d);
    if c[j].Free? {
      NotLodged(c, hash, m, k, d);
    } else {
      Hit(c, hash, m, j);
    }
  }

  lemma BusyGrows<K, V>(c: Cells<K, V>, j: nat, x: Cell<K, V>, h: nat, d: nat)
    requires j < |c| && x.Used? && Busy(c, h, d)
    ensures Busy(c[j := x], h, d)
  {}

  /** Writing a binding at the cell the probe stopped at. */
  lemma Written<K(!new), V(!new)>(c: Cells<K, V>, hash: K -> nat, m: map<K, V>, k: K, v: V, j: nat)
    requires Holds(c, hash, m) && j < |c|
    requires if k in m then c[j] == Used(k, m[k]) else c[j].Free?
    requires exists d: nat :: Slot(Home(hash, k, |c|), d, |c|) == j && Busy(c, Home(hash, k, |c|), d)
    ensures Holds(c[j := Used(k, v)], hash, m[k := v])
    ensures Load(c[j := Used(k, v)]) == Load(c) + if k in m then 0 else 1
  {
    var c', m' := c[j := Used(k, v)], m[k := v];
    LoadUpdate(c, j, Used(k, v));
    forall i: nat | i < |c'| && c'[i].Used?
      ensures c'[i].key in m' && m'[c'[i].key] == c'[i].val && Lodged(c', hash, c'[i].key, i)
    {
      var key := c'[i].key;
      assert i != j ==> Lodged(c, hash, key, i);
      var d: nat :| Slot(Home(hash, key, |c|), d, |c|) == i && Busy(c, Home(hash, key, |c|), d);
      BusyGrows(c, j, Used(k, v), Home(hash, key, |c|), d);
    }
    forall x | x in m'
      ensures exists i: nat :: i < |c'| && c'[i] == Used(x, m'[x])
    {
      if x == k {
        assert c'[j] == Used(x, m'[x]);
      } else {
        var i: nat :| i < |c| && c[i] == Used(x, m[x]);
        assert i != j;
        assert c'[i] == Used(x, m'[x]);
      }
    }
  }

  lemma EmptyHolds<K(!new), V(!new)>(c: Cells<K, V>, hash: K -> nat)
    requires 0 < |c| && forall j :: 0 <= j < |c| ==> c[j].Free?
    ensures Holds(c, hash, map[]) && Load(c) == 0
  {
    LoadFree(c);
  }

  /** The bindings in the first i cells. */
  ghost predicate Moved<K(!new), V(!new)>(c: Cells<K, V>, i: nat, part: map<K, V>)
    requires i <= |c|
  {
    && (forall j :: 0 <= j < i && c[j].Used? ==> c[j].key in part && part[c[j].key] == c[j].val)
    && forall k :: k in part ==> exists j :: 0 <= j < i && c[j] == Used(k, part[k])
  }

  /** Rehash into a table of another size: no binding is lost or invented. */
  method Rehash<K(!new, ==), V(!new)>(c: Cells<K, V>, hash: K -> nat, ghost m: map<K, V>, cap: nat) returns (c': Cells<K, V>)
    requires Holds(c, hash, m) && Load(c) < cap
    ensures |c'| == cap && Holds(c', hash, m) && Load(c') == Load(c)
  {
    c' := seq(cap, _ => Free);
    EmptyHolds(c', hash);
    ghost var part: map<K, V> := map[];
    for i := 0 to |c|
      invariant |c'| == cap && Holds(c', hash, part) && Load(c') == Load(c[..i])
      invariant Moved(c, i, part)
    {
      LoadAppend(c[..i], c[i]);
      assert c[..i + 1] == c[..i] + [c[i]];
      LoadPrefix(c, i);
      if c[i].Used? {
        var k, v := c[i].key, c[i].val;
        NotYet(c, hash, m, i, part);
        var j := Seek(c', hash, part, k);
        Written(c', hash, part, k, v, j);
        MovedNext(c, hash, m, i, part);
        c', part := c'[j := Used(k, v)], part[k := v];
      } else {
        MovedFree(c, i, part);
      }
    }
    assert c[..|c|] == c;
    AllMoved(c, hash, m, part);
  }

  lemma {:induction false} LoadPrefix<K, V>(c: Cells<K, V>, i: nat)
    requires i <= |c|
    ensures Load(c[..i]) <= Load(c)
    decreases |c| - i
  {
    if i < |c| {
      assert c[..i + 1] == c[..i] + [c[i]];
      LoadAppend(c[..i], c[i]);
      LoadPrefix(c, i + 1);
    } else {
      assert c[..i] == c;
    }
  }

  lemma NotYet<K(!new), V(!new)>(c: Cells<K, V>, hash: K -> nat, m: map<K, V>, i: nat, part: map<K, V>)
    requires Holds(c, hash, m) && i < |c| && c[i].Used? && Moved(c, i, part)
    ensures c[i].key !in part
  {}

  lemma MovedNext<K(!new), V(!new)>(c: Cells<K, V>, hash: K -> nat, m: map<K, V>, i: nat, part: map<K, V>)
    requires Holds(c, hash, m) && i < |c| && c[i].Used? && Moved(c, i, part) && c[i].key !in part
    ensures Moved(c, i + 1, part[c[i].key := c[i].val])
  {
    var part' := part[c[i].key := c[i].val];
    forall k | k in part'
      ensures exists j :: 0 <= j < i + 1 && c[j] == Used(k, part'[k])
    {
      if k == c[i].key {
        assert c[i] == Used(k, part'[k]);
      } else {
        var j :| 0 <= j < i && c[j] == Used(k, part[k]);
        assert c[j] == Used(k, part'[k]);
      }
    }
  }

  lemma MovedFree<K(!new), V(!new)>(c: Cells<K, V>, i: nat, part: map<K, V>)
    requires i < |c| && c[i].Free? && Moved(c, i, part)
    ensures Moved(c, i + 1, part)
  {
    forall k | k in part
      ensures exists j :: 0 <= j < i + 1 && c[j] == Used(k, part[k])
    {
      var j :| 0 <= j < i && c[j] == Used(k, part[k]);
    }
  }

  lemma AllMoved<K(!new), V(!new)>(c: Cells<K, V>, hash: K -> nat, m: map<K, V>, part: map<K, V>)
    requires Holds(c, hash, m) && Moved(c, |c|, part)
    ensures part == m
  {
    forall k
      ensures k in part <==> k in m
      ensures k in m ==> part[k] == m[k]
    {
      if k in m {
        var j: nat :| j < |c| && c[j] == Used(k, m[k]);
      }
      if k in part {
        var j :| 0 <= j < |c| && c[j] == Used(k, part[k]);
      }
    }
  }
}
