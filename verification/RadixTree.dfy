/** The operations of the radix tree. */
module RadixTree {
  import opened Common
  import opened Edges
  import opened Radix

  /** The parent field and the depth of a node fit the edge that led to it. */
  ghost predicate NodeOk(nodes: seq<Node>, up: seq<Id>, n: nat)
    requires n < |nodes| == |up|
  {
    if n == 0 then nodes[n].parent == None && nodes[n].depth == 0
    else up[n] < n && nodes[n].parent == Some(up[n]) && nodes[n].depth == nodes[up[n]].depth + 1
  }

  ghost predicate NodesOk(nodes: seq<Node>, mix: nat -> nat, kids: Kids, up: seq<Id>) {
    && |nodes| == |kids| == |up|
    && (forall n: nat :: n < |nodes| ==> EdgesOk(nodes[n].edges, mix, kids[n]))
    && (forall n: nat :: n < |nodes| ==> NodeOk(nodes, up, n))
  }

  /** Old nodes changed at most in their edges, and new ones were not hit yet. */
  ghost predicate KeptNodes(before: seq<Node>, after: seq<Node>) {
    && |before| <= |after|
    && (forall n :: 0 <= n < |before| ==> after[n] == before[n].(edges := after[n].edges))
    && (forall n :: |before| <= n < |after| ==> after[n].hits == 0)
  }

  lemma KeptTransitive(a: seq<Node>, b: seq<Node>, c: seq<Node>)
    requires KeptNodes(a, b) && KeptNodes(b, c)
    ensures KeptNodes(a, c)
  {}

  /** n is x or one of its ancestors. */
  ghost predicate Above(up: seq<Id>, n: Id, x: Id)
    decreases x
  {
    n == x || (0 < x < |up| && up[x] < x && Above(up, n, up[x]))
  }

  class Tree {
    const mix: nat -> nat
    var nodes: seq<Node>
    // The edges as maps, and for each node the edge that led to it.
    ghost var kids: Kids
    ghost var up: seq<Id>
    ghost var tag: seq<nat>

    ghost predicate Valid()
      reads this
    {
      Tagged(kids, up, tag) && NodesOk(nodes, mix, kids, up)
    }

    constructor (mix: nat -> nat)
      ensures Valid() && kids == [map[]] && this.mix == mix
    {
      this.mix := mix;
      nodes := [Node(0, None, NO_EDGES, 0)];
      kids, up, tag := [map[]], [0], [0];
    }

    method EdgeGet(n: Id, h: nat) returns (r: Option<Id>)
      requires Valid() && n < |nodes|
      ensures r == if h in kids[n] then Some(kids[n][h]) else None
      ensures r.Some? ==> r.value < |nodes|
    {
      r := GetEdge(nodes[n].edges, mix, kids[n], h);
    }

    /** Hang a new node under `cur`. */
    method AddChild(cur: Id, h: nat) returns (child: Id)
      requires Valid() && cur < |nodes| && h !in kids[cur]
      modifies this
      ensures Valid() && child == |old(nodes)| && |nodes| == child + 1 && nodes[child].depth == old(nodes)[cur].depth + 1
      ensures Grown(old(kids), kids, cur, h)
      ensures h in kids[cur] <==> h != 0 || HasRoom(old(nodes)[cur].edges)
      ensures h in kids[cur] ==> kids[cur][h] == child
      ensures KeptNodes(old(nodes), nodes)
    {
      hide EdgesOk;
      child := |nodes|;
      var e := AddEdge(nodes[cur].edges, mix, kids[cur], h, child);
      ghost var m := Bound(nodes[cur].edges, kids[cur], h, child);
      AddedTagged(kids, up, tag, cur, nodes[cur].edges, h);
      AddedNodes(nodes, mix, kids, up, cur, e, m);
      nodes := nodes[cur := nodes[cur].(edges := e)] + [Node(nodes[cur].depth + 1, Some(cur), NO_EDGES, 0)];
      kids, up, tag := kids[cur := m] + [map[]], up + [cur], tag + [h];
    }

    lemma AddedTagged(kids: Kids, up: seq<Id>, tag: seq<nat>, cur: Id, e: Edges, h: nat)
      requires Tagged(kids, up, tag) && cur < |kids| && h !in kids[cur]
      ensures Tagged(kids[cur := Bound(e, kids[cur], h, |kids|)] + [map[]], up + [cur], tag + [h])
    {
      var m := Bound(e, kids[cur], h, |kids|);
      var kids' := kids[cur := m] + [map[]];
      forall n, x | 0 <= n < |kids'| && x in kids'[n]
        ensures n < kids'[n][x] < |kids'| && (up + [cur])[kids'[n][x]] == n && (tag + [h])[kids'[n][x]] == x
      {
        if n == cur && x == h {
          assert kids'[n][x] == |kids|;
        } else {
          assert x in kids[n] && kids'[n][x] == kids[n][x];
        }
      }
    }

    lemma AddedNodes(nodes: seq<Node>, mix: nat -> nat, kids: Kids, up: seq<Id>, cur: Id, e: Edges, m: map<nat, Id>)
      requires NodesOk(nodes, mix, kids, up) && cur < |nodes| && EdgesOk(e, mix, m)
      ensures NodesOk(nodes[cur := nodes[cur].(edges := e)] + [Node(nodes[cur].depth + 1, Some(cur), NO_EDGES, 0)], mix,
                      kids[cur := m] + [map[]], up + [cur])
    {
      hide EdgesOk;
      var nodes' := nodes[cur := nodes[cur].(edges := e)] + [Node(nodes[cur].depth + 1, Some(cur), NO_EDGES, 0)];
      NoEdgesOk(mix);
      forall n: nat | n < |nodes'|
        ensures NodeOk(nodes', up + [cur], n)
      {
        assert n < |nodes| ==> NodeOk(nodes, up, n);
      }
    }

    lemma NoEdgesOk(mix: nat -> nat)
      ensures EdgesOk(NO_EDGES, mix, map[])
    {}

    /**
    Walk down a path.  Without `create` the result is where the path leads.  With `create` missing
    nodes are added; if no hash of the path is zero, the path then leads to the result, every
    path that led somewhere still leads there, and only prefixes of this path lead to new nodes.
    */
    method Walk(path: Path, create: bool) returns (r: Option<Id>)
      requires Valid()
      modifies this
      ensures Valid() && Forward(old(kids))
      ensures !create ==> nodes == old(nodes) && kids == old(kids) && r == Follow(kids, path)
      ensures create ==> r.Some? && r.value < |nodes| && nodes[r.value].depth == |path|
      ensures create && NoZero(path) ==> Follow(kids, path) == r
      ensures Extended(old(kids), kids, path) && KeptNodes(old(nodes), nodes)
    {
      hide NodesOk, Extended, Tagged, NoZero, Follow, KeptNodes;
      KeptSelf(nodes);
      TreeFacts();
      var cur: Id := 0;
      ExtendedSelf(kids, []);
      ExtendedSelf(kids, path);
      RootPath(kids);
      assert path[..0] == [];
      for k := 0 to |path|
        invariant Valid() && Forward(kids) && |kids| == |nodes| && cur < |nodes| && nodes[cur].depth == k
        invariant !create ==> nodes == old(nodes) && kids == old(kids)
        invariant !create || NoZero(path[..k]) ==> Follow(kids, path[..k]) == Some(cur)
        invariant Extended(old(kids), kids, path[..k]) && KeptNodes(old(nodes), nodes)
      {
        assert path[..k + 1] == path[..k] + [path[k]];
        NoZeroNext(path[..k], path[k]);
        ghost var kids0, up0, tag0, nodes0 := kids, up, tag, nodes;
        var child := Descend(cur, path[k], create, path[..k]);
        KeptTransitive(old(nodes), nodes0, nodes);
        if child.None? {
          DeadEnd(kids, path, k);
          return None;
        }
        if kids == kids0 {
          ExtendedLonger(old(kids), kids, path[..k], path[k]);
        } else {
          ExtendedGrown(old(kids), kids0, kids, up0, tag0, path[..k], cur, path[k]);
        }
        cur := child.value;
      }
      assert path[..|path|] == path;
      return Some(cur);
    }

    /** One step of the walk, from the node that the path `to` leads to. */
    method Descend(cur: Id, h: nat, create: bool, ghost to: Path) returns (r: Option<Id>)
      requires Valid() && cur < |nodes| && |kids| == |nodes| && Forward(kids)
      requires !create || NoZero(to) ==> Follow(kids, to) == Some(cur)
      modifies this
      ensures Valid() && Forward(kids) && |kids| == |nodes|
      ensures !create ==> nodes == old(nodes) && kids == old(kids) && r == Follow(kids, to + [h])
      ensures create ==> r.Some?
      ensures r.Some? ==> r.value < |nodes| && nodes[r.value].depth == old(nodes)[cur].depth + 1
      ensures create && NoZero(to) && h != 0 ==> Follow(kids, to + [h]) == r
      ensures kids == old(kids) || Grown(old(kids), kids, cur, h)
      ensures KeptNodes(old(nodes), nodes)
    {
      hide NodesOk, Tagged, Grown;
      assert (to + [h])[..|to|] == to;
      r := EdgeGet(cur, h);
      if r.Some? {
        ChildDepth(cur, h);
      } else if create {
        ghost var kids0 := kids;
        var c := AddChild(cur, h);
        TreeFacts();
        if NoZero(to) && h != 0 {
          GrownReaches(kids0, kids, cur, h, to);
        }
        r := Some(c);
      }
    }

    lemma KeptSelf(s: seq<Node>)
      ensures KeptNodes(s, s)
    {}

    lemma RootPath(kids: Kids)
      requires Forward(kids)
      ensures Follow(kids, []) == Some(0) && NoZero([])
    {}

    lemma NoZeroNext(p: Path, h: nat)
      ensures NoZero(p + [h]) <==> NoZero(p) && h != 0
    {
      assert (p + [h])[|p|] == h;
      assert forall i :: 0 <= i < |p| ==> (p + [h])[i] == p[i];
    }

    lemma DeadEnd(kids: Kids, path: Path, k: nat)
      requires Forward(kids) && k < |path| && Follow(kids, path[..k + 1]).None?
      ensures Follow(kids, path).None?
    {
      if Follow(kids, path).Some? {
        FollowPrefix(kids, path, k + 1);
      }
    }

    lemma TreeFacts()
      requires Valid()
      ensures Forward(kids) && |kids| == |nodes| && 0 < |nodes| && nodes[0].depth == 0
    {
      assert NodeOk(nodes, up, 0);
    }

    lemma ChildDepth(n: Id, h: nat)
      requires Valid() && n < |nodes| && n < |kids| && h in kids[n]
      ensures kids[n][h] < |nodes| && nodes[kids[n][h]].depth == nodes[n].depth + 1
    {
      assert NodeOk(nodes, up, kids[n][h]);
    }

    /** The writer's own copy of the lookup: it follows the same edges as Walk. */
    method HotCheck(path: Path, threshold: nat) returns (hot: bool)
      requires Valid()
      ensures Forward(kids) && |kids| == |nodes|
      ensures hot <==> Follow(kids, path).Some? && (nodes[Follow(kids, path).value].hits > threshold
                       || (path != [] && Follow(kids, path[..|path| - 1]).Some?
                           && nodes[Follow(kids, path[..|path| - 1]).value].hits > threshold))
    {
      hide NodesOk, Tagged;
      TreeFacts();
      var cur: Id := 0;
      var parent: Option<Id> := None;
      assert path[..0] == [];
      for k := 0 to |path|
        invariant cur < |nodes| && Follow(kids, path[..k]) == Some(cur)
        invariant if k == 0 then parent == None else parent.Some? && Follow(kids, path[..k - 1]) == parent
      {
        assert path[..k + 1][..k] == path[..k];
        var child := CopiedLookup(cur, path[k]);
        if child.None? {
          if Follow(kids, path).Some? {
            FollowPrefix(kids, path, k + 1);
          }
          return false;
        }
        parent, cur := Some(cur), child.value;
      }
      assert path[..|path|] == path;
      return nodes[cur].hits > threshold || (parent.Some? && nodes[parent.value].hits > threshold);
    }

    /** First the inline slots, then the overflow table if there is one. */
    method CopiedLookup(n: Id, h: nat) returns (r: Option<Id>)
      requires Valid() && n < |nodes|
      ensures r == if h in kids[n] then Some(kids[n][h]) else None
      ensures r.Some? ==> r.value < |nodes|
    {
      assert EdgesOk(nodes[n].edges, mix, kids[n]);
      var e := nodes[n].edges;
      r := None;
      if e.Inline? {
        r := FindInline(e.slots, kids[n], h);
      }
      if r.None? && e.Overflow? {
        r := FindOverflow(e.cells, mix, kids[n], h);
      }
    }

    /** Count a hit on a node and all its ancestors, in 32 bits. */
    method HitAscend(node: Id, inc: nat)
      requires Valid() && node < |nodes|
      modifies `nodes
      ensures Valid() && |nodes| == |old(nodes)|
      ensures forall n: nat :: n < |nodes| ==>
                nodes[n] == old(nodes)[n].(hits := if Above(up, n, node) then (old(nodes)[n].hits + inc) % 0x1_0000_0000 else old(nodes)[n].hits)
    {
      hide EdgesOk, Tagged;
      var cur: Option<Id> := Some(node);
      while cur.Some?
        invariant Valid() && |nodes| == |old(nodes)| && (cur.Some? ==> cur.value < |nodes|)
        invariant forall n: nat :: n < |nodes| ==>
                    if Above(up, n, node) && !(cur.Some? && Above(up, n, cur.value))
                    then nodes[n] == old(nodes)[n].(hits := (old(nodes)[n].hits + inc) % 0x1_0000_0000)
                    else nodes[n] == old(nodes)[n]
        invariant cur.Some? ==> forall n: nat :: n < |nodes| && Above(up, n, cur.value) ==> Above(up, n, node)
        decreases if cur.Some? then cur.value + 1 else 0
      {
        var x: Id := cur.value;
        assert NodeOk(nodes, up, x);
        AboveLess(up, x);
        var before := nodes;
        nodes := nodes[x := nodes[x].(hits := (nodes[x].hits + inc) % 0x1_0000_0000)];
        HitsOk(before, mix, kids, up, x, (before[x].hits + inc) % 0x1_0000_0000);
        cur := nodes[x].parent;
      }
    }

    lemma HitsOk(nodes: seq<Node>, mix: nat -> nat, kids: Kids, up: seq<Id>, x: Id, hits: nat)
      requires NodesOk(nodes, mix, kids, up) && x < |nodes|
      ensures NodesOk(nodes[x := nodes[x].(hits := hits)], mix, kids, up)
    {
      hide EdgesOk;
      var nodes' := nodes[x := nodes[x].(hits := hits)];
      forall n: nat | n < |nodes'|
        ensures NodeOk(nodes', up, n)
      {
        assert NodeOk(nodes, up, n);
      }
    }

    /** A node is not above its parent. */
    lemma AboveLess(up: seq<Id>, x: Id)
      ensures 0 < x < |up| && up[x] < x ==> !Above(up, x, up[x])
    {
      if 0 < x < |up| && up[x] < x {
        AboveBound(up, x, up[x]);
      }
    }

    lemma {:induction false} AboveBound(up: seq<Id>, n: Id, x: Id)
      ensures Above(up, n, x) ==> n <= x
      decreases x
    {
      if n != x && 0 < x < |up| && up[x] < x {
        AboveBound(up, n, up[x]);
      }
    }

    /**
    Visit nodes from a stack until the callback `fn` asks to stop.  A visit that is not stopped
    reaches every node in the tree exactly once and no other node.
    */
    method Visit(fn: Id -> int) returns (rc: int, seen: seq<Id>)
      requires Valid()
      ensures Tagged(kids, up, tag)
      ensures NoDup(seen) && forall n :: n in seen ==> Attached(kids, up, tag, n)
      ensures rc == 0 ==> forall n :: (Attached(kids, up, tag, n) <==> n in seen) && (n in seen ==> fn(n) == 0)
      ensures rc != 0 ==> seen != [] && fn(seen[|seen| - 1]) == rc && forall i :: 0 <= i < |seen| - 1 ==> fn(seen[i]) == 0
    {
      hide NodesOk, Tagged, Attached, NoDup;
      TreeFacts();
      rc, seen := 0, [];
      var stack: seq<Id> := [0];
      VisitStart(kids, up, tag);
      while stack != []
        invariant Frontier(kids, up, tag, seen, stack)
        invariant forall n :: n in seen ==> fn(n) == 0
        decreases |nodes| - |seen|
      {
        var cur := stack[|stack| - 1];
        VisitTop(kids, up, tag, seen, stack);
        rc := fn(cur);
        if rc != 0 {
          assert forall i :: 0 <= i < |seen| ==> seen[i] in seen;
          return rc, seen + [cur];
        }
        TaggedInjective(kids, up, tag, cur);
        var children := ChildrenOf(cur);
        VisitStep(kids, up, tag, seen, stack, children);
        stack, seen := stack[..|stack| - 1] + children, seen + [cur];
      }
      VisitDone(kids, up, tag, seen);
    }

    method ChildrenOf(n: Id) returns (s: seq<Id>)
      requires Valid() && n < |nodes| == |kids| && Injective(kids[n])
      ensures NoDup(s) && forall c :: c in s <==> Child(kids[n], c)
    {
      assert EdgesOk(nodes[n].edges, mix, kids[n]);
      s := Children(nodes[n].edges, mix, kids[n]);
    }
  }
}
