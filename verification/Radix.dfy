/**
The radix tree over token-group hashes.  Nodes live in a pool and point to each other by their
index; a node is never removed while the cache is open.
*/
module Radix {
  import opened Common
  import opened Edges

  type Path = seq<nat>

  datatype Node = Node(depth: nat, parent: Option<Id>, edges: Edges, hits: nat)

  /** The edges of all nodes, as maps. */
  type Kids = seq<map<nat, Id>>

  /** Edges lead from a node to younger ones. */
  ghost predicate Forward(kids: Kids) {
    0 < |kids| && forall n, h :: 0 <= n < |kids| && h in kids[n] ==> n < kids[n][h] < |kids|
  }

  /** `up` and `tag` give the one edge that may lead to a node. */
  ghost predicate Tagged(kids: Kids, up: seq<Id>, tag: seq<nat>) {
    && Forward(kids) && |up| == |tag| == |kids|
    && forall n, h :: 0 <= n < |kids| && h in kids[n] ==> up[kids[n][h]] == n && tag[kids[n][h]] == h
  }

  /** The node a path leads to. */
  ghost function Follow(kids: Kids, p: Path): (r: Option<Id>)
    requires Forward(kids)
    ensures r.Some? ==> r.value < |kids|
  {
    if p == [] then Some(0)
    else
      var q := Follow(kids, p[..|p| - 1]);
      if q.Some? && p[|p| - 1] in kids[q.value] then Some(kids[q.value][p[|p| - 1]]) else None
  }

  predicate NoZero(p: Path) {
    forall i :: 0 <= i < |p| ==> p[i] != 0
  }

  /** Different paths lead to different nodes. */
  lemma {:induction false} FollowUnique(kids: Kids, up: seq<Id>, tag: seq<nat>, p: Path, q: Path)
    requires Tagged(kids, up, tag) && Follow(kids, p).Some? && Follow(kids, p) == Follow(kids, q)
    ensures p == q
    decreases |p|
  {
    if p != [] && q != [] {
      FollowUnique(kids, up, tag, p[..|p| - 1], q[..|q| - 1]);
      assert p == p[..|p| - 1] + [p[|p| - 1]] && q == q[..|q| - 1] + [q[|q| - 1]];
    }
  }

  /** A path that can be followed can be followed part of the way. */
  lemma {:induction false} FollowPrefix(kids: Kids, p: Path, k: nat)
    requires Forward(kids) && k <= |p| && Follow(kids, p).Some?
    ensures Follow(kids, p[..k]).Some?
    decreases |p|
  {
    if k < |p| {
      FollowPrefix(kids, p[..|p| - 1], k);
      assert p[..|p| - 1][..k] == p[..k];
    } else {
      assert p[..k] == p;
    }
  }

  // ----- Adding a node -----

  /** A new last node was hung under `cur`, which may have lost its edge for hash zero. */
  ghost predicate Grown(kids: Kids, kids': Kids, cur: Id, h: nat) {
    && cur < |kids| && |kids'| == |kids| + 1 && kids'[|kids|] == map[]
    && (forall n :: 0 <= n < |kids| && n != cur ==> kids'[n] == kids[n])
    && (forall x :: x != 0 && x in kids[cur] ==> x in kids'[cur] && kids'[cur][x] == kids[cur][x])
    && (forall x :: x in kids'[cur] ==> (x == h && kids'[cur][x] == |kids|) || (x in kids[cur] && kids'[cur][x] == kids[cur][x]))
  }

  /** Paths without zeros: old ones lead where they led; a new one is an old one to `cur`, extended. */
  lemma {:induction false} GrownFollow(kids: Kids, kids': Kids, cur: Id, h: nat, p: Path)
    requires Forward(kids) && Forward(kids') && Grown(kids, kids', cur, h) && NoZero(p)
    ensures Follow(kids, p).Some? ==> Follow(kids', p) == Follow(kids, p)
    ensures Follow(kids', p).Some? && Follow(kids', p).value < |kids| ==> Follow(kids, p) == Follow(kids', p)
    ensures Follow(kids', p) == Some(|kids|) ==> p != [] && p[|p| - 1] == h && Follow(kids, p[..|p| - 1]) == Some(cur)
    decreases |p|
  {
    if p != [] {
      GrownFollow(kids, kids', cur, h, p[..|p| - 1]);
    }
  }

  /** No path without zeros changed where it leads; the new ones are prefixes of `to`. */
  ghost predicate Extended(kids0: Kids, kids: Kids, to: Path) {
    && Forward(kids0) && Forward(kids)
    && (forall p :: NoZero(p) && Follow(kids0, p).Some? ==> Follow(kids, p) == Follow(kids0, p))
    && (forall p :: NoZero(to) && NoZero(p) && Follow(kids, p).Some? && Follow(kids0, p).None? ==> p <= to)
  }

  lemma ExtendedSelf(kids: Kids, to: Path)
    requires Forward(kids)
    ensures Extended(kids, kids, to)
  {}

  lemma ExtendedLonger(kids0: Kids, kids: Kids, to: Path, h: nat)
    requires Extended(kids0, kids, to)
    ensures Extended(kids0, kids, to + [h])
  {
    forall p | NoZero(to + [h]) && NoZero(p) && Follow(kids, p).Some? && Follow(kids0, p).None?
      ensures p <= to + [h]
    {
      assert forall i :: 0 <= i < |to| ==> (to + [h])[i] == to[i];
      assert NoZero(to);
      assert p <= to;
    }
  }

  lemma ExtendedGrown(kids0: Kids, kids: Kids, kids': Kids, up: seq<Id>, tag: seq<nat>, to: Path, cur: Id, h: nat)
    requires Extended(kids0, kids, to) && Tagged(kids, up, tag) && Forward(kids') && Grown(kids, kids', cur, h)
    requires NoZero(to) ==> Follow(kids, to) == Some(cur)
    ensures Extended(kids0, kids', to + [h])
  {
    hide Tagged, Grown, Follow;
    forall p | NoZero(p) && Follow(kids0, p).Some?
      ensures Follow(kids', p) == Follow(kids0, p)
    {
      GrownFollow(kids, kids', cur, h, p);
    }
    forall p | NoZero(to + [h]) && NoZero(p) && Follow(kids', p).Some? && Follow(kids0, p).None?
      ensures p <= to + [h]
    {
      NoZeroPrefix(to, h);
      GrownPrefix(kids0, kids, kids', up, tag, to, cur, h, p);
    }
  }

  /** A path that leads somewhere only now is a prefix of the path that was added. */
  lemma GrownPrefix(kids0: Kids, kids: Kids, kids': Kids, up: seq<Id>, tag: seq<nat>, to: Path, cur: Id, h: nat, p: Path)
    requires Forward(kids0) && Forward(kids) && Forward(kids')
    requires Extended(kids0, kids, to) && Tagged(kids, up, tag) && Grown(kids, kids', cur, h)
    requires NoZero(to + [h]) && Follow(kids, to) == Some(cur)
    requires NoZero(p) && Follow(kids', p).Some? && Follow(kids0, p).None?
    ensures p <= to + [h]
  {
    NoZeroPrefix(to, h);
    GrownSize(kids, kids', cur, h);
    hide Tagged, Grown, Follow, Extended, NoZero, Forward;
    GrownFollow(kids, kids', cur, h, p);
    if Follow(kids', p) == Some(|kids|) {
      FollowUnique(kids, up, tag, p[..|p| - 1], to);
      WholePrefix(p, to, h);
    } else {
      ExtendedNew(kids0, kids, to, p);
      ShortPrefix(p, to, h);
    }
  }

  lemma WholePrefix(p: Path, to: Path, h: nat)
    requires p != [] && p[..|p| - 1] == to && p[|p| - 1] == h
    ensures p <= to + [h]
  {}

  lemma ShortPrefix(p: Path, to: Path, h: nat)
    requires p <= to
    ensures p <= to + [h]
  {}

  lemma NoZeroPrefix(to: Path, h: nat)
    requires NoZero(to + [h])
    ensures NoZero(to)
  {
    assert forall i :: 0 <= i < |to| ==> (to + [h])[i] == to[i];
  }

  lemma ExtendedNew(kids0: Kids, kids: Kids, to: Path, p: Path)
    requires Extended(kids0, kids, to) && NoZero(to) && NoZero(p) && Follow(kids, p).Some? && Follow(kids0, p).None?
    ensures p <= to
  {}

  lemma GrownSize(kids: Kids, kids': Kids, cur: Id, h: nat)
    requires Grown(kids, kids', cur, h)
    ensures |kids'| == |kids| + 1
  {}

  /** After an edge for a hash other than zero, the new node is where the path says. */
  lemma GrownReaches(kids: Kids, kids': Kids, cur: Id, h: nat, to: Path)
    requires Forward(kids) && Forward(kids') && Grown(kids, kids', cur, h) && NoZero(to) && Follow(kids, to) == Some(cur)
    requires h in kids'[cur] && kids'[cur][h] == |kids|
    ensures Follow(kids', to + [h]) == Some(|kids|)
  {
    GrownFollow(kids, kids', cur, h, to);
    assert (to + [h])[..|to|] == to;
  }

  // ----- Which nodes are in the tree -----

  /** The edges seen by a traversal lead from the root to n. */
  ghost predicate Attached(kids: Kids, up: seq<Id>, tag: seq<nat>, n: Id)
    requires Tagged(kids, up, tag)
    decreases n
  {
    n < |kids| && (n == 0 || (up[n] < n && Child(kids[up[n]], n) && Attached(kids, up, tag, up[n])))
  }

  /** These are the nodes that paths without zeros lead to. */
  lemma {:induction false} AttachedPath(kids: Kids, up: seq<Id>, tag: seq<nat>, n: Id) returns (p: Path)
    requires Tagged(kids, up, tag) && Attached(kids, up, tag, n)
    ensures NoZero(p) && Follow(kids, p) == Some(n)
    decreases n
  {
    if n == 0 {
      p := [];
    } else {
      var q := AttachedPath(kids, up, tag, up[n]);
      var h :| h != 0 && h in kids[up[n]] && kids[up[n]][h] == n;
      p := q + [h];
      assert p[..|q|] == q;
    }
  }

  lemma {:induction false} PathAttached(kids: Kids, up: seq<Id>, tag: seq<nat>, p: Path)
    requires Tagged(kids, up, tag) && NoZero(p) && Follow(kids, p).Some?
    ensures Attached(kids, up, tag, Follow(kids, p).value)
    decreases |p|
  {
    if p != [] {
      PathAttached(kids, up, tag, p[..|p| - 1]);
      var q, h := Follow(kids, p[..|p| - 1]).value, p[|p| - 1];
      assert Child(kids[q], kids[q][h]);
    }
  }

  // ----- The traversal -----

  lemma TaggedInjective(kids: Kids, up: seq<Id>, tag: seq<nat>, n: Id)
    requires Tagged(kids, up, tag) && n < |kids|
    ensures Injective(kids[n])
  {}

  /** Seen and stacked nodes are all different, and are the root and the children of seen nodes. */
  ghost predicate Frontier(kids: Kids, up: seq<Id>, tag: seq<nat>, seen: seq<Id>, stack: seq<Id>) {
    && Tagged(kids, up, tag) && NoDup(seen + stack)
    && (forall n :: n in seen + stack ==> n < |kids|)
    && (forall n: Id :: n in seen + stack <==> n == 0 || (n < |kids| && up[n] < n && up[n] in seen && Child(kids[up[n]], n)))
  }

  lemma VisitStart(kids: Kids, up: seq<Id>, tag: seq<nat>)
    requires Tagged(kids, up, tag)
    ensures Frontier(kids, up, tag, [], [0])
  {
    assert [] + [0] == [0];
  }

  lemma {:induction false} FrontierAttached(kids: Kids, up: seq<Id>, tag: seq<nat>, seen: seq<Id>, stack: seq<Id>, n: Id)
    requires Frontier(kids, up, tag, seen, stack) && n in seen + stack
    ensures Attached(kids, up, tag, n)
    decreases n
  {
    if n != 0 {
      assert up[n] in seen + stack;
      FrontierAttached(kids, up, tag, seen, stack, up[n]);
    }
  }

  /** The top of the stack is a new node of the tree. */
  lemma VisitTop(kids: Kids, up: seq<Id>, tag: seq<nat>, seen: seq<Id>, stack: seq<Id>)
    requires Frontier(kids, up, tag, seen, stack) && stack != []
    ensures var cur := stack[|stack| - 1]; cur < |kids| && NoDup(seen + [cur])
    ensures forall n :: n in seen + [stack[|stack| - 1]] ==> Attached(kids, up, tag, n)
    ensures |seen| < |kids|
  {
    var cur, all := stack[|stack| - 1], seen + stack;
    assert all[|all| - 1] == cur && cur in all;
    assert forall i :: 0 <= i < |seen| ==> (seen + [cur])[i] == all[i] && all[i] != all[|all| - 1];
    forall n | n in seen + [cur]
      ensures Attached(kids, up, tag, n)
    {
      assert n in all;
      FrontierAttached(kids, up, tag, seen, stack, n);
    }
    FewerThan(all, |kids|);
  }

  /** Different numbers below n are at most n. */
  lemma {:induction false} FewerThan(s: seq<Id>, n: nat)
    requires NoDup(s) && forall x :: x in s ==> x < n
    ensures |s| <= n
  {
    if n == 0 {
      assert forall i :: 0 <= i < |s| ==> s[i] in s;
    } else if n - 1 in s {
      var i :| 0 <= i < |s| && s[i] == n - 1;
      var t := s[..i] + s[i + 1..];
      forall x | x in t
        ensures x < n - 1
      {
        assert x in s && x != n - 1;
      }
      FewerThan(t, n - 1);
    } else {
      FewerThan(s, n - 1);
    }
  }

  /** Moving the top to the seen nodes and pushing its children. */
  lemma VisitStep(kids: Kids, up: seq<Id>, tag: seq<nat>, seen: seq<Id>, stack: seq<Id>, children: seq<Id>)
    requires Frontier(kids, up, tag, seen, stack) && stack != [] && stack[|stack| - 1] < |kids|
    requires NoDup(children) && forall c :: c in children <==> Child(kids[stack[|stack| - 1]], c)
    ensures Frontier(kids, up, tag, seen + [stack[|stack| - 1]], stack[..|stack| - 1] + children)
  {
    var cur, rest := stack[|stack| - 1], stack[..|stack| - 1];
    var was, now := seen + stack, (seen + [cur]) + (rest + children);
    assert stack == rest + [cur];
    forall n
      ensures n in now <==> n in was || n in children
    {
      assert n in stack <==> n in rest || n == cur;
    }
    forall c | c in children
      ensures c !in was && up[c] == cur && cur < c < |kids|
    {
      VisitNew(kids, up, tag, seen, stack, c);
    }
    NoDupStep(seen, rest, cur, children);
  }

  lemma VisitNew(kids: Kids, up: seq<Id>, tag: seq<nat>, seen: seq<Id>, stack: seq<Id>, c: Id)
    requires Frontier(kids, up, tag, seen, stack) && stack != [] && stack[|stack| - 1] < |kids|
    requires Child(kids[stack[|stack| - 1]], c)
    ensures c !in seen + stack && c < |kids| && up[c] == stack[|stack| - 1] < c
  {
    var cur, all := stack[|stack| - 1], seen + stack;
    assert all[|all| - 1] == cur;
    assert cur !in seen by {
      assert forall i :: 0 <= i < |seen| ==> all[i] == seen[i];
    }
  }

  lemma NoDupStep(seen: seq<Id>, rest: seq<Id>, cur: Id, children: seq<Id>)
    requires NoDup(seen + (rest + [cur])) && NoDup(children)
    requires forall c :: c in children ==> c !in seen + (rest + [cur])
    ensures NoDup((seen + [cur]) + (rest + children))
  {
    var was, now := seen + (rest + [cur]), (seen + [cur]) + (rest + children);
    var k := |seen| + |rest| + 1;
    assert forall i :: 0 <= i < |seen| ==> now[i] == was[i];
    assert now[|seen|] == was[k - 1];
    assert forall i :: |seen| < i < k ==> now[i] == was[i - 1];
    assert forall i :: k <= i < |now| ==> now[i] == children[i - k] && now[i] in children;
    forall i, j | 0 <= i < j < |now|
      ensures now[i] != now[j]
    {
      if j >= k > i {
        assert now[i] in was;
      }
    }
  }

  /** With the stack empty, every node of the tree was seen. */
  lemma VisitDone(kids: Kids, up: seq<Id>, tag: seq<nat>, seen: seq<Id>)
    requires Frontier(kids, up, tag, seen, [])
    ensures NoDup(seen) && forall n :: n in seen <==> Attached(kids, up, tag, n)
  {
    assert seen + [] == seen;
    forall n
      ensures n in seen <==> Attached(kids, up, tag, n)
    {
      if n in seen {
        FrontierAttached(kids, up, tag, seen, [], n);
      }
      if Attached(kids, up, tag, n) {
        AttachedSeen(kids, up, tag, seen, n);
      }
    }
  }

  lemma {:induction false} AttachedSeen(kids: Kids, up: seq<Id>, tag: seq<nat>, seen: seq<Id>, n: Id)
    requires Frontier(kids, up, tag, seen, []) && Attached(kids, up, tag, n)
    ensures n in seen
    decreases n
  {
    assert seen + [] == seen;
    if n != 0 {
      AttachedSeen(kids, up, tag, seen, up[n]);
    }
  }
}
