/**
The checkpoint file: the shapes, then the index tree in preorder, one record a node and one
a leaf; and the loader that rebuilds the tree with a stack of 128 entries.
*/
module Checkpoint {
  import opened Common
  import opened Leaves

  const STACK: nat := 128

  type Path = seq<nat>
  type Pool = seq<seq<nat>>

  /** What a leaf holds besides the key path: the id of the prefix and the published leaf. */
  datatype Entry = Entry(prefix: nat, leaf: Leaf)

  /** A node of the index tree with its edges in slot order. */
  datatype Node = Node(entry: Option<Entry>, kids: Kids)
  datatype Kids = End | More(hash: nat, node: Node, rest: Kids)

  /** A leaf as stored: the shape is replaced by its id. */
  datatype Stored = Stored(prefix: nat, ver: nat, addr: seq<Addr>, stripe: Option<Stripe>, shapeId: Option<nat>)

  datatype Rec = Internal(depth: nat, hash: nat) | LeafRec(depth: nat, data: Stored)

  // ----- Shapes -----

  /** Index of a shape in the pool, or the length of the pool. */
  function Find(pool: Pool, lens: seq<nat>): (i: nat)
    ensures i <= |pool|
    ensures i < |pool| ==> pool[i] == lens
    ensures forall j :: 0 <= j < i ==> pool[j] != lens
  {
    FindFrom(pool, lens, 0)
  }

  function FindFrom(pool: Pool, lens: seq<nat>, from: nat): (i: nat)
    requires from <= |pool|
    ensures from <= i <= |pool|
    ensures i < |pool| ==> pool[i] == lens
    ensures forall j :: from <= j < i ==> pool[j] != lens
    decreases |pool| - from
  {
    if from == |pool| || pool[from] == lens then from else FindFrom(pool, lens, from + 1)
  }

  predicate Distinct(pool: Pool) {
    forall i, j :: 0 <= i < j < |pool| ==> pool[i] != pool[j]
  }

  /** Intern a shape: an equal one is shared, ids never change and stay unique. */
  method Intern(pool: Pool, lens: seq<nat>) returns (pool': Pool, id: nat)
    requires Distinct(pool)
    ensures Distinct(pool') && pool <= pool'
    ensures id < |pool'| && pool'[id] == lens
    ensures pool' == pool || pool' == pool + [lens]
    ensures lens in pool ==> pool' == pool
  {
    var i := 0;
    while i < |pool|
      invariant 0 <= i <= |pool|
      invariant forall j :: 0 <= j < i ==> pool[j] != lens
    {
      if pool[i] == lens {
        return pool, i;
      }
      i := i + 1;
    }
    return pool + [lens], |pool|;
  }

  /** Load the shapes of a file into an empty pool: every id means the same shape again. */
  method LoadShapes(shapes: Pool) returns (pool: Pool)
    requires Distinct(shapes)
    ensures pool == shapes
  {
    pool := [];
    for s := 0 to |shapes|
      invariant pool == shapes[..s]
    {
      var id: nat;
      assert forall j :: 0 <= j < s ==> pool[j] != shapes[s];
      pool, id := Intern(pool, shapes[s]);
      assert pool != shapes[..s] ==> pool == shapes[..s + 1];
    }
  }

  // ----- Writing -----

  function Store(pool: Pool, e: Entry): Stored {
    Stored(e.prefix, e.leaf.ver, e.leaf.addr, e.leaf.stripe,
           match e.leaf.shape case None => None case Some(lens) => Some(Find(pool, lens)))
  }

  function Resolve(pool: Pool, d: Stored): Entry {
    Entry(d.prefix, Leaf(d.ver, d.addr, d.stripe,
      if d.shapeId.Some? && d.shapeId.value < |pool| then Some(pool[d.shapeId.value]) else None))
  }

  /** A leaf resolves to itself exactly when its shape is in the pool. */
  lemma StoreRoundTrip(pool: Pool, e: Entry)
    ensures Resolve(pool, Store(pool, e)) == e <==> (e.leaf.shape.Some? ==> e.leaf.shape.value in pool)
  {}

  function WriteNode(pool: Pool, n: Node, hash: nat, depth: nat): seq<Rec> {
    [Internal(depth, hash)]
    + (if n.entry.Some? then [LeafRec(depth, Store(pool, n.entry.value))] else [])
    + WriteKids(pool, n.kids, depth + 1)
  }

  function WriteKids(pool: Pool, kids: Kids, depth: nat): seq<Rec> {
    match kids
    case End => []
    case More(h, n, rest) => WriteNode(pool, n, h, depth) + WriteKids(pool, rest, depth)
  }

  // ----- Loading -----

  /** Nodes by hash path, the leaf count, and the stack of node paths. */
  datatype Build = Build(nodes: map<Path, Option<Entry>>, leaves: nat, stack: seq<Path>)

  /** Loading succeeds, or stops with an error or with a read beyond the filled stack. */
  datatype Outcome = Loaded(build: Build) | Stopped

  function Pop(stack: seq<Path>, n: nat): seq<Path> {
    if |stack| > n then stack[..n] else stack
  }

  function LoadRec(pool: Pool, b: Build, r: Rec): Outcome {
    match r
    case Internal(d, h) =>
      var stack := Pop(b.stack, d);
      if stack == [] || d > |stack| then Stopped
      else
        var child := stack[d - 1] + [h];
        Loaded(Build(b.nodes[child := None], b.leaves, if |stack| < STACK then stack + [child] else stack))
    case LeafRec(d, data) =>
      var stack := Pop(b.stack, d + 1);
      if |stack| < d + 1 then Stopped
      else Loaded(Build(b.nodes[stack[d] := Some(Resolve(pool, data))], b.leaves + 1, stack))
  }

  function LoadAll(pool: Pool, b: Build, recs: seq<Rec>): Outcome
    decreases |recs|
  {
    if recs == [] then Loaded(b)
    else
      match LoadRec(pool, b, recs[0])
      case Stopped => Stopped
      case Loaded(b') => LoadAll(pool, b', recs[1..])
  }

  const EMPTY: Build := Build(map[], 0, [[]])

  /** The loader: one pass over the records with an explicit stack. */
  method Load(pool: Pool, recs: seq<Rec>) returns (r: Outcome)
    ensures r == LoadAll(pool, EMPTY, recs)
  {
    var b := EMPTY;
    var i := 0;
    assert recs[0..] == recs;
    while i < |recs|
      invariant 0 <= i <= |recs|
      invariant LoadAll(pool, EMPTY, recs) == LoadAll(pool, b, recs[i..])
    {
      var step := LoadRec(pool, b, recs[i]);
      if step.Stopped? {
        return Stopped;
      }
      assert recs[i..][1..] == recs[i + 1..];
      b := step.build;
      i := i + 1;
    }
    return Loaded(b);
  }

  // ----- What the tree says -----

  /** The leaves by hash path, below the node reached by `path`. */
  function KidPaths(kids: Kids, path: Path): map<Path, Option<Entry>> {
    match kids
    case End => map[]
    case More(h, n, rest) => NodePaths(n, path + [h]) + KidPaths(rest, path)
  }

  function NodePaths(n: Node, path: Path): map<Path, Option<Entry>> {
    map[path := n.entry] + KidPaths(n.kids, path)
  }

  function Hashes(kids: Kids): set<nat> {
    match kids
    case End => {}
    case More(h, _, rest) => {h} + Hashes(rest)
  }

  /** Edges of one node carry different hashes. */
  predicate UniqueHashes(kids: Kids) {
    match kids
    case End => true
    case More(h, n, rest) => h !in Hashes(rest) && UniqueHashes(n.kids) && UniqueHashes(rest)
  }

  /** The node that a walk along `path` reaches. */
  function Walk(kids: Kids, path: Path): Option<Node>
    requires path != []
    decreases kids
  {
    match kids
    case End => None
    case More(h, n, rest) =>
      if path[0] != h then Walk(rest, path)
      else if |path| == 1 then Some(n)
      else Walk(n.kids, path[1..])
  }

  lemma {:induction false} KeysExtend(kids: Kids, path: Path, q: Path)
    requires q in KidPaths(kids, path)
    ensures |path| < |q| && q[..|path|] == path && q[|path|] in Hashes(kids)
    decreases kids
  {
    match kids
    case More(h, n, rest) =>
      if q in KidPaths(rest, path) {
        KeysExtend(rest, path, q);
      } else if q != path + [h] {
        KeysExtend(n.kids, path + [h], q);
        assert q[..|path|] == q[..|path| + 1][..|path|];
        assert q[|path|] == q[..|path| + 1][|path|];
      }
  }

  /** The paths of the tree are what walking it finds. */
  lemma {:induction false} PathsAreWalks(kids: Kids, prefix: Path, path: Path)
    requires UniqueHashes(kids) && path != []
    ensures prefix + path in KidPaths(kids, prefix) <==> Walk(kids, path).Some?
    ensures Walk(kids, path).Some? ==> KidPaths(kids, prefix)[prefix + path] == Walk(kids, path).value.entry
    decreases kids
  {
    match kids
    case End =>
    case More(h, n, rest) =>
      var q := prefix + path;
      PathsAreWalks(rest, prefix, path);
      if q in KidPaths(rest, prefix) {
        KeysExtend(rest, prefix, q);
      }
      if q in KidPaths(n.kids, prefix + [h]) {
        KeysExtend(n.kids, prefix + [h], q);
        assert q[|prefix|] == q[..|prefix| + 1][|prefix|];
      }
      assert q[|prefix|] == path[0];
      if path[0] == h && |path| > 1 {
        assert q == (prefix + [h]) + path[1..];
        PathsAreWalks(n.kids, prefix + [h], path[1..]);
      } else if path[0] == h {
        assert q == prefix + [h];
      }
  }

  function CountLeaves(kids: Kids): nat {
    match kids
    case End => 0
    case More(_, n, rest) => (if n.entry.Some? then 1 else 0) + CountLeaves(n.kids) + CountLeaves(rest)
  }

  /** The shapes of all leaves are in the pool. */
  predicate Pooled(pool: Pool, kids: Kids) {
    match kids
    case End => true
    case More(_, n, rest) =>
      && (n.entry.Some? && n.entry.value.leaf.shape.Some? ==> n.entry.value.leaf.shape.value in pool)
      && Pooled(pool, n.kids) && Pooled(pool, rest)
  }

  /** Nodes at most 128 deep, leaves at most 127 deep. */
  predicate Shallow(kids: Kids, depth: nat) {
    match kids
    case End => true
    case More(_, n, rest) =>
      && depth <= STACK && (n.entry.Some? ==> depth < STACK)
      && Shallow(n.kids, depth + 1) && Shallow(rest, depth)
  }

  lemma {:induction false} LoadAppend(pool: Pool, b: Build, x: seq<Rec>, y: seq<Rec>)
    ensures LoadAll(pool, b, x + y) ==
            match LoadAll(pool, b, x) case Stopped => Stopped case Loaded(b') => LoadAll(pool, b', y)
    decreases |x|
  {
    if x == [] {
      assert x + y == y;
    } else {
      assert (x + y)[1..] == x[1..] + y;
      if LoadRec(pool, b, x[0]).Loaded? {
        LoadAppend(pool, LoadRec(pool, b, x[0]).build, x[1..], y);
      }
    }
  }

  lemma LoadOne(pool: Pool, b: Build, r: Rec)
    ensures LoadAll(pool, b, [r]) == LoadRec(pool, b, r)
  {
    assert [r][1..] == [];
  }

  /** Loading the records of one node: the node itself, then its leaf. */
  lemma LoadHead(pool: Pool, b: Build, n: Node, h: nat, depth: nat, path: Path)
    requires 1 <= depth <= |b.stack| <= STACK && b.stack[depth - 1] == path
    requires n.entry.Some? && n.entry.value.leaf.shape.Some? ==> n.entry.value.leaf.shape.value in pool
    ensures var head := [Internal(depth, h)] + if n.entry.Some? then [LeafRec(depth, Store(pool, n.entry.value))] else [];
            LoadAll(pool, b, head) ==
            if n.entry.Some? && depth == STACK then Stopped
            else Loaded(Build(b.nodes[path + [h] := n.entry], b.leaves + (if n.entry.Some? then 1 else 0),
                              if depth < STACK then b.stack[..depth] + [path + [h]] else b.stack[..depth]))
  {
    var stack := b.stack[..depth];
    assert Pop(b.stack, depth) == stack;
    var b1 := Build(b.nodes[path + [h] := None], b.leaves, if depth < STACK then stack + [path + [h]] else stack);
    assert LoadRec(pool, b, Internal(depth, h)) == Loaded(b1);
    LoadOne(pool, b, Internal(depth, h));
    if n.entry.Some? {
      var leaf := LeafRec(depth, Store(pool, n.entry.value));
      LoadAppend(pool, b, [Internal(depth, h)], [leaf]);
      LoadOne(pool, b1, leaf);
      StoreRoundTrip(pool, n.entry.value);
      assert Pop(b1.stack, depth + 1) == b1.stack;
      assert b1.nodes[path + [h] := n.entry] == b.nodes[path + [h] := n.entry];
    } else {
      assert [Internal(depth, h)] + [] == [Internal(depth, h)];
    }
  }

  /**
  Loading the subtrees below `path`: they load exactly when they are shallow enough, and then
  add exactly their paths and leaves and leave the lower part of the stack alone.
  */
  lemma {:induction false} LoadKids(pool: Pool, b: Build, kids: Kids, depth: nat, path: Path)
    requires 1 <= depth <= |b.stack| <= STACK && b.stack[depth - 1] == path && Pooled(pool, kids)
    ensures var r := LoadAll(pool, b, WriteKids(pool, kids, depth));
            && (r.Loaded? <==> Shallow(kids, depth))
            && (r.Loaded? ==>
                  && r.build.nodes == b.nodes + KidPaths(kids, path)
                  && r.build.leaves == b.leaves + CountLeaves(kids)
                  && depth <= |r.build.stack| <= STACK && r.build.stack[..depth] == b.stack[..depth])
    decreases kids, 0
  {
    match kids
    case End =>
      assert b.nodes + map[] == b.nodes;
    case More(h, n, rest) =>
      var head := [Internal(depth, h)] + if n.entry.Some? then [LeafRec(depth, Store(pool, n.entry.value))] else [];
      var below, after := WriteKids(pool, n.kids, depth + 1), WriteKids(pool, rest, depth);
      assert WriteKids(pool, kids, depth) == head + (below + after);
      hide LoadAll, LoadRec, Resolve, Store, WriteKids;
      LoadAppend(pool, b, head, below + after);
      LoadHead(pool, b, n, h, depth, path);
      if !(n.entry.Some? && depth == STACK) {
        var b1 := LoadAll(pool, b, head).build;
        LoadAppend(pool, b1, below, after);
        LoadBelow(pool, b1, n.kids, depth, path + [h]);
        var r1 := LoadAll(pool, b1, below);
        if r1.Loaded? {
          assert b1.stack[..depth] == b.stack[..depth];
          assert r1.build.stack[..depth][depth - 1] == b.stack[..depth][depth - 1];
          LoadKids(pool, r1.build, rest, depth, path);
          JoinPaths(b.nodes, path + [h], n.entry, KidPaths(n.kids, path + [h]), KidPaths(rest, path));
        }
      }
  }

  lemma JoinPaths(m: map<Path, Option<Entry>>, p: Path, e: Option<Entry>, a: map<Path, Option<Entry>>, b: map<Path, Option<Entry>>)
    ensures m[p := e] + a + b == m + (map[p := e] + a + b)
  {}

  /** The children of a node at depth `depth`, which is on the stack only if it is less than 128 deep. */
  lemma {:induction false} LoadBelow(pool: Pool, b: Build, kids: Kids, depth: nat, path: Path)
    requires 1 <= depth <= STACK && Pooled(pool, kids)
    requires if depth < STACK then |b.stack| == depth + 1 && b.stack[depth] == path else |b.stack| == STACK
    ensures var r := LoadAll(pool, b, WriteKids(pool, kids, depth + 1));
            && (r.Loaded? <==> Shallow(kids, depth + 1))
            && (r.Loaded? ==>
                  && r.build.nodes == b.nodes + KidPaths(kids, path)
                  && r.build.leaves == b.leaves + CountLeaves(kids)
                  && depth <= |r.build.stack| <= STACK && r.build.stack[..depth] == b.stack[..depth])
    decreases kids, 1
  {
    if depth < STACK {
      LoadKids(pool, b, kids, depth + 1, path);
      var r := LoadAll(pool, b, WriteKids(pool, kids, depth + 1));
      if r.Loaded? {
        assert r.build.stack[..depth] == r.build.stack[..depth + 1][..depth];
      }
    } else if kids.More? {
      var first := WriteNode(pool, kids.node, kids.hash, depth + 1);
      assert first != [] && first[0] == Internal(depth + 1, kids.hash);
      assert WriteKids(pool, kids, depth + 1) == first + WriteKids(pool, kids.rest, depth + 1);
    } else {
      assert b.nodes + map[] == b.nodes;
    }
  }

  /**
  The round trip: a checkpoint loads exactly when every leaf is at most 127 groups deep and
  every node at most 128, and then the loader finds the same leaf, with the same shape, under
  every hash path, and counts the same number of leaves.
  */
  lemma CheckpointRoundTrip(pool: Pool, root: Node, path: Path)
    requires Pooled(pool, root.kids) && UniqueHashes(root.kids) && path != []
    ensures var r := LoadAll(pool, EMPTY, WriteKids(pool, root.kids, 1));
            && (r.Loaded? <==> Shallow(root.kids, 1))
            && (r.Loaded? ==>
                  && r.build.leaves == CountLeaves(root.kids)
                  && (path in r.build.nodes <==> Walk(root.kids, path).Some?)
                  && (path in r.build.nodes ==> r.build.nodes[path] == Walk(root.kids, path).value.entry))
  {
    LoadKids(pool, EMPTY, root.kids, 1, []);
    PathsAreWalks(root.kids, [], path);
    assert [] + path == path;
  }

  /** One leaf 128 groups deep, which a put accepts, makes the whole file unloadable. */
  function Chain(depth: nat, e: Entry): Kids {
    if depth <= 1 then More(1, Node(Some(e), End), End) else More(1, Node(None, Chain(depth - 1, e)), End)
  }

  lemma {:induction false} ChainShallow(e: Entry, n: nat, depth: nat)
    requires 1 <= n
    ensures Shallow(Chain(n, e), depth) <==> depth + n <= STACK
    decreases n
  {
    if n > 1 {
      ChainShallow(e, n - 1, depth + 1);
    }
  }

  lemma DeepLeafStopsLoading(pool: Pool, e: Entry)
    requires e.leaf.shape.Some? ==> e.leaf.shape.value in pool
    ensures LoadAll(pool, EMPTY, WriteKids(pool, Chain(128, e), 1)) == Stopped
  {
    ChainShallow(e, 128, 1);
    ChainPooled(pool, e, 128);
    LoadKids(pool, EMPTY, Chain(128, e), 1, []);
  }

  lemma {:induction false} ChainPooled(pool: Pool, e: Entry, n: nat)
    requires e.leaf.shape.Some? ==> e.leaf.shape.value in pool
    ensures Pooled(pool, Chain(n, e))
  {
    if n > 1 {
      ChainPooled(pool, e, n - 1);
    }
  }
}
