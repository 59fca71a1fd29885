/**
The read cache in memory: shards of hash chains and a SIEVE queue over one shared arena.
Links between entries are modelled by the lists they form.
*/
module Dram {
  import opened Common
  import opened Fields
  import opened Sieve
  import opened Arena

  const BUCKETS: nat := 256
  const ENTRY_HEADER: nat := 56
  const RECORD_SIZE: nat := 12

  datatype RecDesc = RecDesc(layer: nat, off: nat, len: nat)
  datatype Entry = Entry(key: Key, ver: nat, expire: nat, data: seq<byte>, recs: seq<RecDesc>, visited: bool, block: Block)

  type Entries = map<Id, Entry>

  function EntryTotal(n: nat, len: nat): nat {
    ENTRY_HEADER + RECORD_SIZE * n + len
  }

  function Size(e: Entry): nat {
    EntryTotal(|e.recs|, |e.data|)
  }

  /** Sum of entry sizes along a list. */
  function Bytes(q: seq<Id>, ents: Entries): nat
    requires forall id :: id in q ==> id in ents
  {
    if q == [] then 0 else Size(ents[q[0]]) + Bytes(q[1..], ents)
  }

  datatype Shard = Shard(queue: seq<Id>, hand: Option<Id>, chains: seq<seq<Id>>, bytes: nat)

  /** How keys are spread: `hash` picks the shard and the chain. */
  datatype Spread = Spread(shards: nat, hash: Key -> nat) {
    function ShardOf(k: Key): (i: nat)
      requires 0 < shards
      ensures i < shards
    {
      hash(k) % shards
    }

    function ChainOf(k: Key): (b: nat)
      ensures b < BUCKETS
    {
      hash(k) % BUCKETS
    }

    /** The queue and the chains of shard i hold exactly the entries whose key belongs there. */
    ghost predicate ShardOk(i: nat, sh: Shard, ents: Entries)
      requires 0 < shards
    {
      && NoDup(sh.queue) && |sh.chains| == BUCKETS
      && (forall id :: id in sh.queue <==> id in ents && ShardOf(ents[id].key) == i)
      && (forall b :: 0 <= b < BUCKETS ==> ChainOk(i, b, sh.chains[b], ents))
      && (sh.hand.Some? ==> sh.hand.value in sh.queue)
      && sh.bytes == Bytes(sh.queue, ents)
    }

    ghost predicate ChainOk(i: nat, b: nat, chain: seq<Id>, ents: Entries)
      requires 0 < shards
    {
      NoDup(chain) && forall id :: id in chain <==> id in ents && ShardOf(ents[id].key) == i && ChainOf(ents[id].key) == b
    }
  }

  /** No two entries have the same key. */
  ghost predicate UniqueKeys(ents: Entries) {
    forall x, y :: x in ents && y in ents && ents[x].key == ents[y].key ==> x == y
  }

  /** Entries own different arena blocks, and together exactly the blocks handed out. */
  ghost predicate Owned(ents: Entries, cls: map<nat, nat>, live: set<nat>) {
    && (forall id :: id in ents && ents[id].block.InArena? ==>
          && ents[id].block.off in live && ents[id].block.off in cls
          && cls[ents[id].block.off] == ents[id].block.cls < CLASSES
          && Size(ents[id]) <= Cap(ents[id].block.cls))
    && (forall x, y :: x in ents && y in ents && x != y && ents[x].block.InArena? && ents[y].block.InArena? ==>
          ents[x].block.off != ents[y].block.off)
    && (forall off :: off in live ==> exists id :: id in ents && ents[id].block.InArena? && ents[id].block.off == off)
  }

  // ----- What an entry takes -----

  /** Bytes of data along a list. */
  function DataBytes(q: seq<Id>, ents: Entries): nat
    requires forall id :: id in q ==> id in ents
  {
    if q == [] then 0 else |ents[q[0]].data| + DataBytes(q[1..], ents)
  }

  /** Record descriptors along a list. */
  function Descriptors(q: seq<Id>, ents: Entries): nat
    requires forall id :: id in q ==> id in ents
  {
    if q == [] then 0 else |ents[q[0]].recs| + Descriptors(q[1..], ents)
  }

  /** What is counted for a list: a header for each entry, all descriptors and all data. */
  lemma {:induction false} BytesCounted(q: seq<Id>, ents: Entries)
    requires forall id :: id in q ==> id in ents
    ensures Bytes(q, ents) == ENTRY_HEADER * |q| + RECORD_SIZE * Descriptors(q, ents) + DataBytes(q, ents)
  {
    if q != [] {
      BytesCounted(q[1..], ents);
    }
  }

  // ----- Bytes of lists -----

  lemma {:induction false} BytesSame(q: seq<Id>, a: Entries, b: Entries)
    requires forall id :: id in q ==> id in a && id in b && Size(a[id]) == Size(b[id])
    ensures Bytes(q, a) == Bytes(q, b)
  {
    if q != [] {
      BytesSame(q[1..], a, b);
    }
  }

  lemma {:induction false} BytesAppend(q: seq<Id>, id: Id, ents: Entries)
    requires (forall x :: x in q ==> x in ents) && id in ents
    ensures Bytes(q + [id], ents) == Bytes(q, ents) + Size(ents[id])
  {
    if q == [] {
      assert q + [id] == [id] && [id][1..] == [];
    } else {
      assert (q + [id])[1..] == q[1..] + [id];
      BytesAppend(q[1..], id, ents);
    }
  }

  lemma {:induction false} BytesRemove(q: seq<Id>, id: Id, ents: Entries)
    requires NoDup(q) && id in q && forall x :: x in q ==> x in ents
    ensures forall x :: x in Remove(q, id) ==> x in ents
    ensures Bytes(Remove(q, id), ents) + Size(ents[id]) == Bytes(q, ents)
  {
    RemoveMembers(q, id);
    if q[0] != id {
      assert q == [q[0]] + q[1..];
      BytesRemove(q[1..], id, ents);
      assert ([q[0]] + Remove(q[1..], id))[1..] == Remove(q[1..], id);
    }
  }

  // ----- Removing and adding an entry -----

  function Unlinked(sp: Spread, sh: Shard, id: Id, e: Entry): Shard
    requires |sh.chains| == BUCKETS && Size(e) <= sh.bytes
  {
    var b := sp.ChainOf(e.key);
    Shard(Remove(sh.queue, id), if sh.hand == Some(id) then Next(sh.queue, id) else sh.hand,
          sh.chains[b := Remove(sh.chains[b], id)], sh.bytes - Size(e))
  }

  /** The hand moves only if the entry it stands at goes, and then to the next one. */
  lemma HandMoves(sp: Spread, sh: Shard, id: Id, e: Entry)
    requires |sh.chains| == BUCKETS && Size(e) <= sh.bytes
    ensures Unlinked(sp, sh, id, e).queue == Remove(sh.queue, id)
    ensures Unlinked(sp, sh, id, e).hand == if sh.hand == Some(id) then Next(sh.queue, id) else sh.hand
  {}

  lemma UnlinkOk(sp: Spread, i: nat, sh: Shard, ents: Entries, id: Id)
    requires 0 < sp.shards && sp.ShardOk(i, sh, ents) && id in sh.queue
    ensures Size(ents[id]) <= sh.bytes
    ensures sp.ShardOk(i, Unlinked(sp, sh, id, ents[id]), ents - {id})
  {
    var e, ents' := ents[id], ents - {id};
    BytesRemove(sh.queue, id, ents);
    RemoveMembers(sh.queue, id);
    NextMember(sh.queue, id);
    var sh' := Unlinked(sp, sh, id, e);
    BytesSame(sh'.queue, ents, ents');
    forall b | 0 <= b < BUCKETS
      ensures sp.ChainOk(i, b, sh'.chains[b], ents')
    {
      assert sp.ChainOk(i, b, sh.chains[b], ents);
      RemoveMembers(sh.chains[b], id);
    }
  }

  lemma ForeignUnlink(sp: Spread, i: nat, sh: Shard, ents: Entries, id: Id)
    requires 0 < sp.shards && sp.ShardOk(i, sh, ents) && id !in sh.queue
    ensures sp.ShardOk(i, sh, ents - {id})
  {
    BytesSame(sh.queue, ents, ents - {id});
    forall b | 0 <= b < BUCKETS
      ensures sp.ChainOk(i, b, sh.chains[b], ents - {id})
    {
      assert sp.ChainOk(i, b, sh.chains[b], ents);
    }
  }

  function Linked(sp: Spread, sh: Shard, id: Id, e: Entry): Shard
    requires |sh.chains| == BUCKETS
  {
    var b := sp.ChainOf(e.key);
    Shard(sh.queue + [id], sh.hand, sh.chains[b := [id] + sh.chains[b]], sh.bytes + Size(e))
  }

  lemma LinkOk(sp: Spread, i: nat, sh: Shard, ents: Entries, id: Id, e: Entry)
    requires 0 < sp.shards && sp.ShardOk(i, sh, ents) && id !in ents && sp.ShardOf(e.key) == i
    ensures sp.ShardOk(i, Linked(sp, sh, id, e), ents[id := e])
  {
    var ents' := ents[id := e];
    BytesSame(sh.queue, ents, ents');
    BytesAppend(sh.queue, id, ents');
    forall b | 0 <= b < BUCKETS
      ensures sp.ChainOk(i, b, Linked(sp, sh, id, e).chains[b], ents')
    {
      assert sp.ChainOk(i, b, sh.chains[b], ents);
    }
  }

  /** Adding an entry to another shard, or changing marks, leaves this shard alone. */
  lemma ForeignChange(sp: Spread, i: nat, sh: Shard, ents: Entries, id: Id, e: Entry)
    requires 0 < sp.shards && sp.ShardOk(i, sh, ents)
    requires if id in ents then ents[id].key == e.key && Size(ents[id]) == Size(e) else sp.ShardOf(e.key) != i
    ensures sp.ShardOk(i, sh, ents[id := e])
  {
    var ents' := ents[id := e];
    BytesSame(sh.queue, ents, ents');
    forall b | 0 <= b < BUCKETS
      ensures sp.ChainOk(i, b, sh.chains[b], ents')
    {
      assert sp.ChainOk(i, b, sh.chains[b], ents);
    }
  }

  // ----- Facts about all entries -----

  function TotalBytes(shards: seq<Shard>): nat {
    if shards == [] then 0 else TotalBytes(shards[..|shards| - 1]) + shards[|shards| - 1].bytes
  }

  lemma {:induction false} TotalUpdate(shards: seq<Shard>, i: nat, sh: Shard)
    requires i < |shards|
    ensures TotalBytes(shards[i := sh]) + shards[i].bytes == TotalBytes(shards) + sh.bytes
  {
    var n := |shards| - 1;
    if i == n {
      assert shards[i := sh][..n] == shards[..n];
    } else {
      assert shards[i := sh][..n] == shards[..n][i := sh];
      TotalUpdate(shards[..n], i, sh);
    }
  }

  lemma OwnedRemove(ents: Entries, cls: map<nat, nat>, live: set<nat>, id: Id)
    requires Owned(ents, cls, live) && id in ents
    ensures Owned(ents - {id}, cls, if ents[id].block.InArena? then live - {ents[id].block.off} else live)
  {
    var live' := if ents[id].block.InArena? then live - {ents[id].block.off} else live;
    forall off | off in live'
      ensures exists x :: x in ents - {id} && (ents - {id})[x].block.InArena? && (ents - {id})[x].block.off == off
    {
      var x :| x in ents && ents[x].block.InArena? && ents[x].block.off == off;
      assert x in ents - {id};
    }
  }

  lemma OwnedAdd(ents: Entries, cls: map<nat, nat>, cls': map<nat, nat>, live: set<nat>, id: Id, e: Entry)
    requires Owned(ents, cls, live) && id !in ents
    requires forall off :: off in cls ==> off in cls' && cls'[off] == cls[off]
    requires e.block.InArena? ==>
               && e.block.off !in live && e.block.off in cls' && cls'[e.block.off] == e.block.cls < CLASSES
               && Size(e) <= Cap(e.block.cls)
    ensures Owned(ents[id := e], cls', if e.block.InArena? then live + {e.block.off} else live)
  {
    var ents' := ents[id := e];
    forall off | off in live
      ensures exists x :: x in ents' && ents'[x].block.InArena? && ents'[x].block.off == off
    {
      var x :| x in ents && ents[x].block.InArena? && ents[x].block.off == off;
      assert ents'[x] == ents[x];
    }
    assert ents'[id] == e;
  }

  lemma OwnedMark(ents: Entries, cls: map<nat, nat>, live: set<nat>, id: Id, v: bool)
    requires Owned(ents, cls, live) && id in ents
    ensures Owned(ents[id := ents[id].(visited := v)], cls, live)
  {
    var ents' := ents[id := ents[id].(visited := v)];
    forall off | off in live
      ensures exists x :: x in ents' && ents'[x].block.InArena? && ents'[x].block.off == off
    {
      var x :| x in ents && ents[x].block.InArena? && ents[x].block.off == off;
      assert ents'[x].block == ents[x].block;
    }
  }

  function Visited(ents: Entries): set<Id> {
    set id | id in ents && ents[id].visited
  }

  /** Every shard agrees with the entries. */
  ghost predicate Agreed(sp: Spread, shards: seq<Shard>, ents: Entries) {
    && 0 < sp.shards == |shards|
    && forall i :: 0 <= i < sp.shards ==> sp.ShardOk(i, shards[i], ents)
  }

  lemma AgreedUnlink(sp: Spread, shards: seq<Shard>, ents: Entries, id: Id)
    requires Agreed(sp, shards, ents) && id in ents
    ensures var i := sp.ShardOf(ents[id].key);
            && id in shards[i].queue && |shards[i].chains| == BUCKETS && Size(ents[id]) <= shards[i].bytes
            && Agreed(sp, shards[i := Unlinked(sp, shards[i], id, ents[id])], ents - {id})
            && TotalBytes(shards[i := Unlinked(sp, shards[i], id, ents[id])]) + Size(ents[id]) == TotalBytes(shards)
  {
    var i := sp.ShardOf(ents[id].key);
    assert sp.ShardOk(i, shards[i], ents);
    UnlinkOk(sp, i, shards[i], ents, id);
    TotalUpdate(shards, i, Unlinked(sp, shards[i], id, ents[id]));
    forall j | 0 <= j < sp.shards && j != i
      ensures sp.ShardOk(j, shards[j], ents - {id})
    {
      ForeignUnlink(sp, j, shards[j], ents, id);
    }
  }

  lemma AgreedLink(sp: Spread, shards: seq<Shard>, ents: Entries, id: Id, e: Entry)
    requires Agreed(sp, shards, ents) && id !in ents
    ensures var i := sp.ShardOf(e.key);
            && |shards[i].chains| == BUCKETS
            && Agreed(sp, shards[i := Linked(sp, shards[i], id, e)], ents[id := e])
            && TotalBytes(shards[i := Linked(sp, shards[i], id, e)]) == TotalBytes(shards) + Size(e)
  {
    var i := sp.ShardOf(e.key);
    LinkOk(sp, i, shards[i], ents, id, e);
    TotalUpdate(shards, i, Linked(sp, shards[i], id, e));
    forall j | 0 <= j < sp.shards && j != i
      ensures sp.ShardOk(j, shards[j], ents[id := e])
    {
      ForeignChange(sp, j, shards[j], ents, id, e);
    }
  }

  lemma AgreedMark(sp: Spread, shards: seq<Shard>, ents: Entries, id: Id, v: bool)
    requires Agreed(sp, shards, ents) && id in ents
    ensures Agreed(sp, shards, ents[id := ents[id].(visited := v)])
  {
    forall j | 0 <= j < sp.shards
      ensures sp.ShardOk(j, shards[j], ents[id := ents[id].(visited := v)])
    {
      ForeignChange(sp, j, shards[j], ents, id, ents[id].(visited := v));
    }
  }

  lemma AgreedHand(sp: Spread, shards: seq<Shard>, ents: Entries, i: nat, h: Option<Id>)
    requires Agreed(sp, shards, ents) && i < sp.shards && (h.Some? ==> h.value in shards[i].queue)
    ensures Agreed(sp, shards[i := shards[i].(hand := h)], ents)
    ensures TotalBytes(shards[i := shards[i].(hand := h)]) == TotalBytes(shards)
  {
    TotalUpdate(shards, i, shards[i].(hand := h));
    var shards' := shards[i := shards[i].(hand := h)];
    forall j | 0 <= j < sp.shards
      ensures sp.ShardOk(j, shards'[j], ents)
    {
      assert sp.ShardOk(j, shards[j], ents);
    }
  }

  /** The hand of a shard stands in front of `post` in the queue pre + post. */
  predicate HandAt(sh: Shard, pre: seq<Id>, post: seq<Id>) {
    && post != [] && sh.queue == pre + post
    && (sh.hand == Some(post[0]) || (sh.hand == None && pre == []))
  }

  /** Any shard with a queue has such a split. */
  lemma HandSplit(sh: Shard) returns (pre: seq<Id>, post: seq<Id>)
    requires sh.queue != [] && (sh.hand.Some? ==> sh.hand.value in sh.queue)
    ensures HandAt(sh, pre, post)
  {
    if sh.hand == None {
      pre, post := [], sh.queue;
    } else {
      var i :| 0 <= i < |sh.queue| && sh.queue[i] == sh.hand.value;
      pre, post := sh.queue[..i], sh.queue[i..];
    }
    assert pre + post == sh.queue;
  }

  lemma SplitNoDup(pre: seq<Id>, post: seq<Id>)
    requires NoDup(pre + post) && post != []
    ensures post[0] !in pre && post[0] !in post[1..] && post[0] in pre + post
    ensures |post| > 1 ==> post[0] != post[|post| - 1] && post[1] in pre + post
  {
    var q := pre + post;
    assert q[|pre|] == post[0];
    assert forall i :: 0 <= i < |pre| ==> q[i] == pre[i];
    assert forall i :: 0 <= i < |post| ==> q[|pre| + i] == post[i];
  }

  /** The entry the sweep looks at: the one under the hand, or the oldest. */
  function Current(sh: Shard): Id
    requires sh.queue != []
  {
    if sh.hand.Some? then sh.hand.value else sh.queue[0]
  }

  /** What the split says about the entry the sweep looks at. */
  lemma Position(sh: Shard, pre: seq<Id>, post: seq<Id>)
    requires NoDup(sh.queue) && HandAt(sh, pre, post)
    ensures Current(sh) == post[0] && post[0] in sh.queue && post[0] !in pre && post[0] !in post[1..]
    ensures Next(sh.queue, post[0]) == if |post| == 1 then None else Some(post[1])
    ensures Remove(sh.queue, post[0]) == pre + post[1..]
    ensures |post| > 1 ==> post[0] != post[|post| - 1]
  {
    SplitNoDup(pre, post);
    assert sh.queue == pre + [post[0]] + post[1..];
    NextSplit(pre, post[0], post[1..]);
    RemoveSplit(pre, post[0], post[1..]);
  }

  /** What one iteration of the sweep does to the entry it looks at. */
  function Swept(ents: Entries, e: Id, protect: Id): Entries
    requires e in ents
  {
    if e == protect then ents
    else if ents[e].visited then ents[e := ents[e].(visited := false)]
    else ents - {e}
  }

  /** Entries were evicted or lost their mark; `protect` was left alone. */
  ghost predicate Faded(before: Entries, after: Entries, protect: Id) {
    && after.Keys <= before.Keys && protect in after && after[protect] == before[protect]
    && forall id :: id in after ==> after[id] == before[id] || after[id] == before[id].(visited := false)
  }

  /** If entries were evicted, the last one had to be: without that the budget was exceeded. */
  ghost predicate Needed(before: Entries, after: Entries, bytes: nat, budget: nat) {
    after.Keys == before.Keys || exists id :: id in before && id !in after && bytes + Size(before[id]) > budget
  }

  lemma NeededStep(start: Entries, before: Entries, x: Id, protect: Id, bytes0: nat, bytes1: nat, budget: nat)
    requires Needed(start, before, bytes0, budget) && Faded(start, before, protect) && bytes0 > budget && x in before
    requires bytes1 + (if x in Swept(before, x, protect) then 0 else Size(before[x])) == bytes0
    ensures Needed(start, Swept(before, x, protect), bytes1, budget)
  {
    var after := Swept(before, x, protect);
    if x !in after {
      assert x in start && x !in after && bytes1 + Size(start[x]) > budget;
    } else if after.Keys != start.Keys {
      var id :| id in start && id !in before && bytes0 + Size(start[id]) > budget;
      assert id !in after;
    }
  }

  lemma FadedTransitive(a: Entries, b: Entries, c: Entries, protect: Id)
    requires Faded(a, b, protect) && Faded(b, c, protect)
    ensures Faded(a, c, protect)
  {}

  lemma FadedMark(a: Entries, id: Id, protect: Id)
    requires id in a && protect in a && id != protect
    ensures Faded(a, a[id := a[id].(visited := false)], protect)
    ensures Visited(a[id := a[id].(visited := false)]) == Visited(a) - {id}
  {}

  lemma FadedEvict(a: Entries, id: Id, protect: Id)
    requires id in a && protect in a && id != protect && !a[id].visited
    ensures Faded(a, a - {id}, protect) && Visited(a - {id}) == Visited(a)
  {}

  // ----- What the cache holds, seen from its callers -----

  datatype Value = Value(ver: nat, expire: nat, data: seq<byte>, recs: seq<RecDesc>)

  function ValueOf(e: Entry): Value {
    Value(e.ver, e.expire, e.data, e.recs)
  }

  /** The cache holds value v under key k. */
  ghost predicate Cached(ents: Entries, k: Key, v: Value) {
    exists id :: id in ents && ents[id].key == k && ValueOf(ents[id]) == v
  }

  /** Everything cached was put there at some time. */
  ghost predicate Recorded(ents: Entries, history: set<(Key, Value)>) {
    forall id :: id in ents ==> (ents[id].key, ValueOf(ents[id])) in history
  }

  lemma FadedCached(before: Entries, after: Entries, protect: Id, k: Key, v: Value)
    requires Faded(before, after, protect) && Cached(after, k, v)
    ensures Cached(before, k, v)
  {
    var id :| id in after && after[id].key == k && ValueOf(after[id]) == v;
    assert ValueOf(before[id]) == v;
  }

  lemma {:induction false} TotalWithin(shards: seq<Shard>, limit: nat)
    requires forall i :: 0 <= i < |shards| ==> shards[i].bytes <= limit
    ensures TotalBytes(shards) <= |shards| * limit
  {
    if shards != [] {
      var n := |shards| - 1;
      TotalWithin(shards[..n], limit);
      assert |shards| * limit == n * limit + limit;
    }
  }

  const MAX_SHARDS: nat := 64
  const MIN_SHARD_BYTES: nat := 1024 * 1024

  /** Halve the number of shards until each has at least a megabyte to spend. */
  method ShardCount(budget: nat) returns (n: nat)
    ensures 1 <= n <= MAX_SHARDS
    ensures n > 1 ==> budget / n >= MIN_SHARD_BYTES
    ensures forall m: nat :: n < m <= MAX_SHARDS && (m == 2 || m == 4 || m == 8 || m == 16 || m == 32 || m == 64) ==>
              budget / m < MIN_SHARD_BYTES
  {
    n := MAX_SHARDS;
    while n > 1 && budget / n < MIN_SHARD_BYTES
      invariant n == 1 || n == 2 || n == 4 || n == 8 || n == 16 || n == 32 || n == 64
      invariant n < MAX_SHARDS ==> budget / (2 * n) < MIN_SHARD_BYTES
    {
      n := n / 2;
    }
  }
}
