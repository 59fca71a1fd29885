/** The operations of the read cache. */
module DramCache {
  import opened Common
  import opened Sieve
  import opened Arena
  import opened Dram

  datatype Status = Ok | Full

  class Cache {
    const sp: Spread
    const budget: nat
    const shardBudget: nat
    const entryMax: nat
    const arena: Arena
    var shards: seq<Shard>
    var ents: Entries
    var nextId: Id
    var bytes: nat
    var count: nat
    // Everything ever put, under its key.
    ghost var history: set<(Key, Value)>

    ghost predicate Valid()
      reads this, arena
    {
      && 0 < sp.shards == |shards| && Agreed(sp, shards, ents)
      && UniqueKeys(ents)
      && (forall id :: id in ents ==> id < nextId)
      && arena.Valid() && Owned(ents, arena.cls, arena.live)
      && bytes == TotalBytes(shards) && count == |ents|
      && Recorded(ents, history)
    }

    constructor (sp: Spread, budget: nat, entryMax: nat, arenaLen: nat)
      requires 0 < sp.shards
      ensures Valid() && fresh(arena) && ents == map[] && history == {} && forall i :: 0 <= i < |shards| ==> shards[i].queue == []
      ensures this.sp == sp && this.budget == budget && this.entryMax == entryMax && shardBudget == budget / sp.shards
    {
      this.sp, this.budget, this.entryMax, shardBudget := sp, budget, entryMax, budget / sp.shards;
      arena := new Arena(arenaLen);
      shards := seq(sp.shards, _ => Shard([], None, seq(BUCKETS, _ => []), 0));
      ents, nextId, bytes, count, history := map[], 0, 0, 0, {};
      new;
      EmptyTotal(shards);
    }

    lemma {:induction false} EmptyTotal(s: seq<Shard>)
      requires forall i :: 0 <= i < |s| ==> s[i].bytes == 0
      ensures TotalBytes(s) == 0
    {
      if s != [] {
        EmptyTotal(s[..|s| - 1]);
      }
    }

    /** Search the chain of a key. */
    method Find(k: Key) returns (found: Option<Id>)
      requires Valid()
      ensures found.Some? ==> found.value in ents && ents[found.value].key == k
      ensures found.None? ==> forall id :: id in ents ==> ents[id].key != k
    {
      var i, b := sp.ShardOf(k), sp.ChainOf(k);
      assert sp.ShardOk(i, shards[i], ents) && sp.ChainOk(i, b, shards[i].chains[b], ents);
      var chain := shards[i].chains[b];
      for n := 0 to |chain|
        invariant forall m :: 0 <= m < n ==> ents[chain[m]].key != k
      {
        assert chain[n] in chain;
        if ents[chain[n]].key == k {
          return Some(chain[n]);
        }
      }
      return None;
    }

    /** Unlink an entry from its chain and the queue, and give its block back. */
    method RemoveEntry(id: Id)
      requires Valid() && id in ents
      modifies this, arena
      ensures Valid() && ents == old(ents) - {id} && nextId == old(nextId) && history == old(history)
      ensures var i := sp.ShardOf(old(ents)[id].key);
              && id in old(shards)[i].queue && |old(shards)[i].chains| == BUCKETS && Size(old(ents)[id]) <= old(shards)[i].bytes
              && shards == old(shards)[i := Unlinked(sp, old(shards)[i], id, old(ents)[id])]
              && shards[i].queue == Remove(old(shards)[i].queue, id)
              && shards[i].hand == (if old(shards)[i].hand == Some(id) then Next(old(shards)[i].queue, id) else old(shards)[i].hand)
    {
      hide UniqueKeys, Owned, Agreed, TotalBytes, Unlinked, Tiled, Indexed, Partitioned;
      var e := ents[id];
      AgreedUnlink(sp, shards, ents, id);
      OwnedRemove(ents, arena.cls, arena.live, id);
      UniqueRemove(ents, id);
      OwnedBlock(ents, arena.cls, arena.live, id);
      var i := sp.ShardOf(e.key);
      arena.Free(e.block);
      HandMoves(sp, shards[i], id, e);
      shards := shards[i := Unlinked(sp, shards[i], id, e)];
      ents := ents - {id};
      bytes, count := bytes - Size(e), count - 1;
    }

    lemma UniqueRemove(m: Entries, id: Id)
      requires UniqueKeys(m)
      ensures UniqueKeys(m - {id})
    {}

    lemma OwnedBlock(m: Entries, cls: map<nat, nat>, live: set<nat>, id: Id)
      requires Owned(m, cls, live) && id in m
      ensures m[id].block.InArena? ==> m[id].block.off in live && m[id].block.off in cls && cls[m[id].block.off] == m[id].block.cls
    {}

    method SetHand(i: nat, h: Option<Id>)
      requires Valid() && i < sp.shards && (h.Some? ==> h.value in shards[i].queue)
      modifies `shards
      ensures Valid() && shards == old(shards)[i := old(shards)[i].(hand := h)]
    {
      hide UniqueKeys, Owned, Agreed, TotalBytes, Recorded, Tiled, Indexed, Partitioned;
      AgreedHand(sp, shards, ents, i, h);
      shards := shards[i := shards[i].(hand := h)];
    }

    method Mark(id: Id, v: bool)
      requires Valid() && id in ents
      modifies `ents
      ensures Valid() && ents == old(ents)[id := old(ents)[id].(visited := v)]
    {
      hide Owned, Agreed, Tiled, Indexed, Partitioned, TotalBytes;
      OwnedMark(ents, arena.cls, arena.live, id, v);
      AgreedMark(sp, shards, ents, id, v);
      ents := ents[id := ents[id].(visited := v)];
    }

    /** Bytes and queue facts of one shard. */
    lemma ShardFacts(i: nat)
      requires Valid() && i < sp.shards
      ensures NoDup(shards[i].queue) && (shards[i].hand.Some? ==> shards[i].hand.value in shards[i].queue)
      ensures forall id :: id in shards[i].queue <==> id in ents && sp.ShardOf(ents[id].key) == i
      ensures shards[i].bytes == Bytes(shards[i].queue, ents)
    {
      assert sp.ShardOk(i, shards[i], ents);
    }

    /** Header, descriptors and data of an entry in the arena lie one behind the other inside its block. */
    lemma EntryPlace(x: Id)
      requires Valid() && x in ents && ents[x].block.InArena?
      ensures var off := ents[x].block.off;
              var recs := off + ENTRY_HEADER;
              var data := recs + RECORD_SIZE * |ents[x].recs|;
              ents[x].block.cls < CLASSES && data + |ents[x].data| <= off + Cap(ents[x].block.cls) <= arena.len
    {
      hide Agreed, UniqueKeys, TotalBytes, Recorded, Tiled, Indexed, Partitioned, Cap;
      arena.BlockInside(ents[x].block.off);
    }

    /** The bytes of two entries never overlap. */
    lemma EntriesApart(x: Id, y: Id)
      requires Valid() && x in ents && y in ents && x != y && ents[x].block.InArena? && ents[y].block.InArena?
      ensures var a, b := ents[x].block.off, ents[y].block.off;
              || a + ENTRY_HEADER + RECORD_SIZE * |ents[x].recs| + |ents[x].data| <= b
              || b + ENTRY_HEADER + RECORD_SIZE * |ents[y].recs| + |ents[y].data| <= a
    {
      hide Agreed, UniqueKeys, TotalBytes, Recorded, Tiled, Indexed, Partitioned, Cap;
      EntryPlace(x);
      EntryPlace(y);
      arena.BlocksDisjoint(ents[x].block.off, ents[y].block.off);
    }

    /** The counter of a shard is what its entries take: headers, descriptors and data, so never less than their data. */
    lemma ShardCounts(i: nat)
      requires Valid() && i < sp.shards
      ensures forall id :: id in shards[i].queue ==> id in ents
      ensures shards[i].bytes == ENTRY_HEADER * |shards[i].queue| + RECORD_SIZE * Descriptors(shards[i].queue, ents)
                                 + DataBytes(shards[i].queue, ents)
      ensures DataBytes(shards[i].queue, ents) <= shards[i].bytes
    {
      ShardFacts(i);
      BytesCounted(shards[i].queue, ents);
    }

    /** The iteration that meets the protected entry at the end of the queue. */
    method PassHand(i: nat, protect: Id, ghost pre: seq<Id>)
      requires Valid() && i < sp.shards && HandAt(shards[i], pre, [protect])
      modifies `shards
      ensures Valid() && HandAt(shards[i], [], pre + [protect]) && shards[i].bytes == old(shards)[i].bytes
      ensures forall j :: 0 <= j < sp.shards && j != i ==> shards[j].bytes == old(shards)[j].bytes
    {
      hide UniqueKeys, Owned, Agreed, TotalBytes, Recorded, Tiled, Indexed, Partitioned;
      SetHand(i, None);
    }

    /** The iteration that meets a marked entry. */
    method ClearHand(i: nat, ghost pre: seq<Id>, ghost post: seq<Id>)
      requires Valid() && i < sp.shards && HandAt(shards[i], pre, post) && |post| > 1
      requires NoDup(shards[i].queue) && post[0] in ents
      modifies `shards, `ents
      ensures Valid() && HandAt(shards[i], pre + [post[0]], post[1..])
      ensures forall j :: 0 <= j < sp.shards && j != i ==> shards[j].bytes == old(shards)[j].bytes
      ensures ents == old(ents)[post[0] := old(ents)[post[0]].(visited := false)]
      ensures shards[i].bytes == old(shards)[i].bytes
    {
      hide UniqueKeys, Owned, Agreed, TotalBytes, Recorded, Tiled, Indexed, Partitioned;
      Position(shards[i], pre, post);
      var e := Current(shards[i]);
      var next := Next(shards[i].queue, e);
      Mark(e, false);
      assert pre + post == (pre + [e]) + post[1..];
      SetHand(i, next);
    }

    /** The iteration that evicts. */
    method EvictHand(i: nat, ghost pre: seq<Id>, ghost post: seq<Id>)
      requires Valid() && i < sp.shards && HandAt(shards[i], pre, post) && |post| > 1
      requires NoDup(shards[i].queue) && post[0] in ents && sp.ShardOf(ents[post[0]].key) == i
      modifies this, arena
      ensures Valid() && HandAt(shards[i], pre, post[1..]) && nextId == old(nextId) && history == old(history)
      ensures forall j :: 0 <= j < sp.shards && j != i ==> shards[j].bytes == old(shards)[j].bytes
      ensures ents == old(ents) - {post[0]}
      ensures shards[i].bytes + Size(old(ents)[post[0]]) == old(shards)[i].bytes
    {
      hide UniqueKeys, Owned, Agreed, TotalBytes, Recorded, Tiled, Indexed, Partitioned;
      Position(shards[i], pre, post);
      var e := Current(shards[i]);
      var next := Next(shards[i].queue, e);
      RemoveEntry(e);
      SetHand(i, next);
    }

    /** One iteration of the sweep, the hand standing in front of post[0]. */
    method SweepStep(i: nat, protect: Id, ghost pre: seq<Id>, ghost post: seq<Id>)
      returns (ghost pre': seq<Id>, ghost post': seq<Id>)
      requires Valid() && i < sp.shards && HandAt(shards[i], pre, post)
      requires post[|post| - 1] == protect && protect in ents && !ents[protect].visited
      modifies this, arena
      ensures Valid() && nextId == old(nextId) && history == old(history) && Faded(old(ents), ents, protect)
      ensures HandAt(shards[i], pre', post') && post'[|post'| - 1] == protect
      ensures forall j :: 0 <= j < sp.shards && j != i ==> shards[j].bytes == old(shards)[j].bytes
      ensures pre != [] || |post| > 1 ==> Effort(pre', post', Visited(ents)) == Effort(pre, post, Visited(old(ents))) - 1
      ensures post[0] in old(ents) && ents == Swept(old(ents), post[0], protect)
      ensures shards[i].bytes + (if post[0] in ents then 0 else Size(old(ents)[post[0]])) == old(shards)[i].bytes
      ensures pre == [] && |post| == 1 ==> pre' == pre && post' == post && ents == old(ents)
    {
      hide UniqueKeys, Owned, Agreed, TotalBytes, Effort, Faded, NoDup, Bytes;
      ShardFacts(i);
      Position(shards[i], pre, post);
      var e := Current(shards[i]);
      if e == protect {
        assert post == [protect];
        if pre != [] {
          PassProtected(pre, protect, Visited(ents));
        }
        PassHand(i, protect, pre);
        FadedSelf(ents, protect);
        return [], pre + [protect];
      }
      if ents[e].visited {
        ClearMark(pre, post, Visited(ents));
        FadedMark(ents, e, protect);
        ClearHand(i, pre, post);
        return pre + [e], post[1..];
      }
      EvictOne(pre, post, Visited(ents));
      FadedEvict(ents, e, protect);
      EvictHand(i, pre, post);
      return pre, post[1..];
    }

    lemma FadedProtect(a: Entries, b: Entries, protect: Id)
      requires Faded(a, b, protect)
      ensures protect in a && protect in b && a[protect] == b[protect]
    {}

    lemma NeededSelf(m: Entries, bytes: nat, budget: nat)
      ensures Needed(m, m, bytes, budget)
    {}

    lemma FadedSelf(m: Entries, protect: Id)
      requires protect in m
      ensures Faded(m, m, protect)
    {}

    /**
    Evict until the shard is within its budget, and no more than that takes, sparing `protect`,
    the entry just added.  The
    sweep needs exactly `Effort` iterations to evict all others, so it is always long enough for
    2048 entries; if only the protected entry fits the budget it succeeds exactly when the
    effort does not exceed the guard.
    */
    method Evict(i: nat, protect: Id, ghost pre0: seq<Id>, ghost post0: seq<Id>)
      requires Valid() && i < sp.shards && HandAt(shards[i], pre0, post0)
      requires post0[|post0| - 1] == protect && protect in ents && !ents[protect].visited
      modifies this, arena
      ensures Valid() && nextId == old(nextId) && history == old(history) && Faded(old(ents), ents, protect)
      ensures forall j :: 0 <= j < sp.shards && j != i ==> shards[j].bytes == old(shards)[j].bytes
      ensures old(shards)[i].bytes <= shardBudget ==> ents == old(ents)
      ensures Needed(old(ents), ents, shards[i].bytes, shardBudget)
      ensures Effort(pre0, post0, Visited(old(ents))) <= GUARD ==>
                (shards[i].bytes <= shardBudget <==> Size(ents[protect]) <= shardBudget)
      ensures |pre0 + post0| <= 2048 ==> (shards[i].bytes <= shardBudget <==> Size(ents[protect]) <= shardBudget)
      ensures Size(ents[protect]) == shardBudget && Effort(pre0, post0, Visited(old(ents))) > GUARD ==>
                shards[i].bytes > shardBudget
    {
      hide UniqueKeys, Owned, Agreed, TotalBytes, Effort, NoDup, Bytes, Needed, Faded, Swept, Recorded, Tiled, Indexed, Partitioned;
      ghost var pre, post := pre0, post0;
      ghost var effort := Effort(pre0, post0, Visited(ents));
      ghost var fits := Size(ents[protect]) <= shardBudget;
      EffortBound(pre0, post0, Visited(ents));
      FadedSelf(ents, protect);
      NeededSelf(ents, shards[i].bytes, shardBudget);
      var guard := 0;
      while shards[i].bytes > shardBudget && shards[i].queue != [] && guard < GUARD
        invariant Valid() && nextId == old(nextId) && history == old(history) && 0 <= guard <= GUARD
        invariant HandAt(shards[i], pre, post) && post[|post| - 1] == protect
        invariant Faded(old(ents), ents, protect) && Needed(old(ents), ents, shards[i].bytes, shardBudget)
        invariant protect in ents && ents[protect] == old(ents)[protect]
        invariant if guard == 0 then ents == old(ents) && shards == old(shards) else old(shards)[i].bytes > shardBudget
        invariant forall j :: 0 <= j < sp.shards && j != i ==> shards[j].bytes == old(shards)[j].bytes
        invariant fits ==> Effort(pre, post, Visited(ents)) + guard == effort
        decreases GUARD - guard
      {
        guard := guard + 1;
        SweepBytes(i, protect, pre, post);
        ghost var before, bytes0, x := ents, shards[i].bytes, post[0];
        pre, post := SweepStep(i, protect, pre, post);
        NeededStep(old(ents), before, x, protect, bytes0, shards[i].bytes, shardBudget);
        FadedTransitive(old(ents), before, ents, protect);
        FadedProtect(old(ents), ents, protect);
      }
      SweepBytes(i, protect, pre, post);
      EffortBound(pre, post, Visited(ents));
    }

    /** Only the protected entry is left exactly when the shard holds no more than its bytes. */
    lemma SweepBytes(i: nat, protect: Id, pre: seq<Id>, post: seq<Id>)
      requires Valid() && i < sp.shards && HandAt(shards[i], pre, post) && post[|post| - 1] == protect
      ensures protect in ents && shards[i].bytes >= Size(ents[protect])
      ensures pre == [] && |post| == 1 <==> shards[i].bytes == Size(ents[protect])
    {
      assert (pre + post)[|pre + post| - 1] == protect;
      if pre == [] && |post| == 1 {
        AloneBytes(i, protect);
      } else {
        MoreBytes(i, protect, pre + post);
      }
    }

    /** With the protected entry alone in the queue, the shard holds its bytes. */
    lemma AloneBytes(i: nat, protect: Id)
      requires Valid() && i < sp.shards && |shards[i].queue| == 1 && shards[i].queue[0] == protect
      ensures protect in ents && shards[i].bytes == Size(ents[protect])
    {
      ShardFacts(i);
      assert shards[i].queue[1..] == [];
    }

    lemma MoreBytes(i: nat, protect: Id, q: seq<Id>)
      requires Valid() && i < sp.shards && shards[i].queue == q && |q| > 1 && q[|q| - 1] == protect
      ensures protect in ents && shards[i].bytes > Size(ents[protect])
    {
      ShardFacts(i);
      assert q[0] in q && q[|q| - 1] in q[1..];
      BytesMember(q[1..], protect, ents);
    }

    lemma {:induction false} BytesMember(q: seq<Id>, id: Id, m: Entries)
      requires (forall x :: x in q ==> x in m) && id in q
      ensures Size(m[id]) <= Bytes(q, m)
    {
      if q[0] != id {
        BytesMember(q[1..], id, m);
      }
    }

    /** Allocate a block for a new entry and link it at the head of its chain and the tail of the queue. */
    method AddEntry(k: Key, v: Value) returns (id: Id)
      requires Valid() && forall x :: x in ents ==> ents[x].key != k
      modifies this, arena
      ensures Valid() && id !in old(ents) && history == old(history) + {(k, v)}
      ensures id in ents && ents == old(ents)[id := ents[id]] && ents[id].key == k && ValueOf(ents[id]) == v && !ents[id].visited
      ensures var i := sp.ShardOf(k);
              && |old(shards)[i].chains| == BUCKETS
              && shards == old(shards)[i := Linked(sp, old(shards)[i], id, ents[id])]
    {
      hide UniqueKeys, Owned, Agreed, TotalBytes, Linked, Recorded, Tiled, Indexed, Partitioned;
      var size := EntryTotal(|v.recs|, |v.data|);
      var block := arena.Alloc(PickClass(size));
      var e := Entry(k, v.ver, v.expire, v.data, v.recs, false, block);
      id := nextId;
      ghost var before, cls0, live0 := ents, old(arena.cls), old(arena.live);
      AgreedLink(sp, shards, ents, id, e);
      OwnedAdd(ents, cls0, arena.cls, live0, id, e);
      UniqueAdd(ents, id, e);
      RecordedAdd(ents, id, e, history);
      var i := sp.ShardOf(k);
      shards := shards[i := Linked(sp, shards[i], id, e)];
      ents := ents[id := e];
      nextId, bytes, count := nextId + 1, bytes + size, count + 1;
      history := history + {(k, v)};
    }

    lemma UniqueAdd(m: Entries, id: Id, e: Entry)
      requires UniqueKeys(m) && id !in m && forall x :: x in m ==> m[x].key != e.key
      ensures UniqueKeys(m[id := e])
    {}

    lemma RecordedAdd(m: Entries, id: Id, e: Entry, h: set<(Key, Value)>)
      requires Recorded(m, h)
      ensures Recorded(m[id := e], h + {(e.key, ValueOf(e))})
    {}

    /** The entry of a key goes away; all others stay. */
    method Invalidate(k: Key)
      requires Valid()
      modifies this, arena
      ensures Valid() && history == old(history)
      ensures forall v :: !Cached(ents, k, v)
      ensures forall k', v :: k' != k ==> (Cached(ents, k', v) <==> Cached(old(ents), k', v))
    {
      hide Owned, Agreed, TotalBytes, Unlinked;
      var found := Find(k);
      if found.Some? {
        RemoveEntry(found.value);
        CachedRemove(old(ents), found.value);
      }
    }

    lemma CachedRemove(m: Entries, id: Id)
      requires id in m && UniqueKeys(m)
      ensures forall v :: !Cached(m - {id}, m[id].key, v)
      ensures forall k, v :: k != m[id].key ==> (Cached(m - {id}, k, v) <==> Cached(m, k, v))
    {
      forall k, v | k != m[id].key && Cached(m, k, v)
        ensures Cached(m - {id}, k, v)
      {
        var x :| x in m && m[x].key == k && ValueOf(m[x]) == v;
        assert x in m - {id};
      }
    }

    /**
    Look up a key.  A hit returns the value cached under the key, which was put under that key,
    has the version asked for and has not expired; a miss means that there is no such value.
    */
    method Get(k: Key, expectVer: nat, now: nat) returns (r: Option<Value>)
      requires Valid()
      modifies `ents
      ensures Valid()
      ensures r.Some? ==> Cached(old(ents), k, r.value) && (k, r.value) in history
      ensures r.Some? ==> r.value.ver == expectVer && (r.value.expire == 0 || now <= r.value.expire)
      ensures r.None? ==> forall v :: Cached(old(ents), k, v) ==> v.ver != expectVer || 0 < v.expire < now
      ensures r.None? ==> ents == old(ents)
      ensures r.Some? ==> exists id :: id in old(ents) && old(ents)[id].key == k && ents == old(ents)[id := old(ents)[id].(visited := true)]
      ensures forall k', v :: Cached(ents, k', v) <==> Cached(old(ents), k', v)
    {
      hide Owned, Agreed, TotalBytes, Tiled, Indexed, Partitioned;
      var found := Find(k);
      if found.None? {
        return None;
      }
      var e := ents[found.value];
      if e.ver != expectVer || (e.expire != 0 && e.expire < now) {
        return None;
      }
      Mark(found.value, true);
      CachedMark(old(ents), found.value);
      return Some(ValueOf(e));
    }

    lemma CachedMark(m: Entries, id: Id)
      requires id in m
      ensures forall k, v :: Cached(m[id := m[id].(visited := true)], k, v) <==> Cached(m, k, v)
    {
      var m' := m[id := m[id].(visited := true)];
      forall k, v | Cached(m, k, v)
        ensures Cached(m', k, v)
      {
        var x :| x in m && m[x].key == k && ValueOf(m[x]) == v;
        assert x in m' && m'[x].key == k && ValueOf(m'[x]) == v;
      }
    }

    /** An old entry of the key with a lower version makes room. */
    method Outdate(k: Key, ver: nat) returns (keep: bool)
      requires Valid()
      modifies this, arena
      ensures Valid() && history == old(history)
      ensures keep <==> exists v :: Cached(old(ents), k, v) && ver <= v.ver
      ensures keep ==> ents == old(ents) && shards == old(shards) && forall v :: Cached(ents, k, v) ==> ver <= v.ver
      ensures !keep ==> forall x :: x in ents ==> ents[x].key != k
      ensures forall k', v :: Cached(ents, k', v) ==> Cached(old(ents), k', v)
      ensures forall k', v :: k' != k && Cached(old(ents), k', v) ==> Cached(ents, k', v)
      ensures forall j :: 0 <= j < sp.shards ==> shards[j].bytes <= old(shards)[j].bytes && |shards[j].queue| <= |old(shards)[j].queue|
    {
      hide Owned, Agreed, TotalBytes, Tiled, Indexed, Partitioned, Recorded;
      var found := Find(k);
      if found.None? {
        return false;
      }
      keep := ver <= ents[found.value].ver;
      forall v | Cached(ents, k, v)
        ensures v == ValueOf(ents[found.value])
      {
        var x :| x in ents && ents[x].key == k && ValueOf(ents[x]) == v;
        assert x == found.value;
      }
      if keep {
        assert Cached(ents, k, ValueOf(ents[found.value]));
        return;
      }
      ShardFacts(sp.ShardOf(k));
      RemoveMembers(shards[sp.ShardOf(k)].queue, found.value);
      RemoveEntry(found.value);
      CachedRemove(old(ents), found.value);
    }

    /**
    Put a value.  Refused when empty or too large; ignored when the cache holds the key with
    the same or a later version; otherwise cached.  Nothing else appears in the cache; nothing is
    evicted if the shard has room; and in a shard of fewer than 2048 entries the shard is within
    its budget afterwards exactly when the new entry alone is.
    */
    method Put(k: Key, v: Value) returns (r: Status)
      requires Valid()
      modifies this, arena
      ensures Valid()
      ensures r == Full <==>
                v.data == [] || ENTRY_HEADER + RECORD_SIZE * |v.recs| + |v.data| > entryMax
                || ENTRY_HEADER + RECORD_SIZE * |v.recs| + |v.data| > budget
      ensures r == Full ==> ents == old(ents)
      ensures history == old(history) || history == old(history) + {(k, v)}
      ensures r == Ok ==> if exists w :: Cached(old(ents), k, w) && v.ver <= w.ver then ents == old(ents) else Cached(ents, k, v)
      ensures forall k', w :: Cached(ents, k', w) ==> Cached(old(ents), k', w) || (k' == k && w == v)
      ensures forall w :: r == Ok && Cached(ents, k, w) ==> v.ver <= w.ver
      ensures var i := sp.ShardOf(k);
              Cached(ents, k, v) && !Cached(old(ents), k, v) && |old(shards)[i].queue| < 2048 ==>
                (shards[i].bytes <= shardBudget <==> ENTRY_HEADER + RECORD_SIZE * |v.recs| + |v.data| <= shardBudget)
      ensures forall j :: 0 <= j < sp.shards && j != sp.ShardOf(k) ==> shards[j].bytes <= old(shards)[j].bytes
      ensures old(shards)[sp.ShardOf(k)].bytes + ENTRY_HEADER + RECORD_SIZE * |v.recs| + |v.data| <= shardBudget ==>
                forall k', w :: k' != k && Cached(old(ents), k', w) ==> Cached(ents, k', w)
    {
      hide UniqueKeys, Owned, Agreed, TotalBytes, Effort, Recorded, Tiled, Indexed, Partitioned, Cached, Bytes, NoDup;
      var size := EntryTotal(|v.recs|, |v.data|);
      if v.data == [] || size > entryMax || size > budget {
        return Full;
      }
      var keep := Outdate(k, v.ver);
      if keep {
        return Ok;
      }
      ghost var before := ents;
      var id := AddEntry(k, v);
      ghost var added := ents;
      var i := sp.ShardOf(k);
      ShardFacts(i);
      ghost var pre, post := HandSplit(shards[i]);
      assert (pre + post)[|pre + post| - 1] == id;
      Evict(i, id, pre, post);
      PutCached(old(ents), before, added, ents, id, k, v);
      AddedKeeps(before, added, id);
      return Ok;
    }

    lemma AddedKeeps(before: Entries, added: Entries, id: Id)
      requires id !in before && id in added && added == before[id := added[id]]
      ensures forall k, w :: Cached(before, k, w) ==> Cached(added, k, w)
    {
      forall k, w | Cached(before, k, w)
        ensures Cached(added, k, w)
      {
        var x :| x in before && before[x].key == k && ValueOf(before[x]) == w;
        assert added[x] == before[x];
      }
    }

    lemma PutCached(start: Entries, before: Entries, added: Entries, after: Entries, id: Id, k: Key, v: Value)
      requires forall k', w :: Cached(before, k', w) ==> Cached(start, k', w)
      requires forall x :: x in before ==> before[x].key != k
      requires id !in before && id in added && added == before[id := added[id]] && added[id].key == k && ValueOf(added[id]) == v
      requires Faded(added, after, id)
      ensures Cached(after, k, v)
      ensures forall w :: Cached(after, k, w) ==> w == v
      ensures forall k', w :: Cached(after, k', w) ==> Cached(start, k', w) || (k' == k && w == v)
    {
      assert after[id].key == k && ValueOf(after[id]) == v;
      forall k', w | Cached(after, k', w)
        ensures k' == k ==> w == v
        ensures k' != k ==> Cached(start, k', w)
      {
        FadedCached(added, after, id, k', w);
        var x :| x in added && added[x].key == k' && ValueOf(added[x]) == w;
        if x != id {
          assert before[x] == added[x];
          assert Cached(before, k', w);
        }
      }
    }

    /** When every shard is within its budget, so is the cache. */
    lemma WithinBudget()
      requires Valid() && shardBudget * sp.shards <= budget
      requires forall i :: 0 <= i < sp.shards ==> shards[i].bytes <= shardBudget
      ensures bytes <= budget
    {
      TotalWithin(shards, shardBudget);
    }
  }

  /**
  With the default settings (256 MiB, entries up to 8 MiB) the cache has 64 shards with 4 MiB to
  spend each: the first entry of more than that is accepted and leaves its shard over its budget.
  */
  method DefaultEntryOverBudget(sp: Spread, arenaLen: nat, k: Key, v: Value) returns (cache: Cache)
    requires sp.shards == MAX_SHARDS && v.data != []
    requires 4 * 1024 * 1024 < ENTRY_HEADER + RECORD_SIZE * |v.recs| + |v.data| <= 8 * 1024 * 1024
    ensures cache.Valid() && Cached(cache.ents, k, v)
    ensures cache.shards[cache.sp.ShardOf(k)].bytes > cache.shardBudget
  {
    hide UniqueKeys, Owned, Agreed, TotalBytes, Recorded, Cached;
    var n := ShardCount(256 * 1024 * 1024);
    assert 256 * 1024 * 1024 / 64 == 4 * 1024 * 1024;
    assert n == MAX_SHARDS;
    cache := new Cache(sp, 256 * 1024 * 1024, 8 * 1024 * 1024, arenaLen);
    NothingCached(k);
    var r := cache.Put(k, v);
  }

  lemma NothingCached(k: Key)
    ensures forall w :: !Cached(map[], k, w)
  {}
}
