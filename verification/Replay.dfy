/**
Replaying a journal: each record is applied to the index, but the slices of a stripe are gathered
in a table and published together when the last one has been seen.  What this does to a key is
compared with what publishing the same records did.
*/
module Replay {
  import opened Common
  import opened Leaves
  import opened Effects
  import opened Mutations
  import C = Chunks

  /** Stripes that replay can gather. */
  const MAX_STRIPES: nat := 256

  /** The slices seen of one stripe, and how many records of it. */
  datatype Gather = Gather(key: Key, ver: nat, seen: nat, parts: seq<Part>, lens: seq<nat>)

  datatype Progress = Progress(idx: Index, table: seq<Gather>)

  // ----- The code -----

  /** The entry of a stripe, or the length of the table. */
  function Locate(table: seq<Gather>, k: Key, v: nat): (i: nat)
    ensures i <= |table| && (i < |table| ==> table[i].key == k && table[i].ver == v)
    ensures forall j :: 0 <= j < i ==> table[j].key != k || table[j].ver != v
  {
    if table == [] then 0
    else
      var n := |table| - 1;
      var i := Locate(table[..n], k, v);
      if i < n then i else if table[n].key == k && table[n].ver == v then n else n + 1
  }

  function Collected(g: Gather, m: Mut): Gather
    requires m.Put?
  {
    if m.idx < |g.parts| && m.idx < |g.lens| then
      g.(seen := g.seen + 1, parts := g.parts[m.idx := PartOf(m.addr)], lens := g.lens[m.idx := m.len])
    else g
  }

  /** Note a slice in the entry of its stripe, in a new entry, or nowhere if the table is full. */
  function Noted(table: seq<Gather>, m: Mut): seq<Gather>
    requires m.Put?
  {
    var i := Locate(table, m.key, m.ver);
    if i < |table| then table[i := Collected(table[i], m)]
    else if |table| >= MAX_STRIPES then table
    else table + [Collected(Gather(m.key, m.ver, 0, seq(m.cnt, _ => Part(0, 0, 0)), seq(m.cnt, _ => 0)), m)]
  }

  function Published(x: Option<Slotted>, w: Write): Option<Slotted> {
    if Publishable(x, w) then Some(Publish(x, w)) else x
  }

  /** Publish the first p slices gathered, with what the last record says. */
  function PublishSlices(x: Option<Slotted>, m: Mut, g: Gather, p: nat): Option<Slotted>
    requires m.Put? && p <= |g.parts|
  {
    if p == 0 then x
    else
      var a := Addr(g.parts[p - 1].dev, g.parts[p - 1].page, g.parts[p - 1].len, 0, m.addr.expire, m.addr.crc);
      Published(PublishSlices(x, m, g, p - 1), Write(m.ver, a, 0, true, p - 1, |g.parts|, C.Total(g.lens), m.shape))
  }

  /**
  The record of a stripe of one slice is published as slice 0 of a stripe of none: a new leaf has
  no room for it.
  */
  function PublishLone(x: Option<Slotted>, m: Mut): Option<Slotted>
    requires m.Put?
  {
    if x.Some? && x.value.ver > m.ver then x
    else if x.Some? && x.value.ver == m.ver && x.value.stripe.Some? then
      var l, parts := x.value, x.value.stripe.value.parts;
      Some(l.(stripe := Some(l.stripe.value.(parts := if parts == [] then [] else parts[0 := PartOf(m.addr)])),
              addr := l.addr[0 := l.addr[0].(crc := m.addr.crc)],
              shape := KeepShape(l.shape, m.shape)))
    else Some(Leaf(m.ver, [ZERO_ADDR.(crc := m.addr.crc), ZERO_ADDR], Some(Stripe([], 0)), m.shape))
  }

  function Set(idx: Index, k: Key, x: Option<Slotted>): Index {
    if x.Some? then idx[k := x.value] else idx - {k}
  }

  function ReplayOne(rs: Progress, m: Mut): Progress {
    match m
    case Del(k) => rs.(idx := rs.idx - {k})
    case Put(k, v, a, slot, striped, _, cnt, _, shape) =>
      var x := Get(rs.idx, k);
      if cnt > 1 then
        var table := Noted(rs.table, m);
        var i := Locate(table, k, v);
        if i < |table| && table[i].seen >= |table[i].parts| then
          Progress(Set(rs.idx, k, PublishSlices(x, m, table[i], |table[i].parts|)), table)
        else rs.(table := table)
      else if striped then rs.(idx := Set(rs.idx, k, PublishLone(x, m)))
      else rs.(idx := Set(rs.idx, k, Published(x, Write(v, a, slot, false, 0, 0, 0, shape))))
  }

  function ReplayFrom(rs: Progress, ms: seq<Mut>): Progress {
    if ms == [] then rs else ReplayOne(ReplayFrom(rs, ms[..|ms| - 1]), ms[|ms| - 1])
  }

  /** The index after replaying all records of all journals over a checkpoint. */
  function ReplayAll(idx: Index, ms: seq<Mut>): Index {
    ReplayFrom(Progress(idx, []), ms).idx
  }

  // ----- The records of a put -----

  /** The record is one of the put of its version. */
  predicate Fits(truth: Truth, m: Mut) {
    m.Put? ==>
      && m.ver in truth && PlanOk(truth[m.ver]) && PartIdx(m) < |truth[m.ver].at|
      && m == RecordOf(m.ver, truth[m.ver], PartIdx(m))
  }

  ghost predicate AllFit(truth: Truth, ms: seq<Mut>) {
    forall m :: m in ms ==> Fits(truth, m)
  }

  /** No part is recorded twice. */
  ghost predicate Once(ms: seq<Mut>) {
    forall i, j :: 0 <= i < j < |ms| && ms[i].Put? && ms[j].Put? ==> ms[i].ver != ms[j].ver || PartIdx(ms[i]) != PartIdx(ms[j])
  }

  /** Records of a version. */
  function Seen(ms: seq<Mut>, v: nat): nat {
    if ms == [] then 0
    else Seen(ms[..|ms| - 1], v) + if ms[|ms| - 1].Put? && ms[|ms| - 1].ver == v then 1 else 0
  }

  /** The parts of a version that are recorded. */
  function Parts(ms: seq<Mut>, v: nat): set<nat> {
    set i | 0 <= i < |ms| && ms[i].Put? && ms[i].ver == v :: PartIdx(ms[i])
  }

  function Range(n: nat): (r: set<nat>)
    ensures |r| == n && forall p :: p in r <==> 0 <= p < n
  {
    if n == 0 then {} else Range(n - 1) + {n - 1}
  }

  lemma PartsNext(ms: seq<Mut>, m: Mut, v: nat)
    ensures Parts(ms + [m], v) == Parts(ms, v) + if m.Put? && m.ver == v then {PartIdx(m)} else {}
    ensures Seen(ms + [m], v) == Seen(ms, v) + if m.Put? && m.ver == v then 1 else 0
  {
    var all := ms + [m];
    assert all[..|ms|] == ms;
    forall p
      ensures p in Parts(all, v) <==> p in Parts(ms, v) || (m.Put? && m.ver == v && p == PartIdx(m))
    {
      if p in Parts(ms, v) {
        var i :| 0 <= i < |ms| && ms[i].Put? && ms[i].ver == v && PartIdx(ms[i]) == p;
        assert all[i] == ms[i];
      }
      if m.Put? && m.ver == v && p == PartIdx(m) {
        assert all[|ms|] == m;
      }
      if p in Parts(all, v) {
        var i :| 0 <= i < |all| && all[i].Put? && all[i].ver == v && PartIdx(all[i]) == p;
        assert i < |ms| ==> ms[i] == all[i];
      }
    }
  }

  lemma OnceInit(ms: seq<Mut>, m: Mut)
    requires Once(ms + [m])
    ensures Once(ms) && (m.Put? ==> PartIdx(m) !in Parts(ms, m.ver))
  {
    var all := ms + [m];
    assert all[|ms|] == m && forall i :: 0 <= i < |ms| ==> all[i] == ms[i];
  }

  /** Without repetition there are as many records as parts; in any case there are at least as many. */
  lemma {:induction false} PartsCount(ms: seq<Mut>, v: nat)
    ensures |Parts(ms, v)| <= Seen(ms, v) && (Once(ms) ==> |Parts(ms, v)| == Seen(ms, v))
  {
    if ms == [] {
      assert Parts(ms, v) == {};
    } else {
      var init, m := ms[..|ms| - 1], ms[|ms| - 1];
      assert ms == init + [m];
      PartsCount(init, v);
      PartsNext(init, m, v);
      if Once(ms) {
        OnceInit(init, m);
      }
    }
  }

  /** All parts of a put are recorded exactly if there are enough records of it. */
  lemma AllSeen(truth: Truth, ms: seq<Mut>, v: nat)
    requires AllFit(truth, ms) && Once(ms) && v in truth
    ensures Parts(ms, v) <= Range(|truth[v].at|)
    ensures Seen(ms, v) >= |truth[v].at| <==> Parts(ms, v) == Range(|truth[v].at|)
  {
    var n := |truth[v].at|;
    forall p | p in Parts(ms, v)
      ensures p < n
    {
      var i :| 0 <= i < |ms| && ms[i].Put? && ms[i].ver == v && PartIdx(ms[i]) == p;
      assert Fits(truth, ms[i]);
    }
    PartsCount(ms, v);
    if Seen(ms, v) >= n {
      SubsetSize(Parts(ms, v), Range(n));
    }
  }

  lemma SubsetSize(a: set<nat>, b: set<nat>)
    requires a <= b && |a| >= |b|
    ensures a == b
  {
    assert b == a + (b - a);
  }

  // ----- What publishing and what replay does to a key -----

  /** The effect of publishing the records of a key, each by itself. */
  function Pub(ms: seq<Mut>, k: Key): Effect {
    if ms == [] then NOTHING else Then(Pub(ms[..|ms| - 1], k), PubOne(ms[|ms| - 1], k))
  }

  function PubOne(m: Mut, k: Key): Effect {
    if m.key != k then NOTHING
    else if m.Del? then RESET
    else Add(m.ver, {PartIdx(m)})
  }

  /** The stripes of more than one slice, in the order of their first records. */
  function Stripes(ms: seq<Mut>): seq<nat> {
    if ms == [] then [] else WithStripe(Stripes(ms[..|ms| - 1]), ms[|ms| - 1])
  }

  function WithStripe(vs: seq<nat>, m: Mut): seq<nat> {
    if m.Put? && m.cnt > 1 && m.ver !in vs then vs + [m.ver] else vs
  }

  /** The stripe is among those that the table has room for. */
  predicate Tracked(ms: seq<Mut>, v: nat) {
    v in Stripes(ms)[..Min(MAX_STRIPES, |Stripes(ms)|)]
  }

  /** The effect of replaying the records of a key, among all records. */
  function Eff(ms: seq<Mut>, k: Key): Effect {
    if ms == [] then NOTHING else Then(Eff(ms[..|ms| - 1], k), EffOne(ms[..|ms| - 1], ms[|ms| - 1], k))
  }

  function EffOne(ms: seq<Mut>, m: Mut, k: Key): Effect {
    if m.key != k then NOTHING
    else if m.Del? then RESET
    else if m.cnt > 1 then
      if Tracked(ms + [m], m.ver) && Seen(ms, m.ver) + 1 >= m.cnt then Add(m.ver, Range(m.cnt)) else NOTHING
    else if m.striped then Add(m.ver, {})
    else Add(m.ver, {m.slot})
  }

  lemma PubNext(ms: seq<Mut>, m: Mut, k: Key)
    ensures Pub(ms + [m], k) == Then(Pub(ms, k), PubOne(m, k))
    ensures Eff(ms + [m], k) == Then(Eff(ms, k), EffOne(ms, m, k))
    ensures Stripes(ms + [m]) == WithStripe(Stripes(ms), m)
  {
    assert (ms + [m])[..|ms|] == ms;
  }

  lemma {:induction false} PubAppend(a: seq<Mut>, b: seq<Mut>, k: Key)
    ensures Pub(a + b, k) == Then(Pub(a, k), Pub(b, k))
  {
    if b == [] {
      assert a + b == a;
      ThenLaws(Pub(a, k), NOTHING, NOTHING);
    } else {
      var n := |b| - 1;
      assert a + b == (a + b[..n]) + [b[n]];
      PubNext(a + b[..n], b[n], k);
      PubAppend(a, b[..n], k);
      ThenLaws(Pub(a, k), Pub(b[..n], k), PubOne(b[n], k));
    }
  }

  // ----- The code does that -----

  /** The table holds the stripes it has room for, with the slices recorded so far. */
  ghost predicate TableOk(truth: Truth, table: seq<Gather>, ms: seq<Mut>) {
    && |table| == Min(MAX_STRIPES, |Stripes(ms)|)
    && forall i :: 0 <= i < |table| ==> EntryOk(truth, table[i], ms, Stripes(ms)[i])
  }

  ghost predicate EntryOk(truth: Truth, g: Gather, ms: seq<Mut>, v: nat) {
    && v in truth && g.key == truth[v].key && g.ver == v && g.seen == Seen(ms, v)
    && |g.parts| == |g.lens| == |truth[v].at| == |truth[v].lens| > 1
    && forall p :: p in Parts(ms, v) && p < |g.parts| ==> g.parts[p] == truth[v].at[p] && g.lens[p] == truth[v].lens[p]
  }

  lemma {:induction false} StripesDistinct(truth: Truth, ms: seq<Mut>)
    requires AllFit(truth, ms)
    ensures NoDup(Stripes(ms))
    ensures forall v :: v in Stripes(ms) ==> v in truth && truth[v].striped && |truth[v].at| > 1
    ensures forall v :: v !in Stripes(ms) && v in truth && truth[v].striped && |truth[v].at| > 1 ==> Seen(ms, v) == 0 && Parts(ms, v) == {}
  {
    if ms != [] {
      var init, m := ms[..|ms| - 1], ms[|ms| - 1];
      assert ms == init + [m];
      StripesDistinct(truth, init);
      assert Fits(truth, m);
      PubNext(init, m, m.key);
      forall v | v !in Stripes(ms) && v in truth && truth[v].striped && |truth[v].at| > 1
        ensures Seen(ms, v) == 0 && Parts(ms, v) == {}
      {
        PartsNext(init, m, v);
      }
    }
  }

  /** Any record, seen from the entry of another stripe. */
  lemma EntryKept(truth: Truth, g: Gather, ms: seq<Mut>, m: Mut, v: nat)
    requires EntryOk(truth, g, ms, v) && (m.Put? ==> m.ver != v)
    ensures EntryOk(truth, g, ms + [m], v)
  {
    PartsNext(ms, m, v);
  }

  /** A slice, seen from the entry of its stripe. */
  lemma EntryNext(truth: Truth, g: Gather, ms: seq<Mut>, m: Mut)
    requires m.Put? && m.cnt > 1 && EntryOk(truth, g, ms, m.ver) && Fits(truth, m)
    ensures EntryOk(truth, Collected(g, m), ms + [m], m.ver)
  {
    PartsNext(ms, m, m.ver);
    assert m.striped && m.idx == PartIdx(m);
    assert PartOf(m.addr) == truth[m.ver].at[m.idx];
  }

  /** A record of a plain or hot put, or a deletion, is no matter of the table. */
  lemma TableKept(truth: Truth, table: seq<Gather>, ms: seq<Mut>, m: Mut)
    requires AllFit(truth, ms + [m]) && TableOk(truth, table, ms) && !(m.Put? && m.cnt > 1)
    ensures TableOk(truth, table, ms + [m])
  {
    hide EntryOk;
    PubNext(ms, m, m.key);
    AllFitInit(truth, ms, m);
    StripesDistinct(truth, ms);
    forall i | 0 <= i < |table|
      ensures EntryOk(truth, table[i], ms + [m], Stripes(ms)[i])
    {
      assert Stripes(ms)[i] in Stripes(ms);
      EntryKept(truth, table[i], ms, m, Stripes(ms)[i]);
    }
  }

  lemma AllFitInit(truth: Truth, ms: seq<Mut>, m: Mut)
    requires AllFit(truth, ms + [m])
    ensures AllFit(truth, ms) && Fits(truth, m)
  {
    assert (ms + [m])[|ms|] == m;
    forall x | x in ms
      ensures Fits(truth, x)
    {
      var i :| 0 <= i < |ms| && ms[i] == x;
      assert (ms + [m])[i] == x;
    }
  }

  /** A slice is noted if and only if its stripe is tracked. */
  lemma TableNext(truth: Truth, table: seq<Gather>, ms: seq<Mut>, m: Mut)
    requires AllFit(truth, ms + [m]) && TableOk(truth, table, ms) && m.Put? && m.cnt > 1
    ensures TableOk(truth, Noted(table, m), ms + [m])
    ensures var i := Locate(Noted(table, m), m.key, m.ver);
            && (i < |Noted(table, m)| <==> Tracked(ms + [m], m.ver))
            && (i < |Noted(table, m)| ==> EntryOk(truth, Noted(table, m)[i], ms + [m], m.ver))
  {
    hide EntryOk;
    AllFitInit(truth, ms, m);
    PubNext(ms, m, m.key);
    StripesDistinct(truth, ms);
    StripesDistinct(truth, ms + [m]);
    var vs, t, all := Stripes(ms), Noted(table, m), ms + [m];
    EntryVersions(truth, table, ms);
    var i := Locate(table, m.key, m.ver);
    forall j | 0 <= j < |table| && j != i
      ensures EntryOk(truth, table[j], all, vs[j])
    {
      if i < |table| {
        assert vs[i] == m.ver && vs[j] != vs[i];
      }
      EntryKept(truth, table[j], ms, m, vs[j]);
    }
    if i < |table| {
      EntryNext(truth, table[i], ms, m);
    } else if |table| < MAX_STRIPES {
      NewEntry(truth, ms, m);
    }
    assert TableOk(truth, t, all);
    EntryVersions(truth, t, all);
    TrackedIndex(truth, t, all, m);
  }

  lemma EntryVersions(truth: Truth, table: seq<Gather>, ms: seq<Mut>)
    requires TableOk(truth, table, ms)
    ensures forall i :: 0 <= i < |table| ==>
              table[i].ver == Stripes(ms)[i] && table[i].ver in truth && table[i].key == truth[table[i].ver].key
  {
    forall i | 0 <= i < |table|
      ensures table[i].ver == Stripes(ms)[i] && table[i].ver in truth && table[i].key == truth[table[i].ver].key
    {
      assert EntryOk(truth, table[i], ms, Stripes(ms)[i]);
    }
  }

  lemma NewEntry(truth: Truth, ms: seq<Mut>, m: Mut)
    requires AllFit(truth, ms) && Fits(truth, m) && m.Put? && m.cnt > 1 && m.ver !in Stripes(ms)
    ensures EntryOk(truth, Collected(Gather(m.key, m.ver, 0, seq(m.cnt, _ => Part(0, 0, 0)), seq(m.cnt, _ => 0)), m), ms + [m], m.ver)
  {
    StripesDistinct(truth, ms);
    EntryNext(truth, Gather(m.key, m.ver, 0, seq(m.cnt, _ => Part(0, 0, 0)), seq(m.cnt, _ => 0)), ms, m);
  }

  lemma TrackedIndex(truth: Truth, table: seq<Gather>, ms: seq<Mut>, m: Mut)
    requires TableOk(truth, table, ms) && m.Put? && Fits(truth, m)
    ensures var i := Locate(table, m.key, m.ver);
            && (i < |table| <==> Tracked(ms, m.ver))
            && (i < |table| ==> EntryOk(truth, table[i], ms, m.ver))
  {
    hide EntryOk;
    EntryVersions(truth, table, ms);
    var vs, i := Stripes(ms), Locate(table, m.key, m.ver);
    if Tracked(ms, m.ver) {
      var j :| 0 <= j < Min(MAX_STRIPES, |vs|) && vs[j] == m.ver;
      assert table[j].ver == m.ver;
    }
    if i < |table| {
      assert vs[..Min(MAX_STRIPES, |vs|)][i] == m.ver;
    }
  }

  /** Slice p of a gathered stripe is published as the put itself published it. */
  lemma SliceStep(truth: Truth, x: Option<Slotted>, m: Mut, g: Gather, p: nat)
    requires m.Put? && Fits(truth, m) && m.cnt > 1
    requires var plan := truth[m.ver]; |g.parts| == |plan.at| && g.parts == plan.at && g.lens == plan.lens
    requires p < |g.parts|
    ensures m.ver in truth && PlanOk(truth[m.ver]) && truth[m.ver].key == m.key && p < |truth[m.ver].at|
    ensures PublishSlices(x, m, g, p + 1) == Published(PublishSlices(x, m, g, p), WriteOf(m.ver, truth[m.ver], p, 0))
    ensures p == 0 ==> PublishSlices(x, m, g, p) == x
  {
    hide Published;
  }

  lemma JoinNext(a: Held, ver: nat, p: nat)
    ensures Join(Join(a, Some(Content(ver, Range(p)))), Some(Content(ver, {p}))) == Join(a, Some(Content(ver, Range(p + 1))))
  {
    assert Range(p) + {p} == Range(p + 1);
    assert Join(Some(Content(ver, Range(p))), Some(Content(ver, {p}))) == Some(Content(ver, Range(p + 1)));
    JoinLaws(a, Some(Content(ver, Range(p))), Some(Content(ver, {p})));
  }

  /** Publishing the slices one after the other joins them to the leaf. */
  lemma {:induction false} SlicesJoin(truth: Truth, k: Key, x: Option<Slotted>, m: Mut, g: Gather, p: nat)
    requires Sound(truth, k, x) && m.Put? && m.key == k && Fits(truth, m) && m.cnt > 1
    requires var plan := truth[m.ver]; |g.parts| == |plan.at| && g.parts == plan.at && g.lens == plan.lens
    requires 0 < p <= |g.parts|
    ensures var y := PublishSlices(x, m, g, p);
            y.Some? && Sound(truth, k, y) && Abs(y) == Join(Abs(x), Some(Content(m.ver, Range(p))))
  {
    assert p == 1 ==> Range(p) == {0};
    SliceStep(truth, x, m, g, p - 1);
    hide PublishSlices, Fits, WriteOf, PlanOk, Sound, Publish, Filled, Built, Range, Abs, Join;
    if p == 1 {
      PublishJoins(truth, k, x, m.ver, 0, 0);
    } else {
      SlicesJoin(truth, k, x, m, g, p - 1);
      var y := PublishSlices(x, m, g, p - 1);
      FirstHeld(Abs(x), y, m.ver, p - 1);
      PublishJoins(truth, k, y, m.ver, p - 1, 0);
      JoinNext(Abs(x), m.ver, p - 1);
    }
  }

  lemma FirstHeld(a: Held, y: Option<Slotted>, ver: nat, p: nat)
    requires 0 < p && Abs(y) == Join(a, Some(Content(ver, Range(p))))
    ensures y.Some? && (y.value.ver == ver ==> 0 in Filled(y.value))
  {}

  lemma LoneJoins(truth: Truth, k: Key, x: Option<Slotted>, m: Mut)
    requires Sound(truth, k, x) && m.Put? && m.key == k && Fits(truth, m) && m.striped && m.cnt == 1
    ensures var y := PublishLone(x, m);
            y.Some? && Sound(truth, k, y) && Abs(y) == Join(Abs(x), Some(Content(m.ver, {})))
  {
    var plan, y := truth[m.ver], PublishLone(x, m);
    FilledBuilt(m.ver, plan, {});
    if x.Some? && x.value.ver == m.ver {
      var l, l' := x.value, y.value;
      assert Filled(l) == {} || Filled(l) == {0};
      if Filled(l) == {} {
        assert l.stripe.value.parts == [];
      } else {
        assert l.stripe.value.parts == Built(m.ver, plan, Filled(l)).stripe.value.parts;
        assert 0 in Filled(l);
        assert l.stripe.value.parts == [plan.at[0]];
      }
      assert PartOf(m.addr) == plan.at[0];
      assert l'.stripe.value.parts == l.stripe.value.parts;
      assert l'.stripe == l.stripe;
      assert l.addr[0].crc == plan.crc by {
        assert Untimed(l).addr[0] == Built(m.ver, plan, Filled(l)).addr[0];
      }
      assert l'.addr == l.addr;
      assert l' == l;
      assert Filled(l) + {} == Filled(l);
    } else if x.None? || x.value.ver < m.ver {
      assert y.value == Built(m.ver, plan, {});
    }
  }

  /** One record of key k: what replay does to its leaf. */
  lemma ReplayOneKey(truth: Truth, rs: Progress, ms: seq<Mut>, m: Mut)
    requires AllFit(truth, ms + [m]) && Once(ms + [m]) && TableOk(truth, rs.table, ms) && Sound(truth, m.key, Get(rs.idx, m.key))
    ensures var rs' := ReplayOne(rs, m);
            && TableOk(truth, rs'.table, ms + [m]) && Sound(truth, m.key, Get(rs'.idx, m.key))
            && Abs(Get(rs'.idx, m.key)) == Act(Abs(Get(rs.idx, m.key)), EffOne(ms, m, m.key))
  {
    hide Publish, Filled, Built, TableOk, PublishSlices, PublishLone, Tracked, EntryOk, Sound, Noted;
    var x := Get(rs.idx, m.key);
    AllFitInit(truth, ms, m);
    JoinLaws(Abs(x), None, None);
    if m.Del? {
      TableKept(truth, rs.table, ms, m);
      assert Sound(truth, m.key, None) by {
        SoundNone(truth, m.key);
      }
    } else if m.cnt > 1 {
      TableNext(truth, rs.table, ms, m);
      SliceKey(truth, rs, ms, m);
    } else {
      TableKept(truth, rs.table, ms, m);
      if m.striped {
        LoneJoins(truth, m.key, x, m);
      } else {
        SlotJoins(truth, m.key, x, m);
      }
    }
  }

  lemma SoundNone(truth: Truth, k: Key)
    ensures Sound(truth, k, None)
  {}

  lemma SlotJoins(truth: Truth, k: Key, x: Option<Slotted>, m: Mut)
    requires Sound(truth, k, x) && m.Put? && m.key == k && Fits(truth, m) && !m.striped
    ensures var y := Published(x, Write(m.ver, m.addr, m.slot, false, 0, 0, 0, m.shape));
            y.Some? && Sound(truth, k, y) && Abs(y) == Join(Abs(x), Some(Content(m.ver, {m.slot})))
  {
    hide Publish, Filled, Built;
    PublishJoins(truth, k, x, m.ver, m.slot, 0);
  }

  /** A slice of a stripe: nothing happens unless it is the last one of a tracked stripe. */
  lemma SliceKey(truth: Truth, rs: Progress, ms: seq<Mut>, m: Mut)
    requires AllFit(truth, ms + [m]) && Once(ms + [m]) && m.Put? && m.cnt > 1 && Sound(truth, m.key, Get(rs.idx, m.key))
    requires var t := Noted(rs.table, m);
             var i := Locate(t, m.key, m.ver);
             && (i < |t| <==> Tracked(ms + [m], m.ver))
             && (i < |t| ==> EntryOk(truth, t[i], ms + [m], m.ver))
    ensures var rs' := ReplayOne(rs, m);
            && rs'.table == Noted(rs.table, m) && Sound(truth, m.key, Get(rs'.idx, m.key))
            && Abs(Get(rs'.idx, m.key)) == Act(Abs(Get(rs.idx, m.key)), EffOne(ms, m, m.key))
  {
    hide Publish, Filled, Built, PublishSlices, Tracked, Noted, Sound;
    var x, t := Get(rs.idx, m.key), Noted(rs.table, m);
    var i := Locate(t, m.key, m.ver);
    JoinLaws(Abs(x), None, None);
    AllFitInit(truth, ms, m);
    PartsNext(ms, m, m.ver);
    assert m.cnt == |truth[m.ver].at|;
    if i < |t| && t[i].seen >= |t[i].parts| {
      AllSeen(truth, ms + [m], m.ver);
      GatheredAll(truth, t[i], ms + [m], m.ver);
      SlicesJoin(truth, m.key, x, m, t[i], |t[i].parts|);
    }
  }

  lemma GatheredAll(truth: Truth, g: Gather, ms: seq<Mut>, v: nat)
    requires EntryOk(truth, g, ms, v) && Parts(ms, v) == Range(|truth[v].at|)
    ensures g.parts == truth[v].at && g.lens == truth[v].lens
  {
    forall p | 0 <= p < |g.parts|
      ensures g.parts[p] == truth[v].at[p] && g.lens[p] == truth[v].lens[p]
    {
      assert p in Range(|truth[v].at|);
    }
  }

  /**
  Replaying records of puts, no part twice: every key ends up with the effect of its own records,
  and with nothing else.  Records of other keys matter only in that their stripes fill the table.
  */
  lemma {:induction false} ReplayRefines(truth: Truth, idx: Index, ms: seq<Mut>, k: Key)
    requires AllFit(truth, ms) && Once(ms) && forall j :: Sound(truth, j, Get(idx, j))
    ensures TableOk(truth, ReplayFrom(Progress(idx, []), ms).table, ms)
    ensures Sound(truth, k, Get(ReplayAll(idx, ms), k))
    ensures Abs(Get(ReplayAll(idx, ms), k)) == Act(Abs(Get(idx, k)), Eff(ms, k))
  {
    hide TableOk, Sound, ReplayOne, EffOne, Abs;
    if ms == [] {
      EmptyTable(truth);
      JoinLaws(Abs(Get(idx, k)), None, None);
    } else {
      var init, m := ms[..|ms| - 1], ms[|ms| - 1];
      assert ms == init + [m];
      AllFitInit(truth, init, m);
      OnceInit(init, m);
      ReplayRefines(truth, idx, init, k);
      ReplayRefines(truth, idx, init, m.key);
      var rs := ReplayFrom(Progress(idx, []), init);
      ReplayOneKey(truth, rs, init, m);
      PubNext(init, m, k);
      ActThen(Abs(Get(idx, k)), Eff(init, k), EffOne(init, m, k));
      if k != m.key {
        OtherKey(rs, m, k);
        ThenLaws(Eff(init, k), NOTHING, NOTHING);
        assert EffOne(init, m, k) == NOTHING by {
          ForeignEffect(init, m, k);
        }
      }
    }
  }

  lemma EmptyTable(truth: Truth)
    ensures TableOk(truth, [], [])
  {}

  lemma ForeignEffect(ms: seq<Mut>, m: Mut, k: Key)
    requires m.key != k
    ensures EffOne(ms, m, k) == NOTHING && PubOne(m, k) == NOTHING
  {}

  lemma OtherKey(rs: Progress, m: Mut, k: Key)
    requires k != m.key
    ensures Get(ReplayOne(rs, m).idx, k) == Get(rs.idx, k)
  {
    hide Noted, PublishSlices, PublishLone, Publish;
  }

  // ----- Replay against publishing -----

  /**
  What replay makes of records that led to d by publishing: the same, except for a stripe.  A
  stripe of one slice loses the slice; a longer one is there with all its slices if all of them are
  recorded and it is tracked, and not at all otherwise.
  */
  ghost predicate Relates(truth: Truth, ms: seq<Mut>, e: Effect, d: Effect) {
    && e.reset == d.reset
    && (d.sum.None? ==> e.sum.None?)
    && (d.sum.Some? ==>
          var v := d.sum.value.ver;
          && v in truth && PlanOk(truth[v]) && d.sum.value.parts != {} && d.sum.value.parts <= Parts(ms, v)
          && if !truth[v].striped then e.sum == d.sum
             else if |truth[v].at| == 1 then e.sum == Some(Content(v, {}))
             else if Tracked(ms, v) && Seen(ms, v) >= |truth[v].at| then e.sum == Some(Content(v, Range(|truth[v].at|)))
             else e.sum.None? || e.sum.value.ver < v)
  }

  lemma {:induction false} PubRelates(truth: Truth, ms: seq<Mut>, k: Key)
    requires AllFit(truth, ms)
    ensures Relates(truth, ms, Eff(ms, k), Pub(ms, k))
    ensures Pub(ms, k).sum.Some? ==> truth[Pub(ms, k).sum.value.ver].key == k
  {
    if ms != [] {
      var init, m := ms[..|ms| - 1], ms[|ms| - 1];
      assert ms == init + [m];
      AllFitInit(truth, init, m);
      PubRelates(truth, init, k);
      RelatesNext(truth, init, m, k);
    }
  }

  lemma RelatesNext(truth: Truth, ms: seq<Mut>, m: Mut, k: Key)
    requires AllFit(truth, ms + [m]) && Relates(truth, ms, Eff(ms, k), Pub(ms, k))
    requires Pub(ms, k).sum.Some? ==> truth[Pub(ms, k).sum.value.ver].key == k
    ensures Relates(truth, ms + [m], Eff(ms + [m], k), Pub(ms + [m], k))
    ensures m.Put? && m.key == k ==> Pub(ms + [m], k).sum.Some? && Pub(ms + [m], k).sum.value.ver in {m.ver} + Versions(Pub(ms, k).sum)
    ensures !(m.Put? && m.key == k) ==> Pub(ms + [m], k).sum in {None, Pub(ms, k).sum}
  {
    AllFitInit(truth, ms, m);
    PubNext(ms, m, k);
    var d, e := Pub(ms, k), Eff(ms, k);
    ThenLaws(d, NOTHING, NOTHING);
    ThenLaws(e, NOTHING, NOTHING);
    RelatesKept(truth, ms, m, e, d);
    hide Tracked, Relates, Parts, Seen, Pub, Eff;
    if m.Put? && m.key == k {
      RelatesPut(truth, ms, m, e, d);
    } else if m.Del? && m.key == k {
      assert Then(e, RESET) == RESET;
      RelatesReset(truth, ms + [m]);
    }
  }

  lemma RelatesReset(truth: Truth, ms: seq<Mut>)
    ensures Relates(truth, ms, RESET, RESET)
  {}

  /** A record that has no effect on the key leaves the relation alone. */
  lemma RelatesKept(truth: Truth, ms: seq<Mut>, m: Mut, e: Effect, d: Effect)
    requires AllFit(truth, ms) && Relates(truth, ms, e, d)
    ensures d.sum.Some? && !(m.Put? && m.ver == d.sum.value.ver) ==> Relates(truth, ms + [m], e, d)
    ensures d.sum.None? ==> Relates(truth, ms + [m], e, d)
  {
    hide Tracked;
    if d.sum.Some? {
      var v := d.sum.value.ver;
      PartsNext(ms, m, v);
      StripesDistinct(truth, ms);
      if truth[v].striped && |truth[v].at| > 1 {
        assert v in Stripes(ms);
        TrackedStays(ms, m, v);
      }
    }
  }

  lemma RelatesPut(truth: Truth, ms: seq<Mut>, m: Mut, e: Effect, d: Effect)
    requires AllFit(truth, ms) && Fits(truth, m) && m.Put? && Relates(truth, ms, e, d)
    requires d.sum.Some? && m.ver != d.sum.value.ver ==> Relates(truth, ms + [m], e, d)
    ensures Relates(truth, ms + [m], Then(e, EffOne(ms, m, m.key)), Then(d, PubOne(m, m.key)))
  {
    hide Tracked, Range, Parts, Seen;
    PartsNext(ms, m, m.ver);
    var plan, f := truth[m.ver], EffOne(ms, m, m.key);
    if d.sum.Some? && m.ver == d.sum.value.ver {
      if plan.striped && |plan.at| > 1 {
        StripesDistinct(truth, ms);
        TrackedStays(ms, m, m.ver);
        JoinLaws(f.sum, f.sum, None);
      } else if plan.striped {
        JoinLaws(f.sum, f.sum, None);
      }
    }
  }

  function Versions(h: Held): set<nat> {
    if h.None? then {} else {h.value.ver}
  }

  lemma TrackedStays(ms: seq<Mut>, m: Mut, v: nat)
    requires v in Stripes(ms)
    ensures Tracked(ms + [m], v) <==> Tracked(ms, v)
  {
    PubNext(ms, m, m.key);
    var vs, ws := Stripes(ms), Stripes(ms + [m]);
    var n, n' := Min(MAX_STRIPES, |vs|), Min(MAX_STRIPES, |ws|);
    assert forall i :: 0 <= i < n ==> ws[..n'][i] == vs[..n][i];
    if Tracked(ms + [m], v) && |ws| > |vs| {
      var i :| 0 <= i < n' && ws[i] == v;
      assert i < n;
    }
  }

  /** A stripe that replay brings has been gathered completely, or is one of a single slice. */
  ghost predicate Gathered(truth: Truth, ms: seq<Mut>, e: Effect) {
    e.sum.Some? ==>
      var v := e.sum.value.ver;
      && v in truth
      && (truth[v].striped ==>
            if |truth[v].at| == 1 then e.sum.value.parts == {}
            else e.sum.value.parts == Range(|truth[v].at|) && Seen(ms, v) >= |truth[v].at| && v in Stripes(ms) && Tracked(ms, v))
  }

  lemma {:induction false} EffGathered(truth: Truth, ms: seq<Mut>, k: Key)
    requires AllFit(truth, ms)
    ensures Gathered(truth, ms, Eff(ms, k))
  {
    if ms != [] {
      var init, m := ms[..|ms| - 1], ms[|ms| - 1];
      assert ms == init + [m];
      AllFitInit(truth, init, m);
      EffGathered(truth, init, k);
      PubNext(init, m, k);
      GatheredKept(truth, init, m, Eff(init, k));
      GatheredOne(truth, init, m, k);
      hide Gathered, EffOne, Eff;
      GatheredJoin(truth, ms, Eff(init, k), EffOne(init, m, k));
    }
  }

  lemma GatheredKept(truth: Truth, ms: seq<Mut>, m: Mut, e: Effect)
    requires Gathered(truth, ms, e)
    ensures Gathered(truth, ms + [m], e)
  {
    hide Tracked, Range, Parts, Seen;
    if e.sum.Some? {
      var v := e.sum.value.ver;
      PartsNext(ms, m, v);
      PubNext(ms, m, m.key);
      if v in Stripes(ms) {
        TrackedStays(ms, m, v);
      }
    }
  }

  lemma GatheredOne(truth: Truth, ms: seq<Mut>, m: Mut, k: Key)
    requires Fits(truth, m)
    ensures Gathered(truth, ms + [m], EffOne(ms, m, k))
  {
    hide Tracked, Range, Parts, Seen;
    if m.Put? {
      PartsNext(ms, m, m.ver);
      PubNext(ms, m, m.key);
    }
  }

  lemma GatheredJoin(truth: Truth, ms: seq<Mut>, e: Effect, f: Effect)
    requires Gathered(truth, ms, e) && Gathered(truth, ms, f)
    ensures Gathered(truth, ms, Then(e, f))
  {
    hide Tracked, Range, Seen, Stripes;
    JoinLaws(f.sum, f.sum, None);
  }

  /** None of the parts that a key held is recorded again. */
  ghost predicate NotRecorded(b: Held, ms: seq<Mut>) {
    b.Some? ==> b.value.parts !! Parts(ms, b.value.ver)
  }

  /**
  Whether replaying records over b finds what publishing them left, x: unless that is a stripe it
  does; a stripe it finds if b had it like that, or if it has more than one slice, all of them,
  none of them from b, and is tracked.
  */
  ghost predicate Recoverable(truth: Truth, b: Held, x: Held, ms: seq<Mut>) {
    || x.None? || x.value.ver !in truth || !truth[x.value.ver].striped
    || x == b
    || (var plan := truth[x.value.ver];
        && 1 < |plan.at| && x.value.parts == Range(|plan.at|)
        && (b.None? || b.value.ver != x.value.ver) && Tracked(ms, x.value.ver))
  }

  lemma RecoverableIff(truth: Truth, k: Key, b: Held, ms: seq<Mut>)
    requires AllFit(truth, ms) && Once(ms) && HeldOk(truth, k, b) && NotRecorded(b, ms)
    ensures var x := Act(b, Pub(ms, k));
            Act(b, Eff(ms, k)) == x <==> Recoverable(truth, b, x, ms)
  {
    PubRelates(truth, ms, k);
    var d, e := Pub(ms, k), Eff(ms, k);
    hide Pub, Eff, Tracked, Range;
    if d.sum.Some? {
      AllSeen(truth, ms, d.sum.value.ver);
      hide Parts, Seen;
      RelatedIff(truth, k, b, ms, e, d);
    }
  }

  lemma RelatedIff(truth: Truth, k: Key, b: Held, ms: seq<Mut>, e: Effect, d: Effect)
    requires HeldOk(truth, k, b) && NotRecorded(b, ms) && Relates(truth, ms, e, d) && d.sum.Some?
    requires var v := d.sum.value.ver;
             && Parts(ms, v) <= Range(|truth[v].at|)
             && (Seen(ms, v) >= |truth[v].at| <==> Parts(ms, v) == Range(|truth[v].at|))
    ensures Act(b, e) == Act(b, d) <==> Recoverable(truth, b, Act(b, d), ms)
  {
    hide Tracked, Range, Parts, Seen;
    var v, q := d.sum.value.ver, d.sum.value.parts;
    var plan := truth[v];
    if b.Some? && b.value.ver == v {
      var a := b.value.parts;
      assert q !! a;
      if plan.striped {
        if |plan.at| == 1 {
          assert 0 in q && a == {} by {
            assert forall p :: p in q || p in a ==> p == 0;
            assert a <= q;
          }
        } else {
          assert a != {} && forall p :: p in a ==> p in Range(|plan.at|) && p !in Parts(ms, v);
          assert Parts(ms, v) != Range(|plan.at|);
          assert a + q != a;
        }
      }
    } else if plan.striped && |plan.at| > 1 && q == Range(|plan.at|) {
      assert Parts(ms, v) == Range(|plan.at|);
    }
  }

  /** Without a deletion replay brings nothing that publishing did not. */
  lemma EffBelow(truth: Truth, ms: seq<Mut>, k: Key)
    requires AllFit(truth, ms) && Once(ms)
    ensures Eff(ms, k).reset == Pub(ms, k).reset
    ensures !Pub(ms, k).reset ==> Below(Eff(ms, k).sum, Pub(ms, k).sum)
  {
    PubRelates(truth, ms, k);
    var d, e := Pub(ms, k), Eff(ms, k);
    if !d.reset && d.sum.Some? {
      var v := d.sum.value.ver;
      AllSeen(truth, ms, v);
      PubHolds(truth, ms, k);
      hide Pub, Eff, Tracked, Range, Seen;
      if e.sum.Some? && e.sum.value.ver == v && truth[v].striped && |truth[v].at| > 1 {
        forall p | p in e.sum.value.parts
          ensures p in d.sum.value.parts
        {
          assert p in Parts(ms, v);
          assert Below(Some(Content(v, {p})), d.sum);
        }
      }
    }
  }

  /** Without a deletion every recorded part of the newest version is there. */
  lemma {:induction false} PubHolds(truth: Truth, ms: seq<Mut>, k: Key)
    requires AllFit(truth, ms) && !Pub(ms, k).reset
    ensures forall v, p :: v in truth && truth[v].key == k && p in Parts(ms, v) ==> Below(Some(Content(v, {p})), Pub(ms, k).sum)
  {
    if ms != [] {
      var init, m := ms[..|ms| - 1], ms[|ms| - 1];
      assert ms == init + [m];
      AllFitInit(truth, init, m);
      PubNext(init, m, k);
      PubHolds(truth, init, k);
      forall v, p | v in truth && truth[v].key == k && p in Parts(ms, v)
        ensures Below(Some(Content(v, {p})), Pub(ms, k).sum)
      {
        PartsNext(init, m, v);
        JoinLaws(Pub(init, k).sum, PubOne(m, k).sum, None);
        JoinLaws(PubOne(m, k).sum, Pub(init, k).sum, None);
        if p in Parts(init, v) {
          BelowTransitive(Some(Content(v, {p})), Pub(init, k).sum, Pub(ms, k).sum);
        }
      }
    }
  }

  lemma {:induction false} PartsAppend(a: seq<Mut>, b: seq<Mut>, v: nat)
    ensures Parts(a + b, v) == Parts(a, v) + Parts(b, v) && Seen(a + b, v) == Seen(a, v) + Seen(b, v)
  {
    if b == [] {
      assert a + b == a && Parts(b, v) == {};
    } else {
      var n := |b| - 1;
      assert a + b == (a + b[..n]) + [b[n]] && b == b[..n] + [b[n]];
      PartsAppend(a, b[..n], v);
      PartsNext(a + b[..n], b[n], v);
      PartsNext(b[..n], b[n], v);
    }
  }

  lemma OnceApart(a: seq<Mut>, b: seq<Mut>)
    requires Once(a + b)
    ensures Once(a) && Once(b) && forall v :: Parts(a, v) !! Parts(b, v)
  {
    var all := a + b;
    assert forall i :: 0 <= i < |a| ==> all[i] == a[i];
    assert forall i :: 0 <= i < |b| ==> all[|a| + i] == b[i];
    forall v, p | p in Parts(a, v)
      ensures p !in Parts(b, v)
    {
      var i :| 0 <= i < |a| && a[i].Put? && a[i].ver == v && PartIdx(a[i]) == p;
      assert all[i] == a[i];
    }
  }

  lemma AllFitParts(truth: Truth, a: seq<Mut>, b: seq<Mut>)
    ensures AllFit(truth, a + b) <==> AllFit(truth, a) && AllFit(truth, b)
  {
    assert forall m :: m in a + b <==> m in a || m in b;
  }

  /**
  Whether replaying the flushed records ms finds the stripe that these and the unflushed records u
  left: the checkpoint had it like that; or it has more than one slice and all of them, none of
  them from the checkpoint and none unflushed, and is tracked.
  */
  ghost predicate StripeKept(truth: Truth, b: Held, i: Held, ms: seq<Mut>, u: seq<Mut>)
    requires i.Some? && i.value.ver in truth
  {
    || i == b
    || (var v, plan := i.value.ver, truth[i.value.ver];
        && 1 < |plan.at| && i.value.parts == Range(|plan.at|)
        && (b.None? || b.value.ver != v) && Parts(u, v) == {} && Tracked(ms, v))
  }

  lemma StripeKeptIff(truth: Truth, k: Key, b: Held, ms: seq<Mut>, u: seq<Mut>)
    requires AllFit(truth, ms + u) && Once(ms + u) && HeldOk(truth, k, b) && NotRecorded(b, ms + u)
    requires var i := Act(b, Pub(ms + u, k)); i.Some? && i.value.ver in truth && truth[i.value.ver].striped
    ensures var i := Act(b, Pub(ms + u, k));
            Act(b, Eff(ms, k)) == i <==> StripeKept(truth, b, i, ms, u)
  {
    PubAppend(ms, u, k);
    AllFitParts(truth, ms, u);
    OnceApart(ms, u);
    PubRelates(truth, ms, k);
    PubRelates(truth, u, k);
    EffGathered(truth, ms, k);
    var d, e, f, i := Pub(ms, k), Eff(ms, k), Pub(u, k), Act(b, Pub(ms + u, k));
    var v := i.value.ver;
    PartsAppend(ms, u, v);
    AllSeen(truth, ms, v);
    AllSeen(truth, u, v);
    if b.Some? {
      PartsAppend(ms, u, b.value.ver);
    }
    if d.sum.Some? {
      AllSeen(truth, ms, d.sum.value.ver);
    }
    if f.sum.Some? {
      PartsAppend(ms, u, f.sum.value.ver);
    }
    hide Pub, Eff, Tracked, Range, Parts, Seen;
    KeptCases(truth, k, b, ms, u, e, d, f);
  }

  lemma KeptCases(truth: Truth, k: Key, b: Held, ms: seq<Mut>, u: seq<Mut>, e: Effect, d: Effect, f: Effect)
    requires HeldOk(truth, k, b) && NotRecorded(b, ms) && NotRecorded(b, u)
    requires Relates(truth, ms, e, d) && Gathered(truth, ms, e)
    requires f.sum.Some? ==> f.sum.value.parts != {} && f.sum.value.parts <= Parts(u, f.sum.value.ver)
    requires var i := Act(b, Then(d, f));
             && i.Some? && i.value.ver in truth && truth[i.value.ver].striped
             && var v, n := i.value.ver, |truth[i.value.ver].at|;
             && Parts(ms, v) <= Range(n) && Parts(u, v) <= Range(n) && Parts(ms, v) !! Parts(u, v)
             && (Seen(ms, v) >= n <==> Parts(ms, v) == Range(n))
    requires d.sum.Some? ==>
             var v, n := d.sum.value.ver, |truth[d.sum.value.ver].at|;
             Parts(ms, v) <= Range(n) && (Seen(ms, v) >= n <==> Parts(ms, v) == Range(n))
    ensures var i := Act(b, Then(d, f));
            Act(b, e) == i <==> StripeKept(truth, b, i, ms, u)
  {
    hide Tracked, Range, Parts, Seen;
    var i := Act(b, Then(d, f));
    var v, plan := i.value.ver, truth[i.value.ver];
    if Act(b, e) == i && e.sum.Some? && e.sum.value.ver == v {
      if |plan.at| == 1 {
        LoneKept(b, e, d, f, i);
      } else {
        assert Parts(ms, v) == Range(|plan.at|);
        assert Parts(u, v) == {};
      }
    }
  }

  /** A stripe of one slice is found only if it was there before. */
  lemma LoneKept(b: Held, e: Effect, d: Effect, f: Effect, i: Held)
    requires i == Act(b, Then(d, f)) && i.Some? && Act(b, e) == i
    requires e.sum == Some(Content(i.value.ver, {})) && d.sum.Some? && i.value.ver <= d.sum.value.ver
    requires d.sum.value.parts != {} && (f.sum.Some? ==> f.sum.value.parts != {})
    ensures i == b
  {
    if b.Some? && b.value.ver == i.value.ver && !e.reset {
      assert b.value.parts + {} == b.value.parts;
    }
  }

  // ----- Keys without stripes, and journals without them -----

  /** No record of the key is one of a stripe. */
  ghost predicate Unstriped(ms: seq<Mut>, k: Key) {
    forall m :: m in ms && m.key == k && m.Put? ==> !m.striped && m.cnt <= 1
  }

  /** Replaying a key without stripes is publishing its records. */
  lemma {:induction false} UnstripedEff(ms: seq<Mut>, k: Key)
    requires Unstriped(ms, k)
    ensures Eff(ms, k) == Pub(ms, k)
  {
    if ms != [] {
      var init, m := ms[..|ms| - 1], ms[|ms| - 1];
      assert ms == init + [m];
      assert m in ms && forall x :: x in init ==> x in ms;
      UnstripedEff(init, k);
      PubNext(init, m, k);
    }
  }

  /** Without any stripe of more than one slice the effects of two lists add up. */
  lemma {:induction false} EffAppend(a: seq<Mut>, b: seq<Mut>, k: Key)
    requires forall m :: m in b && m.Put? ==> m.cnt <= 1
    ensures Eff(a + b, k) == Then(Eff(a, k), Eff(b, k))
  {
    if b == [] {
      assert a + b == a;
      ThenLaws(Eff(a, k), NOTHING, NOTHING);
    } else {
      var n := |b| - 1;
      assert a + b == (a + b[..n]) + [b[n]] && b == b[..n] + [b[n]];
      assert b[n] in b && forall m :: m in b[..n] ==> m in b;
      EffAppend(a, b[..n], k);
      PubNext(a + b[..n], b[n], k);
      PubNext(b[..n], b[n], k);
      ThenLaws(Eff(a, k), Eff(b[..n], k), EffOne(b[..n], b[n], k));
    }
  }

  lemma {:induction false} ForeignRecords(ms: seq<Mut>, k: Key)
    requires forall m :: m in ms ==> m.key != k
    ensures Eff(ms, k) == Pub(ms, k) == NOTHING
  {
    if ms != [] {
      var init, m := ms[..|ms| - 1], ms[|ms| - 1];
      assert ms == init + [m];
      assert m in ms && forall x :: x in init ==> x in ms;
      ForeignRecords(init, k);
      PubNext(init, m, k);
    }
  }

  lemma {:induction false} TrackedPrefix(ms: seq<Mut>, n: nat, v: nat)
    requires n <= |ms| && Tracked(ms[..n], v)
    ensures Tracked(ms, v)
  {
    if n == |ms| {
      assert ms[..n] == ms;
    } else {
      var init := ms[..|ms| - 1];
      assert init[..n] == ms[..n] && ms == init + [ms[|ms| - 1]];
      TrackedPrefix(init, n, v);
      TrackedStays(init, ms[|ms| - 1], v);
    }
  }

  /** A key of which only slices of stripes without room in the table are recorded is not found. */
  lemma {:induction false} UntrackedKey(ms: seq<Mut>, k: Key, n: nat)
    requires n <= |ms| && forall m :: m in ms && m.key == k ==> m.Put? && m.cnt > 1 && !Tracked(ms, m.ver)
    ensures Eff(ms[..n], k) == NOTHING
  {
    if n > 0 {
      var m := ms[n - 1];
      UntrackedKey(ms, k, n - 1);
      assert ms[..n] == ms[..n - 1] + [m] && m in ms;
      PubNext(ms[..n - 1], m, k);
      if m.key == k && Tracked(ms[..n], m.ver) {
        TrackedPrefix(ms, n, m.ver);
      }
    }
  }

  // ----- What a record brings stays until a deletion -----

  /** The record takes effect when it is replayed: it is no slice, or the last one of a tracked stripe. */
  ghost predicate TakesEffect(ms: seq<Mut>, i: nat)
    requires i < |ms| && ms[i].Put?
  {
    !ms[i].striped || (ms[i].cnt > 1 && Tracked(ms[..i + 1], ms[i].ver) && Seen(ms[..i], ms[i].ver) + 1 >= ms[i].cnt)
  }

  function Brought(m: Mut): Held
    requires m.Put?
  {
    Some(Content(m.ver, if m.striped then Range(m.cnt) else {m.slot}))
  }

  lemma {:induction false} RecordStays(truth: Truth, ms: seq<Mut>, k: Key, i: nat)
    requires AllFit(truth, ms) && i < |ms| && ms[i].Put? && ms[i].key == k && TakesEffect(ms, i)
    requires forall j :: i < j < |ms| ==> ms[j] != Del(k)
    ensures Below(Brought(ms[i]), Eff(ms, k).sum)
  {
    hide Tracked, Range, Seen;
    var init, m := ms[..|ms| - 1], ms[|ms| - 1];
    assert ms == init + [m];
    AllFitInit(truth, init, m);
    PubNext(init, m, k);
    JoinLaws(Eff(init, k).sum, EffOne(init, m, k).sum, None);
    JoinLaws(EffOne(init, m, k).sum, Eff(init, k).sum, None);
    if i < |ms| - 1 {
      assert ms[..i + 1] == init[..i + 1] && ms[..i] == init[..i];
      RecordStays(truth, init, k, i);
      assert m != Del(k) && !EffOne(init, m, k).reset;
      BelowTransitive(Brought(ms[i]), Eff(init, k).sum, Eff(ms, k).sum);
    } else {
      assert ms[..i] == init && ms[..i + 1] == ms;
    }
  }

  // ----- Records of puts that were not stale -----

  /** When it was recorded, no put of the key was older than what the key held. */
  ghost predicate Rising(b: Held, ms: seq<Mut>, k: Key) {
    ms != [] ==>
      var init, m := ms[..|ms| - 1], ms[|ms| - 1];
      && Rising(b, init, k)
      && (m.key == k && m.Put? ==> var y := Act(b, Pub(init, k)); y.None? || y.value.ver <= m.ver)
  }

  lemma {:induction false} RisingPrefix(b: Held, ms: seq<Mut>, k: Key, n: nat)
    requires Rising(b, ms, k) && n <= |ms|
    ensures Rising(b, ms[..n], k)
  {
    if n < |ms| {
      RisingPrefix(b, ms[..|ms| - 1], k, n);
      assert ms[..|ms| - 1][..n] == ms[..n];
    } else {
      assert ms[..n] == ms;
    }
  }

  /** Without a deletion they led to something at least as new as the start. */
  lemma {:induction false} RisingAbove(b: Held, ms: seq<Mut>, k: Key)
    requires Rising(b, ms, k)
    ensures !Pub(ms, k).reset && Pub(ms, k).sum.Some? && b.Some? ==> b.value.ver <= Pub(ms, k).sum.value.ver
  {
    if ms != [] {
      var init, m := ms[..|ms| - 1], ms[|ms| - 1];
      assert ms == init + [m];
      RisingAbove(b, init, k);
      PubNext(init, m, k);
    }
  }
}
