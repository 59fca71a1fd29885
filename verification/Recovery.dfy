/**
Crash recovery: the index, the checkpoint file and one journal a device, and every step
that touches them.  A crash may follow any step.  Recovery loads the checkpoint and
replays the journals one device after the other.

All records of a key are in one journal: with one device any put, plain, hot or striped, with
more of them plain puts.  A journal is the list of its records, cut into pages where the cursor
moved on.  An opened cache appends at page 0 again, over what it has just replayed, until its
first checkpoint has reset the journals.
*/
module Recovery {
  import opened Common
  import opened Leaves
  import opened Effects
  import opened Mutations
  import opened Replay

  /** The deletions that a page of the journal holds. */
  const PER_PAGE: nat := PAGE_SIZE / DEL_SIZE

  /**
  One journal: the records appended since the cursor last stood at page 0, how many of them are
  in pages the cursor has left and how many the device holds; the records of pages from before
  the opening that were overwritten, and the pages that were not; whether a reset has zeroed the
  first page so that it reads as empty; and whether it ran full and refuses records until reset.
  */
  datatype Log = Log(recs: seq<Mut>, left: nat, durable: nat, gone: seq<Mut>, rest: seq<seq<Mut>>, blank: bool, closed: bool)

  const EMPTY_LOG: Log := Log([], 0, 0, [], [], false, false)

  /**
  Running; or the checkpoint is renamed and the journals from `next` on await their reset
  (`again` for the checkpoint that ends an opening); or just reopened after a crash.
  */
  datatype Phase = Running | Resetting(next: nat, again: bool) | Reopened

  datatype State = State(
    mix: nat -> nat,
    truth: Truth,              // history: the put of each version handed out
    index: Index,
    ckpt: Index,
    base: Index,               // history: the index when the journals were last emptied or replayed
    logs: seq<Log>,
    pending: set<(nat, nat)>,  // parts of puts, given by version and number, that did not complete yet
    counter: nat,
    phase: Phase)

  datatype Step =
    | Issue(plan: Plan)
    | PublishPart(ver: nat, part: nat, ts: nat, full: bool)
    | DropLeaf(key: Key, full: bool)
    | Flush(d: nat)
    | Turn(d: nat)
    | Number(counter: nat)
    | Rename
    | BlankFirst(d: nat)
    | ResetDone(d: nat)
    | Crash(counter: nat, pages: seq<seq<seq<Mut>>>)

  /** The device that stores a prefix. */
  function Home(s: State, k: Key): nat
    requires s.logs != []
  {
    s.mix(k.prefix) % |s.logs|
  }

  /** A put all of whose parts go to the home device of its key. */
  predicate PlanFor(s: State, plan: Plan)
    requires s.logs != []
  {
    && PlanOk(plan) && (forall p :: 0 <= p < |plan.at| ==> plan.at[p].dev == Home(s, plan.key))
    && (|s.logs| == 1 || (!plan.striped && |plan.at| == 1))
  }

  /** A deletion goes to the journal of the device that holds slot 0. */
  function DelDevice(l: Slotted): nat {
    if l.addr[0].dev == INVALID_DEV then 0 else l.addr[0].dev
  }

  function Flat(pages: seq<seq<Mut>>): seq<Mut> {
    if pages == [] then [] else pages[0] + Flat(pages[1..])
  }

  predicate LogOk(g: Log) {
    g.left <= g.durable <= |g.recs|
  }

  predicate LogsOk(logs: seq<Log>) {
    forall d :: 0 <= d < |logs| ==> LogOk(logs[d])
  }

  function OnDisk(g: Log): seq<Mut>
    requires LogOk(g)
  {
    if g.blank then [] else g.recs[..g.durable] + Flat(g.rest)
  }

  /** The records from before an opening, overwritten or not. */
  function Old(g: Log): seq<Mut> {
    g.gone + Flat(g.rest)
  }

  /** Everything the journal holds or held since it was last emptied. */
  function All(g: Log): seq<Mut> {
    g.recs + Old(g)
  }

  /** What replay reads, device by device. */
  function AllOnDisk(logs: seq<Log>): seq<Mut>
    requires LogsOk(logs)
  {
    if logs == [] then [] else AllOnDisk(logs[..|logs| - 1]) + OnDisk(logs[|logs| - 1])
  }

  /** The index that opening the cache after a crash builds. */
  function Recover(s: State): Index
    requires LogsOk(s.logs)
  {
    ReplayAll(s.ckpt, AllOnDisk(s.logs))
  }

  function Append(s: State, d: nat, m: Mut, full: bool): State
    requires d < |s.logs|
  {
    if full then s.(logs := s.logs[d := s.logs[d].(closed := true)])
    else s.(logs := s.logs[d := s.logs[d].(recs := s.logs[d].recs + [m])])
  }

  /** The page under the cursor is written; the first time it goes over an old page, if there is one. */
  function Written(g: Log): (r: Log)
    requires LogOk(g)
    ensures LogOk(r)
  {
    var over := g.durable == g.left && g.rest != [];
    g.(durable := |g.recs|, gone := if over then g.gone + g.rest[0] else g.gone, rest := if over then g.rest[1..] else g.rest)
  }

  /** The least that records take on a page. */
  function Weight(ms: seq<Mut>): nat {
    if ms == [] then 0 else Weight(ms[..|ms| - 1]) + if ms[|ms| - 1].Put? then PUT_SIZE else DEL_SIZE
  }

  /** How the records on a device lie in pages. */
  predicate Paged(pages: seq<seq<Mut>>, recs: seq<Mut>) {
    Flat(pages) == recs && forall p :: 0 <= p < |pages| ==> pages[p] != [] && Weight(pages[p]) <= PAGE_SIZE
  }

  ghost predicate Enabled(s: State, e: Step)
    requires s.logs != [] && LogsOk(s.logs)
  {
    match e
    case Issue(plan) => s.phase.Running? && PlanFor(s, plan)
    case PublishPart(v, p, _, full) =>
      && s.phase.Running? && (v, p) in s.pending && v in s.truth && p < |s.truth[v].at| == |s.truth[v].lens|
      && (s.logs[Home(s, s.truth[v].key)].closed ==> full)
    case DropLeaf(k, full) =>
      && (s.phase.Running? || s.phase.Reopened?) && k in s.index
      && var d := DelDevice(s.index[k]);
      && d < |s.logs| && (s.logs[d].closed ==> full)
    case Flush(d) =>
      && (s.phase.Running? || (s.phase.Resetting? && !s.phase.again))
      && d < |s.logs| && !s.logs[d].blank && s.logs[d].left < |s.logs[d].recs|
    case Turn(d) =>
      && d < |s.logs| && !s.logs[d].blank && s.logs[d].left < |s.logs[d].recs|
      && (s.phase.Running? || (s.phase.Resetting? && !s.phase.again)
          || (s.phase.Reopened? && |s.logs[d].recs| - s.logs[d].left == PER_PAGE))
    case Number(c) =>
      s.phase.Reopened? && Bounded(s.index, c) && forall d :: 0 <= d < |s.logs| ==> VersBelow(All(s.logs[d]), c)
    case Rename => s.phase.Running? || s.phase.Reopened?
    case BlankFirst(d) => s.phase.Resetting? && s.phase.next == d && d < |s.logs|
    case ResetDone(d) => s.phase.Resetting? && s.phase.next == d && d < |s.logs| && s.logs[d].blank
    case Crash(c, pages) =>
      && |pages| == |s.logs| && (forall d :: 0 <= d < |s.logs| ==> Paged(pages[d], OnDisk(s.logs[d])))
      && Bounded(Recover(s), c) && forall d :: 0 <= d < |s.logs| ==> VersBelow(OnDisk(s.logs[d]), c)
  }

  ghost predicate Bounded(idx: Index, c: nat) {
    forall k :: k in idx ==> idx[k].ver <= c
  }

  ghost predicate VersBelow(ms: seq<Mut>, c: nat) {
    forall m :: m in ms && m.Put? ==> m.ver <= c
  }

  function PartsOf(v: nat, plan: Plan): set<(nat, nat)> {
    set p | p in Range(|plan.at|) :: (v, p)
  }

  function Apply(s: State, e: Step): State
    requires s.logs != [] && LogsOk(s.logs) && Enabled(s, e)
  {
    match e
    case Issue(plan) =>
      var v := s.counter + 1;
      s.(counter := v, truth := s.truth[v := plan], pending := s.pending + PartsOf(v, plan))
    case PublishPart(v, p, ts, full) =>
      var plan := s.truth[v];
      var k, w := plan.key, WriteOf(v, plan, p, ts);
      var s1 := s.(pending := s.pending - {(v, p)});
      if Stale(Get(s.index, k), w) then s1
      else Append(s1.(index := Set(s.index, k, Published(Get(s.index, k), w))), Home(s, k), RecordOf(v, plan, p), full)
    case DropLeaf(k, full) => Append(s.(index := s.index - {k}), DelDevice(s.index[k]), Del(k), full)
    case Flush(d) => s.(logs := s.logs[d := Written(s.logs[d])])
    case Turn(d) => s.(logs := s.logs[d := Written(s.logs[d]).(left := |s.logs[d].recs|)])
    case Number(c) => s.(counter := c)
    case Rename => s.(ckpt := s.index, phase := Resetting(0, s.phase.Reopened?))
    case BlankFirst(d) => s.(logs := s.logs[d := s.logs[d].(blank := true)])
    case ResetDone(d) =>
      var s1 := s.(logs := s.logs[d := EMPTY_LOG]);
      if d + 1 < |s.logs| then s1.(phase := s.phase.(next := d + 1))
      else s1.(phase := Running, base := s.index)
    case Crash(c, pages) =>
      s.(index := Recover(s), base := Recover(s), pending := {}, counter := c, phase := Reopened,
         logs := seq(|s.logs|, d requires 0 <= d < |s.logs| => EMPTY_LOG.(rest := pages[d])))
  }

  // ----- Invariant -----

  /** The journal of a key, and what a crash leaves on its device. */
  function LogOf(s: State, k: Key): Log
    requires s.logs != []
  {
    s.logs[Home(s, k)]
  }

  function Disk(s: State, k: Key): seq<Mut>
    requires s.logs != [] && LogsOk(s.logs)
  {
    OnDisk(LogOf(s, k))
  }

  /** The records behind the durable ones. */
  function Unflushed(s: State, k: Key): seq<Mut>
    requires s.logs != [] && LogsOk(s.logs)
  {
    LogOf(s, k).recs[LogOf(s, k).durable..]
  }

  /** A key the opening recovered and dropped again. */
  predicate Dropped(s: State, k: Key) {
    k in s.base && k !in s.index
  }

  function Base(s: State, k: Key): Held {
    Abs(Get(s.base, k))
  }

  /** Every leaf is one of the put of its version. */
  ghost predicate IndexOk(s: State, idx: Index) {
    forall k :: Sound(s.truth, k, Get(idx, k))
  }

  /** Versions in use were handed out, and of a version of which parts are still to come the others were published. */
  ghost predicate VersKnown(s: State, idx: Index) {
    forall k :: k in idx ==> KnownLeaf(s, idx[k])
  }

  ghost predicate KnownLeaf(s: State, l: Slotted) {
    l.ver <= s.counter && forall p :: (l.ver, p) in s.pending ==> p !in Filled(l) && Filled(l) != {}
  }

  ghost predicate RecordOk(s: State, d: nat, m: Mut)
    requires s.logs != []
  {
    && Home(s, m.key) == d && Fits(s.truth, m)
    && (m.Put? ==> m.ver <= s.counter && (m.ver, PartIdx(m)) !in s.pending)
  }

  ghost predicate RecordsOk(s: State)
    requires s.logs != []
  {
    && (forall d, m :: 0 <= d < |s.logs| && m in All(s.logs[d]) ==> RecordOk(s, d, m))
    && forall d :: 0 <= d < |s.logs| ==> Once(All(s.logs[d]))
  }

  ghost predicate TruthOk(s: State)
    requires s.logs != []
  {
    && (forall v :: v in s.truth ==> PlanFor(s, s.truth[v]))
    && forall x :: x in s.pending ==> x.0 <= s.counter && x.0 in s.truth && x.1 < |s.truth[x.0].at|
  }

  /** The journal of the key tells its history since `base`, all of it unless the journal ran full. */
  ghost predicate KeyOk(s: State, k: Key)
    requires s.logs != []
  {
    var g := LogOf(s, k);
    && NotRecorded(Base(s, k), g.recs) && Rising(Base(s, k), g.recs, k)
    && (!g.closed ==> Abs(Get(s.index, k)) == Act(Base(s, k), Pub(g.recs, k)))
  }

  /** While an opening is not completed a key is as it was recovered, or dropped since. */
  ghost predicate OpeningOk(s: State, k: Key)
    requires s.logs != []
  {
    var g := LogOf(s, k);
    && Act(Base(s, k), Eff(Old(g), k)) == Base(s, k)
    && (k in s.index ==> k in s.base && s.index[k] == s.base[k])
    && forall m :: m in g.recs && m.key == k ==> m.Del? && Dropped(s, k)
  }

  /** Before the rename it was recovered from the checkpoint that is still there. */
  ghost predicate FoundOk(s: State, k: Key)
    requires s.logs != []
  {
    Base(s, k) == Act(Abs(Get(s.ckpt, k)), Eff(Old(LogOf(s, k)), k))
  }

  /** No record from before an opening. */
  predicate NothingOld(g: Log) {
    g.gone == [] && g.rest == []
  }

  /** Old pages are overwritten only by new records. */
  predicate Overwrites(g: Log) {
    g.durable == 0 ==> g.gone == []
  }

  ghost predicate PhaseOk(s: State)
    requires s.logs != []
  {
    match s.phase
    case Running =>
      && s.ckpt == s.base && VersKnown(s, s.base)
      && (forall d :: 0 <= d < |s.logs| ==> !s.logs[d].blank && NothingOld(s.logs[d]))
      && forall k :: KeyOk(s, k)
    case Reopened =>
      && s.pending == {}
      && (forall d :: 0 <= d < |s.logs| ==> !s.logs[d].blank && Overwrites(s.logs[d]))
      && forall k :: OpeningOk(s, k) && FoundOk(s, k)
    case Resetting(n, again) =>
      && n < |s.logs| && s.ckpt == s.index && (!again ==> VersKnown(s, s.base))
      && (forall d :: 0 <= d < |s.logs| && s.logs[d].blank ==> d == n)
      && (forall d :: 0 <= d < n ==> s.logs[d] == EMPTY_LOG)
      && (!again ==> forall d :: 0 <= d < |s.logs| ==> NothingOld(s.logs[d]))
      && (again ==> forall d :: 0 <= d < |s.logs| ==> Overwrites(s.logs[d]))
      && forall k :: Home(s, k) >= n ==> if again then OpeningOk(s, k) else KeyOk(s, k)
  }

  ghost predicate Inv(s: State) {
    && s.logs != [] && |s.logs| < INVALID_DEV && LogsOk(s.logs)
    && TruthOk(s) && RecordsOk(s)
    && IndexOk(s, s.index) && IndexOk(s, s.base) && IndexOk(s, s.ckpt)
    && VersKnown(s, s.index)
    && PhaseOk(s)
  }

  // ----- Recovery of one key -----

  lemma OnceSub(a: seq<Mut>, b: seq<Mut>, c: seq<Mut>, d: seq<Mut>)
    requires Once((a + b) + (c + d))
    ensures Once(a + d)
  {
    var all, sub := (a + b) + (c + d), a + d;
    assert forall i :: 0 <= i < |a| ==> all[i] == sub[i];
    assert forall i :: |a| <= i < |sub| ==> all[i + |b| + |c|] == sub[i];
    forall i, j | 0 <= i < j < |sub| && sub[i].Put? && sub[j].Put?
      ensures sub[i].ver != sub[j].ver || PartIdx(sub[i]) != PartIdx(sub[j])
    {
      var x, y := if i < |a| then i else i + |b| + |c|, if j < |a| then j else j + |b| + |c|;
      assert all[x] == sub[i] && all[y] == sub[j];
    }
  }

  lemma DiskOnce(g: Log)
    requires LogOk(g) && Once(All(g))
    ensures Once(OnDisk(g)) && forall m :: m in OnDisk(g) ==> m in All(g)
  {
    assert g.recs == g.recs[..g.durable] + g.recs[g.durable..];
    OnceSub(g.recs[..g.durable], g.recs[g.durable..], g.gone, Flat(g.rest));
  }

  /** What is on the devices in all: records of puts, none twice; only the home journal tells of a key. */
  lemma {:induction false} DisksOk(s: State, n: nat)
    requires s.logs != [] && LogsOk(s.logs) && RecordsOk(s) && TruthOk(s) && n <= |s.logs|
    ensures LogsOk(s.logs[..n]) && AllFit(s.truth, AllOnDisk(s.logs[..n])) && Once(AllOnDisk(s.logs[..n]))
    ensures forall m :: m in AllOnDisk(s.logs[..n]) ==> Home(s, m.key) < n
  {
    if n > 0 {
      hide Fits, Once, PlanFor;
      DisksOk(s, n - 1);
      var a, g := AllOnDisk(s.logs[..n - 1]), s.logs[n - 1];
      assert s.logs[..n][..n - 1] == s.logs[..n - 1];
      var b := OnDisk(g);
      DiskOnce(g);
      forall m | m in b
        ensures Fits(s.truth, m) && Home(s, m.key) == n - 1
      {
        assert RecordOk(s, n - 1, m);
      }
      AllFitParts(s.truth, a, b);
      OnceBoth(s, a, b, n);
    }
  }

  /** With several devices the records of a key are plain and on its own. */
  lemma {:induction false} DisksEffect(s: State, n: nat, k: Key)
    requires s.logs != [] && LogsOk(s.logs) && RecordsOk(s) && TruthOk(s) && n <= |s.logs| && |s.logs| > 1
    ensures LogsOk(s.logs[..n])
    ensures Eff(AllOnDisk(s.logs[..n]), k) == if Home(s, k) < n then Eff(Disk(s, k), k) else NOTHING
  {
    if n > 0 {
      hide Eff, Fits, Once, PlanFor;
      DisksEffect(s, n - 1, k);
      var a, g := AllOnDisk(s.logs[..n - 1]), s.logs[n - 1];
      assert s.logs[..n][..n - 1] == s.logs[..n - 1];
      var b := OnDisk(g);
      DiskOnce(g);
      forall m | m in b
        ensures Home(s, m.key) == n - 1 && (m.Put? ==> m.cnt <= 1)
      {
        assert RecordOk(s, n - 1, m);
        if m.Put? {
          PlainRecord(s, m);
        }
      }
      EffAppend(a, b, k);
      ThenLaws(Eff(a, k), Eff(b, k), NOTHING);
      ThenLaws(Eff(b, k), NOTHING, NOTHING);
      if Home(s, k) != n - 1 {
        ForeignRecords(b, k);
      }
    }
  }

  lemma PlainRecord(s: State, m: Mut)
    requires s.logs != [] && |s.logs| > 1 && TruthOk(s) && Fits(s.truth, m) && m.Put?
    ensures m.cnt <= 1 && !m.striped
  {
    assert PlanFor(s, s.truth[m.ver]);
  }

  /** Records of different journals are of different keys, so of different versions. */
  lemma OnceBoth(s: State, a: seq<Mut>, b: seq<Mut>, n: nat)
    requires s.logs != [] && 0 < n && Once(a) && Once(b) && AllFit(s.truth, a + b)
    requires (forall m :: m in a ==> Home(s, m.key) < n - 1) && forall m :: m in b ==> Home(s, m.key) == n - 1
    ensures Once(a + b)
  {
    var all := a + b;
    forall i, j | 0 <= i < j < |all| && all[i].Put? && all[j].Put?
      ensures all[i].ver != all[j].ver || PartIdx(all[i]) != PartIdx(all[j])
    {
      assert Fits(s.truth, all[i]) && Fits(s.truth, all[j]);
      if i < |a| && |a| <= j {
        assert all[i] == a[i] && all[j] == b[j - |a|];
        assert a[i] in a && b[j - |a|] in b;
      }
    }
  }

  /** Recovery of one key: the checkpointed leaf, and the effect of what its journal has on the device. */
  lemma RecoverKey(s: State, k: Key)
    requires s.logs != [] && LogsOk(s.logs) && RecordsOk(s) && TruthOk(s) && IndexOk(s, s.ckpt)
    ensures Sound(s.truth, k, Get(Recover(s), k))
    ensures Abs(Get(Recover(s), k)) == Act(Abs(Get(s.ckpt, k)), Eff(Disk(s, k), k))
    ensures AllFit(s.truth, Disk(s, k)) && Once(Disk(s, k))
  {
    hide Eff, ReplayAll, Abs, Sound, Once, Fits, Act;
    var n := |s.logs|;
    assert s.logs[..n] == s.logs;
    DisksOk(s, n);
    if n > 1 {
      DisksEffect(s, n, k);
    }
    ReplayRefines(s.truth, s.ckpt, AllOnDisk(s.logs), k);
    DiskFits(s, k);
    if n == 1 {
      assert AllOnDisk(s.logs) == Disk(s, k) by {
        assert s.logs[..0] == [] && AllOnDisk([]) == [];
        assert AllOnDisk(s.logs) == [] + OnDisk(s.logs[0]);
      }
    }
  }

  lemma DiskFits(s: State, k: Key)
    requires s.logs != [] && LogsOk(s.logs) && RecordsOk(s)
    ensures AllFit(s.truth, Disk(s, k)) && Once(Disk(s, k))
  {
    hide Fits, Once;
    DiskOnce(LogOf(s, k));
    forall m | m in Disk(s, k)
      ensures Fits(s.truth, m)
    {
      assert m in All(LogOf(s, k));
      assert RecordOk(s, Home(s, k), m);
    }
  }

  // ----- Every step keeps the invariant -----

  /** Records stay in order when none is added, the counter covers them and pending parts go. */
  lemma RecordsKept(s: State, s': State)
    requires s.logs != [] && RecordsOk(s) && |s'.logs| == |s.logs| && s'.mix == s.mix && s'.truth == s.truth
    requires forall d :: 0 <= d < |s.logs| ==> Once(All(s'.logs[d])) && forall m :: m in All(s'.logs[d]) ==> m in All(s.logs[d])
    requires forall d, m :: 0 <= d < |s.logs| && m in All(s'.logs[d]) && m.Put? ==> m.ver <= s'.counter && (m.ver, PartIdx(m)) !in s'.pending
    ensures RecordsOk(s')
  {
    forall d, m | 0 <= d < |s'.logs| && m in All(s'.logs[d])
      ensures RecordOk(s', d, m)
    {
      assert RecordOk(s, d, m);
    }
  }

  lemma RecordsVers(s: State)
    requires s.logs != [] && RecordsOk(s)
    ensures forall d, m :: 0 <= d < |s.logs| && m in All(s.logs[d]) && m.Put? ==> m.ver <= s.counter && (m.ver, PartIdx(m)) !in s.pending
  {
    forall d, m | 0 <= d < |s.logs| && m in All(s.logs[d]) && m.Put?
      ensures m.ver <= s.counter && (m.ver, PartIdx(m)) !in s.pending
    {
      assert RecordOk(s, d, m);
    }
  }

  /** What the invariant says of leaves and keys does not depend on the put of a version that nothing refers to. */
  lemma IssueInv(s: State, plan: Plan)
    requires Inv(s) && Enabled(s, Issue(plan))
    ensures Inv(Apply(s, Issue(plan)))
  {
    hide Rising, Pub, NotRecorded, Sound, Once, Fits, PlanFor, Filled;
    var s' := Apply(s, Issue(plan));
    forall x | x in s'.pending
      ensures x.0 <= s'.counter && x.0 in s'.truth && x.1 < |s'.truth[x.0].at|
    {}
    forall v | v in s'.truth
      ensures PlanFor(s', s'.truth[v])
    {
      SamePlanFor(s, s', s'.truth[v]);
    }
    IssueRecords(s, plan);
    IssueIndex(s, plan, s.index);
    IssueIndex(s, plan, s.base);
    hide TruthOk, RecordsOk, IndexOk, VersKnown;
    forall k
      ensures KeyOk(s', k)
    {
      assert KeyOk(s, k);
    }
  }

  lemma SamePlanFor(s: State, s': State, plan: Plan)
    requires s.logs != [] && |s'.logs| == |s.logs| && s'.mix == s.mix
    ensures PlanFor(s, plan) <==> PlanFor(s', plan)
  {}

  lemma IssueRecords(s: State, plan: Plan)
    requires s.logs != [] && LogsOk(s.logs) && RecordsOk(s) && Enabled(s, Issue(plan))
    ensures RecordsOk(Apply(s, Issue(plan)))
  {
    hide Once;
    var s' := Apply(s, Issue(plan));
    forall d, m | 0 <= d < |s'.logs| && m in All(s'.logs[d])
      ensures RecordOk(s', d, m)
    {
      assert RecordOk(s, d, m);
    }
  }

  lemma IssueIndex(s: State, plan: Plan, idx: Index)
    requires s.logs != [] && LogsOk(s.logs) && Enabled(s, Issue(plan)) && IndexOk(s, idx) && VersKnown(s, idx)
    ensures IndexOk(Apply(s, Issue(plan)), idx) && VersKnown(Apply(s, Issue(plan)), idx)
  {
    hide Filled, Built, PlanFor;
    var s' := Apply(s, Issue(plan));
    forall k | k in idx
      ensures Sound(s'.truth, k, Get(idx, k)) && KnownLeaf(s', idx[k])
    {
      assert Sound(s.truth, k, Get(idx, k)) && KnownLeaf(s, idx[k]);
    }
    forall k | k !in idx
      ensures Sound(s'.truth, k, Get(idx, k))
    {}
  }

  /** A record behind the new ones: in order, if it is and its part was not recorded before. */
  lemma AppendRecords(s: State, d: nat, m: Mut, full: bool)
    requires s.logs != [] && d < |s.logs| && RecordsOk(s) && RecordOk(s, d, m)
    requires m.Put? ==> forall x :: x in All(s.logs[d]) && x.Put? ==> x.ver != m.ver || PartIdx(x) != PartIdx(m)
    ensures Append(s, d, m, full).logs != [] && RecordsOk(Append(s, d, m, full))
  {
    hide Fits;
    var s' := Append(s, d, m, full);
    forall j, x | 0 <= j < |s'.logs| && x in All(s'.logs[j])
      ensures RecordOk(s', j, x)
    {
      assert x == m || x in All(s.logs[j]);
      assert x in All(s.logs[j]) ==> RecordOk(s, j, x);
    }
    forall j | 0 <= j < |s'.logs|
      ensures Once(All(s'.logs[j]))
    {
      if j == d && !full {
        OnceInsert(s.logs[d].recs, m, Old(s.logs[d]));
      } else {
        assert All(s'.logs[j]) == All(s.logs[j]);
      }
    }
  }

  lemma OnceInsert(a: seq<Mut>, m: Mut, b: seq<Mut>)
    requires Once(a + b) && (m.Put? ==> forall x :: x in a + b && x.Put? ==> x.ver != m.ver || PartIdx(x) != PartIdx(m))
    ensures Once((a + [m]) + b)
  {
    var all, was := (a + [m]) + b, a + b;
    assert forall i :: 0 <= i < |a| ==> all[i] == was[i];
    assert forall i :: |a| < i < |all| ==> all[i] == was[i - 1];
    forall i, j | 0 <= i < j < |all| && all[i].Put? && all[j].Put?
      ensures all[i].ver != all[j].ver || PartIdx(all[i]) != PartIdx(all[j])
    {
      if i != |a| && j != |a| {
        var x, y := if i < |a| then i else i - 1, if j < |a| then j else j - 1;
        assert was[x] == all[i] && was[y] == all[j];
      } else {
        var x := if i == |a| then all[j] else all[i];
        assert x in was;
      }
    }
  }

  /** A record of another key does not matter for a key. */
  lemma OtherRecord(s: State, b: Held, recs: seq<Mut>, m: Mut, k: Key)
    requires NotRecorded(b, recs) && Rising(b, recs, k) && m.key != k && HeldOk(s.truth, k, b) && Fits(s.truth, m)
    ensures NotRecorded(b, recs + [m]) && Rising(b, recs + [m], k) && Pub(recs + [m], k) == Pub(recs, k)
  {
    assert (recs + [m])[..|recs|] == recs;
    PubNext(recs, m, k);
    ThenLaws(Pub(recs, k), NOTHING, NOTHING);
    if b.Some? {
      PartsNext(recs, m, b.value.ver);
    }
  }

  /** A record of the key that is not older than what the key holds, of a part that it did not start with. */
  lemma OwnRecord(b: Held, recs: seq<Mut>, m: Mut, k: Key)
    requires NotRecorded(b, recs) && Rising(b, recs, k) && m.key == k
    requires m.Put? ==>
               && (b.Some? && b.value.ver == m.ver ==> PartIdx(m) !in b.value.parts)
               && var y := Act(b, Pub(recs, k)); y.None? || y.value.ver <= m.ver
    ensures NotRecorded(b, recs + [m]) && Rising(b, recs + [m], k)
    ensures Act(b, Pub(recs + [m], k)) == Act(Act(b, Pub(recs, k)), PubOne(m, k))
  {
    assert (recs + [m])[..|recs|] == recs;
    PubNext(recs, m, k);
    ActThen(b, Pub(recs, k), PubOne(m, k));
    if b.Some? {
      PartsNext(recs, m, b.value.ver);
    }
  }

  /** The index after a part is published. */
  /** What publishing a part changes but the journal. */
  lemma PublishSets(s: State, e: Step)
    requires s.logs != [] && LogsOk(s.logs) && Enabled(s, e) && e.PublishPart? && PlanOk(s.truth[e.ver])
    ensures var s', k := Apply(s, e), s.truth[e.ver].key;
            var x, w := Get(s.index, k), WriteOf(e.ver, s.truth[e.ver], e.part, e.ts);
            && s'.truth == s.truth && s'.base == s.base && s'.counter == s.counter && s'.pending == s.pending - {(e.ver, e.part)}
            && Get(s'.index, k) == (if Stale(x, w) then x else Published(x, w))
            && forall j :: j != k ==> Get(s'.index, j) == Get(s.index, j) && (j in s'.index <==> j in s.index)
  {
    hide RecordOf, LogOk, WriteOf, Stale, Published;
    var v, plan := e.ver, s.truth[e.ver];
    var k, w := plan.key, WriteOf(v, plan, e.part, e.ts);
    var s1 := s.(pending := s.pending - {(v, e.part)});
    var idx := Set(s.index, k, Published(Get(s.index, k), w));
    assert Apply(s, e) == if Stale(Get(s.index, k), w) then s1 else Append(s1.(index := idx), Home(s, k), RecordOf(v, plan, e.part), e.full);
    hide Apply, Enabled;
  }

  lemma PublishIndex(s: State, e: Step)
    requires Inv(s) && Enabled(s, e) && e.PublishPart?
    ensures var s' := Apply(s, e);
            var k := s.truth[e.ver].key;
            && IndexOk(s', s'.index) && VersKnown(s', s'.index) && VersKnown(s', s.base)
            && (!Stale(Get(s.index, k), WriteOf(e.ver, s.truth[e.ver], e.part, e.ts)) ==>
                  Abs(Get(s'.index, k)) == Act(Abs(Get(s.index, k)), Add(e.ver, {e.part})))
            && forall j :: j != k ==> Get(s'.index, j) == Get(s.index, j)
  {
    var s', v := Apply(s, e), e.ver;
    var k := s.truth[v].key;
    var x, w := Get(s.index, k), WriteOf(v, s.truth[v], e.part, e.ts);
    assert Sound(s.truth, k, x) && PlanFor(s, s.truth[v]);
    assert x.Some? ==> KnownLeaf(s, x.value);
    hide PhaseOk, RecordsOk, Publish, Built, PlanFor, Fits;
    PublishJoins(s.truth, k, x, v, e.part, e.ts);
    PublishSets(s, e);
    var y := Get(s'.index, k);
    hide Apply, Enabled, Filled, Stale;
    if y.Some? {
      KnownNext(s, e, x, y.value);
    }
    forall j | j in s'.index
      ensures KnownLeaf(s', s'.index[j])
    {
      if j != k {
        assert s'.index[j] == s.index[j] && KnownLeaf(s, s.index[j]);
      }
    }
    forall j
      ensures Sound(s'.truth, j, Get(s'.index, j))
    {
      if j != k {
        assert Get(s'.index, j) == Get(s.index, j) && Sound(s.truth, j, Get(s.index, j));
      }
    }
    forall j | j in s.base
      ensures KnownLeaf(s', s.base[j])
    {
      assert KnownLeaf(s, s.base[j]) by {
        assert VersKnown(s, s.base) by {
          BaseKnown(s);
        }
      }
    }
  }

  lemma BaseKnown(s: State)
    requires Inv(s) && s.phase.Running?
    ensures VersKnown(s, s.base) && s.ckpt == s.base
  {}

  lemma KnownNext(s: State, e: Step, x: Option<Slotted>, l: Slotted)
    requires s.logs != [] && LogsOk(s.logs) && Enabled(s, e) && e.PublishPart? && TruthOk(s)
    requires x.Some? ==> KnownLeaf(s, x.value)
    requires x == Some(l) || Abs(Some(l)) == Join(Abs(x), Some(Content(e.ver, {e.part})))
    ensures KnownLeaf(Apply(s, e), l)
  {
    hide Filled, PlanFor;
    var s' := Apply(s, e);
    assert s'.counter == s.counter && s'.pending == s.pending - {(e.ver, e.part)};
  }

  lemma PublishInv(s: State, e: Step)
    requires Inv(s) && Enabled(s, e) && e.PublishPart?
    ensures Inv(Apply(s, e))
  {
    hide Rising, Pub, NotRecorded, Once, Fits, Filled, Built, KnownLeaf, Sound, PlanFor;
    var s', plan := Apply(s, e), s.truth[e.ver];
    PublishIndex(s, e);
    PublishRecords(s, e);
    PublishKeys(s, e);
    SameTruth(s, s');
    SameIndex(s, s', s.base);
    hide RecordsOk, IndexOk, VersKnown, KeyOk;
    PublishLogs(s, e);
  }

  lemma PublishLogs(s: State, e: Step)
    requires s.logs != [] && LogsOk(s.logs) && Enabled(s, e) && e.PublishPart?
    ensures var s' := Apply(s, e);
            && |s'.logs| == |s.logs| && LogsOk(s'.logs) && s' == s.(index := s'.index, pending := s'.pending, logs := s'.logs)
            && forall d :: 0 <= d < |s.logs| ==> s'.logs[d].blank == s.logs[d].blank && (NothingOld(s.logs[d]) ==> NothingOld(s'.logs[d]))
  {
    hide Publish, WriteOf, RecordOf;
  }

  lemma SameTruth(s: State, s': State)
    requires s.logs != [] && TruthOk(s) && |s'.logs| == |s.logs| && s'.mix == s.mix && s'.truth == s.truth
    requires s'.counter >= s.counter || s'.pending == {}
    requires s'.pending <= s.pending
    ensures TruthOk(s')
  {
    hide PlanFor;
    forall v | v in s'.truth
      ensures PlanFor(s', s'.truth[v])
    {
      SamePlanFor(s, s', s'.truth[v]);
    }
  }

  lemma SameIndex(s: State, s': State, idx: Index)
    requires s'.truth == s.truth
    ensures IndexOk(s, idx) ==> IndexOk(s', idx)
    ensures VersKnown(s, idx) && s'.counter == s.counter && s'.pending == s.pending ==> VersKnown(s', idx)
  {
    hide Sound;
    if VersKnown(s, idx) && s'.counter == s.counter && s'.pending == s.pending {
      forall k | k in idx
        ensures KnownLeaf(s', idx[k])
      {
        assert KnownLeaf(s, idx[k]);
      }
    }
  }

  lemma PublishRecords(s: State, e: Step)
    requires s.logs != [] && LogsOk(s.logs) && RecordsOk(s) && TruthOk(s) && Enabled(s, e) && e.PublishPart?
    ensures RecordsOk(Apply(s, e))
  {
    var s', plan := Apply(s, e), s.truth[e.ver];
    var k, w, m := plan.key, WriteOf(e.ver, plan, e.part, e.ts), RecordOf(e.ver, plan, e.part);
    var s1 := s.(pending := s.pending - {(e.ver, e.part)});
    assert PlanFor(s, plan);
    RecordsVers(s);
    RecordsKept(s, s1);
    if !Stale(Get(s.index, k), w) {
      var s2 := s1.(index := s'.index);
      RecordsKept(s1, s2);
      assert RecordOk(s2, Home(s, k), m);
      AppendRecords(s2, Home(s, k), m, e.full);
    }
  }

  lemma PublishKeys(s: State, e: Step)
    requires Inv(s) && Enabled(s, e) && e.PublishPart?
    ensures forall k :: KeyOk(Apply(s, e), k)
  {
    hide Rising, Pub, NotRecorded, Once, Fits, Filled, Built, PlanFor;
    var s' := Apply(s, e);
    PublishIndex(s, e);
    BaseKnown(s);
    forall k
      ensures KeyOk(s', k)
    {
      assert KeyOk(s, k) && Sound(s.truth, k, Get(s.base, k));
      PublishKey(s, e, k);
    }
  }

  lemma PublishKey(s: State, e: Step, k: Key)
    requires s.logs != [] && LogsOk(s.logs) && TruthOk(s) && Enabled(s, e) && e.PublishPart? && KeyOk(s, k)
    requires Sound(s.truth, k, Get(s.base, k)) && VersKnown(s, s.base)
    requires var s' := Apply(s, e);
             var j := s.truth[e.ver].key;
             && (!Stale(Get(s.index, j), WriteOf(e.ver, s.truth[e.ver], e.part, e.ts)) ==>
                   Abs(Get(s'.index, j)) == Act(Abs(Get(s.index, j)), Add(e.ver, {e.part})))
             && (k != j ==> Get(s'.index, k) == Get(s.index, k))
    ensures KeyOk(Apply(s, e), k)
  {
    hide Rising, Pub, NotRecorded, Filled, Built, Publish;
    var s', plan := Apply(s, e), s.truth[e.ver];
    var j, w, m := plan.key, WriteOf(e.ver, plan, e.part, e.ts), RecordOf(e.ver, plan, e.part);
    var g, b := LogOf(s, k), Base(s, k);
    assert PlanFor(s, plan);
    assert Base(s', k) == b;
    SoundShown(s.truth, k, Get(s.base, k), None);
    if !Stale(Get(s.index, j), w) && !e.full && Home(s, j) == Home(s, k) {
      assert LogOf(s', k) == g.(recs := g.recs + [m]) && !g.closed;
      if k == j {
        assert k in s.base ==> KnownLeaf(s, s.base[k]);
        OwnRecord(b, g.recs, m, k);
      } else {
        OtherRecord(s, b, g.recs, m, k);
      }
    } else {
      assert LogOf(s', k).recs == g.recs;
    }
  }

  /** The deletion of a leaf is recorded in the journal of its key. */
  lemma DeletedAtHome(s: State, k: Key)
    requires s.logs != [] && |s.logs| < INVALID_DEV && TruthOk(s) && IndexOk(s, s.index) && k in s.index
    ensures DelDevice(s.index[k]) == Home(s, k)
  {
    var l := s.index[k];
    assert Sound(s.truth, k, Get(s.index, k));
    var plan := s.truth[l.ver];
    assert PlanFor(s, plan);
    assert Untimed(l).addr[0] == Built(l.ver, plan, Filled(l)).addr[0];
    if !plan.striped && 0 !in Filled(l) {
      assert |plan.at| == 2 by {
        var p :| p in Filled(l);
        assert p < |plan.at|;
      }
    }
  }

  /** What dropping a leaf leaves of records, truth and leaves. */
  lemma DropParts(s: State, e: Step)
    requires Inv(s) && Enabled(s, e) && e.DropLeaf?
    ensures var s' := Apply(s, e);
            && DelDevice(s.index[e.key]) == Home(s, e.key)
            && TruthOk(s') && RecordsOk(s') && IndexOk(s', s'.index) && VersKnown(s', s'.index)
            && IndexOk(s', s.base) && IndexOk(s', s.ckpt) && (VersKnown(s, s.base) ==> VersKnown(s', s.base))
  {
    hide Once, Fits, Filled, Sound, PhaseOk, PlanFor;
    var s', s1 := Apply(s, e), s.(index := s.index - {e.key});
    DeletedAtHome(s, e.key);
    SameTruth(s, s');
    SameIndex(s, s', s.base);
    SameIndex(s, s', s.ckpt);
    RecordsVers(s);
    RecordsKept(s, s1);
    assert RecordOk(s1, Home(s, e.key), Del(e.key)) by {
      DelFits(s.truth, e.key);
    }
    AppendRecords(s1, Home(s, e.key), Del(e.key), e.full);
    hide RecordsOk;
    forall k
      ensures Sound(s'.truth, k, Get(s'.index, k))
      ensures k in s'.index ==> KnownLeaf(s', s'.index[k])
    {
      assert Sound(s.truth, k, Get(s.index, k));
      SoundNone(s.truth, k);
      if k in s'.index {
        assert s'.index[k] == s.index[k] && KnownLeaf(s, s.index[k]);
      }
    }
  }

  lemma DelFits(truth: Truth, k: Key)
    ensures Fits(truth, Del(k))
  {}

  lemma DropInv(s: State, e: Step)
    requires Inv(s) && Enabled(s, e) && e.DropLeaf? && s.phase.Running?
    ensures Inv(Apply(s, e))
  {
    DropParts(s, e);
    hide Rising, Pub, NotRecorded, RecordsOk, IndexOk, VersKnown, TruthOk;
    var s' := Apply(s, e);
    BaseKnown(s);
    forall k
      ensures KeyOk(s', k)
    {
      assert KeyOk(s, k);
      DropKey(s, e, k);
    }
  }

  lemma DropKey(s: State, e: Step, k: Key)
    requires s.logs != [] && LogsOk(s.logs) && IndexOk(s, s.base) && Enabled(s, e) && e.DropLeaf? && KeyOk(s, k)
    requires DelDevice(s.index[e.key]) == Home(s, e.key)
    ensures KeyOk(Apply(s, e), k)
  {
    hide Rising, Pub, NotRecorded, Filled, Built;
    var s', m := Apply(s, e), Del(e.key);
    var g, b := LogOf(s, k), Base(s, k);
    assert Sound(s.truth, k, Get(s.base, k));
    SoundShown(s.truth, k, Get(s.base, k), None);
    DelFits(s.truth, e.key);
    if !e.full && Home(s, e.key) == Home(s, k) {
      assert LogOf(s', k) == g.(recs := g.recs + [m]);
      if k == e.key {
        OwnRecord(b, g.recs, m, k);
      } else {
        OtherRecord(s, b, g.recs, m, k);
      }
    } else {
      assert LogOf(s', k).recs == g.recs;
    }
  }

  /** A leaf dropped while an opening is completed. */
  lemma OpeningDropInv(s: State, e: Step)
    requires Inv(s) && Enabled(s, e) && e.DropLeaf? && s.phase.Reopened?
    ensures Inv(Apply(s, e))
  {
    DropParts(s, e);
    hide Eff, RecordsOk, IndexOk, VersKnown, TruthOk, Abs, OpeningOk, FoundOk;
    forall k
      ensures OpeningOk(Apply(s, e), k) && FoundOk(Apply(s, e), k)
    {
      assert OpeningOk(s, k) && FoundOk(s, k) && OpeningOk(s, e.key);
      OpeningDropKey(s, e, k);
    }
  }

  lemma OpeningDropKey(s: State, e: Step, k: Key)
    requires s.logs != [] && LogsOk(s.logs) && Enabled(s, e) && e.DropLeaf? && DelDevice(s.index[e.key]) == Home(s, e.key)
    requires OpeningOk(s, k) && FoundOk(s, k) && OpeningOk(s, e.key)
    ensures Apply(s, e).logs != [] && OpeningOk(Apply(s, e), k) && FoundOk(Apply(s, e), k)
  {
    hide Eff, Abs, Flat;
    var s' := Apply(s, e);
    assert Old(LogOf(s', k)) == Old(LogOf(s, k)) && Base(s', k) == Base(s, k);
  }

  /** Writing a page moves records from the old pages to those overwritten, no more. */
  lemma WrittenPast(g: Log)
    requires LogOk(g)
    ensures Old(Written(g)) == Old(g)
    ensures Written(g).recs == g.recs && Written(g).closed == g.closed && Written(g).blank == g.blank
    ensures Written(g).left == g.left && Written(g).durable == |g.recs|
    ensures NothingOld(g) ==> NothingOld(Written(g))
    ensures g.recs != [] ==> Overwrites(Written(g))
  {
    if g.durable == g.left && g.rest != [] {
      assert g.gone + (g.rest[0] + Flat(g.rest[1..])) == (g.gone + g.rest[0]) + Flat(g.rest[1..]);
    }
  }

  /** Two journals with the same records, old ones in the same order. */
  predicate SameRecords(g: Log, h: Log) {
    h.recs == g.recs && Old(h) == Old(g) && h.closed == g.closed
  }

  /** What a key's records say does not depend on which of them are on the device. */
  lemma SameFacts(s: State, s': State, k: Key)
    requires s.logs != [] && |s'.logs| == |s.logs| && s'.mix == s.mix && s'.index == s.index && s'.base == s.base
    requires SameRecords(LogOf(s, k), s'.logs[Home(s, k)])
    ensures KeyOk(s, k) ==> KeyOk(s', k)
    ensures OpeningOk(s, k) ==> OpeningOk(s', k)
    ensures FoundOk(s, k) && s'.ckpt == s.ckpt ==> FoundOk(s', k)
  {
    hide Rising, Pub, NotRecorded, Eff, Abs;
  }

  /** Steps that only move records, or leave the journals alone. */
  lemma SameParts(s: State, s': State)
    requires Inv(s) && |s'.logs| == |s.logs| && s'.mix == s.mix && s'.truth == s.truth
    requires s'.counter == s.counter && s'.pending == s.pending && s'.index == s.index && s'.base == s.base
    requires forall d :: 0 <= d < |s.logs| ==> SameRecords(s.logs[d], s'.logs[d])
    ensures TruthOk(s') && RecordsOk(s') && IndexOk(s', s.index) && IndexOk(s', s.base) && IndexOk(s', s.ckpt)
    ensures VersKnown(s', s.index) && (VersKnown(s, s.base) ==> VersKnown(s', s.base))
  {
    hide PhaseOk, Once, Fits, Sound, KnownLeaf, PlanFor;
    SameTruth(s, s');
    SameIndex(s, s', s.index);
    SameIndex(s, s', s.base);
    SameIndex(s, s', s.ckpt);
    RecordsVers(s);
    forall d | 0 <= d < |s.logs|
      ensures All(s'.logs[d]) == All(s.logs[d])
    {
      assert SameRecords(s.logs[d], s'.logs[d]);
    }
    RecordsKept(s, s');
  }

  /** Writing the page under the cursor, whether or not the cursor moves on. */
  lemma WriteInv(s: State, e: Step)
    requires Inv(s) && Enabled(s, e) && (e.Flush? || e.Turn?)
    ensures Inv(Apply(s, e))
  {
    hide OpeningOk, FoundOk, KeyOk, Flat, Eff;
    var s' := Apply(s, e);
    WrittenPast(s.logs[e.d]);
    hide Written;
    assert forall d :: 0 <= d < |s.logs| ==> SameRecords(s.logs[d], s'.logs[d]);
    SameParts(s, s');
    hide SameRecords, TruthOk, RecordsOk, IndexOk, VersKnown;
    WritePhase(s, e);
  }

  lemma WritePhase(s: State, e: Step)
    requires Inv(s) && Enabled(s, e) && (e.Flush? || e.Turn?) && (VersKnown(s, s.base) ==> VersKnown(Apply(s, e), s.base))
    ensures PhaseOk(Apply(s, e))
  {
    hide OpeningOk, FoundOk, KeyOk, Flat, TruthOk, RecordsOk, IndexOk, VersKnown;
    var s' := Apply(s, e);
    WrittenPast(s.logs[e.d]);
    hide Written;
    assert s.logs[e.d].recs != [];
    assert s' == s.(logs := s'.logs) && s'.logs == s.logs[e.d := s'.logs[e.d]];
    var g, h := s.logs[e.d], s'.logs[e.d];
    assert h.blank == g.blank && Overwrites(h) && (NothingOld(g) ==> NothingOld(h));
    forall k
      ensures KeyOk(s, k) ==> KeyOk(s', k)
      ensures OpeningOk(s, k) ==> OpeningOk(s', k)
      ensures FoundOk(s, k) ==> FoundOk(s', k)
    {
      SameFacts(s, s', k);
    }
    hide Apply, Enabled;
  }

  /** Steps that leave the journals alone, or only blank one. */
  lemma QuietInv(s: State, e: Step)
    requires Inv(s) && Enabled(s, e) && (e.Rename? || e.BlankFirst?)
    ensures Inv(Apply(s, e))
  {
    hide PhaseOk, TruthOk, RecordsOk, IndexOk, VersKnown, Flat;
    var s' := Apply(s, e);
    assert forall d :: 0 <= d < |s.logs| ==> SameRecords(s.logs[d], s'.logs[d]);
    SameParts(s, s');
    QuietPhase(s, e);
    hide SameRecords;
  }

  lemma QuietPhase(s: State, e: Step)
    requires s.logs != [] && LogsOk(s.logs) && PhaseOk(s) && Enabled(s, e) && (e.Rename? || e.BlankFirst?)
    requires VersKnown(s, s.base) ==> VersKnown(Apply(s, e), s.base)
    ensures PhaseOk(Apply(s, e))
  {
    hide OpeningOk, FoundOk, KeyOk, Flat, VersKnown;
    var s' := Apply(s, e);
    assert forall d :: 0 <= d < |s.logs| ==> SameRecords(s.logs[d], s'.logs[d]);
    forall k
      ensures KeyOk(s, k) ==> KeyOk(s', k)
      ensures OpeningOk(s, k) ==> OpeningOk(s', k)
    {
      SameFacts(s, s', k);
    }
    hide SameRecords;
  }

  lemma NumberInv(s: State, c: nat)
    requires Inv(s) && Enabled(s, Number(c))
    ensures Inv(Apply(s, Number(c)))
  {
    hide OpeningOk, FoundOk, KeyOk, Old, Once, Fits, Sound, PlanFor;
    var s' := Apply(s, Number(c));
    SameTruth(s, s');
    SameIndex(s, s', s.index);
    SameIndex(s, s', s.base);
    SameIndex(s, s', s.ckpt);
    forall d, m | 0 <= d < |s'.logs| && m in All(s'.logs[d])
      ensures RecordOk(s', d, m)
    {
      assert RecordOk(s, d, m);
      assert VersBelow(All(s.logs[d]), c);
    }
    forall k
      ensures OpeningOk(s', k) && FoundOk(s', k)
    {
      assert SameRecords(LogOf(s, k), s'.logs[Home(s, k)]);
      SameFacts(s, s', k);
    }
  }

  lemma ResetInv(s: State, d: nat)
    requires Inv(s) && Enabled(s, ResetDone(d))
    ensures Inv(Apply(s, ResetDone(d)))
  {
    var s' := Apply(s, ResetDone(d));
    hide PhaseOk, TruthOk, RecordsOk, IndexOk, VersKnown;
    SameTruth(s, s');
    SameIndex(s, s', s.index);
    SameIndex(s, s', s.base);
    SameIndex(s, s', s.ckpt);
    ResetRecords(s, d);
    ResetPhase(s, d);
    hide Apply;
  }

  lemma ResetPhase(s: State, d: nat)
    requires s.logs != [] && LogsOk(s.logs) && PhaseOk(s) && Enabled(s, ResetDone(d)) && VersKnown(Apply(s, ResetDone(d)), s.index)
    requires VersKnown(s, s.base) ==> VersKnown(Apply(s, ResetDone(d)), s.base)
    ensures PhaseOk(Apply(s, ResetDone(d)))
  {
    hide VersKnown, OpeningOk, KeyOk;
    var s' := Apply(s, ResetDone(d));
    if s'.phase.Resetting? {
      forall k | Home(s', k) >= d + 1
        ensures if s'.phase.again then OpeningOk(s', k) else KeyOk(s', k)
      {
        assert SameRecords(LogOf(s, k), s'.logs[Home(s, k)]);
        SameFacts(s, s', k);
      }
    } else {
      forall k
        ensures KeyOk(s', k)
      {
        assert LogOf(s', k) == EMPTY_LOG && s'.base == s'.index;
        EmptyKey(s', k);
      }
    }
  }

  lemma EmptyKey(s: State, k: Key)
    requires s.logs != [] && LogOf(s, k).recs == [] && s.base == s.index
    ensures KeyOk(s, k)
  {
    JoinLaws(Base(s, k), None, None);
  }

  lemma ResetRecords(s: State, d: nat)
    requires s.logs != [] && LogsOk(s.logs) && RecordsOk(s) && Enabled(s, ResetDone(d))
    ensures RecordsOk(Apply(s, ResetDone(d)))
  {
    hide Fits;
    var s' := Apply(s, ResetDone(d));
    RecordsVers(s);
    assert All(s'.logs[d]) == [];
    forall j | 0 <= j < |s.logs|
      ensures Once(All(s'.logs[j])) && forall m :: m in All(s'.logs[j]) ==> m in All(s.logs[j])
    {
      assert j != d ==> s'.logs[j] == s.logs[j];
    }
    RecordsKept(s, s');
  }

  // ----- A crash and the reopening keep the invariant -----

  lemma CrashLog(s: State, e: Step, d: nat)
    requires s.logs != [] && LogsOk(s.logs) && Enabled(s, e) && e.Crash? && d < |s.logs|
    ensures |Apply(s, e).logs| == |s.logs| && Apply(s, e).logs[d] == EMPTY_LOG.(rest := e.pages[d])
    ensures All(Apply(s, e).logs[d]) == Old(Apply(s, e).logs[d]) == OnDisk(s.logs[d])
  {
    hide Flat, OnDisk, Recover;
    assert Paged(e.pages[d], OnDisk(s.logs[d]));
    var g := EMPTY_LOG.(rest := e.pages[d]);
    assert Old(g) == Flat(e.pages[d]) && All(g) == Old(g);
  }

  lemma CrashRecords(s: State, e: Step)
    requires s.logs != [] && LogsOk(s.logs) && RecordsOk(s) && Enabled(s, e) && e.Crash?
    ensures RecordsOk(Apply(s, e))
  {
    hide Once, Fits, All, Old, OnDisk, Recover;
    var s' := Apply(s, e);
    forall d | 0 <= d < |s'.logs|
      ensures Once(All(s'.logs[d])) && forall m :: m in All(s'.logs[d]) ==> RecordOk(s', d, m)
    {
      CrashLog(s, e, d);
      DiskOnce(s.logs[d]);
      forall m | m in All(s'.logs[d])
        ensures RecordOk(s', d, m)
      {
        assert RecordOk(s, d, m);
        assert VersBelow(OnDisk(s.logs[d]), e.counter);
      }
    }
  }

  lemma CrashInv(s: State, e: Step)
    requires Inv(s) && Enabled(s, e) && e.Crash?
    ensures Inv(Apply(s, e))
  {
    hide OpeningOk, FoundOk, KeyOk, RecordsOk, All, Old, OnDisk, Paged, Recover, Sound, Filled, PlanFor;
    var s' := Apply(s, e);
    CrashRecords(s, e);
    SameTruth(s, s');
    SameIndex(s, s', s.ckpt);
    forall d | 0 <= d < |s.logs|
      ensures s'.logs[d] == EMPTY_LOG.(rest := e.pages[d])
    {
      CrashLog(s, e, d);
    }
    forall k
      ensures Sound(s'.truth, k, Get(s'.index, k)) && OpeningOk(s', k) && FoundOk(s', k)
    {
      RecoverKey(s, k);
      CrashKey(s, e, k);
    }
  }

  lemma CrashKey(s: State, e: Step, k: Key)
    requires Inv(s) && Enabled(s, e) && e.Crash?
    ensures OpeningOk(Apply(s, e), k) && FoundOk(Apply(s, e), k)
  {
    hide Eff, Act, Abs;
    var s' := Apply(s, e);
    CrashLog(s, e, Home(s, k));
    assert s'.ckpt == s.ckpt && s'.base == s'.index == Recover(s) && Home(s', k) == Home(s, k);
    assert LogOf(s', k).recs == [];
    hide Apply, Recover, Enabled;
    RecoverKey(s, k);
    assert Old(LogOf(s', k)) == Disk(s, k);
    ActTwice(Abs(Get(s.ckpt, k)), Eff(Disk(s, k), k));
  }

  lemma StepInv(s: State, e: Step)
    requires Inv(s) && Enabled(s, e)
    ensures Inv(Apply(s, e))
  {
    assert s.logs != [] && LogsOk(s.logs);
    hide Inv, Apply;
    match e
    case Issue(plan) => IssueInv(s, plan);
    case PublishPart(_, _, _, _) => PublishInv(s, e);
    case DropLeaf(_, _) =>
      if s.phase.Running? {
        DropInv(s, e);
      } else {
        OpeningDropInv(s, e);
      }
    case Flush(_) => WriteInv(s, e);
    case Turn(_) => WriteInv(s, e);
    case Number(c) => NumberInv(s, c);
    case ResetDone(d) => ResetInv(s, d);
    case Crash(_, _) => CrashInv(s, e);
    case _ => QuietInv(s, e);
  }

  // ----- What a crash leaves -----

  /** What recovery finds of a key. */
  function Found(s: State, k: Key): Option<Slotted>
    requires LogsOk(s.logs)
  {
    Bare(Get(Recover(s), k))
  }

  /** Recovery finds a key as the index has it exactly if it finds the same version and parts. */
  lemma FoundSame(s: State, k: Key, h: Held)
    requires Inv(s)
    ensures var r := Act(Abs(Get(s.ckpt, k)), Eff(Disk(s, k), k));
            && (Found(s, k) == Bare(Get(s.index, k)) <==> r == Abs(Get(s.index, k)))
            && (Found(s, k) == Bare(Get(s.base, k)) <==> r == Base(s, k))
            && Found(s, k) == Shown(s.truth, r)
            && (HeldOk(s.truth, k, h) ==> (Found(s, k) == Shown(s.truth, h) <==> r == h))
            && HeldOk(s.truth, k, Base(s, k)) && AllFit(s.truth, Disk(s, k)) && Once(Disk(s, k))
  {
    hide Eff, Act, Recover, PhaseOk, RecordsOk, TruthOk, Fits, Once;
    RecoverKey(s, k);
    assert Sound(s.truth, k, Get(s.index, k)) && Sound(s.truth, k, Get(s.base, k));
    hide Sound, Abs, Bare, Shown;
    SameBare(s.truth, k, Get(Recover(s), k), Get(s.index, k));
    SameBare(s.truth, k, Get(Recover(s), k), Get(s.base, k));
    SoundShown(s.truth, k, Get(s.base, k), None);
    SoundShown(s.truth, k, Get(Recover(s), k), None);
    if HeldOk(s.truth, k, h) {
      SoundShown(s.truth, k, Get(Recover(s), k), h);
    }
  }

  /** What the records that are on the device left when they were published. */
  function Prefix(s: State, k: Key): Held
    requires s.logs != [] && LogsOk(s.logs)
  {
    Act(Base(s, k), Pub(Disk(s, k), k))
  }

  lemma DiskPrefix(s: State, k: Key)
    requires s.logs != [] && LogsOk(s.logs) && NothingOld(LogOf(s, k)) && !LogOf(s, k).blank
    ensures LogOf(s, k).recs == Disk(s, k) + Unflushed(s, k)
  {}

  lemma KeyPrefix(s: State, k: Key)
    requires Inv(s) && (s.phase.Running? || (s.phase.Resetting? && !s.phase.again && !Cleared(s, k)))
    ensures LogOf(s, k).recs == Disk(s, k) + Unflushed(s, k)
    ensures NotRecorded(Base(s, k), Disk(s, k) + Unflushed(s, k)) && NotRecorded(Base(s, k), Disk(s, k))
    ensures Rising(Base(s, k), Disk(s, k) + Unflushed(s, k), k)
    ensures AllFit(s.truth, Disk(s, k) + Unflushed(s, k)) && Once(Disk(s, k) + Unflushed(s, k))
    ensures !LogOf(s, k).closed ==> Abs(Get(s.index, k)) == Act(Base(s, k), Pub(Disk(s, k) + Unflushed(s, k), k))
  {
    hide Rising, Pub, Abs, Fits;
    var g := LogOf(s, k);
    assert KeyOk(s, k);
    DiskPrefix(s, k);
    assert All(g) == g.recs;
    forall m | m in g.recs
      ensures Fits(s.truth, m)
    {
      assert RecordOk(s, Home(s, k), m);
    }
    if Base(s, k).Some? {
      PartsAppend(Disk(s, k), Unflushed(s, k), Base(s, k).value.ver);
    }
  }

  /** The home journal of the key no longer tells anything about it. */
  predicate Cleared(s: State, k: Key)
    requires s.logs != [] && s.phase.Resetting?
  {
    Home(s, k) < s.phase.next || LogOf(s, k).blank
  }

  lemma ClearedDisk(s: State, k: Key)
    requires Inv(s) && s.phase.Resetting? && Cleared(s, k)
    ensures Disk(s, k) == [] && Eff(Disk(s, k), k) == NOTHING
  {
    if Home(s, k) < s.phase.next {
      assert LogOf(s, k) == EMPTY_LOG;
    }
  }

  /**
  Running: what reached the device is a prefix of the records, and recovery brings a key back to
  what that prefix left if and only if that is no stripe, or one that was there before, or a whole
  one of which nothing was there before and which replay has room for.
  */
  lemma RecoverRunning(s: State, k: Key)
    requires Inv(s) && s.phase.Running?
    ensures Disk(s, k) <= LogOf(s, k).recs
    ensures Found(s, k) == Shown(s.truth, Prefix(s, k)) <==> Recoverable(s.truth, Base(s, k), Prefix(s, k), Disk(s, k))
  {
    hide Pub, Eff, Act, Abs, Recoverable, Shown, Rising, NotRecorded;
    KeyPrefix(s, k);
    PrefixOk(s, k);
    FoundSame(s, k, Prefix(s, k));
    RecoverableIff(s.truth, k, Base(s, k), Disk(s, k));
  }

  lemma PrefixOk(s: State, k: Key)
    requires Inv(s)
    ensures HeldOk(s.truth, k, Prefix(s, k))
  {
    hide Pub, Eff, Recover, RecordsOk, TruthOk, Once;
    FoundSame(s, k, None);
    PubHeld(s.truth, Disk(s, k), k);
    assert HeldOk(s.truth, k, Base(s, k));
    HeldJoin(s.truth, k, Base(s, k), Pub(Disk(s, k), k).sum);
  }

  lemma HeldJoin(truth: Truth, k: Key, a: Held, b: Held)
    requires HeldOk(truth, k, a) && HeldOk(truth, k, b)
    ensures HeldOk(truth, k, Join(a, b))
  {}

  lemma {:induction false} PubHeld(truth: Truth, ms: seq<Mut>, k: Key)
    requires AllFit(truth, ms)
    ensures HeldOk(truth, k, Pub(ms, k).sum)
  {
    if ms != [] {
      var init, m := ms[..|ms| - 1], ms[|ms| - 1];
      assert ms == init + [m];
      AllFitInit(truth, init, m);
      PubHeld(truth, init, k);
      PubNext(init, m, k);
      HeldJoin(truth, k, Pub(init, k).sum, PubOne(m, k).sum);
    }
  }

  /**
  When the stripe that the index has is found again: the checkpoint has it like that; or it has
  more than one slice and all of them, none of them is in the checkpoint, the record of every one
  is on the device, and replay has room for it.
  */
  lemma RecoverStripe(s: State, k: Key)
    requires Inv(s) && s.phase.Running? && !LogOf(s, k).closed
    requires k in s.index && s.index[k].ver in s.truth && s.truth[s.index[k].ver].striped
    ensures Found(s, k) == Bare(Get(s.index, k)) <==>
            StripeKept(s.truth, Base(s, k), Abs(Get(s.index, k)), Disk(s, k), Unflushed(s, k))
  {
    hide Pub, Eff, Act, StripeKept, Shown, Rising, NotRecorded, Filled;
    KeyPrefix(s, k);
    FoundSame(s, k, None);
    StripeKeptIff(s.truth, k, Base(s, k), Disk(s, k), Unflushed(s, k));
  }

  /** The puts of the key that the journal tells of have one part each. */
  ghost predicate Plain(s: State, k: Key)
    requires s.logs != []
  {
    forall m :: m in LogOf(s, k).recs && m.key == k && m.Put? ==> m.ver in s.truth && !s.truth[m.ver].striped && |s.truth[m.ver].at| == 1
  }

  lemma PlainUnstriped(s: State, k: Key, ms: seq<Mut>)
    requires s.logs != [] && Plain(s, k) && AllFit(s.truth, ms) && forall m :: m in ms ==> m in LogOf(s, k).recs
    ensures Unstriped(ms, k)
  {
    forall m | m in ms && m.key == k && m.Put?
      ensures !m.striped && m.cnt <= 1
    {
      assert Fits(s.truth, m);
    }
  }

  /**
  Between rename and the last reset: recovery finds the checkpointed leaf if the home journal is
  reset or its first page is blank, and otherwise exactly when the records of the key are harmless.
  Without a stripe and with every record flushed they are.  If the puts of the key have one part
  each, recovery finds the checkpointed leaf or what the flushed records left.
  */
  lemma RecoverResetting(s: State, k: Key)
    requires Inv(s) && s.phase.Resetting? && !s.phase.again && !LogOf(s, k).closed
    ensures Cleared(s, k) ==> Found(s, k) == Bare(Get(s.index, k))
    ensures !Cleared(s, k) ==>
              (Found(s, k) == Bare(Get(s.index, k)) <==>
               Harmless(Eff(Disk(s, k), k), Pub(Disk(s, k), k), Pub(Unflushed(s, k), k)))
    ensures Unstriped(LogOf(s, k).recs, k) && LogOf(s, k).durable == |LogOf(s, k).recs| ==> Found(s, k) == Bare(Get(s.index, k))
    ensures Plain(s, k) ==> Found(s, k) == Bare(Get(s.index, k)) || Found(s, k) == Shown(s.truth, Prefix(s, k))
  {
    assert s.logs != [] && LogsOk(s.logs);
    hide Pub, Eff, Abs, Shown, Rising, NotRecorded, Harmless, Fits, Once, Inv, Plain, Unstriped;
    FoundSame(s, k, None);
    if Cleared(s, k) {
      ClearedDisk(s, k);
      ClearedFound(s, k);
    } else {
      var b, x, u := Base(s, k), Disk(s, k), Unflushed(s, k);
      KeyPrefix(s, k);
      PubAppend(x, u, k);
      AllFitParts(s.truth, x, u);
      EffBelow(s.truth, x, k);
      ReplayOver(b, Eff(x, k), Pub(x, k), Pub(u, k));
      assert s.ckpt == s.index by {
        ResettingCkpt(s);
      }
      if Unstriped(LogOf(s, k).recs, k) && LogOf(s, k).durable == |LogOf(s, k).recs| {
        assert u == [] && x + [] == x;
        UnstripedEff(x, k);
        FlushedHarmless(x, u, k);
      }
      if Plain(s, k) {
        PlainResetting(s, k);
      }
    }
  }

  lemma ResettingCkpt(s: State)
    requires Inv(s) && s.phase.Resetting?
    ensures s.ckpt == s.index
  {}

  lemma ClearedFound(s: State, k: Key)
    requires Inv(s) && s.phase.Resetting? && Disk(s, k) == [] && Eff(Disk(s, k), k) == NOTHING
    ensures Found(s, k) == Bare(Get(s.index, k))
  {
    hide Eff, Abs;
    FoundSame(s, k, None);
    JoinLaws(Abs(Get(s.ckpt, k)), None, None);
    ResettingCkpt(s);
  }

  lemma FlushedHarmless(x: seq<Mut>, u: seq<Mut>, k: Key)
    requires Eff(x, k) == Pub(x, k) && u == []
    ensures Harmless(Eff(x, k), Pub(x, k), Pub(u, k))
  {
    ThenLaws(Pub(x, k), NOTHING, NOTHING);
  }

  lemma PlainResetting(s: State, k: Key)
    requires Inv(s) && s.phase.Resetting? && !s.phase.again && !LogOf(s, k).closed && !Cleared(s, k) && Plain(s, k)
    ensures Found(s, k) == Bare(Get(s.index, k)) || Found(s, k) == Shown(s.truth, Prefix(s, k))
  {
    hide Pub, Eff, Shown, Filled;
    var b, x, u := Base(s, k), Disk(s, k), Unflushed(s, k);
    KeyPrefix(s, k);
    PubAppend(x, u, k);
    AllFitParts(s.truth, x, u);
    ResettingCkpt(s);
    assert forall m :: m in x ==> m in x + u;
    PlainUnstriped(s, k, x);
    UnstripedEff(x, k);
    PrefixOk(s, k);
    FoundSame(s, k, Prefix(s, k));
    assert (x + u)[..|x|] == x;
    RisingPrefix(b, x + u, k, |x|);
    RisingAbove(b, x, k);
    PlainSum(s, k, x);
    PlainSum(s, k, u);
    var d, f := Pub(x, k), Pub(u, k);
    if !d.reset {
      if f.reset {
        assert Act(f.sum, d) == Join(f.sum, d.sum);
        PlainJoin(f.sum, d.sum);
        if b.Some? && d.sum.Some? && b.value.ver == d.sum.value.ver {
          assert b.value.parts <= {0} by {
            SameVersionPlain(s, k, x);
          }
        }
        JoinLaws(b, d.sum, None);
      } else {
        EffBelow(s.truth, x, k);
        ReplayOver(b, d, d, f);
        JoinLaws(d.sum, d.sum, None);
        BelowSelf(d.sum);
      }
    }
  }

  lemma BelowSelf(a: Held)
    ensures Below(a, a)
  {}

  /** What plain records leave is one part of one version. */
  lemma {:induction false} PlainSum(s: State, k: Key, ms: seq<Mut>)
    requires s.logs != [] && Plain(s, k) && AllFit(s.truth, ms) && forall m :: m in ms ==> m in LogOf(s, k).recs
    ensures Pub(ms, k).sum.Some? ==> Pub(ms, k).sum.value.parts == {0}
    ensures Pub(ms, k).sum.Some? ==>
              var v := Pub(ms, k).sum.value.ver; v in s.truth && !s.truth[v].striped && |s.truth[v].at| == 1
    decreases |ms|
  {
    if ms != [] {
      var init, m := ms[..|ms| - 1], ms[|ms| - 1];
      assert ms == init + [m];
      assert m in ms && forall x :: x in init ==> x in ms;
      AllFitInit(s.truth, init, m);
      PlainSum(s, k, init);
      PubNext(init, m, k);
      hide Pub, AllFit;
      assert Fits(s.truth, m);
      assert {0} + {0} == {0};
    }
  }

  lemma SameVersionPlain(s: State, k: Key, x: seq<Mut>)
    requires s.logs != [] && Plain(s, k) && AllFit(s.truth, x) && HeldOk(s.truth, k, Base(s, k)) && forall m :: m in x ==> m in LogOf(s, k).recs
    requires Base(s, k).Some? && Pub(x, k).sum.Some? && Base(s, k).value.ver == Pub(x, k).sum.value.ver
    ensures Base(s, k).value.parts <= {0}
  {
    PlainSum(s, k, x);
  }

  lemma PlainJoin(a: Held, b: Held)
    requires (a.Some? ==> a.value.parts == {0}) && (b.Some? ==> b.value.parts == {0})
    ensures Join(a, b) == a || Join(a, b) == b
  {
    assert {0} + {0} == {0};
  }

  // ----- A crash of an opening -----

  lemma {:induction false} EffReset(ms: seq<Mut>, k: Key)
    ensures Eff(ms, k).reset <==> Del(k) in ms
  {
    if ms != [] {
      var init, m := ms[..|ms| - 1], ms[|ms| - 1];
      assert ms == init + [m];
      EffReset(init, k);
      PubNext(init, m, k);
    }
  }

  /** During an opening the new records say nothing of a key that was not dropped. */
  lemma UndroppedDisk(s: State, k: Key)
    requires s.logs != [] && LogsOk(s.logs) && OpeningOk(s, k) && !Dropped(s, k) && !LogOf(s, k).blank
    ensures Eff(Disk(s, k), k).reset ==> Eff(Old(LogOf(s, k)), k).reset
    ensures Unstriped(Old(LogOf(s, k)), k) ==>
              && Eff(Disk(s, k), k) == Pub(Flat(LogOf(s, k).rest), k)
              && Eff(Old(LogOf(s, k)), k) == Then(Pub(LogOf(s, k).gone, k), Pub(Flat(LogOf(s, k).rest), k))
  {
    hide Eff, Pub, Flat;
    var g := LogOf(s, k);
    var a, r := g.recs[..g.durable], Flat(g.rest);
    assert forall m :: m in a ==> m in g.recs;
    EffReset(Disk(s, k), k);
    EffReset(Old(g), k);
    if Unstriped(Old(g), k) {
      assert Unstriped(a + r, k);
      UnstripedEff(a + r, k);
      UnstripedEff(Old(g), k);
      PubAppend(a, r, k);
      PubAppend(g.gone, r, k);
      ForeignRecords(a, k);
      ThenLaws(Pub(r, k), NOTHING, NOTHING);
    }
  }

  /**
  Before the rename: a crash brings a key back as the opening found it, if no page of its journal
  was overwritten.  In any case recovery finds a dropped key gone if and only if nothing that takes
  effect is left behind the last deletion on the device, and there is such a deletion or the
  checkpoint has no leaf of the key.  A key that was not dropped it finds as the index has it if and
  only if what is left of its records does what all of them did; without a stripe: a deletion is
  left, or one is gone and what is left joins the checkpointed leaf as it joined what the records
  that are gone had put behind it, or nothing that they put is missing.
  */
  lemma RecoverOpening(s: State, k: Key)
    requires Inv(s) && s.phase.Reopened?
    ensures LogOf(s, k).durable == 0 ==> Found(s, k) == Bare(Get(s.base, k))
    ensures Dropped(s, k) ==>
              (Found(s, k) == Bare(Get(s.index, k)) <==>
               Eff(Disk(s, k), k).sum.None? && (Eff(Disk(s, k), k).reset || k !in s.ckpt))
    ensures !Dropped(s, k) ==>
              (Found(s, k) == Bare(Get(s.index, k)) <==>
               Uncut(Abs(Get(s.ckpt, k)), Eff(Old(LogOf(s, k)), k), Eff(Disk(s, k), k)))
    ensures !Dropped(s, k) && Unstriped(Old(LogOf(s, k)), k) ==>
              var c, q, r := Abs(Get(s.ckpt, k)), Pub(LogOf(s, k).gone, k), Pub(Flat(LogOf(s, k).rest), k);
              (Found(s, k) == Bare(Get(s.index, k)) <==>
               r.reset || (if q.reset then Join(c, r.sum) == Join(q.sum, r.sum) else Below(q.sum, Join(c, r.sum))))
  {
    hide Eff, Pub, Filled, RecordsOk, TruthOk, Uncut, Recover, Flat;
    var g, c := LogOf(s, k), Abs(Get(s.ckpt, k));
    FoundSame(s, k, None);
    assert OpeningOk(s, k) && FoundOk(s, k);
    if g.durable == 0 {
      assert Disk(s, k) == Old(g) by {
        assert g.recs[..0] == [] && g.gone == [];
      }
    }
    if Dropped(s, k) {
      JoinLaws(c, Eff(Disk(s, k), k).sum, None);
    } else {
      UndroppedDisk(s, k);
      assert Get(s.index, k) == Get(s.base, k);
      ReplayCut(c, Eff(Old(g), k), Eff(Disk(s, k), k));
      CutInTwo(c, Pub(g.gone, k), Pub(Flat(g.rest), k));
    }
  }

  /**
  While its checkpoint is reset: recovery finds a key as the index has it if and only if its
  journal is cleared, or what is on the device changes nothing of it.  A dropped key: if nothing
  that takes effect is left; a key without a stripe that was not dropped: always.
  */
  lemma RecoverAgain(s: State, k: Key)
    requires Inv(s) && s.phase.Resetting? && s.phase.again
    ensures Found(s, k) == Bare(Get(s.index, k)) <==> Cleared(s, k) || Repeats(Abs(Get(s.index, k)), Eff(Disk(s, k), k))
    ensures Dropped(s, k) ==> (Found(s, k) == Bare(Get(s.index, k)) <==> Cleared(s, k) || Eff(Disk(s, k), k).sum.None?)
    ensures !Dropped(s, k) && Unstriped(Old(LogOf(s, k)), k) ==> Found(s, k) == Bare(Get(s.index, k))
  {
    hide Eff, Pub, Filled, RecordsOk, TruthOk, Recover, Flat;
    var g := LogOf(s, k);
    FoundSame(s, k, None);
    ResettingCkpt(s);
    if Cleared(s, k) {
      ClearedDisk(s, k);
      ClearedFound(s, k);
    } else {
      assert OpeningOk(s, k);
      RepeatsIff(Abs(Get(s.index, k)), Eff(Disk(s, k), k));
      if !Dropped(s, k) && Unstriped(Old(g), k) {
        UndroppedDisk(s, k);
        assert Get(s.index, k) == Get(s.base, k);
        var b, q, r := Base(s, k), Pub(g.gone, k), Pub(Flat(g.rest), k);
        ActThen(b, q, r);
        ActTwice(Act(b, q), r);
      }
    }
  }

  /** If nothing was dropped, an interrupted opening recovers the same index. */
  lemma UndroppedOpening(s: State, k: Key)
    requires Inv(s) && (s.phase.Reopened? || (s.phase.Resetting? && s.phase.again)) && s.index == s.base
    ensures Found(s, k) == Bare(Get(s.index, k))
  {
    hide Eff, Pub, Filled, TruthOk, Recover, Uncut;
    FoundSame(s, k, None);
    if s.phase.Resetting? && Cleared(s, k) {
      ClearedDisk(s, k);
      ClearedFound(s, k);
    } else {
      NothingAppended(s, k);
      assert OpeningOk(s, k);
      if s.phase.Reopened? {
        assert FoundOk(s, k);
      }
    }
  }

  /** A journal with no record of any key has no record. */
  lemma NothingAppended(s: State, k: Key)
    requires Inv(s) && s.index == s.base && (s.phase.Reopened? || (s.phase.Resetting? && s.phase.again && !Cleared(s, k)))
    ensures LogOf(s, k).recs == [] && Disk(s, k) == Old(LogOf(s, k))
  {
    hide Eff, Flat;
    var g := LogOf(s, k);
    if g.recs != [] {
      RecordDropped(s, k, g.recs[0]);
    }
    assert g.recs[..0] == [] && g.gone == [];
  }

  lemma RecordDropped(s: State, k: Key, m: Mut)
    requires Inv(s) && (s.phase.Reopened? || (s.phase.Resetting? && s.phase.again && !Cleared(s, k))) && m in LogOf(s, k).recs
    ensures Dropped(s, m.key)
  {
    hide Eff, Flat;
    assert m in All(LogOf(s, k));
    assert RecordOk(s, Home(s, k), m);
    assert OpeningOk(s, m.key);
  }

  // ----- Whole runs, with any number of crashes -----

  ghost predicate Initial(s: State) {
    && s.logs != [] && |s.logs| < INVALID_DEV
    && s.index == s.ckpt == s.base == map[] && s.truth == map[]
    && (forall d :: 0 <= d < |s.logs| ==> s.logs[d] == EMPTY_LOG)
    && s.pending == {} && s.phase == Running
  }

  ghost predicate Execution(states: seq<State>, steps: seq<Step>) {
    && |states| == |steps| + 1
    && Initial(states[0])
    && (forall i :: 0 <= i < |states| ==> states[i].logs != [] && LogsOk(states[i].logs))
    && (forall i :: 0 <= i < |steps| ==> Enabled(states[i], steps[i]) && states[i + 1] == Apply(states[i], steps[i]))
  }

  lemma InitialInv(s: State)
    requires Initial(s)
    ensures Inv(s)
  {
    forall k
      ensures KeyOk(s, k)
    {
      EmptyKey(s, k);
    }
  }

  lemma {:induction false} ExecutionInv(states: seq<State>, steps: seq<Step>, n: nat)
    requires Execution(states, steps) && n < |states|
    ensures Inv(states[n])
  {
    hide Inv, Apply, Enabled, Initial;
    if n == 0 {
      InitialInv(states[0]);
    } else {
      ExecutionInv(states, steps, n - 1);
      StepInv(states[n - 1], steps[n - 1]);
    }
  }

  /**
  Recovery over every run and every crash point, up to write timestamps, for plain, hot and striped
  puts whose records are in one journal.  What reached the device is a prefix of the records.  A
  crash brings each key back to what that prefix left, unless that is a stripe: then exactly if it
  was there before, or is whole, entirely new and tracked.  During a checkpoint, to the
  checkpointed leaf exactly if the records are harmless; before the rename of an opening, to what
  the opening found, if no page of the journal was overwritten, and to the index exactly if the
  overwritten records did not matter; after the rename, to the index exactly if what is left of the
  records changes nothing of it.
  */
  lemma PrefixConsistent(states: seq<State>, steps: seq<Step>, n: nat, k: Key)
    requires Execution(states, steps) && n < |states|
    ensures var s := states[n];
            var r, i, e := Found(s, k), Bare(Get(s.index, k)), Eff(Disk(s, k), k);
            match s.phase
            case Running =>
              && Disk(s, k) <= LogOf(s, k).recs
              && (r == Shown(s.truth, Prefix(s, k)) <==> Recoverable(s.truth, Base(s, k), Prefix(s, k), Disk(s, k)))
            case Resetting(_, false) =>
              LogOf(s, k).closed ||
                (&& (r == i <==> Cleared(s, k) || Harmless(e, Pub(Disk(s, k), k), Pub(Unflushed(s, k), k)))
                 && (Plain(s, k) ==> r == i || r == Shown(s.truth, Prefix(s, k))))
            case Reopened =>
              && (LogOf(s, k).durable == 0 ==> r == Bare(Get(s.base, k)))
              && (r == i <==> if Dropped(s, k) then e.sum.None? && (e.reset || k !in s.ckpt)
                              else Uncut(Abs(Get(s.ckpt, k)), Eff(Old(LogOf(s, k)), k), e))
            case Resetting(_, true) => r == i <==> Cleared(s, k) || Repeats(Abs(Get(s.index, k)), e)
  {
    var s := states[n];
    ExecutionInv(states, steps, n);
    hide Inv, Recover, Disk, Found, Pub, Eff, Abs, Recoverable, Shown, Uncut, Harmless, Repeats, Plain, Bare, Prefix, Base;
    match s.phase
    case Running => RecoverRunning(s, k);
    case Reopened => RecoverOpening(s, k);
    case Resetting(_, again) =>
      if again {
        RecoverAgain(s, k);
      } else if !LogOf(s, k).closed {
        RecoverResetting(s, k);
      }
  }

  /** Keys without a stripe always come back to what the flushed records left. */
  lemma UnstripedRunning(s: State, k: Key)
    requires Inv(s) && s.phase.Running? && Unstriped(Disk(s, k), k) && (k in s.base ==> s.base[k].stripe.None?)
    ensures Found(s, k) == Shown(s.truth, Prefix(s, k))
  {
    hide Pub, Eff, Filled, Once;
    FoundSame(s, k, None);
    PrefixOk(s, k);
    FoundSame(s, k, Prefix(s, k));
    UnstripedEff(Disk(s, k), k);
    RecoverRunning(s, k);
  }

  /**
  Acknowledged puts survive: a flushed record that takes effect (of a plain or hot put, or the last
  one of a stripe all of which is recorded and which replay has room for) and that no flushed
  deletion follows is there after a crash, or a newer version is.
  */
  lemma FlushedPutSurvives(s: State, k: Key, i: nat)
    requires Inv(s) && s.phase.Running? && i < LogOf(s, k).durable
    requires var m := LogOf(s, k).recs[i]; m.Put? && m.key == k
    requires Disk(s, k)[i].Put? && TakesEffect(Disk(s, k), i)
    requires forall j :: i < j < LogOf(s, k).durable ==> LogOf(s, k).recs[j] != Del(k)
    ensures k in Recover(s) && Below(Brought(LogOf(s, k).recs[i]), Abs(Get(Recover(s), k)))
  {
    hide Eff, Recover, Fits, Once, TakesEffect, PhaseOk;
    var ms := Disk(s, k);
    RunningDisk(s, k);
    RecoverKey(s, k);
    BaseKnown(s);
    RecordStays(s.truth, ms, k, i);
    JoinLaws(Abs(Get(s.ckpt, k)), Eff(ms, k).sum, None);
    JoinLaws(Eff(ms, k).sum, Abs(Get(s.ckpt, k)), None);
    BelowTransitive(Brought(ms[i]), Eff(ms, k).sum, Act(Abs(Get(s.ckpt, k)), Eff(ms, k)));
  }

  lemma RunningDisk(s: State, k: Key)
    requires Inv(s) && s.phase.Running?
    ensures Disk(s, k) == LogOf(s, k).recs[..LogOf(s, k).durable]
  {}
}
