/** Runs of a cache with one device in which a crash undoes something, or finds something that was not there. */
module RecoveryRuns {
  import opened Common
  import opened Leaves
  import opened Effects
  import opened Mutations
  import opened Replay
  import opened Recovery

  lemma Extend(states: seq<State>, steps: seq<Step>, e: Step) returns (states': seq<State>, steps': seq<Step>)
    requires Execution(states, steps) && Inv(states[|steps|]) && Enabled(states[|steps|], e)
    ensures Execution(states', steps') && states'[|steps'|] == Apply(states[|steps|], e) && Inv(states'[|steps'|])
  {
    assert |states| == |steps| + 1;
    var s := states[|steps|];
    InvLogs(s);
    hide *;
    StepInv(s, e);
    InvLogs(Apply(s, e));
    states', steps' := states + [Apply(s, e)], steps + [e];
    OneStep(states, steps, e);
  }

  lemma OneStep(states: seq<State>, steps: seq<Step>, e: Step)
    requires Execution(states, steps) && Enabled(states[|steps|], e)
    requires var s' := Apply(states[|steps|], e); s'.logs != [] && LogsOk(s'.logs)
    ensures Execution(states + [Apply(states[|steps|], e)], steps + [e])
  {
    hide Apply, Enabled, Initial, LogsOk;
  }

  lemma InvLogs(s: State)
    requires Inv(s)
    ensures s.logs != [] && LogsOk(s.logs)
  {}

  // ----- One key -----

  /** What matters of a state for key k: what the index, the checkpoint and the base hold of it, and the journal. */
  datatype Scene = Scene(truth: Truth, now: Held, ckpt: Held, base: Held, log: Log, pending: set<(nat, nat)>, counter: nat, phase: Phase)

  ghost predicate Shows(s: State, k: Key, c: Scene) {
    && Inv(s) && s.logs == [c.log] && s.truth == c.truth && s.pending == c.pending && s.counter == c.counter && s.phase == c.phase
    && Abs(Get(s.index, k)) == c.now && Abs(Get(s.ckpt, k)) == c.ckpt && Abs(Get(s.base, k)) == c.base
  }

  /** A run that ends in such a state. */
  ghost predicate RunTo(states: seq<State>, steps: seq<Step>, k: Key, c: Scene) {
    Execution(states, steps) && Shows(states[|steps|], k, c)
  }

  const START: Scene := Scene(map[], None, None, None, EMPTY_LOG, {}, 0, Running)

  lemma Start(mix: nat -> nat, k: Key) returns (states: seq<State>, steps: seq<Step>)
    ensures RunTo(states, steps, k, START)
  {
    var s := State(mix, map[], map[], map[], map[], [EMPTY_LOG], {}, 0, Running);
    states, steps := [s], [];
    ExecutionInv(states, steps, 0);
  }

  /** A put for a cache with one device. */
  predicate Single(plan: Plan) {
    PlanOk(plan) && forall p :: 0 <= p < |plan.at| ==> plan.at[p].dev == 0
  }

  lemma ShowsHome(s: State, k: Key, c: Scene, j: Key)
    requires Shows(s, k, c)
    ensures s.logs != [] && LogsOk(s.logs) && Home(s, j) == 0 && LogOf(s, j) == c.log && Disk(s, j) == OnDisk(c.log)
  {}

  lemma Issues(states: seq<State>, steps: seq<Step>, k: Key, c: Scene, plan: Plan)
    returns (states': seq<State>, steps': seq<Step>, c': Scene)
    requires RunTo(states, steps, k, c) && c.phase.Running? && Single(plan)
    ensures var v := c.counter + 1;
            c' == c.(truth := c.truth[v := plan], pending := c.pending + PartsOf(v, plan), counter := v)
    ensures RunTo(states', steps', k, c')
  {
    var s, v := states[|steps|], c.counter + 1;
    ShowsHome(s, k, c, plan.key);
    hide Inv;
    states', steps' := Extend(states, steps, Issue(plan));
    c' := c.(truth := c.truth[v := plan], pending := c.pending + PartsOf(v, plan), counter := v);
  }

  /** Publishing a part of a put of key k that is not stale. */
  lemma Publishes(states: seq<State>, steps: seq<Step>, k: Key, c: Scene, v: nat, p: nat)
    returns (states': seq<State>, steps': seq<Step>, c': Scene)
    requires RunTo(states, steps, k, c) && c.phase.Running? && !c.log.closed
    requires (v, p) in c.pending && v in c.truth && c.truth[v].key == k && PlanOk(c.truth[v]) && p < |c.truth[v].at|
    requires c.now.None? || c.now.value.ver <= v
    ensures c' == c.(now := Join(c.now, Some(Content(v, {p}))), pending := c.pending - {(v, p)},
                     log := c.log.(recs := c.log.recs + [RecordOf(v, c.truth[v], p)]))
    ensures RunTo(states', steps', k, c')
  {
    var s, e := states[|steps|], PublishPart(v, p, 0, false);
    ShowsHome(s, k, c, k);
    assert !Stale(Get(s.index, k), WriteOf(v, s.truth[v], p, 0));
    assert Enabled(s, e);
    PublishIndex(s, e);
    hide Inv, Publish, Filled;
    states', steps' := Extend(states, steps, e);
    c' := c.(now := Join(c.now, Some(Content(v, {p}))), pending := c.pending - {(v, p)},
             log := c.log.(recs := c.log.recs + [RecordOf(v, c.truth[v], p)]));
    assert states'[|steps'|].logs == [c'.log];
  }

  lemma Drops(states: seq<State>, steps: seq<Step>, k: Key, c: Scene)
    returns (states': seq<State>, steps': seq<Step>, c': Scene)
    requires RunTo(states, steps, k, c) && (c.phase.Running? || c.phase.Reopened?) && !c.log.closed && c.now.Some?
    ensures c' == c.(now := None, log := c.log.(recs := c.log.recs + [Del(k)]))
    ensures RunTo(states', steps', k, c')
  {
    var s, e := states[|steps|], DropLeaf(k, false);
    ShowsHome(s, k, c, k);
    DeletedAtHome(s, k);
    hide Inv;
    states', steps' := Extend(states, steps, e);
    c' := c.(now := None, log := c.log.(recs := c.log.recs + [Del(k)]));
    assert states'[|steps'|].logs == [c'.log];
  }

  /** All records reach the device; nothing old is overwritten. */
  lemma Flushes(states: seq<State>, steps: seq<Step>, k: Key, c: Scene)
    returns (states': seq<State>, steps': seq<Step>, c': Scene)
    requires RunTo(states, steps, k, c) && c.phase.Running?
    requires !c.log.blank && c.log.left < |c.log.recs| && c.log.rest == []
    ensures c' == c.(log := c.log.(durable := |c.log.recs|))
    ensures RunTo(states', steps', k, c')
  {
    ShowsHome(states[|steps|], k, c, k);
    hide Inv, Filled;
    states', steps' := Extend(states, steps, Flush(0));
    c' := c.(log := c.log.(durable := |c.log.recs|));
    assert states'[|steps'|].logs == [c'.log];
  }

  lemma Renames(states: seq<State>, steps: seq<Step>, k: Key, c: Scene)
    returns (states': seq<State>, steps': seq<Step>, c': Scene)
    requires RunTo(states, steps, k, c) && (c.phase.Running? || c.phase.Reopened?)
    ensures c' == c.(ckpt := c.now, phase := Resetting(0, c.phase.Reopened?))
    ensures RunTo(states', steps', k, c')
  {
    ShowsHome(states[|steps|], k, c, k);
    hide Inv, Filled;
    states', steps' := Extend(states, steps, Rename);
    c' := c.(ckpt := c.now, phase := Resetting(0, c.phase.Reopened?));
  }

  /** A whole checkpoint. */
  lemma Checkpoints(states: seq<State>, steps: seq<Step>, k: Key, c: Scene)
    returns (states': seq<State>, steps': seq<Step>, c': Scene)
    requires RunTo(states, steps, k, c) && c.phase.Running?
    ensures c' == c.(ckpt := c.now, base := c.now, log := EMPTY_LOG)
    ensures RunTo(states', steps', k, c')
  {
    var c1, s1;
    states', steps', c1 := Renames(states, steps, k, c);
    s1 := states'[|steps'|];
    ShowsHome(s1, k, c1, k);
    hide Inv, Filled;
    states', steps' := Extend(states', steps', BlankFirst(0));
    var s2 := states'[|steps'|];
    assert s2.logs == [c1.log.(blank := true)];
    assert s2.logs != [] && LogsOk(s2.logs);
    states', steps' := Extend(states', steps', ResetDone(0));
    c' := c.(ckpt := c.now, base := c.now, log := EMPTY_LOG);
    assert states'[|steps'|].logs == [EMPTY_LOG];
  }

  /** What such a state is like, and what recovery finds of the key. */
  lemma Finds(states: seq<State>, steps: seq<Step>, k: Key, c: Scene)
    requires RunTo(states, steps, k, c)
    ensures Execution(states, steps)
    ensures var s := states[|steps|];
            && s.logs != [] && LogsOk(s.logs) && LogOk(c.log) && s.phase == c.phase && s.pending == c.pending
            && Abs(Get(s.index, k)) == c.now && Abs(Get(s.ckpt, k)) == c.ckpt && Unflushed(s, k) == c.log.recs[c.log.durable..]
            && Abs(Get(Recover(s), k)) == Act(c.ckpt, Eff(OnDisk(c.log), k))
  {
    var s := states[|steps|];
    ShowsHome(s, k, c, k);
    hide Eff, Recover;
    RecoverKey(s, k);
  }

  lemma EffOf1(m: Mut, k: Key)
    ensures Eff([m], k) == Then(NOTHING, EffOne([], m, k)) && Eff([m], k) == EffOne([], m, k)
    ensures Stripes([m]) == WithStripe([], m) && Seen([m], if m.Put? then m.ver else 0) == if m.Put? then 1 else 0
  {
    assert [] + [m] == [m];
    PubNext([], m, k);
    PartsNext([], m, if m.Put? then m.ver else 0);
    ThenLaws(EffOne([], m, k), NOTHING, NOTHING);
  }

  lemma EffOf2(a: Mut, b: Mut, k: Key)
    ensures Eff([a, b], k) == Then(EffOne([], a, k), EffOne([a], b, k)) && Stripes([a, b]) == WithStripe(WithStripe([], a), b)
  {
    assert [a] + [b] == [a, b];
    EffOf1(a, k);
    PubNext([a], b, k);
  }

  lemma EffOf3(a: Mut, b: Mut, c: Mut, k: Key)
    ensures Eff([a, b, c], k) == Then(Then(EffOne([], a, k), EffOne([a], b, k)), EffOne([a, b], c, k))
    ensures Stripes([a, b, c]) == WithStripe(WithStripe(WithStripe([], a), b), c)
    ensures forall v :: Seen([a, b], v) == (if a.Put? && a.ver == v then 1 else 0) + if b.Put? && b.ver == v then 1 else 0
  {
    assert [a, b] + [c] == [a, b, c] && [a] + [b] == [a, b] && [] + [a] == [a];
    EffOf2(a, b, k);
    PubNext([a, b], c, k);
    forall v
      ensures Seen([a, b], v) == (if a.Put? && a.ver == v then 1 else 0) + if b.Put? && b.ver == v then 1 else 0
    {
      PartsNext([a], b, v);
      PartsNext([], a, v);
    }
  }

  // ----- A checkpoint -----

  /**
  A checkpoint is not crash-atomic on its own: a deletion that was recorded but not flushed is
  undone by a crash between the rename and the reset, although the checkpoint contains it.
  */
  lemma DeletedKeyReturns(mix: nat -> nat, plan: Plan) returns (states: seq<State>, steps: seq<Step>)
    requires Single(plan) && !plan.striped && |plan.at| == 1
    ensures Execution(states, steps)
    ensures var s := states[|steps|];
            s.phase == Resetting(0, false) && plan.key !in s.index && plan.key !in s.ckpt && plan.key in Recover(s)
  {
    hide RunTo, Recover, Eff, Filled, Unflushed, PartsOf;
    var k, c := plan.key, START;
    SomeParts(1, plan);
    states, steps := Start(mix, k);
    states, steps, c := Issues(states, steps, k, c, plan);
    states, steps, c := Publishes(states, steps, k, c, 1, 0);
    states, steps, c := Flushes(states, steps, k, c);
    states, steps, c := Drops(states, steps, k, c);
    states, steps, c := Renames(states, steps, k, c);
    var m := RecordOf(1, plan, 0);
    assert OnDisk(c.log) == [m];
    Finds(states, steps, k, c);
    hide Execution;
    EffOf1(m, k);
  }

  /**
  With two replicas a crash there can even bring back a leaf that never was: the first replica is
  flushed; its deletion and the second replica are not, but the checkpoint has them.  Recovery
  finds both replicas.
  */
  lemma DeletedReplicaReturns(mix: nat -> nat, plan: Plan) returns (states: seq<State>, steps: seq<Step>)
    requires Single(plan) && !plan.striped && |plan.at| == 2
    ensures Execution(states, steps)
    ensures var s := states[|steps|];
            && s.phase == Resetting(0, false) && Abs(Get(s.index, plan.key)) == Some(Content(1, {1}))
            && Abs(Get(Recover(s), plan.key)) == Some(Content(1, {0, 1}))
  {
    hide RunTo, Recover, Eff, Abs, Unflushed, PartsOf, Stripes, Seen;
    var k, c := plan.key, START;
    SomeParts(1, plan);
    states, steps := Start(mix, k);
    states, steps, c := Issues(states, steps, k, c, plan);
    states, steps, c := Publishes(states, steps, k, c, 1, 0);
    states, steps, c := Flushes(states, steps, k, c);
    states, steps, c := Drops(states, steps, k, c);
    states, steps, c := Publishes(states, steps, k, c, 1, 1);
    states, steps, c := Renames(states, steps, k, c);
    var m := RecordOf(1, plan, 0);
    assert OnDisk(c.log) == [m];
    Finds(states, steps, k, c);
    hide Execution;
    EffOf1(m, k);
    assert {1} + {0} == {0, 1};
  }

  // ----- Stripes -----

  /** A striped put of two slices. */
  predicate TwoSlices(plan: Plan) {
    Single(plan) && plan.striped && |plan.at| == 2
  }

  /**
  A checkpoint between the slices of a stripe: the whole put is published, flushed and in the
  index, but recovery finds its first slice only.
  */
  lemma CheckpointSplitsStripe(mix: nat -> nat, plan: Plan) returns (states: seq<State>, steps: seq<Step>)
    requires TwoSlices(plan)
    ensures Execution(states, steps)
    ensures var s := states[|steps|];
            && s.phase == Running && s.pending == {} && LogsOk(s.logs) && Unflushed(s, plan.key) == []
            && Abs(Get(s.index, plan.key)) == Some(Content(1, {0, 1}))
            && Abs(Get(Recover(s), plan.key)) == Some(Content(1, {0}))
  {
    hide RunTo, Recover, Eff, Abs, Unflushed, PartsOf, Stripes, Seen;
    var k, c := plan.key, START;
    SomeParts(1, plan);
    states, steps := Start(mix, k);
    states, steps, c := Issues(states, steps, k, c, plan);
    states, steps, c := Publishes(states, steps, k, c, 1, 0);
    states, steps, c := Flushes(states, steps, k, c);
    states, steps, c := Checkpoints(states, steps, k, c);
    states, steps, c := Publishes(states, steps, k, c, 1, 1);
    states, steps, c := Flushes(states, steps, k, c);
    var m := RecordOf(1, plan, 1);
    assert OnDisk(c.log) == [m];
    Finds(states, steps, k, c);
    hide Execution;
    EffOf1(m, k);
    SeenNothing(1);
    assert {0} + {1} == {0, 1};
    JoinLaws(c.ckpt, None, None);
  }

  lemma SomeParts(v: nat, plan: Plan)
    requires 1 <= |plan.at| <= 2
    ensures (v, 0) in PartsOf(v, plan) && ((v, 1) in PartsOf(v, plan) <==> |plan.at| == 2)
    ensures {} + PartsOf(v, plan) - {(v, 0)} - {(v, 1)} == {}
  {
    assert 0 in Range(|plan.at|) && (|plan.at| == 2 ==> 1 in Range(2));
  }

  /** A deletion between the slices of a stripe: the index has the second slice only, recovery finds both. */
  lemma DeletedSliceReturns(mix: nat -> nat, plan: Plan) returns (states: seq<State>, steps: seq<Step>)
    requires TwoSlices(plan)
    ensures Execution(states, steps)
    ensures var s := states[|steps|];
            && s.phase == Running && LogsOk(s.logs) && s.logs != [] && Unflushed(s, plan.key) == []
            && Abs(Get(s.index, plan.key)) == Some(Content(1, {1}))
            && Abs(Get(Recover(s), plan.key)) == Some(Content(1, {0, 1}))
  {
    hide RunTo, Recover, Eff, Abs, Unflushed, PartsOf, Stripes, Seen;
    var k, c := plan.key, START;
    SomeParts(1, plan);
    states, steps := Start(mix, k);
    states, steps, c := Issues(states, steps, k, c, plan);
    states, steps, c := Publishes(states, steps, k, c, 1, 0);
    states, steps, c := Drops(states, steps, k, c);
    states, steps, c := Publishes(states, steps, k, c, 1, 1);
    states, steps, c := Flushes(states, steps, k, c);
    var a, b := RecordOf(1, plan, 0), RecordOf(1, plan, 1);
    assert c.log.recs == [a, Del(k), b] && OnDisk(c.log) == [a, Del(k), b];
    Finds(states, steps, k, c);
    hide Execution;
    AroundDeletion(plan);
  }

  lemma AroundDeletion(plan: Plan)
    requires TwoSlices(plan)
    ensures var k, a, b := plan.key, RecordOf(1, plan, 0), RecordOf(1, plan, 1);
            Eff([a, Del(k), b], k) == Effect(true, Some(Content(1, {0, 1})))
  {
    hide Eff, Seen;
    var k, a, b := plan.key, RecordOf(1, plan, 0), RecordOf(1, plan, 1);
    EffOf3(a, Del(k), b, k);
    assert [a, Del(k)] + [b] == [a, Del(k), b];
    assert Stripes([a, Del(k), b]) == [1] && [1][..1] == [1];
    assert Range(2) == {0, 1};
  }

  /** The first slice of a stripe is flushed and has replaced an older leaf: recovery finds the older one. */
  lemma OlderLeafReturns(mix: nat -> nat, first: Plan, plan: Plan) returns (states: seq<State>, steps: seq<Step>)
    requires TwoSlices(plan) && Single(first) && !first.striped && |first.at| == 1 && first.key == plan.key
    ensures Execution(states, steps)
    ensures var s := states[|steps|];
            && s.phase == Running && LogsOk(s.logs) && s.logs != [] && Unflushed(s, plan.key) == []
            && Abs(Get(s.index, plan.key)) == Some(Content(2, {0}))
            && Abs(Get(Recover(s), plan.key)) == Some(Content(1, {0}))
  {
    hide RunTo, Recover, Eff, Abs, Unflushed, PartsOf, Stripes, Seen;
    var k, c := plan.key, START;
    SomeParts(1, first);
    SomeParts(2, plan);
    states, steps := Start(mix, k);
    states, steps, c := Issues(states, steps, k, c, first);
    states, steps, c := Publishes(states, steps, k, c, 1, 0);
    states, steps, c := Issues(states, steps, k, c, plan);
    states, steps, c := Publishes(states, steps, k, c, 2, 0);
    states, steps, c := Flushes(states, steps, k, c);
    var a, b := RecordOf(1, first, 0), RecordOf(2, plan, 0);
    assert c.log.recs == [a, b] && OnDisk(c.log) == [a, b];
    Finds(states, steps, k, c);
    hide Execution;
    FirstSliceOnly(first, plan);
  }

  lemma FirstSliceOnly(first: Plan, plan: Plan)
    requires TwoSlices(plan) && Single(first) && !first.striped && |first.at| == 1 && first.key == plan.key
    ensures Eff([RecordOf(1, first, 0), RecordOf(2, plan, 0)], plan.key) == Add(1, {0})
  {
    hide Eff, Seen;
    var k, a, b := plan.key, RecordOf(1, first, 0), RecordOf(2, plan, 0);
    EffOf2(a, b, k);
    PartsNext([], a, 2);
    assert [] + [a] == [a] && Seen([], 2) == 0 by {
      SeenNothing(2);
    }
    ThenLaws(EffOne([], a, k), NOTHING, NOTHING);
  }

  lemma SeenNothing(v: nat)
    ensures Seen([], v) == 0
  {}

  /** A striped put of one slice: recovery finds a leaf without it. */
  lemma LoneSliceLost(mix: nat -> nat, plan: Plan) returns (states: seq<State>, steps: seq<Step>)
    requires Single(plan) && plan.striped && |plan.at| == 1
    ensures Execution(states, steps)
    ensures var s := states[|steps|];
            && s.phase == Running && LogsOk(s.logs) && s.logs != [] && Unflushed(s, plan.key) == []
            && Abs(Get(s.index, plan.key)) == Some(Content(1, {0}))
            && Abs(Get(Recover(s), plan.key)) == Some(Content(1, {}))
  {
    hide RunTo, Recover, Eff, Abs, Unflushed, PartsOf, Stripes, Seen;
    var k, c := plan.key, START;
    SomeParts(1, plan);
    states, steps := Start(mix, k);
    states, steps, c := Issues(states, steps, k, c, plan);
    states, steps, c := Publishes(states, steps, k, c, 1, 0);
    states, steps, c := Flushes(states, steps, k, c);
    var m := RecordOf(1, plan, 0);
    assert OnDisk(c.log) == [m];
    Finds(states, steps, k, c);
    hide Execution;
    EffOf1(m, k);
  }

  // ----- An opening that drops leaves -----

  /** A crash while the cache runs: the opening has found what recovery finds. */
  lemma Crashes(states: seq<State>, steps: seq<Step>, k: Key, c: Scene, pages: seq<seq<Mut>>)
    returns (states': seq<State>, steps': seq<Step>, c': Scene)
    requires RunTo(states, steps, k, c) && LogOk(c.log) && Paged(pages, OnDisk(c.log)) && forall v :: v in c.truth ==> v <= c.counter
    ensures var h := Act(c.ckpt, Eff(OnDisk(c.log), k));
            c' == c.(now := h, base := h, log := EMPTY_LOG.(rest := pages), pending := {}, phase := Reopened)
    ensures RunTo(states', steps', k, c')
  {
    var s, e := states[|steps|], Crash(c.counter, [pages]);
    Finds(states, steps, k, c);
    CrashEnabled(s, c.counter, pages);
    hide Inv, Recover, Eff, Paged, Filled, Execution, Apply, Enabled, OnDisk, Act, Unflushed, LogsOk, LogOk, Get, Abs;
    CrashApplied(s, c.counter, pages);
    states', steps' := Extend(states, steps, e);
    var h := Act(c.ckpt, Eff(OnDisk(c.log), k));
    c' := c.(now := h, base := h, log := EMPTY_LOG.(rest := pages), pending := {}, phase := Reopened);
  }

  lemma CrashApplied(s: State, c: nat, pages: seq<seq<Mut>>)
    requires |s.logs| == 1 && LogsOk(s.logs) && Enabled(s, Crash(c, [pages]))
    ensures Apply(s, Crash(c, [pages])) ==
            s.(index := Recover(s), base := Recover(s), pending := {}, counter := c, phase := Reopened,
               logs := [EMPTY_LOG.(rest := pages)])
  {
    hide Recover, Enabled, LogOk;
    var logs := seq(|s.logs|, d requires 0 <= d < |s.logs| => EMPTY_LOG.(rest := [pages][d]));
    assert logs == [EMPTY_LOG.(rest := pages)];
  }

  lemma CrashEnabled(s: State, c: nat, pages: seq<seq<Mut>>)
    requires Inv(s) && |s.logs| == 1 && Paged(pages, OnDisk(s.logs[0])) && forall v :: v in s.truth ==> v <= c
    ensures Enabled(s, Crash(c, [pages]))
  {
    hide Recover, Eff, Paged, Filled, OnDisk, All;
    forall k | k in Recover(s)
      ensures Recover(s)[k].ver <= c
    {
      RecoverKey(s, k);
    }
    DiskOnce(s.logs[0]);
    forall m | m in OnDisk(s.logs[0]) && m.Put?
      ensures m.ver <= c
    {
      assert RecordOk(s, 0, m);
    }
  }

  lemma OnePage(ms: seq<Mut>)
    ensures Flat([ms]) == ms
  {
    assert [ms][1..] == [] && Flat([ms]) == ms + Flat([]);
  }

  /**
  A leaf that an opening drops comes back: the checkpoint that ends the opening does not have it,
  but until the journal is reset the record of its put is still there.
  */
  lemma OpeningDropReturns(mix: nat -> nat, plan: Plan) returns (states: seq<State>, steps: seq<Step>)
    requires Single(plan) && !plan.striped && |plan.at| == 1
    ensures Execution(states, steps)
    ensures var s := states[|steps|];
            s.phase == Resetting(0, true) && plan.key !in s.index && plan.key !in s.ckpt && plan.key in Recover(s)
  {
    hide RunTo, Recover, Eff, Filled, Unflushed, PartsOf;
    var k, c, m := plan.key, START, RecordOf(1, plan, 0);
    SomeParts(1, plan);
    OnePage([m]);
    EffOf1(m, k);
    states, steps := Start(mix, k);
    states, steps, c := Issues(states, steps, k, c, plan);
    states, steps, c := Publishes(states, steps, k, c, 1, 0);
    states, steps, c := Flushes(states, steps, k, c);
    assert c.log.recs == [m] && OnDisk(c.log) == [m];
    assert Weight([m]) <= PAGE_SIZE by {
      assert [m][..0] == [] && Weight([]) == 0;
    }
    states, steps, c := Crashes(states, steps, k, c, [[m]]);
    states, steps, c := Drops(states, steps, k, c);
    states, steps, c := Renames(states, steps, k, c);
    assert OnDisk(c.log) == [m];
    Finds(states, steps, k, c);
    hide Execution;
  }

  // ----- Puts of many keys -----

  function KeyOf(i: nat): Key {
    Key(i, 0)
  }

  /** The put of key i, with the pages and lengths of another. */
  function PlanAt(plan: Plan, i: nat): Plan {
    plan.(key := KeyOf(i))
  }

  ghost predicate Planned(truth: Truth, plan: Plan, n: nat) {
    && (forall v :: v in truth <==> 1 <= v <= n)
    && forall v :: v in truth && 1 <= v ==> truth[v] == PlanAt(plan, v - 1)
  }

  /** The records of the first n puts. */
  function Puts(plan: Plan, n: nat): seq<Mut>
    requires PlanOk(plan)
  {
    if n == 0 then [] else Puts(plan, n - 1) + Both(plan, n - 1)
  }

  function Both(plan: Plan, i: nat): seq<Mut>
    requires PlanOk(plan)
  {
    var p := PlanAt(plan, i);
    [RecordOf(i + 1, p, 0)] + if |plan.at| > 1 then [RecordOf(i + 1, p, 1)] else []
  }

  /** The state after n puts of one part or two, with `durable` of the records on the device. */
  ghost predicate Many(s: State, plan: Plan, n: nat, durable: nat)
    requires PlanOk(plan)
  {
    && Inv(s) && s.logs == [Log(Puts(plan, n), 0, durable, [], [], false, false)]
    && Planned(s.truth, plan, n) && s.pending == {} && s.counter == n && s.phase == Running
    && s.ckpt == s.base == map[] && (forall k :: k in s.index <==> k.group == 0 && k.prefix < n)
  }

  ghost predicate Upto(plan: Plan) {
    Single(plan) && |plan.at| <= 2
  }

  /** A run that ends in state s. */
  ghost predicate Ends(states: seq<State>, steps: seq<Step>, s: State) {
    Execution(states, steps) && states[|steps|] == s
  }

  lemma Onward(states: seq<State>, steps: seq<Step>, s: State, e: Step) returns (states': seq<State>, steps': seq<Step>)
    requires Ends(states, steps, s) && Inv(s) && Enabled(s, e)
    ensures Ends(states', steps', Apply(s, e)) && Inv(Apply(s, e))
  {
    states', steps' := Extend(states, steps, e);
  }

  lemma IssueSingle(s: State, plan: Plan)
    requires |s.logs| == 1 && LogsOk(s.logs) && s.phase.Running? && Single(plan)
    ensures Enabled(s, Issue(plan))
    ensures var v := s.counter + 1;
            Apply(s, Issue(plan)) == s.(truth := s.truth[v := plan], pending := s.pending + PartsOf(v, plan), counter := v)
  {
    hide PartsOf, Recover, Paged, All, OnDisk, LogOk;
  }

  lemma ManyFacts(s: State, plan: Plan, n: nat, durable: nat)
    requires PlanOk(plan) && Many(s, plan, n, durable)
    ensures Inv(s) && s.logs == [Log(Puts(plan, n), 0, durable, [], [], false, false)] && KeyOf(n) !in s.index
    ensures s.pending == {} && s.counter == n && s.phase == Running && s.ckpt == map[]
  {
    hide Inv, Puts, Planned;
  }

  /** The next put is issued. */
  lemma IssueMany(s: State, plan: Plan, n: nat)
    requires Upto(plan) && Many(s, plan, n, 0)
    ensures |s.logs| == 1 && LogsOk(s.logs) && Inv(s) && Enabled(s, Issue(PlanAt(plan, n)))
    ensures s.phase.Running? && !s.logs[0].closed && KeyOf(n) !in s.index
    ensures Apply(s, Issue(PlanAt(plan, n))) ==
            s.(truth := s.truth[n + 1 := PlanAt(plan, n)], pending := PartsOf(n + 1, PlanAt(plan, n)), counter := n + 1)
  {
    hide *;
    var p := PlanAt(plan, n);
    PlanAtOk(plan, n);
    ManyFacts(s, plan, n, 0);
    InvLogs(s);
    IssueSingle(s, p);
    assert s.pending + PartsOf(n + 1, p) == PartsOf(n + 1, p);
  }

  /** A part of the newest put is published. */
  lemma PublishMany(s: State, plan: Plan, v: nat, p: nat)
    requires Inv(s) && |s.logs| == 1 && s.phase.Running? && (v, p) in s.pending && v in s.truth && s.truth[v] == plan
    requires PlanOk(plan) && p < |plan.at| && !s.logs[0].closed && (plan.key in s.index ==> s.index[plan.key].ver <= v)
    ensures LogsOk(s.logs) && Enabled(s, PublishPart(v, p, 0, false))
    ensures var s' := Apply(s, PublishPart(v, p, 0, false));
            && s' == s.(index := s'.index, pending := s.pending - {(v, p)},
                        logs := [s.logs[0].(recs := s.logs[0].recs + [RecordOf(v, plan, p)])])
            && plan.key in s'.index && s'.index[plan.key].ver <= v
            && forall k :: k != plan.key ==> (k in s'.index <==> k in s.index)
  {
    var e := PublishPart(v, p, 0, false);
    assert !Stale(Get(s.index, plan.key), WriteOf(v, plan, p, 0));
    PublishIndex(s, e);
    hide Inv, Publish, Filled;
    var s' := Apply(s, e);
    assert s'.logs == [s.logs[0].(recs := s.logs[0].recs + [RecordOf(v, plan, p)])];
    assert Abs(Get(s'.index, plan.key)).Some?;
  }

  /** The parts p and behind of the newest put are published, p being 0 or 1. */
  lemma PublishRest(states: seq<State>, steps: seq<Step>, s: State, plan: Plan, v: nat, p: nat)
    returns (states': seq<State>, steps': seq<Step>, s': State)
    requires Ends(states, steps, s) && Inv(s) && |s.logs| == 1 && s.phase.Running? && v in s.truth && s.truth[v] == plan && PlanOk(plan)
    requires p < |plan.at| <= 2 && (forall q :: p <= q < |plan.at| ==> (v, q) in s.pending)
    requires !s.logs[0].closed && (plan.key in s.index ==> s.index[plan.key].ver <= v)
    ensures Ends(states', steps', s') && Inv(s')
    ensures s' == s.(index := s'.index, pending := if p + 1 < |plan.at| then s.pending - {(v, p)} - {(v, p + 1)} else s.pending - {(v, p)},
                     logs := [s.logs[0].(recs := if p + 1 < |plan.at| then s.logs[0].recs + [RecordOf(v, plan, p)] + [RecordOf(v, plan, p + 1)]
                                                 else s.logs[0].recs + [RecordOf(v, plan, p)])])
    ensures plan.key in s'.index && forall k :: k != plan.key ==> (k in s'.index <==> k in s.index)
    decreases |plan.at| - p
  {
    hide *;
    PublishMany(s, plan, v, p);
    states', steps' := Onward(states, steps, s, PublishPart(v, p, 0, false));
    s' := Apply(s, PublishPart(v, p, 0, false));
    if p + 1 < |plan.at| {
      states', steps', s' := PublishRest(states', steps', s', plan, v, p + 1);
    }
  }

  lemma PlanAtOk(plan: Plan, n: nat)
    requires Upto(plan)
    ensures PlanOk(plan)
    ensures var p := PlanAt(plan, n);
            PlanOk(p) && Single(p) && p.key == KeyOf(n) && p.at == plan.at && 0 < |p.at| <= 2
  {}

  /** One more put. */
  lemma OneMore(states: seq<State>, steps: seq<Step>, s: State, plan: Plan, n: nat)
    returns (states': seq<State>, steps': seq<Step>, s': State)
    requires Upto(plan) && Ends(states, steps, s) && Many(s, plan, n, 0)
    ensures Ends(states', steps', s') && Many(s', plan, n + 1, 0)
  {
    hide *;
    var p, v := PlanAt(plan, n), n + 1;
    PlanAtOk(plan, n);
    SomeParts(v, p);
    IssueMany(s, plan, n);
    states', steps' := Onward(states, steps, s, Issue(p));
    var s1 := Apply(s, Issue(p));
    states', steps', s' := PublishRest(states', steps', s1, p, v, 0);
    MoreOf(s, s1, s', plan, n);
  }

  lemma MoreOf(s: State, s1: State, s': State, plan: Plan, n: nat)
    requires Upto(plan) && Many(s, plan, n, 0) && Inv(s')
    requires var p, v := PlanAt(plan, n), n + 1;
             && s1 == s.(truth := s.truth[v := p], pending := PartsOf(v, p), counter := v)
             && s' == s1.(index := s'.index, pending := if 1 < |p.at| then s1.pending - {(v, 0)} - {(v, 1)} else s1.pending - {(v, 0)},
                          logs := [s1.logs[0].(recs := if 1 < |p.at| then s1.logs[0].recs + [RecordOf(v, p, 0)] + [RecordOf(v, p, 1)]
                                                       else s1.logs[0].recs + [RecordOf(v, p, 0)])])
             && p.key in s'.index && forall k :: k != p.key ==> (k in s'.index <==> k in s1.index)
    ensures Many(s', plan, n + 1, 0)
  {
    hide Inv, PartsOf, RecordOf;
    var p, v := PlanAt(plan, n), n + 1;
    SomeParts(v, p);
    assert s'.pending == {};
    MorePuts(plan, n);
    PlannedNext(s.truth, plan, n);
    hide Puts, Both, Planned, Upto;
  }

  lemma MorePuts(plan: Plan, n: nat)
    requires PlanOk(plan) && |plan.at| <= 2
    ensures var p, v := PlanAt(plan, n), n + 1;
            Puts(plan, v) == if 1 < |p.at| then Puts(plan, n) + [RecordOf(v, p, 0)] + [RecordOf(v, p, 1)] else Puts(plan, n) + [RecordOf(v, p, 0)]
  {
    hide RecordOf;
    assert Puts(plan, n + 1) == Puts(plan, n) + Both(plan, n);
  }

  lemma PlannedNext(truth: Truth, plan: Plan, n: nat)
    requires Planned(truth, plan, n)
    ensures Planned(truth[n + 1 := PlanAt(plan, n)], plan, n + 1)
  {}

  lemma {:induction false} ManyRun(mix: nat -> nat, plan: Plan, n: nat) returns (states: seq<State>, steps: seq<Step>, s: State)
    requires Upto(plan)
    ensures Ends(states, steps, s) && Many(s, plan, n, 0)
  {
    if n == 0 {
      s := State(mix, map[], map[], map[], map[], [EMPTY_LOG], {}, 0, Running);
      states, steps := [s], [];
      ExecutionInv(states, steps, 0);
    } else {
      hide Ends, Many;
      states, steps, s := ManyRun(mix, plan, n - 1);
      states, steps, s := OneMore(states, steps, s, plan, n - 1);
    }
  }

  /** The same with all records on the device. */
  lemma ManyFlushed(mix: nat -> nat, plan: Plan, n: nat) returns (states: seq<State>, steps: seq<Step>, s: State)
    requires Upto(plan) && 0 < n
    ensures Ends(states, steps, s) && Many(s, plan, n, |Puts(plan, n)|)
  {
    hide Ends;
    states, steps, s := ManyRun(mix, plan, n);
    InvLogs(s);
    hide Inv;
    states, steps := Onward(states, steps, s, Flush(0));
    s := Apply(s, Flush(0));
    assert s.logs == [Log(Puts(plan, n), 0, |Puts(plan, n)|, [], [], false, false)];
  }

  lemma {:induction false} PutsOf(plan: Plan, n: nat, i: nat)
    requires PlanOk(plan) && |plan.at| <= 2
    ensures |Puts(plan, n)| == n * |plan.at|
    ensures forall m :: m in Puts(plan, n) ==> m.Put? && 1 <= m.ver <= n && m.key == KeyOf(m.ver - 1)
    ensures i < n ==> RecordOf(i + 1, PlanAt(plan, i), 0) in Puts(plan, n)
  {
    if n > 0 {
      PutsOf(plan, n - 1, i);
    }
  }

  // ----- An opening that overwrites records -----

  lemma {:induction false} PutWeight(ms: seq<Mut>)
    requires forall m :: m in ms ==> m.Put?
    ensures Weight(ms) == PUT_SIZE * |ms|
  {
    if ms != [] {
      assert forall m :: m in ms[..|ms| - 1] ==> m in ms;
      PutWeight(ms[..|ms| - 1]);
    }
  }

  lemma TwoPages(p: seq<Mut>, q: seq<Mut>)
    ensures Flat([p, q]) == p + q
  {
    assert [p, q][1..] == [q];
    OnePage(q);
  }

  /** The records of 66 puts on two pages; the first one holds 53 of them. */
  lemma PagesOfPuts(plan: Plan)
    requires Single(plan) && |plan.at| == 1
    ensures var ms := Puts(plan, 66);
            |ms| == 66 && Paged([ms[..53], ms[53..]], ms) && forall m :: m in ms[53..] ==> m.Put? && m.key != KeyOf(0)
  {
    var ms := Puts(plan, 66);
    PutsOf(plan, 66, 0);
    TwoPages(ms[..53], ms[53..]);
    assert ms[..53] + ms[53..] == ms;
    PutWeight(ms[..53]);
    PutWeight(ms[53..]);
    forall m | m in ms[53..]
      ensures m.key != KeyOf(0)
    {
      PutsInOrder(plan, 66, 53);
    }
  }

  lemma {:induction false} PutsInOrder(plan: Plan, n: nat, i: nat)
    requires PlanOk(plan) && |plan.at| == 1 && i <= n
    ensures |Puts(plan, n)| == n && forall m :: m in Puts(plan, n)[i..] ==> m.Put? && i < m.ver && m.key == KeyOf(m.ver - 1)
  {
    if i < n {
      PutsInOrder(plan, n - 1, i);
      assert Puts(plan, n)[i..] == Puts(plan, n - 1)[i..] + Both(plan, n - 1);
    } else {
      PutsOf(plan, n, 0);
    }
  }

  /** A put on the device, not striped and with no deletion of any key behind it, is found. */
  lemma FindsPut(s: State, k: Key, j: nat)
    requires Inv(s) && s.logs != [] && LogsOk(s.logs) && j < |Disk(s, k)|
    requires var m := Disk(s, k)[j]; m.Put? && m.key == k && !m.striped
    requires forall m :: m in Disk(s, k) ==> m.Put?
    ensures k in Recover(s)
  {
    RecoverKey(s, k);
    hide Inv, Recover, Eff, Disk;
    RecordStays(s.truth, Disk(s, k), k, j);
  }

  /** After the crash the opening finds every key. */
  lemma AllFound(s: State, plan: Plan, n: nat, i: nat)
    requires Upto(plan) && !plan.striped && Many(s, plan, n, |Puts(plan, n)|) && i < n
    ensures s.logs != [] && LogsOk(s.logs) && KeyOf(i) in Recover(s)
  {
    var k, m, ms := KeyOf(i), RecordOf(i + 1, PlanAt(plan, i), 0), Puts(plan, n);
    ManyFacts(s, plan, n, |ms|);
    InvLogs(s);
    hide Inv, Recover, Many, Puts;
    PutsOf(plan, n, i);
    assert Disk(s, k) == ms by {
      assert ms[..|ms|] == ms && ms + [] == ms;
    }
    var j :| 0 <= j < |ms| && ms[j] == m;
    FindsPut(s, k, j);
  }

  /** The keys 1 to j are dropped while the opening is completed. */
  function Dels(j: nat): (ms: seq<Mut>)
    ensures |ms| == j && forall i :: 0 <= i < j ==> ms[i] == Del(KeyOf(i + 1))
  {
    seq(j, i requires 0 <= i < j => Del(KeyOf(i + 1)))
  }

  ghost predicate Dropping(s: State, j: nat, log: Log) {
    && Inv(s) && s.phase == Reopened && s.ckpt == map[] && KeyOf(0) in s.base && s.logs == [log] && !log.closed
    && forall i: nat :: i < 66 && (i == 0 || i > j) ==> KeyOf(i) in s.index
  }

  lemma OneDrop(states: seq<State>, steps: seq<Step>, s: State, j: nat, log: Log)
    returns (states': seq<State>, steps': seq<Step>, s': State)
    requires Ends(states, steps, s) && Dropping(s, j, log) && log.recs == Dels(j) && j < 65
    ensures Ends(states', steps', s') && Dropping(s', j + 1, log.(recs := Dels(j + 1)))
  {
    var e := DropLeaf(KeyOf(j + 1), false);
    DeletedAtHome(s, KeyOf(j + 1));
    InvLogs(s);
    hide Inv, Ends;
    states', steps' := Onward(states, steps, s, e);
    s' := Apply(s, e);
    assert Dels(j) + [Del(KeyOf(j + 1))] == Dels(j + 1);
    assert s'.logs == [log.(recs := Dels(j + 1))];
  }

  lemma {:induction false} DropRun(states: seq<State>, steps: seq<Step>, s: State, log: Log, j: nat)
    returns (states': seq<State>, steps': seq<Step>, s': State)
    requires Ends(states, steps, s) && Dropping(s, 0, log) && log.recs == [] && j <= 65
    ensures Ends(states', steps', s') && Dropping(s', j, log.(recs := Dels(j)))
  {
    hide Ends, Dropping;
    if j == 0 {
      states', steps', s' := states, steps, s;
      assert Dels(0) == [] && log.(recs := []) == log;
    } else {
      states', steps', s' := DropRun(states, steps, s, log, j - 1);
      states', steps', s' := OneDrop(states', steps', s', j - 1, log.(recs := Dels(j - 1)));
    }
  }

  /** The opening of a cache after 66 puts. */
  lemma OpenedRun(mix: nat -> nat, plan: Plan) returns (states: seq<State>, steps: seq<Step>, s: State)
    requires Single(plan) && !plan.striped && |plan.at| == 1
    ensures var ms := Puts(plan, 66);
            && |ms| == 66 && Ends(states, steps, s) && Dropping(s, 0, EMPTY_LOG.(rest := [ms[..53], ms[53..]]))
  {
    hide Ends;
    var ms := Puts(plan, 66);
    PagesOfPuts(plan);
    var pages := [ms[..53], ms[53..]];
    states, steps, s := ManyFlushed(mix, plan, 66);
    forall i: nat | i < 66
      ensures KeyOf(i) in Recover(s)
    {
      AllFound(s, plan, 66, i);
    }
    assert OnDisk(s.logs[0]) == ms by {
      assert ms[..66] == ms && ms + [] == ms;
    }
    hide Inv, Recover, Paged, Puts;
    var e := Crash(66, [pages]);
    CrashEnabled(s, 66, pages);
    InvLogs(s);
    states, steps := Onward(states, steps, s, e);
    assert Apply(s, e).logs == [EMPTY_LOG.(rest := pages)];
    s := Apply(s, e);
  }

  /**
  A put that was on the device before the crash is lost: the deletions of an opening fill a page,
  which goes over the page with the record of the put when the next deletion is recorded, and a
  second crash finds neither that record nor a checkpoint that has it.
  */
  lemma OpeningLosesPut(mix: nat -> nat, plan: Plan) returns (states: seq<State>, steps: seq<Step>)
    requires Single(plan) && !plan.striped && |plan.at| == 1
    ensures Execution(states, steps)
    ensures var s := states[|steps|];
            s.phase == Reopened && KeyOf(0) in s.base && KeyOf(0) in s.index && KeyOf(0) !in Recover(s)
  {
    var k, ms := KeyOf(0), Puts(plan, 66);
    var s;
    PagesOfPuts(plan);
    states, steps, s := OpenedRun(mix, plan);
    hide Ends, Dropping, Puts, Paged;
    var p, q := ms[..53], ms[53..];
    states, steps, s := DropRun(states, steps, s, EMPTY_LOG.(rest := [p, q]), 64);
    var g := Log(Dels(64), 64, 64, p, [q], false, false);
    states, steps, s := TurnOver(states, steps, s, p, q);
    states, steps, s := OneDrop(states, steps, s, 64, g);
    NotFound(s, g.(recs := Dels(65)), q);
    Ended(states, steps, s, 65, g.(recs := Dels(65)));
  }

  lemma Ended(states: seq<State>, steps: seq<Step>, s: State, j: nat, log: Log)
    requires Ends(states, steps, s) && Dropping(s, j, log)
    ensures Execution(states, steps) && states[|steps|] == s
    ensures s.phase == Reopened && KeyOf(0) in s.base && KeyOf(0) in s.index
  {}

  /** The page of deletions is full and goes over the first old page. */
  lemma TurnOver(states: seq<State>, steps: seq<Step>, s: State, p: seq<Mut>, q: seq<Mut>)
    returns (states': seq<State>, steps': seq<Step>, s': State)
    requires Ends(states, steps, s) && Dropping(s, 64, EMPTY_LOG.(rest := [p, q], recs := Dels(64)))
    ensures Ends(states', steps', s') && Dropping(s', 64, Log(Dels(64), 64, 64, p, [q], false, false))
  {
    InvLogs(s);
    hide Inv, Ends;
    states', steps' := Onward(states, steps, s, Turn(0));
    s' := Apply(s, Turn(0));
    assert [p, q][1..] == [q] && [] + p == p;
    assert s'.logs == [Log(Dels(64), 64, 64, p, [q], false, false)];
  }

  lemma NotFound(s: State, log: Log, q: seq<Mut>)
    requires Dropping(s, 65, log) && log.recs == Dels(65) && log.rest == [q] && !log.blank && forall m :: m in q ==> m.key != KeyOf(0)
    ensures s.logs != [] && LogsOk(s.logs) && KeyOf(0) !in Recover(s)
  {
    var k := KeyOf(0);
    InvLogs(s);
    OnePage(q);
    assert log == s.logs[0];
    assert forall m :: m in OnDisk(log) ==> m.key != k;
    RecoverKey(s, k);
    hide Inv, Eff, Recover;
    ForeignRecords(OnDisk(log), k);
  }

  // ----- More stripes than replay can gather -----

  lemma {:induction false} StripesOf(plan: Plan, n: nat)
    requires TwoSlices(plan)
    ensures Stripes(Puts(plan, n)) == seq(n, i => i + 1)
  {
    if n > 0 {
      StripesOf(plan, n - 1);
      var ms, p := Puts(plan, n - 1), PlanAt(plan, n - 1);
      var a, b := RecordOf(n, p, 0), RecordOf(n, p, 1);
      assert Puts(plan, n) == (ms + [a]) + [b];
      PubNext(ms, a, p.key);
      PubNext(ms + [a], b, p.key);
      assert seq(n - 1, i => i + 1) + [n] == seq(n, i => i + 1);
    }
  }

  lemma LastUntracked(plan: Plan)
    requires TwoSlices(plan)
    ensures forall m :: m in Puts(plan, 257) && m.key == KeyOf(256) ==> m.Put? && m.cnt > 1 && !Tracked(Puts(plan, 257), m.ver)
  {
    var ms := Puts(plan, 257);
    StripesOf(plan, 257);
    SliceRecords(plan, 257);
    assert Stripes(ms)[..256] == seq(256, i => i + 1);
  }

  lemma {:induction false} SliceRecords(plan: Plan, n: nat)
    requires TwoSlices(plan)
    ensures forall m :: m in Puts(plan, n) ==> m.Put? && m.cnt == 2 && 1 <= m.ver && m.key == KeyOf(m.ver - 1)
  {
    if n > 0 {
      SliceRecords(plan, n - 1);
    }
  }

  /**
  257 striped puts are published and flushed; recovery finds nothing of the last one, which has no
  room in the table.
  */
  lemma StripeTableFull(mix: nat -> nat, plan: Plan) returns (states: seq<State>, steps: seq<Step>)
    requires TwoSlices(plan)
    ensures Execution(states, steps)
    ensures var s := states[|steps|];
            && s.phase == Running && s.pending == {} && s.logs != [] && LogsOk(s.logs) && Unflushed(s, KeyOf(256)) == []
            && KeyOf(256) in s.index && KeyOf(256) !in Recover(s)
  {
    var k, ms := KeyOf(256), Puts(plan, 257);
    var s;
    states, steps, s := ManyFlushed(mix, plan, 257);
    InvLogs(s);
    StripesOf(plan, 257);
    hide Puts;
    assert Disk(s, k) == ms by {
      assert ms[..|ms|] == ms && ms + [] == ms;
    }
    RecoverKey(s, k);
    hide Inv, Recover, Eff, Ends;
    LastUntracked(plan);
    assert ms[..|ms|] == ms;
    UntrackedKey(ms, k, |ms|);
    Ending(states, steps, s);
  }

  lemma Ending(states: seq<State>, steps: seq<Step>, s: State)
    requires Ends(states, steps, s)
    ensures Execution(states, steps) && states[|steps|] == s
  {}
}
