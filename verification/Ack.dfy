/**
The context that the parts of one put share: a reference count, the first error and the
acknowledgement.  The parts are handled by several writers, interleaved at the granularity of
one atomic update of the context.
*/
module Ack {
  import opened Common

  const OK: int := 0

  /** How far a part has come. */
  datatype Part =
    | Queued
    | Lost                   // pushed back to a full ring and forgotten
    | Refused                // the region could not be rotated
    | WriteFailed
    | WriteDone
    | NoNode                 // written, but there is no index node for it
    | Failed(refused: bool)  // the error is recorded
    | Published
    | Settled(ok: bool)      // ready to let go of the context
    | Gone(ok: bool)

  /** `last` is the part that dropped the last reference; `acks` are the codes acknowledged so far. */
  datatype State = State(parts: seq<Part>, refs: int, err: int, last: Option<nat>, acks: seq<int>)

  datatype Step =
    | Requeue(i: nat, full: bool)
    | Refuse(i: nat)
    | IoDone(i: nat, ok: bool)
    | Lookup(i: nat, found: bool)
    | Record(i: nat, code: int)
    | Flush(i: nat)
    | Unref(i: nat)
    | Fire

  /** An accepted put of n parts, enqueued. */
  predicate Accepted(s: State, n: nat) {
    0 < n && s == State(seq(n, _ => Queued), n, OK, None, [])
  }

  predicate Enabled(s: State, e: Step) {
    match e
    case Requeue(i, _) => i < |s.parts| && s.parts[i].Queued?
    case Refuse(i) => i < |s.parts| && s.parts[i].Queued?
    case IoDone(i, _) => i < |s.parts| && s.parts[i].Queued?
    case Lookup(i, _) => i < |s.parts| && s.parts[i].WriteDone?
    case Record(i, code) =>
      i < |s.parts| && code != OK && (s.parts[i].Refused? || s.parts[i].WriteFailed? || s.parts[i].NoNode?)
    case Flush(i) => i < |s.parts| && (s.parts[i].Published? || (s.parts[i].Failed? && !s.parts[i].refused))
    case Unref(i) => i < |s.parts| && (s.parts[i].Settled? || (s.parts[i].Failed? && s.parts[i].refused))
    case Fire => s.last.Some? && s.acks == []
  }

  function Apply(s: State, e: Step): State
    requires Enabled(s, e)
  {
    match e
    case Requeue(i, full) => s.(parts := s.parts[i := if full then Lost else Queued])
    case Refuse(i) => s.(parts := s.parts[i := Refused])
    case IoDone(i, ok) => s.(parts := s.parts[i := if ok then WriteDone else WriteFailed])
    case Lookup(i, found) => s.(parts := s.parts[i := if found then Published else NoNode])
    case Record(i, code) =>
      s.(parts := s.parts[i := Failed(s.parts[i].Refused?)], err := if s.err == OK then code else s.err)
    case Flush(i) => s.(parts := s.parts[i := Settled(s.parts[i].Published?)])
    case Unref(i) => Released(s.(parts := s.parts[i := Gone(s.parts[i].Settled? && s.parts[i].ok)]), i)
    case Fire => s.(acks := s.acks + [s.err])
  }

  /** The put failed at this part, and the error is recorded. */
  predicate Bad(p: Part) {
    p.Failed? || ((p.Settled? || p.Gone?) && !p.ok)
  }

  /** Parts that still refer to the context. */
  function Holding(parts: seq<Part>): (n: nat)
    ensures n <= |parts|
    ensures n == 0 <==> forall i :: 0 <= i < |parts| ==> parts[i].Gone?
  {
    if parts == [] then 0
    else
      assert parts == [parts[0]] + parts[1..];
      (if parts[0].Gone? then 0 else 1) + Holding(parts[1..])
  }

  lemma {:induction false} HoldingUpdate(parts: seq<Part>, i: nat, p: Part)
    requires i < |parts|
    ensures Holding(parts[i := p]) + (if parts[i].Gone? then 0 else 1) == Holding(parts) + if p.Gone? then 0 else 1
  {
    if i == 0 {
      assert parts[i := p][1..] == parts[1..];
    } else {
      assert parts[i := p][1..] == parts[1..][i - 1 := p];
      HoldingUpdate(parts[1..], i - 1, p);
    }
  }

  lemma {:induction false} HoldingAll(n: nat)
    ensures Holding(seq(n, _ => Queued)) == n
  {
    if n > 0 {
      assert seq(n, _ => Queued)[1..] == seq(n - 1, _ => Queued);
      HoldingAll(n - 1);
    }
  }

  ghost predicate Inv(s: State) {
    && s.parts != [] && s.refs == Holding(s.parts)
    && (s.err == OK <==> forall i :: 0 <= i < |s.parts| ==> !Bad(s.parts[i]))
    && (s.last.Some? <==> s.refs == 0)
    && (s.acks == [] || (s.acks == [s.err] && s.last.Some?))
  }

  lemma StepInv(s: State, e: Step)
    requires Inv(s) && Enabled(s, e)
    ensures Inv(Apply(s, e))
  {
    if !e.Fire? {
      var s' := Apply(s, e);
      HoldingUpdate(s.parts, e.i, s'.parts[e.i]);
      assert !s.parts[e.i].Gone?;
      if s'.err == OK {
        forall i | 0 <= i < |s'.parts|
          ensures !Bad(s'.parts[i])
        {
          assert !Bad(s.parts[i]);
        }
      } else if e.Record? {
        assert Bad(s'.parts[e.i]);
      } else {
        var i :| 0 <= i < |s.parts| && Bad(s.parts[i]);
        assert Bad(s'.parts[i]);
      }
    }
  }

  /** A run of one put: its states and the steps between them. */
  ghost predicate Execution(run: seq<State>, steps: seq<Step>, n: nat) {
    && |run| == |steps| + 1 && Accepted(run[0], n)
    && forall i :: 0 <= i < |steps| ==> Enabled(run[i], steps[i]) && run[i + 1] == Apply(run[i], steps[i])
  }

  lemma {:induction false} ExecutionInv(run: seq<State>, steps: seq<Step>, n: nat, i: nat)
    requires Execution(run, steps, n) && i < |run|
    ensures Inv(run[i]) && |run[i].parts| == n
    decreases i
  {
    if i == 0 {
      HoldingAll(n);
    } else {
      ExecutionInv(run, steps, n, i - 1);
      StepInv(run[i - 1], steps[i - 1]);
    }
  }

  /**
  The put is acknowledged at most once, and only after its last part finished.  The code is OK
  if and only if no part failed, and then every part was published and its journal flushed.
  */
  lemma AckAfterLast(run: seq<State>, steps: seq<Step>, n: nat, i: nat)
    requires Execution(run, steps, n) && i < |run|
    ensures |run[i].parts| == n && |run[i].acks| <= 1
    ensures run[i].acks != [] ==> forall k :: 0 <= k < n ==> run[i].parts[k].Gone?
    ensures run[i].acks != [] ==> (run[i].acks[0] == OK <==> forall k :: 0 <= k < n ==> run[i].parts[k] == Gone(true))
  {
    ExecutionInv(run, steps, n, i);
    var s := run[i];
    if s.acks != [] {
      assert forall k :: 0 <= k < n ==> s.parts[k].Gone?;
      assert s.err == OK <==> forall k :: 0 <= k < n ==> !Bad(s.parts[k]);
      assert forall k :: 0 <= k < n ==> (Bad(s.parts[k]) <==> s.parts[k] != Gone(true));
    }
  }

  /** The steps that bring a part to success. */
  lemma HowReached(s: State, e: Step, k: nat)
    requires Enabled(s, e) && k < |s.parts| && Apply(s, e).parts[k] != s.parts[k]
    ensures Apply(s, e).parts[k] == Gone(true) ==> s.parts[k] == Settled(true)
    ensures Apply(s, e).parts[k] == Settled(true) ==> s.parts[k] == Published && e == Flush(k)
    ensures Apply(s, e).parts[k] == Published ==> s.parts[k] == WriteDone && e == Lookup(k, true)
    ensures Apply(s, e).parts[k] == WriteDone ==> e == IoDone(k, true)
  {}

  /** A part on its way to success, and how many of the three steps are behind it. */
  function Reached(p: Part): nat {
    match p
    case WriteDone => 1
    case Published => 2
    case Settled(ok) => if ok then 3 else 0
    case Gone(ok) => if ok then 3 else 0
    case _ => 0
  }

  /** A part that is gone with success was written, then published, then flushed. */
  lemma {:induction false} GoneWasPublished(run: seq<State>, steps: seq<Step>, n: nat, i: nat, k: nat) returns (w: nat, p: nat, f: nat)
    requires Execution(run, steps, n) && i < |run| && k < n == |run[i].parts| && Reached(run[i].parts[k]) > 0
    ensures w < i && steps[w] == IoDone(k, true)
    ensures Reached(run[i].parts[k]) >= 2 ==> w < p < i && steps[p] == Lookup(k, true)
    ensures Reached(run[i].parts[k]) >= 3 ==> p < f < i && steps[f] == Flush(k)
    decreases i
  {
    hide Enabled, Apply, Inv;
    assert i > 0;
    ExecutionInv(run, steps, n, i - 1);
    var s, e := run[i - 1], steps[i - 1];
    w, p, f := 0, 0, 0;
    if run[i].parts[k] != s.parts[k] {
      HowReached(s, e, k);
      if run[i].parts[k] == WriteDone {
        w := i - 1;
      } else {
        w, p, f := GoneWasPublished(run, steps, n, i - 1, k);
        if run[i].parts[k] == Published {
          p := i - 1;
        } else if s.parts[k] == Published {
          f := i - 1;
        }
      }
    } else {
      w, p, f := GoneWasPublished(run, steps, n, i - 1, k);
    }
  }

  // ----- Which code is acknowledged -----

  /** The step in which part k failed: no region, a failed write or no node. */
  predicate Fails(e: Step, k: nat) {
    e == Refuse(k) || e == IoDone(k, false) || e == Lookup(k, false)
  }

  /** The part failed, and its error is recorded or will be. */
  predicate Spoilt(p: Part) {
    p.Refused? || p.WriteFailed? || p.NoNode? || Bad(p)
  }

  lemma SpoiltStep(s: State, e: Step, k: nat)
    requires Enabled(s, e) && k < |s.parts|
    ensures |Apply(s, e).parts| == |s.parts|
    ensures Spoilt(Apply(s, e).parts[k]) <==> Spoilt(s.parts[k]) || Fails(e, k)
  {}

  /** A part is spoilt exactly if it failed. */
  lemma {:induction false} SpoiltFailed(run: seq<State>, steps: seq<Step>, n: nat, i: nat, k: nat)
    requires Execution(run, steps, n) && i < |run| && k < n
    ensures |run[i].parts| == n
    ensures Spoilt(run[i].parts[k]) <==> exists f :: 0 <= f < i && Fails(steps[f], k)
    decreases i
  {
    if i > 0 {
      SpoiltFailed(run, steps, n, i - 1, k);
      hide Enabled, Apply, Fails, Spoilt;
      SpoiltStep(run[i - 1], steps[i - 1], k);
      if Spoilt(run[i - 1].parts[k]) {
        var f :| 0 <= f < i - 1 && Fails(steps[f], k);
        assert 0 <= f < i;
      }
    }
  }

  /** The first error that was recorded. */
  ghost predicate IsFirstError(steps: seq<Step>, i: nat, code: int)
    requires i <= |steps|
  {
    if code == OK then forall f :: 0 <= f < i ==> !steps[f].Record?
    else exists f :: 0 <= f < i && steps[f].Record? && steps[f].code == code && forall h :: 0 <= h < f ==> !steps[h].Record?
  }

  lemma {:induction false} KeepsFirstError(run: seq<State>, steps: seq<Step>, n: nat, i: nat)
    requires Execution(run, steps, n) && i < |run|
    ensures IsFirstError(steps, i, run[i].err)
    decreases i
  {
    if i > 0 {
      KeepsFirstError(run, steps, n, i - 1);
      var s, e := run[i - 1], steps[i - 1];
      if s.err != OK {
        var f :| 0 <= f < i - 1 && steps[f].Record? && steps[f].code == s.err && forall h :: 0 <= h < f ==> !steps[h].Record?;
        assert 0 <= f < i;
      } else if e.Record? {
        assert 0 <= i - 1 < i && steps[i - 1].Record?;
      }
    }
  }

  /**
  The code that is acknowledged is the first error that a part recorded, and OK if and only if no
  part was refused, failed to be written or found no node.
  */
  lemma AckCode(run: seq<State>, steps: seq<Step>, n: nat, i: nat)
    requires Execution(run, steps, n) && i < |run| && run[i].acks != []
    ensures IsFirstError(steps, i, run[i].acks[0])
    ensures run[i].acks[0] == OK <==> forall f, k :: 0 <= f < i && 0 <= k < n ==> !Fails(steps[f], k)
  {
    ExecutionInv(run, steps, n, i);
    AckAfterLast(run, steps, n, i);
    KeepsFirstError(run, steps, n, i);
    hide Fails, IsFirstError;
    forall k | 0 <= k < n
      ensures run[i].parts[k] != Gone(true) <==> exists f :: 0 <= f < i && Fails(steps[f], k)
    {
      SpoiltFailed(run, steps, n, i, k);
      assert run[i].parts[k].Gone?;
    }
    hide Execution;
    if run[i].acks[0] == OK {
      forall f, k | 0 <= f < i && 0 <= k < n
        ensures !Fails(steps[f], k)
      {
        assert run[i].parts[k] == Gone(true);
      }
    } else {
      var k :| 0 <= k < n && run[i].parts[k] != Gone(true);
      var f :| 0 <= f < i && Fails(steps[f], k);
    }
  }

  /** Once acknowledged, the context is deleted; no step of a part can touch it any more. */
  lemma NotUsedAfterAck(run: seq<State>, steps: seq<Step>, n: nat, i: nat, e: Step)
    requires Execution(run, steps, n) && i < |run| && run[i].acks != []
    ensures !Enabled(run[i], e)
  {
    ExecutionInv(run, steps, n, i);
  }

  // ----- Every put is acknowledged, unless a part is lost -----

  /** Nothing can happen any more. */
  ghost predicate Finished(s: State) {
    forall e :: !Enabled(s, e)
  }

  /** When everything has come to rest, the put was acknowledged if and only if no part was lost. */
  lemma AckedUnlessLost(run: seq<State>, steps: seq<Step>, n: nat, i: nat)
    requires Execution(run, steps, n) && i < |run| && Finished(run[i])
    ensures |run[i].parts| == n
    ensures |run[i].acks| == 1 <==> forall k :: 0 <= k < n ==> run[i].parts[k] != Lost
  {
    var s := run[i];
    ExecutionInv(run, steps, n, i);
    forall k | 0 <= k < n
      ensures s.parts[k] == Lost || s.parts[k].Gone?
    {
      Stuck(s, k);
    }
    assert !Enabled(s, Fire);
  }

  lemma Stuck(s: State, k: nat)
    requires Finished(s) && k < |s.parts|
    ensures s.parts[k] == Lost || s.parts[k].Gone?
  {
    assert !Enabled(s, Refuse(k)) && !Enabled(s, Lookup(k, true)) && !Enabled(s, Record(k, 1));
    assert !Enabled(s, Flush(k)) && !Enabled(s, Unref(k));
  }

  /** Steps left for a part. */
  function Rank(p: Part): nat {
    match p
    case Queued => 6
    case WriteDone => 5
    case Refused => 4
    case WriteFailed => 4
    case NoNode => 4
    case Failed(refused) => if refused then 1 else 3
    case Published => 3
    case Settled(_) => 1
    case Gone(_) => 0
    case Lost => 0
  }

  function Work(parts: seq<Part>): nat {
    if parts == [] then 0 else Rank(parts[0]) + Work(parts[1..])
  }

  lemma {:induction false} WorkUpdate(parts: seq<Part>, i: nat, p: Part)
    requires i < |parts|
    ensures Work(parts[i := p]) + Rank(parts[i]) == Work(parts) + Rank(p)
  {
    if i == 0 {
      assert parts[i := p][1..] == parts[1..];
    } else {
      assert parts[i := p][1..] == parts[1..][i - 1 := p];
      WorkUpdate(parts[1..], i - 1, p);
    }
  }

  /** Every step but pushing a part back brings the put nearer to rest. */
  lemma Progress(s: State, e: Step)
    requires Enabled(s, e) && !(e.Requeue? && !e.full)
    ensures var s' := Apply(s, e); Work(s'.parts) < Work(s.parts) || (s'.parts == s.parts && s.acks == [] && s'.acks != [])
  {
    if !e.Fire? {
      WorkUpdate(s.parts, e.i, Apply(s, e).parts[e.i]);
    }
  }

  // ----- A part that is lost -----

  /** A lost part stays lost, and then the put is never acknowledged. */
  lemma {:induction false} LostNeverAcked(run: seq<State>, steps: seq<Step>, n: nat, i: nat, j: nat, k: nat)
    requires Execution(run, steps, n) && i <= j < |run| && k < |run[i].parts| && run[i].parts[k] == Lost
    ensures k < |run[j].parts| && run[j].parts[k] == Lost && run[j].acks == []
    decreases j
  {
    ExecutionInv(run, steps, n, j);
    if i < j {
      LostNeverAcked(run, steps, n, i, j - 1, k);
      LostStays(run[j - 1], steps[j - 1], k);
    }
  }

  /** A part is lost exactly if it was pushed back to a full ring. */
  lemma {:induction false} LostWasFull(run: seq<State>, steps: seq<Step>, n: nat, i: nat, k: nat)
    requires Execution(run, steps, n) && i < |run| && k < n
    ensures |run[i].parts| == n
    ensures run[i].parts[k] == Lost <==> exists f :: 0 <= f < i && steps[f] == Requeue(k, true)
    decreases i
  {
    if i > 0 {
      LostWasFull(run, steps, n, i - 1, k);
      hide Enabled, Apply;
      LostStep(run[i - 1], steps[i - 1], k);
      if run[i - 1].parts[k] == Lost {
        var f :| 0 <= f < i - 1 && steps[f] == Requeue(k, true);
        assert 0 <= f < i;
      }
    }
  }

  lemma LostStep(s: State, e: Step, k: nat)
    requires Enabled(s, e) && k < |s.parts|
    ensures |Apply(s, e).parts| == |s.parts|
    ensures Apply(s, e).parts[k] == Lost <==> s.parts[k] == Lost || e == Requeue(k, true)
  {}

  /** When everything has come to rest, the put was acknowledged if and only if no part was pushed back to a full ring. */
  lemma AckedUnlessFull(run: seq<State>, steps: seq<Step>, n: nat, i: nat)
    requires Execution(run, steps, n) && i < |run| && Finished(run[i])
    ensures |run[i].acks| == 1 <==> forall f, k :: 0 <= f < i && 0 <= k < n ==> steps[f] != Requeue(k, true)
  {
    hide Enabled, Apply;
    AckedUnlessLost(run, steps, n, i);
    forall k | 0 <= k < n
      ensures run[i].parts[k] == Lost <==> exists f :: 0 <= f < i && steps[f] == Requeue(k, true)
    {
      LostWasFull(run, steps, n, i, k);
    }
    hide Execution;
    if |run[i].acks| == 1 {
      forall f, k | 0 <= f < i && 0 <= k < n
        ensures steps[f] != Requeue(k, true)
      {
        assert run[i].parts[k] != Lost;
      }
    } else {
      var k :| 0 <= k < n && run[i].parts[k] == Lost;
      var f :| 0 <= f < i && steps[f] == Requeue(k, true);
    }
  }

  lemma LostStays(s: State, e: Step, k: nat)
    requires Enabled(s, e) && k < |s.parts| && s.parts[k] == Lost
    ensures k < |Apply(s, e).parts| && Apply(s, e).parts[k] == Lost
  {}

  /** A put of one part that finds the ring full when it is pushed back: it comes to rest without an acknowledgement. */
  lemma LostRun() returns (run: seq<State>, steps: seq<Step>)
    ensures Execution(run, steps, 1) && Finished(run[|steps|]) && run[|steps|].acks == []
  {
    var s := State(seq(1, _ => Queued), 1, OK, None, []);
    run, steps := [s, Apply(s, Requeue(0, true))], [Requeue(0, true)];
  }

  // ----- The context by itself -----

  /** A new context: no reference, no part. */
  const NEW_CONTEXT: State := State([], 0, OK, None, [])

  /** Dropping one reference; who drops the last one acknowledges. */
  function Released(s: State, i: nat): State {
    s.(refs := s.refs - 1, last := if s.refs == 1 then Some(i) else s.last)
  }

  /** A context that is released before it has a reference is never acknowledged. */
  lemma ReleasedUnused(i: nat)
    ensures Finished(Released(NEW_CONTEXT, i)) && Released(NEW_CONTEXT, i).acks == []
  {}
}
