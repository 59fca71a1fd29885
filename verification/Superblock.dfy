/**
The two superblock pages of a device.  Every rotation raises the epoch by one and writes the
superblock to the page that the parity of the epoch selects; a crash can tear the page that is
being written.
*/
module Superblock {
  import opened Common

  datatype Super = Super(epoch: nat, stamp: nat)

  /** The device: a page without a valid superblock is None. */
  datatype Disk = Disk(page0: Option<Super>, page1: Option<Super>) {
    function Page(i: nat): Option<Super> {
      if i % 2 == 0 then page0 else page1
    }

    function With(i: nat, p: Option<Super>): Disk {
      if i % 2 == 0 then this.(page0 := p) else this.(page1 := p)
    }
  }

  /** Read both pages and take the newer valid one. */
  method Load(d: Disk) returns (best: Option<Super>)
    ensures best == None <==> d.page0 == None && d.page1 == None
    ensures best.Some? ==> best == d.page0 || best == d.page1
    ensures forall i: nat :: d.Page(i).Some? ==> best.Some? && d.Page(i).value.epoch <= best.value.epoch
    ensures best == Newest(d)
  {
    best := d.page0;
    if d.page1.Some? {
      var sb := d.page1.value;
      if best.None? || sb.epoch > best.value.epoch || (sb.epoch == best.value.epoch && sb.stamp > best.value.stamp) {
        best := d.page1;
      }
    }
  }

  function Newest(d: Disk): Option<Super> {
    if d.page1 == None then d.page0
    else if d.page0 == None then d.page1
    else if d.page1.value.epoch > d.page0.value.epoch then d.page1
    else if d.page1.value.epoch == d.page0.value.epoch && d.page1.value.stamp > d.page0.value.stamp then d.page1
    else d.page0
  }

  /** The epoch in memory, and the superblock being written, if any. */
  datatype State = State(disk: Disk, epoch: nat, writing: Option<Super>, up: bool)

  datatype Step =
    | Begin(stamp: nat)
    | Tear
    | Finish
    | Crash
    | Reopen

  predicate Enabled(s: State, e: Step) {
    match e
    case Begin(_) => s.up && s.writing == None
    case Tear => s.up && s.writing.Some?
    case Finish => s.up && s.writing.Some?
    case Crash => s.up
    case Reopen => !s.up && Newest(s.disk).Some?
  }

  /** Writing goes through a moment in which the page is not valid. */
  function Apply(s: State, e: Step): State
    requires Enabled(s, e)
  {
    match e
    case Begin(stamp) => s.(epoch := s.epoch + 1, writing := Some(Super(s.epoch + 1, stamp)))
    case Tear => s.(disk := s.disk.With(s.epoch, None))
    case Finish => s.(disk := s.disk.With(s.epoch, s.writing), writing := None)
    case Crash => s.(up := false)
    case Reopen => s.(epoch := Newest(s.disk).value.epoch, writing := None, up := true)
  }

  /** A freshly formatted device: epoch 0 in page 0. */
  predicate Formatted(s: State) {
    s.up && s.epoch == 0 && s.writing == None && s.disk.page1 == None && s.disk.page0.Some? && s.disk.page0.value.epoch == 0
  }

  /** The last epoch that is completely written. */
  function Committed(s: State): nat {
    if s.writing.Some? && 0 < s.epoch then s.epoch - 1 else s.epoch
  }

  /** One page has the committed superblock; the other has nothing or something older. */
  ghost predicate Inv(s: State) {
    var c := Committed(s);
    && (s.writing.Some? ==> 0 < s.epoch && s.writing.value.epoch == s.epoch)
    && s.disk.Page(c).Some? && s.disk.Page(c).value.epoch == c
    && (s.disk.Page(c + 1).Some? ==> s.disk.Page(c + 1).value.epoch < c)
  }

  lemma PageParity(d: Disk, i: nat, p: Option<Super>)
    ensures d.With(i, p).Page(i) == p && d.With(i, p).Page(i + 1) == d.Page(i + 1)
    ensures d.Page(i + 2) == d.Page(i)
  {}

  /** Loading finds exactly the committed superblock, whatever was being written. */
  lemma LoadsCommitted(s: State)
    requires Inv(s)
    ensures Newest(s.disk) == s.disk.Page(Committed(s)) && Newest(s.disk).value.epoch == Committed(s)
  {
    PageParity(s.disk, Committed(s), None);
  }

  lemma StepInv(s: State, e: Step)
    requires Inv(s) && Enabled(s, e)
    ensures Inv(Apply(s, e))
    ensures Committed(s) <= Committed(Apply(s, e))
  {
    LoadsCommitted(s);
    PageParity(s.disk, s.epoch, None);
    PageParity(s.disk, s.epoch, s.writing);
    if 0 < s.epoch {
      PageParity(s.disk, s.epoch - 1, None);
    }
  }

  /**
  A rotation that is written completely, torn in between or not, is what loading finds next: its
  epoch is one more than that of the superblock before, and it carries its own stamp.
  */
  lemma WriteCommits(s: State, stamp: nat, torn: bool)
    requires Inv(s) && Enabled(s, Begin(stamp))
    ensures var s1 := Apply(s, Begin(stamp));
            && (torn ==> Enabled(s1, Tear))
            && var s2 := if torn then Apply(s1, Tear) else s1;
            && (torn ==> s2.disk.Page(s2.epoch) == None) && Newest(s2.disk) == Newest(s.disk) && Enabled(s2, Finish)
            && Newest(Apply(s2, Finish).disk) == Some(Super(Newest(s.disk).value.epoch + 1, stamp))
  {
    LoadsCommitted(s);
    var s1 := Apply(s, Begin(stamp));
    StepInv(s, Begin(stamp));
    LoadsCommitted(s1);
    var s2 := if torn then Apply(s1, Tear) else s1;
    if torn {
      StepInv(s1, Tear);
    }
    LoadsCommitted(s2);
    StepInv(s2, Finish);
    LoadsCommitted(Apply(s2, Finish));
    PageParity(s1.disk, s1.epoch, None);
    PageParity(s1.disk, s.epoch, None);
    PageParity(s2.disk, s2.epoch, s2.writing);
  }

  /** A device that is opened again after a crash goes on from the superblock that loading finds. */
  lemma ReopenGoesOn(s: State)
    requires Inv(s) && Enabled(s, Crash)
    ensures Enabled(Apply(s, Crash), Reopen)
    ensures var s' := Apply(Apply(s, Crash), Reopen);
            s'.up && s'.writing == None && s'.disk == s.disk && Newest(s.disk).Some? && s'.epoch == Newest(s.disk).value.epoch
  {
    LoadsCommitted(s);
  }

  ghost predicate Execution(run: seq<State>, steps: seq<Step>) {
    && |run| == |steps| + 1 && Formatted(run[0])
    && forall i :: 0 <= i < |steps| ==> Enabled(run[i], steps[i]) && run[i + 1] == Apply(run[i], steps[i])
  }

  /** Over any run with crashes anywhere, a completed superblock is never lost and epochs never go back. */
  lemma {:induction false} NeverLost(run: seq<State>, steps: seq<Step>, m: nat, n: nat)
    requires Execution(run, steps) && m <= n < |run|
    ensures Inv(run[m]) && Inv(run[n]) && Committed(run[m]) <= Committed(run[n])
    ensures Newest(run[n].disk).Some? && Newest(run[n].disk).value.epoch == Committed(run[n])
    decreases n
  {
    if m < n {
      NeverLost(run, steps, m, n - 1);
      StepInv(run[n - 1], steps[n - 1]);
    } else if n > 0 {
      NeverLost(run, steps, n - 1, n - 1);
      StepInv(run[n - 1], steps[n - 1]);
    }
    LoadsCommitted(run[n]);
  }
}
