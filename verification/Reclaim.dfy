/**
When index leaves are freed.  Readers look a leaf up and pin it under the shared lock, release
the lock, use the leaf and unpin it later; whoever holds the exclusive lock replaces or drops
leaves, which are freed at once if unpinned and put on the deferred list otherwise; the reaper
goes through that list under the list's own mutex.  The threads are interleaved at the
granularity of one load, update or free.
*/
module Reclaim {
  import opened Common

  type Key = nat
  type LeafId = nat

  /** A leaf: its pin count, and how often it was freed. */
  datatype Leaf = Leaf(refs: nat, freed: nat)

  datatype Reader =
    | Out
    | Locked
    | Looked(leaf: LeafId)
    | Pinned(leaf: LeafId, locked: bool)

  datatype Writer =
    | Away
    | Exclusive
    | Examined(key: Key, unpinned: bool)
    | Disposed(key: Key)

  datatype Reaper =
    | Asleep
    | Scanning(kept: seq<LeafId>, todo: seq<LeafId>)
    | Judged(kept: seq<LeafId>, todo: seq<LeafId>, unpinned: bool)

  datatype State = State(
    leaves: seq<Leaf>,
    index: map<Key, LeafId>,
    deferred: seq<LeafId>,
    readers: seq<Reader>,
    writer: Writer,
    reaper: Reaper)

  datatype Step =
    | Enter(r: nat)
    | Look(r: nat, key: Key)
    | Leave(r: nat)
    | Pin(r: nat)
    | Unpin(r: nat)
    | Acquire
    | Examine(key: Key)
    | FreeNow
    | Defer
    | Replace
    | Drop
    | Insert(key: Key)
    | Release
    | StartReap
    | Judge
    | FreeLater
    | KeepLater
    | EndReap

  ghost predicate Initial(s: State) {
    && s.leaves == [] && s.index == map[] && s.deferred == []
    && (forall r :: 0 <= r < |s.readers| ==> s.readers[r] == Out)
    && s.writer == Away && s.reaper == Asleep
  }

  predicate HoldsLock(rd: Reader) {
    rd.Locked? || rd.Looked? || (rd.Pinned? && rd.locked)
  }

  /** The list as it will be when the reaper is done with nothing more freed. */
  function Listed(s: State): seq<LeafId> {
    if s.reaper.Asleep? then s.deferred else s.reaper.kept + s.reaper.todo
  }

  predicate Enabled(s: State, e: Step) {
    match e
    case Enter(r) => r < |s.readers| && s.readers[r].Out? && s.writer.Away?
    case Look(r, k) => r < |s.readers| && s.readers[r].Locked? && k in s.index
    case Leave(r) => r < |s.readers| && HoldsLock(s.readers[r])
    case Pin(r) => r < |s.readers| && s.readers[r].Looked? && s.readers[r].leaf < |s.leaves|
    case Unpin(r) =>
      && r < |s.readers| && s.readers[r].Pinned? && !s.readers[r].locked
      && s.readers[r].leaf < |s.leaves| && 0 < s.leaves[s.readers[r].leaf].refs
    case Acquire => s.writer.Away? && forall r :: 0 <= r < |s.readers| ==> !HoldsLock(s.readers[r])
    case Examine(k) => s.writer.Exclusive? && k in s.index && s.index[k] < |s.leaves|
    case FreeNow => s.writer.Examined? && s.writer.unpinned && s.writer.key in s.index && s.index[s.writer.key] < |s.leaves|
    case Defer => s.writer.Examined? && !s.writer.unpinned && s.writer.key in s.index && s.reaper.Asleep?
    case Replace => s.writer.Disposed?
    case Drop => s.writer.Disposed?
    case Insert(k) => s.writer.Exclusive? && k !in s.index
    case Release => s.writer.Exclusive?
    case StartReap => s.reaper.Asleep?
    case Judge => s.reaper.Scanning? && s.reaper.todo != [] && s.reaper.todo[0] < |s.leaves|
    case FreeLater => s.reaper.Judged? && s.reaper.unpinned && s.reaper.todo != [] && s.reaper.todo[0] < |s.leaves|
    case KeepLater => s.reaper.Judged? && !s.reaper.unpinned && s.reaper.todo != []
    case EndReap => s.reaper.Scanning? && s.reaper.todo == []
  }

  function Counted(leaves: seq<Leaf>, l: LeafId, n: int): seq<Leaf>
    requires l < |leaves| && 0 <= leaves[l].refs + n
  {
    leaves[l := leaves[l].(refs := leaves[l].refs + n)]
  }

  function Freed(leaves: seq<Leaf>, l: LeafId): seq<Leaf>
    requires l < |leaves|
  {
    leaves[l := leaves[l].(freed := leaves[l].freed + 1)]
  }

  function Apply(s: State, e: Step): State
    requires Enabled(s, e)
  {
    match e
    case Enter(r) => s.(readers := s.readers[r := Locked])
    case Look(r, k) => s.(readers := s.readers[r := Looked(s.index[k])])
    case Leave(r) =>
      s.(readers := s.readers[r := if s.readers[r].Pinned? then s.readers[r].(locked := false) else Out])
    case Pin(r) =>
      s.(readers := s.readers[r := Pinned(s.readers[r].leaf, true)], leaves := Counted(s.leaves, s.readers[r].leaf, 1))
    case Unpin(r) =>
      s.(readers := s.readers[r := Out], leaves := Counted(s.leaves, s.readers[r].leaf, -1))
    case Acquire => s.(writer := Exclusive)
    case Examine(k) => s.(writer := Examined(k, s.leaves[s.index[k]].refs == 0))
    case FreeNow => s.(writer := Disposed(s.writer.key), leaves := Freed(s.leaves, s.index[s.writer.key]))
    case Defer => s.(writer := Disposed(s.writer.key), deferred := s.deferred + [s.index[s.writer.key]])
    case Replace => s.(writer := Exclusive, index := s.index[s.writer.key := |s.leaves|], leaves := s.leaves + [Leaf(0, 0)])
    case Drop => s.(writer := Exclusive, index := s.index - {s.writer.key})
    case Insert(k) => s.(index := s.index[k := |s.leaves|], leaves := s.leaves + [Leaf(0, 0)])
    case Release => s.(writer := Away)
    case StartReap => s.(reaper := Scanning([], s.deferred))
    case Judge => s.(reaper := Judged(s.reaper.kept, s.reaper.todo, s.leaves[s.reaper.todo[0]].refs == 0))
    case FreeLater => s.(reaper := Scanning(s.reaper.kept, s.reaper.todo[1..]), leaves := Freed(s.leaves, s.reaper.todo[0]))
    case KeepLater => s.(reaper := Scanning(s.reaper.kept + [s.reaper.todo[0]], s.reaper.todo[1..]))
    case EndReap => s.(reaper := Asleep, deferred := s.reaper.kept)
  }

  /** How many readers have pinned a leaf. */
  function Pins(readers: seq<Reader>, l: LeafId): (n: nat) {
    if readers == [] then 0
    else (if readers[0].Pinned? && readers[0].leaf == l then 1 else 0) + Pins(readers[1..], l)
  }

  lemma {:induction false} PinsUpdate(readers: seq<Reader>, r: nat, rd: Reader, l: LeafId)
    requires r < |readers|
    ensures Pins(readers[r := rd], l) + (if readers[r].Pinned? && readers[r].leaf == l then 1 else 0)
            == Pins(readers, l) + if rd.Pinned? && rd.leaf == l then 1 else 0
  {
    if r == 0 {
      assert readers[r := rd][1..] == readers[1..];
    } else {
      assert readers[r := rd][1..] == readers[1..][r - 1 := rd];
      PinsUpdate(readers[1..], r - 1, rd, l);
    }
  }

  lemma {:induction false} NoPins(readers: seq<Reader>, l: LeafId)
    requires forall r :: 0 <= r < |readers| ==> !(readers[r].Pinned? && readers[r].leaf == l)
    ensures Pins(readers, l) == 0
  {
    if readers != [] {
      NoPins(readers[1..], l);
    }
  }

  // ----- The invariant -----

  /** The leaf of this key was just freed or deferred but is still in the index. */
  predicate InHand(s: State, k: Key) {
    s.writer.Disposed? && s.writer.key == k
  }

  /** The pin count of a leaf is the number of readers that pinned it. */
  ghost predicate CountsOk(s: State) {
    forall l: nat :: l < |s.leaves| ==> s.leaves[l].refs == Pins(s.readers, l)
  }

  /** Keys have different leaves; these are neither freed nor on the list. */
  ghost predicate IndexOk(s: State) {
    && (forall k :: k in s.index ==> s.index[k] < |s.leaves|)
    && (forall j, k :: j in s.index && k in s.index && s.index[j] == s.index[k] ==> j == k)
    && (forall k :: k in s.index && !InHand(s, k) ==> s.leaves[s.index[k]].freed == 0 && s.index[k] !in Listed(s))
  }

  ghost predicate Unfreed(leaves: seq<Leaf>, list: seq<LeafId>) {
    forall l :: l in list ==> l < |leaves| && leaves[l].freed == 0
  }

  /** The list holds different leaves that are not freed. */
  ghost predicate ListOk(s: State) {
    && NoDup(Listed(s)) && Unfreed(s.leaves, Listed(s))
    && (s.reaper.Judged? ==> s.reaper.todo != [] && (s.reaper.unpinned ==> Pins(s.readers, s.reaper.todo[0]) == 0))
  }

  ghost predicate InIndex(s: State, l: LeafId) {
    exists k :: k in s.index && s.index[k] == l
  }

  /** What a reader holds is not freed; what it is about to pin is in the index. */
  ghost predicate ReaderOk(s: State, rd: Reader) {
    && (HoldsLock(rd) ==> s.writer.Away?)
    && (rd.Looked? ==> InIndex(s, rd.leaf))
    && (rd.Pinned? ==> rd.leaf < |s.leaves| && s.leaves[rd.leaf].freed == 0)
  }

  ghost predicate ReadersOk(s: State) {
    forall r :: 0 <= r < |s.readers| ==> ReaderOk(s, s.readers[r])
  }

  ghost predicate WriterOk(s: State) {
    && (s.writer.Examined? || s.writer.Disposed? ==> s.writer.key in s.index)
    && (s.writer.Examined? && s.writer.unpinned ==> Pins(s.readers, s.index[s.writer.key]) == 0)
    && (s.writer.Disposed? ==> s.index[s.writer.key] < |s.leaves|
                               && (s.leaves[s.index[s.writer.key]].freed > 0 || s.index[s.writer.key] in Listed(s)))
  }

  /** No leaf is lost, and none is freed twice. */
  ghost predicate Conserved(s: State) {
    forall l: nat :: l < |s.leaves| ==>
      s.leaves[l].freed <= 1 && (s.leaves[l].freed == 0 ==> InIndex(s, l) || l in Listed(s))
  }

  ghost predicate Inv(s: State) {
    CountsOk(s) && IndexOk(s) && ListOk(s) && ReadersOk(s) && WriterOk(s) && Conserved(s)
  }

  lemma InitInv(s: State)
    requires Initial(s)
    ensures Inv(s)
  {}

  // ----- Every step keeps it -----

  /** Changing one reader, and the pin count of one leaf by what that takes. */
  lemma CountsStep(s: State, s': State, r: nat, rd: Reader)
    requires CountsOk(s) && r < |s.readers| && s'.readers == s.readers[r := rd] && |s'.leaves| == |s.leaves|
    requires forall l: nat :: l < |s.leaves| ==>
               s'.leaves[l].refs + (if s.readers[r].Pinned? && s.readers[r].leaf == l then 1 else 0)
               == s.leaves[l].refs + if rd.Pinned? && rd.leaf == l then 1 else 0
    ensures CountsOk(s')
  {
    forall l: nat | l < |s'.leaves|
      ensures s'.leaves[l].refs == Pins(s'.readers, l)
    {
      PinsUpdate(s.readers, r, rd, l);
    }
  }

  /** A reader can only pin a leaf that is neither under examination nor on the list. */
  lemma PinUnseen(s: State, r: nat, l: LeafId)
    requires Inv(s) && r < |s.readers| && s.readers[r] == Looked(l)
    ensures l < |s.leaves| && s.leaves[l].freed == 0 && l !in Listed(s) && s.writer.Away?
  {
    assert ReaderOk(s, s.readers[r]);
    var k :| k in s.index && s.index[k] == l;
  }

  /** s' differs from s in reader r and in pin counts only. */
  ghost predicate OnlyReader(s: State, s': State, r: nat) {
    && r < |s.readers| == |s'.readers| && s'.readers == s.readers[r := s'.readers[r]]
    && s'.index == s.index && s'.deferred == s.deferred && s'.writer == s.writer && s'.reaper == s.reaper
    && |s'.leaves| == |s.leaves| && forall l: nat :: l < |s.leaves| ==> s'.leaves[l].freed == s.leaves[l].freed
  }

  /** The reader pinned no leaf that somebody may be about to free. */
  ghost predicate PinsSafely(s: State, s': State, r: nat)
    requires r < |s.readers| && r < |s'.readers|
  {
    s'.readers[r].Pinned? ==>
      || (s.readers[r].Pinned? && s.readers[r].leaf == s'.readers[r].leaf)
      || (s'.readers[r].leaf !in Listed(s) && s.writer.Away?)
  }

  lemma ListKept(s: State, s': State, r: nat)
    requires ListOk(s) && OnlyReader(s, s', r) && PinsSafely(s, s', r)
    ensures ListOk(s')
  {
    assert Listed(s') == Listed(s);
    if s.reaper.Judged? && s.reaper.unpinned {
      var l := s.reaper.todo[0];
      assert l in Listed(s);
      PinsUpdate(s.readers, r, s'.readers[r], l);
    }
  }

  lemma WriterKept(s: State, s': State, r: nat)
    requires WriterOk(s) && OnlyReader(s, s', r) && PinsSafely(s, s', r)
    ensures WriterOk(s')
  {
    if s.writer.Examined? && s.writer.unpinned {
      PinsUpdate(s.readers, r, s'.readers[r], s.index[s.writer.key]);
    }
  }

  lemma ReadersKept(s: State, s': State, r: nat)
    requires ReadersOk(s) && OnlyReader(s, s', r) && ReaderOk(s', s'.readers[r])
    ensures ReadersOk(s')
  {
    IndexSame(s, s');
    forall i | 0 <= i < |s'.readers|
      ensures ReaderOk(s', s'.readers[i])
    {
      assert ReaderOk(s, s.readers[i]);
    }
  }

  lemma ConservedKept(s: State, s': State, r: nat)
    requires Conserved(s) && OnlyReader(s, s', r)
    ensures Conserved(s')
  {
    IndexSame(s, s');
  }

  predicate IsReaderStep(e: Step) {
    e.Enter? || e.Look? || e.Leave? || e.Pin? || e.Unpin?
  }

  lemma ReaderStepFacts(s: State, e: Step)
    requires Inv(s) && Enabled(s, e) && IsReaderStep(e)
    ensures OnlyReader(s, Apply(s, e), e.r) && PinsSafely(s, Apply(s, e), e.r)
    ensures ReaderOk(Apply(s, e), Apply(s, e).readers[e.r])
  {
    var s' := Apply(s, e);
    assert ReaderOk(s, s.readers[e.r]);
    if e.Pin? {
      PinUnseen(s, e.r, s.readers[e.r].leaf);
    }
    if e.Look? {
      assert InIndex(s', s.index[e.key]);
    }
  }

  lemma ReaderStepCounts(s: State, e: Step)
    requires CountsOk(s) && Enabled(s, e) && IsReaderStep(e)
    ensures CountsOk(Apply(s, e))
  {
    hide CountsOk;
    CountsStep(s, Apply(s, e), e.r, Apply(s, e).readers[e.r]);
  }

  lemma IndexKept(s: State, s': State, r: nat)
    requires IndexOk(s) && OnlyReader(s, s', r)
    ensures IndexOk(s')
  {
    assert Listed(s') == Listed(s);
  }

  lemma ReaderStepInv(s: State, e: Step)
    requires Inv(s) && Enabled(s, e) && IsReaderStep(e)
    ensures Inv(Apply(s, e))
  {
    hide CountsOk, IndexOk, ListOk, WriterOk, ReadersOk, Conserved, OnlyReader, PinsSafely, Apply, Enabled;
    var s' := Apply(s, e);
    ReaderStepFacts(s, e);
    ReaderStepCounts(s, e);
    IndexKept(s, s', e.r);
    ListKept(s, s', e.r);
    WriterKept(s, s', e.r);
    ReadersKept(s, s', e.r);
    ConservedKept(s, s', e.r);
  }

  lemma IndexSame(s: State, s': State)
    requires s.index == s'.index
    ensures forall l :: InIndex(s, l) <==> InIndex(s', l)
  {}

  lemma {:induction false} PinnedCounts(readers: seq<Reader>, l: LeafId, r: nat)
    requires r < |readers| && readers[r].Pinned? && readers[r].leaf == l
    ensures Pins(readers, l) > 0
  {
    if r > 0 {
      PinnedCounts(readers[1..], l, r - 1);
    }
  }

  /** Freeing an unpinned leaf disturbs no reader. */
  lemma FreeHarmless(s: State, s': State, l: LeafId)
    requires ReadersOk(s) && Pins(s.readers, l) == 0 && l < |s.leaves| && s'.leaves == Freed(s.leaves, l)
    requires s'.readers == s.readers && s'.index == s.index && s'.writer.Away? == s.writer.Away?
    ensures ReadersOk(s')
  {
    IndexSame(s, s');
    forall r | 0 <= r < |s'.readers|
      ensures ReaderOk(s', s'.readers[r])
    {
      assert ReaderOk(s, s.readers[r]);
      if s.readers[r].Pinned? && s.readers[r].leaf == l {
        PinnedCounts(s.readers, l, r);
      }
    }
  }

  /** Steps that neither free a leaf nor change the index, the list or the readers. */
  lemma QuietInv(s: State, s': State)
    requires Inv(s) && WriterOk(s') && ReadersOk(s') && s' == s.(writer := s'.writer) && (s.writer.Disposed? ==> s' == s)
    ensures Inv(s')
  {
    IndexSame(s, s');
    assert Listed(s') == Listed(s);
  }

  lemma LockStepInv(s: State, e: Step)
    requires Inv(s) && Enabled(s, e) && (e.Acquire? || e.Examine? || e.Release?)
    ensures Inv(Apply(s, e))
  {
    var s' := Apply(s, e);
    IndexSame(s, s');
    forall r | 0 <= r < |s'.readers|
      ensures ReaderOk(s', s'.readers[r])
    {
      assert ReaderOk(s, s.readers[r]);
    }
    QuietInv(s, s');
  }

  lemma FreeNowInv(s: State)
    requires Inv(s) && Enabled(s, FreeNow)
    ensures Inv(Apply(s, FreeNow))
  {
    var s', l := Apply(s, FreeNow), s.index[s.writer.key];
    IndexSame(s, s');
    FreeHarmless(s, s', l);
    assert Listed(s') == Listed(s);
  }

  lemma DeferInv(s: State)
    requires Inv(s) && Enabled(s, Defer)
    ensures Inv(Apply(s, Defer))
  {
    var s', l := Apply(s, Defer), s.index[s.writer.key];
    IndexSame(s, s');
    assert Listed(s') == Listed(s) + [l] && l !in Listed(s);
    NoLockHeld(s);
    assert ReadersOk(s') by {
      ReadersSame(s, s');
    }
    hide ReadersOk, Pins;
    assert forall x :: x in Listed(s) ==> x in Listed(s');
  }

  /** Readers are fine as long as the leaves and the index are as they were. */
  lemma ReadersSame(s: State, s': State)
    requires ReadersOk(s) && s'.readers == s.readers && s'.index == s.index && s'.leaves == s.leaves
    requires s'.writer.Away? == s.writer.Away?
    ensures ReadersOk(s')
  {
    IndexSame(s, s');
    forall r | 0 <= r < |s'.readers|
      ensures ReaderOk(s', s'.readers[r])
    {
      assert ReaderOk(s, s.readers[r]);
    }
  }

  lemma DropInv(s: State)
    requires Inv(s) && Enabled(s, Drop)
    ensures Inv(Apply(s, Drop))
  {
    var s' := Apply(s, Drop);
    assert Listed(s') == Listed(s);
    NoLockHeld(s);
    forall r | 0 <= r < |s'.readers|
      ensures ReaderOk(s', s'.readers[r])
    {
      assert ReaderOk(s, s.readers[r]);
    }
    forall l: nat | l < |s.leaves| && s.leaves[l].freed == 0
      ensures InIndex(s', l) || l in Listed(s')
    {
      if InIndex(s, l) && l !in Listed(s) {
        var k :| k in s.index && s.index[k] == l;
        assert k in s'.index && s'.index[k] == l;
      }
    }
  }

  /** While the exclusive lock is held no reader holds the shared one. */
  lemma NoLockHeld(s: State)
    requires ReadersOk(s) && !s.writer.Away?
    ensures forall r :: 0 <= r < |s.readers| ==> !HoldsLock(s.readers[r])
  {
    forall r | 0 <= r < |s.readers|
      ensures !HoldsLock(s.readers[r])
    {
      assert ReaderOk(s, s.readers[r]);
    }
  }

  /** A key gets a new leaf: a key without one, or the key whose leaf was just disposed of. */
  lemma NewLeafInv(s: State, e: Step)
    requires Inv(s) && Enabled(s, e) && (e.Replace? || e.Insert?)
    ensures Inv(Apply(s, e))
  {
    var s', l' := Apply(s, e), |s.leaves|;
    var key := if e.Insert? then e.key else s.writer.key;
    assert s' == s.(writer := Exclusive, index := s.index[key := l'], leaves := s.leaves + [Leaf(0, 0)]);
    assert Listed(s') == Listed(s);
    NewLeafCounts(s, s');
    NewLeafReaders(s, s');
    NewLeafConserved(s, s', key);
    hide CountsOk, ReadersOk, Conserved, Pins, InIndex;
    NewLeafIndex(s, s', key);
  }

  lemma NewLeafCounts(s: State, s': State)
    requires CountsOk(s) && ReadersOk(s) && s'.leaves == s.leaves + [Leaf(0, 0)] && s'.readers == s.readers
    ensures CountsOk(s')
  {
    var l' := |s.leaves|;
    forall r | 0 <= r < |s.readers|
      ensures !(s.readers[r].Pinned? && s.readers[r].leaf == l')
    {
      assert ReaderOk(s, s.readers[r]);
    }
    NoPins(s.readers, l');
  }

  lemma NewLeafReaders(s: State, s': State)
    requires ReadersOk(s) && !s.writer.Away? && s'.leaves == s.leaves + [Leaf(0, 0)] && s'.readers == s.readers
    ensures ReadersOk(s')
  {
    forall r | 0 <= r < |s'.readers|
      ensures ReaderOk(s', s'.readers[r])
    {
      assert ReaderOk(s, s.readers[r]);
    }
  }

  lemma NewLeafIndex(s: State, s': State, key: Key)
    requires IndexOk(s) && ListOk(s) && (key in s.index ==> InHand(s, key)) && (s.writer.Disposed? ==> s.writer.key == key)
    requires s'.index == s.index[key := |s.leaves|] && s'.leaves == s.leaves + [Leaf(0, 0)]
    requires s'.writer == Exclusive && Listed(s') == Listed(s)
    ensures IndexOk(s')
  {
    assert |s.leaves| !in Listed(s);
    forall k | k in s'.index
      ensures s'.leaves[s'.index[k]].freed == 0 && s'.index[k] !in Listed(s')
    {
      assert k != key ==> !InHand(s, k);
    }
  }

  lemma NewLeafConserved(s: State, s': State, key: Key)
    requires Conserved(s) && IndexOk(s) && WriterOk(s) && (key in s.index ==> InHand(s, key))
    requires s'.index == s.index[key := |s.leaves|] && s'.leaves == s.leaves + [Leaf(0, 0)] && Listed(s') == Listed(s)
    ensures Conserved(s')
  {
    assert InIndex(s', |s.leaves|) by {
      assert s'.index[key] == |s.leaves|;
    }
    forall l: nat | l < |s.leaves| && s.leaves[l].freed == 0
      ensures InIndex(s', l) || l in Listed(s')
    {
      if InIndex(s, l) && l !in Listed(s) {
        var k :| k in s.index && s.index[k] == l;
        assert k in s'.index && s'.index[k] == l;
      }
    }
  }

  /** The reaper moves on without freeing anything, and what it is about to free is unpinned. */
  lemma ReapQuietInv(s: State, s': State)
    requires Inv(s) && s' == s.(reaper := s'.reaper, deferred := s'.deferred) && Listed(s') == Listed(s)
    requires s'.reaper.Judged? ==> s'.reaper.todo != [] && (s'.reaper.unpinned ==> Pins(s'.readers, s'.reaper.todo[0]) == 0)
    ensures Inv(s')
  {
    hide Pins, Listed;
    IndexSame(s, s');
    ReadersSame(s, s');
    hide ReadersOk, InIndex;
  }

  lemma StartReapInv(s: State)
    requires Inv(s) && Enabled(s, StartReap)
    ensures Inv(Apply(s, StartReap))
  {
    hide Inv;
    var s' := Apply(s, StartReap);
    assert Listed(s') == Listed(s);
    ReapQuietInv(s, s');
  }

  lemma JudgeInv(s: State)
    requires Inv(s) && Enabled(s, Judge)
    ensures Inv(Apply(s, Judge))
  {
    var s', l := Apply(s, Judge), s.reaper.todo[0];
    assert s.leaves[l].refs == Pins(s.readers, l);
    hide Inv, Pins;
    assert Listed(s') == Listed(s);
    ReapQuietInv(s, s');
  }

  lemma KeepLaterInv(s: State)
    requires Inv(s) && Enabled(s, KeepLater)
    ensures Inv(Apply(s, KeepLater))
  {
    hide Inv;
    var s' := Apply(s, KeepLater);
    assert Listed(s') == Listed(s);
    ReapQuietInv(s, s');
  }

  lemma EndReapInv(s: State)
    requires Inv(s) && Enabled(s, EndReap)
    ensures Inv(Apply(s, EndReap))
  {
    hide Inv;
    var s' := Apply(s, EndReap);
    assert Listed(s') == Listed(s);
    ReapQuietInv(s, s');
  }

  lemma FreeLaterInv(s: State)
    requires Inv(s) && Enabled(s, FreeLater)
    ensures Inv(Apply(s, FreeLater))
  {
    var s', l := Apply(s, FreeLater), s.reaper.todo[0];
    IndexSame(s, s');
    FreeHarmless(s, s', l);
    hide ReadersOk, Pins;
    var kept, rest := s.reaper.kept, s.reaper.todo[1..];
    assert Listed(s) == kept + [l] + rest && Listed(s') == kept + rest;
    WithoutOne(kept, l, rest);
    hide NoDup;
  }

  lemma WithoutOne(a: seq<LeafId>, l: LeafId, b: seq<LeafId>)
    requires NoDup(a + [l] + b)
    ensures NoDup(a + b) && l !in a + b
    ensures forall x :: x in a + [l] + b <==> x in a + b || x == l
  {
    var was, now := a + [l] + b, a + b;
    assert was[|a|] == l;
    assert forall i :: 0 <= i < |a| ==> now[i] == was[i];
    assert forall i :: |a| <= i < |now| ==> now[i] == was[i + 1];
  }

  lemma StepInv(s: State, e: Step)
    requires Inv(s) && Enabled(s, e)
    ensures Inv(Apply(s, e))
  {
    match e
    case Enter(_) => ReaderStepInv(s, e);
    case Look(_, _) => ReaderStepInv(s, e);
    case Leave(_) => ReaderStepInv(s, e);
    case Pin(_) => ReaderStepInv(s, e);
    case Unpin(_) => ReaderStepInv(s, e);
    case Acquire => LockStepInv(s, e);
    case Examine(_) => LockStepInv(s, e);
    case Release => LockStepInv(s, e);
    case FreeNow => FreeNowInv(s);
    case Defer => DeferInv(s);
    case Replace => NewLeafInv(s, e);
    case Insert(_) => NewLeafInv(s, e);
    case Drop => DropInv(s);
    case StartReap => StartReapInv(s);
    case Judge => JudgeInv(s);
    case KeepLater => KeepLaterInv(s);
    case EndReap => EndReapInv(s);
    case FreeLater => FreeLaterInv(s);
  }

  // ----- Whole runs -----

  /** A run: its states and the steps between them. */
  ghost predicate Execution(run: seq<State>, steps: seq<Step>) {
    && |run| == |steps| + 1 && Initial(run[0])
    && forall i :: 0 <= i < |steps| ==> Enabled(run[i], steps[i]) && run[i + 1] == Apply(run[i], steps[i])
  }

  lemma {:induction false} ExecutionInv(run: seq<State>, steps: seq<Step>, i: nat)
    requires Execution(run, steps) && i < |run|
    ensures Inv(run[i])
    decreases i
  {
    if i == 0 {
      InitInv(run[0]);
    } else {
      ExecutionInv(run, steps, i - 1);
      StepInv(run[i - 1], steps[i - 1]);
    }
  }

  /** No leaf a reader has pinned, or is about to pin, is freed. */
  lemma PinnedNotFreed(run: seq<State>, steps: seq<Step>, i: nat, r: nat)
    requires Execution(run, steps) && i < |run| && r < |run[i].readers| && (run[i].readers[r].Pinned? || run[i].readers[r].Looked?)
    ensures run[i].readers[r].leaf < |run[i].leaves| && run[i].leaves[run[i].readers[r].leaf].freed == 0
  {
    ExecutionInv(run, steps, i);
    assert ReaderOk(run[i], run[i].readers[r]);
    if run[i].readers[r].Looked? {
      PinUnseen(run[i], r, run[i].readers[r].leaf);
    }
  }

  /** No leaf is freed twice, and a leaf that is not freed is in the index or on the list. */
  lemma FreedOnce(run: seq<State>, steps: seq<Step>, i: nat, l: LeafId)
    requires Execution(run, steps) && i < |run| && l < |run[i].leaves|
    ensures run[i].leaves[l].freed <= 1
    ensures run[i].leaves[l].freed == 0 ==> InIndex(run[i], l) || l in Listed(run[i])
  {
    ExecutionInv(run, steps, i);
  }

  /** Only unpinned leaves are ever freed. */
  lemma FreesUnpinned(run: seq<State>, steps: seq<Step>, i: nat, l: LeafId)
    requires Execution(run, steps) && i < |steps| && l < |run[i].leaves|
    requires l < |run[i + 1].leaves| && run[i + 1].leaves[l].freed > run[i].leaves[l].freed
    ensures run[i].leaves[l].freed == 0 && Pins(run[i].readers, l) == 0
  {
    ExecutionInv(run, steps, i);
    FreeingSteps(run[i], steps[i], l);
    if steps[i].FreeLater? {
      assert l in Listed(run[i]);
    }
  }

  lemma FreeingSteps(s: State, e: Step, l: LeafId)
    requires Enabled(s, e) && l < |s.leaves| && l < |Apply(s, e).leaves| && Apply(s, e).leaves[l].freed > s.leaves[l].freed
    ensures (e.FreeNow? && l == s.index[s.writer.key]) || (e.FreeLater? && l == s.reaper.todo[0])
  {}

  /** The pin count never goes below zero: an unpin always finds the pin it takes back. */
  lemma UnpinEnabled(run: seq<State>, steps: seq<Step>, i: nat, r: nat)
    requires Execution(run, steps) && i < |run| && r < |run[i].readers| && run[i].readers[r].Pinned? && !run[i].readers[r].locked
    ensures Enabled(run[i], Unpin(r))
  {
    ExecutionInv(run, steps, i);
    assert ReaderOk(run[i], run[i].readers[r]);
    PinnedCounts(run[i].readers, run[i].readers[r].leaf, r);
  }

  // ----- What the tests of the pin count decide -----

  /** Whoever disposes of a leaf frees it at once exactly if no reader has pinned it, and defers it otherwise. */
  lemma ExamineDecides(s: State, k: Key)
    requires Inv(s) && Enabled(s, Examine(k))
    ensures var s' := Apply(s, Examine(k));
            && (Enabled(s', FreeNow) <==> Pins(s.readers, s.index[k]) == 0)
            && (Enabled(s', Defer) <==> Pins(s.readers, s.index[k]) > 0 && s.reaper.Asleep?)
  {}

  /** The reaper is inside the pass that it began with step i. */
  ghost predicate Reaping(run: seq<State>, steps: seq<Step>, i: nat, m: nat) {
    && Execution(run, steps) && i < m < |run| && steps[i] == StartReap
    && forall x :: i < x <= m ==> !run[x].reaper.Asleep?
  }

  /** Leaf l is on the list, or was freed, and not yet found pinned. */
  ghost predicate Doomed(s: State, l: LeafId) {
    && !s.reaper.Asleep? && l < |s.leaves| && l !in s.reaper.kept && (l in s.reaper.todo || s.leaves[l].freed > 0)
    && (s.reaper.Judged? && s.reaper.todo != [] && s.reaper.todo[0] == l ==> s.reaper.unpinned)
  }

  lemma DoomedStep(s: State, e: Step, l: LeafId)
    requires Inv(s) && Enabled(s, e) && Doomed(s, l) && Pins(s.readers, l) == 0 && !e.EndReap?
    ensures Doomed(Apply(s, e), l)
  {
    hide Pins;
    assert s.leaves[l].refs == 0;
  }

  lemma {:induction false} PassDooms(run: seq<State>, steps: seq<Step>, i: nat, m: nat, l: LeafId)
    requires Reaping(run, steps, i, m) && l in run[i].deferred && forall x :: i <= x <= m ==> Pins(run[x].readers, l) == 0
    ensures Doomed(run[m], l)
    decreases m
  {
    hide Apply, Enabled, Inv, Pins, Initial;
    if m == i + 1 {
      ExecutionInv(run, steps, i);
      StartDooms(run[i], l);
    } else {
      PassDooms(run, steps, i, m - 1, l);
      ExecutionInv(run, steps, m - 1);
      EndSleeps(run[m - 1], steps[m - 1]);
      assert !run[m].reaper.Asleep?;
      DoomedStep(run[m - 1], steps[m - 1], l);
    }
  }

  lemma EndSleeps(s: State, e: Step)
    requires Enabled(s, e)
    ensures e.EndReap? ==> Apply(s, e).reaper.Asleep?
  {}

  lemma StartDooms(s: State, l: LeafId)
    requires Inv(s) && Enabled(s, StartReap) && l in s.deferred
    ensures Doomed(Apply(s, StartReap), l)
  {}

  /** A deferred leaf that nobody pins during a pass of the reaper is freed by it. */
  lemma ReapFrees(run: seq<State>, steps: seq<Step>, i: nat, j: nat, l: LeafId)
    requires Reaping(run, steps, i, j) && j < |steps| && steps[j] == EndReap && l in run[i].deferred
    requires forall x :: i <= x <= j ==> Pins(run[x].readers, l) == 0
    ensures l !in run[j + 1].deferred && l < |run[j + 1].leaves| && run[j + 1].leaves[l].freed == 1
  {
    PassDooms(run, steps, i, j, l);
    ExecutionInv(run, steps, j);
  }

  /** Leaf l is on the list. */
  ghost predicate Held(s: State, l: LeafId) {
    && !s.reaper.Asleep? && l in s.reaper.kept + s.reaper.todo
    && (s.reaper.Judged? && s.reaper.todo != [] && s.reaper.todo[0] == l ==> !s.reaper.unpinned)
  }

  lemma HeldStep(s: State, e: Step, l: LeafId)
    requires Inv(s) && Enabled(s, e) && Held(s, l) && Pins(s.readers, l) > 0 && !e.EndReap?
    ensures Held(Apply(s, e), l)
  {
    hide Pins;
    assert l in Listed(s);
    assert s.leaves[l].refs > 0;
  }

  lemma {:induction false} PassHolds(run: seq<State>, steps: seq<Step>, i: nat, m: nat, l: LeafId)
    requires Reaping(run, steps, i, m) && l in run[i].deferred && forall x :: i <= x <= m ==> Pins(run[x].readers, l) > 0
    ensures Held(run[m], l)
    decreases m
  {
    hide Apply, Enabled, Inv, Pins, Initial;
    if m == i + 1 {
      StartHolds(run[i], l);
    } else {
      PassHolds(run, steps, i, m - 1, l);
      ExecutionInv(run, steps, m - 1);
      EndSleeps(run[m - 1], steps[m - 1]);
      assert !run[m].reaper.Asleep?;
      HeldStep(run[m - 1], steps[m - 1], l);
    }
  }

  lemma StartHolds(s: State, l: LeafId)
    requires Enabled(s, StartReap) && l in s.deferred
    ensures Held(Apply(s, StartReap), l)
  {}

  /** A deferred leaf that a reader keeps pinned during a pass stays on the list. */
  lemma ReapKeeps(run: seq<State>, steps: seq<Step>, i: nat, j: nat, l: LeafId)
    requires Reaping(run, steps, i, j) && j < |steps| && steps[j] == EndReap && l in run[i].deferred
    requires forall x :: i <= x <= j ==> Pins(run[x].readers, l) > 0
    ensures l in run[j + 1].deferred && l < |run[j + 1].leaves| && run[j + 1].leaves[l].freed == 0
  {
    PassHolds(run, steps, i, j, l);
    ExecutionInv(run, steps, j + 1);
  }

  /** Nothing comes onto the list during a pass. */
  lemma {:induction false} PassAddsNothing(run: seq<State>, steps: seq<Step>, i: nat, m: nat)
    requires Reaping(run, steps, i, m)
    ensures forall l :: l in run[m].reaper.kept + run[m].reaper.todo ==> l in run[i].deferred
    decreases m
  {
    hide Apply, Enabled, Initial;
    if m == i + 1 {
      StartLists(run[i]);
    } else {
      PassAddsNothing(run, steps, i, m - 1);
      assert !run[m].reaper.Asleep?;
      ListShrinks(run[m - 1], steps[m - 1]);
    }
  }

  lemma StartLists(s: State)
    requires Enabled(s, StartReap)
    ensures var r := Apply(s, StartReap).reaper; !r.Asleep? && r.kept + r.todo == s.deferred
  {}

  lemma ListShrinks(s: State, e: Step)
    requires Enabled(s, e) && !s.reaper.Asleep? && !Apply(s, e).reaper.Asleep?
    ensures forall l :: l in Apply(s, e).reaper.kept + Apply(s, e).reaper.todo ==> l in s.reaper.kept + s.reaper.todo
  {}

  /** A pass during which nothing on the list is pinned empties it. */
  lemma ReapEmpties(run: seq<State>, steps: seq<Step>, i: nat, j: nat)
    requires Reaping(run, steps, i, j) && j < |steps| && steps[j] == EndReap
    requires forall x, l :: i <= x <= j && l in run[i].deferred ==> Pins(run[x].readers, l) == 0
    ensures run[j + 1].deferred == []
  {
    PassAddsNothing(run, steps, i, j);
    if run[j].reaper.kept != [] {
      var l := run[j].reaper.kept[0];
      assert l in run[j].reaper.kept + run[j].reaper.todo;
      PassDooms(run, steps, i, j, l);
    }
  }

  // ----- Every thread can go through -----

  /** A reader that enters, looks a key up, pins its leaf and leaves has one more pin on that leaf; the unpin undoes it all. */
  lemma ReadProtocol(s: State, r: nat, k: Key)
    requires Inv(s) && r < |s.readers| && s.readers[r].Out? && s.writer.Away? && k in s.index
    ensures Enabled(s, Enter(r))
    ensures var s1 := Apply(s, Enter(r));
            && Enabled(s1, Look(r, k))
            && var s2 := Apply(s1, Look(r, k));
            && Enabled(s2, Pin(r))
            && var s3 := Apply(s2, Pin(r));
            && Enabled(s3, Leave(r))
            && var s4 := Apply(s3, Leave(r));
            && s4.readers[r] == Pinned(s.index[k], false) && s4.index == s.index
            && Pins(s4.readers, s.index[k]) == Pins(s.readers, s.index[k]) + 1
            && Enabled(s4, Unpin(r)) && Apply(s4, Unpin(r)) == s
  {
    hide CountsOk, ListOk, WriterOk, ReadersOk, Conserved;
    var l := s.index[k];
    var s1 := Apply(s, Enter(r));
    var s2 := Apply(s1, Look(r, k));
    var s3 := Apply(s2, Pin(r));
    var s4 := Apply(s3, Leave(r));
    assert s4.readers == s.readers[r := Pinned(l, false)];
    PinsUpdate(s.readers, r, Pinned(l, false), l);
    assert s.readers[r := Out] == s.readers && Apply(s4, Unpin(r)).leaves == s.leaves;
  }

  /**
  Whoever has the lock to themselves replaces or drops the leaf of a key.  The key has a new leaf
  or none; the old leaf is freed if nobody has pinned it and goes to the end of the list otherwise;
  nothing else changes.
  */
  lemma DisposeProtocol(s: State, k: Key, replace: bool)
    requires Inv(s) && s.writer.Away? && s.reaper.Asleep? && k in s.index && forall r :: 0 <= r < |s.readers| ==> !HoldsLock(s.readers[r])
    ensures var l, pinned := s.index[k], Pins(s.readers, s.index[k]) > 0;
            && Enabled(s, Acquire)
            && var s1 := Apply(s, Acquire);
            && Enabled(s1, Examine(k))
            && var s2 := Apply(s1, Examine(k));
            && Enabled(s2, if pinned then Defer else FreeNow)
            && var s3 := Apply(s2, if pinned then Defer else FreeNow);
            && Enabled(s3, if replace then Replace else Drop)
            && var s4 := Apply(s3, if replace then Replace else Drop);
            && Enabled(s4, Release)
            && Apply(s4, Release) ==
               s.(index := if replace then s.index[k := |s.leaves|] else s.index - {k},
                  leaves := (if pinned then s.leaves else Freed(s.leaves, l)) + if replace then [Leaf(0, 0)] else [],
                  deferred := if pinned then s.deferred + [l] else s.deferred)
  {
    assert s.leaves[s.index[k]].refs == Pins(s.readers, s.index[k]);
    hide CountsOk, ListOk, WriterOk, ReadersOk, Conserved, Pins;
  }

  /** What is left to do in a pass of the reaper. */
  function Left(rp: Reaper): nat {
    match rp
    case Asleep => 0
    case Scanning(_, todo) => 2 * |todo| + 1
    case Judged(_, todo, _) => 2 * |todo|
  }

  /** The steps of the reaper. */
  predicate Reaps(e: Step) {
    e.StartReap? || e.Judge? || e.FreeLater? || e.KeepLater? || e.EndReap?
  }

  /** A pass comes to its end: the reaper always has a step, and each but the first leaves less to do. */
  lemma ReapGoesOn(s: State) returns (e: Step)
    requires Inv(s) && !s.reaper.Asleep?
    ensures Enabled(s, e) && Reaps(e)
    ensures forall x :: Reaps(x) && Enabled(s, x) ==> Left(Apply(s, x).reaper) < Left(s.reaper)
  {
    hide CountsOk, WriterOk, ReadersOk, Conserved;
    if s.reaper.todo != [] {
      assert s.reaper.todo[0] in Listed(s);
    }
    e := if s.reaper.Judged? then (if s.reaper.unpinned then FreeLater else KeepLater) else if s.reaper.todo == [] then EndReap else Judge;
  }

  /** Only steps of the reaper change what is left to it. */
  lemma ReapUndisturbed(s: State, e: Step)
    requires Enabled(s, e) && !Reaps(e)
    ensures Apply(s, e).reaper == s.reaper
  {}
}
