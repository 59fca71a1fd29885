/**
The bounded ring between the threads that put and one shard writer.  Any number of
producers and one consumer are interleaved at the granularity of one atomic load,
store or compare-and-swap.  `Step` names the atomic actions, `Enabled` and `Apply`
give their guards and effects.

`tickets` and `popped` are history: the items in the order in which the tail
compare-and-swap handed out their positions, and the items the consumer released.
*/
module MpscRing {
  import opened Common

  datatype Slot<V> = Slot(stamp: nat, item: Option<V>)

  /** Where a producer stands inside one push. */
  datatype Producer<V> =
    | Idle
    | Started(item: V)
    | TailRead(item: V, tail: nat)
    | StampRead(item: V, tail: nat, stamp: nat, wasFull: bool)
    | Claimed(item: V, tail: nat)
    | Stored(item: V, tail: nat)

  /** Where the consumer stands inside one pop. */
  datatype Consumer<V> =
    | Resting
    | HeadRead(head: nat)
    | Ready(head: nat)
    | Taken(head: nat, item: V)
    | Released(head: nat, item: V)

  datatype State<V> = State(
    cap: nat,
    slots: seq<Slot<V>>,
    tail: nat,
    head: nat,
    producers: seq<Producer<V>>,
    consumer: Consumer<V>,
    tickets: seq<V>,
    popped: seq<V>)

  datatype Step<V> =
    | Begin(p: nat, item: V)
    | LoadTail(p: nat)
    | LoadStamp(p: nat)
    | CasWins(p: nat)
    | CasLoses(p: nat)
    | Retry(p: nat)
    | ReturnFull(p: nat)
    | StoreItem(p: nat)
    | StoreStamp(p: nat)
    | LoadHead
    | CheckStamp
    | ReturnNull
    | LoadItem
    | FreeSlot
    | StoreHead

  lemma Pow2Monotone(m: nat, n: nat)
    requires m <= n
    ensures Pow2(m) <= Pow2(n)
  {}

  /** The ring after initialisation: slot i carries stamp i. */
  ghost predicate Initial<V>(s: State<V>) {
    && 2 <= s.cap == |s.slots|
    && s.tail == 0 && s.head == 0
    && (forall i :: 0 <= i < s.cap ==> s.slots[i].stamp == i)
    && (forall p :: 0 <= p < |s.producers| ==> s.producers[p] == Idle)
    && s.consumer == Resting
    && s.tickets == [] && s.popped == []
  }

  /** The capacity is a power of two and at least 16, whatever power was asked for. */
  method Init<V>(power: nat) returns (slots: seq<Slot<V>>)
    ensures |slots| == Pow2(Max(power, 4)) >= 16
    ensures forall i :: 0 <= i < |slots| ==> slots[i] == Slot(i, None)
  {
    var p := power;
    if p < 4 {
      p := 4;
    }
    var cap := Pow2(p);
    Pow2Monotone(4, p);
    slots := [];
    for i := 0 to cap
      invariant |slots| == i
      invariant forall k :: 0 <= k < i ==> slots[k] == Slot(k, None)
    {
      slots := slots + [Slot(i, None)];
    }
  }

  /** Positions given back by the consumer: it frees a slot before it stores head. */
  function Consumed<V>(s: State<V>): nat {
    if s.consumer.Released? then s.head + 1 else s.head
  }

  /** The items that were accepted and not yet taken, oldest first. */
  function Queue<V>(s: State<V>): seq<V>
    requires Consumed(s) <= |s.tickets|
  {
    s.tickets[Consumed(s)..]
  }

  predicate IsFull<V>(s: State<V>) {
    s.tail == Consumed(s) + s.cap
  }

  predicate Owns<V>(pr: Producer<V>, u: nat) {
    (pr.Claimed? || pr.Stored?) && pr.tail == u
  }

  predicate Published<V>(s: State<V>, u: nat)
    requires 0 < s.cap == |s.slots|
  {
    s.slots[u % s.cap].stamp == u + 1
  }

  predicate Enabled<V>(s: State<V>, e: Step<V>)
    requires 0 < s.cap == |s.slots|
  {
    match e
    case Begin(p, _) => p < |s.producers| && s.producers[p].Idle?
    case LoadTail(p) => p < |s.producers| && s.producers[p].Started?
    case LoadStamp(p) => p < |s.producers| && s.producers[p].TailRead?
    case CasWins(p) =>
      p < |s.producers| && s.producers[p].StampRead?
      && s.producers[p].stamp == s.producers[p].tail && s.tail == s.producers[p].tail
    case CasLoses(p) =>
      p < |s.producers| && s.producers[p].StampRead? && s.producers[p].stamp == s.producers[p].tail
    case Retry(p) =>
      p < |s.producers| && s.producers[p].StampRead? && s.producers[p].stamp > s.producers[p].tail
    case ReturnFull(p) =>
      p < |s.producers| && s.producers[p].StampRead? && s.producers[p].stamp < s.producers[p].tail
    case StoreItem(p) => p < |s.producers| && s.producers[p].Claimed?
    case StoreStamp(p) => p < |s.producers| && s.producers[p].Stored?
    case LoadHead => s.consumer.Resting?
    case CheckStamp => s.consumer.HeadRead? && Published(s, s.consumer.head)
    case ReturnNull => s.consumer.HeadRead? && !Published(s, s.consumer.head)
    case LoadItem => s.consumer.Ready? && s.slots[s.consumer.head % s.cap].item.Some?
    case FreeSlot => s.consumer.Taken?
    case StoreHead => s.consumer.Released?
  }

  function SetProducer<V>(s: State<V>, p: nat, pr: Producer<V>): State<V>
    requires p < |s.producers|
  {
    s.(producers := s.producers[p := pr])
  }

  function Apply<V>(s: State<V>, e: Step<V>): State<V>
    requires 0 < s.cap == |s.slots|
    requires Enabled(s, e)
  {
    match e
    case Begin(p, item) => SetProducer(s, p, Started(item))
    case LoadTail(p) => SetProducer(s, p, TailRead(s.producers[p].item, s.tail))
    case LoadStamp(p) =>
      var pr := s.producers[p];
      SetProducer(s, p, StampRead(pr.item, pr.tail, s.slots[pr.tail % s.cap].stamp, IsFull(s)))
    case CasWins(p) =>
      var pr := s.producers[p];
      SetProducer(s, p, Claimed(pr.item, pr.tail)).(tail := s.tail + 1, tickets := s.tickets + [pr.item])
    case CasLoses(p) => SetProducer(s, p, Started(s.producers[p].item))
    case Retry(p) => SetProducer(s, p, Started(s.producers[p].item))
    case ReturnFull(p) => SetProducer(s, p, Idle)
    case StoreItem(p) =>
      var pr := s.producers[p];
      var i := pr.tail % s.cap;
      SetProducer(s, p, Stored(pr.item, pr.tail)).(slots := s.slots[i := s.slots[i].(item := Some(pr.item))])
    case StoreStamp(p) =>
      var pr := s.producers[p];
      var i := pr.tail % s.cap;
      SetProducer(s, p, Idle).(slots := s.slots[i := s.slots[i].(stamp := pr.tail + 1)])
    case LoadHead => s.(consumer := HeadRead(s.head))
    case CheckStamp => s.(consumer := Ready(s.consumer.head))
    case ReturnNull => s.(consumer := Resting)
    case LoadItem =>
      s.(consumer := Taken(s.consumer.head, s.slots[s.consumer.head % s.cap].item.value))
    case FreeSlot =>
      var i := s.consumer.head % s.cap;
      s.(slots := s.slots[i := s.slots[i].(stamp := s.consumer.head + s.cap)],
         consumer := Released(s.consumer.head, s.consumer.item),
         popped := s.popped + [s.consumer.item])
    case StoreHead => s.(head := s.consumer.head + 1, consumer := Resting)
  }

  // ----- The invariant -----

  /** The slot of position u, for a position in the window [consumed, consumed + cap). */
  predicate SlotOk<V(==)>(s: State<V>, u: nat)
    requires 0 < s.cap == |s.slots|
    requires |s.tickets| == s.tail
  {
    var sl := s.slots[u % s.cap];
    if u < s.tail then
      (sl.stamp == u && exists p :: 0 <= p < |s.producers| && Owns(s.producers[p], u))
      || (sl.stamp == u + 1 && sl.item == Some(s.tickets[u]))
    else
      sl.stamp == u
  }

  predicate ProducerOk<V(==)>(s: State<V>, pr: Producer<V>)
    requires 0 < s.cap == |s.slots|
    requires |s.tickets| == s.tail
  {
    match pr
    case Idle => true
    case Started(_) => true
    case TailRead(_, k) => k <= s.tail
    case StampRead(_, k, q, wasFull) =>
      k <= s.tail && (q == k ==> k < Consumed(s) + s.cap) && (q < k ==> wasFull)
    case Claimed(v, k) =>
      Consumed(s) <= k < s.tail && s.tickets[k] == v && s.slots[k % s.cap].stamp == k
    case Stored(v, k) =>
      Consumed(s) <= k < s.tail && s.tickets[k] == v && s.slots[k % s.cap] == Slot(k, Some(v))
  }

  predicate ConsumerOk<V(==)>(s: State<V>)
    requires 0 < s.cap == |s.slots|
    requires |s.tickets| == s.tail
  {
    match s.consumer
    case Resting => true
    case HeadRead(h) => h == s.head
    case Ready(h) => h == s.head < s.tail && Published(s, h)
    case Taken(h, v) => h == s.head < s.tail && Published(s, h) && v == s.tickets[h]
    case Released(h, v) => h == s.head < s.tail && v == s.tickets[h]
  }

  ghost predicate Inv<V>(s: State<V>) {
    && 2 <= s.cap == |s.slots|
    && |s.tickets| == s.tail
    && Consumed(s) <= s.tail <= Consumed(s) + s.cap
    && s.popped == s.tickets[..Consumed(s)]
    && (forall u :: Consumed(s) <= u < Consumed(s) + s.cap ==> SlotOk(s, u))
    && (forall p :: 0 <= p < |s.producers| ==> ProducerOk(s, s.producers[p]))
    && (forall p, q :: 0 <= p < q < |s.producers| && (s.producers[p].Claimed? || s.producers[p].Stored?)
                       ==> !Owns(s.producers[q], s.producers[p].tail))
    && ConsumerOk(s)
  }

  lemma InitialInv<V>(s: State<V>)
    requires Initial(s)
    ensures Inv(s)
  {
    forall u | 0 <= u < s.cap
      ensures SlotOk(s, u)
    {
      assert u % s.cap == u;
    }
  }

  /** The position of the window that shares a slot with k. */
  lemma WindowPosition<V>(s: State<V>, k: nat) returns (u: nat)
    requires Inv(s)
    ensures Consumed(s) <= u < Consumed(s) + s.cap
    ensures u % s.cap == k % s.cap
  {
    var c, m := Consumed(s), s.cap;
    var d := (k % m) - (c % m);
    u := if d >= 0 then c + d else c + d + m;
    if d >= 0 {
      assert u == (c / m) * m + k % m;
      ModUnique(c / m, k % m, m, u);
    } else {
      assert u == (c / m + 1) * m + k % m by {
        assert (c / m + 1) * m == (c / m) * m + m;
      }
      ModUnique(c / m + 1, k % m, m, u);
    }
  }

  /** What a stamp says about the position read: free means inside the window, behind means full. */
  lemma StampMeaning<V>(s: State<V>, k: nat)
    requires Inv(s)
    requires k <= s.tail
    ensures s.slots[k % s.cap].stamp == k ==> k < Consumed(s) + s.cap
    ensures s.slots[k % s.cap].stamp < k ==> k == s.tail && IsFull(s)
  {
    var u := WindowPosition(s, k);
    assert SlotOk(s, u);
    var stamp := s.slots[k % s.cap].stamp;
    assert stamp == u || stamp == u + 1;
    if stamp == k && u != k {
      ModInjective(u, k, s.cap);
    }
    if stamp < k && k < Consumed(s) + s.cap {
      ModInjective(u, k, s.cap);
    }
  }

  // ----- Every step keeps the invariant -----

  /** Distinct positions of the window live in distinct slots. */
  lemma WindowDistinct<V>(s: State<V>, u: nat, v: nat)
    requires Inv(s)
    requires Consumed(s) <= u < Consumed(s) + s.cap
    requires Consumed(s) <= v < Consumed(s) + s.cap
    requires u != v
    ensures u % s.cap != v % s.cap
  {
    if u % s.cap == v % s.cap {
      ModInjective(u, v, s.cap);
    }
  }

  /** The steps that only move a producer that owns no position. */
  lemma LocalStep<V>(s: State<V>, p: nat, pr: Producer<V>)
    requires Inv(s)
    requires p < |s.producers|
    requires !s.producers[p].Claimed? && !s.producers[p].Stored?
    requires !pr.Claimed? && !pr.Stored?
    requires ProducerOk(s, pr)
    ensures Inv(SetProducer(s, p, pr))
  {
    var s' := SetProducer(s, p, pr);
    forall u | Consumed(s) <= u < Consumed(s) + s.cap
      ensures SlotOk(s', u)
    {
      assert SlotOk(s, u);
      if u < s.tail && s.slots[u % s.cap].stamp == u {
        var q :| 0 <= q < |s.producers| && Owns(s.producers[q], u);
        assert Owns(s'.producers[q], u);
      }
    }
    forall q | 0 <= q < |s'.producers|
      ensures ProducerOk(s', s'.producers[q])
    {
      assert q != p ==> ProducerOk(s, s.producers[q]);
    }
  }

  lemma CasWinsSlot<V>(s: State<V>, p: nat, u: nat)
    requires Inv(s) && Enabled(s, CasWins(p)) && Consumed(s) <= u < Consumed(s) + s.cap
    ensures SlotOk(Apply(s, CasWins(p)), u)
  {
    var s' := Apply(s, CasWins(p));
    assert SlotOk(s, u);
    if u == s.producers[p].tail {
      assert Owns(s'.producers[p], u);
    } else if u < s.tail && s.slots[u % s.cap].stamp == u {
      var q :| 0 <= q < |s.producers| && Owns(s.producers[q], u);
      assert Owns(s'.producers[q], u);
    }
  }

  lemma CasWinsInv<V>(s: State<V>, p: nat)
    requires Inv(s) && Enabled(s, CasWins(p))
    ensures Inv(Apply(s, CasWins(p)))
  {
    var s' := Apply(s, CasWins(p));
    assert ProducerOk(s, s.producers[p]);
    assert SlotOk(s, s.producers[p].tail);
    hide SlotOk, ProducerOk;
    forall u | Consumed(s') <= u < Consumed(s') + s'.cap
      ensures SlotOk(s', u)
    {
      CasWinsSlot(s, p, u);
    }
    forall q | 0 <= q < |s'.producers|
      ensures ProducerOk(s', s'.producers[q])
    {
      CasWinsProducer(s, p, q);
    }
    forall q | 0 <= q < |s.producers| && q != p
      ensures !Owns(s.producers[q], s.tail)
    {
      OwnsBelow(s, q);
    }
  }

  /** A position that is owned was handed out before. */
  lemma OwnsBelow<V>(s: State<V>, q: nat)
    requires Inv(s) && q < |s.producers|
    ensures s.producers[q].Claimed? || s.producers[q].Stored? ==> s.producers[q].tail < s.tail
  {
    assert ProducerOk(s, s.producers[q]);
  }

  lemma CasWinsProducer<V>(s: State<V>, p: nat, q: nat)
    requires Inv(s) && Enabled(s, CasWins(p)) && q < |s.producers|
    ensures ProducerOk(Apply(s, CasWins(p)), Apply(s, CasWins(p)).producers[q])
  {
    assert ProducerOk(s, s.producers[q]);
    assert ProducerOk(s, s.producers[p]);
    assert SlotOk(s, s.producers[p].tail);
  }

  lemma StoreItemSlot<V>(s: State<V>, p: nat, u: nat)
    requires Inv(s) && Enabled(s, StoreItem(p)) && Consumed(s) <= u < Consumed(s) + s.cap
    ensures SlotOk(Apply(s, StoreItem(p)), u)
  {
    var k, s' := s.producers[p].tail, Apply(s, StoreItem(p));
    assert ProducerOk(s, s.producers[p]);
    assert SlotOk(s, u);
    if u != k {
      WindowDistinct(s, u, k);
    }
    if u < s.tail && s.slots[u % s.cap].stamp == u {
      var q :| 0 <= q < |s.producers| && Owns(s.producers[q], u);
      assert Owns(s'.producers[q], u);
    }
  }

  lemma StoreItemProducer<V>(s: State<V>, p: nat, q: nat)
    requires Inv(s) && Enabled(s, StoreItem(p)) && q < |s.producers|
    ensures ProducerOk(Apply(s, StoreItem(p)), Apply(s, StoreItem(p)).producers[q])
  {
    hide SlotOk;
    assert ProducerOk(s, s.producers[p]);
    assert ProducerOk(s, s.producers[q]);
    if q != p && (s.producers[q].Claimed? || s.producers[q].Stored?) {
      WindowDistinct(s, s.producers[q].tail, s.producers[p].tail);
    }
  }

  lemma StoreItemInv<V>(s: State<V>, p: nat)
    requires Inv(s) && Enabled(s, StoreItem(p))
    ensures Inv(Apply(s, StoreItem(p)))
  {
    hide SlotOk, ProducerOk;
    var s' := Apply(s, StoreItem(p));
    forall u | Consumed(s') <= u < Consumed(s') + s'.cap
      ensures SlotOk(s', u)
    {
      StoreItemSlot(s, p, u);
    }
    forall q | 0 <= q < |s'.producers|
      ensures ProducerOk(s', s'.producers[q])
    {
      StoreItemProducer(s, p, q);
    }
    ConsumerElsewhere(s, p);
  }

  /** The consumer never works on a slot that a producer owns. */
  lemma ConsumerElsewhere<V>(s: State<V>, p: nat)
    requires Inv(s)
    requires p < |s.producers| && (s.producers[p].Claimed? || s.producers[p].Stored?)
    ensures s.consumer.Ready? || s.consumer.Taken? ==>
              s.consumer.head % s.cap != s.producers[p].tail % s.cap
  {
    assert ProducerOk(s, s.producers[p]);
    if s.consumer.Ready? || s.consumer.Taken? {
      if s.consumer.head != s.producers[p].tail {
        WindowDistinct(s, s.consumer.head, s.producers[p].tail);
      }
    }
  }

  lemma StoreStampSlot<V>(s: State<V>, p: nat, u: nat)
    requires Inv(s) && Enabled(s, StoreStamp(p)) && Consumed(s) <= u < Consumed(s) + s.cap
    ensures SlotOk(Apply(s, StoreStamp(p)), u)
  {
    var k, s' := s.producers[p].tail, Apply(s, StoreStamp(p));
    assert ProducerOk(s, s.producers[p]);
    assert SlotOk(s, u);
    if u != k {
      WindowDistinct(s, u, k);
      if u < s.tail && s.slots[u % s.cap].stamp == u {
        var q :| 0 <= q < |s.producers| && Owns(s.producers[q], u);
        assert Owns(s'.producers[q], u);
      }
    }
  }

  lemma StoreStampProducer<V>(s: State<V>, p: nat, q: nat)
    requires Inv(s) && Enabled(s, StoreStamp(p)) && q < |s.producers|
    ensures ProducerOk(Apply(s, StoreStamp(p)), Apply(s, StoreStamp(p)).producers[q])
  {
    hide SlotOk;
    assert ProducerOk(s, s.producers[p]);
    assert ProducerOk(s, s.producers[q]);
    if q != p && (s.producers[q].Claimed? || s.producers[q].Stored?) {
      WindowDistinct(s, s.producers[q].tail, s.producers[p].tail);
    }
  }

  lemma StoreStampInv<V>(s: State<V>, p: nat)
    requires Inv(s) && Enabled(s, StoreStamp(p))
    ensures Inv(Apply(s, StoreStamp(p)))
  {
    hide SlotOk, ProducerOk;
    var s' := Apply(s, StoreStamp(p));
    forall u | Consumed(s') <= u < Consumed(s') + s'.cap
      ensures SlotOk(s', u)
    {
      StoreStampSlot(s, p, u);
    }
    forall q | 0 <= q < |s'.producers|
      ensures ProducerOk(s', s'.producers[q])
    {
      StoreStampProducer(s, p, q);
    }
    ConsumerElsewhere(s, p);
  }

  lemma ConsumerInv<V>(s: State<V>, e: Step<V>)
    requires e.LoadHead? || e.CheckStamp? || e.ReturnNull? || e.LoadItem? || e.StoreHead?
    requires Inv(s) && Enabled(s, e)
    ensures Inv(Apply(s, e))
  {
    var s' := Apply(s, e);
    assert Consumed(s') == Consumed(s);
    forall u | Consumed(s') <= u < Consumed(s') + s'.cap
      ensures SlotOk(s', u)
    {
      assert SlotOk(s, u);
    }
    if !s.consumer.Released? {
      assert SlotOk(s, s.head);
    }
    forall q | 0 <= q < |s'.producers|
      ensures ProducerOk(s', s'.producers[q])
    {
      assert ProducerOk(s, s.producers[q]);
    }
  }

  lemma FreeSlotInv<V>(s: State<V>)
    requires Inv(s) && Enabled(s, FreeSlot)
    ensures Inv(Apply(s, FreeSlot))
  {
    var h := s.consumer.head;
    var s' := Apply(s, FreeSlot);
    assert SlotOk(s, h);
    forall u | Consumed(s') <= u < Consumed(s') + s'.cap
      ensures SlotOk(s', u)
    {
      if u == h + s.cap {
        ModShift(h, s.cap);
      } else {
        assert SlotOk(s, u);
        WindowDistinct(s, u, h);
        if u < s.tail && s.slots[u % s.cap].stamp == u {
          var q :| 0 <= q < |s.producers| && Owns(s.producers[q], u);
          assert Owns(s'.producers[q], u);
        }
      }
    }
    forall q | 0 <= q < |s'.producers|
      ensures ProducerOk(s', s'.producers[q])
    {
      var pr := s.producers[q];
      assert ProducerOk(s, pr);
      if pr.Claimed? || pr.Stored? {
        ConsumerElsewhere(s, q);
      }
    }
  }

  lemma StepInv<V>(s: State<V>, e: Step<V>)
    requires Inv(s) && Enabled(s, e)
    ensures Inv(Apply(s, e))
  {
    match e
    case Begin(p, item) => LocalStep(s, p, Started(item));
    case LoadTail(p) => LocalStep(s, p, TailRead(s.producers[p].item, s.tail));
    case LoadStamp(p) =>
      var pr := s.producers[p];
      assert ProducerOk(s, pr);
      StampMeaning(s, pr.tail);
      LocalStep(s, p, StampRead(pr.item, pr.tail, s.slots[pr.tail % s.cap].stamp, IsFull(s)));
    case CasWins(p) => CasWinsInv(s, p);
    case CasLoses(p) => LocalStep(s, p, Started(s.producers[p].item));
    case Retry(p) => LocalStep(s, p, Started(s.producers[p].item));
    case ReturnFull(p) => LocalStep(s, p, Idle);
    case StoreItem(p) => StoreItemInv(s, p);
    case StoreStamp(p) => StoreStampInv(s, p);
    case FreeSlot => FreeSlotInv(s);
    case _ => ConsumerInv(s, e);
  }

  // ----- Whole executions -----

  ghost predicate Execution<V>(states: seq<State<V>>, steps: seq<Step<V>>) {
    && |states| == |steps| + 1
    && Initial(states[0])
    && (forall i :: 0 <= i < |states| ==> 0 < states[i].cap == |states[i].slots|)
    && (forall i :: 0 <= i < |steps| ==> Enabled(states[i], steps[i]) && states[i + 1] == Apply(states[i], steps[i]))
  }

  lemma {:induction false} ExecutionInv<V>(states: seq<State<V>>, steps: seq<Step<V>>, n: nat)
    requires Execution(states, steps)
    requires n < |states|
    ensures Inv(states[n])
  {
    if n == 0 {
      InitialInv(states[0]);
    } else {
      ExecutionInv(states, steps, n - 1);
      StepInv(states[n - 1], steps[n - 1]);
    }
  }

  lemma HistoryGrows<V>(s: State<V>, e: Step<V>)
    requires Inv(s) && Enabled(s, e)
    ensures s.tickets <= Apply(s, e).tickets
    ensures s.popped <= Apply(s, e).popped
  {}

  /**
  FIFO over any interleaving: what was popped is a prefix of what was accepted, in ticket
  order, and accepted items are only ever appended; so nothing is lost, duplicated or
  reordered.
  */
  lemma {:induction false} PoppedIsPrefix<V>(states: seq<State<V>>, steps: seq<Step<V>>, m: nat, n: nat)
    requires Execution(states, steps)
    requires m <= n < |states|
    ensures states[n].popped <= states[n].tickets
    ensures states[m].tickets <= states[n].tickets
    ensures states[m].popped <= states[n].popped
    ensures |states[n].tickets| - |states[n].popped| <= states[n].cap
    decreases n
  {
    ExecutionInv(states, steps, n);
    HistoryFacts(states[n]);
    hide Inv, Apply, Enabled;
    if m < n {
      PoppedIsPrefix(states, steps, m, n - 1);
      ExecutionInv(states, steps, n - 1);
      HistoryGrows(states[n - 1], steps[n - 1]);
    }
  }

  lemma HistoryFacts<V>(s: State<V>)
    requires Inv(s)
    ensures s.popped <= s.tickets && |s.tickets| - |s.popped| <= s.cap
  {}

  /**
  The ring refines a FIFO queue: the winning compare-and-swap is the enqueue, the store that
  frees a slot is the dequeue of the oldest item, and every other step leaves the queue alone.
  */
  lemma RefinesQueue<V>(s: State<V>, e: Step<V>)
    requires Inv(s) && Enabled(s, e)
    ensures Inv(Apply(s, e))
    ensures match e
            case CasWins(p) => Queue(Apply(s, e)) == Queue(s) + [s.producers[p].item]
            case FreeSlot => Queue(s) == [s.consumer.item] + Queue(Apply(s, e))
            case _ => Queue(Apply(s, e)) == Queue(s)
  {
    StepInv(s, e);
    QueueFacts(s);
    QueueFacts(Apply(s, e));
    hide Inv;
    QueueStep(s, e);
  }

  /** What the invariant says about the queue and the consumer. */
  lemma QueueFacts<V>(s: State<V>)
    requires Inv(s)
    ensures 0 < s.cap == |s.slots| && Consumed(s) <= |s.tickets|
    ensures s.consumer.Taken? || s.consumer.Released? ==> s.consumer.head == s.head
    ensures s.consumer.Taken? ==> s.head < |s.tickets| && s.tickets[s.head] == s.consumer.item
  {}

  lemma QueueStep<V>(s: State<V>, e: Step<V>)
    requires 0 < s.cap == |s.slots| && Enabled(s, e) && Consumed(s) <= |s.tickets|
    requires s.consumer.Taken? || s.consumer.Released? ==> s.consumer.head == s.head
    requires s.consumer.Taken? ==> s.head < |s.tickets| && s.tickets[s.head] == s.consumer.item
    requires Consumed(Apply(s, e)) <= |Apply(s, e).tickets|
    ensures match e
            case CasWins(p) => Queue(Apply(s, e)) == Queue(s) + [s.producers[p].item]
            case FreeSlot => Queue(s) == [s.consumer.item] + Queue(Apply(s, e))
            case _ => Queue(Apply(s, e)) == Queue(s)
  {}

  // ----- One push, from its beginning to its end -----

  predicate Moves<V>(e: Step<V>, p: nat) {
    match e
    case Begin(q, _) => q == p
    case LoadTail(q) => q == p
    case LoadStamp(q) => q == p
    case CasWins(q) => q == p
    case CasLoses(q) => q == p
    case Retry(q) => q == p
    case ReturnFull(q) => q == p
    case StoreItem(q) => q == p
    case StoreStamp(q) => q == p
    case _ => false
  }

  /** Producer p is inside the push of v that it began with step i. */
  ghost predicate Pushing<V(!new)>(states: seq<State<V>>, steps: seq<Step<V>>, i: nat, n: nat, p: nat, v: V) {
    && Execution(states, steps) && i < n < |states| && steps[i] == Begin(p, v)
    && forall m :: i < m <= n ==> p < |states[m].producers| && !states[m].producers[p].Idle?
  }

  /** How often producer p wins the tail in the steps from i on and before n. */
  function Wins<V(==)>(steps: seq<Step<V>>, i: nat, n: nat, p: nat): nat
    requires i <= n <= |steps|
  {
    if i == n then 0 else Wins(steps, i, n - 1, p) + if steps[n - 1] == CasWins(p) then 1 else 0
  }

  /** Step w gave the item of producer p the next position. */
  ghost predicate Accepts<V>(states: seq<State<V>>, steps: seq<Step<V>>, w: nat, p: nat, v: V)
    requires |states| == |steps| + 1
  {
    w < |steps| && steps[w] == CasWins(p) && states[w + 1].tickets == states[w].tickets + [v]
  }

  /** What a step does to a producer inside a push: it keeps its item until it returns. */
  lemma PushStep<V>(s: State<V>, e: Step<V>, p: nat)
    requires 0 < s.cap == |s.slots| && Enabled(s, e) && p < |s.producers| && !s.producers[p].Idle?
    ensures var pr, pr' := s.producers[p], Apply(s, e).producers[p];
            && |Apply(s, e).producers| == |s.producers|
            && (!Moves(e, p) ==> pr' == pr)
            && (pr'.Idle? <==> e == ReturnFull(p) || e == StoreStamp(p))
            && (e == ReturnFull(p) ==> pr.StampRead?) && (e == StoreStamp(p) ==> pr.Stored?)
            && (!pr'.Idle? ==> pr'.item == pr.item)
            && (e == CasWins(p) ==> pr.StampRead? && pr'.Claimed? && Apply(s, e).tickets == s.tickets + [pr.item])
            && (e != CasWins(p) && !pr'.Idle? ==> (pr'.Claimed? || pr'.Stored? <==> pr.Claimed? || pr.Stored?))
  {}

  /** The push of v goes on with v; it owns a position once it has won the tail, which happens at most once. */
  lemma {:induction false} PushKeeps<V(!new)>(states: seq<State<V>>, steps: seq<Step<V>>, i: nat, n: nat, p: nat, v: V) returns (w: nat)
    requires Pushing(states, steps, i, n, p, v)
    ensures var pr := states[n].producers[p];
            && pr.item == v && Wins(steps, i, n, p) == (if pr.Claimed? || pr.Stored? then 1 else 0)
            && (pr.Claimed? || pr.Stored? ==> i < w < n && Accepts(states, steps, w, p, v))
    decreases n
  {
    hide Apply, Enabled, Initial, Accepts;
    w := 0;
    if n == i + 1 {
      BeginStep(states[i], p, v);
      assert Wins(steps, i, i, p) == 0;
    } else {
      w := PushKeeps(states, steps, i, n - 1, p, v);
      PushStep(states[n - 1], steps[n - 1], p);
      if steps[n - 1] == CasWins(p) {
        AcceptStep(states, steps, n - 1, p);
        w := n - 1;
      }
    }
  }

  lemma AcceptStep<V>(states: seq<State<V>>, steps: seq<Step<V>>, w: nat, p: nat)
    requires Execution(states, steps) && w < |steps| && steps[w] == CasWins(p)
    ensures p < |states[w].producers| && states[w].producers[p].StampRead?
    ensures Accepts(states, steps, w, p, states[w].producers[p].item)
  {}

  lemma BeginStep<V>(s: State<V>, p: nat, v: V)
    requires 0 < s.cap == |s.slots| && Enabled(s, Begin(p, v))
    ensures Apply(s, Begin(p, v)).producers[p] == Started(v)
  {}

  /**
  Every push that returns was accepted once or reports full: a producer that began to push v is
  idle again only after it found the ring full and its item got no position, or after v was given
  exactly one position and is published.
  */
  lemma PushReturns<V(!new)>(states: seq<State<V>>, steps: seq<Step<V>>, i: nat, n: nat, p: nat, v: V) returns (w: nat)
    requires Pushing(states, steps, i, n, p, v) && n < |steps| && p < |states[n + 1].producers| && states[n + 1].producers[p].Idle?
    ensures || (steps[n] == ReturnFull(p) && Wins(steps, i, n, p) == 0)
            || (steps[n] == StoreStamp(p) && Wins(steps, i, n, p) == 1 && i < w < n && Accepts(states, steps, w, p, v))
  {
    w := PushKeeps(states, steps, i, n, p, v);
    hide Apply, Enabled, Initial;
    PushStep(states[n], steps[n], p);
  }

  /** Nobody has to wait inside a push: a producer always has a step of its own, and only one but for the swap. */
  lemma NeverStuck<V>(s: State<V>, p: nat) returns (e: Step<V>)
    requires 0 < s.cap == |s.slots| && p < |s.producers| && !s.producers[p].Idle?
    ensures Enabled(s, e) && Moves(e, p)
    ensures forall e' :: Enabled(s, e') && Moves(e', p) ==> e' == e || (e == CasLoses(p) && e' == CasWins(p))
  {
    match s.producers[p]
    case Started(_) => e := LoadTail(p);
    case TailRead(_, _) => e := LoadStamp(p);
    case StampRead(_, k, q, _) => e := if q == k then CasLoses(p) else if q > k then Retry(p) else ReturnFull(p);
    case Claimed(_, _) => e := StoreItem(p);
    case Stored(_, _) => e := StoreStamp(p);
  }

  /**
  A producer that runs alone gets its item in or finds the ring full: from the beginning of its
  loop it takes three steps to report full, if every slot is taken, and otherwise five to publish
  its item behind all others.
  */
  lemma PushAlone<V>(s: State<V>, p: nat, v: V)
    requires Inv(s) && p < |s.producers| && s.producers[p] == Started(v)
    ensures Enabled(s, LoadTail(p))
    ensures var s1 := Apply(s, LoadTail(p));
            && Enabled(s1, LoadStamp(p))
            && var s2 := Apply(s1, LoadStamp(p));
            && (IsFull(s) ==> Enabled(s2, ReturnFull(p)) && Apply(s2, ReturnFull(p)) == SetProducer(s, p, Idle))
            && (!IsFull(s) ==>
                  && Enabled(s2, CasWins(p))
                  && var s3 := Apply(s2, CasWins(p));
                  && Enabled(s3, StoreItem(p))
                  && var s4 := Apply(s3, StoreItem(p));
                  && Enabled(s4, StoreStamp(p))
                  && Apply(s4, StoreStamp(p)) ==
                     SetProducer(s, p, Idle).(tail := s.tail + 1, tickets := s.tickets + [v],
                                              slots := s.slots[s.tail % s.cap := Slot(s.tail + 1, Some(v))]))
  {
    TailStamp(s);
    hide Inv, SlotOk, ProducerOk, ConsumerOk, Owns, Published;
    var s1 := Apply(s, LoadTail(p));
    var s2 := Apply(s1, LoadStamp(p));
    if IsFull(s) {
      assert Apply(s2, ReturnFull(p)).producers == s.producers[p := Idle];
    } else {
      var s3 := Apply(s2, CasWins(p));
      var s4 := Apply(s3, StoreItem(p));
      assert Apply(s4, StoreStamp(p)).producers == s.producers[p := Idle];
      assert Apply(s4, StoreStamp(p)).slots == s.slots[s.tail % s.cap := Slot(s.tail + 1, Some(v))];
    }
  }

  /** What the stamp at the tail says. */
  lemma TailStamp<V>(s: State<V>)
    requires Inv(s)
    ensures 0 < s.cap == |s.slots|
    ensures if IsFull(s) then s.slots[s.tail % s.cap].stamp < s.tail else s.slots[s.tail % s.cap].stamp == s.tail
  {
    if IsFull(s) {
      ModShift(Consumed(s), s.cap);
      assert SlotOk(s, Consumed(s));
    } else {
      assert SlotOk(s, s.tail);
    }
  }

  /** A consumer that runs alone takes the oldest item if its position is published, and nothing otherwise. */
  lemma PopAlone<V>(s: State<V>)
    requires Inv(s) && s.consumer == Resting
    ensures Enabled(s, LoadHead)
    ensures var s1 := Apply(s, LoadHead);
            && (!Published(s, s.head) ==> Enabled(s1, ReturnNull) && Apply(s1, ReturnNull) == s)
            && (Published(s, s.head) ==>
                  && s.head < |s.tickets| && Enabled(s1, CheckStamp)
                  && var s2 := Apply(s1, CheckStamp);
                  && Enabled(s2, LoadItem)
                  && var s3 := Apply(s2, LoadItem);
                  && Enabled(s3, FreeSlot)
                  && var s4 := Apply(s3, FreeSlot);
                  && Enabled(s4, StoreHead)
                  && var s5 := Apply(s4, StoreHead);
                  && s5.consumer == Resting && s5.head == s.head + 1 && s5.popped == s.popped + [s.tickets[s.head]]
                  && s5.slots == s.slots[s.head % s.cap := Slot(s.head + s.cap, s.slots[s.head % s.cap].item)])
  {
    assert SlotOk(s, s.head);
    hide Inv, SlotOk, ProducerOk, ConsumerOk, Owns;
  }

  /** The consumer is inside the pop that it began with step i. */
  ghost predicate Popping<V(!new)>(states: seq<State<V>>, steps: seq<Step<V>>, i: nat, n: nat) {
    && Execution(states, steps) && i < n < |states| && steps[i] == LoadHead
    && forall m :: i < m <= n ==> !states[m].consumer.Resting?
  }

  /** What a step does to a consumer inside a pop. */
  lemma PopStep<V>(s: State<V>, e: Step<V>)
    requires 0 < s.cap == |s.slots| && Enabled(s, e) && !s.consumer.Resting?
    ensures var c, c', s' := s.consumer, Apply(s, e).consumer, Apply(s, e);
            && (c'.Resting? <==> e == ReturnNull || e == StoreHead)
            && (e == ReturnNull ==> c.HeadRead? && !Published(s, c.head)) && (e == StoreHead ==> c.Released?)
            && (e == CheckStamp ==> c.HeadRead? && c'.Ready?)
            && (e == LoadItem ==> c.Ready? && c'.Taken?)
            && (e == FreeSlot ==> c.Taken? && c' == Released(c.head, c.item) && s'.popped == s.popped + [c.item])
            && (e != FreeSlot ==> s'.popped == s.popped)
            && (e != CheckStamp && e != LoadItem && e != FreeSlot && !c'.Resting? ==> c' == c)
  {}

  /** Inside a pop nothing is taken until the slot is given back, and then exactly the item that it will return. */
  lemma {:induction false} PopKeeps<V(!new)>(states: seq<State<V>>, steps: seq<Step<V>>, i: nat, n: nat)
    requires Popping(states, steps, i, n)
    ensures states[n].popped == if states[n].consumer.Released? then states[i].popped + [states[n].consumer.item] else states[i].popped
    decreases n
  {
    hide Apply, Enabled, Initial;
    if n == i + 1 {
      LoadHeadStep(states[i]);
    } else {
      PopKeeps(states, steps, i, n - 1);
      PopStep(states[n - 1], steps[n - 1]);
    }
  }

  lemma LoadHeadStep<V>(s: State<V>)
    requires 0 < s.cap == |s.slots| && Enabled(s, LoadHead)
    ensures Apply(s, LoadHead).popped == s.popped && Apply(s, LoadHead).consumer.HeadRead?
  {}

  /**
  Every pop that returns took nothing and found the head unpublished, or took exactly the one item
  that it returns, which is the oldest accepted and not yet taken.
  */
  lemma PopReturns<V(!new)>(states: seq<State<V>>, steps: seq<Step<V>>, i: nat, n: nat)
    requires Popping(states, steps, i, n) && n < |steps| && states[n + 1].consumer.Resting?
    ensures || (steps[n] == ReturnNull && states[n + 1].popped == states[i].popped)
            || (&& steps[n] == StoreHead && states[n].consumer.Released?
                && states[n + 1].popped == states[i].popped + [states[n].consumer.item]
                && |states[i].popped| < |states[n].tickets| && states[n].consumer.item == states[n].tickets[|states[i].popped|])
  {
    PopKeeps(states, steps, i, n);
    ExecutionInv(states, steps, n);
    HistoryFacts(states[n]);
    hide Apply, Enabled, Initial, Inv;
    PopStep(states[n], steps[n]);
  }

  predicate Pops<V>(e: Step<V>) {
    e.LoadHead? || e.CheckStamp? || e.ReturnNull? || e.LoadItem? || e.FreeSlot? || e.StoreHead?
  }

  /** Nor does the consumer. */
  lemma PopNeverStuck<V>(s: State<V>) returns (e: Step<V>)
    requires Inv(s) && !s.consumer.Resting?
    ensures Enabled(s, e) && Pops(e)
    ensures forall e' :: Enabled(s, e') && Pops(e') ==> e' == e
  {
    match s.consumer
    case HeadRead(h) => e := if Published(s, h) then CheckStamp else ReturnNull;
    case Ready(h) =>
      assert SlotOk(s, h);
      e := LoadItem;
    case Taken(_, _) => e := FreeSlot;
    case Released(_, _) => e := StoreHead;
  }

  /** A push reports full only if every slot was taken when it read the stamp. */
  lemma FullMeansFull<V>(states: seq<State<V>>, steps: seq<Step<V>>, n: nat)
    requires Execution(states, steps)
    requires n < |steps| && steps[n].ReturnFull?
    ensures exists i :: 0 <= i < n && steps[i] == LoadStamp(steps[n].p) && IsFull(states[i])
                        && (forall j :: i < j < n ==> !Moves(steps[j], steps[n].p))
  {
    var p := steps[n].p;
    ExecutionInv(states, steps, n);
    assert ProducerOk(states[n], states[n].producers[p]);
    var i := StampReadSince(states, steps, n, p);
  }

  /** The step that put producer p into its current StampRead state. */
  lemma {:induction false} StampReadSince<V>(states: seq<State<V>>, steps: seq<Step<V>>, n: nat, p: nat) returns (i: nat)
    requires Execution(states, steps)
    requires n < |states| && p < |states[n].producers| && states[n].producers[p].StampRead?
    ensures i < n && steps[i] == LoadStamp(p)
    ensures IsFull(states[i]) == states[n].producers[p].wasFull
    ensures forall j :: i < j < n ==> !Moves(steps[j], p)
  {
    assert n > 0;
    hide Apply, Enabled;
    StampStep(states[n - 1], steps[n - 1], p);
    if Moves(steps[n - 1], p) {
      i := n - 1;
    } else {
      i := StampReadSince(states, steps, n - 1, p);
    }
  }

  /** Only reading the stamp puts a producer into that state. */
  lemma StampStep<V>(s: State<V>, e: Step<V>, p: nat)
    requires 0 < s.cap == |s.slots| && Enabled(s, e)
    requires p < |Apply(s, e).producers| && Apply(s, e).producers[p].StampRead?
    ensures p < |s.producers|
    ensures Moves(e, p) ==> e == LoadStamp(p) && Apply(s, e).producers[p].wasFull == IsFull(s)
    ensures !Moves(e, p) ==> s.producers[p] == Apply(s, e).producers[p]
  {}

  /** Storing an item touches no slot that still holds an unconsumed item of another position. */
  lemma NoOverwrite<V>(s: State<V>, p: nat, u: nat)
    requires Inv(s) && Enabled(s, StoreItem(p))
    requires Consumed(s) <= u < s.tail && u != s.producers[p].tail
    ensures Apply(s, StoreItem(p)).slots[u % s.cap] == s.slots[u % s.cap]
  {
    assert ProducerOk(s, s.producers[p]);
    WindowDistinct(s, u, s.producers[p].tail);
  }

  /**
  A pop that looks at the head finds an item exactly when the oldest position is published.
  In particular it succeeds on every non-empty ring in which no push is half done.
  */
  lemma PopFindsPublished<V>(s: State<V>)
    requires Inv(s) && s.consumer.HeadRead?
    ensures Enabled(s, CheckStamp) <==>
              Queue(s) != [] && !(exists p :: 0 <= p < |s.producers| && Owns(s.producers[p], s.head))
  {
    assert SlotOk(s, s.head);
    if Published(s, s.head) && exists p :: 0 <= p < |s.producers| && Owns(s.producers[p], s.head) {
      var p :| 0 <= p < |s.producers| && Owns(s.producers[p], s.head);
      assert ProducerOk(s, s.producers[p]);
    }
  }

  ghost predicate EndsIn<V>(states: seq<State<V>>, steps: seq<Step<V>>, s: State<V>) {
    Execution(states, steps) && states[|steps|] == s
  }

  lemma EndInv<V>(states: seq<State<V>>, steps: seq<Step<V>>, s: State<V>)
    requires EndsIn(states, steps, s)
    ensures Inv(s)
  {
    ExecutionInv(states, steps, |steps|);
  }

  lemma Extend<V>(states: seq<State<V>>, steps: seq<Step<V>>, s: State<V>, e: Step<V>)
    requires EndsIn(states, steps, s)
    requires 0 < s.cap == |s.slots| && Enabled(s, e)
    ensures EndsIn(states + [Apply(s, e)], steps + [e], Apply(s, e))
  {
    ExecutionInv(states, steps, |steps|);
    StepInv(s, e);
  }

  lemma Claim<V>(states: seq<State<V>>, steps: seq<Step<V>>, s: State<V>, p: nat, v: V)
    returns (states': seq<State<V>>, steps': seq<Step<V>>)
    requires EndsIn(states, steps, s)
    requires p < |s.producers| && s.producers[p] == Idle
    requires Inv(s) && s.slots[s.tail % s.cap].stamp == s.tail
    ensures EndsIn(states', steps',
                   SetProducer(s, p, Claimed(v, s.tail)).(tail := s.tail + 1, tickets := s.tickets + [v]))
  {
    var s1 := SetProducer(s, p, Started(v));
    var s2 := SetProducer(s, p, TailRead(v, s.tail));
    var s3 := SetProducer(s, p, StampRead(v, s.tail, s.tail, IsFull(s)));
    var s4 := SetProducer(s, p, Claimed(v, s.tail)).(tail := s.tail + 1, tickets := s.tickets + [v]);
    hide EndsIn;
    Extend(states, steps, s, Begin(p, v));
    assert Apply(s1, LoadTail(p)) == s2;
    Extend(states + [s1], steps + [Begin(p, v)], s1, LoadTail(p));
    assert Apply(s2, LoadStamp(p)) == s3;
    Extend(states + [s1] + [s2], steps + [Begin(p, v)] + [LoadTail(p)], s2, LoadStamp(p));
    assert Apply(s3, CasWins(p)) == s4;
    steps' := steps + [Begin(p, v)] + [LoadTail(p)] + [LoadStamp(p)];
    states' := states + [s1] + [s2] + [s3];
    Extend(states', steps', s3, CasWins(p));
    states', steps' := states' + [s4], steps' + [CasWins(p)];
  }

  lemma Finish<V>(states: seq<State<V>>, steps: seq<Step<V>>, s: State<V>, p: nat, v: V, k: nat)
    returns (states': seq<State<V>>, steps': seq<Step<V>>)
    requires EndsIn(states, steps, s)
    requires Inv(s) && p < |s.producers| && s.producers[p] == Claimed(v, k)
    ensures EndsIn(states', steps',
                   SetProducer(s, p, Idle).(slots := s.slots[k % s.cap := Slot(k + 1, Some(v))]))
  {
    var s1 := Apply(s, StoreItem(p));
    var s2 := SetProducer(s, p, Idle).(slots := s.slots[k % s.cap := Slot(k + 1, Some(v))]);
    Extend(states, steps, s, StoreItem(p));
    assert Apply(s1, StoreStamp(p)) == s2;
    Extend(states + [s1], steps + [StoreItem(p)], s1, StoreStamp(p));
    states', steps' := states + [s1] + [s2], steps + [StoreItem(p)] + [StoreStamp(p)];
  }

  /**
  A null pop does not mean an empty ring: a push that completed is invisible while an
  earlier position is claimed and not yet published.
  */
  lemma NullDespiteCompletedPush<V>(a: V, b: V) returns (states: seq<State<V>>, steps: seq<Step<V>>, s: State<V>)
    ensures EndsIn(states, steps, s)
    ensures s.cap == 16 == |s.slots| && Enabled(s, ReturnNull)
    ensures s.producers == [Claimed(a, 0), Idle]
    ensures s.tickets == [a, b] && s.popped == []
  {
    var slots: seq<Slot<V>> := seq(16, i requires 0 <= i < 16 => Slot(i, None));
    var s0: State<V> := State(16, slots, 0, 0, [Idle, Idle], Resting, [], []);
    assert EndsIn([s0], [], s0);
    InitialInv(s0);
    states, steps := Claim([s0], [], s0, 0, a);
    var s1 := State(16, slots, 1, 0, [Claimed(a, 0), Idle], Resting, [a], []);
    assert EndsIn(states, steps, s1);
    states, steps, s := NullSecond(states, steps, s1, a, b);
  }

  lemma NullSecond<V>(states0: seq<State<V>>, steps0: seq<Step<V>>, s1: State<V>, a: V, b: V)
    returns (states: seq<State<V>>, steps: seq<Step<V>>, s: State<V>)
    requires EndsIn(states0, steps0, s1)
    requires 2 <= s1.cap == |s1.slots| && s1.slots[0].stamp == 0 && s1.slots[1].stamp == 1
    requires s1 == State(s1.cap, s1.slots, 1, 0, [Claimed(a, 0), Idle], Resting, [a], [])
    ensures EndsIn(states, steps, s)
    ensures s.cap == s1.cap == |s.slots| && Enabled(s, ReturnNull)
    ensures s.producers == [Claimed(a, 0), Idle]
    ensures s.tickets == [a, b] && s.popped == []
  {
    hide EndsIn;
    EndInv(states0, steps0, s1);
    states, steps := Claim(states0, steps0, s1, 1, b);
    var s2 := State(s1.cap, s1.slots, 2, 0, [Claimed(a, 0), Claimed(b, 1)], Resting, [a, b], []);
    assert s2 == SetProducer(s1, 1, Claimed(b, s1.tail)).(tail := s1.tail + 1, tickets := s1.tickets + [b]);
    EndInv(states, steps, s2);
    states, steps := Finish(states, steps, s2, 1, b, 1);
    var s3 := s2.(producers := [Claimed(a, 0), Idle], slots := s1.slots[1 := Slot(2, Some(b))]);
    ModUnique(0, 1, s2.cap, 1);
    assert s3 == SetProducer(s2, 1, Idle).(slots := s2.slots[1 % s2.cap := Slot(1 + 1, Some(b))]);
    s := s3.(consumer := HeadRead(0));
    assert Apply(s3, LoadHead) == s;
    Extend(states, steps, s3, LoadHead);
    states, steps := states + [s], steps + [LoadHead];
  }
}
