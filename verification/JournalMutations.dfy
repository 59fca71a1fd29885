/**
How an index mutation becomes a journal record and what replay makes of the record again:
the record lengths of a uniform shape are stored once and expanded on replay.
*/
module JournalMutations {
  import opened Common
  import opened Fields
  import opened Leaves
  import opened PageLog
  import opened JournalRecord
  import Journal
  import M = Mutations

  predicate AllEqual(lens: seq<nat>) {
    forall i :: 0 <= i < |lens| ==> lens[i] == lens[0]
  }

  const STRIPE_BIT: nat := 2
  const HOT_BITS: nat := 5
  const SLOT1_BIT: nat := 512

  /** Bits of the flags: of a hot put, of a slice, of the second replica, and of a uniform shape. */
  function FlagsOf(m: M.Mut, hot: bool, uniform: bool): nat
    requires m.Put?
  {
    (if m.striped then STRIPE_BIT else if hot then HOT_BITS else 0)
    + (if m.slot == 1 then SLOT1_BIT else 0) + if uniform then UNIFORM_BIT else 0
  }

  lemma FlagBits(m: M.Mut, hot: bool, uniform: bool)
    requires m.Put?
    ensures var f := FlagsOf(m, hot, uniform);
            && f < 65536 && (Uniform(f) <==> uniform) && (Striped(f) <==> m.striped) && (SecondSlot(f) <==> m.slot == 1)
            && (f % 2 == 1 <==> hot && !m.striped) && (f / 4 % 2 == 1 <==> hot && !m.striped)
  {}

  predicate Striped(flags: nat) {
    (flags / STRIPE_BIT) % 2 == 1
  }

  predicate SecondSlot(flags: nat) {
    (flags / SLOT1_BIT) % 2 == 1
  }

  /** The record of a part of a put; `path` is the hash path of the key. */
  function PutRec(dev: nat, m: M.Mut, path: seq<nat>, hot: bool): Rec
    requires m.Put?
  {
    var lens := if m.shape.Some? then m.shape.value else [];
    var uniform := lens != [] && AllEqual(lens);
    Rec(OP_PUT, dev, m.key.prefix, m.key.group, m.ver, m.addr.dev, m.addr.page, m.len, m.addr.len,
        m.idx, m.cnt, FlagsOf(m, hot, uniform), m.addr.expire, |lens|, m.addr.crc,
        if uniform then [lens[0]] else lens, path)
  }

  function DelRec(dev: nat, m: M.Mut): Rec
    requires m.Del?
  {
    Rec(OP_DEL, dev, m.key.prefix, m.key.group, 0, 0, 0, 0, 0, 0, 0, 0, 0, 0, 0, [], [])
  }

  /** The bytes of the records: a put of a key with at least one group takes more than a deletion. */
  lemma RecordSizes(dev: nat, m: M.Mut, path: seq<nat>, hot: bool)
    ensures m.Del? ==> Size(DelRec(dev, m)) == M.DEL_SIZE
    ensures m.Put? && path != [] ==> Size(PutRec(dev, m, path, hot)) >= M.PUT_SIZE
    ensures m.Put? && |path| == 1 && m.shape.None? ==> Size(PutRec(dev, m, path, hot)) == M.PUT_SIZE
  {}

  function ShapeOf(r: Rec): Option<seq<nat>> {
    if r.nRecs == 0 || r.lens == [] then None
    else if Uniform(r.flags) then Some(Repeat(r.lens[0], r.nRecs))
    else Some(r.lens)
  }

  /** The mutation that replay applies for a record, if it is one. */
  function Interpret(r: Rec): Option<M.Mut> {
    var k := Key(r.prefix, r.group);
    if r.op == OP_DEL then Some(M.Del(k))
    else if r.op == OP_PUT then
      Some(M.Put(k, r.ver, Addr(r.addrDev, r.addrPage, r.addrLen, 0, r.expire, r.dataCrc), if SecondSlot(r.flags) then 1 else 0,
                 Striped(r.flags), r.stripeIdx, r.stripeCnt, r.addrOff, ShapeOf(r)))
    else None
  }

  /** The record of a frozen region is nothing to the index. */
  lemma TrimIgnored(r: Rec)
    requires r.op != OP_PUT && r.op != OP_DEL
    ensures InterpretAll([r]) == []
  {
    assert [r][..0] == [];
  }

  function InterpretAll(rs: seq<Rec>): seq<M.Mut> {
    if rs == [] then []
    else InterpretAll(rs[..|rs| - 1]) + match Interpret(rs[|rs| - 1]) case Some(m) => [m] case None => []
  }

  /**
  Replay applies exactly the mutation that was journalled, except that a shape with no record
  at all comes back as no shape.
  */
  lemma PutRoundTrip(dev: nat, m: M.Mut, path: seq<nat>, hot: bool)
    requires m.Put? && m.addr.ts == 0 && m.slot < REPLICAS
    ensures Interpret(PutRec(dev, m, path, hot)) == Some(m) <==> m.shape != Some([])
    ensures m.shape == Some([]) ==> Interpret(PutRec(dev, m, path, hot)) == Some(m.(shape := None))
  {
    FlagBits(m, hot, m.shape.Some? && m.shape.value != [] && AllEqual(m.shape.value));
    hide FlagsOf, Uniform, Striped, SecondSlot;
    if m.shape.Some? && m.shape.value != [] && AllEqual(m.shape.value) {
      assert Repeat(m.shape.value[0], |m.shape.value|) == m.shape.value;
    }
  }

  lemma DelRoundTrip(dev: nat, m: M.Mut)
    requires m.Del?
    ensures Interpret(DelRec(dev, m)) == Some(m)
  {}

  /** The fields of a put fit the widths the journal gives them. */
  predicate InRange(dev: nat, m: M.Mut, path: seq<nat>, hot: bool)
    requires m.Put?
  {
    && dev < Pow256(2) && m.key.prefix < Pow256(8) && m.key.group < Pow256(4) && m.ver < Pow256(4)
    && m.addr.dev < Pow256(4) && m.addr.page < Pow256(8) && m.addr.len < Pow256(4) && m.len < Pow256(4)
    && m.idx < Pow256(4) && m.cnt < Pow256(4)
    && m.addr.expire < Pow256(4) && m.addr.crc < Pow256(4)
    && |path| <= MAX_PATH && (forall i :: 0 <= i < |path| ==> path[i] < Pow256(8))
    && (m.shape.Some? ==>
          |m.shape.value| <= MAX_RECS && forall i :: 0 <= i < |m.shape.value| ==> m.shape.value[i] < Pow256(4))
  }

  lemma FrontFits(dev: nat, m: M.Mut, path: seq<nat>, hot: bool)
    requires m.Put? && InRange(dev, m, path, hot)
    ensures Fits(FrontVals(PutRec(dev, m, path, hot)), FrontWidths())
  {
    Pow256Small();
    hide Pow256;
    var r := PutRec(dev, m, path, hot);
    PutFields(dev, m, path, hot);
    hide PutRec;
    WidthsLiteral();
    hide FrontWidths;
    var a, wa := [r.op, 0, r.dev, r.prefix, r.group, r.ver, r.addrDev], [1, 1, 2, 8, 4, 4, 4];
    var b, wb := [r.addrPage, r.addrOff, r.addrLen, r.stripeIdx, r.stripeCnt, r.flags, r.expire], [8, 4, 4, 4, 4, 4, 4];
    assert Fits(a, wa) && Fits(b, wb);
    assert FrontVals(r) == a + b && FrontWidths() == wa + wb;
    FitsBoth(a, wa, b, wb);
  }

  lemma FitsBoth(a: seq<nat>, wa: seq<nat>, b: seq<nat>, wb: seq<nat>)
    requires Fits(a, wa) && Fits(b, wb)
    ensures Fits(a + b, wa + wb)
  {
    hide Pow256;
  }

  lemma WidthsLiteral()
    ensures FrontWidths() == [1, 1, 2, 8, 4, 4, 4, 8, 4, 4, 4, 4, 4, 4]
  {}

  lemma PutFields(dev: nat, m: M.Mut, path: seq<nat>, hot: bool)
    requires m.Put? && InRange(dev, m, path, hot)
    ensures var r := PutRec(dev, m, path, hot);
            && r.op < 256 && r.dev < Pow256(2) && r.prefix < Pow256(8) && r.group < Pow256(4) && r.ver < Pow256(4)
            && r.addrDev < Pow256(4) && r.addrPage < Pow256(8) && r.addrOff < Pow256(4) && r.addrLen < Pow256(4)
            && r.stripeIdx < Pow256(4) && r.stripeCnt < Pow256(4) && r.flags < 65536 && r.expire < Pow256(4)
  {
    hide Pow256;
  }

  lemma TailFits(dev: nat, m: M.Mut, path: seq<nat>, hot: bool)
    requires m.Put? && InRange(dev, m, path, hot)
    ensures var r := PutRec(dev, m, path, hot);
            Fits(TailVals(r), TailWidths(r.op, |r.lens|, |r.path|))
  {
    hide Pow256;
  }

  /** Every put within the limits of the cache has a record that the journal accepts and reads back. */
  lemma PutRecWellFormed(dev: nat, m: M.Mut, path: seq<nat>, hot: bool)
    requires m.Put? && InRange(dev, m, path, hot)
    ensures WellFormed(PutRec(dev, m, path, hot))
  {
    hide Pow256, Fits;
    FrontFits(dev, m, path, hot);
    TailFits(dev, m, path, hot);
    var r := PutRec(dev, m, path, hot);
    FlagBits(m, hot, m.shape.Some? && m.shape.value != [] && AllEqual(m.shape.value));
    hide FlagsOf, Uniform;
  }

  lemma Pow256Small()
    ensures Pow256(1) == 256 && Pow256(2) == 65536 && Pow256(4) == 0x1_0000_0000
  {
    assert Pow256(3) == 256 * Pow256(2);
  }

  lemma {:induction false} InterpretPrefix(rs: seq<Rec>, n: nat)
    requires n <= |rs|
    ensures InterpretAll(rs[..n]) <= InterpretAll(rs)
  {
    if n < |rs| {
      InterpretPrefix(rs[..|rs| - 1], n);
      assert rs[..|rs| - 1][..n] == rs[..n];
    } else {
      assert rs[..n] == rs;
    }
  }

  /**
  From bytes to the records, at any crash: what replay finds on the pages of a journal are those of
  a prefix of its records that contains every flushed one, and behind them the records of the pages
  from before the opening that were not overwritten.
  */
  lemma CrashedJournal(crc: Checksum, j: Journal.Journal<Rec>)
    requires j.Valid() && j.c == RecCodec(crc)
    ensures j.Durable() <= |j.Log()|
    ensures InterpretAll(j.Log()[..j.Durable()]) <= InterpretAll(j.Log())
    ensures InterpretAll(Replayed(RecCodec(crc), j.OnDevice())) == InterpretAll(j.Log()[..j.Durable()]) + InterpretAll(j.Remaining())
  {
    j.CrashPrefix();
    InterpretPrefix(j.Log(), j.Durable());
    InterpretAppend(j.Log()[..j.Durable()], j.Remaining());
  }

  lemma {:induction false} InterpretAppend(a: seq<Rec>, b: seq<Rec>)
    ensures InterpretAll(a + b) == InterpretAll(a) + InterpretAll(b)
  {
    if b == [] {
      assert a + b == a;
    } else {
      var n := |b| - 1;
      assert (a + b)[..|a| + n] == a + b[..n];
      InterpretAppend(a, b[..n]);
    }
  }
}
