/**
One journal record as bytes: a packed 64-byte header with a checksum, then for a put the
checksum of the data, the record lengths and the hash path.  The checksum function is a
parameter.
*/
module JournalRecord {
  import opened Common
  import opened Fields
  import opened PageLog

  const OP_PUT: nat := 1
  const OP_DEL: nat := 2
  const OP_TRIM: nat := 3
  const MAX_PATH: nat := 256
  const MAX_RECS: nat := 256
  const UNIFORM_BIT: nat := 1024

  type Checksum = seq<byte> -> nat

  datatype Rec = Rec(
    op: nat, dev: nat, prefix: nat, group: nat, ver: nat,
    addrDev: nat, addrPage: nat, addrOff: nat, addrLen: nat,
    stripeIdx: nat, stripeCnt: nat, flags: nat, expire: nat,
    nRecs: nat, dataCrc: nat, lens: seq<nat>, path: seq<nat>)

  function Uniform(flags: nat): bool {
    (flags / UNIFORM_BIT) % 2 == 1
  }

  /** How many record lengths follow the header: none, one for a uniform shape, or all. */
  function LensCount(op: nat, nRecs: nat, flags: nat): nat {
    if op != OP_PUT || nRecs == 0 then 0 else if Uniform(flags) then 1 else nRecs
  }

  // ----- One record as bytes -----

  /** Widths of the fields before the checksum: 56 bytes. */
  function FrontWidths(): (ws: seq<nat>)
    ensures |ws| == 14 && Sum(ws) == 56
  {
    var ws := [1, 1, 2, 8] + Repeat(4, 3) + [8] + Repeat(4, 6);
    FrontSum();
    ws
  }

  lemma FrontSum()
    ensures Sum([1, 1, 2, 8] + Repeat(4, 3) + [8] + Repeat(4, 6)) == 56
  {
    SumAppend([1, 1, 2, 8] + Repeat(4, 3) + [8], Repeat(4, 6));
    SumAppend([1, 1, 2, 8] + Repeat(4, 3), [8]);
    SumAppend([1, 1, 2, 8], Repeat(4, 3));
    SumRepeat(4, 6);
    SumRepeat(4, 3);
    assert [1, 1, 2, 8] == [1, 1] + [2, 8];
    SumAppend([1, 1], [2, 8]);
  }

  function FrontVals(r: Rec): seq<nat> {
    [r.op, 0, r.dev, r.prefix, r.group, r.ver, r.addrDev, r.addrPage, r.addrOff, r.addrLen,
     r.stripeIdx, r.stripeCnt, r.flags, r.expire]
  }

  function TailWidths(op: nat, nl: nat, np: nat): seq<nat> {
    (if op == OP_PUT then [4] else []) + Repeat(4, nl) + Repeat(8, np)
  }

  function TailVals(r: Rec): seq<nat> {
    (if r.op == OP_PUT then [r.dataCrc] else []) + r.lens + r.path
  }

  function TailSize(op: nat, nl: nat, np: nat): nat {
    (if op == OP_PUT then 4 else 0) + 4 * nl + 8 * np
  }

  lemma TailSum(op: nat, nl: nat, np: nat)
    ensures Sum(TailWidths(op, nl, np)) == TailSize(op, nl, np)
  {
    var d := if op == OP_PUT then [4] else [];
    assert Sum(d) == if op == OP_PUT then 4 else 0;
    SumAppend(d + Repeat(4, nl), Repeat(8, np));
    SumAppend(d, Repeat(4, nl));
    SumRepeat(4, nl);
    SumRepeat(8, np);
  }

  function Size(r: Rec): nat {
    HEADER + TailSize(r.op, LensCount(r.op, r.nRecs, r.flags), |r.path|)
  }

  /** A record the callers of the journal can build. */
  predicate WellFormed(r: Rec) {
    && OP_PUT <= r.op <= OP_TRIM
    && |r.path| <= MAX_PATH && r.nRecs <= MAX_RECS
    && |r.lens| == LensCount(r.op, r.nRecs, r.flags)
    && (r.op != OP_PUT ==> r.dataCrc == 0)
    && Fits(FrontVals(r), FrontWidths())
    && Fits(TailVals(r), TailWidths(r.op, |r.lens|, |r.path|))
  }

  function Front(r: Rec): (bs: seq<byte>)
    ensures |bs| == 56
  {
    Pack(FrontVals(r), FrontWidths())
  }

  function Back(np: nat, nRecs: nat): (bs: seq<byte>)
    ensures |bs| == 4
  {
    Le(np, 2) + Le(nRecs, 2)
  }

  function Tail(r: Rec): (bs: seq<byte>)
    requires |r.lens| == LensCount(r.op, r.nRecs, r.flags)
    ensures |bs| == Size(r) - HEADER
  {
    TailSum(r.op, |r.lens|, |r.path|);
    Pack(TailVals(r), TailWidths(r.op, |r.lens|, |r.path|))
  }

  function Encode(crc: Checksum, r: Rec): (bs: seq<byte>)
    requires |r.lens| == LensCount(r.op, r.nRecs, r.flags)
    ensures |bs| == Size(r)
  {
    var front, back, tail := Front(r), Back(|r.path|, r.nRecs), Tail(r);
    front + Le(crc(front + back + tail) % Pow256(4), 4) + back + tail
  }

  /** A record from its unpacked header fields h, its counts and its unpacked tail t. */
  function Assemble(h: seq<nat>, n: nat, nl: nat, np: nat, t: seq<nat>): Rec
    requires |h| == 14 && |t| == (if h[0] == OP_PUT then 1 else 0) + nl + np
  {
    var d := if h[0] == OP_PUT then 1 else 0;
    Rec(h[0], h[2], h[3], h[4], h[5], h[6], h[7], h[8], h[9], h[10], h[11], h[12], h[13],
        n, if h[0] == OP_PUT then t[0] else 0, t[d..d + nl], t[d + nl..])
  }

  /** The checks of replay once the header fields h, path length and record count are read. */
  function ParseBody(crc: Checksum, bs: seq<byte>, h: seq<nat>, np: nat, n: nat): (p: Parsed<Rec>)
    requires HEADER <= |bs| && |h| == 14
    ensures p.Got? ==> HEADER <= p.size <= |bs|
  {
    if h[0] == 0 then Blank
    else if h[0] > OP_TRIM || np > MAX_PATH || n > MAX_RECS then Malformed
    else
      var nl := LensCount(h[0], n, h[12]);
      var total := HEADER + TailSize(h[0], nl, np);
      if total > |bs| then Malformed
      else if UnLe(bs[56..60]) != crc(bs[..56] + bs[60..64] + bs[64..total]) % Pow256(4) then Malformed
      else
        TailSum(h[0], nl, np);
        Got(Assemble(h, n, nl, np, Unpack(bs[64..total], TailWidths(h[0], nl, np))), total)
  }

  /** One record at the start of `bs`, exactly as replay reads it. */
  function Parse(crc: Checksum, bs: seq<byte>): (p: Parsed<Rec>)
    requires HEADER <= |bs|
    ensures p.Got? ==> HEADER <= p.size <= |bs|
  {
    ParseBody(crc, bs, Unpack(bs, FrontWidths()), UnLe(bs[60..62]), UnLe(bs[62..64]))
  }

  /** The five pieces of an encoded record sit where Parse looks for them. */
  lemma Pieces(front: seq<byte>, c: seq<byte>, back: seq<byte>, tail: seq<byte>, rest: seq<byte>)
    requires |front| == 56 && |c| == 4 && |back| == 4
    ensures var bs := front + c + back + tail + rest;
            && bs[..56] == front && bs[56..60] == c && bs[60..64] == back
            && bs[60..62] == back[..2] && bs[62..64] == back[2..]
            && bs[64..64 + |tail|] == tail
            && bs == front + (c + back + tail + rest)
  {}

  lemma TailRoundTrip(r: Rec)
    requires WellFormed(r)
    ensures |Tail(r)| == Sum(TailWidths(r.op, |r.lens|, |r.path|)) == TailSize(r.op, |r.lens|, |r.path|)
    ensures Unpack(Tail(r), TailWidths(r.op, |r.lens|, |r.path|)) == TailVals(r)
  {
    TailSum(r.op, |r.lens|, |r.path|);
    hide Pack, Unpack, Repeat, Sum, Fits;
    PackRoundTrip(TailVals(r), TailWidths(r.op, |r.lens|, |r.path|), []);
    assert Tail(r) + [] == Tail(r);
  }

  lemma BackRoundTrip(np: nat, n: nat)
    requires np <= MAX_PATH && n <= MAX_RECS
    ensures UnLe(Back(np, n)[..2]) == np && UnLe(Back(np, n)[2..]) == n
  {
    assert Pow256(2) == 65536 by {
      assert Pow256(1) == 256;
    }
    LeRoundTrip(np, 2);
    LeRoundTrip(n, 2);
    assert Back(np, n)[..2] == Le(np, 2) && Back(np, n)[2..] == Le(n, 2);
  }

  lemma AssembleInverse(r: Rec)
    requires WellFormed(r)
    ensures Assemble(FrontVals(r), r.nRecs, |r.lens|, |r.path|, TailVals(r)) == r
  {
    var d := if r.op == OP_PUT then 1 else 0;
    assert TailVals(r)[d..d + |r.lens|] == r.lens && TailVals(r)[d + |r.lens|..] == r.path;
  }

  lemma ParseBodyEncode(crc: Checksum, r: Rec, c: nat, bs: seq<byte>)
    requires WellFormed(r)
    requires Size(r) <= |bs|
    requires bs[..56] == Front(r) && bs[60..64] == Back(|r.path|, r.nRecs) && bs[64..Size(r)] == Tail(r)
    requires c == crc(Front(r) + Back(|r.path|, r.nRecs) + Tail(r)) % Pow256(4)
    requires bs[56..60] == Le(c, 4)
    ensures ParseBody(crc, bs, FrontVals(r), |r.path|, r.nRecs) == Got(r, Size(r))
  {
    hide Pack, Unpack, Repeat, Sum, Le, UnLe, Fits;
    var h := FrontVals(r);
    assert h[0] == r.op && h[12] == r.flags;
    var nl := LensCount(h[0], r.nRecs, h[12]);
    assert nl == |r.lens|;
    assert HEADER + TailSize(h[0], nl, |r.path|) == Size(r);
    assert UnLe(bs[56..60]) == c by {
      LeRoundTrip(c, 4);
    }
    assert Sum(TailWidths(r.op, nl, |r.path|)) == |Tail(r)|
      && Unpack(Tail(r), TailWidths(r.op, nl, |r.path|)) == TailVals(r) by {
      TailRoundTrip(r);
    }
    assert Assemble(h, r.nRecs, nl, |r.path|, TailVals(r)) == r by {
      AssembleInverse(r);
    }
  }

  /** Replay reads back exactly the record that was appended, whatever follows it. */
  lemma ParseEncode(crc: Checksum, r: Rec, rest: seq<byte>)
    requires WellFormed(r)
    ensures Parse(crc, Encode(crc, r) + rest) == Got(r, Size(r))
  {
    var front, back, tail := Front(r), Back(|r.path|, r.nRecs), Tail(r);
    var c := crc(front + back + tail) % Pow256(4);
    var bs := Encode(crc, r) + rest;
    Pieces(front, Le(c, 4), back, tail, rest);
    PackRoundTrip(FrontVals(r), FrontWidths(), Le(c, 4) + back + tail + rest);
    BackRoundTrip(|r.path|, r.nRecs);
    ParseBodyEncode(crc, r, c, bs);
  }

  // ----- What replay accepts -----

  /** The number in two bytes. */
  function Word(bs: seq<byte>, i: nat): nat
    requires i + 1 < |bs|
  {
    var low: nat, high: nat := bs[i], bs[i + 1];
    low + 256 * high
  }

  /** The bit that marks a uniform shape: bit 2 of the second byte of the flags. */
  predicate UniformBit(bs: seq<byte>)
    requires HEADER <= |bs|
  {
    bs[49] / 4 % 2 == 1
  }

  /** How long a record is, from its bytes. */
  function Announced(bs: seq<byte>): nat
    requires HEADER <= |bs|
  {
    if bs[0] != OP_PUT then 64 + 8 * Word(bs, 60)
    else 64 + 4 + 4 * (if Word(bs, 62) == 0 then 0 else if UniformBit(bs) then 1 else Word(bs, 62)) + 8 * Word(bs, 60)
  }

  /** A field is the number at its place. */
  lemma {:induction false} FieldAt(bs: seq<byte>, ws: seq<nat>, k: nat)
    requires k < |ws| && Sum(ws) <= |bs|
    ensures Sum(ws[..k]) + ws[k] <= |bs| && Unpack(bs, ws)[k] == UnLe(bs[Sum(ws[..k])..][..ws[k]])
  {
    hide UnLe;
    var before := ws[..k];
    if k > 0 {
      var rest, off := bs[ws[0]..], Sum(ws[1..][..k - 1]);
      assert before[1..] == ws[1..][..k - 1];
      FieldAt(rest, ws[1..], k - 1);
      assert rest[off..] == bs[ws[0] + off..];
    }
  }

  /** The operation is the first byte, and the flags are the four bytes from 48 on. */
  lemma HeaderFields(bs: seq<byte>)
    requires HEADER <= |bs|
    ensures var h := Unpack(bs, FrontWidths());
            h[0] == bs[0] && h[1] == bs[1] && (Uniform(h[12]) <==> UniformBit(bs))
  {
    var ws := FrontWidths();
    hide FrontWidths, Unpack, Uniform;
    FrontSplit();
    assert ws[..0] == [] && ws[..1] == [1] && [1][1..] == [] && Sum([1]) == 1 && Sum([]) == 0;
    FieldAt(bs, ws, 0);
    FieldAt(bs, ws, 1);
    FieldAt(bs, ws, 12);
    OneByte(bs[0..][..1]);
    OneByte(bs[1..][..1]);
    FourBytes(bs[48..][..4]);
  }

  lemma FrontSplit()
    ensures var ws := FrontWidths();
            ws[0] == 1 && ws[1] == 1 && ws[12] == 4 && Sum(ws[..12]) == 48
  {
    var ws := FrontWidths();
    assert ws[..12] + ws[12..] == ws && ws[12..] == Repeat(4, 2);
    SumAppend(ws[..12], ws[12..]);
    SumRepeat(4, 2);
  }

  lemma OneByte(bs: seq<byte>)
    requires |bs| == 1
    ensures UnLe(bs) == bs[0]
  {
    assert bs[1..] == [];
  }

  lemma TwoBytes(bs: seq<byte>)
    requires |bs| == 2
    ensures UnLe(bs) == Word(bs, 0)
  {
    OneByte(bs[1..]);
  }

  lemma FourBytes(bs: seq<byte>)
    requires |bs| == 4
    ensures Uniform(UnLe(bs)) <==> bs[1] / 4 % 2 == 1
  {
    var b0: nat, b1: nat, q: nat := bs[0], bs[1], UnLe(bs[2..]);
    assert bs[1..][1..] == bs[2..];
    assert UnLe(bs) == b0 + 256 * (b1 + 256 * q);
    assert UnLe(bs) / 1024 == b1 / 4 + 64 * q;
  }

  /**
  Byte by byte, what replay takes for a record: a known operation, at most 256 hashes and 256
  lengths, all it announces inside the page, and the checksum of everything but the checksum.  A
  zero in the first byte ends the page, and anything else ends the replay.
  */
  lemma ParseAccepts(crc: Checksum, bs: seq<byte>)
    requires HEADER <= |bs|
    ensures Parse(crc, bs) == Blank <==> bs[0] == 0
    ensures Parse(crc, bs).Got? <==>
            && 1 <= bs[0] <= 3 && Word(bs, 60) <= 256 && Word(bs, 62) <= 256 && Announced(bs) <= |bs|
            && UnLe(bs[56..60]) == crc(bs[..56] + bs[60..Announced(bs)]) % Pow256(4)
    ensures Parse(crc, bs).Got? ==> Parse(crc, bs).size == Announced(bs)
  {
    HeaderFields(bs);
    TwoBytes(bs[60..62]);
    TwoBytes(bs[62..64]);
    hide Unpack, FrontWidths, UniformBit, UnLe, Uniform;
    var h := Unpack(bs, FrontWidths());
    var total := HEADER + TailSize(h[0], LensCount(h[0], Word(bs, 62), h[12]), Word(bs, 60));
    if 1 <= bs[0] <= 3 {
      assert total == Announced(bs);
      if total <= |bs| {
        assert bs[..56] + bs[60..64] + bs[64..total] == bs[..56] + bs[60..total];
      }
    }
  }

  /** What an assembled record was assembled from. */
  lemma Assembled(h: seq<nat>, n: nat, np: nat, t: seq<nat>)
    requires |h| == 14 && |t| == (if h[0] == OP_PUT then 1 else 0) + LensCount(h[0], n, h[12]) + np && h[1] == 0
    ensures var r := Assemble(h, n, LensCount(h[0], n, h[12]), np, t);
            && FrontVals(r) == h && TailVals(r) == t && r.nRecs == n && |r.path| == np
            && |r.lens| == LensCount(r.op, r.nRecs, r.flags) == LensCount(h[0], n, h[12]) && r.op == h[0]
            && (r.op != OP_PUT ==> r.dataCrc == 0)
  {
    hide LensCount;
    var nl := LensCount(h[0], n, h[12]);
    var r, d := Assemble(h, n, nl, np, t), if h[0] == OP_PUT then 1 else 0;
    assert t == t[..d] + t[d..d + nl] + t[d + nl..];
    assert TailVals(r) == t;
    assert FrontVals(r) == h;
  }

  /** The checks of replay, once they are passed. */
  lemma Checked(crc: Checksum, bs: seq<byte>, h: seq<nat>, np: nat, n: nat)
    requires HEADER <= |bs| && |h| == 14 && ParseBody(crc, bs, h, np, n).Got?
    ensures var nl := LensCount(h[0], n, h[12]);
            var total := HEADER + TailSize(h[0], nl, np);
            && 1 <= h[0] <= OP_TRIM && np <= MAX_PATH && n <= MAX_RECS && total <= |bs|
            && Sum(TailWidths(h[0], nl, np)) == total - 64
            && ParseBody(crc, bs, h, np, n) == Got(Assemble(h, n, nl, np, Unpack(bs[64..total], TailWidths(h[0], nl, np))), total)
            && UnLe(bs[56..60]) == crc(bs[..56] + bs[60..64] + bs[64..total]) % Pow256(4)
  {
    hide Unpack, UnLe, LensCount, Assemble;
    TailSum(h[0], LensCount(h[0], n, h[12]), np);
  }

  /** The pieces of what replay took for a record are those of its image. */
  lemma ParsedPieces(crc: Checksum, bs: seq<byte>)
    requires HEADER <= |bs| && Parse(crc, bs).Got? && bs[1] == 0
    ensures var r := Parse(crc, bs).rec;
            && WellFormed(r) && Parse(crc, bs).size == Size(r) <= |bs|
            && Front(r) == bs[..56] && Back(|r.path|, r.nRecs) == bs[60..64] && Tail(r) == bs[64..Size(r)]
            && UnLe(bs[56..60]) == crc(bs[..56] + bs[60..64] + bs[64..Size(r)]) % Pow256(4)
  {
    hide Pack, Unpack, FrontWidths, TailWidths, Sum, Le, UnLe, Repeat, Fits, Uniform, UniformBit, LensCount, Assemble,
         ParseBody, FrontVals, TailVals, Back;
    var h, np, n := Unpack(bs, FrontWidths()), UnLe(bs[60..62]), UnLe(bs[62..64]);
    Checked(crc, bs, h, np, n);
    HeaderFields(bs);
    UnpackRoundTrip(bs, FrontWidths());
    BackBytes(bs);
    var nl := LensCount(h[0], n, h[12]);
    var total := HEADER + TailSize(h[0], nl, np);
    var ws := TailWidths(h[0], nl, np);
    UnpackRoundTrip(bs[64..total], ws);
    TailCount(h[0], nl, np);
    Assembled(h, n, np, Unpack(bs[64..total], ws));
    assert bs[64..total][..total - 64] == bs[64..total];
  }

  lemma TailCount(op: nat, nl: nat, np: nat)
    ensures |TailWidths(op, nl, np)| == (if op == OP_PUT then 1 else 0) + nl + np
  {}

  /** Conversely, what replay takes for a record is the image of that record, if the unused byte is zero. */
  lemma EncodeParse(crc: Checksum, bs: seq<byte>)
    requires HEADER <= |bs| && Parse(crc, bs).Got? && bs[1] == 0
    ensures var r := Parse(crc, bs).rec;
            WellFormed(r) && Parse(crc, bs).size == Size(r) <= |bs| && Encode(crc, r) == bs[..Size(r)]
  {
    hide Parse, WellFormed, Front, Back, Tail, Size, Le, UnLe;
    ParsedPieces(crc, bs);
    UnLeRoundTrip(bs[56..60]);
    var n := Parse(crc, bs).size;
    assert bs[..n] == bs[..56] + bs[56..60] + bs[60..64] + bs[64..n];
  }

  lemma BackBytes(bs: seq<byte>)
    requires HEADER <= |bs|
    ensures Back(UnLe(bs[60..62]), UnLe(bs[62..64])) == bs[60..64]
  {
    UnLeRoundTrip(bs[60..62]);
    UnLeRoundTrip(bs[62..64]);
    assert bs[60..62] + bs[62..64] == bs[60..64];
  }

  /** A record never outgrows a page, so an append is only refused for lack of pages. */
  lemma RecordFitsPage(r: Rec)
    requires WellFormed(r)
    ensures HEADER <= Size(r) <= 3140 < PAGE_SIZE
  {}

  lemma ZerosAreBlank(crc: Checksum, n: nat)
    requires HEADER <= n
    ensures Parse(crc, Zeros(n)) == Blank
  {
    var h := Unpack(Zeros(n), FrontWidths());
    assert h[0] == UnLe(Zeros(n)[..FrontWidths()[0]]);
    assert FrontWidths()[0] == 1;
    assert Zeros(n)[..1] == [0];
    assert UnLe([0]) == 0;
  }

  /** Writing and reading of journal records as the page log uses them. */
  function RecCodec(crc: Checksum): Codec<Rec> {
    Codec((r: Rec) => if |r.lens| == LensCount(r.op, r.nRecs, r.flags) then Encode(crc, r) else [],
          (bs: seq<byte>) => if HEADER <= |bs| then Parse(crc, bs) else Malformed,
          (r: Rec) => WellFormed(r))
  }

  lemma RecCodecSound(crc: Checksum)
    ensures Sound(RecCodec(crc))
  {
    var c := RecCodec(crc);
    forall r, rest | c.wf(r)
      ensures Reads(c, r, rest)
    {
      ParseEncode(crc, r, rest);
      RecordFitsPage(r);
    }
    forall n | HEADER <= n
      ensures c.parse(Zeros(n)) == Blank
    {
      ZerosAreBlank(crc, n);
    }
  }
}
