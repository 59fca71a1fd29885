/**
The journal of one device as a log of pages: records of variable length are packed into
pages, the open page is written again every time it is flushed, and replay reads the pages
back after a crash.  A page write either happens or does not.  How one record is written
and read is the codec, a parameter.
*/
module PageLog {
  import opened Common
  import opened Fields

  const HEADER: nat := 64

  datatype Parsed<+R> = Blank | Malformed | Got(rec: R, size: nat)

  datatype Codec<!R> = Codec(enc: R -> seq<byte>, parse: seq<byte> -> Parsed<R>, wf: R -> bool)

  /** A written record is read back whatever follows it, and fits a page. */
  ghost predicate Reads<R>(c: Codec<R>, r: R, rest: seq<byte>) {
    && HEADER <= |c.enc(r)| <= PAGE_SIZE
    && c.parse(c.enc(r) + rest) == Got(r, |c.enc(r)|)
  }

  ghost predicate Sound<R(!new)>(c: Codec<R>) {
    && (forall r, rest :: c.wf(r) ==> Reads(c, r, rest))
    && (forall n :: HEADER <= n ==> c.parse(Zeros(n)) == Blank)
  }

  ghost predicate All<R>(c: Codec<R>, rs: seq<R>) {
    forall i :: 0 <= i < |rs| ==> c.wf(rs[i])
  }

  /** The bytes of consecutive records. */
  ghost function Image<R>(c: Codec<R>, rs: seq<R>): seq<byte> {
    if rs == [] then [] else c.enc(rs[0]) + Image(c, rs[1..])
  }

  lemma {:induction false} ImageAppend<R>(c: Codec<R>, rs: seq<R>, r: R)
    ensures Image(c, rs + [r]) == Image(c, rs) + c.enc(r)
  {
    if rs == [] {
      assert rs + [r] == [r];
      assert Image(c, [r][1..]) == [];
    } else {
      assert (rs + [r])[1..] == rs[1..] + [r];
      ImageAppend(c, rs[1..], r);
    }
  }

  /** A page that holds the records rs and is zero behind them. */
  ghost predicate Holds<R>(c: Codec<R>, page: seq<byte>, rs: seq<R>) {
    && All(c, rs)
    && |Image(c, rs)| <= PAGE_SIZE
    && page == Image(c, rs) + Zeros(PAGE_SIZE - |Image(c, rs)|)
  }

  /** The records read from a page, and whether replay goes on to the next page. */
  datatype PageScan<+R> = PageScan(recs: seq<R>, more: bool)

  function ScanFrom<R>(c: Codec<R>, bs: seq<byte>, first: bool): PageScan<R>
    decreases |bs|
  {
    if |bs| < HEADER then PageScan([], true)
    else
      match c.parse(bs)
      case Blank => PageScan([], !first)
      case Malformed => PageScan([], false)
      case Got(r, n) =>
        if n == 0 || n > |bs| then PageScan([], false)
        else
          var rest := ScanFrom(c, bs[n..], false);
          PageScan([r] + rest.recs, rest.more)
  }

  /** Records found earlier on the page, followed by what the rest of the page gives. */
  function Prepend<R>(found: seq<R>, rest: PageScan<R>): PageScan<R> {
    PageScan(found + rest.recs, rest.more)
  }

  lemma PrependOne<R>(found: seq<R>, r: R, rest: PageScan<R>)
    ensures Prepend(found, Prepend([r], rest)) == Prepend(found + [r], rest)
  {
    assert found + ([r] + rest.recs) == (found + [r]) + rest.recs;
  }

  /** One step of the scan. */
  lemma ScanStep<R>(c: Codec<R>, bs: seq<byte>, first: bool)
    requires HEADER <= |bs|
    ensures match c.parse(bs)
            case Blank => ScanFrom(c, bs, first) == PageScan([], !first)
            case Malformed => ScanFrom(c, bs, first) == PageScan([], false)
            case Got(r, n) =>
              if n == 0 || n > |bs| then ScanFrom(c, bs, first) == PageScan([], false)
              else ScanFrom(c, bs, first) == Prepend([r], ScanFrom(c, bs[n..], false))
  {}

  /** All records that replay reads from the pages of a journal. */
  function Replayed<R>(c: Codec<R>, pages: seq<seq<byte>>): seq<R> {
    if pages == [] then []
    else
      var scan := ScanFrom(c, pages[0], true);
      scan.recs + if scan.more then Replayed(c, pages[1..]) else []
  }

  /** Replay of the pages from p on. */
  lemma ReplayStep<R>(c: Codec<R>, pages: seq<seq<byte>>, p: nat)
    requires p < |pages|
    ensures var scan := ScanFrom(c, pages[p], true);
            Replayed(c, pages[p..]) == scan.recs + if scan.more then Replayed(c, pages[p + 1..]) else []
  {
    assert pages[p..][0] == pages[p] && pages[p..][1..] == pages[p + 1..];
  }

  lemma ReplayEnd<R>(c: Codec<R>, pages: seq<seq<byte>>)
    ensures Replayed(c, pages[|pages|..]) == []
  {}

  lemma {:induction false} ScanImage<R(!new)>(c: Codec<R>, rs: seq<R>, n: nat, first: bool)
    requires Sound(c) && All(c, rs)
    ensures ScanFrom(c, Image(c, rs) + Zeros(n), first) == PageScan(rs, rs != [] || !first || n < HEADER)
    decreases |rs|
  {
    var bs := Image(c, rs) + Zeros(n);
    if rs == [] {
      assert bs == Zeros(n);
    } else {
      var rest := Image(c, rs[1..]) + Zeros(n);
      assert bs == c.enc(rs[0]) + rest;
      assert Reads(c, rs[0], rest);
      assert bs[|c.enc(rs[0])|..] == rest;
      ScanImage(c, rs[1..], n, false);
    }
  }

  lemma ScanPage<R(!new)>(c: Codec<R>, page: seq<byte>, rs: seq<R>)
    requires Sound(c) && Holds(c, page, rs)
    ensures ScanFrom(c, page, true) == PageScan(rs, rs != [])
  {
    ScanImage(c, rs, PAGE_SIZE - |Image(c, rs)|, true);
    if rs != [] {
      assert Reads(c, rs[0], []);
    }
  }

  function Flatten<R>(rss: seq<seq<R>>): seq<R> {
    if rss == [] then [] else rss[0] + Flatten(rss[1..])
  }

  lemma {:induction false} FlattenAppend<R>(rss: seq<seq<R>>, rs: seq<R>)
    ensures Flatten(rss + [rs]) == Flatten(rss) + rs
  {
    if rss == [] {
      assert rss + [rs] == [rs];
      assert Flatten([rs][1..]) == [];
    } else {
      assert (rss + [rs])[1..] == rss[1..] + [rs];
      FlattenAppend(rss[1..], rs);
    }
  }

  /** The first pages hold the record lists rss, none empty; the others are blank. */
  ghost predicate Filled<R>(c: Codec<R>, pages: seq<seq<byte>>, rss: seq<seq<R>>) {
    && |rss| <= |pages|
    && (forall i :: 0 <= i < |rss| ==> rss[i] != [] && Holds(c, pages[i], rss[i]))
    && (forall i :: |rss| <= i < |pages| ==> Holds(c, pages[i], []))
  }

  lemma {:induction false} ReplayFilled<R(!new)>(c: Codec<R>, pages: seq<seq<byte>>, rss: seq<seq<R>>)
    requires Sound(c) && Filled(c, pages, rss)
    ensures Replayed(c, pages) == Flatten(rss)
  {
    if rss != [] {
      ScanPage(c, pages[0], rss[0]);
      ReplayFilled(c, pages[1..], rss[1..]);
    } else if pages != [] {
      ScanPage(c, pages[0], []);
    }
  }

  /** The pages from before an opening that are not overwritten yet. */
  ghost function Left<R>(closed: seq<seq<R>>, open: seq<R>, past: seq<seq<R>>): seq<seq<R>> {
    var n := |closed| + if open == [] then 0 else 1;
    if n <= |past| then past[n..] else []
  }

  /**
  Full pages with the record lists `closed`, one page with the records `open` if there are any;
  behind them what is left of the pages `past` from before an opening, then blank pages.
  */
  ghost predicate Layout<R>(c: Codec<R>, pages: seq<seq<byte>>, closed: seq<seq<R>>, open: seq<R>, past: seq<seq<R>>) {
    && |closed| <= |pages| && |past| <= |pages| && (|closed| == |pages| ==> open == [])
    && (forall i :: 0 <= i < |closed| ==> closed[i] != [] && Holds(c, pages[i], closed[i]))
    && (forall i :: 0 <= i < |past| ==> past[i] != [])
    && (forall i :: |closed| <= i < |pages| ==>
          Holds(c, pages[i], if i == |closed| && open != [] then open else if i < |past| then past[i] else []))
  }

  lemma LayoutNext<R>(c: Codec<R>, pages: seq<seq<byte>>, closed: seq<seq<R>>, open: seq<R>, past: seq<seq<R>>)
    requires Layout(c, pages, closed, open, past) && open != []
    ensures Layout(c, pages, closed + [open], [], past)
  {}

  // ----- How full the pages are -----

  /** A page with the records rs had no room for record r. */
  ghost predicate NoRoom<R>(c: Codec<R>, rs: seq<R>, r: R) {
    |Image(c, rs)| + |c.enc(r)| > PAGE_SIZE
  }

  /** Each page was left only because the first record of the next one did not fit it any more. */
  ghost predicate Packed<R>(c: Codec<R>, closed: seq<seq<R>>, open: seq<R>) {
    && (forall i :: 0 < i < |closed| ==> closed[i] != [] && NoRoom(c, closed[i - 1], closed[i][0]))
    && (closed != [] && open != [] ==> NoRoom(c, closed[|closed| - 1], open[0]))
  }

  lemma PackedNext<R>(c: Codec<R>, closed: seq<seq<R>>, open: seq<R>)
    requires Packed(c, closed, open) && open != []
    ensures Packed(c, closed + [open], [])
  {
    hide NoRoom;
  }

  lemma PackedMore<R>(c: Codec<R>, closed: seq<seq<R>>, open: seq<R>, r: R)
    requires Packed(c, closed, open) && (closed != [] && open == [] ==> |Image(c, closed[|closed| - 1])| + |c.enc(r)| > PAGE_SIZE)
    ensures Packed(c, closed, open + [r])
  {}

  /** The record lists of the pages, new ones first. */
  ghost function Lists<R>(closed: seq<seq<R>>, open: seq<R>, past: seq<seq<R>>): seq<seq<R>> {
    closed + (if open == [] then [] else [open]) + Left(closed, open, past)
  }

  lemma LayoutFilled<R>(c: Codec<R>, pages: seq<seq<byte>>, closed: seq<seq<R>>, open: seq<R>, past: seq<seq<R>>)
    requires Layout(c, pages, closed, open, past)
    ensures Filled(c, pages, Lists(closed, open, past))
  {
    hide Holds;
  }

  /** Pages laid out that way replay to the new records in order and then to the old ones that are left. */
  lemma ReplayLayout<R(!new)>(c: Codec<R>, pages: seq<seq<byte>>, closed: seq<seq<R>>, open: seq<R>, past: seq<seq<R>>)
    requires Sound(c) && Layout(c, pages, closed, open, past)
    ensures Replayed(c, pages) == Flatten(closed) + open + Flatten(Left(closed, open, past))
  {
    hide Replayed, Sound, Left;
    LayoutFilled(c, pages, closed, open, past);
    ReplayFilled(c, pages, Lists(closed, open, past));
    var recent := closed + if open == [] then [] else [open];
    FlattenBoth(recent, Left(closed, open, past));
    if open == [] {
      assert closed + [] == closed;
    } else {
      FlattenAppend(closed, open);
    }
  }

  lemma {:induction false} FlattenBoth<R>(a: seq<seq<R>>, b: seq<seq<R>>)
    ensures Flatten(a + b) == Flatten(a) + Flatten(b)
  {
    if a == [] {
      assert a + b == b;
    } else {
      assert (a + b)[1..] == a[1..] + b;
      FlattenBoth(a[1..], b);
    }
  }

  /** A journal whose first page is blank replays to nothing, whatever the later pages hold. */
  lemma BlankFirstPage<R(!new)>(c: Codec<R>, pages: seq<seq<byte>>)
    requires Sound(c)
    requires pages != [] && pages[0] == Zeros(PAGE_SIZE)
    ensures Replayed(c, pages) == []
  {}
}
