/** The journal of one device: the stage page, the cursor, and the pages it owns on the device. */
module Journal {
  import opened Common
  import opened Fields
  import opened PageLog

  datatype Status = Ok | Invalid | Full

  class Journal<R(!new)> {
    const c: Codec<R>
    const base: nat
    const pages: nat
    const dev: array<seq<byte>>
    const stage: array<byte>
    var curPage: nat
    var curOff: nat
    var dropped: nat

    // History: the records in each page already left, those in the stage page, and how many
    // of the latter the device page holds.
    ghost var closed: seq<seq<R>>
    ghost var open: seq<R>
    ghost var synced: nat
    // History: the records of the pages from before the opening, page by page.
    ghost var past: seq<seq<R>>

    /** A journal over pages of unknown content: replay it or reset it. */
    constructor (c: Codec<R>, dev: array<seq<byte>>, base: nat, pages: nat)
      requires Sound(c) && base + pages <= dev.Length
      ensures Sized() && fresh(stage)
      ensures this.c == c && this.dev == dev && this.base == base && this.pages == pages
      ensures curPage == 0 && curOff == 0 && dropped == 0
    {
      this.c, this.dev, this.base, this.pages := c, dev, base, pages;
      stage := new byte[PAGE_SIZE](_ => 0);
      curPage, curOff, dropped := 0, 0, 0;
      closed, open, synced, past := [], [], 0, [];
    }

    /** A journal opened over pages that hold records: it appends at the first page again. */
    constructor Reopened(c: Codec<R>, dev: array<seq<byte>>, base: nat, pages: nat, ghost past: seq<seq<R>>)
      requires Sound(c) && base + pages <= dev.Length && Filled(c, dev[base..base + pages], past)
      ensures Valid() && fresh(stage) && this.c == c && this.dev == dev && this.base == base && this.pages == pages
      ensures Log() == [] && Durable() == 0 && Remaining() == Flatten(past)
    {
      this.c, this.dev, this.base, this.pages := c, dev, base, pages;
      stage := new byte[PAGE_SIZE](_ => 0);
      curPage, curOff, dropped := 0, 0, 0;
      closed, open, synced, this.past := [], [], 0, past;
      new;
      assert stage[..] == Zeros(PAGE_SIZE);
      BlankStage();
      assert past[0..] == past;
    }

    /** Every record accepted since the last reset, oldest first. */
    ghost function Log(): seq<R>
      reads this
    {
      Flatten(closed) + open
    }

    /** How many of them have reached the device. */
    ghost function Durable(): nat
      reads this
    {
      |Flatten(closed)| + synced
    }

    /** The records from before the opening that are not overwritten yet. */
    ghost function Remaining(): seq<R>
      requires synced <= |open|
      reads this
    {
      Flatten(Left(closed, open[..synced], past))
    }

    function OnDevice(): seq<seq<byte>>
      requires base + pages <= dev.Length
      reads dev
    {
      dev[base..base + pages]
    }

    ghost predicate Sized()
    {
      Sound(c) && stage.Length == PAGE_SIZE && base + pages <= dev.Length
    }

    /** Everything but how full the pages are. */
    ghost predicate Laid()
      reads this, dev, stage
    {
      && Sized()
      && |closed| == curPage <= pages
      && Holds(c, stage[..], open) && curOff == |Image(c, open)|
      && synced <= |open|
      && (curPage == pages ==> open == [])
      && Layout(c, OnDevice(), closed, open[..synced], past)
    }

    ghost predicate Valid()
      reads this, dev, stage
    {
      Laid() && Packed(c, closed, open) && (closed != [] && open == [] ==> curPage == pages)
    }

    /**
    Crash safety in every reachable state: what replay finds on the device is a prefix of the
    accepted records that contains everything flushed, and behind it what is left from before the
    opening; so a journal may be opened over it again.
    */
    lemma CrashPrefix()
      requires Valid()
      ensures Durable() <= |Log()|
      ensures Replayed(c, OnDevice()) == Log()[..Durable()] + Remaining()
      ensures Filled(c, OnDevice(), Lists(closed, open[..synced], past))
    {
      hide Packed, Layout, Holds, Image, Flatten, Filled, Lists, Left, Replayed, Sound;
      FlattenPrefix(Flatten(closed), open, synced);
      ReplayLayout(c, OnDevice(), closed, open[..synced], past);
      LayoutFilled(c, OnDevice(), closed, open[..synced], past);
    }

    lemma FlattenPrefix(a: seq<R>, b: seq<R>, n: nat)
      requires n <= |b|
      ensures (a + b)[..|a| + n] == a + b[..n]
    {}

    /** Two neighbouring pages that were left hold more than one page of records together. */
    lemma WellUsed(i: nat)
      requires Valid() && 0 < i < |closed|
      ensures |Image(c, closed[i - 1])| + |Image(c, closed[i])| > PAGE_SIZE
    {
      hide Layout, Holds;
      assert Image(c, closed[i]) == c.enc(closed[i][0]) + Image(c, closed[i][1..]);
    }

    lemma OffsetZero()
      requires Valid()
      ensures curOff == 0 <==> open == []
    {
      if open != [] {
        assert Reads(c, open[0], []);
      }
    }

    /** Write the stage page, unless it is empty: at most one page, inside the journal. */
    method FlushPage()
      requires Valid()
      modifies dev, `synced
      ensures Valid() && Durable() == |Log()| && synced == |open|
      ensures forall i :: 0 <= i < dev.Length && i != base + curPage ==> dev[i] == old(dev[i])
      ensures curPage == pages ==> dev[..] == old(dev[..])
      ensures open != [] ==> dev[base + curPage] == stage[..]
    {
      OffsetZero();
      if curOff == 0 {
        return;
      }
      dev[base + curPage] := stage[..];
      synced := |open|;
      assert open[..synced] == open;
      assert OnDevice() == old(OnDevice())[curPage := stage[..]];
    }

    method NextPage()
      requires Valid() && open != []
      modifies this, dev, stage
      ensures Laid() && closed == old(closed) + [old(open)] && Packed(c, closed, open)
      ensures Log() == old(Log()) && Durable() == |Log()| && past == old(past)
      ensures curPage == old(curPage) + 1 && curOff == 0 && open == [] && dropped == old(dropped)
      ensures forall i :: 0 <= i < dev.Length && i != base + old(curPage) ==> dev[i] == old(dev[i])
      ensures old(curPage) < pages && dev[base + old(curPage)] == old(stage[..])
    {
      hide Layout, Image, Flatten, Sound, Packed;
      FlushPage();
      PackedNext(c, closed, open);
      assert open[..synced] == open;
      LayoutNext(c, OnDevice(), closed, open, past);
      FlattenAppend(closed, open);
      closed, open, synced := closed + [open], [], 0;
      curPage, curOff := curPage + 1, 0;
      forall i | 0 <= i < stage.Length {
        stage[i] := 0;
      }
      assert stage[..] == Zeros(PAGE_SIZE);
      BlankStage();
    }

    lemma BlankStage()
      requires stage.Length == PAGE_SIZE && stage[..] == Zeros(PAGE_SIZE)
      ensures Holds(c, stage[..], []) && |Image(c, [])| == 0
    {
      assert Image(c, []) == [];
      assert stage[..] == Image(c, []) + Zeros(PAGE_SIZE);
    }

    /** Copy a record that fits behind the records of the stage page. */
    method CopyIn(r: R)
      requires Laid() && c.wf(r) && curPage < pages
      requires curOff + |c.enc(r)| <= PAGE_SIZE
      modifies `curOff, `open, stage
      ensures Laid() && open == old(open) + [r] && curOff == old(curOff) + |c.enc(r)|
    {
      var bytes := c.enc(r);
      ImageAppend(c, open, r);
      forall i | 0 <= i < |bytes| {
        stage[curOff + i] := bytes[i];
      }
      curOff := curOff + |bytes|;
      assert open[..synced] == (open + [r])[..synced];
      open := open + [r];
      assert stage[..] == Image(c, open) + Zeros(PAGE_SIZE - |Image(c, open)|);
    }

    /** Leave the stage page if the next record does not fit behind those it has. */
    method MakeRoom(size: nat)
      requires Valid() && size <= PAGE_SIZE && curPage < pages
      modifies this, dev, stage
      ensures Laid() && Packed(c, closed, open)
      ensures closed != [] && open == [] && curPage < pages ==> |Image(c, closed[|closed| - 1])| + size > PAGE_SIZE
      ensures Log() == old(Log()) && dropped == old(dropped) && old(Durable()) <= Durable() && past == old(past)
      ensures curPage < pages ==> curOff + size <= PAGE_SIZE
      ensures if old(curOff) + size <= PAGE_SIZE then curPage == old(curPage) && curOff == old(curOff)
              else curPage == old(curPage) + 1 && curOff == 0
      ensures || dev[..] == old(dev[..])
              || dev[..] == old(dev[..])[base + old(curPage) := old(stage[..])]
    {
      hide Layout, Holds, Image, Flatten, Sound, Packed;
      if curOff + size > PAGE_SIZE {
        OffsetZero();
        NextPage();
        assert dev[..] == old(dev[..])[base + old(curPage) := old(stage[..])];
      }
    }

    lemma LaidFacts()
      requires Laid()
      ensures |closed| == curPage <= pages && base + pages <= dev.Length && synced <= |open|
    {}

    method CountDropped()
      requires Laid()
      modifies `dropped
      ensures Laid() && dropped == old(dropped) + 1
    {
      dropped := dropped + 1;
    }

    /**
    Append a record.  It goes behind the last one if it fits the page and to the next page if it
    does not.  It is refused only when it is larger than a page or when there is no such page; a
    full journal stays full until reset.
    */
    method Append(r: R) returns (st: Status)
      requires Valid()
      requires |c.enc(r)| <= PAGE_SIZE ==> c.wf(r)
      modifies this, dev, stage
      ensures Valid() && past == old(past)
      ensures st == Invalid <==> |c.enc(r)| > PAGE_SIZE
      ensures st == Ok ==> Log() == old(Log()) + [r] && dropped == old(dropped)
      ensures st == Full ==> Log() == old(Log()) && dropped == old(dropped) + 1 && curPage == pages
      ensures st == Invalid ==> Log() == old(Log()) && dropped == old(dropped)
      ensures st == Full <==>
                && |c.enc(r)| <= PAGE_SIZE
                && (old(curPage) == pages || (old(curPage) + 1 == pages && old(curOff) + |c.enc(r)| > PAGE_SIZE))
      ensures st == Ok ==> if old(curOff) + |c.enc(r)| <= PAGE_SIZE
                           then curPage == old(curPage) && curOff == old(curOff) + |c.enc(r)|
                           else curPage == old(curPage) + 1 && curOff == |c.enc(r)|
      ensures old(Durable()) <= Durable()
      ensures forall i :: 0 <= i < dev.Length && (i < base || base + pages <= i) ==> dev[i] == old(dev[i])
      ensures || dev[..] == old(dev[..])
              || (old(curPage) < pages && dev[..] == old(dev[..])[base + old(curPage) := old(stage[..])])
    {
      hide Laid, Image, Flatten, Packed;
      var bytes := c.enc(r);
      if |bytes| > PAGE_SIZE {
        return Invalid;
      }
      LaidFacts();
      if curPage >= pages {
        CountDropped();
        return Full;
      }
      MakeRoom(|bytes|);
      if curPage >= pages {
        LaidFacts();
        CountDropped();
        return Full;
      }
      PackedMore(c, closed, open, r);
      LaidFacts();
      CopyIn(r);
      return Ok;
    }

    /** Blank every page.  `crashes` lists the device after each single page write. */
    method BlankPages() returns (ghost crashes: seq<seq<seq<byte>>>)
      requires Sized()
      modifies dev
      ensures |crashes| == pages
      ensures forall n :: 0 <= n < pages ==> |crashes[n]| == pages && Replayed(c, crashes[n]) == []
      ensures forall i :: base <= i < base + pages ==> dev[i] == Zeros(PAGE_SIZE)
      ensures forall i :: 0 <= i < dev.Length && (i < base || base + pages <= i) ==> dev[i] == old(dev[i])
    {
      hide Replayed;
      crashes := [];
      for p := 0 to pages
        invariant |crashes| == p
        invariant forall n :: 0 <= n < p ==> |crashes[n]| == pages && Replayed(c, crashes[n]) == []
        invariant forall i :: base <= i < base + p ==> dev[i] == Zeros(PAGE_SIZE)
        invariant forall i :: 0 <= i < dev.Length && (i < base || base + pages <= i) ==> dev[i] == old(dev[i])
      {
        dev[base + p] := Zeros(PAGE_SIZE);
        assert OnDevice()[0] == dev[base];
        BlankFirstPage(c, OnDevice());
        crashes := crashes + [OnDevice()];
      }
    }

    /**
    Blank every page and start again.  From the first page written on, the journal reads as
    empty after a crash.
    */
    method Reset() returns (ghost crashes: seq<seq<seq<byte>>>)
      requires Sized()
      modifies this, dev, stage
      ensures Valid() && Log() == [] && Durable() == 0 && Remaining() == [] && curPage == 0 && dropped == old(dropped)
      ensures |crashes| == pages
      ensures forall n :: 0 <= n < pages ==> |crashes[n]| == pages && Replayed(c, crashes[n]) == []
      ensures forall i :: 0 <= i < dev.Length && (i < base || base + pages <= i) ==> dev[i] == old(dev[i])
    {
      hide Replayed, Image, Sound;
      crashes := BlankPages();
      curPage, curOff := 0, 0;
      forall i | 0 <= i < stage.Length {
        stage[i] := 0;
      }
      assert stage[..] == Zeros(PAGE_SIZE);
      BlankStage();
      closed, open, synced, past := [], [], 0, [];
      assert forall i :: 0 <= i < pages ==> OnDevice()[i] == stage[..];
    }

    /** Read the records of one page; `more` says whether the next page is read, too. */
    method ReplayPage(page: seq<byte>) returns (found: seq<R>, more: bool)
      ensures ScanFrom(c, page, true) == PageScan(found, more)
    {
      var off := 0;
      found := [];
      assert page[0..] == page;
      while off + HEADER <= |page|
        invariant off <= |page|
        invariant ScanFrom(c, page, true) == Prepend(found, ScanFrom(c, page[off..], off == 0))
        decreases |page| - off
      {
        ghost var rest := page[off..];
        ScanStep(c, rest, off == 0);
        var parsed := c.parse(page[off..]);
        if parsed.Blank? {
          return found, off != 0;
        }
        if parsed.Malformed? || parsed.size == 0 || parsed.size > |page| - off {
          return found, false;
        }
        assert rest[parsed.size..] == page[off + parsed.size..];
        PrependOne(found, parsed.rec, ScanFrom(c, rest[parsed.size..], false));
        found := found + [parsed.rec];
        off := off + parsed.size;
      }
      return found, true;
    }

    /** Read the journal back. */
    method Replay() returns (recs: seq<R>)
      requires base + pages <= dev.Length
      ensures recs == Replayed(c, OnDevice())
    {
      hide Replayed, ScanFrom;
      ghost var image := OnDevice();
      recs := [];
      var p := 0;
      assert image[0..] == image;
      while p < pages
        invariant p <= pages
        invariant Replayed(c, image) == recs + Replayed(c, image[p..])
      {
        ReplayStep(c, image, p);
        assert image[p] == dev[base + p];
        var found, more := ReplayPage(dev[base + p]);
        recs := recs + found;
        if !more {
          return;
        }
        p := p + 1;
      }
      ReplayEnd(c, image);
    }
  }
}
