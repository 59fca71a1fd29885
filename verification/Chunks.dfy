/**
The bytes of a put: records one behind the other, cut into zero-padded pages, or first into
stripe slices that go to different devices.
*/
module Chunks {
  import opened Common
  import opened Fields

  type Page = seq<byte>

  const B32: nat := 0x1_0000_0000

  // ----- Records -----

  /** The records of a put, one behind the other. */
  function Stream(recs: seq<seq<byte>>): seq<byte> {
    if recs == [] then [] else Stream(recs[..|recs| - 1]) + recs[|recs| - 1]
  }

  function Lens(recs: seq<seq<byte>>): (lens: seq<nat>)
    ensures |lens| == |recs|
  {
    seq(|recs|, i requires 0 <= i < |recs| => |recs[i]|)
  }

  function Total(lens: seq<nat>): nat {
    if lens == [] then 0 else Total(lens[..|lens| - 1]) + lens[|lens| - 1]
  }

  lemma TotalNext(lens: seq<nat>, i: nat)
    requires i < |lens|
    ensures Total(lens[..i + 1]) == Total(lens[..i]) + lens[i]
  {
    assert lens[..i + 1][..i] == lens[..i];
  }

  lemma {:induction false} StreamLength(recs: seq<seq<byte>>)
    ensures |Stream(recs)| == Total(Lens(recs))
  {
    if recs != [] {
      var n := |recs| - 1;
      StreamLength(recs[..n]);
      assert Lens(recs)[..n] == Lens(recs[..n]);
    }
  }

  lemma {:induction false} StreamPrefix(recs: seq<seq<byte>>, k: nat)
    requires k <= |recs|
    ensures Stream(recs[..k]) <= Stream(recs)
  {
    if k < |recs| {
      var n := |recs| - 1;
      StreamPrefix(recs[..n], k);
      assert recs[..n][..k] == recs[..k];
    } else {
      assert recs[..k] == recs;
    }
  }

  /** Record i starts where the records before it end. */
  lemma StreamSlice(recs: seq<seq<byte>>, i: nat)
    requires i < |recs|
    ensures var off := Total(Lens(recs)[..i]);
            off + |recs[i]| <= |Stream(recs)| && Stream(recs)[off..off + |recs[i]|] == recs[i]
  {
    var off := Total(Lens(recs)[..i]);
    assert Lens(recs)[..i] == Lens(recs[..i]);
    StreamLength(recs[..i]);
    StreamPrefix(recs, i + 1);
    assert recs[..i + 1][..i] == recs[..i];
    assert Stream(recs[..i + 1]) == Stream(recs[..i]) + recs[i];
    assert Stream(recs)[..off + |recs[i]|] == Stream(recs[..i]) + recs[i];
  }

  // ----- Pages -----

  function PageCount(len: nat): nat {
    (len + PAGE_SIZE - 1) / PAGE_SIZE
  }

  function Slack(len: nat): (n: nat)
    ensures n < PAGE_SIZE && len + n == PageCount(len) * PAGE_SIZE
  {
    PageCount(len) * PAGE_SIZE - len
  }

  /** Bytes cut into pages, the last one filled up with zeros. */
  function PagesOf(s: seq<byte>): (pages: seq<Page>)
    ensures |pages| == PageCount(|s|)
    ensures forall k :: 0 <= k < |pages| ==> |pages[k]| == PAGE_SIZE
  {
    if s == [] then []
    else if |s| <= PAGE_SIZE then [s + Zeros(PAGE_SIZE - |s|)]
    else [s[..PAGE_SIZE]] + PagesOf(s[PAGE_SIZE..])
  }

  function Flat(pages: seq<Page>): seq<byte> {
    if pages == [] then [] else pages[0] + Flat(pages[1..])
  }

  lemma {:induction false} PagesFlat(s: seq<byte>)
    ensures Flat(PagesOf(s)) == s + Zeros(Slack(|s|))
  {
    if s == [] {
      assert s + Zeros(Slack(|s|)) == [];
    } else if |s| <= PAGE_SIZE {
      assert PagesOf(s)[1..] == [];
      assert Flat(PagesOf(s)) == PagesOf(s)[0];
    } else {
      var rest := s[PAGE_SIZE..];
      PagesFlat(rest);
      assert PagesOf(s)[1..] == PagesOf(rest);
      assert Slack(|rest|) == Slack(|s|);
      assert s[..PAGE_SIZE] + (rest + Zeros(Slack(|s|))) == s + Zeros(Slack(|s|));
    }
  }

  /** Gather the records of a request into the batch buffer and pad to whole pages. */
  method FillChunk(recs: seq<seq<byte>>) returns (buf: seq<byte>, len: nat)
    ensures len == |Stream(recs)| && buf == Flat(PagesOf(Stream(recs)))
  {
    len, buf := 0, [];
    for k := 0 to |recs|
      invariant buf == Stream(recs[..k]) && len == |buf|
    {
      assert recs[..k + 1][..k] == recs[..k];
      buf := buf + recs[k];
      len := len + |recs[k]|;
    }
    assert recs[..|recs|] == recs;
    PagesFlat(Stream(recs));
    buf := buf + Zeros(PageCount(len) * PAGE_SIZE - len);
  }

  // ----- Stripes -----

  /** n slices of `unit` bytes cover `len` bytes, and none of them is empty. */
  predicate Covered(len: nat, unit: nat, n: nat) {
    0 < n && (n - 1) * unit < len <= n * unit
  }

  /** Slices of u bytes that a stream takes; an empty one takes one, too. */
  function PartCount(len: nat, u: nat): nat
    requires 0 < u
  {
    if len == 0 then 1 else (len + u - 1) / u
  }

  /** How many slices a stream takes.  The unit arrives here in 32 bits. */
  method Split(len: nat, unit: nat) returns (n: Option<nat>)
    requires len < B32
    ensures n.None? <==> unit % B32 == 0
    ensures n.Some? ==> n.value == PartCount(len, unit % B32) && 0 < n.value
    ensures 0 < len ==> (n.Some? && Covered(len, unit, n.value) <==> 0 < unit < B32 || (unit % B32 != 0 && len <= unit % B32))
  {
    var u := unit % B32;
    if u == 0 {
      return None;
    }
    var q := (len + u - 1) / u;
    if len == 0 {
      ModUnique(0, u - 1, u, u - 1);
      return Some(1);
    }
    CeilDiv(len, u, q);
    n := Some(q);
    if unit >= B32 {
      LargeUnit(len, unit, q);
      if len <= u {
        MulGrows(q, u);
      }
    }
  }

  lemma CeilDiv(len: nat, u: nat, q: nat)
    requires 0 < len && 0 < u && q == (len + u - 1) / u
    ensures Covered(len, u, q)
  {
    var r := (len + u - 1) % u;
    assert q * u + r == len + u - 1;
    assert (q - 1) * u == q * u - u;
  }

  /** A slice longer than the stream covers it alone. */
  lemma LargeUnit(len: nat, unit: nat, n: nat)
    requires 0 < len < unit && 0 < n
    ensures Covered(len, unit, n) <==> n == 1
  {
    if n > 1 {
      MulGrows(n, unit);
      assert (n - 1) * unit >= unit by {
        MulBound(n - 1, unit);
      }
    }
  }

  lemma MulGrows(q: nat, u: nat)
    ensures q > 1 ==> (q - 1) * u >= u
  {
    if q > 1 && u > 0 {
      MulBound(q - 1, u);
    }
  }

  /** Slice p of a stream. */
  function Slice(stream: seq<byte>, unit: nat, p: nat): (s: seq<byte>)
    requires p * unit <= |stream|
    ensures |s| == Min(unit, |stream| - p * unit)
  {
    stream[p * unit..p * unit + Min(unit, |stream| - p * unit)]
  }

  lemma SliceStart(len: nat, unit: nat, n: nat, p: nat)
    requires Covered(len, unit, n) && p < n
    ensures p * unit < len && (p + 1) * unit == p * unit + unit
  {
    assert (n - 1) * unit == p * unit + (n - 1 - p) * unit;
  }

  /** Bytes of piece p that belong to a stream of `total` bytes. */
  function Cut(total: nat, unit: nat, p: nat): nat {
    if p * unit < total then Min(unit, total - p * unit) else 0
  }

  /** The pieces cover the stream, and each is long enough. */
  ghost predicate Enough(pieces: seq<seq<byte>>, total: nat, unit: nat) {
    Covered(total, unit, |pieces|) && forall p: nat :: p < |pieces| ==> Cut(total, unit, p) <= |pieces[p]|
  }

  /** What the first k pieces bring, one behind the other. */
  ghost function Joined(pieces: seq<seq<byte>>, total: nat, unit: nat, k: nat): seq<byte>
    requires Enough(pieces, total, unit) && k <= |pieces|
  {
    if k == 0 then [] else Joined(pieces, total, unit, k - 1) + pieces[k - 1][..Cut(total, unit, k - 1)]
  }

  lemma {:induction false} JoinedLength(pieces: seq<seq<byte>>, total: nat, unit: nat, k: nat)
    requires Enough(pieces, total, unit) && k <= |pieces|
    ensures |Joined(pieces, total, unit, k)| == Min(k * unit, total)
  {
    if k > 0 {
      JoinedLength(pieces, total, unit, k - 1);
      SliceStart(total, unit, |pieces|, k - 1);
    }
  }

  /** Put the pieces at their places in the buffer of the stream. */
  method Reassemble(pieces: seq<seq<byte>>, total: nat, unit: nat) returns (out: seq<byte>)
    requires Enough(pieces, total, unit)
    ensures out == Joined(pieces, total, unit, |pieces|)
  {
    out := Zeros(total);
    var doff := 0;
    for p := 0 to |pieces|
      invariant |out| == total && doff == p * unit
      invariant out[..Min(doff, total)] == Joined(pieces, total, unit, p)
    {
      SliceStart(total, unit, |pieces|, p);
      JoinedLength(pieces, total, unit, p);
      var len := Min(unit, total - doff);
      assert len == Cut(total, unit, p) && Min(doff + unit, total) == doff + len;
      out := CopyIn(out, doff, pieces[p][..len]);
      doff := doff + unit;
    }
    assert out[..total] == out;
  }

  method CopyIn(out: seq<byte>, off: nat, piece: seq<byte>) returns (out': seq<byte>)
    requires off + |piece| <= |out|
    ensures |out'| == |out| && out'[..off + |piece|] == out[..off] + piece
  {
    out' := out[..off] + piece + out[off + |piece|..];
  }

  /** The piece starts with slice p of the stream. */
  ghost predicate StartsWithSlice(piece: seq<byte>, stream: seq<byte>, unit: nat, p: nat) {
    var lo, len := p * unit, Cut(|stream|, unit, p);
    lo + len <= |stream| && len <= |piece| && piece[..len] == stream[lo..lo + len]
  }

  /** Pieces that start with the slices of a stream, joined, are the stream, whatever the unit. */
  lemma {:induction false} SlicesJoin(pieces: seq<seq<byte>>, stream: seq<byte>, unit: nat, k: nat)
    requires Enough(pieces, |stream|, unit) && k <= |pieces|
    requires forall p: nat :: p < |pieces| ==> StartsWithSlice(pieces[p], stream, unit, p)
    ensures Joined(pieces, |stream|, unit, k) == stream[..Min(k * unit, |stream|)]
  {
    if k > 0 {
      SlicesJoin(pieces, stream, unit, k - 1);
      SliceStart(|stream|, unit, |pieces|, k - 1);
      assert StartsWithSlice(pieces[k - 1], stream, unit, k - 1);
      JoinNext(stream, (k - 1) * unit, Cut(|stream|, unit, k - 1));
    }
  }

  lemma JoinNext(stream: seq<byte>, lo: nat, len: nat)
    requires lo + len <= |stream|
    ensures stream[..lo] + stream[lo..lo + len] == stream[..lo + len]
  {}

  /** The pages of a slice start with it. */
  lemma SliceRead(stream: seq<byte>, unit: nat, p: nat)
    requires p * unit <= |stream|
    ensures StartsWithSlice(Flat(PagesOf(Slice(stream, unit, p))), stream, unit, p)
  {
    PagesFlat(Slice(stream, unit, p));
  }
}
