/** Little-endian fields: the packed structures the journal writes byte by byte. */
module Fields {
  type byte = b: nat | b < 256

  function Zeros(n: nat): (bs: seq<byte>)
    ensures |bs| == n
  {
    seq(n, _ => 0)
  }

  function Pow256(w: nat): (r: nat)
    ensures 1 <= r
  {
    if w == 0 then 1 else 256 * Pow256(w - 1)
  }

  function Le(v: nat, w: nat): (bs: seq<byte>)
    ensures |bs| == w
  {
    if w == 0 then [] else [v % 256] + Le(v / 256, w - 1)
  }

  function UnLe(bs: seq<byte>): nat {
    if bs == [] then 0 else bs[0] + 256 * UnLe(bs[1..])
  }

  lemma {:induction false} LeRoundTrip(v: nat, w: nat)
    requires v < Pow256(w)
    ensures UnLe(Le(v, w)) == v
  {
    if w != 0 {
      assert Le(v, w)[1..] == Le(v / 256, w - 1);
      LeRoundTrip(v / 256, w - 1);
    }
  }

  function Sum(widths: seq<nat>): nat {
    if widths == [] then 0 else widths[0] + Sum(widths[1..])
  }

  lemma {:induction false} SumAppend(a: seq<nat>, b: seq<nat>)
    ensures Sum(a + b) == Sum(a) + Sum(b)
  {
    if a == [] {
      assert a + b == b;
    } else {
      assert (a + b)[1..] == a[1..] + b;
      SumAppend(a[1..], b);
    }
  }

  predicate Fits(vals: seq<nat>, widths: seq<nat>) {
    |vals| == |widths| && forall i :: 0 <= i < |vals| ==> vals[i] < Pow256(widths[i])
  }

  /** The packed image of a list of fields. */
  function Pack(vals: seq<nat>, widths: seq<nat>): (bs: seq<byte>)
    requires |vals| == |widths|
    ensures |bs| == Sum(widths)
  {
    if vals == [] then [] else Le(vals[0], widths[0]) + Pack(vals[1..], widths[1..])
  }

  function Unpack(bs: seq<byte>, widths: seq<nat>): (vals: seq<nat>)
    requires Sum(widths) <= |bs|
    ensures |vals| == |widths|
  {
    if widths == [] then [] else [UnLe(bs[..widths[0]])] + Unpack(bs[widths[0]..], widths[1..])
  }

  /** The first field is read from the bytes in front, the others from those behind. */
  lemma UnpackFirst(head: seq<byte>, tail: seq<byte>, widths: seq<nat>)
    requires widths != [] && |head| == widths[0] && Sum(widths[1..]) <= |tail|
    ensures Sum(widths) <= |head + tail| && Unpack(head + tail, widths) == [UnLe(head)] + Unpack(tail, widths[1..])
  {
    hide UnLe;
    var bs := head + tail;
    assert bs[..widths[0]] == head && bs[widths[0]..] == tail;
  }

  lemma {:induction false} PackRoundTrip(vals: seq<nat>, widths: seq<nat>, rest: seq<byte>)
    requires Fits(vals, widths)
    ensures Unpack(Pack(vals, widths) + rest, widths) == vals
  {
    if vals != [] {
      var head, tail := Le(vals[0], widths[0]), Pack(vals[1..], widths[1..]) + rest;
      assert Pack(vals, widths) + rest == head + tail;
      hide Le, UnLe, Pow256, Pack, Unpack;
      UnpackFirst(head, tail, widths);
      LeRoundTrip(vals[0], widths[0]);
      PackRoundTrip(vals[1..], widths[1..], rest);
      assert vals == [vals[0]] + vals[1..];
    }
  }

  /** Any bytes are the image of the number they stand for. */
  lemma {:induction false} UnLeRoundTrip(bs: seq<byte>)
    ensures UnLe(bs) < Pow256(|bs|) && Le(UnLe(bs), |bs|) == bs
  {
    if bs != [] {
      var low, high := bs[0], UnLe(bs[1..]);
      UnLeRoundTrip(bs[1..]);
      LowByte(low, high, Pow256(|bs| - 1));
      var v := UnLe(bs);
      assert v == low + 256 * high && Pow256(|bs|) == 256 * Pow256(|bs| - 1);
      hide UnLe, Pow256;
      assert Le(v, |bs|) == [low] + Le(high, |bs| - 1);
      assert bs == [low] + bs[1..];
    }
  }

  lemma LowByte(low: nat, high: nat, top: nat)
    requires low < 256 && high < top
    ensures (low + 256 * high) % 256 == low && (low + 256 * high) / 256 == high && low + 256 * high < 256 * top
  {}

  /** Any bytes are the packed image of the fields they are read as. */
  lemma {:induction false} UnpackRoundTrip(bs: seq<byte>, widths: seq<nat>)
    requires Sum(widths) <= |bs|
    ensures Fits(Unpack(bs, widths), widths) && Pack(Unpack(bs, widths), widths) == bs[..Sum(widths)]
  {
    if widths != [] {
      var w := widths[0];
      UnLeRoundTrip(bs[..w]);
      UnpackRoundTrip(bs[w..], widths[1..]);
      assert bs[..Sum(widths)] == bs[..w] + bs[w..][..Sum(widths[1..])];
    }
  }

  function Repeat(w: nat, n: nat): (ws: seq<nat>)
    ensures |ws| == n
    ensures forall i :: 0 <= i < n ==> ws[i] == w
  {
    seq(n, _ => w)
  }

  lemma {:induction false} SumRepeat(w: nat, n: nat)
    ensures Sum(Repeat(w, n)) == w * n
  {
    if n != 0 {
      assert Repeat(w, n)[1..] == Repeat(w, n - 1);
      SumRepeat(w, n - 1);
    }
  }
}
