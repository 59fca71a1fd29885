/** Whether a put is taken, and as how many parts it starts. */
module Admission {
  import opened Common
  import opened Chunks
  import Ack

  const MAX_GROUPS: nat := 256
  const MAX_PARTS: nat := 1024

  datatype Config = Config(maxLayers: nat, threshold: nat, unit: nat)

  /** The payload exceeds the threshold, of which only 32 bits count. */
  predicate Large(total: nat, cfg: Config) {
    total > cfg.threshold % B32
  }

  /** What a put must not be: out of range, or so large that its stream cannot be cut into at most 1024 slices. */
  predicate Unfit(group: nat, lens: seq<nat>, cfg: Config) {
    || group >= MAX_GROUPS || |lens| > cfg.maxLayers
    || (Large(Total(lens), cfg) && (cfg.unit % B32 == 0 || PartCount(Total(lens) % B32, cfg.unit % B32) > MAX_PARTS))
  }

  /** Parts of a put that is taken. */
  function Shares(lens: seq<nat>, hot: bool, cfg: Config): nat {
    if Large(Total(lens), cfg) && cfg.unit % B32 != 0 then PartCount(Total(lens) % B32, cfg.unit % B32)
    else if hot then 2 else 1
  }

  /**
  A put of records with the given lengths is refused if and only if it is unfit; its context, if
  there is one by then, is let go and can never be acknowledged.  Otherwise the put starts with
  every part queued and one reference a part.
  */
  method Admit(group: nat, lens: seq<nat>, hot: bool, cfg: Config) returns (ok: bool, ctx: Option<Ack.State>)
    ensures ok <==> !Unfit(group, lens, cfg)
    ensures ok ==> ctx.Some? && Ack.Accepted(ctx.value, Shares(lens, hot, cfg))
    ensures ok && Total(lens) <= cfg.threshold % B32 ==> |ctx.value.parts| == ctx.value.refs == if hot then 2 else 1
    ensures !ok && ctx.Some? ==> Ack.Finished(ctx.value) && ctx.value.acks == []
  {
    if group >= MAX_GROUPS || |lens| > cfg.maxLayers {
      return false, None;
    }
    var total := 0;
    for i := 0 to |lens|
      invariant total == Total(lens[..i])
    {
      TotalNext(lens, i);
      total := total + lens[i];
    }
    assert lens[..|lens|] == lens;
    if total > cfg.threshold % B32 {
      var n := Split(total % B32, cfg.unit);
      if n.None? || n.value > MAX_PARTS {
        Ack.ReleasedUnused(0);
        return false, Some(Ack.Released(Ack.NEW_CONTEXT, 0));
      }
      return true, Some(Started(n.value));
    }
    return true, Some(Started(if hot then 2 else 1));
  }

  /** The context with its parts counted and queued. */
  function Started(n: nat): Ack.State {
    Ack.NEW_CONTEXT.(parts := seq(n, _ => Ack.Queued), refs := n)
  }

  /** Below 4 GiB the parts of a large put are exactly the slices that cover it. */
  lemma SharesCover(lens: seq<nat>, hot: bool, cfg: Config)
    requires Large(Total(lens), cfg) && 0 < Total(lens) < B32 && 0 < cfg.unit < B32
    ensures Covered(Total(lens), cfg.unit, Shares(lens, hot, cfg))
  {
    CeilDiv(Total(lens), cfg.unit, PartCount(Total(lens), cfg.unit));
  }
}
