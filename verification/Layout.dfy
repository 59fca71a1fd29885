/**
Tuning of the write path for a model: how large one group of tokens is, and the stripe unit,
stripe threshold and batch size derived from it.  All sums and products are taken modulo 2^64
(or 2^32 where the result is stored in 32 bits), as the code computes them.
*/
module Layout {
  import opened Common

  const B16: nat := 0x1_0000
  const B32: nat := 0x1_0000_0000
  const B64: nat := 0x1_0000_0000_0000_0000

  /** Target for the stripe unit and the batch size when none is given. */
  const DEFAULT_TARGET: nat := 256 * 1024

  /** What the core uses for a threshold or a batch size of zero. */
  const STRIPE_THRESHOLD: nat := 1024 * 1024
  const BATCH_MIN_BYTES: nat := 256 * 1024

  function Add64(a: nat, b: nat): nat {
    (a + b) % B64
  }

  function Mul64(a: nat, b: nat): nat {
    (a * b) % B64
  }

  lemma Fits(a: nat, b: nat)
    requires a < b
    ensures a % b == a
  {}

  // ----- Divisors -----

  predicate Divides(d: nat, n: nat)
    requires 0 < d
  {
    n % d == 0
  }

  lemma DividesProduct(d: nat, k: nat)
    requires 0 < d
    ensures Divides(d, k * d)
  {
    ModUnique(k, 0, d, k * d);
  }

  lemma DividesSum(d: nat, a: nat, b: nat)
    requires 0 < d && Divides(d, a) && Divides(d, b)
    ensures Divides(d, a + b) && (b <= a ==> Divides(d, a - b))
  {
    assert a + b == (a / d + b / d) * d;
    DividesProduct(d, a / d + b / d);
    if b <= a {
      assert a - b == (a / d - b / d) * d;
      assert a / d >= b / d;
      DividesProduct(d, a / d - b / d);
    }
  }

  lemma DividesMultiple(d: nat, a: nat, k: nat)
    requires 0 < d && Divides(d, a)
    ensures Divides(d, k * a)
  {
    assert k * a == (k * (a / d)) * d;
    DividesProduct(d, k * (a / d));
  }

  /** d is a common divisor of a and b exactly when it is one of b and a % b. */
  lemma EuclidStep(d: nat, a: nat, b: nat)
    requires 0 < d && 0 < b
    ensures Divides(d, a) && Divides(d, b) <==> Divides(d, b) && Divides(d, a % b)
  {
    if Divides(d, b) {
      DividesMultiple(d, b, a / b);
      assert a == (a / b) * b + a % b;
      if Divides(d, a) {
        DividesSum(d, a, (a / b) * b);
      }
      if Divides(d, a % b) {
        DividesSum(d, a % b, (a / b) * b);
      }
    }
  }

  /** g is the greatest common divisor of a and b. */
  ghost predicate IsGcd(g: nat, a: nat, b: nat) {
    && 0 < g && Divides(g, a) && Divides(g, b)
    && forall d: nat :: 0 < d && Divides(d, a) && Divides(d, b) ==> d <= g
  }

  /** Euclid's algorithm; two zeros give one. */
  method Gcd(a0: nat, b0: nat) returns (g: nat)
    ensures a0 == 0 && b0 == 0 ==> g == 1
    ensures a0 != 0 || b0 != 0 ==> IsGcd(g, a0, b0)
  {
    var a, b := a0, b0;
    while b != 0
      invariant forall d: nat :: 0 < d ==> (Divides(d, a0) && Divides(d, b0) <==> Divides(d, a) && Divides(d, b))
      invariant a == 0 && b == 0 ==> a0 == 0 && b0 == 0
      invariant a0 == 0 && b0 == 0 ==> a == 0 && b == 0
      decreases b
    {
      forall d: nat | 0 < d
        ensures Divides(d, a) && Divides(d, b) <==> Divides(d, b) && Divides(d, a % b)
      {
        EuclidStep(d, a, b);
      }
      a, b := b, a % b;
    }
    if a == 0 {
      return 1;
    }
    g := a;
    forall d: nat | 0 < d && Divides(d, a)
      ensures d <= a
    {
      DivisorSmaller(d, a);
    }
    assert Divides(a, 0);
  }

  lemma DivisorSmaller(d: nat, n: nat)
    requires 0 < d && 0 < n && Divides(d, n)
    ensures d <= n
  {
    if n < d {
      Fits(n, d);
    }
  }

  /** m is the least common multiple of a and b. */
  ghost predicate IsLcm(m: nat, a: nat, b: nat)
    requires 0 < a && 0 < b
  {
    && 0 < m && Divides(a, m) && Divides(b, m)
    && forall c: nat :: 0 < c && Divides(a, c) && Divides(b, c) ==> m <= c
  }

  /** No common multiple is smaller than the product divided by the greatest common divisor. */
  lemma {:induction false} LcmLeast(g: nat, a: nat, b: nat, c: nat)
    requires 0 < a && 0 < b && IsGcd(g, a, b) && 0 < c && Divides(a, c) && Divides(b, c)
    ensures a / g * b <= c
    decreases c
  {
    var r := (a * b) % c;
    var d := a * b / c;
    assert a * b == d * c + r;
    DividesProduct(a, b);
    DividesProduct(b, a);
    assert b * a == a * b;
    DividesMultiple(a, c, d);
    DividesMultiple(b, c, d);
    DividesSum(a, a * b, d * c);
    DividesSum(b, a * b, d * c);
    if r > 0 {
      LcmLeast(g, a, b, r);
    } else {
      CommonDivisor(a, b, c, d);
      CommonDivisor(b, a, c, d);
      assert a == a / g * g;
      MulMono(d, g, c);
      CancelFactor(a / g * b, c, g);
    }
  }

  /** What takes a common multiple to the product divides both numbers. */
  lemma CommonDivisor(a: nat, b: nat, c: nat, d: nat)
    requires 0 < a && 0 < b && 0 < c && Divides(a, c) && a * b == d * c
    ensures 0 < d && Divides(d, b)
  {
    var u := c / a;
    assert c == u * a;
    assert a * b == a * (d * u) by {
      assert d * (u * a) == a * (d * u);
    }
    CancelLeft(a, b, d * u);
    assert d != 0;
    DividesProduct(d, u);
    assert u * d == d * u;
  }

  lemma CancelLeft(a: nat, x: nat, y: nat)
    requires 0 < a && a * x == a * y
    ensures x == y
  {
    if x < y {
      MulMono(x + 1, y, a);
    } else if y < x {
      MulMono(y + 1, x, a);
    }
  }

  lemma CancelFactor(x: nat, c: nat, g: nat)
    requires 0 < g && x * g <= g * c
    ensures x <= c
  {
    if c < x {
      MulMono(c + 1, x, g);
    }
  }

  /** Every common multiple is a multiple of the least one. */
  lemma LcmDivides(m: nat, a: nat, b: nat, c: nat)
    requires 0 < a && 0 < b && IsLcm(m, a, b) && Divides(a, c) && Divides(b, c)
    ensures Divides(m, c)
  {
    var q, r := c / m, c % m;
    assert c == q * m + r;
    DividesMultiple(a, m, q);
    DividesMultiple(b, m, q);
    DividesSum(a, c, q * m);
    DividesSum(b, c, q * m);
  }

  /** The least common multiple, unless the product overflows. */
  method Lcm(a: nat, b: nat) returns (m: nat)
    requires a < B64 && b < B64
    ensures a == 0 || b == 0 ==> m == 0
    ensures 0 < a && 0 < b && a * b < B64 ==> m <= a * b && IsLcm(m, a, b)
  {
    if a == 0 || b == 0 {
      return 0;
    }
    var g := Gcd(a, b);
    m := Mul64(a / g, b);
    if a * b < B64 {
      LcmValue(g, a, b);
      forall c: nat | 0 < c && Divides(a, c) && Divides(b, c)
        ensures m <= c
      {
        LcmLeast(g, a, b, c);
      }
    }
  }

  lemma LcmValue(g: nat, a: nat, b: nat)
    requires 0 < g && 0 < a && 0 < b && Divides(g, a) && Divides(g, b) && a * b < B64
    ensures Mul64(a / g, b) == a / g * b && 0 < a / g * b <= a * b
    ensures Divides(a, a / g * b) && Divides(b, a / g * b)
  {
    var x, y := a / g, b / g;
    assert a == x * g && b == y * g;
    assert 1 <= x <= a by {
      QuotientBound(a, g, x);
    }
    Swap(x, y, g);
    MulMono(x, a, b);
    MulMono(1, x, b);
    DividesProduct(b, x);
    DividesProduct(a, y);
    Fits(x * b, B64);
  }

  lemma QuotientBound(a: nat, g: nat, x: nat)
    requires 0 < a == x * g && 0 < g
    ensures 1 <= x <= a
  {
    MulMono(1, g, x);
    assert x != 0;
  }

  lemma Swap(x: nat, y: nat, g: nat)
    ensures x * (y * g) == y * (x * g)
  {}

  lemma MulMono(x: nat, y: nat, z: nat)
    requires x <= y
    ensures x * z <= y * z
  {}

  // ----- Alignment -----

  function AlignUp(v: nat, a: nat): nat {
    if a == 0 then v else Mul64(Add64(v, a + B64 - 1) / a, a)
  }

  function AlignDown(v: nat, a: nat): nat {
    if a == 0 then v else v / a * a
  }

  /** Rounding up gives the next multiple, unless the sum overflows. */
  lemma AlignUpValue(v: nat, a: nat)
    requires 0 < a && 0 < v && v + a - 1 < B64
    ensures v <= AlignUp(v, a) < v + a && Divides(a, AlignUp(v, a))
    ensures Divides(a, v) ==> AlignUp(v, a) == v
  {
    var s := v + a - 1;
    assert v + (a + B64 - 1) == 1 * B64 + s;
    ModUnique(1, s, B64, v + (a + B64 - 1));
    var q := s / a;
    assert q * a == s - s % a;
    Fits(q * a, B64);
    DividesProduct(a, q);
    if Divides(a, v) {
      assert v == (v / a) * a;
      ModUnique(v / a, a - 1, a, s);
    }
  }

  lemma AlignDownValue(v: nat, a: nat)
    requires 0 < a
    ensures v < AlignDown(v, a) + a && AlignDown(v, a) <= v && Divides(a, AlignDown(v, a))
    ensures Divides(a, v) ==> AlignDown(v, a) == v
  {
    assert v / a * a == v - v % a;
    DividesProduct(a, v / a);
  }

  /** x is the least multiple of a that is not below v. */
  predicate IsLeast(x: nat, a: nat, v: nat)
    requires 0 < a
  {
    Divides(a, x) && v <= x < v + a
  }

  /** x is the greatest multiple of a that is not above v. */
  predicate IsGreatest(x: nat, a: nat, v: nat)
    requires 0 < a
  {
    Divides(a, x) && x <= v < x + a
  }

  lemma GreatestPositive(x: nat, v: nat, a: nat)
    requires 0 < a <= v && IsGreatest(x, a, v)
    ensures 0 < x
  {}

  // ----- Powers of two -----

  /** The largest power of two that does not exceed v, in 32 bits. */
  method Pow2Floor(v: nat) returns (p: nat, ghost n: nat)
    requires v < B32
    ensures p == Pow2(n) && p < B32
    ensures if v == 0 then p == 1 else p <= v < 2 * p
  {
    p, n := 1, 0;
    while p * 2 <= v
      invariant p == Pow2(n) && p < B32 && (if v == 0 then p == 1 else p <= v)
      decreases v - p
    {
      p, n := (p * 2) % B32, n + 1;
    }
  }

  /** The divisors of a power of two are powers of two. */
  lemma {:induction false} DivisorOfPow2(k: nat, d: nat, n: nat) returns (m: nat)
    requires k * d == Pow2(n)
    ensures d == Pow2(m)
  {
    if n == 0 {
      assert d == 1 by {
        assert d != 0 && k != 0;
        MulMono(1, k, d);
      }
      m := 0;
    } else if k % 2 == 0 {
      assert (k / 2) * d == Pow2(n - 1) by {
        HalfProduct(k, d);
      }
      m := DivisorOfPow2(k / 2, d, n - 1);
    } else {
      OddTimes(k, d, Pow2(n - 1));
      assert k * (d / 2) == Pow2(n - 1) by {
        HalfProduct(d, k);
      }
      m := DivisorOfPow2(k, d / 2, n - 1);
      m := m + 1;
    }
  }

  lemma HalfProduct(k: nat, d: nat)
    requires k % 2 == 0
    ensures 2 * ((k / 2) * d) == k * d && 2 * (d * (k / 2)) == k * d
  {
    var h := k / 2;
    assert k == 2 * h;
    assert (2 * h) * d == 2 * (h * d);
  }

  /** If a product with an odd number is even, so is the other factor. */
  lemma OddTimes(k: nat, d: nat, h: nat)
    requires k % 2 == 1 && k * d == 2 * h
    ensures d % 2 == 0
  {
    var j := k / 2;
    assert k == 2 * j + 1;
    assert k * d == 2 * (j * d) + d;
  }

  lemma {:induction false} Pow2Between(m: nat, n: nat)
    requires Pow2(m) <= Pow2(n) < 2 * Pow2(m)
    ensures m == n
    decreases m
  {
    if m > 0 && n > 0 {
      Pow2Between(m - 1, n - 1);
    }
  }

  // ----- Sizes of a model -----

  type U16 = x: nat | x < B16
  type U32 = x: nat | x < B32

  datatype Kind = Mha | Mqa | Gqa | Mla | Swa | Ssm | Hybrid | Sparse

  datatype Profile = Profile(kind: Kind, nLayers: U16, nKvHeads: U16, headDim: U16, dtypeBytes: U16,
                             latentDim: U32, ropeDim: U32, attnLayers: U16, tokensPerGroup: U16)
  {
    /** Layers that keep keys and values: all, none, or of a hybrid those said to, if any. */
    function KvLayers(): (n: U16)
      ensures kind == Ssm ==> n == 0
      ensures kind == Hybrid && 0 < attnLayers ==> n == attnLayers
      ensures kind != Ssm && (kind != Hybrid || attnLayers == 0) ==> n == nLayers
    {
      match kind
      case Ssm => 0
      case Hybrid => if attnLayers != 0 then attnLayers else nLayers
      case _ => nLayers
    }

    /** Numbers one token keeps in one layer: a latent vector with its position, or a key and a value for each head. */
    function Elements(): nat {
      if kind == Ssm then 0
      else if kind == Mla || (kind == Sparse && 0 < latentDim) then latentDim + ropeDim
      else 2 * (if kind == Mqa then 1 else nKvHeads) * headDim
    }

    /** Bytes one token takes in one layer, cut to 32 bits. */
    function TokenLayerBytes(): (b: U32)
      ensures b == Elements() * (if dtypeBytes == 0 then 2 else dtypeBytes) % B32
    {
      var d := if dtypeBytes != 0 then dtypeBytes else 2;
      match kind
      case Ssm => 0
      case Mla => (latentDim + ropeDim) * d % B32
      case Mqa => 2 * headDim * d % B32
      case Sparse => if latentDim != 0 then (latentDim + ropeDim) * d % B32 else 2 * nKvHeads * headDim * d % B32
      case _ => 2 * nKvHeads * headDim * d % B32
    }

    function Tokens(): (t: U16)
      ensures 0 < t && (tokensPerGroup == 0 ==> t == 32) && (0 < tokensPerGroup ==> t == tokensPerGroup)
    {
      if tokensPerGroup != 0 then tokensPerGroup else 32
    }

    function LayerBytes(): nat {
      Mul64(TokenLayerBytes(), Tokens())
    }

    function GroupBytes(): nat {
      Mul64(LayerBytes(), KvLayers())
    }
  }

  /** The 16-bit fields keep every size far enough from 2^64. */
  lemma SizesFit(p: Profile)
    ensures p.LayerBytes() == p.TokenLayerBytes() * p.Tokens() < 0x1_0000_0000_0000
    ensures p.GroupBytes() == p.LayerBytes() * p.KvLayers() && p.GroupBytes() + 0x1_0000_0000_0000 < B64
    ensures 0 < p.GroupBytes() ==> 0 < p.LayerBytes() <= p.GroupBytes() && 0 < p.KvLayers()
  {
    var b, t, n := p.TokenLayerBytes(), p.Tokens(), p.KvLayers();
    ProductBound(b, B32 - 1, t, B16 - 1);
    ProductBound(b * t, (B32 - 1) * (B16 - 1), n, B16 - 1);
    if 0 < n {
      MulMono(1, n, b * t);
    }
  }

  lemma ProductBound(a: nat, x: nat, b: nat, y: nat)
    requires a <= x && b <= y
    ensures a * b <= x * y
  {
    MulMono(a, x, b);
    MulMono(b, y, x);
  }

  // ----- Tuning -----

  datatype Tuning = Tuning(group: nat, alignment: nat, unit: nat, threshold: nat, batch: nat, regionAlign: nat, entryMax: nat)

  /** The stripe threshold: whole groups if they are small, whole pages otherwise. */
  function Threshold(group: nat, target: nat, page: nat): nat {
    if group > target then AlignUp(target, page)
    else if AlignDown(target, group) == 0 then group else AlignDown(target, group)
  }

  /** The batch size: at least the target and a group, but no more than the threshold. */
  function BatchMin(group: nat, target: nat, threshold: nat, page: nat): nat {
    var pages := AlignUp(if target > group then target else group, page);
    var want := if group <= threshold then AlignUp(pages, group) else pages;
    var capped := if want > threshold then AlignDown(threshold, page) else want;
    if capped == 0 then page else capped
  }

  /** Whatever the target: the greatest multiple of the group up to it, or the least multiple of the page from it on. */
  lemma ThresholdValue(group: nat, target: nat, page: nat)
    requires 0 < group && 0 < page && 0 < target && target + page <= B64
    ensures var t := Threshold(group, target, page);
            0 < t && if group > target then IsLeast(t, page, target) else IsGreatest(t, group, target)
  {
    if group > target {
      AlignUpValue(target, page);
    } else {
      AlignDownValue(target, group);
      var t := AlignDown(target, group);
      if t < group {
        Fits(t, group);
      }
    }
  }

  /**
  Whatever the target: the least multiple of the page that holds target and group, then the least
  multiple of the group if the threshold holds one; but no more than the threshold, rounded down to
  pages, and never nothing.
  */
  lemma BatchValue(group: nat, target: nat, threshold: nat, page: nat) returns (pages: nat, want: nat)
    requires 0 < group && 0 < page && Max(target, group) + page + (if group <= threshold then group else 0) <= B64
    ensures IsLeast(pages, page, Max(target, group))
    ensures if group <= threshold then IsLeast(want, group, pages) else want == pages
    ensures var b := BatchMin(group, target, threshold, page);
            if want <= threshold then b == want else if threshold < page then b == page else IsGreatest(b, page, threshold)
  {
    hide AlignUp, AlignDown;
    pages := AlignUp(Max(target, group), page);
    AlignUpValue(Max(target, group), page);
    want := if group <= threshold then AlignUp(pages, group) else pages;
    if group <= threshold {
      AlignUpValue(pages, group);
    }
    AlignDownValue(threshold, page);
    if want > threshold && threshold < page {
      Fits(AlignDown(threshold, page), page);
    } else if want > threshold {
      GreatestPositive(AlignDown(threshold, page), threshold, page);
    }
  }

  /** With the default target the threshold is the target, or the groups it holds. */
  lemma DefaultThreshold(group: nat)
    requires 0 < group
    ensures var t := Threshold(group, DEFAULT_TARGET, PAGE_SIZE);
            if group > DEFAULT_TARGET then t == DEFAULT_TARGET else group <= t && IsGreatest(t, group, DEFAULT_TARGET)
  {
    ThresholdValue(group, DEFAULT_TARGET, PAGE_SIZE);
    hide Threshold;
    var t := Threshold(group, DEFAULT_TARGET, PAGE_SIZE);
    if group > DEFAULT_TARGET {
      SameMultiple(t, DEFAULT_TARGET, PAGE_SIZE);
    } else {
      DivisorSmaller(group, t);
    }
  }

  /** With the default targets the batch is the threshold, rounded down to pages. */
  lemma DefaultBatch(group: nat)
    requires 0 < group && group + PAGE_SIZE <= B64
    ensures var t := Threshold(group, DEFAULT_TARGET, PAGE_SIZE);
            var b := BatchMin(group, DEFAULT_TARGET, t, PAGE_SIZE);
            IsGreatest(b, PAGE_SIZE, t) && 0 < b
  {
    hide AlignUp, AlignDown, Threshold, BatchMin, IsLeast, IsGreatest;
    ThresholdValue(group, DEFAULT_TARGET, PAGE_SIZE);
    DefaultThreshold(group);
    var t := Threshold(group, DEFAULT_TARGET, PAGE_SIZE);
    var pages, want := BatchValue(group, DEFAULT_TARGET, t, PAGE_SIZE);
    BatchRounds(group, DEFAULT_TARGET, PAGE_SIZE, t, pages, want, BatchMin(group, DEFAULT_TARGET, t, PAGE_SIZE));
  }

  lemma BatchRounds(group: nat, target: nat, page: nat, t: nat, pages: nat, want: nat, b: nat)
    requires 0 < group && 0 < page && 2 * page <= target && Divides(page, target) && IsLeast(pages, page, Max(target, group))
    requires if group > target then IsLeast(t, page, target) else 0 < t && IsGreatest(t, group, target)
    requires if group <= t then IsLeast(want, group, pages) else want == pages
    requires if want <= t then b == want else if t < page then b == page else IsGreatest(b, page, t)
    ensures IsGreatest(b, page, t) && 0 < b
  {
    hide Divides;
    if group > target {
      SameMultiple(t, target, page);
      GreatestPositive(b, t, page);
    } else {
      SameMultiple(pages, target, page);
      DivisorSmaller(group, t);
      if want > t {
        GreatestPositive(b, t, page);
      }
    }
  }

  lemma SameMultiple(x: nat, v: nat, a: nat)
    requires 0 < a && IsLeast(x, a, v) && Divides(a, v)
    ensures x == v
  {
    if v < x {
      DividesSum(a, x, v);
      DivisorSmaller(a, x - v);
    }
  }

  /** The targets that count: those given, or 256 KiB. */
  function Target(given: nat): nat {
    if given == 0 then DEFAULT_TARGET else given
  }

  method Tune(p: Profile, page: U32, regionBytes: nat, targetStripe0: nat, targetBatch0: nat) returns (r: Option<Tuning>)
    requires regionBytes < B64 && targetStripe0 < B64 && targetBatch0 < B64
    ensures r.None? <==> page == 0 || p.GroupBytes() == 0
    ensures r.Some? ==> r.value.group == p.GroupBytes() && RegionAligned(p.GroupBytes(), regionBytes, r.value.regionAlign)
    ensures r.Some? && Target(targetStripe0) + page <= B64 ==>
              var t := r.value.threshold;
              0 < t && if r.value.group > Target(targetStripe0) then IsLeast(t, page, Target(targetStripe0))
                       else IsGreatest(t, r.value.group, Target(targetStripe0))
    ensures r.Some? && page * p.LayerBytes() < B64 && Target(targetStripe0) + page * p.LayerBytes() <= B64 ==>
              IsUnit(r.value.unit, page, p.LayerBytes(), Target(targetStripe0))
    ensures r.Some? ==> r.value.batch == BatchMin(p.GroupBytes(), Target(targetBatch0), r.value.threshold, page)
    ensures r.Some? && page == PAGE_SIZE && targetStripe0 == 0 && targetBatch0 == 0 ==> WellTuned(p, r.value)
  {
    hide Threshold, BatchMin, IsUnit;
    var layer, group := p.LayerBytes(), p.GroupBytes();
    if page == 0 || group == 0 {
      return None;
    }
    var stripe := if targetStripe0 != 0 then targetStripe0 else DEFAULT_TARGET;
    var batch := if targetBatch0 != 0 then targetBatch0 else DEFAULT_TARGET;
    SizesFit(p);
    var g := Gcd(group, page);
    DivisorSmaller(g, page);
    var alignment, n := Pow2Floor(g);
    var gran := Lcm(page, if layer != 0 then layer else page);
    if gran == 0 {
      gran := page;
    }
    var threshold := Threshold(group, stripe, page);
    if stripe + page <= B64 {
      ThresholdValue(group, stripe, page);
    }
    if page * layer < B64 && stripe + page * layer <= B64 {
      UnitValue(page, layer, gran, stripe);
    }
    var aligned := AlignDown(regionBytes, group);
    AlignDownValue(regionBytes, group);
    if aligned != 0 {
      DivisorSmaller(group, aligned);
    }
    var t := Tuning(group, alignment, AlignUp(stripe, gran), threshold, BatchMin(group, batch, threshold, page),
                    if regionBytes != 0 && aligned != 0 then aligned else group, AlignUp(group, page));
    if page == PAGE_SIZE && targetStripe0 == 0 && targetBatch0 == 0 {
      LayerPages(layer);
      DefaultTuned(p, t, g, n);
    }
    return Some(t);
  }

  /** The least common multiple of page and layer from the target on. */
  ghost predicate IsUnit(unit: nat, page: nat, layer: nat, target: nat)
    requires 0 < page
  {
    && 0 < layer && Divides(page, unit) && Divides(layer, unit) && target <= unit < target + page * layer
    && forall u: nat :: target <= u && Divides(page, u) && Divides(layer, u) ==> unit <= u
  }

  lemma DefaultTuned(p: Profile, t: Tuning, g: nat, n: nat)
    requires t.group == p.GroupBytes() > 0 && IsGcd(g, t.group, PAGE_SIZE) && t.alignment == Pow2(n) <= g < 2 * t.alignment
    requires t.threshold == Threshold(t.group, DEFAULT_TARGET, PAGE_SIZE)
    requires IsUnit(t.unit, PAGE_SIZE, p.LayerBytes(), DEFAULT_TARGET)
    requires t.batch == BatchMin(t.group, DEFAULT_TARGET, t.threshold, PAGE_SIZE) && t.entryMax == AlignUp(t.group, PAGE_SIZE)
    ensures WellTuned(p, t)
  {
    hide Threshold, BatchMin, IsUnit, IsGcd, IsGreatest, AlignUp, Divides, Pow2;
    hide Profile.GroupBytes, Profile.LayerBytes;
    SizesFit(p);
    DefaultThreshold(t.group);
    DefaultBatch(t.group);
    AlignUpValue(t.group, PAGE_SIZE);
    AlignmentValue(t.group, g, t.alignment, n);
  }

  lemma LayerPages(layer: nat)
    requires layer < 0x1_0000_0000_0000
    ensures DEFAULT_TARGET + PAGE_SIZE * layer <= B64
  {}

  /** Regions hold whole groups: as many as fit, or one. */
  predicate RegionAligned(group: nat, regionBytes: nat, align: nat) {
    && 0 < group && 0 < align && Divides(group, align)
    && (if regionBytes < group then align == group else align <= regionBytes < align + group)
  }

  /** What the tuned values promise. */
  ghost predicate WellTuned(p: Profile, t: Tuning) {
    && t.group == p.GroupBytes() > 0
    && IsGcd(t.alignment, t.group, PAGE_SIZE) && (exists n :: t.alignment == Pow2(n))
    && IsUnit(t.unit, PAGE_SIZE, p.LayerBytes(), DEFAULT_TARGET)
    && (if t.group > DEFAULT_TARGET then t.threshold == DEFAULT_TARGET
        else t.group <= t.threshold && IsGreatest(t.threshold, t.group, DEFAULT_TARGET))
    && IsGreatest(t.batch, PAGE_SIZE, t.threshold) && 0 < t.batch
    && IsLeast(t.entryMax, PAGE_SIZE, t.group)
  }

  lemma UnitValue(page: nat, layer: nat, gran: nat, target: nat)
    requires 0 < page && 0 < layer && 0 < target && target + page * layer <= B64 && gran <= page * layer && IsLcm(gran, page, layer)
    ensures IsUnit(AlignUp(target, gran), page, layer, target)
  {
    AlignUpValue(target, gran);
    hide AlignUp;
    var unit := AlignUp(target, gran);
    assert unit == (unit / gran) * gran;
    DividesMultiple(page, gran, unit / gran);
    DividesMultiple(layer, gran, unit / gran);
    forall u: nat | target <= u && Divides(page, u) && Divides(layer, u)
      ensures unit <= u
    {
      LcmDivides(gran, page, layer, u);
      if u < unit {
        DividesSum(gran, unit, u);
        DivisorSmaller(gran, unit - u);
      }
    }
  }

  lemma AlignmentValue(group: nat, g: nat, alignment: nat, n: nat)
    requires 0 < group && IsGcd(g, group, PAGE_SIZE) && alignment == Pow2(n) <= g < 2 * alignment
    ensures alignment == g
  {
    PageIsPow2();
    hide Pow2;
    Quotient(PAGE_SIZE, g);
    var m := DivisorOfPow2(PAGE_SIZE / g, g, 12);
    Pow2Between(n, m);
  }

  lemma PageIsPow2()
    ensures Pow2(12) == PAGE_SIZE
  {
    assert Pow2(4) == 16;
    assert Pow2(8) == 256;
  }

  lemma Quotient(n: nat, d: nat)
    requires 0 < d && Divides(d, n)
    ensures n / d * d == n
  {}

  // ----- The check the cache core makes when it opens -----

  datatype Config = Config(maxLayers: nat, unit: nat, threshold: nat, batch: nat)

  function OrDefault(v: nat, default: nat): nat {
    if v != 0 then v else default
  }

  predicate CoreAccepts(c: Config) {
    var maxLayers := OrDefault(c.maxLayers, MAX_LAYERS);
    var threshold := OrDefault(c.threshold, STRIPE_THRESHOLD);
    var batch := OrDefault(c.batch, BATCH_MIN_BYTES);
    maxLayers <= MAX_LAYERS && batch % PAGE_SIZE == 0 && batch <= threshold
  }

  /** The core accepts a tuned configuration if and only if the model has no more than 256 KV layers. */
  method ConfigValues(p: Profile) returns (r: Option<Config>)
    ensures r.None? <==> p.GroupBytes() == 0
    ensures r.Some? ==> (CoreAccepts(r.value) <==> p.KvLayers() <= MAX_LAYERS)
    ensures r.Some? ==> 0 < r.value.unit && 0 < p.LayerBytes() && Divides(PAGE_SIZE, r.value.unit) && Divides(p.LayerBytes(), r.value.unit)
  {
    var t := Tune(p, PAGE_SIZE, 0, 0, 0);
    if t.None? {
      return None;
    }
    SizesFit(p);
    return Some(Config(p.KvLayers(), t.value.unit, t.value.threshold, t.value.batch));
  }

  /** A tuned model with more layers than the core holds. */
  lemma DeepModelRefused()
    ensures var p := Profile(Gqa, 257, 8, 128, 2, 0, 0, 0, 32);
            p.GroupBytes() > 0 && p.KvLayers() > MAX_LAYERS
  {
    var p := Profile(Gqa, 257, 8, 128, 2, 0, 0, 0, 32);
    SizesFit(p);
    assert p.TokenLayerBytes() == 4096;
  }
}
