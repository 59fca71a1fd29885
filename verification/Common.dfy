/** Definitions shared by the other modules. */
module Common {
  datatype Option<+T> = None | Some(value: T)

  /** Bytes per device page. */
  const PAGE_SIZE: nat := 4096

  /** Device id that marks an unused replica slot or a stripe part not yet written. */
  const INVALID_DEV: nat := 0xFFFF_FFFF

  /** Most layers a put may have. */
  const MAX_LAYERS: nat := 256

  /** A prefix and the number of a token group within it. */
  datatype Key = Key(prefix: nat, group: nat)

  predicate NoDup(s: seq<nat>) {
    forall i, j :: 0 <= i < j < |s| ==> s[i] != s[j]
  }

  function Pow2(n: nat): (r: nat)
    ensures 1 <= r
  {
    if n == 0 then 1 else 2 * Pow2(n - 1)
  }

  function Min(a: nat, b: nat): nat {
    if a < b then a else b
  }

  function Max(a: nat, b: nat): nat {
    if a < b then b else a
  }

  lemma MulBound(k: int, m: int)
    requires 0 < m
    ensures 1 <= k ==> m <= k * m
    ensures k <= -1 ==> k * m <= -m
  {
    if 1 <= k {
      assert k * m == m + (k - 1) * m;
    } else if k <= -1 {
      assert k * m == -m + (k + 1) * m;
    }
  }

  /** Quotient and remainder are determined by their defining equation. */
  lemma ModUnique(q: int, r: nat, m: nat, x: int)
    requires r < m
    requires x == q * m + r
    ensures x % m == r && x / m == q
  {
    var q', r' := x / m, x % m;
    assert (q - q') * m == r' - r;
    MulBound(q - q', m);
  }

  /** Two numbers less than `m` apart with the same remainder are equal. */
  lemma ModInjective(a: nat, b: nat, m: nat)
    requires 0 < m
    requires a < b + m && b < a + m
    requires a % m == b % m
    ensures a == b
  {
    var k := b / m - a / m;
    assert b - a == k * m;
    MulBound(k, m);
  }

  /** Adding the modulus does not change the remainder. */
  lemma ModShift(a: nat, m: nat)
    requires 0 < m
    ensures (a + m) % m == a % m
  {
    assert a + m == (a / m + 1) * m + a % m;
    ModUnique(a / m + 1, a % m, m, a + m);
  }

  /** The successor on a ring of at least two places. */
  lemma NextOnRing(a: nat, m: nat)
    requires 2 <= m && a < m
    ensures (a + 1) % m == if a + 1 < m then a + 1 else 0
    ensures (a + 1) % m != a
  {
    if a + 1 < m {
      ModUnique(0, a + 1, m, a + 1);
    } else {
      ModUnique(1, 0, m, a + 1);
    }
  }
}
