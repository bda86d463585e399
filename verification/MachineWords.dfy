/** Fixed-width machine words shared by the modules of this project. */
module MachineWords {
  const TWO_16: int := 0x1_0000
  const TWO_32: int := 0x1_0000_0000
  const TWO_48: int := 0x1_0000_0000_0000
  const TWO_64: int := 0x1_0000_0000_0000_0000

  type Byte = x: int | 0 <= x < 256
  type Word32 = x: int | 0 <= x < TWO_32
  type Word64 = x: int | 0 <= x < TWO_64

  /** The low 32 bits of a number. */
  function Low32(n: nat): Word32 {
    n % TWO_32
  }

  /** Unsigned 32-bit addition. */
  function Add32(a: Word32, b: Word32): Word32 {
    (a + b) % TWO_32
  }

  /** Unsigned 64-bit addition. */
  function Add64(a: Word64, b: Word64): Word64 {
    (a + b) % TWO_64
  }

  lemma LowIs(n: nat, k: nat, r: Word32)
    requires n == k * TWO_32 + r
    ensures Low32(n) == r
  {
  }

  lemma AddLow(n: nat, b: Word32)
    ensures Add32(Low32(n), b) == Low32(n + b)
  {
  }

  lemma AddModulo64(a: nat, b: nat)
    ensures (a % TWO_64 + b) % TWO_64 == (a + b) % TWO_64
  {
  }

  // ---------- Division, for divisors that are not constants ----------

  lemma MultipleIsLarge(k: int, d: int)
    requires k >= 1 && d >= 1
    ensures k * d >= d
  {
  }

  /** Quotient and remainder are unique. */
  lemma Quotient(n: int, d: int, q: int, r: int)
    requires 0 <= r < d && n == q * d + r
    ensures n / d == q && n % d == r
  {
    var q', r' := n / d, n % d;
    assert n == q' * d + r';
    assert (q - q') * d == q * d - q' * d == r' - r;
    if q - q' >= 1 {
      MultipleIsLarge(q - q', d);
    } else if q' - q >= 1 {
      MultipleIsLarge(q' - q, d);
    }
  }

  /** The next quotient and remainder. */
  lemma OneMore(n: nat, d: nat)
    requires d > 0
    ensures (n + 1) / d == n / d + if n % d == d - 1 then 1 else 0
    ensures (n + 1) % d == if n % d == d - 1 then 0 else n % d + 1
  {
    var q, r := n / d, n % d;
    assert n == q * d + r;
    if r == d - 1 {
      assert (q + 1) * d == q * d + d;
      Quotient(n + 1, d, q + 1, 0);
    } else {
      Quotient(n + 1, d, q, r + 1);
    }
  }
}
