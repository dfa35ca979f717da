/** Machine integers of the C++ sources: the wrap-around and reinterpretation
    that a conversion performs is written out, and proved harmless where the
    callers rely on it. */
module Words {

  const TWO_31: int := 0x8000_0000
  const TWO_32: int := 0x1_0000_0000
  const TWO_63: int := 0x8000_0000_0000_0000
  const TWO_64: int := 0x1_0000_0000_0000_0000

  newtype byte = x: int | 0 <= x < 256

  /** Conversion to uint32_t. */
  function Uint32(x: int): nat { x % 0x1_0000_0000 }

  /** Conversion to int (32 bits, two's complement). */
  function Int32(x: int): int {
    var u := Uint32(x);
    if u < 0x8000_0000 then u else u - 0x1_0000_0000
  }

  /** Conversion to uint64_t, also the width of device pointers. */
  function Uint64(x: int): nat { x % 0x1_0000_0000_0000_0000 }

  /** Conversion to int64_t. */
  function Int64(x: int): int {
    var u := Uint64(x);
    if u < 0x8000_0000_0000_0000 then u else u - 0x1_0000_0000_0000_0000
  }

  lemma Int32Small(x: int)
    requires 0 <= x < TWO_31
    ensures Int32(x) == x
  {
  }

  lemma Uint64Small(x: int)
    requires 0 <= x < TWO_64
    ensures Uint64(x) == x
  {
  }

  /** A conversion changes a value by a multiple of the modulus only. */
  lemma Int32Congruent(x: int) returns (k: int)
    ensures Int32(x) == x + k * TWO_32
  {
    var q := x / TWO_32;
    assert x == q * TWO_32 + Uint32(x);
    k := if Uint32(x) < TWO_31 then -q else -q - 1;
  }

  lemma MulSign(d: int, m: int)
    requires m > 0
    ensures d >= 1 ==> d * m >= m
    ensures d <= -1 ==> d * m <= -m
  {
    if d >= 1 {
      assert d * m == (d - 1) * m + m && (d - 1) * m >= 0;
    } else if d <= -1 {
      assert d * m == (d + 1) * m - m && (d + 1) * m <= 0;
    }
  }

  lemma ModUnique(x: int, q: int, r: int, m: int)
    requires m > 0 && 0 <= r < m && x == q * m + r
    ensures x % m == r && x / m == q
  {
    var q', r' := x / m, x % m;
    assert x == q' * m + r' && 0 <= r' < m;
    assert (q - q') * m == q * m - q' * m;
    MulSign(q - q', m);
  }

  lemma {:induction false} ModPeriodic(x: int, k: int, m: int)
    requires m > 0
    ensures (x + k * m) % m == x % m
  {
    var q, r := x / m, x % m;
    assert x + k * m == (q + k) * m + r;
    ModUnique(x + k * m, q + k, r, m);
  }

  lemma Int32Periodic(x: int, k: int)
    ensures Int32(x + k * TWO_32) == Int32(x)
  {
    ModPeriodic(x, k, TWO_32);
  }

  lemma Uint64Periodic(x: int, k: int)
    ensures Uint64(x + k * TWO_64) == Uint64(x)
  {
    ModPeriodic(x, k, TWO_64);
  }

  lemma Int64Congruent(x: int) returns (k: int)
    ensures Int64(x) == x + k * TWO_64
  {
    var q := x / TWO_64;
    assert x == q * TWO_64 + Uint64(x);
    k := if Uint64(x) < TWO_63 then -q else -q - 1;
  }
}
