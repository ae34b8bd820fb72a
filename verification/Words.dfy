/**
 Fixed-width machine integers as ranges of unbounded integers: wrapping casts,
 signed reinterpretation and C's truncating division.
 */
module Words {

  const TWO_16: int := 0x1_0000
  const TWO_31: int := 0x8000_0000
  const TWO_32: int := 0x1_0000_0000
  const TWO_64: int := 0x1_0000_0000_0000_0000

  type u16 = n: int | 0 <= n < TWO_16
  type u32 = n: int | 0 <= n < TWO_32
  type u64 = n: int | 0 <= n < TWO_64

  datatype Option<+T> = None | Some(value: T)

  function Wrap16(n: int): u16 { n % TWO_16 }

  function Wrap32(n: int): u32 { n % TWO_32 }

  /** The cast (int16_t)n. */
  function Signed16(n: int): int {
    var w := Wrap16(n);
    if w < 0x8000 then w else w - TWO_16
  }

  /** The cast (int32_t)n. */
  function Signed32(n: int): int {
    var w := Wrap32(n);
    if w < TWO_31 then w else w - TWO_32
  }

  /** C integer division, which rounds toward zero. */
  function TruncDiv(a: int, b: int): int
    requires 0 < b
  {
    if 0 <= a then a / b else -((-a) / b)
  }

  /** A wrapped difference depends only on the residues, and is exact on a half-open window. */
  lemma WrappedDifference(a: int, b: int)
    ensures Wrap16(Wrap16(a) - Wrap16(b)) == Wrap16(a - b)
    ensures 0 <= a - b < TWO_16 ==> Wrap16(a - b) == a - b
    ensures -0x8000 <= a - b < 0x8000 ==> Signed16(a - b) == a - b
  {
    var p, q := a / TWO_16, b / TWO_16;
    assert a - b == Wrap16(a) - Wrap16(b) + TWO_16 * (p - q);
    ShiftByMultiple(Wrap16(a) - Wrap16(b), p - q, TWO_16);
  }

  lemma WrapSub(a: u16, b: u16)
    ensures Wrap16(a - b) == if b <= a then a - b else a - b + TWO_16
  {
  }

  lemma WrapOfWord(n: u32)
    ensures Wrap32(n) == n
  {
  }

  lemma SignedOfSmall(n: int)
    ensures -TWO_31 <= n < TWO_31 ==> Signed32(n) == n
  {
  }

  /** The signed cast of a wrapped difference is that of the true one. */
  lemma SignedDifference(a: int, b: int)
    ensures Signed32(Wrap32(a) - Wrap32(b)) == Signed32(a - b)
  {
    var k := b / TWO_32 - a / TWO_32;
    assert Wrap32(a) - Wrap32(b) == a - b + TWO_32 * k;
    ShiftByMultiple(a - b, k, TWO_32);
  }

  lemma ShiftByMultiple(n: int, k: int, m: int)
    requires 0 < m
    ensures (n + m * k) % m == n % m
  {
    var q, r := n / m, n % m;
    assert n + m * k == m * (q + k) + r;
    UniqueRemainder(n + m * k, m, q + k, r);
  }

  lemma UniqueRemainder(n: int, m: int, q: int, r: int)
    requires 0 < m && 0 <= r < m && n == m * q + r
    ensures n / m == q && n % m == r
  {
    var q', r' := n / m, n % m;
    assert m * (q - q') == r' - r;
    MultipleIsFar(m, q - q');
  }

  lemma MultipleIsFar(m: int, k: int)
    requires 0 < m
    ensures 1 <= k ==> m <= m * k
    ensures k <= -1 ==> m * k <= -m
  {
    if 1 <= k {
      assert m * k == m + m * (k - 1) && 0 <= m * (k - 1);
    } else if k <= -1 {
      assert m * k == -m - m * (-k - 1) && 0 <= m * (-k - 1);
    }
  }

  /** Truncating division never decreases. */
  lemma TruncDivMonotone(a: int, b: int, d: int)
    requires 0 < d && a <= b
    ensures TruncDiv(a, d) <= TruncDiv(b, d)
  {
    if 0 <= a {
      DivMonotone(a, b, d);
    } else if b < 0 {
      DivMonotone(-b, -a, d);
    } else {
      DivMonotone(0, -a, d);
      DivMonotone(0, b, d);
    }
  }

  lemma DivMonotone(a: int, b: int, d: int)
    requires 0 < d && 0 <= a <= b
    ensures a / d <= b / d
    ensures 0 <= a / d
  {
    var qa, qb := a / d, b / d;
    assert a == d * qa + a % d && b == d * qb + b % d;
    assert d * (qa - qb) == d * qa - d * qb;
    MultipleIsFar(d, qa - qb);
    MultipleIsFar(d, qa);
  }
}
