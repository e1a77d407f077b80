/** Rounding addresses and sizes to multiples of a block size. */
module Alignment {

  /** The smallest multiple of `a` that is at least `x`; for a power of two this is `(x + a - 1) & ~(a - 1)`. */
  function AlignUp(x: int, a: int): (r: int)
    requires a > 0
    ensures x <= r < x + a
  {
    RoundDown(x + a - 1, a)
  }

  lemma AlignUpAligned(x: int, a: int)
    requires a > 0
    ensures AlignUp(x, a) % a == 0
  {
    ModSub(x + a - 1, a);
  }

  lemma AlignUpLeast(x: int, a: int, m: int)
    requires a > 0 && m % a == 0 && x <= m
    ensures AlignUp(x, a) <= m
  {
    AlignUpAligned(x, a);
    if m < AlignUp(x, a) {
      MultiplesApart(m, AlignUp(x, a), a);
    }
  }

  /** The largest multiple of `a` that is at most `x`; for a power of two this is `x & ~(a - 1)`. */
  function RoundDown(x: int, a: int): (r: int)
    requires a > 0
    ensures x - a < r <= x
  {
    x - x % a
  }

  lemma ModSub(x: int, a: int)
    requires a > 0
    ensures (x - x % a) % a == 0
  {
    assert x - x % a == a * (x / a);
    MulMod(x / a, a);
  }

  lemma MulMod(q: int, a: int)
    requires a > 0
    ensures (a * q) % a == 0 && (a * q) / a == q
  {
    var d, r := (a * q) / a, (a * q) % a;
    assert a * q == a * d + r;
    assert a * (q - d) == r;
    assert q - d >= 1 ==> a * (q - d) >= a;
    assert q - d <= -1 ==> a * (q - d) <= -a;
  }

  /** Different multiples of `a` are at least `a` apart. */
  lemma MultiplesApart(m: int, n: int, a: int)
    requires a > 0 && m % a == 0 && n % a == 0 && m < n
    ensures m + a <= n
  {
    var p, q := m / a, n / a;
    assert m == a * p && n == a * q;
    assert p < q;
    assert a * (p + 1) <= a * q;
  }
}
