/** Bit operations on unbounded natural numbers, related to powers of two and divisibility. */
module Bits {
  function Pow2(n: nat): (r: nat)
    ensures r > 0
  {
    if n == 0 then 1 else 2 * Pow2(n - 1)
  }

  predicate Bit(x: nat, i: nat) {
    if i == 0 then x % 2 == 1 else Bit(x / 2, i - 1)
  }

  function Or(a: nat, b: nat): nat {
    if a == 0 && b == 0 then 0
    else 2 * Or(a / 2, b / 2) + if a % 2 == 1 || b % 2 == 1 then 1 else 0
  }

  function And(a: nat, b: nat): nat {
    if a == 0 && b == 0 then 0
    else 2 * And(a / 2, b / 2) + if a % 2 == 1 && b % 2 == 1 then 1 else 0
  }

  /** The index of the lowest bit that is set. */
  function Ffs(x: nat): nat
    requires x > 0
  {
    if x % 2 == 1 then 0 else 1 + Ffs(x / 2)
  }

  /** The index of the highest bit that is set. */
  function Fls(x: nat): nat
    requires x > 0
  {
    if x == 1 then 0 else 1 + Fls(x / 2)
  }

  /** Division by an even number, one bit at a time. */
  lemma ModHalf(x: nat, m: nat)
    requires m > 0
    ensures x % (2 * m) == 2 * (x / 2 % m) + x % 2
  {
    var q, r := x / 2 / m, x / 2 % m;
    assert x / 2 == q * m + r;
    assert x == 2 * (q * m + r) + x % 2;
    assert x == (2 * m) * q + (2 * r + x % 2) by {
      assert 2 * (q * m) == (2 * m) * q;
    }
    assert 0 <= 2 * r + x % 2 < 2 * m;
    ModIs(x, 2 * m, q, 2 * r + x % 2);
  }

  lemma ModIs(x: nat, m: nat, q: nat, r: nat)
    requires m > 0 && x == m * q + r && r < m
    ensures x % m == r && x / m == q
  {
    var d: int := x / m - q;
    assert x == m * (x / m) + x % m;
    assert m * d == r - x % m by {
      assert m * (x / m) - m * q == m * (x / m - q);
    }
    assert d >= 1 ==> m * d >= m;
    assert d <= -1 ==> m * d + m <= 0;
  }

  lemma {:induction false} OrDivides(a: nat, b: nat, k: nat)
    ensures Or(a, b) % Pow2(k) == 0 <==> a % Pow2(k) == 0 && b % Pow2(k) == 0
  {
    if k > 0 && !(a == 0 && b == 0) {
      var m := Pow2(k - 1);
      OrDivides(a / 2, b / 2, k - 1);
      ModHalf(a, m);
      ModHalf(b, m);
      ModHalf(Or(a, b), m);
      assert Or(a, b) / 2 == Or(a / 2, b / 2);
    }
  }

  lemma {:induction false} AndMask(k: nat, b: nat)
    ensures And(Pow2(k) - 1, b) == b % Pow2(k)
  {
    if k == 0 {
      AndZero(b);
    } else if !(Pow2(k) - 1 == 0 && b == 0) {
      AndMask(k - 1, b / 2);
      ModHalf(b, Pow2(k - 1));
      assert (Pow2(k) - 1) / 2 == Pow2(k - 1) - 1;
    }
  }

  lemma {:induction false} AndZero(b: nat)
    ensures And(0, b) == 0
  {
    if b > 0 {
      AndZero(b / 2);
    }
  }

  lemma {:induction false} AndCommutes(a: nat, b: nat)
    ensures And(a, b) == And(b, a)
  {
    if a > 0 || b > 0 {
      AndCommutes(a / 2, b / 2);
    }
  }

  /** The powers of two that divide `x` are those up to its lowest bit. */
  lemma {:induction false} FfsDivides(x: nat, j: nat)
    requires x > 0
    ensures x % Pow2(j) == 0 <==> j <= Ffs(x)
  {
    if j > 0 {
      ModHalf(x, Pow2(j - 1));
      if x % 2 == 0 {
        FfsDivides(x / 2, j - 1);
      }
    }
  }

  /** The powers of two that `x` reaches are those up to its highest bit. */
  lemma {:induction false} FlsBounds(x: nat, j: nat)
    requires x > 0
    ensures Pow2(j) <= x <==> j <= Fls(x)
  {
    if j > 0 {
      if x > 1 {
        FlsBounds(x / 2, j - 1);
      }
    }
  }

  lemma {:induction false} BitOfMod(x: nat, k: nat, j: nat)
    ensures Bit(x % Pow2(k), j) <==> j < k && Bit(x, j)
  {
    if k == 0 {
      BitOfZero(j);
    } else {
      ModHalf(x, Pow2(k - 1));
      var y := x % Pow2(k);
      assert y / 2 == x / 2 % Pow2(k - 1) && y % 2 == x % 2;
      if j > 0 {
        BitOfMod(x / 2, k - 1, j - 1);
      }
    }
  }

  lemma {:induction false} BitOfZero(j: nat)
    ensures !Bit(0, j)
  {
    if j > 0 {
      BitOfZero(j - 1);
    }
  }

  lemma {:induction false} FlsIsHighest(x: nat, j: nat)
    requires x > 0
    ensures Bit(x, Fls(x)) && (Bit(x, j) ==> j <= Fls(x))
  {
    if x > 1 {
      FlsIsHighest(x / 2, if j > 0 then j - 1 else 0);
    } else if j > 0 {
      BitOfZero(j - 1);
    }
  }

  lemma {:induction false} FfsIsLowest(x: nat, j: nat)
    requires x > 0
    ensures Bit(x, Ffs(x)) && (Bit(x, j) ==> Ffs(x) <= j)
  {
    if x % 2 == 0 {
      FfsIsLowest(x / 2, if j > 0 then j - 1 else 0);
    }
  }

  lemma {:induction false} Pow2Divides(i: nat, j: nat)
    requires i <= j
    ensures Pow2(j) % Pow2(i) == 0
  {
    if i > 0 {
      Pow2Divides(i - 1, j - 1);
      ModHalf(Pow2(j), Pow2(i - 1));
    }
  }

  lemma {:induction false} Pow2Grows(i: nat, j: nat)
    requires i < j
    ensures Pow2(i) < Pow2(j)
  {
    if i + 1 < j {
      Pow2Grows(i, j - 1);
    }
  }
}
