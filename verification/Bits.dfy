/** Shifts and single bits of numbers. */
module Bits {
  /** `x` with `n` zero bits appended. */
  function Shl(x: nat, n: nat): nat {
    if n == 0 then x else 2 * Shl(x, n - 1)
  }

  lemma {:induction false} ShlAdd(x: nat, y: nat, n: nat)
    ensures Shl(x + y, n) == Shl(x, n) + Shl(y, n)
  {
    if n > 0 {
      ShlAdd(x, y, n - 1);
    }
  }

  lemma {:induction false} ShlMonotonic(x: nat, y: nat, n: nat, k: nat)
    requires x <= y && n <= k
    ensures Shl(x, n) <= Shl(y, k)
    decreases n + k
  {
    if n > 0 {
      ShlMonotonic(x, y, n - 1, k - 1);
    } else if k > 0 {
      ShlMonotonic(x, y, n, k - 1);
    }
  }

  lemma {:induction false} ShlShl(x: nat, a: nat, b: nat)
    ensures Shl(Shl(x, a), b) == Shl(x, a + b)
  {
    if b > 0 {
      ShlShl(x, a, b - 1);
    }
  }

  lemma Shl7(x: nat, n: nat)
    ensures Shl(128 * x, n) == Shl(x, n + 7)
  {
    ShlShl(x, 7, n);
    assert Shl(x, 1) == 2 * x;
    assert Shl(x, 3) == 8 * x;
    assert Shl(x, 5) == 32 * x;
    assert Shl(x, 7) == 128 * x;
  }

  lemma Shl8(x: nat)
    ensures Shl(x, 8) == 256 * x
  {
    assert Shl(x, 1) == 2 * x;
    assert Shl(x, 3) == 8 * x;
    assert Shl(x, 5) == 32 * x;
    assert Shl(x, 7) == 128 * x;
  }

  predicate Bit(m: nat, i: nat) {
    if i == 0 then m % 2 == 1 else Bit(m / 2, i - 1)
  }

  function Power256(i: nat): (p: nat)
    ensures p > 0
  {
    if i == 0 then 1 else 256 * Power256(i - 1)
  }

  lemma DivTwice(n: nat, d: nat)
    requires d > 0
    ensures n / 256 / d == n / (256 * d)
  {
    var m := n / 256;
    DivModUnique(n, 256 * d, m / d, 256 * (m % d) + n % 256);
  }

  /** `m` or-ed with a single bit. */
  function SetBit(m: nat, i: nat): nat {
    if Bit(m, i) then m else m + Shl(1, i)
  }

  lemma {:induction false} BitOfZero(i: nat)
    ensures !Bit(0, i)
  {
    if i > 0 {
      BitOfZero(i - 1);
    }
  }

  lemma {:induction false} BitOfShl(m: nat, k: nat, i: nat)
    ensures Bit(Shl(m, k), i) <==> i >= k && Bit(m, i - k)
    decreases k
  {
    if k > 0 && i > 0 {
      BitOfShl(m, k - 1, i - 1);
    }
  }

  /** Reducing modulo 2^n keeps the low n bits. */
  lemma {:induction false} BitOfMod(m: nat, n: nat, i: nat)
    requires i < n
    ensures Shl(1, n) > 0 && (Bit(m % Shl(1, n), i) <==> Bit(m, i))
    decreases n
  {
    HalfOfMod(m, n);
    if i > 0 {
      BitOfMod(m / 2, n - 1, i - 1);
    }
  }

  lemma HalfOfMod(m: nat, n: nat)
    requires n > 0
    ensures Shl(1, n) > 0 && Shl(1, n - 1) > 0
    ensures (m % Shl(1, n)) % 2 == m % 2
    ensures (m % Shl(1, n)) / 2 == (m / 2) % Shl(1, n - 1)
  {
    ShlMonotonic(1, 1, 0, n - 1);
    var p := Shl(1, n - 1);
    var q, r := m / (2 * p), m % (2 * p);
    assert m == 2 * (p * q) + r;
    assert m / 2 == p * q + r / 2;
    DivModUnique(m / 2, p, q, r / 2);
  }

  lemma DivModUnique(x: int, d: int, q: int, r: int)
    requires d > 0 && 0 <= r < d && x == d * q + r
    ensures x / d == q && x % d == r
  {
    var q', r' := x / d, x % d;
    assert d * (q - q') == r' - r;
    if q - q' >= 1 {
      MulAtLeast(d, q - q');
    } else if q' - q >= 1 {
      MulAtLeast(d, q' - q);
    }
  }

  lemma MulAtLeast(d: int, k: int)
    requires d > 0 && k >= 1
    ensures d * k >= d
  {
    assert d * k == d + d * (k - 1);
  }

  lemma {:induction false} BitOfSet(m: nat, i: nat, j: nat)
    ensures Bit(SetBit(m, i), j) <==> j == i || Bit(m, j)
    decreases i
  {
    if !Bit(m, i) {
      if i == 0 {
        assert (m + 1) / 2 == m / 2;
      } else {
        assert SetBit(m, i) / 2 == SetBit(m / 2, i - 1);
        if j > 0 {
          BitOfSet(m / 2, i - 1, j - 1);
        }
      }
    }
  }

  lemma EvenBelow(m: nat, half: nat)
    requires m % 2 == 0 && m < 2 * half
    ensures m + 1 < 2 * half
  {
  }

  lemma HalfBelow(m: nat, half: nat)
    requires m / 2 < half
    ensures m < 2 * half
  {
  }

  lemma {:induction false} SetBitBound(m: nat, i: nat, n: nat)
    requires m < Shl(1, n) && i < n
    ensures SetBit(m, i) < Shl(1, n)
    decreases n
  {
    if !Bit(m, i) {
      var half := Shl(1, n - 1);
      assert Shl(1, n) == 2 * half;
      hide Shl;
      if i == 0 {
        EvenBelow(m, half);
      } else {
        assert m / 2 < half;
        SetBitBound(m / 2, i - 1, n - 1);
        assert SetBit(m, i) / 2 == SetBit(m / 2, i - 1);
        HalfBelow(SetBit(m, i), half);
      }
    }
  }
}
