// The bit operations of C on unsigned numbers, and what they compute on powers of two.
module Bits {

  function Pow2(n: nat): (r: nat)
    ensures r > 0
  {
    if n == 0 then 1 else 2 * Pow2(n - 1)
  }

  // a & b, bit by bit
  function And(a: nat, b: nat): nat {
    if a == 0 || b == 0 then 0
    else 2 * And(a / 2, b / 2) + (if a % 2 == 1 && b % 2 == 1 then 1 else 0)
  }

  // a >> n
  function Shr(a: nat, n: nat): nat
    decreases n
  {
    if n == 0 then a else Shr(a / 2, n - 1)
  }

  // Halving goes through the remainder and the quotient by a power of two.
  lemma HalfMod(a: nat, p: nat)
    requires p > 0
    ensures a % (2 * p) == 2 * (a / 2 % p) + a % 2
    ensures a / (2 * p) == a / 2 / p
  {
    var q, r := a / 2 / p, a / 2 % p;
    assert a / 2 == q * p + r;
    var m := 2 * r + a % 2;
    assert a == (2 * p) * q + m by {
      assert a == 2 * (a / 2) + a % 2;
      assert 2 * (q * p + r) == (2 * p) * q + 2 * r;
    }
    DivModUnique(a, 2 * p, q, m);
  }

  lemma DivModUnique(a: nat, d: nat, q: nat, m: nat)
    requires a == d * q + m && m < d
    ensures a / d == q && a % d == m
  {
    var e := a / d - q;
    assert a == d * (a / d) + a % d;
    assert d * (a / d) == d * q + d * e;
    if e != 0 {
      MulAtLeast(d, e);
    }
  }

  lemma MulAtLeast(d: int, e: int)
    requires d > 0 && e != 0
    ensures d * e >= d || d * e <= -d
  {
    if e >= 1 { assert d * e >= d; } else { assert d * e <= -d; }
  }

  // Masking with 2^n - 1 is the remainder by 2^n.
  lemma AndMask(a: nat, n: nat)
    ensures And(a, Pow2(n) - 1) == a % Pow2(n)
  {
    MaskIsMod(a, n, Pow2(n), Pow2(n) - 1);
  }

  lemma {:induction false} MaskIsMod(a: nat, n: nat, p: nat, c: nat)
    requires p == Pow2(n) && c == p - 1
    ensures And(a, c) == a % p
    decreases n
  {
    if n > 0 && a > 0 {
      var h := Pow2(n - 1);
      MaskIsMod(a / 2, n - 1, h, h - 1);
      MaskStep(a, h, h - 1, c);
    }
  }

  lemma MaskStep(a: nat, p: nat, c: nat, d: nat)
    requires p > 0 && a > 0 && c == p - 1 && d == 2 * c + 1 && And(a / 2, c) == a / 2 % p
    ensures And(a, d) == a % (2 * p)
  {
    AndOdd(a, c);
    HalfMod(a, p);
  }

  lemma AndOdd(a: nat, c: nat)
    requires a > 0
    ensures And(a, 2 * c + 1) == 2 * And(a / 2, c) + a % 2
  {
    assert (2 * c + 1) / 2 == c;
  }

  // Shifting right by n is the quotient by 2^n.
  lemma {:induction false} ShrDiv(a: nat, n: nat)
    ensures Shr(a, n) == a / Pow2(n)
    decreases n
  {
    if n > 0 {
      ShrDiv(a / 2, n - 1);
      HalfMod(a, Pow2(n - 1));
    }
  }

  // Quotient, remainder and rounded-up quotient by repeated subtraction. The proofs about buckets use
  // these instead of the operators, which the solver is slow on when the divisor is a variable.
  function Quo(a: nat, d: nat): nat
    requires d > 0
  {
    if a < d then 0 else 1 + Quo(a - d, d)
  }

  function Rem(a: nat, d: nat): (r: nat)
    requires d > 0
    ensures r < d
  {
    if a < d then a else Rem(a - d, d)
  }

  function CeilDiv(a: nat, d: nat): nat
    requires d > 0
  {
    if a == 0 then 0 else if a <= d then 1 else 1 + CeilDiv(a - d, d)
  }

  lemma {:induction false} QuoRem(a: nat, d: nat)
    requires d > 0
    ensures Quo(a, d) == a / d && Rem(a, d) == a % d
    decreases a
  {
    if a < d {
      DivModUnique(a, d, 0, a);
    } else {
      QuoRem(a - d, d);
      var q, m := (a - d) / d, (a - d) % d;
      assert a == d * (q + 1) + m by { assert d * (q + 1) == d * q + d; }
      DivModUnique(a, d, q + 1, m);
    }
  }

  // CeilDiv(a, d) is the least number that, times d, is at least a.
  lemma {:induction false} CeilDivLeast(a: nat, d: nat, k: nat)
    requires d > 0
    ensures CeilDiv(a, d) <= k <==> a <= d * k
    decreases a
  {
    if k == 0 {
    } else if a <= d {
      assert d * k == d * (k - 1) + d;
      assert d * (k - 1) >= 0;
    } else {
      CeilDivLeast(a - d, d, k - 1);
      assert d * k == d * (k - 1) + d;
    }
  }

  // The expression that uthash.h uses for the ideal chain length: the quotient, and one more when
  // some bits are left over.
  lemma ShiftAndMaskCeil(a: nat, n: nat)
    ensures Shr(a, n) + (if And(a, Pow2(n) - 1) != 0 then 1 else 0) == CeilDiv(a, Pow2(n))
  {
    AndMask(a, n);
    ShrDiv(a, n);
    QuoRem(a, Pow2(n));
    CeilSplit(a, Pow2(n));
  }

  lemma {:induction false} CeilSplit(a: nat, d: nat)
    requires d > 0
    ensures CeilDiv(a, d) == Quo(a, d) + (if Rem(a, d) != 0 then 1 else 0)
    decreases a
  {
    if a > d {
      CeilSplit(a - d, d);
    } else if a == d {
      assert Quo(0, d) == 0 && Rem(0, d) == 0;
    }
  }
}
