/** Powers and the few facts about multiplication and division that the other modules share. */
module Numbers {

  function Pow(b: nat, n: nat): (r: nat)
    ensures b > 0 ==> r > 0
  {
    if n == 0 then 1 else b * Pow(b, n - 1)
  }

  function Pow2(n: nat): (r: nat)
    ensures r > 0
  {
    Pow(2, n)
  }

  lemma PowStep(b: nat, n: nat)
    ensures Pow(b, 0) == 1 && Pow(b, 1) == b
    ensures Pow(b, n + 1) == b * Pow(b, n)
  {
  }

  lemma Pow2Step(n: nat)
    ensures Pow2(0) == 1 && Pow2(n + 1) == 2 * Pow2(n)
  {
  }

  lemma MulAssoc(a: int, b: int, c: int)
    ensures a * (b * c) == (a * b) * c
  {
  }

  lemma {:induction false} PowAdd(b: nat, m: nat, n: nat)
    ensures Pow(b, m + n) == Pow(b, m) * Pow(b, n)
  {
    if m == 0 {
      PowStep(b, 0);
    } else {
      PowAdd(b, m - 1, n);
      PowStep(b, m - 1);
      PowStep(b, m - 1 + n);
      MulAssoc(b, Pow(b, m - 1), Pow(b, n));
    }
  }

  lemma {:induction false} PowMul(b: nat, m: nat, n: nat)
    ensures Pow(Pow(b, m), n) == Pow(b, m * n)
  {
    hide Pow;
    if n == 0 {
      PowStep(Pow(b, m), 0);
      PowStep(b, 0);
      assert m * 0 == 0;
    } else {
      PowMul(b, m, n - 1);
      PowStep(Pow(b, m), n - 1);
      PowAdd(b, m, m * (n - 1));
      assert m + m * (n - 1) == m * n;
    }
  }

  lemma MulMono(d: int, a: int, b: int)
    requires d >= 0 && a <= b
    ensures d * a <= d * b
  {
  }

  lemma MulLess(d: int, a: int, b: int)
    requires d > 0 && a < b
    ensures d * a < d * b
  {
  }

  lemma PowMono(b: nat, m: nat, n: nat)
    requires b > 0 && m <= n
    ensures Pow(b, m) <= Pow(b, n)
  {
    hide Pow;
    PowAdd(b, m, n - m);
    MulMono(Pow(b, m), 1, Pow(b, n - m));
  }

  lemma DivFacts(a: nat, d: nat)
    requires d > 0
    ensures d * (a / d) <= a < d * (a / d) + d
  {
    assert a == d * (a / d) + a % d;
  }

  lemma QuotientBelow(x: nat, p: nat, t: nat)
    requires t > 0 && x < p * t
    ensures x / t < p
  {
    DivFacts(x, t);
    if x / t >= p {
      MulMono(t, p, x / t);
    }
  }

  lemma DivIdentity(x: nat, t: nat)
    requires t > 0
    ensures x == (x / t) * t + x % t
  {
  }

  lemma QuotientSmaller(v: nat, base: nat)
    requires v > 0 && base > 1
    ensures v / base < v
  {
    DivFacts(v, base);
    MulMono(v / base, 2, base);
  }

  /** A quotient and a remainder below the divisor are the division's. */
  lemma DivModUnique(a: nat, d: nat, q: int, r: int)
    requires a == q * d + r && 0 <= r < d
    ensures q >= 0 && a / d == q && a % d == r
  {
    var e := a / d - q;
    assert a == d * (a / d) + a % d;
    assert e * d == r - a % d by {
      assert e * d == (a / d) * d - q * d;
    }
    if e >= 1 {
      MulMono(d, 1, e);
    } else if e <= -1 {
      MulMono(d, e, -1);
    }
    assert e == 0;
  }
}
