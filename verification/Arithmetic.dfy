/** Quotients, remainders and powers of two: the non-linear facts the other modules call on. */
module Arithmetic {

  lemma ModAdd(a: int, q: int, m: nat)
    requires m > 0
    ensures (a + q * m) % m == a % m
    decreases if q < 0 then -q else q
  {
    if q > 0 {
      ModAdd(a, q - 1, m);
      var x := a + (q - 1) * m;
      assert a + q * m == x + m;
      ModStep(x, m);
    } else if q < 0 {
      ModAdd(a, q + 1, m);
      var x := a + q * m;
      assert a + (q + 1) * m == x + m;
      ModStep(x, m);
    }
  }

  lemma ModStep(x: int, m: nat)
    requires m > 0
    ensures (x + m) % m == x % m
  {
    var q, r := x / m, x % m;
    assert x + m == m * (q + 1) + r;
    QuotientUnique(x + m, m, q + 1, r);
  }

  lemma {:induction false} MulGrows(d: nat, m: nat)
    requires d > 0
    ensures m * d >= m
  {
    if d > 1 {
      MulGrows(d - 1, m);
      assert m * d == m * (d - 1) + m;
    }
  }

  lemma MultiplesApart(d: int, m: nat)
    ensures d > 0 ==> m * d >= m
    ensures d < 0 ==> m * d <= 0 - m
  {
    if d > 0 {
      MulGrows(d, m);
    } else if d < 0 {
      MulGrows(0 - d, m);
      assert m * d == 0 - m * (0 - d);
    }
  }

  lemma SmallMultiple(d: int, m: nat)
    requires 0 - m < m * d < m
    ensures d == 0
  {
    MultiplesApart(d, m);
  }

  lemma QuotientUnique(x: int, m: nat, q: int, r: nat)
    requires m > 0 && x == m * q + r && r < m
    ensures x / m == q && x % m == r
  {
    var q', r' := x / m, x % m;
    assert x == m * q' + r';
    assert m * (q - q') == m * q - m * q';
    SmallMultiple(q - q', m);
  }

  lemma DivSplit(hi: nat, m: nat, lo: nat)
    requires lo < m
    ensures (hi * m + lo) / m == hi && (hi * m + lo) % m == lo
  {
    QuotientUnique(hi * m + lo, m, hi, lo);
  }

  lemma HalfDiv(x: nat, m: nat)
    requires m > 0
    ensures x / m == 2 * (x / (2 * m)) + x / m % 2
  {
    var q, r := x / m, x % m;
    var h, b := q / 2, q % 2;
    assert m * (2 * h + b) == 2 * m * h + m * b;
    assert m * b < 2 * m - r by { if b == 0 { assert m * b == 0; } else { assert m * b == m; } }
    QuotientUnique(x, 2 * m, h, m * b + r);
  }

  function Pow2(n: nat): (r: nat)
    ensures r >= 1
  {
    if n == 0 then 1 else 2 * Pow2(n - 1)
  }

  lemma Doubled(v: nat, p: nat)
    ensures 2 * (v * p) == v * (2 * p)
  {
  }

  lemma Product(hi: nat, a: nat, lo: nat, p: nat)
    ensures hi * (a * p) + lo * p == (hi * a + lo) * p
  {
    assert hi * (a * p) == (hi * a) * p;
  }

  lemma {:induction false} PowAdd(a: nat, b: nat)
    ensures Pow2(a + b) == Pow2(a) * Pow2(b)
  {
    if a > 0 {
      PowAdd(a - 1, b);
      Doubled(Pow2(b), Pow2(a - 1));
    }
  }
}
