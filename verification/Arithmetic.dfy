/** Multiplication and division facts used by several modules. */
module Arithmetic {
  function Max(a: int, b: int): int { if a >= b then a else b }
  function Min(a: int, b: int): int { if a <= b then a else b }
  function Abs(x: int): int { if x < 0 then -x else x }

  lemma MulMono(a: nat, b: nat, k: nat)
    requires a <= b
    ensures a * k <= b * k
  {
    assert b * k == a * k + (b - a) * k;
  }

  lemma SuccTimes(n: int, k: int)
    ensures (n + 1) * k == n * k + k
  {
  }

  lemma SumTimes(m: int, n: int, k: int)
    ensures (m + n) * k == m * k + n * k
  {
  }

  lemma MulAtLeast(d: int, k: int)
    requires d >= 0
    ensures k >= 1 ==> d * k >= d
    ensures k <= -1 ==> d * k <= -d
  {
    if k >= 1 { assert d * k == d + d * (k - 1) && d * (k - 1) >= 0; }
    if k <= -1 { assert d * k == -d + d * (k + 1) && d * (k + 1) <= 0; }
  }

  lemma QuotientUnique(v: int, d: int, q: int, r: int)
    requires d > 0 && v == d * q + r && 0 <= r < d
    ensures v / d == q && v % d == r
  {
    var e := v / d;
    assert v == d * e + v % d;
    assert d * (e - q) == d * e - d * q;
    MulAtLeast(d, e - q);
  }

  lemma DivStep(m: nat, h: nat)
    requires h > 0
    ensures (m + h) / h == m / h + 1
  {
    assert h * (m / h + 1) == h * (m / h) + h;
    QuotientUnique(m + h, h, m / h + 1, m % h);
  }

  lemma DivSmall(m: nat, h: nat)
    requires m < h
    ensures m / h == 0
  {
  }
}
