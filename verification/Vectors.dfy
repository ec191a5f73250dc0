/** Real vectors of any dimension: scalar product, weighted sums, and the cosine between a weighted
    centroid and the embedding just absorbed. */
module Vectors {
  type Vec = seq<real>

  function Dot(a: Vec, b: Vec): real
    requires |a| == |b|
  {
    if a == [] then 0.0 else a[0] * b[0] + Dot(a[1..], b[1..])
  }

  function Scale(k: real, a: Vec): (r: Vec)
    ensures |r| == |a|
  {
    if a == [] then [] else [k * a[0]] + Scale(k, a[1..])
  }

  function Plus(a: Vec, b: Vec): (r: Vec)
    requires |a| == |b|
    ensures |r| == |a|
  {
    if a == [] then [] else [a[0] + b[0]] + Plus(a[1..], b[1..])
  }

  lemma {:induction false} DotCommutes(a: Vec, b: Vec)
    requires |a| == |b|
    ensures Dot(a, b) == Dot(b, a)
  {
    if a != [] { DotCommutes(a[1..], b[1..]); }
  }

  /** Scalar products are handed on as numbers, so that no proof multiplies with an unfolded sum. */
  lemma {:induction false} DotScale(k: real, a: Vec, b: Vec) returns (p: real, d: real)
    requires |a| == |b|
    ensures p == Dot(a, b) && d == Dot(Scale(k, a), b) && d == k * p
    decreases |a|
  {
    if a == [] {
      p, d := 0.0, 0.0;
    } else {
      var p', d' := DotScale(k, a[1..], b[1..]);
      p, d := a[0] * b[0] + p', (k * a[0]) * b[0] + d';
      assert Scale(k, a)[1..] == Scale(k, a[1..]);
      ScaleNumbers(k, a[0], b[0], p', d');
    }
  }

  lemma ScaleNumbers(k: real, x: real, y: real, p: real, d: real)
    requires d == k * p
    ensures (k * x) * y + d == k * (x * y + p)
  {
  }

  lemma {:induction false} DotPlus(a: Vec, b: Vec, c: Vec)
    requires |a| == |b| == |c|
    ensures Dot(Plus(a, b), c) == Dot(a, c) + Dot(b, c)
  {
    if a != [] {
      DotPlus(a[1..], b[1..], c[1..]);
      assert Plus(a, b)[1..] == Plus(a[1..], b[1..]);
      assert (a[0] + b[0]) * c[0] == a[0] * c[0] + b[0] * c[0];
    }
  }

  lemma {:induction false} DotSelf(a: Vec)
    ensures Dot(a, a) >= 0.0
  {
    if a != [] {
      DotSelf(a[1..]);
      assert a[0] * a[0] >= 0.0;
    }
  }

  predicate Unit(a: Vec) { Dot(a, a) == 1.0 }

  lemma DotSum(a: Vec, b: Vec, w: real, x: real, y: Vec) returns (p: real, q: real, d: real)
    requires |a| == |b| == |y|
    ensures p == Dot(a, y) && q == Dot(b, y) && d == Dot(Plus(Scale(w, a), Scale(x, b)), y) && d == w * p + x * q
  {
    DotPlus(Scale(w, a), Scale(x, b), y);
    var dp, dq: real;
    p, dp := DotScale(w, a, y);
    q, dq := DotScale(x, b, y);
    d := dp + dq;
  }

  /** The scalar square of `w * c + x * e` for unit vectors with scalar product `s`. */
  function Squared(w: real, x: real, s: real): real {
    w * w + 2.0 * (x * (w * s)) + x * x
  }

  lemma Expand(w: real, x: real, s: real)
    ensures w * (w + x * s) + x * (w * s + x) == Squared(w, x, s)
  {
    assert w * (w + x * s) == w * w + w * (x * s);
    assert x * (w * s + x) == x * (w * s) + x * x;
    assert w * (x * s) == x * (w * s);
  }

  /** The scalar products of a weighted sum of two unit vectors with its parts: `s` is that of the parts. */
  lemma SumWithParts(c: Vec, e: Vec, w: real, x: real) returns (s: real, p: real, r: real)
    requires |c| == |e| && Unit(c) && Unit(e)
    ensures var v := Plus(Scale(w, c), Scale(x, e)); s == Dot(c, e) && p == Dot(v, e) && r == Dot(v, c)
    ensures p == w * s + x && r == w + x * s
  {
    var one, one', s': real;
    s, one, p := DotSum(c, e, w, x, e);
    one', s', r := DotSum(c, e, w, x, c);
    DotCommutes(e, c);
    PartNumbers(w, x, s, s', one, one', p, r);
  }

  lemma PartNumbers(w: real, x: real, s: real, s': real, one: real, one': real, p: real, r: real)
    requires s == s' && one == one' == 1.0 && p == w * s + x * one && r == w * one' + x * s'
    ensures p == w * s + x && r == w + x * s
  {
  }

  /** And with itself. */
  lemma SumValues(c: Vec, e: Vec, w: real, x: real) returns (s: real, p: real, q: real)
    requires |c| == |e| && Unit(c) && Unit(e)
    ensures var v := Plus(Scale(w, c), Scale(x, e)); s == Dot(c, e) && p == Dot(v, e) && q == Dot(v, v)
    ensures p == w * s + x && q == Squared(w, x, s)
  {
    var v := Plus(Scale(w, c), Scale(x, e));
    var r, r', p': real;
    s, p, r := SumWithParts(c, e, w, x);
    r', p', q := DotSum(c, e, w, x, v);
    DotCommutes(c, v);
    DotCommutes(e, v);
    SelfNumbers(w, x, s, p, p', r, r', q);
  }

  lemma SelfNumbers(w: real, x: real, s: real, p: real, p': real, r: real, r': real, q: real)
    requires p == p' && r == r' && p == w * s + x && r == w + x * s && q == w * r' + x * p'
    ensures q == Squared(w, x, s)
  {
    Assemble(w, x, s, p, r, q);
  }

  lemma Assemble(w: real, x: real, s: real, ve: real, vc: real, vv: real)
    requires ve == w * s + x && vc == w + x * s && vv == w * vc + x * ve
    ensures vv == Squared(w, x, s)
  {
    Expand(w, x, s);
    assert w * vc == w * (w + x * s) && x * ve == x * (w * s + x);
  }

  /** The cosine of two unit vectors lies in [-1, 1]. */
  lemma CosineBound(c: Vec, e: Vec)
    requires |c| == |e| && Unit(c) && Unit(e)
    ensures -1.0 <= Dot(c, e) <= 1.0
  {
    var s, p, q := SumValues(c, e, 1.0, -1.0);
    var s', p', q' := SumValues(c, e, 1.0, 1.0);
    DotSelf(Plus(Scale(1.0, c), Scale(-1.0, e)));
    DotSelf(Plus(Scale(1.0, c), Scale(1.0, e)));
    SquaredOfOnes(s);
  }

  lemma SquaredOfOnes(s: real)
    ensures Squared(1.0, -1.0, s) == 2.0 - 2.0 * s && Squared(1.0, 1.0, s) == 2.0 + 2.0 * s
  {
  }

  lemma ProductSign(a: real, b: real)
    ensures a >= 0.0 && b >= 0.0 ==> a * b >= 0.0
    ensures a >= 0.0 && b <= 0.0 ==> a * b <= 0.0
  {
  }

  lemma StrictSquares(a: real, b: real)
    requires 0.0 <= a < b
    ensures a * a < b * b
  {
    assert a * (b - a) >= 0.0 && b * (b - a) > 0.0;
    assert a * (b - a) == a * b - a * a && b * (b - a) == b * b - b * a;
  }

  /** From squares back to the numbers. */
  lemma SquaresOrder(a: real, b: real)
    requires a >= 0.0 && b >= 0.0 && a * a >= b * b
    ensures a >= b
  {
    if a < b { StrictSquares(a, b); }
  }

  lemma SquaresBelow(a: real, b: real)
    requires b >= 0.0 && a * a < b * b
    ensures a < b
  {
    if a > b { StrictSquares(b, a); }
  }

  lemma SquareGap(u: real, w: real, x: real, s: real, n: real)
    requires u == w * s && n * n == Squared(w, x, s)
    ensures (u + x) * (u + x) - (s * n) * (s * n) == (1.0 - s * s) * (x * (2.0 * u + x))
  {
    var k, y := s * s, x * u;
    assert (u + x) * (u + x) == u * u + 2.0 * y + x * x;
    assert (s * n) * (s * n) == k * (n * n);
    assert n * n == w * w + 2.0 * y + x * x;
    assert k * (w * w) == u * u;
    Distribute(k, w * w, 2.0 * y, x * x);
    assert x * (2.0 * u + x) == 2.0 * y + x * x;
    assert (1.0 - k) * (2.0 * y + x * x) == (2.0 * y + x * x) - (k * (2.0 * y) + k * (x * x));
  }

  lemma Distribute(k: real, a: real, b: real, c: real)
    ensures k * (a + b + c) == k * a + k * b + k * c
  {
  }

  /** Weights with which an update cannot lower the cosine `s`. */
  predicate Harmless(w: real, x: real, s: real) {
    w >= 0.0 || x + 2.0 * w >= 0.0 || s <= 0.0 || (s == 1.0 && w + x >= 0.0)
  }

  /** With `s` the old cosine, `w * s + x` the new numerator and `n` the new norm, the new cosine
      is at least the old one. */
  lemma CosineGrows(w: real, x: real, s: real, n: real)
    requires Harmless(w, x, s) && x >= 0.0 && -1.0 <= s <= 1.0 && n >= 0.0 && n * n == Squared(w, x, s)
    ensures w * s + x >= s * n
  {
    if w >= 0.0 {
      CosineGrowsForward(w, x, s, n);
    } else if s <= 0.0 {
      ProductSign(-w, -s);
      ProductSign(n, s);
    } else if s == 1.0 && w + x >= 0.0 {
      assert n * n == (w + x) * (w + x);
      SquaresOrder(w + x, n);
    } else {
      CosineGrowsBackward(w, x, s, n);
    }
  }

  lemma CosineGrowsForward(w: real, x: real, s: real, n: real)
    requires w >= 0.0 && x >= 0.0 && -1.0 <= s <= 1.0 && n >= 0.0 && n * n == Squared(w, x, s)
    ensures w * s + x >= s * n
  {
    var u := w * s;
    SquareGap(u, w, x, s, n);
    ProductSign(w, s);
    ProductSign(n, s);
    if s >= 0.0 {
      GapNonNegative(u, x, s);
      SquaresOrder(u + x, s * n);
    } else if u + x < 0.0 {
      GapNonNegativeBelow(u, x, s);
      assert (-(s * n)) * (-(s * n)) == (s * n) * (s * n) && (-(u + x)) * (-(u + x)) == (u + x) * (u + x);
      SquaresOrder(-(s * n), -(u + x));
    }
  }

  lemma GapNonNegativeBelow(u: real, x: real, s: real)
    requires x >= 0.0 && 2.0 * u + x <= 0.0 && -1.0 <= s <= 1.0
    ensures (1.0 - s * s) * (x * (2.0 * u + x)) <= 0.0
  {
    var g, h := 1.0 - s * s, x * (2.0 * u + x);
    assert (1.0 - s) * (1.0 + s) == g;
    ProductSign(1.0 - s, 1.0 + s);
    ProductSign(x, 2.0 * u + x);
    ProductSign(g, h);
  }

  lemma CosineGrowsBackward(w: real, x: real, s: real, n: real)
    requires w < 0.0 && x + 2.0 * w >= 0.0 && 0.0 < s <= 1.0 && n >= 0.0 && n * n == Squared(w, x, s)
    ensures w * s + x >= s * n
  {
    var u := w * s;
    SquareGap(u, w, x, s, n);
    PartOf(w, s);
    GapNonNegative(u, x, s);
    ProductSign(n, s);
    SquaresOrder(u + x, s * n);
  }

  lemma GapNonNegative(u: real, x: real, s: real)
    requires x >= 0.0 && 2.0 * u + x >= 0.0 && -1.0 <= s <= 1.0
    ensures (1.0 - s * s) * (x * (2.0 * u + x)) >= 0.0
  {
    var g, h := 1.0 - s * s, x * (2.0 * u + x);
    assert (1.0 - s) * (1.0 + s) == g;
    ProductSign(1.0 - s, 1.0 + s);
    ProductSign(x, 2.0 * u + x);
    ProductSign(g, h);
  }

  lemma PartOf(w: real, s: real)
    requires w < 0.0 && 0.0 < s <= 1.0
    ensures w <= w * s
  {
    ProductSign(-w, 1.0 - s);
    assert -w * (1.0 - s) == w * s - w;
  }

  /** A strongly negative weight does lower a cosine strictly between 0 and 1. */
  lemma CosineShrinks(w: real, x: real, s: real, n: real)
    requires x > 0.0 && 0.0 < s < 1.0 && x + 2.0 * (w * s) < 0.0 && n >= 0.0 && n * n == Squared(w, x, s)
    ensures w * s + x < s * n
  {
    var u := w * s;
    var g, h := 1.0 - s * s, x * (2.0 * u + x);
    SquareGap(u, w, x, s, n);
    assert (1.0 - s) * (1.0 + s) == g;
    PositiveProduct(1.0 - s, 1.0 + s);
    PositiveProduct(x, -(2.0 * u + x));
    assert x * (-(2.0 * u + x)) == -h;
    PositiveProduct(g, -h);
    assert g * (-h) == -(g * h);
    ProductSign(n, s);
    SquaresBelow(u + x, s * n);
  }

  lemma PositiveProduct(a: real, b: real)
    requires a > 0.0 && b > 0.0
    ensures a * b > 0.0
  {
  }

  // ---------------------------------------------------------------- norms

  /** A Euclidean norm: the non-negative root of the scalar square. */
  ghost predicate IsNorm(norm: Vec -> real) {
    forall v :: norm(v) >= 0.0 && norm(v) * norm(v) == Dot(v, v)
  }

  function Normalized(norm: Vec -> real, v: Vec): (u: Vec)
    requires norm(v) > 0.0
    ensures |u| == |v|
  {
    Scale(1.0 / norm(v), v)
  }

  lemma NormalizedIsUnit(norm: Vec -> real, v: Vec)
    requires IsNorm(norm) && norm(v) > 0.0
    ensures Unit(Normalized(norm, v))
  {
    var n, u := norm(v), Normalized(norm, v);
    var k := 1.0 / n;
    var p, d := DotScale(k, v, v);
    var p', d' := DotScale(k, v, u);
    DotCommutes(v, u);
    UnitNumbers(k, n, p, d, p', d');
  }

  lemma UnitNumbers(k: real, n: real, p: real, d: real, p': real, d': real)
    requires n > 0.0 && k == 1.0 / n && p == n * n && d == k * p && p' == d && d' == k * p'
    ensures d' == 1.0
  {
    assert k * n == 1.0;
    assert k * (k * (n * n)) == (k * n) * (k * n);
  }

  lemma {:induction false} ScaleOne(v: Vec)
    ensures Scale(1.0, v) == v
  {
    if v != [] { ScaleOne(v[1..]); }
  }

  lemma NormalizeUnit(norm: Vec -> real, v: Vec)
    requires IsNorm(norm) && Unit(v)
    ensures norm(v) == 1.0 && Normalized(norm, v) == v
  {
    var n := norm(v);
    ScaleOne(v);
    if n < 1.0 { StrictSquares(n, 1.0); } else if n > 1.0 { StrictSquares(1.0, n); }
  }

  lemma SumNorm(norm: Vec -> real, c: Vec, e: Vec, w: real, x: real) returns (s: real, p: real, n: real)
    requires IsNorm(norm) && |c| == |e| && Unit(c) && Unit(e)
    ensures var v := Plus(Scale(w, c), Scale(x, e)); s == Dot(c, e) && n == norm(v) && p == Dot(v, e)
    ensures -1.0 <= s <= 1.0 && p == w * s + x && n >= 0.0 && n * n == Squared(w, x, s)
  {
    var q: real;
    s, p, q := SumValues(c, e, w, x);
    CosineBound(c, e);
    n := norm(Plus(Scale(w, c), Scale(x, e)));
  }

  /** The numbers of an update: old cosine `s`, numerator `p` and norm `n` of the sum, new cosine `d`. */
  lemma UpdateNumbers(norm: Vec -> real, c: Vec, e: Vec, w: real, x: real) returns (s: real, p: real, n: real, d: real)
    requires IsNorm(norm) && |c| == |e| && Unit(c) && Unit(e)
    ensures var v := Plus(Scale(w, c), Scale(x, e));
            s == Dot(c, e) && n == norm(v) && (n > 0.0 ==> d == Dot(Normalized(norm, v), e))
    ensures -1.0 <= s <= 1.0 && p == w * s + x && n >= 0.0 && n * n == Squared(w, x, s)
    ensures n > 0.0 ==> (p >= s * n <==> d >= s)
  {
    s, p, n := SumNorm(norm, c, e, w, x);
    d := 0.0;
    if n > 0.0 {
      d := NormalizedDot(norm, Plus(Scale(w, c), Scale(x, e)), e, p, n);
      Quotient(p, s, n, d);
    }
  }

  lemma NormalizedDot(norm: Vec -> real, v: Vec, e: Vec, p: real, n: real) returns (d: real)
    requires |v| == |e| && n == norm(v) && n > 0.0 && p == Dot(v, e)
    ensures d == Dot(Normalized(norm, v), e) && d == (1.0 / n) * p
  {
    var p', d' := DotScale(1.0 / n, v, e);
    d := d';
    assert p' == p;
  }

  lemma Quotient(p: real, s: real, n: real, d: real)
    requires n > 0.0 && d == (1.0 / n) * p
    ensures p >= s * n <==> d >= s
  {
    var k := 1.0 / n;
    assert k > 0.0 && k * n == 1.0;
    if p >= s * n { ProductSign(k, p - s * n); } else { PositiveProduct(k, s * n - p); }
    assert k * (p - s * n) == k * p - s * (k * n);
    assert k * (s * n - p) == s * (k * n) - k * p;
  }

  /** Absorbing an embedding with harmless weights never lowers the centroid's cosine to it. */
  lemma AbsorbingKeepsCosine(norm: Vec -> real, c: Vec, e: Vec, w: real, x: real)
    requires IsNorm(norm) && |c| == |e| && Unit(c) && Unit(e) && x >= 0.0 && Harmless(w, x, Dot(c, e))
    requires norm(Plus(Scale(w, c), Scale(x, e))) > 0.0
    ensures Dot(Normalized(norm, Plus(Scale(w, c), Scale(x, e))), e) >= Dot(c, e)
  {
    var s, p, n, d := UpdateNumbers(norm, c, e, w, x);
    CosineGrows(w, x, s, n);
  }

  /** A centroid that is not turned away from the embedding cannot cancel it. */
  lemma NoCancellation(norm: Vec -> real, c: Vec, e: Vec, w: real, x: real)
    requires IsNorm(norm) && |c| == |e| && Unit(c) && Unit(e) && w >= 0.0 && x >= 0.0 && Dot(c, e) >= 0.0
    ensures norm(Plus(Scale(w, c), Scale(x, e))) >= x
  {
    var s, p, n := SumNorm(norm, c, e, w, x);
    SquaredAtLeast(w, x, s);
    SquaresOrder(n, x);
  }

  lemma SquaredAtLeast(w: real, x: real, s: real)
    requires w >= 0.0 && x >= 0.0 && s >= 0.0
    ensures Squared(w, x, s) >= x * x
  {
    ProductSign(w, s);
    ProductSign(x, w * s);
    ProductSign(w, w);
  }
}
