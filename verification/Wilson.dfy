/** The Wilson score interval of the evaluation summary, over the reals. */
module Wilson {
  import opened Wrappers

  const Z: real := 1.959963984540054

  type Count = n: int | n > 0 witness 1

  function Max(a: real, b: real): real {
    if a < b then b else a
  }

  function Min(a: real, b: real): real {
    if b < a then b else a
  }

  function Fraction(successes: int, samples: Count): real {
    successes as real / samples as real
  }

  /** What the square root is taken of. */
  function Radicand(successes: int, samples: Count): real {
    var n := samples as real;
    var fraction := Fraction(successes, samples);
    fraction * (1.0 - fraction) / n + Z * Z / (4.0 * n * n)
  }

  predicate IsRoot(root: real, x: real) {
    root >= 0.0 && root * root == x
  }

  function Denominator(samples: Count): (d: real)
    ensures d > 1.0
  {
    1.0 + Z * Z / samples as real
  }

  function Center(successes: int, samples: Count): real {
    (Fraction(successes, samples) + Z * Z / (2.0 * samples as real)) / Denominator(samples)
  }

  function Radius(samples: Count, root: real): real {
    Z * root / Denominator(samples)
  }

  /** wilson, where `root` is the square root that it computes. */
  function Interval(successes: int, samples: int, root: real): Result<(real, real), string> {
    if samples <= 0 || !(0 <= successes <= samples) then Err("invalid binomial observation counts")
    else
      var center := Center(successes, samples);
      var radius := Radius(samples, root);
      Ok((Max(0.0, center - radius), Min(1.0, center + radius)))
  }

  /** What is refused: no samples, and counts that are no counts of them. */
  lemma RefusedCounts(successes: int, samples: int, root: real)
    ensures Interval(successes, samples, root).Err? <==> samples < 1 || successes < 0 || successes > samples
  {
  }

  // ----- The score test -----

  /** How far a fraction is from p, against what p makes likely: negative when
      the test accepts p, zero at the two ends. */
  function Score(successes: int, samples: Count, p: real): real {
    var d := Fraction(successes, samples) - p;
    d * d - Z * Z * p * (1.0 - p) / samples as real
  }

  /** The score is a parabola in p with these two roots. */
  lemma Parabola(f: real, a: real, R: real, p: real)
    requires R * R == a * f * (1.0 - f) + a * a / 4.0
    ensures var C, D := f + a / 2.0, 1.0 + a;
            D * ((f - p) * (f - p) - a * p * (1.0 - p)) == (D * p - C - R) * (D * p - C + R)
  {
    var C, D := f + a / 2.0, 1.0 + a;
    assert (D * p - C - R) * (D * p - C + R) == (D * p - C) * (D * p - C) - R * R;
  }

  /** The interval's ingredients, in terms of Z * Z / samples. */
  function Spread(samples: Count): (a: real)
    ensures a > 0.0
  {
    Z * Z / samples as real
  }

  lemma Halves(n: real)
    requires n > 0.0
    ensures Z * Z / (2.0 * n) == Z * Z / n / 2.0
    ensures Z * Z * (Z * Z / (4.0 * n * n)) == (Z * Z / n) * (Z * Z / n) / 4.0
  {
    var a := Z * Z / n;
    assert a * n == Z * Z;
    assert Z * Z / (4.0 * n * n) == a / (4.0 * n) by {
      assert a / (4.0 * n) * (4.0 * n * n) == a * n;
    }
    assert Z * Z * (a / (4.0 * n)) == a * a / 4.0 by {
      assert a * n * (a / (4.0 * n)) == a * a / 4.0;
    }
  }

  lemma FractionBounds(successes: int, samples: Count)
    requires 0 <= successes <= samples
    ensures 0.0 <= Fraction(successes, samples) <= 1.0
    ensures Fraction(successes, samples) == 0.0 <==> successes == 0
    ensures Fraction(successes, samples) == 1.0 <==> successes == samples
  {
    var f, n := Fraction(successes, samples), samples as real;
    assert f * n == successes as real;
  }

  lemma Scaled(x: real, n: real)
    requires n > 0.0
    ensures Z * Z * (x / n) == Z * Z / n * x && Z * Z * x / n == Z * Z / n * x
  {
    var a := Z * Z / n;
    assert Z * Z == a * n;
    assert a * n * (x / n) == a * x;
  }

  lemma Quotient(x: real, d: real)
    requires d > 0.0
    ensures x / d * d == x
  {
  }

  lemma Rooted(successes: int, samples: Count, root: real)
    requires 0 <= successes <= samples && IsRoot(root, Radicand(successes, samples))
    ensures var f, a, R := Fraction(successes, samples), Spread(samples), Z * root;
            && R >= 0.0 && R * R == a * f * (1.0 - f) + a * a / 4.0
            && Denominator(samples) == 1.0 + a
            && Center(successes, samples) * (1.0 + a) == f + a / 2.0
            && Radius(samples, root) * (1.0 + a) == R
  {
    var f, n := Fraction(successes, samples), samples as real;
    var a := Spread(samples);
    Halves(n);
    Scaled(f * (1.0 - f), n);
    Quotient(f + Z * Z / (2.0 * n), 1.0 + a);
    Quotient(Z * root, 1.0 + a);
    assert Z * root * (Z * root) == Z * Z * (root * root);
    assert a * (f * (1.0 - f)) == a * f * (1.0 - f);
  }

  /** The square root is always of a positive number. */
  lemma RadicandIsPositive(successes: int, samples: Count)
    requires 0 <= successes <= samples
    ensures Radicand(successes, samples) > 0.0
  {
    FractionBounds(successes, samples);
    var f, n := Fraction(successes, samples), samples as real;
    assert f * (1.0 - f) >= 0.0;
    assert f * (1.0 - f) / n >= 0.0;
    assert n * n > 0.0;
    assert Z * Z / (4.0 * n * n) > 0.0;
  }

  lemma Factored(f: real, a: real, R: real, c: real, r: real, p: real)
    requires a > 0.0 && R * R == a * f * (1.0 - f) + a * a / 4.0
    requires c * (1.0 + a) == f + a / 2.0 && r * (1.0 + a) == R
    ensures (f - p) * (f - p) - a * p * (1.0 - p) == (1.0 + a) * ((p - (c - r)) * (p - (c + r)))
  {
    var D, u, v := 1.0 + a, p - (c - r), p - (c + r);
    Parabola(f, a, R, p);
    assert D * v == D * p - (f + a / 2.0) - R;
    assert D * u == D * p - (f + a / 2.0) + R;
    assert (D * v) * (D * u) == D * (D * (u * v));
    Cancel(D, (f - p) * (f - p) - a * p * (1.0 - p), D * (u * v));
  }

  lemma Cancel(d: real, x: real, y: real)
    requires d > 0.0 && d * x == d * y
    ensures x == y
  {
  }

  lemma ScoreIs(successes: int, samples: Count, p: real)
    ensures var f, a := Fraction(successes, samples), Spread(samples);
            Score(successes, samples, p) == (f - p) * (f - p) - a * p * (1.0 - p)
  {
    hide Fraction;
    Scaled(p * (1.0 - p), samples as real);
    assert Z * Z * p * (1.0 - p) == Z * Z * (p * (1.0 - p));
    assert Spread(samples) * p * (1.0 - p) == Spread(samples) * (p * (1.0 - p));
  }

  /** The score is a positive multiple of the product of the distances to the ends. */
  lemma ScoreFactors(successes: int, samples: Count, root: real, p: real)
    requires 0 <= successes <= samples && IsRoot(root, Radicand(successes, samples))
    ensures var c, r := Center(successes, samples), Radius(samples, root);
            Score(successes, samples, p) == Denominator(samples) * ((p - (c - r)) * (p - (c + r)))
  {
    hide *;
    Rooted(successes, samples, root);
    ScoreIs(successes, samples, p);
    Factored(Fraction(successes, samples), Spread(samples), Z * root,
             Center(successes, samples), Radius(samples, root), p);
  }

  /** A positive multiple of a product of distances, by sign. */
  lemma SignOfProduct(d: real, lo: real, hi: real, p: real)
    requires d > 0.0 && lo <= hi
    ensures d * ((p - lo) * (p - hi)) == 0.0 <==> p == lo || p == hi
    ensures d * ((p - lo) * (p - hi)) <= 0.0 <==> lo <= p <= hi
  {
    var x := (p - lo) * (p - hi);
    assert x == 0.0 <==> p == lo || p == hi;
    if p < lo {
      assert (lo - p) * (hi - p) > 0.0 && x == (lo - p) * (hi - p);
    } else if hi < p {
      assert x > 0.0;
    } else {
      assert (p - lo) * (hi - p) >= 0.0 && x == -((p - lo) * (hi - p));
    }
    Sign(d, x);
  }

  lemma Sign(d: real, x: real)
    requires d > 0.0
    ensures (d * x == 0.0 <==> x == 0.0) && (d * x <= 0.0 <==> x <= 0.0)
  {
    if x > 0.0 { assert d * x > 0.0; }
    if x < 0.0 { assert d * (-x) > 0.0; }
  }

  lemma RadiusIsPositive(successes: int, samples: Count, root: real)
    requires 0 <= successes <= samples && IsRoot(root, Radicand(successes, samples))
    ensures Radius(samples, root) > 0.0
  {
    RadicandIsPositive(successes, samples);
    Square(root);
    Quotient(Z * root, Denominator(samples));
    assert Z * root > 0.0;
  }

  /** Unclamped, the ends are exactly the two roots of the score, and what lies
      between them is exactly what the score test accepts. */
  lemma EndsAreRoots(successes: int, samples: Count, root: real, p: real)
    requires 0 <= successes <= samples && IsRoot(root, Radicand(successes, samples))
    ensures var c, r := Center(successes, samples), Radius(samples, root);
            var lo, hi := c - r, c + r;
            && lo < hi
            && (Score(successes, samples, p) == 0.0 <==> p == lo || p == hi)
            && (Score(successes, samples, p) <= 0.0 <==> lo <= p <= hi)
  {
    hide *;
    RadiusIsPositive(successes, samples, root);
    ScoreFactors(successes, samples, root, p);
    SignOfProduct(Denominator(samples), Center(successes, samples) - Radius(samples, root),
                  Center(successes, samples) + Radius(samples, root), p);
  }

  lemma ScoreAt(successes: int, samples: Count)
    requires 0 <= successes <= samples
    ensures var f := Fraction(successes, samples);
            && Score(successes, samples, 0.0) == f * f
            && Score(successes, samples, 1.0) == (1.0 - f) * (1.0 - f)
            && Score(successes, samples, f) <= 0.0
  {
    var f := Fraction(successes, samples);
    FractionBounds(successes, samples);
    assert f * (1.0 - f) >= 0.0;
    Scaled(f * (1.0 - f), samples as real);
    assert Z * Z * f * (1.0 - f) == Z * Z * (f * (1.0 - f));
    Sign(Spread(samples), -(f * (1.0 - f)));
  }

  lemma FractionMirrors(successes: int, samples: Count)
    ensures Fraction(samples - successes, samples) == 1.0 - Fraction(successes, samples)
    ensures Radicand(samples - successes, samples) == Radicand(successes, samples)
  {
    var f, g, n := Fraction(successes, samples), Fraction(samples - successes, samples), samples as real;
    Quotient(successes as real, n);
    Quotient((samples - successes) as real, n);
    assert (1.0 - f) * n == n - f * n;
    assert (samples - successes) as real == n - successes as real;
    Cancel(n, g, 1.0 - f);
    assert f * (1.0 - f) == g * (1.0 - g);
  }

  lemma CenterMirrors(successes: int, samples: Count)
    ensures Center(samples - successes, samples) == 1.0 - Center(successes, samples)
  {
    var f, n, D := Fraction(successes, samples), samples as real, Denominator(samples);
    var c, d := Center(successes, samples), Center(samples - successes, samples);
    FractionMirrors(successes, samples);
    Halves(n);
    Quotient(f + Z * Z / (2.0 * n), D);
    Quotient(1.0 - f + Z * Z / (2.0 * n), D);
    assert D * (1.0 - c) == D - c * D;
    assert D * d == d * D;
    Cancel(D, d, 1.0 - c);
  }

  /** The center lies strictly between 0 and 1. */
  lemma CenterIsInside(successes: int, samples: Count)
    requires 0 <= successes <= samples
    ensures 0.0 < Center(successes, samples) < 1.0
  {
    CenterIsPositive(successes, samples);
    CenterIsPositive(samples - successes, samples);
    CenterMirrors(successes, samples);
  }

  lemma CenterIsPositive(successes: int, samples: Count)
    requires 0 <= successes <= samples
    ensures Center(successes, samples) > 0.0
  {
    FractionBounds(successes, samples);
    hide Fraction, Denominator;
    Positive(Z * Z, 2.0 * samples as real);
    Positive(Fraction(successes, samples) + Z * Z / (2.0 * samples as real), Denominator(samples));
  }

  lemma Positive(x: real, d: real)
    requires x > 0.0 && d > 0.0
    ensures x / d > 0.0
  {
  }

  /** The ends of what the score test accepts. */
  ghost predicate AreEnds(successes: int, samples: Count, lower: real, upper: real) {
    && lower < upper
    && (forall p :: Score(successes, samples, p) == 0.0 <==> p == lower || p == upper)
    && (forall p :: Score(successes, samples, p) <= 0.0 <==> lower <= p <= upper)
  }

  lemma CenterAndRadiusAreEnds(successes: int, samples: Count, root: real)
    requires 0 <= successes <= samples && IsRoot(root, Radicand(successes, samples))
    ensures AreEnds(successes, samples,
                    Center(successes, samples) - Radius(samples, root),
                    Center(successes, samples) + Radius(samples, root))
  {
    hide Center, Radius, Score, IsRoot, Radicand;
    forall p
      ensures var c, r := Center(successes, samples), Radius(samples, root);
              var lo, hi := c - r, c + r;
              && lo < hi
              && (Score(successes, samples, p) == 0.0 <==> p == lo || p == hi)
              && (Score(successes, samples, p) <= 0.0 <==> lo <= p <= hi)
    {
      EndsAreRoots(successes, samples, root, p);
    }
    EndsAreRoots(successes, samples, root, 0.0);
  }

  /** Wherever they come from, ends whose middle lies between 0 and 1 are
      fractions around the observed one, and touch 0 or 1 only when every sample
      failed or passed. */
  lemma EndsAreFractions(successes: int, samples: Count, lower: real, upper: real)
    requires 0 <= successes <= samples && AreEnds(successes, samples, lower, upper)
    requires 0.0 < lower + upper < 2.0
    ensures 0.0 <= lower <= Fraction(successes, samples) <= upper <= 1.0
    ensures (lower == 0.0 <==> successes == 0) && (upper == 1.0 <==> successes == samples)
  {
    FractionBounds(successes, samples);
    ScoreAt(successes, samples);
    Square(Fraction(successes, samples));
    Square(1.0 - Fraction(successes, samples));
    hide Score, Fraction;
  }

  lemma Square(x: real)
    ensures x * x >= 0.0
    ensures x != 0.0 ==> x * x > 0.0
  {
    if x < 0.0 { assert x * x == (-x) * (-x); }
  }

  /** What wilson returns: the roots themselves, so that both clamps do nothing. */
  lemma IntervalIsExact(successes: int, samples: int, root: real)
    requires 0 <= successes <= samples && 0 < samples && IsRoot(root, Radicand(successes, samples))
    ensures Interval(successes, samples, root)
         == Ok((Center(successes, samples) - Radius(samples, root), Center(successes, samples) + Radius(samples, root)))
    ensures var (lower, upper) := Interval(successes, samples, root).value;
            && AreEnds(successes, samples, lower, upper)
            && 0.0 <= lower <= Fraction(successes, samples) <= upper <= 1.0
            && (lower == 0.0 <==> successes == 0) && (upper == 1.0 <==> successes == samples)
  {
    hide AreEnds, Center, Radius, Fraction, IsRoot, Radicand;
    CenterAndRadiusAreEnds(successes, samples, root);
    CenterIsInside(successes, samples);
    EndsAreFractions(successes, samples,
                     Center(successes, samples) - Radius(samples, root),
                     Center(successes, samples) + Radius(samples, root));
  }

  /** Counting failures instead of successes mirrors the interval. */
  lemma IntervalMirrors(successes: int, samples: int, root: real)
    requires 0 <= successes <= samples && 0 < samples && IsRoot(root, Radicand(successes, samples))
    ensures IsRoot(root, Radicand(samples - successes, samples))
    ensures var (lower, upper) := Interval(successes, samples, root).value;
            Interval(samples - successes, samples, root) == Ok((1.0 - upper, 1.0 - lower))
  {
    FractionMirrors(successes, samples);
    CenterMirrors(successes, samples);
    IntervalIsExact(successes, samples, root);
    IntervalIsExact(samples - successes, samples, root);
  }
}
