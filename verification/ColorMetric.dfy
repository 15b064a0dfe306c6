/**
 Pixels and the colour distance of `pam.h`, over exact reals.

 The distance compares two premultiplied pixels blended on black and blended on
 white, and takes the worse of the two in every channel.  `TriangleInequality` is
 the fact the vantage-point search of `nearest.c` relies on for its pruning.
 */
module ColorMetric {

  datatype Pixel = Pixel(a: real, r: real, g: real, b: real)

  datatype ColormapItem = ColormapItem(acolor: Pixel, popularity: real)

  const MAX_DIFF := 100000000000000000000.0

  function Max(x: real, y: real): real {
    if x > y then x else y
  }

  /** Worst of the channel difference on a black and on a white background, squared. */
  function DifferenceCh(x: real, y: real, alphas: real): real {
    var black := x - y;
    var white := black + alphas;
    Max(black * black, white * white)
  }

  function ColorDifference(px: Pixel, py: Pixel): real {
    var alphas := py.a - px.a;
    DifferenceCh(px.r, py.r, alphas) + DifferenceCh(px.g, py.g, alphas) + DifferenceCh(px.b, py.b, alphas)
  }

  /** What the callers of `sqrtf` and `sqrt` rely on. */
  ghost predicate IsSquareRoot(sqrt: real -> real) {
    forall x :: 0.0 <= x ==> 0.0 <= sqrt(x) && Sq(sqrt(x)) == x
  }

  // ----- squares

  lemma {:induction false} SquareNonNegative(x: real)
    ensures 0.0 <= x * x
  {
  }

  lemma {:induction false} ProductPositive(x: real, y: real)
    requires 0.0 < x && 0.0 < y
    ensures 0.0 < x * y
  {
  }

  lemma {:induction false} SquareStrict(x: real, y: real)
    requires 0.0 <= x < y
    ensures x * x < y * y
  {
    ProductPositive(y - x, y + x);
    assert (y - x) * (y + x) == y * y - x * x;
  }

  lemma {:induction false} SquareMonotone(x: real, y: real)
    requires 0.0 <= x && 0.0 <= y
    ensures x * x <= y * y <==> x <= y
    ensures x * x < y * y <==> x < y
  {
    if x < y {
      SquareStrict(x, y);
    } else if y < x {
      SquareStrict(y, x);
    }
  }

  function Abs(x: real): real {
    if x < 0.0 then -x else x
  }

  /** The seminorm behind one channel: its square is `DifferenceCh`. */
  function ChannelNorm(black: real, white: real): real {
    Max(Abs(black), Abs(white))
  }

  lemma {:induction false} ChannelNormSquared(x: real, y: real, alphas: real)
    ensures 0.0 <= ChannelNorm(x - y, x - y + alphas)
    ensures DifferenceCh(x, y, alphas) == Sq(ChannelNorm(x - y, x - y + alphas))
  {
    var black := x - y;
    var white := black + alphas;
    SquareMonotone(Abs(black), Abs(white));
    assert Abs(black) * Abs(black) == black * black;
    assert Abs(white) * Abs(white) == white * white;
  }

  // ----- what the distance measures

  /** A premultiplied channel seen on a grey background: t is 0 for black and 1 for white. */
  function Blended(c: real, alpha: real, t: real): real {
    c + t * (1.0 - alpha)
  }

  /** Squared difference of a channel of two pixels on the same background. */
  function SeenDifference(x: real, ax: real, y: real, ay: real, t: real): real {
    Sq(Blended(x, ax, t) - Blended(y, ay, t))
  }

  /** The larger of the two differences seen on black and on white. */
  function WorstSeen(x: real, ax: real, y: real, ay: real): real {
    var black, white := SeenDifference(x, ax, y, ay, 0.0), SeenDifference(x, ax, y, ay, 1.0);
    if black <= white then white else black
  }

  /** The distance is the sum of the worst differences seen on black or white, channel by channel. */
  lemma {:induction false} DistanceSeen(px: Pixel, py: Pixel)
    ensures ColorDifference(px, py) ==
      WorstSeen(px.r, px.a, py.r, py.a) + WorstSeen(px.g, px.a, py.g, py.a) + WorstSeen(px.b, px.a, py.b, py.a)
  {
    ChannelSeen(px.r, px.a, py.r, py.a);
    ChannelSeen(px.g, px.a, py.g, py.a);
    ChannelSeen(px.b, px.a, py.b, py.a);
    hide DifferenceCh, WorstSeen;
  }

  lemma {:induction false} ChannelSeen(x: real, ax: real, y: real, ay: real)
    ensures DifferenceCh(x, y, ay - ax) == WorstSeen(x, ax, y, ay)
  {
    var black, white := x - y, x - y + (ay - ax);
    assert Blended(x, ax, 0.0) - Blended(y, ay, 0.0) == black;
    assert Blended(x, ax, 1.0) - Blended(y, ay, 1.0) == white;
  }

  /** No grey background in between shows a larger difference. */
  lemma {:induction false} WorstOnEveryBackground(x: real, ax: real, y: real, ay: real, t: real)
    requires 0.0 <= t <= 1.0
    ensures SeenDifference(x, ax, y, ay, t) <= WorstSeen(x, ax, y, ay)
  {
    var black, white := x - y, x - y + (ay - ax);
    assert Blended(x, ax, 0.0) - Blended(y, ay, 0.0) == black;
    assert Blended(x, ax, 1.0) - Blended(y, ay, 1.0) == white;
    BlendedMix(x, ax, y, ay, t);
    MixBetween(black, white, t);
    hide Sq, Blended, Mix;
    SquareBetween(black, white, Mix(black, white, t));
  }

  /** The point at t between u and v. */
  function Mix(u: real, v: real, t: real): real {
    u + Times(t, v - u)
  }

  function Times(x: real, y: real): real {
    x * y
  }

  lemma {:induction false} BlendedMix(x: real, ax: real, y: real, ay: real, t: real)
    ensures Blended(x, ax, t) - Blended(y, ay, t) == Mix(x - y, x - y + (ay - ax), t)
  {
    assert t * (1.0 - ax) - t * (1.0 - ay) == t * (ay - ax);
  }

  lemma {:induction false} MixBetween(u: real, v: real, t: real)
    requires 0.0 <= t <= 1.0
    ensures u <= Mix(u, v, t) <= v || v <= Mix(u, v, t) <= u
  {
    hide Times;
    if u <= v {
      Scaled(t, v - u);
    } else {
      Scaled(t, u - v);
      TimesNegated(t, u - v);
      assert v - u == -(u - v);
    }
  }

  lemma {:induction false} Scaled(t: real, d: real)
    requires 0.0 <= t <= 1.0 && 0.0 <= d
    ensures 0.0 <= Times(t, d) <= d
  {
    assert d - t * d == (1.0 - t) * d;
    ProductNonNegative(t, d);
    ProductNonNegative(1.0 - t, d);
  }

  lemma {:induction false} TimesNegated(x: real, y: real)
    ensures Times(x, -y) == -Times(x, y)
  {
  }

  lemma {:induction false} ProductNonNegative(x: real, y: real)
    requires 0.0 <= x && 0.0 <= y
    ensures 0.0 <= x * y
  {
  }

  lemma {:induction false} SquareBetween(u: real, v: real, w: real)
    requires u <= w <= v || v <= w <= u
    ensures Sq(w) <= Sq(u) || Sq(w) <= Sq(v)
  {
    AbsSquare(u);
    AbsSquare(v);
    AbsSquare(w);
    hide Sq;
    SqMonotone(Abs(w), Abs(u));
    SqMonotone(Abs(w), Abs(v));
  }

  lemma {:induction false} AbsSquare(x: real)
    ensures Sq(Abs(x)) == Sq(x)
  {
  }

  // ----- metric laws

  lemma {:induction false} ChannelSymmetric(x: real, y: real, alphas: real)
    ensures DifferenceCh(x, y, alphas) == DifferenceCh(y, x, -alphas)
  {
    assert (x - y) * (x - y) == (y - x) * (y - x);
    assert (x - y + alphas) * (x - y + alphas) == (y - x + -alphas) * (y - x + -alphas);
  }

  lemma {:induction false} Symmetric(px: Pixel, py: Pixel)
    ensures ColorDifference(px, py) == ColorDifference(py, px)
  {
    var alphas := py.a - px.a;
    ChannelSymmetric(px.r, py.r, alphas);
    ChannelSymmetric(px.g, py.g, alphas);
    ChannelSymmetric(px.b, py.b, alphas);
    assert -alphas == px.a - py.a;
  }

  lemma {:induction false} SqZero(x: real)
    ensures 0.0 <= Sq(x)
    ensures x != 0.0 ==> 0.0 < Sq(x)
    ensures x == 0.0 ==> Sq(x) == 0.0
  {
    if x != 0.0 {
      SquareStrict(0.0, Abs(x));
      assert Abs(x) * Abs(x) == x * x;
    }
  }

  lemma {:induction false} ChannelZero(x: real, y: real, alphas: real)
    ensures 0.0 <= DifferenceCh(x, y, alphas)
    ensures DifferenceCh(x, y, alphas) == 0.0 <==> x == y && alphas == 0.0
  {
    hide DifferenceCh, Sq;
    ChannelNormSquared(x, y, alphas);
    SqZero(ChannelNorm(x - y, x - y + alphas));
  }

  lemma {:induction false} NonNegative(px: Pixel, py: Pixel)
    ensures 0.0 <= ColorDifference(px, py)
    ensures ColorDifference(px, py) == 0.0 <==> px == py
  {
    hide DifferenceCh;
    var alphas := py.a - px.a;
    ChannelZero(px.r, py.r, alphas);
    ChannelZero(px.g, py.g, alphas);
    ChannelZero(px.b, py.b, alphas);
  }

  lemma {:induction false} ChannelNormTriangle(b1: real, w1: real, b2: real, w2: real)
    ensures ChannelNorm(b1 + b2, w1 + w2) <= ChannelNorm(b1, w1) + ChannelNorm(b2, w2)
  {
  }

  /** The two-term step of Lagrange's identity. */
  lemma {:induction false} CrossTerm(x: real, y: real, u: real, v: real)
    ensures 2.0 * (x * u) * (y * v) <= (x * v) * (x * v) + (y * u) * (y * u)
  {
    SquareNonNegative(x * v - y * u);
    assert (x * v - y * u) * (x * v - y * u)
        == (x * v) * (x * v) - 2.0 * (x * v) * (y * u) + (y * u) * (y * u);
    assert (x * v) * (y * u) == (x * u) * (y * v);
  }

  lemma {:induction false} CauchySchwarz(x: real, y: real, z: real, u: real, v: real, w: real)
    ensures (x * u + y * v + z * w) * (x * u + y * v + z * w)
         <= (x * x + y * y + z * z) * (u * u + v * v + w * w)
  {
    CrossTerm(x, y, u, v);
    CrossTerm(x, z, u, w);
    CrossTerm(y, z, v, w);
    var p, q, s := x * u, y * v, z * w;
    assert (p + q + s) * (p + q + s) == p * p + q * q + s * s + 2.0 * p * q + 2.0 * p * s + 2.0 * q * s;
    assert (x * x + y * y + z * z) * (u * u + v * v + w * w)
        == p * p + q * q + s * s
         + (x * v) * (x * v) + (y * u) * (y * u)
         + (x * w) * (x * w) + (z * u) * (z * u)
         + (y * w) * (y * w) + (z * v) * (z * v);
  }

  /** Squares by name, so that proofs can treat them as atoms. */
  function Sq(x: real): real {
    x * x
  }

  lemma {:induction false} ExpandSquare(x: real, y: real)
    ensures Sq(x + y) == Sq(x) + Sq(y) + 2.0 * (x * y)
  {
  }

  lemma {:induction false} DotBound(p0: real, p1: real, p2: real, q0: real, q1: real, q2: real, a: real, b: real)
    requires 0.0 <= p0 && 0.0 <= p1 && 0.0 <= p2 && 0.0 <= q0 && 0.0 <= q1 && 0.0 <= q2
    requires 0.0 <= a && Sq(a) == Sq(p0) + Sq(p1) + Sq(p2)
    requires 0.0 <= b && Sq(b) == Sq(q0) + Sq(q1) + Sq(q2)
    ensures p0 * q0 + p1 * q1 + p2 * q2 <= a * b
  {
    var dot := p0 * q0 + p1 * q1 + p2 * q2;
    CauchySchwarz(p0, p1, p2, q0, q1, q2);
    assert dot * dot <= (a * a) * (b * b);
    assert (a * a) * (b * b) == (a * b) * (a * b);
    assert 0.0 <= dot && 0.0 <= a * b;
    SquareMonotone(dot, a * b);
  }

  /** Minkowski's inequality for three coordinates, without square roots. */
  lemma {:induction false} Minkowski(p0: real, p1: real, p2: real, q0: real, q1: real, q2: real, a: real, b: real)
    requires 0.0 <= p0 && 0.0 <= p1 && 0.0 <= p2 && 0.0 <= q0 && 0.0 <= q1 && 0.0 <= q2
    requires 0.0 <= a && Sq(a) == Sq(p0) + Sq(p1) + Sq(p2)
    requires 0.0 <= b && Sq(b) == Sq(q0) + Sq(q1) + Sq(q2)
    ensures Sq(p0 + q0) + Sq(p1 + q1) + Sq(p2 + q2) <= Sq(a + b)
  {
    hide Sq;
    DotBound(p0, p1, p2, q0, q1, q2, a, b);
    ExpandSquare(p0, q0);
    ExpandSquare(p1, q1);
    ExpandSquare(p2, q2);
    ExpandSquare(a, b);
  }

  lemma {:induction false} SqMonotone(x: real, y: real)
    requires 0.0 <= x && 0.0 <= y
    ensures Sq(x) <= Sq(y) <==> x <= y
    ensures Sq(x) < Sq(y) <==> x < y
  {
    SquareMonotone(x, y);
  }

  lemma {:induction false} ChannelBound(x: real, y: real, z: real, alphas1: real, alphas2: real)
    returns (p: real, q: real)
    ensures 0.0 <= p && DifferenceCh(x, y, alphas1) == Sq(p)
    ensures 0.0 <= q && DifferenceCh(y, z, alphas2) == Sq(q)
    ensures DifferenceCh(x, z, alphas1 + alphas2) <= Sq(p + q)
  {
    hide DifferenceCh, ChannelNorm, Sq;
    var b1, w1, b2, w2 := x - y, x - y + alphas1, y - z, y - z + alphas2;
    p, q := ChannelNorm(b1, w1), ChannelNorm(b2, w2);
    var s := ChannelNorm(b1 + b2, w1 + w2);
    ChannelNormSquared(x, y, alphas1);
    ChannelNormSquared(y, z, alphas2);
    ChannelNormSquared(x, z, alphas1 + alphas2);
    assert x - z == b1 + b2 && x - z + (alphas1 + alphas2) == w1 + w2;
    ChannelNormTriangle(b1, w1, b2, w2);
    SqMonotone(s, p + q);
  }

  /** The square root of `ColorDifference` satisfies the triangle inequality. */
  lemma {:induction false} TriangleInequality(x: Pixel, y: Pixel, z: Pixel, xy: real, yz: real, xz: real)
    requires 0.0 <= xy && Sq(xy) == ColorDifference(x, y)
    requires 0.0 <= yz && Sq(yz) == ColorDifference(y, z)
    requires 0.0 <= xz && Sq(xz) == ColorDifference(x, z)
    ensures xz <= xy + yz
  {
    hide DifferenceCh, Sq;
    var d1, d2 := y.a - x.a, z.a - y.a;
    assert z.a - x.a == d1 + d2;
    var p0, q0 := ChannelBound(x.r, y.r, z.r, d1, d2);
    var p1, q1 := ChannelBound(x.g, y.g, z.g, d1, d2);
    var p2, q2 := ChannelBound(x.b, y.b, z.b, d1, d2);
    Minkowski(p0, p1, p2, q0, q1, q2, xy, yz);
    SqMonotone(xz, xy + yz);
  }
}
