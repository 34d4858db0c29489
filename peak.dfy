/** The pseudo-Voigt peak shape used to broaden one Bragg reflection
    (the body of the reflection loop in generate_pattern).

    The exponential is not defined in Dafny's real arithmetic; the model is
    parametric in a function `exp` and assumes only the laws in ExpLaws. */
module PeakShape {

  /** The facts about exp that the peak properties rely on. */
  ghost predicate ExpLaws(exp: real -> real)
  {
    && exp(0.0) == 1.0
    && (forall x :: exp(x) > 0.0)
    && (forall x, y :: x <= y ==> exp(x) <= exp(y))
  }

  /** 2*sqrt(2*ln 2), the ratio of a Gaussian's full width at half maximum to
      its standard deviation, as the double the source computes. */
  const FwhmPerSigma: real := 2.3548200450309493

  /** ((t - centre) / sigma)^2, where sigma is the Gaussian sigma obtained
      from the broadening parameter. */
  function SquaredOffset(t: real, centre: real, broadening: real): (q: real)
    requires broadening != 0.0
    ensures q >= 0.0
    ensures q == 0.0 <==> t == centre
  {
    var u := (t - centre) / (broadening / FwhmPerSigma);
    assert u == 0.0 <==> t == centre;
    u * u
  }

  /** The unit-height Lorentzian 1 / (1 + q) at squared normalised offset q. */
  function Lorentzian(q: real): (l: real)
    requires q >= 0.0
    ensures 0.0 < l <= 1.0
    ensures q == 0.0 ==> l == 1.0
  {
    1.0 / (1.0 + q)
  }

  /** The unit-height Gaussian exp(-q) at squared normalised offset q. */
  function Gaussian(q: real, exp: real -> real): (g: real)
    ensures ExpLaws(exp) && q >= 0.0 ==> 0.0 < g <= 1.0
    ensures ExpLaws(exp) && q == 0.0 ==> g == 1.0
  {
    assert ExpLaws(exp) && q >= 0.0 ==> exp(-q) <= exp(0.0);
    exp(-q)
  }

  /** The pseudo-Voigt mix: half of each unit-height shape, scaled by the
      intensity. */
  function Mix(intensity: real, l: real, g: real): real
  {
    0.5 * (intensity * l) + 0.5 * (intensity * g)
  }

  /** Half Lorentzian, half Gaussian, both of height `intensity`, at squared
      normalised distance q from the centre. */
  function Profile(q: real, intensity: real, exp: real -> real): (p: real)
    requires q >= 0.0
    ensures ExpLaws(exp) && q == 0.0 ==> p == intensity
    ensures intensity == 0.0 ==> p == 0.0
  {
    Mix(intensity, Lorentzian(q), Gaussian(q, exp))
  }

  /** Contribution at angle t of a reflection centred at `centre` with the
      given intensity. */
  function PeakValue(t: real, centre: real, intensity: real, broadening: real, exp: real -> real): (v: real)
    requires broadening != 0.0
    requires ExpLaws(exp)
    ensures t == centre ==> v == intensity
    ensures intensity >= 0.0 ==> 0.0 <= v <= intensity
    ensures intensity > 0.0 ==> v > 0.0
    ensures intensity == 0.0 ==> v == 0.0
  {
    var q := SquaredOffset(t, centre, broadening);
    ProfileBounds(q, intensity, exp);
    Profile(q, intensity, exp)
  }

  /** Bounds of Profile: between 0 and the intensity, equal to it at q = 0. */
  lemma ProfileBounds(q: real, intensity: real, exp: real -> real)
    requires ExpLaws(exp) && q >= 0.0
    ensures q == 0.0 ==> Profile(q, intensity, exp) == intensity
    ensures intensity >= 0.0 ==> 0.0 <= Profile(q, intensity, exp) <= intensity
    ensures intensity > 0.0 ==> Profile(q, intensity, exp) > 0.0
    ensures intensity == 0.0 ==> Profile(q, intensity, exp) == 0.0
  {
    MixBounds(intensity, Lorentzian(q), Gaussian(q, exp));
  }

  /** The 50/50 mix of two weights in (0, 1] applied to an intensity. */
  lemma MixBounds(intensity: real, l: real, g: real)
    requires 0.0 < l <= 1.0 && 0.0 < g <= 1.0
    ensures intensity >= 0.0 ==> 0.0 <= Mix(intensity, l, g) <= intensity
    ensures intensity > 0.0 ==> Mix(intensity, l, g) > 0.0
  {
    if intensity >= 0.0 {
      AtMostSelf(intensity, l);
      AtMostSelf(intensity, g);
    }
    if intensity > 0.0 {
      PositiveProduct(intensity, l);
      PositiveProduct(intensity, g);
    }
  }

  lemma AtMostSelf(k: real, a: real)
    requires k >= 0.0 && 0.0 <= a <= 1.0
    ensures 0.0 <= k * a <= k
  {
    ScaledLe(k, 0.0, a);
    ScaledLe(k, a, 1.0);
  }

  lemma PositiveProduct(k: real, a: real)
    requires k > 0.0 && a > 0.0
    ensures k * a > 0.0
  {
  }

  /** The profile is symmetric about its centre. */
  lemma PeakSymmetric(d: real, centre: real, intensity: real, broadening: real, exp: real -> real)
    requires broadening != 0.0
    requires ExpLaws(exp)
    ensures PeakValue(centre + d, centre, intensity, broadening, exp)
         == PeakValue(centre - d, centre, intensity, broadening, exp)
  {
    var sigma := broadening / FwhmPerSigma;
    var u := ((centre + d) - centre) / sigma;
    var w := ((centre - d) - centre) / sigma;
    assert w == -u;
    assert w * w == u * u;
  }

  /** The profile does not increase moving away from its centre, for a
      nonnegative intensity: the nearer of two angles on the same side gets
      at least as much. */
  lemma PeakDecays(t1: real, t2: real, centre: real, intensity: real, broadening: real, exp: real -> real)
    requires broadening != 0.0
    requires ExpLaws(exp)
    requires intensity >= 0.0
    requires 0.0 <= t1 - centre <= t2 - centre || t2 - centre <= t1 - centre <= 0.0
    ensures PeakValue(t2, centre, intensity, broadening, exp) <= PeakValue(t1, centre, intensity, broadening, exp)
  {
    var d1, d2 := t1 - centre, t2 - centre;
    var q1, q2 := SquaredOffset(t1, centre, broadening), SquaredOffset(t2, centre, broadening);
    var k := 1.0 / (broadening / FwhmPerSigma);
    SquaredOffsetScaled(t1, centre, broadening);
    SquaredOffsetScaled(t2, centre, broadening);
    SquareMonotone(d1, d2, k);
    assert q1 <= q2;
    ProfileAntitone(q1, q2, intensity, exp);
    assert PeakValue(t1, centre, intensity, broadening, exp) == Profile(q1, intensity, exp);
    assert PeakValue(t2, centre, intensity, broadening, exp) == Profile(q2, intensity, exp);
  }

  /** SquaredOffset as the square of a scaled difference. */
  lemma SquaredOffsetScaled(t: real, centre: real, broadening: real)
    requires broadening != 0.0
    ensures var k := 1.0 / (broadening / FwhmPerSigma);
            SquaredOffset(t, centre, broadening) == ((t - centre) * k) * ((t - centre) * k)
  {
    var sigma := broadening / FwhmPerSigma;
    assert (t - centre) / sigma == (t - centre) * (1.0 / sigma);
  }

  /** Profile does not increase in q, for a nonnegative intensity. */
  lemma ProfileAntitone(q1: real, q2: real, intensity: real, exp: real -> real)
    requires ExpLaws(exp)
    requires 0.0 <= q1 <= q2 && intensity >= 0.0
    ensures Profile(q2, intensity, exp) <= Profile(q1, intensity, exp)
  {
    ReciprocalAntitone(q1, q2);
    GaussianAntitone(q1, q2, exp);
    MixMonotone(intensity, Lorentzian(q1), Lorentzian(q2), Gaussian(q1, exp), Gaussian(q2, exp));
  }

  /** The 50/50 mix is monotone in both weights, for a nonnegative intensity. */
  lemma MixMonotone(intensity: real, l1: real, l2: real, g1: real, g2: real)
    requires intensity >= 0.0 && l2 <= l1 && g2 <= g1
    ensures Mix(intensity, l2, g2) <= Mix(intensity, l1, g1)
  {
    ScaledLe(intensity, l2, l1);
    ScaledLe(intensity, g2, g1);
  }

  lemma GaussianAntitone(p: real, q: real, exp: real -> real)
    requires ExpLaws(exp) && p <= q
    ensures Gaussian(q, exp) <= Gaussian(p, exp)
  {
    assert -q <= -p;
  }

  lemma ReciprocalAntitone(p: real, q: real)
    requires 0.0 <= p <= q
    ensures Lorentzian(q) <= Lorentzian(p)
  {
    var a, b := Lorentzian(p), Lorentzian(q);
    assert a * (1.0 + p) == 1.0 && b * (1.0 + q) == 1.0;
    ScaledLe(a, 1.0 + p, 1.0 + q);
    assert b * (1.0 + q) <= a * (1.0 + q);
    CancelPositive(1.0 + q, b, a);
  }

  lemma CancelPositive(c: real, x: real, y: real)
    requires c > 0.0 && x * c <= y * c
    ensures x <= y
  {
    if x > y {
      ScaledLt(c, y, x);
    }
  }

  lemma ScaledLt(k: real, a: real, b: real)
    requires k > 0.0 && a < b
    ensures k * a < k * b
  {
    assert k * b - k * a == k * (b - a);
  }

  lemma ScaledLe(k: real, a: real, b: real)
    requires k >= 0.0 && a <= b
    ensures k * a <= k * b
  {
    assert k * b - k * a == k * (b - a);
  }

  /** Scaling preserves the order of squared magnitudes. */
  lemma SquareMonotone(a: real, b: real, s: real)
    requires 0.0 <= a <= b || b <= a <= 0.0
    ensures (a * s) * (a * s) <= (b * s) * (b * s)
  {
    assert a * a <= b * b;
    assert (a * s) * (a * s) == (a * a) * (s * s);
    assert (b * s) * (b * s) == (b * b) * (s * s);
    assert s * s >= 0.0;
  }
}
