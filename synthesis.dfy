/** Synthesis of a continuous, normalised powder pattern from discrete
    reflections (generate_pattern in main.py): sample the 2-theta window on an
    np.linspace grid, add one pseudo-Voigt peak per reflection inside the
    window, then divide by the maximum. */
module PatternSynthesis {
  import opened PeakShape

  /** One Bragg reflection: its 2-theta angle (degrees) and its intensity on
      an arbitrary scale. */
  datatype Reflection = Reflection(angle: real, intensity: real)

  /** The viewer fields generate_pattern reads: theta_range (start, end),
      step and the peak broadening sigma. */
  datatype Settings = Settings(start: real, end: real, step: real, broadening: real)

  /** What the viewer keeps true of its settings: the range update admits
      only start < end and a positive step. The broadening is not checked. */
  predicate ValidSettings(s: Settings)
  {
    s.start < s.end && s.step > 0.0
  }

  /** Every reflection has a nonnegative intensity (as the structure-factor
      calculation delivers them). */
  predicate NonnegativeIntensities(rs: seq<Reflection>)
  {
    forall i :: 0 <= i < |rs| ==> rs[i].intensity >= 0.0
  }

  /** The inclusive window test applied to each reflection. */
  predicate InWindow(angle: real, s: Settings)
  {
    s.start <= angle <= s.end
  }

  /** Some reflection inside the window has a positive intensity. */
  predicate HasVisiblePeak(rs: seq<Reflection>, s: Settings)
  {
    exists i :: 0 <= i < |rs| && InWindow(rs[i].angle, s) && rs[i].intensity > 0.0
  }

  /** Python's int() on a float: truncation toward zero. */
  function Trunc(r: real): (n: int)
    ensures r >= 0.0 ==> 0 <= n && n as real <= r < n as real + 1.0
    ensures r < 0.0 ==> n <= 0 && n as real - 1.0 < r <= n as real
  {
    if r >= 0.0 then r.Floor else -((-r).Floor)
  }

  /** Number of grid samples: int((end - start) / step). This many steps
      fit into the window, and one more does not. */
  function SampleCount(s: Settings): (n: nat)
    requires ValidSettings(s)
    ensures n as real * s.step <= s.end - s.start < (n as real + 1.0) * s.step
  {
    var n := Trunc((s.end - s.start) / s.step);
    StepsInWindow(s.end - s.start, s.step, n as real, (s.end - s.start) / s.step, n as real + 1.0);
    n
  }

  /** lo <= w / step < hi gives lo * step <= w < hi * step. */
  lemma StepsInWindow(w: real, step: real, lo: real, q: real, hi: real)
    requires step > 0.0
    requires q == w / step && lo <= q < hi
    ensures lo * step <= w < hi * step
  {
    assert q * step == w;
    ScaledLe(step, lo, q);
    ScaledLt(step, q, hi);
    assert step * q < step * hi;
    assert q * step < hi * step;
  }

  /** Division by the maximum m > 0 maps [0, m] into [0, 1]. */
  lemma DivideByBound(a: real, m: real)
    requires 0.0 <= a <= m && m > 0.0
    ensures 0.0 <= a / m <= 1.0
  {
    assert a / m == a * (1.0 / m);
    assert 1.0 / m > 0.0;
    ScaledLe(1.0 / m, a, m);
    assert a * (1.0 / m) <= m * (1.0 / m);
  }

  lemma DivideSelf(m: real)
    requires m != 0.0
    ensures m / m == 1.0
  {
    assert (m / m) * m == m;
  }

  /** np.linspace(start, end, n): n samples, evenly spaced by
      (end - start) / (n - 1), the last one set to `end` exactly. */
  function Linspace(start: real, end: real, n: nat): (xs: seq<real>)
    ensures |xs| == n
    ensures n >= 1 ==> xs[0] == start
    ensures n >= 2 ==> xs[n - 1] == end
    ensures n >= 2 ==> forall i :: 0 <= i < n - 1 ==> xs[i + 1] - xs[i] == (end - start) / (n - 1) as real
  {
    if n == 0 then []
    else if n == 1 then [start]
    else
      var d := (end - start) / (n - 1) as real;
      var xs := seq(n, i => if i == n - 1 then end else start + i as real * d);
      assert (n - 1) as real * d == end - start;
      assert forall i :: 0 <= i < n - 1 ==> xs[i + 1] - xs[i] == d by {
        forall i | 0 <= i < n - 1
          ensures xs[i + 1] - xs[i] == d
        {
          assert (i + 1) as real * d == i as real * d + d;
        }
      }
      xs
  }

  /** The sampling grid for the current settings. */
  function Grid(s: Settings): (g: seq<real>)
    requires ValidSettings(s)
    ensures |g| == SampleCount(s)
    ensures |g| >= 1 ==> g[0] == s.start
    ensures |g| >= 2 ==> g[|g| - 1] == s.end
  {
    Linspace(s.start, s.end, SampleCount(s))
  }

  /** What one reflection adds at angle t: its peak if its angle is inside the
      window, nothing otherwise. */
  function Contribution(t: real, r: Reflection, s: Settings, exp: real -> real): (c: real)
    requires s.broadening != 0.0 && ExpLaws(exp)
    ensures !InWindow(r.angle, s) ==> c == 0.0
    ensures r.intensity >= 0.0 ==> c >= 0.0
    ensures InWindow(r.angle, s) && t == r.angle ==> c == r.intensity
  {
    if InWindow(r.angle, s) then PeakValue(t, r.angle, r.intensity, s.broadening, exp) else 0.0
  }

  /** The accumulator's value at angle t after the loop has visited the
      reflections rs, in order. */
  function Accumulated(t: real, rs: seq<Reflection>, s: Settings, exp: real -> real): (v: real)
    requires s.broadening != 0.0 && ExpLaws(exp)
    ensures NonnegativeIntensities(rs) ==> v >= 0.0
    decreases |rs|
  {
    if rs == [] then 0.0
    else
      assert NonnegativeIntensities(rs) ==> NonnegativeIntensities(rs[..|rs| - 1]);
      Accumulated(t, rs[..|rs| - 1], s, exp) + Contribution(t, rs[|rs| - 1], s, exp)
  }

  /** One more iteration of the reflection loop adds one contribution. */
  lemma AccumulatedStep(t: real, rs: seq<Reflection>, i: nat, s: Settings, exp: real -> real)
    requires s.broadening != 0.0 && ExpLaws(exp)
    requires i < |rs|
    ensures Accumulated(t, rs[..i + 1], s, exp) == Accumulated(t, rs[..i], s, exp) + Contribution(t, rs[i], s, exp)
  {
    assert rs[..i + 1][..i] == rs[..i];
  }

  /** The accumulator over a whole grid. */
  function AccumulatedOn(theta: seq<real>, rs: seq<Reflection>, s: Settings, exp: real -> real): seq<real>
    requires s.broadening != 0.0 && ExpLaws(exp)
  {
    seq(|theta|, k requires 0 <= k < |theta| => Accumulated(theta[k], rs, s, exp))
  }

  /** np.max: the largest element. */
  function MaxOf(xs: seq<real>): (m: real)
    requires |xs| > 0
    ensures forall i :: 0 <= i < |xs| ==> xs[i] <= m
    ensures exists i :: 0 <= i < |xs| && xs[i] == m
  {
    if |xs| == 1 then xs[0]
    else
      var m' := MaxOf(xs[..|xs| - 1]);
      if xs[|xs| - 1] > m' then xs[|xs| - 1] else m'
  }

  /** Elementwise division by m. */
  function Normalize(xs: seq<real>, m: real): (ys: seq<real>)
    requires m != 0.0
    ensures |ys| == |xs|
    ensures forall i :: 0 <= i < |xs| ==> ys[i] * m == xs[i]
  {
    var ys := seq(|xs|, i requires 0 <= i < |xs| => xs[i] / m);
    assert forall i :: 0 <= i < |xs| ==> ys[i] * m == xs[i] by {
      forall i | 0 <= i < |xs|
        ensures ys[i] * m == xs[i]
      {
        assert ys[i] == xs[i] / m;
      }
    }
    ys
  }

  /** A synthesised curve: the grid with its normalised intensities, or the
      grid with NaN at every sample. NaN is what the division by the maximum
      gives when the accumulator is zero everywhere (0/0), and what a zero
      broadening gives: every offset is then divided by zero, so each sample
      is 0 (infinite offset) or NaN (0/0 at a peak's own angle), and the
      maximum is 0 or NaN. */
  datatype Curve = Normalized(x: seq<real>, y: seq<real>) | AllNaN(x: seq<real>)

  /** generate_pattern either returns a curve or raises because np.max was
      given an empty grid. */
  datatype Outcome = Synthesized(curve: Curve) | EmptyGrid

  /** What generate_pattern returns for reflections rs under settings s. */
  function Synthesize(rs: seq<Reflection>, s: Settings, exp: real -> real): (r: Outcome)
    requires ValidSettings(s) && ExpLaws(exp)
    ensures r.EmptyGrid? <==> SampleCount(s) == 0
    ensures r.Synthesized? ==> r.curve.x == Grid(s)
    ensures r.Synthesized? && r.curve.Normalized? ==> |r.curve.y| == |r.curve.x|
    ensures r.Synthesized? && s.broadening == 0.0 ==> r.curve.AllNaN?
  {
    var theta := Grid(s);
    if |theta| == 0 then EmptyGrid
    else if s.broadening == 0.0 then Synthesized(AllNaN(theta))
    else
      var acc := AccumulatedOn(theta, rs, s, exp);
      var m := MaxOf(acc);
      if m == 0.0 then Synthesized(AllNaN(theta))
      else Synthesized(Normalized(theta, Normalize(acc, m)))
  }

  /** generate_pattern: the reflection loop adds each in-window peak into the
      accumulator array in place; the result is then normalised. */
  method GeneratePattern(reflections: seq<Reflection>, s: Settings, exp: real -> real) returns (r: Outcome)
    requires ValidSettings(s) && ExpLaws(exp)
    ensures r == Synthesize(reflections, s, exp)
  {
    var n := SampleCount(s);
    var theta := Linspace(s.start, s.end, n);
    if s.broadening == 0.0 {
      // Every peak evaluates to 0 or NaN; np.max still raises on an empty grid.
      return if n == 0 then EmptyGrid else Synthesized(AllNaN(theta));
    }
    var pattern := new real[n](_ => 0.0);
    var i := 0;
    while i < |reflections|
      invariant 0 <= i <= |reflections|
      invariant forall k :: 0 <= k < n ==> pattern[k] == Accumulated(theta[k], reflections[..i], s, exp)
    {
      var angle, intensity := reflections[i].angle, reflections[i].intensity;
      if s.start <= angle <= s.end {
        forall k | 0 <= k < n {
          pattern[k] := pattern[k] + PeakValue(theta[k], angle, intensity, s.broadening, exp);
        }
      }
      forall k | 0 <= k < n
        ensures pattern[k] == Accumulated(theta[k], reflections[..i + 1], s, exp)
      {
        AccumulatedStep(theta[k], reflections, i, s, exp);
      }
      i := i + 1;
    }
    assert reflections[..i] == reflections;
    if n == 0 {
      return EmptyGrid;
    }
    var acc := pattern[..];
    assert acc == AccumulatedOn(theta, reflections, s, exp);
    var m := MaxOf(acc);
    if m == 0.0 {
      r := Synthesized(AllNaN(theta));
    } else {
      r := Synthesized(Normalized(theta, Normalize(acc, m)));
    }
  }

  /** The reflections inside the window, in their original order. */
  function Windowed(rs: seq<Reflection>, s: Settings): (w: seq<Reflection>)
    ensures forall i :: 0 <= i < |w| ==> InWindow(w[i].angle, s)
    ensures multiset(w) <= multiset(rs)
    ensures forall x :: multiset(w)[x] == if InWindow(x.angle, s) then multiset(rs)[x] else 0
    decreases |rs|
  {
    if rs == [] then []
    else
      var last := rs[|rs| - 1];
      assert rs == rs[..|rs| - 1] + [last];
      Windowed(rs[..|rs| - 1], s) + (if InWindow(last.angle, s) then [last] else [])
  }

  /** A reflection outside the window contributes nothing: the accumulator
      equals the one built from the in-window reflections alone. */
  lemma {:induction false} OnlyWindowContributes(t: real, rs: seq<Reflection>, s: Settings, exp: real -> real)
    requires s.broadening != 0.0 && ExpLaws(exp)
    ensures Accumulated(t, rs, s, exp) == Accumulated(t, Windowed(rs, s), s, exp)
    decreases |rs|
  {
    if rs != [] {
      var rest, last := rs[..|rs| - 1], rs[|rs| - 1];
      OnlyWindowContributes(t, rest, s, exp);
      var w := Windowed(rest, s);
      if InWindow(last.angle, s) {
        assert (w + [last])[..|w + [last]| - 1] == w;
      } else {
        assert w + [] == w;
      }
    }
  }

  /** The accumulator of a concatenation is the sum of the accumulators. */
  lemma {:induction false} AccumulatedAppend(t: real, a: seq<Reflection>, b: seq<Reflection>, s: Settings, exp: real -> real)
    requires s.broadening != 0.0 && ExpLaws(exp)
    ensures Accumulated(t, a + b, s, exp) == Accumulated(t, a, s, exp) + Accumulated(t, b, s, exp)
    decreases |b|
  {
    if b == [] {
      assert a + b == a;
    } else {
      var b' := b[..|b| - 1];
      assert (a + b)[..|a + b| - 1] == a + b';
      assert (a + b)[|a + b| - 1] == b[|b| - 1];
      AccumulatedAppend(t, a, b', s, exp);
    }
  }

  /** The accumulated pattern does not depend on the order of the
      reflections: any permutation gives the same value at every angle. */
  lemma {:induction false} AccumulatedPermutation(t: real, rs: seq<Reflection>, qs: seq<Reflection>, s: Settings, exp: real -> real)
    requires s.broadening != 0.0 && ExpLaws(exp)
    requires multiset(rs) == multiset(qs)
    ensures Accumulated(t, rs, s, exp) == Accumulated(t, qs, s, exp)
    decreases |rs|
  {
    if rs == [] {
      assert |qs| == |multiset(qs)| == 0;
    } else {
      var x := rs[|rs| - 1];
      assert x in multiset(qs) by {
        assert x in multiset(rs);
      }
      var j :| 0 <= j < |qs| && qs[j] == x;
      var before, after := qs[..j], qs[j + 1..];
      RemoveMatching(rs, qs, j);
      AccumulatedPermutation(t, rs[..|rs| - 1], before + after, s, exp);
      assert qs == before + ([x] + after);
      AccumulatedAppend(t, before, [x] + after, s, exp);
      AccumulatedAppend(t, [x], after, s, exp);
      AccumulatedAppend(t, before, after, s, exp);
      assert [x][..0] == [];
    }
  }

  /** Removing the last element of rs and a matching element of a
      permutation qs leaves two permutations of each other. */
  lemma RemoveMatching<T>(rs: seq<T>, qs: seq<T>, j: int)
    requires multiset(rs) == multiset(qs)
    requires |rs| > 0 && 0 <= j < |qs| && qs[j] == rs[|rs| - 1]
    ensures multiset(rs[..|rs| - 1]) == multiset(qs[..j] + qs[j + 1..])
  {
    var x := rs[|rs| - 1];
    assert rs == rs[..|rs| - 1] + [x];
    assert qs == qs[..j] + [x] + qs[j + 1..];
    assert multiset(qs) == multiset(qs[..j]) + multiset{x} + multiset(qs[j + 1..]);
    assert multiset(qs[..j] + qs[j + 1..]) == multiset(qs[..j]) + multiset(qs[j + 1..]);
    assert multiset(rs) == multiset(rs[..|rs| - 1]) + multiset{x};
    assert multiset(rs[..|rs| - 1]) == multiset(rs) - multiset{x};
    assert multiset(qs[..j] + qs[j + 1..]) == multiset(qs) - multiset{x};
  }

  /** With nonnegative intensities the accumulator is positive at an angle
      exactly when some in-window reflection has positive intensity. */
  lemma {:induction false} AccumulatedPositive(t: real, rs: seq<Reflection>, s: Settings, exp: real -> real)
    requires s.broadening != 0.0 && ExpLaws(exp)
    requires NonnegativeIntensities(rs)
    ensures Accumulated(t, rs, s, exp) > 0.0 <==> HasVisiblePeak(rs, s)
    decreases |rs|
  {
    if rs != [] {
      var rest, last := rs[..|rs| - 1], rs[|rs| - 1];
      assert NonnegativeIntensities(rest);
      AccumulatedPositive(t, rest, s, exp);
      if HasVisiblePeak(rest, s) {
        var i :| 0 <= i < |rest| && InWindow(rest[i].angle, s) && rest[i].intensity > 0.0;
        assert rs[i] == rest[i];
      }
      if HasVisiblePeak(rs, s) {
        var i :| 0 <= i < |rs| && InWindow(rs[i].angle, s) && rs[i].intensity > 0.0;
        if i < |rest| {
          assert rest[i] == rs[i];
        }
      }
    }
  }

  /** Dividing by the maximum of a nonnegative sequence with a positive
      maximum puts every value in [0, 1] and at least one at 1. */
  lemma NormalizeByMax(xs: seq<real>)
    requires |xs| > 0
    requires forall i :: 0 <= i < |xs| ==> xs[i] >= 0.0
    requires MaxOf(xs) > 0.0
    ensures forall i :: 0 <= i < |xs| ==> 0.0 <= Normalize(xs, MaxOf(xs))[i] <= 1.0
    ensures exists i :: 0 <= i < |xs| && Normalize(xs, MaxOf(xs))[i] == 1.0
  {
    var m := MaxOf(xs);
    var ys := Normalize(xs, m);
    forall i | 0 <= i < |xs|
      ensures 0.0 <= ys[i] <= 1.0
    {
      DivideByBound(xs[i], m);
    }
    var k :| 0 <= k < |xs| && xs[k] == m;
    assert ys[k] == xs[k] / m;
    DivideSelf(m);
  }

  /** Normalisation: on a nonempty grid with nonnegative intensities, the
      curve is a proper normalised one (every value in [0, 1], one equal to 1)
      exactly when the broadening is nonzero and some in-window reflection has
      a positive intensity; otherwise the curve is NaN throughout. */
  lemma SynthesizeNormalized(rs: seq<Reflection>, s: Settings, exp: real -> real)
    requires ValidSettings(s) && ExpLaws(exp)
    requires NonnegativeIntensities(rs)
    requires SampleCount(s) >= 1
    ensures Synthesize(rs, s, exp).Synthesized?
    ensures Synthesize(rs, s, exp).curve.Normalized? <==> s.broadening != 0.0 && HasVisiblePeak(rs, s)
    ensures Synthesize(rs, s, exp).curve.Normalized? ==>
              var y := Synthesize(rs, s, exp).curve.y;
              (forall i :: 0 <= i < |y| ==> 0.0 <= y[i] <= 1.0) && (exists i :: 0 <= i < |y| && y[i] == 1.0)
  {
    if s.broadening == 0.0 {
      return;
    }
    var theta := Grid(s);
    var acc := AccumulatedOn(theta, rs, s, exp);
    var m := MaxOf(acc);
    AccumulatedPositive(theta[0], rs, s, exp);
    if HasVisiblePeak(rs, s) {
      assert acc[0] > 0.0;
      NormalizeByMax(acc);
    } else {
      var k :| 0 <= k < |acc| && acc[k] == m;
      AccumulatedPositive(theta[k], rs, s, exp);
    }
  }

  /** The synthesised curve does not depend on the order of the reflections. */
  lemma SynthesizeOrderIndependent(rs: seq<Reflection>, qs: seq<Reflection>, s: Settings, exp: real -> real)
    requires ValidSettings(s) && ExpLaws(exp)
    requires multiset(rs) == multiset(qs)
    ensures Synthesize(rs, s, exp) == Synthesize(qs, s, exp)
  {
    if s.broadening == 0.0 {
      return;
    }
    var theta := Grid(s);
    forall k | 0 <= k < |theta|
      ensures AccumulatedOn(theta, rs, s, exp)[k] == AccumulatedOn(theta, qs, s, exp)[k]
    {
      AccumulatedPermutation(theta[k], rs, qs, s, exp);
    }
    assert AccumulatedOn(theta, rs, s, exp) == AccumulatedOn(theta, qs, s, exp);
  }
}
