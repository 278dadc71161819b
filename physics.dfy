/** Arithmetic the game world relies on: 2-D vectors, Python's two-decimal
    rounding, velocity components of a heading and the collision test.
    Coordinates are exact reals; trigonometry is left uninterpreted. */
module Physics {

  /** A point or a displacement in the plane (a two-element list in the game). */
  datatype Vec = Vec(x: real, y: real)

  /** `p` moved by `d`: the position update of every moving object. */
  function Translate(p: Vec, d: Vec): Vec
  {
    Vec(p.x + d.x, p.y + d.y)
  }

  function Abs(x: real): (r: real)
    ensures r >= 0.0 && (r == x || r == -x)
  {
    if x < 0.0 then -x else x
  }

  /** True when `x` is a whole number of hundredths. */
  predicate OnCentGrid(x: real)
  {
    (x * 100.0).Floor as real == x * 100.0
  }

  /** `x` in hundredths, rounded to the nearest whole number with ties to
      the even one. */
  function RoundedCents(x: real): int
  {
    var n := (x * 100.0).Floor;
    var frac := x * 100.0 - n as real;
    if frac < 0.5 then n
    else if frac > 0.5 then n + 1
    else if n % 2 == 0 then n else n + 1
  }

  /** Python's `round(x, 2)`: nearest multiple of 0.01, ties to the even
      multiple. Applied to the exact value rather than to a binary float. */
  function Round2(x: real): real
  {
    RoundedCents(x) as real / 100.0
  }

  /** Rounding lands on the grid, and leaves grid points where they are. */
  lemma Round2OnGrid(x: real)
    ensures OnCentGrid(Round2(x))
    ensures OnCentGrid(x) ==> Round2(x) == x
  {
    var k := RoundedCents(x);
    assert Round2(x) * 100.0 == k as real;
    assert (k as real).Floor == k;
    if OnCentGrid(x) {
      var n := (x * 100.0).Floor;
      assert x * 100.0 - n as real == 0.0;
      assert k == n;
      assert x == n as real / 100.0;
    }
  }

  /** Rounding never leaves a symmetric interval with whole-number ends. */
  lemma Round2Within(x: real, bound: int)
    requires -(bound as real) <= x <= bound as real
    ensures -(bound as real) <= Round2(x) <= bound as real
  {
    var n := (x * 100.0).Floor;
    var frac := x * 100.0 - n as real;
    var k := RoundedCents(x);
    assert k == n || k == n + 1;
    assert n <= 100 * bound;
    assert n >= -100 * bound by {
      assert (-100 * bound) as real <= x * 100.0;
    }
    if k == n + 1 {
      assert frac > 0.0;
      assert n < 100 * bound;
    }
  }

  /** Cosine and sine of an angle given in degrees
      (`math.cos(math.radians(a))`, `math.sin(math.radians(a))`).
      They are left uninterpreted: nothing below depends on their values. */
  const CosDeg: real -> real
  const SinDeg: real -> real

  /** `compute_velocity_components`: the rounded velocity vector of a
      heading `angle` (degrees) and a scalar speed `magnitude`. */
  function VelComp(angle: real, magnitude: real): (r: Vec)
    ensures OnCentGrid(r.x) && OnCentGrid(r.y)
  {
    Round2OnGrid(magnitude * CosDeg(angle));
    Round2OnGrid(magnitude * SinDeg(angle));
    Vec(Round2(magnitude * CosDeg(angle)), Round2(magnitude * SinDeg(angle)))
  }

  /** Largest separation, rounded to two decimals, that still counts as a hit. */
  const SeparationForCollision: real := 10.0

  function SqDist(a: Vec, b: Vec): (r: real)
    ensures r >= 0.0
  {
    var dx := a.x - b.x;
    var dy := a.y - b.y;
    assert dx * dx >= 0.0 && dy * dy >= 0.0;
    dx * dx + dy * dy
  }

  /** `check_for_collision` with its default separation of 10, without a
      square root: 10.005 is the largest distance that rounds to 10.00
      (the tie 1000.5 hundredths goes to the even 1000), and 10.005 squared
      is 100.100025. CollidesIsRoundedDistanceTest shows this is the
      source's test. */
  predicate Collides(a: Vec, b: Vec)
  {
    SqDist(a, b) <= 100.100025
  }

  /** A non-negative distance rounds to at most 10 exactly when it is at most 10.005. */
  lemma Round2AtMostTen(d: real)
    requires d >= 0.0
    ensures Round2(d) <= SeparationForCollision <==> d <= 10.005
  {
    var n := (d * 100.0).Floor;
    var frac := d * 100.0 - n as real;
    var k := RoundedCents(d);
    if d <= 10.005 {
      assert n <= 1000;
      if n == 1000 {
        assert frac <= 0.5;
        assert k == 1000;
      }
      assert k <= 1000;
    } else {
      assert n >= 1000;
      if n == 1000 {
        assert frac > 0.5;
      }
      assert k >= 1001;
    }
  }

  /** For non-negative reals, comparing squares is comparing the values. */
  lemma SquareMonotone(d: real, c: real)
    requires d >= 0.0 && c >= 0.0
    ensures d <= c <==> d * d <= c * c
  {
    if d < c {
      SquareStrict(d, c);
    } else if c < d {
      SquareStrict(c, d);
    }
  }

  lemma SquareStrict(a: real, b: real)
    requires 0.0 <= a < b
    ensures a * a < b * b
  {
    var x := b - a;
    assert b * b == a * a + 2.0 * a * x + x * x;
    assert x * x > 0.0;
    assert a * x >= 0.0;
  }

  /** Collides is the source's test: for the true distance `d` (the
      non-negative square root of the squared distance), the distance
      rounded to two decimals is at most 10 exactly when Collides holds. */
  lemma CollidesIsRoundedDistanceTest(a: Vec, b: Vec, d: real)
    requires d >= 0.0 && d * d == SqDist(a, b)
    ensures Collides(a, b) <==> Round2(d) <= SeparationForCollision
  {
    Round2AtMostTen(d);
    SquareMonotone(d, 10.005);
    assert 10.005 * 10.005 == 100.100025;
  }
}
