/** The time step of `solve_2d_advection_diffusion` and why it keeps the
    scheme stable: `dt` is the smallest of the advective limit along each
    axis, the diffusive limit and 0.002, so no wind crosses more than one cell
    per step and `4 * diffusion * dt` stays within `dx * dy`. The facts about
    real products are proved one at a time in small lemmas. */
module Stability {
  import opened Wrappers

  /** Wind speeds and diffusivities below these floors are treated as the floor
      when choosing the time step. */
  const SpeedFloor: real := 0.000001
  const DiffusionFloor: real := 0.0000000001
  const MaxTimeStep: real := 0.002

  /** `h / max(|c|, 1e-6)`: the time a wind of speed `c` takes to cross a cell
      of width `h`. */
  function AdvectiveLimit(h: real, c: real): real {
    h / Max(Abs(c), SpeedFloor)
  }

  /** `h**2`. */
  function Square(h: real): real {
    h * h
  }

  /** `0.25 * min(dx**2, dy**2) / max(diffusion, 1e-10)`. */
  function DiffusiveLimit(dx: real, dy: real, diffusion: real): real {
    0.25 * Min(Square(dx), Square(dy)) / Max(diffusion, DiffusionFloor)
  }

  /** `dt = min(dt_adv, dt_diff, 0.002)` with `dt_adv` the smaller of the two
      advective limits: the time step is the smallest of the four limits. */
  function TimeStep(dx: real, dy: real, cx: real, cy: real, diffusion: real): (dt: real)
    ensures dt <= AdvectiveLimit(dx, cx) && dt <= AdvectiveLimit(dy, cy)
    ensures dt <= DiffusiveLimit(dx, dy, diffusion) && dt <= MaxTimeStep
    ensures dt == AdvectiveLimit(dx, cx) || dt == AdvectiveLimit(dy, cy)
            || dt == DiffusiveLimit(dx, dy, diffusion) || dt == MaxTimeStep
  {
    var dtAdv := Min(AdvectiveLimit(dx, cx), AdvectiveLimit(dy, cy));
    Min(Min(dtAdv, DiffusiveLimit(dx, dy, diffusion)), MaxTimeStep)
  }

  /** The Courant number `c * dt / h` along an axis with spacing `h`. */
  function Courant(c: real, dt: real, h: real): real
    requires h != 0.0
  {
    c * dt / h
  }

  lemma MulLe(a: real, x: real, y: real)
    requires a >= 0.0 && x <= y
    ensures a * x <= a * y
  {
    assert a * y - a * x == a * (y - x);
  }

  lemma MulPos(a: real, b: real)
    requires a > 0.0 && b > 0.0
    ensures a * b > 0.0
  {
  }

  lemma FactorSign(a: real, h: real)
    requires h > 0.0 && a * h >= 0.0
    ensures a >= 0.0 && (a * h > 0.0 ==> a > 0.0)
  {
  }

  /** `n / d` is positive for positive `n` and `d`. */
  lemma QuotientPos(n: real, d: real)
    requires n > 0.0 && d > 0.0
    ensures n / d > 0.0
  {
    assert (n / d) * d == n;
    FactorSign(n / d, d);
  }

  lemma ScaledQuotient(a: real, b: real, h: real)
    requires 0.0 <= a <= b && b > 0.0 && h >= 0.0
    ensures a * (h / b) <= h
  {
    assert (h / b) * b == h;
    FactorSign(h / b, b);
    MulLe(h / b, a, b);
    assert a * (h / b) == (h / b) * a && b * (h / b) == (h / b) * b;
  }

  lemma UnitQuotient(q: real, h: real)
    requires h > 0.0 && -h <= q <= h
    ensures -1.0 <= q / h <= 1.0
  {
    assert (q / h) * h == q;
    assert (1.0 - q / h) * h == h - q;
    FactorSign(1.0 - q / h, h);
    assert (q / h + 1.0) * h == q + h;
    FactorSign(q / h + 1.0, h);
  }

  lemma AdvectiveLimitBound(h: real, c: real)
    requires h > 0.0
    ensures AdvectiveLimit(h, c) > 0.0 && Abs(c) * AdvectiveLimit(h, c) <= h
  {
    QuotientPos(h, Max(Abs(c), SpeedFloor));
    ScaledQuotient(Abs(c), Max(Abs(c), SpeedFloor), h);
  }

  lemma SquarePos(h: real)
    requires h > 0.0
    ensures Square(h) > 0.0
  {
    calc {
      Square(h);
      h * h;
    > { MulPos(h, h); }
      0.0;
    }
  }

  lemma SquareLe(a: real, b: real)
    requires 0.0 < a <= b
    ensures Square(a) <= a * b
  {
    MulLe(a, a, b);
  }

  /** `min(dx², dy²)` is positive and at most `dx * dy`. */
  lemma SquaresBound(dx: real, dy: real)
    requires dx > 0.0 && dy > 0.0
    ensures 0.0 < Min(Square(dx), Square(dy)) <= dx * dy
  {
    SquarePos(dx);
    SquarePos(dy);
    if dx <= dy {
      SquareLe(dx, dy);
    } else {
      SquareLe(dy, dx);
    }
  }

  lemma DiffusiveLimitBound(dx: real, dy: real, diffusion: real, dt: real)
    requires dx > 0.0 && dy > 0.0 && 0.0 <= dt <= DiffusiveLimit(dx, dy, diffusion)
    ensures DiffusiveLimit(dx, dy, diffusion) > 0.0
    ensures diffusion >= 0.0 ==> 4.0 * (diffusion * dt) <= dx * dy
  {
    SquaresBound(dx, dy);
    QuarterBound(Min(Square(dx), Square(dy)), dx * dy, diffusion, dt);
  }

  lemma QuarterBound(sq: real, area: real, diffusion: real, dt: real)
    requires 0.0 < sq <= area && 0.0 <= dt <= 0.25 * sq / Max(diffusion, DiffusionFloor)
    ensures 0.25 * sq / Max(diffusion, DiffusionFloor) > 0.0
    ensures diffusion >= 0.0 ==> 4.0 * (diffusion * dt) <= area
  {
    var md := Max(diffusion, DiffusionFloor);
    QuotientPos(0.25 * sq, md);
    if diffusion >= 0.0 {
      MulLe(diffusion, dt, 0.25 * sq / md);
      ScaledQuotient(diffusion, md, 0.25 * sq);
    }
  }

  lemma CourantBound(c: real, dt: real, h: real)
    requires h > 0.0 && dt >= 0.0 && Abs(c) * dt <= h
    ensures -1.0 <= Courant(c, dt, h) <= 1.0
  {
    MulLe(Abs(c), 0.0, dt);
    assert c * dt == Abs(c) * dt || c * dt == -(Abs(c) * dt);
    UnitQuotient(c * dt, h);
  }

  lemma TimeStepPositive(dx: real, dy: real, cx: real, cy: real, diffusion: real)
    requires dx > 0.0 && dy > 0.0
    ensures 0.0 < TimeStep(dx, dy, cx, cy, diffusion) <= MaxTimeStep
  {
    AdvectiveLimitBound(dx, cx);
    AdvectiveLimitBound(dy, cy);
    DiffusiveLimitBound(dx, dy, diffusion, 0.0);
  }

  /** Any time step within an axis's advective limit keeps `|c| * dt <= h`. */
  lemma AxisAdvection(h: real, c: real, dt: real)
    requires h > 0.0 && 0.0 <= dt <= AdvectiveLimit(h, c)
    ensures Abs(c) * dt <= h
  {
    AdvectiveLimitBound(h, c);
    MulLe(Abs(c), dt, AdvectiveLimit(h, c));
  }

  lemma TimeStepDiffusion(dx: real, dy: real, cx: real, cy: real, diffusion: real)
    requires dx > 0.0 && dy > 0.0
    ensures diffusion >= 0.0 ==> 4.0 * (diffusion * TimeStep(dx, dy, cx, cy, diffusion)) <= dx * dy
  {
    var dt := TimeStep(dx, dy, cx, cy, diffusion);
    assert 0.0 <= dt <= DiffusiveLimit(dx, dy, diffusion) by {
        TimeStepPositive(dx, dy, cx, cy, diffusion);
    }
    DiffusiveLimitBound(dx, dy, diffusion, dt);
  }

  /** The stability conditions of a step of length `dt`: along each axis the
      wind crosses at most one cell (`|c| * dt <= h`, so the Courant number
      `c * dt / h` lies within [-1, 1]), and for a non-negative diffusivity
      `4 * diffusion * dt <= dx * dy`. */
  predicate Stable(dx: real, dy: real, cx: real, cy: real, diffusion: real, dt: real)
    requires dx != 0.0 && dy != 0.0
  {
    && Abs(cx) * dt <= dx && Abs(cy) * dt <= dy
    && -1.0 <= Courant(cx, dt, dx) <= 1.0 && -1.0 <= Courant(cy, dt, dy) <= 1.0
    && (diffusion >= 0.0 ==> 4.0 * (diffusion * dt) <= dx * dy)
  }

  /** A positive time step within every limit is stable. */
  lemma WithinLimits(dx: real, dy: real, cx: real, cy: real, diffusion: real, dt: real)
    requires dx > 0.0 && dy > 0.0 && 0.0 < dt
    requires dt <= AdvectiveLimit(dx, cx) && dt <= AdvectiveLimit(dy, cy) && dt <= DiffusiveLimit(dx, dy, diffusion)
    ensures Stable(dx, dy, cx, cy, diffusion, dt)
  {
    AxisAdvection(dx, cx, dt);
    AxisAdvection(dy, cy, dt);
    DiffusiveLimitBound(dx, dy, diffusion, dt);
    CourantBound(cx, dt, dx);
    CourantBound(cy, dt, dy);
  }

  /** The time step is positive, at most 0.002, and stable. */
  lemma TimeStepLimits(dx: real, dy: real, cx: real, cy: real, diffusion: real)
    requires dx > 0.0 && dy > 0.0
    ensures 0.0 < TimeStep(dx, dy, cx, cy, diffusion) <= MaxTimeStep
    ensures Stable(dx, dy, cx, cy, diffusion, TimeStep(dx, dy, cx, cy, diffusion))
  {
    TimeStepPositive(dx, dy, cx, cy, diffusion);
    WithinLimits(dx, dy, cx, cy, diffusion, TimeStep(dx, dy, cx, cy, diffusion));
  }
}
