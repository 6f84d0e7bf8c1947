/** `solve_1d_advection`: u_t + c u_x = 0 on [0, 1] with periodic boundaries,
    stepped by the first-order upwind (donor-cell) scheme with the time step
    that makes the Courant number |c| dt / dx exactly one. The Gaussian initial
    condition is the parameter `init`, applied to every grid point. */
module Advection1D {
  import opened Wrappers
  import opened Periodic

  datatype Output1D = Output1D(x: seq<real>, c: real, dt: real, dx: real, numSteps: int, series: seq<Snapshot>)

  /** The initial condition sampled at every grid point. */
  function InitialField(nx: nat, init: real -> real): (u: seq<real>)
    ensures |u| == nx
  {
    seq(nx, i requires 0 <= i < nx => init(Linspace(nx)[i]))
  }

  /** `dt = dx / abs(c) if c != 0 else dx`. */
  function TimeStep(c: real, dx: real): real {
    if c != 0.0 then dx / Abs(c) else dx
  }

  /** The Courant number `c * dt / dx` that multiplies every difference. */
  function Courant(c: real, dx: real): real
    requires dx != 0.0
  {
    c * TimeStep(c, dx) / dx
  }

  /** One upwind step with Courant number `k`: with `forward` (c >= 0) each cell
      takes the difference with its left neighbour, otherwise with its right
      one; the neighbour of an end cell is the cell at the other end. */
  function Upwind(u: seq<real>, forward: bool, k: real): (r: seq<real>)
    ensures |r| == |u|
  {
    if forward then seq(|u|, i requires 0 <= i < |u| => u[i] - Flux(k, u[i], u[Prev(i, |u|)]))
    else seq(|u|, i requires 0 <= i < |u| => u[i] - Flux(k, u[Next(i, |u|)], u[i]))
  }

  /** The field after `n` upwind steps. */
  function Evolve(u0: seq<real>, forward: bool, k: real, n: nat): (u: seq<real>)
    ensures |u| == |u0|
  {
    if n == 0 then u0 else Upwind(Evolve(u0, forward, k, n - 1), forward, k)
  }

  function Frames(u0: seq<real>, forward: bool, k: real): nat -> seq<real> {
    (n: nat) => Evolve(u0, forward, k, n)
  }

  /** The time loop from the initial field `u0` at Courant number `k`: the
      first step indexes `u[0]` (or `u[-1]`) and so raises on an empty field,
      and `n % output_interval` raises for a zero interval. */
  function Run(u0: seq<real>, forward: bool, k: real, numSteps: int, outputInterval: int): (r: Result<seq<Snapshot>>)
    ensures r.Failure? <==> numSteps >= 1 && (|u0| == 0 || outputInterval == 0)
    ensures r.Failure? ==> (r.error == IndexError <==> |u0| == 0)
    ensures r.Success? ==> |r.value| >= 1 && r.value[0] == Snapshot(0, u0)
  {
    if numSteps >= 1 && |u0| == 0 then Failure(IndexError)
    else if numSteps >= 1 && outputInterval == 0 then Failure(ZeroDivisionError)
    else Success(Series(Frames(u0, forward, k), if numSteps > 0 then numSteps else 0, outputInterval))
  }

  /** What `solve_1d_advection` returns or raises: `1.0 / (nx - 1)` raises for
      `nx == 1` and `np.linspace` rejects a negative `nx` before the loop runs. */
  function Solution(nx: int, c: real, numSteps: int, outputInterval: int, init: real -> real): (r: Result<Output1D>)
    ensures r.Success? ==> nx >= 0 && |r.value.x| == nx && |r.value.series| >= 1 && r.value.series[0] == Snapshot(0, InitialField(nx, init))
    ensures r.Success? ==> nx != 1 && r.value.dx == Spacing(nx) && r.value.c == c && r.value.numSteps == numSteps
  {
    if nx == 1 then Failure(ZeroDivisionError)
    else if nx < 0 then Failure(ValueError)
    else
      var dx := Spacing(nx);
      var dt := TimeStep(c, dx);
      match Run(InitialField(nx, init), c >= 0.0, Courant(c, dx), numSteps, outputInterval)
      case Failure(e) => Failure(e)
      case Success(series) => Success(Output1D(Linspace(nx), c, dt, dx, numSteps, series))
  }

  /** One pass of the time loop: `u_new = u.copy()`, then the cells of `u_new`
      are overwritten from `u`. */
  method Step(u: array<real>, forward: bool, k: real) returns (uNew: array<real>)
    requires u.Length > 0
    ensures fresh(uNew) && uNew[..] == Upwind(u[..], forward, k)
  {
    var n := u.Length;
    uNew := new real[n](i requires 0 <= i < n reads u => u[i]);
    if forward {
      SweepForward(u, uNew, k);
    } else {
      SweepBackward(u, uNew, k);
    }
  }

  /** `c >= 0`: `u_new[1:]` from each cell and its left neighbour, then `u_new[0]`
      from the first and the last cell. */
  method SweepForward(u: array<real>, uNew: array<real>, k: real)
    requires u != uNew && u.Length == uNew.Length > 0
    modifies uNew
    ensures uNew[..] == Upwind(u[..], true, k)
  {
    var n := u.Length;
    for i := 1 to n
      invariant forall j :: 1 <= j < i ==> uNew[j] == u[j] - Flux(k, u[j], u[j - 1])
    {
      uNew[i] := u[i] - Flux(k, u[i], u[i - 1]);
    }
    uNew[0] := u[0] - Flux(k, u[0], u[n - 1]);
    forall j | 0 <= j < n
      ensures uNew[j] == Upwind(u[..], true, k)[j]
    {
    }
  }

  /** `c < 0`: `u_new[:-1]` from each cell and its right neighbour, then
      `u_new[-1]` from the last and the first cell. */
  method SweepBackward(u: array<real>, uNew: array<real>, k: real)
    requires u != uNew && u.Length == uNew.Length > 0
    modifies uNew
    ensures uNew[..] == Upwind(u[..], false, k)
  {
    var n := u.Length;
    for i := 0 to n - 1
      invariant forall j :: 0 <= j < i ==> uNew[j] == u[j] - Flux(k, u[j + 1], u[j])
    {
      uNew[i] := u[i] - Flux(k, u[i + 1], u[i]);
    }
    uNew[n - 1] := u[n - 1] - Flux(k, u[0], u[n - 1]);
    forall j | 0 <= j < n
      ensures uNew[j] == Upwind(u[..], false, k)[j]
    {
    }
  }

  /** `solve_1d_advection`: the grid and the time step, then the time loop. */
  method Solve(nx: int, c: real, numSteps: int, outputInterval: int, init: real -> real) returns (r: Result<Output1D>)
    ensures r == Solution(nx, c, numSteps, outputInterval, init)
  {
    if nx == 1 {
      return Failure(ZeroDivisionError);
    }
    var dx := Spacing(nx);
    var dt := TimeStep(c, dx);
    if nx < 0 {
      return Failure(ValueError);
    }
    var x := Linspace(nx);
    var u := Sample(x, init);
    var series := TimeLoop(u, c >= 0.0, Courant(c, dx), numSteps, outputInterval);
    match series
    case Failure(e) => return Failure(e);
    case Success(results) => return Success(Output1D(x, c, dt, dx, numSteps, results));
  }

  /** `u = f(x)` for the initial condition `f`, as a fresh array. */
  method Sample(x: seq<real>, init: real -> real) returns (u: array<real>)
    requires x == Linspace(|x|)
    ensures fresh(u) && u[..] == InitialField(|x|, init)
  {
    u := new real[|x|](i requires 0 <= i < |x| => init(x[i]));
  }

  /** The `for n in range(1, num_steps + 1)` loop of `solve_1d_advection`. */
  method TimeLoop(u: array<real>, forward: bool, k: real, numSteps: int, outputInterval: int)
    returns (r: Result<seq<Snapshot>>)
    ensures r == Run(u[..], forward, k, numSteps, outputInterval)
  {
    var v := u;
    ghost var u0 := u[..];
    var results := [Snapshot(0, v[..])];
    var n := 1;
    while n <= numSteps
      invariant 1 <= n <= if numSteps >= 1 then numSteps + 1 else 1
      invariant n > 1 ==> u0 != [] && outputInterval != 0
      invariant v.Length == |u0| && v[..] == Evolve(u0, forward, k, n - 1)
      invariant results == Series(Frames(u0, forward, k), n - 1, outputInterval)
    {
      if v.Length == 0 {
        return Failure(IndexError);
      }
      v := Step(v, forward, k);
      if outputInterval == 0 {
        return Failure(ZeroDivisionError);
      }
      if n % outputInterval == 0 {
        results := results + [Snapshot(n, v[..])];
      }
      n := n + 1;
    }
    assert n - 1 == if numSteps > 0 then numSteps else 0;
    return Success(results);
  }

  // ---------------------------------------------------------------- properties

  /** The grid runs from 0 to 1 in steps of `dx = 1 / (nx - 1)`. */
  lemma GridSpacing(nx: nat)
    requires nx >= 2
    ensures Linspace(nx)[0] == 0.0 && Linspace(nx)[nx - 1] == 1.0
    ensures forall i :: 0 <= i < nx - 1 ==> Linspace(nx)[i + 1] - Linspace(nx)[i] == Spacing(nx)
  {
    var d := (nx - 1) as real;
    assert Linspace(nx)[nx - 1] == d / d;
    forall i | 0 <= i < nx - 1
      ensures Linspace(nx)[i + 1] - Linspace(nx)[i] == 1.0 / d
    {
      QuotientStep(i as real, d);
    }
  }

  lemma QuotientStep(a: real, d: real)
    requires d > 0.0
    ensures (a + 1.0) / d - a / d == 1.0 / d
  {
    assert (a + 1.0) / d == a / d + 1.0 / d;
  }

  /** The direction the field travels: +1 downwind for `c > 0`, -1 for `c < 0`. */
  function Direction(c: real): int {
    if c > 0.0 then 1 else if c < 0.0 then -1 else 0
  }

  /** The time step makes the Courant number `c * dt / dx` the sign of `c`: one
      cell per step downwind, and zero when there is no wind. */
  lemma CourantNumber(c: real, dx: real)
    requires dx != 0.0
    ensures Courant(c, dx) == Direction(c) as real
  {
    if c != 0.0 {
      var a := Abs(c);
      assert c * (dx / a) == (c / a) * dx;
      assert (c / a) * dx / dx == c / a;
    }
  }

  /** With Courant number one the step moves the field one cell downwind
      exactly; with Courant number zero it leaves the field alone. */
  lemma UpwindExact(u: seq<real>)
    ensures Upwind(u, true, 1.0) == Shift(u, 1)
    ensures Upwind(u, false, -1.0) == Shift(u, -1)
    ensures Upwind(u, true, 0.0) == u && Upwind(u, false, 0.0) == u
  {
    ShiftOne(u);
  }

  /** The scheme is conservative: for any Courant number the total of the field
      is unchanged by a step. */
  lemma UpwindSum(u: seq<real>, forward: bool, k: real)
    ensures Sum(Upwind(u, forward, k)) == Sum(u)
  {
    if forward {
      UpwindSumForward(u, k);
    } else {
      UpwindSumBackward(u, k);
    }
  }

  lemma UpwindSumForward(u: seq<real>, k: real)
    ensures Sum(Upwind(u, true, k)) == Sum(u)
  {
    var n := |u|;
    var left := seq(n, i requires 0 <= i < n => u[Prev(i, n)]);
    NeighbourSum(u);
    SumCancel(Upwind(u, true, k), u, u, left, k);
  }

  lemma UpwindSumBackward(u: seq<real>, k: real)
    ensures Sum(Upwind(u, false, k)) == Sum(u)
  {
    var n := |u|;
    var right := seq(n, i requires 0 <= i < n => u[Next(i, n)]);
    NeighbourSum(u);
    SumCancel(Upwind(u, false, k), u, right, u, k);
  }

  /** A uniform field is left as it is. */
  lemma UpwindUniform(u: seq<real>, forward: bool, k: real, v: real)
    requires forall i :: 0 <= i < |u| ==> u[i] == v
    ensures Upwind(u, forward, k) == u
  {
    var r := Upwind(u, forward, k);
    forall i | 0 <= i < |u|
      ensures r[i] == u[i]
    {
      assert u[Prev(i, |u|)] == v && u[Next(i, |u|)] == v;
    }
  }

  lemma {:induction false} EvolveSum(u0: seq<real>, forward: bool, k: real, n: nat)
    ensures Sum(Evolve(u0, forward, k, n)) == Sum(u0)
  {
    if n > 0 {
      EvolveSum(u0, forward, k, n - 1);
      UpwindSum(Evolve(u0, forward, k, n - 1), forward, k);
    }
  }

  /** The Courant numbers the time step can produce, with the direction the
      field then moves in. */
  predicate ExactCourant(forward: bool, k: real, d: int) {
    (forward && k == 1.0 && d == 1) || (!forward && k == -1.0 && d == -1) || (k == 0.0 && d == 0)
  }

  lemma UpwindMoves(u: seq<real>, forward: bool, k: real, d: int)
    requires ExactCourant(forward, k, d)
    ensures Upwind(u, forward, k) == Shift(u, d)
  {
    UpwindExact(u);
    if d == 0 {
      ShiftZero(u);
    }
  }

  /** After `n` steps at Courant number one the initial field has travelled `n`
      cells downwind (`n` cells back for a negative speed). */
  lemma {:induction false} EvolveTravels(u0: seq<real>, forward: bool, k: real, d: int, n: nat)
    requires ExactCourant(forward, k, d)
    ensures Evolve(u0, forward, k, n) == Shift(u0, d * n)
  {
    if n == 0 {
      ShiftZero(u0);
    } else {
      var a := d * (n - 1);
      assert a + d == d * n;
      calc {
        Evolve(u0, forward, k, n);
        Upwind(Evolve(u0, forward, k, n - 1), forward, k);
      == { UpwindMoves(Evolve(u0, forward, k, n - 1), forward, k, d); }
        Shift(Evolve(u0, forward, k, n - 1), d);
      == { EvolveTravels(u0, forward, k, d, n - 1); }
        Shift(Shift(u0, a), d);
      == { ShiftShift(u0, a, d); }
        Shift(u0, a + d);
      }
    }
  }

  /** Every snapshot recorded at Courant number one is the initial field moved
      `step` cells, with the initial total. */
  lemma FramesTravel(u0: seq<real>, forward: bool, k: real, d: int, m: nat, interval: int)
    requires ExactCourant(forward, k, d) && (m > 0 ==> interval != 0)
    ensures forall s :: s in Series(Frames(u0, forward, k), m, interval) ==>
              s.u == Shift(u0, d * s.step) && Sum(s.u) == Sum(u0)
  {
    var series := Series(Frames(u0, forward, k), m, interval);
    SeriesEntries(Frames(u0, forward, k), m, interval);
    forall s | s in series
      ensures s.u == Shift(u0, d * s.step) && Sum(s.u) == Sum(u0)
    {
      var j :| 0 <= j < |series| && series[j] == s;
      EvolveTravels(u0, forward, k, d, s.step);
      EvolveSum(u0, forward, k, s.step);
    }
  }

  /** The run raises exactly when `nx` is 1 or negative, or when a step is
      taken on an empty grid or with a zero output interval. */
  lemma SolutionErrors(nx: int, c: real, numSteps: int, outputInterval: int, init: real -> real)
    ensures var r := Solution(nx, c, numSteps, outputInterval, init);
      && (r.Failure? <==> nx == 1 || nx < 0 || (numSteps >= 1 && (nx == 0 || outputInterval == 0)))
      && (r == Failure(ZeroDivisionError) <==> nx == 1 || (nx >= 2 && numSteps >= 1 && outputInterval == 0))
      && (r == Failure(ValueError) <==> nx < 0)
      && (r == Failure(IndexError) <==> nx == 0 && numSteps >= 1)
  {
  }

  /** The Courant number of a run on `nx >= 2` points, or on none. */
  lemma SolutionCourant(nx: int, c: real)
    requires nx != 1
    ensures Courant(c, Spacing(nx)) == Direction(c) as real
  {
    CourantNumber(c, Spacing(nx));
  }

  /** A successful run records the initial field followed by the field after
      every step that is a multiple of the interval, each computed at the
      Courant number `Direction(c)`. */
  lemma SolutionShape(nx: int, c: real, numSteps: int, outputInterval: int, init: real -> real)
    requires Solution(nx, c, numSteps, outputInterval, init).Success?
    ensures nx >= 0 && (numSteps > 0 ==> outputInterval != 0)
    ensures Solution(nx, c, numSteps, outputInterval, init).value.series
            == Series(Frames(InitialField(nx, init), c >= 0.0, Direction(c) as real), if numSteps > 0 then numSteps else 0, outputInterval)
  {
    SolutionCourant(nx, c);
  }

  /** The returned series: the initial field, then one snapshot per multiple of
      the interval up to `num_steps`; each snapshot is the initial field moved
      `step` cells downwind and keeps its total. */
  lemma SolutionSeries(nx: int, c: real, numSteps: int, outputInterval: int, init: real -> real)
    requires Solution(nx, c, numSteps, outputInterval, init).Success?
    ensures var out := Solution(nx, c, numSteps, outputInterval, init).value;
      var u0 := out.series[0].u;
      && |out.x| == nx && u0 == InitialField(nx, init)
      && (outputInterval != 0 ==>
            |out.series| == 1 + (if numSteps > 0 then numSteps else 0) / (if outputInterval > 0 then outputInterval else -outputInterval))
      && forall s :: s in out.series ==>
           s.u == Shift(u0, Direction(c) * s.step) && Sum(s.u) == Sum(u0)
  {
    SolutionShape(nx, c, numSteps, outputInterval, init);
    var k := Direction(c) as real;
    var steps := if numSteps > 0 then numSteps else 0;
    var frames := Frames(InitialField(nx, init), c >= 0.0, k);
    if outputInterval != 0 {
      SeriesLength(frames, steps, outputInterval);
    }
    FramesTravel(InitialField(nx, init), c >= 0.0, k, Direction(c), steps, outputInterval);
  }
}
