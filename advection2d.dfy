/** `solve_2d_advection_diffusion`: u_t + cx u_x + cy u_y = D (u_xx + u_yy) on
    [0, 1] x [0, 1] with periodic boundaries. Each step copies the field, takes
    the upwind difference along x and then along y, and adds the five-point
    Laplacian on the interior cells; every term reads the field of the previous
    step. The field is held as `ny` rows of `nx` cells (`u[j][i]` at `x[i]`,
    `y[j]`, as `np.meshgrid` lays it out), and snapshots are its row-major
    flattening. The Gaussian initial condition is the parameter `init`. */
module Advection2D {
  import opened Wrappers
  import opened Periodic
  import opened Stability
  import Advection1D

  type Grid = seq<seq<real>>

  datatype Output2D = Output2D(nx: int, ny: int, cx: real, cy: real, diffusion: real, numSteps: int, series: seq<Snapshot>)

  /** The number of cells in a row (zero for a grid without rows). */
  function Width(g: Grid): nat {
    if g == [] then 0 else |g[0]|
  }

  /** Every row has the same number of cells. */
  predicate Rectangular(g: Grid) {
    forall j :: 0 <= j < |g| ==> |g[j]| == Width(g)
  }

  /** What one step needs besides the field: the upwind direction and Courant
      number along each axis, `diffusion * dt`, and the divisor `dx * dy` of
      the Laplacian. */
  datatype Coefficients = Coefficients(forwardX: bool, kx: real, forwardY: bool, ky: real, coef: real, area: real)

  // ---------------------------------------------------------------- grid and time step

  /** `np.meshgrid(x, y)` with `u = f(X, Y)`: row `j` holds `f(x[i], y[j])`. */
  function InitialField(nx: nat, ny: nat, init: (real, real) -> real): (u: Grid)
    ensures |u| == ny && forall j :: 0 <= j < ny ==> |u[j]| == nx
  {
    seq(ny, j requires 0 <= j < ny => seq(nx, i requires 0 <= i < nx => init(Linspace(nx)[i], Linspace(ny)[j])))
  }

  function StepCoefficients(dx: real, dy: real, dt: real, cx: real, cy: real, diffusion: real): (c: Coefficients)
    requires dx != 0.0 && dy != 0.0
    ensures c.area != 0.0
  {
    Coefficients(cx >= 0.0, Courant(cx, dt, dx), cy >= 0.0, Courant(cy, dt, dy), diffusion * dt, dx * dy)
  }

  // ---------------------------------------------------------------- one step

  /** The x-advection correction of cell `(j, i)`: the difference with its left
      neighbour for `cx >= 0`, with its right one otherwise, wrapping around the
      row. */
  function XTerm(u: Grid, j: int, i: int, forward: bool, k: real): real
    requires 0 <= j < |u| && 0 <= i < |u[j]|
  {
    if forward then Flux(k, u[j][i], u[j][Prev(i, |u[j]|)])
    else Flux(k, u[j][Next(i, |u[j]|)], u[j][i])
  }

  /** The y-advection correction of cell `(j, i)`: the difference with the row
      below for `cy >= 0`, with the row above otherwise, wrapping around the
      column. */
  function YTerm(u: Grid, j: int, i: int, forward: bool, k: real): real
    requires Rectangular(u) && 0 <= j < |u| && 0 <= i < Width(u)
  {
    if forward then Flux(k, u[j][i], u[Prev(j, |u|)][i])
    else Flux(k, u[Next(j, |u|)][i], u[j][i])
  }

  /** Cells off the boundary rows and columns, the only ones diffusion reaches. */
  predicate Interior(u: Grid, j: int, i: int) {
    1 <= j < |u| - 1 && 1 <= i < Width(u) - 1
  }

  /** The five-point stencil: the four neighbours less four times the cell. */
  function Laplacian(u: Grid, j: int, i: int): real
    requires Rectangular(u) && Interior(u, j, i)
  {
    u[j + 1][i] + u[j - 1][i] + u[j][i + 1] + u[j][i - 1] - 4.0 * u[j][i]
  }

  /** `diffusion * dt * (laplacian / (dx * dy))`. */
  function DiffusionTerm(coef: real, lap: real, area: real): real
    requires area != 0.0
  {
    coef * (lap / area)
  }

  /** What diffusion adds to cell `(j, i)`: nothing on the boundary. */
  function DTerm(u: Grid, j: int, i: int, coef: real, area: real): real
    requires Rectangular(u) && area != 0.0
  {
    if Interior(u, j, i) then DiffusionTerm(coef, Laplacian(u, j, i), area) else 0.0
  }

  /** The new value of cell `(j, i)`: `u_new = u.copy()`, less the two advection
      corrections, plus diffusion. */
  function Cell(u: Grid, c: Coefficients, j: int, i: int): (v: real)
    requires Rectangular(u) && c.area != 0.0 && 0 <= j < |u| && 0 <= i < Width(u)
    ensures c.kx == 0.0 && c.ky == 0.0 && (c.coef == 0.0 || !Interior(u, j, i)) ==> v == u[j][i]
  {
    u[j][i] - XTerm(u, j, i, c.forwardX, c.kx) - YTerm(u, j, i, c.forwardY, c.ky) + DTerm(u, j, i, c.coef, c.area)
  }

  /** One pass of the time loop. */
  function Step(u: Grid, c: Coefficients): (r: Grid)
    requires Rectangular(u) && c.area != 0.0
    ensures |r| == |u| && Width(r) == Width(u) && Rectangular(r)
  {
    seq(|u|, j requires 0 <= j < |u| => seq(Width(u), i requires 0 <= i < Width(u) => Cell(u, c, j, i)))
  }

  /** The field after `n` steps. */
  function Evolve(u0: Grid, c: Coefficients, n: nat): (u: Grid)
    requires Rectangular(u0) && c.area != 0.0
    ensures |u| == |u0| && Width(u) == Width(u0) && Rectangular(u)
  {
    if n == 0 then u0 else Step(Evolve(u0, c, n - 1), c)
  }

  /** `u.flatten().tolist()`: the rows one after the other. */
  function Flatten(g: Grid): seq<real> {
    if g == [] then [] else g[0] + Flatten(g[1..])
  }

  function Frames(u0: Grid, c: Coefficients): nat -> seq<real>
    requires Rectangular(u0) && c.area != 0.0
  {
    (n: nat) => Flatten(Evolve(u0, c, n))
  }

  /** The time loop from the field `u0`: the first step indexes `u_new[:, 0]`
      and `u_new[0, :]` (or the last column and row), which raises on a grid
      with no rows or no columns, and `n % output_interval` raises for a zero
      interval. */
  function Run(u0: Grid, c: Coefficients, numSteps: int, outputInterval: int): (r: Result<seq<Snapshot>>)
    requires Rectangular(u0) && c.area != 0.0
    ensures r.Failure? <==> numSteps >= 1 && (|u0| == 0 || Width(u0) == 0 || outputInterval == 0)
    ensures r.Failure? ==> (r.error == IndexError <==> |u0| == 0 || Width(u0) == 0)
    ensures r.Success? ==> |r.value| >= 1 && r.value[0] == Snapshot(0, Flatten(u0))
  {
    if numSteps >= 1 && (|u0| == 0 || Width(u0) == 0) then Failure(IndexError)
    else if numSteps >= 1 && outputInterval == 0 then Failure(ZeroDivisionError)
    else Success(Series(Frames(u0, c), if numSteps > 0 then numSteps else 0, outputInterval))
  }

  /** What `solve_2d_advection_diffusion` returns or raises: `1.0 / (nx - 1)`
      and `1.0 / (ny - 1)` raise for a dimension of 1, and `np.linspace` rejects
      a negative dimension before the loop runs. */
  function Solution(nx: int, ny: int, cx: real, cy: real, diffusion: real, numSteps: int, outputInterval: int,
                    init: (real, real) -> real): (r: Result<Output2D>)
    ensures r.Success? ==> nx >= 0 && ny >= 0 && |r.value.series| >= 1 && r.value.series[0] == Snapshot(0, Flatten(InitialField(nx, ny, init)))
    ensures r.Success? ==> r.value.nx == nx && r.value.ny == ny && r.value.numSteps == numSteps
  {
    if nx == 1 || ny == 1 then Failure(ZeroDivisionError)
    else if nx < 0 || ny < 0 then Failure(ValueError)
    else
      var dx := Spacing(nx);
      var dy := Spacing(ny);
      var dt := TimeStep(dx, dy, cx, cy, diffusion);
      match Run(InitialField(nx, ny, init), StepCoefficients(dx, dy, dt, cx, cy, diffusion), numSteps, outputInterval)
      case Failure(e) => Failure(e)
      case Success(series) => Success(Output2D(nx, ny, cx, cy, diffusion, numSteps, series))
  }

  // ---------------------------------------------------------------- the solver on arrays

  /** The field held in a `ny` x `nx` array, as its grid of rows. */
  function Cells(a: array2<real>): (g: Grid)
    reads a
    ensures |g| == a.Length0 && (forall j :: 0 <= j < a.Length0 ==> |g[j]| == a.Length1)
  {
    seq(a.Length0, j requires 0 <= j < a.Length0 reads a =>
      seq(a.Length1, i requires 0 <= i < a.Length1 reads a => a[j, i]))
  }

  /** `u.copy()`. */
  method Copy(u: array2<real>) returns (v: array2<real>)
    ensures fresh(v) && v.Length0 == u.Length0 && v.Length1 == u.Length1
    ensures forall j, i :: 0 <= j < v.Length0 && 0 <= i < v.Length1 ==> v[j, i] == u[j, i]
  {
    v := new real[u.Length0, u.Length1]((j, i) requires 0 <= j < u.Length0 && 0 <= i < u.Length1 reads u => u[j, i]);
  }

  /** One pass of the time loop: `u_new = u.copy()`, then the advection along
      x and along y and the diffusion, each reading only `u`. */
  method StepGrid(u: array2<real>, c: Coefficients) returns (v: array2<real>)
    requires u.Length0 > 0 && u.Length1 > 0 && c.area != 0.0
    ensures fresh(v) && Cells(v) == Step(Cells(u), c)
  {
    ghost var g := Cells(u);
    v := Copy(u);
    AdvectX(u, v, c.forwardX, c.kx);
    AdvectY(u, v, c.forwardY, c.ky);
    Diffuse(u, v, c.coef, c.area);
    forall j | 0 <= j < u.Length0
      ensures Cells(v)[j] == Step(g, c)[j]
    {
      forall i | 0 <= i < u.Length1
        ensures Cells(v)[j][i] == Step(g, c)[j][i]
      {
      }
    }
  }

  /** `u_new[:, 1:] -= ...; u_new[:, 0] -= ...` (or the mirror image for
      `cx < 0`), taken row by row; the rows do not interact. */
  method AdvectX(u: array2<real>, v: array2<real>, forward: bool, k: real)
    requires u != v && u.Length0 == v.Length0 && u.Length1 == v.Length1 > 0
    modifies v
    ensures forall j, i :: 0 <= j < v.Length0 && 0 <= i < v.Length1 ==>
              v[j, i] == old(v[j, i]) - XTerm(Cells(u), j, i, forward, k)
  {
    for j := 0 to v.Length0
      invariant forall jj, i :: 0 <= jj < j && 0 <= i < v.Length1 ==>
                  v[jj, i] == old(v[jj, i]) - XTerm(Cells(u), jj, i, forward, k)
      invariant forall jj, i :: j <= jj < v.Length0 && 0 <= i < v.Length1 ==> v[jj, i] == old(v[jj, i])
    {
      AdvectRow(u, v, j, forward, k);
    }
  }

  /** The x-advection of row `j`. */
  method AdvectRow(u: array2<real>, v: array2<real>, j: int, forward: bool, k: real)
    requires u != v && u.Length0 == v.Length0 && u.Length1 == v.Length1 > 0 && 0 <= j < v.Length0
    modifies v
    ensures forall i :: 0 <= i < v.Length1 ==> v[j, i] == old(v[j, i]) - XTerm(Cells(u), j, i, forward, k)
    ensures forall jj, i :: 0 <= jj < v.Length0 && jj != j && 0 <= i < v.Length1 ==> v[jj, i] == old(v[jj, i])
  {
    var n := v.Length1;
    if forward {
      for i := 1 to n
        invariant forall ii :: 1 <= ii < i ==> v[j, ii] == old(v[j, ii]) - Flux(k, u[j, ii], u[j, ii - 1])
        invariant forall ii :: i <= ii < n || ii == 0 ==> v[j, ii] == old(v[j, ii])
        invariant forall jj, ii :: 0 <= jj < v.Length0 && jj != j && 0 <= ii < n ==> v[jj, ii] == old(v[jj, ii])
      {
        v[j, i] := v[j, i] - Flux(k, u[j, i], u[j, i - 1]);
      }
      v[j, 0] := v[j, 0] - Flux(k, u[j, 0], u[j, n - 1]);
    } else {
      for i := 0 to n - 1
        invariant forall ii :: 0 <= ii < i ==> v[j, ii] == old(v[j, ii]) - Flux(k, u[j, ii + 1], u[j, ii])
        invariant forall ii :: i <= ii < n ==> v[j, ii] == old(v[j, ii])
        invariant forall jj, ii :: 0 <= jj < v.Length0 && jj != j && 0 <= ii < n ==> v[jj, ii] == old(v[jj, ii])
      {
        v[j, i] := v[j, i] - Flux(k, u[j, i + 1], u[j, i]);
      }
      v[j, n - 1] := v[j, n - 1] - Flux(k, u[j, 0], u[j, n - 1]);
    }
  }

  /** `u_new[1:, :] -= ...; u_new[0, :] -= ...` (or the mirror image for
      `cy < 0`), taken column by column; the columns do not interact. */
  method AdvectY(u: array2<real>, v: array2<real>, forward: bool, k: real)
    requires u != v && u.Length0 == v.Length0 > 0 && u.Length1 == v.Length1
    modifies v
    ensures forall j, i :: 0 <= j < v.Length0 && 0 <= i < v.Length1 ==>
              v[j, i] == old(v[j, i]) - YTerm(Cells(u), j, i, forward, k)
  {
    for i := 0 to v.Length1
      invariant forall j, ii :: 0 <= j < v.Length0 && 0 <= ii < i ==>
                  v[j, ii] == old(v[j, ii]) - YTerm(Cells(u), j, ii, forward, k)
      invariant forall j, ii :: 0 <= j < v.Length0 && i <= ii < v.Length1 ==> v[j, ii] == old(v[j, ii])
    {
      AdvectColumn(u, v, i, forward, k);
    }
  }

  /** The y-advection of column `i`. */
  method AdvectColumn(u: array2<real>, v: array2<real>, i: int, forward: bool, k: real)
    requires u != v && u.Length0 == v.Length0 > 0 && u.Length1 == v.Length1 && 0 <= i < v.Length1
    modifies v
    ensures forall j :: 0 <= j < v.Length0 ==> v[j, i] == old(v[j, i]) - YTerm(Cells(u), j, i, forward, k)
    ensures forall j, ii :: 0 <= j < v.Length0 && 0 <= ii < v.Length1 && ii != i ==> v[j, ii] == old(v[j, ii])
  {
    var m := v.Length0;
    if forward {
      for j := 1 to m
        invariant forall jj :: 1 <= jj < j ==> v[jj, i] == old(v[jj, i]) - Flux(k, u[jj, i], u[jj - 1, i])
        invariant forall jj :: j <= jj < m || jj == 0 ==> v[jj, i] == old(v[jj, i])
        invariant forall jj, ii :: 0 <= jj < m && 0 <= ii < v.Length1 && ii != i ==> v[jj, ii] == old(v[jj, ii])
      {
        v[j, i] := v[j, i] - Flux(k, u[j, i], u[j - 1, i]);
      }
      v[0, i] := v[0, i] - Flux(k, u[0, i], u[m - 1, i]);
    } else {
      for j := 0 to m - 1
        invariant forall jj :: 0 <= jj < j ==> v[jj, i] == old(v[jj, i]) - Flux(k, u[jj + 1, i], u[jj, i])
        invariant forall jj :: j <= jj < m ==> v[jj, i] == old(v[jj, i])
        invariant forall jj, ii :: 0 <= jj < m && 0 <= ii < v.Length1 && ii != i ==> v[jj, ii] == old(v[jj, ii])
      {
        v[j, i] := v[j, i] - Flux(k, u[j + 1, i], u[j, i]);
      }
      v[m - 1, i] := v[m - 1, i] - Flux(k, u[0, i], u[m - 1, i]);
    }
  }

  /** `u_new[1:-1, 1:-1] += diffusion * dt * (laplacian / (dx * dy))`, taken
      row by row over the interior rows. */
  method Diffuse(u: array2<real>, v: array2<real>, coef: real, area: real)
    requires u != v && u.Length0 == v.Length0 && u.Length1 == v.Length1 && area != 0.0
    modifies v
    ensures forall j, i :: 0 <= j < v.Length0 && 0 <= i < v.Length1 ==>
              v[j, i] == old(v[j, i]) + DTerm(Cells(u), j, i, coef, area)
  {
    var m := v.Length0;
    var j := 1;
    while j < m - 1
      invariant 1 <= j && (m >= 2 ==> j <= m - 1)
      invariant forall jj, i :: 1 <= jj < j && jj < m && 0 <= i < v.Length1 ==>
                  v[jj, i] == old(v[jj, i]) + DTerm(Cells(u), jj, i, coef, area)
      invariant forall jj, i :: 0 <= jj < m && (jj == 0 || jj >= j) && 0 <= i < v.Length1 ==> v[jj, i] == old(v[jj, i])
    {
      DiffuseRow(u, v, j, coef, area);
      j := j + 1;
    }
    forall jj, i | 0 <= jj < m && 0 <= i < v.Length1 && (jj == 0 || jj >= m - 1)
      ensures DTerm(Cells(u), jj, i, coef, area) == 0.0
    {
    }
  }

  /** The diffusion of interior row `j`. */
  method DiffuseRow(u: array2<real>, v: array2<real>, j: int, coef: real, area: real)
    requires u != v && u.Length0 == v.Length0 && u.Length1 == v.Length1 && area != 0.0 && 1 <= j < v.Length0 - 1
    modifies v
    ensures forall i :: 0 <= i < v.Length1 ==> v[j, i] == old(v[j, i]) + DTerm(Cells(u), j, i, coef, area)
    ensures forall jj, i :: 0 <= jj < v.Length0 && jj != j && 0 <= i < v.Length1 ==> v[jj, i] == old(v[jj, i])
  {
    var n := v.Length1;
    var i := 1;
    while i < n - 1
      invariant 1 <= i && (n >= 2 ==> i <= n - 1)
      invariant forall ii :: 1 <= ii < i && ii < n ==> v[j, ii] == old(v[j, ii]) + DTerm(Cells(u), j, ii, coef, area)
      invariant forall ii :: 0 <= ii < n && (ii == 0 || ii >= i) ==> v[j, ii] == old(v[j, ii])
      invariant forall jj, ii :: 0 <= jj < v.Length0 && jj != j && 0 <= ii < n ==> v[jj, ii] == old(v[jj, ii])
    {
      var lap := u[j + 1, i] + u[j - 1, i] + u[j, i + 1] + u[j, i - 1] - 4.0 * u[j, i];
      v[j, i] := v[j, i] + DiffusionTerm(coef, lap, area);
      i := i + 1;
    }
    forall ii | 0 <= ii < n && (ii == 0 || ii >= n - 1)
      ensures DTerm(Cells(u), j, ii, coef, area) == 0.0
    {
    }
  }

  /** `u = f(X, Y)` on the mesh of `x` and `y`, as a fresh array. */
  method Sample(x: seq<real>, y: seq<real>, init: (real, real) -> real) returns (u: array2<real>)
    requires x == Linspace(|x|) && y == Linspace(|y|)
    ensures fresh(u) && Cells(u) == InitialField(|x|, |y|, init)
  {
    u := new real[|y|, |x|]((j, i) requires 0 <= j < |y| && 0 <= i < |x| => init(x[i], y[j]));
    forall j | 0 <= j < |y|
      ensures Cells(u)[j] == InitialField(|x|, |y|, init)[j]
    {
    }
  }

  /** The `for n in range(1, num_steps + 1)` loop. */
  method TimeLoop(u: array2<real>, c: Coefficients, numSteps: int, outputInterval: int)
    returns (r: Result<seq<Snapshot>>)
    requires c.area != 0.0
    ensures r == Run(Cells(u), c, numSteps, outputInterval)
  {
    var v := u;
    ghost var u0 := Cells(u);
    var results := [Snapshot(0, Flatten(Cells(v)))];
    var n := 1;
    while n <= numSteps
      invariant 1 <= n <= if numSteps >= 1 then numSteps + 1 else 1
      invariant n > 1 ==> |u0| > 0 && Width(u0) > 0 && outputInterval != 0
      invariant v.Length0 == |u0| && (|u0| > 0 ==> v.Length1 == Width(u0))
      invariant Cells(v) == Evolve(u0, c, n - 1)
      invariant results == Series(Frames(u0, c), n - 1, outputInterval)
    {
      if v.Length0 == 0 || v.Length1 == 0 {
        return Failure(IndexError);
      }
      v := Advance(v, c, u0, n);
      if outputInterval == 0 {
        return Failure(ZeroDivisionError);
      }
      results := Record(results, v, n, outputInterval, c, u0);
      n := n + 1;
    }
    assert n - 1 == if numSteps > 0 then numSteps else 0;
    return Success(results);
  }

  /** `if n % output_interval == 0: results.append(...)` after step `n`. */
  method Record(results: seq<Snapshot>, v: array2<real>, n: nat, outputInterval: int, c: Coefficients, ghost u0: Grid)
    returns (next: seq<Snapshot>)
    requires n >= 1 && outputInterval != 0 && Rectangular(u0) && c.area != 0.0
    requires results == Series(Frames(u0, c), n - 1, outputInterval) && Cells(v) == Evolve(u0, c, n)
    ensures next == Series(Frames(u0, c), n, outputInterval)
  {
    next := results;
    if n % outputInterval == 0 {
      assert Frames(u0, c)(n) == Flatten(Cells(v));
      next := results + [Snapshot(n, Flatten(Cells(v)))];
    }
  }

  /** Step `n` of the time loop, on the field after `n - 1` steps. */
  method Advance(v: array2<real>, c: Coefficients, ghost u0: Grid, ghost n: nat) returns (w: array2<real>)
    requires v.Length0 > 0 && v.Length1 > 0 && n >= 1 && Rectangular(u0) && c.area != 0.0
    requires Cells(v) == Evolve(u0, c, n - 1)
    ensures Cells(w) == Evolve(u0, c, n)
  {
    w := StepGrid(v, c);
  }

  /** `solve_2d_advection_diffusion`: the grid and the time step, then the
      time loop. */
  method Solve(nx: int, ny: int, cx: real, cy: real, diffusion: real, numSteps: int, outputInterval: int,
               init: (real, real) -> real) returns (r: Result<Output2D>)
    ensures r == Solution(nx, ny, cx, cy, diffusion, numSteps, outputInterval, init)
  {
    if nx == 1 || ny == 1 {
      return Failure(ZeroDivisionError);
    }
    var dx := Spacing(nx);
    var dy := Spacing(ny);
    var dt := TimeStep(dx, dy, cx, cy, diffusion);
    if nx < 0 || ny < 0 {
      return Failure(ValueError);
    }
    var x := Linspace(nx);
    var y := Linspace(ny);
    var u := Sample(x, y, init);
    var series := TimeLoop(u, StepCoefficients(dx, dy, dt, cx, cy, diffusion), numSteps, outputInterval);
    match series
    case Failure(e) => return Failure(e);
    case Success(results) => return Success(Output2D(nx, ny, cx, cy, diffusion, numSteps, results));
  }

  // ---------------------------------------------------------------- properties

  /** The time step on a grid of at least two points each way is positive, at
      most 0.002, and meets the stability conditions. */
  lemma TimeStepBounds(nx: int, ny: int, cx: real, cy: real, diffusion: real)
    requires nx >= 2 && ny >= 2
    ensures 0.0 < TimeStep(Spacing(nx), Spacing(ny), cx, cy, diffusion) <= MaxTimeStep
    ensures Stable(Spacing(nx), Spacing(ny), cx, cy, diffusion, TimeStep(Spacing(nx), Spacing(ny), cx, cy, diffusion))
  {
    assert Spacing(nx) > 0.0 && Spacing(ny) > 0.0;
    TimeStepLimits(Spacing(nx), Spacing(ny), cx, cy, diffusion);
  }

  /** The flattened grid holds `w` cells for each of its rows. */
  lemma {:induction false} FlattenLength(g: Grid)
    requires Rectangular(g)
    ensures |Flatten(g)| == |g| * Width(g)
  {
    if g != [] {
      var w := Width(g);
      RestRectangular(g);
      FlattenLength(g[1..]);
      assert |g| * w == w + (|g| - 1) * w;
    }
  }

  /** Dropping the first row keeps the grid rectangular and its width. */
  lemma RestRectangular(g: Grid)
    requires Rectangular(g) && g != []
    ensures Rectangular(g[1..]) && (|g| > 1 ==> Width(g[1..]) == Width(g))
  {
    forall j | 0 <= j < |g| - 1
      ensures |g[1..][j]| == Width(g)
    {
      assert g[1..][j] == g[j + 1];
    }
  }

  /** `flatten()` lays the rows out one after the other: cell `(j, i)` of a
      grid `w` cells wide lands at `j * w + i`. */
  lemma {:induction false} FlattenAt(g: Grid, j: int, i: int)
    requires Rectangular(g) && 0 <= j < |g| && 0 <= i < Width(g)
    ensures j * Width(g) + i < |Flatten(g)| && Flatten(g)[j * Width(g) + i] == g[j][i]
  {
    var w := Width(g);
    assert Flatten(g) == g[0] + Flatten(g[1..]);
    assert |g[0]| == w;
    if j > 0 {
      RestRectangular(g);
      var p := (j - 1) * w + i;
      assert j * w + i == w + p by {
        assert j * w == (j - 1) * w + w;
      }
      FlattenAt(g[1..], j - 1, i);
      assert Width(g[1..]) == w && g[1..][j - 1] == g[j];
      assert p < |Flatten(g[1..])| && Flatten(g[1..])[p] == g[j][i];
    }
  }

  /** The total of each row. */
  function RowSums(g: Grid): (r: seq<real>)
    ensures |r| == |g|
  {
    seq(|g|, j requires 0 <= j < |g| => Sum(g[j]))
  }

  /** The flattened field sums to the total of the row totals. */
  lemma {:induction false} SumFlatten(g: Grid)
    ensures Sum(Flatten(g)) == Sum(RowSums(g))
  {
    if g != [] {
      SumFlatten(g[1..]);
      SumAppend(g[0], Flatten(g[1..]));
      assert RowSums(g)[1..] == RowSums(g[1..]);
    }
  }

  /** With no diffusion a step moves every row's total along y by the 1-D upwind
      scheme, because the x-advection keeps each row's total. */
  lemma StepRowSums(u: Grid, c: Coefficients)
    requires Rectangular(u) && c.area != 0.0 && c.coef == 0.0
    ensures RowSums(Step(u, c)) == Advection1D.Upwind(RowSums(u), c.forwardY, c.ky)
  {
    var r, sums := Step(u, c), RowSums(u);
    forall j | 0 <= j < |u|
      ensures RowSums(r)[j] == Advection1D.Upwind(sums, c.forwardY, c.ky)[j]
    {
      StepRowSum(u, c, j);
    }
  }

  lemma StepRowSum(u: Grid, c: Coefficients, j: int)
    requires Rectangular(u) && c.area != 0.0 && c.coef == 0.0 && 0 <= j < |u|
    ensures Sum(Step(u, c)[j]) == Advection1D.Upwind(RowSums(u), c.forwardY, c.ky)[j]
  {
    var row := Step(u, c)[j];
    var a := Advection1D.Upwind(u[j], c.forwardX, c.kx);
    Advection1D.UpwindSum(u[j], c.forwardX, c.kx);
    var p, q := Prev(j, |u|), Next(j, |u|);
    forall i | 0 <= i < |row|
      ensures DTerm(u, j, i, c.coef, c.area) == 0.0
    {
    }
    if c.forwardY {
      SumCombine(row, a, u[j], u[p], c.ky);
    } else {
      SumCombine(row, a, u[q], u[j], c.ky);
    }
  }

  /** Without diffusion the scheme is conservative: a step keeps the total of
      the field. */
  lemma StepSum(u: Grid, c: Coefficients)
    requires Rectangular(u) && c.area != 0.0 && c.coef == 0.0
    ensures Sum(Flatten(Step(u, c))) == Sum(Flatten(u))
  {
    StepRowSums(u, c);
    Advection1D.UpwindSum(RowSums(u), c.forwardY, c.ky);
    SumFlatten(u);
    SumFlatten(Step(u, c));
  }

  lemma {:induction false} EvolveSum(u0: Grid, c: Coefficients, n: nat)
    requires Rectangular(u0) && c.area != 0.0 && c.coef == 0.0
    ensures Sum(Flatten(Evolve(u0, c, n))) == Sum(Flatten(u0))
  {
    if n > 0 {
      EvolveSum(u0, c, n - 1);
      StepSum(Evolve(u0, c, n - 1), c);
    }
  }

  /** A uniform field is steady: the differences and the Laplacian vanish. */
  lemma StepUniform(u: Grid, c: Coefficients, v: real)
    requires Rectangular(u) && c.area != 0.0
    requires forall j, i :: 0 <= j < |u| && 0 <= i < |u[j]| ==> u[j][i] == v
    ensures Step(u, c) == u
  {
    var r := Step(u, c);
    forall j | 0 <= j < |u|
      ensures r[j] == u[j]
    {
      forall i | 0 <= i < |u[j]|
        ensures r[j][i] == u[j][i]
      {
        assert u[j][Prev(i, |u[j]|)] == v && u[j][Next(i, |u[j]|)] == v;
        assert u[Prev(j, |u|)][i] == v && u[Next(j, |u|)][i] == v;
        if Interior(u, j, i) {
          assert Laplacian(u, j, i) == 0.0;
        }
      }
    }
  }

  /** With no wind along y and no diffusion every row evolves on its own, by
      the 1-D upwind scheme. */
  lemma StepRows(u: Grid, c: Coefficients)
    requires Rectangular(u) && c.area != 0.0 && c.ky == 0.0 && c.coef == 0.0
    ensures forall j :: 0 <= j < |u| ==> Step(u, c)[j] == Advection1D.Upwind(u[j], c.forwardX, c.kx)
  {
    forall j | 0 <= j < |u|
      ensures Step(u, c)[j] == Advection1D.Upwind(u[j], c.forwardX, c.kx)
    {
      forall i | 0 <= i < |u[j]|
        ensures Step(u, c)[j][i] == Advection1D.Upwind(u[j], c.forwardX, c.kx)[i]
      {
        assert YTerm(u, j, i, c.forwardY, c.ky) == 0.0;
        assert DTerm(u, j, i, c.coef, c.area) == 0.0;
      }
    }
  }

  lemma {:induction false} EvolveRows(u0: Grid, c: Coefficients, n: nat)
    requires Rectangular(u0) && c.area != 0.0 && c.ky == 0.0 && c.coef == 0.0
    ensures forall j :: 0 <= j < |u0| ==> Evolve(u0, c, n)[j] == Advection1D.Evolve(u0[j], c.forwardX, c.kx, n)
  {
    if n > 0 {
      EvolveRows(u0, c, n - 1);
      StepRows(Evolve(u0, c, n - 1), c);
    }
  }

  /** The run raises exactly when a dimension is 1 or negative, or when a step
      is taken on an empty grid or with a zero output interval. */
  lemma SolutionErrors(nx: int, ny: int, cx: real, cy: real, diffusion: real, numSteps: int, outputInterval: int,
                       init: (real, real) -> real)
    ensures var r := Solution(nx, ny, cx, cy, diffusion, numSteps, outputInterval, init);
      && (r.Failure? <==> nx == 1 || ny == 1 || nx < 0 || ny < 0
                          || (numSteps >= 1 && (nx == 0 || ny == 0 || outputInterval == 0)))
      && (r == Failure(ZeroDivisionError) <==>
            nx == 1 || ny == 1 || (nx >= 2 && ny >= 2 && numSteps >= 1 && outputInterval == 0))
      && (r == Failure(ValueError) <==> nx != 1 && ny != 1 && (nx < 0 || ny < 0))
      && (r == Failure(IndexError) <==> nx != 1 && ny != 1 && nx >= 0 && ny >= 0 && (nx == 0 || ny == 0) && numSteps >= 1)
  {
  }

  /** A successful run of the time loop records the initial field, then one
      snapshot per multiple of the interval up to `num_steps`; each is the
      row-major flattening of the field after its step count, holds every
      cell, and without diffusion keeps the initial total. */
  lemma RunSeries(u0: Grid, c: Coefficients, numSteps: int, outputInterval: int)
    requires Rectangular(u0) && c.area != 0.0
    requires Run(u0, c, numSteps, outputInterval).Success?
    ensures var series := Run(u0, c, numSteps, outputInterval).value;
      && series[0].u == Flatten(u0)
      && (outputInterval != 0 ==>
            |series| == 1 + (if numSteps > 0 then numSteps else 0) / (if outputInterval > 0 then outputInterval else -outputInterval))
      && forall s :: s in series ==>
           && 0 <= s.step <= (if numSteps > 0 then numSteps else 0)
           && s.u == Flatten(Evolve(u0, c, s.step))
           && |s.u| == |u0| * Width(u0)
           && (c.coef == 0.0 ==> Sum(s.u) == Sum(Flatten(u0)))
  {
    var steps := if numSteps > 0 then numSteps else 0;
    var series := Series(Frames(u0, c), steps, outputInterval);
    if outputInterval != 0 {
      SeriesLength(Frames(u0, c), steps, outputInterval);
    }
    SeriesEntries(Frames(u0, c), steps, outputInterval);
    forall s | s in series
      ensures 0 <= s.step <= (if numSteps > 0 then numSteps else 0) && s.u == Flatten(Evolve(u0, c, s.step)) && |s.u| == |u0| * Width(u0)
      ensures c.coef == 0.0 ==> Sum(s.u) == Sum(Flatten(u0))
    {
      var k :| 0 <= k < |series| && series[k] == s;
      FlattenLength(Evolve(u0, c, s.step));
      if c.coef == 0.0 {
        EvolveSum(u0, c, s.step);
      }
    }
  }

  /** A successful solve runs the time loop on the sampled field, with the
      coefficients of the spacings and the stable time step. */
  lemma SolutionShape(nx: int, ny: int, cx: real, cy: real, diffusion: real, numSteps: int, outputInterval: int,
                      init: (real, real) -> real)
    requires Solution(nx, ny, cx, cy, diffusion, numSteps, outputInterval, init).Success?
    ensures nx >= 0 && ny >= 0
    ensures var dx, dy := Spacing(nx), Spacing(ny);
      var c := StepCoefficients(dx, dy, TimeStep(dx, dy, cx, cy, diffusion), cx, cy, diffusion);
      var out := Solution(nx, ny, cx, cy, diffusion, numSteps, outputInterval, init).value;
      && out == Output2D(nx, ny, cx, cy, diffusion, numSteps, out.series)
      && Run(InitialField(nx, ny, init), c, numSteps, outputInterval) == Success(out.series)
  {
  }

  /** The returned series: the initial field, then one snapshot per multiple of
      the interval up to `num_steps`; each snapshot is the row-major flattening
      of the field after its step count, holds `nx * ny` values, and without
      diffusion keeps the initial total. */
  lemma SolutionSeries(nx: int, ny: int, cx: real, cy: real, diffusion: real, numSteps: int, outputInterval: int,
                       init: (real, real) -> real)
    requires Solution(nx, ny, cx, cy, diffusion, numSteps, outputInterval, init).Success?
    ensures nx >= 0 && ny >= 0
    ensures var out := Solution(nx, ny, cx, cy, diffusion, numSteps, outputInterval, init).value;
      var dx, dy := Spacing(nx), Spacing(ny);
      var c := StepCoefficients(dx, dy, TimeStep(dx, dy, cx, cy, diffusion), cx, cy, diffusion);
      var u0 := InitialField(nx, ny, init);
      && out.series[0].u == Flatten(u0)
      && (outputInterval != 0 ==>
            |out.series| == 1 + (if numSteps > 0 then numSteps else 0) / (if outputInterval > 0 then outputInterval else -outputInterval))
      && forall s :: s in out.series ==>
           && 0 <= s.step <= (if numSteps > 0 then numSteps else 0)
           && s.u == Flatten(Evolve(u0, c, s.step))
           && |s.u| == nx * ny
           && (diffusion == 0.0 ==> Sum(s.u) == Sum(Flatten(u0)))
  {
    SolutionShape(nx, ny, cx, cy, diffusion, numSteps, outputInterval, init);
    var dx, dy := Spacing(nx), Spacing(ny);
    var c := StepCoefficients(dx, dy, TimeStep(dx, dy, cx, cy, diffusion), cx, cy, diffusion);
    var u0 := InitialField(nx, ny, init);
    RunSeries(u0, c, numSteps, outputInterval);
    assert |u0| * Width(u0) == nx * ny by {
      if ny > 0 {
        assert Width(u0) == nx;
      }
    }
    assert diffusion == 0.0 ==> c.coef == 0.0;
  }
}
