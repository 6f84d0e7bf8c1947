/** What the two advection solvers share: the grid on [0, 1], sums and
    periodic shifts of a field sampled on it, the snapshot series recorded every `output_interval`
    steps, and the integer division facts used to count its entries. */
module Periodic {

  // ---------------------------------------------------------------- integer division

  lemma MulMono(a: int, n: int)
    requires a >= 1 && n > 0
    ensures a * n >= n
  {
  }

  /** Quotient and remainder are determined by `x == q * n + r` with `0 <= r < n`. */
  lemma DivModUnique(x: int, n: int, q: int, r: int)
    requires n > 0 && 0 <= r < n && x == q * n + r
    ensures x / n == q && x % n == r
  {
    var q', r' := x / n, x % n;
    assert (q - q') * n == r' - r;
    if q > q' {
      MulMono(q - q', n);
    } else if q < q' {
      MulMono(q' - q, n);
    }
  }

  /** Moving on by `n` or by `n - 1` steps counts one more multiple of `m` exactly when `n` is one. */
  lemma DivStep(n: int, m: int)
    requires m > 0 && n >= 1
    ensures n / m == (n - 1) / m + (if n % m == 0 then 1 else 0)
  {
    var q, r := (n - 1) / m, (n - 1) % m;
    if r == m - 1 {
      DivModUnique(n, m, q + 1, 0);
    } else {
      DivModUnique(n, m, q, r + 1);
    }
  }

  /** The remainder (and so divisibility) does not depend on the divisor's sign. */
  lemma ModNegDivisor(x: int, d: int)
    requires d < 0
    ensures x % d == x % -d
  {
    DivModUnique(x, -d, -(x / d), x % d);
  }

  /** Subtracting after reducing modulo `n` gives the same residue as subtracting first. */
  lemma ModSubCongruent(x: int, a: int, n: int)
    requires n > 0
    ensures (x % n - a) % n == (x - a) % n
  {
    var q, z := x / n, x - a;
    assert x % n - a == z - q * n;
    assert z == (z / n) * n + z % n;
    assert z - q * n == (z / n - q) * n + z % n;
    DivModUnique(z - q * n, n, z / n - q, z % n);
  }

  // ---------------------------------------------------------------- grid

  /** `np.linspace(0, 1, nx)`: `nx` evenly spaced points from 0 to 1. */
  function Linspace(nx: nat): (x: seq<real>)
    ensures |x| == nx
  {
    seq(nx, i requires 0 <= i < nx => if nx == 1 then 0.0 else i as real / (nx - 1) as real)
  }

  /** `dx = 1.0 / (nx - 1)`. */
  function Spacing(nx: int): (dx: real)
    requires nx != 1
    ensures dx != 0.0
  {
    1.0 / (nx - 1) as real
  }

  // ---------------------------------------------------------------- sums

  /** The upwind correction `k * (a - b)` that a step subtracts from a cell,
      for Courant number `k` and the difference `a - b` across the upwind face. */
  function Flux(k: real, a: real, b: real): real {
    k * (a - b)
  }

  function Sum(s: seq<real>): real {
    if s == [] then 0.0 else s[0] + Sum(s[1..])
  }

  lemma {:induction false} SumAppend(a: seq<real>, b: seq<real>)
    ensures Sum(a + b) == Sum(a) + Sum(b)
  {
    if a == [] {
      assert a + b == b;
    } else {
      assert (a + b)[1..] == a[1..] + b;
      SumAppend(a[1..], b);
    }
  }

  /** The sum is linear: a field built cell by cell as `a - Flux(k, b, c)` sums
      to `Sum(a) - Flux(k, Sum(b), Sum(c))`. */
  lemma {:induction false} SumCombine(r: seq<real>, a: seq<real>, b: seq<real>, c: seq<real>, k: real)
    requires |r| == |a| == |b| == |c|
    requires forall i :: 0 <= i < |r| ==> r[i] == a[i] - Flux(k, b[i], c[i])
    ensures Sum(r) == Sum(a) - Flux(k, Sum(b), Sum(c))
  {
    if r != [] {
      SumCombine(r[1..], a[1..], b[1..], c[1..], k);
      assert Sum(r) == r[0] + Sum(r[1..]);
      assert r[0] == a[0] - Flux(k, b[0], c[0]);
    }
  }

  /** When `b` and `c` have the same sum, subtracting `k * (b - c)` cell by cell
      keeps the sum of `a`. */
  lemma {:induction false} SumCancel(r: seq<real>, a: seq<real>, b: seq<real>, c: seq<real>, k: real)
    requires |r| == |a| == |b| == |c| && Sum(b) == Sum(c)
    requires forall i :: 0 <= i < |r| ==> r[i] == a[i] - Flux(k, b[i], c[i])
    ensures Sum(r) == Sum(a)
  {
    SumCombine(r, a, b, c, k);
    var gap := Sum(b) - Sum(c);
    assert gap == 0.0;
    assert k * gap == 0.0;
  }

  /** A field whose every cell is zero sums to zero. */
  lemma {:induction false} SumZero(s: seq<real>)
    requires forall i :: 0 <= i < |s| ==> s[i] == 0.0
    ensures Sum(s) == 0.0
  {
    if s != [] {
      SumZero(s[1..]);
    }
  }

  // ---------------------------------------------------------------- periodic shifts

  /** The field moved `d` cells towards higher indices, wrapping around the ends
      (`np.roll(u, d)`). */
  function Shift(u: seq<real>, d: int): (r: seq<real>)
    ensures |r| == |u|
  {
    seq(|u|, i requires 0 <= i < |u| => u[(i - d) % |u|])
  }

  lemma ShiftZero(u: seq<real>)
    ensures Shift(u, 0) == u
  {
  }

  /** Moving by `a` and then by `b` is moving by `a + b`. */
  lemma ShiftShift(u: seq<real>, a: int, b: int)
    ensures Shift(Shift(u, a), b) == Shift(u, a + b)
  {
    forall i | 0 <= i < |u|
      ensures Shift(Shift(u, a), b)[i] == Shift(u, a + b)[i]
    {
      ShiftShiftAt(u, a, b, i);
    }
  }

  lemma ShiftShiftAt(u: seq<real>, a: int, b: int, i: int)
    requires 0 <= i < |u|
    ensures Shift(Shift(u, a), b)[i] == Shift(u, a + b)[i]
  {
    var n := |u|;
    var j := (i - b) % n;
    ModSubCongruent(i - b, a, n);
    assert (j - a) % n == (i - (a + b)) % n;
  }

  /** The periodic left neighbour of cell `i` of `n`: the last cell for the first one. */
  function Prev(i: int, n: int): (j: int)
    requires 0 <= i < n
    ensures 0 <= j < n
  {
    if i == 0 then n - 1 else i - 1
  }

  /** The periodic right neighbour of cell `i` of `n`: the first cell for the last one. */
  function Next(i: int, n: int): (j: int)
    requires 0 <= i < n
    ensures 0 <= j < n
  {
    if i == n - 1 then 0 else i + 1
  }

  /** Shifting by one cell either way reads each cell's periodic neighbour. */
  lemma ShiftOne(u: seq<real>)
    ensures forall i :: 0 <= i < |u| ==> Shift(u, 1)[i] == u[Prev(i, |u|)]
    ensures forall i :: 0 <= i < |u| ==> Shift(u, -1)[i] == u[Next(i, |u|)]
  {
    var n := |u|;
    forall i | 0 <= i < n
      ensures (i - 1) % n == Prev(i, n) && (i + 1) % n == Next(i, n)
    {
      if i == 0 {
        DivModUnique(-1, n, -1, n - 1);
      } else {
        DivModUnique(i - 1, n, 0, i - 1);
      }
      if i == n - 1 {
        DivModUnique(n, n, 1, 0);
      } else {
        DivModUnique(i + 1, n, 0, i + 1);
      }
    }
  }

  /** Reading every cell's left (or every cell's right) neighbour keeps the sum. */
  lemma NeighbourSum(u: seq<real>)
    ensures Sum(seq(|u|, i requires 0 <= i < |u| => u[Prev(i, |u|)])) == Sum(u)
    ensures Sum(seq(|u|, i requires 0 <= i < |u| => u[Next(i, |u|)])) == Sum(u)
  {
    var n := |u|;
    if n > 0 {
      var right := [u[n - 1]] + u[..n - 1];
      var left := u[1..] + [u[0]];
      assert seq(n, i requires 0 <= i < n => u[Prev(i, n)]) == right;
      assert seq(n, i requires 0 <= i < n => u[Next(i, n)]) == left;
      SumAppend([u[n - 1]], u[..n - 1]);
      SumAppend(u[..n - 1], [u[n - 1]]);
      assert u[..n - 1] + [u[n - 1]] == u;
      SumAppend(u[1..], [u[0]]);
      SumAppend([u[0]], u[1..]);
      assert [u[0]] + u[1..] == u;
    }
  }

  // ---------------------------------------------------------------- snapshot series

  /** One `{"step": n, "u": [...]}` record of the returned series. */
  datatype Snapshot = Snapshot(step: int, u: seq<real>)

  /** The series after `m` time steps: the initial field, then the field after
      every step `n` with `n % interval == 0`; `frames(n)` is the field after
      `n` steps. */
  function Series(frames: nat -> seq<real>, m: nat, interval: int): (series: seq<Snapshot>)
    requires m > 0 ==> interval != 0
    ensures |series| >= 1 && series[0] == Snapshot(0, frames(0))
  {
    if m == 0 then [Snapshot(0, frames(0))]
    else Series(frames, m - 1, interval) + (if m % interval == 0 then [Snapshot(m, frames(m))] else [])
  }

  /** The series holds the initial field and one entry per multiple of the
      interval up to `m`. */
  lemma {:induction false} SeriesLength(frames: nat -> seq<real>, m: nat, interval: int)
    requires interval != 0
    ensures |Series(frames, m, interval)| == 1 + m / (if interval > 0 then interval else -interval)
  {
    var d := if interval > 0 then interval else -interval;
    if m > 0 {
      var hit := m % interval == 0;
      assert hit == (m % d == 0) by {
        if interval < 0 {
          ModNegDivisor(m, interval);
        }
      }
      var prev := |Series(frames, m - 1, interval)|;
      assert |Series(frames, m, interval)| == prev + (if hit then 1 else 0);
      SeriesLength(frames, m - 1, interval);
      CountStep(prev, m, d, hit);
    } else {
      DivZero(d);
    }
  }

  lemma CountStep(prev: int, m: int, d: int, hit: bool)
    requires d > 0 && m >= 1 && prev == 1 + (m - 1) / d && hit == (m % d == 0)
    ensures prev + (if hit then 1 else 0) == 1 + m / d
  {
    DivStep(m, d);
  }

  lemma DivZero(d: int)
    requires d > 0
    ensures 0 / d == 0
  {
  }

  /** Each entry is the field after its own step count, a multiple of the
      interval (after the initial one) and no later than `m`. */
  lemma {:induction false} SeriesEntries(frames: nat -> seq<real>, m: nat, interval: int)
    requires m > 0 ==> interval != 0
    ensures forall k :: 0 <= k < |Series(frames, m, interval)| ==>
              var e := Series(frames, m, interval)[k];
              0 <= e.step <= m && e.u == frames(e.step) && (k > 0 ==> e.step % interval == 0)
  {
    if m > 0 {
      SeriesEntries(frames, m - 1, interval);
    }
  }

  /** The steps of the series increase strictly. */
  lemma {:induction false} SeriesIncreasing(frames: nat -> seq<real>, m: nat, interval: int)
    requires m > 0 ==> interval != 0
    ensures forall k, l :: 0 <= k < l < |Series(frames, m, interval)| ==>
              Series(frames, m, interval)[k].step < Series(frames, m, interval)[l].step
  {
    if m > 0 {
      SeriesIncreasing(frames, m - 1, interval);
      SeriesEntries(frames, m - 1, interval);
    }
  }

  /** Every multiple of the interval up to `m` has its entry. */
  lemma {:induction false} SeriesComplete(frames: nat -> seq<real>, m: nat, interval: int, n: nat)
    requires interval != 0 && 0 < n <= m && n % interval == 0
    ensures Snapshot(n, frames(n)) in Series(frames, m, interval)
  {
    if n < m {
      SeriesComplete(frames, m - 1, interval, n);
    }
  }
}
