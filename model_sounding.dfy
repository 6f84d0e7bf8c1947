/** Model-derived soundings (RAP/HRRR): the parts of `get_model_sounding` that
    do not belong to Herbie, xarray or MetPy. These are the run-hour floor,
    the nearest grid point search, the alignment of dewpoint levels onto
    temperature levels, and the post-processing of the three columns into a
    profile. Temperatures are `Num` because the source filters them with
    `np.isfinite`. */
module ModelSounding {
  import opened Wrappers
  import Periodic

  // ---------------------------------------------------------------- run time

  /** The fields of a `datetime` that `_run_time_utc` reads or resets. */
  datatype DateTime = DateTime(year: int, month: int, day: int, hour: int, minute: int, second: int, microsecond: int)

  /** `_run_time_utc`: the latest run at or before `now`. Runs start every
      three hours, so the hour is floored to a multiple of 3 and the minutes,
      seconds and microseconds are zeroed. */
  function RunTime(now: DateTime): (run: DateTime)
    requires 0 <= now.hour < 24
    ensures run.year == now.year && run.month == now.month && run.day == now.day
    ensures run.minute == 0 && run.second == 0 && run.microsecond == 0
    ensures run.hour % 3 == 0 && run.hour <= now.hour < run.hour + 3
  {
    now.(hour := now.hour / 3 * 3, minute := 0, second := 0, microsecond := 0)
  }

  /** The run hour is one of 00, 03, ..., 21, and a run time is its own run. */
  lemma RunTimeStable(now: DateTime)
    requires 0 <= now.hour < 24
    ensures 0 <= RunTime(now).hour <= 21
    ensures RunTime(RunTime(now)) == RunTime(now)
  {
    var h := RunTime(now).hour;
    Periodic.DivModUnique(h, 3, h / 3, 0);
  }

  // ---------------------------------------------------------------- nearest grid point

  /** The longitude compared with a 0-360 grid: 360 is added to a negative
      longitude only; anything else, including a value above 360, is kept. */
  function NormalizeLon(lon: real): (r: real)
    ensures lon < 0.0 ==> r == lon + 360.0
    ensures lon >= 0.0 ==> r == lon
  {
    if 0.0 <= lon <= 360.0 then lon else if lon < 0.0 then lon + 360.0 else lon
  }

  /** A longitude in [-360, 360] lands in [0, 360]. */
  lemma NormalizeLonRange(lon: real)
    requires -360.0 <= lon <= 360.0
    ensures 0.0 <= NormalizeLon(lon) <= 360.0
  {
  }

  /** `a` is nearer than `b` under `np.where(np.isfinite(dist), dist, np.inf)`:
      a non-finite distance counts as infinity and is nearer than nothing. */
  predicate Nearer(a: Num, b: Num) {
    a.Finite? && (b.NonFinite? || a.v < b.v)
  }

  /** `k` is where the first minimum of `d` sits: nothing is nearer, and
      every earlier entry is strictly farther. */
  predicate IsFirstMin(d: seq<Num>, k: int) {
    && 0 <= k < |d|
    && (forall j :: 0 <= j < |d| ==> !Nearer(d[j], d[k]))
    && (forall j :: 0 <= j < k ==> Nearer(d[k], d[j]))
  }

  /** `np.argmin` (or `np.nanargmin` once non-finite values are infinity):
      the index of the first minimum; 0 when every entry is infinite. */
  function ArgMin(d: seq<Num>): (k: nat)
    requires d != []
    ensures IsFirstMin(d, k)
    decreases |d|
  {
    if |d| == 1 then 0
    else
      var init := d[..|d| - 1];
      var k := ArgMin(init);
      assert forall j :: 0 <= j < |d| - 1 ==> d[j] == init[j];
      if Nearer(d[|d| - 1], d[k]) then |d| - 1 else k
  }

  /** The first minimum is unique: any index with its two properties is the
      one `ArgMin` returns. */
  lemma ArgMinUnique(d: seq<Num>, k: int)
    requires d != [] && IsFirstMin(d, k)
    ensures k == ArgMin(d)
  {
    var m := ArgMin(d);
    assert !Nearer(d[k], d[m]) && !Nearer(d[m], d[k]);
  }

  /** Every entry infinite: the first index. */
  lemma ArgMinNoneFinite(d: seq<Num>)
    requires d != [] && forall j :: 0 <= j < |d| ==> d[j].NonFinite?
    ensures ArgMin(d) == 0
  {
    var k := ArgMin(d);
    assert !Nearer(d[k], d[0]);
  }

  /** `(lat_2d - lat) ** 2 + (lon_2d - lon_sel) ** 2` at one grid point. */
  function Dist(pointLat: Num, pointLon: Num, lat: real, lonSel: real): (d: Num)
    ensures d.Finite? <==> pointLat.Finite? && pointLon.Finite?
    ensures d.Finite? ==> d.v >= 0.0
  {
    if pointLat.Finite? && pointLon.Finite? then
      Finite((pointLat.v - lat) * (pointLat.v - lat) + (pointLon.v - lonSel) * (pointLon.v - lonSel))
    else NonFinite
  }

  type Field = seq<seq<Num>>

  function Width(g: Field): nat {
    if g == [] then 0 else |g[0]|
  }

  /** Two arrays of the same rectangular shape, as the latitude and
      longitude arrays of one dataset are. */
  predicate SameShape(a: Field, b: Field) {
    && |a| == |b|
    && (forall j :: 0 <= j < |a| ==> |a[j]| == Width(a))
    && (forall j :: 0 <= j < |b| ==> |b[j]| == Width(a))
  }

  /** `divmod(k, w)` of a row-major index names a cell of the grid. */
  lemma Unravel(k: int, w: int, rows: int)
    requires w > 0 && 0 <= k < rows * w
    ensures 0 <= k / w < rows && 0 <= k % w < w
    ensures k / w * w + k % w == k
  {
    assert (rows - k / w) * w > 0;
    FactorPositive(rows - k / w, w);
  }

  lemma FactorPositive(a: int, w: int)
    requires w > 0 && a * w > 0
    ensures a > 0
  {
  }

  /** The cell at row `j`, column `i` sits at `j * w + i` once flattened. */
  lemma Ravel(j: int, i: int, w: int, rows: int)
    requires w > 0 && 0 <= j < rows && 0 <= i < w
    ensures 0 <= j * w + i < rows * w
    ensures (j * w + i) / w == j && (j * w + i) % w == i
  {
    Periodic.DivModUnique(j * w + i, w, j, i);
    assert (rows - j) * w >= w by {
      Periodic.MulMono(rows - j, w);
    }
  }

  /** The distance array flattened in row-major order (`dist.flat`). */
  function Distances(lat2d: Field, lon2d: Field, lat: real, lonSel: real): (d: seq<Num>)
    requires SameShape(lat2d, lon2d)
    ensures |d| == |lat2d| * Width(lat2d)
  {
    var w := Width(lat2d);
    if w == 0 then []
    else
      seq(|lat2d| * w, k requires 0 <= k < |lat2d| * w =>
        Unravel(k, w, |lat2d|);
        Dist(lat2d[k / w][k % w], lon2d[k / w][k % w], lat, lonSel))
  }

  /** `_nearest_point_index`: the (row, column) of the first nearest grid
      point in row-major order; `np.nanargmin` raises `ValueError` on an empty
      grid. */
  function NearestPointIndex(lat2d: Field, lon2d: Field, lat: real, lon: real): (r: Result<(int, int)>)
    requires SameShape(lat2d, lon2d)
    ensures r.Failure? <==> |lat2d| == 0 || Width(lat2d) == 0
    ensures r.Failure? ==> r.error == ValueError
    ensures r.Success? ==>
      var (iy, ix) := r.value;
      && 0 <= iy < |lat2d| && 0 <= ix < Width(lat2d)
      && IsFirstMin(Distances(lat2d, lon2d, lat, NormalizeLon(lon)), iy * Width(lat2d) + ix)
  {
    var d := Distances(lat2d, lon2d, lat, NormalizeLon(lon));
    var w := Width(lat2d);
    if |lat2d| == 0 || w == 0 then Failure(ValueError)
    else
      var k := ArgMin(d);
      Unravel(k, w, |lat2d|);
      Success((k / w, k % w))
  }

  /** The chosen point, stated on the grid: no point is nearer, and every
      point before it in row-major order (an earlier row, or an earlier column
      of the same row) is strictly farther. */
  lemma NearestPointFirst(lat2d: Field, lon2d: Field, lat: real, lon: real, j: int, i: int)
    requires SameShape(lat2d, lon2d) && NearestPointIndex(lat2d, lon2d, lat, lon).Success?
    requires 0 <= j < |lat2d| && 0 <= i < Width(lat2d)
    ensures var (iy, ix) := NearestPointIndex(lat2d, lon2d, lat, lon).value;
      var lonSel := NormalizeLon(lon);
      var best := Dist(lat2d[iy][ix], lon2d[iy][ix], lat, lonSel);
      var here := Dist(lat2d[j][i], lon2d[j][i], lat, lonSel);
      && !Nearer(here, best)
      && ((j < iy || (j == iy && i < ix)) ==> Nearer(best, here))
  {
    var (iy, ix) := NearestPointIndex(lat2d, lon2d, lat, lon).value;
    var w, rows := Width(lat2d), |lat2d|;
    var d := Distances(lat2d, lon2d, lat, NormalizeLon(lon));
    Ravel(iy, ix, w, rows);
    Ravel(j, i, w, rows);
    var kb, kh := iy * w + ix, j * w + i;
    assert d[kb] == Dist(lat2d[iy][ix], lon2d[iy][ix], lat, NormalizeLon(lon));
    assert d[kh] == Dist(lat2d[j][i], lon2d[j][i], lat, NormalizeLon(lon));
    assert (j < iy || (j == iy && i < ix)) ==> kh < kb by {
      if j < iy {
        assert (iy - j) * w >= w by {
          Periodic.MulMono(iy - j, w);
        }
      }
    }
  }

  // ---------------------------------------------------------------- dewpoint alignment

  /** The distances `np.abs(pres_dpt - p)`. */
  function Gaps(levels: seq<real>, p: real): (g: seq<Num>)
    ensures |g| == |levels| && forall k :: 0 <= k < |levels| ==> g[k] == Finite(Abs(levels[k] - p))
  {
    seq(|levels|, k requires 0 <= k < |levels| => Finite(Abs(levels[k] - p)))
  }

  /** `j` of the alignment loop: `np.argmin(np.abs(pres_dpt - p))`, or 0 when
      there are no dewpoint levels. */
  function LevelIndex(presDpt: Option<seq<real>>, p: real): (j: nat)
    ensures presDpt.Some? && presDpt.value != [] ==> j < |presDpt.value|
  {
    if presDpt.None? || presDpt.value == [] then 0 else ArgMin(Gaps(presDpt.value, p))
  }

  /** The dewpoint given to a temperature level at pressure `p`: that of the
      nearest dewpoint level, or the temperature itself when that index is
      past the dewpoint values. */
  function DewpointFor(p: real, t: Num, presDpt: Option<seq<real>>, tdValues: seq<Num>): (td: Num)
    ensures td in tdValues || td == t
    ensures tdValues == [] ==> td == t
    ensures presDpt.Some? && |tdValues| >= |presDpt.value| > 0 ==> td in tdValues
  {
    var j := LevelIndex(presDpt, p);
    if j < |tdValues| then tdValues[j] else t
  }

  /** The dewpoint values are taken as they are when they come on as many
      levels as the temperature and `np.allclose` (the parameter `close`)
      holds for the two pressure arrays. */
  predicate Matched(pres: seq<real>, presDpt: Option<seq<real>>, close: bool) {
    presDpt.Some? && |presDpt.value| == |pres| && close
  }

  function AlignedDewpoints(pres: seq<real>, tK: seq<Num>, presDpt: Option<seq<real>>, tdValues: seq<Num>,
                            close: bool): (td: seq<Num>)
    requires |tK| == |pres|
    ensures Matched(pres, presDpt, close) ==> td == tdValues
    ensures !Matched(pres, presDpt, close) ==>
      |td| == |pres| && forall i :: 0 <= i < |pres| ==> td[i] in tdValues || td[i] == tK[i]
  {
    if Matched(pres, presDpt, close) then tdValues
    else seq(|pres|, i requires 0 <= i < |pres| => DewpointFor(pres[i], tK[i], presDpt, tdValues))
  }

  /** The alignment branch of `get_model_sounding`: either the dewpoint values
      as they are, or an array like `t_k` filled level by level. */
  method AlignDewpoint(pres: seq<real>, tK: seq<Num>, presDpt: Option<seq<real>>, tdValues: seq<Num>, close: bool)
    returns (tdK: seq<Num>)
    requires |tK| == |pres|
    ensures tdK == AlignedDewpoints(pres, tK, presDpt, tdValues, close)
  {
    if Matched(pres, presDpt, close) {
      return tdValues;
    }
    var td := new Num[|tK|](_ => Finite(0.0));
    for i := 0 to |pres|
      invariant forall k :: 0 <= k < i ==> td[k] == DewpointFor(pres[k], tK[k], presDpt, tdValues)
    {
      var j := LevelIndex(presDpt, pres[i]);
      td[i] := if j < |tdValues| then tdValues[j] else tK[i];
      assert td[i] == DewpointFor(pres[i], tK[i], presDpt, tdValues);
    }
    tdK := td[..];
    assert |tdK| == |pres|;
  }

  /** Unless the values are taken as they are, there is one dewpoint per
      temperature level: the value at the first nearest dewpoint level, or at
      index 0 when there are no dewpoint levels, and the temperature itself
      when that index is past the dewpoint values. */
  lemma AlignedLevels(pres: seq<real>, tK: seq<Num>, presDpt: Option<seq<real>>, tdValues: seq<Num>, close: bool,
                      i: int)
    requires |tK| == |pres| && !Matched(pres, presDpt, close) && 0 <= i < |pres|
    ensures var td := AlignedDewpoints(pres, tK, presDpt, tdValues, close);
      && |td| == |pres|
      && (presDpt.Some? && presDpt.value != [] ==>
            exists j :: IsFirstMin(Gaps(presDpt.value, pres[i]), j)
                     && td[i] == (if j < |tdValues| then tdValues[j] else tK[i]))
      && ((presDpt.None? || presDpt.value == []) ==> td[i] == (if tdValues != [] then tdValues[0] else tK[i]))
  {
    if presDpt.Some? && presDpt.value != [] {
      var j := LevelIndex(presDpt, pres[i]);
      assert IsFirstMin(Gaps(presDpt.value, pres[i]), j);
    }
  }

  /** On the temperature's own pressure levels (all distinct) the nearest
      level of each is itself, so both branches give the dewpoint values
      unchanged whatever `np.allclose` says. */
  lemma AlignSameLevels(pres: seq<real>, tK: seq<Num>, tdValues: seq<Num>, close: bool)
    requires |tK| == |pres| == |tdValues|
    requires forall a, b :: 0 <= a < b < |pres| ==> pres[a] != pres[b]
    ensures AlignedDewpoints(pres, tK, Some(pres), tdValues, close) == tdValues
  {
    if !close {
      forall i | 0 <= i < |pres|
        ensures LevelIndex(Some(pres), pres[i]) == i
      {
        var g := Gaps(pres, pres[i]);
        forall j | 0 <= j < i
          ensures Nearer(g[i], g[j])
        {
          assert pres[j] != pres[i];
        }
        ArgMinUnique(g, i);
      }
    }
  }

  // ---------------------------------------------------------------- post-processing

  /** One pressure level: hPa, temperature and dewpoint. */
  datatype Level = Level(p: real, t: Num, td: Num)

  /** One record of the returned `profile`. */
  datatype ProfileLevel = ProfileLevel(pHpa: real, tC: real, tdC: real)

  const KelvinOffset: real := 273.15

  /** The least number of valid levels for a profile. */
  const MinLevels: nat := 5

  /** The three columns taken level by level (`zip`); a dewpoint column longer
      than the pressures is only read up to their count. */
  function Levels(pres: seq<real>, tK: seq<Num>, tdK: seq<Num>): (ls: seq<Level>)
    requires |tK| == |pres| <= |tdK|
    ensures |ls| == |pres| && forall k :: 0 <= k < |pres| ==> ls[k] == Level(pres[k], tK[k], tdK[k])
  {
    seq(|pres|, k requires 0 <= k < |pres| => Level(pres[k], tK[k], tdK[k]))
  }

  predicate NonIncreasing(ls: seq<Level>) {
    forall a, b :: 0 <= a < b < |ls| ==> ls[a].p >= ls[b].p
  }

  /** Puts `l` into a list after every level of higher or equal pressure. */
  function Insert(l: Level, ls: seq<Level>): seq<Level> {
    if ls == [] || ls[0].p <= l.p then [l] + ls
    else [ls[0]] + Insert(l, ls[1..])
  }

  /** Insertion adds exactly `l`. */
  lemma {:induction false} InsertCount(l: Level, ls: seq<Level>)
    ensures multiset(Insert(l, ls)) == multiset(ls) + multiset{l}
  {
    if ls != [] && ls[0].p > l.p {
      assert ls == [ls[0]] + ls[1..];
      InsertCount(l, ls[1..]);
    }
  }

  /** Insertion keeps the list non-increasing. */
  lemma {:induction false} InsertSorted(l: Level, ls: seq<Level>)
    requires NonIncreasing(ls)
    ensures NonIncreasing(Insert(l, ls))
  {
    if ls == [] || ls[0].p <= l.p {
      forall x | x in ls
        ensures x.p <= l.p
      {
        var k :| 0 <= k < |ls| && ls[k] == x;
      }
      ConsNonIncreasing(l, ls);
    } else {
      var h, tail := ls[0], ls[1..];
      InsertSorted(l, tail);
      var rest := Insert(l, tail);
      forall x | x in rest
        ensures x.p <= h.p
      {
        InsertCount(l, tail);
        assert x in multiset(rest);
        if x != l {
          assert x in multiset(tail);
          var k :| 0 <= k < |tail| && tail[k] == x;
          assert ls[k + 1] == x;
        }
      }
      ConsNonIncreasing(h, rest);
    }
  }

  /** `np.argsort(pres)[::-1]` applied to the levels: the same levels by
      pressure, highest first. */
  function SortDescending(ls: seq<Level>): (r: seq<Level>)
    ensures NonIncreasing(r) && multiset(r) == multiset(ls) && |r| == |ls|
  {
    if ls == [] then []
    else
      assert ls == [ls[0]] + ls[1..];
      var rest := SortDescending(ls[1..]);
      InsertSorted(ls[0], rest);
      InsertCount(ls[0], rest);
      Insert(ls[0], rest)
  }

  lemma ConsNonIncreasing(h: Level, rest: seq<Level>)
    requires NonIncreasing(rest) && forall x :: x in rest ==> x.p <= h.p
    ensures NonIncreasing([h] + rest)
  {
    forall a, b | 0 <= a < b < |rest| + 1
      ensures ([h] + rest)[a].p >= ([h] + rest)[b].p
    {
      assert ([h] + rest)[b] == rest[b - 1];
      if a > 0 {
        assert ([h] + rest)[a] == rest[a - 1];
      }
    }
  }

  /** `x - 273.15`, keeping a non-finite value non-finite. */
  function Celsius(n: Num): Num {
    if n.Finite? then Finite(n.v - KelvinOffset) else NonFinite
  }

  function ToCelsius(l: Level): Level {
    Level(l.p, Celsius(l.t), Celsius(l.td))
  }

  /** The inverse of `ToCelsius`. */
  function ToKelvin(l: Level): Level {
    Level(l.p, if l.t.Finite? then Finite(l.t.v + KelvinOffset) else NonFinite,
               if l.td.Finite? then Finite(l.td.v + KelvinOffset) else NonFinite)
  }

  /** Converts the temperature and dewpoint columns, level by level. */
  function Convert(ls: seq<Level>): (r: seq<Level>)
    ensures |r| == |ls| && forall k :: 0 <= k < |ls| ==> r[k] == ToCelsius(ls[k])
  {
    if ls == [] then [] else [ToCelsius(ls[0])] + Convert(ls[1..])
  }

  /** The validity filter: pressure strictly between 50 and 1050 hPa, and
      finite temperature and dewpoint. */
  predicate Valid(l: Level) {
    50.0 < l.p < 1050.0 && l.t.Finite? && l.td.Finite?
  }

  /** The valid levels, in order. */
  function Keep(ls: seq<Level>): (r: seq<Level>)
    ensures |r| <= |ls| && forall x :: x in r ==> x in ls && Valid(x)
  {
    if ls == [] then []
    else if Valid(ls[0]) then [ls[0]] + Keep(ls[1..])
    else Keep(ls[1..])
  }

  function Record(l: Level): ProfileLevel
    requires Valid(l)
  {
    ProfileLevel(l.p, l.t.v, l.td.v)
  }

  /** One `{p_hpa, T_C, Td_C}` profile record per level, in order. */
  function Records(ls: seq<Level>): (r: seq<ProfileLevel>)
    requires forall x :: x in ls ==> Valid(x)
    ensures |r| == |ls| && forall k :: 0 <= k < |ls| ==> r[k] == Record(ls[k])
  {
    seq(|ls|, k requires 0 <= k < |ls| => Record(ls[k]))
  }

  /** The sorted, converted and filtered levels. */
  function Kept(pres: seq<real>, tK: seq<Num>, tdK: seq<Num>): (r: seq<Level>)
    requires |tK| == |pres| <= |tdK|
    ensures |r| <= |pres|
    ensures forall x :: x in r ==> Valid(x)
  {
    Keep(Convert(SortDescending(Levels(pres, tK, tdK))))
  }

  /** The post-processing of the extracted columns: sort by pressure, convert to degrees C,
      keep the valid levels, give up below five of them, and build one record
      per kept level. Indexing `td_k` with the sort order raises `IndexError`
      when it has fewer entries than there are pressures. */
  function PostProcess(pres: seq<real>, tK: seq<Num>, tdK: seq<Num>): (r: Result<Option<seq<ProfileLevel>>>)
    requires |tK| == |pres|
    ensures r.Failure? <==> |tdK| < |pres|
    ensures r.Failure? ==> r.error == IndexError
    ensures r.Success? && r.value.Some? ==>
      var kept := Kept(pres, tK, tdK);
      && |r.value.value| == |kept| >= MinLevels
      && forall k :: 0 <= k < |kept| ==> r.value.value[k] == Record(kept[k])
    ensures r.Success? ==> (r.value.None? <==> |Kept(pres, tK, tdK)| < MinLevels)
  {
    if |tdK| < |pres| then Failure(IndexError)
    else
      var kept := Kept(pres, tK, tdK);
      if |kept| < MinLevels then Success(None)
      else Success(Some(Records(kept)))
  }

  /** How often `y` occurs among the converted levels: as often as the level
      it came from among the originals. */
  lemma {:induction false} ConvertCount(ls: seq<Level>, y: Level)
    ensures multiset(Convert(ls))[y] == multiset(ls)[ToKelvin(y)]
  {
    if ls != [] {
      var h, rest := ls[0], ls[1..];
      assert ls == [h] + rest;
      assert Convert(ls) == [ToCelsius(h)] + Convert(rest);
      ConvertCount(rest, y);
      CelsiusInverse(h, y);
      assert multiset(Convert(ls))[y] == multiset([ToCelsius(h)])[y] + multiset(Convert(rest))[y];
      assert multiset(ls)[ToKelvin(y)] == multiset([h])[ToKelvin(y)] + multiset(rest)[ToKelvin(y)];
    }
  }

  lemma CelsiusInverse(l: Level, y: Level)
    ensures ToCelsius(l) == y <==> l == ToKelvin(y)
  {
    assert ToKelvin(ToCelsius(l)) == l;
    assert ToCelsius(ToKelvin(y)) == y;
  }

  /** Converting a permutation gives a permutation. */
  lemma ConvertPermutation(a: seq<Level>, b: seq<Level>)
    requires multiset(a) == multiset(b)
    ensures multiset(Convert(a)) == multiset(Convert(b))
  {
    forall y
      ensures multiset(Convert(a))[y] == multiset(Convert(b))[y]
    {
      ConvertCount(a, y);
      ConvertCount(b, y);
    }
  }

  /** How often `x` occurs among the kept levels: as often as in the input if
      it is valid, never otherwise. */
  lemma {:induction false} KeepCount(ls: seq<Level>, x: Level)
    ensures multiset(Keep(ls))[x] == if Valid(x) then multiset(ls)[x] else 0
  {
    if ls != [] {
      KeepCount(ls[1..], x);
      assert ls == [ls[0]] + ls[1..];
    }
  }

  /** Filtering a permutation gives a permutation. */
  lemma KeepPermutation(a: seq<Level>, b: seq<Level>)
    requires multiset(a) == multiset(b)
    ensures multiset(Keep(a)) == multiset(Keep(b))
  {
    forall x
      ensures multiset(Keep(a))[x] == multiset(Keep(b))[x]
    {
      KeepCount(a, x);
      KeepCount(b, x);
    }
  }

  /** Keeping an order-preserving subsequence keeps a non-increasing list
      non-increasing. */
  lemma {:induction false} KeepNonIncreasing(ls: seq<Level>)
    requires NonIncreasing(ls)
    ensures NonIncreasing(Keep(ls))
  {
    if ls != [] {
      KeepNonIncreasing(ls[1..]);
      var rest := Keep(ls[1..]);
      forall x | x in rest
        ensures x.p <= ls[0].p
      {
        var k :| 0 <= k < |ls[1..]| && ls[1..][k] == x;
        assert ls[k + 1] == x;
      }
    }
  }

  /** The kept levels: valid, ordered by pressure from the surface up, and
      (as a multiset) exactly the valid converted input levels; sorting
      before filtering drops nothing and invents nothing. */
  lemma KeptLevels(pres: seq<real>, tK: seq<Num>, tdK: seq<Num>)
    requires |tK| == |pres| <= |tdK|
    ensures var kept := Kept(pres, tK, tdK);
      && NonIncreasing(kept)
      && (forall k :: 0 <= k < |kept| ==> Valid(kept[k]))
      && multiset(kept) == multiset(Keep(Convert(Levels(pres, tK, tdK))))
  {
    var ls := Levels(pres, tK, tdK);
    var sorted := SortDescending(ls);
    ConvertPermutation(sorted, ls);
    KeepPermutation(Convert(sorted), Convert(ls));
    assert NonIncreasing(Convert(sorted));
    KeepNonIncreasing(Convert(sorted));
  }

  /** `r` is the input level at some index, converted: its pressure is that
      input pressure and its temperature and dewpoint the Kelvin values there
      less 273.15. */
  predicate FromInput(pres: seq<real>, tK: seq<Num>, tdK: seq<Num>, r: ProfileLevel) {
    exists i :: 0 <= i < |pres| && i < |tK| && i < |tdK| && r.pHpa == pres[i]
              && tK[i] == Finite(r.tC + KelvinOffset) && tdK[i] == Finite(r.tdC + KelvinOffset)
  }

  /** Each kept level is valid and its record comes from an input level. */
  lemma KeptTraced(pres: seq<real>, tK: seq<Num>, tdK: seq<Num>, x: Level)
    requires |tK| == |pres| <= |tdK|
    requires x in Keep(Convert(Levels(pres, tK, tdK)))
    ensures Valid(x) && FromInput(pres, tK, tdK, Record(x))
  {
    var ls := Levels(pres, tK, tdK);
    var conv := Convert(ls);
    assert x in conv;
    var i :| 0 <= i < |conv| && conv[i] == x;
    assert ToCelsius(ls[i]) == x;
    assert ls[i] == Level(pres[i], tK[i], tdK[i]);
  }

  /** What a returned profile promises about the input columns: pressures
      strictly inside (50, 1050) hPa and non-increasing, and every record
      taken from an input level. */
  predicate ProfileOf(pres: seq<real>, tK: seq<Num>, tdK: seq<Num>, prof: seq<ProfileLevel>) {
    && (forall k :: 0 <= k < |prof| ==> 50.0 < prof[k].pHpa < 1050.0)
    && (forall a, b :: 0 <= a < b < |prof| ==> prof[a].pHpa >= prof[b].pHpa)
    && forall k :: 0 <= k < |prof| ==> FromInput(pres, tK, tdK, prof[k])
  }

  /** The records of sorted, valid levels taken from the input form a profile
      of it. */
  lemma RecordsTraced(pres: seq<real>, tK: seq<Num>, tdK: seq<Num>, kept: seq<Level>)
    requires NonIncreasing(kept)
    requires forall x :: x in kept ==> Valid(x) && FromInput(pres, tK, tdK, Record(x))
    ensures ProfileOf(pres, tK, tdK, Records(kept))
  {
    var prof := Records(kept);
    forall a, b | 0 <= a < b < |prof|
      ensures prof[a].pHpa >= prof[b].pHpa
    {
      assert prof[a].pHpa == kept[a].p && prof[b].pHpa == kept[b].p;
    }
    forall k | 0 <= k < |prof|
      ensures 50.0 < prof[k].pHpa < 1050.0 && FromInput(pres, tK, tdK, prof[k])
    {
      assert kept[k] in kept;
    }
  }

  /** The kept levels are sorted, valid and each taken from the input. */
  lemma KeptFromInput(pres: seq<real>, tK: seq<Num>, tdK: seq<Num>)
    requires |tK| == |pres| <= |tdK|
    ensures NonIncreasing(Kept(pres, tK, tdK))
    ensures forall x :: x in Kept(pres, tK, tdK) ==> Valid(x) && FromInput(pres, tK, tdK, Record(x))
  {
    var kept := Kept(pres, tK, tdK);
    KeptLevels(pres, tK, tdK);
    forall x | x in kept
      ensures Valid(x) && FromInput(pres, tK, tdK, Record(x))
    {
      assert x in multiset(kept);
      assert x in multiset(Keep(Convert(Levels(pres, tK, tdK))));
      KeptTraced(pres, tK, tdK, x);
    }
  }

  /** The returned profile: at least five records, pressures strictly inside
      (50, 1050) hPa and non-increasing, temperatures and dewpoints the input
      Kelvin values less 273.15. */
  lemma ProfileLevels(pres: seq<real>, tK: seq<Num>, tdK: seq<Num>)
    requires |tK| == |pres| && PostProcess(pres, tK, tdK).Success? && PostProcess(pres, tK, tdK).value.Some?
    ensures |PostProcess(pres, tK, tdK).value.value| >= MinLevels
    ensures ProfileOf(pres, tK, tdK, PostProcess(pres, tK, tdK).value.value)
  {
    var kept := Kept(pres, tK, tdK);
    KeptFromInput(pres, tK, tdK);
    assert PostProcess(pres, tK, tdK).value.value == Records(kept);
    RecordsTraced(pres, tK, tdK, kept);
  }

  /** The steps after the dewpoint alignment, with the alignment's result:
      only a dewpoint column taken as it is can be too short. */
  lemma AlignedPostProcess(pres: seq<real>, tK: seq<Num>, presDpt: Option<seq<real>>, tdValues: seq<Num>,
                           close: bool)
    requires |tK| == |pres|
    ensures PostProcess(pres, tK, AlignedDewpoints(pres, tK, presDpt, tdValues, close)).Failure? <==>
              Matched(pres, presDpt, close) && |tdValues| < |pres|
  {
  }
}
